/** The decoder's meaning does not depend on how its input is split across reads,
    except at one place, which is identified exactly. */
module ChunkedSplit {
  import opened Octets
  import opened Headers
  import opened Chunked

  // ---- Running the decoder --------------------------------------------------------

  datatype Stop =
    | Hungry(dec: Decoder, rest: bytes)
    | Failed(error: ChunkedError)
    | Ended(rest: bytes)

  /** What repeated polls over one buffer deliver, up to the first that needs more
      input, refuses, or ends the body. */
  datatype Drained = Drained(body: bytes, trailers: seq<Field>, stop: Stop)

  function Before(body: bytes, trailers: seq<Field>, r: Drained): Drained {
    Drained(body + r.body, trailers + r.trailers, r.stop)
  }

  function Drain(l: Limits, d: Decoder, buf: bytes): Drained
    decreases |buf|, if d.phase == AwaitData then 1 else 0
  {
    match Next(l, d, buf)
    case Starved => Drained([], [], Hungry(d, buf))
    case Refused(e, _, _) => Drained([], [], Failed(e))
    case Moved(d', used) => Drain(l, d', buf[used..])
    case Produced(ev, d', used) =>
      match ev
      case Data(x) => Before(x, [], Drain(l, d', buf[used..]))
      case TrailerSection(ts) => Before([], ts, Drain(l, d', buf[used..]))
      case End => Drained([], [], Ended(buf))
  }

  lemma DrainMoved(l: Limits, d: Decoder, buf: bytes)
    ensures var t := Next(l, d, buf);
            t.Moved? ==> Drain(l, d, buf) == Drain(l, t.dec, buf[t.used..])
    ensures Next(l, d, buf).Refused? ==> Drain(l, d, buf) == Drained([], [], Failed(Next(l, d, buf).error))
  {
    hide Next;
  }

  lemma DrainData(l: Limits, d: Decoder, buf: bytes)
    requires Next(l, d, buf).Produced? && Next(l, d, buf).event.Data?
    ensures var t := Next(l, d, buf);
            Drain(l, d, buf) == Before(t.event.data, [], Drain(l, t.dec, buf[t.used..]))
  {
    hide Next;
  }

  /** Draining is polling: each poll contributes its event and hands on the rest. */
  lemma {:induction false} DrainIsPolling(l: Limits, d: Decoder, buf: bytes)
    ensures var e := PollOnce(l, d, buf);
            Drain(l, d, buf) ==
              match e.answer.value
              case Ok(None) => Drained([], [], Hungry(e.dec, e.rest))
              case Err(error) => Drained([], [], Failed(error))
              case Ok(Some(Data(x))) => Before(x, [], Drain(l, e.dec, e.rest))
              case Ok(Some(TrailerSection(ts))) => Before([], ts, Drain(l, e.dec, e.rest))
              case Ok(Some(End)) => Drained([], [], Ended(e.rest))
    decreases |buf|
  {
    hide Next;
    var t := Next(l, d, buf);
    if t.Moved? {
      DrainIsPolling(l, t.dec, buf[t.used..]);
    } else if t.Produced? && t.event.End? {
      EndUsesNothing(l, d, buf);
    }
  }

  lemma EndUsesNothing(l: Limits, d: Decoder, buf: bytes)
    requires Next(l, d, buf).Produced? && Next(l, d, buf).event.End?
    ensures Next(l, d, buf).used == 0
  {
  }

  datatype Ending = Complete(tail: bytes) | Incomplete | Error

  /** The semantics of one run: the body, the trailers, and how it ended; `tail` is
      what follows the body in the stream. */
  datatype Outcome = Outcome(body: bytes, trailers: seq<Field>, end: Ending)

  /** Poll over `buf` until it is exhausted, then append the next segment, and so on. */
  function Feed(l: Limits, d: Decoder, buf: bytes, segments: seq<bytes>): Outcome
    decreases |segments|
  {
    var r := Drain(l, d, buf);
    match r.stop
    case Failed(_) => Outcome(r.body, r.trailers, Error)
    case Ended(rest) => Outcome(r.body, r.trailers, Complete(rest + Concat(segments)))
    case Hungry(d', rest) =>
      if segments == [] then Outcome(r.body, r.trailers, Incomplete)
      else
        var o := Feed(l, d', rest + segments[0], segments[1..]);
        Outcome(r.body + o.body, r.trailers + o.trailers, o.end)
  }

  /** The one-shot reading of a whole stream. */
  function Whole(l: Limits, d: Decoder, input: bytes): Outcome { Feed(l, d, input, []) }

  // ---- The one place where a read boundary shows -------------------------------------

  /** The buffer runs out inside a chunk's data. */
  predicate MidData(d: Decoder, a: bytes) { d.phase == AwaitData && |a| < d.remaining }

  predicate Progress(t: Turn) { t.Moved? || (t.Produced? && !t.event.End?) }

  /** Position `p` of `input` lies between the CR and the LF of an accepted chunk-size
      line of exactly `MAX_SIZE_LINE` content octets; when that line is the last
      chunk's, only if the trailer section after it is not itself refused. */
  ghost predicate IsCut(l: Limits, d: Decoder, input: bytes, p: int)
    decreases |input|, if d.phase == AwaitData then 1 else 0
  {
    var t := Next(l, d, input);
    Progress(t) &&
    var rest := input[t.used..];
    if d.phase == AwaitSize && t.used == MAX_SIZE_LINE + 2 && p == MAX_SIZE_LINE + 1
    then t.dec.phase == AwaitData || !Drain(l, t.dec, rest).stop.Failed?
    else p >= t.used && IsCut(l, t.dec, rest, p - t.used)
  }

  // ---- Lines ------------------------------------------------------------------------

  lemma FindLineAppend(a: bytes, b: bytes, max: nat, e: ChunkedError)
    ensures FindLine(a, max, e).Ok? && FindLine(a, max, e).value.Some? ==>
              FindLine(a + b, max, e) == FindLine(a, max, e)
    ensures FindLine(a, max, e).Err? && FindLine(a + b, max, e).Ok? ==>
              |a| == max + 1 && FindLine(a + b, max, e) == Ok(Some(max))
    ensures FindLine(a + b, max, e).Ok? && FindLine(a + b, max, e).value.Some? &&
            FindLine(a + b, max, e).value.value + 2 <= |a| ==>
              FindLine(a, max, e) == FindLine(a + b, max, e)
  {
    IndexOfAppend(a, b, '\n');
  }

  // ---- Turns ------------------------------------------------------------------------

  lemma TurnPrefix(a: bytes, b: bytes, n: nat)
    requires n <= |a|
    ensures (a + b)[..n] == a[..n] && (a + b)[n..] == a[n..] + b
  {
  }

  lemma SizeTurnStable(l: Limits, d: Decoder, a: bytes, b: bytes)
    ensures !SizeTurn(l, d, a).Produced? && !SizeTurn(l, d, a + b).Produced?
    ensures SizeTurn(l, d, a).Moved? ==> SizeTurn(l, d, a + b) == SizeTurn(l, d, a)
    ensures SizeTurn(l, d, a + b).Moved? && SizeTurn(l, d, a + b).used <= |a| ==>
              SizeTurn(l, d, a) == SizeTurn(l, d, a + b)
    ensures var t := SizeTurn(l, d, a + b);
            SizeTurn(l, d, a).Refused? && !t.Refused? ==>
              |a| == MAX_SIZE_LINE + 1 && t.Moved? && t.used == MAX_SIZE_LINE + 2
  {
    hide FindLine, ParseChunkSize;
    FindLineAppend(a, b, MAX_SIZE_LINE, MissingCrlf);
    var r, rab := FindLine(a, MAX_SIZE_LINE, MissingCrlf), FindLine(a + b, MAX_SIZE_LINE, MissingCrlf);
    if r.Ok? && r.value.Some? {
      TurnPrefix(a, b, r.value.value);
    } else if rab.Ok? && rab.value.Some? && rab.value.value <= |a| {
      TurnPrefix(a, b, rab.value.value);
    }
  }

  lemma TrailerTurnStable(l: Limits, d: Decoder, a: bytes, b: bytes)
    ensures var t := TrailerTurn(l, d, a);
            (t.Moved? || t.Produced?) ==> TrailerTurn(l, d, a + b) == t
    ensures var t := TrailerTurn(l, d, a + b);
            (t.Moved? || t.Produced?) && t.used <= |a| ==> TrailerTurn(l, d, a) == t
    ensures TrailerTurn(l, d, a).Refused? ==> TrailerTurn(l, d, a + b).Refused?
  {
    hide FindLine, PushTrailer;
    FindLineAppend(a, b, l.maxHeadBytes, TrailerTooLarge);
    var r, rab := FindLine(a, l.maxHeadBytes, TrailerTooLarge), FindLine(a + b, l.maxHeadBytes, TrailerTooLarge);
    if r.Ok? && r.value.Some? {
      TurnPrefix(a, b, r.value.value);
    } else if rab.Ok? && rab.value.Some? && rab.value.value <= |a| {
      TurnPrefix(a, b, rab.value.value);
    }
  }

  /** A turn that got somewhere gets to the same place whatever follows the buffer,
      unless the buffer ran out inside a chunk's data. */
  lemma TurnStable(l: Limits, d: Decoder, a: bytes, b: bytes)
    requires !MidData(d, a)
    requires Next(l, d, a).Moved? || Next(l, d, a).Produced?
    ensures Next(l, d, a + b) == Next(l, d, a)
    ensures Next(l, d, a).used <= |a|
    ensures var n := Next(l, d, a).used; (a + b)[n..] == a[n..] + b
  {
    hide SizeTurn, TrailerTurn;
    TurnPrefix(a, b, Next(l, d, a).used);
    SizeTurnStable(l, d, a, b);
    TrailerTurnStable(l, d, a, b);
    assert |a| >= 2 ==> (a + b)[0] == a[0] && (a + b)[1] == a[1];
    if d.phase == AwaitData {
      TurnPrefix(a, b, d.remaining);
    }
  }

  /** A refusal stands whatever follows, unless the buffer ended inside the CRLF of a
      size line of the maximal length. */
  lemma RefusalStable(l: Limits, d: Decoder, a: bytes, b: bytes)
    requires Next(l, d, a).Refused?
    ensures Next(l, d, a + b).Refused? || (d.phase == AwaitSize && |a| == MAX_SIZE_LINE + 1)
  {
    hide SizeTurn, TrailerTurn;
    SizeTurnStable(l, d, a, b);
    TrailerTurnStable(l, d, a, b);
    assert |a| >= 2 ==> (a + b)[0] == a[0] && (a + b)[1] == a[1];
  }

  lemma BeforeBefore(x: bytes, xs: seq<Field>, y: bytes, ys: seq<Field>, r: Drained)
    ensures Before(x, xs, Before(y, ys, r)) == Before(x + y, xs + ys, r)
  {
  }

  lemma BeforeNothing(r: Drained)
    ensures Before([], [], r) == r
  {
  }

  function Advanced(d: Decoder, n: nat): Decoder
    requires n <= d.remaining
  {
    d.(remaining := d.remaining - n, decoded := d.decoded + n)
  }

  lemma DataTurns(l: Limits, d: Decoder, a: bytes, b: bytes)
    requires d.phase == AwaitData && a != [] && |a| < d.remaining && b != []
    ensures var d' := Advanced(d, |a|);
            var t, t' := Next(l, d, a + b), Next(l, d', b);
            && t.Produced? && t'.Produced? && t.event.Data? && t'.event.Data?
            && t.dec == t'.dec && t.used == |a| + t'.used
            && t.event.data == a + t'.event.data
            && (a + b)[t.used..] == b[t'.used..]
  {
    var take := Min(|b|, d.remaining - |a|);
    assert (a + b)[..|a| + take] == a + b[..take];
    assert (a + b)[|a| + take..] == b[take..];
  }

  /** Body data split in two is delivered as the same octets. */
  lemma DataSplit(l: Limits, d: Decoder, a: bytes, b: bytes)
    requires d.phase == AwaitData && a != [] && |a| < d.remaining
    ensures var d' := Advanced(d, |a|);
            && Next(l, d, a) == Produced(Data(a), d', |a|)
            && Drain(l, d, a + b) == Before(a, [], Drain(l, d', b))
            && (forall p :: IsCut(l, d, a + b, p + |a|) <==> IsCut(l, d', b, p))
  {
    var d' := Advanced(d, |a|);
    assert a[..|a|] == a;
    if b == [] {
      assert a + b == a && a[|a|..] == [];
    } else {
      DataTurns(l, d, a, b);
      var t' := Next(l, d', b);
      BeforeBefore(a, [], t'.event.data, [], Drain(l, t'.dec, b[t'.used..]));
    }
  }

  // ---- One buffer, extended -----------------------------------------------------------

  ghost predicate Extends(l: Limits, d: Decoder, a: bytes, b: bytes) {
    var ra, rab := Drain(l, d, a), Drain(l, d, a + b);
    match ra.stop
    case Hungry(d', rest) => rab == Before(ra.body, ra.trailers, Drain(l, d', rest + b))
    case Failed(_) => rab.stop.Failed? && rab.body == ra.body && rab.trailers == ra.trailers
    case Ended(rest) => rab == Drained(ra.body, ra.trailers, Ended(rest + b))
  }

  lemma {:induction false} DrainExtends(l: Limits, d: Decoder, a: bytes, b: bytes)
    requires !IsCut(l, d, a + b, |a|)
    ensures Extends(l, d, a, b)
    decreases |a|, if d.phase == AwaitData then 1 else 0
  {
    hide Next;
    var t := Next(l, d, a);
    match t
    case Starved =>
      BeforeNothing(Drain(l, d, a + b));
    case Refused(e, _, _) =>
      RefusalStable(l, d, a, b);
      if !Next(l, d, a + b).Refused? {
        NearMiss(l, d, a, b);
      }
    case Moved(d', used) =>
      NotMidData(l, d, a);
      TurnStable(l, d, a, b);
      DrainExtends(l, d', a[used..], b);
    case Produced(ev, d', used) =>
      if MidData(d, a) {
        DrainedMidData(l, d, a);
        DataSplit(l, d, a, b);
      } else {
        ProducedExtends(l, d, a, b);
      }
  }

  lemma NotMidData(l: Limits, d: Decoder, a: bytes)
    requires Next(l, d, a).Moved?
    ensures !MidData(d, a)
  {
  }

  lemma DrainedMidData(l: Limits, d: Decoder, a: bytes)
    requires MidData(d, a) && !Next(l, d, a).Starved?
    ensures a != []
    ensures Drain(l, d, a) == Drained(a, [], Hungry(Advanced(d, |a|), []))
    ensures forall b: bytes {:trigger [] + b} :: [] + b == b
  {
    var d' := Advanced(d, |a|);
    assert a[..|a|] == a && a[|a|..] == [];
    assert Next(l, d', []) == Starved;
    assert Drain(l, d', []) == Drained([], [], Hungry(d', []));
  }

  /** A turn that produced an event other than a partial chunk. */
  lemma ProducedExtends(l: Limits, d: Decoder, a: bytes, b: bytes)
    requires Next(l, d, a).Produced? && !MidData(d, a)
    requires !IsCut(l, d, a + b, |a|)
    ensures Extends(l, d, a, b)
    decreases |a|, if d.phase == AwaitData then 1 else 0, 0
  {
    hide Next;
    var t := Next(l, d, a);
    TurnStable(l, d, a, b);
    if !t.event.End? {
      DrainExtends(l, t.dec, a[t.used..], b);
      var x, xs := if t.event.Data? then t.event.data else [],
                   if t.event.Data? then [] else t.event.fields;
      var r := Drain(l, t.dec, a[t.used..]);
      if r.stop.Hungry? {
        BeforeBefore(x, xs, r.body, r.trailers, Drain(l, r.stop.dec, r.stop.rest + b));
      }
    }
  }

  /** A size line whose unterminated content was refused, but which is accepted or
      refused differently once its LF arrives. */
  lemma NearMiss(l: Limits, d: Decoder, a: bytes, b: bytes)
    requires d.phase == AwaitSize && |a| == MAX_SIZE_LINE + 1
    requires Next(l, d, a).Refused? && !Next(l, d, a + b).Refused?
    ensures var t := Next(l, d, a + b);
            t.Moved? && t.used == MAX_SIZE_LINE + 2
    ensures IsCut(l, d, a + b, |a|) ||
            (Drain(l, d, a + b).stop.Failed? && Drain(l, d, a + b).body == [] && Drain(l, d, a + b).trailers == [])
  {
    SizeTurnStable(l, d, a, b);
    SizeTurnPhase(l, d, a + b);
    hide SizeTurn;
    var t := Next(l, d, a + b);
    if t.dec.phase == AwaitTrailers {
      TrailersYieldNothing(l, t.dec, (a + b)[t.used..]);
    }
  }

  lemma SizeTurnPhase(l: Limits, d: Decoder, buf: bytes)
    ensures var t := SizeTurn(l, d, buf);
            t.Moved? ==> t.used <= |buf| && (t.dec.phase == AwaitData || t.dec.phase == AwaitTrailers)
  {
  }

  lemma EndingEnds(l: Limits, d: Decoder, buf: bytes)
    ensures d.phase == Phase.Ending ==> Next(l, d, buf).Produced? && Next(l, d, buf).event.End?
    ensures Next(l, d, buf).Produced? && Next(l, d, buf).event.TrailerSection? ==>
              Next(l, d, buf).dec.phase == Phase.Ending
  {
  }

  /** A refused trailer section delivers nothing. */
  lemma {:induction false} TrailersYieldNothing(l: Limits, d: Decoder, buf: bytes)
    requires d.phase == AwaitTrailers || d.phase == Phase.Ending
    ensures Drain(l, d, buf).body == []
    ensures Drain(l, d, buf).stop.Failed? ==> Drain(l, d, buf).trailers == []
    ensures Drain(l, d, buf).stop.Failed? ==> d.phase == AwaitTrailers
    decreases |buf|
  {
    TrailersPhase(l, d, buf);
    EndingEnds(l, d, buf);
    hide Next;
    var t := Next(l, d, buf);
    if Progress(t) {
      TrailersYieldNothing(l, t.dec, buf[t.used..]);
    }
  }

  // ---- Any number of segments ----------------------------------------------------------

  /** Once a buffer is exhausted, the cuts that remain are those of what is left. */
  lemma {:induction false} CutShift(l: Limits, d: Decoder, a: bytes, b: bytes, p: nat,
                                    d': Decoder, rest: bytes)
    requires Drain(l, d, a).stop == Hungry(d', rest) && p >= |a|
    ensures |rest| <= |a|
    ensures IsCut(l, d, a + b, p) <==> IsCut(l, d', rest + b, p - (|a| - |rest|))
    decreases |a|, if d.phase == AwaitData then 1 else 0
  {
    hide Next;
    var t := Next(l, d, a);
    if t.Moved? || t.Produced? {
      if MidData(d, a) {
        DrainedMidData(l, d, a);
        DataSplit(l, d, a, b);
        assert IsCut(l, d, a + b, (p - |a|) + |a|) <==> IsCut(l, t.dec, b, p - |a|);
      } else {
        TurnStable(l, d, a, b);
        CutShift(l, t.dec, a[t.used..], b, p - t.used, d', rest);
      }
    }
  }

  /** No read boundary of the run falls on a cut. */
  ghost predicate NoCutSplit(l: Limits, d: Decoder, buf: bytes, segments: seq<bytes>) {
    var input := buf + Concat(segments);
    forall k :: 0 <= k < |segments| ==> !IsCut(l, d, input, |buf| + |Concat(segments[..k])|)
  }

  /** At a cut the split run has refused what the whole stream goes on to deliver. */
  lemma CutDiffers(l: Limits, d: Decoder, a: bytes, b: bytes)
    requires IsCut(l, d, a + b, |a|)
    ensures Drain(l, d, a).stop.Failed?
    ensures var rab := Drain(l, d, a + b); rab.stop.Failed? ==> |rab.body| > |Drain(l, d, a).body|
    decreases |a|, if d.phase == AwaitData then 1 else 0
  {
    hide Next;
    var t := Next(l, d, a + b);
    if d.phase == AwaitSize && t.used == MAX_SIZE_LINE + 2 && |a| == MAX_SIZE_LINE + 1 {
      UnterminatedRefused(l, d, a, b);
      AcceptedLineYields(l, d, a + b);
    } else {
      TurnPrefix(a, b, t.used);
      TurnBack(l, d, a, b);
      CutDiffers(l, t.dec, a[t.used..], b);
    }
  }

  lemma UnterminatedRefused(l: Limits, d: Decoder, a: bytes, b: bytes)
    requires d.phase == AwaitSize && |a| == MAX_SIZE_LINE + 1
    requires Progress(Next(l, d, a + b)) && Next(l, d, a + b).used == MAX_SIZE_LINE + 2
    ensures Next(l, d, a) == Refused(MissingCrlf, d, 0)
  {
    IndexOfAppend(a, b, '\n');
  }

  lemma AcceptedLineYields(l: Limits, d: Decoder, input: bytes)
    requires d.phase == AwaitSize && Progress(Next(l, d, input))
    requires var t := Next(l, d, input);
             t.dec.phase == AwaitData || !Drain(l, t.dec, input[t.used..]).stop.Failed?
    ensures Drain(l, d, input).stop.Failed? ==> Drain(l, d, input).body != []
  {
    var t := Next(l, d, input);
    var rest := input[t.used..];
    if t.dec.phase == AwaitData && rest != [] {
      assert Next(l, t.dec, rest).event.data != [];
    }
  }

  /** A turn over the longer buffer that stays within the shorter one is a turn over
      the shorter one. */
  lemma TurnBack(l: Limits, d: Decoder, a: bytes, b: bytes)
    requires var t := Next(l, d, a + b); Progress(t) && t.used <= |a|
    requires d.phase == AwaitData ==> a != []
    ensures Next(l, d, a) == Next(l, d, a + b)
  {
    hide SizeTurn, TrailerTurn;
    TurnPrefix(a, b, Next(l, d, a + b).used);
    SizeTurnStable(l, d, a, b);
    TrailerTurnStable(l, d, a, b);
    assert |a| >= 2 ==> (a + b)[0] == a[0] && (a + b)[1] == a[1];
  }

  /** The boundaries after the first, seen from before and from after the first. */
  lemma LaterBoundary(l: Limits, d: Decoder, a: bytes, segments: seq<bytes>,
                      d': Decoder, rest: bytes, k: nat)
    requires segments != [] && Drain(l, d, a).stop == Hungry(d', rest)
    requires k < |segments| - 1
    ensures IsCut(l, d, a + Concat(segments), |a| + |Concat(segments[..k + 1])|) <==>
            IsCut(l, d', (rest + segments[0]) + Concat(segments[1..]),
                  |rest + segments[0]| + |Concat(segments[1..][..k])|)
  {
    hide Next, Drain, IsCut;
    var s, later := segments[0], segments[1..];
    Assoc(rest, s, Concat(later));
    assert segments[..k + 1][1..] == later[..k];
    CutShift(l, d, a, Concat(segments), |a| + |Concat(segments[..k + 1])|, d', rest);
  }

  lemma BoundaryShift(l: Limits, d: Decoder, a: bytes, segments: seq<bytes>,
                      d': Decoder, rest: bytes)
    requires segments != [] && Drain(l, d, a).stop == Hungry(d', rest)
    requires !IsCut(l, d, a + Concat(segments), |a|)
    ensures NoCutSplit(l, d, a, segments) <==>
            NoCutSplit(l, d', rest + segments[0], segments[1..])
  {
    hide Next, Drain, IsCut;
    var later := segments[1..];
    if NoCutSplit(l, d, a, segments) {
      forall k | 0 <= k < |later|
        ensures !IsCut(l, d', (rest + segments[0]) + Concat(later),
                       |rest + segments[0]| + |Concat(later[..k])|)
      {
        LaterBoundary(l, d, a, segments, d', rest, k);
      }
    }
    if NoCutSplit(l, d', rest + segments[0], later) {
      forall k | 0 <= k < |segments|
        ensures !IsCut(l, d, a + Concat(segments), |a| + |Concat(segments[..k])|)
      {
        if k > 0 {
          LaterBoundary(l, d, a, segments, d', rest, k - 1);
        }
      }
    }
  }

  /** Main result. A run over any segmentation of a stream delivers the same body, the
      same trailers, the same outcome and the same unconsumed tail as reading the
      stream whole, exactly when no read boundary falls on a cut. */
  lemma {:induction false} SplitInvariance(l: Limits, d: Decoder, buf: bytes, segments: seq<bytes>)
    ensures Feed(l, d, buf, segments) == Whole(l, d, buf + Concat(segments))
            <==> NoCutSplit(l, d, buf, segments)
    decreases |segments|
  {
    hide Drain, IsCut;
    var b := Concat(segments);
    if segments == [] {
      assert buf + b == buf;
    } else {
      assert segments[..0] == [];
      var r := Drain(l, d, buf);
      if IsCut(l, d, buf + b, |buf|) {
        CutDiffers(l, d, buf, b);
        assert |buf| + |Concat(segments[..0])| == |buf|;
      } else {
        DrainExtends(l, d, buf, b);
        match r.stop
        case Hungry(d', rest) =>
          BoundaryShift(l, d, buf, segments, d', rest);
          SplitInvariance(l, d', rest + segments[0], segments[1..]);
          Assoc(rest, segments[0], Concat(segments[1..]));
          WholeBefore(l, d, buf + b, d', rest + b, r.body, r.trailers);
          var o, o' := Feed(l, d', rest + segments[0], segments[1..]), Whole(l, d', rest + b);
          Cancel(r.body, o.body, o'.body);
          Cancel(r.trailers, o.trailers, o'.trailers);
        case Failed(_) =>
          NoLaterCut(l, d, buf, segments);
        case Ended(rest) =>
          NoLaterCut(l, d, buf, segments);
          assert (rest + b) + [] == rest + b;
      }
    }
  }

  lemma Cancel<T>(a: seq<T>, x: seq<T>, y: seq<T>)
    ensures a + x == a + y <==> x == y
  {
    assert (a + x)[|a|..] == x && (a + y)[|a|..] == y;
  }

  lemma WholeBefore(l: Limits, d: Decoder, input: bytes, d': Decoder, rest: bytes,
                    body: bytes, trailers: seq<Field>)
    requires Drain(l, d, input) == Before(body, trailers, Drain(l, d', rest))
    ensures var o, o' := Whole(l, d, input), Whole(l, d', rest);
            o == Outcome(body + o'.body, trailers + o'.trailers, o'.end)
  {
  }

  /** A run that has already ended or failed has no cut ahead of it. */
  lemma {:induction false} NothingAhead(l: Limits, d: Decoder, a: bytes, b: bytes, p: nat)
    requires !Drain(l, d, a).stop.Hungry? && p >= |a|
    requires !IsCut(l, d, a + b, |a|)
    ensures !IsCut(l, d, a + b, p)
    decreases |a|, if d.phase == AwaitData then 1 else 0
  {
    hide Next;
    var t := Next(l, d, a);
    if t.Refused? {
      RefusalStable(l, d, a, b);
      if !Next(l, d, a + b).Refused? {
        NearMiss(l, d, a, b);
        var t' := Next(l, d, a + b);
        NearMissPhase(l, d, a + b);
        TrailersHaveNoCut(l, t'.dec, (a + b)[t'.used..], p - t'.used);
      }
    } else if t.Moved? || t.Produced? {
      if MidData(d, a) {
        DrainedMidData(l, d, a);
      } else {
        TurnStable(l, d, a, b);
        if Progress(t) {
          NothingAhead(l, t.dec, a[t.used..], b, p - t.used);
        }
      }
    }
  }

  /** An accepted size line that is no cut is the last chunk's. */
  lemma NearMissPhase(l: Limits, d: Decoder, input: bytes)
    requires d.phase == AwaitSize && Next(l, d, input).Moved?
    requires Next(l, d, input).used == MAX_SIZE_LINE + 2
    requires !IsCut(l, d, input, MAX_SIZE_LINE + 1)
    ensures Next(l, d, input).dec.phase == AwaitTrailers
  {
  }

  /** Outside a size line a cut can only lie beyond the turn. */
  lemma CutBeyond(l: Limits, d: Decoder, buf: bytes, p: int)
    requires d.phase != AwaitSize
    ensures IsCut(l, d, buf, p) ==>
              var t := Next(l, d, buf);
              Progress(t) && IsCut(l, t.dec, buf[t.used..], p - t.used)
  {
    hide Next;
  }

  lemma TrailersPhase(l: Limits, d: Decoder, buf: bytes)
    requires d.phase == AwaitTrailers || d.phase == Phase.Ending
    ensures var t := Next(l, d, buf);
            Progress(t) ==> (t.dec.phase == AwaitTrailers || t.dec.phase == Phase.Ending) &&
                            t.used >= 2 && !(t.Produced? && t.event.Data?)
  {
  }

  lemma {:induction false} TrailersHaveNoCut(l: Limits, d: Decoder, buf: bytes, p: int)
    requires d.phase == AwaitTrailers || d.phase == Phase.Ending
    ensures !IsCut(l, d, buf, p)
    decreases |buf|
  {
    TrailersPhase(l, d, buf);
    CutBeyond(l, d, buf, p);
    hide Next, Drain, IsCut;
    var t := Next(l, d, buf);
    if Progress(t) {
      TrailersHaveNoCut(l, t.dec, buf[t.used..], p - t.used);
    }
  }

  lemma NoLaterCut(l: Limits, d: Decoder, buf: bytes, segments: seq<bytes>)
    requires !Drain(l, d, buf).stop.Hungry?
    requires !IsCut(l, d, buf + Concat(segments), |buf|)
    ensures NoCutSplit(l, d, buf, segments)
  {
    hide Drain, IsCut;
    forall k | 0 <= k < |segments|
      ensures !IsCut(l, d, buf + Concat(segments), |buf| + |Concat(segments[..k])|)
    {
      NothingAhead(l, d, buf, Concat(segments), |buf| + |Concat(segments[..k])|);
    }
  }

  // ---- The boundary, exhibited ------------------------------------------------------------

  /** A line of `5` and 271 spaces is accepted whole and refused when a read ends
      between its CR and its LF. */
  lemma CutExhibited(l: Limits)
    requires l.maxBodyBytes >= 5
    ensures var line := ['5'] + seq(271, _ => ' ');
            && IsCut(l, FRESH, line + "\r\n", MAX_SIZE_LINE + 1)
            && Whole(l, FRESH, line + "\r\n") == Outcome([], [], Incomplete)
            && Feed(l, FRESH, line + "\r", ["\n"]) == Outcome([], [], Error)
  {
    var ws := seq(271, _ => ' ');
    var line := ['5'] + ws;
    var input := line + "\r\n";
    assert All(ws, IsWs);
    SpanIs(['5'], ws, Numerals.IsHexDigit);
    SpanIs(ws, [], IsWs);
    assert ws + [] == ws && line[1..] == ws && line[..1] == ['5'];
    assert Numerals.Value(16, ['5']) == 5 by { assert ['5'][..0] == []; }
    assert ParseChunkSize(line) == Ok(5);
    FirstLf(line + "\r", "\n");
    assert line + "\r" + "\n" == input;
    assert input[..272] == line && input[274..] == [];
    var t := Next(l, FRESH, input);
    assert t == Moved(FRESH.(phase := AwaitData, remaining := 5), 274);
    assert Next(l, t.dec, []) == Starved;
    assert Drain(l, FRESH, input) == Drain(l, t.dec, []) == Drained([], [], Hungry(t.dec, []));
    assert Drain(l, FRESH, line + "\r").stop == Failed(MissingCrlf);
  }

  lemma FirstLf(a: bytes, c: bytes)
    requires All(a, b => b != '\n') && c != [] && c[0] == '\n'
    ensures IndexOf(a + c, '\n') == |a| == IndexOf(a, '\n')
  {
    IndexOfAppend(a, c, '\n');
  }
}
