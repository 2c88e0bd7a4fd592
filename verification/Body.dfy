/** The request body over the connection's buffer (`src/service.rs`). */
module Body {
  import opened Octets
  import opened Headers
  import opened Framing
  import opened Chunked
  import opened ChunkedSplit
  import opened HeadScan

  datatype BodyError = Incomplete | Decode(error: ChunkedError) | TooLarge

  type Chunk = Option<Result<bytes, BodyError>>

  // ---- What is left of a body ------------------------------------------------------------

  /** What the rest of the body delivers, and the buffer and the reads it leaves behind
      when it ends cleanly. */
  datatype Remains = Remains(outcome: Outcome, buf: bytes, wire: seq<bytes>)

  function Prepend(x: bytes, ts: seq<Field>, r: Remains): Remains {
    r.(outcome := Outcome(x + r.outcome.body, ts + r.outcome.trailers, r.outcome.end))
  }

  function Nothing(buf: bytes, wire: seq<bytes>): Remains {
    Remains(Outcome([], [], Complete(buf + Concat(wire))), buf, wire)
  }

  function Broken(body: bytes, end: Ending): Remains { Remains(Outcome(body, [], end), [], []) }

  /** A body of `n` octets over a buffer and the reads to come. */
  function LengthFeed(n: nat, buf: bytes, wire: seq<bytes>): Remains
    decreases |wire|
  {
    if n <= |buf| then Prepend(buf[..n], [], Nothing(buf[n..], wire))
    else if wire == [] then Broken(buf, Ending.Incomplete)
    else Prepend(buf, [], LengthFeed(n - |buf|, wire[0], wire[1..]))
  }

  /** The buffer and the reads a chunked body leaves when it ends. */
  function FeedLeft(l: Limits, d: Decoder, buf: bytes, wire: seq<bytes>): (bytes, seq<bytes>)
    decreases |wire|
  {
    match Drain(l, d, buf).stop
    case Failed(_) => ([], [])
    case Ended(rest) => (rest, wire)
    case Hungry(d', rest) => if wire == [] then ([], []) else FeedLeft(l, d', rest + wire[0], wire[1..])
  }

  function FeedAll(l: Limits, d: Decoder, buf: bytes, wire: seq<bytes>): Remains {
    Remains(Feed(l, d, buf, wire), FeedLeft(l, d, buf, wire).0, FeedLeft(l, d, buf, wire).1)
  }

  /** A clean end leaves exactly what follows the body in the stream. */
  lemma {:induction false} FeedLeavesTail(l: Limits, d: Decoder, buf: bytes, wire: seq<bytes>)
    ensures var r := FeedAll(l, d, buf, wire);
            r.outcome.end.Complete? ==> r.outcome.end.tail == r.buf + Concat(r.wire)
    decreases |wire|
  {
    hide Drain;
    var s := Drain(l, d, buf).stop;
    if s.Hungry? && wire != [] {
      FeedLeavesTail(l, s.dec, s.rest + wire[0], wire[1..]);
    }
  }

  /** A body of `n` octets is the first `n` of the stream. */
  function Cut(n: nat, stream: bytes): Outcome {
    if n <= |stream| then Outcome(stream[..n], [], Complete(stream[n..]))
    else Outcome(stream, [], Ending.Incomplete)
  }

  lemma {:induction false} LengthIsCut(n: nat, buf: bytes, wire: seq<bytes>)
    ensures LengthFeed(n, buf, wire).outcome == Cut(n, buf + Concat(wire))
    ensures var r := LengthFeed(n, buf, wire);
            r.outcome.end.Complete? ==> r.outcome.end.tail == r.buf + Concat(r.wire)
    decreases |wire|
  {
    var stream := buf + Concat(wire);
    if n <= |buf| {
      assert stream[..n] == buf[..n] && stream[n..] == buf[n..] + Concat(wire);
      assert buf[..n] + [] == buf[..n];
    } else if wire == [] {
      assert stream == buf;
    } else {
      LengthIsCut(n - |buf|, wire[0], wire[1..]);
      var rest := wire[0] + Concat(wire[1..]);
      if n <= |stream| {
        assert stream[..n] == buf + rest[..n - |buf|] && stream[n..] == rest[n - |buf|..];
      }
    }
  }

  /** What was taken of a body of known length is all of it exactly when nothing is left
      and the body has ended. */
  lemma LengthTells(n: nat, buf: bytes, wire: seq<bytes>, taken: bytes, rest: Remains)
    requires LengthFeed(n, buf, wire) == Prepend(taken, [], rest)
    ensures |taken| == n <==> rest.outcome.body == [] && rest.outcome.end.Complete?
  {
    LengthIsCut(n, buf, wire);
    CutTells(n, buf + Concat(wire));
    hide LengthFeed, Cut;
    assert LengthFeed(n, buf, wire).outcome.body == taken + rest.outcome.body;
    assert LengthFeed(n, buf, wire).outcome.end == rest.outcome.end;
  }

  lemma CutTells(n: nat, stream: bytes)
    ensures var o := Cut(n, stream); |o.body| <= n && (|o.body| == n <==> o.end.Complete?)
  {
  }

  lemma SomeLeft(n: nat, buf: bytes, wire: seq<bytes>)
    requires n > 0
    ensures var o := LengthFeed(n, buf, wire).outcome; !(o.body == [] && o.end.Complete?)
  {
    LengthIsCut(n, buf, wire);
    CutTells(n, buf + Concat(wire));
    hide LengthFeed, Cut;
  }

  /** A body just opened. */
  function Opened(kind: BodyKind, l: Limits, buf: bytes, wire: seq<bytes>): Remains {
    match kind
    case NoBody => Nothing(buf, wire)
    case Length(n) => LengthFeed(n, buf, wire)
    case ChunkedBody => FeedAll(l, FRESH, buf, wire)
  }

  /** What one poll answers, against what was left before and after it. */
  ghost predicate Polled(before: Remains, r: Chunk, after: Remains, trailers: seq<Field>) {
    match r
    case None => before == Prepend([], trailers, after)
    case Some(Ok(x)) => before == Prepend(x, [], after)
    case Some(Err(Incomplete)) => before == Prepend([], trailers, Broken([], Ending.Incomplete))
    case Some(Err(Decode(_))) => before == Prepend([], trailers, Broken([], Error))
    case Some(Err(TooLarge)) => false
  }

  /** A body read to its end, against what was left of it. */
  ghost predicate ReadAs(left: Remains, body: bytes, failed: Option<BodyError>, trailers: seq<Field>,
                         buf: bytes, wire: seq<bytes>)
  {
    match failed
    case None => left == Remains(Outcome(body, trailers, Complete(buf + Concat(wire))), buf, wire)
    case Some(e) => !e.TooLarge? && left == Remains(Outcome(body, trailers, EndOf(e)), [], [])
  }

  function EndOf(e: BodyError): Ending { if e == BodyError.Incomplete then Ending.Incomplete else Error }

  /** What collecting a body up to `cap` octets gives: its size is refused before
      anything that goes wrong after that many. */
  ghost predicate CollectedAs(o: Outcome, cap: nat, r: Result<bytes, BodyError>, trailers: seq<Field>) {
    if |o.body| > cap then r == Err(BodyError.TooLarge)
    else
      match o.end
      case Complete(_) => r == Ok(o.body) && trailers == o.trailers
      case Incomplete => r == Err(BodyError.Incomplete)
      case Error => r.Err? && r.error.Decode?
  }

  function Gathered(acc: Option<bytes>, first: Option<bytes>): bytes {
    match acc
    case Some(v) => v
    case None => match first case Some(f) => f case None => []
  }

  lemma CollectedAll(left: Remains, body: bytes, ts: seq<Field>, buf: bytes, wire: seq<bytes>, cap: nat)
    requires left == Prepend(body, ts, Nothing(buf, wire)) && |body| <= cap
    ensures CollectedAs(left.outcome, cap, Ok(body), ts) && left.buf == buf && left.wire == wire && left.outcome.end.Complete?
  {
    Finished(body, ts, buf, wire);
  }

  lemma CollectedFailing(left: Remains, body: bytes, ts: seq<Field>, e: BodyError, cap: nat)
    requires left == Remains(Outcome(body, ts, EndOf(e)), [], []) && !e.TooLarge? && |body| <= cap
    ensures CollectedAs(left.outcome, cap, Err(e), ts)
  {
  }

  lemma CollectedTooMuch(left: Remains, body: bytes, rest: Remains, cap: nat, ts: seq<Field>)
    requires left == Prepend(body, [], rest) && |body| > cap
    ensures CollectedAs(left.outcome, cap, Err(BodyError.TooLarge), ts)
    ensures left.buf == rest.buf && left.wire == rest.wire && left.outcome.end == rest.outcome.end
  {
  }

  /** What one poll of the decoder answers, against what was left. */
  ghost predicate Decoded(before: Remains, answer: Answer, l: Limits, d: Decoder, rest: bytes, wire: seq<bytes>) {
    match answer
    case Ok(None) => before == if wire == [] then Broken([], Ending.Incomplete) else FeedAll(l, d, rest + wire[0], wire[1..])
    case Err(_) => before == Broken([], Error)
    case Ok(Some(Data(x))) => before == Prepend(x, [], FeedAll(l, d, rest, wire))
    case Ok(Some(TrailerSection(ts))) => before == Prepend([], ts, FeedAll(l, d, rest, wire))
    case Ok(Some(End)) => before == Nothing(rest, wire)
  }

  /** A prefix moved from one part of the stream to the part before it. */
  lemma Handover(a: bytes, b: bytes, c: bytes, rest: bytes)
    ensures a + b + (c + rest) == a + (b + c) + rest
    ensures (a + b) + c + rest == a + (b + c) + rest
  {
  }

  /** What is left of a body of known length, by what is buffered of it. */
  lemma LengthStep(n: nat, buf: bytes, wire: seq<bytes>)
    requires n > 0
    ensures buf == [] && wire == [] ==> LengthFeed(n, buf, wire) == Broken([], Ending.Incomplete)
    ensures buf == [] && wire != [] ==> LengthFeed(n, buf, wire) == LengthFeed(n, wire[0], wire[1..])
    ensures buf != [] ==>
              var take := Min(|buf|, n);
              LengthFeed(n, buf, wire)
              == Prepend(buf[..take], [],
                         if take == n then Nothing(buf[take..], wire) else LengthFeed(n - take, buf[take..], wire))
  {
    if buf == [] {
      if wire != [] {
        PrependNothing(LengthFeed(n, wire[0], wire[1..]));
      }
    } else if |buf| < n {
      assert buf[..|buf|] == buf && buf[|buf|..] == [];
      if wire != [] {
        PrependNothing(LengthFeed(n - |buf|, wire[0], wire[1..]));
      } else {
        assert buf + [] == buf;
      }
    }
  }

  lemma OneMore(pieces: seq<bytes>, x: bytes)
    ensures Concat(pieces + [x]) == Concat(pieces) + x
  {
    ConcatAppend(pieces, [x]);
    assert Concat([x]) == x + [] == x;
  }

  lemma Finished(body: bytes, ts: seq<Field>, buf: bytes, wire: seq<bytes>)
    ensures Prepend(body, ts, Nothing(buf, wire)) == Remains(Outcome(body, ts, Complete(buf + Concat(wire))), buf, wire)
  {
  }

  lemma Failing(body: bytes, ts: seq<Field>, end: Ending)
    ensures Prepend(body, ts, Broken([], end)) == Remains(Outcome(body, ts, end), [], [])
  {
  }

  // ---- One poll of the decoder ---------------------------------------------------------------

  lemma PrependOnce(x: bytes, ts: seq<Field>, y: bytes, us: seq<Field>, r: Remains)
    ensures Prepend(x, ts, Prepend(y, us, r)) == Prepend(x + y, ts + us, r)
  {
    Assoc(x, y, r.outcome.body);
    Assoc(ts, us, r.outcome.trailers);
  }

  lemma PrependPiece(body: bytes, x: bytes, r: Remains)
    ensures Prepend(body, [], Prepend(x, [], r)) == Prepend(body + x, [], r)
  {
    PrependOnce(body, [], x, [], r);
  }

  lemma PrependLast(body: bytes, ts: seq<Field>, r: Remains)
    ensures Prepend(body, [], Prepend([], ts, r)) == Prepend(body, ts, r)
  {
    PrependOnce(body, [], [], ts, r);
    assert body + [] == body;
  }

  /** What is left, by how the buffer drains. */
  lemma FeedStep(l: Limits, d: Decoder, buf: bytes, wire: seq<bytes>)
    ensures var r := Drain(l, d, buf);
            FeedAll(l, d, buf, wire) == Prepend(r.body, r.trailers,
              match r.stop
              case Failed(_) => Broken([], Error)
              case Ended(rest) => Nothing(rest, wire)
              case Hungry(d', rest) =>
                if wire == [] then Broken([], Ending.Incomplete) else FeedAll(l, d', rest + wire[0], wire[1..]))
  {
    hide Drain;
    var r := Drain(l, d, buf);
    assert r.body + [] == r.body && r.trailers + [] == r.trailers;
  }

  lemma FeedPrepends(l: Limits, d: Decoder, buf: bytes, d': Decoder, rest: bytes, wire: seq<bytes>, x: bytes, ts: seq<Field>)
    requires Drain(l, d, buf) == Before(x, ts, Drain(l, d', rest))
    ensures FeedAll(l, d, buf, wire) == Prepend(x, ts, FeedAll(l, d', rest, wire))
  {
    FeedStep(l, d, buf, wire);
    FeedStep(l, d', rest, wire);
    hide Drain, FeedAll, Prepend;
    var r := Drain(l, d', rest);
    var left := match r.stop
                case Failed(_) => Broken([], Error)
                case Ended(rest) => Nothing(rest, wire)
                case Hungry(d', rest) =>
                  if wire == [] then Broken([], Ending.Incomplete) else FeedAll(l, d', rest + wire[0], wire[1..]);
    PrependOnce(x, ts, r.body, r.trailers, left);
  }

  lemma PrependNothing(r: Remains)
    ensures Prepend([], [], r) == r
  {
  }

  /** One poll takes its event off the front of what is left. */
  lemma FeedPoll(l: Limits, d: Decoder, buf: bytes, wire: seq<bytes>)
    ensures var e := PollOnce(l, d, buf);
            FeedAll(l, d, buf, wire) ==
              match e.answer.value
              case Ok(None) =>
                if wire == [] then Broken([], Ending.Incomplete) else FeedAll(l, e.dec, e.rest + wire[0], wire[1..])
              case Err(_) => Broken([], Error)
              case Ok(Some(Data(x))) => Prepend(x, [], FeedAll(l, e.dec, e.rest, wire))
              case Ok(Some(TrailerSection(ts))) => Prepend([], ts, FeedAll(l, e.dec, e.rest, wire))
              case Ok(Some(End)) => Nothing(e.rest, wire)
  {
    DrainIsPolling(l, d, buf);
    FeedStep(l, d, buf, wire);
    hide Drain, FeedAll, Prepend, PollOnce, Nothing, Broken;
    var e := PollOnce(l, d, buf);
    match e.answer.value
    case Ok(None) =>
      if wire == [] {
        PrependNothing(Broken([], Ending.Incomplete));
      } else {
        PrependNothing(FeedAll(l, e.dec, e.rest + wire[0], wire[1..]));
      }
    case Err(_) => PrependNothing(Broken([], Error));
    case Ok(Some(Data(x))) => FeedPrepends(l, d, buf, e.dec, e.rest, wire, x, []);
    case Ok(Some(TrailerSection(ts))) => FeedPrepends(l, d, buf, e.dec, e.rest, wire, [], ts);
    case Ok(Some(End)) => PrependNothing(Nothing(e.rest, wire));
  }

  /** A poll leaves a suffix of its input. */
  lemma {:induction false} PollLeavesSuffix(l: Limits, d: Decoder, buf: bytes)
    ensures var rest := PollOnce(l, d, buf).rest; |rest| <= |buf| && rest == buf[|buf| - |rest|..]
    decreases |buf|
  {
    hide Next;
    var t := Next(l, d, buf);
    if t.Moved? {
      PollLeavesSuffix(l, t.dec, buf[t.used..]);
    }
  }

  /** How an event a poll produced moved the decoder or the buffer on. */
  ghost predicate MovedOn(ev: Event, d: Decoder, d': Decoder, before: nat, after: nat) {
    match ev
    case Data(_) => after < before || (after == before && d.phase == AwaitData && d'.phase == AwaitDataCrlf)
    case TrailerSection(_) => after <= before && d'.phase == Phase.Ending
    case End => true
  }

  lemma {:induction false} PollMovesOn(l: Limits, d: Decoder, buf: bytes)
    ensures var e := PollOnce(l, d, buf);
            e.answer.value.Ok? && e.answer.value.value.Some? ==> MovedOn(e.answer.value.value.value, d, e.dec, |buf|, |e.rest|)
    ensures d.phase == Phase.Ending ==>
              PollOnce(l, d, buf).answer.value == Ok(Some(End)) && PollOnce(l, d, buf).rest == buf
    decreases |buf|
  {
    EndingEnds(l, d, buf);
    EndingStays(l, d, buf);
    hide Next;
    var t := Next(l, d, buf);
    if t.Moved? {
      PollMovesOn(l, t.dec, buf[t.used..]);
    }
  }

  lemma EndingStays(l: Limits, d: Decoder, buf: bytes)
    ensures d.phase == Phase.Ending ==> Next(l, d, buf) == Produced(End, d.(phase := Done), 0)
  {
  }

  lemma DecodedIs(l: Limits, d: Decoder, buf: bytes, wire: seq<bytes>)
    ensures var e := PollOnce(l, d, buf); Decoded(FeedAll(l, d, buf, wire), e.answer.value, l, e.dec, e.rest, wire)
  {
    FeedPoll(l, d, buf, wire);
    hide FeedAll, PollOnce, Prepend, Broken, Nothing;
  }

  /** A prefix of the body's buffer used up. */
  lemma StillConserved(consumed: bytes, before: bytes, used: bytes, rest: bytes, buf: bytes, later: bytes)
    requires |rest| <= |before| && used == before[..|before| - |rest|] && rest == before[|before| - |rest|..]
    ensures (consumed + used) + rest + buf + later == consumed + before + buf + later
    ensures consumed <= consumed + used
  {
    assert used + rest == before;
    Assoc(consumed, used, rest);
  }

  lemma GivenBack(consumed: bytes, leftover: bytes, buf: bytes, later: bytes)
    ensures consumed + [] + (leftover + buf) + later == consumed + leftover + buf + later
  {
    Handover(consumed, leftover, buf, later);
  }

  // ---- The body ----------------------------------------------------------------------------------

  class Body {
    const io: IoState
    const kind: BodyKind
    const decoder: ChunkedDecoder?
    var buffered: bytes
    var remaining: nat
    var trailers: seq<Field>
    var done: bool
    var fullyRead: bool

    /** The stream from the body's first octet, and what has been taken off it. */
    ghost const stream: bytes
    ghost var consumed: bytes

    /** Every octet is accounted for, in order: consumed, in the body's own buffer, in
        the connection's, or not yet read. */
    ghost predicate Conserved()
      reads this, io
    {
      consumed + buffered + io.buf + Concat(io.wire) == stream
    }

    ghost predicate Valid()
      reads this, io, decoder
    {
      && io.Valid() && Conserved()
      && (kind.ChunkedBody? <==> decoder != null)
      && (kind.NoBody? ==> done)
      && (kind.Length? && !done ==> buffered == [] && 0 < remaining && |consumed| + remaining == kind.n)
      && (kind.ChunkedBody? && !done ==> (buffered != [] ==> io.buf == []) && trailers == [])
      && (kind.Length? ==> trailers == [])
      && (done && fullyRead ==> buffered == [])
      && (fullyRead ==> done)
    }

    /** What reading on will deliver. */
    ghost function Left(): Remains
      reads this, io, decoder
    {
      if done then Nothing(io.buf, io.wire)
      else match kind
           case NoBody => Nothing(io.buf, io.wire)
           case Length(_) => LengthFeed(remaining, io.buf, io.wire)
           case ChunkedBody =>
             if decoder == null then Nothing(io.buf, io.wire)
             else FeedAll(decoder.limits, decoder.View(), buffered + io.buf, io.wire)
    }

    constructor (kind: BodyKind, io: IoState, limits: Limits)
      requires io.Valid()
      ensures Valid() && this.kind == kind && this.io == io
      ensures decoder != null ==> fresh(decoder) && decoder.limits == limits
      ensures fullyRead <==> kind == NoBody || kind == Length(0)
      ensures done == fullyRead && stream == io.buf + Concat(io.wire) && consumed == [] && trailers == []
      ensures Left() == Opened(kind, limits, io.buf, io.wire)
    {
      this.kind, this.io := kind, io;
      var d: ChunkedDecoder? := null;
      if kind.ChunkedBody? {
        d := new ChunkedDecoder(limits);
      }
      decoder := d;
      buffered, trailers, consumed := [], [], [];
      remaining := if kind.Length? then kind.n else 0;
      done := kind == NoBody || kind == Length(0);
      fullyRead := kind == NoBody || kind == Length(0);
      stream := io.buf + Concat(io.wire);
      new;
      assert [] + io.buf == io.buf;
      assert kind == Length(0) ==> LengthFeed(0, io.buf, io.wire) == Nothing(io.buf, io.wire) by {
        PrependNothing(Nothing(io.buf, io.wire));
        assert io.buf[..0] == [] && io.buf[0..] == io.buf;
      }
    }

    method Finish()
      modifies this`done, this`fullyRead
      ensures done && fullyRead
    {
      done, fullyRead := true, true;
    }

    method Fail()
      modifies this`done, this`fullyRead
      ensures done && !fullyRead
    {
      done, fullyRead := true, false;
    }

    /** One read into the body's buffer. The connection's own buffer is empty whenever
        this is called. */
    method Fill() returns (more: bool)
      requires io.Valid() && Conserved() && io.buf == []
      modifies this`buffered, io
      ensures io.Valid() && Conserved() && io.buf == []
      ensures more <==> old(io.wire) != []
      ensures more ==> buffered == old(buffered) + old(io.wire)[0] && io.wire == old(io.wire)[1..]
      ensures !more ==> buffered == old(buffered) && io.wire == []
    {
      ghost var b, w := buffered, io.wire;
      var got := io.PollFill();
      if got == [] {
        return false;
      }
      buffered := buffered + got;
      Handover(consumed, b, w[0], Concat(w[1..]));
      more := true;
    }

    /** `poll_chunk`: the next piece, the end, or a failure. */
    method PollChunk() returns (r: Chunk)
      requires Valid()
      modifies this, io, decoder
      ensures Valid()
      ensures old(done) ==> r == None && done && fullyRead == old(fullyRead) && trailers == old(trailers)
                            && io.buf == old(io.buf) && io.wire == old(io.wire)
      ensures !old(done) ==> Polled(old(Left()), r, Left(), trailers) && (done <==> r == None || r.value.Err? || fullyRead)
      ensures !old(done) && r == None ==> fullyRead
      ensures r != None && r.value.Err? ==> !fullyRead
      ensures r != None && r.value.Ok? ==> trailers == [] && (done ==> kind.Length? && remaining == 0)
      ensures old(consumed) <= consumed
      ensures r != None && r.value.Ok? && !done ==>
                || |io.wire| < |old(io.wire)|
                || (io.wire == old(io.wire) && Size() < old(Size()))
    {
      if done {
        return None;
      }
      match kind
      case NoBody => r := None;
      case Length(_) => r := PollLength();
      case ChunkedBody => r := PollChunked();
    }

    /** What is buffered, an unfinished chunk counting one more. */
    ghost function Size(): nat
      reads this, io, decoder
    {
      2 * (|buffered| + |io.buf|) + (if decoder != null && decoder.phase == AwaitData then 1 else 0)
    }

    method PollLength() returns (r: Chunk)
      requires Valid() && !done && kind.Length?
      modifies this, io
      ensures Valid()
      ensures Polled(old(Left()), r, Left(), trailers) && (done <==> r == None || r.value.Err? || fullyRead)
      ensures r == None ==> fullyRead
      ensures r != None && r.value.Err? ==> !fullyRead
      ensures r != None && r.value.Ok? ==> trailers == [] && (done ==> remaining == 0)
      ensures old(consumed) <= consumed
      ensures r != None && r.value.Ok? && !done ==>
                || |io.wire| < |old(io.wire)|
                || (io.wire == old(io.wire) && Size() < old(Size()))
    {
      hide LengthFeed, Prepend, Nothing, Broken, Searched, StartsBlank, HeadEnd, At;
      ghost var n, buf, w := remaining, io.buf, io.wire;
      LengthStep(n, buf, w);
      buffered := io.TakeBuffered(remaining);
      Handover(consumed, buffered, io.buf, Concat(w));
      if buffered == [] {
        var more := Fill();
        if !more {
          PrependNothing(Broken([], Ending.Incomplete));
          Fail();
          return Some(Err(BodyError.Incomplete));
        }
        assert buffered + io.buf == w[0];
        LengthStep(n, w[0], w[1..]);
      }
      var piece := Deliver();
      r := Some(Ok(piece));
    }

    /** What is buffered of the body, up to what it is owed; the rest goes back. */
    method Deliver() returns (piece: bytes)
      requires io.Valid() && Conserved() && !done && !fullyRead && kind.Length? && decoder == null && trailers == []
      requires buffered != [] && 0 < remaining && |consumed| + remaining == kind.n
      requires |buffered| <= remaining || io.buf == []
      modifies this, io
      ensures Valid() && io.wire == old(io.wire) && (done <==> fullyRead)
      ensures |piece| == Min(|old(buffered)|, old(remaining)) > 0
      ensures piece == old(buffered + io.buf)[..|piece|]
      ensures io.buf == old(buffered + io.buf)[|piece|..] && buffered == []
      ensures remaining == old(remaining) - |piece| && (done <==> remaining == 0)
      ensures consumed == old(consumed) + piece && trailers == []
    {
      hide Searched, HeadEnd, StartsBlank, Concat, At, FeedAll, LengthFeed;
      ghost var all := buffered + io.buf;
      var take := Min(|buffered|, remaining);
      var leftover: bytes;
      piece, leftover := buffered[..take], buffered[take..];
      remaining := remaining - take;
      assert piece + leftover == buffered;
      assert all == piece + (leftover + io.buf);
      StillConserved(consumed, buffered, piece, leftover, io.buf, Concat(io.wire));
      consumed := consumed + piece;
      buffered := leftover;
      if remaining == 0 {
        Finish();
        GiveBack();
      }
    }

    method PollChunked() returns (r: Chunk)
      requires Valid() && !done && kind.ChunkedBody?
      modifies this, io, decoder
      ensures Valid()
      ensures Polled(old(Left()), r, Left(), trailers) && (done <==> r == None || r.value.Err? || fullyRead)
      ensures r == None ==> fullyRead
      ensures r != None && r.value.Err? ==> !fullyRead
      ensures r != None && r.value.Ok? ==> trailers == [] && !done
      ensures old(consumed) <= consumed
      ensures r != None && r.value.Ok? && !done ==>
                || |io.wire| < |old(io.wire)|
                || (io.wire == old(io.wire) && Size() < old(Size()))
    {
      hide FeedAll, Prepend, Broken, Nothing, PollOnce, Searched, StartsBlank, HeadEnd, At, Concat, LengthFeed;
      PrependNothing(Left());
      while true
        invariant io.Valid() && Conserved() && !done && !fullyRead
        invariant buffered != [] ==> io.buf == []
        invariant trailers != [] ==> decoder.phase == Phase.Ending
        invariant old(consumed) <= consumed
        invariant old(Left()) == Prepend([], trailers, Left())
        invariant |io.wire| < |old(io.wire)| || (io.wire == old(io.wire) && Size() <= old(Size()))
        decreases |io.wire|, if decoder.phase == Phase.Ending then 0 else 1
      {
        TakeOver();
        assert buffered + [] == buffered;
        PrependNothing(Left());
        var answer := Decode();
        assert buffered + [] == buffered;
        match answer {
          case Err(e) =>
            Fail();
            return Some(Err(BodyError.Decode(e)));
          case Ok(Some(Data(x))) =>
            return Some(Ok(x));
          case Ok(Some(TrailerSection(ts))) =>
            trailers := ts;
          case Ok(Some(End)) =>
            Finish();
            GiveBack();
            return None;
          case Ok(None) =>
            var more := Fill();
            if !more {
              Fail();
              return Some(Err(BodyError.Incomplete));
            }
            assert buffered + io.buf == buffered;
        }
      }
    }

    /** The connection's buffer is taken over once the body's own is empty. */
    method TakeOver()
      requires io.Valid() && Conserved() && (buffered != [] ==> io.buf == [])
      modifies this`buffered, io
      ensures io.Valid() && Conserved() && io.buf == [] && io.wire == old(io.wire)
      ensures buffered == old(buffered + io.buf)
    {
      hide Searched, StartsBlank, HeadEnd, At, Concat;
      if buffered == [] {
        Handover(consumed, [], io.buf, Concat(io.wire));
        assert [] + io.buf == io.buf + [];
        buffered := io.TakeBuffered(|io.buf|);
      } else {
        assert buffered + [] == buffered;
      }
    }

    /** One poll of the decoder. */
    method Decode() returns (answer: Answer)
      requires Conserved() && decoder != null
      modifies this`buffered, this`consumed, decoder
      ensures Conserved() && old(consumed) <= consumed
      ensures Decoded(FeedAll(decoder.limits, old(decoder.View()), old(buffered), io.wire), answer, decoder.limits,
                      decoder.View(), buffered, io.wire)
      ensures old(decoder.phase) == Phase.Ending ==> answer == Ok(Some(End))
      ensures answer.Ok? && answer.value.Some? ==>
                MovedOn(answer.value.value, old(decoder.View()), decoder.View(), old(|buffered|), |buffered|)
    {
      hide FeedAll, PollOnce, Concat, MovedOn, Decoded;
      ghost var d, before := decoder.View(), buffered;
      ghost var e := PollOnce(decoder.limits, d, before);
      DecodedIs(decoder.limits, d, before, io.wire);
      PollMovesOn(decoder.limits, d, before);
      PollLeavesSuffix(decoder.limits, d, before);
      var rest: bytes;
      rest, answer := decoder.Poll(buffered);
      assert e == Effect(decoder.View(), rest, Some(answer));
      ghost var used := before[..|before| - |rest|];
      StillConserved(consumed, before, used, rest, io.buf, Concat(io.wire));
      buffered, consumed := rest, consumed + used;
    }

    method GiveBack()
      requires io.Valid() && Conserved()
      modifies this`buffered, io
      ensures io.Valid() && Conserved() && buffered == [] && io.buf == old(buffered + io.buf) && io.wire == old(io.wire)
    {
      hide Searched, StartsBlank, HeadEnd, At, Concat;
      GivenBack(consumed, buffered, io.buf, Concat(io.wire));
      io.PushBack(buffered);
      buffered := [];
    }

    /** A body as a handler is lent it. */
    ghost predicate Lent()
      reads this
    {
      done ==> fullyRead && trailers == []
    }

    /** Another piece was wanted after each of the first ones. */
    static predicate WantedAll(wants: seq<bytes> -> bool, pieces: seq<bytes>) {
      forall k :: 0 <= k < |pieces| ==> wants(pieces[..k])
    }

    static lemma NothingWanted(wants: seq<bytes> -> bool)
      ensures WantedAll(wants, [])
    {
    }

    static lemma WantedOneMore(wants: seq<bytes> -> bool, pieces: seq<bytes>, x: bytes)
      requires WantedAll(wants, pieces) && wants(pieces)
      ensures WantedAll(wants, pieces + [x])
    {
      assert forall k :: 0 <= k <= |pieces| ==> (pieces + [x])[..k] == pieces[..k];
      assert pieces[..|pieces|] == pieces;
    }

    /** Polled for as long as a handler that has seen these pieces wants another; `ended`
        is how the body ended, if the handler got so far. */
    method ReadWhile(wants: seq<bytes> -> bool) returns (pieces: seq<bytes>, ended: Option<Option<BodyError>>)
      requires Valid()
      modifies this, io, decoder
      ensures Valid() && WantedAll(wants, pieces) && (ended.None? <==> !wants(pieces))
      ensures !wants([]) ==> pieces == [] && ended == None && fullyRead == old(fullyRead)
      ensures old(Lent()) && ended.None? ==> Lent() && old(Left()) == Prepend(Concat(pieces), [], Left())
      ensures pieces != [] && ended.None? && done ==> kind.Length?
      ensures old(Lent()) && ended.Some? ==>
                ReadAs(old(Left()), Concat(pieces), ended.value, trailers, io.buf, io.wire) && (fullyRead <==> ended.value == None)
    {
      hide FeedAll, LengthFeed, Searched, HeadEnd, StartsBlank, At, Broken, Prepend, Nothing, Conserved, WantedAll;
      NothingWanted(wants);
      pieces := [];
      ghost var lent := Lent();
      PrependNothing(Left());
      while wants(pieces)
        invariant Valid() && WantedAll(wants, pieces)
        invariant lent ==> Lent() && old(Left()) == Prepend(Concat(pieces), [], Left()) && trailers == []
        invariant !wants([]) ==> pieces == [] && fullyRead == old(fullyRead)
        invariant pieces != [] && done ==> kind.Length?
        decreases !done, |io.wire|, Size()
      {
        ghost var body := Concat(pieces);
        var r := PollChunk();
        match r {
          case None =>
            PrependLast(body, trailers, Left());
            PrependNothing(Left());
            Finished(body, trailers, io.buf, io.wire);
            return pieces, Some(None);
          case Some(Err(e)) =>
            Failing(body, trailers, EndOf(e));
            PrependLast(body, trailers, Broken([], EndOf(e)));
            return pieces, Some(Some(e));
          case Some(Ok(x)) =>
            PrependPiece(body, x, Left());
            OneMore(pieces, x);
            WantedOneMore(wants, pieces, x);
            pieces := pieces + [x];
        }
      }
      ended := None;
    }

    /** `collect`: the whole body, refused as soon as more than `cap` octets of it have
        arrived. A body that ended in the very piece that overflowed was read. */
    method Collect(cap: nat) returns (r: Result<bytes, BodyError>)
      requires Valid() && (done ==> trailers == [])
      modifies this, io, decoder
      ensures Valid() && done
      ensures CollectedAs(old(Left()).outcome, cap, r, trailers)
      ensures r.Ok? ==> fullyRead == (old(done) ==> old(fullyRead))
      ensures r == Err(BodyError.TooLarge) ==> (fullyRead <==> kind.Length? && remaining == 0)
      ensures fullyRead ==> old(Left()).outcome.end.Complete? && old(Left()).buf == io.buf && old(Left()).wire == io.wire
    {
      hide FeedAll, LengthFeed, Searched, HeadEnd, StartsBlank, CollectedAs, Concat, Broken, Prepend, At, IoState.Valid;
      var acc: Option<bytes>, first: Option<bytes> := None, None;
      var total := 0;
      ghost var wasDone, left := done, Left();
      ghost var body: bytes := [];
      PrependNothing(Left());
      while true
        invariant Valid() && body == Gathered(acc, first) && total == |body| <= cap && trailers == []
        invariant acc.None? || first.None?
        invariant left == Prepend(body, [], Left()) && (wasDone ==> done && fullyRead == old(fullyRead)) && (!wasDone && done ==> fullyRead)
        decreases !done, |io.wire|, Size()
      {
        ghost var rest := Left();
        var chunk := PollChunk();
        match chunk {
          case None =>
            PrependNothing(Left());
            PrependLast(body, trailers, Left());
            CollectedAll(left, body, trailers, io.buf, io.wire, cap);
            break;
          case Some(Err(e)) =>
            Failing(body, trailers, EndOf(e));
            PrependLast(body, trailers, Broken([], EndOf(e)));
            CollectedFailing(left, body, trailers, e, cap);
            return Err(e);
          case Some(Ok(x)) =>
            PrependPiece(body, x, Left());
            body := body + x;
            total := total + |x|;
            if total > cap {
              CollectedTooMuch(left, body, Left(), cap, trailers);
              if !done {
                Fail();
              }
              return Err(BodyError.TooLarge);
            }
            match (acc, first) {
              case (Some(v), _) => acc := Some(v + x);
              case (None, Some(f)) => acc, first := Some(f + x), None;
              case (None, None) => first := Some(x);
            }
        }
      }
      r := Ok(match acc case Some(v) => v case None => if first.Some? then first.value else []);
    }
  }
}
