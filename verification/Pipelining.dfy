/** The serve loop over both streams (`Connection::serve` in `src/conn.rs`): requests taken
    off the input, and their responses, some held back for the next one, put on the
    output. No finished response ever waits for anything but the peer to take it. */
module Pipelining {
  import opened Octets
  import opened Framing
  import opened Target
  import opened FieldLines
  import opened HeadScan
  import opened RequestStream
  import opened ResponseStream
  import Body
  import ChunkCodec
  import Interim

  const STREAM_FLUSH_BYTES: nat := 8 * 1024
  const PIPELINE_FLUSH_BYTES: nat := 32 * 1024

  /** What a stream yields next, and whether it keeps the loop waiting first. */
  datatype Stretch = Stretch(waits: bool, octets: bytes)

  /** What is written for a request: a response whole; one streamed, its octets as framed,
      which may wait before its end and may break off there; or the head of an error. */
  datatype Answer =
    | AtOnce(octets: bytes)
    | Streamed(head: bytes, stretches: seq<Stretch>, waits: bool, breaks: bool, end: bytes)
    | Failed(octets: bytes)

  /** What handlers do beside reading their bodies, whatever went before: whether a request
      expects an interim response, how many reads may send some of it, whether the handler
      is still at work when first asked, and its answer. And what answers a request that
      is refused. */
  datatype Handler = Handler(
    expects: Request -> bool,
    polls: (seq<Exchange>, Request) -> nat,
    waits: (seq<Exchange>, Request) -> bool,
    answer: (seq<Exchange>, Exchange) -> Answer,
    refusal: seq<Exchange> -> bytes)

  function Stretched(ss: seq<Stretch>): bytes {
    if ss == [] then [] else Stretched(ss[..|ss| - 1]) + ss[|ss| - 1].octets
  }

  function Once(b: bool): nat { if b then 1 else 0 }

  /** How often a stream keeps the loop waiting before what it yields. */
  function Pauses(ss: seq<Stretch>): nat {
    if ss == [] then 0 else Pauses(ss[..|ss| - 1]) + Once(ss[|ss| - 1].waits)
  }

  function PausesOf(a: Answer): nat {
    if a.Streamed? then Pauses(a.stretches) + Once(a.waits) else 0
  }

  /** How often one request keeps the loop waiting: for its handler, and for its stream. */
  function WaitsFor(h: Handler, log: seq<Exchange>, x: Exchange): nat {
    Once(h.waits(log, x.request)) + PausesOf(h.answer(log, x))
  }

  function WaitsForAll(h: Handler, log: seq<Exchange>): nat {
    if log == [] then 0 else WaitsForAll(h, log[..|log| - 1]) + WaitsFor(h, log[..|log| - 1], log[|log| - 1])
  }

  lemma WaitsForOneMore(h: Handler, log: seq<Exchange>, x: Exchange)
    ensures WaitsForAll(h, log + [x]) == WaitsForAll(h, log) + WaitsFor(h, log, x)
  {
    assert (log + [x])[..|log|] == log;
  }

  function OctetsOf(a: Answer): bytes {
    match a
    case AtOnce(octets) => octets
    case Failed(octets) => octets
    case Streamed(head, ss, _, breaks, end) => head + Stretched(ss) + (if breaks then [] else end)
  }

  /** An error, or a stream that breaks off, ends the connection. */
  predicate Ends(a: Answer) { a.Failed? || (a.Streamed? && a.breaks) }

  ghost predicate Honest(c: Server, h: Handler) {
    forall log, x :: Ends(h.answer(log, x)) ==> !c.keeps(log, x)
  }

  /** Every request logged was answered, each in its place. */
  ghost predicate Answered(h: Handler, log: seq<Exchange>, entries: seq<Interim.Entry>) {
    |log| <= |entries| && forall k :: 0 <= k < |log| ==> entries[k].response == OctetsOf(h.answer(log[..k], log[k]))
  }

  lemma AnswersOneMore(h: Handler, log: seq<Exchange>, entries: seq<Interim.Entry>, x: Exchange, e: Interim.Entry)
    requires Answered(h, log, entries) && |entries| == |log| && e.response == OctetsOf(h.answer(log, x))
    ensures Answered(h, log + [x], entries + [e])
  {
    hide OctetsOf;
    var more := log + [x];
    forall k | 0 <= k < |more|
      ensures (entries + [e])[k].response == OctetsOf(h.answer(more[..k], more[k]))
    {
      if k < |log| {
        assert more[..k] == log[..k];
      } else {
        assert more[..k] == log;
      }
    }
  }

  class Connection {
    const c: Server
    const h: Handler
    const io: IoState
    const output: Interim.Output

    /** What was ready and unsent each time the loop waited: for a request to arrive, for a
        handler, or for a stream. Nothing is made ready during a wait, so one entry stands
        for all the polls of it. */
    ghost var waits: seq<bytes>

    ghost predicate Valid()
      reads this, io, output
    {
      io.Valid() && output.Valid() && forall k :: 0 <= k < |waits| ==> waits[k] == []
    }

    /** Between requests a response is held back only while the head of the next request is
        here whole, and no more of them than the limit. */
    ghost predicate Held()
      reads this, io, output
    {
      && !output.broken && output.pending == 0
      && (output.out != [] ==> HeadEnd(StripBlank(io.buf)).Some? && |output.out| < 32 * 1024)
    }

    constructor (c: Server, h: Handler, wire: seq<bytes>, script: seq<Interim.Attempt>)
      requires forall k :: 0 <= k < |wire| ==> wire[k] != []
      ensures Valid() && Held() && this.c == c && this.h == h && fresh(io) && fresh(output)
      ensures io.buf == [] && io.wire == wire && output.log == [] && output.wire == [] && waits == []
    {
      this.c, this.h := c, h;
      io := new IoState(wire);
      output := new Interim.Output(script);
      waits := [];
    }

    method Wait()
      modifies this`waits
      ensures waits == old(waits) + [output.out]
    {
      waits := waits + [output.out];
    }

    /** What is ready is written before a wait. */
    method FlushAndWait() returns (ok: bool)
      requires Valid() && !output.broken && (output.out != [] ==> output.pending == 0)
      modifies this`waits, output
      ensures Valid() && output.log == old(output.log) && output.pending == old(output.pending)
      ensures ok == !output.broken && (ok ==> output.out == [] && waits == old(waits) + [[]])
      ensures output.Reach() >= old(output.Reach()) && (!ok ==> old(output.Reach()) < |Interim.Flatten(output.log)|)
    {
      ok := true;
      if output.out != [] {
        ok := output.Flush();
      }
      if ok {
        Wait();
      }
    }

    /** The next request. Reads are made, and the end of the stream is met, only with
        nothing held: the flush ahead of them writes nothing. */
    method NextArrival() returns (n: Arrival)
      requires Valid() && Held()
      modifies this`waits, io, output
      ensures Valid() && !output.broken && output.pending == 0
      ensures output.out == old(output.out) && output.log == old(output.log) && output.wire == old(output.wire)
      ensures output.Reach() >= old(output.Reach())
      ensures |waits| == |old(waits)| + Once(HeadEnd(StripBlank(old(io.buf))).None?)
      ensures n.Closed? || io.wire != old(io.wire) ==> output.out == [] && waits == old(waits) + [[]]
      ensures match NextTurn(c, old(io.buf), old(io.wire))
              case None => !n.Got?
              case Some(t) => n == Got(t.request, t.kind) && io.buf == t.rest && io.wire == t.wire
    {
      hide HeadEnd, StripBlank, NextTurn, Interim.Flatten, Interim.Rest, Searched, StartsBlank;
      ghost var b, w := io.buf, io.wire;
      var complete := io.HasCompleteHead();
      StripTwice(b);
      TurnStripped(c, b, w);
      if !complete {
        var flushed := output.Flush();
        assert old(output.wire) + [] == old(output.wire);
        Wait();
      }
      n := RequestStream.NextRequest(c, io);
    }

    /** A streamed response: its head goes out first, then what the stream yields, enough of
        it at a time or all there is before each wait. */
    method SendStream(a: Answer) returns (ok: bool)
      requires Valid() && !output.broken && output.pending == 0 && a.Streamed?
      requires output.log != [] && output.log[|output.log| - 1].response == []
      modifies this`waits, output
      ensures Valid() && ok == !output.broken && (ok ==> output.pending == 0)
      ensures |output.log| == |old(output.log)| && output.log[..|output.log| - 1] == old(output.log)[..|output.log| - 1]
      ensures ok ==> output.log[|output.log| - 1].response == OctetsOf(a) && |waits| == |old(waits)| + PausesOf(a)
      ensures output.Reach() >= old(output.Reach()) && (!ok ==> old(output.Reach()) < |Interim.Flatten(output.log)|)
    {
      hide OctetsOf, Stretched, Pauses, Interim.Flatten, Interim.Rest, Interim.Owed, HeadEnd, Searched, StartsBlank;
      assert [] + a.head == a.head;
      output.Append(a.head);
      ok := output.Flush();
      if ok {
        ok := SendStretches(a.stretches);
      }
      if ok {
        ok := EndStream(a);
      }
    }

    /** What a stream yields, stretch by stretch. */
    method SendStretches(ss: seq<Stretch>) returns (ok: bool)
      requires Valid() && !output.broken && output.pending == 0 && output.log != []
      modifies this`waits, output
      ensures Valid() && ok == !output.broken && (ok ==> output.pending == 0)
      ensures |output.log| == |old(output.log)| && output.log[..|output.log| - 1] == old(output.log)[..|output.log| - 1]
      ensures ok ==>
                var e := old(output.log)[|old(output.log)| - 1];
                && output.log == Interim.WithLast(old(output.log), e.(response := e.response + Stretched(ss)))
                && |waits| == |old(waits)| + Pauses(ss)
      ensures output.Reach() >= old(output.Reach()) && (!ok ==> old(output.Reach()) < |Interim.Flatten(output.log)|)
    {
      hide OctetsOf, Interim.Flatten, Interim.Rest, Interim.Owed, HeadEnd, Searched, StartsBlank;
      ghost var first := output.log[|output.log| - 1];
      assert ss[..0] == [];
      assert first.response + [] == first.response;
      for i := 0 to |ss|
        invariant Valid() && !output.broken && output.pending == 0 && |output.log| == |old(output.log)|
        invariant output.Reach() >= old(output.Reach()) && |waits| == |old(waits)| + Pauses(ss[..i])
        invariant output.log == Interim.WithLast(old(output.log), first.(response := first.response + Stretched(ss[..i])))
      {
        hide Stretched, Pauses;
        StretchedOn(ss, i);
        Assoc(first.response, Stretched(ss[..i]), ss[i].octets);
        ok := SendStretch(ss[i]);
        if !ok {
          return;
        }
      }
      assert ss[..|ss|] == ss;
      ok := true;
    }

    method SendStretch(s: Stretch) returns (ok: bool)
      requires Valid() && !output.broken && output.pending == 0 && output.log != []
      modifies this`waits, output
      ensures Valid() && ok == !output.broken && (ok ==> output.pending == 0)
      ensures |output.log| == |old(output.log)| && output.log[..|output.log| - 1] == old(output.log)[..|output.log| - 1]
      ensures ok ==>
                var e := old(output.log)[|old(output.log)| - 1];
                output.log == Interim.WithLast(old(output.log), e.(response := e.response + s.octets))
      ensures ok ==> |waits| == |old(waits)| + Once(s.waits) && (|output.out| < 8 * 1024 || output.out == [])
      ensures ok && !s.waits && |old(output.out)| + |s.octets| < 8 * 1024 ==> output.wire == old(output.wire)
      ensures output.Reach() >= old(output.Reach()) && (!ok ==> old(output.Reach()) < |Interim.Flatten(output.log)|)
    {
      hide Interim.Flatten, Interim.Rest, Interim.Owed, HeadEnd, Searched, StartsBlank;
      ok := true;
      if s.waits {
        ok := FlushAndWait();
        if !ok {
          return;
        }
      }
      output.Append(s.octets);
      if |output.out| >= STREAM_FLUSH_BYTES {
        ok := output.Flush();
      }
    }

    /** The end of a stream, or what it came to before it broke off. */
    method EndStream(a: Answer) returns (ok: bool)
      requires Valid() && !output.broken && output.pending == 0 && a.Streamed? && output.log != []
      requires output.log[|output.log| - 1].response == a.head + Stretched(a.stretches)
      modifies this`waits, output
      ensures Valid() && ok == !output.broken && (ok ==> output.pending == 0)
      ensures |output.log| == |old(output.log)| && output.log[..|output.log| - 1] == old(output.log)[..|output.log| - 1]
      ensures ok ==> output.log[|output.log| - 1].response == OctetsOf(a) && |waits| == |old(waits)| + Once(a.waits)
      ensures output.Reach() >= old(output.Reach()) && (!ok ==> old(output.Reach()) < |Interim.Flatten(output.log)|)
    {
      hide Stretched, Interim.Flatten, Interim.Rest, Interim.Owed, HeadEnd, Searched, StartsBlank;
      ok := true;
      if a.waits {
        ok := FlushAndWait();
        if !ok {
          return;
        }
      }
      var sofar := a.head + Stretched(a.stretches);
      if a.breaks {
        assert sofar + [] == sofar;
        ok := output.Flush();
      } else {
        output.Append(a.end);
      }
    }

    /** A response written, or an error in its place. One that is whole is not sent on its
        way yet. */
    method Write(a: Answer) returns (ok: bool)
      requires Valid() && !output.broken && output.log != [] && output.log[|output.log| - 1].response == []
      modifies this`waits, output
      ensures Valid() && (ok ==> !output.broken && output.pending == 0)
      ensures |output.log| == |old(output.log)| && output.log[..|output.log| - 1] == old(output.log)[..|output.log| - 1]
      ensures ok ==> output.log[|output.log| - 1].response == OctetsOf(a) && |waits| == |old(waits)| + PausesOf(a)
      ensures a.AtOnce? && old(output.pending) == 0 ==>
                ok && output.wire == old(output.wire) && output.out == old(output.out) + a.octets
      ensures output.Reach() >= old(output.Reach()) && (!ok ==> old(output.Reach()) < |Interim.Flatten(output.log)|)
    {
      hide Stretched, Pauses, OctetsOf, Interim.Flatten, Interim.Rest, Interim.NextOf;
      if a.Failed? {
        ok := output.WriteError(a.octets, true);
        AtOnceOctets(a);
        return;
      }
      ghost var was := output.log;
      ok := output.SettleContinue();
      assert Interim.Started(was, output.log);
      if !ok {
        return;
      }
      if a.AtOnce? {
        assert [] + a.octets == a.octets;
        output.Append(a.octets);
        AtOnceOctets(a);
      } else {
        ok := SendStream(a);
      }
    }

    /** One request answered, and its response held back exactly if the next is already
        here and not too much is ready. */
    method Respond(a: Answer, again: bool) returns (ok: bool)
      requires Valid() && !output.broken && output.log != [] && output.log[|output.log| - 1].response == []
      modifies this`waits, io, output
      ensures Valid() && (io.buf == old(io.buf) || io.buf == StripBlank(old(io.buf))) && io.wire == old(io.wire)
      ensures |output.log| == |old(output.log)| && output.log[..|output.log| - 1] == old(output.log)[..|output.log| - 1]
      ensures ok ==> output.log[|output.log| - 1].response == OctetsOf(a) && |waits| == |old(waits)| + PausesOf(a)
      ensures ok ==> if again then Held() else !output.broken && output.pending == 0 && output.out == []
      ensures again && HeadEnd(StripBlank(old(io.buf))).Some?
              && a.AtOnce? && old(output.pending) == 0 && |old(output.out)| + |a.octets| < 32 * 1024 ==>
                ok && output.wire == old(output.wire) && output.out == old(output.out) + a.octets
      ensures output.Reach() >= old(output.Reach()) && (!ok ==> old(output.Reach()) < |Interim.Flatten(output.log)|)
    {
      hide Stretched, PausesOf, OctetsOf, Interim.Flatten, Interim.Rest, HeadEnd, Searched, StartsBlank;
      ok := Write(a);
      if !ok {
        return;
      }
      StripTwice(io.buf);
      var hold := again && |output.out| < PIPELINE_FLUSH_BYTES;
      if hold {
        hold := io.HasCompleteHead();
      }
      if !hold {
        ok := output.Flush();
      }
    }

    /** A request begun, and its handler waited for if it is still at work. */
    method Admit(log: seq<Exchange>, r: Request) returns (ok: bool)
      requires Valid() && !output.broken && output.pending == 0
      modifies this`waits, output
      ensures Valid() && ok == !output.broken && output.log == old(output.log) + [Interim.Entry(false, [])]
      ensures ok ==> |waits| == |old(waits)| + Once(h.waits(log, r))
      ensures output.Reach() >= old(output.Reach()) && (!ok ==> old(output.Reach()) < |Interim.Flatten(output.log)|)
    {
      hide Interim.Flatten, Interim.Rest, HeadEnd, Searched, StartsBlank;
      ok := output.Begin(h.expects(r));
      if ok && h.waits(log, r) {
        ok := FlushAndWait();
      }
    }

    /** One request: its handler called and waited for, and its answer sent on its way. */
    method Handle(log: seq<Exchange>, r: Request, kind: BodyKind) returns (x: Exchange, goesOn: bool, ok: bool)
      requires Valid() && !output.broken && output.pending == 0 && Honest(c, h)
      modifies this`waits, io, output
      ensures Valid() && |output.log| == |old(output.log)| + 1 && output.log[..|output.log| - 1] == old(output.log)
      ensures ok ==> output.log[|output.log| - 1].response == OctetsOf(h.answer(log, x))
      ensures ok ==> AsChosen(c, log, x)
      ensures ok ==> |waits| == |old(waits)| + Once(h.waits(log, r)) + PausesOf(h.answer(log, x))
      ensures ok ==> if goesOn then Held() else !output.broken && output.pending == 0 && output.out == []
      ensures ok ==>
                var o := Body.Opened(kind, c.limits, old(io.buf), old(io.wire));
                && x.request == r && SeenOfBody(x.seen, o.outcome) && CountsRight(kind, x)
                && (x.read ==> o.outcome.end.Complete? && (io.buf == o.buf || io.buf == StripBlank(o.buf)) && io.wire == o.wire)
                && (goesOn <==> GoesOn(c, log, x))
      ensures output.Reach() >= old(output.Reach()) && (!ok ==> old(output.Reach()) < |Interim.Flatten(output.log)|)
    {
      hide AsChosen, GoesOn, Honest, PausesOf, OctetsOf, SeenOfBody, CountsRight, Body.Opened, Interim.Flatten, Interim.Rest,
        HeadEnd, StripBlank, Searched, StartsBlank;
      ok := Admit(log, r);
      if !ok {
        x, goesOn := Exchange(r, Unread, false), false;
        return;
      }
      x, goesOn := Dispatch(c, io, log, r, kind);
      Interim.ReadBodySome(output, h.polls(log, r));
      var answer := h.answer(log, x);
      EndsStops(c, h, log, x);
      goesOn := goesOn && !Ends(answer);
      ok := Respond(answer, goesOn);
    }

    /** A request and its response; none when there is no request, or the output was given
        up. */
    method ServeOne(log: seq<Exchange>) returns (x: Option<Exchange>, again: bool, ok: bool)
      requires Valid() && Held() && Honest(c, h)
      requires |output.log| == |log| && Answered(h, log, output.log)
      modifies this`waits, io, output
      ensures Valid() && (again ==> x.Some?) && (x.Some? ==> ok)
      ensures ok && !again ==> !output.broken && output.pending == 0 && output.out == []
      ensures again ==> Held()
      ensures x.None? ==> Answered(h, log, output.log) && |output.log| <= |log| + 1
      ensures x.None? && ok ==>
                && Behaves(c, log, old(io.buf), old(io.wire), [])
                && (|output.log| == |log| + 1 ==> output.log[|log|] == Interim.Entry(false, h.refusal(log)))
      ensures x.Some? ==> Answered(h, log + [x.value], output.log) && |output.log| == |log| + 1 && AsChosen(c, log, x.value)
      ensures ok ==> |waits| >= |old(waits)| + if x.Some? then WaitsFor(h, log, x.value) else 0
      ensures x.Some? && !again ==> Behaves(c, log, old(io.buf), old(io.wire), [x.value])
      ensures again ==>
                && |io.buf| + |Concat(io.wire)| < |old(io.buf)| + |Concat(old(io.wire))|
                && forall xs :: Behaves(c, log + [x.value], io.buf, io.wire, xs) ==>
                                  Behaves(c, log, old(io.buf), old(io.wire), [x.value] + xs)
      ensures output.Reach() >= old(output.Reach()) && (!ok ==> old(output.Reach()) < |Interim.Flatten(output.log)|)
    {
      hide AsChosen, NextTurn, Behaves, GoesOn, Honest, Answered, PausesOf, OctetsOf, SeenOfBody, CountsRight, Body.Opened, Interim.Flatten,
        Interim.Rest, HeadEnd, StripBlank, Concat, Searched, StartsBlank;
      ghost var b, w, before := io.buf, io.wire, output.log;
      BehavesStep(c, log, b, w, []);
      var n := NextArrival();
      x, again := None, false;
      match n {
        case Closed =>
          ok := true;
        case Rejected =>
          ok := output.WriteError(h.refusal(log), false);
          StillAnswered(h, log, before, output.log);
        case Got(r, kind) =>
          TurnShrinks(c, b, w);
          var exchange, goesOn;
          exchange, goesOn, ok := Handle(log, r, kind);
          StillAnswered(h, log, before, output.log);
          if ok {
            TurnFollows(c, log, b, w, exchange, io.buf, io.wire);
            assert output.log == before + [output.log[|log|]];
            AnswersOneMore(h, log, before, exchange, output.log[|log|]);
            x, again := Some(exchange), goesOn;
          }
      }
    }

    /** Main result. Whenever the loop waits, for a request, for a handler or for a stream,
        every octet of a finished response has been written, and when it ends in order so
        has all it owes. It ends out of order only if the peer is not sure to take what is
        owed. The requests served are as `Behaves` says, and each is answered in its place. */
    method Serve() returns (log: seq<Exchange>, ok: bool)
      requires Valid() && Held() && Honest(c, h) && output.log == []
      modifies this`waits, io, output
      ensures forall k :: 0 <= k < |waits| ==> waits[k] == []
      ensures ok ==> |waits| >= |old(waits)| + WaitsForAll(h, log)
      ensures Answered(h, log, output.log) && |output.log| <= |log| + 1 && AllChosen(c, log)
      ensures output.wire <= Interim.Flatten(output.log)
      ensures ok ==> output.wire == Interim.Flatten(output.log) && Behaves(c, [], old(io.buf), old(io.wire), log)
      ensures ok && |output.log| == |log| + 1 ==> output.log[|log|] == Interim.Entry(false, h.refusal(log))
      ensures !ok ==> old(output.Reach()) < |Interim.Flatten(output.log)|
    {
      hide AsChosen, Behaves, GoesOn, Honest, Answered, WaitsFor, Interim.Flatten, Interim.Rest, HeadEnd, StripBlank, Concat, Searched, StartsBlank;
      log, ok := [], true;
      ghost var b, w := io.buf, io.wire;
      NothingAnswered(h);
      Interim.NotBegun();
      forall xs | Behaves(c, [], b, w, xs)
        ensures Behaves(c, [], b, w, log + xs)
      {
        assert log + xs == xs;
      }
      var again := true;
      while again
        invariant Valid() && Answered(h, log, output.log) && |output.log| <= |log| + 1 && AllChosen(c, log)
        invariant ok ==> |waits| >= |old(waits)| + WaitsForAll(h, log)
        invariant again ==> ok && Held() && |output.log| == |log| && output.Reach() >= old(output.Reach())
        invariant !ok ==> old(output.Reach()) < |Interim.Flatten(output.log)|
        invariant again ==> forall xs :: Behaves(c, log, io.buf, io.wire, xs) ==> Behaves(c, [], b, w, log + xs)
        invariant !again && ok ==> Behaves(c, [], b, w, log) && !output.broken && output.pending == 0 && output.out == []
        invariant !again && ok && |output.log| == |log| + 1 ==> output.log[|log|] == Interim.Entry(false, h.refusal(log))
        decreases again, |io.buf| + |Concat(io.wire)|
      {
        ghost var before, buf, wire := log, io.buf, io.wire;
        var x: Option<Exchange>;
        x, again, ok := ServeOne(log);
        if x.Some? {
          WaitsForOneMore(h, log, x.value);
          ChosenOneMore(c, log, x.value);
          log := log + [x.value];
          forall xs | again && Behaves(c, log, io.buf, io.wire, xs)
            ensures Behaves(c, [], b, w, log + xs)
          {
            Assoc(before, [x.value], xs);
            assert Behaves(c, before, buf, wire, [x.value] + xs);
          }
        } else {
          assert before + [] == before;
        }
      }
      Interim.SentIsPrefix(output.wire, Interim.Rest(output.pending), output.out);
      assert output.wire + [] == output.wire;
    }
  }

  lemma NothingAnswered(h: Handler)
    ensures Answered(h, [], [])
  {
  }

  lemma StillAnswered(h: Handler, log: seq<Exchange>, before: seq<Interim.Entry>, after: seq<Interim.Entry>)
    requires Answered(h, log, before) && |before| == |log|
    ensures before <= after ==> Answered(h, log, after)
  {
    hide OctetsOf;
  }

  lemma AtOnceOctets(a: Answer)
    requires !a.Streamed?
    ensures OctetsOf(a) == a.octets
  {
  }

  lemma EndsStops(c: Server, h: Handler, log: seq<Exchange>, x: Exchange)
    requires Honest(c, h)
    ensures GoesOn(c, log, x) ==> !Ends(h.answer(log, x))
  {
  }

  /** After an exchange the loop may go on as from where it left the stream, whether or not
      blank lines have been dropped meanwhile. */
  lemma TurnFollows(c: Server, log: seq<Exchange>, b: bytes, w: seq<bytes>, x: Exchange, buf: bytes, wire: seq<bytes>)
    requires NextTurn(c, b, w).Some?
    requires var t := NextTurn(c, b, w).value;
             && x.request == t.request && SeenOfBody(x.seen, t.body.outcome) && CountsRight(t.kind, x)
             && (x.read ==> t.body.outcome.end.Complete? && (buf == t.body.buf || buf == StripBlank(t.body.buf)) && wire == t.body.wire)
    ensures !GoesOn(c, log, x) ==> Behaves(c, log, b, w, [x])
    ensures GoesOn(c, log, x) ==> forall xs :: Behaves(c, log + [x], buf, wire, xs) ==> Behaves(c, log, b, w, [x] + xs)
    ensures GoesOn(c, log, x) ==> |buf| + |Concat(wire)| < |b| + |Concat(w)|
  {
    hide Behaves, NextTurn, GoesOn, SeenOfBody, CountsRight, StripBlank, Concat;
    var t := NextTurn(c, b, w).value;
    TurnBehaves(c, log, b, w, x, t.body.buf, t.body.wire);
    StrippedAwaits(c.limits.maxHeadBytes, t.body.buf, t.body.wire);
    if GoesOn(c, log, x) {
      OnlyRead(c, log, x);
      FollowsStripped(c, log, b, w, x, t.body.buf, wire);
    }
  }

  lemma FollowsStripped(c: Server, log: seq<Exchange>, b: bytes, w: seq<bytes>, x: Exchange, buf: bytes, wire: seq<bytes>)
    requires forall xs :: Behaves(c, log + [x], buf, wire, xs) ==> Behaves(c, log, b, w, [x] + xs)
    ensures forall xs :: Behaves(c, log + [x], StripBlank(buf), wire, xs) ==> Behaves(c, log, b, w, [x] + xs)
  {
    hide Behaves, StripBlank;
    forall xs | Behaves(c, log + [x], StripBlank(buf), wire, xs)
      ensures Behaves(c, log, b, w, [x] + xs)
    {
      BehavesStripped(c, log + [x], buf, wire, xs);
    }
  }

  // ---- Answers that are responses --------------------------------------------------------------

  /** What is written for a piece of a streamed body. */
  function Piece(a: Ask, p: Reply, piece: bytes): bytes {
    if ClosesAfter(a, Final(a, p)) then piece else ChunkCodec.ChunkBytes(piece)
  }

  /** The answer is the reply's response, a stream as it is framed, piece by piece, wherever
      it waits. */
  ghost predicate Frames(s: Setting, a: Ask, p: Reply, w: Answer) {
    var q := Final(a, p).payload;
    match w
    case Failed(_) => false
    case AtOnce(octets) => !(WritesBody(a, p) && q.Streamed?) && octets == Wire(s, a, p)
    case Streamed(head, ss, _, breaks, end) =>
      && WritesBody(a, p) && q.Streamed? && head == HeadOf(s, a, p)
      && |ss| == |q.pieces| && (forall i :: 0 <= i < |ss| ==> ss[i].octets == Piece(a, p, q.pieces[i]))
      && breaks == q.fails && end == if ClosesAfter(a, Final(a, p)) then [] else ChunkCodec.LastChunkBytes([])
  }

  ghost function PiecesBytes(a: Ask, p: Reply, pieces: seq<bytes>): bytes {
    if ClosesAfter(a, Final(a, p)) then Concat(pieces) else ChunkCodec.ChunksBytes(pieces)
  }

  lemma {:induction false} StretchedIs(a: Ask, p: Reply, pieces: seq<bytes>, ss: seq<Stretch>)
    requires |ss| == |pieces| && forall i :: 0 <= i < |ss| ==> ss[i].octets == Piece(a, p, pieces[i])
    ensures Stretched(ss) == PiecesBytes(a, p, pieces)
    decreases |ss|
  {
    hide ClosesAfter, Final, Concat, ChunkCodec.ChunksBytes, ChunkCodec.ChunkBytes;
    if ss == [] {
      NoPieces();
      assert pieces == [];
    } else {
      var n := |ss| - 1;
      StretchedIs(a, p, pieces[..n], ss[..n]);
      ChunksSnoc(pieces, n);
      assert pieces[..n + 1] == pieces;
    }
  }

  /** However it waits, an answer that frames a reply is that reply's response, and ends the
      connection as an answer exactly if the response breaks off. */
  lemma FramesWire(s: Setting, a: Ask, p: Reply, w: Answer)
    requires Frames(s, a, p, w)
    ensures OctetsOf(w) == Wire(s, a, p)
    ensures Ends(w) <==> BreaksOff(a, p)
  {
    hide HeadOf, ClosesAfter, Final, Concat, ChunkCodec.ChunksBytes, ChunkCodec.ChunkBytes, ChunkCodec.LastChunkBytes, Stretched;
    if w.Streamed? {
      var q := Final(a, p).payload;
      StretchedIs(a, p, q.pieces, w.stretches);
      var pieces, end := PiecesBytes(a, p, q.pieces), if q.fails then [] else w.end;
      Assoc(HeadOf(s, a, p), pieces, end);
      assert pieces + [] == pieces;
    }
  }

  /** An error, or a stream that broke off, answers the last request of a run. */
  lemma {:induction false} ErrorsComeLast(c: Server, h: Handler, log: seq<Exchange>, b: bytes, w: seq<bytes>, xs: seq<Exchange>, k: nat)
    requires Honest(c, h) && Behaves(c, log, b, w, xs) && k + 1 < |xs|
    ensures var a := h.answer(log + xs[..k], xs[k]); !a.Failed? && !(a.Streamed? && a.breaks)
    decreases k
  {
    hide Body.Opened, SeenOfBody, CountsRight, Accept, AwaitHead, GoesOn, Honest;
    OnlyRead(c, log, xs[0]);
    EndsStops(c, h, log, xs[0]);
    assert GoesOn(c, log, xs[0]);
    if k == 0 {
      assert log + xs[..0] == log;
    } else {
      AwaitBounds(c.limits.maxHeadBytes, b, w, false);
      var a := AwaitHead(c.limits.maxHeadBytes, b, w, false);
      var (r, kind) := Accept(c, a.buf[..a.end]).value;
      var o := Body.Opened(kind, c.limits, a.buf[a.end..], a.wire);
      ErrorsComeLast(c, h, log + [xs[0]], o.buf, o.wire, xs[1..], k - 1);
      assert xs[..k] == [xs[0]] + xs[1..][..k - 1];
      assert (log + [xs[0]]) + xs[1..][..k - 1] == log + xs[..k];
    }
  }

  /** What a run in order put on the wire reads back, response by response, as the answers
      to the requests served, wherever any of them waited. */
  lemma ServedReadsBack(s: Setting, h: Handler, log: seq<Exchange>, entries: seq<Interim.Entry>, asks: seq<(Ask, Reply)>)
    requires |entries| == |log| == |asks| && Answered(h, log, entries)
    requires forall k :: 0 <= k < |log| ==> Frames(s, asks[k].0, asks[k].1, h.answer(log[..k], log[k]))
    requires ValidValue(s.date)
    requires forall k :: 0 <= k < |asks| ==> Readable(s, Sending(asks[k].0, asks[k].1, entries[k].continued))
    requires forall k :: 0 <= k < |asks| - 1 ==> Fate(asks[k].0, asks[k].1) == KeepAlive
    ensures var xs := Interim.Sendings(asks, entries);
            ReadRun(ResponseStream.Heads(xs), Interim.Flatten(entries)) == Some(Conclusions(xs))
  {
    hide Wire, OctetsOf, Frames, Interim.Flatten, Readable, Fate, ReadRun, Conclusions, ValidValue;
    var xs := Interim.Sendings(asks, entries);
    forall k | 0 <= k < |xs|
      ensures entries[k] == Interim.Entry(xs[k].continued, Wire(s, xs[k].ask, xs[k].reply))
    {
      assert entries[k].response == OctetsOf(h.answer(log[..k], log[k]));
      FramesWire(s, asks[k].0, asks[k].1, h.answer(log[..k], log[k]));
    }
    Interim.FlattenIsOutput(s, xs, entries);
    RunReadsBack(s, xs);
  }

  lemma {:induction false} StretchedOn(ss: seq<Stretch>, i: nat)
    requires i < |ss|
    ensures Stretched(ss[..i + 1]) == Stretched(ss[..i]) + ss[i].octets
    ensures Pauses(ss[..i + 1]) == Pauses(ss[..i]) + Once(ss[i].waits)
  {
    assert ss[..i + 1][..i] == ss[..i];
  }
}
