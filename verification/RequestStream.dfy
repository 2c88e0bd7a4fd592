/** The serve loop's request side (`Connection::serve` in `src/conn.rs`): which requests
    and bodies handlers see, against one reading of the whole input stream. */
module RequestStream {
  import opened Octets
  import opened Headers
  import opened Target
  import opened Framing
  import opened Chunked
  import opened ChunkedSplit
  import opened HeadScan
  import opened Body

  /** How a handler's reading of a body ended; it may have stopped before the end. */
  datatype Close = Stopped | Whole | Truncated | Malformed

  /** What a handler sees of a request's body: nothing, pieces, or first some pieces and
      then the result of gathering the rest up to a cap. */
  datatype Seen =
    | Unread
    | Read(body: bytes, trailers: seq<Field>, close: Close)
    | Gathered(first: bytes, cap: nat, result: Result<bytes, BodyError>, trailers: seq<Field>)

  /** One request dispatched; `read` is whether its body was wholly off the stream when
      its response was ready. */
  datatype Exchange = Exchange(request: Request, seen: Seen, read: bool)

  /** The limits; the request-head parser, which answers a request or a status; and what
      handlers do, whatever went before: whether another piece of the body is wanted
      after these, whether the rest is then gathered and up to what cap, and whether the
      response lets the connection persist. */
  datatype Server = Server(
    limits: Limits,
    parse: bytes -> Result<Request, nat>,
    wants: (seq<Exchange>, Request, seq<bytes>) -> bool,
    gathers: (seq<Exchange>, Request, seq<bytes>) -> Option<nat>,
    keeps: (seq<Exchange>, Exchange) -> bool)

  predicate IsKeepAlive(r: Request) {
    var values := AllValues(r.headers, Known(Connection));
    if r.version.Http11? then !NamesToken(values, "close") else NamesToken(values, "keep-alive")
  }

  /** What a request says of its connection, by the words it says it with: it persists on
      HTTP/1.1 unless some `Connection` element spells `close`, and on HTTP/1.0 only if one
      spells `keep-alive`, in whatever case. */
  ghost predicate SaysToPersist(r: Request) {
    var values := AllValues(r.headers, Known(Connection));
    match r.version
    case Http11 => !Mention(values, "close")
    case Http10 => Mention(values, "keep-alive")
  }

  lemma KeepAliveIff(r: Request)
    ensures IsKeepAlive(r) <==> SaysToPersist(r)
  {
    var values := AllValues(r.headers, Known(Connection));
    assert Lower("close") == "close" && Lower("keep-alive") == "keep-alive";
    NamesTokenIff(values, "close");
    NamesTokenIff(values, "keep-alive");
    hide NamesToken, Mention;
  }

  function CloseOf(end: Ending): Close {
    match end case Complete(_) => Close.Whole case Incomplete => Truncated case Error => Malformed
  }

  function SeenOf(o: Outcome): Seen { Read(o.body, o.trailers, CloseOf(o.end)) }

  predicate IsEmpty(kind: BodyKind) { kind == NoBody || kind == Length(0) }

  /** What was seen of a body shows that all of it was taken off the stream: there was
      none, it was polled to its end or to its last announced octet, or it was gathered.
      Of one over its cap it can only be so if its length was announced. */
  predicate TakenWhole(kind: BodyKind, seen: Seen) {
    match seen
    case Unread => IsEmpty(kind)
    case Read(body, _, close) => close.Whole? || (close.Stopped? && kind == Length(|body|))
    case Gathered(_, _, r, _) => r.Ok? || OverCap(kind, seen)
  }

  /** Gathering gave up on a body of announced length, which may have ended in the very
      piece that was too much. */
  predicate OverCap(kind: BodyKind, seen: Seen) {
    seen.Gathered? && seen.result == Err(BodyError.TooLarge) && kind.Length?
  }

  /** A body counts as read exactly when all of it was taken, which what was seen decides
      but for a body over its cap. */
  predicate CountsRight(kind: BodyKind, x: Exchange) {
    && (x.read ==> TakenWhole(kind, x.seen))
    && (TakenWhole(kind, x.seen) && !OverCap(kind, x.seen) ==> x.read)
  }

  /** The exchange of a handler that reads a body to its end or leaves it alone. */
  function WholeOrNothing(c: Server, log: seq<Exchange>, r: Request, kind: BodyKind, o: Outcome): Exchange {
    if c.wants(log, r, []) then Exchange(r, SeenOf(o), o.end.Complete?) else Exchange(r, Unread, IsEmpty(kind))
  }

  /** Whether the loop goes round again after an exchange. */
  predicate GoesOn(c: Server, log: seq<Exchange>, x: Exchange) {
    x.read && IsKeepAlive(x.request) && c.keeps(log, x)
  }

  /** A head that yields a request with a decided framing. */
  function Accept(c: Server, head: bytes): Option<(Request, BodyKind)> {
    match c.parse(head)
    case Err(_) => None
    case Ok(r) =>
      match Decide(r, c.limits.maxBodyBytes)
      case Err(_) => None
      case Ok(kind) => Some((r, kind))
  }

  // ---- One reading of the whole stream --------------------------------------------------

  function WholeBody(kind: BodyKind, l: Limits, stream: bytes): Outcome {
    match kind
    case NoBody => Outcome([], [], Complete(stream))
    case Length(n) => Cut(n, stream)
    case ChunkedBody => ChunkedSplit.Whole(l, FRESH, stream)
  }

  lemma {:induction false} DrainShrinks(l: Limits, d: Decoder, buf: bytes)
    ensures var s := Drain(l, d, buf).stop; s.Ended? ==> |s.rest| <= |buf|
    decreases |buf|, if d.phase == AwaitData then 1 else 0
  {
    hide Next;
    var t := Next(l, d, buf);
    if Progress(t) {
      DrainShrinks(l, t.dec, buf[t.used..]);
    }
  }

  lemma TailIsShorter(kind: BodyKind, l: Limits, stream: bytes)
    ensures var o := WholeBody(kind, l, stream); o.end.Complete? ==> |o.end.tail| <= |stream|
  {
    if kind.ChunkedBody? {
      DrainShrinks(l, FRESH, stream);
    }
  }

  lemma HeadIsNotEmpty(max: nat, stream: bytes)
    ensures OneShot(max, stream).Head? ==> |OneShot(max, stream).rest| < |stream|
  {
  }

  lemma EmptyIsComplete(kind: BodyKind, l: Limits, stream: bytes)
    requires IsEmpty(kind)
    ensures WholeBody(kind, l, stream) == Outcome([], [], Complete(stream))
  {
    assert stream[..0] == [] && stream[0..] == stream;
  }

  lemma ReadIsComplete(c: Server, log: seq<Exchange>, r: Request, kind: BodyKind, l: Limits, stream: bytes)
    ensures var o := WholeBody(kind, l, stream);
            WholeOrNothing(c, log, r, kind, o).read ==> o.end.Complete? && |o.end.tail| <= |stream|
  {
    TailIsShorter(kind, l, stream);
    if IsEmpty(kind) {
      EmptyIsComplete(kind, l, stream);
    }
  }

  /** The reference: heads and bodies cut off the stream one after the other until a
      rejection, an unread or failed body, or a response that does not persist. */
  function Reference(c: Server, log: seq<Exchange>, stream: bytes): seq<Exchange>
    decreases |stream|
  {
    match OneShot(c.limits.maxHeadBytes, stream)
    case Refused => []
    case NoHead => []
    case Head(head, rest) =>
      match Accept(c, head)
      case None => []
      case Some((r, kind)) =>
        var o := WholeBody(kind, c.limits, rest);
        var x := WholeOrNothing(c, log, r, kind, o);
        if !GoesOn(c, log, x) then [x]
        else
          HeadIsNotEmpty(c.limits.maxHeadBytes, stream);
          ReadIsComplete(c, log, r, kind, c.limits, rest);
          [x] + Reference(c, log + [x], o.end.tail)
  }

  /** Every request a stream holds: its heads cut off with every body taken whole,
      whatever handlers do, up to the first rejection or broken body. */
  function Heads(c: Server, stream: bytes): seq<Request>
    decreases |stream|
  {
    match OneShot(c.limits.maxHeadBytes, stream)
    case Refused => []
    case NoHead => []
    case Head(head, rest) =>
      match Accept(c, head)
      case None => []
      case Some((r, kind)) =>
        var o := WholeBody(kind, c.limits, rest);
        HeadIsNotEmpty(c.limits.maxHeadBytes, stream);
        TailIsShorter(kind, c.limits, rest);
        [r] + if o.end.Complete? then Heads(c, o.end.tail) else []
  }

  // ---- The run over reads ------------------------------------------------------------------

  lemma AwaitedRest(max: nat, buf: bytes, wire: seq<bytes>)
    ensures var a := AwaitHead(max, buf, wire, false);
            a.Ready? && a.end <= max ==>
              && 4 <= a.end <= |a.buf|
              && |a.buf[a.end..]| + |Concat(a.wire)| < |buf| + |Concat(wire)|
  {
    AwaitShrinks(max, buf, wire, false);
  }

  lemma {:induction false} AwaitShrinks(max: nat, buf: bytes, wire: seq<bytes>, read: bool)
    ensures var a := AwaitHead(max, buf, wire, read);
            a.Ready? ==> 4 <= a.end <= |a.buf| && |a.buf| + |Concat(a.wire)| <= |buf| + |Concat(wire)|
    decreases |wire|
  {
    hide HeadEnd, StripBlank;
    var s := StripBlank(buf);
    if HeadEnd(s).None? && !(read && |s| > max) && wire != [] {
      AwaitShrinks(max, s + wire[0], wire[1..], true);
    }
  }

  lemma OpenedShrinks(kind: BodyKind, l: Limits, buf: bytes, wire: seq<bytes>)
    ensures var o := Opened(kind, l, buf, wire);
            o.outcome.end.Complete? ==> |o.buf| + |Concat(o.wire)| <= |buf| + |Concat(wire)|
  {
    hide FeedAll;
    match kind
    case NoBody =>
    case Length(n) => LengthIsCut(n, buf, wire);
    case ChunkedBody => FeedShrinks(l, FRESH, buf, wire);
  }

  lemma {:induction false} DrainHungryShrinks(l: Limits, d: Decoder, buf: bytes)
    ensures var s := Drain(l, d, buf).stop; s.Hungry? ==> |s.rest| <= |buf|
    decreases |buf|, if d.phase == AwaitData then 1 else 0
  {
    hide Next;
    var t := Next(l, d, buf);
    if Progress(t) {
      DrainHungryShrinks(l, t.dec, buf[t.used..]);
    }
  }

  lemma {:induction false} FeedShrinks(l: Limits, d: Decoder, buf: bytes, wire: seq<bytes>)
    ensures var o := FeedAll(l, d, buf, wire);
            o.outcome.end.Complete? ==> |o.buf| + |Concat(o.wire)| <= |buf| + |Concat(wire)|
    decreases |wire|
  {
    DrainShrinks(l, d, buf);
    DrainHungryShrinks(l, d, buf);
    hide Drain;
    var s := Drain(l, d, buf).stop;
    if s.Hungry? && wire != [] {
      FeedShrinks(l, s.dec, s.rest + wire[0], wire[1..]);
    }
  }

  lemma OpenedIsComplete(c: Server, log: seq<Exchange>, r: Request, kind: BodyKind, buf: bytes, wire: seq<bytes>)
    ensures var o := Opened(kind, c.limits, buf, wire);
            WholeOrNothing(c, log, r, kind, o.outcome).read ==>
              o.outcome.end.Complete? && |o.buf| + |Concat(o.wire)| <= |buf| + |Concat(wire)|
  {
    OpenedShrinks(kind, c.limits, buf, wire);
    hide FeedAll;
  }

  /** The serve loop, under handlers that read a body to its end or leave it alone, as a
      function of the buffer and the reads to come. */
  function Run(c: Server, log: seq<Exchange>, buf: bytes, wire: seq<bytes>): seq<Exchange>
    decreases |buf| + |Concat(wire)|
  {
    AwaitedRest(c.limits.maxHeadBytes, buf, wire);
    var a := AwaitHead(c.limits.maxHeadBytes, buf, wire, false);
    if !a.Ready? || a.end > c.limits.maxHeadBytes then []
    else
      match Accept(c, a.buf[..a.end])
      case None => []
      case Some((r, kind)) =>
        var o := Opened(kind, c.limits, a.buf[a.end..], a.wire);
        var x := WholeOrNothing(c, log, r, kind, o.outcome);
        if !GoesOn(c, log, x) then [x]
        else
          OpenedIsComplete(c, log, r, kind, a.buf[a.end..], a.wire);
          [x] + Run(c, log + [x], o.buf, o.wire)
  }

  /** No chunked body the run reads has a read boundary on a cut. */
  ghost predicate Uncut(c: Server, log: seq<Exchange>, buf: bytes, wire: seq<bytes>)
    decreases |buf| + |Concat(wire)|
  {
    AwaitedRest(c.limits.maxHeadBytes, buf, wire);
    var a := AwaitHead(c.limits.maxHeadBytes, buf, wire, false);
    if !a.Ready? || a.end > c.limits.maxHeadBytes then true
    else
      match Accept(c, a.buf[..a.end])
      case None => true
      case Some((r, kind)) =>
        var o := Opened(kind, c.limits, a.buf[a.end..], a.wire);
        var x := WholeOrNothing(c, log, r, kind, o.outcome);
        OpenedIsComplete(c, log, r, kind, a.buf[a.end..], a.wire);
        && (kind.ChunkedBody? && x.seen.Read? ==> NoCutSplit(c.limits, FRESH, a.buf[a.end..], a.wire))
        && (GoesOn(c, log, x) ==> Uncut(c, log + [x], o.buf, o.wire))
  }

  /** What a handler may have seen of a body that delivers `o`. */
  ghost predicate SeenOfBody(seen: Seen, o: Outcome) {
    match seen
    case Unread => true
    case Read(body, trailers, close) => if close.Stopped? then body <= o.body && trailers == [] else seen == SeenOf(o)
    case Gathered(first, cap, r, trailers) =>
      first <= o.body && CollectedAs(o.(body := o.body[|first|..]), cap, r, trailers)
  }

  /** These pieces, each wanted after those before it, account for what was seen: the
      handler stopped there or the body did, and what it then chose to gather was gathered. */
  ghost predicate Shows(c: Server, log: seq<Exchange>, r: Request, pieces: seq<bytes>, seen: Seen) {
    && (forall k :: 0 <= k < |pieces| ==> c.wants(log, r, pieces[..k]))
    && match seen
       case Unread => pieces == [] && !c.wants(log, r, []) && c.gathers(log, r, []) == None
       case Read(body, _, close) =>
         && body == Concat(pieces)
         && if close.Stopped? then pieces != [] && !c.wants(log, r, pieces) && c.gathers(log, r, pieces) == None
            else c.wants(log, r, pieces)
       case Gathered(first, cap, _, _) =>
         first == Concat(pieces) && !c.wants(log, r, pieces) && c.gathers(log, r, pieces) == Some(cap)
  }

  /** What was seen of the body is what the handler chose to see. */
  ghost predicate AsChosen(c: Server, log: seq<Exchange>, x: Exchange) {
    exists pieces :: Shows(c, log, x.request, pieces, x.seen)
  }

  ghost predicate AllChosen(c: Server, log: seq<Exchange>) {
    forall k :: 0 <= k < |log| ==> AsChosen(c, log[..k], log[k])
  }

  lemma ChosenOneMore(c: Server, log: seq<Exchange>, x: Exchange)
    requires AllChosen(c, log) && AsChosen(c, log, x)
    ensures AllChosen(c, log + [x])
  {
    hide AsChosen;
    assert forall k :: 0 <= k <= |log| ==> (log + [x])[..k] == log[..k];
    assert log[..|log|] == log;
  }

  /** `xs` are exchanges the serve loop may go through after `log`, under handlers that
      read as much of a body as they like, in pieces or gathered: each is with the next
      head, sees part or all of its body, counts as read if all of that was taken and only
      if it ended cleanly, and is followed by another only if it was read and both sides
      persist; the next head is then looked for just past that body. */
  ghost predicate Behaves(c: Server, log: seq<Exchange>, buf: bytes, wire: seq<bytes>, xs: seq<Exchange>)
    decreases |xs|
  {
    AwaitBounds(c.limits.maxHeadBytes, buf, wire, false);
    var a := AwaitHead(c.limits.maxHeadBytes, buf, wire, false);
    if !a.Ready? || a.end > c.limits.maxHeadBytes then xs == []
    else
      match Accept(c, a.buf[..a.end])
      case None => xs == []
      case Some((r, kind)) =>
        var o := Opened(kind, c.limits, a.buf[a.end..], a.wire);
        && xs != [] && xs[0].request == r && SeenOfBody(xs[0].seen, o.outcome)
        && CountsRight(kind, xs[0]) && (xs[0].read ==> o.outcome.end.Complete?)
        && if GoesOn(c, log, xs[0]) then Behaves(c, log + [xs[0]], o.buf, o.wire, xs[1..]) else |xs| == 1
  }

  // ---- The two agree ---------------------------------------------------------------------------

  lemma NoHeadUnderZero(buf: bytes, wire: seq<bytes>)
    ensures !Awaited(0, buf, wire, false).Head?
  {
    AwaitShrinks(0, buf, wire, false);
  }

  /** The run and the reference take the same head, or neither takes one. */
  lemma SameHead(max: nat, buf: bytes, wire: seq<bytes>)
    ensures var t, u := Awaited(max, buf, wire, false), OneShot(max, buf + Concat(wire));
            t == u || (!t.Head? && !u.Head?)
  {
    hide Awaited, OneShot, StripBlank, HeadEnd, SplitBlank;
    HeadVerdict(max, buf, wire);
    if NothingRead(max, buf, wire) {
      AwaitStep(max, buf, wire, false);
      assert buf + Concat(wire) == buf;
      UnfinishedHasNoHead(max, buf);
    } else if max == 0 {
      NoHeadUnderZero(buf, wire);
      OneShotZero(buf + Concat(wire));
    }
  }

  lemma UnfinishedHasNoHead(max: nat, stream: bytes)
    requires HeadEnd(StripBlank(stream)).None?
    ensures !OneShot(max, stream).Head?
  {
  }

  /** A chunked run that does not fail met no cut. */
  lemma {:induction false} CleanIsUncut(l: Limits, d: Decoder, buf: bytes, wire: seq<bytes>)
    requires Feed(l, d, buf, wire).end != Error
    ensures NoCutSplit(l, d, buf, wire)
    decreases |wire|
  {
    hide Drain, IsCut;
    if wire != [] {
      if IsCut(l, d, buf + Concat(wire), |buf|) {
        CutDiffers(l, d, buf, Concat(wire));
      } else {
        var s := Drain(l, d, buf).stop;
        if s.Hungry? {
          CleanIsUncut(l, s.dec, s.rest + wire[0], wire[1..]);
          BoundaryShift(l, d, buf, wire, s.dec, s.rest);
        } else {
          NoLaterCut(l, d, buf, wire);
        }
      }
    }
  }

  /** What a handler sees tells a split run from a whole one exactly at a cut. */
  lemma SeenTellsCut(l: Limits, buf: bytes, wire: seq<bytes>)
    ensures SeenOf(Feed(l, FRESH, buf, wire)) == SeenOf(ChunkedSplit.Whole(l, FRESH, buf + Concat(wire)))
            <==> NoCutSplit(l, FRESH, buf, wire)
  {
    hide Feed, ChunkedSplit.Whole, NoCutSplit;
    SplitInvariance(l, FRESH, buf, wire);
    if Feed(l, FRESH, buf, wire).end != Error {
      CleanIsUncut(l, FRESH, buf, wire);
    }
  }

  /** A body of any kind, split and whole. */
  lemma SameBody(kind: BodyKind, l: Limits, buf: bytes, wire: seq<bytes>)
    ensures var o, w := Opened(kind, l, buf, wire), WholeBody(kind, l, buf + Concat(wire));
            && (kind.ChunkedBody? ==> (SeenOf(o.outcome) == SeenOf(w) <==> NoCutSplit(l, FRESH, buf, wire)))
            && (!kind.ChunkedBody? || NoCutSplit(l, FRESH, buf, wire) ==> o.outcome == w)
            && (o.outcome.end.Complete? ==> o.outcome.end.tail == o.buf + Concat(o.wire))
            && (IsEmpty(kind) ==> o.buf == buf && o.wire == wire)
  {
    hide Feed, ChunkedSplit.Whole, NoCutSplit, FeedLeft, SeenOf;
    match kind
    case NoBody =>
    case Length(n) => LengthIsCut(n, buf, wire);
    case ChunkedBody =>
      SeenTellsCut(l, buf, wire);
      SplitInvariance(l, FRESH, buf, wire);
      FeedLeavesTail(l, FRESH, buf, wire);
  }

  /** Where a head is found and accepted, and what its body will deliver. */
  datatype Turn = Turn(request: Request, kind: BodyKind, rest: bytes, wire: seq<bytes>, body: Remains)

  /** The next request of a run, if there is one. */
  function NextTurn(c: Server, buf: bytes, wire: seq<bytes>): Option<Turn> {
    AwaitBounds(c.limits.maxHeadBytes, buf, wire, false);
    var a := AwaitHead(c.limits.maxHeadBytes, buf, wire, false);
    if !a.Ready? || a.end > c.limits.maxHeadBytes then None
    else
      match Accept(c, a.buf[..a.end])
      case None => None
      case Some((r, kind)) =>
        Some(Turn(r, kind, a.buf[a.end..], a.wire, Opened(kind, c.limits, a.buf[a.end..], a.wire)))
  }

  /** One step of the run, of the predicate beside it, and of every behaviour. */
  lemma RunStep(c: Server, log: seq<Exchange>, buf: bytes, wire: seq<bytes>)
    ensures match NextTurn(c, buf, wire)
            case None => Run(c, log, buf, wire) == [] && Uncut(c, log, buf, wire)
            case Some(t) =>
              var x := WholeOrNothing(c, log, t.request, t.kind, t.body.outcome);
              && Run(c, log, buf, wire) == [x] + (if GoesOn(c, log, x) then Run(c, log + [x], t.body.buf, t.body.wire) else [])
              && (Uncut(c, log, buf, wire) <==>
                    && (t.kind.ChunkedBody? && x.seen.Read? ==> NoCutSplit(c.limits, FRESH, t.rest, t.wire))
                    && (GoesOn(c, log, x) ==> Uncut(c, log + [x], t.body.buf, t.body.wire)))
  {
    hide AwaitHead, Accept, NoCutSplit, Opened, WholeOrNothing, IsKeepAlive;
    AwaitedRest(c.limits.maxHeadBytes, buf, wire);
  }

  lemma BehavesStep(c: Server, log: seq<Exchange>, buf: bytes, wire: seq<bytes>, xs: seq<Exchange>)
    ensures match NextTurn(c, buf, wire)
            case None => Behaves(c, log, buf, wire, xs) <==> xs == []
            case Some(t) =>
              Behaves(c, log, buf, wire, xs) <==>
                && xs != [] && xs[0].request == t.request && SeenOfBody(xs[0].seen, t.body.outcome)
                && CountsRight(t.kind, xs[0]) && (xs[0].read ==> t.body.outcome.end.Complete?)
                && if GoesOn(c, log, xs[0]) then Behaves(c, log + [xs[0]], t.body.buf, t.body.wire, xs[1..]) else |xs| == 1
  {
    hide AwaitHead, Accept, Opened, IsKeepAlive, SeenOfBody, CountsRight;
  }

  /** A turn leaves less of the stream to read once its body is complete. */
  lemma TurnShrinks(c: Server, buf: bytes, wire: seq<bytes>)
    requires NextTurn(c, buf, wire).Some?
    ensures var t := NextTurn(c, buf, wire).value;
            && t.body == Opened(t.kind, c.limits, t.rest, t.wire)
            && |t.rest| + |Concat(t.wire)| < |buf| + |Concat(wire)|
            && (t.body.outcome.end.Complete? ==> |t.body.buf| + |Concat(t.body.wire)| < |buf| + |Concat(wire)|)
  {
    AwaitedRest(c.limits.maxHeadBytes, buf, wire);
    var t := NextTurn(c, buf, wire).value;
    OpenedShrinks(t.kind, c.limits, t.rest, t.wire);
    hide AwaitHead, Accept, Opened;
  }

  /** The next turn of a run is the next request of the stream. */
  lemma SameTurn(c: Server, buf: bytes, wire: seq<bytes>)
    ensures match OneShot(c.limits.maxHeadBytes, buf + Concat(wire))
            case Refused => NextTurn(c, buf, wire).None?
            case NoHead => NextTurn(c, buf, wire).None?
            case Head(head, rest) =>
              match Accept(c, head)
              case None => NextTurn(c, buf, wire).None?
              case Some((r, kind)) =>
                && NextTurn(c, buf, wire).Some?
                && var t := NextTurn(c, buf, wire).value;
                   t.request == r && t.kind == kind && rest == t.rest + Concat(t.wire)
  {
    var max := c.limits.maxHeadBytes;
    SameHead(max, buf, wire);
    AwaitBounds(max, buf, wire, false);
    hide AwaitHead, OneShot, Accept, Opened;
  }

  /** One step of the reference. */
  lemma ReferenceStep(c: Server, log: seq<Exchange>, stream: bytes)
    ensures match OneShot(c.limits.maxHeadBytes, stream)
            case Refused => Reference(c, log, stream) == []
            case NoHead => Reference(c, log, stream) == []
            case Head(head, rest) =>
              match Accept(c, head)
              case None => Reference(c, log, stream) == []
              case Some((r, kind)) =>
                var o := WholeBody(kind, c.limits, rest);
                var x := WholeOrNothing(c, log, r, kind, o);
                && (x.read ==> o.end.Complete?)
                && Reference(c, log, stream) == [x] + (if GoesOn(c, log, x) then Reference(c, log + [x], o.end.tail) else [])
  {
    hide OneShot, Accept, WholeBody, WholeOrNothing, IsKeepAlive;
    match OneShot(c.limits.maxHeadBytes, stream)
    case Refused =>
    case NoHead =>
    case Head(head, rest) =>
      match Accept(c, head)
      case None =>
      case Some((r, kind)) => ReadIsComplete(c, log, r, kind, c.limits, rest);
  }

  /** Main result. Under handlers that read a body to its end or leave it alone, over any
      split of the input into reads they see exactly the heads and bodies the reference
      cuts off the whole stream, in order, exactly when no chunked body they read has a
      read boundary on a cut. */
  lemma {:induction false} RequestsRefine(c: Server, log: seq<Exchange>, buf: bytes, wire: seq<bytes>)
    ensures Run(c, log, buf, wire) == Reference(c, log, buf + Concat(wire)) <==> Uncut(c, log, buf, wire)
    decreases |buf| + |Concat(wire)|
  {
    hide Run, Uncut, Reference, NextTurn, OneShot, Accept, NoCutSplit, WholeBody, WholeOrNothing, GoesOn;
    var stream := buf + Concat(wire);
    RunStep(c, log, buf, wire);
    ReferenceStep(c, log, stream);
    SameTurn(c, buf, wire);
    if NextTurn(c, buf, wire).Some? {
      var t := NextTurn(c, buf, wire).value;
      TurnShrinks(c, buf, wire);
      SameExchange(c, log, t);
      var o := WholeBody(t.kind, c.limits, t.rest + Concat(t.wire));
      var x, y := WholeOrNothing(c, log, t.request, t.kind, t.body.outcome), WholeOrNothing(c, log, t.request, t.kind, o);
      if x != y {
        assert Run(c, log, buf, wire)[0] == x && Reference(c, log, stream)[0] == y;
      } else if GoesOn(c, log, x) {
        OnlyRead(c, log, x);
        RequestsRefine(c, log + [x], t.body.buf, t.body.wire);
        Cancel([x], Run(c, log + [x], t.body.buf, t.body.wire), Reference(c, log + [x], o.end.tail));
      }
    }
  }

  lemma OnlyRead(c: Server, log: seq<Exchange>, x: Exchange)
    requires GoesOn(c, log, x)
    ensures x.read
  {
  }

  /** The two exchanges are the same exactly when the body read was not cut, and then
      the same stream follows. */
  lemma SameExchange(c: Server, log: seq<Exchange>, t: Turn)
    requires t.body == Opened(t.kind, c.limits, t.rest, t.wire)
    ensures var o := WholeBody(t.kind, c.limits, t.rest + Concat(t.wire));
            var x, y := WholeOrNothing(c, log, t.request, t.kind, t.body.outcome), WholeOrNothing(c, log, t.request, t.kind, o);
            && (x == y <==> (t.kind.ChunkedBody? && x.seen.Read? ==> NoCutSplit(c.limits, FRESH, t.rest, t.wire)))
            && (x.read ==> t.body.outcome.end.Complete?)
            && (x == y && x.read ==> o.end.Complete? && o.end.tail == t.body.buf + Concat(t.body.wire))
  {
    SameBody(t.kind, c.limits, t.rest, t.wire);
    if IsEmpty(t.kind) {
      EmptyIsComplete(t.kind, c.limits, t.rest + Concat(t.wire));
    }
    hide Opened, WholeBody, NoCutSplit;
  }

  // ---- Whatever handlers do -----------------------------------------------------------------------

  function Requests(xs: seq<Exchange>): (rs: seq<Request>)
    ensures |rs| == |xs|
  {
    if xs == [] then [] else [xs[0].request] + Requests(xs[1..])
  }

  lemma HeadsStep(c: Server, stream: bytes)
    ensures match OneShot(c.limits.maxHeadBytes, stream)
            case Refused => Heads(c, stream) == []
            case NoHead => Heads(c, stream) == []
            case Head(head, rest) =>
              match Accept(c, head)
              case None => Heads(c, stream) == []
              case Some((r, kind)) =>
                var o := WholeBody(kind, c.limits, rest);
                Heads(c, stream) == [r] + (if o.end.Complete? then Heads(c, o.end.tail) else [])
  {
    hide OneShot, Accept, WholeBody;
  }

  /** A body that ended cleanly, however it was split, is the body of the stream. */
  lemma CleanBodyIsWhole(kind: BodyKind, l: Limits, buf: bytes, wire: seq<bytes>)
    requires Opened(kind, l, buf, wire).outcome.end.Complete?
    ensures var o, w := Opened(kind, l, buf, wire), WholeBody(kind, l, buf + Concat(wire));
            w == o.outcome && w.end.Complete? && w.end.tail == o.buf + Concat(o.wire)
  {
    SameBody(kind, l, buf, wire);
    if kind.ChunkedBody? {
      CleanIsUncut(l, FRESH, buf, wire);
    }
    hide Feed, ChunkedSplit.Whole, NoCutSplit, FeedLeft, LengthFeed, Cut;
  }

  /** Main result. However many pieces of each body handlers take, in whatever way they
      gather it, and whatever they decide from what went before, the requests dispatched
      are a prefix, in order, of those the stream holds with every body taken whole. No
      split of the input into reads and no handler makes body octets a request. */
  lemma {:induction false} DispatchedAreHeads(c: Server, log: seq<Exchange>, buf: bytes, wire: seq<bytes>, xs: seq<Exchange>)
    requires Behaves(c, log, buf, wire, xs)
    ensures Requests(xs) <= Heads(c, buf + Concat(wire))
    decreases |xs|
  {
    hide Behaves, Heads, NextTurn, OneShot, Accept, WholeBody, GoesOn, SeenOfBody, CountsRight;
    BehavesStep(c, log, buf, wire, xs);
    HeadsStep(c, buf + Concat(wire));
    SameTurn(c, buf, wire);
    if NextTurn(c, buf, wire).Some? {
      var t := NextTurn(c, buf, wire).value;
      TurnShrinks(c, buf, wire);
      assert Requests(xs) == [t.request] + Requests(xs[1..]);
      if GoesOn(c, log, xs[0]) {
        OnlyRead(c, log, xs[0]);
        CleanBodyIsWhole(t.kind, c.limits, t.rest, t.wire);
        DispatchedAreHeads(c, log + [xs[0]], t.body.buf, t.body.wire, xs[1..]);
      } else {
        assert xs[1..] == [];
      }
    }
  }

  /** An exchange after which the loop may go on: the framing was decided, what was seen
      shows all of the body taken, and both sides persist. */
  ghost predicate MayFollow(c: Server, log: seq<Exchange>, x: Exchange) {
    && Decide(x.request, c.limits.maxBodyBytes).Ok?
    && TakenWhole(Decide(x.request, c.limits.maxBodyBytes).value, x.seen)
    && SaysToPersist(x.request) && c.keeps(log, x)
  }

  lemma TurnIsDecided(c: Server, buf: bytes, wire: seq<bytes>)
    requires NextTurn(c, buf, wire).Some?
    ensures var t := NextTurn(c, buf, wire).value; Decide(t.request, c.limits.maxBodyBytes) == Ok(t.kind)
  {
    hide AwaitHead, Opened, Decide;
  }

  /** Main result. In every behaviour what was seen of the body in each exchange but the
      last shows all of it taken, and both sides persist: nothing is dispatched after a
      rejection, a body unread, read in part or failed, one over its cap unless its length
      was announced and it ended there, or a response that closes. */
  lemma {:induction false} OnlyPersistentContinue(c: Server, log: seq<Exchange>, buf: bytes, wire: seq<bytes>, xs: seq<Exchange>)
    requires Behaves(c, log, buf, wire, xs)
    ensures forall k :: 0 <= k < |xs| - 1 ==> MayFollow(c, log + xs[..k], xs[k])
    decreases |xs|
  {
    hide Behaves, NextTurn, SeenOfBody, MayFollow, CountsRight, GoesOn;
    BehavesStep(c, log, buf, wire, xs);
    if NextTurn(c, buf, wire).Some? && |xs| > 1 {
      var t := NextTurn(c, buf, wire).value;
      FollowedIsTaken(c, log, buf, wire, xs[0]);
      OnlyPersistentContinue(c, log + [xs[0]], t.body.buf, t.body.wire, xs[1..]);
      assert log + xs[..0] == log;
      forall k | 1 <= k < |xs| - 1
        ensures MayFollow(c, log + xs[..k], xs[k])
      {
        assert xs[k] == xs[1..][k - 1];
        assert log + xs[..k] == (log + [xs[0]]) + xs[1..][..k - 1];
      }
    }
  }

  lemma FollowedIsTaken(c: Server, log: seq<Exchange>, buf: bytes, wire: seq<bytes>, x: Exchange)
    requires NextTurn(c, buf, wire).Some? && GoesOn(c, log, x)
    requires var t := NextTurn(c, buf, wire).value; x.request == t.request && CountsRight(t.kind, x)
    ensures MayFollow(c, log, x)
  {
    TurnIsDecided(c, buf, wire);
    KeepAliveIff(x.request);
    hide NextTurn, IsKeepAlive, SaysToPersist, Decide, TakenWhole, OverCap;
  }

  /** The converse. A behaviour that stops short of the heads the stream holds stops at a
      request whose body was not wholly read, or after which one side does not persist. */
  lemma {:induction false} StopsForAReason(c: Server, log: seq<Exchange>, buf: bytes, wire: seq<bytes>, xs: seq<Exchange>)
    requires Behaves(c, log, buf, wire, xs)
    ensures |xs| < |Heads(c, buf + Concat(wire))| ==> xs != [] && StopsThere(c, log + xs[..|xs| - 1], xs[|xs| - 1])
    decreases |xs|
  {
    hide Behaves, Heads, NextTurn, OneShot, Accept, WholeBody, GoesOn, SeenOfBody, CountsRight, StopsThere;
    BehavesStep(c, log, buf, wire, xs);
    HeadsStep(c, buf + Concat(wire));
    SameTurn(c, buf, wire);
    if NextTurn(c, buf, wire).Some? {
      var t := NextTurn(c, buf, wire).value;
      TurnShrinks(c, buf, wire);
      if GoesOn(c, log, xs[0]) {
        OnlyRead(c, log, xs[0]);
        CleanBodyIsWhole(t.kind, c.limits, t.rest, t.wire);
        StopsForAReason(c, log + [xs[0]], t.body.buf, t.body.wire, xs[1..]);
        if |xs| > 1 {
          assert xs[1..][..|xs| - 2] == xs[1..|xs| - 1];
          assert (log + [xs[0]]) + xs[1..][..|xs| - 2] == log + xs[..|xs| - 1];
        }
      } else {
        NotGoingOn(c, log, xs[0]);
        assert log + xs[..0] == log;
      }
    }
  }

  /** The body was not wholly read, the request says to close, or the response does. */
  ghost predicate StopsThere(c: Server, log: seq<Exchange>, x: Exchange) {
    !(x.read && SaysToPersist(x.request) && c.keeps(log, x))
  }

  lemma NotGoingOn(c: Server, log: seq<Exchange>, x: Exchange)
    ensures GoesOn(c, log, x) <==> !StopsThere(c, log, x)
  {
    KeepAliveIff(x.request);
    hide IsKeepAlive, SaysToPersist;
  }

  // ---- The loop ----------------------------------------------------------------------------------

  /** Handlers that gather nothing and decide on a body before they see any of it. */
  ghost predicate AllOrNothing(c: Server) {
    forall log, r, pieces :: c.wants(log, r, pieces) == c.wants(log, r, []) && c.gathers(log, r, pieces) == None
  }

  /** `serve`, as far as requests go: the log of what was dispatched. */
  method Serve(c: Server, io: IoState) returns (log: seq<Exchange>)
    requires io.Valid()
    modifies io
    ensures Behaves(c, [], old(io.buf), old(io.wire), log) && AllChosen(c, log)
    ensures Requests(log) <= Heads(c, old(io.buf) + Concat(old(io.wire)))
    ensures forall k :: 0 <= k < |log| - 1 ==> MayFollow(c, log[..k], log[k])
    ensures |log| < |Heads(c, old(io.buf) + Concat(old(io.wire)))| ==>
              log != [] && StopsThere(c, log[..|log| - 1], log[|log| - 1])
    ensures AllOrNothing(c) ==> log == Run(c, [], old(io.buf), old(io.wire))
  {
    hide AsChosen, Run, Searched, HeadEnd, StartsBlank, Concat, Behaves, AllOrNothing, MayFollow, StopsThere, Heads, Requests;
    log := [];
    ghost var b, w := io.buf, io.wire;
    var again := true;
    forall xs | Behaves(c, [], b, w, xs)
      ensures Behaves(c, [], b, w, log + xs)
    {
      assert log + xs == xs;
    }
    while again
      invariant io.Valid() && AllChosen(c, log)
      invariant again ==> forall xs :: Behaves(c, log, io.buf, io.wire, xs) ==> Behaves(c, [], b, w, log + xs)
      invariant !again ==> Behaves(c, [], b, w, log)
      invariant AllOrNothing(c) ==> Run(c, [], b, w) == log + if again then Run(c, log, io.buf, io.wire) else []
      decreases again, |io.buf| + |Concat(io.wire)|
    {
      ghost var before, buf, wire := log, io.buf, io.wire;
      var x: Option<Exchange>;
      x, again := ServeOne(c, io, log);
      if x.Some? {
        ChosenOneMore(c, log, x.value);
        log := log + [x.value];
        Assoc(before, [x.value], if again then Run(c, log, io.buf, io.wire) else []);
        forall xs | again && Behaves(c, log, io.buf, io.wire, xs)
          ensures Behaves(c, [], b, w, log + xs)
        {
          Assoc(before, [x.value], xs);
          assert Behaves(c, before, buf, wire, [x.value] + xs);
        }
      } else {
        assert before + [] == before;
      }
    }
    DispatchedAreHeads(c, [], b, w, log);
    OnlyPersistentContinue(c, [], b, w, log);
    StopsForAReason(c, [], b, w, log);
    assert forall k :: 0 <= k < |log| ==> [] + log[..k] == log[..k];
  }

  lemma WholeHeadNeedsNoRead(max: nat, buf: bytes, wire: seq<bytes>)
    ensures HeadEnd(StripBlank(buf)).Some? ==>
              var a := AwaitHead(max, buf, wire, false); a.Ready? && a.wire == wire
  {
  }

  /** What waiting for a request comes to: the stream has ended, its head was refused, or
      it is here with its framing decided. */
  datatype Arrival = Closed | Rejected | Got(request: Request, kind: BodyKind)

  /** A head awaited, split off, parsed and framed. */
  method NextRequest(c: Server, io: IoState) returns (n: Arrival)
    requires io.Valid()
    modifies io
    ensures io.Valid()
    ensures match NextTurn(c, old(io.buf), old(io.wire))
            case None => !n.Got?
            case Some(t) => n == Got(t.request, t.kind) && io.buf == t.rest && io.wire == t.wire
    ensures HeadEnd(StripBlank(old(io.buf))).Some? ==> !n.Closed? && io.wire == old(io.wire)
  {
    WholeHeadNeedsNoRead(c.limits.maxHeadBytes, io.buf, io.wire);
    hide Accept, Opened, Searched, HeadEnd, StartsBlank, StripBlank, Concat;
    ghost var b, w := io.buf, io.wire;
    AwaitBounds(c.limits.maxHeadBytes, b, w, false);
    var a := io.ReadUntilHead(c.limits.maxHeadBytes);
    if a.Eof? {
      return Closed;
    }
    if a.TooLarge? {
      return Rejected;
    }
    hide AwaitHead;
    var head := io.SplitHead();
    assert head == a.buf[..a.end] && io.buf == a.buf[a.end..];
    if |head| > c.limits.maxHeadBytes {
      return Rejected;
    }
    match Accept(c, head) {
      case None => n := Rejected;
      case Some((r, kind)) => n := Got(r, kind);
    }
  }

  /** `x` may come of a turn that leaves `buf` and `wire` behind. */
  ghost predicate ComesOf(x: Exchange, t: Turn, buf: bytes, wire: seq<bytes>) {
    && x.request == t.request && SeenOfBody(x.seen, t.body.outcome) && CountsRight(t.kind, x)
    && (x.read ==> t.body.outcome.end.Complete? && buf == t.body.buf && wire == t.body.wire)
  }

  /** Blank lines ahead of a request make no difference to a behaviour. */
  lemma BehavesStripped(c: Server, log: seq<Exchange>, buf: bytes, wire: seq<bytes>, xs: seq<Exchange>)
    ensures Behaves(c, log, StripBlank(buf), wire, xs) <==> Behaves(c, log, buf, wire, xs)
  {
    TurnStripped(c, buf, wire);
    hide Behaves, StripBlank, GoesOn, SeenOfBody, CountsRight, NextTurn;
    BehavesStep(c, log, StripBlank(buf), wire, xs);
    BehavesStep(c, log, buf, wire, xs);
  }

  lemma TurnStripped(c: Server, buf: bytes, wire: seq<bytes>)
    ensures NextTurn(c, StripBlank(buf), wire) == NextTurn(c, buf, wire)
  {
    StrippedAwaits(c.limits.maxHeadBytes, buf, wire);
    hide AwaitHead, StripBlank, Accept, Opened;
  }

  lemma StrippedAwaits(max: nat, buf: bytes, wire: seq<bytes>)
    ensures AwaitHead(max, StripBlank(buf), wire, false) == AwaitHead(max, buf, wire, false)
    ensures |StripBlank(buf)| <= |buf|
  {
    StripTwice(buf);
    hide HeadEnd;
  }

  /** After an exchange the loop may go on as from where it left the stream. */
  lemma TurnBehaves(c: Server, log: seq<Exchange>, b: bytes, w: seq<bytes>, x: Exchange, buf: bytes, wire: seq<bytes>)
    requires NextTurn(c, b, w).Some? && ComesOf(x, NextTurn(c, b, w).value, buf, wire)
    ensures !GoesOn(c, log, x) ==> Behaves(c, log, b, w, [x])
    ensures GoesOn(c, log, x) ==> forall xs :: Behaves(c, log + [x], buf, wire, xs) ==> Behaves(c, log, b, w, [x] + xs)
    ensures GoesOn(c, log, x) ==> |buf| + |Concat(wire)| < |b| + |Concat(w)|
  {
    hide Behaves, NextTurn, GoesOn, ComesOf;
    if GoesOn(c, log, x) {
      GoesOnShorter(c, log, b, w, x, buf, wire);
      forall xs | Behaves(c, log + [x], buf, wire, xs)
        ensures Behaves(c, log, b, w, [x] + xs)
      {
        Follows(c, log, b, w, x, buf, wire, xs);
      }
    } else {
      LastOfAll(c, log, b, w, x, buf, wire);
    }
  }

  lemma LastOfAll(c: Server, log: seq<Exchange>, b: bytes, w: seq<bytes>, x: Exchange, buf: bytes, wire: seq<bytes>)
    requires NextTurn(c, b, w).Some? && ComesOf(x, NextTurn(c, b, w).value, buf, wire) && !GoesOn(c, log, x)
    ensures Behaves(c, log, b, w, [x])
  {
    hide Behaves, NextTurn, GoesOn, SeenOfBody, CountsRight;
    BehavesStep(c, log, b, w, [x]);
  }

  lemma GoesOnShorter(c: Server, log: seq<Exchange>, b: bytes, w: seq<bytes>, x: Exchange, buf: bytes, wire: seq<bytes>)
    requires NextTurn(c, b, w).Some? && ComesOf(x, NextTurn(c, b, w).value, buf, wire) && GoesOn(c, log, x)
    ensures |buf| + |Concat(wire)| < |b| + |Concat(w)|
  {
    hide NextTurn, GoesOn, SeenOfBody, CountsRight;
    TurnShrinks(c, b, w);
    OnlyRead(c, log, x);
  }

  lemma Follows(c: Server, log: seq<Exchange>, b: bytes, w: seq<bytes>, x: Exchange, buf: bytes, wire: seq<bytes>,
                xs: seq<Exchange>)
    requires NextTurn(c, b, w).Some? && ComesOf(x, NextTurn(c, b, w).value, buf, wire) && GoesOn(c, log, x)
    requires Behaves(c, log + [x], buf, wire, xs)
    ensures Behaves(c, log, b, w, [x] + xs)
  {
    hide Behaves, NextTurn, GoesOn, SeenOfBody, CountsRight;
    OnlyRead(c, log, x);
    BehavesStep(c, log, b, w, [x] + xs);
    assert ([x] + xs)[1..] == xs;
  }

  /** One turn of the loop: the next request, if there is one, dispatched. */
  method ServeOne(c: Server, io: IoState, log: seq<Exchange>) returns (x: Option<Exchange>, again: bool)
    requires io.Valid()
    modifies io
    ensures io.Valid()
    ensures x.None? ==> !again && Behaves(c, log, old(io.buf), old(io.wire), [])
    ensures x.Some? ==> AsChosen(c, log, x.value)
    ensures x.Some? && !again ==> Behaves(c, log, old(io.buf), old(io.wire), [x.value])
    ensures x.Some? && again ==>
              forall xs :: Behaves(c, log + [x.value], io.buf, io.wire, xs) ==>
                             Behaves(c, log, old(io.buf), old(io.wire), [x.value] + xs)
    ensures AllOrNothing(c) ==>
              Run(c, log, old(io.buf), old(io.wire))
              == if x.None? then [] else [x.value] + (if again then Run(c, log + [x.value], io.buf, io.wire) else [])
    ensures again ==> |io.buf| + |Concat(io.wire)| < |old(io.buf)| + |Concat(old(io.wire))|
  {
    hide AsChosen, Run, AwaitHead, Accept, Opened, GoesOn, Searched, HeadEnd, StartsBlank, Concat, Behaves, AllOrNothing, WholeOrNothing,
      SeenOfBody, CountsRight, Uncut, NoCutSplit, NextTurn;
    ghost var b, w := io.buf, io.wire;
    RunStep(c, log, b, w);
    BehavesStep(c, log, b, w, []);
    var n := NextRequest(c, io);
    if !n.Got? {
      return None, false;
    }
    TurnShrinks(c, b, w);
    var dispatched: Exchange;
    dispatched, again := Dispatch(c, io, log, n.request, n.kind);
    TurnBehaves(c, log, b, w, dispatched, io.buf, io.wire);
    if again {
      OnlyRead(c, log, dispatched);
    }
    x := Some(dispatched);
  }

  /** A body as it is first lent, over the stream from its first octet. */
  ghost predicate JustLent(c: Server, body: Body)
    reads body, body.io, body.decoder
  {
    && body.Valid() && body.Lent() && body.Left() == Opened(body.kind, c.limits, body.io.buf, body.io.wire)
    && (body.fullyRead <==> IsEmpty(body.kind))
  }

  /** The pieces a handler takes, and how the body ended if it got so far. */
  method TakePieces(c: Server, body: Body, log: seq<Exchange>, r: Request)
    returns (pieces: seq<bytes>, ended: Option<Option<BodyError>>)
    requires JustLent(c, body)
    modifies body, body.io, body.decoder
    ensures body.Valid()
    ensures var o, seen := old(body.Left()), Perceived(pieces, ended, body.trailers);
            && SeenOfBody(seen, o.outcome) && CountsRight(body.kind, Exchange(r, seen, body.fullyRead))
            && (body.fullyRead ==> o.outcome.end.Complete? && body.io.buf == o.buf && body.io.wire == o.wire)
            && (AllOrNothing(c) ==> Exchange(r, seen, body.fullyRead) == WholeOrNothing(c, log, r, body.kind, o.outcome))
    ensures ended.None? ==> body.Lent() && old(body.Left()) == Prepend(Concat(pieces), [], body.Left())
    ensures (forall k :: 0 <= k < |pieces| ==> c.wants(log, r, pieces[..k])) && (ended.None? <==> !c.wants(log, r, pieces))
  {
    hide FeedAll, LengthFeed, Searched, HeadEnd, StartsBlank, CollectedAs, At, Concat, Opened;
    ghost var whole := body.Left();
    pieces, ended := body.ReadWhile(pieces => c.wants(log, r, pieces));
    assert AllOrNothing(c) ==> c.wants(log, r, pieces) == c.wants(log, r, []);
    if ended.None? {
      PiecesTell(body.kind, c.limits, old(body.io.buf), old(body.io.wire), pieces, body.Left(), body.remaining,
                 body.io.buf, body.io.wire, body.fullyRead);
      AfterPieces(whole, Concat(pieces), body.Left());
    }
  }

  /** The rest of a body gathered after some pieces. */
  method GatherRest(body: Body, cap: nat, r: Request, first: bytes, ghost whole: Remains) returns (seen: Seen)
    requires body.Valid() && body.Lent() && whole == Prepend(first, [], body.Left())
    modifies body, body.io, body.decoder
    ensures body.Valid() && seen.Gathered? && seen.first == first && seen.cap == cap
    ensures SeenOfBody(seen, whole.outcome) && CountsRight(body.kind, Exchange(r, seen, body.fullyRead))
    ensures body.fullyRead ==> whole.outcome.end.Complete? && body.io.buf == whole.buf && body.io.wire == whole.wire
  {
    hide FeedAll, LengthFeed, Searched, HeadEnd, StartsBlank, CollectedAs, At, Concat;
    ghost var rest := body.Left();
    AfterPieces(whole, first, rest);
    var result := body.Collect(cap);
    seen := Gathered(first, cap, result, body.trailers);
    GatheringTells(rest.outcome, cap, result, body.trailers, body.fullyRead);
  }

  /** One request: its body made, lent to the handler, and its fate asked after. */
  method Dispatch(c: Server, io: IoState, log: seq<Exchange>, r: Request, kind: BodyKind) returns (x: Exchange, again: bool)
    requires io.Valid()
    modifies io
    ensures io.Valid()
    ensures var o := Opened(kind, c.limits, old(io.buf), old(io.wire));
            && x.request == r && SeenOfBody(x.seen, o.outcome) && CountsRight(kind, x)
            && (x.read ==> o.outcome.end.Complete? && io.buf == o.buf && io.wire == o.wire)
            && (again <==> GoesOn(c, log, x)) && (again <==> !StopsThere(c, log, x))
            && (AllOrNothing(c) ==> x == WholeOrNothing(c, log, r, kind, o.outcome))
    ensures AsChosen(c, log, x)
  {
    hide AsChosen, FeedAll, LengthFeed, Searched, HeadEnd, StartsBlank, IsKeepAlive, SaysToPersist, SeenOfBody, CountsRight, Opened, WholeOrNothing,
      Perceived, Prepend;
    var body := new Body(kind, io, c.limits);
    ghost var whole := body.Left();
    var pieces, ended := TakePieces(c, body, log, r);
    var seen := Perceived(pieces, ended, body.trailers);
    var cap := if ended.None? then c.gathers(log, r, pieces) else None;
    if cap.Some? {
      seen := GatherRest(body, cap.value, r, Concat(pieces), whole);
    }
    x := Exchange(r, seen, body.fullyRead);
    PiecesShow(c, log, r, pieces, ended, body.trailers, seen);
    again := body.fullyRead && IsKeepAlive(r) && c.keeps(log, x);
    KeepAliveIff(r);
  }

  lemma PiecesShow(c: Server, log: seq<Exchange>, r: Request, pieces: seq<bytes>, ended: Option<Option<BodyError>>,
                   trailers: seq<Field>, seen: Seen)
    requires (forall k :: 0 <= k < |pieces| ==> c.wants(log, r, pieces[..k])) && (ended.None? <==> !c.wants(log, r, pieces))
    requires var cap := if ended.None? then c.gathers(log, r, pieces) else None;
             if cap.Some? then seen.Gathered? && seen.first == Concat(pieces) && seen.cap == cap.value
             else seen == Perceived(pieces, ended, trailers)
    ensures AsChosen(c, log, Exchange(r, seen, true)) && AsChosen(c, log, Exchange(r, seen, false))
  {
    assert Shows(c, log, r, pieces, seen);
  }

  /** Where a handler stopped tells whether the body was over. */
  lemma PiecesTell(kind: BodyKind, l: Limits, buf: bytes, wire: seq<bytes>, pieces: seq<bytes>, rest: Remains,
                   remaining: nat, buf': bytes, wire': seq<bytes>, read: bool)
    requires Opened(kind, l, buf, wire) == Prepend(Concat(pieces), [], rest)
    requires read ==> rest == Nothing(buf', wire')
    requires !read && kind.Length? ==> remaining > 0 && rest == LengthFeed(remaining, buf', wire')
    requires pieces == [] ==> (read <==> IsEmpty(kind))
    requires pieces != [] && read ==> kind.Length?
    ensures pieces != [] ==> (read <==> kind == Length(|Concat(pieces)|))
  {
    if kind.Length? {
      LengthTells(kind.n, buf, wire, Concat(pieces), rest);
      if !read {
        SomeLeft(remaining, buf', wire');
      }
    }
  }

  /** Gathering fails, but for the cap, only on a body that does not end cleanly. */
  lemma GatheringTells(o: Outcome, cap: nat, r: Result<bytes, BodyError>, trailers: seq<Field>, read: bool)
    requires CollectedAs(o, cap, r, trailers) && (read ==> o.end.Complete?)
    ensures read ==> r.Ok? || r.error.TooLarge?
  {
  }

  /** What is left of a body after some pieces of it. */
  lemma AfterPieces(whole: Remains, first: bytes, rest: Remains)
    requires whole == Prepend(first, [], rest)
    ensures first <= whole.outcome.body
    ensures whole.outcome.(body := whole.outcome.body[|first|..]) == rest.outcome
    ensures whole.buf == rest.buf && whole.wire == rest.wire
  {
  }

  /** What pieces and an ending amount to. */
  function Perceived(pieces: seq<bytes>, ended: Option<Option<BodyError>>, trailers: seq<Field>): Seen {
    match ended
    case None => if pieces == [] then Unread else Read(Concat(pieces), [], Stopped)
    case Some(None) => Read(Concat(pieces), trailers, Close.Whole)
    case Some(Some(e)) => Read(Concat(pieces), trailers, if e.Incomplete? then Truncated else Malformed)
  }
}
