/** Runs of responses on one connection (`write_response` in `src/conn.rs`) and a reader
    that follows section 6.3 of RFC 9112. */
module ResponseStream {
  import opened Octets
  import opened Numerals
  import opened Headers
  import opened FieldLines
  import opened HeadLines
  import opened Target
  import opened Framing
  import opened Chunked
  import opened ChunkedSplit
  import opened ChunkCodec
  import opened ResponseHead
  import opened ResponseWriter
  import opened ResponseFraming

  // ---- What a handler answers --------------------------------------------------------

  /** A body: none, whole, or pieces that may end in a failure. */
  datatype Payload = NoContent | Full(data: bytes) | Streamed(pieces: seq<bytes>, fails: bool)

  datatype Reply = Reply(status: nat, headers: seq<Field>, payload: Payload)

  /** What the loop knows of the request answered. */
  datatype Ask = Ask(version: Version, isHead: bool, keepAlive: bool, wantsUpgrade: bool, bodyConsumed: bool)

  /** The server's own name, the date and the registered reason phrases. */
  datatype Setting = Setting(server: Option<bytes>, date: bytes, phrase: nat -> bytes)

  datatype Disposition = KeepAlive | Close | Upgrade

  predicate Upgrading(a: Ask, p: Reply) { p.status == 101 && a.wantsUpgrade && a.bodyConsumed }

  /** A status that cannot be final takes the handler's fields and body with it. */
  function Final(a: Ask, p: Reply): Reply {
    if IsFinalStatus(p.status, a.wantsUpgrade) then p else Reply(500, [], NoContent)
  }

  predicate AsksClose(fs: seq<Field>) { HandlerNames(fs, CLOSE) }

  /** A streamed HTTP/1.0 body that is written ends with the connection. */
  predicate ClosesAfter(a: Ask, q: Reply) {
    a.version.Http10? && q.payload.Streamed? && !a.isHead && !ForbidsFraming(q.status)
  }

  predicate Keeps(a: Ask, p: Reply) {
    && a.keepAlive && !Upgrading(a, p) && IsFinalStatus(p.status, a.wantsUpgrade)
    && !AsksClose(Final(a, p).headers) && !ClosesAfter(a, Final(a, p))
  }

  function WithServer(s: Setting, fs: seq<Field>): seq<Field> {
    if s.server.Some? && (forall f :: f in fs ==> Canonical(f.id) != Known(Server))
    then fs + [Field(Known(Server), s.server.value)] else fs
  }

  function OutBodyOf(p: Payload): OutBody {
    match p case NoContent => Empty case Full(data) => Fixed(data) case Streamed(_, _) => Stream
  }

  function HeadOf(s: Setting, a: Ask, p: Reply): bytes {
    var q := Final(a, p);
    ResponseBytes(Response(q.status, WithServer(s, q.headers)), ContextOf(a, p), s.phrase(q.status), s.date)
  }

  function ContextOf(a: Ask, p: Reply): Context {
    Context(a.version, OutBodyOf(Final(a, p).payload), Keeps(a, p), a.isHead)
  }

  predicate WritesBody(a: Ask, p: Reply) {
    !a.isHead && !Upgrading(a, p) && !ForbidsFraming(Final(a, p).status)
  }

  function BodyBytes(a: Ask, p: Reply): bytes {
    if !WritesBody(a, p) then []
    else
      match Final(a, p).payload
      case NoContent => []
      case Full(data) => data
      case Streamed(pieces, fails) =>
        if ClosesAfter(a, Final(a, p)) then Concat(pieces)
        else ChunksBytes(pieces) + (if fails then [] else LastChunkBytes([]))
  }

  function Wire(s: Setting, a: Ask, p: Reply): bytes { HeadOf(s, a, p) + BodyBytes(a, p) }

  /** The stream yielded a failure, and the response ends unfinished. */
  predicate BreaksOff(a: Ask, p: Reply) {
    WritesBody(a, p) && Final(a, p).payload.Streamed? && Final(a, p).payload.fails
  }

  function Fate(a: Ask, p: Reply): Disposition {
    if BreaksOff(a, p) then Close
    else if Upgrading(a, p) then Disposition.Upgrade
    else if Keeps(a, p) then KeepAlive else Close
  }

  // ---- The writer -----------------------------------------------------------------------

  predicate Sized(p: Payload) {
    match p
    case NoContent => true
    case Full(data) => |data| <= U64_MAX
    case Streamed(pieces, _) => Addressable(pieces)
  }

  lemma ChunksSnoc(cs: seq<bytes>, i: nat)
    requires i < |cs|
    ensures ChunksBytes(cs[..i + 1]) == ChunksBytes(cs[..i]) + ChunkBytes(cs[i])
    ensures Concat(cs[..i + 1]) == Concat(cs[..i]) + cs[i]
  {
    hide ChunkBytes;
    assert cs[..i + 1] == cs[..i] + [cs[i]];
    ChunksAppend(cs[..i], [cs[i]]);
    ConcatAppend(cs[..i], [cs[i]]);
    assert ChunksBytes([cs[i]]) == ChunkBytes(cs[i]) + [] == ChunkBytes(cs[i]);
    assert Concat([cs[i]]) == cs[i] + [] == cs[i];
  }

  lemma {:induction false} ChunksAppend(a: seq<bytes>, b: seq<bytes>)
    ensures ChunksBytes(a + b) == ChunksBytes(a) + ChunksBytes(b)
  {
    hide ChunkBytes;
    if a == [] {
      assert a + b == b;
    } else {
      ChunksAppend(a[1..], b);
      assert (a + b)[0] == a[0] && (a + b)[1..] == a[1..] + b;
      Assoc(ChunkBytes(a[0]), ChunksBytes(a[1..]), ChunksBytes(b));
    }
  }

  /** The stream loop: a chunk a piece, or the bare pieces when the close delimits. */
  method WriteStream(out: bytes, pieces: seq<bytes>, fails: bool, closeDelimited: bool) returns (o: bytes)
    requires Addressable(pieces)
    ensures o == out + if closeDelimited then Concat(pieces)
                       else ChunksBytes(pieces) + (if fails then [] else LastChunkBytes([]))
  {
    hide ChunkBytes, LastChunkBytes, ChunksBytes, Concat;
    o := out;
    NoPieces();
    assert pieces[..0] == [];
    for i := 0 to |pieces|
      invariant o == out + if closeDelimited then Concat(pieces[..i]) else ChunksBytes(pieces[..i])
    {
      ChunksSnoc(pieces, i);
      Assoc(out, ChunksBytes(pieces[..i]), ChunkBytes(pieces[i]));
      Assoc(out, Concat(pieces[..i]), pieces[i]);
      if closeDelimited {
        o := o + pieces[i];
      } else {
        o := WriteChunk(o, pieces[i]);
      }
    }
    assert pieces[..|pieces|] == pieces;
    if !closeDelimited && !fails {
      o := WriteLastChunk(o, []);
      Assoc(out, ChunksBytes(pieces), LastChunkBytes([]));
    } else {
      assert ChunksBytes(pieces) + [] == ChunksBytes(pieces);
    }
  }

  lemma NoPieces()
    ensures ChunksBytes([]) == [] && Concat([]) == []
  {
  }

  /** `write_response`: what is appended to the output, and what becomes of the
      connection. */
  method WriteResponse(s: Setting, a: Ask, p: Reply, out: bytes) returns (o: bytes, fate: Disposition)
    requires p.status <= 0xFFFF && Sized(p.payload)
    ensures o == out + Wire(s, a, p) && fate == Fate(a, p)
  {
    hide ResponseBytes, ChunksBytes, Concat, LastChunkBytes, HandlerNames, Canonical, ForbidsFraming, IsFinalStatus;
    var upgrading := p.status == 101 && a.wantsUpgrade && a.bodyConsumed;
    var keep := a.keepAlive && !upgrading;
    var q := p;
    if !IsFinalStatus(p.status, a.wantsUpgrade) {
      q, keep := Reply(500, [], NoContent), false;
    }
    if AsksClose(q.headers) {
      keep := false;
    }
    var closeDelimited := a.version.Http10? && q.payload.Streamed? && !a.isHead && !ForbidsFraming(q.status);
    if closeDelimited {
      keep := false;
    }
    assert keep == Keeps(a, p) && closeDelimited == ClosesAfter(a, q);
    var headers := WithServer(s, q.headers);
    ghost var head := HeadOf(s, a, p);
    o := WriteHeadFor(out, Response(q.status, headers), Context(a.version, OutBodyOf(q.payload), keep, a.isHead),
                      s.phrase(q.status), s.date);
    var body: bytes := [];
    if !a.isHead && !upgrading && !ForbidsFraming(q.status) {
      match q.payload {
        case NoContent =>
        case Full(data) =>
          o := o + data;
          Assoc(out, head, data);
        case Streamed(pieces, fails) =>
          o := WriteStream(o, pieces, fails, closeDelimited);
          Assoc(out, head, BodyBytes(a, p));
          if fails {
            return o, Close;
          }
      }
    }
    assert head + [] == head;
    fate := if upgrading then Disposition.Upgrade else if keep then KeepAlive else Close;
  }

  // ---- The reader ---------------------------------------------------------------------------

  datatype Reading = Reading(status: nat, body: bytes, persists: bool)

  /** Version and status of a status line. */
  function ReadStatus(start: bytes): Option<(Version, nat)> {
    if |start| < 9 || start[8] != ' ' then None
    else
      var v := if start[..8] == "HTTP/1.1" then Some(Http11)
               else if start[..8] == "HTTP/1.0" then Some(Http10) else None;
      var s := start[9..];
      var n := Span(s, IsDigit);
      if v.None? || n == 0 || (n < |s| && s[n] != ' ') then None
      else
        assert Digits(10, s[..n]);
        Some((v.value, Value(10, s[..n])))
  }

  /** A decoder with no limit the stream could reach. */
  function Unlimited(s: bytes): Limits { Limits(|s| + 2, 0, |s|) }

  /** The body of a final response, and what follows it: none by status or method, then
      by the transfer coding, then by the length, else everything up to the close. */
  function ReadBody(isHead: bool, status: nat, fields: seq<Field>, s: bytes): Option<(bytes, bytes)> {
    var tes, lens := AllValues(fields, Known(TransferEncoding)), AllValues(fields, Known(ContentLength));
    if isHead || ForbidsFraming(status) then Some(([], s))
    else if tes != [] then
      if |tes| == 1 && FramesChunked(tes[0]) then
        var o := Whole(Unlimited(s), FRESH, s);
        if o.end.Complete? then Some((o.body, o.end.tail)) else None
      else Some((s, []))
    else if lens != [] then
      if |lens| == 1 && ParseLen(lens[0]).Some? && ParseLen(lens[0]).value <= |s|
      then Some((s[..ParseLen(lens[0]).value], s[ParseLen(lens[0]).value..]))
      else None
    else Some((s, []))
  }

  /** The next final response, interim ones skipped, and what follows it. */
  function ReadResponse(isHead: bool, s: bytes): Option<(Reading, bytes)>
    decreases |s|
  {
    match ReadHead(s)
    case None => None
    case Some((start, fields, tail)) =>
      match ReadStatus(start)
      case None => None
      case Some((v, status)) =>
        if 100 <= status < 200 && status != 101 then
          HeadShrinks(s);
          ReadResponse(isHead, tail)
        else
          match ReadBody(isHead, status, fields, tail)
          case None => None
          case Some((body, rest)) => Some((Reading(status, body, ReaderPersists(v, fields)), rest))
  }

  lemma HeadShrinks(s: bytes)
    ensures ReadHead(s).Some? ==> |ReadHead(s).value.2| < |s|
  {
  }

  // ---- One response -----------------------------------------------------------------------------

  lemma StatusReadsBack(v: Version, status: nat, phrase: bytes)
    ensures ReadStatus(StatusLine(v, status, phrase)) == Some((v, status))
  {
    var n, p := Numeral(10, status), if phrase == [] then [] else " " + phrase;
    NumeralValue(10, status);
    assert p != [] ==> p[0] == ' ';
    assert All(n, IsDigit) by {
      assert forall i :: 0 <= i < |n| ==> DigitOf(10, n[i]);
    }
    SpanIs(n, p, IsDigit);
    hide Numeral, Span;
    CutAt(v, n, p);
  }

  /** A status line falls into its version, a space, and the rest. */
  lemma CutAt(v: Version, n: bytes, p: bytes)
    ensures var start := VersionBytes(v) + (" " + (n + p));
            && |start| >= 9 && start[8] == ' ' && start[..8] == VersionBytes(v)
            && start[9..] == n + p && (n + p)[..|n|] == n && (p != [] ==> (n + p)[|n|] == p[0])
    ensures VersionBytes(v) == "HTTP/1.1" <==> v.Http11?
  {
    var start := VersionBytes(v) + (" " + (n + p));
    assert start[8..] == " " + (n + p);
    assert start[8..][0] == start[8];
    assert start[9..] == start[8..][1..];
  }

  lemma {:induction false} ChunksOutweigh(cs: seq<bytes>)
    ensures |Concat(cs)| <= |ChunksBytes(cs)|
  {
    if cs != [] {
      ChunksOutweigh(cs[1..]);
    }
  }

  /** A chunked body read back, exactly when none of its pieces is empty. */
  lemma ChunksReadBack(pieces: seq<bytes>, rest: bytes)
    requires Addressable(pieces)
    ensures var s := (ChunksBytes(pieces) + LastChunkBytes([])) + rest;
            var o := Whole(Unlimited(s), FRESH, s);
            o.end.Complete? && o.body == Concat(pieces) && o.end.tail == rest <==> AllNonEmpty(pieces)
  {
    var s := (ChunksBytes(pieces) + LastChunkBytes([])) + rest;
    var l := Unlimited(s);
    Assoc(ChunksBytes(pieces), LastChunkBytes([]), rest);
    ChunksOutweigh(pieces);
    NoTrailersFit(l);
    RoundTrip(l, pieces, [], rest);
    hide ChunksBytes, LastChunkBytes, Drain, Concat;
    if !AllNonEmpty(pieces) {
      EarlyEnd(l, FRESH, pieces, [], rest);
      WholeOfDrain(l, s);
    }
  }

  lemma NoTrailersFit(l: Limits)
    requires l.maxHeadBytes >= 2
    ensures Fits(l, FRESH, Sent([])) && ReceivedAll(Sent([])) == []
  {
  }

  lemma WholeOfDrain(l: Limits, s: bytes)
    ensures var r := Drain(l, FRESH, s);
            Whole(l, FRESH, s).end.Complete? ==>
              r.stop.Ended? && Whole(l, FRESH, s).end.tail == r.stop.rest + []
  {
    hide Drain;
  }

  /** The framing fields as a reader receives them. */
  lemma FramingReceived(r: Response, c: Context, date: bytes)
    requires c.body.Fixed? ==> |c.body.data| <= U64_MAX
    requires !ForbidsFraming(r.status) && !c.headRequest
    ensures var fields := ReceivedAll(Emitted(r, c, date));
            var lens, tes := AllValues(fields, Known(ContentLength)), AllValues(fields, Known(TransferEncoding));
            if c.body.Stream? then lens == [] && (if c.version.Http10? then tes == [] else |tes| == 1 && FramesChunked(tes[0]))
            else tes == [] && |lens| == 1 && ParseLen(lens[0]) == BodyLen(c.body) && BodyLen(c.body).Some?
  {
    FramingIsTrue(r, c, date);
    EmittedCanonical(r, c, date);
    ReceivedValues(Emitted(r, c, date), ContentLength);
    ReceivedValues(Emitted(r, c, date), TransferEncoding);
    var lens, tes := Stated(r, c, date, ContentLength), Stated(r, c, date, TransferEncoding);
    hide Emitted, AllValues, ForbidsFraming, ReceivedAll, FramesChunked, ParseLen, TrimOws;
    if lens != [] {
      TrimmedLength(lens[0]);
    }
    if tes != [] {
      TrimmedCoding(tes[0]);
    }
  }

  /** The body the client is to see. */
  function SentBody(a: Ask, p: Reply): bytes {
    if !WritesBody(a, p) then []
    else
      match Final(a, p).payload
      case NoContent => []
      case Full(data) => data
      case Streamed(pieces, _) => Concat(pieces)
  }

  /** The pieces are written as chunks. */
  predicate WritesChunks(a: Ask, p: Reply) {
    WritesBody(a, p) && Final(a, p).payload.Streamed? && !a.version.Http10?
  }

  /** A streamed body: in chunks, or up to the close. */
  lemma StreamReadsBack(a: Ask, p: Reply, r: Response, date: bytes, rest: bytes)
    requires Sized(p.payload) && !BreaksOff(a, p) && WritesBody(a, p) && Final(a, p).payload.Streamed?
    requires ClosesAfter(a, Final(a, p)) ==> rest == []
    requires r.status == Final(a, p).status
    ensures var fields := ReceivedAll(Emitted(r, ContextOf(a, p), date));
            ReadBody(a.isHead, r.status, fields, BodyBytes(a, p) + rest) == Some((SentBody(a, p), rest))
            <==> (WritesChunks(a, p) ==> AllNonEmpty(Final(a, p).payload.pieces))
  {
    var pieces := Final(a, p).payload.pieces;
    hide ChunksBytes, LastChunkBytes, Concat, Emitted, ReceivedAll, FramesChunked, ParseLen, ForbidsFraming, Keeps,
      IsFinalStatus, AsksClose, AllValues, Whole, Addressable, AllNonEmpty, Upgrading, ReadBody;
    FramingReceived(r, ContextOf(a, p), date);
    var fields := ReceivedAll(Emitted(r, ContextOf(a, p), date));
    ReadsStream(r.status, fields, BodyBytes(a, p) + rest, a.version.Http10?);
    ChunksReadBack(pieces, rest);
    assert Concat(pieces) + [] == Concat(pieces);
  }

  /** A body framed as a stream is read in chunks, or up to the close. */
  lemma ReadsStream(status: nat, fields: seq<Field>, s: bytes, closes: bool)
    requires !ForbidsFraming(status) && AllValues(fields, Known(ContentLength)) == []
    requires var tes := AllValues(fields, Known(TransferEncoding));
             if closes then tes == [] else |tes| == 1 && FramesChunked(tes[0])
    ensures ReadBody(false, status, fields, s) ==
              if closes then Some((s, []))
              else if Whole(Unlimited(s), FRESH, s).end.Complete?
              then Some((Whole(Unlimited(s), FRESH, s).body, Whole(Unlimited(s), FRESH, s).end.tail)) else None
  {
    hide ForbidsFraming, AllValues, FramesChunked, Whole, ParseLen;
  }

  /** Any other body: by its length, or none. */
  lemma FixedReadsBack(a: Ask, p: Reply, r: Response, date: bytes, rest: bytes)
    requires Sized(p.payload) && WritesBody(a, p) && !Final(a, p).payload.Streamed?
    requires r.status == Final(a, p).status
    ensures var fields := ReceivedAll(Emitted(r, ContextOf(a, p), date));
            ReadBody(a.isHead, r.status, fields, BodyBytes(a, p) + rest) == Some((SentBody(a, p), rest))
  {
    hide Emitted, ReceivedAll, FramesChunked, ParseLen, ForbidsFraming, Keeps, IsFinalStatus, AsksClose, AllValues, Whole,
      Upgrading;
    FramingReceived(r, ContextOf(a, p), date);
    var data := BodyBytes(a, p);
    assert (data + rest)[..|data|] == data && (data + rest)[|data|..] == rest;
  }

  lemma BodyReadsBack(a: Ask, p: Reply, r: Response, date: bytes, rest: bytes)
    requires Sized(p.payload) && !BreaksOff(a, p) && Final(a, p).status != 101
    requires ClosesAfter(a, Final(a, p)) ==> rest == []
    requires r.status == Final(a, p).status
    ensures var fields := ReceivedAll(Emitted(r, ContextOf(a, p), date));
            ReadBody(a.isHead, r.status, fields, BodyBytes(a, p) + rest) == Some((SentBody(a, p), rest))
            <==> (WritesChunks(a, p) ==> AllNonEmpty(Final(a, p).payload.pieces))
  {
    assert !Upgrading(a, p);
    hide Emitted, ReceivedAll, Final, AllValues, ForbidsFraming, Whole, AllNonEmpty, Upgrading;
    if !WritesBody(a, p) {
      assert [] + rest == rest;
    } else if Final(a, p).payload.Streamed? {
      StreamReadsBack(a, p, r, date, rest);
    } else {
      FixedReadsBack(a, p, r, date, rest);
    }
  }

  const CONTINUE: bytes := "HTTP/1.1 100 Continue\r\n\r\n"

  /** A response as it goes out, behind its interim one if there was one. */
  function Transcript(s: Setting, a: Ask, p: Reply, continued: bool): bytes {
    (if continued then CONTINUE else []) + Wire(s, a, p)
  }

  const INTERIM_LINE: bytes := "HTTP/1.1 100 Continue"

  lemma InterimIsSkipped(isHead: bool, rest: bytes)
    ensures ReadResponse(isHead, CONTINUE + rest) == ReadResponse(isHead, rest)
  {
    ContinueShape();
    HeadReadsBack(INTERIM_LINE, [], rest);
    InterimStatus();
    StatusReadsBack(Http11, 100, "Continue");
    hide ReadHead, ReadStatus, ReadBody, CONTINUE, INTERIM_LINE, HeadBytes, StatusLine, Strict, IsContent, AllWritable;
  }

  lemma InterimStatus()
    ensures INTERIM_LINE == StatusLine(Http11, 100, "Continue")
  {
    HundredIs100();
  }

  lemma ContinueShape()
    ensures CONTINUE == HeadBytes(INTERIM_LINE, [])
    ensures IsContent(INTERIM_LINE) && AllWritable([])
  {
    assert [] + "\r\n" == "\r\n";
    assert INTERIM_LINE + "\r\n" + "\r\n" == CONTINUE;
  }

  lemma HundredIs100()
    ensures Numeral(10, 100) == "100"
  {
    assert Numeral(10, 1) == "1";
    assert Numeral(10, 10) == "10";
  }

  /** What a reader makes of a response and what follows it: the head as written, and the
      body by its fields; `isHead` is whether the reader takes it for the answer to a HEAD. */
  lemma HeadReads(s: Setting, a: Ask, p: Reply, isHead: bool, continued: bool, rest: bytes, fields: seq<Field>)
    requires ValidValue(s.date) && All(s.phrase(Final(a, p).status), NotBreak) && Final(a, p).status != 101
    requires fields == FieldsOf(s, a, p)
    ensures ReadResponse(isHead, Transcript(s, a, p, continued) + rest)
            == match ReadBody(isHead, Final(a, p).status, fields, BodyBytes(a, p) + rest)
               case None => None
               case Some((body, after)) => Some((Reading(Final(a, p).status, body, Keeps(a, p)), after))
  {
    var q, c := Final(a, p), ContextOf(a, p);
    var r := Response(q.status, WithServer(s, q.headers));
    var tail := BodyBytes(a, p) + rest;
    FinalStatus(a, p);
    HeadIntegrity(r, c, s.phrase(q.status), s.date, tail);
    StatusReadsBack(a.version, q.status, s.phrase(q.status));
    PersistenceIsTrue(r, c, s.date);
    hide *;
    FieldsAre(s, a, p, r);
    WireSplits(s, a, p, rest);
    ReadsFinal(isHead, Wire(s, a, p) + rest, StatusLine(a.version, q.status, s.phrase(q.status)), fields, tail,
               a.version, q.status);
    SkipsContinue(s, a, p, isHead, continued, rest);
    ContextKeeps(a, p);
  }

  /** The fields of a reply as a reader receives them. */
  function FieldsOf(s: Setting, a: Ask, p: Reply): seq<Field> {
    ReceivedAll(Emitted(Response(Final(a, p).status, WithServer(s, Final(a, p).headers)), ContextOf(a, p), s.date))
  }

  lemma FieldsAre(s: Setting, a: Ask, p: Reply, r: Response)
    requires r == Response(Final(a, p).status, WithServer(s, Final(a, p).headers))
    ensures FieldsOf(s, a, p) == ReceivedAll(Emitted(r, ContextOf(a, p), s.date))
  {
  }

  /** Main result. A reader recovers a response's status and body, what it says about
      persistence, which is what the loop then does, and what follows it, exactly when
      no chunk was empty. */
  lemma ResponseReadsBack(s: Setting, a: Ask, p: Reply, continued: bool, rest: bytes)
    requires ValidValue(s.date) && All(s.phrase(Final(a, p).status), NotBreak)
    requires Sized(p.payload) && !BreaksOff(a, p) && Final(a, p).status != 101
    requires ClosesAfter(a, Final(a, p)) ==> rest == []
    ensures ReadResponse(a.isHead, Transcript(s, a, p, continued) + rest)
            == Some((Reading(Final(a, p).status, SentBody(a, p), Fate(a, p) == KeepAlive), rest))
            <==> (WritesChunks(a, p) ==> AllNonEmpty(Final(a, p).payload.pieces))
  {
    var r := Response(Final(a, p).status, WithServer(s, Final(a, p).headers));
    FieldsAre(s, a, p, r);
    BodyReadsBack(a, p, r, s.date, rest);
    FateIsKeep(a, p);
    hide *;
    HeadReads(s, a, p, a.isHead, continued, rest, FieldsOf(s, a, p));
  }

  // ---- When the connection persists ------------------------------------------------------------------

  /** Some field of the handler's named `connection` lists `close`, in whatever case either
      is spelled. */
  ghost predicate SaysClose(fs: seq<Field>) {
    exists f :: f in fs && Named(f, "connection") && Lists(f.value, "close")
  }

  /** The connection is handed over exactly after a 101 to a request that asked for it and
      whose body is read. */
  lemma UpgradesExactly(a: Ask, p: Reply)
    ensures Fate(a, p) == Disposition.Upgrade <==> p.status == 101 && a.wantsUpgrade && a.bodyConsumed
  {
    hide Keeps, IsFinalStatus;
  }

  /** The server's own name is added exactly where the handler gave no field of that
      name. */
  lemma ServerNamed(s: Setting, fs: seq<Field>)
    ensures WithServer(s, fs)
            == if s.server.Some? && !(exists f :: f in fs && Named(f, "server"))
               then fs + [Field(Known(Server), s.server.value)] else fs
  {
    assert NameOf(Server) == "server";
    hide Canonical, Named, NameOf;
    forall f: Field
      ensures Canonical(f.id) == Known(Server) <==> Named(f, "server")
    {
      CanonicalIff(f, Server);
    }
  }

  lemma AsksCloseIff(fs: seq<Field>)
    ensures AsksClose(fs) <==> SaysClose(fs)
  {
    assert NameOf(Connection) == "connection" && CLOSE == "close" && Lower("close") == "close";
    hide Canonical, ValueHasToken, Named, Lists, NameOf, Lower;
    forall f: Field
      ensures Canonical(f.id) == Known(Connection) && ValueHasToken(f.value, CLOSE)
              <==> Named(f, "connection") && Lists(f.value, "close")
    {
      CanonicalIff(f, Connection);
      HasTokenIff(f.value, "close");
    }
  }

  /** A status that may answer a request: 200 to 599, or a 101 asked for. */
  predicate MayAnswer(status: nat, wantsUpgrade: bool) { 200 <= status < 600 || (status == 101 && wantsUpgrade) }

  /** What it takes for a connection to persist after a response: the request does; the
      status may answer it and hands the connection to no other protocol; no field says
      close; and no body goes out that only the close would end. */
  ghost predicate Persisting(a: Ask, p: Reply) {
    && a.keepAlive
    && MayAnswer(p.status, a.wantsUpgrade) && !(p.status == 101 && a.wantsUpgrade && a.bodyConsumed)
    && !SaysClose(p.headers)
    && !(a.version.Http10? && p.payload.Streamed? && !a.isHead && p.status != 204 && p.status != 304 && p.status >= 200)
  }

  /** Main result. The connection persists after a response that does not break off exactly
      when it should. */
  lemma PersistsExactly(a: Ask, p: Reply)
    requires !BreaksOff(a, p)
    ensures Fate(a, p) == KeepAlive <==> Persisting(a, p)
  {
    AsksCloseIff(p.headers);
    AsksCloseIff([]);
    hide AsksClose, SaysClose;
    FateIsKeep(a, p);
  }

  // ---- A response that breaks off -----------------------------------------------------------------

  /** Chunks with no last chunk after them read as a whole body exactly when one of them
      is empty. */
  lemma BrokenChunks(pieces: seq<bytes>)
    requires Addressable(pieces)
    ensures var s := ChunksBytes(pieces);
            Whole(Unlimited(s), FRESH, s).end.Complete? <==> !AllNonEmpty(pieces)
  {
    var s := ChunksBytes(pieces);
    var l := Unlimited(s);
    ChunksOutweigh(pieces);
    if AllNonEmpty(pieces) {
      DrainChunks(l, FRESH, pieces, []);
      assert s + [] == s;
      NothingToDrain(l, AfterBody(FRESH, |Concat(pieces)|));
      hide ChunksBytes, Concat, Drain, Addressable, AllNonEmpty, AfterBody;
    } else {
      var i := FirstEmpty(pieces);
      EmptyAt(pieces, i);
      ChunksOutweigh(pieces[..i]);
      NoTrailersFit(l);
      hide ChunksBytes, LastChunkBytes, Concat, Drain;
      var tail := ChunksBytes(pieces[i + 1..]);
      RoundTrip(l, pieces[..i], [], tail);
    }
  }

  lemma NothingToDrain(l: Limits, d: Decoder)
    requires d.phase == AwaitSize
    ensures Drain(l, d, []) == Drained([], [], Hungry(d, []))
  {
    assert Next(l, d, []) == Starved;
  }

  function FirstEmpty(pieces: seq<bytes>): (i: nat)
    requires !AllNonEmpty(pieces)
    ensures i < |pieces| && pieces[i] == [] && AllNonEmpty(pieces[..i])
  {
    if pieces[0] == [] then 0
    else
      assert exists k :: 0 <= k < |pieces[1..]| && pieces[1..][k] == [] by {
        var k :| 0 <= k < |pieces| && pieces[k] == [];
        assert pieces[1..][k - 1] == [];
      }
      var i := 1 + FirstEmpty(pieces[1..]);
      assert forall k :: 1 <= k < i ==> pieces[..i][k] == pieces[1..][..i - 1][k - 1];
      i
  }

  /** Pieces up to an empty one, and what is read as following the body. */
  lemma EmptyAt(pieces: seq<bytes>, i: nat)
    requires i < |pieces| && pieces[i] == []
    ensures ChunksBytes(pieces) == Encoded(pieces[..i], [], ChunksBytes(pieces[i + 1..]))
    ensures |Concat(pieces[..i])| <= |Concat(pieces)| && |ChunksBytes(pieces[..i])| <= |ChunksBytes(pieces)|
  {
    EmptyChunkEnds();
    hide ChunkBytes, LastChunkBytes;
    var later := pieces[i + 1..];
    assert pieces == pieces[..i] + ([[]] + later);
    ChunksAppend(pieces[..i], [[]] + later);
    ChunksAppend([[]], later);
    ConcatAppend(pieces[..i], [[]] + later);
    OneChunk([]);
  }

  lemma OneChunk(data: bytes)
    ensures ChunksBytes([data]) == ChunkBytes(data)
  {
    hide ChunkBytes;
    assert ChunkBytes(data) + [] == ChunkBytes(data);
  }

  /** A stream that fails part way closes the connection. Its chunks are not read as a
      response, unless an empty piece ended the body early; on HTTP/1.0, where the close
      is the only end there is, what was written is read as the whole body. */
  lemma BrokenOffReads(s: Setting, a: Ask, p: Reply, continued: bool)
    requires ValidValue(s.date) && All(s.phrase(Final(a, p).status), NotBreak)
    requires Sized(p.payload) && BreaksOff(a, p) && Final(a, p).status != 101
    ensures Fate(a, p) == Close
    ensures var q := Final(a, p);
            var r := ReadResponse(a.isHead, Transcript(s, a, p, continued));
            if a.version.Http10? then r == Some((Reading(q.status, Concat(q.payload.pieces), false), []))
            else r == None <==> AllNonEmpty(q.payload.pieces)
  {
    var r := Response(Final(a, p).status, WithServer(s, Final(a, p).headers));
    FieldsAre(s, a, p, r);
    BrokenBody(a, p, r, s.date);
    assert BodyBytes(a, p) + [] == BodyBytes(a, p);
    assert a.version.Http10? ==> !Keeps(a, p);
    hide ReadResponse, ReadBody, Transcript, BodyBytes, Keeps, FieldsOf, Emitted, ReceivedAll, Concat, ValidValue, Final;
    assert Transcript(s, a, p, continued) + [] == Transcript(s, a, p, continued);
    HeadReads(s, a, p, a.isHead, continued, [], FieldsOf(s, a, p));
  }

  lemma BrokenBody(a: Ask, p: Reply, r: Response, date: bytes)
    requires Sized(p.payload) && BreaksOff(a, p) && r.status == Final(a, p).status
    ensures var pieces := Final(a, p).payload.pieces;
            var body := ReadBody(a.isHead, r.status, ReceivedAll(Emitted(r, ContextOf(a, p), date)), BodyBytes(a, p));
            if a.version.Http10? then body == Some((Concat(pieces), [])) else body == None <==> AllNonEmpty(pieces)
  {
    var pieces := Final(a, p).payload.pieces;
    FramingReceived(r, ContextOf(a, p), date);
    assert ClosesAfter(a, Final(a, p)) <==> a.version.Http10?;
    hide ChunksBytes, Concat, Emitted, ReceivedAll, FramesChunked, ParseLen, ForbidsFraming, Keeps, IsFinalStatus, AsksClose,
      AllValues, Whole, Addressable, AllNonEmpty, Upgrading, Drain, Feed;
    BrokenChunks(pieces);
    assert ChunksBytes(pieces) + [] == ChunksBytes(pieces);
  }

  lemma FinalStatus(a: Ask, p: Reply)
    requires Final(a, p).status != 101
    ensures 200 <= Final(a, p).status <= 599
  {
  }

  lemma ContextKeeps(a: Ask, p: Reply)
    ensures ContextOf(a, p).keepAlive == Keeps(a, p) && ContextOf(a, p).version == a.version
  {
  }

  lemma FateIsKeep(a: Ask, p: Reply)
    requires !BreaksOff(a, p)
    ensures Fate(a, p) == KeepAlive <==> Keeps(a, p)
  {
  }

  lemma WireSplits(s: Setting, a: Ask, p: Reply, rest: bytes)
    ensures var q := Final(a, p);
            Wire(s, a, p) + rest
            == ResponseBytes(Response(q.status, WithServer(s, q.headers)), ContextOf(a, p), s.phrase(q.status), s.date)
               + (BodyBytes(a, p) + rest)
  {
    hide ResponseBytes, BodyBytes, WithServer, ContextOf;
    Assoc(HeadOf(s, a, p), BodyBytes(a, p), rest);
  }

  lemma ReadsFinal(isHead: bool, s: bytes, start: bytes, fields: seq<Field>, tail: bytes, v: Version, status: nat)
    requires ReadHead(s) == Some((start, fields, tail)) && ReadStatus(start) == Some((v, status))
    requires 200 <= status
    ensures ReadResponse(isHead, s)
            == match ReadBody(isHead, status, fields, tail)
               case None => None
               case Some((body, rest)) => Some((Reading(status, body, ReaderPersists(v, fields)), rest))
  {
    hide ReadHead, ReadStatus, ReadBody, ReaderPersists;
  }

  lemma SkipsContinue(s: Setting, a: Ask, p: Reply, isHead: bool, continued: bool, rest: bytes)
    ensures ReadResponse(isHead, Transcript(s, a, p, continued) + rest) == ReadResponse(isHead, Wire(s, a, p) + rest)
  {
    hide Wire, ReadResponse, CONTINUE;
    var w := Wire(s, a, p);
    if continued {
      Assoc(CONTINUE, w, rest);
      InterimIsSkipped(isHead, w + rest);
    } else {
      assert [] + w == w;
    }
  }

  /** A status that cannot be final reaches the client as an empty 500 that closes,
      whatever fields and body came with it. */
  lemma ImpossibleStatusIs500(s: Setting, a: Ask, p: Reply, continued: bool, rest: bytes)
    requires ValidValue(s.date) && All(s.phrase(500), NotBreak) && Sized(p.payload)
    requires !IsFinalStatus(p.status, a.wantsUpgrade)
    ensures ReadResponse(a.isHead, Transcript(s, a, p, continued) + rest) == Some((Reading(500, [], false), rest))
    ensures Fate(a, p) == Close
  {
    hide ReadResponse, Transcript;
    ResponseReadsBack(s, a, p, continued, rest);
  }

  // ---- An error response --------------------------------------------------------------------------

  /** The error responses the loop writes itself: no fields of a handler's, no body, and
      the connection closes. */
  function ErrorBytes(s: Setting, v: Version, status: nat): bytes {
    ResponseBytes(Response(status, []), Context(v, Empty, false, false), s.phrase(status), s.date)
  }

  method WriteErrorHead(out: bytes, s: Setting, v: Version, status: nat) returns (o: bytes)
    requires status <= 0xFFFF
    ensures o == out + ErrorBytes(s, v, status)
  {
    hide ResponseBytes;
    o := WriteHead(out, Response(status, []), Context(v, Empty, false, false), s.phrase(status), s.date);
  }

  /** An error response is what a handler's empty reply with that status would be, on a
      connection that does not persist and a server without a name. */
  lemma ErrorIsReply(s: Setting, v: Version, status: nat)
    requires 200 <= status <= 599
    ensures var a, p, unnamed := Ask(v, false, false, false, false), Reply(status, [], NoContent), s.(server := None);
            && Final(a, p) == p && !Keeps(a, p)
            && ErrorBytes(s, v, status) == Wire(unnamed, a, p) && BodyBytes(a, p) == [] == SentBody(a, p)
            && Fate(a, p) == Close && (WritesBody(a, p) <==> !ForbidsFraming(status))
  {
    hide ResponseBytes, HandlerNames;
    assert ErrorBytes(s, v, status) + [] == ErrorBytes(s, v, status);
  }

  /** An error response reads back as its status, no body and no more to come, whatever
      the method of the request it answers, which may never have been read. */
  lemma ErrorReadsBack(s: Setting, v: Version, status: nat, isHead: bool, continued: bool)
    requires ValidValue(s.date) && All(s.phrase(status), NotBreak) && 200 <= status <= 599
    ensures ReadResponse(isHead, (if continued then CONTINUE else []) + ErrorBytes(s, v, status))
            == Some((Reading(status, [], false), []))
  {
    var a, p, unnamed := Ask(v, false, false, false, false), Reply(status, [], NoContent), s.(server := None);
    ErrorIsReply(s, v, status);
    var fields := FieldsOf(unnamed, a, p);
    FieldsAre(unnamed, a, p, Response(status, WithServer(unnamed, p.headers)));
    ErrorBody(unnamed, a, p, fields, isHead);
    hide *;
    HeadReads(unnamed, a, p, isHead, continued, [], fields);
    assert Transcript(unnamed, a, p, continued) == (if continued then CONTINUE else []) + ErrorBytes(s, v, status) by {
      TranscriptIs(unnamed, a, p, continued);
    }
    var t := Transcript(unnamed, a, p, continued);
    assert t + [] == t;
  }

  lemma TranscriptIs(s: Setting, a: Ask, p: Reply, continued: bool)
    ensures Transcript(s, a, p, continued) == (if continued then CONTINUE else []) + Wire(s, a, p)
  {
  }

  lemma ErrorBody(s: Setting, a: Ask, p: Reply, fields: seq<Field>, isHead: bool)
    requires p.payload == NoContent && Final(a, p) == p && BodyBytes(a, p) == [] == SentBody(a, p)
    requires !a.isHead && (WritesBody(a, p) <==> !ForbidsFraming(p.status)) && fields == FieldsOf(s, a, p)
    ensures ReadBody(isHead, p.status, fields, [] + []) == Some(([], []))
  {
    var r := Response(p.status, WithServer(s, p.headers));
    FieldsAre(s, a, p, r);
    var nothing: bytes := [];
    assert nothing + nothing == nothing;
    hide ReadBody, FieldsOf, BodyBytes, SentBody, WritesBody, Final, ForbidsFraming;
    if isHead || ForbidsFraming(p.status) {
      BodylessRead(isHead, p.status, fields, nothing);
    } else {
      FixedReadsBack(a, p, r, s.date, nothing);
    }
  }

  lemma BodylessRead(isHead: bool, status: nat, fields: seq<Field>, s: bytes)
    requires isHead || ForbidsFraming(status)
    ensures ReadBody(isHead, status, fields, s) == Some(([], s))
  {
  }

  // ---- A run of responses --------------------------------------------------------------------------

  datatype Sending = Sending(ask: Ask, reply: Reply, continued: bool)

  function Output(s: Setting, xs: seq<Sending>): bytes {
    if xs == [] then [] else Transcript(s, xs[0].ask, xs[0].reply, xs[0].continued) + Output(s, xs[1..])
  }

  /** What the client is to conclude. */
  function Conclusions(xs: seq<Sending>): seq<Reading> {
    if xs == [] then []
    else
      [Reading(Final(xs[0].ask, xs[0].reply).status, SentBody(xs[0].ask, xs[0].reply),
               Fate(xs[0].ask, xs[0].reply) == KeepAlive)]
      + Conclusions(xs[1..])
  }

  /** The client's reading of a connection: one final response for each request, told
      which were HEAD, each read while the one before it persisted, with nothing left
      over. */
  function ReadRun(heads: seq<bool>, s: bytes): Option<seq<Reading>> {
    if heads == [] then if s == [] then Some([]) else None
    else
      match ReadResponse(heads[0], s)
      case None => None
      case Some((r, rest)) =>
        if heads[1..] != [] && !r.persists then None
        else
          match ReadRun(heads[1..], rest)
          case None => None
          case Some(rs) => Some([r] + rs)
  }

  function Heads(xs: seq<Sending>): (r: seq<bool>)
    ensures |r| == |xs|
  {
    if xs == [] then [] else [xs[0].ask.isHead] + Heads(xs[1..])
  }

  /** A response that completes, and can be read: no 101, no failing stream, and no
      empty chunk. */
  predicate Readable(s: Setting, x: Sending) {
    && All(s.phrase(Final(x.ask, x.reply).status), NotBreak)
    && Sized(x.reply.payload) && !BreaksOff(x.ask, x.reply) && Final(x.ask, x.reply).status != 101
    && (WritesChunks(x.ask, x.reply) ==> AllNonEmpty(Final(x.ask, x.reply).payload.pieces))
  }

  /** And the reader is told exactly that. */
  lemma ToldToPersist(s: Setting, x: Sending, rest: bytes)
    requires ValidValue(s.date) && Readable(s, x) && (ClosesAfter(x.ask, Final(x.ask, x.reply)) ==> rest == [])
    ensures var r := ReadResponse(x.ask.isHead, Transcript(s, x.ask, x.reply, x.continued) + rest);
            r.Some? && r.value.1 == rest && (r.value.0.persists <==> Persisting(x.ask, x.reply))
  {
    PersistsExactly(x.ask, x.reply);
    ResponseReadsBack(s, x.ask, x.reply, x.continued, rest);
    hide Persisting, ReadResponse, Transcript, Final, Sized, ClosesAfter, WritesChunks, AllNonEmpty, SentBody, ValidValue, BreaksOff,
      Fate;
  }

  /** Main result. From the concatenated output of any run of responses, of which all
      but the last keep the connection, the reader recovers exactly the statuses and
      bodies sent, in order, each with what then became of the connection. */
  lemma {:induction false} RunReadsBack(s: Setting, xs: seq<Sending>)
    requires ValidValue(s.date)
    requires forall k :: 0 <= k < |xs| ==> Readable(s, xs[k])
    requires forall k :: 0 <= k < |xs| - 1 ==> Fate(xs[k].ask, xs[k].reply) == KeepAlive
    ensures ReadRun(Heads(xs), Output(s, xs)) == Some(Conclusions(xs))
  {
    hide ReadResponse, Transcript, SentBody, ValidValue, Final, WritesChunks, BreaksOff, Sized, AllNonEmpty, NotBreak;
    if xs != [] {
      var x, later := xs[0], xs[1..];
      assert Readable(s, x);
      assert forall k :: 0 <= k < |later| ==> later[k] == xs[k + 1];
      RunReadsBack(s, later);
      if later != [] {
        KeptIsDelimited(x.ask, x.reply);
      }
      ResponseReadsBack(s, x.ask, x.reply, x.continued, Output(s, later));
      hide Fate, Readable;
      assert Heads(xs)[1..] == Heads(later) && Heads(xs)[0] == x.ask.isHead;
    }
  }

  lemma KeptIsDelimited(a: Ask, p: Reply)
    requires Fate(a, p) == KeepAlive
    ensures !ClosesAfter(a, Final(a, p))
  {
  }

  lemma NextReading(isHead: bool, heads: seq<bool>, s: bytes, r: Reading, rest: bytes)
    requires ReadResponse(isHead, s) == Some((r, rest)) && r.persists && ReadRun(heads, rest).Some?
    ensures ReadRun([isHead] + heads, s) == Some([r] + ReadRun(heads, rest).value)
  {
    hide ReadResponse;
    assert ([isHead] + heads)[1..] == heads;
  }

  /** The same, followed by what a reader makes of the rest, where every response of the
      run keeps the connection. */
  lemma {:induction false} RunThenReads(s: Setting, xs: seq<Sending>, heads: seq<bool>, tail: bytes, later: seq<Reading>)
    requires ValidValue(s.date)
    requires forall k :: 0 <= k < |xs| ==> Readable(s, xs[k]) && Fate(xs[k].ask, xs[k].reply) == KeepAlive
    requires heads != [] && ReadRun(heads, tail) == Some(later)
    ensures ReadRun(Heads(xs) + heads, Output(s, xs) + tail) == Some(Conclusions(xs) + later)
  {
    hide ReadRun, ReadResponse, Transcript, SentBody, ValidValue, Final, WritesChunks, BreaksOff, Sized, AllNonEmpty, NotBreak;
    if xs == [] {
      assert Heads(xs) + heads == heads && Output(s, xs) + tail == tail && Conclusions(xs) + later == later;
    } else {
      var x, rest := xs[0], xs[1..];
      assert Readable(s, x);
      assert forall k :: 0 <= k < |rest| ==> rest[k] == xs[k + 1];
      RunThenReads(s, rest, heads, tail, later);
      KeptIsDelimited(x.ask, x.reply);
      ResponseReadsBack(s, x.ask, x.reply, x.continued, Output(s, rest) + tail);
      hide Fate, Readable;
      var t := Transcript(s, x.ask, x.reply, x.continued);
      var r := Reading(Final(x.ask, x.reply).status, SentBody(x.ask, x.reply), true);
      Assoc(t, Output(s, rest), tail);
      Assoc([x.ask.isHead], Heads(rest), heads);
      Assoc([r], Conclusions(rest), later);
      NextReading(x.ask.isHead, Heads(rest) + heads, t + (Output(s, rest) + tail), r, Output(s, rest) + tail);
    }
  }

  lemma LastReading(isHead: bool, s: bytes, r: Reading)
    requires ReadResponse(isHead, s) == Some((r, []))
    ensures ReadRun([isHead], s) == Some([r])
  {
    hide ReadResponse;
    assert [isHead][1..] == [] && [r] + [] == [r];
  }

  /** A run that an error response ends. */
  lemma ErrorEndsRun(s: Setting, xs: seq<Sending>, v: Version, status: nat, isHead: bool, continued: bool)
    requires ValidValue(s.date) && All(s.phrase(status), NotBreak) && 200 <= status <= 599
    requires forall k :: 0 <= k < |xs| ==> Readable(s, xs[k]) && Fate(xs[k].ask, xs[k].reply) == KeepAlive
    ensures ReadRun(Heads(xs) + [isHead], Output(s, xs) + ((if continued then CONTINUE else []) + ErrorBytes(s, v, status)))
            == Some(Conclusions(xs) + [Reading(status, [], false)])
  {
    hide ReadResponse, ErrorBytes, Readable, Fate, Conclusions, ValidValue, Output, CONTINUE;
    ErrorReadsBack(s, v, status, isHead, continued);
    var e := (if continued then CONTINUE else []) + ErrorBytes(s, v, status);
    LastReading(isHead, e, Reading(status, [], false));
    RunThenReads(s, xs, [isHead], e, [Reading(status, [], false)]);
  }
}
