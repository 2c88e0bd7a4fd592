/** The chunked decoder against the grammar of RFC 9112 section 7.1: it reads a body to
    its end exactly when the stream starts with one, within the limits. */
module ChunkedGrammar {
  import opened Octets
  import opened Numerals
  import opened Headers
  import opened ChunkExt
  import opened FieldLines
  import opened Chunked
  import opened ChunkedSplit
  import ChunkCodec

  // ---- The grammar ---------------------------------------------------------------
  //
  //   chunked-body    = *chunk last-chunk trailer-section CRLF
  //   chunk           = chunk-size [ chunk-ext ] CRLF chunk-data CRLF
  //   last-chunk      = 1*("0") [ chunk-ext ] CRLF
  //   chunk-size      = 1*HEXDIG
  //   trailer-section = *( field-name ":" OWS field-value OWS CRLF )

  datatype SizeLine = SizeLine(digits: bytes, ext: bytes)

  datatype Chunk = Chunk(size: SizeLine, data: bytes)

  datatype TrailerLine = TrailerLine(name: bytes, before: bytes, value: bytes, after: bytes)

  datatype ChunkedBody = ChunkedBody(chunks: seq<Chunk>, last: SizeLine, trailers: seq<TrailerLine>)

  function SizeText(z: SizeLine): bytes { z.digits + z.ext }

  function ChunksText(cs: seq<Chunk>): bytes {
    if cs == [] then [] else Line(SizeText(cs[0].size)) + (Line(cs[0].data) + ChunksText(cs[1..]))
  }

  function TrailerText(t: TrailerLine): bytes {
    t.name + ([':'] + (t.before + t.value + t.after))
  }

  function TrailersText(ts: seq<TrailerLine>): bytes {
    if ts == [] then [] else Line(TrailerText(ts[0])) + TrailersText(ts[1..])
  }

  function BodyText(b: ChunkedBody): bytes {
    ChunksText(b.chunks) + (Line(SizeText(b.last)) + (TrailersText(b.trailers) + "\r\n"))
  }

  /** The line states the size `n`. */
  ghost predicate Sizes(z: SizeLine, n: nat) {
    IsNumeral(16, z.digits) && Value(16, z.digits) == n && IsChunkExt(z.ext)
  }

  predicate Trimmed(s: bytes) { s == [] || (!IsWs(s[0]) && !IsWs(s[|s| - 1])) }

  /** A field line, of a field that may stand in a trailer section. */
  predicate IsTrailer(t: TrailerLine) {
    && IsToken(t.name) && !ForbiddenInTrailers(Intern(t.name))
    && All(t.before, IsWs) && All(t.after, IsWs)
    && Trimmed(t.value) && NoCtl(t.value)
  }

  ghost predicate AreChunks(cs: seq<Chunk>) {
    forall i :: 0 <= i < |cs| ==> cs[i].data != [] && Sizes(cs[i].size, |cs[i].data|)
  }

  predicate AreTrailers(ts: seq<TrailerLine>) {
    forall i :: 0 <= i < |ts| ==> IsTrailer(ts[i])
  }

  ghost predicate Derives(b: ChunkedBody) {
    AreChunks(b.chunks) && Sizes(b.last, 0) && AreTrailers(b.trailers)
  }

  // ---- What a body carries, and its limits -------------------------------------------

  function DataOf(cs: seq<Chunk>): bytes {
    if cs == [] then [] else cs[0].data + DataOf(cs[1..])
  }

  function FieldOf(t: TrailerLine): Field { Field(Intern(t.name), t.value) }

  function FieldsOf(ts: seq<TrailerLine>): (r: seq<Field>)
    ensures |r| == |ts|
  {
    if ts == [] then [] else [FieldOf(ts[0])] + FieldsOf(ts[1..])
  }

  predicate ShortLine(z: SizeLine) { |SizeText(z)| <= MAX_SIZE_LINE }

  predicate ChunksFit(cs: seq<Chunk>) {
    forall i :: 0 <= i < |cs| ==> ShortLine(cs[i].size) && |cs[i].data| <= U64_MAX
  }

  predicate Within(l: Limits, b: ChunkedBody) {
    && ChunksFit(b.chunks) && ShortLine(b.last)
    && |DataOf(b.chunks)| <= l.maxBodyBytes
    && |b.trailers| <= l.maxHeaders
    && |TrailersText(b.trailers)| + 2 <= l.maxHeadBytes
  }

  // ---- Size lines ----------------------------------------------------------------------

  /** What the decoder's size parser accepts is what the grammar derives. */
  lemma SizeLineIff(line: bytes, n: nat)
    ensures ParseChunkSize(line) == Ok(n) <==>
            n <= U64_MAX && exists z: SizeLine :: line == SizeText(z) && Sizes(z, n)
  {
    if ParseChunkSize(line) == Ok(n) {
      var z := SizeLineParsed(line, n);
    }
    if z: SizeLine :| n <= U64_MAX && line == SizeText(z) && Sizes(z, n) {
      SizeLineParses(z, n);
    }
  }

  lemma SizeLineParsed(line: bytes, n: nat) returns (z: SizeLine)
    requires ParseChunkSize(line) == Ok(n)
    ensures n <= U64_MAX && line == SizeText(z) && Sizes(z, n)
  {
    hide Accepts, IsChunkExt, Value;
    var k := Span(line, IsHexDigit);
    z := SizeLine(line[..k], line[k..]);
    AcceptsExactly(z.ext);
    NothingIsExt();
  }

  lemma NothingIsExt()
    ensures Accepts([])
  {
  }

  lemma ExtStarts(ext: bytes)
    requires ext != [] && Accepts(ext)
    ensures ext[0] == ';' || IsWs(ext[0])
  {
  }

  lemma SizeLineParses(z: SizeLine, n: nat)
    requires Sizes(z, n) && n <= U64_MAX
    ensures ParseChunkSize(SizeText(z)) == Ok(n)
  {
    hide Value, IsChunkExt, Accepts;
    AcceptsExactly(z.ext);
    if z.ext != [] {
      ExtStarts(z.ext);
    }
    SpanIs(z.digits, z.ext, IsHexDigit);
    var line := SizeText(z);
    assert line[..|z.digits|] == z.digits && line[|z.digits|..] == z.ext;
  }

  // ---- Lines are unbroken ----------------------------------------------------------------

  lemma {:induction false} QuotedUnbroken(q: seq<QuotedChar>)
    ensures All(QuotedText(q), NotBreak)
  {
    if q != [] {
      QuotedUnbroken(q[1..]);
      AllAppend(CharText(q[0]), QuotedText(q[1..]), NotBreak);
    }
  }

  lemma ValueUnbroken(v: ExtValue)
    ensures All(ValueText(v), NotBreak)
  {
    match v
    case TokenValue(t) => TokenHasNoColon(t);
    case QuotedValue(q) =>
      QuotedUnbroken(q);
      AllAppend(QuotedText(q), ['"'], NotBreak);
      AllAppend(['"'], QuotedText(q) + ['"'], NotBreak);
  }

  lemma WsUnbroken(w: bytes)
    requires All(w, IsWs)
    ensures All(w, NotBreak)
  {
  }

  lemma ArgUnbroken(a: ExtArgument)
    ensures All(ArgText(a), NotBreak)
  {
    if a.Argument? {
      ValueUnbroken(a.v);
      WsUnbroken(a.w1);
      WsUnbroken(a.w2);
      var v := ValueText(a.v);
      AllAppend(a.w2, v, NotBreak);
      AllAppend(['='], a.w2 + v, NotBreak);
      AllAppend(a.w1, ['='] + (a.w2 + v), NotBreak);
      hide ValueText, All;
    }
  }

  lemma {:induction false} ExtUnbroken(xs: seq<ExtItem>, tail: Ws)
    ensures All(ItemsText(xs, tail), NotBreak)
  {
    if xs == [] {
      WsUnbroken(tail);
    } else {
      var x := xs[0];
      var rest := ItemsText(xs[1..], tail);
      ExtUnbroken(xs[1..], tail);
      ArgUnbroken(x.arg);
      TokenHasNoColon(x.name);
      WsUnbroken(x.w1);
      WsUnbroken(x.w2);
      hide ArgText, All;
      var a := ArgText(x.arg) + rest;
      AllAppend(ArgText(x.arg), rest, NotBreak);
      AllAppend(x.name, a, NotBreak);
      AllAppend(x.w2, x.name + a, NotBreak);
      Semicolon();
      AllAppend([';'], x.w2 + (x.name + a), NotBreak);
      AllAppend(x.w1, [';'] + (x.w2 + (x.name + a)), NotBreak);
    }
  }

  lemma Semicolon()
    ensures All([';'], NotBreak)
  {
  }

  lemma SizeUnbroken(z: SizeLine, n: nat)
    requires Sizes(z, n)
    ensures All(SizeText(z), NotBreak) && SizeText(z) != []
  {
    var xs: seq<ExtItem>, tail: Ws :| z.ext == ItemsText(xs, tail);
    ExtUnbroken(xs, tail);
    DigitsUnbroken(z.digits);
    hide IsNumeral, ItemsText, All;
    AllAppend(z.digits, z.ext, NotBreak);
  }

  lemma DigitsUnbroken(s: bytes)
    requires IsNumeral(16, s)
    ensures All(s, NotBreak) && s != []
  {
  }

  // ---- Trailer lines ------------------------------------------------------------------------

  /** A trailer line is a token, a colon, and a value without control octets. */
  lemma TrailerShape(t: TrailerLine)
    requires IsTrailer(t)
    ensures var c := TrailerText(t);
            && IndexOf(c, ':') == |t.name| < |c|
            && c[..|t.name|] == t.name && TrimOws(c[|t.name| + 1..]) == t.value
            && !IsWs(c[0])
  {
    var c, n := TrailerText(t), |t.name|;
    var v := t.before + t.value + t.after;
    TokenHasNoColon(t.name);
    IndexOfAppend(t.name, [':'] + v, ':');
    TrimPadded(t.before, t.value, t.after);
    assert IsTchar(c[0]);
    hide TrimOws, Intern;
    assert c[..n] == t.name;
    assert c[n..] == [':'] + v;
    assert c[n + 1..] == v;
  }

  lemma TrailerUnbroken(t: TrailerLine)
    requires IsTrailer(t)
    ensures All(TrailerText(t), NotBreak) && TrailerText(t) != []
  {
    TokenHasNoColon(t.name);
    WsUnbroken(t.before);
    WsUnbroken(t.after);
    Colon();
    assert All(t.value, NotBreak) by {
      assert forall i :: 0 <= i < |t.value| ==> !IsCtl(t.value[i]);
    }
    hide All, Intern;
    AllAppend(t.before, t.value, NotBreak);
    AllAppend(t.before + t.value, t.after, NotBreak);
    AllAppend([':'], t.before + t.value + t.after, NotBreak);
    AllAppend(t.name, [':'] + (t.before + t.value + t.after), NotBreak);
  }

  lemma Colon()
    ensures All([':'], NotBreak)
  {
  }

  /** What the decoder's trailer parser takes is what the grammar derives. */
  lemma TrailerTaken(max: nat, sofar: seq<Field>, t: TrailerLine)
    requires IsTrailer(t) && |sofar| < max
    ensures PushTrailer(max, sofar, TrailerText(t)) == Ok(sofar + [FieldOf(t)])
  {
    TrailerShape(t);
    hide TrailerText, TrimOws, Intern, NoCtl, IndexOf;
  }

  lemma TrailerParsed(max: nat, sofar: seq<Field>, line: bytes) returns (t: TrailerLine)
    requires PushTrailer(max, sofar, line).Ok?
    ensures IsTrailer(t) && line == TrailerText(t) && |sofar| < max
    ensures PushTrailer(max, sofar, line) == Ok(sofar + [FieldOf(t)])
  {
    var n := IndexOf(line, ':');
    var name, v := line[..n], line[n + 1..];
    PushedParts(max, sofar, line, n, name, v);
    RejoinedAtColon(line, n);
    hide *;
    var before, after := Padding(v);
    t := TrailerLine(name, before, TrimOws(v), after);
    TrailerMade(t, v, line);
  }

  lemma PushedParts(max: nat, sofar: seq<Field>, line: bytes, n: nat, name: bytes, v: bytes)
    requires PushTrailer(max, sofar, line).Ok? && n == IndexOf(line, ':')
    requires n < |line| ==> name == line[..n] && v == line[n + 1..]
    ensures n < |line| && IsToken(name) && !ForbiddenInTrailers(Intern(name)) && NoCtl(TrimOws(v))
    ensures PushTrailer(max, sofar, line) == Ok(sofar + [Field(Intern(name), TrimOws(v))])
    ensures |sofar| < max
  {
    hide TrimOws, Intern, ForbiddenInTrailers, IndexOf, IsToken, NoCtl;
  }

  lemma TrailerMade(t: TrailerLine, v: bytes, line: bytes)
    requires IsToken(t.name) && !ForbiddenInTrailers(Intern(t.name)) && NoCtl(t.value)
    requires All(t.before, IsWs) && All(t.after, IsWs) && Trimmed(t.value)
    requires v == t.before + t.value + t.after && line == t.name + ([':'] + v)
    ensures IsTrailer(t) && line == TrailerText(t) && FieldOf(t) == Field(Intern(t.name), t.value)
  {
    hide Intern, ForbiddenInTrailers, IsToken, NoCtl, All, Trimmed;
  }

  lemma RejoinedAtColon(line: bytes, n: nat)
    requires n < |line| && line[n] == ':'
    ensures line == line[..n] + ([':'] + line[n + 1..])
  {
  }

  /** Trimming takes whitespace off both ends, and nothing else. */
  lemma Padding(v: bytes) returns (before: bytes, after: bytes)
    ensures All(before, IsWs) && All(after, IsWs)
    ensures v == before + TrimOws(v) + after && Trimmed(TrimOws(v))
  {
    var m := TrimLeft(v);
    before := v[..Span(v, IsWs)];
    assert v == before + m;
    TrimOwsTrimmed(v);
    hide TrimRight, Span, IsWs;
    after := m[|TrimRight(m)|..];
    assert m == TrimRight(m) + after;
    Assoc(before, TrimOws(v), after);
  }

  // ---- Every derivation is read ------------------------------------------------------------

  lemma SizeLineMoves(l: Limits, d: Decoder, z: SizeLine, n: nat, x: bytes)
    requires d.phase == AwaitSize && Sizes(z, n) && ShortLine(z) && n <= U64_MAX
    requires d.decoded + n <= l.maxBodyBytes
    ensures var d' := if n == 0 then d.(phase := AwaitTrailers)
                      else d.(phase := AwaitData, remaining := n);
            Drain(l, d, Line(SizeText(z)) + x) == Drain(l, d', x)
  {
    SizeLineParses(z, n);
    SizeUnbroken(z, n);
    LineHasNoLf(SizeText(z), x);
    hide ParseChunkSize, Sizes, Drain, SizeText;
    DrainMoved(l, d, Line(SizeText(z)) + x);
  }

  lemma ChunkRead(l: Limits, d: Decoder, c: Chunk, x: bytes)
    requires d.phase == AwaitSize && Sizes(c.size, |c.data|) && c.data != []
    requires ShortLine(c.size) && |c.data| <= U64_MAX
    requires d.decoded + |c.data| <= l.maxBodyBytes
    ensures Drain(l, d, Line(SizeText(c.size)) + (Line(c.data) + x))
            == Before(c.data, [], Drain(l, ChunkCodec.AfterBody(d, |c.data|), x))
  {
    hide Drain, Sizes, SizeText, ShortLine;
    SizeLineMoves(l, d, c.size, |c.data|, Line(c.data) + x);
    ChunkCodec.ChunkData(l, d.(phase := AwaitData, remaining := |c.data|), c.data, x);
  }

  lemma {:induction false} ChunksRead(l: Limits, d: Decoder, cs: seq<Chunk>, x: bytes)
    requires d.phase == AwaitSize && d.remaining == 0
    requires AreChunks(cs) && ChunksFit(cs) && d.decoded + |DataOf(cs)| <= l.maxBodyBytes
    ensures Drain(l, d, ChunksText(cs) + x)
            == Before(DataOf(cs), [], Drain(l, ChunkCodec.AfterBody(d, |DataOf(cs)|), x))
    decreases |cs|
  {
    hide Drain, Sizes, SizeText, ShortLine;
    if cs == [] {
      assert [] + x == x;
      BeforeNothing(Drain(l, d, x));
    } else {
      var c, rest := cs[0], cs[1..];
      var d' := ChunkCodec.AfterBody(d, |c.data|);
      Regrouped(Line(SizeText(c.size)), Line(c.data), ChunksText(rest), x);
      ChunkRead(l, d, c, ChunksText(rest) + x);
      ChunksRead(l, d', rest, x);
      BeforeBefore(c.data, [], DataOf(rest), [],
                   Drain(l, ChunkCodec.AfterBody(d', |DataOf(rest)|), x));
    }
  }

  lemma Regrouped(a: bytes, b: bytes, c: bytes, x: bytes)
    ensures (a + (b + c)) + x == a + (b + (c + x))
  {
  }

  lemma {:induction false} TrailersRead(l: Limits, d: Decoder, ts: seq<TrailerLine>, tail: bytes)
    requires d.phase == AwaitTrailers && AreTrailers(ts)
    requires |d.trailers| + |ts| <= l.maxHeaders
    requires d.trailerBytes + |TrailersText(ts)| + 2 <= l.maxHeadBytes
    ensures Drain(l, d, TrailersText(ts) + ("\r\n" + tail))
            == Drained([], d.trailers + FieldsOf(ts), Ended(tail))
    decreases |ts|
  {
    hide Drain, IsTrailer, TrailerText;
    var end := "\r\n" + tail;
    if ts == [] {
      ChunkCodec.EndOfTrailers(l, d, tail);
      assert TrailersText(ts) + end == end;
      assert d.trailers + FieldsOf(ts) == d.trailers;
    } else {
      var t, rest := ts[0], ts[1..];
      var c, x := TrailerText(t), TrailersText(rest) + end;
      TrailerUnbroken(t);
      TrailerTaken(l.maxHeaders, d.trailers, t);
      ChunkCodec.ContentTurn(l, d, c, x);
      DrainMoved(l, d, Line(c) + x);
      Assoc(Line(c), TrailersText(rest), end);
      var d' := d.(trailerBytes := d.trailerBytes + |c| + 2, trailers := d.trailers + [FieldOf(t)]);
      TrailersRead(l, d', rest, tail);
      Assoc(d.trailers, [FieldOf(t)], FieldsOf(rest));
    }
  }

  // ---- Every body read has a derivation --------------------------------------------------------

  /** A line found is the front of the buffer. */
  lemma FoundLine(buf: bytes, max: nat, e: ChunkedError, n: nat)
    requires FindLine(buf, max, e) == Ok(Some(n))
    ensures n <= max && n + 2 <= |buf| && buf == Line(buf[..n]) + buf[n + 2..]
  {
    assert buf[n] == '\r' && buf[n + 1] == '\n';
  }

  /** The first turn of a run that ends the body has read a size line. */
  lemma SizeLineFound(l: Limits, d: Decoder, buf: bytes) returns (z: SizeLine, n: nat, rest: bytes)
    requires d.phase == AwaitSize && Drain(l, d, buf).stop.Ended?
    ensures buf == Line(SizeText(z)) + rest && Sizes(z, n) && ShortLine(z) && n <= U64_MAX
    ensures d.decoded + n <= l.maxBodyBytes
    ensures var d' := if n == 0 then d.(phase := AwaitTrailers)
                      else d.(phase := AwaitData, remaining := n);
            Drain(l, d, buf) == Drain(l, d', rest)
  {
    SizeTurnMoved(l, d, buf);
    hide FindLine, ParseChunkSize, Drain;
    DrainMoved(l, d, buf);
    var k := FindLine(buf, MAX_SIZE_LINE, MissingCrlf).value.value;
    FoundLine(buf, MAX_SIZE_LINE, MissingCrlf, k);
    n := ParseChunkSize(buf[..k]).value;
    z := SizeLineParsed(buf[..k], n);
    rest := buf[k + 2..];
  }

  lemma SizeTurnMoved(l: Limits, d: Decoder, buf: bytes)
    requires d.phase == AwaitSize && Drain(l, d, buf).stop.Ended?
    ensures Next(l, d, buf).Moved? && SizeTurn(l, d, buf).Moved?
  {
    hide FindLine, ParseChunkSize;
  }

  /** A run that was not stopped for want of input or by what ends a chunk's data. */
  predicate Past(s: Stop) { s.Ended? || s == Failed(BodyTooLarge) }

  /** A chunk's data has arrived in full, and its CRLF after it. */
  lemma DataFound(l: Limits, d: Decoder, buf: bytes) returns (data: bytes, rest: bytes)
    requires d.phase == AwaitData && d.remaining > 0 && Past(Drain(l, d, buf).stop)
    ensures buf == Line(data) + rest && |data| == d.remaining
    ensures Drain(l, d, buf) ==
              Before(data, [], Drain(l, ChunkCodec.AfterBody(d, |data|).(phase := AwaitSize), rest))
  {
    hide *;
    var n := d.remaining;
    DataAllThere(l, d, buf);
    DataThenRest(l, d, buf, n);
    data, rest := buf[..n], buf[n..][2..];
    Rejoined(buf, n, data, rest);
  }

  lemma DataThenRest(l: Limits, d: Decoder, buf: bytes, n: nat)
    requires n <= |buf| && Past(Drain(l, d, buf).stop)
    requires Next(l, d, buf) ==
               Produced(Data(buf[..n]), d.(phase := AwaitDataCrlf, remaining := 0, decoded := d.decoded + n), n)
    ensures |buf[n..]| >= 2 && buf[n..] == "\r\n" + buf[n..][2..]
    ensures Drain(l, d, buf) ==
              Before(buf[..n], [], Drain(l, ChunkCodec.AfterBody(d, n).(phase := AwaitSize), buf[n..][2..]))
  {
    DrainData(l, d, buf);
    hide Drain, Next;
    var d1 := d.(phase := AwaitDataCrlf, remaining := 0, decoded := d.decoded + n);
    var rest := buf[n..];
    CrlfFound(l, d1, rest);
    SizeAwaited(d, n);
  }

  lemma Rejoined(buf: bytes, n: nat, data: bytes, rest: bytes)
    requires n <= |buf| && data == buf[..n] && buf[n..] == "\r\n" + rest
    ensures buf == Line(data) + rest
  {
    Assoc(data, "\r\n", rest);
  }

  lemma SizeAwaited(d: Decoder, n: nat)
    ensures d.(phase := AwaitDataCrlf, remaining := 0, decoded := d.decoded + n).(phase := AwaitSize)
            == ChunkCodec.AfterBody(d, n).(phase := AwaitSize)
  {
  }

  lemma DataAllThere(l: Limits, d: Decoder, buf: bytes)
    requires d.phase == AwaitData && d.remaining > 0 && Past(Drain(l, d, buf).stop)
    ensures |buf| >= d.remaining
    ensures Next(l, d, buf) ==
              Produced(Data(buf[..d.remaining]),
                       d.(phase := AwaitDataCrlf, remaining := 0, decoded := d.decoded + d.remaining),
                       d.remaining)
  {
    if MidData(d, buf) {
      if buf != [] {
        DrainedMidData(l, d, buf);
      }
      assert false;
    }
    hide Drain;
  }

  lemma CrlfFound(l: Limits, d: Decoder, buf: bytes)
    requires d.phase == AwaitDataCrlf && Past(Drain(l, d, buf).stop)
    ensures |buf| >= 2 && buf == "\r\n" + buf[2..]
    ensures Drain(l, d, buf) == Drain(l, d.(phase := AwaitSize), buf[2..])
  {
    CrlfMoves(l, d, buf);
    hide *;
    DrainMoved(l, d, buf);
    CrlfAhead(buf);
  }

  lemma CrlfAhead(buf: bytes)
    requires |buf| >= 2 && buf[0] == '\r' && buf[1] == '\n'
    ensures buf == "\r\n" + buf[2..]
  {
  }

  lemma CrlfMoves(l: Limits, d: Decoder, buf: bytes)
    requires d.phase == AwaitDataCrlf && Past(Drain(l, d, buf).stop)
    ensures |buf| >= 2 && buf[0] == '\r' && buf[1] == '\n'
    ensures Next(l, d, buf) == Moved(d.(phase := AwaitSize), 2)
  {
    hide SizeTurn, DataTurn, TrailerTurn;
  }

  /** The trailer lines of a run that ends the body. */
  lemma {:induction false} TrailersFound(l: Limits, d: Decoder, buf: bytes)
    returns (ts: seq<TrailerLine>, tail: bytes)
    requires d.phase == AwaitTrailers && Drain(l, d, buf).stop.Ended?
    ensures buf == TrailersText(ts) + ("\r\n" + tail) && AreTrailers(ts)
    ensures ts != [] ==> |d.trailers| + |ts| <= l.maxHeaders
    ensures d.trailerBytes + |TrailersText(ts)| + 2 <= l.maxHeadBytes
    decreases |buf|
  {
    var n, rest := TrailerLineFound(l, d, buf);
    hide Drain, Next, IsTrailer, TrailerText;
    if n == 0 {
      ts, tail := [], rest;
      assert [] + ("\r\n" + tail) == "\r\n" + tail;
    } else {
      var line := buf[..n];
      var t := TrailerParsed(l.maxHeaders, d.trailers, line);
      var d' := Next(l, d, buf).dec;
      var us;
      us, tail := TrailersFound(l, d', rest);
      ts := [t] + us;
      TrailerPrepended(t, us);
      hide *;
      Assoc(Line(line), TrailersText(us), "\r\n" + tail);
    }
  }

  lemma TrailerPrepended(t: TrailerLine, us: seq<TrailerLine>)
    ensures TrailersText([t] + us) == Line(TrailerText(t)) + TrailersText(us)
    ensures IsTrailer(t) && AreTrailers(us) ==> AreTrailers([t] + us)
    ensures |TrailersText([t] + us)| == |TrailerText(t)| + 2 + |TrailersText(us)|
  {
    hide IsTrailer, TrailerText;
    assert ([t] + us)[1..] == us;
  }

  lemma TrailerLineFound(l: Limits, d: Decoder, buf: bytes) returns (n: nat, rest: bytes)
    requires d.phase == AwaitTrailers && Drain(l, d, buf).stop.Ended?
    ensures n + 2 <= |buf| && rest == buf[n + 2..] && buf == Line(buf[..n]) + rest
    ensures d.trailerBytes + n + 2 <= l.maxHeadBytes
    ensures n == 0 ==> buf == "\r\n" + rest
    ensures n != 0 ==>
              var p := PushTrailer(l.maxHeaders, d.trailers, buf[..n]);
              && p.Ok? && Drain(l, d, buf).stop == Drain(l, Next(l, d, buf).dec, rest).stop
              && Next(l, d, buf).dec == d.(trailerBytes := d.trailerBytes + n + 2, trailers := p.value)
  {
    hide FindLine, PushTrailer;
    var f := FindLine(buf, l.maxHeadBytes, TrailerTooLarge);
    assert f.Ok? && f.value.Some?;
    n := f.value.value;
    FoundLine(buf, l.maxHeadBytes, TrailerTooLarge, n);
    rest := buf[n + 2..];
    if n == 0 {
      assert Line(buf[..0]) == "\r\n";
    }
  }

  /** The chunks of a run that ends the body. */
  lemma {:induction false} BodyFound(l: Limits, d: Decoder, buf: bytes)
    returns (cs: seq<Chunk>, last: SizeLine, rest: bytes)
    requires d.phase == AwaitSize && d.remaining == 0 && Drain(l, d, buf).stop.Ended?
    ensures buf == ChunksText(cs) + (Line(SizeText(last)) + rest)
    ensures AreChunks(cs) && ChunksFit(cs) && Sizes(last, 0) && ShortLine(last)
    ensures d.decoded + |DataOf(cs)| <= l.maxBodyBytes
    ensures var d' := ChunkCodec.AfterBody(d, |DataOf(cs)|).(phase := AwaitTrailers);
            Drain(l, d, buf) == Before(DataOf(cs), [], Drain(l, d', rest))
    decreases |buf|
  {
    hide Drain, Next, Sizes, SizeText, ShortLine, AreChunks, ChunksFit, ChunksText, DataOf, ChunkCodec.AfterBody;
    var z, n, after := SizeLineFound(l, d, buf);
    if n == 0 {
      cs, last, rest := [], z, after;
      NoChunks(d, buf);
      SizeAwaitedAgain(d, 0);
      BeforeNothing(Drain(l, d, buf));
    } else {
      var data, next := DataFound(l, d.(phase := AwaitData, remaining := n), after);
      SizeAwaitedAgain(d, n);
      var d2 := ChunkCodec.AfterBody(d, n);
      var ds;
      ds, last, rest := BodyFound(l, d2, next);
      ChunkPrepended(Chunk(z, data), ds);
      cs := [Chunk(z, data)] + ds;
      Regrouped(Line(SizeText(z)), Line(data), ChunksText(ds), Line(SizeText(last)) + rest);
      BodiesAdd(d, n, |DataOf(ds)|);
      BeforeBefore(data, [], DataOf(ds), [],
                   Drain(l, ChunkCodec.AfterBody(d2, |DataOf(ds)|).(phase := AwaitTrailers), rest));
    }
  }

  lemma NoChunks(d: Decoder, buf: bytes)
    ensures ChunksText([]) + buf == buf && AreChunks([]) && ChunksFit([]) && DataOf([]) == []
    ensures d.remaining == 0 ==> ChunkCodec.AfterBody(d, 0) == d
  {
  }

  lemma SizeAwaitedAgain(d: Decoder, n: nat)
    requires d.phase == AwaitSize && d.remaining == 0
    ensures ChunkCodec.AfterBody(d.(phase := AwaitData, remaining := n), n).(phase := AwaitSize)
            == ChunkCodec.AfterBody(d, n)
    ensures ChunkCodec.AfterBody(d, n) == d.(decoded := d.decoded + n)
  {
  }

  lemma BodiesAdd(d: Decoder, n: nat, m: nat)
    ensures ChunkCodec.AfterBody(ChunkCodec.AfterBody(d, n), m) == ChunkCodec.AfterBody(d, n + m)
  {
  }

  lemma ChunkPrepended(c: Chunk, ds: seq<Chunk>)
    ensures ChunksText([c] + ds) == Line(SizeText(c.size)) + (Line(c.data) + ChunksText(ds))
    ensures DataOf([c] + ds) == c.data + DataOf(ds)
    ensures AreChunks(ds) && c.data != [] && Sizes(c.size, |c.data|) ==> AreChunks([c] + ds)
    ensures ChunksFit(ds) && ShortLine(c.size) && |c.data| <= U64_MAX ==> ChunksFit([c] + ds)
  {
    hide Sizes, SizeText, ShortLine;
    assert ([c] + ds)[1..] == ds;
  }

  // ---- Main result -----------------------------------------------------------------------------

  /** The stream starts with the chunked body `b`, which stays within the limits. */
  ghost predicate StartsWith(l: Limits, b: ChunkedBody, stream: bytes, tail: bytes) {
    Derives(b) && Within(l, b) && stream == BodyText(b) + tail
  }

  lemma BodyTextThen(b: ChunkedBody, tail: bytes)
    ensures BodyText(b) + tail ==
              ChunksText(b.chunks) + (Line(SizeText(b.last)) + (TrailersText(b.trailers) + ("\r\n" + tail)))
  {
    hide ChunksText, SizeText, TrailersText;
    var t := TrailersText(b.trailers);
    Assoc(t, "\r\n", tail);
    Assoc(Line(SizeText(b.last)), t + "\r\n", tail);
    Assoc(ChunksText(b.chunks), Line(SizeText(b.last)) + (t + "\r\n"), tail);
  }

  lemma BodyRead(l: Limits, b: ChunkedBody, stream: bytes, tail: bytes)
    requires StartsWith(l, b, stream, tail)
    ensures Whole(l, FRESH, stream) == Outcome(DataOf(b.chunks), FieldsOf(b.trailers), Complete(tail))
  {
    var x := TrailersText(b.trailers) + ("\r\n" + tail);
    BodyTextThen(b, tail);
    hide Drain, BodyText, Sizes, SizeText, ShortLine;
    var d := ChunkCodec.AfterBody(FRESH, |DataOf(b.chunks)|);
    ChunksRead(l, FRESH, b.chunks, Line(SizeText(b.last)) + x);
    SizeLineMoves(l, d, b.last, 0, x);
    TrailersRead(l, d.(phase := AwaitTrailers), b.trailers, tail);
    assert DataOf(b.chunks) + [] == DataOf(b.chunks);
    assert [] + FieldsOf(b.trailers) == FieldsOf(b.trailers);
    assert tail + [] == tail;
  }

  lemma BodyDerived(l: Limits, stream: bytes) returns (b: ChunkedBody, tail: bytes)
    requires Whole(l, FRESH, stream).end.Complete?
    ensures StartsWith(l, b, stream, tail)
  {
    hide Drain, BodyText, Sizes, SizeText, ShortLine;
    var cs, last, rest := BodyFound(l, FRESH, stream);
    var d := ChunkCodec.AfterBody(FRESH, |DataOf(cs)|).(phase := AwaitTrailers);
    var ts;
    ts, tail := TrailersFound(l, d, rest);
    b := ChunkedBody(cs, last, ts);
    BodyTextThen(b, tail);
  }

  /** Main result. The decoder delivers a body and its trailer fields and leaves `tail`
      exactly when the stream is a chunked body that carries them, followed by `tail`. */
  lemma ReadsTheGrammar(l: Limits, stream: bytes, body: bytes, fields: seq<Field>, tail: bytes)
    ensures Whole(l, FRESH, stream) == Outcome(body, fields, Complete(tail))
            <==>
            exists b: ChunkedBody :: StartsWith(l, b, stream, tail) &&
                                     body == DataOf(b.chunks) && fields == FieldsOf(b.trailers)
  {
    hide Whole, StartsWith, DataOf, FieldsOf;
    if Whole(l, FRESH, stream) == Outcome(body, fields, Complete(tail)) {
      var b, t := BodyDerived(l, stream);
      BodyRead(l, b, stream, t);
    }
    if b: ChunkedBody :| StartsWith(l, b, stream, tail) &&
                         body == DataOf(b.chunks) && fields == FieldsOf(b.trailers) {
      BodyRead(l, b, stream, tail);
    }
  }

  // ---- A body too large ---------------------------------------------------------------------------

  /** Chunks within the limit, and a size line that announces more than is left of it. */
  ghost predicate Exceeds(l: Limits, decoded: nat, buf: bytes, cs: seq<Chunk>, z: SizeLine, n: nat, rest: bytes) {
    && AreChunks(cs) && ChunksFit(cs) && Sizes(z, n) && ShortLine(z) && n <= U64_MAX
    && decoded + |DataOf(cs)| <= l.maxBodyBytes < decoded + |DataOf(cs)| + n
    && buf == ChunksText(cs) + (Line(SizeText(z)) + rest)
  }

  /** A run refused for its size has read a size line, which is either the one too large or
      not the last of its kind. */
  lemma SizeLineMet(l: Limits, d: Decoder, buf: bytes) returns (z: SizeLine, n: nat, rest: bytes)
    requires d.phase == AwaitSize && Drain(l, d, buf).stop == Failed(BodyTooLarge)
    ensures buf == Line(SizeText(z)) + rest && Sizes(z, n) && ShortLine(z) && n <= U64_MAX
    ensures d.decoded + n <= l.maxBodyBytes ==>
              var d' := if n == 0 then d.(phase := AwaitTrailers)
                        else d.(phase := AwaitData, remaining := n);
              Drain(l, d, buf) == Drain(l, d', rest)
  {
    SizeTurnMet(l, d, buf);
    hide FindLine, ParseChunkSize, Drain;
    DrainMoved(l, d, buf);
    var k := FindLine(buf, MAX_SIZE_LINE, MissingCrlf).value.value;
    FoundLine(buf, MAX_SIZE_LINE, MissingCrlf, k);
    n := ParseChunkSize(buf[..k]).value;
    z := SizeLineParsed(buf[..k], n);
    rest := buf[k + 2..];
  }

  lemma SizeTurnMet(l: Limits, d: Decoder, buf: bytes)
    requires d.phase == AwaitSize && Drain(l, d, buf).stop == Failed(BodyTooLarge)
    ensures Next(l, d, buf) == SizeTurn(l, d, buf)
    ensures SizeTurn(l, d, buf).Moved? || (SizeTurn(l, d, buf).Refused? && SizeTurn(l, d, buf).error == BodyTooLarge)
    ensures FindLine(buf, MAX_SIZE_LINE, MissingCrlf).Ok? && FindLine(buf, MAX_SIZE_LINE, MissingCrlf).value.Some?
    ensures ParseChunkSize(buf[..FindLine(buf, MAX_SIZE_LINE, MissingCrlf).value.value]).Ok?
  {
    SizeErrors(buf);
    hide FindLine, ParseChunkSize;
  }

  /** No size line is too large of itself. */
  lemma SizeErrors(buf: bytes)
    ensures FindLine(buf, MAX_SIZE_LINE, MissingCrlf).Err? ==> FindLine(buf, MAX_SIZE_LINE, MissingCrlf).error == MissingCrlf
    ensures forall line :: ParseChunkSize(line).Err? ==> ParseChunkSize(line).error != BodyTooLarge
  {
    hide Accepts, Value;
  }

  /** Nor is anything behind the last chunk. */
  lemma {:induction false} TrailersAreNotTooLarge(l: Limits, d: Decoder, buf: bytes)
    requires d.phase == AwaitTrailers || d.phase == Ending || d.phase == Done
    ensures Drain(l, d, buf).stop != Failed(BodyTooLarge)
    decreases |buf|, d.phase == AwaitTrailers
  {
    TrailerTurnErrors(l, d, buf);
    var t := Next(l, d, buf);
    if t.Moved? || (t.Produced? && !t.event.End?) {
      TrailersAreNotTooLarge(l, t.dec, buf[t.used..]);
    }
    hide Next;
  }

  lemma TrailerTurnErrors(l: Limits, d: Decoder, buf: bytes)
    requires d.phase == AwaitTrailers || d.phase == Ending || d.phase == Done
    ensures var t := Next(l, d, buf);
            && (t.Refused? ==> t.error != BodyTooLarge)
            && (t.Moved? || (t.Produced? && !t.event.End?) ==>
                  (t.dec.phase == AwaitTrailers || t.dec.phase == Ending) && t.used >= 2)
            && (t.Produced? ==> !t.event.Data?)
  {
    hide Intern, TrimOws, IsToken, NoCtl, ForbiddenInTrailers;
  }

  lemma {:induction false} TooLargeFound(l: Limits, d: Decoder, buf: bytes)
    returns (cs: seq<Chunk>, z: SizeLine, n: nat, rest: bytes)
    requires d.phase == AwaitSize && d.remaining == 0 && d.decoded <= l.maxBodyBytes
    requires Drain(l, d, buf).stop == Failed(BodyTooLarge)
    ensures Exceeds(l, d.decoded, buf, cs, z, n, rest)
    decreases |buf|
  {
    hide Drain, Next, Sizes, SizeText, ShortLine, AreChunks, ChunksFit, ChunksText, DataOf, ChunkCodec.AfterBody;
    var after;
    z, n, after := SizeLineMet(l, d, buf);
    if d.decoded + n > l.maxBodyBytes {
      cs, rest := [], after;
      NoChunks(d, buf);
    } else {
      if n == 0 {
        TrailersAreNotTooLarge(l, d.(phase := AwaitTrailers), after);
        assert false;
      }
      var data, next := DataFound(l, d.(phase := AwaitData, remaining := n), after);
      SizeAwaitedAgain(d, n);
      var first := Chunk(z, data);
      var ds;
      ds, z, n, rest := TooLargeFound(l, ChunkCodec.AfterBody(d, |data|), next);
      ChunkPrepended(first, ds);
      cs := [first] + ds;
      Regrouped(Line(SizeText(first.size)), Line(data), ChunksText(ds), Line(SizeText(z)) + rest);
    }
  }

  lemma TooLargeRefused(l: Limits, buf: bytes, cs: seq<Chunk>, z: SizeLine, n: nat, rest: bytes)
    requires Exceeds(l, 0, buf, cs, z, n, rest)
    ensures Drain(l, FRESH, buf).stop == Failed(BodyTooLarge)
  {
    var line := Line(SizeText(z)) + rest;
    var d := ChunkCodec.AfterBody(FRESH, |DataOf(cs)|);
    SizeAwaitedAgain(FRESH, |DataOf(cs)|);
    SizeLineParses(z, n);
    SizeUnbroken(z, n);
    LineHasNoLf(SizeText(z), rest);
    hide Drain, ParseChunkSize, Sizes, SizeText;
    ChunksRead(l, FRESH, cs, line);
    DrainMoved(l, d, line);
  }

  /** Main result. A body is refused for its size exactly when the stream starts with chunks
      within the limit and then announces a chunk past it, whatever follows. */
  lemma TooLargeIff(l: Limits, stream: bytes)
    ensures Drain(l, FRESH, stream).stop == Failed(BodyTooLarge) <==>
              exists cs, z, n, rest :: Exceeds(l, 0, stream, cs, z, n, rest)
  {
    hide Drain, Exceeds;
    if Drain(l, FRESH, stream).stop == Failed(BodyTooLarge) {
      var cs, z, n, rest := TooLargeFound(l, FRESH, stream);
    }
    forall cs, z, n, rest | Exceeds(l, 0, stream, cs, z, n, rest)
      ensures Drain(l, FRESH, stream).stop == Failed(BodyTooLarge)
    {
      TooLargeRefused(l, stream, cs, z, n, rest);
    }
  }
}
