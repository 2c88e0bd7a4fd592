/** The chunk writer (`write_chunk`, `write_last_chunk`) against the chunk decoder. */
module ChunkCodec {
  import opened Octets
  import opened Numerals
  import opened Headers
  import opened FieldLines
  import opened Chunked
  import opened ChunkedSplit

  // ---- The writer --------------------------------------------------------------------

  function ChunkBytes(data: bytes): bytes { Line(Numeral(16, |data|)) + Line(data) }

  function ChunksBytes(cs: seq<bytes>): bytes {
    if cs == [] then [] else ChunkBytes(cs[0]) + ChunksBytes(cs[1..])
  }

  predicate Sendable(f: Field) { !ForbiddenInTrailers(Canonical(f.id)) && Writable(f) }

  /** A trailer field is sent exactly when it can be written and its name, however built, is
      not one that may not stand in a trailer section. */
  lemma SendableIff(f: Field)
    ensures Sendable(f) <==> Writable(f) && !BarredName(AsStr(f.id))
  {
    ForbiddenIff(AsStr(f.id));
    SameBar(f.id);
    hide Writable, ForbiddenInTrailers, BarredName, Canonical, Intern;
  }

  lemma SameBar(id: HeaderId)
    ensures ForbiddenInTrailers(Canonical(id)) <==> ForbiddenInTrailers(Intern(AsStr(id)))
  {
    if id.Known? {
      KnownName(id.which);
      LowerTcharLowers(NameOf(id.which));
    }
    hide NameOf, LookUp;
  }

  /** The trailer fields that reach the wire. */
  function Sent(ts: seq<Field>): (r: seq<Field>)
    ensures forall i :: 0 <= i < |r| ==> Sendable(r[i])
  {
    if ts == [] then [] else (if Sendable(ts[0]) then [ts[0]] else []) + Sent(ts[1..])
  }

  function LastChunkBytes(ts: seq<Field>): bytes { Line("0") + (FieldLinesOf(Sent(ts)) + "\r\n") }

  method WriteChunk(out: bytes, data: bytes) returns (r: bytes)
    requires |data| <= U64_MAX
    ensures r == out + ChunkBytes(data)
  {
    r := WriteHex(out, |data|);
    r := r + "\r\n" + data + "\r\n";
    assert r == out + (Line(Numeral(16, |data|)) + Line(data));
  }

  method WriteLastChunk(out: bytes, ts: seq<Field>) returns (r: bytes)
    ensures r == out + LastChunkBytes(ts)
  {
    r := out + "0\r\n";
    ghost var head := r;
    assert r == head + FieldLinesOf(Sent(ts[..0]));
    for i := 0 to |ts|
      invariant r == head + FieldLinesOf(Sent(ts[..i]))
    {
      hide *;
      var f := ts[i];
      SentSnoc(head, ts, i);
      if !ForbiddenInTrailers(Canonical(f.id)) && Writable(f) {
        r := r + Line(FieldContent(f));
      }
    }
    assert ts[..|ts|] == ts;
    r := r + "\r\n";
    LastChunkShape(out, ts);
  }

  lemma LastChunkShape(out: bytes, ts: seq<Field>)
    ensures out + "0\r\n" + FieldLinesOf(Sent(ts)) + "\r\n" == out + LastChunkBytes(ts)
  {
    hide FieldLinesOf, Sent;
    var x := FieldLinesOf(Sent(ts));
    Assoc(out + "0\r\n", x, "\r\n");
    Assoc(out, "0\r\n", x + "\r\n");
  }

  lemma {:induction false} SentAppend(a: seq<Field>, b: seq<Field>)
    ensures Sent(a + b) == Sent(a) + Sent(b)
  {
    if a == [] {
      assert a + b == b;
    } else {
      SentAppend(a[1..], b);
      assert (a + b)[0] == a[0] && (a + b)[1..] == a[1..] + b;
      Assoc(if Sendable(a[0]) then [a[0]] else [], Sent(a[1..]), Sent(b));
    }
  }

  lemma SentSnoc(head: bytes, ts: seq<Field>, i: nat)
    requires i < |ts|
    ensures var f := ts[i]; var before := head + FieldLinesOf(Sent(ts[..i]));
            head + FieldLinesOf(Sent(ts[..i + 1])) ==
              if !ForbiddenInTrailers(Canonical(f.id)) && Writable(f)
              then before + Line(FieldContent(f)) else before
  {
    hide FieldContent, Canonical, ForbiddenInTrailers, Writable;
    var f := ts[i];
    assert ts[..i + 1] == ts[..i] + [f];
    SentAppend(ts[..i], [f]);
    var before := Sent(ts[..i]);
    if Sendable(f) {
      assert Sent([f]) == [f];
      FieldLinesAppend(before, [f]);
      OneLine(f);
      Assoc(head, FieldLinesOf(before), Line(FieldContent(f)));
    } else {
      assert before + [] == before;
    }
  }

  // ---- The budget -----------------------------------------------------------------------

  /** Octets delivered and octets promised never exceed the body limit together. */
  predicate Bounded(l: Limits, d: Decoder) {
    && d.decoded + d.remaining <= l.maxBodyBytes
    && (d.phase != AwaitData ==> d.remaining == 0)
  }

  lemma {:induction false} PollStaysBounded(l: Limits, d: Decoder, buf: bytes)
    requires Bounded(l, d)
    ensures Bounded(l, PollOnce(l, d, buf).dec)
    decreases |buf|
  {
    TurnStaysBounded(l, d, buf);
    hide Next;
    var t := Next(l, d, buf);
    if t.Moved? {
      PollStaysBounded(l, t.dec, buf[t.used..]);
    }
  }

  lemma TurnStaysBounded(l: Limits, d: Decoder, buf: bytes)
    requires Bounded(l, d)
    ensures var t := Next(l, d, buf); !t.Starved? ==> Bounded(l, t.dec)
  {
  }

  // ---- One chunk ---------------------------------------------------------------------------

  lemma NumeralLine(n: nat)
    requires n <= U64_MAX
    ensures var s := Numeral(16, n);
            && All(s, NotBreak) && 0 < |s| <= 16
            && ParseChunkSize(s) == Ok(n)
  {
    var s := Numeral(16, n);
    NumeralValue(16, n);
    Pow16Of16();
    NumeralLength(n, 16);
    assert forall i :: 0 <= i < |s| ==> DigitOf(16, s[i]);
    assert s + [] == s;
    SpanIs(s, [], IsHexDigit);
    assert s[..|s|] == s;
  }

  lemma {:induction false} NumeralLength(n: nat, k: nat)
    requires n < Pow(16, k) && k > 0
    ensures |Numeral(16, n)| <= k
  {
    if n >= 16 {
      assert k > 1 by {
        assert Pow(16, 1) == 16 * Pow(16, 0) == 16;
      }
      NumeralLength(n / 16, k - 1);
    }
  }

  lemma SizeLine(l: Limits, d: Decoder, n: nat, x: bytes)
    requires d.phase == AwaitSize && n <= U64_MAX
    ensures var buf := Line(Numeral(16, n)) + x;
            var t := Next(l, d, buf);
            if d.decoded + n > l.maxBodyBytes then t.Refused?
            else
              && t.Moved? && buf[t.used..] == x
              && t.dec == if n == 0 then d.(phase := AwaitTrailers)
                          else d.(phase := AwaitData, remaining := n)
  {
    hide ParseChunkSize;
    NumeralLine(n);
    LineHasNoLf(Numeral(16, n), x);
  }

  lemma ChunkData(l: Limits, d: Decoder, data: bytes, x: bytes)
    requires d.phase == AwaitData && d.remaining == |data| > 0
    ensures Drain(l, d, Line(data) + x)
            == Before(data, [], Drain(l, d.(phase := AwaitSize, remaining := 0,
                                            decoded := d.decoded + |data|), x))
  {
    hide Drain;
    var buf := Line(data) + x;
    var d1 := d.(phase := AwaitDataCrlf, remaining := 0, decoded := d.decoded + |data|);
    DataThenCrlf(l, d, d1, data, x);
    DrainData(l, d, buf);
    DrainMoved(l, d1, "\r\n" + x);
  }

  lemma DataThenCrlf(l: Limits, d: Decoder, d1: Decoder, data: bytes, x: bytes)
    requires d.phase == AwaitData && d.remaining == |data| > 0
    requires d1 == d.(phase := AwaitDataCrlf, remaining := 0, decoded := d.decoded + |data|)
    ensures Next(l, d, Line(data) + x) == Produced(Data(data), d1, |data|)
    ensures (Line(data) + x)[|data|..] == "\r\n" + x
    ensures Next(l, d1, "\r\n" + x) == Moved(d1.(phase := AwaitSize), 2)
    ensures ("\r\n" + x)[2..] == x
  {
    var buf := Line(data) + x;
    var crlf := "\r\n" + x;
    assert buf == data + crlf;
    assert buf[..|data|] == data;
    assert crlf[0] == '\r' && crlf[1] == '\n';
  }

  function AfterBody(d: Decoder, n: nat): Decoder { d.(decoded := d.decoded + n, remaining := 0) }

  lemma DrainChunk(l: Limits, d: Decoder, data: bytes, x: bytes)
    requires d.phase == AwaitSize && data != [] && |data| <= U64_MAX
    ensures if d.decoded + |data| > l.maxBodyBytes then Drain(l, d, ChunkBytes(data) + x).stop.Failed?
            else Drain(l, d, ChunkBytes(data) + x) == Before(data, [], Drain(l, AfterBody(d, |data|), x))
  {
    hide Next, Drain;
    SizeLine(l, d, |data|, Line(data) + x);
    Assoc(Line(Numeral(16, |data|)), Line(data), x);
    DrainMoved(l, d, ChunkBytes(data) + x);
    if d.decoded + |data| <= l.maxBodyBytes {
      ChunkData(l, d.(phase := AwaitData, remaining := |data|), data, x);
    }
  }

  predicate AllNonEmpty(cs: seq<bytes>) { forall i :: 0 <= i < |cs| ==> cs[i] != [] }

  predicate Addressable(cs: seq<bytes>) { forall i :: 0 <= i < |cs| ==> |cs[i]| <= U64_MAX }

  lemma {:induction false} DrainChunks(l: Limits, d: Decoder, cs: seq<bytes>, x: bytes)
    requires d.phase == AwaitSize && d.remaining == 0 && d.decoded <= l.maxBodyBytes
    requires AllNonEmpty(cs) && Addressable(cs)
    decreases |cs|
    ensures if d.decoded + |Concat(cs)| > l.maxBodyBytes then Drain(l, d, ChunksBytes(cs) + x).stop.Failed?
            else Drain(l, d, ChunksBytes(cs) + x)
                 == Before(Concat(cs), [], Drain(l, AfterBody(d, |Concat(cs)|), x))
  {
    hide Drain;
    if cs == [] {
      assert [] + x == x;
      BeforeNothing(Drain(l, d, x));
    } else {
      var rest := ChunksBytes(cs[1..]) + x;
      Assoc(ChunkBytes(cs[0]), ChunksBytes(cs[1..]), x);
      DrainChunk(l, d, cs[0], rest);
      var d' := AfterBody(d, |cs[0]|);
      if d'.decoded <= l.maxBodyBytes {
        DrainChunks(l, d', cs[1..], x);
        assert |Concat(cs)| == |cs[0]| + |Concat(cs[1..])|;
        if d.decoded + |Concat(cs)| <= l.maxBodyBytes {
          BeforeBefore(cs[0], [], Concat(cs[1..]), [], Drain(l, AfterBody(d, |Concat(cs)|), x));
        }
      }
    }
  }

  // ---- The trailer section ---------------------------------------------------------------

  predicate NoneHasCtl(fs: seq<Field>) {
    forall i :: 0 <= i < |fs| ==> NoCtl(TrimOws(fs[i].value))
  }

  /** A trailer section stays within what a decoder in state `d` still accepts. */
  predicate Fits(l: Limits, d: Decoder, fs: seq<Field>) {
    && d.trailerBytes + |FieldLinesOf(fs)| + 2 <= l.maxHeadBytes
    && |d.trailers| + |fs| <= l.maxHeaders
    && NoneHasCtl(fs)
  }

  lemma PushWritten(l: Limits, d: Decoder, f: Field)
    requires Sendable(f)
    ensures PushTrailer(l.maxHeaders, d.trailers, FieldContent(f)) ==
            if |d.trailers| < l.maxHeaders && NoCtl(TrimOws(f.value))
            then Ok(d.trailers + [Received(f)]) else Err(BadTrailer)
  {
    ContentOfWritable(f);
    CanonicalReadsBack(f.id);
    ForbiddenReadsBack(f.id);
    hide Intern, AsStr, FieldContent, Canonical, TrimOws, NoCtl;
  }

  lemma ForbiddenReadsBack(id: HeaderId)
    ensures ForbiddenInTrailers(Intern(AsStr(id))) <==> ForbiddenInTrailers(Canonical(id))
  {
    CanonicalReadsBack(id);
  }

  lemma TrailerLineTurn(l: Limits, d: Decoder, f: Field, x: bytes)
    requires d.phase == AwaitTrailers && Sendable(f)
    ensures var c := FieldContent(f); var buf := Line(c) + x; var t := Next(l, d, buf);
            if d.trailerBytes + |c| + 2 <= l.maxHeadBytes && |d.trailers| < l.maxHeaders &&
               NoCtl(TrimOws(f.value))
            then t == Moved(d.(trailerBytes := d.trailerBytes + |c| + 2,
                               trailers := d.trailers + [Received(f)]), |c| + 2) &&
                 buf[|c| + 2..] == x
            else t.Refused?
  {
    hide FieldContent, AsStr, Canonical, PushTrailer, Next, Received, TrimOws, NoCtl;
    ContentOfWritable(f);
    PushWritten(l, d, f);
    ContentTurn(l, d, FieldContent(f), x);
  }

  lemma ContentTurn(l: Limits, d: Decoder, c: bytes, x: bytes)
    requires d.phase == AwaitTrailers && c != [] && All(c, NotBreak)
    ensures var buf := Line(c) + x; var t := Next(l, d, buf);
            var pushed := PushTrailer(l.maxHeaders, d.trailers, c);
            if d.trailerBytes + |c| + 2 <= l.maxHeadBytes && pushed.Ok?
            then t == Moved(d.(trailerBytes := d.trailerBytes + |c| + 2, trailers := pushed.value),
                            |c| + 2) &&
                 buf[|c| + 2..] == x
            else t.Refused?
  {
    hide PushTrailer;
    LineHasNoLf(c, x);
  }

  lemma EndOfTrailers(l: Limits, d: Decoder, tail: bytes)
    requires d.phase == AwaitTrailers
    ensures var r := Drain(l, d, "\r\n" + tail);
            if d.trailerBytes + 2 <= l.maxHeadBytes then r == Drained([], d.trailers, Ended(tail))
            else r.stop.Failed?
  {
    LineHasNoLf("", tail);
    var buf := "\r\n" + tail;
    assert Line("") + tail == buf;
    var d' := d.(trailerBytes := d.trailerBytes + 2, phase := Phase.Ending, trailers := []);
    if d.trailerBytes + 2 <= l.maxHeadBytes {
      var t := Next(l, d, buf);
      assert t.dec == d' && t.used == 2;
      assert Drain(l, d', tail) == Drained([], [], Ended(tail));
    }
  }

  lemma {:induction false} DrainTrailers(l: Limits, d: Decoder, fs: seq<Field>, tail: bytes)
    requires d.phase == AwaitTrailers
    requires forall i :: 0 <= i < |fs| ==> Sendable(fs[i])
    ensures var r := Drain(l, d, FieldLinesOf(fs) + ("\r\n" + tail));
            if Fits(l, d, fs) then r == Drained([], d.trailers + ReceivedAll(fs), Ended(tail))
            else r.stop.Failed? || |d.trailers| > l.maxHeaders
    decreases |fs|
  {
    var end := "\r\n" + tail;
    if fs == [] {
      EndOfTrailers(l, d, tail);
      hide Drain;
      assert FieldLinesOf(fs) + end == end;
      assert d.trailers + ReceivedAll(fs) == d.trailers;
    } else {
      var f, rest := fs[0], fs[1..];
      var x := FieldLinesOf(rest) + end;
      TrailerLineTurn(l, d, f, x);
      Assoc(Line(FieldContent(f)), FieldLinesOf(rest), end);
      hide Next, FieldContent, Received, Fits, Drain;
      DrainMoved(l, d, Line(FieldContent(f)) + x);
      var n := |FieldContent(f)| + 2;
      var t := Next(l, d, Line(FieldContent(f)) + x);
      if t.Moved? {
        FitsStep(l, d, t.dec, fs, n);
        DrainTrailers(l, t.dec, rest, tail);
        Assoc(d.trailers, [Received(f)], ReceivedAll(rest));
      }
    }
  }

  lemma FitsStep(l: Limits, d: Decoder, d': Decoder, fs: seq<Field>, n: nat)
    requires fs != [] && n == |Line(FieldContent(fs[0]))|
    requires d'.trailerBytes == d.trailerBytes + n && |d'.trailers| == |d.trailers| + 1
    requires NoCtl(TrimOws(fs[0].value))
    ensures Fits(l, d, fs) <==> Fits(l, d', fs[1..])
  {
    hide FieldContent, NoCtl, TrimOws;
    assert forall i :: 1 <= i < |fs| ==> fs[i] == fs[1..][i - 1];
  }

  // ---- Main results ------------------------------------------------------------------------

  /** A message body as the connection writes it, followed by whatever comes next. */
  function Encoded(cs: seq<bytes>, ts: seq<Field>, tail: bytes): bytes {
    ChunksBytes(cs) + (LastChunkBytes(ts) + tail)
  }

  lemma DrainLastChunk(l: Limits, d: Decoder, ts: seq<Field>, tail: bytes)
    requires d.phase == AwaitSize && d.trailerBytes == 0 && d.trailers == []
    requires d.decoded <= l.maxBodyBytes
    ensures var r := Drain(l, d, LastChunkBytes(ts) + tail);
            if Fits(l, FRESH, Sent(ts)) then r == Drained([], ReceivedAll(Sent(ts)), Ended(tail))
            else r.stop.Failed?
  {
    var fs := Sent(ts);
    var x := FieldLinesOf(fs) + ("\r\n" + tail);
    assert Numeral(16, 0) == "0";
    hide Next, Drain, FieldLinesOf;
    SizeLine(l, d, 0, x);
    DrainMoved(l, d, Line("0") + x);
    Assoc(Line("0"), FieldLinesOf(fs) + "\r\n", tail);
    Assoc(FieldLinesOf(fs), "\r\n", tail);
    DrainTrailers(l, d.(phase := AwaitTrailers), fs, tail);
    assert [] + ReceivedAll(fs) == ReceivedAll(fs);
  }

  /** An empty chunk is a last chunk without trailers. */
  lemma EmptyChunkEnds()
    ensures ChunkBytes([]) == LastChunkBytes([])
  {
    assert Numeral(16, 0) == "0";
  }

  /** Octets that follow the encoding of a body at its first empty chunk outnumber
      those that follow the whole of it. */
  lemma {:induction false} EarlyEnd(l: Limits, d: Decoder, cs: seq<bytes>, ts: seq<Field>, tail: bytes)
    requires d.phase == AwaitSize && d.remaining == 0 && d.decoded <= l.maxBodyBytes
    requires d.trailerBytes == 0 && d.trailers == []
    requires !AllNonEmpty(cs) && Addressable(cs)
    decreases |cs|
    ensures var r := Drain(l, d, Encoded(cs, ts, tail));
            r.stop.Failed? || (r.stop.Ended? && |r.stop.rest| > |tail|)
  {
    hide Drain;
    var rest := Encoded(cs[1..], ts, tail);
    Assoc(ChunkBytes(cs[0]), ChunksBytes(cs[1..]), LastChunkBytes(ts) + tail);
    if cs[0] == [] {
      EmptyChunkEnds();
      DrainLastChunk(l, d, [], rest);
    } else {
      assert !AllNonEmpty(cs[1..]) by {
        assert forall i :: 1 <= i < |cs| ==> cs[i] == cs[1..][i - 1];
      }
      DrainChunk(l, d, cs[0], rest);
      var d' := AfterBody(d, |cs[0]|);
      if d'.decoded <= l.maxBodyBytes {
        EarlyEnd(l, d', cs[1..], ts, tail);
      }
    }
  }

  /** Main result. Decoding what the writer produced yields the concatenated chunks and
      the fields it sent, and leaves what follows untouched, exactly when no chunk is
      empty, the body is within its limit, and the trailer section is within the
      decoder's limits and free of control octets. */
  lemma RoundTrip(l: Limits, cs: seq<bytes>, ts: seq<Field>, tail: bytes)
    requires Addressable(cs)
    ensures Whole(l, FRESH, Encoded(cs, ts, tail))
              == Outcome(Concat(cs), ReceivedAll(Sent(ts)), Complete(tail))
            <==>
            AllNonEmpty(cs) && |Concat(cs)| <= l.maxBodyBytes && Fits(l, FRESH, Sent(ts))
  {
    hide Next, Drain, AllNonEmpty, Addressable, Fits, ChunksBytes, LastChunkBytes;
    assert tail + [] == tail;
    if !AllNonEmpty(cs) {
      EarlyEnd(l, FRESH, cs, ts, tail);
    } else {
      DrainChunks(l, FRESH, cs, LastChunkBytes(ts) + tail);
      if |Concat(cs)| <= l.maxBodyBytes {
        DrainLastChunk(l, AfterBody(FRESH, |Concat(cs)|), ts, tail);
        assert Concat(cs) + [] == Concat(cs);
        assert [] + ReceivedAll(Sent(ts)) == ReceivedAll(Sent(ts));
      }
    }
  }

  /** A control octet in a trailer value, which the writer lets through and the decoder
      does not. */
  lemma TrailerRefusalExhibited(l: Limits)
    ensures var ts := [Field(Other("x"), "\U{1}")];
            Sent(ts) == ts && Whole(l, FRESH, Encoded([], ts, [])).end == Error
  {
    var f := Field(Other("x"), "\U{1}");
    var ts := [f];
    ControlIsWritten(f);
    assert Sent(ts) == [f] + Sent(ts[1..]);
    assert !NoneHasCtl(ts) by {
      assert !NoCtl(TrimOws(ts[0].value));
    }
    hide Drain;
    DrainLastChunk(l, FRESH, ts, []);
    assert [] + (LastChunkBytes(ts) + []) == LastChunkBytes(ts) + [];
  }

  lemma ControlIsWritten(f: Field)
    requires f == Field(Other("x"), "\U{1}")
    ensures Sendable(f) && !NoCtl(TrimOws(f.value))
  {
    ControlStays();
    hide TrimOws;
    assert Lower("x") == "x";
    assert Canonical(f.id) == f.id;
    assert IsCtl(TrimOws(f.value)[0]);
  }

  lemma ControlStays()
    ensures TrimOws("\U{1}") == "\U{1}"
  {
    var v := "\U{1}";
    hide TrimOws;
    TrimPadded([], v, []);
    assert [] + v + [] == v;
  }
}
