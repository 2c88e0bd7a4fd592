/** The incremental chunked-body decoder (`src/chunked.rs`). */
module Chunked {
  import opened Octets
  import opened Numerals
  import opened Spelling
  import opened Headers
  import opened ChunkExt

  const MAX_SIZE_DIGITS := 16

  /** The longest chunk-size line content accepted. */
  const MAX_SIZE_LINE: nat := MAX_SIZE_DIGITS + 256

  datatype Limits = Limits(maxHeadBytes: nat, maxHeaders: nat, maxBodyBytes: nat)

  datatype ChunkedError =
    | BadSize | SizeOverflow | MissingCrlf | BodyTooLarge
    | BadTrailer | ForbiddenTrailer | BadExtension | TrailerTooLarge

  datatype Event = Data(data: bytes) | TrailerSection(fields: seq<Field>) | End

  datatype Phase = AwaitSize | AwaitData | AwaitDataCrlf | AwaitTrailers | Ending | Done

  /** The decoder's fields. No trailer field and no trailer list are the same thing:
      the list is only ever allocated to take its first field. */
  datatype Decoder = Decoder(
    phase: Phase, remaining: nat, decoded: nat, trailerBytes: nat, trailers: seq<Field>)

  const FRESH := Decoder(AwaitSize, 0, 0, 0, [])

  // ---- Lines -----------------------------------------------------------------------

  /** The content length of the CRLF-terminated line at the front of `buf`. */
  function FindLine(buf: bytes, max: nat, tooLong: ChunkedError)
    : (r: Result<Option<nat>, ChunkedError>)
    ensures r.Ok? && r.value.Some? ==>
              && r.value.value <= max && r.value.value + 2 <= |buf|
              && r.value.value + 1 == IndexOf(buf, '\n')
              && buf[r.value.value] == '\r'
  {
    var i := IndexOf(buf, '\n');
    if i == |buf| then if |buf| > max then Err(tooLong) else Ok(None)
    else if i == 0 || buf[i - 1] != '\r' then Err(MissingCrlf)
    else if i - 1 > max then Err(tooLong)
    else Ok(Some(i - 1))
  }

  /** The first line of `buf` ends in CRLF after `n` octets of content, at most `max`. */
  predicate LineAt(buf: bytes, max: nat, n: nat) {
    && n <= max && n + 2 <= |buf| && buf[n] == '\r' && buf[n + 1] == '\n'
    && forall j :: 0 <= j < n ==> buf[j] != '\n'
  }

  /** A line is found where one is; more input is asked for only while a line can still
      fit; and a refusal says whether the first LF lacks its CR or the line is too long. */
  lemma LineVerdict(buf: bytes, max: nat, tooLong: ChunkedError, n: nat)
    ensures var r := FindLine(buf, max, tooLong);
            && (r == Ok(Some(n)) <==> LineAt(buf, max, n))
            && (r == Ok(None) <==> '\n' !in buf && |buf| <= max)
            && (r.Err? && '\n' !in buf ==> r.error == tooLong)
            && (r.Err? && n < |buf| && buf[n] == '\n' && '\n' !in buf[..n] ==>
                  r.error == if n > 0 && buf[n - 1] == '\r' then tooLong else MissingCrlf)
  {
    var i := IndexOf(buf, '\n');
    assert i < |buf| ==> '\n' in buf;
    if n < i {
      assert buf[n] != '\n';
    } else if i < n < |buf| {
      assert buf[..n][i] == '\n';
    }
  }

  function ParseChunkSize(line: bytes): Result<nat, ChunkedError> {
    var n := Span(line, IsHexDigit);
    var ext := line[n..];
    if n == 0 || (ext != [] && ext[0] != ';' && !IsWs(ext[0])) then Err(BadSize)
    else if ext != [] && !Accepts(ext) then Err(BadExtension)
    else if Value(16, line[..n]) > U64_MAX then Err(SizeOverflow)
    else Ok(Value(16, line[..n]))
  }

  /** The case of a size's digits changes nothing of what is read. */
  lemma SizeCaseIgnored(s: bytes, t: bytes, ext: bytes)
    requires Spells(s, t) && Digits(16, s) && (ext == [] || !IsHexDigit(ext[0]))
    ensures ParseChunkSize(s + ext) == ParseChunkSize(t + ext)
  {
    SameValue(s, t);
    hide Spells, Value, Accepts;
    SpanIs(s, ext, IsHexDigit);
    SpanIs(t, ext, IsHexDigit);
    assert (s + ext)[|s|..] == ext && (t + ext)[|t|..] == ext;
    assert (s + ext)[..|s|] == s && (t + ext)[..|t|] == t;
    assert |s| == |t| by {
      SameLength(s, t);
    }
  }

  lemma SameLength(s: bytes, t: bytes)
    requires Spells(s, t)
    ensures |s| == |t|
  {
  }

  predicate IsCtl(b: byte) { (b < ' ' && b != '\t') || b == '\U{7f}' }

  predicate NoCtl(s: bytes) { forall i :: 0 <= i < |s| ==> !IsCtl(s[i]) }

  /** One trailer line appended to the fields so far. A name ending in whitespace is
      not a token, so the separate test the code makes for it adds nothing here. */
  function PushTrailer(maxTrailers: nat, trailers: seq<Field>, line: bytes)
    : Result<seq<Field>, ChunkedError>
  {
    var colon := IndexOf(line, ':');
    if line != [] && IsWs(line[0]) then Err(BadTrailer)
    else if |trailers| >= maxTrailers then Err(BadTrailer)
    else if colon == |line| || !IsToken(line[..colon]) then Err(BadTrailer)
    else if ForbiddenInTrailers(Intern(line[..colon])) then Err(ForbiddenTrailer)
    else if !NoCtl(TrimOws(line[colon + 1..])) then Err(BadTrailer)
    else Ok(trailers + [Field(Intern(line[..colon]), TrimOws(line[colon + 1..]))])
  }

  // ---- One turn of the decoder's loop ------------------------------------------------

  datatype Turn =
    | Starved
    | Refused(error: ChunkedError, dec: Decoder, used: nat)
    | Moved(dec: Decoder, used: nat)
    | Produced(event: Event, dec: Decoder, used: nat)

  function SizeTurn(l: Limits, d: Decoder, buf: bytes): (t: Turn) {
    match FindLine(buf, MAX_SIZE_LINE, MissingCrlf)
    case Err(e) => Refused(e, d, 0)
    case Ok(None) => Starved
    case Ok(Some(n)) =>
      match ParseChunkSize(buf[..n])
      case Err(e) => Refused(e, d, 0)
      case Ok(size) =>
        if d.decoded + size > l.maxBodyBytes then Refused(BodyTooLarge, d, n + 2)
        else if size == 0 then Moved(d.(phase := AwaitTrailers), n + 2)
        else Moved(d.(phase := AwaitData, remaining := size), n + 2)
  }

  function DataTurn(d: Decoder, buf: bytes): Turn {
    if buf == [] then Starved
    else
      var take := Min(|buf|, d.remaining);
      var left := d.remaining - take;
      Produced(Data(buf[..take]),
               d.(remaining := left, decoded := d.decoded + take,
                  phase := if left == 0 then AwaitDataCrlf else AwaitData),
               take)
  }

  function DataCrlfTurn(d: Decoder, buf: bytes): Turn {
    if |buf| < 2 then Starved
    else if buf[0] != '\r' || buf[1] != '\n' then Refused(MissingCrlf, d, 0)
    else Moved(d.(phase := AwaitSize), 2)
  }

  function TrailerTurn(l: Limits, d: Decoder, buf: bytes): Turn {
    match FindLine(buf, l.maxHeadBytes, TrailerTooLarge)
    case Err(e) => Refused(e, d, 0)
    case Ok(None) => Starved
    case Ok(Some(n)) =>
      var d' := d.(trailerBytes := d.trailerBytes + n + 2);
      if d'.trailerBytes > l.maxHeadBytes then Refused(TrailerTooLarge, d', 0)
      else if n == 0 then
        var ended := d'.(phase := Ending, trailers := []);
        if d.trailers == [] then Moved(ended, 2)
        else Produced(TrailerSection(d.trailers), ended, 2)
      else
        match PushTrailer(l.maxHeaders, d.trailers, buf[..n])
        case Err(e) => Refused(e, d', n + 2)
        case Ok(ts) => Moved(d'.(trailers := ts), n + 2)
  }

  function Next(l: Limits, d: Decoder, buf: bytes): (t: Turn)
    ensures !t.Starved? ==> t.used <= |buf|
    ensures t.Moved? ==> t.used >= 2
    ensures t.Produced? && t.used == 0 && !t.event.End? ==> t.dec.phase == AwaitDataCrlf && d.phase == AwaitData
  {
    match d.phase
    case Done => Produced(End, d, 0)
    case Ending => Produced(End, d.(phase := Done), 0)
    case AwaitSize => SizeTurn(l, d, buf)
    case AwaitData => DataTurn(d, buf)
    case AwaitDataCrlf => DataCrlfTurn(d, buf)
    case AwaitTrailers => TrailerTurn(l, d, buf)
  }

  /** Nothing empty is produced: no piece without data while some is owed, and no trailer
      section without a field. */
  lemma EventsAreFull(l: Limits, d: Decoder, buf: bytes)
    ensures var t := Next(l, d, buf);
            t.Produced? ==> match t.event
                            case Data(x) => d.remaining > 0 ==> x != []
                            case TrailerSection(ts) => ts != []
                            case End => true
  {
    hide FindLine, PushTrailer, ParseChunkSize;
  }

  type Answer = Result<Option<Event>, ChunkedError>

  /** Where a turn leaves the decoder and the buffer, and what `poll` answers if the
      turn was its last. */
  datatype Effect = Effect(dec: Decoder, rest: bytes, answer: Option<Answer>)

  function Apply(t: Turn, d: Decoder, buf: bytes): Effect
    requires !t.Starved? ==> t.used <= |buf|
  {
    match t
    case Starved => Effect(d, buf, Some(Ok(None)))
    case Refused(e, d', used) => Effect(d', buf[used..], Some(Err(e)))
    case Moved(d', used) => Effect(d', buf[used..], None)
    case Produced(ev, d', used) => Effect(d', buf[used..], Some(Ok(Some(ev))))
  }

  /** What one `poll` does: turns until one produces, refuses, or needs more input. */
  function PollOnce(l: Limits, d: Decoder, buf: bytes): (r: Effect)
    ensures r.answer.Some?
    decreases |buf|
  {
    var e := Apply(Next(l, d, buf), d, buf);
    if e.answer.Some? then e else PollOnce(l, e.dec, e.rest)
  }

  // ---- The code ------------------------------------------------------------------------

  lemma {:induction false} LeadingZeros(s: bytes, z: nat)
    requires Digits(16, s)
    requires z <= |s| && forall i :: 0 <= i < z ==> s[i] == '0'
    ensures Value(16, s) == Value(16, s[z..])
  {
    if s != [] {
      hide Value;
      var front, last := s[..|s| - 1], s[|s| - 1];
      ValueSnoc(16, front, last);
      assert front + [last] == s;
      if z == |s| {
        LeadingZeros(front, z - 1);
        assert front[z - 1..] == s[z..];
        NoDigits();
      } else {
        LeadingZeros(front, z);
        ValueSnoc(16, front[z..], last);
        assert front[z..] + [last] == s[z..];
      }
    }
  }

  lemma NoDigits()
    ensures Value(16, []) == 0
  {
  }

  lemma {:induction false} LongNumeral(s: bytes)
    requires IsNumeral(16, s) && s[0] != '0'
    ensures Value(16, s) >= Pow(16, |s| - 1)
  {
    if |s| == 1 {
      assert s[..0] == [];
    } else {
      LongNumeral(s[..|s| - 1]);
    }
  }

  lemma {:induction false} PowMonotone(k: nat, m: nat)
    requires k <= m
    ensures Pow(16, k) <= Pow(16, m)
  {
    if k < m {
      PowMonotone(k, m - 1);
    }
  }

  method ParseSizeLine(line: bytes) returns (r: Result<nat, ChunkedError>)
    ensures r == ParseChunkSize(line)
  {
    var n := Span(line, IsHexDigit);
    var digits, ext := line[..n], line[n..];
    if digits == [] || (ext != [] && ext[0] != ';' && !IsWs(ext[0])) {
      return Err(BadSize);
    }
    if ext != [] {
      var ok := CheckChunkExt(ext);
      AcceptsExactly(ext);
      if !ok {
        return Err(BadExtension);
      }
    }
    r := SizeOfDigits(digits);
  }

  /** Leading zeros carry no value, so only the digits after them are counted against
      the limit. */
  method SizeOfDigits(digits: bytes) returns (r: Result<nat, ChunkedError>)
    requires Digits(16, digits)
    ensures r == if Value(16, digits) > U64_MAX then Err(SizeOverflow) else Ok(Value(16, digits))
  {
    var z := Span(digits, b => b == '0');
    var significant := digits[z..];
    LeadingZeros(digits, z);
    if |significant| > MAX_SIZE_DIGITS {
      LongNumeral(significant);
      PowMonotone(16, |significant| - 1);
      Pow16Of16();
      return Err(SizeOverflow);
    }
    var size := SumDigits(significant);
    if size.None? {
      return Err(SizeOverflow);
    }
    r := Ok(size.value);
  }

  method SumDigits(s: bytes) returns (r: Option<nat>)
    requires Digits(16, s)
    ensures r == if Value(16, s) <= U64_MAX then Some(Value(16, s)) else None
  {
    var size := 0;
    for i := 0 to |s|
      invariant size == Value(16, s[..i]) <= U64_MAX
    {
      assert s[..i + 1][..i] == s[..i];
      size := size * 16 + DigitValue(s[i]);
      if size > U64_MAX {
        ValuePrefix(16, s, i + 1);
        return None;
      }
    }
    assert s[..|s|] == s;
    r := Some(size);
  }

  class ChunkedDecoder {
    const limits: Limits
    var phase: Phase
    var remaining: nat
    var decoded: nat
    var trailerBytes: nat
    var trailers: seq<Field>

    ghost function View(): Decoder
      reads this
    {
      Decoder(phase, remaining, decoded, trailerBytes, trailers)
    }

    constructor (limits: Limits)
      ensures this.limits == limits && View() == FRESH
    {
      this.limits := limits;
      phase, remaining, decoded, trailerBytes, trailers := AwaitSize, 0, 0, 0, [];
    }

    method Poll(buf: bytes) returns (rest: bytes, r: Answer)
      modifies this
      ensures Effect(View(), rest, Some(r)) == PollOnce(limits, old(View()), buf)
    {
      var answer: Option<Answer> := None;
      rest := buf;
      while answer.None?
        invariant answer.None? ==>
            PollOnce(limits, View(), rest) == PollOnce(limits, old(View()), buf)
        invariant answer.Some? ==>
            Effect(View(), rest, answer) == PollOnce(limits, old(View()), buf)
        decreases answer.None?, |rest|
      {
        rest, answer := PollTurn(rest);
      }
      r := answer.value;
    }

    /** The body of the loop: one arm per phase. */
    method PollTurn(buf: bytes) returns (rest: bytes, answer: Option<Answer>)
      modifies this
      ensures Effect(View(), rest, answer)
              == Apply(Next(limits, old(View()), buf), old(View()), buf)
      ensures answer.None? ==> |rest| < |buf|
    {
      rest, answer := buf, None;
      match phase
      case Done =>
        answer := Some(Ok(Some(End)));
      case Ending =>
        phase := Done;
        answer := Some(Ok(Some(End)));
      case AwaitSize =>
        rest, answer := PollSize(buf);
      case AwaitData =>
        if buf == [] {
          answer := Some(Ok(None));
        } else {
          var take := Min(|buf|, remaining);
          answer := Some(Ok(Some(Data(buf[..take]))));
          rest := buf[take..];
          remaining := remaining - take;
          decoded := decoded + take;
          if remaining == 0 {
            phase := AwaitDataCrlf;
          }
        }
      case AwaitDataCrlf =>
        if |buf| < 2 {
          answer := Some(Ok(None));
        } else if buf[0] != '\r' || buf[1] != '\n' {
          answer := Some(Err(MissingCrlf));
        } else {
          rest := buf[2..];
          phase := AwaitSize;
        }
      case AwaitTrailers =>
        rest, answer := PollTrailers(buf);
    }

    /** The arm of the loop that reads a chunk-size line. */
    method PollSize(buf: bytes) returns (rest: bytes, answer: Option<Answer>)
      requires phase == AwaitSize
      modifies this
      ensures Effect(View(), rest, answer)
              == Apply(Next(limits, old(View()), buf), old(View()), buf)
    {
      hide FindLine, ParseChunkSize, TrailerTurn, DataTurn, DataCrlfTurn;
      rest, answer := buf, None;
      var line := FindLine(rest, MAX_SIZE_LINE, MissingCrlf);
      if line.Err? {
        answer := Some(Err(line.error));
      } else if line.value.None? {
        answer := Some(Ok(None));
      } else {
        var n := line.value.value;
        var size := ParseSizeLine(rest[..n]);
        if size.Err? {
          answer := Some(Err(size.error));
        } else {
          rest := rest[n + 2..];
          if decoded + size.value > limits.maxBodyBytes {
            answer := Some(Err(BodyTooLarge));
          } else if size.value == 0 {
            phase := AwaitTrailers;
          } else {
            remaining := size.value;
            phase := AwaitData;
          }
        }
      }
    }

    /** The arm of the loop that reads a trailer line. */
    method PollTrailers(buf: bytes) returns (rest: bytes, answer: Option<Answer>)
      requires phase == AwaitTrailers
      modifies this
      ensures Effect(View(), rest, answer)
              == Apply(Next(limits, old(View()), buf), old(View()), buf)
    {
      hide FindLine, PushTrailer, SizeTurn, DataTurn, DataCrlfTurn;
      rest, answer := buf, None;
      var line := FindLine(rest, limits.maxHeadBytes, TrailerTooLarge);
      if line.Err? {
        answer := Some(Err(line.error));
      } else if line.value.None? {
        answer := Some(Ok(None));
      } else {
        var n := line.value.value;
        trailerBytes := trailerBytes + n + 2;
        if trailerBytes > limits.maxHeadBytes {
          answer := Some(Err(TrailerTooLarge));
        } else if n == 0 {
          rest := rest[2..];
          phase := Ending;
          if trailers != [] {
            answer := Some(Ok(Some(TrailerSection(trailers))));
            trailers := [];
          }
        } else {
          rest := rest[n + 2..];
          var pushed := PushTrailer(limits.maxHeaders, trailers, buf[..n]);
          if pushed.Err? {
            answer := Some(Err(pushed.error));
          } else {
            trailers := pushed.value;
          }
        }
      }
    }
  }
}
