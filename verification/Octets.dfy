/** Octet strings and the searches every parser of the server is built from.

    An octet is written as a `char`, so that wire literals read as they do on the
    wire. Nothing here or in any other module depends on a code being below 0x100:
    a code above it is treated as the octets 0x80 to 0xFF are. */
module Octets {

  type byte = char
  type bytes = seq<byte>

  datatype Option<+T> = None | Some(value: T)
  datatype Result<+T, +E> = Ok(value: T) | Err(error: E)

  const U64_MAX: nat := 0xFFFF_FFFF_FFFF_FFFF

  function Min(a: nat, b: nat): nat { if a <= b then a else b }

  lemma Assoc<T>(a: seq<T>, b: seq<T>, c: seq<T>)
    ensures (a + b) + c == a + (b + c)
  {
  }

  /** The position of the first `b`, or the length of `s` when there is none. */
  function IndexOf(s: bytes, b: byte): (i: nat)
    ensures i <= |s|
    ensures i < |s| ==> s[i] == b
    ensures forall j :: 0 <= j < i ==> s[j] != b
  {
    if s == [] || s[0] == b then 0 else 1 + IndexOf(s[1..], b)
  }

  lemma IndexOfAppend(a: bytes, c: bytes, b: byte)
    ensures IndexOf(a, b) < |a| ==> IndexOf(a + c, b) == IndexOf(a, b)
    ensures IndexOf(a, b) == |a| ==> IndexOf(a + c, b) == |a| + IndexOf(c, b)
  {
    assert forall j :: 0 <= j < |a| ==> (a + c)[j] == a[j];
    assert forall j :: 0 <= j < |c| ==> (a + c)[|a| + j] == c[j];
  }

  /** How many leading octets satisfy `p`. */
  function Span(s: bytes, p: byte -> bool): (n: nat)
    ensures n <= |s|
    ensures forall j :: 0 <= j < n ==> p(s[j])
    ensures n < |s| ==> !p(s[n])
  {
    if s == [] || !p(s[0]) then 0 else 1 + Span(s[1..], p)
  }

  lemma SpanIs(a: bytes, c: bytes, p: byte -> bool)
    requires forall j :: 0 <= j < |a| ==> p(a[j])
    requires c == [] || !p(c[0])
    ensures Span(a + c, p) == |a|
  {
    assert forall j :: 0 <= j < |a| ==> (a + c)[j] == a[j];
    assert c != [] ==> (a + c)[|a|] == c[0];
  }

  /** `pat` occurs in `s` at position `i`. */
  predicate At(s: bytes, i: int, pat: bytes) {
    0 <= i && i + |pat| <= |s| && s[i..i + |pat|] == pat
  }

  /** The first occurrence of `pat` at or after `i`. */
  function FindFrom(s: bytes, pat: bytes, i: nat): (r: Option<nat>)
    ensures r.Some? ==> i <= r.value && At(s, r.value, pat) && forall j :: i <= j < r.value ==> !At(s, j, pat)
    ensures r.None? ==> forall j :: i <= j ==> !At(s, j, pat)
    decreases |s| - i
  {
    if i + |pat| > |s| then None
    else if At(s, i, pat) then Some(i)
    else FindFrom(s, pat, i + 1)
  }

  function Find(s: bytes, pat: bytes): (r: Option<nat>)
    ensures r.Some? ==> At(s, r.value, pat) && forall j :: 0 <= j < r.value ==> !At(s, j, pat)
    ensures r.None? ==> forall j :: 0 <= j ==> !At(s, j, pat)
  {
    FindFrom(s, pat, 0)
  }

  lemma FindIs(s: bytes, pat: bytes, i: nat)
    requires At(s, i, pat) && forall j :: 0 <= j < i ==> !At(s, j, pat)
    ensures Find(s, pat) == Some(i)
  {
  }

  predicate All(s: bytes, p: byte -> bool) {
    forall j :: 0 <= j < |s| ==> p(s[j])
  }

  // ---- Case-insensitive comparison -------------------------------------------

  function LowerByte(b: byte): byte {
    if 'A' <= b <= 'Z' then ((b as int) + 32) as char else b
  }

  function Lower(s: bytes): (r: bytes)
    ensures |r| == |s|
    ensures forall i :: 0 <= i < |s| ==> r[i] == LowerByte(s[i])
  {
    seq(|s|, i requires 0 <= i < |s| => LowerByte(s[i]))
  }

  // ---- Optional whitespace -----------------------------------------------------

  predicate IsWs(b: byte) { b == ' ' || b == '\t' }

  function TrimLeft(s: bytes): bytes {
    s[Span(s, IsWs)..]
  }

  function TrimRight(s: bytes): (r: bytes)
    ensures |r| <= |s| && r == s[..|r|]
    ensures r == [] || !IsWs(r[|r| - 1])
    ensures forall j :: |r| <= j < |s| ==> IsWs(s[j])
  {
    if s != [] && IsWs(s[|s| - 1]) then TrimRight(s[..|s| - 1]) else s
  }

  /** Optional whitespace stripped from both ends, and nothing else. */
  function TrimOws(s: bytes): (r: bytes) {
    TrimRight(TrimLeft(s))
  }

  /** A string that neither starts nor ends in whitespace, padded with whitespace,
      trims back to itself. */
  lemma TrimPadded(a: bytes, m: bytes, c: bytes)
    requires All(a, IsWs) && All(c, IsWs)
    requires m == [] || (!IsWs(m[0]) && !IsWs(m[|m| - 1]))
    ensures TrimOws(a + m + c) == m
  {
    var s := a + m + c;
    if m == [] {
      SpanIs(s, [], IsWs);
      assert s + [] == s;
    } else {
      SpanIs(a, m + c, IsWs);
      assert s == a + (m + c);
      assert TrimLeft(s) == m + c;
      assert (m + c)[|m| - 1] == m[|m| - 1];
      assert forall j :: |m| <= j < |m + c| ==> (m + c)[j] == c[j - |m|];
      assert TrimRight(m + c) == m;
    }
  }

  lemma TrimOwsTrimmed(s: bytes)
    ensures var r := TrimOws(s); r == [] || (!IsWs(r[0]) && !IsWs(r[|r| - 1]))
    ensures TrimOws(TrimOws(s)) == TrimOws(s)
  {
    var r := TrimOws(s);
    var l := TrimLeft(s);
    if r != [] {
      assert r[0] == l[0];
    }
    TrimPadded([], r, []);
    assert [] + r + [] == r;
  }

  // ---- Comma lists -----------------------------------------------------------

  /** The pieces of `s` between occurrences of `b`; never empty. */
  function SplitOn(s: bytes, b: byte): (r: seq<bytes>)
    ensures r != []
    decreases |s|
  {
    var i := IndexOf(s, b);
    [s[..i]] + if i == |s| then [] else SplitOn(s[i + 1..], b)
  }

  /** The first piece, and the pieces of what follows the separator. */
  lemma SplitFirst(s: bytes, b: byte, i: nat, p: bytes, tail: seq<bytes>)
    requires i == IndexOf(s, b) && p == s[..i]
    requires tail == if i == |s| then [] else SplitOn(s[i + 1..], b)
    ensures SplitOn(s, b) == [p] + tail
  {
    hide IndexOf;
  }

  lemma SplitWhole(s: bytes, b: byte)
    requires IndexOf(s, b) == |s|
    ensures SplitOn(s, b) == [s]
  {
    hide IndexOf;
    SplitFirst(s, b, |s|, s, []);
    hide SplitOn;
    assert [s] + [] == [s];
  }

  lemma {:induction false} SplitOnJoin(a: bytes, c: bytes, b: byte)
    ensures SplitOn(a + [b] + c, b) == SplitOn(a, b) + SplitOn(c, b)
    decreases |a|
  {
    var s := a + [b] + c;
    var i := IndexOf(a, b);
    assert s == a + ([b] + c);
    IndexOfAppend(a, [b] + c, b);
    assert IndexOf([b] + c, b) == 0;
    hide IndexOf, SplitOn;
    if i == |a| {
      assert s[..i] == a && s[i + 1..] == c;
      SplitFirst(s, b, i, a, SplitOn(c, b));
      SplitWhole(a, b);
    } else {
      assert s[..i] == a[..i];
      assert s[i + 1..] == a[i + 1..] + [b] + c;
      SplitOnJoin(a[i + 1..], c, b);
      SplitFirst(s, b, i, a[..i], SplitOn(s[i + 1..], b));
      SplitFirst(a, b, i, a[..i], SplitOn(a[i + 1..], b));
      Assoc([a[..i]], SplitOn(a[i + 1..], b), SplitOn(c, b));
    }
  }

  /** The pieces again, with the separator between them. */
  function Glued(ps: seq<bytes>, b: byte): bytes
    requires ps != []
  {
    if |ps| == 1 then ps[0] else ps[0] + [b] + Glued(ps[1..], b)
  }

  /** Splitting loses nothing, and leaves the separator in no piece. */
  lemma {:induction false} SplitIs(s: bytes, b: byte)
    ensures Glued(SplitOn(s, b), b) == s
    ensures forall p :: p in SplitOn(s, b) ==> b !in p
    decreases |s|
  {
    hide SplitOn, IndexOf, Glued;
    var i := IndexOf(s, b);
    if i == |s| {
      SplitWhole(s, b);
      GluedOne(s, b);
    } else {
      var p, rest := s[..i], s[i + 1..];
      var tail := SplitOn(rest, b);
      assert b !in p;
      assert s == p + [b] + rest;
      SplitIs(rest, b);
      SplitFirst(s, b, i, p, tail);
      GluedMore(p, tail, b);
    }
  }

  lemma GluedOne(p: bytes, b: byte)
    ensures Glued([p], b) == p
  {
  }

  lemma GluedMore(p: bytes, tail: seq<bytes>, b: byte)
    requires tail != []
    ensures Glued([p] + tail, b) == p + [b] + Glued(tail, b)
  {
    assert ([p] + tail)[1..] == tail;
  }

  // ---- Segments ----------------------------------------------------------------

  /** What a run of reads delivers, end to end. */
  function Concat(segments: seq<bytes>): (r: bytes) {
    if segments == [] then [] else segments[0] + Concat(segments[1..])
  }

  lemma {:induction false} ConcatAppend(a: seq<bytes>, b: seq<bytes>)
    ensures Concat(a + b) == Concat(a) + Concat(b)
  {
    if a == [] {
      assert a + b == b;
    } else {
      ConcatAppend(a[1..], b);
      assert (a + b)[0] == a[0] && (a + b)[1..] == a[1..] + b;
      Assoc(a[0], Concat(a[1..]), Concat(b));
    }
  }
}
