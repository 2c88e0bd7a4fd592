/** Decimal and hexadecimal numerals: `write_u64`, `write_hex`,
    `parse_content_length` and `parse_len`. */
module Numerals {
  import opened Octets

  predicate IsDigit(b: byte) { '0' <= b <= '9' }

  predicate IsHexDigit(b: byte) { IsDigit(b) || 'a' <= b <= 'f' || 'A' <= b <= 'F' }

  predicate IsBase(base: nat) { base == 10 || base == 16 }

  predicate DigitOf(base: nat, b: byte) {
    if base == 10 then IsDigit(b) else IsHexDigit(b)
  }

  predicate IsNumeral(base: nat, s: bytes) {
    s != [] && Digits(base, s)
  }

  function DigitValue(b: byte): (v: nat)
    requires IsHexDigit(b)
    ensures v < 16 && (IsDigit(b) ==> v < 10)
  {
    if IsDigit(b) then b as int - '0' as int
    else if 'a' <= b then b as int - 'a' as int + 10
    else b as int - 'A' as int + 10
  }

  function DigitChar(d: nat): (b: byte)
    requires d < 16
    ensures IsHexDigit(b) && DigitValue(b) == d && (d < 10 ==> IsDigit(b))
  {
    if d < 10 then (d + '0' as int) as char else (d - 10 + 'a' as int) as char
  }

  function Times(base: nat, n: nat): (r: nat)
    requires IsBase(base)
    ensures r >= n
  {
    if base == 10 then 10 * n else 16 * n
  }

  /** The number a digit string denotes. */
  function Value(base: nat, s: bytes): nat
    requires IsBase(base) && Digits(base, s)
  {
    if s == [] then 0
    else
      assert DigitOf(base, s[|s| - 1]);
      Times(base, Value(base, s[..|s| - 1])) + DigitValue(s[|s| - 1])
  }

  // Division by either base, spelled so that only constants divide.

  function Quot(base: nat, n: nat): (q: nat)
    requires IsBase(base)
    ensures n < base ==> q == 0
    ensures n >= base ==> 0 < q < n
  {
    if base == 10 then n / 10 else n / 16
  }

  function Rem(base: nat, n: nat): (r: nat)
    requires IsBase(base)
    ensures r < base && (n < base ==> r == n)
    ensures Times(base, Quot(base, n)) + r == n
  {
    if base == 10 then n % 10 else n % 16
  }

  predicate Digits(base: nat, s: bytes) {
    forall i :: 0 <= i < |s| ==> DigitOf(base, s[i])
  }

  lemma ValueSnoc(base: nat, s: bytes, b: byte)
    requires IsBase(base) && Digits(base, s) && DigitOf(base, b)
    ensures Digits(base, s + [b])
    ensures Value(base, s + [b]) == Times(base, Value(base, s)) + DigitValue(b)
  {
    assert (s + [b])[..|s|] == s;
  }

  /** The shortest numeral for `n`. */
  function Numeral(base: nat, n: nat): (s: bytes)
    requires IsBase(base)
    ensures IsNumeral(base, s)
  {
    if n < base then [DigitChar(n)]
    else Numeral(base, Quot(base, n)) + [DigitChar(Rem(base, n))]
  }

  /** The 64-bit value of a bare numeral; `None` for anything else, an overflow
      included. */
  function ParseU64(base: nat, s: bytes): Option<nat>
    requires IsBase(base)
  {
    if IsNumeral(base, s) && Value(base, s) <= U64_MAX then Some(Value(base, s)) else None
  }

  lemma {:induction false} NumeralValue(base: nat, n: nat)
    requires IsBase(base)
    ensures Value(base, Numeral(base, n)) == n
  {
    if n >= base {
      NumeralValue(base, Quot(base, n));
      var s := Numeral(base, n);
      assert s[..|s| - 1] == Numeral(base, Quot(base, n));
    }
  }

  /** Writing then parsing gives the number back, for every 64-bit number and no
      larger one. */
  lemma NumeralRoundTrip(base: nat, n: nat)
    requires IsBase(base)
    ensures ParseU64(base, Numeral(base, n)) == if n <= U64_MAX then Some(n) else None
  {
    NumeralValue(base, n);
  }

  predicate NoLeadingZero(s: bytes) { s != [] && (s[0] != '0' || |s| == 1) }

  lemma {:induction false} NumeralLeads(base: nat, n: nat)
    requires IsBase(base)
    ensures NoLeadingZero(Numeral(base, n)) && (Numeral(base, n)[0] == '0' <==> n == 0)
  {
    if n >= base {
      NumeralLeads(base, Quot(base, n));
    }
  }

  lemma {:induction false} LeadingNonZero(s: bytes)
    requires IsNumeral(10, s) && s[0] != '0'
    ensures Value(10, s) > 0
  {
    if |s| > 1 {
      LeadingNonZero(s[..|s| - 1]);
    } else {
      assert s[..0] == [];
    }
  }

  /** Parsing then writing gives the text back exactly when the text has no
      superfluous leading zero. */
  lemma {:induction false} ValueNumeral(s: bytes)
    requires IsNumeral(10, s)
    ensures Numeral(10, Value(10, s)) == s <==> NoLeadingZero(s)
  {
    var n := Value(10, s);
    NumeralLeads(10, n);
    if NoLeadingZero(s) {
      if |s| == 1 {
        assert s[..0] == [];
        assert DigitChar(DigitValue(s[0])) == s[0];
      } else {
        var front, d := s[..|s| - 1], s[|s| - 1];
        LeadingNonZero(front);
        ValueNumeral(front);
        assert Quot(10, n) == Value(10, front) && Rem(10, n) == DigitValue(d);
        assert DigitChar(DigitValue(d)) == d;
        assert front + [d] == s;
      }
    }
  }

  lemma {:induction false} ValuePrefix(base: nat, s: bytes, k: nat)
    requires IsBase(base) && k <= |s| && Digits(base, s)
    ensures Value(base, s[..k]) <= Value(base, s)
  {
    if k == |s| {
      assert s[..k] == s;
    } else {
      var front := s[..|s| - 1];
      ValuePrefix(base, front, k);
      assert front[..k] == s[..k];
    }
  }

  // ---- The loops -----------------------------------------------------------------

  function Pow(base: nat, k: nat): nat {
    if k == 0 then 1 else base * Pow(base, k - 1)
  }

  lemma Pow16Of16()
    ensures Pow(16, 16) == U64_MAX + 1
  {
    assert Pow(16, 4) == 0x1_0000;
    assert Pow(16, 8) == 0x1_0000_0000;
    assert Pow(16, 12) == 0x1_0000_0000_0000;
  }

  lemma Pow10Of20()
    ensures Pow(10, 20) > U64_MAX
  {
    assert Pow(10, 4) == 10_000;
    assert Pow(10, 8) == 100_000_000;
    assert Pow(10, 12) == 1_000_000_000_000;
    assert Pow(10, 16) == 10_000_000_000_000_000;
  }

  /** The digits not yet written when `n` is what is left. */
  ghost function Front(base: nat, n: nat): bytes
    requires IsBase(base)
  {
    if n == 0 then [] else Numeral(base, n)
  }

  lemma DigitStep(base: nat, n: nat, i: nat, tail: bytes)
    requires IsBase(base) && n < Pow(base, i) && 0 < i
    ensures Quot(base, n) < Pow(base, i - 1)
    ensures Numeral(base, n) + tail
            == Front(base, Quot(base, n)) + ([DigitChar(Rem(base, n))] + tail)
  {
    if base == 10 {
      assert n / 10 < Pow(10, i - 1);
    } else {
      assert n / 16 < Pow(16, i - 1);
    }
    var d := [DigitChar(Rem(base, n))];
    assert Numeral(base, n) == Front(base, Quot(base, n)) + d;
  }

  /** One numeral, built backwards in a fixed scratch buffer and appended to `out`;
      `write_u64` is base 10 over 20 places, `write_hex` base 16 over 16. */
  method WriteNumeral(out: bytes, base: nat, places: nat, v: nat) returns (r: bytes)
    requires IsBase(base) && 0 < places && v < Pow(base, places)
    ensures r == out + Numeral(base, v)
  {
    hide Numeral, Quot, Rem, Pow, Front, DigitChar, Times;
    NoFront(base);
    var scratch := new byte[places];
    var i: nat, n: nat := places - 1, Quot(base, v);
    DigitStep(base, v, places, []);
    scratch[i] := DigitChar(Rem(base, v));
    ghost var tail := [DigitChar(Rem(base, v))];
    assert tail + [] == tail && Numeral(base, v) + [] == Numeral(base, v);
    while n != 0
      invariant 0 <= i < places && n < Pow(base, i)
      invariant scratch[i..] == tail
      invariant Numeral(base, v) == Front(base, n) + tail
    {
      SomePlaceLeft(base, n, i);
      DigitStep(base, n, i, tail);
      i := i - 1;
      scratch[i] := DigitChar(Rem(base, n));
      tail := [DigitChar(Rem(base, n))] + tail;
      n := Quot(base, n);
    }
    assert [] + tail == tail;
    r := out + scratch[i..];
  }

  lemma NoFront(base: nat)
    requires IsBase(base)
    ensures Front(base, 0) == []
  {
  }

  lemma SomePlaceLeft(base: nat, n: nat, i: nat)
    requires IsBase(base) && n < Pow(base, i) && n != 0
    ensures 0 < i && Front(base, n) == Numeral(base, n)
  {
  }

  method WriteU64(out: bytes, v: nat) returns (r: bytes)
    requires v <= U64_MAX
    ensures r == out + Numeral(10, v)
  {
    Pow10Of20();
    r := WriteNumeral(out, 10, 20, v);
  }

  method WriteHex(out: bytes, v: nat) returns (r: bytes)
    requires v <= U64_MAX
    ensures r == out + Numeral(16, v)
  {
    Pow16Of16();
    r := WriteNumeral(out, 16, 16, v);
  }

  /** A bare decimal, read digit by digit with a checked multiply and add. */
  method ParseContentLength(s: bytes) returns (r: Option<nat>)
    ensures r == ParseU64(10, s)
  {
    if s == [] {
      return None;
    }
    var acc := 0;
    for i := 0 to |s|
      invariant forall k :: 0 <= k < i ==> IsDigit(s[k])
      invariant acc == Value(10, s[..i]) <= U64_MAX
    {
      if !IsDigit(s[i]) {
        assert !DigitOf(10, s[i]);
        return None;
      }
      assert s[..i + 1][..i] == s[..i];
      acc := acc * 10 + DigitValue(s[i]);
      if acc > U64_MAX {
        if IsNumeral(10, s) {
          ValuePrefix(10, s, i + 1);
        }
        return None;
      }
    }
    assert s[..|s|] == s;
    r := Some(acc);
  }
}
