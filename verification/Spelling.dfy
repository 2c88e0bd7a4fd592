/** Letters and digits, written out: case folding and the digits of both bases against the
    alphabets themselves. */
module Spelling {
  import opened Octets
  import opened Numerals

  const UPPER_CASE: bytes := "ABCDEFGHIJKLMNOPQRSTUVWXYZ"
  const LOWER_CASE: bytes := "abcdefghijklmnopqrstuvwxyz"

  // ---- Letters -----------------------------------------------------------------------

  /** The `k`-th letter of both alphabets. */
  lemma LetterAt(k: nat)
    requires k < 26
    ensures |UPPER_CASE| == |LOWER_CASE| == 26
    ensures UPPER_CASE[k] as int == 'A' as int + k && LOWER_CASE[k] as int == 'a' as int + k
  {
  }

  /** Two letters that differ in case, and only in that. */
  ghost predicate CasePair(u: byte, l: byte) {
    exists k :: 0 <= k < |UPPER_CASE| == |LOWER_CASE| && UPPER_CASE[k] == u && LOWER_CASE[k] == l
  }

  ghost predicate SameLetter(a: byte, b: byte) { a == b || CasePair(a, b) || CasePair(b, a) }

  /** `s` spells `t` but for the case of its letters. */
  ghost predicate Spells(s: bytes, t: bytes) {
    |s| == |t| && forall i :: 0 <= i < |s| ==> SameLetter(s[i], t[i])
  }

  lemma CasePairIs(u: byte, l: byte)
    ensures CasePair(u, l) <==> 'A' <= u <= 'Z' && l as int == u as int + 32
  {
    if 'A' <= u <= 'Z' && l as int == u as int + 32 {
      LetterAt(u as int - 'A' as int);
    }
    if k :| 0 <= k < |UPPER_CASE| == |LOWER_CASE| && UPPER_CASE[k] == u && LOWER_CASE[k] == l {
      LetterAt(k);
    }
  }

  /** Every capital folds to its small letter, and nothing else changes. */
  lemma Folds(k: nat, b: byte)
    requires k < 26
    ensures |UPPER_CASE| == |LOWER_CASE| == 26
    ensures LowerByte(UPPER_CASE[k]) == LOWER_CASE[k] == LowerByte(LOWER_CASE[k])
    ensures b !in UPPER_CASE ==> LowerByte(b) == b
  {
    LetterAt(k);
    if 'A' <= b <= 'Z' {
      LetterAt(b as int - 'A' as int);
      assert UPPER_CASE[b as int - 'A' as int] == b;
    }
  }

  /** Folding makes alike exactly what differs in case alone. */
  lemma FoldsAlike(a: byte, b: byte)
    ensures SameLetter(a, b) <==> LowerByte(a) == LowerByte(b)
  {
    CasePairIs(a, b);
    CasePairIs(b, a);
  }

  /** Folded strings are the same exactly when one spells the other. */
  lemma SpellsIsFold(s: bytes, t: bytes)
    ensures Spells(s, t) <==> Lower(s) == Lower(t)
  {
    hide SameLetter, LowerByte;
    if |s| == |t| {
      forall i | 0 <= i < |s|
        ensures SameLetter(s[i], t[i]) <==> Lower(s)[i] == Lower(t)[i]
      {
        FoldsAlike(s[i], t[i]);
      }
    }
  }

  // ---- Digits ------------------------------------------------------------------------

  /** The digits denote what they should, in either case, and are written in lower case;
      nothing else is a digit. */
  lemma DigitsAre(d: nat, b: byte)
    requires d < 16
    ensures var small, capital := "0123456789abcdef", "0123456789ABCDEF";
            && |small| == |capital| == 16
            && IsHexDigit(small[d]) && IsHexDigit(capital[d])
            && DigitValue(small[d]) == d == DigitValue(capital[d])
            && DigitChar(d) == small[d]
            && (IsDigit(small[d]) <==> d < 10)
            && (IsHexDigit(b) <==> b in small || b in capital)
            && (IsDigit(b) <==> b in "0123456789")
  {
  }

  lemma SameDigit(a: byte, b: byte)
    requires SameLetter(a, b)
    ensures IsHexDigit(a) <==> IsHexDigit(b)
    ensures IsHexDigit(a) ==> DigitValue(a) == DigitValue(b)
  {
    CasePairIs(a, b);
    CasePairIs(b, a);
  }

  /** The case of its digits makes no difference to a numeral. */
  lemma {:induction false} SameValue(s: bytes, t: bytes)
    requires Spells(s, t)
    ensures Digits(16, s) <==> Digits(16, t)
    ensures Digits(16, s) ==> Value(16, s) == Value(16, t)
    decreases |s|
  {
    hide SameLetter, DigitValue;
    forall i | 0 <= i < |s|
      ensures IsHexDigit(s[i]) <==> IsHexDigit(t[i])
    {
      SameDigit(s[i], t[i]);
    }
    if s != [] {
      var n := |s| - 1;
      SameValue(s[..n], t[..n]);
      SameDigit(s[n], t[n]);
    }
  }
}
