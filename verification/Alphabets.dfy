/** The classes of octets the parsers and writers go by, written out. */
module Alphabets {
  import opened Octets
  import opened Numerals
  import opened Spelling
  import opened Headers
  import opened ChunkExt
  import opened Chunked
  import opened FieldLines
  import opened Target
  import opened Framing

  const DIGITS: bytes := "0123456789"

  /** Every control octet but the tab. */
  const CONTROLS: bytes :=
    "\U{0}\U{1}\U{2}\U{3}\U{4}\U{5}\U{6}\U{7}\U{8}\U{a}\U{b}\U{c}\U{d}\U{e}\U{f}\U{10}"
    + "\U{11}\U{12}\U{13}\U{14}\U{15}\U{16}\U{17}\U{18}\U{19}\U{1a}\U{1b}\U{1c}\U{1d}\U{1e}\U{1f}\U{7f}"

  ghost predicate Letter(b: byte) { b in UPPER_CASE || b in LOWER_CASE }

  lemma CapitalIs(b: byte)
    ensures b in UPPER_CASE <==> 'A' <= b <= 'Z'
  {
    if 'A' <= b <= 'Z' {
      LetterAt(b as int - 'A' as int);
      assert UPPER_CASE[b as int - 'A' as int] == b;
    }
  }

  lemma SmallIs(b: byte)
    ensures b in LOWER_CASE <==> 'a' <= b <= 'z'
  {
    if 'a' <= b <= 'z' {
      LetterAt(b as int - 'a' as int);
      assert LOWER_CASE[b as int - 'a' as int] == b;
    }
  }

  lemma DigitIs(b: byte)
    ensures b in DIGITS <==> IsDigit(b)
  {
  }

  lemma ControlAt(k: nat)
    requires k < 32
    ensures |CONTROLS| == 32
    ensures CONTROLS[k] as int == if k < 9 then k else if k < 31 then k + 1 else 127
  {
  }

  /** The octets a field value may not hold, and what a quoted pair may escape: the same
      line drawn twice. */
  lemma ControlIs(b: byte)
    ensures IsCtl(b) <==> b in CONTROLS
    ensures IsQuotable(b) <==> b !in CONTROLS
  {
    var n := b as int;
    if n < 9 {
      ControlAt(n);
      assert CONTROLS[n] == b;
    } else if 10 <= n < 32 {
      ControlAt(n - 1);
      assert CONTROLS[n - 1] == b;
    } else if n == 127 {
      ControlAt(31);
      assert CONTROLS[31] == b;
    }
    if b in CONTROLS {
      var k :| 0 <= k < |CONTROLS| && CONTROLS[k] == b;
      ControlAt(0);
      ControlAt(k);
    }
  }

  /** Optional whitespace, and the octets that end a line. */
  lemma BlanksAndBreaks(b: byte)
    ensures IsWs(b) <==> b in " \t"
    ensures BreaksLine(b) <==> b in "\r\n\0"
    ensures NotBreak(b) <==> b !in "\r\n"
    ensures IsQdText(b) <==> b !in CONTROLS && b !in "\"\\"
  {
    ControlIs(b);
  }

  /** What a token is made of: RFC 9110 section 5.6.2. */
  lemma TokenOctets(b: byte)
    ensures IsTchar(b) <==> Letter(b) || b in DIGITS || b in "!#$%&'*+-.^_`|~"
  {
    CapitalIs(b);
    SmallIs(b);
    DigitIs(b);
  }

  /** What schemes, registered names, bracketed addresses and whole targets are made of:
      RFC 3986 sections 3.1, 3.2.2 and 2. */
  lemma UriOctets(b: byte)
    ensures IsAlpha(b) <==> Letter(b)
    ensures IsSchemeChar(b) <==> Letter(b) || b in DIGITS || b in "+-."
    ensures IsRegChar(b) <==> Letter(b) || b in DIGITS || b in "-._~" || b in "!$&'()*+,;="
    ensures IsLiteralChar(b) <==> b in DIGITS || b in "abcdefABCDEF" || b in ":."
    ensures IsTargetChar(b) <==> IsRegChar(b) || b in ":/?[]@" || b == '%'
    ensures NotAuthorityEnd(b) <==> b !in "/?#"
  {
    LetterIs(b);
    DigitIs(b);
    AddressOctets(b);
    hide Letter, IsLiteralChar;
  }

  lemma LetterIs(b: byte)
    ensures IsAlpha(b) <==> Letter(b)
  {
    CapitalIs(b);
    SmallIs(b);
  }

  lemma AddressOctets(b: byte)
    ensures IsLiteralChar(b) <==> b in DIGITS || b in "abcdefABCDEF" || b in ":."
  {
    DigitIs(b);
  }

  /** A value is ASCII when no octet of it has its high bit set. */
  lemma AsciiIs(s: bytes)
    ensures IsAscii(s) <==> forall b :: b in s ==> b as int <= 127
  {
    assert IsAscii(s) ==> forall i :: 0 <= i < |s| ==> s[i] as int <= 127;
    assert forall i :: 0 <= i < |s| ==> s[i] in s;
  }
}
