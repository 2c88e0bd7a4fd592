/** A head as a block of lines: the strict scan for line endings (`prescan` in
    `src/parse.rs`), where the block ends, and what a reader takes from it. */
module HeadLines {
  import opened Octets
  import opened Headers
  import opened FieldLines
  import opened HeadScan

  datatype ParseError = BareCr | BareLf | ObsFold

  // ---- Strict line endings ------------------------------------------------------------

  predicate LoneCr(head: bytes, i: nat)
    requires i < |head|
  {
    head[i] == '\r' && (i + 1 == |head| || head[i + 1] != '\n')
  }

  predicate CrOk(head: bytes, i: nat)
    requires i < |head|
  {
    head[i] == '\r' ==>
      && i + 1 < |head| && head[i + 1] == '\n'
      && !(i + 2 < |head| && IsWs(head[i + 2]))
  }

  predicate LfOk(head: bytes, i: nat)
    requires i < |head|
  {
    head[i] == '\n' ==> i > 0 && head[i - 1] == '\r'
  }

  /** Line endings are exactly CRLF, and no line continues the one before it. */
  predicate Strict(head: bytes) {
    forall i :: 0 <= i < |head| ==> CrOk(head, i) && LfOk(head, i)
  }

  method Prescan(head: bytes) returns (r: Option<ParseError>)
    ensures r == None <==> Strict(head)
    ensures r == Some(BareLf) ==> forall i :: 0 <= i < |head| ==> CrOk(head, i)
    ensures r == Some(BareCr) || r == Some(ObsFold) ==>
              exists i :: 0 <= i < |head| && !CrOk(head, i) && (r == Some(BareCr) <==> LoneCr(head, i)) &&
                          forall j :: 0 <= j < i ==> CrOk(head, j)
  {
    for i := 0 to |head|
      invariant forall j :: 0 <= j < i ==> CrOk(head, j)
    {
      if head[i] == '\r' {
        if i + 1 == |head| || head[i + 1] != '\n' {
          assert !CrOk(head, i) && LoneCr(head, i);
          return Some(BareCr);
        }
        if i + 2 < |head| && IsWs(head[i + 2]) {
          assert !CrOk(head, i) && !LoneCr(head, i);
          return Some(ObsFold);
        }
      }
    }
    for i := 0 to |head|
      invariant forall j :: 0 <= j < i ==> LfOk(head, j)
    {
      if head[i] == '\n' && (i == 0 || head[i - 1] != '\r') {
        assert !LfOk(head, i);
        return Some(BareLf);
      }
    }
    r := None;
  }

  // ---- A block of lines ----------------------------------------------------------------

  /** The content of a line: not empty, unbroken, and not a continuation. */
  predicate IsContent(c: bytes) { c != [] && !IsWs(c[0]) && All(c, NotBreak) }

  function LinesOf(cs: seq<bytes>): bytes {
    if cs == [] then [] else Line(cs[0]) + LinesOf(cs[1..])
  }

  /** A CRLF, the lines, and the empty line: what follows a line's content. */
  function After(cs: seq<bytes>): bytes { "\r\n" + (LinesOf(cs) + "\r\n") }

  function Block(cs: seq<bytes>): bytes { LinesOf(cs) + "\r\n" }

  predicate StartsWs(c: bytes) { c != [] && IsWs(c[0]) }

  /** Lines, each ended by its CRLF, and what is left behind the last of them. Nothing in
      them breaks a line, and none but the first begins with whitespace. */
  ghost predicate IsLines(head: bytes, cs: seq<bytes>, last: bytes) {
    && head == LinesOf(cs) + last
    && (forall k :: 0 <= k < |cs| ==> All(cs[k], NotBreak)) && All(last, NotBreak)
    && (forall k :: 1 <= k < |cs| ==> !StartsWs(cs[k])) && (cs != [] ==> !StartsWs(last))
  }

  /** A first line may be put before what is strict and continues no line, and before
      nothing else. */
  lemma StrictJoin(c: bytes, t: bytes)
    requires All(c, NotBreak)
    ensures Strict(c + ("\r\n" + t)) <==> Strict(t) && !StartsWs(t)
  {
    var u, n := c + ("\r\n" + t), |c| + 2;
    assert u[n - 2] == '\r' && u[n - 1] == '\n';
    assert forall i :: 0 <= i < |t| ==> u[i + n] == t[i];
    assert forall i :: 0 <= i < |c| ==> u[i] == c[i];
    forall i | 0 <= i < |t|
      ensures CrOk(u, i + n) <==> CrOk(t, i)
      ensures LfOk(u, i + n) <==> LfOk(t, i)
    {
    }
    assert CrOk(u, n - 2) <==> !StartsWs(t);
    if Strict(t) && !StartsWs(t) {
      forall i | 0 <= i < |u|
        ensures CrOk(u, i) && LfOk(u, i)
      {
        if i >= n {
          assert CrOk(t, i - n) && LfOk(t, i - n);
          assert u[i] == t[i - n];
        } else if i < |c| {
          assert NotBreak(c[i]);
        }
      }
    }
  }

  lemma LinesFirst(c: bytes, cs: seq<bytes>, last: bytes)
    ensures LinesOf([c] + cs) + last == c + ("\r\n" + (LinesOf(cs) + last))
  {
    assert ([c] + cs)[1..] == cs;
    assert LinesOf([c] + cs) == c + "\r\n" + LinesOf(cs);
  }

  /** What follows a first line is lines as well, and continues none. */
  lemma RestIsLines(head: bytes, cs: seq<bytes>, last: bytes, t: bytes)
    requires cs != [] && IsLines(head, cs, last) && t == LinesOf(cs[1..]) + last
    ensures IsLines(t, cs[1..], last) && !StartsWs(t)
    ensures head == cs[0] + ("\r\n" + t)
  {
    var rest := cs[1..];
    assert cs == [cs[0]] + rest;
    LinesFirst(cs[0], rest, last);
    FrontOf(rest, last);
    assert forall k :: 0 <= k < |rest| ==> rest[k] == cs[k + 1];
  }

  lemma FrontOf(cs: seq<bytes>, last: bytes)
    ensures cs == [] ==> LinesOf(cs) + last == last
    ensures cs != [] ==> (StartsWs(LinesOf(cs) + last) <==> StartsWs(cs[0]))
  {
    if cs != [] {
      var t := LinesOf(cs) + last;
      assert cs == [cs[0]] + cs[1..];
      LinesFirst(cs[0], cs[1..], last);
      assert t[0] == if cs[0] == [] then '\r' else cs[0][0];
    }
  }

  lemma {:induction false} LinesAreStrict(head: bytes, cs: seq<bytes>, last: bytes)
    requires IsLines(head, cs, last)
    ensures Strict(head)
    decreases |cs|
  {
    if cs == [] {
      assert head == last;
    } else {
      var t := LinesOf(cs[1..]) + last;
      RestIsLines(head, cs, last, t);
      LinesAreStrict(t, cs[1..], last);
      hide Strict;
      StrictJoin(cs[0], t);
    }
  }

  lemma OneUnbroken(head: bytes)
    requires Strict(head) && IndexOf(head, '\n') == |head|
    ensures All(head, NotBreak)
  {
    forall j | 0 <= j < |head|
      ensures NotBreak(head[j])
    {
      assert CrOk(head, j);
    }
  }

  lemma FirstLine(head: bytes) returns (c: bytes, t: bytes)
    requires Strict(head) && IndexOf(head, '\n') < |head|
    ensures head == c + ("\r\n" + t) && All(c, NotBreak) && |t| < |head|
  {
    var i := IndexOf(head, '\n');
    assert LfOk(head, i);
    c, t := head[..i - 1], head[i + 1..];
    forall j | 0 <= j < |c|
      ensures NotBreak(c[j])
    {
      assert CrOk(head, j);
    }
  }

  lemma {:induction false} StrictIsLines(head: bytes) returns (cs: seq<bytes>, last: bytes)
    requires Strict(head)
    ensures IsLines(head, cs, last)
    decreases |head|
  {
    if IndexOf(head, '\n') == |head| {
      OneUnbroken(head);
      cs, last := [], head;
      assert LinesOf([]) + head == head;
    } else {
      var c, t := FirstLine(head);
      StrictJoin(c, t);
      hide Strict, LinesOf;
      var cs', last' := StrictIsLines(t);
      cs, last := [c] + cs', last';
      LinesFirst(c, cs', last);
      FrontOf(cs', last);
      assert forall k :: 1 <= k < |cs| ==> cs[k] == cs'[k - 1];
    }
  }

  /** The scan passes exactly what is made of lines. */
  lemma StrictIff(head: bytes)
    ensures Strict(head) <==> exists cs, last :: IsLines(head, cs, last)
  {
    hide Strict, IsLines;
    if Strict(head) {
      var cs, last := StrictIsLines(head);
    }
    if cs, last :| IsLines(head, cs, last) {
      LinesAreStrict(head, cs, last);
    }
  }

  lemma AfterSplits(cs: seq<bytes>)
    requires cs != []
    ensures After(cs) == "\r\n" + (cs[0] + After(cs[1..]))
    ensures Block(cs) == cs[0] + After(cs[1..])
  {
    var later := LinesOf(cs[1..]);
    Assoc(cs[0], "\r\n", later + "\r\n");
    Assoc(cs[0] + "\r\n", later, "\r\n");
  }

  lemma StrictStep(c: bytes, t: bytes)
    requires IsContent(c) && Strict(t) && StartsBlank(t)
    ensures Strict(c + t) && Strict("\r\n" + (c + t))
  {
    var u := c + t;
    forall i | 0 <= i < |u|
      ensures CrOk(u, i) && LfOk(u, i)
    {
      if i < |c| {
        assert u[i] == c[i] && NotBreak(c[i]);
      } else {
        assert u[i] == t[i - |c|] && CrOk(t, i - |c|) && LfOk(t, i - |c|);
        assert forall k :: |c| <= k < |u| ==> u[k] == t[k - |c|];
      }
    }
    StrictCrlf(u);
  }

  lemma StrictCrlf(u: bytes)
    requires Strict(u) && u != [] && !IsWs(u[0]) && u[0] != '\n'
    ensures Strict("\r\n" + u)
  {
    var v := "\r\n" + u;
    assert forall k :: 2 <= k < |v| ==> v[k] == u[k - 2];
    forall i | 0 <= i < |v|
      ensures CrOk(v, i) && LfOk(v, i)
    {
      if i >= 2 {
        assert CrOk(u, i - 2) && LfOk(u, i - 2);
      }
    }
  }

  ghost predicate AllContent(cs: seq<bytes>) { forall k :: 0 <= k < |cs| ==> IsContent(cs[k]) }

  lemma {:induction false} AfterIsStrict(cs: seq<bytes>)
    requires AllContent(cs)
    ensures Strict(After(cs)) && StartsBlank(After(cs))
    decreases |cs|
  {
    if cs == [] {
      assert After(cs) == "\r\n\r\n";
    } else {
      AfterIsStrict(cs[1..]);
      AfterSplits(cs);
      StrictStep(cs[0], After(cs[1..]));
    }
  }

  /** Octets before which nothing matches are skipped by a search. */
  lemma FindSkips(s: bytes, pat: bytes, k: nat)
    requires k <= |s| && Find(s[k..], pat).Some?
    requires forall j :: 0 <= j < k ==> !At(s, j, pat)
    ensures Find(s, pat) == Some(k + Find(s[k..], pat).value)
  {
    var i := Find(s[k..], pat).value;
    forall j | 0 <= j < k + i
      ensures !At(s, j, pat)
    {
      if j >= k {
        assert !At(s[k..], j - k, pat);
        assert j + |pat| <= |s| ==> s[k..][j - k..j - k + |pat|] == s[j..j + |pat|];
      }
    }
    assert s[k..][i..i + |pat|] == s[k + i..k + i + |pat|];
    FindIs(s, pat, k + i);
  }

  lemma NoTerminatorBefore(s: bytes, j: nat)
    requires j + 3 <= |s| && (s[j] != '\r' || s[j + 2] != '\r')
    ensures !At(s, j, HEAD_END)
  {
    if j + 4 <= |s| {
      assert s[j..j + 4][0] == s[j] && s[j..j + 4][2] == s[j + 2];
    }
  }

  lemma FindAfterContent(c: bytes, t: bytes)
    requires IsContent(c) && |t| >= 4 && Find(t, HEAD_END).Some?
    ensures Find(c + t, HEAD_END) == Some(|c| + Find(t, HEAD_END).value)
    ensures Find("\r\n" + (c + t), HEAD_END) == Some(2 + |c| + Find(t, HEAD_END).value)
  {
    var u := c + t;
    var v := "\r\n" + u;
    assert u[|c|..] == t && v[2..] == u;
    hide At, Find;
    forall j | 0 <= j < |c|
      ensures !At(u, j, HEAD_END)
    {
      assert u[j] == c[j] && NotBreak(c[j]);
      NoTerminatorBefore(u, j);
    }
    FindSkips(u, HEAD_END, |c|);
    assert v[2] == c[0] && NotBreak(c[0]);
    forall j | 0 <= j < 2
      ensures !At(v, j, HEAD_END)
    {
      NoTerminatorBefore(v, j);
    }
    FindSkips(v, HEAD_END, 2);
  }

  lemma {:induction false} AfterEnds(cs: seq<bytes>, rest: bytes)
    requires AllContent(cs)
    ensures Find(After(cs) + rest, HEAD_END) == Some(|After(cs)| - 4)
    decreases |cs|
  {
    if cs == [] {
      var s := After(cs) + rest;
      assert After(cs) == HEAD_END;
      assert s[0..4] == HEAD_END;
      FindIs(s, HEAD_END, 0);
    } else {
      var later := After(cs[1..]);
      AfterEnds(cs[1..], rest);
      AfterSplits(cs);
      hide After;
      Assoc(cs[0], later, rest);
      Assoc("\r\n", cs[0] + later, rest);
      FindAfterContent(cs[0], later + rest);
    }
  }

  /** A block of lines is strictly terminated, and its first empty line is its end,
      whatever follows it. */
  lemma BlockIsHead(cs: seq<bytes>, rest: bytes)
    requires AllContent(cs) && cs != []
    ensures Strict(Block(cs))
    ensures HeadEnd(Block(cs) + rest) == Some(|Block(cs)|)
  {
    AfterSplits(cs);
    AfterIsStrict(cs[1..]);
    AfterEnds(cs[1..], rest);
    hide After, Block, Strict, IsContent, StartsBlank, Find, LinesOf, HeadEnd;
    ContentIsHead(cs[0], After(cs[1..]), rest);
  }

  lemma ContentIsHead(c: bytes, later: bytes, rest: bytes)
    requires IsContent(c) && Strict(later) && StartsBlank(later)
    requires Find(later + rest, HEAD_END) == Some(|later| - 4)
    ensures Strict(c + later) && HeadEnd((c + later) + rest) == Some(|c + later|)
  {
    StrictStep(c, later);
    hide Strict, IsContent, StartsBlank, Find, At;
    Assoc(c, later, rest);
    FindAfterContent(c, later + rest);
  }

  // ---- The reader -------------------------------------------------------------------------

  /** The line at the front, and what follows it. */
  function ReadLine(s: bytes): (r: Option<(bytes, bytes)>)
    ensures r.Some? ==> |r.value.1| < |s|
  {
    var i := IndexOf(s, '\n');
    if i == |s| || i == 0 || s[i - 1] != '\r' then None else Some((s[..i - 1], s[i + 1..]))
  }

  /** Field lines up to the empty line, and what follows it. */
  function ReadFields(s: bytes): (r: Option<(seq<Field>, bytes)>)
    ensures r.Some? ==> |r.value.1| < |s|
    decreases |s|
  {
    match ReadLine(s)
    case None => None
    case Some((c, rest)) =>
      if c == [] then Some(([], rest))
      else
        var n := IndexOf(c, ':');
        if n == |c| || !IsToken(c[..n]) then None
        else
          match ReadFields(rest)
          case None => None
          case Some((fs, tail)) => Some(([Field(Intern(c[..n]), TrimOws(c[n + 1..]))] + fs, tail))
  }

  predicate AllWritable(fs: seq<Field>) { forall k :: 0 <= k < |fs| ==> Writable(fs[k]) }

  lemma ReadsLine(content: bytes, rest: bytes)
    requires All(content, NotBreak)
    ensures ReadLine(Line(content) + rest) == Some((content, rest))
  {
    LineHasNoLf(content, rest);
  }

  /** What a reader recovers from the written fields: each name interned, each value
      trimmed, in order. */
  lemma {:induction false} ReadsFields(fs: seq<Field>, rest: bytes)
    requires AllWritable(fs)
    ensures ReadFields(FieldLinesOf(fs) + ("\r\n" + rest)) == Some((ReceivedAll(fs), rest))
    decreases |fs|
  {
    if fs == [] {
      ReadsLine([], rest);
      assert Line([]) + rest == [] + ("\r\n" + rest);
    } else {
      var c, later := FieldContent(fs[0]), FieldLinesOf(fs[1..]) + ("\r\n" + rest);
      ContentOfWritable(fs[0]);
      ReadsFields(fs[1..], rest);
      Assoc(Line(c), FieldLinesOf(fs[1..]), "\r\n" + rest);
      hide Line, FieldContent, FieldLinesOf, Writable, IsToken, TrimOws, Intern, AsStr;
      ReadsLine(c, later);
    }
  }

  /** The field lines of a head are lines. */
  function Contents(fs: seq<Field>): (r: seq<bytes>)
    ensures |r| == |fs|
  {
    if fs == [] then [] else [FieldContent(fs[0])] + Contents(fs[1..])
  }

  lemma {:induction false} FieldLinesAreLines(fs: seq<Field>)
    requires AllWritable(fs)
    ensures LinesOf(Contents(fs)) == FieldLinesOf(fs) && AllContent(Contents(fs))
  {
    if fs != [] {
      ContentOfWritable(fs[0]);
      FieldLinesAreLines(fs[1..]);
      hide FieldContent, Writable;
      assert Contents(fs)[1..] == Contents(fs[1..]);
      assert forall k :: 1 <= k < |Contents(fs)| ==> Contents(fs)[k] == Contents(fs[1..])[k - 1];
    }
  }

  /** A start line and fields, serialised. */
  function HeadBytes(start: bytes, fs: seq<Field>): bytes { Line(start) + (FieldLinesOf(fs) + "\r\n") }

  /** A start line and fields, read back. */
  function ReadHead(s: bytes): Option<(bytes, seq<Field>, bytes)> {
    match ReadLine(s)
    case None => None
    case Some((start, rest)) =>
      match ReadFields(rest)
      case None => None
      case Some((fs, tail)) => Some((start, fs, tail))
  }

  /** Main result. A head made of any writable fields passes the strict scan, ends at
      its first empty line, and reads back as its start line and exactly its fields,
      in order, whatever follows. */
  lemma HeadReadsBack(start: bytes, fs: seq<Field>, rest: bytes)
    requires IsContent(start) && AllWritable(fs)
    ensures Strict(HeadBytes(start, fs))
    ensures HeadEnd(HeadBytes(start, fs) + rest) == Some(|HeadBytes(start, fs)|)
    ensures ReadHead(HeadBytes(start, fs) + rest) == Some((start, ReceivedAll(fs), rest))
  {
    var lines := FieldLinesOf(fs);
    var cs := [start] + Contents(fs);
    FieldLinesAreLines(fs);
    ReadsFields(fs, rest);
    ReadsLine(start, lines + ("\r\n" + rest));
    HeadIsBlock(start, fs, cs);
    hide FieldLinesOf, LinesOf, AllWritable, ReadFields, ReadLine, Block, HeadEnd, Strict;
    assert cs[1..] == Contents(fs);
    assert AllContent(cs);
    BlockIsHead(cs, rest);
    Regroup(Line(start), lines, rest);
  }

  lemma HeadIsBlock(start: bytes, fs: seq<Field>, cs: seq<bytes>)
    requires cs == [start] + Contents(fs) && LinesOf(Contents(fs)) == FieldLinesOf(fs)
    ensures Block(cs) == HeadBytes(start, fs)
  {
    assert cs[1..] == Contents(fs);
    Assoc(Line(start), FieldLinesOf(fs), "\r\n");
  }

  lemma Regroup(a: bytes, b: bytes, rest: bytes)
    ensures (a + (b + "\r\n")) + rest == a + (b + ("\r\n" + rest))
  {
    Assoc(a, b + "\r\n", rest);
    Assoc(b, "\r\n", rest);
  }
}
