/** The connection's read buffer and its resumable search for the end of a request
    head (`IoState` in `src/conn.rs`). */
module HeadScan {
  import opened Octets

  // ---- The plain search -----------------------------------------------------------------

  const HEAD_END: bytes := "\r\n\r\n"

  /** The index just past the blank line that ends the head. */
  function HeadEnd(s: bytes): (e: Option<nat>)
    ensures e.Some? ==> 4 <= e.value <= |s|
  {
    match Find(s, HEAD_END) case Some(i) => Some(i + 4) case None => None
  }

  predicate StartsBlank(s: bytes) { |s| >= 2 && s[0] == '\r' && s[1] == '\n' }

  /** Empty lines before a request line are ignored, whole CRLFs only. */
  function StripBlank(s: bytes): (r: bytes)
    ensures |r| <= |s| && !StartsBlank(r)
  {
    if StartsBlank(s) then StripBlank(s[2..]) else s
  }

  predicate Odd(n: nat) { n % 2 == 1 }

  lemma {:induction false} StripParity(s: bytes)
    ensures Odd(|StripBlank(s)|) <==> Odd(|s|)
  {
    if StartsBlank(s) {
      StripParity(s[2..]);
    }
  }

  lemma OddSum(a: nat, b: nat, c: nat)
    requires Odd(a) <==> Odd(b)
    ensures Odd(a + c) <==> Odd(b + c)
  {
  }

  lemma {:induction false} StripAppend(a: bytes, b: bytes)
    ensures StripBlank(a + b) == StripBlank(StripBlank(a) + b)
  {
    if StartsBlank(a) {
      assert (a + b)[2..] == a[2..] + b;
      StripAppend(a[2..], b);
    }
  }

  lemma HeadEndAppend(s: bytes, b: bytes)
    ensures HeadEnd(s).Some? ==> HeadEnd(s + b) == HeadEnd(s)
    ensures HeadEnd(s).None? && HeadEnd(s + b).Some? ==> HeadEnd(s + b).value > |s|
  {
    forall j | 0 <= j && j + 4 <= |s|
      ensures At(s + b, j, HEAD_END) <==> At(s, j, HEAD_END)
    {
      assert (s + b)[j..j + 4] == s[j..j + 4];
    }
  }

  // ---- Waiting for a head -----------------------------------------------------------------

  datatype Await =
    | Ready(buf: bytes, end: nat, wire: seq<bytes>)
    | Eof(buf: bytes)
    | TooLarge(buf: bytes, wire: seq<bytes>)

  /** `read_until_head_or_idle` as a function of the buffer and the reads to come. The
      size limit is looked at after a read only: `read` says whether one was made. */
  function AwaitHead(max: nat, buf: bytes, wire: seq<bytes>, read: bool): Await
    decreases |wire|
  {
    var s := StripBlank(buf);
    match HeadEnd(s)
    case Some(e) => Ready(s, e, wire)
    case None =>
      if read && |s| > max then TooLarge(s, wire)
      else if wire == [] then Eof(s)
      else AwaitHead(max, s + wire[0], wire[1..], true)
  }

  /** What waiting for a head yields, in terms of the stream: a head and what follows
      it, a head refused for its size, or nothing. */
  datatype Taken = Head(head: bytes, rest: bytes) | Refused | NoHead

  /** The limit is applied once more to the head found. */
  function Take(max: nat, a: Await): Taken
    requires a.Ready? ==> a.end <= |a.buf|
  {
    match a
    case Ready(s, e, w) => if e > max then Refused else Head(s[..e], s[e..] + Concat(w))
    case Eof(_) => NoHead
    case TooLarge(_, _) => Refused
  }

  lemma {:induction false} AwaitBounds(max: nat, buf: bytes, wire: seq<bytes>, read: bool)
    ensures var a := AwaitHead(max, buf, wire, read); a.Ready? ==> a.end <= |a.buf|
    decreases |wire|
  {
    var s := StripBlank(buf);
    if HeadEnd(s).None? && !(read && |s| > max) && wire != [] {
      AwaitBounds(max, s + wire[0], wire[1..], true);
    }
  }

  function Awaited(max: nat, buf: bytes, wire: seq<bytes>, read: bool): Taken {
    AwaitBounds(max, buf, wire, read);
    Take(max, AwaitHead(max, buf, wire, read))
  }

  /** The head of a stream read whole: the plain search over the stripped stream, and
      one test of its size. */
  function OneShot(max: nat, stream: bytes): Taken {
    var s := StripBlank(stream);
    match HeadEnd(s)
    case Some(e) => if e > max then Refused else Head(s[..e], s[e..])
    case None => if |s| > max then Refused else NoHead
  }

  // ---- The head of a stream, written out ----------------------------------------------------

  function EmptyLines(k: nat): bytes { if k == 0 then [] else "\r\n" + EmptyLines(k - 1) }

  predicate EmptyLineAt(s: bytes, j: int) { 0 <= j && j + 4 <= |s| && s[j..j + 4] == "\r\n\r\n" }

  /** A head begins with no empty line, and ends at its first. */
  predicate IsHead(head: bytes) {
    && |head| >= 4 && !(head[0] == '\r' && head[1] == '\n') && EmptyLineAt(head, |head| - 4)
    && forall j :: 0 <= j < |head| - 4 ==> !EmptyLineAt(head, j)
  }

  /** Some empty lines, a head, and the rest. */
  ghost predicate IsHeadOf(stream: bytes, k: nat, head: bytes, rest: bytes) {
    stream == EmptyLines(k) + (head + rest) && IsHead(head)
  }

  lemma {:induction false} Stripped(k: nat, t: bytes)
    requires !StartsBlank(t)
    ensures StripBlank(EmptyLines(k) + t) == t
  {
    if k == 0 {
      assert [] + t == t;
    } else {
      Stripped(k - 1, t);
      assert EmptyLines(k) + t == "\r\n" + (EmptyLines(k - 1) + t);
      assert ("\r\n" + (EmptyLines(k - 1) + t))[2..] == EmptyLines(k - 1) + t;
    }
  }

  lemma OneMoreEmpty(n: nat)
    ensures EmptyLines(n + 1) == "\r\n" + EmptyLines(n)
  {
  }

  lemma OneBlank(s: bytes)
    requires StartsBlank(s)
    ensures StripBlank(s) == StripBlank(s[2..])
  {
  }

  lemma {:induction false} StripLeaves(s: bytes) returns (k: nat)
    ensures s == EmptyLines(k) + StripBlank(s)
  {
    if StartsBlank(s) {
      var n := StripLeaves(s[2..]);
      k := n + 1;
      hide StripBlank;
      assert s == "\r\n" + s[2..];
      Assoc("\r\n", EmptyLines(n), StripBlank(s[2..]));
      OneMoreEmpty(n);
      OneBlank(s);
      hide EmptyLines;
    } else {
      k := 0;
      assert [] + s == s;
    }
  }

  /** A head is taken from a stream exactly where there is one, no longer than the limit. */
  lemma HeadIff(max: nat, stream: bytes, head: bytes, rest: bytes)
    ensures OneShot(max, stream) == Head(head, rest) <==>
              |head| <= max && exists k :: IsHeadOf(stream, k, head, rest)
  {
    var s := StripBlank(stream);
    if OneShot(max, stream) == Head(head, rest) {
      var k := StripLeaves(stream);
      hide StripBlank;
      EndsAtFirst(s, head, rest);
      assert IsHeadOf(stream, k, head, rest);
    }
    if |head| <= max {
      forall k | IsHeadOf(stream, k, head, rest)
        ensures OneShot(max, stream) == Head(head, rest)
      {
        FoundAtFirst(head, rest);
        Stripped(k, head + rest);
      }
    }
  }

  lemma EndsAtFirst(s: bytes, head: bytes, rest: bytes)
    requires !StartsBlank(s) && HeadEnd(s) == Some(|head|) && |head| <= |s|
    requires head == s[..|head|] && rest == s[|head|..]
    ensures s == head + rest
    ensures IsHead(head)
  {
    var i := |head| - 4;
    assert At(s, i, HEAD_END);
    assert head[i..] == s[i..i + 4];
    forall j | 0 <= j < i
      ensures !EmptyLineAt(head, j)
    {
      assert !At(s, j, HEAD_END);
      assert head[j..j + 4] == s[j..j + 4];
    }
  }

  lemma FoundAtFirst(head: bytes, rest: bytes)
    requires IsHead(head)
    ensures var s := head + rest;
            && !StartsBlank(s) && HeadEnd(s) == Some(|head|)
            && s[..|head|] == head && s[|head|..] == rest
  {
    var s, i := head + rest, |head| - 4;
    assert s[i..i + 4] == head[i..];
    forall j | 0 <= j < i
      ensures !At(s, j, HEAD_END)
    {
      assert !EmptyLineAt(head, j) && s[j..j + 4] == head[j..j + 4];
    }
    FindIs(s, HEAD_END, i);
  }

  lemma AwaitStep(max: nat, buf: bytes, wire: seq<bytes>, read: bool)
    ensures var s := StripBlank(buf);
            && (HeadEnd(s).Some? ==>
                  Awaited(max, buf, wire, read)
                  == if HeadEnd(s).value > max then Refused
                     else Head(s[..HeadEnd(s).value], s[HeadEnd(s).value..] + Concat(wire)))
            && (HeadEnd(s).None? && read && |s| > max ==> Awaited(max, buf, wire, read) == Refused)
            && (HeadEnd(s).None? && !(read && |s| > max) && wire == [] ==> Awaited(max, buf, wire, read) == NoHead)
            && (HeadEnd(s).None? && !(read && |s| > max) && wire != [] ==>
                  Awaited(max, buf, wire, read) == Awaited(max, s + wire[0], wire[1..], true))
  {
    hide HeadEnd, StripBlank;
  }

  /** Stripping commutes with reading on. */
  lemma StreamStep(buf: bytes, wire: seq<bytes>)
    requires wire != []
    ensures var s := StripBlank(buf);
            StripBlank(buf + Concat(wire)) == StripBlank((s + wire[0]) + Concat(wire[1..]))
  {
    hide StripBlank;
    var s := StripBlank(buf);
    StripAppend(buf, Concat(wire));
    Assoc(s, wire[0], Concat(wire[1..]));
  }

  /** A complete head stays where it is, whatever is read after it. */
  lemma HeadStays(max: nat, buf: bytes, b: bytes)
    requires HeadEnd(StripBlank(buf)).Some?
    ensures var s := StripBlank(buf);
            var e := HeadEnd(s).value;
            OneShot(max, buf + b) == if e > max then Refused else Head(s[..e], s[e..] + b)
  {
    var s := StripBlank(buf);
    StripAppend(buf, b);
    HeadEndAppend(s, b);
    NotBlankOn(s, b);
    hide StripBlank, HeadEnd, StartsBlank;
    var e := HeadEnd(s).value;
    assert (s + b)[..e] == s[..e] && (s + b)[e..] == s[e..] + b;
  }

  lemma NotBlankOn(s: bytes, b: bytes)
    requires |s| > 1 && !StartsBlank(s)
    ensures StripBlank(s + b) == s + b
  {
    assert (s + b)[0] == s[0] && (s + b)[1] == s[1];
  }

  /** An unfinished head already over the limit is over it whatever follows, a lone CR
      aside. */
  lemma OverLongStays(max: nat, buf: bytes, b: bytes)
    requires var s := StripBlank(buf); HeadEnd(s).None? && |s| > max && |s| > 1
    ensures OneShot(max, buf + b) == Refused
  {
    var s := StripBlank(buf);
    StripAppend(buf, b);
    HeadEndAppend(s, b);
    NotBlankOn(s, b);
  }

  lemma {:induction false} AfterARead(max: nat, buf: bytes, wire: seq<bytes>)
    requires max >= 1
    ensures Awaited(max, buf, wire, true) == OneShot(max, buf + Concat(wire))
    decreases |wire|
  {
    AwaitStep(max, buf, wire, true);
    hide HeadEnd, StripBlank, Awaited;
    var s := StripBlank(buf);
    if HeadEnd(s).Some? {
      HeadStays(max, buf, Concat(wire));
    } else if |s| > max {
      OverLongStays(max, buf, Concat(wire));
    } else if wire == [] {
      assert buf + [] == buf;
    } else {
      AfterARead(max, s + wire[0], wire[1..]);
      StreamStep(buf, wire);
    }
  }

  // ---- With a limit of zero ----------------------------------------------------------------

  lemma {:induction false} BlankPrefix(a: bytes, b: bytes)
    requires StripBlank(a + b) == []
    ensures StripBlank(a) == if Odd(|a|) then "\r" else []
  {
    if |a| >= 2 {
      assert (a + b)[0] == a[0] && (a + b)[1] == a[1];
      assert (a + b)[2..] == a[2..] + b;
      BlankPrefix(a[2..], b);
    } else if |a| == 1 {
      assert (a + b)[0] == a[0];
      assert a == [a[0]];
    }
  }

  /** A stream of nothing but CRLFs of which some read, the `from`-th or later, ends
      after a CR. */
  ghost predicate SplitBlank(buf: bytes, wire: seq<bytes>, from: nat) {
    && StripBlank(buf + Concat(wire)) == []
    && exists k :: from <= k <= |wire| && Odd(|buf + Concat(wire[..k])|)
  }

  lemma SplitBlankStep(buf: bytes, wire: seq<bytes>, from: nat)
    requires wire != [] && (from == 1 || (from == 0 && !Odd(|buf|)))
    ensures SplitBlank(buf, wire, from) <==> SplitBlank(StripBlank(buf) + wire[0], wire[1..], 0)
  {
    hide StripBlank, Concat, Odd;
    StreamStep(buf, wire);
    var s, later := StripBlank(buf), wire[1..];
    forall k | 0 <= k <= |later|
      ensures Odd(|buf + Concat(wire[..k + 1])|) <==> Odd(|(s + wire[0]) + Concat(later[..k])|)
    {
      BoundaryParity(buf, wire, k);
    }
    NoReads(buf, wire);
    if SplitBlank(buf, wire, from) {
      var k :| from <= k <= |wire| && Odd(|buf + Concat(wire[..k])|);
      assert Odd(|(s + wire[0]) + Concat(later[..k - 1])|);
    }
  }

  lemma NoReads(buf: bytes, wire: seq<bytes>)
    ensures buf + Concat(wire[..0]) == buf
  {
  }

  lemma BoundaryParity(buf: bytes, wire: seq<bytes>, k: nat)
    requires k < |wire|
    ensures Odd(|buf + Concat(wire[..k + 1])|)
            <==> Odd(|(StripBlank(buf) + wire[0]) + Concat(wire[1..][..k])|)
  {
    assert wire[..k + 1][1..] == wire[1..][..k];
    hide StripBlank, Odd;
    StripParity(buf);
    OddSum(|buf|, |StripBlank(buf)|, |wire[0]| + |Concat(wire[1..][..k])|);
  }

  lemma ZeroLimit(s: bytes)
    ensures HeadEnd(s).Some? ==> HeadEnd(s).value > 0
    ensures |s| < 4 ==> HeadEnd(s).None?
  {
  }

  lemma {:induction false} AfterAReadZero(buf: bytes, wire: seq<bytes>)
    ensures Awaited(0, buf, wire, true) == OneShot(0, buf + Concat(wire)) <==> !SplitBlank(buf, wire, 0)
    decreases |wire|
  {
    AwaitStep(0, buf, wire, true);
    var s, b := StripBlank(buf), Concat(wire);
    OneShotZero(buf + b);
    StripParity(buf);
    assert Odd(|s|) ==> s != [];
    hide HeadEnd, Awaited, StripBlank, OneShot, Odd;
    ZeroLimit(s);
    NoReads(buf, wire);
    if StripBlank(buf + b) == [] {
      BlankPrefix(buf, b);
    }
    if s != [] {
      assert Awaited(0, buf, wire, true) == Refused;
      if StripBlank(buf + b) == [] {
        assert Odd(|buf + Concat(wire[..0])|);
      }
    } else if wire == [] {
      assert buf + b == buf;
    } else {
      AfterAReadZero(s + wire[0], wire[1..]);
      StreamStep(buf, wire);
      SplitBlankStep(buf, wire, 0);
      OneShotZero((s + wire[0]) + Concat(wire[1..]));
    }
  }

  lemma OneShotZero(stream: bytes)
    ensures OneShot(0, stream) == if StripBlank(stream) == [] then NoHead else Refused
  {
    ZeroLimit(StripBlank(stream));
  }

  // ---- The verdict ---------------------------------------------------------------------------

  /** More than the limit was already buffered, unfinished, and nothing was read: the
      limit is never looked at. */
  predicate NothingRead(max: nat, buf: bytes, wire: seq<bytes>) {
    wire == [] && HeadEnd(StripBlank(buf)).None? && |StripBlank(buf)| > max
  }

  /** Main result. The head taken, what follows it, and whether its size is refused
      are those of the stream read whole, exactly when the limit was looked at, and
      is not zero with a lone CR read of a stream of blank lines. */
  lemma HeadVerdict(max: nat, buf: bytes, wire: seq<bytes>)
    ensures Awaited(max, buf, wire, false) == OneShot(max, buf + Concat(wire))
            <==> !NothingRead(max, buf, wire) && !(max == 0 && SplitBlank(buf, wire, 1))
  {
    AwaitStep(max, buf, wire, false);
    hide HeadEnd, StripBlank, Awaited;
    var s := StripBlank(buf);
    if HeadEnd(s).Some? {
      HeadStays(max, buf, Concat(wire));
      assert !SplitBlank(buf, wire, 1) by {
        CompleteIsNotBlank(buf, Concat(wire));
      }
    } else if wire == [] {
      assert buf + [] == buf;
    } else {
      StreamStep(buf, wire);
      SplitBlankStep(buf, wire, 1);
      if max == 0 {
        AfterAReadZero(s + wire[0], wire[1..]);
      } else {
        AfterARead(max, s + wire[0], wire[1..]);
      }
    }
  }

  lemma CompleteIsNotBlank(buf: bytes, b: bytes)
    requires HeadEnd(StripBlank(buf)).Some?
    ensures StripBlank(buf + b) != []
  {
    if StripBlank(buf + b) == [] {
      BlankPrefix(buf, b);
      ZeroLimit(StripBlank(buf));
    }
  }

  /** The two exceptions, exhibited: an over-long line already buffered when the peer
      stops, and a CRLF read one octet at a time under a limit of zero. */
  lemma ExceptionsExhibited(max: nat)
    ensures var line := seq(max + 1, _ => 'a');
            Awaited(max, line, [], false) == NoHead && OneShot(max, line) == Refused
    ensures Awaited(0, [], ["\r", "\n"], false) == Refused && OneShot(0, [] + Concat(["\r", "\n"])) == NoHead
  {
    var line := seq(max + 1, _ => 'a');
    assert HeadEnd(line).None? by {
      forall j | 0 <= j
        ensures !At(line, j, HEAD_END)
      {
        assert j + 4 <= |line| ==> line[j..j + 4][0] == 'a';
      }
    }
    AwaitStep(max, line, [], false);
    assert StripBlank(line) == line;
    AwaitStep(0, [], ["\r", "\n"], false);
    AwaitStep(0, "\r", ["\n"], true);
    ZeroLimit("\r");
    assert StripBlank([]) == [] && [] + "\r" == "\r" && ["\r", "\n"][1..] == ["\n"];
    var blank: bytes := [] + Concat(["\r", "\n"]);
    assert Concat(["\n"]) == "\n" && blank == "\r\n" && blank[2..] == [];
    OneShotZero(blank);
  }

  // ---- The buffer ------------------------------------------------------------------------------

  /** No terminator lies wholly within the first `n` octets. */
  ghost predicate Searched(buf: bytes, n: nat) {
    forall j :: 0 <= j && j + 4 <= n ==> !At(buf, j, HEAD_END)
  }

  class IoState {
    var buf: bytes
    var scanned: nat
    var headEnd: Option<nat>
    /** What the transport will deliver, one element a read; after it, end of stream. */
    var wire: seq<bytes>

    /** Nothing the cursor has passed holds a terminator, and a remembered end is the
        first. */
    ghost predicate Valid()
      reads this
    {
      && scanned <= |buf|
      && Searched(buf, scanned)
      && (headEnd.Some? ==> HeadEnd(buf) == headEnd && !StartsBlank(buf))
      && (forall k :: 0 <= k < |wire| ==> wire[k] != [])
    }

    constructor (wire: seq<bytes>)
      requires forall k :: 0 <= k < |wire| ==> wire[k] != []
      ensures Valid() && buf == [] && this.wire == wire
    {
      buf, scanned, headEnd := [], 0, None;
      this.wire := wire;
    }

    method ResetScan()
      modifies this`scanned, this`headEnd
      ensures scanned == 0 && headEnd == None
    {
      scanned, headEnd := 0, None;
    }

    /** One read appended to the buffer; zero is end of stream. */
    method ReadMore() returns (n: nat)
      requires Valid()
      modifies this`buf, this`wire
      ensures Valid()
      ensures old(wire) == [] ==> n == 0 && buf == old(buf) && wire == []
      ensures old(wire) != [] ==>
                n == |old(wire)[0]| > 0 && buf == old(buf) + old(wire)[0] && wire == old(wire)[1..]
    {
      if wire == [] {
        return 0;
      }
      n := |wire[0]|;
      AppendKeepsScan(buf, wire[0], scanned);
      HeadEndAppend(buf, wire[0]);
      buf, wire := buf + wire[0], wire[1..];
    }

    /** One read handed to the body; the buffer is as it was. */
    method PollFill() returns (read: bytes)
      requires Valid()
      modifies this
      ensures Valid() && buf == old(buf)
      ensures old(wire) == [] ==> read == [] && wire == []
      ensures old(wire) != [] ==> read == old(wire)[0] != [] && wire == old(wire)[1..]
    {
      var before := |buf|;
      var n := ReadMore();
      if n == 0 {
        return [];
      }
      read := buf[before..];
      buf := buf[..before];
      ResetScan();
    }

    method TakeBuffered(max: nat) returns (taken: bytes)
      requires Valid()
      modifies this
      ensures Valid() && wire == old(wire)
      ensures old(buf) == taken + buf && |taken| == Min(|old(buf)|, max)
    {
      var n := Min(|buf|, max);
      taken := buf[..n];
      buf := buf[n..];
      ResetScan();
    }

    method PushBack(leftover: bytes)
      requires Valid()
      modifies this
      ensures Valid() && wire == old(wire) && buf == leftover + old(buf)
    {
      if leftover == [] {
        return;
      }
      ResetScan();
      buf := leftover + buf;
    }

    /** The blank lines at the front, counted and then dropped at once. */
    method CountBlank() returns (blank: nat)
      ensures blank <= |buf| && buf[blank..] == StripBlank(buf)
    {
      blank := 0;
      while blank + 2 <= |buf| && buf[blank] == '\r' && buf[blank + 1] == '\n'
        invariant blank <= |buf| && StripBlank(buf[blank..]) == StripBlank(buf)
      {
        assert buf[blank..][2..] == buf[blank + 2..];
        blank := blank + 2;
      }
    }

    /** The search resumed three octets before where it stopped answers as a search
        from the front of the stripped buffer would. */
    method HasCompleteHead() returns (complete: bool)
      requires Valid()
      modifies this`buf, this`scanned, this`headEnd
      ensures Valid() && buf == StripBlank(old(buf))
      ensures complete <==> HeadEnd(buf).Some?
      ensures complete ==> headEnd == HeadEnd(buf)
    {
      hide HeadEnd, StripBlank, StartsBlank, Searched;
      DropBlank();
      if |buf| <= scanned {
        NoHeadWithin(buf, scanned);
        return false;
      }
      var from := if scanned <= 3 then 0 else scanned - 3;
      ResumeFinds(buf, scanned, from);
      var end := HeadEnd(buf[from..]);
      if end.Some? {
        headEnd := Some(from + end.value);
        return true;
      }
      scanned := |buf|;
      complete := false;
    }

    method DropBlank()
      requires Valid()
      modifies this`buf, this`scanned
      ensures Valid() && buf == StripBlank(old(buf)) && !StartsBlank(buf)
    {
      var blank := CountBlank();
      if blank > 0 {
        DropKeepsScan(buf, blank, scanned);
        buf := buf[blank..];
        scanned := if scanned <= blank then 0 else scanned - blank;
      }
    }

    /** `read_until_head_or_idle`, deadlines aside. */
    method ReadUntilHead(max: nat) returns (a: Await)
      requires Valid()
      modifies this
      ensures Valid() && a == AwaitHead(max, old(buf), old(wire), false)
      ensures match a
              case Ready(b, e, w) => buf == b && wire == w && headEnd == Some(e)
              case Eof(b) => buf == b && wire == []
              case TooLarge(b, w) => buf == b && wire == w
    {
      hide HeadEnd, StripBlank, At;
      var complete := HasCompleteHead();
      if complete {
        return Ready(buf, headEnd.value, wire);
      }
      ghost var read := false;
      StripTwice(old(buf));
      while true
        invariant Valid() && HeadEnd(buf).None? && StripBlank(buf) == buf
        invariant read ==> |buf| <= max
        invariant AwaitHead(max, old(buf), old(wire), false) == AwaitHead(max, buf, wire, read)
        decreases |wire|
      {
        ghost var b, w := buf, wire;
        var n := ReadMore();
        if n == 0 {
          return Eof(buf);
        }
        assert AwaitHead(max, b, w, read) == AwaitHead(max, buf, wire, true);
        StripTwice(buf);
        ghost var joined := buf;
        complete := HasCompleteHead();
        assert AwaitHead(max, joined, wire, true) == AwaitHead(max, buf, wire, true);
        if complete {
          return Ready(buf, headEnd.value, wire);
        }
        if |buf| > max {
          return TooLarge(buf, wire);
        }
        read := true;
      }
    }

    /** The head split off the front of the buffer. */
    method SplitHead() returns (head: bytes)
      requires Valid() && headEnd.Some?
      modifies this
      ensures Valid() && wire == old(wire)
      ensures head + buf == old(buf) && |head| == old(headEnd).value
    {
      head := buf[..headEnd.value];
      buf := buf[headEnd.value..];
      ResetScan();
    }
  }

  lemma StripTwice(s: bytes)
    ensures StripBlank(StripBlank(s)) == StripBlank(s)
  {
  }

  lemma AppendKeepsScan(buf: bytes, more: bytes, scanned: nat)
    requires scanned <= |buf|
    requires Searched(buf, scanned)
    ensures Searched(buf + more, scanned)
    ensures StartsBlank(buf + more) && |buf| >= 2 ==> StartsBlank(buf)
  {
    forall j | 0 <= j && j + 4 <= scanned
      ensures !At(buf + more, j, HEAD_END)
    {
      assert (buf + more)[j..j + 4] == buf[j..j + 4];
      assert !At(buf, j, HEAD_END);
    }
  }

  lemma DropKeepsScan(buf: bytes, n: nat, scanned: nat)
    requires n <= |buf| && scanned <= |buf|
    requires Searched(buf, scanned)
    ensures n <= scanned ==> Searched(buf[n..], scanned - n)
  {
    forall j | 0 <= j && j + 4 <= scanned - n
      ensures !At(buf[n..], j, HEAD_END)
    {
      assert buf[n..][j..j + 4] == buf[n + j..n + j + 4];
      assert !At(buf, n + j, HEAD_END);
    }
  }

  lemma NoHeadWithin(buf: bytes, scanned: nat)
    requires |buf| <= scanned
    requires Searched(buf, scanned)
    ensures HeadEnd(buf).None?
  {
  }

  /** A search of the suffix that starts three octets before the cursor is a search of
      the whole. */
  lemma ResumeFinds(buf: bytes, scanned: nat, from: nat)
    requires from <= scanned <= |buf| && (from == 0 || from == scanned - 3)
    requires Searched(buf, scanned)
    ensures HeadEnd(buf)
            == match HeadEnd(buf[from..]) case Some(e) => Some(from + e) case None => None
    ensures HeadEnd(buf).None? ==> Searched(buf, |buf|)
  {
    forall j | from <= j
      ensures At(buf, j, HEAD_END) <==> At(buf[from..], j - from, HEAD_END)
    {
      if j + 4 <= |buf| {
        assert buf[from..][j - from..j - from + 4] == buf[j..j + 4];
      }
    }
    match Find(buf[from..], HEAD_END) {
      case Some(i) =>
        forall j | 0 <= j < from + i
          ensures !At(buf, j, HEAD_END)
        {
          assert j >= from ==> !At(buf[from..], j - from, HEAD_END);
        }
        FindIs(buf, HEAD_END, from + i);
      case None =>
    }
  }
}
