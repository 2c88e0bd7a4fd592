/** Runs of the workers' protocol that the code makes: what goes wrong past the bound on
    the cap, and when a worker dies before it starts. */
module WorkerRuns {
  import opened Octets
  import opened WorkerProtocol
  import Balance

  // ---- Runs the code makes -------------------------------------------------------------------

  /** No count is below zero, where the code's would wrap. */
  predicate Counted(s: State) { forall j :: 0 <= j < |s.ch| ==> s.ch[j].open >= 0 }

  function Counts(s: State): (r: seq<nat>)
    requires Counted(s)
    ensures |r| == |s.ch| && forall j :: 0 <= j < |r| ==> r[j] == s.ch[j].open
  {
    seq(|s.ch|, j requires 0 <= j < |s.ch| => s.ch[j].open)
  }

  /** A step as the code takes it, every worker being looked at: a connection is accepted
      only while some worker is below the cap, and counted only against the worker that
      `place` chooses. */
  ghost predicate AsCode(c: Config, s: State, i: nat, a: Action) {
    && Counted(s) && i < |s.ch|
    && (a.Accept? ==> exists j :: 0 <= j < |s.ch| && s.ch[j].open < c.cap)
    && (a.Look? ==> Balance.Place(Counts(s), c.cap, i, Balance.UpTo(|s.ch|)) == Some(a.target))
  }

  ghost predicate CodeRun(c: Config, s: State, moves: seq<Move>, end: State)
    decreases |moves|
  {
    if moves == [] then s == end
    else
      && AsCode(c, s, moves[0].worker, moves[0].action)
      && After(c, s, moves[0].worker, moves[0].action).Some?
      && CodeRun(c, After(c, s, moves[0].worker, moves[0].action).value, moves[1..], end)
  }

  /** A state some run of `n` workers reaches, each step as the code takes it. */
  ghost predicate ReachedByCode(c: Config, n: nat, s: State) {
    exists moves :: CodeRun(c, Initial(n), moves, s)
  }

  lemma {:induction false} CodeRunIsRun(c: Config, s: State, moves: seq<Move>, end: State)
    requires CodeRun(c, s, moves, end)
    ensures Run(c, s, moves) == Some(end)
    decreases |moves|
  {
    hide After, AsCode;
    if moves != [] {
      CodeRunIsRun(c, After(c, s, moves[0].worker, moves[0].action).value, moves[1..], end);
    }
  }

  /** What the code reaches, some interleaving reaches. */
  lemma CodeReaches(c: Config, n: nat, s: State)
    requires ReachedByCode(c, n, s)
    ensures Reachable(c, n, s)
  {
    hide CodeRun, Run;
    var moves :| CodeRun(c, Initial(n), moves, s);
    CodeRunIsRun(c, Initial(n), moves, s);
  }

  lemma {:induction false} CodeRunSnoc(c: Config, s: State, moves: seq<Move>, mid: State, m: Move, end: State)
    requires CodeRun(c, s, moves, mid) && AsCode(c, mid, m.worker, m.action)
    requires After(c, mid, m.worker, m.action) == Some(end)
    ensures CodeRun(c, s, moves + [m], end)
    decreases |moves|
  {
    hide After, AsCode;
    if moves == [] {
      assert [] + [m] == [m];
      assert [m][1..] == [];
      assert CodeRun(c, end, [], end);
    } else {
      assert (moves + [m])[0] == moves[0] && (moves + [m])[1..] == moves[1..] + [m];
      CodeRunSnoc(c, After(c, s, moves[0].worker, moves[0].action).value, moves[1..], mid, m, end);
    }
  }

  lemma CodeStep(c: Config, n: nat, s: State, i: nat, a: Action, s': State)
    requires ReachedByCode(c, n, s) && AsCode(c, s, i, a) && After(c, s, i, a) == Some(s')
    ensures ReachedByCode(c, n, s')
  {
    hide After, AsCode, CodeRun;
    var moves :| CodeRun(c, Initial(n), moves, s);
    CodeRunSnoc(c, Initial(n), moves, s, Move(i, a), s');
    assert CodeRun(c, Initial(n), moves + [Move(i, a)], s');
  }

  // ---- Two workers ---------------------------------------------------------------------------

  /** Two workers, seen from worker `i`: itself with its channel, and the other. */
  function Duo(i: nat, w: Local, h: Shared, wo: Local, ho: Shared, closed: multiset<nat>, next: nat): State {
    if i == 0 then State([w, wo], [h, ho], NOBODY, closed, next) else State([wo, w], [ho, h], NOBODY, closed, next)
  }

  /** The counts of both, in order. */
  function BothCounts(i: nat, n: nat, no: nat): (r: seq<nat>)
    ensures |r| == 2
  {
    if i == 0 then [n, no] else [no, n]
  }

  lemma DuoCounts(i: nat, w: Local, h: Shared, wo: Local, ho: Shared, closed: multiset<nat>, next: nat)
    requires h.open >= 0 && ho.open >= 0
    ensures var s := Duo(i, w, h, wo, ho, closed, next); Counted(s) && Counts(s) == BothCounts(i, h.open, ho.open)
  {
  }

  lemma NothingMore(m: multiset<nat>)
    ensures m + NOBODY == m
  {
  }

  /** A step of worker `i` on its own channel. */
  lemma OwnStep(c: Config, i: nat, w: Local, h: Shared, wo: Local, ho: Shared, closed: multiset<nat>, next: nat,
                a: Action, e: Change)
    requires i < 2 && TargetOf(w, i, a) == i && Effect(c, w, true, h, next, a) == Some(e) && e.dropped == NOBODY
    ensures After(c, Duo(i, w, h, wo, ho, closed, next), i, a)
            == Some(Duo(i, e.w, e.h, wo, ho, closed + e.closed, next + |e.accepted|))
  {
    hide Effect, TargetOf;
    var s := Duo(i, w, h, wo, ho, closed, next);
    assert s.ws[i := e.w] == (if i == 0 then [e.w, wo] else [wo, e.w]);
    assert s.ch[i := e.h] == (if i == 0 then [e.h, ho] else [ho, e.h]);
    NothingMore(NOBODY);
  }

  /** A step of worker `i` on the other's channel. */
  lemma AcrossStep(c: Config, i: nat, w: Local, h: Shared, wo: Local, ho: Shared, closed: multiset<nat>, next: nat,
                   a: Action, w': Local, ho': Shared)
    requires i < 2 && TargetOf(w, i, a) == 1 - i && Effect(c, w, false, ho, next, a) == Some(Only(w', ho'))
    ensures After(c, Duo(i, w, h, wo, ho, closed, next), i, a) == Some(Duo(i, w', h, wo, ho', closed, next))
  {
    hide Effect, TargetOf;
    var s := Duo(i, w, h, wo, ho, closed, next);
    assert s.ws[i := w'] == (if i == 0 then [w', wo] else [wo, w']);
    assert s.ch[1 - i := ho'] == (if i == 0 then [h, ho'] else [ho', h]);
    NothingMore(NOBODY);
    NothingMore(closed);
  }

  /** A step that neither accepts nor looks. */
  lemma PlainStep(c: Config, i: nat, w: Local, h: Shared, wo: Local, ho: Shared, closed: multiset<nat>, next: nat,
                  a: Action, s': State)
    requires i < 2 && h.open >= 0 && ho.open >= 0 && !a.Accept? && !a.Look?
    requires ReachedByCode(c, 2, Duo(i, w, h, wo, ho, closed, next))
    requires After(c, Duo(i, w, h, wo, ho, closed, next), i, a) == Some(s')
    ensures ReachedByCode(c, 2, s')
  {
    hide After, ReachedByCode;
    DuoCounts(i, w, h, wo, ho, closed, next);
    CodeStep(c, 2, Duo(i, w, h, wo, ho, closed, next), i, a, s');
  }

  /** A worker that is up and idle, and a channel with its count. */
  function Up(served: multiset<nat>): Local { Local(Running, served, None, Idle) }

  function Open(n: int): Shared { NEW_SHARED.(open := n) }

  /** Worker `i` accepts a connection and reads the count of the worker chosen. */
  lemma Looks(c: Config, i: nat, served: multiset<nat>, h: Shared, wo: Local, ho: Shared, closed: multiset<nat>, next: nat,
              t: nat)
    requires i < 2 && t < 2 && h.open >= 0 && ho.open >= 0
    requires ReachedByCode(c, 2, Duo(i, Up(served), h, wo, ho, closed, next))
    requires Balance.Place(BothCounts(i, h.open, ho.open), c.cap, i, Balance.UpTo(2)) == Some(t)
    ensures var seen := if t == i then h.open else ho.open;
            ReachedByCode(c, 2, Duo(i, Up(served).(pc := Trying(next, {}, t, seen)), h, wo, ho, closed, next + 1))
  {
    hide After, ReachedByCode, Balance.Place, Effect, TargetOf;
    var w1 := Up(served).(pc := Placing(next, {}));
    var seen := if t == i then h.open else ho.open;
    var w2 := w1.(pc := Trying(next, {}, t, seen));
    Accepts(c, i, served, h, wo, ho, closed, next, t);
    LookEffect(c, i, w1, h, ho, next, t);
    if t == i {
      OwnStep(c, i, w1, h, wo, ho, closed, next + 1, Look(t), Only(w2, h));
      NothingMore(closed);
    } else {
      AcrossStep(c, i, w1, h, wo, ho, closed, next + 1, Look(t), w2, ho);
    }
    DuoCounts(i, w1, h, wo, ho, closed, next + 1);
    CodeStep(c, 2, Duo(i, w1, h, wo, ho, closed, next + 1), i, Look(t), Duo(i, w2, h, wo, ho, closed, next + 1));
  }

  lemma LookEffect(c: Config, i: nat, w: Local, h: Shared, ho: Shared, x: nat, t: nat)
    requires w.pc == Placing(x, {})
    ensures TargetOf(w, i, Look(t)) == t
    ensures Effect(c, w, true, h, x + 1, Look(t)) == Some(Only(w.(pc := Trying(x, {}, t, h.open)), h))
    ensures Effect(c, w, false, ho, x + 1, Look(t)) == Some(Only(w.(pc := Trying(x, {}, t, ho.open)), ho))
  {
  }

  lemma Accepts(c: Config, i: nat, served: multiset<nat>, h: Shared, wo: Local, ho: Shared, closed: multiset<nat>, next: nat,
                t: nat)
    requires i < 2 && h.open >= 0 && ho.open >= 0
    requires ReachedByCode(c, 2, Duo(i, Up(served), h, wo, ho, closed, next))
    requires Balance.Place(BothCounts(i, h.open, ho.open), c.cap, i, Balance.UpTo(2)) == Some(t)
    ensures ReachedByCode(c, 2, Duo(i, Up(served).(pc := Placing(next, {})), h, wo, ho, closed, next + 1))
  {
    hide After, ReachedByCode;
    var s := Duo(i, Up(served), h, wo, ho, closed, next);
    Balance.PlaceFailsIffFull(BothCounts(i, h.open, ho.open), c.cap, i, Balance.UpTo(2));
    DuoCounts(i, Up(served), h, wo, ho, closed, next);
    hide Balance.Place;
    OwnStep(c, i, Up(served), h, wo, ho, closed, next, Accept,
            Only(Up(served).(pc := Placing(next, {})), h).(accepted := multiset{next}));
    NothingMore(closed);
    assert Counts(s)[t] == s.ch[t].open < c.cap;
    CodeStep(c, 2, s, i, Accept, Duo(i, Up(served).(pc := Placing(next, {})), h, wo, ho, closed, next + 1));
  }

  /** Worker `i`, chosen by itself, takes and keeps a connection. */
  lemma Takes(c: Config, i: nat, served: multiset<nat>, n: nat, wo: Local, ho: Shared, closed: multiset<nat>, next: nat)
    requires i < 2 && n < c.cap && ho.open >= 0
    requires ReachedByCode(c, 2, Duo(i, Up(served), Open(n), wo, ho, closed, next))
    requires Balance.Place(BothCounts(i, n, ho.open), c.cap, i, Balance.UpTo(2)) == Some(i)
    ensures ReachedByCode(c, 2, Duo(i, Up(served + multiset{next}), Open(n + 1), wo, ho, closed, next + 1))
  {
    hide After, ReachedByCode, Balance.Place;
    Looks(c, i, served, Open(n), wo, ho, closed, next, i);
    var w1 := Up(served).(pc := Trying(next, {}, i, n));
    var w2 := Up(served).(pc := Claimed(next, {}, i));
    NothingMore(closed);
    OwnStep(c, i, w1, Open(n), wo, ho, closed, next + 1, Swap, Only(w2, Open(n + 1)));
    PlainStep(c, i, w1, Open(n), wo, ho, closed, next + 1, Swap, Duo(i, w2, Open(n + 1), wo, ho, closed, next + 1));
    OwnStep(c, i, w2, Open(n + 1), wo, ho, closed, next + 1, Keep, Only(Up(served + multiset{next}), Open(n + 1)));
    PlainStep(c, i, w2, Open(n + 1), wo, ho, closed, next + 1, Keep,
              Duo(i, Up(served + multiset{next}), Open(n + 1), wo, ho, closed, next + 1));
  }

  /** A worker starts. */
  lemma Starts(c: Config, i: nat, wo: Local, ho: Shared)
    requires i < 2 && ho.open >= 0 && ReachedByCode(c, 2, Duo(i, NEW_LOCAL, NEW_SHARED, wo, ho, NOBODY, 0))
    ensures ReachedByCode(c, 2, Duo(i, Up(NOBODY), Open(0), wo, ho, NOBODY, 0))
  {
    hide After, ReachedByCode;
    NothingMore(NOBODY);
    OwnStep(c, i, NEW_LOCAL, NEW_SHARED, wo, ho, NOBODY, 0, Start, Only(Up(NOBODY), NEW_SHARED));
    PlainStep(c, i, NEW_LOCAL, NEW_SHARED, wo, ho, NOBODY, 0, Start, Duo(i, Up(NOBODY), Open(0), wo, ho, NOBODY, 0));
  }

  lemma AtFirst(c: Config)
    ensures ReachedByCode(c, 2, Duo(0, NEW_LOCAL, NEW_SHARED, NEW_LOCAL, NEW_SHARED, NOBODY, 0))
  {
    var s := Duo(0, NEW_LOCAL, NEW_SHARED, NEW_LOCAL, NEW_SHARED, NOBODY, 0);
    assert Initial(2) == s;
    assert CodeRun(c, Initial(2), [], s);
  }

  lemma Turned(w: Local, h: Shared, wo: Local, ho: Shared, closed: multiset<nat>, next: nat)
    ensures Duo(0, w, h, wo, ho, closed, next) == Duo(1, wo, ho, w, h, closed, next)
  {
  }

  // ---- The bound on the cap is needed ----------------------------------------------------------------

  /** Two workers accepting in turn keep what they accept. */
  lemma {:induction false} Fills(c: Config, k: nat) returns (m: multiset<nat>, mo: multiset<nat>)
    requires k <= c.cap
    ensures |m| == |mo| == k && ReachedByCode(c, 2, Duo(0, Up(m), Open(k), Up(mo), Open(k), NOBODY, 2 * k))
  {
    hide After, ReachedByCode, Duo;
    if k == 0 {
      m, mo := NOBODY, NOBODY;
      AtFirst(c);
      Starts(c, 0, NEW_LOCAL, NEW_SHARED);
      Turned(Up(NOBODY), Open(0), NEW_LOCAL, NEW_SHARED, NOBODY, 0);
      Starts(c, 1, Up(NOBODY), Open(0));
      Turned(Up(NOBODY), Open(0), Up(NOBODY), Open(0), NOBODY, 0);
    } else {
      var n := k - 1;
      m, mo := Fills(c, n);
      PlacedOnOneself(n, c.cap);
      hide Balance.Place;
      Takes(c, 0, m, n, Up(mo), Open(n), NOBODY, 2 * n);
      m := m + multiset{2 * n};
      Turned(Up(m), Open(k), Up(mo), Open(n), NOBODY, 2 * n + 1);
      Takes(c, 1, mo, n, Up(m), Open(k), NOBODY, 2 * n + 1);
      mo := mo + multiset{2 * n + 1};
      Turned(Up(m), Open(k), Up(mo), Open(k), NOBODY, 2 * k);
    }
  }

  lemma PlacedOnOneself(n: nat, cap: nat)
    requires n < cap
    ensures Balance.Place([n, n], cap, 0, Balance.UpTo(2)) == Some(0)
    ensures Balance.Place([n + 1, n], cap, 1, Balance.UpTo(2)) == Some(1)
  {
    BestOfTwo([n, n], 0);
    BestOfTwo([n + 1, n], 1);
    hide Balance.Best, Balance.UpTo, Balance.FirstWithRoom;
  }

  /** The less loaded of two workers, oneself of equals. */
  lemma BestOfTwo(open: seq<nat>, me: nat)
    requires |open| == 2 && me < 2
    ensures Balance.Best(open, me, Balance.UpTo(2)) == if open[1 - me] < open[me] then 1 - me else me
  {
    var ks := Balance.UpTo(2);
    assert Balance.UpTo(1) == [0] && ks == [0, 1];
    assert ks[..1] == [0] && [0][..0] == [];
    assert Balance.Best(open, me, []) == me;
    assert Balance.Best(open, me, [0]) == if open[0] < open[me] then 0 else me;
  }

  /** The connections of a worker end one by one, each taking one off its count. */
  lemma {:induction false} Empties(c: Config, w: Local, h: Shared, wo: Local, ho: Shared, closed: multiset<nat>, next: nat)
    returns (closed': multiset<nat>)
    requires w.pc.Idle? && h.open >= |w.served| && ho.open >= 0
    requires ReachedByCode(c, 2, Duo(0, w, h, wo, ho, closed, next))
    ensures ReachedByCode(c, 2, Duo(0, w.(served := NOBODY), h.(open := h.open - |w.served|), wo, ho, closed', next))
    decreases |w.served|
  {
    hide After, ReachedByCode, Duo;
    if w.served == NOBODY {
      closed' := closed;
      assert w.(served := NOBODY) == w && h.(open := h.open - |w.served|) == h;
    } else {
      var x :| x in w.served;
      OneLess(w.served, x);
      var w1, h1 := w.(served := w.served - multiset{x}), h.(open := h.open - 1);
      OwnStep(c, 0, w, h, wo, ho, closed, next, Finish(x), Only(w1, h1).(closed := multiset{x}));
      PlainStep(c, 0, w, h, wo, ho, closed, next, Finish(x), Duo(0, w1, h1, wo, ho, closed + multiset{x}, next));
      closed' := Empties(c, w1, h1, wo, ho, closed + multiset{x}, next);
    }
  }

  lemma Retires(c: Config, served: multiset<nat>, n: nat, wo: Local, ho: Shared, closed: multiset<nat>, next: nat)
    requires ho.open >= 0 && ReachedByCode(c, 2, Duo(0, Up(served), Open(n), wo, ho, closed, next))
    ensures ReachedByCode(c, 2, Duo(0, Up(served).(phase := Retiring), Open(c.retired).(retired := true), wo, ho, closed, next))
  {
    hide After, ReachedByCode;
    var w1, h1 := Up(served).(phase := Retiring), Open(c.retired).(retired := true);
    NothingMore(closed);
    OwnStep(c, 0, Up(served), Open(n), wo, ho, closed, next, Retire, Only(w1, h1));
    PlainStep(c, 0, Up(served), Open(n), wo, ho, closed, next, Retire, Duo(0, w1, h1, wo, ho, closed, next));
  }

  /** A state in which the second worker is about to count a connection against the first
      after that has retired. */
  ghost predicate AboutToReserveRetired(c: Config, s: State) {
    && |s.ws| == |s.ch| == 2
    && s.ch[0].retired && TargetOf(s.ws[1], 1, Swap) == 0 && After(c, s, 1, Swap).Some?
  }

  /** The first worker retired with nothing left to serve, its count below the cap, and
      the second at its cap. */
  lemma RetiredBelowCap(c: Config) returns (w: Local, n: nat, mo: multiset<nat>, closed: multiset<nat>, next: nat)
    requires 2 * c.cap > c.retired
    ensures n < c.cap
    ensures ReachedByCode(c, 2, Duo(0, w, Open(n).(retired := true), Up(mo), Open(c.cap), closed, next))
  {
    hide After, ReachedByCode, Duo;
    var m;
    m, mo := Fills(c, c.cap);
    next := 2 * c.cap;
    if c.retired < c.cap {
      closed := Empties(c, Up(m), Open(c.cap), Up(mo), Open(c.cap), NOBODY, next);
      Retires(c, NOBODY, 0, Up(mo), Open(c.cap), closed, next);
      w, n := Up(NOBODY).(phase := Retiring), c.retired;
    } else {
      Retires(c, m, c.cap, Up(mo), Open(c.cap), NOBODY, next);
      closed := Empties(c, Up(m).(phase := Retiring), Open(c.retired).(retired := true), Up(mo), Open(c.cap), NOBODY, next);
      w, n := Up(NOBODY).(phase := Retiring), c.retired - c.cap;
    }
  }

  /** With a cap more than half the mark, two workers whose connections go where `place`
      sends them, no count ever below zero, reach a state in which one that has retired
      is about to be reserved: the bound on the cap is exact. */
  lemma LargeCapBreaks(c: Config)
    requires 2 * c.cap > c.retired
    ensures exists s :: ReachedByCode(c, 2, s) && Counted(s) && AboutToReserveRetired(c, s)
  {
    hide ReachedByCode, Duo, After;
    var w, n, mo, closed, next := RetiredBelowCap(c);
    var h := Open(n).(retired := true);
    Turned(w, h, Up(mo), Open(c.cap), closed, next);
    OnlyTheFirst(n, c.cap);
    Looks(c, 1, mo, Open(c.cap), w, h, closed, next, 0);
    var w1 := Up(mo).(pc := Trying(next, {}, 0, n));
    AcrossStep(c, 1, w1, Open(c.cap), w, h, closed, next + 1, Swap, Up(mo).(pc := Claimed(next, {}, 0)), h.(open := n + 1));
    var s := Duo(1, w1, Open(c.cap), w, h, closed, next + 1);
    DuoCounts(1, w1, Open(c.cap), w, h, closed, next + 1);
    IsAbout(c, w1, Open(c.cap), w, h, closed, next + 1);
  }

  /** Two workers come to reserve one that has retired exactly when the cap is more than
      half the mark. */
  lemma BoundIsExact(c: Config)
    requires 1 <= c.cap
    ensures (exists s :: ReachedByCode(c, 2, s) && AboutToReserveRetired(c, s)) <==> 2 * c.cap > c.retired
  {
    hide ReachedByCode, After;
    if 2 * c.cap > c.retired {
      LargeCapBreaks(c);
    } else if s :| ReachedByCode(c, 2, s) && AboutToReserveRetired(c, s) {
      CodeReaches(c, 2, s);
      RetiredForGood(c, 2, s, 1, Swap, 0);
      assert false;
    }
  }

  lemma IsAbout(c: Config, w: Local, h: Shared, wo: Local, ho: Shared, closed: multiset<nat>, next: nat)
    requires ho.retired && w.pc.Trying? && w.pc.target == 0 && After(c, Duo(1, w, h, wo, ho, closed, next), 1, Swap).Some?
    ensures AboutToReserveRetired(c, Duo(1, w, h, wo, ho, closed, next))
  {
    hide After;
  }

  lemma OnlyTheFirst(n: nat, cap: nat)
    requires n < cap
    ensures Balance.Place([n, cap], cap, 1, Balance.UpTo(2)) == Some(0)
  {
    Balance.PlaceFailsIffFull([n, cap], cap, 1, Balance.UpTo(2));
    hide Balance.Place;
    assert [n, cap][0] < cap;
  }

  // ---- A loss, exhibited ----------------------------------------------------------------------------

  /** The first worker, the second not yet up, keeps its first connections. */
  lemma {:induction false} Begins(c: Config, k: nat) returns (m: multiset<nat>)
    requires k <= c.cap && k <= 2
    ensures ReachedByCode(c, 2, Duo(0, Up(m), Open(k), NEW_LOCAL, NEW_SHARED, NOBODY, k))
  {
    hide After, ReachedByCode, Duo;
    if k == 0 {
      m := NOBODY;
      AtFirst(c);
      Starts(c, 0, NEW_LOCAL, NEW_SHARED);
    } else {
      m := Begins(c, k - 1);
      AtFirstOneself(k - 1, c.cap);
      hide Balance.Place;
      Takes(c, 0, m, k - 1, NEW_LOCAL, NEW_SHARED, NOBODY, k - 1);
      m := m + multiset{k - 1};
    }
  }

  lemma AtFirstOneself(n: nat, cap: nat)
    requires n < cap && n < 2
    ensures Balance.Place([n, 0], cap, 0, Balance.UpTo(2)) == Some(0)
  {
    hide Balance.Best, Balance.UpTo, Balance.FirstWithRoom;
  }

  lemma FullOrTwoAhead(cap: nat)
    requires 1 <= cap
    ensures Balance.Place([Min(cap, 2), 0], cap, 0, Balance.UpTo(2)) == Some(1)
  {
    var open := [Min(cap, 2), 0];
    BestOfTwo(open, 0);
    hide Balance.Best, Balance.UpTo;
    assert Balance.FirstWithRoom(open, cap, 1) == Some(1);
  }

  /** The first worker, full or two ahead, hands a connection to the second. */
  lemma Sends(c: Config, k: nat) returns (m: multiset<nat>)
    requires 1 <= c.cap && k == Min(c.cap, 2)
    ensures ReachedByCode(c, 2, Duo(0, Up(m), Open(k), NEW_LOCAL, Open(1).(landing := multiset{k}), NOBODY, k + 1))
  {
    hide After, ReachedByCode, Duo;
    m := Begins(c, k);
    FullOrTwoAhead(c.cap);
    Looks(c, 0, m, Open(k), NEW_LOCAL, NEW_SHARED, NOBODY, k, 1);
    hide Balance.Place;
    var w1, w2 := Up(m).(pc := Trying(k, {}, 1, 0)), Up(m).(pc := Claimed(k, {}, 1));
    AcrossStep(c, 0, w1, Open(k), NEW_LOCAL, NEW_SHARED, NOBODY, k + 1, Swap, w2, Open(1));
    PlainStep(c, 0, w1, Open(k), NEW_LOCAL, NEW_SHARED, NOBODY, k + 1, Swap,
              Duo(0, w2, Open(k), NEW_LOCAL, Open(1), NOBODY, k + 1));
    assert NOBODY + multiset{k} == multiset{k};
    AcrossStep(c, 0, w2, Open(k), NEW_LOCAL, Open(1), NOBODY, k + 1, Send, Up(m), Open(1).(landing := multiset{k}));
    PlainStep(c, 0, w2, Open(k), NEW_LOCAL, Open(1), NOBODY, k + 1, Send,
              Duo(0, Up(m), Open(k), NEW_LOCAL, Open(1).(landing := multiset{k}), NOBODY, k + 1));
  }

  ghost predicate HasLost(s: State, j: nat, x: nat) { j < |s.ch| && x in s.ch[j].lost }

  /** Under every cap: the first worker hands a connection to the second where `place`
      says so, the second dies before it starts, and the connection lands nowhere. */
  lemma LossExhibited(c: Config)
    requires 1 <= c.cap
    ensures exists s :: ReachedByCode(c, 2, s) && HasLost(s, 1, Min(c.cap, 2))
  {
    hide After, ReachedByCode, Duo;
    var k := Min(c.cap, 2);
    var m := Sends(c, k);
    var h1 := Open(1).(landing := multiset{k});
    var h2 := h1.(inboxOpen := false);
    var h3 := h2.(landing := NOBODY, lost := multiset{k});
    var dead := NEW_LOCAL.(phase := Dead);
    Turned(Up(m), Open(k), NEW_LOCAL, h1, NOBODY, k + 1);
    Dies(c, k, h1, h2, h3, dead);
    NothingMore(NOBODY);
    OwnStep(c, 1, NEW_LOCAL, h1, Up(m), Open(k), NOBODY, k + 1, Die, Only(dead, h2));
    PlainStep(c, 1, NEW_LOCAL, h1, Up(m), Open(k), NOBODY, k + 1, Die, Duo(1, dead, h2, Up(m), Open(k), NOBODY, k + 1));
    OwnStep(c, 1, dead, h2, Up(m), Open(k), NOBODY, k + 1, Land(k), Only(dead, h3));
    PlainStep(c, 1, dead, h2, Up(m), Open(k), NOBODY, k + 1, Land(k), Duo(1, dead, h3, Up(m), Open(k), NOBODY, k + 1));
    LostThere(dead, h3, Up(m), Open(k), k);
  }

  lemma LostThere(w: Local, h: Shared, wo: Local, ho: Shared, k: nat)
    requires h.lost == multiset{k}
    ensures HasLost(Duo(1, w, h, wo, ho, NOBODY, k + 1), 1, k)
  {
  }

  lemma Dies(c: Config, k: nat, h1: Shared, h2: Shared, h3: Shared, dead: Local)
    requires h1 == Open(1).(landing := multiset{k}) && h2 == h1.(inboxOpen := false)
    requires h3 == h2.(landing := NOBODY, lost := multiset{k}) && dead == NEW_LOCAL.(phase := Dead)
    ensures Effect(c, NEW_LOCAL, true, h1, k + 1, Die) == Some(Only(dead, h2))
    ensures Effect(c, dead, true, h2, k + 1, Land(k)) == Some(Only(dead, h3))
  {
    var none: seq<nat> := [];
    assert multiset(none) == NOBODY && NOBODY + NOBODY == NOBODY;
    assert NOBODY + multiset{k} == multiset{k} && multiset{k} - multiset{k} == NOBODY;
  }
}
