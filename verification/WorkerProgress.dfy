/** What a worker can always do by itself, whatever the others have come to: put what is in
    its hands somewhere, serve what is queued for it, stop, and see its connections
    closed. */
module WorkerProgress {
  import opened Octets
  import opened WorkerProtocol

  // ---- Runs of one worker ---------------------------------------------------------------------

  /** Worker `i` can take the server from `s` to `end` by steps of its own. */
  ghost predicate Leads(c: Config, s: State, i: nat, end: State) {
    exists moves :: By(i, moves) && Run(c, s, moves) == Some(end)
  }

  predicate By(i: nat, moves: seq<Move>) { forall k :: 0 <= k < |moves| ==> moves[k].worker == i }

  lemma Stays(c: Config, s: State, i: nat)
    ensures Leads(c, s, i, s)
  {
    assert By(i, []) && Run(c, s, []) == Some(s);
  }

  lemma Steps(c: Config, s: State, i: nat, a: Action, end: State)
    requires After(c, s, i, a) == Some(end)
    ensures Leads(c, s, i, end)
  {
    hide After;
    var moves := [Move(i, a)];
    assert By(i, moves) && moves[1..] == [];
    assert Run(c, end, moves[1..]) == Some(end);
    assert Run(c, s, moves) == Some(end);
  }

  lemma {:induction false} RunAppend(c: Config, s: State, a: seq<Move>, mid: State, b: seq<Move>)
    requires Run(c, s, a) == Some(mid)
    ensures Run(c, s, a + b) == Run(c, mid, b)
    decreases |a|
  {
    hide After;
    if a == [] {
      assert a + b == b;
    } else {
      RunAppend(c, After(c, s, a[0].worker, a[0].action).value, a[1..], mid, b);
      assert (a + b)[0] == a[0] && (a + b)[1..] == a[1..] + b;
    }
  }

  lemma Joins(c: Config, s: State, i: nat, mid: State, end: State)
    requires Leads(c, s, i, mid) && Leads(c, mid, i, end)
    ensures Leads(c, s, i, end)
  {
    hide Run;
    var a :| By(i, a) && Run(c, s, a) == Some(mid);
    var b :| By(i, b) && Run(c, mid, b) == Some(end);
    RunAppend(c, s, a, mid, b);
    assert By(i, a + b);
  }

  lemma LeadsKeepsInv(c: Config, s: State, i: nat, end: State)
    requires Sane(c) && Inv(c, s) && Leads(c, s, i, end)
    ensures Inv(c, end)
  {
    hide Run, Inv;
    var moves :| By(i, moves) && Run(c, s, moves) == Some(end);
    RunKeepsInv(c, s, moves);
  }

  /** The state with worker `i` and its channel changed. */
  function Put(s: State, i: nat, w: Local, h: Shared): (r: State)
    requires i < |s.ws| == |s.ch|
    ensures |r.ws| == |r.ch| == |s.ws| && r.ws[i] == w && r.ch[i] == h
    ensures r.dropped == s.dropped && r.closed == s.closed && r.next == s.next
  {
    s.(ws := s.ws[i := w], ch := s.ch[i := h])
  }

  lemma NothingMore(m: multiset<nat>)
    ensures m + NOBODY == m
  {
  }

  /** A step of a worker on its own channel that takes no connection in or out. */
  lemma OwnLeads(c: Config, s: State, i: nat, a: Action, w: Local, h: Shared)
    requires i < |s.ws| == |s.ch| && TargetOf(s.ws[i], i, a) == i
    requires Effect(c, s.ws[i], true, s.ch[i], s.next, a) == Some(Only(w, h))
    ensures Leads(c, s, i, Put(s, i, w, h))
  {
    hide Effect, TargetOf;
    NothingMore(s.dropped);
    NothingMore(s.closed);
    Steps(c, s, i, a, Put(s, i, w, h));
  }

  // ---- What is queued is served ------------------------------------------------------------------

  /** A worker with nothing in its hands, up, or draining with nothing held. */
  predicate Ready(w: Local) { w.pc.Idle? && (w.phase.Running? || (w.phase.Draining? && w.pending.None?)) }

  /** The worker as it was but for what it serves, its channel emptied. */
  ghost predicate CaughtUp(s: State, i: nat, end: State)
    requires i < |s.ws| == |s.ch|
  {
    && |end.ws| == |end.ch| == |s.ws|
    && end.ws[i] == s.ws[i].(served := s.ws[i].served + multiset(s.ch[i].inbox) + s.ch[i].landing)
    && end.ch[i].inbox == [] && end.ch[i].landing == NOBODY && end.ch[i].inboxOpen == s.ch[i].inboxOpen
    && end.dropped == s.dropped && end.closed == s.closed
  }

  /** The next connection queued is taken up and served. */
  lemma TakesOne(c: Config, s: State, i: nat) returns (end: State)
    requires i < |s.ws| == |s.ch| && Ready(s.ws[i]) && s.ch[i].inbox != []
    ensures Leads(c, s, i, end) && |end.ws| == |end.ch| == |s.ws|
    ensures end.ws[i] == s.ws[i].(served := s.ws[i].served + multiset{s.ch[i].inbox[0]})
    ensures end.ch[i].inbox == s.ch[i].inbox[1..] && end.ch[i].landing == s.ch[i].landing
    ensures end.ch[i].inboxOpen == s.ch[i].inboxOpen && end.dropped == s.dropped && end.closed == s.closed
  {
    var w, h := s.ws[i], s.ch[i];
    var x := h.inbox[0];
    var running := w.phase.Running?;
    var w1, h1 := w.(pc := Adopting(x)), h.(inbox := h.inbox[1..], open := if running then h.open else h.open + 1);
    OwnLeads(c, s, i, if running then Adopt else Recount, w1, h1);
    var mid := Put(s, i, w1, h1);
    end := Serves(c, mid, i);
    Joins(c, s, i, mid, end);
  }

  lemma Serves(c: Config, s: State, i: nat) returns (end: State)
    requires i < |s.ws| == |s.ch| && s.ws[i].pc.Adopting?
    ensures end == Put(s, i, s.ws[i].(pc := Idle, served := s.ws[i].served + multiset{s.ws[i].pc.conn}), s.ch[i])
    ensures Leads(c, s, i, end)
  {
    var w := s.ws[i].(pc := Idle, served := s.ws[i].served + multiset{s.ws[i].pc.conn});
    OwnLeads(c, s, i, ServeAdopted, w, s.ch[i]);
    end := Put(s, i, w, s.ch[i]);
  }

  /** What has passed the open check is queued. */
  lemma LandsOne(c: Config, s: State, i: nat, x: nat) returns (end: State)
    requires i < |s.ws| == |s.ch| && !s.ws[i].phase.Dead? && x in s.ch[i].landing
    ensures end == Put(s, i, s.ws[i], s.ch[i].(landing := s.ch[i].landing - multiset{x}, inbox := s.ch[i].inbox + [x]))
    ensures Leads(c, s, i, end)
  {
    var h := s.ch[i].(landing := s.ch[i].landing - multiset{x}, inbox := s.ch[i].inbox + [x]);
    OwnLeads(c, s, i, Land(x), s.ws[i], h);
    end := Put(s, i, s.ws[i], h);
  }

  lemma Regroups(served: multiset<nat>, inbox: seq<nat>, landing: multiset<nat>, x: nat)
    ensures inbox != [] ==> (served + multiset{inbox[0]}) + multiset(inbox[1..]) + landing == served + multiset(inbox) + landing
    ensures x in landing ==> served + multiset(inbox + [x]) + (landing - multiset{x}) == served + multiset(inbox) + landing
  {
    if inbox != [] {
      assert inbox == [inbox[0]] + inbox[1..];
    }
  }

  lemma {:induction false} CatchesUp(c: Config, s: State, i: nat) returns (end: State)
    requires i < |s.ws| == |s.ch| && Ready(s.ws[i])
    ensures Leads(c, s, i, end) && CaughtUp(s, i, end)
    decreases |s.ch[i].inbox| + 2 * |s.ch[i].landing|
  {
    hide Leads;
    var w, h := s.ws[i], s.ch[i];
    if h.inbox != [] {
      var mid := TakesOne(c, s, i);
      end := CatchesUp(c, mid, i);
      Joins(c, s, i, mid, end);
      Regroups(w.served, h.inbox, h.landing, 0);
    } else if h.landing != NOBODY {
      var x :| x in h.landing;
      var mid := LandsOne(c, s, i, x);
      end := CatchesUp(c, mid, i);
      Joins(c, s, i, mid, end);
      Regroups(w.served, h.inbox, h.landing, x);
    } else {
      end := s;
      Stays(c, s, i);
      NothingMore(w.served);
    }
  }

  // ---- What is in hand is put somewhere ---------------------------------------------------------------

  /** Nothing is in the worker's hands, and all else of its own is as it was, but that it may
      serve or hold one more. */
  ghost predicate HandsFree(s: State, i: nat, end: State)
    requires i < |s.ws| == |s.ch|
  {
    && |end.ws| == |end.ch| == |s.ws|
    && end.ws[i].pc.Idle? && end.ws[i].phase == s.ws[i].phase && s.ws[i].served <= end.ws[i].served
    && (s.ws[i].pending.Some? ==> end.ws[i].pending == s.ws[i].pending)
    && end.ch[i].inbox == s.ch[i].inbox && end.ch[i].landing == s.ch[i].landing
    && end.dropped == s.dropped && end.closed == s.closed && end.next == s.next
  }

  /** A step that moves only the program counter. */
  lemma PcLeads(c: Config, s: State, i: nat, a: Action, pc: Pc)
    requires i < |s.ws| == |s.ch| && TargetOf(s.ws[i], i, a) < |s.ch|
    requires var t := TargetOf(s.ws[i], i, a);
             Effect(c, s.ws[i], t == i, s.ch[t], s.next, a) == Some(Only(s.ws[i].(pc := pc), s.ch[t]))
    ensures Leads(c, s, i, s.(ws := s.ws[i := s.ws[i].(pc := pc)]))
  {
    hide Effect, TargetOf;
    var t := TargetOf(s.ws[i], i, a);
    assert s.ch[t := s.ch[t]] == s.ch;
    NothingMore(s.dropped);
    NothingMore(s.closed);
    Steps(c, s, i, a, s.(ws := s.ws[i := s.ws[i].(pc := pc)]));
  }

  /** A step that changes the target's part of the channels as well. */
  lemma TargetLeads(c: Config, s: State, i: nat, a: Action, t: nat, w: Local, h: Shared)
    requires i < |s.ws| == |s.ch| && t < |s.ch| && TargetOf(s.ws[i], i, a) == t
    requires Effect(c, s.ws[i], t == i, s.ch[t], s.next, a) == Some(Only(w, h))
    ensures Leads(c, s, i, s.(ws := s.ws[i := w], ch := s.ch[t := h]))
  {
    hide Effect, TargetOf;
    NothingMore(s.dropped);
    NothingMore(s.closed);
    Steps(c, s, i, a, s.(ws := s.ws[i := w], ch := s.ch[t := h]));
  }

  /** A connection being placed can always be held. */
  lemma Holds(c: Config, s: State, i: nat) returns (end: State)
    requires i < |s.ws| == |s.ch| && s.ws[i].pc.Placing? && s.ws[i].pending.None?
    ensures Leads(c, s, i, end) && HandsFree(s, i, end)
  {
    var w := s.ws[i].(pc := Idle, pending := Some(s.ws[i].pc.conn));
    OwnLeads(c, s, i, Hold, w, s.ch[i]);
    end := Put(s, i, w, s.ch[i]);
  }

  lemma Retargets(c: Config, s: State, i: nat) returns (end: State)
    requires i < |s.ws| == |s.ch| && s.ws[i].pc.Bounced? && s.ws[i].pending.None? && s.ws[i].pc.target < |s.ch|
    ensures Leads(c, s, i, end) && HandsFree(s, i, end)
  {
    var w, t := s.ws[i], s.ws[i].pc.target;
    var w1 := w.(pc := Placing(w.pc.conn, w.pc.refused + {t}));
    var h1 := s.ch[t].(open := c.retired, retired := true);
    TargetLeads(c, s, i, Retarget, t, w1, h1);
    var mid := s.(ws := s.ws[i := w1], ch := s.ch[t := h1]);
    end := Holds(c, mid, i);
    hide Leads;
    Joins(c, s, i, mid, end);
  }

  /** A connection counted against a worker is kept, sent, or sent back and held. */
  lemma Settles(c: Config, s: State, i: nat) returns (end: State)
    requires i < |s.ws| == |s.ch| && s.ws[i].pc.Claimed? && s.ws[i].pending.None? && s.ws[i].pc.target < |s.ch|
    ensures Leads(c, s, i, end)
    ensures HandsFree(s, i, end)
    ensures var x, t := s.ws[i].pc.conn, s.ws[i].pc.target;
            t == i || s.ch[t].inboxOpen ==>
              && end.ws[i].pending.None?
              && if t == i then x in end.ws[i].served else x in end.ch[t].landing
  {
    var w, t := s.ws[i], s.ws[i].pc.target;
    if t == i {
      var w1 := w.(pc := Idle, served := w.served + multiset{w.pc.conn});
      OwnLeads(c, s, i, Keep, w1, s.ch[i]);
      end := Put(s, i, w1, s.ch[i]);
    } else if s.ch[t].inboxOpen {
      var h1 := s.ch[t].(landing := s.ch[t].landing + multiset{w.pc.conn});
      TargetLeads(c, s, i, Send, t, w.(pc := Idle), h1);
      end := s.(ws := s.ws[i := w.(pc := Idle)], ch := s.ch[t := h1]);
    } else {
      var pc := Bounced(w.pc.conn, w.pc.refused, t);
      PcLeads(c, s, i, Bounce, pc);
      var mid := s.(ws := s.ws[i := w.(pc := pc)]);
      end := Retargets(c, mid, i);
      hide Leads;
      Joins(c, s, i, mid, end);
    }
  }

  /** A count read anew decides at once: the connection is counted there, or is looked for
      elsewhere. */
  lemma Tries(c: Config, s: State, i: nat) returns (end: State)
    requires i < |s.ws| == |s.ch| && s.ws[i].pc.Trying? && s.ws[i].pending.None? && s.ws[i].pc.target < |s.ch|
    requires s.ws[i].pc.seen == s.ch[s.ws[i].pc.target].open
    ensures Leads(c, s, i, end) && HandsFree(s, i, end)
    ensures var x, t := s.ws[i].pc.conn, s.ws[i].pc.target;
            s.ws[i].pc.seen < c.cap && (t == i || s.ch[t].inboxOpen) ==>
              && end.ws[i].pending.None?
              && if t == i then x in end.ws[i].served else x in end.ch[t].landing
  {
    var w, t := s.ws[i], s.ws[i].pc.target;
    if w.pc.seen < c.cap {
      var w1, h1 := w.(pc := Claimed(w.pc.conn, w.pc.refused, t)), s.ch[t].(open := w.pc.seen + 1);
      TargetLeads(c, s, i, Swap, t, w1, h1);
      var mid := s.(ws := s.ws[i := w1], ch := s.ch[t := h1]);
      end := Settles(c, mid, i);
      hide Leads;
      Joins(c, s, i, mid, end);
    } else {
      var pc := Placing(w.pc.conn, w.pc.refused);
      PcLeads(c, s, i, Pass, pc);
      var mid := s.(ws := s.ws[i := w.(pc := pc)]);
      end := Holds(c, mid, i);
      hide Leads;
      Joins(c, s, i, mid, end);
    }
  }

  lemma TriesAgain(c: Config, s: State, i: nat) returns (end: State)
    requires i < |s.ws| == |s.ch| && s.ws[i].pc.Trying? && s.ws[i].pending.None? && s.ws[i].pc.target < |s.ch|
    ensures Leads(c, s, i, end) && HandsFree(s, i, end)
  {
    var w, t := s.ws[i], s.ws[i].pc.target;
    if w.pc.seen < c.cap {
      var pc := w.pc.(seen := s.ch[t].open);
      PcLeads(c, s, i, Miss, pc);
      var mid := s.(ws := s.ws[i := w.(pc := pc)]);
      end := Tries(c, mid, i);
      hide Leads;
      Joins(c, s, i, mid, end);
    } else {
      var pc := Placing(w.pc.conn, w.pc.refused);
      PcLeads(c, s, i, Pass, pc);
      var mid := s.(ws := s.ws[i := w.(pc := pc)]);
      end := Holds(c, mid, i);
      hide Leads;
      Joins(c, s, i, mid, end);
    }
  }

  /** What the invariant says of the worker with something in its hands. */
  lemma InHand(c: Config, s: State, i: nat)
    requires Inv(c, s) && i < |s.ws|
    ensures |s.ws| == |s.ch| && Orderly(s.ws[i], s.ch[i])
    ensures !s.ws[i].pc.Idle? && !s.ws[i].pc.Adopting? ==> s.ws[i].pending.None?
    ensures s.ws[i].pc.Trying? || s.ws[i].pc.Claimed? || s.ws[i].pc.Bounced? ==> s.ws[i].pc.target < |s.ch|
  {
    hide Places, Claims, Balanced;
    assert SoundAt(c, s, i);
  }

  lemma Frees(c: Config, s: State, i: nat) returns (end: State)
    requires Inv(c, s) && i < |s.ws| == |s.ch|
    ensures Leads(c, s, i, end) && HandsFree(s, i, end)
  {
    InHand(c, s, i);
    hide Inv, Leads, Orderly;
    match s.ws[i].pc
    case Idle =>
      Stays(c, s, i);
      end := s;
    case Adopting(_) => end := Serves(c, s, i);
    case Placing(_, _) => end := Holds(c, s, i);
    case Trying(_, _, _, _) => end := TriesAgain(c, s, i);
    case Claimed(_, _, _) => end := Settles(c, s, i);
    case Bounced(_, _, _) => end := Retargets(c, s, i);
  }

  // ---- Main results ------------------------------------------------------------------------------------

  /** `x` has been handed to worker `i`: it is in its channel, or held by it. */
  predicate Owed(s: State, i: nat, x: nat)
    requires i < |s.ws| == |s.ch|
  {
    x in s.ch[i].inbox || x in s.ch[i].landing || s.ws[i].pending == Some(x)
  }

  /** Main result. Whatever the interleaving so far, a worker that is up can come to serve
      all that is queued or landing in its inbox, waiting for no other and dropping
      nothing. */
  lemma AlwaysKeepsUp(c: Config, n: nat, s: State, i: nat) returns (end: State)
    requires Sane(c) && Reachable(c, n, s) && i < |s.ws| == |s.ch| && s.ws[i].phase.Running?
    ensures Leads(c, s, i, end) && |end.ws| == |end.ch| == |s.ws|
    ensures end.ws[i].phase.Running? && end.ws[i].pc.Idle? && end.ch[i].inbox == [] && end.ch[i].landing == NOBODY
    ensures s.ws[i].served <= end.ws[i].served
    ensures forall x :: x in s.ch[i].inbox || x in s.ch[i].landing ==> x in end.ws[i].served
    ensures end.dropped == s.dropped && end.closed == s.closed
  {
    ReachableInv(c, n, s);
    hide Leads, Inv, Reachable, Sane;
    var mid := Frees(c, s, i);
    end := CatchesUp(c, mid, i);
    Joins(c, s, i, mid, end);
  }

  /** A draining worker with nothing in its hands serves what it holds. */
  lemma ServesHeld(c: Config, s: State, i: nat) returns (end: State)
    requires i < |s.ws| == |s.ch| && s.ws[i].phase.Draining? && s.ws[i].pc.Idle?
    ensures Leads(c, s, i, end) && |end.ws| == |end.ch| == |s.ws|
    ensures end.ws[i].phase.Draining? && end.ws[i].pc.Idle? && end.ws[i].pending.None?
    ensures s.ws[i].served <= end.ws[i].served
    ensures s.ws[i].pending.Some? ==> s.ws[i].pending.value in end.ws[i].served
    ensures end.ch[i].inbox == s.ch[i].inbox && end.ch[i].landing == s.ch[i].landing
    ensures end.dropped == s.dropped && end.closed == s.closed
  {
    if s.ws[i].pending.None? {
      Stays(c, s, i);
      end := s;
    } else {
      var w := s.ws[i].(pc := Adopting(s.ws[i].pending.value), pending := None);
      OwnLeads(c, s, i, RecountHeld, w, s.ch[i].(open := s.ch[i].open + 1));
      var mid := Put(s, i, w, s.ch[i].(open := s.ch[i].open + 1));
      end := Serves(c, mid, i);
      hide Leads;
      Joins(c, s, i, mid, end);
    }
  }

  /** A draining worker with nothing in its hands stops, having served all it was handed. */
  lemma DrainsOut(c: Config, s: State, i: nat) returns (end: State)
    requires i < |s.ws| == |s.ch| && s.ws[i].phase.Draining? && s.ws[i].pc.Idle?
    ensures Leads(c, s, i, end) && |end.ws| == |end.ch| == |s.ws|
    ensures end.ws[i].phase.Stopped? && s.ws[i].served <= end.ws[i].served
    ensures forall x :: Owed(s, i, x) ==> x in end.ws[i].served
    ensures end.dropped == s.dropped && end.closed == s.closed
  {
    var held := ServesHeld(c, s, i);
    var mid := CatchesUp(c, held, i);
    var w := mid.ws[i].(phase := Stopped);
    OwnLeads(c, mid, i, Stop, w, mid.ch[i]);
    end := Put(mid, i, w, mid.ch[i]);
    hide Leads;
    Joins(c, s, i, held, mid);
    Joins(c, s, i, mid, end);
  }

  /** A worker told to stop closes its inbox and drains it. */
  lemma Closes(c: Config, s: State, i: nat) returns (end: State)
    requires i < |s.ws| == |s.ch| && s.ws[i].phase.Retiring? && s.ws[i].pc.Idle?
    ensures Leads(c, s, i, end) && |end.ws| == |end.ch| == |s.ws|
    ensures end.ws[i].phase.Stopped? && s.ws[i].served <= end.ws[i].served
    ensures forall x :: Owed(s, i, x) ==> x in end.ws[i].served
    ensures end.dropped == s.dropped && end.closed == s.closed
  {
    var w, h := s.ws[i].(phase := Draining), s.ch[i].(inboxOpen := false);
    OwnLeads(c, s, i, CloseInbox, w, h);
    var mid := Put(s, i, w, h);
    end := DrainsOut(c, mid, i);
    hide Leads;
    Joins(c, s, i, mid, end);
    forall x | Owed(s, i, x)
      ensures x in end.ws[i].served
    {
      assert Owed(mid, i, x);
    }
  }

  lemma Retires(c: Config, s: State, i: nat) returns (end: State)
    requires i < |s.ws| == |s.ch| && s.ws[i].phase.Running? && s.ws[i].pc.Idle?
    ensures Leads(c, s, i, end) && |end.ws| == |end.ch| == |s.ws|
    ensures end.ws[i].phase.Stopped? && s.ws[i].served <= end.ws[i].served
    ensures forall x :: Owed(s, i, x) ==> x in end.ws[i].served
    ensures end.dropped == s.dropped && end.closed == s.closed
  {
    var w, h := s.ws[i].(phase := Retiring), s.ch[i].(open := c.retired, retired := true);
    OwnLeads(c, s, i, Retire, w, h);
    var mid := Put(s, i, w, h);
    end := Closes(c, mid, i);
    hide Leads;
    Joins(c, s, i, mid, end);
    forall x | Owed(s, i, x)
      ensures x in end.ws[i].served
    {
      assert Owed(mid, i, x);
    }
  }

  /** Main result. Whatever the interleaving so far, a worker that has started can always
      stop, waiting for no other, and by then it serves every connection it had been
      handed and drops none. */
  lemma AlwaysStops(c: Config, n: nat, s: State, i: nat) returns (end: State)
    requires Sane(c) && Reachable(c, n, s) && i < |s.ws| == |s.ch|
    requires s.ws[i].phase.Running? || s.ws[i].phase.Retiring? || s.ws[i].phase.Draining?
    ensures Leads(c, s, i, end) && |end.ws| == |end.ch| == |s.ws|
    ensures end.ws[i].phase.Stopped? && s.ws[i].served <= end.ws[i].served
    ensures forall x :: Owed(s, i, x) ==> x in end.ws[i].served
    ensures end.dropped == s.dropped && end.closed == s.closed
  {
    ReachableInv(c, n, s);
    InHand(c, s, i);
    hide Leads, Inv, Reachable, Sane;
    var mid := Frees(c, s, i);
    match s.ws[i].phase {
      case Running => end := Retires(c, mid, i);
      case Retiring => end := Closes(c, mid, i);
      case Draining => end := DrainsOut(c, mid, i);
    }
    Joins(c, s, i, mid, end);
    forall x | Owed(s, i, x)
      ensures x in end.ws[i].served
    {
      assert Owed(mid, i, x);
    }
  }

  /** A worker takes up what it holds, or accepts what comes next. */
  lemma TakesUp(c: Config, s: State, i: nat) returns (mid: State)
    requires i < |s.ws| == |s.ch| && s.ws[i].phase.Running? && s.ws[i].pc.Idle?
    ensures Leads(c, s, i, mid)
    ensures var x := if s.ws[i].pending.Some? then s.ws[i].pending.value else s.next;
            mid == s.(ws := s.ws[i := s.ws[i].(pc := Placing(x, {}), pending := None)],
                      next := if s.ws[i].pending.Some? then s.next else s.next + 1)
  {
    var x := if s.ws[i].pending.Some? then s.ws[i].pending.value else s.next;
    var w := s.ws[i].(pc := Placing(x, {}), pending := None);
    mid := s.(ws := s.ws[i := w], next := if s.ws[i].pending.Some? then s.next else s.next + 1);
    assert s.ch[i := s.ch[i]] == s.ch;
    NothingMore(s.dropped);
    NothingMore(s.closed);
    Steps(c, s, i, if s.ws[i].pending.Some? then Retry else Accept, mid);
  }

  /** Main result. A connection just accepted, or held for want of room, is placed with any
      worker that has room and whose inbox is open, or with the worker itself. */
  lemma FindsRoom(c: Config, s: State, i: nat, t: nat) returns (end: State)
    requires i < |s.ws| == |s.ch| && t < |s.ch| && s.ws[i].phase.Running? && s.ws[i].pc.Idle?
    requires s.ch[t].open < c.cap && (t == i || s.ch[t].inboxOpen)
    ensures Leads(c, s, i, end) && |end.ws| == |end.ch| == |s.ws|
    ensures var x := if s.ws[i].pending.Some? then s.ws[i].pending.value else s.next;
            if t == i then x in end.ws[i].served else x in end.ch[t].landing
    ensures end.ws[i].pending.None? && end.dropped == s.dropped && end.closed == s.closed
    ensures end.next == if s.ws[i].pending.Some? then s.next else s.next + 1
  {
    var x := if s.ws[i].pending.Some? then s.ws[i].pending.value else s.next;
    var mid := TakesUp(c, s, i);
    var w := mid.ws[i];
    var pc := Trying(x, {}, t, mid.ch[t].open);
    PcLeads(c, mid, i, Look(t), pc);
    var looked := mid.(ws := mid.ws[i := w.(pc := pc)]);
    end := Tries(c, looked, i);
    hide Leads;
    Joins(c, s, i, mid, looked);
    Joins(c, s, i, looked, end);
  }

  /** Main result. Every connection a worker serves can end, whatever has become of the
      worker, and is counted down when it does. */
  lemma {:induction false} AlwaysCloses(c: Config, s: State, i: nat) returns (end: State)
    requires i < |s.ws| == |s.ch|
    ensures Leads(c, s, i, end) && |end.ws| == |end.ch| == |s.ws|
    ensures end.ws[i].served == NOBODY && end.closed == s.closed + s.ws[i].served
    ensures end.ch[i].open == s.ch[i].open - |s.ws[i].served|
    decreases |s.ws[i].served|
  {
    var w, h := s.ws[i], s.ch[i];
    if w.served == NOBODY {
      Stays(c, s, i);
      NothingMore(s.closed);
      end := s;
    } else {
      var x :| x in w.served;
      var mid := Put(s, i, w.(served := w.served - multiset{x}), h.(open := h.open - 1)).(closed := s.closed + multiset{x});
      NothingMore(s.dropped);
      Steps(c, s, i, Finish(x), mid);
      end := AlwaysCloses(c, mid, i);
      hide Leads;
      Joins(c, s, i, mid, end);
      assert multiset{x} + (w.served - multiset{x}) == w.served;
      assert s.closed + multiset{x} + (w.served - multiset{x}) == s.closed + w.served;
    }
  }
}
