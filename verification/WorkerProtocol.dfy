/** The workers' protocol for placing connections (`Balance`, `worker_loop` and its
    `route` and `adopt` in `src/server.rs`): every interleaving of the atomic steps of
    any number of workers. */
module WorkerProtocol {
  import opened Octets

  /** The per-worker limit, and the count that marks a retired worker. */
  datatype Config = Config(cap: nat, retired: nat)

  /** A worker that gets no listener is abandoned: retired for it, and then dead. */
  datatype Phase = Starting | Abandoned | Running | Retiring | Draining | Stopped | Dead

  /** Where a worker is with the connection in its hands: choosing a worker for it,
      having read a count, having counted it against a worker, having had it sent back,
      or adopting one that is counted against itself. `refused` are the workers that sent it
      back since it was taken up. */
  datatype Pc =
    | Idle
    | Placing(conn: nat, refused: set<nat>)
    | Trying(conn: nat, refused: set<nat>, target: nat, seen: int)
    | Claimed(conn: nat, refused: set<nat>, target: nat)
    | Bounced(conn: nat, refused: set<nat>, target: nat)
    | Adopting(conn: nat)

  /** What only the worker itself touches. */
  datatype Local = Local(phase: Phase, served: multiset<nat>, pending: Option<nat>, pc: Pc)

  /** What every worker touches: the count, and the channel with what is queued in it,
      what has passed its open check but not yet been queued, and what was lost with
      it. */
  datatype Shared = Shared(open: int, retired: bool, inboxOpen: bool, inbox: seq<nat>,
                           landing: multiset<nat>, lost: multiset<nat>)

  datatype State = State(ws: seq<Local>, ch: seq<Shared>, dropped: multiset<nat>, closed: multiset<nat>, next: nat)

  const NOBODY: multiset<nat> := multiset{}

  const NEW_LOCAL := Local(Starting, NOBODY, None, Idle)
  const NEW_SHARED := Shared(0, false, true, [], NOBODY, NOBODY)

  function Initial(n: nat): State {
    State(seq(n, _ => NEW_LOCAL), seq(n, _ => NEW_SHARED), NOBODY, NOBODY, 0)
  }

  // ---- Steps ------------------------------------------------------------------------------

  /** One atomic step of one worker. */
  datatype Action =
    | Start | Abandon | Die
    | Accept | Look(target: nat) | Swap | Miss | Pass
    | Hold | HoldFails | Retry
    | Keep | Discard | Send | Bounce | Retarget
    | Land(conn: nat) | Adopt | Finish(conn: nat)
    | Retire | CloseInbox | RecountHeld | Recount | ServeAdopted | DropAdopted | Stop

  /** What a step changes: the worker, the shared part of its target, and what leaves or
      enters the server. */
  datatype Change = Change(w: Local, h: Shared, dropped: multiset<nat>, closed: multiset<nat>, accepted: multiset<nat>)

  function Only(w: Local, h: Shared): Change { Change(w, h, NOBODY, NOBODY, NOBODY) }

  /** The worker whose shared part a step touches. */
  function TargetOf(w: Local, i: nat, a: Action): nat {
    match a
    case Look(t) => t
    case Swap | Miss | Pass | Keep | Discard | Send | Bounce | Retarget =>
      if w.pc.Trying? || w.pc.Claimed? || w.pc.Bounced? then w.pc.target else i
    case _ => i
  }

  /** Steps of a connection being placed. */
  function PlacingEffect(c: Config, w: Local, own: bool, h: Shared, a: Action): Option<Change> {
    match (a, w.pc)
    case (Look(t), Placing(x, r)) => Some(Only(w.(pc := Trying(x, r, t, h.open)), h))
    case (Swap, Trying(x, r, t, n)) =>
      if n < c.cap && h.open == n then Some(Only(w.(pc := Claimed(x, r, t)), h.(open := n + 1))) else None
    case (Miss, Trying(x, r, t, n)) =>
      if n < c.cap then Some(Only(w.(pc := Trying(x, r, t, h.open)), h)) else None
    case (Pass, Trying(x, r, t, n)) =>
      if n >= c.cap then Some(Only(w.(pc := Placing(x, r)), h)) else None
    case (Hold, Placing(x, r)) => Some(Only(w.(pc := Idle, pending := Some(x)), h))
    case (HoldFails, Placing(x, r)) => Some(Only(w.(pc := Idle), h).(dropped := multiset{x}))
    case (Keep, Claimed(x, r, t)) =>
      if own then Some(Only(w.(pc := Idle, served := w.served + multiset{x}), h)) else None
    case (Discard, Claimed(x, r, t)) =>
      Some(Only(w.(pc := Idle), h.(open := h.open - 1)).(dropped := multiset{x}))
    case (Send, Claimed(x, r, t)) =>
      if !own && h.inboxOpen then Some(Only(w.(pc := Idle), h.(landing := h.landing + multiset{x}))) else None
    case (Bounce, Claimed(x, r, t)) =>
      if !own && !h.inboxOpen then Some(Only(w.(pc := Bounced(x, r, t)), h)) else None
    case (Retarget, Bounced(x, r, t)) =>
      Some(Only(w.(pc := Placing(x, r + {t})), h.(open := c.retired, retired := true)))
    case _ => None
  }

  /** Steps of a worker's own life and inbox. */
  function OwnEffect(c: Config, w: Local, h: Shared, next: nat, a: Action): Option<Change> {
    var idle := w.pc.Idle?;
    match a
    case Start => if w.phase.Starting? then Some(Only(w.(phase := Running), h)) else None
    case Abandon =>
      if w.phase.Starting?
      then Some(Only(w.(phase := Abandoned), h.(open := c.retired, retired := true))) else None
    case Die =>
      if w.phase.Starting? || w.phase.Abandoned?
      then Some(Only(w.(phase := Dead), h.(inboxOpen := false, inbox := [], lost := h.lost + multiset(h.inbox))))
      else None
    case Accept =>
      if w.phase.Running? && idle && w.pending.None?
      then Some(Only(w.(pc := Placing(next, {})), h).(accepted := multiset{next})) else None
    case Retry =>
      if w.phase.Running? && idle && w.pending.Some?
      then Some(Only(w.(pc := Placing(w.pending.value, {}), pending := None), h)) else None
    case Land(x) =>
      if x in h.landing then
        var h' := h.(landing := h.landing - multiset{x});
        Some(Only(w, if w.phase.Dead? then h'.(lost := h'.lost + multiset{x}) else h'.(inbox := h'.inbox + [x])))
      else None
    case Adopt =>
      if w.phase.Running? && idle && h.inbox != []
      then Some(Only(w.(pc := Adopting(h.inbox[0])), h.(inbox := h.inbox[1..]))) else None
    case Finish(x) =>
      if x in w.served
      then Some(Only(w.(served := w.served - multiset{x}), h.(open := h.open - 1)).(closed := multiset{x})) else None
    case Retire =>
      if w.phase.Running? && idle
      then Some(Only(w.(phase := Retiring), h.(open := c.retired, retired := true))) else None
    case CloseInbox => if w.phase.Retiring? then Some(Only(w.(phase := Draining), h.(inboxOpen := false))) else None
    case RecountHeld =>
      if w.phase.Draining? && idle && w.pending.Some?
      then Some(Only(w.(pc := Adopting(w.pending.value), pending := None), h.(open := h.open + 1))) else None
    case Recount =>
      if w.phase.Draining? && idle && w.pending.None? && h.inbox != []
      then Some(Only(w.(pc := Adopting(h.inbox[0])), h.(inbox := h.inbox[1..], open := h.open + 1))) else None
    case ServeAdopted =>
      if w.pc.Adopting? then Some(Only(w.(pc := Idle, served := w.served + multiset{w.pc.conn}), h)) else None
    case DropAdopted =>
      if w.pc.Adopting?
      then Some(Only(w.(pc := Idle), h.(open := h.open - 1)).(dropped := multiset{w.pc.conn})) else None
    case Stop =>
      if w.phase.Draining? && idle && w.pending.None? && h.inbox == [] && h.landing == NOBODY
      then Some(Only(w.(phase := Stopped), h)) else None
    case _ => None
  }

  predicate IsPlacing(a: Action) {
    a.Look? || a.Swap? || a.Miss? || a.Pass? || a.Hold? || a.HoldFails? || a.Keep? || a.Discard? || a.Send? || a.Bounce?
    || a.Retarget?
  }

  function Effect(c: Config, w: Local, own: bool, h: Shared, next: nat, a: Action): Option<Change> {
    if IsPlacing(a) then PlacingEffect(c, w, own, h, a)
    else if own then OwnEffect(c, w, h, next, a) else None
  }

  /** The state after worker `i` takes step `a`, if it can. */
  function After(c: Config, s: State, i: nat, a: Action): Option<State> {
    if |s.ws| != |s.ch| || i >= |s.ws| || TargetOf(s.ws[i], i, a) >= |s.ch| then None
    else
      var t := TargetOf(s.ws[i], i, a);
      match Effect(c, s.ws[i], t == i, s.ch[t], s.next, a)
      case None => None
      case Some(e) =>
        Some(State(s.ws[i := e.w], s.ch[t := e.h], s.dropped + e.dropped, s.closed + e.closed,
                   s.next + |e.accepted|))
  }

  // ---- Claims ---------------------------------------------------------------------------------

  /** A worker has counted a connection against `t` and neither sent nor kept it. */
  function Claim(w: Local, t: nat): nat {
    if (w.pc.Claimed? || w.pc.Bounced?) && w.pc.target == t then 1 else 0
  }

  function Claims(ws: seq<Local>, t: nat): nat {
    if ws == [] then 0 else Claim(ws[0], t) + Claims(ws[1..], t)
  }

  lemma {:induction false} ClaimsUpdate(ws: seq<Local>, i: nat, w: Local, t: nat)
    requires i < |ws|
    ensures Claims(ws, t) >= Claim(ws[i], t)
    ensures Claims(ws[i := w], t) == Claims(ws, t) - Claim(ws[i], t) + Claim(w, t)
  {
    hide Claim;
    if i == 0 {
      assert ws[0 := w][1..] == ws[1..];
    } else {
      ClaimsUpdate(ws[1..], i - 1, w, t);
      assert ws[i := w][1..] == ws[1..][i - 1 := w];
      assert ws[i := w][0] == ws[0];
    }
  }

  // ---- The accounts of one worker ----------------------------------------------------------------

  function Bit(b: bool): nat { if b then 1 else 0 }

  /** Connections that are this worker's to count down when they end. */
  function Live(w: Local): nat { |w.served| + Bit(w.pc.Adopting?) }

  /** Everything counted against the worker, claims aside. */
  function Load(w: Local, h: Shared): nat { Live(w) + |h.inbox| + |h.landing| + |h.lost| }

  /** The accounts of a worker against which `k` connections are claimed. */
  predicate Balanced(c: Config, w: Local, h: Shared, k: nat) {
    && Load(w, h) + k + Bit(w.pending.Some?) <= c.cap + 1
    && (!h.retired ==> h.open == Load(w, h) + k && h.open <= c.cap)
    && (h.retired ==> c.retired - c.cap + Live(w) + k <= h.open <= c.retired + Live(w))
  }

  predicate Orderly(w: Local, h: Shared) {
    && (h.retired ==> !w.phase.Starting? && !w.phase.Running?)
    && (w.phase.Abandoned? || w.phase.Retiring? || w.phase.Draining? || w.phase.Stopped? ==> h.retired)
    && (h.inboxOpen <==> w.phase.Starting? || w.phase.Abandoned? || w.phase.Running? || w.phase.Retiring?)
    && (h.lost != NOBODY ==> w.phase.Dead?)
    && (!w.pc.Idle? ==> w.phase.Running? || (w.pc.Adopting? && w.phase.Draining?))
    && (w.pending.Some? ==> (w.pc.Idle? || w.pc.Adopting?) && (w.phase.Running? || w.phase.Retiring? || w.phase.Draining?))
    && (w.phase.Stopped? ==> h.inbox == [] && h.landing == NOBODY)
  }

  predicate Sound(c: Config, w: Local, h: Shared, k: nat) { Balanced(c, w, h, k) && Orderly(w, h) }

  /** What the connection in a worker's hands says about other workers. */
  ghost predicate PcSound(pc: Pc, ch: seq<Shared>) {
    && (!pc.Idle? && !pc.Adopting? ==> forall r :: r in pc.refused ==> r < |ch| && ch[r].retired)
    && (pc.Trying? ==> pc.target < |ch|)
    && (pc.Claimed? || pc.Bounced? ==> pc.target < |ch| && pc.target !in pc.refused)
    && (pc.Bounced? ==> !ch[pc.target].inboxOpen)
  }

  // ---- Where the connections are -------------------------------------------------------------------

  /** How many times a worker holds connection `x`: served, held for want of room, or
      in its hands. */
  function Held(w: Local, x: nat): nat {
    w.served[x] + Bit(w.pending == Some(x)) + Bit(!w.pc.Idle? && w.pc.conn == x)
  }

  /** How many times `x` is in a worker's channel. */
  function Queued(h: Shared, x: nat): nat { multiset(h.inbox)[x] + h.landing[x] + h.lost[x] }

  function AllHeld(ws: seq<Local>, x: nat): nat { if ws == [] then 0 else Held(ws[0], x) + AllHeld(ws[1..], x) }

  function AllQueued(ch: seq<Shared>, x: nat): nat { if ch == [] then 0 else Queued(ch[0], x) + AllQueued(ch[1..], x) }

  /** In how many places connection `x` is. */
  function Places(s: State, x: nat): nat { AllHeld(s.ws, x) + AllQueued(s.ch, x) + s.dropped[x] + s.closed[x] }

  lemma {:induction false} HeldUpdate(ws: seq<Local>, i: nat, w: Local, x: nat)
    requires i < |ws|
    ensures AllHeld(ws[i := w], x) + Held(ws[i], x) == AllHeld(ws, x) + Held(w, x)
  {
    hide Held;
    if i == 0 {
      assert ws[0 := w][1..] == ws[1..];
    } else {
      HeldUpdate(ws[1..], i - 1, w, x);
      assert ws[i := w][1..] == ws[1..][i - 1 := w];
      assert ws[i := w][0] == ws[0];
    }
  }

  lemma {:induction false} QueuedUpdate(ch: seq<Shared>, i: nat, h: Shared, x: nat)
    requires i < |ch|
    ensures AllQueued(ch[i := h], x) + Queued(ch[i], x) == AllQueued(ch, x) + Queued(h, x)
  {
    hide Queued;
    if i == 0 {
      assert ch[0 := h][1..] == ch[1..];
    } else {
      QueuedUpdate(ch[1..], i - 1, h, x);
      assert ch[i := h][1..] == ch[1..][i - 1 := h];
      assert ch[i := h][0] == ch[0];
    }
  }

  // ---- The invariant ---------------------------------------------------------------------------------

  ghost predicate SoundAt(c: Config, s: State, j: nat)
    requires j < |s.ws| == |s.ch|
  {
    Sound(c, s.ws[j], s.ch[j], Claims(s.ws, j)) && PcSound(s.ws[j].pc, s.ch)
  }

  ghost predicate Inv(c: Config, s: State) {
    && |s.ws| == |s.ch|
    && (forall j :: 0 <= j < |s.ws| ==> SoundAt(c, s, j))
    && (forall x: nat :: Places(s, x) == Bit(x < s.next))
  }

  predicate Sane(c: Config) { 1 <= c.cap && 2 * c.cap <= c.retired }

  lemma Popped(q: seq<nat>, x: nat)
    requires q != []
    ensures multiset(q)[x] == Bit(q[0] == x) + multiset(q[1..])[x]
  {
    assert q == [q[0]] + q[1..];
  }

  lemma Moves(m: multiset<nat>, c: nat, x: nat)
    ensures (m + multiset{c})[x] == m[x] + Bit(c == x)
    ensures c in m ==> (m - multiset{c})[x] == m[x] - Bit(c == x)
    ensures multiset{c}[x] == Bit(c == x) && NOBODY[x] == 0
  {
  }

  lemma NoneAlone(x: nat)
    ensures NOBODY[x] == 0
  {
  }

  lemma Alone(y: nat, x: nat)
    ensures multiset{y}[x] == Bit(y == x) && NOBODY[x] == 0
  {
  }

  ghost predicate Carries(c: Config, w: Local, own: bool, h: Shared, a: Action, x: nat) {
    PlacingEffect(c, w, own, h, a).Some? ==>
      var e := PlacingEffect(c, w, own, h, a).value;
      && Held(e.w, x) + Queued(e.h, x) + e.dropped[x] + e.closed[x] == Held(w, x) + Queued(h, x)
      && e.accepted == NOBODY
  }

  lemma KeepCarries(c: Config, w: Local, own: bool, h: Shared, a: Action, x: nat)
    requires (a.Keep? || a.Send?) && (w.pending.Some? ==> w.pc.Idle? || w.pc.Adopting?)
    ensures Carries(c, w, own, h, a, x)
  {
    if w.pc.Claimed? {
      Moves(w.served, w.pc.conn, x);
      Moves(h.landing, w.pc.conn, x);
    }
  }

  lemma DropCarries(c: Config, w: Local, own: bool, h: Shared, a: Action, x: nat)
    requires (a.HoldFails? || a.Discard?) && (w.pending.Some? ==> w.pc.Idle? || w.pc.Adopting?)
    ensures Carries(c, w, own, h, a, x)
  {
    if w.pc.Placing? || w.pc.Claimed? {
      Alone(w.pc.conn, x);
    }
  }

  lemma HandsCarry(c: Config, w: Local, own: bool, h: Shared, a: Action, x: nat)
    requires !a.Keep? && !a.Send? && !a.HoldFails? && !a.Discard?
    requires w.pending.Some? ==> w.pc.Idle? || w.pc.Adopting?
    ensures Carries(c, w, own, h, a, x)
  {
    NoneAlone(x);
  }

  /** A step of placing moves the connection in hand from one place to another. */
  lemma PlacingConserves(c: Config, w: Local, own: bool, h: Shared, a: Action, x: nat)
    requires PlacingEffect(c, w, own, h, a).Some? && (w.pending.Some? ==> w.pc.Idle? || w.pc.Adopting?)
    ensures var e := PlacingEffect(c, w, own, h, a).value;
            Held(e.w, x) + Queued(e.h, x) + e.dropped[x] + e.closed[x] == Held(w, x) + Queued(h, x)
    ensures PlacingEffect(c, w, own, h, a).value.accepted == NOBODY
  {
    hide PlacingEffect, Held, Queued;
    if a.Keep? || a.Send? {
      KeepCarries(c, w, own, h, a, x);
    } else if a.HoldFails? || a.Discard? {
      DropCarries(c, w, own, h, a, x);
    } else {
      HandsCarry(c, w, own, h, a, x);
    }
  }

  lemma Pushed(q: seq<nat>, y: nat, x: nat)
    ensures multiset(q + [y])[x] == multiset(q)[x] + Bit(y == x)
  {
    assert multiset(q + [y]) == multiset(q) + multiset{y};
    Moves(multiset(q), y, x);
  }

  ghost predicate Conserves(c: Config, w: Local, h: Shared, next: nat, a: Action, x: nat) {
    OwnEffect(c, w, h, next, a).Some? ==>
      var e := OwnEffect(c, w, h, next, a).value;
      && Held(e.w, x) + Queued(e.h, x) + e.dropped[x] + e.closed[x]
         == Held(w, x) + Queued(h, x) + Bit(a.Accept? && x == next)
      && |e.accepted| == Bit(a.Accept?)
  }

  lemma LandConserves(c: Config, w: Local, h: Shared, next: nat, a: Action, x: nat)
    requires a.Land?
    ensures Conserves(c, w, h, next, a, x)
  {
    var y := a.conn;
    Moves(h.landing, y, x);
    if w.phase.Dead? {
      Moves(h.lost, y, x);
    } else {
      Pushed(h.inbox, y, x);
    }
  }

  lemma PopConserves(c: Config, w: Local, h: Shared, next: nat, a: Action, x: nat)
    requires a.Adopt? || a.Recount?
    ensures Conserves(c, w, h, next, a, x)
  {
    if h.inbox != [] {
      Popped(h.inbox, x);
      Moves(w.served, h.inbox[0], x);
    }
  }

  lemma EndConserves(c: Config, w: Local, h: Shared, next: nat, a: Action, x: nat)
    requires a.Finish? || a.ServeAdopted? || a.DropAdopted?
    ensures Conserves(c, w, h, next, a, x)
  {
    var y := if a.Finish? then a.conn else if w.pc.Adopting? then w.pc.conn else 0;
    Moves(w.served, y, x);
  }

  lemma DieConserves(c: Config, w: Local, h: Shared, next: nat, a: Action, x: nat)
    requires a.Die?
    ensures Conserves(c, w, h, next, a, x)
  {
    var none: seq<nat> := [];
    assert multiset(none) == NOBODY;
    assert (h.lost + multiset(h.inbox))[x] == h.lost[x] + multiset(h.inbox)[x];
  }

  lemma HeldConserves(c: Config, w: Local, h: Shared, next: nat, a: Action, x: nat)
    requires a.Retry? || a.RecountHeld?
    ensures Conserves(c, w, h, next, a, x)
  {
  }

  lemma LifeConserves(c: Config, w: Local, h: Shared, next: nat, a: Action, x: nat)
    requires a.Start? || a.Abandon? || a.Accept? || a.Retire? || a.CloseInbox? || a.Stop?
    ensures Conserves(c, w, h, next, a, x)
  {
  }

  lemma OwnConserves(c: Config, w: Local, h: Shared, next: nat, a: Action, x: nat)
    requires OwnEffect(c, w, h, next, a).Some?
    ensures Conserves(c, w, h, next, a, x)
  {
    hide Conserves, Held, Queued;
    match a
    case Land(_) => LandConserves(c, w, h, next, a, x);
    case Adopt | Recount => PopConserves(c, w, h, next, a, x);
    case Finish(_) => EndConserves(c, w, h, next, a, x);
    case ServeAdopted | DropAdopted => EndConserves(c, w, h, next, a, x);
    case Die => DieConserves(c, w, h, next, a, x);
    case Retry | RecountHeld => HeldConserves(c, w, h, next, a, x);
    case Start | Abandon | Accept | Retire | CloseInbox | Stop => LifeConserves(c, w, h, next, a, x);
    case _ =>
  }

  // ---- Each step keeps the accounts ----------------------------------------------------------------

  /** A worker that places a connection on itself. */
  lemma PlacingOwnSound(c: Config, w: Local, h: Shared, a: Action, i: nat, k: nat)
    requires Sane(c) && Sound(c, w, h, k) && k >= Claim(w, i) && TargetOf(w, i, a) == i
    requires PlacingEffect(c, w, true, h, a).Some? && (w.pc.Bounced? ==> !h.inboxOpen)
    ensures var e := PlacingEffect(c, w, true, h, a).value; Sound(c, e.w, e.h, k - Claim(w, i) + Claim(e.w, i))
  {
  }

  /** The worker a connection is placed on by another. */
  ghost predicate TargetStaysSound(c: Config, w: Local, wt: Local, h: Shared, a: Action, t: nat, k: nat)
    requires k >= Claim(w, t)
  {
    PlacingEffect(c, w, false, h, a).Some? ==>
      var e := PlacingEffect(c, w, false, h, a).value; Sound(c, wt, e.h, k - Claim(w, t) + Claim(e.w, t))
  }

  lemma SendSound(c: Config, w: Local, wt: Local, h: Shared, a: Action, t: nat, k: nat)
    requires Sound(c, wt, h, k) && k >= Claim(w, t) && (w.pc.Claimed? ==> w.pc.target == t) && a.Send?
    ensures TargetStaysSound(c, w, wt, h, a, t, k)
  {
  }

  lemma RetargetSound(c: Config, w: Local, wt: Local, h: Shared, a: Action, t: nat, k: nat)
    requires Sane(c) && Sound(c, wt, h, k) && k >= Claim(w, t) && a.Retarget?
    requires w.pc.Bounced? ==> w.pc.target == t && !h.inboxOpen
    ensures TargetStaysSound(c, w, wt, h, a, t, k)
  {
  }

  lemma TrySound(c: Config, w: Local, wt: Local, h: Shared, a: Action, t: nat, k: nat)
    requires Sane(c) && Sound(c, wt, h, k) && k >= Claim(w, t)
    requires w.pc.Trying? || w.pc.Claimed? ==> a.Look? || w.pc.target == t
    requires a.Look? || a.Swap? || a.Miss? || a.Pass? || a.Keep? || a.Discard? || a.Bounce?
    requires a.Look? ==> a.target == t
    ensures TargetStaysSound(c, w, wt, h, a, t, k)
  {
    hide Orderly;
    OrderlyByShared(wt, h);
  }

  /** Only the count may change. */
  lemma OrderlyByShared(w: Local, h: Shared)
    ensures Orderly(w, h) ==> forall n: int :: Orderly(w, h.(open := n))
  {
  }

  lemma PlacingTargetSound(c: Config, w: Local, wt: Local, h: Shared, a: Action, t: nat, k: nat)
    requires Sane(c) && Sound(c, wt, h, k) && k >= Claim(w, t)
    requires a.Look? || (w.pc.Trying? || w.pc.Claimed? || w.pc.Bounced? ==> w.pc.target == t)
    requires w.pc.Bounced? ==> !h.inboxOpen
    requires PlacingEffect(c, w, false, h, a).Some? && (a.Look? ==> a.target == t)
    requires !a.Hold? && !a.HoldFails?
    ensures var e := PlacingEffect(c, w, false, h, a).value; Sound(c, wt, e.h, k - Claim(w, t) + Claim(e.w, t))
  {
    hide Sound, Claim;
    if a.Send? {
      SendSound(c, w, wt, h, a, t, k);
    } else if a.Retarget? {
      RetargetSound(c, w, wt, h, a, t, k);
    } else {
      TrySound(c, w, wt, h, a, t, k);
    }
  }

  /** The worker that does the placing on another. */
  lemma PlacingActorSound(c: Config, w: Local, own: bool, h: Shared, hi: Shared, a: Action, k: nat)
    requires Sound(c, w, hi, k)
    requires PlacingEffect(c, w, own, h, a).Some? && !a.Keep? && !a.Hold? && !a.HoldFails?
    ensures var e := PlacingEffect(c, w, own, h, a).value; Sound(c, e.w, hi, k)
  {
  }

  ghost predicate KeepsSound(c: Config, w: Local, h: Shared, next: nat, a: Action, k: nat) {
    OwnEffect(c, w, h, next, a).Some? ==>
      var e := OwnEffect(c, w, h, next, a).value;
      Sound(c, e.w, e.h, k)
  }

  lemma StartSound(c: Config, w: Local, h: Shared, next: nat, a: Action, k: nat)
    requires Sane(c) && Sound(c, w, h, k) && (a.Start? || a.Abandon? || a.Accept? || a.Retry?)
    ensures KeepsSound(c, w, h, next, a, k)
  {
  }

  lemma DieSound(c: Config, w: Local, h: Shared, next: nat, a: Action, k: nat)
    requires Sane(c) && Sound(c, w, h, k) && a.Die?
    ensures KeepsSound(c, w, h, next, a, k)
  {
  }

  lemma LandSound(c: Config, w: Local, h: Shared, next: nat, a: Action, k: nat)
    requires Sane(c) && Sound(c, w, h, k) && a.Land?
    ensures KeepsSound(c, w, h, next, a, k)
  {
  }

  /** A connection that ends takes one off the count. */
  lemma EndsOne(c: Config, w: Local, w': Local, h: Shared, k: nat)
    requires Sound(c, w, h, k) && Live(w') == Live(w) - 1
    requires w'.phase == w.phase && w'.pending == w.pending && (w'.pc == w.pc || w'.pc.Idle?)
    ensures Sound(c, w', h.(open := h.open - 1), k)
  {
    hide Live;
  }

  lemma FinishSound(c: Config, w: Local, h: Shared, next: nat, a: Action, k: nat)
    requires Sane(c) && Sound(c, w, h, k) && (a.Finish? || a.DropAdopted?)
    ensures KeepsSound(c, w, h, next, a, k)
  {
    hide Sound;
    if a.Finish? && a.conn in w.served {
      OneLess(w.served, a.conn);
      EndsOne(c, w, w.(served := w.served - multiset{a.conn}), h, k);
    } else if a.DropAdopted? && w.pc.Adopting? {
      EndsOne(c, w, w.(pc := Idle), h, k);
    }
  }

  lemma OneLess(m: multiset<nat>, x: nat)
    requires x in m
    ensures |m - multiset{x}| == |m| - 1
  {
  }

  lemma ServeSound(c: Config, w: Local, h: Shared, next: nat, a: Action, k: nat)
    requires Sane(c) && Sound(c, w, h, k) && (a.Adopt? || a.ServeAdopted?)
    ensures KeepsSound(c, w, h, next, a, k)
  {
  }

  lemma DrainSound(c: Config, w: Local, h: Shared, next: nat, a: Action, k: nat)
    requires Sane(c) && Sound(c, w, h, k) && (a.CloseInbox? || a.Stop?)
    ensures KeepsSound(c, w, h, next, a, k)
  {
  }

  lemma RetireSound(c: Config, w: Local, h: Shared, next: nat, a: Action, k: nat)
    requires Sane(c) && Sound(c, w, h, k) && a.Retire?
    ensures KeepsSound(c, w, h, next, a, k)
  {
  }

  lemma RecountSound(c: Config, w: Local, h: Shared, next: nat, a: Action, k: nat)
    requires Sane(c) && Sound(c, w, h, k) && (a.RecountHeld? || a.Recount?)
    ensures KeepsSound(c, w, h, next, a, k)
  {
  }

  lemma OwnSound(c: Config, w: Local, h: Shared, next: nat, a: Action, k: nat)
    requires Sane(c) && Sound(c, w, h, k)
    requires OwnEffect(c, w, h, next, a).Some?
    ensures KeepsSound(c, w, h, next, a, k)
  {
    hide KeepsSound, Sound;
    match a
    case Start | Abandon | Accept | Retry => StartSound(c, w, h, next, a, k);
    case Die => DieSound(c, w, h, next, a, k);
    case Land(_) => LandSound(c, w, h, next, a, k);
    case Adopt | ServeAdopted => ServeSound(c, w, h, next, a, k);
    case DropAdopted => FinishSound(c, w, h, next, a, k);
    case Finish(_) => FinishSound(c, w, h, next, a, k);
    case Retire => RetireSound(c, w, h, next, a, k);
    case CloseInbox | Stop => DrainSound(c, w, h, next, a, k);
    case RecountHeld | Recount => RecountSound(c, w, h, next, a, k);
    case _ =>
  }

  /** Retiring and closing are for good. */
  lemma SharedMonotone(c: Config, w: Local, own: bool, h: Shared, next: nat, a: Action)
    requires Effect(c, w, own, h, next, a).Some?
    ensures var e := Effect(c, w, own, h, next, a).value; (h.retired ==> e.h.retired) && (!h.inboxOpen ==> !e.h.inboxOpen)
  {
  }

  lemma PcStable(pc: Pc, ch: seq<Shared>, t: nat, h: Shared)
    requires PcSound(pc, ch) && t < |ch|
    requires (ch[t].retired ==> h.retired) && (!ch[t].inboxOpen ==> !h.inboxOpen)
    ensures PcSound(pc, ch[t := h])
  {
  }

  lemma PcStep(c: Config, s: State, i: nat, a: Action, t: nat)
    requires Sane(c) && Inv(c, s) && i < |s.ws| && t == TargetOf(s.ws[i], i, a) < |s.ch|
    requires Effect(c, s.ws[i], t == i, s.ch[t], s.next, a).Some?
    ensures var e := Effect(c, s.ws[i], t == i, s.ch[t], s.next, a).value; PcSound(e.w.pc, s.ch[t := e.h])
  {
    hide Places, Claims, Held, Queued, PcSound, OwnEffect, PlacingEffect, TargetOf, Sound;
    assert SoundAt(c, s, i) && SoundAt(c, s, t);
    var w := s.ws[i];
    var e := Effect(c, w, t == i, s.ch[t], s.next, a).value;
    SharedMonotone(c, w, t == i, s.ch[t], s.next, a);
    PcStable(w.pc, s.ch, t, e.h);
    RetiredIsFull(c, s.ws[t], s.ch[t], Claims(s.ws, t));
    if IsPlacing(a) {
      PlacingPc(c, w, i, a, s.ch, t);
    } else {
      OwnPc(c, w, s.ch[t], s.next, a);
      OwnPcSound(e.w.pc, w.pc, s.ch[t := e.h]);
    }
  }

  /** A retired worker's count is past the cap. */
  lemma RetiredIsFull(c: Config, w: Local, h: Shared, k: nat)
    requires Sane(c) && Sound(c, w, h, k)
    ensures h.retired ==> h.open >= c.cap
  {
  }

  lemma PlacingPc(c: Config, w: Local, i: nat, a: Action, ch: seq<Shared>, t: nat)
    requires IsPlacing(a) && t == TargetOf(w, i, a) < |ch| && PcSound(w.pc, ch)
    requires PlacingEffect(c, w, t == i, ch[t], a).Some? && (ch[t].retired ==> ch[t].open >= c.cap)
    ensures var e := PlacingEffect(c, w, t == i, ch[t], a).value; PcSound(e.w.pc, ch[t := e.h])
  {
  }

  /** A step of a worker's own life leaves its hands as they were, empty, or with a
      connection nothing is yet known of. */
  lemma OwnPc(c: Config, w: Local, h: Shared, next: nat, a: Action)
    requires OwnEffect(c, w, h, next, a).Some?
    ensures var pc := OwnEffect(c, w, h, next, a).value.w.pc;
            pc == w.pc || pc.Idle? || pc.Adopting? || (pc.Placing? && pc.refused == {})
  {
  }

  lemma OwnPcSound(pc: Pc, before: Pc, ch: seq<Shared>)
    requires pc == before || pc.Idle? || pc.Adopting? || (pc.Placing? && pc.refused == {})
    requires PcSound(before, ch)
    ensures PcSound(pc, ch)
  {
  }

  lemma PlacingClaimElsewhere(c: Config, w: Local, i: nat, own: bool, h: Shared, a: Action, j: nat)
    requires PlacingEffect(c, w, own, h, a).Some? && j != TargetOf(w, i, a) && IsPlacing(a)
    ensures Claim(PlacingEffect(c, w, own, h, a).value.w, j) == Claim(w, j)
  {
  }

  lemma OwnKeepsClaims(c: Config, w: Local, h: Shared, next: nat, a: Action, j: nat)
    requires OwnEffect(c, w, h, next, a).Some?
    ensures Claim(OwnEffect(c, w, h, next, a).value.w, j) == Claim(w, j)
  {
    OwnTakesUp(c, w, h, next, a);
    hide OwnEffect;
  }

  /** A step of a worker's own life leaves its hands alone, takes something up or puts it
      down, and claims nothing. */
  lemma OwnTakesUp(c: Config, w: Local, h: Shared, next: nat, a: Action)
    requires OwnEffect(c, w, h, next, a).Some?
    ensures var pc := OwnEffect(c, w, h, next, a).value.w.pc;
            pc == w.pc || ((w.pc.Idle? || w.pc.Adopting?) && (pc.Idle? || pc.Placing? || pc.Adopting?))
  {
  }

  /** A step that can be taken, and the state it leads to. */
  lemma AfterIs(c: Config, s: State, i: nat, a: Action)
    requires After(c, s, i, a).Some?
    ensures i < |s.ws| == |s.ch| && TargetOf(s.ws[i], i, a) < |s.ch|
    ensures var t := TargetOf(s.ws[i], i, a);
            Effect(c, s.ws[i], t == i, s.ch[t], s.next, a).Some? &&
            var e := Effect(c, s.ws[i], t == i, s.ch[t], s.next, a).value;
            After(c, s, i, a).value
            == State(s.ws[i := e.w], s.ch[t := e.h], s.dropped + e.dropped, s.closed + e.closed, s.next + |e.accepted|)
  {
    hide TargetOf, Effect;
  }

  /** The accounts of every worker after a step. */
  lemma SoundAfter(c: Config, s: State, i: nat, a: Action, j: nat)
    requires Sane(c) && Inv(c, s) && After(c, s, i, a).Some? && j < |s.ws|
    ensures var s' := After(c, s, i, a).value;
            j < |s'.ws| && j < |s'.ch| && Sound(c, s'.ws[j], s'.ch[j], Claims(s'.ws, j))
  {
    hide Claims, OwnEffect, PlacingEffect, Places, After, TargetOf, Claim, Balanced, Orderly, IsPlacing;
    AfterIs(c, s, i, a);
    var t := TargetOf(s.ws[i], i, a);
    var w := s.ws[i];
    var e := Effect(c, w, t == i, s.ch[t], s.next, a).value;
    var k := Claims(s.ws, j);
    ClaimsUpdate(s.ws, i, e.w, j);
    assert SoundAt(c, s, j) && SoundAt(c, s, i) && SoundAt(c, s, t);
    if IsPlacing(a) {
      SoundAfterPlacing(c, s.ws, s.ch, i, a, t, e, j, k);
    } else {
      OwnTarget(w, i, a);
      OwnKeepsClaims(c, w, s.ch[t], s.next, a, j);
      if j == i {
        OwnSound(c, w, s.ch[t], s.next, a, k);
      }
    }
  }

  lemma OwnTarget(w: Local, i: nat, a: Action)
    requires !IsPlacing(a)
    ensures TargetOf(w, i, a) == i
  {
  }

  lemma SoundAfterPlacing(c: Config, ws: seq<Local>, ch: seq<Shared>, i: nat, a: Action, t: nat, e: Change, j: nat, k: nat)
    requires Sane(c) && IsPlacing(a) && |ws| == |ch| && i < |ws| && j < |ws| && t < |ws| && t == TargetOf(ws[i], i, a)
    requires PlacingEffect(c, ws[i], t == i, ch[t], a) == Some(e)
    requires Sound(c, ws[j], ch[j], k) && k >= Claim(ws[i], j) && (ws[i].pc.Bounced? ==> ws[i].pc.target < |ch| && !ch[ws[i].pc.target].inboxOpen)
    ensures Sound(c, ws[i := e.w][j], ch[t := e.h][j], k - Claim(ws[i], j) + Claim(e.w, j))
  {
    hide Sound, PlacingEffect;
    var w := ws[i];
    PlacingTargets(w, i, a);
    BouncedRetargets(c, w, t == i, ch[t], a);
    if j != t {
      PlacingClaimElsewhere(c, w, i, t == i, ch[t], a, j);
    }
    hide Claim, TargetOf, IsPlacing;
    if t == i && j == t {
      PlacingOwnSound(c, w, ch[t], a, i, k);
    } else if t != i {
      PlacingAway(c, w, ch[t], a);
      if j == t {
        PlacingTargetSound(c, w, ws[t], ch[t], a, t, k);
      } else if j == i {
        PlacingActorSound(c, w, false, ch[t], ch[i], a, k);
      }
    }
  }

  lemma PlacingTargets(w: Local, i: nat, a: Action)
    requires IsPlacing(a)
    ensures var t := TargetOf(w, i, a);
            && (a.Look? ==> a.target == t)
            && (!a.Look? && !a.Hold? && !a.HoldFails? && (w.pc.Trying? || w.pc.Claimed? || w.pc.Bounced?) ==> w.pc.target == t)
            && (a.Hold? || a.HoldFails? ==> t == i)
  {
  }

  lemma BouncedRetargets(c: Config, w: Local, own: bool, h: Shared, a: Action)
    ensures PlacingEffect(c, w, own, h, a).Some? && w.pc.Bounced? ==> a.Retarget?
  {
  }

  lemma PlacingAway(c: Config, w: Local, h: Shared, a: Action)
    ensures PlacingEffect(c, w, false, h, a).Some? ==> !a.Keep?
  {
  }

  lemma PlacesAfter(c: Config, s: State, i: nat, a: Action, x: nat)
    requires Inv(c, s) && After(c, s, i, a).Some?
    ensures var s' := After(c, s, i, a).value; Places(s', x) == Bit(x < s'.next)
  {
    hide After, Sound, OwnEffect, PlacingEffect, Held, Queued, AllHeld, AllQueued, TargetOf;
    AfterIs(c, s, i, a);
    var t := TargetOf(s.ws[i], i, a);
    var w, h := s.ws[i], s.ch[t];
    var e := Effect(c, w, t == i, h, s.next, a).value;
    HeldUpdate(s.ws, i, e.w, x);
    QueuedUpdate(s.ch, t, e.h, x);
    assert SoundAt(c, s, i) && Places(s, x) == Bit(x < s.next);
    if IsPlacing(a) {
      OrderlyHolds(c, w, s.ch[i], Claims(s.ws, i));
      PlacingConserves(c, w, t == i, h, a, x);
    } else {
      OwnConserves(c, w, h, s.next, a, x);
    }
  }

  lemma OrderlyHolds(c: Config, w: Local, h: Shared, k: nat)
    requires Sound(c, w, h, k)
    ensures w.pending.Some? ==> w.pc.Idle? || w.pc.Adopting?
  {
  }

  /** Every step of every worker keeps the invariant. */
  lemma StepKeepsInv(c: Config, s: State, i: nat, a: Action)
    requires Sane(c) && Inv(c, s) && After(c, s, i, a).Some?
    ensures Inv(c, After(c, s, i, a).value)
  {
    var s' := After(c, s, i, a).value;
    var t := TargetOf(s.ws[i], i, a);
    var e := Effect(c, s.ws[i], t == i, s.ch[t], s.next, a).value;
    PcStep(c, s, i, a, t);
    SharedMonotone(c, s.ws[i], t == i, s.ch[t], s.next, a);
    hide Sound, Claims, Effect, PcSound, Places, TargetOf;
    forall j | 0 <= j < |s'.ws|
      ensures SoundAt(c, s', j)
    {
      SoundAfter(c, s, i, a, j);
      assert SoundAt(c, s, j);
      if j != i {
        PcStable(s.ws[j].pc, s.ch, t, e.h);
      }
    }
    forall x: nat
      ensures Places(s', x) == Bit(x < s'.next)
    {
      PlacesAfter(c, s, i, a, x);
    }
  }

  // ---- Runs ------------------------------------------------------------------------------------------

  datatype Move = Move(worker: nat, action: Action)

  /** The state an interleaving reaches, if each of its steps can be taken. */
  function Run(c: Config, s: State, moves: seq<Move>): Option<State>
    decreases |moves|
  {
    if moves == [] then Some(s)
    else
      match After(c, s, moves[0].worker, moves[0].action)
      case None => None
      case Some(s') => Run(c, s', moves[1..])
  }

  lemma {:induction false} NobodyYet(n: nat, x: nat)
    ensures AllHeld(Initial(n).ws, x) == 0 && AllQueued(Initial(n).ch, x) == 0 && Claims(Initial(n).ws, x) == 0
  {
    if n > 0 {
      NobodyYet(n - 1, x);
      assert Initial(n).ws[1..] == Initial(n - 1).ws && Initial(n).ch[1..] == Initial(n - 1).ch;
    }
  }

  lemma InitialInv(c: Config, n: nat)
    ensures Inv(c, Initial(n))
  {
    forall x: nat
      ensures AllHeld(Initial(n).ws, x) == 0 && AllQueued(Initial(n).ch, x) == 0 && Claims(Initial(n).ws, x) == 0
    {
      NobodyYet(n, x);
    }
    var s := Initial(n);
    forall j | 0 <= j < n
      ensures SoundAt(c, s, j)
    {
      assert s.ws[j] == NEW_LOCAL && s.ch[j] == NEW_SHARED;
    }
  }

  lemma {:induction false} RunKeepsInv(c: Config, s: State, moves: seq<Move>)
    requires Sane(c) && Inv(c, s) && Run(c, s, moves).Some?
    ensures Inv(c, Run(c, s, moves).value)
    decreases |moves|
  {
    hide Inv, After;
    if moves != [] {
      StepKeepsInv(c, s, moves[0].worker, moves[0].action);
      RunKeepsInv(c, After(c, s, moves[0].worker, moves[0].action).value, moves[1..]);
    }
  }

  /** A state some interleaving of `n` workers reaches. */
  ghost predicate Reachable(c: Config, n: nat, s: State) {
    exists moves :: Run(c, Initial(n), moves) == Some(s)
  }

  lemma ReachableInv(c: Config, n: nat, s: State)
    requires Sane(c) && Reachable(c, n, s)
    ensures Inv(c, s)
  {
    var moves :| Run(c, Initial(n), moves) == Some(s);
    InitialInv(c, n);
    RunKeepsInv(c, Initial(n), moves);
  }

  // ---- Main results --------------------------------------------------------------------------------------

  /** In every interleaving, a worker that is not retired has counted exactly the
      connections it serves or is adopting, those queued or landing in its inbox, those lost with it,
      and those claimed on it and not yet sent, and never more than its cap. */
  lemma SlotAccounting(c: Config, n: nat, s: State, j: nat)
    requires Sane(c) && Reachable(c, n, s) && j < |s.ws|
    ensures |s.ws| == |s.ch|
    ensures !s.ch[j].retired ==>
              && s.ch[j].open == |s.ws[j].served| + Bit(s.ws[j].pc.Adopting?) + |s.ch[j].inbox| + |s.ch[j].landing|
                                 + |s.ch[j].lost| + Claims(s.ws, j)
              && s.ch[j].open <= c.cap
    ensures 0 <= s.ch[j].open <= c.retired + c.cap + 1
    ensures |s.ws[j].served| <= c.cap + 1
  {
    ReachableInv(c, n, s);
    hide Places, Claims, PcSound;
    assert SoundAt(c, s, j);
  }

  /** A retired worker is never reserved again, by any worker, in any interleaving, and
      stays retired. */
  lemma RetiredForGood(c: Config, n: nat, s: State, i: nat, a: Action, j: nat)
    requires Sane(c) && Reachable(c, n, s) && j < |s.ch| && s.ch[j].retired
    ensures s.ch[j].open >= c.cap
    ensures After(c, s, i, a).Some? ==> After(c, s, i, a).value.ch[j].retired
    ensures a.Swap? && After(c, s, i, a).Some? ==> TargetOf(s.ws[i], i, a) != j
  {
    ReachableInv(c, n, s);
    hide Places, Claims, PcSound;
    assert SoundAt(c, s, j);
    if After(c, s, i, a).Some? {
      var t := TargetOf(s.ws[i], i, a);
      SharedMonotone(c, s.ws[i], t == i, s.ch[t], s.next, a);
    }
  }

  /** Every connection accepted so far is in exactly one place, and no other is in
      any. */
  lemma ExactlyOnce(c: Config, n: nat, s: State, x: nat)
    requires Sane(c) && Reachable(c, n, s)
    ensures Places(s, x) == if x < s.next then 1 else 0
  {
    ReachableInv(c, n, s);
    hide Places;
  }

  /** A stopped worker leaves nothing behind; only a worker that never started loses
      what was sent to it. */
  lemma NothingStranded(c: Config, n: nat, s: State, j: nat)
    requires Sane(c) && Reachable(c, n, s) && j < |s.ws| == |s.ch|
    ensures s.ws[j].phase.Stopped? ==>
              s.ch[j].inbox == [] && s.ch[j].landing == NOBODY && s.ws[j].pending.None? && s.ws[j].pc.Idle?
    ensures s.ch[j].lost != NOBODY ==> s.ws[j].phase.Dead?
  {
    ReachableInv(c, n, s);
    hide Places, Claims, PcSound, Balanced;
    assert SoundAt(c, s, j);
  }

  /** A worker with a connection it could not place is placing no other and accepts
      none, though it adopts those handed to it. */
  lemma HoldsAtMostOne(c: Config, n: nat, s: State, j: nat)
    requires Sane(c) && Reachable(c, n, s) && j < |s.ws| == |s.ch|
    requires s.ws[j].pending.Some? || !s.ws[j].pc.Idle?
    ensures s.ws[j].pending.None? || s.ws[j].pc.Idle? || s.ws[j].pc.Adopting?
    ensures After(c, s, j, Accept).None?
  {
    ReachableInv(c, n, s);
    hide Places, Claims, PcSound, Balanced;
    assert SoundAt(c, s, j);
  }

  /** Having read a count, a worker counts its connection there exactly if that is below the
      cap and has not changed since, and looks elsewhere exactly if it is not. */
  lemma CountsExactly(c: Config, s: State, i: nat)
    requires i < |s.ws| == |s.ch| && s.ws[i].pc.Trying? && s.ws[i].pc.target < |s.ch|
    ensures var pc, h := s.ws[i].pc, s.ch[s.ws[i].pc.target];
            && (After(c, s, i, Swap).Some? <==> pc.seen < c.cap && h.open == pc.seen)
            && (After(c, s, i, Pass).Some? <==> pc.seen >= c.cap) && (After(c, s, i, Miss).Some? <==> pc.seen < c.cap)
            && (After(c, s, i, Swap).Some? ==>
                  After(c, s, i, Swap).value.ch == s.ch[pc.target := h.(open := pc.seen + 1)])
  {
  }

  /** A connection is dropped exactly by the steps that say so, and closed exactly when one
      served ends. */
  lemma DropsAndCloses(c: Config, s: State, i: nat, a: Action)
    requires After(c, s, i, a).Some?
    ensures After(c, s, i, a).value.dropped != s.dropped <==> a.HoldFails? || a.Discard? || a.DropAdopted?
    ensures After(c, s, i, a).value.closed != s.closed <==> a.Finish?
  {
    hide TargetOf, Effect;
    AfterIs(c, s, i, a);
    var t := TargetOf(s.ws[i], i, a);
    Departs(c, s.ws[i], t == i, s.ch[t], s.next, a);
    var e := Effect(c, s.ws[i], t == i, s.ch[t], s.next, a).value;
    MoreOf(s.dropped, e.dropped);
    MoreOf(s.closed, e.closed);
  }

  lemma Departs(c: Config, w: Local, own: bool, h: Shared, next: nat, a: Action)
    requires Effect(c, w, own, h, next, a).Some?
    ensures var e := Effect(c, w, own, h, next, a).value;
            && (|e.dropped| == if a.HoldFails? || a.Discard? || a.DropAdopted? then 1 else 0)
            && (|e.closed| == if a.Finish? then 1 else 0)
  {
  }

  lemma MoreOf(m: multiset<nat>, d: multiset<nat>)
    ensures m + d == m <==> |d| == 0
  {
    assert |m + d| == |m| + |d|;
    if |d| == 0 {
      assert d == NOBODY;
    }
  }

  /** A connection is lost exactly when a worker dies with it queued, or when it lands
      at a worker already dead; nothing lost is ever found. */
  lemma LossIsExactly(c: Config, s: State, i: nat, a: Action, j: nat)
    requires After(c, s, i, a).Some? && j < |s.ch|
    ensures |After(c, s, i, a).value.ch| == |s.ch| == |s.ws|
    ensures s.ch[j].lost <= After(c, s, i, a).value.ch[j].lost
    ensures After(c, s, i, a).value.ch[j].lost != s.ch[j].lost
            <==> i == j && ((a.Die? && s.ch[j].inbox != []) || (a.Land? && s.ws[j].phase.Dead?))
  {
    hide Effect, TargetOf;
    AfterIs(c, s, i, a);
    var t := TargetOf(s.ws[i], i, a);
    if a.Die? || a.Land? {
      DyingIsOwn(s.ws[i], i, a);
    }
    LostStays(c, s.ws[i], t == i, s.ch[t], s.next, a);
  }

  lemma DyingIsOwn(w: Local, i: nat, a: Action)
    requires a.Die? || a.Land?
    ensures TargetOf(w, i, a) == i
  {
  }

  lemma LostStays(c: Config, w: Local, own: bool, h: Shared, next: nat, a: Action)
    requires Effect(c, w, own, h, next, a).Some?
    ensures var e := Effect(c, w, own, h, next, a).value;
            && h.lost <= e.h.lost
            && (e.h.lost != h.lost <==> (a.Die? && h.inbox != []) || (a.Land? && w.phase.Dead?))
  {
    if a.Die? {
      DyingMoves(h);
    } else if a.Land? {
      assert (h.lost + multiset{a.conn})[a.conn] == h.lost[a.conn] + 1;
    }
  }

  lemma DyingMoves(h: Shared)
    ensures h.lost + multiset(h.inbox) != h.lost <==> h.inbox != []
  {
    if h.inbox != [] {
      var x := h.inbox[0];
      assert x in multiset(h.inbox);
      assert (h.lost + multiset(h.inbox))[x] > h.lost[x];
    } else {
      assert multiset(h.inbox) == NOBODY;
    }
  }

  /** A death with nothing queued to the worker and nothing landing. */
  predicate DiesEmptyHanded(s: State, i: nat, a: Action)
    requires i < |s.ch|
  {
    a.Die? ==> s.ch[i].inbox == [] && s.ch[i].landing == NOBODY
  }

  predicate AllDieEmptyHanded(c: Config, s: State, moves: seq<Move>)
    requires Run(c, s, moves).Some?
    decreases |moves|
  {
    moves == [] ||
    (AfterIs(c, s, moves[0].worker, moves[0].action);
     && DiesEmptyHanded(s, moves[0].worker, moves[0].action)
     && AllDieEmptyHanded(c, After(c, s, moves[0].worker, moves[0].action).value, moves[1..]))
  }

  /** A dead worker's channel is closed. */
  ghost predicate Shut(s: State) {
    |s.ws| == |s.ch| && forall j :: 0 <= j < |s.ch| ==> (s.ws[j].phase.Dead? ==> !s.ch[j].inboxOpen)
  }

  predicate UnlostAt(w: Local, h: Shared) { h.lost == NOBODY && (w.phase.Dead? ==> h.landing == NOBODY) }

  /** Nothing is lost, or about to land where it would be. */
  ghost predicate Unlost(s: State) {
    |s.ws| == |s.ch| && forall j :: 0 <= j < |s.ch| ==> UnlostAt(s.ws[j], s.ch[j])
  }

  /** What a step does to a channel where something may be lost. */
  lemma ClosedChannel(c: Config, w: Local, i: nat, own: bool, h: Shared, next: nat, a: Action)
    requires Effect(c, w, own, h, next, a).Some?
    ensures var e := Effect(c, w, own, h, next, a).value;
            && (!h.inboxOpen ==> !e.h.inboxOpen && (a.Land? || e.h.landing == h.landing))
            && (a.Land? ==> own && h.landing != NOBODY)
            && (a.Die? ==> own && e.w.phase.Dead? && !e.h.inboxOpen && e.h.landing == h.landing)
            && (!a.Die? ==> (e.w.phase.Dead? <==> w.phase.Dead?))
            && (w.phase.Dead? ==> e.w.phase.Dead?)
            && (a.Die? || a.Land? ==> TargetOf(w, i, a) == i)
  {
    if a.Land? {
      assert a.conn in h.landing;
    }
  }

  lemma StaysShut(c: Config, s: State, i: nat, a: Action)
    requires Shut(s) && After(c, s, i, a).Some?
    ensures Shut(After(c, s, i, a).value)
  {
    hide Effect, TargetOf;
    AfterIs(c, s, i, a);
    var t := TargetOf(s.ws[i], i, a);
    ClosedChannel(c, s.ws[i], i, t == i, s.ch[t], s.next, a);
  }

  /** One worker after a step: still nothing lost there exactly when there was nothing
      and it did not die with something queued or landing. */
  lemma UnlostAfter(c: Config, s: State, i: nat, a: Action, j: nat)
    requires Shut(s) && After(c, s, i, a).Some? && j < |s.ch|
    ensures i < |s.ch| == |s.ws|
    ensures var s' := After(c, s, i, a).value;
            && |s'.ch| == |s'.ws| == |s.ch|
            && (UnlostAt(s'.ws[j], s'.ch[j]) <==> UnlostAt(s.ws[j], s.ch[j]) && (i == j ==> DiesEmptyHanded(s, i, a)))
  {
    hide Effect, TargetOf;
    AfterIs(c, s, i, a);
    var t := TargetOf(s.ws[i], i, a);
    LossIsExactly(c, s, i, a, j);
    ClosedChannel(c, s.ws[i], i, t == i, s.ch[t], s.next, a);
    MoreIsSome(s.ch[j].lost, After(c, s, i, a).value.ch[j].lost);
  }

  lemma MoreIsSome(m: multiset<nat>, m': multiset<nat>)
    requires m <= m'
    ensures m' == NOBODY ==> m == NOBODY
  {
  }

  lemma UnlostStep(c: Config, s: State, i: nat, a: Action)
    requires Shut(s) && After(c, s, i, a).Some?
    ensures i < |s.ch| && (Unlost(After(c, s, i, a).value) <==> Unlost(s) && DiesEmptyHanded(s, i, a))
  {
    hide After, UnlostAt, DiesEmptyHanded;
    AfterIs(c, s, i, a);
    var s' := After(c, s, i, a).value;
    forall j | 0 <= j < |s.ch|
      ensures UnlostAt(s'.ws[j], s'.ch[j]) <==> UnlostAt(s.ws[j], s.ch[j]) && (i == j ==> DiesEmptyHanded(s, i, a))
    {
      UnlostAfter(c, s, i, a, j);
    }
    if Unlost(s') {
      assert UnlostAt(s'.ws[i], s'.ch[i]);
    }
  }

  lemma {:induction false} UnlostRun(c: Config, s: State, moves: seq<Move>)
    requires Shut(s) && Run(c, s, moves).Some?
    ensures Unlost(Run(c, s, moves).value) <==> Unlost(s) && AllDieEmptyHanded(c, s, moves)
    decreases |moves|
  {
    hide Unlost, Shut, After, DiesEmptyHanded;
    if moves != [] {
      var i, a := moves[0].worker, moves[0].action;
      AfterIs(c, s, i, a);
      StaysShut(c, s, i, a);
      UnlostStep(c, s, i, a);
      UnlostRun(c, After(c, s, i, a).value, moves[1..]);
    }
  }

  /** In every run nothing is lost, or about to land where it would be, exactly when no
      worker died with something queued to it or landing. */
  lemma NothingLostIff(c: Config, n: nat, moves: seq<Move>)
    requires Run(c, Initial(n), moves).Some?
    ensures Unlost(Run(c, Initial(n), moves).value) <==> AllDieEmptyHanded(c, Initial(n), moves)
  {
    UnlostRun(c, Initial(n), moves);
    hide Run, AllDieEmptyHanded;
    assert Unlost(Initial(n));
  }

  /** Each worker that sends a connection back is retired and is not tried again for it,
      so a connection is sent back at most once by each worker. */
  lemma RouteIsBounded(c: Config, n: nat, s: State, i: nat)
    requires Sane(c) && Reachable(c, n, s) && i < |s.ws|
    requires s.ws[i].pc.Bounced?
    ensures s.ws[i].pc.target !in s.ws[i].pc.refused && |s.ws[i].pc.refused| < |s.ws|
    ensures After(c, s, i, Retarget).Some?
            && After(c, s, i, Retarget).value.ws[i].pc == Placing(s.ws[i].pc.conn, s.ws[i].pc.refused + {s.ws[i].pc.target})
  {
    ReachableInv(c, n, s);
    hide Places, Claims, Sound;
    assert SoundAt(c, s, i);
    var pc := s.ws[i].pc;
    BoundedSet(pc.refused + {pc.target}, |s.ch|);
  }

  lemma {:induction false} BoundedSet(r: set<nat>, n: nat)
    requires forall x :: x in r ==> x < n
    ensures |r| <= n
    decreases n
  {
    if n == 0 {
      assert r == {};
    } else {
      BoundedSet(r - {n - 1}, n - 1);
    }
  }
}
