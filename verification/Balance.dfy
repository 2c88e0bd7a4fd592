/** Choosing a worker for a connection (`Balance` in `src/server.rs`), one call at a
    time. The interleavings of many are in WorkerProtocol. */
module Balance {
  import opened Octets

  const HANDOFF_MARGIN := 2
  const PICK_SAMPLES := 3

  // ---- The choice ------------------------------------------------------------------------

  predicate Indices(open: seq<nat>, ks: seq<nat>) { forall i :: 0 <= i < |ks| ==> ks[i] < |open| }

  function UpTo(n: nat): (r: seq<nat>)
    ensures |r| == n && forall i :: 0 <= i < n ==> r[i] == i
  {
    if n == 0 then [] else UpTo(n - 1) + [n - 1]
  }

  /** The workers looked at: all of a few, else those sampled. */
  function Considered(open: seq<nat>, samples: seq<nat>): seq<nat> {
    if |open| <= PICK_SAMPLES + 1 then UpTo(|open|) else samples
  }

  /** The least loaded of `me` and the workers looked at, the first of equals. */
  function Best(open: seq<nat>, me: nat, ks: seq<nat>): (b: nat)
    requires me < |open| && Indices(open, ks)
    ensures b < |open| && (b == me || b in ks) && open[b] <= open[me]
    ensures forall i :: 0 <= i < |ks| ==> open[b] <= open[ks[i]]
  {
    if ks == [] then me
    else
      var last := ks[|ks| - 1];
      var b := Best(open, me, ks[..|ks| - 1]);
      if open[last] < open[b] then last else b
  }

  function Pick(open: seq<nat>, me: nat, ks: seq<nat>): (t: nat)
    requires me < |open| && Indices(open, ks)
    ensures t < |open|
  {
    if open[me] < HANDOFF_MARGIN then me
    else
      var b := Best(open, me, ks);
      if open[me] - open[b] >= HANDOFF_MARGIN then b else me
  }

  function FirstWithRoom(open: seq<nat>, cap: nat, i: nat): (r: Option<nat>)
    ensures r.Some? ==> r.value < |open| && open[r.value] < cap
    ensures r.None? ==> forall j :: i <= j < |open| ==> open[j] >= cap
    decreases |open| - i
  {
    if i >= |open| then None else if open[i] < cap then Some(i) else FirstWithRoom(open, cap, i + 1)
  }

  function Place(open: seq<nat>, cap: nat, me: nat, ks: seq<nat>): (r: Option<nat>)
    requires me < |open| && Indices(open, ks)
    ensures r.Some? ==> r.value < |open|
  {
    var t := Pick(open, me, ks);
    if t != me && open[t] < cap then Some(t)
    else if open[me] < cap then Some(me)
    else FirstWithRoom(open, cap, 0)
  }

  /** A placement fails exactly when every worker is at its cap, and never takes one
      past it. */
  lemma PlaceFailsIffFull(open: seq<nat>, cap: nat, me: nat, ks: seq<nat>)
    requires me < |open| && Indices(open, ks)
    ensures Place(open, cap, me, ks) == None <==> forall i :: 0 <= i < |open| ==> open[i] >= cap
    ensures Place(open, cap, me, ks).Some? ==> open[Place(open, cap, me, ks).value] < cap
  {
  }

  /** A connection leaves the worker that accepted it only for one at least the margin
      less loaded, or because that worker is full. */
  lemma HandoffIsWorthwhile(open: seq<nat>, cap: nat, me: nat, ks: seq<nat>)
    requires me < |open| && Indices(open, ks)
    ensures var r := Place(open, cap, me, ks);
            r.Some? && r.value != me ==> open[me] - open[r.value] >= HANDOFF_MARGIN || open[me] >= cap
  {
  }

  // ---- The bound -----------------------------------------------------------------------------

  /** The counts of any two workers within the cap differ by at most the margin; a
      retired worker's count is past the cap. */
  ghost predicate Even(open: seq<nat>, cap: nat) {
    forall i, j :: 0 <= i < |open| && 0 <= j < |open| && open[i] <= cap && open[j] <= cap ==>
      open[i] <= open[j] + 2
  }

  /** The counts once a connection accepted by `me` is placed, `samples` being the
      workers sampled when there are too many to look at all. */
  function AfterPlace(open: seq<nat>, cap: nat, me: nat, samples: seq<nat>): (r: seq<nat>)
    requires me < |open| && Indices(open, samples)
    ensures |r| == |open|
  {
    match Place(open, cap, me, Considered(open, samples))
    case None => open
    case Some(t) => open[t := open[t] + 1]
  }

  /** With every worker looked at, none has a connection fewer than the one chosen, but
      for the margin. */
  lemma PlacedLow(open: seq<nat>, cap: nat, me: nat, i: nat)
    requires me < |open| && i < |open| && open[me] <= cap && Even(open, cap)
    ensures var r := Place(open, cap, me, UpTo(|open|));
            r.Some? ==> open[r.value] < cap && open[r.value] + 1 <= open[i] + 2
  {
    hide FirstWithRoom, Best;
    var ks := UpTo(|open|);
    assert ks[i] == i;
    if open[me] >= HANDOFF_MARGIN {
      assert open[Best(open, me, ks)] <= open[ks[i]];
    }
  }

  /** One more connection where no worker has a much smaller count. */
  lemma EvenRaised(open: seq<nat>, cap: nat, t: nat)
    requires Even(open, cap) && t < |open| && open[t] < cap
    requires forall i :: 0 <= i < |open| ==> open[t] + 1 <= open[i] + 2
    ensures Even(open[t := open[t] + 1], cap)
  {
  }

  /** Up to four workers, every one is looked at, and a placement by a live worker keeps
      the counts even. */
  lemma PlaceKeepsEven(open: seq<nat>, cap: nat, me: nat, samples: seq<nat>)
    requires |open| <= 4
    requires me < |open| && open[me] <= cap && Even(open, cap) && Indices(open, samples)
    ensures Even(AfterPlace(open, cap, me, samples), cap)
    ensures AfterPlace(open, cap, me, samples)[me] <= cap
  {
    assert Considered(open, samples) == UpTo(|open|);
    var r := Place(open, cap, me, UpTo(|open|));
    hide Place, UpTo;
    if r.Some? {
      forall i | 0 <= i < |open|
        ensures open[r.value] + 1 <= open[i] + 2
      {
        PlacedLow(open, cap, me, i);
      }
      PlacedLow(open, cap, me, me);
      EvenRaised(open, cap, r.value);
      hide Even;
    }
  }

  /** A connection accepted by `me`, and the workers then sampled. */
  datatype Arrival = Arrival(me: nat, samples: seq<nat>)

  predicate Arrivals(open: seq<nat>, xs: seq<Arrival>) {
    forall i :: 0 <= i < |xs| ==> xs[i].me < |open| && Indices(open, xs[i].samples)
  }

  /** The counts after a run of placements by any workers in any order. */
  function AfterAll(open: seq<nat>, cap: nat, xs: seq<Arrival>): (r: seq<nat>)
    requires Arrivals(open, xs)
    ensures |r| == |open|
  {
    if xs == [] then open
    else AfterPlace(AfterAll(open, cap, xs[..|xs| - 1]), cap, xs[|xs| - 1].me, xs[|xs| - 1].samples)
  }

  /** Main result. However many connections at most four live workers accept, in
      whatever order, while none closes, the largest and the smallest count differ by at
      most two. */
  lemma {:induction false} BalancingBound(open: seq<nat>, cap: nat, xs: seq<Arrival>)
    requires |open| <= 4 && Arrivals(open, xs) && Even(open, cap)
    requires forall i :: 0 <= i < |xs| ==> open[xs[i].me] <= cap
    ensures Even(AfterAll(open, cap, xs), cap)
    ensures forall i :: 0 <= i < |open| ==> (AfterAll(open, cap, xs)[i] <= cap <==> open[i] <= cap)
  {
    hide Place;
    if xs != [] {
      var x := xs[|xs| - 1];
      BalancingBound(open, cap, xs[..|xs| - 1]);
      var before := AfterAll(open, cap, xs[..|xs| - 1]);
      PlaceKeepsEven(before, cap, x.me, x.samples);
      PlaceFailsIffFull(before, cap, x.me, Considered(before, x.samples));
    }
  }

  const LEANING: seq<nat> := [2, 1, 1, 1, 0]

  /** Four is all the bound holds for: of five workers the idle one may be missed by
      every sample, and the counts come to differ by three. */
  lemma FifthIsMissed(cap: nat)
    requires cap >= 3
    ensures Even(LEANING, cap)
    ensures AfterPlace(LEANING, cap, 0, [1, 2, 3]) == [3, 1, 1, 1, 0]
    ensures !Even([3, 1, 1, 1, 0], cap)
  {
    var ks: seq<nat> := [1, 2, 3];
    assert forall k :: k in ks ==> k == 1 || k == 2 || k == 3;
    StaysHome(LEANING, cap, 0, ks);
    hide Place;
    var after: seq<nat> := [3, 1, 1, 1, 0];
    assert after[0] <= cap && after[4] <= cap && after[0] == after[4] + 3;
    assert LEANING[0 := 3] == after;
  }

  /** With two connections, a worker keeps the next unless it looks at an idle one. */
  lemma StaysHome(open: seq<nat>, cap: nat, me: nat, ks: seq<nat>)
    requires me < |open| && Indices(open, ks) && open[me] == 2 < cap
    requires forall k :: k in ks ==> k < |open| && open[k] >= 1
    ensures Place(open, cap, me, ks) == Some(me)
  {
    assert open[Best(open, me, ks)] >= 1;
    hide Best, FirstWithRoom;
  }

  // ---- The code ---------------------------------------------------------------------------------

  class Balance {
    const open: array<nat>
    const cap: nat
    const retired: nat

    constructor (workers: nat, cap: nat, retired: nat)
      ensures fresh(open) && open[..] == seq(workers, _ => 0)
      ensures this.cap == (if cap == 0 then 1 else cap) && this.retired == retired
    {
      this.open := new nat[workers](_ => 0);
      this.cap := if cap == 0 then 1 else cap;
      this.retired := retired;
    }

    method HasRoom() returns (r: bool)
      ensures r <==> exists i :: 0 <= i < open.Length && open[i] < cap
    {
      for i := 0 to open.Length
        invariant forall j :: 0 <= j < i ==> open[j] >= cap
      {
        if open[i] < cap {
          return true;
        }
      }
      r := false;
    }

    method Reserve(worker: nat) returns (ok: bool)
      requires worker < open.Length
      modifies open
      ensures ok <==> old(open[worker]) < cap
      ensures open[..] == if ok then old(open[..])[worker := old(open[worker]) + 1] else old(open[..])
    {
      var n := open[worker];
      if n < cap {
        open[worker] := n + 1;
        return true;
      }
      ok := false;
    }

    method Release(worker: nat)
      requires worker < open.Length && open[worker] > 0
      modifies open
      ensures open[..] == old(open[..])[worker := old(open[worker]) - 1]
    {
      open[worker] := open[worker] - 1;
    }

    method Retire(worker: nat)
      requires worker < open.Length
      modifies open
      ensures open[..] == old(open[..])[worker := retired]
    {
      open[worker] := retired;
    }

    /** `pick`; `samples` are the workers a random choice would look at. */
    method PickFor(me: nat, samples: seq<nat>) returns (t: nat)
      requires me < open.Length && Indices(open[..], samples)
      ensures t == Pick(open[..], me, Considered(open[..], samples))
    {
      var mine := open[me];
      if mine < HANDOFF_MARGIN {
        return me;
      }
      var best: nat;
      if open.Length <= PICK_SAMPLES + 1 {
        best := BestOfAll(me);
      } else {
        best := BestOf(me, samples);
      }
      t := if mine - open[best] >= HANDOFF_MARGIN then best else me;
    }

    method BestOfAll(me: nat) returns (best: nat)
      requires me < open.Length
      ensures best == Best(open[..], me, UpTo(open.Length))
    {
      ghost var ks := UpTo(open.Length);
      best := me;
      for i := 0 to open.Length
        invariant best == Best(open[..], me, ks[..i])
      {
        assert ks[..i + 1][..i] == ks[..i];
        if open[i] < open[best] {
          best := i;
        }
      }
      assert ks[..|ks|] == ks;
    }

    method BestOf(me: nat, samples: seq<nat>) returns (best: nat)
      requires me < open.Length && Indices(open[..], samples)
      ensures best == Best(open[..], me, samples)
    {
      best := me;
      for i := 0 to |samples|
        invariant best == Best(open[..], me, samples[..i])
      {
        assert samples[..i + 1][..i] == samples[..i];
        if open[samples[i]] < open[best] {
          best := samples[i];
        }
      }
      assert samples[..|samples|] == samples;
    }

    method PlaceFor(me: nat, samples: seq<nat>) returns (r: Option<nat>)
      requires me < open.Length && Indices(open[..], samples)
      modifies open
      ensures r == Place(old(open[..]), cap, me, Considered(old(open[..]), samples))
      ensures open[..] == match r case None => old(open[..]) case Some(t) => old(open[..])[t := old(open[..])[t] + 1]
      ensures open[..] == AfterPlace(old(open[..]), cap, me, samples)
    {
      hide Pick, Considered, FirstWithRoom;
      var target := PickFor(me, samples);
      if target != me {
        var ok := Reserve(target);
        if ok {
          return Some(target);
        }
      }
      var ok := Reserve(me);
      if ok {
        return Some(me);
      }
      r := ReserveAny();
    }

    /** The first worker with room, if there is one. */
    method ReserveAny() returns (r: Option<nat>)
      modifies open
      ensures r == FirstWithRoom(old(open[..]), cap, 0)
      ensures open[..] == match r case None => old(open[..]) case Some(t) => old(open[..])[t := old(open[..])[t] + 1]
    {
      for i := 0 to open.Length
        invariant open[..] == old(open[..])
        invariant FirstWithRoom(old(open[..]), cap, 0) == FirstWithRoom(old(open[..]), cap, i)
      {
        var ok := Reserve(i);
        if ok {
          return Some(i);
        }
      }
      r := None;
    }
  }
}
