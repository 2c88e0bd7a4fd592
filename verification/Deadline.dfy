/** The lazily armed deadline of a connection (`src/deadline.rs`) against the eager one
    it stands for. Times are whole nanoseconds. */
module Deadline {
  import opened Octets

  /** 365 days. */
  const FAR_FUTURE: nat := 365 * 86_400 * 1_000_000_000

  /** A millisecond. */
  const DEFAULT_TICK: nat := 1_000_000

  // ---- Rounding --------------------------------------------------------------------------

  function CeilDiv(d: nat, n: nat): nat
    requires n > 0
  {
    (d + n - 1) / n
  }

  /** `m` saturated as the code does, which gives up on either operand past 64 bits. */
  function Saturate(d: nat, tick: nat, m: nat): nat {
    if d > U64_MAX || tick > U64_MAX then if d == 0 then d else U64_MAX
    else Min(m, U64_MAX)
  }

  function RoundUp(d: nat, tick: nat): nat {
    if tick == 0 then Saturate(d, tick, d) else Saturate(d, tick, CeilDiv(d, tick) * tick)
  }

  /** `r` is the least multiple of `n` not below `d`. */
  ghost predicate IsLeastMultiple(r: nat, d: nat, n: nat) {
    && (exists k: nat :: r == k * n)
    && d <= r
    && forall k: nat :: k * n >= d ==> r <= k * n
  }

  lemma CeilIsLeast(d: nat, n: nat)
    requires n > 0
    ensures d <= CeilDiv(d, n) * n < d + n
    ensures IsLeastMultiple(CeilDiv(d, n) * n, d, n)
  {
    var q := CeilDiv(d, n);
    assert q * n + (d + n - 1) % n == d + n - 1;
    forall k: nat | k * n >= d
      ensures q * n <= k * n
    {
      if k < q {
        Monotone(k + 1, q, n);
      } else {
        Monotone(q, k, n);
      }
    }
  }

  lemma Monotone(a: nat, b: nat, n: nat)
    requires a <= b
    ensures a * n <= b * n
  {
    assert b * n == a * n + (b - a) * n;
  }

  lemma LeastIsUnique(r: nat, s: nat, d: nat, n: nat)
    requires IsLeastMultiple(r, d, n) && IsLeastMultiple(s, d, n)
    ensures r == s
  {
    var j: nat :| r == j * n;
    var k: nat :| s == k * n;
    assert r <= k * n && s <= j * n;
  }

  /** The rounded duration is the least multiple of the tick not below the one asked
      for, exactly when that multiple fits 64 bits of nanoseconds. */
  lemma RoundUpIsLeast(d: nat, tick: nat)
    requires tick > 0
    ensures IsLeastMultiple(RoundUp(d, tick), d, tick) <==> CeilDiv(d, tick) * tick <= U64_MAX
  {
    var m := CeilDiv(d, tick) * tick;
    CeilIsLeast(d, tick);
    Saturates(d, tick, m);
    if IsLeastMultiple(RoundUp(d, tick), d, tick) {
      LeastIsUnique(RoundUp(d, tick), m, d, tick);
    }
    hide IsLeastMultiple, RoundUp, CeilDiv;
  }

  lemma CeilOfZero(n: nat)
    requires n > 0
    ensures CeilDiv(0, n) == 0
  {
  }

  /** Rounding gives the multiple it should exactly when that fits. */
  lemma Saturates(d: nat, tick: nat, m: nat)
    requires tick > 0 && m == CeilDiv(d, tick) * tick
    ensures RoundUp(d, tick) == m <==> m <= U64_MAX
  {
    hide CeilDiv, IsLeastMultiple;
    CeilIsLeast(d, tick);
    if d == 0 {
      CeilOfZero(tick);
    } else {
      PositiveMultiple(CeilDiv(d, tick), tick);
    }
    SaturatesLinear(d, tick, m);
  }

  lemma SaturatesLinear(d: nat, tick: nat, m: nat)
    requires d <= m < d + tick && (d == 0 ==> m == 0) && (d > 0 ==> m >= tick)
    ensures Saturate(d, tick, m) == m <==> m <= U64_MAX
  {
  }

  lemma PositiveMultiple(k: nat, n: nat)
    requires k * n > 0
    ensures k * n >= n
  {
    Monotone(1, k, n);
  }

  /** Rounding never shortens a duration, short of saturation. */
  lemma RoundUpNeverShortens(d: nat, tick: nat)
    requires tick > 0
    ensures RoundUp(d, tick) >= d <==> d <= U64_MAX
  {
    CeilIsLeast(d, tick);
  }

  /** Even a duration past what 64 bits hold is rounded to no less than they do. */
  lemma RoundUpSaturates(d: nat, tick: nat)
    ensures RoundUp(d, tick) >= Min(d, U64_MAX)
  {
    if tick > 0 {
      CeilIsLeast(d, tick);
    }
    hide CeilDiv, IsLeastMultiple;
  }

  // ---- The eager deadline ----------------------------------------------------------------------

  /** When a deadline armed now expires; a time the clock cannot hold is put off by a
      year instead. `latest` is the last time it can hold. */
  function Target(now: nat, after: nat, tick: nat, latest: nat): nat {
    if now + RoundUp(after, tick) <= latest then now + RoundUp(after, tick) else now + FAR_FUTURE
  }

  /** A deadline never expires before the time asked for, unless that time is beyond
      what the rounding or the clock can hold. */
  lemma NeverEarly(now: nat, after: nat, tick: nat, latest: nat)
    requires tick > 0
    ensures Target(now, after, tick, latest) >= now + after
            <==> if now + RoundUp(after, tick) <= latest then after <= U64_MAX else after <= 31_536_000_000_000_000
    ensures Target(now, after, tick, latest) >= now + Min(after, 31_536_000_000_000_000)
    ensures now + RoundUp(after, tick) <= latest ==> Target(now, after, tick, latest) >= now + Min(after, U64_MAX)
  {
    RoundUpNeverShortens(after, tick);
    RoundUpSaturates(after, tick);
    hide RoundUp;
  }

  datatype Op = Arm(after: nat) | Disarm | Advance(elapsed: nat) | Poll

  /** What an eager timer answers to each poll of a run of operations: expired exactly
      when armed and the last target has passed. */
  function Eager(ops: seq<Op>, now: nat, target: Option<nat>, tick: nat, latest: nat): seq<bool> {
    if ops == [] then []
    else
      match ops[0]
      case Arm(after) => Eager(ops[1..], now, Some(Target(now, after, tick, latest)), tick, latest)
      case Disarm => Eager(ops[1..], now, None, tick, latest)
      case Advance(elapsed) => Eager(ops[1..], now + elapsed, target, tick, latest)
      case Poll => [(target.Some? && target.value <= now)] + Eager(ops[1..], now, target, tick, latest)
  }

  // ---- The lazy deadline -------------------------------------------------------------------------

  class ConnDeadline {
    const tick: nat
    const latest: nat

    /** When the real timer wakes; when the deadline is, if armed. */
    var sleep: nat
    var target: Option<nat>
    var now: nat

    /** The real timer is never later than an armed deadline, so it can only wake
        early. */
    ghost predicate Valid()
      reads this
    {
      tick > 0 && (target.Some? ==> sleep <= target.value)
    }

    constructor (tick: nat, now: nat, latest: nat)
      ensures Valid() && target == None && this.now == now && this.latest == latest
      ensures this.tick == if tick == 0 then 1_000_000 else tick
    {
      this.tick := if tick == 0 then DEFAULT_TICK else tick;
      this.now, this.latest := now, latest;
      sleep, target := now + FAR_FUTURE, None;
    }

    method ArmFor(after: nat)
      requires Valid()
      modifies this`sleep, this`target
      ensures Valid() && target == Some(Target(now, after, tick, latest))
      ensures sleep == old(sleep) || sleep == target.value < old(sleep)
    {
      var at := Target(now, after, tick, latest);
      target := Some(at);
      if sleep > at {
        sleep := at;
      }
    }

    method Disarm()
      requires Valid()
      modifies this`target
      ensures Valid() && target == None
    {
      target := None;
    }

    /** `poll_expired`; `turns` counts the turns of its loop. */
    method PollExpired() returns (expired: bool, turns: nat)
      requires Valid()
      modifies this`sleep
      ensures Valid()
      ensures expired <==> target.Some? && target.value <= now
      ensures turns <= 2 && (target.None? ==> turns == 0)
      ensures sleep == old(sleep) || (target.Some? && old(sleep) <= now && sleep == target.value)
    {
      turns := 0;
      if target.None? {
        return false, 0;
      }
      while true
        invariant Valid() && target.Some? && turns <= 1
        invariant turns == 0 ==> sleep == old(sleep)
        invariant turns == 1 ==> sleep == target.value && old(sleep) <= now
        decreases 2 - turns
      {
        turns := turns + 1;
        if now < sleep {
          return false, turns;
        }
        if sleep >= target.value {
          return true, turns;
        }
        sleep := target.value;
      }
    }

    /** Main result. Over every run of operations the lazy deadline answers each poll as
        the eager one would. */
    method Run(ops: seq<Op>) returns (answers: seq<bool>)
      requires Valid()
      modifies this
      ensures Valid() && answers == Eager(ops, old(now), old(target), tick, latest)
    {
      answers := [];
      assert ops[0..] == ops;
      for i := 0 to |ops|
        invariant Valid()
        invariant answers + Eager(ops[i..], now, target, tick, latest) == Eager(ops, old(now), old(target), tick, latest)
      {
        assert ops[i..][0] == ops[i] && ops[i..][1..] == ops[i + 1..];
        match ops[i] {
          case Arm(after) => ArmFor(after);
          case Disarm => Disarm();
          case Advance(elapsed) => now := now + elapsed;
          case Poll =>
            ghost var before := answers;
            var expired, _ := PollExpired();
            answers := answers + [expired];
            Assoc(before, [expired], Eager(ops[i + 1..], now, target, tick, latest));
        }
      }
      assert answers + [] == answers;
    }
  }
}
