/** The connection's output under short writes: held responses, a possibly half-written
    `100 Continue`, and streamed pieces (`flush`, `settle_continue`, `write_error` and
    `poll_send_continue` in `src/conn.rs`). */
module Interim {
  import opened Octets
  import opened FieldLines
  import opened Target
  import opened ResponseStream

  /** How the transport answers one attempt to write: it takes up to `n` octets, none
      being a failure, would block, or fails. */
  datatype Attempt = Accept(n: nat) | Blocked | Broken

  datatype Sent = Done | Waiting | Failed

  // ---- What the transport takes --------------------------------------------------------------

  /** How far an offer of octets gets: how many are taken, how it ends, and the attempts
      left. */
  datatype Offered = Offered(moved: nat, sent: Sent, rest: seq<Attempt>)

  /** `n` octets offered until they are taken, an attempt fails, or one would block. */
  function Push(script: seq<Attempt>, n: nat): (r: Offered)
    ensures r.moved <= n && (r.sent.Done? <==> r.moved == n)
    ensures |r.rest| <= |script| && (r.sent.Waiting? && script != [] ==> |r.rest| < |script|)
    decreases |script|
  {
    if n == 0 then Offered(0, Done, script)
    else if script == [] then Offered(0, Waiting, [])
    else
      match script[0]
      case Blocked => Offered(0, Waiting, script[1..])
      case Broken => Offered(0, Failed, script[1..])
      case Accept(k) =>
        if k == 0 then Offered(0, Failed, script[1..])
        else var r := Push(script[1..], n - Min(k, n)); r.(moved := Min(k, n) + r.moved)
  }

  /** `n` octets offered until they are taken or an attempt fails; at the end of the script
      the write deadline does. An attempt that would block is only waited out. */
  function Offer(script: seq<Attempt>, n: nat): (r: Offered)
    ensures r.moved <= n && (r.sent.Done? <==> r.moved == n) && !r.sent.Waiting?
    decreases |script|
  {
    if n == 0 then Offered(0, Done, script)
    else if script == [] then Offered(0, Failed, [])
    else
      match script[0]
      case Blocked => Offer(script[1..], n)
      case Broken => Offered(0, Failed, script[1..])
      case Accept(k) =>
        if k == 0 then Offered(0, Failed, script[1..])
        else var r := Offer(script[1..], n - Min(k, n)); r.(moved := Min(k, n) + r.moved)
  }

  /** An offer of which `n` octets had gone before. */
  function Further(n: nat, r: Offered): Offered { r.(moved := n + r.moved) }

  lemma PushStep(script: seq<Attempt>, n: nat)
    requires n > 0 && script != []
    ensures script[0].Blocked? ==> Push(script, n) == Offered(0, Waiting, script[1..])
    ensures script[0].Broken? || script[0] == Accept(0) ==> Push(script, n) == Offered(0, Failed, script[1..])
    ensures script[0].Accept? && script[0].n > 0 ==>
              Push(script, n) == Further(Min(script[0].n, n), Push(script[1..], n - Min(script[0].n, n)))
  {
  }

  lemma OfferStep(script: seq<Attempt>, n: nat)
    requires n > 0 && script != []
    ensures script[0].Blocked? ==> Offer(script, n) == Offer(script[1..], n)
    ensures script[0].Broken? || script[0] == Accept(0) ==> Offer(script, n) == Offered(0, Failed, script[1..])
    ensures script[0].Accept? && script[0].n > 0 ==>
              Offer(script, n) == Further(Min(script[0].n, n), Offer(script[1..], n - Min(script[0].n, n)))
  {
  }

  lemma NothingLeft(n: nat)
    ensures n > 0 ==> Push([], n) == Offered(0, Waiting, []) && Offer([], n) == Offered(0, Failed, [])
  {
  }

  lemma NothingToSend(script: seq<Attempt>)
    ensures Push(script, 0) == Offer(script, 0) == Offered(0, Done, script)
  {
  }

  /** Offering is pushing again after each block. */
  lemma {:induction false} OfferIsPushes(script: seq<Attempt>, n: nat)
    ensures var p := Push(script, n);
            Offer(script, n) == if p.sent.Waiting? then Further(p.moved, Offer(p.rest, n - p.moved)) else p
    decreases |script|
  {
    hide Push, Offer;
    NothingLeft(n);
    NothingToSend(script);
    if n > 0 && script != [] {
      PushStep(script, n);
      OfferStep(script, n);
      if script[0].Accept? && script[0].n > 0 {
        OfferIsPushes(script[1..], n - Min(script[0].n, n));
      }
    }
  }

  /** How many attempts take something before one fails. Each takes an octet at least, so
      as many octets are sure to be taken however they are offered. */
  function Stamina(script: seq<Attempt>): nat {
    if script == [] then 0
    else
      match script[0]
      case Blocked => Stamina(script[1..])
      case Broken => 0
      case Accept(k) => if k == 0 then 0 else 1 + Stamina(script[1..])
  }

  /** The same attempts at their shortest: an octet where any are taken. */
  function AtShortest(script: seq<Attempt>): seq<Attempt> {
    if script == [] then []
    else [if script[0].Accept? && script[0].n > 0 then Accept(1) else script[0]] + AtShortest(script[1..])
  }

  /** That many octets are taken by the shortest writes, whatever blocks between them, and
      no more. */
  lemma {:induction false} StaminaIsWorst(script: seq<Attempt>, n: nat)
    ensures Offer(AtShortest(script), n).sent.Done? <==> n <= Stamina(script)
    decreases |script|
  {
    hide Offer;
    NothingLeft(n);
    NothingToSend(AtShortest(script));
    if n > 0 && script != [] {
      var worst := AtShortest(script);
      assert worst[1..] == AtShortest(script[1..]);
      OfferStep(worst, n);
      StaminaIsWorst(script[1..], n);
      StaminaIsWorst(script[1..], n - 1);
    }
  }

  lemma {:induction false} OfferLasts(script: seq<Attempt>, n: nat)
    ensures var r := Offer(script, n);
            r.moved + Stamina(r.rest) >= Stamina(script) && (r.sent.Failed? ==> Stamina(script) < n)
    decreases |script|
  {
    hide Offer;
    NothingLeft(n);
    NothingToSend(script);
    if n > 0 && script != [] {
      OfferStep(script, n);
      if script[0].Blocked? {
        OfferLasts(script[1..], n);
      } else if script[0].Accept? && script[0].n > 0 {
        OfferLasts(script[1..], n - Min(script[0].n, n));
      }
    }
  }

  lemma {:induction false} PushLasts(script: seq<Attempt>, n: nat)
    ensures var r := Push(script, n);
            r.moved + Stamina(r.rest) >= Stamina(script) && (r.sent.Failed? ==> Stamina(script) < n)
    decreases |script|
  {
    hide Push;
    NothingLeft(n);
    NothingToSend(script);
    if n > 0 && script != [] {
      PushStep(script, n);
      if script[0].Accept? && script[0].n > 0 {
        PushLasts(script[1..], n - Min(script[0].n, n));
      }
    }
  }

  /** What one request is owed: perhaps an interim response, then its response. */
  datatype Entry = Entry(continued: bool, response: bytes)

  function Owed(e: Entry): bytes { (if e.continued then CONTINUE else []) + e.response }

  function Flatten(log: seq<Entry>): bytes {
    if log == [] then [] else Owed(log[0]) + Flatten(log[1..])
  }

  lemma {:induction false} FlattenSnoc(log: seq<Entry>, e: Entry)
    ensures Flatten(log + [e]) == Flatten(log) + Owed(e)
  {
    hide Owed;
    if log == [] {
      assert log + [e] == [e];
      assert Flatten([e]) == Owed(e) + [] == Owed(e);
    } else {
      FlattenSnoc(log[1..], e);
      assert (log + [e])[1..] == log[1..] + [e];
      Assoc(Owed(log[0]), Flatten(log[1..]), Owed(e));
    }
  }

  const CONTINUE_LEN := 25

  lemma ContinueLength()
    ensures |CONTINUE| == CONTINUE_LEN
  {
  }

  /** What of a begun interim response is still to be written. */
  function Rest(pending: nat): bytes
    requires pending <= CONTINUE_LEN
  {
    ContinueLength();
    if pending == CONTINUE_LEN then [] else CONTINUE[CONTINUE_LEN - pending..]
  }

  lemma RestSteps(pending: nat, n: nat)
    requires n <= pending <= CONTINUE_LEN && n > 0
    ensures |CONTINUE| == CONTINUE_LEN
    ensures var rest := CONTINUE[CONTINUE_LEN - pending..];
            && rest[..n] + Rest(pending - n) == rest
            && (pending < CONTINUE_LEN ==> Rest(pending) == rest)
            && (pending == CONTINUE_LEN ==> rest == CONTINUE)
  {
    ContinueLength();
    hide CONTINUE;
    var rest := CONTINUE[CONTINUE_LEN - pending..];
    assert rest[n..] == CONTINUE[CONTINUE_LEN - (pending - n)..];
    assert rest == rest[..n] + rest[n..];
  }

  /** The next `n` octets of an interim response of which `pending` are still to be sent. */
  function NextOf(pending: nat, n: nat): (r: bytes)
    requires n <= pending <= CONTINUE_LEN
    ensures |r| == n
  {
    ContinueLength();
    CONTINUE[CONTINUE_LEN - pending..][..n]
  }

  lemma NoneNext(pending: nat)
    requires pending <= CONTINUE_LEN
    ensures NextOf(pending, 0) == []
  {
    hide CONTINUE;
  }

  lemma NextJoins(all: nat, pending: nat, n: nat)
    requires n <= pending <= all <= CONTINUE_LEN
    ensures NextOf(all, all - pending) + NextOf(pending, n) == NextOf(all, all - pending + n)
  {
    ContinueLength();
    hide CONTINUE;
    var rest := CONTINUE[CONTINUE_LEN - all..];
    assert rest[all - pending..] == CONTINUE[CONTINUE_LEN - pending..];
    assert rest[..all - pending] + rest[all - pending..][..n] == rest[..all - pending + n];
  }

  lemma RestLength(pending: nat)
    requires pending <= CONTINUE_LEN
    ensures |Rest(pending)| == if pending == CONTINUE_LEN then 0 else pending
  {
    ContinueLength();
    hide CONTINUE;
  }

  lemma NotBegun()
    ensures Rest(CONTINUE_LEN) == [] && Rest(0) == []
  {
    ContinueLength();
  }

  /** The last request's entry, changed. */
  function WithLast(log: seq<Entry>, e: Entry): seq<Entry>
    requires log != []
  {
    log[..|log| - 1] + [e]
  }

  lemma LastGrows(log: seq<Entry>, x: bytes)
    requires log != []
    ensures var e := log[|log| - 1];
            && Flatten(WithLast(log, e.(response := e.response + x))) == Flatten(log) + x
            && (e.response == [] && !e.continued ==> Flatten(WithLast(log, e.(continued := true))) == Flatten(log) + CONTINUE)
  {
    hide CONTINUE;
    var e := log[|log| - 1];
    var front := log[..|log| - 1];
    assert log == front + [e];
    FlattenSnoc(front, e);
    FlattenSnoc(front, e.(response := e.response + x));
    FlattenSnoc(front, e.(continued := true));
    Assoc(if e.continued then CONTINUE else [], e.response, x);
    Assoc(Flatten(front), Owed(e), x);
    if e.response == [] && !e.continued {
      assert Owed(e) == [];
      assert Flatten(log) == Flatten(front);
      assert Owed(e.(continued := true)) == CONTINUE;
    }
  }

  /** The log but for the last request's interim response having begun. */
  ghost predicate Started(before: seq<Entry>, after: seq<Entry>) {
    || after == before
    || (before != [] && after == WithLast(before, before[|before| - 1].(continued := true)))
  }

  lemma SameIsStarted(log: seq<Entry>)
    ensures Started(log, log)
  {
  }

  /** The last request's interim response has begun. */
  predicate Continued(log: seq<Entry>) { log != [] && log[|log| - 1].continued }

  lemma StaysContinued(a: seq<Entry>, b: seq<Entry>)
    requires Started(a, b)
    ensures Continued(a) ==> Continued(b)
  {
  }

  lemma StartedTwice(a: seq<Entry>, b: seq<Entry>, c: seq<Entry>)
    requires Started(a, b) && Started(b, c)
    ensures Started(a, c)
  {
    if a != [] {
      var e := a[|a| - 1].(continued := true);
      assert WithLast(WithLast(a, e), e) == WithLast(a, e);
    }
  }

  class Output {
    /** What the peer has been sent, what is ready to be sent, and how much of an
        interim response is owed. */
    var wire: bytes
    var out: bytes
    var pending: nat

    /** How the transport will answer the writes to come; past its end it blocks until
        the write deadline. */
    var script: seq<Attempt>

    /** What each request was given, and whether a write of it was abandoned. */
    ghost var log: seq<Entry>
    ghost var broken: bool

    /** An interim response is owed only to the last request, whose response has not
        begun, with nothing ahead of it in the buffer. */
    ghost predicate OwedInOrder()
      reads this
    {
      && pending <= CONTINUE_LEN
      && (pending > 0 ==>
            && out == [] && log != [] && log[|log| - 1].response == []
            && (log[|log| - 1].continued <==> pending < CONTINUE_LEN))
    }

    /** Every octet sent or ready, in order, is what the requests are owed. */
    ghost predicate Valid()
      reads this
    {
      && OwedInOrder()
      && (if broken then wire <= Flatten(log) else wire + Rest(pending) + out == Flatten(log))
    }

    /** What the peer has, and at least what more it will take: so many octets are sure to be
        sent. */
    ghost function Reach(): nat
      reads this
    {
      |wire| + Stamina(script)
    }

    constructor (script: seq<Attempt>)
      ensures Valid() && !broken && log == [] && wire == [] && out == [] && pending == 0 && this.script == script
    {
      wire, out, pending, log, broken := [], [], 0, [], false;
      this.script := script;
      new;
      ContinueLength();
    }

    /** A request begins. Responses held back go out before an interim one can. */
    method Begin(expectsContinue: bool) returns (ok: bool)
      requires Valid() && !broken && pending == 0
      modifies this
      ensures Valid() && log == old(log) + [Entry(false, [])]
      ensures ok == !broken
      ensures ok ==> pending == if expectsContinue then CONTINUE_LEN else 0
      ensures ok && expectsContinue ==> out == [] && script == Offer(old(script), |old(out)|).rest
      ensures Reach() >= old(Reach()) && (!ok ==> old(Reach()) < |Flatten(log)|)
    {
      FlattenSnoc(log, Entry(false, []));
      assert Owed(Entry(false, [])) == [];
      hide CONTINUE, Flatten, Rest, Offer;
      NotBegun();
      NothingToSend(script);
      log := log + [Entry(false, [])];
      if out != [] && expectsContinue {
        ok := Flush();
        if !ok {
          return;
        }
      }
      pending := if expectsContinue then CONTINUE_LEN else 0;
      ok := true;
    }

    /** One attempt at the interim response, and its state after it. */
    method Attempted(n: nat)
      requires Valid() && !broken && pending > 0 && n > 0
      modifies this`wire, this`pending, this`log
      ensures Valid() && pending == old(pending) - Min(n, old(pending)) && |wire| == |old(wire)| + Min(n, old(pending))
      ensures wire == old(wire) + NextOf(old(pending), Min(n, old(pending)))
      ensures Started(old(log), log) && (old(pending) == CONTINUE_LEN ==> Continued(log))
    {
      hide CONTINUE, Flatten, Rest;
      var taken := Min(n, pending);
      RestSteps(pending, taken);
      LastGrows(log, []);
      var rest := CONTINUE[CONTINUE_LEN - pending..];
      assert wire + Rest(pending) + [] == wire + Rest(pending);
      NotBegun();
      if pending == CONTINUE_LEN {
        assert wire + [] == wire;
        log := WithLast(log, log[|log| - 1].(continued := true));
      }
      Assoc(wire, rest[..taken], Rest(pending - taken));
      wire := wire + rest[..taken];
      pending := pending - taken;
      assert wire + Rest(pending) + [] == wire + Rest(pending);
    }

    /** One turn of its loop: an attempt at the interim response, or none when the script has
        ended; the answer, if the turn was the last. */
    method PushOnce() returns (r: Option<Sent>)
      requires Valid() && !broken && pending > 0
      modifies this
      ensures Valid() && !broken && out == old(out) && pending <= old(pending)
      ensures Started(old(log), log)
      ensures |script| <= |old(script)| && (old(script) != [] ==> |script| < |old(script)|)
      ensures match r
              case Some(s) =>
                Push(old(script), old(pending)) == Offered(0, s, script) && pending == old(pending) && wire == old(wire) && log == old(log)
              case None =>
                && pending < old(pending) && wire == old(wire) + NextOf(old(pending), old(pending) - pending)
                && (old(pending) == CONTINUE_LEN ==> Continued(log))
                && Push(old(script), old(pending)) == Further(old(pending) - pending, Push(script, pending))
    {
      hide CONTINUE, Flatten, Rest, Started, NextOf, Push, Stamina;
      SameIsStarted(log);
      NothingLeft(pending);
      if script == [] {
        return Some(Waiting);
      }
      PushStep(script, pending);
      var attempt := script[0];
      script := script[1..];
      match attempt {
        case Blocked => r := Some(Waiting);
        case Broken => r := Some(Failed);
        case Accept(n) =>
          if n == 0 {
            return Some(Failed);
          }
          Attempted(n);
          r := None;
      }
    }

    /** `poll_send_continue`: as much of the interim response as the transport takes. */
    method PollSendContinue() returns (r: Sent)
      requires Valid() && !broken
      modifies this
      ensures Valid() && !broken && out == old(out)
      ensures pending <= old(pending) && (r.Done? ==> pending == 0)
      ensures Started(old(log), log) && (old(pending) == 0 ==> log == old(log))
      ensures |script| <= |old(script)| && (r.Waiting? && old(script) != [] ==> |script| < |old(script)|)
      ensures r.Waiting? ==> old(pending) > 0
      ensures pending < old(pending) == CONTINUE_LEN ==> Continued(log)
      ensures var p := Push(old(script), old(pending));
              && r == p.sent && script == p.rest && pending == old(pending) - p.moved
              && wire == old(wire) + NextOf(old(pending), p.moved)
      ensures Reach() >= old(Reach())
    {
      hide CONTINUE, Flatten, Rest, Started, NextOf, Push, Stamina;
      SameIsStarted(log);
      PushLasts(script, pending);
      NoneNext(pending);
      assert wire + [] == wire;
      while pending > 0
        invariant Valid() && !broken && out == old(out) && pending <= old(pending)
        invariant Started(old(log), log) && (old(pending) == 0 ==> log == old(log))
        invariant pending < old(pending) == CONTINUE_LEN ==> Continued(log)
        invariant |script| <= |old(script)|
        invariant wire == old(wire) + NextOf(old(pending), old(pending) - pending)
        invariant Push(old(script), old(pending)) == Further(old(pending) - pending, Push(script, pending))
        decreases pending
      {
        ghost var before, left := log, pending;
        var last := PushOnce();
        StartedTwice(old(log), before, log);
        StaysContinued(before, log);
        if last.Some? {
          return last.value;
        }
        NextJoins(old(pending), left, left - pending);
        Assoc(old(wire), NextOf(old(pending), old(pending) - left), NextOf(left, left - pending));
      }
      NothingToSend(script);
      r := Done;
    }

    /** `settle_continue`: an interim response not begun is dropped, one begun is
        finished. */
    method SettleContinue() returns (ok: bool)
      requires Valid() && !broken
      modifies this
      ensures Valid() && !broken && out == old(out)
      ensures ok ==> pending == 0
      ensures Started(old(log), log) && (old(pending) == CONTINUE_LEN || old(pending) == 0 ==> log == old(log))
      ensures if old(pending) == CONTINUE_LEN || old(pending) == 0 then ok && script == old(script) && wire == old(wire)
              else var r := Offer(old(script), old(pending));
                   && ok == r.sent.Done? && script == r.rest && pending == old(pending) - r.moved
                   && wire == old(wire) + NextOf(old(pending), r.moved)
      ensures Reach() >= old(Reach()) && (!ok ==> old(Reach()) < |Flatten(log)|)
    {
      hide CONTINUE, Flatten, Started, Rest, NextOf, Offer, Stamina;
      NotBegun();
      SameIsStarted(log);
      if pending == CONTINUE_LEN {
        pending := 0;
        return true;
      }
      if pending == 0 {
        return true;
      }
      OfferLasts(script, pending);
      RestLength(pending);
      ok := FinishContinue();
      RestLength(pending);
    }

    /** An interim response begun is offered until it is out or an attempt fails. */
    method FinishContinue() returns (ok: bool)
      requires Valid() && !broken && 0 < pending < CONTINUE_LEN
      modifies this
      ensures Valid() && !broken && out == old(out) && (ok ==> pending == 0)
      ensures Started(old(log), log)
      ensures var r := Offer(old(script), old(pending));
              && ok == r.sent.Done? && script == r.rest && pending == old(pending) - r.moved
              && wire == old(wire) + NextOf(old(pending), r.moved)
    {
      hide CONTINUE, Flatten, Started, Rest, NextOf, Push, Offer, Stamina;
      SameIsStarted(log);
      NoneNext(pending);
      assert wire + [] == wire;
      while true
        invariant Valid() && !broken && out == old(out) && 0 < pending <= old(pending)
        invariant Started(old(log), log)
        invariant wire == old(wire) + NextOf(old(pending), old(pending) - pending)
        invariant Offer(old(script), old(pending)) == Further(old(pending) - pending, Offer(script, pending))
        decreases |script|
      {
        NothingLeft(pending);
        if script == [] {
          return false;
        }
        OfferIsPushes(script, pending);
        ghost var before, left := log, pending;
        var r := PollSendContinue();
        NextJoins(old(pending), left, left - pending);
        Assoc(old(wire), NextOf(old(pending), old(pending) - left), NextOf(left, left - pending));
        StartedTwice(old(log), before, log);
        match r {
          case Done => return true;
          case Failed => return false;
          case Waiting =>
        }
      }
    }

    /** Octets of the current response made ready. */
    method Append(x: bytes)
      requires Valid() && !broken && pending == 0 && log != []
      modifies this`out, this`log
      ensures Valid() && out == old(out) + x && Flatten(log) == old(Flatten(log)) + x
      ensures var e := old(log)[|old(log)| - 1]; log == WithLast(old(log), e.(response := e.response + x))
    {
      hide CONTINUE, Flatten, Rest;
      LastGrows(log, x);
      NotBegun();
      assert wire + Rest(0) == wire;
      Assoc(wire, out, x);
      var e := log[|log| - 1];
      log := WithLast(log, e.(response := e.response + x));
      out := out + x;
    }

    /** `flush`: everything ready is written, or the connection is given up. */
    method Flush() returns (ok: bool)
      requires Valid() && !broken && pending == 0
      modifies this`wire, this`out, this`script, this`broken
      ensures Valid() && out == [] && ok == !broken
      ensures var r := Offer(old(script), |old(out)|);
              && ok == r.sent.Done? && script == r.rest
              && wire == old(wire) + old(out)[..r.moved]
      ensures ok ==> wire == old(wire) + old(out)
      ensures Reach() >= old(Reach()) && (!ok ==> old(Reach()) < |Flatten(log)|)
    {
      hide CONTINUE, Flatten, Rest, Offer, Stamina;
      OfferLasts(script, |out|);
      NotBegun();
      assert wire + Rest(0) == wire;
      ghost var bytes := out;
      ok := WriteAll();
      assert bytes[..|bytes|] == bytes;
      GivenUp(old(wire), bytes, Offer(old(script), |bytes|).moved);
      assert wire + Rest(0) + [] == wire;
      out, broken := [], !ok;
    }

    /** `write_all_from`: what is ready offered until all of it is taken or an attempt
        fails. */
    method WriteAll() returns (ok: bool)
      modifies this`wire, this`script
      ensures var r := Offer(old(script), |out|);
              ok == r.sent.Done? && script == r.rest && wire == old(wire) + out[..r.moved]
    {
      hide Offer;
      var written: nat := 0;
      assert wire + [] == wire;
      while written < |out|
        invariant 0 <= written <= |out|
        invariant wire == old(wire) + out[..written]
        invariant Offer(old(script), |out|) == Further(written, Offer(script, |out| - written))
        decreases |script|, |out| - written
      {
        NothingLeft(|out| - written);
        if script == [] {
          return false;
        }
        OfferStep(script, |out| - written);
        var attempt := script[0];
        script := script[1..];
        match attempt {
          case Blocked =>
          case Broken =>
            return false;
          case Accept(n) =>
            if n == 0 {
              return false;
            }
            var taken := Min(n, |out| - written);
            assert out[..written + taken] == out[..written] + out[written..written + taken];
            Assoc(old(wire), out[..written], out[written..written + taken]);
            wire := wire + out[written..written + taken];
            written := written + taken;
        }
      }
      NothingToSend(script);
      ok := true;
    }

    /** `write_error`: an interim response owed is settled, then the error response goes
        out behind whatever is held; `head` is its head. The error answers the request
        begun, or, with none begun, one that was never read. */
    method WriteError(head: bytes, ghost begun: bool) returns (ok: bool)
      requires Valid() && !broken
      requires if begun then log != [] && log[|log| - 1].response == [] else pending == 0
      modifies this
      ensures Valid()
      ensures var before := if begun then old(log)[..|old(log)| - 1] else old(log);
              && |log| == |before| + 1 && log[..|before|] == before
              && (log[|before|].continued ==> begun && (old(log)[|before|].continued || old(pending) > 0))
              && (begun && old(log)[|before|].continued ==> log[|before|].continued)
              && (log[|before|].response == head || log[|before|].response == [])
              && (ok ==> log[|before|].response == head)
      ensures ok ==> !broken && pending == 0 && out == [] && wire == Flatten(log)
      ensures Reach() >= old(Reach()) && (!ok ==> old(Reach()) < |Flatten(log)|)
    {
      hide CONTINUE, Flatten, Rest;
      if !begun {
        NewEntry();
      }
      ok := SettleAndSend(head);
    }

    /** An entry for a request that was never read. */
    ghost method NewEntry()
      requires Valid() && !broken && pending == 0
      modifies this`log
      ensures Valid() && log == old(log) + [Entry(false, [])]
    {
      FlattenSnoc(log, Entry(false, []));
      assert Owed(Entry(false, [])) == [];
      hide CONTINUE, Flatten, Rest;
      log := log + [Entry(false, [])];
    }

    /** An interim response owed is settled, and the response sent. */
    method SettleAndSend(head: bytes) returns (ok: bool)
      requires Valid() && !broken && log != [] && log[|log| - 1].response == []
      modifies this
      ensures Valid() && |log| == |old(log)| && log[..|log| - 1] == old(log)[..|log| - 1]
      ensures var e, f := log[|log| - 1], old(log)[|log| - 1];
              && (f.continued ==> e.continued) && (e.continued ==> f.continued || old(pending) > 0)
              && (e.response == head || e.response == []) && (ok ==> e.response == head)
      ensures ok ==> !broken && pending == 0 && out == [] && wire == Flatten(log)
      ensures Reach() >= old(Reach()) && (!ok ==> old(Reach()) < |Flatten(log)|)
    {
      hide CONTINUE, Flatten, Rest;
      ok := SettleContinue();
      assert Started(old(log), log);
      assert [] + head == head;
      if ok {
        Append(head);
        ok := Flush();
        NotBegun();
        assert wire + [] == wire;
      }
    }
  }

  lemma GivenUp(wire: bytes, out: bytes, written: nat)
    requires written <= |out|
    ensures wire + out[..written] <= wire + out
  {
  }

  // ---- A run of requests ---------------------------------------------------------------------

  /** A stretch of a response: its octets, whether they are flushed, and how many reads
      of the request's body happen while they are produced. */
  datatype Part = Part(octets: bytes, flush: bool, polls: nat)

  /** One request: whether it expects an interim response, how many reads of its body
      come before its response, the response, and whether its end is held back. */
  datatype Plan = Plan(expects: bool, polls: nat, parts: seq<Part>, hold: bool)

  function Gathered(parts: seq<Part>): bytes {
    if parts == [] then [] else parts[0].octets + Gathered(parts[1..])
  }

  lemma {:induction false} GatheredAppend(a: seq<Part>, b: seq<Part>)
    ensures Gathered(a + b) == Gathered(a) + Gathered(b)
  {
    if a == [] {
      assert a + b == b;
    } else {
      GatheredAppend(a[1..], b);
      assert (a + b)[0] == a[0] && (a + b)[1..] == a[1..] + b;
      Assoc(a[0].octets, Gathered(a[1..]), Gathered(b));
    }
  }

  lemma OnePart(p: Part)
    ensures Gathered([p]) == p.octets
  {
    assert p.octets + [] == p.octets;
  }

  lemma GatheredSnoc(parts: seq<Part>, i: nat)
    requires i < |parts|
    ensures Gathered(parts[..i + 1]) == Gathered(parts[..i]) + parts[i].octets
  {
    OnePart(parts[i]);
    hide Gathered;
    assert parts[..i + 1] == parts[..i] + [parts[i]];
    GatheredAppend(parts[..i], [parts[i]]);
  }

  lemma GatheredPrefix(parts: seq<Part>, i: nat)
    requires i <= |parts|
    ensures Gathered(parts[..i]) <= Gathered(parts)
  {
    hide Gathered;
    assert parts == parts[..i] + parts[i..];
    GatheredAppend(parts[..i], parts[i..]);
  }

  /** An entry within a plan: the octets given are the plan's first, and an interim
      response was begun only if expected. */
  predicate Within(e: Entry, p: Plan) { e.response <= Gathered(p.parts) && (e.continued ==> p.expects) }

  predicate Whole(e: Entry, p: Plan) { e.response == Gathered(p.parts) && (e.continued ==> p.expects) }

  /** Reads of the body, each of which may send some of the interim response. */
  method ReadBodySome(o: Output, polls: nat)
    requires o.Valid() && !o.broken
    modifies o
    ensures o.Valid() && !o.broken && o.out == old(o.out) && o.pending <= old(o.pending)
    ensures Started(old(o.log), o.log) && (old(o.pending) == 0 ==> o.log == old(o.log))
    ensures polls > 0 && old(o.pending) == CONTINUE_LEN && Push(old(o.script), CONTINUE_LEN).moved > 0 ==> Continued(o.log)
    ensures o.Reach() >= old(o.Reach())
  {
    hide CONTINUE, Flatten, Rest, Started, NextOf, Push;
    SameIsStarted(o.log);
    for i := 0 to polls
      invariant o.Valid() && !o.broken && o.out == old(o.out) && o.pending <= old(o.pending)
      invariant Started(old(o.log), o.log) && (old(o.pending) == 0 ==> o.log == old(o.log))
      invariant i == 0 ==> o.pending == old(o.pending) && o.script == old(o.script)
      invariant i > 0 && old(o.pending) == CONTINUE_LEN && Push(old(o.script), CONTINUE_LEN).moved > 0 ==> Continued(o.log)
      invariant o.Reach() >= old(o.Reach())
    {
      ghost var before := o.log;
      var sent := o.PollSendContinue();
      StaysContinued(before, o.log);
      StartedTwice(old(o.log), before, o.log);
    }
  }

  /** The parts of a response, written one after the other. */
  method WriteParts(o: Output, parts: seq<Part>) returns (ok: bool)
    requires o.Valid() && !o.broken && o.pending == 0 && o.log != [] && o.log[|o.log| - 1].response == []
    modifies o
    ensures o.Valid() && ok == !o.broken && (ok ==> o.pending == 0)
    ensures |o.log| == |old(o.log)| && o.log[..|o.log| - 1] == old(o.log)[..|o.log| - 1]
    ensures var e := o.log[|o.log| - 1];
            && e.continued == old(o.log)[|o.log| - 1].continued && e.response <= Gathered(parts)
            && (ok ==> e.response == Gathered(parts))
    ensures ok && parts != [] && parts[|parts| - 1].flush ==> o.out == []
    ensures o.Reach() >= old(o.Reach()) && (!ok ==> old(o.Reach()) < |Flatten(o.log)|)
  {
    hide CONTINUE, Flatten, Rest, Started, NextOf, Push, Offer, Stamina;
    assert parts[..0] == [];
    for i := 0 to |parts|
      invariant o.Valid() && !o.broken && o.pending == 0 && o.log != []
      invariant o.log == WithLast(old(o.log), old(o.log)[|old(o.log)| - 1].(response := Gathered(parts[..i])))
      invariant i > 0 && parts[i - 1].flush ==> o.out == []
      invariant o.Reach() >= old(o.Reach())
    {
      GatheredSnoc(parts, i);
      GatheredPrefix(parts, i + 1);
      o.Append(parts[i].octets);
      ReadBodySome(o, parts[i].polls);
      if parts[i].flush {
        ok := o.Flush();
        if !ok {
          return;
        }
      }
    }
    assert parts[..|parts|] == parts;
    ok := true;
  }

  /** A handler that reads its body before it answers, when an interim response is expected
      and the transport takes an octet of it then. */
  predicate Invites(script: seq<Attempt>, out: bytes, expects: bool, polls: nat) {
    expects && polls > 0 && Push(Offer(script, |out|).rest, CONTINUE_LEN).moved > 0
  }

  /** One request and its response. */
  method ServeOne(o: Output, p: Plan) returns (ok: bool)
    requires o.Valid() && !o.broken && o.pending == 0
    modifies o
    ensures o.Valid() && (ok ==> !o.broken && o.pending == 0)
    ensures |o.log| == |old(o.log)| + 1 && o.log[..|o.log| - 1] == old(o.log)
    ensures var e := o.log[|o.log| - 1]; Within(e, p) && (ok ==> Whole(e, p))
    ensures ok && Invites(old(o.script), old(o.out), p.expects, p.polls) ==> Continued(o.log)
    ensures ok && !p.hold ==> o.out == []
    ensures o.Reach() >= old(o.Reach()) && (!ok ==> old(o.Reach()) < |Flatten(o.log)|)
  {
    hide CONTINUE, Flatten, Rest, NextOf, Push, Offer;
    ok := o.Begin(p.expects);
    if !ok {
      return;
    }
    ReadBodySome(o, p.polls);
    ghost var before := o.log;
    ok := o.SettleContinue();
    StaysContinued(before, o.log);
    if !ok {
      return;
    }
    ok := WriteParts(o, p.parts);
    if ok && !p.hold {
      ok := o.Flush();
    }
  }

  /** How a run ends: with its last response, with an error for a request that could not
      be read or never came whole, or with one in place of a response: the request, how
      many reads of its body came first, and the head of the error response. */
  datatype Finale = Quiet | Refused(head: bytes) | GaveUp(expects: bool, polls: nat, head: bytes)

  /** An error response in the place of a plan. */
  function ErrorPlan(expects: bool, polls: nat, head: bytes): Plan {
    Plan(expects, polls, [Part(head, true, 0)], false)
  }

  /** Everything a run is to answer. */
  function Answers(plans: seq<Plan>, end: Finale): (r: seq<Plan>)
    ensures plans <= r
  {
    match end
    case Quiet => plans
    case Refused(head) => plans + [ErrorPlan(false, 0, head)]
    case GaveUp(expects, polls, head) => plans + [ErrorPlan(expects, polls, head)]
  }

  lemma ErrorWithin(e: Entry, expects: bool, polls: nat, head: bytes)
    requires (e.response == head || e.response == []) && (e.continued ==> expects)
    ensures Within(e, ErrorPlan(expects, polls, head))
    ensures e.response == head ==> Whole(e, ErrorPlan(expects, polls, head))
  {
    OnePart(Part(head, true, 0));
    hide Gathered;
  }

  /** The last answer of a run, if that is an error. */
  method Conclude(o: Output, end: Finale) returns (ok: bool)
    requires o.Valid() && !o.broken && o.pending == 0
    modifies o
    ensures o.Valid()
    ensures end.Quiet? ==> ok && o.log == old(o.log) && o.wire == old(o.wire) && o.out == old(o.out) && !o.broken && o.pending == 0
    ensures !end.Quiet? ==>
              && |o.log| == |old(o.log)| + 1 && o.log[..|o.log| - 1] == old(o.log)
              && var e, p := o.log[|o.log| - 1], Answers([], end)[0]; Within(e, p) && (ok ==> Whole(e, p))
    ensures !end.Quiet? && ok ==> o.out == [] && o.wire == Flatten(o.log)
    ensures o.Reach() >= old(o.Reach()) && (!ok ==> old(o.Reach()) < |Flatten(o.log)|)
  {
    hide CONTINUE, Flatten, Rest, Within, Whole, Gathered;
    match end
    case Quiet => ok := true;
    case Refused(head) =>
      ok := o.WriteError(head, false);
      ErrorWithin(o.log[|o.log| - 1], false, 0, head);
    case GaveUp(expects, polls, head) =>
      ok := GiveUp(o, expects, polls, head);
  }

  /** A request begun and answered with an error. */
  method GiveUp(o: Output, expects: bool, polls: nat, head: bytes) returns (ok: bool)
    requires o.Valid() && !o.broken && o.pending == 0
    modifies o
    ensures o.Valid() && |o.log| == |old(o.log)| + 1 && o.log[..|o.log| - 1] == old(o.log)
    ensures var e, p := o.log[|o.log| - 1], ErrorPlan(expects, polls, head); Within(e, p) && (ok ==> Whole(e, p))
    ensures ok && Invites(old(o.script), old(o.out), expects, polls) ==> Continued(o.log)
    ensures ok ==> o.out == [] && o.wire == Flatten(o.log)
    ensures o.Reach() >= old(o.Reach()) && (!ok ==> old(o.Reach()) < |Flatten(o.log)|)
  {
    hide CONTINUE, Flatten, Rest, Within, Whole, Gathered, Push, Offer;
    ok := o.Begin(expects);
    if ok {
      ReadBodySome(o, polls);
      ok := o.WriteError(head, true);
    }
    ErrorWithin(o.log[|o.log| - 1], expects, polls, head);
  }

  /** Main result. In every run, however short the writes, what the peer was sent and
      what is still to be sent is, per request in order, nothing or one whole interim
      response and then the final one: an interim octet never falls inside a response or
      ahead of an earlier one. An error ends a run behind everything held. A run given up
      has sent a prefix of that, and is only given up if the transport is not sure to take
      all that was owed. */
  method Serve(o: Output, plans: seq<Plan>, end: Finale) returns (ok: bool)
    requires o.Valid() && !o.broken && o.pending == 0 && o.log == []
    modifies o
    ensures var all := Answers(plans, end);
            && |o.log| <= |all| && (forall k :: 0 <= k < |o.log| ==> Within(o.log[k], all[k]))
            && (forall k :: 0 <= k < |o.log| - 1 ==> Whole(o.log[k], all[k]))
            && (ok ==> |o.log| == |all| && forall k :: 0 <= k < |all| ==> Whole(o.log[k], all[k]))
    ensures o.wire <= Flatten(o.log)
    ensures ok ==> o.wire + o.out == Flatten(o.log)
    ensures ok && !end.Quiet? ==> o.out == []
    ensures !ok ==> old(o.Reach()) < |Flatten(o.log)|
  {
    hide CONTINUE, Flatten, Rest, Within, Whole, Answers;
    NotBegun();
    AnswersEnd(plans, end);
    ok := true;
    var i := 0;
    while i < |plans| && ok
      invariant 0 <= i <= |plans| && o.Valid() && |o.log| == i
      invariant forall k :: 0 <= k < i ==> Within(o.log[k], plans[k]) && (ok || k < i - 1 ==> Whole(o.log[k], plans[k]))
      invariant ok ==> !o.broken && o.pending == 0 && o.Reach() >= old(o.Reach())
      invariant !ok ==> old(o.Reach()) < |Flatten(o.log)|
      decreases |plans| - i
    {
      ghost var before := o.log;
      ok := ServeOne(o, plans[i]);
      assert forall k :: 0 <= k < i ==> o.log[k] == before[k];
      i := i + 1;
    }
    if ok {
      ghost var before := o.log;
      ok := Conclude(o, end);
      assert forall k :: 0 <= k < |before| ==> o.log[k] == before[k];
    }
    SentIsPrefix(o.wire, Rest(o.pending), o.out);
    assert o.wire + [] == o.wire;
  }

  lemma AnswersEnd(plans: seq<Plan>, end: Finale)
    ensures if end.Quiet? then Answers(plans, end) == plans
            else |Answers([], end)| == 1 && Answers(plans, end) == plans + Answers([], end)
    ensures forall k :: 0 <= k < |plans| ==> Answers(plans, end)[k] == plans[k]
  {
  }

  lemma SentIsPrefix(wire: bytes, rest: bytes, out: bytes)
    ensures wire <= wire + rest + out
  {
  }

  /** What the loop owes its requests is the output of a run of responses, which a
      reader takes apart again. */
  lemma {:induction false} FlattenIsOutput(s: Setting, xs: seq<Sending>, log: seq<Entry>)
    requires |log| == |xs|
    requires forall k :: 0 <= k < |xs| ==> log[k] == Entry(xs[k].continued, Wire(s, xs[k].ask, xs[k].reply))
    ensures Flatten(log) == ResponseStream.Output(s, xs)
  {
    hide Wire, CONTINUE;
    if xs != [] {
      assert forall k :: 0 <= k < |xs| - 1 ==> log[1..][k] == log[k + 1] && xs[1..][k] == xs[k + 1];
      FlattenIsOutput(s, xs[1..], log[1..]);
    }
  }

  /** The sendings a run of plans came to: each with an interim response if one was
      begun. */
  function Sendings(asks: seq<(Ask, Reply)>, log: seq<Entry>): (xs: seq<Sending>)
    requires |asks| == |log|
    ensures |xs| == |log|
    ensures forall k :: 0 <= k < |log| ==> xs[k] == Sending(asks[k].0, asks[k].1, log[k].continued)
  {
    seq(|log|, k requires 0 <= k < |log| => Sending(asks[k].0, asks[k].1, log[k].continued))
  }

  /** A completed run whose plans come to responses leaves, sent and ready, octets from
      which a reader recovers every status, body and persistence. */
  lemma CompletedRunReadsBack(s: Setting, asks: seq<(Ask, Reply)>, plans: seq<Plan>, log: seq<Entry>, sent: bytes)
    requires |asks| == |plans| == |log| && sent == Flatten(log)
    requires forall k :: 0 <= k < |plans| ==> Whole(log[k], plans[k])
    requires forall k :: 0 <= k < |plans| ==> Gathered(plans[k].parts) == Wire(s, asks[k].0, asks[k].1)
    requires ValidValue(s.date)
    requires forall k :: 0 <= k < |asks| ==> Readable(s, Sending(asks[k].0, asks[k].1, log[k].continued))
    requires forall k :: 0 <= k < |asks| - 1 ==> Fate(asks[k].0, asks[k].1) == KeepAlive
    ensures var xs := Sendings(asks, log); ReadRun(Heads(xs), sent) == Some(Conclusions(xs))
  {
    hide Wire, CONTINUE, Flatten, Readable, Fate, ReadRun, Conclusions, Gathered, ValidValue;
    var xs := Sendings(asks, log);
    forall k | 0 <= k < |xs|
      ensures log[k] == Entry(xs[k].continued, Wire(s, xs[k].ask, xs[k].reply))
    {
      assert Whole(log[k], plans[k]);
    }
    FlattenIsOutput(s, xs, log);
    RunReadsBack(s, xs);
  }

  /** A completed run that an error ends leaves, all of it sent, octets from which a reader
      recovers the responses before it, and then the error's status and that nothing
      follows. */
  lemma ErrorRunReadsBack(s: Setting, asks: seq<(Ask, Reply)>, all: seq<Plan>, log: seq<Entry>, v: Version, status: nat,
                          isHead: bool)
    requires |all| == |log| == |asks| + 1
    requires forall k :: 0 <= k < |all| ==> Whole(log[k], all[k])
    requires forall k :: 0 <= k < |asks| ==> Gathered(all[k].parts) == Wire(s, asks[k].0, asks[k].1)
    requires Gathered(all[|asks|].parts) == ErrorBytes(s, v, status)
    requires ValidValue(s.date) && All(s.phrase(status), NotBreak) && 200 <= status <= 599
    requires forall k :: 0 <= k < |asks| ==>
               && Readable(s, Sending(asks[k].0, asks[k].1, log[k].continued))
               && Fate(asks[k].0, asks[k].1) == KeepAlive
    ensures var xs := Sendings(asks, log[..|asks|]);
            ReadRun(Heads(xs) + [isHead], Flatten(log)) == Some(Conclusions(xs) + [Reading(status, [], false)])
  {
    hide Wire, CONTINUE, Flatten, Readable, Fate, ReadRun, Conclusions, Gathered, ValidValue, ErrorBytes;
    var n := |asks|;
    var front, last := log[..n], log[n];
    var xs := Sendings(asks, front);
    forall k | 0 <= k < n
      ensures front[k] == Entry(xs[k].continued, Wire(s, xs[k].ask, xs[k].reply))
    {
      assert Whole(log[k], all[k]);
    }
    FlattenIsOutput(s, xs, front);
    assert Whole(last, all[n]);
    assert log == front + [last];
    FlattenSnoc(front, last);
    ErrorEndsRun(s, xs, v, status, isHead, last.continued);
  }
}
