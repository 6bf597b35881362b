/** Starvation freedom (sched/kern/sched.c). */
module Starvation {
  // A ranking function that every call passing over a waiting environment lowers.

  import opened Common
  import opened EnvStatus
  import opened Sched

  function Max(a: int, b: int): int { if a > b then a else b }

  /** How much environment x can still get in the way of one that waits at
      priority q >= 5 with r runs. A priority below 5 counts as it will after
      its next boost, so boosts change nothing. */
  function Weight(x: Env, q: int, r: nat): (w: int)
    ensures w >= 0
  {
    if x.status == Free then 0
    else Max(0, (if x.priority >= BOOST then x.priority else x.priority + BOOST) - q) + 6 * Max(0, r + 1 - x.runs)
  }

  // The sum of the weights of all environments but e.
  function Rank(es: seq<Env>, e: nat, q: int, r: nat): (w: int)
    ensures w >= 0
  {
    if es == [] then 0
    else (if e == |es| - 1 then 0 else Weight(es[|es| - 1], q, r)) + Rank(es[..|es| - 1], e, q, r)
  }

  // At most 6 * r + 11 passes for every live environment but e.
  function Allowance(es: seq<Env>, e: nat, r: nat): (n: nat) {
    if es == [] then 0
    else (if e == |es| - 1 || es[|es| - 1].status == Free then 0 else 6 * r + 11) + Allowance(es[..|es| - 1], e, r)
  }

  function LiveOthers(es: seq<Env>, e: nat): (n: nat) {
    if es == [] then 0
    else (if e == |es| - 1 || es[|es| - 1].status == Free then 0 else 1) + LiveOthers(es[..|es| - 1], e)
  }

  lemma {:induction false} AllowanceIsProduct(es: seq<Env>, e: nat, r: nat)
    ensures Allowance(es, e, r) == LiveOthers(es, e) * (6 * r + 11)
  {
    if es != [] {
      var init, bound := es[..|es| - 1], 6 * r + 11;
      AllowanceIsProduct(init, e, r);
      assert (1 + LiveOthers(init, e)) * bound == bound + LiveOthers(init, e) * bound;
    }
  }

  ghost predicate InRange(es: seq<Env>) { forall i :: 0 <= i < |es| ==> 0 <= es[i].priority <= INITIAL_PRIORITY }

  lemma WeightBound(x: Env, q: int, r: nat)
    requires x.priority <= INITIAL_PRIORITY && BOOST <= q
    ensures Weight(x, q, r) <= if x.status == Free then 0 else 6 * r + 11
  {
  }

  lemma {:induction false} RankBound(es: seq<Env>, e: nat, q: int, r: nat)
    requires InRange(es) && BOOST <= q
    ensures Rank(es, e, q, r) <= Allowance(es, e, r)
  {
    if es != [] {
      RankBound(es[..|es| - 1], e, q, r);
      WeightBound(es[|es| - 1], q, r);
    }
  }

  // Environment by environment, b is at most as much in the way as a.
  ghost predicate Below(a: seq<Env>, b: seq<Env>, e: nat, q: int, r: nat) {
    |a| == |b| && forall i: nat :: i < |a| && i != e ==> Weight(b[i], q, r) <= Weight(a[i], q, r)
  }

  lemma {:induction false} RankMonotone(a: seq<Env>, b: seq<Env>, e: nat, q: int, r: nat)
    requires Below(a, b, e, q, r)
    ensures Rank(b, e, q, r) <= Rank(a, e, q, r)
    ensures (exists x: nat :: x < |a| && x != e && Weight(b[x], q, r) < Weight(a[x], q, r)) ==> Rank(b, e, q, r) < Rank(a, e, q, r)
    decreases |a|
  {
    if a != [] {
      var n := |a| - 1;
      assert forall i: nat :: i < n ==> a[..n][i] == a[i] && b[..n][i] == b[i];
      RankMonotone(a[..n], b[..n], e, q, r);
      if x: nat :| x < |a| && x != e && Weight(b[x], q, r) < Weight(a[x], q, r) {
        if x < n {
          assert Weight(b[..n][x], q, r) < Weight(a[..n][x], q, r);
        }
      }
    }
  }

  /** What may happen to the others between two scheduler calls while e waits:
      they block, wake, run, die or exit, but no environment is created and no
      priority is set. */
  ghost predicate Drift(a: seq<Env>, b: seq<Env>, e: nat) {
    && |a| == |b| && e < |a| && b[e] == a[e]
    && forall i: nat :: i < |a| && i != e ==>
         && b[i].priority == a[i].priority && b[i].runs >= a[i].runs && (a[i].status == Free ==> b[i].status == Free)
  }

  // A boost does not change how much an environment is in the way.
  lemma BoostKeepsWeight(x: Env, q: int, r: nat)
    requires 0 <= x.priority <= INITIAL_PRIORITY && BOOST <= q
    ensures Weight(Boosted(x), q, r) == Weight(x, q, r) && 0 <= Boosted(x).priority <= INITIAL_PRIORITY
  {
  }

  // Being chosen instead of e costs the chosen environment weight.
  lemma ChosenLosesWeight(x: Env, x': Env, q: int, r: nat)
    requires 0 <= x.priority <= INITIAL_PRIORITY && BOOST <= q && x.status == Runnable
    requires x.priority > q || (x.priority == q && x.runs <= r)
    requires x'.priority == x.priority - 1 && x'.runs == x.runs + 1
    ensures Weight(x', q, r) < Weight(x, q, r)
  {
  }

  // What a call does to the environments, one by one.
  lemma AfterCall(es: seq<Env>, calls: nat, cur: Option<nat>, x: nat, es': seq<Env>, cur': Option<nat>, i: nat)
    requires InRange(es) && i < |es| && (cur.Some? ==> cur.value < |es|)
    requires SchedStep(es, calls, cur, Some(x), es', cur')
    ensures x < |es| && |es'| == |es|
    ensures var b := Prepared(es, calls)[i];
            && (b == es[i] || b == Boosted(es[i]))
            && es'[i].priority == (if i == x && b.priority > 0 then b.priority - 1 else b.priority)
            && es'[i].runs == (if i == x then b.runs + 1 else b.runs)
            && b.status == es[i].status && es'[i].status == StatusNow(es, cur, Some(x), i)
            && (b.status == Free ==> es'[i].status == Free)
  {
  }

  /** One call that passes over e, waiting at priority q >= 5 with r runs. */
  lemma {:induction false} PassedOver(es: seq<Env>, calls: nat, cur: Option<nat>, x: nat, es': seq<Env>, cur': Option<nat>, e: nat)
    requires InRange(es) && e < |es| && es[e].status == Runnable && es[e].priority >= BOOST
    requires cur.Some? ==> cur.value < |es|
    requires SchedStep(es, calls, cur, Some(x), es', cur') && x != e
    ensures |es'| == |es| && InRange(es') && es'[e] == es[e]
    ensures Rank(es', e, es[e].priority, es[e].runs) < Rank(es, e, es[e].priority, es[e].runs)
  {
    var q, r := es[e].priority, es[e].runs;
    var es1 := Prepared(es, calls);
    AfterCall(es, calls, cur, x, es', cur', e);
    assert es1[e] == es[e];
    forall i: nat | i < |es|
      ensures 0 <= es'[i].priority <= INITIAL_PRIORITY
      ensures i != e ==> Weight(es'[i], q, r) <= Weight(es[i], q, r)
      ensures i == x ==> Weight(es'[i], q, r) < Weight(es[i], q, r)
    {
      AfterCall(es, calls, cur, x, es', cur', i);
      BoostKeepsWeight(es[i], q, r);
      if i == x {
        assert Preferred(es1, Start(cur), x, e);
        ChosenLosesWeight(es1[i], es'[i], q, r);
      }
    }
    RankMonotone(es, es', e, q, r);
  }

  // ---------------------------------------------------------------------
  // Whole runs of the scheduler

  // One scheduler call on some CPU: the state before and after it.
  datatype Call = Call(es: seq<Env>, calls: nat, cur: Option<nat>, picked: Option<nat>, es': seq<Env>, cur': Option<nat>)

  ghost predicate IsCall(c: Call) {
    (c.cur.Some? ==> c.cur.value < |c.es|) && SchedStep(c.es, c.calls, c.cur, c.picked, c.es', c.cur')
  }

  // Between call i and the next one.
  ghost predicate Gap(t: seq<Call>, i: nat, e: nat)
    requires i + 1 < |t|
  {
    Drift(t[i].es', t[i + 1].es, e) && t[i + 1].calls == t[i].calls + 1
  }

  // e is runnable when call i begins.
  ghost predicate Waiting(t: seq<Call>, i: nat, e: nat)
    requires i < |t|
  {
    IsCall(t[i]) && e < |t[i].es| && t[i].es[e].status == Runnable
  }

  // No call before call i has picked e.
  ghost predicate Unpicked(t: seq<Call>, i: nat, e: nat)
    requires i <= |t|
  {
    forall j {:trigger t[j]} :: 0 <= j < i ==> t[j].picked != Some(e)
  }

  /** Consecutive scheduler calls, on any CPUs: until one picks e, e is runnable
      when a call begins, and only Drift happens between calls. What comes after
      the call that picks e is not restricted. */
  ghost predicate Waits(t: seq<Call>, e: nat) {
    && (forall i: nat {:trigger IsCall(t[i])} :: i < |t| ==> IsCall(t[i]))
    && (forall i: nat {:trigger Waiting(t, i, e)} :: i < |t| && Unpicked(t, i, e) ==> Waiting(t, i, e))
    && (forall i: nat {:trigger Gap(t, i, e)} :: i + 1 < |t| && Unpicked(t, i + 1, e) ==> Gap(t, i, e))
  }

  ghost predicate NeverPicked(t: seq<Call>, e: nat) { Unpicked(t, |t|, e) }

  lemma {:induction false} AllowanceMonotone(a: seq<Env>, b: seq<Env>, e: nat, r: nat)
    requires |a| == |b| && forall i: nat :: i < |a| && i != e && a[i].status == Free ==> b[i].status == Free
    ensures Allowance(b, e, r) <= Allowance(a, e, r)
    decreases |a|
  {
    if a != [] {
      var n := |a| - 1;
      assert forall i: nat :: i < n ==> a[..n][i] == a[i] && b[..n][i] == b[i];
      AllowanceMonotone(a[..n], b[..n], e, r);
    }
  }

  // A call that does not pick e and the time until the next one.
  lemma {:induction false} OneWait(c: Call, next: seq<Env>, e: nat)
    requires IsCall(c) && InRange(c.es) && e < |c.es| && c.es[e].status == Runnable
    requires c.picked != Some(e) && Drift(c.es', next, e)
    ensures InRange(next) && Allowance(next, e, c.es[e].runs) <= Allowance(c.es, e, c.es[e].runs)
    ensures next[e] == Prepared(c.es, c.calls)[e]
  {
    assert Eligible(Prepared(c.es, c.calls)[e]);
    var x := c.picked.value;
    forall i: nat | i < |c.es|
      ensures 0 <= next[i].priority <= INITIAL_PRIORITY
      ensures i != e && c.es[i].status == Free ==> next[i].status == Free
    {
      AfterCall(c.es, c.calls, c.cur, x, c.es', c.cur', i);
    }
    AfterCall(c.es, c.calls, c.cur, x, c.es', c.cur', e);
    AllowanceMonotone(c.es, next, e, c.es[e].runs);
  }

  lemma OneWaitAbove(c: Call, next: seq<Env>, e: nat)
    requires IsCall(c) && InRange(c.es) && e < |c.es| && c.es[e].status == Runnable && c.es[e].priority >= BOOST
    requires c.picked != Some(e) && Drift(c.es', next, e)
    ensures InRange(next) && next[e] == c.es[e]
    ensures Rank(next, e, c.es[e].priority, c.es[e].runs) < Rank(c.es, e, c.es[e].priority, c.es[e].runs)
  {
    OneWait(c, next, e);
    var q, r := c.es[e].priority, c.es[e].runs;
    assert Eligible(Prepared(c.es, c.calls)[e]);
    PassedOver(c.es, c.calls, c.cur, c.picked.value, c.es', c.cur', e);
    assert Below(c.es', next, e, q, r);
    RankMonotone(c.es', next, e, q, r);
  }

  lemma {:induction false} WaitAbove(t: seq<Call>, e: nat)
    requires Waits(t, e) && t != [] && Waiting(t, 0, e) && InRange(t[0].es) && t[0].es[e].priority >= BOOST
    requires NeverPicked(t, e)
    ensures |t| <= Rank(t[0].es, e, t[0].es[e].priority, t[0].es[e].runs)
  {
    var q, r := t[0].es[e].priority, t[0].es[e].runs;
    if |t| == 1 {
      assert Eligible(Prepared(t[0].es, t[0].calls)[e]);
      PassedOver(t[0].es, t[0].calls, t[0].cur, t[0].picked.value, t[0].es', t[0].cur', e);
    } else {
      RestWaits(t, e);
      OneWaitAbove(t[0], t[1].es, e);
      assert Waiting(t[1..], 0, e);
      WaitAbove(t[1..], e);
    }
  }

  // Calls until, and including, the next boost.
  function UntilBoost(calls: nat): nat { 1 + (RESTARTING_NUMBER - calls % RESTARTING_NUMBER) % RESTARTING_NUMBER }

  lemma UntilBoostStep(calls: nat)
    ensures UntilBoost(calls) == if calls % RESTARTING_NUMBER == 0 then 1 else 1 + UntilBoost(calls + 1)
  {
  }

  // What is left of a wait after its first call.
  lemma RestWaits(t: seq<Call>, e: nat)
    requires Waits(t, e) && NeverPicked(t, e) && |t| > 1
    ensures Waits(t[1..], e) && NeverPicked(t[1..], e) && t[1..][0] == t[1]
    ensures Waiting(t, 0, e) && t[0].picked != Some(e) && Gap(t, 0, e)
  {
    var rest := t[1..];
    assert Unpicked(t, 0, e) && Unpicked(t, 1, e);
    forall i: nat | i < |rest| ensures Waiting(rest, i, e) {
      assert Waiting(t, i + 1, e);
    }
    forall i: nat | i + 1 < |rest| ensures Gap(rest, i, e) {
      assert Gap(t, i + 1, e);
    }
  }

  // The time to the next boost, and the ranking bound after it.
  function WaitLimit(es: seq<Env>, calls: nat, e: nat): (n: nat)
    requires e < |es|
  {
    (if es[e].priority >= BOOST then 0 else UntilBoost(calls)) + Allowance(es, e, es[e].runs)
  }

  lemma LimitFalls(c: Call, next: seq<Env>, e: nat)
    requires IsCall(c) && InRange(c.es) && e < |c.es| && c.es[e].status == Runnable && c.es[e].priority < BOOST
    requires c.picked != Some(e) && Drift(c.es', next, e)
    ensures InRange(next) && WaitLimit(next, c.calls + 1, e) < WaitLimit(c.es, c.calls, e)
  {
    OneWait(c, next, e);
    UntilBoostStep(c.calls);
  }

  lemma {:induction false} WaitBound(t: seq<Call>, e: nat)
    requires Waits(t, e) && t != [] && Waiting(t, 0, e) && InRange(t[0].es)
    requires NeverPicked(t, e)
    ensures |t| <= WaitLimit(t[0].es, t[0].calls, e) <= RESTARTING_NUMBER + Allowance(t[0].es, e, t[0].es[e].runs)
  {
    if t[0].es[e].priority >= BOOST {
      WaitAbove(t, e);
      RankBound(t[0].es, e, t[0].es[e].priority, t[0].es[e].runs);
    } else if |t| > 1 {
      RestWaits(t, e);
      LimitFalls(t[0], t[1].es, e);
      assert Waiting(t[1..], 0, e);
      WaitBound(t[1..], e);
    }
  }

  // The first calls of a wait are a wait.
  lemma WaitPrefix(t: seq<Call>, e: nat, n: nat)
    requires Waits(t, e) && n <= |t|
    ensures Waits(t[..n], e) && (n > 0 && Waiting(t, 0, e) ==> Waiting(t[..n], 0, e))
  {
    var u := t[..n];
    forall i: nat | i < n && Unpicked(u, i, e) ensures Waiting(u, i, e) {
      assert Unpicked(t, i, e) by {
        assert forall j :: 0 <= j < i ==> t[j] == u[j];
      }
      assert Waiting(t, i, e);
    }
    forall i: nat | i + 1 < n && Unpicked(u, i + 1, e) ensures Gap(u, i, e) {
      assert Unpicked(t, i + 1, e) by {
        assert forall j :: 0 <= j < i + 1 ==> t[j] == u[j];
      }
      assert Gap(t, i, e);
    }
  }

  lemma {:induction false} SomeCallPicks(t: seq<Call>, e: nat)
    requires Waits(t, e) && t != [] && Waiting(t, 0, e) && InRange(t[0].es)
    requires |t| > RESTARTING_NUMBER + Allowance(t[0].es, e, t[0].es[e].runs)
    ensures !NeverPicked(t, e)
  {
    if NeverPicked(t, e) {
      WaitBound(t, e);
    }
  }

  lemma {:induction false} PickedWithin(t: seq<Call>, e: nat, bound: nat)
    requires Waits(t, e) && t != [] && Waiting(t, 0, e) && InRange(t[0].es)
    requires |t| > bound >= RESTARTING_NUMBER + Allowance(t[0].es, e, t[0].es[e].runs)
    ensures exists i :: 0 <= i <= bound && t[i].picked == Some(e)
  {
    WaitPrefix(t, e, bound + 1);
    SomeCallPicks(t[..bound + 1], e);
  }

  /** Starvation freedom: an environment that is runnable and stays so until it is
      picked is picked within 20 calls, which reach the next boost, plus its
      allowance: 6 * runs + 11 calls for each other live environment
      (AllowanceIsProduct). */
  lemma {:induction false} NoStarvation(t: seq<Call>, e: nat)
    requires Waits(t, e) && t != [] && Waiting(t, 0, e) && InRange(t[0].es)
    requires |t| > RESTARTING_NUMBER + Allowance(t[0].es, e, t[0].es[e].runs)
    ensures exists i :: 0 <= i <= RESTARTING_NUMBER + Allowance(t[0].es, e, t[0].es[e].runs) && t[i].picked == Some(e)
  {
    PickedWithin(t, e, RESTARTING_NUMBER + Allowance(t[0].es, e, t[0].es[e].runs));
  }

  // Two environments at the same priority, the second of which waits.
  function TwoReady(): seq<Env> { [Env(Runnable, INITIAL_PRIORITY, 0), Env(Runnable, INITIAL_PRIORITY, 0)] }

  function FirstCall(): Call {
    Call(TwoReady(), 1, None, Some(0), [Env(Running, INITIAL_PRIORITY - 1, 1), Env(Runnable, INITIAL_PRIORITY, 0)], Some(0))
  }

  function SecondCall(): Call {
    Call(FirstCall().es', 2, Some(0), Some(1), [Env(Runnable, INITIAL_PRIORITY - 1, 1), Env(Running, INITIAL_PRIORITY - 1, 1)], Some(1))
  }

  /** Runs as NoStarvation speaks of exist: here environment 1 is passed over once,
      and then picked; the run goes on past the bound. */
  lemma AWaitThatEnds() returns (t: seq<Call>)
    ensures Waits(t, 1) && t != [] && Waiting(t, 0, 1) && InRange(t[0].es)
    ensures |t| > RESTARTING_NUMBER + Allowance(t[0].es, 1, t[0].es[1].runs)
    ensures t[0].picked == Some(0) && t[1].picked == Some(1)
  {
    var c1, c2 := FirstCall(), SecondCall();
    assert IsCall(c1) && IsCall(c2);
    t := [c1] + seq(40, _ => c2);
    assert Allowance(c1.es, 1, 0) == 11 by {
      assert c1.es[..1] == [c1.es[0]] && c1.es[..1][..0] == [];
    }
    assert Waiting(t, 0, 1) && Waiting(t, 1, 1) && Gap(t, 0, 1);
    forall i: nat | i < |t| && Unpicked(t, i, 1) ensures i <= 1 && Waiting(t, i, 1) {
      assert t[1] == c2;
    }
    forall i: nat | i + 1 < |t| && Unpicked(t, i + 1, 1) ensures i == 0 && Gap(t, i, 1) {
      assert t[1] == c2;
    }
  }
}
