/** What keeps every priority within 0..10 (sched/kern/sched.c,
    sched/kern/syscall.c, sched/kern/env.c), and what selection then means. */
module Priorities {
  import opened Common
  import opened EnvStatus
  import opened Sched
  import opened Starvation

  datatype Event =
    | Yield(calls: nat, cur: Option<nat>, picked: Option<nat>, cur': Option<nat>)
    | Create(e: nat)
    | Exofork(parent: nat, child: nat)
    | SetPriority(e: nat, priority: int)
    | BlockOrWake

  ghost predicate Happens(es: seq<Env>, ev: Event, es': seq<Env>) {
    match ev
    case Yield(calls, cur, picked, cur') => (cur.Some? ==> cur.value < |es|) && SchedStep(es, calls, cur, picked, es', cur')
    case Create(e) => e < |es| && es[e].status == Free && es' == es[e := Env(Runnable, INITIAL_PRIORITY, 0)]
    case Exofork(parent, child) =>
      && parent < |es| && child < |es| && es[parent].status == Running && es[child].status == Free
      && es' == es[child := Env(NotRunnable, es[parent].priority, 0)]
    case SetPriority(e, p) =>
      e < |es| && es' == if p > es[e].priority then es else es[e := Env(es[e].status, p, es[e].runs)]
    case BlockOrWake =>
      |es'| == |es| && forall i :: 0 <= i < |es| ==>
        es'[i].priority == es[i].priority && es'[i].runs == es[i].runs && (es[i].status == Free ==> es'[i].status == Free)
  }

  lemma YieldKeepsRange(es: seq<Env>, calls: nat, cur: Option<nat>, picked: Option<nat>, es': seq<Env>, cur': Option<nat>)
    requires InRange(es) && (cur.Some? ==> cur.value < |es|) && SchedStep(es, calls, cur, picked, es', cur')
    ensures InRange(es')
  {
    forall i: nat | i < |es| ensures |es'| == |es| && 0 <= es'[i].priority <= INITIAL_PRIORITY {
      if picked.Some? {
        AfterCall(es, calls, cur, picked.value, es', cur', i);
      }
    }
  }

  /** Every event keeps priorities within 0..10, except exactly a call of
      sys_set_priority with a negative value, which the kernel accepts. */
  lemma RangeKeptUnlessNegative(es: seq<Env>, ev: Event, es': seq<Env>)
    requires InRange(es) && Happens(es, ev, es')
    ensures InRange(es') <==> !(ev.SetPriority? && ev.priority < 0)
  {
    match ev
    case Yield(calls, cur, picked, cur') => YieldKeepsRange(es, calls, cur, picked, es', cur');
    case SetPriority(e, p) => assert p < 0 ==> es'[e].priority == p;
    case _ =>
  }

  ghost predicate IsHistory(h: seq<seq<Env>>, evs: seq<Event>) {
    && |h| == |evs| + 1
    && forall i {:trigger evs[i]} :: 0 <= i < |evs| ==> Happens(h[i], evs[i], h[i + 1]) && !(evs[i].SetPriority? && evs[i].priority < 0)
  }

  lemma {:induction false} HistoryInRange(h: seq<seq<Env>>, evs: seq<Event>, n: nat)
    requires IsHistory(h, evs) && InRange(h[0]) && n <= |evs|
    ensures InRange(h[n])
  {
    if n > 0 {
      HistoryInRange(h, evs, n - 1);
      var ev := evs[n - 1];
      RangeKeptUnlessNegative(h[n - 1], ev, h[n]);
    }
  }

  /** A child begins with its parent's priority and no runs, and waits to be set
      runnable; nothing else changes. */
  lemma ChildInherits(es: seq<Env>, parent: nat, child: nat, es': seq<Env>)
    requires Happens(es, Exofork(parent, child), es')
    ensures |es'| == |es| && es'[child].priority == es[parent].priority && es'[child].runs == 0 && es'[child].status == NotRunnable
    ensures forall i: nat :: i < |es| && i != child ==> es'[i] == es[i]
  {
  }

  /** What the kernel makes starts at priority 10 with no runs, runnable at once; and
      sys_set_priority can lower its caller's priority but not raise it. */
  lemma CreatedAndSet(es: seq<Env>, e: nat, p: int, es': seq<Env>)
    ensures Happens(es, Create(e), es') ==> |es'| == |es| && es'[e].priority == 10 && es'[e].runs == 0 && es'[e].status == Runnable
    ensures Happens(es, SetPriority(e, p), es') ==>
              && |es'| == |es| && es'[e].priority == (if p <= es[e].priority then p else es[e].priority)
              && es'[e].runs == es[e].runs && es'[e].status == es[e].status
    ensures Happens(es, Create(e), es') || Happens(es, SetPriority(e, p), es') ==>
              |es'| == |es| && forall i: nat :: i < |es| && i != e ==> es'[i] == es[i]
  {
  }

  // No live environment is at the top priority.
  ghost predicate NoneAtTop(es: seq<Env>) { forall i :: 0 <= i < |es| && es[i].status != Free ==> es[i].priority < INITIAL_PRIORITY }

  lemma TopNotRegained(es: seq<Env>, ev: Event, es': seq<Env>)
    requires InRange(es) && NoneAtTop(es) && Happens(es, ev, es') && !ev.Create?
    ensures NoneAtTop(es')
  {
    if ev.Yield? && ev.picked.Some? {
      forall i: nat | i < |es'| && es'[i].status != Free ensures es'[i].priority < INITIAL_PRIORITY {
        AfterCall(es, ev.calls, ev.cur, ev.picked.value, es', ev.cur', i);
      }
    }
  }

  /** Once no live environment has the top priority, none gets it again, by whatever it
      does and however often it forks: boosts end at 9, sys_set_priority only lowers and
      children inherit. Only an environment that the kernel makes starts at the top. */
  lemma {:induction false} TopIsLost(h: seq<seq<Env>>, evs: seq<Event>, n: nat)
    requires IsHistory(h, evs) && InRange(h[0]) && NoneAtTop(h[0]) && n <= |evs|
    requires forall i {:trigger evs[i]} :: 0 <= i < n ==> !evs[i].Create?
    ensures NoneAtTop(h[n])
  {
    if n > 0 {
      TopIsLost(h, evs, n - 1);
      HistoryInRange(h, evs, n - 1);
      var ev := evs[n - 1];
      TopNotRegained(h[n - 1], ev, h[n]);
    }
  }

  /** Over any history from priorities in 0..10, a scheduling call finds no one
      only when nothing is runnable, and otherwise a runnable environment that no
      runnable one beats in priority, then runs, then circular distance. */
  lemma SelectionIsOptimal(h: seq<seq<Env>>, evs: seq<Event>, n: nat)
    requires IsHistory(h, evs) && InRange(h[0]) && n < |evs| && evs[n].Yield?
    ensures var es := Prepared(h[n], evs[n].calls);
            && (evs[n].cur.Some? ==> evs[n].cur.value < |es|)
            && match evs[n].picked {
                 case None => forall j :: 0 <= j < |es| ==> es[j].status != Runnable
                 case Some(i) =>
                   && i < |es| && es[i].status == Runnable
                   && forall j: nat :: j < |es| && es[j].status == Runnable ==> Preferred(es, Start(evs[n].cur), i, j)
               }
  {
    HistoryInRange(h, evs, n);
    var ev := evs[n];
    assert Happens(h[n], ev, h[n + 1]);
    var es := Prepared(h[n], ev.calls);
    forall j: nat | j < |es| ensures es[j].status == Runnable <==> Eligible(es[j]) {
      assert 0 <= h[n][j].priority;
    }
  }
}
