/** The two schedulers (sched/kern/sched.c) and env_run (sched/kern/env.c). */
module Sched {
  import opened Common
  import opened EnvStatus

  datatype Env = Env(status: Status, priority: int, runs: nat)

  const NENV := 1024
  const RESTARTING_NUMBER := 20
  const INITIAL_PRIORITY := 10
  const BOOST := 5

  // How many steps a circular scan that begins at `start` takes to reach j.
  function Dist(n: nat, start: nat, j: nat): (d: nat)
    requires j < n && start <= n
    ensures d < n
  {
    if start <= j then j - start else j + n - start
  }

  // ---------------------------------------------------------------------
  // Priority scheduling: which environment is the right one

  // i is to be preferred to j: higher priority, then fewer runs, then nearer.
  predicate Preferred(es: seq<Env>, start: nat, i: nat, j: nat)
    requires i < |es| && j < |es| && start <= |es|
  {
    || es[i].priority > es[j].priority
    || (es[i].priority == es[j].priority && es[i].runs < es[j].runs)
    || (es[i].priority == es[j].priority && es[i].runs == es[j].runs
        && Dist(|es|, start, i) <= Dist(|es|, start, j))
  }

  // What the scan considers: it starts from highest_priority = -1.
  predicate Eligible(e: Env) { e.status == Runnable && e.priority >= -1 }

  /** The scheduler's choice: nothing eligible, or the preferred environment. */
  ghost predicate IsChoice(es: seq<Env>, start: nat, next: Option<nat>)
    requires start <= |es|
  {
    match next
    case None => forall j :: 0 <= j < |es| ==> !Eligible(es[j])
    case Some(i) => i < |es| && Eligible(es[i]) && forall j: nat :: j < |es| && Eligible(es[j]) ==> Preferred(es, start, i, j)
  }

  lemma ChoiceIsUnique(es: seq<Env>, start: nat, a: Option<nat>, b: Option<nat>)
    requires start <= |es| && IsChoice(es, start, a) && IsChoice(es, start, b)
    ensures a == b
  {
    if a.Some? && b.Some? {
      assert Preferred(es, start, a.value, b.value) && Preferred(es, start, b.value, a.value);
    }
  }

  // improve_priorities on one environment.
  function Boosted(e: Env): Env {
    if e.status == Runnable && e.priority + BOOST < INITIAL_PRIORITY then e.(priority := e.priority + BOOST) else e
  }

  function BoostAll(es: seq<Env>): (r: seq<Env>)
    ensures |r| == |es| && forall i :: 0 <= i < |es| ==> r[i] == Boosted(es[i])
  {
    seq(|es|, i requires 0 <= i < |es| => Boosted(es[i]))
  }

  // env_run: the old environment becomes runnable, the new one runs once more.
  function Ran(es: seq<Env>, cur: Option<nat>, next: nat): (r: seq<Env>)
    requires next < |es| && (cur.Some? ==> cur.value < |es|)
  {
    var es1 := if cur.Some? && es[cur.value].status == Running then es[cur.value := es[cur.value].(status := Runnable)] else es;
    es1[next := es1[next].(status := Running, runs := es1[next].runs + 1)]
  }

  function Lowered(es: seq<Env>, next: nat): seq<Env>
    requires next < |es|
  {
    if es[next].priority > 0 then es[next := es[next].(priority := es[next].priority - 1)] else es
  }

  function Start(cur: Option<nat>): nat { if cur.Some? then cur.value + 1 else 0 }

  // The table as the scan sees it, after the boost that every 20th call makes.
  function Prepared(es: seq<Env>, calls: nat): (r: seq<Env>)
    ensures |r| == |es|
  {
    if calls % RESTARTING_NUMBER == 0 then BoostAll(es) else es
  }

  /** One call of sched_with_priority on a CPU with current environment `cur`:
      `calls` is the number of this call, `picked` what the scan found. */
  ghost predicate SchedStep(es: seq<Env>, calls: nat, cur: Option<nat>, picked: Option<nat>, es': seq<Env>, cur': Option<nat>)
    requires cur.Some? ==> cur.value < |es|
  {
    var es1 := Prepared(es, calls);
    && IsChoice(es1, Start(cur), picked)
    && match picked {
         case Some(x) => es' == Ran(Lowered(es1, x), cur, x) && cur' == picked
         case None =>
           if cur.Some? && es1[cur.value].status == Running then es' == Ran(es1, cur, cur.value) && cur' == cur
           else es' == es1 && cur' == None
       }
  }

  /** Somebody is eligible by the time of the scan: runnable with a priority of -1 or
      more, or, when the call makes a boost, with one that the boost brings there. */
  ghost predicate SomeoneEligible(es: seq<Env>, calls: nat) {
    exists j :: 0 <= j < |es| && es[j].status == Runnable && es[j].priority >= if calls % 20 == 0 then -6 else -1
  }

  // The CPU's own environment is running.
  predicate OwnRuns(es: seq<Env>, cur: Option<nat>) { cur.Some? && cur.value < |es| && es[cur.value].status == Running }

  // The status of environment j when the CPU has gone from cur to cur'.
  function StatusNow(es: seq<Env>, cur: Option<nat>, cur': Option<nat>, j: nat): Status
    requires j < |es|
  {
    if cur' == Some(j) then Running else if cur == Some(j) && OwnRuns(es, cur) then Runnable else es[j].status
  }

  lemma EligibleIs(es: seq<Env>, calls: nat, cur: Option<nat>, picked: Option<nat>)
    requires Start(cur) <= |es| && IsChoice(Prepared(es, calls), Start(cur), picked)
    ensures picked.None? <==> !SomeoneEligible(es, calls)
  {
    var es1 := Prepared(es, calls);
    forall j: nat | j < |es| ensures Eligible(es1[j]) <==> es[j].status == Runnable && es[j].priority >= if calls % 20 == 0 then -6 else -1 {
    }
  }

  /** Work conservation: a CPU is left without an environment if and only if nothing is
      eligible and its own environment is not running. With nothing eligible and its own
      one running, it goes on with that. */
  lemma CallConserves(es: seq<Env>, calls: nat, cur: Option<nat>, picked: Option<nat>, es': seq<Env>, cur': Option<nat>)
    requires Start(cur) <= |es| && SchedStep(es, calls, cur, picked, es', cur')
    ensures cur'.None? <==> !SomeoneEligible(es, calls) && !OwnRuns(es, cur)
    ensures SomeoneEligible(es, calls) ==> cur' == picked && picked.value < |es| && es[picked.value].status == Runnable
    ensures !SomeoneEligible(es, calls) && OwnRuns(es, cur) ==> cur' == cur
  {
    EligibleIs(es, calls, cur, picked);
  }

  /** What a call does to each environment: the one that the CPU now has runs, and has
      run once more; one that was running here and has lost the CPU is runnable; no
      other status and no other count changes. */
  lemma CallRuns(es: seq<Env>, calls: nat, cur: Option<nat>, picked: Option<nat>, es': seq<Env>, cur': Option<nat>, j: nat)
    requires Start(cur) <= |es| && SchedStep(es, calls, cur, picked, es', cur') && j < |es|
    ensures |es'| == |es| && es'[j].status == StatusNow(es, cur, cur', j)
    ensures es'[j].runs == if cur' == Some(j) then es[j].runs + 1 else es[j].runs
  {
  }

  // The priority of an environment at the time of the scan.
  function ScanPriority(e: Env, calls: nat): int {
    if calls % 20 == 0 && e.status == Runnable && e.priority < 5 then e.priority + 5 else e.priority
  }

  /** And to priorities: every 20th call adds five to the runnable environments below
      five; then the one that is picked loses one, unless it is at zero or below. */
  lemma CallPriorities(es: seq<Env>, calls: nat, cur: Option<nat>, picked: Option<nat>, es': seq<Env>, cur': Option<nat>, j: nat)
    requires Start(cur) <= |es| && SchedStep(es, calls, cur, picked, es', cur') && j < |es|
    ensures |es'| == |es|
    ensures es'[j].priority ==
            if picked == Some(j) && ScanPriority(es[j], calls) > 0 then ScanPriority(es[j], calls) - 1 else ScanPriority(es[j], calls)
  {
  }

  lemma DistIsModulo(n: nat, start: nat, j: nat)
    requires j < n && start <= n
    ensures Dist(n, start, j) == (j - start) % n
  {
    if start > j {
      assert (j - start + n) % n == (j - start) % n;
    }
  }

  /** The one that is picked has the highest priority, of these the fewest runs, and of
      these it comes first going around the table from the place after the CPU's own. */
  lemma CallPicks(es: seq<Env>, calls: nat, cur: Option<nat>, i: nat, es': seq<Env>, cur': Option<nat>, j: nat)
    requires Start(cur) <= |es| && SchedStep(es, calls, cur, Some(i), es', cur') && j < |es|
    requires es[j].status == Runnable && ScanPriority(es[j], calls) >= -1
    ensures i < |es| && ScanPriority(es[i], calls) >= ScanPriority(es[j], calls)
    ensures ScanPriority(es[i], calls) == ScanPriority(es[j], calls) ==> es[i].runs <= es[j].runs
    ensures ScanPriority(es[i], calls) == ScanPriority(es[j], calls) && es[i].runs == es[j].runs ==>
              var start := if cur.Some? then cur.value + 1 else 0;
              (i - start) % |es| <= (j - start) % |es|
  {
    var es1 := Prepared(es, calls);
    assert Eligible(es1[j]) && Preferred(es1, Start(cur), i, j);
    DistIsModulo(|es|, Start(cur), i);
    DistIsModulo(|es|, Start(cur), j);
  }

  // ---------------------------------------------------------------------
  // Round robin

  // What a round-robin scan ends with; it can leave the table of environments.
  datatype Probe = Choice(next: Option<nat>) | OutsideTable

  // The scan offers environment j to a CPU that last ran `cur`.
  predicate Offered(es: seq<Env>, cur: Option<nat>, j: nat)
    requires j < |es|
  {
    es[j].status == Runnable && cur != Some(j)
  }

  /** The runnable environment that comes first after the current one. */
  ghost predicate IsNearest(es: seq<Env>, cur: Option<nat>, next: Option<nat>)
    requires Start(cur) <= |es|
  {
    match next
    case None => forall j: nat :: j < |es| ==> !Offered(es, cur, j)
    case Some(i) =>
      && i < |es| && Offered(es, cur, i)
      && forall j: nat :: j < |es| && Offered(es, cur, j) ==> Dist(|es|, Start(cur), i) <= Dist(|es|, Start(cur), j)
  }

  /** One call of sched_round_robin on a CPU with current environment `cur`. The
      index wraps only after an increment, so the scan leaves the table exactly
      when the current environment is in its last slot. */
  ghost predicate RoundRobinStep(es: seq<Env>, cur: Option<nat>, r: Probe, es': seq<Env>, cur': Option<nat>)
    requires Start(cur) <= |es|
  {
    && (r == OutsideTable <==> cur.Some? && cur.value + 1 == |es|)
    && match r {
         case OutsideTable => es' == es && cur' == cur
         case Choice(Some(x)) => IsNearest(es, cur, Some(x)) && es' == Ran(es, cur, x) && cur' == Some(x)
         case Choice(None) =>
           && IsNearest(es, cur, None)
           && if cur.Some? && es[cur.value].status == Running then es' == Ran(es, cur, cur.value) && cur' == cur
              else es' == es && cur' == None
       }
  }

  /** Work conservation here: outside the table nothing happens; else the CPU is left
      without an environment if and only if no other one is runnable and its own is not
      running, and with nothing else to run it goes on with its own. */
  lemma TurnConserves(es: seq<Env>, cur: Option<nat>, r: Probe, es': seq<Env>, cur': Option<nat>)
    requires Start(cur) <= |es| && RoundRobinStep(es, cur, r, es', cur')
    ensures r == OutsideTable ==> es' == es && cur' == cur
    ensures r.Choice? ==> (r.next.Some? <==> exists j: nat :: j < |es| && es[j].status == Runnable && cur != Some(j))
    ensures r.Choice? && r.next.Some? ==> cur' == r.next
    ensures r.Choice? ==> (cur'.None? <==> r.next.None? && !OwnRuns(es, cur))
    ensures r.Choice? && r.next.None? && OwnRuns(es, cur) ==> cur' == cur
  {
    if r.Choice? && r.next.None? {
      forall j: nat | j < |es| ensures !(es[j].status == Runnable && cur != Some(j)) {
        assert !Offered(es, cur, j);
      }
    }
  }

  lemma TurnRuns(es: seq<Env>, cur: Option<nat>, r: Probe, es': seq<Env>, cur': Option<nat>, j: nat)
    requires Start(cur) <= |es| && RoundRobinStep(es, cur, r, es', cur') && r.Choice? && j < |es|
    ensures |es'| == |es| && es'[j].status == StatusNow(es, cur, cur', j) && es'[j].priority == es[j].priority
    ensures es'[j].runs == if cur' == Some(j) then es[j].runs + 1 else es[j].runs
  {
  }

  // The one that is chosen comes first after the CPU's own, going around the table.
  lemma TurnPicks(es: seq<Env>, cur: Option<nat>, i: nat, es': seq<Env>, cur': Option<nat>, j: nat)
    requires Start(cur) <= |es| && RoundRobinStep(es, cur, Choice(Some(i)), es', cur') && j < |es|
    requires es[j].status == Runnable && cur != Some(j)
    ensures i < |es| && es[i].status == Runnable && cur != Some(i)
    ensures var start := if cur.Some? then cur.value + 1 else 0; (i - start) % |es| <= (j - start) % |es|
  {
    assert Offered(es, cur, j);
    DistIsModulo(|es|, Start(cur), i);
    DistIsModulo(|es|, Start(cur), j);
  }

  class Scheduler {
    const envs: array<Env>
    const curenv: array<Option<nat>>
    var schedCalls: nat

    ghost predicate Valid()
      reads this, curenv
    {
      envs.Length == NENV && forall c :: 0 <= c < curenv.Length && curenv[c].Some? ==> curenv[c].value < NENV
    }

    method ImprovePriorities()
      requires Valid()
      modifies envs
      ensures envs[..] == BoostAll(old(envs[..]))
    {
      for i := 0 to NENV
        invariant forall j :: 0 <= j < NENV ==> envs[j] == if j < i then Boosted(old(envs[..])[j]) else old(envs[..])[j]
      {
        if envs[i].status == Runnable && envs[i].priority + BOOST < INITIAL_PRIORITY {
          envs[i] := envs[i].(priority := envs[i].priority + BOOST);
        }
      }
    }

    method EnvRun(cpu: nat, e: nat)
      requires Valid() && cpu < curenv.Length && e < NENV
      modifies envs, curenv
      ensures Valid()
      ensures envs[..] == Ran(old(envs[..]), old(curenv[cpu]), e)
      ensures curenv[..] == old(curenv[..])[cpu := Some(e)]
    {
      if curenv[cpu].Some? {
        if envs[curenv[cpu].value].status == Running {
          envs[curenv[cpu].value] := envs[curenv[cpu].value].(status := Runnable);
        }
      }
      curenv[cpu] := Some(e);
      envs[e] := envs[e].(status := Running);
      envs[e] := envs[e].(runs := envs[e].runs + 1);
    }

    /** The circular scan of sched_with_priority. */
    method Scan(start: nat) returns (next: Option<nat>)
      requires envs.Length == NENV && start <= NENV
      ensures IsChoice(envs[..], start, next)
    {
      next := None;
      var highest := -1;
      for i := 0 to NENV
        invariant next.None? ==> highest == -1
        invariant next.None? ==> forall j: nat :: j < NENV && Dist(NENV, start, j) < i ==> !Eligible(envs[j])
        invariant next.Some? ==>
          && next.value < NENV && Eligible(envs[next.value]) && highest == envs[next.value].priority
          && Dist(NENV, start, next.value) < i
          && forall j: nat :: j < NENV && Dist(NENV, start, j) < i && Eligible(envs[j]) ==> Preferred(envs[..], start, next.value, j)
      {
        var index := (start + i) % NENV;
        assert forall j: nat :: j < NENV && Dist(NENV, start, j) == i ==> j == index;
        if envs[index].status != Runnable {
          continue;
        }
        if envs[index].priority > highest {
          highest := envs[index].priority;
          next := Some(index);
        } else if envs[index].priority == highest {
          if next.None? || envs[index].runs < envs[next.value].runs {
            next := Some(index);
          }
        }
      }
    }

    method SchedWithPriority(cpu: nat) returns (picked: Option<nat>)
      requires Valid() && cpu < curenv.Length
      modifies this, envs, curenv
      ensures Valid() && schedCalls == old(schedCalls) + 1
      ensures SchedStep(old(envs[..]), schedCalls, old(curenv[cpu]), picked, envs[..], curenv[cpu])
      ensures curenv[cpu].None? <==> !SomeoneEligible(old(envs[..]), schedCalls) && !OwnRuns(old(envs[..]), old(curenv[cpu]))
      ensures !SomeoneEligible(old(envs[..]), schedCalls) && OwnRuns(old(envs[..]), old(curenv[cpu])) ==> curenv[cpu] == old(curenv[cpu])
      ensures forall c :: 0 <= c < curenv.Length && c != cpu ==> curenv[c] == old(curenv[c])
    {
      schedCalls := schedCalls + 1;
      if schedCalls % RESTARTING_NUMBER == 0 {
        ImprovePriorities();
      }
      var start := if curenv[cpu].Some? then curenv[cpu].value + 1 else 0;
      picked := Scan(start);
      if picked.Some? {
        var x := picked.value;
        if envs[x].priority > 0 {
          envs[x] := envs[x].(priority := envs[x].priority - 1);
        }
        EnvRun(cpu, x);
      } else if curenv[cpu].Some? && envs[curenv[cpu].value].status == Running {
        EnvRun(cpu, curenv[cpu].value);
      } else {
        curenv[cpu] := None;
      }
    }

    /** The two scans of sched_round_robin. */
    method RoundRobinScan(cur: Option<nat>) returns (r: Probe)
      requires envs.Length == NENV && (cur.Some? ==> cur.value < NENV)
      ensures r == OutsideTable <==> cur == Some(NENV - 1)
      ensures r.Choice? ==> IsNearest(envs[..], cur, r.next)
    {
      if cur.None? {
        for i := 0 to NENV
          invariant forall j: nat :: j < i ==> envs[j].status != Runnable
        {
          if envs[i].status == Runnable {
            return Choice(Some(i));
          }
        }
        return Choice(None);
      }
      var index := cur.value + 1;
      if index == NENV {
        return OutsideTable;
      }
      while cur.value != index
        invariant 0 <= index < NENV
        invariant forall j: nat :: j < NENV && Offered(envs[..], cur, j) ==>
                    Dist(NENV, cur.value + 1, index) <= Dist(NENV, cur.value + 1, j)
        decreases NENV - Dist(NENV, cur.value + 1, index)
      {
        if envs[index].status == Runnable {
          return Choice(Some(index));
        }
        index := index + 1;
        if index == NENV {
          index := 0;
        }
      }
      return Choice(None);
    }

    method SchedRoundRobin(cpu: nat) returns (r: Probe)
      requires Valid() && cpu < curenv.Length
      modifies envs, curenv
      ensures Valid()
      ensures RoundRobinStep(old(envs[..]), old(curenv[cpu]), r, envs[..], curenv[cpu])
      ensures forall c :: 0 <= c < curenv.Length && c != cpu ==> curenv[c] == old(curenv[c])
    {
      r := RoundRobinScan(curenv[cpu]);
      if r == OutsideTable {
        return;
      }
      if r.next.Some? {
        EnvRun(cpu, r.next.value);
      } else if curenv[cpu].Some? && envs[curenv[cpu].value].status == Running {
        EnvRun(cpu, curenv[cpu].value);
      } else {
        curenv[cpu] := None;
      }
    }
  }
}
