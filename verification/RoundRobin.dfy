/** Bounded waiting under round robin (sched/kern/sched.c) on one CPU. */
module RoundRobin {
  import opened Common
  import opened EnvStatus
  import opened Sched

  // One call on the only CPU: the state before and after it.
  datatype Turn = Turn(es: seq<Env>, cur: Option<nat>, r: Probe, es': seq<Env>, cur': Option<nat>)

  ghost predicate IsTurn(t: Turn) { Start(t.cur) <= |t.es| && RoundRobinStep(t.es, t.cur, t.r, t.es', t.cur') }

  /** e is runnable and not current, and the last slot holds nothing runnable. */
  ghost predicate Waiting(t: Turn, n: nat, e: nat) {
    && IsTurn(t) && |t.es| == n && e < n
    && t.es[e].status == Runnable && t.cur != Some(e) && t.es[n - 1].status != Runnable
  }

  // No turn before turn i has gone to e.
  ghost predicate Unchosen(ts: seq<Turn>, i: nat, e: nat)
    requires i <= |ts|
  {
    forall j {:trigger ts[j]} :: 0 <= j < i ==> ts[j].r != Choice(Some(e))
  }

  /** Consecutive turns. Until e is chosen it waits, and in between environments
      may block, wake and be created, but the current one does not exit. What
      comes after the turn that goes to e is not restricted. */
  ghost predicate Waits(ts: seq<Turn>, n: nat, e: nat) {
    && (forall i: nat {:trigger IsTurn(ts[i])} :: i < |ts| ==> IsTurn(ts[i]))
    && (forall i: nat {:trigger Waiting(ts[i], n, e)} :: i < |ts| && Unchosen(ts, i, e) ==> Waiting(ts[i], n, e))
    && (forall i: nat {:trigger Next(ts, i)} :: i + 1 < |ts| && Unchosen(ts, i + 1, e) ==> Next(ts, i))
  }

  ghost predicate Next(ts: seq<Turn>, i: nat)
    requires i + 1 < |ts|
  {
    ts[i + 1].cur == ts[i].cur'
  }

  // A turn given to someone else brings e strictly nearer, and the scan of the
  // next turn stays inside the table.
  lemma TurnNearer(t: Turn, n: nat, e: nat)
    requires Waiting(t, n, e) && t.cur != Some(n - 1) && t.r != Choice(Some(e))
    ensures t.cur'.Some? && t.cur'.value + 1 < n && t.cur' != Some(e)
    ensures Dist(n, Start(t.cur'), e) < Dist(n, Start(t.cur), e)
  {
    assert Offered(t.es, t.cur, e);
  }

  lemma UnchosenInRest(ts: seq<Turn>, i: nat, e: nat)
    requires i < |ts| && ts[0].r != Choice(Some(e)) && Unchosen(ts[1..], i, e)
    ensures Unchosen(ts, i + 1, e)
  {
    forall j | 0 <= j < i + 1 ensures ts[j].r != Choice(Some(e)) {
      assert j > 0 ==> ts[j] == ts[1..][j - 1];
    }
  }

  lemma RestWaits(ts: seq<Turn>, n: nat, e: nat)
    requires Waits(ts, n, e) && |ts| > 1 && ts[0].r != Choice(Some(e))
    ensures Waits(ts[1..], n, e) && ts[1].cur == ts[0].cur' && Waiting(ts[1], n, e)
  {
    var rest := ts[1..];
    UnchosenInRest(ts, 0, e);
    assert Next(ts, 0) && Waiting(ts[1], n, e);
    forall i: nat | i < |rest| && Unchosen(rest, i, e) ensures Waiting(rest[i], n, e) {
      UnchosenInRest(ts, i, e);
      assert Waiting(ts[i + 1], n, e);
    }
    forall i: nat | i + 1 < |rest| && Unchosen(rest, i + 1, e) ensures Next(rest, i) {
      UnchosenInRest(ts, i + 1, e);
      assert Next(ts, i + 1);
    }
  }

  /** e is chosen within as many turns as its circular distance from the current
      environment. */
  lemma {:induction false} WaitWithin(ts: seq<Turn>, n: nat, e: nat)
    requires Waits(ts, n, e) && ts != [] && Waiting(ts[0], n, e) && ts[0].cur != Some(n - 1)
    requires |ts| > Dist(n, Start(ts[0].cur), e)
    ensures exists i :: 0 <= i <= Dist(n, Start(ts[0].cur), e) && ts[i].r == Choice(Some(e))
    decreases |ts|
  {
    if ts[0].r != Choice(Some(e)) {
      TurnNearer(ts[0], n, e);
      RestWaits(ts, n, e);
      var rest := ts[1..];
      WaitWithin(rest, n, e);
      var i :| 0 <= i <= Dist(n, Start(rest[0].cur), e) && rest[i].r == Choice(Some(e));
      assert ts[i + 1].r == Choice(Some(e));
    }
  }

  /** An environment that stays runnable until it is chosen is chosen within NENV
      calls, provided that no environment runs in the last slot. */
  lemma BoundedWaiting(ts: seq<Turn>, e: nat)
    requires Waits(ts, NENV, e) && |ts| >= NENV && Waiting(ts[0], NENV, e) && ts[0].cur != Some(NENV - 1)
    ensures exists i :: 0 <= i < NENV && ts[i].r == Choice(Some(e))
  {
    WaitWithin(ts, NENV, e);
  }

  // A table in which the first two environments are alive.
  function TwoLive(first: Status, firstRuns: nat, second: Status, secondRuns: nat): (es: seq<Env>)
    ensures |es| == NENV
  {
    [Env(first, INITIAL_PRIORITY, firstRuns), Env(second, INITIAL_PRIORITY, secondRuns)]
    + seq(NENV - 2, _ => Env(Free, INITIAL_PRIORITY, 0))
  }

  function FirstTurn(): Turn {
    Turn(TwoLive(Runnable, 0, Runnable, 0), None, Choice(Some(0)), TwoLive(Running, 1, Runnable, 0), Some(0))
  }

  function SecondTurn(): Turn {
    Turn(TwoLive(Running, 1, Runnable, 0), Some(0), Choice(Some(1)), TwoLive(Runnable, 1, Running, 1), Some(1))
  }

  /** Runs as BoundedWaiting speaks of exist: here environment 1 waits for one turn,
      and then gets the next; the run goes on past the bound. */
  lemma AWaitThatEnds() returns (ts: seq<Turn>)
    ensures Waits(ts, NENV, 1) && |ts| > NENV && Waiting(ts[0], NENV, 1) && ts[0].cur != Some(NENV - 1)
    ensures ts[0].r == Choice(Some(0)) && ts[1].r == Choice(Some(1))
  {
    var t1, t2 := FirstTurn(), SecondTurn();
    assert IsTurn(t1) by {
      assert Ran(t1.es, None, 0) == t1.es';
    }
    assert IsTurn(t2) by {
      assert Ran(t2.es, Some(0), 1) == t2.es';
    }
    ts := [t1] + seq(NENV, _ => t2);
    assert ts[1] == t2;
    forall i: nat | i < |ts| && Unchosen(ts, i, 1) ensures i <= 1 && Waiting(ts[i], NENV, 1) {
    }
    forall i: nat | i + 1 < |ts| && Unchosen(ts, i + 1, 1) ensures i == 0 && Next(ts, i) {
    }
  }
}
