/** Statuses of environments (sched/kern). */
module Statuses {
  // What the kernel's actions do to the status of each environment, and where they
  // leave the CPU that takes them (syscall.c, env.c, trap.c, sched.c).

  import opened Common
  import opened EnvStatus
  import opened Lifecycle

  // The environment that an action names, if it names one.
  function Target(a: Action): Option<nat> {
    match a
    case SetStatus(_, t, _) => Some(t)
    case Destroy(_, t) => Some(t)
    case Exofork(_, t) => Some(t)
    case IpcSend(_, t) => Some(t)
    case Pick(_, t) => Some(t)
    case _ => None
  }

  /** An action changes the environment that it names and the current one of its CPU
      at most, and no other CPU. */
  lemma OthersKeepTheirs(s: State, a: Action)
    requires Enabled(s, a)
    ensures a.c < |s.cpus| == |Apply(s, a).cpus| && |Apply(s, a).envs| == |s.envs|
    ensures forall u: nat :: u < |s.envs| && Target(a) != Some(u) && s.cpus[a.c].cur != Some(u) ==> Apply(s, a).envs[u] == s.envs[u]
    ensures forall d: nat :: d < |s.cpus| && d != a.c ==> Apply(s, a).cpus[d] == s.cpus[d]
  {
  }

  ghost predicate RunsElsewhere(s: State, c: nat, t: nat) { exists d: nat :: d < |s.cpus| && d != c && s.cpus[d].cur == Some(t) }

  // While CPU c is in the kernel, what runs elsewhere are the environments of the
  // other CPUs.
  lemma RunningElsewhere(s: State, c: nat, t: nat)
    requires Inv(s) && Calling(s, c) && t < |s.envs| && s.envs[t].status != Dying
    ensures RunsElsewhere(s, c, t) <==> s.envs[t].status == Running && s.cpus[c].cur != Some(t)
  {
    assert CpuOk(s, c) && Holds(s, c) && EnvOk(s, t);
    if RunsElsewhere(s, c, t) {
      var d: nat :| d < |s.cpus| && d != c && s.cpus[d].cur == Some(t);
      Outside(s, c, d);
    }
  }

  /** The status of the environment that a call names, after the call: a new child is
      not runnable, a receiver that gets a message is, a destroyed one is dying if and
      only if it runs on another CPU. No other environment changes, the caller
      included, when it names another one. */
  lemma TargetStatus(s: State, a: Action)
    requires Inv(s) && Enabled(s, a) && Guard(s, a) && (IsStatusCall(a) || a.IpcSend?)
    ensures a.t < |s.envs| == |Apply(s, a).envs|
    ensures a.SetStatus? ==> Apply(s, a).envs[a.t] == EnvState(a.status, s.envs[a.t].recving)
    ensures a.Exofork? ==> Apply(s, a).envs[a.t] == EnvState(NotRunnable, false)
    ensures a.IpcSend? ==> Apply(s, a).envs[a.t] == EnvState(Runnable, false)
    ensures a.Destroy? ==> Apply(s, a).envs[a.t].status == if RunsElsewhere(s, a.c, a.t) then Dying else Free
    ensures forall u: nat :: u < |s.envs| && u != a.t ==> Apply(s, a).envs[u] == s.envs[u]
  {
    if a.Destroy? {
      RunningElsewhere(s, a.c, a.t);
    }
  }

  /** The other calls: a receive blocks the caller if its address is valid, and marks
      it as receiving in any case; the rest change no environment. */
  lemma CallerStatus(s: State, a: Action)
    requires Enabled(s, a) && (a.IpcRecv? || a.OtherCall? || a.Yield?)
    ensures HasEnv(s, a.c) && |Apply(s, a).envs| == |s.envs|
    ensures !a.IpcRecv? ==> Apply(s, a).envs == s.envs
    ensures a.IpcRecv? ==> var e := s.cpus[a.c].cur.value;
              && Apply(s, a).envs[e] == EnvState(if a.valid then NotRunnable else s.envs[e].status, true)
              && forall u: nat :: u < |s.envs| && u != e ==> Apply(s, a).envs[u] == s.envs[u]
  {
  }

  // What env_run of t on CPU c leaves, once the lock is released.
  ghost predicate RunsNow(s: State, s': State, c: nat, t: nat) {
    && c < |s.cpus| == |s'.cpus| && t < |s.envs| == |s'.envs|
    && s'.cpus[c] == Cpu(User, Some(t)) && !s'.locked
    && s'.envs[t] == EnvState(Running, s.envs[t].recving)
    && forall u: nat :: u < |s.envs| && u != t ==>
         s'.envs[u] == if s.cpus[c].cur == Some(u) && s.envs[u].status == Running then EnvState(Runnable, s.envs[u].recving) else s.envs[u]
  }

  lemma RunThenUnlock(s: State, c: nat, t: nat)
    requires c < |s.cpus| && t < |s.envs|
    ensures Enabled(Run(s, c, t), Unlock(c)) && RunsNow(s, Apply(Run(s, c, t), Unlock(c)), c, t)
  {
  }

  // A call after which the caller goes on.
  predicate Returns(s: State, a: Action)
    requires Enabled(s, a)
  {
    match a
    case OtherCall(_) => true
    case Exofork(_, _) => true
    case IpcRecv(_, valid) => !valid
    case SetStatus(c, t, _) => s.cpus[c].cur != Some(t)
    case Destroy(c, t) => s.cpus[c].cur != Some(t)
    case IpcSend(c, t) => s.cpus[c].cur != Some(t)
    case _ => false
  }

  lemma StillRunning(s: State, a: Action)
    requires Inv(s) && Enabled(s, a) && Returns(s, a)
    ensures HasEnv(s, a.c) && Apply(s, a).cpus == s.cpus[a.c := Cpu(Returning, s.cpus[a.c].cur)]
    ensures HasEnv(Apply(s, a), a.c) && Current(Apply(s, a), a.c).status == Running
  {
    assert CpuOk(s, a.c);
  }

  /** Such a call is followed by the caller itself, in user mode again; no scheduling
      comes between. */
  lemma CallReturns(s: State, a: Action)
    requires Inv(s) && Enabled(s, a) && Returns(s, a)
    ensures HasEnv(s, a.c) && Enabled(Apply(s, a), TrapReturn(a.c))
    ensures Enabled(Apply(Apply(s, a), TrapReturn(a.c)), Unlock(a.c))
    ensures RunsNow(Apply(s, a), Apply(Apply(Apply(s, a), TrapReturn(a.c)), Unlock(a.c)), a.c, s.cpus[a.c].cur.value)
  {
    StillRunning(s, a);
    RunThenUnlock(Apply(s, a), a.c, s.cpus[a.c].cur.value);
  }

  // A call that gives up the CPU: a yield, a receive that blocks, the caller's own end.
  predicate GivesUp(s: State, a: Action)
    requires Enabled(s, a)
  {
    a.Yield? || (a.IpcRecv? && a.valid) || (a.Destroy? && s.cpus[a.c].cur == Some(a.t))
  }

  lemma IsScheduling(s: State, a: Action)
    requires Inv(s) && Enabled(s, a) && Guard(s, a) && GivesUp(s, a)
    ensures HasEnv(s, a.c) && |Apply(s, a).envs| == |s.envs| && In(Apply(s, a), a.c, InSched)
    ensures Apply(s, a).cpus[a.c].cur == if a.Destroy? then None else s.cpus[a.c].cur
    ensures Apply(s, a).envs[s.cpus[a.c].cur.value].status == if a.Yield? then Running else if a.IpcRecv? then NotRunnable else Free
  {
    assert CpuOk(s, a.c);
  }

  /** After a call that gives up the CPU, the scheduler can pick exactly the runnable
      environments, and the caller if it has yielded; unless it has, it can halt. */
  lemma GivingUpChooses(s: State, a: Action, t: nat)
    requires Inv(s) && Enabled(s, a) && Guard(s, a) && GivesUp(s, a) && t < |s.envs|
    ensures HasEnv(s, a.c) && |Apply(s, a).envs| == |s.envs| && !Enabled(Apply(s, a), TrapReturn(a.c))
    ensures Enabled(Apply(s, a), Pick(a.c, t)) <==> Apply(s, a).envs[t].status == Runnable || (a.Yield? && s.cpus[a.c].cur == Some(t))
    ensures Enabled(Apply(s, a), Halt(a.c)) <==> !a.Yield?
  {
    IsScheduling(s, a);
  }

  /** What the scheduler picks then runs, in user mode and with the lock released. */
  lemma PickedRuns(s: State, c: nat, t: nat)
    requires Enabled(s, Pick(c, t))
    ensures Enabled(Apply(s, Pick(c, t)), Unlock(c)) && RunsNow(s, Apply(Apply(s, Pick(c, t)), Unlock(c)), c, t)
  {
    RunThenUnlock(s, c, t);
  }

  /** A trap leads, as soon as the lock is free, into the kernel with the environment
      that was running, or, if that is dying, to its end and into the scheduler. */
  lemma TrapEnters(s: State, c: nat)
    requires Inv(s) && Enabled(s, Trap(c)) && !s.locked
    ensures var s1 := Apply(s, Trap(c)); Enabled(s1, Exchange(c)) && Enabled(Apply(s1, Exchange(c)), CheckZombie(c))
    ensures HasEnv(s, c)
    ensures var s', e := Apply(Apply(Apply(s, Trap(c)), Exchange(c)), CheckZombie(c)), s.cpus[c].cur.value;
            if s.envs[e].status == Dying
            then s' == State(true, s.cpus[c := Cpu(InSched, None)], s.envs[e := EnvState(Free, s.envs[e].recving)])
            else s' == State(true, s.cpus[c := Cpu(InKernel, Some(e))], s.envs)
  {
    assert CpuOk(s, c);
    var cpus := s.cpus[c := Cpu(SpinUser, s.cpus[c].cur)];
    assert cpus[c := Cpu(Entered, s.cpus[c].cur)] == s.cpus[c := Cpu(Entered, s.cpus[c].cur)];
  }

  /** A timer interrupt takes a halted CPU, as soon as the lock is free, into the
      scheduler, and finding nothing there it halts again with the lock released. */
  lemma TimerSchedules(s: State, c: nat)
    requires Inv(s) && Enabled(s, Timer(c)) && !s.locked
    ensures Enabled(Apply(s, Timer(c)), Exchange(c))
    ensures var s' := Apply(Apply(s, Timer(c)), Exchange(c));
            && s' == State(true, s.cpus[c := Cpu(InSched, None)], s.envs)
            && Enabled(s', Halt(c)) && Enabled(Apply(s', Halt(c)), Unlock(c)) && Apply(Apply(s', Halt(c)), Unlock(c)) == s
  {
    assert CpuOk(s, c);
    var cpus := s.cpus[c := Cpu(SpinIdle, None)];
    assert cpus[c := Cpu(InSched, None)] == s.cpus[c := Cpu(InSched, None)];
    assert s.cpus[c := Cpu(InSched, None)][c := Cpu(Halting, None)][c := Cpu(Halted, None)] == s.cpus;
  }

  // CPU c can do something; waiting for the lock, it tries to take it.
  ghost predicate NotStuck(s: State, c: nat) { exists a: Action :: a.c == c && Enabled(s, a) }

  /** No CPU is ever stuck: there is always something that it can do next. */
  lemma NoCpuIsStuck(s: State, c: nat)
    requires Inv(s) && c < |s.cpus|
    ensures NotStuck(s, c)
  {
    assert CpuOk(s, c);
    match s.cpus[c].mode
    case User => assert Enabled(s, Trap(c));
    case Halted => assert Enabled(s, Timer(c));
    case SpinUser | SpinIdle => assert Enabled(s, Exchange(c));
    case Entered => assert Enabled(s, CheckZombie(c));
    case InKernel => assert Enabled(s, OtherCall(c));
    case Returning => assert Enabled(s, TrapReturn(c));
    case InSched =>
      if HasEnv(s, c) && Current(s, c).status == Running {
        assert Enabled(s, Pick(c, s.cpus[c].cur.value));
      } else {
        assert Enabled(s, Halt(c));
      }
    case Leaving | Halting => assert Enabled(s, Unlock(c));
  }

  // ---------------------------------------------------------------------
  // A new child

  predicate IsWake(a: Action, t: nat) { a.SetStatus? && a.t == t && a.status == Runnable }

  // t is not runnable, or has been destroyed since.
  predicate Dormant(s: State, t: nat) { t < |s.envs| && s.envs[t].status in {NotRunnable, Free} && !s.envs[t].recving }

  lemma DormantStays(s: State, a: Action, t: nat)
    requires Inv(s) && Enabled(s, a) && Guard(s, a) && Dormant(s, t) && !IsWake(a, t)
    ensures Dormant(Apply(s, a), t)
  {
    if a.c < |s.cpus| {
      assert CpuOk(s, a.c);
    }
  }

  lemma {:induction false} DormantInRun(run: seq<State>, actions: seq<Action>, i: nat, n: nat, t: nat)
    requires IsRun(run, actions) && IsGuarded(run, actions) && Init(run[0]) && i < n <= |actions|
    requires actions[i].Exofork? && actions[i].t == t
    requires forall j {:trigger actions[j]} :: i < j < n ==> !IsWake(actions[j], t)
    ensures Inv(run[n]) && Dormant(run[n], t)
    decreases n
  {
    RunKeepsInv(run, actions, n);
    RunKeepsInv(run, actions, n - 1);
    var a := actions[n - 1];
    if i < n - 1 {
      DormantInRun(run, actions, i, n - 1, t);
      DormantStays(run[n - 1], a, t);
    }
  }

  /** From the sys_exofork that makes it until a sys_env_set_status sets it runnable, a
      child runs on no CPU, and no scheduler can pick it: fork has that time for
      sharing its pages with it. */
  lemma ChildWaitsForFork(run: seq<State>, actions: seq<Action>, i: nat, n: nat, t: nat, d: nat)
    requires IsRun(run, actions) && IsGuarded(run, actions) && Init(run[0]) && i < n <= |actions|
    requires actions[i].Exofork? && actions[i].t == t
    requires forall j {:trigger actions[j]} :: i < j < n ==> !IsWake(actions[j], t)
    ensures t < |run[n].envs| && run[n].envs[t].status in {NotRunnable, Free}
    ensures !Enabled(run[n], Pick(d, t)) && !(RunsUser(run[n], d) && run[n].cpus[d].cur == Some(t))
  {
    DormantInRun(run, actions, i, n, t);
    if d < |run[n].cpus| {
      assert CpuOk(run[n], d);
    }
  }
}
