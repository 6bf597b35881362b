/** Environments on several CPUs (sched/kern). */
module Lifecycle {
  // Their life under the big kernel lock (trap.c, env.c, sched.c, syscall.c and
  // spinlock.c), one action a step.

  import opened Common
  import opened EnvStatus

  // Where a CPU is. From Entered to Halting it is inside the kernel lock.
  datatype Mode = User | SpinUser | SpinIdle | Halted | Entered | InKernel | Returning | InSched | Leaving | Halting

  datatype Cpu = Cpu(mode: Mode, cur: Option<nat>)

  datatype EnvState = EnvState(status: Status, recving: bool)

  datatype State = State(locked: bool, cpus: seq<Cpu>, envs: seq<EnvState>)

  datatype Action =
    | Trap(c: nat)
    | Timer(c: nat)
    | Exchange(c: nat)
    | CheckZombie(c: nat)
    | SetStatus(c: nat, t: nat, status: Status)
    | Destroy(c: nat, t: nat)
    | Exofork(c: nat, t: nat)
    | IpcRecv(c: nat, valid: bool)
    | IpcSend(c: nat, t: nat)
    | OtherCall(c: nat)
    | Yield(c: nat)
    | TrapReturn(c: nat)
    | Pick(c: nat, t: nat)
    | Halt(c: nat)
    | Unlock(c: nat)

  predicate In(s: State, c: nat, m: Mode) { c < |s.cpus| && s.cpus[c].mode == m }

  predicate HasEnv(s: State, c: nat) { c < |s.cpus| && s.cpus[c].cur.Some? && s.cpus[c].cur.value < |s.envs| }

  function Current(s: State, c: nat): EnvState
    requires HasEnv(s, c)
  {
    s.envs[s.cpus[c].cur.value]
  }

  // CPU c is handling a system call of its current environment.
  predicate Calling(s: State, c: nat) { In(s, c, InKernel) && HasEnv(s, c) }

  predicate Live(s: State, t: nat) { t < |s.envs| && s.envs[t].status != Free }

  /** Which actions the code can take. */
  predicate Enabled(s: State, a: Action) {
    match a
    case Trap(c) => In(s, c, User)
    case Timer(c) => In(s, c, Halted)
    case Exchange(c) => In(s, c, SpinUser) || In(s, c, SpinIdle)
    case CheckZombie(c) => In(s, c, Entered) && HasEnv(s, c)
    case SetStatus(c, t, status) => Calling(s, c) && Live(s, t) && (status == Runnable || status == NotRunnable)
    case Destroy(c, t) => Calling(s, c) && Live(s, t)
    case Exofork(c, t) => Calling(s, c) && t < |s.envs| && s.envs[t].status == Free
    case IpcRecv(c, _) => Calling(s, c)
    case IpcSend(c, t) => Calling(s, c) && Live(s, t) && s.envs[t].recving
    case OtherCall(c) => Calling(s, c)
    case Yield(c) => Calling(s, c)
    case TrapReturn(c) => In(s, c, Returning) && HasEnv(s, c)
    case Pick(c, t) =>
      && In(s, c, InSched) && t < |s.envs|
      && (s.envs[t].status == Runnable || (s.envs[t].status == Running && s.cpus[c].cur == Some(t)))
    case Halt(c) =>
      In(s, c, InSched) && !(HasEnv(s, c) && Current(s, c).status == Running)
    case Unlock(c) => In(s, c, Leaving) || In(s, c, Halting)
  }

  function Goto(s: State, c: nat, m: Mode): State
    requires c < |s.cpus|
  {
    State(s.locked, s.cpus[c := Cpu(m, s.cpus[c].cur)], s.envs)
  }

  function Drop(s: State, c: nat): State
    requires c < |s.cpus|
  {
    State(s.locked, s.cpus[c := Cpu(InSched, None)], s.envs)
  }

  function Put(s: State, t: nat, status: Status, recving: bool): State
    requires t < |s.envs|
  {
    State(s.locked, s.cpus, s.envs[t := EnvState(status, recving)])
  }

  // env_run of t on c, up to the release of the lock.
  function Run(s: State, c: nat, t: nat): State
    requires c < |s.cpus| && t < |s.envs|
  {
    var s1 := if HasEnv(s, c) && Current(s, c).status == Running then Put(s, s.cpus[c].cur.value, Runnable, Current(s, c).recving) else s;
    State(s.locked, s.cpus[c := Cpu(Leaving, Some(t))], Put(s1, t, Running, s1.envs[t].recving).envs)
  }

  function Lock(s: State, locked: bool): State { State(locked, s.cpus, s.envs) }

  /** What the actions do. */
  function Apply(s: State, a: Action): (s': State)
    requires Enabled(s, a)
  {
    match a
    case Trap(c) => Goto(s, c, SpinUser)
    case Timer(c) => Goto(s, c, SpinIdle)
    case Exchange(c) =>
      if s.locked then s else Goto(Lock(s, true), c, if s.cpus[c].mode == SpinUser then Entered else InSched)
    case CheckZombie(c) =>
      if Current(s, c).status == Dying then Drop(Put(s, s.cpus[c].cur.value, Free, Current(s, c).recving), c)
      else Goto(s, c, InKernel)
    case SetStatus(c, t, status) => Goto(Put(s, t, status, s.envs[t].recving), c, Returning)
    case Destroy(c, t) =>
      if s.envs[t].status == Running && s.cpus[c].cur != Some(t) then Goto(Put(s, t, Dying, s.envs[t].recving), c, Returning)
      else if s.cpus[c].cur == Some(t) then Drop(Put(s, t, Free, s.envs[t].recving), c)
      else Goto(Put(s, t, Free, s.envs[t].recving), c, Returning)
    case Exofork(c, t) => Goto(Put(s, t, NotRunnable, false), c, Returning)
    case IpcRecv(c, valid) =>
      if valid then Goto(Put(s, s.cpus[c].cur.value, NotRunnable, true), c, InSched)
      else Goto(Put(s, s.cpus[c].cur.value, Current(s, c).status, true), c, Returning)
    case IpcSend(c, t) => Goto(Put(s, t, Runnable, false), c, Returning)
    case OtherCall(c) => Goto(s, c, Returning)
    case Yield(c) => Goto(s, c, InSched)
    case TrapReturn(c) => if Current(s, c).status == Running then Run(s, c, s.cpus[c].cur.value) else Goto(s, c, InSched)
    case Pick(c, t) => Run(s, c, t)
    case Halt(c) => State(s.locked, s.cpus[c := Cpu(Halting, None)], s.envs)
    case Unlock(c) => Goto(Lock(s, false), c, if s.cpus[c].mode == Leaving then User else Halted)
  }

  // ---------------------------------------------------------------------
  // The invariant

  predicate Holds(s: State, c: nat)
    requires c < |s.cpus|
  {
    s.cpus[c].mode !in {User, SpinUser, SpinIdle, Halted}
  }

  // What a CPU's current environment can be, mode by mode.
  predicate CpuOk(s: State, c: nat)
    requires c < |s.cpus|
  {
    && (s.cpus[c].cur.Some? ==> HasEnv(s, c))
    && match s.cpus[c].mode {
         case User | SpinUser | Entered => HasEnv(s, c) && Current(s, c).status in {Running, Dying}
         case InKernel | Leaving => HasEnv(s, c) && Current(s, c).status == Running
         case Returning => HasEnv(s, c) && Current(s, c).status in {Running, Runnable, NotRunnable}
         case InSched => s.cpus[c].cur.Some? ==> Current(s, c).status in {Running, Runnable, NotRunnable}
         case SpinIdle | Halted | Halting => s.cpus[c].cur.None?
       }
  }

  // Two CPUs have different environments, and only one holds the lock.
  predicate Apart(s: State, c: nat, d: nat)
    requires c < |s.cpus| && d < |s.cpus|
  {
    c != d ==> (s.cpus[c].cur.Some? ==> s.cpus[c].cur != s.cpus[d].cur) && !(Holds(s, c) && Holds(s, d))
  }

  ghost predicate IsHeld(s: State) { exists c: nat :: c < |s.cpus| && Holds(s, c) }

  ghost predicate IsCurrent(s: State, t: nat) { exists c: nat :: c < |s.cpus| && s.cpus[c].cur == Some(t) }

  ghost predicate EnvOk(s: State, t: nat)
    requires t < |s.envs|
  {
    && (s.envs[t].recving && s.envs[t].status != Free ==> s.envs[t].status == NotRunnable)
    && (s.envs[t].status in {Running, Dying} ==> IsCurrent(s, t))
  }

  ghost predicate Inv(s: State) {
    && (forall c: nat {:trigger CpuOk(s, c)} :: c < |s.cpus| ==> CpuOk(s, c))
    && (forall c: nat, d: nat {:trigger Apart(s, c, d)} :: c < |s.cpus| && d < |s.cpus| ==> Apart(s, c, d))
    && (s.locked <==> IsHeld(s))
    && (forall t: nat {:trigger EnvOk(s, t)} :: t < |s.envs| ==> EnvOk(s, t))
  }

  /** What the code does not check: a status is set only for an environment that
      runs nowhere else, and never to runnable while it is receiving; a dying
      environment is not destroyed again; sys_ipc_recv gets a valid address. */
  predicate Guard(s: State, a: Action)
    requires Enabled(s, a)
  {
    match a
    case SetStatus(c, t, status) =>
      && (s.cpus[c].cur == Some(t) || s.envs[t].status in {Runnable, NotRunnable})
      && (status == Runnable ==> !s.envs[t].recving)
    case Destroy(_, t) => s.envs[t].status != Dying
    case IpcRecv(_, valid) => valid
    case _ => true
  }

  // ---------------------------------------------------------------------
  // Every guarded step keeps the invariant

  // Only CPU c and the environments have changed.
  ghost predicate OnlyCpu(s: State, s': State, c: nat) {
    && c < |s.cpus| == |s'.cpus| && |s.envs| == |s'.envs|
    && forall d: nat {:trigger s'.cpus[d]} :: d < |s.cpus| && d != c ==> s'.cpus[d] == s.cpus[d]
  }

  lemma Witness(s: State, t: nat) returns (c: nat)
    requires t < |s.envs| && EnvOk(s, t) && s.envs[t].status in {Running, Dying}
    ensures c < |s.cpus| && s.cpus[c].cur == Some(t)
  {
    c :| c < |s.cpus| && s.cpus[c].cur == Some(t);
  }

  // What holds of the CPUs outside the lock while c is inside it.
  lemma Outside(s: State, c: nat, d: nat)
    requires Inv(s) && c < |s.cpus| && d < |s.cpus| && c != d && Holds(s, c)
    ensures !Holds(s, d) && CpuOk(s, d)
    ensures s.cpus[d].cur.Some? ==> s.cpus[d].cur != s.cpus[c].cur && Current(s, d).status in {Running, Dying}
  {
    assert Apart(s, c, d) && CpuOk(s, d) && Apart(s, d, c);
  }

  lemma HolderStep(s: State, s': State, c: nat)
    requires Inv(s) && OnlyCpu(s, s', c) && Holds(s, c)
    requires s'.locked == Holds(s', c) && CpuOk(s', c)
    requires forall d: nat {:trigger s.cpus[d]} :: d < |s.cpus| && d != c ==>
               CpuOk(s', d) && (s'.cpus[c].cur.Some? ==> s.cpus[d].cur != s'.cpus[c].cur)
    requires forall t: nat {:trigger EnvOk(s', t)} :: t < |s.envs| ==> EnvOk(s', t)
    ensures Inv(s')
  {
    forall d: nat, e: nat | d < |s.cpus| && e < |s.cpus| ensures Apart(s', d, e) {
      assert Apart(s, d, e);
      if d != c { Outside(s, c, d); }
      if e != c { Outside(s, c, e); }
    }
    forall d: nat | d < |s.cpus| ensures CpuOk(s', d) {
      if d != c { assert s.cpus[d] == s'.cpus[d]; }
    }
    if s'.locked {
      assert Holds(s', c);
    } else {
      forall d: nat | d < |s.cpus| ensures !Holds(s', d) {
        if d != c { Outside(s, c, d); }
      }
    }
  }

  // The holder moves on with the same environment, and changes at most one, which
  // runs nowhere else or starts dying.
  lemma CallStep(s: State, s': State, c: nat, t: nat)
    requires Inv(s) && OnlyCpu(s, s', c) && Holds(s, c) && t < |s.envs|
    requires s'.envs == s.envs[t := s'.envs[t]]
    requires s'.cpus[c].cur == s.cpus[c].cur && s'.locked == Holds(s', c) && CpuOk(s', c)
    requires s.cpus[c].cur == Some(t) || s.envs[t].status !in {Running, Dying} || s'.envs[t].status == Dying || s'.envs == s.envs
    requires s'.envs[t].recving && s'.envs[t].status != Free ==> s'.envs[t].status == NotRunnable
    requires s'.envs[t].status in {Running, Dying} ==> s.envs[t].status in {Running, Dying}
    ensures Inv(s')
  {
    forall d: nat | d < |s.cpus| && d != c
      ensures CpuOk(s', d) && (s'.cpus[c].cur.Some? ==> s.cpus[d].cur != s'.cpus[c].cur)
    {
      Outside(s, c, d);
      assert s'.cpus[d] == s.cpus[d];
    }
    forall u: nat | u < |s.envs| ensures EnvOk(s', u) {
      assert EnvOk(s, u);
      if s'.envs[u].status in {Running, Dying} {
        var d := Witness(s, u);
        assert s'.cpus[d].cur == Some(u);
      }
    }
    HolderStep(s, s', c);
  }

  // The holder lets go of its environment, which is running no more.
  lemma DropStep(s: State, s': State, c: nat)
    requires Inv(s) && OnlyCpu(s, s', c) && Holds(s, c) && s'.cpus[c].cur.None?
    requires s'.locked && Holds(s', c) && CpuOk(s', c)
    requires if HasEnv(s, c) then s'.envs == s.envs[s.cpus[c].cur.value := s'.envs[s.cpus[c].cur.value]] else s'.envs == s.envs
    requires HasEnv(s, c) ==> s'.envs[s.cpus[c].cur.value].status !in {Running, Dying}
                               && (s'.envs == s.envs || s'.envs[s.cpus[c].cur.value].status == Free)
    ensures Inv(s')
  {
    assert CpuOk(s, c);
    forall d: nat | d < |s.cpus| && d != c ensures CpuOk(s', d) {
      Outside(s, c, d);
      assert s'.cpus[d] == s.cpus[d];
    }
    forall u: nat | u < |s.envs| ensures EnvOk(s', u) {
      assert EnvOk(s, u);
      if s'.envs[u].status in {Running, Dying} {
        var d := Witness(s, u);
        assert s'.cpus[d].cur == Some(u);
      }
    }
    HolderStep(s, s', c);
  }

  // env_run of t, which is runnable or already runs here.
  lemma RunStep(s: State, c: nat, t: nat)
    requires Inv(s) && c < |s.cpus| && s.cpus[c].mode in {Returning, InSched} && t < |s.envs|
    requires s.envs[t].status == Runnable || (s.envs[t].status == Running && s.cpus[c].cur == Some(t))
    ensures Inv(Run(s, c, t))
  {
    var s' := Run(s, c, t);
    assert CpuOk(s, c) && EnvOk(s, t);
    forall d: nat | d < |s.cpus| && d != c ensures CpuOk(s', d) && s.cpus[d].cur != Some(t) {
      Outside(s, c, d);
      assert s'.cpus[d] == s.cpus[d];
    }
    forall u: nat | u < |s.envs| ensures EnvOk(s', u) {
      assert EnvOk(s, u);
      if u == t {
        assert s'.cpus[c].cur == Some(t);
      } else if s'.envs[u].status in {Running, Dying} {
        var d := Witness(s, u);
        assert s'.cpus[d].cur == Some(u);
      }
    }
    assert Holds(s, c);
    HolderStep(s, s', c);
  }

  // Outside the lock a CPU changes its mode only, or takes the lock.
  lemma OutsideStep(s: State, s': State, c: nat)
    requires Inv(s) && OnlyCpu(s, s', c) && !Holds(s, c) && s'.envs == s.envs
    requires s'.cpus[c].cur == s.cpus[c].cur && CpuOk(s', c)
    requires if Holds(s', c) then !s.locked && s'.locked else s'.locked == s.locked
    ensures Inv(s')
  {
    forall d: nat | d < |s.cpus| ensures CpuOk(s', d) && (Holds(s', d) <==> Holds(s, d) || (d == c && Holds(s', c))) {
      assert CpuOk(s, d);
    }
    assert forall d: nat :: d < |s.cpus| && Holds(s, d) ==> s.locked;
    forall d: nat, e: nat | d < |s.cpus| && e < |s.cpus| ensures Apart(s', d, e) {
      assert Apart(s, d, e);
    }
    if s'.locked && !Holds(s', c) {
      var d: nat :| d < |s.cpus| && Holds(s, d);
      assert Holds(s', d);
    }
    forall u: nat | u < |s.envs| ensures EnvOk(s', u) {
      assert EnvOk(s, u);
      if s'.envs[u].status in {Running, Dying} {
        var d := Witness(s, u);
        assert s'.cpus[d].cur == Some(u);
      }
    }
  }

  lemma UnlockIdle(s: State, c: nat)
    requires Inv(s) && In(s, c, Halting)
    ensures Inv(Apply(s, Unlock(c)))
  {
    var s' := Apply(s, Unlock(c));
    assert CpuOk(s, c) && Holds(s, c);
    forall d: nat | d < |s.cpus| && d != c ensures CpuOk(s', d) {
      Outside(s, c, d);
      assert s'.cpus[d] == s.cpus[d];
    }
    forall u: nat | u < |s.envs| ensures EnvOk(s', u) {
      assert EnvOk(s, u);
      if s'.envs[u].status in {Running, Dying} {
        var d := Witness(s, u);
        assert s'.cpus[d].cur == Some(u);
      }
    }
    HolderStep(s, s', c);
  }

  predicate IsStatusCall(a: Action) { a.SetStatus? || a.Destroy? || a.Exofork? }

  predicate IsOtherCall(a: Action) { a.IpcRecv? || a.IpcSend? || a.OtherCall? || a.Yield? }

  predicate IsExit(a: Action) { a.TrapReturn? || a.Pick? || a.Halt? || a.Unlock? }

  lemma StatusCallKeepsInv(s: State, a: Action)
    requires Inv(s) && Enabled(s, a) && Guard(s, a) && IsStatusCall(a)
    ensures Inv(Apply(s, a))
  {
    var s' := Apply(s, a);
    assert CpuOk(s, a.c) && Holds(s, a.c) && EnvOk(s, a.t);
    if a.Destroy? && s.cpus[a.c].cur == Some(a.t) {
      DropStep(s, s', a.c);
    } else {
      CallStep(s, s', a.c, a.t);
    }
  }

  lemma OtherCallKeepsInv(s: State, a: Action)
    requires Inv(s) && Enabled(s, a) && Guard(s, a) && IsOtherCall(a)
    ensures Inv(Apply(s, a))
  {
    var s' := Apply(s, a);
    var t := if a.IpcSend? then a.t else s.cpus[a.c].cur.value;
    assert CpuOk(s, a.c) && Holds(s, a.c) && EnvOk(s, t);
    CallStep(s, s', a.c, t);
  }

  lemma ZombieKeepsInv(s: State, c: nat)
    requires Inv(s) && Enabled(s, CheckZombie(c))
    ensures Inv(Apply(s, CheckZombie(c)))
  {
    var s' := Apply(s, CheckZombie(c));
    assert CpuOk(s, c) && Holds(s, c) && EnvOk(s, s.cpus[c].cur.value);
    if Current(s, c).status == Dying {
      DropStep(s, s', c);
    } else {
      CallStep(s, s', c, s.cpus[c].cur.value);
    }
  }

  lemma ExitKeepsInv(s: State, a: Action)
    requires Inv(s) && Enabled(s, a) && IsExit(a)
    ensures Inv(Apply(s, a))
  {
    var s' := Apply(s, a);
    assert CpuOk(s, a.c) && Holds(s, a.c);
    if a.Halt? {
      DropStep(s, s', a.c);
    } else if a.Pick? {
      RunStep(s, a.c, a.t);
    } else if a.Unlock? && s.cpus[a.c].mode == Halting {
      UnlockIdle(s, a.c);
    } else {
      var t := s.cpus[a.c].cur.value;
      assert EnvOk(s, t);
      if a.TrapReturn? && Current(s, a.c).status == Running {
        RunStep(s, a.c, t);
      } else {
        CallStep(s, s', a.c, t);
      }
    }
  }

  lemma GuardedStepKeepsInv(s: State, a: Action)
    requires Inv(s) && Enabled(s, a) && Guard(s, a)
    ensures Inv(Apply(s, a))
  {
    if IsStatusCall(a) {
      StatusCallKeepsInv(s, a);
    } else if IsOtherCall(a) {
      OtherCallKeepsInv(s, a);
    } else if IsExit(a) {
      ExitKeepsInv(s, a);
    } else if a.CheckZombie? {
      ZombieKeepsInv(s, a.c);
    } else if !(a.Exchange? && s.locked) {
      assert CpuOk(s, a.c);
      OutsideStep(s, Apply(s, a), a.c);
    }
  }

  /** The guard is exactly what a step needs to keep the invariant. */
  lemma GuardIsNeeded(s: State, a: Action)
    requires Inv(s) && Enabled(s, a)
    ensures Inv(Apply(s, a)) <==> Guard(s, a)
  {
    if Guard(s, a) {
      GuardedStepKeepsInv(s, a);
    } else {
      var s' := Apply(s, a);
      assert CpuOk(s, a.c);
      var t := if a.IpcRecv? then s.cpus[a.c].cur.value else a.t;
      assert EnvOk(s, t);
      if s.envs[t].status in {Running, Dying} && !a.IpcRecv? {
        var d := Witness(s, t);
        assert CpuOk(s, d) && Apart(s, a.c, d) && !CpuOk(s', d);
      } else {
        assert !EnvOk(s', t);
      }
    }
  }

  // ---------------------------------------------------------------------
  // Whole runs

  // All CPUs are on their way to the scheduler, and nothing runs or waits.
  predicate Init(s: State) {
    && !s.locked
    && (forall c :: 0 <= c < |s.cpus| ==> s.cpus[c] == Cpu(SpinIdle, None))
    && (forall t :: 0 <= t < |s.envs| ==> s.envs[t].status in {Free, Runnable} && !s.envs[t].recving)
  }

  predicate IsRun(run: seq<State>, actions: seq<Action>) {
    && |run| == |actions| + 1
    && forall i {:trigger actions[i]} :: 0 <= i < |actions| ==> Enabled(run[i], actions[i]) && run[i + 1] == Apply(run[i], actions[i])
  }

  predicate IsGuarded(run: seq<State>, actions: seq<Action>)
    requires IsRun(run, actions)
  {
    forall i {:trigger actions[i]} :: 0 <= i < |actions| ==> Guard(run[i], actions[i])
  }

  lemma {:induction false} RunKeepsInv(run: seq<State>, actions: seq<Action>, n: nat)
    requires IsRun(run, actions) && IsGuarded(run, actions) && Init(run[0]) && n <= |actions|
    ensures Inv(run[n])
  {
    if n == 0 {
      forall c: nat | c < |run[0].cpus| ensures CpuOk(run[0], c) && !Holds(run[0], c) {
      }
    } else {
      RunKeepsInv(run, actions, n - 1);
      var a := actions[n - 1];
      GuardedStepKeepsInv(run[n - 1], a);
    }
  }

  // Whether CPU c runs its environment: it is in user mode, or trapped and
  // still waiting for the lock.
  predicate RunsUser(s: State, c: nat) { In(s, c, User) || In(s, c, SpinUser) }

  /** Mutual exclusion and no environment on two CPUs, over every interleaving:
      at most one CPU holds the kernel lock; an environment that runs on a CPU
      outside the lock runs on no other, and is running or dying; and a CPU holds
      the lock exactly while it is taken. */
  lemma NeverOnTwoCpus(run: seq<State>, actions: seq<Action>, n: nat, c: nat, d: nat)
    requires IsRun(run, actions) && IsGuarded(run, actions) && Init(run[0]) && n < |run|
    requires c < |run[n].cpus| && d < |run[n].cpus| && c != d
    ensures !(Holds(run[n], c) && Holds(run[n], d))
    ensures run[n].cpus[c].cur.Some? ==> run[n].cpus[c].cur != run[n].cpus[d].cur
    ensures !Holds(run[n], c) && run[n].cpus[c].cur.Some? ==>
              HasEnv(run[n], c) && Current(run[n], c).status in {Running, Dying} && RunsUser(run[n], c)
    ensures run[n].locked <==> IsHeld(run[n])
  {
    RunKeepsInv(run, actions, n);
    assert CpuOk(run[n], c) && Apart(run[n], c, d);
  }
}
