/** What goes wrong in Lifecycle without its guard: a run, step by step, that ends
    with one environment on two CPUs. */
module DoubleRun {
  import opened Common
  import opened EnvStatus
  import opened Lifecycle

  // The actions lead from s to s'.
  ghost predicate Leads(s: State, actions: seq<Action>, s': State)
    decreases |actions|
  {
    if actions == [] then s == s'
    else Enabled(s, actions[0]) && Leads(Apply(s, actions[0]), actions[1..], s')
  }

  lemma {:induction false} LeadsOn(s: State, a: seq<Action>, s1: State, b: seq<Action>, s2: State)
    requires Leads(s, a, s1) && Leads(s1, b, s2)
    ensures Leads(s, a + b, s2)
    decreases |a|
  {
    if a == [] {
      assert a + b == b;
    } else {
      assert (a + b)[0] == a[0] && (a + b)[1..] == a[1..] + b;
      LeadsOn(Apply(s, a[0]), a[1..], s1, b, s2);
    }
  }

  lemma Then(s: State, a: Action, s1: State, b: seq<Action>, s2: State)
    requires Enabled(s, a) && s1 == Apply(s, a) && Leads(s1, b, s2)
    ensures Leads(s, [a] + b, s2)
  {
    assert ([a] + b)[1..] == b;
  }

  lemma Three(s0: State, a: Action, s1: State, b: Action, s2: State, c: Action, s3: State)
    requires Enabled(s0, a) && s1 == Apply(s0, a)
    requires Enabled(s1, b) && s2 == Apply(s1, b)
    requires Enabled(s2, c) && s3 == Apply(s2, c)
    ensures Leads(s0, [a, b, c], s3)
  {
    assert [a, b, c][1..] == [b, c] && [b, c][1..] == [c] && [c][1..] == [];
    assert Leads(s3, [], s3);
    assert Leads(s2, [c], s3);
    assert Leads(s1, [b, c], s3);
  }

  function Two(locked: bool, cpu0: Cpu, cpu1: Cpu, env0: EnvState): State {
    State(locked, [cpu0, cpu1], [env0, EnvState(Running, false)])
  }

  // CPU 1 leaves the kernel to environment 1, and comes back into it.
  lemma RoundTrip(cpu0: Cpu, env0: EnvState)
    ensures Leads(Two(true, cpu0, Cpu(Returning, Some(1)), env0), [TrapReturn(1), Unlock(1), Trap(1)],
                  Two(false, cpu0, Cpu(SpinUser, Some(1)), env0))
  {
    Three(Two(true, cpu0, Cpu(Returning, Some(1)), env0), TrapReturn(1),
          Two(true, cpu0, Cpu(Leaving, Some(1)), env0), Unlock(1),
          Two(false, cpu0, Cpu(User, Some(1)), env0), Trap(1),
          Two(false, cpu0, Cpu(SpinUser, Some(1)), env0));
  }

  // Halted CPU 0 gets a timer interrupt and, once it has the lock, runs environment 0.
  lemma TimerRuns(cpu1: Cpu, recving: bool)
    requires cpu1.mode == SpinUser && cpu1.cur == Some(1)
    ensures Leads(Two(false, Cpu(Halted, None), cpu1, EnvState(Runnable, recving)),
                  [Timer(0), Exchange(0), Pick(0, 0)],
                  Two(true, Cpu(Leaving, Some(0)), cpu1, EnvState(Running, recving)))
  {
    Three(Two(false, Cpu(Halted, None), cpu1, EnvState(Runnable, recving)), Timer(0),
          Two(false, Cpu(SpinIdle, None), cpu1, EnvState(Runnable, recving)), Exchange(0),
          Two(true, Cpu(InSched, None), cpu1, EnvState(Runnable, recving)), Pick(0, 0),
          Two(true, Cpu(Leaving, Some(0)), cpu1, EnvState(Running, recving)));
  }

  // The lock goes from CPU 0 to the waiting CPU 1.
  lemma HandOver(env0: EnvState)
    ensures Leads(Two(true, Cpu(Leaving, Some(0)), Cpu(SpinUser, Some(1)), env0),
                  [Unlock(0), Exchange(1), CheckZombie(1)],
                  Two(true, Cpu(User, Some(0)), Cpu(InKernel, Some(1)), env0))
  {
    Three(Two(true, Cpu(Leaving, Some(0)), Cpu(SpinUser, Some(1)), env0), Unlock(0),
          Two(false, Cpu(User, Some(0)), Cpu(SpinUser, Some(1)), env0), Exchange(1),
          Two(true, Cpu(User, Some(0)), Cpu(Entered, Some(1)), env0), CheckZombie(1),
          Two(true, Cpu(User, Some(0)), Cpu(InKernel, Some(1)), env0));
  }

  // EnvState 0 runs on CPU 0 although it is runnable: CPU 1 yields to it.
  lemma YieldsTo()
    ensures Leads(Two(false, Cpu(User, Some(0)), Cpu(SpinUser, Some(1)), EnvState(Runnable, false)),
                  [Exchange(1), CheckZombie(1), Yield(1)],
                  Two(true, Cpu(User, Some(0)), Cpu(InSched, Some(1)), EnvState(Runnable, false)))
  {
    Three(Two(false, Cpu(User, Some(0)), Cpu(SpinUser, Some(1)), EnvState(Runnable, false)), Exchange(1),
          Two(true, Cpu(User, Some(0)), Cpu(Entered, Some(1)), EnvState(Runnable, false)), CheckZombie(1),
          Two(true, Cpu(User, Some(0)), Cpu(InKernel, Some(1)), EnvState(Runnable, false)), Yield(1),
          Two(true, Cpu(User, Some(0)), Cpu(InSched, Some(1)), EnvState(Runnable, false)));
  }

  function TwiceRun(locked: bool, mode: Mode): State {
    State(locked, [Cpu(User, Some(0)), Cpu(mode, Some(0))], [EnvState(Running, false), EnvState(Runnable, false)])
  }

  lemma SecondRun()
    ensures Leads(Two(true, Cpu(User, Some(0)), Cpu(InSched, Some(1)), EnvState(Runnable, false)), [Pick(1, 0)] + [Unlock(1)], TwiceRun(false, User))
  {
    assert TwiceRun(false, User) == Apply(TwiceRun(true, Leaving), Unlock(1));
    assert [Unlock(1)][1..] == [] && Leads(TwiceRun(false, User), [], TwiceRun(false, User));
    var s := Two(true, Cpu(User, Some(0)), Cpu(InSched, Some(1)), EnvState(Runnable, false));
    assert TwiceRun(true, Leaving) == Apply(s, Pick(1, 0));
    Then(s, Pick(1, 0), TwiceRun(true, Leaving), [Unlock(1)], TwiceRun(false, User));
  }

  // Environment 0 sleeps in sys_ipc_recv, and environment 1 is about to make a system call.
  function Asleep(): State { Two(true, Cpu(Halted, None), Cpu(InKernel, Some(1)), EnvState(NotRunnable, true)) }

  lemma AfterWaking(s: State)
    requires s == Two(true, Cpu(Halted, None), Cpu(Returning, Some(1)), EnvState(Runnable, true))
    ensures Leads(s, [TrapReturn(1), Unlock(1), Trap(1)] + [Timer(0), Exchange(0), Pick(0, 0)] + [Unlock(0), Exchange(1), CheckZombie(1)],
                  Two(true, Cpu(User, Some(0)), Cpu(InKernel, Some(1)), EnvState(Running, true)))
  {
    RoundTrip(Cpu(Halted, None), EnvState(Runnable, true));
    TimerRuns(Cpu(SpinUser, Some(1)), true);
    HandOver(EnvState(Running, true));
    var s1 := Two(false, Cpu(Halted, None), Cpu(SpinUser, Some(1)), EnvState(Runnable, true));
    var s2 := Two(true, Cpu(Leaving, Some(0)), Cpu(SpinUser, Some(1)), EnvState(Running, true));
    var s3 := Two(true, Cpu(User, Some(0)), Cpu(InKernel, Some(1)), EnvState(Running, true));
    LeadsOn(s, [TrapReturn(1), Unlock(1), Trap(1)], s1, [Timer(0), Exchange(0), Pick(0, 0)], s2);
    LeadsOn(s, [TrapReturn(1), Unlock(1), Trap(1)] + [Timer(0), Exchange(0), Pick(0, 0)], s2, [Unlock(0), Exchange(1), CheckZombie(1)], s3);
  }

  lemma AfterSending(s: State)
    requires s == Two(true, Cpu(User, Some(0)), Cpu(Returning, Some(1)), EnvState(Runnable, false))
    ensures Leads(s, [TrapReturn(1), Unlock(1), Trap(1)] + [Exchange(1), CheckZombie(1), Yield(1)] + ([Pick(1, 0)] + [Unlock(1)]), TwiceRun(false, User))
  {
    RoundTrip(Cpu(User, Some(0)), EnvState(Runnable, false));
    YieldsTo();
    SecondRun();
    var s1 := Two(false, Cpu(User, Some(0)), Cpu(SpinUser, Some(1)), EnvState(Runnable, false));
    var s2 := Two(true, Cpu(User, Some(0)), Cpu(InSched, Some(1)), EnvState(Runnable, false));
    LeadsOn(s, [TrapReturn(1), Unlock(1), Trap(1)], s1, [Exchange(1), CheckZombie(1), Yield(1)], s2);
    LeadsOn(s, [TrapReturn(1), Unlock(1), Trap(1)] + [Exchange(1), CheckZombie(1), Yield(1)], s2, [Pick(1, 0)] + [Unlock(1)], TwiceRun(false, User));
  }

  lemma AsleepIsSound()
    ensures Inv(Asleep())
  {
    assert Holds(Asleep(), 1) && Asleep().cpus[1].cur == Some(1);
  }

  lemma FromSending() returns (actions: seq<Action>)
    ensures Leads(Two(true, Cpu(User, Some(0)), Cpu(InKernel, Some(1)), EnvState(Running, true)), actions, TwiceRun(false, User))
  {
    var s := Two(true, Cpu(User, Some(0)), Cpu(InKernel, Some(1)), EnvState(Running, true));
    var s1 := Two(true, Cpu(User, Some(0)), Cpu(Returning, Some(1)), EnvState(Runnable, false));
    assert s1 == Apply(s, IpcSend(1, 0));
    AfterSending(s1);
    var last := [TrapReturn(1), Unlock(1), Trap(1)] + [Exchange(1), CheckZombie(1), Yield(1)] + ([Pick(1, 0)] + [Unlock(1)]);
    Then(s, IpcSend(1, 0), s1, last, TwiceRun(false, User));
    actions := [IpcSend(1, 0)] + last;
  }

  /** A status call that wakes a receiving environment, which a check for
      NOT_RUNNABLE alone would let through, ends with the environment running on
      both CPUs after the next send to it. */
  lemma WakingAReceiverRunsItTwice()
    ensures Inv(Asleep()) && Enabled(Asleep(), SetStatus(1, 0, Runnable)) && Asleep().envs[0].status == NotRunnable
    ensures exists actions :: Leads(Apply(Asleep(), SetStatus(1, 0, Runnable)), actions, TwiceRun(false, User))
  {
    AsleepIsSound();
    var s1 := Two(true, Cpu(Halted, None), Cpu(Returning, Some(1)), EnvState(Runnable, true));
    assert Apply(Asleep(), SetStatus(1, 0, Runnable)) == s1;
    AfterWaking(s1);
    var last := FromSending();
    var first := [TrapReturn(1), Unlock(1), Trap(1)] + [Timer(0), Exchange(0), Pick(0, 0)] + [Unlock(0), Exchange(1), CheckZombie(1)];
    LeadsOn(s1, first, Two(true, Cpu(User, Some(0)), Cpu(InKernel, Some(1)), EnvState(Running, true)), last, TwiceRun(false, User));
  }

  // ---------------------------------------------------------------------
  // The same after a receive with an invalid address

  // Both environments run; environment 0 has made a system call, and environment 1
  // waits for the lock.
  function InCall(): State { Two(true, Cpu(InKernel, Some(0)), Cpu(SpinUser, Some(1)), EnvState(Running, false)) }

  function Start(): State {
    State(false, [Cpu(SpinIdle, None), Cpu(SpinIdle, None)], [EnvState(Runnable, false), EnvState(Runnable, false)])
  }

  // CPU 0 runs environment 0, and CPU 1 has nothing yet.
  function OneRuns(locked: bool, mode0: Mode, mode1: Mode): State {
    State(locked, [Cpu(mode0, Some(0)), Cpu(mode1, None)], [EnvState(Running, false), EnvState(Runnable, false)])
  }

  lemma FirstRuns()
    ensures Leads(Start(), [Exchange(0), Pick(0, 0), Unlock(0)], OneRuns(false, User, SpinIdle))
  {
    Three(Start(), Exchange(0),
          State(true, [Cpu(InSched, None), Cpu(SpinIdle, None)], Start().envs), Pick(0, 0),
          OneRuns(true, Leaving, SpinIdle), Unlock(0),
          OneRuns(false, User, SpinIdle));
  }

  lemma SecondRuns()
    ensures Leads(OneRuns(false, User, SpinIdle), [Exchange(1), Pick(1, 1), Unlock(1)],
                  Two(false, Cpu(User, Some(0)), Cpu(User, Some(1)), EnvState(Running, false)))
  {
    Three(OneRuns(false, User, SpinIdle), Exchange(1),
          OneRuns(true, User, InSched), Pick(1, 1),
          Two(true, Cpu(User, Some(0)), Cpu(Leaving, Some(1)), EnvState(Running, false)), Unlock(1),
          Two(false, Cpu(User, Some(0)), Cpu(User, Some(1)), EnvState(Running, false)));
  }

  lemma BothTrap()
    ensures Leads(Two(false, Cpu(User, Some(0)), Cpu(User, Some(1)), EnvState(Running, false)),
                  [Trap(1), Trap(0), Exchange(0)] + [CheckZombie(0)], InCall())
  {
    var s := Two(false, Cpu(User, Some(0)), Cpu(User, Some(1)), EnvState(Running, false));
    var s3 := Two(true, Cpu(Entered, Some(0)), Cpu(SpinUser, Some(1)), EnvState(Running, false));
    Three(s, Trap(1),
          Two(false, Cpu(User, Some(0)), Cpu(SpinUser, Some(1)), EnvState(Running, false)), Trap(0),
          Two(false, Cpu(SpinUser, Some(0)), Cpu(SpinUser, Some(1)), EnvState(Running, false)), Exchange(0),
          s3);
    assert Leads(InCall(), [], InCall()) && [CheckZombie(0)][1..] == [];
    assert Leads(s3, [CheckZombie(0)], InCall());
    LeadsOn(s, [Trap(1), Trap(0), Exchange(0)], s3, [CheckZombie(0)], InCall());
  }

  lemma InCallIsReached() returns (actions: seq<Action>)
    ensures Init(Start()) && Leads(Start(), actions, InCall())
  {
    FirstRuns();
    SecondRuns();
    BothTrap();
    var s2 := Two(false, Cpu(User, Some(0)), Cpu(User, Some(1)), EnvState(Running, false));
    var a, b, c := [Exchange(0), Pick(0, 0), Unlock(0)], [Exchange(1), Pick(1, 1), Unlock(1)], [Trap(1), Trap(0), Exchange(0)] + [CheckZombie(0)];
    LeadsOn(Start(), a, OneRuns(false, User, SpinIdle), b, s2);
    LeadsOn(Start(), a + b, s2, c, InCall());
    actions := a + b + c;
  }

  // The receiver goes on running, and the lock goes to environment 1.
  lemma AfterRefusal(s: State)
    requires s == Two(true, Cpu(Returning, Some(0)), Cpu(SpinUser, Some(1)), EnvState(Running, true))
    ensures Leads(s, [TrapReturn(0)] + [Unlock(0), Exchange(1), CheckZombie(1)],
                  Two(true, Cpu(User, Some(0)), Cpu(InKernel, Some(1)), EnvState(Running, true)))
  {
    HandOver(EnvState(Running, true));
    var s1 := Two(true, Cpu(Leaving, Some(0)), Cpu(SpinUser, Some(1)), EnvState(Running, true));
    assert s1 == Apply(s, TrapReturn(0));
    Then(s, TrapReturn(0), s1, [Unlock(0), Exchange(1), CheckZombie(1)],
         Two(true, Cpu(User, Some(0)), Cpu(InKernel, Some(1)), EnvState(Running, true)));
  }

  /** sys_ipc_recv with an invalid address, in a state that is reached from the start:
      the environment is left running and receiving, and after the next send to it, it
      runs on both CPUs. */
  lemma InvalidReceiveRunsItTwice()
    ensures exists actions :: Leads(Start(), actions, InCall())
    ensures Init(Start()) && Enabled(InCall(), IpcRecv(0, false)) && !Inv(Apply(InCall(), IpcRecv(0, false)))
    ensures exists actions :: Leads(Apply(InCall(), IpcRecv(0, false)), actions, TwiceRun(false, User))
  {
    var reach := InCallIsReached();
    var s1 := Two(true, Cpu(Returning, Some(0)), Cpu(SpinUser, Some(1)), EnvState(Running, true));
    assert Apply(InCall(), IpcRecv(0, false)) == s1;
    assert !EnvOk(s1, 0);
    AfterRefusal(s1);
    var last := FromSending();
    LeadsOn(s1, [TrapReturn(0)] + [Unlock(0), Exchange(1), CheckZombie(1)],
            Two(true, Cpu(User, Some(0)), Cpu(InKernel, Some(1)), EnvState(Running, true)), last, TwiceRun(false, User));
  }

  // Environment 0 receives, CPU 0 halts, and the lock goes to environment 1.
  lemma FallsAsleep()
    ensures Leads(InCall(), [IpcRecv(0, true), Halt(0), Unlock(0)],
                  Two(false, Cpu(Halted, None), Cpu(SpinUser, Some(1)), EnvState(NotRunnable, true)))
  {
    Three(InCall(), IpcRecv(0, true),
          Two(true, Cpu(InSched, Some(0)), Cpu(SpinUser, Some(1)), EnvState(NotRunnable, true)), Halt(0),
          Two(true, Cpu(Halting, None), Cpu(SpinUser, Some(1)), EnvState(NotRunnable, true)), Unlock(0),
          Two(false, Cpu(Halted, None), Cpu(SpinUser, Some(1)), EnvState(NotRunnable, true)));
  }

  lemma OtherEnters()
    ensures Leads(Two(false, Cpu(Halted, None), Cpu(SpinUser, Some(1)), EnvState(NotRunnable, true)),
                  [Exchange(1)] + [CheckZombie(1)], Asleep())
  {
    var s3 := Two(false, Cpu(Halted, None), Cpu(SpinUser, Some(1)), EnvState(NotRunnable, true));
    var s4 := Two(true, Cpu(Halted, None), Cpu(Entered, Some(1)), EnvState(NotRunnable, true));
    assert s4 == Apply(s3, Exchange(1)) && Asleep() == Apply(s4, CheckZombie(1));
    assert Leads(Asleep(), [], Asleep()) && [CheckZombie(1)][1..] == [];
    Then(s3, Exchange(1), s4, [CheckZombie(1)], Asleep());
  }

  /** The state in which a receiver is asleep is reached from the start, too. */
  lemma AsleepIsReached()
    ensures Init(Start()) && exists actions :: Leads(Start(), actions, Asleep())
  {
    FallsAsleep();
    OtherEnters();
    var reach := InCallIsReached();
    var s3 := Two(false, Cpu(Halted, None), Cpu(SpinUser, Some(1)), EnvState(NotRunnable, true));
    LeadsOn(Start(), reach, InCall(), [IpcRecv(0, true), Halt(0), Unlock(0)], s3);
    LeadsOn(Start(), reach + [IpcRecv(0, true), Halt(0), Unlock(0)], s3, [Exchange(1)] + [CheckZombie(1)], Asleep());
  }
}
