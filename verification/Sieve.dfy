/** The process network of the prime sieve (fork/primes.c): a feeder and a chain
    of stages, each reading a pipe that the one before it writes. */
module Sieve {
  import opened SieveStreams

  // How far a stage is in cadena_pipes.
  datatype Pc = Start | ReadFirst | Show | Spawn | ReadNext | Pass(m: int) | CloseOut | Wait | Exited

  /** A stage with its input pipe: all it has read, what the pipe holds, and
      whether the parent has the write end open. Until Start is over, the stage
      has its own copy of the write end open. */
  datatype Stage = Stage(pc: Pc, read: seq<int>, buf: seq<int>, parentHolds: bool)

  datatype Feeder = Feeding(i: int) | Waiting | Over

  // `out` is what printf has been called with, in order (SieveOutput has what is
  // written, and when).
  datatype Net = Net(feeder: Feeder, stages: seq<Stage>, out: seq<int>)

  datatype Action =
    | Feed | CloseFeed | WaitFeed
    | CloseIn(k: nat) | Read(k: nat) | Print(k: nat) | Fork(k: nat) | Write(k: nat) | Close(k: nat) | WaitChild(k: nat)

  predicate At(s: Net, k: nat, pc: Pc) { k < |s.stages| && s.stages[k].pc == pc }

  predicate AtEnd(st: Stage) { st.buf == [] && !st.parentHolds && st.pc != Start }

  /** Which actions can happen: a read needs a number or the end of the stream, a
      write needs room in the pipe, a wait needs the child to have exited. */
  predicate Enabled(s: Net, n: int, cap: nat, a: Action) {
    match a
    case Feed => s.feeder.Feeding? && s.feeder.i <= n && s.stages != [] && |s.stages[0].buf| < cap
    case CloseFeed => s.feeder.Feeding? && s.feeder.i > n && s.stages != []
    case WaitFeed => s.feeder == Waiting && At(s, 0, Exited)
    case CloseIn(k) => At(s, k, Start)
    case Read(k) => (At(s, k, ReadFirst) || At(s, k, ReadNext)) && (s.stages[k].buf != [] || AtEnd(s.stages[k]))
    case Print(k) => At(s, k, Show) && s.stages[k].read != []
    case Fork(k) => At(s, k, Spawn)
    case Write(k) => k + 1 < |s.stages| && s.stages[k].pc.Pass? && |s.stages[k + 1].buf| < cap
    case Close(k) => At(s, k, CloseOut) && k + 1 < |s.stages|
    case WaitChild(k) => At(s, k, Wait) && At(s, k + 1, Exited)
  }

  // A stage after one read.
  function AfterRead(st: Stage): Stage {
    if st.buf == [] then Stage(if st.pc == ReadFirst then Exited else CloseOut, st.read, [], st.parentHolds)
    else Stage(AfterGot(st), st.read + [st.buf[0]], st.buf[1..], st.parentHolds)
  }

  function AfterGot(st: Stage): Pc
    requires st.buf != []
  {
    if st.pc == ReadFirst || st.read == [] then Show
    else if Divides(st.read[0], st.buf[0]) then ReadNext
    else Pass(st.buf[0])
  }

  function Moved(st: Stage, pc: Pc): Stage { Stage(pc, st.read, st.buf, st.parentHolds) }

  function Given(st: Stage, m: int): Stage { Stage(st.pc, st.read, st.buf + [m], st.parentHolds) }

  function Released(st: Stage): Stage { Stage(st.pc, st.read, st.buf, false) }

  function Apply(s: Net, n: int, cap: nat, a: Action): Net
    requires Enabled(s, n, cap, a)
  {
    match a
    case Feed => Net(Feeding(s.feeder.i + 1), s.stages[0 := Given(s.stages[0], s.feeder.i)], s.out)
    case CloseFeed => Net(Waiting, s.stages[0 := Released(s.stages[0])], s.out)
    case WaitFeed => Net(Over, s.stages, s.out)
    case CloseIn(k) => Net(s.feeder, s.stages[k := Moved(s.stages[k], ReadFirst)], s.out)
    case Read(k) => Net(s.feeder, s.stages[k := AfterRead(s.stages[k])], s.out)
    case Print(k) => Net(s.feeder, s.stages[k := Moved(s.stages[k], Spawn)], s.out + [s.stages[k].read[0]])
    case Fork(k) => Net(s.feeder, s.stages[k := Moved(s.stages[k], ReadNext)] + [Stage(Start, [], [], true)], s.out)
    case Write(k) =>
      Net(s.feeder, s.stages[k := Moved(s.stages[k], ReadNext)][k + 1 := Given(s.stages[k + 1], s.stages[k].pc.m)], s.out)
    case Close(k) => Net(s.feeder, s.stages[k := Moved(s.stages[k], Wait)][k + 1 := Released(s.stages[k + 1])], s.out)
    case WaitChild(k) => Net(s.feeder, s.stages[k := Moved(s.stages[k], Exited)], s.out)
  }

  function Init(): Net { Net(Feeding(2), [Stage(Start, [], [], true)], []) }

  predicate Finished(s: Net) { s.feeder == Over && forall k :: 0 <= k < |s.stages| ==> s.stages[k].pc == Exited }

  // ---------------------------------------------------------------------
  // The invariant

  // A stage on its own.
  predicate Local(st: Stage, cap: nat) {
    && |st.buf| <= cap
    && match st.pc {
         case Start | ReadFirst => st.read == []
         case Show | Spawn => |st.read| == 1
         case ReadNext => st.read != []
         case Pass(m) => |st.read| >= 2 && st.read[|st.read| - 1] == m && !Divides(st.read[0], m)
         case CloseOut | Wait => st.read != [] && AtEnd(st)
         case Exited => AtEnd(st)
       }
  }

  predicate HasForked(st: Stage) {
    st.pc == ReadNext || st.pc.Pass? || st.pc == CloseOut || st.pc == Wait || (st.pc == Exited && st.read != [])
  }

  // What a stage has written to its child.
  function Sent(st: Stage): seq<int>
    requires st.read != []
  {
    Filter(st.read[0], st.read[1..if st.pc.Pass? && |st.read| > 1 then |st.read| - 1 else |st.read|])
  }

  // All that has ever been written to a stage's pipe.
  function Received(st: Stage): seq<int> { st.read + st.buf }

  // A stage and its child.
  predicate Link(st: Stage, child: Stage) {
    && HasForked(st) && st.read != [] && Received(child) == Sent(st)
    && (child.parentHolds <==> st.pc == ReadNext || st.pc.Pass? || st.pc == CloseOut)
    && (st.pc == Exited ==> child.pc == Exited)
  }

  predicate FeedLink(f: Feeder, n: int, st: Stage) {
    && (f.Feeding? ==> 2 <= f.i && (f.i <= n + 1 || f.i == 2) && Received(st) == From2(f.i))
    && (!f.Feeding? ==> Received(st) == From2(n + 1))
    && (st.parentHolds <==> f.Feeding?)
    && (f.Over? ==> st.pc == Exited)
  }

  // How many stages have printed.
  function Printed(s: Net): int { |s.stages| - if s.stages != [] && s.stages[|s.stages| - 1].pc == Spawn then 0 else 1 }

  predicate OutAt(s: Net, k: nat)
    requires k < |s.out|
  {
    k < |s.stages| && s.stages[k].read != [] && s.out[k] == s.stages[k].read[0]
  }

  ghost predicate Inv(s: Net, n: int, cap: nat) {
    && s.stages != []
    && (forall k: nat {:trigger s.stages[k]} :: k < |s.stages| ==> Local(s.stages[k], cap))
    && (forall k: nat {:trigger LinkAt(s, k)} :: k + 1 < |s.stages| ==> LinkAt(s, k))
    && !HasForked(s.stages[|s.stages| - 1])
    && FeedLink(s.feeder, n, s.stages[0])
    && |s.out| == Printed(s)
    && (forall k: nat {:trigger OutAt(s, k)} :: k < |s.out| ==> OutAt(s, k))
  }

  predicate LinkAt(s: Net, k: nat)
    requires k + 1 < |s.stages|
  {
    Link(s.stages[k], s.stages[k + 1])
  }

  // ---------------------------------------------------------------------
  // Every step keeps the invariant

  // How a stage may change without its parent noticing.
  predicate SameInput(st: Stage, st': Stage) {
    && st.pc != Exited && Received(st') == Received(st) && st'.parentHolds == st.parentHolds
    && (st.read != [] ==> st'.read != [] && st'.read[0] == st.read[0])
  }

  lemma ParentLink(s: Net, n: int, cap: nat, k: nat, st': Stage)
    requires Inv(s, n, cap) && k < |s.stages| && SameInput(s.stages[k], st')
    ensures k == 0 ==> FeedLink(s.feeder, n, st')
    ensures k > 0 ==> Link(s.stages[k - 1], st')
  {
    if k > 0 { assert LinkAt(s, k - 1); }
  }

  // How stage k may move on when only its child can see it.
  predicate MovesOn(s: Net, s': Net, cap: nat, k: nat, st': Stage) {
    && k < |s.stages| && s' == Net(s.feeder, s.stages[k := st'], s.out)
    && SameInput(s.stages[k], st') && Local(st', cap)
    && (k + 1 < |s.stages| ==> Link(st', s.stages[k + 1]))
    && (k + 1 == |s.stages| ==> !HasForked(st') && (st'.pc == Spawn <==> s.stages[k].pc == Spawn))
  }

  lemma OneStageLink(s: Net, s': Net, n: int, cap: nat, k: nat, st': Stage, j: nat)
    requires Inv(s, n, cap) && MovesOn(s, s', cap, k, st') && j + 1 < |s'.stages|
    ensures LinkAt(s', j)
  {
    assert LinkAt(s, j);
    if j + 1 == k {
      ParentLink(s, n, cap, k, st');
    }
  }

  lemma OneStage(s: Net, s': Net, n: int, cap: nat, k: nat, st': Stage)
    requires Inv(s, n, cap) && MovesOn(s, s', cap, k, st')
    ensures Inv(s', n, cap)
  {
    ParentLink(s, n, cap, k, st');
    forall j: nat | j + 1 < |s'.stages| ensures LinkAt(s', j) {
      OneStageLink(s, s', n, cap, k, st', j);
    }
    forall j: nat | j < |s'.out| ensures OutAt(s', j) {
      assert OutAt(s, j);
    }
  }

  // After a read the stage owes its child what the filter lets through.
  lemma ReadKeepsSent(st: Stage)
    requires st.pc == ReadNext && st.read != [] && st.buf != []
    ensures Sent(AfterRead(st)) == Sent(st)
  {
    var st' := AfterRead(st);
    assert st'.read[1..|st.read|] == st.read[1..|st.read|];
    assert st'.read[1..|st'.read|][..|st.read| - 1] == st.read[1..|st.read|];
  }

  lemma ReadIsLocal(st: Stage, cap: nat)
    requires Local(st, cap) && (st.pc == ReadFirst || st.pc == ReadNext) && (st.buf != [] || AtEnd(st))
    ensures Local(AfterRead(st), cap) && SameInput(st, AfterRead(st))
  {
    if st.buf != [] {
      assert (st.read + [st.buf[0]]) + st.buf[1..] == st.read + st.buf;
    }
  }

  lemma ReadKeepsInv(s: Net, n: int, cap: nat, k: nat)
    requires Inv(s, n, cap) && Enabled(s, n, cap, Read(k))
    ensures Inv(Apply(s, n, cap, Read(k)), n, cap)
  {
    var st := s.stages[k];
    ReadIsLocal(st, cap);
    if k + 1 < |s.stages| {
      assert LinkAt(s, k);
      if st.buf != [] { ReadKeepsSent(st); }
    }
    OneStage(s, Apply(s, n, cap, Read(k)), n, cap, k, AfterRead(st));
  }

  lemma ParentHasForked(s: Net, n: int, cap: nat, k: nat)
    requires Inv(s, n, cap) && k + 1 < |s.stages|
    ensures HasForked(s.stages[k])
  {
    assert LinkAt(s, k);
  }

  lemma PrintKeepsInv(s: Net, n: int, cap: nat, k: nat)
    requires Inv(s, n, cap) && Enabled(s, n, cap, Print(k))
    ensures Inv(Apply(s, n, cap, Print(k)), n, cap)
  {
    var s' := Apply(s, n, cap, Print(k));
    var st' := Moved(s.stages[k], Spawn);
    ParentLink(s, n, cap, k, st');
    if k + 1 < |s.stages| { ParentHasForked(s, n, cap, k); }
    forall j: nat | j + 1 < |s'.stages| ensures LinkAt(s', j) {
      assert LinkAt(s, j);
    }
    forall j: nat | j < |s'.out| ensures OutAt(s', j) {
      assert j < |s.out| ==> OutAt(s, j);
    }
  }

  lemma ForkKeepsInv(s: Net, n: int, cap: nat, k: nat)
    requires Inv(s, n, cap) && Enabled(s, n, cap, Fork(k))
    ensures Inv(Apply(s, n, cap, Fork(k)), n, cap)
  {
    var s' := Apply(s, n, cap, Fork(k));
    var st' := Moved(s.stages[k], ReadNext);
    if k + 1 < |s.stages| { ParentHasForked(s, n, cap, k); }
    ParentLink(s, n, cap, k, st');
    assert st'.read[1..|st'.read|] == [];
    assert Link(st', Stage(Start, [], [], true));
    forall j: nat | j + 1 < |s'.stages| ensures LinkAt(s', j) {
      if j + 1 < |s.stages| { assert LinkAt(s, j); }
    }
    forall j: nat | j < |s'.out| ensures OutAt(s', j) {
      assert OutAt(s, j);
    }
  }

  // A stage whose own pipe is written or closed is the same to its child.
  lemma SameToChild(st: Stage, st': Stage, child: Stage)
    requires Link(st, child) && st'.pc == st.pc && st'.read == st.read
    ensures Link(st', child)
  {
  }

  // Stage k does something to the pipe of its child.
  predicate ChangesPipe(s: Net, s': Net, cap: nat, k: nat, st': Stage, child': Stage) {
    && k + 1 < |s.stages|
    && s' == Net(s.feeder, s.stages[k := st'][k + 1 := child'], s.out)
    && SameInput(s.stages[k], st') && Local(st', cap) && Local(child', cap) && Link(st', child')
    && child'.pc == s.stages[k + 1].pc && child'.read == s.stages[k + 1].read && st'.pc != Spawn
  }

  lemma TwoStagesLink(s: Net, s': Net, n: int, cap: nat, k: nat, st': Stage, child': Stage, j: nat)
    requires Inv(s, n, cap) && ChangesPipe(s, s', cap, k, st', child') && j + 1 < |s'.stages|
    ensures LinkAt(s', j)
  {
    assert LinkAt(s, j);
    if j + 1 == k {
      ParentLink(s, n, cap, k, st');
    } else if j == k + 1 {
      SameToChild(s.stages[j], child', s.stages[j + 1]);
    }
  }

  lemma TwoStages(s: Net, s': Net, n: int, cap: nat, k: nat, st': Stage, child': Stage)
    requires Inv(s, n, cap) && ChangesPipe(s, s', cap, k, st', child')
    ensures Inv(s', n, cap)
  {
    ParentLink(s, n, cap, k, st');
    forall j: nat | j + 1 < |s'.stages| ensures LinkAt(s', j) {
      TwoStagesLink(s, s', n, cap, k, st', child', j);
    }
    forall j: nat | j < |s'.out| ensures OutAt(s', j) {
      assert OutAt(s, j);
    }
  }

  lemma PassedIsSent(st: Stage)
    requires st.pc.Pass? && |st.read| >= 2 && st.read[|st.read| - 1] == st.pc.m && !Divides(st.read[0], st.pc.m)
    ensures Sent(Moved(st, ReadNext)) == Sent(st) + [st.pc.m]
  {
    var sent := st.read[1..|st.read|];
    assert sent[..|sent| - 1] == st.read[1..|st.read| - 1];
  }

  lemma WriteLinks(st: Stage, child: Stage, cap: nat)
    requires Local(st, cap) && Local(child, cap) && Link(st, child) && st.pc.Pass? && |child.buf| < cap
    ensures Link(Moved(st, ReadNext), Given(child, st.pc.m)) && Local(Given(child, st.pc.m), cap)
  {
    PassedIsSent(st);
    assert Received(Given(child, st.pc.m)) == Received(child) + [st.pc.m];
  }

  lemma WriteKeepsInv(s: Net, n: int, cap: nat, k: nat)
    requires Inv(s, n, cap) && Enabled(s, n, cap, Write(k))
    ensures Inv(Apply(s, n, cap, Write(k)), n, cap)
  {
    var st, child := s.stages[k], s.stages[k + 1];
    assert LinkAt(s, k) && Local(st, cap) && Local(child, cap);
    WriteLinks(st, child, cap);
    TwoStages(s, Apply(s, n, cap, Write(k)), n, cap, k, Moved(st, ReadNext), Given(child, st.pc.m));
  }

  lemma CloseKeepsInv(s: Net, n: int, cap: nat, k: nat)
    requires Inv(s, n, cap) && Enabled(s, n, cap, Close(k))
    ensures Inv(Apply(s, n, cap, Close(k)), n, cap)
  {
    var st, child := s.stages[k], s.stages[k + 1];
    assert LinkAt(s, k);
    TwoStages(s, Apply(s, n, cap, Close(k)), n, cap, k, Moved(st, Wait), Released(child));
  }

  // The feeder does something to the first pipe, or exits.
  lemma FeederStep(s: Net, s': Net, n: int, cap: nat, f': Feeder, st': Stage)
    requires Inv(s, n, cap) && s' == Net(f', s.stages[0 := st'], s.out)
    requires Local(st', cap) && FeedLink(f', n, st') && st'.pc == s.stages[0].pc && st'.read == s.stages[0].read
    ensures Inv(s', n, cap)
  {
    forall j: nat | j + 1 < |s'.stages| ensures LinkAt(s', j) {
      assert LinkAt(s, j);
    }
    forall j: nat | j < |s'.out| ensures OutAt(s', j) {
      assert OutAt(s, j);
    }
  }

  lemma FeedKeepsInv(s: Net, n: int, cap: nat)
    requires Inv(s, n, cap) && Enabled(s, n, cap, Feed)
    ensures Inv(Apply(s, n, cap, Feed), n, cap)
  {
    var st, i := s.stages[0], s.feeder.i;
    assert Received(Given(st, i)) == Received(st) + [i] == From2(i + 1);
    FeederStep(s, Apply(s, n, cap, Feed), n, cap, Feeding(i + 1), Given(st, i));
  }

  lemma CloseFeedKeepsInv(s: Net, n: int, cap: nat)
    requires Inv(s, n, cap) && Enabled(s, n, cap, CloseFeed)
    ensures Inv(Apply(s, n, cap, CloseFeed), n, cap)
  {
    var st := s.stages[0];
    FeederStep(s, Apply(s, n, cap, CloseFeed), n, cap, Waiting, Released(st));
  }

  lemma WaitChildKeepsInv(s: Net, n: int, cap: nat, k: nat)
    requires Inv(s, n, cap) && Enabled(s, n, cap, WaitChild(k))
    ensures Inv(Apply(s, n, cap, WaitChild(k)), n, cap)
  {
    assert LinkAt(s, k);
    OneStage(s, Apply(s, n, cap, WaitChild(k)), n, cap, k, Moved(s.stages[k], Exited));
  }

  lemma StepKeepsInv(s: Net, n: int, cap: nat, a: Action)
    requires Inv(s, n, cap) && Enabled(s, n, cap, a)
    ensures Inv(Apply(s, n, cap, a), n, cap)
  {
    match a
    case Feed => FeedKeepsInv(s, n, cap);
    case CloseFeed => CloseFeedKeepsInv(s, n, cap);
    case WaitFeed => FeederStep(s, Apply(s, n, cap, a), n, cap, Over, s.stages[0]);
    case CloseIn(k) =>
      assert k + 1 < |s.stages| ==> LinkAt(s, k);
      OneStage(s, Apply(s, n, cap, a), n, cap, k, Moved(s.stages[k], ReadFirst));
    case Read(k) => ReadKeepsInv(s, n, cap, k);
    case Print(k) => PrintKeepsInv(s, n, cap, k);
    case Fork(k) => ForkKeepsInv(s, n, cap, k);
    case Write(k) => WriteKeepsInv(s, n, cap, k);
    case Close(k) => CloseKeepsInv(s, n, cap, k);
    case WaitChild(k) => WaitChildKeepsInv(s, n, cap, k);
  }

  // ---------------------------------------------------------------------
  // What the stages read and print

  lemma {:induction false} From2Prefix(i: int, m: int)
    requires i <= m
    ensures From2(i) <= From2(m)
    decreases m - i
  {
    if i < m {
      From2Prefix(i, m - 1);
    }
  }

  lemma SentPrefix(st: Stage, n: int, k: nat)
    requires st.read != [] && Received(st) <= Total(n, k)
    ensures Reached(n, k) && st.read[0] == First(n, k) && Sent(st) <= Total(n, k + 1)
  {
    var t := Total(n, k);
    assert st.read == t[..|st.read|];
    var m := if st.pc.Pass? && |st.read| > 1 then |st.read| - 1 else |st.read|;
    assert st.read[1..m] == t[1..][..m - 1];
    FilterPrefix(t[0], st.read[1..m], t[1..]);
  }

  lemma SentAll(st: Stage, n: int, k: nat)
    requires st.read != [] && st.buf == [] && !st.pc.Pass? && Received(st) == Total(n, k)
    ensures Sent(st) == Total(n, k + 1)
  {
    assert st.read == Total(n, k) && st.read[1..|st.read|] == Total(n, k)[1..];
  }

  // What holds of a stage's input holds of its child's.
  lemma LinkPasses(st: Stage, child: Stage, n: int, cap: nat, k: nat)
    requires Local(st, cap) && Link(st, child)
    requires Received(st) <= Total(n, k) && (!st.parentHolds ==> Received(st) == Total(n, k))
    ensures Received(child) <= Total(n, k + 1) && (!child.parentHolds ==> Received(child) == Total(n, k + 1))
    ensures Reached(n, k) && st.read[0] == First(n, k)
  {
    SentPrefix(st, n, k);
    if !child.parentHolds { SentAll(st, n, k); }
  }

  /** At any time a stage has got a prefix of its stream, and all of it once the
      write end of its pipe is closed. */
  lemma {:induction false} StageGetsItsStream(s: Net, n: int, cap: nat, k: nat)
    requires Inv(s, n, cap) && k < |s.stages|
    ensures Received(s.stages[k]) <= Total(n, k)
    ensures !s.stages[k].parentHolds ==> Received(s.stages[k]) == Total(n, k)
  {
    if k == 0 {
      if s.feeder.Feeding? && s.feeder.i <= n + 1 { From2Prefix(s.feeder.i, n + 1); }
    } else {
      StageGetsItsStream(s, n, cap, k - 1);
      var st := s.stages[k - 1];
      assert LinkAt(s, k - 1) && Local(st, cap);
      LinkPasses(st, s.stages[k], n, cap, k - 1);
    }
  }

  // What has been printed is what the first stages hold.
  lemma PrintedSoFar(s: Net, n: int, cap: nat)
    requires Inv(s, n, cap)
    ensures AllReached(n, |s.out|) && s.out == Firsts(n, |s.out|)
  {
    forall k: nat | k < |s.out| ensures Reached(n, k) && s.out[k] == First(n, k) {
      assert OutAt(s, k);
      StageGetsItsStream(s, n, cap, k);
      SentPrefix(s.stages[k], n, k);
    }
    forall k: nat | k < |s.out| ensures s.out[k] == Firsts(n, |s.out|)[k] {
      FirstsAt(n, |s.out|, k);
    }
  }

  lemma FinishedPrintsPrimes(s: Net, n: int, cap: nat)
    requires Inv(s, n, cap) && Finished(s)
    ensures ArePrimesUpTo(s.out, n)
  {
    var k := |s.stages| - 1;
    PrintedSoFar(s, n, cap);
    StageGetsItsStream(s, n, cap, k);
    assert s.stages[k].pc == Exited && AtEnd(s.stages[k]);
    HeldArePrimes(n, k);
  }

  // ---------------------------------------------------------------------
  // Whole runs

  predicate IsRun(run: seq<Net>, actions: seq<Action>, n: int, cap: nat) {
    && |run| == |actions| + 1 && run[0] == Init()
    && forall i {:trigger actions[i]} :: 0 <= i < |actions| ==> Enabled(run[i], n, cap, actions[i]) && run[i + 1] == Apply(run[i], n, cap, actions[i])
  }

  lemma {:induction false} RunKeepsInv(run: seq<Net>, actions: seq<Action>, n: int, cap: nat, i: nat)
    requires IsRun(run, actions, n, cap) && i <= |actions|
    ensures Inv(run[i], n, cap)
  {
    if i > 0 {
      RunKeepsInv(run, actions, n, cap, i - 1);
      var a := actions[i - 1];
      StepKeepsInv(run[i - 1], n, cap, a);
    } else if n >= 2 {
      From2Prefix(2, n + 1);
    }
  }

  // ---------------------------------------------------------------------
  // No deadlock

  // Somebody can make a step.
  ghost predicate CanMove(s: Net, n: int, cap: nat) { exists a :: Enabled(s, n, cap, a) }

  // A stage that waits for input waits for a process further up that can move.
  lemma {:induction false} UpstreamMoves(s: Net, n: int, cap: nat, k: nat)
    requires Inv(s, n, cap) && cap > 0 && k < |s.stages|
    requires s.stages[k].buf == [] && s.stages[k].parentHolds
    ensures CanMove(s, n, cap)
  {
    if k == 0 {
      if s.feeder.i <= n { assert Enabled(s, n, cap, Feed); } else { assert Enabled(s, n, cap, CloseFeed); }
    } else {
      assert LinkAt(s, k - 1);
      var st := s.stages[k - 1];
      if st.pc.Pass? {
        assert Enabled(s, n, cap, Write(k - 1));
      } else if st.pc == CloseOut {
        assert Enabled(s, n, cap, Close(k - 1));
      } else if st.buf == [] && st.parentHolds {
        UpstreamMoves(s, n, cap, k - 1);
      } else {
        assert Enabled(s, n, cap, Read(k - 1));
      }
    }
  }

  // The last stage that has not exited can move, or someone above it.
  lemma LastAliveMoves(s: Net, n: int, cap: nat, k: nat)
    requires Inv(s, n, cap) && cap > 0 && k < |s.stages| && s.stages[k].pc != Exited
    requires k + 1 < |s.stages| ==> s.stages[k + 1].pc == Exited
    ensures CanMove(s, n, cap)
  {
    var st := s.stages[k];
    if k + 1 < |s.stages| { assert LinkAt(s, k) && Local(s.stages[k + 1], cap); }
    match st.pc
    case Start => assert Enabled(s, n, cap, CloseIn(k));
    case Show => assert Enabled(s, n, cap, Print(k));
    case Spawn => assert Enabled(s, n, cap, Fork(k));
    case Wait => assert Enabled(s, n, cap, WaitChild(k));
    case ReadFirst =>
      if st.buf == [] && st.parentHolds { UpstreamMoves(s, n, cap, k); } else { assert Enabled(s, n, cap, Read(k)); }
    case _ =>
      assert false;
  }

  lemma {:induction false} SomeoneAlive(s: Net, n: int, cap: nat, k: nat)
    requires Inv(s, n, cap) && cap > 0 && k < |s.stages| && s.stages[k].pc != Exited
    ensures CanMove(s, n, cap)
    decreases |s.stages| - k
  {
    if k + 1 < |s.stages| && s.stages[k + 1].pc != Exited {
      SomeoneAlive(s, n, cap, k + 1);
    } else {
      LastAliveMoves(s, n, cap, k);
    }
  }

  /** Whatever the interleaving, a network that has not finished can go on, if
      pipes hold at least one number. */
  lemma NoDeadlock(s: Net, n: int, cap: nat)
    requires Inv(s, n, cap) && cap > 0 && !Finished(s)
    ensures CanMove(s, n, cap)
  {
    if k: nat :| k < |s.stages| && s.stages[k].pc != Exited {
      SomeoneAlive(s, n, cap, k);
    } else if s.feeder == Waiting {
      assert Enabled(s, n, cap, WaitFeed);
    }
  }

  // ---------------------------------------------------------------------
  // Every run ends

  // How many numbers the feeder writes.
  function Count(n: int): nat { if n < 2 then 0 else n - 1 }

  // The steps a stage has made, at least.
  function Progress(st: Stage): int {
    match st.pc
    case Start => 0
    case ReadFirst => 1
    case Show => 2
    case Spawn => 3
    case ReadNext => 2 * |st.read| + 2
    case Pass(_) => 2 * |st.read| + 1
    case CloseOut => 2 * |st.read| + 3
    case Wait => 2 * |st.read| + 4
    case Exited => 2 * |st.read| + 5
  }

  function StagesProgress(stages: seq<Stage>): int {
    if stages == [] then 0 else StagesProgress(stages[..|stages| - 1]) + Progress(stages[|stages| - 1])
  }

  function FeederProgress(f: Feeder, n: int): int {
    match f
    case Feeding(i) => i - 2
    case Waiting => Count(n) + 1
    case Over => Count(n) + 2
  }

  function NetProgress(s: Net, n: int): int { FeederProgress(s.feeder, n) + StagesProgress(s.stages) }

  lemma {:induction false} ProgressUpdate(stages: seq<Stage>, k: nat, st: Stage)
    requires k < |stages|
    ensures StagesProgress(stages[k := st]) == StagesProgress(stages) - Progress(stages[k]) + Progress(st)
    decreases |stages|
  {
    var m := |stages| - 1;
    if k < m {
      ProgressUpdate(stages[..m], k, st);
      assert stages[k := st][..m] == stages[..m][k := st];
    } else {
      assert stages[k := st][..m] == stages[..m];
    }
  }

  lemma StageAdvances(s: Net, n: int, cap: nat, a: Action)
    requires Inv(s, n, cap) && Enabled(s, n, cap, a) && (a.CloseIn? || a.Read? || a.Print? || a.WaitChild?)
    ensures NetProgress(Apply(s, n, cap, a), n) > NetProgress(s, n)
  {
    assert Local(s.stages[a.k], cap);
    ProgressUpdate(s.stages, a.k, Apply(s, n, cap, a).stages[a.k]);
  }

  // A stage and its child's pipe change; the child makes no step.
  lemma PairUpdate(stages: seq<Stage>, k: nat, st: Stage, child: Stage)
    requires k + 1 < |stages| && child.pc == stages[k + 1].pc && child.read == stages[k + 1].read
    ensures StagesProgress(stages[k := st][k + 1 := child]) == StagesProgress(stages) - Progress(stages[k]) + Progress(st)
  {
    ProgressUpdate(stages, k, st);
    ProgressUpdate(stages[k := st], k + 1, child);
  }

  lemma WriteAdvances(s: Net, n: int, cap: nat, k: nat)
    requires Enabled(s, n, cap, Write(k))
    ensures NetProgress(Apply(s, n, cap, Write(k)), n) > NetProgress(s, n)
  {
    PairUpdate(s.stages, k, Moved(s.stages[k], ReadNext), Given(s.stages[k + 1], s.stages[k].pc.m));
  }

  lemma CloseAdvances(s: Net, n: int, cap: nat, k: nat)
    requires Enabled(s, n, cap, Close(k))
    ensures NetProgress(Apply(s, n, cap, Close(k)), n) > NetProgress(s, n)
  {
    PairUpdate(s.stages, k, Moved(s.stages[k], Wait), Released(s.stages[k + 1]));
  }

  lemma ForkAdvances(s: Net, n: int, cap: nat, k: nat)
    requires Inv(s, n, cap) && Enabled(s, n, cap, Fork(k))
    ensures NetProgress(Apply(s, n, cap, Fork(k)), n) > NetProgress(s, n)
  {
    assert Local(s.stages[k], cap);
    var moved := s.stages[k := Moved(s.stages[k], ReadNext)];
    ProgressUpdate(s.stages, k, Moved(s.stages[k], ReadNext));
    assert (moved + [Stage(Start, [], [], true)])[..|moved|] == moved;
  }

  lemma FeederAdvances(s: Net, n: int, cap: nat, a: Action)
    requires Inv(s, n, cap) && Enabled(s, n, cap, a) && (a.Feed? || a.CloseFeed? || a.WaitFeed?)
    ensures NetProgress(Apply(s, n, cap, a), n) > NetProgress(s, n)
  {
    ProgressUpdate(s.stages, 0, Apply(s, n, cap, a).stages[0]);
    assert a.WaitFeed? ==> Apply(s, n, cap, a).stages == s.stages;
  }

  lemma StepAdvances(s: Net, n: int, cap: nat, a: Action)
    requires Inv(s, n, cap) && Enabled(s, n, cap, a)
    ensures NetProgress(Apply(s, n, cap, a), n) > NetProgress(s, n)
  {
    if a.Feed? || a.CloseFeed? || a.WaitFeed? {
      FeederAdvances(s, n, cap, a);
    } else if a.Fork? {
      ForkAdvances(s, n, cap, a.k);
    } else if a.Write? {
      WriteAdvances(s, n, cap, a.k);
    } else if a.Close? {
      CloseAdvances(s, n, cap, a.k);
    } else {
      StageAdvances(s, n, cap, a);
    }
  }

  // Each stage forwards a strictly shorter stream.
  lemma {:induction false} StreamsShrink(n: int, k: nat)
    requires AllReached(n, k)
    ensures |Total(n, k)| + k <= Count(n)
  {
    if k == 0 {
      From2IsStream(n + 1);
    } else {
      StreamsShrink(n, k - 1);
      assert Reached(n, k - 1);
      TotalShrinks(n, k - 1);
    }
  }

  lemma {:induction false} ProgressBound(stages: seq<Stage>, b: nat)
    requires forall k: nat {:trigger stages[k]} :: k < |stages| ==> |stages[k].read| <= b
    ensures StagesProgress(stages) <= |stages| * (2 * b + 5)
  {
    if stages != [] {
      var m := |stages| - 1;
      ProgressBound(stages[..m], b);
      assert |stages[m].read| <= b;
      assert (m + 1) * (2 * b + 5) == m * (2 * b + 5) + (2 * b + 5);
    }
  }

  // No run is longer.
  function Limit(n: int): nat { (Count(n) + 1) * (2 * Count(n) + 5) + Count(n) + 2 }

  lemma ChainIsShort(s: Net, n: int, cap: nat)
    requires Inv(s, n, cap)
    ensures |s.stages| <= Count(n) + 1
    ensures forall k: nat {:trigger s.stages[k]} :: k < |s.stages| ==> |s.stages[k].read| <= Count(n)
  {
    PrintedSoFar(s, n, cap);
    StreamsShrink(n, |s.out|);
    forall k: nat | k < |s.stages| ensures |s.stages[k].read| <= Count(n) {
      StageGetsItsStream(s, n, cap, k);
      StreamsShrink(n, k);
    }
  }

  lemma Product(a: nat, b: nat, c: nat)
    requires a <= b
    ensures a * c <= b * c
  {
  }

  lemma ProgressLimit(s: Net, n: int, cap: nat)
    requires Inv(s, n, cap)
    ensures NetProgress(s, n) <= Limit(n)
  {
    ChainIsShort(s, n, cap);
    ProgressBound(s.stages, Count(n));
    Product(|s.stages|, Count(n) + 1, 2 * Count(n) + 5);
  }

  lemma {:induction false} RunAdvances(run: seq<Net>, actions: seq<Action>, n: int, cap: nat, i: nat)
    requires IsRun(run, actions, n, cap) && i <= |actions|
    ensures NetProgress(run[i], n) >= i
  {
    if i > 0 {
      RunAdvances(run, actions, n, cap, i - 1);
      RunKeepsInv(run, actions, n, cap, i - 1);
      var a := actions[i - 1];
      StepAdvances(run[i - 1], n, cap, a);
    }
  }

  /** Over every interleaving, with pipes of any capacity: what printf has been called
      with is a sequence of primes as the chain holds them; no run is longer than the
      limit; and a run that cannot go on has printed exactly the primes up to n,
      increasing and once each. */
  lemma SievePrintsPrimes(run: seq<Net>, actions: seq<Action>, n: int, cap: nat)
    requires IsRun(run, actions, n, cap) && cap > 0
    ensures |actions| <= Limit(n)
    ensures forall i {:trigger run[i]} :: 0 <= i < |run| ==> AllReached(n, |run[i].out|) && run[i].out == Firsts(n, |run[i].out|)
    ensures !CanMove(run[|actions|], n, cap) ==> Finished(run[|actions|]) && ArePrimesUpTo(run[|actions|].out, n)
  {
    var last := run[|actions|];
    RunKeepsInv(run, actions, n, cap, |actions|);
    RunAdvances(run, actions, n, cap, |actions|);
    ProgressLimit(last, n, cap);
    forall i | 0 <= i < |run| ensures AllReached(n, |run[i].out|) && run[i].out == Firsts(n, |run[i].out|) {
      RunKeepsInv(run, actions, n, cap, i);
      PrintedSoFar(run[i], n, cap);
    }
    if !CanMove(last, n, cap) {
      if !Finished(last) { NoDeadlock(last, n, cap); }
      FinishedPrintsPrimes(last, n, cap);
    }
  }
}
