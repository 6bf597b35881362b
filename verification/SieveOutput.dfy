/** What the sieve writes (fork/primes.c). */
module SieveOutput {
  // Every process has a buffer of its own, and fork copies it with what is in it.

  import opened SieveStreams
  import opened Sieve

  // The network, what each stage has printed and not yet written, and what has
  // been written.
  datatype Buffered = Buffered(net: Net, pending: seq<seq<int>>, shown: seq<int>)

  // A step of the network, or stage k writes out its buffer.
  datatype Step = Do(a: Action) | Flush(k: nat)

  predicate CanDo(s: Buffered, n: int, cap: nat, st: Step) {
    && |s.pending| == |s.net.stages|
    && match st {
         case Do(a) => Enabled(s.net, n, cap, a)
         case Flush(k) => k < |s.pending| && s.net.stages[k].pc != Exited
       }
  }

  // The stage that exits with this action, if one does: it writes out its buffer.
  predicate Exits(s: Net, a: Action, k: nat) {
    a == WaitChild(k) || (a == Read(k) && At(s, k, ReadFirst) && s.stages[k].buf == [])
  }

  function Flushed(s: Buffered, net: Net, k: nat): Buffered
    requires k < |s.pending|
  {
    Buffered(net, s.pending[k := []], s.shown + s.pending[k])
  }

  function After(s: Buffered, n: int, cap: nat, st: Step): (t: Buffered)
    requires CanDo(s, n, cap, st)
    ensures |t.pending| == |t.net.stages|
  {
    match st
    case Flush(k) => Flushed(s, s.net, k)
    case Do(Print(k)) => Buffered(Apply(s.net, n, cap, Print(k)), s.pending[k := s.pending[k] + [s.net.stages[k].read[0]]], s.shown)
    case Do(Fork(k)) => Buffered(Apply(s.net, n, cap, Fork(k)), s.pending + [s.pending[k]], s.shown)
    case Do(WaitChild(k)) => Flushed(s, Apply(s.net, n, cap, WaitChild(k)), k)
    case Do(Read(k)) =>
      if Exits(s.net, Read(k), k) then Flushed(s, Apply(s.net, n, cap, Read(k)), k)
      else Buffered(Apply(s.net, n, cap, Read(k)), s.pending, s.shown)
    case Do(a) => Buffered(Apply(s.net, n, cap, a), s.pending, s.shown)
  }

  function Begin(): Buffered { Buffered(Init(), [[]], []) }

  ghost predicate IsOutRun(run: seq<Buffered>, steps: seq<Step>, n: int, cap: nat) {
    && |run| == |steps| + 1 && run[0] == Begin()
    && forall i {:trigger steps[i]} :: 0 <= i < |steps| ==> CanDo(run[i], n, cap, steps[i]) && run[i + 1] == After(run[i], n, cap, steps[i])
  }

  // ---------------------------------------------------------------------
  // Nothing is lost: what is written and what is pending is what was printed and
  // what forks have copied

  // How often m is in s.
  function Times(s: seq<int>, m: int): nat { multiset(s)[m] }

  lemma TimesOfSum(s: seq<int>, t: seq<int>, m: int)
    ensures Times(s + t, m) == Times(s, m) + Times(t, m)
  {
  }

  function Pending(pending: seq<seq<int>>, m: int): nat {
    if pending == [] then 0 else Pending(pending[..|pending| - 1], m) + Times(pending[|pending| - 1], m)
  }

  lemma {:induction false} PendingUpdate(pending: seq<seq<int>>, k: nat, x: seq<int>, m: int)
    requires k < |pending|
    ensures Pending(pending[k := x], m) == Pending(pending, m) - Times(pending[k], m) + Times(x, m)
    decreases |pending|
  {
    var n := |pending| - 1;
    if k < n {
      PendingUpdate(pending[..n], k, x, m);
      assert pending[k := x][..n] == pending[..n][k := x];
    } else {
      assert pending[k := x][..n] == pending[..n];
    }
  }

  lemma PendingGrows(pending: seq<seq<int>>, x: seq<int>, m: int)
    ensures Pending(pending + [x], m) == Pending(pending, m) + Times(x, m)
  {
    assert (pending + [x])[..|pending|] == pending;
  }

  lemma {:induction false} NothingPending(pending: seq<seq<int>>, m: int)
    requires forall k: nat {:trigger pending[k]} :: k < |pending| ==> pending[k] == []
    ensures Pending(pending, m) == 0
  {
    if pending != [] {
      NothingPending(pending[..|pending| - 1], m);
    }
  }

  // What the fork of this step, if it is one, copies.
  function Copy(s: Buffered, st: Step): seq<int> {
    if st.Do? && st.a.Fork? && st.a.k < |s.pending| then s.pending[st.a.k] else []
  }

  // How many copies of m the forks of the first i steps make.
  function Copied(run: seq<Buffered>, steps: seq<Step>, i: nat, m: int): nat
    requires |run| == |steps| + 1 && i <= |steps|
  {
    if i == 0 then 0 else Copied(run, steps, i - 1, m) + Times(Copy(run[i - 1], steps[i - 1]), m)
  }

  lemma FlushConserves(s: Buffered, net: Net, k: nat, m: int)
    requires k < |s.pending| && net.out == s.net.out
    ensures var t := Flushed(s, net, k);
            Times(t.shown, m) + Pending(t.pending, m) == Times(s.shown, m) + Pending(s.pending, m)
  {
    PendingUpdate(s.pending, k, [], m);
    TimesOfSum(s.shown, s.pending[k], m);
  }

  lemma StepConserves(s: Buffered, n: int, cap: nat, st: Step, m: int)
    requires CanDo(s, n, cap, st)
    ensures var t := After(s, n, cap, st);
            Times(t.shown, m) + Pending(t.pending, m) - Times(t.net.out, m)
            == Times(s.shown, m) + Pending(s.pending, m) - Times(s.net.out, m) + Times(Copy(s, st), m)
  {
    match st
    case Flush(k) => FlushConserves(s, s.net, k, m);
    case Do(Print(k)) =>
      var p := [s.net.stages[k].read[0]];
      PendingUpdate(s.pending, k, s.pending[k] + p, m);
      TimesOfSum(s.pending[k], p, m);
      TimesOfSum(s.net.out, p, m);
    case Do(Fork(k)) => PendingGrows(s.pending, s.pending[k], m);
    case Do(WaitChild(k)) => FlushConserves(s, Apply(s.net, n, cap, WaitChild(k)), k, m);
    case Do(Read(k)) =>
      if Exits(s.net, Read(k), k) {
        FlushConserves(s, Apply(s.net, n, cap, Read(k)), k, m);
      }
    case Do(a) =>
  }

  lemma {:induction false} RunConserves(run: seq<Buffered>, steps: seq<Step>, n: int, cap: nat, i: nat, m: int)
    requires IsOutRun(run, steps, n, cap) && i <= |steps|
    ensures Times(run[i].shown, m) + Pending(run[i].pending, m) == Times(run[i].net.out, m) + Copied(run, steps, i, m)
  {
    if i > 0 {
      RunConserves(run, steps, n, cap, i - 1, m);
      var st := steps[i - 1];
      StepConserves(run[i - 1], n, cap, st, m);
    } else {
      NothingPending(run[0].pending, m);
    }
  }

  // ---------------------------------------------------------------------
  // The network below the buffers

  // The states and actions of the network that a run goes through.
  ghost predicate Sound(s: Buffered, n: int, cap: nat) {
    && Inv(s.net, n, cap) && |s.pending| == |s.net.stages|
    && forall k: nat {:trigger s.pending[k]} :: k < |s.pending| && s.net.stages[k].pc == Exited ==> s.pending[k] == []
  }

  lemma StepKeepsSound(s: Buffered, n: int, cap: nat, st: Step)
    requires Sound(s, n, cap) && CanDo(s, n, cap, st)
    ensures Sound(After(s, n, cap, st), n, cap)
  {
    if st.Do? {
      StepKeepsInv(s.net, n, cap, st.a);
      ExitedAreFlushed(s, n, cap, st.a);
    }
  }

  lemma ExitedAreFlushed(s: Buffered, n: int, cap: nat, a: Action)
    requires Sound(s, n, cap) && CanDo(s, n, cap, Do(a))
    ensures var t := After(s, n, cap, Do(a));
            forall k: nat {:trigger t.pending[k]} :: k < |t.pending| && t.net.stages[k].pc == Exited ==> t.pending[k] == []
  {
  }

  lemma {:induction false} RunKeepsSound(run: seq<Buffered>, steps: seq<Step>, n: int, cap: nat, i: nat)
    requires IsOutRun(run, steps, n, cap) && i <= |steps|
    ensures Sound(run[i], n, cap)
  {
    if i > 0 {
      RunKeepsSound(run, steps, n, cap, i - 1);
      var st := steps[i - 1];
      StepKeepsSound(run[i - 1], n, cap, st);
    } else {
      RunKeepsInv([Init()], [], n, cap, 0);
    }
  }

  // A network that cannot go on has finished, and all buffers are empty.
  lemma AtTheEnd(run: seq<Buffered>, steps: seq<Step>, n: int, cap: nat)
    requires IsOutRun(run, steps, n, cap) && cap > 0 && !CanMove(run[|steps|].net, n, cap)
    ensures Sound(run[|steps|], n, cap) && Finished(run[|steps|].net) && ArePrimesUpTo(run[|steps|].net.out, n)
    ensures forall k: nat {:trigger run[|steps|].pending[k]} :: k < |run[|steps|].pending| ==> run[|steps|].pending[k] == []
  {
    var last := run[|steps|];
    RunKeepsSound(run, steps, n, cap, |steps|);
    if !Finished(last.net) {
      NoDeadlock(last.net, n, cap);
    }
    FinishedPrintsPrimes(last.net, n, cap);
    forall k: nat | k < |last.pending| ensures last.pending[k] == [] {
      assert last.net.stages[k].pc == Exited;
    }
  }

  // ---------------------------------------------------------------------
  // When the output is in order

  // Only the last stage has anything pending, and all else is written, in order.
  ghost predicate InOrder(s: Buffered) {
    && s.pending != []
    && (forall k: nat {:trigger s.pending[k]} :: k + 1 < |s.pending| ==> s.pending[k] == [])
    && s.shown + s.pending[|s.pending| - 1] == s.net.out
  }

  // A stage that has not forked is the last one.
  lemma LastStage(s: Net, n: int, cap: nat, k: nat)
    requires Inv(s, n, cap) && k < |s.stages| && !HasForked(s.stages[k])
    ensures k == |s.stages| - 1
  {
    if k + 1 < |s.stages| {
      ParentHasForked(s, n, cap, k);
    }
  }

  lemma PrintKeepsOrder(s: Buffered, n: int, cap: nat, k: nat)
    requires Sound(s, n, cap) && InOrder(s) && CanDo(s, n, cap, Do(Print(k)))
    ensures InOrder(After(s, n, cap, Do(Print(k))))
  {
    LastStage(s.net, n, cap, k);
    var p := [s.net.stages[k].read[0]];
    assert (s.shown + s.pending[k]) + p == s.shown + (s.pending[k] + p);
  }

  lemma ForkKeepsOrder(s: Buffered, n: int, cap: nat, k: nat)
    requires Sound(s, n, cap) && InOrder(s) && CanDo(s, n, cap, Do(Fork(k))) && s.pending[k] == []
    ensures InOrder(After(s, n, cap, Do(Fork(k))))
  {
    LastStage(s.net, n, cap, k);
    var t := After(s, n, cap, Do(Fork(k)));
    assert t.pending == s.pending + [[]];
  }

  lemma FlushKeepsOrder(s: Buffered, net: Net, k: nat)
    requires InOrder(s) && k < |s.pending| && net.out == s.net.out
    ensures InOrder(Flushed(s, net, k))
  {
  }

  lemma StepKeepsOrder(s: Buffered, n: int, cap: nat, st: Step)
    requires Sound(s, n, cap) && InOrder(s) && CanDo(s, n, cap, st) && Copy(s, st) == []
    ensures InOrder(After(s, n, cap, st))
  {
    match st
    case Flush(k) => FlushKeepsOrder(s, s.net, k);
    case Do(Print(k)) => PrintKeepsOrder(s, n, cap, k);
    case Do(Fork(k)) => ForkKeepsOrder(s, n, cap, k);
    case Do(WaitChild(k)) => FlushKeepsOrder(s, Apply(s.net, n, cap, WaitChild(k)), k);
    case Do(Read(k)) =>
      if Exits(s.net, Read(k), k) {
        FlushKeepsOrder(s, Apply(s.net, n, cap, Read(k)), k);
      }
    case Do(a) =>
  }

  lemma {:induction false} RunKeepsOrder(run: seq<Buffered>, steps: seq<Step>, n: int, cap: nat, i: nat)
    requires IsOutRun(run, steps, n, cap) && i <= |steps|
    requires forall j {:trigger steps[j]} :: 0 <= j < i ==> Copy(run[j], steps[j]) == []
    ensures InOrder(run[i])
  {
    if i > 0 {
      RunKeepsOrder(run, steps, n, cap, i - 1);
      RunKeepsSound(run, steps, n, cap, i - 1);
      var st := steps[i - 1];
      StepKeepsOrder(run[i - 1], n, cap, st);
    }
  }

  // A fork that copies something counts.
  lemma {:induction false} CopiesCount(run: seq<Buffered>, steps: seq<Step>, i: nat, j: nat, m: int)
    requires |run| == |steps| + 1 && j < i <= |steps| && m in Copy(run[j], steps[j])
    ensures Copied(run, steps, i, m) > 0
  {
    if j < i - 1 {
      CopiesCount(run, steps, i - 1, j, m);
    }
  }

  lemma {:induction false} OnceEach(s: seq<int>, m: int)
    requires forall i, j {:trigger s[i], s[j]} :: 0 <= i < j < |s| ==> s[i] < s[j]
    ensures Times(s, m) <= 1
  {
    if s != [] {
      var init := s[..|s| - 1];
      OnceEach(init, m);
      assert s == init + [s[|s| - 1]];
      if m == s[|s| - 1] {
        assert m !in init;
      }
    }
  }

  // With a number too often, the output is not what it should be.
  lemma NotThePrimes(s: seq<int>, primes: seq<int>, n: int, m: int)
    requires ArePrimesUpTo(primes, n) && Times(s, m) > Times(primes, m)
    ensures !ArePrimesUpTo(s, n)
  {
    assert Times(s, m) > 0 <==> m in s;
    assert Times(primes, m) > 0 <==> m in primes;
    if ArePrimesUpTo(s, n) {
      OnceEach(s, m);
    }
  }

  // Nothing is in the buffer of a stage that forks.
  ghost predicate ForksEmpty(run: seq<Buffered>, steps: seq<Step>)
    requires |run| == |steps| + 1
  {
    forall j {:trigger steps[j]} :: 0 <= j < |steps| ==> Copy(run[j], steps[j]) == []
  }

  /** A run that cannot go on has written every number that was printed, and once
      more for each time that a fork copied it. The output is the primes up to n,
      increasing and once each, if and only if no stage forks while something is in
      its buffer. */
  lemma {:induction false} OutputIsThePrimes(run: seq<Buffered>, steps: seq<Step>, n: int, cap: nat)
    requires IsOutRun(run, steps, n, cap) && cap > 0 && !CanMove(run[|steps|].net, n, cap)
    ensures ArePrimesUpTo(run[|steps|].net.out, n)
    ensures forall m :: Times(run[|steps|].shown, m) == Times(run[|steps|].net.out, m) + Copied(run, steps, |steps|, m)
    ensures ArePrimesUpTo(run[|steps|].shown, n) <==> ForksEmpty(run, steps)
  {
    var last := run[|steps|];
    AtTheEnd(run, steps, n, cap);
    forall m ensures Times(last.shown, m) == Times(last.net.out, m) + Copied(run, steps, |steps|, m) {
      RunConserves(run, steps, n, cap, |steps|, m);
      NothingPending(last.pending, m);
    }
    if ForksEmpty(run, steps) {
      RunKeepsOrder(run, steps, n, cap, |steps|);
      assert last.pending[|last.pending| - 1] == [] && last.shown == last.net.out;
    } else {
      var j :| 0 <= j < |steps| && Copy(run[j], steps[j]) != [];
      var m := Copy(run[j], steps[j])[0];
      CopiesCount(run, steps, |steps|, j, m);
      NotThePrimes(last.shown, last.net.out, n, m);
    }
  }

  // ---------------------------------------------------------------------
  // Line buffering: a process writes out what it prints at once

  ghost predicate LineBuffered(steps: seq<Step>) {
    forall j, k {:trigger steps[j], Print(k)} :: 0 <= j < |steps| && steps[j] == Do(Print(k)) ==> j + 1 < |steps| && steps[j + 1] == Flush(k)
  }

  // Only between a print and its flush is something pending, in that stage.
  ghost predicate Quiet(s: Buffered, printer: int) {
    forall k: nat {:trigger s.pending[k]} :: k < |s.pending| && k != printer ==> s.pending[k] == []
  }

  function Printer(steps: seq<Step>, i: nat): int
    requires i <= |steps|
  {
    if i > 0 && steps[i - 1].Do? && steps[i - 1].a.Print? then steps[i - 1].a.k else -1
  }

  lemma {:induction false} LineBufferedIsQuiet(run: seq<Buffered>, steps: seq<Step>, n: int, cap: nat, i: nat)
    requires IsOutRun(run, steps, n, cap) && LineBuffered(steps) && i <= |steps|
    ensures Quiet(run[i], Printer(steps, i))
  {
    if i > 0 {
      LineBufferedIsQuiet(run, steps, n, cap, i - 1);
      var st := steps[i - 1];
      if i > 1 && Printer(steps, i - 1) >= 0 {
        var before := steps[i - 2];
        assert before == Do(Print(before.a.k)) && st == Flush(before.a.k);
      }
    }
  }

  /** With line buffering every interleaving prints, in the end, exactly the primes up
      to n, increasing and once each. */
  lemma {:induction false} LineBufferedPrintsPrimes(run: seq<Buffered>, steps: seq<Step>, n: int, cap: nat)
    requires IsOutRun(run, steps, n, cap) && cap > 0 && !CanMove(run[|steps|].net, n, cap) && LineBuffered(steps)
    ensures ArePrimesUpTo(run[|steps|].shown, n)
  {
    forall j | 0 <= j < |steps| ensures Copy(run[j], steps[j]) == [] {
      LineBufferedIsQuiet(run, steps, n, cap, j);
      if j > 0 && Printer(steps, j) >= 0 {
        var before := steps[j - 1];
        assert before == Do(Print(before.a.k)) && steps[j] == Flush(before.a.k);
      }
    }
    OutputIsThePrimes(run, steps, n, cap);
  }

  // ---------------------------------------------------------------------
  // Full buffering, when no buffer gets full: nothing is written before the exit

  ghost predicate Unflushed(steps: seq<Step>) { forall j {:trigger steps[j]} :: 0 <= j < |steps| ==> steps[j].Do? }

  // How many numbers the stages up to and including k have printed.
  function PrintedUpTo(net: Net, k: nat): nat
    requires k < |net.stages|
  {
    var pc := net.stages[k].pc;
    if pc == Start || pc == ReadFirst || pc == Show then k else k + 1
  }

  ghost predicate HoldsAll(s: Buffered, k: nat)
    requires k < |s.pending| == |s.net.stages|
  {
    s.net.stages[k].pc != Exited ==>
      PrintedUpTo(s.net, k) <= |s.net.out| && s.pending[k] == s.net.out[..PrintedUpTo(s.net, k)]
  }

  // A live stage has all in its buffer that it and those before it have printed.
  ghost predicate Full(s: Buffered) {
    |s.pending| == |s.net.stages| && forall k: nat {:trigger HoldsAll(s, k)} :: k < |s.pending| ==> HoldsAll(s, k)
  }

  lemma PrintKeepsFull(s: Buffered, n: int, cap: nat, k: nat)
    requires Sound(s, n, cap) && Full(s) && CanDo(s, n, cap, Do(Print(k)))
    ensures Full(After(s, n, cap, Do(Print(k))))
  {
    var t := After(s, n, cap, Do(Print(k)));
    LastStage(s.net, n, cap, k);
    forall j: nat | j < |t.pending| ensures HoldsAll(t, j) {
      assert HoldsAll(s, j);
    }
  }

  lemma ForkKeepsFull(s: Buffered, n: int, cap: nat, k: nat)
    requires Sound(s, n, cap) && Full(s) && CanDo(s, n, cap, Do(Fork(k)))
    ensures Full(After(s, n, cap, Do(Fork(k)))) && k + 1 == |s.net.stages| <= |s.net.out| && Copy(s, Do(Fork(k))) == s.net.out[..k + 1]
  {
    var t := After(s, n, cap, Do(Fork(k)));
    LastStage(s.net, n, cap, k);
    assert HoldsAll(s, k);
    forall j: nat | j < |t.pending| ensures HoldsAll(t, j) {
      assert j < |s.pending| ==> HoldsAll(s, j);
    }
  }

  // A step that neither prints nor forks, for stage j.
  lemma QuietStage(s: Buffered, n: int, cap: nat, a: Action, j: nat)
    requires |s.pending| == |s.net.stages| && j < |s.pending| && Local(s.net.stages[j], cap)
    requires CanDo(s, n, cap, Do(a)) && !a.Print? && !a.Fork?
    ensures var t := After(s, n, cap, Do(a));
            && t.net.out == s.net.out && |t.net.stages| == |s.net.stages|
            && (t.net.stages[j].pc != Exited ==>
                  s.net.stages[j].pc != Exited && t.pending[j] == s.pending[j] && PrintedUpTo(t.net, j) == PrintedUpTo(s.net, j))
  {
  }

  lemma QuietStepKeepsFull(s: Buffered, n: int, cap: nat, a: Action)
    requires Sound(s, n, cap) && Full(s) && CanDo(s, n, cap, Do(a)) && !a.Print? && !a.Fork?
    ensures Full(After(s, n, cap, Do(a)))
    ensures var net := After(s, n, cap, Do(a)).net; net.out == s.net.out && |net.stages| == |s.net.stages|
  {
    var t := After(s, n, cap, Do(a));
    assert Local(s.net.stages[0], cap);
    QuietStage(s, n, cap, a, 0);
    forall j: nat | j < |t.pending| ensures HoldsAll(t, j) {
      assert HoldsAll(s, j) && Local(s.net.stages[j], cap);
      QuietStage(s, n, cap, a, j);
    }
  }

  // How often m is in the first 1, 2, ... up to c numbers of s, in all.
  function Ramp(s: seq<int>, c: nat, m: int): nat
    requires c <= |s|
  {
    if c == 0 then 0 else Ramp(s, c - 1, m) + Times(s[..c], m)
  }

  lemma {:induction false} RampOfPrefix(s: seq<int>, t: seq<int>, c: nat, m: int)
    requires s <= t && c <= |s|
    ensures Ramp(s, c, m) == Ramp(t, c, m)
    decreases c
  {
    if c > 0 {
      RampOfPrefix(s, t, c - 1, m);
      assert s[..c] == t[..c];
    }
  }

  lemma {:induction false} RampOfIncreasing(s: seq<int>, c: nat, j: nat)
    requires c <= |s| && j < |s|
    requires forall i, k {:trigger s[i], s[k]} :: 0 <= i < k < |s| ==> s[i] < s[k]
    ensures Ramp(s, c, s[j]) == if c <= j then 0 else c - j
    decreases c
  {
    if c > 0 {
      RampOfIncreasing(s, c - 1, j);
      OnceEach(s[..c], s[j]);
      if j < c {
        assert s[..c][j] == s[j];
      } else {
        assert s[j] !in s[..c];
      }
    }
  }

  lemma StagesAndOutput(s: Net, n: int, cap: nat)
    requires Inv(s, n, cap)
    ensures 0 < |s.stages| <= |s.out| + 1 && (Finished(s) ==> |s.stages| == |s.out| + 1)
  {
    if Finished(s) {
      assert s.stages[|s.stages| - 1].pc == Exited;
    }
  }

  lemma PrintCopies(s: Buffered, n: int, cap: nat, k: nat, m: int)
    requires Sound(s, n, cap) && Full(s) && CanDo(s, n, cap, Do(Print(k))) && 0 < |s.net.stages| <= |s.net.out| + 1
    ensures var t := After(s, n, cap, Do(Print(k)));
            && Full(t) && 0 < |t.net.stages| <= |t.net.out| + 1
            && Ramp(t.net.out, |t.net.stages| - 1, m) == Ramp(s.net.out, |s.net.stages| - 1, m) + Times(Copy(s, Do(Print(k))), m)
  {
    PrintKeepsFull(s, n, cap, k);
    RampOfPrefix(s.net.out, s.net.out + [s.net.stages[k].read[0]], |s.net.stages| - 1, m);
  }

  lemma ForkCopies(s: Buffered, n: int, cap: nat, k: nat, m: int)
    requires Sound(s, n, cap) && Full(s) && CanDo(s, n, cap, Do(Fork(k))) && 0 < |s.net.stages| <= |s.net.out| + 1
    ensures var t := After(s, n, cap, Do(Fork(k)));
            && Full(t) && 0 < |t.net.stages| <= |t.net.out| + 1
            && Ramp(t.net.out, |t.net.stages| - 1, m) == Ramp(s.net.out, |s.net.stages| - 1, m) + Times(Copy(s, Do(Fork(k))), m)
  {
    ForkKeepsFull(s, n, cap, k);
  }

  lemma StepCopies(s: Buffered, n: int, cap: nat, a: Action, m: int)
    requires Sound(s, n, cap) && Full(s) && CanDo(s, n, cap, Do(a)) && 0 < |s.net.stages| <= |s.net.out| + 1
    ensures var t := After(s, n, cap, Do(a));
            && Full(t) && 0 < |t.net.stages| <= |t.net.out| + 1
            && Ramp(t.net.out, |t.net.stages| - 1, m) == Ramp(s.net.out, |s.net.stages| - 1, m) + Times(Copy(s, Do(a)), m)
  {
    if a.Print? {
      PrintCopies(s, n, cap, a.k, m);
    } else if a.Fork? {
      ForkCopies(s, n, cap, a.k, m);
    } else {
      QuietStepKeepsFull(s, n, cap, a);
    }
  }

  lemma BeginIsFull()
    ensures Full(Begin())
  {
    assert forall k: nat :: k < 1 ==> HoldsAll(Begin(), k);
  }

  // After i steps: every live stage holds all, and each fork has copied all.
  ghost predicate Tracked(run: seq<Buffered>, steps: seq<Step>, i: nat, m: int)
    requires |run| == |steps| + 1 && i <= |steps|
  {
    && Full(run[i]) && 0 < |run[i].net.stages| <= |run[i].net.out| + 1
    && Copied(run, steps, i, m) == Ramp(run[i].net.out, |run[i].net.stages| - 1, m)
  }

  lemma {:induction false} TrackedStep(run: seq<Buffered>, steps: seq<Step>, n: int, cap: nat, i: nat, m: int)
    requires IsOutRun(run, steps, n, cap) && Unflushed(steps) && i < |steps| && Tracked(run, steps, i, m)
    ensures Tracked(run, steps, i + 1, m)
  {
    var s, st := run[i], steps[i];
    RunKeepsSound(run, steps, n, cap, i);
    StepCopies(s, n, cap, st.a, m);
  }

  lemma {:induction false} CopiesWhenFull(run: seq<Buffered>, steps: seq<Step>, n: int, cap: nat, i: nat, m: int)
    requires IsOutRun(run, steps, n, cap) && Unflushed(steps) && i <= |steps|
    ensures Tracked(run, steps, i, m)
  {
    if i > 0 {
      CopiesWhenFull(run, steps, n, cap, i - 1, m);
      TrackedStep(run, steps, n, cap, i - 1, m);
    } else {
      BeginIsFull();
    }
  }

  // The last state of a run, with m the number at j.
  lemma RepeatsAtTheEnd(s: Net, shown: seq<int>, n: int, cap: nat, j: nat)
    requires Inv(s, n, cap) && Finished(s) && ArePrimesUpTo(s.out, n) && j < |s.out| && 0 < |s.stages| <= |s.out| + 1
    requires Times(shown, s.out[j]) == Times(s.out, s.out[j]) + Ramp(s.out, |s.stages| - 1, s.out[j])
    ensures Times(shown, s.out[j]) == |s.out| - j + 1
  {
    StagesAndOutput(s, n, cap);
    RampOfIncreasing(s.out, |s.out|, j);
    OnceEach(s.out, s.out[j]);
    assert s.out[j] in s.out;
  }

  /** With full buffering each prime is written once more for every later fork: of p
      primes, the one with index j comes out p - j + 1 times. */
  lemma {:induction false} FullyBufferedRepeats(run: seq<Buffered>, steps: seq<Step>, n: int, cap: nat, j: nat)
    requires IsOutRun(run, steps, n, cap) && cap > 0 && !CanMove(run[|steps|].net, n, cap) && Unflushed(steps)
    requires j < |run[|steps|].net.out|
    ensures ArePrimesUpTo(run[|steps|].net.out, n)
    ensures Times(run[|steps|].shown, run[|steps|].net.out[j]) == |run[|steps|].net.out| - j + 1
  {
    var last := run[|steps|];
    OutputIsThePrimes(run, steps, n, cap);
    CopiesWhenFull(run, steps, n, cap, |steps|, last.net.out[j]);
    AtTheEnd(run, steps, n, cap);
    RepeatsAtTheEnd(last.net, last.shown, n, cap, j);
  }

  // ---------------------------------------------------------------------
  // A fully buffered run for n == 2

  function One(f: Feeder, st: Stage, out: seq<int>, pending: seq<int>): Buffered { Buffered(Net(f, [st], out), [pending], []) }

  function Two(f: Feeder, a: Stage, b: Stage, pending: seq<seq<int>>, shown: seq<int>): Buffered {
    Buffered(Net(f, [a, b], [2]), pending, shown)
  }

  // The feeder writes 2, and the first stage reads and prints it.
  function FirstStates(): (t: seq<Buffered>)
    ensures |t| == 6
  {
    [Begin(),
     One(Feeding(3), Stage(Start, [], [2], true), [], []),
     One(Waiting, Stage(Start, [], [2], false), [], []),
     One(Waiting, Stage(ReadFirst, [], [2], false), [], []),
     One(Waiting, Stage(Show, [2], [], false), [], []),
     One(Waiting, Stage(Spawn, [2], [], false), [2], [2])]
  }

  function FirstSteps(): (s: seq<Step>)
    ensures |s| == 5 && Unflushed(s)
  {
    [Do(Feed), Do(CloseFeed), Do(CloseIn(0)), Do(Read(0)), Do(Print(0))]
  }

  // It forks with 2 in its buffer, and both stages end.
  function LastStates(): (t: seq<Buffered>)
    ensures |t| == 7
  {
    [Two(Waiting, Stage(ReadNext, [2], [], false), Stage(Start, [], [], true), [[2], [2]], []),
     Two(Waiting, Stage(CloseOut, [2], [], false), Stage(Start, [], [], true), [[2], [2]], []),
     Two(Waiting, Stage(Wait, [2], [], false), Stage(Start, [], [], false), [[2], [2]], []),
     Two(Waiting, Stage(Wait, [2], [], false), Stage(ReadFirst, [], [], false), [[2], [2]], []),
     Two(Waiting, Stage(Wait, [2], [], false), Stage(Exited, [], [], false), [[2], []], [2]),
     Two(Waiting, Stage(Exited, [2], [], false), Stage(Exited, [], [], false), [[], []], [2, 2]),
     Two(Over, Stage(Exited, [2], [], false), Stage(Exited, [], [], false), [[], []], [2, 2])]
  }

  function LastSteps(): (s: seq<Step>)
    ensures |s| == 6 && Unflushed(s)
  {
    [Do(Read(0)), Do(Close(0)), Do(CloseIn(1)), Do(Read(1)), Do(WaitChild(0)), Do(WaitFeed)]
  }

  ghost predicate Leads(s: Buffered, n: int, cap: nat, st: Step, t: Buffered) { CanDo(s, n, cap, st) && t == After(s, n, cap, st) }

  lemma {:induction false} LeadsAreRun(run: seq<Buffered>, steps: seq<Step>, n: int, cap: nat)
    requires |run| == |steps| + 1 && run[0] == Begin()
    requires forall i {:trigger steps[i]} :: 0 <= i < |steps| ==> Leads(run[i], n, cap, steps[i], run[i + 1])
    ensures IsOutRun(run, steps, n, cap)
  {
  }

  // One step, stage by stage and buffer by buffer.
  lemma LeadsTo(s: Buffered, st: Step, t: Buffered)
    requires CanDo(s, 2, 1, st) && After(s, 2, 1, st).net.feeder == t.net.feeder
    requires After(s, 2, 1, st).net.out == t.net.out && After(s, 2, 1, st).shown == t.shown
    requires |After(s, 2, 1, st).net.stages| == |t.net.stages| == |t.pending|
    requires forall k :: 0 <= k < |t.pending| ==> After(s, 2, 1, st).net.stages[k] == t.net.stages[k]
    requires forall k :: 0 <= k < |t.pending| ==> After(s, 2, 1, st).pending[k] == t.pending[k]
    ensures Leads(s, 2, 1, st, t)
  {
  }

  lemma FirstLeads(i: nat)
    requires i < 5
    ensures Leads(FirstStates()[i], 2, 1, FirstSteps()[i], FirstStates()[i + 1])
  {
    assert [] + [2] == [2];
    LeadsTo(FirstStates()[i], FirstSteps()[i], FirstStates()[i + 1]);
  }

  lemma ForkLeads()
    ensures Leads(FirstStates()[5], 2, 1, Do(Fork(0)), LastStates()[0])
  {
    LeadsTo(FirstStates()[5], Do(Fork(0)), LastStates()[0]);
  }

  lemma MiddleLeads(i: nat)
    requires i < 3
    ensures Leads(LastStates()[i], 2, 1, LastSteps()[i], LastStates()[i + 1])
  {
    assert [] + [2] == [2];
    LeadsTo(LastStates()[i], LastSteps()[i], LastStates()[i + 1]);
  }

  lemma LastLeads(i: nat)
    requires 3 <= i < 6
    ensures Leads(LastStates()[i], 2, 1, LastSteps()[i], LastStates()[i + 1])
  {
    assert [] + [2] == [2] && [2] + [2] == [2, 2];
    LeadsTo(LastStates()[i], LastSteps()[i], LastStates()[i + 1]);
  }

  /** For n == 2, with nothing written before the exits, 2 comes out twice: once from
      each of the two stages. */
  lemma TwoComesOutTwice() returns (run: seq<Buffered>, steps: seq<Step>)
    ensures IsOutRun(run, steps, 2, 1) && Unflushed(steps) && !CanMove(run[|steps|].net, 2, 1)
    ensures run[|steps|].shown == [2, 2]
  {
    run, steps := FirstStates() + LastStates(), FirstSteps() + [Do(Fork(0))] + LastSteps();
    forall i | 0 <= i < |steps| ensures Leads(run[i], 2, 1, steps[i], run[i + 1]) {
      if i < 5 {
        FirstLeads(i);
      } else if i == 5 {
        ForkLeads();
      } else if i < 9 {
        MiddleLeads(i - 6);
      } else {
        LastLeads(i - 6);
      }
    }
    LeadsAreRun(run, steps, 2, 1);
    assert run[12] == LastStates()[6];
  }
}
