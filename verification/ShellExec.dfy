/** Running a tree of pipes (exec_cmd in shell/exec.c): what every process has in
    its file descriptor table once it runs its program or waits. */
module ShellExec {
  import opened ShellParse

  // How a file is opened: for reading, for writing from its start, or emptied first.
  datatype Access = Reading | Writing | Rewriting

  // What a descriptor refers to: a standard stream that the shell passed on, an
  // end of the pipe with a number, or an opened file.
  datatype File = Std(n: nat) | ReadEnd(pipe: nat) | WriteEnd(pipe: nat) | Opened(name: string, access: Access)

  type Fds = map<nat, File>

  datatype Proc = Runs(e: Exec, fds: Fds) | Waits(fds: Fds)

  const STDIN := 0
  const STDOUT := 1
  const STDERR := 2

  predicate StandardOnly(fds: Fds) { fds.Keys == {STDIN, STDOUT, STDERR} }

  // How many pipes a command makes.
  function Pipes(c: Cmd): nat {
    match c
    case Pipe(l, r) => 1 + Pipes(l) + Pipes(r)
    case _ => 0
  }

  // A command's own redirections: input, output, then errors, which "&1" sends
  // where the output goes by then.
  function Redirected(fds: Fds, e: Exec): Fds
    requires StandardOnly(fds)
  {
    var f1 := if e.inFile != "" then fds[STDIN := Opened(e.inFile, Reading)] else fds;
    var f2 := if e.outFile != "" then f1[STDOUT := Opened(e.outFile, Rewriting)] else f1;
    if e.errFile == "&1" then f2[STDERR := f2[STDOUT]]
    else if e.errFile != "" then f2[STDERR := Opened(e.errFile, Writing)]
    else f2
  }

  function Started(e: Exec, fds: Fds): Proc
    requires StandardOnly(fds)
  {
    Runs(e, if e.redir then Redirected(fds, e) else fds)
  }

  /** The processes of a command, left to right: what runs, and what waits for a
      pipe; pipes are numbered from k. */
  function Processes(c: Cmd, fds: Fds, k: nat): (ps: seq<Proc>)
    requires StandardOnly(fds) && NoNulls(c)
  {
    match c
    case Simple(e) => [Started(e, fds)]
    case Back(e) => [Started(e, fds)]
    case Pipe(l, r) =>
      Processes(l, fds[STDOUT := WriteEnd(k)], k + 1)
      + Processes(r, fds[STDIN := ReadEnd(k)], k + 1 + Pipes(l))
      + [Waits(fds)]
  }

  // ---------------------------------------------------------------------
  // Pipelines

  // A single command, in the background or not: inside a pipe it runs all the same.
  type Command = c: Cmd | c.Simple? || c.Back? witness Simple(EmptyExec())

  // Commands connected by pipes, nested to the right.
  function Chain(es: seq<Command>): (c: Cmd)
    requires es != []
    ensures NoNulls(c) && Pipes(c) == |es| - 1
  {
    if |es| == 1 then es[0] else Pipe(es[0], Chain(es[1..]))
  }

  function Three(a: File, b: File, c: File): (fds: Fds)
    ensures StandardOnly(fds) && fds[STDIN] == a && fds[STDOUT] == b && fds[STDERR] == c
  {
    map[STDIN := a, STDOUT := b, STDERR := c]
  }

  // What command i of n reads and writes, before its own redirections, when the
  // first pipe has number k.
  function Input(a: File, i: nat, k: nat): File { if i == 0 then a else ReadEnd(k + i - 1) }

  function Output(b: File, i: nat, n: nat, k: nat): File { if i + 1 == n then b else WriteEnd(k + i) }

  lemma {:induction false} ChainStep(es: seq<Command>, a: File, b: File, c: File, k: nat)
    requires |es| > 1
    ensures Processes(Chain(es), Three(a, b, c), k)
            == [Started(es[0].e, Three(a, WriteEnd(k), c))] + Processes(Chain(es[1..]), Three(ReadEnd(k), b, c), k + 1) + [Waits(Three(a, b, c))]
  {
    assert Three(a, b, c)[STDOUT := WriteEnd(k)] == Three(a, WriteEnd(k), c);
    assert Three(a, b, c)[STDIN := ReadEnd(k)] == Three(ReadEnd(k), b, c);
  }

  lemma {:induction false} HowManyProcesses(es: seq<Command>, a: File, b: File, c: File, k: nat)
    requires es != []
    ensures |Processes(Chain(es), Three(a, b, c), k)| == 2 * |es| - 1
    decreases |es|
  {
    if |es| > 1 {
      ChainStep(es, a, b, c, k);
      HowManyProcesses(es[1..], ReadEnd(k), b, c, k + 1);
    }
  }

  /** Command i of a pipeline runs with exactly the descriptors 0, 1 and 2: its input
      comes from the command before it and its output goes to the one after. */
  lemma {:induction false} CommandIsConnected(es: seq<Command>, a: File, b: File, c: File, k: nat, i: nat)
    requires i < |es|
    ensures |Processes(Chain(es), Three(a, b, c), k)| == 2 * |es| - 1
    ensures Processes(Chain(es), Three(a, b, c), k)[i] == Started(es[i].e, Three(Input(a, i, k), Output(b, i, |es|, k), c))
    decreases |es|
  {
    HowManyProcesses(es, a, b, c, k);
    if |es| > 1 {
      ChainStep(es, a, b, c, k);
      if i > 0 {
        var rest := es[1..];
        CommandIsConnected(rest, ReadEnd(k), b, c, k + 1, i - 1);
        assert rest[i - 1] == es[i];
        assert Input(ReadEnd(k), i - 1, k + 1) == Input(a, i, k) && Output(b, i - 1, |rest|, k + 1) == Output(b, i, |es|, k);
      }
    }
  }

  /** The process that waits for pipe k + i has the descriptors of the command that
      stands for the rest of the line. */
  lemma {:induction false} WaiterIsConnected(es: seq<Command>, a: File, b: File, c: File, k: nat, i: nat)
    requires i + 1 < |es|
    ensures |Processes(Chain(es), Three(a, b, c), k)| == 2 * |es| - 1
    ensures Processes(Chain(es), Three(a, b, c), k)[2 * |es| - 2 - i] == Waits(Three(Input(a, i, k), b, c))
    decreases |es|
  {
    HowManyProcesses(es, a, b, c, k);
    ChainStep(es, a, b, c, k);
    HowManyProcesses(es[1..], ReadEnd(k), b, c, k + 1);
    if i > 0 {
      WaiterIsConnected(es[1..], ReadEnd(k), b, c, k + 1, i - 1);
    }
  }

  ghost predicate HoldsFile(fds: Fds, f: File) { exists fd :: fd in fds && fds[fd] == f }

  lemma RedirectionAddsNoPipes(fds: Fds, e: Exec, f: File)
    requires StandardOnly(fds) && (f.ReadEnd? || f.WriteEnd?)
    ensures StandardOnly(Redirected(fds, e)) && (HoldsFile(Redirected(fds, e), f) ==> HoldsFile(fds, f))
  {
    var r := Redirected(fds, e);
    if HoldsFile(r, f) {
      var fd :| fd in r && r[fd] == f;
      assert r[fd] == fds[fd] || r[fd] == fds[STDOUT];
    }
  }

  lemma StartedHolds(e: Exec, fds: Fds, f: File)
    requires StandardOnly(fds) && (f.ReadEnd? || f.WriteEnd?)
    ensures StandardOnly(Started(e, fds).fds) && (HoldsFile(Started(e, fds).fds, f) ==> HoldsFile(fds, f))
  {
    RedirectionAddsNoPipes(fds, e, f);
  }

  // The processes of a line of commands, on the descriptors of the shell.
  function Line(es: seq<Command>): seq<Proc>
    requires es != []
  {
    Processes(Chain(es), Three(Std(STDIN), Std(STDOUT), Std(STDERR)), 0)
  }

  /** Once all closes are done, the write end of a pipe is held by no process but
      the command that writes it, and the read end by none but the command that
      reads it and the process that waits for that command's own pipe. */
  lemma PipeEndsAreHeldOnce(es: seq<Command>, j: nat, i: nat)
    requires j + 1 < |es| && i < 2 * |es| - 1
    ensures |Line(es)| == 2 * |es| - 1 && StandardOnly(Line(es)[i].fds)
    ensures HoldsFile(Line(es)[i].fds, WriteEnd(j)) ==> i == j
    ensures HoldsFile(Line(es)[i].fds, ReadEnd(j)) ==> i == j + 1 || i == 2 * |es| - 3 - j
  {
    if i < |es| {
      CommandIsConnected(es, Std(STDIN), Std(STDOUT), Std(STDERR), 0, i);
      var fds := Three(Input(Std(STDIN), i, 0), Output(Std(STDOUT), i, |es|, 0), Std(STDERR));
      StartedHolds(es[i].e, fds, WriteEnd(j));
      StartedHolds(es[i].e, fds, ReadEnd(j));
    } else {
      WaiterIsConnected(es, Std(STDIN), Std(STDOUT), Std(STDERR), 0, 2 * |es| - 2 - i);
    }
  }

  // The commands that the segments of a line spell.
  function Execs(env: string -> string, segs: seq<string>): (es: seq<Command>)
    requires forall i {:trigger segs[i]} :: 0 <= i < |segs| ==> segs[i] != ""
    ensures |es| == |segs|
  {
    if segs == [] then [] else [Parsed(env, segs[0])] + Execs(env, segs[1..])
  }

  /** What parse_line makes of a line is a chain of its commands. */
  lemma {:induction false} NestedIsChain(env: string -> string, segs: seq<string>)
    requires segs != [] && forall i {:trigger segs[i]} :: 0 <= i < |segs| ==> segs[i] != ""
    ensures Nested(env, segs) == Chain(Execs(env, segs))
    decreases |segs|
  {
    assert segs[0] != "";
    if |segs| > 1 {
      assert forall i :: 0 <= i < |segs[1..]| ==> segs[1..][i] == segs[i + 1];
      NestedIsChain(env, segs[1..]);
    }
  }

  lemma {:induction false} CommandsAreNonempty(segs: seq<string>)
    ensures forall i {:trigger Commands(segs)[i]} :: 0 <= i < |Commands(segs)| ==> Commands(segs)[i] != ""
    decreases |segs|
  {
    if segs != [] && segs[0] != "" {
      CommandsAreNonempty(segs[1..]);
    }
  }

  /** A line without an empty segment before a nonempty one is parsed into the
      chain of the commands that its segments spell. */
  lemma LineIsChain(env: string -> string, s: string)
    requires NoGaps(Segments(s))
    ensures Commands(Segments(s)) != [] && (forall i {:trigger Commands(Segments(s))[i]} :: 0 <= i < |Commands(Segments(s))| ==> Commands(Segments(s))[i] != "")
    ensures ParsedLine(env, s) == Chain(Execs(env, Commands(Segments(s))))
  {
    ParsesToPiped(env, s);
    PipedIsNested(env, Segments(s));
    CommandsAreNonempty(Segments(s));
    NestedIsChain(env, Commands(Segments(s)));
  }

  // ---------------------------------------------------------------------
  // The code, on descriptor tables

  class Process {
    var fds: Fds

    constructor (fds: Fds)
      ensures this.fds == fds
    {
      this.fds := fds;
    }

    // open and pipe take the lowest free descriptor.
    method LowestFree() returns (fd: nat)
      ensures fd !in fds && forall j: nat :: j < fd ==> j in fds
    {
      fd := 0;
      ghost var taken: set<nat> := {};
      while fd in fds
        invariant forall j: nat :: j in taken <==> j < fd
        invariant taken <= fds.Keys
        decreases fds.Keys - taken
      {
        assert fd in fds.Keys - taken;
        taken := taken + {fd};
        fd := fd + 1;
      }
      assert forall j: nat :: j < fd ==> j in taken;
    }

    method Open(file: File) returns (fd: nat)
      modifies this
      ensures fd !in old(fds) && fds == old(fds)[fd := file]
    {
      fd := LowestFree();
      fds := fds[fd := file];
    }

    method Dup2(from: nat, to: nat)
      requires from in fds
      modifies this
      ensures fds == old(fds)[to := old(fds)[from]]
    {
      fds := fds[to := fds[from]];
    }

    method Close(fd: nat)
      modifies this
      ensures fds == old(fds) - {fd}
    {
      fds := fds - {fd};
    }

    method MakePipe(k: nat) returns (r: nat, w: nat)
      modifies this
      ensures r !in old(fds) && w !in old(fds) && r != w
      ensures fds == old(fds)[r := ReadEnd(k)][w := WriteEnd(k)]
    {
      r := Open(ReadEnd(k));
      w := Open(WriteEnd(k));
    }

    /** handle_redirection. */
    method HandleRedirection(name: string, access: Access, std: nat)
      requires StandardOnly(fds) && std in {STDIN, STDOUT, STDERR}
      modifies this
      ensures fds == if name != "" then old(fds)[std := Opened(name, access)] else old(fds)
    {
      if name != "" {
        var fd := Open(Opened(name, access));
        Dup2(fd, std);
        Close(fd);
      }
    }

    method Redirect(e: Exec)
      requires StandardOnly(fds)
      modifies this
      ensures fds == Redirected(old(fds), e)
    {
      if e.inFile != "" {
        HandleRedirection(e.inFile, Reading, STDIN);
      }
      if e.outFile != "" {
        HandleRedirection(e.outFile, Rewriting, STDOUT);
      }
      if e.errFile != "" {
        if e.errFile == "&1" {
          Dup2(STDOUT, STDERR);
        } else {
          HandleRedirection(e.errFile, Writing, STDERR);
        }
      }
    }

    // What the left child does with the pipe before its command.
    method BecomeWriter(r: nat, w: nat, k: nat, ghost before: Fds)
      requires StandardOnly(before) && r !in before && w !in before && r != w
      requires fds == before[r := ReadEnd(k)][w := WriteEnd(k)]
      modifies this
      ensures fds == before[STDOUT := WriteEnd(k)]
    {
      Close(r);
      Dup2(w, STDOUT);
      Close(w);
    }

    method BecomeReader(r: nat, w: nat, k: nat, ghost before: Fds)
      requires StandardOnly(before) && r !in before && w !in before && r != w
      requires fds == before[r := ReadEnd(k)][w := WriteEnd(k)]
      modifies this
      ensures fds == before[STDIN := ReadEnd(k)]
    {
      Close(w);
      Dup2(r, STDIN);
      Close(r);
    }

    // fork, and what the child of the left side does first.
    method ForkWriter(r: nat, w: nat, k: nat, ghost before: Fds) returns (child: Process)
      requires StandardOnly(before) && r !in before && w !in before && r != w
      requires fds == before[r := ReadEnd(k)][w := WriteEnd(k)]
      ensures fresh(child) && child.fds == before[STDOUT := WriteEnd(k)]
    {
      child := new Process(fds);
      child.BecomeWriter(r, w, k, before);
    }

    method ForkReader(r: nat, w: nat, k: nat, ghost before: Fds) returns (child: Process)
      requires StandardOnly(before) && r !in before && w !in before && r != w
      requires fds == before[r := ReadEnd(k)][w := WriteEnd(k)]
      ensures fresh(child) && child.fds == before[STDIN := ReadEnd(k)]
    {
      child := new Process(fds);
      child.BecomeReader(r, w, k, before);
    }

    // The EXEC and REDIR cases of exec_cmd; the BACK case goes on to them.
    method Start(e: Exec) returns (procs: seq<Proc>)
      requires StandardOnly(fds)
      modifies this
      ensures procs == [Started(e, old(fds))]
    {
      if e.redir {
        Redirect(e);
      }
      procs := [Runs(e, fds)];
    }

    /** exec_cmd, with the processes that it ends up as. */
    method ExecCmd(c: Cmd, k: nat) returns (procs: seq<Proc>)
      requires StandardOnly(fds) && NoNulls(c)
      modifies this
      ensures procs == Processes(c, old(fds), k)
      decreases c
    {
      match c
      case Simple(e) => procs := Start(e);
      case Back(e) => procs := Start(e);
      case Pipe(l, r) =>
        ghost var before := fds;
        var rd, wr := MakePipe(k);
        var left := ForkWriter(rd, wr, k, before);
        var leftProcs := left.ExecCmd(l, k + 1);
        var right := ForkReader(rd, wr, k, before);
        var rightProcs := right.ExecCmd(r, k + 1 + Pipes(l));
        Close(rd);
        Close(wr);
        assert fds == before;
        procs := leftProcs + rightProcs + [Waits(fds)];
    }
  }
}
