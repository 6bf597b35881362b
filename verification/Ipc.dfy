/** The IPC rendezvous (sched/kern/syscall.c). */
module Ipc {
  // sys_ipc_try_send and sys_ipc_recv, with ipc_recv of sched/lib/ipc.c, on top of the
  // multi-CPU life cycle.

  import opened Common
  import opened EnvStatus
  import opened Lifecycle

  datatype Message = Message(from: nat, value: int)

  // An environment's IPC fields, and whether its program is inside ipc_recv.
  datatype Box = Box(letter: Message, inRecv: bool)

  // seen: what each environment's ipc_recv calls returned, since it was created.
  datatype Post = Post(k: State, boxes: seq<Box>, seen: seq<seq<Message>>)

  datatype Event = Kernel(a: Action, value: int) | Read(c: nat)

  predicate Shaped(p: Post) { |p.boxes| == |p.seen| == |p.k.envs| }

  // The environment that makes the system call.
  function Caller(p: Post, c: nat): nat
    requires HasEnv(p.k, c)
  {
    p.k.cpus[c].cur.value
  }

  predicate CanHappen(p: Post, ev: Event)
    requires Shaped(p)
  {
    match ev
    case Read(c) => In(p.k, c, User) && HasEnv(p.k, c) && p.boxes[Caller(p, c)].inRecv
    case Kernel(a, _) =>
      && Enabled(p.k, a) && Guard(p.k, a)
      && (a.IpcRecv? ==> !p.boxes[Caller(p, a.c)].inRecv)
  }

  function Happen(p: Post, ev: Event): (p': Post)
    requires Shaped(p) && CanHappen(p, ev)
    ensures Shaped(p')
  {
    match ev
    case Read(c) =>
      var e := Caller(p, c);
      Post(p.k, p.boxes[e := Box(p.boxes[e].letter, false)], p.seen[e := p.seen[e] + [p.boxes[e].letter]])
    case Kernel(a, value) =>
      var k' := Apply(p.k, a);
      match a {
        case IpcRecv(c, _) => Post(k', p.boxes[Caller(p, c) := Box(p.boxes[Caller(p, c)].letter, true)], p.seen)
        case IpcSend(c, t) => Post(k', p.boxes[t := Box(Message(Caller(p, c), value), p.boxes[t].inRecv)], p.seen)
        case Exofork(c, t) => Post(k', p.boxes[t := Box(p.boxes[t].letter, false)], p.seen[t := []])
        case _ => Post(k', p.boxes, p.seen)
      }
  }

  // What environment t has been sent and not yet seen.
  function Pending(p: Post, t: nat): seq<Message>
    requires Shaped(p) && t < |p.k.envs|
  {
    if p.boxes[t].inRecv && !p.k.envs[t].recving then [p.boxes[t].letter] else []
  }

  // What t has received, and what lies in its IPC fields.
  function Got(p: Post, t: nat): seq<Message>
    requires Shaped(p) && t < |p.k.envs|
  {
    p.seen[t] + Pending(p, t)
  }

  predicate BoxOk(p: Post, t: nat)
    requires Shaped(p) && t < |p.k.envs|
  {
    p.k.envs[t].recving ==> p.boxes[t].inRecv
  }

  ghost predicate PostInv(p: Post) {
    Shaped(p) && Inv(p.k) && forall t: nat {:trigger BoxOk(p, t)} :: t < |p.k.envs| ==> BoxOk(p, t)
  }

  // ---------------------------------------------------------------------
  // What has been sent, by the events alone

  // The environment whose system call an event on CPU c is.
  function Sender(s: State, c: nat): nat { if c < |s.cpus| && s.cpus[c].cur.Some? then s.cpus[c].cur.value else 0 }

  // The event is a successful send to t.
  predicate IsSendTo(ev: Event, t: nat) { ev.Kernel? && ev.a.IpcSend? && ev.a.t == t }

  predicate IsBirthOf(ev: Event, t: nat) { ev.Kernel? && ev.a.Exofork? && ev.a.t == t }

  /** The sends to t among the first n events, since t was created: who was running on
      the CPU that made the call, and the value that it passed. */
  function SentTo(h: seq<Post>, evs: seq<Event>, n: nat, t: nat): seq<Message>
    requires n <= |evs| && |h| == |evs| + 1
  {
    if n == 0 || IsBirthOf(evs[n - 1], t) then []
    else if IsSendTo(evs[n - 1], t) then SentTo(h, evs, n - 1, t) + [Message(Sender(h[n - 1].k, evs[n - 1].a.c), evs[n - 1].value)]
    else SentTo(h, evs, n - 1, t)
  }

  // No step but its own receive, a send to it or its creation changes whether an
  // environment is receiving.
  lemma RecvingKept(s: State, a: Action, t: nat)
    requires Enabled(s, a) && t < |s.envs|
    requires !IsOwnIpc(s, a, t)
    ensures |Apply(s, a).envs| == |s.envs| && Apply(s, a).envs[t].recving == s.envs[t].recving
  {
  }

  lemma KernelKeepsBoxes(p: Post, a: Action, value: int)
    requires PostInv(p) && CanHappen(p, Kernel(a, value))
    ensures PostInv(Happen(p, Kernel(a, value)))
  {
    var p' := Happen(p, Kernel(a, value));
    GuardedStepKeepsInv(p.k, a);
    forall t: nat | t < |p.k.envs| ensures BoxOk(p', t) {
      assert BoxOk(p, t);
      if !IsOwnIpc(p.k, a, t) {
        RecvingKept(p.k, a, t);
      }
    }
  }

  // A receive of t, a send to it, or its creation.
  predicate IsOwnIpc(s: State, a: Action, t: nat)
    requires Enabled(s, a)
  {
    (a.IpcRecv? && s.cpus[a.c].cur == Some(t)) || (a.IpcSend? && a.t == t) || (a.Exofork? && a.t == t)
  }

  /** A kernel step adds a message to what t gets exactly when it is a send to t: the
      one that its caller passes. */
  lemma KernelDelivers(p: Post, a: Action, value: int, t: nat)
    requires PostInv(p) && CanHappen(p, Kernel(a, value)) && t < |p.k.envs|
    ensures Shaped(Happen(p, Kernel(a, value))) && |Happen(p, Kernel(a, value)).k.envs| == |p.k.envs|
    ensures Got(Happen(p, Kernel(a, value)), t) ==
            if IsBirthOf(Kernel(a, value), t) then []
            else if IsSendTo(Kernel(a, value), t) then Got(p, t) + [Message(Sender(p.k, a.c), value)]
            else Got(p, t)
  {
    assert BoxOk(p, t);
    if !IsOwnIpc(p.k, a, t) {
      RecvingKept(p.k, a, t);
    }
  }

  // An environment that runs in user mode after its receive has been sent to.
  lemma ReaderIsAwake(p: Post, c: nat)
    requires PostInv(p) && CanHappen(p, Read(c))
    ensures !p.k.envs[Caller(p, c)].recving
  {
    assert CpuOk(p.k, c) && EnvOk(p.k, Caller(p, c));
  }

  lemma EventKeepsInv(p: Post, ev: Event)
    requires PostInv(p) && CanHappen(p, ev)
    ensures PostInv(Happen(p, ev))
  {
    match ev
    case Kernel(a, value) => KernelKeepsBoxes(p, a, value);
    case Read(c) =>
      ReaderIsAwake(p, c);
      var p' := Happen(p, ev);
      forall t: nat | t < |p.k.envs| ensures BoxOk(p', t) {
        assert BoxOk(p, t);
      }
  }

  predicate IsHistory(h: seq<Post>, evs: seq<Event>) {
    && |h| == |evs| + 1
    && forall i {:trigger evs[i]} :: 0 <= i < |evs| ==> Shaped(h[i]) && CanHappen(h[i], evs[i]) && h[i + 1] == Happen(h[i], evs[i])
  }

  predicate Fresh(p: Post) {
    Shaped(p) && Init(p.k) && forall t :: 0 <= t < |p.k.envs| ==> !p.boxes[t].inRecv && p.seen[t] == []
  }

  lemma {:induction false} HistoryKeepsInv(h: seq<Post>, evs: seq<Event>, n: nat)
    requires IsHistory(h, evs) && Fresh(h[0]) && n <= |evs|
    ensures PostInv(h[n])
  {
    if n == 0 {
      RunKeepsInv([h[0].k], [], 0);
      forall t: nat | t < |h[0].k.envs| ensures BoxOk(h[0], t) {
      }
    } else {
      HistoryKeepsInv(h, evs, n - 1);
      var ev := evs[n - 1];
      EventKeepsInv(h[n - 1], ev);
    }
  }

  lemma ReadKeepsGot(p: Post, c: nat, t: nat)
    requires PostInv(p) && CanHappen(p, Read(c)) && t < |p.k.envs|
    ensures Got(Happen(p, Read(c)), t) == Got(p, t)
  {
    ReaderIsAwake(p, c);
  }

  lemma SameEnvs(p: Post, ev: Event)
    requires Shaped(p) && CanHappen(p, ev)
    ensures |Happen(p, ev).k.envs| == |p.k.envs|
  {
  }

  lemma {:induction false} GotIsSent(h: seq<Post>, evs: seq<Event>, n: nat, t: nat)
    requires IsHistory(h, evs) && Fresh(h[0]) && n <= |evs| && t < |h[n].k.envs|
    ensures PostInv(h[n]) && Got(h[n], t) == SentTo(h, evs, n, t)
  {
    HistoryKeepsInv(h, evs, n);
    if n > 0 {
      var ev := evs[n - 1];
      SameEnvs(h[n - 1], ev);
      GotIsSent(h, evs, n - 1, t);
      match ev
      case Kernel(a, value) => KernelDelivers(h[n - 1], a, value, t);
      case Read(c) => ReadKeepsGot(h[n - 1], c, t);
    }
  }

  /** Exactly once and in order: what an environment's receives returned, sender and
      value, is what was successfully sent to it since it was created, in that order,
      but for at most one message, which is the one in its IPC fields; while it waits
      there is none. */
  lemma ExactlyOnceInOrder(h: seq<Post>, evs: seq<Event>, n: nat, t: nat)
    requires IsHistory(h, evs) && Fresh(h[0]) && n <= |evs| && t < |h[n].k.envs|
    ensures Shaped(h[n]) && BoxOk(h[n], t)
    ensures SentTo(h, evs, n, t) == h[n].seen[t] + Pending(h[n], t)
    ensures !h[n].boxes[t].inRecv || h[n].k.envs[t].recving ==> h[n].seen[t] == SentTo(h, evs, n, t)
  {
    GotIsSent(h, evs, n, t);
    assert BoxOk(h[n], t);
  }

  /** Each return of ipc_recv hands over precisely the latest successful send: who made
      it, and with which value. */
  lemma ReadMatchesSend(h: seq<Post>, evs: seq<Event>, n: nat)
    requires IsHistory(h, evs) && Fresh(h[0]) && n < |evs| && evs[n].Read?
    ensures HasEnv(h[n].k, evs[n].c) && Shaped(h[n]) && Shaped(h[n + 1]) && |h[n + 1].k.envs| == |h[n].k.envs|
    ensures var t := Caller(h[n], evs[n].c);
            var sent := SentTo(h, evs, n, t);
            && sent != [] && h[n].seen[t] == sent[..|sent| - 1] && h[n + 1].seen[t] == sent
  {
    HistoryKeepsInv(h, evs, n);
    var ev := evs[n];
    assert CanHappen(h[n], ev) && h[n + 1] == Happen(h[n], ev);
    ReaderIsAwake(h[n], ev.c);
    GotIsSent(h, evs, n, Caller(h[n], ev.c));
  }
}
