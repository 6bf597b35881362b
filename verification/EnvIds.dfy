/** Environment ids and the free list of environments (sched/kern/env.c,
    sched/inc/env.h). */
module EnvIds {
  import opened Common

  const NENV := 1024
  // 1 << ENVGENSHIFT.
  const GENERATION := 4096
  // How many different ids a slot has.
  const CYCLE := 524287
  const INT_WORDS := 0x1_0000_0000
  const INT_MAX := 0x7fff_ffff

  // A sum of machine integers, in two's complement.
  function Signed(x: int): int { if x % INT_WORDS > INT_MAX then x % INT_WORDS - INT_WORDS else x % INT_WORDS }

  // ENVX: the low ten bits, also of a negative number.
  function Envx(id: int): (i: nat)
    ensures i < NENV
  {
    id % NENV
  }

  // env_alloc's new id for slot i, whose previous id is `id`.
  function NextId(id: int, i: nat): int {
    var sum := Signed(id + GENERATION);
    var generation := sum - sum % NENV;
    (if generation <= 0 then GENERATION else generation) + i
  }

  /** The id of slot i after k allocations. */
  function IdAfter(k: nat, i: nat): int { if k == 0 then 0 else ((k - 1) % CYCLE + 1) * GENERATION + i }

  lemma IdsFollow(k: nat, i: nat)
    requires i < NENV
    ensures NextId(IdAfter(k, i), i) == IdAfter(k + 1, i)
  {
    if k > 0 {
      var g := (k - 1) % CYCLE + 1;
      assert k % CYCLE == if g == CYCLE then 0 else g;
      GenerationFollows(g, i);
    }
  }

  lemma SignedSmall(x: int)
    requires -INT_MAX - 1 <= x < INT_WORDS
    ensures Signed(x) == if x <= INT_MAX then x else x - INT_WORDS
  {
  }

  lemma LowBits(h: int, i: nat)
    requires i < NENV
    ensures (h * GENERATION + i) % NENV == i
  {
    assert h * GENERATION + i == h * 4 * NENV + i;
  }

  lemma GenerationFollows(g: nat, i: nat)
    requires 1 <= g <= CYCLE && i < NENV
    ensures NextId(g * GENERATION + i, i) == (if g == CYCLE then 1 else g + 1) * GENERATION + i
  {
    SignedSmall((g + 1) * GENERATION + i);
    LowBits(if g == CYCLE then g + 1 - 0x10_0000 else g + 1, i);
  }

  /** Ids are positive machine integers that tell their slot. */
  lemma IdsTellTheirSlot(k: nat, i: nat)
    requires k > 0 && i < NENV
    ensures 0 < IdAfter(k, i) <= INT_MAX && Envx(IdAfter(k, i)) == i
  {
    var g := (k - 1) % CYCLE + 1;
    LowBits(g, i);
  }

  /** An id comes back to its slot after CYCLE allocations, and not before. */
  lemma IdsRepeatByCycle(k: nat, k': nat, i: nat)
    requires 0 < k <= k' && i < NENV
    ensures IdAfter(k, i) == IdAfter(k', i) <==> (k' - k) % CYCLE == 0
  {
    var a, b := k - 1, k' - 1;
    assert a % CYCLE == b % CYCLE <==> (b - a) % CYCLE == 0 by { SameRemainder(a, b); }
  }

  lemma SameRemainder(a: nat, b: nat)
    requires a <= b
    ensures a % CYCLE == b % CYCLE <==> (b - a) % CYCLE == 0
  {
    var qa, qb := a / CYCLE, b / CYCLE;
    assert a == qa * CYCLE + a % CYCLE && b == qb * CYCLE + b % CYCLE;
    if a % CYCLE == b % CYCLE {
      assert b - a == (qb - qa) * CYCLE;
    }
  }

  datatype Env = Env(id: int, free: bool, parent: int, link: Option<nat>)

  datatype Result = Found(slot: Option<nat>) | BadEnv

  datatype Allocation = New(slot: nat) | NoFreeEnv | NoMem

  function LinkAt(list: seq<nat>, k: nat): Option<nat> { if k < |list| then Some(list[k]) else None }

  // Position k of the free list.
  predicate LinkOk(envs: seq<Env>, list: seq<nat>, k: nat)
    requires k < |list|
  {
    list[k] < |envs| && envs[list[k]].free && envs[list[k]].link == LinkAt(list, k + 1)
  }

  ghost predicate FreeListOk(envs: seq<Env>, head: Option<nat>, list: seq<nat>) {
    && head == LinkAt(list, 0)
    && (forall k: nat {:trigger LinkOk(envs, list, k)} :: k < |list| ==> LinkOk(envs, list, k))
    && (forall j: nat, k: nat {:trigger list[j], list[k]} :: j < k < |list| ==> list[j] != list[k])
    && (forall i: nat {:trigger envs[i]} :: i < |envs| && envs[i].free ==> i in list)
  }

  class EnvTable {
    const envs: array<Env>
    var freeHead: Option<nat>
    // The free list in order, and the number of allocations of each slot.
    ghost var list: seq<nat>
    ghost var allocs: seq<nat>

    ghost predicate Valid()
      reads this, envs
    {
      && envs.Length == |allocs| == NENV
      && FreeListOk(envs[..], freeHead, list)
      && forall i {:trigger allocs[i]} :: 0 <= i < NENV ==> envs[i].id == IdAfter(allocs[i], i) && (!envs[i].free ==> allocs[i] > 0)
    }

    /** env_init. */
    constructor ()
      ensures Valid() && list == seq(NENV, i requires 0 <= i => i) && forall i :: 0 <= i < NENV ==> allocs[i] == 0
    {
      envs := new Env[NENV](_ => Env(0, true, 0, None));
      new;
      for i := 0 to NENV
        invariant forall j :: 0 <= j < NENV ==> envs[j] == Env(0, true, 0, if j < i then Some(j + 1) else None)
      {
        envs[i] := Env(0, true, 0, Some(i + 1));
      }
      envs[NENV - 1] := Env(0, true, 0, None);
      freeHead := Some(0);
      list := seq(NENV, i requires 0 <= i => i);
      allocs := seq(NENV, _ => 0);
      forall i: nat | i < NENV ensures i in list {
        assert list[i] == i;
      }
    }

    /** The parts of env_alloc about ids and the free list; vmOk says whether
        env_setup_vm finds a page. */
    method Alloc(parent: int, vmOk: bool) returns (r: Allocation)
      requires Valid()
      modifies this, envs
      ensures Valid()
      ensures r == if old(list) == [] then NoFreeEnv else if !vmOk then NoMem else New(old(list)[0])
      ensures !r.New? ==> envs[..] == old(envs[..]) && list == old(list) && allocs == old(allocs)
      ensures r.New? ==> r.slot < NENV && old(envs[r.slot].free)
      ensures r.New? ==> list == old(list)[1..] && allocs == old(allocs)[r.slot := old(allocs)[r.slot] + 1]
      ensures r.New? ==> envs[r.slot].id == IdAfter(allocs[r.slot], r.slot) && !envs[r.slot].free && envs[r.slot].parent == parent
      ensures r.New? ==> forall i :: 0 <= i < NENV && i != r.slot ==> envs[i] == old(envs[i])
    {
      if freeHead.None? {
        return NoFreeEnv;
      }
      var e := freeHead.value;
      assert LinkOk(envs[..], list, 0);
      if !vmOk {
        return NoMem;
      }
      IdsFollow(allocs[e], e);
      ghost var before := envs[..];
      envs[e] := Env(NextId(envs[e].id, e), false, parent, envs[e].link);
      freeHead := envs[e].link;
      PopKeepsList(before, list, envs[..]);
      list := list[1..];
      allocs := allocs[e := allocs[e] + 1];
      return New(e);
    }

    /** The end of env_free: the slot goes to the front of the free list. */
    method Free(e: nat)
      requires Valid() && e < NENV && !envs[e].free
      modifies this, envs
      ensures Valid() && list == [e] + old(list) && allocs == old(allocs)
      ensures envs[e].free && envs[e].id == old(envs[e].id) && envs[e].parent == old(envs[e].parent)
      ensures forall i :: 0 <= i < NENV && i != e ==> envs[i] == old(envs[i])
    {
      ghost var before := envs[..];
      envs[e] := Env(envs[e].id, true, envs[e].parent, freeHead);
      PushKeepsList(before, freeHead, list, e, envs[..]);
      freeHead := Some(e);
      list := [e] + list;
    }

    /** envid2env on a CPU whose current environment is cur. */
    method Envid2Env(envid: int, checkperm: bool, cur: Option<nat>) returns (r: Result)
      requires Valid() && (cur.Some? ==> cur.value < NENV) && (checkperm ==> cur.Some?)
      ensures envid == 0 ==> r == Found(cur)
      ensures envid != 0 ==> r == if !Names(envid, Envx(envid)) || (checkperm && !MayManage(cur.value, Envx(envid))) then BadEnv
                                  else Found(Some(Envx(envid)))
    {
      if envid == 0 {
        return Found(cur);
      }
      var e := Envx(envid);
      if envs[e].free || envs[e].id != envid {
        return BadEnv;
      }
      if checkperm && e != cur.value && envs[e].parent != envs[cur.value].id {
        return BadEnv;
      }
      return Found(Some(e));
    }

    // envid is the id of the live environment in slot i.
    predicate Names(envid: int, i: nat)
      requires envs.Length == NENV && i < NENV
      reads this, envs
    {
      !envs[i].free && envs[i].id == envid
    }

    predicate MayManage(cur: nat, e: nat)
      requires envs.Length == NENV && cur < NENV && e < NENV
      reads this, envs
    {
      e == cur || envs[e].parent == envs[cur].id
    }

    /** An id names at most one live environment, and none once its slot has been
        allocated again, until the ids of the slot have all been used. */
    lemma StaleIdsAreRejected(k: nat, i: nat, j: nat)
      requires Valid() && i < NENV && j < NENV && 0 < k <= allocs[i]
      ensures Names(IdAfter(k, i), j) <==> j == i && !envs[i].free && (allocs[i] - k) % CYCLE == 0
    {
      IdsRepeatByCycle(k, allocs[i], i);
      IdsTellTheirSlot(k, i);
      if !envs[j].free {
        IdsTellTheirSlot(allocs[j], j);
      }
    }

    /** A live environment that was created by cur may be managed by cur and by itself,
        and by no other live environment. */
    lemma OnlyParentAndItself(cur: nat, e: nat, other: nat)
      requires Valid() && cur < NENV && e < NENV && other < NENV
      requires !envs[cur].free && !envs[other].free && envs[e].parent == envs[cur].id
      ensures MayManage(other, e) <==> other == cur || other == e
    {
      IdsTellTheirSlot(allocs[cur], cur);
      IdsTellTheirSlot(allocs[other], other);
    }
  }

  lemma PopKeepsList(envs: seq<Env>, list: seq<nat>, envs': seq<Env>)
    requires list != [] && FreeListOk(envs, LinkAt(list, 0), list) && list[0] < |envs| == |envs'|
    requires forall i :: 0 <= i < |envs| && i != list[0] ==> envs'[i] == envs[i]
    requires !envs'[list[0]].free && envs'[list[0]].link == envs[list[0]].link
    ensures FreeListOk(envs', envs'[list[0]].link, list[1..])
  {
    assert LinkOk(envs, list, 0);
    forall k: nat | k < |list[1..]| ensures LinkOk(envs', list[1..], k) {
      assert LinkOk(envs, list, k + 1);
    }
    forall i: nat | i < |envs'| && envs'[i].free ensures i in list[1..] {
      assert envs[i].free && i != list[0];
    }
  }

  lemma PushKeepsList(envs: seq<Env>, head: Option<nat>, list: seq<nat>, e: nat, envs': seq<Env>)
    requires FreeListOk(envs, head, list) && e < |envs| == |envs'| && !envs[e].free
    requires forall i :: 0 <= i < |envs| && i != e ==> envs'[i] == envs[i]
    requires envs'[e].free && envs'[e].link == head
    ensures FreeListOk(envs', Some(e), [e] + list)
  {
    forall k: nat | k < |[e] + list| ensures LinkOk(envs', [e] + list, k) {
      if k > 0 { assert LinkOk(envs, list, k - 1); }
    }
    forall k: nat | k < |list| ensures list[k] != e {
      assert LinkOk(envs, list, k);
    }
    forall i: nat | i < |envs'| && envs'[i].free ensures i in [e] + list {
      assert i != e ==> envs[i].free;
    }
  }
}
