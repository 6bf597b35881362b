/** Physical page allocation and page table management (sched/kern/pmap.c), and what
    is built on it for environments (sched/kern/env.c, sched/kern/syscall.c), over the
    machine's memory, changed in place. PageTables has what the memory means and why
    the counts stay exact. */
module Pmap {
  import opened Common
  import opened Entries
  import opened Mmu
  import opened PageTables

  datatype Status = Ok | NoMem | Inval

  const MPENTRY_PAGE := 7
  const IO_PAGE := 160
  const EXT_PAGE := 256
  const UVPT_SLOT := 957

  // The pages that page_init puts on the free list.
  predicate Allocatable(i: nat, firstFree: nat) {
    i != 0 && i != MPENTRY_PAGE && !(IO_PAGE <= i < EXT_PAGE) && !(EXT_PAGE <= i < firstFree)
  }

  // Page i has bytes at physical addresses from lo up to hi.
  predicate Overlaps(i: nat, lo: nat, hi: nat) { i * PGSIZE < hi && lo < (i + 1) * PGSIZE && lo < hi }

  // It has none in page 0, in the start-up code of the other CPUs, in the I/O hole, or
  // in what the kernel has taken from 1 MB up to boot_alloc's next free page.
  predicate IsOrdinary(i: nat, firstFree: nat) {
    && !Overlaps(i, 0, 0x1000) && !Overlaps(i, 0x7000, 0x8000)
    && !Overlaps(i, 0xA_0000, 0x10_0000) && !Overlaps(i, 0x10_0000, firstFree * PGSIZE)
  }

  /** By physical addresses, these are the allocatable pages. */
  lemma AllocatableIsOrdinary(i: nat, firstFree: nat)
    ensures Allocatable(i, firstFree) <==> IsOrdinary(i, firstFree)
  {
  }

  // The free list that page_init builds from the first n pages.
  ghost function InitialFree(n: nat, firstFree: nat): (s: seq<nat>) {
    if n == 0 then []
    else (if Allocatable(n - 1, firstFree) then [n - 1] else []) + InitialFree(n - 1, firstFree)
  }

  lemma {:induction false} InitialFreeMembers(n: nat, firstFree: nat, i: nat)
    ensures i in InitialFree(n, firstFree) <==> i < n && Allocatable(i, firstFree)
  {
    if n > 0 {
      InitialFreeMembers(n - 1, firstFree, i);
    }
  }

  lemma {:induction false} InitialFreeDecreases(n: nat, firstFree: nat, j: nat, k: nat)
    requires j < k < |InitialFree(n, firstFree)|
    ensures n > InitialFree(n, firstFree)[j] > InitialFree(n, firstFree)[k]
  {
    var rest := InitialFree(n - 1, firstFree);
    if !Allocatable(n - 1, firstFree) {
      InitialFreeDecreases(n - 1, firstFree, j, k);
    } else if j > 0 {
      InitialFreeDecreases(n - 1, firstFree, j - 1, k - 1);
    } else {
      var f := rest[k - 1];
      assert f in rest;
      InitialFreeMembers(n - 1, firstFree, f);
    }
  }

  // pp_link of the k-th free page leads to the next one.
  ghost predicate NextOk(link: seq<Option<nat>>, free: seq<nat>, k: nat)
    requires k < |free|
  {
    free[k] < |link| && link[free[k]] == if k + 1 < |free| then Some(free[k + 1]) else None
  }

  /** The free list: `free`, head first, is what following pp_link from
      page_free_list visits; it is finite and has no repetition. */
  ghost predicate Linked(link: seq<Option<nat>>, head: Option<nat>, free: seq<nat>) {
    && head == (if free == [] then None else Some(free[0]))
    && (forall k: nat {:trigger NextOk(link, free, k)} :: k < |free| ==> NextOk(link, free, k))
    && (forall j, k :: 0 <= j < k < |free| ==> free[j] != free[k])
  }

  // Exactly the free pages are on the free list, and only they have a link.
  ghost predicate FreeListOk(link: seq<Option<nat>>, head: Option<nat>, free: seq<nat>, role: seq<Role>) {
    && |role| == |link|
    && Linked(link, head, free)
    && (forall f: nat {:trigger f in free} :: f in free <==> f < |role| && role[f] == Free)
    && (forall f: nat {:trigger link[f]} :: f < |role| && role[f] != Free ==> link[f] == None)
  }

  lemma FreeListAfterPop(link: seq<Option<nat>>, free: seq<nat>, role: seq<Role>)
    requires free != [] && FreeListOk(link, Some(free[0]), free, role)
    ensures free[0] < |role| && role[free[0]] == Free
    ensures FreeListOk(link[free[0] := None], link[free[0]], free[1..], role[free[0] := Transit])
  {
    var p, rest := free[0], free[1..];
    assert p in free && NextOk(link, free, 0);
    var link' := link[p := None];
    forall k: nat | k < |rest| ensures NextOk(link', rest, k) {
      assert NextOk(link, free, k + 1);
    }
    forall f: nat ensures f in rest <==> f in free && f != p {
      assert free == [p] + rest;
      if f in rest {
        var k :| 0 <= k < |rest| && rest[k] == f;
        assert free[k + 1] == f;
      }
    }
  }

  lemma FreeListAfterPush(link: seq<Option<nat>>, head: Option<nat>, free: seq<nat>, role: seq<Role>, p: nat)
    requires FreeListOk(link, head, free, role) && p < |role| && role[p] != Free
    ensures FreeListOk(link[p := head], Some(p), [p] + free, role[p := Free])
  {
    var free', link' := [p] + free, link[p := head];
    assert p !in free;
    forall k: nat | k < |free'| ensures NextOk(link', free', k) {
      if k > 0 {
        assert NextOk(link, free, k - 1) && free[k - 1] in free;
      }
    }
    forall j, k | 0 <= j < k < |free'| ensures free'[j] != free'[k] {
      assert free'[k] == free[k - 1] && free[k - 1] in free;
    }
  }

  lemma DeleteAbsent(m: FlatMap, v: nat)
    requires v !in m
    ensures m - {v} == m
  {
    assert (m - {v}).Keys == m.Keys;
  }

  lemma UpdateAfterDelete(m: FlatMap, v: nat, x: Mapping)
    ensures (m - {v})[v := x] == m[v := x]
  {
    assert (m - {v})[v := x].Keys == m[v := x].Keys;
  }

  // Data page f has lost one count, and is on the free list if it was the last.
  ghost predicate LostOne(role: seq<Role>, ref: seq<nat>, free: seq<nat>, role': seq<Role>, ref': seq<nat>, free': seq<nat>, f: nat) {
    && f < |role| == |ref| && role[f] == Data && ref[f] > 0
    && ref' == ref[f := ref[f] - 1]
    && role' == (if ref[f] == 1 then role[f := Free] else role)
    && free' == (if ref[f] == 1 then [f] + free else free)
  }

  // What a removed mapping leaves alone: directories, data and the table's role.
  lemma RemovalFrame(mem: Memory, role: seq<Role>, ref: seq<nat>, free: seq<nat>, role': seq<Role>, ref': seq<nat>, free': seq<nat>,
                     f: nat, d: nat, t: nat, j: nat)
    requires LostOne(role, ref, free, role', ref', free', f) && |mem| == |role| && j < NENTRIES
    requires d < |role| && role[d] == Dir && t < |role| && role[t].Table?
    ensures |role'| == |role| && role'[t] == role[t] && Write(mem, t, j, 0)[d] == mem[d]
    ensures forall e :: 0 <= e < |role| ==> (role'[e] == Dir <==> role[e] == Dir)
    ensures forall g :: 0 <= g < |role| && role[g] == Data ==> Write(mem, t, j, 0)[g] == mem[g]
  {
  }

  class Machine {
    const npages: nat
    const kernPgdir: nat
    const mem: array<Page>
    const ppRef: array<nat>
    const ppLink: array<Option<nat>>
    var pageFreeList: Option<nat>
    ghost var role: seq<Role>
    ghost var free: seq<nat>

    ghost predicate Shape()
      reads this
    {
      && mem.Length == ppRef.Length == ppLink.Length == npages == |role|
      && npages <= MAXFRAMES
    }

    // What page_alloc, page_free and page_decref rely on.
    ghost predicate AllocOk()
      reads this, ppLink
    {
      Shape() && FreeListOk(ppLink[..], pageFreeList, free, role)
    }

    ghost predicate KernPgdirOk()
      reads this, mem
    {
      && Shape()
      && kernPgdir < npages && role[kernPgdir] == Reserved
      && forall i :: 0 <= i < NUPDE ==> mem[kernPgdir][i] == 0
    }

    /** The kernel's memory invariant. `held` are the counted references that
        the kernel function being executed has not stored yet. */
    ghost predicate Valid(held: multiset<nat>)
      reads this, mem, ppRef, ppLink
    {
      && AllocOk()
      && KernPgdirOk()
      && Sound(mem[..], role, ppRef[..], held)
    }

    ghost predicate IsDir(d: nat)
      reads this
    {
      d < |role| && role[d] == Dir
    }

    // The address space below UTOP of page directory d.
    ghost function SpaceOf(d: nat): FlatMap
      requires d < mem.Length
      reads this, mem
    {
      Space(mem[..], d)
    }

    // The memory and the zeroed page array that mem_init sets up before page_init.
    constructor Boot(memory: array<Page>, kernPgdir: nat)
      requires memory.Length <= MAXFRAMES && kernPgdir < memory.Length
      requires forall i :: 0 <= i < NUPDE ==> memory[kernPgdir][i] == 0
      ensures Shape() && KernPgdirOk() && mem == memory && this.kernPgdir == kernPgdir
      ensures fresh(ppRef) && fresh(ppLink)
      ensures pageFreeList == None && free == []
      ensures forall f :: 0 <= f < npages ==> role[f] == Reserved && ppRef[f] == 0 && ppLink[f] == None
    {
      npages := memory.Length;
      this.kernPgdir := kernPgdir;
      mem := memory;
      var refs := new nat[memory.Length](_ => 0);
      var links := new Option<nat>[memory.Length](_ => None);
      ppRef := refs;
      ppLink := links;
      pageFreeList := None;
      free := [];
      role := seq(memory.Length, _ => Reserved);
    }

    // How far page_init has come: the pages below i are done.
    ghost predicate InitDone(i: nat, firstFree: nat)
      reads this, ppLink, ppRef
    {
      && AllocOk() && free == InitialFree(i, firstFree)
      && forall f {:trigger role[f]} {:trigger ppRef[f]} :: 0 <= f < npages ==>
           ppRef[f] == 0 && role[f] == if f < i && Allocatable(f, firstFree) then Free else Reserved
    }

    // One turn of page_init's loop.
    method InitPage(i: nat, firstFree: nat)
      requires i < npages && InitDone(i, firstFree)
      modifies this`pageFreeList, this`role, this`free, ppRef, ppLink
      ensures InitDone(i + 1, firstFree)
    {
      assert ppLink[i] == None && ppLink[..][i := None] == ppLink[..];
      ppLink[i] := None;
      if i == 0 || i == MPENTRY_PAGE || (IO_PAGE <= i < EXT_PAGE) || (EXT_PAGE <= i < firstFree) {
        return;
      }
      Push(i);
      ppRef[i] := 0;
    }

    /** page_init: exactly the allocatable pages go on the free list, the last
        one first, and nothing is counted. */
    method PageInit(firstFree: nat)
      requires Shape() && KernPgdirOk() && !Allocatable(kernPgdir, firstFree)
      requires pageFreeList == None && free == []
      requires forall f :: 0 <= f < npages ==> role[f] == Reserved && ppRef[f] == 0 && ppLink[f] == None
      modifies this`pageFreeList, this`role, this`free, ppRef, ppLink
      ensures Valid(multiset{})
      ensures free == InitialFree(npages, firstFree)
      ensures forall f: nat :: f < npages ==> (f in free <==> IsOrdinary(f, firstFree))
      ensures forall f :: 0 <= f < npages ==> role[f] == if Allocatable(f, firstFree) then Free else Reserved
    {
      for i := 0 to npages
        invariant InitDone(i, firstFree)
      {
        InitPage(i, firstFree);
      }
      NoTablesNoRefs(mem[..], role, ppRef[..]);
      forall f: nat | f < npages ensures f in free <==> IsOrdinary(f, firstFree) {
        AllocatableIsOrdinary(f, firstFree);
      }
    }

    /** page_alloc: pops the free list; None exactly when it is empty. */
    method PageAlloc(zero: bool, ghost held: multiset<nat>) returns (r: Option<nat>)
      requires Valid(held)
      modifies this`pageFreeList, this`role, this`free, ppLink, mem
      ensures Valid(held)
      ensures r == old(pageFreeList)
      ensures r == None <==> old(free) == []
      ensures r == None ==> free == old(free) && role == old(role) && mem[..] == old(mem[..]) && ppLink[..] == old(ppLink[..])
      ensures r.Some? ==>
                && r.value < npages && old(role)[r.value] == Free
                && old(free) == [r.value] + free
                && role == old(role)[r.value := Transit]
                && mem[..] == old(mem[..])[r.value := mem[r.value]]
                && (zero ==> forall k :: 0 <= k < NENTRIES ==> mem[r.value][k] == 0)
                && (!zero ==> mem[r.value] == old(mem[r.value]))
      ensures forall d :: 0 <= d < npages && old(role)[d] == Dir ==> SpaceOf(d) == old(SpaceOf(d))
    {
      if pageFreeList.None? {
        return None;
      }
      var p := pageFreeList.value;
      FreeListAfterPop(ppLink[..], free, role);
      ghost var before := mem[..];
      pageFreeList := ppLink[p];
      ppLink[p] := None;
      if zero {
        mem[p] := seq(NENTRIES, _ => 0);
      }
      SoundAfterAlloc(before, role, ppRef[..], held, p, mem[p]);
      assert mem[..] == before[p := mem[p]];
      role := role[p := Transit];
      free := free[1..];
      r := Some(p);
    }

    /** page_free: a page that nobody counts goes back on the list. */
    method PageFree(pp: nat)
      requires AllocOk() && pp < npages
      requires ppRef[pp] == 0 && role[pp] != Free
      modifies this`pageFreeList, this`role, this`free, ppLink
      ensures AllocOk()
      ensures free == [pp] + old(free) && role == old(role)[pp := Free]
    {
      // Both panics of page_free are out of reach.
      assert ppRef[pp] == 0 && ppLink[pp] == None;
      Push(pp);
    }

    // `pp->pp_link = page_free_list; page_free_list = pp`
    method Push(pp: nat)
      requires AllocOk() && pp < npages && role[pp] != Free
      modifies this`pageFreeList, this`role, this`free, ppLink
      ensures AllocOk()
      ensures free == [pp] + old(free) && role == old(role)[pp := Free]
      ensures forall f :: 0 <= f < npages && f != pp ==> ppLink[f] == old(ppLink[f])
    {
      FreeListAfterPush(ppLink[..], pageFreeList, free, role, pp);
      ppLink[pp] := pageFreeList;
      pageFreeList := Some(pp);
      role := role[pp := Free];
      free := [pp] + free;
    }

    /** page_decref: one reference less; the page is freed with its last one. */
    method PageDecref(pp: nat)
      requires AllocOk() && pp < npages
      requires ppRef[pp] > 0 && role[pp] != Free
      modifies this`pageFreeList, this`role, this`free, ppLink, ppRef
      ensures AllocOk()
      ensures ppRef[..] == old(ppRef[..])[pp := old(ppRef[pp]) - 1]
      ensures old(ppRef[pp]) == 1 ==> free == [pp] + old(free) && role == old(role)[pp := Free]
      ensures old(ppRef[pp]) != 1 ==> free == old(free) && role == old(role)
    {
      ppRef[pp] := ppRef[pp] - 1;
      if ppRef[pp] == 0 {
        PageFree(pp);
      }
    }

    /** pgdir_walk without `create`: the place of va's table entry, if its table
        exists. */
    method PgdirFind(d: nat, va: Word, ghost held: multiset<nat>) returns (r: Option<(nat, nat)>)
      requires Valid(held) && IsDir(d) && va < UTOP
      ensures r.None? <==> mem[d][Pdx(va)] == 0
      ensures r.Some? ==>
                && r.value == (PteFrame(mem[d][Pdx(va)]), Ptx(va))
                && r.value.0 < npages && role[r.value.0] == Table(d, Pdx(va))
      ensures Pgnum(va) in SpaceOf(d) <==> r.Some? && mem[r.value.0][r.value.1] != 0
    {
      AddressSplit(va);
      assert PdeOk(mem[..], role, d, Pdx(va));
      if mem[d][Pdx(va)] != 0 {
        return Some((PteFrame(mem[d][Pdx(va)]), Ptx(va)));
      }
      return None;
    }

    /** pgdir_walk with `create`: a missing table is allocated, which changes no
        address space; without memory for it nothing changes at all. */
    method PgdirWalk(d: nat, va: Word, ghost held: multiset<nat>) returns (r: Option<(nat, nat)>)
      requires Valid(held) && IsDir(d) && va < UTOP
      modifies this`pageFreeList, this`role, this`free, ppLink, ppRef, mem
      ensures Valid(held)
      ensures r.None? <==> old(mem[d][Pdx(va)]) == 0 && old(free) == []
      ensures r.Some? ==>
                && mem[d][Pdx(va)] != 0 && r.value == (PteFrame(mem[d][Pdx(va)]), Ptx(va))
                && r.value.0 < npages && role[r.value.0] == Table(d, Pdx(va))
      ensures r.None? || old(mem[d][Pdx(va)]) != 0 ==>
                && mem[..] == old(mem[..]) && ppRef[..] == old(ppRef[..]) && ppLink[..] == old(ppLink[..])
                && pageFreeList == old(pageFreeList) && role == old(role) && free == old(free)
      ensures r.Some? && old(mem[d][Pdx(va)]) == 0 ==>
                && old(free) == [r.value.0] + free && old(role)[r.value.0] == Free
                && role == old(role)[r.value.0 := Table(d, Pdx(va))]
                && ppRef[..] == old(ppRef[..])[r.value.0 := 1]
      ensures forall e :: 0 <= e < npages ==> (IsDir(e) <==> old(IsDir(e)))
      ensures forall e :: 0 <= e < npages && IsDir(e) ==> SpaceOf(e) == old(SpaceOf(e))
      ensures forall g :: 0 <= g < npages && old(role)[g] in {Data, Transit} ==> role[g] == old(role)[g] && mem[g] == old(mem[g])
    {
      AddressSplit(va);
      var i := Pdx(va);
      if mem[d][i] == 0 {
        var p := PageAlloc(true, held);
        if p.None? {
          return None;
        }
        Install(d, i, p.value, held);
      }
      assert PdeOk(mem[..], role, d, i);
      return Some((PteFrame(mem[d][i]), Ptx(va)));
    }

    // `page->pp_ref++; pgdir[i] = page2pa(page) | PTE_P | PTE_W | PTE_U`
    method Install(d: nat, i: nat, t: nat, ghost held: multiset<nat>)
      requires Valid(held) && IsDir(d) && i < NUPDE && mem[d][i] == 0
      requires t < npages && role[t] == Transit && forall j :: 0 <= j < NENTRIES ==> mem[t][j] == 0
      modifies this`role, ppRef, mem
      ensures Valid(held)
      ensures role == old(role)[t := Table(d, i)] && ppRef[..] == old(ppRef[..])[t := 1]
      ensures mem[d][i] == MakePte(t, PTE_P + PTE_W + PTE_U)
      ensures forall g :: 0 <= g < npages && g != d ==> mem[g] == old(mem[g])
      ensures forall e :: 0 <= e < npages && old(IsDir(e)) ==> SpaceOf(e) == old(SpaceOf(e))
    {
      ghost var before := mem[..];
      var pde := MakePte(t, PTE_P + PTE_W + PTE_U);
      assert CountOk(before, role, ppRef[..], held, t);
      SoundAfterNewTable(before, role, ppRef[..], held, d, i, t, pde);
      SpaceAfterEmptyTable(before, role, d, i, t, pde);
      ppRef[t] := ppRef[t] + 1;
      Poke(d, i, pde);
      role := role[t := Table(d, i)];
    }

    /** page_lookup: the page and the entry's place, present exactly for mapped
        addresses. The nonzero test is a presence test because every nonzero
        entry carries PTE_P. */
    method PageLookup(d: nat, va: Word, ghost held: multiset<nat>) returns (page: Option<nat>, pte: Option<(nat, nat)>)
      requires Valid(held) && IsDir(d) && va < UTOP
      ensures page.Some? <==> Pgnum(va) in SpaceOf(d)
      ensures page.Some? <==> pte.Some?
      ensures page.Some? ==>
                && page.value == SpaceOf(d)[Pgnum(va)].frame < npages && role[page.value] == Data
                && mem[d][Pdx(va)] != 0 && pte.value == (PteFrame(mem[d][Pdx(va)]), Ptx(va))
                && pte.value.0 < npages && role[pte.value.0] == Table(d, Pdx(va))
                && mem[pte.value.0][pte.value.1] % 2 == 1
                && SpaceOf(d)[Pgnum(va)].flags == PteFlags(mem[pte.value.0][pte.value.1])
    {
      AddressSplit(va);
      var p := PgdirFind(d, va, held);
      if p.None? || mem[p.value.0][p.value.1] == 0 {
        return None, None;
      }
      assert PteOk(mem[..], role, p.value.0, p.value.1);
      return Some(PteFrame(mem[p.value.0][p.value.1])), p;
    }

    // A store of one entry of the table or directory in page t.
    method Poke(t: nat, k: nat, w: Word)
      requires Shape() && t < npages && k < NENTRIES
      modifies mem
      ensures mem[..] == Write(old(mem[..]), t, k, w)
    {
      mem[t] := mem[t][k := w];
    }

    // page_decref(page) and `*pte = 0` for a mapped address.
    method Clear(d: nat, va: Word, t: nat, page: nat, ghost held: multiset<nat>)
      requires Valid(held) && IsDir(d) && va < UTOP
      requires mem[d][Pdx(va)] != 0 && t == PteFrame(mem[d][Pdx(va)]) < npages && role[t].Table?
      requires mem[t][Ptx(va)] != 0 && page == PteFrame(mem[t][Ptx(va)])
      modifies this`pageFreeList, this`role, this`free, ppLink, ppRef, mem
      ensures Valid(held)
      ensures SpaceOf(d) == old(SpaceOf(d)) - {Pgnum(va)}
      ensures forall e :: 0 <= e < npages && IsDir(e) && e != d ==> SpaceOf(e) == old(SpaceOf(e))
      ensures LostOne(old(role), old(ppRef[..]), old(free), role, ppRef[..], free, page)
      ensures mem[..] == Write(old(mem[..]), t, Ptx(va), 0)
    {
      ghost var before := mem[..];
      SoundAfterUnmap(before, role, ppRef[..], held, t, Ptx(va));
      SpaceAfterStoreAt(before, role, d, va, t, 0);
      PageDecref(page);
      Poke(t, Ptx(va), 0);
      forall e | 0 <= e < npages && IsDir(e) && e != d ensures SpaceOf(e) == Space(before, e) {
        assert old(role)[e] == Dir;
      }
    }

    // The first part of page_remove: the table and the page of a mapped address.
    method FindMapped(d: nat, va: Word, ghost held: multiset<nat>) returns (t: nat, page: nat, mapped: bool)
      requires Valid(held) && IsDir(d) && va < UTOP
      ensures mapped <==> Pgnum(va) in SpaceOf(d)
      ensures mapped ==>
                && mem[d][Pdx(va)] != 0 && t == PteFrame(mem[d][Pdx(va)]) < npages && role[t] == Table(d, Pdx(va))
                && mem[t][Ptx(va)] != 0 && page == PteFrame(mem[t][Ptx(va)]) == SpaceOf(d)[Pgnum(va)].frame
    {
      AddressSplit(va);
      var pte := PgdirFind(d, va, held);
      var removed, found := PageLookup(d, va, held);
      if found.Some? {
        pte := found;
      }
      if pte.None? || mem[pte.value.0][pte.value.1] == 0 {
        return 0, 0, false;
      }
      return pte.value.0, removed.value, true;
    }

    /** page_remove: deletes one virtual page from one address space; the page
        loses one count and is freed with the last. */
    method PageRemove(d: nat, va: Word, ghost held: multiset<nat>)
      requires Valid(held) && IsDir(d) && va < UTOP
      modifies this`pageFreeList, this`role, this`free, ppLink, ppRef, mem
      ensures Valid(held)
      ensures SpaceOf(d) == old(SpaceOf(d)) - {Pgnum(va)}
      ensures forall e :: 0 <= e < npages && IsDir(e) && e != d ==> SpaceOf(e) == old(SpaceOf(e))
      ensures Pgnum(va) !in old(SpaceOf(d)) ==>
                && mem[..] == old(mem[..]) && ppRef[..] == old(ppRef[..]) && ppLink[..] == old(ppLink[..])
                && pageFreeList == old(pageFreeList) && role == old(role) && free == old(free)
      ensures Pgnum(va) in old(SpaceOf(d)) ==>
                && LostOne(old(role), old(ppRef[..]), old(free), role, ppRef[..], free, old(SpaceOf(d))[Pgnum(va)].frame)
                && old(mem[d][Pdx(va)]) != 0 && PteFrame(old(mem[d][Pdx(va)])) < npages
                && old(role)[PteFrame(old(mem[d][Pdx(va)]))] == Table(d, Pdx(va))
                && mem[..] == Write(old(mem[..]), PteFrame(old(mem[d][Pdx(va)])), Ptx(va), 0)
                && role[PteFrame(old(mem[d][Pdx(va)]))] == Table(d, Pdx(va))
      ensures mem[d] == old(mem[d])
      ensures forall e :: 0 <= e < npages ==> (IsDir(e) <==> old(IsDir(e)))
      ensures forall g :: 0 <= g < npages && old(role)[g] == Data ==> mem[g] == old(mem[g])
    {
      var t, page, found := FindMapped(d, va, held);
      if !found {
        DeleteAbsent(SpaceOf(d), Pgnum(va));
        return;
      }
      ghost var mem0, role0, ref0, free0 := mem[..], role, ppRef[..], free;
      Clear(d, va, t, page, held);
      RemovalFrame(mem0, role0, ref0, free0, role, ppRef[..], free, page, d, t, Ptx(va));
    }

    // `pp->pp_ref++`: the caller holds a counted reference to pp.
    method Hold(pp: nat, ghost held: multiset<nat>)
      requires Valid(held) && pp < npages && role[pp] in {Data, Transit}
      modifies this`role, ppRef
      ensures Valid(held + multiset{pp})
      ensures role == old(role)[pp := Data] && ppRef[pp] > 0
      ensures forall e :: 0 <= e < npages ==> (IsDir(e) <==> old(IsDir(e))) && SpaceOf(e) == old(SpaceOf(e))
    {
      SoundAfterHold(mem[..], role, ppRef[..], held, pp);
      ppRef[pp] := ppRef[pp] + 1;
      role := role[pp := Data];
      assert ppRef[..] == old(ppRef[..])[pp := old(ppRef[pp]) + 1];
    }

    // `*pte = w`: the held reference to pp goes into an empty table entry, unless
    // the entry names another page.
    method Store(d: nat, va: Word, t: nat, w: Word, pp: nat, ghost held: multiset<nat>)
      requires Valid(held + multiset{pp}) && IsDir(d) && va < UTOP
      requires mem[d][Pdx(va)] != 0 && t == PteFrame(mem[d][Pdx(va)]) < npages && mem[t][Ptx(va)] == 0
      requires w % 2 == 1 && pp < npages && role[pp] == Data
      modifies mem
      ensures Valid(held) <==> Names(w, pp)
      ensures SpaceOf(d) == old(SpaceOf(d))[Pgnum(va) := Mapping(PteFrame(w), PteFlags(w))]
      ensures forall e :: 0 <= e < npages && IsDir(e) && e != d ==> SpaceOf(e) == old(SpaceOf(e))
      ensures forall g :: 0 <= g < npages && g != t ==> mem[g] == old(mem[g])
    {
      AddressSplit(va);
      assert PdeOk(mem[..], role, d, Pdx(va));
      if Names(w, pp) {
        SoundAfterMap(mem[..], role, ppRef[..], held, t, Ptx(va), w, pp);
      } else {
        UnsoundAfterStrayMap(mem[..], role, ppRef[..], held, t, Ptx(va), w, pp);
      }
      SpaceAfterStoreAt(mem[..], role, d, va, t, w);
      Poke(t, Ptx(va), w);
    }

    // page_remove, for a caller that holds a reference to pp.
    method Vacate(d: nat, pp: nat, va: Word, t: nat, ghost held: multiset<nat>)
      requires Valid(held + multiset{pp}) && IsDir(d) && va < UTOP
      requires pp < npages && role[pp] == Data
      requires mem[d][Pdx(va)] != 0 && t == PteFrame(mem[d][Pdx(va)]) < npages && role[t].Table?
      modifies this`pageFreeList, this`role, this`free, ppLink, ppRef, mem
      ensures Valid(held + multiset{pp}) && role[pp] == Data
      ensures TransitWithout(old(role), role, pp)
      ensures forall e :: 0 <= e < npages ==> (IsDir(e) <==> old(IsDir(e)))
      ensures SpaceOf(d) == old(SpaceOf(d)) - {Pgnum(va)}
      ensures forall e :: 0 <= e < npages && IsDir(e) && e != d ==> SpaceOf(e) == old(SpaceOf(e))
      ensures mem[d] == old(mem[d]) && mem[t][Ptx(va)] == 0
      ensures forall g :: 0 <= g < npages && g != t ==> mem[g] == old(mem[g])
    {
      AddressSplit(va);
      PageRemove(d, va, held + multiset{pp});
      assert CountOk(mem[..], role, ppRef[..], held + multiset{pp}, pp);
    }

    // The last two steps of page_insert: the old mapping goes, the held reference
    // to pp takes its place.
    method Swap(d: nat, pp: nat, va: Word, w: Word, t: nat, ghost held: multiset<nat>)
      requires Valid(held + multiset{pp}) && IsDir(d) && va < UTOP
      requires pp < npages && role[pp] == Data && w % 2 == 1
      requires mem[d][Pdx(va)] != 0 && t == PteFrame(mem[d][Pdx(va)]) < npages && role[t].Table?
      modifies this`pageFreeList, this`role, this`free, ppLink, ppRef, mem
      ensures Shape() && role[pp] == Data && (Valid(held) <==> Names(w, pp))
      ensures TransitWithout(old(role), role, pp)
      ensures forall e :: 0 <= e < npages ==> (IsDir(e) <==> old(IsDir(e)))
      ensures SpaceOf(d) == old(SpaceOf(d))[Pgnum(va) := Mapping(PteFrame(w), PteFlags(w))]
      ensures forall e :: 0 <= e < npages && IsDir(e) && e != d ==> SpaceOf(e) == old(SpaceOf(e))
      ensures forall g :: 0 <= g < npages && g != t ==> mem[g] == old(mem[g])
    {
      Vacate(d, pp, va, t, held);
      Store(d, va, t, w, pp, held);
      UpdateAfterDelete(old(SpaceOf(d)), Pgnum(va), Mapping(PteFrame(w), PteFlags(w)));
    }

    // The rest of page_insert once table t is there.
    method Replace(d: nat, pp: nat, va: Word, w: Word, t: nat, ghost held: multiset<nat>)
      requires Valid(held) && IsDir(d) && va < UTOP
      requires pp < npages && role[pp] in {Data, Transit} && w % 2 == 1
      requires mem[d][Pdx(va)] != 0 && t == PteFrame(mem[d][Pdx(va)]) < npages && role[t].Table?
      modifies this`pageFreeList, this`role, this`free, ppLink, ppRef, mem
      ensures Shape() && role[pp] == Data && (Valid(held) <==> Names(w, pp))
      ensures TransitWithout(old(role), role, pp)
      ensures forall e :: 0 <= e < npages ==> (IsDir(e) <==> old(IsDir(e)))
      ensures SpaceOf(d) == old(SpaceOf(d))[Pgnum(va) := Mapping(PteFrame(w), PteFlags(w))]
      ensures forall e :: 0 <= e < npages && IsDir(e) && e != d ==> SpaceOf(e) == old(SpaceOf(e))
      ensures forall g :: 0 <= g < npages && g != t ==> mem[g] == old(mem[g])
    {
      Hold(pp, held);
      Swap(d, pp, va, w, t, held);
    }

    /** page_insert: updates one address space at one virtual page. Counting the
        page before removing the old mapping makes re-insertion at the same
        address safe. Without memory for a table, nothing changes. The counts stay
        exact if and only if the permission argument has no frame bits that the
        page does not have; otherwise the entry names a page that is not counted
        for it. */
    method PageInsert(d: nat, pp: nat, va: Word, perm: Word, ghost held: multiset<nat>) returns (r: Status)
      requires Valid(held) && IsDir(d) && va < UTOP
      requires pp < npages && role[pp] in {Data, Transit}
      modifies this`pageFreeList, this`role, this`free, ppLink, ppRef, mem
      ensures Shape() && (Valid(held) <==> r == NoMem || KeepsFrame(pp, perm))
      ensures r in {Ok, NoMem}
      ensures r == NoMem <==> old(mem[d][Pdx(va)]) == 0 && old(free) == []
      ensures r == NoMem ==>
                && mem[..] == old(mem[..]) && ppRef[..] == old(ppRef[..]) && ppLink[..] == old(ppLink[..])
                && pageFreeList == old(pageFreeList) && role == old(role) && free == old(free)
      ensures forall e :: 0 <= e < npages ==> (IsDir(e) <==> old(IsDir(e)))
      ensures r == Ok ==> SpaceOf(d) == old(SpaceOf(d))[Pgnum(va) := Mapping(EntryFrame(pp, perm), WithP(perm % PGSIZE))] && role[pp] == Data
      ensures r == Ok ==> TransitWithout(old(role), role, pp)
      ensures KeepsReserved(old(role), role)
      ensures forall e :: 0 <= e < npages && IsDir(e) && e != d ==> SpaceOf(e) == old(SpaceOf(e))
      ensures forall g :: 0 <= g < npages && old(role)[g] in {Data, Transit} ==> mem[g] == old(mem[g])
    {
      var pte := PgdirWalk(d, va, held);
      if pte.None? {
        return NoMem;
      }
      Replace(d, pp, va, MakePte(pp, perm), pte.value.0, held);
      return Ok;
    }

    /** env_page_alloc: a fresh zeroed page is mapped at va. When page_insert fails
        the page is not given back: it is neither free nor counted from then on.
        That is so exactly for the last free page when va has no table. */
    method EnvPageAlloc(d: nat, va: Word, perm: Word) returns (r: Status)
      requires Valid(multiset{}) && IsDir(d) && va < UTOP
      modifies this`pageFreeList, this`role, this`free, ppLink, ppRef, mem
      ensures Valid(multiset{})
      ensures r == Inval <==> !CheckPerm(perm)
      ensures r == NoMem <==> CheckPerm(perm) && (old(free) == [] || (|old(free)| == 1 && old(mem[d][Pdx(va)]) == 0))
      ensures r == Inval ==>
                && mem[..] == old(mem[..]) && ppRef[..] == old(ppRef[..]) && ppLink[..] == old(ppLink[..])
                && pageFreeList == old(pageFreeList) && role == old(role) && free == old(free)
      ensures forall g :: 0 <= g < npages ==>
                (role[g] == Transit <==> old(role)[g] == Transit || (r == NoMem && old(free) == [g]))
      ensures KeepsReserved(old(role), role)
      ensures r == NoMem ==> free == [] && ppRef[..] == old(ppRef[..])
      ensures r == NoMem ==> forall g :: 0 <= g < npages ==> role[g] == if [g] == old(free) then Transit else old(role)[g]
      ensures forall e :: 0 <= e < npages ==> (IsDir(e) <==> old(IsDir(e)))
      ensures forall e :: 0 <= e < npages && IsDir(e) && (e != d || r != Ok) ==> SpaceOf(e) == old(SpaceOf(e))
      ensures r == Ok ==>
                && old(free) != []
                && SpaceOf(d) == old(SpaceOf(d))[Pgnum(va) := Mapping(old(free)[0], perm)]
                && old(free)[0] < npages && forall k :: 0 <= k < NENTRIES ==> mem[old(free)[0]][k] == 0
      ensures forall g :: 0 <= g < npages && old(role)[g] in {Data, Transit} ==> mem[g] == old(mem[g])
    {
      if !CheckPerm(perm) {
        return Inval;
      }
      var p := PageAlloc(true, multiset{});
      if p.None? {
        return NoMem;
      }
      assert old(free) == [p.value] + free && WithP(perm % PGSIZE) == perm;
      r := PageInsert(d, p.value, va, perm, multiset{});
    }

    /** env_page_map: shares the page behind srcva, never adding write access. A
        refusal changes nothing. The permission argument is not checked, so the
        counts stay exact exactly when it has no frame bits that the page does not
        have. */
    method EnvPageMap(src: nat, srcva: Word, dst: nat, dstva: Word, perm: Word) returns (r: Status)
      requires Valid(multiset{}) && IsDir(src) && IsDir(dst) && srcva < UTOP && dstva < UTOP
      modifies this`pageFreeList, this`role, this`free, ppLink, ppRef, mem
      ensures r == Inval <==>
                || Pgnum(srcva) !in old(SpaceOf(src))
                || (Writable(perm) && !Writable(old(SpaceOf(src))[Pgnum(srcva)].flags))
      ensures r == NoMem <==> r != Inval && old(free) == [] && old(mem[dst][Pdx(dstva)]) == 0
      ensures r != Ok ==>
                && mem[..] == old(mem[..]) && ppRef[..] == old(ppRef[..]) && ppLink[..] == old(ppLink[..])
                && pageFreeList == old(pageFreeList) && role == old(role) && free == old(free)
      ensures forall e :: 0 <= e < npages ==> (IsDir(e) <==> old(IsDir(e)))
      ensures forall e :: 0 <= e < npages && IsDir(e) && (e != dst || r != Ok) ==> SpaceOf(e) == old(SpaceOf(e))
      ensures Shape() && forall g :: 0 <= g < npages ==> (role[g] == Transit <==> old(role)[g] == Transit)
      ensures KeepsReserved(old(role), role)
      ensures r != Ok ==> Valid(multiset{})
      ensures r == Ok ==>
                var f := old(SpaceOf(src))[Pgnum(srcva)].frame;
                && f < npages
                && SpaceOf(dst) == old(SpaceOf(dst))[Pgnum(dstva) := Mapping(EntryFrame(f, perm), WithP(perm % PGSIZE))]
                && (Valid(multiset{}) <==> KeepsFrame(f, perm))
      ensures forall g :: 0 <= g < npages && old(role)[g] in {Data, Transit} ==> mem[g] == old(mem[g])
    {
      var page, srcpte := PageLookup(src, srcva, multiset{});
      if page.None? {
        return Inval;
      }
      if Writable(perm) && !Writable(mem[srcpte.value.0][srcpte.value.1] % PGSIZE) {
        return Inval;
      }
      r := PageInsert(dst, page.value, dstva, perm, multiset{});
    }

    /** env_setup_vm: a new page directory with the kernel's upper part, an empty
        user part, and itself at UVPT. */
    method EnvSetupVm() returns (r: Option<nat>)
      requires Valid(multiset{})
      modifies this`pageFreeList, this`role, this`free, ppLink, ppRef, mem
      ensures Valid(multiset{})
      ensures r.None? <==> old(free) == []
      ensures r.None? ==> role == old(role) && mem[..] == old(mem[..]) && free == []
      ensures r.Some? ==>
                && r.value < npages && !old(IsDir(r.value)) && SpaceOf(r.value) == map[] && ppRef[r.value] == 1
                && old(free) == [r.value] + free && old(role)[r.value] == Free
                && role == old(role)[r.value := Dir]
                && mem[r.value][UVPT_SLOT] == MakePte(r.value, PTE_U)
                && (forall k :: 0 <= k < NENTRIES && k != UVPT_SLOT ==> mem[r.value][k] == mem[kernPgdir][k])
      ensures forall e :: 0 <= e < npages && old(IsDir(e)) ==> IsDir(e) && SpaceOf(e) == old(SpaceOf(e))
      ensures forall g :: 0 <= g < npages && old(role)[g] in {Data, Transit} ==> mem[g] == old(mem[g])
    {
      var p := PageAlloc(true, multiset{});
      if p.None? {
        return None;
      }
      var d := p.value;
      ghost var before := mem[..];
      var page := mem[kernPgdir][UVPT_SLOT := MakePte(d, PTE_U)];
      assert CountOk(before, role, ppRef[..], multiset{}, d);
      SoundAfterNewDir(before, role, ppRef[..], multiset{}, d, page);
      SpaceAfterNewDir(before, role, d, page);
      mem[d] := page;
      ppRef[d] := ppRef[d] + 1;
      role := role[d := Dir];
      assert mem[..] == before[d := page];
      return Some(d);
    }

    // One turn of env_free's inner loop: unmaps what entry j of table t maps.
    method FlushEntry(d: nat, i: nat, t: nat, j: nat)
      requires Valid(multiset{}) && IsDir(d) && i < NUPDE && j < NENTRIES
      requires mem[d][i] != 0 && t == PteFrame(mem[d][i]) < npages && role[t] == Table(d, i)
      modifies this`pageFreeList, this`role, this`free, ppLink, ppRef, mem
      ensures Valid(multiset{})
      ensures mem[t] == old(mem[t])[j := 0]
      ensures forall g :: 0 <= g < npages && g != t ==> mem[g] == old(mem[g])
      ensures ReleasesDataOnly(old(role), role)
      ensures forall e :: 0 <= e < npages && IsDir(e) && e != d ==> SpaceOf(e) == old(SpaceOf(e))
    {
      assert PteOk(mem[..], role, t, j);
      if mem[t][j] % 2 == 1 {
        AddressBuild(i, j, 0);
        AddressSplit(Pgaddr(i, j, 0));
        PageRemove(d, Pgaddr(i, j, 0), multiset{});
      }
    }

    // The inner loop of env_free: unmaps everything that table t of d maps.
    method FlushTable(d: nat, i: nat, t: nat)
      requires Valid(multiset{}) && IsDir(d) && i < NUPDE
      requires mem[d][i] != 0 && t == PteFrame(mem[d][i]) < npages && role[t] == Table(d, i)
      modifies this`pageFreeList, this`role, this`free, ppLink, ppRef, mem
      ensures Valid(multiset{})
      ensures forall k :: 0 <= k < NENTRIES ==> mem[t][k] == 0
      ensures forall g :: 0 <= g < npages && g != t ==> mem[g] == old(mem[g])
      ensures ReleasesDataOnly(old(role), role)
      ensures forall e :: 0 <= e < npages && IsDir(e) && e != d ==> SpaceOf(e) == old(SpaceOf(e))
    {
      for j := 0 to NENTRIES
        invariant Valid(multiset{})
        invariant forall k :: 0 <= k < j ==> mem[t][k] == 0
        invariant forall g :: 0 <= g < npages && g != t ==> mem[g] == old(mem[g])
        invariant ReleasesDataOnly(old(role), role)
        invariant forall e :: 0 <= e < npages && IsDir(e) && e != d ==> SpaceOf(e) == old(SpaceOf(e))
      {
        FlushEntry(d, i, t, j);
      }
    }

    // `env_pgdir[i] = 0` and page_decref of the table that was there.
    method DropTable(d: nat, i: nat, t: nat)
      requires Valid(multiset{}) && IsDir(d) && i < NUPDE && t < npages && role[t] == Table(d, i)
      requires forall k :: 0 <= k < NENTRIES ==> mem[t][k] == 0
      modifies this`pageFreeList, this`role, this`free, ppLink, ppRef, mem
      ensures Valid(multiset{})
      ensures role == old(role)[t := Free]
      ensures mem[d] == old(mem[d])[i := 0]
      ensures forall g :: 0 <= g < npages && g != d ==> mem[g] == old(mem[g])
    {
      ghost var before := mem[..];
      SoundAfterDropTable(before, role, ppRef[..], multiset{}, d, i, t);
      Poke(d, i, 0);
      PageDecref(t);
    }

    /** env_free, memory part: gives back the whole address space of directory d.
        The pages that become free are exactly those that only d was holding. */
    method EnvFree(d: nat)
      requires Valid(multiset{}) && IsDir(d)
      modifies this`pageFreeList, this`role, this`free, ppLink, ppRef, mem
      ensures Valid(multiset{})
      ensures forall e :: 0 <= e < npages ==> (IsDir(e) <==> old(IsDir(e)) && e != d)
      ensures forall e :: 0 <= e < npages && IsDir(e) ==> SpaceOf(e) == old(SpaceOf(e))
      ensures forall f: nat :: f < npages ==>
                (f in free <==> f in old(free) || OnlyHeldBy(old(mem[..]), old(role), d, f))
      ensures forall f :: 0 <= f < npages && old(role)[f] in {Data, Transit} ==> mem[f] == old(mem[f])
      ensures forall f :: 0 <= f < npages ==> (role[f] == Transit <==> old(role)[f] == Transit)
      ensures KeepsReserved(old(role), role)
    {
      for i := 0 to NUPDE
        invariant Valid(multiset{}) && IsDir(d)
        invariant forall k :: 0 <= k < i ==> mem[d][k] == 0
        invariant LeavesOthers(old(mem[..]), old(role), mem[..], role, d)
      {
        assert PdeOk(mem[..], role, d, i);
        if mem[d][i] % 2 == 1 {
          var t := PteFrame(mem[d][i]);
          FlushTable(d, i, t);
          DropTable(d, i, t);
        }
      }
      SoundAfterDropDir(mem[..], role, ppRef[..], multiset{}, d);
      PageDecref(d);
      ghost var mem0, role0 := old(mem[..]), old(role);
      FreedExactly(mem0, role0, old(ppRef[..]), mem[..], role, ppRef[..], d);
      forall e | 0 <= e < npages && IsDir(e) ensures SpaceOf(e) == old(SpaceOf(e)) {
        SpaceDependsOnTables(mem0, role0, mem[..], e);
      }
    }
  }

  // The pages in transit are the same but for pp, and the kernel's own are the same.
  ghost predicate TransitWithout(role: seq<Role>, role': seq<Role>, pp: nat) {
    && KeepsReserved(role, role')
    && forall g {:trigger role'[g]} :: 0 <= g < |role| ==> (role'[g] == Transit <==> role[g] == Transit && g != pp)
  }

  /** The pages that page_init left out stay out of all use. */
  ghost predicate KeepsReserved(role: seq<Role>, role': seq<Role>) {
    |role| == |role'| && forall g {:trigger role'[g]} :: 0 <= g < |role| ==> (role'[g] == Reserved <==> role[g] == Reserved)
  }

  /** A page that is left out is not free, and no address space shows it or uses it as
      a directory or table. */
  lemma ReservedIsUnused(m: Machine, held: multiset<nat>, p: nat)
    requires m.Valid(held) && p < m.npages && m.role[p] == Reserved
    ensures p !in m.free && Refs(m.mem[..], m.role, p) == {}
    ensures forall d, v :: 0 <= d < m.npages && m.IsDir(d) && v in m.SpaceOf(d) ==> m.SpaceOf(d)[v].frame != p
  {
    ReferredRole(m.mem[..], m.role, p);
    forall d, v | 0 <= d < m.npages && m.IsDir(d) && v in m.SpaceOf(d) ensures m.SpaceOf(d)[v].frame != p {
      MappedIsData(m.mem[..], m.role, d, v);
    }
  }

  // The page directory that a reference belongs to.
  ghost function Owner(role: seq<Role>, s: Slot): nat {
    match s
    case DirUse(d) => d
    case PdeUse(d, _) => d
    case PteUse(t, _) => if t < |role| && role[t].Table? then role[t].d else 0
  }

  // Page f is referred to, and by the address space of d alone.
  ghost predicate OnlyHeldBy(mem: Memory, role: seq<Role>, d: nat, f: nat)
    requires |role| == |mem|
  {
    Refs(mem, role, f) != {} && forall s :: s in Refs(mem, role, f) ==> Owner(role, s) == d
  }

  /** What env_free keeps while it takes down directory d: the directories and
      tables of the others, and pages in no table. */
  ghost predicate LeavesOthers(mem: Memory, role: seq<Role>, mem': Memory, role': seq<Role>, d: nat) {
    && |mem| == |role| == |mem'| == |role'|
    && (forall g {:trigger role'[g]} :: 0 <= g < |role| ==>
          role'[g] == role[g] || (role'[g] == Free && (role[g] == Data || (role[g].Table? && role[g].d == d))))
    && (forall g {:trigger role'[g]} :: 0 <= g < |role| && role[g].Table? && role[g].d != d ==> role'[g] == role[g])
    && (forall g {:trigger mem'[g]} :: 0 <= g < |mem| && g != d && !(role[g].Table? && role[g].d == d) ==> mem'[g] == mem[g])
  }

  lemma FreedExactly(mem: Memory, role: seq<Role>, ref: seq<nat>, mem': Memory, role': seq<Role>, ref': seq<nat>, d: nat)
    requires Sound(mem, role, ref, multiset{}) && Sound(mem', role', ref', multiset{})
    requires d < |role| && role[d] == Dir && |role| == |role'| && role'[d] == Free
    requires LeavesOthers(mem, role, mem', role'[d := Dir], d)
    ensures forall f: nat :: f < |role| ==> (role'[f] == Free <==> role[f] == Free || OnlyHeldBy(mem, role, d, f))
  {
    forall f: nat | f < |role|
      ensures role'[f] == Free <==> role[f] == Free || OnlyHeldBy(mem, role, d, f)
    {
      RefsOfOthers(mem, role, mem', role', d, f);
      assert CountOk(mem, role, ref, multiset{}, f) && CountOk(mem', role', ref', multiset{}, f);
      assert f != d ==> role'[f] == role'[d := Dir][f];
      assert TableOk(mem', role', f);
      if role[f] in {Reserved, Free, Transit} {
        ReferredRole(mem, role, f);
      }
      if role[f].Dir? || role[f].Table? {
        SoleReference(mem, role, f);
        var s0 := if role[f].Dir? then DirUse(f) else PdeUse(role[f].d, role[f].i);
        assert s0 in Refs(mem, role, f);
      } else if role'[f] == Data {
        assert Refs(mem', role', f) != {};
        var s :| s in Refs(mem', role', f);
        assert s in Refs(mem, role, f) && Owner(role, s) != d;
      }
    }
  }

  // What is left are the references that d did not hold.
  lemma RefsOfOthers(mem: Memory, role: seq<Role>, mem': Memory, role': seq<Role>, d: nat, f: nat)
    requires TablesOk(mem, role) && TablesOk(mem', role')
    requires d < |role| && role[d] == Dir && |role| == |role'| && role'[d] == Free
    requires LeavesOthers(mem, role, mem', role'[d := Dir], d)
    ensures forall s :: s in Refs(mem', role', f) <==> s in Refs(mem, role, f) && Owner(role, s) != d
  {
    var role1 := role'[d := Dir];
    forall s ensures Refers(mem', role', s, f) <==> Refers(mem, role, s, f) && Owner(role, s) != d {
      match s
      case DirUse(e) =>
        assert e < |role| ==> role1[e] == role1[e];
      case PdeUse(e, i) =>
        assert e < |role| ==> role1[e] == role1[e];
      case PteUse(t, j) =>
        if t < |role| {
          assert role1[t] == role1[t];
          assert TableOk(mem', role', t);
        }
    }
  }

  predicate CheckPerm(perm: nat) {
    perm < PGSIZE && perm % 2 == 1 && perm / PTE_U % 2 == 1 && perm / 8 % 64 == 0
  }

  /** check_perm by bits: PTE_U and PTE_P are there, and nothing but PTE_SYSCALL is. */
  lemma CheckPermIsMask(perm: nat)
    ensures CheckPerm(perm) <==> Within(PTE_U + PTE_P, perm) && Within(perm, PTE_SYSCALL)
  {
    WithinSyscall(perm);
  }

  // Only data pages change role, and they become free.
  ghost predicate ReleasesDataOnly(role: seq<Role>, role': seq<Role>) {
    && |role| == |role'|
    && forall g {:trigger role'[g]} :: 0 <= g < |role| ==> role'[g] == role[g] || (role[g] == Data && role'[g] == Free)
  }

  lemma NoTablesNoRefs(mem: Memory, role: seq<Role>, ref: seq<nat>)
    requires |mem| == |role| == |ref| && |mem| <= MAXFRAMES
    requires forall f :: 0 <= f < |role| ==> role[f] in {Free, Reserved} && ref[f] == 0
    ensures Sound(mem, role, ref, multiset{})
  {
    forall f: nat | f < |mem| ensures CountOk(mem, role, ref, multiset{}, f) {
      assert forall s :: !Refers(mem, role, s, f);
      assert Refs(mem, role, f) == {};
    }
    forall t: nat | t < |mem| ensures TableOk(mem, role, t) {
    }
  }
}
