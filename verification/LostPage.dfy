/** env_page_alloc keeps a page that it cannot map (sched/kern/syscall.c): a run
    from boot, on a machine with three pages, that ends with a page lost. Such a page
    is on no list and in no table, and no operation of the kernel gets it back. */
module LostPage {
  import opened Common
  import opened Mmu
  import opened PageTables
  import opened Pmap

  /** A page in transit, once no kernel function runs, is neither on the free list
      nor counted nor mapped by anybody. */
  lemma TransitIsUnreachable(m: Machine, p: nat)
    requires m.Valid(multiset{}) && p < m.npages && m.role[p] == Transit
    ensures p !in m.free && m.ppRef[p] == 0
    ensures forall d, v :: 0 <= d < m.npages && m.IsDir(d) && v in m.SpaceOf(d) ==> m.SpaceOf(d)[v].frame != p
  {
    assert CountOk(m.mem[..], m.role, m.ppRef[..], multiset{}, p);
    forall d, v | 0 <= d < m.npages && m.IsDir(d) && v in m.SpaceOf(d) ensures m.SpaceOf(d)[v].frame != p {
      MappedIsData(m.mem[..], m.role, d, v);
    }
  }

  // A machine of three pages, of which one is the first environment's directory, one
  // is free and the other is the kernel's.
  method BootWithThree() returns (m: Machine, d: nat)
    ensures fresh(m) && fresh(m.mem) && fresh(m.ppRef) && fresh(m.ppLink)
    ensures m.Valid(multiset{}) && m.IsDir(d) && m.npages == 3 && m.free == [1] && m.SpaceOf(d) == map[] && m.mem[d][0] == 0
  {
    var memory := new Page[3](_ => seq(NENTRIES, _ => 0));
    m := new Machine.Boot(memory, 0);
    m.PageInit(0);
    assert InitialFree(3, 0) == [2, 1] by {
      assert InitialFree(1, 0) == [] && InitialFree(2, 0) == [1];
    }
    ghost var twoFree := m.free;
    var dir := m.EnvSetupVm();
    d := dir.value;
    assert m.free == twoFree[1..] == [1];
  }

  /** The first page allocation of the first environment takes the last free page,
      finds no memory for a page table, and fails. The page is gone. */
  method AllocationLosesThePage() returns (m: Machine, d: nat, p: nat, r: Status)
    ensures fresh(m) && m.Valid(multiset{}) && m.IsDir(d) && r == NoMem
    ensures p < m.npages && m.role[p] == Transit && p !in m.free && m.ppRef[p] == 0
    ensures forall v :: v in m.SpaceOf(d) ==> m.SpaceOf(d)[v].frame != p
  {
    m, d := BootWithThree();
    p := 1;
    r := m.EnvPageAlloc(d, 0, PTE_P + PTE_U);
    TransitIsUnreachable(m, p);
  }
}
