/** Address splitting and page table entries of 32-bit x86 paging, as arithmetic
    on machine words (sched/inc/mmu.h, sched/inc/memlayout.h). */
module Mmu {

  type Word = w: int | 0 <= w < 0x1_0000_0000

  const PGSIZE := 4096
  const NENTRIES := 1024
  const UTOP: Word := 0xeec0_0000
  // Page directory slots below UTOP: the user part of an address space.
  const NUPDE := 955
  // Virtual pages below UTOP.
  const NUVPN := NUPDE * NENTRIES

  const PTE_P := 1
  const PTE_W := 2
  const PTE_U := 4

  function Pgnum(va: Word): nat { va / PGSIZE }

  function Pdx(va: Word): (i: nat)
    ensures i < NENTRIES
  {
    va / 0x40_0000 % 1024
  }

  function Ptx(va: Word): (j: nat)
    ensures j < NENTRIES
  {
    va / PGSIZE % 1024
  }

  function Pgoff(va: Word): nat { va % PGSIZE }

  function Pgaddr(d: nat, t: nat, o: nat): (va: Word)
    requires d < NENTRIES && t < NENTRIES && o < PGSIZE
  {
    d * 0x40_0000 + t * PGSIZE + o
  }

  /** Splitting and rebuilding a linear address are inverse, and the page number
      is the pair of table indices. */
  lemma AddressSplit(va: Word)
    ensures Pgaddr(Pdx(va), Ptx(va), Pgoff(va)) == va
    ensures Pgnum(va) == Pdx(va) * NENTRIES + Ptx(va)
    ensures va < UTOP <==> Pdx(va) < NUPDE
  {
    var p := va / PGSIZE;
    assert va / 0x40_0000 == p / 1024;
  }

  lemma AddressBuild(d: nat, t: nat, o: nat)
    requires d < NENTRIES && t < NENTRIES && o < PGSIZE
    ensures Pdx(Pgaddr(d, t, o)) == d && Ptx(Pgaddr(d, t, o)) == t && Pgoff(Pgaddr(d, t, o)) == o
  {
    var va := Pgaddr(d, t, o);
    assert va / PGSIZE == d * 1024 + t;
    assert va / 0x40_0000 == d;
  }

  // `perm | PTE_P` for twelve-bit permissions
  function WithP(perm: nat): (flags: nat)
    requires perm < PGSIZE
    ensures flags < PGSIZE && flags % 2 == 1
  {
    if perm % 2 == 1 then perm else perm + 1
  }

  function PteFrame(pte: Word): nat { pte / PGSIZE }

  function PteFlags(pte: Word): nat { pte % PGSIZE }

  predicate Writable(flags: nat) { flags / PTE_W % 2 == 1 }

  // A physical page: data, a page table or a page directory.
  type Page = p: seq<Word> | |p| == NENTRIES witness seq(NENTRIES, _ => 0)

  type Memory = seq<Page>

  // One entry of the flat map from virtual pages to physical pages.
  datatype Mapping = Mapping(frame: nat, flags: nat)

  type FlatMap = map<nat, Mapping>

  ghost function Write(mem: Memory, f: nat, k: nat, w: Word): (m: Memory)
    requires f < |mem| && k < NENTRIES
    ensures |m| == |mem|
  {
    mem[f := mem[f][k := w]]
  }
}
