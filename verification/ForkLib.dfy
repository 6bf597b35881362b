/** The user-level fork (sched/lib/fork.c) on the kernel's real page tables. Every
    method, and every other memory operation of a program, is shown to take the steps
    of the Cow state machine, whose refinement of eager copying so holds of the
    kernel. */
module ForkLib {
  import opened Common
  import opened Entries
  import opened Mmu
  import opened PageTables
  import opened Pmap
  import C = Cow

  // All address spaces as the copy-on-write machine sees them.
  ghost function Abs(m: Machine, phase: map<nat, C.Phase>): (s: C.Vm)
    requires m.mem.Length == m.npages
    reads m, m.mem
    ensures forall d: nat, v: nat {:trigger C.Mapped(s, d, v)} ::
      C.Mapped(s, d, v) <==> d < m.npages && m.IsDir(d) && v in m.SpaceOf(d)
    ensures forall d: nat :: d in s.spaces <==> d < m.npages && m.IsDir(d)
    ensures forall d: nat :: d in s.spaces ==> s.spaces[d] == m.SpaceOf(d)
    ensures s.frames == m.mem[..] && s.phase == phase
  {
    C.Vm(map d: nat | d < m.npages && m.IsDir(d) :: m.SpaceOf(d), m.mem[..], phase)
  }

  lemma OneSpaceChanged(a: map<nat, FlatMap>, b: map<nat, FlatMap>, d: nat, space: FlatMap)
    requires d in a && a.Keys == b.Keys && b[d] == space
    requires forall e :: e in a && e != d ==> b[e] == a[e]
    ensures b == C.Set(a, d, space)
  {
  }

  lemma SpaceAdded(a: map<nat, FlatMap>, b: map<nat, FlatMap>, c: nat)
    requires c !in a && b.Keys == a.Keys + {c} && b[c] == map[]
    requires forall e :: e in a ==> b[e] == a[e]
    ensures b == a[c := map[]]
  {
  }

  // Pages that hold data are the only ones that mappings show.
  lemma DataPagesKept(mem: Memory, role: seq<Role>, s: C.Vm, s': C.Vm)
    requires TablesOk(mem, role) && s.frames == mem && |s'.frames| == |mem|
    requires forall d: nat :: d in s.spaces ==> d < |mem| && role[d] == Dir && s.spaces[d] == Space(mem, d)
    requires forall g :: 0 <= g < |mem| && role[g] == Data ==> s'.frames[g] == mem[g]
    ensures C.KeepsFrames(s, s') && C.InBounds(s)
  {
    forall d: nat, v: nat | C.Mapped(s, d, v)
      ensures v < NUVPN && C.FrameOf(s, d, v) < |mem| && s'.frames[C.FrameOf(s, d, v)] == mem[C.FrameOf(s, d, v)]
    {
      MappedIsData(mem, role, d, v);
    }
  }

  lemma FreeIsUnused(mem: Memory, role: seq<Role>, s: C.Vm, f: nat)
    requires TablesOk(mem, role) && f < |mem| && role[f] == Free
    requires forall d: nat :: d in s.spaces ==> d < |mem| && role[d] == Dir && s.spaces[d] == Space(mem, d)
    ensures C.Unused(s, f)
  {
    forall d: nat, v: nat | C.Mapped(s, d, v) ensures C.FrameOf(s, d, v) != f {
      MappedIsData(mem, role, d, v);
    }
  }

  function Va(v: nat): Word
    requires v < NUVPN
  {
    v * PGSIZE
  }

  lemma VaIsPage(v: nat)
    requires v < NUVPN
    ensures Va(v) < UTOP && Pgnum(Va(v)) == v
  {
  }

  /** uvpt[v]: the table entry of virtual page v. */
  method ReadPte(m: Machine, d: nat, v: nat) returns (pte: Option<Mapping>)
    requires m.Valid(multiset{}) && m.IsDir(d) && v < NUVPN
    ensures pte == if v in m.SpaceOf(d) then Some(m.SpaceOf(d)[v]) else None
    ensures pte.Some? ==> pte.value.frame < m.npages && m.role[pte.value.frame] == Data
  {
    VaIsPage(v);
    var page, place := m.PageLookup(d, Va(v), multiset{});
    if page.None? {
      return None;
    }
    return Some(Mapping(page.value, PteFlags(m.mem[place.value.0][place.value.1])));
  }

  // A store through a mapping replaces the contents of a data page.
  method StorePage(m: Machine, f: nat, page: Page, ghost phase: map<nat, C.Phase>)
    requires m.Valid(multiset{}) && f < m.npages && m.role[f] == Data
    modifies m.mem
    ensures m.Valid(multiset{})
    ensures var s := old(Abs(m, phase)); Abs(m, phase) == C.Vm(s.spaces, s.frames[f := page], phase)
  {
    ghost var before, s := m.mem[..], Abs(m, phase);
    SoundAfterDataStore(before, m.role, m.ppRef[..], multiset{}, f, page);
    m.mem[f] := page;
    assert m.mem[..] == before[f := page];
    assert Abs(m, phase).spaces == s.spaces;
  }

  /** memmove of a whole page between two mapped addresses of d. */
  method CopyPage(m: Machine, d: nat, src: nat, dst: nat, ghost phase: map<nat, C.Phase>)
    requires m.Valid(multiset{}) && m.IsDir(d)
    requires src in m.SpaceOf(d) && dst in m.SpaceOf(d)
    modifies m.mem
    ensures m.Valid(multiset{})
    ensures var s := old(Abs(m, phase));
            && C.FrameOf(s, d, src) < |s.frames| && C.FrameOf(s, d, dst) < |s.frames|
            && Abs(m, phase) == C.Vm(s.spaces, s.frames[C.FrameOf(s, d, dst) := s.frames[C.FrameOf(s, d, src)]], phase)
  {
    var from := ReadPte(m, d, src);
    var to := ReadPte(m, d, dst);
    StorePage(m, to.value.frame, m.mem[from.value.frame], phase);
  }

  // One mapping of one address space is new.
  lemma OneMapping(mem: Memory, role: seq<Role>, s: C.Vm, s': C.Vm, d: nat, v: nat, x: Mapping)
    requires TablesOk(mem, role) && s.frames == mem && |s'.frames| == |mem|
    requires forall e: nat :: e in s.spaces ==> e < |mem| && role[e] == Dir && s.spaces[e] == Space(mem, e)
    requires forall g :: 0 <= g < |mem| && role[g] == Data ==> s'.frames[g] == mem[g]
    requires d in s.spaces && s'.spaces.Keys == s.spaces.Keys && s'.spaces[d] == s.spaces[d][v := x]
    requires forall e :: e in s.spaces && e != d ==> s'.spaces[e] == s.spaces[e]
    ensures C.KeepsFrames(s, s') && s'.spaces == C.SetMapping(s.spaces, d, v, x)
  {
    DataPagesKept(mem, role, s, s');
    OneSpaceChanged(s.spaces, s'.spaces, d, s'.spaces[d]);
  }

  // The page that sv of src shows, or 0.
  ghost function FrameAt(m: Machine, src: nat, sv: nat): nat
    requires src < m.mem.Length
    reads m, m.mem
  {
    if sv in m.SpaceOf(src) then m.SpaceOf(src)[sv].frame else 0
  }

  /** sys_page_map of one page: refused exactly for an unmapped source or added
      write access. PTE_P and PTE_U are added to the permissions and nothing is
      taken off them: the mapping shows the source's page, and the kernel's counts
      stay exact, if and only if they have no frame bits but those of the page. */
  method SysPageMap(m: Machine, src: nat, sv: nat, dst: nat, dv: nat, perm: Word, ghost phase: map<nat, C.Phase>)
    returns (r: Status)
    requires m.Valid(multiset{}) && m.IsDir(src) && m.IsDir(dst) && sv < NUVPN && dv < NUVPN
    modifies m`pageFreeList, m`role, m`free, m.ppLink, m.ppRef, m.mem
    ensures m.Shape() && forall e :: 0 <= e < m.npages ==> (m.IsDir(e) <==> old(m.IsDir(e)))
    ensures r == Inval <==> sv !in old(m.SpaceOf(src)) || (Writable(perm) && !Writable(old(m.SpaceOf(src))[sv].flags))
    ensures r == NoMem ==> m.free == []
    ensures r != Ok ==> m.Valid(multiset{}) && Abs(m, phase) == old(Abs(m, phase))
    ensures r == Ok ==> old(FrameAt(m, src, sv)) < m.npages <= MAXFRAMES
    ensures r == Ok ==> (m.Valid(multiset{}) <==> KeepsFrame(old(FrameAt(m, src, sv)), perm))
    ensures r == Ok ==> var s, s' := old(Abs(m, phase)), Abs(m, phase);
                && C.KeepsFrames(s, s') && dst in s.spaces
                && s'.spaces == C.SetMapping(s.spaces, dst, dv, Mapping(EntryFrame(old(FrameAt(m, src, sv)), perm), WithPU(perm) % PGSIZE))
  {
    VaIsPage(sv);
    VaIsPage(dv);
    WithPUKeepsRest(perm);
    ghost var mem0, role0, s := m.mem[..], m.role, Abs(m, phase);
    r := m.EnvPageMap(src, Va(sv), dst, Va(dv), WithPU(perm));
    if r == Ok {
      EntryWithPU(old(FrameAt(m, src, sv)), perm);
      OneMapping(mem0, role0, s, Abs(m, phase), dst, dv, Mapping(EntryFrame(old(FrameAt(m, src, sv)), perm), WithPU(perm) % PGSIZE));
    } else {
      SameSpaces(s.spaces, Abs(m, phase).spaces);
    }
  }

  // sys_page_map of a mapped page with the twelve bits of proper permissions.
  method MapPage(m: Machine, src: nat, sv: nat, dst: nat, dv: nat, perm: Word, ghost phase: map<nat, C.Phase>)
    returns (r: Status)
    requires m.Valid(multiset{}) && m.IsDir(src) && m.IsDir(dst)
    requires sv in m.SpaceOf(src) && dv < NUVPN && perm < PGSIZE && perm % 2 == 1 && C.IsUser(perm)
    requires Writable(perm) ==> Writable(m.SpaceOf(src)[sv].flags)
    modifies m`pageFreeList, m`role, m`free, m.ppLink, m.ppRef, m.mem
    ensures m.Valid(multiset{})
    ensures forall e :: 0 <= e < m.npages ==> (m.IsDir(e) <==> old(m.IsDir(e)))
    ensures r in {Ok, NoMem} && (r == NoMem ==> m.free == [])
    ensures r == Ok ==> C.Maps(old(Abs(m, phase)), Abs(m, phase), src, sv, dst, dv, perm)
  {
    WithPUKeepsRest(perm);
    r := SysPageMap(m, src, sv, dst, dv, perm, phase);
  }

  lemma SameSpaces(a: map<nat, FlatMap>, b: map<nat, FlatMap>)
    requires a.Keys == b.Keys && forall e :: e in a ==> b[e] == a[e]
    ensures a == b
  {
  }

  /** duppage: one sharing step, or a panic when the child's page table cannot
      be allocated. */
  method Duppage(m: Machine, p: nat, c: nat, v: nat, ghost phase: map<nat, C.Phase>) returns (ok: bool)
    requires m.Valid(multiset{}) && m.IsDir(p) && m.IsDir(c) && p != c
    requires v in m.SpaceOf(p) && v !in m.SpaceOf(c) && C.Visible(v)
    requires p in phase && c in phase && phase[p] == phase[c] == C.Idle
    modifies m`pageFreeList, m`role, m`free, m.ppLink, m.ppRef, m.mem
    ensures m.Valid(multiset{})
    ensures forall e :: 0 <= e < m.npages ==> (m.IsDir(e) <==> old(m.IsDir(e)))
    ensures ok ==> C.Next(old(Abs(m, phase)), C.Dup(p, c, v), Abs(m, phase))
    ensures !ok ==> m.free == []
  {
    ghost var s := Abs(m, phase);
    var pte := ReadPte(m, p, v);
    var shared, perm := DupPerm(pte.value.flags);
    assert Abs(m, phase) == s;
    if shared {
      ok := ShareCow(m, p, c, v, perm, phase);
    } else {
      ok := ShareReadOnly(m, p, c, v, perm, phase);
    }
  }

  // The permissions of the copies, and whether ours changes too.
  method DupPerm(flags: nat) returns (shared: bool, perm: nat)
    ensures shared == C.IsShared(flags) && perm == C.DupFlags(flags)
    ensures !Writable(perm) && perm < PGSIZE && perm % 2 == 1 && C.IsUser(perm)
    ensures perm / C.PTE_COW % 2 == 1 <==> shared
    ensures perm / 8 % 4 == (if flags / 8 % 4 == 0 then 0 else 3) && perm / 32 % 64 == 0
    ensures shared <==> Writable(flags) || flags / C.PTE_COW % 2 == 1
  {
    perm := PTE_U + PTE_P;
    if flags / 8 % 4 != 0 {
      perm := perm + C.PTE_CACHE;
    }
    shared := Writable(flags) || flags / C.PTE_COW % 2 == 1;
    if shared {
      perm := perm + C.PTE_COW;
    }
  }

  method ShareReadOnly(m: Machine, p: nat, c: nat, v: nat, perm: Word, ghost phase: map<nat, C.Phase>) returns (ok: bool)
    requires m.Valid(multiset{}) && m.IsDir(p) && m.IsDir(c) && p != c
    requires v in m.SpaceOf(p) && v !in m.SpaceOf(c) && C.Visible(v)
    requires p in phase && c in phase && phase[p] == phase[c] == C.Idle
    requires !C.IsShared(m.SpaceOf(p)[v].flags) && perm == C.DupFlags(m.SpaceOf(p)[v].flags)
    modifies m`pageFreeList, m`role, m`free, m.ppLink, m.ppRef, m.mem
    ensures m.Valid(multiset{})
    ensures forall e :: 0 <= e < m.npages ==> (m.IsDir(e) <==> old(m.IsDir(e)))
    ensures ok ==> C.Next(old(Abs(m, phase)), C.Dup(p, c, v), Abs(m, phase))
    ensures !ok ==> m.free == []
  {
    ghost var s := Abs(m, phase);
    C.DupFlagsAreReadOnly(s.spaces[p][v].flags);
    var r := MapPage(m, p, v, c, v, perm, phase);
    if r != Ok {
      return false;
    }
    C.OneMapIsDup(s, Abs(m, phase), p, c, v);
    return true;
  }

  // The two sys_page_map calls of duppage: the child's mapping, then our own.
  method ShareCow(m: Machine, p: nat, c: nat, v: nat, perm: Word, ghost phase: map<nat, C.Phase>) returns (ok: bool)
    requires m.Valid(multiset{}) && m.IsDir(p) && m.IsDir(c) && p != c
    requires v in m.SpaceOf(p) && v !in m.SpaceOf(c) && C.Visible(v)
    requires p in phase && c in phase && phase[p] == phase[c] == C.Idle
    requires C.IsShared(m.SpaceOf(p)[v].flags) && perm == C.DupFlags(m.SpaceOf(p)[v].flags)
    modifies m`pageFreeList, m`role, m`free, m.ppLink, m.ppRef, m.mem
    ensures m.Valid(multiset{})
    ensures forall e :: 0 <= e < m.npages ==> (m.IsDir(e) <==> old(m.IsDir(e)))
    ensures ok ==> C.Next(old(Abs(m, phase)), C.Dup(p, c, v), Abs(m, phase))
    ensures !ok ==> m.free == []
  {
    ghost var s := Abs(m, phase);
    C.DupFlagsAreReadOnly(s.spaces[p][v].flags);
    MapsAreInBounds(m, phase);
    var r := MapPage(m, p, v, c, v, perm, phase);
    if r != Ok {
      return false;
    }
    ghost var s1 := Abs(m, phase);
    assert C.Mapped(s1, p, v);
    r := MapPage(m, p, v, p, v, perm, phase);
    if r != Ok {
      return false;
    }
    C.TwoMapsAreDup(s, s1, Abs(m, phase), p, c, v);
    return true;
  }

  lemma MapsAreInBounds(m: Machine, phase: map<nat, C.Phase>)
    requires m.Valid(multiset{})
    ensures C.InBounds(Abs(m, phase))
  {
    DataPagesKept(m.mem[..], m.role, Abs(m, phase), Abs(m, phase));
  }

  /** sys_page_alloc of a writable page: a fresh zeroed page. */
  method SysPageAlloc(m: Machine, d: nat, v: nat, ghost phase: map<nat, C.Phase>) returns (ok: bool)
    requires m.Valid(multiset{}) && m.IsDir(d) && v < NUVPN
    modifies m`pageFreeList, m`role, m`free, m.ppLink, m.ppRef, m.mem
    ensures m.Valid(multiset{})
    ensures forall e :: 0 <= e < m.npages ==> (m.IsDir(e) <==> old(m.IsDir(e)))
    ensures ok ==> v in m.SpaceOf(d) && m.SpaceOf(d)[v].flags == C.PERM_RW
    ensures ok ==> C.Allocates(old(Abs(m, phase)), Abs(m, phase), d, v, m.SpaceOf(d)[v].frame)
    ensures ok ==> forall u :: u != v ==> (u in m.SpaceOf(d) <==> u in old(m.SpaceOf(d)))
    ensures !ok ==> m.free == []
  {
    VaIsPage(v);
    ghost var mem0, role0, free0, s := m.mem[..], m.role, m.free, Abs(m, phase);
    var r := m.EnvPageAlloc(d, Va(v), C.PERM_RW);
    ok := r == Ok;
    if ok {
      assert free0[0] in free0;
      DataPagesKept(mem0, role0, s, Abs(m, phase));
      FreeIsUnused(mem0, role0, s, free0[0]);
      OneSpaceChanged(s.spaces, Abs(m, phase).spaces, d, m.SpaceOf(d));
      assert m.mem[free0[0]] == C.ZeroPage();
    }
  }

  method SysPageUnmap(m: Machine, d: nat, v: nat, ghost phase: map<nat, C.Phase>)
    requires m.Valid(multiset{}) && m.IsDir(d) && v < NUVPN
    modifies m`pageFreeList, m`role, m`free, m.ppLink, m.ppRef, m.mem
    ensures m.Valid(multiset{})
    ensures forall e :: 0 <= e < m.npages ==> (m.IsDir(e) <==> old(m.IsDir(e)))
    ensures C.KeepsFrames(old(Abs(m, phase)), Abs(m, phase))
    ensures Abs(m, phase).spaces == C.DropMapping(old(Abs(m, phase)).spaces, d, v)
  {
    VaIsPage(v);
    ghost var mem0, role0, s := m.mem[..], m.role, Abs(m, phase);
    m.PageRemove(d, Va(v), multiset{});
    DataPagesKept(mem0, role0, s, Abs(m, phase));
    OneSpaceChanged(s.spaces, Abs(m, phase).spaces, d, m.SpaceOf(d));
  }

  /** pgfault's test for a write fault on a page that is not copy-on-write joins
      its two halves with a bitwise and, which is zero for every error code and
      table entry; joined logically, they would tell exactly such faults. */
  lemma CowTestNeverFires(err: bv32, pte: bv32)
    ensures (err & 2) & (if pte & 0x800 == 0 then 1 else 0) == 0
    ensures ((err & 2) & (if pte & 0x800 == 0 then 1 else 0) != 0 <==> err & 2 != 0 && pte & 0x800 == 0)
            <==> err & 2 == 0 || pte & 0x800 != 0
  {
    assert err & 2 == 0 || err & 2 == 2;
  }

  // The copy to PFTEMP, and its move to page v.
  method MoveCopy(m: Machine, d: nat, v: nat, ghost phase: map<nat, C.Phase>) returns (ok: bool, ghost t2: C.Vm, ghost t3: C.Vm)
    requires m.Valid(multiset{}) && m.IsDir(d)
    requires v in m.SpaceOf(d) && C.PFTEMP in m.SpaceOf(d) && Writable(m.SpaceOf(d)[C.PFTEMP].flags)
    modifies m`pageFreeList, m`role, m`free, m.ppLink, m.ppRef, m.mem
    ensures m.Valid(multiset{})
    ensures forall e :: 0 <= e < m.npages ==> (m.IsDir(e) <==> old(m.IsDir(e)))
    ensures ok ==>
              var t1, t4 := old(Abs(m, phase)), Abs(m, phase);
              && C.Mapped(t1, d, C.PFTEMP) && C.Mapped(t1, d, v) && C.FrameOf(t1, d, v) < |t1.frames|
              && C.FrameOf(t1, d, C.PFTEMP) < |t1.frames|
              && t2 == C.Vm(t1.spaces, t1.frames[C.FrameOf(t1, d, C.PFTEMP) := t1.frames[C.FrameOf(t1, d, v)]], phase)
              && C.Maps(t2, t3, d, C.PFTEMP, d, v, C.PERM_RW)
              && C.KeepsFrames(t3, t4) && d in t3.spaces && t4.spaces == C.DropMapping(t3.spaces, d, C.PFTEMP)
    ensures !ok ==> m.free == []
  {
    CopyPage(m, d, v, C.PFTEMP, phase);
    t2 := Abs(m, phase);
    t3 := t2;
    assert C.Mapped(t2, d, C.PFTEMP);
    var r := MapPage(m, d, C.PFTEMP, d, v, C.PERM_RW, phase);
    ok := r == Ok;
    if ok {
      t3 := Abs(m, phase);
      SysPageUnmap(m, d, C.PFTEMP, phase);
    }
  }

  datatype Outcome = Resumed | Panicked | FaultsAgain

  /** pgfault, for a fault at page v of d. As the test never fires, every mapped page
      is copied: the four steps of the handler, one after the other. An unmapped
      page gets nothing: the copy faults again at the same page. */
  method Pgfault(m: Machine, d: nat, v: nat, ghost phase: map<nat, C.Phase>) returns (out: Outcome, ghost run: seq<C.Vm>, ghost f: nat)
    requires m.Valid(multiset{}) && m.IsDir(d)
    requires C.Visible(v) && (v in m.SpaceOf(d) ==> !Writable(m.SpaceOf(d)[v].flags))
    requires d in phase && phase[d] == C.Idle
    modifies m`pageFreeList, m`role, m`free, m.ppLink, m.ppRef, m.mem
    ensures m.Valid(multiset{})
    ensures forall e :: 0 <= e < m.npages ==> (m.IsDir(e) <==> old(m.IsDir(e)))
    ensures out == Panicked ==> m.free == []
    ensures out != Panicked ==> (out == FaultsAgain <==> v !in old(m.SpaceOf(d)))
    ensures out == FaultsAgain ==> v !in m.SpaceOf(d) && C.Allocates(old(Abs(m, phase)), Abs(m, phase), d, C.PFTEMP, f)
    ensures out == Resumed ==>
              && |run| == 5 && run[0] == old(Abs(m, phase)) && run[4] == Abs(m, phase)
              && C.IsRun(run, [C.PfAlloc(d, v, f), C.PfCopy(d), C.PfMap(d), C.PfUnmap(d)])
  {
    ghost var s := Abs(m, phase);
    run, f := [], 0;
    var ok := SysPageAlloc(m, d, C.PFTEMP, phase);
    if !ok {
      return Panicked, run, f;
    }
    f := m.SpaceOf(d)[C.PFTEMP].frame;
    ghost var t1 := Abs(m, phase);
    var pte := ReadPte(m, d, v);
    assert Abs(m, phase) == t1;
    if pte.None? {
      return FaultsAgain, run, f;
    }
    ghost var t2, t3;
    ok, t2, t3 := MoveCopy(m, d, v, phase);
    if !ok {
      return Panicked, run, f;
    }
    C.CallsArePgfault(s, t1, t2, t3, Abs(m, phase), d, v, f);
    run := [s, C.InPhase(t1, d, C.Alloced(v)), C.InPhase(t2, d, C.Copied(v)), C.InPhase(t3, d, C.Moved(v)), Abs(m, phase)];
    out := Resumed;
  }

  /** sys_exofork: a new environment with an empty address space. */
  method SysExofork(m: Machine, ghost phase: map<nat, C.Phase>) returns (c: Option<nat>)
    requires m.Valid(multiset{})
    modifies m`pageFreeList, m`role, m`free, m.ppLink, m.ppRef, m.mem
    ensures m.Valid(multiset{})
    ensures c.None? ==> m.free == []
    ensures c.Some? ==> m.IsDir(c.value) && C.Next(old(Abs(m, phase)), C.Exofork(c.value), Abs(m, phase[c.value := C.Idle]))
  {
    ghost var mem0, role0, s := m.mem[..], m.role, Abs(m, phase);
    c := m.EnvSetupVm();
    if c.Some? {
      ghost var s' := Abs(m, phase[c.value := C.Idle]);
      DataPagesKept(mem0, role0, s, s');
      SpaceAdded(s.spaces, s'.spaces, c.value);
    }
  }

  // The loop of fork over all pages below UTOP.
  method ShareAll(m: Machine, p: nat, c: nat, ghost view: C.View, ghost users: set<nat>, ghost phase: map<nat, C.Phase>) returns (ok: bool)
    requires m.Valid(multiset{}) && m.IsDir(p) && m.IsDir(c) && p != c
    requires C.Inv(Abs(m, phase)) && C.ForkedUpTo(Abs(m, phase), view, users, p, c, 0)
    modifies m`pageFreeList, m`role, m`free, m.ppLink, m.ppRef, m.mem
    ensures m.Valid(multiset{})
    ensures !ok ==> m.free == []
    ensures ok ==> m.IsDir(c) && C.Inv(Abs(m, phase)) && C.ForkedUpTo(Abs(m, phase), view, users, p, c, NUVPN)
  {
    for v := 0 to NUVPN
      invariant m.Valid(multiset{}) && m.IsDir(p) && m.IsDir(c)
      invariant C.Inv(Abs(m, phase)) && C.ForkedUpTo(Abs(m, phase), view, users, p, c, v)
    {
      ghost var s := Abs(m, phase);
      var pte := ReadPte(m, p, v);
      assert Abs(m, phase) == s;
      assert C.Mapped(s, p, v) <==> pte.Some?;
      if v == C.EXSTK || pte.None? || pte.value.flags / PTE_U % 2 == 0 {
        assert pte.Some? ==> (C.IsUser(pte.value.flags) <==> v in users);
        C.ForkSkips(s, view, users, p, c, v);
        continue;
      }
      assert C.PhaseOk(s, p);
      ok := Duppage(m, p, c, v, phase);
      if !ok {
        return;
      }
      C.ForkShares(s, Abs(m, phase), view, users, p, c, v);
    }
    ok := true;
  }

  /** fork: the child reads, at every page that carries PTE_U, what the parent reads
      (InheritedIsAll), nobody else sees a difference, and the child has its own
      exception stack. */
  method Fork(m: Machine, p: nat, ghost phase: map<nat, C.Phase>) returns (c: Option<nat>)
    requires m.Valid(multiset{}) && m.IsDir(p) && C.Inv(Abs(m, phase)) && p in phase && phase[p] == C.Idle
    modifies m`pageFreeList, m`role, m`free, m.ppLink, m.ppRef, m.mem
    ensures m.Valid(multiset{})
    ensures c.Some? ==>
              var s, s' := old(Abs(m, phase)), Abs(m, phase[c.value := C.Idle]);
              && c.value !in s.spaces && C.Inv(s')
              && C.Views(s') == C.Views(s)[c.value := C.Inherited(s, p)]
              && C.Mapped(s', c.value, C.EXSTK) && C.CanWrite(s', c.value, C.EXSTK)
    ensures c.None? ==> m.free == []
  {
    ghost var s0 := Abs(m, phase);
    ghost var view, users := C.Views(s0), C.UserPages(s0, p);
    c := SysExofork(m, phase);
    if c.None? {
      return;
    }
    var child := c.value;
    ghost var idle := phase[child := C.Idle];
    C.ForkStarts(s0, Abs(m, idle), p, child);
    var ok := ShareAll(m, p, child, view, users, idle);
    if !ok {
      return None;
    }
    ghost var s := Abs(m, idle);
    ok := SysPageAlloc(m, child, C.EXSTK, idle);
    if !ok {
      return None;
    }
    C.ForkEnds(s0, s, Abs(m, idle), p, child, m.SpaceOf(child)[C.EXSTK].frame);
  }

  /** A program's store of one word to a page that it may write. */
  method StoreWord(m: Machine, d: nat, v: nat, k: nat, w: Word, ghost phase: map<nat, C.Phase>)
    requires m.Valid(multiset{}) && m.IsDir(d) && k < NENTRIES
    requires v in m.SpaceOf(d) && Writable(m.SpaceOf(d)[v].flags)
    requires C.Visible(v) || v == C.EXSTK
    requires d in phase && phase[d] == C.Idle
    modifies m.mem
    ensures m.Valid(multiset{})
    ensures C.Next(old(Abs(m, phase)), if v == C.EXSTK then C.StackStore(d, k, w) else C.Store(d, v, k, w), Abs(m, phase))
  {
    ghost var s := Abs(m, phase);
    var pte := ReadPte(m, d, v);
    assert C.Mapped(s, d, v) && C.FrameOf(s, d, v) == pte.value.frame;
    StorePage(m, pte.value.frame, m.mem[pte.value.frame][k := w], phase);
  }

  /** env_free, as the copy-on-write machine sees it: environment d exits. */
  method ExitEnv(m: Machine, d: nat, ghost phase: map<nat, C.Phase>)
    requires m.Valid(multiset{}) && m.IsDir(d)
    modifies m`pageFreeList, m`role, m`free, m.ppLink, m.ppRef, m.mem
    ensures m.Valid(multiset{})
    ensures C.Next(old(Abs(m, phase)), C.Exit(d), Abs(m, phase - {d}))
  {
    ghost var mem0, role0, s := m.mem[..], m.role, Abs(m, phase);
    m.EnvFree(d);
    ghost var s' := Abs(m, phase - {d});
    DataPagesKept(mem0, role0, s, s');
    SpaceDropped(s.spaces, s'.spaces, d);
  }

  lemma SpaceDropped(a: map<nat, FlatMap>, b: map<nat, FlatMap>, d: nat)
    requires b.Keys == a.Keys - {d} && forall e :: e in b ==> b[e] == a[e]
    ensures b == a - {d}
  {
    assert (a - {d}).Keys == b.Keys;
  }

  /** sys_page_alloc by a program: a zero page for it, in the specification too. */
  method AllocPage(m: Machine, d: nat, v: nat, ghost phase: map<nat, C.Phase>) returns (ok: bool)
    requires m.Valid(multiset{}) && m.IsDir(d) && C.Visible(v) && d in phase && phase[d] == C.Idle
    modifies m`pageFreeList, m`role, m`free, m.ppLink, m.ppRef, m.mem
    ensures m.Valid(multiset{}) && (!ok ==> m.free == [])
    ensures ok ==> v in m.SpaceOf(d) && C.Next(old(Abs(m, phase)), C.Alloc(d, v, m.SpaceOf(d)[v].frame), Abs(m, phase))
  {
    ok := SysPageAlloc(m, d, v, phase);
  }

  /** sys_page_unmap by a program. */
  method UnmapPage(m: Machine, d: nat, v: nat, ghost phase: map<nat, C.Phase>)
    requires m.Valid(multiset{}) && m.IsDir(d) && C.Visible(v) && d in phase && phase[d] == C.Idle
    modifies m`pageFreeList, m`role, m`free, m.ppLink, m.ppRef, m.mem
    ensures m.Valid(multiset{})
    ensures C.Next(old(Abs(m, phase)), C.Unmap(d, v), Abs(m, phase))
  {
    SysPageUnmap(m, d, v, phase);
  }
}
