/** The meaning of the two-level page tables and of the reference counts, as
    functions of the contents of physical memory (sched/kern/pmap.c). */
module PageTables {
  import opened Mmu

  const MAXFRAMES := 0x10_0000

  /** What a physical page is used for. `Transit` is a page that page_alloc has
      handed out and nobody counts yet; `Table(d, i)` is the page table behind
      entry i of page directory d. */
  datatype Role = Reserved | Free | Transit | Data | Dir | Table(d: nat, i: nat)

  // A place in the kernel that holds a counted reference to a physical page.
  datatype Slot = DirUse(d: nat) | PdeUse(d: nat, i: nat) | PteUse(t: nat, j: nat)

  predicate Names(entry: Word, f: nat) { entry != 0 && PteFrame(entry) == f }

  ghost predicate Refers(mem: Memory, role: seq<Role>, s: Slot, f: nat)
    requires |role| == |mem|
  {
    match s
    case DirUse(d) => d < |role| && role[d] == Dir && d == f
    case PdeUse(d, i) => d < |role| && role[d] == Dir && i < NUPDE && Names(mem[d][i], f)
    case PteUse(t, j) => t < |role| && role[t].Table? && j < NENTRIES && Names(mem[t][j], f)
  }

  // The places where a reference can be in a machine of n pages.
  ghost function Slots(n: nat): (r: set<Slot>)
    ensures forall s :: s in r <==>
      match s
      case DirUse(d) => d < n
      case PdeUse(d, i) => d < n && i < NUPDE
      case PteUse(t, j) => t < n && j < NENTRIES
  {
    (set d: nat | d < n :: DirUse(d))
    + (set d: nat, i: nat | d < n && i < NUPDE :: PdeUse(d, i))
    + (set t: nat, j: nat | t < n && j < NENTRIES :: PteUse(t, j))
  }

  /** Every reference to page f: its use as a directory, the directory entries
      that use it as a table, and the table entries that map it. */
  ghost function Refs(mem: Memory, role: seq<Role>, f: nat): (r: set<Slot>)
    requires |role| == |mem|
    ensures forall s :: s in r <==> Refers(mem, role, s, f)
  {
    set s | s in Slots(|mem|) && Refers(mem, role, s, f)
  }

  // A directory entry is zero or names, with PTE_P, the table made for it.
  ghost predicate PdeOk(mem: Memory, role: seq<Role>, d: nat, i: nat)
    requires |role| == |mem| && d < |mem| && i < NENTRIES
  {
    mem[d][i] != 0 ==>
      && mem[d][i] % 2 == 1
      && PteFrame(mem[d][i]) < |mem|
      && role[PteFrame(mem[d][i])] == Table(d, i)
  }

  // A table entry is zero or names, with PTE_P, a data page.
  ghost predicate PteOk(mem: Memory, role: seq<Role>, t: nat, j: nat)
    requires |role| == |mem| && t < |mem| && j < NENTRIES
  {
    mem[t][j] != 0 ==>
      && mem[t][j] % 2 == 1
      && PteFrame(mem[t][j]) < |mem|
      && role[PteFrame(mem[t][j])] == Data
  }

  // A table is reached from its own directory entry.
  ghost predicate TableOk(mem: Memory, role: seq<Role>, t: nat)
    requires |role| == |mem| && t < |mem|
  {
    role[t].Table? ==>
      && role[t].d < |mem| && role[role[t].d] == Dir
      && role[t].i < NUPDE
      && Names(mem[role[t].d][role[t].i], t)
  }

  /** Directory and table entries are zero or present, tables are not shared,
      every table is in use, and table entries map data pages only. */
  ghost predicate TablesOk(mem: Memory, role: seq<Role>)
  {
    && |role| == |mem| <= MAXFRAMES
    && (forall d: nat, i: nat {:trigger PdeOk(mem, role, d, i)} :: d < |mem| && role[d] == Dir && i < NUPDE ==> PdeOk(mem, role, d, i))
    && (forall t: nat {:trigger TableOk(mem, role, t)} :: t < |mem| ==> TableOk(mem, role, t))
    && (forall t: nat, j: nat {:trigger PteOk(mem, role, t, j)} :: t < |mem| && role[t].Table? && j < NENTRIES ==> PteOk(mem, role, t, j))
  }

  // The count of page f is exact, and zero or positive as its role says.
  ghost predicate CountOk(mem: Memory, role: seq<Role>, ref: seq<nat>, held: multiset<nat>, f: nat)
    requires |role| == |mem| == |ref| && f < |mem|
  {
    && (role[f] != Reserved ==> ref[f] == |Refs(mem, role, f)| + held[f])
    && (role[f] in {Free, Transit} ==> ref[f] == 0)
    && (role[f] == Data ==> ref[f] > 0)
  }

  /** Each count is the number of references in memory plus the references that
      the running kernel function holds (`held`). */
  ghost predicate CountsOk(mem: Memory, role: seq<Role>, ref: seq<nat>, held: multiset<nat>)
    requires |role| == |mem| == |ref|
  {
    forall f: nat {:trigger CountOk(mem, role, ref, held, f)} :: f < |mem| ==> CountOk(mem, role, ref, held, f)
  }

  ghost predicate Sound(mem: Memory, role: seq<Role>, ref: seq<nat>, held: multiset<nat>)
  {
    && TablesOk(mem, role)
    && |ref| == |mem|
    && CountsOk(mem, role, ref, held)
  }

  // The page table entry for virtual page v of directory d; zero when unmapped.
  ghost function PteAt(mem: Memory, d: nat, v: nat): Word
    requires d < |mem| && v < NUVPN
  {
    var pde := mem[d][v / NENTRIES];
    if pde == 0 || PteFrame(pde) >= |mem| then 0 else mem[PteFrame(pde)][v % NENTRIES]
  }

  /** The address space of directory d below UTOP, as one flat map from virtual
      page to physical page and flags. */
  ghost function Space(mem: Memory, d: nat): (m: FlatMap)
    requires d < |mem|
    ensures forall v: nat :: v in m <==> v < NUVPN && PteAt(mem, d, v) != 0
    ensures forall v: nat :: v in m ==> m[v] == Mapping(PteFrame(PteAt(mem, d, v)), PteFlags(PteAt(mem, d, v)))
  {
    map v: nat | 0 <= v < NUVPN && PteAt(mem, d, v) != 0 ::
      Mapping(PteFrame(PteAt(mem, d, v)), PteFlags(PteAt(mem, d, v)))
  }

  // ---------------------------------------------------------------------
  // How one store into a table changes references and mappings

  lemma RefsAfterPteStore(mem: Memory, role: seq<Role>, t: nat, j: nat, w: Word, f: nat)
    requires |role| == |mem| && t < |mem| && role[t].Table? && j < NENTRIES
    ensures Refs(Write(mem, t, j, w), role, f) ==
            Refs(mem, role, f) - {PteUse(t, j)} + (if Names(w, f) then {PteUse(t, j)} else {})
  {
    var mem' := Write(mem, t, j, w);
    forall s ensures s in Refs(mem', role, f) <==>
      s in Refs(mem, role, f) - {PteUse(t, j)} + (if Names(w, f) then {PteUse(t, j)} else {})
    {
      if s == PteUse(t, j) {
        assert mem'[t][j] == w;
      } else {
        assert Refers(mem', role, s, f) <==> Refers(mem, role, s, f);
      }
    }
  }

  /** The directories (below UTOP) and tables of two states are the same; other
      pages may differ. */
  ghost predicate SameTables(mem: Memory, role: seq<Role>, mem': Memory, role': seq<Role>)
  {
    && |role| == |mem| == |mem'| == |role'|
    && (forall g {:trigger role[g]} {:trigger role'[g]} :: 0 <= g < |mem| && (role[g].Dir? || role[g].Table? || role'[g].Dir? || role'[g].Table?) ==>
          role'[g] == role[g])
    && (forall g, k {:trigger mem'[g][k]} :: 0 <= g < |mem| && role[g].Dir? && 0 <= k < NUPDE ==> mem'[g][k] == mem[g][k])
    && (forall g {:trigger mem'[g]} :: 0 <= g < |mem| && role[g].Table? ==> mem'[g] == mem[g])
  }

  lemma RefsDependOnTables(mem: Memory, role: seq<Role>, mem': Memory, role': seq<Role>, f: nat)
    requires SameTables(mem, role, mem', role')
    ensures Refs(mem', role', f) == Refs(mem, role, f)
  {
    forall s ensures s in Refs(mem', role', f) <==> s in Refs(mem, role, f) {
      assert Refers(mem', role', s, f) <==> Refers(mem, role, s, f);
    }
  }

  lemma TablesDependOnTables(mem: Memory, role: seq<Role>, mem': Memory, role': seq<Role>)
    requires TablesOk(mem, role) && SameTables(mem, role, mem', role')
    requires forall f :: 0 <= f < |mem| && role[f] == Data ==> role'[f] == Data
    ensures TablesOk(mem', role')
  {
    forall d: nat, i: nat | d < |mem| && role'[d] == Dir && i < NUPDE ensures PdeOk(mem', role', d, i) {
      assert PdeOk(mem, role, d, i);
      assert mem'[d][i] == mem[d][i];
    }
    forall t: nat | t < |mem| ensures TableOk(mem', role', t) {
      assert TableOk(mem, role, t);
    }
    forall t: nat, j: nat | t < |mem| && role'[t].Table? && j < NENTRIES ensures PteOk(mem', role', t, j) {
      assert PteOk(mem, role, t, j);
    }
  }

  lemma SpaceDependsOnTables(mem: Memory, role: seq<Role>, mem': Memory, d: nat)
    requires TablesOk(mem, role) && |mem'| == |mem| && d < |mem| && role[d] == Dir
    requires forall k :: 0 <= k < NUPDE ==> mem'[d][k] == mem[d][k]
    requires forall g :: 0 <= g < |mem| && role[g].Table? && role[g].d == d ==> mem'[g] == mem[g]
    ensures Space(mem', d) == Space(mem, d)
  {
    forall v: nat | v < NUVPN ensures PteAt(mem', d, v) == PteAt(mem, d, v) {
      assert PdeOk(mem, role, d, v / NENTRIES);
      assert mem'[d][v / NENTRIES] == mem[d][v / NENTRIES];
    }
    assert Space(mem', d).Keys == Space(mem, d).Keys;
  }

  /** A store into one table entry is an update of one address space at one
      virtual page and nowhere else. */
  lemma SpaceAfterPteStore(mem: Memory, role: seq<Role>, d: nat, v: nat, w: Word)
    requires TablesOk(mem, role) && d < |mem| && v < NUVPN && role[d] == Dir
    requires mem[d][v / NENTRIES] != 0
    ensures PteFrame(mem[d][v / NENTRIES]) < |mem|
    ensures var mem' := Write(mem, PteFrame(mem[d][v / NENTRIES]), v % NENTRIES, w);
            && Space(mem', d) == (if w == 0 then Space(mem, d) - {v}
                                  else Space(mem, d)[v := Mapping(PteFrame(w), PteFlags(w))])
            && (forall e :: 0 <= e < |mem| && role[e] == Dir && e != d ==> Space(mem', e) == Space(mem, e))
  {
    var t := PteFrame(mem[d][v / NENTRIES]);
    assert PdeOk(mem, role, d, v / NENTRIES);
    var mem' := Write(mem, t, v % NENTRIES, w);
    assert mem'[d] == mem[d];
    forall u: nat | u < NUVPN
      ensures PteAt(mem', d, u) == if u == v then w else PteAt(mem, d, u)
    {
      assert PdeOk(mem, role, d, u / NENTRIES);
    }
    var want := if w == 0 then Space(mem, d) - {v} else Space(mem, d)[v := Mapping(PteFrame(w), PteFlags(w))];
    assert Space(mem', d).Keys == want.Keys;
    forall e | 0 <= e < |mem| && role[e] == Dir && e != d ensures Space(mem', e) == Space(mem, e) {
      SpaceDependsOnTables(mem, role, mem', e);
    }
  }

  // The same for a virtual address, in the terms of its table indices.
  lemma SpaceAfterStoreAt(mem: Memory, role: seq<Role>, d: nat, va: Word, t: nat, w: Word)
    requires TablesOk(mem, role) && d < |mem| && va < UTOP && role[d] == Dir
    requires mem[d][Pdx(va)] != 0 && t == PteFrame(mem[d][Pdx(va)]) < |mem|
    ensures Space(Write(mem, t, Ptx(va), w), d) ==
            if w == 0 then Space(mem, d) - {Pgnum(va)} else Space(mem, d)[Pgnum(va) := Mapping(PteFrame(w), PteFlags(w))]
    ensures forall e {:trigger Space(Write(mem, t, Ptx(va), w), e)} :: 0 <= e < |mem| && role[e] == Dir && e != d ==>
              Space(Write(mem, t, Ptx(va), w), e) == Space(mem, e)
  {
    AddressSplit(va);
    assert Pgnum(va) / NENTRIES == Pdx(va) && Pgnum(va) % NENTRIES == Ptx(va) && Pgnum(va) < NUVPN;
    SpaceAfterPteStore(mem, role, d, Pgnum(va), w);
  }

  // ---------------------------------------------------------------------
  // The state changes of the page operations keep every count exact

  // page_alloc takes page p off the free list.
  lemma SoundAfterAlloc(mem: Memory, role: seq<Role>, ref: seq<nat>, held: multiset<nat>, p: nat, page: Page)
    requires Sound(mem, role, ref, held) && p < |mem| && role[p] == Free
    ensures Sound(mem[p := page], role[p := Transit], ref, held)
    ensures forall d :: 0 <= d < |mem| && role[d] == Dir ==> Space(mem[p := page], d) == Space(mem, d)
  {
    var mem', role' := mem[p := page], role[p := Transit];
    TablesDependOnTables(mem, role, mem', role');
    forall f: nat | f < |mem| ensures CountOk(mem', role', ref, held, f) {
      RefsDependOnTables(mem, role, mem', role', f);
      assert CountOk(mem, role, ref, held, f);
    }
    forall d | 0 <= d < |mem| && role[d] == Dir ensures Space(mem', d) == Space(mem, d) {
      SpaceDependsOnTables(mem, role, mem', d);
    }
  }

  // A program stores into one of its data pages.
  lemma SoundAfterDataStore(mem: Memory, role: seq<Role>, ref: seq<nat>, held: multiset<nat>, f: nat, page: Page)
    requires Sound(mem, role, ref, held) && f < |mem| && role[f] == Data
    ensures Sound(mem[f := page], role, ref, held)
    ensures forall d :: 0 <= d < |mem| && role[d] == Dir ==> Space(mem[f := page], d) == Space(mem, d)
  {
    var mem' := mem[f := page];
    TablesDependOnTables(mem, role, mem', role);
    forall g: nat | g < |mem| ensures CountOk(mem', role, ref, held, g) {
      RefsDependOnTables(mem, role, mem', role, g);
      assert CountOk(mem, role, ref, held, g);
    }
    forall d | 0 <= d < |mem| && role[d] == Dir ensures Space(mem', d) == Space(mem, d) {
      SpaceDependsOnTables(mem, role, mem', d);
    }
  }

  // What an address space shows are data pages.
  lemma MappedIsData(mem: Memory, role: seq<Role>, d: nat, v: nat)
    requires TablesOk(mem, role) && d < |mem| && role[d] == Dir && v in Space(mem, d)
    ensures v < NUVPN && Space(mem, d)[v].frame < |mem| && role[Space(mem, d)[v].frame] == Data
  {
    assert PdeOk(mem, role, d, v / NENTRIES);
    assert PteOk(mem, role, PteFrame(mem[d][v / NENTRIES]), v % NENTRIES);
  }

  // A kernel function counts a page before it stores the reference.
  lemma SoundAfterHold(mem: Memory, role: seq<Role>, ref: seq<nat>, held: multiset<nat>, f: nat)
    requires Sound(mem, role, ref, held) && f < |mem| && role[f] in {Data, Transit}
    ensures Sound(mem, role[f := Data], ref[f := ref[f] + 1], held + multiset{f})
  {
    var role', ref' := role[f := Data], ref[f := ref[f] + 1];
    TablesDependOnTables(mem, role, mem, role');
    forall g: nat | g < |mem| ensures CountOk(mem, role', ref', held + multiset{f}, g) {
      RefsDependOnTables(mem, role, mem, role', g);
      assert CountOk(mem, role, ref, held, g);
    }
  }

  // The held reference to f moves into an empty table entry.
  lemma SoundAfterMap(mem: Memory, role: seq<Role>, ref: seq<nat>, held: multiset<nat>, t: nat, j: nat, w: Word, f: nat)
    requires Sound(mem, role, ref, held + multiset{f})
    requires t < |mem| && role[t].Table? && j < NENTRIES && mem[t][j] == 0
    requires f < |mem| && role[f] == Data && w % 2 == 1 && Names(w, f)
    ensures Sound(Write(mem, t, j, w), role, ref, held)
  {
    var mem' := Write(mem, t, j, w);
    forall g: nat | g < |mem| ensures CountOk(mem', role, ref, held, g) {
      RefsAfterPteStore(mem, role, t, j, w, g);
      assert !Refers(mem, role, PteUse(t, j), g);
      assert CountOk(mem, role, ref, held + multiset{f}, g);
    }
    TablesAfterPteStore(mem, role, t, j, w);
  }

  // If the entry that is stored does not name f, the reference to f is lost: its
  // count is one too high from then on.
  lemma UnsoundAfterStrayMap(mem: Memory, role: seq<Role>, ref: seq<nat>, held: multiset<nat>, t: nat, j: nat, w: Word, f: nat)
    requires Sound(mem, role, ref, held + multiset{f})
    requires t < |mem| && role[t].Table? && j < NENTRIES && mem[t][j] == 0
    requires f < |mem| && role[f] == Data && !Names(w, f)
    ensures !Sound(Write(mem, t, j, w), role, ref, held)
    ensures ref[f] == |Refs(Write(mem, t, j, w), role, f)| + held[f] + 1
  {
    RefsAfterPteStore(mem, role, t, j, w, f);
    assert !Refers(mem, role, PteUse(t, j), f);
    assert CountOk(mem, role, ref, held + multiset{f}, f);
    assert !CountOk(Write(mem, t, j, w), role, ref, held, f);
  }

  lemma TablesAfterPteStore(mem: Memory, role: seq<Role>, t: nat, j: nat, w: Word)
    requires TablesOk(mem, role) && t < |mem| && role[t].Table? && j < NENTRIES
    requires w != 0 ==> w % 2 == 1 && PteFrame(w) < |mem| && role[PteFrame(w)] == Data
    ensures TablesOk(Write(mem, t, j, w), role)
  {
    var mem' := Write(mem, t, j, w);
    forall d: nat, i: nat | d < |mem| && role[d] == Dir && i < NUPDE ensures PdeOk(mem', role, d, i) {
      assert PdeOk(mem, role, d, i);
    }
    forall u: nat | u < |mem| ensures TableOk(mem', role, u) {
      assert TableOk(mem, role, u);
    }
    forall u: nat, k: nat | u < |mem| && role[u].Table? && k < NENTRIES ensures PteOk(mem', role, u, k) {
      assert PteOk(mem, role, u, k);
    }
  }

  // A nonzero table entry is cleared and its page loses one count.
  lemma SoundAfterUnmap(mem: Memory, role: seq<Role>, ref: seq<nat>, held: multiset<nat>, t: nat, j: nat)
    requires Sound(mem, role, ref, held)
    requires t < |mem| && role[t].Table? && j < NENTRIES && mem[t][j] != 0
    ensures var f := PteFrame(mem[t][j]);
            && f < |mem| && role[f] == Data && ref[f] > 0
            && Sound(Write(mem, t, j, 0), if ref[f] == 1 then role[f := Free] else role, ref[f := ref[f] - 1], held)
  {
    var f := PteFrame(mem[t][j]);
    assert PteOk(mem, role, t, j) && CountOk(mem, role, ref, held, f);
    var mem', ref' := Write(mem, t, j, 0), ref[f := ref[f] - 1];
    TablesAfterPteStore(mem, role, t, j, 0);
    RefsAfterUnmap(mem, role, t, j, f);
    if ref[f] == 1 {
      assert Refs(mem', role, f) == {};
      TablesAfterRelease(mem', role, f);
    }
    var role' := if ref[f] == 1 then role[f := Free] else role;
    forall g: nat | g < |mem| ensures CountOk(mem', role', ref', held, g) {
      RefsAfterUnmap(mem, role, t, j, g);
      RefsDependOnTables(mem', role, mem', role', g);
      assert CountOk(mem, role, ref, held, g);
    }
  }

  lemma RefsAfterUnmap(mem: Memory, role: seq<Role>, t: nat, j: nat, g: nat)
    requires |role| == |mem| && t < |mem| && role[t].Table? && j < NENTRIES && mem[t][j] != 0
    ensures |Refs(Write(mem, t, j, 0), role, g)| == |Refs(mem, role, g)| - (if g == PteFrame(mem[t][j]) then 1 else 0)
  {
    RefsAfterPteStore(mem, role, t, j, 0, g);
    assert PteUse(t, j) in Refs(mem, role, g) <==> Refers(mem, role, PteUse(t, j), g);
  }

  // A data page that nothing refers to may be released.
  lemma TablesAfterRelease(mem: Memory, role: seq<Role>, f: nat)
    requires TablesOk(mem, role) && f < |mem| && role[f] == Data && Refs(mem, role, f) == {}
    ensures TablesOk(mem, role[f := Free])
  {
    var role' := role[f := Free];
    forall d: nat, i: nat | d < |mem| && role'[d] == Dir && i < NUPDE ensures PdeOk(mem, role', d, i) {
      assert PdeOk(mem, role, d, i);
    }
    forall u: nat | u < |mem| ensures TableOk(mem, role', u) {
      assert TableOk(mem, role, u);
    }
    forall u: nat, k: nat | u < |mem| && role'[u].Table? && k < NENTRIES ensures PteOk(mem, role', u, k) {
      assert PteOk(mem, role, u, k);
      assert !Refers(mem, role, PteUse(u, k), f);
    }
  }

  // A zeroed page becomes the table of an empty directory entry.
  lemma SoundAfterNewTable(mem: Memory, role: seq<Role>, ref: seq<nat>, held: multiset<nat>, d: nat, i: nat, p: nat, w: Word)
    requires Sound(mem, role, ref, held)
    requires d < |mem| && role[d] == Dir && i < NUPDE && mem[d][i] == 0
    requires p < |mem| && role[p] == Transit && (forall j :: 0 <= j < NENTRIES ==> mem[p][j] == 0)
    requires w % 2 == 1 && Names(w, p)
    ensures Sound(Write(mem, d, i, w), role[p := Table(d, i)], ref[p := ref[p] + 1], held)
  {
    var mem', role', ref' := Write(mem, d, i, w), role[p := Table(d, i)], ref[p := ref[p] + 1];
    forall g: nat | g < |mem| ensures CountOk(mem', role', ref', held, g) {
      RefsAfterNewTable(mem, role, d, i, p, w, g);
      assert CountOk(mem, role, ref, held, g);
    }
    TablesAfterNewTable(mem, role, d, i, p, w);
  }

  lemma RefsAfterNewTable(mem: Memory, role: seq<Role>, d: nat, i: nat, p: nat, w: Word, g: nat)
    requires |role| == |mem| && d < |mem| && role[d] == Dir && i < NUPDE && mem[d][i] == 0
    requires p < |mem| && role[p] == Transit && (forall j :: 0 <= j < NENTRIES ==> mem[p][j] == 0)
    requires Names(w, p)
    ensures var s0 := PdeUse(d, i);
            && s0 !in Refs(mem, role, g)
            && Refs(Write(mem, d, i, w), role[p := Table(d, i)], g) == Refs(mem, role, g) + (if g == p then {s0} else {})
  {
    var mem', role', s0 := Write(mem, d, i, w), role[p := Table(d, i)], PdeUse(d, i);
    forall s ensures Refers(mem', role', s, g) <==> Refers(mem, role, s, g) || (g == p && s == s0) {
    }
    assert !Refers(mem, role, s0, g);
  }

  lemma TablesAfterNewTable(mem: Memory, role: seq<Role>, d: nat, i: nat, p: nat, w: Word)
    requires TablesOk(mem, role)
    requires d < |mem| && role[d] == Dir && i < NUPDE && mem[d][i] == 0
    requires p < |mem| && role[p] == Transit && (forall j :: 0 <= j < NENTRIES ==> mem[p][j] == 0)
    requires w % 2 == 1 && Names(w, p)
    ensures TablesOk(Write(mem, d, i, w), role[p := Table(d, i)])
  {
    var mem', role' := Write(mem, d, i, w), role[p := Table(d, i)];
    forall e: nat, k: nat | e < |mem| && role'[e] == Dir && k < NUPDE ensures PdeOk(mem', role', e, k) {
      assert PdeOk(mem, role, e, k);
    }
    forall u: nat | u < |mem| ensures TableOk(mem', role', u) {
      assert TableOk(mem, role, u);
    }
    forall u: nat, k: nat | u < |mem| && role'[u].Table? && k < NENTRIES ensures PteOk(mem', role', u, k) {
      if u != p { assert PteOk(mem, role, u, k); }
    }
  }

  // An empty table maps nothing, whether it is installed or not.
  lemma SpaceAfterEmptyTable(mem: Memory, role: seq<Role>, d: nat, i: nat, p: nat, w: Word)
    requires TablesOk(mem, role) && d < |mem| && role[d] == Dir && i < NUPDE
    requires p < |mem| && p != d && (forall j :: 0 <= j < NENTRIES ==> mem[p][j] == 0)
    requires (mem[d][i] == 0 && Names(w, p)) || (Names(mem[d][i], p) && w == 0)
    ensures forall e: nat :: e < |mem| && role[e] == Dir ==> Space(Write(mem, d, i, w), e) == Space(mem, e)
  {
    var mem' := Write(mem, d, i, w);
    forall e: nat | e < |mem| && role[e] == Dir ensures Space(mem', e) == Space(mem, e) {
      forall v: nat | v < NUVPN ensures PteAt(mem', e, v) == PteAt(mem, e, v) {
        assert PdeOk(mem, role, e, v / NENTRIES);
      }
      assert Space(mem', e).Keys == Space(mem, e).Keys;
    }
  }

  // A page becomes a page directory with an empty user part.
  lemma SoundAfterNewDir(mem: Memory, role: seq<Role>, ref: seq<nat>, held: multiset<nat>, p: nat, page: Page)
    requires Sound(mem, role, ref, held)
    requires p < |mem| && role[p] == Transit && (forall i :: 0 <= i < NUPDE ==> page[i] == 0)
    ensures Sound(mem[p := page], role[p := Dir], ref[p := ref[p] + 1], held)
  {
    var mem', role', ref' := mem[p := page], role[p := Dir], ref[p := ref[p] + 1];
    forall g: nat | g < |mem| ensures CountOk(mem', role', ref', held, g) {
      RefsAfterNewDir(mem, role, p, page, g);
      assert CountOk(mem, role, ref, held, g);
    }
    TablesAfterNewDir(mem, role, p, page);
  }

  lemma RefsAfterNewDir(mem: Memory, role: seq<Role>, p: nat, page: Page, g: nat)
    requires |role| == |mem|
    requires p < |mem| && role[p] == Transit && (forall i :: 0 <= i < NUPDE ==> page[i] == 0)
    ensures DirUse(p) !in Refs(mem, role, g)
    ensures Refs(mem[p := page], role[p := Dir], g) == Refs(mem, role, g) + (if g == p then {DirUse(p)} else {})
  {
    var mem', role', s0 := mem[p := page], role[p := Dir], DirUse(p);
    forall s ensures Refers(mem', role', s, g) <==> Refers(mem, role, s, g) || (g == p && s == s0) {
    }
    assert !Refers(mem, role, s0, g);
  }

  lemma TablesAfterNewDir(mem: Memory, role: seq<Role>, p: nat, page: Page)
    requires TablesOk(mem, role)
    requires p < |mem| && role[p] == Transit && (forall i :: 0 <= i < NUPDE ==> page[i] == 0)
    ensures TablesOk(mem[p := page], role[p := Dir])
  {
    var mem', role' := mem[p := page], role[p := Dir];
    forall e: nat, k: nat | e < |mem| && role'[e] == Dir && k < NUPDE ensures PdeOk(mem', role', e, k) {
      if e != p { assert PdeOk(mem, role, e, k); }
    }
    forall u: nat | u < |mem| ensures TableOk(mem', role', u) {
      assert TableOk(mem, role, u);
    }
    forall u: nat, k: nat | u < |mem| && role'[u].Table? && k < NENTRIES ensures PteOk(mem', role', u, k) {
      assert PteOk(mem, role, u, k);
    }
  }

  lemma SpaceAfterNewDir(mem: Memory, role: seq<Role>, p: nat, page: Page)
    requires TablesOk(mem, role)
    requires p < |mem| && role[p] == Transit && (forall i :: 0 <= i < NUPDE ==> page[i] == 0)
    ensures Space(mem[p := page], p) == map[]
    ensures forall e :: 0 <= e < |mem| && role[e] == Dir ==> Space(mem[p := page], e) == Space(mem, e)
  {
    var mem' := mem[p := page];
    assert forall v: nat :: v < NUVPN ==> PteAt(mem', p, v) == 0;
    assert Space(mem', p).Keys == {};
    forall e | 0 <= e < |mem| && role[e] == Dir ensures Space(mem', e) == Space(mem, e) {
      SpaceDependsOnTables(mem, role, mem', e);
    }
  }

  // Only directories, tables and data pages are referred to.
  lemma ReferredRole(mem: Memory, role: seq<Role>, f: nat)
    requires TablesOk(mem, role) && f < |mem| && role[f] in {Reserved, Free, Transit}
    ensures Refs(mem, role, f) == {}
  {
    forall s ensures !Refers(mem, role, s, f) {
      assert s.PdeUse? && s.d < |mem| && role[s.d] == Dir && s.i < NUPDE ==> PdeOk(mem, role, s.d, s.i);
      assert s.PteUse? && s.t < |mem| && role[s.t].Table? && s.j < NENTRIES ==> PteOk(mem, role, s.t, s.j);
    }
  }

  // A directory is referred to by its use alone, a table by its entry alone.
  lemma SoleReference(mem: Memory, role: seq<Role>, f: nat)
    requires TablesOk(mem, role) && f < |mem| && (role[f].Table? || role[f].Dir?)
    ensures Refs(mem, role, f) == {if role[f].Dir? then DirUse(f) else PdeUse(role[f].d, role[f].i)}
  {
    var s0 := if role[f].Dir? then DirUse(f) else PdeUse(role[f].d, role[f].i);
    assert TableOk(mem, role, f);
    forall s ensures Refers(mem, role, s, f) <==> s == s0 {
      assert s.PdeUse? && s.d < |mem| && role[s.d] == Dir && s.i < NUPDE ==> PdeOk(mem, role, s.d, s.i);
      assert s.PteUse? && s.t < |mem| && role[s.t].Table? && s.j < NENTRIES ==> PteOk(mem, role, s.t, s.j);
    }
  }

  // An emptied table is taken out of its directory and given back.
  lemma SoundAfterDropTable(mem: Memory, role: seq<Role>, ref: seq<nat>, held: multiset<nat>, d: nat, i: nat, t: nat)
    requires Sound(mem, role, ref, held)
    requires t < |mem| && role[t] == Table(d, i) && held[t] == 0 && d < |mem| && i < NUPDE
    requires forall j :: 0 <= j < NENTRIES ==> mem[t][j] == 0
    ensures ref[t] == 1
    ensures Sound(Write(mem, d, i, 0), role[t := Free], ref[t := 0], held)
  {
    var mem', role', ref' := Write(mem, d, i, 0), role[t := Free], ref[t := 0];
    assert CountOk(mem, role, ref, held, t) && TableOk(mem, role, t);
    SoleReference(mem, role, t);
    forall g: nat | g < |mem| ensures CountOk(mem', role', ref', held, g) {
      RefsAfterDropTable(mem, role, d, i, t, g);
      assert CountOk(mem, role, ref, held, g);
    }
    TablesAfterDropTable(mem, role, d, i, t);
  }

  lemma RefsAfterDropTable(mem: Memory, role: seq<Role>, d: nat, i: nat, t: nat, g: nat)
    requires |role| == |mem| && t < |mem| && TableOk(mem, role, t)
    requires role[t] == Table(d, i) && d < |mem| && i < NUPDE
    requires forall j :: 0 <= j < NENTRIES ==> mem[t][j] == 0
    ensures PdeUse(d, i) in Refs(mem, role, g) <==> g == t
    ensures Refs(Write(mem, d, i, 0), role[t := Free], g) == Refs(mem, role, g) - {PdeUse(d, i)}
  {
    var mem', role', s0 := Write(mem, d, i, 0), role[t := Free], PdeUse(d, i);
    forall s ensures Refers(mem', role', s, g) <==> Refers(mem, role, s, g) && s != s0 {
    }
    assert Refers(mem, role, s0, g) <==> g == t;
  }

  lemma TablesAfterDropTable(mem: Memory, role: seq<Role>, d: nat, i: nat, t: nat)
    requires TablesOk(mem, role)
    requires t < |mem| && role[t] == Table(d, i) && d < |mem| && i < NUPDE
    ensures TablesOk(Write(mem, d, i, 0), role[t := Free])
  {
    var mem', role' := Write(mem, d, i, 0), role[t := Free];
    assert TableOk(mem, role, t);
    forall e: nat, k: nat | e < |mem| && role'[e] == Dir && k < NUPDE ensures PdeOk(mem', role', e, k) {
      assert PdeOk(mem, role, e, k);
    }
    forall u: nat | u < |mem| ensures TableOk(mem', role', u) {
      assert TableOk(mem, role, u);
    }
    forall u: nat, k: nat | u < |mem| && role'[u].Table? && k < NENTRIES ensures PteOk(mem', role', u, k) {
      assert PteOk(mem, role, u, k);
    }
  }

  // A directory without user tables is given back.
  lemma SoundAfterDropDir(mem: Memory, role: seq<Role>, ref: seq<nat>, held: multiset<nat>, d: nat)
    requires Sound(mem, role, ref, held)
    requires d < |mem| && role[d] == Dir && held[d] == 0
    requires forall i :: 0 <= i < NUPDE ==> mem[d][i] == 0
    ensures ref[d] == 1
    ensures Sound(mem, role[d := Free], ref[d := 0], held)
  {
    var role', ref' := role[d := Free], ref[d := 0];
    assert CountOk(mem, role, ref, held, d);
    SoleReference(mem, role, d);
    forall g: nat | g < |mem| ensures CountOk(mem, role', ref', held, g) {
      RefsAfterDropDir(mem, role, d, g);
      assert CountOk(mem, role, ref, held, g);
    }
    TablesAfterDropDir(mem, role, d);
  }

  lemma RefsAfterDropDir(mem: Memory, role: seq<Role>, d: nat, g: nat)
    requires |role| == |mem| && d < |mem| && role[d] == Dir
    requires forall i :: 0 <= i < NUPDE ==> mem[d][i] == 0
    ensures DirUse(d) in Refs(mem, role, g) <==> g == d
    ensures Refs(mem, role[d := Free], g) == Refs(mem, role, g) - {DirUse(d)}
  {
    var role', s0 := role[d := Free], DirUse(d);
    forall s ensures Refers(mem, role', s, g) <==> Refers(mem, role, s, g) && s != s0 {
    }
    assert Refers(mem, role, s0, g) <==> g == d;
  }

  lemma TablesAfterDropDir(mem: Memory, role: seq<Role>, d: nat)
    requires TablesOk(mem, role) && d < |mem| && role[d] == Dir
    requires forall i :: 0 <= i < NUPDE ==> mem[d][i] == 0
    ensures TablesOk(mem, role[d := Free])
  {
    var role' := role[d := Free];
    forall e: nat, k: nat | e < |mem| && role'[e] == Dir && k < NUPDE ensures PdeOk(mem, role', e, k) {
      assert PdeOk(mem, role, e, k);
    }
    forall u: nat | u < |mem| ensures TableOk(mem, role', u) {
      assert TableOk(mem, role, u);
    }
    forall u: nat, k: nat | u < |mem| && role'[u].Table? && k < NENTRIES ensures PteOk(mem, role', u, k) {
      assert PteOk(mem, role, u, k);
    }
  }

  // ---------------------------------------------------------------------
  // What the counts mean

  // The virtual pages, of all address spaces, that show page f.
  ghost function Mappings(mem: Memory, role: seq<Role>, f: nat): (r: set<(nat, nat)>)
    requires |role| == |mem|
    ensures forall d: nat, v: nat :: (d, v) in r <==>
      d < |mem| && role[d] == Dir && v in Space(mem, d) && Space(mem, d)[v].frame == f
  {
    set d: nat, v: nat | d < |mem| && v < NUVPN && role[d] == Dir && v in Space(mem, d) && Space(mem, d)[v].frame == f :: (d, v)
  }

  lemma {:induction false} BijectionSize<A, B>(s: set<A>, t: set<B>, f: A -> B)
    requires forall a :: a in s ==> f(a) in t
    requires forall a, a' :: a in s && a' in s && f(a) == f(a') ==> a == a'
    requires forall b :: b in t ==> exists a :: a in s && f(a) == b
    ensures |s| == |t|
    decreases s
  {
    if s == {} {
      assert t == {};
    } else {
      var a :| a in s;
      BijectionSize(s - {a}, t - {f(a)}, f);
    }
  }

  // The virtual page that a table entry translates.
  ghost function Place(role: seq<Role>, s: Slot): (nat, nat) {
    if s.PteUse? && s.t < |role| && role[s.t].Table? then (role[s.t].d, role[s.t].i * NENTRIES + s.j) else (0, 0)
  }

  lemma DataIsInTables(mem: Memory, role: seq<Role>, s: Slot, f: nat)
    requires TablesOk(mem, role) && f < |mem| && role[f] == Data && Refers(mem, role, s, f)
    ensures s.PteUse?
  {
    var wellUsed := s.PdeUse? ==> PdeOk(mem, role, s.d, s.i);
  }

  // A reference to a data page is one entry of a table, at one virtual page.
  lemma DataReference(mem: Memory, role: seq<Role>, s: Slot, f: nat)
    requires TablesOk(mem, role) && f < |mem| && role[f] == Data && Refers(mem, role, s, f)
    ensures Place(role, s) in Mappings(mem, role, f)
    ensures var (d, v) := Place(role, s);
            d < |mem| && v < NUVPN && s == PteUse(PteFrame(mem[d][v / NENTRIES]), v % NENTRIES)
  {
    DataIsInTables(mem, role, s, f);
    assert TableOk(mem, role, s.t);
    var d, v := role[s.t].d, role[s.t].i * NENTRIES + s.j;
    assert v / NENTRIES == role[s.t].i && v % NENTRIES == s.j;
    assert PteAt(mem, d, v) == mem[s.t][s.j];
  }

  lemma MappingReference(mem: Memory, role: seq<Role>, d: nat, v: nat, f: nat)
    requires TablesOk(mem, role) && f < |mem| && (d, v) in Mappings(mem, role, f)
    ensures var s := PteUse(PteFrame(mem[d][v / NENTRIES]), v % NENTRIES);
            s in Refs(mem, role, f) && Place(role, s) == (d, v)
  {
    assert PdeOk(mem, role, d, v / NENTRIES);
    assert Refers(mem, role, PteUse(PteFrame(mem[d][v / NENTRIES]), v % NENTRIES), f);
  }

  lemma ReferencesAreMappings(mem: Memory, role: seq<Role>, f: nat)
    requires TablesOk(mem, role) && f < |mem| && role[f] == Data
    ensures |Refs(mem, role, f)| == |Mappings(mem, role, f)|
  {
    var refs, maps := Refs(mem, role, f), Mappings(mem, role, f);
    var place: Slot -> (nat, nat) := (s: Slot) => Place(role, s);
    forall s | s in refs ensures place(s) in maps {
      DataReference(mem, role, s, f);
    }
    forall s, s' | s in refs && s' in refs && place(s) == place(s') ensures s == s' {
      DataReference(mem, role, s, f);
      DataReference(mem, role, s', f);
    }
    forall m | m in maps ensures exists s :: s in refs && place(s) == m {
      MappingReference(mem, role, m.0, m.1, f);
    }
    BijectionSize(refs, maps, place);
  }

  /** pp_ref of a data page is the number of virtual pages that map it; a page
      table and a page directory are counted once; the pages with count zero
      are the free ones and those in transit. */
  lemma CountIsMappings(mem: Memory, role: seq<Role>, ref: seq<nat>, f: nat)
    requires Sound(mem, role, ref, multiset{}) && f < |mem|
    ensures role[f] == Data ==> ref[f] == |Mappings(mem, role, f)|
    ensures role[f].Dir? || role[f].Table? ==> ref[f] == 1
    ensures role[f] != Reserved ==> (ref[f] == 0 <==> role[f] in {Free, Transit})
  {
    assert CountOk(mem, role, ref, multiset{}, f);
    if role[f].Dir? || role[f].Table? {
      SoleReference(mem, role, f);
    }
    if role[f] == Data {
      ReferencesAreMappings(mem, role, f);
    }
  }
}
