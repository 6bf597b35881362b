/** Copy-on-write sharing (sched/lib/fork.c). */
module Cow {
  // A state machine over the address spaces of all environments, and its refinement
  // of eager copying.

  import opened Mmu

  // The page that pgfault uses as a scratch mapping, and the exception stack.
  const PFTEMP := 0x7ff
  const EXSTK := NUVPN - 1

  const PTE_COW := 0x800
  const PTE_CACHE := 0x18
  const PERM_RW := PTE_P + PTE_U + PTE_W

  function ZeroPage(): Page { seq(NENTRIES, _ => 0) }

  // The pages a program can see: below UTOP, without the two of the mechanism.
  predicate Visible(v: nat) { v < NUVPN && v != PFTEMP && v != EXSTK }

  // How far an environment is in its page fault handler, and for which page.
  datatype Phase = Idle | Alloced(v: nat) | Copied(v: nat) | Moved(v: nat)

  datatype Vm = Vm(spaces: map<nat, FlatMap>, frames: seq<Page>, phase: map<nat, Phase>)

  datatype Action =
    | Exofork(c: nat)
    | Dup(p: nat, c: nat, v: nat)
    | NewExStack(c: nat, f: nat)
    | Store(e: nat, v: nat, k: nat, w: Word)
    | PfAlloc(e: nat, v: nat, f: nat)
    | PfCopy(e: nat)
    | PfMap(e: nat)
    | PfUnmap(e: nat)
    | StackStore(e: nat, k: nat, w: Word)
    | Alloc(e: nat, v: nat, f: nat)
    | Unmap(e: nat, v: nat)
    | Exit(e: nat)

  predicate Mapped(s: Vm, e: nat, v: nat) { e in s.spaces && v in s.spaces[e] }

  function FrameOf(s: Vm, e: nat, v: nat): nat
    requires Mapped(s, e, v)
  {
    s.spaces[e][v].frame
  }

  predicate CanWrite(s: Vm, e: nat, v: nat)
    requires Mapped(s, e, v)
  {
    Writable(s.spaces[e][v].flags)
  }

  // ---------------------------------------------------------------------
  // What the kernel does for one call, as it shows in the flat maps

  // Pages that are mapped keep their contents.
  ghost predicate KeepsFrames(s: Vm, s': Vm) {
    && |s'.frames| == |s.frames|
    && forall e: nat, v: nat {:trigger Mapped(s, e, v)} :: Mapped(s, e, v) && FrameOf(s, e, v) < |s.frames| ==>
         s'.frames[FrameOf(s, e, v)] == s.frames[FrameOf(s, e, v)]
  }

  ghost predicate Unused(s: Vm, f: nat) {
    forall e: nat, v: nat {:trigger Mapped(s, e, v)} :: Mapped(s, e, v) ==> FrameOf(s, e, v) != f
  }

  function Set<V>(m: map<nat, V>, k: nat, x: V): map<nat, V> { m[k := x] }

  function SetMapping(spaces: map<nat, FlatMap>, e: nat, v: nat, m: Mapping): map<nat, FlatMap>
    requires e in spaces
  {
    Set(spaces, e, Set(spaces[e], v, m))
  }

  function DropMapping(spaces: map<nat, FlatMap>, e: nat, v: nat): map<nat, FlatMap>
    requires e in spaces
  {
    Set(spaces, e, spaces[e] - {v})
  }

  // A fresh zeroed page f for virtual page v of e.
  ghost predicate Allocates(s: Vm, s': Vm, e: nat, v: nat, f: nat) {
    && e in s.spaces && Unused(s, f) && f < |s.frames|
    && KeepsFrames(s, s') && s'.frames[f] == ZeroPage()
    && s'.spaces == SetMapping(s.spaces, e, v, Mapping(f, PERM_RW))
  }

  // Page sv of src also appears at dv of dst.
  ghost predicate Maps(s: Vm, s': Vm, src: nat, sv: nat, dst: nat, dv: nat, perm: nat) {
    && Mapped(s, src, sv) && dst in s.spaces && KeepsFrames(s, s')
    && s'.spaces == SetMapping(s.spaces, dst, dv, Mapping(FrameOf(s, src, sv), perm))
    && s'.phase == s.phase
  }

  // The permissions that duppage gives to the copies of a page.
  function DupFlags(flags: nat): nat {
    (if flags / 8 % 4 != 0 then PTE_P + PTE_U + PTE_CACHE else PTE_P + PTE_U)
    + (if IsShared(flags) then PTE_COW else 0)
  }

  // Writable or copy-on-write pages are shared copy-on-write by both sides.
  predicate IsShared(flags: nat) { Writable(flags) || flags / PTE_COW % 2 == 1 }

  function DupMapping(m: Mapping): Mapping { Mapping(m.frame, DupFlags(m.flags)) }

  // The mappings after duppage of page v from p to c.
  function Duplicated(spaces: map<nat, FlatMap>, p: nat, c: nat, v: nat): map<nat, FlatMap>
    requires p in spaces && c in spaces && v in spaces[p]
  {
    if IsShared(spaces[p][v].flags) then
      SetMapping(SetMapping(spaces, c, v, DupMapping(spaces[p][v])), p, v, DupMapping(spaces[p][v]))
    else
      SetMapping(spaces, c, v, DupMapping(spaces[p][v]))
  }

  lemma DupFlagsAreReadOnly(flags: nat)
    ensures !Writable(DupFlags(flags)) && DupFlags(flags) < PGSIZE && DupFlags(flags) % 2 == 1
  {
  }

  // ---------------------------------------------------------------------
  // The concrete machine

  ghost predicate Next(s: Vm, a: Action, s': Vm) {
    match a
    case Exofork(c) =>
      && c !in s.spaces
      && KeepsFrames(s, s') && s'.spaces == s.spaces[c := map[]] && s'.phase == s.phase[c := Idle]
    case Dup(p, c, v) =>
      && p != c && c in s.spaces && !Mapped(s, c, v) && Mapped(s, p, v) && Visible(v)
      && p in s.phase && s.phase[p] == Idle && c in s.phase && s.phase[c] == Idle
      && KeepsFrames(s, s') && s'.phase == s.phase
      && s'.spaces == Duplicated(s.spaces, p, c, v)
    case NewExStack(c, f) =>
      Allocates(s, s', c, EXSTK, f) && s'.phase == s.phase
    case Store(e, v, k, w) =>
      && Mapped(s, e, v) && Visible(v) && CanWrite(s, e, v) && k < NENTRIES
      && e in s.phase && s.phase[e] == Idle
      && FrameOf(s, e, v) < |s.frames|
      && s' == Vm(s.spaces, Write(s.frames, FrameOf(s, e, v), k, w), s.phase)
    case PfAlloc(e, v, f) =>
      && Mapped(s, e, v) && Visible(v) && !CanWrite(s, e, v)
      && e in s.phase && s.phase[e] == Idle
      && Allocates(s, s', e, PFTEMP, f) && s'.phase == s.phase[e := Alloced(v)]
    case PfCopy(e) =>
      && e in s.phase && s.phase[e].Alloced? && Mapped(s, e, PFTEMP) && Mapped(s, e, s.phase[e].v)
      && FrameOf(s, e, PFTEMP) < |s.frames| && FrameOf(s, e, s.phase[e].v) < |s.frames|
      && s' == Vm(s.spaces,
                  s.frames[FrameOf(s, e, PFTEMP) := s.frames[FrameOf(s, e, s.phase[e].v)]],
                  s.phase[e := Copied(s.phase[e].v)])
    case PfMap(e) =>
      && e in s.phase && s.phase[e].Copied? && Mapped(s, e, PFTEMP)
      && KeepsFrames(s, s')
      && s'.spaces == SetMapping(s.spaces, e, s.phase[e].v, Mapping(FrameOf(s, e, PFTEMP), PERM_RW))
      && s'.phase == s.phase[e := Moved(s.phase[e].v)]
    case PfUnmap(e) =>
      && e in s.phase && s.phase[e].Moved? && e in s.spaces
      && KeepsFrames(s, s')
      && s'.spaces == DropMapping(s.spaces, e, PFTEMP) && s'.phase == s.phase[e := Idle]
    case StackStore(e, k, w) =>
      && Mapped(s, e, EXSTK) && CanWrite(s, e, EXSTK) && k < NENTRIES && FrameOf(s, e, EXSTK) < |s.frames|
      && s' == Vm(s.spaces, Write(s.frames, FrameOf(s, e, EXSTK), k, w), s.phase)
    case Alloc(e, v, f) =>
      && Visible(v) && e in s.phase && s.phase[e] == Idle
      && Allocates(s, s', e, v, f) && s'.phase == s.phase
    case Unmap(e, v) =>
      && Visible(v) && e in s.spaces && e in s.phase && s.phase[e] == Idle
      && KeepsFrames(s, s') && s'.spaces == DropMapping(s.spaces, e, v) && s'.phase == s.phase
    case Exit(e) =>
      && KeepsFrames(s, s') && s'.spaces == s.spaces - {e} && s'.phase == s.phase - {e}
  }

  // ---------------------------------------------------------------------
  // The specification: fork copies, page faults do not exist

  type View = map<nat, map<nat, Page>>

  function SetPage(view: View, e: nat, v: nat, page: Page): View
    requires e in view
  {
    Set(view, e, Set(view[e], v, page))
  }

  function DropPage(view: View, e: nat, v: nat): View
    requires e in view
  {
    Set(view, e, view[e] - {v})
  }

  ghost predicate EagerNext(view: View, a: Action, view': View) {
    match a
    case Exofork(c) => c !in view && view' == view[c := map[]]
    case Dup(p, c, v) => p in view && c in view && v in view[p] && view' == SetPage(view, c, v, view[p][v])
    case Store(e, v, k, w) =>
      e in view && v in view[e] && k < NENTRIES && view' == SetPage(view, e, v, view[e][v][k := w])
    case Alloc(e, v, _) => e in view && view' == SetPage(view, e, v, ZeroPage())
    case Unmap(e, v) => e in view && view' == DropPage(view, e, v)
    case Exit(e) => view' == view - {e}
    case _ => view' == view
  }

  // ---------------------------------------------------------------------
  // The invariant

  // Pages v and w of e are the two names of a copy that pgfault is moving.
  predicate Moving(s: Vm, e: nat, v: nat, w: nat) {
    e in s.phase && s.phase[e].Moved? && ((v == s.phase[e].v && w == PFTEMP) || (v == PFTEMP && w == s.phase[e].v))
  }

  ghost predicate PrivateOk(s: Vm, e: nat, v: nat, e': nat, v': nat) {
    Mapped(s, e, v) && Mapped(s, e', v') && (e != e' || v != v') && FrameOf(s, e, v) == FrameOf(s, e', v') ==>
      !CanWrite(s, e, v) || (e == e' && Moving(s, e, v, v'))
  }

  /** A writable page has one mapping, save while pgfault moves a copy from
      PFTEMP to its place; hence a shared page has no writable mapping. */
  ghost predicate WritableIsPrivate(s: Vm) {
    forall e: nat, v: nat, e': nat, v': nat {:trigger PrivateOk(s, e, v, e', v')} :: PrivateOk(s, e, v, e', v')
  }

  ghost predicate PhaseOk(s: Vm, e: nat)
    requires e in s.phase
  {
    && (Mapped(s, e, PFTEMP) <==> s.phase[e] != Idle)
    && (s.phase[e] != Idle ==> Mapped(s, e, s.phase[e].v) && Visible(s.phase[e].v))
    && (s.phase[e].Alloced? || s.phase[e].Copied? ==> CanWrite(s, e, PFTEMP))
    && (s.phase[e].Copied? ==>
          && FrameOf(s, e, PFTEMP) < |s.frames| && FrameOf(s, e, s.phase[e].v) < |s.frames|
          && s.frames[FrameOf(s, e, PFTEMP)] == s.frames[FrameOf(s, e, s.phase[e].v)])
    && (s.phase[e].Moved? ==> FrameOf(s, e, PFTEMP) == FrameOf(s, e, s.phase[e].v))
  }

  ghost predicate InBounds(s: Vm) {
    forall e: nat, v: nat {:trigger Mapped(s, e, v)} :: Mapped(s, e, v) ==> v < NUVPN && FrameOf(s, e, v) < |s.frames|
  }

  ghost predicate Inv(s: Vm) {
    && s.phase.Keys == s.spaces.Keys
    && InBounds(s)
    && WritableIsPrivate(s)
    && forall e: nat {:trigger PhaseOk(s, e)} :: e in s.phase ==> PhaseOk(s, e)
  }

  // What environment e reads at each page it can see.
  ghost function ViewOf(s: Vm, e: nat): map<nat, Page>
    requires InBounds(s) && e in s.spaces
  {
    map v | v in s.spaces[e] && Visible(v) && Mapped(s, e, v) :: s.frames[FrameOf(s, e, v)]
  }

  ghost function Views(s: Vm): View
    requires InBounds(s)
  {
    map e | e in s.spaces :: ViewOf(s, e)
  }

  ghost predicate Shows(s: Vm, view: View, e: nat, v: nat)
    requires InBounds(s)
  {
    e in view ==>
      && (v in view[e] <==> Mapped(s, e, v) && Visible(v))
      && (v in view[e] ==> view[e][v] == s.frames[FrameOf(s, e, v)])
  }

  lemma ViewsAre(s: Vm, view: View)
    requires InBounds(s) && view.Keys == s.spaces.Keys
    requires forall e: nat, v: nat {:trigger Shows(s, view, e, v)} :: Shows(s, view, e, v)
    ensures Views(s) == view
  {
    forall e | e in view ensures ViewOf(s, e) == view[e] {
      forall v ensures v in ViewOf(s, e) <==> v in view[e] {
        if v in view[e] || v in ViewOf(s, e) { assert Shows(s, view, e, v); }
      }
      forall v | v in view[e] ensures ViewOf(s, e)[v] == view[e][v] {
        assert Shows(s, view, e, v);
      }
    }
  }

  lemma ViewShows(s: Vm, e: nat, v: nat)
    requires InBounds(s)
    ensures Shows(s, Views(s), e, v)
  {
  }

  // ---------------------------------------------------------------------
  // Every step keeps the invariant and is a step of the specification

  lemma ExoforkStep(s: Vm, c: nat, s': Vm)
    requires Inv(s) && Next(s, Exofork(c), s')
    ensures Inv(s') && EagerNext(Views(s), Exofork(c), Views(s'))
  {
    forall e: nat, v: nat ensures Mapped(s', e, v) <==> Mapped(s, e, v) {
    }
    forall e: nat, v: nat, e': nat, v': nat ensures PrivateOk(s', e, v, e', v') {
      assert PrivateOk(s, e, v, e', v');
    }
    forall e: nat | e in s'.phase ensures PhaseOk(s', e) {
      assert e != c ==> PhaseOk(s, e);
    }
    var view' := Views(s)[c := map[]];
    forall e: nat, v: nat ensures Shows(s', view', e, v) {
      ViewShows(s, e, v);
    }
    ViewsAre(s', view');
  }

  // What duppage leaves mapped where, and what stays writable.
  lemma DupMappings(s: Vm, p: nat, c: nat, v: nat, s': Vm, e: nat, u: nat)
    requires Inv(s) && Next(s, Dup(p, c, v), s')
    ensures Mapped(s', e, u) <==> Mapped(s, e, u) || (e == c && u == v)
    ensures Mapped(s', e, u) ==> FrameOf(s', e, u) == if e == c && u == v then FrameOf(s, p, v) else FrameOf(s, e, u)
    ensures Mapped(s', e, u) && CanWrite(s', e, u) ==>
              Mapped(s, e, u) && CanWrite(s, e, u) && !(e == c && u == v) && !(e == p && u == v)
  {
    DupFlagsAreReadOnly(s.spaces[p][v].flags);
  }

  lemma DupKeepsInv(s: Vm, p: nat, c: nat, v: nat, s': Vm)
    requires Inv(s) && Next(s, Dup(p, c, v), s')
    ensures Inv(s')
  {
    forall e: nat, u: nat ensures Mapped(s', e, u) ==> u < NUVPN && FrameOf(s', e, u) < |s'.frames| {
      DupMappings(s, p, c, v, s', e, u);
    }
    forall e: nat, u: nat, e': nat, u': nat ensures PrivateOk(s', e, u, e', u') {
      DupMappings(s, p, c, v, s', e, u);
      DupMappings(s, p, c, v, s', e', u');
      assert PrivateOk(s, e, u, e', u') && PrivateOk(s, e, u, p, v) && PhaseOk(s, p);
    }
    forall e: nat | e in s'.phase ensures PhaseOk(s', e) {
      assert PhaseOk(s, e);
    }
  }

  lemma DupStep(s: Vm, p: nat, c: nat, v: nat, s': Vm)
    requires Inv(s) && Next(s, Dup(p, c, v), s')
    ensures Inv(s') && EagerNext(Views(s), Dup(p, c, v), Views(s'))
  {
    DupKeepsInv(s, p, c, v, s');
    ViewShows(s, p, v);
    var view' := SetPage(Views(s), c, v, Views(s)[p][v]);
    forall e: nat, u: nat ensures Shows(s', view', e, u) {
      DupMappings(s, p, c, v, s', e, u);
      ViewShows(s, e, u);
    }
    ViewsAre(s', view');
  }

  lemma StoreStep(s: Vm, e: nat, v: nat, k: nat, w: Word, s': Vm)
    requires Inv(s) && Next(s, Store(e, v, k, w), s')
    ensures Inv(s') && EagerNext(Views(s), Store(e, v, k, w), Views(s'))
  {
    forall d: nat, u: nat ensures Mapped(s', d, u) <==> Mapped(s, d, u) {
    }
    forall d: nat, u: nat | Mapped(s', d, u) ensures u < NUVPN && FrameOf(s', d, u) < |s'.frames| {
      assert Mapped(s, d, u);
    }
    forall d: nat, u: nat, d': nat, u': nat ensures PrivateOk(s', d, u, d', u') {
      assert PrivateOk(s, d, u, d', u');
    }
    forall d: nat, u: nat | Mapped(s, d, u) && (d != e || u != v)
      ensures s'.frames[FrameOf(s, d, u)] == s.frames[FrameOf(s, d, u)]
    {
      assert PrivateOk(s, e, v, d, u);
    }
    forall d: nat | d in s'.phase ensures PhaseOk(s', d) {
      assert PhaseOk(s, d);
    }
    ViewShows(s, e, v);
    var view' := SetPage(Views(s), e, v, Views(s)[e][v][k := w]);
    forall d: nat, u: nat ensures Shows(s', view', d, u) {
      ViewShows(s, d, u);
    }
    ViewsAre(s', view');
  }

  lemma AllocKeepsPrivate(s: Vm, s': Vm, e: nat, v: nat, f: nat)
    requires Inv(s) && Allocates(s, s', e, v, f) && v < NUVPN
    requires forall d: nat, x: nat, y: nat :: Moving(s, d, x, y) ==> Moving(s', d, x, y)
    ensures InBounds(s') && WritableIsPrivate(s')
    ensures forall d: nat, u: nat {:trigger Mapped(s', d, u)} :: Mapped(s', d, u) <==> Mapped(s, d, u) || (d == e && u == v)
    ensures forall d: nat, u: nat {:trigger FrameOf(s', d, u)} :: Mapped(s', d, u) ==>
              s'.spaces[d][u] == if d == e && u == v then Mapping(f, PERM_RW) else s.spaces[d][u]
  {
    forall d: nat, u: nat ensures Mapped(s', d, u) <==> Mapped(s, d, u) || (d == e && u == v) {
    }
    forall d: nat, u: nat, d': nat, u': nat ensures PrivateOk(s', d, u, d', u') {
      assert PrivateOk(s, d, u, d', u');
      assert Mapped(s, d, u) ==> FrameOf(s, d, u) != f;
      assert Mapped(s, d', u') ==> FrameOf(s, d', u') != f;
    }
  }

  lemma NewExStackStep(s: Vm, c: nat, f: nat, s': Vm)
    requires Inv(s) && Next(s, NewExStack(c, f), s')
    ensures Inv(s') && EagerNext(Views(s), NewExStack(c, f), Views(s'))
  {
    assert forall d: nat, x: nat, y: nat :: Moving(s, d, x, y) ==> Moving(s', d, x, y);
    AllocKeepsPrivate(s, s', c, EXSTK, f);
    forall d: nat | d in s'.phase ensures PhaseOk(s', d) {
      assert PhaseOk(s, d);
    }
    var view' := Views(s);
    forall d: nat, u: nat ensures Shows(s', view', d, u) {
      ViewShows(s, d, u);
    }
    ViewsAre(s', view');
  }

  lemma AllocStep(s: Vm, e: nat, v: nat, f: nat, s': Vm)
    requires Inv(s) && Next(s, Alloc(e, v, f), s')
    ensures Inv(s') && EagerNext(Views(s), Alloc(e, v, f), Views(s'))
  {
    assert forall d: nat, x: nat, y: nat :: Moving(s, d, x, y) ==> Moving(s', d, x, y);
    AllocKeepsPrivate(s, s', e, v, f);
    forall d: nat | d in s'.phase ensures PhaseOk(s', d) {
      assert PhaseOk(s, d);
    }
    var view' := SetPage(Views(s), e, v, ZeroPage());
    forall d: nat, u: nat ensures Shows(s', view', d, u) {
      ViewShows(s, d, u);
    }
    ViewsAre(s', view');
  }

  lemma PfAllocStep(s: Vm, e: nat, v: nat, f: nat, s': Vm)
    requires Inv(s) && Next(s, PfAlloc(e, v, f), s')
    ensures Inv(s') && EagerNext(Views(s), PfAlloc(e, v, f), Views(s'))
  {
    assert forall d: nat, x: nat, y: nat :: Moving(s, d, x, y) ==> Moving(s', d, x, y);
    AllocKeepsPrivate(s, s', e, PFTEMP, f);
    forall d: nat | d in s'.phase ensures PhaseOk(s', d) {
      assert PhaseOk(s, d);
    }
    var view' := Views(s);
    forall d: nat, u: nat ensures Shows(s', view', d, u) {
      ViewShows(s, d, u);
    }
    ViewsAre(s', view');
  }

  // A store through a writable, private mapping shows nowhere else.
  lemma PrivateStore(s: Vm, e: nat, v: nat, page: Page, s': Vm)
    requires Inv(s) && Mapped(s, e, v) && CanWrite(s, e, v)
    requires forall w: nat :: !Moving(s, e, v, w)
    requires s'.spaces == s.spaces && s'.frames == s.frames[FrameOf(s, e, v) := page]
    requires forall d: nat, x: nat, y: nat :: Moving(s, d, x, y) <==> Moving(s', d, x, y)
    ensures InBounds(s') && WritableIsPrivate(s')
    ensures forall d: nat, u: nat {:trigger Mapped(s, d, u)} :: Mapped(s, d, u) ==>
              s'.frames[FrameOf(s, d, u)] == if d == e && u == v then page else s.frames[FrameOf(s, d, u)]
  {
    forall d: nat, u: nat ensures Mapped(s', d, u) <==> Mapped(s, d, u) {
    }
    forall d: nat, u: nat, d': nat, u': nat ensures PrivateOk(s', d, u, d', u') {
      assert PrivateOk(s, d, u, d', u');
    }
    forall d: nat, u: nat | Mapped(s, d, u)
      ensures s'.frames[FrameOf(s, d, u)] == if d == e && u == v then page else s.frames[FrameOf(s, d, u)]
    {
      assert PrivateOk(s, e, v, d, u);
    }
  }

  lemma PfCopyStep(s: Vm, e: nat, s': Vm)
    requires Inv(s) && Next(s, PfCopy(e), s')
    ensures Inv(s') && EagerNext(Views(s), PfCopy(e), Views(s'))
  {
    assert PhaseOk(s, e);
    PrivateStore(s, e, PFTEMP, s.frames[FrameOf(s, e, s.phase[e].v)], s');
    forall d: nat | d in s'.phase ensures PhaseOk(s', d) {
      assert PhaseOk(s, d);
    }
    var view' := Views(s);
    forall d: nat, u: nat ensures Shows(s', view', d, u) {
      ViewShows(s, d, u);
    }
    ViewsAre(s', view');
  }

  lemma StackStoreStep(s: Vm, e: nat, k: nat, w: Word, s': Vm)
    requires Inv(s) && Next(s, StackStore(e, k, w), s')
    ensures Inv(s') && EagerNext(Views(s), StackStore(e, k, w), Views(s'))
  {
    assert e in s.phase && PhaseOk(s, e);
    PrivateStore(s, e, EXSTK, s.frames[FrameOf(s, e, EXSTK)][k := w], s');
    forall d: nat | d in s'.phase ensures PhaseOk(s', d) {
      assert PhaseOk(s, d);
    }
    var view' := Views(s);
    forall d: nat, u: nat ensures Shows(s', view', d, u) {
      ViewShows(s, d, u);
    }
    ViewsAre(s', view');
  }

  lemma PfMapKeepsPrivate(s: Vm, e: nat, s': Vm)
    requires Inv(s) && Next(s, PfMap(e), s')
    ensures InBounds(s') && WritableIsPrivate(s')
    ensures forall d: nat, u: nat {:trigger Mapped(s', d, u)} :: Mapped(s', d, u) <==> Mapped(s, d, u)
    ensures forall d: nat, u: nat {:trigger FrameOf(s', d, u)} :: Mapped(s', d, u) ==>
              FrameOf(s', d, u) == if d == e && u == s.phase[e].v then FrameOf(s, e, PFTEMP) else FrameOf(s, d, u)
  {
    assert PhaseOk(s, e) && Mapped(s, e, PFTEMP);
    forall d: nat, u: nat ensures Mapped(s', d, u) <==> Mapped(s, d, u) {
    }
    forall d: nat, u: nat | Mapped(s', d, u) ensures u < NUVPN && FrameOf(s', d, u) < |s'.frames| {
      assert Mapped(s, d, u);
    }
    forall d: nat, u: nat, d': nat, u': nat ensures PrivateOk(s', d, u, d', u') {
      assert PrivateOk(s, d, u, d', u') && PrivateOk(s, e, PFTEMP, d', u') && PrivateOk(s, e, PFTEMP, d, u);
    }
  }

  lemma PfMapStep(s: Vm, e: nat, s': Vm)
    requires Inv(s) && Next(s, PfMap(e), s')
    ensures Inv(s') && EagerNext(Views(s), PfMap(e), Views(s'))
  {
    PfMapKeepsPrivate(s, e, s');
    assert PhaseOk(s, e);
    forall d: nat | d in s'.phase ensures PhaseOk(s', d) {
      assert PhaseOk(s, d);
    }
    var view' := Views(s);
    forall d: nat, u: nat ensures Shows(s', view', d, u) {
      ViewShows(s, d, u);
      assert Mapped(s', e, PFTEMP);
    }
    ViewsAre(s', view');
  }

  lemma PfUnmapStep(s: Vm, e: nat, s': Vm)
    requires Inv(s) && Next(s, PfUnmap(e), s')
    ensures Inv(s') && EagerNext(Views(s), PfUnmap(e), Views(s'))
  {
    assert PhaseOk(s, e);
    forall d: nat, u: nat ensures Mapped(s', d, u) <==> Mapped(s, d, u) && !(d == e && u == PFTEMP) {
    }
    forall d: nat, u: nat, d': nat, u': nat ensures PrivateOk(s', d, u, d', u') {
      assert PrivateOk(s, d, u, d', u');
    }
    forall d: nat | d in s'.phase ensures PhaseOk(s', d) {
      assert PhaseOk(s, d);
    }
    var view' := Views(s);
    forall d: nat, u: nat ensures Shows(s', view', d, u) {
      ViewShows(s, d, u);
    }
    ViewsAre(s', view');
  }

  lemma UnmapStep(s: Vm, e: nat, v: nat, s': Vm)
    requires Inv(s) && Next(s, Unmap(e, v), s')
    ensures Inv(s') && EagerNext(Views(s), Unmap(e, v), Views(s'))
  {
    forall d: nat, u: nat ensures Mapped(s', d, u) <==> Mapped(s, d, u) && !(d == e && u == v) {
    }
    forall d: nat, u: nat, d': nat, u': nat ensures PrivateOk(s', d, u, d', u') {
      assert PrivateOk(s, d, u, d', u');
    }
    forall d: nat | d in s'.phase ensures PhaseOk(s', d) {
      assert PhaseOk(s, d);
    }
    var view' := DropPage(Views(s), e, v);
    forall d: nat, u: nat ensures Shows(s', view', d, u) {
      ViewShows(s, d, u);
    }
    ViewsAre(s', view');
  }

  lemma ExitStep(s: Vm, e: nat, s': Vm)
    requires Inv(s) && Next(s, Exit(e), s')
    ensures Inv(s') && EagerNext(Views(s), Exit(e), Views(s'))
  {
    forall d: nat, u: nat ensures Mapped(s', d, u) <==> Mapped(s, d, u) && d != e {
    }
    forall d: nat, u: nat, d': nat, u': nat ensures PrivateOk(s', d, u, d', u') {
      assert PrivateOk(s, d, u, d', u');
    }
    forall d: nat | d in s'.phase ensures PhaseOk(s', d) {
      assert PhaseOk(s, d);
    }
    var view' := Views(s) - {e};
    forall d: nat, u: nat ensures Shows(s', view', d, u) {
      ViewShows(s, d, u);
    }
    ViewsAre(s', view');
  }

  lemma StepRefines(s: Vm, a: Action, s': Vm)
    requires Inv(s) && Next(s, a, s')
    ensures Inv(s') && EagerNext(Views(s), a, Views(s'))
  {
    match a
    case Exofork(c) => ExoforkStep(s, c, s');
    case Dup(p, c, v) => DupStep(s, p, c, v, s');
    case NewExStack(c, f) => NewExStackStep(s, c, f, s');
    case Store(e, v, k, w) => StoreStep(s, e, v, k, w, s');
    case PfAlloc(e, v, f) => PfAllocStep(s, e, v, f, s');
    case PfCopy(e) => PfCopyStep(s, e, s');
    case PfMap(e) => PfMapStep(s, e, s');
    case PfUnmap(e) => PfUnmapStep(s, e, s');
    case StackStore(e, k, w) => StackStoreStep(s, e, k, w, s');
    case Alloc(e, v, f) => AllocStep(s, e, v, f, s');
    case Unmap(e, v) => UnmapStep(s, e, v, s');
    case Exit(e) => ExitStep(s, e, s');
  }

  // A read-only page is shared by one system call.
  lemma OneMapIsDup(s: Vm, s': Vm, p: nat, c: nat, v: nat)
    requires p != c && c in s.spaces && Mapped(s, p, v) && !Mapped(s, c, v) && Visible(v)
    requires p in s.phase && c in s.phase && s.phase[p] == s.phase[c] == Idle
    requires !IsShared(s.spaces[p][v].flags)
    requires Maps(s, s', p, v, c, v, DupFlags(s.spaces[p][v].flags))
    ensures Next(s, Dup(p, c, v), s')
  {
    assert DupMapping(s.spaces[p][v]) == Mapping(FrameOf(s, p, v), DupFlags(s.spaces[p][v].flags));
  }

  // The two system calls of duppage, taken together, are one Dup step.
  lemma TwoMapsAreDup(s: Vm, s1: Vm, s2: Vm, p: nat, c: nat, v: nat)
    requires InBounds(s) && p != c && c in s.spaces && Mapped(s, p, v) && !Mapped(s, c, v) && Visible(v)
    requires p in s.phase && c in s.phase && s.phase[p] == s.phase[c] == Idle
    requires IsShared(s.spaces[p][v].flags)
    requires Maps(s, s1, p, v, c, v, DupFlags(s.spaces[p][v].flags))
    requires Maps(s1, s2, p, v, p, v, DupFlags(s.spaces[p][v].flags))
    ensures Next(s, Dup(p, c, v), s2)
  {
    forall e: nat, u: nat | Mapped(s, e, u)
      ensures s2.frames[FrameOf(s, e, u)] == s.frames[FrameOf(s, e, u)]
    {
      assert Mapped(s1, e, u) && FrameOf(s1, e, u) == FrameOf(s, e, u);
    }
    assert KeepsFrames(s, s2);
  }

  ghost predicate IsRun(run: seq<Vm>, actions: seq<Action>) {
    |run| == |actions| + 1 && forall i {:trigger actions[i]} :: 0 <= i < |actions| ==> Next(run[i], actions[i], run[i + 1])
  }

  predicate IsUser(flags: nat) { flags / PTE_U % 2 == 1 }

  // The pages of p that carry PTE_U; fork passes over the others.
  ghost function UserPages(s: Vm, p: nat): (users: set<nat>)
    requires p in s.spaces
  {
    set u | u in s.spaces[p] && IsUser(s.spaces[p][u].flags)
  }

  ghost function Below(pages: map<nat, Page>, users: set<nat>, v: nat): map<nat, Page> {
    map u | u in pages && u in users && u < v :: pages[u]
  }

  // How far fork has come: the child c sees p's user pages below v, and nothing
  // else has changed for anyone.
  ghost predicate ForkedUpTo(s: Vm, view: View, users: set<nat>, p: nat, c: nat, v: nat)
    requires Inv(s)
  {
    && p in view && c !in view && p in s.spaces && c in s.spaces
    && p in s.phase && c in s.phase && s.phase[p] == s.phase[c] == Idle
    && Views(s) == view[c := Below(view[p], users, v)]
    && (forall u :: u in s.spaces[c] ==> u < v)
    && (forall u :: u in s.spaces[p] ==> (IsUser(s.spaces[p][u].flags) <==> u in users))
  }

  lemma BelowNext(view: View, users: set<nat>, p: nat, c: nat, v: nat)
    requires p in view && v in view[p] && v in users
    ensures SetPage(view[c := Below(view[p], users, v)], c, v, view[p][v]) == view[c := Below(view[p], users, v + 1)]
  {
    assert Below(view[p], users, v + 1) == Set(Below(view[p], users, v), v, view[p][v]);
  }

  lemma DupKeepsForkShape(s: Vm, s': Vm, users: set<nat>, p: nat, c: nat, v: nat)
    requires Next(s, Dup(p, c, v), s') && v in users
    requires forall u :: u in s.spaces[c] ==> u < v
    requires forall u :: u in s.spaces[p] ==> (IsUser(s.spaces[p][u].flags) <==> u in users)
    ensures p in s'.spaces && c in s'.spaces
    ensures forall u :: u in s'.spaces[c] ==> u < v + 1
    ensures forall u :: u in s'.spaces[p] ==> (IsUser(s'.spaces[p][u].flags) <==> u in users)
  {
    forall u | u in s'.spaces[c] ensures u < v + 1 {
      assert u in s.spaces[c] || u == v;
    }
  }

  lemma ForkShares(s: Vm, s': Vm, view: View, users: set<nat>, p: nat, c: nat, v: nat)
    requires Inv(s) && ForkedUpTo(s, view, users, p, c, v) && Next(s, Dup(p, c, v), s') && v in users
    ensures Inv(s') && ForkedUpTo(s', view, users, p, c, v + 1)
  {
    DupStep(s, p, c, v, s');
    DupKeepsForkShape(s, s', users, p, c, v);
    ViewShows(s, p, v);
    assert Views(s)[p] == view[p];
    BelowNext(view, users, p, c, v);
  }

  lemma ForkStarts(s: Vm, s': Vm, p: nat, c: nat)
    requires Inv(s) && Next(s, Exofork(c), s')
    requires p in s.spaces && p in s.phase && s.phase[p] == Idle
    ensures Inv(s') && ForkedUpTo(s', Views(s), UserPages(s, p), p, c, 0)
  {
    ExoforkStep(s, c, s');
    assert Below(Views(s)[p], UserPages(s, p), 0) == map[];
  }

  // What a child of p starts with: p's pages that carry PTE_U.
  ghost function Inherited(s: Vm, p: nat): map<nat, Page>
    requires InBounds(s) && p in s.spaces
  {
    map v | v in Views(s)[p] && v in UserPages(s, p) :: Views(s)[p][v]
  }

  // That is everything when all pages of p carry PTE_U.
  lemma InheritedIsAll(s: Vm, p: nat)
    requires InBounds(s) && p in s.spaces && forall u :: u in s.spaces[p] ==> IsUser(s.spaces[p][u].flags)
    ensures Inherited(s, p) == Views(s)[p]
  {
    assert Inherited(s, p).Keys == Views(s)[p].Keys;
  }

  lemma ForkEnds(s0: Vm, s: Vm, s': Vm, p: nat, c: nat, f: nat)
    requires Inv(s0) && Inv(s) && p in s0.spaces
    requires ForkedUpTo(s, Views(s0), UserPages(s0, p), p, c, NUVPN) && Next(s, NewExStack(c, f), s')
    ensures Inv(s') && Views(s') == Views(s0)[c := Inherited(s0, p)]
    ensures Mapped(s', c, EXSTK) && CanWrite(s', c, EXSTK)
  {
    NewExStackStep(s, c, f, s');
    var pages := Views(s0)[p];
    forall v | v in pages ensures v < NUVPN {
      ViewShows(s0, p, v);
    }
    assert Below(pages, UserPages(s0, p), NUVPN) == Inherited(s0, p);
  }

  lemma ForkSkips(s: Vm, view: View, users: set<nat>, p: nat, c: nat, v: nat)
    requires Inv(s) && ForkedUpTo(s, view, users, p, c, v)
    requires !Mapped(s, p, v) || !Visible(v) || v !in users
    ensures ForkedUpTo(s, view, users, p, c, v + 1)
  {
    ViewShows(s, p, v);
    assert Views(s)[p] == view[p];
    assert Below(view[p], users, v + 1) == Below(view[p], users, v);
  }

  // The same memory, with environment e in another phase of its handler.
  function InPhase(s: Vm, e: nat, ph: Phase): Vm { Vm(s.spaces, s.frames, s.phase[e := ph]) }

  /** The four system-call effects of pgfault, on states that do not record the
      phase, are the four fault steps of the machine. */
  lemma CallsArePgfault(s: Vm, t1: Vm, t2: Vm, t3: Vm, t4: Vm, e: nat, v: nat, f: nat)
    requires Mapped(s, e, v) && Visible(v) && !CanWrite(s, e, v) && e in s.phase && s.phase[e] == Idle
    requires Allocates(s, t1, e, PFTEMP, f) && t1.phase == s.phase
    requires Mapped(t1, e, PFTEMP) && Mapped(t1, e, v) && FrameOf(t1, e, v) < |t1.frames|
    requires t2 == Vm(t1.spaces, t1.frames[f := t1.frames[FrameOf(t1, e, v)]], s.phase)
    requires Maps(t2, t3, e, PFTEMP, e, v, PERM_RW)
    requires KeepsFrames(t3, t4) && e in t3.spaces && t4.spaces == DropMapping(t3.spaces, e, PFTEMP) && t4.phase == s.phase
    ensures IsRun([s, InPhase(t1, e, Alloced(v)), InPhase(t2, e, Copied(v)), InPhase(t3, e, Moved(v)), t4],
                  [PfAlloc(e, v, f), PfCopy(e), PfMap(e), PfUnmap(e)])
  {
    var s1, s2, s3 := InPhase(t1, e, Alloced(v)), InPhase(t2, e, Copied(v)), InPhase(t3, e, Moved(v));
    assert Next(s, PfAlloc(e, v, f), s1) by {
      assert forall d: nat, u: nat :: Mapped(s, d, u) ==> s1.frames == t1.frames;
    }
    assert FrameOf(s1, e, PFTEMP) == f;
    assert Next(s1, PfCopy(e), s2);
    assert KeepsFrames(s2, s3) by {
      assert forall d: nat, u: nat :: Mapped(s2, d, u) <==> Mapped(t2, d, u);
    }
    assert Next(s2, PfMap(e), s3);
    assert KeepsFrames(s3, t4) by {
      assert forall d: nat, u: nat :: Mapped(s3, d, u) <==> Mapped(t3, d, u);
    }
    assert Next(s3, PfUnmap(e), t4) by {
      assert s3.phase[e := Idle] == s.phase;
    }
  }

  // ---------------------------------------------------------------------
  // Whole runs

  ghost predicate IsEagerRun(views: seq<View>, actions: seq<Action>) {
    |views| == |actions| + 1 && forall i {:trigger actions[i]} :: 0 <= i < |actions| ==> EagerNext(views[i], actions[i], views[i + 1])
  }

  ghost function RunViews(run: seq<Vm>): (views: seq<View>)
    requires forall i {:trigger run[i]} :: 0 <= i < |run| ==> InBounds(run[i])
  {
    seq(|run|, i requires 0 <= i < |run| => Views(run[i]))
  }

  lemma {:induction false} RunKeepsInv(run: seq<Vm>, actions: seq<Action>, n: nat)
    requires IsRun(run, actions) && Inv(run[0]) && n <= |actions|
    ensures Inv(run[n])
  {
    if n > 0 {
      RunKeepsInv(run, actions, n - 1);
      var a := actions[n - 1];
      StepRefines(run[n - 1], a, run[n]);
    }
  }

  /** Over any interleaving of forks, stores, page faults, allocations and exits,
      what every environment reads is what it would read had fork copied every
      page when duppage shared it. */
  lemma CowRefinesEagerCopy(run: seq<Vm>, actions: seq<Action>)
    requires IsRun(run, actions) && Inv(run[0])
    ensures forall i {:trigger run[i]} :: 0 <= i < |run| ==> Inv(run[i]) && InBounds(run[i])
    ensures IsEagerRun(RunViews(run), actions)
  {
    forall i | 0 <= i < |run| ensures Inv(run[i]) {
      RunKeepsInv(run, actions, i);
    }
    var views := RunViews(run);
    forall i | 0 <= i < |actions| ensures EagerNext(views[i], actions[i], views[i + 1]) {
      StepRefines(run[i], actions[i], run[i + 1]);
    }
  }
}
