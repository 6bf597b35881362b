/** Page faults of programs (sched/kern/trap.c). */
module Upcall {
  // The frame that page_fault_handler pushes and its unwinding in
  // sched/lib/pfentry.S, byte by byte.

  import opened Common
  import opened Mmu

  type Byte = x: int | 0 <= x < 256

  type Memory = Word -> Byte

  const WORDS := 0x1_0000_0000
  const UXSTACKTOP: Word := UTOP
  const EXSTK: Word := UXSTACKTOP - PGSIZE
  const EXSTK_TOP: Word := UXSTACKTOP - 1
  const FRAME_SIZE := 52

  // Sums and differences of addresses wrap around.
  function Add(a: Word, k: Word): Word { if a + k < WORDS then a + k else a + k - WORDS }

  function Sub(a: Word, b: Word): Word { if a >= b then a - b else a - b + WORDS }

  function ByteOf(w: Word, k: int): Byte
    requires 0 <= k < 4
  {
    if k == 0 then w % 256 else if k == 1 then w / 256 % 256 else if k == 2 then w / 65536 % 256 else w / 16777216
  }

  // Little-endian words.
  function Load(m: Memory, a: Word): Word {
    m(a) + 256 * m(Add(a, 1)) + 65536 * m(Add(a, 2)) + 16777216 * m(Add(a, 3))
  }

  function Store(m: Memory, a: Word, w: Word): Memory {
    (x: Word) => if Sub(x, a) < 4 then ByteOf(w, Sub(x, a)) else m(x)
  }

  lemma BytesMakeWord(w: Word)
    ensures ByteOf(w, 0) + 256 * ByteOf(w, 1) + 65536 * ByteOf(w, 2) + 16777216 * ByteOf(w, 3) == w
  {
    assert w / 65536 == w / 256 / 256 && w / 16777216 == w / 65536 / 256;
  }

  lemma LoadStored(m: Memory, a: Word, w: Word)
    ensures Load(Store(m, a, w), a) == w
  {
    forall k | 0 <= k < 4 ensures Store(m, a, w)(Add(a, k)) == ByteOf(w, k) {
      assert Sub(Add(a, k), a) == k;
    }
    BytesMakeWord(w);
  }

  // The words at a and b share no byte.
  predicate Separate(a: Word, b: Word) { 4 <= Sub(a, b) <= WORDS - 4 }

  lemma LoadOther(m: Memory, a: Word, w: Word, b: Word)
    requires Separate(b, a)
    ensures Load(Store(m, a, w), b) == Load(m, b)
  {
    forall k | 0 <= k < 4 ensures Store(m, a, w)(Add(b, k)) == m(Add(b, k)) {
    }
  }

  datatype Regs = Regs(edi: Word, esi: Word, ebp: Word, ebx: Word, edx: Word, ecx: Word, eax: Word)

  // What must be the same again when the faulting instruction is retried.
  datatype Context = Context(regs: Regs, eip: Word, eflags: Word, esp: Word)

  // The words of a struct UTrapframe; pusha also saves an esp, which popal skips.
  datatype Frame = Frame(va: Word, err: Word, oesp: Word, ctx: Context)

  function Words(u: Frame): (ws: seq<Word>)
    ensures |ws| == 13
  {
    [u.va, u.err, u.ctx.regs.edi, u.ctx.regs.esi, u.ctx.regs.ebp, u.oesp, u.ctx.regs.ebx, u.ctx.regs.edx,
     u.ctx.regs.ecx, u.ctx.regs.eax, u.ctx.eip, u.ctx.eflags, u.ctx.esp]
  }

  // ws written as consecutive words from address a.
  function Push(m: Memory, a: Word, ws: seq<Word>): Memory {
    (x: Word) => if Sub(x, a) < 4 * |ws| then ByteOf(ws[Sub(x, a) / 4], Sub(x, a) % 4) else m(x)
  }

  lemma Quarter(i: nat, k: nat)
    requires k < 4
    ensures (4 * i + k) / 4 == i && (4 * i + k) % 4 == k
  {
  }

  lemma Offset(a: Word, i: nat, k: nat)
    requires i < 1000 && k < 4
    ensures Sub(Add(Add(a, 4 * i), k), a) == 4 * i + k
  {
  }

  lemma PushedByte(m: Memory, a: Word, ws: seq<Word>, i: nat, k: nat, x: Word)
    requires i < |ws| < 1000 && k < 4 && x == Add(Add(a, 4 * i), k)
    ensures Push(m, a, ws)(x) == ByteOf(ws[i], k)
  {
    Offset(a, i, k);
    Quarter(i, k);
  }

  lemma PushedWord(m: Memory, a: Word, ws: seq<Word>, i: nat)
    requires i < |ws| < 1000
    ensures Load(Push(m, a, ws), Add(a, 4 * i)) == ws[i]
  {
    var at := Add(a, 4 * i);
    assert Add(at, 0) == at;
    PushedByte(m, a, ws, i, 0, at);
    PushedByte(m, a, ws, i, 1, Add(at, 1));
    PushedByte(m, a, ws, i, 2, Add(at, 2));
    PushedByte(m, a, ws, i, 3, Add(at, 3));
    BytesMakeWord(ws[i]);
  }

  predicate HoldsWord(m: Memory, f: Word, u: Frame, i: nat)
    requires i < 13
  {
    Load(m, Add(f, 4 * i)) == Words(u)[i]
  }

  // The frame u lies at address f.
  predicate HoldsFrame(m: Memory, f: Word, u: Frame) {
    forall i: nat {:trigger HoldsWord(m, f, u, i)} :: i < 13 ==> HoldsWord(m, f, u, i)
  }

  // ---------------------------------------------------------------------
  // The kernel's side

  predicate OnExceptionStack(esp: Word) { EXSTK <= esp <= EXSTK_TOP }

  // Where the kernel puts the frame for a fault with stack pointer esp.
  function FrameBase(esp: Word): int {
    if OnExceptionStack(esp) then esp - 4 - FRAME_SIZE else EXSTK_TOP - FRAME_SIZE
  }

  // Memory once the scratch word and the frame are written.
  function Pushed(m: Memory, u: Frame): Memory {
    Push(if OnExceptionStack(u.ctx.esp) then Store(m, u.ctx.esp - 4, 0) else m, FrameBase(u.ctx.esp), Words(u))
  }

  lemma PushedHolds(m: Memory, u: Frame)
    ensures HoldsFrame(Pushed(m, u), FrameBase(u.ctx.esp), u)
  {
    var m1 := if OnExceptionStack(u.ctx.esp) then Store(m, u.ctx.esp - 4, 0) else m;
    forall i: nat | i < 13 ensures HoldsWord(Pushed(m, u), FrameBase(u.ctx.esp), u, i) {
      PushedWord(m1, FrameBase(u.ctx.esp), Words(u), i);
    }
  }

  // A struct UTrapframe at address f, field by field.
  predicate FaultAt(m: Memory, f: Word, va: Word, err: Word) { Load(m, f) == va && Load(m, Add(f, 4)) == err }

  predicate RegsAt(m: Memory, f: Word, regs: Regs, oesp: Word) {
    && Load(m, Add(f, 8)) == regs.edi && Load(m, Add(f, 12)) == regs.esi
    && Load(m, Add(f, 16)) == regs.ebp && Load(m, Add(f, 20)) == oesp
    && Load(m, Add(f, 24)) == regs.ebx && Load(m, Add(f, 28)) == regs.edx
    && Load(m, Add(f, 32)) == regs.ecx && Load(m, Add(f, 36)) == regs.eax
  }

  predicate ReturnAt(m: Memory, f: Word, eip: Word, eflags: Word, esp: Word) {
    Load(m, Add(f, 40)) == eip && Load(m, Add(f, 44)) == eflags && Load(m, Add(f, 48)) == esp
  }

  // Near the top of the exception page for a first fault; a word and a frame below
  // the stack pointer for a further one.
  function FrameAddress(esp: Word): Word { if UTOP - PGSIZE <= esp < UTOP then esp - 56 else UTOP - 53 }

  lemma FaultLayout(m: Memory, f: Word, u: Frame)
    requires HoldsFrame(m, f, u)
    ensures FaultAt(m, f, u.va, u.err) && ReturnAt(m, f, u.ctx.eip, u.ctx.eflags, u.ctx.esp)
  {
    assert Add(f, 0) == f;
    assert HoldsWord(m, f, u, 0) && HoldsWord(m, f, u, 1);
    assert HoldsWord(m, f, u, 10) && HoldsWord(m, f, u, 11) && HoldsWord(m, f, u, 12);
  }

  lemma RegsLayout(m: Memory, f: Word, u: Frame)
    requires HoldsFrame(m, f, u)
    ensures RegsAt(m, f, u.ctx.regs, u.oesp)
  {
    assert HoldsWord(m, f, u, 2) && HoldsWord(m, f, u, 3) && HoldsWord(m, f, u, 4) && HoldsWord(m, f, u, 5);
    assert HoldsWord(m, f, u, 6) && HoldsWord(m, f, u, 7) && HoldsWord(m, f, u, 8) && HoldsWord(m, f, u, 9);
  }

  /** Where the handler finds what: the fault address comes first and the error code
      next, then the registers in the order of pusha, eip, eflags and esp. */
  lemma PushedLayout(m: Memory, u: Frame)
    ensures var m', f := Pushed(m, u), FrameAddress(u.ctx.esp);
            FaultAt(m', f, u.va, u.err) && RegsAt(m', f, u.ctx.regs, u.oesp) && ReturnAt(m', f, u.ctx.eip, u.ctx.eflags, u.ctx.esp)
  {
    PushedHolds(m, u);
    FaultLayout(Pushed(m, u), FrameBase(u.ctx.esp), u);
    RegsLayout(Pushed(m, u), FrameBase(u.ctx.esp), u);
  }

  // The frame and the scratch word lie below a recursive fault's stack pointer.
  lemma PushedKeepsOthers(m: Memory, u: Frame, x: Word)
    requires x < FrameBase(u.ctx.esp) || (if OnExceptionStack(u.ctx.esp) then u.ctx.esp else EXSTK_TOP) <= x
    ensures Pushed(m, u)(x) == m(x)
  {
  }

  // ---------------------------------------------------------------------
  // The upcall's side

  datatype Unwound = Unwound(ctx: Context, mem: Memory)

  // Where the trap-time eip goes: the word below the trap-time stack pointer.
  function Scratch(esp: Word): Word { Sub(esp, 4) }

  // Memory as the upcall leaves it, given the eip and the scratch address.
  function Patched(m: Memory, f: Word, eip: Word, a: Word): Memory { Store(Store(m, a, eip), Add(f, 48), a) }

  // The registers that popal takes from the frame at f.
  function PopAll(m: Memory, f: Word): Regs {
    Regs(Load(m, Add(f, 8)), Load(m, Add(f, 12)), Load(m, Add(f, 16)), Load(m, Add(f, 24)), Load(m, Add(f, 28)), Load(m, Add(f, 32)),
         Load(m, Add(f, 36)))
  }

  /** _pgfault_upcall from the handler's return, with the frame at f. */
  function Unwind(m: Memory, f: Word): Unwound {
    var a := Scratch(Load(m, Add(f, 48)));
    var m2 := Patched(m, f, Load(m, Add(f, 40)), a);
    var esp := Load(m2, Add(f, 48));
    Unwound(Context(PopAll(m2, f), Load(m2, esp), Load(m2, Add(f, 44)), Add(esp, 4)), m2)
  }

  // The scratch word for esp shares no byte with a frame at f.
  predicate Clear(esp: Word, f: Word) { FRAME_SIZE <= Sub(Scratch(esp), f) <= WORDS - 4 }

  lemma StoreKeepsWord(m: Memory, a: Word, w: Word, f: Word, u: Frame, i: nat)
    requires i < 13 && HoldsWord(m, f, u, i) && Separate(Add(f, 4 * i), a)
    ensures HoldsWord(Store(m, a, w), f, u, i)
  {
    LoadOther(m, a, w, Add(f, 4 * i));
  }

  lemma PatchedHolds(m: Memory, f: Word, u: Frame)
    requires HoldsFrame(m, f, u) && Clear(u.ctx.esp, f)
    ensures var a := Scratch(u.ctx.esp);
            var m2 := Patched(m, f, u.ctx.eip, a);
            && (forall i: nat {:trigger HoldsWord(m2, f, u, i)} :: i < 12 ==> HoldsWord(m2, f, u, i))
            && Load(m2, a) == u.ctx.eip && Load(m2, Add(f, 48)) == a
  {
    var a := Scratch(u.ctx.esp);
    var m1 := Store(m, a, u.ctx.eip);
    forall i: nat | i < 12 ensures HoldsWord(Store(m1, Add(f, 48), a), f, u, i) {
      assert HoldsWord(m, f, u, i);
      StoreKeepsWord(m, a, u.ctx.eip, f, u, i);
      StoreKeepsWord(m1, Add(f, 48), a, f, u, i);
    }
    LoadStored(m, a, u.ctx.eip);
    LoadOther(m1, Add(f, 48), a, a);
    LoadStored(m1, Add(f, 48), a);
  }

  lemma PopAllRestores(m: Memory, f: Word, u: Frame)
    requires forall i: nat {:trigger HoldsWord(m, f, u, i)} :: i < 12 ==> HoldsWord(m, f, u, i)
    ensures PopAll(m, f) == u.ctx.regs && Load(m, Add(f, 44)) == u.ctx.eflags
  {
    assert HoldsWord(m, f, u, 2) && HoldsWord(m, f, u, 3) && HoldsWord(m, f, u, 4) && HoldsWord(m, f, u, 6);
    assert HoldsWord(m, f, u, 7) && HoldsWord(m, f, u, 8) && HoldsWord(m, f, u, 9) && HoldsWord(m, f, u, 11);
  }

  lemma FrameHas(m: Memory, f: Word, u: Frame)
    requires HoldsFrame(m, f, u)
    ensures Load(m, Add(f, 40)) == u.ctx.eip && Load(m, Add(f, 48)) == u.ctx.esp
  {
    assert HoldsWord(m, f, u, 10) && HoldsWord(m, f, u, 12);
  }

  /** Unwinding an intact frame restores every general register, eip, eflags and
      esp, and writes only the scratch word and the frame's last word. */
  lemma UnwindRestores(m: Memory, f: Word, u: Frame)
    requires HoldsFrame(m, f, u) && Clear(u.ctx.esp, f)
    ensures Unwind(m, f).ctx == u.ctx
    ensures Unwind(m, f).mem == Patched(m, f, u.ctx.eip, Scratch(u.ctx.esp))
  {
    FrameHas(m, f, u);
    PatchedHolds(m, f, u);
    PopAllRestores(Patched(m, f, u.ctx.eip, Scratch(u.ctx.esp)), f, u);
  }

  lemma UnwindKeepsOthers(m: Memory, f: Word, u: Frame, x: Word)
    requires HoldsFrame(m, f, u) && Clear(u.ctx.esp, f)
    requires Sub(x, Scratch(u.ctx.esp)) >= 4 && Sub(x, Add(f, 48)) >= 4
    ensures Unwind(m, f).mem(x) == m(x)
  {
    UnwindRestores(m, f, u);
  }

  // ---------------------------------------------------------------------
  // One fault, from the push to the return

  // The handler leaves the bytes of a frame at f alone.
  ghost predicate FrameIntact(m: Memory, m': Memory, f: Word) {
    forall x: Word {:trigger m'(x)} :: Sub(x, f) < FRAME_SIZE ==> m'(x) == m(x)
  }

  lemma IntactHolds(m: Memory, m': Memory, f: Word, u: Frame)
    requires HoldsFrame(m, f, u) && FrameIntact(m, m', f)
    ensures HoldsFrame(m', f, u)
  {
    forall i: nat | i < 13 ensures HoldsWord(m', f, u, i) {
      assert HoldsWord(m, f, u, i);
      forall k | 0 <= k < 4 ensures m'(Add(Add(f, 4 * i), k)) == m(Add(Add(f, 4 * i), k)) {
        assert Sub(Add(Add(f, 4 * i), k), f) == 4 * i + k;
      }
    }
  }

  // Three stack pointers at the top edge of the exception page, where the test
  // for a recursive fault fails but the scratch word meets the frame.
  predicate AtTopEdge(esp: Word) { UXSTACKTOP <= esp <= UXSTACKTOP + 2 }

  lemma ClearUnlessAtEdge(esp: Word)
    ensures Clear(esp, FrameBase(esp)) <==> !AtTopEdge(esp)
  {
  }

  /** The round trip: whatever the handler does short of writing to its frame,
      the upcall returns to the trap-time context. */
  lemma FaultReturns(m: Memory, u: Frame, m': Memory)
    requires !AtTopEdge(u.ctx.esp) && FrameIntact(Pushed(m, u), m', FrameBase(u.ctx.esp))
    ensures Unwind(m', FrameBase(u.ctx.esp)).ctx == u.ctx
  {
    PushedHolds(m, u);
    IntactHolds(Pushed(m, u), m', FrameBase(u.ctx.esp), u);
    ClearUnlessAtEdge(u.ctx.esp);
    UnwindRestores(m', FrameBase(u.ctx.esp), u);
  }

  predicate Returns(m: Memory, u: Frame) { Unwind(Pushed(m, u), FrameBase(u.ctx.esp)).ctx == u.ctx }

  // At the edge the address of the scratch word overwrites part of the eip.
  lemma EdgeByte(a: Word)
    requires UXSTACKTOP - 4 <= a <= UXSTACKTOP - 2
    ensures ByteOf(a, a - (UXSTACKTOP - 5)) != 0
  {
    assert a == UXSTACKTOP - 4 || a == UXSTACKTOP - 3 || a == UXSTACKTOP - 2;
  }

  lemma EdgeOverlap(m: Memory, a: Word)
    requires UXSTACKTOP - 4 <= a <= UXSTACKTOP - 2
    ensures Store(m, UXSTACKTOP - 5, a)(a) != 0
    ensures Load(Store(m, UXSTACKTOP - 5, a), UXSTACKTOP - 5) == a
  {
    LoadStored(m, UXSTACKTOP - 5, a);
    EdgeByte(a);
  }

  lemma NonzeroByte(m: Memory, a: Word)
    requires m(a) != 0
    ensures Load(m, a) != 0
  {
  }

  lemma EdgeLosesEip(m: Memory, u: Frame)
    requires AtTopEdge(u.ctx.esp) && u.ctx.eip == 0
    ensures !Returns(m, u)
  {
    PushedHolds(m, u);
    var m1, f := Pushed(m, u), EXSTK_TOP - FRAME_SIZE;
    FrameHas(m1, f, u);
    var a := u.ctx.esp - 4;
    EdgeOverlap(Store(m1, a, 0), a);
    NonzeroByte(Patched(m1, f, 0, a), a);
    assert Unwind(m1, f).ctx.eip == Load(Patched(m1, f, 0, a), a);
  }

  lemma SomeEdgeFaultFails(esp: Word) returns (m: Memory, u: Frame)
    requires AtTopEdge(esp)
    ensures u.ctx.esp == esp && !Returns(m, u)
  {
    m := (x: Word) => 0 as Byte;
    u := Frame(0, 0, 0, Context(Regs(0, 0, 0, 0, 0, 0, 0), 0, 0, esp));
    EdgeLosesEip(m, u);
  }

  lemma OffEdgeReturns(m: Memory, u: Frame)
    requires !AtTopEdge(u.ctx.esp)
    ensures Returns(m, u)
  {
    FaultReturns(m, u, Pushed(m, u));
  }

  /** The round trip works for every context with a given stack pointer exactly
      when that stack pointer is not at the top edge. */
  lemma ReturnsExactlyOffTheEdge(esp: Word)
    ensures (forall m: Memory, u: Frame {:trigger Returns(m, u)} :: u.ctx.esp == esp ==> Returns(m, u)) <==> !AtTopEdge(esp)
  {
    if AtTopEdge(esp) {
      var m, u := SomeEdgeFaultFails(esp);
      assert !Returns(m, u);
    } else {
      forall m: Memory, u: Frame | u.ctx.esp == esp ensures Returns(m, u) {
        OffEdgeReturns(m, u);
      }
    }
  }

  // ---------------------------------------------------------------------
  // Nested faults

  /** What a handler does: it writes bytes, and it may fault in context u, which
      the inner handler deals with before it goes on. */
  datatype Doings = Finish | Write(x: Word, b: Byte, next: Doings) | Fault(u: Frame, inner: Doings, next: Doings)

  function Put(m: Memory, x: Word, b: Byte): Memory { (y: Word) => if y == x then b else m(y) }

  // Memory when the handler is done.
  function Handle(t: Doings, m: Memory): Memory {
    match t
    case Finish => m
    case Write(x, b, next) => Handle(next, Put(m, x, b))
    case Fault(u, inner, next) => Handle(next, Unwind(Handle(inner, Pushed(m, u)), FrameBase(u.ctx.esp)).mem)
  }

  /** A handler whose frame is at f runs on the exception stack below it, leaves
      the stack from f up alone, and faults only where another frame fits. */
  predicate Fits(t: Doings, f: Word) {
    match t
    case Finish => true
    case Write(x, _, next) => !(f <= x < UXSTACKTOP) && Fits(next, f)
    case Fault(u, inner, next) =>
      && EXSTK + 4 + FRAME_SIZE <= u.ctx.esp <= f
      && Fits(inner, FrameBase(u.ctx.esp)) && Fits(next, f)
  }

  // Every fault in t returned to its context.
  predicate AllReturn(t: Doings, m: Memory) {
    match t
    case Finish => true
    case Write(x, b, next) => AllReturn(next, Put(m, x, b))
    case Fault(u, inner, next) =>
      var r := Unwind(Handle(inner, Pushed(m, u)), FrameBase(u.ctx.esp));
      AllReturn(inner, Pushed(m, u)) && r.ctx == u.ctx && AllReturn(next, r.mem)
  }

  // What unwinding a frame below f writes lies below f.
  lemma UnwindBelow(m: Memory, u: Frame, f: Word, x: Word)
    requires EXSTK + 4 + FRAME_SIZE <= u.ctx.esp <= f <= x < UXSTACKTOP
    requires HoldsFrame(m, FrameBase(u.ctx.esp), u)
    ensures Unwind(m, FrameBase(u.ctx.esp)).mem(x) == m(x)
  {
    UnwindKeepsOthers(m, FrameBase(u.ctx.esp), u, x);
  }

  // The exception stack from f up is as it was.
  ghost predicate SameFrom(m: Memory, m': Memory, f: Word) {
    forall x: Word {:trigger m'(x)} :: f <= x < UXSTACKTOP ==> m'(x) == m(x)
  }

  lemma SameFromTrans(m: Memory, m1: Memory, m2: Memory, f: Word)
    requires SameFrom(m, m1, f) && SameFrom(m1, m2, f)
    ensures SameFrom(m, m2, f)
  {
  }

  lemma PutBelow(m: Memory, x: Word, b: Byte, f: Word)
    requires !(f <= x < UXSTACKTOP)
    ensures SameFrom(m, Put(m, x, b), f)
  {
  }

  lemma NestedHolds(m: Memory, u: Frame, m': Memory)
    requires EXSTK + 4 + FRAME_SIZE <= u.ctx.esp < UXSTACKTOP
    requires SameFrom(Pushed(m, u), m', FrameBase(u.ctx.esp))
    ensures FrameIntact(Pushed(m, u), m', FrameBase(u.ctx.esp)) && HoldsFrame(m', FrameBase(u.ctx.esp), u)
  {
    PushedHolds(m, u);
    IntactHolds(Pushed(m, u), m', FrameBase(u.ctx.esp), u);
  }

  lemma NestedByte(m: Memory, u: Frame, m': Memory, f: Word, x: Word)
    requires EXSTK + 4 + FRAME_SIZE <= u.ctx.esp <= f <= x < UXSTACKTOP
    requires SameFrom(Pushed(m, u), m', FrameBase(u.ctx.esp)) && HoldsFrame(m', FrameBase(u.ctx.esp), u)
    ensures Unwind(m', FrameBase(u.ctx.esp)).mem(x) == m(x)
  {
    UnwindBelow(m', u, f, x);
    PushedKeepsOthers(m, u, x);
    assert m'(x) == Pushed(m, u)(x);
  }

  lemma NestedSame(m: Memory, u: Frame, m': Memory, f: Word)
    requires EXSTK + 4 + FRAME_SIZE <= u.ctx.esp <= f < UXSTACKTOP
    requires SameFrom(Pushed(m, u), m', FrameBase(u.ctx.esp)) && HoldsFrame(m', FrameBase(u.ctx.esp), u)
    ensures SameFrom(m, Unwind(m', FrameBase(u.ctx.esp)).mem, f)
  {
    forall x: Word | f <= x < UXSTACKTOP ensures Unwind(m', FrameBase(u.ctx.esp)).mem(x) == m(x) {
      NestedByte(m, u, m', f, x);
    }
  }

  // One nested fault: it returns, and the stack above it is as before.
  lemma NestedFault(m: Memory, u: Frame, m': Memory, f: Word)
    requires EXSTK + 4 + FRAME_SIZE <= u.ctx.esp <= f < UXSTACKTOP
    requires SameFrom(Pushed(m, u), m', FrameBase(u.ctx.esp))
    ensures Unwind(m', FrameBase(u.ctx.esp)).ctx == u.ctx
    ensures SameFrom(m, Unwind(m', FrameBase(u.ctx.esp)).mem, f)
  {
    NestedHolds(m, u, m');
    NestedSame(m, u, m', f);
    FaultReturns(m, u, m');
  }

  /** At any nesting depth that fits the exception page, every fault returns to
      its own context, and no outer frame is touched. */
  lemma {:induction false} NestedFaultsReturn(t: Doings, m: Memory, f: Word)
    requires Fits(t, f) && EXSTK <= f < UXSTACKTOP
    ensures AllReturn(t, m) && SameFrom(m, Handle(t, m), f)
    decreases t
  {
    match t
    case Finish =>
    case Write(x, b, next) =>
      NestedFaultsReturn(next, Put(m, x, b), f);
      PutBelow(m, x, b, f);
      SameFromTrans(m, Put(m, x, b), Handle(t, m), f);
    case Fault(u, inner, next) =>
      var m1 := Handle(inner, Pushed(m, u));
      NestedFaultsReturn(inner, Pushed(m, u), FrameBase(u.ctx.esp));
      NestedFault(m, u, m1, f);
      var m2 := Unwind(m1, FrameBase(u.ctx.esp)).mem;
      NestedFaultsReturn(next, m2, f);
      SameFromTrans(m, m2, Handle(t, m), f);
  }

  lemma StackIntact(m: Memory, m': Memory)
    requires SameFrom(m, m', EXSTK_TOP - FRAME_SIZE)
    ensures FrameIntact(m, m', EXSTK_TOP - FRAME_SIZE)
  {
  }

  /** From the first fault of the program, on its own stack. */
  lemma ProgramResumes(m: Memory, u: Frame, t: Doings)
    requires !OnExceptionStack(u.ctx.esp) && !AtTopEdge(u.ctx.esp) && Fits(t, EXSTK_TOP - FRAME_SIZE)
    ensures Unwind(Handle(t, Pushed(m, u)), FrameBase(u.ctx.esp)).ctx == u.ctx
    ensures AllReturn(t, Pushed(m, u))
  {
    NestedFaultsReturn(t, Pushed(m, u), EXSTK_TOP - FRAME_SIZE);
    StackIntact(Pushed(m, u), Handle(t, Pushed(m, u)));
    FaultReturns(m, u, Handle(t, Pushed(m, u)));
  }

  // ---------------------------------------------------------------------
  // The code itself

  datatype Outcome = Resumed | Destroyed | Panicked

  class Machine {
    var regs: Regs
    var eip: Word
    var eflags: Word
    var esp: Word
    var mem: Memory

    function Current(): Context
      reads this
    {
      Context(regs, eip, eflags, esp)
    }

    // The scratch word of a further fault, and the frame; utf_esp is our esp.
    method PushFrame(utf: Frame) returns (tmp: Word)
      requires utf.ctx.esp == esp
      modifies this`mem
      ensures mem == Pushed(old(mem), utf) && tmp == FrameBase(esp)
    {
      tmp := esp;
      if esp < EXSTK || esp > EXSTK_TOP {
        tmp := EXSTK_TOP - FRAME_SIZE;
      } else {
        tmp := tmp - 4;
        mem := Store(mem, tmp, 0);
        tmp := tmp - FRAME_SIZE;
      }
      mem := Push(mem, tmp, Words(utf));
    }

    /** page_fault_handler. stackOk says whether user_mem_assert finds the
        exception page writable. */
    method PageFault(va: Word, err: Word, oesp: Word, upcall: Option<Word>, stackOk: bool) returns (r: Outcome)
      modifies this
      ensures r == Destroyed <==> upcall.None? || !stackOk
      ensures r == Panicked <==> upcall.Some? && stackOk && FrameAddress(old(esp)) < UTOP - PGSIZE
      ensures r != Destroyed ==> mem == Pushed(old(mem), Frame(va, err, oesp, old(Current())))
      ensures r == Destroyed ==> mem == old(mem)
      ensures Current() == if r == Resumed then Context(old(regs), upcall.value, old(eflags), FrameAddress(old(esp))) else old(Current())
    {
      if upcall.None? || !stackOk {
        return Destroyed;
      }
      var utf := Frame(va, err, oesp, Current());
      var tmp := PushFrame(utf);
      if tmp < EXSTK || tmp > EXSTK_TOP {
        return Panicked;
      }
      esp := tmp;
      eip := upcall.value;
      return Resumed;
    }

    /** A fault up to the first lines of pgfault, which finds the address and the
        error code through the pointer to its frame. */
    method FaultToHandler(va: Word, err: Word, oesp: Word, upcall: Option<Word>, stackOk: bool)
      returns (r: Outcome, addr: Word, code: Word)
      modifies this
      ensures r == Resumed <==> upcall.Some? && stackOk && FrameAddress(old(esp)) >= UTOP - PGSIZE
      ensures r == Resumed ==> addr == va && code == err && eip == upcall.value && esp == FrameAddress(old(esp))
    {
      addr, code := 0, 0;
      PushedLayout(mem, Frame(va, err, oesp, Current()));
      r := PageFault(va, err, oesp, upcall, stackOk);
      if r == Resumed {
        addr := Load(mem, esp);
        code := Load(mem, Add(esp, 4));
      }
    }

    method Pop(ghost f: Word, ghost k: Word) returns (w: Word)
      requires k < 100 && esp == Add(f, k)
      modifies this`esp
      ensures w == Load(mem, Add(f, k)) && esp == Add(f, k + 4)
    {
      w := Load(mem, esp);
      esp := Add(esp, 4);
    }

    method PopAllRegisters(ghost f: Word)
      requires esp == Add(f, 8)
      modifies this`esp, this`regs
      ensures regs == PopAll(mem, f) && esp == Add(f, 40)
    {
      var edi := Pop(f, 8);
      var esi := Pop(f, 12);
      var ebp := Pop(f, 16);
      var _ := Pop(f, 20);
      var ebx := Pop(f, 24);
      var edx := Pop(f, 28);
      var ecx := Pop(f, 32);
      var eax := Pop(f, 36);
      regs := Regs(edi, esi, ebp, ebx, edx, ecx, eax);
    }

    // Up to the first popl: the trap-time eip goes below the trap-time stack.
    method PushEip()
      modifies this`mem, this`regs
      ensures mem == Patched(old(mem), esp, Load(old(mem), Add(esp, 40)), Scratch(Load(old(mem), Add(esp, 48))))
    {
      regs := regs.(eax := Load(mem, Add(esp, 40)));
      regs := regs.(ebx := Load(mem, Add(esp, 48)));
      regs := regs.(ebx := Sub(regs.ebx, 4));
      mem := Store(mem, regs.ebx, regs.eax);
      mem := Store(mem, Add(esp, 48), regs.ebx);
    }

    // From the eflags on: popfl, popl %esp, ret.
    method SwitchStack(ghost f: Word)
      requires esp == Add(f, 40)
      modifies this`esp, this`eflags, this`eip
      ensures eflags == Load(mem, Add(f, 44))
      ensures eip == Load(mem, Load(mem, Add(f, 48))) && esp == Add(Load(mem, Add(f, 48)), 4)
    {
      esp := Add(esp, 4);
      eflags := Pop(f, 44);
      esp := Load(mem, esp);
      eip := Pop(esp, 0);
    }

    /** _pgfault_upcall from the handler's return, instruction by instruction. */
    method Return()
      modifies this
      ensures Unwound(Current(), mem) == Unwind(old(mem), old(esp))
    {
      ghost var f := esp;
      PushEip();
      var popped := Pop(f, 0);
      regs := regs.(eax := popped);
      popped := Pop(f, 4);
      regs := regs.(eax := popped);
      PopAllRegisters(f);
      SwitchStack(f);
    }
  }
}
