/** Page table entries (sched/kern/pmap.c). */
module Entries {
  // How page_insert puts one together: the bitwise or of the page's address, the
  // permission argument and PTE_P.

  import opened Mmu

  // Bitwise or of two machine words.
  function Or(a: nat, b: nat): (r: nat)
    ensures r >= a && r >= b
  {
    if a == 0 then b else if b == 0 then a else 2 * Or(a / 2, b / 2) + if a % 2 == 1 || b % 2 == 1 then 1 else 0
  }

  /** Every bit of b is set in a, too. */
  predicate Within(b: nat, a: nat) { b == 0 || ((b % 2 == 1 ==> a % 2 == 1) && Within(b / 2, a / 2)) }

  lemma {:induction false} OrKeeps(a: nat, b: nat)
    ensures Or(a, b) == a <==> Within(b, a)
  {
    if b != 0 {
      OrKeeps(a / 2, b / 2);
    }
  }

  lemma WithinStep(b: nat, a: nat)
    ensures Within(b, a) <==> (b % 2 == 1 ==> a % 2 == 1) && Within(b / 2, a / 2)
  {
  }

  lemma WithinDouble(b: nat, a: nat)
    ensures Within(b, 2 * a) <==> b % 2 == 0 && Within(b / 2, a)
  {
    WithinStep(b, 2 * a);
  }

  lemma {:induction false} WithinNone(b: nat)
    ensures Within(b, 0) <==> b == 0
  {
    if b > 1 {
      WithinNone(b / 2);
    }
  }

  lemma WithinSeven(b: nat)
    ensures Within(b, 7) <==> b < 8
  {
    WithinStep(b, 7);
    WithinStep(b / 2, 3);
    WithinStep(b / 2 / 2, 1);
    WithinNone(b / 2 / 2 / 2);
  }

  lemma WithinQuadruple(b: nat, a: nat)
    ensures Within(b, 4 * a) <==> b % 4 == 0 && Within(b / 4, a)
  {
    WithinDouble(b, 2 * a);
    WithinDouble(b / 2, a);
    assert b / 2 / 2 == b / 4;
  }

  lemma LowFours(q: nat)
    ensures q % 16 == 0 <==> q % 4 == 0 && q / 4 % 4 == 0
  {
    var h := q / 4;
    assert q == 4 * h + q % 4 && h == 4 * (h / 4) + h % 4;
  }

  lemma LowSixteens(q: nat)
    ensures q % 64 == 0 <==> q % 4 == 0 && q / 4 % 16 == 0
  {
    var h := q / 4;
    assert q == 4 * h + q % 4 && h == 16 * (h / 16) + h % 16;
  }

  // Three bits above six others.
  lemma WithinHigh(q: nat)
    ensures Within(q, 0x1C0) <==> q % 64 == 0 && q < 512
  {
    var a := q / 4;
    WithinQuadruple(q, 0x70);
    WithinQuadruple(a, 0x1C);
    WithinQuadruple(a / 4, 7);
    WithinSeven(a / 4 / 4);
    LowSixteens(q);
    LowFours(a);
    assert a / 4 / 4 < 8 <==> q < 512;
  }

  // The bits that system calls may set: PTE_AVAIL, PTE_P, PTE_W and PTE_U.
  const PTE_SYSCALL := 0xE07

  lemma WithinSyscall(perm: nat)
    ensures Within(PTE_U + PTE_P, perm) <==> perm % 2 == 1 && perm / 4 % 2 == 1
    ensures Within(perm, PTE_SYSCALL) <==> perm / 8 % 64 == 0 && perm < PGSIZE
  {
    WithinStep(5, perm);
    WithinStep(2, perm / 2);
    WithinStep(1, perm / 2 / 2);
    WithinStep(perm, PTE_SYSCALL);
    WithinStep(perm / 2, 0x703);
    WithinStep(perm / 2 / 2, 0x381);
    assert perm / 2 / 2 == perm / 4 && perm / 2 / 2 / 2 == perm / 8;
    WithinHigh(perm / 8);
  }

  function Shl(a: nat, n: nat): (r: nat) { if n == 0 then a else 2 * Shl(a, n - 1) }

  // Words are or-ed field by field.
  lemma {:induction false} OrOfFields(a: nat, x: nat, b: nat, y: nat, n: nat)
    requires x < Shl(1, n) && y < Shl(1, n)
    ensures Or(x, y) < Shl(1, n) && Or(Shl(a, n) + x, Shl(b, n) + y) == Shl(Or(a, b), n) + Or(x, y)
    decreases n
  {
    if n > 0 {
      OrOfFields(a, x / 2, b, y / 2, n - 1);
      OrShifted(Shl(a, n - 1), x, Shl(b, n - 1), y, Shl(Or(a, b), n - 1));
      OrStep(x, y);
    }
  }

  lemma OrShifted(a: nat, x: nat, b: nat, y: nat, o: nat)
    requires Or(a + x / 2, b + y / 2) == o + Or(x / 2, y / 2)
    ensures Or(2 * a + x, 2 * b + y) == 2 * o + Or(x, y)
  {
    OrStep(x, y);
    OrStep(2 * a + x, 2 * b + y);
    assert (2 * a + x) / 2 == a + x / 2 && (2 * b + y) / 2 == b + y / 2;
  }

  lemma OrStep(a: nat, b: nat)
    ensures Or(a, b) == 2 * Or(a / 2, b / 2) + if a % 2 == 1 || b % 2 == 1 then 1 else 0
  {
  }

  lemma ShlPage(a: nat)
    ensures Shl(a, 12) == a * PGSIZE
  {
    assert Shl(a, 1) == a * 2;
    assert Shl(a, 2) == a * 4;
    assert Shl(a, 4) == a * 16;
    assert Shl(a, 6) == a * 64;
    assert Shl(a, 8) == a * 256;
    assert Shl(a, 10) == a * 1024;
  }

  // The fields of a table entry.
  lemma OrOfEntries(a: nat, x: nat, b: nat, y: nat)
    requires x < PGSIZE && y < PGSIZE
    ensures Or(a * PGSIZE + x, b * PGSIZE + y) == Or(a, b) * PGSIZE + Or(x, y)
  {
    ShlPage(1);
    ShlPage(a);
    ShlPage(b);
    ShlPage(Or(a, b));
    OrOfFields(a, x, b, y, 12);
  }

  // The frame that the entry for a page gets: the upper bits of the permission
  // argument are or-ed to the page's own.
  function EntryFrame(frame: nat, perm: Word): (f: nat)
    requires frame < 0x10_0000
    ensures f < 0x10_0000
    ensures f == frame <==> KeepsFrame(frame, perm)
    ensures perm < PGSIZE ==> f == frame
  {
    OrKeeps(frame, perm / PGSIZE);
    OrBound(frame, perm / PGSIZE);
    Or(frame, perm / PGSIZE)
  }

  lemma OrBound(a: nat, b: nat)
    requires a < 0x10_0000 && b < 0x10_0000
    ensures Or(a, b) < 0x10_0000
  {
    assert Shl(1, 20) == 0x10_0000 by {
      assert Shl(1, 5) == 32 && Shl(1, 10) == 0x400 && Shl(1, 15) == 0x8000;
    }
    OrOfFields(0, a, 0, b, 20);
  }

  /** The permission argument names no frame bits beyond those of the page. */
  predicate KeepsFrame(frame: nat, perm: Word) { Within(perm / PGSIZE, frame) }

  // A page table word: frame number and twelve flag bits, as page_insert puts it
  // together from the page and the permission argument.
  function MakePte(frame: nat, perm: Word): (pte: Word)
    requires frame < 0x10_0000
    ensures pte != 0 && pte % 2 == 1
    ensures PteFrame(pte) == EntryFrame(frame, perm) && PteFlags(pte) == WithP(perm % PGSIZE)
  {
    EntryFrame(frame, perm) * PGSIZE + WithP(perm % PGSIZE)
  }

  lemma OrWithP(f: nat, low: nat)
    requires low < PGSIZE
    ensures Or(f * PGSIZE + low, PTE_P) == f * PGSIZE + WithP(low)
  {
    OrOfEntries(f, low, 0, PTE_P);
    OrStep(low, PTE_P);
  }

  /** It is the bitwise or of the page's address, the argument and PTE_P. */
  lemma {:induction false} EntryIsOr(frame: nat, perm: Word)
    requires frame < 0x10_0000
    ensures MakePte(frame, perm) == Or(Or(frame * PGSIZE, perm), PTE_P)
  {
    var high, low := perm / PGSIZE, perm % PGSIZE;
    OrOfEntries(frame, 0, high, low);
    var word := Or(frame, high) * PGSIZE + low;
    assert Or(frame * PGSIZE, perm) == word;
    OrWithP(Or(frame, high), low);
  }

  /** The permission bits above the twelfth can make the entry name another page:
      for the page at frame 2 and permissions 0x1007, the one at frame 3. */
  lemma EntryOfAnotherPage()
    ensures !KeepsFrame(2, 0x1007)
    ensures PteFrame(MakePte(2, 0x1007)) == 3 && PteFlags(MakePte(2, 0x1007)) == PTE_P + PTE_W + PTE_U
  {
    assert Or(2, 1) == 3;
  }

  // `PTE_P | PTE_U | perm`, as sys_page_map passes it on.
  function WithPU(perm: Word): (r: Word)
  {
    var low := if Writable(perm) then PTE_P + PTE_W + PTE_U else PTE_P + PTE_U;
    LowBits(perm / 8, low);
    LowBits(perm / 8, perm % 8);
    perm / 8 * 8 + low
  }

  lemma LowBits(q: nat, low: nat)
    requires low < 8 && q < 0x2000_0000
    ensures 0 <= q * 8 + low < 0x1_0000_0000 && (q * 8 + low) / PGSIZE == q / 512
    ensures (q * 8 + low) % 2 == low % 2 && (q * 8 + low) / 2 % 2 == low / 2 % 2 && (q * 8 + low) / 4 % 2 == low / 4 % 2
  {
    assert (q * 8 + low) / 2 == q * 4 + low / 2;
    assert (q * 8 + low) / 4 == q * 2 + low / 4;
    assert (q * 8 + low) / 8 == q;
  }

  lemma WithPUKeepsRest(perm: Word)
    ensures WithPU(perm) / PGSIZE == perm / PGSIZE && WithPU(perm) % 2 == 1 && WithPU(perm) / PTE_U % 2 == 1
    ensures Writable(WithPU(perm)) <==> Writable(perm)
    ensures perm % 2 == 1 && perm / PTE_U % 2 == 1 ==> WithPU(perm) == perm
  {
    var q, m := perm / 8, perm % 8;
    LowBits(q, m);
    LowBits(q, if Writable(perm) then 7 else 5);
    assert perm == q * 8 + m;
  }

  lemma ShlEight(a: nat)
    ensures Shl(a, 3) == a * 8
  {
    assert Shl(a, 1) == a * 2;
  }

  lemma LowOr(low: nat)
    requires low < 8
    ensures Or(low, PTE_P + PTE_U) == if low / 2 % 2 == 1 then PTE_P + PTE_W + PTE_U else PTE_P + PTE_U
  {
    OrStep(low, 5);
    OrStep(low / 2, 2);
    OrStep(low / 4, 1);
  }

  lemma WithPUIsOr(perm: Word)
    ensures WithPU(perm) == Or(perm, PTE_P + PTE_U)
  {
    var q, low := perm / 8, perm % 8;
    ShlEight(1);
    ShlEight(q);
    ShlEight(0);
    LowBits(q, low);
    LowOr(low);
    OrOfFields(q, low, 0, 5, 3);
  }

  lemma EntryWithPU(frame: nat, perm: Word)
    requires frame < 0x10_0000
    ensures EntryFrame(frame, WithPU(perm)) == EntryFrame(frame, perm) && (KeepsFrame(frame, WithPU(perm)) <==> KeepsFrame(frame, perm))
    ensures WithP(WithPU(perm) % PGSIZE) == WithPU(perm) % PGSIZE
  {
    WithPUKeepsRest(perm);
  }
}
