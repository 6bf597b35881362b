/** The mixed-type binary search over debugging symbols (sched/kern/kdebug.c). */
module Stab {
  import opened Mmu

  datatype Entry = Entry(kind: int, value: Word)

  predicate Wanted(stabs: seq<Entry>, kind: int, i: int) { 0 <= i < |stabs| && stabs[i].kind == kind }

  // Entries of the wanted kind are in order within lo..hi.
  ghost predicate Sorted(stabs: seq<Entry>, kind: int, lo: int, hi: int) {
    forall i, j {:trigger Wanted(stabs, kind, i), Wanted(stabs, kind, j)} ::
      lo <= i <= j <= hi && Wanted(stabs, kind, i) && Wanted(stabs, kind, j) ==> stabs[i].value <= stabs[j].value
  }

  ghost predicate NoneIn(stabs: seq<Entry>, kind: int, lo: int, hi: int) {
    forall i {:trigger Wanted(stabs, kind, i)} :: lo <= i <= hi ==> !Wanted(stabs, kind, i)
  }

  // right ends the region that begins at left: just before the next wanted
  // entry, or at hi.
  ghost predicate EndsBeforeNext(stabs: seq<Entry>, kind: int, left: int, hi: int, right: int) {
    && right <= hi && NoneIn(stabs, kind, left + 1, right)
    && (right < hi ==> left <= right && Wanted(stabs, kind, right + 1))
  }

  ghost predicate IsLastAtMost(stabs: seq<Entry>, kind: int, lo: int, hi: int, addr: int, left: int) {
    && lo <= left <= hi && Wanted(stabs, kind, left) && stabs[left].value <= addr
    && forall i {:trigger Wanted(stabs, kind, i)} :: left < i <= hi && Wanted(stabs, kind, i) ==> stabs[i].value > addr
  }

  ghost predicate AllAbove(stabs: seq<Entry>, kind: int, lo: int, hi: int, addr: int) {
    forall i {:trigger Wanted(stabs, kind, i)} :: lo <= i <= hi && Wanted(stabs, kind, i) ==> stabs[i].value > addr
  }

  /** The answer for address addr. Besides the region that the comment promises, it
      tells apart having no wanted entry at all, the only case that gives
      left > right, from having only entries above addr. */
  ghost predicate Brackets(stabs: seq<Entry>, kind: int, lo: int, hi: int, addr: int, left: int, right: int) {
    if NoneIn(stabs, kind, lo, hi) then left == lo && right == lo - 1
    else if AllAbove(stabs, kind, lo, hi, addr) then
      EndsBeforeNext(stabs, kind, lo - 1, hi, right) && right < hi && left == if right < lo then right else lo
    else IsLastAtMost(stabs, kind, lo, hi, addr, left) && EndsBeforeNext(stabs, kind, left, hi, right)
  }

  // Some wanted entry starts exactly at v.
  ghost predicate Starts(stabs: seq<Entry>, kind: int, lo: int, hi: int, v: int) {
    exists i {:trigger Wanted(stabs, kind, i)} :: lo <= i <= hi && Wanted(stabs, kind, i) && stabs[i].value == v
  }

  /** k is addr, or the end of an unbroken run of entries that starts at addr. */
  ghost predicate RunsTo(stabs: seq<Entry>, kind: int, lo: int, hi: int, addr: int, k: int) {
    addr <= k && (addr < k ==> forall v {:trigger Starts(stabs, kind, lo, hi, v)} :: addr <= v <= k ==> Starts(stabs, kind, lo, hi, v))
  }

  // No two wanted entries have the same value.
  ghost predicate Strict(stabs: seq<Entry>, kind: int, lo: int, hi: int) {
    forall i, j {:trigger Wanted(stabs, kind, i), Wanted(stabs, kind, j)} ::
      lo <= i < j <= hi && Wanted(stabs, kind, i) && Wanted(stabs, kind, j) ==> stabs[i].value < stabs[j].value
  }

  const WORDS: int := 0x1_0000_0000

  // Entries start at every address from addr to the last one, where addr + 1
  // wraps around to zero.
  ghost predicate RunsToTheEnd(stabs: seq<Entry>, kind: int, lo: int, hi: int, addr: int) {
    forall v {:trigger Starts(stabs, kind, lo, hi, v)} :: addr <= v < WORDS ==> Starts(stabs, kind, lo, hi, v)
  }

  // The nearest wanted entry at or before m and not before l, or l - 1.
  function Back(stabs: seq<Entry>, kind: int, l: int, m: int): (k: int)
    requires l <= m + 1
    ensures l - 1 <= k <= m
    decreases m - l + 1
  {
    if m < l || Wanted(stabs, kind, m) then m else Back(stabs, kind, l, m - 1)
  }

  lemma {:induction false} BackIsLast(stabs: seq<Entry>, kind: int, l: int, m: int)
    requires l <= m + 1
    ensures NoneIn(stabs, kind, Back(stabs, kind, l, m) + 1, m)
    ensures Back(stabs, kind, l, m) >= l ==> Wanted(stabs, kind, Back(stabs, kind, l, m))
    decreases m - l + 1
  {
    if m >= l && !Wanted(stabs, kind, m) {
      BackIsLast(stabs, kind, l, m - 1);
    }
  }

  // Where the search is: it looks for addr in l..r; left is the last match.
  datatype Region = Region(l: int, r: int, left: int, addr: Word)

  // One turn of the loop.
  function Probe(stabs: seq<Entry>, kind: int, s: Region): (t: Region)
    requires 0 <= s.l <= s.r < |stabs|
    ensures s.l <= t.l <= t.r + 1 && t.r <= s.r
  {
    var mid := (s.l + s.r) / 2;
    var m := Back(stabs, kind, s.l, mid);
    if m < s.l then Region(mid + 1, s.r, s.left, s.addr)
    else if stabs[m].value < s.addr then Region(mid + 1, s.r, m, s.addr)
    else if stabs[m].value > s.addr then Region(s.l, m - 1, s.left, s.addr)
    else Region(m, s.r, m, (s.addr + 1) % WORDS)
  }

  // The entry at the left end matches exactly.
  predicate AtMatch(stabs: seq<Entry>, kind: int, s: Region) { Wanted(stabs, kind, s.l) && stabs[s.l].value == s.addr }

  /** A turn shrinks the region, or moves on from an exact match at its left end. */
  lemma ProbeShrinks(stabs: seq<Entry>, kind: int, s: Region)
    requires 0 <= s.l <= s.r < |stabs|
    ensures var t := Probe(stabs, kind, s);
            t.r - t.l < s.r - s.l || (t.r - t.l == s.r - s.l && AtMatch(stabs, kind, s) && !AtMatch(stabs, kind, t))
  {
    BackIsLast(stabs, kind, s.l, (s.l + s.r) / 2);
  }

  // The turns of the loop from s on, for any table.
  function Searched(stabs: seq<Entry>, kind: int, s: Region): (t: Region)
    requires 0 <= s.l && s.r < |stabs|
    decreases s.r - s.l + 1, if AtMatch(stabs, kind, s) then 1 else 0
  {
    if s.l > s.r then s
    else
      ProbeShrinks(stabs, kind, s);
      Searched(stabs, kind, Probe(stabs, kind, s))
  }

  /** The search meets an exact match while an entry at addr + 1 is still ahead of
      it: then it goes on, past addr. */
  ghost predicate GoesOn(stabs: seq<Entry>, kind: int, s: Region)
    requires 0 <= s.l && s.r < |stabs|
    decreases s.r - s.l + 1, if AtMatch(stabs, kind, s) then 1 else 0
  {
    if s.l > s.r then false
    else
      ProbeShrinks(stabs, kind, s);
      var t := Probe(stabs, kind, s);
      if t.addr == s.addr then GoesOn(stabs, kind, t) else Starts(stabs, kind, t.l, t.r, s.addr + 1)
  }

  // What a turn looks at, and where it leads.
  lemma ProbeIs(stabs: seq<Entry>, kind: int, s: Region, mid: int, m: int)
    requires 0 <= s.l <= s.r < |stabs| && mid == (s.l + s.r) / 2 && m == Back(stabs, kind, s.l, mid)
    ensures s.l - 1 <= m <= mid <= s.r && s.l <= mid && NoneIn(stabs, kind, m + 1, mid) && (m >= s.l ==> Wanted(stabs, kind, m))
    ensures Probe(stabs, kind, s) ==
            if m < s.l then Region(mid + 1, s.r, s.left, s.addr)
            else if stabs[m].value < s.addr then Region(mid + 1, s.r, m, s.addr)
            else if stabs[m].value > s.addr then Region(s.l, m - 1, s.left, s.addr)
            else Region(m, s.r, m, (s.addr + 1) % WORDS)
    ensures Searched(stabs, kind, Probe(stabs, kind, s)) == Searched(stabs, kind, s)
    ensures m >= s.l && stabs[m].value == s.addr ==> m > s.l || AtMatch(stabs, kind, s)
  {
    BackIsLast(stabs, kind, s.l, mid);
  }

  // All wanted entries left of l are below addr, and `left` is the last of them.
  ghost predicate LeftDone(stabs: seq<Entry>, kind: int, lo: int, hi: int, addr: int, l: int, left: int, found: bool) {
    && lo <= l && (!found ==> left == lo && NoneIn(stabs, kind, lo, l - 1))
    && (found ==> lo <= left <= l && left <= hi && Wanted(stabs, kind, left) && NoneIn(stabs, kind, left + 1, l - 1)
                  && forall i {:trigger Wanted(stabs, kind, i)} :: lo <= i <= left && Wanted(stabs, kind, i) ==> stabs[i].value < addr)
  }

  // All wanted entries right of r are above addr0, and not below addr.
  ghost predicate RightDone(stabs: seq<Entry>, kind: int, lo: int, hi: int, addr0: int, addr: int, r: int) {
    && r <= hi && (r < hi ==> Wanted(stabs, kind, r + 1))
    && forall i {:trigger Wanted(stabs, kind, i)} :: r < i <= hi && Wanted(stabs, kind, i) ==>
         stabs[i].value > addr0 && (addr <= addr0 + 1 || Strict(stabs, kind, lo, hi) ==> stabs[i].value >= addr)
  }

  // Entries have matched exactly at every address from addr0 up to addr.
  ghost predicate Matched(stabs: seq<Entry>, kind: int, lo: int, hi: int, addr0: int, addr: int, found: bool) {
    && addr0 <= addr && (addr0 < addr ==> found)
    && forall v {:trigger Starts(stabs, kind, lo, hi, v)} :: addr0 <= v < addr ==> Starts(stabs, kind, lo, hi, v)
  }

  method SearchBack(stabs: seq<Entry>, kind: int, l: int, start: int) returns (m: int)
    requires 0 <= l <= start + 1 <= |stabs|
    ensures m == Back(stabs, kind, l, start)
    ensures l - 1 <= m <= start && NoneIn(stabs, kind, m + 1, start)
    ensures m >= l ==> Wanted(stabs, kind, m)
  {
    m := start;
    while m >= l && stabs[m].kind != kind
      invariant l - 1 <= m <= start && NoneIn(stabs, kind, m + 1, start)
      invariant Back(stabs, kind, l, m) == Back(stabs, kind, l, start)
    {
      m := m - 1;
    }
  }

  /** Where the search for addr0 has got to; `on` says whether it goes on past it. */
  ghost predicate Searching(stabs: seq<Entry>, kind: int, lo: int, hi: int, addr0: int, on: bool, s: Region, found: bool) {
    && 0 <= lo <= s.l <= s.r + 1 && s.r <= hi < |stabs|
    && LeftDone(stabs, kind, lo, hi, s.addr, s.l, s.left, found) && RightDone(stabs, kind, lo, hi, addr0, s.addr, s.r)
    && Matched(stabs, kind, lo, hi, addr0, s.addr, found) && (found ==> s.left <= s.r)
    && Tracks(stabs, kind, addr0, on, s)
  }

  ghost predicate Tracks(stabs: seq<Entry>, kind: int, addr0: int, on: bool, s: Region)
    requires 0 <= s.l && s.r < |stabs|
  {
    if s.addr <= addr0 then on <==> GoesOn(stabs, kind, s)
    else if s.addr == addr0 + 1 then on <==> Starts(stabs, kind, s.l, s.r, addr0 + 1)
    else on && Wanted(stabs, kind, s.left) && stabs[s.left].value > addr0
  }

  ghost predicate Reached(stabs: seq<Entry>, kind: int, lo: int, hi: int, addr0: int, on: bool, s: Region) {
    exists found :: Searching(stabs, kind, lo, hi, addr0, on, s, found)
  }

  // No entry of l..mid is wanted.
  lemma SkipStep(stabs: seq<Entry>, kind: int, lo: int, hi: int, addr0: int, on: bool, s: Region, found: bool, t: Region, mid: int)
    requires Searching(stabs, kind, lo, hi, addr0, on, s, found) && s.l <= mid <= s.r && NoneIn(stabs, kind, s.l, mid)
    requires t == Probe(stabs, kind, s) == Region(mid + 1, s.r, s.left, s.addr)
    ensures Reached(stabs, kind, lo, hi, addr0, on, t)
  {
    if i :| s.l <= i <= s.r && Wanted(stabs, kind, i) && stabs[i].value == addr0 + 1 {
      assert mid + 1 <= i;
    }
    assert Searching(stabs, kind, lo, hi, addr0, on, t, found);
  }

  // The entry at m, the last wanted one of l..mid, is below addr.
  lemma BelowStep(stabs: seq<Entry>, kind: int, lo: int, hi: int, addr0: int, on: bool, s: Region, found: bool, t: Region, mid: int, m: int)
    requires Sorted(stabs, kind, lo, hi) && Searching(stabs, kind, lo, hi, addr0, on, s, found) && s.l <= mid <= s.r
    requires s.l <= m <= mid && NoneIn(stabs, kind, m + 1, mid) && Wanted(stabs, kind, m)
    requires stabs[m].value < s.addr && t == Probe(stabs, kind, s) == Region(mid + 1, s.r, m, s.addr)
    ensures Reached(stabs, kind, lo, hi, addr0, on, t)
  {
    if i :| s.l <= i <= s.r && Wanted(stabs, kind, i) && stabs[i].value == addr0 + 1 {
      if s.addr == addr0 + 1 {
        assert mid + 1 <= i;
      }
    }
    assert Searching(stabs, kind, lo, hi, addr0, on, t, true);
  }

  // It is above addr.
  lemma AboveStep(stabs: seq<Entry>, kind: int, lo: int, hi: int, addr0: int, on: bool, s: Region, found: bool, t: Region, mid: int, m: int)
    requires Sorted(stabs, kind, lo, hi) && Searching(stabs, kind, lo, hi, addr0, on, s, found) && s.l <= mid <= s.r
    requires s.l <= m <= mid && NoneIn(stabs, kind, m + 1, mid) && Wanted(stabs, kind, m)
    requires stabs[m].value > s.addr && t == Probe(stabs, kind, s) == Region(s.l, m - 1, s.left, s.addr)
    ensures Reached(stabs, kind, lo, hi, addr0, on, t)
  {
    if i :| s.l <= i <= s.r && Wanted(stabs, kind, i) && stabs[i].value == addr0 + 1 {
      if s.addr == addr0 + 1 {
        assert i <= m - 1;
      }
    }
    assert Searching(stabs, kind, lo, hi, addr0, on, t, found);
  }

  // It matches exactly.
  lemma ExactStep(stabs: seq<Entry>, kind: int, lo: int, hi: int, addr0: int, on: bool, s: Region, found: bool, t: Region, mid: int, m: int)
    requires Sorted(stabs, kind, lo, hi) && Searching(stabs, kind, lo, hi, addr0, on, s, found) && s.l <= mid <= s.r
    requires s.l <= m <= mid && NoneIn(stabs, kind, m + 1, mid) && Wanted(stabs, kind, m)
    requires stabs[m].value == s.addr && t == Probe(stabs, kind, s) == Region(m, s.r, m, (s.addr + 1) % WORDS)
    requires !RunsToTheEnd(stabs, kind, lo, hi, addr0)
    ensures Reached(stabs, kind, lo, hi, addr0, on, t)
  {
    assert Starts(stabs, kind, lo, hi, s.addr);
    assert t.addr == s.addr + 1;
    assert Searching(stabs, kind, lo, hi, addr0, on, t, true);
  }

  lemma ProbeKeeps(stabs: seq<Entry>, kind: int, lo: int, hi: int, addr0: int, on: bool, s: Region, found: bool)
    requires Sorted(stabs, kind, lo, hi) && !RunsToTheEnd(stabs, kind, lo, hi, addr0)
    requires Searching(stabs, kind, lo, hi, addr0, on, s, found) && s.l <= s.r
    ensures Reached(stabs, kind, lo, hi, addr0, on, Probe(stabs, kind, s))
  {
    var t := Probe(stabs, kind, s);
    var mid := (s.l + s.r) / 2;
    var m := Back(stabs, kind, s.l, mid);
    ProbeIs(stabs, kind, s, mid, m);
    if m < s.l {
      SkipStep(stabs, kind, lo, hi, addr0, on, s, found, t, mid);
    } else if stabs[m].value < s.addr {
      BelowStep(stabs, kind, lo, hi, addr0, on, s, found, t, mid, m);
    } else if stabs[m].value > s.addr {
      AboveStep(stabs, kind, lo, hi, addr0, on, s, found, t, mid, m);
    } else {
      ExactStep(stabs, kind, lo, hi, addr0, on, s, found, t, mid, m);
    }
  }

  lemma {:induction false} SearchedKeeps(stabs: seq<Entry>, kind: int, lo: int, hi: int, addr0: int, on: bool, s: Region)
    requires Sorted(stabs, kind, lo, hi) && !RunsToTheEnd(stabs, kind, lo, hi, addr0)
    requires Reached(stabs, kind, lo, hi, addr0, on, s) && 0 <= s.l <= s.r + 1 <= |stabs|
    ensures var t := Searched(stabs, kind, s); t.l == t.r + 1 && Reached(stabs, kind, lo, hi, addr0, on, t)
    decreases s.r - s.l + 1, if AtMatch(stabs, kind, s) then 1 else 0
  {
    if s.l <= s.r {
      var found :| Searching(stabs, kind, lo, hi, addr0, on, s, found);
      ProbeShrinks(stabs, kind, s);
      ProbeKeeps(stabs, kind, lo, hi, addr0, on, s, found);
      SearchedKeeps(stabs, kind, lo, hi, addr0, on, Probe(stabs, kind, s));
    }
  }

  // Where a search that has matched something ends.
  lemma Answer(stabs: seq<Entry>, kind: int, lo: int, hi: int, addr0: int, on: bool, s: Region, found: bool, k: int)
    requires 0 <= lo <= hi + 1 <= |stabs| && Sorted(stabs, kind, lo, hi) && s.l == s.r + 1 && !NoneIn(stabs, kind, lo, hi)
    requires Searching(stabs, kind, lo, hi, addr0, on, s, found) && k == (if s.addr == addr0 then addr0 else s.addr - 1)
    requires k == addr0 || Strict(stabs, kind, lo, hi)
    ensures Brackets(stabs, kind, lo, hi, k, if s.r < s.left then s.r else s.left, s.r)
  {
    if found {
      assert Wanted(stabs, kind, s.left) && !NoneIn(stabs, kind, lo, hi) && !AllAbove(stabs, kind, lo, hi, k);
    } else {
      assert AllAbove(stabs, kind, lo, hi, k);
    }
  }

  // A search that went on past addr does not bracket it.
  lemma NotTheAnswer(stabs: seq<Entry>, kind: int, lo: int, hi: int, addr0: int, on: bool, s: Region, left: int)
    requires Sorted(stabs, kind, lo, hi) && Searching(stabs, kind, lo, hi, addr0, on, s, true) && s.addr > addr0 + 1
    requires s.left <= left <= s.r
    ensures !Brackets(stabs, kind, lo, hi, addr0, left, s.r)
  {
    assert Starts(stabs, kind, lo, hi, addr0);
    assert Wanted(stabs, kind, s.left) && !NoneIn(stabs, kind, lo, hi) && !AllAbove(stabs, kind, lo, hi, addr0);
  }

  lemma {:induction false} BackOverNone(stabs: seq<Entry>, kind: int, l: int, m: int)
    requires l <= m + 1 && NoneIn(stabs, kind, l, m)
    ensures Back(stabs, kind, l, m) == l - 1
    decreases m - l + 1
  {
    if m >= l {
      BackOverNone(stabs, kind, l, m - 1);
    }
  }

  /** The answer of a search for addr on sorted entries. */
  ghost predicate IsAnswer(stabs: seq<Entry>, kind: int, lo: int, hi: int, addr: Word, left: int, right: int)
    requires 0 <= lo <= hi + 1 <= |stabs|
  {
    && (Brackets(stabs, kind, lo, hi, addr, left, right) <==> !GoesOn(stabs, kind, Region(lo, hi, lo, addr)))
    && exists k {:trigger RunsTo(stabs, kind, lo, hi, addr, k)} ::
         && RunsTo(stabs, kind, lo, hi, addr, k) && (k == addr <==> !GoesOn(stabs, kind, Region(lo, hi, lo, addr)))
         && (k == addr || Strict(stabs, kind, lo, hi) ==> Brackets(stabs, kind, lo, hi, k, left, right))
  }

  // A search that has met nothing.
  lemma NothingFound(stabs: seq<Entry>, kind: int, lo: int, hi: int, addr: Word, s: Region, found: bool)
    requires 0 <= lo <= hi + 1 <= |stabs| && s.l == s.r + 1 && NoneIn(stabs, kind, lo, hi)
    requires Searching(stabs, kind, lo, hi, addr, GoesOn(stabs, kind, Region(lo, hi, lo, addr)), s, found)
    ensures IsAnswer(stabs, kind, lo, hi, addr, lo, lo - 1)
  {
    assert RunsTo(stabs, kind, lo, hi, addr, addr);
  }

  // How far past addr a search has gone.
  lemma RunIs(stabs: seq<Entry>, kind: int, lo: int, hi: int, addr: Word, on: bool, s: Region, found: bool) returns (k: int)
    requires s.l == s.r + 1 && Searching(stabs, kind, lo, hi, addr, on, s, found)
    ensures k == (if s.addr == addr then addr else s.addr - 1) && RunsTo(stabs, kind, lo, hi, addr, k) && (k == addr <==> !on)
  {
    k := if s.addr == addr then addr else s.addr - 1;
  }

  // The end of a search that has met something: left is where it looks back to.
  lemma SomethingFound(stabs: seq<Entry>, kind: int, lo: int, hi: int, addr: Word, s: Region, found: bool, left: int)
    requires 0 <= lo <= hi + 1 <= |stabs| && Sorted(stabs, kind, lo, hi) && s.l == s.r + 1 && !NoneIn(stabs, kind, lo, hi)
    requires Searching(stabs, kind, lo, hi, addr, GoesOn(stabs, kind, Region(lo, hi, lo, addr)), s, found)
    requires left == if s.left <= s.r then Back(stabs, kind, s.left + 1, s.r) else s.r
    ensures IsAnswer(stabs, kind, lo, hi, addr, left, s.r)
  {
    var on := GoesOn(stabs, kind, Region(lo, hi, lo, addr));
    var k := RunIs(stabs, kind, lo, hi, addr, on, s, found);
    if s.left <= s.r {
      BackOverNone(stabs, kind, s.left + 1, s.r);
    }
    if k == addr || Strict(stabs, kind, lo, hi) {
      Answer(stabs, kind, lo, hi, addr, on, s, found, k);
    }
    if k != addr {
      NotTheAnswer(stabs, kind, lo, hi, addr, on, s, left);
    }
  }

  // What the code makes of the end of the bisection, for any table.
  ghost predicate IsFound(stabs: seq<Entry>, kind: int, lo: int, hi: int, t: Region, left: int, right: int) {
    if NoneIn(stabs, kind, lo, hi) then left == lo && right == lo - 1
    else left == (if t.left <= t.r then Back(stabs, kind, t.left + 1, t.r) else t.r) && right == t.r
  }

  // On sorted entries, the end of the search gives the answer.
  lemma SearchedAnswers(stabs: seq<Entry>, kind: int, lo: int, hi: int, addr: Word, t: Region, left: int, right: int)
    requires 0 <= lo <= hi + 1 <= |stabs| && Sorted(stabs, kind, lo, hi) && !RunsToTheEnd(stabs, kind, lo, hi, addr)
    requires t == Searched(stabs, kind, Region(lo, hi, lo, addr))
    requires IsFound(stabs, kind, lo, hi, t, left, right)
    ensures IsAnswer(stabs, kind, lo, hi, addr, left, right)
  {
    var s := Region(lo, hi, lo, addr);
    var on := GoesOn(stabs, kind, s);
    assert Searching(stabs, kind, lo, hi, addr, on, s, false);
    SearchedKeeps(stabs, kind, lo, hi, addr, on, s);
    var found :| Searching(stabs, kind, lo, hi, addr, on, t, found);
    if NoneIn(stabs, kind, lo, hi) {
      NothingFound(stabs, kind, lo, hi, addr, t, found);
    } else {
      SomethingFound(stabs, kind, lo, hi, addr, t, found, left);
    }
  }

  // The last loop: back from right to the nearest wanted entry, but not before left.
  method LookBack(stabs: seq<Entry>, kind: int, left: int, right: int) returns (l: int)
    requires 0 <= left && right < |stabs|
    ensures l == if left <= right then Back(stabs, kind, left + 1, right) else right
    ensures l <= right && (left <= right ==> left <= l)
  {
    l := right;
    if left <= right {
      l := SearchBack(stabs, kind, left + 1, right);
    }
  }

  // One turn of the bisection; `matched` is what sets any_matches.
  method Turn(stabs: seq<Entry>, kind: int, l0: int, r0: int, left0: int, addr0: Word)
    returns (l: int, r: int, left: int, addr: Word, matched: bool)
    requires 0 <= l0 <= r0 < |stabs|
    ensures Region(l, r, left, addr) == Probe(stabs, kind, Region(l0, r0, left0, addr0))
    ensures left == left0 || l0 <= left <= r0
    ensures if matched then !NoneIn(stabs, kind, l0, r0) else left == left0 && r == r0 && NoneIn(stabs, kind, l0, l - 1)
  {
    l, r, left, addr := l0, r0, left0, addr0;
    var trueM := (l + r) / 2;
    var m := SearchBack(stabs, kind, l, trueM);
    matched := m >= l;
    if m < l {
      l := trueM + 1;
    } else if stabs[m].value < addr {
      left := m;
      l := trueM + 1;
    } else if stabs[m].value > addr {
      r := m - 1;
    } else {
      left := m;
      l := m;
      addr := (addr + 1) % WORDS;
    }
  }

  /** The bisection: it ends for every table. */
  method Bisect(stabs: seq<Entry>, lo: int, hi: int, kind: int, addr0: Word) returns (left: int, right: int, anyMatches: bool)
    requires 0 <= lo <= hi + 1 <= |stabs|
    ensures anyMatches <==> !NoneIn(stabs, kind, lo, hi)
    ensures !anyMatches ==> left == lo
    ensures lo <= left && (left <= hi || left == lo) && lo - 1 <= right <= hi
    ensures var t := Searched(stabs, kind, Region(lo, hi, lo, addr0)); left == t.left && right == t.r
  {
    left, right, anyMatches := lo, hi, false;
    var l := lo;
    var addr: Word := addr0;
    while l <= right
      invariant lo <= l <= right + 1 && lo - 1 <= right <= hi && lo <= left && (left <= hi || left == lo)
      invariant if anyMatches then !NoneIn(stabs, kind, lo, hi) else left == lo && right == hi && NoneIn(stabs, kind, lo, l - 1)
      invariant Searched(stabs, kind, Region(l, right, left, addr)) == Searched(stabs, kind, Region(lo, hi, lo, addr0))
      decreases right - l, if AtMatch(stabs, kind, Region(l, right, left, addr)) then 1 else 0
    {
      ProbeShrinks(stabs, kind, Region(l, right, left, addr));
      var matched;
      l, right, left, addr, matched := Turn(stabs, kind, l, right, left, addr);
      anyMatches := anyMatches || matched;
    }
  }

  /** stab_binsearch, for any table. The answer is left > right exactly when there is
      no wanted entry. On sorted entries it brackets addr if and only if the search
      does not go on past an exact match; in any case it brackets the end of a run of
      entries at addr, addr + 1, and so on. */
  method BinSearch(stabs: seq<Entry>, lo: int, hi: int, kind: int, addr: Word) returns (left: int, right: int)
    requires 0 <= lo <= hi + 1 <= |stabs|
    ensures lo - 1 <= right <= hi && lo - 1 <= left <= right + 1
    ensures left > right <==> NoneIn(stabs, kind, lo, hi)
    ensures IsFound(stabs, kind, lo, hi, Searched(stabs, kind, Region(lo, hi, lo, addr)), left, right)
    ensures Sorted(stabs, kind, lo, hi) && !RunsToTheEnd(stabs, kind, lo, hi, addr) ==> IsAnswer(stabs, kind, lo, hi, addr, left, right)
  {
    var anyMatches;
    left, right, anyMatches := Bisect(stabs, lo, hi, kind, addr);
    if !anyMatches {
      right := left - 1;
    } else {
      left := LookBack(stabs, kind, left, right);
    }
    if Sorted(stabs, kind, lo, hi) && !RunsToTheEnd(stabs, kind, lo, hi, addr) {
      SearchedAnswers(stabs, kind, lo, hi, addr, Searched(stabs, kind, Region(lo, hi, lo, addr)), left, right);
    }
  }

  /** The search goes on only past an exact match that comes with an entry at
      addr + 1. */
  lemma {:induction false} GoesOnNeedsNeighbour(stabs: seq<Entry>, kind: int, lo: int, hi: int, s: Region)
    requires 0 <= lo <= s.l && s.r <= hi < |stabs| && GoesOn(stabs, kind, s)
    ensures Starts(stabs, kind, lo, hi, s.addr) && Starts(stabs, kind, lo, hi, s.addr + 1)
    decreases s.r - s.l + 1, if AtMatch(stabs, kind, s) then 1 else 0
  {
    var mid := (s.l + s.r) / 2;
    var m := Back(stabs, kind, s.l, mid);
    ProbeIs(stabs, kind, s, mid, m);
    ProbeShrinks(stabs, kind, s);
    var t := Probe(stabs, kind, s);
    if t.addr == s.addr {
      GoesOnNeedsNeighbour(stabs, kind, lo, hi, t);
    } else {
      assert Wanted(stabs, kind, m);
      var i :| t.l <= i <= t.r && Wanted(stabs, kind, i) && stabs[i].value == s.addr + 1;
      assert Wanted(stabs, kind, i);
    }
  }

  // Two entries next to each other in address.
  function Pair(kind: int, addr: Word): (stabs: seq<Entry>)
    requires addr + 2 < WORDS
  {
    [Entry(kind, addr), Entry(kind, addr + 1)]
  }

  /** With entries at addr and addr + 1 alone, the search for addr finds the second
      one. */
  lemma NeighbourIsFound(kind: int, addr: Word, left: int, right: int)
    requires addr + 2 < WORDS
    requires IsAnswer(Pair(kind, addr), kind, 0, 1, addr, left, right)
    ensures left == right == 1 && Brackets(Pair(kind, addr), kind, 0, 1, addr, 0, 0)
  {
    var stabs := Pair(kind, addr);
    assert Wanted(stabs, kind, 0) && Wanted(stabs, kind, 1);
    assert Probe(stabs, kind, Region(0, 1, 0, addr)) == Region(0, 1, 0, addr + 1);
    assert GoesOn(stabs, kind, Region(0, 1, 0, addr));
    assert Strict(stabs, kind, 0, 1);
    var k :| RunsTo(stabs, kind, 0, 1, addr, k) && k != addr && Brackets(stabs, kind, 0, 1, k, left, right);
    assert !Starts(stabs, kind, 0, 1, addr + 2);
    AnswerIsUnique(stabs, kind, 0, 1, k, left, right, 1, 1);
  }

  /** With one more entry after them, it looks at the second one first, and finds the
      one at addr. */
  lemma NeighbourIsPassedBy(kind: int, addr: Word, left: int, right: int)
    requires addr + 9 < WORDS
    requires IsAnswer(Pair(kind, addr) + [Entry(kind, addr + 9)], kind, 0, 2, addr, left, right)
    ensures left == right == 0
  {
    var stabs := Pair(kind, addr) + [Entry(kind, addr + 9)];
    assert Wanted(stabs, kind, 0) && Wanted(stabs, kind, 1) && Wanted(stabs, kind, 2);
    assert Probe(stabs, kind, Region(0, 2, 0, addr)) == Region(0, 0, 0, addr);
    assert Probe(stabs, kind, Region(0, 0, 0, addr)) == Region(0, 0, 0, addr + 1);
    assert !GoesOn(stabs, kind, Region(0, 0, 0, addr));
    assert !GoesOn(stabs, kind, Region(0, 2, 0, addr));
    AnswerIsUnique(stabs, kind, 0, 2, addr, left, right, 0, 0);
  }

  /** After an exact match at the last address the search goes on for address zero:
      the region of a sole entry there is missed. */
  lemma LastAddressWraps(kind: int, left: int, right: int)
    requires var stabs := [Entry(kind, 0xffff_ffff)]; IsFound(stabs, kind, 0, 0, Searched(stabs, kind, Region(0, 0, 0, 0xffff_ffff)), left, right)
    ensures left == right == -1 && Brackets([Entry(kind, 0xffff_ffff)], kind, 0, 0, 0xffff_ffff, 0, 0)
  {
    var stabs := [Entry(kind, 0xffff_ffff)];
    assert Wanted(stabs, kind, 0);
    var s0, s1, s2 := Region(0, 0, 0, 0xffff_ffff), Region(0, 0, 0, 0), Region(0, -1, 0, 0);
    assert Probe(stabs, kind, s0) == s1 && Probe(stabs, kind, s1) == s2;
    assert Searched(stabs, kind, s2) == s2;
    assert Searched(stabs, kind, s1) == s2;
    assert Searched(stabs, kind, s0) == s2;
  }

  /** The answer is left > right exactly when there is no wanted entry; entries
      that are all above addr do not give it. */
  lemma EmptyRegionMeansNoEntry(stabs: seq<Entry>, kind: int, lo: int, hi: int, addr: int, left: int, right: int)
    requires lo <= hi + 1 && Brackets(stabs, kind, lo, hi, addr, left, right)
    ensures left > right <==> NoneIn(stabs, kind, lo, hi)
  {
  }

  /** There is only one answer for an address. */
  lemma AnswerIsUnique(stabs: seq<Entry>, kind: int, lo: int, hi: int, addr: int, left: int, right: int, left': int, right': int)
    requires Brackets(stabs, kind, lo, hi, addr, left, right) && Brackets(stabs, kind, lo, hi, addr, left', right')
    ensures left == left' && right == right'
  {
    var next, next' := Wanted(stabs, kind, right + 1), Wanted(stabs, kind, right' + 1);
  }

  /** The search over a whole table, when some wanted entry is at or below addr and
      an exact match is followed by nothing at addr + 1: the last such entry, and
      where its region ends. */
  method LastAtMost(stabs: seq<Entry>, kind: int, addr: Word) returns (left: int, right: int)
    requires stabs != [] && Sorted(stabs, kind, 0, |stabs| - 1)
    requires !(Starts(stabs, kind, 0, |stabs| - 1, addr) && (addr + 1 == WORDS || Starts(stabs, kind, 0, |stabs| - 1, addr + 1)))
    requires !AllAbove(stabs, kind, 0, |stabs| - 1, addr)
    ensures IsLastAtMost(stabs, kind, 0, |stabs| - 1, addr, left) && EndsBeforeNext(stabs, kind, left, |stabs| - 1, right)
  {
    left, right := BinSearch(stabs, 0, |stabs| - 1, kind, addr);
    ghost var s := Region(0, |stabs| - 1, 0, addr);
    assert !RunsToTheEnd(stabs, kind, 0, |stabs| - 1, addr) by {
      var atAddr, atNext := Starts(stabs, kind, 0, |stabs| - 1, addr), Starts(stabs, kind, 0, |stabs| - 1, addr + 1);
    }
    if GoesOn(stabs, kind, s) {
      GoesOnNeedsNeighbour(stabs, kind, 0, |stabs| - 1, s);
    }
  }
}
