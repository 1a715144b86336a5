/**
  Ranges of pages: what find_free_range searches for and what allocate_range does,
  stated on the flat view of a directory.
*/
module Ranges {
  import opened Basics
  import opened Hardware
  import opened Ownership
  import opened Windows

  function RoundDown(a: Addr): (r: Addr)
    ensures r % PAGE_SIZE == 0 && r <= a < r + PAGE_SIZE
  {
    a / PAGE_SIZE * PAGE_SIZE
  }

  function RoundUp(a: Addr): (r: Addr)
    requires a + PAGE_SIZE <= 0x1_0000_0000
    ensures r % PAGE_SIZE == 0 && a <= r < a + PAGE_SIZE
  {
    (a + PAGE_SIZE - 1) / PAGE_SIZE * PAGE_SIZE
  }

  /** No page of the `n` bytes at `a` is mapped. */
  predicate RangeFree(mem: Memory, c: Frame, a: nat, n: nat)
    requires a + n <= 0x1_0000_0000
  {
    forall p: PageNum | a <= p * PAGE_SIZE < a + n :: View(mem, c, p) == ZERO
  }

  /** The plain search: try `a`, then `a + step`, and so on below `hi`. */
  function Scan(mem: Memory, c: Frame, a: nat, hi: nat, n: nat, step: nat): nat
    requires n > 0 ==> step > 0
    requires hi + n <= 0x1_0000_0000
    decreases hi - a
  {
    if a >= hi then hi
    else if n == 0 || RangeFree(mem, c, a, n) then a
    else Scan(mem, c, a + step, hi, n, step)
  }

  /** The search returns a free candidate, or `hi`. */
  lemma {:induction false} ScanResult(mem: Memory, c: Frame, a: nat, hi: nat, n: nat, step: nat)
    requires 0 < n && 0 < step && hi + n <= 0x1_0000_0000
    ensures Scan(mem, c, a, hi, n, step) <= hi
    ensures Scan(mem, c, a, hi, n, step) < hi ==>
      RangeFree(mem, c, Scan(mem, c, a, hi, n, step), n) && a <= Scan(mem, c, a, hi, n, step)
    decreases hi - a
  {
    if a < hi && !RangeFree(mem, c, a, n) {
      ScanResult(mem, c, a + step, hi, n, step);
    }
  }

  /** Every candidate before the result is taken, so the result is the leftmost free one. */
  lemma {:induction false} ScanSkips(mem: Memory, c: Frame, a: nat, hi: nat, n: nat, step: nat, k: nat)
    requires 0 < n && 0 < step && hi + n <= 0x1_0000_0000
    requires a + k * step < hi && a + k * step < Scan(mem, c, a, hi, n, step)
    ensures !RangeFree(mem, c, a + k * step, n)
    decreases k
  {
    if k > 0 {
      assert a + k * step == (a + step) + (k - 1) * step;
      assert k * step >= 0;
      ScanSkips(mem, c, a + step, hi, n, step, k - 1);
    }
  }

  /** A candidate that reaches over a mapped page is not free, so it may be skipped. */
  lemma ScanSkip(mem: Memory, c: Frame, a: nat, va: Addr, hi: nat, n: nat, step: nat)
    requires 0 < n && 0 < step && hi + n <= 0x1_0000_0000
    requires a % PAGE_SIZE == 0 && va % PAGE_SIZE == 0 && a <= va < a + n && a < hi
    requires View(mem, c, PageOf(va)) != ZERO
    ensures Scan(mem, c, a, hi, n, step) == Scan(mem, c, a + step, hi, n, step)
  {
    assert a <= PageOf(va) * PAGE_SIZE < a + n;
  }

  /** When the step is the size and the size divides the interval, the result lies inside it. */
  lemma {:induction false} ScanStaysInside(mem: Memory, c: Frame, a: nat, hi: nat, n: nat, k: nat)
    requires 0 < n && hi + n <= 0x1_0000_0000 && hi == a + k * n
    ensures Scan(mem, c, a, hi, n, n) < hi ==> Scan(mem, c, a, hi, n, n) + n <= hi
    decreases hi - a
  {
    if k > 0 {
      assert hi == a + n + (k - 1) * n;
      assert (k - 1) * n >= 0;
      ScanStaysInside(mem, c, a + n, hi, n, k - 1);
    }
  }

  lemma KernelRole(mem: Memory, w: World)
    requires Inv(mem, w)
    ensures w.role[w.kernel] == KernelDir
  {
  }

  lemma {:induction false} ScanPast(mem: Memory, c: Frame, lo: PageNum, p: PageNum, hi: nat)
    requires lo <= p && p * PAGE_SIZE <= hi && hi + PAGE_SIZE <= 0x1_0000_0000
    requires forall q: PageNum | lo <= q < p :: View(mem, c, q) != ZERO
    ensures Scan(mem, c, lo * PAGE_SIZE, hi, PAGE_SIZE, PAGE_SIZE)
         == Scan(mem, c, p * PAGE_SIZE, hi, PAGE_SIZE, PAGE_SIZE)
    decreases p - lo
  {
    if lo < p {
      assert PageOf(lo * PAGE_SIZE) == lo && (lo + 1) * PAGE_SIZE == lo * PAGE_SIZE + PAGE_SIZE;
      ScanSkip(mem, c, lo * PAGE_SIZE, lo * PAGE_SIZE, hi, PAGE_SIZE, PAGE_SIZE);
      ScanPast(mem, c, lo + 1, p, hi);
    }
  }

  const WINDOW_PAGE: PageNum := 0xE_FC00
  const STACKS_SIZE := 0x1000_0000

  lemma WindowView(mem: Memory, c: Frame, i: nat)
    requires i < 1024 && mem[c][959] == Word(c, KERNEL_RW)
    ensures View(mem, c, WINDOW_PAGE + i) == mem[c][i]
  {
  }

  /**
    The region searched for thread stacks contains the window on the directory's own
    tables.  Once every page below the window is taken, the search answers with a page
    of the window, and the entry that mapping it would write is a directory entry.
  */
  lemma StackSearchReachesWindow(mem: Memory, w: World, c: Frame, j: nat)
    requires Inv(mem, w) && w.role[c] == Directory && SelfMapped(mem, w, c)
    requires j < 1024 && mem[c][j] == ZERO && forall i | 0 <= i < j :: mem[c][i] != ZERO
    requires forall p: PageNum | 0xE_0000 <= p < WINDOW_PAGE :: View(mem, c, p) != ZERO
    ensures Scan(mem, c, USER_STACKS_START, USER_STACKS_END, PAGE_SIZE, PAGE_SIZE)
         == (WINDOW_PAGE + j) * PAGE_SIZE
    ensures Walk(mem, c, TabVA(w, c) + 4 * (WINDOW_PAGE + j)) == Some(Loc(c, j))
  {
    hide Inv, View, SelfMapped, Walk, Scan, RangeFree;
    KernelRole(mem, w);
    ActiveSelf(mem, w, c);
    var b := WINDOW_PAGE + j;
    assert TabVA(w, c) == USER_TABLES_VIRTUAL;
    WindowTaken(mem, c, j);
    ScanPast(mem, c, 0xE_0000, b, USER_STACKS_END);
    OnePageFree(mem, c, b);
    ScanHere(mem, c, b * PAGE_SIZE, USER_STACKS_END, PAGE_SIZE);
    WindowEntry(mem, w, c, j);
  }

  lemma WindowTaken(mem: Memory, c: Frame, j: nat)
    requires j < 1024 && mem[c][959] == Word(c, KERNEL_RW)
    requires mem[c][j] == ZERO && forall i | 0 <= i < j :: mem[c][i] != ZERO
    requires forall p: PageNum | 0xE_0000 <= p < WINDOW_PAGE :: View(mem, c, p) != ZERO
    ensures forall q: PageNum | 0xE_0000 <= q < WINDOW_PAGE + j :: View(mem, c, q) != ZERO
    ensures View(mem, c, WINDOW_PAGE + j) == ZERO
  {
    hide View;
    forall q: PageNum | WINDOW_PAGE <= q < WINDOW_PAGE + j ensures View(mem, c, q) != ZERO {
      WindowView(mem, c, q - WINDOW_PAGE);
    }
    WindowView(mem, c, j);
  }

  lemma WindowEntry(mem: Memory, w: World, c: Frame, j: nat)
    requires Inv(mem, w) && Active(mem, w, c) && mem[c][959] == Word(c, KERNEL_RW) && j < 1024
    ensures Walk(mem, c, TabVA(w, c) + 4 * (WINDOW_PAGE + j)) == Some(Loc(c, j))
  {
    hide Inv, Walk, SelfMapped;
    assert (WINDOW_PAGE + j) / 1024 == 959 && (WINDOW_PAGE + j) % 1024 == j;
    OwnTables(mem, w, c, WINDOW_PAGE + j);
  }

  lemma OnePageFree(mem: Memory, c: Frame, p: PageNum)
    requires View(mem, c, p) == ZERO && p + 1 < FRAMES
    ensures RangeFree(mem, c, p * PAGE_SIZE, PAGE_SIZE)
  {
    hide View;
  }

  lemma ScanHere(mem: Memory, c: Frame, a: nat, hi: nat, n: nat)
    requires n > 0 && hi + n <= 0x1_0000_0000 && a < hi && RangeFree(mem, c, a, n)
    ensures Scan(mem, c, a, hi, n, n) == a
  {
  }

  lemma ActiveSelf(mem: Memory, w: World, c: Frame)
    requires Inv(mem, w) && w.role[c] == Directory && SelfMapped(mem, w, c)
    ensures Active(mem, w, c) && mem[c][959] == Word(c, KERNEL_RW)
  {
  }

  // ------------------------------------------------------------ allocate_range

  /** Pages of the range that have no mapping yet. */
  function Unmapped(mem: Memory, c: Frame, lo: PageNum, hi: nat): nat
    requires lo <= hi <= FRAMES
  {
    if hi == lo then 0
    else Unmapped(mem, c, lo, hi - 1) + if View(mem, c, hi - 1) == ZERO then 1 else 0
  }

  /** Slots the range touches that have no table yet. */
  function MissingTables(mem: Memory, c: Frame, lo: PageNum, hi: nat): nat
    requires lo <= hi <= FRAMES
  {
    if hi == lo then 0
    else MissingTables(mem, c, lo, hi - 1)
         + if NeedsTable(mem, c, hi - 1) && (hi - 1 == lo || (hi - 1) % 1024 == 0) then 1 else 0
  }

  function Needed(mem: Memory, c: Frame, lo: PageNum, hi: nat): nat
    requires lo <= hi <= FRAMES
  {
    Unmapped(mem, c, lo, hi) + MissingTables(mem, c, lo, hi)
  }

  lemma {:induction false} NeededMonotone(mem: Memory, c: Frame, lo: PageNum, m: nat, hi: nat)
    requires lo <= m <= hi <= FRAMES
    ensures Needed(mem, c, lo, m) <= Needed(mem, c, lo, hi)
    decreases hi - m
  {
    if m < hi {
      NeededMonotone(mem, c, lo, m, hi - 1);
    }
  }

  /** Frames that mapping a page while `c` is active may write: the directory and the tables it reaches. */
  predicate Edits(w: World, c: Frame, f: Frame) {
    f == c || w.role[f].KernelTable?
    || (w.role[f].Table? && (w.role[f].dir == c || w.role[f].dir == w.kernel))
  }

  /**
    Mapping pages while `c` is active takes free frames and makes no directory of them, gives
    none in use another owner, writes no other frame in use, replaces no table, and records
    each new table for its slot.
  */
  ghost predicate OnlyAdds(mem0: Memory, w0: World, mem: Memory, w: World, c: Frame) {
    && w.kernel == w0.kernel && w.base == w0.base && w.storage == w0.storage
    && (forall f: Frame | !w0.role[f].Free? :: w.role[f] == w0.role[f])
    && (forall d: Frame | w.role[d] == Directory :: w0.role[d] == Directory)
    && (forall f: Frame | !w0.role[f].Free? && !Edits(w0, c, f) :: mem[f] == mem0[f])
    && (forall s | 0 <= s < 1024 ::
         mem[c][s] == mem0[c][s]
         || (mem0[c][s] == ZERO && Private(s) && w.role[mem[c][s].frame] == Table(c, s)
             && mem[c][s].flags == PRESENT | WRITE))
  }

  lemma OnlyAddsTwice(mem0: Memory, w0: World, mem: Memory, w: World, mem': Memory, w': World, c: Frame)
    requires OnlyAdds(mem0, w0, mem, w, c) && OnlyAdds(mem, w, mem', w', c)
    ensures OnlyAdds(mem0, w0, mem', w', c)
  {
  }

  /** A frame serves as the page, one of those from `lo` to `hi`, or as the table it is recorded for. */
  predicate Serves(mem: Memory, w: World, c: Frame, f: Frame, lo: nat, hi: nat) {
    match w.role[f]
    case Leaf(d, p) => d == c && lo <= p < hi && View(mem, c, p) != ZERO && View(mem, c, p).frame == f
    case Table(d, s) => d == c && s < 1024 && Private(s) && mem[c][s] != ZERO && mem[c][s].frame == f
    case _ => false
  }

  /** Every frame taken off the stack serves. */
  ghost predicate TakenServe(w0: World, mem: Memory, w: World, c: Frame, lo: nat, hi: nat) {
    forall f: Frame | w0.role[f].Free? && !w.role[f].Free? :: Serves(mem, w, c, f, lo, hi)
  }

  /** Page `q` is mapped with the flags asked for, to the frame it had or to a free one, now its own. */
  ghost predicate PageDone(mem0: Memory, w0: World, mem: Memory, w: World, c: Frame, q: PageNum, flags: bv12) {
    && View(mem, c, q).flags == PRESENT | flags
    && (if View(mem0, c, q) != ZERO then View(mem, c, q).frame == View(mem0, c, q).frame
        else w.role[View(mem, c, q).frame] == Leaf(c, q) && w0.role[View(mem, c, q).frame].Free?)
  }

  /**
    The state after the pages from `lo` up to `i` have been handled: handled pages
    are mapped with the flags asked for and keep any frame they had, all else is as before.
  */
  ghost predicate RangeDone(mem0: Memory, w0: World, mem: Memory, w: World, c: Frame,
                            lo: PageNum, i: nat, flags: bv12)
    requires lo <= i <= FRAMES
  {
    && OnlyAdds(mem0, w0, mem, w, c) && TakenServe(w0, mem, w, c, lo, i)
    && (forall q: PageNum | lo <= q < i :: PageDone(mem0, w0, mem, w, c, q, flags))
    && (forall d: Frame, q: PageNum | IsDir(w0, d) && Ordinary(q) && !(lo <= q < i) ::
         View(mem, d, q) == View(mem0, d, q))
    && Needed(mem0, c, lo, i) <= |w0.free|
    && w.free == w0.free[..|w0.free| - Needed(mem0, c, lo, i)]
    && (forall s | 0 <= s < 1024 && (s < lo / 1024 || i <= s * 1024 || i == lo) :: mem[c][s] == mem0[c][s])
    && (i == lo || mem[c][(i - 1) / 1024] != ZERO)
  }

  lemma RangeStart(mem: Memory, w: World, c: Frame, lo: PageNum, flags: bv12)
    ensures RangeDone(mem, w, mem, w, c, lo, lo, flags)
  {
  }

  lemma TableMissing(mem0: Memory, w0: World, mem: Memory, w: World, c: Frame,
                     lo: PageNum, i: PageNum, flags: bv12)
    requires lo <= i && RangeDone(mem0, w0, mem, w, c, lo, i, flags)
    ensures NeedsTable(mem, c, i) <==> NeedsTable(mem0, c, i) && (i == lo || i % 1024 == 0)
  {
    if i == lo || i % 1024 == 0 {
      assert i <= i / 1024 * 1024 || i / 1024 == lo / 1024;
    }
  }

  /** What handling page `i` must do to the state. */
  ghost predicate StepOk(mem: Memory, w: World, mem': Memory, w': World, c: Frame, i: PageNum, flags: bv12) {
    && OnlyAdds(mem, w, mem', w', c) && TakenServe(w, mem', w', c, i, i + 1)
    && (forall d: Frame, q: PageNum | IsDir(w, d) && Ordinary(q) && q != i :: View(mem', d, q) == View(mem, d, q))
    && View(mem', c, i).flags == PRESENT | flags
    && (if View(mem, c, i) != ZERO then View(mem', c, i).frame == View(mem, c, i).frame
        else w'.role[View(mem', c, i).frame] == Leaf(c, i) && View(mem', c, i).frame in w.free)
    && |w.free| >= StepCost(mem, c, i) && w'.free == w.free[..|w.free| - StepCost(mem, c, i)]
    && (forall s | 0 <= s < 1024 && s != i / 1024 :: mem'[c][s] == mem[c][s])
    && mem'[c][i / 1024] != ZERO
  }

  lemma RangeExtend(mem0: Memory, w0: World, mem: Memory, w: World, mem': Memory, w': World,
                    c: Frame, lo: PageNum, i: PageNum, flags: bv12)
    requires lo <= i && RangeDone(mem0, w0, mem, w, c, lo, i, flags)
    requires StepOk(mem, w, mem', w', c, i, flags)
    requires IsDir(w0, c) && forall q: PageNum | lo <= q <= i :: Ordinary(q)
    requires forall d: Frame | IsDir(w0, d) :: IsDir(w, d)
    requires forall f: Frame | f in w0.free :: w0.role[f].Free?
    ensures RangeDone(mem0, w0, mem', w', c, lo, i + 1, flags)
  {
    hide View, PageDone, OnlyAdds, TakenServe;
    OnlyAddsTwice(mem0, w0, mem, w, mem', w', c);
    ServeExtends(mem0, w0, mem, w, mem', w', c, lo, i, flags);
    TableMissing(mem0, w0, mem, w, c, lo, i, flags);
    CostSoFar(mem0, w0, mem, w, c, lo, i, flags);
    forall q: PageNum | lo <= q < i + 1 ensures PageDone(mem0, w0, mem', w', c, q, flags) {
      PageExtends(mem0, w0, mem, w, mem', w', c, lo, i, flags, q);
    }
  }

  lemma ServeExtends(mem0: Memory, w0: World, mem: Memory, w: World, mem': Memory, w': World,
                     c: Frame, lo: PageNum, i: PageNum, flags: bv12)
    requires lo <= i && RangeDone(mem0, w0, mem, w, c, lo, i, flags)
    requires StepOk(mem, w, mem', w', c, i, flags)
    requires IsDir(w, c) && forall q: PageNum | lo <= q <= i :: Ordinary(q)
    ensures TakenServe(w0, mem', w', c, lo, i + 1)
  {
    hide View, PageDone, Needed, StepCost;
    forall f: Frame | w0.role[f].Free? && !w'.role[f].Free? ensures Serves(mem', w', c, f, lo, i + 1) {
      if w.role[f].Free? {
        assert Serves(mem', w', c, f, i, i + 1);
      } else {
        assert Serves(mem, w, c, f, lo, i);
      }
    }
  }

  lemma PageExtends(mem0: Memory, w0: World, mem: Memory, w: World, mem': Memory, w': World,
                    c: Frame, lo: PageNum, i: PageNum, flags: bv12, q: PageNum)
    requires lo <= q <= i && RangeDone(mem0, w0, mem, w, c, lo, i, flags)
    requires StepOk(mem, w, mem', w', c, i, flags)
    requires IsDir(w0, c) && IsDir(w, c) && Ordinary(q) && Ordinary(i)
    requires forall f: Frame | f in w0.free :: w0.role[f].Free?
    ensures PageDone(mem0, w0, mem', w', c, q, flags)
  {
    hide View;
    if q < i {
      assert PageDone(mem0, w0, mem, w, c, q, flags);
      assert View(mem', c, q) == View(mem, c, q);
    } else {
      assert View(mem, c, i) == View(mem0, c, i);
    }
  }

  function FreshWorld(mem: Memory, w: World, c: Frame, p: PageNum): World
    requires w.free != [] && (NeedsTable(mem, c, p) ==> |w.free| > 1)
  {
    var w' := MapWorld(mem, Popped(w), c, p);
    w'.(role := w'.role[w.free[|w.free| - 1] := Leaf(c, p)])
  }

  function FreshMem(mem: Memory, w: World, c: Frame, p: PageNum, flags: bv12): Memory
    requires w.free != [] && (NeedsTable(mem, c, p) ==> |w.free| > 1)
  {
    MapMem(mem, Popped(w), c, p, Word(w.free[|w.free| - 1], PRESENT | flags))
  }

  lemma ViewOfMap(mem: Memory, w: World, c: Frame, p: PageNum, x: Word)
    requires Inv(mem, w) && Active(mem, w, c) && Mappable(w, p)
    requires NeedsTable(mem, c, p) ==> w.free != []
    ensures IsDir(w, c) && View(MapMem(mem, w, c, p, x), c, p) == x
    ensures forall d: Frame, q: PageNum | IsDir(w, d) && Ordinary(q) && q != p ::
      View(MapMem(mem, w, c, p, x), d, q) == View(mem, d, q)
    ensures forall s | 0 <= s < 1024 && s != p / 1024 :: MapMem(mem, w, c, p, x)[c][s] == mem[c][s]
    ensures MapMem(mem, w, c, p, x)[c][p / 1024] != ZERO
  {
    hide Inv, View, SelfMapped;
    ActiveIsDir(mem, w, c);
    forall d: Frame, q: PageNum | IsDir(w, d) && Ordinary(q)
      ensures View(MapMem(mem, w, c, p, x), d, q) == if q == p && Sees(mem, c, d, p) then x else View(mem, d, q)
    {
      MapRefines(mem, w, c, p, x, d, q);
    }
    if NeedsTable(mem, c, p) {
      FreeTop(mem, w);
    } else {
      TableOf(mem, w, c, p);
    }
  }

  /** One `map` writes the table of the page, and the directory if that table is new. */
  lemma MapOnlyAdds(mem: Memory, w: World, c: Frame, p: PageNum, x: Word)
    requires Inv(mem, w) && Active(mem, w, c) && Mappable(w, p)
    requires NeedsTable(mem, c, p) ==> w.free != []
    ensures OnlyAdds(mem, w, MapMem(mem, w, c, p, x), MapWorld(mem, w, c, p), c)
  {
    hide Inv, SelfMapped, Active, OnlyAdds, MapMem, MapWorld, NeedsTable;
    ActiveIsDir(mem, w, c);
    NeedsPrivate(mem, c, p);
    if NeedsTable(mem, c, p) {
      NewTableOnlyAdds(mem, w, c, p, x);
    } else {
      EntryOnlyAdds(mem, w, c, p, x);
    }
  }

  lemma NeedsPrivate(mem: Memory, c: Frame, p: PageNum)
    requires forall i | 0 <= i < 1023 && Shared(i) :: Present(mem[c][i])
    ensures NeedsTable(mem, c, p) && Ordinary(p) ==> Private(p / 1024)
  {
  }

  lemma NewTableOnlyAdds(mem: Memory, w: World, c: Frame, p: PageNum, x: Word)
    requires Inv(mem, w) && IsDir(w, c) && NeedsTable(mem, c, p) && w.free != [] && Private(p / 1024)
    ensures OnlyAdds(mem, w, MapMem(mem, w, c, p, x), MapWorld(mem, w, c, p), c)
  {
    hide Inv;
    KernelRole(mem, w);
    FreeTop(mem, w);
  }

  lemma EntryOnlyAdds(mem: Memory, w: World, c: Frame, p: PageNum, x: Word)
    requires Inv(mem, w) && IsDir(w, c) && !NeedsTable(mem, c, p) && Ordinary(p)
    ensures OnlyAdds(mem, w, MapMem(mem, w, c, p, x), MapWorld(mem, w, c, p), c)
  {
    hide Inv;
    KernelRole(mem, w);
    TableOf(mem, w, c, p);
  }

  lemma FreshOnlyAdds(mem: Memory, w: World, c: Frame, i: PageNum, flags: bv12)
    requires Inv(mem, w) && Active(mem, w, c) && Mappable(w, i)
    requires w.free != [] && (NeedsTable(mem, c, i) ==> |w.free| > 1)
    ensures OnlyAdds(mem, w, FreshMem(mem, w, c, i, flags), FreshWorld(mem, w, c, i), c)
  {
    hide Inv, SelfMapped, WindowsKept, Active, MapMem, MapWorld;
    var t := w.free[|w.free| - 1];
    PopInv(mem, w);
    ActiveKept(mem, w, mem, Popped(w), c);
    MapOnlyAdds(mem, Popped(w), c, i, Word(t, PRESENT | flags));
    FreeEntries(mem, w);
    FreshRole(mem, w, c, i);
  }

  lemma FreeEntries(mem: Memory, w: World)
    requires Inv(mem, w)
    ensures forall n | 0 <= n < |w.free| :: w.role[w.free[n]] == Free(n)
  {
  }

  lemma FreshRole(mem: Memory, w: World, c: Frame, i: PageNum)
    requires forall n | 0 <= n < |w.free| :: w.role[w.free[n]] == Free(n)
    requires w.free != [] && (NeedsTable(mem, c, i) ==> |w.free| > 1)
    ensures MapWorld(mem, Popped(w), c, i).role[w.free[|w.free| - 1]] == Held
    ensures FreshWorld(mem, w, c, i)
         == var w1 := MapWorld(mem, Popped(w), c, i); w1.(role := w1.role[w.free[|w.free| - 1] := Leaf(c, i)])
  {
  }

  lemma StepMapped(mem: Memory, w: World, c: Frame, i: PageNum, flags: bv12)
    requires Inv(mem, w) && Active(mem, w, c) && Mappable(w, i) && View(mem, c, i) != ZERO
    ensures !NeedsTable(mem, c, i)
    ensures StepOk(mem, w, MapMem(mem, w, c, i, Word(View(mem, c, i).frame, PRESENT | flags)), w, c, i, flags)
  {
    assert !NeedsTable(mem, c, i);
    hide Inv, View, MapMem, SelfMapped, Mappable, OnlyAdds, Serves;
    ViewOfMap(mem, w, c, i, Word(View(mem, c, i).frame, PRESENT | flags));
    MapOnlyAdds(mem, w, c, i, Word(View(mem, c, i).frame, PRESENT | flags));
  }

  lemma FreshWorldFacts(mem: Memory, w: World, c: Frame, i: PageNum)
    requires Inv(mem, w) && w.free != [] && (NeedsTable(mem, c, i) ==> |w.free| > 1)
    ensures var w' := FreshWorld(mem, w, c, i);
            && w'.free == w.free[..|w.free| - if NeedsTable(mem, c, i) then 2 else 1]
            && w'.role[w.free[|w.free| - 1]] == Leaf(c, i)
    ensures forall d: Frame | IsDir(w, d) :: IsDir(Popped(w), d)
  {
    hide Inv, WindowsKept;
    FreeTop(mem, w);
    PopInv(mem, w);
    if |w.free| > 1 {
      FreeTop(mem, Popped(w));
    }
    assert w.role[w.kernel] == KernelDir by { KernelRole(mem, w); }
  }

  lemma StepFresh(mem: Memory, w: World, c: Frame, i: PageNum, flags: bv12)
    requires Inv(mem, w) && Active(mem, w, c) && Mappable(w, i) && View(mem, c, i) == ZERO
    requires w.free != [] && (NeedsTable(mem, c, i) ==> |w.free| > 1)
    ensures StepOk(mem, w, FreshMem(mem, w, c, i, flags), FreshWorld(mem, w, c, i), c, i, flags)
  {
    hide Inv, View, MapMem, FreshWorld, Active, WindowsKept, OnlyAdds, TakenServe;
    FreshOnlyAdds(mem, w, c, i, flags);
    FreshServe(mem, w, c, i, flags);
    PopInv(mem, w);
    ActiveKept(mem, w, mem, Popped(w), c);
    ViewOfMap(mem, Popped(w), c, i, Word(w.free[|w.free| - 1], PRESENT | flags));
    FreshWorldFacts(mem, w, c, i);
  }

  lemma FreshServe(mem: Memory, w: World, c: Frame, i: PageNum, flags: bv12)
    requires Inv(mem, w) && Active(mem, w, c) && Mappable(w, i)
    requires w.free != [] && (NeedsTable(mem, c, i) ==> |w.free| > 1)
    ensures TakenServe(w, FreshMem(mem, w, c, i, flags), FreshWorld(mem, w, c, i), c, i, i + 1)
  {
    hide Inv, Active, SelfMapped, View, MapMem, FreshWorld, Mappable, NeedsTable, WindowsKept;
    var t, mem', w' := w.free[|w.free| - 1], FreshMem(mem, w, c, i, flags), FreshWorld(mem, w, c, i);
    ActiveIsDir(mem, w, c);
    MappableIsOrdinary(w, i);
    MappablePopped(w, i);
    NeedsPrivate(mem, c, i);
    PopInv(mem, w);
    ActiveKept(mem, w, mem, Popped(w), c);
    ViewOfMap(mem, Popped(w), c, i, Word(t, PRESENT | flags));
    FreeEntries(mem, w);
    FreshRoles(mem, w, c, i);
    if NeedsTable(mem, c, i) {
      NotFree(mem, w, c);
      FreshEntry(mem, w, c, i, flags);
    }
    assert View(mem', c, i) == Word(t, PRESENT | flags) != ZERO;
  }

  lemma MappableIsOrdinary(w: World, q: PageNum)
    requires Mappable(w, q)
    ensures Ordinary(q)
  {
  }

  lemma MappablePopped(w: World, p: PageNum)
    requires Mappable(w, p) && w.free != []
    ensures Mappable(Popped(w), p)
  {
  }

  /** The two frames that may be taken, and what becomes of them. */
  lemma FreshRoles(mem: Memory, w: World, c: Frame, i: PageNum)
    requires w.free != [] && (NeedsTable(mem, c, i) ==> |w.free| > 1)
    requires forall n | 0 <= n < |w.free| :: w.role[w.free[n]] == Free(n)
    ensures var n, w' := |w.free|, FreshWorld(mem, w, c, i);
      && w'.role[w.free[n - 1]] == Leaf(c, i)
      && (NeedsTable(mem, c, i) ==> w'.role[w.free[n - 2]] == Table(c, i / 1024))
      && forall f: Frame | f != w.free[n - 1] && (NeedsTable(mem, c, i) ==> f != w.free[n - 2]) ::
           w'.role[f] == w.role[f]
  {
  }

  lemma FreshEntry(mem: Memory, w: World, c: Frame, i: PageNum, flags: bv12)
    requires NeedsTable(mem, c, i) && |w.free| > 1 && w.free[|w.free| - 2] != c
    ensures FreshMem(mem, w, c, i, flags)[c][i / 1024] == Word(w.free[|w.free| - 2], KERNEL_RW)
  {
  }

  lemma NotFree(mem: Memory, w: World, c: Frame)
    requires Inv(mem, w) && IsDir(w, c)
    ensures !w.role[c].Free?
  {
    KernelRole(mem, w);
    hide Inv;
  }

  lemma FreshInv(mem: Memory, w: World, c: Frame, i: PageNum, flags: bv12)
    requires Inv(mem, w) && Active(mem, w, c) && Mappable(w, i)
    requires w.free != [] && (NeedsTable(mem, c, i) ==> |w.free| > 1)
    ensures Inv(FreshMem(mem, w, c, i, flags), FreshWorld(mem, w, c, i))
    ensures Active(FreshMem(mem, w, c, i, flags), FreshWorld(mem, w, c, i), c)
    ensures WindowsKept(mem, w, FreshMem(mem, w, c, i, flags), FreshWorld(mem, w, c, i))
  {
    hide Inv, SelfMapped, WindowsKept, Active, MapMem;
    var t := w.free[|w.free| - 1];
    var w1, mem2 := Popped(w), FreshMem(mem, w, c, i, flags);
    var w2 := MapWorld(mem, w1, c, i);
    PopInv(mem, w);
    ActiveKept(mem, w, mem, w1, c);
    MapInv(mem, w1, c, i, Word(t, PRESENT | flags));
    if |w.free| > 1 {
      FreeTop(mem, w1);
    }
    assert w2.role[t] == Held;
    SetRole(mem2, w2, t, Leaf(c, i));
    WindowsKeptTwice(mem, w, mem, w1, mem2, w2);
    WindowsKeptTwice(mem, w, mem2, w2, mem2, FreshWorld(mem, w, c, i));
    ActiveKept(mem, w, mem2, FreshWorld(mem, w, c, i), c);
  }

  lemma FreeRoles(mem: Memory, w: World)
    requires Inv(mem, w)
    ensures forall f: Frame | f in w.free :: w.role[f].Free?
  {
  }

  /** Frames one page of allocate_range takes: one for the page, one for its table. */
  function StepCost(mem: Memory, c: Frame, p: PageNum): nat {
    (if View(mem, c, p) == ZERO then 1 else 0) + (if NeedsTable(mem, c, p) then 1 else 0)
  }

  lemma CostSoFar(mem0: Memory, w0: World, mem: Memory, w: World, c: Frame,
                  lo: PageNum, i: PageNum, flags: bv12)
    requires lo <= i && RangeDone(mem0, w0, mem, w, c, lo, i, flags)
    requires IsDir(w0, c) && Ordinary(i)
    ensures Needed(mem0, c, lo, i + 1) == Needed(mem0, c, lo, i) + StepCost(mem, c, i)
  {
    TableMissing(mem0, w0, mem, w, c, lo, i, flags);
    assert View(mem, c, i) == View(mem0, c, i);
  }

  // ------------------------------------------------------------ allocate_stack

  /** Where allocate_stack puts a stack of `size` bytes, or USER_STACKS_END. */
  function StackPlace(mem: Memory, c: Frame, size: Addr): (va: Addr)
    requires 0 < size <= STACKS_SIZE
    ensures va <= USER_STACKS_END
  {
    ScanResult(mem, c, USER_STACKS_START, USER_STACKS_END, RoundUp(size), RoundUp(size));
    Scan(mem, c, USER_STACKS_START, USER_STACKS_END, RoundUp(size), RoundUp(size))
  }

  /** Candidate `k` of the search for `n` bytes. */
  function Candidate(n: nat, k: nat): nat {
    USER_STACKS_START + k * n
  }

  /** Candidate `k` begins inside the region and is unmapped. */
  predicate CandidateFree(mem: Memory, c: Frame, n: nat, k: nat)
    requires n <= STACKS_SIZE
  {
    Candidate(n, k) < USER_STACKS_END && RangeFree(mem, c, Candidate(n, k), n)
  }

  /** ... and ends below the page that shows the directory. */
  predicate CandidateFits(mem: Memory, c: Frame, n: nat, k: nat)
    requires n <= STACKS_SIZE
  {
    Candidate(n, k) + n <= USER_DIR_VIRTUAL && RangeFree(mem, c, Candidate(n, k), n)
  }

  /** The result is one of the candidates. */
  lemma {:induction false} ScanCandidate(mem: Memory, c: Frame, a: nat, hi: nat, n: nat, step: nat) returns (k: nat)
    requires 0 < n && 0 < step && hi + n <= 0x1_0000_0000
    ensures Scan(mem, c, a, hi, n, step) < hi ==> Scan(mem, c, a, hi, n, step) == a + k * step
    decreases hi - a
  {
    k := 0;
    if a < hi && !RangeFree(mem, c, a, n) {
      var i := ScanCandidate(mem, c, a + step, hi, n, step);
      k := i + 1;
      assert k * step == i * step + step;
    }
  }

  /** The search fails exactly when no candidate is free. */
  lemma StackPlaceNone(mem: Memory, c: Frame, size: Addr)
    requires 0 < size <= STACKS_SIZE
    ensures StackPlace(mem, c, size) == USER_STACKS_END
       <==> forall k: nat :: !CandidateFree(mem, c, RoundUp(size), k)
  {
    hide Scan, RangeFree;
    var n := RoundUp(size);
    ScanResult(mem, c, USER_STACKS_START, USER_STACKS_END, n, n);
    var i := ScanCandidate(mem, c, USER_STACKS_START, USER_STACKS_END, n, n);
    if StackPlace(mem, c, size) < USER_STACKS_END {
      assert CandidateFree(mem, c, n, i);
    } else {
      forall k: nat ensures !CandidateFree(mem, c, n, k) {
        if Candidate(n, k) < USER_STACKS_END {
          ScanSkips(mem, c, USER_STACKS_START, USER_STACKS_END, n, n, k);
        }
      }
    }
  }

  /** The stack lies below the windows of the directory exactly when some candidate there is free. */
  lemma StackPlaceFits(mem: Memory, c: Frame, size: Addr)
    requires 0 < size <= STACKS_SIZE
    ensures StackPlace(mem, c, size) + RoundUp(size) <= USER_DIR_VIRTUAL
       <==> exists k: nat :: CandidateFits(mem, c, RoundUp(size), k)
  {
    hide Scan, RangeFree;
    var n, place := RoundUp(size), StackPlace(mem, c, size);
    ScanResult(mem, c, USER_STACKS_START, USER_STACKS_END, n, n);
    var i := ScanCandidate(mem, c, USER_STACKS_START, USER_STACKS_END, n, n);
    if place + n <= USER_DIR_VIRTUAL {
      assert CandidateFits(mem, c, n, i);
    } else if k: nat :| CandidateFits(mem, c, n, k) {
      if Candidate(n, k) < place {
        ScanSkips(mem, c, USER_STACKS_START, USER_STACKS_END, n, n, k);
      }
      assert false;
    }
  }

  /** Page `p` lies in the table window, and its entry is an empty entry of the directory itself. */
  predicate WritesDirectory(mem: Memory, w: World, c: Frame, p: PageNum) {
    && WINDOW_PAGE <= p < WINDOW_PAGE + 1024 && mem[c][p - WINDOW_PAGE] == ZERO
    && Walk(mem, c, TabVA(w, c) + 4 * p) == Some(Loc(c, p - WINDOW_PAGE))
  }

  /** The search ends below the windows, or fails. */
  ghost predicate StackSearchSafe(mem: Memory, c: Frame, size: Addr)
    requires 0 < size <= STACKS_SIZE
  {
    (exists k: nat :: CandidateFits(mem, c, RoundUp(size), k))
    || (forall k: nat :: !CandidateFree(mem, c, RoundUp(size), k))
  }

  /**
    When no candidate below the windows is free but a later one is, the place of the stack
    lies in the window on the directory's own tables, and the entry that mapping its first
    page would write is an entry of the directory.
  */
  lemma StackPlaceElse(mem: Memory, w: World, c: Frame, size: Addr)
    requires Inv(mem, w) && w.role[c] == Directory && SelfMapped(mem, w, c) && 0 < size <= STACKS_SIZE
    requires forall k: nat :: !CandidateFits(mem, c, RoundUp(size), k)
    requires exists k: nat :: CandidateFree(mem, c, RoundUp(size), k)
    ensures WritesDirectory(mem, w, c, PageOf(StackPlace(mem, c, size)))
  {
    hide Inv, Scan, SelfMapped, CandidateFree, CandidateFits, Walk;
    var n, place := RoundUp(size), StackPlace(mem, c, size);
    StackPlaceNone(mem, c, size);
    StackPlaceFits(mem, c, size);
    ScanResult(mem, c, USER_STACKS_START, USER_STACKS_END, n, n);
    ScanAligned(mem, c, USER_STACKS_START, USER_STACKS_END, n, n);
    ActiveSelf(mem, w, c);
    DirectoryPageTaken(mem, w, c);
    FreeMisses(mem, c, place, n, USER_DIR_VIRTUAL);
    FreeAt(mem, c, place, n);
    var j := PageOf(place) - WINDOW_PAGE;
    WindowView(mem, c, j);
    WindowEntry(mem, w, c, j);
  }

  lemma DirectoryPageTaken(mem: Memory, w: World, c: Frame)
    requires SelfMapped(mem, w, c)
    ensures View(mem, c, PageOf(USER_DIR_VIRTUAL)) != ZERO
  {
  }

  /** A free range misses every mapped page. */
  lemma FreeMisses(mem: Memory, c: Frame, a: nat, n: nat, va: Addr)
    requires a + n <= 0x1_0000_0000 && RangeFree(mem, c, a, n)
    requires va % PAGE_SIZE == 0 && View(mem, c, PageOf(va)) != ZERO
    ensures va < a || a + n <= va
  {
    hide View;
    assert PageOf(va) * PAGE_SIZE == va;
  }

  lemma FreeAt(mem: Memory, c: Frame, a: Addr, n: nat)
    requires a + n <= 0x1_0000_0000 && 0 < n && a % PAGE_SIZE == 0 && RangeFree(mem, c, a, n)
    ensures View(mem, c, PageOf(a)) == ZERO
  {
    hide View;
    assert PageOf(a) * PAGE_SIZE == a;
  }

  lemma {:induction false} ScanAligned(mem: Memory, c: Frame, a: nat, hi: nat, n: nat, step: nat)
    requires n > 0 && step > 0 && hi + n <= 0x1_0000_0000
    requires a % PAGE_SIZE == 0 && hi % PAGE_SIZE == 0 && step % PAGE_SIZE == 0
    ensures Scan(mem, c, a, hi, n, step) % PAGE_SIZE == 0
    decreases hi - a
  {
    if a < hi && !RangeFree(mem, c, a, n) {
      assert (a + step) % PAGE_SIZE == 0;
      ScanAligned(mem, c, a + step, hi, n, step);
    }
  }

  /** Some candidate below the windows is free, so the place has only ordinary, unmapped pages. */
  lemma StackPlaceOk(mem: Memory, w: World, c: Frame, size: Addr)
    requires 0 < size <= STACKS_SIZE && |w.storage| < STACK_PAGES
    requires exists k: nat :: CandidateFits(mem, c, RoundUp(size), k)
    ensures var va := StackPlace(mem, c, size);
      && va % PAGE_SIZE == 0 && USER_STACKS_START <= va && va + RoundUp(size) <= USER_DIR_VIRTUAL
      && RoundUp(va + size) == va + RoundUp(size)
      && RangeFree(mem, c, va, RoundUp(size))
      && forall p: PageNum | PageOf(va) <= p < PageOf(va + RoundUp(size)) :: Mappable(w, p)
  {
    hide Scan, RangeFree, Mappable, CandidateFits;
    StackPlaceFits(mem, c, size);
    ScanResult(mem, c, USER_STACKS_START, USER_STACKS_END, RoundUp(size), RoundUp(size));
    ScanAligned(mem, c, USER_STACKS_START, USER_STACKS_END, RoundUp(size), RoundUp(size));
    var va := StackPlace(mem, c, size);
    RoundSum(va, size);
    forall p: PageNum | PageOf(va) <= p < PageOf(va + RoundUp(size)) ensures Mappable(w, p) {
      StackPageMappable(w, p);
    }
  }

  lemma RoundSum(va: Addr, size: Addr)
    requires va % PAGE_SIZE == 0 && va + size + PAGE_SIZE <= 0x1_0000_0000
    ensures RoundUp(va + size) == va + RoundUp(size)
  {
  }

  lemma StackPageMappable(w: World, p: PageNum)
    requires 0xE_0000 <= p < 0xE_FBFF
    ensures Mappable(w, p)
  {
  }
}
