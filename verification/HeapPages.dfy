/**
  The pages of the kernel heap: how alloc_chunk takes frames from the PMM and maps
  them, and how free_chunk unmaps them and gives them back (kheap.c on top of vmm.c
  and pmm.c).
*/
module HeapPages {
  import opened Hardware
  import opened Ownership
  import opened Windows
  import opened Ranges
  import opened Mounts
  import opened Teardown

  const HEAP_PAGE: PageNum := 0xF_0000
  const HEAP_PAGES := 52 * 1024

  function HeapPage(k: nat): (p: PageNum)
    requires k < HEAP_PAGES
  {
    HEAP_PAGE + k
  }

  /** Page `k` of the heap has a frame of its own. */
  ghost predicate HasFrame(mem: Memory, w: World, k: nat)
    requires k < HEAP_PAGES
  {
    var x := View(mem, w.kernel, HeapPage(k));
    x != ZERO && x.flags == KERNEL_RW && w.role[x.frame] == Leaf(w.kernel, HeapPage(k))
  }

  ghost predicate PageFits(mem: Memory, w: World, n: nat, k: nat)
    requires k < HEAP_PAGES
  {
    if k < n then HasFrame(mem, w, k) else View(mem, w.kernel, HeapPage(k)) == ZERO
  }

  /** Exactly the first `n` pages of the heap are mapped, each to a frame of its own. */
  ghost predicate HeapMapped(mem: Memory, w: World, n: nat) {
    n <= HEAP_PAGES && forall k: nat | k < HEAP_PAGES :: PageFits(mem, w, n, k)
  }

  /** In every address space the heap looks the same, and mapping it never takes a new table. */
  lemma HeapSeenEverywhere(mem: Memory, w: World, d: Frame, k: nat)
    requires Inv(mem, w) && IsDir(w, d) && k < HEAP_PAGES
    ensures Shared((HeapPage(k)) / 1024) && Ordinary(HeapPage(k)) && Mappable(w, HeapPage(k))
    ensures View(mem, d, HeapPage(k)) == View(mem, w.kernel, HeapPage(k))
    ensures !NeedsTable(mem, d, HeapPage(k))
    ensures mem[d][(HeapPage(k)) / 1024] == mem[w.kernel][(HeapPage(k)) / 1024]
  {
    hide View;
    KernelHalfAgrees(mem, w, d, HeapPage(k));
    StackHolds(mem, w);
  }

  lemma HeapSeenFrom(mem: Memory, w: World, c: Frame, k: nat)
    requires Inv(mem, w) && Active(mem, w, c) && k < HEAP_PAGES
    ensures Mappable(w, HeapPage(k)) && !NeedsTable(mem, c, HeapPage(k))
  {
    ActiveIsDir(mem, w, c);
    HeapSeenEverywhere(mem, w, c, k);
  }

  // ------------------------------------------------------------ one page more

  function MoreMem(mem: Memory, w: World, c: Frame, n: nat): Memory
    requires w.free != [] && n < HEAP_PAGES && !NeedsTable(mem, c, HeapPage(n))
  {
    MapMem(mem, Popped(w), c, HeapPage(n), Word(w.free[|w.free| - 1], KERNEL_RW))
  }

  function MoreWorld(w: World, n: nat): World
    requires w.free != [] && n < HEAP_PAGES
  {
    Popped(w).(role := Popped(w).role[w.free[|w.free| - 1] := Leaf(w.kernel, HeapPage(n))])
  }

  lemma MoreInv(mem: Memory, w: World, c: Frame, n: nat)
    requires Inv(mem, w) && Active(mem, w, c) && w.free != [] && n < HEAP_PAGES
    ensures Mappable(Popped(w), HeapPage(n)) && !NeedsTable(mem, c, HeapPage(n))
    ensures !Unshown(mem, Popped(w), c, HeapPage(n))
    ensures MapWorld(mem, Popped(w), c, HeapPage(n)) == Popped(w)
    ensures Inv(MoreMem(mem, w, c, n), MoreWorld(w, n)) && Active(MoreMem(mem, w, c, n), MoreWorld(w, n), c)
    ensures WindowsKept(mem, w, MoreMem(mem, w, c, n), MoreWorld(w, n))
  {
    ActiveIsDir(mem, w, c);
    hide Inv, SelfMapped, WindowsKept, Active, MapMem;
    HeapSeenEverywhere(mem, w, c, n);
    SharedIsShown(mem, w, c, HeapPage(n));
    var w1, p, f := Popped(w), HeapPage(n), w.free[|w.free| - 1];
    var mem' := MoreMem(mem, w, c, n);
    PopInv(mem, w);
    ActiveKept(mem, w, mem, w1, c);
    MapInv(mem, w1, c, p, Word(f, KERNEL_RW));
    SetRole(mem', w1, f, Leaf(w.kernel, p));
    WindowsKeptTwice(mem, w, mem, w1, mem', w1);
    WindowsKeptTwice(mem, w, mem', w1, mem', MoreWorld(w, n));
    ActiveKept(mem, w, mem', MoreWorld(w, n), c);
  }

  /** The new page is seen in every space; nothing else changes anywhere. */
  lemma MoreViews(mem: Memory, w: World, c: Frame, n: nat, d: Frame, q: PageNum)
    requires Inv(mem, w) && Active(mem, w, c) && w.free != [] && n < HEAP_PAGES
    requires IsDir(w, d) && Ordinary(q)
    ensures !NeedsTable(mem, c, HeapPage(n))
    ensures View(MoreMem(mem, w, c, n), d, q)
         == if q == HeapPage(n) then Word(w.free[|w.free| - 1], KERNEL_RW) else View(mem, d, q)
  {
    MoreInv(mem, w, c, n);
    ActiveIsDir(mem, w, c);
    FreeTop(mem, w);
    HeapSeenEverywhere(mem, w, c, n);
    HeapSeenEverywhere(mem, w, d, n);
    hide Inv, SelfMapped, WindowsKept, Active, MapMem, View;
    PopInv(mem, w);
    assert Active(mem, Popped(w), c) by { ActiveKept(mem, w, mem, Popped(w), c); }
    KernelRole(mem, w);
    MapRefines(mem, Popped(w), c, HeapPage(n), Word(w.free[|w.free| - 1], KERNEL_RW), d, q);
  }

  /** The top `n` entries of the PMM stack. */
  function Top(w: World, n: nat): seq<Frame>
    requires n <= |w.free|
  {
    w.free[|w.free| - n..]
  }

  lemma TopMore(w: World, n: nat)
    requires n < |w.free|
    ensures Top(w, n + 1) == [w.free[|w.free| - 1 - n]] + Top(w, n)
  {
  }

  /** Page `k` got the frame that was `k - m` entries below the top of the stack. */
  ghost predicate Took(w0: World, mem: Memory, w: World, m: nat, k: nat)
    requires m <= k < HEAP_PAGES && k - m < |w0.free|
  {
    var f := w0.free[|w0.free| - 1 - (k - m)];
    View(mem, w0.kernel, HeapPage(k)) == Word(f, KERNEL_RW) && w.role[f] == Leaf(w0.kernel, HeapPage(k))
  }

  /** The pages from `m` to `n` have been mapped to frames off the PMM stack; all else is as before. */
  ghost predicate Grown(mem0: Memory, w0: World, mem: Memory, w: World, m: nat, n: nat) {
    && m <= n <= HEAP_PAGES && n - m <= |w0.free|
    && w == World(w.role, w0.kernel, w0.base, w0.storage, w0.free[..|w0.free| - (n - m)])
    && (forall k: nat | m <= k < n :: Took(w0, mem, w, m, k))
    && ViewsKept(mem0, w0, mem, HEAP_PAGE + m, HEAP_PAGE + n)
    && (forall f: Frame | f !in Top(w0, n - m) :: w.role[f] == w0.role[f])
    && ContentsKept(mem0, w0, mem, [])
  }

  /** Outside the pages from `lo` to `hi` every directory means what it meant. */
  ghost predicate ViewsKept(mem0: Memory, w0: World, mem: Memory, lo: nat, hi: nat) {
    forall d: Frame, q: PageNum | IsDir(w0, d) && Ordinary(q) && !(lo <= q < hi) :: View(mem, d, q) == View(mem0, d, q)
  }

  lemma GrownNothing(mem: Memory, w: World, m: nat)
    requires m <= HEAP_PAGES
    ensures Grown(mem, w, mem, w, m, m)
  {
    assert w.free[..|w.free|] == w.free;
  }

  /** Mapping one page more: the new page is seen in every space, nothing else changes anywhere. */
  ghost predicate OneMore(mem: Memory, w: World, mem': Memory, w': World, n: nat)
    requires n < HEAP_PAGES
  {
    && w.free != [] && w' == MoreWorld(w, n)
    && ViewsKept(mem, w, mem', HEAP_PAGE + n, HEAP_PAGE + n + 1)
    && View(mem', w.kernel, HeapPage(n)) == Word(w.free[|w.free| - 1], KERNEL_RW)
    && ContentsKept(mem, w, mem', [])
  }

  lemma MoreIsOneMore(mem: Memory, w: World, c: Frame, n: nat)
    requires Inv(mem, w) && Active(mem, w, c) && w.free != [] && n < HEAP_PAGES
    ensures !NeedsTable(mem, c, HeapPage(n)) && OneMore(mem, w, MoreMem(mem, w, c, n), MoreWorld(w, n), n)
  {
    HeapSeenEverywhere(mem, w, c, n);
    hide Inv, SelfMapped, Active, MapMem, WindowsKept, View, MoreMem;
    forall d: Frame, q: PageNum | IsDir(w, d) && Ordinary(q)
      ensures View(MoreMem(mem, w, c, n), d, q)
           == if q == HeapPage(n) then Word(w.free[|w.free| - 1], KERNEL_RW) else View(mem, d, q)
    {
      MoreViews(mem, w, c, n, d, q);
    }
    HeapEntryContents(mem, w, mem, Popped(w), c, n, Word(w.free[|w.free| - 1], KERNEL_RW));
  }

  /** The entry of a heap page stands in a table of the kernel half. */
  lemma HeapEntryContents(mem0: Memory, w0: World, mem: Memory, w: World, c: Frame, n: nat, x: Word)
    requires Inv(mem0, w0) && n < HEAP_PAGES && !NeedsTable(mem, c, HeapPage(n))
    requires mem[c][HeapPage(n) / 1024] == mem0[w0.kernel][HeapPage(n) / 1024]
    ensures w0.role[mem0[w0.kernel][HeapPage(n) / 1024].frame].KernelTable?
    ensures forall f: Frame | !w0.role[f].KernelTable? :: MapMem(mem, w, c, HeapPage(n), x)[f] == mem[f]
  {
    assert Shared(HeapPage(n) / 1024);
  }

  lemma GrownMore(mem0: Memory, w0: World, mem: Memory, w: World, mem': Memory, w': World, m: nat, n: nat)
    requires Grown(mem0, w0, mem, w, m, n) && Inv(mem0, w0) && n < HEAP_PAGES && OneMore(mem, w, mem', w', n)
    ensures Grown(mem0, w0, mem', w', m, n + 1)
  {
    hide Inv, View, Took;
    GrownDirs(mem0, w0, mem, w, m, n);
    TopMore(w0, n - m);
    forall k: nat | m <= k < n + 1 ensures Took(w0, mem', w', m, k) {
      MoreTook(mem0, w0, mem, w, mem', w', m, n, k);
    }
    assert ViewsKept(mem0, w0, mem', HEAP_PAGE + m, HEAP_PAGE + n + 1);
    GrownOwners(mem0, w0, mem, w, m, n);
    hide ViewsKept;
  }

  /** The frames taken have become pages of the heap. */
  lemma GrownOwners(mem0: Memory, w0: World, mem: Memory, w: World, m: nat, n: nat)
    requires Grown(mem0, w0, mem, w, m, n)
    ensures n - m <= |w0.free| && w.kernel == w0.kernel
    ensures forall f: Frame | f in Top(w0, n - m) :: w.role[f].Leaf?
    ensures OwnersKept(w0, w, Top(w0, n - m)) && ContentsKept(mem0, w0, mem, Top(w0, n - m))
  {
    hide View, ViewsKept;
    forall f: Frame | f in Top(w0, n - m) ensures w.role[f].Leaf? {
      var i :| 0 <= i < n - m && Top(w0, n - m)[i] == f;
      assert Took(w0, mem, w, m, n - 1 - i);
    }
  }

  lemma MoreTook(mem0: Memory, w0: World, mem: Memory, w: World, mem': Memory, w': World, m: nat, n: nat, k: nat)
    requires Grown(mem0, w0, mem, w, m, n) && Inv(mem0, w0) && n < HEAP_PAGES && OneMore(mem, w, mem', w', n)
    requires m <= k <= n
    ensures k - m < |w0.free| && Took(w0, mem', w', m, k)
  {
    hide Grown, Inv, View, OneMore, HeapPage;
    OneMoreHere(mem, w, mem', w', n);
    GrownTop(mem0, w0, mem, w, m, n, k);
    if k < n {
      OneMoreKeeps(mem, w, mem', w', n, k);
    }
  }

  lemma OneMoreHere(mem: Memory, w: World, mem': Memory, w': World, n: nat)
    requires n < HEAP_PAGES && OneMore(mem, w, mem', w', n)
    ensures w.free != [] && w' == MoreWorld(w, n) && w'.kernel == w.kernel
    ensures View(mem', w.kernel, HeapPage(n)) == Word(w.free[|w.free| - 1], KERNEL_RW)
  {
    hide View, ViewsKept;
  }

  lemma OneMoreKeeps(mem: Memory, w: World, mem': Memory, w': World, n: nat, k: nat)
    requires n < HEAP_PAGES && k < HEAP_PAGES && k != n && OneMore(mem, w, mem', w', n)
    ensures View(mem', w.kernel, HeapPage(k)) == View(mem, w.kernel, HeapPage(k))
  {
    hide View;
    assert Ordinary(HeapPage(k)) && IsDir(w, w.kernel);
  }

  lemma GrownTop(mem0: Memory, w0: World, mem: Memory, w: World, m: nat, n: nat, k: nat)
    requires Grown(mem0, w0, mem, w, m, n) && Inv(mem0, w0) && w.free != [] && m <= k <= n < HEAP_PAGES
    ensures w.kernel == w0.kernel && k - m < |w0.free| && w.free[|w.free| - 1] == w0.free[|w0.free| - 1 - (n - m)]
    ensures k < n ==> Took(w0, mem, w, m, k) && w0.free[|w0.free| - 1 - (k - m)] != w.free[|w.free| - 1]
  {
    hide Inv, View, ViewsKept, Took;
    StackDistinct(mem0, w0);
  }

  lemma GrownDirs(mem0: Memory, w0: World, mem: Memory, w: World, m: nat, n: nat)
    requires Grown(mem0, w0, mem, w, m, n) && Inv(mem0, w0)
    ensures forall d: Frame | IsDir(w0, d) :: IsDir(w, d)
  {
    FreeRoles(mem0, w0);
    hide Inv, ViewsKept, Took;
    assert forall f: Frame | f in Top(w0, n - m) :: f in w0.free;
  }

  lemma StackDistinct(mem: Memory, w: World)
    requires Inv(mem, w)
    ensures forall i, j | 0 <= i < j < |w.free| :: w.free[i] != w.free[j]
    ensures forall i | 0 <= i < |w.free| :: w.role[w.free[i]] == Free(i)
  {
  }

  lemma GrownMapped(mem0: Memory, w0: World, mem: Memory, w: World, m: nat, n: nat)
    requires Grown(mem0, w0, mem, w, m, n) && HeapMapped(mem0, w0, m) && Inv(mem0, w0)
    ensures HeapMapped(mem, w, n)
  {
    hide Grown, PageFits, Inv;
    assert n <= HEAP_PAGES by { GrownBounds(mem0, w0, mem, w, m, n); }
    forall k: nat | k < HEAP_PAGES ensures PageFits(mem, w, n, k) {
      GrownFits(mem0, w0, mem, w, m, n, k);
    }
  }

  lemma GrownBounds(mem0: Memory, w0: World, mem: Memory, w: World, m: nat, n: nat)
    requires Grown(mem0, w0, mem, w, m, n)
    ensures m <= n <= HEAP_PAGES && n - m <= |w0.free| && w.kernel == w0.kernel
    ensures forall f: Frame | f !in Top(w0, n - m) :: w.role[f] == w0.role[f]
  {
    hide ViewsKept, Took;
  }

  lemma GrownFits(mem0: Memory, w0: World, mem: Memory, w: World, m: nat, n: nat, k: nat)
    requires Grown(mem0, w0, mem, w, m, n) && k < HEAP_PAGES && PageFits(mem0, w0, m, k) && Inv(mem0, w0)
    ensures PageFits(mem, w, n, k)
  {
    hide Inv, View, HeapPage;
    GrownBounds(mem0, w0, mem, w, m, n);
    if m <= k < n {
      assert Took(w0, mem, w, m, k);
      hide Grown;
    } else {
      GrownKeeps(mem0, w0, mem, w, m, n, k);
      hide Grown;
      TopIsFree(mem0, w0, n - m);
    }
  }

  lemma TopIsFree(mem: Memory, w: World, n: nat)
    requires Inv(mem, w) && n <= |w.free|
    ensures forall f: Frame | f in Top(w, n) :: w.role[f].Free?
  {
    StackDistinct(mem, w);
    hide Inv;
  }

  lemma GrownKeeps(mem0: Memory, w0: World, mem: Memory, w: World, m: nat, n: nat, k: nat)
    requires Grown(mem0, w0, mem, w, m, n) && k < HEAP_PAGES && !(m <= k < n)
    ensures View(mem, w0.kernel, HeapPage(k)) == View(mem0, w0.kernel, HeapPage(k))
  {
    hide View, Took;
    assert Ordinary(HeapPage(k)) && IsDir(w0, w0.kernel);
  }

  lemma OneMoreMapped(mem: Memory, w: World, mem': Memory, w': World, n: nat)
    requires Inv(mem, w) && n < HEAP_PAGES && HeapMapped(mem, w, n) && OneMore(mem, w, mem', w', n)
    ensures HeapMapped(mem', w', n + 1)
  {
    GrownNothing(mem, w, n);
    GrownMore(mem, w, mem, w, mem', w', n, n);
    GrownMapped(mem, w, mem', w', n, n + 1);
  }

  // ------------------------------------------------------------ one page less

  function FrameOf(mem: Memory, kernel: Frame, k: nat): Frame
    requires k < HEAP_PAGES
  {
    View(mem, kernel, HeapPage(k)).frame
  }

  /** Outside those pages and the region of the PMM stack every directory means what it meant. */
  ghost predicate ViewsAside(mem0: Memory, w0: World, mem: Memory, lo: nat, hi: nat) {
    forall d: Frame, q: PageNum | IsDir(w0, d) && Ordinary(q) && !(lo <= q < hi) && !StackRegion(q) ::
      View(mem, d, q) == View(mem0, d, q)
  }

  ghost predicate OneLess(mem: Memory, w: World, mem': Memory, w': World, n: nat)
    requires n < HEAP_PAGES
  {
    && w' == Freed(w, FrameOf(mem, w.kernel, n))
    && ViewsAside(mem, w, mem', HEAP_PAGE + n, HEAP_PAGE + n + 1)
    && View(mem', w.kernel, HeapPage(n)) == ZERO
    && ContentsKept(mem, w, mem', [FrameOf(mem, w.kernel, n)])
  }

  /** The frame of a heap page may be freed while the page is still mapped. */
  lemma LessStarts(mem: Memory, w: World, c: Frame, n: nat)
    requires Inv(mem, w) && Active(mem, w, c) && n < HEAP_PAGES && HeapMapped(mem, w, n + 1)
    ensures View(mem, c, HeapPage(n)) == View(mem, w.kernel, HeapPage(n)) != ZERO
    ensures Freeable(w, FrameOf(mem, w.kernel, n)) && FrameOf(mem, w.kernel, n) >= w.base
  {
    assert PageFits(mem, w, n + 1, n);
    ActiveIsDir(mem, w, c);
    HeapSeenEverywhere(mem, w, c, n);
    var f := FrameOf(mem, w.kernel, n);
    assert w.role[f] == Leaf(w.kernel, HeapPage(n));
    HighFrame(mem, w, f);
  }

  lemma HighFrame(mem: Memory, w: World, f: Frame)
    requires Inv(mem, w) && !LowRole(w.role[f])
    ensures f >= w.base
  {
  }

  /** A free leaves every page alone but those of the PMM stack region. */
  lemma FreeViews(mem: Memory, w: World, f: Frame, d: Frame, q: PageNum)
    requires Inv(mem, w) && Freeable(w, f) && IsDir(w, d) && Ordinary(q) && !StackRegion(q)
    ensures View(FreedMem(mem, w, f), d, q) == View(mem, d, q)
  {
    FreeOneUntouched(mem, w, f);
    KernelRole(mem, w);
    if mem[d][q / 1024] != ZERO {
      TableOf(mem, w, d, q);
    }
    hide Inv, FreedMem;
  }

  lemma FreeDirs(mem: Memory, w: World, f: Frame)
    requires Inv(mem, w) && w.role[f].Leaf?
    ensures Freed(w, f).kernel == w.kernel && forall d: Frame :: IsDir(Freed(w, f), d) <==> IsDir(w, d)
    ensures forall g: Frame | g != f :: Freed(w, f).role[g] == w.role[g]
    ensures Mappable(Freed(w, f), HEAP_PAGE)
  {
    KernelRole(mem, w);
    FreeOneUntouched(mem, w, f);
    StackHolds(mem, w);
    hide Inv;
  }

  lemma LessIsOneLess(mem: Memory, w: World, c: Frame, n: nat, mem1: Memory, mem': Memory, w': World)
    requires Inv(mem, w) && n < HEAP_PAGES && HeapMapped(mem, w, n + 1)
    requires w' == Freed(w, FrameOf(mem, w.kernel, n)) && mem1 == FreedMem(mem, w, FrameOf(mem, w.kernel, n))
    requires Inv(mem1, w') && Active(mem1, w', c) && !NeedsTable(mem1, c, HeapPage(n))
    requires mem' == MapMem(mem1, w', c, HeapPage(n), ZERO)
    ensures OneLess(mem, w, mem', w', n)
  {
    assert PageFits(mem, w, n + 1, n);
    var f := FrameOf(mem, w.kernel, n);
    assert w.role[f].Leaf?;
    FreeDirs(mem, w, f);
    HeapSeenEverywhere(mem1, w', w'.kernel, n);
    ActiveIsDir(mem1, w', c);
    HeapSeenEverywhere(mem1, w', c, n);
    hide Inv, SelfMapped, Active, MapMem, View, FreedMem, Freed, HeapMapped, PageFits;
    MapRefines(mem1, w', c, HeapPage(n), ZERO, w'.kernel, HeapPage(n));
    forall d: Frame, q: PageNum | IsDir(w, d) && Ordinary(q) && q != HeapPage(n) && !StackRegion(q)
      ensures View(mem', d, q) == View(mem, d, q)
    {
      FreeViews(mem, w, f, d, q);
      MapRefines(mem1, w', c, HeapPage(n), ZERO, d, q);
    }
    hide ContentsKept;
    LessContents(mem, w, c, n, f, mem1, w');
  }

  lemma LessContents(mem: Memory, w: World, c: Frame, n: nat, f: Frame, mem1: Memory, w': World)
    requires Inv(mem, w) && n < HEAP_PAGES && Freeable(w, f) && mem1 == FreedMem(mem, w, f) && w' == Freed(w, f)
    requires mem1[c][HeapPage(n) / 1024] == mem1[w.kernel][HeapPage(n) / 1024] != ZERO
    ensures ContentsKept(mem, w, MapMem(mem1, w', c, HeapPage(n), ZERO), [f])
  {
    FreeOneUntouched(mem, w, f);
    KernelRole(mem, w);
    assert mem1[w.kernel] == mem[w.kernel];
    hide FreedMem, Freed, Freeable;
    HeapEntryContents(mem, w, mem1, w', c, n, ZERO);
  }

  /** The frames of the pages from `j` to `n`, last page first: the order in which they are given back. */
  function TrimFrames(mem: Memory, kernel: Frame, j: nat, n: nat): seq<Frame>
    requires n <= HEAP_PAGES
    decreases n - j
  {
    if j >= n then [] else TrimFrames(mem, kernel, j + 1, n) + [FrameOf(mem, kernel, j)]
  }

  /** The pages from `j` to `n` have been unmapped and their frames freed in order. */
  ghost predicate Trimmed(mem0: Memory, w0: World, mem: Memory, w: World, j: nat, n: nat) {
    && j <= n <= HEAP_PAGES
    && w == FreedAll(w0, TrimFrames(mem0, w0.kernel, j, n))
    && ViewsAside(mem0, w0, mem, HEAP_PAGE + j, HEAP_PAGE + n)
    && HeapMapped(mem, w, j)
    && w.kernel == w0.kernel && (forall d: Frame | IsDir(w0, d) :: IsDir(w, d))
    && ContentsKept(mem0, w0, mem, TrimFrames(mem0, w0.kernel, j, n))
  }

  lemma TrimmedNothing(mem: Memory, w: World, n: nat)
    requires HeapMapped(mem, w, n)
    ensures Trimmed(mem, w, mem, w, n, n)
  {
  }

  lemma LessMapped(mem: Memory, w: World, mem': Memory, w': World, j: nat)
    requires Inv(mem, w) && j < HEAP_PAGES && HeapMapped(mem, w, j + 1) && OneLess(mem, w, mem', w', j)
    ensures HeapMapped(mem', w', j) && w'.kernel == w.kernel && forall d: Frame | IsDir(w, d) :: IsDir(w', d)
  {
    assert PageFits(mem, w, j + 1, j);
    var f := FrameOf(mem, w.kernel, j);
    assert w.role[f] == Leaf(w.kernel, HeapPage(j));
    FreeDirs(mem, w, f);
    hide Inv, View, Freed;
    forall k: nat | k < HEAP_PAGES ensures PageFits(mem', w', j, k) {
      assert PageFits(mem, w, j + 1, k);
      assert Ordinary(HeapPage(k)) && !StackRegion(HeapPage(k)) && IsDir(w, w.kernel);
    }
  }

  lemma TrimmedLess(mem0: Memory, w0: World, mem: Memory, w: World, mem': Memory, w': World, j: nat, n: nat)
    requires Trimmed(mem0, w0, mem, w, j + 1, n) && Inv(mem, w) && OneLess(mem, w, mem', w', j)
    ensures Trimmed(mem0, w0, mem', w', j, n)
  {
    LessMapped(mem, w, mem', w', j);
    assert Ordinary(HeapPage(j)) && !StackRegion(HeapPage(j)) && IsDir(w0, w0.kernel);
    assert View(mem, w.kernel, HeapPage(j)) == View(mem0, w0.kernel, HeapPage(j));
    hide Inv, View, HeapMapped, Freed;
    var fs := TrimFrames(mem0, w0.kernel, j + 1, n);
    assert (fs + [FrameOf(mem0, w0.kernel, j)])[..|fs|] == fs;
    FreedAllOwners(w0, fs);
    ContentsKeptTwice(mem0, w0, mem, w, mem', fs, [FrameOf(mem0, w0.kernel, j)]);
  }

  /** Each frame is given back once, and may be given back. */
  lemma {:induction false} TrimOnce(mem: Memory, w: World, j: nat, n: nat)
    requires HeapMapped(mem, w, n)
    ensures |TrimFrames(mem, w.kernel, j, n)| == if j >= n then 0 else n - j
    ensures forall a | 0 <= a < |TrimFrames(mem, w.kernel, j, n)| ::
      Freeable(w, TrimFrames(mem, w.kernel, j, n)[a])
      && w.role[TrimFrames(mem, w.kernel, j, n)[a]] == Leaf(w.kernel, HEAP_PAGE + n - 1 - a)
    ensures forall a, b | 0 <= a < b < |TrimFrames(mem, w.kernel, j, n)| ::
      TrimFrames(mem, w.kernel, j, n)[a] != TrimFrames(mem, w.kernel, j, n)[b]
    decreases n - j
  {
    if j < n {
      TrimOnce(mem, w, j + 1, n);
      assert PageFits(mem, w, n, j);
    }
  }

  // ------------------------------------------------------------ growing and trimming again

  lemma {:induction false} TrimsWhatGrew(mem0: Memory, w0: World, mem: Memory, w: World, m: nat, n: nat, j: nat)
    requires Grown(mem0, w0, mem, w, m, n) && m <= j <= n
    ensures TrimFrames(mem, w0.kernel, j, n) == w0.free[|w0.free| - (n - m)..|w0.free| - (j - m)]
    decreases n - j
  {
    hide Grown, TrimFrames;
    GrownBounds(mem0, w0, mem, w, m, n);
    TrimMore(mem, w0.kernel, j, n);
    if j < n {
      TrimsWhatGrew(mem0, w0, mem, w, m, n, j + 1);
      GrownFrame(mem0, w0, mem, w, m, n, j);
      OneMoreOf(w0.free, |w0.free| - (n - m), |w0.free| - (j + 1 - m));
    }
  }

  lemma TrimMore(mem: Memory, kernel: Frame, j: nat, n: nat)
    requires j <= n <= HEAP_PAGES
    ensures TrimFrames(mem, kernel, j, n)
         == if j == n then [] else TrimFrames(mem, kernel, j + 1, n) + [FrameOf(mem, kernel, j)]
  {
  }

  lemma GrownFrame(mem0: Memory, w0: World, mem: Memory, w: World, m: nat, n: nat, j: nat)
    requires Grown(mem0, w0, mem, w, m, n) && m <= j < n
    ensures j < HEAP_PAGES && j - m < |w0.free| && FrameOf(mem, w0.kernel, j) == w0.free[|w0.free| - 1 - (j - m)]
  {
    hide ViewsKept, ContentsKept, View;
    assert Took(w0, mem, w, m, j);
  }

  lemma OneMoreOf<T>(xs: seq<T>, lo: nat, hi: nat)
    requires lo <= hi < |xs|
    ensures xs[lo..hi + 1] == xs[lo..hi] + [xs[hi]]
  {
  }

  /** `w` is `w0` but for the entries of the stack from `k` on, which are elsewhere. */
  ghost predicate Lacks(w0: World, w: World, k: nat) {
    && k <= |w0.free| && w == World(w.role, w0.kernel, w0.base, w0.storage, w0.free[..k])
    && forall f: Frame | f !in w0.free[k..] :: w.role[f] == w0.role[f]
  }

  lemma PushBack(w0: World, w: World, k: nat)
    requires Lacks(w0, w, k) && k < |w0.free| <= 1024 * |w0.storage| && w0.role[w0.free[k]] == Free(k)
    ensures Lacks(w0, Freed(w, w0.free[k]), k + 1)
  {
    assert w0.free[k..] == [w0.free[k]] + w0.free[k + 1..];
    assert w0.free[..k + 1] == w0.free[..k] + [w0.free[k]];
  }

  /** Frames pushed back in the order in which they lay on the stack: the stack as it was. */
  lemma {:induction false} PushedBack(w0: World, w: World, lo: nat, hi: nat)
    requires lo <= hi <= |w0.free| <= 1024 * |w0.storage| && Lacks(w0, w, lo)
    requires forall i | 0 <= i < |w0.free| :: w0.role[w0.free[i]] == Free(i)
    ensures Lacks(w0, FreedAll(w, w0.free[lo..hi]), hi)
    decreases hi
  {
    hide Lacks, Freed;
    var fs := w0.free[lo..hi];
    if lo < hi {
      PushedBack(w0, w, lo, hi - 1);
      assert fs[..|fs| - 1] == w0.free[lo..hi - 1];
      PushBack(w0, FreedAll(w, w0.free[lo..hi - 1]), hi - 1);
    }
  }

  /** Trimming the pages a growth has added puts the PMM back exactly where it was. */
  lemma GrowThenTrim(mem0: Memory, w0: World, mem: Memory, w: World, m: nat, n: nat)
    requires Grown(mem0, w0, mem, w, m, n) && Inv(mem0, w0)
    ensures FreedAll(w, TrimFrames(mem, w.kernel, m, n)) == w0
  {
    hide Inv, Lacks, FreedAll, Grown, TrimFrames;
    GrownBounds(mem0, w0, mem, w, m, n);
    TrimsWhatGrew(mem0, w0, mem, w, m, n, m);
    StackDistinct(mem0, w0);
    StackHolds(mem0, w0);
    GrownLacks(mem0, w0, mem, w, m, n);
    PushedBack(w0, w, |w0.free| - (n - m), |w0.free|);
    LacksNothing(w0, FreedAll(w, TrimFrames(mem, w.kernel, m, n)));
  }

  lemma GrownLacks(mem0: Memory, w0: World, mem: Memory, w: World, m: nat, n: nat)
    requires Grown(mem0, w0, mem, w, m, n)
    ensures Lacks(w0, w, |w0.free| - (n - m))
  {
    hide ViewsKept, Took;
  }

  lemma LacksNothing(w0: World, w: World)
    requires Lacks(w0, w, |w0.free|)
    ensures w == w0
  {
    assert w0.free[..|w0.free|] == w0.free;
    assert w.role == w0.role;
  }

  /** ... and leaves every address space as it was, outside the region of the PMM stack. */
  lemma GrowThenTrimViews(mem0: Memory, w0: World, mem1: Memory, w1: World, mem2: Memory, w2: World, m: nat, n: nat,
                          d: Frame, q: PageNum)
    requires Grown(mem0, w0, mem1, w1, m, n) && Trimmed(mem1, w1, mem2, w2, m, n)
    requires Inv(mem0, w0) && Inv(mem2, w2) && HeapMapped(mem0, w0, m)
    requires IsDir(w0, d) && Ordinary(q) && !StackRegion(q)
    ensures View(mem2, d, q) == View(mem0, d, q)
  {
    GrownDirs(mem0, w0, mem1, w1, m, n);
    if HEAP_PAGE + m <= q < HEAP_PAGE + n {
      var k := q - HEAP_PAGE;
      assert q == HeapPage(k) && PageFits(mem0, w0, m, k) && PageFits(mem2, w2, m, k);
      HeapSeenEverywhere(mem0, w0, d, k);
      HeapSeenEverywhere(mem2, w2, d, k);
    }
    hide Inv, View, HeapMapped, Took, FreedAll;
  }

  // ------------------------------------------------------------ what the heap leaves alone

  /** A growing heap leaves the mount slots at rest ... */
  lemma GrowthKeepsRest(mem0: Memory, w0: World, mem: Memory, w: World, m: nat, n: nat)
    requires Inv(mem0, w0) && Grown(mem0, w0, mem, w, m, n)
    ensures RestKept(mem0, w0, mem, w)
  {
    hide Inv, Grown, RestKept, ContentsKept, Top;
    GrownBounds(mem0, w0, mem, w, m, n);
    KernelRole(mem0, w0);
    GrownOwners(mem0, w0, mem, w, m, n);
    TopIsFree(mem0, w0, n - m);
    RestAside(mem0, w0, mem, w, Top(w0, n - m));
  }

  /** ... and every directory as ready to be torn down as it was; */
  lemma GrowthKeepsTree(mem0: Memory, w0: World, mem: Memory, w: World, m: nat, n: nat, e: Frame)
    requires Inv(mem0, w0) && Grown(mem0, w0, mem, w, m, n)
    requires w0.role[e] == Directory && Tree(mem0, w0, e)
    ensures Tree(mem, w, e)
  {
    hide Inv, Grown, Tree, ContentsKept, Top;
    GrownBounds(mem0, w0, mem, w, m, n);
    KernelRole(mem0, w0);
    GrownOwners(mem0, w0, mem, w, m, n);
    TopIsFree(mem0, w0, n - m);
    TreeAside(mem0, w0, mem, w, Top(w0, n - m), e);
  }

  /** what is trimmed are pages of the reference directory, ... */
  lemma TrimmedRoles(mem0: Memory, w0: World, j: nat, n: nat)
    requires HeapMapped(mem0, w0, n)
    ensures forall f: Frame | f in TrimFrames(mem0, w0.kernel, j, n) :: w0.role[f].Leaf? && w0.role[f].dir == w0.kernel
  {
    hide HeapMapped, TrimFrames;
    TrimOnce(mem0, w0, j, n);
  }

  lemma TrimmedOwners(mem0: Memory, w0: World, mem: Memory, w: World, j: nat, n: nat)
    requires HeapMapped(mem0, w0, n) && Trimmed(mem0, w0, mem, w, j, n)
    ensures n <= HEAP_PAGES
    ensures var fs := TrimFrames(mem0, w0.kernel, j, n);
      && OwnersKept(w0, w, fs) && ContentsKept(mem0, w0, mem, fs)
      && (forall f: Frame | f in fs :: w0.role[f].Leaf? && w0.role[f].dir == w0.kernel && w.role[f] != Directory)
  {
    hide HeapMapped, TrimFrames, View;
    TrimmedRoles(mem0, w0, j, n);
    FreedAllOwners(w0, TrimFrames(mem0, w0.kernel, j, n));
    FreedNoDirectory(w0, TrimFrames(mem0, w0.kernel, j, n));
  }

  lemma {:induction false} FreedNoDirectory(w: World, fs: seq<Frame>)
    ensures forall f: Frame | w.role[f] != Directory :: FreedAll(w, fs).role[f] != Directory
    decreases |fs|
  {
    if fs != [] {
      FreedNoDirectory(w, fs[..|fs| - 1]);
    }
  }

  /** so a shrinking heap does the same. */
  lemma TrimKeepsRest(mem0: Memory, w0: World, mem: Memory, w: World, j: nat, n: nat)
    requires Inv(mem0, w0) && HeapMapped(mem0, w0, n) && Trimmed(mem0, w0, mem, w, j, n)
    ensures RestKept(mem0, w0, mem, w)
  {
    hide Inv, Trimmed, HeapMapped, TrimFrames, RestKept, ContentsKept;
    KernelRole(mem0, w0);
    TrimmedOwners(mem0, w0, mem, w, j, n);
    RestAside(mem0, w0, mem, w, TrimFrames(mem0, w0.kernel, j, n));
  }

  lemma TrimKeepsTree(mem0: Memory, w0: World, mem: Memory, w: World, j: nat, n: nat, e: Frame)
    requires Inv(mem0, w0) && HeapMapped(mem0, w0, n) && Trimmed(mem0, w0, mem, w, j, n)
    requires w0.role[e] == Directory && Tree(mem0, w0, e)
    ensures Tree(mem, w, e)
  {
    hide Inv, Trimmed, HeapMapped, TrimFrames, Tree, ContentsKept;
    KernelRole(mem0, w0);
    TrimmedOwners(mem0, w0, mem, w, j, n);
    TreeAside(mem0, w0, mem, w, TrimFrames(mem0, w0.kernel, j, n), e);
  }
}
