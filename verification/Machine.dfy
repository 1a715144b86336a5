/**
  The physical memory manager and the virtual memory manager (pmm.c, vmm.c).

  Every access the C code makes through `current_directory`, `kernel_directory`
  or the PMM stack is a `Load` or `Store` at that virtual address, so it goes
  through the hardware walk; the contracts say which physical words it reached.
  `panic` halts: a method that may panic returns `Panic` and promises nothing more.
*/
module Machines {
  import opened Basics
  import opened Hardware
  import opened Ownership
  import opened Windows
  import opened Ranges
  import opened Mounts
  import opened Teardown
  import opened Boot
  import opened Cloning
  import opened Lifecycle

  /** page_directory_t; `physical` is the frame number of the page-aligned address. */
  datatype PageDirectory = PageDirectory(physical: Frame, directory: Addr, pages: Addr)

  function Record(w: World, d: Frame): PageDirectory {
    PageDirectory(d, DirVA(w, d), TabVA(w, d))
  }

  /** Address of element `i` of an array of words. */
  function EntryVA(base: Addr, i: nat): nat {
    base + 4 * i
  }

  lemma WalkStable(mem: Memory, mem': Memory, cr3: Frame, va: Addr)
    requires mem'[cr3] == mem[cr3]
    requires mem'[mem[cr3][DirIdx(va)].frame] == mem[mem[cr3][DirIdx(va)].frame]
    ensures Walk(mem', cr3, va) == Walk(mem, cr3, va)
  {
  }

  /** The page at `va` is the frame `f`. */
  ghost predicate Shows(mem: Memory, cr3: Frame, va: Addr, f: Frame) {
    && va + PAGE_SIZE <= 0x1_0000_0000
    && forall i | 0 <= i < 1024 :: Walk(mem, cr3, va + 4 * i) == Some(Loc(f, i))
  }

  lemma ShowsAt(mem: Memory, cr3: Frame, va: Addr, f: Frame, i: nat)
    requires Shows(mem, cr3, va, f) && i < 1024
    ensures va + 4 * i < 0x1_0000_0000 && Walk(mem, cr3, va + 4 * i) == Some(Loc(f, i))
  {
  }

  lemma ShowsStable(mem: Memory, mem': Memory, cr3: Frame, va: Addr, f: Frame)
    requires Shows(mem, cr3, va, f) && va % PAGE_SIZE == 0
    requires mem'[cr3] == mem[cr3]
    requires mem'[mem[cr3][DirIdx(va)].frame] == mem[mem[cr3][DirIdx(va)].frame]
    ensures Shows(mem', cr3, va, f)
  {
    hide Walk, DirIdx;
    forall i | 0 <= i < 1024 ensures Walk(mem', cr3, va + 4 * i) == Some(Loc(f, i)) {
      SameSlot(va, i);
      WalkStable(mem, mem', cr3, va + 4 * i);
    }
  }

  lemma SameSlot(va: Addr, i: nat)
    requires va % PAGE_SIZE == 0 && i < 1024 && va + 4 * i < 0x1_0000_0000
    ensures DirIdx(va + 4 * i) == DirIdx(va)
  {
  }

  lemma FreeWord(mem: Memory, w: World, n: nat)
    requires Inv(mem, w) && n < |w.free|
    ensures n < 1024 * |w.storage| && mem[w.storage[n / 1024]][n % 1024] == Word(w.free[n], 0)
  {
  }

  lemma StackBounds(mem: Memory, w: World)
    requires Inv(mem, w)
    ensures |w.storage| < STACK_PAGES && |w.free| <= 1024 * |w.storage|
  {
  }

  /** The next page of the stack has a table in every space, so mapping it allocates nothing. */
  lemma GrowPage(mem: Memory, w: World, c: Frame)
    requires Inv(mem, w) && Active(mem, w, c) && |w.storage| + 1 < STACK_PAGES
    ensures Mappable(w, StackPage(|w.storage|))
    ensures !NeedsTable(mem, c, StackPage(|w.storage|))
    ensures mem[c][StackPage(|w.storage|) / 1024] == mem[w.kernel][StackPage(|w.storage|) / 1024]
  {
    StackSlot(mem, w, |w.storage|);
    ActiveIsDir(mem, w, c);
  }

  /** After `map` has entered a new table in the directory, the table window shows it. */
  lemma NewTableShows(mem: Memory, c: Frame, k: nat, slot: nat, t: Frame)
    requires k < 1024 && slot < 1024 && k != slot && t != c && mem[c][k] == Word(c, KERNEL_RW)
    ensures k * 0x40_0000 + PAGE_SIZE * slot < 0x1_0000_0000
    ensures DirIdx(k * 0x40_0000 + PAGE_SIZE * slot) == k
    ensures Shows(Put(mem, Loc(c, slot), Word(t, KERNEL_RW)), c, k * 0x40_0000 + PAGE_SIZE * slot, t)
  {
    var mem1 := Put(mem, Loc(c, slot), Word(t, KERNEL_RW));
    forall i | 0 <= i < 1024
      ensures Walk(mem1, c, k * 0x40_0000 + PAGE_SIZE * slot + 4 * i) == Some(Loc(t, i))
    {
      WindowWalk(mem1, c, k, slot * 1024 + i);
    }
  }

  lemma ClearCommutes(mem: Memory, t: Frame, l: Loc, x: Word)
    requires l.index < 1024 && l.frame != t
    ensures Clear(Put(mem, l, x), t) == Put(Clear(mem, t), l, x)
  {
  }

  lemma HalfMade(mem: Memory, w: World, c: Frame, p: PageNum)
    requires Inv(mem, w) && Active(mem, w, c) && Mappable(w, p)
    requires NeedsTable(mem, c, p) && w.free != []
    ensures var t := w.free[|w.free| - 1];
            var va := TabVA(w, c) + PAGE_SIZE * (p / 1024);
            var mem1 := Put(mem, Loc(c, p / 1024), Word(t, KERNEL_RW));
            && Shows(mem1, c, va, t)
            && t != c && t != mem1[c][DirIdx(va)].frame
            && Clear(mem1, t) == TableMem(mem, w, c, p)
  {
    hide Inv, Shows, Clear, Mappable, Active;
    ActiveIsDir(mem, w, c);
    FreeTop(mem, w);
    ActiveWindow(mem, w, c, p);
    var t := w.free[|w.free| - 1];
    NewTableShows(mem, c, if c == w.kernel then 1023 else 959, p / 1024, t);
    ClearCommutes(mem, t, Loc(c, p / 1024), Word(t, KERNEL_RW));
  }

  lemma ActiveWindow(mem: Memory, w: World, c: Frame, p: PageNum)
    requires Inv(mem, w) && Active(mem, w, c) && Mappable(w, p)
    ensures mem[c][if c == w.kernel then 1023 else 959] == Word(c, KERNEL_RW)
    ensures p / 1024 != 1023 && p / 1024 != 959
  {
  }

  /** What the active space may rely on when the top of the stack is taken. */
  lemma AllocStep(mem: Memory, w: World, c: Frame)
    requires Inv(mem, w) && Active(mem, w, c) && w.free != []
    ensures Inv(mem, Popped(w)) && Active(mem, Popped(w), c)
    ensures |w.free| <= 1024 * STACK_PAGES
    ensures Walk(mem, c, StackVA(|w.free| - 1)).Some?
    ensures Load(mem, c, StackVA(|w.free| - 1)) == Word(w.free[|w.free| - 1], 0)
  {
    hide Inv, Active;
    PopInv(mem, w);
    ActiveKept(mem, w, mem, Popped(w), c);
    FreeWord(mem, w, |w.free| - 1);
    StackWord(mem, w, c, |w.free| - 1);
  }

  lemma NothingChanged(mem: Memory, w: World)
    ensures WindowsKept(mem, w, mem, w) && RestKept(mem, w, mem, w)
  {
  }

  /** What pmm_free_page may rely on when the stack has to grow: `map` does what is needed. */
  lemma GrowStep(mem: Memory, w: World, c: Frame, p: Frame)
    requires Inv(mem, w) && Active(mem, w, c) && Freeable(w, p) && Full(w)
    ensures |w.storage| + 1 < STACK_PAGES
    ensures Mappable(w, StackPage(|w.storage|)) && !NeedsTable(mem, c, StackPage(|w.storage|))
    ensures !Unshown(mem, w, c, StackPage(|w.storage|))
    ensures MapMem(mem, w, c, StackPage(|w.storage|), Word(p, KERNEL_RW)) == FreedMem(mem, w, p)
  {
    hide Inv, SelfMapped;
    StackBounds(mem, w);
    StackHasRoom(mem, w, p);
    GrowPage(mem, w, c);
    assert Shared(StackPage(|w.storage|) / 1024);
    SharedIsShown(mem, w, c, StackPage(|w.storage|));
  }

  /** ... and when there is room: the word above the top is stack storage. */
  lemma PushStep(mem: Memory, w: World, c: Frame, p: Frame)
    requires Inv(mem, w) && Active(mem, w, c) && Freeable(w, p) && !Full(w)
    ensures |w.storage| < STACK_PAGES && |w.free| < 1024 * |w.storage|
    ensures |w.free| < 1024 * STACK_PAGES
    ensures Walk(mem, c, StackVA(|w.free|)).Some?
    ensures Store(mem, c, StackVA(|w.free|), Word(p, 0)) == FreedMem(mem, w, p)
  {
    hide Inv, SelfMapped;
    StackBounds(mem, w);
    StackWord(mem, w, c, |w.free|);
  }

  lemma FreeStep(mem: Memory, w: World, c: Frame, p: Frame)
    requires Inv(mem, w) && Active(mem, w, c) && Freeable(w, p)
    ensures |w.storage| < STACK_PAGES && |w.free| <= 1024 * |w.storage|
    ensures Inv(FreedMem(mem, w, p), Freed(w, p)) && Active(FreedMem(mem, w, p), Freed(w, p), c)
    ensures WindowsKept(mem, w, FreedMem(mem, w, p), Freed(w, p))
  {
    hide Inv, Active;
    StackBounds(mem, w);
    FreeInv(mem, w, p);
    ActiveKept(mem, w, FreedMem(mem, w, p), Freed(w, p), c);
  }

  lemma AlignedSum(a: nat, b: nat)
    requires a % PAGE_SIZE == 0 && b % PAGE_SIZE == 0
    ensures (a + b) % PAGE_SIZE == 0
  {
  }

  lemma RangeFacts(mem0: Memory, w0: World, mem: Memory, w: World, c: Frame,
                   lo: PageNum, i: PageNum, flags: bv12)
    requires lo <= i && RangeDone(mem0, w0, mem, w, c, lo, i, flags)
    requires Inv(mem0, w0) && Active(mem0, w0, c) && Mappable(w0, i)
    ensures Mappable(w, i)
    ensures Needed(mem0, c, lo, i) <= |w0.free|
    ensures |w.free| == |w0.free| - Needed(mem0, c, lo, i)
    ensures Needed(mem0, c, lo, i + 1) == Needed(mem0, c, lo, i) + StepCost(mem, c, i)
  {
    hide Inv;
    CostSoFar(mem0, w0, mem, w, c, lo, i, flags);
  }

  lemma RangeAdvance(mem0: Memory, w0: World, mem: Memory, w: World, mem': Memory, w': World,
                     c: Frame, lo: PageNum, i: PageNum, flags: bv12)
    requires lo <= i && RangeDone(mem0, w0, mem, w, c, lo, i, flags)
    requires StepOk(mem, w, mem', w', c, i, flags)
    requires Inv(mem0, w0) && Active(mem0, w0, c)
    requires forall q: PageNum | lo <= q <= i :: Mappable(w0, q)
    requires WindowsKept(mem0, w0, mem, w) && WindowsKept(mem, w, mem', w')
    ensures RangeDone(mem0, w0, mem', w', c, lo, i + 1, flags)
    ensures Needed(mem0, c, lo, i + 1) <= |w0.free|
    ensures WindowsKept(mem0, w0, mem', w')
  {
    hide Inv, StepOk, Needed, RangeDone, Ordinary, Mappable;
    RangeDirs(mem0, w0, mem, w, c, lo, i, flags);
    FreeRoles(mem0, w0);
    forall q: PageNum | lo <= q <= i ensures Ordinary(q) {
      MappableIsOrdinary(w0, q);
    }
    RangeExtend(mem0, w0, mem, w, mem', w', c, lo, i, flags);
    WindowsKeptTwice(mem0, w0, mem, w, mem', w');
    RangeBudget(mem0, w0, mem', w', c, lo, i + 1, flags);
  }

  /** allocate_range makes no page visible in the reference tables that was not, unless it works on them. */
  lemma UnshownStays(mem0: Memory, w0: World, mem: Memory, w: World, c: Frame, lo: PageNum, i: PageNum, flags: bv12)
    requires lo <= i && RangeDone(mem0, w0, mem, w, c, lo, i, flags) && Inv(mem0, w0)
    ensures Unshown(mem, w, c, i) <==> Unshown(mem0, w0, c, i)
  {
    KernelRole(mem0, w0);
    hide Inv, View, Needed, PageDone;
  }

  lemma StepKeepsRest(mem: Memory, w: World, mem': Memory, w': World, c: Frame, i: PageNum, flags: bv12)
    requires Inv(mem, w) && Active(mem, w, c) && StepOk(mem, w, mem', w', c, i, flags)
    ensures RestKept(mem, w, mem', w')
  {
    ActiveIsDir(mem, w, c);
    assert OnlyAdds(mem, w, mem', w', c);
    hide Inv, Active, StepOk, OnlyAdds, RestKept;
    AddsKeepRest(mem, w, mem', w', c);
  }

  lemma RangeKeepsRest(mem0: Memory, w0: World, mem: Memory, w: World, c: Frame, lo: PageNum, i: nat, flags: bv12)
    requires Inv(mem0, w0) && Active(mem0, w0, c) && lo <= i <= FRAMES
    requires RangeDone(mem0, w0, mem, w, c, lo, i, flags)
    ensures RestKept(mem0, w0, mem, w)
  {
    ActiveIsDir(mem0, w0, c);
    assert OnlyAdds(mem0, w0, mem, w, c);
    hide Inv, Active, RangeDone, OnlyAdds, RestKept;
    AddsKeepRest(mem0, w0, mem, w, c);
  }

  lemma RangeDirs(mem0: Memory, w0: World, mem: Memory, w: World, c: Frame, lo: PageNum, i: nat, flags: bv12)
    requires lo <= i <= FRAMES && RangeDone(mem0, w0, mem, w, c, lo, i, flags) && WindowsKept(mem0, w0, mem, w)
    requires Active(mem0, w0, c)
    ensures IsDir(w0, c) && forall d: Frame | IsDir(w0, d) :: IsDir(w, d)
  {
    hide View, Needed, SelfMapped;
  }

  lemma RangeBudget(mem0: Memory, w0: World, mem: Memory, w: World, c: Frame, lo: PageNum, i: nat, flags: bv12)
    requires lo <= i <= FRAMES && RangeDone(mem0, w0, mem, w, c, lo, i, flags)
    ensures Needed(mem0, c, lo, i) <= |w0.free|
  {
  }

  lemma MountPointVacant(mem: Memory, w: World, c: Frame, m: Mount)
    requires Inv(mem, w) && Active(mem, w, c)
    requires FreeDirPage(mem, c, DIR_FIRST) < DIR_LIMIT && FreeTabSlot(mem, c, TAB_FIRST) < TAB_LIMIT
    requires m == Mount(PAGE_SIZE * FreeDirPage(mem, c, DIR_FIRST), 0x40_0000 * FreeTabSlot(mem, c, TAB_FIRST))
    ensures Vacant(mem, w, c, m)
  {
    hide Inv, SelfMapped, Active, FreeDirPage, FreeTabSlot;
    KernelTable1021(mem, w, c);
  }

  lemma FreeDirPageStep(mem: Memory, c: Frame, p: PageNum)
    requires p < DIR_LIMIT
    ensures FreeDirPage(mem, c, p) == if View(mem, c, p) == ZERO then p else FreeDirPage(mem, c, p + 1)
  {
  }

  lemma FreeTabSlotStep(mem: Memory, c: Frame, s: nat)
    requires s < TAB_LIMIT
    ensures FreeTabSlot(mem, c, s) == if mem[c][s] == ZERO then s else FreeTabSlot(mem, c, s + 1)
  {
  }

  lemma MountEntry(mem: Memory, w: World, c: Frame, m: Mount)
    requires Inv(mem, w) && Active(mem, w, c) && IsMount(m)
    ensures Mappable(w, PageOf(m.directory)) && !NeedsTable(mem, c, PageOf(m.directory))
    ensures PageOf(m.directory) / 1024 == 1021 && mem[c][1021] == mem[w.kernel][1021]
    ensures !Unshown(mem, w, c, PageOf(m.directory))
  {
    hide Inv;
    KernelTable1021(mem, w, c);
    StackBounds(mem, w);
    SharedIsShown(mem, w, c, PageOf(m.directory));
  }

  lemma MountStep(mem: Memory, w: World, c: Frame, m: Mount, d: Frame)
    requires Inv(mem, w) && Active(mem, w, c) && Vacant(mem, w, c, m)
    ensures Mappable(w, PageOf(m.directory)) && !NeedsTable(mem, c, PageOf(m.directory))
    ensures View(mem, c, PageOf(m.directory)) == ZERO && !Unshown(mem, w, c, PageOf(m.directory))
    ensures Put(MapMem(mem, w, c, PageOf(m.directory), Word(d, KERNEL_RW)),
                Loc(c, DirIdx(m.pages)), Word(d, KERNEL_RW))
         == MountMem(mem, w, c, m, Word(d, KERNEL_RW))
    ensures Inv(MountMem(mem, w, c, m, Word(d, KERNEL_RW)), w)
    ensures Active(MountMem(mem, w, c, m, Word(d, KERNEL_RW)), w, c)
    ensures Mounted(MountMem(mem, w, c, m, Word(d, KERNEL_RW)), w, c, m, d)
  {
    hide Inv, Active;
    MountEntry(mem, w, c, m);
    MountInv(mem, w, c, m, Word(d, KERNEL_RW));
    MountShows(mem, w, c, m, d);
  }

  lemma UmountStep(mem: Memory, w: World, c: Frame, m: Mount)
    requires Inv(mem, w) && Active(mem, w, c) && IsMount(m)
    ensures Mappable(w, PageOf(m.directory)) && !NeedsTable(mem, c, PageOf(m.directory))
    ensures Put(MapMem(mem, w, c, PageOf(m.directory), ZERO), Loc(c, DirIdx(m.pages)), ZERO)
         == MountMem(mem, w, c, m, ZERO)
    ensures Inv(MountMem(mem, w, c, m, ZERO), w) && Active(MountMem(mem, w, c, m, ZERO), w, c)
    ensures WindowsKept(mem, w, MountMem(mem, w, c, m, ZERO), w)
  {
    hide Inv, Active, WindowsKept;
    MountEntry(mem, w, c, m);
    MountInv(mem, w, c, m, ZERO);
  }

  lemma StillMapped(mem: Memory, w: World, c: Frame, p: PageNum, x: Word)
    requires Inv(mem, w) && Active(mem, w, c) && Mappable(w, p)
    requires NeedsTable(mem, c, p) ==> w.free != []
    ensures !NeedsTable(MapMem(mem, w, c, p, x), c, p) && Ordinary(p)
  {
    hide Inv, Active, View, MapMem, NeedsTable, Mappable;
    MappableIsOrdinary(w, p);
    ViewOfMap(mem, w, c, p, x);
    InTable(MapMem(mem, w, c, p, x), c, p);
  }

  lemma InTable(mem: Memory, c: Frame, p: PageNum)
    requires mem[c][p / 1024] != ZERO
    ensures !NeedsTable(mem, c, p)
  {
  }

  lemma FreedAllNone(mem: Memory, w: World)
    ensures FreedAll(w, []) == w && FreedAllMem(mem, w, []) == mem
  {
  }

  lemma FreedAllAppend(mem: Memory, w: World, fs: seq<Frame>, f: Frame)
    ensures FreedAll(w, fs + [f]) == Freed(FreedAll(w, fs), f)
    ensures FreedAllMem(mem, w, fs + [f]) == FreedMem(FreedAllMem(mem, w, fs), FreedAll(w, fs), f)
  {
    assert (fs + [f])[..|fs|] == fs;
  }

  /** What one turn of the inner loop reads, and that the frame found may be freed. */
  lemma LeafStep(mem: Memory, w: World, c: Frame, m: Mount, d: Frame, i: nat, fs: seq<Frame>, n: nat)
    requires Inv(mem, w) && Active(mem, w, c) && Mounted(mem, w, c, m, d) && Doomed(mem, w, d)
    requires i < KERNEL_SLOT && n < 1024 && !Skipped(mem, w.kernel, d, i) && Ascending(w, fs, 1025 * i)
    ensures var gs := fs + LeafFrames(mem, mem[d][i].frame, i, n);
            var mem', w' := FreedAllMem(mem, w, gs), FreedAll(w, gs);
      && m.pages + 4 * (1024 * i + n) < 0x1_0000_0000
      && Walk(mem', c, m.pages + 4 * (1024 * i + n)) == Some(Loc(mem[d][i].frame, n))
      && mem'[mem[d][i].frame] == mem[mem[d][i].frame]
      && w'.base == w.base
      && (var e := mem[mem[d][i].frame][n];
          e != ZERO && 1024 * i + n != SELF_PAGE ==> Freeable(w', e.frame) && e.frame >= w.base)
  {
    hide Inv, Active, Mounted, FreedAllMem, FreedAll, LeafFrames, Skipped, WindowsKept, Walk, Doomed, Freeable;
    var t := mem[d][i].frame;
    var gs := fs + LeafFrames(mem, t, i, n);
    LeavesAscend(mem, w, d, i, fs, n);
    AscendingWiden(w, gs, 1025 * i + n, 1025 * KERNEL_SLOT);
    Intact(mem, w, c, m, d, gs);
    AscendingOnce(w, gs, 1025 * KERNEL_SLOT);
    FreesKeep(mem, w, gs);
    DoomedTable(mem, w, d, i);
    assert t !in gs;
    MountedTables(FreedAllMem(mem, w, gs), FreedAll(w, gs), c, m, d, 1024 * i + n);
    var e := mem[t][n];
    if e != ZERO && 1024 * i + n != SELF_PAGE {
      DoomedLeaf(mem, w, d, i, n);
      assert e.frame !in gs;
      StillFreeable(mem, w, FreedAllMem(mem, w, gs), FreedAll(w, gs), gs, e.frame);
      FreeableIsHigh(mem, w, e.frame);
    }
  }

  /** What one turn of the outer loop reads. */
  lemma SlotStep(mem: Memory, w: World, c: Frame, m: Mount, d: Frame, i: nat)
    requires Inv(mem, w) && Active(mem, w, c) && Mounted(mem, w, c, m, d) && Doomed(mem, w, d)
    requires i < KERNEL_SLOT
    ensures var fs := SlotFrames(mem, w.kernel, d, i);
            var mem', w' := FreedAllMem(mem, w, fs), FreedAll(w, fs);
      && Ascending(w, fs, 1025 * i)
      && m.directory + 4 * i < 0x1_0000_0000
      && Walk(mem', c, m.directory + 4 * i) == Some(Loc(d, i)) && mem'[d][i] == mem[d][i]
      && Walk(mem', c, KERNEL_DIR_VIRTUAL + 4 * i) == Some(Loc(w.kernel, i))
      && mem'[w.kernel][i] == mem[w.kernel][i]
  {
    hide Inv, Active, Mounted, FreedAllMem, FreedAll, SlotFrames, WindowsKept, Walk, Doomed, Ascending;
    var fs := SlotFrames(mem, w.kernel, d, i);
    SlotsAscend(mem, w, d, i);
    AscendingWiden(w, fs, 1025 * i, 1025 * KERNEL_SLOT);
    Intact(mem, w, c, m, d, fs);
    MountedDirectory(FreedAllMem(mem, w, fs), FreedAll(w, fs), c, m, d, i);
    KernelDirectory(FreedAllMem(mem, w, fs), FreedAll(w, fs), c, i);
  }

  /** The table itself is still unchanged, and free to go, after its leaves. */
  lemma TableStep(mem: Memory, w: World, c: Frame, m: Mount, d: Frame, i: nat)
    requires Inv(mem, w) && Active(mem, w, c) && Mounted(mem, w, c, m, d) && Doomed(mem, w, d)
    requires i < KERNEL_SLOT && !Skipped(mem, w.kernel, d, i)
    ensures var gs := SlotFrames(mem, w.kernel, d, i) + TableLeaves(mem, mem[d][i].frame, i);
            var mem', w' := FreedAllMem(mem, w, gs), FreedAll(w, gs);
      && m.directory + 4 * i < 0x1_0000_0000
      && Walk(mem', c, m.directory + 4 * i) == Some(Loc(d, i)) && mem'[d][i] == mem[d][i]
      && Freeable(w', mem[d][i].frame) && mem[d][i].frame >= w.base
      && w'.base == w.base
  {
    hide Inv, Active, Mounted, FreedAllMem, FreedAll, SlotFrames, WindowsKept, Walk, Doomed, LeafFrames, Skipped,
         Freeable;
    var fs, t := SlotFrames(mem, w.kernel, d, i), mem[d][i].frame;
    var gs := fs + TableLeaves(mem, t, i);
    SlotsAscend(mem, w, d, i);
    LeavesAscend(mem, w, d, i, fs, |mem[t]|);
    AscendingWiden(w, gs, 1025 * i + |mem[t]|, 1025 * KERNEL_SLOT);
    Intact(mem, w, c, m, d, gs);
    AscendingOnce(w, gs, 1025 * KERNEL_SLOT);
    FreesKeep(mem, w, gs);
    MountedDirectory(FreedAllMem(mem, w, gs), FreedAll(w, gs), c, m, d, i);
    DoomedTable(mem, w, d, i);
    assert t !in gs;
    StillFreeable(mem, w, FreedAllMem(mem, w, gs), FreedAll(w, gs), gs, t);
    FreeableIsHigh(mem, w, t);
  }

  lemma TeardownStarts(mem: Memory, w: World, c: Frame, m: Mount, d: Frame)
    requires Inv(mem, w) && Active(mem, w, c) && Vacant(mem, w, c, m)
    requires w.role[d] == Directory && d != c && Tree(mem, w, d)
    ensures var mem1, w1 := MountMem(mem, w, c, m, Word(d, KERNEL_RW)), Retired(w, d);
      && Inv(mem1, w1) && Active(mem1, w1, c) && Mounted(mem1, w1, c, m, d) && Doomed(mem1, w1, d)
      && FreedAllMem(mem1, w1, SlotFrames(mem1, w1.kernel, d, 0)) == mem1
      && FreedAll(w1, SlotFrames(mem1, w1.kernel, d, 0)) == w1
      && Released(mem1, w.kernel, d) == Released(mem, w.kernel, d)
  {
    hide Inv, Doomed, Tree, Released, SelfMapped;
    var mem1 := MountMem(mem, w, c, m, Word(d, KERNEL_RW));
    MountInv(mem, w, c, m, Word(d, KERNEL_RW));
    MountShows(mem, w, c, m, d);
    MountKeepsTree(mem, w, c, m, d);
    Doom(mem1, w, d);
  }

  /** At the end the directory frame itself has not been given back yet. */
  lemma LastStep(mem: Memory, w: World, c: Frame, m: Mount, d: Frame)
    requires Inv(mem, w) && Active(mem, w, c) && Mounted(mem, w, c, m, d) && Doomed(mem, w, d)
    ensures Freeable(FreedAll(w, SlotFrames(mem, w.kernel, d, KERNEL_SLOT)), d) && d >= w.base
    ensures FreedAll(w, SlotFrames(mem, w.kernel, d, KERNEL_SLOT)).base == w.base
  {
    hide Inv, SlotFrames, FreedAll, FreedAllMem, WindowsKept;
    var fs := SlotFrames(mem, w.kernel, d, KERNEL_SLOT);
    SlotsAscend(mem, w, d, KERNEL_SLOT);
    AscendingOnce(w, fs, 1025 * KERNEL_SLOT);
    FreesKeep(mem, w, fs);
    assert d !in fs;
    StillFreeable(mem, w, FreedAllMem(mem, w, fs), FreedAll(w, fs), fs, d);
    FreeableIsHigh(mem, w, d);
  }

  /** A word of a directory or of a table in use, outside the mount and the PMM stack, before and after. */
  lemma WordKept(mem: Memory, w: World, c: Frame, m: Mount, d: Frame, mem2: Memory, w2: World, fs: seq<Frame>,
                 f: Frame, j: nat)
    requires Inv(mem, w) && Active(mem, w, c) && Vacant(mem, w, c, m) && j < 1024
    requires Untouched(MountMem(mem, w, c, m, Word(d, KERNEL_RW)), Retired(w, d), mem2, w2, fs)
    requires d != c && d != w.kernel && d != f && f !in fs && w.kernel !in fs
    requires w.role[f].KernelDir? || w.role[f].Directory? || w.role[f].Table? || w.role[f].KernelTable?
    requires w.role[f] == KernelTable(1021) ==> j != 1023
    requires w.role[f] == KernelTable(1022) ==> j == 1023
    ensures MountMem(mem2, w2, c, m, ZERO)[f][j] == mem[f][j]
  {
    hide Inv, SelfMapped, Active;
    KernelTable1021(mem, w, c);
    var mem1 := MountMem(mem, w, c, m, Word(d, KERNEL_RW));
    assert mem1[w.kernel][1021] == mem[w.kernel][1021];
    assert mem2[w.kernel] == mem1[w.kernel];
    assert mem2[f][j] == mem1[f][j];
  }

  lemma NotFreed(w: World, fs: seq<Frame>, bound: nat, f: Frame)
    requires Ascending(w, fs, bound) && !Freeable(w, f)
    ensures f !in fs
  {
  }

  lemma EndDirs(mem: Memory, w: World, c: Frame, m: Mount, d: Frame, mem2: Memory, w2: World, fs: seq<Frame>, e: Frame)
    requires Inv(mem, w) && Active(mem, w, c) && Vacant(mem, w, c, m)
    requires Untouched(MountMem(mem, w, c, m, Word(d, KERNEL_RW)), Retired(w, d), mem2, w2, fs)
    requires d != c && w.role[d] == Directory && Ascending(Retired(w, d), fs, 1025 * KERNEL_SLOT + 1)
    requires IsDir(w, e) && e != d
    ensures MountMem(mem2, w2, c, m, ZERO)[e] == mem[e]
  {
    KernelRole(mem, w);
    hide Inv, SelfMapped, Active, Untouched, Ascending, MountMem, Vacant;
    NotFreed(Retired(w, d), fs, 1025 * KERNEL_SLOT + 1, e);
    NotFreed(Retired(w, d), fs, 1025 * KERNEL_SLOT + 1, w.kernel);
    forall j | 0 <= j < 1024 ensures MountMem(mem2, w2, c, m, ZERO)[e][j] == mem[e][j] {
      WordKept(mem, w, c, m, d, mem2, w2, fs, e, j);
    }
  }

  lemma EndView(mem: Memory, w: World, c: Frame, m: Mount, d: Frame, mem2: Memory, w2: World, fs: seq<Frame>,
                e: Frame, q: PageNum)
    requires Inv(mem, w) && Active(mem, w, c) && Vacant(mem, w, c, m)
    requires Untouched(MountMem(mem, w, c, m, Word(d, KERNEL_RW)), Retired(w, d), mem2, w2, fs)
    requires d != c && w.role[d] == Directory && Ascending(Retired(w, d), fs, 1025 * KERNEL_SLOT + 1)
    requires IsDir(w, e) && e != d && Ordinary(q) && !StackRegion(q)
    ensures View(MountMem(mem2, w2, c, m, ZERO), e, q) == View(mem, e, q)
  {
    hide Inv, SelfMapped, Active, Untouched, Ascending, MountMem, Vacant;
    KernelRole(mem, w);
    EndDirs(mem, w, c, m, d, mem2, w2, fs, e);
    if mem[e][q / 1024] != ZERO {
      TableOf(mem, w, e, q);
      var t := mem[e][q / 1024].frame;
      NotFreed(Retired(w, d), fs, 1025 * KERNEL_SLOT + 1, t);
      NotFreed(Retired(w, d), fs, 1025 * KERNEL_SLOT + 1, w.kernel);
      WordKept(mem, w, c, m, d, mem2, w2, fs, t, q % 1024);
    }
  }

  lemma ReleasedHasDir(mem: Memory, k: Frame, d: Frame)
    ensures d in Released(mem, k, d)
  {
    hide SlotFrames;
  }

  lemma TeardownEnds(mem: Memory, w: World, c: Frame, m: Mount, d: Frame)
    requires Inv(mem, w) && Active(mem, w, c) && Vacant(mem, w, c, m)
    requires w.role[d] == Directory && d != c && Tree(mem, w, d)
    ensures var fs := Released(mem, w.kernel, d);
            var mem1, w1 := MountMem(mem, w, c, m, Word(d, KERNEL_RW)), Retired(w, d);
            var w' := FreedAll(w1, fs);
            TornDown(mem, w, MountMem(FreedAllMem(mem1, w1, fs), w', c, m, ZERO), w', d)
  {
    hide Inv, SelfMapped, Active, Doomed, Tree, FreedAll, FreedAllMem, WindowsKept, Released;
    var fs := Released(mem, w.kernel, d);
    var mem1, w1 := MountMem(mem, w, c, m, Word(d, KERNEL_RW)), Retired(w, d);
    TeardownStarts(mem, w, c, m, d);
    ReleasedOnce(mem1, w1, d);
    AscendingOnce(w1, fs, 1025 * KERNEL_SLOT + 1);
    FreesKeep(mem1, w1, fs);
    KernelTable1021(mem, w, c);
    ReleasedHasDir(mem, w.kernel, d);
    var mem2, w' := FreedAllMem(mem1, w1, fs), FreedAll(w1, fs);
    var mem' := MountMem(mem2, w', c, m, ZERO);
    forall e: Frame | IsDir(w, e) && e != d ensures mem'[e] == mem[e] {
      EndDirs(mem, w, c, m, d, mem2, w', fs, e);
    }
    forall e: Frame, q: PageNum | IsDir(w, e) && e != d && Ordinary(q) && !StackRegion(q)
      ensures View(mem', e, q) == View(mem, e, q)
    {
      EndView(mem, w, c, m, d, mem2, w', fs, e, q);
    }
  }

  lemma FreeableIsHigh(mem: Memory, w: World, f: Frame)
    requires Inv(mem, w) && Freeable(w, f)
    ensures f >= w.base
  {
  }

  lemma FirstFits(mem: Memory, c: Frame)
    ensures RoomForTwo(mem, c) ==>
      FreeDirPage(mem, c, DIR_FIRST) < DIR_LIMIT && FreeTabSlot(mem, c, TAB_FIRST) < TAB_LIMIT
  {
  }

  /** After the first mount there is room for the second exactly when there was room for two. */
  lemma SecondFits(mem: Memory, w: World, c: Frame, m: Mount, src: Frame)
    requires Inv(mem, w) && Active(mem, w, c)
    requires FreeDirPage(mem, c, DIR_FIRST) < DIR_LIMIT && FreeTabSlot(mem, c, TAB_FIRST) < TAB_LIMIT
    requires m == Mount(PAGE_SIZE * FreeDirPage(mem, c, DIR_FIRST), 0x40_0000 * FreeTabSlot(mem, c, TAB_FIRST))
    ensures IsMount(m)
    ensures var mem' := MountMem(mem, w, c, m, Word(src, KERNEL_RW));
      RoomForTwo(mem, c) <==> FreeDirPage(mem', c, DIR_FIRST) < DIR_LIMIT && FreeTabSlot(mem', c, TAB_FIRST) < TAB_LIMIT
  {
    hide Inv, Active, FreeDirPage, FreeTabSlot, RoomForTwo;
    SecondMount(mem, w, c, m, src);
  }

  /** Of the frames from `lo` to `hi` those from `base` on have been freed, and nothing else has changed hands. */
  ghost predicate FreedBetween(w0: World, w: World, base: nat, lo: nat, hi: nat) {
    && (forall f: Frame | !(lo <= f < hi && base <= f) :: w.role[f] == w0.role[f])
    && (forall f: Frame | lo <= f < hi && base <= f :: w.role[f].Free? || w.role[f].Storage?)
  }

  lemma BetweenStarts(w: World, base: nat, lo: nat)
    ensures FreedBetween(w, w, base, lo, lo)
  {
  }

  lemma BetweenIs(w0: World, w: World, base: nat, lo: nat, hi: nat)
    requires FreedBetween(w0, w, base, lo, hi)
    ensures forall f: Frame | !(lo <= f < hi && base <= f) :: w.role[f] == w0.role[f]
    ensures forall f: Frame | lo <= f < hi && base <= f :: w.role[f].Free? || w.role[f].Storage?
  {
  }

  lemma BetweenStep(w0: World, w: World, base: nat, lo: nat, j: Frame)
    requires FreedBetween(w0, w, base, lo, j) && lo <= j
    ensures w.role[j] == w0.role[j]
    ensures w0.role[j] == Unowned ==> Freeable(w, j)
    ensures FreedBetween(w0, if j < base then w else Freed(w, j), base, lo, j + 1)
  {
  }

  lemma CollectFirst(base: nat, first: nat, fs: seq<Frame>)
    requires first <= FRAMES
    ensures fs + RegionFrames(base, first, 0) == fs
  {
  }

  lemma CollectNext(base: nat, first: nat, n: nat, fs: seq<Frame>)
    requires first + n < FRAMES
    ensures fs + RegionFrames(base, first, n + 1)
         == var gs := fs + RegionFrames(base, first, n); if first + n < base then gs else gs + [first + n]
  {
  }

  class Machine {
    var mem: Memory
    var pagingActive: bool
    var location: nat          // pmm_location, in pages
    var stackLoc: nat
    var stackMax: nat
    var current: PageDirectory
    var kernel: PageDirectory
    ghost var world: World

    ghost predicate Valid()
      reads this
    {
      && pagingActive
      && Inv(mem, world)
      && location == world.base
      && stackLoc == PMM_STACK_START + 4 * |world.free|
      && stackMax == PMM_STACK_START + PAGE_SIZE * |world.storage|
      && kernel == Record(world, world.kernel)
      && current == Record(world, current.physical)
      && Active(mem, world, current.physical)
    }

    constructor (memory: Memory, pmmStart: Addr)
      requires pmmStart + PAGE_SIZE < 0x1_0000_0000
      ensures mem == memory && !pagingActive && location == pmmStart / PAGE_SIZE + 1
      ensures stackLoc == stackMax == PMM_STACK_START
    {
      mem := memory;
      pagingActive := false;
      location := (pmmStart + PAGE_SIZE) / PAGE_SIZE;
      stackLoc, stackMax := PMM_STACK_START, PMM_STACK_START;
      current, kernel := PageDirectory(0, 0, 0), PageDirectory(0, 0, 0);
      world := World(seq(FRAMES, _ => Unowned), 0, 0, [], []);
    }

    // ------------------------------------------------------------ pmm.c

    /** Before paging the next frame is taken from a moving limit, afterwards from the stack. */
    method PmmAllocPage() returns (r: Result<Frame>)
      requires if pagingActive then Valid() else location < FRAMES
      modifies `location, `stackLoc, `world
      ensures pagingActive == old(pagingActive)
      ensures !pagingActive ==>
        r == Ok(old(location)) && location == old(location) + 1
        && world == old(world) && stackLoc == old(stackLoc)
      ensures pagingActive ==> location == old(location) && (r.Panic? <==> old(world.free) == [])
      ensures pagingActive && r.Ok? ==>
        Valid() && world == Popped(old(world)) && r.value == old(world.free[|world.free| - 1])
        && RestKept(mem, old(world), mem, world)
    {
      hide Inv, SelfMapped, Active, RestKept;
      if !pagingActive {
        var addr := location;
        location := location + 1;
        return Ok(addr);
      }
      if PMM_STACK_START >= stackLoc {
        return Panic;
      }
      stackLoc := stackLoc - 4;
      AllocStep(mem, world, current.physical);
      var top := Load(mem, current.physical, stackLoc);
      PopKeepsRest(mem, world);
      world := Popped(world);
      return Ok(top.frame);
    }

    /** Frames below the initial location are ignored; any other frame joins the stack. */
    method PmmFreePage(p: Frame)
      requires Valid() && (p < location || Freeable(world, p))
      modifies `mem, `location, `stackLoc, `stackMax, `world
      ensures Valid() && location == old(location)
      ensures p < location ==> mem == old(mem) && world == old(world)
      ensures p >= location ==> world == Freed(old(world), p) && mem == FreedMem(old(mem), old(world), p)
      ensures WindowsKept(old(mem), old(world), mem, world) && RestKept(old(mem), old(world), mem, world)
    {
      hide Inv, SelfMapped, Active, Freeable, Mappable, MapMem, WindowsKept, Unshown, RestKept;
      NothingChanged(mem, world);
      if p < location {
        return;
      }
      ghost var mem0, w0 := mem, world;
      FreeKeepsRest(mem, world, p);
      FreeStep(mem, world, current.physical, p);
      if stackMax <= stackLoc {
        GrowStep(mem, world, current.physical, p);
        assert PMM_STACK_END > stackMax;
        var r := Map(stackMax, p, KERNEL_RW);
        stackMax := stackMax + PAGE_SIZE;
      } else {
        PushStep(mem, world, current.physical, p);
        mem := Store(mem, current.physical, stackLoc, Word(p, 0));
        stackLoc := stackLoc + 4;
      }
      world := Freed(w0, p);
    }

    // ------------------------------------------------------------ vmm.c

    /** The loop of init_vmm that gives each kernel slot a table; a slot that has one is left alone. */
    method MakeKernelTables(dirPtr: Frame)
      requires !pagingActive && dirPtr < location
      requires (location + 52 <= FRAMES && forall s | 960 <= s < 1012 :: mem[dirPtr][s] == ZERO)
            || (forall s | 960 <= s < 1012 :: mem[dirPtr][s] != ZERO)
      modifies `mem, `location, `stackLoc, `world
      ensures !pagingActive && stackLoc == old(stackLoc)
      ensures old(mem)[dirPtr][960] != ZERO ==> mem == old(mem) && location == old(location)
      ensures old(mem)[dirPtr][960] == ZERO ==>
        location == old(location) + 52 && TablesMade(old(mem), mem, dirPtr, old(location), 1012)
    {
      ghost var mem0, first := mem, location;
      var i := DirIdx(KERNEL_ADDRESS_SPACE);
      while i < DirIdx(MOUNT_TABS_START)
        invariant 960 <= i <= 1012 && stackLoc == old(stackLoc)
        invariant mem0[dirPtr][960] != ZERO ==> mem == mem0 && location == first
        invariant mem0[dirPtr][960] == ZERO ==>
          location == first + (i - 960) && TablesMade(mem0, mem, dirPtr, first, i)
      {
        if mem[dirPtr][i] == ZERO {
          var tabPtr := PmmAllocPage();
          mem := Clear(mem, tabPtr.value);
          mem := Put(mem, Loc(dirPtr, i), Word(tabPtr.value, PRESENT | WRITE));
        }
        i := i + 1;
      }
    }

    /** The identity mapping of the first 4 MB. */
    method MapLowMemory(tabPtr: Frame)
      modifies `mem
      ensures forall f: Frame | f != tabPtr :: mem[f] == old(mem)[f]
      ensures forall i | 0 <= i < 1024 :: mem[tabPtr][i] == Word(i, KERNEL_RW)
    {
      var i := 0;
      while i < 1024
        invariant 0 <= i <= 1024
        invariant forall f: Frame | f != tabPtr :: mem[f] == old(mem)[f]
        invariant forall j | 0 <= j < i :: mem[tabPtr][j] == Word(j, KERNEL_RW)
      {
        mem := Put(mem, Loc(tabPtr, i), Word(i, PRESENT | WRITE));
        i := i + 1;
      }
    }

    /** The end of init_vmm: paging is on, the last table is made through the new windows. */
    method MakeStackTable(ghost b: nat)
      requires !pagingActive && b + BOOT_FRAMES <= FRAMES && location == b + 55 && HalfBooted(mem, b)
      requires current == kernel == PageDirectory(b, KERNEL_DIR_VIRTUAL, KERNEL_TABLES_VIRTUAL)
      requires stackLoc == stackMax == PMM_STACK_START
      modifies `mem, `location, `stackLoc, `world, `pagingActive
      ensures Valid() && world == BootWorld(b) && Booted(mem, b)
      ensures forall f: Frame | f != b && f != b + 55 :: mem[f] == old(mem)[f]
    {
      hide Inv, Active, BootWorld, HalfBooted, Booted, Walk;
      var slot := DirIdx(PMM_STACK_START);
      ghost var mem0 := mem;
      var t := PmmAllocPage();
      HalfBootedShows(mem, b);
      StackTableMade(mem, b);
      mem := Store(mem, kernel.physical, EntryVA(kernel.directory, slot), Word(t.value, PRESENT | WRITE));
      NewTableShows(mem0, b, 1023, slot, t.value);
      ZeroPageAt(kernel.pages + PAGE_SIZE * slot, t.value);
      pagingActive := true;
      world := BootWorld(b);
      BootInv(mem, b);
    }

    /** The directory, the identity mapping and the windows on the directory and its tables. */
    method MakeSkeleton() returns (dirPtr: Frame)
      requires !pagingActive && location + BOOT_FRAMES <= FRAMES
      modifies `mem, `location, `stackLoc, `world
      ensures !pagingActive && stackLoc == old(stackLoc)
      ensures dirPtr == old(location) && location == old(location) + 3
      ensures Skeleton(mem, dirPtr)
      ensures forall f: Frame | f < dirPtr || f >= location :: mem[f] == old(mem)[f]
    {
      hide Inv, Active, SelfMapped, WindowsKept, Popped, Skeleton;
      var d := PmmAllocPage();
      dirPtr := d.value;
      mem := Clear(mem, dirPtr);
      var t := PmmAllocPage();
      mem := Clear(mem, t.value);
      mem := Put(mem, Loc(dirPtr, 0), Word(t.value, PRESENT | WRITE));
      MapLowMemory(t.value);
      SkeletonMade(mem, dirPtr);
      var idxDir, idxTab := DirIdx(KERNEL_DIR_VIRTUAL), TabIdx(KERNEL_DIR_VIRTUAL);
      t := PmmAllocPage();
      mem := Clear(mem, t.value);
      mem := Put(mem, Loc(dirPtr, idxDir), Word(t.value, PRESENT | WRITE));
      mem := Put(mem, Loc(t.value, idxTab), Word(dirPtr, PRESENT | WRITE));
      mem := Put(mem, Loc(dirPtr, DirIdx(KERNEL_TABLES_VIRTUAL)), Word(dirPtr, PRESENT | WRITE));
    }

    /**
      From arbitrary memory: builds the reference directory with physical writes, turns
      paging on, and adds the table of the PMM stack through the new windows.
    */
    method InitVmm()
      requires !pagingActive && location + BOOT_FRAMES <= FRAMES
      requires stackLoc == stackMax == PMM_STACK_START
      modifies this
      ensures Valid() && current == kernel && kernel.physical == old(location)
      ensures world == BootWorld(old(location)) && Booted(mem, old(location)) && AtRest(mem, world)
      ensures forall f: Frame | f < old(location) || f >= location :: mem[f] == old(mem)[f]
    {
      hide Inv, Active, BootWorld, HalfBooted, Booted, BootEntry, AtRest;
      ghost var b := location;
      var dirPtr := MakeSkeleton();
      kernel := PageDirectory(dirPtr, KERNEL_DIR_VIRTUAL, KERNEL_TABLES_VIRTUAL);
      SkeletonEmpty(mem, b);
      ghost var mem1 := mem;
      MakeKernelTables(dirPtr);
      SkeletonFilled(mem1, mem, b);
      MakeKernelTables(dirPtr);
      current := kernel;
      MakeStackTable(b);
      BootInv(mem, b);
      BootRest(mem, b);
    }

    /** The machine after the frames `fs` have been given back, in that order, from `mem1` and `w1`. */
    ghost predicate AfterFrees(mem1: Memory, w1: World, fs: seq<Frame>)
      reads this
    {
      Valid() && mem == FreedAllMem(mem1, w1, fs) && world == FreedAll(w1, fs)
    }

    /** The frames of one region that lie at or above the initial location join the stack. */
    method CollectRegion(r: Region, ghost mem0: Memory, ghost w0: World, ghost fs: seq<Frame>)
      requires AfterFrees(mem0, w0, fs) && r.first + r.count <= FRAMES
      requires forall f: Frame | r.first <= f < r.first + r.count && f >= location :: world.role[f] == Unowned
      modifies `mem, `location, `stackLoc, `stackMax, `world
      ensures location == old(location)
      ensures AfterFrees(mem0, w0, fs + RegionFrames(location, r.first, r.count))
      ensures WindowsKept(old(mem), old(world), mem, world)
      ensures forall f: Frame | !(r.first <= f < r.first + r.count && f >= location) ::
        world.role[f] == old(world).role[f]
      ensures forall f: Frame | r.first <= f < r.first + r.count && f >= location ::
        world.role[f].Free? || world.role[f].Storage?
    {
      hide Inv, Active, SelfMapped, WindowsKept, FreedAll, FreedAllMem, FreedMem, Freed, Valid, RegionFrames,
           FreedBetween, Freeable, RestKept;
      ghost var mem1, w1 := mem, world;
      NothingChanged(mem, world);
      BetweenStarts(world, location, r.first);
      CollectFirst(location, r.first, fs);
      var j := r.first;
      while j < r.first + r.count
        invariant r.first <= j <= r.first + r.count && location == old(location)
        invariant AfterFrees(mem0, w0, fs + RegionFrames(location, r.first, j - r.first))
        invariant FreedBetween(w1, world, location, r.first, j)
        invariant WindowsKept(mem1, w1, mem, world)
      {
        ghost var mem2, w2, gs := mem, world, fs + RegionFrames(location, r.first, j - r.first);
        CollectNext(location, r.first, j - r.first, fs);
        BetweenStep(w1, w2, location, r.first, j);
        PmmFreePage(j);
        WindowsKeptTwice(mem1, w1, mem2, w2, mem, world);
        FreedAllAppend(mem0, w0, gs, j);
        j := j + 1;
      }
      BetweenIs(w1, world, location, r.first, j);
    }

    /** Walks the boot memory map; its record layout is abstracted to a list of regions. */
    method PmmCollectPages(rs: seq<Region>)
      requires Valid() && RegionsOk(rs)
      requires forall a, f: Frame | 0 <= a < |rs| && rs[a].usable
                                    && rs[a].first <= f < rs[a].first + rs[a].count && f >= location ::
        world.role[f] == Unowned
      modifies `mem, `location, `stackLoc, `stackMax, `world
      ensures location == old(location)
      ensures Collected(location, rs, old(world), world)
      ensures AfterFrees(old(mem), old(world), UsableFrames(location, rs))
      ensures Untouched(old(mem), old(world), mem, world, UsableFrames(location, rs))
      ensures WindowsKept(old(mem), old(world), mem, world) && RestKept(old(mem), old(world), mem, world)
      ensures |world.storage| + |world.free|
           == |old(world).storage| + |old(world).free| + |UsableFrames(location, rs)|
      ensures old(world).storage == [] && old(world).free == [] ==>
        |world.storage| == (|UsableFrames(location, rs)| + 1024) / 1025
    {
      hide Inv, Active, SelfMapped, WindowsKept, FreedAll, FreedAllMem, RegionFrames, RestKept, EachOnce, Untouched,
           Collected;
      ghost var mem0, w0 := mem, world;
      FreedAllNone(mem0, w0);
      CollectOnce(w0, location, rs);
      var a := 0;
      while a < |rs|
        invariant 0 <= a <= |rs| && location == old(location)
        invariant AfterFrees(mem0, w0, UsableFrames(location, rs[..a]))
        invariant forall f: Frame | Ahead(rs, a, f) && f >= location :: world.role[f] == Unowned
      {
        ghost var fs := UsableFrames(location, rs[..a]);
        assert rs[..a + 1][..a] == rs[..a] && rs[..a + 1][a] == rs[a];
        assert fs + [] == fs;
        if rs[a].usable {
          forall f: Frame | rs[a].first <= f < rs[a].first + rs[a].count && f >= location
            ensures world.role[f] == Unowned
          {
            assert InRegion(rs[a], f) && Ahead(rs, a, f);
          }
          CollectRegion(rs[a], mem0, w0, fs);
        }
        forall f: Frame | Ahead(rs, a + 1, f) && f >= location ensures world.role[f] == Unowned {
          assert Ahead(rs, a, f);
        }
        a := a + 1;
      }
      assert rs[..a] == rs;
      FreesKeep(mem0, w0, UsableFrames(location, rs));
      FreesKeepRest(mem0, w0, mem, world, UsableFrames(location, rs));
      CollectedAll(mem0, w0, mem, world, location, rs);
      if w0.storage == [] && w0.free == [] {
        FreeCount(w0, UsableFrames(location, rs));
      }
    }

    /** memset of one page through the active space, word by word. */
    method ZeroPageAt(va: Addr, ghost f: Frame)
      requires va % PAGE_SIZE == 0 && Shows(mem, current.physical, va, f)
      requires f != current.physical && f != mem[current.physical][DirIdx(va)].frame
      modifies `mem
      ensures mem == Clear(old(mem), f)
    {
      var i := 0;
      ghost var mem0 := mem;
      while i < 1024
        invariant 0 <= i <= 1024
        invariant forall g: Frame :: g != f ==> mem[g] == mem0[g]
        invariant forall j | 0 <= j < i :: mem[f][j] == ZERO
      {
        ShowsStable(mem0, mem, current.physical, va, f);
        ShowsAt(mem, current.physical, va, f, i);
        mem := Store(mem, current.physical, va + 4 * i, ZERO);
        i := i + 1;
      }
      assert mem[f] == ZeroPage();
    }

    /** The first half of `map`: the table for the page exists afterwards. */
    method EnsureTable(page: PageNum) returns (r: Result<()>)
      requires Valid() && Mappable(world, page)
      modifies `mem, `location, `stackLoc, `world
      ensures location == old(location)
      ensures r.Panic? <==> NeedsTable(old(mem), current.physical, page) && old(world.free) == []
      ensures r.Ok? ==>
        Valid()
        && world == MapWorld(old(mem), old(world), current.physical, page)
        && mem == TableMem(old(mem), old(world), current.physical, page)
    {
      hide Inv, SelfMapped, Mappable, WindowsKept, Active, Shows, Clear;
      var dirEntry := page / 1024;
      ghost var mem0, w0 := mem, world;
      OwnDirectory(mem, world, current.physical, dirEntry);
      if Load(mem, current.physical, EntryVA(current.directory, dirEntry)) == ZERO {
        var t := PmmAllocPage();
        if t.Panic? {
          return Panic;
        }
        mem := Store(mem, current.physical, EntryVA(current.directory, dirEntry), Word(t.value, PRESENT | WRITE));
        HalfMade(mem0, w0, current.physical, page);
        ZeroPageAt(current.pages + PAGE_SIZE * dirEntry, t.value);
        TableInv(mem0, w0, current.physical, page);
        world := MapWorld(mem0, w0, current.physical, page);
      }
      return Ok(());
    }

    /**
      The comparison at the end of `map`, for which it prints a warning: does the entry of
      the page differ from that in the reference tables?  Reading those faults where the
      reference directory has no table, and page_fault panics.
    */
    method KernelOutdated(page: PageNum) returns (r: Result<bool>)
      requires Valid() && Ordinary(page) && !NeedsTable(mem, current.physical, page)
      ensures r.Panic? <==> mem[world.kernel][page / 1024] == ZERO
      ensures r.Ok? ==> (r.value <==> View(mem, current.physical, page) != View(mem, world.kernel, page))
      ensures Shared(page / 1024) ==> r == Ok(false)
    {
      hide Inv, SelfMapped, Active, Walk;
      NoKernelTable(mem, world, current.physical, page);
      ActiveIsDir(mem, world, current.physical);
      if Shared(page / 1024) {
        KernelHalfAgrees(mem, world, current.physical, page);
      }
      if Walk(mem, current.physical, EntryVA(kernel.pages, page)).None? {
        return Panic;
      }
      OwnTables(mem, world, current.physical, page);
      KernelTables(mem, world, current.physical, page);
      return Ok(Load(mem, current.physical, EntryVA(current.pages, page))
                != Load(mem, current.physical, EntryVA(kernel.pages, page)));
    }

    method Map(va: Addr, pa: Frame, flags: bv12) returns (r: Result<()>)
      requires Valid() && Mappable(world, PageOf(va))
      modifies `mem, `location, `stackLoc, `world
      ensures location == old(location)
      ensures r.Panic? <==>
        (NeedsTable(old(mem), current.physical, PageOf(va)) && old(world.free) == [])
        || Unshown(old(mem), old(world), current.physical, PageOf(va))
      ensures r.Ok? ==>
        Valid()
        && world == MapWorld(old(mem), old(world), current.physical, PageOf(va))
        && mem == MapMem(old(mem), old(world), current.physical, PageOf(va), Word(pa, PRESENT | flags))
        && WindowsKept(old(mem), old(world), mem, world) && RestKept(old(mem), old(world), mem, world)
      ensures r.Ok? ==>
        && View(mem, current.physical, PageOf(va)) == Word(pa, PRESENT | flags)
        && mem[current.physical] ==
             if old(mem)[current.physical][DirIdx(va)] != ZERO then old(mem)[current.physical]
             else old(mem)[current.physical][DirIdx(va) := Word(old(world.free[|world.free| - 1]), PRESENT | WRITE)]
    {
      hide Inv, SelfMapped, Mappable, WindowsKept, Active, TableMem, MapWorld, RestKept;
      var page := PageOf(va);
      ghost var mem0, w0, c, x := mem, world, current.physical, Word(pa, PRESENT | flags);
      r := EnsureTable(page);
      if r.Panic? {
        return;
      }
      TableInv(mem0, w0, c, page);
      OwnTables(mem, world, c, page);
      mem := Store(mem, current.physical, EntryVA(current.pages, page), Word(pa, PRESENT | flags));
      MapInv(mem0, w0, c, page, x);
      MapKeepsRest(mem0, w0, c, page, x);
      MapKernel(mem0, w0, c, page, x);
      MapEntry(mem0, w0, c, page, x);
      StillMapped(mem0, w0, c, page, x);
      if KERNEL_ADDRESS_SPACE <= va {
        var outdated := KernelOutdated(page);
        if outdated.Panic? {
          return Panic;
        }
      }
    }

    method Unmap(va: Addr)
      requires Valid() && Mappable(world, PageOf(va))
      requires !NeedsTable(mem, current.physical, PageOf(va))
      modifies `mem
      ensures Valid()
      ensures mem == MapMem(old(mem), world, current.physical, PageOf(va), ZERO)
      ensures View(mem, current.physical, PageOf(va)) == ZERO && mem[current.physical] == old(mem)[current.physical]
      ensures WindowsKept(old(mem), world, mem, world) && RestKept(old(mem), world, mem, world)
    {
      hide Inv, SelfMapped, Mappable, WindowsKept, Active, RestKept;
      var page := PageOf(va);
      OwnTables(mem, world, current.physical, page);
      MapKeepsRest(mem, world, current.physical, page, ZERO);
      MapEntry(mem, world, current.physical, page, ZERO);
      WriteInv(mem, world, current.physical, page, ZERO);
      mem := Store(mem, current.physical, EntryVA(current.pages, page), ZERO);
    }

    /** The address found carries the offset of `va`; it is not just the frame. */
    method GetMapping(va: Addr) returns (found: bool, pa: Addr)
      requires Valid()
      ensures found <==> View(mem, current.physical, PageOf(va)) != ZERO
      ensures found ==> PageOf(pa) == View(mem, current.physical, PageOf(va)).frame
      ensures found ==> pa % PAGE_SIZE == va % PAGE_SIZE
    {
      hide Inv, SelfMapped, Active;
      var dirEntry, page := DirIdx(va), PageOf(va);
      assert dirEntry == page / 1024;
      pa := 0;
      OwnDirectory(mem, world, current.physical, dirEntry);
      if Load(mem, current.physical, EntryVA(current.directory, dirEntry)) == ZERO {
        return false, pa;
      }
      OwnTables(mem, world, current.physical, page);
      var entry := Load(mem, current.physical, EntryVA(current.pages, page));
      if entry != ZERO {
        pa := entry.frame * PAGE_SIZE + va % PAGE_SIZE;
        return true, pa;
      }
      return false, pa;
    }

    method SwitchPageDirectory(dir: PageDirectory)
      requires Valid() && dir == Record(world, dir.physical) && Active(mem, world, dir.physical)
      modifies `current
      ensures Valid() && current == dir
    {
      current := dir;
    }

    /** The inner loop of find_free_range: the first mapped page of the range, or its end. */
    method FirstMapped(start: Addr, n: nat) returns (a: nat)
      requires Valid() && start % PAGE_SIZE == 0 && n % PAGE_SIZE == 0 && start + n <= 0x1_0000_0000
      ensures a % PAGE_SIZE == 0 && start <= a <= start + n
      ensures a == start + n ==> RangeFree(mem, current.physical, start, n)
      ensures a < start + n ==> View(mem, current.physical, PageOf(a)) != ZERO
    {
      hide Inv, SelfMapped, Active, View;
      a := start;
      while a < start + n
        invariant a % PAGE_SIZE == 0 && start <= a <= start + n
        invariant forall p: PageNum | start <= p * PAGE_SIZE < a :: View(mem, current.physical, p) == ZERO
      {
        var found, _ := GetMapping(a);
        if found {
          return;
        }
        a := a + PAGE_SIZE;
      }
    }

    /** Skips ahead past the first mapped page it meets; the result is that of the plain search. */
    method FindFreeRange(vaStart: Addr, vaEnd: Addr, size: Addr, sizeAligned: bool) returns (va: nat)
      requires Valid()
      requires vaEnd + PAGE_SIZE <= 0x1_0000_0000 && size + PAGE_SIZE <= 0x1_0000_0000
      requires RoundUp(vaEnd) + RoundUp(size) <= 0x1_0000_0000
      ensures va == Scan(mem, current.physical, RoundDown(vaStart), RoundUp(vaEnd), RoundUp(size),
                         if sizeAligned then RoundUp(size) else PAGE_SIZE)
    {
      hide Inv, SelfMapped, Active, View, Valid, RangeFree;
      var start: nat, end: nat, n: nat := RoundDown(vaStart), RoundUp(vaEnd), RoundUp(size);
      var step: nat := if sizeAligned then n else PAGE_SIZE;
      assert step % PAGE_SIZE == 0 && end + n <= 0x1_0000_0000;
      ghost var answer := Scan(mem, current.physical, start, end, n, step);
      while start < end
        invariant start % PAGE_SIZE == 0
        invariant Scan(mem, current.physical, start, end, n, step) == answer
        decreases if n == 0 then 0 else end - start
      {
        var a := FirstMapped(start, n);
        if a == start + n {
          return start;
        }
        ghost var first: nat := start;
        while start <= a
          invariant first <= start <= a + step && start % PAGE_SIZE == 0 && a < start + n
          invariant start == first || first < start
          invariant Scan(mem, current.physical, start, end, n, step) == answer
          decreases a - start
        {
          if start < end {
            ScanSkip(mem, current.physical, start, a, end, n, step);
          }
          AlignedSum(start, step);
          start := start + step;
        }
      }
      return end;
    }

    /** One turn of allocate_range: refresh the flags of a page, or give it a new frame. */
    method MapOrAllocate(va: Addr, flags: bv12) returns (r: Result<()>)
      requires Valid() && va % PAGE_SIZE == 0 && Mappable(world, PageOf(va))
      modifies `mem, `location, `stackLoc, `world
      ensures location == old(location)
      ensures r.Ok? <==>
        StepCost(old(mem), current.physical, PageOf(va)) <= |old(world.free)|
        && !Unshown(old(mem), old(world), current.physical, PageOf(va))
      ensures r.Ok? ==>
        Valid() && WindowsKept(old(mem), old(world), mem, world) && RestKept(old(mem), old(world), mem, world)
        && StepOk(old(mem), old(world), mem, world, current.physical, PageOf(va), flags)
    {
      hide Inv, SelfMapped, Active, View, MapMem, WindowsKept, StepOk, Mappable, RestKept;
      ghost var mem0, w0, page := mem, world, PageOf(va);
      var found, pa := GetMapping(va);
      if found {
        StepMapped(mem, world, current.physical, page, flags);
        r := Map(va, PageOf(pa), flags);
      } else {
        var t := PmmAllocPage();
        if t.Panic? {
          return Panic;
        }
        MappablePopped(w0, page);
        r := Map(va, t.value, flags);
        if r.Panic? {
          return;
        }
        StepFresh(mem0, w0, current.physical, page, flags);
        FreshInv(mem0, w0, current.physical, page, flags);
        world := FreshWorld(mem0, w0, current.physical, page);
        StepKeepsRest(mem0, w0, mem, world, current.physical, page, flags);
      }
    }

    method AllocateRange(vaStart: Addr, vaEnd: Addr, flags: bv12) returns (r: Result<Addr>)
      requires Valid() && vaEnd + PAGE_SIZE <= 0x1_0000_0000 && vaStart <= vaEnd
      requires forall p: PageNum | PageOf(vaStart) <= p < PageOf(RoundUp(vaEnd)) :: Mappable(world, p)
      modifies `mem, `location, `stackLoc, `world
      ensures location == old(location)
      ensures r.Ok? <==>
        Needed(old(mem), current.physical, PageOf(vaStart), PageOf(RoundUp(vaEnd))) <= |old(world.free)|
        && forall p: PageNum | PageOf(vaStart) <= p < PageOf(RoundUp(vaEnd)) ::
             !Unshown(old(mem), old(world), current.physical, p)
      ensures r.Ok? ==>
        r.value == RoundUp(vaEnd)
        && Valid() && WindowsKept(old(mem), old(world), mem, world) && RestKept(old(mem), old(world), mem, world)
        && RangeDone(old(mem), old(world), mem, world, current.physical,
                     PageOf(vaStart), PageOf(RoundUp(vaEnd)), flags)
    {
      hide Inv, SelfMapped, Active, View, WindowsKept, StepOk, Mappable, RangeDone, Needed, Unshown, RestKept;
      var va: nat := RoundDown(vaStart);
      var end := RoundUp(vaEnd);
      ghost var mem0, w0, c, lo := mem, world, current.physical, PageOf(vaStart);
      assert PageOf(va) == lo;
      RangeStart(mem, world, c, lo, flags);
      NothingChanged(mem, world);
      while va < end
        invariant va <= end && va % PAGE_SIZE == 0 && lo <= PageOf(va)
        invariant Valid() && location == old(location) && WindowsKept(mem0, w0, mem, world)
        invariant RangeDone(mem0, w0, mem, world, c, lo, PageOf(va), flags)
        invariant Needed(mem0, c, lo, PageOf(va)) <= |w0.free|
        invariant forall p: PageNum | lo <= p < PageOf(va) :: !Unshown(mem0, w0, c, p)
      {
        ghost var mem1, w1, i := mem, world, PageOf(va);
        UnshownStays(mem0, w0, mem, world, c, lo, i, flags);
        RangeFacts(mem0, w0, mem, world, c, lo, i, flags);
        NeededMonotone(mem0, c, lo, i + 1, PageOf(end));
        var s := MapOrAllocate(va, flags);
        if s.Panic? {
          return Panic;
        }
        RangeAdvance(mem0, w0, mem1, w1, mem, world, c, lo, i, flags);
        va := va + PAGE_SIZE;
      }
      RangeKeepsRest(mem0, w0, mem, world, c, lo, PageOf(end), flags);
      return Ok(end);
    }

    /** A new thread stack never overlaps an existing mapping; `StackPlaceElse` says what the requires keeps out. */
    method AllocateStack(size: Addr) returns (r: Result<Addr>)
      requires Valid() && 0 < size <= STACKS_SIZE && StackSearchSafe(mem, current.physical, size)
      modifies `mem, `location, `stackLoc, `world
      ensures location == old(location)
      ensures var va := StackPlace(old(mem), current.physical, size);
        && (r.Ok? <==>
              (exists k: nat :: CandidateFits(old(mem), current.physical, RoundUp(size), k))
              && Needed(old(mem), current.physical, PageOf(va), PageOf(va + RoundUp(size))) <= |old(world.free)|)
        && (r.Ok? ==>
              && r.value == va + size && Valid()
              && WindowsKept(old(mem), old(world), mem, world) && RestKept(old(mem), old(world), mem, world)
              && RangeFree(old(mem), current.physical, va, RoundUp(size))
              && RangeDone(old(mem), old(world), mem, world, current.physical,
                           PageOf(va), PageOf(va + RoundUp(size)), USER | WRITE))
    {
      hide Inv, SelfMapped, Active, View, WindowsKept, RangeDone, Needed, RangeFree, Mappable, Scan,
           CandidateFits, CandidateFree, RestKept;
      var va := FindFreeRange(USER_STACKS_START, USER_STACKS_END, size, true);
      assert RoundUp(USER_STACKS_END) == USER_STACKS_END && RoundDown(USER_STACKS_START) == USER_STACKS_START;
      assert va == StackPlace(mem, current.physical, size);
      StackPlaceFits(mem, current.physical, size);
      StackPlaceNone(mem, current.physical, size);
      if va == USER_STACKS_END {
        return Panic;
      }
      StackBounds(mem, world);
      StackPlaceOk(mem, world, current.physical, size);
      var s := AllocateRange(va, va + size, USER | WRITE);
      return if s.Panic? then Panic else Ok(va + size);
    }

    /** First loop of find_mount_point; 0 stands for "none found", as in the source. */
    method FindDirectoryPage() returns (directory: nat)
      requires Valid()
      ensures var p := FreeDirPage(mem, current.physical, DIR_FIRST);
              directory == if p < DIR_LIMIT then PAGE_SIZE * p else 0
    {
      hide Inv, SelfMapped, Active, View, FreeDirPage;
      directory := 0;
      ghost var answer := FreeDirPage(mem, current.physical, DIR_FIRST);
      var va: nat := MOUNT_DIR_START;
      while va < MOUNT_DIR_END && directory == 0
        invariant va % PAGE_SIZE == 0 && MOUNT_DIR_START <= va <= MOUNT_DIR_END
        invariant directory == 0 ==> answer == FreeDirPage(mem, current.physical, PageOf(va))
        invariant directory != 0 ==> directory == PAGE_SIZE * answer && answer < DIR_LIMIT
        decreases MOUNT_DIR_END - va
      {
        var found, _ := GetMapping(va);
        FreeDirPageStep(mem, current.physical, PageOf(va));
        if !found {
          directory := va;
        }
        va := va + PAGE_SIZE;
      }
    }

    /** Second loop of find_mount_point. */
    method FindTableSlot() returns (pages: nat)
      requires Valid()
      ensures var s := FreeTabSlot(mem, current.physical, TAB_FIRST);
              pages == if s < TAB_LIMIT then 0x40_0000 * s else 0
    {
      hide Inv, SelfMapped, Active, FreeTabSlot;
      pages := 0;
      ghost var answer := FreeTabSlot(mem, current.physical, TAB_FIRST);
      var va: nat := MOUNT_TABS_START;
      while va < MOUNT_TABS_END && pages == 0
        invariant va % 0x40_0000 == 0 && MOUNT_TABS_START <= va <= MOUNT_TABS_END
        invariant pages == 0 ==> answer == FreeTabSlot(mem, current.physical, DirIdx(va))
        invariant pages != 0 ==> pages == 0x40_0000 * answer && answer < TAB_LIMIT
        decreases MOUNT_TABS_END - va
      {
        OwnDirectory(mem, world, current.physical, DirIdx(va));
        FreeTabSlotStep(mem, current.physical, DirIdx(va));
        if Load(mem, current.physical, EntryVA(current.directory, DirIdx(va))) == ZERO {
          pages := va;
        }
        va := va + 1024 * PAGE_SIZE;
      }
    }

    method FindMountPoint() returns (r: Result<Mount>)
      requires Valid()
      ensures r.Ok? <==> FreeDirPage(mem, current.physical, DIR_FIRST) < DIR_LIMIT
                         && FreeTabSlot(mem, current.physical, TAB_FIRST) < TAB_LIMIT
      ensures r.Ok? ==>
        r.value == Mount(PAGE_SIZE * FreeDirPage(mem, current.physical, DIR_FIRST),
                         0x40_0000 * FreeTabSlot(mem, current.physical, TAB_FIRST))
        && Vacant(mem, world, current.physical, r.value)
    {
      hide Inv, SelfMapped, Active, FreeTabSlot, FreeDirPage, View;
      var directory := FindDirectoryPage();
      var pages := FindTableSlot();
      if directory == 0 || pages == 0 {
        return Panic;
      }
      MountPointVacant(mem, world, current.physical, Mount(directory, pages));
      return Ok(Mount(directory, pages));
    }

    /** The checks of mount_directory never fire on a mount point that was just found. */
    method CheckMountPoint(m: Mount) returns (corrupted: bool)
      requires Valid() && Vacant(mem, world, current.physical, m)
      ensures !corrupted
    {
      hide Inv, SelfMapped, Active, Mappable;
      MountEntry(mem, world, current.physical, m);
      var occupied, _ := GetMapping(m.directory);
      OwnDirectory(mem, world, current.physical, DirIdx(m.pages));
      var slot := Load(mem, current.physical, EntryVA(current.directory, DirIdx(m.pages)));
      corrupted := m.directory % PAGE_SIZE != 0 || TabIdx(m.pages) != 0 || occupied || slot != ZERO;
    }

    method MountDirectory(dir: PageDirectory) returns (r: Result<Mount>)
      requires Valid()
      modifies `mem, `location, `stackLoc, `world
      ensures Valid() && location == old(location) && world == old(world)
      ensures r.Ok? <==> FreeDirPage(old(mem), current.physical, DIR_FIRST) < DIR_LIMIT
                         && FreeTabSlot(old(mem), current.physical, TAB_FIRST) < TAB_LIMIT
      ensures r.Panic? ==> mem == old(mem)
      ensures r.Ok? ==>
        r.value == Mount(PAGE_SIZE * FreeDirPage(old(mem), current.physical, DIR_FIRST),
                         0x40_0000 * FreeTabSlot(old(mem), current.physical, TAB_FIRST))
        && Vacant(old(mem), world, current.physical, r.value)
        && mem == MountMem(old(mem), world, current.physical, r.value, Word(dir.physical, KERNEL_RW))
        && Mounted(mem, world, current.physical, r.value, dir.physical)
    {
      hide Inv, SelfMapped, Active, FreeTabSlot, FreeDirPage, View, Mappable, Unshown;
      ghost var mem0 := mem;
      r := FindMountPoint();
      if r.Panic? {
        return;
      }
      var m := r.value;
      MountStep(mem, world, current.physical, m, dir.physical);
      var corrupted := CheckMountPoint(m);
      if corrupted {
        assert false;
      }
      var s := Map(m.directory, dir.physical, PRESENT | WRITE);
      OwnDirectory(mem, world, current.physical, DirIdx(m.pages));
      mem := Store(mem, current.physical, EntryVA(current.directory, DirIdx(m.pages)),
                   Word(dir.physical, PRESENT | WRITE));
    }

    method UmountDirectory(m: Mount)
      requires Valid() && IsMount(m)
      modifies `mem
      ensures Valid() && WindowsKept(old(mem), world, mem, world)
      ensures mem == MountMem(old(mem), world, current.physical, m, ZERO)
    {
      hide Inv, SelfMapped, Active, WindowsKept, Mappable;
      UmountStep(mem, world, current.physical, m);
      Unmap(m.directory);
      OwnDirectory(mem, world, current.physical, DirIdx(m.pages));
      mem := Store(mem, current.physical, EntryVA(current.directory, DirIdx(m.pages)), ZERO);
    }

    /** The inner loop of destroy_directory: every frame the table of slot `i` maps, but the directory itself. */
    method FreeLeaves(mp: Mount, dir: PageDirectory, i: nat, ghost mem1: Memory, ghost w1: World, ghost fs: seq<Frame>)
      requires AfterFrees(mem1, w1, fs) && dir.directory == USER_DIR_VIRTUAL
      requires Inv(mem1, w1) && Active(mem1, w1, current.physical)
      requires Mounted(mem1, w1, current.physical, mp, dir.physical) && Doomed(mem1, w1, dir.physical)
      requires i < KERNEL_SLOT && !Skipped(mem1, w1.kernel, dir.physical, i)
      requires Ascending(w1, fs, 1025 * i)
      modifies `mem, `location, `stackLoc, `stackMax, `world
      ensures location == old(location)
      ensures AfterFrees(mem1, w1, fs + TableLeaves(mem1, mem1[dir.physical][i].frame, i))
    {
      hide Inv, SelfMapped, Active, Mounted, Doomed, Ascending, Skipped, WindowsKept, FreedAllMem, FreedAll, Freeable;
      ghost var d, t := dir.physical, mem1[dir.physical][i].frame;
      var pageNum := PageOf(dir.directory);
      var j := 1024 * i;
      assert fs + [] == fs;
      while j < 1024 * (i + 1)
        invariant 1024 * i <= j <= 1024 * (i + 1) && location == old(location)
        invariant AfterFrees(mem1, w1, fs + LeafFrames(mem1, t, i, j - 1024 * i))
      {
        ghost var gs := fs + LeafFrames(mem1, t, i, j - 1024 * i);
        LeafStep(mem1, w1, current.physical, mp, d, i, fs, j - 1024 * i);
        var entry := Load(mem, current.physical, EntryVA(mp.pages, j));
        assert entry == mem1[t][j - 1024 * i];
        if entry == ZERO || j == pageNum {
          assert fs + LeafFrames(mem1, t, i, j + 1 - 1024 * i) == gs;
        } else {
          PmmFreePage(entry.frame);
          FreedAllAppend(mem1, w1, gs, entry.frame);
          assert fs + LeafFrames(mem1, t, i, j + 1 - 1024 * i) == gs + [entry.frame];
        }
        j := j + 1;
      }
      assert j - 1024 * i == |mem1[t]|;
    }

    /** One turn of the outer loop of destroy_directory. */
    method FreeSlot(mp: Mount, dir: PageDirectory, i: nat, ghost mem1: Memory, ghost w1: World)
      requires i < KERNEL_SLOT && AfterFrees(mem1, w1, SlotFrames(mem1, w1.kernel, dir.physical, i))
      requires dir.directory == USER_DIR_VIRTUAL && dir.pages == USER_TABLES_VIRTUAL
      requires Inv(mem1, w1) && Active(mem1, w1, current.physical)
      requires Mounted(mem1, w1, current.physical, mp, dir.physical) && Doomed(mem1, w1, dir.physical)
      modifies `mem, `location, `stackLoc, `stackMax, `world
      ensures location == old(location)
      ensures AfterFrees(mem1, w1, SlotFrames(mem1, w1.kernel, dir.physical, i + 1))
    {
      hide Inv, SelfMapped, Active, Mounted, Doomed, Ascending, WindowsKept, FreedAllMem, FreedAll, Freeable,
           TableLeaves;
      ghost var d, fs := dir.physical, SlotFrames(mem1, w1.kernel, dir.physical, i);
      SlotStep(mem1, w1, current.physical, mp, d, i);
      var entry := Load(mem, current.physical, EntryVA(mp.directory, i));
      var shared := Load(mem, current.physical, EntryVA(kernel.directory, i));
      if entry == ZERO || entry == shared || i == DirIdx(dir.pages) {
        assert SlotFrames(mem1, w1.kernel, d, i + 1) == fs;
      } else {
        FreeLeaves(mp, dir, i, mem1, w1, fs);
        ghost var gs := fs + TableLeaves(mem1, entry.frame, i);
        TableStep(mem1, w1, current.physical, mp, d, i);
        entry := Load(mem, current.physical, EntryVA(mp.directory, i));
        PmmFreePage(entry.frame);
        FreedAllAppend(mem1, w1, gs, entry.frame);
        assert SlotFrames(mem1, w1.kernel, d, i + 1) == gs + [entry.frame];
      }
    }

    /**
      Gives back the private half of a directory that is not the active one: every
      frame its private tables map, every such table, and the directory itself.
    */
    method DestroyDirectory(dir: PageDirectory) returns (r: Result<()>)
      requires Valid() && IsDir(world, dir.physical) && dir == Record(world, dir.physical)
      requires dir.physical != kernel.physical ==>
        dir.physical != current.physical && Tree(mem, world, dir.physical)
      modifies `mem, `location, `stackLoc, `stackMax, `world
      ensures location == old(location)
      ensures r.Ok? <==>
        dir.physical != kernel.physical
        && FreeDirPage(old(mem), current.physical, DIR_FIRST) < DIR_LIMIT
        && FreeTabSlot(old(mem), current.physical, TAB_FIRST) < TAB_LIMIT
      ensures r.Ok? ==>
        Valid()
        && world == FreedAll(Retired(old(world), dir.physical), Released(old(mem), kernel.physical, dir.physical))
        && TornDown(old(mem), old(world), mem, world, dir.physical)
        && GivenBack(old(mem), old(world), world, dir.physical) && NoOthers(old(mem), old(world), world, dir.physical)
        && RestKept(old(mem), old(world), mem, world)
    {
      hide Inv, SelfMapped, Active, Mounted, Doomed, Ascending, WindowsKept, FreedAllMem, FreedAll, Freeable,
           FreeDirPage, FreeTabSlot, Tree, TornDown, Vacant, SlotFrames, RestKept,
           GivenBack, NoOthers;
      if dir.physical == kernel.physical {
        return Panic;
      }
      ghost var mem0, w0, d, c := mem, world, dir.physical, current.physical;
      var mp := MountDirectory(dir);
      if mp.Panic? {
        return Panic;
      }
      ghost var mem1, w1 := mem, Retired(w0, d);
      TeardownStarts(mem0, w0, c, mp.value, d);
      world := w1;
      var i := 0;
      while i < DirIdx(KERNEL_ADDRESS_SPACE)
        invariant 0 <= i <= KERNEL_SLOT && location == old(location)
        invariant AfterFrees(mem1, w1, SlotFrames(mem1, w1.kernel, d, i))
      {
        FreeSlot(mp.value, dir, i, mem1, w1);
        i := i + 1;
      }
      LastStep(mem1, w1, c, mp.value, d);
      PmmFreePage(dir.physical);
      FreedAllAppend(mem1, w1, SlotFrames(mem1, w1.kernel, d, KERNEL_SLOT), d);
      UmountDirectory(mp.value);
      TeardownEnds(mem0, w0, c, mp.value, d);
      DestroyKeepsRest(mem0, w0, mem, world, d);
      OwnIsGivenBack(mem0, w0, mem, world, d);
      return Ok(());
    }

    // ------------------------------------------------------------ clone_directory

    /** pmm_alloc_page, recording what the frame is for. */
    method AllocFor(ghost use: Role) returns (r: Result<Frame>)
      requires Valid() && (Loose(use) || use.Table?)
      modifies `location, `stackLoc, `world
      ensures location == old(location) && (r.Panic? <==> old(world.free) == [])
      ensures r.Ok? ==>
        Valid() && world == Taken(old(world), use) && r.value == old(world.free[|world.free| - 1])
    {
      hide Inv, Active, SelfMapped, WindowsKept;
      ghost var w := world;
      r := PmmAllocPage();
      if r.Ok? {
        TakenInv(mem, w, use);
        ActiveKept(mem, w, mem, Taken(w, use), current.physical);
        world := Taken(w, use);
      }
    }

    /** copy_page_physical: with paging off, word by word, from its first argument to its second. */
    method CopyPagePhysical(source: Frame, dest: Frame)
      modifies `mem
      ensures mem == old(mem)[dest := old(mem)[source]]
    {
      ghost var mem0 := mem;
      var i, left := 0, 1024;
      while left != 0
        invariant 0 <= left <= 1024 && i + left == 1024
        invariant forall g: Frame | g != dest :: mem[g] == mem0[g]
        invariant forall j | 0 <= j < i :: mem[dest][j] == mem0[source][j]
        invariant forall j | i <= j < 1024 :: mem[dest][j] == mem0[dest][j]
      {
        mem := Put(mem, Loc(dest, i), mem[source][i]);
        i, left := i + 1, left - 1;
      }
      assert mem[dest] == mem0[source];
    }

    /** Cloning under way: `mem1` and `w1` are what there was after mounting. */
    ghost predicate CloneState(mem1: Memory, w1: World, m1: Mount, m2: Mount, src: Frame, d: Frame)
      reads this
    {
      && Valid() && Base(mem1, w1, current.physical, m1, m2, src, d)
      && Aside(mem1, w1, mem, world, d)
    }

    /** ... and slot `s` has been given the new table `to`, for a source table that reads `source`. */
    ghost predicate TableState(mem1: Memory, w1: World, m1: Mount, m2: Mount, src: Frame, d: Frame,
                               to: Frame, s: nat, source: Page)
      reads this
    {
      && CloneState(mem1, w1, m1, m2, src, d) && s < 1024
      && PrivateSlot(mem1, w1.kernel, src, s) && mem[d][s] == Word(to, USER_RW)
      && w1.role[to].Free? && world.role[to] == Table(d, s)
      && mem[SourceTable(mem1, src, s)] == source
    }

    /** The body of the inner loop of clone_directory, up to the first write of the new entry. */
    method NewEntry(m2: Mount, s: nat, j: nat, ghost m1: Mount, ghost mem1: Memory, ghost w1: World,
                    ghost src: Frame, ghost d: Frame, ghost to: Frame, ghost source: Page)
      returns (r: Result<Frame>)
      requires TableState(mem1, w1, m1, m2, src, d, to, s, source) && j < 1024
      modifies `mem, `location, `stackLoc, `world
      ensures location == old(location) && (r.Panic? <==> old(world.free) == [])
      ensures r.Ok? ==>
        TableState(mem1, w1, m1, m2, src, d, to, s, source)
        && r.value == old(world.free[|world.free| - 1]) && w1.role[r.value].Free? && old(world).role[r.value].Free?
        && world == Taken(old(world), Leaf(d, 1024 * s + j))
        && mem == Put(old(mem), Loc(to, j), Word(r.value, USER_RW))
    {
      hide Inv, Active, SelfMapped, Base, Aside, Mounted, Later, Walk, WindowsKept;
      ghost var mem0, w0, c := mem, world, current.physical;
      BaseFacts(mem1, w1, c, m1, m2, src, d);
      r := AllocFor(Leaf(d, 1024 * s + j));
      if r.Panic? {
        return;
      }
      TakeAside(mem1, w1, mem0, w0, c, d, Leaf(d, 1024 * s + j));
      EntryWalks(mem1, w1, mem, world, c, m1, m2, src, d, to, s, j);
      SourceApart(mem1, w1, c, m1, m2, src, d, s, to);
      WriteAside(mem1, w1, mem, world, c, m1, m2, src, d, to, mem[to][j := Word(r.value, USER_RW)]);
      mem := Store(mem, current.physical, EntryVA(m2.pages, 1024 * s + j), Word(r.value, PRESENT | WRITE | USER));
    }

    /** ... the copy of the page, to the frame the new entry names ... */
    method CopyPage(m2: Mount, s: nat, j: nat, entry: Word, ghost m1: Mount, ghost mem1: Memory, ghost w1: World,
                    ghost src: Frame, ghost d: Frame, ghost to: Frame, ghost source: Page)
      requires TableState(mem1, w1, m1, m2, src, d, to, s, source) && j < 1024
      requires w1.role[mem[to][j].frame].Free? && world.role[mem[to][j].frame] == Leaf(d, 1024 * s + j)
      modifies `mem
      ensures TableState(mem1, w1, m1, m2, src, d, to, s, source)
      ensures mem == old(mem)[old(mem)[to][j].frame := old(mem)[entry.frame]]
    {
      hide Inv, Active, SelfMapped, Base, Aside, Mounted, Walk, WindowsKept;
      ghost var c := current.physical;
      EntryWalks(mem1, w1, mem, world, c, m1, m2, src, d, to, s, j);
      var made := Load(mem, current.physical, EntryVA(m2.pages, 1024 * s + j));
      SourceApart(mem1, w1, c, m1, m2, src, d, s, made.frame);
      WriteAside(mem1, w1, mem, world, c, m1, m2, src, d, made.frame, mem[entry.frame]);
      CopyPagePhysical(entry.frame, made.frame);
    }

    /** ... and the flags of the source entry, added to the new one. */
    method AddFlags(m1: Mount, m2: Mount, s: nat, j: nat, ghost mem1: Memory, ghost w1: World,
                    ghost src: Frame, ghost d: Frame, ghost to: Frame, ghost source: Page)
      requires TableState(mem1, w1, m1, m2, src, d, to, s, source) && j < 1024
      modifies `mem
      ensures TableState(mem1, w1, m1, m2, src, d, to, s, source)
      ensures mem == Put(old(mem), Loc(to, j), Word(old(mem)[to][j].frame, old(mem)[to][j].flags | source[j].flags))
    {
      hide Inv, Active, SelfMapped, Base, Aside, Mounted, Walk, WindowsKept;
      ghost var c := current.physical;
      EntryWalks(mem1, w1, mem, world, c, m1, m2, src, d, to, s, j);
      SourceApart(mem1, w1, c, m1, m2, src, d, s, to);
      var from := Load(mem, current.physical, EntryVA(m1.pages, 1024 * s + j));
      var made := Load(mem, current.physical, EntryVA(m2.pages, 1024 * s + j));
      WriteAside(mem1, w1, mem, world, c, m1, m2, src, d, to,
                 mem[to][j := Word(made.frame, made.flags | from.flags)]);
      mem := Store(mem, current.physical, EntryVA(m2.pages, 1024 * s + j),
                   Word(made.frame, made.flags | from.flags));
    }

    /** The first `n` entries of that table are done; `before` were the frames taken before them. */
    ghost predicate TableAt(mem1: Memory, w1: World, m1: Mount, m2: Mount, src: Frame, d: Frame,
                            to: Frame, s: nat, source: Page, n: nat, before: seq<Role>)
      reads this
    {
      && TableState(mem1, w1, m1, m2, src, d, to, s, source) && n <= 1024
      && TableCloned(source, mem1, w1, mem, world, to, d, s, n)
      && Tracks(w1, world, before + LeafRoles(source, d, s, n))
    }

    /** The body of the inner loop of clone_directory. */
    method CloneEntry(m1: Mount, m2: Mount, s: nat, j: nat, ghost mem1: Memory, ghost w1: World,
                      ghost src: Frame, ghost d: Frame, ghost to: Frame, ghost source: Page, ghost before: seq<Role>)
      returns (r: Result<()>)
      requires s < 1024 && j < 1024 && TableAt(mem1, w1, m1, m2, src, d, to, s, source, j, before)
      modifies `mem, `location, `stackLoc, `world
      ensures location == old(location)
      ensures r.Ok? ==> TableAt(mem1, w1, m1, m2, src, d, to, s, source, j + 1, before)
      ensures r.Ok? ==> MadeUpon(w1, old(mem), old(world), mem, world, d, to, EntryCost(source, j))
      ensures r.Panic? ==> |old(world.free)| < EntryCost(source, j)
    {
      hide Inv, Active, SelfMapped, Base, Mounted, Walk, WindowsKept, Valid, MadeUpon, Taken, TableCloned, Aside,
           EntryMem, Tracks;
      ghost var mem0, w0 := mem, world;
      ValidParts();
      BaseFacts(mem1, w1, current.physical, m1, m2, src, d);
      AsideWorld(mem1, w1, mem, world, d);
      EntryWalks(mem1, w1, mem, world, current.physical, m1, m2, src, d, to, s, j);
      var entry := Load(mem, current.physical, EntryVA(m1.pages, 1024 * s + j));
      if entry == ZERO {
        MadeNothing(w1, mem, world, d, to);
        EntrySkipped(source, mem1, w1, mem, world, to, d, s, j);
        LeafRolesStep(source, d, s, j, before);
        return Ok(());
      }
      var f := NewEntry(m2, s, j, m1, mem1, w1, src, d, to, source);
      if f.Panic? {
        return Panic;
      }
      TakenRole(w0, Leaf(d, 1024 * s + j));
      CopyPage(m2, s, j, entry, m1, mem1, w1, src, d, to, source);
      AddFlags(m1, m2, s, j, mem1, w1, src, d, to, source);
      EntrySteps(mem0, to, j, f.value, entry);
      EntryMade(source, mem1, w1, mem0, w0, mem, world, to, d, s, j);
      LeafRolesStep(source, d, s, j, before);
      TracksMore(w1, w0, before + LeafRoles(source, d, s, j), Leaf(d, 1024 * s + j));
      return Ok(());
    }

    lemma ValidParts()
      requires Valid()
      ensures Inv(mem, world) && Active(mem, world, current.physical)
      ensures kernel == Record(world, world.kernel) && current == Record(world, current.physical)
    {
    }

    /** The new table itself, entered in the directory being built and cleared through its window. */
    method StartTable(ghost m1: Mount, m2: Mount, s: nat, ghost mem1: Memory, ghost w1: World,
                      ghost src: Frame, ghost d: Frame, ghost before: seq<Role>)
      returns (r: Result<Frame>)
      requires s < 1024 && PrivateSlot(mem1, w1.kernel, src, s) && CloneState(mem1, w1, m1, m2, src, d)
      requires Tracks(w1, world, before)
      modifies `mem, `location, `stackLoc, `world
      ensures location == old(location) && (r.Panic? <==> old(world.free) == [])
      ensures r.Ok? ==>
        TableAt(mem1, w1, m1, m2, src, d, r.value, s, mem[SourceTable(mem1, src, s)], 0, before + [Table(d, s)])
        && old(world).role[r.value].Free?
      ensures r.Ok? ==> mem[d] == old(mem)[d][s := Word(r.value, USER_RW)]
      ensures r.Ok? ==> Later(w1, old(mem), old(world), mem, world, r.value) && |world.free| + 1 == |old(world).free|
    {
      hide Inv, Active, SelfMapped, Base, Aside, Mounted, Walk, WindowsKept, Later, TableCloned, Tracks;
      ghost var mem0, w0, c := mem, world, current.physical;
      BaseFacts(mem1, w1, c, m1, m2, src, d);
      HeldStays(mem1, w1, mem, world, c, m1, m2, src, d);
      r := AllocFor(Table(d, s));
      if r.Panic? {
        return;
      }
      var t := r.value;
      TakeAside(mem1, w1, mem0, w0, c, d, Table(d, s));
      StillThere(mem1, w1, mem, world, c, m1, m2, src, d);
      MountedDirectory(mem, world, c, m2, d, s);
      WriteAside(mem1, w1, mem, world, c, m1, m2, src, d, d, mem[d][s := Word(t, USER_RW)]);
      mem := Store(mem, current.physical, EntryVA(m2.directory, s), Word(t, PRESENT | WRITE | USER));
      NewTableReached(mem1, w1, mem, world, c, m1, m2, src, d, s, t);
      WriteAside(mem1, w1, mem, world, c, m1, m2, src, d, t, ZeroPage());
      ZeroPageAt(m2.pages + PAGE_SIZE * s, t);
      TableStarted(mem[SourceTable(mem1, src, s)], mem1, w1, mem0, w0, d, s);
      TracksMore(w1, w0, before, Table(d, s));
      NoLeafRoles(mem[SourceTable(mem1, src, s)], d, s, before + [Table(d, s)]);
    }

    /** A private slot of the source: a fresh table, with a fresh copy of each page present. */
    method CloneTable(m1: Mount, m2: Mount, s: nat, ghost mem1: Memory, ghost w1: World,
                      ghost src: Frame, ghost d: Frame, ghost before: seq<Role>)
      returns (r: Result<()>)
      requires s < 1024 && PrivateSlot(mem1, w1.kernel, src, s) && CloneState(mem1, w1, m1, m2, src, d)
      requires Cloned(mem1, w1, mem, world, src, d, s) && Tracks(w1, world, before)
      modifies `mem, `location, `stackLoc, `world
      ensures location == old(location)
      ensures r.Ok? ==> CloneState(mem1, w1, m1, m2, src, d) && SlotCloned(mem1, w1, mem, world, src, d, s)
      ensures r.Ok? ==> SlotMade(w1, old(mem), old(world), mem, world, d, s, SlotCost(mem1, w1.kernel, src, d, s))
      ensures r.Ok? ==> Tracks(w1, world, before + SlotRoles(mem1, w1.kernel, src, d, s))
      ensures r.Panic? ==> |old(world.free)| < SlotCost(mem1, w1.kernel, src, d, s)
    {
      hide Inv, Active, SelfMapped, Base, Aside, Mounted, Walk, WindowsKept, MadeUpon, SlotMade, Valid, TableCloned,
           SlotCloned, SlotCost, Cloned, SlotRoles, Tracks;
      ghost var mem0, w0, from := mem, world, SourceTable(mem1, src, s);
      SlotCostsTable(mem1, w1.kernel, src, d, s);
      var to := StartTable(m1, m2, s, mem1, w1, src, d, before);
      if to.Panic? {
        return Panic;
      }
      ghost var t, mem2, w2, source := to.value, mem, world, mem[from];
      SourceNow(mem1, w1, mem0, w0, mem, world, current.physical, m1, m2, src, d, s, Word(t, USER_RW));
      TableRoles(mem1, w1, mem0, w0, mem, world, current.physical, m1, m2, src, d, s, Word(t, USER_RW));
      MadeNothing(w1, mem, world, d, t);
      var j := 0;
      while j < 1024
        invariant 0 <= j <= 1024 && location == old(location)
        invariant TableAt(mem1, w1, m1, m2, src, d, t, s, source, j, before + [Table(d, s)])
        invariant MadeUpon(w1, mem2, w2, mem, world, d, t, Entries(source, j))
      {
        ghost var mem3, w3 := mem, world;
        EntriesGrow(source, j + 1, |source|);
        MadeCount(w1, mem2, w2, mem, world, d, t, Entries(source, j));
        var e := CloneEntry(m1, m2, s, j, mem1, w1, src, d, t, source, before + [Table(d, s)]);
        if e.Panic? {
          return Panic;
        }
        MadeTwice(w1, mem2, w2, mem3, w3, mem, world, d, t, Entries(source, j), EntryCost(source, j));
        j := j + 1;
      }
      assert j == |source|;
      assert before + ([Table(d, s)] + LeafRoles(source, d, s, j))
          == before + [Table(d, s)] + LeafRoles(source, d, s, j);
      TableFinished(source, mem1, w1, mem0, w0, mem2, w2, mem, world, src, d, s, t, Entries(source, j));
      return Ok(());
    }

    /** `n` slots of the new directory are done, at the expected price. */
    ghost predicate SlotsAt(mem1: Memory, w1: World, m1: Mount, m2: Mount, src: Frame, d: Frame, n: nat)
      reads this
    {
      && CloneState(mem1, w1, m1, m2, src, d) && n <= 1024
      && Cloned(mem1, w1, mem, world, src, d, n)
      && |world.free| + CloneCost(mem1, w1.kernel, src, d, n) == |w1.free|
      && Tracks(w1, world, CloneRoles(mem1, w1.kernel, src, d, n))
    }

    /** One turn of the outer loop of clone_directory. */
    method CloneSlot(m1: Mount, m2: Mount, s: nat,
                     ghost mem1: Memory, ghost w1: World, ghost src: Frame, ghost d: Frame)
      returns (r: Result<()>)
      requires s < 1024 && SlotsAt(mem1, w1, m1, m2, src, d, s)
      modifies `mem, `location, `stackLoc, `world
      ensures location == old(location)
      ensures r.Ok? ==> SlotsAt(mem1, w1, m1, m2, src, d, s + 1)
      ensures r.Panic? ==> |w1.free| < CloneCost(mem1, w1.kernel, src, d, s + 1)
    {
      hide Inv, Active, SelfMapped, Base, Aside, Mounted, Walk, WindowsKept, SlotMade, SlotCloned, Tracks;
      ghost var mem0, w0, c := mem, world, current.physical;
      ghost var before := CloneRoles(mem1, w1.kernel, src, d, s);
      CloneRolesStep(mem1, w1.kernel, src, d, s);
      BaseFacts(mem1, w1, c, m1, m2, src, d);
      StillThere(mem1, w1, mem, world, c, m1, m2, src, d);
      MountedDirectory(mem, world, c, m1, src, s);
      MountedDirectory(mem, world, c, m2, d, s);
      KernelDirectory(mem, world, c, s);
      var entry := Load(mem, current.physical, EntryVA(m1.directory, s));
      var shared := Load(mem, current.physical, EntryVA(kernel.directory, s));
      if entry == ZERO {
        SlotEmpty(mem1, w1, mem, world, src, d, s);
        SlotShared(mem1, w1, mem0, w0, src, d, s, ZERO);
        SlotAdvance(mem1, w1, mem0, w0, mem, world, src, d, s, 0);
      } else if entry == shared {
        WriteAside(mem1, w1, mem, world, c, m1, m2, src, d, d, mem[d][s := entry]);
        mem := Store(mem, current.physical, EntryVA(m2.directory, s), entry);
        SlotShared(mem1, w1, mem0, w0, src, d, s, entry);
        SlotAdvance(mem1, w1, mem0, w0, mem, world, src, d, s, 0);
      } else {
        var t := CloneTable(m1, m2, s, mem1, w1, src, d, before);
        if t.Panic? {
          return Panic;
        }
        SlotAdvance(mem1, w1, mem0, w0, mem, world, src, d, s, SlotCost(mem1, w1.kernel, src, d, s));
        SlotPrice(w1, mem0, w0, mem, world, d, s, SlotCost(mem1, w1.kernel, src, d, s));
      }
      return Ok(());
    }

    /** The end of clone_directory: the new directory's windows on itself. */
    method SelfMapClone(m2: Mount, dest: PageDirectory, ghost m1: Mount,
                        ghost mem1: Memory, ghost w1: World, ghost src: Frame)
      returns (r: Result<Frame>)
      requires SlotsAt(mem1, w1, m1, m2, src, dest.physical, 1024)
      requires dest.directory == USER_DIR_VIRTUAL && dest.pages == USER_TABLES_VIRTUAL
      modifies `mem, `location, `stackLoc, `world
      ensures location == old(location)
      ensures r.Panic? <==> old(world.free) == []
      ensures r.Ok? ==>
        CloneState(mem1, w1, m1, m2, src, dest.physical)
        && r.value == old(world.free[|world.free| - 1])
        && mem == SelfMapMem(old(mem), dest.physical, r.value)
        && world == Taken(old(world), Table(dest.physical, 958))
    {
      hide Inv, Active, SelfMapped, Base, Aside, Mounted, Walk, WindowsKept, Cloned, Tracks, CloneRoles, CloneCost;
      ghost var mem0, w0, c, d := mem, world, current.physical, dest.physical;
      r := AllocFor(Table(d, 958));
      if r.Panic? {
        return;
      }
      var t := r.value;
      TakeAside(mem1, w1, mem0, w0, c, d, Table(d, 958));
      BaseFacts(mem1, w1, c, m1, m2, src, d);
      StillThere(mem1, w1, mem, world, c, m1, m2, src, d);
      MountedDirectory(mem, world, c, m2, d, 958);
      WriteAside(mem1, w1, mem, world, c, m1, m2, src, d, d, mem[d][958 := Word(t, KERNEL_RW)]);
      mem := Store(mem, current.physical, EntryVA(m2.directory, DirIdx(dest.directory)), Word(t, PRESENT | WRITE));
      StillThere(mem1, w1, mem, world, c, m1, m2, src, d);
      MountedTables(mem, world, c, m2, d, 958 * 1024 + 1023);
      WriteAside(mem1, w1, mem, world, c, m1, m2, src, d, t, mem[t][1023 := Word(d, KERNEL_RW)]);
      mem := Store(mem, current.physical, EntryVA(m2.pages, PageOf(dest.directory)), Word(dest.physical,
                   PRESENT | WRITE));
      StillThere(mem1, w1, mem, world, c, m1, m2, src, d);
      MountedDirectory(mem, world, c, m2, d, 959);
      WriteAside(mem1, w1, mem, world, c, m1, m2, src, d, d, mem[d][959 := Word(d, KERNEL_RW)]);
      mem := Store(mem, current.physical, EntryVA(m2.directory, DirIdx(dest.pages)), Word(dest.physical,
                   PRESENT | WRITE));
    }

    /** The loops of clone_directory, from the clearing of the new directory on. */
    method CloneSlots(m1: Mount, m2: Mount, dest: PageDirectory,
                      ghost mem1: Memory, ghost w1: World, ghost src: Frame)
      returns (r: Result<()>)
      requires Valid() && mem == mem1 && world == w1
      requires Base(mem1, w1, current.physical, m1, m2, src, dest.physical)
      modifies `mem, `location, `stackLoc, `world
      ensures location == old(location)
      ensures r.Panic? ==> |w1.free| < LoopCost(mem1, w1.kernel, src, dest.physical)
      ensures r.Ok? ==> SlotsAt(mem1, w1, m1, m2, src, dest.physical, |mem1[src]|)
    {
      hide Inv, Active, SelfMapped, Base, Aside, Mounted, Walk, WindowsKept, Cloned;
      ghost var d, c := dest.physical, current.physical;
      StartAside(mem1, w1, c, m1, m2, src, d);
      MountedPage(mem, world, c, m1, m2, src, d);
      WriteAside(mem1, w1, mem, world, c, m1, m2, src, d, d, ZeroPage());
      ZeroPageAt(m2.directory, d);
      CleanStart(mem1, w1, mem, world, src, d);
      TracksNothing(w1);
      var i := 0;
      while i < 1024
        invariant 0 <= i <= 1024 && location == old(location)
        invariant SlotsAt(mem1, w1, m1, m2, src, d, i)
      {
        CloneCostGrows(mem1, w1.kernel, src, d, i + 1, |mem1[src]|);
        var s := CloneSlot(m1, m2, i, mem1, w1, src, d);
        if s.Panic? {
          return Panic;
        }
        i := i + 1;
      }
      assert i == |mem1[src]|;
      return Ok(());
    }

    /** The loops and the self-mapping, once both directories are mounted. */
    method FillClone(m1: Mount, m2: Mount, dest: PageDirectory,
                     ghost mem0: Memory, ghost w0: World, ghost mem1: Memory, ghost w1: World, ghost k: Frame,
                     ghost src: Frame)
      returns (r: Result<Frame>)
      requires Valid() && mem == mem1 && world == w1
      requires Setting(mem0, w0, mem1, w1, current.physical, k, m1, m2, src, dest.physical)
      requires dest == PageDirectory(dest.physical, USER_DIR_VIRTUAL, USER_TABLES_VIRTUAL)
      modifies `mem, `location, `stackLoc, `world
      ensures location == old(location)
      ensures r.Panic? ==> |w1.free| < LoopCost(mem1, w1.kernel, src, dest.physical) + 1
      ensures r.Ok? ==>
        && Valid() && IsMount(m1) && IsMount(m2)
        && CloneOk(mem0, w0, BothUnmounted(mem, world, current.physical, m1, m2), world, current.physical, src,
                   dest.physical, r.value)
    {
      hide Inv, Active, SelfMapped, Base, Aside, Mounted, Walk, WindowsKept, Setting, Cloned, CloneOk,
           SelfMapMem, DirOk, SlotCloned, CloneCost, CloneRoles, TakenAll, WithMounts, Later, PrivateSlot;
      ghost var d, c := dest.physical, current.physical;
      SettingFacts(mem0, w0, mem1, w1, c, k, m1, m2, src, d);
      var s := CloneSlots(m1, m2, dest, mem1, w1, src);
      if s.Panic? {
        return Panic;
      }
      ghost var mem2, w2 := mem, world;
      r := SelfMapClone(m2, dest, m1, mem1, w1, src);
      if r.Panic? {
        return;
      }
      CloneFinished(mem0, w0, mem1, w1, mem2, w2, c, k, m1, m2, src, d);
      world := Promoted(world, d);
    }

    /**
      A copy of any directory, the active one and those with windows on themselves included.
      The record of the new directory comes from the kernel heap and is not part of this model.
    */
    method CloneDirectory(srcDir: PageDirectory) returns (r: Result<PageDirectory>)
      requires Valid() && IsDir(world, srcDir.physical) && MountsInUse(mem, world, srcDir.physical)
      modifies `mem, `location, `stackLoc, `world
      ensures location == old(location)
      ensures r.Ok? <==>
        RoomForTwo(old(mem), current.physical)
        && Price(old(mem), old(world), current.physical, srcDir.physical) <= |old(world.free)|
      ensures r.Ok? ==>
        Valid() && r.value == Record(world, r.value.physical) && Active(mem, world, r.value.physical)
        && CloneOk(old(mem), old(world), mem, world, current.physical, srcDir.physical,
                   r.value.physical, mem[r.value.physical][958].frame)
        && RestKept(old(mem), old(world), mem, world)
    {
      hide Inv, Active, SelfMapped, Vacant, Mounted, WindowsKept, Setting, CloneOk, FreeDirPage, FreeTabSlot, Popped,
           LoopCost, RoomForTwo, MountsInUse, WithMounts, Price, RestKept;
      ghost var mem0, w0, c, src := mem, world, current.physical, srcDir.physical;
      var p := PmmAllocPage();
      if p.Panic? {
        PriceAtLeast(mem0, w0, c, src);
        return Panic;
      }
      var dest := PageDirectory(p.value, USER_DIR_VIRTUAL, USER_TABLES_VIRTUAL);
      FirstFits(mem0, c);
      var m1 := MountDirectory(srcDir);
      if m1.Panic? {
        return Panic;
      }
      SecondFits(mem0, w0, c, m1.value, src);
      var m2 := MountDirectory(dest);
      if m2.Panic? {
        return Panic;
      }
      PoppedMounts(mem0, w0, c, m1.value, m2.value, src, p.value);
      SettingHolds(mem0, w0, c, m1.value, m2.value, src);
      ghost var mem1, w1 := mem, world;
      SettingPrice(mem0, w0, mem1, w1, c, mem0[w0.kernel][1021].frame, m1.value, m2.value, src, p.value);
      var t := FillClone(m1.value, m2.value, dest, mem0, w0, mem1, w1, mem0[w0.kernel][1021].frame, src);
      if t.Panic? {
        return Panic;
      }
      SettingFacts(mem0, w0, mem1, w1, c, mem0[w0.kernel][1021].frame, m1.value, m2.value, src, p.value);
      UmountDirectory(m1.value);
      UmountDirectory(m2.value);
      CloneOkFacts(mem0, w0, mem, world, c, src, p.value, t.value);
      CloneOkPrice(mem0, w0, mem, world, c, src, p.value, t.value);
      CloneKeepsRest(mem0, w0, mem, world, c, src, p.value, t.value);
      return Ok(dest);
    }
  }
}
