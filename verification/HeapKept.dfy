/**
  The heap beside everything else: mapping pages elsewhere, freeing frames, destroying
  and cloning address spaces leave every page of the kernel heap mapped to its frame.
*/
module HeapKept {
  import opened Hardware
  import opened Ownership
  import opened Windows
  import opened Ranges
  import opened Teardown
  import opened Boot
  import opened Cloning
  import opened HeapPages
  import opened Lifecycle

  /** The heap hangs on what the reference directory says of its pages, and on the roles of their frames. */
  lemma SameHeap(mem: Memory, w: World, mem': Memory, w': World, n: nat)
    requires HeapMapped(mem, w, n) && w'.kernel == w.kernel
    requires forall k: nat | k < HEAP_PAGES :: View(mem', w.kernel, HeapPage(k)) == View(mem, w.kernel, HeapPage(k))
    requires forall f: Frame | w.role[f].Leaf? && w.role[f].dir == w.kernel :: w'.role[f] == w.role[f]
    ensures HeapMapped(mem', w', n)
  {
    hide View;
    forall k: nat | k < HEAP_PAGES ensures PageFits(mem', w', n, k) {
      assert PageFits(mem, w, n, k);
    }
  }

  /** map of any page outside the heap. */
  lemma MapKeepsHeap(mem: Memory, w: World, c: Frame, p: PageNum, x: Word, n: nat)
    requires Inv(mem, w) && Active(mem, w, c) && Mappable(w, p) && HeapMapped(mem, w, n)
    requires NeedsTable(mem, c, p) ==> w.free != []
    requires !(HEAP_PAGE <= p < HEAP_PAGE + HEAP_PAGES)
    ensures HeapMapped(MapMem(mem, w, c, p, x), MapWorld(mem, w, c, p), n)
  {
    hide Inv, Active, SelfMapped, View, MapMem, HeapMapped, Mappable;
    KernelRole(mem, w);
    forall k: nat | k < HEAP_PAGES
      ensures View(MapMem(mem, w, c, p, x), w.kernel, HeapPage(k)) == View(mem, w.kernel, HeapPage(k))
    {
      MapRefines(mem, w, c, p, x, w.kernel, HeapPage(k));
    }
    if w.free != [] {
      FreeTop(mem, w);
    }
    SameHeap(mem, w, MapMem(mem, w, c, p, x), MapWorld(mem, w, c, p), n);
  }

  /** pmm_free_page of any frame that is not one of the heap's. */
  lemma FreeKeepsHeap(mem: Memory, w: World, f: Frame, n: nat)
    requires Inv(mem, w) && Freeable(w, f) && HeapMapped(mem, w, n)
    requires !(w.role[f].Leaf? && w.role[f].dir == w.kernel)
    ensures HeapMapped(FreedMem(mem, w, f), Freed(w, f), n)
  {
    hide Inv, View, FreedMem, HeapMapped;
    KernelRole(mem, w);
    forall k: nat | k < HEAP_PAGES
      ensures View(FreedMem(mem, w, f), w.kernel, HeapPage(k)) == View(mem, w.kernel, HeapPage(k))
    {
      FreeViews(mem, w, f, w.kernel, HeapPage(k));
    }
    SameHeap(mem, w, FreedMem(mem, w, f), Freed(w, f), n);
  }

  /** A run of such frees, the collection of the usable memory for one. */
  lemma FreesKeepHeap(mem: Memory, w: World, mem': Memory, w': World, fs: seq<Frame>, n: nat)
    requires Inv(mem, w) && Untouched(mem, w, mem', w', fs) && HeapMapped(mem, w, n)
    requires forall f: Frame | f in fs :: !(w.role[f].Leaf? && w.role[f].dir == w.kernel) && f != w.kernel
    ensures HeapMapped(mem', w', n)
  {
    hide Inv, HeapMapped;
    KernelRole(mem, w);
    forall k: nat | k < HEAP_PAGES ensures View(mem', w.kernel, HeapPage(k)) == View(mem, w.kernel, HeapPage(k)) {
      HeapTableRole(mem, w, k);
    }
    SameHeap(mem, w, mem', w', n);
  }

  /** After init_vmm the heap is empty. */
  lemma BootHeap(mem: Memory, b: nat)
    requires b + BOOT_FRAMES <= FRAMES && Booted(mem, b)
    ensures HeapMapped(mem, BootWorld(b), 0)
  {
    hide View, Booted;
    forall k: nat | k < HEAP_PAGES ensures PageFits(mem, BootWorld(b), 0, k) {
      BootView(mem, b, HeapPage(k));
    }
  }

  /** allocate_range of pages outside the heap. */
  lemma AllocateKeepsHeap(mem0: Memory, w0: World, mem: Memory, w: World, c: Frame,
                          lo: PageNum, i: nat, flags: bv12, n: nat)
    requires Inv(mem0, w0) && lo <= i <= FRAMES && HeapMapped(mem0, w0, n)
    requires RangeDone(mem0, w0, mem, w, c, lo, i, flags)
    requires i <= HEAP_PAGE || HEAP_PAGE + HEAP_PAGES <= lo
    ensures HeapMapped(mem, w, n)
  {
    hide Inv, View, HeapMapped, Needed, PageDone, OnlyAdds;
    OnlyAddsRoles(mem0, w0, mem, w, c);
    KernelRole(mem0, w0);
    forall k: nat | k < HEAP_PAGES ensures View(mem, w.kernel, HeapPage(k)) == View(mem0, w0.kernel, HeapPage(k)) {
      assert Ordinary(HeapPage(k));
    }
    SameHeap(mem0, w0, mem, w, n);
  }

  lemma DestroyKeepsHeap(mem: Memory, w: World, mem': Memory, w': World, d: Frame, n: nat)
    requires Inv(mem, w) && w.role[d] == Directory && Tree(mem, w, d) && HeapMapped(mem, w, n)
    requires TornDown(mem, w, mem', w', d)
    ensures HeapMapped(mem', w', n)
  {
    KernelRole(mem, w);
    ReleasedOwned(mem, w, d);
    hide Inv, Tree, View, HeapMapped, Released;
    forall k: nat | k < HEAP_PAGES ensures View(mem', w.kernel, HeapPage(k)) == View(mem, w.kernel, HeapPage(k)) {
      assert Ordinary(HeapPage(k)) && !StackRegion(HeapPage(k));
    }
    SameHeap(mem, w, mem', w', n);
  }

  /** clone_directory of any directory. */
  lemma CloneKeepsHeap(mem: Memory, w: World, mem': Memory, w': World, c: Frame, src: Frame, d: Frame, t: Frame, n: nat)
    requires Inv(mem, w) && HeapMapped(mem, w, n) && CloneOk(mem, w, mem', w', c, src, d, t)
    ensures HeapMapped(mem', w', n)
  {
    hide Inv, HeapMapped, CloneOk;
    KernelRole(mem, w);
    CloneFrame(mem, w, mem', w', c, src, d, t);
    forall k: nat | k < HEAP_PAGES ensures View(mem', w.kernel, HeapPage(k)) == View(mem, w.kernel, HeapPage(k)) {
      HeapTableRole(mem, w, k);
    }
    SameHeap(mem, w, mem', w', n);
  }

  lemma HeapTableRole(mem: Memory, w: World, k: nat)
    requires Inv(mem, w) && k < HEAP_PAGES
    ensures mem[w.kernel][HeapPage(k) / 1024] != ZERO
    ensures w.role[mem[w.kernel][HeapPage(k) / 1024].frame] == KernelTable(HeapPage(k) / 1024)
  {
    assert Shared(HeapPage(k) / 1024);
  }
}
