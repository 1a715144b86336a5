/**
  What a clone shows, what it costs, and what destroying it gives back: everything it took,
  but for the frames that the loops put into slots 958 and 959, where the windows go, and
  into slots from 960 on, at which destroy_directory does not look.
*/
module Lifecycle {
  import opened Hardware
  import opened Ownership
  import opened Windows
  import opened Mounts
  import opened Teardown
  import opened Cloning

  const TABLE_SLOT := 958

  // ------------------------------------------------------------ the source, before and while mounted

  /** Mounting changes the mount slots of the active directory and one shared table. */
  lemma MountedSame(mem: Memory, w: World, c: Frame, src: Frame, d: Frame)
    requires Inv(mem, w) && Active(mem, w, c)
    ensures var mem1, k := WithMounts(mem, w, c, src, d), mem[w.kernel][1021].frame;
      && w.role[k] == KernelTable(1021) && IsDir(w, c) && w.role[w.kernel] == KernelDir
      && (forall f: Frame | f != c && f != k :: mem1[f] == mem[f])
      && (forall s | 0 <= s < 1024 && !(TAB_FIRST <= s < TAB_LIMIT) :: mem1[c][s] == mem[c][s])
      && (forall s | TAB_FIRST <= s < TAB_LIMIT ::
           mem1[c][s] == mem[c][s] || mem1[c][s] == Word(src, KERNEL_RW) || mem1[c][s] == Word(d, KERNEL_RW))
  {
    hide Inv, Active, SelfMapped, FirstMount;
    KernelTable1021(mem, w, c);
  }

  /** Outside the mount slots the loop takes the same slots for private as the caller would. */
  lemma SamePrivate(mem: Memory, w: World, c: Frame, src: Frame, d: Frame, s: nat)
    requires Inv(mem, w) && Active(mem, w, c) && IsDir(w, src) && s < 1024 && !(TAB_FIRST <= s < TAB_LIMIT)
    ensures var mem1 := WithMounts(mem, w, c, src, d);
      && mem1[src][s] == mem[src][s] && mem1[w.kernel][s] == mem[w.kernel][s]
      && (PrivateSlot(mem1, w.kernel, src, s) <==> PrivateSlot(mem, w.kernel, src, s))
  {
    hide Inv, Active, SelfMapped, WithMounts;
    MountedSame(mem, w, c, src, d);
  }

  /** A private slot outside the mount slots has the same table before and after mounting. */
  lemma SameTable(mem: Memory, w: World, c: Frame, src: Frame, d: Frame, s: nat)
    requires Inv(mem, w) && Active(mem, w, c) && IsDir(w, src)
    requires s < 1024 && !(TAB_FIRST <= s < TAB_LIMIT) && s != SELF_SLOT
    requires PrivateSlot(mem, w.kernel, src, s) && w.role[d].Free?
    ensures var mem1, from := WithMounts(mem, w, c, src, d), mem[src][s].frame;
      && w.role[from] == Table(src, s) && from != d && mem1[from] == mem[from]
  {
    hide Inv, Active, SelfMapped, WithMounts;
    MountedSame(mem, w, c, src, d);
    TableSlot(mem, w, src, s);
  }

  lemma TableSlot(mem: Memory, w: World, src: Frame, s: nat)
    requires Inv(mem, w) && IsDir(w, src) && s < 1024 && !(TAB_FIRST <= s < TAB_LIMIT) && s != SELF_SLOT
    requires PrivateSlot(mem, w.kernel, src, s)
    ensures Private(s) && w.role[mem[src][s].frame] == Table(src, s)
  {
    assert src == w.kernel || DirOk(mem, w, src);
    assert Shared(s) || Private(s);
  }

  // ------------------------------------------------------------ what a clone shows

  lemma CloneFrame(mem0: Memory, w0: World, mem: Memory, w: World, c: Frame, src: Frame, d: Frame, t: Frame)
    requires CloneOk(mem0, w0, mem, w, c, src, d, t)
    ensures w.kernel == w0.kernel && w0.role[d].Free? && w.role[d] == Directory && w0.role[t].Free?
    ensures forall f: Frame | !w0.role[f].Free? :: w.role[f] == w0.role[f] && mem[f] == mem0[f]
    ensures mem[d][958] == Word(t, KERNEL_RW) && w.role[t] == Table(d, 958) && mem[d][959] == Word(d, KERNEL_RW)
    ensures forall j | 0 <= j < 1023 :: mem[t][j] == mem0[t][j]
  {
    hide SlotCloned, WithMounts, LoopCost;
  }

  lemma CloneSlotOk(mem0: Memory, w0: World, mem: Memory, w: World, c: Frame, src: Frame, d: Frame, t: Frame, s: nat)
    requires CloneOk(mem0, w0, mem, w, c, src, d, t) && s < 1024 && s != 958 && s != 959
    ensures SlotCloned(WithMounts(mem0, w0, c, src, d), w0, mem, w, src, d, s)
  {
    hide SlotCloned, WithMounts, LoopCost;
  }

  /** A slot the source shares, or leaves empty, means the same in the clone. */
  lemma SharedSlotSame(mem0: Memory, w0: World, mem: Memory, w: World, c: Frame, src: Frame, d: Frame, t: Frame,
                       p: PageNum)
    requires Inv(mem0, w0) && Active(mem0, w0, c) && IsDir(w0, src) && CloneOk(mem0, w0, mem, w, c, src, d, t)
    requires Ordinary(p) && p / 1024 != TABLE_SLOT && !PrivateSlot(mem0, w0.kernel, src, p / 1024)
    ensures View(mem, d, p) == View(mem0, src, p)
  {
    hide Inv, Active, CloneOk, WithMounts, TableCloned;
    var s := p / 1024;
    CloneFrame(mem0, w0, mem, w, c, src, d, t);
    CloneSlotOk(mem0, w0, mem, w, c, src, d, t, s);
    SamePrivate(mem0, w0, c, src, d, s);
    if mem0[src][s] != ZERO {
      TableOf(mem0, w0, src, p);
    }
  }

  /** A private page of the source is a page of the clone's own, with the source's flags and contents. */
  lemma PrivatePageCopied(mem0: Memory, w0: World, mem: Memory, w: World, c: Frame, src: Frame, d: Frame, t: Frame,
                          p: PageNum)
    requires Inv(mem0, w0) && Active(mem0, w0, c) && IsDir(w0, src) && CloneOk(mem0, w0, mem, w, c, src, d, t)
    requires Ordinary(p) && p / 1024 != TABLE_SLOT && PrivateSlot(mem0, w0.kernel, src, p / 1024)
    ensures View(mem, d, p) == ZERO <==> View(mem0, src, p) == ZERO
    ensures View(mem0, src, p) != ZERO ==>
      && View(mem, d, p).flags == USER_RW | View(mem0, src, p).flags
      && w.role[View(mem, d, p).frame] == Leaf(d, p) && w0.role[View(mem, d, p).frame].Free?
    ensures View(mem0, src, p) != ZERO && !w0.role[View(mem0, src, p).frame].Free? ==>
      mem[View(mem, d, p).frame] == WithMounts(mem0, w0, c, src, d)[View(mem0, src, p).frame]
  {
    hide Inv, Active, CloneOk, WithMounts, PrivateSlot, EntryCloned;
    var s, j, mem1 := p / 1024, p % 1024, WithMounts(mem0, w0, c, src, d);
    CloneFrame(mem0, w0, mem, w, c, src, d, t);
    CloneSlotOk(mem0, w0, mem, w, c, src, d, t, s);
    SamePrivate(mem0, w0, c, src, d, s);
    SameTable(mem0, w0, c, src, d, s);
    var from, to := mem0[src][s].frame, mem[d][s].frame;
    assert EntryCloned(mem1, w0, mem, w, mem0[from][j], mem[to][j], d, 1024 * s + j);
    PrivateViews(mem0, w0, mem, d, src, p);
    EntryMeans(mem1, w0, mem, w, mem0[from][j], mem[to][j], d, p);
  }

  lemma PrivateViews(mem0: Memory, w0: World, mem: Memory, d: Frame, src: Frame, p: PageNum)
    requires PrivateSlot(mem0, w0.kernel, src, p / 1024) && mem[d][p / 1024].flags == USER_RW
    ensures View(mem0, src, p) == mem0[mem0[src][p / 1024].frame][p % 1024]
    ensures View(mem, d, p) == mem[mem[d][p / 1024].frame][p % 1024]
  {
  }

  lemma EntryMeans(mem1: Memory, w1: World, mem: Memory, w: World, was: Word, now: Word, d: Frame, p: PageNum)
    requires EntryCloned(mem1, w1, mem, w, was, now, d, p) && w1.role[d].Free?
    ensures was == ZERO <==> now == ZERO
    ensures was != ZERO ==>
      now.flags == USER_RW | was.flags && w.role[now.frame] == Leaf(d, p) && w1.role[now.frame].Free?
    ensures was != ZERO && !w1.role[was.frame].Free? ==> mem[now.frame] == mem1[was.frame]
  {
    assert USER_RW | was.flags != 0;
  }

  /** A frame in use that does not hold the mount entries while the copy is made. */
  predicate Readable(mem: Memory, w: World, c: Frame, f: Frame) {
    !w.role[f].Free? && f != c && f != mem[w.kernel][1021].frame
  }

  /**
    A program that reads a page of the clone finds what it would have found in the source,
    for every page of every slot but 958.
  */
  lemma CloneShowsSource(mem0: Memory, w0: World, mem: Memory, w: World, c: Frame, src: Frame, d: Frame, t: Frame,
                         p: PageNum)
    requires Inv(mem0, w0) && Active(mem0, w0, c) && IsDir(w0, src) && CloneOk(mem0, w0, mem, w, c, src, d, t)
    requires Ordinary(p) && p / 1024 != TABLE_SLOT
    ensures View(mem, d, p) == ZERO <==> View(mem0, src, p) == ZERO
    ensures View(mem0, src, p) != ZERO && Readable(mem0, w0, c, View(mem0, src, p).frame) ==>
      mem[View(mem, d, p).frame] == mem0[View(mem0, src, p).frame]
  {
    hide Inv, Active, CloneOk, WithMounts, View, PrivateSlot;
    CloneFrame(mem0, w0, mem, w, c, src, d, t);
    if PrivateSlot(mem0, w0.kernel, src, p / 1024) {
      PrivatePageCopied(mem0, w0, mem, w, c, src, d, t, p);
      MountedSame(mem0, w0, c, src, d);
    } else {
      SharedSlotSame(mem0, w0, mem, w, c, src, d, t, p);
    }
  }

  // ------------------------------------------------------------ mount slots

  /** Mount slots of `e` that are empty. */
  function EmptyMounts(mem: Memory, e: Frame): set<nat> {
    set s | TAB_FIRST <= s < TAB_LIMIT && mem[e][s] == ZERO
  }

  /** A copy has an empty slot where the source has one while both are mounted. */
  lemma EmptySlots(mem0: Memory, w0: World, mem: Memory, w: World, c: Frame, src: Frame, d: Frame, t: Frame, s: nat)
    requires CloneOk(mem0, w0, mem, w, c, src, d, t) && s < 1024 && s != TABLE_SLOT && s != SELF_SLOT
    ensures mem[d][s] == ZERO <==> WithMounts(mem0, w0, c, src, d)[src][s] == ZERO
  {
    hide WithMounts, CloneOk, TableCloned;
    CloneSlotOk(mem0, w0, mem, w, c, src, d, t, s);
  }

  /**
    A copy of the active directory has two mount slots less than the original: the slots in
    use while it is made are copied like any other.  There are eight, and cloning needs two.
  */
  lemma CloneUsesMounts(mem0: Memory, w0: World, mem: Memory, w: World, c: Frame, d: Frame, t: Frame)
    requires Inv(mem0, w0) && Active(mem0, w0, c) && RoomForTwo(mem0, c) && CloneOk(mem0, w0, mem, w, c, c, d, t)
    ensures |EmptyMounts(mem, d)| + 2 == |EmptyMounts(mem0, c)|
  {
    hide Inv, Active, SelfMapped, CloneOk, FreeDirPage, FreeTabSlot, WithMounts;
    TwoMounts(mem0, w0, c, c, d);
    var a, b := MountSlots(mem0, c);
    forall s: nat ensures s in EmptyMounts(mem, d) <==> s in EmptyMounts(mem0, c) - {a, b} {
      if TAB_FIRST <= s < TAB_LIMIT {
        EmptySlots(mem0, w0, mem, w, c, c, d, t, s);
      }
    }
    assert EmptyMounts(mem, d) == EmptyMounts(mem0, c) - {a, b};
    assert {a, b} <= EmptyMounts(mem0, c) && |{a, b}| == 2;
  }

  lemma MountSlots(mem: Memory, c: Frame) returns (a: nat, b: nat)
    requires RoomForTwo(mem, c)
    ensures a == FreeTabSlot(mem, c, TAB_FIRST) && a < TAB_LIMIT && b == FreeTabSlot(mem, c, a + 1)
    ensures a in EmptyMounts(mem, c) && b in EmptyMounts(mem, c) && a != b
  {
    a := FreeTabSlot(mem, c, TAB_FIRST);
    b := FreeTabSlot(mem, c, a + 1);
  }

  /** With room for two, the mounts go to the first two empty slots. */
  lemma TwoMounts(mem: Memory, w: World, c: Frame, src: Frame, d: Frame)
    requires Inv(mem, w) && Active(mem, w, c) && RoomForTwo(mem, c)
    ensures var mem1, a := WithMounts(mem, w, c, src, d), FreeTabSlot(mem, c, TAB_FIRST);
      a < TAB_LIMIT &&
      forall s | TAB_FIRST <= s < TAB_LIMIT ::
        mem1[c][s] == if s == a then Word(src, KERNEL_RW)
                      else if s == FreeTabSlot(mem, c, a + 1) then Word(d, KERNEL_RW) else mem[c][s]
  {
    hide Inv, Active, FreeDirPage, FreeTabSlot, MountMem, RoomForTwo, FirstMount, IsMount;
    var m1 := FirstMount(mem, c);
    TwoPlaces(mem, w, c, src);
    var mem' := MountMem(mem, w, c, m1, Word(src, KERNEL_RW));
    var m2 := FirstMount(mem', c);
    MountedSlot(mem, w, c, m1, Word(src, KERNEL_RW));
    MountInv(mem, w, c, m1, Word(src, KERNEL_RW));
    MountedSlot(mem', w, c, m2, Word(d, KERNEL_RW));
  }

  lemma TwoPlaces(mem: Memory, w: World, c: Frame, src: Frame)
    requires Inv(mem, w) && Active(mem, w, c) && RoomForTwo(mem, c)
    ensures var m1, a := FirstMount(mem, c), FreeTabSlot(mem, c, TAB_FIRST);
      && IsMount(m1) && DirIdx(m1.pages) == a < TAB_LIMIT
      && var mem' := MountMem(mem, w, c, m1, Word(src, KERNEL_RW));
         var m2 := FirstMount(mem', c);
         IsMount(m2) && DirIdx(m2.pages) == FreeTabSlot(mem, c, a + 1)
  {
    hide Inv, Active, FreeDirPage, FreeTabSlot, MountMem, View;
    var m1 := FirstMount(mem, c);
    SecondMount(mem, w, c, m1, src);
    MountedSlot(mem, w, c, m1, Word(src, KERNEL_RW));
    NextTabSlot(mem, MountMem(mem, w, c, m1, Word(src, KERNEL_RW)), c, TAB_FIRST, DirIdx(m1.pages));
  }

  lemma MountedSlot(mem: Memory, w: World, c: Frame, m: Mount, x: Word)
    requires Inv(mem, w) && Active(mem, w, c) && IsMount(m)
    ensures MountMem(mem, w, c, m, x)[c] == mem[c][DirIdx(m.pages) := x]
  {
    hide Inv, Active;
    KernelTable1021(mem, w, c);
  }

  // ------------------------------------------------------------ what can be torn down

  predicate EntryOwned(mem: Memory, w: World, t: Frame, d: Frame, s: nat, j: nat)
    requires s < KERNEL_SLOT && j < 1024
  {
    mem[t][j] == ZERO || w.role[mem[t][j].frame] == Leaf(d, 1024 * s + j)
  }

  /** A copied table of a slot below 958 maps only frames recorded for its page. */
  lemma CopiedTableOwned(mem0: Memory, w0: World, mem: Memory, w: World, c: Frame, src: Frame, d: Frame, t: Frame,
                         s: nat, j: nat)
    requires s < TABLE_SLOT && j < 1024 && !Skipped(mem, w.kernel, d, s)
    requires Inv(mem0, w0) && Active(mem0, w0, c) && IsDir(w0, src) && CloneOk(mem0, w0, mem, w, c, src, d, t)
    ensures EntryOwned(mem, w, mem[d][s].frame, d, s, j)
  {
    hide Inv, Active, CloneOk, WithMounts, EntryCloned;
    var mem1 := WithMounts(mem0, w0, c, src, d);
    CloneFrame(mem0, w0, mem, w, c, src, d, t);
    CloneSlotOk(mem0, w0, mem, w, c, src, d, t, s);
    SamePrivate(mem0, w0, c, src, d, s);
    KernelDirRole(mem0, w0);
    SameTable(mem0, w0, c, src, d, s);
    var from := mem0[src][s].frame;
    assert EntryCloned(mem1, w0, mem, w, mem0[from][j], mem[mem[d][s].frame][j], d, 1024 * s + j);
    EntryMeans(mem1, w0, mem, w, mem0[from][j], mem[mem[d][s].frame][j], d, 1024 * s + j);
  }

  lemma KernelDirRole(mem: Memory, w: World)
    requires Inv(mem, w)
    ensures w.role[w.kernel] == KernelDir
    ensures forall s | 0 <= s < 1024 && Private(s) && mem[w.kernel][s] != ZERO ::
      w.role[mem[w.kernel][s].frame] == Table(w.kernel, s)
    ensures forall s | 0 <= s < 1023 && Shared(s) :: w.role[mem[w.kernel][s].frame] == KernelTable(s)
  {
  }

  /** The table of slot 958, which is not cleared, holds nothing, or only frames recorded for its pages. */
  ghost predicate StaleOwned(mem: Memory, r: seq<Role>, t: Frame, d: Frame)
    requires |r| == FRAMES
  {
    forall j | 0 <= j < 1023 :: mem[t][j] == ZERO || r[mem[t][j].frame] == Leaf(d, 958 * 1024 + j)
  }

  lemma WindowTableKept(mem0: Memory, w0: World, mem: Memory, w: World, c: Frame, src: Frame, d: Frame, t: Frame)
    requires Inv(mem0, w0) && CloneOk(mem0, w0, mem, w, c, src, d, t)
    ensures !Skipped(mem, w.kernel, d, TABLE_SLOT) && mem[d][TABLE_SLOT].frame == t
  {
    hide Inv, CloneOk;
    CloneFrame(mem0, w0, mem, w, c, src, d, t);
    KernelDirRole(mem0, w0);
    assert Private(958);
  }

  /**
    The new directory can be torn down exactly when the stale entries of that table are owned,
    by what the loops are going to do: all of it is told by the state before the call.
  */
  lemma CloneIsTree(mem0: Memory, w0: World, mem: Memory, w: World, c: Frame, src: Frame, d: Frame, t: Frame)
    requires Inv(mem0, w0) && Active(mem0, w0, c) && IsDir(w0, src) && CloneOk(mem0, w0, mem, w, c, src, d, t)
    ensures t == w0.free[|w0.free| - Price(mem0, w0, c, src)] && d == w0.free[|w0.free| - 1]
    ensures Tree(mem, w, d) <==> StaleOwned(mem0, CloneWorld(mem0, w0, c, src).role, t, d)
  {
    hide Inv, Active, CloneOk, CloneWorld, Price, Tree, StaleOwned, LoopCost, WithMounts;
    CloneCount(mem0, w0, mem, w, c, src, d, t);
    CloneTree(mem0, w0, mem, w, c, src, d, t);
  }

  lemma CloneTree(mem0: Memory, w0: World, mem: Memory, w: World, c: Frame, src: Frame, d: Frame, t: Frame)
    requires Inv(mem0, w0) && Active(mem0, w0, c) && IsDir(w0, src) && CloneOk(mem0, w0, mem, w, c, src, d, t)
    ensures Tree(mem, w, d) <==> StaleOwned(mem0, w.role, t, d)
  {
    hide Inv, Active, CloneOk, Skipped;
    CloneFrame(mem0, w0, mem, w, c, src, d, t);
    WindowTableKept(mem0, w0, mem, w, c, src, d, t);
    if Tree(mem, w, d) {
      forall j | 0 <= j < 1023 ensures mem0[t][j] == ZERO || w.role[mem0[t][j].frame] == Leaf(d, 958 * 1024 + j) {
        assert mem[mem[d][958].frame][j] == mem0[t][j];
      }
    } else {
      var s, j :| 0 <= s < KERNEL_SLOT && 0 <= j < 1024 && !Skipped(mem, w.kernel, d, s) && 1024 * s + j != SELF_PAGE
        && !(mem[mem[d][s].frame][j] == ZERO || w.role[mem[mem[d][s].frame][j].frame] == Leaf(d, 1024 * s + j));
      SelfSlotSkipped(mem, w.kernel, d);
      if s < TABLE_SLOT {
        CopiedTableOwned(mem0, w0, mem, w, c, src, d, t, s, j);
      }
      assert mem[t][j] == mem0[t][j];
    }
  }

  lemma SelfSlotSkipped(mem: Memory, k: Frame, d: Frame)
    ensures Skipped(mem, k, d, SELF_SLOT)
  {
  }

  /** Cloning leaves every other directory as ready to be torn down as it was. */
  lemma CloneKeepsTree(mem0: Memory, w0: World, mem: Memory, w: World, c: Frame, src: Frame, d: Frame, t: Frame,
                       e: Frame)
    requires Inv(mem0, w0) && CloneOk(mem0, w0, mem, w, c, src, d, t)
    requires w0.role[e] == Directory && Tree(mem0, w0, e)
    ensures Tree(mem, w, e)
  {
    hide Inv, CloneOk;
    CloneFrame(mem0, w0, mem, w, c, src, d, t);
    DirTables(mem0, w0, e);
    assert mem[e] == mem0[e] && mem[w.kernel] == mem0[w.kernel];
  }

  // ------------------------------------------------------------ what is lost

  /** Frames the loops take for slots from which destroy_directory gives nothing back. */
  function Lost(mem: Memory, k: Frame, src: Frame, d: Frame): nat {
    CloneCostGrows(mem, k, src, d, TABLE_SLOT, |mem[src]|);
    LoopCost(mem, k, src, d) - CloneCost(mem, k, src, d, TABLE_SLOT)
  }

  /** Those of slots 958 and 959, where the windows go, and those of the slots from 960 on. */
  lemma LostSlots(mem: Memory, k: Frame, src: Frame, d: Frame)
    ensures CloneCost(mem, k, src, d, KERNEL_SLOT) <= LoopCost(mem, k, src, d)
    ensures Lost(mem, k, src, d)
         == SlotCost(mem, k, src, d, TABLE_SLOT) + SlotCost(mem, k, src, d, SELF_SLOT)
            + (LoopCost(mem, k, src, d) - CloneCost(mem, k, src, d, KERNEL_SLOT))
  {
    hide SlotCost;
    CloneCostGrows(mem, k, src, d, KERNEL_SLOT, |mem[src]|);
    CloneCostStep(mem, k, src, d, TABLE_SLOT);
    CloneCostStep(mem, k, src, d, SELF_SLOT);
  }

  lemma CloneCostStep(mem: Memory, k: Frame, src: Frame, d: Frame, s: nat)
    requires s < 1024
    ensures CloneCost(mem, k, src, d, s + 1) == CloneCost(mem, k, src, d, s) + SlotCost(mem, k, src, d, s)
  {
  }

  /** Leaves of a table whose entries are those of `page`, none of them the directory's own page. */
  lemma {:induction false} LeafCount(mem: Memory, t: Frame, i: nat, page: Page, n: nat)
    requires n <= 1024 && i < TABLE_SLOT && forall j | 0 <= j < n :: mem[t][j] == ZERO <==> page[j] == ZERO
    ensures |LeafFrames(mem, t, i, n)| == Entries(page, n)
    decreases n
  {
    if n > 0 {
      LeafCount(mem, t, i, page, n - 1);
    }
  }

  /** What one slot of the clone gives back is what it cost. */
  lemma SlotGivesBack(mem0: Memory, w0: World, mem: Memory, w: World, c: Frame, src: Frame, d: Frame, t: Frame, s: nat)
    requires Inv(mem0, w0) && Active(mem0, w0, c) && IsDir(w0, src) && CloneOk(mem0, w0, mem, w, c, src, d, t)
    requires s < TABLE_SLOT
    ensures SlotCost(WithMounts(mem0, w0, c, src, d), w0.kernel, src, d, s)
         == if Skipped(mem, w.kernel, d, s) then 0 else |TableLeaves(mem, mem[d][s].frame, s)| + 1
  {
    hide Inv, Active, CloneOk, WithMounts, EntryCloned, LeafFrames, Entries;
    var mem1 := WithMounts(mem0, w0, c, src, d);
    CloneFrame(mem0, w0, mem, w, c, src, d, t);
    CloneSlotOk(mem0, w0, mem, w, c, src, d, t, s);
    SamePrivate(mem0, w0, c, src, d, s);
    KernelDirRole(mem0, w0);
    assert Shared(s) || Private(s);
    if PrivateSlot(mem0, w0.kernel, src, s) {
      SameTable(mem0, w0, c, src, d, s);
      var from, to := mem0[src][s].frame, mem[d][s].frame;
      forall j | 0 <= j < 1024 ensures mem[to][j] == ZERO <==> mem0[from][j] == ZERO {
        assert EntryCloned(mem1, w0, mem, w, mem0[from][j], mem[to][j], d, 1024 * s + j);
        EntryMeans(mem1, w0, mem, w, mem0[from][j], mem[to][j], d, 1024 * s + j);
      }
      LeafCount(mem, to, s, mem0[from], |mem[to]|);
    }
  }

  lemma {:induction false} SlotsGiveBack(mem0: Memory, w0: World, mem: Memory, w: World, c: Frame, src: Frame,
                                         d: Frame, t: Frame, n: nat)
    requires Inv(mem0, w0) && Active(mem0, w0, c) && IsDir(w0, src) && CloneOk(mem0, w0, mem, w, c, src, d, t)
    requires n <= TABLE_SLOT
    ensures |SlotFrames(mem, w.kernel, d, n)| == CloneCost(WithMounts(mem0, w0, c, src, d), w0.kernel, src, d, n)
    decreases n
  {
    hide Inv, Active, CloneOk, WithMounts, Skipped, SlotCost, TableLeaves;
    if n > 0 {
      SlotsGiveBack(mem0, w0, mem, w, c, src, d, t, n - 1);
      SlotGivesBack(mem0, w0, mem, w, c, src, d, t, n - 1);
    }
  }

  lemma {:induction false} EmptyTable(mem: Memory, t: Frame, n: nat)
    requires n <= 1024 && forall j | 0 <= j < 1023 :: mem[t][j] == ZERO
    ensures LeafFrames(mem, t, TABLE_SLOT, n) == []
    decreases n
  {
    if n > 0 {
      EmptyTable(mem, t, n - 1);
    }
  }

  /** Slot 958 gives back its table, slot 959 nothing. */
  lemma WindowSlotsGiveBack(mem: Memory, k: Frame, d: Frame)
    requires !Skipped(mem, k, d, TABLE_SLOT) && forall j | 0 <= j < 1023 :: mem[mem[d][TABLE_SLOT].frame][j] == ZERO
    ensures SlotFrames(mem, k, d, KERNEL_SLOT) == SlotFrames(mem, k, d, TABLE_SLOT) + [mem[d][TABLE_SLOT].frame]
  {
    var t := mem[d][TABLE_SLOT].frame;
    EmptyTable(mem, t, |mem[t]|);
    SlotFramesStep(mem, k, d, TABLE_SLOT);
    SlotFramesStep(mem, k, d, SELF_SLOT);
  }

  lemma SlotFramesStep(mem: Memory, k: Frame, d: Frame, n: nat)
    requires n < KERNEL_SLOT
    ensures SlotFrames(mem, k, d, n + 1) == SlotFrames(mem, k, d, n)
      + if Skipped(mem, k, d, n) then [] else TableLeaves(mem, mem[d][n].frame, n) + [mem[d][n].frame]
  {
  }

  /**
    Cloning any directory and destroying the copy: every frame comes back, but exactly
    those that the loops took for slots 958, 959 and from 960 on.
  */
  lemma CloneThenDestroy(mem0: Memory, w0: World, mem: Memory, w: World, c: Frame, src: Frame, d: Frame, t: Frame)
    requires Inv(mem0, w0) && Active(mem0, w0, c) && IsDir(w0, src) && CloneOk(mem0, w0, mem, w, c, src, d, t)
    requires Inv(mem, w) && forall j | 0 <= j < 1023 :: mem0[t][j] == ZERO
    ensures Tree(mem, w, d)
    ensures var w' := FreedAll(Retired(w, d), Released(mem, w.kernel, d));
      |w'.storage| + |w'.free| + Lost(WithMounts(mem0, w0, c, src, d), w0.kernel, src, d) == |w0.storage| + |w0.free|
  {
    hide Inv, Active, CloneOk, WithMounts, Tree, SlotFrames, FreedAll, Doomed, LoopCost, CloneCost, Skipped;
    CloneIsTree(mem0, w0, mem, w, c, src, d, t);
    CloneFrame(mem0, w0, mem, w, c, src, d, t);
    CloneCount(mem0, w0, mem, w, c, src, d, t);
    WindowTableKept(mem0, w0, mem, w, c, src, d, t);
    SlotsGiveBack(mem0, w0, mem, w, c, src, d, t, TABLE_SLOT);
    WindowSlotsGiveBack(mem, w.kernel, d);
    Doom(mem, w, d);
    ReleasedOnce(mem, Retired(w, d), d);
    AscendingOnce(Retired(w, d), Released(mem, w.kernel, d), 1025 * KERNEL_SLOT + 1);
    FreesKeep(mem, Retired(w, d), Released(mem, w.kernel, d));
  }

  lemma CloneCount(mem0: Memory, w0: World, mem: Memory, w: World, c: Frame, src: Frame, d: Frame, t: Frame)
    requires CloneOk(mem0, w0, mem, w, c, src, d, t)
    ensures |w.free| + 2 + LoopCost(WithMounts(mem0, w0, c, src, d), w0.kernel, src, d) == |w0.free|
    ensures w.storage == w0.storage && w.free == w0.free[..|w.free|]
    ensures t == w0.free[|w.free|] && d == w0.free[|w0.free| - 1]
    ensures w == CloneWorld(mem0, w0, c, src) && |w.free| == |w0.free| - Price(mem0, w0, c, src)
  {
    hide SlotCloned, WithMounts, LoopCost, CloneWorld;
  }

  /** Of a directory with windows on itself, a frame for each table and for each page of slot 958, and two more. */
  lemma WindowsLost(mem: Memory, w: World, c: Frame, src: Frame, d: Frame)
    requires Inv(mem, w) && Active(mem, w, c) && w.role[src] == Directory && SelfMapped(mem, w, src) && w.role[d].Free?
    ensures var mem1 := WithMounts(mem, w, c, src, d);
      && SlotCost(mem1, w.kernel, src, d, SELF_SLOT) == 1 + Entries(mem1[src], |mem1[src]|)
      && SlotCost(mem1, w.kernel, src, d, TABLE_SLOT) == 1 + Entries(mem[mem[src][TABLE_SLOT].frame], |mem[src]|)
  {
    hide Inv, Active, WithMounts, Entries;
    WindowIsCopied(mem, w, src);
    SamePrivate(mem, w, c, src, d, SELF_SLOT);
    SamePrivate(mem, w, c, src, d, TABLE_SLOT);
    KernelDirRole(mem, w);
    assert Private(958);
    SameTable(mem, w, c, src, d, TABLE_SLOT);
  }

  /** When the source is not the active directory and shows no mount, mounting does not change the price. */
  lemma PricePlain(mem: Memory, w: World, c: Frame, src: Frame)
    requires Inv(mem, w) && Active(mem, w, c) && IsDir(w, src) && src != c && w.free != []
    requires forall s | TAB_FIRST <= s < TAB_LIMIT :: mem[src][s] == ZERO
    ensures Price(mem, w, c, src) == 2 + LoopCost(mem, w.kernel, src, w.free[|w.free| - 1])
  {
    hide Inv, Active, WithMounts, CloneCost;
    var d := w.free[|w.free| - 1];
    FreeTop(mem, w);
    PlainCost(mem, w, c, src, d, |mem[src]|);
  }

  lemma {:induction false} PlainCost(mem: Memory, w: World, c: Frame, src: Frame, d: Frame, n: nat)
    requires Inv(mem, w) && Active(mem, w, c) && IsDir(w, src) && src != c && w.role[d].Free? && n <= 1024
    requires forall s | TAB_FIRST <= s < TAB_LIMIT :: mem[src][s] == ZERO
    ensures CloneCost(WithMounts(mem, w, c, src, d), w.kernel, src, d, n) == CloneCost(mem, w.kernel, src, d, n)
    decreases n
  {
    hide Inv, Active, WithMounts, SlotCost;
    if n > 0 {
      PlainCost(mem, w, c, src, d, n - 1);
      PlainSlot(mem, w, c, src, d, n - 1);
    }
  }

  lemma PlainSlot(mem: Memory, w: World, c: Frame, src: Frame, d: Frame, s: nat)
    requires Inv(mem, w) && Active(mem, w, c) && IsDir(w, src) && src != c && w.role[d].Free? && s < 1024
    requires forall i | TAB_FIRST <= i < TAB_LIMIT :: mem[src][i] == ZERO
    ensures SlotCost(WithMounts(mem, w, c, src, d), w.kernel, src, d, s) == SlotCost(mem, w.kernel, src, d, s)
  {
    hide Inv, Active, WithMounts, Entries, SelfMapped;
    MountedSame(mem, w, c, src, d);
    var mem1 := WithMounts(mem, w, c, src, d);
    assert mem1[src] == mem[src];
    if !(TAB_FIRST <= s < TAB_LIMIT) {
      SamePrivate(mem, w, c, src, d, s);
      if PrivateSlot(mem, w.kernel, src, s) {
        PrivateHolds(mem, w, src, s);
        if s != SELF_SLOT {
          SameTable(mem, w, c, src, d, s);
        }
      }
    }
  }

  // ------------------------------------------------------------ a copy of the reference directory

  /** It shares everything but slots 958 and 959, and costs two frames. */
  lemma KernelCloneShares(mem0: Memory, w0: World, mem: Memory, w: World, c: Frame, d: Frame, t: Frame)
    requires Inv(mem0, w0) && Active(mem0, w0, c) && CloneOk(mem0, w0, mem, w, c, w0.kernel, d, t)
    ensures forall s | 0 <= s < KERNEL_SLOT && s != TABLE_SLOT && s != SELF_SLOT :: mem[d][s] == mem[w.kernel][s]
    ensures w0.free == w.free + [t, d] && w.storage == w0.storage
    ensures Lost(WithMounts(mem0, w0, c, w0.kernel, d), w0.kernel, w0.kernel, d) == 0
  {
    hide Inv, Active, CloneOk, WithMounts, CloneCost;
    var mem1, k := WithMounts(mem0, w0, c, w0.kernel, d), w0.kernel;
    CloneFrame(mem0, w0, mem, w, c, k, d, t);
    CloneCount(mem0, w0, mem, w, c, k, d, t);
    KernelCostsNothing(mem1, k, d, |mem1[k]|);
    LastTwo(w0.free, w.free, t, d);
    KernelDirRole(mem0, w0);
    forall s | 0 <= s < KERNEL_SLOT && s != TABLE_SLOT && s != SELF_SLOT ensures mem[d][s] == mem[w.kernel][s] {
      CloneSlotOk(mem0, w0, mem, w, c, k, d, t, s);
      SamePrivate(mem0, w0, c, k, d, s);
    }
  }

  lemma {:induction false} KernelCostsNothing(mem: Memory, k: Frame, d: Frame, n: nat)
    requires n <= 1024
    ensures CloneCost(mem, k, k, d, n) == 0
    decreases n
  {
    if n > 0 {
      KernelCostsNothing(mem, k, d, n - 1);
    }
  }

  lemma LastTwo<T>(xs: seq<T>, ys: seq<T>, a: T, b: T)
    requires |ys| + 2 == |xs| && ys == xs[..|ys|] && a == xs[|ys|] && b == xs[|xs| - 1]
    ensures xs == ys + [a, b] && xs[|ys|..] == [a, b]
  {
  }

  /** Whether it can be torn down shows before the call, in the frame about to become the table of slot 958. */
  lemma KernelCloneIsTree(mem0: Memory, w0: World, mem: Memory, w: World, c: Frame, d: Frame, t: Frame)
    requires Inv(mem0, w0) && Active(mem0, w0, c) && CloneOk(mem0, w0, mem, w, c, w0.kernel, d, t)
    ensures t == w0.free[|w0.free| - 2] && d == w0.free[|w0.free| - 1]
    ensures Tree(mem, w, d) <==> StaleOwned(mem0, w0.role, t, d)
  {
    hide Inv, Active, CloneOk, WithMounts, Tree, CloneCost, Price, CloneWorld;
    CloneIsTree(mem0, w0, mem, w, c, w0.kernel, d, t);
    KernelCloneShares(mem0, w0, mem, w, c, d, t);
    CloneCount(mem0, w0, mem, w, c, w0.kernel, d, t);
    KernelCloneRoles(mem0, w0, mem, w, c, d, t);
  }

  lemma KernelCloneRoles(mem0: Memory, w0: World, mem: Memory, w: World, c: Frame, d: Frame, t: Frame)
    requires CloneOk(mem0, w0, mem, w, c, w0.kernel, d, t) && w0.free == w.free + [t, d]
    ensures forall f: Frame, q: PageNum :: w.role[f] == Leaf(d, q) <==> w0.role[f] == Leaf(d, q)
  {
    hide CloneOk, CloneWorld, TakenAll, WithMounts, LoopCost, Price, Taken, Promoted, Popped;
    CloneCount(mem0, w0, mem, w, c, w0.kernel, d, t);
    CloneFrame(mem0, w0, mem, w, c, w0.kernel, d, t);
    KernelCloneWorld(mem0, w0, c);
    TwoTaken(w0, d, t);
  }

  lemma TwoTaken(w: World, d: Frame, t: Frame)
    requires |w.free| >= 2 && d == w.free[|w.free| - 1] && t == w.free[|w.free| - 2]
    requires w.role[d].Free? && w.role[t].Free?
    ensures forall f: Frame, q: PageNum ::
      Promoted(Taken(Popped(w), Table(d, 958)), d).role[f] == Leaf(d, q) <==> w.role[f] == Leaf(d, q)
  {
  }

  lemma KernelCloneWorld(mem0: Memory, w0: World, c: Frame)
    requires |w0.free| >= 2
    ensures var d := w0.free[|w0.free| - 1];
      CloneWorld(mem0, w0, c, w0.kernel) == Promoted(Taken(Popped(w0), Table(d, 958)), d)
  {
    hide WithMounts, CloneRoles, TakenAll;
    var k, d := w0.kernel, w0.free[|w0.free| - 1];
    var mem1 := WithMounts(mem0, w0, c, k, d);
    KernelCostsNothing(mem1, k, d, |mem1[k]|);
    var rs := LoopRoles(mem1, k, k, d) + [Table(d, 958)];
    assert rs == [Table(d, 958)];
    TakenOne(Popped(w0), Table(d, 958));
  }

  lemma TakenOne(w: World, r: Role)
    requires w.free != []
    ensures TakenAll(w, [r]) == Taken(w, r)
  {
    assert [r][..0] == [];
  }

  lemma TwoFrees(w: World, t: Frame, d: Frame)
    requires |w.free| + 2 <= 1024 * |w.storage|
    ensures FreedAll(w, [t, d]).free == w.free + [t, d] && FreedAll(w, [t, d]).storage == w.storage
  {
    assert [t, d][..1] == [t] && [t][..0] == [];
    assert FreedAll(w, []) == w;
    assert FreedAll(w, [t]) == Freed(w, t);
    assert FreedAll(w, [t, d]) == Freed(Freed(w, t), d);
  }

  /** Cloning the reference directory and destroying the copy puts the stack back exactly as it was. */
  lemma KernelCloneThenDestroy(mem0: Memory, w0: World, mem: Memory, w: World, c: Frame, d: Frame, t: Frame)
    requires Inv(mem0, w0) && Active(mem0, w0, c) && CloneOk(mem0, w0, mem, w, c, w0.kernel, d, t)
    requires forall j | 0 <= j < 1023 :: mem0[t][j] == ZERO
    ensures Tree(mem, w, d) && Released(mem, w.kernel, d) == [t, d]
    ensures FreedAll(Retired(w, d), Released(mem, w.kernel, d)).free == w0.free
    ensures FreedAll(Retired(w, d), Released(mem, w.kernel, d)).storage == w0.storage
  {
    hide Inv, Active, CloneOk, Tree, SlotFrames, FreedAll, WithMounts, CloneCost;
    CloneIsTree(mem0, w0, mem, w, c, w0.kernel, d, t);
    CloneFrame(mem0, w0, mem, w, c, w0.kernel, d, t);
    KernelCloneShares(mem0, w0, mem, w, c, d, t);
    WindowTableKept(mem0, w0, mem, w, c, w0.kernel, d, t);
    WindowSlotsGiveBack(mem, w.kernel, d);
    NoSlots(mem, w.kernel, d, TABLE_SLOT);
    StackHolds(mem0, w0);
    TwoFrees(Retired(w, d), t, d);
  }

  lemma {:induction false} NoSlots(mem: Memory, k: Frame, d: Frame, n: nat)
    requires n <= KERNEL_SLOT && forall s | 0 <= s < n :: Skipped(mem, k, d, s)
    ensures SlotFrames(mem, k, d, n) == []
    decreases n
  {
    if n > 0 {
      NoSlots(mem, k, d, n - 1);
    }
  }

  // ------------------------------------------------------------ the mount slots of a clone

  /** A clone satisfies what clone_directory asks of its source, and leaves the other directories as they are. */
  lemma CloneKeepsMounts(mem0: Memory, w0: World, mem: Memory, w: World, c: Frame, src: Frame, d: Frame, t: Frame)
    requires Inv(mem0, w0) && Active(mem0, w0, c) && IsDir(w0, src) && MountsInUse(mem0, w0, src)
    requires CloneOk(mem0, w0, mem, w, c, src, d, t)
    ensures MountsInUse(mem, w, d)
    ensures forall e: Frame | IsDir(w0, e) && MountsInUse(mem0, w0, e) :: MountsInUse(mem, w, e)
  {
    hide Inv, Active, CloneOk, WithMounts, TableCloned;
    CloneFrame(mem0, w0, mem, w, c, src, d, t);
    MountedSame(mem0, w0, c, src, d);
    forall s | TAB_FIRST <= s < TAB_LIMIT && mem[d][s] != ZERO ensures !w.role[mem[d][s].frame].Free? {
      CloneSlotOk(mem0, w0, mem, w, c, src, d, t, s);
    }
  }

  /** The only directory made is the clone itself. */
  lemma CloneMakesOne(mem0: Memory, w0: World, mem: Memory, w: World, c: Frame, src: Frame, d: Frame, t: Frame)
    requires CloneOk(mem0, w0, mem, w, c, src, d, t)
    ensures forall e: Frame | w.role[e] == Directory && e != d :: w0.role[e] == Directory
  {
    hide SlotCloned, WithMounts, LoopCost, TakenAll;
    var mem1 := WithMounts(mem0, w0, c, src, d);
    var rs := LoopRoles(mem1, w0.kernel, src, d) + [Table(d, 958)];
    TakenAllRoles(Popped(w0), rs);
    CloneRolesOnly(mem1, w0.kernel, src, d, |mem1[src]|);
  }

  /** With nothing mounted before, the mounts go to the first two slots of the reference directory if it is active. */
  lemma KernelMounts(mem: Memory, w: World, src: Frame, d: Frame)
    requires Inv(mem, w) && RoomForTwo(mem, w.kernel) && AtRest(mem, w)
    ensures forall s | TAB_FIRST <= s < TAB_LIMIT ::
      WithMounts(mem, w, w.kernel, src, d)[w.kernel][s]
      == if s == TAB_FIRST then Word(src, KERNEL_RW) else if s == TAB_FIRST + 1 then Word(d, KERNEL_RW) else ZERO
  {
    hide Inv, WithMounts, FreeDirPage;
    TwoMounts(mem, w, w.kernel, src, d);
    assert FreeTabSlot(mem, w.kernel, TAB_FIRST) == TAB_FIRST;
    assert FreeTabSlot(mem, w.kernel, TAB_FIRST + 1) == TAB_FIRST + 1;
  }

  /** What the clone has in a mount slot does not outlive what it shows. */
  lemma CloneSlotRests(mem0: Memory, w0: World, mem: Memory, w: World, c: Frame, src: Frame, d: Frame, t: Frame, s: nat)
    requires Inv(mem0, w0) && Active(mem0, w0, c) && IsDir(w0, src) && CloneOk(mem0, w0, mem, w, c, src, d, t)
    requires AtRest(mem0, w0) && RoomForTwo(mem0, c) && TAB_FIRST <= s < TAB_LIMIT
    ensures SlotAtRest(mem, w, d, s)
  {
    hide Inv, Active, CloneOk, WithMounts, TableCloned, RoomForTwo;
    var mem1 := WithMounts(mem0, w0, c, src, d);
    CloneFrame(mem0, w0, mem, w, c, src, d, t);
    CloneSlotOk(mem0, w0, mem, w, c, src, d, t, s);
    MountedSame(mem0, w0, c, src, d);
    if c == w0.kernel {
      KernelMounts(mem0, w0, src, d);
      if src != c {
        assert SlotAtRest(mem0, w0, src, s) && mem1[src] == mem0[src];
      }
    } else {
      assert mem1[w0.kernel] == mem0[w0.kernel];
    }
  }

  /** Cloning a directory leaves all mount slots at rest. */
  lemma CloneKeepsRest(mem0: Memory, w0: World, mem: Memory, w: World, c: Frame, src: Frame, d: Frame, t: Frame)
    requires Inv(mem0, w0) && Active(mem0, w0, c) && IsDir(w0, src) && CloneOk(mem0, w0, mem, w, c, src, d, t)
    requires RoomForTwo(mem0, c)
    ensures RestKept(mem0, w0, mem, w)
  {
    hide Inv, Active, CloneOk, RoomForTwo;
    CloneFrame(mem0, w0, mem, w, c, src, d, t);
    CloneMakesOne(mem0, w0, mem, w, c, src, d, t);
    KernelDirRole(mem0, w0);
    if AtRest(mem0, w0) {
      forall e: Frame, s | w.role[e] == Directory && TAB_FIRST <= s < TAB_LIMIT ensures SlotAtRest(mem, w, e, s) {
        if e == d {
          CloneSlotRests(mem0, w0, mem, w, c, src, d, t, s);
        } else {
          assert SlotAtRest(mem0, w0, e, s) && mem[e] == mem0[e];
        }
      }
    }
  }
}
