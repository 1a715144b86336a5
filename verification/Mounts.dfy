/**
  Mounting a directory into the active space: one page shows the directory frame,
  one 4 MB slot shows its tables.
*/
module Mounts {
  import opened Basics
  import opened Hardware
  import opened Ownership
  import opened Windows

  /** page_directory_mount_t */
  datatype Mount = Mount(directory: Addr, pages: Addr)

  const DIR_FIRST: PageNum := 0xF_F7FB
  const DIR_LIMIT: PageNum := 0xF_F7FF
  const TAB_FIRST := 1012
  const TAB_LIMIT := 1020

  predicate IsMount(m: Mount) {
    && m.directory % PAGE_SIZE == 0 && DIR_FIRST <= PageOf(m.directory) < DIR_LIMIT
    && m.pages % 0x40_0000 == 0 && TAB_FIRST <= DirIdx(m.pages) < TAB_LIMIT
  }

  /** The first page from `p` on, and below the limit, that is free for a directory. */
  function FreeDirPage(mem: Memory, c: Frame, p: PageNum): (r: PageNum)
    requires p <= DIR_LIMIT
    ensures p <= r <= DIR_LIMIT && (r < DIR_LIMIT ==> View(mem, c, r) == ZERO)
    ensures forall q: PageNum | p <= q < r :: View(mem, c, q) != ZERO
    decreases DIR_LIMIT - p
  {
    if p == DIR_LIMIT || View(mem, c, p) == ZERO then p else FreeDirPage(mem, c, p + 1)
  }

  function FreeTabSlot(mem: Memory, c: Frame, s: nat): (r: nat)
    requires s <= TAB_LIMIT
    ensures s <= r <= TAB_LIMIT && (r < TAB_LIMIT ==> mem[c][r] == ZERO)
    ensures forall i | s <= i < r :: mem[c][i] != ZERO
    decreases TAB_LIMIT - s
  {
    if s == TAB_LIMIT || mem[c][s] == ZERO then s else FreeTabSlot(mem, c, s + 1)
  }

  /** Writing `x` into both mount entries. */
  function MountMem(mem: Memory, w: World, c: Frame, m: Mount, x: Word): Memory
    requires IsMount(m)
  {
    Put(Put(mem, Loc(mem[w.kernel][1021].frame, PageOf(m.directory) % 1024), x), Loc(c, DirIdx(m.pages)), x)
  }

  /** Directory `d` is mounted at `m` while `c` is active. */
  predicate Mounted(mem: Memory, w: World, c: Frame, m: Mount, d: Frame) {
    && IsMount(m)
    && mem[mem[w.kernel][1021].frame][PageOf(m.directory) % 1024] == Word(d, KERNEL_RW)
    && mem[c][DirIdx(m.pages)] == Word(d, KERNEL_RW)
  }

  predicate Vacant(mem: Memory, w: World, c: Frame, m: Mount) {
    && IsMount(m)
    && mem[mem[w.kernel][1021].frame][PageOf(m.directory) % 1024] == ZERO
    && mem[c][DirIdx(m.pages)] == ZERO
  }

  lemma KernelTable1021(mem: Memory, w: World, c: Frame)
    requires Inv(mem, w) && Active(mem, w, c)
    ensures Present(mem[c][1021]) && mem[c][1021] == mem[w.kernel][1021]
    ensures w.role[mem[w.kernel][1021].frame] == KernelTable(1021)
    ensures IsDir(w, c) && w.role[w.kernel] == KernelDir
  {
    assert Shared(1021);
    ActiveIsDir(mem, w, c);
  }

  lemma MountInv(mem: Memory, w: World, c: Frame, m: Mount, x: Word)
    requires Inv(mem, w) && Active(mem, w, c) && IsMount(m) && (x == ZERO || Present(x))
    ensures Inv(MountMem(mem, w, c, m, x), w) && Active(MountMem(mem, w, c, m, x), w, c)
    ensures WindowsKept(mem, w, MountMem(mem, w, c, m, x), w)
  {
    hide Inv, SelfMapped, WindowsKept, Active;
    KernelTable1021(mem, w, c);
    var t := mem[w.kernel][1021].frame;
    var mem1 := Put(mem, Loc(t, PageOf(m.directory) % 1024), x);
    PutUnimportant(mem, w, t, PageOf(m.directory) % 1024, x);
    PutUnimportant(mem1, w, c, DirIdx(m.pages), x);
    WindowsKeptTwice(mem, w, mem1, w, MountMem(mem, w, c, m, x), w);
    ActiveKept(mem, w, MountMem(mem, w, c, m, x), w, c);
  }

  lemma MountShows(mem: Memory, w: World, c: Frame, m: Mount, d: Frame)
    requires Inv(mem, w) && Active(mem, w, c) && IsMount(m)
    ensures Mounted(MountMem(mem, w, c, m, Word(d, KERNEL_RW)), w, c, m, d)
  {
    hide Inv, SelfMapped, Active;
    KernelTable1021(mem, w, c);
  }

  /** Unmounting puts back exactly the memory there was before mounting. */
  lemma MountRestores(mem: Memory, w: World, c: Frame, m: Mount, d: Frame)
    requires Inv(mem, w) && Active(mem, w, c) && Vacant(mem, w, c, m)
    ensures MountMem(MountMem(mem, w, c, m, Word(d, KERNEL_RW)), w, c, m, ZERO) == mem
  {
    hide Inv, SelfMapped, Active;
    KernelTable1021(mem, w, c);
    var t, i, s := mem[w.kernel][1021].frame, PageOf(m.directory) % 1024, DirIdx(m.pages);
    var mem1 := MountMem(mem, w, c, m, Word(d, KERNEL_RW));
    var mem2 := MountMem(mem1, w, c, m, ZERO);
    assert mem1[w.kernel][1021] == mem[w.kernel][1021];
    assert mem2[t] == mem[t] && mem2[c] == mem[c];
    assert forall f: Frame :: mem2[f] == mem[f];
  }

  /** Two directories can be mounted at once: there is room for a second after the first. */
  predicate RoomForTwo(mem: Memory, c: Frame) {
    && FreeDirPage(mem, c, DIR_FIRST) < DIR_LIMIT && FreeTabSlot(mem, c, TAB_FIRST) < TAB_LIMIT
    && FreeDirPage(mem, c, FreeDirPage(mem, c, DIR_FIRST) + 1) < DIR_LIMIT
    && FreeTabSlot(mem, c, FreeTabSlot(mem, c, TAB_FIRST) + 1) < TAB_LIMIT
  }

  lemma MountViews(mem: Memory, w: World, c: Frame, m: Mount, d: Frame, p: PageNum)
    requires Inv(mem, w) && Active(mem, w, c) && IsMount(m) && DIR_FIRST <= p < DIR_LIMIT
    ensures View(MountMem(mem, w, c, m, Word(d, KERNEL_RW)), c, p)
         == if p == PageOf(m.directory) then Word(d, KERNEL_RW) else View(mem, c, p)
  {
    KernelTable1021(mem, w, c);
    hide Inv, SelfMapped, Active;
  }

  lemma {:induction false} NextDirPage(mem: Memory, mem': Memory, c: Frame, p: PageNum, q: PageNum)
    requires DIR_FIRST <= p <= q < DIR_LIMIT && q == FreeDirPage(mem, c, p) && View(mem', c, q) != ZERO
    requires forall r: PageNum | DIR_FIRST <= r < DIR_LIMIT && r != q :: View(mem', c, r) == View(mem, c, r)
    ensures FreeDirPage(mem', c, p) == FreeDirPage(mem, c, q + 1)
    decreases q - p
  {
    hide View;
    if p < q {
      NextDirPage(mem, mem', c, p + 1, q);
    } else {
      SameDirPages(mem, mem', c, q + 1);
    }
  }

  lemma {:induction false} SameDirPages(mem: Memory, mem': Memory, c: Frame, p: PageNum)
    requires p <= DIR_LIMIT && forall r: PageNum | p <= r < DIR_LIMIT :: View(mem', c, r) == View(mem, c, r)
    ensures FreeDirPage(mem', c, p) == FreeDirPage(mem, c, p)
    decreases DIR_LIMIT - p
  {
    hide View;
    if p < DIR_LIMIT {
      SameDirPages(mem, mem', c, p + 1);
    }
  }

  lemma {:induction false} NextTabSlot(mem: Memory, mem': Memory, c: Frame, s: nat, q: nat)
    requires TAB_FIRST <= s <= q < TAB_LIMIT && q == FreeTabSlot(mem, c, s) && mem'[c][q] != ZERO
    requires forall r | TAB_FIRST <= r < TAB_LIMIT && r != q :: mem'[c][r] == mem[c][r]
    ensures FreeTabSlot(mem', c, s) == FreeTabSlot(mem, c, q + 1)
    decreases q - s
  {
    if s < q {
      NextTabSlot(mem, mem', c, s + 1, q);
    } else {
      SameTabSlots(mem, mem', c, q + 1);
    }
  }

  lemma {:induction false} SameTabSlots(mem: Memory, mem': Memory, c: Frame, s: nat)
    requires s <= TAB_LIMIT && forall r | s <= r < TAB_LIMIT :: mem'[c][r] == mem[c][r]
    ensures FreeTabSlot(mem', c, s) == FreeTabSlot(mem, c, s)
    decreases TAB_LIMIT - s
  {
    if s < TAB_LIMIT {
      SameTabSlots(mem, mem', c, s + 1);
    }
  }

  /** The second mount point is the next free one after the first. */
  lemma SecondMount(mem: Memory, w: World, c: Frame, m: Mount, d: Frame)
    requires Inv(mem, w) && Active(mem, w, c) && IsMount(m)
    requires PageOf(m.directory) == FreeDirPage(mem, c, DIR_FIRST) && DirIdx(m.pages) == FreeTabSlot(mem, c, TAB_FIRST)
    ensures var mem' := MountMem(mem, w, c, m, Word(d, KERNEL_RW));
      RoomForTwo(mem, c) <==> FreeDirPage(mem', c, DIR_FIRST) < DIR_LIMIT && FreeTabSlot(mem', c, TAB_FIRST) < TAB_LIMIT
  {
    hide Inv, SelfMapped, Active, View, FreeDirPage, FreeTabSlot;
    var mem' := MountMem(mem, w, c, m, Word(d, KERNEL_RW));
    forall p: PageNum | DIR_FIRST <= p < DIR_LIMIT
      ensures View(mem', c, p) == if p == PageOf(m.directory) then Word(d, KERNEL_RW) else View(mem, c, p)
    {
      MountViews(mem, w, c, m, d, p);
    }
    KernelTable1021(mem, w, c);
    NextDirPage(mem, mem', c, DIR_FIRST, PageOf(m.directory));
    NextTabSlot(mem, mem', c, TAB_FIRST, DirIdx(m.pages));
  }

  lemma MountedDirectory(mem: Memory, w: World, c: Frame, m: Mount, d: Frame, i: nat)
    requires Inv(mem, w) && Active(mem, w, c) && Mounted(mem, w, c, m, d) && i < 1024
    ensures m.directory + 4 * i < 0x1_0000_0000
    ensures Walk(mem, c, m.directory + 4 * i) == Some(Loc(d, i))
  {
    hide Inv, SelfMapped, Active;
    KernelTable1021(mem, w, c);
    PageWalk(mem, c, PageOf(m.directory), i);
  }

  lemma MountedTables(mem: Memory, w: World, c: Frame, m: Mount, d: Frame, n: PageNum)
    requires Mounted(mem, w, c, m, d) && Present(mem[d][n / 1024])
    ensures m.pages + 4 * n < 0x1_0000_0000
    ensures Walk(mem, c, m.pages + 4 * n) == Some(Loc(mem[d][n / 1024].frame, n % 1024))
  {
    WindowWalk(mem, c, DirIdx(m.pages), n);
  }

  // ------------------------------------------------------------ while nothing is mounted

  /** What a mount slot of a directory other than the reference directory holds then. */
  predicate SlotAtRest(mem: Memory, w: World, e: Frame, s: nat)
    requires s < 1024
  {
    || mem[e][s] == ZERO
    || w.role[mem[e][s].frame] == Table(e, s)
    || mem[e][s].frame == w.kernel
    || (mem[e][s].frame == e && s != TAB_FIRST)
  }

  /**
    Holds whenever none of the functions that mount a directory is under way: the mount
    slots of the reference directory are empty, and those of any other directory hold
    nothing that could be freed while the directory lives.
  */
  ghost predicate AtRest(mem: Memory, w: World) {
    && (forall s | TAB_FIRST <= s < TAB_LIMIT :: mem[w.kernel][s] == ZERO)
    && (forall e: Frame, s | w.role[e] == Directory && TAB_FIRST <= s < TAB_LIMIT :: SlotAtRest(mem, w, e, s))
  }

  ghost predicate RestKept(mem: Memory, w: World, mem': Memory, w': World) {
    AtRest(mem, w) ==> AtRest(mem', w')
  }

  /** What the mount slots of a directory show, if anything, is in use. */
  ghost predicate MountsInUse(mem: Memory, w: World, src: Frame) {
    forall s | TAB_FIRST <= s < TAB_LIMIT && mem[src][s] != ZERO :: !w.role[mem[src][s].frame].Free?
  }

  lemma AtRestInUse(mem: Memory, w: World, e: Frame)
    requires AtRest(mem, w) && IsDir(w, e) && w.role[w.kernel] == KernelDir
    ensures MountsInUse(mem, w, e)
  {
    forall s | TAB_FIRST <= s < TAB_LIMIT && mem[e][s] != ZERO ensures !w.role[mem[e][s].frame].Free? {
      assert e != w.kernel ==> SlotAtRest(mem, w, e, s);
    }
  }
}
