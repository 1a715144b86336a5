/**
  What destroy_directory gives back, and why it gives back each frame once and
  never reads a table it has already freed.
*/
module Teardown {
  import opened Hardware
  import opened Ownership
  import opened Windows
  import opened Ranges
  import opened Mounts

  const SELF_PAGE: PageNum := 0xE_FBFF
  const SELF_SLOT := 959
  const KERNEL_SLOT := 960

  /** The frames mapped by the first `n` entries of the table `t` of slot `i`. */
  function LeafFrames(mem: Memory, t: Frame, i: nat, n: nat): seq<Frame>
    requires n <= 1024
  {
    if n == 0 then [] else
    LeafFrames(mem, t, i, n - 1)
    + if mem[t][n - 1] == ZERO || 1024 * i + n - 1 == SELF_PAGE then [] else [mem[t][n - 1].frame]
  }

  function TableLeaves(mem: Memory, t: Frame, i: nat): seq<Frame> {
    LeafFrames(mem, t, i, |mem[t]|)
  }

  predicate Skipped(mem: Memory, k: Frame, d: Frame, i: nat)
    requires i < 1024
  {
    mem[d][i] == ZERO || mem[d][i] == mem[k][i] || i == SELF_SLOT
  }

  /** The frames of the first `n` slots: for each private slot its leaves, then its table. */
  function SlotFrames(mem: Memory, k: Frame, d: Frame, n: nat): seq<Frame>
    requires n <= KERNEL_SLOT
  {
    if n == 0 then [] else
    SlotFrames(mem, k, d, n - 1)
    + if Skipped(mem, k, d, n - 1) then []
      else TableLeaves(mem, mem[d][n - 1].frame, n - 1) + [mem[d][n - 1].frame]
  }

  function Released(mem: Memory, k: Frame, d: Frame): seq<Frame> {
    SlotFrames(mem, k, d, KERNEL_SLOT) + [d]
  }

  /** Every page mapped by a private table of `d` has a frame of its own. */
  ghost predicate Tree(mem: Memory, w: World, d: Frame) {
    forall i, j | 0 <= i < KERNEL_SLOT && 0 <= j < 1024 && !Skipped(mem, w.kernel, d, i)
                  && 1024 * i + j != SELF_PAGE ::
      mem[mem[d][i].frame][j] == ZERO || w.role[mem[mem[d][i].frame][j].frame] == Leaf(d, 1024 * i + j)
  }

  function Retired(w: World, d: Frame): World {
    w.(role := w.role[d := Dying])
  }

  // ------------------------------------------------------------ order of the frees

  /** Frames come in the order of their pages, a table right after its last page. */
  function Rank(r: Role): nat {
    match r
    case Leaf(_, page) => 1025 * (page / 1024) + page % 1024
    case Table(_, slot) => 1025 * slot + 1024
    case _ => 1025 * KERNEL_SLOT
  }

  /** Strictly ascending, hence without repetition, and all of them may be freed. */
  ghost predicate Ascending(w: World, fs: seq<Frame>, bound: nat) {
    && (forall a | 0 <= a < |fs| :: Freeable(w, fs[a]) && Rank(w.role[fs[a]]) < bound)
    && (forall a, b | 0 <= a < b < |fs| :: Rank(w.role[fs[a]]) < Rank(w.role[fs[b]]))
  }

  lemma AscendingAppend(w: World, fs: seq<Frame>, f: Frame, bound: nat, bound': nat)
    requires Ascending(w, fs, bound) && Freeable(w, f)
    requires bound <= Rank(w.role[f]) < bound'
    ensures Ascending(w, fs + [f], bound') && f !in fs
  {
  }

  lemma AscendingWiden(w: World, fs: seq<Frame>, bound: nat, bound': nat)
    requires Ascending(w, fs, bound) && bound <= bound'
    ensures Ascending(w, fs, bound')
  {
  }

  /** The state in which the teardown runs: `d` is no longer anybody's directory. */
  ghost predicate Doomed(mem: Memory, w: World, d: Frame) {
    && w.role[d] == Dying
    && (forall i | 0 <= i < KERNEL_SLOT && !Skipped(mem, w.kernel, d, i) ::
         Present(mem[d][i]) && w.role[mem[d][i].frame] == Table(d, i))
    && Tree(mem, w, d)
    && d != w.kernel
  }

  lemma DoomedLeaf(mem: Memory, w: World, d: Frame, i: nat, j: nat)
    requires Doomed(mem, w, d) && i < KERNEL_SLOT && j < 1024 && !Skipped(mem, w.kernel, d, i)
    requires mem[mem[d][i].frame][j] != ZERO && 1024 * i + j != SELF_PAGE
    ensures Freeable(w, mem[mem[d][i].frame][j].frame)
    ensures Rank(w.role[mem[mem[d][i].frame][j].frame]) == 1025 * i + j
  {
  }

  lemma DoomedTable(mem: Memory, w: World, d: Frame, i: nat)
    requires Doomed(mem, w, d) && i < KERNEL_SLOT && !Skipped(mem, w.kernel, d, i)
    ensures Freeable(w, mem[d][i].frame)
    ensures Rank(w.role[mem[d][i].frame]) == 1025 * i + 1024
    ensures Present(mem[d][i])
  {
  }

  lemma {:induction false} LeavesAscend(mem: Memory, w: World, d: Frame, i: nat, fs: seq<Frame>, n: nat)
    requires Doomed(mem, w, d) && i < KERNEL_SLOT && n <= 1024
    requires !Skipped(mem, w.kernel, d, i) && Ascending(w, fs, 1025 * i)
    ensures Ascending(w, fs + LeafFrames(mem, mem[d][i].frame, i, n), 1025 * i + n)
    decreases n
  {
    hide Doomed, Skipped, Ascending, Freeable, Rank;
    var t := mem[d][i].frame;
    if n == 0 {
      assert fs + [] == fs;
    } else {
      LeavesAscend(mem, w, d, i, fs, n - 1);
      var gs := fs + LeafFrames(mem, t, i, n - 1);
      if mem[t][n - 1] == ZERO || 1024 * i + n - 1 == SELF_PAGE {
        assert fs + LeafFrames(mem, t, i, n) == gs;
        AscendingWiden(w, gs, 1025 * i + n - 1, 1025 * i + n);
      } else {
        assert fs + LeafFrames(mem, t, i, n) == gs + [mem[t][n - 1].frame];
        DoomedLeaf(mem, w, d, i, n - 1);
        AscendingAppend(w, gs, mem[t][n - 1].frame, 1025 * i + n - 1, 1025 * i + n);
      }
    }
  }

  lemma {:induction false} SlotsAscend(mem: Memory, w: World, d: Frame, n: nat)
    requires Doomed(mem, w, d) && n <= KERNEL_SLOT
    ensures Ascending(w, SlotFrames(mem, w.kernel, d, n), 1025 * n)
    decreases n
  {
    if n > 0 {
      SlotsAscend(mem, w, d, n - 1);
      hide Doomed, Skipped, Ascending, Freeable, Rank, LeafFrames;
      var fs := SlotFrames(mem, w.kernel, d, n - 1);
      if Skipped(mem, w.kernel, d, n - 1) {
        assert SlotFrames(mem, w.kernel, d, n) == fs;
        AscendingWiden(w, fs, 1025 * (n - 1), 1025 * n);
      } else {
        var t := mem[d][n - 1].frame;
        var ls := TableLeaves(mem, t, n - 1);
        LeavesAscend(mem, w, d, n - 1, fs, |mem[t]|);
        assert SlotFrames(mem, w.kernel, d, n) == fs + ls + [t];
        DoomedTable(mem, w, d, n - 1);
        AscendingAppend(w, fs + ls, t, 1025 * (n - 1) + 1024, 1025 * n);
      }
    }
  }

  /** The whole list is without repetition: each frame is given back exactly once. */
  lemma ReleasedOnce(mem: Memory, w: World, d: Frame)
    requires Doomed(mem, w, d)
    ensures Ascending(w, Released(mem, w.kernel, d), 1025 * KERNEL_SLOT + 1)
    ensures forall a, b | 0 <= a < b < |Released(mem, w.kernel, d)| ::
      Released(mem, w.kernel, d)[a] != Released(mem, w.kernel, d)[b]
  {
    SlotsAscend(mem, w, d, KERNEL_SLOT);
    AscendingAppend(w, SlotFrames(mem, w.kernel, d, KERNEL_SLOT), d, 1025 * KERNEL_SLOT, 1025 * KERNEL_SLOT + 1);
  }

  // ------------------------------------------------------------ what the frees leave alone

  function FreedAllMem(mem: Memory, w: World, fs: seq<Frame>): Memory
    decreases |fs|
  {
    if fs == [] then mem
    else FreedMem(FreedAllMem(mem, w, fs[..|fs| - 1]), FreedAll(w, fs[..|fs| - 1]), fs[|fs| - 1])
  }

  /** A run of frees touches roles of the freed frames only, and memory of the PMM stack only. */
  ghost predicate Untouched(mem: Memory, w: World, mem': Memory, w': World, fs: seq<Frame>) {
    && w'.kernel == w.kernel && w'.base == w.base
    && (forall g: Frame | g !in fs :: w'.role[g] == w.role[g])
    && (forall g: Frame | g in fs :: !w.role[g].KernelTable? && (w'.role[g].Free? || w'.role[g].Storage?))
    && (forall g: Frame | g !in fs && !w.role[g].KernelTable? && !w.role[g].Storage? :: mem'[g] == mem[g])
    && (forall g: Frame, j | w.role[g].KernelTable? && 0 <= j < 1024
          && !(w.role[g].slot == 1021 && j == 1023) && !(w.role[g].slot == 1022 && j < 1023) :: mem'[g][j] == mem[g][j])
  }

  lemma FreeOneUntouched(mem: Memory, w: World, f: Frame)
    requires Inv(mem, w) && Freeable(w, f)
    ensures Untouched(mem, w, FreedMem(mem, w, f), Freed(w, f), [f])
  {
    StackHolds(mem, w);
    if Full(w) {
      StackHasRoom(mem, w, f);
      StackSlot(mem, w, |w.storage|);
    }
    hide Inv;
  }

  lemma StackHolds(mem: Memory, w: World)
    requires Inv(mem, w)
    ensures |w.storage| < STACK_PAGES && |w.free| <= 1024 * |w.storage|
    ensures forall s | 0 <= s < |w.storage| :: w.role[w.storage[s]] == Storage(s)
    ensures w.role[w.kernel] == KernelDir
  {
  }

  lemma UntouchedTwice(mem: Memory, w: World, mem1: Memory, w1: World, mem2: Memory, w2: World,
                       fs: seq<Frame>, f: Frame)
    requires Untouched(mem, w, mem1, w1, fs) && Untouched(mem1, w1, mem2, w2, [f]) && f !in fs
    ensures Untouched(mem, w, mem2, w2, fs + [f])
  {
  }

  lemma StillFreeable(mem: Memory, w: World, mem': Memory, w': World, fs: seq<Frame>, f: Frame)
    requires Untouched(mem, w, mem', w', fs) && f !in fs && Freeable(w, f)
    ensures Freeable(w', f)
  {
  }

  /** Frames that may be freed, none of them twice. */
  ghost predicate EachOnce(w: World, fs: seq<Frame>) {
    && (forall a | 0 <= a < |fs| :: Freeable(w, fs[a]))
    && (forall a, b | 0 <= a < b < |fs| :: fs[a] != fs[b])
  }

  /** Freeing them keeps everything the rest of the kernel relies on. */
  lemma {:induction false} FreesKeep(mem: Memory, w: World, fs: seq<Frame>)
    requires Inv(mem, w) && EachOnce(w, fs)
    ensures Inv(FreedAllMem(mem, w, fs), FreedAll(w, fs))
    ensures Untouched(mem, w, FreedAllMem(mem, w, fs), FreedAll(w, fs), fs)
    ensures WindowsKept(mem, w, FreedAllMem(mem, w, fs), FreedAll(w, fs))
    ensures |FreedAll(w, fs).storage| + |FreedAll(w, fs).free| == |w.storage| + |w.free| + |fs|
    decreases |fs|
  {
    hide Inv, WindowsKept, EachOnce, Untouched, Freeable, FreedMem;
    if fs == [] {
      WindowsKeptTwiceSame(mem, w);
      UntouchedNone(mem, w);
    } else {
      var n := |fs| - 1;
      var mem1, w1 := FreedAllMem(mem, w, fs[..n]), FreedAll(w, fs[..n]);
      EachOnceLast(w, fs);
      assert fs == fs[..n] + [fs[n]];
      FreesKeep(mem, w, fs[..n]);
      StillFreeable(mem, w, mem1, w1, fs[..n], fs[n]);
      FreeInv(mem1, w1, fs[n]);
      FreeOneUntouched(mem1, w1, fs[n]);
      UntouchedTwice(mem, w, mem1, w1, FreedAllMem(mem, w, fs), FreedAll(w, fs), fs[..n], fs[n]);
      WindowsKeptTwice(mem, w, mem1, w1, FreedAllMem(mem, w, fs), FreedAll(w, fs));
    }
  }

  lemma EachOnceLast(w: World, fs: seq<Frame>)
    requires EachOnce(w, fs) && fs != []
    ensures EachOnce(w, fs[..|fs| - 1]) && fs[|fs| - 1] !in fs[..|fs| - 1] && Freeable(w, fs[|fs| - 1])
  {
    hide Freeable;
  }

  lemma AscendingOnce(w: World, fs: seq<Frame>, bound: nat)
    requires Ascending(w, fs, bound)
    ensures EachOnce(w, fs)
  {
    hide Freeable, Rank;
  }

  lemma UntouchedNone(mem: Memory, w: World)
    ensures Untouched(mem, w, mem, w, [])
  {
  }

  lemma WindowsKeptTwiceSame(mem: Memory, w: World)
    ensures WindowsKept(mem, w, mem, w)
  {
  }

  /** Frames outside `fs` keep their contents, but for the tables of the kernel half and the PMM stack. */
  ghost predicate ContentsKept(mem: Memory, w: World, mem': Memory, fs: seq<Frame>) {
    forall f: Frame | f !in fs && !w.role[f].KernelTable? && !w.role[f].Storage? :: mem'[f] == mem[f]
  }

  /** ... and their owner. */
  ghost predicate OwnersKept(w: World, w': World, fs: seq<Frame>) {
    w'.kernel == w.kernel && forall f: Frame | f !in fs :: w'.role[f] == w.role[f]
  }

  lemma UntouchedContents(mem: Memory, w: World, mem': Memory, w': World, fs: seq<Frame>)
    requires Untouched(mem, w, mem', w', fs)
    ensures ContentsKept(mem, w, mem', fs) && OwnersKept(w, w', fs)
  {
  }

  lemma ContentsKeptTwice(mem: Memory, w: World, mem1: Memory, w1: World, mem2: Memory, fs: seq<Frame>, gs: seq<Frame>)
    requires ContentsKept(mem, w, mem1, fs) && OwnersKept(w, w1, fs) && ContentsKept(mem1, w1, mem2, gs)
    ensures ContentsKept(mem, w, mem2, fs + gs)
  {
  }

  lemma {:induction false} FreedAllOwners(w: World, fs: seq<Frame>)
    ensures OwnersKept(w, FreedAll(w, fs), fs)
    decreases |fs|
  {
    if fs != [] {
      FreedAllOwners(w, fs[..|fs| - 1]);
    }
  }

  // ------------------------------------------------------------ the run of destroy_directory

  lemma Doom(mem: Memory, w: World, d: Frame)
    requires Inv(mem, w) && w.role[d] == Directory && Tree(mem, w, d)
    ensures Inv(mem, Retired(w, d)) && Doomed(mem, Retired(w, d), d)
    ensures forall e: Frame :: w.role[e] == Directory && e != d ==>
      Retired(w, d).role[e] == Directory && SelfMapped(mem, Retired(w, d), e) == SelfMapped(mem, w, e)
  {
    RetireDirectory(mem, w, d);
    DirTables(mem, w, d);
    hide Inv;
  }

  lemma DirTables(mem: Memory, w: World, d: Frame)
    requires Inv(mem, w) && w.role[d] == Directory
    ensures w.role[w.kernel] == KernelDir
    ensures forall i | 0 <= i < KERNEL_SLOT && !Skipped(mem, w.kernel, d, i) ::
      Present(mem[d][i]) && w.role[mem[d][i].frame] == Table(d, i)
  {
    assert DirOk(mem, w, d);
    assert forall i | 0 <= i < KERNEL_SLOT && i != SELF_SLOT :: Shared(i) || Private(i);
  }

  lemma {:induction false} SlotFramesSame(mem: Memory, mem': Memory, k: Frame, d: Frame, n: nat)
    requires n <= KERNEL_SLOT
    requires forall i | 0 <= i < KERNEL_SLOT :: mem'[d][i] == mem[d][i] && mem'[k][i] == mem[k][i]
    requires forall i | 0 <= i < KERNEL_SLOT && !Skipped(mem, k, d, i) ::
      mem'[mem[d][i].frame] == mem[mem[d][i].frame]
    ensures SlotFrames(mem', k, d, n) == SlotFrames(mem, k, d, n)
    decreases n
  {
    if n > 0 {
      SlotFramesSame(mem, mem', k, d, n - 1);
      if !Skipped(mem, k, d, n - 1) {
        LeafFramesSame(mem, mem', mem[d][n - 1].frame, n - 1, |mem[mem[d][n - 1].frame]|);
      }
    }
  }

  lemma {:induction false} LeafFramesSame(mem: Memory, mem': Memory, t: Frame, i: nat, n: nat)
    requires n <= 1024 && mem'[t] == mem[t]
    ensures LeafFrames(mem', t, i, n) == LeafFrames(mem, t, i, n)
    decreases n
  {
    if n > 0 {
      LeafFramesSame(mem, mem', t, i, n - 1);
    }
  }

  /** Mounting `d` elsewhere changes nothing that will be given back. */
  lemma MountKeepsTree(mem: Memory, w: World, c: Frame, m: Mount, d: Frame)
    requires Inv(mem, w) && Active(mem, w, c) && IsMount(m) && w.role[d] == Directory && d != c
    requires Tree(mem, w, d)
    ensures Tree(MountMem(mem, w, c, m, Word(d, KERNEL_RW)), w, d)
    ensures Released(MountMem(mem, w, c, m, Word(d, KERNEL_RW)), w.kernel, d) == Released(mem, w.kernel, d)
  {
    hide Inv, SelfMapped, Active, SlotFrames;
    KernelTable1021(mem, w, c);
    DirTables(mem, w, d);
    var mem' := MountMem(mem, w, c, m, Word(d, KERNEL_RW));
    assert mem'[d] == mem[d];
    assert forall i | 0 <= i < KERNEL_SLOT :: mem'[w.kernel][i] == mem[w.kernel][i];
    SlotFramesSame(mem, mem', w.kernel, d, KERNEL_SLOT);
  }

  /** After some of the frees, the windows in use and everything not yet freed are as before. */
  lemma Intact(mem: Memory, w: World, c: Frame, m: Mount, d: Frame, fs: seq<Frame>)
    requires Inv(mem, w) && Active(mem, w, c) && Mounted(mem, w, c, m, d) && Doomed(mem, w, d)
    requires Ascending(w, fs, 1025 * KERNEL_SLOT)
    ensures var mem', w' := FreedAllMem(mem, w, fs), FreedAll(w, fs);
      && Inv(mem', w') && Active(mem', w', c) && Mounted(mem', w', c, m, d)
      && mem'[d] == mem[d] && mem'[w.kernel] == mem[w.kernel]
      && w'.kernel == w.kernel && w'.base == w.base
      && forall t: Frame | w.role[t].Table? && t !in fs :: mem'[t] == mem[t]
  {
    hide Inv, SelfMapped, FreedAllMem, FreedAll, WindowsKept;
    AscendingOnce(w, fs, 1025 * KERNEL_SLOT);
    FreesKeep(mem, w, fs);
    KernelTable1021(mem, w, c);
    ActiveKept(mem, w, FreedAllMem(mem, w, fs), FreedAll(w, fs), c);
    assert w.kernel !in fs && d !in fs && c !in fs && mem[w.kernel][1021].frame !in fs;
  }

  /** What destroy_directory gives back belongs to the directory destroyed. */
  ghost predicate OwnedBy(w: World, f: Frame, d: Frame) {
    f == d || (w.role[f].Leaf? && w.role[f].dir == d) || (w.role[f].Table? && w.role[f].dir == d)
  }

  lemma {:induction false} LeavesOwned(mem: Memory, w: World, d: Frame, i: nat, n: nat)
    requires Tree(mem, w, d) && i < KERNEL_SLOT && n <= 1024 && !Skipped(mem, w.kernel, d, i)
    ensures forall f | f in LeafFrames(mem, mem[d][i].frame, i, n) :: OwnedBy(w, f, d)
    decreases n
  {
    if n > 0 {
      LeavesOwned(mem, w, d, i, n - 1);
    }
  }

  lemma {:induction false} SlotsOwned(mem: Memory, w: World, d: Frame, n: nat)
    requires Inv(mem, w) && w.role[d] == Directory && Tree(mem, w, d) && n <= KERNEL_SLOT
    ensures forall f | f in SlotFrames(mem, w.kernel, d, n) :: OwnedBy(w, f, d)
    decreases n
  {
    if n > 0 {
      SlotsOwned(mem, w, d, n - 1);
      DirTables(mem, w, d);
      hide Inv, Tree, LeafFrames, OwnedBy;
      if !Skipped(mem, w.kernel, d, n - 1) {
        LeavesOwned(mem, w, d, n - 1, |mem[mem[d][n - 1].frame]|);
        TableOwned(mem, w, d, n - 1);
      }
    }
  }

  lemma TableOwned(mem: Memory, w: World, d: Frame, i: nat)
    requires i < KERNEL_SLOT && w.role[mem[d][i].frame] == Table(d, i)
    ensures OwnedBy(w, mem[d][i].frame, d)
  {
  }

  /** What is true of everyone else after `d` has been destroyed. */
  ghost predicate TornDown(mem: Memory, w: World, mem': Memory, w': World, d: Frame) {
    && |w'.storage| + |w'.free| == |w.storage| + |w.free| + |Released(mem, w.kernel, d)|
    && (forall f: Frame | f in Released(mem, w.kernel, d) :: w'.role[f].Free? || w'.role[f].Storage?)
    && OwnersKept(w, w', Released(mem, w.kernel, d))
    && ContentsKept(mem, w, mem', Released(mem, w.kernel, d))
    && (forall e: Frame, q: PageNum | IsDir(w, e) && e != d && Ordinary(q) && !StackRegion(q) ::
         View(mem', e, q) == View(mem, e, q))
  }

  // ------------------------------------------------------------ what is given back, in words of memory

  /** Frame `f` is on the PMM stack or holds part of it. */
  predicate Returned(w: World, f: Frame) {
    w.role[f].Free? || w.role[f].Storage?
  }

  /**
    After the destruction of `d`: the directory has been given back, every table of the user half
    that it does not share, but for its window on its own tables, and every page such a table
    maps, but for the window on the directory itself.
  */
  ghost predicate GivenBack(mem: Memory, w: World, w': World, d: Frame) {
    && Returned(w', d)
    && (forall i | 0 <= i < 960 && i != 959 && mem[d][i] != ZERO && mem[d][i] != mem[w.kernel][i] ::
         Returned(w', mem[d][i].frame))
    && (forall i, j | 0 <= i < 960 && i != 959 && mem[d][i] != ZERO && mem[d][i] != mem[w.kernel][i]
                      && 0 <= j < 1024 && 1024 * i + j != 0xE_FBFF && mem[mem[d][i].frame][j] != ZERO ::
         Returned(w', mem[mem[d][i].frame][j].frame))
  }

  /** ... and no other frame has changed hands. */
  ghost predicate NoOthers(mem: Memory, w: World, w': World, d: Frame) {
    forall f: Frame | w'.role[f] != w.role[f] :: Part(mem, w.kernel, d, f)
  }

  ghost predicate Part(mem: Memory, k: Frame, d: Frame, f: Frame) {
    || f == d
    || (exists i :: 0 <= i < 960 && i != 959 && mem[d][i] != ZERO && mem[d][i] != mem[k][i] && mem[d][i].frame == f)
    || (exists i, j :: 0 <= i < 960 && i != 959 && mem[d][i] != ZERO && mem[d][i] != mem[k][i]
                       && 0 <= j < 1024 && 1024 * i + j != 0xE_FBFF
                       && mem[mem[d][i].frame][j] != ZERO && mem[mem[d][i].frame][j].frame == f)
  }

  lemma {:induction false} LeafReleased(mem: Memory, t: Frame, i: nat, n: nat, j: nat)
    requires j < n <= 1024 && mem[t][j] != ZERO && 1024 * i + j != 0xE_FBFF
    ensures mem[t][j].frame in LeafFrames(mem, t, i, n)
    decreases n
  {
    if j < n - 1 {
      LeafReleased(mem, t, i, n - 1, j);
    }
  }

  lemma {:induction false} SlotReleased(mem: Memory, k: Frame, d: Frame, n: nat, i: nat)
    requires i < n <= 960 && i != 959 && mem[d][i] != ZERO && mem[d][i] != mem[k][i]
    ensures mem[d][i].frame in SlotFrames(mem, k, d, n)
    ensures forall j | 0 <= j < 1024 && 1024 * i + j != 0xE_FBFF && mem[mem[d][i].frame][j] != ZERO ::
      mem[mem[d][i].frame][j].frame in SlotFrames(mem, k, d, n)
    decreases n
  {
    if i < n - 1 {
      SlotReleased(mem, k, d, n - 1, i);
    } else {
      var t := mem[d][i].frame;
      forall j | 0 <= j < 1024 && 1024 * i + j != 0xE_FBFF && mem[t][j] != ZERO
        ensures mem[t][j].frame in TableLeaves(mem, t, i)
      {
        LeafReleased(mem, t, i, |mem[t]|, j);
      }
    }
  }

  lemma {:induction false} LeavesPart(mem: Memory, k: Frame, d: Frame, i: nat, n: nat)
    requires i < 960 && i != 959 && mem[d][i] != ZERO && mem[d][i] != mem[k][i] && n <= 1024
    ensures forall f | f in LeafFrames(mem, mem[d][i].frame, i, n) :: Part(mem, k, d, f)
    decreases n
  {
    if n > 0 {
      LeavesPart(mem, k, d, i, n - 1);
      var x := mem[mem[d][i].frame][n - 1];
      if x != ZERO && 1024 * i + n - 1 != 0xE_FBFF {
        PagePart(mem, k, d, i, n - 1);
      }
      hide Part;
    }
  }

  lemma PagePart(mem: Memory, k: Frame, d: Frame, i: nat, j: nat)
    requires i < 960 && i != 959 && mem[d][i] != ZERO && mem[d][i] != mem[k][i]
    requires j < 1024 && 1024 * i + j != 0xE_FBFF && mem[mem[d][i].frame][j] != ZERO
    ensures Part(mem, k, d, mem[mem[d][i].frame][j].frame)
  {
  }

  lemma TablePart(mem: Memory, k: Frame, d: Frame, i: nat)
    requires i < 960 && i != 959 && mem[d][i] != ZERO && mem[d][i] != mem[k][i]
    ensures Part(mem, k, d, mem[d][i].frame)
  {
  }

  lemma {:induction false} SlotsPart(mem: Memory, k: Frame, d: Frame, n: nat)
    requires n <= 960
    ensures forall f | f in SlotFrames(mem, k, d, n) :: Part(mem, k, d, f)
    decreases n
  {
    if n > 0 {
      hide Part, LeafFrames;
      SlotsPart(mem, k, d, n - 1);
      if !Skipped(mem, k, d, n - 1) {
        LeavesPart(mem, k, d, n - 1, |mem[mem[d][n - 1].frame]|);
        TablePart(mem, k, d, n - 1);
      }
    }
  }

  /** What destroy_directory gives back is all that is the directory's own, and nothing else. */
  lemma OwnIsGivenBack(mem: Memory, w: World, mem': Memory, w': World, d: Frame)
    requires TornDown(mem, w, mem', w', d)
    ensures GivenBack(mem, w, w', d) && NoOthers(mem, w, w', d)
  {
    hide ContentsKept, View, SlotFrames, Part;
    SlotsPart(mem, w.kernel, d, 960);
    DirectoryPart(mem, w.kernel, d);
    forall i | 0 <= i < 960 && i != 959 && mem[d][i] != ZERO && mem[d][i] != mem[w.kernel][i]
      ensures Returned(w', mem[d][i].frame)
      ensures forall j | 0 <= j < 1024 && 1024 * i + j != 0xE_FBFF && mem[mem[d][i].frame][j] != ZERO ::
        Returned(w', mem[mem[d][i].frame][j].frame)
    {
      SlotReleased(mem, w.kernel, d, 960, i);
    }
  }

  lemma DirectoryPart(mem: Memory, k: Frame, d: Frame)
    ensures Part(mem, k, d, d)
  {
  }

  // ------------------------------------------------------------ what keeps the mount slots at rest

  /** No directory that stays, and no table of one, is among the frames `fs`. */
  ghost predicate Strangers(w: World, w': World, fs: seq<Frame>) {
    && w.kernel !in fs && w.role[w.kernel] == KernelDir
    && (forall e: Frame | w'.role[e] == Directory :: e !in fs)
    && (forall f: Frame | f in fs && w.role[f].Table? :: !IsDir(w', w.role[f].dir))
  }

  lemma RestAside(mem: Memory, w: World, mem': Memory, w': World, fs: seq<Frame>)
    requires ContentsKept(mem, w, mem', fs) && OwnersKept(w, w', fs) && Strangers(w, w', fs)
    ensures RestKept(mem, w, mem', w')
  {
    if AtRest(mem, w) {
      forall e: Frame, s | w'.role[e] == Directory && TAB_FIRST <= s < TAB_LIMIT ensures SlotAtRest(mem', w', e, s) {
        assert SlotAtRest(mem, w, e, s) && mem'[e] == mem[e];
      }
    }
  }

  lemma PopKeepsRest(mem: Memory, w: World)
    requires Inv(mem, w) && w.free != []
    ensures RestKept(mem, w, mem, Popped(w))
  {
    KernelRole(mem, w);
    FreeTop(mem, w);
    hide Inv, RestKept;
    RestAside(mem, w, mem, Popped(w), [w.free[|w.free| - 1]]);
  }

  lemma FreeKeepsRest(mem: Memory, w: World, f: Frame)
    requires Inv(mem, w) && Freeable(w, f)
    ensures RestKept(mem, w, FreedMem(mem, w, f), Freed(w, f))
  {
    hide Inv, Freeable, FreedMem, Freed, Untouched, RestKept;
    FreeOneUntouched(mem, w, f);
    FreesKeepRest(mem, w, FreedMem(mem, w, f), Freed(w, f), [f]);
  }

  /** Frees, one or many. */
  lemma FreesKeepRest(mem: Memory, w: World, mem': Memory, w': World, fs: seq<Frame>)
    requires Inv(mem, w) && EachOnce(w, fs) && Untouched(mem, w, mem', w', fs)
    ensures RestKept(mem, w, mem', w')
  {
    KernelRole(mem, w);
    hide Inv, RestKept, ContentsKept, OwnersKept;
    UntouchedContents(mem, w, mem', w', fs);
    assert Strangers(w, w', fs);
    RestAside(mem, w, mem', w', fs);
  }

  /** map, unmap and allocate_range. */
  lemma AddsKeepRest(mem: Memory, w: World, mem': Memory, w': World, c: Frame)
    requires Inv(mem, w) && IsDir(w, c) && OnlyAdds(mem, w, mem', w', c)
    ensures RestKept(mem, w, mem', w')
  {
    KernelRole(mem, w);
    hide Inv;
    if AtRest(mem, w) {
      assert forall s | TAB_FIRST <= s < TAB_LIMIT :: !Private(s);
      forall e: Frame, s | w'.role[e] == Directory && TAB_FIRST <= s < TAB_LIMIT ensures SlotAtRest(mem', w', e, s) {
        assert SlotAtRest(mem, w, e, s) && mem'[e][s] == mem[e][s];
      }
    }
  }

  lemma MapKeepsRest(mem: Memory, w: World, c: Frame, p: PageNum, x: Word)
    requires Inv(mem, w) && Active(mem, w, c) && Mappable(w, p)
    requires NeedsTable(mem, c, p) ==> w.free != []
    ensures RestKept(mem, w, MapMem(mem, w, c, p, x), MapWorld(mem, w, c, p))
  {
    ActiveIsDir(mem, w, c);
    hide Inv, Active, Mappable, MapMem, OnlyAdds, RestKept;
    MapOnlyAdds(mem, w, c, p, x);
    AddsKeepRest(mem, w, MapMem(mem, w, c, p, x), MapWorld(mem, w, c, p), c);
  }

  // ------------------------------------------------------------ what keeps a tree

  /** A private table of another directory is not written by allocate_range. */
  lemma OtherTreeKept(mem0: Memory, w0: World, mem: Memory, w: World, c: Frame, d: Frame, s: nat)
    requires Inv(mem0, w0) && Inv(mem, w) && IsDir(w0, c) && OnlyAdds(mem0, w0, mem, w, c)
    requires w0.role[d] == Directory && d != c && s < KERNEL_SLOT && !Skipped(mem, w.kernel, d, s)
    ensures mem[d] == mem0[d] && !Skipped(mem0, w0.kernel, d, s)
    ensures mem[mem[d][s].frame] == mem0[mem0[d][s].frame]
  {
    DirTables(mem, w, d);
    KernelEntry(mem0, w0, d, s);
    hide Inv;
    assert w.role[mem[d][s].frame] == Table(d, s);
    assert mem[d] == mem0[d];
  }

  lemma KernelEntry(mem: Memory, w: World, d: Frame, s: nat)
    requires Inv(mem, w) && w.role[d] == Directory && s < KERNEL_SLOT && s != SELF_SLOT
    ensures w.role[w.kernel] == KernelDir
    ensures mem[d][s] != ZERO ==> w.role[mem[d][s].frame].Table? || w.role[mem[d][s].frame].KernelTable?
    ensures mem[d][s] == mem[w.kernel][s] != ZERO ==>
      w.role[mem[d][s].frame] == Table(w.kernel, s) || w.role[mem[d][s].frame].KernelTable?
  {
    assert DirOk(mem, w, d);
    assert Shared(s) || Private(s);
  }

  /** A private table of the active directory is new, or the one that was there. */
  lemma OwnTreeKept(mem0: Memory, w0: World, mem: Memory, w: World, c: Frame, s: nat)
    requires Inv(mem0, w0) && w0.role[c] == Directory && OnlyAdds(mem0, w0, mem, w, c)
    requires s < KERNEL_SLOT && !Skipped(mem, w.kernel, c, s)
    ensures mem0[c][s] == ZERO || !Skipped(mem0, w0.kernel, c, s)
    ensures Private(s)
  {
    KernelEntry(mem0, w0, c, s);
    assert w.kernel == w0.kernel && mem[w0.kernel] == mem0[w0.kernel];
    assert DirOk(mem0, w0, c);
  }

  /** Nothing of the directory `e` is among the frames `fs`. */
  ghost predicate Foreign(w: World, fs: seq<Frame>, e: Frame) {
    forall f: Frame | f in fs :: f != e && f != w.kernel && !OwnedBy(w, f, e)
  }

  lemma TreeAside(mem: Memory, w: World, mem': Memory, w': World, fs: seq<Frame>, e: Frame)
    requires Inv(mem, w) && w.role[e] == Directory && Tree(mem, w, e) && Foreign(w, fs, e)
    requires ContentsKept(mem, w, mem', fs) && OwnersKept(w, w', fs)
    ensures Tree(mem', w', e)
  {
    DirTables(mem, w, e);
    hide Inv;
    assert mem'[e] == mem[e] by { assert e !in fs; }
    assert mem'[w.kernel] == mem[w.kernel] by { assert w.kernel !in fs; }
    forall i, j | 0 <= i < KERNEL_SLOT && 0 <= j < 1024 && !Skipped(mem', w'.kernel, e, i) && 1024 * i + j != SELF_PAGE
      ensures mem'[mem'[e][i].frame][j] == ZERO || w'.role[mem'[mem'[e][i].frame][j].frame] == Leaf(e, 1024 * i + j)
    {
      assert OwnedBy(w, mem[e][i].frame, e) && !Skipped(mem, w.kernel, e, i);
      assert mem[mem[e][i].frame][j] != ZERO ==> OwnedBy(w, mem[mem[e][i].frame][j].frame, e);
    }
  }

  /**
    allocate_range gives every page it maps a frame of its own, so what could be torn down
    before it can be torn down after it, the active directory with its new pages included.
  */
  lemma AllocateKeepsTree(mem0: Memory, w0: World, mem: Memory, w: World, c: Frame,
                          lo: PageNum, i: nat, flags: bv12, d: Frame)
    requires Inv(mem0, w0) && Inv(mem, w) && IsDir(w0, c) && lo <= i <= FRAMES
    requires RangeDone(mem0, w0, mem, w, c, lo, i, flags)
    requires w0.role[d] == Directory && Tree(mem0, w0, d)
    ensures Tree(mem, w, d)
  {
    hide Inv, OnlyAdds, Needed, PageDone;
    OnlyAddsRoles(mem0, w0, mem, w, c);
    forall s, j | 0 <= s < KERNEL_SLOT && 0 <= j < 1024 && !Skipped(mem, w.kernel, d, s) && 1024 * s + j != SELF_PAGE
      ensures mem[mem[d][s].frame][j] == ZERO || w.role[mem[mem[d][s].frame][j].frame] == Leaf(d, 1024 * s + j)
    {
      if d != c {
        OtherTreeKept(mem0, w0, mem, w, c, d, s);
      } else {
        OwnTreeKept(mem0, w0, mem, w, c, s);
        OwnLeafKept(mem0, w0, mem, w, c, lo, i, flags, s, j);
      }
    }
  }

  lemma OnlyAddsRoles(mem0: Memory, w0: World, mem: Memory, w: World, c: Frame)
    requires OnlyAdds(mem0, w0, mem, w, c)
    ensures w.kernel == w0.kernel && forall f: Frame | !w0.role[f].Free? :: w.role[f] == w0.role[f]
  {
  }

  lemma OwnLeafKept(mem0: Memory, w0: World, mem: Memory, w: World, c: Frame,
                    lo: PageNum, i: nat, flags: bv12, s: nat, j: nat)
    requires IsDir(w0, c) && lo <= i <= FRAMES && RangeDone(mem0, w0, mem, w, c, lo, i, flags)
    requires s < KERNEL_SLOT && j < 1024 && Private(s)
    requires mem[c][s] != ZERO
    requires mem0[c][s] == ZERO || mem0[mem0[c][s].frame][j] == ZERO
          || w0.role[mem0[mem0[c][s].frame][j].frame] == Leaf(c, 1024 * s + j)
    ensures mem[mem[c][s].frame][j] == ZERO || w.role[mem[mem[c][s].frame][j].frame] == Leaf(c, 1024 * s + j)
  {
    var p := 1024 * s + j;
    assert View(mem, c, p) == mem[mem[c][s].frame][j];
    assert View(mem0, c, p) == ZERO || w0.role[View(mem0, c, p).frame] == Leaf(c, p);
    OnlyAddsRoles(mem0, w0, mem, w, c);
    hide View, OnlyAdds, Needed;
    if lo <= p < i {
      assert PageDone(mem0, w0, mem, w, c, p, flags);
    }
  }

  // ------------------------------------------------------------ what destroying a directory keeps

  lemma ReleasedOwned(mem: Memory, w: World, d: Frame)
    requires Inv(mem, w) && w.role[d] == Directory && Tree(mem, w, d)
    ensures forall f | f in Released(mem, w.kernel, d) :: OwnedBy(w, f, d)
    ensures d in Released(mem, w.kernel, d)
  {
    SlotsOwned(mem, w, d, KERNEL_SLOT);
    hide Inv, Tree, SlotFrames;
  }

  lemma DestroyKeepsRest(mem: Memory, w: World, mem': Memory, w': World, d: Frame)
    requires Inv(mem, w) && w.role[d] == Directory && Tree(mem, w, d) && TornDown(mem, w, mem', w', d)
    ensures RestKept(mem, w, mem', w')
  {
    KernelRole(mem, w);
    ReleasedOwned(mem, w, d);
    hide Inv, Tree, Released, RestKept, View;
    RestAside(mem, w, mem', w', Released(mem, w.kernel, d));
  }

  /** Destroying one directory leaves every other as ready to be torn down as it was. */
  lemma DestroyKeepsTree(mem: Memory, w: World, mem': Memory, w': World, d: Frame, e: Frame)
    requires Inv(mem, w) && w.role[d] == Directory && Tree(mem, w, d) && TornDown(mem, w, mem', w', d)
    requires w.role[e] == Directory && e != d && Tree(mem, w, e)
    ensures Tree(mem', w', e)
  {
    KernelRole(mem, w);
    ReleasedOwned(mem, w, d);
    hide Inv, Tree, Released, View;
    assert Foreign(w, Released(mem, w.kernel, d), e);
    TreeAside(mem, w, mem', w', Released(mem, w.kernel, d), e);
  }

  // ------------------------------------------------------------ allocate_range and then destroy_directory

  /** A slot destroy_directory leaves alone: of the kernel half, or shared with the reference directory. */
  predicate LeftAlone(mem: Memory, w: World, c: Frame, s: nat)
    requires s < 1024
  {
    960 <= s || (mem[c][s] != ZERO && mem[c][s] == mem[w.kernel][s])
  }

  /** The slot that a page or a table belongs to. */
  function SlotOf(r: Role): (s: nat)
    ensures s < 1024
  {
    match r
    case Leaf(_, page) => page / 1024
    case Table(_, slot) => if slot < 1024 then slot else 0
    case _ => 0
  }

  /** Mapping pages does not change which slots those are. */
  lemma SlotFate(mem0: Memory, w0: World, mem: Memory, w: World, c: Frame, s: nat)
    requires Inv(mem0, w0) && Inv(mem, w) && w0.role[c] == Directory && OnlyAdds(mem0, w0, mem, w, c)
    requires s < 1024 && mem[c][s] != ZERO
    ensures w.kernel == w0.kernel && mem[w.kernel] == mem0[w0.kernel] && w.role[c] == Directory
    ensures LeftAlone(mem, w, c, s) <==> LeftAlone(mem0, w0, c, s)
    ensures mem0[c][s] == ZERO ==> mem[c][s] != mem[w.kernel][s]
  {
    KernelRole(mem0, w0);
    if Private(s) {
      KernelSlotRole(mem, w, s);
    }
    hide Inv;
    assert mem[w0.kernel] == mem0[w0.kernel];
  }

  lemma KernelSlotRole(mem: Memory, w: World, s: nat)
    requires Inv(mem, w) && s < 1024 && Private(s)
    ensures mem[w.kernel][s] == ZERO || w.role[mem[w.kernel][s].frame] == Table(w.kernel, s)
  {
  }

  /** What is part of a directory is recorded for a slot of it that is not left alone. */
  lemma PartRole(mem: Memory, w: World, c: Frame, f: Frame)
    requires Inv(mem, w) && w.role[c] == Directory && Tree(mem, w, c) && Part(mem, w.kernel, c, f) && f != c
    ensures w.role[f].Leaf? || w.role[f].Table?
    ensures !LeftAlone(mem, w, c, SlotOf(w.role[f]))
  {
    DirTables(mem, w, c);
    hide Inv;
    if i :| 0 <= i < 960 && i != 959 && mem[c][i] != ZERO && mem[c][i] != mem[w.kernel][i] && mem[c][i].frame == f {
      assert !Skipped(mem, w.kernel, c, i);
    } else {
      var i, j := PartPage(mem, w.kernel, c, f);
      assert !Skipped(mem, w.kernel, c, i);
      assert w.role[mem[mem[c][i].frame][j].frame] == Leaf(c, 1024 * i + j);
    }
  }

  lemma PartPage(mem: Memory, k: Frame, d: Frame, f: Frame) returns (i: nat, j: nat)
    requires Part(mem, k, d, f) && f != d
    requires !exists i ::
      0 <= i < 960 && i != 959 && mem[d][i] != ZERO && mem[d][i] != mem[k][i] && mem[d][i].frame == f
    ensures i < 960 && i != 959 && mem[d][i] != ZERO && mem[d][i] != mem[k][i] && j < 1024
    ensures 1024 * i + j != 0xE_FBFF && mem[mem[d][i].frame][j] != ZERO && mem[mem[d][i].frame][j].frame == f
  {
    i, j :| 0 <= i < 960 && i != 959 && mem[d][i] != ZERO && mem[d][i] != mem[k][i] && 0 <= j < 1024
            && 1024 * i + j != 0xE_FBFF && mem[mem[d][i].frame][j] != ZERO && mem[mem[d][i].frame][j].frame == f;
  }

  /** A frame taken for a page is part of what is given back exactly if its slot is not left alone. */
  lemma PageFate(mem: Memory, w: World, c: Frame, f: Frame, p: PageNum)
    requires Inv(mem, w) && w.role[c] == Directory && Tree(mem, w, c) && Ordinary(p) && p != 0xE_FBFF
    requires w.role[f] == Leaf(c, p) && View(mem, c, p) != ZERO && View(mem, c, p).frame == f
    ensures Part(mem, w.kernel, c, f) <==> !LeftAlone(mem, w, c, p / 1024)
  {
    hide Inv, Part, Tree;
    var s, j := p / 1024, p % 1024;
    assert mem[c][s] != ZERO && mem[mem[c][s].frame][j].frame == f && 1024 * s + j == p;
    if !LeftAlone(mem, w, c, s) {
      PagePart(mem, w.kernel, c, s, j);
    }
    if Part(mem, w.kernel, c, f) {
      PartRole(mem, w, c, f);
    }
  }

  /** So is a frame taken for a table. */
  lemma TableFate(mem: Memory, w: World, c: Frame, f: Frame, s: nat)
    requires Inv(mem, w) && w.role[c] == Directory && Tree(mem, w, c) && s < 1024 && Private(s)
    requires w.role[f] == Table(c, s) && mem[c][s] != ZERO && mem[c][s].frame == f
    ensures Part(mem, w.kernel, c, f) <==> !LeftAlone(mem, w, c, s)
  {
    KernelSlotRole(mem, w, s);
    KernelRole(mem, w);
    hide Inv, Part, Tree;
    if s < 960 {
      TablePart(mem, w.kernel, c, s);
    }
    if Part(mem, w.kernel, c, f) {
      PartRole(mem, w, c, f);
    }
  }

  /** A part is given back, anything else keeps its owner. */
  lemma PartReturned(mem: Memory, w: World, w': World, d: Frame, f: Frame)
    requires GivenBack(mem, w, w', d) && NoOthers(mem, w, w', d) && !Returned(w, f)
    ensures Returned(w', f) <==> Part(mem, w.kernel, d, f)
  {
  }

  /**
    Of the frames that allocate_range takes, destroying the directory gives back all but those
    of slots of the kernel half and of slots shared with the reference directory, which can be
    told before the call; and what it does not take is still on the stack.
  */
  lemma AllocateThenDestroy(mem0: Memory, w0: World, mem1: Memory, w1: World, mem2: Memory, w2: World, c: Frame,
                            lo: PageNum, i: nat, flags: bv12)
    requires Inv(mem0, w0) && Inv(mem1, w1) && w0.role[c] == Directory && Tree(mem0, w0, c)
    requires lo <= i <= FRAMES && forall q: PageNum | lo <= q < i :: Mappable(w0, q)
    requires RangeDone(mem0, w0, mem1, w1, c, lo, i, flags) && TornDown(mem1, w1, mem2, w2, c)
    ensures forall f: Frame | w0.role[f].Free? ::
      Returned(w2, f) <==> w1.role[f].Free? || !LeftAlone(mem0, w0, c, SlotOf(w1.role[f]))
  {
    hide Inv, RangeDone, TornDown, Tree, GivenBack, NoOthers, Part, LeftAlone, Mappable;
    AllocateKeepsTree(mem0, w0, mem1, w1, c, lo, i, flags, c);
    OwnIsGivenBack(mem1, w1, mem2, w2, c);
    forall f: Frame | w0.role[f].Free?
      ensures Returned(w2, f) <==> w1.role[f].Free? || !LeftAlone(mem0, w0, c, SlotOf(w1.role[f]))
    {
      TakenFate(mem0, w0, mem1, w1, mem2, w2, c, lo, i, flags, f);
    }
  }

  lemma TakenFate(mem0: Memory, w0: World, mem1: Memory, w1: World, mem2: Memory, w2: World, c: Frame,
                  lo: PageNum, i: nat, flags: bv12, f: Frame)
    requires Inv(mem0, w0) && Inv(mem1, w1) && w0.role[c] == Directory && Tree(mem1, w1, c)
    requires lo <= i <= FRAMES && forall q: PageNum | lo <= q < i :: Mappable(w0, q)
    requires RangeDone(mem0, w0, mem1, w1, c, lo, i, flags) && TornDown(mem1, w1, mem2, w2, c)
    requires GivenBack(mem1, w1, w2, c) && NoOthers(mem1, w1, w2, c) && w0.role[f].Free?
    ensures Returned(w2, f) <==> w1.role[f].Free? || !LeftAlone(mem0, w0, c, SlotOf(w1.role[f]))
  {
    assert OnlyAdds(mem0, w0, mem1, w1, c) && TakenServe(w0, mem1, w1, c, lo, i);
    hide Inv, RangeDone, TornDown, Tree, GivenBack, NoOthers, Part, LeftAlone, View, OnlyAdds;
    if w1.role[f].Free? {
      StillReturned(mem1, w1, w2, c, f);
    } else {
      assert Serves(mem1, w1, c, f, lo, i);
      PartReturned(mem1, w1, w2, c, f);
      match w1.role[f] {
        case Leaf(_, p) =>
          MappableIsOrdinary(w0, p);
          InView(mem1, c, p);
          SlotFate(mem0, w0, mem1, w1, c, p / 1024);
          PageFate(mem1, w1, c, f, p);
        case Table(_, s) =>
          SlotFate(mem0, w0, mem1, w1, c, s);
          TableFate(mem1, w1, c, f, s);
      }
    }
  }

  lemma InView(mem: Memory, c: Frame, p: PageNum)
    requires View(mem, c, p) != ZERO
    ensures mem[c][p / 1024] != ZERO
  {
  }

  /** What is on the stack stays there. */
  lemma StillReturned(mem: Memory, w: World, w': World, d: Frame, f: Frame)
    requires GivenBack(mem, w, w', d) && NoOthers(mem, w, w', d) && Returned(w, f)
    ensures Returned(w', f)
  {
    if w'.role[f] != w.role[f] {
      assert Part(mem, w.kernel, d, f);
    }
  }

  /** Program text, data and stacks of a process: every frame taken for them comes back with its directory. */
  lemma UserRangeReturned(mem0: Memory, w0: World, mem1: Memory, w1: World, mem2: Memory, w2: World, c: Frame,
                          lo: PageNum, i: nat, flags: bv12)
    requires Inv(mem0, w0) && Inv(mem1, w1) && w0.role[c] == Directory && Tree(mem0, w0, c)
    requires lo <= i <= 960 * 1024 && forall q: PageNum | lo <= q < i :: Mappable(w0, q)
    requires forall q: PageNum | lo <= q < i ::
      mem0[c][q / 1024] == ZERO || mem0[c][q / 1024] != mem0[w0.kernel][q / 1024]
    requires RangeDone(mem0, w0, mem1, w1, c, lo, i, flags) && TornDown(mem1, w1, mem2, w2, c)
    ensures forall f: Frame | w0.role[f].Free? :: Returned(w2, f)
  {
    hide Inv, RangeDone, TornDown, Tree, Mappable;
    AllocateThenDestroy(mem0, w0, mem1, w1, mem2, w2, c, lo, i, flags);
    forall f: Frame | w0.role[f].Free? && !w1.role[f].Free? ensures !LeftAlone(mem0, w0, c, SlotOf(w1.role[f])) {
      UserSlot(mem0, w0, mem1, w1, c, lo, i, flags, f);
    }
  }

  lemma UserSlot(mem0: Memory, w0: World, mem: Memory, w: World, c: Frame, lo: PageNum, i: nat, flags: bv12, f: Frame)
    requires Inv(mem0, w0) && Inv(mem, w) && w0.role[c] == Directory && lo <= i <= 960 * 1024
    requires RangeDone(mem0, w0, mem, w, c, lo, i, flags) && w0.role[f].Free? && !w.role[f].Free?
    requires forall q: PageNum | lo <= q < i ::
      mem0[c][q / 1024] == ZERO || mem0[c][q / 1024] != mem0[w0.kernel][q / 1024]
    ensures !LeftAlone(mem0, w0, c, SlotOf(w.role[f]))
  {
    EntryTaken(mem0, w0, c, f);
    hide Inv, View, PageDone, Needed;
    assert Serves(mem, w, c, f, lo, i);
  }

  /** No entry of a directory names a frame on the stack. */
  lemma EntryTaken(mem: Memory, w: World, d: Frame, f: Frame)
    requires Inv(mem, w) && w.role[d] == Directory && w.role[f].Free?
    ensures forall s | 0 <= s < 1024 && Private(s) && mem[d][s] != ZERO :: mem[d][s].frame != f
  {
    assert DirOk(mem, w, d);
  }
}
