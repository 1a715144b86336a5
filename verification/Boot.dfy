/**
  The memory init_vmm leaves behind, described frame by frame, and the proof that it
  satisfies the invariant all later operations keep.
*/
module Boot {
  import opened Basics
  import opened Hardware
  import opened Ownership
  import opened Mounts
  import opened Teardown

  // Frames are taken in this order, starting at `b`: the directory, the table of the
  // identity mapping, the table of the directory window, the tables of slots 960-1011,
  // the table of the PMM stack.
  const BOOT_FRAMES := 56

  function BootRole(b: nat, f: Frame): Role {
    if f < b then Reserved
    else if f == b then KernelDir
    else if f == b + 1 then KernelTable(0)
    else if f == b + 2 then KernelTable(1022)
    else if f < b + 55 then KernelTable(960 + (f - b - 3))
    else if f == b + 55 then KernelTable(1021)
    else Unowned
  }

  function BootWorld(b: nat): World
    requires b + BOOT_FRAMES <= FRAMES
  {
    World(seq(FRAMES, f requires 0 <= f < FRAMES => BootRole(b, f)), b, b + BOOT_FRAMES, [], [])
  }

  /** Entry `i` of the reference directory. */
  function BootEntry(b: nat, i: nat): Word
    requires b + BOOT_FRAMES <= FRAMES
  {
    if i == 0 then Word(b + 1, KERNEL_RW)
    else if 960 <= i < 1012 then Word(b + 3 + (i - 960), KERNEL_RW)
    else if i == 1021 then Word(b + 55, KERNEL_RW)
    else if i == 1022 then Word(b + 2, KERNEL_RW)
    else if i == 1023 then Word(b, KERNEL_RW)
    else ZERO
  }

  ghost predicate Booted(mem: Memory, b: nat)
    requires b + BOOT_FRAMES <= FRAMES
  {
    && (forall i | 0 <= i < 1024 :: mem[b][i] == BootEntry(b, i))
    && (forall i | 0 <= i < 1024 :: mem[b + 1][i] == Word(i, KERNEL_RW))
    && mem[b + 2] == ZeroPage()[1023 := Word(b, KERNEL_RW)]
    && (forall f | b + 3 <= f < b + BOOT_FRAMES :: mem[f] == ZeroPage())
  }

  /** The same, before the table of the PMM stack exists. */
  ghost predicate HalfBooted(mem: Memory, b: nat)
    requires b + BOOT_FRAMES <= FRAMES
  {
    && (forall i | 0 <= i < 1024 :: mem[b][i] == if i == 1021 then ZERO else BootEntry(b, i))
    && (forall i | 0 <= i < 1024 :: mem[b + 1][i] == Word(i, KERNEL_RW))
    && mem[b + 2] == ZeroPage()[1023 := Word(b, KERNEL_RW)]
    && (forall f | b + 3 <= f < b + 55 :: mem[f] == ZeroPage())
  }

  /** With the table of the PMM stack entered and cleared, the memory is complete. */
  lemma StackTableMade(mem: Memory, b: nat)
    requires b + BOOT_FRAMES <= FRAMES && HalfBooted(mem, b)
    ensures Booted(Clear(Put(mem, Loc(b, 1021), Word(b + 55, KERNEL_RW)), b + 55), b)
  {
  }

  /** The half-built directory shows itself at the place it is to be seen from every space. */
  lemma HalfBootedShows(mem: Memory, b: nat)
    requires b + BOOT_FRAMES <= FRAMES && HalfBooted(mem, b)
    ensures mem[b][1023] == Word(b, KERNEL_RW)
    ensures Walk(mem, b, KERNEL_DIR_VIRTUAL + 4 * 1021) == Some(Loc(b, 1021))
  {
    PageWalk(mem, b, 0xF_FBFF, 1021);
  }

  lemma BootInv(mem: Memory, b: nat)
    requires b + BOOT_FRAMES <= FRAMES && Booted(mem, b)
    ensures Inv(mem, BootWorld(b)) && Active(mem, BootWorld(b), b)
    ensures forall f: Frame :: BootWorld(b).role[f] == BootRole(b, f)
    ensures BootWorld(b).kernel == b && BootWorld(b).base == b + BOOT_FRAMES
    ensures BootWorld(b).storage == [] && BootWorld(b).free == []
  {
    var w := BootWorld(b);
    assert forall f: Frame :: w.role[f] == BootRole(b, f);
    hide BootWorld;
    assert w.kernel == b && w.base == b + BOOT_FRAMES && w.storage == [] && w.free == [];
    assert KernelOk(mem, w);
  }

  /** The reference directory is born without mounts, and there is no other. */
  lemma BootRest(mem: Memory, b: nat)
    requires b + BOOT_FRAMES <= FRAMES && Booted(mem, b)
    ensures AtRest(mem, BootWorld(b))
  {
    hide BootWorld;
    BootInv(mem, b);
    assert forall s | TAB_FIRST <= s < TAB_LIMIT :: mem[b][s] == BootEntry(b, s) == ZERO;
  }

  /** Whatever is taken and given back after init_vmm, a frame taken before paging never comes round again. */
  lemma BootFramesStay(mem0: Memory, b: nat, ops: seq<PmmOp>, mem: Memory, w: World)
    requires b + BOOT_FRAMES <= FRAMES && Booted(mem0, b) && Ran(mem0, BootWorld(b), ops, mem, w)
    ensures Inv(mem, w)
    ensures forall f: Frame | f < b + BOOT_FRAMES :: f !in w.free && f !in w.storage
  {
    hide Inv, Booted, BootWorld, Ran, BootRole;
    BootInv(mem0, b);
    RunInv(mem0, BootWorld(b), ops, mem, w);
  }

  /**
    Low memory is mapped to itself, the directory at its window, and its tables as the last
    4 MB; nothing else is mapped.
  */
  lemma BootView(mem: Memory, b: nat, p: PageNum)
    requires b + BOOT_FRAMES <= FRAMES && Booted(mem, b)
    ensures View(mem, b, p) == if p < 1024 then Word(p, KERNEL_RW)
                               else if p == 0xF_FBFF then Word(b, KERNEL_RW)
                               else if p >= 0xF_FC00 then BootEntry(b, p % 1024) else ZERO
    ensures p >= 0xF_FC00 ==>
      var i, e := p - 0xF_FC00, View(mem, b, p);
      && (e != ZERO <==> i == 0 || 960 <= i < 1012 || 1021 <= i)
      && (e != ZERO ==> e.flags == KERNEL_RW && b <= e.frame < b + 56)
      && (i == 0 ==> e.frame == b + 1) && (i == 1023 ==> e.frame == b)
  {
    var e := BootEntry(b, p / 1024);
    assert mem[b][p / 1024] == e;
  }

  /** After the loop over kernel slots has reached slot `i`. */
  ghost predicate TablesMade(mem0: Memory, mem: Memory, d: Frame, first: nat, i: nat)
    requires first + 52 <= FRAMES && i <= 1012
  {
    && (forall s | 0 <= s < 1024 ::
         mem[d][s] == if 960 <= s < i then Word(first + (s - 960), KERNEL_RW) else mem0[d][s])
    && (forall f: Frame | f != d :: mem[f] == if first <= f < first + (i - 960) then ZeroPage() else mem0[f])
  }

  /** The directory with its identity mapping and its two windows, and no kernel tables yet. */
  ghost predicate Skeleton(mem: Memory, b: nat)
    requires b + BOOT_FRAMES <= FRAMES
  {
    && (forall i | 0 <= i < 1024 :: mem[b][i] == if 960 <= i < 1012 || i == 1021 then ZERO else BootEntry(b, i))
    && (forall i | 0 <= i < 1024 :: mem[b + 1][i] == Word(i, KERNEL_RW))
    && mem[b + 2] == ZeroPage()[1023 := Word(b, KERNEL_RW)]
  }

  /** The two windows complete the skeleton. */
  lemma SkeletonMade(mem: Memory, b: nat)
    requires b + BOOT_FRAMES <= FRAMES && mem[b] == ZeroPage()[0 := Word(b + 1, KERNEL_RW)]
    requires forall i | 0 <= i < 1024 :: mem[b + 1][i] == Word(i, KERNEL_RW)
    ensures var mem1 := Put(Clear(mem, b + 2), Loc(b, 1022), Word(b + 2, KERNEL_RW));
            var mem2 := Put(mem1, Loc(b + 2, 1023), Word(b, KERNEL_RW));
      Skeleton(Put(mem2, Loc(b, 1023), Word(b, KERNEL_RW)), b)
  {
  }

  lemma SkeletonEmpty(mem: Memory, b: nat)
    requires b + BOOT_FRAMES <= FRAMES && Skeleton(mem, b)
    ensures forall i | 960 <= i < 1012 :: mem[b][i] == ZERO
  {
  }

  lemma SkeletonFilled(mem: Memory, mem': Memory, b: nat)
    requires b + BOOT_FRAMES <= FRAMES && Skeleton(mem, b)
    requires TablesMade(mem, mem', b, b + 3, 1012)
    ensures HalfBooted(mem', b)
    ensures forall i | 960 <= i < 1012 :: mem'[b][i] != ZERO
  {
  }

  // ------------------------------------------------------------ pmm_collect_pages

  /** A page-aligned entry of the boot memory map. */
  datatype Region = Region(usable: bool, first: nat, count: nat)

  ghost predicate RegionsOk(rs: seq<Region>) {
    && (forall a | 0 <= a < |rs| && rs[a].usable :: rs[a].first + rs[a].count <= FRAMES)
    && (forall a, b | 0 <= a < b < |rs| && rs[a].usable && rs[b].usable ::
         rs[a].first + rs[a].count <= rs[b].first || rs[b].first + rs[b].count <= rs[a].first)
  }

  /** The frames of a region at or above the initial location, in order. */
  function RegionFrames(base: nat, first: nat, n: nat): seq<Frame>
    requires first + n <= FRAMES
  {
    if n == 0 then [] else
    RegionFrames(base, first, n - 1) + if first + n - 1 < base then [] else [first + n - 1]
  }

  function UsableFrames(base: nat, rs: seq<Region>): seq<Frame>
    requires forall a | 0 <= a < |rs| && rs[a].usable :: rs[a].first + rs[a].count <= FRAMES
    decreases |rs|
  {
    if rs == [] then [] else
    var r := rs[|rs| - 1];
    UsableFrames(base, rs[..|rs| - 1]) + if r.usable then RegionFrames(base, r.first, r.count) else []
  }

  predicate InRegion(r: Region, f: Frame) {
    r.usable && r.first <= f < r.first + r.count
  }

  /** Frame `f` belongs to a usable region that starts at index `a` or later. */
  predicate Ahead(rs: seq<Region>, a: nat, f: Frame) {
    exists b :: a <= b < |rs| && InRegion(rs[b], f)
  }

  /** Frames of one region in order. */
  ghost predicate Ascends(fs: seq<Frame>, lo: nat, hi: nat) {
    && (forall a | 0 <= a < |fs| :: lo <= fs[a] < hi)
    && (forall a, b | 0 <= a < b < |fs| :: fs[a] < fs[b])
  }

  lemma AscendsMore(fs: seq<Frame>, lo: nat, f: Frame)
    requires Ascends(fs, lo, f)
    ensures Ascends(fs, lo, f + 1) && (lo <= f ==> Ascends(fs + [f], lo, f + 1))
  {
  }

  lemma {:induction false} RegionAscends(base: nat, first: nat, n: nat)
    requires first + n <= FRAMES
    ensures Ascends(RegionFrames(base, first, n), if base < first then first else base, first + n)
    decreases n
  {
    if n > 0 {
      hide Ascends;
      RegionAscends(base, first, n - 1);
      var fs := RegionFrames(base, first, n - 1);
      AscendsMore(fs, if base < first then first else base, first + n - 1);
      assert fs + [] == fs;
    }
  }

  /** Frames that lie in usable regions above the location, none of them twice. */
  ghost predicate Collectible(base: nat, rs: seq<Region>, fs: seq<Frame>) {
    && (forall a | 0 <= a < |fs| :: base <= fs[a] && Ahead(rs, 0, fs[a]))
    && (forall a, b | 0 <= a < b < |fs| :: fs[a] != fs[b])
  }

  lemma CollectMore(base: nat, rs: seq<Region>, n: nat, fs: seq<Frame>, gs: seq<Frame>)
    requires RegionsOk(rs) && n < |rs| && rs[n].usable && Collectible(base, rs[..n], fs)
    requires Ascends(gs, if base < rs[n].first then rs[n].first else base, rs[n].first + rs[n].count)
    ensures Collectible(base, rs, fs + gs)
  {
    hide Ahead;
    forall a | 0 <= a < |fs| ensures Ahead(rs, 0, fs[a]) && !InRegion(rs[n], fs[a]) {
      AheadOfPrefix(rs, n, fs[a]);
    }
    forall a | 0 <= a < |gs| ensures Ahead(rs, 0, gs[a]) && InRegion(rs[n], gs[a]) {
      AheadHere(rs, n, gs[a]);
    }
  }

  lemma CollectSame(base: nat, rs: seq<Region>, n: nat, fs: seq<Frame>)
    requires RegionsOk(rs) && n < |rs| && Collectible(base, rs[..n], fs)
    ensures Collectible(base, rs, fs)
  {
    hide Ahead;
    forall a | 0 <= a < |fs| ensures Ahead(rs, 0, fs[a]) {
      AheadOfPrefix(rs, n, fs[a]);
    }
  }

  /** So are those that are collected. */
  lemma {:induction false} UsableOnce(base: nat, rs: seq<Region>)
    requires RegionsOk(rs)
    ensures Collectible(base, rs, UsableFrames(base, rs))
    decreases |rs|
  {
    if rs != [] {
      hide Ahead, RegionFrames, Collectible, Ascends;
      var n := |rs| - 1;
      UsableOnce(base, rs[..n]);
      var fs := UsableFrames(base, rs[..n]);
      if rs[n].usable {
        RegionAscends(base, rs[n].first, rs[n].count);
        CollectMore(base, rs, n, fs, RegionFrames(base, rs[n].first, rs[n].count));
      } else {
        CollectSame(base, rs, n, fs);
        assert fs + [] == fs;
      }
    }
  }

  lemma AheadHere(rs: seq<Region>, n: nat, f: Frame)
    requires n < |rs| && InRegion(rs[n], f)
    ensures Ahead(rs, 0, f)
  {
  }

  lemma AheadOfPrefix(rs: seq<Region>, n: nat, f: Frame)
    requires RegionsOk(rs) && n < |rs| && Ahead(rs[..n], 0, f)
    ensures Ahead(rs, 0, f) && !InRegion(rs[n], f)
  {
  }

  /** They may be given back, if nobody owns them. */
  lemma CollectOnce(w: World, base: nat, rs: seq<Region>)
    requires RegionsOk(rs) && forall f: Frame | Ahead(rs, 0, f) && f >= base :: w.role[f] == Unowned
    ensures EachOnce(w, UsableFrames(base, rs))
  {
    hide Ahead, UsableFrames;
    UsableOnce(base, rs);
  }

  lemma {:induction false} RegionComplete(base: nat, first: nat, n: nat, f: Frame)
    requires first + n <= FRAMES && base <= f && first <= f < first + n
    ensures f in RegionFrames(base, first, n)
    decreases n
  {
    if f < first + n - 1 {
      RegionComplete(base, first, n - 1, f);
    }
  }

  /** And nothing usable is left behind. */
  lemma {:induction false} UsableComplete(base: nat, rs: seq<Region>, a: nat, f: Frame)
    requires RegionsOk(rs) && a < |rs| && rs[a].usable
    requires base <= f && rs[a].first <= f < rs[a].first + rs[a].count
    ensures f in UsableFrames(base, rs)
    decreases |rs|
  {
    if a == |rs| - 1 {
      RegionComplete(base, rs[a].first, rs[a].count, f);
    } else {
      UsableComplete(base, rs[..|rs| - 1], a, f);
    }
  }

  /** Exactly the frames of usable regions at or above the location are on the stack or hold it. */
  ghost predicate Collected(base: nat, rs: seq<Region>, w0: World, w: World) {
    && (forall a, f: Frame | 0 <= a < |rs| && rs[a].usable
                             && rs[a].first <= f < rs[a].first + rs[a].count && base <= f ::
         w.role[f].Free? || w.role[f].Storage?)
    && (forall f: Frame | f < base || forall a | 0 <= a < |rs| && rs[a].usable ::
                                        f < rs[a].first || rs[a].first + rs[a].count <= f ::
         w.role[f] == w0.role[f])
  }

  lemma CollectedAll(mem0: Memory, w0: World, mem: Memory, w: World, base: nat, rs: seq<Region>)
    requires RegionsOk(rs) && Untouched(mem0, w0, mem, w, UsableFrames(base, rs))
    ensures Collected(base, rs, w0, w)
  {
    hide UsableFrames;
    forall a, f: Frame | 0 <= a < |rs| && rs[a].usable && rs[a].first <= f < rs[a].first + rs[a].count && base <= f
      ensures w.role[f].Free? || w.role[f].Storage?
    {
      UsableComplete(base, rs, a, f);
    }
    UsableOnce(base, rs);
  }
}
