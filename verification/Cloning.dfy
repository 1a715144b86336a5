/**
  What clone_directory builds.  The C call passes the new page first and the page to be
  copied second, while the assembly reads from its first argument and writes to its
  second.  The loops are modelled with the order intended, so that the page written is
  the fresh one; which sources the order written is harmless for is stated first.
*/
module Cloning {
  import opened Basics
  import opened Hardware
  import opened Ownership
  import opened Windows
  import opened Mounts

  /** Slots of `src` that are neither empty nor the same as in the reference directory. */
  predicate PrivateSlot(mem: Memory, k: Frame, src: Frame, i: nat)
    requires i < 1024
  {
    mem[src][i] != ZERO && mem[src][i] != mem[k][i]
  }

  // ------------------------------------------------------------ the order written

  /** Frames whose contents neither the tables nor the PMM depend on. */
  predicate Inert(r: Role) {
    r.Leaf? || r.Held? || r.Unowned? || r.Reserved?
  }

  /**
    The page that entry `j` of slot `i` names, if any, is safe to overwrite; what the loop
    takes for a table is one, or is the directory itself seen through its window.
  */
  predicate SafeEntry(mem: Memory, w: World, src: Frame, i: nat, j: nat)
    requires i < 1024 && j < 1024
  {
    && Present(mem[src][i])
    && (mem[src][i].frame == src || (Private(i) && w.role[mem[src][i].frame] == Table(src, i)))
    && (mem[mem[src][i].frame][j] == ZERO || Inert(w.role[mem[mem[src][i].frame][j].frame]))
  }

  /** No page the loops copy is a directory, a table or part of the PMM stack. */
  ghost predicate CopySafe(mem: Memory, w: World, src: Frame) {
    forall i, j | 0 <= i < 1024 && 0 <= j < 1024 && PrivateSlot(mem, w.kernel, src, i) :: SafeEntry(mem, w, src, i, j)
  }

  /** Frames of the source that the copy overwrites in the order written. */
  predicate Target(mem: Memory, k: Frame, src: Frame, f: Frame) {
    exists i, j :: 0 <= i < 1024 && 0 <= j < 1024 && PrivateSlot(mem, k, src, i)
      && mem[mem[src][i].frame][j] != ZERO && mem[mem[src][i].frame][j].frame == f
  }

  /**
    A directory made by clone_directory carries a window on its own tables, and the
    loop takes that window for one more private table: the page it copies for page
    USER_TABLES_VIRTUAL + 958 is the directory's own table of slot 958.
  */
  lemma WindowIsCopied(mem: Memory, w: World, src: Frame)
    requires Inv(mem, w) && w.role[src] == Directory && SelfMapped(mem, w, src)
    ensures PrivateSlot(mem, w.kernel, src, 959)
    ensures mem[src][959].frame == src && mem[mem[src][959].frame][958] != ZERO
    ensures w.role[mem[mem[src][959].frame][958].frame] == Table(src, 958)
    ensures Relied(w, mem[mem[src][959].frame][958].frame)
    ensures Target(mem, w.kernel, src, mem[src][958].frame)
  {
    assert mem[src][958] != ZERO;
    assert mem[mem[src][959].frame][958] == mem[src][958];
  }

  /** In the order written, exactly the reference directory can be cloned without overwriting a table. */
  lemma SafeSources(mem: Memory, w: World, src: Frame)
    requires Inv(mem, w) && Active(mem, w, src)
    ensures CopySafe(mem, w, src) <==> src == w.kernel
  {
    hide Inv, SelfMapped;
    if src != w.kernel {
      WindowIsCopied(mem, w, src);
      assert !SafeEntry(mem, w, src, 959, 958);
    } else {
      assert forall i | 0 <= i < 1024 :: !PrivateSlot(mem, w.kernel, src, i);
    }
  }

  // ------------------------------------------------------------ what is built

  /** A frame in use when the loops begin, other than the directory being built: its contents stay. */
  predicate Settled(w1: World, d: Frame, f: Frame) {
    !w1.role[f].Free? && f != d
  }

  /** Entry `now` of a new table for entry `was` of the source: a frame of its own with a copy of the page. */
  ghost predicate EntryCloned(mem1: Memory, w1: World, mem: Memory, w: World, was: Word, now: Word, d: Frame,
                              p: PageNum)
  {
    if was == ZERO then now == ZERO
    else
      && now.flags == USER_RW | was.flags
      && w.role[now.frame] == Leaf(d, p) && w1.role[now.frame].Free?
      && (Settled(w1, d, was.frame) ==> mem[now.frame] == mem1[was.frame])
  }

  /** The first `n` entries of the new table for slot `s` are done, the others are still empty. */
  ghost predicate TableCloned(source: Page, mem1: Memory, w1: World, mem: Memory, w: World,
                              to: Frame, d: Frame, s: nat, n: nat)
    requires s < 1024
  {
    && w.role[to] == Table(d, s) && w1.role[to].Free?
    && (forall j | 0 <= j < 1024 ::
         if j < n then EntryCloned(mem1, w1, mem, w, source[j], mem[to][j], d, 1024 * s + j) else mem[to][j] == ZERO)
  }

  /**
    An empty slot or one of the reference directory is taken over, any other gets a table of
    its own.  Of a slot of the source that shows the directory being built, which is the
    second mount slot when the active directory is cloned, only the new table is stated.
  */
  ghost predicate SlotCloned(mem1: Memory, w1: World, mem: Memory, w: World, src: Frame, d: Frame, s: nat)
    requires s < 1024
  {
    if !PrivateSlot(mem1, w1.kernel, src, s) then mem[d][s] == mem1[src][s]
    else
      && mem[d][s].flags == USER_RW
      && w.role[mem[d][s].frame] == Table(d, s) && w1.role[mem[d][s].frame].Free?
      && (mem1[src][s].frame != d ==>
            TableCloned(mem1[mem1[src][s].frame], mem1, w1, mem, w, mem[d][s].frame, d, s, 1024))
  }

  /** All that is not new is as it was when cloning began. */
  ghost predicate Aside(mem1: Memory, w1: World, mem: Memory, w: World, d: Frame) {
    && w.kernel == w1.kernel && w.base == w1.base && w.storage == w1.storage
    && |w.free| <= |w1.free| && w.free == w1.free[..|w.free|]
    && (forall f: Frame | !w1.role[f].Free? :: w.role[f] == w1.role[f])
    && (forall f: Frame | Settled(w1, d, f) :: mem[f] == mem1[f])
    && (forall f: Frame | w1.role[f].Free? && w.role[f].Free? :: mem[f] == mem1[f])
  }

  ghost predicate Cloned(mem1: Memory, w1: World, mem: Memory, w: World, src: Frame, d: Frame, n: nat)
    requires n <= 1024
  {
    && Aside(mem1, w1, mem, w, d)
    && (forall s | 0 <= s < 1024 ::
         if s < n then SlotCloned(mem1, w1, mem, w, src, d, s) else mem[d][s] == ZERO)
  }

  // ------------------------------------------------------------ keeping what is done

  /** Later steps: only free frames change role, only `at` and frames not new change contents. */
  ghost predicate Later(w1: World, mem: Memory, w: World, mem': Memory, w': World, at: Frame) {
    && (forall f: Frame | !w.role[f].Free? :: w'.role[f] == w.role[f])
    && (forall f: Frame | w1.role[f].Free? && !w.role[f].Free? && f != at :: mem'[f] == mem[f])
  }

  lemma SlotKept(mem1: Memory, w1: World, mem: Memory, w: World, mem': Memory, w': World,
                 src: Frame, d: Frame, s: nat)
    requires s < 1024 && SlotCloned(mem1, w1, mem, w, src, d, s) && Later(w1, mem, w, mem', w', d)
    requires mem'[d][s] == mem[d][s] && !w1.role[d].Free?
    ensures SlotCloned(mem1, w1, mem', w', src, d, s)
  {
    if PrivateSlot(mem1, w1.kernel, src, s) && mem1[src][s].frame != d {
      TableKept(mem1[mem1[src][s].frame], mem1, w1, mem, w, mem', w', mem[d][s].frame, d, s, 1024);
    }
  }

  lemma TableKept(source: Page, mem1: Memory, w1: World, mem: Memory, w: World, mem': Memory, w': World,
                  to: Frame, d: Frame, s: nat, n: nat)
    requires s < 1024 && TableCloned(source, mem1, w1, mem, w, to, d, s, n)
    requires forall f: Frame | w1.role[f].Free? && !w.role[f].Free? :: w'.role[f] == w.role[f] && mem'[f] == mem[f]
    ensures TableCloned(source, mem1, w1, mem', w', to, d, s, n)
  {
  }

  /** Taking the top of the stack for role `r`. */
  function Taken(w: World, r: Role): World
    requires w.free != []
  {
    Popped(w).(role := Popped(w).role[w.free[|w.free| - 1] := r])
  }

  lemma TakenInv(mem: Memory, w: World, r: Role)
    requires Inv(mem, w) && w.free != [] && (Loose(r) || r.Table?)
    ensures Inv(mem, Taken(w, r)) && WindowsKept(mem, w, mem, Taken(w, r))
    ensures w.role[w.free[|w.free| - 1]].Free?
  {
    hide Inv, SelfMapped, WindowsKept;
    PopInv(mem, w);
    SetRole(mem, Popped(w), w.free[|w.free| - 1], r);
    WindowsKeptTwice(mem, w, mem, Popped(w), mem, Taken(w, r));
  }

  // ------------------------------------------------------------ the run of clone_directory

  /**
    The situation once both directories are mounted.  What the loops will take for a table
    is a frame in use: a table of the source, the source itself seen through its window, or
    what a mount slot shows.
  */
  ghost predicate Base(mem: Memory, w: World, c: Frame, m1: Mount, m2: Mount, src: Frame, d: Frame) {
    && Inv(mem, w) && Active(mem, w, c)
    && Mounted(mem, w, c, m1, src) && Mounted(mem, w, c, m2, d)
    && w.role[d] == Held && IsDir(w, src)
    && (forall i | 0 <= i < 1024 && PrivateSlot(mem, w.kernel, src, i) :: !w.role[mem[src][i].frame].Free?)
  }

  /** The situation at any later moment. */
  ghost predicate Now(mem1: Memory, w1: World, mem: Memory, w: World, c: Frame, d: Frame) {
    Inv(mem, w) && Active(mem, w, c) && Aside(mem1, w1, mem, w, d)
  }

  lemma BaseFacts(mem: Memory, w: World, c: Frame, m1: Mount, m2: Mount, src: Frame, d: Frame)
    requires Base(mem, w, c, m1, m2, src, d)
    ensures w.role[w.kernel] == KernelDir && IsDir(w, c) && IsDir(w, src) && w.role[d] == Held
    ensures d != c && d != src && d != w.kernel
    ensures EntriesOk(mem, src)
    ensures w.role[mem[w.kernel][1021].frame] == KernelTable(1021)
    ensures Mounted(mem, w, c, m1, src) && Mounted(mem, w, c, m2, d)
    ensures forall i | 0 <= i < 1024 && PrivateSlot(mem, w.kernel, src, i) ::
      Present(mem[src][i]) && !w.role[mem[src][i].frame].Free?
  {
    KernelTable1021(mem, w, c);
    assert src == w.kernel || DirOk(mem, w, src);
  }

  lemma AsideWorld(mem1: Memory, w1: World, mem: Memory, w: World, d: Frame)
    requires Aside(mem1, w1, mem, w, d)
    ensures w.kernel == w1.kernel && w.base == w1.base && w.storage == w1.storage
    ensures |w.free| <= |w1.free| && w.free == w1.free[..|w.free|]
    ensures forall f: Frame | !w1.role[f].Free? :: w.role[f] == w1.role[f]
    ensures forall f: Frame | Settled(w1, d, f) :: mem[f] == mem1[f]
  {
  }

  /** What the loops read is still what was there at the start. */
  lemma StillThere(mem1: Memory, w1: World, mem: Memory, w: World, c: Frame, m1: Mount, m2: Mount, src: Frame, d: Frame)
    requires Base(mem1, w1, c, m1, m2, src, d) && Now(mem1, w1, mem, w, c, d)
    ensures Mounted(mem, w, c, m1, src) && Mounted(mem, w, c, m2, d)
    ensures mem[src] == mem1[src] && mem[w.kernel] == mem1[w1.kernel] && w.kernel == w1.kernel
    ensures w.role[d] == Held && !IsDir(w, d)
  {
    hide Inv, Active, Aside, Base;
    BaseFacts(mem1, w1, c, m1, m2, src, d);
    NowAside(mem1, w1, mem, w, c, d);
    AsideWorld(mem1, w1, mem, w, d);
    assert mem[c] == mem1[c] && mem[w1.kernel] == mem1[w1.kernel] && mem[src] == mem1[src];
    assert mem[mem1[w1.kernel][1021].frame] == mem1[mem1[w1.kernel][1021].frame];
  }

  lemma NowAside(mem1: Memory, w1: World, mem: Memory, w: World, c: Frame, d: Frame)
    requires Now(mem1, w1, mem, w, c, d)
    ensures Aside(mem1, w1, mem, w, d)
  {
  }

  /** Frames that may be written while cloning: the new directory, its tables and its pages. */
  predicate Writable(w1: World, w: World, d: Frame, f: Frame) {
    f == d
    || (w1.role[f].Free? && (w.role[f].Table? || w.role[f].Leaf?) && w.role[f].dir == d)
  }

  lemma WritableIsLoose(w1: World, w: World, d: Frame, f: Frame)
    requires w1.role[d] == Held && w.kernel == w1.kernel && d != w.kernel
    requires w.role[d] == Held && Writable(w1, w, d, f)
    ensures !Structural(w, f)
  {
  }

  /** Overwriting a frame that is new, or the directory being built. */
  lemma WriteAside(mem1: Memory, w1: World, mem: Memory, w: World, c: Frame, m1: Mount, m2: Mount,
                   src: Frame, d: Frame, f: Frame, page: Page)
    requires Base(mem1, w1, c, m1, m2, src, d) && Now(mem1, w1, mem, w, c, d)
    requires Writable(w1, w, d, f)
    ensures Now(mem1, w1, mem[f := page], w, c, d)
  {
    hide Inv, Active, Base, SelfMapped, WindowsKept, Structural;
    BaseFacts(mem1, w1, c, m1, m2, src, d);
    WritableIsLoose(w1, w, d, f);
    SetFrame(mem, w, f, page);
    ActiveKept(mem, w, mem[f := page], w, c);
  }

  lemma TakeAside(mem1: Memory, w1: World, mem: Memory, w: World, c: Frame, d: Frame, r: Role)
    requires Now(mem1, w1, mem, w, c, d) && w.free != [] && (Loose(r) || r.Table?)
    ensures Now(mem1, w1, mem, Taken(w, r), c, d)
    ensures w1.role[w.free[|w.free| - 1]].Free? && w.role[w.free[|w.free| - 1]].Free?
    ensures Later(w1, mem, w, mem, Taken(w, r), d)
  {
    hide Inv, Active, SelfMapped, WindowsKept;
    TakenInv(mem, w, r);
    ActiveKept(mem, w, mem, Taken(w, r), c);
  }

  // ------------------------------------------------------------ the price

  /** Entries among the first `n` of a table that are not empty. */
  function Entries(page: Page, n: nat): nat
    requires n <= 1024
  {
    if n == 0 then 0 else Entries(page, n - 1) + if page[n - 1] == ZERO then 0 else 1
  }

  /**
    Frames taken for slot `s`: a table and its pages.  The slot that shows the directory being
    built has the slots before it, and itself, for pages.
  */
  function SlotCost(mem: Memory, k: Frame, src: Frame, d: Frame, s: nat): nat
    requires s < 1024
  {
    if !PrivateSlot(mem, k, src, s) then 0
    else if mem[src][s].frame == d then 1 + Entries(mem[src], s) + 1
    else 1 + Entries(mem[mem[src][s].frame], |mem[src]|)
  }

  function CloneCost(mem: Memory, k: Frame, src: Frame, d: Frame, n: nat): nat
    requires n <= 1024
  {
    if n == 0 then 0 else CloneCost(mem, k, src, d, n - 1) + SlotCost(mem, k, src, d, n - 1)
  }

  /** What the loops of clone_directory take from the stack. */
  function LoopCost(mem: Memory, k: Frame, src: Frame, d: Frame): nat {
    CloneCost(mem, k, src, d, |mem[src]|)
  }

  lemma SlotCostsTable(mem: Memory, k: Frame, src: Frame, d: Frame, s: nat)
    requires s < 1024 && PrivateSlot(mem, k, src, s)
    ensures SlotCost(mem, k, src, d, s) >= 1
  {
  }

  lemma {:induction false} EntriesGrow(page: Page, m: nat, n: nat)
    requires m <= n <= 1024
    ensures Entries(page, m) <= Entries(page, n)
    decreases n
  {
    if m < n {
      EntriesGrow(page, m, n - 1);
    }
  }

  lemma {:induction false} CloneCostGrows(mem: Memory, k: Frame, src: Frame, d: Frame, m: nat, n: nat)
    requires m <= n <= 1024
    ensures CloneCost(mem, k, src, d, m) <= CloneCost(mem, k, src, d, n)
    decreases n
  {
    if m < n {
      CloneCostGrows(mem, k, src, d, m, n - 1);
    }
  }

  /** Pages with the same empty entries cost the same. */
  lemma {:induction false} SameEntries(page: Page, page': Page, n: nat)
    requires n <= 1024 && forall j | 0 <= j < n :: page[j] == ZERO <==> page'[j] == ZERO
    ensures Entries(page, n) == Entries(page', n)
    decreases n
  {
    if n > 0 {
      SameEntries(page, page', n - 1);
    }
  }

  lemma {:induction false} NoMoreEntries(page: Page, m: nat, n: nat)
    requires m <= n <= 1024 && forall j | m <= j < n :: page[j] == ZERO
    ensures Entries(page, n) == Entries(page, m)
    decreases n
  {
    if m < n {
      NoMoreEntries(page, m, n - 1);
    }
  }

  /** The directory being built, seen as a table when its own slot `s` has just been entered. */
  lemma OwnEntries(mem1: Memory, w1: World, mem: Memory, w: World, src: Frame, d: Frame, s: nat, page: Page, t: Word)
    requires s < 1024 && Cloned(mem1, w1, mem, w, src, d, s)
    requires page == mem[d][s := t] && t.flags == USER_RW
    ensures Entries(page, |page|) == Entries(mem1[src], s) + 1
  {
    forall j | 0 <= j < s ensures page[j] == ZERO <==> mem1[src][j] == ZERO {
      assert SlotCloned(mem1, w1, mem, w, src, d, j);
    }
    hide Aside, SlotCloned;
    SameEntries(page, mem1[src], s);
    assert page[s] != ZERO;
    NoMoreEntries(page, s + 1, |page|);
  }

  // ------------------------------------------------------------ the owners assigned

  /** Frames off the top of the stack, for the roles `rs` in turn. */
  function TakenAll(w: World, rs: seq<Role>): (w': World)
    requires |rs| <= |w.free|
    ensures |w'.free| == |w.free| - |rs|
    decreases |rs|
  {
    if rs == [] then w else Taken(TakenAll(w, rs[..|rs| - 1]), rs[|rs| - 1])
  }

  ghost predicate Tracks(w1: World, w: World, rs: seq<Role>) {
    |rs| <= |w1.free| && w == TakenAll(w1, rs)
  }

  lemma TracksNothing(w: World)
    ensures Tracks(w, w, [])
  {
  }

  lemma TracksMore(w1: World, w: World, rs: seq<Role>, r: Role)
    requires Tracks(w1, w, rs) && w.free != []
    ensures Tracks(w1, Taken(w, r), rs + [r])
  {
    assert (rs + [r])[..|rs|] == rs;
  }

  /** The first `n` pages of a table, for slot `s` of `d`. */
  function LeafRoles(page: Page, d: Frame, s: nat, n: nat): (rs: seq<Role>)
    requires s < 1024 && n <= 1024
    ensures |rs| == Entries(page, n)
  {
    if n == 0 then []
    else LeafRoles(page, d, s, n - 1) + if page[n - 1] == ZERO then [] else [Leaf(d, 1024 * s + n - 1)]
  }

  /** The frames of slot `s`: its table, then its pages. */
  function SlotRoles(mem: Memory, k: Frame, src: Frame, d: Frame, s: nat): (rs: seq<Role>)
    requires s < 1024
    ensures |rs| == SlotCost(mem, k, src, d, s)
  {
    if !PrivateSlot(mem, k, src, s) then []
    else if mem[src][s].frame == d then [Table(d, s)] + (LeafRoles(mem[src], d, s, s) + [Leaf(d, 1024 * s + s)])
    else [Table(d, s)] + LeafRoles(mem[mem[src][s].frame], d, s, |mem[src]|)
  }

  function CloneRoles(mem: Memory, k: Frame, src: Frame, d: Frame, n: nat): (rs: seq<Role>)
    requires n <= 1024
    ensures |rs| == CloneCost(mem, k, src, d, n)
  {
    if n == 0 then [] else CloneRoles(mem, k, src, d, n - 1) + SlotRoles(mem, k, src, d, n - 1)
  }

  lemma {:induction false} SameLeafRoles(page: Page, page': Page, d: Frame, s: nat, n: nat)
    requires s < 1024 && n <= 1024 && forall j | 0 <= j < n :: page[j] == ZERO <==> page'[j] == ZERO
    ensures LeafRoles(page, d, s, n) == LeafRoles(page', d, s, n)
    decreases n
  {
    if n > 0 {
      SameLeafRoles(page, page', d, s, n - 1);
    }
  }

  lemma {:induction false} NoMoreLeafRoles(page: Page, d: Frame, s: nat, m: nat, n: nat)
    requires s < 1024 && m <= n <= 1024 && forall j | m <= j < n :: page[j] == ZERO
    ensures LeafRoles(page, d, s, n) == LeafRoles(page, d, s, m)
    decreases n
  {
    if m < n {
      NoMoreLeafRoles(page, d, s, m, n - 1);
    }
  }

  lemma {:induction false} LeafRolesOnly(page: Page, d: Frame, s: nat, n: nat)
    requires s < 1024 && n <= 1024
    ensures forall r | r in LeafRoles(page, d, s, n) :: r.Leaf?
    decreases n
  {
    if n > 0 {
      LeafRolesOnly(page, d, s, n - 1);
    }
  }

  /** Only tables and pages are made. */
  lemma {:induction false} CloneRolesOnly(mem: Memory, k: Frame, src: Frame, d: Frame, n: nat)
    requires n <= 1024
    ensures forall r | r in CloneRoles(mem, k, src, d, n) :: r.Leaf? || r.Table?
    decreases n
  {
    if n > 0 {
      CloneRolesOnly(mem, k, src, d, n - 1);
      var s := n - 1;
      if PrivateSlot(mem, k, src, s) {
        LeafRolesOnly(mem[src], d, s, s);
        LeafRolesOnly(mem[mem[src][s].frame], d, s, |mem[src]|);
      }
    }
  }

  lemma {:induction false} TakenAllRoles(w: World, rs: seq<Role>)
    requires |rs| <= |w.free|
    ensures forall f: Frame :: TakenAll(w, rs).role[f] == w.role[f] || TakenAll(w, rs).role[f] in rs
    decreases |rs|
  {
    if rs != [] {
      TakenAllRoles(w, rs[..|rs| - 1]);
      var w' := TakenAll(w, rs[..|rs| - 1]);
      forall f: Frame ensures TakenAll(w, rs).role[f] == w.role[f] || TakenAll(w, rs).role[f] in rs {
        assert TakenAll(w, rs).role[f] == w'.role[f] || TakenAll(w, rs).role[f] == rs[|rs| - 1];
      }
    }
  }

  lemma LeafRolesStep(page: Page, d: Frame, s: nat, j: nat, before: seq<Role>)
    requires s < 1024 && j < 1024
    ensures before + LeafRoles(page, d, s, j + 1)
         == if page[j] == ZERO then before + LeafRoles(page, d, s, j)
            else before + LeafRoles(page, d, s, j) + [Leaf(d, 1024 * s + j)]
  {
  }

  lemma NoLeafRoles(page: Page, d: Frame, s: nat, before: seq<Role>)
    requires s < 1024
    ensures before + LeafRoles(page, d, s, 0) == before
  {
  }

  lemma CloneRolesStep(mem: Memory, k: Frame, src: Frame, d: Frame, s: nat)
    requires s < 1024
    ensures CloneRoles(mem, k, src, d, s + 1) == CloneRoles(mem, k, src, d, s) + SlotRoles(mem, k, src, d, s)
    ensures !PrivateSlot(mem, k, src, s) ==> CloneRoles(mem, k, src, d, s + 1) == CloneRoles(mem, k, src, d, s)
  {
  }

  /** The frames of a table made from what the source table reads now. */
  lemma TableRoles(mem1: Memory, w1: World, mem0: Memory, w0: World, mem: Memory, w: World, c: Frame, m1: Mount,
                   m2: Mount,
                   src: Frame, d: Frame, s: nat, t: Word)
    requires Base(mem1, w1, c, m1, m2, src, d) && s < 1024 && PrivateSlot(mem1, w1.kernel, src, s)
    requires Cloned(mem1, w1, mem0, w0, src, d, s) && Aside(mem1, w1, mem, w, d)
    requires mem[d] == mem0[d][s := t] && t.flags == USER_RW
    ensures var source := mem[mem1[src][s].frame];
      SlotRoles(mem1, w1.kernel, src, d, s) == [Table(d, s)] + LeafRoles(source, d, s, |source|)
  {
    var from := mem1[src][s].frame;
    if from == d {
      forall j | 0 <= j < s ensures mem[d][j] == ZERO <==> mem1[src][j] == ZERO {
        assert SlotCloned(mem1, w1, mem0, w0, src, d, j);
      }
      SameLeafRoles(mem[d], mem1[src], d, s, s);
      assert mem[d][s] != ZERO;
      NoMoreLeafRoles(mem[d], d, s, s + 1, |mem[d]|);
    } else {
      assert Settled(w1, d, from);
    }
  }

  // ------------------------------------------------------------ one entry of a private table

  /** The table the loop reads for slot `s`. */
  function SourceTable(mem: Memory, src: Frame, s: nat): Frame
    requires s < 1024
  {
    mem[src][s].frame
  }

  /** Where the loop reads the source entry for page `1024 * s + j`, and where it writes the new one. */
  lemma EntryWalks(mem1: Memory, w1: World, mem: Memory, w: World, c: Frame, m1: Mount, m2: Mount,
                   src: Frame, d: Frame, to: Frame, s: nat, j: nat)
    requires Base(mem1, w1, c, m1, m2, src, d) && Now(mem1, w1, mem, w, c, d)
    requires s < 1024 && j < 1024 && PrivateSlot(mem1, w1.kernel, src, s) && mem[d][s] == Word(to, USER_RW)
    ensures m1.pages + 4 * (1024 * s + j) < 0x1_0000_0000 && m2.pages + 4 * (1024 * s + j) < 0x1_0000_0000
    ensures Walk(mem, c, m1.pages + 4 * (1024 * s + j)) == Some(Loc(SourceTable(mem1, src, s), j))
    ensures Walk(mem, c, m2.pages + 4 * (1024 * s + j)) == Some(Loc(to, j))
  {
    hide Inv, Active, Base, Now, Mounted, Walk;
    StillThere(mem1, w1, mem, w, c, m1, m2, src, d);
    BaseFacts(mem1, w1, c, m1, m2, src, d);
    MountedTables(mem, w, c, m1, src, 1024 * s + j);
    MountedTables(mem, w, c, m2, d, 1024 * s + j);
  }

  /** The source table is none of the new frames; it is in use, or is the directory being built. */
  lemma SourceApart(mem1: Memory, w1: World, c: Frame, m1: Mount, m2: Mount, src: Frame, d: Frame, s: nat, f: Frame)
    requires Base(mem1, w1, c, m1, m2, src, d) && s < 1024 && PrivateSlot(mem1, w1.kernel, src, s)
    requires w1.role[f].Free?
    ensures SourceTable(mem1, src, s) != f && d != f
    ensures SourceTable(mem1, src, s) == d || Settled(w1, d, SourceTable(mem1, src, s))
  {
  }

  /** Memory after entry `j` of the new table has been made for `was`, `f` being the frame taken. */
  function EntryMem(mem: Memory, to: Frame, j: nat, f: Frame, was: Word): Memory
    requires j < 1024
  {
    var mem2 := Put(mem, Loc(to, j), Word(f, USER_RW));
    var mem3 := mem2[f := mem2[was.frame]];
    Put(mem3, Loc(to, j), Word(f, USER_RW | was.flags))
  }

  /** The three writes one after the other: the new entry, the page, the entry with the flags added. */
  lemma EntrySteps(mem: Memory, to: Frame, j: nat, f: Frame, was: Word)
    requires j < 1024 && f != to
    ensures var mem2 := Put(mem, Loc(to, j), Word(f, USER_RW));
            var mem3 := mem2[mem2[to][j].frame := mem2[was.frame]];
      Put(mem3, Loc(to, j), Word(mem3[to][j].frame, mem3[to][j].flags | was.flags)) == EntryMem(mem, to, j, f, was)
  {
  }

  function EntryCost(page: Page, j: nat): nat
    requires j < 1024
  {
    if page[j] == ZERO then 0 else 1
  }

  /** The relation between the states before and after part of a private table is made. */
  ghost predicate MadeUpon(w1: World, mem0: Memory, w0: World, mem: Memory, w: World, d: Frame, to: Frame, cost: nat) {
    mem[d] == mem0[d] && Later(w1, mem0, w0, mem, w, to) && |w.free| + cost == |w0.free|
  }

  lemma MadeNothing(w1: World, mem: Memory, w: World, d: Frame, to: Frame)
    ensures MadeUpon(w1, mem, w, mem, w, d, to, 0)
  {
  }

  lemma MadeTwice(w1: World, mem0: Memory, w0: World, mem2: Memory, w2: World, mem: Memory, w: World,
                  d: Frame, to: Frame, cost: nat, cost': nat)
    requires MadeUpon(w1, mem0, w0, mem2, w2, d, to, cost) && MadeUpon(w1, mem2, w2, mem, w, d, to, cost')
    ensures MadeUpon(w1, mem0, w0, mem, w, d, to, cost + cost')
  {
  }

  lemma MadeCount(w1: World, mem0: Memory, w0: World, mem: Memory, w: World, d: Frame, to: Frame, cost: nat)
    requires MadeUpon(w1, mem0, w0, mem, w, d, to, cost)
    ensures |w.free| + cost == |w0.free|
  {
  }

  lemma EntryChanges(w1: World, mem0: Memory, w0: World, to: Frame, d: Frame, p: PageNum, j: nat, was: Word)
    requires j < 1024 && w0.free != []
    requires var f := w0.free[|w0.free| - 1];
             w1.role[f].Free? && w0.role[f].Free? && w1.role[to].Free? && !w0.role[to].Free? && !w1.role[d].Free?
    ensures var f := w0.free[|w0.free| - 1];
            var mem := EntryMem(mem0, to, j, f, was);
      && MadeUpon(w1, mem0, w0, mem, Taken(w0, Leaf(d, p)), d, to, 1)
      && mem[to] == mem0[to][j := Word(f, USER_RW | was.flags)]
      && (was.frame != to && was.frame != f ==> mem[f] == mem0[was.frame])
  {
    var f := w0.free[|w0.free| - 1];
    assert f != to && f != d && to != d;
    assert mem0[to][j := Word(f, USER_RW)][j := Word(f, USER_RW | was.flags)]
        == mem0[to][j := Word(f, USER_RW | was.flags)];
  }

  lemma EntryMade(source: Page, mem1: Memory, w1: World, mem0: Memory, w0: World, mem: Memory, w: World,
                  to: Frame, d: Frame, s: nat, j: nat)
    requires s < 1024 && j < 1024 && TableCloned(source, mem1, w1, mem0, w0, to, d, s, j)
    requires source[j] != ZERO && w0.free != [] && !w1.role[d].Free?
    requires var f := w0.free[|w0.free| - 1];
      w1.role[f].Free? && w0.role[f].Free? && mem == EntryMem(mem0, to, j, f, source[j])
    requires w == Taken(w0, Leaf(d, 1024 * s + j))
    requires Settled(w1, d, source[j].frame) ==> mem0[source[j].frame] == mem1[source[j].frame]
    ensures TableCloned(source, mem1, w1, mem, w, to, d, s, j + 1)
    ensures MadeUpon(w1, mem0, w0, mem, w, d, to, 1)
  {
    hide EntryMem, Taken;
    var f := w0.free[|w0.free| - 1];
    EntryChanges(w1, mem0, w0, to, d, 1024 * s + j, j, source[j]);
    TakenRole(w0, Leaf(d, 1024 * s + j));
    EntryDone(source, mem1, w1, mem0, w0, mem, w, to, d, s, j, Word(f, USER_RW | source[j].flags));
  }

  lemma TakenRole(w: World, r: Role)
    requires w.free != []
    ensures Taken(w, r).role[w.free[|w.free| - 1]] == r
  {
  }

  lemma EntryDone(source: Page, mem1: Memory, w1: World, mem: Memory, w: World, mem': Memory, w': World,
                  to: Frame, d: Frame, s: nat, j: nat, now: Word)
    requires s < 1024 && j < 1024 && TableCloned(source, mem1, w1, mem, w, to, d, s, j)
    requires Later(w1, mem, w, mem', w', to) && mem'[to] == mem[to][j := now]
    requires EntryCloned(mem1, w1, mem', w', source[j], now, d, 1024 * s + j)
    ensures TableCloned(source, mem1, w1, mem', w', to, d, s, j + 1)
  {
    forall i | 0 <= i < j ensures EntryCloned(mem1, w1, mem', w', source[i], mem'[to][i], d, 1024 * s + i) {
      assert EntryCloned(mem1, w1, mem, w, source[i], mem[to][i], d, 1024 * s + i);
    }
  }

  lemma EntrySkipped(source: Page, mem1: Memory, w1: World, mem: Memory, w: World, to: Frame, d: Frame, s: nat, j: nat)
    requires s < 1024 && j < 1024 && TableCloned(source, mem1, w1, mem, w, to, d, s, j) && source[j] == ZERO
    ensures TableCloned(source, mem1, w1, mem, w, to, d, s, j + 1)
  {
  }

  // ------------------------------------------------------------ one slot

  /** The new, empty table can be reached as soon as the directory being built names it. */
  lemma NewTableReached(mem1: Memory, w1: World, mem: Memory, w: World, c: Frame, m1: Mount, m2: Mount,
                        src: Frame, d: Frame, s: nat, t: Frame)
    requires Base(mem1, w1, c, m1, m2, src, d) && Now(mem1, w1, mem, w, c, d)
    requires s < 1024 && mem[d][s] == Word(t, USER_RW) && w1.role[t].Free?
    ensures m2.pages % PAGE_SIZE == 0 && m2.pages + PAGE_SIZE * s + PAGE_SIZE <= 0x1_0000_0000
    ensures forall i | 0 <= i < 1024 :: Walk(mem, c, m2.pages + PAGE_SIZE * s + 4 * i) == Some(Loc(t, i))
    ensures t != c && t != d && mem[c][DirIdx(m2.pages + PAGE_SIZE * s)].frame == d
  {
    hide Inv, Active, Base, Now, Walk;
    StillThere(mem1, w1, mem, w, c, m1, m2, src, d);
    BaseFacts(mem1, w1, c, m1, m2, src, d);
    forall i | 0 <= i < 1024 ensures Walk(mem, c, m2.pages + PAGE_SIZE * s + 4 * i) == Some(Loc(t, i)) {
      WindowWalk(mem, c, DirIdx(m2.pages), 1024 * s + i);
    }
    Split(DirIdx(m2.pages), s, 0);
  }

  lemma TableStarted(source: Page, mem1: Memory, w1: World, mem0: Memory, w0: World, d: Frame, s: nat)
    requires s < 1024 && w0.free != [] && w0.role[w0.free[|w0.free| - 1]].Free?
    requires w1.role[w0.free[|w0.free| - 1]].Free? && !w1.role[d].Free? && !w0.role[d].Free?
    ensures var t := w0.free[|w0.free| - 1];
            var w := Taken(w0, Table(d, s));
            var mem := Clear(Put(mem0, Loc(d, s), Word(t, USER_RW)), t);
      && TableCloned(source, mem1, w1, mem, w, t, d, s, 0)
      && mem[d] == mem0[d][s := Word(t, USER_RW)]
      && Later(w1, mem0, w0, mem, w, t) && |w.free| + 1 == |w0.free|
  {
  }

  /** What the new table is made from: the source table as it was, or the directory being built. */
  lemma SourceNow(mem1: Memory, w1: World, mem0: Memory, w0: World, mem: Memory, w: World, c: Frame, m1: Mount,
                  m2: Mount,
                  src: Frame, d: Frame, s: nat, t: Word)
    requires Base(mem1, w1, c, m1, m2, src, d) && s < 1024 && PrivateSlot(mem1, w1.kernel, src, s)
    requires Cloned(mem1, w1, mem0, w0, src, d, s) && Aside(mem1, w1, mem, w, d)
    requires mem[d] == mem0[d][s := t] && t.flags == USER_RW
    ensures var from := SourceTable(mem1, src, s);
      && (from != d ==> mem[from] == mem1[from])
      && 1 + Entries(mem[from], |mem[from]|) == SlotCost(mem1, w1.kernel, src, d, s)
  {
    var from := SourceTable(mem1, src, s);
    if from == d {
      OwnEntries(mem1, w1, mem0, w0, src, d, s, mem[d], t);
    } else {
      assert Settled(w1, d, from);
    }
  }

  /** The relation between the states before and after slot `s` has been handled. */
  ghost predicate SlotMade(w1: World, mem0: Memory, w0: World, mem: Memory, w: World, d: Frame, s: nat, cost: nat)
    requires s < 1024
  {
    && mem[d] == mem0[d][s := mem[d][s]]
    && (forall f: Frame | !w0.role[f].Free? :: w.role[f] == w0.role[f])
    && (forall f: Frame | w1.role[f].Free? && !w0.role[f].Free? :: mem[f] == mem0[f])
    && |w.free| + cost == |w0.free|
  }

  lemma TableFinished(source: Page, mem1: Memory, w1: World, mem0: Memory, w0: World, mem2: Memory, w2: World,
                      mem: Memory, w: World, src: Frame, d: Frame, s: nat, t: Frame, cost: nat)
    requires s < 1024 && w0.role[t].Free? && PrivateSlot(mem1, w1.kernel, src, s)
    requires mem2[d] == mem0[d][s := Word(t, USER_RW)]
    requires Later(w1, mem0, w0, mem2, w2, t) && |w2.free| + 1 == |w0.free|
    requires MadeUpon(w1, mem2, w2, mem, w, d, t, cost)
    requires TableCloned(source, mem1, w1, mem, w, t, d, s, 1024)
    requires SourceTable(mem1, src, s) != d ==> source == mem1[SourceTable(mem1, src, s)]
    ensures SlotCloned(mem1, w1, mem, w, src, d, s)
    ensures SlotMade(w1, mem0, w0, mem, w, d, s, 1 + cost)
  {
    assert w.role[t] == Table(d, s) && w1.role[t].Free?;
    hide TableCloned, PrivateSlot;
  }

  lemma SlotShared(mem1: Memory, w1: World, mem0: Memory, w0: World, src: Frame, d: Frame, s: nat, x: Word)
    requires s < 1024 && !PrivateSlot(mem1, w1.kernel, src, s) && x == mem1[src][s] && !w1.role[d].Free?
    ensures SlotCloned(mem1, w1, Put(mem0, Loc(d, s), x), w0, src, d, s)
    ensures SlotMade(w1, mem0, w0, Put(mem0, Loc(d, s), x), w0, d, s, 0)
  {
  }

  lemma SlotAdvance(mem1: Memory, w1: World, mem0: Memory, w0: World, mem: Memory, w: World, src: Frame, d: Frame,
                    s: nat, cost: nat)
    requires s < 1024 && Cloned(mem1, w1, mem0, w0, src, d, s) && Aside(mem1, w1, mem, w, d)
    requires SlotCloned(mem1, w1, mem, w, src, d, s) && SlotMade(w1, mem0, w0, mem, w, d, s, cost)
    requires !w1.role[d].Free?
    ensures Cloned(mem1, w1, mem, w, src, d, s + 1)
  {
    hide Aside, SlotCloned;
    forall i | 0 <= i < s ensures SlotCloned(mem1, w1, mem, w, src, d, i) {
      assert SlotCloned(mem1, w1, mem0, w0, src, d, i);
      assert Later(w1, mem0, w0, mem, w, d);
      SlotKept(mem1, w1, mem0, w0, mem, w, src, d, i);
    }
  }

  lemma SlotPrice(w1: World, mem0: Memory, w0: World, mem: Memory, w: World, d: Frame, s: nat, cost: nat)
    requires s < 1024 && SlotMade(w1, mem0, w0, mem, w, d, s, cost)
    ensures |w.free| + cost == |w0.free|
  {
  }

  lemma HeldStays(mem1: Memory, w1: World, mem: Memory, w: World, c: Frame, m1: Mount, m2: Mount, src: Frame, d: Frame)
    requires Base(mem1, w1, c, m1, m2, src, d) && Aside(mem1, w1, mem, w, d)
    ensures w.role[d] == Held
  {
  }

  lemma SlotEmpty(mem1: Memory, w1: World, mem: Memory, w: World, src: Frame, d: Frame, s: nat)
    requires s < 1024 && Cloned(mem1, w1, mem, w, src, d, s)
    ensures Put(mem, Loc(d, s), ZERO) == mem
  {
    assert mem[d][s] == ZERO;
    assert mem[d][s := ZERO] == mem[d];
  }

  // ------------------------------------------------------------ both directories mounted

  /** The mount point find_mount_point finds, if there is one. */
  function FirstMount(mem: Memory, c: Frame): Mount {
    Mount(PAGE_SIZE * FreeDirPage(mem, c, DIR_FIRST), 0x40_0000 * FreeTabSlot(mem, c, TAB_FIRST))
  }

  /** The state after both mounts, `d` being the frame just taken from the stack. */
  function BothMounted(mem: Memory, w: World, c: Frame, m1: Mount, m2: Mount, src: Frame, d: Frame): Memory
    requires IsMount(m1) && IsMount(m2)
  {
    MountMem(MountMem(mem, w, c, m1, Word(src, KERNEL_RW)), w, c, m2, Word(d, KERNEL_RW))
  }

  /** The same from the state before: what the loops of clone_directory read. */
  function WithMounts(mem: Memory, w: World, c: Frame, src: Frame, d: Frame): Memory {
    var m1 := FirstMount(mem, c);
    if !IsMount(m1) then mem else
    var mem' := MountMem(mem, w, c, m1, Word(src, KERNEL_RW));
    var m2 := FirstMount(mem', c);
    if !IsMount(m2) then mem' else MountMem(mem', w, c, m2, Word(d, KERNEL_RW))
  }

  /** Both mounts are at the places find_mount_point finds. */
  predicate FoundMounts(mem: Memory, w: World, c: Frame, m1: Mount, m2: Mount, src: Frame) {
    && m1 == FirstMount(mem, c) && Vacant(mem, w, c, m1)
    && m2 == FirstMount(MountMem(mem, w, c, m1, Word(src, KERNEL_RW)), c)
    && Vacant(MountMem(mem, w, c, m1, Word(src, KERNEL_RW)), w, c, m2)
  }

  /** A slot the loop takes for private holds a table of the source, its window, or a mount. */
  lemma PrivateHolds(mem: Memory, w: World, src: Frame, i: nat)
    requires Inv(mem, w) && IsDir(w, src) && i < 1024 && PrivateSlot(mem, w.kernel, src, i)
    ensures TAB_FIRST <= i < TAB_LIMIT || mem[src][i].frame == src || w.role[mem[src][i].frame] == Table(src, i)
    ensures !w.role[src].Free?
    ensures i == 959 ==> mem[src][i].frame == src
    ensures !Shared(i)
  {
    assert src == w.kernel || DirOk(mem, w, src);
    assert TAB_FIRST <= i < TAB_LIMIT || i == 959 || Shared(i) || Private(i);
  }

  lemma SourceSteady(mem: Memory, w: World, c: Frame, m1: Mount, m2: Mount, src: Frame, i: nat)
    requires Inv(mem, w) && Active(mem, w, c) && w.free != [] && IsDir(w, src) && MountsInUse(mem, w, src)
    requires IsMount(m1) && IsMount(m2) && i < 1024
    requires var mem1 := BothMounted(mem, w, c, m1, m2, src, w.free[|w.free| - 1]);
             Inv(mem1, w) && PrivateSlot(mem1, w.kernel, src, i)
    ensures !Popped(w).role[BothMounted(mem, w, c, m1, m2, src, w.free[|w.free| - 1])[src][i].frame].Free?
  {
    hide Inv, SelfMapped, Active;
    var d := w.free[|w.free| - 1];
    var mem1 := BothMounted(mem, w, c, m1, m2, src, d);
    KernelTable1021(mem, w, c);
    PrivateHolds(mem1, w, src, i);
    if TAB_FIRST <= i < TAB_LIMIT && mem1[src][i] != Word(src, KERNEL_RW) && mem1[src][i] != Word(d, KERNEL_RW) {
      assert mem1[src][i] == mem[src][i];
    }
  }

  lemma CloneStarts(mem: Memory, w: World, c: Frame, m1: Mount, m2: Mount, src: Frame)
    requires Inv(mem, w) && Active(mem, w, c) && w.free != []
    requires IsDir(w, src) && MountsInUse(mem, w, src) && FoundMounts(mem, w, c, m1, m2, src)
    ensures var d := w.free[|w.free| - 1];
            var mem1 := BothMounted(mem, w, c, m1, m2, src, d);
            Base(mem1, Popped(w), c, m1, m2, src, d) && mem1 == WithMounts(mem, w, c, src, d)
  {
    hide Inv, SelfMapped, Active, WindowsKept, MountsInUse, PrivateSlot, FirstMount;
    var d := w.free[|w.free| - 1];
    var memM := MountMem(mem, w, c, m1, Word(src, KERNEL_RW));
    var mem1 := BothMounted(mem, w, c, m1, m2, src, d);
    MountInv(mem, w, c, m1, Word(src, KERNEL_RW));
    MountInv(memM, w, c, m2, Word(d, KERNEL_RW));
    PopInv(mem1, w);
    ActiveKept(mem1, w, mem1, Popped(w), c);
    BothShown(mem, w, c, m1, m2, src, d);
    forall i | 0 <= i < 1024 && PrivateSlot(mem1, w.kernel, src, i) ensures !Popped(w).role[mem1[src][i].frame].Free? {
      SourceSteady(mem, w, c, m1, m2, src, i);
    }
  }

  lemma BothShown(mem: Memory, w: World, c: Frame, m1: Mount, m2: Mount, src: Frame, d: Frame)
    requires Inv(mem, w) && Active(mem, w, c)
    requires Vacant(mem, w, c, m1) && Vacant(MountMem(mem, w, c, m1, Word(src, KERNEL_RW)), w, c, m2)
    ensures Mounted(BothMounted(mem, w, c, m1, m2, src, d), w, c, m1, src)
    ensures Mounted(BothMounted(mem, w, c, m1, m2, src, d), w, c, m2, d)
    ensures w.role[w.kernel] == KernelDir
  {
    hide Inv, SelfMapped, Active;
    KernelTable1021(mem, w, c);
  }

  /** Mounting does not care that a frame has just left the stack. */
  lemma PoppedMounts(mem: Memory, w: World, c: Frame, m1: Mount, m2: Mount, src: Frame, d: Frame)
    requires w.free != [] && FoundMounts(mem, Popped(w), c, m1, m2, src)
    ensures FoundMounts(mem, w, c, m1, m2, src)
    ensures MountMem(MountMem(mem, Popped(w), c, m1, Word(src, KERNEL_RW)), Popped(w), c, m2, Word(d, KERNEL_RW))
         == BothMounted(mem, w, c, m1, m2, src, d)
  {
  }

  // ------------------------------------------------------------ the end of clone_directory

  /** The self-mapping: a table for slot 958, its last entry, and slot 959. */
  function SelfMapMem(mem: Memory, d: Frame, t: Frame): Memory {
    var mem1 := Put(Put(mem, Loc(d, 958), Word(t, KERNEL_RW)), Loc(t, 1023), Word(d, KERNEL_RW));
    Put(mem1, Loc(d, 959), Word(d, KERNEL_RW))
  }

  function Promoted(w: World, d: Frame): World {
    w.(role := w.role[d := Directory])
  }

  lemma NewSlotOk(mem1: Memory, w1: World, mem: Memory, w: World, src: Frame, d: Frame, s: nat)
    requires s < 1024 && SlotCloned(mem1, w1, mem, w, src, d, s)
    requires mem1[src][s] == ZERO || Present(mem1[src][s])
    requires Shared(s) ==> mem1[src][s] == mem1[w1.kernel][s]
    ensures mem[d][s] == ZERO || Present(mem[d][s])
    ensures Shared(s) ==> mem[d][s] == mem1[w1.kernel][s]
    ensures mem[d][s] == ZERO || mem[d][s] == mem1[w1.kernel][s]
         || (w.role[mem[d][s].frame] == Table(d, s) && !w.role[mem[d][s].frame].Free?)
  {
    hide TableCloned;
  }

  lemma NewDirOk(mem1: Memory, w1: World, mem: Memory, w: World, c: Frame, m1: Mount, m2: Mount, src: Frame, d: Frame)
    requires Base(mem1, w1, c, m1, m2, src, d) && Now(mem1, w1, mem, w, c, d)
    requires Cloned(mem1, w1, mem, w, src, d, 1024) && w.free != []
    ensures var t := w.free[|w.free| - 1];
      DirOk(SelfMapMem(mem, d, t), Promoted(Taken(w, Table(d, 958)), d), d)
      && SelfMapped(SelfMapMem(mem, d, t), Promoted(Taken(w, Table(d, 958)), d), d)
  {
    hide Base, Now, Inv, Active, Aside, Mounted, DirOk, SlotCloned, WindowsKept;
    var t := w.free[|w.free| - 1];
    TakeAside(mem1, w1, mem, w, c, d, Table(d, 958));
    StillThere(mem1, w1, mem, w, c, m1, m2, src, d);
    BaseFacts(mem1, w1, c, m1, m2, src, d);
    SourceShares(mem1, w1, c, m1, m2, src, d);
    var memF, wF := SelfMapMem(mem, d, t), Promoted(Taken(w, Table(d, 958)), d);
    assert t != d;
    KernelHeld(mem1, w1, mem, w, c, d);
    assert memF[w.kernel] == mem1[w.kernel];
    forall s | 0 <= s < 1024 && s != 958 && s != 959
      ensures memF[d][s] == ZERO || Present(memF[d][s])
      ensures Shared(s) ==> memF[d][s] == memF[w.kernel][s]
      ensures memF[d][s] == ZERO || memF[d][s] == memF[w.kernel][s] || wF.role[memF[d][s].frame] == Table(d, s)
    {
      assert SlotCloned(mem1, w1, mem, w, src, d, s);
      NewSlotOk(mem1, w1, mem, w, src, d, s);
      assert memF[d][s] == mem[d][s];
    }
    hide Later;
    DirOkFrom(memF, wF, d, t);
  }

  lemma KernelHeld(mem1: Memory, w1: World, mem: Memory, w: World, c: Frame, d: Frame)
    requires Now(mem1, w1, mem, w, c, d) && w1.role[w1.kernel] == KernelDir
    ensures w.role[w.kernel] == KernelDir
  {
  }

  lemma DirOkFrom(mem: Memory, w: World, d: Frame, t: Frame)
    requires forall s | 0 <= s < 1024 && s != 958 && s != 959 ::
      (mem[d][s] == ZERO || Present(mem[d][s]))
      && (Shared(s) ==> mem[d][s] == mem[w.kernel][s])
      && (mem[d][s] == ZERO || mem[d][s] == mem[w.kernel][s] || w.role[mem[d][s].frame] == Table(d, s))
    requires mem[d][958] == Word(t, KERNEL_RW) && w.role[t] == Table(d, 958)
    requires mem[t][1023] == Word(d, KERNEL_RW) && mem[d][959] == Word(d, KERNEL_RW)
    ensures DirOk(mem, w, d) && SelfMapped(mem, w, d)
  {
  }

  lemma SourceShares(mem: Memory, w: World, c: Frame, m1: Mount, m2: Mount, src: Frame, d: Frame)
    requires Base(mem, w, c, m1, m2, src, d)
    ensures forall i | 0 <= i < 1024 && Shared(i) :: mem[src][i] == mem[w.kernel][i] && mem[src][i] != ZERO
    ensures EntriesOk(mem, src)
  {
    assert src == w.kernel || DirOk(mem, w, src);
  }

  /** The owners of the frames the loops take. */
  function LoopRoles(mem: Memory, k: Frame, src: Frame, d: Frame): (rs: seq<Role>)
    ensures |rs| == LoopCost(mem, k, src, d)
  {
    CloneRoles(mem, k, src, d, |mem[src]|)
  }

  /** The ownership a successful clone_directory(src) leaves, from the state it begins in. */
  function CloneWorld(mem: Memory, w: World, c: Frame, src: Frame): World {
    if w.free == [] then w else
    var d := w.free[|w.free| - 1];
    var rs := LoopRoles(WithMounts(mem, w, c, src, d), w.kernel, src, d) + [Table(d, 958)];
    if |rs| <= |Popped(w).free| then Promoted(TakenAll(Popped(w), rs), d) else w
  }

  /** What a successful clone_directory(src) leaves, compared with the state it began in. */
  ghost predicate CloneOk(mem0: Memory, w0: World, mem: Memory, w: World, c: Frame, src: Frame, d: Frame, t: Frame) {
    && w0.role[d].Free? && w.role[d] == Directory && SelfMapped(mem, w, d)
    // the table of slot 958 is a fresh frame that is not cleared: only its last entry is written
    && w0.role[t].Free? && mem[d][958] == Word(t, KERNEL_RW)
    && (forall j | 0 <= j < 1023 :: mem[t][j] == mem0[t][j])
    // every other slot is taken over or copied from what the source holds while both are mounted
    && (forall s | 0 <= s < 1024 && s != 958 && s != 959 ::
         SlotCloned(WithMounts(mem0, w0, c, src, d), w0, mem, w, src, d, s))
    // everybody else is as before, the source included
    && w.kernel == w0.kernel && w.base == w0.base && w.storage == w0.storage
    && (forall f: Frame | !w0.role[f].Free? :: w.role[f] == w0.role[f])
    && (forall f: Frame | !w0.role[f].Free? :: mem[f] == mem0[f])
    // and the price is exact: the directory first, the loops, the table of slot 958 last
    && |w.free| + 2 + LoopCost(WithMounts(mem0, w0, c, src, d), w0.kernel, src, d) == |w0.free|
    && w.free == w0.free[..|w.free|] && t == w0.free[|w.free|] && d == w0.free[|w0.free| - 1]
    // and so are the owners of all frames
    && w == CloneWorld(mem0, w0, c, src)
  }

  /** What a call of clone_directory takes from the stack. */
  function Price(mem: Memory, w: World, c: Frame, src: Frame): nat {
    2 + if w.free == [] then 0
        else LoopCost(WithMounts(mem, w, c, src, w.free[|w.free| - 1]), w.kernel, src, w.free[|w.free| - 1])
  }

  lemma PriceAtLeast(mem: Memory, w: World, c: Frame, src: Frame)
    ensures Price(mem, w, c, src) >= 2
  {
    hide WithMounts, LoopCost;
  }

  /** Both directories unmounted again. */
  function BothUnmounted(mem: Memory, w: World, c: Frame, m1: Mount, m2: Mount): Memory
    requires IsMount(m1) && IsMount(m2)
  {
    MountMem(MountMem(mem, w, c, m1, ZERO), w, c, m2, ZERO)
  }

  /** How the state after mounting (`mem1`, `w1`) relates to the one before (`mem0`, `w0`). */
  ghost predicate Setting(mem0: Memory, w0: World, mem1: Memory, w1: World, c: Frame, k: Frame,
                          m1: Mount, m2: Mount, src: Frame, d: Frame) {
    && Base(mem1, w1, c, m1, m2, src, d) && mem1 == WithMounts(mem0, w0, c, src, d)
    && IsMount(m1) && IsMount(m2)
    && w0.free != [] && w1 == Popped(w0)
    && w1.kernel == w0.kernel && w1.base == w0.base && w1.storage == w0.storage
    && |w1.free| + 1 == |w0.free| && w0.free == w1.free + [d]
    && w0.role[d].Free? && (forall f: Frame | f != d :: w1.role[f] == w0.role[f])
    && w0.role[k] == KernelTable(1021) && IsDir(w0, c) && IsDir(w0, src) && w0.role[w0.kernel] == KernelDir
    && mem1[w0.kernel][1021].frame == k
    && (forall f: Frame | f != c && f != k :: mem1[f] == mem0[f])
    && mem0[k] == mem1[k][PageOf(m1.directory) % 1024 := ZERO][PageOf(m2.directory) % 1024 := ZERO]
    && mem0[c] == mem1[c][DirIdx(m1.pages) := ZERO][DirIdx(m2.pages) := ZERO]
  }

  lemma SettingPrice(mem0: Memory, w0: World, mem1: Memory, w1: World, c: Frame, k: Frame,
                     m1: Mount, m2: Mount, src: Frame, d: Frame)
    requires Setting(mem0, w0, mem1, w1, c, k, m1, m2, src, d)
    ensures w0.free != [] && Price(mem0, w0, c, src) == 2 + LoopCost(mem1, w1.kernel, src, d)
    ensures |w1.free| + 1 == |w0.free|
  {
    hide Base, CloneCost, WithMounts;
  }

  lemma CloneOkPrice(mem0: Memory, w0: World, mem: Memory, w: World, c: Frame, src: Frame, d: Frame, t: Frame)
    requires CloneOk(mem0, w0, mem, w, c, src, d, t)
    ensures Price(mem0, w0, c, src) <= |w0.free|
  {
    hide SlotCloned, LoopCost, SelfMapped, WithMounts;
  }

  lemma SettingHolds(mem: Memory, w: World, c: Frame, m1: Mount, m2: Mount, src: Frame)
    requires Inv(mem, w) && Active(mem, w, c) && w.free != []
    requires IsDir(w, src) && MountsInUse(mem, w, src) && FoundMounts(mem, w, c, m1, m2, src)
    ensures var d := w.free[|w.free| - 1];
            var k := mem[w.kernel][1021].frame;
      Setting(mem, w, BothMounted(mem, w, c, m1, m2, src, d), Popped(w), c, k, m1, m2, src, d)
  {
    hide Inv, Active, MountsInUse, Base, FirstMount, WithMounts;
    var d, k := w.free[|w.free| - 1], mem[w.kernel][1021].frame;
    var mem1 := BothMounted(mem, w, c, m1, m2, src, d);
    FreeTop(mem, w);
    CloneStarts(mem, w, c, m1, m2, src);
    KernelTable1021(mem, w, c);
    assert mem[k] == mem1[k][PageOf(m1.directory) % 1024 := ZERO][PageOf(m2.directory) % 1024 := ZERO];
    assert mem[c] == mem1[c][DirIdx(m1.pages) := ZERO][DirIdx(m2.pages) := ZERO];
  }

  /** The loops are done. */
  ghost predicate LoopsDone(mem0: Memory, w0: World, mem1: Memory, w1: World, mem: Memory, w: World, c: Frame, k: Frame,
                            m1: Mount, m2: Mount, src: Frame, d: Frame) {
    && Setting(mem0, w0, mem1, w1, c, k, m1, m2, src, d)
    && Now(mem1, w1, mem, w, c, d) && Cloned(mem1, w1, mem, w, src, d, 1024)
    && |w.free| + LoopCost(mem1, w1.kernel, src, d) == |w1.free|
    && w.free != [] && Tracks(w1, w, LoopRoles(mem1, w1.kernel, src, d))
  }

  function EndWorld(w: World, d: Frame): World
    requires w.free != []
  {
    Promoted(Taken(w, Table(d, 958)), d)
  }

  function EndMem(mem: Memory, w: World, c: Frame, m1: Mount, m2: Mount, d: Frame): Memory
    requires w.free != [] && IsMount(m1) && IsMount(m2)
  {
    BothUnmounted(SelfMapMem(mem, d, w.free[|w.free| - 1]), EndWorld(w, d), c, m1, m2)
  }

  lemma SettingFacts(mem0: Memory, w0: World, mem1: Memory, w1: World, c: Frame, k: Frame,
                     m1: Mount, m2: Mount, src: Frame, d: Frame)
    requires Setting(mem0, w0, mem1, w1, c, k, m1, m2, src, d)
    ensures Base(mem1, w1, c, m1, m2, src, d) && IsMount(m1) && IsMount(m2) && w1.role[d] == Held
    ensures mem1 == WithMounts(mem0, w0, c, src, d)
    ensures w1.kernel == w0.kernel && w1.base == w0.base && w1.storage == w0.storage
    ensures w0.free == w1.free + [d] && w0.role[d].Free?
    ensures forall f: Frame | f != d :: w1.role[f] == w0.role[f]
    ensures w0.role[k] == KernelTable(1021) && mem1[w0.kernel][1021].frame == k
    ensures IsDir(w0, c) && w0.role[w0.kernel] == KernelDir
    ensures forall f: Frame | f != c && f != k :: mem1[f] == mem0[f]
    ensures w0.free != [] && w1 == Popped(w0) && d == w0.free[|w0.free| - 1]
  {
    hide Inv, Active, Mounted, WithMounts;
  }

  /** The frame for the table of slot 958 is one more fresh frame. */
  lemma LastFrame(mem0: Memory, w0: World, mem1: Memory, w1: World, mem: Memory, w: World, c: Frame, k: Frame,
                  m1: Mount, m2: Mount, src: Frame, d: Frame)
    requires LoopsDone(mem0, w0, mem1, w1, mem, w, c, k, m1, m2, src, d)
    ensures var t := w.free[|w.free| - 1];
            w.role[t].Free? && w1.role[t].Free? && w0.role[t].Free? && t != d && mem[t] == mem0[t]
    ensures w1.role[d] == Held && w.role[d] == Held
    ensures forall f: Frame | !w1.role[f].Free? :: w.role[f] == w1.role[f]
    ensures forall f: Frame | Settled(w1, d, f) :: mem[f] == mem1[f]
  {
    hide Base, Cloned, CloneCost, Active, WithMounts;
    FreeTop(mem, w);
    SettingFacts(mem0, w0, mem1, w1, c, k, m1, m2, src, d);
    hide Inv;
  }

  /** The two frames the mounts changed are as before, every other frame as the self-mapping left it. */
  lemma EndSelf(mem0: Memory, w0: World, mem1: Memory, w1: World, mem: Memory, w: World, c: Frame, k: Frame,
                m1: Mount, m2: Mount, src: Frame, d: Frame)
    requires LoopsDone(mem0, w0, mem1, w1, mem, w, c, k, m1, m2, src, d)
    ensures var mem' := EndMem(mem, w, c, m1, m2, d);
      && mem'[c] == mem0[c] && mem'[k] == mem0[k]
      && forall f: Frame | f != c && f != k :: mem'[f] == SelfMapMem(mem, d, w.free[|w.free| - 1])[f]
  {
    hide Base, Cloned, CloneCost, Inv, Active, Now, Aside, WithMounts;
    LastFrame(mem0, w0, mem1, w1, mem, w, c, k, m1, m2, src, d);
    assert w.kernel == w1.kernel by { NowAside(mem1, w1, mem, w, c, d); AsideWorld(mem1, w1, mem, w, d); }
    SettingFacts(mem0, w0, mem1, w1, c, k, m1, m2, src, d);
    var memF := SelfMapMem(mem, d, w.free[|w.free| - 1]);
    assert memF[c] == mem1[c] && memF[k] == mem1[k] && memF[w0.kernel] == mem1[w0.kernel];
    UnmountedFrames(memF, EndWorld(w, d), c, k, m1, m2);
  }

  lemma UnmountedFrames(mem: Memory, w: World, c: Frame, k: Frame, m1: Mount, m2: Mount)
    requires IsMount(m1) && IsMount(m2) && mem[w.kernel][1021].frame == k && k != c && k != w.kernel
    ensures var mem' := BothUnmounted(mem, w, c, m1, m2);
      && mem'[k] == mem[k][PageOf(m1.directory) % 1024 := ZERO][PageOf(m2.directory) % 1024 := ZERO]
      && mem'[c] == mem[c][DirIdx(m1.pages) := ZERO][DirIdx(m2.pages) := ZERO]
      && forall f: Frame | f != c && f != k :: mem'[f] == mem[f]
  {
  }

  /** Frames in use before are as they were. */
  lemma EndKept(mem0: Memory, w0: World, mem1: Memory, w1: World, mem: Memory, w: World, c: Frame, k: Frame,
                m1: Mount, m2: Mount, src: Frame, d: Frame, f: Frame)
    requires LoopsDone(mem0, w0, mem1, w1, mem, w, c, k, m1, m2, src, d) && !w0.role[f].Free?
    ensures EndMem(mem, w, c, m1, m2, d)[f] == mem0[f]
  {
    hide LoopsDone, EndMem, Setting, Base, WithMounts;
    DoneSetting(mem0, w0, mem1, w1, mem, w, c, k, m1, m2, src, d);
    SettingFacts(mem0, w0, mem1, w1, c, k, m1, m2, src, d);
    EndSelf(mem0, w0, mem1, w1, mem, w, c, k, m1, m2, src, d);
    LastFrame(mem0, w0, mem1, w1, mem, w, c, k, m1, m2, src, d);
    assert f != c && f != k ==> Settled(w1, d, f);
  }

  /** Frames taken by the loops are as the loops left them. */
  lemma EndFresh(mem0: Memory, w0: World, mem1: Memory, w1: World, mem: Memory, w: World, c: Frame, k: Frame,
                 m1: Mount, m2: Mount, src: Frame, d: Frame, f: Frame)
    requires LoopsDone(mem0, w0, mem1, w1, mem, w, c, k, m1, m2, src, d) && w1.role[f].Free? && !w.role[f].Free?
    ensures EndMem(mem, w, c, m1, m2, d)[f] == mem[f] && EndWorld(w, d).role[f] == w.role[f]
  {
    hide LoopsDone, EndMem, Setting, Base, WithMounts;
    DoneSetting(mem0, w0, mem1, w1, mem, w, c, k, m1, m2, src, d);
    SettingFacts(mem0, w0, mem1, w1, c, k, m1, m2, src, d);
    EndSelf(mem0, w0, mem1, w1, mem, w, c, k, m1, m2, src, d);
    LastFrame(mem0, w0, mem1, w1, mem, w, c, k, m1, m2, src, d);
  }

  /** The new directory and its table of slot 958. */
  lemma EndNew(mem0: Memory, w0: World, mem1: Memory, w1: World, mem: Memory, w: World, c: Frame, k: Frame,
               m1: Mount, m2: Mount, src: Frame, d: Frame)
    requires LoopsDone(mem0, w0, mem1, w1, mem, w, c, k, m1, m2, src, d)
    ensures EndMem(mem, w, c, m1, m2, d)[d] == SelfMapMem(mem, d, w.free[|w.free| - 1])[d]
    ensures EndMem(mem, w, c, m1, m2, d)[w.free[|w.free| - 1]]
         == SelfMapMem(mem, d, w.free[|w.free| - 1])[w.free[|w.free| - 1]]
  {
    hide LoopsDone, EndMem, Setting, Base, WithMounts, SelfMapMem;
    DoneSetting(mem0, w0, mem1, w1, mem, w, c, k, m1, m2, src, d);
    SettingFacts(mem0, w0, mem1, w1, c, k, m1, m2, src, d);
    EndSelf(mem0, w0, mem1, w1, mem, w, c, k, m1, m2, src, d);
    LastFrame(mem0, w0, mem1, w1, mem, w, c, k, m1, m2, src, d);
  }

  lemma DoneSetting(mem0: Memory, w0: World, mem1: Memory, w1: World, mem: Memory, w: World, c: Frame, k: Frame,
                    m1: Mount, m2: Mount, src: Frame, d: Frame)
    requires LoopsDone(mem0, w0, mem1, w1, mem, w, c, k, m1, m2, src, d)
    ensures Setting(mem0, w0, mem1, w1, c, k, m1, m2, src, d) && w.free != []
    ensures Cloned(mem1, w1, mem, w, src, d, 1024) && Aside(mem1, w1, mem, w, d)
    ensures |w.free| + LoopCost(mem1, w1.kernel, src, d) == |w1.free|
    ensures Tracks(w1, w, LoopRoles(mem1, w1.kernel, src, d))
  {
    hide Inv, Active, Cloned, Setting, CloneCost, CloneRoles, Tracks;
  }

  lemma SlotEnds(mem1: Memory, w0: World, w1: World, mem: Memory, w: World, mem': Memory, w': World,
                 src: Frame, d: Frame, s: nat)
    requires s < 1024 && SlotCloned(mem1, w1, mem, w, src, d, s) && w1.kernel == w0.kernel
    requires w0.role[d].Free? && w1.role[d] == Held && forall f: Frame | f != d :: w1.role[f] == w0.role[f]
    requires forall f: Frame | w1.role[f].Free? && !w.role[f].Free? :: w'.role[f] == w.role[f] && mem'[f] == mem[f]
    requires mem'[d][s] == mem[d][s]
    ensures SlotCloned(mem1, w0, mem', w', src, d, s)
  {
    if PrivateSlot(mem1, w1.kernel, src, s) && mem1[src][s].frame != d {
      var source, to := mem1[mem1[src][s].frame], mem[d][s].frame;
      assert TableCloned(source, mem1, w1, mem, w, to, d, s, 1024);
      forall j | 0 <= j < 1024 ensures EntryCloned(mem1, w0, mem', w', source[j], mem'[to][j], d, 1024 * s + j) {
        assert EntryCloned(mem1, w1, mem, w, source[j], mem[to][j], d, 1024 * s + j);
      }
    }
  }

  lemma EndSlot(mem0: Memory, w0: World, mem1: Memory, w1: World, mem: Memory, w: World, c: Frame, k: Frame,
                m1: Mount, m2: Mount, src: Frame, d: Frame, s: nat)
    requires LoopsDone(mem0, w0, mem1, w1, mem, w, c, k, m1, m2, src, d)
    requires s < 1024 && s != 958 && s != 959
    ensures SlotCloned(mem1, w0, EndMem(mem, w, c, m1, m2, d), EndWorld(w, d), src, d, s)
  {
    hide LoopsDone, Setting, EndMem, SlotCloned, Aside, EndWorld, Base;
    DoneSetting(mem0, w0, mem1, w1, mem, w, c, k, m1, m2, src, d);
    assert SlotCloned(mem1, w1, mem, w, src, d, s);
    SettingFacts(mem0, w0, mem1, w1, c, k, m1, m2, src, d);
    forall f: Frame | w1.role[f].Free? && !w.role[f].Free?
      ensures EndMem(mem, w, c, m1, m2, d)[f] == mem[f] && EndWorld(w, d).role[f] == w.role[f]
    {
      EndFresh(mem0, w0, mem1, w1, mem, w, c, k, m1, m2, src, d, f);
    }
    EndNew(mem0, w0, mem1, w1, mem, w, c, k, m1, m2, src, d);
    LastFrame(mem0, w0, mem1, w1, mem, w, c, k, m1, m2, src, d);
    SlotEnds(mem1, w0, w1, mem, w, EndMem(mem, w, c, m1, m2, d), EndWorld(w, d), src, d, s);
  }

  /** The directory and the table of slot 958 at the end. */
  lemma EndWindows(mem0: Memory, w0: World, mem1: Memory, w1: World, mem: Memory, w: World, c: Frame, k: Frame,
                   m1: Mount, m2: Mount, src: Frame, d: Frame)
    requires LoopsDone(mem0, w0, mem1, w1, mem, w, c, k, m1, m2, src, d)
    ensures var t, mem' := w.free[|w.free| - 1], EndMem(mem, w, c, m1, m2, d);
      && EndWorld(w, d).role[d] == Directory
      && SelfMapped(mem', EndWorld(w, d), d) && mem'[d][958] == Word(t, KERNEL_RW)
      && forall j | 0 <= j < 1023 :: mem'[t][j] == mem0[t][j]
  {
    hide LoopsDone, EndMem;
    EndNew(mem0, w0, mem1, w1, mem, w, c, k, m1, m2, src, d);
    LastFrame(mem0, w0, mem1, w1, mem, w, c, k, m1, m2, src, d);
  }

  /** Roles and counts at the end. */
  lemma EndRoles(mem0: Memory, w0: World, mem1: Memory, w1: World, mem: Memory, w: World, c: Frame, k: Frame,
                 m1: Mount, m2: Mount, src: Frame, d: Frame)
    requires LoopsDone(mem0, w0, mem1, w1, mem, w, c, k, m1, m2, src, d)
    ensures var w' := EndWorld(w, d);
      && w'.kernel == w0.kernel && w'.base == w0.base && w'.storage == w0.storage
      && (forall f: Frame | !w0.role[f].Free? :: w'.role[f] == w0.role[f])
      && |w'.free| + 2 + LoopCost(mem1, w0.kernel, src, d) == |w0.free|
      && w'.free == w0.free[..|w'.free|] && w.free[|w.free| - 1] == w0.free[|w'.free|] && d == w0.free[|w0.free| - 1]
  {
    hide LoopsDone, Setting, LoopCost, Cloned, Aside, Base, WithMounts;
    DoneSetting(mem0, w0, mem1, w1, mem, w, c, k, m1, m2, src, d);
    SettingFacts(mem0, w0, mem1, w1, c, k, m1, m2, src, d);
    LastFrame(mem0, w0, mem1, w1, mem, w, c, k, m1, m2, src, d);
    AsideWorld(mem1, w1, mem, w, d);
    LastOfPrefix(w0.free, w1.free, w.free, d);
  }

  lemma LastOfPrefix<T>(xs: seq<T>, ys: seq<T>, zs: seq<T>, x: T)
    requires xs == ys + [x] && zs != [] && |zs| <= |ys| && zs == ys[..|zs|]
    ensures zs[..|zs| - 1] == xs[..|zs| - 1] && zs[|zs| - 1] == xs[|zs| - 1] && x == xs[|xs| - 1]
  {
  }

  /** The owners at the end are those foreseen. */
  lemma EndTracks(mem0: Memory, w0: World, mem1: Memory, w1: World, mem: Memory, w: World, c: Frame, k: Frame,
                  m1: Mount, m2: Mount, src: Frame, d: Frame)
    requires LoopsDone(mem0, w0, mem1, w1, mem, w, c, k, m1, m2, src, d)
    ensures EndWorld(w, d) == CloneWorld(mem0, w0, c, src)
  {
    hide LoopsDone, Setting, LoopRoles, Cloned, Aside, Base, TakenAll, Popped, WithMounts, LoopCost, Taken;
    DoneSetting(mem0, w0, mem1, w1, mem, w, c, k, m1, m2, src, d);
    SettingFacts(mem0, w0, mem1, w1, c, k, m1, m2, src, d);
    TracksMore(w1, w, LoopRoles(mem1, w1.kernel, src, d), Table(d, 958));
  }

  lemma CloneEnds(mem0: Memory, w0: World, mem1: Memory, w1: World, mem: Memory, w: World, c: Frame, k: Frame,
                  m1: Mount, m2: Mount, src: Frame, d: Frame)
    requires LoopsDone(mem0, w0, mem1, w1, mem, w, c, k, m1, m2, src, d)
    ensures CloneOk(mem0, w0, EndMem(mem, w, c, m1, m2, d), EndWorld(w, d), c, src, d, w.free[|w.free| - 1])
  {
    hide LoopsDone, Setting, Base, LoopCost, EndMem, EndWorld, SlotCloned, SelfMapped, Cloned, Aside, WithMounts,
         CloneWorld;
    DoneSetting(mem0, w0, mem1, w1, mem, w, c, k, m1, m2, src, d);
    SettingFacts(mem0, w0, mem1, w1, c, k, m1, m2, src, d);
    forall s | 0 <= s < 1024 && s != 958 && s != 959
      ensures SlotCloned(mem1, w0, EndMem(mem, w, c, m1, m2, d), EndWorld(w, d), src, d, s)
    {
      EndSlot(mem0, w0, mem1, w1, mem, w, c, k, m1, m2, src, d, s);
    }
    forall f: Frame | !w0.role[f].Free? ensures EndMem(mem, w, c, m1, m2, d)[f] == mem0[f] {
      EndKept(mem0, w0, mem1, w1, mem, w, c, k, m1, m2, src, d, f);
    }
    LastFrame(mem0, w0, mem1, w1, mem, w, c, k, m1, m2, src, d);
    EndWindows(mem0, w0, mem1, w1, mem, w, c, k, m1, m2, src, d);
    EndRoles(mem0, w0, mem1, w1, mem, w, c, k, m1, m2, src, d);
    EndTracks(mem0, w0, mem1, w1, mem, w, c, k, m1, m2, src, d);
  }

  /** With the self-mapping in place the new directory is one like any other. */
  lemma CloneFinished(mem0: Memory, w0: World, mem1: Memory, w1: World, mem: Memory, w: World, c: Frame, k: Frame,
                      m1: Mount, m2: Mount, src: Frame, d: Frame)
    requires LoopsDone(mem0, w0, mem1, w1, mem, w, c, k, m1, m2, src, d)
    requires Now(mem1, w1, SelfMapMem(mem, d, w.free[|w.free| - 1]), Taken(w, Table(d, 958)), c, d)
    ensures var memF, wF := SelfMapMem(mem, d, w.free[|w.free| - 1]), EndWorld(w, d);
      && Inv(memF, wF) && Active(memF, wF, c) && SelfMapped(memF, wF, d) && wF.role[d] == Directory
      && IsMount(m1) && IsMount(m2)
      && CloneOk(mem0, w0, BothUnmounted(memF, wF, c, m1, m2), wF, c, src, d, w.free[|w.free| - 1])
  {
    hide Inv, Active, SelfMapped, Base, Aside, WindowsKept, Setting, Cloned, CloneOk, SelfMapMem, DirOk, SlotCloned,
         LoopCost;
    var memF, w2 := SelfMapMem(mem, d, w.free[|w.free| - 1]), Taken(w, Table(d, 958));
    SettingFacts(mem0, w0, mem1, w1, c, k, m1, m2, src, d);
    NewDirOk(mem1, w1, mem, w, c, m1, m2, src, d);
    HeldStays(mem1, w1, memF, w2, c, m1, m2, src, d);
    MakeDirectory(memF, w2, d);
    ActiveKept(memF, w2, memF, Promoted(w2, d), c);
    CloneEnds(mem0, w0, mem1, w1, mem, w, c, k, m1, m2, src, d);
  }

  lemma StartAside(mem: Memory, w: World, c: Frame, m1: Mount, m2: Mount, src: Frame, d: Frame)
    requires Base(mem, w, c, m1, m2, src, d)
    ensures Now(mem, w, mem, w, c, d)
  {
    hide Inv, Active;
    assert w.free == w.free[..|w.free|];
  }

  lemma CleanStart(mem1: Memory, w1: World, mem: Memory, w: World, src: Frame, d: Frame)
    requires Aside(mem1, w1, mem, w, d) && mem[d] == ZeroPage()
    ensures Cloned(mem1, w1, mem, w, src, d, 0)
    ensures CloneCost(mem1, w1.kernel, src, d, 0) == 0
  {
    hide Aside, SlotCloned;
  }

  /** The page the directory being built is mounted at shows it whole. */
  lemma MountedPage(mem: Memory, w: World, c: Frame, m1: Mount, m2: Mount, src: Frame, d: Frame)
    requires Base(mem, w, c, m1, m2, src, d)
    ensures m2.directory % PAGE_SIZE == 0 && m2.directory + PAGE_SIZE <= 0x1_0000_0000
    ensures forall i | 0 <= i < 1024 :: Walk(mem, c, m2.directory + 4 * i) == Some(Loc(d, i))
    ensures d != c && d != mem[c][DirIdx(m2.directory)].frame
  {
    hide Inv, Active, Walk;
    BaseFacts(mem, w, c, m1, m2, src, d);
    KernelTable1021(mem, w, c);
    forall i | 0 <= i < 1024 ensures Walk(mem, c, m2.directory + 4 * i) == Some(Loc(d, i)) {
      MountedDirectory(mem, w, c, m2, d, i);
    }
    assert DirIdx(m2.directory) == 1021;
  }

  lemma CloneOkFacts(mem0: Memory, w0: World, mem: Memory, w: World, c: Frame, src: Frame, d: Frame, t: Frame)
    requires CloneOk(mem0, w0, mem, w, c, src, d, t)
    requires Inv(mem, w)
    ensures Active(mem, w, d) && mem[d][958].frame == t && d != w.kernel
  {
    hide SlotCloned, LoopCost, WithMounts;
    assert w.role[w.kernel] == KernelDir;
  }
}
