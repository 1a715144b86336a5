/**
  Who owns each physical frame, and what the page tables look like in every state
  the kernel reaches.  `World` is the specification-level companion of the memory:
  a role for each frame, the free list that is stored in the PMM stack, and the
  frames that stack itself occupies.
*/
module Ownership {
  import opened Hardware

  datatype Role =
    | Reserved                          // below pmm_location: image, low memory
    | KernelDir                         // the reference directory
    | KernelTable(slot: nat)            // a table shared by all address spaces
    | Directory                         // the directory of some address space
    | Table(dir: Frame, slot: nat)      // a table created for one directory
    | Leaf(dir: Frame, page: PageNum)   // a frame mapped by a private table
    | Held                              // handed out, any other use
    | Dying                             // a directory being destroyed
    | Unowned                           // never given to the PMM
    | Free(depth: nat)                  // entry `depth` of the PMM stack
    | Storage(rank: nat)                // page `rank` of the PMM stack

  type Roles = r: seq<Role> | |r| == FRAMES ghost witness seq(FRAMES, _ => Unowned)

  datatype World = World(role: Roles, kernel: Frame, base: nat,
                         storage: seq<Frame>, free: seq<Frame>)

  /** The directory slots every address space has in common (layout.h). */
  predicate Shared(i: nat) {
    i == 0 || 960 <= i < 1012 || 1021 <= i < 1024
  }

  /** Slots a directory fills with tables of its own; 1012 to 1019 are for mounting. */
  predicate Private(i: nat) {
    1 <= i <= 958 || i == 1020
  }

  const STACK_PAGES := 1024

  /** Page `s` of the region that starts at PMM_STACK_START. */
  function StackPage(s: nat): PageNum
    requires s < STACK_PAGES
  {
    0xF_F7FF + s
  }

  predicate IsDir(w: World, d: Frame) {
    d == w.kernel || w.role[d] == Directory
  }

  predicate LowRole(r: Role) {
    r.Reserved? || r.KernelDir? || r.KernelTable?
  }

  ghost predicate EntriesOk(mem: Memory, d: Frame) {
    forall i :: 0 <= i < 1024 ==> mem[d][i] == ZERO || Present(mem[d][i])
  }

  ghost predicate KernelOk(mem: Memory, w: World) {
    && w.role[w.kernel] == KernelDir
    && EntriesOk(mem, w.kernel)
    && (forall i :: 0 <= i < 1023 && Shared(i) ==>
         Present(mem[w.kernel][i]) && w.role[mem[w.kernel][i].frame] == KernelTable(i))
    && (forall i :: 0 <= i < 1024 && Private(i) ==>
         mem[w.kernel][i] == ZERO || w.role[mem[w.kernel][i].frame] == Table(w.kernel, i))
    && mem[w.kernel][959] == ZERO
    && mem[w.kernel][1023] == Word(w.kernel, KERNEL_RW)
    && mem[mem[w.kernel][1022].frame][1023] == Word(w.kernel, KERNEL_RW)
  }

  /** The directory shows itself at USER_DIR_VIRTUAL and USER_TABLES_VIRTUAL. */
  predicate SelfMapped(mem: Memory, w: World, d: Frame) {
    && mem[d][959] == Word(d, KERNEL_RW)
    && Present(mem[d][958])
    && w.role[mem[d][958].frame] == Table(d, 958)
    && mem[mem[d][958].frame][1023] == Word(d, KERNEL_RW)
  }

  ghost predicate DirOk(mem: Memory, w: World, d: Frame) {
    && EntriesOk(mem, d)
    && (forall i :: 0 <= i < 1024 && Shared(i) ==> mem[d][i] == mem[w.kernel][i])
    && (forall i :: 0 <= i < 1024 && Private(i) ==>
         mem[d][i] == ZERO || mem[d][i] == mem[w.kernel][i]
         || w.role[mem[d][i].frame] == Table(d, i))
    && (mem[d][959] == ZERO || SelfMapped(mem, w, d))
  }

  ghost predicate RolesOk(w: World) {
    && w.base <= FRAMES
    && (forall f: Frame :: LowRole(w.role[f]) <==> f < w.base)
  }

  ghost predicate StorageOk(mem: Memory, w: World) {
    && |w.storage| < STACK_PAGES
    && (forall s :: 0 <= s < |w.storage| ==> w.role[w.storage[s]] == Storage(s))
    && (forall s :: 0 <= s < |w.storage| ==>
         View(mem, w.kernel, StackPage(s)) == Word(w.storage[s], KERNEL_RW))
  }

  ghost predicate FreeOk(mem: Memory, w: World) {
    && |w.free| <= 1024 * |w.storage|
    && (forall n :: 0 <= n < |w.free| ==> w.role[w.free[n]] == Free(n))
    && (forall n :: 0 <= n < |w.free| ==>
         mem[w.storage[n / 1024]][n % 1024] == Word(w.free[n], 0))
  }

  ghost predicate DirsOk(mem: Memory, w: World) {
    forall d: Frame :: w.role[d] == Directory ==> DirOk(mem, w, d)
  }

  /** Holds in every state after init_vmm. */
  ghost predicate Inv(mem: Memory, w: World) {
    KernelOk(mem, w) && DirsOk(mem, w) && RolesOk(w) && StorageOk(mem, w) && FreeOk(mem, w)
  }

  /** A directory that may be active: it reaches its own directory and tables. */
  ghost predicate Active(mem: Memory, w: World, c: Frame) {
    c == w.kernel || (w.role[c] == Directory && SelfMapped(mem, w, c))
  }

  /** Every directory stays one, and keeps its windows on itself if it has them. */
  ghost predicate WindowsKept(mem: Memory, w: World, mem': Memory, w': World) {
    forall d: Frame :: w.role[d] == Directory ==>
      w'.role[d] == Directory && SelfMapped(mem', w', d) == SelfMapped(mem, w, d)
  }

  lemma WindowsKeptTwice(mem: Memory, w: World, mem1: Memory, w1: World, mem2: Memory, w2: World)
    requires WindowsKept(mem, w, mem1, w1) && WindowsKept(mem1, w1, mem2, w2)
    ensures WindowsKept(mem, w, mem2, w2)
  {
  }

  // ------------------------------------------------------------ changes that keep Inv

  /** Frames whose role the directories rely on. */
  predicate Relied(w: World, f: Frame) {
    w.role[f].KernelDir? || w.role[f].KernelTable? || w.role[f].Directory?
    || (w.role[f].Table? && IsDir(w, w.role[f].dir))
  }

  /** Frames whose contents the page tables or the PMM depend on. */
  predicate Structural(w: World, f: Frame) {
    Relied(w, f) || w.role[f].Storage?
  }

  /** Words the directories rely on: all slots but the mount windows, and the directory windows. */
  predicate Pinned(w: World, f: Frame, i: nat) {
    ((w.role[f].KernelDir? || w.role[f].Directory?) && !(1012 <= i < 1020))
    || (w.role[f] == KernelTable(1022) && i == 1023)
    || (w.role[f].Table? && w.role[f].slot == 958 && i == 1023)
  }

  ghost predicate SameStructure(mem: Memory, w: World, mem': Memory, w': World) {
    && w'.kernel == w.kernel
    && (forall f: Frame :: Relied(w, f) ==> w'.role[f] == w.role[f])
    && (forall d: Frame :: w'.role[d] == Directory ==> w.role[d] == Directory)
    && (forall f: Frame, i | 0 <= i < 1024 && Relied(w, f) && Pinned(w, f, i) :: mem'[f][i] == mem[f][i])
    && (forall d: Frame | IsDir(w, d) :: EntriesOk(mem', d))
  }

  lemma KeepKernel(mem: Memory, w: World, mem': Memory, w': World)
    requires KernelOk(mem, w) && SameStructure(mem, w, mem', w')
    ensures KernelOk(mem', w')
  {
    assert Relied(w, w.kernel) && IsDir(w, w.kernel);
    assert forall i :: 0 <= i < 1024 && !(1012 <= i < 1020) ==> Pinned(w, w.kernel, i);
    forall i | 0 <= i < 1023 && Shared(i)
      ensures Present(mem'[w.kernel][i]) && w'.role[mem'[w.kernel][i].frame] == KernelTable(i)
    {
      assert Relied(w, mem[w.kernel][i].frame);
    }
    forall i | 0 <= i < 1024 && Private(i)
      ensures mem'[w.kernel][i] == ZERO || w'.role[mem'[w.kernel][i].frame] == Table(w.kernel, i)
    {
      assert mem[w.kernel][i] == ZERO || Relied(w, mem[w.kernel][i].frame);
    }
    assert Shared(1022) && Relied(w, mem[w.kernel][1022].frame);
    assert Pinned(w, mem[w.kernel][1022].frame, 1023);
  }

  lemma KeepDir(mem: Memory, w: World, mem': Memory, w': World, d: Frame)
    requires KernelOk(mem, w) && SameStructure(mem, w, mem', w')
    requires w.role[d] == Directory && DirOk(mem, w, d)
    ensures DirOk(mem', w', d)
    ensures SelfMapped(mem', w', d) == SelfMapped(mem, w, d)
  {
    assert Relied(w, d) && IsDir(w, d) && Relied(w, w.kernel);
    assert forall i :: 0 <= i < 1024 && !(1012 <= i < 1020) ==> Pinned(w, w.kernel, i) && Pinned(w, d, i);
    forall i | 0 <= i < 1024 && Private(i)
      ensures mem[d][i] == ZERO || mem[d][i] == mem[w.kernel][i]
              || w'.role[mem[d][i].frame] == w.role[mem[d][i].frame] == Table(d, i)
    {
      assert w.role[mem[d][i].frame] == Table(d, i) ==> Relied(w, mem[d][i].frame);
    }
    assert Private(958);
    if w.role[mem[d][958].frame] == Table(d, 958) {
      assert Relied(w, mem[d][958].frame) && Pinned(w, mem[d][958].frame, 1023);
    }
  }

  lemma KeepStructure(mem: Memory, w: World, mem': Memory, w': World)
    requires KernelOk(mem, w) && DirsOk(mem, w) && SameStructure(mem, w, mem', w')
    ensures KernelOk(mem', w') && DirsOk(mem', w')
    ensures WindowsKept(mem, w, mem', w')
  {
    assert forall d: Frame :: w'.role[d] == Directory ==> w.role[d] == Directory;
    assert forall d: Frame :: w.role[d] == Directory ==> w'.role[d] == Directory by {
      assert forall d: Frame :: w.role[d] == Directory ==> Relied(w, d);
    }
    hide SameStructure, KernelOk, DirOk, SelfMapped;
    KeepKernel(mem, w, mem', w');
    forall d: Frame | w'.role[d] == Directory
      ensures DirOk(mem', w', d) && SelfMapped(mem', w', d) == SelfMapped(mem, w, d)
    {
      KeepDir(mem, w, mem', w', d);
    }
  }

  /** Words of the kernel tables that map the pages of the PMM stack. */
  predicate StackEntry(w: World, f: Frame, i: nat) {
    (w.role[f] == KernelTable(1022) && i + 1 < |w.storage|)
    || (w.role[f] == KernelTable(1021) && i == 1023 && |w.storage| > 0)
  }

  lemma StackSlot(mem: Memory, w: World, s: nat)
    requires KernelOk(mem, w) && s < STACK_PAGES
    ensures Shared(StackPage(s) / 1024)
    ensures mem[w.kernel][StackPage(s) / 1024] != ZERO
    ensures w.role[mem[w.kernel][StackPage(s) / 1024].frame] == KernelTable(StackPage(s) / 1024)
    ensures s == 0 ==> StackPage(s) / 1024 == 1021 && StackPage(s) % 1024 == 1023
    ensures s > 0 ==> StackPage(s) / 1024 == 1022 && StackPage(s) % 1024 == s - 1
  {
    assert Shared(StackPage(s) / 1024);
  }

  /** The pages of the stack stay mapped when their entries are left alone. */
  lemma KeepStorage(mem: Memory, w: World, mem': Memory, w': World)
    requires KernelOk(mem, w) && StorageOk(mem, w)
    requires w'.kernel == w.kernel && w'.storage == w.storage
    requires mem'[w.kernel][1021] == mem[w.kernel][1021] && mem'[w.kernel][1022] == mem[w.kernel][1022]
    requires forall f: Frame :: w.role[f].Storage? ==> w'.role[f] == w.role[f]
    requires forall f: Frame, i | 0 <= i < 1024 && StackEntry(w, f, i) :: mem'[f][i] == mem[f][i]
    ensures StorageOk(mem', w')
  {
    forall s | 0 <= s < |w.storage|
      ensures View(mem', w.kernel, StackPage(s)) == View(mem, w.kernel, StackPage(s))
    {
      StackSlot(mem, w, s);
      assert StackEntry(w, mem[w.kernel][StackPage(s) / 1024].frame, StackPage(s) % 1024);
    }
  }

  // Changes of memory alone.

  predicate Important(w: World, f: Frame, i: nat) {
    (Relied(w, f) && Pinned(w, f, i)) || StackEntry(w, f, i) || w.role[f].Storage?
  }

  ghost predicate Agree(mem: Memory, mem': Memory, w: World) {
    && (forall f: Frame, i | 0 <= i < 1024 && Important(w, f, i) :: mem'[f][i] == mem[f][i])
    && (forall d: Frame | IsDir(w, d) :: EntriesOk(mem', d))
  }

  /** The invariant depends only on the important words. */
  lemma AgreeInv(mem: Memory, mem': Memory, w: World)
    requires Inv(mem, w) && Agree(mem, mem', w)
    ensures Inv(mem', w)
    ensures WindowsKept(mem, w, mem', w)
  {
    assert Relied(w, w.kernel);
    assert forall i :: 0 <= i < 1024 && !(1012 <= i < 1020) ==> Important(w, w.kernel, i);
    assert SameStructure(mem, w, mem', w);
    KeepStructure(mem, w, mem', w);
    KeepStorage(mem, w, mem', w);
    forall n | 0 <= n < |w.free|
      ensures mem'[w.storage[n / 1024]][n % 1024] == mem[w.storage[n / 1024]][n % 1024]
    {
      assert Important(w, w.storage[n / 1024], n % 1024);
    }
  }

  lemma PutUnimportant(mem: Memory, w: World, f: Frame, i: nat, x: Word)
    requires Inv(mem, w) && i < 1024 && !Important(w, f, i)
    requires IsDir(w, f) ==> x == ZERO || Present(x)
    ensures Inv(Put(mem, Loc(f, i), x), w)
    ensures WindowsKept(mem, w, Put(mem, Loc(f, i), x), w)
  {
    var mem' := Put(mem, Loc(f, i), x);
    forall d: Frame | IsDir(w, d) ensures EntriesOk(mem', d) {
      assert EntriesOk(mem, d);
    }
    AgreeInv(mem, mem', w);
  }

  lemma SetFrame(mem: Memory, w: World, f: Frame, page: Page)
    requires Inv(mem, w) && !Structural(w, f)
    ensures Inv(mem[f := page], w)
    ensures WindowsKept(mem, w, mem[f := page], w)
  {
    var mem' := mem[f := page];
    forall d: Frame | IsDir(w, d) ensures EntriesOk(mem', d) {
      assert EntriesOk(mem, d);
    }
    AgreeInv(mem, mem', w);
  }

  // Changes of role.

  /** Roles the invariant does not rely on, and which may be exchanged freely. */
  predicate Loose(r: Role) {
    r.Leaf? || r.Held? || r.Unowned? || r.Dying?
  }

  lemma EntriesOfDirs(mem: Memory, w: World)
    requires KernelOk(mem, w) && DirsOk(mem, w)
    ensures forall d: Frame | IsDir(w, d) :: EntriesOk(mem, d)
  {
  }

  lemma SetRole(mem: Memory, w: World, f: Frame, r: Role)
    requires Inv(mem, w) && Loose(w.role[f])
    requires Loose(r) || r.Table?
    ensures Inv(mem, w.(role := w.role[f := r]))
    ensures WindowsKept(mem, w, mem, w.(role := w.role[f := r]))
  {
    var w' := w.(role := w.role[f := r]);
    EntriesOfDirs(mem, w);
    hide DirsOk, EntriesOk, SelfMapped, WindowsKept;
    KeepStorage(mem, w, mem, w');
    assert SameStructure(mem, w, mem, w');
    KeepStructure(mem, w, mem, w');
  }

  lemma InstallInDirs(mem: Memory, w: World, d: Frame, i: nat, x: Word, e: Frame)
    requires KernelOk(mem, w) && IsDir(w, d) && Private(i)
    requires mem[d][i] == ZERO && Present(x) && w.role[x.frame] == Table(d, i)
    requires w.role[e] == Directory && DirOk(mem, w, e)
    ensures DirOk(Put(mem, Loc(d, i), x), w, e)
    ensures SelfMapped(Put(mem, Loc(d, i), x), w, e) == SelfMapped(mem, w, e)
  {
  }

  lemma InstallTable(mem: Memory, w: World, d: Frame, i: nat, x: Word)
    requires Inv(mem, w) && IsDir(w, d) && Private(i)
    requires mem[d][i] == ZERO && Present(x) && w.role[x.frame] == Table(d, i)
    ensures Inv(Put(mem, Loc(d, i), x), w)
    ensures WindowsKept(mem, w, Put(mem, Loc(d, i), x), w)
  {
    var mem' := Put(mem, Loc(d, i), x);
    assert KernelOk(mem', w);
    hide DirOk, RolesOk, SelfMapped;
    KeepStorage(mem, w, mem', w);
    forall e: Frame | w.role[e] == Directory
      ensures DirOk(mem', w, e) && SelfMapped(mem', w, e) == SelfMapped(mem, w, e)
    {
      InstallInDirs(mem, w, d, i, x, e);
    }
  }

  lemma MakeDirectory(mem: Memory, w: World, d: Frame)
    requires Inv(mem, w) && Loose(w.role[d])
    requires DirOk(mem, w.(role := w.role[d := Directory]), d)
    ensures Inv(mem, w.(role := w.role[d := Directory]))
    ensures WindowsKept(mem, w, mem, w.(role := w.role[d := Directory]))
  {
    var w' := w.(role := w.role[d := Directory]);
    forall e: Frame | w.role[e] == Directory
      ensures DirOk(mem, w', e) && SelfMapped(mem, w', e) == SelfMapped(mem, w, e)
    {
      assert DirOk(mem, w, e);
    }
  }

  lemma RetireDirectory(mem: Memory, w: World, d: Frame)
    requires Inv(mem, w) && w.role[d] == Directory
    ensures Inv(mem, w.(role := w.role[d := Dying]))
    ensures forall e: Frame :: w.role[e] == Directory && e != d ==>
      SelfMapped(mem, w.(role := w.role[d := Dying]), e) == SelfMapped(mem, w, e)
  {
    var w' := w.(role := w.role[d := Dying]);
    forall e: Frame | w'.role[e] == Directory
      ensures DirOk(mem, w', e) && SelfMapped(mem, w', e) == SelfMapped(mem, w, e)
    {
      assert DirOk(mem, w, e);
    }
  }

  // ------------------------------------------------------------ the PMM stack

  /** Taking the top entry off the stack. */
  function Popped(w: World): World
    requires w.free != []
  {
    var top := |w.free| - 1;
    w.(free := w.free[..top], role := w.role[w.free[top] := Held])
  }

  lemma PopStack(mem: Memory, w: World)
    requires KernelOk(mem, w) && RolesOk(w) && StorageOk(mem, w) && FreeOk(mem, w) && w.free != []
    ensures RolesOk(Popped(w)) && StorageOk(mem, Popped(w)) && FreeOk(mem, Popped(w))
  {
    KeepStorage(mem, w, mem, Popped(w));
  }

  lemma PopStructure(mem: Memory, w: World)
    requires KernelOk(mem, w) && DirsOk(mem, w) && FreeOk(mem, w) && w.free != []
    ensures SameStructure(mem, w, mem, Popped(w)) && w.role[w.free[|w.free| - 1]] == Free(|w.free| - 1)
  {
    EntriesOfDirs(mem, w);
    hide KernelOk, DirsOk, EntriesOk;
  }

  lemma PopInv(mem: Memory, w: World)
    requires Inv(mem, w) && w.free != []
    ensures Inv(mem, Popped(w))
    ensures w.role[w.free[|w.free| - 1]] == Free(|w.free| - 1)
    ensures WindowsKept(mem, w, mem, Popped(w))
  {
    hide KernelOk, DirsOk, EntriesOk, RolesOk, StorageOk, FreeOk, SelfMapped, WindowsKept, SameStructure;
    PopStructure(mem, w);
    PopStack(mem, w);
    KeepStructure(mem, w, mem, Popped(w));
  }

  /** A frame may be freed when no table, no directory and not the PMM itself uses it. */
  predicate Freeable(w: World, f: Frame) {
    Loose(w.role[f]) || (w.role[f].Table? && !IsDir(w, w.role[f].dir))
  }

  predicate Full(w: World) {
    |w.free| == 1024 * |w.storage|
  }

  /** Freeing `f`: a full stack takes it as its next page, otherwise it is pushed. */
  function Freed(w: World, f: Frame): World {
    if Full(w)
    then w.(storage := w.storage + [f], role := w.role[f := Storage(|w.storage|)])
    else w.(free := w.free + [f], role := w.role[f := Free(|w.free|)])
  }

  function FreedMem(mem: Memory, w: World, f: Frame): Memory {
    if Full(w) && |w.storage| < STACK_PAGES then
      var p := StackPage(|w.storage|);
      Put(mem, Loc(mem[w.kernel][p / 1024].frame, p % 1024), Word(f, KERNEL_RW))
    else if |w.free| < 1024 * |w.storage| then
      Put(mem, Loc(w.storage[|w.free| / 1024], |w.free| % 1024), Word(f, 0))
    else mem
  }

  lemma FreedStructure(mem: Memory, w: World, f: Frame)
    requires Inv(mem, w) && Freeable(w, f)
    ensures SameStructure(mem, w, FreedMem(mem, w, f), Freed(w, f))
  {
    EntriesOfDirs(mem, w);
    StackSlot(mem, w, |w.storage|);
    hide DirsOk, EntriesOk, RolesOk;
    var mem' := FreedMem(mem, w, f);
    forall d: Frame | IsDir(w, d) ensures EntriesOk(mem', d) {
      assert mem'[d] == mem[d];
    }
  }

  lemma PushEntries(mem: Memory, w: World, f: Frame)
    requires |w.storage| < STACK_PAGES && FreeOk(mem, w) && Freeable(w, f) && !Full(w)
    requires forall s :: 0 <= s < |w.storage| ==> w.role[w.storage[s]] == Storage(s)
    ensures FreeOk(FreedMem(mem, w, f), Freed(w, f))
  {
    var mem', w', m := FreedMem(mem, w, f), Freed(w, f), |w.free|;
    forall n | 0 <= n < |w'.free|
      ensures mem'[w.storage[n / 1024]][n % 1024] == Word(w'.free[n], 0)
    {
      if n < m {
        assert n / 1024 != m / 1024 || n % 1024 != m % 1024;
        assert w.role[w.storage[m / 1024]] == Storage(m / 1024);
      }
    }
  }

  lemma PushStack(mem: Memory, w: World, f: Frame)
    requires KernelOk(mem, w) && StorageOk(mem, w) && FreeOk(mem, w)
    requires Freeable(w, f) && !Full(w)
    ensures StorageOk(FreedMem(mem, w, f), Freed(w, f)) && FreeOk(FreedMem(mem, w, f), Freed(w, f))
  {
    PushEntries(mem, w, f);
    assert w.role[w.storage[|w.free| / 1024]] == Storage(|w.free| / 1024);
    KeepStorage(mem, w, FreedMem(mem, w, f), Freed(w, f));
  }

  lemma GrowStorage(mem: Memory, w: World, f: Frame)
    requires KernelOk(mem, w) && StorageOk(mem, w)
    requires Freeable(w, f) && Full(w) && |w.storage| + 1 < STACK_PAGES
    ensures StorageOk(FreedMem(mem, w, f), Freed(w, f))
  {
    hide EntriesOk;
    var mem', w' := FreedMem(mem, w, f), Freed(w, f);
    StackSlot(mem, w, |w.storage|);
    KeepStorage(mem, w, mem', w.(role := w'.role));
    assert View(mem', w.kernel, StackPage(|w.storage|)) == Word(f, KERNEL_RW);
    forall s | 0 <= s < |w'.storage|
      ensures View(mem', w.kernel, StackPage(s)) == Word(w'.storage[s], KERNEL_RW)
    {
      assert s < |w.storage| ==> View(mem', w.kernel, StackPage(s)) == Word(w.storage[s], KERNEL_RW);
    }
  }

  lemma GrowEntries(mem: Memory, w: World, f: Frame)
    requires KernelOk(mem, w) && StorageOk(mem, w) && FreeOk(mem, w)
    requires Freeable(w, f) && Full(w) && |w.storage| + 1 < STACK_PAGES
    ensures FreeOk(FreedMem(mem, w, f), Freed(w, f))
  {
    StackSlot(mem, w, |w.storage|);
    hide KernelOk, StackPage, View;
    var mem' := FreedMem(mem, w, f);
    forall n | 0 <= n < |w.free| ensures mem'[w.storage[n / 1024]] == mem[w.storage[n / 1024]] {
      assert w.role[w.storage[n / 1024]] == Storage(n / 1024);
    }
  }

  lemma GrowStack(mem: Memory, w: World, f: Frame)
    requires KernelOk(mem, w) && StorageOk(mem, w) && FreeOk(mem, w)
    requires Freeable(w, f) && Full(w) && |w.storage| + 1 < STACK_PAGES
    ensures StorageOk(FreedMem(mem, w, f), Freed(w, f)) && FreeOk(FreedMem(mem, w, f), Freed(w, f))
  {
    hide KernelOk, StorageOk, FreeOk, Freeable, Full;
    GrowStorage(mem, w, f);
    GrowEntries(mem, w, f);
  }

  /** Distinct numbers between two bounds are at most as many as the gap. */
  lemma {:induction false} Pigeonhole(xs: seq<nat>, lo: nat, hi: nat)
    requires lo <= hi
    requires forall i :: 0 <= i < |xs| ==> lo <= xs[i] < hi
    requires forall i, j :: 0 <= i < j < |xs| ==> xs[i] != xs[j]
    ensures |xs| <= hi - lo
    decreases hi
  {
    if xs != [] {
      assert lo <= xs[0] < hi;
      if hi - 1 in xs {
        var k :| 0 <= k < |xs| && xs[k] == hi - 1;
        Pigeonhole(xs[..k] + xs[k + 1..], lo, hi - 1);
      } else {
        Pigeonhole(xs, lo, hi - 1);
      }
    }
  }

  /** Everything the PMM holds is distinct and lies above the initial location. */
  lemma FreeFramesFit(mem: Memory, w: World, f: Frame)
    requires Inv(mem, w) && Freeable(w, f)
    ensures |w.storage| + |w.free| + 1 <= FRAMES - w.base
  {
    var xs: seq<nat> := w.storage + w.free + [f];
    var n := |w.storage|;
    HeldFrames(mem, w, f);
    hide Inv, Freeable;
    Pigeonhole(xs, w.base, FRAMES);
  }

  /** The frames the PMM holds have different roles, so they differ. */
  lemma HeldFrames(mem: Memory, w: World, f: Frame)
    requires Inv(mem, w) && Freeable(w, f)
    ensures var xs := w.storage + w.free + [f];
      && (forall i | 0 <= i < |xs| :: w.base <= xs[i] < FRAMES)
      && (forall i, j | 0 <= i < j < |xs| :: xs[i] != xs[j])
  {
    hide KernelOk, DirsOk;
    var n, xs := |w.storage|, w.storage + w.free + [f];
    forall i | 0 <= i < |xs|
      ensures w.base <= xs[i] < FRAMES
      ensures w.role[xs[i]] == if i < n then Storage(i) else if i < n + |w.free| then Free(i - n) else w.role[f]
    {
      if i < n {
        assert xs[i] == w.storage[i];
      } else if i < n + |w.free| {
        assert xs[i] == w.free[i - n];
      } else {
        assert xs[i] == f;
      }
      assert !LowRole(w.role[xs[i]]);
    }
  }

  /** The stack never fills its region, so pmm_free_page never panics. */
  lemma StackHasRoom(mem: Memory, w: World, f: Frame)
    requires Inv(mem, w) && Freeable(w, f) && Full(w)
    ensures |w.storage| + 1 < STACK_PAGES
  {
    FreeFramesFit(mem, w, f);
    assert w.base > 0 by {
      assert LowRole(w.role[w.kernel]);
    }
  }

  lemma FreeInv(mem: Memory, w: World, f: Frame)
    requires Inv(mem, w) && Freeable(w, f)
    ensures Inv(FreedMem(mem, w, f), Freed(w, f))
    ensures WindowsKept(mem, w, FreedMem(mem, w, f), Freed(w, f))
  {
    assert RolesOk(Freed(w, f));
    assert |w.free| <= 1024 * |w.storage| && |w.storage| < STACK_PAGES;
    hide SameStructure, KernelOk, DirsOk, RolesOk, StorageOk, FreeOk, SelfMapped, WindowsKept;
    FreedStructure(mem, w, f);
    KeepStructure(mem, w, FreedMem(mem, w, f), Freed(w, f));
    if Full(w) {
      StackHasRoom(mem, w, f);
      GrowStack(mem, w, f);
    } else {
      PushStack(mem, w, f);
    }
  }

  // ------------------------------------------------------------ counting frees

  function FreedAll(w: World, fs: seq<Frame>): World
    decreases |fs|
  {
    if fs == [] then w else Freed(FreedAll(w, fs[..|fs| - 1]), fs[|fs| - 1])
  }

  /** Starting empty, one frame in 1025 becomes stack storage and the rest are entries. */
  lemma {:induction false} FreeCount(w: World, fs: seq<Frame>)
    requires w.storage == [] && w.free == []
    ensures |FreedAll(w, fs).storage| == (|fs| + 1024) / 1025
    ensures |FreedAll(w, fs).free| == |fs| - (|fs| + 1024) / 1025
    ensures multiset(FreedAll(w, fs).storage) + multiset(FreedAll(w, fs).free) == multiset(fs)
    decreases |fs|
  {
    if fs != [] {
      var rest, last := fs[..|fs| - 1], fs[|fs| - 1];
      FreeCount(w, rest);
      assert fs == rest + [last];
      var n, s := |rest|, (|rest| + 1024) / 1025;
      assert n - s <= 1024 * s;
      assert n - s == 1024 * s <==> n % 1025 == 0;
    }
  }

  // ------------------------------------------------------------ runs of the PMM

  datatype PmmOp = Take | Give(frame: Frame)

  /** pmm_alloc_page finds a frame; pmm_free_page is given one that nothing else uses. */
  predicate Allowed(w: World, op: PmmOp) {
    match op
    case Take => w.free != []
    case Give(f) => Freeable(w, f)
  }

  function OpWorld(w: World, op: PmmOp): World
    requires Allowed(w, op)
  {
    match op
    case Take => Popped(w)
    case Give(f) => Freed(w, f)
  }

  function OpMem(mem: Memory, w: World, op: PmmOp): Memory {
    match op
    case Take => mem
    case Give(f) => FreedMem(mem, w, f)
  }

  /** `w` is the world after the run `ops` of calls from `w0`, all of them allowed. */
  ghost predicate Ran(mem0: Memory, w0: World, ops: seq<PmmOp>, mem: Memory, w: World)
    decreases |ops|
  {
    if ops == [] then mem == mem0 && w == w0
    else Allowed(w0, ops[0]) && Ran(OpMem(mem0, w0, ops[0]), OpWorld(w0, ops[0]), ops[1..], mem, w)
  }

  lemma OpInv(mem: Memory, w: World, op: PmmOp)
    requires Inv(mem, w) && Allowed(w, op)
    ensures Inv(OpMem(mem, w, op), OpWorld(w, op)) && OpWorld(w, op).base == w.base
  {
    hide Inv, WindowsKept, Freeable, FreedMem;
    match op {
      case Take => PopInv(mem, w);
      case Give(f) => FreeInv(mem, w, f);
    }
  }

  /** The invariant holds after any run, and no frame below the location is ever on the stack. */
  lemma {:induction false} RunInv(mem0: Memory, w0: World, ops: seq<PmmOp>, mem: Memory, w: World)
    requires Inv(mem0, w0) && Ran(mem0, w0, ops, mem, w)
    ensures Inv(mem, w) && w.base == w0.base
    ensures forall f: Frame | f < w0.base :: f !in w.free && f !in w.storage
    decreases |ops|
  {
    if ops == [] {
      StackAboveBase(mem, w);
    } else {
      hide Inv, Allowed, OpMem, OpWorld;
      OpInv(mem0, w0, ops[0]);
      RunInv(OpMem(mem0, w0, ops[0]), OpWorld(w0, ops[0]), ops[1..], mem, w);
    }
  }

  lemma StackAboveBase(mem: Memory, w: World)
    requires Inv(mem, w)
    ensures forall f: Frame | f < w.base :: f !in w.free && f !in w.storage
  {
  }

  /** A frame in use stays in use as long as it is not given back. */
  lemma {:induction false} RunKeeps(mem0: Memory, w0: World, ops: seq<PmmOp>, mem: Memory, w: World, f: Frame)
    requires Inv(mem0, w0) && Ran(mem0, w0, ops, mem, w) && Give(f) !in ops
    requires w0.role[f] == Held
    ensures w.role[f] == Held
    decreases |ops|
  {
    if ops != [] {
      OpInv(mem0, w0, ops[0]);
      OpKeeps(mem0, w0, ops[0], f);
      hide Inv, Allowed, OpMem, OpWorld;
      RunKeeps(OpMem(mem0, w0, ops[0]), OpWorld(w0, ops[0]), ops[1..], mem, w, f);
    }
  }

  lemma OpKeeps(mem: Memory, w: World, op: PmmOp, f: Frame)
    requires Inv(mem, w) && Allowed(w, op) && op != Give(f) && w.role[f] == Held
    ensures OpWorld(w, op).role[f] == Held
  {
  }

  /** No frame is handed out a second time unless it was given back between. */
  lemma HandedOutOnce(mem0: Memory, w0: World, ops: seq<PmmOp>, mem: Memory, w: World)
    requires Inv(mem0, w0) && w0.free != [] && Ran(mem0, Popped(w0), ops, mem, w) && w.free != []
    requires w.free[|w.free| - 1] == w0.free[|w0.free| - 1]
    ensures Give(w.free[|w.free| - 1]) in ops
  {
    hide Inv, Ran, WindowsKept;
    var f := w.free[|w.free| - 1];
    PopInv(mem0, w0);
    RunInv(mem0, Popped(w0), ops, mem, w);
    PopInv(mem, w);
    if Give(f) !in ops {
      RunKeeps(mem0, Popped(w0), ops, mem, w, f);
    }
  }
}
