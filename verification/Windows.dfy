/**
  What the kernel sees through its own mappings: the active directory and its
  tables, the reference directory and its tables, and the PMM stack.  These are
  the facts that let `map` edit page tables through virtual addresses.
*/
module Windows {
  import opened Basics
  import opened Hardware
  import opened Ownership

  /** Where the directory `c` and its tables appear when `c` is active. */
  function DirVA(w: World, c: Frame): Addr {
    if c == w.kernel then KERNEL_DIR_VIRTUAL else USER_DIR_VIRTUAL
  }

  function TabVA(w: World, c: Frame): Addr {
    if c == w.kernel then KERNEL_TABLES_VIRTUAL else USER_TABLES_VIRTUAL
  }

  lemma ActiveIsDir(mem: Memory, w: World, c: Frame)
    requires Inv(mem, w) && Active(mem, w, c)
    ensures IsDir(w, c) && EntriesOk(mem, c)
    ensures forall i :: 0 <= i < 1024 && Shared(i) ==> mem[c][i] == mem[w.kernel][i]
    ensures forall i :: 0 <= i < 1023 && Shared(i) ==>
      Present(mem[c][i]) && w.role[mem[c][i].frame] == KernelTable(i)
    ensures forall i :: 0 <= i < 1024 && Private(i) && mem[c][i] != ZERO ==>
      Present(mem[c][i])
      && (w.role[mem[c][i].frame] == Table(c, i) || w.role[mem[c][i].frame] == Table(w.kernel, i))
    ensures w.role[w.kernel] == KernelDir
    ensures mem[c][1023] == Word(w.kernel, KERNEL_RW)
  {
    assert c == w.kernel || DirOk(mem, w, c);
  }

  /** Every space shows the reference directory and tables at the same place. */
  lemma KernelDirectory(mem: Memory, w: World, c: Frame, i: nat)
    requires Inv(mem, w) && Active(mem, w, c) && i < 1024
    ensures Walk(mem, c, KERNEL_DIR_VIRTUAL + 4 * i) == Some(Loc(w.kernel, i))
  {
    ActiveIsDir(mem, w, c);
    assert Shared(1022);
    PageWalk(mem, c, 0xF_FBFF, i);
  }

  /** The active directory shows itself: word `i` of the window is its entry `i`. */
  lemma OwnDirectory(mem: Memory, w: World, c: Frame, i: nat)
    requires Inv(mem, w) && Active(mem, w, c) && i < 1024
    ensures Walk(mem, c, DirVA(w, c) + 4 * i) == Some(Loc(c, i))
  {
    if c == w.kernel {
      KernelDirectory(mem, w, c, i);
    } else {
      PageWalk(mem, c, 0xE_FBFF, i);
    }
  }

  /** ... and its tables: word `n` of the table window is the entry for page `n`. */
  lemma OwnTables(mem: Memory, w: World, c: Frame, n: PageNum)
    requires Inv(mem, w) && Active(mem, w, c) && mem[c][n / 1024] != ZERO
    ensures Walk(mem, c, TabVA(w, c) + 4 * n) == Some(Loc(mem[c][n / 1024].frame, n % 1024))
  {
    ActiveIsDir(mem, w, c);
    WindowWalk(mem, c, if c == w.kernel then 1023 else 959, n);
  }

  lemma KernelTables(mem: Memory, w: World, c: Frame, n: PageNum)
    requires Inv(mem, w) && Active(mem, w, c) && mem[w.kernel][n / 1024] != ZERO
    ensures Walk(mem, c, KERNEL_TABLES_VIRTUAL + 4 * n) == Some(Loc(mem[w.kernel][n / 1024].frame, n % 1024))
  {
    ActiveIsDir(mem, w, c);
    assert EntriesOk(mem, w.kernel);
    WindowWalk(mem, c, 1023, n);
  }

  /** ... and where the reference directory has no table there is nothing to see. */
  lemma NoKernelTable(mem: Memory, w: World, c: Frame, n: PageNum)
    requires Inv(mem, w) && Active(mem, w, c)
    ensures Walk(mem, c, KERNEL_TABLES_VIRTUAL + 4 * n).Some? <==> mem[w.kernel][n / 1024] != ZERO
  {
    ActiveIsDir(mem, w, c);
    if mem[w.kernel][n / 1024] != ZERO {
      KernelTables(mem, w, c, n);
    }
    hide Inv, Active, SelfMapped;
    Split(1023, n / 1024, n % 1024);
    assert KERNEL_TABLES_VIRTUAL + 4 * n == 1023 * 0x40_0000 + n / 1024 * 0x1000 + 4 * (n % 1024);
  }

  /** Where word `n` of the PMM stack is. */
  function StackVA(n: nat): Addr
    requires n < 1024 * STACK_PAGES
  {
    PMM_STACK_START + 4 * n
  }

  /** Word `n` of the PMM stack lives in its storage frame `n / 1024`. */
  lemma StackWord(mem: Memory, w: World, c: Frame, n: nat)
    requires Inv(mem, w) && Active(mem, w, c) && n < 1024 * |w.storage|
    ensures n < 1024 * STACK_PAGES && StackVA(n) < PMM_STACK_END
    ensures Walk(mem, c, StackVA(n)) == Some(Loc(w.storage[n / 1024], n % 1024))
  {
    ActiveIsDir(mem, w, c);
    var p := StackPage(n / 1024);
    StackSlot(mem, w, n / 1024);
    assert View(mem, w.kernel, p) == Word(w.storage[n / 1024], KERNEL_RW);
    PageWalk(mem, c, p, n % 1024);
    assert p * 0x1000 + 4 * (n % 1024) == StackVA(n);
  }

  /**
    Kernel-half agreement: in every reachable state, whatever a page of the shared
    slots means in the reference directory, it means in every other directory.
  */
  lemma KernelHalfAgrees(mem: Memory, w: World, d: Frame, p: PageNum)
    requires Inv(mem, w) && IsDir(w, d) && Shared(p / 1024)
    ensures mem[d][p / 1024] == mem[w.kernel][p / 1024] != ZERO
    ensures View(mem, d, p) == View(mem, w.kernel, p)
  {
    assert d == w.kernel || DirOk(mem, w, d);
  }

  // ------------------------------------------------------------ map as a pure update

  /** The pages `map` may be asked for: not a window of tables, not the kernel's own pins. */
  predicate Mappable(w: World, p: PageNum) {
    && Ordinary(p)
    && p != 0xE_FBFF && p != 0xF_FBFF
    && !(0xF_F7FF <= p < 0xF_F7FF + |w.storage|)
  }

  predicate NeedsTable(mem: Memory, c: Frame, p: PageNum) {
    mem[c][p / 1024] == ZERO
  }

  /** Memory once the table for page `p` exists: a missing one is made from the top free frame. */
  function TableMem(mem: Memory, w: World, c: Frame, p: PageNum): Memory
    requires NeedsTable(mem, c, p) ==> w.free != []
  {
    if NeedsTable(mem, c, p) then
      var t := w.free[|w.free| - 1];
      Put(Clear(mem, t), Loc(c, p / 1024), Word(t, KERNEL_RW))
    else mem
  }

  function MapMem(mem: Memory, w: World, c: Frame, p: PageNum, x: Word): Memory
    requires NeedsTable(mem, c, p) ==> w.free != []
  {
    var mem1 := TableMem(mem, w, c, p);
    Put(mem1, Loc(mem1[c][p / 1024].frame, p % 1024), x)
  }

  function MapWorld(mem: Memory, w: World, c: Frame, p: PageNum): World
    requires NeedsTable(mem, c, p) ==> w.free != []
  {
    if NeedsTable(mem, c, p) then
      var t := w.free[|w.free| - 1];
      Popped(w).(role := Popped(w).role[t := Table(c, p / 1024)])
    else w
  }

  lemma NewTableInv(mem: Memory, w: World, c: Frame, i: nat, t: Frame)
    requires Inv(mem, w) && IsDir(w, c) && Private(i) && mem[c][i] == ZERO
    requires w.role[t] == Held && t != c
    ensures Inv(Put(Clear(mem, t), Loc(c, i), Word(t, KERNEL_RW)), w.(role := w.role[t := Table(c, i)]))
    ensures WindowsKept(mem, w, Put(Clear(mem, t), Loc(c, i), Word(t, KERNEL_RW)),
                        w.(role := w.role[t := Table(c, i)]))
  {
    hide Inv, SelfMapped, WindowsKept;
    var mem1, w1 := Clear(mem, t), w.(role := w.role[t := Table(c, i)]);
    SetFrame(mem, w, t, ZeroPage());
    SetRole(mem1, w, t, Table(c, i));
    InstallTable(mem1, w1, c, i, Word(t, KERNEL_RW));
    WindowsKeptTwice(mem, w, mem1, w, mem1, w1);
    WindowsKeptTwice(mem, w, mem1, w1, Put(mem1, Loc(c, i), Word(t, KERNEL_RW)), w1);
  }

  lemma ActiveKept(mem: Memory, w: World, mem': Memory, w': World, c: Frame)
    requires Active(mem, w, c) && WindowsKept(mem, w, mem', w') && w'.kernel == w.kernel
    ensures Active(mem', w', c)
  {
  }

  lemma TableInv(mem: Memory, w: World, c: Frame, p: PageNum)
    requires Inv(mem, w) && Active(mem, w, c) && Mappable(w, p)
    requires NeedsTable(mem, c, p) ==> w.free != []
    ensures Inv(TableMem(mem, w, c, p), MapWorld(mem, w, c, p))
    ensures Active(TableMem(mem, w, c, p), MapWorld(mem, w, c, p), c)
    ensures WindowsKept(mem, w, TableMem(mem, w, c, p), MapWorld(mem, w, c, p))
    ensures !NeedsTable(TableMem(mem, w, c, p), c, p)
  {
    ActiveIsDir(mem, w, c);
    hide Inv, SelfMapped;
    if NeedsTable(mem, c, p) {
      hide WindowsKept, Active;
      var t := w.free[|w.free| - 1];
      PopInv(mem, w);
      NewTableInv(mem, Popped(w), c, p / 1024, t);
      WindowsKeptTwice(mem, w, mem, Popped(w), TableMem(mem, w, c, p), MapWorld(mem, w, c, p));
      ActiveKept(mem, w, TableMem(mem, w, c, p), MapWorld(mem, w, c, p), c);
    }
  }

  lemma WriteInv(mem: Memory, w: World, c: Frame, p: PageNum, x: Word)
    requires Inv(mem, w) && Active(mem, w, c) && Mappable(w, p) && !NeedsTable(mem, c, p)
    ensures Inv(Put(mem, Loc(mem[c][p / 1024].frame, p % 1024), x), w)
    ensures Active(Put(mem, Loc(mem[c][p / 1024].frame, p % 1024), x), w, c)
    ensures WindowsKept(mem, w, Put(mem, Loc(mem[c][p / 1024].frame, p % 1024), x), w)
  {
    hide Inv, SelfMapped;
    ActiveIsDir(mem, w, c);
    PutUnimportant(mem, w, mem[c][p / 1024].frame, p % 1024, x);
  }

  /** Whatever page is mapped, the invariant survives. */
  lemma MapInv(mem: Memory, w: World, c: Frame, p: PageNum, x: Word)
    requires Inv(mem, w) && Active(mem, w, c) && Mappable(w, p)
    requires NeedsTable(mem, c, p) ==> w.free != []
    ensures Inv(MapMem(mem, w, c, p, x), MapWorld(mem, w, c, p))
    ensures Active(MapMem(mem, w, c, p, x), MapWorld(mem, w, c, p), c)
    ensures WindowsKept(mem, w, MapMem(mem, w, c, p, x), MapWorld(mem, w, c, p))
  {
    hide Inv, SelfMapped, TableMem, WindowsKept, Active;
    TableInv(mem, w, c, p);
    WriteInv(TableMem(mem, w, c, p), MapWorld(mem, w, c, p), c, p, x);
    WindowsKeptTwice(mem, w, TableMem(mem, w, c, p), MapWorld(mem, w, c, p),
                     MapMem(mem, w, c, p, x), MapWorld(mem, w, c, p));
  }

  predicate Ordinary(p: PageNum) {
    Private(p / 1024) || (Shared(p / 1024) && p / 1024 != 1023)
  }

  /** Pages of the region the PMM stack may grow into. */
  predicate StackRegion(p: PageNum) {
    0xF_F7FF <= p < 0xF_FBFF
  }

  lemma TableOf(mem: Memory, w: World, d: Frame, p: PageNum)
    requires Inv(mem, w) && IsDir(w, d) && mem[d][p / 1024] != ZERO && Ordinary(p)
    ensures mem[d][p / 1024] == mem[w.kernel][p / 1024]
         || w.role[mem[d][p / 1024].frame] == Table(d, p / 1024)
    ensures w.role[mem[d][p / 1024].frame] == KernelTable(p / 1024)
         || w.role[mem[d][p / 1024].frame] == Table(d, p / 1024)
         || w.role[mem[d][p / 1024].frame] == Table(w.kernel, p / 1024)
  {
    assert d == w.kernel || DirOk(mem, w, d);
  }

  /** Two directories meet in a table only at the same slot, and there by the same entry. */
  lemma TablesApart(mem: Memory, w: World, c: Frame, p: PageNum, d: Frame, q: PageNum)
    requires Inv(mem, w) && IsDir(w, c) && IsDir(w, d) && Ordinary(p) && Ordinary(q)
    requires mem[c][p / 1024] != ZERO && mem[d][q / 1024] != ZERO
    requires mem[c][p / 1024].frame == mem[d][q / 1024].frame
    ensures p / 1024 == q / 1024 && (d == c || mem[d][q / 1024] == mem[c][p / 1024])
  {
    TableOf(mem, w, c, p);
    TableOf(mem, w, d, q);
    if mem[w.kernel][p / 1024] != ZERO {
      TableOf(mem, w, w.kernel, p);
    }
  }

  /** Whether directory `d` sees an entry that `map` writes while `c` is active. */
  predicate Sees(mem: Memory, c: Frame, d: Frame, p: PageNum) {
    d == c || (mem[d][p / 1024] == mem[c][p / 1024] != ZERO)
  }

  lemma MapRefinesOld(mem: Memory, w: World, c: Frame, p: PageNum, x: Word, d: Frame, q: PageNum)
    requires Inv(mem, w) && IsDir(w, c) && IsDir(w, d) && Ordinary(p) && Ordinary(q)
    requires !NeedsTable(mem, c, p)
    ensures View(MapMem(mem, w, c, p, x), d, q)
         == if q == p && Sees(mem, c, d, p) then x else View(mem, d, q)
  {
    var t := mem[c][p / 1024].frame;
    TableOf(mem, w, c, p);
    assert t != d;
    hide Inv, SelfMapped;
    if mem[d][q / 1024] != ZERO && mem[d][q / 1024].frame == t {
      TablesApart(mem, w, c, p, d, q);
    }
  }

  lemma FreeTop(mem: Memory, w: World)
    requires Inv(mem, w) && w.free != []
    ensures w.role[w.free[|w.free| - 1]] == Free(|w.free| - 1)
  {
  }

  lemma MapRefinesNew(mem: Memory, w: World, c: Frame, p: PageNum, x: Word, d: Frame, q: PageNum)
    requires Inv(mem, w) && Active(mem, w, c) && IsDir(w, d) && Ordinary(p) && Ordinary(q)
    requires NeedsTable(mem, c, p) && w.free != []
    ensures View(MapMem(mem, w, c, p, x), d, q)
         == if q == p && Sees(mem, c, d, p) then x else View(mem, d, q)
  {
    hide Inv, SelfMapped;
    var t := w.free[|w.free| - 1];
    FreeTop(mem, w);
    ActiveIsDir(mem, w, c);
    assert t != c && t != d;
    if mem[d][q / 1024] != ZERO {
      TableOf(mem, w, d, q);
    }
    var mem' := MapMem(mem, w, c, p, x);
    if d == c && q / 1024 == p / 1024 {
      assert mem'[d][q / 1024] == Word(t, KERNEL_RW);
      assert View(mem', d, q) == if q % 1024 == p % 1024 then x else ZERO;
    } else {
      assert mem'[d][q / 1024] == mem[d][q / 1024];
    }
  }

  /**
    `map` is an update of one page of the flat table, in the active space and in
    every space that shares the table concerned, and of nothing else.
  */
  lemma MapRefines(mem: Memory, w: World, c: Frame, p: PageNum, x: Word, d: Frame, q: PageNum)
    requires Inv(mem, w) && Active(mem, w, c) && Mappable(w, p)
    requires NeedsTable(mem, c, p) ==> w.free != []
    requires IsDir(w, d) && Ordinary(q)
    ensures View(MapMem(mem, w, c, p, x), d, q)
         == if q == p && Sees(mem, c, d, p) then x else View(mem, d, q)
  {
    hide Inv, SelfMapped, View, MapMem, TableMem;
    if NeedsTable(mem, c, p) {
      MapRefinesNew(mem, w, c, p, x, d, q);
    } else {
      ActiveIsDir(mem, w, c);
      MapRefinesOld(mem, w, c, p, x, d, q);
    }
  }

  /** Of the directory `map` writes at most one word: a new table is present and writable, and not for the user. */
  lemma MapEntry(mem: Memory, w: World, c: Frame, p: PageNum, x: Word)
    requires Inv(mem, w) && Active(mem, w, c) && Mappable(w, p)
    requires NeedsTable(mem, c, p) ==> w.free != []
    ensures MapMem(mem, w, c, p, x)[c]
         == if mem[c][p / 1024] == ZERO then mem[c][p / 1024 := Word(w.free[|w.free| - 1], PRESENT | WRITE)]
            else mem[c]
    ensures View(MapMem(mem, w, c, p, x), c, p) == x
  {
    ActiveIsDir(mem, w, c);
    if NeedsTable(mem, c, p) {
      FreeTop(mem, w);
      hide Inv;
    } else {
      TableOf(mem, w, c, p);
      hide Inv;
    }
  }

  // ------------------------------------------------------------ the look at the reference tables

  /**
    A page of the kernel half for which the reference directory has no table, while another
    directory is active: `map` looks at the reference entry of the page, and faults.
  */
  predicate Unshown(mem: Memory, w: World, c: Frame, p: PageNum) {
    0xF_0000 <= p && c != w.kernel && mem[w.kernel][p / 1024] == ZERO
  }

  /** In the shared slots there is always a table. */
  lemma SharedIsShown(mem: Memory, w: World, c: Frame, p: PageNum)
    requires Inv(mem, w) && (p < 0xF_0000 || (Shared(p / 1024) && p / 1024 != 1023))
    ensures !Unshown(mem, w, c, p)
  {
  }

  /** Having been mapped, a page can be looked up in the reference tables exactly if it was not such a page. */
  lemma MapLooksUp(mem: Memory, w: World, c: Frame, p: PageNum, x: Word)
    requires Inv(mem, w) && Active(mem, w, c) && Mappable(w, p) && 0xF_0000 <= p
    requires NeedsTable(mem, c, p) ==> w.free != []
    ensures Walk(MapMem(mem, w, c, p, x), c, KERNEL_TABLES_VIRTUAL + 4 * p).Some? <==> !Unshown(mem, w, c, p)
  {
    hide Inv, Active, Mappable, Walk, MapMem;
    MapInv(mem, w, c, p, x);
    MapKernel(mem, w, c, p, x);
    NoKernelTable(MapMem(mem, w, c, p, x), MapWorld(mem, w, c, p), c, p);
  }

  lemma MapKernel(mem: Memory, w: World, c: Frame, p: PageNum, x: Word)
    requires Inv(mem, w) && Active(mem, w, c) && Mappable(w, p)
    requires NeedsTable(mem, c, p) ==> w.free != []
    ensures MapWorld(mem, w, c, p).kernel == w.kernel
    ensures MapMem(mem, w, c, p, x)[w.kernel][p / 1024] == ZERO
       <==> c != w.kernel && mem[w.kernel][p / 1024] == ZERO
  {
    ActiveIsDir(mem, w, c);
    hide Inv, Active, SelfMapped;
    if NeedsTable(mem, c, p) {
      FreeTop(mem, w);
    } else {
      TableOf(mem, w, c, p);
    }
  }

  /** The pages of slot 1020 are such pages as long as the reference directory has no table there, as after boot. */
  lemma Slot1020Faults(mem: Memory, w: World, c: Frame, p: PageNum, x: Word)
    requires Inv(mem, w) && Active(mem, w, c) && c != w.kernel
    requires p / 1024 == 1020 && mem[w.kernel][1020] == ZERO
    requires NeedsTable(mem, c, p) ==> w.free != []
    ensures Mappable(w, p) && Unshown(mem, w, c, p)
    ensures Walk(MapMem(mem, w, c, p, x), c, KERNEL_TABLES_VIRTUAL + 4 * p) == None
  {
    hide Inv, Active, Walk, MapMem;
    StackLow(mem, w);
    MapLooksUp(mem, w, c, p, x);
  }

  lemma StackLow(mem: Memory, w: World)
    requires Inv(mem, w)
    ensures |w.storage| < STACK_PAGES
  {
  }
}
