/**
  Physical memory and the 32-bit paging walk (section 4.3 of the Intel SDM,
  Volume 3A), together with the address constants and index macros of the kernel.

  A 32-bit word is written as its 20-bit frame number and its 12 low bits, which
  is a bijection: the word is `frame * 4096 + flags`.  Physical memory is a
  sequence of frames of 1024 words.
*/
module Hardware {
  import opened Basics

  const FRAMES := 0x10_0000
  const PAGE_SIZE := 0x1000

  type Frame = f: nat | f < FRAMES
  type Addr = a: nat | a < 0x1_0000_0000
  type PageNum = p: nat | p < FRAMES

  datatype Word = Word(frame: Frame, flags: bv12)

  const ZERO := Word(0, 0)
  const PRESENT: bv12 := 1
  const WRITE: bv12 := 2
  const USER: bv12 := 4
  const KERNEL_RW: bv12 := 3
  const USER_RW: bv12 := 7

  function ZeroPage(): (p: seq<Word>)
    ensures |p| == 1024
  {
    seq(1024, _ => ZERO)
  }

  type Page = s: seq<Word> | |s| == 1024 witness ZeroPage()
  type Memory = m: seq<Page> | |m| == FRAMES ghost witness seq(FRAMES, _ => ZeroPage())

  datatype Loc = Loc(frame: Frame, index: nat)
  datatype Result<T> = Ok(value: T) | Panic

  predicate Present(w: Word) {
    w.flags & PRESENT != 0
  }

  function Put(mem: Memory, l: Loc, w: Word): Memory
    requires l.index < 1024
  {
    mem[l.frame := mem[l.frame][l.index := w]]
  }

  function Clear(mem: Memory, f: Frame): Memory {
    mem[f := ZeroPage()]
  }

  /** The index macros of vmm.h. */
  function DirIdx(va: Addr): (i: nat)
    ensures i < 1024
  {
    va / 0x40_0000
  }

  function TabIdx(va: Addr): (i: nat)
    ensures i < 1024
  {
    va / 0x1000 % 1024
  }

  function PageOf(va: Addr): PageNum {
    va / 0x1000
  }

  // Layout of the virtual address space (layout.h), as addresses and as directory slots.
  const USER_DIR_VIRTUAL: Addr := 0xEFBF_F000
  const USER_TABLES_VIRTUAL: Addr := 0xEFC0_0000
  const USER_STACKS_START: Addr := 0xE000_0000
  const USER_STACKS_END: Addr := 0xF000_0000
  const KERNEL_ADDRESS_SPACE: Addr := 0xF000_0000
  const KHEAP_START: Addr := 0xF000_0000
  const KHEAP_END: Addr := 0xFD00_0000
  const MOUNT_TABS_START: Addr := 0xFD00_0000
  const MOUNT_TABS_END: Addr := 0xFF00_0000
  const MOUNT_DIR_START: Addr := 0xFF7F_B000
  const MOUNT_DIR_END: Addr := 0xFF7F_F000
  const PMM_STACK_START: Addr := 0xFF7F_F000
  const PMM_STACK_END: Addr := 0xFFBF_F000
  const KERNEL_DIR_VIRTUAL: Addr := 0xFFBF_F000
  const KERNEL_TABLES_VIRTUAL: Addr := 0xFFC0_0000

  /** The hardware walk: which physical word a virtual address names, if any. */
  function Walk(mem: Memory, cr3: Frame, va: Addr): Option<Loc> {
    var pde := mem[cr3][DirIdx(va)];
    if !Present(pde) then None else
    var pte := mem[pde.frame][TabIdx(va)];
    if !Present(pte) then None else
    Some(Loc(pte.frame, va % 0x1000 / 4))
  }

  function Load(mem: Memory, cr3: Frame, va: Addr): Word
    requires Walk(mem, cr3, va).Some?
  {
    var l := Walk(mem, cr3, va).value;
    mem[l.frame][l.index]
  }

  function Store(mem: Memory, cr3: Frame, va: Addr, w: Word): Memory
    requires Walk(mem, cr3, va).Some?
  {
    Put(mem, Walk(mem, cr3, va).value, w)
  }

  /** What a directory says about a page, seen as one flat table of 2^20 entries. */
  function View(mem: Memory, d: Frame, p: PageNum): Word {
    if mem[d][p / 1024] == ZERO then ZERO else mem[mem[d][p / 1024].frame][p % 1024]
  }

  /** The three index fields of a word address. */
  lemma Split(i: nat, j: nat, k: nat)
    requires i < 1024 && j < 1024 && k < 1024
    ensures i * 0x40_0000 + j * 0x1000 + 4 * k < 0x1_0000_0000
    ensures DirIdx(i * 0x40_0000 + j * 0x1000 + 4 * k) == i
    ensures TabIdx(i * 0x40_0000 + j * 0x1000 + 4 * k) == j
    ensures (i * 0x40_0000 + j * 0x1000 + 4 * k) % 0x1000 / 4 == k
  {
    var va := i * 0x40_0000 + j * 0x1000 + 4 * k;
    assert va / 0x1000 == i * 1024 + j;
    assert va % 0x1000 == 4 * k;
  }

  /**
    The recursive window.  When slot `k` of the active directory names a directory
    `e`, the 4 MB of virtual memory of that slot show the tables of `e` as one
    linear array: word `n` is the entry for page `n`.
  */
  lemma WindowWalk(mem: Memory, cr3: Frame, k: nat, n: PageNum)
    requires k < 1024
    requires Present(mem[cr3][k])
    requires Present(mem[mem[cr3][k].frame][n / 1024])
    ensures k * 0x40_0000 + 4 * n < 0x1_0000_0000
    ensures Walk(mem, cr3, k * 0x40_0000 + 4 * n)
         == Some(Loc(mem[mem[cr3][k].frame][n / 1024].frame, n % 1024))
  {
    Split(k, n / 1024, n % 1024);
    assert k * 0x40_0000 + 4 * n == k * 0x40_0000 + n / 1024 * 0x1000 + 4 * (n % 1024);
  }

  /** A single mapped page shows its frame word by word. */
  lemma PageWalk(mem: Memory, cr3: Frame, p: PageNum, i: nat)
    requires i < 1024
    requires Present(mem[cr3][p / 1024])
    requires Present(mem[mem[cr3][p / 1024].frame][p % 1024])
    ensures p * 0x1000 + 4 * i < 0x1_0000_0000
    ensures Walk(mem, cr3, p * 0x1000 + 4 * i)
         == Some(Loc(mem[mem[cr3][p / 1024].frame][p % 1024].frame, i))
  {
    Split(p / 1024, p % 1024, i);
    assert p * 0x1000 + 4 * i == p / 1024 * 0x40_0000 + p % 1024 * 0x1000 + 4 * i;
  }
}
