/**
  The memory managers come up, in the order in which the kernel starts them
  (kernel/init/main.c): what each of them asks for, the one before has left behind.
*/
module Startup {
  import opened Hardware
  import opened Ownership
  import opened Mounts
  import opened Teardown
  import opened Boot
  import opened HeapPages
  import opened HeapKept
  import opened Machines
  import opened KHeaps

  lemma CollectedHeap(mem0: Memory, b: nat, rs: seq<Region>, mem: Memory, w: World)
    requires b + BOOT_FRAMES <= FRAMES && Booted(mem0, b) && RegionsOk(rs)
    requires Untouched(mem0, BootWorld(b), mem, w, UsableFrames(b + BOOT_FRAMES, rs))
    ensures HeapMapped(mem, w, 0)
    ensures forall f: Frame | f < b :: mem[f] == mem0[f]
  {
    hide Booted, Inv, BootWorld, UsableFrames, HeapMapped, Ahead, Untouched;
    var fs := UsableFrames(b + BOOT_FRAMES, rs);
    BootInv(mem0, b);
    BootHeap(mem0, b);
    UsableOnce(b + BOOT_FRAMES, rs);
    UntouchedContents(mem0, BootWorld(b), mem, w, fs);
    FreesKeepHeap(mem0, BootWorld(b), mem, w, fs, 0);
  }

  /** From the end of the loaded image and the boot memory map to a heap that can be used. */
  method StartMemory(memory: Memory, pmmStart: Addr, rs: seq<Region>) returns (machine: Machine, heap: KHeap)
    requires pmmStart / PAGE_SIZE + 1 + BOOT_FRAMES <= FRAMES && RegionsOk(rs)
    ensures fresh(machine) && fresh(heap) && heap.machine == machine
    ensures heap.Valid() && heap.chunks == [] && machine.Valid() && machine.current == machine.kernel
    ensures var b := pmmStart / PAGE_SIZE + 1;
      && Collected(b + BOOT_FRAMES, rs, BootWorld(b), machine.world)
      && machine.world == FreedAll(BootWorld(b), UsableFrames(b + BOOT_FRAMES, rs))
      && forall f: Frame | f < b :: machine.mem[f] == memory[f]
    ensures AtRest(machine.mem, machine.world) && MountsInUse(machine.mem, machine.world, machine.kernel.physical)
  {
    hide Inv, Booted, BootWorld, UsableFrames, FreedAll, FreedAllMem, HeapMapped, Ahead, Untouched, AtRest, MountsInUse,
         Collected;
    ghost var b := pmmStart / PAGE_SIZE + 1;
    machine := new Machine(memory, pmmStart);
    machine.InitVmm();
    ghost var mem0 := machine.mem;
    BootInv(mem0, b);
    machine.PmmCollectPages(rs);
    CollectedHeap(mem0, b, rs, machine.mem, machine.world);
    StackHolds(machine.mem, machine.world);
    AtRestInUse(machine.mem, machine.world, machine.kernel.physical);
    heap := new KHeap(machine);
  }
}
