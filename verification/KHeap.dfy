/**
  The kernel heap (kheap.c): first fit over a doubly linked list of headers, split and
  merge, and pages taken from and given back to the PMM at the upper end.  The split is
  the intended one; `Chunks.SplitWrittenBreaks` says what the one in the source does.
*/
module KHeaps {
  import opened Hardware
  import opened Ownership
  import opened Windows
  import opened Mounts
  import opened Chunks
  import opened HeapPages
  import opened Machines

  /** Pages below the upper end of the heap. */
  function PagesTo(max: nat): nat {
    if max <= KHEAP_START then 0 else (max - KHEAP_START) / PAGE_SIZE
  }

  /** Pages needed to move the upper end from `max` to `end` or beyond. */
  function MorePages(max: nat, end: nat): nat {
    if end <= max then 0 else (end - max + PAGE_SIZE - 1) / PAGE_SIZE
  }

  /** The upper end is the first page boundary not below the last chunk. */
  predicate Tight(max: nat, end: nat) {
    max % PAGE_SIZE == 0 && KHEAP_START <= end <= max < end + PAGE_SIZE && max <= KHEAP_END
  }

  lemma PageStep(max: nat)
    requires max % PAGE_SIZE == 0 && KHEAP_START <= max < KHEAP_END
    ensures PagesTo(max) < HEAP_PAGES && PageOf(max) == HeapPage(PagesTo(max))
    ensures PagesTo(max + PAGE_SIZE) == PagesTo(max) + 1 && (max + PAGE_SIZE) % PAGE_SIZE == 0
    ensures max + PAGE_SIZE <= KHEAP_END
  {
  }

  lemma TightOnce(max: nat, max': nat, end: nat)
    requires Tight(max, end) && Tight(max', end)
    ensures max == max'
  {
  }

  /**
    kmalloc followed by kfree of what it returned: the chunks, the end of the heap, the PMM
    and every address space are as before.  The arguments are what the two calls ensure.
  */
  lemma MallocFreeRestores(mem0: Memory, w0: World, mem1: Memory, w1: World, mem2: Memory, w2: World,
                           cs: seq<Chunk>, n: nat, max0: nat, max1: nat, max2: nat)
    requires Inv(mem0, w0) && Inv(mem2, w2) && HeapMapped(mem0, w0, PagesTo(max0))
    requires Tiles(cs) && Settled(cs) && HEADER <= n && Tiles(AfterKmalloc(cs, n))
    requires Tight(max0, End(cs)) && Tight(max1, End(AfterKmalloc(cs, n)))
    requires Grown(mem0, w0, mem1, w1, PagesTo(max0), PagesTo(max1))
    requires FirstFit(cs, n) < |cs| ==> mem1 == mem0 && w1 == w0
    requires var cs2 := AfterKfree(AfterKmalloc(cs, n), FirstFit(cs, n));
      && Tight(max2, End(cs2))
      && if End(cs2) == End(AfterKmalloc(cs, n)) then mem2 == mem1 && w2 == w1
         else Trimmed(mem1, w1, mem2, w2, PagesTo(max2), PagesTo(max1))
    ensures AfterKfree(AfterKmalloc(cs, n), FirstFit(cs, n)) == cs && max2 == max0 && w2 == w0
    ensures forall d: Frame, q: PageNum | IsDir(w0, d) && Ordinary(q) && !StackRegion(q) ::
      View(mem2, d, q) == View(mem0, d, q)
  {
    KmallocThenKfree(cs, n);
    TightOnce(max0, max2, End(cs));
    EndsMeet(cs, n);
    hide Inv, View, AfterKmalloc, AfterKfree, HeapMapped, Settled, Tiles, FirstFit, Grown, Trimmed;
    if End(cs) != End(AfterKmalloc(cs, n)) {
      PmmRestored(mem0, w0, mem1, w1, mem2, w2, PagesTo(max0), PagesTo(max1));
      forall d: Frame, q: PageNum | IsDir(w0, d) && Ordinary(q) && !StackRegion(q)
        ensures View(mem2, d, q) == View(mem0, d, q)
      {
        GrowThenTrimViews(mem0, w0, mem1, w1, mem2, w2, PagesTo(max0), PagesTo(max1), d, q);
      }
    }
  }

  lemma PmmRestored(mem0: Memory, w0: World, mem1: Memory, w1: World, mem2: Memory, w2: World, m: nat, n: nat)
    requires Inv(mem0, w0) && Grown(mem0, w0, mem1, w1, m, n) && Trimmed(mem1, w1, mem2, w2, m, n)
    ensures w2 == w0
  {
    GrowThenTrim(mem0, w0, mem1, w1, m, n);
  }

  class KHeap {
    const machine: Machine
    var kheapMax: nat
    var kheapFirst: nat
    var headers: Headers
    ghost var chunks: seq<Chunk>

    /** The pages that are mapped are those below kheap_max. */
    ghost predicate Backed()
      reads this, machine
    {
      && machine.Valid()
      && kheapMax % PAGE_SIZE == 0 && KHEAP_START <= kheapMax <= KHEAP_END
      && HeapMapped(machine.mem, machine.world, PagesTo(kheapMax))
    }

    /** Holds between any two calls of kmalloc and kfree. */
    ghost predicate Valid()
      reads this, machine
    {
      && Backed() && Tight(kheapMax, End(chunks))
      && Row(headers, kheapFirst, chunks) && Settled(chunks)
    }

    constructor (m: Machine)
      requires m.Valid() && HeapMapped(m.mem, m.world, 0)
      ensures Valid() && machine == m && chunks == [] && kheapMax == KHEAP_START
    {
      machine := m;
      kheapMax, kheapFirst := KHEAP_START, 0;
      headers, chunks := map[], [];
    }

    /** One turn of the loop of alloc_chunk: a frame from the PMM becomes the next page of the heap. */
    method MorePage() returns (r: Result<()>)
      requires Backed() && kheapMax < KHEAP_END
      modifies `kheapMax, machine`mem, machine`location, machine`stackLoc, machine`world
      ensures r.Ok? <==> old(machine.world.free) != []
      ensures r.Ok? ==>
        && Backed() && kheapMax == old(kheapMax) + PAGE_SIZE && PagesTo(old(kheapMax)) < HEAP_PAGES
        && OneMore(old(machine.mem), old(machine.world), machine.mem, machine.world, PagesTo(old(kheapMax)))
        && |machine.world.free| == |old(machine.world.free)| - 1
    {
      hide Inv, SelfMapped, Active, HeapMapped, OneMore, WindowsKept, MapMem, Mappable, Unshown;
      PageStep(kheapMax);
      ghost var mem0, w0, n := machine.mem, machine.world, PagesTo(kheapMax);
      var page := machine.PmmAllocPage();
      if page.Panic? {
        return Panic;
      }
      MoreInv(mem0, w0, machine.current.physical, n);
      var s := machine.Map(kheapMax, page.value, PRESENT | WRITE);
      machine.world := MoreWorld(w0, n);
      MoreIsOneMore(mem0, w0, machine.current.physical, n);
      OneMoreMapped(mem0, w0, machine.mem, machine.world, n);
      kheapMax := kheapMax + PAGE_SIZE;
      return Ok(());
    }

    method AllocChunk(start: nat, len: nat) returns (r: Result<()>)
      requires Backed() && KHEAP_START <= start <= KHEAP_END
      modifies `kheapMax, machine`mem, machine`location, machine`stackLoc, machine`world
      ensures r.Ok? <==> len <= KHEAP_END - start
                         && MorePages(old(kheapMax), start + len) <= |old(machine.world.free)|
      ensures r.Ok? ==>
        && Backed() && old(kheapMax) <= kheapMax && start + len <= kheapMax
        && (kheapMax == old(kheapMax) || kheapMax < start + len + PAGE_SIZE)
        && Grown(old(machine.mem), old(machine.world), machine.mem, machine.world,
                 PagesTo(old(kheapMax)), PagesTo(kheapMax))
        && (start + len <= old(kheapMax) ==> machine.mem == old(machine.mem) && machine.world == old(machine.world))
    {
      hide Inv, SelfMapped, Active, HeapMapped, Grown, OneMore;
      if KHEAP_END - start < len {
        return Panic;
      }
      ghost var mem0, w0, max0 := machine.mem, machine.world, kheapMax;
      GrownNothing(mem0, w0, PagesTo(max0));
      while start + len > kheapMax
        invariant Backed() && max0 <= kheapMax
        invariant kheapMax == max0 || kheapMax < start + len + PAGE_SIZE
        invariant Grown(mem0, w0, machine.mem, machine.world, PagesTo(max0), PagesTo(kheapMax))
        invariant |machine.world.free| == |w0.free| - (PagesTo(kheapMax) - PagesTo(max0))
        invariant kheapMax == max0 ==> machine.mem == mem0 && machine.world == w0
        decreases start + len - kheapMax
      {
        PageStep(kheapMax);
        ghost var mem1, w1, n := machine.mem, machine.world, PagesTo(kheapMax);
        var s := MorePage();
        if s.Panic? {
          return Panic;
        }
        GrownMore(mem0, w0, mem1, w1, machine.mem, machine.world, PagesTo(max0), n);
      }
      return Ok(());
    }

    /** One turn of the loop of free_chunk: the last page goes back to the PMM and is unmapped. */
    method LessPage()
      requires Backed() && kheapMax > KHEAP_START
      modifies `kheapMax, machine`mem, machine`location, machine`stackLoc, machine`stackMax, machine`world
      ensures Backed() && kheapMax == old(kheapMax) - PAGE_SIZE && PagesTo(kheapMax) < HEAP_PAGES
      ensures PagesTo(old(kheapMax)) == PagesTo(kheapMax) + 1
      ensures OneLess(old(machine.mem), old(machine.world), machine.mem, machine.world, PagesTo(kheapMax))
      ensures Inv(old(machine.mem), old(machine.world))
    {
      hide Inv, SelfMapped, Active, HeapMapped, OneLess, WindowsKept, MapMem, Mappable, View, Freeable;
      kheapMax := kheapMax - PAGE_SIZE;
      PageStep(kheapMax);
      ghost var mem0, w0, n, c := machine.mem, machine.world, PagesTo(kheapMax), machine.current.physical;
      LessStarts(mem0, w0, c, n);
      var found, page := machine.GetMapping(kheapMax);
      machine.PmmFreePage(PageOf(page));
      ghost var mem1 := machine.mem;
      HeapSeenFrom(mem1, machine.world, c, n);
      machine.Unmap(kheapMax);
      LessIsOneLess(mem0, w0, c, n, mem1, machine.mem, machine.world);
      LessMapped(mem0, w0, machine.mem, machine.world, n);
    }

    /** Takes chunk `m`, the last one and free, out of the list and lets go of the pages behind it. */
    method FreeChunk(chunk: nat, ghost cs: seq<Chunk>)
      requires Backed() && Row(headers, kheapFirst, cs) && End(cs) <= kheapMax
      requires cs != [] && chunk == cs[|cs| - 1].start
      modifies `kheapMax, `kheapFirst, `headers, machine`mem, machine`location, machine`stackLoc,
               machine`stackMax, machine`world
      ensures Backed() && Row(headers, kheapFirst, cs[..|cs| - 1])
      ensures kheapMax <= old(kheapMax) && Tight(kheapMax, chunk)
      ensures Trimmed(old(machine.mem), old(machine.world), machine.mem, machine.world,
                      PagesTo(kheapMax), PagesTo(old(kheapMax)))
    {
      hide Inv, SelfMapped, Active, HeapMapped, OneLess, Trimmed, Linked, Tiles;
      ghost var mem0, w0, max0 := machine.mem, machine.world, kheapMax;
      DropLinked(headers, kheapFirst, cs);
      LastPlace(cs);
      var prev := headers[chunk].prev;
      headers := SetNext(headers, prev, 0);
      if prev == 0 {
        kheapFirst := 0;
      }
      TrimmedNothing(mem0, w0, PagesTo(max0));
      while kheapMax - PAGE_SIZE >= chunk
        invariant Backed() && chunk <= kheapMax <= max0 && Row(headers, kheapFirst, cs[..|cs| - 1])
        invariant Trimmed(mem0, w0, machine.mem, machine.world, PagesTo(kheapMax), PagesTo(max0))
        decreases kheapMax
      {
        ghost var mem1, w1 := machine.mem, machine.world;
        LessPage();
        TrimmedLess(mem0, w0, mem1, w1, machine.mem, machine.world, PagesTo(kheapMax), PagesTo(max0));
      }
    }

    /** The intended split: the remainder, if it has room for a header and more, becomes a free chunk. */
    method SplitChunk(chunk: nat, len: nat, ghost i: nat)
      requires Row(headers, kheapFirst, chunks) && i < |chunks| && chunk == chunks[i].start
      requires HEADER <= len <= chunks[i].len
      modifies `headers, `chunks
      ensures Row(headers, kheapFirst, chunks) && End(chunks) == End(old(chunks))
      ensures chunks == if old(chunks)[i].len - len > HEADER then SplitRow(old(chunks), i, len) else old(chunks)
    {
      hide Linked, Tiles, SplitRow;
      SplitNames(headers, kheapFirst, chunks, i);
      if headers[chunk].len - len > HEADER {
        SplitLinked(headers, kheapFirst, chunks, i, len);
        SplitAt(chunks, i, len);
        ghost var h := headers;
        var newchunk, next := chunk + len, headers[chunk].next;
        headers := headers[newchunk := Header(chunk, next, false, headers[chunk].len - len)];
        headers := headers[chunk := headers[chunk].(next := newchunk, len := len)];
        headers := SetPrev(headers, next, newchunk);
        assert headers == SplitHeaders(h, chunk, len);
        chunks := SplitRow(chunks, i, len);
      }
    }

    /** The first half of glue_chunk: a free successor becomes part of the chunk. */
    method GlueNext(chunk: nat, ghost i: nat)
      requires Row(headers, kheapFirst, chunks) && i < |chunks| && chunk == chunks[i].start
      modifies `headers, `chunks
      ensures Row(headers, kheapFirst, chunks) && chunks == WithNext(old(chunks), i)
    {
      hide Linked, Tiles, Merged;
      SplitNames(headers, kheapFirst, chunks, i);
      if headers[chunk].next != 0 && !headers[headers[chunk].next].used {
        ghost var h := headers;
        MergeLinked(headers, kheapFirst, chunks, i);
        var next := headers[chunk].next;
        headers := headers[chunk := headers[chunk].(len := headers[chunk].len + headers[next].len)];
        headers := SetPrev(headers, headers[next].next, chunk);
        assert headers[chunk].next == next && headers[next] == h[next];
        headers := SetNext(headers, chunk, headers[headers[chunk].next].next);
        assert headers == MergeHeaders(h, chunk, next);
        chunks := Merged(chunks, i);
      }
    }

    /** The second half: the chunk becomes part of a free predecessor. */
    method GluePrev(chunk: nat, ghost i: nat) returns (glued: nat)
      requires Row(headers, kheapFirst, chunks) && i < |chunks| && chunk == chunks[i].start
      modifies `headers, `chunks
      ensures Row(headers, kheapFirst, chunks) && chunks == WithPrev(old(chunks), i)
      ensures glued == chunks[FreeFrom(old(chunks), i)].start
    {
      hide Linked, Tiles, Merged;
      PrevNames(headers, kheapFirst, chunks, i);
      glued := chunk;
      if headers[chunk].prev != 0 && !headers[headers[chunk].prev].used {
        ghost var h := headers;
        MergeLinked(headers, kheapFirst, chunks, i - 1);
        MergedAt(chunks, i - 1);
        var prev := headers[chunk].prev;
        headers := headers[prev := headers[prev].(len := headers[prev].len + headers[chunk].len)];
        headers := SetNext(headers, prev, headers[chunk].next);
        headers := SetPrev(headers, headers[chunk].next, headers[chunk].prev);
        assert headers == MergeHeaders(h, prev, chunk);
        chunks := Merged(chunks, i - 1);
        glued := prev;
      }
    }

    /** glue_chunk: merge with the free neighbours; a chunk that then comes last is let go. */
    method GlueChunk(chunk: nat, ghost cs: seq<Chunk>, ghost i: nat)
      requires Backed() && Tiles(cs) && i < |cs| && chunk == cs[i].start && Tight(kheapMax, End(cs))
      requires chunks == Marked(cs, i, false) && Row(headers, kheapFirst, chunks)
      modifies `kheapMax, `kheapFirst, `headers, `chunks, machine`mem, machine`location, machine`stackLoc,
               machine`stackMax, machine`world
      ensures Backed() && Row(headers, kheapFirst, chunks) && Tight(kheapMax, End(chunks))
      ensures chunks == AfterKfree(cs, i) && kheapMax <= old(kheapMax)
      ensures if End(chunks) == End(cs)
              then kheapMax == old(kheapMax) && machine.mem == old(machine.mem) && machine.world == old(machine.world)
              else Trimmed(old(machine.mem), old(machine.world), machine.mem, machine.world,
                           PagesTo(kheapMax), PagesTo(old(kheapMax)))
    {
      hide Inv, SelfMapped, Active, HeapMapped, Trimmed, Linked, Tiles, WithNext, WithPrev, FreeFrom, AfterKfree;
      GlueSteps(cs, i);
      GlueNext(chunk, i);
      var glued := GluePrev(chunk, i);
      ghost var j := FreeFrom(cs, i);
      SplitNames(headers, kheapFirst, chunks, j);
      if headers[glued].next == 0 {
        ghost var gs := chunks;
        FreeChunk(glued, gs);
        chunks := gs[..|gs| - 1];
      }
    }

    /** The search of kmalloc: `cur` is 0 when no chunk fits, and then `prev` is the last chunk. */
    method Search(n: nat) returns (cur: nat, prev: nat)
      requires Row(headers, kheapFirst, chunks)
      ensures var k := FirstFit(chunks, n);
        && cur == (if k < |chunks| then chunks[k].start else 0) && (cur == 0 <==> k == |chunks|)
        && prev == (if k > 0 then chunks[k - 1].start else 0)
    {
      hide Linked, Tiles, FirstFit;
      ghost var k := 0;
      cur, prev := kheapFirst, 0;
      RowStart(headers, kheapFirst, chunks);
      while cur != 0
        invariant k <= |chunks| && forall j | 0 <= j < k :: chunks[j].used || chunks[j].len < n
        invariant cur == (if k < |chunks| then chunks[k].start else 0) && (k < |chunks| <==> cur != 0)
        invariant prev == if k > 0 then chunks[k - 1].start else 0
        decreases |chunks| - k
      {
        HeaderFacts(headers, kheapFirst, chunks, k);
        if !headers[cur].used && headers[cur].len >= n {
          break;
        }
        prev, cur := cur, headers[cur].next;
        k := k + 1;
      }
      FirstFitIs(chunks, n, k);
    }

    /** What kmalloc does with a chunk that fits. */
    method Occupy(cur: nat, n: nat, ghost k: nat)
      requires Row(headers, kheapFirst, chunks) && k < |chunks| && cur == chunks[k].start
      requires HEADER <= n <= chunks[k].len
      modifies `headers, `chunks
      ensures Row(headers, kheapFirst, chunks) && End(chunks) == End(old(chunks))
      ensures var cs := old(chunks);
        chunks == Marked(if cs[k].len - n > HEADER then SplitRow(cs, k, n) else cs, k, true)
    {
      hide Linked, Tiles, SplitRow, Marked;
      if chunks[k].len - n > HEADER {
        SplitAt(chunks, k, n);
      }
      SplitChunk(cur, n, k);
      MarkLinked(headers, kheapFirst, chunks, k, true);
      headers := headers[cur := headers[cur].(used := true)];
      chunks := Marked(chunks, k, true);
    }

    /** First fit; a chunk that is too small for the rest to stand alone is handed out whole. */
    method Kmalloc(len: nat) returns (r: Result<nat>)
      requires Valid() && len + HEADER < 0x1_0000_0000
      modifies `kheapMax, `kheapFirst, `headers, `chunks, machine`mem, machine`location, machine`stackLoc, machine`world
      ensures var n, cs, max := len + HEADER, old(chunks), old(kheapMax);
        && (r.Ok? <==> FirstFit(cs, n) < |cs|
                       || (n <= KHEAP_END - End(cs) && MorePages(max, End(cs) + n) <= |old(machine.world.free)|))
        && (r.Ok? ==>
              && Valid() && chunks == AfterKmalloc(cs, n) && r.value == Given(cs, n).start + HEADER
              && Served(cs, FirstFit(cs, n), chunks, n, Given(cs, n))
              && max <= kheapMax
              && Grown(old(machine.mem), old(machine.world), machine.mem, machine.world,
                       PagesTo(max), PagesTo(kheapMax))
              && RestKept(old(machine.mem), old(machine.world), machine.mem, machine.world)
              && (FirstFit(cs, n) < |cs| ==>
                    kheapMax == max && machine.mem == old(machine.mem) && machine.world == old(machine.world)))
    {
      hide Inv, SelfMapped, Active, HeapMapped, Grown, Linked, Tiles, Settled, SplitRow, FirstFit, RestKept, Served;
      var n := len + HEADER;
      ghost var cs, k, first := chunks, FirstFit(chunks, n), kheapFirst;
      ghost var mem0, w0, max := machine.mem, machine.world, kheapMax;
      GrownNothing(mem0, w0, PagesTo(max));
      NothingChanged(mem0, w0);
      KmallocKeeps(cs, n);
      KmallocServes(cs, n);
      var cur, prev := Search(n);
      if cur != 0 {
        Occupy(cur, n, k);
        GivenStart(cs, n);
        return Ok(cur + HEADER);
      }
      GivenStart(cs, n);
      r := Append(prev, n);
      if r.Ok? {
        GrowthKeepsRest(mem0, w0, machine.mem, machine.world, PagesTo(max), PagesTo(kheapMax));
      }
    }

    /** What kmalloc does when no chunk fits: a new one behind the last. */
    method Append(prev: nat, n: nat) returns (r: Result<nat>)
      requires Backed() && Tight(kheapMax, End(chunks)) && Row(headers, kheapFirst, chunks) && HEADER <= n
      requires prev == if chunks == [] then 0 else chunks[|chunks| - 1].start
      modifies `kheapMax, `kheapFirst, `headers, `chunks, machine`mem, machine`location, machine`stackLoc, machine`world
      ensures var end, max := End(old(chunks)), old(kheapMax);
        && (r.Ok? <==> n <= KHEAP_END - end && MorePages(max, end + n) <= |old(machine.world.free)|)
        && (r.Ok? ==>
              && Backed() && Tight(kheapMax, End(chunks)) && Row(headers, kheapFirst, chunks)
              && chunks == old(chunks) + [Chunk(end, n, true)] && r.value == end + HEADER && max <= kheapMax
              && Grown(old(machine.mem), old(machine.world), machine.mem, machine.world,
                       PagesTo(max), PagesTo(kheapMax)))
    {
      hide Inv, SelfMapped, Active, HeapMapped, Grown, Linked, Tiles;
      ghost var cs, first := chunks, kheapFirst;
      RowStart(headers, kheapFirst, cs);
      AppendLinked(headers, first, cs, n);
      var start := Behind(prev);
      if prev == 0 {
        kheapFirst := start;
      }
      var s := AllocChunk(start, n);
      if s.Panic? {
        return Panic;
      }
      headers := SetNext(headers[start := Header(prev, 0, true, n)], prev, start);
      chunks := cs + [Chunk(start, n, true)];
      return Ok(start + HEADER);
    }

    /** Where the next chunk is to begin: behind `prev`, or at KHEAP_START. */
    method Behind(prev: nat) returns (start: nat)
      requires Row(headers, kheapFirst, chunks)
      requires prev == if chunks == [] then 0 else chunks[|chunks| - 1].start
      ensures start == End(chunks) && (prev == 0 <==> chunks == [])
    {
      hide Linked, Tiles;
      if chunks != [] {
        RowEnd(headers, kheapFirst, chunks);
      }
      if prev != 0 {
        start := prev + headers[prev].len;
      } else {
        start := KHEAP_START;
      }
    }

    /** `p` must have come from kmalloc: chunk `i`, in use, begins 12 bytes before it. */
    method Kfree(p: nat, ghost i: nat)
      requires Valid() && i < |chunks| && chunks[i].used && p == chunks[i].start + HEADER
      modifies `kheapMax, `kheapFirst, `headers, `chunks, machine`mem, machine`location, machine`stackLoc,
               machine`stackMax, machine`world
      ensures Valid() && chunks == AfterKfree(old(chunks), i) && kheapMax <= old(kheapMax)
      ensures forall c: Chunk | c.used :: c in chunks <==> c in old(chunks) && c != old(chunks)[i]
      ensures if End(chunks) == End(old(chunks))
              then kheapMax == old(kheapMax) && machine.mem == old(machine.mem) && machine.world == old(machine.world)
              else Trimmed(old(machine.mem), old(machine.world), machine.mem, machine.world,
                           PagesTo(kheapMax), PagesTo(old(kheapMax)))
      ensures RestKept(old(machine.mem), old(machine.world), machine.mem, machine.world)
    {
      hide Inv, SelfMapped, Active, HeapMapped, Trimmed, Linked, Tiles, Settled, AfterKfree, Marked, RestKept;
      var header := p - HEADER;
      ghost var cs, mem0, w0, max := chunks, machine.mem, machine.world, kheapMax;
      NothingChanged(mem0, w0);
      KfreeKeeps(cs, i);
      MarkLinked(headers, kheapFirst, chunks, i, false);
      headers := headers[header := headers[header].(used := false)];
      chunks := Marked(cs, i, false);
      GlueChunk(header, cs, i);
      if End(chunks) != End(cs) {
        TrimKeepsRest(mem0, w0, machine.mem, machine.world, PagesTo(kheapMax), PagesTo(max));
      }
    }
  }
}
