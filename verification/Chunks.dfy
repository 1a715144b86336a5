/**
  The kernel heap (kheap.c) as a row of chunks, and the doubly linked headers that
  represent it in memory.  A header takes 12 bytes and stands at the start of its chunk.
*/
module Chunks {
  import opened Hardware

  const HEADER := 12

  datatype Chunk = Chunk(start: nat, len: nat, used: bool)
  datatype Header = Header(prev: nat, next: nat, used: bool, len: nat)
  type Headers = map<nat, Header>

  function End(cs: seq<Chunk>): nat {
    if cs == [] then KHEAP_START else cs[|cs| - 1].start + cs[|cs| - 1].len
  }

  /** Chunk `i` has room for its header and starts where the one before it ends. */
  ghost predicate Placed(cs: seq<Chunk>, i: nat)
    requires i < |cs|
  {
    cs[i].len >= HEADER && cs[i].start == if i == 0 then KHEAP_START else cs[i - 1].start + cs[i - 1].len
  }

  /** The chunks follow each other without gaps from KHEAP_START on. */
  ghost predicate Tiles(cs: seq<Chunk>) {
    forall i: nat | i < |cs| :: Placed(cs, i)
  }

  /** Chunk `i` is in use, or is free with a successor in use. */
  ghost predicate Bounded(cs: seq<Chunk>, i: nat)
    requires i < |cs|
  {
    cs[i].used || (i + 1 < |cs| && cs[i + 1].used)
  }

  /** No two neighbours are both free, and the last chunk is never free. */
  ghost predicate Settled(cs: seq<Chunk>) {
    forall i: nat | i < |cs| :: Bounded(cs, i)
  }

  function HeaderOf(cs: seq<Chunk>, i: nat): Header
    requires i < |cs|
  {
    Header(if i == 0 then 0 else cs[i - 1].start, if i + 1 == |cs| then 0 else cs[i + 1].start, cs[i].used, cs[i].len)
  }

  ghost predicate Spelled(h: Headers, cs: seq<Chunk>, i: nat)
    requires i < |cs|
  {
    cs[i].start in h && h[cs[i].start] == HeaderOf(cs, i)
  }

  /** The headers spell out the row of chunks. */
  ghost predicate Linked(h: Headers, first: nat, cs: seq<Chunk>) {
    && first == (if cs == [] then 0 else KHEAP_START)
    && forall i: nat | i < |cs| :: Spelled(h, cs, i)
  }

  lemma {:induction false} Apart(cs: seq<Chunk>, i: nat, j: nat)
    requires Tiles(cs) && i < j < |cs|
    ensures cs[i].start + cs[i].len <= cs[j].start
    decreases j
  {
    assert Placed(cs, j) && Placed(cs, j - 1);
    if i < j - 1 {
      Apart(cs, i, j - 1);
    }
  }

  lemma AllApart(cs: seq<Chunk>)
    requires Tiles(cs)
    ensures forall i | 0 <= i < |cs| ::
      cs[i].len >= HEADER && KHEAP_START <= cs[i].start && cs[i].start + cs[i].len <= End(cs)
    ensures forall i, j | 0 <= i < j < |cs| :: cs[i].start + cs[i].len <= cs[j].start
  {
    forall i, j | 0 <= i < j < |cs| ensures cs[i].start + cs[i].len <= cs[j].start {
      Apart(cs, i, j);
    }
    if cs != [] {
      assert Placed(cs, 0);
    }
    forall i | 0 <= i < |cs|
      ensures cs[i].len >= HEADER && KHEAP_START <= cs[i].start && cs[i].start + cs[i].len <= End(cs)
    {
      assert Placed(cs, i);
    }
  }

  lemma TwoApart(cs: seq<Chunk>, i: nat, j: nat)
    requires Tiles(cs) && i < |cs| && j < |cs|
    ensures i < j ==> cs[i].start + cs[i].len <= cs[j].start
    ensures j < i ==> cs[j].start + cs[j].len <= cs[i].start
    ensures cs[i].len >= HEADER && cs[j].len >= HEADER
  {
    assert Placed(cs, i) && Placed(cs, j);
    if i < j {
      Apart(cs, i, j);
    } else if j < i {
      Apart(cs, j, i);
    }
  }

  lemma LastPlace(cs: seq<Chunk>)
    requires Tiles(cs) && cs != []
    ensures KHEAP_START <= cs[|cs| - 1].start && cs[|cs| - 1].start + HEADER <= End(cs)
  {
    AllApart(cs);
  }

  /** No byte belongs to two chunks, so the memory handed out for one is nobody else's. */
  lemma OwnBytes(cs: seq<Chunk>, i: nat, j: nat, a: nat)
    requires Tiles(cs) && i < |cs| && j < |cs|
    requires cs[i].start <= a < cs[i].start + cs[i].len && cs[j].start <= a < cs[j].start + cs[j].len
    ensures i == j
  {
    AllApart(cs);
  }

  // ------------------------------------------------------------ edits of the row and of the headers

  function Marked(cs: seq<Chunk>, i: nat, used: bool): seq<Chunk>
    requires i < |cs|
  {
    cs[i := cs[i].(used := used)]
  }

  function Merged(cs: seq<Chunk>, i: nat): seq<Chunk>
    requires i + 1 < |cs|
  {
    cs[..i] + [cs[i].(len := cs[i].len + cs[i + 1].len)] + cs[i + 2..]
  }

  function SplitRow(cs: seq<Chunk>, i: nat, n: nat): seq<Chunk>
    requires i < |cs| && n <= cs[i].len
  {
    cs[..i] + [cs[i].(len := n), Chunk(cs[i].start + n, cs[i].len - n, false)] + cs[i + 1..]
  }

  function SetPrev(h: Headers, a: nat, p: nat): Headers
    requires a != 0 ==> a in h
  {
    if a == 0 then h else h[a := h[a].(prev := p)]
  }

  function SetNext(h: Headers, a: nat, p: nat): Headers
    requires a != 0 ==> a in h
  {
    if a == 0 then h else h[a := h[a].(next := p)]
  }

  lemma MarkLinked(h: Headers, first: nat, cs: seq<Chunk>, i: nat, used: bool)
    requires Linked(h, first, cs) && Tiles(cs) && i < |cs|
    ensures cs[i].start in h && Tiles(Marked(cs, i, used)) && End(Marked(cs, i, used)) == End(cs)
    ensures Linked(h[cs[i].start := h[cs[i].start].(used := used)], first, Marked(cs, i, used))
  {
    AllApart(cs);
    assert Spelled(h, cs, i);
    var ds, h' := Marked(cs, i, used), h[cs[i].start := h[cs[i].start].(used := used)];
    forall k: nat | k < |ds| ensures Placed(ds, k) && Spelled(h', ds, k) {
      assert Placed(cs, k) && Spelled(h, cs, k);
    }
  }

  lemma MergedAt(cs: seq<Chunk>, i: nat)
    requires Tiles(cs) && i + 1 < |cs|
    ensures var ds := Merged(cs, i);
      && |ds| == |cs| - 1 && ds[i] == cs[i].(len := cs[i].len + cs[i + 1].len) && End(ds) == End(cs)
      && (forall k | 0 <= k < i :: ds[k] == cs[k]) && (forall k | i < k < |ds| :: ds[k] == cs[k + 1])
    ensures Tiles(Merged(cs, i))
  {
    var ds := Merged(cs, i);
    assert forall k | i < k < |ds| :: ds[k] == cs[k + 1];
    assert Placed(cs, i + 1) && Placed(cs, i);
    forall k: nat | k < |ds| ensures Placed(ds, k) {
      assert Placed(cs, if k <= i then k else k + 1);
    }
  }

  /** The headers after chunk `a` has taken in its successor `b`. */
  function MergeHeaders(h: Headers, a: nat, b: nat): Headers
    requires a in h && b in h && (h[b].next != 0 ==> h[b].next in h)
  {
    SetPrev(h[a := h[a].(len := h[a].len + h[b].len, next := h[b].next)], h[b].next, a)
  }

  /** Chunk `i` takes in its successor. */
  lemma MergeLinked(h: Headers, first: nat, cs: seq<Chunk>, i: nat)
    requires Linked(h, first, cs) && Tiles(cs) && i + 1 < |cs|
    ensures Tiles(Merged(cs, i)) && End(Merged(cs, i)) == End(cs)
    ensures var a, b := cs[i].start, cs[i + 1].start;
      && a in h && b in h && (h[b].next != 0 ==> h[b].next in h && h[b].next > b)
      && h[a].next == b && h[b].prev == a && 0 < a < b
      && Linked(MergeHeaders(h, a, b), first, Merged(cs, i))
  {
    MergedAt(cs, i);
    MergeNames(h, first, cs, i);
    hide Merged, Tiles, MergeHeaders;
    var ds, h' := Merged(cs, i), MergeHeaders(h, cs[i].start, cs[i + 1].start);
    forall k: nat | k < |ds| ensures Spelled(h', ds, k) {
      MergeSpelled(h, first, cs, i, k);
    }
  }

  lemma MergeNames(h: Headers, first: nat, cs: seq<Chunk>, i: nat)
    requires Linked(h, first, cs) && Tiles(cs) && i + 1 < |cs|
    ensures var a, b := cs[i].start, cs[i + 1].start;
      && a in h && b in h && h[a].next == b && h[b].prev == a && 0 < a < b
      && h[b].next == (if i + 2 < |cs| then cs[i + 2].start else 0)
      && (h[b].next != 0 ==> h[b].next in h && h[b].next > b)
  {
    AllApart(cs);
    assert Spelled(h, cs, i) && Spelled(h, cs, i + 1);
    if i + 2 < |cs| {
      assert Spelled(h, cs, i + 2);
    }
  }

  lemma MergeSpelled(h: Headers, first: nat, cs: seq<Chunk>, i: nat, k: nat)
    requires Linked(h, first, cs) && Tiles(cs) && i + 1 < |cs| && k < |cs| - 1
    ensures var a, b := cs[i].start, cs[i + 1].start;
      && a in h && b in h && (h[b].next != 0 ==> h[b].next in h)
      && Spelled(MergeHeaders(h, a, b), Merged(cs, i), k)
  {
    MergedAt(cs, i);
    MergeNames(h, first, cs, i);
    var k' := if k <= i then k else k + 1;
    assert Spelled(h, cs, k') && Spelled(h, cs, i) && Spelled(h, cs, i + 1);
    TwoApart(cs, i, k');
    TwoApart(cs, i, i + 1);
    if i + 2 < |cs| {
      TwoApart(cs, i + 2, k');
      TwoApart(cs, i, i + 2);
    }
    hide Merged, Tiles, Linked;
  }

  lemma SplitAt(cs: seq<Chunk>, i: nat, n: nat)
    requires Tiles(cs) && i < |cs| && HEADER <= n && n + HEADER <= cs[i].len
    ensures var ds := SplitRow(cs, i, n);
      && |ds| == |cs| + 1 && ds[i] == cs[i].(len := n) && ds[i + 1] == Chunk(cs[i].start + n, cs[i].len - n, false)
      && End(ds) == End(cs)
      && (forall k | 0 <= k < i :: ds[k] == cs[k]) && (forall k | i + 1 < k < |ds| :: ds[k] == cs[k - 1])
    ensures Tiles(SplitRow(cs, i, n))
  {
    var ds := SplitRow(cs, i, n);
    assert Placed(cs, i);
    forall k: nat | k < |ds| ensures Placed(ds, k) {
      assert Placed(cs, if k <= i then k else k - 1);
    }
  }

  /** The headers after chunk `a` has been cut after `n` bytes. */
  function SplitHeaders(h: Headers, a: nat, n: nat): Headers
    requires a in h && n <= h[a].len && (h[a].next != 0 ==> h[a].next in h)
  {
    SetPrev(h[a + n := Header(a, h[a].next, false, h[a].len - n)][a := h[a].(next := a + n, len := n)],
            h[a].next, a + n)
  }

  /** Chunk `i` is cut after `n` bytes. */
  lemma SplitLinked(h: Headers, first: nat, cs: seq<Chunk>, i: nat, n: nat)
    requires Linked(h, first, cs) && Tiles(cs) && i < |cs|
    requires HEADER <= n && n + HEADER <= cs[i].len
    ensures Tiles(SplitRow(cs, i, n)) && End(SplitRow(cs, i, n)) == End(cs)
    ensures var a := cs[i].start;
      && a in h && h[a].len == cs[i].len && (h[a].next != 0 ==> h[a].next in h && h[a].next > a + n)
      && Linked(SplitHeaders(h, a, n), first, SplitRow(cs, i, n))
  {
    SplitAt(cs, i, n);
    SplitNames(h, first, cs, i);
    hide SplitRow, Tiles, SplitHeaders;
    var ds, h' := SplitRow(cs, i, n), SplitHeaders(h, cs[i].start, n);
    forall k: nat | k < |ds| ensures Spelled(h', ds, k) {
      SplitSpelled(h, first, cs, i, n, k);
    }
  }

  lemma SplitNames(h: Headers, first: nat, cs: seq<Chunk>, i: nat)
    requires Linked(h, first, cs) && Tiles(cs) && i < |cs|
    ensures var a := cs[i].start;
      && a in h && h[a].len == cs[i].len
      && h[a].next == (if i + 1 < |cs| then cs[i + 1].start else 0)
      && (i + 1 < |cs| <==> h[a].next != 0)
      && (h[a].next != 0 ==> h[a].next in h && h[a].next >= a + cs[i].len && h[h[a].next].used == cs[i + 1].used)
  {
    AllApart(cs);
    assert Spelled(h, cs, i);
    if i + 1 < |cs| {
      assert Spelled(h, cs, i + 1);
    }
  }

  lemma PrevNames(h: Headers, first: nat, cs: seq<Chunk>, i: nat)
    requires Linked(h, first, cs) && Tiles(cs) && i < |cs|
    ensures var a := cs[i].start;
      && a in h && h[a].prev == (if i > 0 then cs[i - 1].start else 0)
      && (i > 0 ==> cs[i - 1].start != 0 && h[a].prev in h && h[h[a].prev].used == cs[i - 1].used)
  {
    AllApart(cs);
    assert Spelled(h, cs, i);
    if i > 0 {
      assert Spelled(h, cs, i - 1);
    }
  }

  lemma HeaderFacts(h: Headers, first: nat, cs: seq<Chunk>, i: nat)
    requires Linked(h, first, cs) && Tiles(cs) && i < |cs|
    ensures cs[i].start != 0 && cs[i].start in h && h[cs[i].start] == HeaderOf(cs, i)
    ensures i + 1 < |cs| ==> cs[i + 1].start != 0
  {
    AllApart(cs);
    assert Spelled(h, cs, i);
  }

  lemma RowStart(h: Headers, first: nat, cs: seq<Chunk>)
    requires Linked(h, first, cs) && Tiles(cs)
    ensures first == (if cs == [] then 0 else cs[0].start) && (first == 0 <==> cs == []) && first in {0, KHEAP_START}
  {
    assert cs != [] ==> Placed(cs, 0);
  }

  lemma RowEnd(h: Headers, first: nat, cs: seq<Chunk>)
    requires Linked(h, first, cs) && Tiles(cs) && cs != []
    ensures var a := cs[|cs| - 1].start; a != 0 && a in h && a + h[a].len == End(cs)
  {
    HeaderFacts(h, first, cs, |cs| - 1);
  }

  lemma SplitSpelled(h: Headers, first: nat, cs: seq<Chunk>, i: nat, n: nat, k: nat)
    requires Linked(h, first, cs) && Tiles(cs) && i < |cs|
    requires HEADER <= n && n + HEADER <= cs[i].len && k < |cs| + 1
    ensures var a := cs[i].start;
      && a in h && h[a].len == cs[i].len && (h[a].next != 0 ==> h[a].next in h)
      && Spelled(SplitHeaders(h, a, n), SplitRow(cs, i, n), k)
  {
    SplitAt(cs, i, n);
    SplitNames(h, first, cs, i);
    var k' := if k <= i then k else k - 1;
    assert Spelled(h, cs, k') && Spelled(h, cs, i);
    TwoApart(cs, i, k');
    if i + 1 < |cs| {
      TwoApart(cs, i + 1, k');
      TwoApart(cs, i, i + 1);
    }
    hide SplitRow, Tiles, Linked;
  }

  lemma AppendLinked(h: Headers, first: nat, cs: seq<Chunk>, n: nat)
    requires Linked(h, first, cs) && Tiles(cs) && HEADER <= n
    ensures var a, p := End(cs), if cs == [] then 0 else cs[|cs| - 1].start;
      && Tiles(cs + [Chunk(a, n, true)]) && (p != 0 ==> p in h && p < a)
      && Linked(SetNext(h[a := Header(p, 0, true, n)], p, a), KHEAP_START, cs + [Chunk(a, n, true)])
  {
    AllApart(cs);
    var a, p := End(cs), if cs == [] then 0 else cs[|cs| - 1].start;
    var ds := cs + [Chunk(a, n, true)];
    if cs != [] {
      assert Spelled(h, cs, |cs| - 1);
    }
    var h' := SetNext(h[a := Header(p, 0, true, n)], p, a);
    forall k: nat | k < |ds| ensures Placed(ds, k) && Spelled(h', ds, k) {
      if k < |cs| {
        assert Placed(cs, k) && Spelled(h, cs, k);
      }
    }
  }

  lemma DropLinked(h: Headers, first: nat, cs: seq<Chunk>)
    requires Linked(h, first, cs) && Tiles(cs) && cs != []
    ensures var m := |cs| - 1;
      && cs[m].start in h && (h[cs[m].start].prev != 0 ==> h[cs[m].start].prev in h)
      && (h[cs[m].start].prev == 0 <==> m == 0)
      && Tiles(cs[..m]) && End(cs[..m]) == cs[m].start
      && Linked(SetNext(h, h[cs[m].start].prev, 0), if m == 0 then 0 else first, cs[..m])
  {
    AllApart(cs);
    var m := |cs| - 1;
    assert Spelled(h, cs, m) && Placed(cs, m);
    if m > 0 {
      assert Spelled(h, cs, m - 1);
    }
    var ds, h' := cs[..m], SetNext(h, h[cs[m].start].prev, 0);
    forall k: nat | k < |ds| ensures Placed(ds, k) && Spelled(h', ds, k) {
      assert Placed(cs, k) && Spelled(h, cs, k);
    }
  }

  // ------------------------------------------------------------ kmalloc and kfree on rows

  /** The first free chunk of at least `n` bytes, or the number of chunks. */
  function FirstFit(cs: seq<Chunk>, n: nat): (i: nat)
    ensures i <= |cs|
    ensures i < |cs| ==> !cs[i].used && cs[i].len >= n
    ensures forall k | 0 <= k < i :: cs[k].used || cs[k].len < n
  {
    if cs == [] then 0
    else if !cs[0].used && cs[0].len >= n then 0
    else FirstFit(cs[1..], n) + 1
  }

  /** The bytes of the chunks from `lo` up to `hi`. */
  ghost function Reach(cs: seq<Chunk>, lo: nat, hi: nat): nat
    requires Tiles(cs) && lo < hi < |cs|
  {
    TwoApart(cs, lo, hi);
    cs[hi].start - cs[lo].start
  }

  lemma {:induction false} FirstFitIs(cs: seq<Chunk>, n: nat, k: nat)
    requires k <= |cs| && (k < |cs| ==> !cs[k].used && cs[k].len >= n)
    requires forall j | 0 <= j < k :: cs[j].used || cs[j].len < n
    ensures FirstFit(cs, n) == k
  {
  }

  /** What kmalloc makes of the row; `n` counts the header in. */
  function AfterKmalloc(cs: seq<Chunk>, n: nat): seq<Chunk> {
    var i := FirstFit(cs, n);
    if i == |cs| then cs + [Chunk(End(cs), n, true)]
    else if cs[i].len - n > HEADER then Marked(SplitRow(cs, i, n), i, true)
    else Marked(cs, i, true)
  }

  /** The chunk kmalloc hands out. */
  function Given(cs: seq<Chunk>, n: nat): Chunk {
    AfterKmalloc(cs, n)[FirstFit(cs, n)]
  }

  lemma GivenStart(cs: seq<Chunk>, n: nat)
    requires Tiles(cs)
    ensures Given(cs, n).start == if FirstFit(cs, n) < |cs| then cs[FirstFit(cs, n)].start else End(cs)
  {
  }

  /** The free neighbours of chunk `i`, and itself, are the chunks from FreeFrom up to FreeTo. */
  function FreeFrom(cs: seq<Chunk>, i: nat): nat
    requires i < |cs|
  {
    if i > 0 && !cs[i - 1].used then i - 1 else i
  }

  function FreeTo(cs: seq<Chunk>, i: nat): nat
    requires i < |cs|
  {
    if i + 1 < |cs| && !cs[i + 1].used then i + 2 else i + 1
  }

  /**
    What kfree makes of the row: chunk `i` and its free neighbours become one, and that
    one disappears when nothing follows it.
  */
  ghost function AfterKfree(cs: seq<Chunk>, i: nat): seq<Chunk>
    requires Tiles(cs) && i < |cs|
  {
    var lo, hi := FreeFrom(cs, i), FreeTo(cs, i);
    if hi == |cs| then cs[..lo]
    else cs[..lo] + [Chunk(cs[lo].start, Reach(cs, lo, hi), false)] + cs[hi..]
  }

  /** Marking a chunk as used, when its neighbours are used or it is so far unused, settles the row. */
  lemma KmallocSettled(cs: seq<Chunk>, n: nat)
    requires Tiles(cs) && Settled(cs) && HEADER <= n
    ensures Settled(AfterKmalloc(cs, n))
  {
    var i, ds := FirstFit(cs, n), AfterKmalloc(cs, n);
    if i < |cs| && cs[i].len - n > HEADER {
      SplitAt(cs, i, n);
      hide SplitRow;
      assert Bounded(cs, i);
      forall k: nat | k < |ds| ensures Bounded(ds, k) {
        assert Bounded(cs, if k <= i then k else k - 1);
      }
    } else {
      forall k: nat | k < |ds| ensures Bounded(ds, k) {
        assert k < |cs| ==> Bounded(cs, k);
      }
    }
  }

  lemma KmallocTiles(cs: seq<Chunk>, n: nat)
    requires Tiles(cs) && HEADER <= n
    ensures Tiles(AfterKmalloc(cs, n))
  {
    var i, ds := FirstFit(cs, n), AfterKmalloc(cs, n);
    if i < |cs| && cs[i].len - n > HEADER {
      SplitAt(cs, i, n);
      MarkTiles(SplitRow(cs, i, n), i, true);
    } else if i < |cs| {
      MarkTiles(cs, i, true);
    } else {
      forall k: nat | k < |ds| ensures Placed(ds, k) {
        assert k < |cs| ==> Placed(cs, k);
      }
    }
  }

  lemma MarkTiles(cs: seq<Chunk>, i: nat, used: bool)
    requires Tiles(cs) && i < |cs|
    ensures Tiles(Marked(cs, i, used))
  {
    forall k: nat | k < |cs| ensures Placed(Marked(cs, i, used), k) {
      assert Placed(cs, k);
    }
  }

  /**
    kmalloc keeps the heap in order.  Of the chunks in use it leaves every one as it is
    and adds exactly one, which is large enough and was nobody's.
  */
  lemma KmallocKeeps(cs: seq<Chunk>, n: nat)
    requires Tiles(cs) && Settled(cs) && HEADER <= n
    ensures Tiles(AfterKmalloc(cs, n)) && Settled(AfterKmalloc(cs, n))
    ensures var g := Given(cs, n);
      && g.used && n <= g.len && g !in cs
      && forall c: Chunk | c.used :: c in AfterKmalloc(cs, n) <==> c in cs || c == g
  {
    KmallocTiles(cs, n);
    KmallocSettled(cs, n);
    GivenIsNew(cs, n);
    KmallocUsed(cs, n);
  }

  lemma GivenIsNew(cs: seq<Chunk>, n: nat)
    requires Tiles(cs) && HEADER <= n
    ensures Given(cs, n).used && n <= Given(cs, n).len && Given(cs, n) !in cs
  {
    var i, g := FirstFit(cs, n), Given(cs, n);
    assert g.used && n <= g.len && (i < |cs| ==> g.start == cs[i].start);
    hide Given;
    if j: nat :| j < |cs| && cs[j] == g {
      TwoApart(cs, if i == |cs| then i - 1 else i, j);
    }
  }

  lemma KmallocUsed(cs: seq<Chunk>, n: nat)
    requires Tiles(cs) && HEADER <= n
    ensures forall c: Chunk | c.used :: c in AfterKmalloc(cs, n) <==> c in cs || c == Given(cs, n)
  {
    var i, ds := FirstFit(cs, n), AfterKmalloc(cs, n);
    if i == |cs| {
      assert ds == cs + [Given(cs, n)];
    } else if cs[i].len - n > HEADER {
      SplitAt(cs, i, n);
      assert ds[..i] == cs[..i] && ds[i + 2..] == cs[i + 1..];
      SameUsed(cs, ds, i, i + 1, i + 2);
      assert ds[i..i + 2] == [ds[i], ds[i + 1]] && cs[i..i + 1] == [cs[i]];
    } else {
      SameUsed(cs, ds, i, i + 1, i + 1);
      assert ds[i..i + 1] == [ds[i]] && cs[i..i + 1] == [cs[i]];
    }
  }

  /** Two rows that agree before `i` and from `j` on (`j'` in the other row). */
  lemma SameUsed(cs: seq<Chunk>, ds: seq<Chunk>, i: nat, j: nat, j': nat)
    requires i <= j <= |cs| && i <= j' <= |ds| && cs[..i] == ds[..i] && cs[j..] == ds[j'..]
    ensures forall c :: c in ds <==> c in cs[..i] || c in ds[i..j'] || c in cs[j..]
    ensures forall c :: c in cs <==> c in cs[..i] || c in cs[i..j] || c in cs[j..]
  {
    assert cs == cs[..i] + cs[i..j] + cs[j..];
    assert ds == ds[..i] + ds[i..j'] + ds[j'..];
  }

  /** The first free chunk of at least `n` bytes is at index `i`; none has room if `i` is the end. */
  ghost predicate Fits(cs: seq<Chunk>, i: nat, n: nat) {
    && i <= |cs| && (i < |cs| ==> !cs[i].used && n <= cs[i].len)
    && forall k | 0 <= k < i :: cs[k].used || cs[k].len < n
  }

  /**
    What kmalloc may do to the row.  A chunk that fits is handed out from its start, and what is
    left of it is a free chunk right behind, unless that would have no room for more than a
    header; if none fits, a new chunk of `n` bytes comes behind the last.  All other chunks stay.
  */
  ghost predicate Served(cs: seq<Chunk>, i: nat, ds: seq<Chunk>, n: nat, g: Chunk) {
    && Fits(cs, i, n) && i < |ds| && ds[i] == g && g !in cs
    && g.used && n <= g.len <= n + HEADER && g.start == (if i < |cs| then cs[i].start else End(cs))
    && (i < |cs| && n + HEADER < cs[i].len ==>
          g.len == n && i + 1 < |ds| && ds[i + 1] == Chunk(cs[i].start + n, cs[i].len - n, false))
    && (i < |cs| && cs[i].len <= n + HEADER ==> g.len == cs[i].len)
    && (i == |cs| ==> g.len == n)
    && (forall c: Chunk | c in cs && (i < |cs| ==> c != cs[i]) :: c in ds)
    && (forall c: Chunk | c in ds && c !in cs :: c == g || (i + 1 < |ds| && i < |cs| < |ds| && c == ds[i + 1]))
  }

  /** Cutting chunk `i` in two, or marking it, puts no other chunk out of the row and none into it. */
  lemma OthersStay(cs: seq<Chunk>, i: nat, ds: seq<Chunk>)
    requires i < |cs| <= |ds| <= |cs| + 1
    requires forall k | 0 <= k < i :: ds[k] == cs[k]
    requires forall k | i < k < |cs| :: ds[k + |ds| - |cs|] == cs[k]
    ensures forall c: Chunk | c in cs && c != cs[i] :: c in ds
    ensures forall c: Chunk | c in ds && c != ds[i] && c != ds[i + |ds| - |cs|] :: c in cs
  {
    forall c: Chunk | c in cs && c != cs[i] ensures c in ds {
      var k :| 0 <= k < |cs| && cs[k] == c;
      assert ds[if k < i then k else k + |ds| - |cs|] == c;
    }
    forall c: Chunk | c in ds && c != ds[i] && c != ds[i + |ds| - |cs|] ensures c in cs {
      var k :| 0 <= k < |ds| && ds[k] == c;
      assert cs[if k < i then k else k - |ds| + |cs|] == c;
    }
  }

  lemma SplitServes(cs: seq<Chunk>, i: nat, n: nat)
    requires Tiles(cs) && HEADER <= n && Fits(cs, i, n) && i < |cs| && n + HEADER < cs[i].len
    requires var ds := Marked(SplitRow(cs, i, n), i, true); i < |ds| && ds[i] !in cs
    ensures var ds := Marked(SplitRow(cs, i, n), i, true); Served(cs, i, ds, n, ds[i])
  {
    SplitAt(cs, i, n);
    hide SplitRow, Tiles, Fits;
    OthersStay(cs, i, Marked(SplitRow(cs, i, n), i, true));
  }

  lemma WholeServes(cs: seq<Chunk>, i: nat, n: nat)
    requires Fits(cs, i, n) && i < |cs| && cs[i].len <= n + HEADER
    requires Marked(cs, i, true)[i] !in cs
    ensures Served(cs, i, Marked(cs, i, true), n, Marked(cs, i, true)[i])
  {
    hide Fits;
    FitsHere(cs, i, n);
    OthersStay(cs, i, Marked(cs, i, true));
  }

  lemma FitsHere(cs: seq<Chunk>, i: nat, n: nat)
    requires Fits(cs, i, n) && i < |cs|
    ensures !cs[i].used && n <= cs[i].len
  {
  }

  /** kmalloc hands out what was asked for and no more than a header beyond it, and keeps the rest. */
  lemma KmallocServes(cs: seq<Chunk>, n: nat)
    requires Tiles(cs) && HEADER <= n
    ensures Served(cs, FirstFit(cs, n), AfterKmalloc(cs, n), n, Given(cs, n))
  {
    GivenIsNew(cs, n);
    var i := FirstFit(cs, n);
    assert Fits(cs, i, n);
    hide SplitRow, Tiles, Fits, FirstFit, Served;
    if i < |cs| && cs[i].len - n > HEADER {
      SplitServes(cs, i, n);
    } else if i < |cs| {
      WholeServes(cs, i, n);
    } else {
      AppendServes(cs, n);
    }
  }

  lemma AppendServes(cs: seq<Chunk>, n: nat)
    requires Fits(cs, |cs|, n) && Chunk(End(cs), n, true) !in cs
    ensures Served(cs, |cs|, cs + [Chunk(End(cs), n, true)], n, Chunk(End(cs), n, true))
  {
    hide Fits, End;
  }

  // kfree goes step by step: unmark, take in the successor, be taken in, disappear.

  function WithNext(cs: seq<Chunk>, i: nat): seq<Chunk>
    requires i < |cs|
  {
    if i + 1 < |cs| && !cs[i + 1].used then Merged(cs, i) else cs
  }

  function WithPrev(cs: seq<Chunk>, i: nat): seq<Chunk>
    requires i < |cs|
  {
    if i > 0 && !cs[i - 1].used then Merged(cs, i - 1) else cs
  }

  /** The row when glue_chunk has merged all it can, before the last chunk may go. */
  function Glued(cs: seq<Chunk>, i: nat): seq<Chunk>
    requires i < |cs|
  {
    WithPrev(WithNext(Marked(cs, i, false), i), i)
  }

  lemma WithNextAt(cs: seq<Chunk>, i: nat)
    requires Tiles(cs) && i < |cs|
    ensures Tiles(WithNext(cs, i)) && End(WithNext(cs, i)) == End(cs) && i < |WithNext(cs, i)|
    ensures WithNext(cs, i)[..i] == cs[..i]
  {
    if i + 1 < |cs| && !cs[i + 1].used {
      MergedAt(cs, i);
    }
  }

  lemma WithPrevAt(cs: seq<Chunk>, i: nat)
    requires Tiles(cs) && i < |cs|
    ensures Tiles(WithPrev(cs, i)) && End(WithPrev(cs, i)) == End(cs)
  {
    if i > 0 && !cs[i - 1].used {
      MergedAt(cs, i - 1);
    }
  }

  lemma GluedTiles(cs: seq<Chunk>, i: nat)
    requires Tiles(cs) && i < |cs|
    ensures Tiles(Glued(cs, i)) && End(Glued(cs, i)) == End(cs)
  {
    MarkTiles(cs, i, false);
    WithNextAt(Marked(cs, i, false), i);
    WithPrevAt(WithNext(Marked(cs, i, false), i), i);
  }

  lemma WithNextIs(cs: seq<Chunk>, i: nat)
    requires i < |cs| && !cs[i].used
    ensures var hi, ns := FreeTo(cs, i), WithNext(cs, i);
      && |ns| == i + 1 + (|cs| - hi) && ns[..i] == cs[..i] && ns[i + 1..] == cs[hi..]
      && ns[i].start == cs[i].start && !ns[i].used
  {
  }

  lemma WithPrevIs(cs: seq<Chunk>, i: nat)
    requires i < |cs| && !cs[i].used
    ensures var lo, ns := FreeFrom(cs, i), WithPrev(cs, i);
      && |ns| == lo + |cs| - i && ns[..lo] == cs[..lo] && ns[lo + 1..] == cs[i + 1..]
      && ns[lo].start == cs[lo].start && !ns[lo].used
  {
  }

  /** All that was glued is one free chunk. */
  lemma GluedIs(cs: seq<Chunk>, i: nat)
    requires i < |cs|
    ensures var lo, hi, gs := FreeFrom(cs, i), FreeTo(cs, i), Glued(cs, i);
      && |gs| == lo + 1 + (|cs| - hi) && gs[..lo] == cs[..lo] && gs[lo + 1..] == cs[hi..]
      && gs[lo].start == cs[lo].start && !gs[lo].used
  {
    var ms := Marked(cs, i, false);
    var ns := WithNext(ms, i);
    WithNextIs(ms, i);
    assert ns[..i] == ms[..i] == cs[..i];
    assert FreeFrom(ns, i) == FreeFrom(cs, i) by {
      if i > 0 {
        assert ns[i - 1] == ns[..i][i - 1] == cs[i - 1];
      }
    }
    assert FreeTo(ms, i) == FreeTo(cs, i) && ms[FreeTo(cs, i)..] == cs[FreeTo(cs, i)..];
    hide WithNext, WithPrev;
    WithPrevIs(ns, i);
  }

  /** In a row without gaps, what stands between two known places is determined. */
  lemma Rebuilt(cs: seq<Chunk>, gs: seq<Chunk>, lo: nat, hi: nat)
    requires Tiles(cs) && Tiles(gs) && lo < hi <= |cs| && |gs| == lo + 1 + (|cs| - hi)
    requires gs[..lo] == cs[..lo] && gs[lo + 1..] == cs[hi..] && gs[lo].start == cs[lo].start && !gs[lo].used
    ensures if hi == |cs| then gs[..lo] == cs[..lo] && lo + 1 == |gs|
            else gs == cs[..lo] + [Chunk(cs[lo].start, Reach(cs, lo, hi), false)] + cs[hi..]
  {
    if hi < |cs| {
      assert gs[lo + 1] == gs[lo + 1..][0] == cs[hi];
      assert Placed(gs, lo + 1);
      TwoApart(cs, lo, hi);
      assert gs == gs[..lo] + [gs[lo]] + gs[lo + 1..];
    }
  }

  lemma KfreeIsGlued(cs: seq<Chunk>, i: nat)
    requires Tiles(cs) && i < |cs|
    ensures Tiles(Glued(cs, i)) && FreeFrom(cs, i) < |Glued(cs, i)|
    ensures AfterKfree(cs, i) == var gs, lo := Glued(cs, i), FreeFrom(cs, i);
                            if lo + 1 == |gs| then gs[..lo] else gs
  {
    GluedTiles(cs, i);
    GluedIs(cs, i);
    hide Glued, Tiles, Reach;
    Rebuilt(cs, Glued(cs, i), FreeFrom(cs, i), FreeTo(cs, i));
  }

  /** The steps of glue_chunk, and what its last test finds out. */
  lemma GlueSteps(cs: seq<Chunk>, i: nat)
    requires Tiles(cs) && i < |cs|
    ensures var ms := Marked(cs, i, false);
            var ns := WithNext(ms, i);
            var gs, j := WithPrev(ns, i), FreeFrom(cs, i);
      && Tiles(ms) && i < |ns| && ns[i].start == cs[i].start && FreeFrom(ns, i) == j && j < |gs|
      && End(gs) == End(cs) && End(ms) == End(cs)
      && (if j + 1 == |gs| then AfterKfree(cs, i) == gs[..|gs| - 1] && End(AfterKfree(cs, i)) == gs[j].start < End(cs)
          else AfterKfree(cs, i) == gs)
  {
    KfreeIsGlued(cs, i);
    GluedTiles(cs, i);
    MarkTiles(cs, i, false);
    var ms := Marked(cs, i, false);
    WithNextAt(ms, i);
    WithNextIs(ms, i);
    var ns := WithNext(ms, i);
    assert i > 0 ==> ns[i - 1] == ns[..i][i - 1] == cs[i - 1];
    var gs := Glued(cs, i);
    TwoApart(gs, |gs| - 1, |gs| - 1);
    assert Placed(gs, |gs| - 1);
  }

  lemma PrefixTiles(cs: seq<Chunk>, m: nat)
    requires Tiles(cs) && m <= |cs|
    ensures Tiles(cs[..m])
  {
    forall k: nat | k < m ensures Placed(cs[..m], k) {
      assert Placed(cs, k);
    }
  }

  lemma KfreeSettled(cs: seq<Chunk>, i: nat)
    requires Tiles(cs) && Settled(cs) && i < |cs| && cs[i].used
    ensures Settled(AfterKfree(cs, i))
  {
    var ds, lo, hi := AfterKfree(cs, i), FreeFrom(cs, i), FreeTo(cs, i);
    assert forall k | 0 <= k < lo :: ds[k] == cs[k];
    assert forall k | lo < k < |ds| :: ds[k] == cs[k - lo - 1 + hi];
    if i > 0 {
      assert Bounded(cs, i - 1);
      if i > 1 {
        assert Bounded(cs, i - 2);
      }
    }
    if i + 1 < |cs| {
      assert Bounded(cs, i + 1);
    }
    forall k: nat | k < |ds| ensures Bounded(ds, k) {
      assert k < lo ==> Bounded(cs, k);
      assert k > lo ==> Bounded(cs, k - lo - 1 + hi);
    }
  }

  /** Of the chunks at and around the one freed only that one was in use. */
  lemma KfreeUsed(cs: seq<Chunk>, i: nat)
    requires Tiles(cs) && i < |cs| && cs[i].used
    ensures forall c: Chunk | c.used :: c in AfterKfree(cs, i) <==> c in cs && c != cs[i]
  {
    var ds, lo, hi := AfterKfree(cs, i), FreeFrom(cs, i), FreeTo(cs, i);
    if hi == |cs| {
      SameUsed(cs, ds, lo, |cs|, lo);
    } else {
      assert ds[..lo] == cs[..lo] && ds[lo + 1..] == cs[hi..];
      SameUsed(cs, ds, lo, hi, lo + 1);
    }
    assert forall k | lo <= k < hi :: k == i || !cs[k].used;
    forall k: nat | k < |cs| && (k < lo || hi <= k) ensures cs[k] != cs[i] {
      TwoApart(cs, i, k);
    }
  }

  /** kfree keeps the heap in order, and of the chunks in use takes away the one it is given. */
  lemma KfreeKeeps(cs: seq<Chunk>, i: nat)
    requires Tiles(cs) && Settled(cs) && i < |cs| && cs[i].used
    ensures Tiles(AfterKfree(cs, i)) && Settled(AfterKfree(cs, i))
    ensures forall c: Chunk | c.used :: c in AfterKfree(cs, i) <==> c in cs && c != cs[i]
  {
    KfreeIsGlued(cs, i);
    PrefixTiles(Glued(cs, i), FreeFrom(cs, i));
    KfreeSettled(cs, i);
    KfreeUsed(cs, i);
  }

  /** The row `ds` is `cs` with chunk `i` cut in two, the first part in use. */
  ghost predicate CutInTwo(cs: seq<Chunk>, ds: seq<Chunk>, i: nat)
    requires i < |cs|
  {
    && |ds| == |cs| + 1 && i + 1 < |ds| && ds[i].start == cs[i].start && !ds[i + 1].used
    && (forall k | 0 <= k < i :: ds[k] == cs[k]) && (forall k | i + 1 < k < |ds| :: ds[k] == cs[k - 1])
  }

  /** Between neighbours in use a free chunk is one by itself, and another follows it. */
  lemma FreeBetween(cs: seq<Chunk>, i: nat)
    requires Tiles(cs) && Settled(cs) && i < |cs| && !cs[i].used
    ensures i + 1 < |cs| && cs[i + 1].used && cs[i + 1].start == cs[i].start + cs[i].len
    ensures i > 0 ==> cs[i - 1].used
  {
    if i > 0 {
      assert Bounded(cs, i - 1);
    }
    assert Bounded(cs, i) && Placed(cs, i + 1);
  }

  lemma CutNeighbours(cs: seq<Chunk>, ds: seq<Chunk>, i: nat)
    requires Tiles(cs) && Settled(cs) && i < |cs| && !cs[i].used && CutInTwo(cs, ds, i)
    ensures FreeFrom(ds, i) == i && FreeTo(ds, i) == i + 2 < |ds|
    ensures ds[i + 2].start == cs[i].start + cs[i].len
  {
    hide Tiles, Settled;
    FreeBetween(cs, i);
    assert ds[i + 2] == cs[i + 1];
    assert i > 0 ==> ds[i - 1] == cs[i - 1];
  }

  lemma CutJoined(cs: seq<Chunk>, ds: seq<Chunk>, i: nat, c: Chunk)
    requires i < |cs| && CutInTwo(cs, ds, i) && c == cs[i]
    ensures ds[..i] + [c] + ds[i + 2..] == cs
  {
    assert ds[..i] == cs[..i] && ds[i + 2..] == cs[i + 1..];
  }

  lemma FreeSplit(cs: seq<Chunk>, i: nat, n: nat)
    requires Tiles(cs) && Settled(cs) && i < |cs| && !cs[i].used && HEADER <= n && n + HEADER <= cs[i].len
    ensures var ds := Marked(SplitRow(cs, i, n), i, true); Tiles(ds) && AfterKfree(ds, i) == cs
  {
    hide SplitRow, Tiles, Settled, FreeFrom, FreeTo;
    SplitAt(cs, i, n);
    MarkTiles(SplitRow(cs, i, n), i, true);
    var ds := Marked(SplitRow(cs, i, n), i, true);
    CutNeighbours(cs, ds, i);
    CutJoined(cs, ds, i, Chunk(ds[i].start, Reach(ds, i, i + 2), false));
  }

  lemma FreeMarked(cs: seq<Chunk>, i: nat)
    requires Tiles(cs) && Settled(cs) && i < |cs| && !cs[i].used
    ensures var ds := Marked(cs, i, true); Tiles(ds) && AfterKfree(ds, i) == cs
  {
    MarkTiles(cs, i, true);
    if i > 0 {
      assert Bounded(cs, i - 1);
    }
    assert Bounded(cs, i) && Placed(cs, i + 1);
  }

  /** Giving back at once what kmalloc has just handed out leaves the heap as it was. */
  lemma KmallocThenKfree(cs: seq<Chunk>, n: nat)
    requires Tiles(cs) && Settled(cs) && HEADER <= n
    ensures Tiles(AfterKmalloc(cs, n)) && AfterKfree(AfterKmalloc(cs, n), FirstFit(cs, n)) == cs
  {
    var i, ds := FirstFit(cs, n), AfterKmalloc(cs, n);
    KmallocTiles(cs, n);
    if i == |cs| {
      if i > 0 {
        assert Bounded(cs, i - 1);
      }
    } else if cs[i].len - n > HEADER {
      FreeSplit(cs, i, n);
    } else {
      FreeMarked(cs, i);
    }
  }

  /** Only a chunk appended moves the end of the heap. */
  lemma EndsMeet(cs: seq<Chunk>, n: nat)
    requires Tiles(cs) && HEADER <= n
    ensures End(AfterKmalloc(cs, n)) == End(cs) <==> FirstFit(cs, n) < |cs|
  {
    var i := FirstFit(cs, n);
    if i < |cs| && cs[i].len - n > HEADER {
      SplitAt(cs, i, n);
      assert End(Marked(SplitRow(cs, i, n), i, true)) == End(SplitRow(cs, i, n));
      hide SplitRow, FirstFit;
    }
  }

  // ------------------------------------------------------------ split_chunk as it is written

  /**
    split_chunk puts the header of the remainder at `chunk + chunk->length`, which is
    where the next chunk begins, and not at `chunk + len`.
  */
  function SplitWritten(h: Headers, a: nat, n: nat): Headers
    requires a in h && n <= h[a].len
  {
    if h[a].len - n > HEADER then
      var b := a + h[a].len;
      h[b := Header(a, h[a].next, false, h[a].len - n)][a := h[a].(next := b, len := n)]
    else h
  }

  ghost predicate Row(h: Headers, first: nat, cs: seq<Chunk>) {
    Tiles(cs) && Linked(h, first, cs)
  }

  /** Following the headers from the first chunk leads to the chunk behind the one that was split. */
  lemma {:induction false} WrittenWalk(h: Headers, first: nat, cs: seq<Chunk>, i: nat, n: nat, ds: seq<Chunk>, k: nat)
    requires Row(h, first, cs) && i + 1 < |cs| && n + HEADER < cs[i].len && k <= i + 1
    requires cs[i].start in h && h[cs[i].start].len == cs[i].len
    requires Row(SplitWritten(h, cs[i].start, n), first, ds)
    ensures k < |ds| && ds[k].start == cs[k].start
    decreases k
  {
    TwoApart(cs, 0, 0);
    TwoApart(cs, i, i + 1);
    assert Placed(cs, i + 1) && Spelled(h, cs, i);
    if k == 0 {
      assert Placed(cs, 0) && (ds != [] ==> Placed(ds, 0));
    } else {
      WrittenWalk(h, first, cs, i, n, ds, k - 1);
      TwoApart(cs, i, k - 1);
      TwoApart(cs, i + 1, k - 1);
      TwoApart(cs, 0, k);
      assert Placed(cs, 0) && Spelled(h, cs, k - 1) && Spelled(SplitWritten(h, cs[i].start, n), ds, k - 1);
    }
  }

  /** ... and from there to itself. */
  lemma WrittenLoops(h: Headers, first: nat, cs: seq<Chunk>, i: nat, n: nat)
    requires Row(h, first, cs) && i + 1 < |cs|
    ensures cs[i].start in h && h[cs[i].start].len == cs[i].len
    ensures n + HEADER < cs[i].len ==>
      var h', b := SplitWritten(h, cs[i].start, n), cs[i + 1].start;
      b in h' && h'[b].next == b && !h'[b].used && forall ds :: !Row(h', first, ds)
  {
    assert Spelled(h, cs, i) && Placed(cs, i + 1) && Placed(cs, 0);
    if n + HEADER < cs[i].len {
      var h' := SplitWritten(h, cs[i].start, n);
      TwoApart(cs, 0, i + 1);
      if ds :| Row(h', first, ds) {
        WrittenWalk(h, first, cs, i, n, ds, i + 1);
        TwoApart(ds, i + 1, i + 1);
        SplitNames(h', first, ds, i + 1);
      }
    }
  }

  /**
    The split as written leaves a heap behind if and only if it does not split: any
    remainder turns the next header, of a chunk in use, into a free one that links to itself.
  */
  lemma SplitWrittenBreaks(h: Headers, first: nat, cs: seq<Chunk>, i: nat, n: nat)
    requires Row(h, first, cs) && Settled(cs) && i < |cs| && !cs[i].used && n <= cs[i].len
    ensures i + 1 < |cs| && cs[i + 1].used && cs[i].start in h && h[cs[i].start].len == cs[i].len
    ensures (exists ds :: Row(SplitWritten(h, cs[i].start, n), first, ds)) <==> cs[i].len - n <= HEADER
    ensures cs[i].len - n > HEADER ==>
      var h', b := SplitWritten(h, cs[i].start, n), cs[i + 1].start;
      b in h' && h'[b].next == b && !h'[b].used
  {
    assert Bounded(cs, i);
    WrittenLoops(h, first, cs, i, n);
    if cs[i].len - n <= HEADER {
      assert Row(SplitWritten(h, cs[i].start, n), first, cs);
    }
  }
}
