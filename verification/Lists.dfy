/**
  list.c: a growing array with a cursor.  `Cursor` is the value a list denotes;
  `CursorList` is the structure in memory, six slots allocated and never resized.
*/
module Lists {

  /** Slots a list has, whatever capacity it records. */
  const LIST_SLOTS := 6

  datatype Cursor<T> = Cursor(elems: seq<T>, curr: nat) {
    predicate IsEnd() {
      curr >= |elems|
    }

    predicate IsEmpty() {
      elems == []
    }

    function Current(): T
      requires !IsEnd()
    {
      elems[curr]
    }

    function Next(): Cursor<T> {
      this.(curr := curr + 1)
    }

    function Rewind(): Cursor<T> {
      this.(curr := 0)
    }

    function PushBack(x: T): Cursor<T> {
      this.(elems := elems + [x])
    }

    /** The last element takes the place of the current one. */
    function Remove(): Cursor<T> {
      if IsEnd() then this
      else this.(elems := elems[curr := elems[|elems| - 1]][..|elems| - 1])
    }
  }

  /** What is left ahead of the cursor: the last element first, the others in order. */
  function Ahead<T>(l: Cursor<T>): seq<T>
    requires !l.IsEnd()
  {
    var n := |l.elems| - 1;
    if l.curr == n then [] else [l.elems[n]] + l.elems[l.curr + 1..n]
  }

  lemma RemoveShape<T>(l: Cursor<T>)
    requires !l.IsEnd()
    ensures l.Remove().elems == l.elems[..l.curr] + Ahead(l)
    ensures l.Remove().elems[l.curr..] == Ahead(l)
    ensures l.Remove().elems[..l.curr] == l.elems[..l.curr]
  {
  }

  lemma SwapTails<T>(a: seq<T>, b: seq<T>, c: seq<T>)
    ensures multiset(a + b + c) == multiset(a) + multiset(c + b)
  {
    assert multiset(c + b) == multiset(c) + multiset(b);
  }

  /** Both what lies at and ahead of the cursor and what a removal leaves there, cut in pieces. */
  lemma AheadShape<T>(l: Cursor<T>) returns (mid: seq<T>, last: seq<T>)
    requires !l.IsEnd()
    ensures l.elems[l.curr..] == [l.Current()] + mid + last && Ahead(l) == last + mid
  {
    var n := |l.elems| - 1;
    if l.curr == n {
      mid, last := [], [];
    } else {
      mid, last := l.elems[l.curr + 1..n], [l.elems[n]];
    }
  }

  lemma AheadSame<T>(l: Cursor<T>)
    requires !l.IsEnd()
    ensures multiset(l.elems[l.curr..]) == multiset([l.Current()]) + multiset(Ahead(l))
  {
    var mid, last := AheadShape(l);
    SwapTails([l.Current()], mid, last);
  }

  /**
    Removal takes exactly the current element out, leaves everything before the cursor
    alone, and keeps everything else that was still ahead of the cursor ahead of it.
  */
  lemma RemoveTakesCurrent<T>(l: Cursor<T>)
    requires !l.IsEnd()
    ensures |l.Remove().elems| == |l.elems| - 1 && l.Remove().curr == l.curr
    ensures l.Remove().elems[..l.curr] == l.elems[..l.curr]
    ensures multiset(l.elems[l.curr..]) == multiset{l.Current()} + multiset(l.Remove().elems[l.curr..])
    ensures multiset(l.elems) == multiset{l.Current()} + multiset(l.Remove().elems)
  {
    RemoveShape(l);
    AheadSame(l);
    assert l.elems == l.elems[..l.curr] + l.elems[l.curr..];
  }

  ghost predicate NoDup<T>(xs: seq<T>) {
    forall i, j | 0 <= i < j < |xs| :: xs[i] != xs[j]
  }

  /** In a list without repetition, removal is set subtraction, also of what lies ahead. */
  lemma RemoveNoDup<T>(l: Cursor<T>)
    requires !l.IsEnd() && NoDup(l.elems)
    ensures NoDup(l.Remove().elems) && |l.Remove().elems| == |l.elems| - 1
    ensures l.Remove().elems[..l.curr] == l.elems[..l.curr]
    ensures forall x :: x in l.Remove().elems <==> x in l.elems && x != l.Current()
    ensures forall x :: x in l.Remove().elems[l.curr..] <==> x in l.elems[l.curr..] && x != l.Current()
  {
    var n := |l.elems| - 1;
    var es := l.Remove().elems;
    assert forall i | 0 <= i < n :: es[i] == if i == l.curr then l.elems[n] else l.elems[i];
    forall x | x in l.elems[l.curr..] && x != l.Current() ensures x in es[l.curr..] {
      var k :| l.curr < k < |l.elems| && l.elems[k] == x;
      assert es[l.curr..][if k == n then 0 else k - l.curr] == x;
    }
    forall x | x in es[l.curr..] ensures x in l.elems[l.curr..] && x != l.Current() {
      var k :| 0 <= k < n - l.curr && es[l.curr..][k] == x;
      assert x == l.elems[if k == 0 then n else k + l.curr];
    }
    forall x ensures x in es <==> x in l.elems && x != l.Current() {
      assert es == es[..l.curr] + es[l.curr..] && l.elems == l.elems[..l.curr] + l.elems[l.curr..];
    }
  }

  class CursorList<T(0)> {
    var elems: array<T>
    var capacity: nat
    var size: nat
    var curr: nat

    ghost predicate Valid()
      reads this
    {
      size <= elems.Length
    }

    ghost function Value(): Cursor<T>
      reads this, elems
      requires Valid()
    {
      Cursor(elems[..size], curr)
    }

    /** list_new: the capacity recorded is 8, the slots allocated are 6. */
    constructor ()
      ensures Valid() && fresh(elems) && Value() == Cursor([], 0)
      ensures capacity == 8 && elems.Length == LIST_SLOTS
    {
      capacity := 8;
      elems := new T[LIST_SLOTS];
      size, curr := 0, 0;
    }

    method ListIsEnd() returns (end: bool)
      requires Valid()
      ensures end == Value().IsEnd() && (end <==> curr >= size)
    {
      end := curr >= size;
    }

    method ListIsEmpty() returns (empty: bool)
      requires Valid()
      ensures empty == Value().IsEmpty() && (empty <==> size == 0)
    {
      empty := size == 0;
    }

    /** The source returns a null pointer past the end; here that is `found == false`. */
    method ListCurrent() returns (found: bool, x: T)
      requires Valid()
      ensures found == !Value().IsEnd()
      ensures found ==> x == Value().Current() && curr < size <= elems.Length && x == elems[curr]
    {
      found := curr < size;
      if found {
        x := elems[curr];
      } else {
        x := *;
      }
    }

    method ListNext()
      requires Valid()
      modifies `curr
      ensures Valid() && Value() == old(Value()).Next() && curr == old(curr) + 1
    {
      curr := curr + 1;
    }

    method ListRewind()
      requires Valid()
      modifies `curr
      ensures Valid() && Value() == old(Value()).Rewind() && curr == 0
    {
      curr := 0;
    }

    /** Nothing checks for room: a full list is the caller's problem. */
    method ListPushBack(x: T)
      requires Valid() && size < elems.Length
      modifies `size, elems
      ensures Valid() && elems.Length == old(elems.Length) && Value() == old(Value()).PushBack(x)
      ensures elems[..size] == old(elems[..size]) + [x] && curr == old(curr)
    {
      elems[size] := x;
      size := size + 1;
    }

    method ListRemove()
      requires Valid()
      modifies `size, elems
      ensures Valid() && Value() == old(Value()).Remove() && curr == old(curr)
      ensures curr >= old(size) ==> elems[..size] == old(elems[..size])
      ensures curr < old(size) ==>
        && size == old(size) - 1 && elems.Length == old(elems.Length)
        && forall k | 0 <= k < size :: elems[k] == old(elems[if k == curr then size - 1 else k])
    {
      if curr >= size {
        return;
      }
      var tmp := elems[size - 1];
      elems[size - 1] := elems[curr];
      elems[curr] := tmp;
      size := size - 1;
    }
  }
}
