/**
  Fairness of schedule (sched.c) while the set of threads stays fixed and all of them run.
  The threads of all tasks, one task after the other, make one long list; the two
  cursors together are a position in it, and every call moves on by one.
*/
module RoundRobin {
  import opened Lists
  import opened Turns

  /** The threads of the tasks `ts`, in order. */
  ghost function Flat(ts: seq<nat>, lists: ThreadLists): seq<nat>
    requires forall t | t in ts :: t in lists
  {
    if ts == [] then [] else Flat(ts[..|ts| - 1], lists) + lists[ts[|ts| - 1]].elems
  }

  ghost function All(p: Place): seq<nat>
    requires p.Ok()
  {
    Flat(p.tasks.elems, p.lists)
  }

  lemma {:induction false} FlatSame(ts: seq<nat>, lists: ThreadLists, lists': ThreadLists)
    requires forall t | t in ts :: t in lists && t in lists' && lists[t].elems == lists'[t].elems
    ensures Flat(ts, lists) == Flat(ts, lists')
  {
    if ts != [] {
      FlatSame(ts[..|ts| - 1], lists, lists');
    }
  }

  /** The threads of task `i` come right after those of the tasks before it. */
  lemma {:induction false} FlatAt(ts: seq<nat>, lists: ThreadLists, i: nat)
    requires i < |ts| && forall t | t in ts :: t in lists
    ensures var before := Flat(ts[..i], lists);
      && Flat(ts[..i + 1], lists) == before + lists[ts[i]].elems
      && Flat(ts[..i + 1], lists) <= Flat(ts, lists)
  {
    assert ts[..i + 1][..i] == ts[..i];
    if i == |ts| - 1 {
      assert ts[..i + 1] == ts;
    } else {
      var init := ts[..|ts| - 1];
      assert init[..i] == ts[..i] && init[..i + 1] == ts[..i + 1];
      FlatAt(init, lists, i);
    }
  }

  lemma {:induction false} FlatMembers(ts: seq<nat>, lists: ThreadLists)
    requires forall t | t in ts :: t in lists
    ensures forall x :: x in Flat(ts, lists) <==> exists t :: t in ts && x in lists[t].elems
  {
    if ts != [] {
      var init, last := ts[..|ts| - 1], ts[|ts| - 1];
      FlatMembers(init, lists);
      assert ts == init + [last];
    }
  }

  lemma Disjoined(xs: seq<nat>, ys: seq<nat>)
    requires NoDup(xs) && NoDup(ys) && forall x | x in xs :: x !in ys
    ensures NoDup(xs + ys)
  {
    forall i, j | 0 <= i < j < |xs + ys| ensures (xs + ys)[i] != (xs + ys)[j] {
      if i < |xs| <= j {
        assert xs[i] in xs && ys[j - |xs|] in ys;
      }
    }
  }

  lemma {:induction false} FlatNoDup(ts: seq<nat>, lists: ThreadLists)
    requires NoDup(ts) && forall t | t in ts :: t in lists && NoDup(lists[t].elems)
    requires forall t, u, x | t in ts && u in ts && t != u && x in lists[t].elems :: x !in lists[u].elems
    ensures NoDup(Flat(ts, lists))
  {
    if ts != [] {
      var init, last := ts[..|ts| - 1], ts[|ts| - 1];
      FlatNoDup(init, lists);
      FlatMembers(init, lists);
      Disjoined(Flat(init, lists), lists[last].elems);
    }
  }

  /** The two cursors point into the long list of all threads. */
  ghost predicate Aligned(p: Place) {
    && p.Ok()
    && (if p.tasks.curr > 0 then p.tasks.elems[p.tasks.curr - 1] == p.threads
        else p.lists[p.threads].IsEnd() || p.tasks.elems == [p.threads])
  }

  /** How many threads of the long list lie behind the cursors. */
  ghost function Position(p: Place): nat
    requires Aligned(p)
  {
    if p.tasks.curr > 0 then |Flat(p.tasks.elems[..p.tasks.curr - 1], p.lists)| + p.lists[p.threads].curr
    else if p.tasks.elems == [p.threads] then p.lists[p.threads].curr
    else 0
  }

  function Wrap(k: nat, n: nat): (r: nat)
    ensures k < 2 * n ==> r < n
  {
    if k < n then k else k - n
  }

  lemma AdvanceOk(p: Place)
    requires p.Ok()
    ensures p.Advance().Ok() && p.Advance().tasks.elems == p.tasks.elems
    ensures forall t | t in p.lists :: t in p.Advance().lists && p.Advance().lists[t].elems == p.lists[t].elems
    ensures forall t | t in p.Advance().lists :: t in p.lists
    ensures All(p.Advance()) == All(p)
  {
    assert p.tasks.elems != [];
    FlatSame(p.tasks.elems, p.lists, p.Advance().lists);
  }

  lemma StepInside(p: Place)
    requires Aligned(p) && !p.lists[p.threads].IsEnd()
    ensures Position(p) < |All(p)| && p.Chosen() == All(p)[Position(p)]
    ensures Aligned(p.Advance()) && Position(p.Advance()) == Position(p) + 1
  {
    AdvanceOk(p);
    var es, q := p.tasks.elems, p.Advance();
    var i := if p.tasks.curr > 0 then p.tasks.curr - 1 else 0;
    FlatAt(es, p.lists, i);
    FlatSame(es[..i], p.lists, q.lists);
  }

  /** From the end of the last list the cursors go to the beginning of the first. */
  lemma StepRound(p: Place)
    requires Aligned(p) && p.lists[p.threads].IsEnd() && p.tasks.IsEnd()
    ensures 0 < |All(p)| == Position(p) && p.Chosen() == All(p)[0]
    ensures Aligned(p.Advance()) && Position(p.Advance()) == 1
  {
    AdvanceOk(p);
    var es := p.tasks.elems;
    assert es[..p.tasks.curr] == es && es[..0] == [];
    FlatAt(es, p.lists, 0);
    FlatAt(es, p.lists, p.tasks.curr - 1);
  }

  lemma StepAcross(p: Place)
    requires Aligned(p) && p.lists[p.threads].IsEnd() && 0 < p.tasks.curr < |p.tasks.elems|
    ensures Position(p) < |All(p)| && p.Chosen() == All(p)[Position(p)]
    ensures Aligned(p.Advance()) && Position(p.Advance()) == Position(p) + 1
  {
    AdvanceOk(p);
    var es, q, i := p.tasks.elems, p.Advance(), p.tasks.curr;
    FlatAt(es, p.lists, i - 1);
    FlatAt(es, p.lists, i);
    FlatSame(es[..i], p.lists, q.lists);
  }

  lemma StepFirst(p: Place)
    requires Aligned(p) && p.lists[p.threads].IsEnd() && p.tasks.curr == 0
    ensures 0 < |All(p)| && Position(p) in {0, |All(p)|} && p.Chosen() == All(p)[0]
    ensures Aligned(p.Advance()) && Position(p.Advance()) == 1
  {
    AdvanceOk(p);
    var es := p.tasks.elems;
    assert es[..0] == [];
    FlatAt(es, p.lists, 0);
    if es == [p.threads] {
      assert es[..1] == es;
    }
  }

  /** A call of schedule picks the thread at the cursors and moves on by one, round and round. */
  lemma AdvanceMoves(p: Place)
    requires Aligned(p)
    ensures 0 < |All(p)| && Position(p) <= |All(p)|
    ensures p.Chosen() == All(p)[Wrap(Position(p), |All(p)|)]
    ensures Aligned(p.Advance()) && All(p.Advance()) == All(p)
    ensures Position(p.Advance()) == Wrap(Position(p), |All(p)|) + 1
  {
    hide Flat;
    AdvanceOk(p);
    if p.lists[p.threads].IsEnd() {
      if p.tasks.curr == 0 {
        StepFirst(p);
      } else if p.tasks.IsEnd() {
        StepRound(p);
      } else {
        StepAcross(p);
      }
    } else {
      StepInside(p);
    }
  }

  /** The threads picked by `n` calls of schedule. */
  ghost function Picks(p: Place, n: nat): seq<nat>
    requires p.Ok()
    decreases n
  {
    if n == 0 then []
    else
      AdvanceOk(p);
      [p.Chosen()] + Picks(p.Advance(), n - 1)
  }

  lemma {:induction false} PicksGoRound(p: Place, n: nat)
    requires Aligned(p) && n <= |All(p)|
    ensures |Picks(p, n)| == n && 0 < |All(p)| && Position(p) <= |All(p)|
    ensures forall k | 0 <= k < n :: Picks(p, n)[k] == All(p)[Wrap(Position(p) + k, |All(p)|)]
    decreases n
  {
    hide Flat, Position;
    AdvanceOk(p);
    AdvanceMoves(p);
    hide Aligned;
    if n > 0 {
      PicksGoRound(p.Advance(), n - 1);
    }
  }

  /** A sequence read from a place on, and round the end, is the sequence turned. */
  lemma Turned(xs: seq<nat>, at: nat, ys: seq<nat>)
    requires at <= |xs| == |ys| && forall k | 0 <= k < |xs| :: ys[k] == xs[Wrap(at + k, |xs|)]
    ensures multiset(ys) == multiset(xs)
  {
    assert ys == xs[at..] + xs[..at];
    assert xs == xs[..at] + xs[at..];
  }

  /** A whole round is the long list, turned. */
  lemma OneRound(p: Place)
    requires Aligned(p)
    ensures multiset(Picks(p, |All(p)|)) == multiset(All(p))
  {
    PicksGoRound(p, |All(p)|);
    Turned(All(p), Position(p), Picks(p, |All(p)|));
  }

  /** `p` with the list that is being gone through finished. */
  ghost function Finished(p: Place): Place
    requires p.Ok()
  {
    Place(p.tasks, p.lists[p.threads := p.lists[p.threads].(curr := |p.lists[p.threads].elems|)], p.threads)
  }

  lemma FinishedAdvance(p: Place)
    requires p.Ok() && !p.lists[p.threads].IsEnd()
    ensures p.Advance().Ok() && Finished(p.Advance()) == Finished(p) && p.Advance().threads == p.threads
    ensures p.threads in p.Advance().lists && p.Advance().lists[p.threads] == p.lists[p.threads].Next()
    ensures p.Chosen() == p.lists[p.threads].Current()
  {
    AdvanceOk(p);
  }

  lemma FinishedOk(p: Place)
    requires p.Ok()
    ensures p.threads in p.lists && p.lists[p.threads].curr <= |p.lists[p.threads].elems| && Finished(p).Ok()
    ensures p.lists[p.threads].IsEnd() ==> Finished(p) == p
  {
  }

  lemma {:induction false} RestOfList(p: Place, n: nat)
    requires p.Ok() && |p.lists[p.threads].elems| - p.lists[p.threads].curr <= n
    ensures |p.lists[p.threads].elems| >= p.lists[p.threads].curr && Finished(p).Ok()
    ensures var l := p.lists[p.threads];
      Picks(p, n) == l.elems[l.curr..] + Picks(Finished(p), n - (|l.elems| - l.curr))
    decreases n
  {
    hide Finished, Place.Ok, Place.Advance, Place.Chosen;
    FinishedOk(p);
    var l := p.lists[p.threads];
    if !l.IsEnd() {
      FinishedAdvance(p);
      RestOfList(p.Advance(), n - 1);
      assert l.elems[l.curr..] == [l.Current()] + l.elems[l.curr + 1..];
    }
  }

  /**
    Before the first round the cursor has not yet passed the first task.  If that task is
    not through with its list, it gets a second turn before any other task gets one.
  */
  lemma FirstTaskTwice(p: Place)
    requires p.Ok() && p.tasks.curr == 0 && p.tasks.elems[0] == p.threads && |p.tasks.elems| > 1
    requires !p.lists[p.threads].IsEnd()
    ensures var l := p.lists[p.threads];
      && |l.elems| < |All(p)| && |Picks(p, |All(p)|)| == |All(p)|
      && Picks(p, |All(p)|)[0] == l.Current() && Picks(p, |All(p)|)[|l.elems|] == l.Current()
  {
    hide Aligned, Position, Flat, All, Finished, Picks;
    var l, q, n := p.lists[p.threads], Finished(p), |All(p)|;
    FirstListShorter(p);
    RestOfList(p, n);
    FinishedStarts(p);
    var rest := n - (|l.elems| - l.curr);
    PicksGoRound(q, rest);
    assert Picks(q, rest)[l.curr] == All(q)[l.curr];
  }

  lemma FinishedStarts(p: Place)
    requires p.Ok() && p.tasks.curr == 0 && p.tasks.elems[0] == p.threads && |p.tasks.elems| > 1
    ensures var q := Finished(p); Aligned(q) && Position(q) == 0 && All(q) == All(p)
  {
    FlatSame(p.tasks.elems, p.lists, Finished(p).lists);
  }

  lemma FirstListShorter(p: Place)
    requires p.Ok() && p.tasks.elems[0] == p.threads && |p.tasks.elems| > 1
    ensures p.lists[p.threads].elems < All(p)
  {
    var es := p.tasks.elems;
    assert es[..0] == [];
    FlatAt(es, p.lists, 0);
    FlatAt(es, p.lists, 1);
  }

  lemma NotFirstTime(p: Place)
    requires p.Ok() && !Aligned(p) && Behind(p.tasks, p.threads)
    ensures |Picks(p, |All(p)|)| == |All(p)| && !NoDup(Picks(p, |All(p)|))
  {
    FirstTaskTwice(p);
  }

  // ------------------------------------------------------------ over runs of schedule

  /** Calls of schedule one after the other; between two calls nothing else happens to the lists. */
  ghost predicate Calls(ps: seq<Place>, states: seq<States>, picks: seq<nat>) {
    && |ps| == |states| == |picks| + 1
    && forall i | 0 <= i < |picks| :: Stepped(ps[i], states[i], ps[i + 1], states[i + 1], picks[i])
  }

  lemma {:induction false} CallsPick(ps: seq<Place>, states: seq<States>, picks: seq<nat>)
    requires Calls(ps, states, picks) && ps[0].Ok() && Steady(ps[0].lists, states[0])
    ensures picks == Picks(ps[0], |picks|)
    decreases |picks|
  {
    if picks != [] {
      assert Stepped(ps[0], states[0], ps[1], states[1], picks[0]);
      AdvanceOk(ps[0]);
      CallsPick(ps[1..], states[1..], picks[1..]);
    }
  }

  /** In the picks every listed thread occurs exactly once, and nothing else does. */
  ghost predicate EachOnce(picks: seq<nat>, lists: ThreadLists) {
    && NoDup(picks)
    && forall x :: x in picks <==> exists t :: t in lists && x in lists[t].elems
  }

  /**
    With N running threads and no others, N consecutive calls of schedule pick every thread
    exactly once -- if and only if the scheduler is not still inside the very first list.
  */
  lemma RoundRobin(ps: seq<Place>, states: seq<States>, picks: seq<nat>, dirs: Dirs)
    requires Calls(ps, states, picks) && ps[0].Ok() && Steady(ps[0].lists, states[0])
    requires Listed(ps[0].tasks, ps[0].lists, states[0], dirs) && Behind(ps[0].tasks, ps[0].threads)
    requires |picks| == |All(ps[0])|
    ensures EachOnce(picks, ps[0].lists) <==> Aligned(ps[0])
  {
    var p := ps[0];
    CallsPick(ps, states, picks);
    ListedFlat(p, states[0], dirs);
    if Aligned(p) {
      OneRound(p);
      SameOnce(picks, All(p));
    } else {
      NotFirstTime(p);
    }
  }

  lemma ListedFlat(p: Place, state: States, dirs: Dirs)
    requires p.Ok() && Listed(p.tasks, p.lists, state, dirs)
    ensures NoDup(All(p))
    ensures forall x :: x in All(p) <==> exists t :: t in p.lists && x in p.lists[t].elems
  {
    FlatMembers(p.tasks.elems, p.lists);
    FlatNoDup(p.tasks.elems, p.lists);
  }

  lemma {:induction false} CountOnce(xs: seq<nat>, x: nat)
    requires multiset(xs)[x] > 1
    ensures !NoDup(xs)
  {
    var i :| 0 <= i < |xs| && xs[i] == x;
    assert xs == xs[..i] + [x] + xs[i + 1..];
    if x in xs[..i] {
      var j :| 0 <= j < i && xs[j] == x;
    } else {
      assert x in xs[i + 1..];
      var j :| i < j < |xs| && xs[j] == x;
    }
  }

  lemma {:induction false} NoDupCount(xs: seq<nat>)
    requires forall x :: multiset(xs)[x] <= 1
    ensures NoDup(xs)
  {
    forall i, j | 0 <= i < j < |xs| ensures xs[i] != xs[j] {
      assert xs == xs[..i] + [xs[i]] + xs[i + 1..j] + [xs[j]] + xs[j + 1..];
      assert multiset(xs)[xs[i]] <= 1;
    }
  }

  lemma SameOnce(xs: seq<nat>, ys: seq<nat>)
    requires multiset(xs) == multiset(ys) && NoDup(ys)
    ensures NoDup(xs) && forall x :: x in xs <==> x in ys
  {
    forall x ensures multiset(xs)[x] <= 1 {
      if multiset(xs)[x] > 1 {
        CountOnce(ys, x);
      }
    }
    NoDupCount(xs);
    forall x ensures x in xs <==> x in ys {
      assert x in multiset(xs) <==> x in multiset(ys);
    }
  }
}
