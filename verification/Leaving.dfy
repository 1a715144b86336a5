/**
  Whether schedule destroys the record of the thread it leaves.  switch_context stores the
  registers of that thread into its record (task.s:8-19), and the loops may have given the
  record back to the heap before: when the running thread is on its way out and the walk
  comes round to its task again.
*/
module Leaving {
  import opened Basics
  import opened Lists
  import opened Turns

  /** The task cursor and the thread cursor stand just behind the running task and thread. */
  ghost predicate Ready(s: Config) {
    && Listed(s.tasks, s.lists, s.state, s.dirs) && Behind(s.tasks, s.threads)
    && s.threads in s.lists && 0 < s.lists[s.threads].curr <= |s.lists[s.threads].elems|
  }

  /** The thread that runs when schedule is called. */
  ghost function Runner(s: Config): nat
    requires Ready(s)
  {
    s.lists[s.threads].elems[s.lists[s.threads].curr - 1]
  }

  ghost predicate AllDying(s: Config, t: nat) {
    t in s.lists ==> forall y | y in s.lists[t].elems :: y in s.state && s.state[y] == Dying
  }

  ghost predicate HasThreads(s: Config, t: nat) {
    t in s.lists && s.lists[t].elems != []
  }

  /**
    The task at index `i` comes up before the running task does again: those behind the task
    cursor, then those from the start up to the first without threads.  Removing that one
    brings the running task to its place.
  */
  ghost predicate ComesFirst(s: Config, i: nat) {
    && s.tasks.curr > 0 && i < |s.tasks.elems|
    && (s.tasks.curr <= i || (i < s.tasks.curr - 1 && forall j | 0 <= j <= i :: HasThreads(s, s.tasks.elems[j])))
  }

  /** The walk comes back to the running task: nothing that comes up before has a thread left to stop at. */
  ghost predicate Revisits(s: Config) {
    forall i | 0 <= i < |s.tasks.elems| && ComesFirst(s, i) :: AllDying(s, s.tasks.elems[i])
  }

  /** The threads of the running task that have not had their turn in this round are dying. */
  ghost predicate RestDying(s: Config)
    requires Ready(s)
  {
    var l := s.lists[s.threads];
    forall j | l.curr <= j < |l.elems| :: l.elems[j] in s.state && s.state[l.elems[j]] == Dying
  }

  /**
    The running thread is dying, and so is everything the walk meets before it, the first
    thread of the running task included.
  */
  ghost predicate LosesRecord(s: Config)
    requires Ready(s)
  {
    var l := s.lists[s.threads];
    && Runner(s) in s.state && s.state[Runner(s)] == Dying
    && l.elems[0] in s.state && s.state[l.elems[0]] == Dying
    && RestDying(s) && Revisits(s)
  }

  // ------------------------------------------------------------ on the way

  /** What every turn leaves of the lists and the states there were. */
  ghost predicate Within(s: Config, c: Config) {
    && NoDup(c.tasks.elems) && (forall t | t in c.tasks.elems :: t in c.lists)
    && (forall t | t in c.lists :: t in s.lists && forall y | y in c.lists[t].elems :: y in s.lists[t].elems)
    && (forall y | y in c.state :: y in s.state && c.state[y] == s.state[y])
  }

  /** The threads of the running task that have had their turn. */
  ghost function Past(s: Config): seq<nat>
    requires Ready(s)
  {
    s.lists[s.threads].elems[..s.lists[s.threads].curr]
  }

  /** The walk is elsewhere; the running task waits for its next turn with the threads it had. */
  ghost predicate Away(s: Config, c: Config)
    requires Ready(s)
  {
    && Within(s, c) && RestDying(s)
    && s.threads in c.lists && c.lists[s.threads] == Cursor(Past(s), 0)
    && Runner(s) in c.state
  }

  ghost predicate Fresh(s: Config, c: Config, v: nat) {
    v in c.lists && v in s.lists && c.lists[v].elems == s.lists[v].elems
  }

  ghost predicate Done(s: Config, c: Config, v: nat) {
    AllDying(s, v) && (v in c.lists ==> c.lists[v].elems == [])
  }

  /** One of the tasks behind the task cursor. */
  ghost predicate Late(s: Config, v: nat) {
    exists i :: s.tasks.curr <= i < |s.tasks.elems| && s.tasks.elems[i] == v
  }

  ghost predicate AheadIn(c: Config, v: nat) {
    exists j :: c.tasks.curr <= j < |c.tasks.elems| && c.tasks.elems[j] == v
  }

  ghost predicate Handled(s: Config, c: Config, u: nat, v: nat) {
    v == u || Done(s, c, v) || AheadIn(c, v)
  }

  ghost predicate Tried(s: Config, c: Config, u: nat, v: nat) {
    HasThreads(s, v) && (v == u || Done(s, c, v))
  }

  /** The tasks up to the running one are where they were, the others are some of those behind it. */
  ghost predicate SameFront(s: Config, c: Config) {
    var tc := s.tasks.curr;
    && 0 < tc <= |s.tasks.elems| && tc <= |c.tasks.elems| && c.tasks.curr <= |c.tasks.elems|
    && (forall j | 0 <= j < tc :: c.tasks.elems[j] == s.tasks.elems[j])
    && (forall j | tc <= j < |c.tasks.elems| :: Late(s, c.tasks.elems[j]))
  }

  /** The tasks behind the task cursor are being gone through, `u` at the moment. */
  ghost predicate FirstLap(s: Config, c: Config, u: nat)
    requires Ready(s)
  {
    var tc := s.tasks.curr;
    && Away(s, c) && SameFront(s, c) && tc <= c.tasks.curr
    && (forall i | tc <= i < |s.tasks.elems| :: Handled(s, c, u, s.tasks.elems[i]))
    && (forall j | c.tasks.curr <= j < |c.tasks.elems| :: Fresh(s, c, c.tasks.elems[j]))
    && (forall j | 0 <= j < tc - 1 :: Fresh(s, c, s.tasks.elems[j]))
  }

  /** The tasks before the running one are being gone through, `u` at the moment. */
  ghost predicate SecondLap(s: Config, c: Config, u: nat)
    requires Ready(s)
  {
    var tc := s.tasks.curr;
    && Away(s, c) && SameFront(s, c) && c.tasks.curr < tc
    && (forall i | tc <= i < |s.tasks.elems| :: Done(s, c, s.tasks.elems[i]))
    && (forall j | 0 <= j < c.tasks.curr :: Tried(s, c, u, s.tasks.elems[j]))
    && (forall j | c.tasks.curr <= j < tc - 1 :: Fresh(s, c, s.tasks.elems[j]))
  }

  /** Task `u` comes up before the running task does again. */
  ghost predicate Early(s: Config, u: nat) {
    exists i :: 0 <= i < |s.tasks.elems| && ComesFirst(s, i) && s.tasks.elems[i] == u
  }

  lemma NotEarly(s: Config)
    requires Ready(s)
    ensures !Early(s, s.threads)
    ensures s.tasks.curr > 0 ==> s.tasks.elems[s.tasks.curr - 1] == s.threads
    ensures NoDup(s.tasks.elems) && s.tasks.curr <= |s.tasks.elems|
  {
  }

  lemma EarlyAt(s: Config, i: nat)
    requires i < |s.tasks.elems| && ComesFirst(s, i)
    ensures Early(s, s.tasks.elems[i])
  {
  }

  // ------------------------------------------------------------ choosing a task

  /** What the choice of the next task comes to. */
  ghost predicate Comes(s: Config, d: Config)
    requires Ready(s)
  {
    if d.threads == s.threads then Revisits(s) && Away(s, d)
    else Early(s, d.threads) && Fresh(s, d, d.threads) && (FirstLap(s, d, d.threads) || SecondLap(s, d, d.threads))
  }

  /** A place among the tasks has been filled from the end: only tasks without threads are left to skip. */
  ghost predicate Gap(s: Config, c: Config)
    requires Ready(s)
  {
    && Away(s, c) && !c.tasks.IsEnd()
    && (c.tasks.Current() == s.threads
        || (c.lists[c.tasks.Current()].elems == []
            && c.tasks.curr < s.tasks.curr - 1 < |c.tasks.elems| && c.tasks.elems[s.tasks.curr - 1] == s.threads
            && forall j | s.tasks.curr <= j < |c.tasks.elems| :: c.lists[c.tasks.elems[j]].elems == []))
  }

  ghost function Dropped(c: Config, t: nat): Config {
    c.(tasks := c.tasks.Remove(), lists := c.lists - {t}, dirs := c.dirs - {t})
  }

  /** Removing a task without threads takes nothing else away. */
  lemma DropAway(s: Config, c: Config)
    requires Ready(s) && Away(s, c) && !c.tasks.IsEnd() && c.lists[c.tasks.Current()].elems == []
    ensures Away(s, Dropped(c, c.tasks.Current())) && c.tasks.Current() != s.threads
    ensures forall v :: v in Dropped(c, c.tasks.Current()).lists <==> v in c.lists && v != c.tasks.Current()
  {
    RemoveNoDup(c.tasks);
  }

  lemma DropGap(s: Config, c: Config)
    requires Ready(s) && Gap(s, c) && c.tasks.Current() != s.threads
    ensures Gap(s, Dropped(c, c.tasks.Current()))
  {
    hide Listed;
    DropAway(s, c);
    var n, k := |c.tasks.elems| - 1, c.tasks.curr;
    var es := c.tasks.Remove().elems;
    assert forall i | 0 <= i < n :: es[i] == if i == k then c.tasks.elems[n] else c.tasks.elems[i];
  }

  lemma {:induction false} GapPicks(s: Config, c: Config, kernel: nat)
    requires Ready(s) && Gap(s, c) && PickNext(c, kernel).Some?
    ensures PickNext(c, kernel).value.threads == s.threads && Away(s, PickNext(c, kernel).value)
    decreases |c.tasks.elems|
  {
    hide Listed;
    var t := c.tasks.Current();
    if t != s.threads {
      DropGap(s, c);
      GapPicks(s, Dropped(c, t), kernel);
    }
  }

  lemma AwaySame(s: Config, c: Config, k: nat, u: nat)
    requires Ready(s) && Away(s, c)
    ensures Away(s, c.(tasks := c.tasks.(curr := k), threads := u))
  {
    hide Ready;
  }

  /** A task before the running one, with threads like all before it, comes up early. */
  lemma EarlyBefore(s: Config, c: Config)
    requires Ready(s) && SecondLap(s, c, s.threads) && c.tasks.curr < s.tasks.curr - 1
    requires HasThreads(s, s.tasks.elems[c.tasks.curr])
    ensures Early(s, s.tasks.elems[c.tasks.curr]) && s.tasks.elems[c.tasks.curr] != s.threads
  {
    hide Ready, Away, Done, Fresh, HasThreads, SameFront, Early;
    NotEarly(s);
    var k := c.tasks.curr;
    forall j | 0 <= j <= k ensures HasThreads(s, s.tasks.elems[j]) {
      assert j < k ==> Tried(s, c, s.threads, s.tasks.elems[j]);
    }
    EarlyAt(s, k);
  }

  /** Where a configuration stands does not matter to what has been done. */
  lemma SameLists(s: Config, c: Config, d: Config)
    requires d.lists == c.lists
    ensures forall v :: Done(s, c, v) <==> Done(s, d, v)
    ensures forall v :: Fresh(s, c, v) <==> Fresh(s, d, v)
  {
  }

  /** Taking it goes on with the second lap. */
  lemma LapOn(s: Config, c: Config)
    requires Ready(s) && SecondLap(s, c, s.threads) && c.tasks.curr < s.tasks.curr - 1
    requires HasThreads(s, s.tasks.elems[c.tasks.curr])
    ensures var t := s.tasks.elems[c.tasks.curr];
      Fresh(s, c, t) && SecondLap(s, c.(tasks := c.tasks.Next(), threads := t), t)
  {
    hide Away, Done, Fresh, HasThreads, Late, Ready;
    NotEarly(s);
    var t := s.tasks.elems[c.tasks.curr];
    var d := c.(tasks := c.tasks.Next(), threads := t);
    AwaySame(s, c, c.tasks.curr + 1, t);
    SameLists(s, c, d);
    forall j | 0 <= j < d.tasks.curr ensures Tried(s, d, t, s.tasks.elems[j]) {
      assert j < c.tasks.curr ==> Tried(s, c, s.threads, s.tasks.elems[j]);
      assert s.tasks.elems[j] != s.threads;
    }
  }

  /** When the cursor reaches the running task, or a task without threads, all before it has been gone through. */
  lemma LapEnds(s: Config, c: Config)
    requires Ready(s) && SecondLap(s, c, s.threads)
    requires c.tasks.curr == s.tasks.curr - 1 || !HasThreads(s, s.tasks.elems[c.tasks.curr])
    ensures Revisits(s)
  {
    hide Away, Fresh, HasThreads, SameFront, AllDying, Ready;
    NotEarly(s);
    forall i | 0 <= i < |s.tasks.elems| && ComesFirst(s, i) ensures AllDying(s, s.tasks.elems[i]) {
      if i < s.tasks.curr {
        assert i < c.tasks.curr;
        assert Tried(s, c, s.threads, s.tasks.elems[i]);
        assert s.tasks.elems[i] != s.threads;
      }
      assert Done(s, c, s.tasks.elems[i]);
    }
  }

  lemma LateIsOther(s: Config, v: nat)
    requires Ready(s) && Late(s, v) && s.tasks.curr > 0
    ensures v != s.threads && Early(s, v)
  {
    hide Ready;
    NotEarly(s);
    var i :| s.tasks.curr <= i < |s.tasks.elems| && s.tasks.elems[i] == v;
    assert ComesFirst(s, i);
  }

  /** What is left at the end of the list of tasks has been gone through. */
  lemma LapGap(s: Config, c: Config)
    requires Ready(s) && SecondLap(s, c, s.threads) && c.tasks.curr < s.tasks.curr - 1
    requires !HasThreads(s, s.tasks.elems[c.tasks.curr])
    ensures Gap(s, c)
  {
    hide Ready, Tried;
    NotEarly(s);
    AwayWithin(s, c);
    hide Away;
    assert Fresh(s, c, s.tasks.elems[c.tasks.curr]);
    forall j | s.tasks.curr <= j < |c.tasks.elems|
      ensures c.tasks.elems[j] in c.lists && c.lists[c.tasks.elems[j]].elems == []
    {
      assert Late(s, c.tasks.elems[j]);
      var i :| s.tasks.curr <= i < |s.tasks.elems| && s.tasks.elems[i] == c.tasks.elems[j];
      assert Done(s, c, s.tasks.elems[i]);
    }
  }

  lemma AwayWithin(s: Config, c: Config)
    requires Ready(s) && Away(s, c)
    ensures NoDup(c.tasks.elems) && forall j | 0 <= j < |c.tasks.elems| :: c.tasks.elems[j] in c.lists
    ensures s.threads in c.lists && c.lists[s.threads] == Cursor(Past(s), 0) && Past(s) != []
  {
  }

  lemma SecondLapPicks(s: Config, c: Config, kernel: nat)
    requires Ready(s) && SecondLap(s, c, s.threads) && PickNext(c, kernel).Some?
    ensures Comes(s, PickNext(c, kernel).value)
  {
    hide Away, Ready, Done, Tried, Late, Revisits, Early, FirstLap, PickNext;
    NotEarly(s);
    AwayWithin(s, c);
    PickTurn(c, kernel);
    var t, k := s.tasks.elems[c.tasks.curr], c.tasks.curr;
    assert c.tasks.Current() == t;
    if k == s.tasks.curr - 1 {
      LapEnds(s, c);
      AwaySame(s, c, k + 1, t);
      InPick(c, kernel);
    } else if HasThreads(s, t) {
      EarlyBefore(s, c);
      LapOn(s, c);
      InPick(c, kernel);
      SameLists(s, c, c.(tasks := c.tasks.Next(), threads := t));
    } else {
      LapEnds(s, c);
      LapGap(s, c);
      GapPicks(s, c, kernel);
    }
  }

  lemma InPick(c: Config, kernel: nat)
    requires PickNext(c, kernel).Some? && !c.tasks.IsEnd()
    ensures c.tasks.Current() in c.lists && c.tasks.Current() in c.dirs
  {
  }

  /** At the end of the list of tasks the cursor goes back to the start. */
  lemma LapWraps(s: Config, c: Config)
    requires Ready(s) && FirstLap(s, c, s.threads) && c.tasks.IsEnd()
    ensures SecondLap(s, c.(tasks := c.tasks.Rewind()), s.threads)
    ensures forall kernel :: PickNext(c.(tasks := c.tasks.Rewind()), kernel) == PickNext(c, kernel)
  {
    hide Away, Ready, Late;
    NotEarly(s);
    var d := c.(tasks := c.tasks.Rewind());
    AwaySame(s, c, 0, c.threads);
    SameLists(s, c, d);
    hide Done, Fresh, Tried;
    forall i | s.tasks.curr <= i < |s.tasks.elems| ensures Done(s, d, s.tasks.elems[i]) {
      assert Handled(s, c, s.threads, s.tasks.elems[i]);
      assert s.tasks.elems[i] != s.threads;
    }
  }

  /** Taking a task of the first lap goes on with it. */
  lemma FirstOn(s: Config, c: Config)
    requires Ready(s) && FirstLap(s, c, s.threads) && !c.tasks.IsEnd()
    ensures var t := c.tasks.Current();
      Late(s, t) && Fresh(s, c, t) && FirstLap(s, c.(tasks := c.tasks.Next(), threads := t), t)
  {
    hide Away, Ready, Late, Done, Fresh;
    NotEarly(s);
    var t := c.tasks.Current();
    var d := c.(tasks := c.tasks.Next(), threads := t);
    AwaySame(s, c, c.tasks.curr + 1, t);
    SameLists(s, c, d);
    forall i | s.tasks.curr <= i < |s.tasks.elems| ensures Handled(s, d, t, s.tasks.elems[i]) {
      assert Handled(s, c, s.threads, s.tasks.elems[i]);
      assert s.tasks.elems[i] != s.threads;
    }
  }

  lemma FreshDropped(s: Config, c: Config, t: nat, v: nat)
    ensures Fresh(s, c, v) && v != t ==> Fresh(s, Dropped(c, t), v)
    ensures Done(s, c, v) ==> Done(s, Dropped(c, t), v)
    ensures Fresh(s, c, t) && c.lists[t].elems == [] ==> Done(s, Dropped(c, t), t)
  {
  }

  lemma AheadDropped(c: Config, v: nat)
    requires NoDup(c.tasks.elems) && !c.tasks.IsEnd() && AheadIn(c, v) && v != c.tasks.Current()
    ensures AheadIn(Dropped(c, c.tasks.Current()), v)
  {
    hide NoDup;
    var j :| c.tasks.curr <= j < |c.tasks.elems| && c.tasks.elems[j] == v;
    var n, k := |c.tasks.elems| - 1, c.tasks.curr;
    assert c.tasks.Remove().elems[if j == n then k else j] == v;
  }

  /** Dropping a task without threads as well. */
  lemma FirstDrops(s: Config, c: Config)
    requires Ready(s) && FirstLap(s, c, s.threads) && !c.tasks.IsEnd() && Fresh(s, c, c.tasks.Current())
    requires c.lists[c.tasks.Current()].elems == []
    ensures FirstLap(s, Dropped(c, c.tasks.Current()), s.threads)
  {
    hide Away, Ready, Late, Done, Fresh;
    NotEarly(s);
    AwayWithin(s, c);
    DropAway(s, c);
    var t := c.tasks.Current();
    var d := Dropped(c, t);
    var n, k := |c.tasks.elems| - 1, c.tasks.curr;
    assert forall i | 0 <= i < n :: d.tasks.elems[i] == if i == k then c.tasks.elems[n] else c.tasks.elems[i];
    DropFresh(s, c);
    DropHandled(s, c);
  }

  lemma DropFresh(s: Config, c: Config)
    requires Ready(s) && FirstLap(s, c, s.threads) && !c.tasks.IsEnd() && NoDup(c.tasks.elems)
    ensures var d := Dropped(c, c.tasks.Current());
      && (forall j | d.tasks.curr <= j < |d.tasks.elems| :: Fresh(s, d, d.tasks.elems[j]))
      && (forall j | 0 <= j < s.tasks.curr - 1 :: Fresh(s, d, s.tasks.elems[j]))
  {
    hide Away, Ready, Late, Done, Fresh, Handled;
    var t := c.tasks.Current();
    var d := Dropped(c, t);
    var n, k := |c.tasks.elems| - 1, c.tasks.curr;
    forall j | k <= j < |d.tasks.elems| ensures Fresh(s, d, d.tasks.elems[j]) {
      var v := if j == k then c.tasks.elems[n] else c.tasks.elems[j];
      assert d.tasks.elems[j] == v && v != t;
      FreshDropped(s, c, t, v);
    }
    forall j | 0 <= j < s.tasks.curr - 1 ensures Fresh(s, d, s.tasks.elems[j]) {
      assert c.tasks.elems[j] == s.tasks.elems[j] != t;
      FreshDropped(s, c, t, s.tasks.elems[j]);
    }
  }

  lemma DropHandled(s: Config, c: Config)
    requires Ready(s) && FirstLap(s, c, s.threads) && !c.tasks.IsEnd() && NoDup(c.tasks.elems)
    requires Fresh(s, c, c.tasks.Current()) && c.lists[c.tasks.Current()].elems == []
    ensures forall i | s.tasks.curr <= i < |s.tasks.elems| ::
      Handled(s, Dropped(c, c.tasks.Current()), s.threads, s.tasks.elems[i])
  {
    hide Away, Ready, Late, Done, AheadIn;
    var t := c.tasks.Current();
    forall i | s.tasks.curr <= i < |s.tasks.elems| ensures Handled(s, Dropped(c, t), s.threads, s.tasks.elems[i]) {
      var v := s.tasks.elems[i];
      assert Handled(s, c, s.threads, v);
      FreshDropped(s, c, t, v);
      if AheadIn(c, v) && v != t {
        AheadDropped(c, v);
      }
    }
  }

  lemma {:induction false} FirstLapPicks(s: Config, c: Config, kernel: nat)
    requires Ready(s) && FirstLap(s, c, s.threads) && PickNext(c, kernel).Some?
    ensures Comes(s, PickNext(c, kernel).value)
    decreases |c.tasks.elems|
  {
    hide Away, Ready, Done, Late, Early, FirstLap, SecondLap, PickNext, Revisits;
    if c.tasks.IsEnd() {
      LapWraps(s, c);
      SecondLapPicks(s, c.(tasks := c.tasks.Rewind()), kernel);
    } else {
      InPick(c, kernel);
      PickTurn(c, kernel);
      FirstOn(s, c);
      var t := c.tasks.Current();
      if c.lists[t].elems != [] {
        FirstShape(s, c);
        LateIsOther(s, t);
        SameLists(s, c, c.(tasks := c.tasks.Next(), threads := t));
      } else {
        FirstDrops(s, c);
        DroppedFewer(c);
        FirstLapPicks(s, Dropped(c, t), kernel);
      }
    }
  }

  lemma FirstShape(s: Config, c: Config)
    requires Ready(s) && FirstLap(s, c, s.threads)
    ensures s.tasks.curr > 0
  {
  }

  lemma DroppedFewer(c: Config)
    requires !c.tasks.IsEnd()
    ensures |Dropped(c, c.tasks.Current()).tasks.elems| < |c.tasks.elems|
  {
  }

  // ------------------------------------------------------------ from turn to turn

  ghost predicate DyingIn(s: Config, y: nat) {
    y in s.state && s.state[y] == Dying
  }

  /** Every thread task `u` had is still in its list or was dying. */
  ghost predicate OnlyDyingGone(s: Config, c: Config, u: nat) {
    u in s.lists && u in c.lists && forall y | y in s.lists[u].elems :: y in c.lists[u].elems || DyingIn(s, y)
  }

  /** The rest of the running task's list is being gone through. */
  ghost predicate Tail(s: Config, c: Config)
    requires Ready(s)
  {
    && c.tasks == s.tasks && c.threads == s.threads && Within(s, c) && Runner(s) in c.state
    && (forall v | v in s.lists && v != s.threads :: v in c.lists && c.lists[v] == s.lists[v])
    && OnlyDyingGone(s, c, s.threads) && NoDup(c.lists[s.threads].elems)
    && var l := c.lists[s.threads];
       l.curr == s.lists[s.threads].curr <= |l.elems| && l.elems[..l.curr] == Past(s)
  }

  /** The threads of another task are. */
  ghost predicate Visiting(s: Config, c: Config)
    requires Ready(s)
  {
    && c.threads != s.threads && Early(s, c.threads) && OnlyDyingGone(s, c, c.threads)
    && c.lists[c.threads].curr == 0 && NoDup(c.lists[c.threads].elems)
    && 0 < c.tasks.curr <= |c.tasks.elems| && c.tasks.elems[c.tasks.curr - 1] == c.threads
    && (FirstLap(s, c, c.threads) || SecondLap(s, c, c.threads))
  }

  /** The walk has come back: to the first thread of the running task, or, that being gone, to the running thread. */
  ghost predicate AtHome(s: Config, c: Config)
    requires Ready(s)
  {
    && c.threads == s.threads && c.threads in c.lists && c.lists[c.threads].curr == 0
    && RestDying(s) && Revisits(s) && Runner(s) in c.state
    && (forall y | y in c.state :: y in s.state && c.state[y] == s.state[y])
    && (c.lists[c.threads].elems == Past(s)
        || (DyingIn(s, Past(s)[0]) && c.lists[c.threads].elems != [] && c.lists[c.threads].elems[0] == Runner(s)))
  }

  ghost predicate Gone(s: Config, c: Config)
    requires Ready(s)
  {
    Runner(s) !in c.state && LosesRecord(s)
  }

  ghost predicate Walk(s: Config, c: Config)
    requires Ready(s)
  {
    Tail(s, c) || Visiting(s, c) || AtHome(s, c) || Gone(s, c)
  }

  lemma WalkStarts(s: Config)
    requires Ready(s)
    ensures Walk(s, s)
  {
    ReadyFacts(s);
    hide Ready;
    assert Tail(s, s);
  }

  lemma ReadyFacts(s: Config)
    requires Ready(s)
    ensures NoDup(s.tasks.elems) && (forall t | t in s.tasks.elems :: t in s.lists)
    ensures s.threads in s.lists && 0 < s.lists[s.threads].curr <= |s.lists[s.threads].elems|
    ensures forall t | t in s.lists :: NoDup(s.lists[t].elems)
    ensures forall t, y | t in s.lists && y in s.lists[t].elems :: y in s.state
    ensures Runner(s) in s.lists[s.threads].elems && Runner(s) in s.state
    ensures forall t | t in s.lists && t != s.threads :: Runner(s) !in s.lists[t].elems
  {
  }

  // Looking at a thread.

  /** A thread found dying is taken away and nothing else. */
  lemma ReapWithin(s: Config, c: Config, x: nat)
    requires Within(s, c) && LooksAt(c, x, Dying) && NoDup(c.lists[c.threads].elems)
    ensures Within(s, Reap(c, x)) && NoDup(Reap(c, x).lists[c.threads].elems) && DyingIn(s, x)
  {
    RemoveNoDup(c.lists[c.threads]);
  }

  lemma ReapGone(s: Config, c: Config, x: nat)
    requires OnlyDyingGone(s, c, c.threads) && NoDup(c.lists[c.threads].elems) && LooksAt(c, x, Dying) && DyingIn(s, x)
    ensures OnlyDyingGone(s, Reap(c, x), c.threads)
  {
    RemoveNoDup(c.lists[c.threads]);
    hide NoDup, DyingIn;
  }

  lemma ReapRest(c: Config, x: nat)
    requires LooksAt(c, x, Dying)
    ensures var l, l' := c.lists[c.threads], Reap(c, x).lists[c.threads];
      l'.curr == l.curr <= |l'.elems| && l'.elems[..l.curr] == l.elems[..l.curr]
    ensures forall v | v != c.threads && v in c.lists :: v in Reap(c, x).lists && Reap(c, x).lists[v] == c.lists[v]
    ensures forall y | y in c.state && y != x :: y in Reap(c, x).state
    ensures c.threads in Reap(c, x).lists && Reap(c, x).tasks == c.tasks && Reap(c, x).threads == c.threads
  {
    RemoveShape(c.lists[c.threads]);
  }

  lemma TailReaps(s: Config, c: Config, x: nat)
    requires Ready(s) && Tail(s, c) && LooksAt(c, x, Dying)
    ensures Tail(s, Reap(c, x))
  {
    hide Ready, Within, OnlyDyingGone, LooksAt, Reap;
    ReapWithin(s, c, x);
    ReapGone(s, c, x);
    ReapRest(c, x);
    TailOther(s, c, x);
  }

  lemma TailOther(s: Config, c: Config, x: nat)
    requires Ready(s) && Tail(s, c) && LooksAt(c, x, Dying)
    ensures x != Runner(s)
  {
    ReadyFacts(s);
    hide Ready, Within, OnlyDyingGone;
    var l := c.lists[c.threads];
    assert Runner(s) == Past(s)[l.curr - 1] == l.elems[..l.curr][l.curr - 1] == l.elems[l.curr - 1];
  }

  lemma TailFacts(s: Config, c: Config)
    requires Ready(s) && Tail(s, c)
    ensures c.threads == s.threads && c.threads in c.lists && NoDup(c.lists[c.threads].elems) && Within(s, c)
    ensures var l, k := c.lists[c.threads], s.lists[s.threads].curr;
      && l.curr == k <= |l.elems| && k <= |s.lists[s.threads].elems|
      && forall i | 0 <= i < k :: s.lists[s.threads].elems[i] == l.elems[i]
    ensures forall y | y in c.lists[c.threads].elems :: y in s.lists[s.threads].elems
    ensures Runner(s) in c.state
  {
    hide Listed, OnlyDyingGone;
    var l, k := c.lists[c.threads], s.lists[s.threads].curr;
    forall i | 0 <= i < k ensures s.lists[s.threads].elems[i] == l.elems[i] {
      assert Past(s)[i] == l.elems[..k][i];
    }
  }

  /** Stopping in the rest of the list leaves the record alone. */
  lemma TailStops(s: Config, c: Config, x: nat)
    requires Ready(s) && Tail(s, c) && LooksAt(c, x, Running)
    ensures Runner(s) in c.state && !RestDying(s)
  {
    hide Ready, Tail;
    TailFacts(s, c);
    var l := c.lists[c.threads];
    assert l.elems[l.curr] == x && x in l.elems;
    assert x in s.lists[s.threads].elems;
    var j :| 0 <= j < |s.lists[s.threads].elems| && s.lists[s.threads].elems[j] == x;
    assert j >= l.curr;
    assert x in c.state && c.state[x] == Running;
  }

  lemma VisitStops(s: Config, c: Config, x: nat)
    requires Ready(s) && Visiting(s, c) && LooksAt(c, x, Running)
    ensures Runner(s) in c.state && !Revisits(s)
  {
    VisitFacts(s, c);
    hide Ready, FirstLap, SecondLap, ComesFirst;
    var i :| 0 <= i < |s.tasks.elems| && ComesFirst(s, i) && s.tasks.elems[i] == c.threads;
    assert x in s.lists[c.threads].elems && s.state[x] == Running;
    assert !AllDying(s, s.tasks.elems[i]);
  }

  lemma VisitFacts(s: Config, c: Config)
    requires Ready(s) && Visiting(s, c)
    ensures Away(s, c) && Within(s, c) && Runner(s) in c.state && RestDying(s)
  {
  }

  lemma HomeStops(s: Config, c: Config, x: nat)
    requires Ready(s) && AtHome(s, c) && LooksAt(c, x, Running)
    ensures Runner(s) in c.state && !LosesRecord(s)
  {
    hide Listed, Behind, Revisits, RestDying;
    assert Past(s)[0] == s.lists[s.threads].elems[0];
  }

  lemma HomeReaps(s: Config, c: Config, x: nat)
    requires Ready(s) && AtHome(s, c) && LooksAt(c, x, Dying)
    ensures AtHome(s, Reap(c, x)) || Gone(s, Reap(c, x))
  {
    hide Listed, Behind, Revisits, RestDying;
    var l := c.lists[c.threads];
    assert Past(s)[0] == s.lists[s.threads].elems[0];
    var d := Reap(c, x);
    if x == Runner(s) {
      assert Gone(s, d);
    } else {
      assert l.elems == Past(s) && |l.elems| > 1;
      assert d.lists[c.threads].elems[0] == l.elems[|l.elems| - 1] == Runner(s);
    }
  }

  lemma ReapOther(s: Config, c: Config, x: nat, v: nat)
    requires LooksAt(c, x, Dying) && v != c.threads
    ensures Fresh(s, c, v) ==> Fresh(s, Reap(c, x), v)
    ensures Done(s, c, v) ==> Done(s, Reap(c, x), v)
  {
  }

  lemma VisitAway(s: Config, c: Config, x: nat)
    requires Ready(s) && Visiting(s, c) && LooksAt(c, x, Dying)
    ensures Away(s, Reap(c, x))
  {
    VisitFacts(s, c);
    ReadyFacts(s);
    ReapWithin(s, c, x);
    ReapRest(c, x);
    hide Ready, Visiting, Reap, RestDying;
    assert x in s.lists[c.threads].elems;
  }

  lemma VisitReaps(s: Config, c: Config, x: nat)
    requires Ready(s) && Visiting(s, c) && LooksAt(c, x, Dying)
    ensures Visiting(s, Reap(c, x))
  {
    hide Ready, FirstLap, SecondLap, LooksAt, Reap, Within;
    VisitFacts(s, c);
    ReapWithin(s, c, x);
    ReapGone(s, c, x);
    ReapRest(c, x);
    VisitAway(s, c, x);
    if FirstLap(s, c, c.threads) {
      FirstReaps(s, c, x);
    } else {
      SecondReaps(s, c, x);
    }
  }

  lemma FirstReaps(s: Config, c: Config, x: nat)
    requires Ready(s) && FirstLap(s, c, c.threads) && LooksAt(c, x, Dying) && Away(s, Reap(c, x))
    requires NoDup(c.tasks.elems) && 0 < c.tasks.curr && c.tasks.elems[c.tasks.curr - 1] == c.threads
    ensures FirstLap(s, Reap(c, x), c.threads)
  {
    hide Ready, Away, Fresh, Done, LooksAt, Reap, Late;
    NotEarly(s);
    ReapRest(c, x);
    var d := Reap(c, x);
    forall i | s.tasks.curr <= i < |s.tasks.elems| ensures Handled(s, d, c.threads, s.tasks.elems[i]) {
      assert Handled(s, c, c.threads, s.tasks.elems[i]);
      if s.tasks.elems[i] != c.threads {
        ReapOther(s, c, x, s.tasks.elems[i]);
      }
    }
    forall j | c.tasks.curr <= j < |c.tasks.elems| ensures Fresh(s, d, c.tasks.elems[j]) {
      ReapOther(s, c, x, c.tasks.elems[j]);
    }
    forall j | 0 <= j < s.tasks.curr - 1 ensures Fresh(s, d, s.tasks.elems[j]) {
      assert s.tasks.elems[j] == c.tasks.elems[j];
      FrontOther(s, c);
      ReapOther(s, c, x, s.tasks.elems[j]);
    }
  }

  /** In the first lap the task visited is not one of the front. */
  lemma FrontOther(s: Config, c: Config)
    requires Ready(s) && FirstLap(s, c, c.threads)
    requires NoDup(c.tasks.elems) && 0 < c.tasks.curr && c.tasks.elems[c.tasks.curr - 1] == c.threads
    ensures forall j | 0 <= j < s.tasks.curr - 1 :: s.tasks.elems[j] != c.threads
  {
    hide Ready, Away, Fresh, Handled, Late;
  }

  lemma SecondReaps(s: Config, c: Config, x: nat)
    requires Ready(s) && SecondLap(s, c, c.threads) && LooksAt(c, x, Dying) && Away(s, Reap(c, x))
    requires 0 < c.tasks.curr && c.tasks.elems[c.tasks.curr - 1] == c.threads
    ensures SecondLap(s, Reap(c, x), c.threads)
  {
    hide Ready, Away, Fresh, Done, LooksAt, Reap, Late, HasThreads;
    NotEarly(s);
    ReapRest(c, x);
    var d := Reap(c, x);
    forall i | s.tasks.curr <= i < |s.tasks.elems| ensures Done(s, d, s.tasks.elems[i]) {
      ReapOther(s, c, x, s.tasks.elems[i]);
    }
    forall j | 0 <= j < c.tasks.curr ensures Tried(s, d, c.threads, s.tasks.elems[j]) {
      assert Tried(s, c, c.threads, s.tasks.elems[j]);
      if s.tasks.elems[j] != c.threads {
        ReapOther(s, c, x, s.tasks.elems[j]);
      }
    }
    forall j | c.tasks.curr <= j < s.tasks.curr - 1 ensures Fresh(s, d, s.tasks.elems[j]) {
      ReapOther(s, c, x, s.tasks.elems[j]);
    }
  }

  // Going on to the next list.

  lemma {:induction false} PickBehind(c: Config, kernel: nat)
    requires PickNext(c, kernel).Some?
    ensures var d := PickNext(c, kernel).value;
      && 0 < d.tasks.curr <= |d.tasks.elems| && d.tasks.elems[d.tasks.curr - 1] == d.threads && d.state == c.state
      && d.threads in d.lists
    decreases |c.tasks.elems|
  {
    var tasks := if c.tasks.IsEnd() then c.tasks.Rewind() else c.tasks;
    var t := tasks.Current();
    if c.lists[t].IsEmpty() {
      PickBehind(c.(tasks := tasks.Remove(), lists := c.lists - {t}, dirs := c.dirs - {t}), kernel);
    }
  }

  lemma RewoundSame(s: Config, c: Config)
    requires c.threads in c.lists
    ensures c.threads in Rewound(c).lists && Rewound(c).lists[c.threads] == Cursor(c.lists[c.threads].elems, 0)
    ensures forall v :: Fresh(s, c, v) <==> Fresh(s, Rewound(c), v)
    ensures forall v :: Done(s, c, v) <==> Done(s, Rewound(c), v)
    ensures Within(s, c) <==> Within(s, Rewound(c))
    ensures Rewound(c).tasks == c.tasks && Rewound(c).threads == c.threads && Rewound(c).state == c.state
  {
  }

  lemma RewoundAway(s: Config, c: Config)
    requires Ready(s) && Away(s, c) && c.threads in c.lists
    ensures Away(s, Rewound(c))
  {
    RewoundSame(s, c);
    hide Ready, Within, RestDying, Fresh, Done;
  }

  lemma RewoundLaps(s: Config, c: Config, u: nat)
    requires Ready(s) && c.threads in c.lists
    ensures FirstLap(s, c, u) ==> FirstLap(s, Rewound(c), u)
    ensures SecondLap(s, c, u) ==> SecondLap(s, Rewound(c), u)
  {
    hide Ready, Away, Fresh, Done, Late, HasThreads, Rewound;
    RewoundSame(s, c);
    if FirstLap(s, c, u) || SecondLap(s, c, u) {
      RewoundAway(s, c);
    }
    if FirstLap(s, c, u) {
      forall i | s.tasks.curr <= i < |s.tasks.elems| ensures Handled(s, Rewound(c), u, s.tasks.elems[i]) {
        assert Handled(s, c, u, s.tasks.elems[i]);
      }
    }
    if SecondLap(s, c, u) {
      forall j | 0 <= j < c.tasks.curr ensures Tried(s, Rewound(c), u, s.tasks.elems[j]) {
        assert Tried(s, c, u, s.tasks.elems[j]);
      }
    }
  }

  lemma FreshNoDup(s: Config, c: Config, u: nat)
    requires Ready(s) && Fresh(s, c, u)
    ensures NoDup(c.lists[u].elems) && OnlyDyingGone(s, c, u)
  {
    ReadyFacts(s);
    hide Ready, NoDup;
  }

  /** The task chosen is the running one, come round again, or one that comes up before it. */
  lemma ComesWalks(s: Config, d: Config)
    requires Ready(s) && Comes(s, d) && d.threads in d.lists
    requires 0 < d.tasks.curr <= |d.tasks.elems| && d.tasks.elems[d.tasks.curr - 1] == d.threads
    ensures Walk(s, Rewound(d))
  {
    hide Ready, Revisits, Early, Fresh, OnlyDyingGone, RestDying, Rewound, Away, FirstLap, SecondLap;
    RewoundSame(s, d);
    if d.threads == s.threads {
      RewoundAway(s, d);
      AwayHome(s, Rewound(d));
    } else {
      RewoundLaps(s, d, d.threads);
      assert Fresh(s, Rewound(d), d.threads);
      FreshNoDup(s, Rewound(d), d.threads);
      assert Visiting(s, Rewound(d));
    }
  }

  lemma AwayHome(s: Config, c: Config)
    requires Ready(s) && Away(s, c) && Revisits(s) && c.threads == s.threads
    ensures AtHome(s, c)
  {
    hide Ready, Revisits, RestDying;
  }

  /** The list of the running task is exhausted: its first lap begins. */
  lemma TailEnds(s: Config, c: Config)
    requires Ready(s) && Tail(s, c) && c.lists[c.threads].IsEnd()
    ensures Away(s, Rewound(c))
  {
    hide Ready, Tail, Within, Rewound, NoDup;
    TailFacts(s, c);
    ReadyFacts(s);
    RewoundSame(s, c);
    TailGone(s, c);
    forall j | s.lists[s.threads].curr <= j < |s.lists[s.threads].elems|
      ensures DyingIn(s, s.lists[s.threads].elems[j])
    {
      LaterNotPast(s, j);
    }
    assert RestDying(s);
  }

  lemma TailGone(s: Config, c: Config)
    requires Ready(s) && Tail(s, c) && c.lists[c.threads].IsEnd()
    ensures c.lists[c.threads].elems == Past(s) && OnlyDyingGone(s, c, s.threads)
  {
    hide Listed, Behind, Within, OnlyDyingGone;
  }

  lemma LaterNotPast(s: Config, j: nat)
    requires Ready(s) && s.lists[s.threads].curr <= j < |s.lists[s.threads].elems|
    ensures s.lists[s.threads].elems[j] !in Past(s)
  {
    ReadyFacts(s);
    hide Ready;
  }

  lemma TailFresh(s: Config, c: Config, i: nat)
    requires Ready(s) && Tail(s, c) && i < |s.tasks.elems| && s.tasks.elems[i] != s.threads
    ensures Fresh(s, c, s.tasks.elems[i])
  {
    ReadyFacts(s);
    hide Ready, Within, OnlyDyingGone, NoDup;
    assert s.tasks.elems[i] in s.tasks.elems;
  }

  lemma TailTasks(s: Config, c: Config)
    requires Ready(s) && Tail(s, c)
    ensures c.tasks == s.tasks && c.threads == s.threads && c.threads in c.lists
  {
  }

  lemma LapBegins(s: Config, c: Config)
    requires Ready(s) && Tail(s, c) && Away(s, Rewound(c)) && s.tasks.curr > 0
    ensures FirstLap(s, Rewound(c), s.threads)
  {
    hide Ready, Tail, Away, Rewound, Fresh, Done, NoDup;
    NotEarly(s);
    TailTasks(s, c);
    RewoundSame(s, c);
    forall i | 0 <= i < |s.tasks.elems| && i != s.tasks.curr - 1 ensures Fresh(s, Rewound(c), s.tasks.elems[i]) {
      OtherTask(s, i);
      TailFresh(s, c, i);
    }
    forall i | s.tasks.curr <= i < |s.tasks.elems|
      ensures AheadIn(Rewound(c), s.tasks.elems[i]) && Late(s, s.tasks.elems[i])
    {
    }
  }

  lemma OtherTask(s: Config, i: nat)
    requires Ready(s) && s.tasks.curr > 0 && i < |s.tasks.elems| && i != s.tasks.curr - 1
    ensures s.tasks.elems[i] != s.threads
  {
    NotEarly(s);
    hide Ready;
  }

  /** Before the first round the running task is the first to come up. */
  lemma HomeAtOnce(s: Config, c: Config, kernel: nat)
    requires Ready(s) && Tail(s, c) && Away(s, Rewound(c)) && s.tasks.curr == 0 && PickNext(Rewound(c), kernel).Some?
    ensures Comes(s, PickNext(Rewound(c), kernel).value)
  {
    var r := Rewound(c);
    assert r.tasks.Current() == s.threads && !r.tasks.IsEnd();
    AwayWithin(s, r);
    hide Ready, Tail, Away, Rewound;
    PickTurn(r, kernel);
    AwaySame(s, r, 1, s.threads);
  }

  lemma VisitDone(s: Config, c: Config)
    requires OnlyDyingGone(s, c, c.threads) && c.lists[c.threads].IsEnd() && c.lists[c.threads].curr == 0
    ensures Rewound(c) == c && Done(s, c, c.threads)
  {
    assert c.lists[c.threads := c.lists[c.threads].Rewind()] == c.lists;
  }

  /** A task visited has no thread left. */
  lemma VisitEnds(s: Config, c: Config)
    requires Ready(s) && Visiting(s, c) && c.lists[c.threads].IsEnd()
    ensures Rewound(c) == c && (FirstLap(s, c, s.threads) || SecondLap(s, c, s.threads))
  {
    hide Ready, Away, Fresh, Done, Late, HasThreads, AheadIn, Early;
    var u := c.threads;
    VisitDone(s, c);
    if FirstLap(s, c, u) {
      forall i | s.tasks.curr <= i < |s.tasks.elems| ensures Handled(s, c, s.threads, s.tasks.elems[i]) {
        assert Handled(s, c, u, s.tasks.elems[i]);
      }
    } else {
      forall j | 0 <= j < c.tasks.curr ensures Tried(s, c, s.threads, s.tasks.elems[j]) {
        assert Tried(s, c, u, s.tasks.elems[j]);
      }
    }
  }

  lemma NextList(s: Config, c: Config, kernel: nat)
    requires Ready(s) && PickNext(Rewound(c), kernel).Some?
    requires FirstLap(s, Rewound(c), s.threads) || SecondLap(s, Rewound(c), s.threads)
    ensures Walk(s, Rewound(PickNext(Rewound(c), kernel).value))
  {
    hide Ready, FirstLap, SecondLap, Rewound, Walk, Comes, PickNext;
    PickBehind(Rewound(c), kernel);
    if FirstLap(s, Rewound(c), s.threads) {
      FirstLapPicks(s, Rewound(c), kernel);
    } else {
      SecondLapPicks(s, Rewound(c), kernel);
    }
    ComesWalks(s, PickNext(Rewound(c), kernel).value);
  }

  lemma ArriveKeeps(s: Config, c: Config, kernel: nat)
    requires Ready(s) && Walk(s, c) && Arrive(c, kernel).Some?
    ensures Walk(s, Arrive(c, kernel).value)
  {
    hide Ready, FirstLap, SecondLap, Rewound, Comes, PickNext, Tail, Visiting, AtHome, Away;
    if !(c.threads in c.lists && !c.lists[c.threads].IsEnd()) {
      PickBehind(Rewound(c), kernel);
      WalkThere(s, c);
      if Tail(s, c) {
        TailEnds(s, c);
        if s.tasks.curr > 0 {
          LapBegins(s, c);
          NextList(s, c, kernel);
        } else {
          HomeAtOnce(s, c, kernel);
          ComesWalks(s, PickNext(Rewound(c), kernel).value);
        }
      } else if Visiting(s, c) {
        VisitEnds(s, c);
        NextList(s, c, kernel);
      } else {
        RewoundState(c);
        RewoundState(PickNext(Rewound(c), kernel).value);
      }
    }
  }

  lemma RewoundState(c: Config)
    ensures Rewound(c).state == c.state
  {
  }

  lemma WalkThere(s: Config, c: Config)
    requires Ready(s) && Walk(s, c)
    ensures Tail(s, c) || Visiting(s, c) ==> c.threads in c.lists
    ensures AtHome(s, c) ==> c.threads in c.lists && !c.lists[c.threads].IsEnd()
  {
  }

  lemma LookKeeps(s: Config, c: Config, x: nat)
    requires Ready(s) && Walk(s, c) && LooksAt(c, x, Dying)
    ensures Walk(s, Reap(c, x))
  {
    hide Ready, Tail, Visiting, AtHome, LosesRecord;
    if Tail(s, c) {
      TailReaps(s, c, x);
    } else if Visiting(s, c) {
      VisitReaps(s, c, x);
    } else if AtHome(s, c) {
      HomeReaps(s, c, x);
    }
  }

  lemma LookStops(s: Config, c: Config, x: nat)
    requires Ready(s) && Walk(s, c) && LooksAt(c, x, Running)
    ensures Runner(s) !in c.state <==> LosesRecord(s)
  {
    hide Ready, Tail, Visiting, AtHome, RestDying, Revisits;
    if Tail(s, c) {
      TailStops(s, c, x);
    } else if Visiting(s, c) {
      VisitStops(s, c, x);
    } else if AtHome(s, c) {
      HomeStops(s, c, x);
    }
  }

  lemma {:induction false} WalkLeads(s: Config, c: Config, kernel: nat, n: nat, d: Config)
    requires Ready(s) && Walk(s, c) && Leads(c, kernel, n, d)
    ensures Walk(s, d)
    decreases n
  {
    hide Ready, Walk, Arrive, Reap, LooksAt;
    ArriveKeeps(s, c, kernel);
    if n > 0 {
      var a := Arrive(c, kernel).value;
      var x :| LooksAt(a, x, Dying) && Leads(Reap(a, x), kernel, n - 1, d);
      LookKeeps(s, a, x);
      WalkLeads(s, Reap(a, x), kernel, n - 1, d);
    }
  }

  /**
    When schedule finds a thread to run, the record of the thread that ran before has been
    destroyed if and only if that thread was dying and nothing stood in the way of a second
    look at its task.
  */
  lemma RecordLost(s: Config, kernel: nat, e: Config, x: nat)
    requires Ready(s) && Settles(s, kernel, e, x)
    ensures Runner(s) !in e.state <==> LosesRecord(s)
  {
    hide Ready, Walk, Leads, LooksAt, LosesRecord;
    var d :| Arrives(s, kernel, d) && LooksAt(d, x, Running) && e == SteppedOver(d);
    var n :| Leads(s, kernel, n, d);
    WalkStarts(s);
    WalkLeads(s, s, kernel, n, d);
    LookStops(s, d, x);
  }

  lemma NotLost(s: Config)
    requires Ready(s) && Runner(s) in s.state && s.state[Runner(s)] != Dying
    ensures !LosesRecord(s)
  {
  }

  // ------------------------------------------------------------ a run that loses the record

  /** One task with threads `d`, `r` and `c`: `d` was killed, `c` runs and has exited. */
  ghost function Example(t: nat, d: nat, r: nat, c: nat, dir: nat): Config {
    Config(Cursor([t], 1), map[t := Cursor([d, r, c], 3)], map[d := Dying, r := Running, c := Dying], map[t := dir], t)
  }

  /** The list of the example when the loop looks into it, with threads `es` left. */
  ghost function ExampleAt(t: nat, es: seq<nat>, state: States, dir: nat): Config {
    Config(Cursor([t], 1), map[t := Cursor(es, 0)], state, map[t := dir], t)
  }

  lemma ExampleReaps(t: nat, es: seq<nat>, state: States, dir: nat, x: nat)
    requires |es| > 0 && es[0] == x && x in state && state[x] == Dying
    ensures LooksAt(ExampleAt(t, es, state, dir), x, Dying)
    ensures Reap(ExampleAt(t, es, state, dir), x) == ExampleAt(t, es[0 := es[|es| - 1]][..|es| - 1], state - {x}, dir)
  {
  }

  lemma ExampleStays(t: nat, es: seq<nat>, state: States, dir: nat, kernel: nat)
    requires es != []
    ensures Arrive(ExampleAt(t, es, state, dir), kernel) == Some(ExampleAt(t, es, state, dir))
  {
  }

  lemma ExampleStarts(t: nat, d: nat, r: nat, c: nat, dir: nat, kernel: nat)
    ensures var s := Example(t, d, r, c, dir);
      Arrive(s, kernel) == Some(ExampleAt(t, [d, r, c], s.state, dir))
  {
    var s := Example(t, d, r, c, dir);
    var a := ExampleAt(t, [d, r, c], s.state, dir);
    assert Rewound(s).lists == a.lists;
    PickTurn(Rewound(s), kernel);
    assert PickNext(Rewound(s), kernel) == Some(a);
    assert Rewound(a).lists == a.lists;
  }

  /** Removing `d` brings `c` to the front, where it is looked at and destroyed before `r` is found. */
  lemma StrayStore(t: nat, d: nat, r: nat, c: nat, dir: nat, kernel: nat)
    requires d != r && r != c && c != d
    ensures var s := Example(t, d, r, c, dir);
      && Ready(s) && Runner(s) == c && LosesRecord(s)
      && exists e :: Settles(s, kernel, e, r) && c !in e.state
  {
    var s := Example(t, d, r, c, dir);
    ExampleReady(t, d, r, c, dir);
    var state1 := s.state - {d};
    var state2 := state1 - {c};
    var a0, a1 := ExampleAt(t, [d, r, c], s.state, dir), ExampleAt(t, [c, r], state1, dir);
    var a2 := ExampleAt(t, [r], state2, dir);
    ExampleStarts(t, d, r, c, dir, kernel);
    ExampleReaps(t, [d, r, c], s.state, dir, d);
    assert [d, r, c][0 := c][..2] == [c, r];
    ExampleStays(t, [c, r], state1, dir, kernel);
    ExampleReaps(t, [c, r], state1, dir, c);
    assert [c, r][0 := r][..1] == [r];
    ExampleStays(t, [r], state2, dir, kernel);
    hide Arrive, Reap, Ready, LosesRecord;
    assert Leads(a2, kernel, 0, a2);
    assert Leads(a1, kernel, 1, a2);
    assert Leads(s, kernel, 2, a2);
    assert Arrives(s, kernel, a2) && LooksAt(a2, r, Running);
    assert Settles(s, kernel, SteppedOver(a2), r);
  }

  lemma ExampleReady(t: nat, d: nat, r: nat, c: nat, dir: nat)
    requires d != r && r != c && c != d
    ensures Ready(Example(t, d, r, c, dir)) && Runner(Example(t, d, r, c, dir)) == c
    ensures LosesRecord(Example(t, d, r, c, dir))
  {
  }
}
