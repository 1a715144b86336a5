/**
  Where a call of schedule ends, told by the lists and states before it.  The threads come
  up in an order that does not depend on their states: of a list, the one at the cursor
  first and then the others from the end, since a removal puts the last one in its place;
  of the task list, those with threads in turn, and a task without threads gives its place
  to the last one.  The walk ends at the first thread in that order that is not dying, or
  at the reference directory, should a task without threads before it have that.
*/
module Order {
  import opened Basics
  import opened Lists
  import opened Turns

  /** What the loops come to: a thread is looked at, a task without threads is destroyed. */
  datatype Stop = Look(thread: nat) | Drop(task: nat)

  ghost function FromEnd(es: seq<nat>): (ss: seq<Stop>)
    ensures |ss| == |es| && forall i | 0 <= i < |es| :: ss[i] == Look(es[|es| - 1 - i])
  {
    if es == [] then [] else [Look(es[|es| - 1])] + FromEnd(es[..|es| - 1])
  }

  /** The threads `es`, at and ahead of the cursor, in the order in which they come to the cursor. */
  ghost function Looks(es: seq<nat>): (ss: seq<Stop>)
    ensures |ss| == |es|
    ensures forall i | 0 <= i < |es| :: ss[i] == Look(if i == 0 then es[0] else es[|es| - i])
  {
    if es == [] then [] else [Look(es[0])] + FromEnd(es[1..])
  }

  /** What is left when the first has gone and the last has taken its place. */
  ghost function Refill(ts: seq<nat>): (rs: seq<nat>)
    requires ts != []
    ensures |rs| == |ts| - 1
  {
    if |ts| == 1 then [] else [ts[|ts| - 1]] + ts[1..|ts| - 1]
  }

  ghost function ThreadsOf(lists: ThreadLists, t: nat): seq<nat> {
    if t in lists then lists[t].elems else []
  }

  /** What comes up while the cursor goes through the tasks `ts`. */
  ghost function Lap(lists: ThreadLists, ts: seq<nat>): seq<Stop>
    decreases |ts|
  {
    if ts == [] then []
    else if ThreadsOf(lists, ts[0]) == [] then [Drop(ts[0])] + Lap(lists, Refill(ts))
    else Looks(ThreadsOf(lists, ts[0])) + Lap(lists, ts[1..])
  }

  /** The tasks that are left behind the cursor then. */
  ghost function Kept(lists: ThreadLists, ts: seq<nat>): seq<nat>
    decreases |ts|
  {
    if ts == [] then []
    else if ThreadsOf(lists, ts[0]) == [] then Kept(lists, Refill(ts))
    else [ts[0]] + Kept(lists, ts[1..])
  }

  ghost function Emptied(lists: ThreadLists, ts: seq<nat>): ThreadLists {
    map t | t in lists :: if t in ts then Cursor([], 0) else lists[t]
  }

  /**
    What comes up when the tasks `rest` are ahead of the task cursor and the tasks `front`
    behind it: those ahead, and once more all that are left then, from the start.
  */
  ghost function Rounds(lists: ThreadLists, front: seq<nat>, rest: seq<nat>): seq<Stop> {
    Lap(lists, rest) + Lap(Emptied(lists, Kept(lists, rest)), front + Kept(lists, rest))
  }

  ghost function TaskRounds(lists: ThreadLists, tasks: Cursor<nat>): seq<Stop>
    requires tasks.curr <= |tasks.elems|
  {
    Rounds(lists, tasks.elems[..tasks.curr], tasks.elems[tasks.curr..])
  }

  ghost predicate Sound(c: Config) {
    && Listed(c.tasks, c.lists, c.state, c.dirs) && c.tasks.curr <= |c.tasks.elems|
    && c.threads in c.lists && c.lists[c.threads].curr <= |c.lists[c.threads].elems|
  }

  /** What comes up from `c` on: the rest of the current list, whose threads so far have had their turn, and tasks. */
  ghost function Upcoming(c: Config): seq<Stop>
    requires Sound(c)
  {
    var l := c.lists[c.threads];
    Looks(l.elems[l.curr..]) + TaskRounds(c.lists[c.threads := Cursor(l.elems[..l.curr], 0)], c.tasks)
  }

  /** A thread that is not dying ends the walk, and so does the directory that cannot be destroyed. */
  ghost predicate Stops(c: Config, kernel: nat, i: Stop) {
    match i
    case Look(x) => x in c.state && c.state[x] != Dying
    case Drop(t) => t in c.dirs && c.dirs[t] == kernel
  }

  ghost function FirstStop(c: Config, kernel: nat, ss: seq<Stop>): Option<Stop> {
    if ss == [] then None else if Stops(c, kernel, ss[0]) then Some(ss[0]) else FirstStop(c, kernel, ss[1..])
  }

  /** Where the walk from `c` ends. */
  ghost function NextStop(c: Config, kernel: nat): Option<Stop>
    requires Sound(c)
  {
    FirstStop(c, kernel, Upcoming(c))
  }

  // ------------------------------------------------------------ the first stop of a sequence

  lemma {:induction false} StopInPrefix(c: Config, kernel: nat, ss: seq<Stop>, js: seq<Stop>)
    ensures FirstStop(c, kernel, ss + js)
         == if FirstStop(c, kernel, ss).Some? then FirstStop(c, kernel, ss) else FirstStop(c, kernel, js)
    decreases |ss|
  {
    if ss == [] {
      assert ss + js == js;
    } else {
      assert (ss + js)[1..] == ss[1..] + js;
      StopInPrefix(c, kernel, ss[1..], js);
    }
  }

  /** What stops the walk matters, not what else has changed. */
  lemma {:induction false} SameStop(c: Config, d: Config, kernel: nat, ss: seq<Stop>)
    requires forall i :: Stops(c, kernel, i) <==> Stops(d, kernel, i)
    ensures FirstStop(c, kernel, ss) == FirstStop(d, kernel, ss)
    decreases |ss|
  {
    if ss != [] {
      SameStop(c, d, kernel, ss[1..]);
    }
  }

  lemma {:induction false} StopFound(c: Config, kernel: nat, ss: seq<Stop>, k: nat)
    requires k < |ss| && Stops(c, kernel, ss[k])
    ensures FirstStop(c, kernel, ss).Some?
    decreases k
  {
    if k > 0 {
      StopFound(c, kernel, ss[1..], k - 1);
    }
  }

  lemma {:induction false} StopIs(c: Config, kernel: nat, ss: seq<Stop>)
    requires FirstStop(c, kernel, ss).Some?
    ensures Stops(c, kernel, FirstStop(c, kernel, ss).value)
    decreases |ss|
  {
    if !Stops(c, kernel, ss[0]) {
      StopIs(c, kernel, ss[1..]);
    }
  }

  // ------------------------------------------------------------ a turn of the loops

  lemma RemoveParts(l: Cursor<nat>)
    requires !l.IsEnd()
    ensures l.Remove().elems[l.curr..] == Refill(l.elems[l.curr..]) && l.Remove().elems[..l.curr] == l.elems[..l.curr]
    ensures l.curr <= |l.Remove().elems|
  {
    RemoveShape(l);
  }

  lemma LooksRefill(es: seq<nat>)
    requires es != []
    ensures Looks(es) == [Look(es[0])] + Looks(Refill(es))
  {
    if |es| > 1 {
      var rest := es[1..];
      assert Refill(es)[0] == rest[|rest| - 1] && Refill(es)[1..] == rest[..|rest| - 1];
    }
  }

  /** The list after a removal. */
  lemma LooksOn(l: Cursor<nat>)
    requires !l.IsEnd()
    ensures Looks(l.elems[l.curr..]) == [Look(l.Current())] + Looks(l.Remove().elems[l.curr..])
    ensures l.Remove().elems[..l.curr] == l.elems[..l.curr]
  {
    hide Looks, Refill;
    RemoveParts(l);
    LooksRefill(l.elems[l.curr..]);
  }

  lemma ReapSound(c: Config, x: nat)
    requires Sound(c) && LooksAt(c, x, Dying)
    ensures Sound(Reap(c, x)) && Reap(c, x).lists[c.threads] == c.lists[c.threads].Remove()
  {
    ReapListed(c.lists, c.state, c.tasks, c.lists, c.state, c.dirs, c.threads);
    hide Listed;
  }

  lemma ReapStep(c: Config, x: nat)
    requires Sound(c) && LooksAt(c, x, Dying)
    ensures Sound(Reap(c, x)) && Upcoming(c) == [Look(x)] + Upcoming(Reap(c, x))
  {
    hide Listed, TaskRounds, Looks;
    var l, t := c.lists[c.threads], c.threads;
    ReapSound(c, x);
    LooksOn(l);
    assert Reap(c, x).lists[t := Cursor(l.elems[..l.curr], 0)] == c.lists[t := Cursor(l.elems[..l.curr], 0)];
  }

  lemma RefillIn(ts: seq<nat>)
    requires ts != []
    ensures forall x :: x in ts <==> x == ts[0] || x in Refill(ts)
  {
    if |ts| > 1 {
      assert ts == [ts[0]] + ts[1..|ts| - 1] + [ts[|ts| - 1]];
    }
  }

  lemma RefillNoDup(ts: seq<nat>)
    requires ts != [] && NoDup(ts)
    ensures ts[0] !in Refill(ts) && ts[0] !in ts[1..]
  {
  }

  /** Only the lists of the tasks gone through matter. */
  lemma {:induction false} SameLap(lists: ThreadLists, lists': ThreadLists, ts: seq<nat>)
    requires forall t | t in ts :: ThreadsOf(lists', t) == ThreadsOf(lists, t)
    ensures Lap(lists', ts) == Lap(lists, ts) && Kept(lists', ts) == Kept(lists, ts)
    decreases |ts|
  {
    hide ThreadsOf, Looks, Refill;
    if ts != [] {
      RefillIn(ts);
      SameLap(lists, lists', Refill(ts));
      SameLap(lists, lists', ts[1..]);
    }
  }

  lemma {:induction false} KeptIn(lists: ThreadLists, ts: seq<nat>)
    ensures forall t | t in Kept(lists, ts) :: t in ts && ThreadsOf(lists, t) != []
    decreases |ts|
  {
    hide ThreadsOf, Refill;
    if ts != [] {
      RefillIn(ts);
      KeptIn(lists, Refill(ts));
      KeptIn(lists, ts[1..]);
    }
  }

  lemma LapDrops(lists: ThreadLists, ts: seq<nat>)
    requires ts != [] && ThreadsOf(lists, ts[0]) == []
    ensures Lap(lists, ts) == [Drop(ts[0])] + Lap(lists, Refill(ts)) && Kept(lists, ts) == Kept(lists, Refill(ts))
  {
  }

  lemma LapTakes(lists: ThreadLists, ts: seq<nat>)
    requires ts != [] && ThreadsOf(lists, ts[0]) != []
    ensures Lap(lists, ts) == Looks(ThreadsOf(lists, ts[0])) + Lap(lists, ts[1..])
    ensures Kept(lists, ts) == [ts[0]] + Kept(lists, ts[1..])
  {
  }

  lemma SameEmptied(lists: ThreadLists, ks: seq<nat>, lists': ThreadLists, ks': seq<nat>, ts: seq<nat>)
    requires forall t | t in ts ::
      (if t in ks then [] else ThreadsOf(lists, t)) == (if t in ks' then [] else ThreadsOf(lists', t))
    ensures Lap(Emptied(lists, ks), ts) == Lap(Emptied(lists', ks'), ts)
  {
    SameLap(Emptied(lists, ks), Emptied(lists', ks'), ts);
  }

  /** Going back to the start of the task list adds another round at the end. */
  lemma RoundsWrap(lists: ThreadLists, tasks: Cursor<nat>) returns (more: seq<Stop>)
    requires tasks.curr == |tasks.elems|
    ensures TaskRounds(lists, tasks.Rewind()) == TaskRounds(lists, tasks) + more
  {
    hide Emptied, ThreadsOf, Refill, Looks;
    var es := tasks.elems;
    assert es[|es|..] == [] && es[..|es|] + [] == es && es[0..] == es;
    EmptiedNothing(lists, es);
    more := Lap(Emptied(lists, Kept(lists, es)), es[..0] + Kept(lists, es));
  }

  lemma EmptiedNothing(lists: ThreadLists, ts: seq<nat>)
    ensures Lap(Emptied(lists, []), ts) == Lap(lists, ts)
  {
    SameLap(lists, Emptied(lists, []), ts);
  }

  lemma RoundsDrop(lists: ThreadLists, front: seq<nat>, rest: seq<nat>)
    requires rest != [] && ThreadsOf(lists, rest[0]) == [] && rest[0] !in front && rest[0] !in Refill(rest)
    ensures Rounds(lists, front, rest) == [Drop(rest[0])] + Rounds(lists - {rest[0]}, front, Refill(rest))
  {
    hide Lap, Kept, Emptied, Refill, ThreadsOf;
    var lists', rs := lists - {rest[0]}, Refill(rest);
    LapDrops(lists, rest);
    WithoutTask(lists, rest[0]);
    SameLap(lists, lists', rs);
    KeptIn(lists, rs);
    SameEmptied(lists, Kept(lists, rs), lists', Kept(lists, rs), front + Kept(lists, rs));
  }

  lemma WithoutTask(lists: ThreadLists, t: nat)
    ensures forall u | u != t :: ThreadsOf(lists - {t}, u) == ThreadsOf(lists, u)
  {
  }

  lemma RoundsNext(lists: ThreadLists, lists': ThreadLists, front: seq<nat>, rest: seq<nat>)
    requires rest != [] && ThreadsOf(lists, rest[0]) != [] && rest[0] !in rest[1..]
    requires forall u :: ThreadsOf(lists', u) == if u == rest[0] then [] else ThreadsOf(lists, u)
    ensures Rounds(lists, front, rest)
         == Looks(ThreadsOf(lists, rest[0])) + Rounds(lists', front + [rest[0]], rest[1..])
  {
    hide Lap, Kept, Emptied, Refill, Looks, ThreadsOf;
    LapTakes(lists, rest);
    SameLap(lists, lists', rest[1..]);
    var kept := Kept(lists, rest[1..]);
    assert front + ([rest[0]] + kept) == front + [rest[0]] + kept;
    SameEmptied(lists, [rest[0]] + kept, lists', kept, front + [rest[0]] + kept);
  }

  lemma CursorParts(l: Cursor<nat>)
    requires !l.IsEnd()
    ensures l.elems[l.curr..] != [] && l.elems[l.curr..][0] == l.Current()
    ensures l.Next().elems[..l.curr + 1] == l.elems[..l.curr] + [l.Current()]
    ensures l.Next().elems[l.curr + 1..] == l.elems[l.curr..][1..]
  {
  }

  lemma CurrentOnce(l: Cursor<nat>)
    requires !l.IsEnd() && NoDup(l.elems)
    ensures l.Current() !in l.elems[..l.curr] && l.Current() !in l.elems[l.curr..][1..]
    ensures l.Current() !in Refill(l.elems[l.curr..])
  {
    var ts := l.elems[l.curr..];
    assert forall a, b | 0 <= a < b < |ts| :: ts[a] == l.elems[l.curr + a] && ts[b] == l.elems[l.curr + b];
    RefillNoDup(ts);
  }

  /** A task without threads gives its place to the last one. */
  lemma DropStep(lists: ThreadLists, tasks: Cursor<nat>)
    requires !tasks.IsEnd() && NoDup(tasks.elems) && ThreadsOf(lists, tasks.Current()) == []
    ensures tasks.Remove().curr <= |tasks.Remove().elems|
    ensures TaskRounds(lists, tasks) == [Drop(tasks.Current())] + TaskRounds(lists - {tasks.Current()}, tasks.Remove())
  {
    hide Rounds, Refill, NoDup;
    CursorParts(tasks);
    RemoveParts(tasks);
    CurrentOnce(tasks);
    RoundsDrop(lists, tasks.elems[..tasks.curr], tasks.elems[tasks.curr..]);
  }

  lemma TakenLists(lists: ThreadLists, t: nat, u: nat)
    requires t in lists
    ensures ThreadsOf(lists[t := Cursor(lists[t].elems, 0)][t := Cursor([], 0)], u)
         == if u == t then [] else ThreadsOf(lists, u)
  {
  }

  lemma TakenSound(c: Config, t: nat)
    requires Listed(c.tasks, c.lists, c.state, c.dirs) && t in c.lists && !c.tasks.IsEnd()
    ensures NoDup(c.tasks.elems) && Sound(Rewound(c.(tasks := c.tasks.Next(), threads := t)))
  {
    MoveCursor(c.lists, c.state, c.tasks, c.lists, c.state, c.dirs, t, 0);
  }

  /** Taking a task: its list from the start, then the tasks behind it. */
  lemma TakeStep(c: Config, t: nat)
    requires Listed(c.tasks, c.lists, c.state, c.dirs) && !c.tasks.IsEnd() && c.tasks.Current() == t
    requires t in c.lists && c.lists[t].elems != []
    ensures Sound(Rewound(c.(tasks := c.tasks.Next(), threads := t)))
    ensures TaskRounds(c.lists, c.tasks) == Upcoming(Rewound(c.(tasks := c.tasks.Next(), threads := t)))
  {
    hide Listed, Rounds, Looks, NoDup, Refill;
    TakenSound(c, t);
    CursorParts(c.tasks);
    CurrentOnce(c.tasks);
    forall u: nat
      ensures ThreadsOf(c.lists[t := Cursor(c.lists[t].elems, 0)][t := Cursor([], 0)], u)
           == if u == t then [] else ThreadsOf(c.lists, u)
    {
      TakenLists(c.lists, t, u);
    }
    var l := c.lists[t].elems;
    assert l[0..] == l && l[..0] == [];
    RoundsNext(c.lists, c.lists[t := Cursor(l, 0)][t := Cursor([], 0)],
               c.tasks.elems[..c.tasks.curr], c.tasks.elems[c.tasks.curr..]);
  }

  // ------------------------------------------------------------ the walk

  /** The walk from `c` ends at `i`. */
  ghost predicate Ends(c: Config, kernel: nat, i: Stop) {
    Sound(c) && NextStop(c, kernel) == Some(i)
  }

  lemma FirstOne(c: Config, kernel: nat, i: Stop, ss: seq<Stop>)
    ensures FirstStop(c, kernel, [i] + ss) == if Stops(c, kernel, i) then Some(i) else FirstStop(c, kernel, ss)
  {
    assert ([i] + ss)[1..] == ss;
  }

  ghost function WithoutFirst(c: Config, tasks: Cursor<nat>): Config
    requires !tasks.IsEnd()
  {
    c.(tasks := tasks.Remove(), lists := c.lists - {tasks.Current()}, dirs := c.dirs - {tasks.Current()})
  }

  lemma DropSound(c: Config)
    requires Listed(c.tasks, c.lists, c.state, c.dirs) && !c.tasks.IsEnd()
    ensures var d := WithoutFirst(c, c.tasks);
      Listed(d.tasks, d.lists, d.state, d.dirs) && d.tasks.curr <= |d.tasks.elems| < |c.tasks.elems|
  {
    RemoveNoDup(c.tasks);
  }

  lemma NoTasks(c: Config, kernel: nat)
    requires c.tasks.elems == [] && c.tasks.curr == 0
    ensures FirstStop(c, kernel, TaskRounds(c.lists, c.tasks)) == None
  {
  }

  lemma InLists(c: Config)
    requires Listed(c.tasks, c.lists, c.state, c.dirs)
    ensures NoDup(c.tasks.elems)
    ensures !c.tasks.IsEnd() ==> c.tasks.Current() in c.lists && c.tasks.Current() in c.dirs
  {
  }

  /** The cursor never stands past the end here. */
  lemma WrapStops(c: Config, kernel: nat, i: Stop) returns (tasks: Cursor<nat>)
    requires Listed(c.tasks, c.lists, c.state, c.dirs) && c.tasks.curr <= |c.tasks.elems|
    requires FirstStop(c, kernel, TaskRounds(c.lists, c.tasks)) == Some(i)
    ensures tasks == (if c.tasks.IsEnd() then c.tasks.Rewind() else c.tasks) && !tasks.IsEnd()
    ensures FirstStop(c, kernel, TaskRounds(c.lists, tasks)) == Some(i)
    ensures Listed(tasks, c.lists, c.state, c.dirs)
  {
    hide TaskRounds, FirstStop, Stops;
    tasks := c.tasks;
    if c.tasks.IsEnd() {
      tasks := c.tasks.Rewind();
      var more := RoundsWrap(c.lists, c.tasks);
      StopInPrefix(c, kernel, TaskRounds(c.lists, c.tasks), more);
      if tasks.IsEnd() {
        NoTasks(c, kernel);
      }
    }
  }

  /** Choosing a task stays on the way to the same end, or comes to it. */
  lemma {:induction false} PickStops(c: Config, kernel: nat, i: Stop)
    requires Listed(c.tasks, c.lists, c.state, c.dirs) && c.tasks.curr <= |c.tasks.elems|
    requires FirstStop(c, kernel, TaskRounds(c.lists, c.tasks)) == Some(i)
    ensures PickNext(c, kernel).None? ==> i.Drop?
    ensures PickNext(c, kernel).Some? ==>
      var d := Rewound(PickNext(c, kernel).value);
      Ends(d, kernel, i) && d.state == c.state && !d.lists[d.threads].IsEnd()
    decreases |c.tasks.elems|
  {
    hide Listed, TaskRounds, FirstStop, NoDup, Stops, Ends;
    PickTurn(c, kernel);
    var tasks := WrapStops(c, kernel, i);
    var d := c.(tasks := tasks);
    InLists(d);
    StopsAlike(c, d, kernel, TaskRounds(d.lists, tasks));
    if c.lists[tasks.Current()].IsEmpty() {
      DropEnds(d, kernel, i);
      if c.dirs[tasks.Current()] != kernel {
        PickStops(WithoutFirst(d, tasks), kernel, i);
      }
    } else {
      TakeEnds(d, kernel, i, tasks.Current());
    }
  }

  lemma StopsAlike(c: Config, d: Config, kernel: nat, ss: seq<Stop>)
    requires c.state == d.state && c.dirs == d.dirs
    ensures FirstStop(c, kernel, ss) == FirstStop(d, kernel, ss)
  {
    SameStop(c, d, kernel, ss);
  }

  lemma DropEnds(c: Config, kernel: nat, i: Stop)
    requires Listed(c.tasks, c.lists, c.state, c.dirs) && !c.tasks.IsEnd()
    requires FirstStop(c, kernel, TaskRounds(c.lists, c.tasks)) == Some(i)
    requires c.tasks.Current() in c.lists && c.tasks.Current() in c.dirs && c.lists[c.tasks.Current()].elems == []
    ensures var d := WithoutFirst(c, c.tasks);
      if c.dirs[c.tasks.Current()] == kernel then i == Drop(c.tasks.Current())
      else Listed(d.tasks, d.lists, d.state, d.dirs) && d.tasks.curr <= |d.tasks.elems| < |c.tasks.elems|
           && FirstStop(d, kernel, TaskRounds(d.lists, d.tasks)) == Some(i)
  {
    hide Listed, TaskRounds, FirstStop, NoDup;
    var d, t := WithoutFirst(c, c.tasks), c.tasks.Current();
    InLists(c);
    DropStep(c.lists, c.tasks);
    DropSound(c);
    FirstOne(c, kernel, Drop(t), TaskRounds(d.lists, d.tasks));
    if c.dirs[t] != kernel {
      SameStop(c, d, kernel, TaskRounds(d.lists, d.tasks));
    }
  }

  lemma TakeEnds(c: Config, kernel: nat, i: Stop, t: nat)
    requires Listed(c.tasks, c.lists, c.state, c.dirs) && !c.tasks.IsEnd() && c.tasks.Current() == t
    requires t in c.lists && c.lists[t].elems != []
    requires FirstStop(c, kernel, TaskRounds(c.lists, c.tasks)) == Some(i)
    ensures var d := Rewound(c.(tasks := c.tasks.Next(), threads := t));
      Ends(d, kernel, i) && d.state == c.state && !d.lists[d.threads].IsEnd()
  {
    hide Listed, TaskRounds, Upcoming, FirstStop, NoDup;
    TakeStep(c, t);
    SameStop(c, Rewound(c.(tasks := c.tasks.Next(), threads := t)), kernel, TaskRounds(c.lists, c.tasks));
  }

  lemma EndsHere(c: Config, kernel: nat, i: Stop)
    requires Ends(c, kernel, i) && !c.lists[c.threads].IsEnd()
    ensures c.lists[c.threads].Current() in c.state
    ensures var x := c.lists[c.threads].Current();
      c.state[x] != Dying ==> i == Look(x)
  {
    InDirs(c.tasks, c.lists, c.state, c.dirs, c.threads);
    var l := c.lists[c.threads];
    assert Looks(l.elems[l.curr..])[0] == Look(l.Current());
    hide Listed, TaskRounds, Looks;
  }

  lemma EndsIn(c: Config, kernel: nat, i: Stop)
    requires Ends(c, kernel, i)
    ensures c.threads in c.lists
  {
  }

  /** Where the outer loop arrives is on the way to the same end. */
  lemma ArriveStops(c: Config, kernel: nat, i: Stop)
    requires Ends(c, kernel, i)
    ensures Arrive(c, kernel).None? ==> i.Drop?
    ensures Arrive(c, kernel).Some? ==>
      var a := Arrive(c, kernel).value;
      && Ends(a, kernel, i) && a.state == c.state && a.threads in a.lists && !a.lists[a.threads].IsEnd()
      && a.lists[a.threads].Current() in a.state
      && (a.state[a.lists[a.threads].Current()] != Dying ==> i == Look(a.lists[a.threads].Current()))
  {
    hide Listed, TaskRounds, FirstStop, Stops, PickNext, Ends;
    EndsIn(c, kernel, i);
    if c.threads in c.lists && !c.lists[c.threads].IsEnd() {
      EndsHere(c, kernel, i);
    } else {
      PassedStops(c, kernel, i);
      PickStops(Rewound(c), kernel, i);
      if PickNext(Rewound(c), kernel).Some? {
        EndsIn(Rewound(PickNext(Rewound(c), kernel).value), kernel, i);
        EndsHere(Rewound(PickNext(Rewound(c), kernel).value), kernel, i);
      }
    }
  }

  /** Of a list that has come to its end all threads are behind the cursor. */
  lemma PassedStops(c: Config, kernel: nat, i: Stop)
    requires Ends(c, kernel, i) && c.lists[c.threads].IsEnd()
    ensures var d := Rewound(c);
      && Listed(d.tasks, d.lists, d.state, d.dirs) && d.tasks.curr <= |d.tasks.elems|
      && FirstStop(d, kernel, TaskRounds(d.lists, d.tasks)) == Some(i)
  {
    hide Listed, TaskRounds, FirstStop, Stops, Looks;
    MoveCursor(c.lists, c.state, c.tasks, c.lists, c.state, c.dirs, c.threads, 0);
    PassedRounds(c);
    StopsAlike(c, Rewound(c), kernel, TaskRounds(Rewound(c).lists, c.tasks));
  }

  lemma PassedRounds(c: Config)
    requires Sound(c) && c.lists[c.threads].IsEnd()
    ensures Upcoming(c) == TaskRounds(Rewound(c).lists, c.tasks)
  {
    hide Listed, TaskRounds;
    var l := c.lists[c.threads];
    assert l.elems[l.curr..] == [] && l.elems[..l.curr] == l.elems;
  }

  /** So is what is left when a dying thread has gone. */
  lemma ReapStops(c: Config, kernel: nat, i: Stop, x: nat)
    requires Ends(c, kernel, i) && LooksAt(c, x, Dying)
    ensures Ends(Reap(c, x), kernel, i)
  {
    hide Listed, TaskRounds, FirstStop, Upcoming;
    ReapStep(c, x);
    FirstOne(c, kernel, Look(x), Upcoming(Reap(c, x)));
    SameStop(c, Reap(c, x), kernel, Upcoming(Reap(c, x)));
  }

  lemma {:induction false} LeadsStops(c: Config, kernel: nat, i: Stop, n: nat, d: Config, x: nat, s: ThreadState)
    requires Ends(c, kernel, i) && Leads(c, kernel, n, d) && LooksAt(d, x, s)
    ensures s != Dying ==> i == Look(x) && x in c.state && c.state[x] == s
    ensures s == Dying ==> Ends(Reap(d, x), kernel, i)
    decreases n
  {
    hide Ends, Arrive;
    ArriveStops(c, kernel, i);
    var a := Arrive(c, kernel).value;
    if n == 0 {
      if s == Dying {
        ReapStops(a, kernel, i, x);
      }
    } else {
      var y :| LooksAt(a, y, Dying) && Leads(Reap(a, y), kernel, n - 1, d);
      ReapStops(a, kernel, i, y);
      LeadsStops(Reap(a, y), kernel, i, n - 1, d, x, s);
    }
  }

  lemma StoppedHere(c: Config, kernel: nat, i: Stop)
    requires Ends(c, kernel, i)
    ensures Stops(c, kernel, i)
  {
    hide Listed, Upcoming;
    StopIs(c, kernel, Upcoming(c));
  }

  /** A thread that ends the walk is come to. */
  lemma {:induction false} Found(c: Config, kernel: nat, i: Stop) returns (n: nat, d: Config)
    requires Ends(c, kernel, i) && i.Look?
    ensures Leads(c, kernel, n, d) && i.thread in c.state && LooksAt(d, i.thread, c.state[i.thread])
    decreases c.state.Keys
  {
    hide Ends, Arrive;
    ArriveStops(c, kernel, i);
    var a := Arrive(c, kernel).value;
    var x := a.lists[a.threads].Current();
    n, d := 0, a;
    if a.state[x] == Dying {
      assert LooksAt(a, x, Dying);
      ReapStops(a, kernel, i, x);
      assert x in c.state.Keys && x !in Reap(a, x).state.Keys;
      n, d := Found(Reap(a, x), kernel, i);
      n := n + 1;
    }
  }

  /** The loops come to the reference directory, to be destroyed with a task without threads. */
  ghost predicate Fails(c: Config, kernel: nat) {
    exists e :: Passing(c, kernel, e) && Arrive(e, kernel).None?
  }

  lemma FailsThere(c: Config, kernel: nat, e: Config)
    requires Passing(c, kernel, e) && Arrive(e, kernel).None?
    ensures Fails(c, kernel)
  {
  }

  lemma {:induction false} Failed(c: Config, kernel: nat, i: Stop) returns (e: Config)
    requires Ends(c, kernel, i) && i.Drop?
    ensures Passing(c, kernel, e) && Arrive(e, kernel).None?
    decreases c.state.Keys
  {
    hide Ends, Arrive;
    ArriveStops(c, kernel, i);
    e := c;
    if Arrive(c, kernel).Some? {
      var a := Arrive(c, kernel).value;
      var x := a.lists[a.threads].Current();
      assert LooksAt(a, x, Dying);
      ReapStops(a, kernel, i, x);
      assert x in c.state.Keys && x !in Reap(a, x).state.Keys;
      e := Failed(Reap(a, x), kernel, i);
      PassedBefore(c, kernel, a, x, e);
    }
  }

  lemma PassedBefore(c: Config, kernel: nat, a: Config, x: nat, e: Config)
    requires Arrive(c, kernel) == Some(a) && LooksAt(a, x, Dying) && Passing(Reap(a, x), kernel, e)
    ensures Passing(c, kernel, e)
  {
    hide Arrive, Reap, LooksAt;
    if e == Reap(a, x) {
      assert Leads(c, kernel, 0, a);
    } else {
      var d, y :| Arrives(Reap(a, x), kernel, d) && LooksAt(d, y, Dying) && e == Reap(d, y);
      var n: nat :| Leads(Reap(a, x), kernel, n, d);
      assert Leads(c, kernel, n + 1, d);
    }
  }

  // ------------------------------------------------------------ what the order decides

  lemma StuckAt(c: Config, kernel: nat, i: Stop, e: Config, x: nat)
    requires Ends(c, kernel, i) && Stuck(c, kernel, e, x)
    ensures i == Look(x) && x in c.state && c.state[x] == Waiting
  {
    hide Ends, Leads, LooksAt;
    var n :| Leads(c, kernel, n, e);
    LeadsStops(c, kernel, i, n, e, x, Waiting);
  }

  lemma SettlesAt(c: Config, kernel: nat, i: Stop, e: Config, x: nat)
    requires Ends(c, kernel, i) && Settles(c, kernel, e, x)
    ensures i == Look(x) && x in c.state && c.state[x] == Running
  {
    hide Ends, Leads, LooksAt;
    var d :| Arrives(c, kernel, d) && LooksAt(d, x, Running) && e == SteppedOver(d);
    var n :| Leads(c, kernel, n, d);
    LeadsStops(c, kernel, i, n, d, x, Running);
  }

  lemma FailsAt(c: Config, kernel: nat, i: Stop)
    requires Ends(c, kernel, i) && Fails(c, kernel)
    ensures i.Drop?
  {
    hide Ends, Leads, LooksAt, Arrive, Reap;
    var e :| Passing(c, kernel, e) && Arrive(e, kernel).None?;
    if e != c {
      var d, x :| Arrives(c, kernel, d) && LooksAt(d, x, Dying) && e == Reap(d, x);
      var n :| Leads(c, kernel, n, d);
      LeadsStops(c, kernel, i, n, d, x, Dying);
    }
    ArriveStops(e, kernel, i);
  }

  /**
    The state, before the call, of the first thread in the order that is not dying decides:
    if it waits the call hangs, if it runs it is switched to; and the call panics if the
    reference directory comes before.
  */
  lemma OrderDecides(c: Config, kernel: nat, i: Stop)
    requires Ends(c, kernel, i)
    ensures (exists e, x :: Stuck(c, kernel, e, x))
       <==> i.Look? && i.thread in c.state && c.state[i.thread] == Waiting
    ensures (exists e, x :: Settles(c, kernel, e, x))
       <==> i.Look? && i.thread in c.state && c.state[i.thread] == Running
    ensures Fails(c, kernel) <==> i.Drop?
  {
    StoppedHere(c, kernel, i);
    hide Ends, Leads, LooksAt, Arrive, Passing, Stuck, Settles;
    if e, x :| Stuck(c, kernel, e, x) {
      StuckAt(c, kernel, i, e, x);
    }
    if e, x :| Settles(c, kernel, e, x) {
      SettlesAt(c, kernel, i, e, x);
    }
    if Fails(c, kernel) {
      FailsAt(c, kernel, i);
    }
    if i.Look? {
      var n, d := Found(c, kernel, i);
      FoundDecides(c, kernel, n, d, i.thread);
    } else {
      var e := Failed(c, kernel, i);
    }
  }

  lemma FoundDecides(c: Config, kernel: nat, n: nat, d: Config, x: nat)
    requires Leads(c, kernel, n, d) && x in c.state && LooksAt(d, x, c.state[x])
    ensures c.state[x] == Waiting ==> Stuck(c, kernel, d, x)
    ensures c.state[x] == Running ==> Settles(c, kernel, SteppedOver(d), x)
  {
    hide Leads, LooksAt, SteppedOver;
    assert Arrives(c, kernel, d);
  }

  // ------------------------------------------------------------ that it always ends

  lemma {:induction false} LapHas(lists: ThreadLists, ts: seq<nat>, t: nat, x: nat)
    requires t in ts && x in ThreadsOf(lists, t)
    ensures Look(x) in Lap(lists, ts)
    decreases |ts|
  {
    hide ThreadsOf, Refill, Looks;
    RefillIn(ts);
    if ThreadsOf(lists, ts[0]) == [] {
      LapHas(lists, Refill(ts), t, x);
    } else if t == ts[0] {
      LooksHas(ThreadsOf(lists, t), x);
    } else {
      LapHas(lists, ts[1..], t, x);
    }
  }

  lemma LooksHas(es: seq<nat>, x: nat)
    requires x in es
    ensures Look(x) in Looks(es)
  {
    var j :| 0 <= j < |es| && es[j] == x;
    assert Looks(es)[if j == 0 then 0 else |es| - j] == Look(x);
  }

  /** Every listed thread comes up. */
  lemma RoundsHave(lists: ThreadLists, front: seq<nat>, rest: seq<nat>, t: nat, x: nat)
    requires (t in front || t in rest) && (t in front ==> t !in rest) && x in ThreadsOf(lists, t)
    ensures Look(x) in Rounds(lists, front, rest)
  {
    hide Lap, Kept, Looks;
    if t in rest {
      LapHas(lists, rest, t, x);
    } else {
      KeptIn(lists, rest);
      LapHas(Emptied(lists, Kept(lists, rest)), front + Kept(lists, rest), t, x);
    }
  }

  lemma UpcomingHas(c: Config, t: nat, x: nat)
    requires Sound(c) && t in c.lists && x in c.lists[t].elems
    ensures Look(x) in Upcoming(c)
  {
    var l, es, k := c.lists[c.threads], c.tasks.elems, c.tasks.curr;
    assert t in es && NoDup(es) && es == es[..k] + es[k..];
    hide Listed, Rounds, Looks;
    var lists' := c.lists[c.threads := Cursor(l.elems[..l.curr], 0)];
    if t == c.threads && x !in l.elems[..l.curr] {
      assert l.elems == l.elems[..l.curr] + l.elems[l.curr..];
      LooksHas(l.elems[l.curr..], x);
    } else {
      assert x in ThreadsOf(lists', t);
      RoundsHave(lists', es[..k], es[k..], t, x);
    }
  }

  /** As long as some listed thread is not dying there is an end. */
  lemma EndsSomewhere(c: Config, kernel: nat)
    requires Sound(c) && AnyLive(c.lists, c.state)
    ensures NextStop(c, kernel).Some? && Ends(c, kernel, NextStop(c, kernel).value)
  {
    hide Listed, Upcoming;
    var t, x :| t in c.lists && x in c.lists[t].elems && x in c.state && c.state[x] != Dying;
    UpcomingHas(c, t, x);
    var j :| 0 <= j < |Upcoming(c)| && Upcoming(c)[j] == Look(x);
    StopFound(c, kernel, Upcoming(c), j);
  }

  // ------------------------------------------------------------ which thread it is

  ghost predicate Lives(state: States, x: nat) {
    x in state && state[x] != Dying
  }

  /** Of the threads `es`, at and ahead of the cursor: the first if it lives, else the last that lives. */
  ghost predicate FirstUp(state: States, es: seq<nat>, j: nat) {
    && j < |es| && Lives(state, es[j])
    && (j == 0 || (!Lives(state, es[0]) && forall m | j < m < |es| :: !Lives(state, es[m])))
  }

  lemma {:induction false} FirstOfMany(c: Config, kernel: nat, ss: seq<Stop>, k: nat)
    requires k < |ss| && Stops(c, kernel, ss[k]) && forall m | 0 <= m < k :: !Stops(c, kernel, ss[m])
    ensures FirstStop(c, kernel, ss) == Some(ss[k])
    decreases k
  {
    if k > 0 {
      FirstOfMany(c, kernel, ss[1..], k - 1);
    }
  }

  lemma {:induction false} NoneOfMany(c: Config, kernel: nat, ss: seq<Stop>)
    requires forall m | 0 <= m < |ss| :: !Stops(c, kernel, ss[m])
    ensures FirstStop(c, kernel, ss) == None
    decreases |ss|
  {
    if ss != [] {
      NoneOfMany(c, kernel, ss[1..]);
    }
  }

  lemma ListStops(c: Config, kernel: nat, es: seq<nat>, j: nat, more: seq<Stop>)
    requires FirstUp(c.state, es, j)
    ensures FirstStop(c, kernel, Looks(es) + more) == Some(Look(es[j]))
  {
    FirstOfMany(c, kernel, Looks(es), if j == 0 then 0 else |es| - j);
    StopInPrefix(c, kernel, Looks(es), more);
  }

  lemma ListPasses(c: Config, kernel: nat, es: seq<nat>, more: seq<Stop>)
    requires forall j | 0 <= j < |es| :: !Lives(c.state, es[j])
    ensures FirstStop(c, kernel, Looks(es) + more) == FirstStop(c, kernel, more)
  {
    NoneOfMany(c, kernel, Looks(es));
    StopInPrefix(c, kernel, Looks(es), more);
  }

  /** While the current list has a thread left to stop at, that one decides. */
  lemma ThisList(c: Config, kernel: nat, j: nat)
    requires Sound(c)
    requires var l := c.lists[c.threads]; FirstUp(c.state, l.elems[l.curr..], j)
    ensures var l := c.lists[c.threads];
      && Ends(c, kernel, Look(l.elems[l.curr + j]))
      && ((exists e, x :: Stuck(c, kernel, e, x)) <==> c.state[l.elems[l.curr + j]] == Waiting)
  {
    hide Listed, TaskRounds, FirstStop, Looks, Stuck, Settles, Fails;
    var l := c.lists[c.threads];
    ListStops(c, kernel, l.elems[l.curr..], j,
              TaskRounds(c.lists[c.threads := Cursor(l.elems[..l.curr], 0)], c.tasks));
    OrderDecides(c, kernel, Look(l.elems[l.curr + j]));
  }

  /** Tasks whose threads are all dying are passed by. */
  lemma {:induction false} LapPasses(c: Config, kernel: nat, lists: ThreadLists, ts: seq<nat>, n: nat, more: seq<Stop>)
    requires n <= |ts|
    requires forall m | 0 <= m < n :: ThreadsOf(lists, ts[m]) != []
    requires forall m, x | 0 <= m < n && x in ThreadsOf(lists, ts[m]) :: !Lives(c.state, x)
    ensures FirstStop(c, kernel, Lap(lists, ts) + more) == FirstStop(c, kernel, Lap(lists, ts[n..]) + more)
    decreases n
  {
    hide ThreadsOf, Looks, FirstStop, Refill, Lives;
    if n == 0 {
      assert ts[0..] == ts;
    } else {
      LapPasses(c, kernel, lists, ts[1..], n - 1, more);
      assert ts[1..][n - 1..] == ts[n..];
      var es := ThreadsOf(lists, ts[0]);
      assert Lap(lists, ts) + more == Looks(es) + (Lap(lists, ts[1..]) + more);
      ListPasses(c, kernel, es, Lap(lists, ts[1..]) + more);
    }
  }

  lemma HeadStops(c: Config, kernel: nat, lists: ThreadLists, ts: seq<nat>, j: nat, more: seq<Stop>)
    requires ts != [] && FirstUp(c.state, ThreadsOf(lists, ts[0]), j)
    ensures FirstStop(c, kernel, Lap(lists, ts) + more) == Some(Look(ThreadsOf(lists, ts[0])[j]))
  {
    hide ThreadsOf, Looks, FirstStop, Refill;
    var es := ThreadsOf(lists, ts[0]);
    assert es != [];
    assert Lap(lists, ts) + more == Looks(es) + (Lap(lists, ts[1..]) + more);
    ListStops(c, kernel, es, j, Lap(lists, ts[1..]) + more);
  }

  lemma RoundsStop(c: Config, kernel: nat, lists: ThreadLists, front: seq<nat>, rest: seq<nat>, n: nat, j: nat)
    requires n < |rest| && FirstUp(c.state, ThreadsOf(lists, rest[n]), j)
    requires forall m | 0 <= m < n :: ThreadsOf(lists, rest[m]) != []
    requires forall m, x | 0 <= m < n && x in ThreadsOf(lists, rest[m]) :: !Lives(c.state, x)
    ensures FirstStop(c, kernel, Rounds(lists, front, rest)) == Some(Look(ThreadsOf(lists, rest[n])[j]))
  {
    hide ThreadsOf, Looks, FirstStop, Lives, Lap, Kept, FirstUp, Emptied;
    var more := Lap(Emptied(lists, Kept(lists, rest)), front + Kept(lists, rest));
    LapPasses(c, kernel, lists, rest, n, more);
    HeadStops(c, kernel, lists, rest[n..], j, more);
  }

  lemma UpcomingPasses(c: Config, kernel: nat)
    requires Sound(c)
    requires var l := c.lists[c.threads]; forall m | l.curr <= m < |l.elems| :: !Lives(c.state, l.elems[m])
    ensures var l := c.lists[c.threads];
      NextStop(c, kernel)
      == FirstStop(c, kernel, TaskRounds(c.lists[c.threads := Cursor(l.elems[..l.curr], 0)], c.tasks))
  {
    hide Listed, FirstStop, Looks, Lives, TaskRounds;
    var l := c.lists[c.threads];
    ListPasses(c, kernel, l.elems[l.curr..],
               TaskRounds(c.lists[c.threads := Cursor(l.elems[..l.curr], 0)], c.tasks));
  }

  /**
    Else it is a thread of the first task ahead of the task cursor that has one: the rest of
    the current list and the tasks before it are dying throughout.
  */
  lemma LaterTask(c: Config, kernel: nat, i: nat, j: nat)
    requires Sound(c) && c.tasks.curr <= i < |c.tasks.elems|
    requires var l := c.lists[c.threads]; forall m | l.curr <= m < |l.elems| :: !Lives(c.state, l.elems[m])
    requires forall m | c.tasks.curr <= m <= i :: c.tasks.elems[m] in c.lists && c.tasks.elems[m] != c.threads
    requires forall m | c.tasks.curr <= m < i :: c.lists[c.tasks.elems[m]].elems != []
    requires forall m, x | c.tasks.curr <= m < i && x in c.lists[c.tasks.elems[m]].elems :: !Lives(c.state, x)
    requires FirstUp(c.state, c.lists[c.tasks.elems[i]].elems, j)
    ensures var y := c.lists[c.tasks.elems[i]].elems[j];
      Ends(c, kernel, Look(y)) && ((exists e, x :: Stuck(c, kernel, e, x)) <==> c.state[y] == Waiting)
  {
    hide Listed, FirstStop, Stuck, Settles, Fails, Rounds, Upcoming;
    var l, k, rest := c.lists[c.threads], c.tasks.curr, c.tasks.elems[c.tasks.curr..];
    var lists' := c.lists[c.threads := Cursor(l.elems[..l.curr], 0)];
    UpcomingPasses(c, kernel);
    forall m | 0 <= m <= i - k ensures ThreadsOf(lists', rest[m]) == c.lists[c.tasks.elems[k + m]].elems {
      assert rest[m] == c.tasks.elems[k + m];
    }
    RoundsStop(c, kernel, lists', c.tasks.elems[..k], rest, i - k, j);
    OrderDecides(c, kernel, Look(c.lists[c.tasks.elems[i]].elems[j]));
  }

  // ------------------------------------------------------------ what is added

  /** A thread added to a list comes up right after the one at the cursor. */
  lemma AddedThread(es: seq<nat>, x: nat)
    ensures Looks(es + [x]) == if es == [] then [Look(x)] else [Look(es[0]), Look(x)] + Looks(es)[1..]
  {
    if es != [] {
      assert (es + [x])[1..] == es[1..] + [x];
      assert (es[1..] + [x])[..|es| - 1] == es[1..];
    }
  }

  /**
    A task added with one thread takes the place of the first task without threads among those
    ahead of the task cursor, `ts[k]`; if there is none, it comes up after all of them.
  */
  lemma {:induction false} LapAdded(lists: ThreadLists, ts: seq<nat>, k: nat, t: nat, x: nat)
    requires k <= |ts| && ThreadsOf(lists, t) == [x]
    requires forall m | 0 <= m < k :: ThreadsOf(lists, ts[m]) != []
    requires k < |ts| ==> ThreadsOf(lists, ts[k]) == []
    ensures Lap(lists, ts + [t])
         == Lap(lists, ts[..k])
            + if k == |ts| then [Look(x)] else [Drop(ts[k]), Look(x)] + Lap(lists, ts[k + 1..])
    decreases k
  {
    hide ThreadsOf, Looks, Lap;
    NoLap(lists);
    LooksOne(x);
    if ts == [] {
      assert ts + [t] == [t] && [t][1..] == [];
      LapTakes(lists, [t]);
    } else if k == 0 {
      LapDrops(lists, ts + [t]);
      assert Refill(ts + [t]) == [t] + ts[1..] && ([t] + ts[1..])[1..] == ts[1..];
      LapTakes(lists, [t] + ts[1..]);
    } else {
      LapAdded(lists, ts[1..], k - 1, t, x);
      LapTakes(lists, ts + [t]);
      LapTakes(lists, ts[..k]);
      assert (ts + [t])[1..] == ts[1..] + [t] && ts[..k][1..] == ts[1..][..k - 1];
      var a, b := Looks(ThreadsOf(lists, ts[0])), Lap(lists, ts[1..][..k - 1]);
      if k == |ts| {
        assert a + (b + [Look(x)]) == a + b + [Look(x)];
      } else {
        assert ts[1..][k..] == ts[k + 1..];
        var c := [Drop(ts[k]), Look(x)] + Lap(lists, ts[k + 1..]);
        assert a + (b + c) == a + b + c;
      }
    }
  }

  /** So it comes up last if and only if no task ahead, but perhaps the last of them, is without threads. */
  lemma ComesLast(lists: ThreadLists, ts: seq<nat>, k: nat, t: nat, x: nat)
    requires k <= |ts| && ThreadsOf(lists, t) == [x]
    requires forall m | 0 <= m < k :: ThreadsOf(lists, ts[m]) != []
    requires k < |ts| ==> ThreadsOf(lists, ts[k]) == []
    requires forall u | u in ts :: x !in ThreadsOf(lists, u)
    ensures var lap := Lap(lists, ts + [t]);
      lap != [] && (lap[|lap| - 1] == Look(x) <==> k >= |ts| - 1)
  {
    hide ThreadsOf, Looks, Lap;
    LapAdded(lists, ts, k, t, x);
    NoLap(lists);
    if k < |ts| - 1 {
      var rest := ts[k + 1..];
      LapSome(lists, rest);
      LapOnly(lists, rest);
      var lap := Lap(lists, rest);
      assert lap[|lap| - 1] in lap && forall u | u in rest :: u in ts;
    } else if k < |ts| {
      assert ts[k + 1..] == [];
    }
  }

  lemma LapSome(lists: ThreadLists, ts: seq<nat>)
    requires ts != []
    ensures Lap(lists, ts) != []
  {
    hide Refill, Looks;
  }

  /** Behind an empty task `e` the task added overtakes `b`, which was ahead of the cursor before it came. */
  lemma Overtakes(lists: ThreadLists, e: nat, b: nat, t: nat, x: nat, y: nat)
    requires ThreadsOf(lists, e) == [] && ThreadsOf(lists, b) == [y] && ThreadsOf(lists, t) == [x]
    ensures Lap(lists, [e, b] + [t]) == [Drop(e), Look(x), Look(y)]
  {
    hide ThreadsOf, Looks;
    LapAdded(lists, [e, b], 0, t, x);
    LooksOne(y);
    assert [e, b][1..] == [b] && [b][1..] == [] && [e, b][..0] == [];
  }

  lemma NoLap(lists: ThreadLists)
    ensures Lap(lists, []) == []
  {
  }

  lemma LooksOne(x: nat)
    ensures Looks([x]) == [Look(x)]
  {
  }

  /** What stays as it was in front of that place. */
  lemma {:induction false} LapBefore(lists: ThreadLists, ts: seq<nat>, k: nat) returns (more: seq<Stop>)
    requires k <= |ts| && forall m | 0 <= m < k :: ThreadsOf(lists, ts[m]) != []
    ensures Lap(lists, ts) == Lap(lists, ts[..k]) + more
    decreases k
  {
    hide ThreadsOf, Looks;
    if k == 0 {
      more := Lap(lists, ts);
    } else {
      assert ts[..k][1..] == ts[1..][..k - 1];
      more := LapBefore(lists, ts[1..], k - 1);
      LapTakes(lists, ts);
      LapTakes(lists, ts[..k]);
    }
  }

  /** Only threads of the tasks gone through are looked at, and only those tasks are destroyed. */
  lemma {:induction false} LapOnly(lists: ThreadLists, ts: seq<nat>)
    ensures forall i | i in Lap(lists, ts) ::
      if i.Look? then exists t :: t in ts && i.thread in ThreadsOf(lists, t) else i.task in ts
    decreases |ts|
  {
    hide ThreadsOf, Refill, Looks;
    if ts != [] {
      RefillIn(ts);
      if ThreadsOf(lists, ts[0]) == [] {
        LapOnly(lists, Refill(ts));
      } else {
        LapOnly(lists, ts[1..]);
        LooksOnly(ThreadsOf(lists, ts[0]));
      }
    }
  }

  lemma LooksOnly(es: seq<nat>)
    ensures forall i | i in Looks(es) :: i.Look? && i.thread in es
  {
  }

  lemma {:induction false} SameStopIn(c: Config, d: Config, kernel: nat, ss: seq<Stop>)
    requires forall i | i in ss :: Stops(c, kernel, i) <==> Stops(d, kernel, i)
    ensures FirstStop(c, kernel, ss) == FirstStop(d, kernel, ss)
    decreases |ss|
  {
    if ss != [] {
      SameStopIn(c, d, kernel, ss[1..]);
    }
  }

  /** schedule_add_task of a task `t` with thread `x` and directory `dir`. */
  ghost function WithTask(c: Config, t: nat, x: nat, dir: nat): Config {
    Config(Cursor(c.tasks.elems + [t], c.tasks.curr), c.lists[t := Cursor([x], 0)], c.state[x := Running],
           c.dirs[t := dir], c.threads)
  }

  ghost predicate NewTask(c: Config, t: nat, x: nat, dir: nat) {
    t !in c.lists && x !in c.state && forall u | u in c.dirs :: c.dirs[u] != dir
  }

  /** The lists as they are when the cursor leaves the current one. */
  ghost function Left(c: Config): ThreadLists
    requires Sound(c)
  {
    c.lists[c.threads := Cursor(c.lists[c.threads].elems[..c.lists[c.threads].curr], 0)]
  }

  /** What comes up before the first task without threads, the one at place `k` ahead of the task cursor. */
  ghost function Before(c: Config, k: nat): seq<Stop>
    requires Sound(c) && k <= |c.tasks.elems| - c.tasks.curr
  {
    var l := c.lists[c.threads];
    Looks(l.elems[l.curr..]) + Lap(Left(c), c.tasks.elems[c.tasks.curr..][..k])
  }

  lemma AddedSound(c: Config, t: nat, x: nat, dir: nat)
    requires Sound(c) && NewTask(c, t, x, dir)
    ensures Sound(WithTask(c, t, x, dir)) && t != c.threads && t !in c.tasks.elems
    ensures forall u, y | u in c.lists && y in c.lists[u].elems :: y in c.state && y != x
  {
    AddTask(c.tasks, c.lists, c.state, c.dirs, t, x, dir);
    hide NoDup;
  }

  lemma BeforeListed(c: Config, k: nat, y: nat)
    requires Sound(c) && k <= |c.tasks.elems| - c.tasks.curr && Look(y) in Before(c, k)
    ensures exists u :: u in c.lists && y in c.lists[u].elems
  {
    hide Listed, Looks;
    var l, ts := c.lists[c.threads], c.tasks.elems[c.tasks.curr..][..k];
    LapOnly(Left(c), ts);
    LooksOnly(l.elems[l.curr..]);
    if Look(y) in Looks(l.elems[l.curr..]) {
      assert y in l.elems;
    } else {
      var u :| u in ts && y in ThreadsOf(Left(c), u);
      assert u in c.lists && y in c.lists[u].elems;
    }
  }

  lemma BeforeDrops(c: Config, k: nat)
    requires Sound(c) && k <= |c.tasks.elems| - c.tasks.curr
    ensures forall i | i in Before(c, k) && i.Drop? :: i.task in c.tasks.elems
  {
    hide Listed, Looks, Lap;
    LapOnly(Left(c), c.tasks.elems[c.tasks.curr..][..k]);
    LooksOnly(c.lists[c.threads].elems[c.lists[c.threads].curr..]);
  }

  lemma AddedSame(c: Config, t: nat, x: nat, dir: nat, k: nat)
    requires Sound(c) && NewTask(c, t, x, dir) && k <= |c.tasks.elems| - c.tasks.curr
    ensures var d := WithTask(c, t, x, dir); Sound(d) && Before(d, k) == Before(c, k)
  {
    hide Listed, Looks, Lap;
    AddedSound(c, t, x, dir);
    var d, ts := WithTask(c, t, x, dir), c.tasks.elems[c.tasks.curr..][..k];
    assert d.tasks.elems[d.tasks.curr..][..k] == ts;
    assert forall u | u in ts :: u in c.tasks.elems;
    SameLap(Left(c), Left(d), ts);
  }

  /** What comes up before is stopped by the same. */
  lemma AddedBefore(c: Config, t: nat, x: nat, dir: nat, kernel: nat, k: nat)
    requires Sound(c) && NewTask(c, t, x, dir) && k <= |c.tasks.elems| - c.tasks.curr
    ensures FirstStop(WithTask(c, t, x, dir), kernel, Before(c, k)) == FirstStop(c, kernel, Before(c, k))
  {
    hide Listed, Before;
    AddedSound(c, t, x, dir);
    BeforeDrops(c, k);
    forall i | i in Before(c, k) ensures Stops(WithTask(c, t, x, dir), kernel, i) <==> Stops(c, kernel, i) {
      if i.Look? {
        BeforeListed(c, k, i.thread);
      }
    }
    SameStopIn(c, WithTask(c, t, x, dir), kernel, Before(c, k));
  }

  /** The tasks ahead of the cursor before place `k` have threads, and the one there, if any, has none. */
  ghost predicate FirstEmpty(c: Config, k: nat)
    requires Sound(c)
  {
    var ts := c.tasks.elems[c.tasks.curr..];
    && k <= |ts| && (forall m | 0 <= m < k :: ThreadsOf(Left(c), ts[m]) != [])
    && (k < |ts| ==> ThreadsOf(Left(c), ts[k]) == [])
  }

  lemma BeforeComesUp(c: Config, k: nat) returns (more: seq<Stop>)
    requires Sound(c) && FirstEmpty(c, k)
    ensures Upcoming(c) == Before(c, k) + more
  {
    hide Listed, Looks, Lap, ThreadsOf, Kept, Emptied;
    var ts := c.tasks.elems[c.tasks.curr..];
    var l := c.lists[c.threads];
    more := LapBefore(Left(c), ts, k);
    var again := Lap(Emptied(Left(c), Kept(Left(c), ts)), c.tasks.elems[..c.tasks.curr] + Kept(Left(c), ts));
    assert Looks(l.elems[l.curr..]) + (Lap(Left(c), ts[..k]) + more + again)
        == Looks(l.elems[l.curr..]) + Lap(Left(c), ts[..k]) + (more + again);
    more := more + again;
  }

  /** Of the new lists the added task comes up where the first task without threads does, else behind all. */
  lemma AddedComesUp(c: Config, t: nat, x: nat, dir: nat, k: nat) returns (more: seq<Stop>)
    requires Sound(c) && NewTask(c, t, x, dir) && FirstEmpty(c, k) && Sound(WithTask(c, t, x, dir))
    ensures var ts := c.tasks.elems[c.tasks.curr..];
      Upcoming(WithTask(c, t, x, dir))
      == Before(c, k) + (if k == |ts| then [Look(x)] else [Drop(ts[k]), Look(x)]) + more
  {
    hide Listed, Looks, Lap, ThreadsOf, Kept, Emptied;
    AddedSame(c, t, x, dir, k);
    AddedRest(c, t, x, dir, k);
    var d, ts := WithTask(c, t, x, dir), c.tasks.elems[c.tasks.curr..];
    var l, us := d.lists[d.threads], ts + [t];
    assert d.tasks.elems[d.tasks.curr..] == us;
    assert us[..k] == ts[..k];
    LapAdded(Left(d), ts, k, t, x);
    var again := Lap(Emptied(Left(d), Kept(Left(d), us)), d.tasks.elems[..d.tasks.curr] + Kept(Left(d), us));
    var mid := if k == |ts| then [Look(x)] else [Drop(ts[k]), Look(x)];
    var tail := if k == |ts| then [] else Lap(Left(d), ts[k + 1..]);
    assert Lap(Left(d), us) == Lap(Left(d), ts[..k]) + mid + tail;
    more := tail + again;
    assert Looks(l.elems[l.curr..]) + (Lap(Left(d), ts[..k]) + mid + tail + again)
        == Looks(l.elems[l.curr..]) + Lap(Left(d), ts[..k]) + mid + more;
  }

  lemma AddedRest(c: Config, t: nat, x: nat, dir: nat, k: nat)
    requires Sound(c) && NewTask(c, t, x, dir) && FirstEmpty(c, k) && Sound(WithTask(c, t, x, dir))
    ensures var d, ts := WithTask(c, t, x, dir), c.tasks.elems[c.tasks.curr..];
      && k <= |ts| && ThreadsOf(Left(d), t) == [x]
      && (forall m | 0 <= m < k :: ThreadsOf(Left(d), ts[m]) != [])
      && (k < |ts| ==> ThreadsOf(Left(d), ts[k]) == [])
  {
    AddedSound(c, t, x, dir);
    hide Listed;
    assert forall u | u in c.tasks.elems[c.tasks.curr..] :: u in c.tasks.elems;
  }

  lemma MidStops(d: Config, kernel: nat, a: seq<Stop>, x: nat, u: Option<nat>, more: seq<Stop>)
    requires x in d.state && d.state[x] != Dying
    ensures FirstStop(d, kernel, a + (if u.None? then [Look(x)] else [Drop(u.value), Look(x)]) + more)
         == if FirstStop(d, kernel, a).Some? then FirstStop(d, kernel, a)
            else Some(if u.Some? && u.value in d.dirs && d.dirs[u.value] == kernel then Drop(u.value) else Look(x))
  {
    var mid := if u.None? then [Look(x)] else [Drop(u.value), Look(x)];
    FirstOfMany(d, kernel, mid, if u.None? || Stops(d, kernel, mid[0]) then 0 else 1);
    hide FirstStop, Stops;
    StopInPrefix(d, kernel, mid, more);
    StopInPrefix(d, kernel, a, mid + more);
    assert a + mid + more == a + (mid + more);
  }

  lemma AddedDirs(c: Config, t: nat, x: nat, dir: nat, u: nat)
    requires Sound(c) && NewTask(c, t, x, dir) && u in c.tasks.elems
    ensures u in c.dirs && u in WithTask(c, t, x, dir).dirs && WithTask(c, t, x, dir).dirs[u] == c.dirs[u]
  {
  }

  /**
    Adding a task changes nothing for what comes up before that place: what stopped the walk there
    still does.  If nothing did, the thread added is next, unless the task whose place it takes
    has the reference directory.
  */
  lemma AddedTask(c: Config, t: nat, x: nat, dir: nat, kernel: nat, k: nat)
    requires Sound(c) && NewTask(c, t, x, dir) && FirstEmpty(c, k)
    ensures Sound(WithTask(c, t, x, dir))
    ensures var first := FirstStop(c, kernel, Before(c, k));
      if first.Some? then NextStop(c, kernel) == NextStop(WithTask(c, t, x, dir), kernel) == first
      else
        var ts := c.tasks.elems[c.tasks.curr..];
        NextStop(WithTask(c, t, x, dir), kernel)
        == Some(if k < |ts| && ts[k] in c.dirs && c.dirs[ts[k]] == kernel then Drop(ts[k]) else Look(x))
  {
    assert k <= |c.tasks.elems[c.tasks.curr..]|;
    AddedSound(c, t, x, dir);
    hide Listed, Before, Upcoming, Sound, FirstStop, WithTask, FirstEmpty, NewTask;
    var d, ts := WithTask(c, t, x, dir), c.tasks.elems[c.tasks.curr..];
    var more := BeforeComesUp(c, k);
    StopInPrefix(c, kernel, Before(c, k), more);
    var more' := AddedComesUp(c, t, x, dir, k);
    AddedBefore(c, t, x, dir, kernel, k);
    var u: Option<nat> := None;
    if k < |ts| {
      u := Some(ts[k]);
      AddedDirs(c, t, x, dir, ts[k]);
    }
    AddedRuns(c, t, x, dir);
    MidStops(d, kernel, Before(c, k), x, u, more');
  }

  lemma AddedRuns(c: Config, t: nat, x: nat, dir: nat)
    ensures x in WithTask(c, t, x, dir).state && WithTask(c, t, x, dir).state[x] == Running
  {
  }

  /** A task with threads `c`, `w` and `r`: `c` has had its turn, `w` waits and `r` runs. */
  ghost function HungTask(t: nat, c: nat, w: nat, r: nat, dir: nat): Config {
    var state := map[c := Running, w := Waiting, r := Running];
    Config(Cursor([t], 1), map[t := Cursor([c, w, r], 1)], state, map[t := dir], t)
  }

  /** The call hangs on `w`, though `r` could run, and so could `c`. */
  lemma HangsAnyway(t: nat, c: nat, w: nat, r: nat, dir: nat, kernel: nat)
    requires c != w && w != r && r != c
    ensures var s := HungTask(t, c, w, r, dir);
      && Sound(s) && r in s.lists[t].elems && s.state[r] == Running
      && (exists e, x :: Stuck(s, kernel, e, x)) && !(exists e, x :: Settles(s, kernel, e, x))
  {
    var s := HungTask(t, c, w, r, dir);
    assert [c, w, r][1..] == [w, r];
    assert Sound(s) && FirstUp(s.state, [w, r], 0);
    hide Sound, Stuck, Settles, Fails, FirstUp, Ends;
    ThisList(s, kernel, 0);
    OrderDecides(s, kernel, Look(w));
  }
}
