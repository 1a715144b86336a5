/**
  The loops of schedule (sched.c) on values: what one turn of either loop does to the
  lists, what every turn keeps, and where a run of turns ends.

  Tasks and threads are named by their addresses.  `lists` holds the thread list of
  every task there is, `state` the state of every thread there is; destroying one
  removes its name.
*/
module Turns {
  import opened Basics
  import opened Lists

  datatype ThreadState = Running | Waiting | Dying

  /** What a call of schedule ends in.  `Spinning`: the loop repeats on a waiting thread for ever. */
  datatype Outcome =
    | Resumed                                        // the running thread goes on
    | Switched(thread: nat, task: Option<nat>)       // switch_context(thread, task)
    | Spinning(thread: nat)
    | Panicked                                       // destroying the reference directory

  type ThreadLists = map<nat, Cursor<nat>>
  type States = map<nat, ThreadState>
  type Dirs = map<nat, nat>

  ghost predicate Listed(tasks: Cursor<nat>, lists: ThreadLists, state: States, dirs: Dirs) {
    && NoDup(tasks.elems)
    && (forall t :: t in lists <==> t in tasks.elems)
    && (forall t :: t in dirs <==> t in tasks.elems)
    && (forall t, u | t in dirs && u in dirs && t != u :: dirs[t] != dirs[u])
    && (forall t | t in lists :: NoDup(lists[t].elems))
    && (forall t, x | t in lists && x in lists[t].elems :: x in state)
    && (forall t, u, x | t in lists && u in lists && t != u && x in lists[t].elems :: x !in lists[u].elems)
  }

  /** The task cursor stands just behind task `t` (or at the start, on `t`, before the first round). */
  ghost predicate Behind(tasks: Cursor<nat>, t: nat) {
    && tasks.curr <= |tasks.elems| && tasks.elems != []
    && (if tasks.curr == 0 then tasks.elems[0] == t else tasks.elems[tasks.curr - 1] == t)
  }

  /**
    Why the running task `c` is never destroyed: some task `r` with a live thread is still
    ahead of the cursor, or `c` lies behind the cursor and has not come round yet.
  */
  ghost predicate OnTrack(tasks: Cursor<nat>, r: nat, c: nat, picked: bool) {
    && tasks.curr <= |tasks.elems|
    && (r in tasks.elems[tasks.curr..] || (!picked && c in tasks.elems[..tasks.curr]))
    && (picked ==> c in tasks.elems[..tasks.curr])
  }

  /** Only dying threads and tasks left without threads have gone; nothing else has changed. */
  ghost predicate Reaped(lists0: ThreadLists, state0: States, lists: ThreadLists, state: States) {
    && (forall t | t in lists :: t in lists0 && forall x | x in lists[t].elems :: x in lists0[t].elems)
    && (forall t, x | t in lists0 && x in lists0[t].elems && x in state0 && state0[x] != Dying ::
         t in lists && x in lists[t].elems)
    && (forall x | x in state :: x in state0 && state[x] == state0[x])
    && (forall x | x in state0 && x !in state :: state0[x] == Dying)
  }

  /** `y` is a listed thread that waits. */
  ghost predicate Waits(lists: ThreadLists, state: States, y: nat) {
    y in state && state[y] == Waiting && exists t :: t in lists && y in lists[t].elems
  }

  /** The task of directory `k` has no thread that is not dying. */
  ghost predicate Orphaned(lists: ThreadLists, state: States, dirs: Dirs, k: nat) {
    exists t :: t in dirs && dirs[t] == k && t in lists
      && forall y | y in lists[t].elems && y in state :: state[y] == Dying
  }

  ghost predicate Unvisited(lists: ThreadLists, l0: Cursor<nat>, c: nat) {
    c in lists && 0 < l0.curr <= |lists[c].elems| && l0.curr <= |l0.elems|
    && lists[c].elems[..l0.curr] == l0.elems[..l0.curr]
  }

  /** Tasks without threads have gone, and nothing else. */
  ghost predicate Shrunk(lists0: ThreadLists, dirs0: Dirs, lists: ThreadLists, dirs: Dirs) {
    && (forall t | t in lists :: t in lists0 && lists[t] == lists0[t])
    && (forall t | t in lists0 && t !in lists :: lists0[t].elems == [])
    && (forall t | t in dirs :: t in dirs0 && dirs[t] == dirs0[t])
  }

  lemma WrapAround(tasks: Cursor<nat>, r: nat, c: nat, picked: bool)
    requires NoDup(tasks.elems) && OnTrack(tasks, r, c, picked) && tasks.IsEnd()
    requires r in tasks.elems
    ensures OnTrack(tasks.Rewind(), r, c, picked) && !tasks.Rewind().IsEnd()
  {
    assert tasks.elems[0..] == tasks.elems;
  }

  /** A task without threads at the cursor is neither the running task nor the live one. */
  lemma SkipEmpty(tasks: Cursor<nat>, lists: ThreadLists, state: States, dirs: Dirs, r: nat, c: nat, picked: bool)
    requires Listed(tasks, lists, state, dirs) && OnTrack(tasks, r, c, picked) && !tasks.IsEnd()
    requires r in lists && lists[r].elems != [] && c in lists && (!picked ==> lists[c].elems != [])
    requires tasks.Current() in lists && lists[tasks.Current()].IsEmpty()
    ensures tasks.Current() != c && tasks.Current() != r
    ensures Listed(tasks.Remove(), lists - {tasks.Current()}, state, dirs - {tasks.Current()})
    ensures OnTrack(tasks.Remove(), r, c, picked)
  {
    RemoveNoDup(tasks);
    if picked {
      assert c in tasks.elems[..tasks.curr];
    }
  }

  /** Stepping over a task keeps on track, and counts as the turn of the running task if it is that. */
  lemma TakeTask(tasks: Cursor<nat>, r: nat, c: nat, picked: bool)
    requires NoDup(tasks.elems) && OnTrack(tasks, r, c, picked) && !tasks.IsEnd()
    ensures tasks.Current() != r ==> OnTrack(tasks.Next(), r, c, picked || tasks.Current() == c)
  {
    var n := tasks.curr;
    assert tasks.elems[..n + 1] == tasks.elems[..n] + [tasks.Current()];
    assert tasks.elems[n..] == [tasks.Current()] + tasks.elems[n + 1..];
  }

  /** The inner loop of schedule, between two turns. */
  ghost predicate Picking(lists0: ThreadLists, dirs0: Dirs, tasks: Cursor<nat>, lists: ThreadLists, state: States,
                          dirs: Dirs, r: nat, c: nat, picked: bool) {
    && Listed(tasks, lists, state, dirs) && Shrunk(lists0, dirs0, lists, dirs) && OnTrack(tasks, r, c, picked)
    && r in lists && c in lists && lists[r].elems != [] && (!picked ==> lists[c].elems != [])
  }

  /** ... and once it has settled on task `t`. */
  ghost predicate Picked(lists0: ThreadLists, dirs0: Dirs, tasks: Cursor<nat>, lists: ThreadLists, state: States,
                         dirs: Dirs, r: nat, c: nat, picked: bool, t: nat) {
    && Listed(tasks, lists, state, dirs) && Shrunk(lists0, dirs0, lists, dirs)
    && r in lists && c in lists && t in lists && lists[t].elems != []
    && 0 < tasks.curr <= |tasks.elems| && tasks.elems[tasks.curr - 1] == t
    && (t != r ==> OnTrack(tasks, r, c, picked || t == c))
  }

  lemma PickWrap(lists0: ThreadLists, dirs0: Dirs, tasks: Cursor<nat>, lists: ThreadLists, state: States,
                 dirs: Dirs, r: nat, c: nat, picked: bool)
    requires Picking(lists0, dirs0, tasks, lists, state, dirs, r, c, picked)
    ensures var tasks' := if tasks.IsEnd() then tasks.Rewind() else tasks;
      && Picking(lists0, dirs0, tasks', lists, state, dirs, r, c, picked)
      && !tasks'.IsEnd() && tasks'.Current() in lists && tasks'.Current() in dirs
      && |tasks'.elems| == |tasks.elems|
  {
    if tasks.IsEnd() {
      WrapAround(tasks, r, c, picked);
    }
  }

  lemma PickSkip(lists0: ThreadLists, dirs0: Dirs, tasks: Cursor<nat>, lists: ThreadLists, state: States,
                 dirs: Dirs, r: nat, c: nat, picked: bool)
    requires Picking(lists0, dirs0, tasks, lists, state, dirs, r, c, picked)
    requires !tasks.IsEnd() && tasks.Current() in lists && lists[tasks.Current()].IsEmpty()
    ensures var t := tasks.Current();
      && Picking(lists0, dirs0, tasks.Remove(), lists - {t}, state, dirs - {t}, r, c, picked)
      && t in lists0 && lists0[t].elems == [] && t in dirs && t in dirs0 && dirs0[t] == dirs[t]
      && (c in dirs0 ==> dirs[t] != dirs0[c])
      && |tasks.Remove().elems| < |tasks.elems|
  {
    SkipEmpty(tasks, lists, state, dirs, r, c, picked);
  }

  lemma PickTake(lists0: ThreadLists, dirs0: Dirs, tasks: Cursor<nat>, lists: ThreadLists, state: States,
                 dirs: Dirs, r: nat, c: nat, picked: bool)
    requires Picking(lists0, dirs0, tasks, lists, state, dirs, r, c, picked)
    requires !tasks.IsEnd() && tasks.Current() in lists && !lists[tasks.Current()].IsEmpty()
    ensures Picked(lists0, dirs0, tasks.Next(), lists, state, dirs, r, c, picked, tasks.Current())
  {
    TakeTask(tasks, r, c, picked);
  }

  // ------------------------------------------------------------ the outer loop

  /** The task cursor has just passed the task whose threads are being gone through. */
  ghost predicate Passed(tasks: Cursor<nat>, t: nat, c: nat) {
    Behind(tasks, t) && (tasks.curr == 0 ==> t == c)
  }

  /** Between two turns of the outer loop; `x` is a live thread of task `r`, `c` the running task. */
  ghost predicate Turning(lists0: ThreadLists, state0: States, dirs0: Dirs, tasks: Cursor<nat>, lists: ThreadLists,
                          state: States, dirs: Dirs, threads: nat, r: nat, x: nat, c: nat, picked: bool) {
    && Listed(tasks, lists, state, dirs) && Reaped(lists0, state0, lists, state)
    && (forall t | t in dirs :: t in dirs0 && dirs[t] == dirs0[t])
    && threads in lists && lists[threads].curr <= |lists[threads].elems|
    && r in lists && x in lists[r].elems && state[x] != Dying && c in lists && c in lists0
    && (OnTrack(tasks, r, c, picked) || (threads == r && x in lists[r].elems[lists[r].curr..]))
    && (!picked ==> Unvisited(lists, lists0[c], c) && (threads == c ==> lists[c].curr >= lists0[c].curr))
    && Passed(tasks, threads, c)
  }

  lemma TurnStart(tasks: Cursor<nat>, lists: ThreadLists, state: States, dirs: Dirs, threads: nat, r: nat, x: nat,
                  c: nat)
    requires Listed(tasks, lists, state, dirs) && Behind(tasks, c) && threads == c && c in lists
    requires 0 < lists[c].curr <= |lists[c].elems|
    requires r in lists && x in lists[r].elems && state[x] != Dying
    ensures Turning(lists, state, dirs, tasks, lists, state, dirs, threads, r, x, c, false)
  {
    if tasks.curr == 0 {
      assert tasks.elems[0..] == tasks.elems;
    } else {
      assert tasks.elems[..tasks.curr][tasks.curr - 1] == c;
      assert tasks.elems == tasks.elems[..tasks.curr] + tasks.elems[tasks.curr..];
    }
  }

  lemma TurnPicks(lists0: ThreadLists, state0: States, dirs0: Dirs, tasks: Cursor<nat>, lists: ThreadLists,
                  state: States, dirs: Dirs, threads: nat, r: nat, x: nat, c: nat, picked: bool)
    requires Turning(lists0, state0, dirs0, tasks, lists, state, dirs, threads, r, x, c, picked)
    requires lists[threads].IsEnd()
    ensures var lists' := lists[threads := lists[threads].Rewind()];
            Picking(lists', dirs, tasks, lists', state, dirs, r, c, picked) && c in dirs
  {
    MoveCursor(lists0, state0, tasks, lists, state, dirs, threads, 0);
    InDirs(tasks, lists, state, dirs, c);
    var lists' := lists[threads := lists[threads].Rewind()];
    ShrunkNone(lists', dirs);
    hide Listed, Reaped, Shrunk;
  }

  lemma ShrunkNone(lists: ThreadLists, dirs: Dirs)
    ensures Shrunk(lists, dirs, lists, dirs)
  {
  }

  lemma ReapedFewer(lists0: ThreadLists, state0: States, lists: ThreadLists, state: States, dirs: Dirs,
                    lists': ThreadLists, dirs': Dirs)
    requires Reaped(lists0, state0, lists, state) && Shrunk(lists, dirs, lists', dirs')
    ensures Reaped(lists0, state0, lists', state)
  {
  }

  /** Where the cursor of a list stands does not matter to what is listed. */
  lemma MoveCursor(lists0: ThreadLists, state0: States, tasks: Cursor<nat>, lists: ThreadLists, state: States,
                   dirs: Dirs, t: nat, k: nat)
    requires Listed(tasks, lists, state, dirs) && t in lists
    ensures Listed(tasks, lists[t := lists[t].(curr := k)], state, dirs)
    ensures Reaped(lists0, state0, lists, state) ==> Reaped(lists0, state0, lists[t := lists[t].(curr := k)], state)
  {
  }

  /** Choosing a task keeps the lists in order and what has been reaped. */
  lemma PickedLists(lists0: ThreadLists, state0: States, tasks: Cursor<nat>, lists: ThreadLists,
                    state: States, dirs: Dirs, threads: nat, tasks': Cursor<nat>, lists': ThreadLists, dirs': Dirs,
                    t: nat)
    requires Listed(tasks, lists, state, dirs) && Reaped(lists0, state0, lists, state) && threads in lists
    requires Shrunk(lists[threads := lists[threads].Rewind()], dirs, lists', dirs')
    requires Listed(tasks', lists', state, dirs') && t in lists'
    ensures Listed(tasks', lists'[t := lists'[t].Rewind()], state, dirs')
    ensures Reaped(lists0, state0, lists'[t := lists'[t].Rewind()], state)
    ensures forall u | u in lists' :: u in lists && lists'[u].elems == lists[u].elems
    ensures forall u | u in dirs' :: u in dirs && dirs'[u] == dirs[u]
  {
    var listsR := lists[threads := lists[threads].Rewind()];
    MoveCursor(lists0, state0, tasks, lists, state, dirs, threads, 0);
    ShrunkFrom(listsR, dirs, lists', dirs');
    hide Listed, Reaped, Shrunk;
    ReapedFewer(lists0, state0, listsR, state, dirs, lists', dirs');
    MoveCursor(lists0, state0, tasks', lists', state, dirs', t, 0);
  }

  lemma TurnPicked(lists0: ThreadLists, state0: States, dirs0: Dirs, tasks: Cursor<nat>, lists: ThreadLists,
                   state: States, dirs: Dirs, threads: nat, r: nat, x: nat, c: nat, picked: bool,
                   tasks': Cursor<nat>, lists': ThreadLists, dirs': Dirs, t: nat)
    requires Turning(lists0, state0, dirs0, tasks, lists, state, dirs, threads, r, x, c, picked)
    requires Picked(lists[threads := lists[threads].Rewind()], dirs, tasks', lists', state, dirs', r, c, picked, t)
    ensures Turning(lists0, state0, dirs0, tasks', lists'[t := lists'[t].Rewind()], state, dirs', t, r, x, c,
                    picked || t == c)
    ensures !lists'[t].Rewind().IsEnd()
  {
    hide Listed, Reaped, Shrunk;
    PickedLists(lists0, state0, tasks, lists, state, dirs, threads, tasks', lists', dirs', t);
    hide OnTrack;
    assert lists'[r].elems[0..] == lists'[r].elems;
    assert lists'[t := lists'[t].Rewind()][c].elems == lists[c].elems;
  }

  lemma ShrunkFrom(lists0: ThreadLists, dirs0: Dirs, lists: ThreadLists, dirs: Dirs)
    requires Shrunk(lists0, dirs0, lists, dirs)
    ensures forall t | t in lists :: t in lists0 && lists[t] == lists0[t]
    ensures forall t | t in dirs :: t in dirs0 && dirs[t] == dirs0[t]
  {
  }

  lemma ReapListed(lists0: ThreadLists, state0: States, tasks: Cursor<nat>, lists: ThreadLists,
                   state: States, dirs: Dirs, t: nat)
    requires Listed(tasks, lists, state, dirs) && t in lists && !lists[t].IsEnd()
    requires state[lists[t].Current()] == Dying
    ensures Listed(tasks, lists[t := lists[t].Remove()], state - {lists[t].Current()}, dirs)
  {
    RemoveNoDup(lists[t]);
  }

  lemma ReapReaped(lists0: ThreadLists, state0: States, tasks: Cursor<nat>, lists: ThreadLists,
                   state: States, dirs: Dirs, t: nat)
    requires Listed(tasks, lists, state, dirs) && t in lists && !lists[t].IsEnd()
    requires state[lists[t].Current()] == Dying && Reaped(lists0, state0, lists, state)
    ensures Reaped(lists0, state0, lists[t := lists[t].Remove()], state - {lists[t].Current()})
  {
    RemoveNoDup(lists[t]);
  }

  lemma TurnReaps(lists0: ThreadLists, state0: States, dirs0: Dirs, tasks: Cursor<nat>, lists: ThreadLists,
                  state: States, dirs: Dirs, threads: nat, r: nat, x: nat, c: nat, picked: bool)
    requires Turning(lists0, state0, dirs0, tasks, lists, state, dirs, threads, r, x, c, picked)
    requires !lists[threads].IsEnd() && lists[threads].Current() in state && state[lists[threads].Current()] == Dying
    ensures Turning(lists0, state0, dirs0, tasks, lists[threads := lists[threads].Remove()],
                    state - {lists[threads].Current()}, dirs, threads, r, x, c, picked)
    ensures (state - {lists[threads].Current()}).Keys < state.Keys
  {
    var l := lists[threads];
    assert l.Current() in state.Keys && l.Current() !in (state - {l.Current()}).Keys;
    assert NoDup(l.elems);
    RemoveNoDup(l);
    ReapListed(lists0, state0, tasks, lists, state, dirs, threads);
    ReapReaped(lists0, state0, tasks, lists, state, dirs, threads);
    if !picked {
      ReapUnvisited(lists, lists0[c], c, threads);
    }
    hide Listed, Reaped, OnTrack, NoDup, Passed, Unvisited;
  }

  /** Removing at the cursor of the running task's list leaves what its first turn went through. */
  lemma ReapUnvisited(lists: ThreadLists, l0: Cursor<nat>, c: nat, t: nat)
    requires Unvisited(lists, l0, c) && t in lists && !lists[t].IsEnd() && (t == c ==> lists[c].curr >= l0.curr)
    ensures Unvisited(lists[t := lists[t].Remove()], l0, c)
  {
    if t == c {
      RemoveShape(lists[c]);
    }
  }

  /** The loops of schedule have found thread `y`; nothing has been switched yet. */
  ghost predicate Ran(lists0: ThreadLists, state0: States, dirs0: Dirs, tasks: Cursor<nat>, lists: ThreadLists,
                      state: States, dirs: Dirs, threads: nat, c: nat, y: nat) {
    && Listed(tasks, lists, state, dirs) && Reaped(lists0, state0, lists, state)
    && (forall t | t in dirs :: t in dirs0 && dirs[t] == dirs0[t])
    && Behind(tasks, threads) && threads in lists && c in lists && threads in dirs
    && 0 < lists[threads].curr <= |lists[threads].elems|
    && lists[threads].elems[lists[threads].curr - 1] == y
    && y in state && state[y] == Running
  }

  lemma TurnRuns(lists0: ThreadLists, state0: States, dirs0: Dirs, tasks: Cursor<nat>, lists: ThreadLists,
                 state: States, dirs: Dirs, threads: nat, r: nat, x: nat, c: nat, picked: bool)
    requires Turning(lists0, state0, dirs0, tasks, lists, state, dirs, threads, r, x, c, picked)
    requires !lists[threads].IsEnd() && lists[threads].Current() in state && state[lists[threads].Current()] == Running
    ensures Ran(lists0, state0, dirs0, tasks, lists[threads := lists[threads].Next()], state, dirs, threads, c,
                lists[threads].Current())
  {
    hide Listed, Reaped, OnTrack, Unvisited;
    MoveCursor(lists0, state0, tasks, lists, state, dirs, threads, lists[threads].curr + 1);
    InDirs(tasks, lists, state, dirs, threads);
  }

  lemma InDirs(tasks: Cursor<nat>, lists: ThreadLists, state: States, dirs: Dirs, t: nat)
    requires Listed(tasks, lists, state, dirs) && t in lists
    ensures t in dirs && forall x | x in lists[t].elems :: x in state
  {
  }

  // ------------------------------------------------------------ turn by turn

  datatype Config = Config(tasks: Cursor<nat>, lists: ThreadLists, state: States, dirs: Dirs, threads: nat)

  /** Choosing a task: empty ones at the cursor go, the first with threads is taken; `None` is the panic. */
  ghost function PickNext(c: Config, kernel: nat): Option<Config>
    decreases |c.tasks.elems|
  {
    var tasks := if c.tasks.IsEnd() then c.tasks.Rewind() else c.tasks;
    if tasks.IsEnd() then None
    else
      var t := tasks.Current();
      if t !in c.lists || t !in c.dirs then None
      else if !c.lists[t].IsEmpty() then Some(c.(tasks := tasks.Next(), threads := t))
      else if c.dirs[t] == kernel then None
      else PickNext(c.(tasks := tasks.Remove(), lists := c.lists - {t}, dirs := c.dirs - {t}), kernel)
  }

  lemma PickTurn(c: Config, kernel: nat)
    ensures var tasks := if c.tasks.IsEnd() then c.tasks.Rewind() else c.tasks;
      !tasks.IsEnd() && tasks.Current() in c.lists && tasks.Current() in c.dirs ==>
        var t := tasks.Current();
        PickNext(c, kernel) ==
          if !c.lists[t].IsEmpty() then Some(c.(tasks := tasks.Next(), threads := t))
          else if c.dirs[t] == kernel then None
          else PickNext(c.(tasks := tasks.Remove(), lists := c.lists - {t}, dirs := c.dirs - {t}), kernel)
  {
  }

  ghost function Rewound(c: Config): Config {
    if c.threads in c.lists then c.(lists := c.lists[c.threads := c.lists[c.threads].Rewind()]) else c
  }

  /** Where the outer loop looks for a thread: in the list it is going through, or at the start of the next. */
  ghost function Arrive(c: Config, kernel: nat): Option<Config> {
    if c.threads in c.lists && !c.lists[c.threads].IsEnd() then Some(c)
    else
      match PickNext(Rewound(c), kernel)
      case None => None
      case Some(d) => Some(Rewound(d))
  }

  /** The outer loop looks at thread `x`, which is in state `s`. */
  ghost predicate LooksAt(c: Config, x: nat, s: ThreadState) {
    c.threads in c.lists && !c.lists[c.threads].IsEnd() && c.lists[c.threads].Current() == x
    && x in c.state && c.state[x] == s
  }

  ghost function Reap(c: Config, x: nat): Config {
    if c.threads in c.lists
    then c.(lists := c.lists[c.threads := c.lists[c.threads].Remove()], state := c.state - {x}) else c
  }

  /** After `n` threads have been looked at, found dying and reaped, the loop looks into `d`. */
  ghost predicate Leads(c: Config, kernel: nat, n: nat, d: Config)
    decreases n
  {
    Arrive(c, kernel).Some?
    && var a := Arrive(c, kernel).value;
       if n == 0 then d == a else exists x :: LooksAt(a, x, Dying) && Leads(Reap(a, x), kernel, n - 1, d)
  }

  ghost predicate Arrives(c: Config, kernel: nat, d: Config) {
    exists n :: Leads(c, kernel, n, d)
  }

  /** Between two turns: at the start, or after a thread has been reaped. */
  ghost predicate Passing(c: Config, kernel: nat, e: Config) {
    e == c || exists d, x :: Arrives(c, kernel, d) && LooksAt(d, x, Dying) && e == Reap(d, x)
  }

  /** The first thread looked at that is not dying is `x`; it waits, and there the loop stays. */
  ghost predicate Stuck(c: Config, kernel: nat, e: Config, x: nat) {
    Arrives(c, kernel, e) && LooksAt(e, x, Waiting)
  }

  ghost function SteppedOver(c: Config): Config {
    if c.threads in c.lists then c.(lists := c.lists[c.threads := c.lists[c.threads].Next()]) else c
  }

  /** The first thread looked at that is not dying is `x`; it runs, and the cursor steps over it. */
  ghost predicate Settles(c: Config, kernel: nat, e: Config, x: nat) {
    exists d :: Arrives(c, kernel, d) && LooksAt(d, x, Running) && e == SteppedOver(d)
  }

  lemma {:induction false} LeadsOn(c: Config, kernel: nat, n: nat, d: Config, x: nat)
    requires Leads(c, kernel, n, d) && LooksAt(d, x, Dying) && Arrive(Reap(d, x), kernel).Some?
    ensures Leads(c, kernel, n + 1, Arrive(Reap(d, x), kernel).value)
    decreases n
  {
    hide Arrive, Reap;
    var a := Arrive(c, kernel).value;
    if n == 0 {
      assert Leads(Reap(a, x), kernel, 0, Arrive(Reap(d, x), kernel).value);
    } else {
      var y :| LooksAt(a, y, Dying) && Leads(Reap(a, y), kernel, n - 1, d);
      LeadsOn(Reap(a, y), kernel, n - 1, d, x);
    }
  }

  lemma PassOn(c: Config, kernel: nat, e: Config)
    requires Passing(c, kernel, e) && Arrive(e, kernel).Some?
    ensures Arrives(c, kernel, Arrive(e, kernel).value)
  {
    hide Arrive, Reap, LooksAt;
    if e == c {
      assert Leads(c, kernel, 0, Arrive(e, kernel).value);
    } else {
      var d, x :| Arrives(c, kernel, d) && LooksAt(d, x, Dying) && e == Reap(d, x);
      var n :| Leads(c, kernel, n, d);
      LeadsOn(c, kernel, n, d, x);
    }
  }

  /** Where the loop ends is determined: two configurations it comes to without a dying thread are the same. */
  lemma {:induction false} LeadsOnce(c: Config, kernel: nat, n: nat, d: Config, x: nat, s: ThreadState,
                                     m: nat, e: Config, y: nat, s': ThreadState)
    requires Leads(c, kernel, n, d) && LooksAt(d, x, s) && s != Dying
    requires Leads(c, kernel, m, e) && LooksAt(e, y, s') && s' != Dying
    ensures d == e && x == y
    decreases n + m
  {
    hide Arrive, Reap;
    if n > 0 && m > 0 {
      var a := Arrive(c, kernel).value;
      var z :| LooksAt(a, z, Dying) && Leads(Reap(a, z), kernel, n - 1, d);
      LeadsOnce(Reap(a, z), kernel, n - 1, d, x, s, m - 1, e, y, s');
    }
  }

  /** Starting from one configuration there is one outcome: one thread to run, and never also a thread to wait on. */
  lemma OneOutcome(c: Config, kernel: nat, e: Config, x: nat, e': Config, x': nat)
    requires Settles(c, kernel, e, x)
    ensures Settles(c, kernel, e', x') ==> e' == e && x' == x
    ensures !Stuck(c, kernel, e', x')
  {
    hide Leads, LooksAt;
    var d :| Arrives(c, kernel, d) && LooksAt(d, x, Running) && e == SteppedOver(d);
    var n :| Leads(c, kernel, n, d);
    if Settles(c, kernel, e', x') {
      var d' :| Arrives(c, kernel, d') && LooksAt(d', x', Running) && e' == SteppedOver(d');
      var n' :| Leads(c, kernel, n', d');
      LeadsOnce(c, kernel, n, d, x, Running, n', d', x', Running);
    }
    if Stuck(c, kernel, e', x') {
      var n' :| Leads(c, kernel, n', e');
      LeadsOnce(c, kernel, n, d, x, Running, n', e', x', Waiting);
      NotBoth(d, x);
    }
  }

  lemma NotBoth(d: Config, x: nat)
    requires LooksAt(d, x, Running)
    ensures !LooksAt(d, x, Waiting)
  {
  }

  lemma PassStarts(c: Config, kernel: nat)
    ensures Passing(c, kernel, c)
  {
  }

  lemma StayingArrives(c: Config, kernel: nat)
    ensures c.threads in c.lists && !c.lists[c.threads].IsEnd() ==> Arrive(c, kernel) == Some(c)
  {
  }

  /** What looking at thread `x` in configuration `d` leads to. */
  lemma LookHere(c: Config, kernel: nat, d: Config, x: nat)
    requires Arrives(c, kernel, d)
    requires d.threads in d.lists && !d.lists[d.threads].IsEnd() && d.lists[d.threads].Current() == x && x in d.state
    ensures d.state[x] == Dying ==>
      Passing(c, kernel, d.(lists := d.lists[d.threads := d.lists[d.threads].Remove()], state := d.state - {x}))
    ensures d.state[x] == Waiting ==> Stuck(c, kernel, d, x)
    ensures d.state[x] == Running ==>
      Settles(c, kernel, d.(lists := d.lists[d.threads := d.lists[d.threads].Next()]), x)
  {
    hide Arrives;
    assert LooksAt(d, x, d.state[x]);
  }

  // ------------------------------------------------------------ steady state

  /** Every task has threads and every thread runs. */
  ghost predicate Steady(lists: ThreadLists, state: States) {
    forall t | t in lists :: lists[t].elems != [] && forall x | x in lists[t].elems :: x in state && state[x] == Running
  }

  ghost predicate AllBusy(lists: ThreadLists) {
    forall t | t in lists :: lists[t].elems != []
  }

  /** Where the scheduler stands: both cursors and the list being gone through. */
  datatype Place = Place(tasks: Cursor<nat>, lists: ThreadLists, threads: nat) {
    ghost predicate Ok() {
      && NoDup(tasks.elems) && (forall t :: t in lists <==> t in tasks.elems) && AllBusy(lists)
      && threads in lists && tasks.curr <= |tasks.elems| && lists[threads].curr <= |lists[threads].elems|
    }

    /** The task the cursor of the task list comes to next. */
    ghost function NextTask(): nat
      requires Ok()
    {
      if tasks.IsEnd() then tasks.elems[0] else tasks.Current()
    }

    /** One call of schedule in a steady state. */
    ghost function Advance(): Place
      requires Ok()
    {
      if !lists[threads].IsEnd() then Place(tasks, lists[threads := lists[threads].Next()], threads)
      else
        var rewound := lists[threads := lists[threads].Rewind()];
        var t := NextTask();
        Place((if tasks.IsEnd() then tasks.Rewind() else tasks).Next(),
              rewound[t := rewound[t].Rewind()][t := rewound[t].Rewind().Next()], t)
    }

    ghost function Chosen(): nat
      requires Ok()
    {
      if !lists[threads].IsEnd() then lists[threads].Current() else lists[NextTask()].elems[0]
    }
  }

  /** In a steady state a call of schedule is one step of `Advance`. */
  ghost predicate Stepped(p: Place, state: States, p': Place, state': States, y: nat) {
    p.Ok() && Steady(p.lists, state) ==> y == p.Chosen() && p' == p.Advance() && state' == state
  }

  /** The first turn of the outer loop ends it in a steady state. */
  ghost predicate Undecided(p: Place, state: States, p': Place, state': States) {
    p.Ok() && Steady(p.lists, state) ==> p' == p && state' == state
  }

  /** Thread `y` is about to be looked at; in a steady state it is the one to run. */
  ghost predicate Arriving(p: Place, state: States, tasks: Cursor<nat>, lists: ThreadLists, threads: nat,
                           state': States, y: nat) {
    p.Ok() && Steady(p.lists, state) ==>
      y == p.Chosen() && state' == state && y in state && state[y] == Running
      && threads in lists && Place(tasks, lists[threads := lists[threads].Next()], threads) == p.Advance()
  }

  lemma StartUndecided(p: Place, state: States)
    ensures Undecided(p, state, p, state)
  {
  }

  lemma StuckUndecided(p: Place, state: States, q: Place, state': States)
    requires Undecided(p, state, q, state') && !q.Ok()
    ensures !(p.Ok() && Steady(p.lists, state))
  {
  }

  lemma ArriveHere(p: Place, state: States, tasks: Cursor<nat>, lists: ThreadLists, threads: nat, state': States)
    requires Undecided(p, state, Place(tasks, lists, threads), state')
    requires threads in lists && !lists[threads].IsEnd()
    ensures Arriving(p, state, tasks, lists, threads, state', lists[threads].Current())
  {
  }

  lemma ArriveNext(p: Place, state: States, q: Place, tasks: Cursor<nat>, lists: ThreadLists, threads: nat,
                   state': States)
    requires Undecided(p, state, q, state')
    requires q.threads in q.lists && q.lists[q.threads].IsEnd() && threads in lists && !lists[threads].IsEnd()
    requires q.Ok() ==> Place(tasks, lists[threads := lists[threads].Next()], threads) == q.Advance()
                        && lists[threads].Current() == q.Chosen()
    ensures Arriving(p, state, tasks, lists, threads, state', lists[threads].Current())
  {
  }

  lemma Arrived(p: Place, state: States, tasks: Cursor<nat>, lists: ThreadLists, threads: nat, state': States, y: nat)
    requires Arriving(p, state, tasks, lists, threads, state', y) && threads in lists && y in state'
    ensures state'[y] == Running ==>
      Stepped(p, state, Place(tasks, lists[threads := lists[threads].Next()], threads), state', y)
    ensures state'[y] != Running ==>
      !(p.Ok() && Steady(p.lists, state)) && forall q, st :: Undecided(p, state, q, st)
  {
  }

  /** What a turn may read. */
  lemma TurnFacts(lists0: ThreadLists, state0: States, dirs0: Dirs, tasks: Cursor<nat>, lists: ThreadLists,
                  state: States, dirs: Dirs, threads: nat, r: nat, x: nat, c: nat, picked: bool)
    requires Turning(lists0, state0, dirs0, tasks, lists, state, dirs, threads, r, x, c, picked)
    ensures threads in lists && c in lists && c in dirs && c in dirs0 && dirs[c] == dirs0[c]
    ensures !lists[threads].IsEnd() ==>
      var y := lists[threads].Current();
      y in state && y in state0 && state[y] == state0[y]
      && threads in lists0 && y in lists0[threads].elems
  {
    InDirs(tasks, lists, state, dirs, threads);
    InDirs(tasks, lists, state, dirs, c);
    hide Listed;
  }

  lemma PickedHere(lists0: ThreadLists, dirs0: Dirs, tasks: Cursor<nat>, lists: ThreadLists, state: States,
                   dirs: Dirs, r: nat, c: nat, picked: bool, t: nat)
    requires Picked(lists0, dirs0, tasks, lists, state, dirs, r, c, picked, t)
    ensures t in lists
  {
  }

  /** A task that could not be destroyed had only dying threads when schedule was called. */
  lemma PanicReaped(lists0: ThreadLists, state0: States, dirs0: Dirs, tasks: Cursor<nat>, lists: ThreadLists,
                    state: States, dirs: Dirs, threads: nat, r: nat, x: nat, c: nat, picked: bool, k: nat)
    requires Turning(lists0, state0, dirs0, tasks, lists, state, dirs, threads, r, x, c, picked)
    ensures forall t | t in lists && lists[t].elems == [] && t in dirs && dirs[t] == k ::
      Orphaned(lists0, state0, dirs0, k)
  {
    hide Listed, OnTrack;
    forall t | t in lists && lists[t].elems == [] && t in dirs && dirs[t] == k
      ensures Orphaned(lists0, state0, dirs0, k)
    {
      assert t in lists0 && forall y | y in lists0[t].elems && y in state0 :: state0[y] == Dying;
    }
  }

  lemma LiveHere(tasks: Cursor<nat>, lists: ThreadLists, state: States, dirs: Dirs)
    requires Listed(tasks, lists, state, dirs)
    ensures forall t :: t in lists <==> t in dirs
  {
  }

  lemma RanFacts(lists0: ThreadLists, state0: States, dirs0: Dirs, tasks: Cursor<nat>, lists: ThreadLists,
                 state: States, dirs: Dirs, threads: nat, c: nat, y: nat)
    requires Ran(lists0, state0, dirs0, tasks, lists, state, dirs, threads, c, y)
    requires c in dirs0
    ensures c in dirs && dirs[c] == dirs0[c]
  {
    InDirs(tasks, lists, state, dirs, c);
  }

  /** The thread that was running belongs to one task, so finding it again means finding that task. */
  lemma SameThread(lists0: ThreadLists, state0: States, dirs0: Dirs, tasks: Cursor<nat>, lists: ThreadLists,
                   state: States, dirs: Dirs, threads: nat, c: nat, y: nat, y0: nat, tasks0: Cursor<nat>)
    requires Ran(lists0, state0, dirs0, tasks, lists, state, dirs, threads, c, y)
    requires c in lists0 && y0 in lists0[c].elems && Listed(tasks0, lists0, state0, dirs0)
    ensures y == y0 ==> threads == c
  {
    assert y in lists[threads].elems;
  }

  /** Some listed thread is not on its way out. */
  ghost predicate AnyLive(lists: ThreadLists, state: States) {
    exists t, x :: t in lists && x in lists[t].elems && x in state && state[x] != Dying
  }

  lemma LivesThere(lists: ThreadLists, state: States, t: nat, x: nat)
    requires t in lists && x in lists[t].elems && x in state && state[x] != Dying
    ensures AnyLive(lists, state)
  {
  }

  lemma SetState(tasks: Cursor<nat>, lists: ThreadLists, state: States, dirs: Dirs, x: nat, s: ThreadState)
    requires Listed(tasks, lists, state, dirs)
    ensures Listed(tasks, lists, state[x := s], dirs)
  {
  }

  lemma NotReaped(lists0: ThreadLists, state0: States, lists: ThreadLists, state: States, t: nat, x: nat)
    requires Reaped(lists0, state0, lists, state)
    requires t in lists0 && x in lists0[t].elems && x in state0 && state0[x] != Dying
    ensures t in lists && x in lists[t].elems && x in state && state[x] == state0[x]
  {
  }

  lemma BehindStill(tasks: Cursor<nat>, c: nat, t: nat)
    requires Behind(tasks, c)
    ensures Behind(tasks.PushBack(t), c)
  {
  }

  lemma AddTask(tasks: Cursor<nat>, lists: ThreadLists, state: States, dirs: Dirs, t: nat, x: nat, dir: nat)
    requires Listed(tasks, lists, state, dirs)
    requires t !in lists && x !in state && forall u | u in dirs :: dirs[u] != dir
    ensures Listed(tasks.PushBack(t), lists[t := Cursor([x], 0)], state[x := Running], dirs[t := dir])
  {
    var es := tasks.PushBack(t).elems;
    assert forall u :: u in es <==> u in tasks.elems || u == t;
    assert NoDup(es);
    assert forall u | u in lists :: x !in lists[u].elems;
  }

  lemma AddThread(tasks: Cursor<nat>, lists: ThreadLists, state: States, dirs: Dirs, t: nat, x: nat)
    requires Listed(tasks, lists, state, dirs) && t in lists && x !in state
    ensures Listed(tasks, lists[t := lists[t].PushBack(x)], state[x := Running], dirs)
  {
    var es := lists[t].PushBack(x).elems;
    assert forall y :: y in es <==> y in lists[t].elems || y == x;
    assert forall u | u in lists :: x !in lists[u].elems;
    assert NoDup(es);
  }
}
