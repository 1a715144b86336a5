/**
  The scheduler (sched.c, and the parts of task.c, thread.c and task.s it relies on).

  Destroying a task or a thread removes its name from `lists` or `state`, and whatever
  reads a record requires its name to be there.  The one access that does not is the
  store of switch_context into the record of the thread being left: `contexts` keeps the
  words of a record that has been freed, and `strayStore` tells when they were written.
*/
module Sched {
  import opened Basics
  import opened Lists
  import opened Turns
  import opened Leaving
  import opened Order

  /** What switch_context saves of a thread: the first six words of its record. */
  datatype Registers = Registers(esp: Word32, ebp: Word32, ebx: Word32, esi: Word32, edi: Word32, eflags: Word32)

  const NO_REGISTERS := Registers(0, 0, 0, 0, 0, 0)

  /** Everything the end of schedule relies on. */
  lemma RanAll(lists0: ThreadLists, state0: States, dirs0: Dirs, tasks: Cursor<nat>, lists: ThreadLists,
               state: States, dirs: Dirs, threads: nat, c: nat, y: nat, y0: nat, tasks0: Cursor<nat>)
    requires Ran(lists0, state0, dirs0, tasks, lists, state, dirs, threads, c, y)
    requires c in lists0 && y0 in lists0[c].elems && Listed(tasks0, lists0, state0, dirs0) && c in dirs0
    ensures Listed(tasks, lists, state, dirs) && Reaped(lists0, state0, lists, state)
    ensures Behind(tasks, threads) && threads in lists && c in lists && threads in dirs
    ensures 0 < lists[threads].curr <= |lists[threads].elems| && lists[threads].elems[lists[threads].curr - 1] == y
    ensures y in state && state[y] == Running && state.Keys <= state0.Keys
    ensures c in dirs && dirs[c] == dirs0[c]
    ensures y == y0 ==> threads == c
  {
    RanFacts(lists0, state0, dirs0, tasks, lists, state, dirs, threads, c, y);
    SameThread(lists0, state0, dirs0, tasks, lists, state, dirs, threads, c, y, y0, tasks0);
  }

  class Scheduler {
    var tasks: Cursor<nat>
    var lists: ThreadLists
    var state: States
    var directory: Dirs
    var threads: nat              // the task whose list the global `threads` names
    var currentTask: nat
    var currentThread: nat
    var currentDirectory: nat
    const kernelDirectory: nat
    var registers: Registers      // of the processor
    var contexts: map<nat, Registers>
    ghost var strayStore: bool    // whether the last call of schedule wrote to a destroyed record
    ghost var destroyed: set<nat> // directories destroyed by the last call of schedule

    /** Holds whenever no call of schedule is under way. */
    ghost predicate Valid()
      reads this
    {
      && Listed(tasks, lists, state, directory)
      && Behind(tasks, currentTask)
      && threads == currentTask && currentTask in lists
      && 0 < lists[threads].curr <= |lists[threads].elems|
      && lists[threads].elems[lists[threads].curr - 1] == currentThread
      && currentDirectory == directory[currentTask]
      && state.Keys <= contexts.Keys
    }

    /** Some listed thread is not on its way out. */
    ghost predicate Live()
      reads this
    {
      AnyLive(lists, state)
    }

    /** What the loops of schedule work on. */
    ghost function Now(): Config
      reads this
    {
      Config(tasks, lists, state, directory, threads)
    }

    lemma ValidReady()
      requires Valid()
      ensures Ready(Now()) && Runner(Now()) == currentThread && currentTask in directory && currentThread in state
      ensures Sound(Now())
    {
      ReadyFacts(Now());
      LiveHere(tasks, lists, state, directory);
    }

    /** destroy_task of a task without threads; `false` is the panic of destroy_directory. */
    method DestroyTask(t: nat) returns (ok: bool)
      requires t in lists && lists[t].IsEmpty() && t in directory
      modifies `lists, `directory, `destroyed
      ensures ok <==> old(directory)[t] != kernelDirectory
      ensures ok ==> lists == old(lists) - {t} && directory == old(directory) - {t}
                     && destroyed == old(destroyed) + {old(directory)[t]}
      ensures !ok ==> lists == old(lists) && directory == old(directory) && destroyed == old(destroyed)
    {
      if directory[t] == kernelDirectory {
        return false;
      }
      destroyed := destroyed + {directory[t]};
      lists := lists - {t};
      directory := directory - {t};
      return true;
    }

    /** The inner loop of schedule. */
    method PickTask(ghost r: nat, ghost c: nat, ghost picked: bool) returns (chosen: Option<nat>)
      requires Picking(lists, directory, tasks, lists, state, directory, r, c, picked) && c in directory
      modifies `tasks, `lists, `directory, `destroyed
      ensures chosen.None? ==>
        exists t :: t in old(lists) && old(lists)[t].elems == []
          && t in old(directory) && old(directory)[t] == kernelDirectory
      ensures chosen.Some? ==>
        Picked(old(lists), old(directory), tasks, lists, state, directory, r, c, picked, chosen.value)
      ensures old(directory)[c] in destroyed ==> old(directory)[c] in old(destroyed)
      ensures PickNext(old(Now()), kernelDirectory)
           == if chosen.None? then None else Some(Now().(threads := chosen.value))
      ensures AllBusy(old(lists)) ==>
        lists == old(lists) && directory == old(directory) && chosen.Some?
        && (if old(tasks).IsEnd() then old(tasks).elems != [] && chosen.value == old(tasks).elems[0]
            else chosen.value == old(tasks).Current())
        && tasks == (if old(tasks).IsEnd() then old(tasks).Rewind() else old(tasks)).Next()
    {
      hide Picking, Picked, PickNext;
      chosen := None;
      while chosen.None?
        invariant chosen.None? ==> PickNext(old(Now()), kernelDirectory) == PickNext(Now(), kernelDirectory)
        invariant chosen.Some? ==> PickNext(old(Now()), kernelDirectory) == Some(Now().(threads := chosen.value))
        invariant AllBusy(old(lists)) ==> lists == old(lists) && directory == old(directory)
        invariant AllBusy(old(lists)) && chosen.None? ==> tasks == old(tasks)
        invariant AllBusy(old(lists)) && chosen.Some? ==>
          (if old(tasks).IsEnd() then old(tasks).elems != [] && chosen.value == old(tasks).elems[0]
           else chosen.value == old(tasks).Current())
          && tasks == (if old(tasks).IsEnd() then old(tasks).Rewind() else old(tasks)).Next()
        invariant chosen.None? ==>
          Picking(old(lists), old(directory), tasks, lists, state, directory, r, c, picked)
        invariant chosen.Some? ==>
          Picked(old(lists), old(directory), tasks, lists, state, directory, r, c, picked, chosen.value)
        invariant old(directory)[c] in destroyed ==> old(directory)[c] in old(destroyed)
        decreases |tasks.elems|, chosen.None?
      {
        PickWrap(old(lists), old(directory), tasks, lists, state, directory, r, c, picked);
        PickTurn(Now(), kernelDirectory);
        if tasks.IsEnd() {
          tasks := tasks.Rewind();
        }
        var t := tasks.Current();
        if lists[t].IsEmpty() {
          PickSkip(old(lists), old(directory), tasks, lists, state, directory, r, c, picked);
          tasks := tasks.Remove();
          var ok := DestroyTask(t);
          if !ok {
            return None;
          }
        } else {
          PickTake(old(lists), old(directory), tasks, lists, state, directory, r, c, picked);
          tasks := tasks.Next();
          chosen := Some(t);
        }
      }
    }

    /** Saves the registers into the record of the running thread, destroyed or not, and loads those of `thread`. */
    method SwitchContext(thread: nat, task: Option<nat>)
      requires thread in contexts && (task.Some? ==> task.value in directory)
      modifies `currentThread, `currentTask, `currentDirectory, `registers, `contexts, `strayStore
      ensures contexts == old(contexts)[old(currentThread) := old(registers)]
      ensures registers == contexts[thread]
      ensures strayStore <==> old(currentThread) !in state
      ensures currentThread == thread
      ensures task.Some? ==> currentTask == task.value && currentDirectory == directory[task.value]
      ensures task.None? ==> currentTask == old(currentTask) && currentDirectory == old(currentDirectory)
    {
      strayStore := currentThread !in state;
      contexts := contexts[currentThread := registers];
      currentThread := thread;
      if task.Some? {
        currentTask := task.value;
        currentDirectory := directory[task.value];
      }
      registers := contexts[currentThread];
    }

    /** The part of the outer loop that runs when a thread list is exhausted; `false` is a panic. */
    method ChangeTask(ghost lists0: ThreadLists, ghost state0: States, ghost dirs0: Dirs,
                      ghost r: nat, ghost x: nat, ghost c: nat, ghost picked: bool) returns (ok: bool)
      requires Turning(lists0, state0, dirs0, tasks, lists, state, directory, threads, r, x, c, picked)
      requires c in directory && threads in lists && lists[threads].IsEnd()
      modifies `tasks, `lists, `directory, `threads, `destroyed
      ensures old(directory)[c] in destroyed ==> old(directory)[c] in old(destroyed)
      ensures ok ==>
        Turning(lists0, state0, dirs0, tasks, lists, state, directory, threads, r, x, c, picked || threads == c)
        && threads in lists && !lists[threads].IsEnd()
      ensures !ok ==> Orphaned(lists0, state0, dirs0, kernelDirectory)
      ensures Arrive(old(Now()), kernelDirectory) == if ok then Some(Now()) else None
      ensures var p := Place(old(tasks), old(lists), old(threads));
        p.Ok() ==>
          ok && threads == p.NextTask() && directory == old(directory)
          && Place(tasks, lists[threads := lists[threads].Next()], threads) == p.Advance()
          && lists[threads].Current() == p.Chosen()
    {
      hide Turning, Picking, Picked, Orphaned, PickNext;
      ghost var tasks1, lists1, dirs1, threads1 := tasks, lists, directory, threads;
      TurnPicks(lists0, state0, dirs0, tasks, lists, state, directory, threads, r, x, c, picked);
      lists := lists[threads := lists[threads].Rewind()];
      var chosen := PickTask(r, c, picked);
      if chosen.None? {
        PanicReaped(lists0, state0, dirs0, tasks1, lists1, state, dirs1, threads1, r, x, c, picked, kernelDirectory);
        return false;
      }
      threads := chosen.value;
      TurnPicked(lists0, state0, dirs0, tasks1, lists1, state, dirs1, threads1, r, x, c, picked,
                 tasks, lists, directory, threads);
      PickedHere(lists1[threads1 := lists1[threads1].Rewind()], dirs1, tasks, lists, state, directory, r, c, picked,
                 threads);
      lists := lists[threads := lists[threads].Rewind()];
      return true;
    }

    /** The loops of schedule: the next thread to run and, if it is not the running one, its task. */
    method NextThread(ghost r: nat, ghost x: nat) returns (thread: Option<nat>, task: Option<nat>, o: Outcome)
      requires Valid() && r in lists && x in lists[r].elems && x in state && state[x] != Dying
      modifies `tasks, `lists, `state, `directory, `threads, `destroyed
      ensures old(currentDirectory) in destroyed ==> old(currentDirectory) in old(destroyed)
      ensures thread.Some? ==>
        Ran(old(lists), old(state), old(directory), tasks, lists, state, directory, threads, currentTask, thread.value)
        && task == (if threads == currentTask then None else Some(threads))
      ensures thread.Some? ==>
        Stepped(Place(old(tasks), old(lists), old(threads)), old(state), Place(tasks, lists, threads), state,
                thread.value)
      ensures thread.Some? ==> Settles(old(Now()), kernelDirectory, Now(), thread.value)
      ensures thread.None? && o.Spinning? ==> Stuck(old(Now()), kernelDirectory, Now(), o.thread)
      ensures thread.None? && o.Panicked? ==> Fails(old(Now()), kernelDirectory)
      ensures thread.None? ==> !(Place(old(tasks), old(lists), old(threads)).Ok() && Steady(old(lists), old(state)))
      ensures thread.None? ==> o.Spinning? || o.Panicked?
      ensures thread.None? && o.Spinning? ==> Waits(old(lists), old(state), o.thread)
      ensures thread.None? && o.Panicked? ==> Orphaned(old(lists), old(state), old(directory), kernelDirectory)
    {
      hide Turning, Picking, Picked, Listed, Reaped, Behind, Ran, Steady, Stepped, Undecided, Arriving, Orphaned;
      hide Place.Ok, Place.Advance, Place.Chosen, Place.NextTask;
      hide Arrive, Arrives, Passing, Settles, Stuck, LooksAt, Waits, Fails;
      thread, task, o := None, None, Resumed;
      ghost var c, picked := currentTask, false;
      ghost var lists0, state0, dirs0 := lists, state, directory;
      ghost var p, start := Place(tasks, lists, threads), Now();
      PassStarts(start, kernelDirectory);
      TurnStart(tasks, lists, state, directory, threads, r, x, c);
      StartUndecided(p, state);
      while thread.None?
        invariant thread.None? ==>
          Turning(lists0, state0, dirs0, tasks, lists, state, directory, threads, r, x, c, picked)
        invariant thread.Some? ==>
          Ran(lists0, state0, dirs0, tasks, lists, state, directory, threads, c, thread.value)
        invariant task == (if threads == c then None else Some(threads))
        invariant thread.None? ==> Undecided(p, state0, Place(tasks, lists, threads), state)
        invariant thread.Some? ==> Stepped(p, state0, Place(tasks, lists, threads), state, thread.value)
        invariant thread.None? ==> Passing(start, kernelDirectory, Now())
        invariant thread.Some? ==> Settles(start, kernelDirectory, Now(), thread.value)
        invariant currentDirectory in destroyed ==> currentDirectory in old(destroyed)
        decreases state.Keys, thread.None?
      {
        TurnFacts(lists0, state0, dirs0, tasks, lists, state, directory, threads, r, x, c, picked);
        ghost var q, e := Place(tasks, lists, threads), Now();
        StayingArrives(e, kernelDirectory);
        if lists[threads].IsEnd() {
          var ok := ChangeTask(lists0, state0, dirs0, r, x, c, picked);
          if !ok {
            StuckUndecided(p, state0, q, state);
            FailsThere(start, kernelDirectory, e);
            return None, None, Panicked;
          }
          ArriveNext(p, state0, q, tasks, lists, threads, state);
          task := if threads == currentTask then None else Some(threads);
          picked := picked || threads == c;
          TurnFacts(lists0, state0, dirs0, tasks, lists, state, directory, threads, r, x, c, picked);
        } else {
          ArriveHere(p, state0, tasks, lists, threads, state);
        }
        PassOn(start, kernelDirectory, e);
        var t, s := LookAtThread(lists0, state0, dirs0, p, start, r, x, c, picked);
        if s == Waiting {
          return None, None, Spinning(t);
        } else if s == Running {
          thread := Some(t);
        }
      }
    }

    /** The switch of schedule on the state of the thread at the cursor. */
    method LookAtThread(ghost lists0: ThreadLists, ghost state0: States, ghost dirs0: Dirs, ghost p: Place,
                        ghost start: Config,
                        ghost r: nat, ghost x: nat, ghost c: nat, ghost picked: bool) returns (t: nat, s: ThreadState)
      requires Turning(lists0, state0, dirs0, tasks, lists, state, directory, threads, r, x, c, picked)
      requires threads in lists && !lists[threads].IsEnd() && Arrives(start, kernelDirectory, Now())
      requires Arriving(p, state0, tasks, lists, threads, state, lists[threads].Current())
      modifies `lists, `state
      ensures s == Dying ==>
        && Turning(lists0, state0, dirs0, tasks, lists, state, directory, threads, r, x, c, picked)
        && Undecided(p, state0, Place(tasks, lists, threads), state) && Passing(start, kernelDirectory, Now())
        && state.Keys < old(state.Keys)
      ensures s != Dying ==> state == old(state)
      ensures s == Waiting ==>
        && Stuck(start, kernelDirectory, Now(), t) && Waits(lists0, state0, t) && !(p.Ok() && Steady(p.lists, state0))
      ensures s == Running ==>
        && Ran(lists0, state0, dirs0, tasks, lists, state, directory, threads, c, t)
        && Stepped(p, state0, Place(tasks, lists, threads), state, t) && Settles(start, kernelDirectory, Now(), t)
    {
      hide Turning, Listed, Reaped, Ran, Steady, Stepped, Undecided, Arriving, Place.Ok, Place.Advance, Place.Chosen;
      hide Arrives, Passing, Settles, Stuck, LooksAt;
      TurnFacts(lists0, state0, dirs0, tasks, lists, state, directory, threads, r, x, c, picked);
      t := lists[threads].Current();
      s := state[t];
      LookHere(start, kernelDirectory, Now(), t);
      Arrived(p, state0, tasks, lists, threads, state, t);
      match s {
        case Dying =>
          TurnReaps(lists0, state0, dirs0, tasks, lists, state, directory, threads, r, x, c, picked);
          lists := lists[threads := lists[threads].Remove()];
          state := state - {t};
        case Waiting =>
        case Running =>
          TurnRuns(lists0, state0, dirs0, tasks, lists, state, directory, threads, r, x, c, picked);
          lists := lists[threads := lists[threads].Next()];
      }
    }

    /** The loops of schedule from a state where no call is under way. */
    method FindThread() returns (thread: Option<nat>, task: Option<nat>, o: Outcome)
      requires Valid() && Live()
      modifies `tasks, `lists, `state, `directory, `threads, `destroyed
      ensures old(currentDirectory) !in destroyed
      ensures thread.Some? ==>
        && Listed(tasks, lists, state, directory) && Behind(tasks, threads) && threads in lists && threads in directory
        && 0 < lists[threads].curr <= |lists[threads].elems|
        && lists[threads].elems[lists[threads].curr - 1] == thread.value
        && thread.value in state && state[thread.value] == Running && state.Keys <= old(state.Keys)
      ensures thread.Some? ==>
        && currentTask in lists && currentTask in directory && directory[currentTask] == currentDirectory
        && (thread.value == currentThread ==> threads == currentTask)
        && task == (if threads == currentTask then None else Some(threads))
      ensures thread.Some? ==>
        && Reaped(old(lists), old(state), lists, state) && Settles(old(Now()), kernelDirectory, Now(), thread.value)
        && Stepped(Place(old(tasks), old(lists), old(threads)), old(state), Place(tasks, lists, threads), state,
                   thread.value)
        && Ready(old(Now())) && (currentThread !in state <==> LosesRecord(old(Now())))
      ensures thread.None? ==>
        && (o.Spinning? || o.Panicked?)
        && (o.Spinning? ==>
              Stuck(old(Now()), kernelDirectory, Now(), o.thread) && Waits(old(lists), old(state), o.thread))
        && (o.Panicked? ==>
              Fails(old(Now()), kernelDirectory) && Orphaned(old(lists), old(state), old(directory), kernelDirectory))
        && !(Place(old(tasks), old(lists), old(threads)).Ok() && Steady(old(lists), old(state)))
    {
      hide Listed, Reaped, Behind, Steady, Stepped, Waits, Orphaned, Settles, Stuck, Fails, LosesRecord, Ready,
           Runner, Ran,
           Place.Ok;
      ValidReady();
      destroyed := {};
      ghost var r, x :| r in lists && x in lists[r].elems && x in state && state[x] != Dying;
      ghost var lists0, state0, dirs0, tasks0 := lists, state, directory, tasks;
      thread, task, o := NextThread(r, x);
      if thread.Some? {
        RanAll(lists0, state0, dirs0, tasks, lists, state, directory, threads, currentTask, thread.value,
               currentThread, tasks0);
        RecordLost(old(Now()), kernelDirectory, Now(), thread.value);
      }
    }

    /**
      Switches to the next thread that can run, if that comes up before any that waits: the
      outcome is told by `NextStop` of the state before the call.  The task left behind is
      never destroyed, only dying threads and tasks without threads go, and switch_context is
      told of a task exactly when the thread belongs to another one.  The registers saved are those of the
      thread left, those loaded the ones saved when it was left; the record written to has
      been destroyed exactly when `LosesRecord` held before.
    */
    method Schedule() returns (o: Outcome)
      requires Valid() && Live()
      modifies `tasks, `lists, `state, `directory, `threads, `destroyed, `currentThread, `currentTask,
               `currentDirectory, `registers, `contexts, `strayStore
      ensures old(currentDirectory) !in destroyed
      ensures o.Switched? ==>
        && contexts == old(contexts)[old(currentThread) := old(registers)]
        && currentThread in old(contexts) && registers == old(contexts)[currentThread]
      ensures !o.Switched? ==>
        && contexts == old(contexts) && registers == old(registers) && currentThread == old(currentThread)
        && currentTask == old(currentTask) && currentDirectory == old(currentDirectory)
      ensures Ready(old(Now())) && (o.Resumed? || o.Switched? ==> (strayStore <==> LosesRecord(old(Now()))))
      ensures o.Resumed? || o.Switched? ==>
        && Valid() && Reaped(old(lists), old(state), lists, state) && old(currentTask) in lists
        && currentThread in state && state[currentThread] == Running
      ensures o.Switched? ==>
        o.thread == currentThread && currentThread != old(currentThread)
        && o.task == if currentTask == old(currentTask) then None else Some(currentTask)
      ensures o.Spinning? ==> Waits(old(lists), old(state), o.thread)
      ensures o.Resumed? || o.Switched? ==> Settles(old(Now()), kernelDirectory, Now(), currentThread)
      ensures o.Spinning? ==> Stuck(old(Now()), kernelDirectory, Now(), o.thread)
      ensures o.Panicked? ==> Orphaned(old(lists), old(state), old(directory), kernelDirectory)
      ensures Sound(old(Now())) && NextStop(old(Now()), kernelDirectory).Some?
      ensures var stop := NextStop(old(Now()), kernelDirectory).value;
        && (o.Panicked? <==> stop.Drop?)
        && (o.Spinning? <==> stop.Look? && stop.thread in old(state) && old(state)[stop.thread] == Waiting)
        && (o.Spinning? ==> o.thread == stop.thread)
        && (o.Resumed? || o.Switched? ==>
              stop == Look(currentThread) && currentThread in old(state) && old(state)[currentThread] == Running)
      ensures var p := Place(old(tasks), old(lists), old(threads));
        && (o.Resumed? || o.Switched? ==> Stepped(p, old(state), Place(tasks, lists, threads), state, currentThread))
        && (p.Ok() && Steady(old(lists), old(state)) ==> o.Resumed? || o.Switched?)
    {
      hide Listed, Reaped, Behind, Steady, Stepped, Waits, Orphaned, Settles, Stuck, LosesRecord, Ready, Runner,
           Place.Ok, AnyLive,
           Sound, NextStop, Ends, Fails;
      ValidReady();
      ghost var start := Now();
      EndsSomewhere(start, kernelDirectory);
      ghost var stop := NextStop(start, kernelDirectory).value;
      strayStore := false;
      var thread, task, stopped := FindThread();
      if thread.None? {
        if stopped.Spinning? {
          StuckAt(start, kernelDirectory, stop, Now(), stopped.thread);
        } else {
          FailsAt(start, kernelDirectory, stop);
        }
        return stopped;
      }
      SettlesAt(start, kernelDirectory, stop, Now(), thread.value);
      if currentThread != thread.value {
        SwitchContext(thread.value, task);
        o := Switched(thread.value, task);
      } else {
        o := Resumed;
      }
    }

    // ------------------------------------------------------------ the other entry points

    /** init_tasking and init_scheduler: one task, one running thread. */
    constructor (task: nat, thread: nat, dir: nat, kernelDir: nat, initial: Registers)
      ensures Valid() && Live() && currentTask == task && currentThread == thread
      ensures tasks == Cursor([task], 0) && lists == map[task := Cursor([thread], 1)] && threads == task
      ensures state == map[thread := Running] && directory == map[task := dir] && currentDirectory == dir
      ensures kernelDirectory == kernelDir && registers == initial && contexts == map[thread := NO_REGISTERS]
      ensures destroyed == {} && !strayStore
    {
      tasks := Cursor([task], 0);
      lists := map[task := Cursor([thread], 1)];
      state := map[thread := Running];
      directory := map[task := dir];
      threads, currentTask, currentThread, currentDirectory := task, task, thread, dir;
      kernelDirectory := kernelDir;
      registers, contexts := initial, map[thread := NO_REGISTERS];
      destroyed, strayStore := {}, false;
      new;
      LivesThere(lists, state, task, thread);
    }

    /** create_task and schedule_add_task: a new task with its main thread.  list_push_back does not check for room. */
    method ScheduleAddTask(task: nat, thread: nat, dir: nat, context: Registers)
      requires Valid() && task !in lists && thread !in state && forall t | t in directory :: directory[t] != dir
      requires |tasks.elems| < LIST_SLOTS
      modifies `tasks, `lists, `state, `directory, `contexts
      ensures contexts == old(contexts)[thread := context] && |tasks.elems| <= LIST_SLOTS
      ensures Valid() && Live()
      ensures tasks == Cursor(old(tasks).elems + [task], old(tasks).curr)
      ensures lists == old(lists)[task := Cursor([thread], 0)]
      ensures state == old(state)[thread := Running] && directory == old(directory)[task := dir]
    {
      hide Listed, Behind, AnyLive, NoDup;
      AddTask(tasks, lists, state, directory, task, thread, dir);
      LiveHere(tasks, lists, state, directory);
      BehindStill(tasks, currentTask, task);
      tasks := tasks.PushBack(task);
      lists := lists[task := Cursor([thread], 0)];
      state := state[thread := Running];
      directory := directory[task := dir];
      contexts := contexts[thread := context];
      LivesThere(lists, state, task, thread);
    }

    /** create_thread and task_add_thread. */
    method TaskAddThread(task: nat, thread: nat, context: Registers)
      requires Valid() && task in lists && thread !in state && |lists[task].elems| < LIST_SLOTS
      modifies `lists, `state, `contexts
      ensures contexts == old(contexts)[thread := context] && task in lists && |lists[task].elems| <= LIST_SLOTS
      ensures Valid() && Live()
      ensures var l := old(lists)[task]; lists == old(lists)[task := Cursor(l.elems + [thread], l.curr)]
      ensures state == old(state)[thread := Running]
    {
      hide Listed, Behind, AnyLive, NoDup;
      AddThread(tasks, lists, state, directory, task, thread);
      lists := lists[task := lists[task].PushBack(thread)];
      state := state[thread := Running];
      contexts := contexts[thread := context];
      LivesThere(lists, state, task, thread);
    }

    /** sleep: the running thread waits, so schedule never comes back to it by itself. */
    method Sleep() returns (o: Outcome)
      requires Valid()
      modifies `tasks, `lists, `state, `directory, `threads, `destroyed, `currentThread, `currentTask,
               `currentDirectory, `registers, `contexts, `strayStore
      ensures o.Switched? ==> !strayStore && contexts == old(contexts)[old(currentThread) := old(registers)]
      ensures !o.Resumed? && old(currentDirectory) !in destroyed
      ensures o.Switched? ==>
        && Valid() && old(currentTask) in lists && old(currentThread) in lists[old(currentTask)].elems
        && old(currentThread) in state && state[old(currentThread)] == Waiting
        && o.thread == currentThread != old(currentThread)
      ensures o.Spinning? ==> Waits(old(lists), old(state)[old(currentThread) := Waiting], o.thread)
      ensures var asleep := old(Now()).(state := old(state)[old(currentThread) := Waiting]);
        && Sound(asleep) && NextStop(asleep, kernelDirectory).Some?
        && (o.Switched? ==> NextStop(asleep, kernelDirectory) == Some(Look(currentThread)))
        && (o.Spinning? ==> NextStop(asleep, kernelDirectory) == Some(Look(o.thread)))
        && (o.Panicked? <==> NextStop(asleep, kernelDirectory).value.Drop?)
    {
      hide Listed, Reaped, Behind, Steady, Stepped, Orphaned, AnyLive, Waits, Ready, Runner, LosesRecord, Settles,
           Stuck, Place.Ok,
           Sound, NextStop;
      ghost var c, y := currentTask, currentThread;
      ValidReady();
      SetState(tasks, lists, state, directory, y, Waiting);
      state := state[currentThread := Waiting];
      LivesThere(lists, state, c, y);
      ValidReady();
      NotLost(Now());
      ghost var lists0, state0 := lists, state;
      assert Now() == old(Now()).(state := old(state)[old(currentThread) := Waiting]);
      o := Schedule();
      if o.Resumed? || o.Switched? {
        NotReaped(lists0, state0, lists, state, c, y);
      }
    }

    method Wakeup(thread: nat)
      requires Valid() && thread in state
      modifies `state
      ensures Valid() && state == old(state)[thread := Running]
    {
      state := state[thread := Running];
    }

    /** A thread cannot kill itself this way. */
    method Kill(thread: nat)
      requires Valid() && thread in state
      modifies `state
      ensures Valid()
      ensures state == if thread != currentThread then old(state)[thread := Dying] else old(state)
    {
      if thread != currentThread {
        state := state[thread := Dying];
      }
    }

    /** thread_exit: the thread marks itself; the next call of schedule takes it away. */
    method ThreadExit()
      requires Valid() && currentThread in state
      modifies `state
      ensures Valid() && state == old(state)[currentThread := Dying]
    {
      state := state[currentThread := Dying];
    }
  }
}
