// WorkerThread: one FIFO queue, any number of producers, one consumer that survives tasks
// that raise and leaves its loop at the first stop task.
module Worker {
  import opened Bytes
  import opened Runs

  datatype Task =
    | Job(id: nat, raises: bool)  // a callable task, which returns or raises
    | Inert(id: nat)              // put on the queue, but not callable
    | StopTask                    // raises StopWorkerThreadException

  /** How a task ends: by returning, by an exception that is logged, or by the stop exception. */
  datatype Ending = Returned | Raised | Stopped

  function EndingOf(task: Task): Ending {
    match task
    case Job(_, raises) => if raises then Raised else Returned
    case Inert(_) => Returned
    case StopTask => Stopped
  }

  /** The tasks among these that are called at all. */
  function Callable(tasks: seq<Task>): seq<Task> {
    if tasks == [] then []
    else (if tasks[0].Inert? then [] else [tasks[0]]) + Callable(tasks[1..])
  }

  /** How many of these are called and raise. */
  function Raising(tasks: seq<Task>): nat {
    if tasks == [] then 0 else (if tasks[0].Job? && tasks[0].raises then 1 else 0) + Raising(tasks[1..])
  }

  lemma {:induction false} RaisingSnoc(tasks: seq<Task>, task: Task)
    ensures Raising(tasks + [task]) == Raising(tasks) + (if task.Job? && task.raises then 1 else 0)
  {
    if tasks == [] {
      assert tasks + [task] == [task];
    } else {
      assert (tasks + [task])[1..] == tasks[1..] + [task];
      RaisingSnoc(tasks[1..], task);
    }
  }

  lemma {:induction false} CallableSnoc(tasks: seq<Task>, task: Task)
    ensures Callable(tasks + [task]) == Callable(tasks) + (if task.Inert? then [] else [task])
  {
    if tasks == [] {
      assert tasks + [task] == [task];
    } else {
      assert (tasks + [task])[1..] == tasks[1..] + [task];
      CallableSnoc(tasks[1..], task);
      Assoc(if tasks[0].Inert? then [] else [tasks[0]], Callable(tasks[1..]), if task.Inert? then [] else [task]);
    }
  }

  /** `put` and `fetched` are the history of the queue; `executed` is what was called. */
  datatype State = State(queue: seq<Task>, put: seq<Task>, fetched: seq<Task>, executed: seq<Task>, running: bool)

  datatype Action = Put(task: Task) | FetchAndExecute

  const INITIAL := State([], [], [], [], true)

  predicate Enabled(s: State, a: Action) {
    a.FetchAndExecute? ==> s.running && s.queue != []
  }

  function Step(s: State, a: Action): State
    requires Enabled(s, a)
  {
    match a
    case Put(task) => s.(queue := s.queue + [task], put := s.put + [task])
    case FetchAndExecute =>
      var task := s.queue[0];
      s.(queue := s.queue[1..],
         fetched := s.fetched + [task],
         executed := if task.Inert? then s.executed else s.executed + [task],
         running := !EndingOf(task).Stopped?)
  }

  function Machine(): System<State, Action> {
    System((s, a) => Enabled(s, a), (s, a) => if Enabled(s, a) then Step(s, a) else s)
  }

  /** The tasks up to and including the first stop task. */
  function UpToStop(tasks: seq<Task>): seq<Task> {
    if tasks == [] then [] else if tasks[0] == StopTask then [StopTask] else [tasks[0]] + UpToStop(tasks[1..])
  }

  lemma {:induction false} UpToStopAppend(before: seq<Task>, after: seq<Task>)
    ensures StopTask in before ==> UpToStop(before + after) == UpToStop(before)
    ensures StopTask !in before ==> UpToStop(before + after) == before + UpToStop(after)
  {
    if before == [] {
      assert before + after == after;
    } else {
      assert (before + after)[1..] == before[1..] + after;
      UpToStopAppend(before[1..], after);
    }
  }

  /** What is called of some tasks is said task by task. */
  lemma {:induction false} CallableParts(before: seq<Task>, task: Task, after: seq<Task>)
    ensures Callable(before + [task] + after)
         == Callable(before) + (if task.Inert? then [] else [task]) + Callable(after)
    ensures Callable([]) == []
  {
    if before == [] {
      assert ([] + [task] + after)[1..] == after;
    } else {
      assert (before + [task] + after)[1..] == before[1..] + [task] + after;
      CallableParts(before[1..], task, after);
    }
  }

  /** The first stop task is the last one that is taken. */
  lemma StopCuts(before: seq<Task>, after: seq<Task>)
    requires StopTask !in before
    ensures UpToStop(before) == before && UpToStop(before + [StopTask] + after) == before + [StopTask]
  {
    UpToStopAppend(before, []);
    UpToStopAppend(before, [StopTask] + after);
    assert before + [] == before;
    assert before + [StopTask] + after == before + ([StopTask] + after);
  }

  predicate Invariant(s: State) {
    && s.put == s.fetched + s.queue && s.executed == Callable(s.fetched)
    && (if s.running then StopTask !in s.fetched
        else s.fetched != [] && s.fetched[|s.fetched| - 1] == StopTask && StopTask !in s.fetched[..|s.fetched| - 1])
  }

  lemma StepKeepsInvariant(s: State, a: Action)
    requires Invariant(s) && Enabled(s, a)
    ensures Invariant(Step(s, a))
  {
    match a
    case Put(task) => Assoc(s.fetched, s.queue, [task]);
    case FetchAndExecute =>
      Assoc(s.fetched, [s.queue[0]], s.queue[1..]);
      assert s.queue == [s.queue[0]] + s.queue[1..];
      assert (s.fetched + [s.queue[0]])[..|s.fetched|] == s.fetched;
      CallableSnoc(s.fetched, s.queue[0]);
  }

  /** Over every interleaving of producers and worker: tasks are taken in the order they were
      put, each once, and called if they are callable; one that raises does not stop the
      worker; and once the worker has exited it has taken exactly the tasks up to the first
      stop, and nothing after it. */
  lemma FifoWithStop(run: seq<Action>)
    requires CanRun(Machine(), INITIAL, run)
    ensures var s := After(Machine(), INITIAL, run);
            && s.fetched <= UpToStop(s.put) && s.executed == Callable(s.fetched)
            && (!s.running ==> s.fetched == UpToStop(s.put))
            && (s.running && s.queue == [] ==> s.fetched == s.put && StopTask !in s.put)
  {
    var s := After(Machine(), INITIAL, run);
    forall t, a | Invariant(t) && Enabled(t, a) ensures Invariant(Step(t, a)) {
      StepKeepsInvariant(t, a);
    }
    Keeps(Machine(), t => Invariant(t), INITIAL, run);
    if s.running {
      UpToStopAppend(s.fetched, s.queue);
    } else {
      var n := |s.fetched| - 1;
      assert s.fetched == s.fetched[..n] + [StopTask];
      assert s.put == s.fetched[..n] + ([StopTask] + s.queue);
      UpToStopAppend(s.fetched[..n], [StopTask] + s.queue);
    }
  }

  class WorkerThread {
    var taskQueue: seq<Task>
    var executed: seq<Task>  // the tasks that were called, in order
    var logged: nat          // how many of them raised

    constructor ()
      ensures taskQueue == [] && executed == [] && logged == 0
    {
      taskQueue, executed, logged := [], [], 0;
    }

    method PutTask(task: Task)
      modifies this`taskQueue
      ensures taskQueue == old(taskQueue) + [task]
    {
      taskQueue := taskQueue + [task];
    }

    method Stop()
      modifies this`taskQueue
      ensures taskQueue == old(taskQueue) + [StopTask]
    {
      PutTask(StopTask);
    }

    /** One task is taken and, if callable, called. */
    method FetchAndExecuteOnce() returns (e: Ending)
      requires taskQueue != []
      modifies this`taskQueue, this`executed
      ensures e == EndingOf(old(taskQueue)[0])
      ensures taskQueue == old(taskQueue)[1..]
      ensures executed == old(executed) + if old(taskQueue)[0].Inert? then [] else [old(taskQueue)[0]]
    {
      var task := taskQueue[0];
      taskQueue := taskQueue[1..];
      CallableSnoc([], task);
      assert [] + [task] == [task];
      if !task.Inert? {
        executed := executed + [task];
      }
      e := EndingOf(task);
    }

    /** The run loop. `arrivals` is what the producers put while it runs, in batches, each at
        any moment. It ends with the first stop task, or blocked in get when no producer is
        left. Exceptions of other tasks are logged. */
    method Run(arrivals: seq<seq<Task>>) returns (stopped: bool)
      modifies this
      ensures var all := old(taskQueue) + Concat(arrivals);
              && executed == old(executed) + Callable(UpToStop(all))
              && logged == old(logged) + Raising(UpToStop(all))
              && (stopped <==> StopTask in all)
    {
      ghost var all, start := taskQueue + Concat(arrivals), executed;
      ghost var done, later := [], Concat(arrivals);
      var i := 0;
      assert arrivals[0..] == arrivals && [] + all == all;
      while true
        invariant i <= |arrivals|
        invariant all == done + (taskQueue + later) && later == Concat(arrivals[i..])
        invariant executed == start + Callable(done) && StopTask !in done
        invariant logged == old(logged) + Raising(done)
        decreases |arrivals| - i, |taskQueue|
      {
        var put := taskQueue == [];
        if * { put := true; }
        if put && i < |arrivals| {
          NextBatch(taskQueue, arrivals, i);
          taskQueue := taskQueue + arrivals[i];
          i := i + 1;
          later := Concat(arrivals[i..]);
        } else if taskQueue == [] {
          Drained(all, done);
          return false;
        } else {
          ghost var task := taskQueue[0];
          HeadOff(taskQueue, later);
          OneTaken(all, done, task, taskQueue[1..] + later, start);
          RaisingSnoc(done, task);
          var e := FetchAndExecuteOnce();
          done := done + [task];
          if e.Stopped? {
            return true;
          }
          if e.Raised? {
            logged := logged + 1;
          }
        }
      }
    }
  }

  lemma Drained(all: seq<Task>, done: seq<Task>)
    requires all == done + ([] + []) && StopTask !in done
    ensures UpToStop(all) == done && StopTask !in all
  {
    UpToStopAppend(done, []);
    assert all == done && done + [] == done;
  }

  lemma NextBatch(queue: seq<Task>, arrivals: seq<seq<Task>>, i: nat)
    requires i < |arrivals|
    ensures queue + Concat(arrivals[i..]) == (queue + arrivals[i]) + Concat(arrivals[i + 1..])
  {
    assert arrivals[i..] == [arrivals[i]] + arrivals[i + 1..];
    ConcatCons(arrivals[i], arrivals[i + 1..]);
    Assoc(queue, arrivals[i], Concat(arrivals[i + 1..]));
  }

  lemma HeadOff(queue: seq<Task>, later: seq<Task>)
    requires queue != []
    ensures queue + later == [queue[0]] + (queue[1..] + later)
  {
  }

  /** The task that was taken is the next one of all that are ever put. */
  lemma OneTaken(all: seq<Task>, done: seq<Task>, task: Task, rest: seq<Task>, start: seq<Task>)
    requires all == done + ([task] + rest) && StopTask !in done
    ensures all == (done + [task]) + rest
    ensures start + Callable(done) + Callable([task]) == start + Callable(done + [task])
    ensures task == StopTask ==> UpToStop(all) == done + [task] && StopTask in all
  {
    CallableSnoc(done, task);
    CallableSnoc([], task);
    assert [] + [task] == [task];
    Assoc(start, Callable(done), Callable([task]));
    UpToStopAppend(done, [task] + rest);
    assert all[|done|] == task;
    if task == StopTask {
      assert UpToStop([task] + rest) == [task];
    }
  }
}
