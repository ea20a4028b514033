/** The worker pool: callers of `schedule`, pool starters and workers interleaving over the
    pool's counters and its task channel.  Every locked section, every channel operation and
    every resize is one step. */
module WorkerPool {

  const IDLE := 0
  const RUNNING := 1
  const TERMINATED := 3

  /** A task is named by the call of `schedule` that brings it. */
  type Task = nat

  // ----- The shared fields -----

  datatype Pool = Pool(status: int, total: int, started: int, busy: int, waitGroup: int, capacity: int, queue: seq<Task>)

  /** `getInRangeInt`: the value of the range that is nearest to the one asked for. */
  function GetInRangeInt(value: int, min: int, max: int): (r: int)
    ensures min <= max ==> min <= r <= max
    ensures min <= max ==> forall x :: min <= x <= max ==> Distance(value, r) <= Distance(value, x)
  {
    if value < min then min else if value > max then max else value
  }

  function Distance(a: int, b: int): int {
    if a < b then b - a else a - b
  }

  function NewPool(maxPoolSize: int, workerSize: int): (p: Pool)
    ensures 2 <= p.total <= 1024 && 16 <= p.capacity <= 2048
    ensures 2 <= workerSize <= 1024 ==> p.total == workerSize
    ensures 16 <= maxPoolSize <= 2048 ==> p.capacity == maxPoolSize
  {
    Pool(IDLE, GetInRangeInt(workerSize, 2, 1024), 0, 0, 0, GetInRangeInt(maxPoolSize, 16, 2048), [])
  }

  /** The locked section of `tryAddAndRunWorker`. */
  function AddedWorker(p: Pool): Pool {
    if p.started < p.total then p.(waitGroup := p.waitGroup + 1, started := p.started + 1) else p
  }

  function Resized(p: Pool, size: int): Pool {
    if size > p.total then p.(total := size) else p
  }

  class AsyncPool {
    var status: int
    var numTotWorkers: int
    var numStartedWorkers: int
    var numBusyWorkers: int
    var stopWaitGroup: int
    var channel: seq<Task>
    const capacity: int

    ghost function View(): Pool
      reads this
    {
      Pool(status, numTotWorkers, numStartedWorkers, numBusyWorkers, stopWaitGroup, capacity, channel)
    }

    constructor (maxPoolSize: int, workerSize: int)
      ensures View() == NewPool(maxPoolSize, workerSize)
    {
      status, numTotWorkers, numStartedWorkers, numBusyWorkers := IDLE, GetInRangeInt(workerSize, 2, 1024), 0, 0;
      stopWaitGroup, channel, capacity := 0, [], GetInRangeInt(maxPoolSize, 16, 2048);
    }

    method SetStatus(s: int)
      modifies this`status
      ensures View() == old(View()).(status := if 0 <= s < 4 then s else old(status))
    {
      if s >= 0 && s < 4 {
        status := s;
      }
    }

    method IncrementNumBusyWorkers()
      modifies this`numBusyWorkers
      ensures View() == old(View()).(busy := old(numBusyWorkers) + 1)
    {
      numBusyWorkers := numBusyWorkers + 1;
    }

    method DecrementNumBusyWorkers()
      modifies this`numBusyWorkers
      ensures View() == old(View()).(busy := old(numBusyWorkers) - 1)
    {
      numBusyWorkers := numBusyWorkers - 1;
    }

    /** Answers whether a worker was started. */
    method AddWorker() returns (added: bool)
      modifies this
      ensures View() == AddedWorker(old(View()))
      ensures added <==> numStartedWorkers == old(numStartedWorkers) + 1
    {
      added := numStartedWorkers < numTotWorkers;
      if added {
        stopWaitGroup := stopWaitGroup + 1;
        numStartedWorkers := numStartedWorkers + 1;
      }
    }

    method IncreaseWorkerSizeTo(size: int) returns (increased: bool)
      modifies this`numTotWorkers
      ensures View() == Resized(old(View()), size)
      ensures increased <==> numTotWorkers > old(numTotWorkers)
    {
      if size > numTotWorkers {
        numTotWorkers := size;
        return true;
      }
      return false;
    }
  }

  // ----- Threads and workers -----

  /** Where a caller of `schedule`, or a goroutine running `initWorker`, stands. */
  datatype Place =
    | Enter                   // schedule is about to read the status
    | StartCheck              // start is about to read the status
    | SetRunning              // start is about to set the status
    | Spawn                   // start is about to launch initWorker
    | ReadStatus              // NumBusyWorkers is about to read the status
    | ReadBusy                // NumBusyWorkers is about to read the counter
    | ReadStarted(busy: int)  // NumStartedWorkers is about to read the other counter
    | AddCheck(init: bool)    // tryAddAndRunWorker is about to read the status
    | Add(init: bool)         // tryAddAndRunWorker is about to enter its locked section
    | Send                    // the task is about to be put into the channel
    | Sent
    | Dropped                 // the pool was no longer running
    | Wait                    // initWorker is waiting for all workers to end
    | Ended

  /** Where a worker stands with the task it took. */
  datatype Phase = Free | Took(task: Task) | Running(task: Task) | Ran(task: Task)

  /** The last three fields are histories: tasks in the order of entering the channel, of
      leaving it, of being begun, and of being finished. */
  datatype State = State(pool: Pool, threads: seq<Place>, workers: seq<Phase>,
                         sent: seq<Task>, taken: seq<Task>, begun: seq<Task>, done: seq<Task>)

  datatype Action = Call | Resize(size: int) | Thread(i: nat) | Worker(w: nat)

  function Init(maxPoolSize: int, workerSize: int): State {
    State(NewPool(maxPoolSize, workerSize), [], [], [], [], [], [])
  }

  predicate Enabled(s: State, a: Action) {
    match a
    case Call => true
    case Resize(_) => true
    case Thread(i) =>
      i < |s.threads| &&
      (match s.threads[i]
       case Send => |s.pool.queue| < s.pool.capacity
       case Wait => s.pool.waitGroup == 0
       case Sent => false
       case Dropped => false
       case Ended => false
       case _ => true)
    case Worker(w) => w < |s.workers| && (s.workers[w].Free? ==> s.pool.queue != [])
  }

  function Goto(s: State, i: nat, p: Place): State
    requires i < |s.threads|
  {
    s.(threads := s.threads[i := p])
  }

  function AddStep(s: State): State {
    s.(pool := AddedWorker(s.pool), workers := if s.pool.started < s.pool.total then s.workers + [Free] else s.workers)
  }

  function ThreadStep(s: State, i: nat): State
    requires Enabled(s, Thread(i))
  {
    match s.threads[i]
    case Enter => Goto(s, i, if s.pool.status == IDLE then StartCheck else if s.pool.status > RUNNING then Dropped else ReadStatus)
    case StartCheck => Goto(s, i, if s.pool.status > IDLE then ReadStatus else SetRunning)
    case SetRunning => Goto(s.(pool := s.pool.(status := RUNNING)), i, Spawn)
    case Spawn => s.(threads := s.threads[i := ReadStatus] + [AddCheck(true)])
    case ReadStatus => Goto(s, i, if s.pool.status == RUNNING then ReadBusy else ReadStarted(0))
    case ReadBusy => Goto(s, i, ReadStarted(s.pool.busy))
    case ReadStarted(busy) => Goto(s, i, if busy == s.pool.started then AddCheck(false) else Send)
    case AddCheck(init) => Goto(s, i, if s.pool.status > RUNNING then After(init) else Add(init))
    case Add(init) => Goto(AddStep(s), i, After(init))
    case Send => Goto(s.(pool := s.pool.(queue := s.pool.queue + [i]), sent := s.sent + [i]), i, Sent)
    case Wait => Goto(s.(pool := s.pool.(status := TERMINATED)), i, Ended)
  }

  function After(init: bool): Place {
    if init then Wait else Send
  }

  function WorkerStep(s: State, w: nat): State
    requires Enabled(s, Worker(w))
  {
    match s.workers[w]
    case Free =>
      s.(workers := s.workers[w := Took(s.pool.queue[0])], pool := s.pool.(queue := s.pool.queue[1..]), taken := s.taken + [s.pool.queue[0]])
    case Took(t) =>
      s.(workers := s.workers[w := Running(t)], pool := s.pool.(busy := s.pool.busy + 1), begun := s.begun + [t])
    case Running(t) =>
      s.(workers := s.workers[w := Ran(t)], done := s.done + [t])
    case Ran(_) =>
      s.(workers := s.workers[w := Free], pool := s.pool.(busy := s.pool.busy - 1))
  }

  /** A step that is not enabled leaves the state as it is. */
  function Step(s: State, a: Action): State {
    if !Enabled(s, a) then s
    else match a
      case Call => s.(threads := s.threads + [Enter])
      case Resize(size) => s.(pool := Resized(s.pool, size))
      case Thread(i) => ThreadStep(s, i)
      case Worker(w) => WorkerStep(s, w)
  }

  ghost function Run(s: State, actions: seq<Action>): State
    decreases |actions|
  {
    if actions == [] then s else Step(Run(s, actions[..|actions| - 1]), actions[|actions| - 1])
  }

  // ----- Counting over threads and workers -----

  function Sum<T>(s: seq<T>, work: T -> nat): nat {
    if s == [] then 0 else Sum(s[..|s| - 1], work) + work(s[|s| - 1])
  }

  lemma {:induction false} SumUpdate<T>(s: seq<T>, i: nat, x: T, work: T -> nat)
    requires i < |s|
    ensures Sum(s[i := x], work) + work(s[i]) == Sum(s, work) + work(x)
  {
    var n := |s| - 1;
    if i == n {
      assert s[i := x][..n] == s[..n];
    } else {
      SumUpdate(s[..n], i, x, work);
      assert s[i := x][..n] == s[..n][i := x];
    }
  }

  lemma SumAppend<T>(s: seq<T>, x: T, work: T -> nat)
    ensures Sum(s + [x], work) == Sum(s, work) + work(x)
  {
    assert (s + [x])[..|s|] == s;
  }

  lemma {:induction false} SumBound<T>(s: seq<T>, work: T -> nat)
    requires forall x :: work(x) <= 1
    ensures Sum(s, work) <= |s|
  {
    if s != [] {
      SumBound(s[..|s| - 1], work);
    }
  }

  lemma {:induction false} SumZero<T>(s: seq<T>, work: T -> nat)
    requires forall i :: 0 <= i < |s| ==> work(s[i]) == 0
    ensures Sum(s, work) == 0
  {
    if s != [] {
      SumZero(s[..|s| - 1], work);
    }
  }

  lemma {:induction false} SumLess<T>(s: seq<T>, less: T -> nat, more: T -> nat)
    requires forall x :: less(x) <= more(x)
    ensures Sum(s, less) <= Sum(s, more)
  {
    if s != [] {
      SumLess(s[..|s| - 1], less, more);
    }
  }

  /** One for a worker that took `t` and has not finished it. */
  function Holds(t: Task): Phase -> nat {
    (p: Phase) => if (p.Took? || p.Running?) && p.task == t then 1 else 0
  }

  /** One for a worker that is inside `t`. */
  function Inside(t: Task): Phase -> nat {
    (p: Phase) => if p == Running(t) then 1 else 0
  }

  /** One for a worker between its increment and its decrement of the busy counter. */
  function Busy(p: Phase): nat {
    if p.Running? || p.Ran? then 1 else 0
  }

  // ----- Invariant -----

  /** The counters: never more workers than allowed, the wait group counts them, and the busy
      counter reconciles with the workers between their increment and their decrement. */
  ghost predicate Counted(s: State) {
    && s.pool.started == |s.workers| == s.pool.waitGroup <= s.pool.total
    && s.pool.busy == Sum(s.workers, Busy)
    && 2 <= s.pool.total
    && |s.pool.queue| <= s.pool.capacity
    && 16 <= s.pool.capacity
  }

  /** A task entered the channel once if its call is over, and not at all otherwise; what has
      left the channel is held by one worker or finished, what was begun is inside or finished. */
  ghost predicate TaskConserved(s: State, t: Task) {
    && multiset(s.sent)[t] == (if t < |s.threads| && s.threads[t] == Sent then 1 else 0)
    && multiset(s.taken)[t] == Sum(s.workers, Holds(t)) + multiset(s.done)[t]
    && multiset(s.begun)[t] == Sum(s.workers, Inside(t)) + multiset(s.done)[t]
  }

  /** Tasks also leave the channel in the order of entering. */
  ghost predicate Conserved(s: State) {
    s.sent == s.taken + s.pool.queue && forall t: Task :: TaskConserved(s, t)
  }

  predicate PastStart(p: Place) {
    !p.Enter? && !p.StartCheck? && !p.SetRunning?
  }

  /** Places from which the first worker is sure to be started. */
  predicate Starting(p: Place) {
    p == Spawn || p == AddCheck(true) || p == Add(true)
  }

  /** Without `Stop` the pool only ever becomes running, and then a first worker exists or is
      on its way; `initWorker` waits only once a worker exists. */
  ghost predicate Alive(s: State) {
    && (s.pool.status == IDLE || s.pool.status == RUNNING)
    && (forall i :: 0 <= i < |s.threads| && PastStart(s.threads[i]) ==> s.pool.status == RUNNING)
    && (forall i :: 0 <= i < |s.threads| && s.threads[i] == Wait ==> s.workers != [])
    && (forall i :: 0 <= i < |s.threads| ==> s.threads[i] != Dropped && s.threads[i] != Ended)
    && (s.pool.status == RUNNING && s.workers == [] ==> exists i :: 0 <= i < |s.threads| && Starting(s.threads[i]))
  }

  ghost predicate Inv(s: State) {
    Counted(s) && Conserved(s) && Alive(s)
  }

  lemma InitInv(maxPoolSize: int, workerSize: int)
    ensures Inv(Init(maxPoolSize, workerSize))
  {
  }

  // ----- Every step keeps the invariant -----

  lemma CountAppend(s: seq<Task>, x: Task, t: Task)
    ensures multiset(s + [x])[t] == multiset(s)[t] + if x == t then 1 else 0
  {
  }

  /** What a thread's step may do to the tasks: at most put its own into the channel. */
  lemma ThreadFrame(s: State, i: nat)
    requires Enabled(s, Thread(i))
    ensures var next := Step(s, Thread(i));
            && next.taken == s.taken && next.begun == s.begun && next.done == s.done
            && (next.workers == s.workers || next.workers == s.workers + [Free])
            && |s.threads| <= |next.threads| && (forall k :: |s.threads| <= k < |next.threads| ==> next.threads[k] != Sent)
            && (forall k :: 0 <= k < |s.threads| && k != i ==> next.threads[k] == s.threads[k])
            && (next.threads[i] == Sent <==> s.threads[i] == Send)
            && next.sent == s.sent + (if s.threads[i] == Send then [i] else [])
  {
  }

  lemma ThreadKeepsTask(s: State, i: nat, t: Task)
    requires Enabled(s, Thread(i)) && TaskConserved(s, t)
    ensures TaskConserved(Step(s, Thread(i)), t)
  {
    hide Sum, Step;
    ThreadFrame(s, i);
    SumAppend(s.workers, Free, Holds(t));
    SumAppend(s.workers, Free, Inside(t));
    CountAppend(s.sent, i, t);
    assert s.sent + [] == s.sent;
  }

  lemma ThreadKeepsConserved(s: State, i: nat)
    requires Conserved(s) && Enabled(s, Thread(i))
    ensures Conserved(Step(s, Thread(i)))
  {
    hide TaskConserved;
    var next := Step(s, Thread(i));
    forall t: Task
      ensures TaskConserved(next, t)
    {
      ThreadKeepsTask(s, i, t);
    }
    assert next.sent == next.taken + next.pool.queue;
  }

  lemma ThreadKeepsCounted(s: State, i: nat)
    requires Counted(s) && Enabled(s, Thread(i))
    ensures Counted(Step(s, Thread(i)))
  {
    hide Sum;
    if s.threads[i].Add? {
      SumAppend(s.workers, Free, Busy);
    }
  }

  /** A thread that was about to start the first worker has done so or still is. */
  lemma StartingKept(s: State, i: nat)
    requires Counted(s) && Alive(s) && Enabled(s, Thread(i))
    ensures var next := Step(s, Thread(i));
            next.pool.status == RUNNING && next.workers == [] ==> exists k :: 0 <= k < |next.threads| && Starting(next.threads[k])
  {
    hide Sum;
    var next := Step(s, Thread(i));
    if next.pool.status == RUNNING && next.workers == [] {
      if s.pool.status == RUNNING {
        var k :| 0 <= k < |s.threads| && Starting(s.threads[k]);
        if s.threads[k] == Spawn && k == i {
          assert Starting(next.threads[|s.threads|]);
        } else {
          assert Starting(next.threads[k]);
        }
      } else {
        assert Starting(next.threads[i]);
      }
    }
  }

  lemma ThreadKeepsAlive(s: State, i: nat)
    requires Counted(s) && Alive(s) && Enabled(s, Thread(i))
    ensures Alive(Step(s, Thread(i)))
  {
    hide Sum, Starting;
    StartingKept(s, i);
  }

  lemma WorkerKeepsCounted(s: State, w: nat)
    requires Counted(s) && Enabled(s, Worker(w))
    ensures Counted(Step(s, Worker(w)))
  {
    hide Sum;
    SumUpdate(s.workers, w, Step(s, Worker(w)).workers[w], Busy);
  }

  lemma HoldsAt(t: Task, p: Phase)
    ensures Holds(t)(p) == if (p.Took? || p.Running?) && p.task == t then 1 else 0
  {
  }

  lemma WorkerKeepsTaken(s: State, w: nat, t: Task)
    requires Enabled(s, Worker(w)) && multiset(s.taken)[t] == Sum(s.workers, Holds(t)) + multiset(s.done)[t]
    ensures var next := Step(s, Worker(w));
            multiset(next.taken)[t] == Sum(next.workers, Holds(t)) + multiset(next.done)[t]
  {
    hide Sum, Holds;
    var next := WorkerStep(s, w);
    var p := next.workers[w];
    HoldsAt(t, s.workers[w]);
    HoldsAt(t, p);
    SumUpdate(s.workers, w, p, Holds(t));
    assert next.workers == s.workers[w := p];
    match s.workers[w]
    case Free =>
      assert next.taken == s.taken + [p.task] && next.done == s.done;
      CountAppend(s.taken, p.task, t);
    case Running(_) =>
      assert next.taken == s.taken && next.done == s.done + [p.task];
      CountAppend(s.done, p.task, t);
    case _ =>
      assert next.taken == s.taken && next.done == s.done;
  }

  lemma WorkerKeepsBegun(s: State, w: nat, t: Task)
    requires Enabled(s, Worker(w)) && multiset(s.begun)[t] == Sum(s.workers, Inside(t)) + multiset(s.done)[t]
    ensures var next := Step(s, Worker(w));
            multiset(next.begun)[t] == Sum(next.workers, Inside(t)) + multiset(next.done)[t]
  {
    hide Sum;
    var p := Step(s, Worker(w)).workers[w];
    SumUpdate(s.workers, w, p, Inside(t));
    match s.workers[w]
    case Took(_) => CountAppend(s.begun, p.task, t);
    case Running(_) => CountAppend(s.done, p.task, t);
    case _ =>
  }

  lemma WorkerKeepsTask(s: State, w: nat, t: Task)
    requires Enabled(s, Worker(w)) && TaskConserved(s, t)
    ensures TaskConserved(Step(s, Worker(w)), t)
  {
    hide Sum, Holds, Inside;
    WorkerKeepsTaken(s, w, t);
    WorkerKeepsBegun(s, w, t);
  }

  lemma WorkerKeepsConserved(s: State, w: nat)
    requires Conserved(s) && Enabled(s, Worker(w))
    ensures Conserved(Step(s, Worker(w)))
  {
    hide TaskConserved;
    var next := Step(s, Worker(w));
    forall t: Task
      ensures TaskConserved(next, t)
    {
      WorkerKeepsTask(s, w, t);
    }
    if s.workers[w].Free? {
      assert s.pool.queue == [s.pool.queue[0]] + s.pool.queue[1..];
    }
  }

  lemma CallKeepsConserved(s: State)
    requires Conserved(s)
    ensures Conserved(Step(s, Call))
  {
    hide Sum;
    forall t: Task
      ensures TaskConserved(Step(s, Call), t)
    {
      assert TaskConserved(s, t);
    }
  }

  lemma CallKeepsInv(s: State)
    requires Inv(s)
    ensures Inv(Step(s, Call))
  {
    hide Sum, Conserved;
    CallKeepsConserved(s);
    var next := Step(s, Call);
    if s.pool.status == RUNNING && s.workers == [] {
      var k :| 0 <= k < |s.threads| && Starting(s.threads[k]);
      assert next.threads[k] == s.threads[k];
    }
  }

  lemma WorkerKeepsAlive(s: State, w: nat)
    requires Alive(s) && Enabled(s, Worker(w))
    ensures Alive(Step(s, Worker(w)))
  {
    assert Step(s, Worker(w)).threads == s.threads;
  }

  lemma ResizeKeepsInv(s: State, size: int)
    requires Inv(s)
    ensures Inv(Step(s, Resize(size)))
  {
    hide Sum;
    var next := Step(s, Resize(size));
    assert next.threads == s.threads;
    assert forall t: Task :: TaskConserved(s, t) ==> TaskConserved(next, t);
  }

  lemma StepKeepsInv(s: State, a: Action)
    requires Inv(s)
    ensures Inv(Step(s, a))
  {
    hide Sum, Counted, Conserved, Alive, ThreadStep, WorkerStep;
    if Enabled(s, a) {
      match a
      case Call => CallKeepsInv(s);
      case Resize(size) => ResizeKeepsInv(s, size);
      case Thread(i) =>
        ThreadKeepsConserved(s, i);
        ThreadKeepsCounted(s, i);
        ThreadKeepsAlive(s, i);
      case Worker(w) =>
        WorkerKeepsCounted(s, w);
        WorkerKeepsConserved(s, w);
        WorkerKeepsAlive(s, w);
    }
  }

  lemma {:induction false} RunKeepsInv(s: State, actions: seq<Action>)
    requires Inv(s)
    ensures Inv(Run(s, actions))
  {
    if actions != [] {
      RunKeepsInv(s, actions[..|actions| - 1]);
      StepKeepsInv(Run(s, actions[..|actions| - 1]), actions[|actions| - 1]);
    }
  }

  /** Over every interleaving: the counters are ordered and reconcile; every task that entered
      the channel is queued, held by one worker or finished, exactly one of these and once;
      tasks are taken in the order they entered; each is begun at most once. */
  lemma RunSafety(maxPoolSize: int, workerSize: int, actions: seq<Action>, t: Task)
    ensures var s := Run(Init(maxPoolSize, workerSize), actions);
            && 0 <= s.pool.busy <= s.pool.started <= s.pool.total
            && s.pool.busy == Sum(s.workers, Busy)
            && |s.pool.queue| <= s.pool.capacity
            && multiset(s.pool.queue)[t] + Sum(s.workers, Holds(t)) + multiset(s.done)[t]
               == (if t < |s.threads| && s.threads[t] == Sent then 1 else 0)
            && s.taken <= s.sent
            && multiset(s.done)[t] <= multiset(s.begun)[t] <= 1
  {
    var s := Run(Init(maxPoolSize, workerSize), actions);
    InitInv(maxPoolSize, workerSize);
    RunKeepsInv(Init(maxPoolSize, workerSize), actions);
    SumBound(s.workers, Busy);
    SumLess(s.workers, Inside(t), Holds(t));
    assert TaskConserved(s, t);
    assert multiset(s.sent) == multiset(s.taken) + multiset(s.pool.queue);
  }

  // ----- Every task is eventually finished -----

  function ThreadWork(p: Place): nat {
    match p
    case Enter => 16
    case StartCheck => 15
    case SetRunning => 14
    case Spawn => 13
    case ReadStatus => 10
    case ReadBusy => 9
    case ReadStarted(_) => 8
    case AddCheck(init) => if init then 2 else 7
    case Add(init) => if init then 1 else 6
    case Send => 5
    case _ => 0
  }

  function WorkerWork(p: Phase): nat {
    match p
    case Free => 0
    case Took(_) => 3
    case Running(_) => 2
    case Ran(_) => 1
  }

  /** What is left to do: steps of threads, four per queued task, and steps of workers. */
  function Work(s: State): nat {
    Sum(s.threads, ThreadWork) + 4 * |s.pool.queue| + Sum(s.workers, WorkerWork)
  }

  predicate Internal(a: Action) {
    a.Thread? || a.Worker?
  }

  lemma ThreadWorks(s: State, i: nat)
    requires Inv(s) && Enabled(s, Thread(i))
    ensures Work(Step(s, Thread(i))) < Work(s)
  {
    hide Conserved, Sum;
    var next := Step(s, Thread(i));
    SumUpdate(s.threads, i, next.threads[i], ThreadWork);
    SumAppend(s.threads[i := ReadStatus], AddCheck(true), ThreadWork);
    SumAppend(s.workers, Free, WorkerWork);
  }

  lemma WorkerWorks(s: State, w: nat)
    requires Enabled(s, Worker(w))
    ensures Work(Step(s, Worker(w))) < Work(s)
  {
    hide Sum;
    SumUpdate(s.workers, w, Step(s, Worker(w)).workers[w], WorkerWork);
  }

  ghost predicate EnabledRun(s: State, actions: seq<Action>)
    decreases |actions|
  {
    actions == [] ||
    (var front, a := actions[..|actions| - 1], actions[|actions| - 1];
     EnabledRun(s, front) && Internal(a) && Enabled(Run(s, front), a))
  }

  /** However threads and workers interleave, they come to rest after at most `Work(s)` steps. */
  lemma {:induction false} RunsAreBounded(s: State, actions: seq<Action>)
    requires Inv(s) && EnabledRun(s, actions)
    ensures |actions| + Work(Run(s, actions)) <= Work(s)
  {
    if actions != [] {
      var front, a := actions[..|actions| - 1], actions[|actions| - 1];
      RunsAreBounded(s, front);
      RunKeepsInv(s, front);
      if a.Thread? {
        ThreadWorks(Run(s, front), a.i);
      } else {
        WorkerWorks(Run(s, front), a.w);
      }
    }
  }

  ghost predicate AtRest(s: State) {
    forall a :: Internal(a) ==> !Enabled(s, a)
  }

  /** Every call has handed over its task, every pool starter waits, and every task is finished. */
  ghost predicate AllDone(s: State) {
    && (forall i :: 0 <= i < |s.threads| ==> s.threads[i] == Sent || s.threads[i] == Wait)
    && (forall w :: 0 <= w < |s.workers| ==> s.workers[w] == Free)
    && s.pool.queue == []
    && (forall t: Task :: multiset(s.done)[t] == multiset(s.sent)[t])
    && s.pool.busy == 0
  }

  lemma RestingWorkers(s: State)
    requires Inv(s) && AtRest(s)
    ensures forall w :: 0 <= w < |s.workers| ==> s.workers[w] == Free
    ensures s.workers != [] ==> s.pool.queue == []
  {
    hide Sum, Conserved, Alive;
    forall w: nat | w < |s.workers|
      ensures s.workers[w] == Free && s.pool.queue == []
    {
      assert Internal(Worker(w));
    }
    assert s.workers != [] ==> s.workers[0] == Free;
  }

  /** As long as a task is queued, a worker can move or the first one is on its way. */
  lemma QueueMoves(s: State) returns (a: Action)
    requires Inv(s) && s.pool.queue != []
    ensures Internal(a) && Enabled(s, a)
  {
    hide Sum;
    if s.workers != [] {
      return Worker(0);
    }
    var t := s.pool.queue[0];
    assert t in multiset(s.sent) && TaskConserved(s, t);
    assert s.threads[t] == Sent && PastStart(s.threads[t]);
    var k: nat :| k < |s.threads| && Starting(s.threads[k]);
    return Thread(k);
  }

  lemma RestingQueue(s: State)
    requires Inv(s) && AtRest(s)
    ensures s.pool.queue == []
  {
    hide Inv, Enabled;
    if s.pool.queue != [] {
      var a := QueueMoves(s);
      assert false;
    }
  }

  lemma RestingThreads(s: State)
    requires Inv(s) && AtRest(s)
    ensures forall i :: 0 <= i < |s.threads| ==> s.threads[i] == Sent || s.threads[i] == Wait
  {
    hide Sum, Conserved;
    RestingQueue(s);
    forall i: nat | i < |s.threads|
      ensures s.threads[i] == Sent || s.threads[i] == Wait
    {
      assert Internal(Thread(i)) && !Enabled(s, Thread(i));
    }
  }

  lemma DoneIsRest(s: State)
    requires Inv(s) && AllDone(s)
    ensures AtRest(s)
  {
    hide Sum, Conserved;
  }

  /** At rest is where everything is done, and only there: no task is ever stranded. */
  lemma RestIsDone(s: State)
    requires Inv(s)
    ensures AtRest(s) <==> AllDone(s)
  {
    hide Sum, Alive, AtRest;
    if AllDone(s) {
      DoneIsRest(s);
    }
    if AtRest(s) {
      RestingWorkers(s);
      RestingQueue(s);
      RestingThreads(s);
      forall t: Task
        ensures multiset(s.done)[t] == multiset(s.taken)[t]
      {
        assert TaskConserved(s, t);
        SumZero(s.workers, Holds(t));
      }
      SumZero(s.workers, Busy);
      assert s.sent == s.taken;
    }
  }

  predicate IsStarter(p: Place) {
    p == AddCheck(true) || p == Add(true) || p == Wait || p == Ended
  }

  lemma RoleStays(s: State, a: Action, i: nat)
    requires i < |s.threads|
    ensures var next := Step(s, a);
            |s.threads| <= |next.threads| && (IsStarter(next.threads[i]) <==> IsStarter(s.threads[i]))
  {
  }

  lemma {:induction false} RolesStay(s: State, actions: seq<Action>, i: nat)
    requires i < |s.threads|
    ensures var next := Run(s, actions);
            |s.threads| <= |next.threads| && (IsStarter(next.threads[i]) <==> IsStarter(s.threads[i]))
  {
    hide Step, IsStarter;
    if actions != [] {
      RolesStay(s, actions[..|actions| - 1], i);
      RoleStays(Run(s, actions[..|actions| - 1]), actions[|actions| - 1], i);
    }
  }

  /** However a run goes on without new calls, it comes to rest after boundedly many steps, and
      then the task of every call made so far has been begun once and finished once. */
  lemma EveryTaskFinishes(maxPoolSize: int, workerSize: int, before: seq<Action>, actions: seq<Action>, t: Task)
    requires var s := Run(Init(maxPoolSize, workerSize), before);
             && EnabledRun(s, actions)
             && t < |s.threads| && !IsStarter(s.threads[t])
    ensures var s := Run(Init(maxPoolSize, workerSize), before);
            && |actions| <= Work(s)
            && (AtRest(Run(s, actions)) ==>
                  multiset(Run(s, actions).begun)[t] == multiset(Run(s, actions).done)[t] == 1)
  {
    hide Sum, Alive, Work;
    var s := Run(Init(maxPoolSize, workerSize), before);
    var end := Run(s, actions);
    InitInv(maxPoolSize, workerSize);
    RunKeepsInv(Init(maxPoolSize, workerSize), before);
    RunKeepsInv(s, actions);
    RunsAreBounded(s, actions);
    if AtRest(end) {
      RestIsDone(end);
      RolesStay(s, actions, t);
      SumZero(end.workers, Inside(t));
      assert TaskConserved(end, t);
    }
  }

  // ----- Workers are added on demand -----

  /** The caller is on its way to add a worker to the `n` it found, below the limit, or there are
      more by now. */
  ghost predicate Growing(s: State, i: nat, n: int) {
    && i < |s.threads|
    && (s.pool.started > n
        || (s.pool.started == n < s.pool.total && s.threads[i] in {AddCheck(false), Add(false)}))
  }

  lemma GrowingStep(s: State, a: Action, i: nat, n: int)
    requires Inv(s) && Growing(s, i, n)
    ensures Growing(Step(s, a), i, n)
  {
    hide Sum, Conserved;
  }

  lemma {:induction false} GrowingRun(s: State, actions: seq<Action>, i: nat, n: int)
    requires Inv(s) && Growing(s, i, n)
    ensures Growing(Run(s, actions), i, n)
  {
    hide Inv, Growing, Step;
    if actions != [] {
      GrowingRun(s, actions[..|actions| - 1], i, n);
      RunKeepsInv(s, actions[..|actions| - 1]);
      GrowingStep(Run(s, actions[..|actions| - 1]), actions[|actions| - 1], i, n);
    }
  }

  /** A call that finds a worker idle goes on to send its task.  One that finds all started
      workers busy, below the limit, has seen another one started by the time it sends, whatever
      happens in between. */
  lemma BusyPoolGrows(maxPoolSize: int, workerSize: int, before: seq<Action>, i: nat, busy: int, actions: seq<Action>)
    requires var s := Run(Init(maxPoolSize, workerSize), before);
             i < |s.threads| && s.threads[i] == ReadStarted(busy)
    ensures var s := Run(Init(maxPoolSize, workerSize), before);
            var next := Run(Step(s, Thread(i)), actions);
            && (busy != s.pool.started ==> Step(s, Thread(i)) == Goto(s, i, Send))
            && (busy == s.pool.started < s.pool.total ==>
                  i < |next.threads| && (next.threads[i] in {Send, Sent} ==> next.pool.started > s.pool.started))
  {
    hide Run, Inv, Sum;
    var s := Run(Init(maxPoolSize, workerSize), before);
    InitInv(maxPoolSize, workerSize);
    RunKeepsInv(Init(maxPoolSize, workerSize), before);
    StepKeepsInv(s, Thread(i));
    if busy == s.pool.started < s.pool.total {
      GrowingRun(Step(s, Thread(i)), actions, i, s.pool.started);
    }
  }
}
