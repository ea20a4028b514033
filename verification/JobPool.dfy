/** The timed job pool: a table-driven status machine whose `Cancel` and `transitJobStatus`
    call each other, and the executors that run against it. */
module JobPool {

  datatype Status = Waiting | Running | Done | Terminating

  function Code(s: Status): int {
    match s
    case Waiting => 0
    case Running => 1
    case Done => 2
    case Terminating => 4
  }

  /** The keys of the transition table, `from * 10 + to`. */
  const TRANSITIONS := {1, 2, 4, 42, 12, 14, 10}

  /** The transitions whose handler removes the job from the pool. */
  const EVICTING := {2, 12, 42}

  type Jobs = map<int, Status>

  /** A job that is not in the pool counts as done. */
  function StatusOf(jobs: Jobs, id: int): Status {
    if id in jobs then jobs[id] else Done
  }

  ghost predicate NoneDone(jobs: Jobs) {
    forall id :: id in jobs ==> jobs[id] != Done
  }

  /** The rule behind the table: `Done` removes the job, a terminating job cannot be revived,
      and every other transition of a stored job takes place. */
  function After(jobs: Jobs, id: int, to: Status): Jobs {
    if id !in jobs then jobs
    else if to == Done then jobs - {id}
    else if jobs[id] == Terminating then jobs
    else jobs[id := to]
  }

  class Pool {
    var jobMap: Jobs

    constructor ()
      ensures jobMap == map[]
    {
      jobMap := map[];
    }

    /** No stored job is done, before and after; this is also what makes the recursion end:
        a stored done job would be cancelled for ever. */
    method TransitJobStatus(id: int, status: Status)
      requires NoneDone(jobMap)
      modifies this
      ensures NoneDone(jobMap) && jobMap == After(old(jobMap), id, status)
      ensures status == Done ==> id !in jobMap
      ensures status != Done && id in old(jobMap) ==>
                id in jobMap && jobMap[id] == if old(jobMap)[id] == Terminating then Terminating else status
      decreases if id !in jobMap then 1 else if status == Terminating then 2 else 4
    {
      var from := StatusOf(jobMap, id);
      if from == status {
        return;
      }
      var key := Code(from) * 10 + Code(status);
      if key !in TRANSITIONS {
        var _ := Cancel(id);
        return;
      }
      jobMap := jobMap[id := status];
      if key in EVICTING {
        jobMap := jobMap - {id};
      }
    }

    method Cancel(id: int) returns (ok: bool)
      requires NoneDone(jobMap)
      modifies this
      ensures NoneDone(jobMap) && ok == (id in old(jobMap))
      ensures jobMap == After(old(jobMap), id, Terminating) && (ok ==> id in jobMap && jobMap[id] == Terminating)
      decreases if id !in jobMap then 0 else 3
    {
      if id !in jobMap {
        return false;
      }
      TransitJobStatus(id, Terminating);
      return true;
    }
  }

  // ----- Executors and cancellers, interleaved -----

  datatype Kind = Timeout | Interval

  /** Where an executor stands: before its first check, between a check and the transition it
      allowed, before and after the job body, on its way out, or gone. */
  datatype Place = Start | ToRunning | Body | Ran | ToWaiting | Leaving | Gone

  /** `starts` counts the starts of the job body, `late` those after the first successful
      `Cancel`, which came while the executor stood at `cancelledAt`. */
  datatype Executor = Executor(kind: Kind, place: Place, starts: nat, cancelled: bool, cancelledAt: Place, late: nat)

  function Fresh(kind: Kind): Executor {
    Executor(kind, Start, 0, false, Start, 0)
  }

  function Cancelled(e: Executor): Executor {
    if e.cancelled then e else e.(cancelled := true, cancelledAt := e.place)
  }

  /** A check has been passed and the body it allows has not started yet. */
  predicate Committed(p: Place) {
    p == ToRunning || p == Body
  }

  datatype System = System(jobs: Jobs, executors: map<int, Executor>)

  /** One step of one thread.  The terminate check and the transition it guards are separate
      steps, so a cancellation can come between them. */
  datatype Action = Schedule(id: int, kind: Kind) | CancelJob(id: int) | Execute(id: int)

  const INITIAL := System(map[], map[])

  function Apply(s: System, a: Action, maxSize: nat): System {
    match a
    case Schedule(id, kind) =>
      if id in s.executors || |s.jobs| >= maxSize then s
      else System(s.jobs[id := Waiting], s.executors[id := Fresh(kind)])
    case CancelJob(id) =>
      if id !in s.jobs || id !in s.executors then s
      else System(After(s.jobs, id, Terminating), s.executors[id := Cancelled(s.executors[id])])
    case Execute(id) =>
      if id !in s.executors then s else
      var (jobs, e) := Move(s.jobs, id, s.executors[id]);
      System(jobs, s.executors[id := e])
  }

  /** The next step of one executor. */
  function Move(jobs: Jobs, id: int, e: Executor): (Jobs, Executor) {
    match e.place
    case Start =>
      (jobs, e.(place := if StatusOf(jobs, id) == Terminating then Leaving else ToRunning))
    case ToRunning =>
      (After(jobs, id, Running), e.(place := Body))
    case Body =>
      (jobs, e.(place := Ran, starts := e.starts + 1, late := if e.cancelled then e.late + 1 else e.late))
    case Ran =>
      if e.kind == Timeout then (After(jobs, id, Done), e.(place := Gone))
      else (jobs, e.(place := if StatusOf(jobs, id) == Terminating then Leaving else ToWaiting))
    case ToWaiting =>
      (After(jobs, id, Waiting), e.(place := Start))
    case Leaving =>
      (After(jobs, id, Done), e.(place := Gone))
    case Gone =>
      (jobs, e)
  }

  ghost function Run(actions: seq<Action>, maxSize: nat): System {
    if actions == [] then INITIAL else Apply(Run(actions[..|actions| - 1], maxSize), actions[|actions| - 1], maxSize)
  }

  /** What ties an executor to its job: the job is stored until the executor is gone, it is
      terminating exactly when it was cancelled, and a late start is spent at most once. */
  ghost predicate Tied(jobs: Jobs, id: int, e: Executor) {
    && (id in jobs <==> e.place != Gone)
    && (id in jobs ==> (jobs[id] == Terminating <==> e.cancelled))
    && (e.place in {Start, ToRunning} && !e.cancelled ==> id in jobs && jobs[id] == Waiting)
    && (e.place in {Body, Ran, ToWaiting} && !e.cancelled ==> id in jobs && jobs[id] == Running)
    && (e.place == Leaving ==> e.cancelled)
    && (e.cancelled && Committed(e.place) ==> Committed(e.cancelledAt))
    && e.late == (if e.cancelled && Committed(e.cancelledAt) && !Committed(e.place) then 1 else 0)
    && (e.kind == Timeout ==> TimeoutTied(e))
    && (e.kind == Interval && e.place == Gone ==> e.cancelled)
  }

  /** A timeout job has started its body once it is past it, and not at all if it was cancelled
      before its check. */
  predicate TimeoutTied(e: Executor) {
    && e.place != ToWaiting
    && (e.cancelled && e.cancelledAt == Start ==> e.place in {Start, Leaving, Gone})
    && (e.cancelled && e.place in {Start, Leaving} ==> e.cancelledAt == Start)
    && e.starts == match e.place
                   case Ran => 1
                   case Gone => if e.cancelled && e.cancelledAt == Start then 0 else 1
                   case _ => 0
  }

  ghost predicate Inv(s: System, maxSize: nat) {
    && NoneDone(s.jobs) && |s.jobs| <= maxSize
    && (forall id :: id in s.jobs ==> id in s.executors)
    && (forall id :: id in s.executors ==> Tied(s.jobs, id, s.executors[id]))
  }

  lemma AfterSize(jobs: Jobs, id: int, to: Status)
    ensures |After(jobs, id, to)| <= |jobs|
  {
    if id in jobs && to == Done {
      assert (jobs - {id}).Keys == jobs.Keys - {id};
    } else if id in jobs {
      assert jobs[id := to].Keys == jobs.Keys;
    }
  }

  /** The two pools differ at most in job `id`. */
  ghost predicate SameElsewhere(jobs: Jobs, jobs': Jobs, id: int) {
    && (forall k :: k != id ==> (k in jobs <==> k in jobs'))
    && (forall k :: k != id && k in jobs ==> jobs[k] == jobs'[k])
  }

  lemma MoveKeepsTied(jobs: Jobs, id: int, e: Executor)
    requires NoneDone(jobs) && Tied(jobs, id, e)
    ensures var (jobs', e') := Move(jobs, id, e);
            NoneDone(jobs') && Tied(jobs', id, e') && SameElsewhere(jobs, jobs', id) && |jobs'| <= |jobs|
  {
    AfterSize(jobs, id, Running);
    AfterSize(jobs, id, Waiting);
    AfterSize(jobs, id, Done);
  }

  /** A step that touches one job and its executor keeps all others tied. */
  lemma OneChanged(s: System, jobs': Jobs, id: int, e': Executor, maxSize: nat)
    requires Inv(s, maxSize)
    requires SameElsewhere(s.jobs, jobs', id) && NoneDone(jobs') && |jobs'| <= maxSize && Tied(jobs', id, e')
    ensures Inv(System(jobs', s.executors[id := e']), maxSize)
  {
    forall k | k in s.executors && k != id ensures Tied(jobs', k, s.executors[k]) {
      assert Tied(s.jobs, k, s.executors[k]);
    }
  }

  lemma ScheduleTied(jobs: Jobs, id: int, kind: Kind)
    requires NoneDone(jobs) && id !in jobs
    ensures var jobs' := jobs[id := Waiting];
            NoneDone(jobs') && Tied(jobs', id, Fresh(kind)) && SameElsewhere(jobs, jobs', id) && |jobs'| == |jobs| + 1
  {
    assert jobs[id := Waiting].Keys == jobs.Keys + {id};
  }

  lemma CancelKeepsTied(jobs: Jobs, id: int, e: Executor)
    requires NoneDone(jobs) && id in jobs && Tied(jobs, id, e)
    ensures var jobs' := After(jobs, id, Terminating);
            NoneDone(jobs') && Tied(jobs', id, Cancelled(e)) && SameElsewhere(jobs, jobs', id) && |jobs'| <= |jobs|
  {
    AfterSize(jobs, id, Terminating);
  }

  lemma ApplyKeepsInv(s: System, a: Action, maxSize: nat)
    requires Inv(s, maxSize)
    ensures Inv(Apply(s, a, maxSize), maxSize)
  {
    hide Tied, SameElsewhere, NoneDone;
    match a
    case Schedule(id, kind) =>
      if id !in s.executors && |s.jobs| < maxSize {
        ScheduleTied(s.jobs, id, kind);
        OneChanged(s, s.jobs[id := Waiting], id, Fresh(kind), maxSize);
      }
    case CancelJob(id) =>
      if id in s.jobs {
        CancelKeepsTied(s.jobs, id, s.executors[id]);
        OneChanged(s, After(s.jobs, id, Terminating), id, Cancelled(s.executors[id]), maxSize);
      }
    case Execute(id) =>
      if id in s.executors {
        MoveKeepsTied(s.jobs, id, s.executors[id]);
        var (jobs', e') := Move(s.jobs, id, s.executors[id]);
        OneChanged(s, jobs', id, e', maxSize);
      }
  }

  lemma {:induction false} RunKeepsInv(actions: seq<Action>, maxSize: nat)
    ensures Inv(Run(actions, maxSize), maxSize)
  {
    if actions != [] {
      RunKeepsInv(actions[..|actions| - 1], maxSize);
      ApplyKeepsInv(Run(actions[..|actions| - 1], maxSize), actions[|actions| - 1], maxSize);
    }
  }

  /** Over every interleaving: after a successful `Cancel` the body starts at most once more,
      and exactly if the cancellation came between a passed check and the start it allowed;
      a timeout job's body starts at most once, and has started when its executor is gone unless
      it was cancelled before its check; an interval job ends only if it was cancelled; no
      stored job is done; and a job is stored exactly until its executor is gone. */
  lemma RunSafety(actions: seq<Action>, maxSize: nat, id: int)
    requires id in Run(actions, maxSize).executors
    ensures var s := Run(actions, maxSize);
            var e := s.executors[id];
            && e.late <= 1
            && (e.place == Gone ==> (e.late == 1 <==> e.cancelled && Committed(e.cancelledAt)))
            && (e.kind == Timeout ==> e.starts <= 1)
            && (e.kind == Timeout && e.place == Gone ==> (e.starts == 0 <==> e.cancelled && e.cancelledAt == Start))
            && (e.kind == Interval && e.place in {Leaving, Gone} ==> e.cancelled)
            && (id in s.jobs <==> e.place != Gone)
            && NoneDone(s.jobs) && |s.jobs| <= maxSize
  {
    RunKeepsInv(actions, maxSize);
  }

  /** How many more steps of its own a cancelled executor can take. */
  function StepsLeft(e: Executor): nat {
    match e.place
    case ToRunning => 6
    case Body => 5
    case Ran => 4
    case ToWaiting => 3
    case Start => 2
    case Leaving => 1
    case Gone => 0
  }

  /** A cancelled executor gets closer to its end with every step it takes, and no step of
      another thread delays it. */
  lemma CancelledEnds(s: System, a: Action, maxSize: nat, id: int)
    requires Inv(s, maxSize) && id in s.executors && s.executors[id].cancelled
    ensures var e' := Apply(s, a, maxSize).executors[id];
            && e'.cancelled
            && (if a == Execute(id) && s.executors[id].place != Gone
                then StepsLeft(e') < StepsLeft(s.executors[id])
                else StepsLeft(e') == StepsLeft(s.executors[id]))
  {
    assert Tied(s.jobs, id, s.executors[id]);
  }

  /** Any run goes on: a new job is stored, waiting, with an executor that has not begun, exactly
      if there is room; a cancellation takes exactly on stored jobs. */
  lemma ScheduleExact(actions: seq<Action>, maxSize: nat, id: int, kind: Kind)
    requires id !in Run(actions, maxSize).executors
    ensures var s := Run(actions, maxSize);
            var next := Apply(s, Schedule(id, kind), maxSize);
            if |s.jobs| < maxSize
            then next.jobs == s.jobs[id := Waiting] && next.executors == s.executors[id := Fresh(kind)]
            else next == s
  {
  }

  // ----- Interval jobs repeat -----

  /** How many steps the executor of `id` has taken. */
  ghost function OwnSteps(actions: seq<Action>, maxSize: nat, id: int): nat {
    if actions == [] then 0
    else
      var front, a := actions[..|actions| - 1], actions[|actions| - 1];
      OwnSteps(front, maxSize, id) + if a == Execute(id) && id in Run(front, maxSize).executors then 1 else 0
  }

  /** How far an executor is past the last start of its body, five steps making a round. */
  function PastStart(p: Place): int {
    match p
    case Ran => -2
    case ToWaiting => -1
    case Start => 0
    case ToRunning => 1
    case Body => 2
    case _ => 0
  }

  lemma RoundStep(jobs: Jobs, id: int, e: Executor)
    requires Tied(jobs, id, e) && e.kind == Interval && !e.cancelled
    ensures var e' := Move(jobs, id, e).1;
            && 5 * e'.starts + PastStart(e'.place) == 5 * e.starts + PastStart(e.place) + 1
            && e'.kind == Interval && !e'.cancelled
  {
  }

  /** Over every interleaving: an interval job that was not cancelled never ends, and its body
      starts once in every five steps of its executor. */
  lemma {:induction false} IntervalRepeats(actions: seq<Action>, maxSize: nat, id: int)
    requires var s := Run(actions, maxSize); id in s.executors && s.executors[id].kind == Interval && !s.executors[id].cancelled
    ensures var e, n := Run(actions, maxSize).executors[id], OwnSteps(actions, maxSize, id);
            && e.place !in {Leaving, Gone}
            && n == 5 * e.starts + PastStart(e.place)
            && -2 <= PastStart(e.place) <= 2
  {
    hide Apply, PastStart, Inv;
    var front, a := actions[..|actions| - 1], actions[|actions| - 1];
    var before := Run(front, maxSize);
    RunKeepsInv(front, maxSize);
    if id in before.executors {
      IntervalBefore(before, a, maxSize, id);
      IntervalRepeats(front, maxSize, id);
      RepeatStep(before, a, maxSize, id);
    } else {
      NoSteps(front, maxSize, id);
      RepeatBegins(before, a, maxSize, id);
    }
  }

  lemma RepeatStep(s: System, a: Action, maxSize: nat, id: int)
    requires Inv(s, maxSize) && id in s.executors && s.executors[id].kind == Interval && !s.executors[id].cancelled
    ensures id in Apply(s, a, maxSize).executors
    ensures var e, e' := s.executors[id], Apply(s, a, maxSize).executors[id];
            !e'.cancelled ==>
              && e'.place !in {Leaving, Gone} && -2 <= PastStart(e'.place) <= 2
              && 5 * e'.starts + PastStart(e'.place) == 5 * e.starts + PastStart(e.place) + if a == Execute(id) then 1 else 0
  {
    hide Move;
    ApplyKeepsInv(s, a, maxSize);
    RoundStep(s.jobs, id, s.executors[id]);
  }

  lemma RepeatBegins(s: System, a: Action, maxSize: nat, id: int)
    requires Inv(s, maxSize) && id !in s.executors && id in Apply(s, a, maxSize).executors
    ensures a.Schedule? && Apply(s, a, maxSize).executors[id] == Fresh(a.kind) && PastStart(Start) == 0
  {
  }

  lemma IntervalStarts(actions: seq<Action>, maxSize: nat, id: int)
    requires var s := Run(actions, maxSize); id in s.executors && s.executors[id].kind == Interval && !s.executors[id].cancelled
    ensures Run(actions, maxSize).executors[id].starts == (OwnSteps(actions, maxSize, id) + 2) / 5
  {
    hide Run, OwnSteps, PastStart;
    IntervalRepeats(actions, maxSize, id);
  }

  /** An interval job that is not cancelled after a step was one before it. */
  lemma IntervalBefore(s: System, a: Action, maxSize: nat, id: int)
    requires Inv(s, maxSize) && id in s.executors
    requires Apply(s, a, maxSize).executors[id].kind == Interval && !Apply(s, a, maxSize).executors[id].cancelled
    ensures s.executors[id].kind == Interval && !s.executors[id].cancelled
  {
  }

  lemma {:induction false} NoSteps(actions: seq<Action>, maxSize: nat, id: int)
    requires id !in Run(actions, maxSize).executors
    ensures OwnSteps(actions, maxSize, id) == 0
  {
    if actions != [] {
      NoSteps(actions[..|actions| - 1], maxSize, id);
    }
  }
}
