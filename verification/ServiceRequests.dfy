/** Service requests: Resolve, Kill and Cancel compete for a write-once result, while the
    workers of a task queue check and execute the requests. */
module ServiceRequests {
  import opened Wrappers

  const QUEUED := 0
  const PROCESSING := 1
  const DEAD := 2
  const FINISHED := 3
  const CANCELLED := 4

  predicate Unprocessable(status: int) {
    status == DEAD || status == CANCELLED
  }

  predicate Terminal(status: int) {
    status > PROCESSING
  }

  /** `Panicked` is a call that stores nil: an atomic value refuses it, and the call does not
      return.  Whatever was written before stays written. */
  datatype Reply = Succeeded | Refused | Panicked

  /** The fields of a request: its status and its barrier. */
  datatype State<+M> = State(status: int, open: bool, payload: Option<M>)

  function Opened<M>(s: State<M>, payload: Option<M>): (State<M>, Reply) {
    if s.open then (s, Succeeded)
    else if payload.None? then (s, Panicked)
    else (s.(open := true, payload := payload), Succeeded)
  }

  function Ended<M>(s: State<M>, status: int): (State<M>, Reply) {
    if Terminal(s.status) then (s, Refused) else Opened(s.(status := status), None)
  }

  function Resolved<M>(s: State<M>, m: M): (State<M>, Reply) {
    if s.status != PROCESSING then (s, Refused) else Opened(s.(status := FINISHED), Some(m))
  }

  /** Only a finished request is protected from being set to another status. */
  function Transited<M>(s: State<M>, status: int): State<M> {
    if s.status == FINISHED then s else s.(status := status)
  }

  // ----- The objects -----

  class StatefulBarrier<M> {
    var isOpen: bool
    var state: Option<M>

    constructor ()
      ensures !isOpen && state == None
    {
      isOpen, state := false, None;
    }

    /** A write-once cell: the first payload stays, and only a payload opens it. */
    method OpenWith(payload: Option<M>) returns (panicked: bool)
      modifies this
      ensures old(isOpen) ==> isOpen && state == old(state) && !panicked
      ensures !old(isOpen) && payload.Some? ==> isOpen && state == payload && !panicked
      ensures !old(isOpen) && payload.None? ==> !isOpen && state == old(state) && panicked
    {
      if isOpen {
        return false;
      }
      if payload.None? {
        return true;
      }
      state := payload;
      isOpen := true;
      return false;
    }
  }

  class ServiceRequest<M> {
    const barrier: StatefulBarrier<M>
    var status: int

    ghost function View(): State<M>
      reads this, barrier
    {
      State(status, barrier.isOpen, barrier.state)
    }

    constructor ()
      ensures View() == State(QUEUED, false, None) && fresh(barrier)
    {
      barrier := new StatefulBarrier<M>();
      status := QUEUED;
    }

    method Kill() returns (reply: Reply)
      modifies this, barrier
      ensures reply == Refused <==> old(status) > PROCESSING
      ensures reply == Refused ==> View() == old(View())
      ensures reply != Refused ==> View() == old(View()).(status := DEAD) && (reply == Panicked <==> !old(barrier.isOpen))
      ensures (View(), reply) == Ended(old(View()), DEAD)
    {
      if status > 1 {
        return Refused;
      }
      status := DEAD;
      var panicked := barrier.OpenWith(None);
      return if panicked then Panicked else Succeeded;
    }

    method Cancel() returns (reply: Reply)
      modifies this, barrier
      ensures reply == Refused <==> old(status) > PROCESSING
      ensures reply == Refused ==> View() == old(View())
      ensures reply != Refused ==> View() == old(View()).(status := CANCELLED) && (reply == Panicked <==> !old(barrier.isOpen))
      ensures (View(), reply) == Ended(old(View()), CANCELLED)
    {
      if status > 1 {
        return Refused;
      }
      status := CANCELLED;
      var panicked := barrier.OpenWith(None);
      return if panicked then Panicked else Succeeded;
    }

    method Resolve(m: M) returns (reply: Reply)
      modifies this, barrier
      ensures reply == if old(status) == PROCESSING then Succeeded else Refused
      ensures reply == Refused ==> View() == old(View())
      ensures reply == Succeeded ==> status == FINISHED && barrier.isOpen
      ensures reply == Succeeded ==> barrier.state == if old(barrier.isOpen) then old(barrier.state) else Some(m)
      ensures (View(), reply) == Resolved(old(View()), m)
    {
      if status != PROCESSING {
        return Refused;
      }
      status := FINISHED;
      var panicked := barrier.OpenWith(Some(m));
      return Succeeded;
    }

    method TransitStatus(to: int)
      modifies this
      ensures status == if old(status) == FINISHED then FINISHED else to
      ensures View() == Transited(old(View()), to)
    {
      if status != FINISHED {
        status := to;
      }
    }
  }

  // ----- Runs -----

  /** A call that got past its guard and so decided the fate of the request. */
  datatype Win<+M> = ByKill | ByCancel | ByResolve(m: M)

  /** `revived` records that a worker set a dead or cancelled request back to processing. */
  datatype Request<+M> = Request(state: State<M>, wins: seq<Win<M>>, revived: bool, execs: nat)

  /** A task of the pool: queued, let through by the check, executing, executed, or turned
      away by the check. */
  datatype Stage = Pending | Cleared | Executing | Executed | Rejected

  datatype Task = Task(id: int, stage: Stage)

  datatype System<+M> = System(requests: map<int, Request<M>>, accepted: set<int>, tasks: seq<Task>)

  /** Check and transition of a worker are separate steps. */
  datatype Action<+M> =
    | New(id: int)
    | Schedule(id: int)
    | Kill(id: int)
    | Cancel(id: int)
    | Resolve(id: int, m: M)
    | Check(task: nat)
    | Go(task: nat)
    | End(task: nat)

  function FreshRequest<M>(): Request<M> {
    Request(State(QUEUED, false, None), [], false, 0)
  }

  /** A call that is not refused wins. */
  function Killed<M>(r: Request<M>): Request<M> {
    var (state, reply) := Ended(r.state, DEAD);
    if reply.Refused? then r else r.(state := state, wins := r.wins + [ByKill])
  }

  function Canceled<M>(r: Request<M>): Request<M> {
    var (state, reply) := Ended(r.state, CANCELLED);
    if reply.Refused? then r else r.(state := state, wins := r.wins + [ByCancel])
  }

  function ResolvedBy<M>(r: Request<M>, m: M): Request<M> {
    var (state, reply) := Resolved(r.state, m);
    if reply.Refused? then r else r.(state := state, wins := r.wins + [ByResolve(m)])
  }

  /** The winners grow exactly with the replies that are no refusals: Kill and Cancel are refused
      exactly on a terminal request, Resolve exactly on one that is not being processed, and a
      refused call changes nothing. */
  lemma WinsExactly<M>(r: Request<M>, m: M)
    ensures var terminal := r.state.status > PROCESSING;
            && (Ended(r.state, DEAD).1 == Refused <==> terminal) && (Ended(r.state, CANCELLED).1 == Refused <==> terminal)
            && Killed(r).wins == (if terminal then r.wins else r.wins + [ByKill])
            && Canceled(r).wins == (if terminal then r.wins else r.wins + [ByCancel])
            && (terminal ==> Killed(r) == r && Canceled(r) == r)
    ensures var processing := r.state.status == PROCESSING;
            && (Resolved(r.state, m).1 == Refused <==> !processing)
            && ResolvedBy(r, m).wins == (if processing then r.wins + [ByResolve(m)] else r.wins)
            && (!processing ==> ResolvedBy(r, m) == r)
  {
  }

  function Started<M>(r: Request<M>): Request<M> {
    Request(Transited(r.state, PROCESSING), r.wins, r.revived || Unprocessable(r.state.status), r.execs + 1)
  }

  function Apply<M>(s: System<M>, a: Action<M>): System<M> {
    match a
    case New(id) =>
      if id in s.requests then s else s.(requests := s.requests[id := FreshRequest()])
    case Schedule(id) =>
      if id !in s.requests || id in s.accepted then s
      else s.(accepted := s.accepted + {id}, tasks := s.tasks + [Task(id, Pending)])
    case Kill(id) =>
      if id !in s.requests then s else s.(requests := s.requests[id := Killed(s.requests[id])])
    case Cancel(id) =>
      if id !in s.requests then s else s.(requests := s.requests[id := Canceled(s.requests[id])])
    case Resolve(id, m) =>
      if id !in s.requests then s else s.(requests := s.requests[id := ResolvedBy(s.requests[id], m)])
    case Check(t) =>
      if !At(s, t, Pending) then s
      else SetStage(s, t, if Unprocessable(s.requests[s.tasks[t].id].state.status) then Rejected else Cleared)
    case Go(t) =>
      if !At(s, t, Cleared) then s
      else
        var id := s.tasks[t].id;
        SetStage(s, t, Executing).(requests := s.requests[id := Started(s.requests[id])])
    case End(t) =>
      if !At(s, t, Executing) then s
      else SetStage(s, t, Executed).(accepted := s.accepted - {s.tasks[t].id})
  }

  predicate At<M>(s: System<M>, t: nat, stage: Stage) {
    t < |s.tasks| && s.tasks[t].stage == stage && s.tasks[t].id in s.requests
  }

  function SetStage<M>(s: System<M>, t: nat, stage: Stage): System<M>
    requires t < |s.tasks|
  {
    s.(tasks := s.tasks[t := s.tasks[t].(stage := stage)])
  }

  ghost function Run<M>(actions: seq<Action<M>>): System<M> {
    if actions == [] then System(map[], {}, [])
    else Apply(Run(actions[..|actions| - 1]), actions[|actions| - 1])
  }

  /** The one winner, and what it left in status and barrier. */
  ghost predicate Decided<M>(r: Request<M>) {
    && |r.wins| <= 1
    && (r.wins == [] ==> r.state.status in {QUEUED, PROCESSING} && r.state == State(r.state.status, false, None))
    && (r.wins == [ByKill] ==> r.state == State(DEAD, false, None))
    && (r.wins == [ByCancel] ==> r.state == State(CANCELLED, false, None))
    && (r.wins != [] && r.wins[0].ByResolve? ==> r.state == State(FINISHED, true, Some(r.wins[0].m)))
  }

  predicate Begun(stage: Stage) {
    stage == Executing || stage == Executed
  }

  function Count(tasks: seq<Task>, id: int): nat {
    if tasks == [] then 0
    else
      var last := tasks[|tasks| - 1];
      Count(tasks[..|tasks| - 1], id) + if last.id == id && Begun(last.stage) then 1 else 0
  }

  /** How often a request was accepted by `Schedule`. */
  function Accepts(tasks: seq<Task>, id: int): nat {
    if tasks == [] then 0 else Accepts(tasks[..|tasks| - 1], id) + if tasks[|tasks| - 1].id == id then 1 else 0
  }

  lemma {:induction false} CountAccepts(tasks: seq<Task>, id: int)
    ensures Count(tasks, id) <= Accepts(tasks, id)
  {
    if tasks != [] {
      CountAccepts(tasks[..|tasks| - 1], id);
    }
  }

  lemma {:induction false} CountSet(tasks: seq<Task>, t: nat, stage: Stage, id: int)
    requires t < |tasks| && (Begun(tasks[t].stage) ==> Begun(stage))
    ensures Count(tasks[t := tasks[t].(stage := stage)], id) ==
            Count(tasks, id) + if tasks[t].id == id && Begun(stage) && !Begun(tasks[t].stage) then 1 else 0
  {
    var tasks' := tasks[t := tasks[t].(stage := stage)];
    var n := |tasks| - 1;
    if t == n {
      assert tasks'[..n] == tasks[..n];
    } else {
      CountSet(tasks[..n], t, stage, id);
      assert tasks'[..n] == tasks[..n][t := tasks[t].(stage := stage)];
    }
  }

  /** What every step keeps: each request that was not revived has its fate decided at most
      once, and has been executed as often as tasks of it have begun. */
  ghost predicate Inv<M>(s: System<M>) {
    && (forall id :: id in s.requests ==> s.requests[id].revived || Decided(s.requests[id]))
    && (forall id :: id in s.requests ==> s.requests[id].execs == Count(s.tasks, id))
    && (forall i :: 0 <= i < |s.tasks| ==> s.tasks[i].id in s.requests)
  }

  lemma UndecidedIsOpen<M>(r: Request<M>, w: Win<M>)
    requires Decided(r) && !Terminal(r.state.status)
    ensures r.wins == [] && r.wins + [w] == [w]
  {
  }

  lemma CallsKeepDecided<M>(r: Request<M>)
    requires Decided(r)
    ensures Decided(Killed(r)) && Decided(Canceled(r))
    ensures !Unprocessable(r.state.status) ==> Decided(Started(r))
  {
    if !Terminal(r.state.status) {
      UndecidedIsOpen(r, ByKill);
      UndecidedIsOpen(r, ByCancel);
    }
  }

  lemma ResolveKeepsDecided<M>(r: Request<M>, m: M)
    requires Decided(r)
    ensures Decided(ResolvedBy(r, m))
  {
    if !Terminal(r.state.status) {
      UndecidedIsOpen(r, ByResolve(m));
    }
  }

  lemma {:induction false} CountNone(tasks: seq<Task>, id: int)
    requires forall i :: 0 <= i < |tasks| ==> tasks[i].id != id
    ensures Count(tasks, id) == 0
  {
    if tasks != [] {
      CountNone(tasks[..|tasks| - 1], id);
    }
  }

  /** A call on one request. */
  lemma RequestChanged<M>(s: System<M>, id: int, r: Request<M>)
    requires Inv(s) && id in s.requests && r.execs == s.requests[id].execs && (r.revived || Decided(r))
    ensures Inv(s.(requests := s.requests[id := r]))
  {
  }

  /** A task moved on; if it began, its request was executed once more. */
  lemma StageChanged<M>(s: System<M>, t: nat, stage: Stage, r: Request<M>)
    requires Inv(s) && t < |s.tasks| && (Begun(s.tasks[t].stage) ==> Begun(stage)) && s.tasks[t].id in s.requests
    requires r.revived || Decided(r)
    requires r.execs == s.requests[s.tasks[t].id].execs + if Begun(stage) && !Begun(s.tasks[t].stage) then 1 else 0
    ensures Inv(SetStage(s, t, stage).(requests := s.requests[s.tasks[t].id := r]))
  {
    forall k ensures Count(SetStage(s, t, stage).tasks, k) ==
        Count(s.tasks, k) + if s.tasks[t].id == k && Begun(stage) && !Begun(s.tasks[t].stage) then 1 else 0
    {
      CountSet(s.tasks, t, stage, k);
    }
  }

  lemma InvIgnoresAccepted<M>(s: System<M>, accepted: set<int>)
    requires Inv(s)
    ensures Inv(s.(accepted := accepted))
  {
  }

  lemma QueueKeepsInv<M>(s: System<M>, id: int)
    requires Inv(s) && id in s.requests
    ensures Inv(s.(tasks := s.tasks + [Task(id, Pending)]))
  {
    var tasks' := s.tasks + [Task(id, Pending)];
    assert tasks'[..|tasks'| - 1] == s.tasks;
    assert forall k :: Count(tasks', k) == Count(s.tasks, k);
  }

  lemma CallsKeepInv<M>(s: System<M>, a: Action<M>)
    requires Inv(s) && (a.Kill? || a.Cancel? || a.Resolve?)
    ensures Inv(Apply(s, a))
  {
    if a.id in s.requests {
      var r := s.requests[a.id];
      if !r.revived {
        CallsKeepDecided(r);
        if a.Resolve? {
          ResolveKeepsDecided(r, a.m);
        }
      }
      RequestChanged(s, a.id, if a.Kill? then Killed(r) else if a.Cancel? then Canceled(r) else ResolvedBy(r, a.m));
    }
  }

  lemma WorkersKeepInv<M>(s: System<M>, a: Action<M>)
    requires Inv(s) && (a.Check? || a.Go? || a.End?)
    ensures Inv(Apply(s, a))
  {
    var t := a.task;
    if t < |s.tasks| && s.tasks[t].id in s.requests {
      var id := s.tasks[t].id;
      var r := s.requests[id];
      assert s.requests[id := r] == s.requests;
      if a.Check? && At(s, t, Pending) {
        StageChanged(s, t, Apply(s, a).tasks[t].stage, r);
      } else if a.Go? && At(s, t, Cleared) {
        if !r.revived {
          CallsKeepDecided(r);
        }
        StageChanged(s, t, Executing, Started(r));
      } else if a.End? && At(s, t, Executing) {
        StageChanged(s, t, Executed, r);
        InvIgnoresAccepted(SetStage(s, t, Executed), s.accepted - {id});
      }
    }
  }

  lemma ApplyKeepsInv<M>(s: System<M>, a: Action<M>)
    requires Inv(s)
    ensures Inv(Apply(s, a))
  {
    hide Inv;
    match a
    case New(id) =>
      NewKeepsInv(s, id);
    case Schedule(id) =>
      if id in s.requests && id !in s.accepted {
        QueueKeepsInv(s, id);
        InvIgnoresAccepted(s.(tasks := s.tasks + [Task(id, Pending)]), s.accepted + {id});
      }
    case Kill(_) => CallsKeepInv(s, a);
    case Cancel(_) => CallsKeepInv(s, a);
    case Resolve(_, _) => CallsKeepInv(s, a);
    case Check(_) => WorkersKeepInv(s, a);
    case Go(_) => WorkersKeepInv(s, a);
    case End(_) => WorkersKeepInv(s, a);
  }

  lemma NewKeepsInv<M>(s: System<M>, id: int)
    requires Inv(s)
    ensures Inv(Apply(s, New(id)))
  {
    if id !in s.requests {
      CountNone(s.tasks, id);
    }
  }

  lemma {:induction false} RunKeepsInv<M>(actions: seq<Action<M>>)
    ensures Inv(Run(actions))
  {
    if actions != [] {
      RunKeepsInv(actions[..|actions| - 1]);
      ApplyKeepsInv(Run(actions[..|actions| - 1]), actions[|actions| - 1]);
    }
  }

  /** Over every run, for every request that no worker revived: at most one of Resolve, Kill
      and Cancel succeeds, status and payload are that winner's, the barrier is open exactly
      if the winner is a Resolve, and the request is executed at most as often as it was
      accepted. */
  lemma RunSafety<M>(actions: seq<Action<M>>, id: int)
    requires id in Run(actions).requests
    ensures var r := Run(actions).requests[id];
            && r.execs <= Accepts(Run(actions).tasks, id)
            && (!r.revived ==> Decided(r))
            && (!r.revived ==> (r.state.open <==> exists m :: r.wins == [ByResolve(m)]))
  {
    hide Run, Decided;
    RunKeepsInv(actions);
    var r := Run(actions).requests[id];
    CountAccepts(Run(actions).tasks, id);
    if !r.revived {
      DecidedBarrier(r);
    }
  }

  lemma DecidedBarrier<M>(r: Request<M>)
    requires Decided(r)
    ensures r.state.open <==> exists m :: r.wins == [ByResolve(m)]
  {
    if r.state.open {
      assert r.wins == [ByResolve(r.wins[0].m)];
    }
  }

  /** A terminal status, once there, is never left, unless a worker revives the request. */
  lemma TerminalStays<M>(s: System<M>, a: Action<M>, id: int)
    requires id in s.requests && s.requests[id].state.status in {DEAD, FINISHED, CANCELLED}
    requires !Apply(s, a).requests[id].revived
    ensures Apply(s, a).requests[id].state == s.requests[id].state
    ensures Apply(s, a).requests[id].wins == s.requests[id].wins
  {
  }

  /** A request is revived by exactly one kind of step: the transition of a task that was
      let through by its check before the request was killed or cancelled. */
  lemma RevivedExactly<M>(s: System<M>, a: Action<M>, id: int)
    requires id in s.requests && !s.requests[id].revived
    ensures Apply(s, a).requests[id].revived <==>
            && a.Go? && At(s, a.task, Cleared) && s.tasks[a.task].id == id
            && Unprocessable(s.requests[id].state.status)
  {
  }

  /** Check and transition happen in one go. */
  predicate Atomic<M>(actions: seq<Action<M>>) {
    && (forall i :: 0 <= i < |actions| && actions[i].Go? ==> i > 0 && actions[i - 1] == Check(actions[i].task))
    && (forall i :: 0 <= i < |actions| - 1 && actions[i].Check? ==> actions[i + 1] == Go(actions[i].task))
  }

  /** Nothing revived so far, and only a task checked just now is between its two steps. */
  ghost predicate Quiet<M>(s: System<M>, last: seq<Action<M>>) {
    && (forall id :: id in s.requests ==> !s.requests[id].revived)
    && (forall t :: 0 <= t < |s.tasks| && s.tasks[t].stage == Cleared ==>
          last == [Check(t)] && s.tasks[t].id in s.requests && !Unprocessable(s.requests[s.tasks[t].id].state.status))
  }

  lemma QuietStep<M>(s: System<M>, last: seq<Action<M>>, a: Action<M>)
    requires Quiet(s, last) && |last| <= 1
    requires last != [] && last[0].Check? ==> a == Go(last[0].task)
    requires a.Go? ==> last == [Check(a.task)]
    ensures Quiet(Apply(s, a), [a])
  {
  }

  /** Then no request is ever revived, and none is executed after it was killed or cancelled. */
  lemma {:induction false} AtomicNeverRevives<M>(actions: seq<Action<M>>)
    requires Atomic(actions)
    ensures Quiet(Run(actions), if actions == [] then [] else [actions[|actions| - 1]])
  {
    if actions != [] {
      hide Quiet;
      var n := |actions| - 1;
      var front := actions[..n];
      assert forall i :: 0 <= i < |front| ==> front[i] == actions[i];
      AtomicNeverRevives(front);
      QuietStep(Run(front), if front == [] then [] else [actions[n - 1]], actions[n]);
    }
  }

  lemma AtomicFront<M>(actions: seq<Action<M>>)
    requires Atomic(actions) && actions != []
    ensures Atomic(actions[..|actions| - 1])
  {
    var front := actions[..|actions| - 1];
    assert forall i :: 0 <= i < |front| ==> front[i] == actions[i];
  }

  /** Over every run with atomic check-and-transit: at most one of Resolve, Kill and Cancel
      succeeds on a request, and status and barrier are that winner's. */
  lemma AtomicSafety<M>(actions: seq<Action<M>>, id: int)
    requires Atomic(actions) && id in Run(actions).requests
    ensures var r := Run(actions).requests[id];
            && !r.revived && |r.wins| <= 1 && Decided(r)
            && (r.state.open <==> exists m :: r.wins == [ByResolve(m)])
            && r.execs <= Accepts(Run(actions).tasks, id)
  {
    hide Run, Atomic, Accepts;
    AtomicNeverRevives(actions);
    RunSafety(actions, id);
  }

  /** In such a run no step executes a request that is killed or cancelled. */
  lemma AtomicExecutesLive<M>(actions: seq<Action<M>>, id: int)
    requires Atomic(actions) && actions != []
    requires var before, after := Run(actions[..|actions| - 1]), Run(actions);
             id in before.requests && id in after.requests && before.requests[id].execs < after.requests[id].execs
    ensures !Unprocessable(Run(actions[..|actions| - 1]).requests[id].state.status)
  {
    hide Atomic, Apply;
    var before, a := Run(actions[..|actions| - 1]), actions[|actions| - 1];
    AtomicNeverRevives(actions);
    ExecutionRevives(before, a, id);
    assert Run(actions) == Apply(before, a);
  }

  lemma ExecutionRevives<M>(s: System<M>, a: Action<M>, id: int)
    requires id in s.requests
    ensures id in Apply(s, a).requests
    ensures s.requests[id].execs < Apply(s, a).requests[id].execs && Unprocessable(s.requests[id].state.status) ==>
              Apply(s, a).requests[id].revived
  {
  }

  /** A request that is killed, cancelled or finished at some point of such a run is so, with
      the same payload and the same winner, ever after. */
  lemma {:induction false} TerminalForever<M>(actions: seq<Action<M>>, k: nat, id: int)
    requires Atomic(actions) && k <= |actions|
    requires id in Run(actions[..k]).requests && Run(actions[..k]).requests[id].state.status in {DEAD, FINISHED, CANCELLED}
    ensures id in Run(actions).requests
    ensures Run(actions).requests[id].state == Run(actions[..k]).requests[id].state
    ensures Run(actions).requests[id].wins == Run(actions[..k]).requests[id].wins
    decreases |actions|
  {
    hide Atomic;
    var n := |actions| - 1;
    if k == |actions| {
      assert actions[..k] == actions;
    } else {
      var front := actions[..n];
      assert front[..k] == actions[..k];
      AtomicFront(actions);
      TerminalForever(front, k, id);
      AtomicNeverRevives(actions);
      assert id in Run(actions).requests;
      TerminalStays(Run(front), actions[n], id);
    }
  }

  // ----- Acceptance -----

  /** How many tasks of a request have not been executed to the end. */
  function OpenTasks(tasks: seq<Task>, id: int): nat {
    if tasks == [] then 0
    else
      var last := tasks[|tasks| - 1];
      OpenTasks(tasks[..|tasks| - 1], id) + if last.id == id && last.stage != Executed then 1 else 0
  }

  lemma {:induction false} OpenTasksSet(tasks: seq<Task>, t: nat, stage: Stage, id: int)
    requires t < |tasks| && tasks[t].stage != Executed
    ensures OpenTasks(tasks[t := tasks[t].(stage := stage)], id) ==
            OpenTasks(tasks, id) - if tasks[t].id == id && stage == Executed then 1 else 0
  {
    var tasks' := tasks[t := tasks[t].(stage := stage)];
    var n := |tasks| - 1;
    if t == n {
      assert tasks'[..n] == tasks[..n];
    } else {
      OpenTasksSet(tasks[..n], t, stage, id);
      assert tasks'[..n] == tasks[..n][t := tasks[t].(stage := stage)];
    }
  }

  lemma OpenTasksQueued(tasks: seq<Task>, t: Task, id: int)
    ensures OpenTasks(tasks + [t], id) == OpenTasks(tasks, id) + if t.id == id && t.stage != Executed then 1 else 0
  {
    assert (tasks + [t])[..|tasks|] == tasks;
  }

  lemma AcceptanceStep<M>(s: System<M>, a: Action<M>, id: int)
    requires OpenTasks(s.tasks, id) == if id in s.accepted then 1 else 0
    ensures var next := Apply(s, a); OpenTasks(next.tasks, id) == if id in next.accepted then 1 else 0
  {
    hide OpenTasks;
    match a
    case Schedule(k) =>
      OpenTasksQueued(s.tasks, Task(k, Pending), id);
    case Check(t) =>
      if At(s, t, Pending) {
        OpenTasksSet(s.tasks, t, Apply(s, a).tasks[t].stage, id);
      }
    case Go(t) =>
      if At(s, t, Cleared) {
        OpenTasksSet(s.tasks, t, Executing, id);
      }
    case End(t) =>
      if At(s, t, Executing) {
        OpenTasksSet(s.tasks, t, Executed, id);
        OpenTasksSet(s.tasks, t, Executed, s.tasks[t].id);
      }
    case _ =>
  }

  /** Over every run a request has at most one task that was not executed to the end, and has one
      exactly if it is in the set; only a request that is not in the set is queued. */
  lemma {:induction false} AcceptedOnce<M>(actions: seq<Action<M>>, id: int)
    ensures var s := Run(actions);
            && OpenTasks(s.tasks, id) == (if id in s.accepted then 1 else 0)
            && Apply(s, Schedule(id)).tasks ==
               if id in s.requests && OpenTasks(s.tasks, id) == 0 then s.tasks + [Task(id, Pending)] else s.tasks
  {
    if actions != [] {
      var front := actions[..|actions| - 1];
      AcceptedOnce(front, id);
      AcceptanceStep(Run(front), actions[|actions| - 1], id);
    }
  }

  /** A queued task is turned away exactly if its request is dead or cancelled by then; otherwise,
      when check and transition come together, the request is executed once more and is being
      processed, unless it is finished. */
  lemma CheckedThenExecuted<M>(s: System<M>, t: nat)
    requires At(s, t, Pending)
    ensures var r := s.requests[s.tasks[t].id];
            var next := Apply(Apply(s, Check(t)), Go(t));
            var r' := next.requests[s.tasks[t].id];
            if r.state.status in {DEAD, CANCELLED} then next.tasks[t].stage == Rejected && r' == r
            else
              && next.tasks[t].stage == Executing && r'.execs == r.execs + 1 && r'.wins == r.wins
              && (r.state.status != FINISHED ==> r'.state == r.state.(status := PROCESSING))
              && (r.state.status == FINISHED ==> r'.state == r.state)
  {
  }

  /** An execution that ends takes the request out of the set, so that it can be queued again. */
  lemma EndedIsFree<M>(s: System<M>, t: nat)
    requires At(s, t, Executing)
    ensures var next := Apply(s, End(t));
            next.tasks[t].stage == Executed && next.requests == s.requests && next.accepted == s.accepted - {s.tasks[t].id}
  {
  }

  /** Only a request that a worker has begun to execute is being processed or finished; so no
      request is resolved before its execution. */
  lemma {:induction false} ExecutedBeforeResolved<M>(actions: seq<Action<M>>, id: int, m: M)
    requires id in Run(actions).requests
    ensures var r := Run(actions).requests[id];
            && (r.state.status in {PROCESSING, FINISHED} ==> r.execs > 0)
            && (r.execs == 0 ==> ResolvedBy(r, m) == r)
  {
    if actions != [] {
      var before := Run(actions[..|actions| - 1]);
      if id in before.requests {
        ExecutedBeforeResolved(actions[..|actions| - 1], id, m);
      }
    }
  }

  lemma RunThen<M>(front: seq<Action<M>>, a: Action<M>)
    ensures Run(front + [a]) == Apply(Run(front), a)
  {
    assert (front + [a])[..|front|] == front;
  }

  /** Without that atomicity two calls can succeed on one request: it is killed after the
      check, set back to processing, and resolved. */
  lemma SplitCheckRevives<M>(m: M)
    ensures var s := Run([New(1), Schedule(1), Check(0), Kill(1), Go(0), Resolve(1, m)]);
            1 in s.requests && s.requests[1].revived && s.requests[1].wins == [ByKill, ByResolve(m)]
  {
    var a: seq<Action<M>> := [New(1)];
    RunThen<M>([], New(1));
    assert [] + [New(1)] == a;
    RunThen(a, Schedule(1));
    RunThen(a + [Schedule(1)], Check(0));
    var b := a + [Schedule(1)] + [Check(0)];
    assert Run(b).tasks == [Task(1, Cleared)] && Run(b).requests == map[1 := FreshRequest()];
    RunThen(b, Kill(1));
    RunThen(b + [Kill(1)], Go(0));
    var c := b + [Kill(1)] + [Go(0)];
    assert Run(c).requests[1].state == State(PROCESSING, false, None);
    RunThen(c, Resolve(1, m));
    assert c + [Resolve(1, m)] == [New(1), Schedule(1), Check(0), Kill(1), Go(0), Resolve(1, m)];
  }
}
