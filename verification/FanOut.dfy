/**
 The fan-out of jobs.py: calls that run their items on one shared pool, in all schedules.
 A call made from a pool thread runs its items itself.
 */
module FanOuts {
  import opened Wrappers

  datatype Value = Value(data: string)

  /** What the function does with an item; `Aborts` is an exception that is not an `Exception`. */
  datatype Outcome = Gives(value: Value) | Raises | Aborts

  function Answer(outcome: Outcome, default_: Value): Value {
    if outcome.Gives? then outcome.value else default_
  }

  /** The call without time limit and without a pool. */
  function MapOf(outcomes: seq<Outcome>, default_: Value): seq<Value> {
    seq(|outcomes|, i requires 0 <= i < |outcomes| => Answer(outcomes[i], default_))
  }

  datatype Inline = Results(list: seq<Value>) | Propagates

  /** The items one after the other, in the thread of the caller; `late[i]`: the time is up before item `i`. */
  method RunInline(outcomes: seq<Outcome>, default_: Value, late: seq<bool>) returns (answer: Inline)
    requires |late| == |outcomes|
    ensures answer.Propagates? <==> exists i :: 0 <= i < |outcomes| && !late[i] && outcomes[i].Aborts?
    ensures answer.Results? ==>
      && |answer.list| == |outcomes|
      && forall i | 0 <= i < |outcomes| ::
           answer.list[i] == if late[i] then default_ else MapOf(outcomes, default_)[i]
  {
    var results := [];
    for n := 0 to |outcomes|
      invariant |results| == n
      invariant forall i | 0 <= i < n :: late[i] || !outcomes[i].Aborts?
      invariant forall i | 0 <= i < n :: results[i] == if late[i] then default_ else Answer(outcomes[i], default_)
    {
      if late[n] {
        results := results + [default_];
      } else if outcomes[n].Aborts? {
        return Propagates;
      } else {
        results := results + [Answer(outcomes[n], default_)];
      }
    }
    answer := Results(results);
  }

  // ---------------------------------------------------------------- calls that use the pool

  /** `Finished`: the result is written and the gate released; `Settled`: the future is done, the worker free. */
  datatype Phase = Pending | Queued | Running | Finished | Settled | Cancelled

  datatype Stage = Submitting | Waiting | Cancelling(next: nat) | Returned(list: seq<Value>)

  datatype Call = Call(
    outcomes: seq<Outcome>, default_: Value, parallel: int, timed: bool,
    results: seq<Value>, phases: seq<Phase>, submitted: nat, permits: nat, stage: Stage)

  function Permits(parallel: int): nat {
    if parallel > 1 then parallel else 1
  }

  datatype Task = Task(call: nat, index: nat)

  /** `busy` is the mark that each pool thread keeps. */
  datatype System = System(calls: seq<Call>, workers: seq<Option<Task>>, busy: seq<bool>)

  datatype Event =
    | Start(caller: Option<nat>, outcomes: seq<Outcome>, default_: Value, parallel: int, timed: bool)
    | Submit(call: nat)
    | GiveUp(call: nat)
    | AllSubmitted(call: nat)
    | AllSettled(call: nat)
    | TimeUp(call: nat)
    | CancelNext(call: nat)
    | Return(call: nat)
    | Take(worker: nat, task: Task)
    | Finish(worker: nat)
    | Free(worker: nat)

  function NewCall(outcomes: seq<Outcome>, default_: Value, parallel: int, timed: bool): Call {
    Call(outcomes, default_, parallel, timed, seq(|outcomes|, _ => default_), seq(|outcomes|, _ => Pending),
         0, Permits(parallel), Submitting)
  }

  /** Whether the call uses the pool. */
  predicate UsesPool(s: System, ev: Event)
    requires ev.Start?
  {
    |ev.outcomes| > 1 && !(ev.caller.Some? && ev.caller.value < |s.busy| && s.busy[ev.caller.value])
  }

  predicate IsTask(s: System, task: Task) {
    task.call < |s.calls| && task.index < |s.calls[task.call].phases|
    && |s.calls[task.call].results| == |s.calls[task.call].phases| == |s.calls[task.call].outcomes|
  }

  function PhaseOf(s: System, task: Task): Phase {
    if IsTask(s, task) then s.calls[task.call].phases[task.index] else Pending
  }

  predicate WorkerAt(s: System, w: nat, phase: Phase) {
    w < |s.workers| && w < |s.busy| && s.workers[w].Some? && IsTask(s, s.workers[w].value)
    && PhaseOf(s, s.workers[w].value) == phase
  }

  predicate Possible(s: System, ev: Event) {
    match ev
    case Start(caller, _, _, _, _) => caller.Some? ==> WorkerAt(s, caller.value, Running)
    case Submit(c) =>
      c < |s.calls| && s.calls[c].stage.Submitting? && s.calls[c].submitted < |s.calls[c].phases| && s.calls[c].permits > 0
    case GiveUp(c) => c < |s.calls| && s.calls[c].stage.Submitting? && s.calls[c].timed
    case AllSubmitted(c) =>
      c < |s.calls| && s.calls[c].stage.Submitting? && s.calls[c].submitted == |s.calls[c].phases|
    case AllSettled(c) =>
      c < |s.calls| && s.calls[c].stage.Waiting? && s.calls[c].submitted <= |s.calls[c].phases|
      && forall i | 0 <= i < s.calls[c].submitted :: s.calls[c].phases[i].Settled?
    case TimeUp(c) => c < |s.calls| && s.calls[c].stage.Waiting? && s.calls[c].timed
    case CancelNext(c) =>
      c < |s.calls| && s.calls[c].stage.Cancelling? && s.calls[c].stage.next < s.calls[c].submitted <= |s.calls[c].phases|
    case Return(c) => c < |s.calls| && s.calls[c].stage.Cancelling? && s.calls[c].stage.next >= s.calls[c].submitted
    case Take(w, task) =>
      w < |s.workers| && w < |s.busy| && s.workers[w].None? && PhaseOf(s, task).Queued?
    case Finish(w) => WorkerAt(s, w, Running)
    case Free(w) => WorkerAt(s, w, Finished)
  }

  function Submitted(call: Call): Call
    requires call.submitted < |call.phases| && call.permits > 0
  {
    call.(phases := call.phases[call.submitted := Queued], submitted := call.submitted + 1, permits := call.permits - 1)
  }

  function At(call: Call, index: nat, phase: Phase): Call
    requires index < |call.phases|
  {
    call.(phases := call.phases[index := phase])
  }

  /** Also after the call has returned: its results change, the list it returned does not. */
  function Written(call: Call, index: nat): Call
    requires index < |call.phases| == |call.results| == |call.outcomes|
  {
    At(call, index, Finished).(
      results := call.results[index := Answer(call.outcomes[index], call.default_)],
      permits := call.permits + 1)
  }

  function CancelledNext(call: Call): Call
    requires call.stage.Cancelling? && call.stage.next < |call.phases|
  {
    var k := call.stage.next;
    var after := if call.phases[k].Queued? then At(call, k, Cancelled) else call;
    after.(stage := Cancelling(k + 1))
  }

  function WithCall(s: System, c: nat, call: Call): System
    requires c < |s.calls|
  {
    s.(calls := s.calls[c := call])
  }

  function Step(s: System, ev: Event): System {
    if !Possible(s, ev) then s
    else
      match ev
      case Start(_, outcomes, default_, parallel, timed) =>
        if UsesPool(s, ev) then s.(calls := s.calls + [NewCall(outcomes, default_, parallel, timed)]) else s
      case Submit(c) => WithCall(s, c, Submitted(s.calls[c]))
      case GiveUp(c) => WithCall(s, c, s.calls[c].(stage := Waiting))
      case AllSubmitted(c) => WithCall(s, c, s.calls[c].(stage := Waiting))
      case AllSettled(c) => WithCall(s, c, s.calls[c].(stage := Cancelling(0)))
      case TimeUp(c) => WithCall(s, c, s.calls[c].(stage := Cancelling(0)))
      case CancelNext(c) => WithCall(s, c, CancelledNext(s.calls[c]))
      case Return(c) => WithCall(s, c, s.calls[c].(stage := Returned(s.calls[c].results)))
      case Take(w, task) =>
        WithCall(s, task.call, At(s.calls[task.call], task.index, Running))
          .(workers := s.workers[w := Some(task)], busy := s.busy[w := true])
      case Finish(w) =>
        var task := s.workers[w].value;
        WithCall(s, task.call, Written(s.calls[task.call], task.index)).(busy := s.busy[w := false])
      case Free(w) =>
        var task := s.workers[w].value;
        WithCall(s, task.call, At(s.calls[task.call], task.index, Settled)).(workers := s.workers[w := None])
  }

  // ---------------------------------------------------------------- one call

  predicate HoldsPermit(phase: Phase) {
    phase.Queued? || phase.Running? || phase.Cancelled?
  }

  function Holding(phases: seq<Phase>): nat {
    if phases == [] then 0 else (if HoldsPermit(phases[0]) then 1 else 0) + Holding(phases[1..])
  }

  lemma {:induction false} HoldingChanges(phases: seq<Phase>, i: nat, phase: Phase)
    requires i < |phases|
    ensures Holding(phases[i := phase]) + (if HoldsPermit(phases[i]) then 1 else 0)
         == Holding(phases) + (if HoldsPermit(phase) then 1 else 0)
    decreases |phases|
  {
    if i == 0 {
      assert phases[i := phase][1..] == phases[1..];
    } else {
      assert phases[i := phase][1..] == phases[1..][i - 1 := phase];
      HoldingChanges(phases[1..], i - 1, phase);
    }
  }

  lemma {:induction false} NoneHolding(phases: seq<Phase>)
    requires forall i | 0 <= i < |phases| :: !HoldsPermit(phases[i])
    ensures Holding(phases) == 0
  {
    if phases != [] {
      var rest := phases[1..];
      forall i | 0 <= i < |rest| ensures !HoldsPermit(rest[i]) {
        assert rest[i] == phases[i + 1];
      }
      NoneHolding(rest);
    }
  }

  predicate HasResult(phase: Phase) {
    phase.Finished? || phase.Settled?
  }

  ghost predicate Shaped(call: Call) {
    && |call.phases| == |call.results| == |call.outcomes|
    && call.submitted <= |call.phases|
    && (forall i | 0 <= i < |call.phases| :: call.phases[i].Pending? <==> i >= call.submitted)
  }

  ghost predicate ResultsAreRight(call: Call)
    requires Shaped(call)
  {
    forall i | 0 <= i < |call.results| ::
      call.results[i] == if HasResult(call.phases[i]) then Answer(call.outcomes[i], call.default_) else call.default_
  }

  ghost predicate GateIsRight(call: Call) {
    call.permits + Holding(call.phases) == Permits(call.parallel)
  }

  ghost predicate AllDone(call: Call) {
    call.submitted == |call.phases| && forall i | 0 <= i < |call.phases| :: call.phases[i].Settled?
  }

  /** Without a time limit the call goes on only when everything is done; only a cancelling call cancels. */
  ghost predicate StageIsRight(call: Call)
    requires Shaped(call)
  {
    && (call.stage.Submitting? || call.stage.Waiting? ==>
          forall i | 0 <= i < |call.phases| :: !call.phases[i].Cancelled?)
    && (!call.timed && call.stage.Waiting? ==> call.submitted == |call.phases|)
    && (!call.timed && (call.stage.Cancelling? || call.stage.Returned?) ==> AllDone(call))
    && (call.stage.Cancelling? ==> call.stage.next <= call.submitted)
    && (call.stage.Returned? ==> ListIsRight(call))
  }

  /** The list that was returned is the map, with the default for what the time did not allow. */
  ghost predicate ListIsRight(call: Call)
    requires call.stage.Returned?
  {
    var expected := MapOf(call.outcomes, call.default_);
    && |call.stage.list| == |expected|
    && (forall i | 0 <= i < |expected| :: call.stage.list[i] == call.default_ || call.stage.list[i] == expected[i])
    && (!call.timed ==> call.stage.list == expected)
  }

  ghost predicate CallIsRight(call: Call) {
    Shaped(call) && ResultsAreRight(call) && GateIsRight(call) && StageIsRight(call)
  }

  lemma NewIsRight(outcomes: seq<Outcome>, default_: Value, parallel: int, timed: bool)
    ensures CallIsRight(NewCall(outcomes, default_, parallel, timed))
  {
    NoneHolding(NewCall(outcomes, default_, parallel, timed).phases);
  }

  lemma SubmitKeeps(call: Call)
    requires CallIsRight(call) && call.stage.Submitting? && call.submitted < |call.phases| && call.permits > 0
    ensures CallIsRight(Submitted(call))
  {
    HoldingChanges(call.phases, call.submitted, Queued);
  }

  lemma TakeKeeps(call: Call, i: nat)
    requires CallIsRight(call) && i < |call.phases| && call.phases[i].Queued?
    ensures CallIsRight(At(call, i, Running))
  {
    HoldingChanges(call.phases, i, Running);
  }

  lemma FinishKeeps(call: Call, i: nat)
    requires CallIsRight(call) && i < |call.phases| && call.phases[i].Running?
    ensures CallIsRight(Written(call, i))
  {
    HoldingChanges(call.phases, i, Finished);
  }

  lemma FreeKeeps(call: Call, i: nat)
    requires CallIsRight(call) && i < |call.phases| && call.phases[i].Finished?
    ensures CallIsRight(At(call, i, Settled))
  {
    HoldingChanges(call.phases, i, Settled);
  }

  lemma CancelKeeps(call: Call)
    requires CallIsRight(call) && call.stage.Cancelling? && call.stage.next < call.submitted
    ensures CallIsRight(CancelledNext(call))
  {
    HoldingChanges(call.phases, call.stage.next, Cancelled);
  }

  lemma ReturnKeeps(call: Call)
    requires CallIsRight(call) && call.stage.Cancelling?
    ensures CallIsRight(call.(stage := Returned(call.results)))
  {
    var after := call.(stage := Returned(call.results));
    assert !call.timed ==> call.results == MapOf(call.outcomes, call.default_);
    assert ListIsRight(after);
  }

  // ---------------------------------------------------------------- all calls

  ghost predicate CallsAreRight(s: System) {
    forall c | 0 <= c < |s.calls| :: CallIsRight(s.calls[c])
  }

  predicate AtWork(phase: Phase) {
    phase.Running? || phase.Finished?
  }

  /** A pool thread is marked exactly while it runs an item, and works for one item. */
  ghost predicate WorkersAreRight(s: System) {
    && |s.workers| == |s.busy|
    && (forall w | 0 <= w < |s.workers| ::
          if s.workers[w].None? then !s.busy[w]
          else PhaseOf(s, s.workers[w].value) == if s.busy[w] then Running else Finished)
    && (forall v, w | 0 <= v < w < |s.workers| :: s.workers[v].Some? ==> s.workers[v] != s.workers[w])
  }

  ghost predicate HasWorker(s: System, task: Task) {
    exists w :: 0 <= w < |s.workers| && s.workers[w] == Some(task)
  }

  ghost predicate WorkIsDone(s: System) {
    forall task | AtWork(PhaseOf(s, task)) :: HasWorker(s, task)
  }

  ghost predicate Invariant(s: System) {
    CallsAreRight(s) && WorkersAreRight(s) && WorkIsDone(s)
  }

  predicate OfWorker(ev: Event) {
    ev.Take? || ev.Finish? || ev.Free?
  }

  lemma CallerKeepsCalls(s: System, ev: Event)
    requires CallsAreRight(s) && Possible(s, ev) && !OfWorker(ev)
    ensures CallsAreRight(Step(s, ev))
  {
    match ev
    case Start(_, outcomes, default_, parallel, timed) => NewIsRight(outcomes, default_, parallel, timed);
    case Submit(c) => SubmitKeeps(s.calls[c]);
    case CancelNext(c) => CancelKeeps(s.calls[c]);
    case Return(c) => ReturnKeeps(s.calls[c]);
    case _ =>
  }

  lemma WorkerKeepsCalls(s: System, ev: Event)
    requires CallsAreRight(s) && Possible(s, ev) && OfWorker(ev)
    ensures CallsAreRight(Step(s, ev))
  {
    match ev
    case Take(w, task) => TakeKeeps(s.calls[task.call], task.index);
    case Finish(w) => FinishKeeps(s.calls[s.workers[w].value.call], s.workers[w].value.index);
    case Free(w) => FreeKeeps(s.calls[s.workers[w].value.call], s.workers[w].value.index);
    case _ =>
  }

  /** Nothing that concerns the pool threads. */
  ghost predicate Quiet(s: System, t: System) {
    && t.workers == s.workers && t.busy == s.busy
    && forall task :: (AtWork(PhaseOf(s, task)) || AtWork(PhaseOf(t, task))) ==> PhaseOf(s, task) == PhaseOf(t, task)
  }

  /** One item moves to a phase. */
  ghost predicate Moves(s: System, t: System, moved: Task, phase: Phase) {
    && PhaseOf(t, moved) == phase
    && forall task | task != moved :: PhaseOf(t, task) == PhaseOf(s, task)
  }

  lemma QuietKeeps(s: System, t: System)
    requires WorkersAreRight(s) && WorkIsDone(s) && Quiet(s, t)
    ensures WorkersAreRight(t) && WorkIsDone(t)
  {
    forall task | AtWork(PhaseOf(t, task)) ensures HasWorker(t, task) {
      assert HasWorker(s, task);
    }
  }

  lemma MarkKeeps(s: System, t: System, w: nat, task: Task, phase: Phase)
    requires WorkersAreRight(s) && WorkIsDone(s) && w < |s.workers| && AtWork(phase)
    requires s.workers[w] == Some(task) || (s.workers[w].None? && !AtWork(PhaseOf(s, task)))
    requires t.workers == s.workers[w := Some(task)] && t.busy == s.busy[w := phase.Running?]
    requires Moves(s, t, task, phase)
    ensures WorkersAreRight(t) && WorkIsDone(t)
  {
    forall other | AtWork(PhaseOf(t, other)) ensures HasWorker(t, other) {
      if other == task {
        assert t.workers[w] == Some(other);
      } else {
        assert HasWorker(s, other);
        var v :| 0 <= v < |s.workers| && s.workers[v] == Some(other);
        assert t.workers[v] == Some(other);
      }
    }
  }

  lemma FreeKeepsWorkers(s: System, t: System, w: nat, task: Task)
    requires WorkersAreRight(s) && WorkIsDone(s) && w < |s.workers| && s.workers[w] == Some(task) && !s.busy[w]
    requires t.workers == s.workers[w := None] && t.busy == s.busy && Moves(s, t, task, Settled)
    ensures WorkersAreRight(t) && WorkIsDone(t)
  {
    forall other | AtWork(PhaseOf(t, other)) ensures HasWorker(t, other) {
      assert HasWorker(s, other);
      var v :| 0 <= v < |s.workers| && s.workers[v] == Some(other);
      assert t.workers[v] == Some(other);
    }
  }

  lemma OneCallIsQuiet(s: System, c: nat, call: Call)
    requires c < |s.calls| && CallIsRight(s.calls[c]) && CallIsRight(call)
    requires |call.phases| == |s.calls[c].phases|
    requires forall i | 0 <= i < |call.phases| ::
      AtWork(s.calls[c].phases[i]) || AtWork(call.phases[i]) ==> call.phases[i] == s.calls[c].phases[i]
    ensures Quiet(s, WithCall(s, c, call))
  {
  }

  lemma StartIsQuiet(s: System, call: Call)
    requires CallsAreRight(s) && forall i | 0 <= i < |call.phases| :: call.phases[i].Pending?
    ensures Quiet(s, s.(calls := s.calls + [call]))
  {
  }

  lemma OthersAreQuiet(s: System, ev: Event)
    requires CallsAreRight(s) && CallsAreRight(Step(s, ev)) && Possible(s, ev) && !OfWorker(ev)
    ensures Quiet(s, Step(s, ev))
  {
    if ev.Start? {
      StartIsQuiet(s, NewCall(ev.outcomes, ev.default_, ev.parallel, ev.timed));
    } else {
      OneCallIsQuiet(s, ev.call, Step(s, ev).calls[ev.call]);
    }
  }

  /** The item that a pool thread takes, finishes or leaves. */
  function TaskOf(s: System, ev: Event): Task
    requires OfWorker(ev) && Possible(s, ev)
  {
    if ev.Take? then ev.task else s.workers[ev.worker].value
  }

  function NextPhase(ev: Event): Phase
    requires OfWorker(ev)
  {
    if ev.Take? then Running else if ev.Finish? then Finished else Settled
  }

  lemma WorkerMoves(s: System, ev: Event)
    requires CallsAreRight(s) && OfWorker(ev) && Possible(s, ev)
    ensures Moves(s, Step(s, ev), TaskOf(s, ev), NextPhase(ev))
  {
  }

  lemma WorkerKeeps(s: System, ev: Event)
    requires Invariant(s) && OfWorker(ev) && Possible(s, ev)
    ensures WorkersAreRight(Step(s, ev)) && WorkIsDone(Step(s, ev))
  {
    WorkerMoves(s, ev);
    if ev.Free? {
      FreeKeepsWorkers(s, Step(s, ev), ev.worker, TaskOf(s, ev));
    } else {
      MarkKeeps(s, Step(s, ev), ev.worker, TaskOf(s, ev), NextPhase(ev));
    }
  }

  lemma StepKeeps(s: System, ev: Event)
    requires Invariant(s)
    ensures Invariant(Step(s, ev))
  {
    if Possible(s, ev) && OfWorker(ev) {
      WorkerKeepsCalls(s, ev);
      WorkerKeeps(s, ev);
    } else if Possible(s, ev) {
      CallerKeepsCalls(s, ev);
      OthersAreQuiet(s, ev);
      QuietKeeps(s, Step(s, ev));
    }
  }

  function Run(s: System, events: seq<Event>): System
    decreases |events|
  {
    if events == [] then s else Run(Step(s, events[0]), events[1..])
  }

  function Idle(threads: nat): System {
    System([], seq(threads, _ => None), seq(threads, _ => false))
  }

  lemma {:induction false} RunKeeps(s: System, events: seq<Event>)
    requires Invariant(s)
    ensures Invariant(Run(s, events))
    decreases |events|
  {
    if events != [] {
      StepKeeps(s, events[0]);
      RunKeeps(Step(s, events[0]), events[1..]);
    }
  }

  // ---------------------------------------------------------------- the properties

  /**
   In every schedule: a call that returns gives one entry for each item, in order, what the function
   gives for it or the default; without a time limit it gives exactly the map.
   */
  lemma ReturnsTheMap(threads: nat, events: seq<Event>, c: nat)
    ensures var s := Run(Idle(threads), events);
      c < |s.calls| && s.calls[c].stage.Returned? ==>
        var call := s.calls[c]; var expected := MapOf(call.outcomes, call.default_);
        && |call.stage.list| == |call.outcomes|
        && (forall i | 0 <= i < |expected| :: call.stage.list[i] == call.default_ || call.stage.list[i] == expected[i])
        && (!call.timed ==> call.stage.list == expected)
  {
    RunKeeps(Idle(threads), events);
  }

  /** Items of the call that wait in the pool or run there. */
  function InPool(phases: seq<Phase>): nat {
    if phases == [] then 0
    else (if phases[0].Queued? || phases[0].Running? then 1 else 0) + InPool(phases[1..])
  }

  lemma {:induction false} InPoolHolds(phases: seq<Phase>)
    ensures InPool(phases) <= Holding(phases)
  {
    if phases != [] {
      InPoolHolds(phases[1..]);
    }
  }

  /** At most `parallel` items of a call are in the pool at a time, and a permit is never given twice. */
  lemma GateHolds(threads: nat, events: seq<Event>, c: nat)
    ensures var s := Run(Idle(threads), events);
      c < |s.calls| ==>
        var call := s.calls[c];
        InPool(call.phases) <= Permits(call.parallel) && call.permits <= Permits(call.parallel)
  {
    RunKeeps(Idle(threads), events);
    var s := Run(Idle(threads), events);
    if c < |s.calls| {
      InPoolHolds(s.calls[c].phases);
    }
  }

  lemma ReturnedStaysOnce(s: System, ev: Event, c: nat)
    requires c < |s.calls| && s.calls[c].stage.Returned?
    ensures c < |Step(s, ev).calls| && Step(s, ev).calls[c].stage == s.calls[c].stage
  {
  }

  /** What a call has returned does not change, although its items may still end. */
  lemma {:induction false} ReturnedStays(s: System, events: seq<Event>, c: nat)
    requires c < |s.calls| && s.calls[c].stage.Returned?
    ensures c < |Run(s, events).calls| && Run(s, events).calls[c].stage == s.calls[c].stage
    decreases |events|
  {
    if events != [] {
      ReturnedStaysOnce(s, events[0], c);
      ReturnedStays(Step(s, events[0]), events[1..], c);
    }
  }

  /** A pool thread that runs an item never makes a call that waits for the pool. */
  lemma PoolThreadRunsInline(s: System, ev: Event)
    requires Invariant(s) && ev.Start? && ev.caller.Some? && Possible(s, ev)
    ensures !UsesPool(s, ev)
  {
  }

  // ---------------------------------------------------------------- no call waits for ever

  predicate Over(s: System, c: nat)
    requires c < |s.calls|
  {
    s.calls[c].stage.Returned?
  }

  /** The events that can happen without the help of a time limit. */
  predicate Helps(s: System, ev: Event) {
    Possible(s, ev) && !ev.Start? && !ev.GiveUp? && !ev.TimeUp?
  }

  lemma {:induction false} SomeHold(phases: seq<Phase>) returns (i: nat)
    requires Holding(phases) > 0
    ensures i < |phases| && HoldsPermit(phases[i])
  {
    if HoldsPermit(phases[0]) {
      i := 0;
    } else {
      var rest := SomeHold(phases[1..]);
      i := rest + 1;
    }
  }

  /** An item in the pool gets on, because a pool thread either is free or can get on itself. */
  lemma ItemGetsOn(s: System, task: Task) returns (ev: Event)
    requires Invariant(s) && |s.workers| > 0 && (PhaseOf(s, task).Queued? || AtWork(PhaseOf(s, task)))
    ensures Helps(s, ev)
  {
    if PhaseOf(s, task).Queued? && s.workers[0].None? {
      ev := Take(0, task);
    } else {
      var w: nat := 0;
      if AtWork(PhaseOf(s, task)) {
        assert HasWorker(s, task);
        w :| 0 <= w < |s.workers| && s.workers[w] == Some(task);
      }
      ev := if s.busy[w] then Finish(w) else Free(w);
    }
  }

  /**
   As long as the pool has a thread, some event can happen while a call is not over: no
   schedule ends in a deadlock, whatever the calls and their limits are.
   */
  lemma NoDeadlock(s: System, c: nat) returns (ev: Event)
    requires Invariant(s) && |s.workers| > 0 && c < |s.calls| && !Over(s, c)
    ensures Helps(s, ev)
  {
    var call := s.calls[c];
    if call.stage.Submitting? && call.submitted == |call.phases| {
      ev := AllSubmitted(c);
    } else if call.stage.Submitting? && call.permits > 0 {
      ev := Submit(c);
    } else if call.stage.Submitting? {
      var i := SomeHold(call.phases);
      ev := ItemGetsOn(s, Task(c, i));
    } else if call.stage.Waiting? {
      if i :| 0 <= i < call.submitted && !call.phases[i].Settled? {
        ev := ItemGetsOn(s, Task(c, i));
      } else {
        ev := AllSettled(c);
      }
    } else {
      ev := if call.stage.next < call.submitted then CancelNext(c) else Return(c);
    }
  }

  function PhaseRank(phase: Phase): nat {
    match phase
    case Pending => 4
    case Queued => 3
    case Running => 2
    case Finished => 1
    case Settled => 0
    case Cancelled => 0
  }

  function ItemsRank(phases: seq<Phase>): nat {
    if phases == [] then 0 else PhaseRank(phases[0]) + ItemsRank(phases[1..])
  }

  function StageRank(call: Call): nat {
    match call.stage
    case Submitting => |call.phases| + 3
    case Waiting => |call.phases| + 2
    case Cancelling(next) => if next <= |call.phases| then |call.phases| - next + 1 else 1
    case Returned(_) => 0
  }

  function CallRank(call: Call): nat {
    ItemsRank(call.phases) + StageRank(call)
  }

  function Rank(calls: seq<Call>): nat {
    if calls == [] then 0 else CallRank(calls[0]) + Rank(calls[1..])
  }

  lemma {:induction false} ItemsRankChanges(phases: seq<Phase>, i: nat, phase: Phase)
    requires i < |phases|
    ensures ItemsRank(phases[i := phase]) + PhaseRank(phases[i]) == ItemsRank(phases) + PhaseRank(phase)
    decreases |phases|
  {
    if i == 0 {
      assert phases[i := phase][1..] == phases[1..];
    } else {
      assert phases[i := phase][1..] == phases[1..][i - 1 := phase];
      ItemsRankChanges(phases[1..], i - 1, phase);
    }
  }

  lemma {:induction false} RankChanges(calls: seq<Call>, c: nat, call: Call)
    requires c < |calls|
    ensures Rank(calls[c := call]) + CallRank(calls[c]) == Rank(calls) + CallRank(call)
    decreases |calls|
  {
    if c == 0 {
      assert calls[c := call][1..] == calls[1..];
    } else {
      assert calls[c := call][1..] == calls[1..][c - 1 := call];
      RankChanges(calls[1..], c - 1, call);
    }
  }

  /** The call that an event is about. */
  function CallOf(s: System, ev: Event): nat
    requires !ev.Start? && Possible(s, ev)
  {
    if OfWorker(ev) then TaskOf(s, ev).call else ev.call
  }

  lemma CallerRankFalls(s: System, ev: Event)
    requires CallsAreRight(s) && Possible(s, ev) && !ev.Start? && !OfWorker(ev)
    ensures var c := CallOf(s, ev);
      c < |s.calls| && Step(s, ev).calls == s.calls[c := Step(s, ev).calls[c]]
      && CallRank(Step(s, ev).calls[c]) < CallRank(s.calls[c])
  {
    var call := s.calls[ev.call];
    if ev.Submit? {
      ItemsRankChanges(call.phases, call.submitted, Queued);
    } else if ev.CancelNext? {
      ItemsRankChanges(call.phases, call.stage.next, Cancelled);
    }
  }

  lemma WorkerRankFalls(s: System, ev: Event)
    requires CallsAreRight(s) && Possible(s, ev) && OfWorker(ev)
    ensures var c := CallOf(s, ev);
      c < |s.calls| && Step(s, ev).calls == s.calls[c := Step(s, ev).calls[c]]
      && CallRank(Step(s, ev).calls[c]) < CallRank(s.calls[c])
  {
    var task := TaskOf(s, ev);
    ItemsRankChanges(s.calls[task.call].phases, task.index, NextPhase(ev));
  }

  /**
   Every event but a new call brings the calls nearer to their end; with `NoDeadlock`, every call is
   over after finitely many events.
   */
  lemma RankFalls(s: System, ev: Event)
    requires Invariant(s) && Possible(s, ev) && !ev.Start?
    ensures Rank(Step(s, ev).calls) < Rank(s.calls)
  {
    if OfWorker(ev) {
      WorkerRankFalls(s, ev);
    } else {
      CallerRankFalls(s, ev);
    }
    var c := CallOf(s, ev);
    RankChanges(s.calls, c, Step(s, ev).calls[c]);
  }

  /** Every event of the schedule does happen, and none makes a new call. */
  predicate Happens(s: System, events: seq<Event>)
    decreases |events|
  {
    events == []
    || (Possible(s, events[0]) && !events[0].Start? && Happens(Step(s, events[0]), events[1..]))
  }

  lemma {:induction false} SchedulesAreShort(s: System, events: seq<Event>)
    requires Invariant(s) && Happens(s, events)
    ensures |events| <= Rank(s.calls)
    decreases |events|
  {
    if events != [] {
      StepKeeps(s, events[0]);
      RankFalls(s, events[0]);
      SchedulesAreShort(Step(s, events[0]), events[1..]);
    }
  }

  lemma SameCalls(s: System, ev: Event)
    requires Possible(s, ev) && !ev.Start?
    ensures |Step(s, ev).calls| == |s.calls|
  {
  }

  /** Some schedule without time limits ends every call, and it has at most `Rank` events. */
  lemma {:induction false} EveryCallEnds(s: System) returns (events: seq<Event>)
    requires Invariant(s) && |s.workers| > 0
    ensures |events| <= Rank(s.calls) && |Run(s, events).calls| == |s.calls|
    ensures forall c | 0 <= c < |s.calls| :: Over(Run(s, events), c)
    decreases Rank(s.calls)
  {
    events := [];
    if c :| 0 <= c < |s.calls| && !Over(s, c) {
      var ev := NoDeadlock(s, c);
      StepKeeps(s, ev);
      RankFalls(s, ev);
      SameCalls(s, ev);
      var rest := EveryCallEnds(Step(s, ev));
      events := [ev] + rest;
      assert events[0] == ev && events[1..] == rest;
    }
  }
}
