/** The request protocol between the manager and one worker process: futures on the one
    side, two queues between, tasks on the other. Requests time out, answers come late
    or never, the worker is terminated and started again, callers are cancelled. */
module Requests {
  import opened Common

  type TaskId = nat

  /** TonlibClientResult: what a task produced. A method may well return None. */
  datatype Answer = Answer(result: Option<int>, exception: Option<int>)

  datatype Future = Pending | Result(value: int) | Exception(error: int) | Cancelled

  datatype Outcome =
    | Returned(value: int)
    | Raised(error: int)
    | TimedOut
    | NoResponse                 // TonlibNoResponse
    | PutFailed                  // the queue was closed before the request was in it

  /** A call of dispatch_request_to_worker: putting the request, awaiting its future until
      the timeout is due, or over. */
  datatype Phase = Putting | Awaiting(due: real) | Ended(outcome: Outcome)

  datatype Dispatch = Dispatch(phase: Phase, put: bool)

  /** `futures` and `pendingTasks` are the manager's; `input` and `output` are the
      queues, `working` the tasks of the worker process; `answers` remembers what every
      task produced. `limit` is the timeout of wait_for, request_timeout + 1. */
  datatype State = State(limit: real, now: real,
                         dispatches: map<TaskId, Dispatch>, futures: map<TaskId, Future>, pendingTasks: int,
                         input: set<TaskId>, working: set<TaskId>, output: set<(TaskId, Answer)>,
                         answers: map<TaskId, Answer>)

  function Start(limit: real, now: real): State {
    State(limit, now, map[], map[], 0, {}, {}, {}, map[])
  }

  datatype Step =
    | Elapse(d: real)
    | Begin(t: TaskId)
    | Put(t: TaskId)                    // the executor thread puts the request
    | PutError(t: TaskId)
    | Sent(t: TaskId)                   // the caller resumes
    | Take(t: TaskId)                   // the worker gets the request
    | Produce(t: TaskId, a: Answer)     // and puts its answer
    | Deliver(t: TaskId, a: Answer)     // read_results
    | Finish(t: TaskId)                 // wait_for sees the future done
    | Timeout(t: TaskId)
    | CancelCaller(t: TaskId)
    | Terminate                         // terminate_worker cancels all futures
    | Lose(input: set<TaskId>, working: set<TaskId>, output: set<(TaskId, Answer)>)

  /** process_task has a result or an exception, never both. */
  predicate Proper(a: Answer) {
    a.result == None || a.exception == None
  }

  predicate Running(s: State, t: TaskId) {
    t in s.dispatches && !s.dispatches[t].phase.Ended?
  }

  predicate Puts(s: State, t: TaskId) {
    t in s.dispatches && s.dispatches[t].phase.Putting? && t in s.futures
  }

  predicate Awaits(s: State, t: TaskId) {
    t in s.dispatches && s.dispatches[t].phase.Awaiting? && t in s.futures
  }

  /** No timeout is due before the given time. */
  ghost predicate NoneDue(s: State, time: real) {
    forall t :: Awaits(s, t) ==> time <= s.dispatches[t].phase.due
  }

  /** Time does not pass over a timeout that is due: wait_for wakes its caller then, and
      not before. */
  ghost predicate Enabled(s: State, step: Step) {
    match step
    case Elapse(d) => d > 0.0 && NoneDue(s, s.now + d)
    case Begin(t) => t !in s.dispatches
    case Put(t) => t in s.dispatches && !s.dispatches[t].put
    case PutError(t) => Puts(s, t) && !s.dispatches[t].put
    case Sent(t) => Puts(s, t) && s.dispatches[t].put
    case Take(t) => t in s.input
    case Produce(t, a) => t in s.working && Proper(a)
    case Deliver(t, a) => (t, a) in s.output
    case Finish(t) => Awaits(s, t) && s.futures[t] != Pending
    case Timeout(t) => Awaits(s, t) && s.futures[t] == Pending && s.now >= s.dispatches[t].phase.due
    case CancelCaller(t) => Puts(s, t) || Awaits(s, t)
    case Terminate => true
    case Lose(_, _, _) => true
  }

  /** set_exception and set_result in turn; a future that is done already raises
      InvalidStateError, which has no value here. */
  function Complete(f: Future, a: Answer): Option<Future> {
    if f != Pending then Some(f)
    else if a.exception.Some? && a.result.Some? then None
    else if a.exception.Some? then Some(Exception(a.exception.value))
    else if a.result.Some? then Some(Result(a.result.value))
    else Some(f)
  }

  function OutcomeOf(f: Future): Outcome
    requires f != Pending
  {
    match f
    case Result(v) => Returned(v)
    case Exception(e) => Raised(e)
    case Cancelled => NoResponse
  }

  /** The finally block: one task less, its future gone. */
  function End(s: State, t: TaskId, outcome: Outcome): State
    requires t in s.dispatches
  {
    s.(dispatches := s.dispatches[t := s.dispatches[t].(phase := Ended(outcome))],
       futures := s.futures - {t}, pendingTasks := s.pendingTasks - 1)
  }

  function CancelAll(futures: map<TaskId, Future>): map<TaskId, Future> {
    map t | t in futures :: if futures[t] == Pending then Cancelled else futures[t]
  }

  ghost function Next(s: State, step: Step): State
    requires Enabled(s, step)
  {
    match step
    case Elapse(d) => s.(now := s.now + d)
    case Begin(t) =>
      s.(dispatches := s.dispatches[t := Dispatch(Putting, false)],
         futures := s.futures[t := Pending], pendingTasks := s.pendingTasks + 1)
    case Put(t) => s.(dispatches := s.dispatches[t := s.dispatches[t].(put := true)], input := s.input + {t})
    case PutError(t) => End(s, t, PutFailed)
    case Sent(t) =>
      s.(dispatches := s.dispatches[t := s.dispatches[t].(phase := Awaiting(s.now + s.limit))])
    case Take(t) => s.(input := s.input - {t}, working := s.working + {t})
    case Produce(t, a) =>
      s.(working := s.working - {t}, output := s.output + {(t, a)}, answers := s.answers[t := a])
    case Deliver(t, a) =>
      s.(output := s.output - {(t, a)},
         futures := if t in s.futures && Complete(s.futures[t], a).Some?
                    then s.futures[t := Complete(s.futures[t], a).value] else s.futures)
    case Finish(t) => End(s, t, OutcomeOf(s.futures[t]))
    case Timeout(t) => End(s, t, TimedOut)
    case CancelCaller(t) => End(s, t, NoResponse)
    case Terminate => s.(futures := CancelAll(s.futures))
    case Lose(i, w, o) => s.(input := s.input - i, working := s.working - w, output := s.output - o)
  }

  // ----- the invariant -----

  /** A task is in one place at most, and has been put before it is in any. */
  ghost predicate TaskOk(s: State, t: TaskId) {
    && (t in s.input || t in s.working || t in s.answers ==> t in s.dispatches && s.dispatches[t].put)
    && !(t in s.input && t in s.working)
    && (t in s.answers ==> t !in s.input && t !in s.working && Proper(s.answers[t]))
  }

  ghost predicate Backed(s: State, t: TaskId, value: Option<int>, error: Option<int>) {
    t in s.answers && s.answers[t] == Answer(value, error)
  }

  /** Whatever a future or a caller got came from its own task. */
  ghost predicate FutureOk(s: State, t: TaskId)
    requires t in s.futures
  {
    match s.futures[t]
    case Result(v) => Backed(s, t, Some(v), None)
    case Exception(e) => Backed(s, t, None, Some(e))
    case _ => true
  }

  ghost predicate DispatchOk(s: State, t: TaskId)
    requires t in s.dispatches
  {
    match s.dispatches[t].phase
    case Ended(Returned(v)) => t !in s.futures && Backed(s, t, Some(v), None)
    case Ended(Raised(e)) => t !in s.futures && Backed(s, t, None, Some(e))
    case Ended(_) => t !in s.futures
    case Awaiting(due) => t in s.futures && s.dispatches[t].put && s.now <= due <= s.now + s.limit
    case Putting => t in s.futures
  }

  ghost predicate Inv(s: State) {
    && s.limit >= 0.0
    && (forall t :: TaskOk(s, t))
    && (forall t :: t in s.futures ==> t in s.dispatches && FutureOk(s, t))
    && (forall t :: t in s.dispatches ==> DispatchOk(s, t))
    && (forall m :: m in s.output ==> m.0 in s.answers && s.answers[m.0] == m.1)
    && s.pendingTasks == |s.futures|
  }

  lemma FutureCount(futures: map<TaskId, Future>, t: TaskId, f: Future)
    ensures |futures[t := f]| == if t in futures then |futures| else |futures| + 1
    ensures t in futures ==> |futures - {t}| == |futures| - 1
  {
    assert (futures[t := f]).Keys == futures.Keys + {t};
    assert (futures - {t}).Keys == futures.Keys - {t};
    assert |futures.Keys + {t}| == if t in futures then |futures| else |futures| + 1;
  }

  lemma EndKeeps(s: State, t: TaskId, outcome: Outcome)
    requires Inv(s) && Running(s, t)
    requires outcome.Returned? ==> Backed(s, t, Some(outcome.value), None)
    requires outcome.Raised? ==> Backed(s, t, None, Some(outcome.error))
    ensures Inv(End(s, t, outcome))
  {
    var s' := End(s, t, outcome);
    assert DispatchOk(s, t);
    FutureCount(s.futures, t, Pending);
    forall u ensures TaskOk(s', u) {
      assert TaskOk(s, u);
    }
    forall u | u in s'.dispatches ensures DispatchOk(s', u) {
      assert DispatchOk(s, u);
    }
    forall u | u in s'.futures ensures FutureOk(s', u) {
      assert FutureOk(s, u);
    }
  }

  /** A step that only changes futures keeps the rest. */
  lemma FuturesKeep(s: State, s': State)
    requires Inv(s) && s'.futures.Keys == s.futures.Keys
    requires s' == s.(futures := s'.futures, output := s'.output) && s'.output <= s.output
    requires forall u :: u in s.futures ==> FutureOk(s', u)
    ensures Inv(s')
  {
    assert |s'.futures| == |s'.futures.Keys|;
    forall u ensures TaskOk(s', u) {
      assert TaskOk(s, u);
    }
    forall u | u in s'.dispatches ensures DispatchOk(s', u) {
      assert DispatchOk(s, u);
    }
  }

  lemma DeliverKeeps(s: State, t: TaskId, a: Answer)
    requires Inv(s) && (t, a) in s.output
    ensures Inv(Next(s, Deliver(t, a)))
  {
    var s' := Next(s, Deliver(t, a));
    assert TaskOk(s, t);
    forall u | u in s.futures ensures FutureOk(s', u) {
      assert FutureOk(s, u);
    }
    assert s'.futures.Keys == s.futures.Keys;
    FuturesKeep(s, s');
  }

  lemma TerminateKeeps(s: State)
    requires Inv(s)
    ensures Inv(Next(s, Terminate))
  {
    var s' := Next(s, Terminate);
    assert s'.futures.Keys == s.futures.Keys;
    forall u | u in s.futures ensures FutureOk(s', u) {
      assert FutureOk(s, u);
    }
    FuturesKeep(s, s');
  }

  lemma CallerKeeps(s: State, step: Step)
    requires Inv(s) && Enabled(s, step) && (step.Begin? || step.Sent?)
    ensures Inv(Next(s, step))
  {
    var s' := Next(s, step);
    FutureCount(s.futures, step.t, Pending);
    assert TaskOk(s, step.t);
    forall u ensures TaskOk(s', u) {
      assert TaskOk(s, u);
    }
    forall u | u in s'.dispatches ensures DispatchOk(s', u) {
      assert u in s.dispatches ==> DispatchOk(s, u);
    }
    forall u | u in s'.futures ensures u in s'.dispatches && FutureOk(s', u) {
      assert u in s.futures ==> FutureOk(s, u);
    }
  }

  /** The steps of the clock, the executor thread, the worker and the queues. */
  lemma WorkerKeeps(s: State, step: Step)
    requires Inv(s) && Enabled(s, step) && (step.Elapse? || step.Put? || step.Take? || step.Produce? || step.Lose?)
    ensures Inv(Next(s, step))
  {
    var s' := Next(s, step);
    forall u ensures TaskOk(s', u) {
      assert TaskOk(s, u);
    }
    if step.Produce? {
      assert TaskOk(s, step.t);
    }
    forall u | u in s'.dispatches ensures DispatchOk(s', u) {
      assert DispatchOk(s, u);
    }
    forall u | u in s'.futures ensures u in s'.dispatches && FutureOk(s', u) {
      assert FutureOk(s, u);
    }
  }

  lemma StepKeeps(s: State, step: Step)
    requires Inv(s) && Enabled(s, step)
    ensures Inv(Next(s, step))
  {
    match step
    case PutError(t) => EndKeeps(s, t, PutFailed);
    case Finish(t) => assert FutureOk(s, t); EndKeeps(s, t, OutcomeOf(s.futures[t]));
    case Timeout(t) => EndKeeps(s, t, TimedOut);
    case CancelCaller(t) => EndKeeps(s, t, NoResponse);
    case Begin(_) => CallerKeeps(s, step);
    case Sent(_) => CallerKeeps(s, step);
    case Terminate => TerminateKeeps(s);
    case Deliver(t, a) => DeliverKeeps(s, t, a);
    case _ => WorkerKeeps(s, step);
  }

  // ----- runs -----

  ghost predicate Initial(s: State) {
    s.limit >= 0.0 && s == Start(s.limit, s.now)
  }

  ghost predicate Run(states: seq<State>, steps: seq<Step>) {
    && |states| == |steps| + 1
    && Initial(states[0])
    && (forall k :: 0 <= k < |steps| ==> Enabled(states[k], steps[k]) && states[k + 1] == Next(states[k], steps[k]))
  }

  lemma {:induction false} RunInv(states: seq<State>, steps: seq<Step>, k: nat)
    requires Run(states, steps) && k < |states|
    ensures Inv(states[k])
  {
    if k == 0 {
    } else {
      RunInv(states, steps, k - 1);
      StepKeeps(states[k - 1], steps[k - 1]);
    }
  }

  /** What a caller gets is what its own task produced. */
  lemma OwnAnswer(states: seq<State>, steps: seq<Step>, k: nat, t: TaskId)
    requires Run(states, steps) && k < |states|
    requires t in states[k].dispatches && states[k].dispatches[t].phase.Ended?
    ensures var s := states[k]; var outcome := s.dispatches[t].phase.outcome;
            && (outcome.Returned? ==> Backed(s, t, Some(outcome.value), None))
            && (outcome.Raised? ==> Backed(s, t, None, Some(outcome.error)))
  {
    RunInv(states, steps, k);
    assert DispatchOk(states[k], t);
  }

  lemma AnswerStep(s: State, step: Step, t: TaskId)
    requires Inv(s) && Enabled(s, step) && t in s.answers
    ensures t in Next(s, step).answers && Next(s, step).answers[t] == s.answers[t]
  {
    assert TaskOk(s, t);
  }

  /** A task produces at most one answer in the whole run. */
  lemma {:induction false} OneAnswer(states: seq<State>, steps: seq<Step>, j: nat, k: nat, t: TaskId)
    requires Run(states, steps) && j <= k < |states| && t in states[j].answers
    ensures t in states[k].answers && states[k].answers[t] == states[j].answers[t]
  {
    hide Inv, Next, Enabled;
    if j == k {
    } else {
      OneAnswer(states, steps, j, k - 1, t);
      RunInv(states, steps, k - 1);
      AnswerStep(states[k - 1], steps[k - 1], t);
    }
  }

  /** The pending counter is the number of registered futures, which are those of the
      calls that are not over; when all are over both are back to zero. */
  lemma PendingIsFutures(states: seq<State>, steps: seq<Step>, k: nat)
    requires Run(states, steps) && k < |states|
    ensures states[k].pendingTasks == |states[k].futures|
    ensures forall t :: t in states[k].futures <==> Running(states[k], t)
    ensures (forall t :: !Running(states[k], t)) ==> states[k].pendingTasks == 0 && states[k].futures == map[]
  {
    RunInv(states, steps, k);
    var s := states[k];
    forall t ensures t in s.futures <==> Running(s, t) {
      assert t in s.dispatches ==> DispatchOk(s, t);
    }
    if forall t :: !Running(s, t) {
      assert s.futures.Keys == {};
      assert s.futures == map[];
    }
  }

  /** read_results never completes a future twice: what it delivers has a result or an
      exception, and a future that is done is left alone. */
  lemma NeverInvalidState(states: seq<State>, steps: seq<Step>, k: nat)
    requires Run(states, steps) && k < |steps| && steps[k].Deliver? && steps[k].t in states[k].futures
    ensures Complete(states[k].futures[steps[k].t], steps[k].a).Some?
  {
    RunInv(states, steps, k);
    assert Enabled(states[k], steps[k]);
    assert TaskOk(states[k], steps[k].t);
  }

  lemma FutureKnown(s: State, t: TaskId)
    requires Inv(s)
    ensures t in s.futures ==> t in s.dispatches
  {
  }

  lemma FinalStep(s: State, step: Step, t: TaskId)
    requires Inv(s) && Enabled(s, step)
    ensures var s' := Next(s, step);
            && (t in s.dispatches ==> t in s'.dispatches)
            && (t in s.futures && s.futures[t] != Pending && t in s'.futures ==> s'.futures[t] == s.futures[t])
            && (t in s'.futures && t in s.dispatches ==> t in s.futures)
            && (t in s.dispatches && s.dispatches[t].phase.Ended? ==> s'.dispatches[t].phase == s.dispatches[t].phase)
  {
    assert t in s.dispatches ==> DispatchOk(s, t);
  }

  /** A future that is done stays as it is for as long as it is registered, and a call
      that is over keeps its outcome. */
  lemma {:induction false} DoneIsFinal(states: seq<State>, steps: seq<Step>, j: nat, k: nat, t: TaskId)
    requires Run(states, steps) && j <= k < |states|
    ensures t in states[j].dispatches ==> t in states[k].dispatches
    ensures t in states[j].futures && states[j].futures[t] != Pending && t in states[k].futures ==>
              states[k].futures[t] == states[j].futures[t]
    ensures t in states[j].dispatches && states[j].dispatches[t].phase.Ended? ==>
              states[k].dispatches[t].phase == states[j].dispatches[t].phase
  {
    hide Inv, Next, Enabled;
    if j == k {
    } else {
      DoneIsFinal(states, steps, j, k - 1, t);
      RunInv(states, steps, j);
      RunInv(states, steps, k - 1);
      FutureKnown(states[j], t);
      FinalStep(states[k - 1], steps[k - 1], t);
    }
  }

  // ----- from the answer to the caller -----

  /** What an answer is to its caller, where it is a result or an exception. */
  ghost predicate Tells(outcome: Outcome, a: Answer) {
    && (a.result.Some? ==> outcome == Returned(a.result.value))
    && (a.exception.Some? ==> outcome == Raised(a.exception.value))
  }

  /** What an answer makes of a future that waits for it. */
  ghost predicate Carries(f: Future, a: Answer) {
    && (a.result.Some? ==> f == Result(a.result.value))
    && (a.exception.Some? ==> f == Exception(a.exception.value))
    && (a == Answer(None, None) ==> f == Pending)
  }

  /** A delivered answer reaches the future that waits for it. */
  lemma DeliveryReaches(s: State, t: TaskId, a: Answer)
    requires Inv(s) && Enabled(s, Deliver(t, a)) && t in s.futures && s.futures[t] == Pending
    ensures var s' := Next(s, Deliver(t, a)); t in s'.futures && Carries(s'.futures[t], a)
  {
    assert TaskOk(s, t);
  }

  /** The call is on its way to tell the answer, or has told it. */
  ghost predicate WillTell(s: State, t: TaskId, a: Answer) {
    && t in s.dispatches
    && match s.dispatches[t].phase
       case Ended(outcome) => Tells(outcome, a)
       case _ => t in s.futures && s.dispatches[t].put && Carries(s.futures[t], a)
  }

  lemma TellStep(s: State, step: Step, t: TaskId, a: Answer)
    requires Inv(s) && Enabled(s, step) && WillTell(s, t, a) && a != Answer(None, None) && Proper(a)
    requires step != CancelCaller(t)
    ensures WillTell(Next(s, step), t, a)
  {
    assert DispatchOk(s, t);
  }

  lemma DeliveredIsProper(s: State, t: TaskId, a: Answer)
    requires Inv(s) && Enabled(s, Deliver(t, a))
    ensures Proper(a)
  {
    assert TaskOk(s, t);
  }

  lemma DeliveredWillTell(s: State, t: TaskId, a: Answer)
    requires Inv(s) && Enabled(s, Deliver(t, a)) && t in s.futures && s.futures[t] == Pending
    ensures WillTell(Next(s, Deliver(t, a)), t, a)
  {
    DeliveryReaches(s, t, a);
    assert TaskOk(s, t) && DispatchOk(s, t);
  }

  lemma TellEnds(s: State, t: TaskId, a: Answer)
    requires WillTell(s, t, a)
    ensures t in s.dispatches && (s.dispatches[t].phase.Ended? ==> Tells(s.dispatches[t].phase.outcome, a))
  {
  }

  /** An answer that is delivered while its call waits for it is what the call ends with,
      whatever else happens, unless the caller itself is cancelled. */
  lemma {:induction false} AnswerIsTold(states: seq<State>, steps: seq<Step>, j: nat, k: nat, t: TaskId, a: Answer)
    requires Run(states, steps) && j < k < |states| && steps[j] == Deliver(t, a)
    requires t in states[j].futures && states[j].futures[t] == Pending && a != Answer(None, None)
    requires forall i :: j < i < k ==> steps[i] != CancelCaller(t)
    ensures t in states[k].dispatches
    ensures states[k].dispatches[t].phase.Ended? ==> Tells(states[k].dispatches[t].phase.outcome, a)
    ensures WillTell(states[k], t, a)
  {
    hide Inv, Next, Enabled, WillTell;
    RunInv(states, steps, j);
    if k == j + 1 {
      DeliveredWillTell(states[j], t, a);
    } else {
      AnswerIsTold(states, steps, j, k - 1, t, a);
      RunInv(states, steps, k - 1);
      DeliveredIsProper(states[j], t, a);
      TellStep(states[k - 1], steps[k - 1], t, a);
    }
    TellEnds(states[k], t, a);
  }

  /** The call is on its way to TonlibNoResponse, or has got it. */
  ghost predicate WillGetNothing(s: State, t: TaskId) {
    && t in s.dispatches
    && match s.dispatches[t].phase
       case Ended(outcome) => outcome == NoResponse
       case Awaiting(_) => t in s.futures && s.futures[t] == Cancelled
       case Putting => false
  }

  lemma NothingStep(s: State, step: Step, t: TaskId)
    requires Enabled(s, step) && WillGetNothing(s, t)
    ensures WillGetNothing(Next(s, step), t)
  {
  }

  lemma NothingEnds(s: State, t: TaskId)
    requires WillGetNothing(s, t)
    ensures t in s.dispatches && (s.dispatches[t].phase.Ended? ==> s.dispatches[t].phase.outcome == NoResponse)
  {
  }

  /** A call that waits when the worker is terminated gets TonlibNoResponse. */
  lemma {:induction false} TerminatedGetsNoResponse(states: seq<State>, steps: seq<Step>, j: nat, k: nat, t: TaskId)
    requires Run(states, steps) && j < k < |states| && steps[j] == Terminate && Awaits(states[j], t)
    requires states[j].futures[t] == Pending
    ensures t in states[k].dispatches
    ensures states[k].dispatches[t].phase.Ended? ==> states[k].dispatches[t].phase.outcome == NoResponse
    ensures WillGetNothing(states[k], t)
  {
    hide Enabled, Inv;
    if k == j + 1 {
    } else {
      hide Next, WillGetNothing;
      TerminatedGetsNoResponse(states, steps, j, k - 1, t);
      NothingStep(states[k - 1], steps[k - 1], t);
      NothingEnds(states[k], t);
    }
  }

  /** A call ends in a timeout only when that is due, and without an answer. */
  lemma TimedOutWhenDue(states: seq<State>, steps: seq<Step>, k: nat, t: TaskId)
    requires Run(states, steps) && k < |steps| && Running(states[k], t)
    requires t in states[k + 1].dispatches && states[k + 1].dispatches[t].phase == Ended(TimedOut)
    ensures Awaits(states[k], t) && states[k].futures[t] == Pending
    ensures states[k].now >= states[k].dispatches[t].phase.due
  {
    assert Enabled(states[k], steps[k]) && states[k + 1] == Next(states[k], steps[k]);
    RunInv(states, steps, k);
    assert DispatchOk(states[k], t);
  }

  // ----- the end of a call -----

  lemma DueStays(s: State, step: Step, t: TaskId)
    requires Inv(s) && Enabled(s, step) && t in s.dispatches && s.dispatches[t].phase.Awaiting?
    ensures var s' := Next(s, step);
            && t in s'.dispatches
            && (s'.dispatches[t].phase == s.dispatches[t].phase || s'.dispatches[t].phase.Ended?)
  {
    assert DispatchOk(s, t);
  }

  /** A call that awaits its answer is over when its timeout is past, whatever answers
      come or are lost, and whatever happens to the worker. */
  lemma {:induction false} EndsByTimeout(states: seq<State>, steps: seq<Step>, j: nat, k: nat, t: TaskId)
    requires Run(states, steps) && j <= k < |states|
    requires t in states[j].dispatches && states[j].dispatches[t].phase.Awaiting?
    ensures t in states[k].dispatches
    ensures states[k].dispatches[t].phase == states[j].dispatches[t].phase || states[k].dispatches[t].phase.Ended?
    ensures states[k].now > states[j].dispatches[t].phase.due ==> states[k].dispatches[t].phase.Ended?
  {
    hide Next, Enabled, TaskOk, FutureOk;
    RunInv(states, steps, k);
    if j == k {
      assert DispatchOk(states[k], t);
    } else {
      EndsByTimeout(states, steps, j, k - 1, t);
      RunInv(states, steps, k - 1);
      if states[k - 1].dispatches[t].phase.Ended? {
        DoneIsFinal(states, steps, k - 1, k, t);
      } else {
        DueStays(states[k - 1], steps[k - 1], t);
      }
      assert DispatchOk(states[k], t);
    }
  }

  /** Steps that take place by themselves: time passes, the executor thread puts what it
      was given, and callers go on. No answer comes and nobody is cancelled. */
  predicate ByItself(step: Step) {
    step.Elapse? || step.Put? || step.Sent? || step.Finish? || step.Timeout?
  }

  /** The steps lead from s to s'. */
  ghost predicate Path(s: State, steps: seq<Step>, s': State)
    decreases |steps|
  {
    if steps == [] then s == s' else Enabled(s, steps[0]) && Path(Next(s, steps[0]), steps[1..], s')
  }

  lemma PathFirst(s: State, step: Step, steps: seq<Step>, s': State)
    requires Enabled(s, step) && Path(Next(s, step), steps, s')
    ensures Path(s, [step] + steps, s')
  {
    assert ([step] + steps)[1..] == steps;
  }

  lemma {:induction false} PathJoin(s: State, a: seq<Step>, s1: State, b: seq<Step>, s2: State)
    requires Path(s, a, s1) && Path(s1, b, s2)
    ensures Path(s, a + b, s2)
    decreases |a|
  {
    hide Next, Enabled;
    if a == [] {
      assert a + b == b;
    } else {
      PathJoin(Next(s, a[0]), a[1..], s1, b, s2);
      PathFirst(s, a[0], a[1..] + b, s2);
      assert a + b == [a[0]] + (a[1..] + b);
    }
  }

  /** They do so by themselves. */
  ghost predicate Leads(s: State, steps: seq<Step>, s': State) {
    Path(s, steps, s') && forall i :: 0 <= i < |steps| ==> ByItself(steps[i])
  }

  lemma LeadsFirst(s: State, step: Step, steps: seq<Step>, s': State)
    requires ByItself(step) && Enabled(s, step) && Leads(Next(s, step), steps, s')
    ensures Leads(s, [step] + steps, s')
  {
    hide ByItself, Path, Enabled, Next;
    PathFirst(s, step, steps, s');
  }

  ghost function AwaitingCalls(s: State): set<TaskId> {
    set t | t in s.dispatches && s.dispatches[t].phase.Awaiting?
  }

  /** The calls whose timeout is due before the given time. */
  ghost function DueBefore(s: State, time: real): set<TaskId> {
    set t | t in s.dispatches && s.dispatches[t].phase.Awaiting? && s.dispatches[t].phase.due < time
  }

  lemma LeadsJoin(s: State, a: seq<Step>, s1: State, b: seq<Step>, s2: State)
    requires Leads(s, a, s1) && Leads(s1, b, s2)
    ensures Leads(s, a + b, s2)
  {
    hide ByItself, Path;
    PathJoin(s, a, s1, b, s2);
  }

  lemma {:induction false} FirstDue(s: State, ts: set<TaskId>) returns (t: TaskId)
    requires ts != {} && ts <= AwaitingCalls(s)
    ensures t in ts && forall u :: u in ts ==> s.dispatches[t].phase.due <= s.dispatches[u].phase.due
  {
    var v :| v in ts;
    var rest := ts - {v};
    assert ts == rest + {v};
    if rest == {} {
      t := v;
    } else {
      t := FirstDue(s, rest);
      if s.dispatches[v].phase.due < s.dispatches[t].phase.due {
        t := v;
      }
    }
  }

  lemma PassTo(s: State, time: real) returns (steps: seq<Step>, s': State)
    requires Inv(s) && time >= s.now && DueBefore(s, time) == {}
    ensures Leads(s, steps, s') && Inv(s') && s' == s.(now := time)
  {
    if time == s.now {
      return [], s;
    }
    var step := Elapse(time - s.now);
    assert NoneDue(s, time) by {
      assert forall t :: Awaits(s, t) ==> t !in DueBefore(s, time);
    }
    StepKeeps(s, step);
    s' := Next(s, step);
    LeadsFirst(s, step, [], s');
    steps := [step];
    assert [step] + [] == [step];
  }

  /** A call at its timeout ends, with what its future has or without. */
  lemma EndNow(s: State, t: TaskId) returns (step: Step)
    requires Inv(s) && t in AwaitingCalls(s) && s.now == s.dispatches[t].phase.due
    ensures ByItself(step) && Enabled(s, step) && Inv(Next(s, step))
    ensures var s' := Next(s, step);
            && s'.now == s.now && s'.dispatches.Keys == s.dispatches.Keys && s'.dispatches[t].phase.Ended?
            && (forall u :: u in s.dispatches && u != t ==> s'.dispatches[u] == s.dispatches[u])
  {
    assert DispatchOk(s, t);
    step := if s.futures[t] == Pending then Timeout(t) else Finish(t);
    StepKeeps(s, step);
  }

  /** The call whose timeout comes first can be waited for, and ends. */
  lemma EndFirst(s: State, t: TaskId) returns (steps: seq<Step>, s': State)
    requires Inv(s) && t in AwaitingCalls(s)
    requires forall u :: u in AwaitingCalls(s) ==> s.dispatches[t].phase.due <= s.dispatches[u].phase.due
    ensures Leads(s, steps, s') && Inv(s') && s'.now == s.dispatches[t].phase.due
    ensures s'.dispatches.Keys == s.dispatches.Keys && s'.dispatches[t].phase.Ended?
    ensures forall u :: u in s.dispatches && u != t ==> s'.dispatches[u] == s.dispatches[u]
  {
    assert DispatchOk(s, t);
    var due := s.dispatches[t].phase.due;
    assert DueBefore(s, due) == {} by {
      assert DueBefore(s, due) <= AwaitingCalls(s);
    }
    hide Inv, Next, Enabled;
    var waited;
    steps, waited := PassTo(s, due);
    var step := EndNow(waited, t);
    s' := Next(waited, step);
    LeadsFirst(waited, step, [], s');
    assert [step] + [] == [step];
    LeadsJoin(s, steps, waited, [step], s');
    steps := steps + [step];
  }

  /** Time can always go on to any later time: no call is ever stuck at its timeout. */
  lemma {:induction false} TimeGoesOn(s: State, time: real) returns (steps: seq<Step>, s': State)
    requires Inv(s) && time >= s.now
    ensures Leads(s, steps, s') && Inv(s') && s'.now == time
    ensures s.dispatches.Keys == s'.dispatches.Keys
    ensures forall t :: t in DueBefore(s, time) ==> s'.dispatches[t].phase.Ended?
    ensures forall t :: t in s.dispatches && s.dispatches[t].phase.Ended? ==> s'.dispatches[t] == s.dispatches[t]
    decreases |DueBefore(s, time)|
  {
    hide Inv, Leads;
    if DueBefore(s, time) == {} {
      steps, s' := PassTo(s, time);
    } else {
      assert DueBefore(s, time) <= AwaitingCalls(s);
      var first := FirstDue(s, AwaitingCalls(s));
      var some :| some in DueBefore(s, time);
      assert first in DueBefore(s, time);
      var steps1, s1 := EndFirst(s, first);
      assert DueBefore(s1, time) == DueBefore(s, time) - {first};
      var rest;
      rest, s' := TimeGoesOn(s1, time);
      LeadsJoin(s, steps1, s1, rest, s');
      steps := steps1 + rest;
    }
  }

  lemma SentEnds(s: State, t: TaskId, slack: real) returns (steps: seq<Step>, s': State)
    requires Inv(s) && Enabled(s, Sent(t)) && slack > 0.0
    ensures Leads(s, steps, s') && s'.now <= s.now + s.limit + slack
    ensures t in s'.dispatches && s'.dispatches[t].phase.Ended?
  {
    StepKeeps(s, Sent(t));
    var sent := Next(s, Sent(t));
    var rest;
    rest, s' := TimeGoesOn(sent, sent.dispatches[t].phase.due + slack);
    assert t in DueBefore(sent, s'.now);
    LeadsFirst(s, Sent(t), rest, s');
    steps := [Sent(t)] + rest;
  }

  lemma RunningEnds(s: State, t: TaskId, slack: real) returns (steps: seq<Step>, s': State)
    requires Inv(s) && Running(s, t) && slack > 0.0
    ensures Leads(s, steps, s') && s'.now <= s.now + s.limit + slack
    ensures t in s'.dispatches && s'.dispatches[t].phase.Ended?
  {
    assert DispatchOk(s, t);
    if s.dispatches[t].phase.Awaiting? {
      steps, s' := TimeGoesOn(s, s.dispatches[t].phase.due + slack);
      assert t in DueBefore(s, s'.now);
    } else if s.dispatches[t].put {
      steps, s' := SentEnds(s, t, slack);
    } else {
      StepKeeps(s, Put(t));
      var rest;
      rest, s' := SentEnds(Next(s, Put(t)), t, slack);
      LeadsFirst(s, Put(t), rest, s');
      steps := [Put(t)] + rest;
    }
  }

  /** From every reachable state, every call that is not over can come to its end without
      an answer and without being cancelled, as soon as its timeout is past. */
  lemma CallsEnd(states: seq<State>, runSteps: seq<Step>, k: nat, t: TaskId, slack: real)
      returns (steps: seq<Step>, s': State)
    requires Run(states, runSteps) && k < |states| && Running(states[k], t) && slack > 0.0
    ensures Leads(states[k], steps, s') && s'.now <= states[k].now + states[k].limit + slack
    ensures t in s'.dispatches && s'.dispatches[t].phase.Ended?
  {
    RunInv(states, runSteps, k);
    steps, s' := RunningEnds(states[k], t, slack);
  }

  // ----- a call that is answered -----

  lemma PathThree(s: State, a: Step, s1: State, b: Step, s2: State, c: Step, s': State)
    requires Enabled(s, a) && Next(s, a) == s1 && Enabled(s1, b) && Next(s1, b) == s2
    requires Enabled(s2, c) && Next(s2, c) == s'
    ensures Path(s, [a, b, c], s')
  {
    hide Enabled, Next;
    assert [c][1..] == [] && [b, c][1..] == [c] && [a, b, c][1..] == [b, c];
    assert Path(s', [], s');
    assert Path(s2, [c], s');
    assert Path(s1, [b, c], s');
  }

  lemma AskStep(s: State, t: TaskId) returns (s': State)
    requires Inv(s) && t !in s.dispatches
    ensures Path(s, [Begin(t), Put(t), Sent(t)], s') && Inv(s') && s'.pendingTasks == s.pendingTasks + 1
    ensures Awaits(s', t) && s'.futures[t] == Pending && t in s'.input && t !in s'.answers
  {
    assert TaskOk(s, t);
    assert t !in s.futures;
    var s1 := Next(s, Begin(t));
    StepKeeps(s, Begin(t));
    var s2 := Next(s1, Put(t));
    StepKeeps(s1, Put(t));
    s' := Next(s2, Sent(t));
    StepKeeps(s2, Sent(t));
    hide Inv, Next, Enabled;
    PathThree(s, Begin(t), s1, Put(t), s2, Sent(t), s');
  }

  lemma AnswerStepsOf(s: State, t: TaskId, a: Answer) returns (s': State)
    requires Inv(s) && Awaits(s, t) && s.futures[t] == Pending && t in s.input && t !in s.answers
    requires Proper(a) && a != Answer(None, None)
    ensures Path(s, [Take(t), Produce(t, a), Deliver(t, a)], s') && Inv(s')
    ensures Awaits(s', t) && Carries(s'.futures[t], a) && s'.futures[t] != Pending && s'.pendingTasks == s.pendingTasks
  {
    var s1 := Next(s, Take(t));
    StepKeeps(s, Take(t));
    var s2 := Next(s1, Produce(t, a));
    StepKeeps(s1, Produce(t, a));
    s' := Next(s2, Deliver(t, a));
    StepKeeps(s2, Deliver(t, a));
    DeliveryReaches(s2, t, a);
    hide Inv, Next, Enabled;
    PathThree(s, Take(t), s1, Produce(t, a), s2, Deliver(t, a), s');
  }

  /** The way a request goes when nothing is lost, late or cancelled: its caller gets what
      the worker produced, and the pending counter is back where it was. */
  lemma AnsweredCall(s: State, t: TaskId, a: Answer) returns (s': State)
    requires Inv(s) && t !in s.dispatches && Proper(a) && a != Answer(None, None)
    ensures Path(s, [Begin(t), Put(t), Sent(t)] + ([Take(t), Produce(t, a), Deliver(t, a)] + [Finish(t)]), s')
    ensures t in s'.dispatches && s'.dispatches[t].phase.Ended? && Tells(s'.dispatches[t].phase.outcome, a)
    ensures s'.pendingTasks == s.pendingTasks && t !in s'.futures
  {
    var s1 := AskStep(s, t);
    var s2 := AnswerStepsOf(s1, t, a);
    s' := Next(s2, Finish(t));
    hide Inv, Enabled, Next;
    assert [Finish(t)][1..] == [];
    assert Path(s', [], s');
    assert Path(s2, [Finish(t)], s');
    PathJoin(s1, [Take(t), Produce(t, a), Deliver(t, a)], s2, [Finish(t)], s');
    PathJoin(s, [Begin(t), Put(t), Sent(t)], s1, [Take(t), Produce(t, a), Deliver(t, a)] + [Finish(t)], s');
  }

  // ----- the code -----

  const TIMEOUT_ERROR := -1

  /** The futures and counters of one WorkerControl; the rest of the model is what other
      parties hold. */
  class WorkerControl {
    const limit: real
    ghost var now: real
    var futures: map<TaskId, Future>
    var pendingTasks: int
    var tasksCount: nat
    ghost var dispatches: map<TaskId, Dispatch>
    ghost var input: set<TaskId>
    ghost var working: set<TaskId>
    ghost var output: set<(TaskId, Answer)>
    ghost var answers: map<TaskId, Answer>

    ghost function Model(): State
      reads this
    {
      State(limit, now, dispatches, futures, pendingTasks, input, working, output, answers)
    }

    constructor (limit: real)
      requires limit >= 0.0
      ensures Initial(Model()) && Inv(Model()) && this.limit == limit && tasksCount == 0
    {
      this.limit, now := limit, 0.0;
      futures, pendingTasks, tasksCount := map[], 0, 0;
      dispatches, input, working, output, answers := map[], {}, {}, {}, map[];
    }

    /** dispatch_request_to_worker up to its first await; task ids are distinct. */
    method BeginDispatch(t: TaskId)
      requires Inv(Model()) && t !in dispatches
      modifies this
      ensures Inv(Model()) && Model() == Next(old(Model()), Begin(t))
      ensures tasksCount == old(tasksCount) + 1
    {
      hide Inv;
      StepKeeps(Model(), Begin(t));
      tasksCount := tasksCount + 1;
      pendingTasks := pendingTasks + 1;
      futures := futures[t := Pending];
      dispatches := dispatches[t := Dispatch(Putting, false)];
    }

    /** And from the moment its future is done. */
    method FinishDispatch(t: TaskId) returns (outcome: Outcome)
      requires Inv(Model()) && Enabled(Model(), Finish(t))
      modifies this`futures, this`pendingTasks, this`dispatches
      ensures Inv(Model()) && Model() == Next(old(Model()), Finish(t))
      ensures old(futures)[t].Result? ==> outcome == Returned(old(futures)[t].value)
      ensures old(futures)[t].Exception? ==> outcome == Raised(old(futures)[t].error)
      ensures old(futures)[t] == Cancelled ==> outcome == NoResponse
      ensures outcome.Returned? ==> Backed(Model(), t, Some(outcome.value), None)
      ensures outcome.Raised? ==> Backed(Model(), t, None, Some(outcome.error))
    {
      assert FutureOk(Model(), t);
      hide Inv;
      StepKeeps(Model(), Finish(t));
      match futures[t] {
        case Result(v) => outcome := Returned(v);
        case Exception(e) => outcome := Raised(e);
        case Cancelled => outcome := NoResponse;
      }
      pendingTasks := pendingTasks - 1;
      futures := futures - {t};
      dispatches := dispatches[t := dispatches[t].(phase := Ended(outcome))];
    }

    /** read_results on a TASK_RESULT; true if a future was waiting for it. */
    method ReadResult(t: TaskId, a: Answer) returns (expected: bool)
      requires Inv(Model()) && (t, a) in output
      modifies this`futures, this`output
      ensures Inv(Model()) && Model() == Next(old(Model()), Deliver(t, a))
      ensures expected <==> t in old(futures) && old(futures)[t] == Pending
      ensures expected ==> t in futures && Carries(futures[t], a)
      ensures forall u :: u in old(futures) && !(expected && u == t) ==> u in futures && futures[u] == old(futures)[u]
    {
      assert TaskOk(Model(), t) && Proper(a);
      hide Inv;
      StepKeeps(Model(), Deliver(t, a));
      output := output - {(t, a)};
      expected := t in futures && futures[t] == Pending;
      if expected {
        if a.exception.Some? {
          futures := futures[t := Exception(a.exception.value)];
        }
        if a.result.Some? {
          assert futures[t] == Pending;         // set_result on a future that is not done
          futures := futures[t := Result(a.result.value)];
        }
      } else if t in futures {
        assert futures[t := futures[t]] == futures;
      }
      assert t in futures ==> futures[t := futures[t]] == futures;
    }

    /** The future part of terminate_worker. */
    method Terminate()
      requires Inv(Model())
      modifies this`futures
      ensures Inv(Model()) && Model() == Next(old(Model()), Step.Terminate)
      ensures forall t :: t in futures ==> futures[t] != Pending
    {
      hide Inv;
      StepKeeps(Model(), Step.Terminate);
      var rest := futures.Keys;
      while rest != {}
        invariant rest <= futures.Keys == old(futures).Keys
        invariant forall t :: t in rest ==> futures[t] == old(futures)[t]
        invariant forall t :: t in futures && t !in rest ==> futures[t] == CancelAll(old(futures))[t]
      {
        var t :| t in rest;
        if futures[t] == Pending {
          futures := futures[t := Cancelled];
        }
        rest := rest - {t};
      }
      assert futures == CancelAll(old(futures));
    }
  }

  /** process_task in the worker: a request past its deadline is not run, and the answer
      is always a result or an exception. `run` is what the method would produce. */
  method ProcessTask(now: real, deadline: real, run: Answer) returns (a: Answer, ran: bool)
    requires run.result.Some? ==> run.exception.None?
    ensures Proper(a)
    ensures ran <==> now < deadline
    ensures !ran ==> a == Answer(None, Some(TIMEOUT_ERROR))
    ensures ran ==> a.exception == run.exception && (run.exception.None? ==> a.result == run.result)
  {
    var result: Option<int>, exception: Option<int> := None, None;
    ran := now < deadline;
    if ran {
      if run.exception.Some? {
        exception := run.exception;
      } else {
        result := run.result;
      }
    } else {
      exception := Some(TIMEOUT_ERROR);
    }
    a := Answer(result, exception);
  }
}
