/**
 One actor generation's operations (state saves and SQLite commands) against its worker's stop path: the accepting
 gate, the count of operations in progress that the worker waits on, and the shared submission queue. Commands of
 other generations and all other commands of this one are `Other`.
 */
module StopOrder {
  import opened Runs
  import opened SubmitQueue

  datatype Command = Work(op: nat) | StopResult | Other

  datatype Stopper = Serving | Closing | Closed | Submitted

  /** `live` are the operations between their begin and their finish; `ready` those of them that have not submitted.
      The queue and the batch in hand are what the submission loop has still to pass on to `stream`; `refused` counts the
      batches that the native side did not take. */
  datatype State = State(
    accepting: bool,
    active: nat,
    live: set<nat>,
    ready: set<nat>,
    begun: set<nat>,
    stopper: Stopper,
    queue: seq<Request<Command>>,
    batch: seq<Request<Command>>,
    stream: seq<Command>,
    refused: nat)

  datatype Step =
    | Begin(op: nat) | Submit(op: nat) | Finish(op: nat)
    | CloseGate | SeeIdle | SubmitStop
    | SubmitOther(count: nat)
    | Collect(count: nat) | PassOn(accepted: bool)

  predicate Enabled(s: State, step: Step)
  {
    match step
    // A refused begin changes nothing.
    case Begin(op) => s.accepting && op !in s.begun
    case Submit(op) => op in s.ready
    // Finish may come before the submission, after its answer, or while the request still waits in the queue.
    case Finish(op) => op in s.live
    case CloseGate => s.stopper.Serving?
    case SeeIdle => s.stopper.Closing? && s.active == 0
    case SubmitStop => s.stopper.Closed?
    case SubmitOther(_) => true
    case Collect(count) => s.batch == [] && 0 < count <= |s.queue| && WellSized(s.queue[..count])
    case PassOn(_) => s.batch != []
  }

  function Enqueue(s: State, commands: seq<Command>): State
  {
    s.(queue := s.queue + [Request(0, commands)])
  }

  function Apply(s: State, step: Step): State
    requires Enabled(s, step)
  {
    match step
    case Begin(op) => s.(active := s.active + 1, live := s.live + {op}, ready := s.ready + {op}, begun := s.begun + {op})
    case Submit(op) => Enqueue(s, [Work(op)]).(ready := s.ready - {op})
    case Finish(op) =>
      s.(active := if s.active > 0 then s.active - 1 else 0, live := s.live - {op}, ready := s.ready - {op})
    case CloseGate => s.(accepting := false, stopper := Closing)
    case SeeIdle => s.(stopper := Closed)
    case SubmitStop => Enqueue(s, [StopResult]).(stopper := Submitted)
    case SubmitOther(count) => Enqueue(s, seq(count, _ => Other))
    case Collect(count) => s.(batch := s.queue[..count], queue := s.queue[count..])
    case PassOn(accepted) =>
      s.(batch := [], stream := if accepted then s.stream + Flatten(s.batch) else s.stream,
         refused := if accepted then s.refused else s.refused + 1)
  }

  ghost predicate Init(s: State) { s == State(true, 0, {}, {}, {}, Serving, [], [], [], 0) }

  ghost predicate Next(s: State, s': State) { exists step :: Enabled(s, step) && s' == Apply(s, step) }

  /** Everything on its way to the native side, oldest first. */
  function Pipeline(s: State): seq<Command> { s.stream + Flatten(s.batch) + Flatten(s.queue) }

  predicate Gate(s: State)
  {
    && s.active == |s.live|
    && s.ready <= s.live <= s.begun
    && (!s.stopper.Serving? ==> !s.accepting)
    && (s.stopper.Closed? || s.stopper.Submitted? ==> s.live == {})
  }

  /** No work after the stop result, and the stop result is there at most once and only when it was submitted. */
  predicate Ordered(commands: seq<Command>, stopped: bool)
  {
    && (forall i, j :: 0 <= i < j < |commands| && commands[i].StopResult? ==> commands[j].Other?)
    && (!stopped ==> forall i :: 0 <= i < |commands| ==> !commands[i].StopResult?)
  }

  predicate Inv(s: State) { Gate(s) && Ordered(Pipeline(s), s.stopper.Submitted?) }

  lemma FlattenOne(queue: seq<Request<Command>>, commands: seq<Command>)
    ensures Flatten(queue + [Request(0, commands)]) == Flatten(queue) + commands
  {
    assert (queue + [Request(0, commands)])[..|queue|] == queue;
  }

  lemma EnqueueKeepsOrder(s: State, commands: seq<Command>, before: bool, after: bool)
    requires Ordered(Pipeline(s), before) && (before ==> after)
    requires forall i :: 0 <= i < |commands| ==> commands[i].Other? || (!before && |commands| == 1)
    requires !after ==> forall i :: 0 <= i < |commands| ==> !commands[i].StopResult?
    ensures Ordered(Pipeline(Enqueue(s, commands)), after)
  {
    FlattenOne(s.queue, commands);
    assert Pipeline(Enqueue(s, commands)) == Pipeline(s) + commands;
    AppendKeepsOrder(Pipeline(s), commands, before, after);
  }

  lemma AppendKeepsOrder(waiting: seq<Command>, commands: seq<Command>, before: bool, after: bool)
    requires Ordered(waiting, before) && (before ==> after)
    requires forall i :: 0 <= i < |commands| ==> commands[i].Other? || (!before && |commands| == 1)
    requires !after ==> forall i :: 0 <= i < |commands| ==> !commands[i].StopResult?
    ensures Ordered(waiting + commands, after)
  {
  }

  lemma CollectKeepsPipeline(s: State, count: nat)
    requires s.batch == [] && count <= |s.queue|
    ensures Pipeline(s.(batch := s.queue[..count], queue := s.queue[count..])) == Pipeline(s)
  {
    assert s.queue[..count] + s.queue[count..] == s.queue;
    FlattenJoin(s.queue[..count], s.queue[count..]);
    assert s.stream + (Flatten(s.queue[..count]) + Flatten(s.queue[count..]))
        == s.stream + Flatten(s.queue[..count]) + Flatten(s.queue[count..]);
  }

  /** A failed batch is dropped whole; what remains is still in order. */
  lemma DropKeepsOrder(a: seq<Command>, dropped: seq<Command>, b: seq<Command>, stopped: bool)
    requires Ordered(a + dropped + b, stopped)
    ensures Ordered(a + b, stopped)
  {
    var all, left := a + dropped + b, a + b;
    forall i, j | 0 <= i < j < |left| && left[i].StopResult? ensures left[j].Other? {
      var i' := if i < |a| then i else i + |dropped|;
      var j' := if j < |a| then j else j + |dropped|;
      assert all[i'] == left[i] && all[j'] == left[j];
    }
    forall i | !stopped && 0 <= i < |left| ensures !left[i].StopResult? {
      assert all[if i < |a| then i else i + |dropped|] == left[i];
    }
  }

  lemma GateKept(s: State, step: Step)
    requires Gate(s) && Enabled(s, step)
    ensures Gate(Apply(s, step))
  {
    if step.SeeIdle? { assert s.live == {}; }
  }

  lemma OrderKept(s: State, step: Step)
    requires Inv(s) && Enabled(s, step)
    ensures Ordered(Pipeline(Apply(s, step)), Apply(s, step).stopper.Submitted?)
  {
    match step
    case Submit(op) => EnqueueKeepsOrder(s, [Work(op)], s.stopper.Submitted?, s.stopper.Submitted?);
    case SubmitStop => EnqueueKeepsOrder(s, [StopResult], false, true);
    case SubmitOther(count) => EnqueueKeepsOrder(s, seq(count, _ => Other), s.stopper.Submitted?, s.stopper.Submitted?);
    case Collect(count) => CollectKeepsPipeline(s, count);
    case PassOn(accepted) =>
      if !accepted {
        DropKeepsOrder(s.stream, Flatten(s.batch), Flatten(s.queue), s.stopper.Submitted?);
        assert s.stream + [] + Flatten(s.queue) == s.stream + Flatten(s.queue);
      } else {
        assert s.stream + Flatten(s.batch) + [] + Flatten(s.queue) == Pipeline(s);
      }
    case _ =>
  }

  lemma InvInductive()
    ensures Inductive(Init, Next, Inv)
  {
    forall s, s' | Inv(s) && Next(s, s') ensures Inv(s') {
      var step :| Enabled(s, step) && s' == Apply(s, step);
      GateKept(s, step);
      OrderKept(s, step);
    }
  }

  /** In every run, nothing that a save or a SQLite call of this generation submitted reaches the native side after
      the generation's stop result, which itself is there at most once. Requests may be abandoned while they wait in
      the queue and batches may fail. */
  lemma NothingFollowsTheStopResult(run: seq<State>, n: nat)
    requires IsRun(Init, Next, run) && n < |run|
    ensures forall i, j :: 0 <= i < j < |run[n].stream| && run[n].stream[i].StopResult? ==> run[n].stream[j].Other?
  {
    InvInductive();
    InductiveHolds(Init, Next, Inv, run);
    assert Inv(run[n]);
    var all := Pipeline(run[n]);
    assert forall i :: 0 <= i < |run[n].stream| ==> all[i] == run[n].stream[i];
  }

  /** The counter the worker waits on is the number of operations in progress, and it is never decremented below
      zero; once it has been seen at zero behind the closed gate, no operation begins again. */
  lemma CounterIsExact(run: seq<State>, n: nat)
    requires IsRun(Init, Next, run) && n < |run|
    ensures run[n].active == |run[n].live|
    ensures run[n].stopper.Closed? || run[n].stopper.Submitted? ==> run[n].live == {} && !run[n].accepting
  {
    InvInductive();
    InductiveHolds(Init, Next, Inv, run);
    assert Inv(run[n]);
  }

  /** What a step puts into the queue. */
  function Submits(step: Step): seq<Command>
  {
    match step
    case Submit(op) => [Work(op)]
    case SubmitStop => [StopResult]
    case SubmitOther(count) => seq(count, _ => Other)
    case _ => []
  }

  /** Everything on its way stays there, in its place, until a batch is refused. */
  ghost predicate Grows(s: State, s': State)
  {
    s.refused <= s'.refused && (s.refused == s'.refused ==> Pipeline(s) <= Pipeline(s'))
  }

  lemma StepAppends(s: State, step: Step)
    requires Enabled(s, step) && (step.PassOn? ==> step.accepted)
    ensures Pipeline(Apply(s, step)) == Pipeline(s) + Submits(step)
  {
    match step
    case Submit(op) => EnqueueAppends(s, [Work(op)]);
    case SubmitStop => EnqueueAppends(s, [StopResult]);
    case SubmitOther(count) => EnqueueAppends(s, seq(count, _ => Other));
    case Collect(count) => CollectKeepsPipeline(s, count);
    case PassOn(_) => assert s.stream + Flatten(s.batch) + [] + Flatten(s.queue) == Pipeline(s);
    case _ => assert Pipeline(s) + [] == Pipeline(s);
  }

  lemma EnqueueAppends(s: State, commands: seq<Command>)
    ensures Pipeline(Enqueue(s, commands)) == Pipeline(s) + commands
  {
    FlattenOne(s.queue, commands);
    assert s.stream + Flatten(s.batch) + (Flatten(s.queue) + commands) == Pipeline(s) + commands;
  }

  lemma GrowsInductive()
    ensures Inductive(Init, Next, Inv)
    ensures forall s, s' :: Inv(s) && Next(s, s') ==> Grows(s, s')
  {
    InvInductive();
    forall s, s' | Inv(s) && Next(s, s') ensures Grows(s, s') {
      var step :| Enabled(s, step) && s' == Apply(s, step);
      if !step.PassOn? || step.accepted { StepAppends(s, step); }
    }
  }

  /** On every run, up to a batch that the native side refuses, whatever is submitted stays behind what was submitted
      before it, and once the queue and the batch in hand are empty the native side has it all. */
  lemma SubmittedArrives(run: seq<State>, i: nat, j: nat, step: Step)
    requires IsRun(Init, Next, run) && i < j < |run|
    requires Enabled(run[i], step) && run[i + 1] == Apply(run[i], step) && Submits(step) != []
    ensures run[j].refused == run[i].refused ==> Pipeline(run[i]) + Submits(step) <= Pipeline(run[j])
    ensures run[j].refused == run[i].refused && run[j].queue == [] && run[j].batch == [] ==>
      Pipeline(run[i]) + Submits(step) <= run[j].stream
  {
    GrowsInductive();
    StepAppends(run[i], step);
    StepwiseRelated(Init, Next, Inv, Grows, run, i + 1, j);
    if run[j].queue == [] && run[j].batch == [] { assert run[j].stream + [] + [] == run[j].stream; }
  }
}
