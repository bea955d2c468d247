/**
 The mailbox between the poll loop and one actor worker: an unbounded queue under a mutex and a signal channel of
 capacity one that never blocks the producer. Any number of producers, one consumer.
 */
module Mailbox {
  import opened Common
  import opened Runs

  type Event = nat

  /** The shared part: the queue and whether a signal token is pending. */
  datatype Box = Box(queue: seq<Event>, token: bool)

  /** The mailbox's sections, as the class runs them and the protocol uses them. */
  function Appended(box: Box, event: Event): Box { box.(queue := box.queue + [event]) }

  function Posted(box: Box): Box { box.(token := true) }

  function Woken(box: Box): Box { box.(token := false) }

  function Taken(box: Box): Box
    requires box.queue != []
  {
    box.(queue := box.queue[1..])
  }

  class ActorMailbox {
    var queue: seq<Event>
    var signal: bool

    constructor ()
      ensures View() == Box([], false)
    {
      queue := [];
      signal := false;
    }

    function View(): Box
      reads this
    {
      Box(queue, signal)
    }

    /** `put`, first half: the mutex section. */
    method Append(event: Event)
      modifies this
      ensures View() == Appended(old(View()), event)
    {
      queue := queue + [event];
    }

    /** `put`, second half: send without blocking. */
    method Post()
      modifies this
      ensures View() == Posted(old(View()))
    {
      if !signal {
        signal := true;
      }
    }

    /** One turn of `take`: the mutex section. Nothing changes when the queue is empty. */
    method TakeOne() returns (event: Option<Event>)
      modifies this
      ensures old(queue) == [] ==> event == None && View() == old(View())
      ensures old(queue) != [] ==> event == Some(old(queue)[0]) && View() == Taken(old(View()))
    {
      if |queue| != 0 {
        event := Some(queue[0]);
        queue := queue[1..];
      } else {
        event := None;
      }
    }

    /** `take` received a token; it goes back to look. */
    method Receive()
      requires signal
      modifies this
      ensures View() == Woken(old(View()))
    {
      signal := false;
    }
  }

  datatype Consumer = Looking | Waiting | Cancelled

  /** `posting` counts producers between their two halves; `sent` and `taken` are what went in and came out. */
  datatype State = State(box: Box, posting: nat, consumer: Consumer, sent: seq<Event>, taken: seq<Event>)

  datatype Step = Append(event: Event) | Post | Take | FindEmpty | Wake | Cancel

  predicate Enabled(s: State, step: Step)
  {
    match step
    case Append(_) => true
    case Post => s.posting > 0
    case Take => s.consumer.Looking? && s.box.queue != []
    case FindEmpty => s.consumer.Looking? && s.box.queue == []
    case Wake => s.consumer.Waiting? && s.box.token
    case Cancel => s.consumer.Waiting?
  }

  function Apply(s: State, step: Step): State
    requires Enabled(s, step)
  {
    match step
    case Append(e) => s.(box := Appended(s.box, e), posting := s.posting + 1, sent := s.sent + [e])
    case Post => s.(box := Posted(s.box), posting := s.posting - 1)
    case Take => s.(box := Taken(s.box), taken := s.taken + [s.box.queue[0]])
    case FindEmpty => s.(consumer := Waiting)
    case Wake => s.(box := Woken(s.box), consumer := Looking)
    case Cancel => s.(consumer := Cancelled)
  }

  ghost predicate Init(s: State) { s == State(Box([], false), 0, Looking, [], []) }

  ghost predicate Next(s: State, s': State) { exists step :: Enabled(s, step) && s' == Apply(s, step) }

  predicate Inv(s: State)
  {
    && s.taken + s.box.queue == s.sent
    && (s.consumer.Waiting? && s.box.queue != [] ==> s.box.token || s.posting > 0)
  }

  lemma InvInductive()
    ensures Inductive(Init, Next, Inv)
  {
    forall s, s' | Inv(s) && Next(s, s') ensures Inv(s') {
      var step :| Enabled(s, step) && s' == Apply(s, step);
      if step.Take? { assert [s.box.queue[0]] + s.box.queue[1..] == s.box.queue; }
    }
  }

  /** In every interleaving the events taken, followed by those still queued, are the events put, in order; and a
      consumer that waits on a non-empty queue has a token pending or a producer about to post one. */
  lemma FifoAndNoLostWakeup(run: seq<State>, i: nat)
    requires IsRun(Init, Next, run) && i < |run|
    ensures run[i].taken + run[i].box.queue == run[i].sent
    ensures run[i].consumer.Waiting? && run[i].box.queue != [] ==> run[i].box.token || run[i].posting > 0
  {
    InvInductive();
    InductiveHolds(Init, Next, Inv, run);
    assert Inv(run[i]);
  }

  /** A step that neither brings in a new event nor gives up. */
  predicate Draining(step: Step) { !step.Append? && !step.Cancel? }

  function Work(s: State): nat
  {
    3 * |s.box.queue| + 3 * s.posting + (if s.box.token then 2 else 0) + (if s.consumer.Looking? then 1 else 0)
  }

  ghost predicate DrainStep(s: State, s': State)
  {
    exists step :: Draining(step) && Enabled(s, step) && s' == Apply(s, step)
  }

  /** Left alone, the mailbox cannot run forever: at most Work steps follow. */
  lemma {:induction false} DrainingEnds(run: seq<State>)
    requires |run| > 0 && forall i :: 0 <= i < |run| - 1 ==> DrainStep(run[i], run[i + 1])
    ensures |run| + Work(run[|run| - 1]) <= 1 + Work(run[0])
  {
    if |run| > 1 {
      var shorter := run[..|run| - 1];
      assert DrainStep(run[|run| - 2], run[|run| - 1]);
      DrainingEnds(shorter);
    }
  }

  /** And it can only stop with everything delivered: while the consumer has not been cancelled, a reachable state
      with no step left has taken exactly what was put. Together: every event put is eventually taken. */
  lemma StoppedMeansDelivered(run: seq<State>, i: nat)
    requires IsRun(Init, Next, run) && i < |run| && !run[i].consumer.Cancelled?
    requires forall step :: Draining(step) ==> !Enabled(run[i], step)
    ensures run[i].taken == run[i].sent && run[i].consumer.Waiting?
  {
    FifoAndNoLostWakeup(run, i);
    var s := run[i];
    assert !Enabled(s, Post) && !Enabled(s, Take) && !Enabled(s, FindEmpty) && !Enabled(s, Wake) by {
      assert Draining(Post) && Draining(Take) && Draining(FindEmpty) && Draining(Wake);
    }
  }

  /** A cancelled consumer takes nothing more. */
  lemma {:induction false} CancelledTakesNothing(run: seq<State>, i: nat, j: nat)
    requires IsRun(Init, Next, run) && i < j < |run| && Enabled(run[i], Cancel) && run[i + 1] == Apply(run[i], Cancel)
    ensures run[j].consumer.Cancelled? && run[j].taken == run[i].taken
    decreases j
  {
    if i + 1 < j {
      CancelledTakesNothing(run, i, j - 1);
      var k := j - 1;
      assert Next(run[k], run[k + 1]);
    }
  }
}
