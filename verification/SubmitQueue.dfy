/**
 The pump's submission queue: callers enqueue requests of one or more commands, one loop drains the queue into
 batches for the native runner and answers every request it took.
 */
module SubmitQueue {
  import opened Common

  const MAX_BATCH: nat := 1024

  datatype Request<C> = Request(id: nat, commands: seq<C>)

  datatype Outcome = Accepted | Failed | ShuttingDown

  datatype Answer = Answer(id: nat, outcome: Outcome)

  datatype Batch<C> = Batch(requests: seq<Request<C>>, outcome: Outcome)

  /** What the environment does around one turn of the loop: requests that arrive before each receive, the result of
      handing the batch to the native side, or the stop signal. */
  datatype Turn<C> = Serve(arrivals: seq<seq<Request<C>>>, accepted: bool) | Stop(late: seq<Request<C>>)

  function Flatten<C>(requests: seq<Request<C>>): (commands: seq<C>)
  {
    if requests == [] then [] else Flatten(requests[..|requests| - 1]) + requests[|requests| - 1].commands
  }

  lemma FlattenJoin<C>(a: seq<Request<C>>, b: seq<Request<C>>)
    ensures Flatten(a + b) == Flatten(a) + Flatten(b)
  {
    if b == [] {
      assert a + b == a;
    } else {
      assert (a + b)[..|a + b| - 1] == a + b[..|b| - 1];
      FlattenJoin(a, b[..|b| - 1]);
    }
  }

  function Answers<C>(requests: seq<Request<C>>, outcome: Outcome): seq<Answer>
  {
    seq(|requests|, i requires 0 <= i < |requests| => Answer(requests[i].id, outcome))
  }

  /** Only the last request may carry the batch past the limit. */
  predicate WellSized<C>(requests: seq<Request<C>>)
  {
    requests != [] && |Flatten(requests[..|requests| - 1])| < 1024
  }

  /** How often the loop looks at the queue for a batch: once for each request, and once more if it was not full. */
  function Receives<C>(requests: seq<Request<C>>): nat
  {
    |requests| + if |Flatten(requests)| < 1024 then 1 else 0
  }

  function Join<T>(parts: seq<seq<T>>): seq<T>
  {
    if parts == [] then [] else Join(parts[..|parts| - 1]) + parts[|parts| - 1]
  }

  lemma JoinOne<T>(parts: seq<seq<T>>, last: seq<T>)
    ensures Join(parts + [last]) == Join(parts) + last
  {
    assert (parts + [last])[..|parts|] == parts;
  }

  /** The requests of all batches, one after the other. */
  function Served<C>(batches: seq<Batch<C>>): seq<Request<C>>
  {
    if batches == [] then [] else Served(batches[..|batches| - 1]) + batches[|batches| - 1].requests
  }

  function BatchAnswers<C>(batches: seq<Batch<C>>): seq<Answer>
  {
    if batches == [] then []
    else
      var last := batches[|batches| - 1];
      BatchAnswers(batches[..|batches| - 1]) + Answers(last.requests, last.outcome)
  }

  lemma OneMoreBatch<C>(batches: seq<Batch<C>>, batch: Batch<C>)
    ensures Served(batches + [batch]) == Served(batches) + batch.requests
    ensures BatchAnswers(batches + [batch]) == BatchAnswers(batches) + Answers(batch.requests, batch.outcome)
  {
    assert (batches + [batch])[..|batches|] == batches;
  }

  lemma Regroup<T>(a: seq<T>, b: seq<T>, c: seq<T>, d: seq<T>, x: seq<T>)
    requires a + b == c + d
    ensures a + (b + x) == c + (d + x)
  {
    assert a + (b + x) == (a + b) + x == (c + d) + x == c + (d + x);
  }

  /** The collect loop: take the first request, then whatever is queued until the limit is reached. */
  method Collect<C>(start: seq<Request<C>>, arrivals: seq<seq<Request<C>>>)
    returns (requests: seq<Request<C>>, commands: seq<C>, queue: seq<Request<C>>, used: nat)
    requires start != []
    ensures used <= |arrivals| && requests + queue == start + Join(arrivals[..used])
    ensures WellSized(requests) && commands == Flatten(requests)
    ensures |commands| >= 1024 || queue == []
    ensures used == Min(|arrivals|, Receives(requests) - 1)
  {
    requests, queue := [start[0]], start[1..];
    commands := start[0].commands;
    used := 0;
    assert requests[..0] == [] && Flatten(requests) == [] + commands;
    assert arrivals[..0] == [];
    while |commands| < MAX_BATCH
      invariant used <= |arrivals| && requests + queue == start + Join(arrivals[..used])
      invariant WellSized(requests) && commands == Flatten(requests)
      invariant used == Min(|arrivals|, |requests| - 1)
      decreases |arrivals| - used, |queue|
    {
      if used < |arrivals| {
        assert arrivals[..used + 1] == arrivals[..used] + [arrivals[used]];
        JoinOne(arrivals[..used], arrivals[used]);
        Regroup(requests, queue, start, Join(arrivals[..used]), arrivals[used]);
        queue := queue + arrivals[used];
        used := used + 1;
      }
      if queue == [] { break; }
      assert (requests + [queue[0]])[..|requests|] == requests;
      assert requests + queue == (requests + [queue[0]]) + queue[1..];
      commands := commands + queue[0].commands;
      requests, queue := requests + [queue[0]], queue[1..];
    }
  }

  /** One turn: the collected requests (none if the queue stayed empty), what is left, and how many of the arrivals it
      saw. */
  method ServeTurn<C>(start: seq<Request<C>>, arrivals: seq<seq<Request<C>>>)
    returns (requests: seq<Request<C>>, commands: seq<C>, queue: seq<Request<C>>, groups: nat)
    ensures groups <= |arrivals| && start + Join(arrivals[..groups]) == requests + queue
    ensures commands == Flatten(requests) && (requests == [] || WellSized(requests))
    ensures requests == [] ==> queue == []
    ensures groups == Min(|arrivals|, Receives(requests))
  {
    queue, groups := start, 0;
    assert arrivals[..0] == [];
    if |arrivals| > 0 {
      assert arrivals[..1] == arrivals[..0] + [arrivals[0]];
      JoinOne(arrivals[..0], arrivals[0]);
      queue, groups := start + arrivals[0], 1;
    }
    if queue == [] { return [], [], [], groups; }
    var used;
    ghost var before := queue;
    requests, commands, queue, used := Collect(queue, arrivals[groups..]);
    JoinMore(arrivals, groups, used);
    assert start + Join(arrivals[..groups + used]) == before + Join(arrivals[groups..][..used]);
    groups := groups + used;
  }

  lemma {:induction false} JoinMore<T>(parts: seq<seq<T>>, n: nat, more: nat)
    requires n + more <= |parts|
    ensures Join(parts[..n + more]) == Join(parts[..n]) + Join(parts[n..][..more])
    decreases more
  {
    if more > 0 {
      JoinMore(parts, n, more - 1);
      var last := parts[n + more - 1];
      assert parts[..n + more] == parts[..n + (more - 1)] + [last];
      assert parts[n..][..more] == parts[n..][..more - 1] + [last];
      JoinOne(parts[..n + (more - 1)], last);
      JoinOne(parts[n..][..more - 1], last);
    }
  }

  /** Everything that came in during the first turns, given how many arrivals each of them saw. */
  ghost function Entered<C>(turns: seq<Turn<C>>, seen: seq<nat>): seq<Request<C>>
    requires Saw(turns, seen)
  {
    if seen == [] then []
    else
      var last := |seen| - 1;
      Entered(turns, seen[..last]) + Join(turns[last].arrivals[..seen[last]])
  }

  ghost predicate Saw<C>(turns: seq<Turn<C>>, seen: seq<nat>)
  {
    |seen| <= |turns| && forall t :: 0 <= t < |seen| ==> turns[t].Serve? && seen[t] <= |turns[t].arrivals|
  }

  lemma EnteredOneMore<C>(turns: seq<Turn<C>>, seen: seq<nat>, groups: nat)
    requires Saw(turns, seen + [groups])
    ensures Saw(turns, seen)
    ensures Entered(turns, seen + [groups]) == Entered(turns, seen) + Join(turns[|seen|].arrivals[..groups])
  {
    var longer := seen + [groups];
    assert forall t :: 0 <= t < |seen| ==> longer[t] == seen[t];
    assert longer[..|seen|] == seen && longer[|seen|] == groups;
  }

  /** Which turn each batch was collected in, and what that turn did with it. */
  ghost predicate Logged<C>(turns: seq<Turn<C>>, seen: seq<nat>, batches: seq<Batch<C>>, turnOf: seq<nat>)
  {
    && Saw(turns, seen)
    && |turnOf| == |batches|
    && (forall i, j :: 0 <= i < j < |turnOf| ==> turnOf[i] < turnOf[j])
    && (forall i :: 0 <= i < |batches| ==> BatchOf(turns, seen, batches[i], turnOf[i]))
    && (forall t :: 0 <= t < |seen| && t !in turnOf ==> IdleTurn(turns, seen, t))
  }

  /** The batch is the turn's: its outcome is the native side's answer in that turn, and it was collected with as many
      looks at the queue as it needed. */
  ghost predicate BatchOf<C>(turns: seq<Turn<C>>, seen: seq<nat>, batch: Batch<C>, t: nat)
    requires Saw(turns, seen)
  {
    && t < |seen|
    && batch.outcome == (if turns[t].accepted then Accepted else Failed)
    && seen[t] == Min(|turns[t].arrivals|, Receives(batch.requests))
  }

  /** A turn without a batch found nothing. */
  ghost predicate IdleTurn<C>(turns: seq<Turn<C>>, seen: seq<nat>, t: nat)
    requires Saw(turns, seen) && t < |seen|
  {
    seen[t] == Min(|turns[t].arrivals|, 1) && Join(turns[t].arrivals[..seen[t]]) == []
  }

  lemma LogBatch<C>(turns: seq<Turn<C>>, seen: seq<nat>, batches: seq<Batch<C>>, turnOf: seq<nat>, groups: nat, batch: Batch<C>)
    requires Logged(turns, seen, batches, turnOf) && Saw(turns, seen + [groups])
    requires BatchOf(turns, seen + [groups], batch, |seen|)
    ensures Logged(turns, seen + [groups], batches + [batch], turnOf + [|seen|])
  {
    var longer, more, of := seen + [groups], batches + [batch], turnOf + [|seen|];
    forall i | 0 <= i < |more| ensures BatchOf(turns, longer, more[i], of[i]) {
      if i < |batches| { assert BatchOf(turns, seen, batches[i], turnOf[i]); }
    }
    forall i, j | 0 <= i < j < |of| ensures of[i] < of[j] {
      if j == |turnOf| { assert BatchOf(turns, seen, batches[i], turnOf[i]); }
    }
    forall t | 0 <= t < |longer| && t !in of ensures IdleTurn(turns, longer, t) {
      assert of[|turnOf|] == |seen|;
      assert t !in turnOf;
      assert IdleTurn(turns, seen, t);
    }
  }

  lemma LogIdle<C>(turns: seq<Turn<C>>, seen: seq<nat>, batches: seq<Batch<C>>, turnOf: seq<nat>, groups: nat)
    requires Logged(turns, seen, batches, turnOf) && Saw(turns, seen + [groups])
    requires IdleTurn(turns, seen + [groups], |seen|)
    ensures Logged(turns, seen + [groups], batches, turnOf)
  {
    var longer := seen + [groups];
    forall i | 0 <= i < |batches| ensures BatchOf(turns, longer, batches[i], turnOf[i]) {
      assert BatchOf(turns, seen, batches[i], turnOf[i]);
    }
    forall t | 0 <= t < |longer| && t !in turnOf ensures IdleTurn(turns, longer, t) {
      if t < |seen| { assert IdleTurn(turns, seen, t); }
    }
  }

  /** What the loop keeps: everything that entered is in a batch or still queued, and each batch has been answered. */
  ghost predicate Books<C>(arrived: seq<Request<C>>, queue: seq<Request<C>>, batches: seq<Batch<C>>,
                                 stream: seq<C>, answers: seq<Answer>)
  {
    && arrived == Served(batches) + queue
    && answers == BatchAnswers(batches)
    && stream == AcceptedCommands(batches)
    && (forall i :: 0 <= i < |batches| ==> WellSized(batches[i].requests) && !batches[i].outcome.ShuttingDown?)
  }

  lemma BooksKept<C>(arrived: seq<Request<C>>, queue: seq<Request<C>>, batches: seq<Batch<C>>,
                     stream: seq<C>, answers: seq<Answer>,
                     came: seq<Request<C>>, batch: Batch<C>, rest: seq<Request<C>>)
    requires Books(arrived, queue, batches, stream, answers)
    requires queue + came == batch.requests + rest && WellSized(batch.requests) && !batch.outcome.ShuttingDown?
    ensures Books(arrived + came, rest, batches + [batch],
                  stream + (if batch.outcome.Accepted? then Flatten(batch.requests) else []),
                  answers + Answers(batch.requests, batch.outcome))
  {
    OneMoreBatch(batches, batch);
    AcceptedOneMore(batches, batch);
    assert arrived + came == Served(batches) + (queue + came) == (Served(batches) + batch.requests) + rest;
  }

  /** The loop's variables: `seen` counts the arrivals that each turn looked at, and `turnOf` names the turn of each
      batch. */
  datatype Ledger<C> = Ledger(
    queue: seq<Request<C>>, batches: seq<Batch<C>>, stream: seq<C>, answers: seq<Answer>, seen: seq<nat>, turnOf: seq<nat>)

  ghost predicate Kept<C>(turns: seq<Turn<C>>, l: Ledger<C>)
  {
    && Logged(turns, l.seen, l.batches, l.turnOf)
    && Books(Entered(turns, l.seen), l.queue, l.batches, l.stream, l.answers)
  }

  lemma TurnServed<C>(turns: seq<Turn<C>>, l: Ledger<C>, l': Ledger<C>, groups: nat, batch: Batch<C>, rest: seq<Request<C>>)
    requires Kept(turns, l) && |l.seen| < |turns| && turns[|l.seen|].Serve? && groups <= |turns[|l.seen|].arrivals|
    requires l.queue + Join(turns[|l.seen|].arrivals[..groups]) == batch.requests + rest && WellSized(batch.requests)
    requires batch.outcome == (if turns[|l.seen|].accepted then Accepted else Failed)
    requires groups == Min(|turns[|l.seen|].arrivals|, Receives(batch.requests))
    requires l' == Ledger(rest, l.batches + [batch],
                          l.stream + (if batch.outcome.Accepted? then Flatten(batch.requests) else []),
                          l.answers + Answers(batch.requests, batch.outcome), l.seen + [groups], l.turnOf + [|l.seen|])
    ensures Kept(turns, l')
  {
    var came := Join(turns[|l.seen|].arrivals[..groups]);
    assert forall t :: 0 <= t < |l.seen| ==> l'.seen[t] == l.seen[t];
    EnteredOneMore(turns, l.seen, groups);
    BooksKept(Entered(turns, l.seen), l.queue, l.batches, l.stream, l.answers, came, batch, rest);
    LogBatch(turns, l.seen, l.batches, l.turnOf, groups, batch);
  }

  lemma TurnIdle<C>(turns: seq<Turn<C>>, l: Ledger<C>, groups: nat)
    requires Kept(turns, l) && |l.seen| < |turns| && turns[|l.seen|].Serve? && groups == Min(|turns[|l.seen|].arrivals|, 1)
    requires l.queue + Join(turns[|l.seen|].arrivals[..groups]) == []
    ensures Kept(turns, l.(seen := l.seen + [groups]))
  {
    var longer := l.seen + [groups];
    assert forall t :: 0 <= t < |l.seen| ==> longer[t] == l.seen[t];
    NothingCame(l.queue, Join(turns[|l.seen|].arrivals[..groups]));
    EnteredOneMore(turns, l.seen, groups);
    LogIdle(turns, l.seen, l.batches, l.turnOf, groups);
  }

  lemma NothingCame<T>(a: seq<T>, b: seq<T>)
    requires a + b == []
    ensures a == [] && b == []
  {
    assert |a + b| == 0;
  }

  /** One turn of the loop: collect, hand over, answer. */
  method TakeTurn<C>(turns: seq<Turn<C>>, l: Ledger<C>) returns (l': Ledger<C>)
    requires Kept(turns, l) && |l.seen| < |turns| && turns[|l.seen|].Serve?
    ensures Kept(turns, l') && |l'.seen| == |l.seen| + 1
  {
    var turn := turns[|l.seen|];
    var requests, commands, rest, groups := ServeTurn(l.queue, turn.arrivals);
    if requests == [] {
      TurnIdle(turns, l, groups);
      return l.(seen := l.seen + [groups]);
    }
    var batch := Batch(requests, if turn.accepted then Accepted else Failed);
    var answers := AnswerAll(l.answers, requests, batch.outcome);
    l' := Ledger(rest, l.batches + [batch], l.stream + if turn.accepted then commands else [], answers,
                 l.seen + [groups], l.turnOf + [|l.seen|]);
    TurnServed(turns, l, l', groups, batch, rest);
  }

  /** The whole loop over any behaviour of its environment. Everything that came in before the stop is answered exactly
      once and in order or is still queued; the batches partition the served prefix, each request contiguous inside exactly
      one of them, and carry the native side's answer; after the stop signal the rest is refused and reaches no batch. */
  method SubmitLoop<C>(turns: seq<Turn<C>>) returns (l: Ledger<C>, refused: seq<Request<C>>)
    ensures Logged(turns, l.seen, l.batches, l.turnOf) && (|l.seen| == |turns| || turns[|l.seen|].Stop?)
    ensures Entered(turns, l.seen) + (if |l.seen| < |turns| then turns[|l.seen|].late else [])
         == Served(l.batches) + refused + l.queue
    ensures l.answers == BatchAnswers(l.batches) + Answers(refused, ShuttingDown)
    ensures forall i :: 0 <= i < |l.batches| ==> WellSized(l.batches[i].requests)
    ensures l.stream == AcceptedCommands(l.batches)
    ensures if |l.seen| < |turns| then l.queue == [] else refused == []
  {
    l, refused := Ledger([], [], [], [], [], []), [];
    while |l.seen| < |turns| && turns[|l.seen|].Serve?
      invariant Kept(turns, l)
      decreases |turns| - |l.seen|
    {
      l := TakeTurn(turns, l);
    }
    if |l.seen| < |turns| {
      var answers;
      refused, answers := RefuseAll(l.queue + turns[|l.seen|].late, l.answers);
      Regrouped(Entered(turns, l.seen), Served(l.batches), l.queue, turns[|l.seen|].late);
      l := l.(queue := [], answers := answers);
    } else {
      Regrouped(Entered(turns, l.seen), Served(l.batches), l.queue, []);
    }
  }

  lemma Regrouped<T>(all: seq<T>, served: seq<T>, queue: seq<T>, late: seq<T>)
    requires all == served + queue
    ensures all + late == served + (queue + late) + []
    ensures late == [] ==> all + late == served + [] + queue
  {
  }

  /** Drain what is queued, refusing each request. */
  method RefuseAll<C>(queued: seq<Request<C>>, sent: seq<Answer>) returns (refused: seq<Request<C>>, answers: seq<Answer>)
    ensures refused == queued && answers == sent + Answers(queued, ShuttingDown)
  {
    var queue := queued;
    refused, answers := [], sent;
    while queue != []
      invariant queued == refused + queue
      invariant answers == sent + Answers(refused, ShuttingDown)
      decreases |queue|
    {
      assert Answers(refused + [queue[0]], ShuttingDown)
          == Answers(refused, ShuttingDown) + [Answer(queue[0].id, ShuttingDown)];
      answers := answers + [Answer(queue[0].id, ShuttingDown)];
      refused, queue := refused + [queue[0]], queue[1..];
    }
  }

  method AnswerAll<C>(sent: seq<Answer>, requests: seq<Request<C>>, outcome: Outcome) returns (answers: seq<Answer>)
    ensures answers == sent + Answers(requests, outcome)
  {
    answers := sent;
    for i := 0 to |requests|
      invariant answers == sent + Answers(requests[..i], outcome)
    {
      assert Answers(requests[..i + 1], outcome) == Answers(requests[..i], outcome) + [Answer(requests[i].id, outcome)];
      answers := answers + [Answer(requests[i].id, outcome)];
    }
    assert requests[..|requests|] == requests;
  }

  /** What the native side receives. */
  function AcceptedCommands<C>(batches: seq<Batch<C>>): seq<C>
  {
    if batches == [] then []
    else
      var last := batches[|batches| - 1];
      AcceptedCommands(batches[..|batches| - 1]) + (if last.outcome.Accepted? then Flatten(last.requests) else [])
  }

  lemma AcceptedOneMore<C>(batches: seq<Batch<C>>, batch: Batch<C>)
    ensures AcceptedCommands(batches + [batch])
         == AcceptedCommands(batches) + (if batch.outcome.Accepted? then Flatten(batch.requests) else [])
  {
    assert (batches + [batch])[..|batches|] == batches;
  }

  /** First in, first out, end to end: when no batch fails, the native side sees exactly the commands of the served
      requests in the order in which the requests entered the queue. */
  lemma {:induction false} StreamIsInOrder<C>(batches: seq<Batch<C>>)
    requires forall i :: 0 <= i < |batches| ==> batches[i].outcome.Accepted?
    ensures AcceptedCommands(batches) == Flatten(Served(batches))
  {
    if batches != [] {
      var shorter := batches[..|batches| - 1];
      StreamIsInOrder(shorter);
      FlattenJoin(Served(shorter), batches[|batches| - 1].requests);
    }
  }
}
