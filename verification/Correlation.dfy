/**
 Matching responses to requests by an id that wraps around: the socket client's pending table (32-bit ids) and
 the pump's intent and SQLite waiter tables (64-bit ids) are one protocol. A request gets the next free id, is
 perhaps handed to the other side, and is perhaps given up. Giving up a request the other side may answer leaves
 a tombstone under its id; an entry is simply removed only for a request the other side never saw. The one exit
 of the code that breaks this rule is the step `RemoveStray`.
 */
module Correlation {
  import opened Common
  import opened Runs

  /** A waiting channel, or the tombstone of a request that was given up. */
  type Slot = Option<nat>

  /** `id` is the first id after `last`, counting upwards and wrapping, that is neither zero nor taken. */
  ghost predicate IsNextFree(modulus: nat, last: nat, pending: map<nat, Slot>, id: nat)
  {
    && 0 < id < modulus && id !in pending
    && (last < id ==> forall k :: last < k < id ==> k in pending)
    && (id <= last ==> (forall k :: last < k < modulus ==> k in pending) && (forall k :: 0 < k < id ==> k in pending))
  }

  /** The table's other sections, as the class runs them and the protocol uses them. */
  function Removed(pending: map<nat, Slot>, id: nat): map<nat, Slot> { pending - {id} }

  function Tombstoned(pending: map<nat, Slot>, id: nat): map<nat, Slot>
  {
    if id in pending then pending[id := None] else pending
  }

  function Waiter(pending: map<nat, Slot>, id: nat): Slot { if id in pending then pending[id] else None }

  ghost predicate HasFreeId(modulus: nat, pending: map<nat, Slot>) { exists id :: 0 < id < modulus && id !in pending }

  /** The table behind its mutex. */
  class PendingTable {
    const modulus: nat
    var lastId: nat
    var pending: map<nat, Slot>

    constructor (modulus: nat)
      requires modulus >= 2
      ensures this.modulus == modulus && lastId == 0 && pending == map[]
    {
      this.modulus, lastId, pending := modulus, 0, map[];
    }

    /** Allocation ends exactly because some id is free; with every id taken the loop would not. */
    method Add(waiter: nat) returns (id: nat)
      requires lastId < modulus && HasFreeId(modulus, pending)
      modifies this
      ensures IsNextFree(modulus, old(lastId), old(pending), id)
      ensures lastId == id && pending == old(pending)[id := Some(waiter)]
    {
      ghost var free :| 0 < free < modulus && free !in pending;
      ghost var start := lastId;
      ghost var wrapped := false;
      while true
        invariant lastId < modulus && pending == old(pending)
        invariant !wrapped ==> start <= lastId && forall k :: start < k <= lastId ==> k in pending
        invariant wrapped ==> (forall k :: start < k < modulus ==> k in pending) && forall k :: 0 < k <= lastId ==> k in pending
        invariant wrapped ==> lastId < free
        decreases if lastId < free then free - lastId else free + modulus - lastId
      {
        lastId := if lastId + 1 == modulus then 0 else lastId + 1;
        id := lastId;
        if id == 0 {
          wrapped := true;
        } else if id !in pending {
          break;
        }
      }
      pending := pending[id := Some(waiter)];
    }

    method Remove(id: nat)
      modifies this`pending
      ensures pending == Removed(old(pending), id)
    {
      pending := pending - {id};
    }

    method Abandon(id: nat)
      modifies this`pending
      ensures pending == Tombstoned(old(pending), id)
    {
      if id in pending { pending := pending[id := None]; }
    }

    /** A response: the entry goes with the final one, and a tombstone swallows it. */
    method Settle(id: nat, final: bool) returns (waiter: Slot)
      modifies this`pending
      ensures waiter == Waiter(old(pending), id)
      ensures pending == if final then Removed(old(pending), id) else old(pending)
    {
      waiter := if id in pending then pending[id] else None;
      if final { pending := pending - {id}; }
    }
  }

  // ---------------------------------------------------------------- the protocol

  /** `Unsent` may still reach the other side, `Seen` has, `Settled` is answered or will never be sent. */
  datatype Progress = Unsent | Seen | Settled

  datatype Request = Request(id: nat, progress: Progress)

  datatype Delivery = Delivery(request: nat, waiter: nat)

  /** `answered` have had their final response; `gaveUp` gave up before it; `silenced` had their entry tombstoned and
      `dropped` had it removed on someone else's behalf or by a stray removal or the close. `reissued` are the requests
      whose id was issued again while they could still be answered. */
  datatype State = State(
    modulus: nat,
    lastId: nat,
    pending: map<nat, Slot>,
    requests: seq<Request>,
    hand: Option<nat>,
    delivered: seq<Delivery>,
    served: set<nat>,
    servedTwice: bool,
    strays: nat,
    closed: bool,
    answered: set<nat>,
    gaveUp: set<nat>,
    silenced: set<nat>,
    dropped: set<nat>,
    reissued: set<nat>)

  datatype Step =
    | Add(id: nat) | Send(r: nat) | RemoveUnsent(r: nat) | Abandon(r: nat)
    | ReadResponse(r: nat) | Deliver(final: bool) | Close | RemoveStray(r: nat)

  predicate Is(s: State, r: nat, p: Progress) { r < |s.requests| && s.requests[r].progress == p }

  ghost predicate Enabled(s: State, step: Step)
  {
    match step
    case Add(id) => IsNextFree(s.modulus, s.lastId, s.pending, id)
    case Send(r) => Is(s, r, Unsent)
    case RemoveUnsent(r) => Is(s, r, Unsent)
    case Abandon(r) => Is(s, r, Seen) || Is(s, r, Settled)
    case ReadResponse(r) => s.hand.None? && Is(s, r, Seen)
    case Deliver(_) => s.hand.Some? && s.hand.value < |s.requests|
    case Close => !s.closed
    case RemoveStray(r) => Is(s, r, Unsent) || Is(s, r, Seen)
  }

  function Progressed(s: State, r: nat, p: Progress): State
    requires r < |s.requests|
  {
    s.(requests := s.requests[r := s.requests[r].(progress := p)])
  }

  function Serve(s: State, waiter: nat): State
  {
    s.(served := s.served + {waiter}, servedTwice := s.servedTwice || waiter in s.served)
  }

  /** The holder of a slot, if it is not `r`. */
  function Others(slot: Slot, r: nat): set<nat> { if slot.Some? && slot.value != r then {slot.value} else {} }

  /** The requests that may still be answered under this id. */
  ghost function Awaiting(s: State, id: nat): set<nat>
  {
    set r: nat | r < |s.requests| && s.requests[r].id == id && !s.requests[r].progress.Settled?
  }

  /** Looks up the response in hand and passes it on. */
  function Delivered(s: State, final: bool): State
    requires s.hand.Some? && s.hand.value < |s.requests|
  {
    var r := s.hand.value;
    var id := s.requests[r].id;
    var slot := Waiter(s.pending, id);
    var t := if slot.Some? then s.(delivered := s.delivered + [Delivery(r, slot.value)]) else s;
    var u := if slot.Some? && final then Serve(t, slot.value) else t;
    var w :=
      if final
      then Progressed(u, r, Settled).(
             pending := Removed(s.pending, id), answered := s.answered + {r}, dropped := s.dropped + Others(slot, r))
      else u;
    w.(hand := None)
  }

  /** Closing fails every waiter still in the table. */
  ghost function Waiters(pending: map<nat, Slot>): set<nat>
  {
    set id | id in pending && pending[id].Some? :: pending[id].value
  }

  ghost function Apply(s: State, step: Step): State
    requires Enabled(s, step)
  {
    match step
    case Add(id) =>
      s.(lastId := id, pending := s.pending[id := Some(|s.requests|)], requests := s.requests + [Request(id, Unsent)],
         reissued := s.reissued + Awaiting(s, id))
    case Send(r) => Progressed(s, r, Seen)
    case RemoveUnsent(r) =>
      Progressed(s, r, Settled).(
        pending := Removed(s.pending, s.requests[r].id),
        dropped := s.dropped + Others(Waiter(s.pending, s.requests[r].id), r))
    case Abandon(r) =>
      s.(pending := Tombstoned(s.pending, s.requests[r].id),
         gaveUp := if Is(s, r, Settled) then s.gaveUp else s.gaveUp + {r},
         silenced := s.silenced + Others(Waiter(s.pending, s.requests[r].id), r))
    case ReadResponse(r) => s.(hand := Some(r))
    case Deliver(final) => Delivered(s, final)
    case Close =>
      s.(pending := map[], closed := true, dropped := s.dropped + Waiters(s.pending),
         served := s.served + Waiters(s.pending), servedTwice := s.servedTwice || s.served * Waiters(s.pending) != {})
    case RemoveStray(r) =>
      var slot := Waiter(s.pending, s.requests[r].id);
      s.(pending := Removed(s.pending, s.requests[r].id), strays := s.strays + 1,
         dropped := s.dropped + if slot.Some? then {slot.value} else {})
  }

  ghost predicate Init(s: State)
  {
    s.modulus >= 2 && s == State(s.modulus, 0, map[], [], None, [], {}, false, 0, false, {}, {}, {}, {}, {})
  }

  ghost predicate Next(s: State, s': State) { exists step :: Enabled(s, step) && s' == Apply(s, step) }

  // ---------------------------------------------------------------- nobody is served twice

  ghost predicate ServeInv(s: State)
  {
    && !s.servedTwice
    && s.modulus >= 2 && s.lastId < s.modulus
    && (forall id :: id in s.pending && s.pending[id].Some? ==> s.pending[id].value < |s.requests| && s.pending[id].value !in s.served)
    && (forall a, b :: a in s.pending && b in s.pending && a != b && s.pending[a].Some? ==> s.pending[a] != s.pending[b])
    && (forall w :: w in s.served ==> w < |s.requests|)
  }

  lemma StepKeepsServe(s: State, step: Step)
    requires ServeInv(s) && Enabled(s, step)
    ensures ServeInv(Apply(s, step))
  {
    if step.Close? {
      assert s.served * Waiters(s.pending) == {};
    } else if step.Deliver? {
      DeliverKeepsServe(s, step.final);
    }
  }

  lemma DeliverKeepsServe(s: State, final: bool)
    requires ServeInv(s) && Enabled(s, Deliver(final))
    ensures ServeInv(Delivered(s, final))
  {
    var s' := Delivered(s, final);
    assert |s'.requests| == |s.requests|;
    if final { assert s'.pending == Removed(s.pending, s.requests[s.hand.value].id); }
  }

  // ---------------------------------------------------------------- whose slot it is

  predicate Live(s: State, r: nat) requires r < |s.requests| { !s.requests[r].progress.Settled? }

  /** Nobody waits for this request's answer. */
  predicate Deaf(s: State, r: nat) { r in s.gaveUp || r in s.silenced || r in s.dropped }

  /** A slot belongs to a request that can still be answered. */
  predicate Owns(s: State, r: nat, id: nat) { r < |s.requests| && s.requests[r].id == id && Live(s, r) }

  ghost predicate Known(s: State, some: set<nat>) { forall r :: r in some ==> r < |s.requests| }

  /** On every run: a slot is its owner's, who has lost no claim to it, and whoever else could still be answered under
      its id had the id issued again over it. */
  ghost predicate SlotInv(s: State)
  {
    && (forall id :: id in s.pending && s.pending[id].Some? ==>
          var w := s.pending[id].value; Owns(s, w, id) && w !in s.reissued && !Deaf(s, w))
    && (forall r: nat :: r < |s.requests| && Live(s, r) ==>
          var slot := Waiter(s.pending, s.requests[r].id);
          (slot == Some(r) || Deaf(s, r)) && (slot.Some? && slot.value != r ==> r in s.reissued))
    && (s.hand.Some? ==> Is(s, s.hand.value, Seen))
    && Known(s, s.reissued) && Known(s, s.gaveUp) && Known(s, s.silenced) && Known(s, s.dropped)
  }

  /** Every response handed to a stranger was one to a request whose id had been issued again. */
  ghost predicate Traced(s: State)
  {
    forall i :: 0 <= i < |s.delivered| && s.delivered[i].waiter != s.delivered[i].request ==>
      s.delivered[i].request in s.reissued
  }

  lemma AddKeepsSlots(s: State, id: nat)
    requires SlotInv(s) && Enabled(s, Add(id))
    ensures SlotInv(Apply(s, Add(id)))
  {
    var s' := Apply(s, Add(id));
    assert forall r :: 0 <= r < |s.requests| ==> s'.requests[r] == s.requests[r];
    forall r: nat | r < |s'.requests| && Live(s', r)
      ensures var slot := Waiter(s'.pending, s'.requests[r].id);
        (slot == Some(r) || Deaf(s', r)) && (slot.Some? && slot.value != r ==> r in s'.reissued)
    {
      if r < |s.requests| {
        assert Live(s, r);
        if s.requests[r].id == id { assert r in Awaiting(s, id); }
      }
    }
  }

  lemma RemovalKeepsSlots(s: State, step: Step)
    requires SlotInv(s) && Enabled(s, step) && (step.RemoveUnsent? || step.RemoveStray? || step.Close?)
    ensures SlotInv(Apply(s, step))
  {
    var s' := Apply(s, step);
    forall r: nat | r < |s'.requests| && Live(s', r)
      ensures Waiter(s'.pending, s'.requests[r].id) == Some(r) || Deaf(s', r)
    {
      assert Live(s, r);
    }
  }

  lemma MarkKeepsSlots(s: State, step: Step)
    requires SlotInv(s) && Enabled(s, step) && (step.Send? || step.ReadResponse? || step.Abandon?)
    ensures SlotInv(Apply(s, step))
  {
    var s' := Apply(s, step);
    forall r: nat | r < |s'.requests| && Live(s', r)
      ensures Waiter(s'.pending, s'.requests[r].id) == Some(r) || Deaf(s', r)
    {
      assert Live(s, r);
    }
  }

  lemma DeliverKeepsSlots(s: State, final: bool)
    requires SlotInv(s) && Traced(s) && Enabled(s, Deliver(final))
    ensures SlotInv(Delivered(s, final)) && Traced(Delivered(s, final))
  {
    DeliverTraced(s, final);
    if final { FinalKeepsSlots(s); } else { ChunkKeepsSlots(s, Delivered(s, false)); }
  }

  lemma DeliverTraced(s: State, final: bool)
    requires SlotInv(s) && Traced(s) && Enabled(s, Deliver(final))
    ensures Traced(Delivered(s, final))
  {
    assert Live(s, s.hand.value);
  }

  lemma ChunkKeepsSlots(s: State, s': State)
    requires SlotInv(s) && s' == s.(hand := None, delivered := s'.delivered)
    ensures SlotInv(s')
  {
    assert forall r: nat :: r < |s.requests| ==> Live(s', r) == Live(s, r);
  }

  /** The request is settled and its id free again, whoever held it. */
  lemma FinalKeepsSlots(s: State)
    requires SlotInv(s) && Enabled(s, Deliver(true))
    ensures SlotInv(Delivered(s, true))
  {
    var r := s.hand.value;
    var s' := Delivered(s, true);
    assert s'.pending == Removed(s.pending, s.requests[r].id);
    forall q: nat | q < |s'.requests| && Live(s', q)
      ensures Waiter(s'.pending, s'.requests[q].id) == Some(q) || Deaf(s', q)
    {
      assert Live(s, q);
    }
  }

  lemma StepKeepsSlots(s: State, step: Step)
    requires SlotInv(s) && Traced(s) && Enabled(s, step)
    ensures SlotInv(Apply(s, step)) && Traced(Apply(s, step))
  {
    match step
    case Add(id) => AddKeepsSlots(s, id);
    case Deliver(final) => DeliverKeepsSlots(s, final);
    case RemoveUnsent(_) => RemovalKeepsSlots(s, step);
    case RemoveStray(_) => RemovalKeepsSlots(s, step);
    case Close => RemovalKeepsSlots(s, step);
    case _ => MarkKeepsSlots(s, step);
  }

  // ---------------------------------------------------------------- without strays, up to the close

  /** The id of every request that can still be answered is held, by its own waiter or by a tombstone. */
  ghost predicate HeldInv(s: State)
  {
    && (forall r: nat :: r < |s.requests| && Live(s, r) ==>
          s.requests[r].id in s.pending && s.pending[s.requests[r].id] == if Deaf(s, r) then None else Some(r))
    && (forall r: nat, q: nat :: r < |s.requests| && q < |s.requests| && Live(s, r) && Live(s, q) && r != q ==>
          s.requests[r].id != s.requests[q].id)
    && s.reissued == {} && s.dropped == {}
    && (s.hand.Some? ==> Is(s, s.hand.value, Seen))
  }

  /** Every final response has been handed to its request's own waiter, unless nobody listens there any more. */
  ghost predicate AnswerInv(s: State)
  {
    && (forall r :: r in s.answered || r in s.gaveUp || r in s.silenced || r in s.served ==> r < |s.requests|)
    && (forall r :: r in s.answered ==> Is(s, r, Settled) && (r in s.served <==> !Deaf(s, r)))
    && (forall r: nat :: r < |s.requests| && Live(s, r) ==> r !in s.served)
    && (forall id :: id in s.pending && s.pending[id].Some? ==> Owns(s, s.pending[id].value, id))
  }

  ghost predicate Correct(s: State)
  {
    forall i :: 0 <= i < |s.delivered| ==> s.delivered[i].waiter == s.delivered[i].request
  }

  /** Up to the first close, and as long as no entry was removed under a request that may still be answered. */
  ghost predicate Inv(s: State)
  {
    ServeInv(s) && SlotInv(s) && Traced(s) && (s.strays == 0 && !s.closed ==> HeldInv(s) && AnswerInv(s))
  }

  lemma DeliverKeepsHeld(s: State, final: bool)
    requires HeldInv(s) && Enabled(s, Deliver(final))
    ensures HeldInv(Delivered(s, final))
  {
    if final { FinalKeepsHeld(s); } else { ChunkKeepsHeld(s, Delivered(s, false)); }
  }

  lemma ChunkKeepsHeld(s: State, s': State)
    requires HeldInv(s) && s' == s.(hand := None, delivered := s'.delivered)
    ensures HeldInv(s')
  {
    assert forall r: nat :: r < |s.requests| ==> Live(s', r) == Live(s, r);
  }

  lemma FinalKeepsHeld(s: State)
    requires HeldInv(s) && Enabled(s, Deliver(true))
    ensures HeldInv(Delivered(s, true))
  {
    var s' := Delivered(s, true);
    assert Live(s, s.hand.value);
    assert s'.pending == Removed(s.pending, s.requests[s.hand.value].id);
    assert forall r: nat :: r < |s'.requests| && Live(s', r) ==> Live(s, r);
  }

  lemma DeliverKeepsAnswers(s: State, final: bool)
    requires HeldInv(s) && AnswerInv(s) && Enabled(s, Deliver(final))
    ensures AnswerInv(Delivered(s, final))
  {
    if final { FinalKeepsAnswers(s); }
  }

  lemma FinalKeepsAnswers(s: State)
    requires HeldInv(s) && AnswerInv(s) && Enabled(s, Deliver(true))
    ensures AnswerInv(Delivered(s, true))
  {
    var r := s.hand.value;
    assert Live(s, r);
    var s' := Delivered(s, true);
    assert Waiter(s.pending, s.requests[r].id) == if Deaf(s, r) then None else Some(r);
    forall id | id in s'.pending && s'.pending[id].Some? ensures Owns(s', s'.pending[id].value, id) {
      assert Owns(s, s.pending[id].value, id);
    }
  }

  lemma AbandonKeepsHeld(s: State, r: nat)
    requires HeldInv(s) && AnswerInv(s) && Enabled(s, Abandon(r))
    ensures HeldInv(Apply(s, Abandon(r)))
  {
    var slot := Waiter(s.pending, s.requests[r].id);
    if slot.Some? { assert Owns(s, slot.value, s.requests[r].id); }
  }

  lemma AbandonKeepsAnswers(s: State, r: nat)
    requires HeldInv(s) && AnswerInv(s) && Enabled(s, Abandon(r))
    ensures AnswerInv(Apply(s, Abandon(r)))
  {
    var slot := Waiter(s.pending, s.requests[r].id);
    if slot.Some? { assert Owns(s, slot.value, s.requests[r].id); }
  }

  lemma AddKeepsHeld(s: State, id: nat)
    requires HeldInv(s) && AnswerInv(s) && Enabled(s, Add(id))
    ensures var s' := Apply(s, Add(id)); HeldInv(s') && AnswerInv(s')
  {
    var s' := Apply(s, Add(id));
    assert forall r :: 0 <= r < |s.requests| ==> s'.requests[r] == s.requests[r];
    assert forall r: nat :: r < |s'.requests| && Live(s', r) && r < |s.requests| ==> Live(s, r);
  }

  lemma SendKeepsHeld(s: State, step: Step)
    requires HeldInv(s) && AnswerInv(s) && Enabled(s, step) && (step.Send? || step.ReadResponse?)
    ensures var s' := Apply(s, step); HeldInv(s') && AnswerInv(s')
  {
    assert Live(s, step.r);
  }

  lemma RemoveKeepsHeld(s: State, r: nat)
    requires HeldInv(s) && Enabled(s, RemoveUnsent(r))
    ensures HeldInv(Apply(s, RemoveUnsent(r)))
  {
    assert Live(s, r);
  }

  lemma RemoveKeepsAnswers(s: State, r: nat)
    requires HeldInv(s) && AnswerInv(s) && Enabled(s, RemoveUnsent(r))
    ensures AnswerInv(Apply(s, RemoveUnsent(r)))
  {
    assert Live(s, r);
  }

  lemma StepKeepsHeld(s: State, step: Step)
    requires HeldInv(s) && AnswerInv(s) && Enabled(s, step) && !step.RemoveStray? && !step.Close?
    ensures var s' := Apply(s, step); HeldInv(s') && AnswerInv(s')
  {
    match step
    case Deliver(final) => DeliverKeepsHeld(s, final); DeliverKeepsAnswers(s, final);
    case Abandon(r) => AbandonKeepsHeld(s, r); AbandonKeepsAnswers(s, r);
    case Add(id) => AddKeepsHeld(s, id);
    case RemoveUnsent(r) => RemoveKeepsHeld(s, r); RemoveKeepsAnswers(s, r);
    case _ => SendKeepsHeld(s, step);
  }

  lemma InvInductive()
    ensures Inductive(Init, Next, Inv)
  {
    forall s, s' | Inv(s) && Next(s, s') ensures Inv(s') {
      var step :| Enabled(s, step) && s' == Apply(s, step);
      StepKeepsServe(s, step);
      StepKeepsSlots(s, step);
      if s'.strays == 0 && !s'.closed { StepKeepsHeld(s, step); }
    }
  }

  // ---------------------------------------------------------------- theorems

  lemma Reached(run: seq<State>, i: nat)
    requires IsRun(Init, Next, run) && i < |run|
    ensures Inv(run[i])
  {
    InvInductive();
    InductiveHolds(Init, Next, Inv, run);
  }

  /** On every run, strays and the close included: the waiter that a response in hand finds is the request's own if and
      only if its id was not issued again while it could still be answered, and no response has gone to a stranger
      otherwise. */
  lemma AnswerGoesAstrayIff(run: seq<State>, i: nat, r: nat)
    requires IsRun(Init, Next, run) && i < |run|
    ensures run[i].hand == Some(r) ==> r < |run[i].requests|
    ensures run[i].hand == Some(r) && Waiter(run[i].pending, run[i].requests[r].id).Some? ==>
      (Waiter(run[i].pending, run[i].requests[r].id).value != r <==> r in run[i].reissued)
    ensures forall n :: 0 <= n < |run[i].delivered| && run[i].delivered[n].waiter != run[i].delivered[n].request ==>
      run[i].delivered[n].request in run[i].reissued
  {
    Reached(run, i);
    if run[i].hand == Some(r) { assert Live(run[i], r); }
  }

  /** Without a stray removal, up to the close, no id is issued again too early, so a response is handed to no other
      request than the one that was sent with its id. */
  lemma AnswersReachNoOther(run: seq<State>, i: nat)
    requires IsRun(Init, Next, run) && i < |run|
    requires run[i].strays == 0 && !run[i].closed
    ensures run[i].reissued == {} && Correct(run[i])
  {
    Reached(run, i);
    forall n | 0 <= n < |run[i].delivered| ensures run[i].delivered[n].waiter == run[i].delivered[n].request {
      AnswerGoesAstrayIff(run, i, run[i].delivered[n].request);
    }
  }

  /** On every run a response, chunk or final, finds its request waiting if and only if the request did not give up and
      its entry was neither tombstoned nor removed from under it. */
  lemma AnswerReachesItsRequestIff(run: seq<State>, i: nat, r: nat)
    requires IsRun(Init, Next, run) && i < |run|
    ensures run[i].hand == Some(r) ==>
      && r < |run[i].requests|
      && (Waiter(run[i].pending, run[i].requests[r].id) == Some(r)
          <==> r !in run[i].gaveUp && r !in run[i].silenced && r !in run[i].dropped)
    ensures run[i].strays == 0 && !run[i].closed && r in run[i].answered ==>
      (r in run[i].served <==> r !in run[i].gaveUp && r !in run[i].silenced)
  {
    Reached(run, i);
    if run[i].hand == Some(r) { assert Live(run[i], r); }
  }

  /** On every run passing a response on, chunk or final, hands it to its request if that still waits, to nobody if its
      entry is gone or a tombstone, and to a stranger if the id was issued again; a final one ends the entry besides. */
  lemma DeliveryIs(run: seq<State>, i: nat, final: bool, r: nat)
    requires IsRun(Init, Next, run) && i < |run| && Enabled(run[i], Deliver(final)) && run[i].hand == Some(r)
    ensures var s, s' := run[i], Apply(run[i], Deliver(final));
      && s'.hand.None?
      && (!Deaf(s, r) ==> s'.delivered == s.delivered + [Delivery(r, r)] && (final ==> r in s'.served && r !in s.served))
      && (Deaf(s, r) && r !in s.reissued ==> s'.delivered == s.delivered && s'.served == s.served)
      && (Deaf(s, r) ==> s'.delivered == s.delivered || exists w :: w != r && s'.delivered == s.delivered + [Delivery(r, w)])
      && (final ==> s.requests[r].id !in s'.pending && Is(s', r, Settled))
      && (!final ==> s'.pending == s.pending && s'.served == s.served)
  {
    Reached(run, i);
    var s := run[i];
    assert Live(s, r);
    var slot := Waiter(s.pending, s.requests[r].id);
    if Deaf(s, r) && slot.Some? { assert Owns(s, slot.value, s.requests[r].id) && slot.value != r; }
  }

  /** On every run a close tells every request that still waits for its answer, and leaves nobody in the table. */
  lemma CloseTellsEveryWaiter(run: seq<State>, i: nat, r: nat)
    requires IsRun(Init, Next, run) && i < |run| && Enabled(run[i], Close)
    ensures Apply(run[i], Close).pending == map[]
    ensures r < |run[i].requests| && Live(run[i], r) && !Deaf(run[i], r) ==>
      r in Apply(run[i], Close).served && r !in run[i].served
  {
    Reached(run, i);
    var s := run[i];
    if r < |s.requests| && Live(s, r) && !Deaf(s, r) {
      var id := s.requests[r].id;
      assert s.pending[id] == Some(r);
      assert r in Waiters(s.pending);
    }
  }

  /** On every run, with strays and after closing too, no waiter gets a second final answer. */
  lemma NobodyServedTwice(run: seq<State>, i: nat)
    requires IsRun(Init, Next, run) && i < |run|
    ensures !run[i].servedTwice
  {
    Reached(run, i);
  }

  /** An id is not issued again while a response to it may still arrive. */
  lemma IdNotReissued(run: seq<State>, i: nat, id: nat, r: nat)
    requires IsRun(Init, Next, run) && i < |run| && Enabled(run[i], Add(id))
    requires run[i].strays == 0 && !run[i].closed
    requires r < |run[i].requests| && Live(run[i], r)
    ensures run[i].requests[r].id != id
  {
    Reached(run, i);
  }

  /** Allocation always ends while fewer ids are taken than exist. */
  lemma FreeIdExists(modulus: nat, pending: map<nat, Slot>)
    requires |pending| + 1 < modulus
    ensures HasFreeId(modulus, pending)
  {
    if !HasFreeId(modulus, pending) {
      assert |pending| == |pending.Keys|;
      SubsetCount(Ids(modulus), pending.Keys);
    }
  }

  /** The `modulus - 1` usable ids. */
  ghost function Ids(modulus: nat): (ids: set<nat>)
    requires modulus >= 1
    ensures |ids| == modulus - 1
    ensures forall k :: k in ids <==> 0 < k < modulus
  {
    if modulus == 1 then {} else Ids(modulus - 1) + {modulus - 1}
  }

  lemma {:induction false} SubsetCount(a: set<nat>, b: set<nat>)
    requires a <= b
    ensures |a| <= |b|
  {
    if a != {} {
      var x :| x in a;
      SubsetCount(a - {x}, b - {x});
    }
  }

  // ---------------------------------------------------------------- why strays are excluded

  lemma Do(run: seq<State>, step: Step) returns (s: State, longer: seq<State>)
    requires IsRun(Init, Next, run) && Enabled(run[|run| - 1], step)
    ensures s == Apply(run[|run| - 1], step)
    ensures longer == run + [s] && IsRun(Init, Next, longer) && longer[0] == run[0]
  {
    s := Apply(run[|run| - 1], step);
    longer := run + [s];
    Extend(Init, Next, run, s);
  }

  /** Requests that fail before being sent move the id counter on and leave nothing else behind. */
  lemma {:induction false} Churn(run: seq<State>, times: nat) returns (s: State, longer: seq<State>)
    requires IsRun(Init, Next, run)
    requires var l := run[|run| - 1]; l.pending == map[] && l.lastId + times < l.modulus
    ensures IsRun(Init, Next, longer) && s == longer[|longer| - 1] && longer[0] == run[0]
    ensures var l := run[|run| - 1];
      && s == l.(lastId := l.lastId + times, requests := s.requests, reissued := s.reissued)
      && |l.requests| <= |s.requests| && s.requests[..|l.requests|] == l.requests
    decreases times
  {
    if times == 0 {
      return run[|run| - 1], run;
    }
    var l := run[|run| - 1];
    s, longer := Do(run, Add(l.lastId + 1));
    s, longer := Do(longer, RemoveUnsent(|l.requests|));
    assert s.pending == map[];
    s, longer := Churn(longer, times - 1);
  }

  /** One stray removal is enough: once the ids have gone round, the late answer reaches a stranger. */
  lemma StrayRemovalMisdelivers(modulus: nat)
    requires modulus >= 2
    ensures exists run: seq<State> ::
      && IsRun(Init, Next, run)
      && run[0].modulus == modulus && run[|run| - 1].strays == 1 && !run[|run| - 1].closed
      && !Correct(run[|run| - 1])
  {
    var s := State(modulus, 0, map[], [], None, [], {}, false, 0, false, {}, {}, {}, {}, {});
    var run := [s];
    s, run := Do(run, Add(1));
    s, run := Do(run, Send(0));
    s, run := Do(run, RemoveStray(0));
    assert s.pending == map[] && s.requests == [Request(1, Seen)];
    s, run := Churn(run, modulus - 2);
    assert s.lastId == modulus - 1 && s.requests[0] == Request(1, Seen) by { assert s.requests[..1][0] == s.requests[0]; }
    s, run := Do(run, Add(1));
    var stranger := |s.requests| - 1;
    assert s.pending[1] == Some(stranger) && stranger != 0;
    s, run := Do(run, ReadResponse(0));
    s, run := Do(run, Deliver(true));
    assert s.delivered[|s.delivered| - 1] == Delivery(0, stranger);
  }

  /** Closing ends the guarantee in the same way: the reader may still have one response in hand. */
  lemma CloseEndsTheGuarantee(modulus: nat)
    requires modulus >= 2
    ensures exists run: seq<State> ::
      && IsRun(Init, Next, run)
      && run[0].modulus == modulus && run[|run| - 1].strays == 0 && run[|run| - 1].closed
      && !Correct(run[|run| - 1])
  {
    var s := State(modulus, 0, map[], [], None, [], {}, false, 0, false, {}, {}, {}, {}, {});
    var run := [s];
    s, run := Do(run, Add(1));
    s, run := Do(run, Send(0));
    s, run := Do(run, ReadResponse(0));
    s, run := Do(run, Close);
    s, run := Churn(run, modulus - 2);
    assert s.lastId == modulus - 1 && s.requests[0] == Request(1, Seen) by { assert s.requests[..1][0] == s.requests[0]; }
    s, run := Do(run, Add(1));
    var stranger := |s.requests| - 1;
    assert s.pending[1] == Some(stranger) && stranger != 0;
    s, run := Do(run, Deliver(true));
    assert s.delivered[|s.delivered| - 1] == Delivery(0, stranger);
  }

  /** Someone's answer has come and gone although it was still waited for. */
  ghost predicate SomeoneUnheard(s: State) { exists r :: r in s.answered && r !in s.served && r !in s.gaveUp }

  /** A late give-up does silence a stranger: a request answered just before it gives up tombstones the next holder of
      its id, whose own answer is then dropped although it never gave up. */
  lemma LateGiveUpSilences(modulus: nat)
    requires modulus >= 2
    ensures exists run: seq<State> ::
      && IsRun(Init, Next, run)
      && run[0].modulus == modulus && run[|run| - 1].strays == 0 && !run[|run| - 1].closed
      && SomeoneUnheard(run[|run| - 1])
  {
    var s := State(modulus, 0, map[], [], None, [], {}, false, 0, false, {}, {}, {}, {}, {});
    var run := [s];
    s, run := Do(run, Add(1));
    s, run := Do(run, Send(0));
    s, run := Do(run, ReadResponse(0));
    s, run := Do(run, Deliver(true));
    assert s.pending == map[] && s.requests == [Request(1, Settled)];
    s, run := Churn(run, modulus - 2);
    assert s.lastId == modulus - 1 && s.requests[0] == Request(1, Settled) by { assert s.requests[..1][0] == s.requests[0]; }
    s, run := Do(run, Add(1));
    var holder := |s.requests| - 1;
    s, run := SilencedAnswer(run, holder);
    assert SomeoneUnheard(s);
  }

  lemma SilencedAnswer(run: seq<State>, holder: nat) returns (s: State, longer: seq<State>)
    requires IsRun(Init, Next, run)
    requires var l := run[|run| - 1];
      && 0 < holder == |l.requests| - 1 && l.requests[0] == Request(1, Settled) && l.requests[holder] == Request(1, Unsent)
      && l.pending == map[1 := Some(holder)] && l.hand.None? && holder !in l.gaveUp && holder !in l.served
    ensures IsRun(Init, Next, longer) && s == longer[|longer| - 1] && longer[0] == run[0]
    ensures holder in s.answered && holder !in s.served && holder !in s.gaveUp
    ensures s.strays == run[|run| - 1].strays && s.closed == run[|run| - 1].closed
  {
    s, longer := Do(run, Send(holder));
    s, longer := Do(longer, Abandon(0));
    s, longer := Do(longer, ReadResponse(holder));
    s, longer := Do(longer, Deliver(true));
  }
}
