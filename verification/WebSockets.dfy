/**
 WebSocket routing for one actor generation: the poll loop owns the routing table and fills the worker's mailbox, the
 worker runs the callbacks. Connection ids are not reused within a generation.
 */
module WebSockets {
  import opened Common
  import opened Runs

  type Id = nat

  /** Mailbox events. A stop event also records the sockets it detached (id to "can hibernate"), whether they were to
      hibernate, and whether its reason is sleep. `Connect` and `Disconnect` are the actor-connection lifecycle. */
  datatype Event =
    | Open(ws: Id) | Message(ws: Id) | Close(ws: Id, detached: bool)
    | Stop(owned: map<Id, bool>, hibernate: bool, sleep: bool)
    | Connect(id: Id) | Disconnect(id: Id)

  predicate About(e: Event, ws: Id) { (e.Open? || e.Message? || e.Close?) && e.ws == ws }

  predicate IsClose(e: Event, ws: Id) { e.Close? && e.ws == ws }

  // -- detaching every socket of a stopping actor

  datatype Owner = Owner(identity: nat, canHibernate: bool)

  predicate Hibernates(owner: Owner, identity: nat, hibernate: bool)
  {
    owner.identity == identity && hibernate && owner.canHibernate
  }

  ghost predicate Distinct(ids: seq<Id>) { forall i, j :: 0 <= i < j < |ids| ==> ids[i] != ids[j] }

  /** One pass over the table: every socket of the actor leaves it, through exactly one of the two lists. */
  method DetachActorWebSockets(table: map<Id, Owner>, identity: nat, hibernate: bool)
    returns (rest: map<Id, Owner>, closes: seq<Id>, commands: seq<Id>)
    ensures forall ws :: ws in rest <==> ws in table && table[ws].identity != identity
    ensures forall ws :: ws in rest ==> rest[ws] == table[ws]
    ensures Distinct(closes) && Distinct(commands)
    ensures forall ws :: ws in commands <==> ws in table && Hibernates(table[ws], identity, hibernate)
    ensures forall ws :: ws in closes <==>
      ws in table && table[ws].identity == identity && !Hibernates(table[ws], identity, hibernate)
  {
    rest, closes, commands := table, [], [];
    var left := table.Keys;
    while left != {}
      invariant left <= table.Keys
      invariant forall ws :: ws in rest <==> ws in table && (ws in left || table[ws].identity != identity)
      invariant forall ws :: ws in rest ==> rest[ws] == table[ws]
      invariant Distinct(closes) && Distinct(commands)
      invariant forall ws :: ws in commands <==> ws in table && ws !in left && Hibernates(table[ws], identity, hibernate)
      invariant forall ws :: ws in closes <==>
        ws in table && ws !in left && table[ws].identity == identity && !Hibernates(table[ws], identity, hibernate)
      decreases |left|
    {
      var ws :| ws in left;
      left := left - {ws};
      if table[ws].identity == identity {
        rest := rest - {ws};
        if hibernate && table[ws].canHibernate {
          commands := commands + [ws];
        } else {
          closes := closes + [ws];
        }
      }
    }
  }

  // -- the protocol

  datatype Worker = Ready | Rejected(ws: Id) | Gone

  /** `sent` are the events the poll loop has decided to deliver, of which the first `put` are in the mailbox and the
      first `taken` have been handled. `pending` are hibernate commands not yet submitted. `raw` are the connections
      that are WebSockets, `plain` the others; `accepted` were WebSockets at some time, `lifted` left by their
      connection's own close, and `slept` says that the worker left for a sleep. */
  datatype State = State(
    live: bool, broken: bool,
    owned: map<Id, bool>, known: set<Id>,
    sent: seq<Event>, put: nat, pending: Option<seq<Id>>, commands: seq<Id>,
    taken: nat, worker: Worker, raw: set<Id>, plain: set<Id>, disconnected: seq<Id>,
    accepted: set<Id>, lifted: set<Id>, slept: bool)

  datatype Step =
    | RouteOpen(ws: Id, canHibernate: bool) | RouteMessage(ws: Id) | RouteClose(ws: Id)
    | RouteConnect(id: Id) | RouteDisconnect(id: Id)
    | RouteStop(sleep: bool, draining: bool, closes: seq<Id>, hibernating: seq<Id>)
    | SubmitHibernate | HibernateFails | Put | Drop
    | Handle(reject: bool, order: seq<Id>) | Unroute | Quit(order: seq<Id>) | DetachAll | Remove

  predicate PollFree(s: State) { !s.broken && s.put == |s.sent| }

  predicate Goes(s: State, ws: Id, hibernate: bool) { ws in s.owned && hibernate && s.owned[ws] }

  predicate Stays(s: State, ws: Id, hibernate: bool) { ws in s.owned && !(hibernate && s.owned[ws]) }

  /** The two lists detaching produces, in some order of the table. */
  ghost predicate Detached(s: State, hibernate: bool, closes: seq<Id>, hibernating: seq<Id>)
  {
    && Distinct(closes) && Distinct(hibernating)
    && (forall ws :: ws in closes <==> Stays(s, ws, hibernate))
    && (forall ws :: ws in hibernating <==> Goes(s, ws, hibernate))
  }

  ghost predicate Enumerates(order: seq<Id>, ids: set<Id>)
  {
    Distinct(order) && forall id :: id in order <==> id in ids
  }

  ghost predicate Enabled(s: State, step: Step)
  {
    match step
    case RouteOpen(ws, _) => PollFree(s) && s.live && ws !in s.known
    case RouteMessage(ws) => PollFree(s) && ws in s.owned
    case RouteClose(ws) => PollFree(s) && ws in s.owned
    case RouteConnect(_) => PollFree(s) && s.live
    case RouteDisconnect(_) => PollFree(s) && s.live
    case RouteStop(sleep, draining, closes, hibernating) =>
      PollFree(s) && s.live && Detached(s, sleep && !draining, closes, hibernating)
    case SubmitHibernate => !s.broken && s.pending.Some?
    case HibernateFails => !s.broken && s.pending.Some?
    case Put => !s.broken && s.pending.None? && s.put < |s.sent|
    // The worker disappeared between the routing lookup and the actor lookup.
    case Drop =>
      !s.broken && s.pending.None? && !s.live && |s.sent| == s.put + 1
      && (s.sent[s.put].Message? || (s.sent[s.put].Close? && !s.sent[s.put].detached))
    case Handle(_, order) => s.worker.Ready? && s.taken < s.put <= |s.sent| && (s.sent[s.taken].Stop? ==> Enumerates(order, s.raw))
    case Unroute => s.worker.Rejected?
    case Quit(order) => s.worker.Ready? && Enumerates(order, s.raw)
    case DetachAll => s.worker.Gone?
    case Remove => s.worker.Gone?
  }

  function Closes(ids: seq<Id>): seq<Event>
  {
    seq(|ids|, i requires 0 <= i < |ids| => Close(ids[i], true))
  }

  function Send(s: State, e: Event): State { s.(sent := s.sent + [e]) }

  /** The worker is done: every connection goes, and the WebSockets among them hear about it unless it is a sleep. */
  function Leave(s: State, order: seq<Id>, sleep: bool): State
  {
    s.(worker := Gone, raw := {}, plain := {}, slept := s.slept || sleep,
       disconnected := if sleep then s.disconnected else s.disconnected + order)
  }

  function Handled(s: State, e: Event, reject: bool, order: seq<Id>): State
  {
    match e
    case Open(ws) =>
      if reject then s.(raw := s.raw - {ws}, plain := s.plain - {ws}, worker := Rejected(ws))
      else s.(raw := s.raw + {ws}, plain := s.plain - {ws}, accepted := s.accepted + {ws})
    case Message(_) => s
    case Close(ws, _) =>
      if ws in s.raw + s.plain
      then s.(raw := s.raw - {ws}, plain := s.plain - {ws}, disconnected := s.disconnected + [ws])
      else s
    case Stop(_, _, sleep) => Leave(s, order, sleep)
    case Connect(id) => if id in s.raw + s.plain then s else s.(plain := s.plain + {id})
    case Disconnect(id) => s.(raw := s.raw - {id}, plain := s.plain - {id},
                            lifted := if id in s.raw then s.lifted + {id} else s.lifted)
  }

  ghost function Apply(s: State, step: Step): State
    requires Enabled(s, step)
  {
    match step
    case RouteOpen(ws, can) => Send(s, Open(ws)).(owned := s.owned[ws := can], known := s.known + {ws})
    case RouteMessage(ws) => Send(s, Message(ws))
    case RouteClose(ws) => Send(s, Close(ws, false)).(owned := s.owned - {ws})
    case RouteConnect(id) => Send(s, Connect(id))
    case RouteDisconnect(id) => Send(s, Disconnect(id))
    case RouteStop(sleep, draining, closes, hibernating) =>
      s.(sent := s.sent + Closes(closes) + [Stop(s.owned, sleep && !draining, sleep)],
         owned := map[], pending := Some(hibernating))
    case SubmitHibernate => s.(commands := s.commands + s.pending.value, pending := None)
    case HibernateFails => s.(broken := true)
    case Put => s.(put := s.put + 1)
    case Drop => s.(sent := s.sent[..s.put])
    case Handle(reject, order) => Handled(s.(taken := s.taken + 1), s.sent[s.taken], reject, order)
    case Unroute => s.(owned := s.owned - {s.worker.ws}, worker := Ready)
    case Quit(order) => Leave(s, order, false)
    case DetachAll => s.(owned := map[])
    case Remove => s.(live := false)
  }

  /** The generation starts with the actor connections it was restored with. */
  ghost predicate Init(s: State)
  {
    s == State(true, false, map[], {}, [], 0, None, [], 0, Ready, {}, s.plain, [], {}, {}, false)
  }

  ghost predicate Next(s: State, s': State) { exists step :: Enabled(s, step) && s' == Apply(s, step) }

  // -- invariants

  /** Of two events about one socket, the later is not its Open and the earlier not its Close. */
  ghost predicate InOrder(sent: seq<Event>)
  {
    forall i, j, ws :: 0 <= i < j < |sent| && About(sent[i], ws) && About(sent[j], ws) ==>
      !sent[j].Open? && !sent[i].Close?
  }

  ghost predicate Unclosed(sent: seq<Event>, ws: Id)
  {
    forall i :: 0 <= i < |sent| ==> !IsClose(sent[i], ws)
  }

  ghost predicate Routing(s: State)
  {
    && s.taken <= s.put <= |s.sent|
    && InOrder(s.sent)
    && (forall i :: 0 <= i < |s.sent| && (s.sent[i].Open? || s.sent[i].Message? || s.sent[i].Close?) ==> s.sent[i].ws in s.known)
    && (forall ws :: ws in s.known ==> Open(ws) in s.sent)
    && (forall ws :: ws in s.owned ==> ws in s.known && Unclosed(s.sent, ws))
  }

  function Pending(s: State): seq<Id> { if s.pending.Some? then s.pending.value else [] }

  /** Sockets that hibernate are routed nowhere, have no Close, and are told so at most once. */
  ghost predicate Hibernation(s: State)
  {
    && Distinct(s.commands + Pending(s))
    && (forall ws :: ws in s.commands + Pending(s) ==> ws in s.known && ws !in s.owned && Unclosed(s.sent, ws))
  }

  ghost predicate ClosedBefore(sent: seq<Event>, n: nat, ws: Id)
  {
    exists i :: 0 <= i < n <= |sent| && sent[i] == Close(ws, true)
  }

  /** Every stop event in the queue has dealt with each socket it detached. */
  ghost predicate Stops(s: State)
  {
    && (s.pending.Some? ==> s.put < |s.sent|)
    && (forall n: nat, ws :: n < |s.sent| && s.sent[n].Stop? && ws in s.sent[n].owned ==>
          if s.sent[n].hibernate && s.sent[n].owned[ws]
          then ws in s.commands || (s.put <= n && ws in Pending(s))
          else ClosedBefore(s.sent, n, ws))
    && (forall n: nat :: n < |s.sent| && s.sent[n].Stop? && s.sent[n].hibernate ==> s.sent[n].sleep)
  }

  ghost predicate ClosedTaken(s: State, ws: Id) { exists i :: 0 <= i < s.taken <= |s.sent| && IsClose(s.sent[i], ws) }

  /** A connection that has been told is no longer a WebSocket of this worker. */
  ghost predicate Callbacks(s: State)
  {
    && s.taken <= |s.sent|
    && Distinct(s.disconnected)
    && (forall ws :: ws in s.disconnected ==> ws !in s.raw)
    && (!s.worker.Gone? ==> forall ws :: ws in s.disconnected ==> ClosedTaken(s, ws))
    && (s.worker.Gone? ==> s.raw == {} && s.plain == {})
  }

  /** Nobody is forgotten: a WebSocket is still there, has been told, left by its own close, or the actor sleeps. */
  ghost predicate Heard(s: State)
  {
    forall ws :: ws in s.accepted ==>
      OpenTaken(s, ws) && (ws in s.raw || ws in s.disconnected || ws in s.lifted || s.slept)
  }

  /** Where the callbacks come from: a handled Close, or a worker that left for another reason than sleep. */
  ghost predicate Causes(s: State)
  {
    && s.raw <= s.accepted && s.lifted <= s.accepted && s.raw !! s.lifted
    && (!s.worker.Gone? ==> !s.slept)
    && (forall ws :: ws in s.disconnected ==>
          ClosedTaken(s, ws) || (s.worker.Gone? && !s.slept && ws in s.accepted && ws !in s.lifted))
  }

  ghost predicate OpenTaken(s: State, ws: Id) { exists i :: 0 <= i < s.taken <= |s.sent| && s.sent[i] == Open(ws) }

  ghost predicate Inv(s: State) { Routing(s) && Hibernation(s) && Stops(s) && Callbacks(s) && Heard(s) && Causes(s) }

  // -- every step keeps them

  lemma SendKeepsRouting(s: State, s': State, e: Event)
    requires Routing(s) && s.put == |s.sent|
    requires s'.sent == s.sent + [e] && s'.put == s.put && s'.taken == s.taken
    requires s'.known == s.known + (if e.Open? then {e.ws} else {})
    requires s'.owned.Keys <= s.owned.Keys + (if e.Open? then {e.ws} else {})
    requires e.Open? ==> e.ws !in s.known
    requires e.Message? ==> e.ws in s.owned
    requires e.Close? ==> e.ws in s.owned && e.ws !in s'.owned
    ensures Routing(s')
  {
    forall ws | ws in s'.known ensures Open(ws) in s'.sent {
      if ws in s.known { assert Open(ws) in s.sent; } else { assert s'.sent[|s.sent|] == Open(ws); }
    }
    forall ws | ws in s'.owned ensures ws in s'.known && Unclosed(s'.sent, ws) {
      if ws in s.owned { assert Unclosed(s.sent, ws); } else { assert ws == e.ws && ws !in s.known; }
    }
  }

  lemma StopKeepsRouting(s: State, s': State, closes: seq<Id>, stop: Event)
    requires Routing(s) && s.put == |s.sent| && stop.Stop?
    requires Distinct(closes) && forall ws :: ws in closes ==> ws in s.owned
    requires s'.sent == s.sent + Closes(closes) + [stop] && s'.owned == map[]
    requires s'.put == s.put && s'.taken == s.taken && s'.known == s.known
    ensures Routing(s')
  {
    var n := |s.sent|;
    forall ws | ws in s'.known ensures Open(ws) in s'.sent {
      var i :| 0 <= i < n && s.sent[i] == Open(ws);
      assert s'.sent[i] == Open(ws);
    }
    forall i | n <= i < n + |closes| ensures s'.sent[i] == Close(closes[i - n], true) && closes[i - n] in s.owned {
      assert closes[i - n] in closes;
    }
    forall i, j, ws | 0 <= i < j < |s'.sent| && About(s'.sent[i], ws) && About(s'.sent[j], ws)
      ensures !s'.sent[j].Open? && !s'.sent[i].Close?
    {
      if i < n <= j { assert Unclosed(s.sent, ws); assert !IsClose(s.sent[i], ws); }
    }
  }

  lemma DropKeepsRouting(s: State)
    requires Routing(s) && |s.sent| == s.put + 1 && !s.sent[s.put].Open?
    ensures Routing(s.(sent := s.sent[..s.put]))
  {
    var s' := s.(sent := s.sent[..s.put]);
    forall ws | ws in s'.known ensures Open(ws) in s'.sent {
      var i :| 0 <= i < |s.sent| && s.sent[i] == Open(ws);
      assert s'.sent[i] == Open(ws);
    }
    forall ws | ws in s'.owned ensures Unclosed(s'.sent, ws) { assert Unclosed(s.sent, ws); }
  }

  predicate Routes(step: Step)
  {
    step.RouteOpen? || step.RouteMessage? || step.RouteClose? || step.RouteConnect? || step.RouteDisconnect?
  }

  /** The worker's handling of an event touches only its own part of the state. */
  lemma HandledFrame(s: State, e: Event, reject: bool, order: seq<Id>)
    ensures var r := Handled(s, e, reject, order);
      r == s.(worker := r.worker, raw := r.raw, plain := r.plain, disconnected := r.disconnected,
                 accepted := r.accepted, lifted := r.lifted, slept := r.slept)
  {
  }

  lemma HandleKeepsRest(s: State, step: Step)
    requires Enabled(s, step) && (step.Handle? || step.Quit?)
    ensures var r := Apply(s, step);
      && r == s.(taken := r.taken, worker := r.worker, raw := r.raw, plain := r.plain, disconnected := r.disconnected,
                 accepted := r.accepted, lifted := r.lifted, slept := r.slept)
      && r.taken == (if step.Handle? then s.taken + 1 else s.taken)
  {
    if step.Handle? { HandledFrame(s.(taken := s.taken + 1), s.sent[s.taken], step.reject, step.order); }
  }

  lemma QuietKeepsRouting(s: State, s': State)
    requires Routing(s) && s'.sent == s.sent && s'.known == s.known && s'.owned.Keys <= s.owned.Keys
    requires s'.taken <= s'.put <= |s'.sent|
    ensures Routing(s')
  {
  }

  lemma RouteKeepsRouting(s: State, step: Step)
    requires Routing(s) && Enabled(s, step) && Routes(step)
    ensures Routing(Apply(s, step))
  {
    var s' := Apply(s, step);
    SendKeepsRouting(s, s', s'.sent[|s.sent|]);
  }

  lemma OtherKeepsRouting(s: State, step: Step)
    requires Routing(s) && Enabled(s, step) && !Routes(step) && !step.RouteStop? && !step.Drop?
    requires !step.Handle? && !step.Quit?
    ensures Routing(Apply(s, step))
  {
    QuietKeepsRouting(s, Apply(s, step));
  }

  lemma RoutingKept(s: State, step: Step)
    requires Routing(s) && Enabled(s, step)
    ensures Routing(Apply(s, step))
  {
    if Routes(step) {
      RouteKeepsRouting(s, step);
    } else if step.RouteStop? {
      StopKeepsRouting(s, Apply(s, step), step.closes, Stop(s.owned, step.sleep && !step.draining, step.sleep));
    } else if step.Drop? {
      DropKeepsRouting(s);
    } else if step.Handle? || step.Quit? {
      HandleKeepsRest(s, step);
      QuietKeepsRouting(s, Apply(s, step));
    } else {
      OtherKeepsRouting(s, step);
    }
  }

  lemma DistinctJoin(a: seq<Id>, b: seq<Id>)
    requires Distinct(a) && Distinct(b) && forall x :: x in a ==> x !in b
    ensures Distinct(a + b)
  {
    forall i, j | 0 <= i < j < |a + b| ensures (a + b)[i] != (a + b)[j] {
      if i < |a| <= j { assert a[i] in a && b[j - |a|] in b; }
    }
  }

  /** Events about sockets that are still routed do not touch the hibernating ones. */
  lemma SendKeepsHibernation(s: State, s': State, e: Event)
    requires Hibernation(s) && Routing(s)
    requires s'.sent == s.sent + [e] && s'.commands == s.commands && s'.pending == s.pending
    requires s.known <= s'.known && forall ws :: ws in s'.owned ==> ws in s.owned || ws !in s.known
    requires e.Close? ==> e.ws in s.owned
    ensures Hibernation(s')
  {
    forall ws | ws in s'.commands + Pending(s') ensures ws in s'.known && ws !in s'.owned && Unclosed(s'.sent, ws) {
      assert ws in s.commands + Pending(s);
      assert Unclosed(s.sent, ws);
    }
  }

  lemma StopKeepsHibernation(s: State, s': State, hibernate: bool, closes: seq<Id>, hibernating: seq<Id>, stop: Event)
    requires Hibernation(s) && Routing(s) && s.pending.None? && Detached(s, hibernate, closes, hibernating) && stop.Stop?
    requires s'.sent == s.sent + Closes(closes) + [stop] && s'.owned == map[] && s'.known == s.known
    requires s'.commands == s.commands && s'.pending == Some(hibernating)
    ensures Hibernation(s')
  {
    forall ws | ws in s.commands ensures ws in s'.known && ws !in s.owned && Unclosed(s.sent, ws) {
      assert ws in s.commands + Pending(s);
    }
    assert forall ws :: ws in hibernating ==> Goes(s, ws, hibernate);
    assert s.commands + Pending(s) == s.commands;
    DistinctJoin(s.commands, hibernating);
    forall ws, i | ws in s'.commands + Pending(s') && 0 <= i < |s'.sent| ensures !IsClose(s'.sent[i], ws) {
      assert ws in s.commands || ws in hibernating;
      assert Unclosed(s.sent, ws);
      if |s.sent| <= i < |s.sent| + |closes| {
        assert closes[i - |s.sent|] in closes;
        assert Stays(s, closes[i - |s.sent|], hibernate);
      }
    }
  }

  lemma DropKeepsHibernation(s: State)
    requires Hibernation(s) && s.put <= |s.sent|
    ensures Hibernation(s.(sent := s.sent[..s.put]))
  {
    forall ws | ws in s.commands + Pending(s) ensures Unclosed(s.sent[..s.put], ws) {
      assert Unclosed(s.sent, ws);
    }
  }

  lemma QuietKeepsHibernation(s: State, s': State)
    requires Hibernation(s) && s'.commands + Pending(s') == s.commands + Pending(s)
    requires s'.sent == s.sent && s'.known == s.known && s'.owned.Keys <= s.owned.Keys
    ensures Hibernation(s')
  {
  }

  lemma RouteKeepsHibernation(s: State, step: Step)
    requires Routing(s) && Hibernation(s) && Enabled(s, step) && Routes(step)
    ensures Hibernation(Apply(s, step))
  {
    var s' := Apply(s, step);
    SendKeepsHibernation(s, s', s'.sent[|s.sent|]);
  }

  lemma StopStepKeepsHibernation(s: State, step: Step)
    requires Routing(s) && Hibernation(s) && s.pending.None? && Enabled(s, step) && step.RouteStop?
    ensures Hibernation(Apply(s, step))
  {
    var s' := Apply(s, step);
    StopKeepsHibernation(s, s', step.sleep && !step.draining, step.closes, step.hibernating, s'.sent[|s'.sent| - 1]);
  }

  lemma OtherKeepsHibernation(s: State, step: Step)
    requires Hibernation(s) && Enabled(s, step) && !Routes(step) && !step.RouteStop? && !step.Drop?
    requires !step.Handle? && !step.Quit?
    ensures Hibernation(Apply(s, step))
  {
    QuietKeepsHibernation(s, Apply(s, step));
  }

  lemma HibernationKept(s: State, step: Step)
    requires Routing(s) && Hibernation(s) && (PollFree(s) ==> s.pending.None?) && Enabled(s, step)
    ensures Hibernation(Apply(s, step))
  {
    if Routes(step) {
      RouteKeepsHibernation(s, step);
    } else if step.RouteStop? {
      StopStepKeepsHibernation(s, step);
    } else if step.Drop? {
      DropKeepsHibernation(s);
    } else if step.Handle? || step.Quit? {
      HandleKeepsRest(s, step);
      QuietKeepsHibernation(s, Apply(s, step));
    } else {
      OtherKeepsHibernation(s, step);
    }
  }

  lemma CarryClosed(s: State, s': State, n: nat, ws: Id)
    requires ClosedBefore(s.sent, n, ws) && n <= |s'.sent|
    requires forall i :: 0 <= i < n ==> s.sent[i] == s'.sent[i]
    ensures ClosedBefore(s'.sent, n, ws)
  {
    var i :| 0 <= i < n && s.sent[i] == Close(ws, true);
    assert s'.sent[i] == Close(ws, true);
  }

  /** Adding or dropping events after every stop event leaves the account of the stops as it was. */
  lemma StopsCarry(s: State, s': State)
    requires Stops(s) && s.put == s'.put && s'.commands == s.commands && s.pending.None? && s'.pending.None?
    requires s.sent <= s'.sent || s'.sent <= s.sent
    requires forall n :: |s.sent| <= n < |s'.sent| ==> !s'.sent[n].Stop?
    ensures Stops(s')
  {
    forall n: nat, ws | n < |s'.sent| && s'.sent[n].Stop? && ws in s'.sent[n].owned
      ensures if s'.sent[n].hibernate && s'.sent[n].owned[ws]
              then ws in s'.commands || (s'.put <= n && ws in Pending(s'))
              else ClosedBefore(s'.sent, n, ws)
    {
      assert n < |s.sent| && s.sent[n] == s'.sent[n];
      if !(s.sent[n].hibernate && s.sent[n].owned[ws]) { CarryClosed(s, s', n, ws); }
    }
  }

  lemma NewStop(s: State, s': State, hibernate: bool, sleep: bool, closes: seq<Id>, hibernating: seq<Id>)
    requires Stops(s) && Routing(s) && PollFree(s) && s.pending.None? && (hibernate ==> sleep)
    requires Detached(s, hibernate, closes, hibernating)
    requires s'.sent == s.sent + Closes(closes) + [Stop(s.owned, hibernate, sleep)] && s'.put == s.put
    requires s'.commands == s.commands && s'.pending == Some(hibernating)
    ensures Stops(s')
  {
    var last := |s.sent| + |closes|;
    forall n: nat, ws | n < |s'.sent| && s'.sent[n].Stop? && ws in s'.sent[n].owned
      ensures if s'.sent[n].hibernate && s'.sent[n].owned[ws]
              then ws in s'.commands || (s'.put <= n && ws in Pending(s'))
              else ClosedBefore(s'.sent, n, ws)
    {
      if n < |s.sent| {
        assert s.sent[n] == s'.sent[n];
        if !(s.sent[n].hibernate && s.sent[n].owned[ws]) { CarryClosed(s, s', n, ws); }
      } else {
        assert n == last;
        if hibernate && s.owned[ws] {
          assert Goes(s, ws, hibernate);
        } else {
          assert Stays(s, ws, hibernate);
          var k :| 0 <= k < |closes| && closes[k] == ws;
          assert s'.sent[|s.sent| + k] == Close(ws, true);
        }
      }
    }
  }

  lemma QuietKeepsStops(s: State, s': State)
    requires Stops(s) && s'.sent == s.sent && s'.put == s.put && s'.commands == s.commands && s'.pending == s.pending
    ensures Stops(s')
  {
  }

  lemma ProgressKeepsStops(s: State, step: Step)
    requires Stops(s) && Enabled(s, step) && (step.SubmitHibernate? || step.Put?)
    ensures Stops(Apply(s, step))
  {
    assert Apply(s, step).sent == s.sent;
  }

  lemma StopsKept(s: State, step: Step)
    requires Routing(s) && Stops(s) && Enabled(s, step)
    ensures Stops(Apply(s, step))
  {
    var s' := Apply(s, step);
    if step.RouteStop? {
      NewStop(s, s', step.sleep && !step.draining, step.sleep, step.closes, step.hibernating);
    } else if Routes(step) || step.Drop? {
      StopsCarry(s, s');
    } else if step.SubmitHibernate? || step.Put? {
      ProgressKeepsStops(s, step);
    } else if step.Handle? || step.Quit? {
      HandleKeepsRest(s, step);
      QuietKeepsStops(s, s');
    } else {
      QuietKeepsStops(s, s');
    }
  }

  /** The handled prefix only grows, and what follows it does not matter. */
  lemma CallbacksCarry(s: State, s': State)
    requires Callbacks(s) && s.taken <= s'.taken <= |s'.sent|
    requires forall i :: 0 <= i < s.taken ==> s.sent[i] == s'.sent[i]
    requires s'.raw <= s.raw && s'.plain == s.plain && s'.disconnected == s.disconnected && s'.worker.Gone? == s.worker.Gone?
    ensures Callbacks(s')
  {
    forall ws | !s'.worker.Gone? && ws in s'.disconnected ensures ClosedTaken(s', ws) {
      assert ClosedTaken(s, ws);
      var i :| 0 <= i < s.taken && IsClose(s.sent[i], ws);
      assert IsClose(s'.sent[i], ws);
    }
  }

  lemma LeaveKeepsCallbacks(s: State, order: seq<Id>, sleep: bool)
    requires Callbacks(s) && Enumerates(order, s.raw)
    ensures Callbacks(Leave(s, order, sleep))
  {
    DistinctJoin(s.disconnected, order);
  }

  /** Nothing about a socket is handled after its Close. */
  lemma NotYetDisconnected(s: State, ws: Id)
    requires Callbacks(s) && InOrder(s.sent) && !s.worker.Gone? && s.taken < |s.sent| && About(s.sent[s.taken], ws)
    ensures ws !in s.disconnected
  {
    if ws in s.disconnected {
      var i :| 0 <= i < s.taken && IsClose(s.sent[i], ws);
      assert About(s.sent[i], ws);
    }
  }

  lemma OpenKeepsCallbacks(s: State, ws: Id, reject: bool)
    requires Callbacks(s) && !s.worker.Gone? && ws !in s.disconnected
    ensures Callbacks(Handled(s, Open(ws), reject, []))
  {
    var s' := Handled(s, Open(ws), reject, []);
    forall w | w in s'.disconnected ensures ClosedTaken(s', w) { assert ClosedTaken(s, w); }
  }

  lemma CloseKeepsCallbacks(s: State, ws: Id, detached: bool)
    requires Callbacks(s) && !s.worker.Gone? && ws !in s.disconnected && ClosedTaken(s, ws)
    ensures Callbacks(Handled(s, Close(ws, detached), false, []))
  {
    var s' := Handled(s, Close(ws, detached), false, []);
    forall w | w in s'.disconnected ensures ClosedTaken(s', w) { assert ClosedTaken(s, w); }
  }

  lemma LifecycleKeepsCallbacks(s: State, e: Event)
    requires Callbacks(s) && !s.worker.Gone? && (e.Message? || e.Connect? || e.Disconnect?)
    ensures Callbacks(Handled(s, e, false, []))
  {
    var s' := Handled(s, e, false, []);
    forall w | w in s'.disconnected ensures ClosedTaken(s', w) { assert ClosedTaken(s, w); }
  }

  lemma HandleKeepsCallbacks(s: State, e: Event, reject: bool, order: seq<Id>)
    requires Callbacks(s) && InOrder(s.sent) && !s.worker.Gone? && s.taken < |s.sent| && e == s.sent[s.taken]
    requires e.Stop? ==> Enumerates(order, s.raw)
    ensures Callbacks(Handled(s.(taken := s.taken + 1), e, reject, order))
  {
    var later := s.(taken := s.taken + 1);
    CallbacksCarry(s, later);
    match e
    case Stop(_, _, sleep) => LeaveKeepsCallbacks(later, order, sleep);
    case Open(ws) =>
      NotYetDisconnected(s, ws);
      OpenKeepsCallbacks(later, ws, reject);
    case Close(ws, detached) =>
      NotYetDisconnected(s, ws);
      assert IsClose(later.sent[s.taken], ws);
      CloseKeepsCallbacks(later, ws, detached);
    case _ => LifecycleKeepsCallbacks(later, e);
  }

  lemma OtherKeepsCallbacks(s: State, step: Step)
    requires Callbacks(s) && s.taken <= s.put && Enabled(s, step) && !step.Handle? && !step.Quit?
    ensures Callbacks(Apply(s, step))
  {
    CallbacksCarry(s, Apply(s, step));
  }

  lemma HandleIs(s: State, step: Step)
    requires Enabled(s, step) && step.Handle?
    ensures Apply(s, step) == Handled(s.(taken := s.taken + 1), s.sent[s.taken], step.reject, step.order)
  {
  }

  lemma CallbacksKept(s: State, step: Step)
    requires InOrder(s.sent) && s.taken <= s.put <= |s.sent| && Callbacks(s) && Enabled(s, step)
    ensures Callbacks(Apply(s, step))
  {
    if step.Handle? {
      HandleKeepsCallbacks(s, s.sent[s.taken], step.reject, step.order);
      HandleIs(s, step);
    } else if step.Quit? {
      LeaveKeepsCallbacks(s, step.order, false);
    } else {
      OtherKeepsCallbacks(s, step);
    }
  }

  lemma OpenTakenCarries(s: State, s': State, ws: Id)
    requires OpenTaken(s, ws) && s.taken <= s'.taken <= |s'.sent|
    requires forall i :: 0 <= i < s.taken ==> s.sent[i] == s'.sent[i]
    ensures OpenTaken(s', ws)
  {
    var i :| 0 <= i < s.taken && s.sent[i] == Open(ws);
    assert s'.sent[i] == Open(ws);
  }

  lemma HeardCarries(s: State, s': State)
    requires Heard(s) && s.taken <= |s.sent| && s.taken <= s'.taken <= |s'.sent|
    requires forall i :: 0 <= i < s.taken ==> s.sent[i] == s'.sent[i]
    requires s'.raw == s.raw && s'.disconnected == s.disconnected && s'.accepted == s.accepted
    requires s'.lifted == s.lifted && s'.slept == s.slept
    ensures Heard(s')
  {
    forall ws | ws in s'.accepted ensures OpenTaken(s', ws) { OpenTakenCarries(s, s', ws); }
  }

  lemma NotYetAccepted(s: State, ws: Id)
    requires Heard(s) && InOrder(s.sent) && s.taken < |s.sent| && s.sent[s.taken] == Open(ws)
    ensures ws !in s.accepted
  {
    forall i | 0 <= i < s.taken ensures s.sent[i] != Open(ws) {
      assert About(s.sent[s.taken], ws) && About(Open(ws), ws);
    }
  }

  lemma LeaveKeepsHeard(s: State, order: seq<Id>, sleep: bool)
    requires Heard(s) && Enumerates(order, s.raw)
    ensures Heard(Leave(s, order, sleep))
  {
    var s' := Leave(s, order, sleep);
    forall ws | ws in s'.accepted ensures OpenTaken(s', ws) { OpenTakenCarries(s, s', ws); }
  }

  lemma HandledKeepsHeard(s: State, e: Event, reject: bool)
    requires Heard(s) && !e.Stop? && s.taken <= |s.sent|
    requires e.Open? ==> OpenTaken(s, e.ws) && (reject ==> e.ws !in s.accepted)
    ensures Heard(Handled(s, e, reject, []))
  {
    var s' := Handled(s, e, reject, []);
    forall ws | ws in s'.accepted ensures OpenTaken(s', ws) {
      if ws in s.accepted { OpenTakenCarries(s, s', ws); }
    }
  }

  lemma HandleKeepsHeard(s: State, e: Event, reject: bool, order: seq<Id>)
    requires Heard(s) && InOrder(s.sent) && s.taken < |s.sent| && e == s.sent[s.taken]
    requires e.Stop? ==> Enumerates(order, s.raw)
    ensures Heard(Handled(s.(taken := s.taken + 1), e, reject, order))
  {
    var later := s.(taken := s.taken + 1);
    HeardCarries(s, later);
    if e.Stop? {
      LeaveKeepsHeard(later, order, e.sleep);
    } else {
      if e.Open? {
        NotYetAccepted(s, e.ws);
        assert later.sent[s.taken] == Open(e.ws);
      }
      HandledKeepsHeard(later, e, reject);
    }
  }

  lemma OtherKeepsHeard(s: State, step: Step)
    requires Heard(s) && s.taken <= s.put <= |s.sent| && Enabled(s, step) && !step.Handle? && !step.Quit?
    ensures Heard(Apply(s, step))
  {
    HeardCarries(s, Apply(s, step));
  }

  lemma HeardKept(s: State, step: Step)
    requires InOrder(s.sent) && s.taken <= s.put <= |s.sent| && Heard(s) && Enabled(s, step)
    ensures Heard(Apply(s, step))
  {
    if step.Handle? {
      HandleKeepsHeard(s, s.sent[s.taken], step.reject, step.order);
      HandleIs(s, step);
    } else if step.Quit? {
      LeaveKeepsHeard(s, step.order, false);
    } else {
      OtherKeepsHeard(s, step);
    }
  }

  lemma ClosedCarries(s: State, s': State, ws: Id)
    requires ClosedTaken(s, ws) && s.taken <= s'.taken <= |s'.sent|
    requires forall i :: 0 <= i < s.taken ==> s.sent[i] == s'.sent[i]
    ensures ClosedTaken(s', ws)
  {
    var i :| 0 <= i < s.taken && IsClose(s.sent[i], ws);
    assert IsClose(s'.sent[i], ws);
  }

  lemma CausesCarry(s: State, s': State)
    requires Causes(s) && s.taken <= |s.sent| && s.taken <= s'.taken <= |s'.sent|
    requires forall i :: 0 <= i < s.taken ==> s.sent[i] == s'.sent[i]
    requires s'.raw == s.raw && s'.disconnected == s.disconnected && s'.accepted == s.accepted
    requires s'.lifted == s.lifted && s'.slept == s.slept && s'.worker.Gone? == s.worker.Gone?
    ensures Causes(s')
  {
    forall ws | ws in s'.disconnected && ClosedTaken(s, ws) ensures ClosedTaken(s', ws) { ClosedCarries(s, s', ws); }
  }

  lemma LeaveKeepsCauses(s: State, order: seq<Id>, sleep: bool)
    requires Causes(s) && !s.worker.Gone? && Enumerates(order, s.raw)
    ensures Causes(Leave(s, order, sleep))
  {
    var s' := Leave(s, order, sleep);
    forall ws | ws in s'.disconnected
      ensures ClosedTaken(s', ws) || (!s'.slept && ws in s'.accepted && ws !in s'.lifted)
    {
      if ws in s.disconnected { ClosedCarries(s, s', ws); }
    }
  }

  lemma HandledKeepsCauses(s: State, e: Event, reject: bool)
    requires Causes(s) && !s.worker.Gone? && !e.Stop? && s.taken <= |s.sent|
    requires e.Open? ==> e.ws !in s.accepted
    requires e.Close? ==> ClosedTaken(s, e.ws)
    ensures Causes(Handled(s, e, reject, []))
  {
    var s' := Handled(s, e, reject, []);
    forall ws | ws in s'.disconnected ensures ClosedTaken(s', ws) {
      if ws in s.disconnected { ClosedCarries(s, s', ws); } else { ClosedCarries(s, s', e.ws); }
    }
  }

  lemma HandleKeepsCauses(s: State, e: Event, reject: bool, order: seq<Id>)
    requires Causes(s) && Heard(s) && InOrder(s.sent) && !s.worker.Gone? && s.taken < |s.sent| && e == s.sent[s.taken]
    requires e.Stop? ==> Enumerates(order, s.raw)
    ensures Causes(Handled(s.(taken := s.taken + 1), e, reject, order))
  {
    var later := s.(taken := s.taken + 1);
    CausesCarry(s, later);
    if e.Stop? {
      LeaveKeepsCauses(later, order, e.sleep);
    } else {
      if e.Open? { NotYetAccepted(s, e.ws); }
      if e.Close? { assert IsClose(later.sent[s.taken], e.ws); }
      HandledKeepsCauses(later, e, reject);
    }
  }

  lemma OtherKeepsCauses(s: State, step: Step)
    requires Causes(s) && s.taken <= s.put <= |s.sent| && Enabled(s, step) && !step.Handle? && !step.Quit?
    ensures Causes(Apply(s, step))
  {
    CausesCarry(s, Apply(s, step));
  }

  lemma CausesKept(s: State, step: Step)
    requires InOrder(s.sent) && s.taken <= s.put <= |s.sent| && Heard(s) && Causes(s) && Enabled(s, step)
    ensures Causes(Apply(s, step))
  {
    if step.Handle? {
      HandleKeepsCauses(s, s.sent[s.taken], step.reject, step.order);
      HandleIs(s, step);
    } else if step.Quit? {
      LeaveKeepsCauses(s, step.order, false);
    } else {
      OtherKeepsCauses(s, step);
    }
  }

  lemma WorkerStepKept(s: State, step: Step)
    requires InOrder(s.sent) && s.taken <= s.put <= |s.sent| && Enabled(s, step)
    requires Callbacks(s) && Heard(s) && Causes(s)
    ensures Callbacks(Apply(s, step)) && Heard(Apply(s, step)) && Causes(Apply(s, step))
  {
    CallbacksKept(s, step);
    HeardKept(s, step);
    CausesKept(s, step);
  }

  lemma StepKeepsInv(s: State, step: Step)
    requires Inv(s) && Enabled(s, step)
    ensures Inv(Apply(s, step))
  {
    RoutingKept(s, step);
    HibernationKept(s, step);
    StopsKept(s, step);
    WorkerStepKept(s, step);
  }

  lemma InvInductive()
    ensures Inductive(Init, Next, Inv)
  {
    forall s, s' | Inv(s) && Next(s, s') ensures Inv(s') {
      var step :| Enabled(s, step) && s' == Apply(s, step);
      StepKeepsInv(s, step);
    }
  }

  lemma Reached(run: seq<State>, n: nat)
    requires IsRun(Init, Next, run) && n < |run|
    ensures Inv(run[n])
  {
    InvInductive();
    InductiveHolds(Init, Next, Inv, run);
  }

  // -- what every run keeps

  function Delivered(s: State): seq<Event> { if s.put <= |s.sent| then s.sent[..s.put] else s.sent }

  /** What routing passes on to the worker. */
  function Passed(s: State, step: Step): seq<Event>
  {
    match step
    case RouteOpen(ws, _) => [Open(ws)]
    case RouteMessage(ws) => [Message(ws)]
    case RouteClose(ws) => [Close(ws, false)]
    case RouteConnect(id) => [Connect(id)]
    case RouteDisconnect(id) => [Disconnect(id)]
    case RouteStop(sleep, draining, closes, _) =>
      seq(|closes|, i requires 0 <= i < |closes| => Close(closes[i], true)) + [Stop(s.owned, sleep && !draining, sleep)]
    case _ => []
  }

  /** As long as the worker lives nothing routed to it is withdrawn, and a socket that is not routed any more never is
      again. */
  ghost predicate Persists(s: State, s': State)
  {
    && (s'.live ==> s.live && s.sent <= s'.sent)
    && s.known <= s'.known && s.accepted <= s'.accepted
    && (forall ws :: ws in s.known && ws !in s.owned ==> ws !in s'.owned)
  }

  lemma RoutePersists(s: State, step: Step)
    requires Enabled(s, step) && !step.Handle? && !step.Quit?
    ensures Persists(s, Apply(s, step))
    ensures !step.Drop? ==> Apply(s, step).sent == s.sent + Passed(s, step)
  {
    if step.RouteStop? {
      assert s.sent + Closes(step.closes) + [Stop(s.owned, step.sleep && !step.draining, step.sleep)]
          == s.sent + Passed(s, step);
    }
  }

  lemma HandlePersists(s: State, e: Event, reject: bool, order: seq<Id>)
    ensures Persists(s, Handled(s, e, reject, order))
  {
  }

  lemma StepPersists(s: State, step: Step)
    requires Enabled(s, step)
    ensures Persists(s, Apply(s, step))
  {
    if step.Handle? {
      HandleIs(s, step);
      HandlePersists(s.(taken := s.taken + 1), s.sent[s.taken], step.reject, step.order);
    } else if !step.Quit? {
      RoutePersists(s, step);
    }
  }

  lemma PersistsOver(run: seq<State>, i: nat, j: nat)
    requires IsRun(Init, Next, run) && i <= j < |run|
    ensures Persists(run[i], run[j])
  {
    InvInductive();
    forall s, s' | Inv(s) && Next(s, s') ensures Persists(s, s') {
      var step :| Enabled(s, step) && s' == Apply(s, step);
      StepPersists(s, step);
    }
    StepwiseRelated(Init, Next, Inv, Persists, run, i, j);
  }

  /** Whatever is routed to a live worker is in its mailbox once the poll loop is free again, and in its place; a stop
      comes behind a Close for each socket it found that does not hibernate. */
  lemma RoutedArrives(run: seq<State>, i: nat, j: nat, step: Step)
    requires IsRun(Init, Next, run) && i < j < |run|
    requires Enabled(run[i], step) && run[i + 1] == Apply(run[i], step) && PollFree(run[i]) && PollFree(run[j])
    ensures run[j].live ==> Delivered(run[i]) + Passed(run[i], step) <= Delivered(run[j])
  {
    PersistsOver(run, i + 1, j);
    StepPersists(run[i], step);
    if Passed(run[i], step) != [] { RoutePersists(run[i], step); }
  }

  /** A step after which the socket is not routed: its own close, a stop, its rejection, or the worker's end. */
  predicate Unroutes(s: State, step: Step, ws: Id)
  {
    match step
    case RouteClose(id) => id == ws
    case RouteStop(_, _, _, _) => true
    case Unroute => s.worker == Rejected(ws)
    case DetachAll => true
    case _ => false
  }

  /** From such a step on, for the rest of every run, no event of the socket is routed to the worker. */
  lemma NeverRoutedAgain(run: seq<State>, i: nat, j: nat, step: Step, ws: Id)
    requires IsRun(Init, Next, run) && i < j < |run| && ws in run[i].known
    requires Enabled(run[i], step) && run[i + 1] == Apply(run[i], step) && Unroutes(run[i], step, ws)
    ensures ws !in run[j].owned && !Enabled(run[j], RouteMessage(ws)) && !Enabled(run[j], RouteClose(ws))
    ensures forall can :: !Enabled(run[j], RouteOpen(ws, can))
  {
    PersistsOver(run, i, i + 1);
    PersistsOver(run, i + 1, j);
  }

  /** A socket that the worker opened without rejecting it counts as accepted for the rest of every run. */
  lemma OpenedIsAccepted(run: seq<State>, i: nat, j: nat, ws: Id, order: seq<Id>)
    requires IsRun(Init, Next, run) && i < j < |run|
    requires Enabled(run[i], Handle(false, order)) && run[i + 1] == Apply(run[i], Handle(false, order))
    requires run[i].sent[run[i].taken] == Open(ws)
    ensures ws in run[i + 1].raw && ws in run[j].accepted
  {
    HandleIs(run[i], Handle(false, order));
    PersistsOver(run, i + 1, j);
  }

  // A closed socket is reported at once.

  ghost predicate RawUnclosed(s: State) { forall ws :: ws in s.raw ==> !ClosedTaken(s, ws) }

  lemma HandleKeepsUnclosed(s: State, e: Event, reject: bool, order: seq<Id>)
    requires RawUnclosed(s) && InOrder(s.sent) && s.taken < |s.sent| && e == s.sent[s.taken]
    ensures RawUnclosed(Handled(s.(taken := s.taken + 1), e, reject, order))
  {
    var s' := Handled(s.(taken := s.taken + 1), e, reject, order);
    HandledRaw(s.(taken := s.taken + 1), e, reject, order);
    forall ws | ws in s'.raw ensures !ClosedTaken(s', ws) {
      if i :| 0 <= i < s'.taken <= |s'.sent| && IsClose(s'.sent[i], ws) {
        assert About(s.sent[i], ws);
        if i < s.taken {
          assert ClosedTaken(s, ws);
          assert About(e, ws);
        }
      }
    }
  }

  lemma HandledRaw(s: State, e: Event, reject: bool, order: seq<Id>)
    ensures var s' := Handled(s, e, reject, order);
      && s'.sent == s.sent && s'.taken == s.taken
      && s'.raw <= s.raw + (if e.Open? && !reject then {e.ws} else {})
      && (e.Close? ==> e.ws !in s'.raw)
  {
  }

  lemma OtherKeepsUnclosed(s: State, step: Step)
    requires RawUnclosed(s) && s.taken <= s.put <= |s.sent| && Enabled(s, step) && !step.Handle?
    ensures RawUnclosed(Apply(s, step))
  {
    var s' := Apply(s, step);
    if step.Quit? {
      assert s'.raw == {};
    } else {
      OtherFrame(s, step);
      forall ws | ws in s'.raw ensures !ClosedTaken(s', ws) {
        if ClosedTaken(s', ws) { ClosedCarries(s', s, ws); }
      }
    }
  }

  lemma OtherFrame(s: State, step: Step)
    requires s.taken <= s.put <= |s.sent| && Enabled(s, step) && !step.Handle? && !step.Quit?
    ensures var s' := Apply(s, step);
      s'.raw == s.raw && s'.taken == s.taken <= |s'.sent| && forall i :: 0 <= i < s.taken ==> s'.sent[i] == s.sent[i]
  {
  }

  ghost predicate ReportInv(s: State) { Inv(s) && RawUnclosed(s) }

  lemma ReportInductive()
    ensures Inductive(Init, Next, ReportInv)
  {
    InvInductive();
    forall s, s' | ReportInv(s) && Next(s, s') ensures ReportInv(s') {
      var step :| Enabled(s, step) && s' == Apply(s, step);
      if step.Handle? {
        HandleIs(s, step);
        HandleKeepsUnclosed(s, s.sent[s.taken], step.reject, step.order);
      } else {
        OtherKeepsUnclosed(s, step);
      }
    }
  }

  /** On every run an accepted socket whose Close the worker has handled has been reported as disconnected, unless its
      connection had been closed on its own or the worker has left for a sleep. */
  lemma ClosedIsReported(run: seq<State>, n: nat, ws: Id)
    requires IsRun(Init, Next, run) && n < |run| && ws in run[n].accepted && ClosedTaken(run[n], ws)
    ensures ws in run[n].disconnected || ws in run[n].lifted || run[n].slept
  {
    ReportInductive();
    InductiveHolds(Init, Next, ReportInv, run);
    assert ReportInv(run[n]);
  }

  /** Per socket the mailbox holds its Open first and only there, then messages, then at most one Close with nothing
      about that socket after it. */
  lemma MailboxOrder(run: seq<State>, n: nat, ws: Id)
    requires IsRun(Init, Next, run) && n < |run|
    ensures var box := Delivered(run[n]);
      && (forall j :: 0 <= j < |box| && About(box[j], ws) ==>
            (box[j].Open? <==> forall i :: 0 <= i < j ==> !About(box[i], ws)))
      && (forall i, j :: 0 <= i < j < |box| && IsClose(box[i], ws) ==> !About(box[j], ws))
  {
    Reached(run, n);
    var s := run[n];
    var box := Delivered(s);
    forall j | 0 <= j < |box| && About(box[j], ws)
      ensures box[j].Open? <==> forall i :: 0 <= i < j ==> !About(box[i], ws)
    {
      assert box[j] == s.sent[j];
      if !box[j].Open? {
        assert ws in s.known;
        var i :| 0 <= i < |s.sent| && s.sent[i] == Open(ws);
        assert About(s.sent[i], ws) && i < j;
        assert About(box[i], ws);
      }
    }
  }

  /** When a stop event is in the mailbox, each socket it detached got exactly one of the two: a hibernate command, if
      the stop is a sleep outside a drain and the socket can hibernate, or else one Close queued before the stop. */
  lemma StopSettlesEverySocket(run: seq<State>, n: nat, at: nat, ws: Id)
    requires IsRun(Init, Next, run) && n < |run| && at < run[n].put
    requires at < |run[n].sent| && run[n].sent[at].Stop? && ws in run[n].sent[at].owned
    ensures var s, stop := run[n], run[n].sent[at];
      if stop.hibernate && stop.owned[ws]
      then ws in s.commands && Unclosed(s.sent, ws)
      else ws !in s.commands && ClosedBefore(s.sent, at, ws)
    ensures Distinct(run[n].commands)
    ensures forall i, j :: 0 <= i < j < |run[n].sent| && IsClose(run[n].sent[i], ws) ==> !IsClose(run[n].sent[j], ws)
  {
    Reached(run, n);
    var s := run[n];
    if ws in s.commands { assert ws in s.commands + Pending(s); }
    forall i, j | 0 <= i < j < |s.commands| ensures s.commands[i] != s.commands[j] {
      assert (s.commands + Pending(s))[i] == s.commands[i] && (s.commands + Pending(s))[j] == s.commands[j];
    }
    forall i, j | 0 <= i < j < |s.sent| && IsClose(s.sent[i], ws) ensures !IsClose(s.sent[j], ws) {
      assert About(s.sent[i], ws);
      if IsClose(s.sent[j], ws) { assert About(s.sent[j], ws); }
    }
  }

  /** OnDisconnect runs at most once per connection; and once the worker is gone for another reason than sleep it has
      run for every WebSocket that was accepted, except those whose connection was closed on its own. */
  lemma DisconnectedOnce(run: seq<State>, n: nat)
    requires IsRun(Init, Next, run) && n < |run|
    ensures forall i, j :: 0 <= i < j < |run[n].disconnected| ==> run[n].disconnected[i] != run[n].disconnected[j]
    ensures run[n].worker.Gone? && !run[n].slept ==>
      forall ws :: ws in run[n].accepted && ws !in run[n].lifted ==> ws in run[n].disconnected
  {
    Reached(run, n);
  }

  /** A socket that was told to hibernate is reported as disconnected if and only if its worker has left for another
      reason than sleep while the socket was still connected: a worker that handles its sleep stop never reports it. */
  lemma HibernatingSocketReportedIff(run: seq<State>, n: nat, ws: Id)
    requires IsRun(Init, Next, run) && n < |run| && ws in run[n].commands
    ensures ws in run[n].disconnected <==>
      run[n].worker.Gone? && !run[n].slept && ws in run[n].accepted && ws !in run[n].lifted
  {
    Reached(run, n);
    var s := run[n];
    assert ws in s.commands + Pending(s);
    assert !ClosedTaken(s, ws) by { assert Unclosed(s.sent, ws); }
  }

  /** The reporting case is reachable: the worker quits between the hibernate command and its sleep stop. */
  lemma QuitReportsHibernatingSocket()
    ensures exists run: seq<State> :: IsRun(Init, Next, run) && 1 in run[|run| - 1].commands && 1 in run[|run| - 1].disconnected
  {
    var s := State(true, false, map[], {}, [], 0, None, [], 0, Ready, {}, {}, [], {}, {}, false);
    var run := [s];
    s, run := Do(run, RouteOpen(1, true));
    s, run := Do(run, Put);
    s, run := Do(run, Handle(false, []));
    assert s.raw == {1} && s.owned == map[1 := true] && s.put == |s.sent|;
    s, run := HibernateThenQuit(run);
  }

  lemma HibernateThenQuit(run: seq<State>) returns (s: State, longer: seq<State>)
    requires IsRun(Init, Next, run)
    requires var l := run[|run| - 1];
      PollFree(l) && l.live && l.pending.None? && l.worker.Ready? && l.raw == {1} && l.owned == map[1 := true]
    ensures IsRun(Init, Next, longer) && s == longer[|longer| - 1] && 1 in s.commands && 1 in s.disconnected
  {
    var l := run[|run| - 1];
    assert Detached(l, true, [], [1]) by {
      assert forall ws :: Goes(l, ws, true) <==> ws == 1;
      assert forall ws :: !Stays(l, ws, true);
    }
    s, longer := Do(run, RouteStop(true, false, [], [1]));
    s, longer := Do(longer, SubmitHibernate);
    assert Enumerates([1], s.raw);
    s, longer := Do(longer, Quit([1]));
  }

  lemma Do(run: seq<State>, step: Step) returns (s: State, longer: seq<State>)
    requires IsRun(Init, Next, run) && Enabled(run[|run| - 1], step)
    ensures s == Apply(run[|run| - 1], step)
    ensures longer == run + [s] && IsRun(Init, Next, longer)
  {
    s := Apply(run[|run| - 1], step);
    longer := run + [s];
    Extend(Init, Next, run, s);
  }
}
