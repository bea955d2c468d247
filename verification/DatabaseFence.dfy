/**
 Lifecycle of one actor generation's SQLite handle: admission counter, the single transaction lease, the sleep
 fence that may reopen, and the one-shot close. Any number of operations run concurrently with at most one
 sleep request (its intent mutex admits one) and the one closer. Steps are mutex sections, compare-and-swaps
 and the start or end of a backend call; backend calls may fail.
 */
module DatabaseFence {
  import opened Common
  import opened Runs

  // ---------------------------------------------------------------- the handle's mutex sections

  /** The fields guarded by the lifecycle mutex. */
  datatype Db = Db(closing: bool, sleepPrepared: bool, active: nat, beginning: bool, transactions: set<nat>)

  predicate Admits(db: Db) { !db.closing && !db.sleepPrepared }

  predicate CanReserve(db: Db) { !db.beginning && db.transactions == {} }

  function Resumed(db: Db): Db { if db.closing then db else db.(sleepPrepared := false) }

  /** The mutex sections as functions of the handle's fields; the steps below are made of them. */
  function Entered(db: Db): Db { db.(active := db.active + 1) }

  function Left(db: Db): Db
    requires db.active > 0
  {
    db.(active := db.active - 1)
  }

  function Reserved(db: Db): Db { db.(beginning := true) }

  function Unreserved(db: Db): Db { db.(beginning := false) }

  function Registered(db: Db, lease: nat): Db { db.(transactions := db.transactions + {lease}) }

  function Unregistered(db: Db, lease: nat): Db { db.(transactions := db.transactions - {lease}) }

  function Fenced(db: Db): Db { db.(sleepPrepared := true) }

  function ClosingNow(db: Db): Db { db.(closing := true) }

  /** The same sections as the code runs them. */
  class Handle {
    var closing: bool
    var sleepPrepared: bool
    var active: nat
    var beginning: bool
    var transactions: set<nat>

    constructor ()
      ensures View() == Db(false, false, 0, false, {})
    {
      closing, sleepPrepared, active, beginning, transactions := false, false, 0, false, {};
    }

    function View(): Db reads this { Db(closing, sleepPrepared, active, beginning, transactions) }

    method BeginOperation() returns (ok: bool)
      modifies this`active
      ensures ok == Admits(old(View()))
      ensures View() == if ok then Entered(old(View())) else old(View())
    {
      if closing || sleepPrepared { return false; }
      active := active + 1;
      return true;
    }

    method FinishOperation() returns (wake: bool)
      requires active > 0
      modifies this`active
      ensures View() == Left(old(View()))
      ensures wake <==> active == 0
    {
      active := active - 1;
      return active == 0;
    }

    method Reserve() returns (ok: bool)
      modifies this`beginning
      ensures ok == CanReserve(old(View()))
      ensures View() == if ok then Reserved(old(View())) else old(View())
    {
      if beginning || transactions != {} { return false; }
      beginning := true;
      return true;
    }

    method Register(lease: nat) returns (ok: bool)
      modifies this`transactions
      ensures ok == Admits(old(View()))
      ensures View() == if ok then Registered(old(View()), lease) else old(View())
    {
      if closing || sleepPrepared { return false; }
      transactions := transactions + {lease};
      return true;
    }

    /** `None` is an error, otherwise whether this call raised the fence and which leases it must roll back. */
    method FenceForSleep() returns (outcome: Option<(bool, set<nat>)>)
      modifies this`sleepPrepared
      ensures old(closing) ==> outcome == None && View() == old(View())
      ensures !old(closing) && old(sleepPrepared) ==> outcome == Some((false, {})) && View() == old(View())
      ensures Admits(old(View())) ==>
        outcome == Some((true, transactions)) && View() == Fenced(old(View()))
    {
      if closing { return None; }
      if sleepPrepared { return Some((false, {})); }
      sleepPrepared := true;
      return Some((true, transactions));
    }

    method ResumeAfterSleepFailure()
      modifies this`sleepPrepared
      ensures View() == Resumed(old(View()))
    {
      if !closing { sleepPrepared := false; }
    }

    method Unreserve()
      modifies this`beginning
      ensures View() == Unreserved(old(View()))
    {
      beginning := false;
    }

    method Unregister(lease: nat)
      modifies this`transactions
      ensures View() == Unregistered(old(View()), lease)
    {
      transactions := transactions - {lease};
    }

    /** The leases found open are the ones the close must roll back. */
    method BeginClose() returns (open: set<nat>)
      modifies this`closing
      ensures View() == ClosingNow(old(View())) && open == old(transactions)
    {
      closing := true;
      return transactions;
    }
  }

  // ---------------------------------------------------------------- operations, sleeper, closer

  /** An admitted operation. `End` is a transaction's own commit or rollback. */
  datatype Operation =
    | Statement
    | BeginAdmitted | BackendBegin(lease: nat) | Began(lease: nat) | BeginRollsBack(lease: nat) | BeginReturns
    | EndAdmitted(lease: nat) | EndCalls(lease: nat) | EndUnregisters(lease: nat) | Leaving

  /** Rolling back the leases found open, then waiting for admitted operations. */
  datatype Drain =
    | NotDraining
    | Draining(todo: set<nat>) | RollingBack(lease: nat, todo: set<nat>) | Unregistering(lease: nat, todo: set<nat>)
    | Drained

  datatype Sleeper = Awake | Preparing(drain: Drain, failed: bool) | Requesting(preparedNow: bool)

  datatype Closer = NotClosing | Closing(drain: Drain) | Closed

  datatype State = State(
    db: Db,
    ops: map<nat, Operation>,
    terminal: set<nat>,
    sleeper: Sleeper,
    closer: Closer,
    accepted: bool,
    began: set<nat>,
    handed: set<nat>,
    endCalls: multiset<nat>,
    endReturned: set<nat>,
    nextLease: nat,
    backendCloses: nat)

  datatype Step =
    | Admit(op: nat, what: Operation)
    | Advance(op: nat, ok: bool)
    | Finish(op: nat)
    | Sleep | SleepDrains(lease: nat, ok: bool) | SleepAnswered(accepts: bool)
    | Close | CloseDrains(lease: nat, ok: bool) | CloseBackend

  function Rest(d: Drain): set<nat>
  {
    match d
    case Draining(todo) => todo
    case RollingBack(_, todo) => todo
    case Unregistering(_, todo) => todo
    case _ => {}
  }

  predicate DrainEnabled(s: State, d: Drain, lease: nat)
  {
    match d
    case Draining(todo) => if todo == {} then s.db.active == 0 else lease in todo
    case RollingBack(_, _) => true
    case Unregistering(_, _) => true
    case _ => false
  }

  /** One step of a drain: the next lease is skipped if someone already ended it. */
  function DrainStep(s: State, d: Drain, lease: nat): (State, Drain)
    requires DrainEnabled(s, d, lease)
  {
    match d
    case Draining(todo) =>
      if todo == {} then (s, Drained)
      else if lease in s.terminal then (s, Draining(todo - {lease}))
      else (s.(terminal := s.terminal + {lease}, endCalls := s.endCalls + multiset{lease}), RollingBack(lease, todo - {lease}))
    case RollingBack(l, todo) => (s.(endReturned := s.endReturned + {l}), Unregistering(l, todo))
    case Unregistering(l, todo) => (s.(db := Unregistered(s.db, l)), Draining(todo))
  }

  predicate Enabled(s: State, step: Step)
  {
    match step
    case Admit(op, what) =>
      && op !in s.ops && Admits(s.db)
      && (what.Statement? || what.BeginAdmitted? || (what.EndAdmitted? && what.lease in s.handed))
    case Advance(op, _) => op in s.ops && !s.ops[op].Leaving?
    case Finish(op) => op in s.ops && s.ops[op].Leaving? && s.db.active > 0
    case Sleep => s.sleeper.Awake?
    case SleepDrains(lease, _) => s.sleeper.Preparing? && DrainEnabled(s, s.sleeper.drain, lease)
    case SleepAnswered(_) => s.sleeper.Requesting?
    case Close => s.closer.NotClosing?
    case CloseDrains(lease, _) => s.closer.Closing? && DrainEnabled(s, s.closer.drain, lease)
    case CloseBackend => s.closer == Closing(Drained)
  }

  /** Where an operation goes next. */
  function After(s: State, what: Operation, ok: bool): Operation
  {
    match what
    case Statement => Leaving
    case BeginAdmitted => if CanReserve(s.db) then BackendBegin(s.nextLease) else Leaving
    case BackendBegin(lease) => if ok then Began(lease) else BeginReturns
    case Began(lease) => if Admits(s.db) then BeginReturns else BeginRollsBack(lease)
    case BeginRollsBack(lease) => BeginReturns
    case BeginReturns => Leaving
    case EndAdmitted(lease) => if lease in s.terminal then Leaving else EndCalls(lease)
    case EndCalls(lease) => EndUnregisters(lease)
    case EndUnregisters(lease) => Leaving
    case Leaving => Leaving
  }

  /** What it does to everything but itself on the way. */
  function Effect(s: State, what: Operation, ok: bool): State
  {
    match what
    case BeginAdmitted =>
      if CanReserve(s.db) then s.(db := Reserved(s.db), nextLease := s.nextLease + 1) else s
    case BackendBegin(lease) => if ok then s.(began := s.began + {lease}) else s
    case Began(lease) =>
      if Admits(s.db)
      then s.(db := Registered(s.db, lease), handed := s.handed + {lease})
      else s.(endCalls := s.endCalls + multiset{lease})
    case BeginRollsBack(lease) => s.(terminal := s.terminal + {lease}, endReturned := s.endReturned + {lease})
    case BeginReturns => s.(db := Unreserved(s.db))
    case EndAdmitted(lease) =>
      if lease in s.terminal then s
      else s.(terminal := s.terminal + {lease}, endCalls := s.endCalls + multiset{lease})
    case EndCalls(lease) => s.(endReturned := s.endReturned + {lease})
    case EndUnregisters(lease) => s.(db := Unregistered(s.db, lease))
    case _ => s
  }

  function Advanced(s: State, op: nat, ok: bool): State
    requires op in s.ops
  {
    Effect(s, s.ops[op], ok).(ops := s.ops[op := After(s, s.ops[op], ok)])
  }

  function Apply(s: State, step: Step): State
    requires Enabled(s, step)
  {
    match step
    case Admit(op, what) => s.(ops := s.ops[op := what], db := Entered(s.db))
    case Advance(op, ok) => Advanced(s, op, ok)
    case Finish(op) => s.(ops := s.ops - {op}, db := Left(s.db))
    case Sleep =>
      if s.db.closing then s
      else if s.db.sleepPrepared then s.(sleeper := Requesting(false))
      else s.(db := Fenced(s.db), sleeper := Preparing(Draining(s.db.transactions), false))
    case SleepDrains(lease, ok) =>
      var (t, d) := DrainStep(s, s.sleeper.drain, lease);
      var failed := s.sleeper.failed || (s.sleeper.drain.RollingBack? && !ok);
      if !d.Drained? then t.(sleeper := Preparing(d, failed))
      else if failed then t.(db := Resumed(t.db), sleeper := Awake)
      else t.(sleeper := Requesting(true))
    case SleepAnswered(accepts) =>
      if accepts then s.(accepted := true, sleeper := Awake)
      else if s.sleeper.preparedNow then s.(db := Resumed(s.db), sleeper := Awake)
      else s.(sleeper := Awake)
    case Close => s.(db := ClosingNow(s.db), closer := Closing(Draining(s.db.transactions)))
    case CloseDrains(lease, _) =>
      var (t, d) := DrainStep(s, s.closer.drain, lease);
      t.(closer := Closing(d))
    case CloseBackend => s.(closer := Closed, backendCloses := s.backendCloses + 1)
  }

  ghost predicate Init(s: State)
  {
    s == State(Db(false, false, 0, false, {}), map[], {}, Awake, NotClosing, false, {}, {}, multiset{}, {}, 0, 0)
  }

  ghost predicate Next(s: State, s': State) { exists step :: Enabled(s, step) && s' == Apply(s, step) }

  // ---------------------------------------------------------------- admission and close

  ghost predicate AdmissionInv(s: State)
  {
    && s.db.active == |s.ops|
    && (!s.closer.NotClosing? <==> s.db.closing)
    && (s.closer.Closed? || s.closer == Closing(Drained) ==> s.ops == map[])
    && s.backendCloses == (if s.closer.Closed? then 1 else 0)
  }

  /** What an operation's own progress leaves alone. */
  lemma AdvanceFrame(s: State, op: nat, ok: bool)
    requires op in s.ops
    ensures var s' := Advanced(s, op, ok);
      && |s'.ops| == |s.ops| && s'.ops.Keys == s.ops.Keys
      && s'.db.active == s.db.active && s'.db.closing == s.db.closing && s'.db.sleepPrepared == s.db.sleepPrepared
      && s'.closer == s.closer && s'.sleeper == s.sleeper && s'.accepted == s.accepted
      && s'.backendCloses == s.backendCloses
  {
    SameKeys(s.ops, op, After(s, s.ops[op], ok));
  }

  lemma SameKeys(ops: map<nat, Operation>, op: nat, what: Operation)
    requires op in ops
    ensures ops[op := what].Keys == ops.Keys && |ops[op := what]| == |ops|
  {
    assert ops[op := what].Keys == ops.Keys;
    assert |ops[op := what]| == |ops[op := what].Keys| && |ops| == |ops.Keys|;
  }

  /** What a drain leaves alone. */
  lemma DrainFrame(s: State, d: Drain, lease: nat)
    requires DrainEnabled(s, d, lease)
    ensures var s' := DrainStep(s, d, lease).0;
      && s'.ops == s.ops
      && s'.db == s.db.(transactions := s'.db.transactions)
      && s'.closer == s.closer && s'.sleeper == s.sleeper && s'.accepted == s.accepted
      && s'.backendCloses == s.backendCloses && s'.began == s.began && s'.handed == s.handed && s'.nextLease == s.nextLease
    ensures DrainStep(s, d, lease).1.Drained? ==> s.db.active == 0
  {
  }

  lemma FinishCounts(s: State, op: nat)
    requires op in s.ops
    ensures |s.ops - {op}| == |s.ops| - 1
  {
    assert s.ops.Keys == (s.ops - {op}).Keys + {op};
    assert |s.ops| == |s.ops.Keys| && |s.ops - {op}| == |(s.ops - {op}).Keys|;
  }

  lemma AdmitCounts(s: State, op: nat, what: Operation)
    requires op !in s.ops
    ensures |s.ops[op := what]| == |s.ops| + 1
  {
    assert s.ops[op := what].Keys == s.ops.Keys + {op};
    assert |s.ops| == |s.ops.Keys| && |s.ops[op := what]| == |s.ops[op := what].Keys|;
  }

  lemma StepKeepsAdmission(s: State, step: Step)
    requires AdmissionInv(s) && Enabled(s, step)
    ensures AdmissionInv(Apply(s, step))
  {
    match step
    case Admit(op, what) => AdmitCounts(s, op, what);
    case Advance(op, ok) => AdvanceFrame(s, op, ok);
    case Finish(op) => FinishCounts(s, op);
    case SleepDrains(lease, _) => DrainFrame(s, s.sleeper.drain, lease);
    case CloseDrains(lease, _) => DrainFrame(s, s.closer.drain, lease);
    case _ =>
  }

  /** The counter is the number of admitted unfinished operations; the backend is closed at most once, with none in
      flight, and none is admitted afterwards. */
  lemma CloseExcludesOperations(run: seq<State>, i: nat)
    requires IsRun(Init, Next, run) && i < |run|
    ensures run[i].db.active == |run[i].ops| && run[i].backendCloses <= 1
    ensures run[i].closer.Closed? || Enabled(run[i], CloseBackend) ==> run[i].ops == map[] && !Admits(run[i].db)
  {
    assert Inductive(Init, Next, AdmissionInv) by {
      forall s, s' | AdmissionInv(s) && Next(s, s') ensures AdmissionInv(s') {
        var step :| Enabled(s, step) && s' == Apply(s, step);
        StepKeepsAdmission(s, step);
      }
    }
    InductiveHolds(Init, Next, AdmissionInv, run);
    assert AdmissionInv(run[i]);
  }

  // ---------------------------------------------------------------- leases

  /** From reserving the right to begin until giving it back. */
  predicate Reserving(what: Operation)
  {
    what.BackendBegin? || what.Began? || what.BeginRollsBack? || what.BeginReturns?
  }

  /** Reserving, with a lease that is not published yet. */
  predicate Unpublished(what: Operation) { what.BackendBegin? || what.Began? || what.BeginRollsBack? }

  predicate Ending(what: Operation) { what.EndAdmitted? || what.EndCalls? || what.EndUnregisters? }

  predicate SleepRolls(s: State, l: nat)
  {
    s.sleeper.Preparing? && s.sleeper.drain.RollingBack? && s.sleeper.drain.lease == l
  }

  predicate CloseRolls(s: State, l: nat)
  {
    s.closer.Closing? && s.closer.drain.RollingBack? && s.closer.drain.lease == l
  }

  ghost predicate ReserveInv(s: State)
  {
    && (forall o :: o in s.ops && Reserving(s.ops[o]) ==> s.db.beginning)
    && (forall o, p :: o in s.ops && p in s.ops && Reserving(s.ops[o]) && Reserving(s.ops[p]) ==> o == p)
    && (forall o :: o in s.ops && Unpublished(s.ops[o]) ==> s.db.transactions == {})
    && (forall a, b :: a in s.db.transactions && b in s.db.transactions ==> a == b)
    && (forall l :: l in s.db.transactions ==> l in s.handed)
  }

  ghost predicate FreshInv(s: State)
  {
    && (forall l :: l in s.handed || l in s.began || l in s.terminal || l in s.endCalls || l in s.endReturned ==> l < s.nextLease)
    && (forall o :: o in s.ops && Unpublished(s.ops[o]) ==>
          var l := s.ops[o].lease;
          && l < s.nextLease && l !in s.handed && l !in s.terminal && l !in s.endReturned
          && (l in s.began <==> !s.ops[o].BackendBegin?)
          && s.endCalls[l] == if s.ops[o].BeginRollsBack? then 1 else 0)
    && (forall o :: o in s.ops && Ending(s.ops[o]) ==> s.ops[o].lease in s.handed)
    && (s.sleeper.Preparing? ==> forall l :: l in Rest(s.sleeper.drain) ==> l in s.handed)
    && (s.closer.Closing? ==> forall l :: l in Rest(s.closer.drain) ==> l in s.handed)
    && s.handed <= s.began
  }

  /** A drain that is past its compare-and-swap owns the lease it works on. */
  ghost predicate ClaimedBy(s: State, d: Drain)
  {
    d.RollingBack? || d.Unregistering? ==> d.lease in s.terminal && d.lease in s.handed
  }

  /** The terminal flag is the right to end a lease, and it is spent once. */
  ghost predicate EndInv(s: State)
  {
    && (forall l :: l in s.terminal ==> s.endCalls[l] == 1)
    && (forall l :: l in s.handed && l !in s.terminal ==> s.endCalls[l] == 0)
    && (forall l :: s.endCalls[l] <= 1)
    && s.endReturned <= s.terminal
    && (forall o :: o in s.ops && (s.ops[o].EndCalls? || s.ops[o].EndUnregisters?) ==> s.ops[o].lease in s.terminal)
    && (s.sleeper.Preparing? ==> ClaimedBy(s, s.sleeper.drain))
    && (s.closer.Closing? ==> ClaimedBy(s, s.closer.drain))
  }

  /** Nobody's unfinished end call has been counted as returned, and no two run for one lease. */
  ghost predicate HolderInv(s: State)
  {
    && (forall o :: o in s.ops && s.ops[o].EndCalls? ==>
          var l := s.ops[o].lease; l !in s.endReturned && !SleepRolls(s, l) && !CloseRolls(s, l))
    && (forall o, p :: o in s.ops && p in s.ops && o != p && s.ops[o].EndCalls? && s.ops[p].EndCalls? ==>
          s.ops[o].lease != s.ops[p].lease)
    && (forall l :: SleepRolls(s, l) ==> l !in s.endReturned && !CloseRolls(s, l))
    && (forall l :: CloseRolls(s, l) ==> l !in s.endReturned)
  }

  predicate Holds(what: Operation, l: nat)
  {
    (what.Began? || what.BeginRollsBack? || what.EndCalls?) && what.lease == l
  }

  ghost predicate HeldByOperation(s: State, l: nat) { exists o :: o in s.ops && Holds(s.ops[o], l) }

  /** Every lease the backend granted is ended, still open in the table, or in someone's hands. */
  ghost predicate AccountedFor(s: State, l: nat)
  {
    || l in s.endReturned
    || (l in s.db.transactions && l !in s.terminal)
    || HeldByOperation(s, l)
    || SleepRolls(s, l)
    || CloseRolls(s, l)
  }

  ghost predicate AccountInv(s: State)
  {
    && (forall l :: l in s.began ==> AccountedFor(s, l))
    && (s.closer.Closing? ==> forall l :: l in s.db.transactions && l !in s.terminal ==> l in Rest(s.closer.drain))
    && (s.closer.Closed? ==> s.db.transactions <= s.terminal)
  }

  ghost predicate LeaseInv(s: State)
  {
    AdmissionInv(s) && ReserveInv(s) && FreshInv(s) && EndInv(s) && HolderInv(s) && AccountInv(s)
  }

  predicate BeginSide(what: Operation) { what.Statement? || what.BeginAdmitted? || Reserving(what) }

  lemma AdvanceKeepsReserve(s: State, op: nat, ok: bool)
    requires ReserveInv(s) && FreshInv(s) && Enabled(s, Advance(op, ok))
    ensures ReserveInv(Advanced(s, op, ok))
  {
  }

  lemma BeginKeepsFresh(s: State, op: nat, ok: bool)
    requires ReserveInv(s) && FreshInv(s) && EndInv(s) && Enabled(s, Advance(op, ok)) && BeginSide(s.ops[op])
    ensures FreshInv(Advanced(s, op, ok))
  {
    if s.ops[op].BeginAdmitted? || s.ops[op].BackendBegin? {
      FirstHalfKeepsFresh(s, op, ok);
    } else {
      SecondHalfKeepsFresh(s, op, ok);
    }
  }

  lemma FirstHalfKeepsFresh(s: State, op: nat, ok: bool)
    requires ReserveInv(s) && FreshInv(s) && Enabled(s, Advance(op, ok))
    requires s.ops[op].BeginAdmitted? || s.ops[op].BackendBegin?
    ensures FreshInv(Advanced(s, op, ok))
  {
  }

  lemma SecondHalfKeepsFresh(s: State, op: nat, ok: bool)
    requires ReserveInv(s) && FreshInv(s) && Enabled(s, Advance(op, ok))
    requires s.ops[op].Began? || s.ops[op].BeginRollsBack? || s.ops[op].BeginReturns? || s.ops[op].Statement?
    ensures FreshInv(Advanced(s, op, ok))
  {
  }

  lemma EndKeepsFresh(s: State, op: nat, ok: bool)
    requires FreshInv(s) && EndInv(s) && Enabled(s, Advance(op, ok)) && Ending(s.ops[op])
    ensures FreshInv(Advanced(s, op, ok))
  {
  }

  lemma BeginKeepsEnd(s: State, op: nat, ok: bool)
    requires FreshInv(s) && EndInv(s) && Enabled(s, Advance(op, ok)) && BeginSide(s.ops[op])
    ensures EndInv(Advanced(s, op, ok))
  {
    if s.ops[op].Began? { BeganKeepsEnd(s, op, ok); }
  }

  lemma BeganKeepsEnd(s: State, op: nat, ok: bool)
    requires FreshInv(s) && EndInv(s) && Enabled(s, Advance(op, ok)) && s.ops[op].Began?
    ensures EndInv(Advanced(s, op, ok))
  {
  }

  lemma EndKeepsEnd(s: State, op: nat, ok: bool)
    requires FreshInv(s) && EndInv(s) && Enabled(s, Advance(op, ok)) && Ending(s.ops[op])
    ensures EndInv(Advanced(s, op, ok))
  {
  }

  lemma BeginKeepsHolder(s: State, op: nat, ok: bool)
    requires FreshInv(s) && EndInv(s) && HolderInv(s) && Enabled(s, Advance(op, ok)) && BeginSide(s.ops[op])
    ensures HolderInv(Advanced(s, op, ok))
  {
    RollersKept(s, Advanced(s, op, ok));
  }

  lemma EndKeepsHolder(s: State, op: nat, ok: bool)
    requires FreshInv(s) && EndInv(s) && HolderInv(s) && Enabled(s, Advance(op, ok)) && Ending(s.ops[op])
    ensures HolderInv(Advanced(s, op, ok))
  {
    RollersKept(s, Advanced(s, op, ok));
  }

  lemma RollersKept(s: State, s': State)
    requires s'.sleeper == s.sleeper && s'.closer == s.closer
    ensures forall l :: SleepRolls(s', l) == SleepRolls(s, l) && CloseRolls(s', l) == CloseRolls(s, l)
  {
  }

  lemma AdvanceKeepsAccount(s: State, op: nat, ok: bool)
    requires AdmissionInv(s) && FreshInv(s) && EndInv(s) && AccountInv(s) && Enabled(s, Advance(op, ok))
    ensures AccountInv(Advanced(s, op, ok))
  {
    var s' := Advanced(s, op, ok);
    AdvanceFrame(s, op, ok);
    forall l | l in s'.began ensures AccountedFor(s', l) {
      AdvanceAccounts(s, op, ok, l);
    }
  }

  lemma AdvanceAccounts(s: State, op: nat, ok: bool, l: nat)
    requires FreshInv(s) && EndInv(s) && Enabled(s, Advance(op, ok))
    requires l in s.began ==> AccountedFor(s, l)
    requires l in Advanced(s, op, ok).began
    ensures AccountedFor(Advanced(s, op, ok), l)
  {
    var s' := Advanced(s, op, ok);
    RollersKept(s, s');
    if l !in s.began {
      assert Holds(s'.ops[op], l);
    } else if HeldByOperation(s, l) {
      var o :| o in s.ops && Holds(s.ops[o], l);
      assert o != op ==> o in s'.ops && Holds(s'.ops[o], l);
      assert o == op && s.ops[op].Began? && !Admits(s.db) ==> Holds(s'.ops[op], l);
    } else if l in s.db.transactions && l !in s.terminal {
      assert s.ops[op].EndAdmitted? && s.ops[op].lease == l ==> Holds(s'.ops[op], l);
    }
  }

  lemma AdvanceKeepsLease(s: State, op: nat, ok: bool)
    requires LeaseInv(s) && Enabled(s, Advance(op, ok))
    ensures LeaseInv(Apply(s, Advance(op, ok)))
  {
    StepKeepsAdmission(s, Advance(op, ok));
    AdvanceKeepsReserve(s, op, ok);
    AdvanceKeepsAccount(s, op, ok);
    if BeginSide(s.ops[op]) {
      BeginKeepsFresh(s, op, ok);
      BeginKeepsEnd(s, op, ok);
      BeginKeepsHolder(s, op, ok);
    } else {
      EndKeepsFresh(s, op, ok);
      EndKeepsEnd(s, op, ok);
      EndKeepsHolder(s, op, ok);
    }
  }

  /** The tables after a drain step, whoever drains. */
  lemma DrainKeepsReserve(s: State, d: Drain, lease: nat)
    requires ReserveInv(s) && DrainEnabled(s, d, lease)
    ensures ReserveInv(DrainStep(s, d, lease).0)
  {
  }

  lemma DrainKeepsFresh(s: State, d: Drain, lease: nat)
    requires FreshInv(s) && EndInv(s) && DrainEnabled(s, d, lease) && ClaimedBy(s, d)
    requires forall l :: l in Rest(d) ==> l in s.handed
    ensures FreshInv(DrainStep(s, d, lease).0)
  {
  }

  lemma DrainKeepsEnd(s: State, d: Drain, lease: nat)
    requires EndInv(s) && DrainEnabled(s, d, lease) && ClaimedBy(s, d)
    requires forall l :: l in Rest(d) ==> l in s.handed
    ensures EndInv(DrainStep(s, d, lease).0)
    ensures ClaimedBy(DrainStep(s, d, lease).0, DrainStep(s, d, lease).1)
    ensures Rest(DrainStep(s, d, lease).1) <= Rest(d)
  {
  }

  lemma DrainKeepsTables(s: State, d: Drain, lease: nat)
    requires ReserveInv(s) && FreshInv(s) && EndInv(s) && DrainEnabled(s, d, lease) && ClaimedBy(s, d)
    requires forall l :: l in Rest(d) ==> l in s.handed
    ensures ReserveInv(DrainStep(s, d, lease).0) && FreshInv(DrainStep(s, d, lease).0) && EndInv(DrainStep(s, d, lease).0)
    ensures ClaimedBy(DrainStep(s, d, lease).0, DrainStep(s, d, lease).1)
    ensures Rest(DrainStep(s, d, lease).1) <= Rest(d)
  {
    DrainKeepsReserve(s, d, lease);
    DrainKeepsFresh(s, d, lease);
    DrainKeepsEnd(s, d, lease);
  }

  /** A lease leaves the table only after its end call, and leaves the to-do set only once it is claimed. */
  lemma DrainFacts(s: State, d: Drain, lease: nat)
    requires DrainEnabled(s, d, lease) && ClaimedBy(s, d)
    ensures var (s', d') := DrainStep(s, d, lease);
      && s.terminal <= s'.terminal && s.endReturned <= s'.endReturned
      && (forall l :: l in s.db.transactions && l !in s'.db.transactions ==> l in s.terminal)
      && s'.db.transactions <= s.db.transactions
      && (forall l :: l in s'.terminal && l !in s.terminal ==> d'.RollingBack? && d'.lease == l)
      && (forall l :: l in Rest(d) && l !in Rest(d') ==> l in s'.terminal)
      && (d.RollingBack? ==> s'.endReturned == s.endReturned + {d.lease})
      && (!d.RollingBack? ==> s'.endReturned == s.endReturned)
      && (d'.RollingBack? ==> !d.RollingBack? && d'.lease !in s.terminal)
      && (d.Drained? || d.NotDraining? ==> false)
  {
  }

  lemma SleepDrainKeepsLease(s: State, lease: nat, ok: bool)
    requires LeaseInv(s) && Enabled(s, SleepDrains(lease, ok))
    ensures LeaseInv(Apply(s, SleepDrains(lease, ok)))
  {
    var s' := Apply(s, SleepDrains(lease, ok));
    var (t, d) := DrainStep(s, s.sleeper.drain, lease);
    StepKeepsAdmission(s, SleepDrains(lease, ok));
    DrainKeepsTables(s, s.sleeper.drain, lease);
    DrainFacts(s, s.sleeper.drain, lease);
    DrainFrame(s, s.sleeper.drain, lease);
    SleepTables(t, s');
    SleepDrainHolders(s, t, d, s', lease);
    SleepDrainAccounts(s, t, d, s', lease);
  }

  lemma SleepTables(t: State, s': State)
    requires ReserveInv(t) && FreshInv(t) && EndInv(t)
    requires s' == t.(sleeper := s'.sleeper, db := t.db.(sleepPrepared := s'.db.sleepPrepared))
    requires s'.sleeper.Preparing? ==> ClaimedBy(t, s'.sleeper.drain) && forall l :: l in Rest(s'.sleeper.drain) ==> l in t.handed
    ensures ReserveInv(s') && FreshInv(s') && EndInv(s')
  {
  }

  ghost predicate SleepDrained(s: State, t: State, d: Drain, s': State, lease: nat)
  {
    && s.sleeper.Preparing? && DrainEnabled(s, s.sleeper.drain, lease) && (t, d) == DrainStep(s, s.sleeper.drain, lease)
    && s' == t.(sleeper := s'.sleeper, db := t.db.(sleepPrepared := s'.db.sleepPrepared))
    && (s'.sleeper.Preparing? ==> s'.sleeper.drain == d)
    && (d.RollingBack? ==> s'.sleeper.Preparing?)
  }

  lemma SleepDrainHolders(s: State, t: State, d: Drain, s': State, lease: nat)
    requires EndInv(s) && HolderInv(s) && SleepDrained(s, t, d, s', lease)
    ensures HolderInv(s')
  {
    DrainFacts(s, s.sleeper.drain, lease);
    DrainFrame(s, s.sleeper.drain, lease);
    forall l ensures CloseRolls(s', l) == CloseRolls(s, l) {}
    forall l | SleepRolls(s', l) ensures l !in s.terminal {}
  }

  lemma SleepDrainAccounts(s: State, t: State, d: Drain, s': State, lease: nat)
    requires AccountInv(s) && EndInv(s) && SleepDrained(s, t, d, s', lease)
    ensures AccountInv(s')
  {
    DrainFacts(s, s.sleeper.drain, lease);
    DrainFrame(s, s.sleeper.drain, lease);
    forall l | l in s'.began ensures AccountedFor(s', l) {
      assert AccountedFor(s, l);
      assert CloseRolls(s, l) ==> CloseRolls(s', l);
      assert SleepRolls(s, l) ==> l in s'.endReturned;
      if HeldByOperation(s, l) {
        var o :| o in s.ops && Holds(s.ops[o], l);
        assert o in s'.ops && Holds(s'.ops[o], l);
      }
      if l in s'.terminal && l !in s.terminal { assert SleepRolls(s', l); }
    }
  }

  lemma CloseDrainKeepsLease(s: State, lease: nat, ok: bool)
    requires LeaseInv(s) && Enabled(s, CloseDrains(lease, ok))
    ensures LeaseInv(Apply(s, CloseDrains(lease, ok)))
  {
    var s' := Apply(s, CloseDrains(lease, ok));
    var (t, d) := DrainStep(s, s.closer.drain, lease);
    StepKeepsAdmission(s, CloseDrains(lease, ok));
    DrainKeepsTables(s, s.closer.drain, lease);
    DrainFacts(s, s.closer.drain, lease);
    DrainFrame(s, s.closer.drain, lease);
    CloseTables(t, s');
    CloseDrainHolders(s, t, d, s', lease);
    CloseDrainAccounts(s, t, d, s', lease);
  }

  lemma CloseTables(t: State, s': State)
    requires ReserveInv(t) && FreshInv(t) && EndInv(t)
    requires s' == t.(closer := s'.closer)
    requires s'.closer.Closing? ==> ClaimedBy(t, s'.closer.drain) && forall l :: l in Rest(s'.closer.drain) ==> l in t.handed
    ensures ReserveInv(s') && FreshInv(s') && EndInv(s')
  {
  }

  ghost predicate CloseDrained(s: State, t: State, d: Drain, s': State, lease: nat)
  {
    && s.closer.Closing? && DrainEnabled(s, s.closer.drain, lease) && (t, d) == DrainStep(s, s.closer.drain, lease)
    && s' == t.(closer := Closing(d))
  }

  lemma CloseDrainHolders(s: State, t: State, d: Drain, s': State, lease: nat)
    requires EndInv(s) && HolderInv(s) && CloseDrained(s, t, d, s', lease)
    ensures HolderInv(s')
  {
    DrainFacts(s, s.closer.drain, lease);
    DrainFrame(s, s.closer.drain, lease);
    forall l ensures SleepRolls(s', l) == SleepRolls(s, l) {}
    forall l | CloseRolls(s', l) ensures l !in s.terminal {}
    assert s.closer.drain.RollingBack? ==> CloseRolls(s, s.closer.drain.lease);
  }

  lemma CloseDrainAccounts(s: State, t: State, d: Drain, s': State, lease: nat)
    requires AccountInv(s) && EndInv(s) && CloseDrained(s, t, d, s', lease)
    ensures AccountInv(s')
  {
    DrainFacts(s, s.closer.drain, lease);
    DrainFrame(s, s.closer.drain, lease);
    forall l | l in s'.began ensures AccountedFor(s', l) {
      assert AccountedFor(s, l);
      assert SleepRolls(s, l) ==> SleepRolls(s', l);
      assert CloseRolls(s, l) ==> l in s'.endReturned;
      if HeldByOperation(s, l) {
        var o :| o in s.ops && Holds(s.ops[o], l);
        assert o in s'.ops && Holds(s'.ops[o], l);
      }
      if l in s'.terminal && l !in s.terminal { assert CloseRolls(s', l); }
    }
  }

  lemma AdmitKeepsLease(s: State, op: nat, what: Operation)
    requires LeaseInv(s) && Enabled(s, Admit(op, what))
    ensures LeaseInv(Apply(s, Admit(op, what)))
  {
    var s' := Apply(s, Admit(op, what));
    StepKeepsAdmission(s, Admit(op, what));
    AdmitKeepsReserve(s, op, what, s');
    AdmitKeepsFresh(s, op, what, s');
    AdmitKeepsEnd(s, op, what, s');
    AdmitKeepsHolder(s, op, what, s');
    AdmitKeepsAccount(s, op, what, s');
  }

  ghost predicate AdmittedFrom(s: State, op: nat, what: Operation, s': State)
  {
    && op !in s.ops && (what.Statement? || what.BeginAdmitted? || (what.EndAdmitted? && what.lease in s.handed))
    && s' == s.(ops := s.ops[op := what], db := Entered(s.db))
  }

  lemma AdmitKeepsReserve(s: State, op: nat, what: Operation, s': State)
    requires ReserveInv(s) && AdmittedFrom(s, op, what, s')
    ensures ReserveInv(s')
  {
  }

  lemma AdmitKeepsEnd(s: State, op: nat, what: Operation, s': State)
    requires EndInv(s) && AdmittedFrom(s, op, what, s')
    ensures EndInv(s')
  {
  }

  lemma AdmitKeepsHolder(s: State, op: nat, what: Operation, s': State)
    requires HolderInv(s) && AdmittedFrom(s, op, what, s')
    ensures HolderInv(s')
  {
    RollersKept(s, s');
  }

  lemma AdmitKeepsFresh(s: State, op: nat, what: Operation, s': State)
    requires FreshInv(s) && AdmittedFrom(s, op, what, s')
    ensures FreshInv(s')
  {
  }

  lemma AdmitKeepsAccount(s: State, op: nat, what: Operation, s': State)
    requires AccountInv(s) && AdmittedFrom(s, op, what, s')
    ensures AccountInv(s')
  {
    RollersKept(s, s');
    forall l | l in s'.began ensures AccountedFor(s', l) {
      assert AccountedFor(s, l);
      if HeldByOperation(s, l) {
        var o :| o in s.ops && Holds(s.ops[o], l);
        assert o in s'.ops && Holds(s'.ops[o], l);
      }
    }
  }

  lemma FinishKeepsLease(s: State, op: nat)
    requires LeaseInv(s) && Enabled(s, Finish(op))
    ensures LeaseInv(Apply(s, Finish(op)))
  {
    var s' := Apply(s, Finish(op));
    StepKeepsAdmission(s, Finish(op));
    RollersKept(s, s');
    forall l | l in s'.began ensures AccountedFor(s', l) {
      if HeldByOperation(s, l) {
        var o :| o in s.ops && Holds(s.ops[o], l);
        assert o in s'.ops && Holds(s'.ops[o], l);
      }
    }
  }

  /** A step that moves no operation and no lease. */
  ghost predicate LeavesLeases(s: State, s': State)
  {
    s'.ops == s.ops && s'.began == s.began && s'.endReturned == s.endReturned && s'.terminal == s.terminal
    && s'.db.transactions == s.db.transactions
    && forall l :: SleepRolls(s', l) == SleepRolls(s, l) && CloseRolls(s', l) == CloseRolls(s, l)
  }

  lemma LeavesHolders(s: State, s': State)
    requires HolderInv(s) && LeavesLeases(s, s')
    ensures HolderInv(s')
  {
  }

  lemma LeavesAccounts(s: State, s': State)
    requires LeavesLeases(s, s') && forall l :: l in s.began ==> AccountedFor(s, l)
    ensures forall l :: l in s'.began ==> AccountedFor(s', l)
  {
    forall l | l in s'.began ensures AccountedFor(s', l) {
      assert AccountedFor(s, l);
      if HeldByOperation(s, l) {
        var o :| o in s.ops && Holds(s.ops[o], l);
        assert o in s'.ops && Holds(s'.ops[o], l);
      }
    }
  }

  lemma SleepLeaves(s: State, step: Step)
    requires Enabled(s, step) && (step.Sleep? || step.SleepAnswered?)
    ensures LeavesLeases(s, Apply(s, step)) && Apply(s, step).closer == s.closer
  {
  }

  lemma SleepKeepsTables(s: State, step: Step)
    requires ReserveInv(s) && FreshInv(s) && EndInv(s) && Enabled(s, step) && (step.Sleep? || step.SleepAnswered?)
    ensures var s' := Apply(s, step); ReserveInv(s') && FreshInv(s') && EndInv(s')
  {
    var s' := Apply(s, step);
    SleepTables(s.(accepted := s'.accepted), s');
  }

  /** Sleep requests and their answers touch nothing but the fence and the sleeper. */
  lemma SleepKeepsLease(s: State, step: Step)
    requires LeaseInv(s) && Enabled(s, step) && (step.Sleep? || step.SleepAnswered?)
    ensures LeaseInv(Apply(s, step))
  {
    StepKeepsAdmission(s, step);
    SleepKeepsTables(s, step);
    SleepLeaves(s, step);
    LeavesHolders(s, Apply(s, step));
    LeavesAccounts(s, Apply(s, step));
  }

  lemma CloseLeaves(s: State, step: Step)
    requires Enabled(s, step) && (step.Close? || step.CloseBackend?)
    ensures LeavesLeases(s, Apply(s, step)) && Apply(s, step).sleeper == s.sleeper
  {
  }

  lemma CloseKeepsTables(s: State, step: Step)
    requires ReserveInv(s) && FreshInv(s) && EndInv(s) && Enabled(s, step) && (step.Close? || step.CloseBackend?)
    ensures var s' := Apply(s, step); ReserveInv(s') && FreshInv(s') && EndInv(s')
  {
    var s' := Apply(s, step);
    CloseTables(s.(db := s'.db, backendCloses := s'.backendCloses), s');
  }

  lemma CloseKeepsAccounts(s: State, step: Step)
    requires AccountInv(s) && Enabled(s, step) && (step.Close? || step.CloseBackend?)
    ensures AccountInv(Apply(s, step))
  {
    CloseLeaves(s, step);
    LeavesAccounts(s, Apply(s, step));
  }

  lemma CloseKeepsLease(s: State, step: Step)
    requires LeaseInv(s) && Enabled(s, step) && (step.Close? || step.CloseBackend?)
    ensures LeaseInv(Apply(s, step))
  {
    StepKeepsAdmission(s, step);
    CloseKeepsTables(s, step);
    CloseLeaves(s, step);
    LeavesHolders(s, Apply(s, step));
    CloseKeepsAccounts(s, step);
  }

  lemma StepKeepsLease(s: State, step: Step)
    requires LeaseInv(s) && Enabled(s, step)
    ensures LeaseInv(Apply(s, step))
  {
    match step
    case Admit(op, what) => AdmitKeepsLease(s, op, what);
    case Advance(op, ok) => AdvanceKeepsLease(s, op, ok);
    case Finish(op) => FinishKeepsLease(s, op);
    case SleepDrains(lease, ok) => SleepDrainKeepsLease(s, lease, ok);
    case CloseDrains(lease, ok) => CloseDrainKeepsLease(s, lease, ok);
    case Sleep => SleepKeepsLease(s, step);
    case SleepAnswered(_) => SleepKeepsLease(s, step);
    case Close => CloseKeepsLease(s, step);
    case CloseBackend => CloseKeepsLease(s, step);
  }

  lemma LeaseInductive()
    ensures Inductive(Init, Next, LeaseInv)
  {
    forall s, s' | LeaseInv(s) && Next(s, s') ensures LeaseInv(s') {
      var step :| Enabled(s, step) && s' == Apply(s, step);
      StepKeepsLease(s, step);
    }
  }

  /** A lease is in use from the call that asks the backend for it until it leaves the table. */
  ghost predicate InUse(s: State, l: nat)
  {
    l in s.db.transactions || exists o :: o in s.ops && Unpublished(s.ops[o]) && s.ops[o].lease == l
  }

  /** Over every run there is at most one lease in use, and no lease is ended twice. */
  lemma SingleLeaseEndedOnce(run: seq<State>, i: nat, a: nat, b: nat)
    requires IsRun(Init, Next, run) && i < |run|
    ensures InUse(run[i], a) && InUse(run[i], b) ==> a == b
    ensures run[i].endCalls[a] <= 1
  {
    LeaseInductive();
    InductiveHolds(Init, Next, LeaseInv, run);
    assert LeaseInv(run[i]);
  }

  /** When the backend is closed, the granted leases that nobody has ended are exactly the one a concurrent sleep
      preparation is still rolling back; without such an overlap every granted lease has been ended. */
  lemma CloseEndsEveryLease(run: seq<State>, i: nat, l: nat)
    requires IsRun(Init, Next, run) && i < |run| && Enabled(run[i], CloseBackend)
    ensures l in run[i].began && l !in run[i].endReturned <==> SleepRolls(run[i], l)
  {
    LeaseInductive();
    InductiveHolds(Init, Next, LeaseInv, run);
    var s := run[i];
    assert LeaseInv(s);
    if l in s.began { assert AccountedFor(s, l); }
  }

  /** The overlap is real: a close may overtake a sleep preparation's rollback call. */
  lemma CloseCanOvertakeSleepRollback()
    ensures exists run: seq<State> ::
      IsRun(Init, Next, run) && run[|run| - 1].closer.Closed? && 0 in run[|run| - 1].began && 0 !in run[|run| - 1].endReturned
  {
    var s, run := OneOpenLease();
    s, run := Do(run, Sleep);
    s, run := Do(run, SleepDrains(0, true));
    assert SleepRolls(s, 0);
    s, run := Do(run, Close);
    s, run := Do(run, CloseDrains(0, true));
    assert s.closer.drain.todo == {};
    s, run := Do(run, CloseDrains(0, true));
    s, run := Do(run, CloseBackend);
    assert s.began == {0} && s.endReturned == {};
  }

  lemma OneOpenLease() returns (s: State, run: seq<State>)
    ensures IsRun(Init, Next, run) && s == run[|run| - 1]
    ensures s == State(Db(false, false, 0, false, {0}), map[], {}, Awake, NotClosing, false, {0}, {0}, multiset{}, {}, 1, 0)
  {
    s := State(Db(false, false, 0, false, {}), map[], {}, Awake, NotClosing, false, {}, {}, multiset{}, {}, 0, 0);
    run := [s];
    s, run := Do(run, Admit(7, BeginAdmitted));
    s, run := Do(run, Advance(7, true));
    s, run := Do(run, Advance(7, true));
    s, run := Do(run, Advance(7, true));
    s, run := Do(run, Advance(7, true));
    assert s.ops[7].Leaving?;
    s, run := Do(run, Finish(7));
    assert s.ops == map[];
  }

  lemma Do(run: seq<State>, step: Step) returns (s: State, longer: seq<State>)
    requires IsRun(Init, Next, run) && Enabled(run[|run| - 1], step)
    ensures s == Apply(run[|run| - 1], step)
    ensures longer == run + [s] && IsRun(Init, Next, longer)
  {
    s := Apply(run[|run| - 1], step);
    longer := run + [s];
    Extend(Init, Next, run, s);
  }

  // ---------------------------------------------------------------- the sleep fence

  /** Only the call that raised the fence may lower it, and an accepted request ends its call. */
  ghost predicate FenceInv(s: State)
  {
    && (s.accepted ==> s.db.sleepPrepared)
    && (s.sleeper.Preparing? || s.sleeper == Requesting(true) ==> !s.accepted && s.db.sleepPrepared)
    && (s.sleeper == Requesting(false) ==> s.db.sleepPrepared)
  }

  lemma StepKeepsFence(s: State, step: Step)
    requires FenceInv(s) && Enabled(s, step)
    ensures FenceInv(Apply(s, step))
    ensures s.accepted ==> Apply(s, step).accepted
  {
    match step
    case Advance(op, ok) => AdvanceFrame(s, op, ok);
    case SleepDrains(lease, _) => DrainFrame(s, s.sleeper.drain, lease);
    case CloseDrains(lease, _) => DrainFrame(s, s.closer.drain, lease);
    case _ =>
  }

  ghost predicate StaysAccepted(s: State, s': State) { s.accepted ==> s'.accepted }

  /** Once a sleep request has been accepted, admission is closed at every later point of the run. */
  lemma AcceptedSleepNeverReopens(run: seq<State>, i: nat, j: nat)
    requires IsRun(Init, Next, run) && i < j < |run|
    requires Enabled(run[i], SleepAnswered(true)) && run[i + 1] == Apply(run[i], SleepAnswered(true))
    ensures !Admits(run[j].db) && run[j].accepted
  {
    assert Inductive(Init, Next, FenceInv) && forall s, s' :: FenceInv(s) && Next(s, s') ==> StaysAccepted(s, s') by {
      forall s, s' | FenceInv(s) && Next(s, s') ensures FenceInv(s') && StaysAccepted(s, s') {
        var step :| Enabled(s, step) && s' == Apply(s, step);
        StepKeepsFence(s, step);
      }
    }
    InductiveHolds(Init, Next, FenceInv, run);
    StepwiseRelated(Init, Next, FenceInv, StaysAccepted, run, i + 1, j);
    assert FenceInv(run[j]);
  }

  /** A sleep request that finds the database open or already fenced goes ahead with admission closed; during a close it
      is refused and changes nothing. */
  lemma SleepGoesAhead(run: seq<State>, i: nat)
    requires IsRun(Init, Next, run) && i < |run| && Enabled(run[i], Sleep)
    ensures var s' := Apply(run[i], Sleep);
      if run[i].db.closing then s' == run[i] else !s'.sleeper.Awake? && !Admits(s'.db)
  {
  }

  /** A rollback of the sleep preparation failed at this point of the run. */
  ghost predicate RollbackFailed(run: seq<State>, i: nat)
    requires i < |run|
  {
    && i + 1 < |run| && run[i].sleeper.Preparing? && run[i].sleeper.drain.RollingBack?
    && exists lease :: run[i + 1] == Apply(run[i], SleepDrains(lease, false))
  }

  ghost predicate FailedBefore(run: seq<State>, i: nat, j: nat)
    requires j < |run|
  {
    i < j && RollbackFailed(run, i) && forall k :: i < k <= j ==> run[k].sleeper.Preparing?
  }

  lemma StepFails(s: State, step: Step)
    requires Enabled(s, step) && Apply(s, step).sleeper.Preparing?
    ensures Apply(s, step).sleeper.failed <==>
      s.sleeper.Preparing? && (s.sleeper.failed || (s.sleeper.drain.RollingBack? && step.SleepDrains? && !step.ok))
  {
    match step
    case Advance(op, ok) => AdvanceFrame(s, op, ok);
    case SleepDrains(lease, _) => DrainFrame(s, s.sleeper.drain, lease);
    case CloseDrains(lease, _) => DrainFrame(s, s.closer.drain, lease);
    case _ =>
  }

  /** On every run a sleep preparation counts as failed if and only if one of its own rollbacks failed. */
  lemma {:induction false} PreparationFailedIff(run: seq<State>, j: nat)
    requires IsRun(Init, Next, run) && j < |run| && run[j].sleeper.Preparing?
    ensures run[j].sleeper.failed <==> exists i :: FailedBefore(run, i, j)
    decreases j
  {
    assert Init(run[0]);
    var k := j - 1;
    assert Next(run[k], run[k + 1]);
    var step :| Enabled(run[k], step) && run[k + 1] == Apply(run[k], step);
    StepFails(run[k], step);
    if run[k].sleeper.Preparing? { PreparationFailedIff(run, k); }
    if run[j].sleeper.failed {
      if run[k].sleeper.failed {
        var i :| FailedBefore(run, i, k);
        assert FailedBefore(run, i, j);
      } else {
        assert RollbackFailed(run, k);
        assert FailedBefore(run, k, j);
      }
    }
    if i: nat :| FailedBefore(run, i, j) {
      if i < k {
        assert FailedBefore(run, i, k);
      } else {
        var lease :| run[k + 1] == Apply(run[k], SleepDrains(lease, false));
        StepFails(run[k], SleepDrains(lease, false));
      }
    }
  }

  /** A preparation that ends asks for the sleep if none of its rollbacks failed; otherwise it gives up and reopens
      admission unless a close has begun. */
  lemma PreparationEnds(run: seq<State>, j: nat, lease: nat, ok: bool)
    requires IsRun(Init, Next, run) && j < |run| && Enabled(run[j], SleepDrains(lease, ok))
    requires !Apply(run[j], SleepDrains(lease, ok)).sleeper.Preparing?
    ensures var s' := Apply(run[j], SleepDrains(lease, ok));
      if exists i :: FailedBefore(run, i, j)
      then s'.sleeper == Awake && (Admits(s'.db) <==> !run[j].db.closing)
      else s'.sleeper == Requesting(true) && !Admits(s'.db)
  {
    PreparationFailedIff(run, j);
    assert Inductive(Init, Next, FenceInv) by {
      forall s, s' | FenceInv(s) && Next(s, s') ensures FenceInv(s') {
        var step :| Enabled(s, step) && s' == Apply(s, step);
        StepKeepsFence(s, step);
      }
    }
    InductiveHolds(Init, Next, FenceInv, run);
    assert FenceInv(run[j]);
    DrainFrame(run[j], run[j].sleeper.drain, lease);
  }

  /** A rejected request reopens admission exactly when its own call raised the fence and no close has begun. */
  lemma RejectedSleepReopens(run: seq<State>, i: nat)
    requires IsRun(Init, Next, run) && i < |run| && Enabled(run[i], SleepAnswered(false))
    ensures Admits(Apply(run[i], SleepAnswered(false)).db) <==> run[i].sleeper.preparedNow && !run[i].db.closing
  {
    assert Inductive(Init, Next, FenceInv) by {
      forall s, s' | FenceInv(s) && Next(s, s') ensures FenceInv(s') {
        var step :| Enabled(s, step) && s' == Apply(s, step);
        StepKeepsFence(s, step);
      }
    }
    InductiveHolds(Init, Next, FenceInv, run);
    assert FenceInv(run[i]);
  }

  // ---------------------------------------------------------------- room for the next transaction

  predicate Ends(what: Operation, l: nat) { (what.EndCalls? || what.EndUnregisters?) && what.lease == l }

  ghost predicate OperationEnds(s: State, l: nat) { exists o :: o in s.ops && Ends(s.ops[o], l) }

  predicate WorksOn(d: Drain, l: nat) { (d.RollingBack? || d.Unregistering?) && d.lease == l }

  /** Someone is about to take this lease out of the table. */
  ghost predicate Due(s: State, l: nat)
  {
    || OperationEnds(s, l)
    || (s.sleeper.Preparing? && WorksOn(s.sleeper.drain, l))
    || (s.closer.Closing? && WorksOn(s.closer.drain, l))
  }

  ghost predicate SomeoneReserves(s: State) { exists o :: o in s.ops && Reserving(s.ops[o]) }

  /** A lease in the table is still open or about to leave it, and the right to begin is held only by an operation that
      will give it back. A sleep preparation has every open lease before it, and one that is through has none. */
  ghost predicate TableInv(s: State)
  {
    && (s.db.beginning ==> SomeoneReserves(s))
    && (forall l :: l in s.db.transactions && l in s.terminal ==> Due(s, l))
    && (s.sleeper.Preparing? ==> forall l :: l in s.db.transactions ==> l in Rest(s.sleeper.drain) || l in s.terminal)
    && (s.sleeper == Requesting(true) ==> s.ops == map[] && s.db.transactions <= s.terminal)
  }

  lemma OthersStillEnd(s: State, s': State, op: nat, l: nat)
    requires OperationEnds(s, l) && (forall o :: o in s.ops && o != op ==> o in s'.ops && s'.ops[o] == s.ops[o])
    requires op in s.ops && Ends(s.ops[op], l) ==> op in s'.ops && Ends(s'.ops[op], l)
    ensures OperationEnds(s', l)
  {
    var o :| o in s.ops && Ends(s.ops[o], l);
    assert o in s'.ops && Ends(s'.ops[o], l);
  }

  lemma OthersStillReserve(s: State, s': State, op: nat)
    requires SomeoneReserves(s) && (forall o :: o in s.ops && o != op ==> o in s'.ops && s'.ops[o] == s.ops[o])
    requires op in s.ops && Reserving(s.ops[op]) ==> op in s'.ops && Reserving(s'.ops[op])
    ensures SomeoneReserves(s')
  {
    var o :| o in s.ops && Reserving(s.ops[o]);
    assert o in s'.ops && Reserving(s'.ops[o]);
  }

  lemma AdvanceStillReserves(s: State, op: nat, ok: bool)
    requires TableInv(s) && Enabled(s, Advance(op, ok))
    ensures Advanced(s, op, ok).db.beginning ==> SomeoneReserves(Advanced(s, op, ok))
  {
    var s' := Advanced(s, op, ok);
    if s'.db.beginning {
      if Reserving(s'.ops[op]) {
        assert op in s'.ops;
      } else {
        OthersStillReserve(s, s', op);
      }
    }
  }

  lemma AdvanceStillDue(s: State, op: nat, ok: bool, l: nat)
    requires ReserveInv(s) && FreshInv(s) && TableInv(s) && Enabled(s, Advance(op, ok))
    requires var s' := Advanced(s, op, ok); l in s'.db.transactions && l in s'.terminal
    ensures Due(Advanced(s, op, ok), l)
  {
    var s' := Advanced(s, op, ok);
    AdvanceFrame(s, op, ok);
    AdvanceMarks(s, op, ok, l);
    if Ends(s'.ops[op], l) {
      assert OperationEnds(s', l);
    } else if OperationEnds(s, l) {
      OthersStillEnd(s, s', op, l);
    }
  }

  /** Whoever marks a lease that is in the table goes on to take it out. */
  lemma AdvanceMarks(s: State, op: nat, ok: bool, l: nat)
    requires ReserveInv(s) && FreshInv(s) && Enabled(s, Advance(op, ok))
    requires var s' := Advanced(s, op, ok); l in s'.db.transactions && l in s'.terminal
    ensures Ends(Advanced(s, op, ok).ops[op], l) || (l in s.db.transactions && l in s.terminal && !Ends(s.ops[op], l))
  {
  }

  lemma AdvanceKeepsTable(s: State, op: nat, ok: bool)
    requires LeaseInv(s) && FenceInv(s) && TableInv(s) && Enabled(s, Advance(op, ok))
    ensures TableInv(Advanced(s, op, ok))
  {
    var s' := Advanced(s, op, ok);
    AdvanceFrame(s, op, ok);
    AdvanceStillReserves(s, op, ok);
    forall l | l in s'.db.transactions && l in s'.terminal ensures Due(s', l) {
      AdvanceStillDue(s, op, ok, l);
    }
  }

  lemma AdmissionKeepsTable(s: State, step: Step)
    requires LeaseInv(s) && FenceInv(s) && TableInv(s) && Enabled(s, step) && (step.Admit? || step.Finish?)
    ensures TableInv(Apply(s, step))
  {
    var s' := Apply(s, step);
    if s'.db.beginning { OthersStillReserve(s, s', step.op); }
    forall l | l in s'.db.transactions && l in s'.terminal ensures Due(s', l) {
      assert Due(s, l);
      if OperationEnds(s, l) { OthersStillEnd(s, s', step.op, l); }
    }
  }

  /** A drain marks the lease it takes up, and takes what it has worked on out of the table. */
  lemma DrainDue(s: State, d: Drain, lease: nat, l: nat)
    requires DrainEnabled(s, d, lease)
    requires var t := DrainStep(s, d, lease).0; l in t.db.transactions && l in t.terminal
    ensures l in s.db.transactions
    ensures (l in s.terminal && !WorksOn(d, l)) || WorksOn(DrainStep(s, d, lease).1, l)
  {
  }

  lemma DrainCovers(s: State, d: Drain, lease: nat, l: nat)
    requires DrainEnabled(s, d, lease) && l in DrainStep(s, d, lease).0.db.transactions
    requires l in Rest(d) || l in s.terminal
    ensures l in Rest(DrainStep(s, d, lease).1) || l in DrainStep(s, d, lease).0.terminal
  {
  }

  lemma SleepDrainKeepsTable(s: State, lease: nat, ok: bool)
    requires LeaseInv(s) && FenceInv(s) && TableInv(s) && Enabled(s, SleepDrains(lease, ok))
    ensures TableInv(Apply(s, SleepDrains(lease, ok)))
  {
    var s' := Apply(s, SleepDrains(lease, ok));
    var d := s.sleeper.drain;
    DrainFrame(s, d, lease);
    if s'.db.beginning { OthersStillReserve(s, s', 0); }
    forall l | l in s'.db.transactions && l in s'.terminal ensures Due(s', l) {
      DrainDue(s, d, lease, l);
      if l in s.terminal && OperationEnds(s, l) { OthersStillEnd(s, s', 0, l); }
    }
    forall l | l in s'.db.transactions ensures l in Rest(DrainStep(s, d, lease).1) || l in s'.terminal {
      DrainCovers(s, d, lease, l);
    }
  }

  lemma CloseDrainKeepsTable(s: State, lease: nat, ok: bool)
    requires LeaseInv(s) && FenceInv(s) && TableInv(s) && Enabled(s, CloseDrains(lease, ok))
    ensures TableInv(Apply(s, CloseDrains(lease, ok)))
  {
    var s' := Apply(s, CloseDrains(lease, ok));
    DrainFrame(s, s.closer.drain, lease);
    if s'.db.beginning { OthersStillReserve(s, s', 0); }
    forall l | l in s'.db.transactions && l in s'.terminal ensures Due(s', l) {
      DrainDue(s, s.closer.drain, lease, l);
      if l in s.terminal && OperationEnds(s, l) { OthersStillEnd(s, s', 0, l); }
    }
  }

  lemma OtherKeepsTable(s: State, step: Step)
    requires LeaseInv(s) && FenceInv(s) && TableInv(s) && Enabled(s, step)
    requires step.Sleep? || step.SleepAnswered? || step.Close? || step.CloseBackend?
    ensures TableInv(Apply(s, step))
  {
    var s' := Apply(s, step);
    if s'.db.beginning { OthersStillReserve(s, s', 0); }
    forall l | l in s'.db.transactions && l in s'.terminal ensures Due(s', l) {
      assert Due(s, l);
      if OperationEnds(s, l) { OthersStillEnd(s, s', 0, l); }
    }
  }

  ghost predicate RoomInv(s: State) { LeaseInv(s) && FenceInv(s) && TableInv(s) }

  lemma RoomInductive()
    ensures Inductive(Init, Next, RoomInv)
  {
    forall s, s' | RoomInv(s) && Next(s, s') ensures RoomInv(s') {
      var step :| Enabled(s, step) && s' == Apply(s, step);
      StepKeepsLease(s, step);
      StepKeepsFence(s, step);
      StepKeepsTable(s, step);
    }
  }

  lemma StepKeepsTable(s: State, step: Step)
    requires LeaseInv(s) && FenceInv(s) && TableInv(s) && Enabled(s, step)
    ensures TableInv(Apply(s, step))
  {
    match step
    case Advance(op, ok) => AdvanceKeepsTable(s, op, ok);
    case Admit(_, _) => AdmissionKeepsTable(s, step);
    case Finish(_) => AdmissionKeepsTable(s, step);
    case SleepDrains(lease, ok) => SleepDrainKeepsTable(s, lease, ok);
    case CloseDrains(lease, ok) => CloseDrainKeepsTable(s, lease, ok);
    case _ => OtherKeepsTable(s, step);
  }

  /** Nobody is at work on a lease: no operation in progress, and no rollback or removal by a sleep or a close. */
  ghost predicate AtRest(s: State)
  {
    && s.ops == map[]
    && !(s.sleeper.Preparing? && (s.sleeper.drain.RollingBack? || s.sleeper.drain.Unregistering?))
    && !(s.closer.Closing? && (s.closer.drain.RollingBack? || s.closer.drain.Unregistering?))
  }

  /** On every run, while nobody is at work on a lease, a transaction can begin if and only if no lease that was handed out
      is still open: an ended transaction makes room for the next one. */
  lemma NextTransactionIff(run: seq<State>, i: nat)
    requires IsRun(Init, Next, run) && i < |run| && AtRest(run[i])
    ensures CanReserve(run[i].db) <==> run[i].began <= run[i].endReturned
  {
    RoomInductive();
    InductiveHolds(Init, Next, RoomInv, run);
    assert RoomInv(run[i]);
    RoomAtRest(run[i]);
    OpenAtRest(run[i]);
  }

  lemma RoomAtRest(s: State)
    requires ReserveInv(s) && FreshInv(s) && EndInv(s) && TableInv(s) && AtRest(s)
    ensures s.began <= s.endReturned ==> CanReserve(s.db)
  {
    if s.began <= s.endReturned {
      assert forall l :: l in s.db.transactions ==> l in s.endReturned;
    }
  }

  lemma OpenAtRest(s: State)
    requires AccountInv(s) && AtRest(s)
    ensures s.db.transactions == {} ==> s.began <= s.endReturned
  {
    if s.db.transactions == {} {
      forall l | l in s.began ensures l in s.endReturned {
        assert AccountedFor(s, l);
      }
    }
  }

  /** An admitted commit or rollback is still to make its call, or the call has been made; and a made call stays made. */
  ghost predicate CallHolds(s: State, s': State)
  {
    && s.terminal <= s'.terminal && s.began <= s'.began
    && forall o, l :: o in s.ops && s.ops[o] == EndAdmitted(l) && l !in s'.terminal ==> o in s'.ops && s'.ops[o] == EndAdmitted(l)
  }

  lemma AdvanceCalls(s: State, op: nat, ok: bool)
    requires Enabled(s, Advance(op, ok))
    ensures CallHolds(s, Advanced(s, op, ok))
  {
  }

  lemma StepCalls(s: State, step: Step)
    requires Enabled(s, step)
    ensures CallHolds(s, Apply(s, step))
  {
    match step
    case Advance(op, ok) => AdvanceCalls(s, op, ok);
    case SleepDrains(lease, _) => DrainFrame(s, s.sleeper.drain, lease);
    case CloseDrains(lease, _) => DrainFrame(s, s.closer.drain, lease);
    case _ =>
  }

  /** On every run a transaction's own commit or rollback, once past its admission, has seen to exactly one end call for
      its lease, its own or an earlier one, and that call has come back by the time nobody is at work any more. */
  lemma EndTakesEffect(run: seq<State>, i: nat, j: nat, o: nat, l: nat)
    requires IsRun(Init, Next, run) && i <= j < |run| && o in run[i].ops && run[i].ops[o] == EndAdmitted(l)
    requires o !in run[j].ops || run[j].ops[o] != EndAdmitted(l)
    ensures run[j].endCalls[l] == 1
    ensures AtRest(run[j]) ==> l in run[j].endReturned
  {
    CallsHold(run, i, j);
    EndWasCalled(run[i], run[j], o, l);
  }

  lemma CallsHold(run: seq<State>, i: nat, j: nat)
    requires IsRun(Init, Next, run) && i <= j < |run|
    ensures RoomInv(run[i]) && RoomInv(run[j]) && CallHolds(run[i], run[j])
  {
    RoomInductive();
    InductiveHolds(Init, Next, RoomInv, run);
    forall s, s' | RoomInv(s) && Next(s, s') ensures CallHolds(s, s') {
      var step :| Enabled(s, step) && s' == Apply(s, step);
      StepCalls(s, step);
    }
    CallHoldsTransitive();
    StepwiseRelated(Init, Next, RoomInv, CallHolds, run, i, j);
  }

  lemma EndWasCalled(s: State, s': State, o: nat, l: nat)
    requires FreshInv(s) && EndInv(s') && AccountInv(s') && CallHolds(s, s')
    requires o in s.ops && s.ops[o] == EndAdmitted(l) && (o !in s'.ops || s'.ops[o] != EndAdmitted(l))
    ensures s'.endCalls[l] == 1
    ensures AtRest(s') ==> l in s'.endReturned
  {
    assert l in s'.terminal && l in s.handed && l in s'.began;
    if AtRest(s') { assert AccountedFor(s', l); }
  }

  lemma CallHoldsTransitive()
    ensures forall s, t, u :: CallHolds(s, t) && CallHolds(t, u) ==> CallHolds(s, u)
  {
  }

  /** On every run the right to begin is held if and only if some operation is between reserving and giving it back. */
  lemma BeginningIffReserving(run: seq<State>, i: nat)
    requires IsRun(Init, Next, run) && i < |run|
    ensures run[i].db.beginning <==> SomeoneReserves(run[i])
  {
    RoomInductive();
    InductiveHolds(Init, Next, RoomInv, run);
    assert RoomInv(run[i]);
  }

  /** On every run a prepared sleep is asked for with nothing in progress and every lease ended, but for one that a
      concurrent close is still rolling back. */
  lemma PreparedSleepIsQuiet(run: seq<State>, i: nat, l: nat)
    requires IsRun(Init, Next, run) && i < |run| && run[i].sleeper == Requesting(true)
    ensures run[i].ops == map[] && !Admits(run[i].db)
    ensures l in run[i].began && l !in run[i].endReturned <==> CloseRolls(run[i], l)
  {
    RoomInductive();
    InductiveHolds(Init, Next, RoomInv, run);
    var s := run[i];
    assert RoomInv(s);
    if l in s.began { assert AccountedFor(s, l); }
  }
}
