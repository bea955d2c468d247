/**
 Cancellation of SQLite worker commands as interleaved atomic steps: one worker thread and any number of
 callers whose cancellation guard may be dropped at any moment. An interrupt is aimed through the shared word
 `active`, which the worker publishes and a dropping guard claims.

 The worker's publication is a plain store followed by a plain load of another word. `fenced` says whether
 that store is visible to other threads before the load; without it the store may still sit in the worker's
 store buffer, which `Drain` empties at an arbitrary later moment.
 */
module WorkerCancel {
  import opened Common
  import opened Runs

  const CANCELING: nat := U64_MODULUS - 1

  /** Where a caller's guard is: waiting, released after a reply, or on its way through `drop`. */
  datatype Stage = Armed | Disarmed | FlagSet | Claimed | Aimed(hasConnection: bool) | Restoring | Dropped

  datatype Pc =
    | Opening | Idle
    | FirstCheck(id: nat) | Publish(id: nat) | SecondCheck(id: nat) | Entered(id: nat) | Running(id: nat)
    | Finish(id: nat, again: bool) | Spin(id: nat, again: bool)
    | ClearConnection | ClearActive | DropDatabase | Stopped
    | Panicked

  datatype Issued = Issued(target: nat, window: Option<nat>, alive: bool)

  /** Commands and their guards are named by tokens that never repeat; `ids` gives the word each was issued, which the
      shared `active` and the worker's store buffer hold. `missed` are the guards whose claim ran while the worker was
      already past its second check and its publication still sat in the buffer. `line` are the commands in the order they
      were submitted, the first `taken` of which the worker has taken up; `unheard` are those whose caller had stopped
      listening for the reply. */
  datatype Callers = Callers(
    ids: map<nat, nat>,
    guards: map<nat, Stage>,
    cancelled: set<nat>,
    submitted: set<nat>,
    interrupted: set<nat>,
    missed: set<nat>,
    log: seq<Issued>,
    line: seq<nat>,
    taken: nat,
    unheard: set<nat>)

  datatype State = State(
    fenced: bool,
    active: nat,
    buffer: Option<nat>,
    connection: bool,
    alive: bool,
    queue: seq<nat>,
    pc: Pc,
    started: set<nat>,
    finished: set<nat>,
    c: Callers)

  datatype Step =
    | NewGuard(id: nat, word: nat) | Enqueue(id: nat) | Disarm(id: nat)
    | SetFlag(id: nat) | Claim(id: nat) | LoadConnection(id: nat) | Interrupt(id: nat) | Restore(id: nat)
    | Open(ok: bool) | Take | Close | Advance | ReplyClosed | Drain

  /** The command the worker is inside: from publishing its id to having finished it. */
  function Window(pc: Pc): Option<nat>
  {
    match pc
    case SecondCheck(id) => Some(id)
    case Entered(id) => Some(id)
    case Running(id) => Some(id)
    case Finish(id, _) => Some(id)
    case Spin(id, _) => Some(id)
    case _ => None
  }

  predicate Holding(stage: Stage) { stage.Claimed? || stage.Aimed? || stage.Restoring? }

  predicate At(s: State, id: nat, stage: Stage) { id in s.c.guards && s.c.guards[id] == stage }

  /** The command the worker has in its hands. */
  predicate Handles(pc: Pc, id: nat)
  {
    (pc.FirstCheck? || pc.Publish? || Window(pc).Some?) && pc.id == id
  }

  /** Somebody may still act under this command's word. */
  predicate Busy(s: State, id: nat)
  {
    id in s.c.guards && ((!s.c.guards[id].Disarmed? && !s.c.guards[id].Dropped?) || id in s.queue || Handles(s.pc, id))
  }

  predicate Named(s: State, id: nat, word: nat) { id in s.c.ids && s.c.ids[id] == word }

  predicate Enabled(s: State, step: Step)
  {
    match step
    // The counter may wrap: a word is free again once nobody acts under it.
    case NewGuard(id, word) =>
      0 < word < CANCELING && id !in s.c.guards && forall h :: h in s.c.guards && Busy(s, h) ==> !Named(s, h, word)
    case Enqueue(id) => At(s, id, Armed) && id !in s.c.submitted
    case Disarm(id) => At(s, id, Armed)
    case SetFlag(id) => At(s, id, Armed)
    case Claim(id) => At(s, id, FlagSet)
    case LoadConnection(id) => At(s, id, Claimed)
    case Interrupt(id) => id in s.c.guards && s.c.guards[id].Aimed?
    case Restore(id) => At(s, id, Restoring)
    case Open(_) => s.pc.Opening?
    case Take => s.pc.Idle? && s.queue != []
    case Close => s.pc.Idle?
    case Advance =>
      match s.pc {
        case Opening => false
        case Idle => false
        case SecondCheck(_) => s.fenced ==> s.buffer.None?
        case Finish(_, _) => s.buffer.None?
        case Spin(_, _) => s.active != CANCELING
        case Stopped => false
        case Panicked => false
        case _ => true
      }
    case ReplyClosed => s.pc.Entered?
    case Drain => s.buffer.Some?
  }

  function AfterFinish(s: State, id: nat, again: bool): Pc { if again then Finish(id, false) else Idle }

  predicate Wraps(pc: Pc) { pc.Finish? || pc.Spin? || pc.ClearConnection? || pc.ClearActive? || pc.DropDatabase? }

  /** From taking a command to having run it. */
  function Worked(s: State): State
  {
    match s.pc
    case FirstCheck(id) => s.(pc := if id in s.c.cancelled then Finish(id, false) else Publish(id))
    case Publish(id) => s.(buffer := if id in s.c.ids then Some(s.c.ids[id]) else Some(0), pc := SecondCheck(id))
    case SecondCheck(id) => s.(pc := if id in s.c.cancelled then Finish(id, true) else Entered(id))
    case Entered(id) => s.(pc := Running(id), started := s.started + {id})
    case Running(id) => s.(pc := Finish(id, false), finished := s.finished + {id})
    case _ => s
  }

  /** Finishing a command, or the worker. */
  function WrappedUp(s: State): State
  {
    match s.pc
    case Finish(id, again) =>
      if Named(s, id, s.active) then s.(active := 0, pc := AfterFinish(s, id, again))
      else if s.active == 0 then s.(pc := AfterFinish(s, id, again))
      else if s.active == CANCELING then s.(pc := Spin(id, again))
      else s.(pc := Panicked)
    case Spin(id, again) => s.(pc := AfterFinish(s, id, again))
    case ClearConnection => s.(connection := false, pc := ClearActive)
    case ClearActive => s.(active := 0, pc := DropDatabase)
    case DropDatabase => s.(alive := false, pc := Stopped)
    case _ => s
  }

  /** One step of the worker's command or of its shutdown. */
  function Advanced(s: State): State { if Wraps(s.pc) then WrappedUp(s) else Worked(s) }

  /** The worker runs the command and nobody else can see that yet. */
  predicate Unseen(s: State, id: nat)
  {
    s.buffer.Some? && Named(s, id, s.buffer.value) && (s.pc == Entered(id) || s.pc == Running(id))
  }

  function Apply(s: State, step: Step): State
    requires Enabled(s, step)
  {
    match step
    case NewGuard(id, word) => s.(c := s.c.(guards := s.c.guards[id := Armed], ids := s.c.ids[id := word]))
    case Enqueue(id) => s.(queue := s.queue + [id], c := s.c.(submitted := s.c.submitted + {id}, line := s.c.line + [id]))
    case Disarm(id) => s.(c := s.c.(guards := s.c.guards[id := Disarmed]))
    case SetFlag(id) => s.(c := s.c.(cancelled := s.c.cancelled + {id}, guards := s.c.guards[id := FlagSet]))
    case Claim(id) =>
      if Named(s, id, s.active) then s.(active := CANCELING, c := s.c.(guards := s.c.guards[id := Claimed]))
      else s.(c := s.c.(guards := s.c.guards[id := Dropped],
                        missed := if Unseen(s, id) then s.c.missed + {id} else s.c.missed))
    case LoadConnection(id) => s.(c := s.c.(guards := s.c.guards[id := Aimed(s.connection)]))
    case Interrupt(id) =>
      if s.c.guards[id].hasConnection
      then s.(c := s.c.(log := s.c.log + [Issued(id, Window(s.pc), s.alive)],
                        interrupted := s.c.interrupted + {id},
                        guards := s.c.guards[id := Restoring]))
      else s.(c := s.c.(guards := s.c.guards[id := Restoring]))
    case Restore(id) => s.(active := 0, c := s.c.(guards := s.c.guards[id := Dropped]))
    case Open(ok) => if ok then s.(connection := true, alive := true, pc := Idle) else s.(queue := [], pc := Stopped)
    case Take => s.(queue := s.queue[1..], pc := FirstCheck(s.queue[0]), c := s.c.(taken := s.c.taken + 1))
    case Close => s.(queue := [], pc := ClearConnection)
    case Advance => Advanced(s)
    case ReplyClosed => s.(pc := Finish(s.pc.id, false), c := s.c.(unheard := s.c.unheard + {s.pc.id}))
    case Drain => s.(active := s.buffer.value, buffer := None)
  }

  ghost predicate Init(s: State)
  {
    && s.active == 0 && s.buffer.None? && !s.connection && !s.alive
    && s.c.ids == map[] && s.c.guards == map[] && s.c.cancelled == {} && s.queue == [] && s.c.submitted == {} && s.pc.Opening?
    && s.started == {} && s.finished == {} && s.c.interrupted == {} && s.c.missed == {} && s.c.log == []
    && s.c.line == [] && s.c.taken == 0 && s.c.unheard == {}
  }

  ghost predicate Next(s: State, s': State)
  {
    exists step :: Enabled(s, step) && s' == Apply(s, step)
  }

  // ---------------------------------------------------------------- invariant

  predicate InService(pc: Pc) { pc.Idle? || pc.FirstCheck? || pc.Publish? || Window(pc).Some? || pc.ClearConnection? }

  /** `active` names the current window or nothing, and a claiming guard pins the worker inside its own window. */
  ghost predicate WordInv(s: State)
  {
    && !s.pc.Panicked?
    && (s.active != 0 && s.active != CANCELING ==> Window(s.pc).Some? && Named(s, Window(s.pc).value, s.active))
    && (s.active == CANCELING ==>
          && Window(s.pc).Some? && s.buffer.None?
          && Window(s.pc).value in s.c.guards && Holding(s.c.guards[Window(s.pc).value]))
    && (forall g :: g in s.c.guards && Holding(s.c.guards[g]) ==> s.active == CANCELING && Window(s.pc) == Some(g))
    && (s.buffer.Some? ==>
          Window(s.pc).Some? && Named(s, Window(s.pc).value, s.buffer.value) && s.active == 0 && !s.pc.Spin?)
    && (s.pc.Spin? ==> s.active == 0 || s.active == CANCELING)
  }

  ghost predicate TableInv(s: State)
  {
    && s.c.ids.Keys == s.c.guards.Keys
    && (forall g :: g in s.c.ids ==> 0 < s.c.ids[g] < CANCELING)
    && (forall g :: g in s.c.submitted ==> g in s.c.guards)
    && (forall g :: g in s.queue ==> g in s.c.submitted)
    && (forall g :: g in s.c.guards && s.c.guards[g].Aimed? ==> s.c.guards[g].hasConnection)
    && (forall g :: g in s.c.guards && s.c.guards[g].Restoring? ==> g in s.c.interrupted)
    && (forall g :: g in s.c.interrupted ==> g in s.c.guards && (s.c.guards[g].Restoring? || s.c.guards[g].Dropped?))
  }

  ghost predicate PcInv(s: State)
  {
    && (InService(s.pc) ==> s.connection && s.alive)
    && (s.pc.FirstCheck? || s.pc.Publish? ==> s.pc.id in s.c.guards)
    && (Window(s.pc).Some? ==> Window(s.pc).value in s.c.guards)
  }

  ghost predicate LifeInv(s: State) { TableInv(s) && PcInv(s) }

  /** No two commands under which somebody may still act share a word. */
  ghost predicate DistinctInv(s: State)
  {
    s.c.ids.Keys == s.c.guards.Keys
    && forall g, h :: g in s.c.guards && h in s.c.guards && Busy(s, g) && Busy(s, h) && s.c.ids[g] == s.c.ids[h] ==> g == h
  }

  ghost predicate LogInv(s: State)
  {
    forall i :: 0 <= i < |s.c.log| ==> s.c.log[i].window == Some(s.c.log[i].target) && s.c.log[i].alive
  }

  ghost predicate Safe(s: State) { WordInv(s) && LifeInv(s) && DistinctInv(s) && LogInv(s) }

  lemma AdvanceKeepsWord(s: State)
    requires Safe(s) && Enabled(s, Advance) && !Wraps(s.pc)
    ensures WordInv(Advanced(s))
  {
  }

  lemma WrapUpKeepsWord(s: State)
    requires Safe(s) && Enabled(s, Advance) && Wraps(s.pc)
    ensures WordInv(Advanced(s))
  {
  }

  lemma AdvanceKeepsPc(s: State)
    requires PcInv(s) && Enabled(s, Advance)
    ensures PcInv(Advanced(s))
  {
  }

  lemma WorkKeepsTable(s: State)
    requires TableInv(s)
    ensures TableInv(Worked(s))
  {
  }

  lemma WrapUpKeepsTable(s: State)
    requires TableInv(s)
    ensures TableInv(WrappedUp(s))
  {
  }

  lemma AdvanceKeepsLife(s: State)
    requires LifeInv(s) && Enabled(s, Advance)
    ensures LifeInv(Advanced(s))
  {
    WorkKeepsTable(s);
    WrapUpKeepsTable(s);
    AdvanceKeepsPc(s);
  }

  predicate Drops(step: Step)
  {
    step.SetFlag? || step.Claim? || step.LoadConnection? || step.Interrupt? || step.Restore?
  }

  lemma GuardKeepsWord(s: State, step: Step)
    requires WordInv(s) && LifeInv(s) && DistinctInv(s) && Enabled(s, step) && Drops(step)
    ensures WordInv(Apply(s, step))
  {
    if step.Claim? && Named(s, step.id, s.active) {
      var w := Window(s.pc).value;
      assert Busy(s, step.id) && Busy(s, w);
    }
  }

  /** What a guard on its way through `drop` leaves alone. */
  lemma GuardFrame(s: State, step: Step)
    requires Enabled(s, step) && Drops(step)
    ensures var r := Apply(s, step);
      && r == s.(active := r.active, c := r.c) && step.id in s.c.guards
      && r.c.ids == s.c.ids && r.c.submitted == s.c.submitted && r.c.guards.Keys == s.c.guards.Keys
  {
  }

  lemma GuardKeepsTable(s: State, step: Step)
    requires WordInv(s) && LifeInv(s) && Enabled(s, step) && Drops(step)
    ensures TableInv(Apply(s, step))
  {
    GuardFrame(s, step);
    if step.LoadConnection? { assert Window(s.pc) == Some(step.id); }
  }

  lemma GuardKeepsLife(s: State, step: Step)
    requires WordInv(s) && LifeInv(s) && Enabled(s, step) && Drops(step)
    ensures LifeInv(Apply(s, step))
  {
    GuardFrame(s, step);
    GuardKeepsTable(s, step);
  }

  lemma OtherKeepsWord(s: State, step: Step)
    requires WordInv(s) && LifeInv(s) && Enabled(s, step) && !step.Advance? && !Drops(step)
    ensures WordInv(Apply(s, step))
  {
  }

  lemma OtherKeepsTable(s: State, step: Step)
    requires TableInv(s) && Enabled(s, step) && !step.Advance? && !Drops(step)
    ensures TableInv(Apply(s, step))
  {
    if step.NewGuard? || step.Enqueue? || step.Disarm? { CallerKeepsTable(s, step); }
  }

  lemma CallerKeepsTable(s: State, step: Step)
    requires TableInv(s) && Enabled(s, step) && (step.NewGuard? || step.Enqueue? || step.Disarm?)
    ensures TableInv(Apply(s, step))
  {
  }

  lemma OtherKeepsPc(s: State, step: Step)
    requires LifeInv(s) && Enabled(s, step) && !step.Advance? && !Drops(step)
    ensures PcInv(Apply(s, step))
  {
    if step.Take? { assert s.queue[0] in s.queue; }
  }

  lemma OtherKeepsLife(s: State, step: Step)
    requires LifeInv(s) && Enabled(s, step) && !step.Advance? && !Drops(step)
    ensures LifeInv(Apply(s, step))
  {
    OtherKeepsTable(s, step);
    OtherKeepsPc(s, step);
  }

  lemma DistinctCarries(s: State, s': State)
    requires DistinctInv(s) && s'.c.ids == s.c.ids && s'.c.guards.Keys == s.c.guards.Keys
    requires forall g :: g in s.c.guards && Busy(s', g) ==> Busy(s, g)
    ensures DistinctInv(s')
  {
  }

  /** Apart from a new one, no command becomes busy. */
  lemma GuardWakesNone(s: State, step: Step, g: nat)
    requires Enabled(s, step) && Drops(step) && g in s.c.guards && Busy(Apply(s, step), g)
    ensures Busy(s, g)
  {
  }

  lemma AdvanceWakesNone(s: State, g: nat)
    requires Enabled(s, Advance) && g in s.c.guards && Busy(Advanced(s), g)
    ensures Busy(s, g)
  {
  }

  lemma OtherWakesNone(s: State, step: Step, g: nat)
    requires Enabled(s, step) && !Drops(step) && !step.Advance? && !step.NewGuard?
    requires g in s.c.guards && Busy(Apply(s, step), g)
    ensures Busy(s, g)
  {
    if step.Take? { assert s.queue[0] in s.queue; }
  }

  lemma NewKeepsDistinct(s: State, id: nat, word: nat)
    requires DistinctInv(s) && LifeInv(s) && Enabled(s, NewGuard(id, word))
    ensures DistinctInv(s.(c := s.c.(guards := s.c.guards[id := Armed], ids := s.c.ids[id := word])))
  {
    var s' := s.(c := s.c.(guards := s.c.guards[id := Armed], ids := s.c.ids[id := word]));
    forall g | g in s.c.guards && Busy(s', g) ensures Busy(s, g) && s'.c.ids[g] == s.c.ids[g] {}
  }

  lemma StepKeepsDistinct(s: State, step: Step)
    requires DistinctInv(s) && LifeInv(s) && Enabled(s, step)
    ensures DistinctInv(Apply(s, step))
  {
    if step.NewGuard? {
      NewKeepsDistinct(s, step.id, step.word);
    } else {
      var s' := Apply(s, step);
      forall g | g in s.c.guards && Busy(s', g) ensures Busy(s, g) {
        if step.Advance? { AdvanceWakesNone(s, g); }
        else if Drops(step) { GuardWakesNone(s, step, g); }
        else { OtherWakesNone(s, step, g); }
      }
      KeysKept(s, step);
      DistinctCarries(s, s');
    }
  }

  lemma KeysKept(s: State, step: Step)
    requires Enabled(s, step) && !step.NewGuard?
    ensures Apply(s, step).c.ids == s.c.ids && Apply(s, step).c.guards.Keys == s.c.guards.Keys
  {
    if Drops(step) { GuardFrame(s, step); }
  }

  lemma StepKeepsLog(s: State, step: Step)
    requires Safe(s) && Enabled(s, step)
    ensures LogInv(Apply(s, step))
  {
    if step.Interrupt? { assert Window(s.pc) == Some(step.id); }
  }

  lemma StepKeepsSafe(s: State, step: Step)
    requires Safe(s) && Enabled(s, step)
    ensures Safe(Apply(s, step))
  {
    StepKeepsLog(s, step);
    StepKeepsDistinct(s, step);
    if step.Advance? {
      if Wraps(s.pc) { WrapUpKeepsWord(s); } else { AdvanceKeepsWord(s); }
      AdvanceKeepsLife(s);
    } else if Drops(step) {
      GuardKeepsWord(s, step);
      GuardKeepsLife(s, step);
    } else {
      OtherKeepsWord(s, step);
      OtherKeepsLife(s, step);
    }
  }

  /** Over every run: each interrupt falls inside the window of the command it was meant for, on a live connection. */
  lemma InterruptsHitTheirCommand(run: seq<State>)
    requires IsRun(Init, Next, run)
    ensures forall i :: 0 <= i < |run| ==> LogInv(run[i]) && !run[i].pc.Panicked?
  {
    SafeInductive();
    InductiveHolds(Init, Next, Safe, run);
  }

  lemma SafeInductive()
    ensures Inductive(Init, Next, Safe)
  {
    forall s, s' | Safe(s) && Next(s, s') ensures Safe(s') {
      var step :| Enabled(s, step) && s' == Apply(s, step);
      StepKeepsSafe(s, step);
    }
  }

  // ---------------------------------------------------------------- which cancellations are lost

  /** The guard went through `drop`, and its interrupt did not find the command. */
  ghost predicate DroppedSilently(s: State, g: nat) { At(s, g, Dropped) && g !in s.c.interrupted }

  /** The command runs on although its caller has cancelled it. */
  ghost predicate Lost(s: State, g: nat) { DroppedSilently(s, g) && g in s.started && g !in s.finished }

  /** Whoever is on the way through `drop` has set its flag, and only the running command is started and unfinished. */
  ghost predicate FlagInv(s: State)
  {
    && (forall g :: g in s.c.guards && (s.c.guards[g].FlagSet? || Holding(s.c.guards[g]) || s.c.guards[g].Dropped?) ==> g in s.c.cancelled)
    && (forall g :: g in s.started ==> g in s.finished || s.pc == Running(g))
  }

  /** The worker and the guard of its command have seen each other, unless the publication is still in the buffer. */
  ghost predicate RaceInv(s: State)
  {
    && (s.pc.SecondCheck? && s.buffer.None? ==> Named(s, s.pc.id, s.active) || s.pc.id in s.c.cancelled)
    && (s.pc.Entered? || s.pc.Running? ==>
          && s.pc.id in s.c.guards
          && if s.c.guards[s.pc.id].Dropped? then s.pc.id in s.c.interrupted || s.pc.id in s.c.missed
             else Named(s, s.pc.id, s.active) || Holding(s.c.guards[s.pc.id]) || s.buffer.Some?)
  }

  ghost predicate MissInv(s: State)
  {
    && (forall g :: g in s.c.missed ==> DroppedSilently(s, g))
    && (s.fenced ==> s.c.missed == {} && (s.pc.Entered? || s.pc.Running? ==> s.buffer.None?))
  }

  ghost predicate FullInv(s: State) { Safe(s) && FlagInv(s) && RaceInv(s) && MissInv(s) }

  lemma StepKeepsFlag(s: State, step: Step)
    requires FlagInv(s) && Enabled(s, step)
    ensures FlagInv(Apply(s, step))
  {
    if step.Advance? { AdvanceKeepsFlag(s); }
  }

  lemma WorkKeepsFlag(s: State)
    requires FlagInv(s)
    ensures FlagInv(Worked(s))
  {
  }

  lemma AdvanceKeepsFlag(s: State)
    requires FlagInv(s) && Enabled(s, Advance)
    ensures FlagInv(Advanced(s))
  {
    if !Wraps(s.pc) { WorkKeepsFlag(s); }
  }

  lemma AdvanceKeepsRace(s: State)
    requires LifeInv(s) && FlagInv(s) && RaceInv(s) && Enabled(s, Advance)
    ensures RaceInv(Advanced(s))
  {
  }

  lemma GuardKeepsRace(s: State, step: Step)
    requires WordInv(s) && LifeInv(s) && FlagInv(s) && RaceInv(s) && Enabled(s, step) && Drops(step)
    requires WordInv(Apply(s, step))
    ensures RaceInv(Apply(s, step))
  {
    if step.Claim? && Named(s, step.id, s.active) {
      assert Holding(Apply(s, step).c.guards[step.id]);
    }
  }

  lemma OtherKeepsRace(s: State, step: Step)
    requires WordInv(s) && LifeInv(s) && RaceInv(s) && Enabled(s, step) && !step.Advance? && !Drops(step)
    ensures RaceInv(Apply(s, step))
  {
  }

  lemma AdvanceKeepsMiss(s: State)
    requires MissInv(s) && Enabled(s, Advance)
    ensures MissInv(Advanced(s))
  {
  }

  lemma GuardKeepsMiss(s: State, step: Step)
    requires WordInv(s) && LifeInv(s) && MissInv(s) && Enabled(s, step) && Drops(step)
    ensures MissInv(Apply(s, step))
  {
  }

  lemma OtherKeepsMiss(s: State, step: Step)
    requires MissInv(s) && Enabled(s, step) && !step.Advance? && !Drops(step)
    ensures MissInv(Apply(s, step))
  {
  }

  lemma StepKeepsHandshake(s: State, step: Step)
    requires FullInv(s) && Enabled(s, step) && WordInv(Apply(s, step))
    ensures var s' := Apply(s, step); FlagInv(s') && RaceInv(s') && MissInv(s')
  {
    StepKeepsFlag(s, step);
    if step.Advance? {
      AdvanceKeepsRace(s);
      AdvanceKeepsMiss(s);
    } else if Drops(step) {
      GuardKeepsRace(s, step);
      GuardKeepsMiss(s, step);
    } else {
      OtherKeepsRace(s, step);
      OtherKeepsMiss(s, step);
    }
  }

  /** What a silent drop that did not miss settles for good: the command never starts afterwards. */
  ghost predicate StaysSettled(s: State, s': State)
  {
    forall g :: g in s.c.guards && DroppedSilently(s, g) && g !in s.c.missed ==>
      && g in s'.c.guards && DroppedSilently(s', g) && g !in s'.c.missed
      && s.finished <= s'.finished
      && (g !in s.started ==> g !in s'.started)
  }

  lemma AdvanceStaysSettled(s: State)
    requires RaceInv(s) && Enabled(s, Advance)
    ensures StaysSettled(s, Advanced(s))
  {
  }

  lemma OtherStaysSettled(s: State, step: Step)
    requires Enabled(s, step) && !step.Advance?
    ensures StaysSettled(s, Apply(s, step))
  {
  }

  lemma StepStaysSettled(s: State, step: Step)
    requires RaceInv(s) && Enabled(s, step)
    ensures StaysSettled(s, Apply(s, step))
  {
    if step.Advance? { AdvanceStaysSettled(s); } else { OtherStaysSettled(s, step); }
  }

  lemma FullInductive()
    ensures Inductive(Init, Next, FullInv)
    ensures forall s, s' :: FullInv(s) && Next(s, s') ==> StaysSettled(s, s')
  {
    forall s, s' | FullInv(s) && Next(s, s') ensures FullInv(s') && StaysSettled(s, s') {
      var step :| Enabled(s, step) && s' == Apply(s, step);
      StepKeepsSafe(s, step);
      StepKeepsHandshake(s, step);
      StepStaysSettled(s, step);
    }
  }

  lemma Reached(run: seq<State>, i: nat)
    requires IsRun(Init, Next, run) && i < |run|
    ensures FullInv(run[i])
  {
    FullInductive();
    InductiveHolds(Init, Next, FullInv, run);
  }

  /** On every run, fenced or not: a cancelled command runs on uninterrupted if and only if its guard's claim came while
      the worker was past the second check with its publication still in the store buffer. */
  lemma CancellationLostIff(run: seq<State>, i: nat, g: nat)
    requires IsRun(Init, Next, run) && i < |run|
    ensures Lost(run[i], g) <==> g in run[i].c.missed && g in run[i].started && g !in run[i].finished
  {
    Reached(run, i);
  }

  /** Any other cancellation holds for good: at the end of `drop` the command was interrupted, is over, or has not
      started and never will. */
  lemma NoCancellationLost(run: seq<State>, i: nat, j: nat, g: nat)
    requires IsRun(Init, Next, run) && i <= j < |run|
    requires g in run[i].c.guards && DroppedSilently(run[i], g) && g !in run[i].c.missed
    ensures g in run[i].finished || (g !in run[i].started && g !in run[j].started)
    ensures g in run[j].c.guards && DroppedSilently(run[j], g)
  {
    FullInductive();
    Reached(run, i);
    StepwiseRelated(Init, Next, FullInv, StaysSettled, run, i, j);
  }

  /** Where the publication is visible before the second check, no claim ever misses, so nothing is lost. */
  lemma FencedNeverMisses(run: seq<State>, i: nat, g: nat)
    requires IsRun(Init, Next, run) && i < |run| && run[i].fenced
    ensures run[i].c.missed == {} && !Lost(run[i], g)
  {
    Reached(run, i);
  }

  /** One command submitted under the word 1, its guard armed. */
  function OneGuard(taken: nat): Callers { Callers(map[1 := 1], map[1 := Armed], {}, {1}, {}, {}, [], [1], taken, {}) }

  lemma UnfencedTaken() returns (run: seq<State>)
    ensures IsRun(Init, Next, run)
    ensures run[|run| - 1] == State(
      false, 0, None, true, true, [], FirstCheck(1), {}, {}, OneGuard(1))
  {
    run := UnfencedQueued();
    var s;
    s, run := Do(run, Open(true));
    s, run := Do(run, Take);
  }

  lemma UnfencedQueued() returns (run: seq<State>)
    ensures IsRun(Init, Next, run)
    ensures run[|run| - 1] == State(false, 0, None, false, false, [1], Opening, {}, {}, OneGuard(0))
  {
    run := [State(false, 0, None, false, false, [], Opening, {}, {}, Callers(map[], map[], {}, {}, {}, {}, [], [], 0, {}))];
    var s;
    s, run := Do(run, NewGuard(1, 1));
    s, run := Do(run, Enqueue(1));
  }

  /** Up to a command that runs while its publication still sits in the store buffer. */
  lemma UnfencedStart() returns (run: seq<State>)
    ensures IsRun(Init, Next, run)
    ensures run[|run| - 1] == State(
      false, 0, Some(1), true, true, [], Running(1), {1}, {}, OneGuard(1))
  {
    run := UnfencedTaken();
    var s;
    s, run := Do(run, Advance);
    s, run := Do(run, Advance);
    s, run := Do(run, Advance);
    s, run := Do(run, Advance);
  }

  /** Without the fence the same program loses one: the worker's load runs ahead of its own buffered store. */
  lemma UnfencedCanLose()
    ensures exists run: seq<State> ::
      IsRun(Init, Next, run) && !run[|run| - 1].fenced && Lost(run[|run| - 1], 1)
  {
    var run := UnfencedStart();
    var s;
    s, run := Do(run, SetFlag(1));
    s, run := Do(run, Claim(1));
    assert Lost(s, 1);
  }

  lemma Do(run: seq<State>, step: Step) returns (s: State, longer: seq<State>)
    requires IsRun(Init, Next, run) && Enabled(run[|run| - 1], step)
    ensures s == Apply(run[|run| - 1], step)
    ensures longer == run + [s] && IsRun(Init, Next, longer)
  {
    s := Apply(run[|run| - 1], step);
    longer := run + [s];
    Extend(Init, Next, run, s);
  }

  // ---------------------------------------------------------------- every command runs, in order

  /** The worker is past its last command. */
  predicate Over(pc: Pc) { pc.ClearConnection? || pc.ClearActive? || pc.DropDatabase? || pc.Stopped? }

  /** The worker has a command in its hands. */
  predicate InHand(pc: Pc) { pc.FirstCheck? || pc.Publish? || Window(pc).Some? }

  /** The command has run, was cancelled, or nobody listened for its reply. */
  predicate Settled(s: State, id: nat) { id in s.finished || id in s.c.cancelled || id in s.c.unheard }

  ghost predicate LineInv(s: State)
  {
    && s.c.taken <= |s.c.line|
    && (!Over(s.pc) ==> s.queue == s.c.line[s.c.taken..])
    && (forall i :: 0 <= i < s.c.taken ==> Settled(s, s.c.line[i]) || (i == s.c.taken - 1 && InHand(s.pc)))
    && (InHand(s.pc) ==> s.c.taken > 0 && s.c.line[s.c.taken - 1] == s.pc.id)
    && (forall id :: id in s.c.line <==> id in s.c.submitted)
    && (forall i, j :: 0 <= i < j < |s.c.line| ==> s.c.line[i] != s.c.line[j])
    && (forall id :: id in s.started ==> id in s.c.line[..s.c.taken])
    && s.finished <= s.started
    && (s.pc.Running? ==> s.pc.id in s.started)
    && ((s.pc.Finish? || s.pc.Spin?) ==> Settled(s, s.pc.id))
    && !s.pc.Panicked?
  }

  ghost predicate ReleaseInv(s: State)
  {
    && (s.pc.Opening? ==> !s.connection && !s.alive && s.active == 0)
    && (s.pc.ClearActive? || s.pc.DropDatabase? || s.pc.Stopped? ==> !s.connection)
    && (s.pc.Stopped? ==> !s.alive && s.active == 0)
  }

  lemma EnqueueKeepsLine(s: State, id: nat)
    requires LineInv(s) && Enabled(s, Enqueue(id))
    ensures LineInv(Apply(s, Enqueue(id)))
  {
    var s' := Apply(s, Enqueue(id));
    assert forall i :: 0 <= i < |s.c.line| ==> s'.c.line[i] == s.c.line[i];
    assert s'.c.line[|s.c.line|] == id;
    assert s'.c.line[..s.c.taken] == s.c.line[..s.c.taken];
    assert forall t :: t in s'.c.line <==> t in s.c.line || t == id;
    if !Over(s.pc) { assert s'.c.line[s.c.taken..] == s.c.line[s.c.taken..] + [id]; }
  }

  lemma TakeKeepsLine(s: State)
    requires LineInv(s) && Enabled(s, Take)
    ensures LineInv(Apply(s, Take))
  {
    var s' := Apply(s, Take);
    var k := s.c.taken;
    assert s.queue[0] == s.c.line[k];
    assert s.queue[1..] == s.c.line[k + 1..];
    assert s.c.line[..k + 1] == s.c.line[..k] + [s.c.line[k]];
  }

  lemma AdvanceKeepsLine(s: State)
    requires LineInv(s) && FlagInv(s) && Enabled(s, Advance) && !Advanced(s).pc.Panicked?
    ensures LineInv(Advanced(s))
  {
    if Wraps(s.pc) { WrapUpKeepsLine(s); } else { WorkKeepsLine(s); }
  }

  lemma WorkKeepsLine(s: State)
    requires LineInv(s) && !Wraps(s.pc)
    ensures LineInv(Worked(s))
  {
    var k := s.c.taken;
    if s.pc.Entered? {
      assert s.c.line[..k][k - 1] == s.pc.id;
    }
  }

  /** Only the worker has moved on, and it let go of a settled command if of any. */
  ghost predicate MovesOn(s: State, s': State)
  {
    && s' == s.(active := s'.active, connection := s'.connection, alive := s'.alive, pc := s'.pc)
    && !s'.pc.Panicked? && !s'.pc.Running? && (Over(s.pc) ==> Over(s'.pc))
    && (InHand(s.pc) ==> Settled(s, s.pc.id))
    && (InHand(s'.pc) ==> InHand(s.pc) && s'.pc.id == s.pc.id)
  }

  lemma WrapUpMovesOn(s: State)
    requires (s.pc.Finish? || s.pc.Spin?) ==> Settled(s, s.pc.id)
    requires !WrappedUp(s).pc.Panicked? && Wraps(s.pc)
    ensures MovesOn(s, WrappedUp(s))
  {
  }

  lemma MovingOnKeepsLine(s: State, s': State)
    requires LineInv(s) && MovesOn(s, s')
    ensures LineInv(s')
  {
  }

  lemma WrapUpKeepsLine(s: State)
    requires LineInv(s) && !WrappedUp(s).pc.Panicked? && Wraps(s.pc)
    ensures LineInv(WrappedUp(s))
  {
    WrapUpMovesOn(s);
    MovingOnKeepsLine(s, WrappedUp(s));
  }

  lemma OtherKeepsLine(s: State, step: Step)
    requires LineInv(s) && Enabled(s, step) && !step.Enqueue? && !step.Take? && !step.Advance?
    ensures LineInv(Apply(s, step))
  {
    if step.Open? || step.Close? || step.ReplyClosed? {
      PhaseKeepsLine(s, step);
    } else {
      CallerFrame(s, step);
      CallerKeepsLine(s, Apply(s, step));
    }
  }

  lemma PhaseKeepsLine(s: State, step: Step)
    requires LineInv(s) && Enabled(s, step) && (step.Open? || step.Close? || step.ReplyClosed?)
    ensures LineInv(Apply(s, step))
  {
    if step.ReplyClosed? {
      UnheardKeepsLine(s);
    } else if step == Open(true) {
      assert Apply(s, step) == s.(connection := true, alive := true, pc := Idle);
    } else {
      LeavingKeepsLine(s, Apply(s, step));
    }
  }

  lemma UnheardKeepsLine(s: State)
    requires LineInv(s) && s.pc.Entered?
    ensures LineInv(Apply(s, ReplyClosed))
  {
  }

  lemma LeavingKeepsLine(s: State, s': State)
    requires LineInv(s) && !InHand(s.pc) && s' == s.(queue := s'.queue, pc := s'.pc) && Over(s'.pc)
    ensures LineInv(s')
  {
  }

  ghost predicate OnlyCallers(s: State, s': State)
  {
    && s' == s.(active := s'.active, buffer := s'.buffer, c := s'.c)
    && s'.c.line == s.c.line && s'.c.taken == s.c.taken && s'.c.submitted == s.c.submitted
    && s.c.cancelled <= s'.c.cancelled && s'.c.unheard == s.c.unheard
  }

  lemma CallerFrame(s: State, step: Step)
    requires Enabled(s, step) && (step.NewGuard? || step.Disarm? || step.Drain? || Drops(step))
    ensures OnlyCallers(s, Apply(s, step))
  {
  }

  lemma CallerKeepsLine(s: State, s': State)
    requires LineInv(s) && OnlyCallers(s, s')
    ensures LineInv(s')
  {
  }

  lemma StepKeepsLine(s: State, step: Step)
    requires FullInv(s) && LineInv(s) && Enabled(s, step) && FullInv(Apply(s, step))
    ensures LineInv(Apply(s, step))
  {
    match step
    case Enqueue(id) => EnqueueKeepsLine(s, id);
    case Take => TakeKeepsLine(s);
    case Advance => AdvanceKeepsLine(s);
    case _ => OtherKeepsLine(s, step);
  }

  lemma StepKeepsRelease(s: State, step: Step)
    requires FullInv(s) && ReleaseInv(s) && Enabled(s, step)
    ensures ReleaseInv(Apply(s, step))
  {
    if step.Advance? { AdvanceReleases(s); } else { OtherKeepsRelease(s, step); }
  }

  lemma AdvanceReleases(s: State)
    requires FullInv(s) && ReleaseInv(s) && Enabled(s, Advance)
    ensures ReleaseInv(Advanced(s))
  {
  }

  lemma OtherKeepsRelease(s: State, step: Step)
    requires FullInv(s) && ReleaseInv(s) && Enabled(s, step) && !step.Advance?
    ensures ReleaseInv(Apply(s, step))
  {
  }

  ghost predicate ServiceInv(s: State) { FullInv(s) && LineInv(s) && ReleaseInv(s) }

  lemma InitInService(s: State)
    requires Init(s)
    ensures ServiceInv(s)
  {
  }

  lemma NextKeepsService(s: State, s': State)
    requires ServiceInv(s) && Next(s, s')
    ensures ServiceInv(s')
  {
    assert FullInv(s') by { FullInductive(); }
    var step :| Enabled(s, step) && s' == Apply(s, step);
    StepKeepsLine(s, step);
    StepKeepsRelease(s, step);
  }

  lemma ServiceInductive()
    ensures Inductive(Init, Next, ServiceInv)
  {
    forall s | Init(s) ensures ServiceInv(s) { InitInService(s); }
    forall s, s' | ServiceInv(s) && Next(s, s') ensures ServiceInv(s') { NextKeepsService(s, s'); }
  }

  /** On every run commands are taken up in the order they were submitted, one at a time: when one has started, each one
      before it has run, was cancelled, or nobody listened; and an idle worker with an empty queue has settled all. */
  lemma CommandsRunInOrder(run: seq<State>, i: nat, a: nat, b: nat)
    requires IsRun(Init, Next, run) && i < |run|
    ensures a < b < |run[i].c.line| && run[i].c.line[b] in run[i].started ==> Settled(run[i], run[i].c.line[a])
    ensures run[i].pc.Idle? && run[i].queue == [] && a in run[i].c.submitted ==> Settled(run[i], a)
    ensures a in run[i].finished ==> a in run[i].started
  {
    ServiceInductive();
    InductiveHolds(Init, Next, ServiceInv, run);
    var s := run[i];
    assert ServiceInv(s);
    if a < b < |s.c.line| && s.c.line[b] in s.started {
      var k :| 0 <= k < s.c.taken && s.c.line[k] == s.c.line[b];
    }
    if s.pc.Idle? && s.queue == [] && a in s.c.submitted {
      var k :| 0 <= k < |s.c.line| && s.c.line[k] == a;
      assert s.c.taken == |s.c.line|;
    }
  }

  /** On every run a stopped worker has let go of its connection and its database, and of the shared word. */
  lemma StoppedHasReleased(run: seq<State>, i: nat)
    requires IsRun(Init, Next, run) && i < |run| && run[i].pc.Stopped?
    ensures !run[i].connection && !run[i].alive && run[i].active == 0
  {
    ServiceInductive();
    InductiveHolds(Init, Next, ServiceInv, run);
    assert ServiceInv(run[i]);
  }

  // ---------------------------------------------------------------- command ids

  /** The id counter wraps around 64 bits and skips the two reserved values. */
  method NextCommandId(counter: nat) returns (id: nat, counter': nat)
    requires counter < U64_MODULUS
    ensures 0 < id < CANCELING && counter' == id
    ensures counter + 1 < CANCELING ==> id == counter + 1
    ensures counter + 1 >= CANCELING ==> id == 1
  {
    counter' := counter;
    while true
      invariant counter' < U64_MODULUS
      invariant counter' == counter || (counter + 1 >= CANCELING && (counter' == CANCELING || counter' == 0))
      decreases if counter' == 0 then 0 else U64_MODULUS - counter'
    {
      counter' := (counter' + 1) % U64_MODULUS;
      id := counter';
      if id != 0 && id != CANCELING { return; }
    }
  }
}
