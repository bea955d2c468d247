/**
 The actor turn: one mutex that serializes callbacks, and the caller identity `current` that belongs to whoever
 holds it. Callbacks may yield the turn while they wait on a queue (saving and clearing the identity) and Run may
 give it up around keep-awake work (which does neither).
 */
module TurnOwnership {
  import opened Common
  import opened Runs

  /** An action may have been called over a connection; Run and the lifecycle callbacks have no caller. */
  datatype Kind = Action(caller: Option<nat>) | RunLoop | Hook

  datatype Phase =
    | Queued | Holding | Body
    | Yielding(saved: Option<nat>) | Away(saved: Option<nat>) | Back(saved: Option<nat>)
    | KeptAwake | Cleared | Finished

  datatype Callback = Callback(kind: Kind, phase: Phase)

  datatype Observation = Observation(callback: nat, seen: Option<nat>)

  /** `leaked`: some keep-awake call gave the turn up while the identity was set. */
  datatype State = State(
    leaked: bool,
    owner: Option<nat>,
    current: Option<nat>,
    callbacks: map<nat, Callback>,
    log: seq<Observation>)

  datatype Step =
    | Start(c: nat, kind: Kind) | Lock(c: nat) | Enter(c: nat) | GiveUp(c: nat)
    | Observe(c: nat) | SaveCaller(c: nat) | UnlockForWait(c: nat) | RestoreCaller(c: nat)
    | KeepAwake(c: nat) | ClearCaller(c: nat) | Unlock(c: nat)

  function Caller(kind: Kind): Option<nat> { if kind.Action? then kind.caller else None }

  predicate In(s: State, c: nat, phase: Phase) { c in s.callbacks && s.callbacks[c].phase == phase }

  predicate Enabled(s: State, step: Step)
  {
    match step
    case Start(c, _) => c !in s.callbacks
    case Lock(c) =>
      s.owner.None? && c in s.callbacks
      && (s.callbacks[c].phase.Queued? || s.callbacks[c].phase.Away? || s.callbacks[c].phase.KeptAwake?)
    case Enter(c) => In(s, c, Holding)
    case GiveUp(c) => In(s, c, Holding)
    case Observe(c) => In(s, c, Body)
    case SaveCaller(c) => In(s, c, Body)
    case UnlockForWait(c) => c in s.callbacks && s.callbacks[c].phase.Yielding?
    case RestoreCaller(c) => c in s.callbacks && s.callbacks[c].phase.Back?
    case KeepAwake(c) => In(s, c, Body)
    case ClearCaller(c) => In(s, c, Body)
    case Unlock(c) => In(s, c, Cleared)
  }

  function To(s: State, c: nat, phase: Phase): State
    requires c in s.callbacks
  {
    s.(callbacks := s.callbacks[c := s.callbacks[c].(phase := phase)])
  }

  function Apply(s: State, step: Step): State
    requires Enabled(s, step)
  {
    match step
    case Start(c, kind) => s.(callbacks := s.callbacks[c := Callback(kind, Queued)])
    case Lock(c) =>
      To(s, c, match s.callbacks[c].phase
               case Away(saved) => Back(saved)
               case KeptAwake => Body
               case _ => Holding).(owner := Some(c))
    // Only an action stores its caller; everything else runs with what it found.
    case Enter(c) =>
      if s.callbacks[c].kind.Action? then To(s, c, Body).(current := s.callbacks[c].kind.caller) else To(s, c, Body)
    case GiveUp(c) => To(s, c, Finished).(owner := None)
    case Observe(c) => s.(log := s.log + [Observation(c, s.current)])
    case SaveCaller(c) => To(s, c, Yielding(s.current)).(current := None)
    case UnlockForWait(c) => To(s, c, Away(s.callbacks[c].phase.saved)).(owner := None)
    case RestoreCaller(c) => To(s, c, Body).(current := s.callbacks[c].phase.saved)
    // Plain unlock: nothing is saved or cleared.
    case KeepAwake(c) => To(s, c, KeptAwake).(owner := None, leaked := s.leaked || s.current.Some?)
    case ClearCaller(c) => if s.callbacks[c].kind.Action? then To(s, c, Cleared).(current := None) else To(s, c, Cleared)
    case Unlock(c) => To(s, c, Finished).(owner := None)
  }

  ghost predicate Init(s: State) { s == State(false, None, None, map[], []) }

  ghost predicate Next(s: State, s': State) { exists step :: Enabled(s, step) && s' == Apply(s, step) }

  predicate HasTurn(phase: Phase)
  {
    phase.Holding? || phase.Body? || phase.Yielding? || phase.Back? || phase.Cleared?
  }

  /** Whoever has the turn is the owner, the identity is its own while its body runs and nobody's otherwise. */
  ghost predicate Inv(s: State)
  {
    && (forall c :: c in s.callbacks && HasTurn(s.callbacks[c].phase) ==> s.owner == Some(c))
    && (s.owner.Some? ==> s.owner.value in s.callbacks && HasTurn(s.callbacks[s.owner.value].phase))
    && s.current == (if s.owner.Some? && s.callbacks[s.owner.value].phase.Body? then Caller(s.callbacks[s.owner.value].kind) else None)
    && (forall c :: c in s.callbacks ==>
          match s.callbacks[c].phase
          case Yielding(saved) => saved == Caller(s.callbacks[c].kind)
          case Away(saved) => saved == Caller(s.callbacks[c].kind)
          case Back(saved) => saved == Caller(s.callbacks[c].kind)
          case KeptAwake => Caller(s.callbacks[c].kind).None?
          case _ => true)
    && (forall i :: 0 <= i < |s.log| ==>
          s.log[i].callback in s.callbacks && s.log[i].seen == Caller(s.callbacks[s.log[i].callback].kind))
  }

  ghost predicate SafeUnlessLeaked(s: State) { s.leaked || Inv(s) }

  /** Steps that hand the turn over; the others happen inside it or before it. */
  predicate Hands(step: Step) { step.Lock? || step.GiveUp? || step.UnlockForWait? || step.KeepAwake? || step.Unlock? }

  lemma HandOverKeepsInv(s: State, step: Step)
    requires Inv(s) && Enabled(s, step) && Hands(step)
    ensures SafeUnlessLeaked(Apply(s, step))
  {
  }

  lemma InsideKeepsInv(s: State, step: Step)
    requires Inv(s) && Enabled(s, step) && !Hands(step)
    ensures Inv(Apply(s, step))
  {
    if !step.Start? && !step.Observe? { OwnerKeepsInv(s, step); }
  }

  /** The owner moves on and the identity with it. */
  lemma OwnerKeepsInv(s: State, step: Step)
    requires Inv(s) && Enabled(s, step) && !Hands(step) && !step.Start? && !step.Observe?
    ensures Inv(Apply(s, step))
  {
    assert s.owner == Some(step.c);
  }

  lemma StepKeepsInv(s: State, step: Step)
    requires SafeUnlessLeaked(s) && Enabled(s, step)
    ensures SafeUnlessLeaked(Apply(s, step))
    ensures s.leaked ==> Apply(s, step).leaked
    ensures !s.leaked && Apply(s, step).leaked ==> !FreeTurnHasNoCaller(Apply(s, step))
  {
    if !s.leaked {
      if Hands(step) { HandOverKeepsInv(s, step); } else { InsideKeepsInv(s, step); }
    }
  }

  ghost predicate FreeTurnHasNoCaller(s: State) { s.owner.None? ==> s.current.None? }

  lemma SafeInductive()
    ensures Inductive(Init, Next, SafeUnlessLeaked)
  {
    forall s, s' | SafeUnlessLeaked(s) && Next(s, s') ensures SafeUnlessLeaked(s') {
      var step :| Enabled(s, step) && s' == Apply(s, step);
      StepKeepsInv(s, step);
    }
  }

  lemma LeakedStays(run: seq<State>, i: nat, j: nat)
    requires IsRun(Init, Next, run) && i <= j < |run| && run[i].leaked
    ensures run[j].leaked
    decreases j
  {
    if i < j {
      LeakedStays(run, i, j - 1);
      assert Next(run[j - 1], run[j]);
    }
  }

  /** Up to a keep-awake call that gives the turn up with its caller still set, in every interleaving: a free turn
      has no caller, and every callback, before and after any number of yields, sees exactly its own caller. */
  lemma EveryCallbackSeesItsOwnCaller(run: seq<State>, i: nat)
    requires IsRun(Init, Next, run) && i < |run| && !run[i].leaked
    ensures FreeTurnHasNoCaller(run[i])
    ensures forall k :: 0 <= k < |run[i].log| ==>
      var o := run[i].log[k];
      o.callback in run[i].callbacks && o.seen == Caller(run[i].callbacks[o.callback].kind)
  {
    SafeInductive();
    InductiveHolds(Init, Next, SafeUnlessLeaked, run);
    assert SafeUnlessLeaked(run[i]);
  }

  /** That condition is exact: a run keeps the free turn free of callers if and only if it has no such call. */
  lemma FreeTurnIffNoLeak(run: seq<State>)
    requires IsRun(Init, Next, run)
    ensures (forall i :: 0 <= i < |run| ==> FreeTurnHasNoCaller(run[i])) <==> !run[|run| - 1].leaked
  {
    if !run[|run| - 1].leaked {
      forall i | 0 <= i < |run| ensures FreeTurnHasNoCaller(run[i]) {
        if run[i].leaked { LeakedStays(run, i, |run| - 1); }
        EveryCallbackSeesItsOwnCaller(run, i);
      }
    } else {
      var i := FirstLeak(run, |run| - 1);
      assert !FreeTurnHasNoCaller(run[i]);
    }
  }

  lemma FirstLeak(run: seq<State>, j: nat) returns (i: nat)
    requires IsRun(Init, Next, run) && j < |run| && run[j].leaked
    ensures i < |run| && !FreeTurnHasNoCaller(run[i])
    decreases j
  {
    assert Init(run[0]);
    assert Next(run[j - 1], run[j]);
    if run[j - 1].leaked {
      i := FirstLeak(run, j - 1);
    } else {
      i := j;
      SafeInductive();
      InductiveHolds(Init, Next, SafeUnlessLeaked, run);
      assert SafeUnlessLeaked(run[j - 1]);
      var step :| Enabled(run[j - 1], step) && run[j] == Apply(run[j - 1], step);
      StepKeepsInv(run[j - 1], step);
    }
  }

  /** Such a call is reachable for every caller: keep-awake work that an action starts through a Run context leaves
      the caller behind, and the next lifecycle callback, which has none, sees it. */
  lemma KeepAwakeFromActionLeaks(caller: nat)
    ensures exists run: seq<State> ::
      IsRun(Init, Next, run) && run[|run| - 1].log == [Observation(2, Some(caller))]
      && In(run[|run| - 1], 2, Body) && run[|run| - 1].callbacks[2].kind == Hook
  {
    var s := State(false, None, None, map[], []);
    var run := [s];
    s, run := Do(run, Start(1, Action(Some(caller))));
    s, run := Do(run, Start(2, Hook));
    s, run := Do(run, Lock(1));
    s, run := Do(run, Enter(1));
    s, run := Do(run, KeepAwake(1));
    s, run := Do(run, Lock(2));
    s, run := Do(run, Enter(2));
    s, run := Do(run, Observe(2));
    assert s.log == [Observation(2, Some(caller))];
  }

  lemma Do(run: seq<State>, step: Step) returns (s: State, longer: seq<State>)
    requires IsRun(Init, Next, run) && Enabled(run[|run| - 1], step)
    ensures s == Apply(run[|run| - 1], step)
    ensures longer == run + [s] && IsRun(Init, Next, longer)
  {
    s := Apply(run[|run| - 1], step);
    longer := run + [s];
    Extend(Init, Next, run, s);
  }
}
