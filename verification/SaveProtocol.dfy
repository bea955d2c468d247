/**
 Actor-state saves of one generation. A save registers a result channel, submits its snapshot to the native
 side and waits; the poll goroutine delivers the acknowledgement, which carries no save identity. Callers may
 give up at any moment, the session may be closed under them, and the actor may be removed.

 Each step is one mutex section or channel operation. The native side accepts or refuses each snapshot and
 acknowledges every accepted one exactly once. Tokens identify saves; the code sees only channels.
 */
module SaveProtocol {
  import opened Common
  import opened Runs

  /** The one goroutine inside `Save`: the session's save mutex admits no second. */
  datatype Saver = NoSaver | Begun | Registered(token: nat) | Waiting(token: nat)

  /** The poll goroutine's progress through one acknowledgement. */
  datatype Poll =
    | Ready
    | Acked(token: nat) | Found(token: nat) | Unknown(token: nat)
    | NoPending(token: nat) | Absorbing(token: nat) | SecondTry(token: nat)

  datatype Resolution = Resolution(ack: nat, save: nat)

  datatype State = State(
    accepting: bool,
    doneClosed: bool,
    live: bool,
    saver: Saver,
    saveResult: Option<nat>,
    poisoned: bool,
    late: bool,
    native: set<nat>,
    poll: Poll,
    abandoned: set<nat>,
    resolved: set<nat>,
    log: seq<Resolution>,
    next: nat,
    gapAbandon: bool,
    orphanRemoved: bool,
    failed: bool)

  datatype Step =
    | BeginSave | ContextDone | Register | SubmitFails | NativeAccepts
    | TakeResult | Abandon | SessionDone
    | StopAccepting | CloseDone | Abort | RemoveActor
    | PollAck(token: nat) | PollAdvance

  predicate InGap(poll: Poll) { poll.Absorbing? || poll.SecondTry? }

  predicate Enabled(s: State, step: Step)
  {
    !s.failed &&
    match step
    case BeginSave => s.saver.NoSaver? && s.accepting
    case ContextDone => s.saver.Begun?
    case Register => s.saver.Begun?
    case SubmitFails => s.saver.Registered?
    case NativeAccepts => s.saver.Registered?
    case TakeResult => s.saver.Waiting? && s.saver.token in s.resolved
    case Abandon => s.saver.Waiting?
    case SessionDone => s.saver.Waiting? && s.doneClosed
    case StopAccepting => true
    case CloseDone => !s.accepting && s.saver.NoSaver?
    case Abort => true
    case RemoveActor => s.live && !s.accepting && s.doneClosed && s.saver.NoSaver?
    case PollAck(t) => s.poll.Ready? && t in s.native
    case PollAdvance => !s.poll.Ready?
  }

  /** The late mark is consumed, or the pump stops with an unexpected-acknowledgement error. */
  function ConsumeOrFail(s: State, t: nat): State
  {
    if s.late then s.(late := false, abandoned := s.abandoned - {t}, poll := Ready) else s.(failed := true)
  }

  function Polled(s: State): State
  {
    match s.poll
    case Ready => s
    case Acked(t) => s.(poll := if s.live then Found(t) else Unknown(t))
    case Found(t) =>
      if s.saveResult.Some?
      then s.(saveResult := None, resolved := s.resolved + {s.saveResult.value},
              log := s.log + [Resolution(t, s.saveResult.value)], poll := Ready)
      else s.(poll := NoPending(t))
    case NoPending(t) => if s.poisoned then s.(poisoned := false, poll := Absorbing(t)) else s.(poll := SecondTry(t))
    case Absorbing(t) =>
      if s.late then s.(late := false, abandoned := s.abandoned - {t}, poll := Ready) else s.(poll := SecondTry(t))
    case SecondTry(t) => ConsumeOrFail(s, t)
    case Unknown(t) => ConsumeOrFail(s, t)
  }

  function Apply(s: State, step: Step): State
    requires Enabled(s, step)
  {
    match step
    case BeginSave => s.(saver := Begun)
    case ContextDone => s.(saver := NoSaver)
    case Register =>
      if s.poisoned || s.saveResult.Some? then s.(saver := NoSaver)
      else s.(saveResult := Some(s.next), saver := Registered(s.next), next := s.next + 1)
    case SubmitFails =>
      s.(saver := NoSaver, saveResult := if s.saveResult == Some(s.saver.token) then None else s.saveResult)
    case NativeAccepts => s.(saver := Waiting(s.saver.token), native := s.native + {s.saver.token})
    case TakeResult => s.(saver := NoSaver)
    case Abandon =>
      if s.saveResult == Some(s.saver.token)
      then s.(saver := NoSaver, saveResult := None, poisoned := true, late := true,
              abandoned := s.abandoned + {s.saver.token},
              gapAbandon := s.gapAbandon || InGap(s.poll))
      else s.(saver := NoSaver)
    case SessionDone => s.(saver := NoSaver)
    case StopAccepting => s.(accepting := false)
    case CloseDone => s.(doneClosed := true)
    case Abort => s.(accepting := false, doneClosed := true)
    case RemoveActor =>
      s.(live := false,
         orphanRemoved := s.orphanRemoved || (s.saveResult.Some? && s.poll != Found(s.saveResult.value)))
    case PollAck(t) => s.(native := s.native - {t}, poll := Acked(t))
    case PollAdvance => Polled(s)
  }

  ghost predicate Init(s: State)
  {
    s == State(true, false, true, NoSaver, None, false, false, {}, Ready, {}, {}, [], 0, false, false, false)
  }

  ghost predicate Next(s: State, s': State) { exists step :: Enabled(s, step) && s' == Apply(s, step) }

  // ---------------------------------------------------------------- invariant

  function PollHolds(poll: Poll): set<nat>
  {
    match poll
    case Acked(t) => {t}
    case Found(t) => {t}
    case Unknown(t) => {t}
    case NoPending(t) => {t}
    case _ => {}
  }

  /** Saves that native accepted and whose acknowledgement has not been matched yet. */
  function Unacknowledged(s: State): set<nat> { s.native + PollHolds(s.poll) }

  ghost predicate MatchInv(s: State)
  {
    && (forall a, b :: a in Unacknowledged(s) && b in Unacknowledged(s) ==> a == b)
    && s.native !! PollHolds(s.poll)
    && (forall t :: t in Unacknowledged(s) ==>
          t < s.next && t !in s.resolved && (s.saveResult == Some(t) || (s.saveResult.None? && s.poisoned && t in s.abandoned)))
    && (s.saveResult.Some? ==>
          var t := s.saveResult.value;
          && t < s.next && t !in s.resolved && !s.poisoned && t !in s.abandoned
          && (|| (s.saver == Registered(t) && Unacknowledged(s) == {})
              || (t in Unacknowledged(s) && (s.saver == Waiting(t) || (s.doneClosed && !s.accepting && s.saver.NoSaver?)))))
    && (s.saver.Registered? ==> s.saveResult == Some(s.saver.token))
    && (s.saver.Waiting? ==>
          || s.saveResult == Some(s.saver.token)
          || (s.saver.token in s.resolved && s.saveResult.None? && Unacknowledged(s) == {}))
    && (s.saver.Begun? ==> s.saveResult.None?)
    && (s.doneClosed ==> !s.accepting)
    && (!s.live ==> s.doneClosed && s.saver.NoSaver?)
    && (s.poll.NoPending? ==> s.saveResult.None?)
    && (s.poll.Unknown? ==> !s.live)
    && (s.poisoned && s.live ==> Unacknowledged(s) != {})
    && (forall t :: t in s.resolved || t in s.abandoned ==> t < s.next)
  }

  /** Acknowledgements resolve only the save that caused them, each save at most once. */
  ghost predicate LogInv(s: State)
  {
    && (forall i :: 0 <= i < |s.log| ==> s.log[i].ack == s.log[i].save && s.log[i].save in s.resolved)
    && (forall i, j :: 0 <= i < j < |s.log| ==> s.log[i].save != s.log[j].save)
  }

  function Count(b: bool): nat { if b then 1 else 0 }

  /** Marks against the acknowledgements entitled to one: the single mark bit is short by one exactly after a save was
      abandoned while an earlier late acknowledgement was still between clearing the flag and taking its mark. */
  ghost predicate MarkInv(s: State)
  {
    && (InGap(s.poll) ==> s.poll.token !in Unacknowledged(s))
    && s.abandoned == (if s.saveResult.None? then Unacknowledged(s) else {}) + (if InGap(s.poll) then {s.poll.token} else {})
    && Count(s.late) + Count(s.gapAbandon) == |s.abandoned|
    && (s.orphanRemoved ==> !s.live && s.saveResult.Some? && s.poll != Found(s.saveResult.value))
    && (!s.live && s.saveResult.Some? && s.poll != Found(s.saveResult.value) ==> s.orphanRemoved)
    && (s.failed ==> s.gapAbandon || s.orphanRemoved)
  }

  ghost predicate Inv(s: State) { MatchInv(s) && LogInv(s) && MarkInv(s) }

  predicate BySaver(step: Step) { !step.PollAck? && !step.PollAdvance? && !step.Abandon? }

  lemma SaverKeepsMatch(s: State, step: Step)
    requires MatchInv(s) && Enabled(s, step) && BySaver(step)
    ensures MatchInv(Apply(s, step))
  {
  }

  lemma SaverKeepsMarks(s: State, step: Step)
    requires MatchInv(s) && MarkInv(s) && Enabled(s, step) && BySaver(step)
    ensures MarkInv(Apply(s, step))
  {
  }

  lemma SaverKeepsLog(s: State, step: Step)
    requires LogInv(s) && Enabled(s, step) && BySaver(step)
    ensures LogInv(Apply(s, step))
  {
    assert Apply(s, step).log == s.log && Apply(s, step).resolved == s.resolved;
  }

  lemma SaverKeepsInv(s: State, step: Step)
    requires Inv(s) && Enabled(s, step) && BySaver(step)
    ensures Inv(Apply(s, step))
  {
    SaverKeepsMatch(s, step);
    SaverKeepsMarks(s, step);
    SaverKeepsLog(s, step);
  }

  lemma TheOnlyOne(s: State, t: nat)
    requires MatchInv(s) && t in Unacknowledged(s)
    ensures Unacknowledged(s) == {t}
  {
    forall u | u in Unacknowledged(s) ensures u == t {}
  }

  lemma AbandonKeepsInv(s: State)
    requires Inv(s) && Enabled(s, Abandon)
    ensures Inv(Apply(s, Abandon))
  {
    if s.saveResult == Some(s.saver.token) {
      var t := s.saver.token;
      TheOnlyOne(s, t);
      var s' := Apply(s, Abandon);
      assert AbandonedFrom(s, t, s');
      AbandonMatches(s, t, s');
      AbandonMarks(s, t, s');
    } else {
      NoSaverKeepsInv(s);
    }
  }

  lemma NoSaverKeepsInv(s: State)
    requires Inv(s) && s.saver.Waiting? && s.saveResult != Some(s.saver.token)
    ensures Inv(s.(saver := NoSaver))
  {
  }

  ghost predicate AbandonedFrom(s: State, t: nat, s': State)
  {
    && s.saver == Waiting(t) && s.saveResult == Some(t) && Unacknowledged(s) == {t}
    && s' == s.(saver := NoSaver, saveResult := None, poisoned := true, late := true,
                abandoned := s.abandoned + {t}, gapAbandon := s.gapAbandon || InGap(s.poll))
  }

  lemma AbandonMatches(s: State, t: nat, s': State)
    requires MatchInv(s) && LogInv(s) && AbandonedFrom(s, t, s')
    ensures MatchInv(s') && LogInv(s')
  {
  }

  lemma AbandonMarks(s: State, t: nat, s': State)
    requires MatchInv(s) && MarkInv(s) && AbandonedFrom(s, t, s')
    ensures MarkInv(s')
  {
    assert s.live && t !in s.abandoned;
    assert s'.abandoned == {t} + s.abandoned && |s'.abandoned| == |s.abandoned| + 1;
    if InGap(s.poll) { AbandonMarksInGap(s, t, s'); } else { AbandonMarksOutside(s, t, s'); }
  }

  lemma AbandonMarksOutside(s: State, t: nat, s': State)
    requires MarkInv(s) && AbandonedFrom(s, t, s') && !InGap(s.poll) && s.live && |s'.abandoned| == |s.abandoned| + 1
    ensures MarkInv(s')
  {
    assert s.abandoned == {};
    assert Unacknowledged(s') == {t};
  }

  lemma AbandonMarksInGap(s: State, t: nat, s': State)
    requires MarkInv(s) && AbandonedFrom(s, t, s') && InGap(s.poll) && s.live && |s'.abandoned| == |s.abandoned| + 1
    ensures MarkInv(s')
  {
    assert s.abandoned == {s.poll.token};
    assert Unacknowledged(s') == {t};
  }

  lemma PollAckKeepsInv(s: State, t: nat)
    requires Inv(s) && Enabled(s, PollAck(t))
    ensures Inv(Apply(s, PollAck(t)))
  {
    OnlyOne(s, t);
    var s' := s.(native := s.native - {t}, poll := Acked(t));
    PollAckMatches(s, t, s');
    PollAckMarks(s, t, s');
  }

  lemma OnlyOne(s: State, t: nat)
    requires MatchInv(s) && s.poll.Ready? && t in s.native
    ensures s.native == {t} && s.native - {t} == {}
    ensures Unacknowledged(s) == {t}
  {
    forall u | u in s.native ensures u == t { assert u in Unacknowledged(s) && t in Unacknowledged(s); }
  }

  lemma PollAckMarks(s: State, t: nat, s': State)
    requires Inv(s) && s.poll.Ready? && t in s.native
    requires s' == s.(native := {}, poll := Acked(t)) && Unacknowledged(s) == {t}
    ensures MarkInv(s')
  {
  }

  lemma PollAckMatches(s: State, t: nat, s': State)
    requires Inv(s) && s.poll.Ready? && t in s.native
    requires s' == s.(native := {}, poll := Acked(t)) && Unacknowledged(s) == {t}
    ensures MatchInv(s')
  {
  }

  /** Matching an acknowledgement with the pending save: the save in the slot is the one acknowledged. */
  lemma FoundKeepsInv(s: State)
    requires Inv(s) && Enabled(s, PollAdvance) && s.poll.Found?
    ensures Inv(Polled(s))
  {
    var t := s.poll.token;
    TheOnlyOne(s, t);
    if s.saveResult.Some? {
      ResolveKeepsInv(s, t, Polled(s));
    } else {
      MissKeepsInv(s, t, Polled(s));
    }
  }

  lemma ResolveKeepsInv(s: State, t: nat, s': State)
    requires Inv(s) && s.poll == Found(t) && Unacknowledged(s) == {t} && s.saveResult.Some? && !s.failed
    requires s' == s.(saveResult := None, resolved := s.resolved + {s.saveResult.value},
                      log := s.log + [Resolution(t, s.saveResult.value)], poll := Ready)
    ensures Inv(s')
  {
    assert s.saveResult == Some(t);
    assert Unacknowledged(s') == {};
    assert s.abandoned == {};
  }

  lemma MissKeepsInv(s: State, t: nat, s': State)
    requires Inv(s) && s.poll == Found(t) && Unacknowledged(s) == {t} && s.saveResult.None?
    requires s' == s.(poll := NoPending(t))
    ensures Inv(s')
  {
    assert Unacknowledged(s') == {t};
  }

  lemma LookupKeepsInv(s: State)
    requires Inv(s) && Enabled(s, PollAdvance) && s.poll.Acked?
    ensures Inv(Polled(s))
  {
    var t := s.poll.token;
    TheOnlyOne(s, t);
    assert Unacknowledged(Polled(s)) == {t};
    assert MatchInv(Polled(s));
    assert MarkInv(Polled(s));
  }

  lemma ClearKeepsInv(s: State)
    requires Inv(s) && Enabled(s, PollAdvance) && s.poll.NoPending?
    ensures Inv(Polled(s))
  {
    var t := s.poll.token;
    TheOnlyOne(s, t);
    assert s.poisoned && s.saveResult.None?;
    assert Unacknowledged(Polled(s)) == {};
    assert s.abandoned == {t} == Polled(s).abandoned;
    assert MatchInv(Polled(s));
    assert MarkInv(Polled(s));
  }

  lemma ConsumeKeepsInv(s: State)
    requires Inv(s) && Enabled(s, PollAdvance)
    requires s.poll.Absorbing? || s.poll.SecondTry? || s.poll.Unknown?
    ensures Inv(Polled(s))
  {
    var t := s.poll.token;
    if s.poll.Unknown? { TheOnlyOne(s, t); }
    if s.late {
      ConsumedMatches(s, t, Polled(s));
      ConsumedMarks(s, t, Polled(s));
    } else {
      RefusedKeepsInv(s, Polled(s));
    }
  }

  ghost predicate Consumed(s: State, t: nat, s': State)
  {
    && (s.poll == Absorbing(t) || s.poll == SecondTry(t) || (s.poll == Unknown(t) && Unacknowledged(s) == {t}))
    && s.late
    && s' == s.(late := false, abandoned := s.abandoned - {t}, poll := Ready)
  }

  lemma ConsumedMatches(s: State, t: nat, s': State)
    requires Inv(s) && Consumed(s, t, s')
    ensures MatchInv(s')
  {
    if s.poll.Unknown? { UnknownMatches(s, t, s'); } else { GapMatches(s, t, s'); }
  }

  lemma UnknownMatches(s: State, t: nat, s': State)
    requires MatchInv(s) && MarkInv(s) && Consumed(s, t, s') && s.poll.Unknown?
    ensures MatchInv(s')
  {
    assert s.abandoned != {};
    assert Unacknowledged(s') == {};
  }

  lemma GapMatches(s: State, t: nat, s': State)
    requires MatchInv(s) && MarkInv(s) && Consumed(s, t, s') && InGap(s.poll)
    ensures MatchInv(s')
  {
    assert Unacknowledged(s') == Unacknowledged(s) == s.native;
    assert t !in Unacknowledged(s);
  }

  lemma ConsumedMarks(s: State, t: nat, s': State)
    requires MarkInv(s) && s.native !! PollHolds(s.poll) && Consumed(s, t, s')
    ensures MarkInv(s')
  {
    if s.poll.Unknown? { ConsumedUnknown(s, t, s'); } else { ConsumedInGap(s, t, s'); }
  }

  lemma ConsumedUnknown(s: State, t: nat, s': State)
    requires MarkInv(s) && s.native !! PollHolds(s.poll) && Consumed(s, t, s') && s.poll.Unknown?
    ensures MarkInv(s')
  {
    assert s.abandoned != {};
    assert s.abandoned == {t} && s'.abandoned == {};
    assert s.native == {};
  }

  lemma ConsumedInGap(s: State, t: nat, s': State)
    requires MarkInv(s) && Consumed(s, t, s') && InGap(s.poll)
    ensures MarkInv(s')
  {
    var rest := if s.saveResult.None? then s.native else {};
    assert Unacknowledged(s) == s.native == Unacknowledged(s');
    assert s.abandoned == rest + {t} && t !in rest;
    assert s'.abandoned == rest;
    assert |s.abandoned| == |rest| + 1;
  }

  lemma RefusedKeepsInv(s: State, s': State)
    requires Inv(s) && !s.late
    requires || (s.poll.Absorbing? && s' == s.(poll := SecondTry(s.poll.token)))
             || ((s.poll.SecondTry? || (s.poll.Unknown? && Unacknowledged(s) == {s.poll.token})) && s' == s.(failed := true))
    ensures Inv(s')
  {
    if InGap(s.poll) {
      assert s.poll.token in s.abandoned;
    } else if s.saveResult.None? {
      assert s.poll.token in s.abandoned;
    }
  }

  lemma PollKeepsInv(s: State)
    requires Inv(s) && Enabled(s, PollAdvance)
    ensures Inv(Polled(s))
  {
    match s.poll
    case Acked(_) => LookupKeepsInv(s);
    case Found(_) => FoundKeepsInv(s);
    case NoPending(_) => ClearKeepsInv(s);
    case _ => ConsumeKeepsInv(s);
  }

  lemma StepKeepsInv(s: State, step: Step)
    requires Inv(s) && Enabled(s, step)
    ensures Inv(Apply(s, step))
  {
    match step
    case Abandon => AbandonKeepsInv(s);
    case PollAck(t) => PollAckKeepsInv(s, t);
    case PollAdvance => PollKeepsInv(s);
    case _ => SaverKeepsInv(s, step);
  }

  lemma InvInductive()
    ensures Inductive(Init, Next, Inv)
  {
    forall s, s' | Inv(s) && Next(s, s') ensures Inv(s') {
      var step :| Enabled(s, step) && s' == Apply(s, step);
      StepKeepsInv(s, step);
    }
  }

  lemma AtMostOne(s: State)
    requires MatchInv(s)
    ensures |s.native| <= 1
  {
    if s.native != {} {
      var t :| t in s.native;
      TheOnlyOne(s, t);
      assert s.native == {t};
    }
  }

  // ---------------------------------------------------------------- theorems

  /** In every reachable state at most one save is unacknowledged, and acknowledgements resolve their own save. */
  lemma AtMostOneUnacknowledged(run: seq<State>, i: nat)
    requires IsRun(Init, Next, run) && i < |run|
    ensures |run[i].native| <= 1
    ensures LogInv(run[i])
  {
    InvInductive();
    InductiveHolds(Init, Next, Inv, run);
    assert Inv(run[i]);
    AtMostOne(run[i]);
  }

  /** While the acknowledgement of an abandoned save is still out, no further save is registered; once nothing is out,
      saving is open again: the late acknowledgement has cleared the flag. */
  lemma RefusedUntilLateAcknowledgement(run: seq<State>, i: nat)
    requires IsRun(Init, Next, run) && i < |run|
    requires Enabled(run[i], Register)
    ensures (exists t :: t in Unacknowledged(run[i]) && t in run[i].abandoned) ==>
      Apply(run[i], Register) == run[i].(saver := NoSaver)
    ensures Unacknowledged(run[i]) == {} ==> Apply(run[i], Register).saveResult == Some(run[i].next)
  {
    InvInductive();
    InductiveHolds(Init, Next, Inv, run);
    assert Inv(run[i]);
  }

  /** Everything native accepted has been handled, or the pump has stopped with an error. */
  ghost predicate Quiet(s: State) { s.failed || (s.native == {} && s.poll.Ready? && s.saver.NoSaver?) }

  /** The pump stops on an acknowledgement it cannot place exactly when a save was abandoned inside another late
      acknowledgement's gap, or the actor was removed over a save that the closing session had let go. */
  lemma UnplacedAcknowledgementIff(run: seq<State>, i: nat)
    requires IsRun(Init, Next, run) && i < |run| && Quiet(run[i])
    ensures run[i].failed <==> run[i].gapAbandon || run[i].orphanRemoved
  {
    InvInductive();
    InductiveHolds(Init, Next, Inv, run);
    var s := run[i];
    assert Inv(s);
    if !s.failed {
      assert Unacknowledged(s) == {};
      assert s.abandoned == {};
    }
  }

  /** From every reachable state in which saving is open and nothing is out, a save goes through: native accepts it, its
      acknowledgement resolves it, and the saver returns with everything else as it was. */
  lemma SaveGoesThrough(run: seq<State>) returns (s: State, longer: seq<State>)
    requires IsRun(Init, Next, run)
    requires var l := run[|run| - 1];
      l.accepting && l.live && !l.failed && l.saver.NoSaver? && l.poll.Ready? && Unacknowledged(l) == {}
    ensures IsRun(Init, Next, longer) && s == longer[|longer| - 1] && |longer| == |run| + 7
    ensures var l := run[|run| - 1];
      s == l.(resolved := l.resolved + {l.next}, log := l.log + [Resolution(l.next, l.next)], next := l.next + 1)
  {
    OpenWithNothingOut(run);
    s, longer := Submits(run);
    s, longer := Resolves(longer, run[|run| - 1].next);
  }

  lemma OpenWithNothingOut(run: seq<State>)
    requires IsRun(Init, Next, run)
    ensures var l := run[|run| - 1];
      Unacknowledged(l) == {} && l.saver.NoSaver? && l.live && !l.failed ==> l.saveResult.None? && !l.poisoned
  {
    InvInductive();
    InductiveHolds(Init, Next, Inv, run);
    assert Inv(run[|run| - 1]);
  }

  lemma Submits(run: seq<State>) returns (s: State, longer: seq<State>)
    requires IsRun(Init, Next, run)
    requires var l := run[|run| - 1];
      l.accepting && !l.failed && l.saver.NoSaver? && l.native == {} && l.saveResult.None? && !l.poisoned
    ensures IsRun(Init, Next, longer) && s == longer[|longer| - 1] && |longer| == |run| + 3
    ensures var l := run[|run| - 1];
      s == l.(saver := Waiting(l.next), saveResult := Some(l.next), native := {l.next}, next := l.next + 1)
  {
    s, longer := Do(run, BeginSave);
    s, longer := Do(longer, Register);
    s, longer := Do(longer, NativeAccepts);
    assert s.native == {run[|run| - 1].next};
  }

  lemma Resolves(run: seq<State>, t: nat) returns (s: State, longer: seq<State>)
    requires IsRun(Init, Next, run)
    requires var l := run[|run| - 1];
      l.live && !l.failed && l.poll.Ready? && l.native == {t} && l.saver == Waiting(t) && l.saveResult == Some(t)
    ensures IsRun(Init, Next, longer) && s == longer[|longer| - 1] && |longer| == |run| + 4
    ensures var l := run[|run| - 1];
      s == l.(saver := NoSaver, saveResult := None, native := {}, resolved := l.resolved + {t},
              log := l.log + [Resolution(t, t)])
  {
    s, longer := Do(run, PollAck(t));
    assert s.native == {};
    s, longer := Do(longer, PollAdvance);
    s, longer := Do(longer, PollAdvance);
    s, longer := Do(longer, TakeResult);
  }

  /** On every run a saver that waits with nothing out any more has its result. */
  lemma WaitingIsAnswered(run: seq<State>, i: nat)
    requires IsRun(Init, Next, run) && i < |run| && !run[i].failed && run[i].saver.Waiting?
    ensures Unacknowledged(run[i]) == {} ==> Enabled(run[i], TakeResult)
  {
    InvInductive();
    InductiveHolds(Init, Next, Inv, run);
    assert Inv(run[i]);
  }

  /** Once a session stops accepting, or is aborted, no save begins any more. */
  lemma NoSaveAfterStop(run: seq<State>, i: nat, j: nat, step: Step)
    requires IsRun(Init, Next, run) && i < j < |run| && (step.StopAccepting? || step.Abort?)
    requires Enabled(run[i], step) && run[i + 1] == Apply(run[i], step)
    ensures !run[j].accepting && !Enabled(run[j], BeginSave)
  {
    StopHoldsInductive();
    StepwiseRelated(Init, Next, Inv, StopHolds, run, i + 1, j);
  }

  lemma StaysStopped(s: State, step: Step)
    requires Enabled(s, step) && !s.accepting
    ensures !Apply(s, step).accepting
  {
    if step.PollAdvance? {
      PolledFrame(s);
    } else {
      SaverFrame(s, step);
    }
  }

  lemma SaverFrame(s: State, step: Step)
    requires Enabled(s, step) && !step.PollAdvance?
    ensures Apply(s, step).accepting ==> s.accepting
  {
  }

  lemma PolledFrame(s: State)
    ensures Polled(s).accepting == s.accepting
  {
    if s.poll.SecondTry? || s.poll.Unknown? {
      ConsumeFrame(s, s.poll.token);
    } else if s.poll.Found? {
      FoundFrame(s);
    }
  }

  lemma ConsumeFrame(s: State, t: nat)
    ensures ConsumeOrFail(s, t).accepting == s.accepting
  {
  }

  lemma FoundFrame(s: State)
    requires s.poll.Found?
    ensures Polled(s).accepting == s.accepting
  {
  }

  ghost predicate StopHolds(s: State, s': State) { !s.accepting ==> !s'.accepting }

  lemma StopHoldsInductive()
    ensures Inductive(Init, Next, Inv)
    ensures forall s, s' :: Inv(s) && Next(s, s') ==> StopHolds(s, s')
  {
    InvInductive();
    forall s, s' | Inv(s) && Next(s, s') ensures StopHolds(s, s') {
      var step :| Enabled(s, step) && s' == Apply(s, step);
      if !s.accepting { StaysStopped(s, step); }
    }
  }

  /** The first late acknowledgement, up to its gap. */
  lemma FirstGap() returns (run: seq<State>)
    ensures IsRun(Init, Next, run)
    ensures run[|run| - 1]
         == State(true, false, true, NoSaver, None, false, true, {}, Absorbing(0), {0}, {}, [], 1, false, false, false)
  {
    var s := State(true, false, true, NoSaver, None, false, false, {}, Ready, {}, {}, [], 0, false, false, false);
    run := [s];
    s, run := SaveAndAbandon(run);
    s, run := Do(run, PollAck(0));
    assert s.native == {};
    s, run := Do(run, PollAdvance);
    s, run := Do(run, PollAdvance);
    s, run := Do(run, PollAdvance);
  }

  /** The second abandonment inside the gap; the first acknowledgement then takes the only mark. */
  lemma SecondGap() returns (run: seq<State>)
    ensures IsRun(Init, Next, run)
    ensures run[|run| - 1]
         == State(true, false, true, NoSaver, None, true, false, {1}, Ready, {1}, {}, [], 2, true, false, false)
  {
    var s;
    run := FirstGap();
    s, run := SaveAndAbandon(run);
    s, run := Do(run, PollAdvance);
    assert s.abandoned == {1} && s.native == {1};
  }

  /** Two saves cancelled in quick succession are enough: the first one's late acknowledgement takes both marks. */
  lemma GapAbandonStopsThePump()
    ensures exists run: seq<State> :: IsRun(Init, Next, run) && run[|run| - 1].failed && run[|run| - 1].live
  {
    var s;
    var run := SecondGap();
    s, run := Do(run, PollAck(1));
    s, run := Do(run, PollAdvance);
    s, run := Do(run, PollAdvance);
    s, run := Do(run, PollAdvance);
    assert s.poll == Absorbing(1);
    s, run := Do(run, PollAdvance);
    s, run := Do(run, PollAdvance);
  }

  /** A save accepted by the native side whose session has let go of it. */
  lemma OrphanedSave() returns (run: seq<State>)
    ensures IsRun(Init, Next, run)
    ensures run[|run| - 1]
         == State(false, true, true, NoSaver, Some(0), false, false, {0}, Ready, {}, {}, [], 1, false, false, false)
  {
    var s := State(true, false, true, NoSaver, None, false, false, {}, Ready, {}, {}, [], 0, false, false, false);
    run := [s];
    s, run := Do(run, BeginSave);
    s, run := Do(run, Register);
    s, run := Do(run, NativeAccepts);
    s, run := Do(run, Abort);
    s, run := Do(run, SessionDone);
  }

  /** The other case: the actor is removed over such a save before its acknowledgement arrives. */
  lemma OrphanRemovalStopsThePump()
    ensures exists run: seq<State> ::
      IsRun(Init, Next, run) && run[|run| - 1].failed && run[|run| - 1].orphanRemoved && !run[|run| - 1].gapAbandon
  {
    var s;
    var run := OrphanedSave();
    s, run := Do(run, RemoveActor);
    s, run := Do(run, PollAck(0));
    s, run := Do(run, PollAdvance);
    s, run := Do(run, PollAdvance);
  }

  lemma SaveAndAbandon(run: seq<State>) returns (s: State, longer: seq<State>)
    requires IsRun(Init, Next, run)
    requires var l := run[|run| - 1]; l.accepting && !l.failed && l.saver.NoSaver? && l.saveResult.None? && !l.poisoned
    ensures IsRun(Init, Next, longer) && s == longer[|longer| - 1]
    ensures var l := run[|run| - 1];
      s == l.(saver := NoSaver, saveResult := None, poisoned := true, late := true, native := l.native + {l.next},
              abandoned := l.abandoned + {l.next}, next := l.next + 1, gapAbandon := l.gapAbandon || InGap(l.poll))
  {
    s, longer := Do(run, BeginSave);
    s, longer := Do(longer, Register);
    s, longer := Do(longer, NativeAccepts);
    s, longer := Do(longer, Abandon);
  }

  lemma Do(run: seq<State>, step: Step) returns (s: State, longer: seq<State>)
    requires IsRun(Init, Next, run) && Enabled(run[|run| - 1], step)
    ensures s == Apply(run[|run| - 1], step)
    ensures longer == run + [s] && IsRun(Init, Next, longer)
  {
    s := Apply(run[|run| - 1], step);
    longer := run + [s];
    Extend(Init, Next, run, s);
  }
}
