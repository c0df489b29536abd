/** What holds over every run of the check engine, however timers, completions, pauses and resumes interleave. */
module CheckerRuns {
  import opened Wrappers
  import opened Checker

  // ---------------------------------------------------------------- every promise is completed exactly once

  function Completions(completions: seq<Completion>, c: CheckId): nat {
    if completions == [] then 0
    else
      Completions(completions[..|completions| - 1], c) +
      if completions[|completions| - 1].check == c then 1 else 0
  }

  lemma {:induction false} CompletionsAppend(completions: seq<Completion>, last: Completion, c: CheckId)
    ensures Completions(completions + [last], c) == Completions(completions, c) + if last.check == c then 1 else 0
  {
    assert (completions + [last])[..|completions|] == completions;
  }

  /** The check has been started and its promise completed. */
  predicate IsComplete(checks: map<CheckId, Stage>, nextCheck: CheckId, c: CheckId) {
    c < nextCheck && (c !in checks || checks[c].Completed?)
  }

  ghost predicate Accounts(checks: map<CheckId, Stage>, nextCheck: CheckId, completions: seq<Completion>) {
    && (forall c | c in checks :: c < nextCheck)
    && (forall c: CheckId :: Completions(completions, c) == if IsComplete(checks, nextCheck, c) then 1 else 0)
    && (forall i | 0 <= i < |completions| ::
          completions[i].check in checks ==> checks[completions[i].check] == Completed(completions[i].result))
  }

  /**
   Each started check has completed its promise once if it is past its protocol, and not at all before;
   its result is the one it completed with.
   */
  ghost predicate Accountable(s: State) {
    Accounts(s.checks, s.nextCheck, s.completions)
  }

  lemma {:induction false} CompletionsPositive(completions: seq<Completion>, i: nat)
    requires i < |completions|
    ensures Completions(completions, completions[i].check) > 0
    decreases |completions|
  {
    if i < |completions| - 1 {
      CompletionsPositive(completions[..|completions| - 1], i);
    }
  }

  lemma {:induction false} CompletingAccounts(s: State, c: CheckId, result: CheckResult)
    requires Accountable(s) && c in s.checks && !s.checks[c].Completed?
    ensures Accountable(Completing(s, c, result))
  {
    var s' := Completing(s, c, result);
    forall d: CheckId
      ensures Completions(s'.completions, d) == if IsComplete(s'.checks, s'.nextCheck, d) then 1 else 0
    {
      CompletionsAppend(s.completions, Completion(c, result), d);
    }
    forall i | 0 <= i < |s.completions|
      ensures s.completions[i].check != c
    {
      CompletionsPositive(s.completions, i);
    }
  }

  /** Starting a check, or moving one within its protocol, completes nothing. */
  lemma {:induction false} MovingAccounts(s: State, c: CheckId, stage: Stage)
    requires Accountable(s) && !stage.Completed?
    requires c == s.nextCheck || (c in s.checks && !s.checks[c].Completed?)
    ensures Accounts(s.checks[c := stage], if c == s.nextCheck then c + 1 else s.nextCheck, s.completions)
  {
    forall i | 0 <= i < |s.completions|
      ensures s.completions[i].check != c
    {
      CompletionsPositive(s.completions, i);
    }
  }

  lemma {:induction false} HandlingAccounts(s: State, c: CheckId)
    requires Accountable(s) && c in s.checks && s.checks[c].Completed?
    ensures Accounts(s.checks - {c}, s.nextCheck, s.completions)
  {
  }

  lemma {:induction false} StepAccounts(s: State, e: Event)
    requires Accountable(s) && Enabled(s, e)
    ensures Accountable(Step(s, e))
  {
    var s' := Step(s, e);
    match e
    case TimerFires =>
      if !s.paused {
        MovingAccounts(s, s.nextCheck, s'.checks[s.nextCheck]);
      }
    case PauseCalled =>
    case ResumeCalled =>
    case ResultArrives(c) => HandlingAccounts(s, c);
    case _ => OwnStepAccounts(s, e);
  }

  lemma {:induction false} OwnStepAccounts(s: State, e: Event)
    requires Accountable(s) && Enabled(s, e)
    requires !e.TimerFires? && !e.PauseCalled? && !e.ResumeCalled? && !e.ResultArrives?
    ensures Accountable(Step(s, e))
  {
    var c, s' := e.check, Step(s, e);
    if !s'.checks[c].Completed? {
      MovingAccounts(s, c, s'.checks[c]);
    } else {
      CompletingAccounts(s, c, s'.checks[c].result);
    }
  }

  lemma {:induction false} RunAccounts(nested: bool, events: seq<Event>)
    requires Run(nested, events).Some?
    ensures Accountable(Run(nested, events).value)
    decreases events
  {
    if events != [] {
      RunAccounts(nested, events[..|events| - 1]);
      StepAccounts(Run(nested, events[..|events| - 1]).value, events[|events| - 1]);
    }
  }

  /** How many steps of its own a check still has to take. */
  function StepsLeft(stage: Stage): nat {
    match stage
    case Removing(_) => 6
    case Connecting => 5
    case Launching(_) => 4
    case LaunchFailed(_, _) => 3
    case Waiting(_, _) => 2
    case Running => 2
    case Completed(_) => 1
  }

  lemma {:induction false} OwnEventIsEnabled(s: State, c: CheckId) returns (own: Event)
    requires !s.aborted && c in s.checks
    ensures own.Concerns(c) && Enabled(s, own)
  {
    own := match s.checks[c]
      case Running => CommandEnds(c, Discarded)
      case Removing(_) => RemoveFails(c)
      case Connecting => ConnectFails(c)
      case Launching(_) => LaunchFails(c)
      case LaunchFailed(_, _) => FailureArrives(c)
      case Waiting(_, _) => WaitEnds(c, NoStatus)
      case Completed(_) => ResultArrives(c);
  }

  lemma {:induction false} OwnEventMoves(s: State, e: Event, c: CheckId)
    requires Enabled(s, e) && c in s.checks && e.Concerns(c)
    ensures
      var s' := Step(s, e);
      if s.checks[c].Completed? then c !in s'.checks
      else c in s'.checks && StepsLeft(s'.checks[c]) < StepsLeft(s.checks[c])
  {
  }

  /** Only a check's own events move it, each strictly towards its result, and one is always enabled. */
  lemma {:induction false} ChecksProgress(s: State, e: Event, c: CheckId)
    requires Accountable(s) && Enabled(s, e) && c in s.checks
    ensures
      var s' := Step(s, e);
      if !e.Concerns(c) then c in s'.checks && s'.checks[c] == s.checks[c]
      else if s.checks[c].Completed? then c !in s'.checks
      else c in s'.checks && StepsLeft(s'.checks[c]) < StepsLeft(s.checks[c])
    ensures exists own: Event :: own.Concerns(c) && Enabled(s, own)
  {
    var own := OwnEventIsEnabled(s, c);
    if e.Concerns(c) {
      OwnEventMoves(s, e, c);
    }
  }

  function Handled(events: seq<Event>, c: CheckId): nat {
    if events == [] then 0
    else Handled(events[..|events| - 1], c) + if events[|events| - 1] == ResultArrives(c) then 1 else 0
  }

  /** The check has been started and its result handled. */
  predicate IsOver(s: State, c: CheckId) {
    c < s.nextCheck && c !in s.checks
  }

  lemma {:induction false} OverAfterStep(s: State, e: Event, c: CheckId)
    requires Accountable(s) && Enabled(s, e)
    ensures IsOver(Step(s, e), c) <==> IsOver(s, c) || e == ResultArrives(c)
    ensures e == ResultArrives(c) ==> !IsOver(s, c)
  {
    KeysAfterStep(s, e);
  }

  /** Which checks are in flight after a step. */
  lemma {:induction false} KeysAfterStep(s: State, e: Event)
    requires Enabled(s, e)
    ensures
      var s' := Step(s, e);
      match e
      case TimerFires =>
        if s.paused then s'.checks == s.checks && s'.nextCheck == s.nextCheck
        else s'.checks.Keys == s.checks.Keys + {s.nextCheck} && s'.nextCheck == s.nextCheck + 1
      case ResultArrives(c) => s'.checks.Keys == s.checks.Keys - {c} && s'.nextCheck == s.nextCheck
      case _ => s'.checks.Keys == s.checks.Keys && s'.nextCheck == s.nextCheck
  {
  }

  /** Every check's result is handled at most once, and has been exactly when the check is over. */
  lemma {:induction false} ResultsHandledOnce(nested: bool, events: seq<Event>, c: CheckId)
    requires Run(nested, events).Some?
    ensures
      var s := Run(nested, events).value;
      Handled(events, c) == if IsOver(s, c) then 1 else 0
    decreases events
  {
    if events != [] {
      var before := events[..|events| - 1];
      ResultsHandledOnce(nested, before, c);
      RunAccounts(nested, before);
      OverAfterStep(Run(nested, before).value, events[|events| - 1], c);
    }
  }

  // ---------------------------------------------------------------- scheduling

  /** Timers and checks in flight: at least one keeps an unpaused engine going, and only resumes add to one. */
  ghost predicate KeptGoing(s: State) {
    && (forall c | c in s.checks :: c < s.nextCheck)
    && (!s.paused && !s.aborted ==> s.timers + |s.checks| >= 1)
    && s.timers + |s.checks| <= 1 + s.resumes
  }

  lemma {:induction false} StepKeepsGoing(s: State, e: Event)
    requires KeptGoing(s) && Enabled(s, e)
    ensures KeptGoing(Step(s, e))
  {
    KeysAfterStep(s, e);
    TimersAfterStep(s, e);
    var s' := Step(s, e);
    assert |s'.checks| == |s'.checks.Keys| && |s.checks| == |s.checks.Keys|;
  }

  /** How a step changes the timers, the pause flag and the resumes. */
  lemma {:induction false} TimersAfterStep(s: State, e: Event)
    requires Enabled(s, e)
    ensures
      var s' := Step(s, e);
      match e
      case TimerFires => s'.timers == s.timers - 1 && s'.paused == s.paused && s'.resumes == s.resumes
      case PauseCalled => s'.timers == s.timers && s'.paused && s'.resumes == s.resumes
      case ResumeCalled => if s.paused then s'.timers == s.timers + 1 && !s'.paused && s'.resumes == s.resumes + 1 else s' == s
      case ResultArrives(c) =>
        && s'.paused == s.paused && s'.resumes == s.resumes
        && s'.timers == s.timers + if s.paused || s'.aborted then 0 else 1
      case _ => s'.timers == s.timers && s'.paused == s.paused && s'.resumes == s.resumes
  {
  }

  lemma {:induction false} RunKeepsGoing(nested: bool, events: seq<Event>)
    requires Run(nested, events).Some?
    ensures KeptGoing(Run(nested, events).value)
    decreases events
  {
    if events != [] {
      RunKeepsGoing(nested, events[..|events| - 1]);
      StepKeepsGoing(Run(nested, events[..|events| - 1]).value, events[|events| - 1]);
    }
  }

  /** An engine that was never paused has exactly one timer or check at any time: its checks never overlap. */
  lemma {:induction false} NeverPausedRunsOneAtATime(nested: bool, events: seq<Event>)
    requires Run(nested, events).Some? && PauseCalled !in events
    ensures
      var s := Run(nested, events).value;
      !s.paused && s.resumes == 0 && (s.aborted || s.timers + |s.checks| == 1)
  {
    RunKeepsGoing(nested, events);
    NeverPaused(nested, events);
  }

  lemma {:induction false} StepNeverPauses(s: State, e: Event)
    requires !s.paused && Enabled(s, e) && !e.PauseCalled?
    ensures !Step(s, e).paused && Step(s, e).resumes == s.resumes
  {
  }

  lemma {:induction false} NeverPaused(nested: bool, events: seq<Event>)
    requires Run(nested, events).Some? && PauseCalled !in events
    ensures !Run(nested, events).value.paused && Run(nested, events).value.resumes == 0
    decreases events
  {
    if events != [] {
      NeverPaused(nested, events[..|events| - 1]);
      assert events[|events| - 1] in events;
      StepNeverPauses(Run(nested, events[..|events| - 1]).value, events[|events| - 1]);
    }
  }

  /** Paused by the last call of either kind. */
  predicate PausedAfter(events: seq<Event>) {
    events != [] &&
    match events[|events| - 1]
    case PauseCalled => true
    case ResumeCalled => false
    case _ => PausedAfter(events[..|events| - 1])
  }

  /** One timer at the start, one for each result handled while not paused, one for each resume of a paused engine. */
  function TimersSet(events: seq<Event>): nat {
    if events == [] then 1
    else
      var before, last := events[..|events| - 1], events[|events| - 1];
      TimersSet(before) +
      if (last.ResultArrives? && !PausedAfter(before)) || (last.ResumeCalled? && PausedAfter(before)) then 1 else 0
  }

  function TimersFired(events: seq<Event>): nat {
    if events == [] then 0
    else TimersFired(events[..|events| - 1]) + if events[|events| - 1].TimerFires? then 1 else 0
  }

  /** The timers ever set are those: each has fired or is still to fire. */
  lemma {:induction false} TimersAreAccountedFor(nested: bool, events: seq<Event>)
    requires Run(nested, events).Some?
    ensures
      var s := Run(nested, events).value;
      && s.paused == PausedAfter(events)
      && (!s.aborted ==> s.timers + TimersFired(events) == TimersSet(events))
    decreases events
  {
    if events != [] {
      var before := events[..|events| - 1];
      TimersAreAccountedFor(nested, before);
      TimersAfterStep(Run(nested, before).value, events[|events| - 1]);
    }
  }

  lemma {:induction false} StepIsSilent(s: State, e: Event)
    requires s.paused && Enabled(s, e) && !e.ResumeCalled?
    ensures Step(s, e).paused
    ensures Step(s, e).updates == s.updates && Step(s, e).timers <= s.timers && Step(s, e).nextCheck == s.nextCheck
  {
  }

  /** From a pause on until a resume, nothing is reported, scheduled or started, whatever happens. */
  lemma {:induction false} PausedIsSilent(nested: bool, events: seq<Event>, more: seq<Event>)
    requires Run(nested, events + more).Some? && PausedAfter(events) && ResumeCalled !in more
    ensures Run(nested, events).Some?
    ensures
      var s, s' := Run(nested, events).value, Run(nested, events + more).value;
      s'.paused && s'.updates == s.updates && s'.timers <= s.timers && s'.nextCheck == s.nextCheck
    decreases more
  {
    if more == [] {
      assert events + more == events;
      TimersAreAccountedFor(nested, events);
    } else {
      var before, last := more[..|more| - 1], more[|more| - 1];
      assert (events + more)[..|events + more| - 1] == events + before;
      assert last in more && (events + more)[|events + more| - 1] == last;
      PausedIsSilent(nested, events, before);
      StepIsSilent(Run(nested, events + before).value, last);
    }
  }

  // ---------------------------------------------------------------- aborting

  /**
   The event ends the command of check `c` by a signal. For a nested check that counts after a launch that
   was answered with success only, and not for SIGKILL, which is taken for an agent that went away.
   */
  predicate EndsBySignal(e: Event, c: CheckId, launched: bool) {
    match e
    case CommandEnds(d, result) => d == c && result.Set? && result.status.Signaled?
    case WaitEnds(d, outcome) =>
      d == c && launched && outcome.Ended? && outcome.status.Signaled? && outcome.status.signal != SIGKILL
    case _ => false
  }

  predicate EndedBySignal(events: seq<Event>, c: CheckId) {
    events != [] &&
    var before := events[..|events| - 1];
    EndedBySignal(before, c) || EndsBySignal(events[|events| - 1], c, LaunchEnds(c, true) in before)
  }

  predicate EndedInSignal(stage: Stage) {
    stage.Completed? && stage.result.Set? && stage.result.status.Signaled?
  }

  predicate AwaitsCommand(stage: Stage) {
    stage.Waiting? && stage.reason == CommandEnded
  }

  /** What the events say about a check is what the engine knows of it. */
  predicate Tracked(events: seq<Event>, s: State, c: CheckId) {
    if c in s.checks then
      && c < s.nextCheck && ResultArrives(c) !in events
      && (EndedBySignal(events, c) <==> EndedInSignal(s.checks[c]))
      && (!s.checks[c].Completed? ==> (LaunchEnds(c, true) in events <==> AwaitsCommand(s.checks[c])))
    else if c >= s.nextCheck then
      LaunchEnds(c, true) !in events && ResultArrives(c) !in events && !EndedBySignal(events, c)
    else EndedBySignal(events, c) ==> s.aborted
  }

  lemma {:induction false} EventsAppend(events: seq<Event>, e: Event, c: CheckId)
    ensures EndedBySignal(events + [e], c) <==> EndedBySignal(events, c) || EndsBySignal(e, c, LaunchEnds(c, true) in events)
  {
    assert (events + [e])[..|events + [e]| - 1] == events;
  }

  lemma {:induction false} OthersStayTracked(events: seq<Event>, s: State, e: Event, c: CheckId)
    requires Enabled(s, e) && Tracked(events, s, c) && !e.Concerns(c)
    ensures Tracked(events + [e], Step(s, e), c)
  {
    EventsAppend(events, e, c);
    KeysAfterStep(s, e);
  }

  lemma {:induction false} OverStaysTracked(events: seq<Event>, s: State, c: CheckId)
    requires Enabled(s, ResultArrives(c)) && Tracked(events, s, c)
    ensures Tracked(events + [ResultArrives(c)], Step(s, ResultArrives(c)), c)
    ensures Step(s, ResultArrives(c)).aborted ==> EndedBySignal(events, c)
  {
    EventsAppend(events, ResultArrives(c), c);
  }

  lemma {:induction false} OwnStage(s: State, e: Event, c: CheckId)
    requires Enabled(s, e) && e.Concerns(c) && !e.ResultArrives?
    ensures !s.checks[c].Completed? && c in Step(s, e).checks && Step(s, e).nextCheck == s.nextCheck
    ensures
      var stage := Step(s, e).checks[c];
      && (EndedInSignal(stage) <==> EndsBySignal(e, c, AwaitsCommand(s.checks[c])))
      && (!stage.Completed? ==> !AwaitsCommand(s.checks[c]) && (AwaitsCommand(stage) <==> e == LaunchEnds(c, true)))
  {
  }

  lemma {:induction false} OwnStaysTracked(events: seq<Event>, s: State, e: Event, c: CheckId)
    requires Enabled(s, e) && Tracked(events, s, c) && e.Concerns(c) && !e.ResultArrives?
    ensures Tracked(events + [e], Step(s, e), c)
  {
    EventsAppend(events, e, c);
    OwnStage(s, e, c);
  }

  lemma {:induction false} AllTracked(nested: bool, events: seq<Event>, c: CheckId)
    requires Run(nested, events).Some?
    ensures Tracked(events, Run(nested, events).value, c)
    decreases events
  {
    if events != [] {
      var before, last := events[..|events| - 1], events[|events| - 1];
      AllTracked(nested, before, c);
      var s := Run(nested, before).value;
      assert before + [last] == events;
      if last == ResultArrives(c) {
        OverStaysTracked(before, s, c);
      } else if last.Concerns(c) {
        OwnStaysTracked(before, s, last, c);
      } else {
        OthersStayTracked(before, s, last, c);
      }
    }
  }

  /** Aborting takes a result, and only one of a check ended by a signal. */
  lemma {:induction false} AbortIsOwn(s: State, e: Event)
    requires Enabled(s, e) && Step(s, e).aborted
    ensures e.ResultArrives?
  {
  }

  /** A run aborts exactly when it handles the result of a check whose command was ended by a signal. */
  lemma {:induction false} AbortsExactlyOnSignals(nested: bool, events: seq<Event>)
    requires Run(nested, events).Some?
    ensures Run(nested, events).value.aborted <==>
              exists c: CheckId :: EndedBySignal(events, c) && ResultArrives(c) in events
  {
    var s := Run(nested, events).value;
    forall c: CheckId | EndedBySignal(events, c) && ResultArrives(c) in events
      ensures s.aborted
    {
      AllTracked(nested, events, c);
    }
    if s.aborted {
      var before, last := events[..|events| - 1], events[|events| - 1];
      var s0 := Run(nested, before).value;
      AbortIsOwn(s0, last);
      AllTracked(nested, before, last.check);
      OverStaysTracked(before, s0, last.check);
      assert EndedBySignal(events, last.check) && ResultArrives(last.check) in events;
    }
  }

  /** A plain command ended by any signal does. */
  lemma {:induction false} SignaledCommandAborts(signal: nat)
    ensures
      var r := Run(false, [TimerFires, CommandEnds(0, Set(Signaled(signal))), ResultArrives(0)]);
      r.Some? && r.value.aborted
  {
    var ended := CommandEnds(0, Set(Signaled(signal)));
    var s := Initial(false);
    RunExtends(false, [], s, TimerFires);
    assert [] + [TimerFires] == [TimerFires];
    RunExtends(false, [TimerFires], Step(s, TimerFires), ended);
    assert [TimerFires] + [ended] == [TimerFires, ended];
    RunExtends(false, [TimerFires, ended], Step(Step(s, TimerFires), ended), ResultArrives(0));
    assert [TimerFires, ended] + [ResultArrives(0)] == [TimerFires, ended, ResultArrives(0)];
  }

  // ---------------------------------------------------------------- no check container is forgotten

  /** Containers launched and not yet confirmed removed. */
  function Outstanding(s: State): set<ContainerId> {
    s.launched - s.removed
  }

  function Recorded(s: State): set<ContainerId> {
    if s.previous.Some? then {s.previous.value} else {}
  }

  predicate Fresh(s: State) {
    && (forall k | k in s.launched :: k < s.nextContainer)
    && (forall k | k in s.removed :: k < s.nextContainer)
    && (s.previous.Some? ==> s.previous.value in s.launched)
    && (forall c | c in s.checks :: s.checks[c].Removing? ==> s.checks[c].previous in s.launched)
  }

  /** The step forgets a container: it launches while one is recorded, or clears the record of another one. */
  predicate Forgets(s: State, e: Event)
    requires Enabled(s, e)
  {
    || (e.ConnectEnds? && s.previous.Some?)
    || (e.RemoveEnds? && e.ok && s.previous.Some? && s.previous.value != s.checks[e.check].previous)
  }

  lemma {:induction false} RecordingIsFresh(s: State, e: Event)
    requires Fresh(s) && Enabled(s, e) && (e.TimerFires? || e.ConnectEnds? || e.RemoveEnds?)
    ensures Fresh(Step(s, e))
  {
  }

  lemma {:induction false} StepIsFresh(s: State, e: Event)
    requires Fresh(s) && Enabled(s, e)
    ensures Fresh(Step(s, e))
  {
    if e.TimerFires? || e.ConnectEnds? || e.RemoveEnds? {
      RecordingIsFresh(s, e);
    }
  }

  lemma {:induction false} OthersKeepTheRecord(s: State, e: Event)
    requires Enabled(s, e) && !e.ConnectEnds? && !e.RemoveEnds?
    ensures Outstanding(Step(s, e)) == Outstanding(s) && Recorded(Step(s, e)) == Recorded(s)
  {
  }

  /** From a state whose record is right, exactly the forgetting steps break it. */
  lemma {:induction false} StepKeepsRecordExactly(s: State, e: Event)
    requires Fresh(s) && Enabled(s, e) && Outstanding(s) == Recorded(s)
    ensures Fresh(Step(s, e))
    ensures Outstanding(Step(s, e)) == Recorded(Step(s, e)) <==> !Forgets(s, e)
  {
    StepIsFresh(s, e);
    var s' := Step(s, e);
    match e
    case ConnectEnds(c) =>
      assert Outstanding(s') == Outstanding(s) + {s.nextContainer};
      if s.previous.Some? {
        assert s.previous.value in Outstanding(s') && s.previous.value !in Recorded(s');
      }
    case RemoveEnds(c, ok) =>
      assert ok ==> Outstanding(s') == Outstanding(s) - {s.checks[c].previous};
      if Forgets(s, e) {
        assert s.previous.value in Outstanding(s') && Recorded(s') == {};
      }
    case _ => OthersKeepTheRecord(s, e);
  }

  /** After every event the containers launched and not confirmed removed were exactly the recorded one, if any. */
  predicate AlwaysRecorded(nested: bool, events: seq<Event>)
    requires Run(nested, events).Some?
  {
    var s := Run(nested, events).value;
    Outstanding(s) == Recorded(s) && (events != [] ==> AlwaysRecorded(nested, events[..|events| - 1]))
  }

  predicate EverForgets(nested: bool, events: seq<Event>)
    requires Run(nested, events).Some?
  {
    events != [] &&
    var before := events[..|events| - 1];
    EverForgets(nested, before) || Forgets(Run(nested, before).value, events[|events| - 1])
  }

  lemma {:induction false} RunIsFresh(nested: bool, events: seq<Event>)
    requires Run(nested, events).Some?
    ensures Fresh(Run(nested, events).value)
    decreases events
  {
    if events != [] {
      RunIsFresh(nested, events[..|events| - 1]);
      StepIsFresh(Run(nested, events[..|events| - 1]).value, events[|events| - 1]);
    }
  }

  /** The record has been right all through a run if and only if no step of it forgot a container. */
  lemma {:induction false} RecordKeptExactly(nested: bool, events: seq<Event>)
    requires Run(nested, events).Some?
    ensures AlwaysRecorded(nested, events) <==> !EverForgets(nested, events)
    decreases events
  {
    if events != [] {
      var before := events[..|events| - 1];
      RecordKeptExactly(nested, before);
      if AlwaysRecorded(nested, before) {
        RunIsFresh(nested, before);
        StepKeepsRecordExactly(Run(nested, before).value, events[|events| - 1]);
      }
    }
  }

  /** At most one check is in flight, and the record says where it is. */
  ghost predicate OneAtATime(s: State) {
    && (forall c, d | c in s.checks && d in s.checks :: c == d)
    && (forall c | c in s.checks ::
          match s.checks[c]
          case Removing(p) => s.previous == Some(p)
          case Connecting => s.previous == None
          case Launching(k) => s.previous == Some(k)
          case LaunchFailed(k, _) => s.previous == Some(k)
          case Waiting(k, _) => s.previous == Some(k)
          case _ => true)
  }

  /** A check is started only when none is in flight. */
  predicate NotOverlapping(s: State, e: Event) {
    e.TimerFires? && !s.paused ==> s.checks == map[]
  }

  /** The events form a run in which checks do not overlap. */
  ghost predicate Sequential(nested: bool, events: seq<Event>) {
    Run(nested, events).Some? &&
    (events != [] ==>
       var before := events[..|events| - 1];
       Sequential(nested, before) && NotOverlapping(Run(nested, before).value, events[|events| - 1]))
  }

  lemma {:induction false} SameCheck(s: State, e: Event)
    requires OneAtATime(s) && Enabled(s, e) && NotOverlapping(s, e)
    ensures forall c, d | c in Step(s, e).checks && d in Step(s, e).checks :: c == d
  {
    KeysAfterStep(s, e);
  }

  lemma {:induction false} NotForgetting(s: State, e: Event)
    requires OneAtATime(s) && Enabled(s, e)
    ensures !Forgets(s, e)
  {
  }

  lemma {:induction false} StepOneAtATime(s: State, e: Event)
    requires OneAtATime(s) && Enabled(s, e) && NotOverlapping(s, e)
    ensures OneAtATime(Step(s, e)) && !Forgets(s, e)
  {
    SameCheck(s, e);
    NotForgetting(s, e);
  }

  /** As long as checks do not overlap, the only container not confirmed removed is the recorded one. */
  lemma {:induction false} SequentialRunsForgetNothing(nested: bool, events: seq<Event>)
    requires Sequential(nested, events)
    ensures
      var s := Run(nested, events).value;
      OneAtATime(s) && Fresh(s) && Outstanding(s) == Recorded(s)
    decreases events
  {
    if events != [] {
      var before, last := events[..|events| - 1], events[|events| - 1];
      SequentialRunsForgetNothing(nested, before);
      StepOneAtATime(Run(nested, before).value, last);
      StepKeepsRecordExactly(Run(nested, before).value, last);
    }
  }

  /** And a container is launched only when none is recorded. */
  lemma {:induction false} SequentialRunsLaunchOne(nested: bool, events: seq<Event>, c: CheckId)
    requires Sequential(nested, events + [ConnectEnds(c)])
    ensures Run(nested, events).Some? && Run(nested, events).value.previous == None
    ensures Outstanding(Run(nested, events).value) == {}
  {
    var all := events + [ConnectEnds(c)];
    assert all[..|all| - 1] == events;
    SequentialRunsForgetNothing(nested, events);
    StepOneAtATime(Run(nested, events).value, ConnectEnds(c));
  }

  /** A never paused engine only makes such runs. */
  lemma {:induction false} NeverPausedIsSequential(nested: bool, events: seq<Event>)
    requires Run(nested, events).Some? && PauseCalled !in events
    ensures Sequential(nested, events)
    decreases events
  {
    if events != [] {
      var before := events[..|events| - 1];
      NeverPausedIsSequential(nested, before);
      NeverPausedRunsOneAtATime(nested, before);
    }
  }

  lemma {:induction false} RunExtends(nested: bool, events: seq<Event>, s: State, e: Event)
    requires Run(nested, events) == Some(s) && Enabled(s, e)
    ensures Run(nested, events + [e]) == Some(Step(s, e))
  {
    assert (events + [e])[..|events + [e]| - 1] == events;
  }

  /** Whatever is in flight, a pause, a resume and the timer it sets start one more check beside it. */
  lemma {:induction false} ResumeOverlaps(nested: bool, events: seq<Event>, s: State)
    requires Run(nested, events) == Some(s) && !s.paused && !s.aborted
    ensures
      var r := Run(nested, events + [PauseCalled] + [ResumeCalled] + [TimerFires]);
      r.Some? && r.value == Performing(s.(timers := s.timers + 1, resumes := s.resumes + 1))
  {
    RunExtends(nested, events, s, PauseCalled);
    var paused := Step(s, PauseCalled);
    RunExtends(nested, events + [PauseCalled], paused, ResumeCalled);
    RunExtends(nested, events + [PauseCalled] + [ResumeCalled], Step(paused, ResumeCalled), TimerFires);
  }

  /** When both checks then launch a container, one is forgotten: two are outstanding and one is recorded. */
  lemma {:induction false} OverlapForgetsAContainer() returns (events: seq<Event>)
    ensures events == [TimerFires, PauseCalled, ResumeCalled, TimerFires, ConnectEnds(0), ConnectEnds(1)]
    ensures
      var r := Run(true, events);
      r.Some? && Outstanding(r.value) == {0, 1} && Recorded(r.value) == {1}
  {
    RunExtends(true, [], Initial(true), TimerFires);
    var s := Step(Initial(true), TimerFires);
    events := [] + [TimerFires];
    ResumeOverlaps(true, events, s);
    events := events + [PauseCalled] + [ResumeCalled] + [TimerFires];
    s := Performing(s.(timers := 1, resumes := 1));
    assert s.checks == map[0 := Connecting, 1 := Connecting];
    RunExtends(true, events, s, ConnectEnds(0));
    events := events + [ConnectEnds(0)];
    RunExtends(true, events, Step(s, ConnectEnds(0)), ConnectEnds(1));
    events := events + [ConnectEnds(1)];
  }
}
