/** What a check goes through, told from its own events: the conversations of the protocol and their results. */
module CheckerTalks {
  import opened Wrappers
  import opened Checker
  import opened CheckerRuns

  /**
   A check's whole conversation with its command or with the agent. `cleared`: it began by removing the container
   of an earlier check.
   */
  datatype Talk =
    | PlainCommand(result: CheckResult)
    | NotRemoved(answered: bool)
    | NotConnected(cleared: bool)
    | ConnectionLost(cleared: bool)
    | TimedOutWaited(cleared: bool, outcome: WaitOutcome)
    | AnsweredWaited(cleared: bool, ok: bool, outcome: WaitOutcome)
  {
    function Events(c: CheckId): seq<Event> {
      match this
      case PlainCommand(result) => [CommandEnds(c, result)]
      case NotRemoved(answered) => [if answered then RemoveEnds(c, false) else RemoveFails(c)]
      case NotConnected(cleared) => Opening(cleared, c) + [ConnectFails(c)]
      case ConnectionLost(cleared) => Opening(cleared, c) + [ConnectEnds(c), LaunchFails(c), FailureArrives(c)]
      case TimedOutWaited(cleared, outcome) =>
        Opening(cleared, c) + [ConnectEnds(c), LaunchTimesOut(c), FailureArrives(c), WaitEnds(c, outcome)]
      case AnsweredWaited(cleared, ok, outcome) =>
        Opening(cleared, c) + [ConnectEnds(c), LaunchEnds(c, ok), WaitEnds(c, outcome)]
    }

    /** Only a launched command that was waited for tells anything; a timeout is a failure, all else is transient. */
    function Result(): CheckResult {
      match this
      case PlainCommand(result) => result
      case TimedOutWaited(_, _) => Failed(TimedOut)
      case AnsweredWaited(_, ok, outcome) =>
        if !ok || outcome == Ended(Signaled(SIGKILL)) then Discarded
        else if outcome.Ended? then Set(outcome.status)
        else Failed(NoExitCode)
      case _ => Discarded
    }
  }

  function Opening(cleared: bool, c: CheckId): seq<Event> {
    if cleared then [RemoveEnds(c, true)] else []
  }

  /** The check's own events, in order, without the handling of its result. */
  function Own(events: seq<Event>, c: CheckId): seq<Event> {
    if events == [] then []
    else
      var last := events[|events| - 1];
      Own(events[..|events| - 1], c) + if last.Concerns(c) && !last.ResultArrives? then [last] else []
  }

  /** Its completed promise has the result of the conversation it had. */
  ghost predicate Tells(nested: bool, own: seq<Event>, c: CheckId, result: CheckResult) {
    exists talk: Talk :: talk.PlainCommand? != nested && own == talk.Events(c) && result == talk.Result()
  }

  // ---------------------------------------------------------------- conversations in progress

  function SoFar(stage: Stage, cleared: bool, c: CheckId): seq<Event>
    requires !stage.Completed?
  {
    match stage
    case Running => []
    case Removing(_) => []
    case Connecting => Opening(cleared, c)
    case Launching(_) => Opening(cleared, c) + [ConnectEnds(c)]
    case LaunchFailed(_, timedOut) =>
      Opening(cleared, c) + [ConnectEnds(c)] + [if timedOut then LaunchTimesOut(c) else LaunchFails(c)]
    case Waiting(_, reason) =>
      match reason
      case LaunchRefused => Opening(cleared, c) + [ConnectEnds(c)] + [LaunchEnds(c, false)]
      case CommandEnded => Opening(cleared, c) + [ConnectEnds(c)] + [LaunchEnds(c, true)]
      case LaunchTimedOut => Opening(cleared, c) + [ConnectEnds(c)] + [LaunchTimesOut(c)] + [FailureArrives(c)]
  }

  ghost predicate Talks(nested: bool, own: seq<Event>, c: CheckId, stage: Stage)
    requires !stage.Completed?
  {
    stage.Running? != nested && exists cleared: bool :: own == SoFar(stage, cleared, c)
  }

  ghost predicate Talking(nested: bool, events: seq<Event>, s: State, c: CheckId) {
    && (c in s.checks && !s.checks[c].Completed? ==> Talks(nested, Own(events, c), c, s.checks[c]))
    && (c >= s.nextCheck ==> Own(events, c) == [])
  }

  lemma {:induction false} OwnAppend(events: seq<Event>, e: Event, c: CheckId)
    ensures Own(events + [e], c) == Own(events, c) + if e.Concerns(c) && !e.ResultArrives? then [e] else []
  {
    assert (events + [e])[..|events + [e]| - 1] == events;
  }

  /** An event of its own takes a conversation on, or ends it with its result. */
  lemma {:induction false} TalkGoesOn(nested: bool, own: seq<Event>, s: State, e: Event, c: CheckId)
    requires Enabled(s, e) && e.Concerns(c) && !s.checks[c].Completed? && Talks(nested, own, c, s.checks[c])
    ensures c in Step(s, e).checks
    ensures !Step(s, e).checks[c].Completed? ==> Talks(nested, own + [e], c, Step(s, e).checks[c])
    ensures Step(s, e).checks[c].Completed? ==> Tells(nested, own + [e], c, Step(s, e).checks[c].result)
  {
    var cleared: bool :| own == SoFar(s.checks[c], cleared, c);
    var stage := Step(s, e).checks[c];
    if !stage.Completed? {
      assert own + [e] == SoFar(stage, cleared || s.checks[c].Removing?, c);
    } else {
      var talk := TalkEnds(s.checks[c], cleared, e);
      TalkIsWhole(s, e, c, cleared);
      assert own + [e] == talk.Events(c);
    }
  }

  function TalkEnds(stage: Stage, cleared: bool, e: Event): Talk {
    match e
    case CommandEnds(_, result) => PlainCommand(result)
    case RemoveFails(_) => NotRemoved(false)
    case RemoveEnds(_, _) => NotRemoved(true)
    case ConnectFails(_) => NotConnected(cleared)
    case WaitEnds(_, outcome) =>
      if stage.Waiting? && stage.reason == LaunchTimedOut then TimedOutWaited(cleared, outcome)
      else AnsweredWaited(cleared, stage.Waiting? && stage.reason == CommandEnded, outcome)
    case _ => ConnectionLost(cleared)
  }

  lemma {:induction false} TalkIsWhole(s: State, e: Event, c: CheckId, cleared: bool)
    requires Enabled(s, e) && e.Concerns(c) && !s.checks[c].Completed? && Step(s, e).checks[c].Completed?
    ensures
      var talk := TalkEnds(s.checks[c], cleared, e);
      && SoFar(s.checks[c], cleared, c) + [e] == talk.Events(c)
      && talk.Result() == Step(s, e).checks[c].result
      && talk.PlainCommand? == s.checks[c].Running?
  {
  }

  // ---------------------------------------------------------------- runs

  lemma {:induction false} NestedStays(s: State, e: Event)
    requires Enabled(s, e)
    ensures Step(s, e).nested == s.nested
  {
  }

  lemma {:induction false} StartTalks(nested: bool, own: seq<Event>, s: State)
    requires s.timers > 0 && !s.paused && s.nested == nested && own == []
    ensures Talks(nested, own, s.nextCheck, Performing(s).checks[s.nextCheck])
  {
    assert own == SoFar(Performing(s).checks[s.nextCheck], false, s.nextCheck);
  }

  lemma {:induction false} OthersStay(s: State, e: Event, c: CheckId)
    requires Enabled(s, e) && !e.Concerns(c) && c != s.nextCheck
    ensures c in Step(s, e).checks <==> c in s.checks
    ensures c in s.checks ==> Step(s, e).checks[c] == s.checks[c]
    ensures s.nextCheck <= Step(s, e).nextCheck
  {
    KeysAfterStep(s, e);
  }

  lemma {:induction false} StepTalks(nested: bool, events: seq<Event>, s: State, e: Event, c: CheckId)
    requires Accountable(s) && s.nested == nested && Enabled(s, e) && Talking(nested, events, s, c)
    ensures Talking(nested, events + [e], Step(s, e), c)
  {
    OwnAppend(events, e, c);
    KeysAfterStep(s, e);
    if e.Concerns(c) {
      if !s.checks[c].Completed? {
        TalkGoesOn(nested, Own(events, c), s, e, c);
      }
    } else if c == s.nextCheck {
      if e.TimerFires? && !s.paused {
        StartTalks(nested, Own(events, c), s);
      }
    } else {
      OthersStay(s, e, c);
    }
  }

  lemma {:induction false} RunTalks(nested: bool, events: seq<Event>, c: CheckId)
    requires Run(nested, events).Some?
    ensures Run(nested, events).value.nested == nested
    ensures Talking(nested, events, Run(nested, events).value, c)
    decreases events
  {
    if events != [] {
      var before, last := events[..|events| - 1], events[|events| - 1];
      RunTalks(nested, before, c);
      RunAccounts(nested, before);
      assert before + [last] == events;
      NestedStays(Run(nested, before).value, last);
      StepTalks(nested, before, Run(nested, before).value, last, c);
    }
  }

  /** A step completes no promise but that of the check it ends. */
  lemma {:induction false} CompletionsAfterStep(s: State, e: Event)
    requires Enabled(s, e)
    ensures
      var s' := Step(s, e);
      || s'.completions == s.completions
      || (&& !e.TimerFires? && !e.PauseCalled? && !e.ResumeCalled? && !e.ResultArrives?
          && !s.checks[e.check].Completed? && e.check in s'.checks && s'.checks[e.check].Completed?
          && s'.completions == s.completions + [Completion(e.check, s'.checks[e.check].result)])
  {
  }

  /** A check whose promise is completed has nothing more to say. */
  lemma {:induction false} CompletedIsSilent(s: State, e: Event, i: nat)
    requires Accountable(s) && Enabled(s, e) && i < |s.completions| && e.Concerns(s.completions[i].check)
    ensures e.ResultArrives?
  {
  }

  /**
   Every completed promise has the result of the conversation its check had, and that is one of the protocol's: in
   particular a container that was launched has been waited for, unless the connection was lost.
   */
  lemma {:induction false} CompletionsTell(nested: bool, events: seq<Event>, i: nat)
    requires Run(nested, events).Some? && i < |Run(nested, events).value.completions|
    ensures
      var done := Run(nested, events).value.completions[i];
      Tells(nested, Own(events, done.check), done.check, done.result)
    decreases events
  {
    var before, last := events[..|events| - 1], events[|events| - 1];
    var s := Run(nested, before).value;
    var done := Run(nested, events).value.completions[i];
    RunAccounts(nested, before);
    CompletionsAfterStep(s, last);
    assert before + [last] == events;
    OwnAppend(before, last, done.check);
    if i < |s.completions| {
      CompletionsTell(nested, before, i);
      if last.Concerns(done.check) {
        CompletedIsSilent(s, last, i);
      }
    } else {
      RunTalks(nested, before, done.check);
      TalkGoesOn(nested, Own(before, done.check), s, last, done.check);
    }
  }

  lemma {:induction false} OwnAreEvents(events: seq<Event>, c: CheckId, e: Event)
    requires e.Concerns(c) && !e.ResultArrives?
    ensures e in Own(events, c) <==> e in events
    decreases events
  {
    if events != [] {
      var before, last := events[..|events| - 1], events[|events| - 1];
      OwnAreEvents(before, c, e);
      assert events == before + [last];
    }
  }

  lemma {:induction false} CompletionAt(completions: seq<Completion>, c: CheckId) returns (i: nat)
    requires Completions(completions, c) > 0
    ensures i < |completions| && completions[i].check == c
    decreases |completions|
  {
    if completions[|completions| - 1].check == c {
      i := |completions| - 1;
    } else {
      i := CompletionAt(completions[..|completions| - 1], c);
    }
  }

  lemma {:induction false} TalksWait(talk: Talk, c: CheckId)
    requires ConnectEnds(c) in talk.Events(c)
    ensures (exists outcome: WaitOutcome :: WaitEnds(c, outcome) in talk.Events(c)) <==> LaunchFails(c) !in talk.Events(c)
  {
    if talk.TimedOutWaited? || talk.AnsweredWaited? {
      assert WaitEnds(c, talk.outcome) in talk.Events(c);
    }
  }

  /** A check that launched a container and is complete has waited for it, exactly unless the launch call failed. */
  lemma {:induction false} LaunchedIsWaitedFor(nested: bool, events: seq<Event>, c: CheckId)
    requires Run(nested, events).Some? && ConnectEnds(c) in events
    requires IsComplete(Run(nested, events).value.checks, Run(nested, events).value.nextCheck, c)
    ensures (exists outcome: WaitOutcome :: WaitEnds(c, outcome) in events) <==> LaunchFails(c) !in events
  {
    var s := Run(nested, events).value;
    RunAccounts(nested, events);
    var i := CompletionAt(s.completions, c);
    CompletionsTell(nested, events, i);
    var talk: Talk :| Own(events, c) == talk.Events(c);
    OwnAreEvents(events, c, ConnectEnds(c));
    OwnAreEvents(events, c, LaunchFails(c));
    TalksWait(talk, c);
    forall outcome: WaitOutcome
      ensures WaitEnds(c, outcome) in events <==> WaitEnds(c, outcome) in talk.Events(c)
    {
      OwnAreEvents(events, c, WaitEnds(c, outcome));
    }
  }

  // ---------------------------------------------------------------- what is reported

  lemma {:induction false} TalksTellOneResult(a: Talk, b: Talk, c: CheckId)
    requires a.Events(c) == b.Events(c)
    ensures a.Result() == b.Result()
  {
    var own := a.Events(c);
    assert own[|own| - 1] == b.Events(c)[|own| - 1];
    if |own| > 1 {
      assert own[|own| - 2] == b.Events(c)[|own| - 2];
    }
  }

  /** The result of the conversation a check had. */
  ghost function ResultOf(own: seq<Event>, c: CheckId): CheckResult {
    if exists talk: Talk :: own == talk.Events(c) then
      var talk: Talk :| own == talk.Events(c);
      talk.Result()
    else Discarded
  }

  lemma {:induction false} ToldIsResult(nested: bool, own: seq<Event>, c: CheckId, result: CheckResult)
    requires Tells(nested, own, c, result)
    ensures ResultOf(own, c) == result
  {
    var told: Talk :| own == told.Events(c) && result == told.Result();
    var talk: Talk :| own == talk.Events(c) && ResultOf(own, c) == talk.Result();
    TalksTellOneResult(told, talk, c);
  }

  /** What the update callback is to be told of a result: a transient error is not reported. */
  function ReportOf(result: CheckResult): seq<Update> {
    match result
    case Set(Exited(code)) => [CheckStatus(code)]
    case Set(Signaled(_)) => []
    case Failed(reason) => [CheckError(reason)]
    case Discarded => []
  }

  /** One report for each result handled while not paused, in order: that of its check's conversation. */
  ghost function Reports(events: seq<Event>): seq<Update> {
    if events == [] then []
    else
      var before, last := events[..|events| - 1], events[|events| - 1];
      Reports(before) +
      if last.ResultArrives? && !PausedAfter(before) then ReportOf(ResultOf(Own(before, last.check), last.check)) else []
  }

  lemma {:induction false} UpdatesAfterStep(s: State, e: Event)
    requires Enabled(s, e)
    ensures Step(s, e).updates == s.updates +
              if e.ResultArrives? && !s.paused then ReportOf(s.checks[e.check].result) else []
  {
    assert s.updates + [] == s.updates;
  }

  lemma {:induction false} CompletedTells(nested: bool, events: seq<Event>, c: CheckId)
    requires Run(nested, events).Some?
    requires c in Run(nested, events).value.checks && Run(nested, events).value.checks[c].Completed?
    ensures ResultOf(Own(events, c), c) == Run(nested, events).value.checks[c].result
  {
    var s := Run(nested, events).value;
    RunAccounts(nested, events);
    var i := CompletionAt(s.completions, c);
    CompletionsTell(nested, events, i);
    ToldIsResult(nested, Own(events, c), c, s.completions[i].result);
  }

  /** In every run the update callback has been given exactly these reports. */
  lemma {:induction false} UpdatesAreReports(nested: bool, events: seq<Event>)
    requires Run(nested, events).Some?
    ensures Run(nested, events).value.updates == Reports(events)
    decreases events
  {
    if events != [] {
      var before, last := events[..|events| - 1], events[|events| - 1];
      UpdatesAreReports(nested, before);
      TimersAreAccountedFor(nested, before);
      UpdatesAfterStep(Run(nested, before).value, last);
      if last.ResultArrives? {
        CompletedTells(nested, before, last.check);
      }
    }
  }

  // ---------------------------------------------------------------- which container is waited for

  function Launches(events: seq<Event>): nat {
    if events == [] then 0
    else Launches(events[..|events| - 1]) + if events[|events| - 1].ConnectEnds? then 1 else 0
  }

  /** The container check `c` launched: containers are numbered in the order of their launches. */
  function ContainerOf(events: seq<Event>, c: CheckId): Option<ContainerId> {
    if events == [] then None
    else if events[|events| - 1] == ConnectEnds(c) then Some(Launches(events[..|events| - 1]))
    else ContainerOf(events[..|events| - 1], c)
  }

  /** The container a check is about, from its launch on. */
  function InHand(stage: Stage): Option<ContainerId> {
    match stage
    case Launching(k) => Some(k)
    case LaunchFailed(k, _) => Some(k)
    case Waiting(k, _) => Some(k)
    case _ => None
  }

  lemma {:induction false} InHandAfterStep(s: State, e: Event, c: CheckId)
    requires Enabled(s, e) && c in Step(s, e).checks
    ensures
      var k := InHand(Step(s, e).checks[c]);
      k.Some? ==> if e == ConnectEnds(c) then k.value == s.nextContainer else c in s.checks && InHand(s.checks[c]) == k
  {
  }

  /** A check answers, fails and waits for the container it launched itself, and for no other. */
  lemma {:induction false} WaitsForItsOwn(nested: bool, events: seq<Event>, c: CheckId)
    requires Run(nested, events).Some?
    ensures
      var s := Run(nested, events).value;
      && s.nextContainer == Launches(events)
      && (c in s.checks && InHand(s.checks[c]).Some? ==> InHand(s.checks[c]) == ContainerOf(events, c))
    decreases events
  {
    if events != [] {
      var before, last := events[..|events| - 1], events[|events| - 1];
      WaitsForItsOwn(nested, before, c);
      LaunchesAfterStep(Run(nested, before).value, last);
      if c in Run(nested, events).value.checks {
        InHandAfterStep(Run(nested, before).value, last, c);
      }
    }
  }

  lemma {:induction false} LaunchesAfterStep(s: State, e: Event)
    requires Enabled(s, e)
    ensures Step(s, e).nextContainer == s.nextContainer + if e.ConnectEnds? then 1 else 0
  {
  }
}
