/**
 The check engine: a timer starts a check, its result is reported and the next check scheduled; checks can be
 paused and resumed. A nested command check runs a four-stage protocol against the agent: remove the previous
 check container, connect, launch a new container, wait for it.
 */
module Checker {
  import opened Wrappers

  type CheckId = nat
  type ContainerId = nat

  const SIGKILL: nat := 9

  /** How a command ended. */
  datatype Status = Exited(code: int) | Signaled(signal: nat)

  datatype Reason = TimedOut | NoExitCode | CommandFailed

  /** What a check's future ends with; it is discarded on a transient error. */
  datatype CheckResult = Set(status: Status) | Failed(reason: Reason) | Discarded

  /** Why the protocol waits for the check container. */
  datatype WaitReason = LaunchRefused | LaunchTimedOut | CommandEnded

  datatype WaitOutcome = WaitFailed | NoStatus | Ended(status: Status)

  /** Where a check in flight is; each stage waits for one future, or for its own result to be handled. */
  datatype Stage =
    | Running
    | Removing(previous: ContainerId)
    | Connecting
    | Launching(container: ContainerId)
    | LaunchFailed(container: ContainerId, timedOut: bool)
    | Waiting(container: ContainerId, reason: WaitReason)
    | Completed(result: CheckResult)

  /** A check's promise was completed. */
  datatype Completion = Completion(check: CheckId, result: CheckResult)

  /** What the update callback is called with. */
  datatype Update = CheckStatus(exitCode: int) | CheckError(reason: Reason)

  datatype State = State(
    nested: bool,
    paused: bool,
    timers: nat,
    checks: map<CheckId, Stage>,
    nextCheck: CheckId,
    previous: Option<ContainerId>,
    nextContainer: ContainerId,
    updates: seq<Update>,
    aborted: bool,
    // History: completed promises, containers launched and confirmed removed, effective resumes.
    completions: seq<Completion>,
    launched: set<ContainerId>,
    removed: set<ContainerId>,
    resumes: nat)

  // ---------------------------------------------------------------- the engine's steps

  function Moved(s: State, c: CheckId, stage: Stage): State {
    s.(checks := s.checks[c := stage])
  }

  function Completing(s: State, c: CheckId, result: CheckResult): State {
    Moved(s, c, Completed(result)).(completions := s.completions + [Completion(c, result)])
  }

  function Performing(s: State): State
    requires s.timers > 0
  {
    var s := s.(timers := s.timers - 1);
    if s.paused then s
    else
      var c := s.nextCheck;
      var s := s.(nextCheck := c + 1);
      if !s.nested then Moved(s, c, Running)
      else if s.previous.Some? then Moved(s, c, Removing(s.previous.value))
      else Moved(s, c, Connecting)
  }

  function RemoveAnswered(s: State, c: CheckId, ok: bool): State
    requires c in s.checks && s.checks[c].Removing?
  {
    if !ok then Completing(s, c, Discarded)
    else Moved(s, c, Connecting).(previous := None, removed := s.removed + {s.checks[c].previous})
  }

  function Connected(s: State, c: CheckId): State {
    var k := s.nextContainer;
    Moved(s, c, Launching(k)).(nextContainer := k + 1, previous := Some(k), launched := s.launched + {k})
  }

  function LaunchAnswered(s: State, c: CheckId, ok: bool): State
    requires c in s.checks && s.checks[c].Launching?
  {
    Moved(s, c, Waiting(s.checks[c].container, if ok then CommandEnded else LaunchRefused))
  }

  function FailureHandled(s: State, c: CheckId): State
    requires c in s.checks && s.checks[c].LaunchFailed?
  {
    if s.checks[c].timedOut then Moved(s, c, Waiting(s.checks[c].container, LaunchTimedOut))
    else Completing(s, c, Discarded)
  }

  function WaitResult(reason: WaitReason, outcome: WaitOutcome): CheckResult {
    match reason
    case LaunchRefused => Discarded
    case LaunchTimedOut => Failed(TimedOut)
    case CommandEnded =>
      match outcome
      case WaitFailed => Failed(NoExitCode)
      case NoStatus => Failed(NoExitCode)
      case Ended(status) => if status == Signaled(SIGKILL) then Discarded else Set(status)
  }

  function WaitEnded(s: State, c: CheckId, outcome: WaitOutcome): State
    requires c in s.checks && s.checks[c].Waiting?
  {
    Completing(s, c, WaitResult(s.checks[c].reason, outcome))
  }

  /** Reporting a result and scheduling the next check, unless paused; a transient error has nothing to report. */
  function Reporting(s: State, update: Option<Update>): State {
    if s.paused then s
    else s.(timers := s.timers + 1, updates := s.updates + if update.Some? then [update.value] else [])
  }

  /** Handling a check's result; a ready status that is not an exit status aborts the process. */
  function ResultHandled(s: State, c: CheckId): State
    requires c in s.checks && s.checks[c].Completed?
  {
    var s' := s.(checks := s.checks - {c});
    match s.checks[c].result
    case Set(Exited(code)) => Reporting(s', Some(CheckStatus(code)))
    case Set(Signaled(_)) => s'.(aborted := true)
    case Failed(reason) => Reporting(s', Some(CheckError(reason)))
    case Discarded => Reporting(s', None)
  }

  function Resuming(s: State): State {
    if s.paused then s.(paused := false, timers := s.timers + 1, resumes := s.resumes + 1) else s
  }

  // ---------------------------------------------------------------- the engine

  class CheckerProcess {
    const nested: bool
    var paused: bool
    var timers: nat
    var checks: map<CheckId, Stage>
    var nextCheck: CheckId
    var previousCheckContainerId: Option<ContainerId>
    var nextContainer: ContainerId
    var updates: seq<Update>
    var aborted: bool
    ghost var completions: seq<Completion>
    ghost var launched: set<ContainerId>
    ghost var removed: set<ContainerId>
    ghost var resumes: nat

    ghost function View(): State
      reads this
    {
      State(nested, paused, timers, checks, nextCheck, previousCheckContainerId, nextContainer, updates, aborted,
            completions, launched, removed, resumes)
    }

    constructor (nested: bool)
      ensures View() == Initial(nested)
    {
      this.nested := nested;
      paused, timers, checks, nextCheck := false, 0, map[], 0;
      previousCheckContainerId, nextContainer, updates, aborted := None, 0, [], false;
      completions, launched, removed, resumes := [], {}, {}, 0;
      new;
      ScheduleNext();
    }

    /** Its precondition is the `CHECK(!paused)` of the source. */
    method ScheduleNext()
      requires !paused
      modifies this
      ensures View() == old(View()).(timers := old(timers) + 1)
    {
      timers := timers + 1;
    }

    method Pause()
      modifies this
      ensures View() == old(View()).(paused := true)
    {
      if !paused {
        paused := true;
      }
    }

    method Resume()
      modifies this
      ensures View() == Resuming(old(View()))
    {
      if paused {
        paused := false;
        resumes := resumes + 1;
        ScheduleNext();
      }
    }

    /** A timer fires. */
    method PerformCheck()
      requires timers > 0
      modifies this
      ensures View() == Performing(old(View()))
    {
      timers := timers - 1;
      if paused {
        return;
      }
      var c := nextCheck;
      nextCheck := nextCheck + 1;
      if !nested {
        checks := checks[c := Running];
      } else {
        NestedCommandCheck(c);
      }
    }

    method NestedCommandCheck(c: CheckId)
      modifies this
      ensures View() == Moved(old(View()), c,
        if old(previousCheckContainerId).Some? then Removing(old(previousCheckContainerId).value) else Connecting)
    {
      if previousCheckContainerId.Some? {
        checks := checks[c := Removing(previousCheckContainerId.value)];
      } else {
        checks := checks[c := Connecting];
      }
    }

    method CompletePromise(c: CheckId, result: CheckResult)
      modifies this
      ensures View() == Completing(old(View()), c, result)
    {
      checks := checks[c := Completed(result)];
      completions := completions + [Completion(c, result)];
    }

    method OnRemoveAnswered(c: CheckId, ok: bool)
      requires c in checks && checks[c].Removing?
      modifies this
      ensures View() == RemoveAnswered(old(View()), c, ok)
    {
      if !ok {
        CompletePromise(c, Discarded);
      } else {
        removed := removed + {checks[c].previous};
        previousCheckContainerId := None;
        checks := checks[c := Connecting];
      }
    }

    method OnConnected(c: CheckId)
      modifies this
      ensures View() == Connected(old(View()), c)
    {
      var checkContainerId := nextContainer;
      nextContainer := nextContainer + 1;
      previousCheckContainerId := Some(checkContainerId);
      launched := launched + {checkContainerId};
      checks := checks[c := Launching(checkContainerId)];
    }

    method OnLaunchAnswered(c: CheckId, ok: bool)
      requires c in checks && checks[c].Launching?
      modifies this
      ensures View() == LaunchAnswered(old(View()), c, ok)
    {
      var container := checks[c].container;
      if !ok {
        checks := checks[c := Waiting(container, LaunchRefused)];
        return;
      }
      checks := checks[c := Waiting(container, CommandEnded)];
    }

    method NestedCommandCheckFailure(c: CheckId)
      requires c in checks && checks[c].LaunchFailed?
      modifies this
      ensures View() == FailureHandled(old(View()), c)
    {
      if checks[c].timedOut {
        checks := checks[c := Waiting(checks[c].container, LaunchTimedOut)];
      } else {
        CompletePromise(c, Discarded);
      }
    }

    method OnWaitEnded(c: CheckId, outcome: WaitOutcome)
      requires c in checks && checks[c].Waiting?
      modifies this
      ensures View() == WaitEnded(old(View()), c, outcome)
    {
      match checks[c].reason
      case LaunchRefused =>
        CompletePromise(c, Discarded);
      case LaunchTimedOut =>
        CompletePromise(c, Failed(TimedOut));
      case CommandEnded =>
        if !outcome.Ended? {
          CompletePromise(c, Failed(NoExitCode));
        } else if outcome.status.Signaled? && outcome.status.signal == SIGKILL {
          CompletePromise(c, Discarded);
        } else {
          CompletePromise(c, Set(outcome.status));
        }
    }

    method ProcessCommandCheckResult(c: CheckId)
      requires c in checks && checks[c].Completed?
      modifies this
      ensures View() == ResultHandled(old(View()), c)
    {
      var result := checks[c].result;
      checks := checks - {c};
      if result.Set? && result.status.Exited? {
        ProcessCheckResult(Some(CheckStatus(result.status.code)));
      } else if result.Discarded? {
        ProcessCheckResult(None);
      } else if result.Failed? {
        ProcessCheckResult(Some(CheckError(result.reason)));
      } else {
        aborted := true;
      }
    }

    method ProcessCheckResult(update: Option<Update>)
      modifies this
      ensures View() == Reporting(old(View()), update)
    {
      if paused {
        return;
      }
      if update.Some? {
        updates := updates + [update.value];
      }
      ScheduleNext();
    }
  }

  // ---------------------------------------------------------------- runs

  function Initial(nested: bool): State {
    State(nested, false, 1, map[], 0, None, 0, [], false, [], {}, {}, 0)
  }

  datatype Event =
    | TimerFires | PauseCalled | ResumeCalled
    | CommandEnds(check: CheckId, result: CheckResult)
    | RemoveFails(check: CheckId) | RemoveEnds(check: CheckId, ok: bool)
    | ConnectFails(check: CheckId) | ConnectEnds(check: CheckId)
    | LaunchFails(check: CheckId) | LaunchTimesOut(check: CheckId) | LaunchEnds(check: CheckId, ok: bool)
    | FailureArrives(check: CheckId)
    | WaitEnds(check: CheckId, outcome: WaitOutcome)
    | ResultArrives(check: CheckId)
  {
    predicate Concerns(c: CheckId) {
      !TimerFires? && !PauseCalled? && !ResumeCalled? && check == c
    }
  }

  predicate Enabled(s: State, e: Event) {
    && !s.aborted
    && match e
       case TimerFires => s.timers > 0
       case PauseCalled => true
       case ResumeCalled => true
       case _ =>
         && e.check in s.checks
         && match s.checks[e.check]
            case Running => e.CommandEnds?
            case Removing(_) => e.RemoveFails? || e.RemoveEnds?
            case Connecting => e.ConnectFails? || e.ConnectEnds?
            case Launching(_) => e.LaunchFails? || e.LaunchTimesOut? || e.LaunchEnds?
            case LaunchFailed(_, _) => e.FailureArrives?
            case Waiting(_, _) => e.WaitEnds?
            case Completed(_) => e.ResultArrives?
  }

  function Step(s: State, e: Event): State
    requires Enabled(s, e)
  {
    match e
    case TimerFires => Performing(s)
    case PauseCalled => s.(paused := true)
    case ResumeCalled => Resuming(s)
    case CommandEnds(c, result) => Completing(s, c, result)
    case RemoveFails(c) => Completing(s, c, Discarded)
    case RemoveEnds(c, ok) => RemoveAnswered(s, c, ok)
    case ConnectFails(c) => Completing(s, c, Discarded)
    case ConnectEnds(c) => Connected(s, c)
    case LaunchFails(c) => Moved(s, c, LaunchFailed(s.checks[c].container, false))
    case LaunchTimesOut(c) => Moved(s, c, LaunchFailed(s.checks[c].container, true))
    case LaunchEnds(c, ok) => LaunchAnswered(s, c, ok)
    case FailureArrives(c) => FailureHandled(s, c)
    case WaitEnds(c, outcome) => WaitEnded(s, c, outcome)
    case ResultArrives(c) => ResultHandled(s, c)
  }

  function Run(nested: bool, events: seq<Event>): Option<State> {
    if events == [] then Some(Initial(nested))
    else
      var last := events[|events| - 1];
      match Run(nested, events[..|events| - 1])
      case None => None
      case Some(s) => if Enabled(s, last) then Some(Step(s, last)) else None
  }
}
