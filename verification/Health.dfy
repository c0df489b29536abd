/** The health checker: turns the results of checks into health reports, with a failure count and a grace period. */
module Health {
  import opened Wrappers

  /** The failure counter is a 32-bit unsigned integer. */
  const UINT32_LIMIT: nat := 0x1_0000_0000
  type uint32 = n: nat | n < UINT32_LIMIT

  /** Unsigned increment: it wraps around. */
  function Incremented(n: uint32): uint32 {
    if n == UINT32_LIMIT - 1 then 0 else n + 1
  }

  const HTTP_OK := 200
  const HTTP_BAD_REQUEST := 400

  datatype CheckStatusInfo = Command(exitCode: int) | Http(statusCode: int) | Tcp(succeeded: bool) | Unknown

  predicate IsHealthy(info: CheckStatusInfo) {
    match info
    case Command(exitCode) => exitCode == 0
    case Http(statusCode) => HTTP_OK <= statusCode < HTTP_BAD_REQUEST
    case Tcp(succeeded) => succeeded
    case Unknown => true
  }

  predicate Passes(result: Try<CheckStatusInfo>) {
    result.Success? && IsHealthy(result.value)
  }

  datatype Config = Config(threshold: uint32, gracePeriod: real, startTime: real)

  datatype Report = Healthy | Unhealthy(failures: nat, kill: bool)

  datatype State = State(consecutiveFailures: uint32, initializing: bool, reports: seq<Report>)

  // ---------------------------------------------------------------- the checker

  predicate InGracePeriod(config: Config, now: real) {
    config.gracePeriod > 0.0 && now - config.startTime <= config.gracePeriod
  }

  function Failing(config: Config, s: State, now: real): State {
    if s.initializing && InGracePeriod(config, now) then s
    else
      var failures := Incremented(s.consecutiveFailures);
      s.(consecutiveFailures := failures,
         reports := s.reports + [Unhealthy(failures, failures >= config.threshold)])
  }

  function Succeeding(s: State): State {
    if s.initializing || s.consecutiveFailures > 0 then State(0, false, s.reports + [Healthy])
    else s.(consecutiveFailures := 0)
  }

  class HealthChecker {
    const config: Config
    var consecutiveFailures: uint32
    var initializing: bool
    var reports: seq<Report>

    ghost function View(): State
      reads this
    {
      State(consecutiveFailures, initializing, reports)
    }

    constructor (config: Config)
      ensures this.config == config && View() == State(0, true, [])
    {
      this.config := config;
      consecutiveFailures, initializing, reports := 0, true, [];
    }

    method ProcessCheckResult(now: real, result: Try<CheckStatusInfo>)
      modifies this
      ensures View() == if Passes(result) then Succeeding(old(View())) else Failing(config, old(View()), now)
    {
      if result.Error? {
        Failure(now);
        return;
      }
      if !IsHealthy(result.value) {
        Failure(now);
        return;
      }
      Success();
    }

    method Failure(now: real)
      modifies this
      ensures View() == Failing(config, old(View()), now)
    {
      if initializing && config.gracePeriod > 0.0 && now - config.startTime <= config.gracePeriod {
        return;
      }
      consecutiveFailures := Incremented(consecutiveFailures);
      var kill := consecutiveFailures >= config.threshold;
      reports := reports + [Unhealthy(consecutiveFailures, kill)];
    }

    method Success()
      modifies this
      ensures View() == Succeeding(old(View()))
    {
      if initializing || consecutiveFailures > 0 {
        reports := reports + [Healthy];
        initializing := false;
      }
      consecutiveFailures := 0;
    }
  }

  // ---------------------------------------------------------------- histories

  /** The result of a check, and when it came in. */
  datatype Observation = Observation(now: real, result: Try<CheckStatusInfo>) {
    /** An error, a command that did not exit with 0, an HTTP status out of 200 to 399, or no TCP connection. */
    predicate Failed() {
      match result
      case Error(_) => true
      case Success(Command(exitCode)) => exitCode != 0
      case Success(Http(statusCode)) => statusCode < 200 || statusCode >= 400
      case Success(Tcp(succeeded)) => !succeeded
      case Success(Unknown) => false
    }

    /** It falls into the grace period, if there is one. */
    predicate InGrace(config: Config) {
      config.gracePeriod > 0.0 && now <= config.startTime + config.gracePeriod
    }
  }

  function Observing(config: Config, s: State, o: Observation): State {
    if Passes(o.result) then Succeeding(s) else Failing(config, s, o.now)
  }

  /** What the checker takes for a failure, and for the grace period. */
  lemma ObservedAsMeant(config: Config, o: Observation)
    ensures Passes(o.result) <==> !o.Failed()
    ensures InGracePeriod(config, o.now) <==> o.InGrace(config)
  {
  }

  function Run(config: Config, history: seq<Observation>): State {
    if history == [] then State(0, true, [])
    else Observing(config, Run(config, history[..|history| - 1]), history[|history| - 1])
  }

  predicate EverPassed(history: seq<Observation>) {
    history != [] && (!history[|history| - 1].Failed() || EverPassed(history[..|history| - 1]))
  }

  /** The last observation is a failure that is not counted: no check has passed yet, and the grace period lasts. */
  predicate LastIgnored(config: Config, history: seq<Observation>)
    requires history != []
  {
    var last := history[|history| - 1];
    last.Failed() && !EverPassed(history[..|history| - 1]) && last.InGrace(config)
  }

  /** The counted failures since the last passed check. */
  function FailuresInARow(config: Config, history: seq<Observation>): nat {
    if history == [] || !history[|history| - 1].Failed() then 0
    else FailuresInARow(config, history[..|history| - 1]) + if LastIgnored(config, history) then 0 else 1
  }

  /** The counter is the number of counted failures since the last success, as far as 32 bits go. */
  lemma {:induction false} CounterCountsFailures(config: Config, history: seq<Observation>)
    ensures
      var s := Run(config, history);
      && s.initializing == !EverPassed(history)
      && s.consecutiveFailures == FailuresInARow(config, history) % UINT32_LIMIT
    decreases history
  {
    if history != [] {
      var before := history[..|history| - 1];
      CounterCountsFailures(config, before);
      ObservedAsMeant(config, history[|history| - 1]);
      WrapIsModulo(FailuresInARow(config, before));
    }
  }

  lemma WrapIsModulo(n: nat)
    ensures Incremented(n % UINT32_LIMIT) == (n + 1) % UINT32_LIMIT
  {
  }

  // ---------------------------------------------------------------- the stream of reports

  /** What is reported when the last observation comes in; numbers are as far as 32 bits go. */
  function ReportOf(config: Config, history: seq<Observation>): seq<Report>
    requires history != []
  {
    var before, last := history[..|history| - 1], history[|history| - 1];
    if !last.Failed() then
      if !EverPassed(before) || FailuresInARow(config, before) % UINT32_LIMIT > 0 then [Healthy] else []
    else if LastIgnored(config, history) then []
    else
      var n := FailuresInARow(config, history) % UINT32_LIMIT;
      [Unhealthy(n, n >= config.threshold)]
  }

  function Reports(config: Config, history: seq<Observation>): seq<Report> {
    if history == [] then [] else Reports(config, history[..|history| - 1]) + ReportOf(config, history)
  }

  /** In every run exactly these reports are made, in order. */
  lemma {:induction false} ReportsAreTold(config: Config, history: seq<Observation>)
    ensures Run(config, history).reports == Reports(config, history)
    decreases history
  {
    if history != [] {
      var before := history[..|history| - 1];
      ReportsAreTold(config, before);
      CounterCountsFailures(config, before);
      CounterCountsFailures(config, history);
      ObservedAsMeant(config, history[|history| - 1]);
    }
  }

  /** What report `r` may follow `before`, the reports made so far. */
  predicate MayFollow(threshold: nat, before: seq<Report>, r: Report) {
    var previous := if before == [] then None else Some(before[|before| - 1]);
    match r
    case Healthy => previous.None? || previous.value.Unhealthy?
    case Unhealthy(failures, kill) =>
      && failures == (if previous.Some? && previous.value.Unhealthy? then previous.value.failures + 1 else 1)
      && (kill <==> failures >= threshold)
  }

  /** Runs of unhealthy reports numbered 1, 2, 3, ... with one healthy report between two runs, and none twice. */
  predicate WellFormed(threshold: nat, reports: seq<Report>) {
    reports == [] ||
    (var before := reports[..|reports| - 1];
     WellFormed(threshold, before) && MayFollow(threshold, before, reports[|reports| - 1]))
  }

  /** At no point were there as many failures in a row as the counter has values. */
  predicate Bounded(config: Config, history: seq<Observation>) {
    FailuresInARow(config, history) < UINT32_LIMIT && (history == [] || Bounded(config, history[..|history| - 1]))
  }

  /** The last report tells the counter, and whether anything was reported tells the rest. */
  predicate ReportsTell(s: State) {
    if s.reports == [] then s.initializing && s.consecutiveFailures == 0
    else match s.reports[|s.reports| - 1]
      case Healthy => !s.initializing && s.consecutiveFailures == 0
      case Unhealthy(failures, _) => s.consecutiveFailures == failures > 0
  }

  /** The observation makes the counter wrap around. */
  predicate Wraps(config: Config, s: State, o: Observation) {
    o.Failed() && !(s.initializing && o.InGrace(config)) && s.consecutiveFailures == UINT32_LIMIT - 1
  }

  /** An observation adds at most one report, and the right one unless the counter wraps around. */
  lemma ObservingReports(config: Config, s: State, o: Observation)
    requires ReportsTell(s)
    ensures
      var s' := Observing(config, s, o);
      || (s'.reports == s.reports && ReportsTell(s') && !Wraps(config, s, o))
      || (&& |s'.reports| == |s.reports| + 1 && s'.reports[..|s.reports|] == s.reports
          && (MayFollow(config.threshold, s.reports, s'.reports[|s.reports|]) <==> !Wraps(config, s, o))
          && (!Wraps(config, s, o) ==> ReportsTell(s')))
  {
  }

  lemma WrapsAtTheLimit(config: Config, history: seq<Observation>)
    requires history != [] && Bounded(config, history[..|history| - 1])
    ensures Wraps(config, Run(config, history[..|history| - 1]), history[|history| - 1]) <==> !Bounded(config, history)
  {
    CounterCountsFailures(config, history[..|history| - 1]);
  }

  lemma {:induction false} BoundedRunsReportWell(config: Config, history: seq<Observation>)
    requires Bounded(config, history)
    ensures WellFormed(config.threshold, Run(config, history).reports) && ReportsTell(Run(config, history))
    decreases history
  {
    if history != [] {
      var before := history[..|history| - 1];
      BoundedRunsReportWell(config, before);
      WrapsAtTheLimit(config, history);
      ObservingReports(config, Run(config, before), history[|history| - 1]);
    }
  }

  lemma {:induction false} PrefixWellFormed(threshold: nat, a: seq<Report>, b: seq<Report>)
    requires a <= b && WellFormed(threshold, b)
    ensures WellFormed(threshold, a)
    decreases |b|
  {
    if a != b {
      PrefixWellFormed(threshold, a, b[..|b| - 1]);
    } else {
      assert a == b;
    }
  }

  lemma {:induction false} WellFormedRunsAreBounded(config: Config, history: seq<Observation>)
    requires WellFormed(config.threshold, Run(config, history).reports)
    ensures Bounded(config, history)
    decreases history
  {
    if history != [] {
      var before := history[..|history| - 1];
      PrefixWellFormed(config.threshold, Run(config, before).reports, Run(config, history).reports);
      WellFormedRunsAreBounded(config, before);
      BoundedRunsReportWell(config, before);
      WrapsAtTheLimit(config, history);
      ObservingReports(config, Run(config, before), history[|history| - 1]);
    }
  }

  /** The reports are numbered runs exactly when the counter never wraps around. */
  lemma ReportsWellFormedExactly(config: Config, history: seq<Observation>)
    ensures WellFormed(config.threshold, Run(config, history).reports) <==> Bounded(config, history)
  {
    if Bounded(config, history) {
      BoundedRunsReportWell(config, history);
    }
    if WellFormed(config.threshold, Run(config, history).reports) {
      WellFormedRunsAreBounded(config, history);
    }
  }

  function Failures(n: nat): seq<Observation> {
    seq(n, _ => Observation(1.0, Success(Command(1))))
  }

  lemma {:induction false} FailuresAreInARow(config: Config, n: nat)
    requires config.gracePeriod == 0.0
    ensures FailuresInARow(config, Failures(n)) == n
  {
    if n > 0 {
      FailuresAreInARow(config, n - 1);
      assert Failures(n)[..n - 1] == Failures(n - 1);
    }
  }

  /** As many failures in a row as the counter has values: it is back at 0, and the reports are no numbered run. */
  lemma CounterWrapsAround(threshold: uint32)
    ensures
      var s := Run(Config(threshold, 0.0, 0.0), Failures(UINT32_LIMIT));
      s.consecutiveFailures == 0 && !WellFormed(threshold, s.reports)
  {
    var config := Config(threshold, 0.0, 0.0);
    FailuresAreInARow(config, UINT32_LIMIT);
    CounterCountsFailures(config, Failures(UINT32_LIMIT));
    ReportsWellFormedExactly(config, Failures(UINT32_LIMIT));
  }

  /** An observation after the grace period that makes for such a report. */
  function Reported(config: Config, r: Report): Observation {
    Observation(config.startTime + config.gracePeriod + 1.0, Success(Tcp(r.Healthy?)))
  }

  lemma ReportedNext(config: Config, s: State, r: Report)
    requires ReportsTell(s) && MayFollow(config.threshold, s.reports, r)
    requires r.Unhealthy? ==> r.failures < UINT32_LIMIT
    ensures
      var s' := Observing(config, s, Reported(config, r));
      s'.reports == s.reports + [r] && ReportsTell(s')
  {
  }

  /** Conversely, every such stream is reported in some run: no further restriction holds. */
  lemma {:induction false} EveryStreamIsReported(config: Config, reports: seq<Report>) returns (history: seq<Observation>)
    requires WellFormed(config.threshold, reports)
    requires forall i | 0 <= i < |reports| :: reports[i].Unhealthy? ==> reports[i].failures < UINT32_LIMIT
    ensures Run(config, history).reports == reports && ReportsTell(Run(config, history))
    decreases |reports|
  {
    if reports == [] {
      return [];
    }
    var before, last := reports[..|reports| - 1], reports[|reports| - 1];
    var earlier := EveryStreamIsReported(config, before);
    history := earlier + [Reported(config, last)];
    assert history[..|history| - 1] == earlier;
    assert reports == before + [last];
    ReportedNext(config, Run(config, earlier), last);
  }

  // ---------------------------------------------------------------- the grace period

  predicate Monotone(history: seq<Observation>) {
    forall i, j | 0 <= i < j < |history| :: history[i].now <= history[j].now
  }

  /** While no check has passed, nothing is reported exactly as long as every observation is in the grace period. */
  lemma {:induction false} SilentExactlyThroughGrace(config: Config, history: seq<Observation>)
    requires !EverPassed(history)
    ensures Run(config, history).reports == [] <==> forall i | 0 <= i < |history| :: history[i].InGrace(config)
    decreases history
  {
    if history != [] {
      var before := history[..|history| - 1];
      SilentExactlyThroughGrace(config, before);
      CounterCountsFailures(config, before);
      assert forall i | 0 <= i < |before| :: history[i] == before[i];
    }
  }

  /** An ignored failure comes before the first report exactly if the clock had not been past the grace period. */
  lemma IgnoredBeforeReportsExactly(config: Config, history: seq<Observation>)
    requires history != [] && LastIgnored(config, history)
    ensures Run(config, history).reports == [] <==>
              forall i | 0 <= i < |history| - 1 :: history[i].InGrace(config)
  {
    var before := history[..|history| - 1];
    CounterCountsFailures(config, before);
    SilentExactlyThroughGrace(config, before);
    assert forall i | 0 <= i < |before| :: history[i] == before[i];
  }

  /** So with a clock that does not go back, failures are ignored only before the first report. */
  lemma IgnoredOnlyBeforeReports(config: Config, history: seq<Observation>)
    requires history != [] && Monotone(history) && LastIgnored(config, history)
    ensures Run(config, history).reports == []
  {
    IgnoredBeforeReportsExactly(config, history);
  }

  /** With a clock that goes back, a failure can be ignored after one was reported. */
  lemma BackwardClockIgnoresLater()
    ensures
      var config := Config(3, 10.0, 0.0);
      var history := [Observation(11.0, Error("timed out")), Observation(10.0, Success(Http(503)))];
      LastIgnored(config, history) && Run(config, history).reports == [Unhealthy(1, false)]
  {
    var history := [Observation(11.0, Error("timed out")), Observation(10.0, Success(Http(503)))];
    assert history[..1] == [Observation(11.0, Error("timed out"))] && [Observation(11.0, Error("timed out"))][..0] == [];
  }
}
