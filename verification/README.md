# Verified models of Mesos components

Dafny models of the parts of Apache Mesos with the most intricate control flow, and proofs of what they guarantee.
`dafny verify dfyconfig.toml` checks everything.

## What is modelled

Each asynchronous component is a class whose methods are its handlers, a pure function per handler that says what the
handler does to the state, and runs of those functions over arbitrary sequences of events. The main results are about
all runs, all inputs or all graphs.

- **Record-IO** (`RecordIO.dfy`, `Reader.dfy`, `Transform.dfy`). The incremental decoder, the reader actor on top of it
  and the `transform` loop on top of the reader. The actor's whole state has a closed form: the number of reads and the
  stream that came out of the pipe determine it, so the i-th read gets the i-th record however reads and pipe events
  interleave. The decoder gives back any encoded records however the bytes are cut, and accepts framed streams only.
- **Bracket matchers** (`Brackets.dfy`, `BracketMatching.dfy`, `AngleMatching.dfy`). The linter's forward and backward
  matchers, line by line with a carried stack. From a bracket, tentative angle brackets never matter: both matchers find
  exactly the bracket pairs around balanced text, so they are inverse to each other, and `_GetTextInside` agrees with
  them. From an angle bracket, they count angle brackets and jump over bracket pairs.
- **Nesting stack** (`Preprocessor.dfy`). Deleting all `#else` and `#elif` branches leaves the nesting stack after every
  other line unchanged, and every such branch starts from the stack before its `#if`.
- **Review walks** (`ReviewGraph.dfy`, `ReviewPaths.dfy`, `ReviewIds.dfy`, `ReviewFaults.dfy`, `ApplyReviews.dfy`,
  `VisitFaults.dfy`). What the two recursive walks list and apply, in which order, exactly when they succeed, which fault
  they tell otherwise and exactly when they never end.
- **Check engine** (`Checker.dfy`, `CheckerRuns.dfy`, `CheckerTalks.dfy`, `Health.dfy`). Timers, pauses, overlapping
  checks, the conversations of the nested-container protocol and what they make the engine report; then the failure
  counter, the reports and the grace period.
- **Command scheduler** (`Scheduler.dfy`, `SchedulerCalls.dfy`). Which calls it sends is a function of the events it receives.
- **Allocation info** (`AllocationInfo.dfy`) and **renaming** (`SlaveToAgent.dfy`).

## Where a promise does not hold

Each of these is stated exactly, with a concrete instance.

- A chunk that holds a bad length header loses the records completed earlier in the same chunk, so how bytes are cut into
  chunks can matter: `RecordIO.ChunkingMattersExactly`, `RecordIO.RecordLostWithBadHeader`.
- `get_dependent_review_ids` is documented to raise an error on a cyclic dependency. It also raises one when two reviews
  share a dependency: given a deep enough call stack it succeeds exactly when there is no cycle, every dependency can be
  fetched and no unsubmitted review is reachable along two paths. See `ReviewIds.ListedExactlyWithoutCycles` and
  `ReviewIds.SharedDependencyIsReported`. And it can raise none: it recurses for ever exactly if it goes twice round a
  cycle, of submitted reviews then, before it meets a fault. See `ReviewFaults.NeverEndsExactly` and
  `ReviewFaults.SubmittedCycleOverflows`.
- A pause and a resume during a nested check start a second check beside it, and a check container can then be forgotten:
  `CheckerRuns.RecordKeptExactly` says by which steps, `CheckerRuns.OverlapForgetsAContainer` gives a run.
- A check command that ends by a signal makes the engine abort, because the failure of a future that did not fail is asked
  for: `CheckerRuns.AbortsExactlyOnSignals` says in which runs, `CheckerRuns.SignaledCommandAborts` gives the shortest one.
- Health reports are numbered runs exactly as long as the 32-bit failure counter does not wrap around:
  `Health.ReportsWellFormedExactly`, `Health.CounterWrapsAround`. A failure can be ignored after one was
  reported, exactly if the clock had been past the grace period before: `Health.IgnoredBeforeReportsExactly`, `Health.BackwardClockIgnoresLater`.
- The scheduler counts terminal updates, not tasks that have ended. It terminates in time exactly when the first updates,
  as many as it has tasks, are about distinct ones of them: `Scheduler.TerminatesInTimeExactly`,
  `Scheduler.RepeatedUpdateEndsTheGroup`.

## What comes from outside

- Pipes, HTTP requests, timers and processes are events; each request or wait ends once.
- `numify` is a parameter of the decoder; the round trip needs that it reads back the decimal form of a size.
  `deserialize`, the transforming function and the outcome of each write are parameters too.
- The linter's regular expressions are written out as predicates on strings. What `Update` does to the nesting stack after
  `UpdatePreprocessor` is an arbitrary function carried by each line.
- The review board is a finite map; a review that is not in it cannot be fetched. How deep the interpreter's call stack is
  and whether a patch applies to those before it are parameters.
- Container ids are fresh numbers. A task group is given by the set of its tasks' ids. Whether an offer fits is
  part of the offer, and finding the resources in an offer that fits succeeds.

## Model

| member | source | states |
|---|---|---|
| RecordIO.Decimal | 3rdparty/stout/include/stout/recordio.hpp:63-66 | a length header is never empty and never contains the delimiter |
| RecordIO.DecimalIsPlain | 3rdparty/stout/include/stout/recordio.hpp:63-66 | it is digits only, without a leading zero unless the size is 0 |
| RecordIO.ParseDecimalInverts | 3rdparty/stout/include/stout/recordio.hpp:105-115 | base 10 parsing reads back every size it prints |
| RecordIO.Decoder.Decode | 3rdparty/stout/include/stout/recordio.hpp:89-140 | one call returns the records of the chunk, or an error at the first bad header and for ever after; both CHECKs in the record phase hold |
| RecordIO.FeedAppend | 3rdparty/stout/include/stout/recordio.hpp:77-88 | decoding is incremental: two pieces in a row decode like their concatenation |
| RecordIO.FeedFrames | 3rdparty/stout/include/stout/recordio.hpp:97-139 | any frames whose headers announce their records' lengths decode to those records |
| RecordIO.ChunkedRoundTrip | 3rdparty/stout/include/stout/recordio.hpp:63-140 | the encoding of any records, cut into any chunks, decodes to those records without error |
| RecordIO.DeliveredThenLost | 3rdparty/stout/include/stout/recordio.hpp:95-114 | the records framed in the bytes are those delivered followed by those completed in the chunk with the bad header |
| RecordIO.StreamErrsExactly | 3rdparty/stout/include/stout/recordio.hpp:107-114 | the stream errs exactly when its bytes hold a bad header, wherever they are cut |
| RecordIO.ChunkingMattersExactly | 3rdparty/stout/include/stout/recordio.hpp:95-114 | every framed record is delivered if and only if none is completed in the chunk with the bad header |
| RecordIO.RecordLostWithBadHeader | 3rdparty/stout/include/stout/recordio.hpp:110-114 | the same bytes deliver a record in two chunks and none in one |
| RecordIO.FedBytesAreFrames | 3rdparty/stout/include/stout/recordio.hpp:97-139 | every byte fed to a decoder that has not failed belongs to a completed frame or to the unfinished one |
| RecordIO.CleanExactlyWhenFramed | 3rdparty/stout/include/stout/recordio.hpp:97-139 | a byte stream leaves the decoder between records if and only if it is a sequence of frames |
| Reader.ReaderProcess.constructor | src/common/recordio.hpp:151-187 | a spawned reader has one pipe read in flight and nothing else |
| Reader.ReaderProcess.Read | src/common/recordio.hpp:161-181 | a read takes the oldest record, else fails, else gets end-of-file, else waits |
| Reader.ReaderProcess.Fail | src/common/recordio.hpp:196-204 | every waiter is failed with the message and none is left |
| Reader.ReaderProcess.Complete | src/common/recordio.hpp:206-214 | every waiter gets end-of-file and none is left |
| Reader.ReaderProcess.Consumed | src/common/recordio.hpp:224-257 | the whole new state for every way a pipe read can end |
| Reader.ReaderProcess.DeliverRecords | src/common/recordio.hpp:245-254 | each record goes to the longest waiting read, or to the queue |
| Reader.ReaderProcess.Finalize | src/common/recordio.hpp:189-193 | every remaining waiter is failed |
| Reader.IdealStep | src/common/recordio.hpp:161-257 | every event takes the closed form of the actor's state to the closed form after it |
| Reader.RunIsIdeal | src/common/recordio.hpp:161-257 | after any run the actor's whole state is the closed form of the number of reads and the stream that came out of the pipe |
| Reader.RunServesItsReads | src/common/recordio.hpp:161-257 | so the i-th read has the i-th record and later ones the way the stream ended, reads wait only when no record does, one pipe read is in flight exactly while the stream is open, and nobody waits once it has ended |
| Reader.InterleavingIrrelevant | src/common/recordio.hpp:161-257 | runs with as many reads and the same pipe events end in the same state |
| Reader.AnsweredOnce | src/common/recordio.hpp:196-254 | an answered future is never answered again |
| Reader.EmittedChunks | src/common/recordio.hpp:238-254 | chunks without a bad header leave the stream open with the records of all their bytes |
| Reader.EncodedRecordsAreRead | src/common/recordio.hpp:84-93 | when the pipe carries encoded records, cut anyhow, and ends, the i-th read gets the i-th record and every further one end-of-file |
| Transform.TransformLoop.constructor | src/common/recordio.hpp:112-121 | the loop starts with one read |
| Transform.TransformLoop.Resume | src/common/recordio.hpp:122-141 | the loop body: ends on end-of-file, on any failure, or writes and reads again |
| Transform.LoopRunIsFaithful | src/common/recordio.hpp:112-142 | in every reachable state exactly the mapped records before the read in progress have been written, and a finished loop has the verdict on the first record that does not pass |
| Transform.TransformOutcome | src/common/recordio.hpp:100-142 | a finished loop stopped at the first record that could not be deserialised or written, and succeeded if and only if it got to end-of-file |
| Transform.TransformInterleavingIrrelevant | src/common/recordio.hpp:112-142 | two finished loops of which one read as much of the same pipe as the other, or more, wrote the same and end alike |
| Transform.StuckOnlyOnAnOpenPipe | src/common/recordio.hpp:117-142 | an unfinished loop cannot go on if and only if the pipe is open and everything in it has been written |
| Brackets.OperatorEndsInNoBracket | support/cpplint.py:1671-1676 | the character skipped before an operator's angle bracket is not a bracket |
| Brackets.EndsWithOperatorExactly | support/cpplint.py:1550-1550 | the expression for `operator` is found exactly in a text that ends in that whole word and spaces |
| Brackets.FindEndOfExpressionInLine | support/cpplint.py:1524-1599 | the loop computes the step-by-step scan of the line, for every start stack |
| Brackets.CloseExpression | support/cpplint.py:1602-1643 | the search goes on line by line for as long as a stack is carried |
| Brackets.FindStartOfExpressionInLine | support/cpplint.py:1646-1720 | the same for the backward scan, with its skipped characters |
| Brackets.ReverseCloseExpression | support/cpplint.py:1723-1758 | the same for the backward search |
| BracketMatching.ScanErased | support/cpplint.py:1537-1599 | with tentative angle brackets erased from its stack, the forward scan is a plain bracket scan |
| BracketMatching.ScanBackErased | support/cpplint.py:1662-1720 | so is the backward scan |
| BracketMatching.CloseIsPlainScan | support/cpplint.py:1602-1643 | from a bracket, CloseExpression finds the position one plain scan over the concatenated lines finds, and fails when it fails |
| BracketMatching.ReverseCloseIsPlainScan | support/cpplint.py:1723-1758 | the same backwards |
| BracketMatching.PlainFindsPairs | support/cpplint.py:1556-1573 | a plain scan ends past position b if and only if b pairs with the opener around balanced text |
| BracketMatching.PlainBackFindsPairs | support/cpplint.py:1691-1708 | the same backwards |
| BracketMatching.CloseFindsPairs | support/cpplint.py:1602-1643 | CloseExpression reports a position if and only if it pairs with the opener in the text of all lines |
| BracketMatching.ReverseCloseFindsPairs | support/cpplint.py:1723-1758 | the same for ReverseCloseExpression |
| BracketMatching.MatchersAreInverse | support/cpplint.py:1602-1758 | forwards from an opener ends just past a closer if and only if backwards from that closer ends at the opener |
| BracketMatching.CloseEndsPastItsCloser | support/cpplint.py:1618-1622 | a search from an opener ends just past a closer of its kind |
| BracketMatching.ReverseCloseEndsAtItsOpener | support/cpplint.py:1734-1738 | a search from a closer ends at an opener of its kind |
| BracketMatching.OthersAreRefused | support/cpplint.py:1618-1622 | a search from any character that is neither a bracket nor an angle bracket, or from `<<` or `<=`, finds nothing |
| AngleMatching.ForwardRolesExactly | support/cpplint.py:1542-1592 | which `<` and `>` count going forwards, by the text around them |
| AngleMatching.BackwardRolesExactly | support/cpplint.py:1668-1692 | which count going backwards, and which take the character before them along |
| AngleMatching.CloseFromSweeps | support/cpplint.py:1602-1643 | the search over the lines is one sweep over their concatenation, from any stack |
| AngleMatching.OpenFromSweeps | support/cpplint.py:1723-1758 | the same backwards |
| AngleMatching.CloseCountsAngles | support/cpplint.py:1541-1592 | from a `<` that is no operator, CloseExpression ends past the `>` at which the count of angle brackets is even, bracket pairs jumped over, and finds nothing when a closer, an unmatched opener, a `;`, a `<<` that takes the first one back or the end comes first |
| AngleMatching.ReverseCloseCountsAngles | support/cpplint.py:1667-1692 | the same backwards from a `>` that is no operator |
| BracketMatching.TextUntilMatch | support/cpplint.py:4633-4653 | the loop over expected closers finds a text if and only if a plain scan finds an end, and then the text up to it |
| BracketMatching.GetTextInside | support/cpplint.py:4623-4653 | returns the text between the brackets if and only if the line matcher finds an end, and nothing otherwise |
| Preprocessor.NestingState.constructor | support/cpplint.py:2414-2435 | both stacks start empty |
| Preprocessor.NestingState.UpdatePreprocessor | support/cpplint.py:2530-2584 | the new stacks for every directive, matched or not |
| Preprocessor.NestingState.Update | support/cpplint.py:2587-2609 | the directive is handled before the line's own update |
| Preprocessor.RelatedRuns | support/cpplint.py:2530-2584 | from related states, the run over all lines and the run over the kept lines show the same stacks on the kept lines |
| Preprocessor.ElseBranchesDoNotCount | support/cpplint.py:2540-2546 | deleting every else branch of any file leaves the nesting stack after every other line as it was |
| Preprocessor.PreprocessorStackReturns | support/cpplint.py:2551-2584 | well-nested lines leave the saved stacks around them untouched |
| Preprocessor.DirectiveExactly | support/cpplint.py:2551-2570 | a line is an if, an else or an endif exactly when it is spaces, `#`, spaces and one of the six words, not continued by a word character |
| Preprocessor.BranchStartsAfresh | support/cpplint.py:2555-2569 | after every `#else` and `#elif` of a conditional the nesting stack is the one before its `#if` |
| Preprocessor.FirstBranchCounts | support/cpplint.py:2570-2584 | after `#endif` it is the one the first branch left, and the saved stacks are those before the `#if` |
| Preprocessor.OtherLinesSaveNothing | support/cpplint.py:2547-2584 | a line without a directive, and an else or endif without an if, change the stacks by the line's own update only |
| ReviewIds.CollectReviewIds | support/common.py:45-62 | the recursion with its shared list computes the walk on a call stack of any depth, errors included |
| ReviewIds.GetDependentReviewIds | support/common.py:86-94 | the result is the reversed list of the walk from the root, or its error |
| ReviewIds.WalkExplores | support/common.py:45-62 | from any list, the walk adds exactly the reachable unsubmitted reviews, dependencies later, and succeeds exactly when it meets nothing twice and fits on the stack |
| ReviewIds.ListedInApplicableOrder | support/common.py:86-94 | the ids are distinct, are exactly the reachable unsubmitted reviews, and each comes after every one it depends on |
| ReviewIds.ListedExactlyWhenPathsAreUnique | support/common.py:54-62 | on every graph and stack: success if and only if all dependencies can be fetched, no unsubmitted review is on two paths, and every path fits |
| ReviewIds.PathsFitExactlyWithoutCycles | support/common.py:54-62 | paths that fit mean no cycle, and without one a stack with room for every review fits them all |
| ReviewIds.ListedExactlyWithoutCycles | support/common.py:58-62 | on such a stack: success if and only if everything can be fetched, no cycle is reachable and no unsubmitted review is on two paths |
| ReviewIds.SharedDependencyIsReported | support/common.py:58-61 | a shared dependency without a cycle is reported as a circular one |
| ReviewFaults.WalkExplained | support/common.py:45-62 | from any list: the outcome is told by the paths in the order of visits, the first fault or the first path that does not fit |
| ReviewFaults.WalkTellsTheFirstFault | support/common.py:45-62 | on every graph and stack: listed if and only if no fault and all paths fit, overflow if and only if some path does not fit and no fault comes up to its end, else the first fault is told |
| ReviewFaults.NeverEndsExactly | support/common.py:45-62 | the walk overflows every stack if and only if it goes twice round a cycle before any fault, and if and only if it overflows one three times as deep as there are reviews |
| ReviewFaults.LoopIsSubmitted | support/common.py:49-61 | all reviews on such a cycle are submitted |
| ReviewFaults.NeverEndsExactlyOnCycles | support/common.py:54-62 | where all can be fetched and no unsubmitted review is on two paths, it never ends if and only if there is a cycle |
| ReviewFaults.SubmittedCycleOverflows | support/common.py:49-62 | an instance: a submitted review that depends on itself |
| ApplyReviews.Session.ApplyReviews | support/verify-reviews.py:166-199 | the recursion computes the visit, with every error and the lists it leaves, and terminates on every finite graph |
| ApplyReviews.VisitExplores | support/verify-reviews.py:166-199 | from any state, the visit adds exactly the reachable reviews and applies exactly the unsubmitted ones among them |
| ApplyReviews.AppliedAfterDependencies | support/verify-reviews.py:179-199 | on success each reachable unsubmitted review is applied once, after all its dependencies |
| ApplyReviews.VisitFollows | support/verify-reviews.py:187-199 | from any state, a visit does what it would if every patch applied, or stops at the first patch in its order that does not, with the error its outcome calls for |
| ApplyReviews.DoneExactlyOnUniquePaths | support/verify-reviews.py:168-199 | success if and only if all reviews met have reviewers and can be fetched, none is on two paths, and every patch applies to those before it |
| VisitFaults.VisitExplained | support/verify-reviews.py:166-185 | from any state and if every patch applies: the outcome is told by the paths in the order of visits, as the first fault on them |
| VisitFaults.VisitTellsTheFirstFault | support/verify-reviews.py:166-199 | on every graph and with every patch outcome: the first of missing reviewers, a review met before and one that cannot be fetched is told, unless a patch ordered before it does not apply |
| Checker.CheckerProcess.constructor | src/checks/checker_process.cpp:239-275 | an engine starts unpaused with one timer |
| Checker.CheckerProcess.ScheduleNext | src/checks/checker_process.cpp:393-401 | sets one timer; every call meets CHECK(!paused) |
| Checker.CheckerProcess.Pause | src/checks/checker_process.cpp:404-411 | pausing is idempotent and changes nothing else |
| Checker.CheckerProcess.Resume | src/checks/checker_process.cpp:414-424 | an effective resume sets one timer, any other changes nothing |
| Checker.CheckerProcess.PerformCheck | src/checks/checker_process.cpp:284-341 | a timer starts one check, or nothing when paused |
| Checker.CheckerProcess.OnRemoveAnswered | src/checks/checker_process.cpp:648-664 | a confirmed removal clears the record and goes on to connect; a refusal discards |
| Checker.CheckerProcess.OnConnected | src/checks/checker_process.cpp:701-781 | a fresh container is recorded and launched |
| Checker.CheckerProcess.OnLaunchAnswered | src/checks/checker_process.cpp:784-832 | whatever the answer, the container is waited for |
| Checker.CheckerProcess.NestedCommandCheckFailure | src/checks/checker_process.cpp:858-904 | a timeout waits for the container, a lost connection discards |
| Checker.CheckerProcess.OnWaitEnded | src/checks/checker_process.cpp:799-854 | the result for every reason and outcome of the wait |
| Checker.CheckerProcess.ProcessCommandCheckResult | src/checks/checker_process.cpp:969-1003 | an exit status, a failure and a discard are passed on; any other status aborts |
| Checker.CheckerProcess.ProcessCheckResult | src/checks/checker_process.cpp:427-460 | unless paused, the result is reported if there is one and exactly one timer is set |
| CheckerRuns.RunAccounts | src/checks/checker_process.cpp:599-904 | in every run each check completes its promise exactly once, when it is past its protocol, with the result it then has |
| CheckerTalks.CompletionsTell | src/checks/checker_process.cpp:599-904 | every completed promise has the result of its check's own events, and these are one of the protocol's six conversations |
| CheckerTalks.LaunchedIsWaitedFor | src/checks/checker_process.cpp:784-904 | a complete check that launched a container has waited for it if and only if its launch call did not fail |
| CheckerTalks.WaitsForItsOwn | src/checks/checker_process.cpp:701-904 | the container a check answers, fails and waits for is the one it launched |
| CheckerTalks.UpdatesAreReports | src/checks/checker_process.cpp:427-460 | in every run the callback was given exactly the results of the conversations handled while not paused, in order: exit codes, errors with their reasons, nothing for a discard |
| CheckerRuns.ChecksProgress | src/checks/checker_process.cpp:599-904 | only a check's own events move it, each strictly towards its result, and one of them is always enabled |
| CheckerRuns.ResultsHandledOnce | src/checks/checker_process.cpp:969-1003 | every check's result is handled exactly once when it is over and not before |
| CheckerRuns.TimersAreAccountedFor | src/checks/checker_process.cpp:393-460 | in every run that has not aborted, the timers fired and pending are one, plus one for each result handled while not paused, plus one for each resume of a paused engine |
| CheckerRuns.RunKeepsGoing | src/checks/checker_process.cpp:272-288 | an unpaused engine always has a timer or a check in flight, and never more than one plus its effective resumes |
| CheckerRuns.NeverPausedRunsOneAtATime | src/checks/checker_process.cpp:272-460 | an engine that was never paused has exactly one |
| CheckerRuns.PausedIsSilent | src/checks/checker_process.cpp:286-460 | from a pause on, for as long as there is no resume, nothing is reported, scheduled or started |
| CheckerRuns.AbortsExactlyOnSignals | src/checks/checker_process.cpp:834-1000 | a run aborts if and only if it handles the result of a check whose command was ended by a signal, other than SIGKILL in its container |
| CheckerRuns.SignaledCommandAborts | src/checks/checker_process.cpp:983-1000 | a plain command ended by any signal aborts the engine |
| CheckerRuns.RecordKeptExactly | src/checks/checker_process.cpp:648-711 | the record of the container to remove has been right all through a run if and only if in no step a launch met a record or a removal cleared another container's |
| CheckerRuns.SequentialRunsForgetNothing | src/checks/checker_process.cpp:614-711 | while checks do not overlap, the only launched container not confirmed removed is the recorded one |
| CheckerRuns.SequentialRunsLaunchOne | src/checks/checker_process.cpp:701-711 | while checks do not overlap, a container is launched only when none is recorded and none is left |
| CheckerRuns.NeverPausedIsSequential | src/checks/checker_process.cpp:272-460 | checks of an engine that was never paused do not overlap |
| CheckerRuns.ResumeOverlaps | src/checks/checker_process.cpp:414-424 | a pause, a resume and its timer start one more check beside those in flight |
| CheckerRuns.OverlapForgetsAContainer | src/checks/checker_process.cpp:707-711 | a run with a pause and a resume in which a container is forgotten |
| Health.HealthChecker.constructor | src/checks/health_checker.cpp:200-212 | no failures, initializing, nothing reported |
| Health.HealthChecker.ProcessCheckResult | src/checks/health_checker.cpp:139-174 | an error or an unhealthy status is a failure, everything else a success |
| Health.HealthChecker.Failure | src/checks/health_checker.cpp:294-320 | a failure is ignored in the grace period before any success, else counted with wrap-around and reported |
| Health.HealthChecker.Success | src/checks/health_checker.cpp:323-338 | the first success and the first after failures are reported; the counter is cleared |
| Health.CounterCountsFailures | src/checks/health_checker.cpp:294-338 | the counter is the number of counted failures since the last success, modulo 2^32 |
| Health.ObservedAsMeant | src/checks/health_checker.cpp:139-174 | a result fails exactly if it is an error, an exit code other than 0, an HTTP status below 200 or from 400 on, or a TCP check without success; the grace period is positive and not over |
| Health.ReportsAreTold | src/checks/health_checker.cpp:294-338 | the reports of any run are a function of the history of results and times: which failures are ignored, numbers, kill flags and the successes that are reported |
| Health.ReportsWellFormedExactly | src/checks/health_checker.cpp:304-335 | reports are runs numbered from 1 with single healthy reports between them and kill set from the threshold on, if and only if the counter never wraps |
| Health.CounterWrapsAround | src/checks/health_checker.cpp:304-312 | an instance: 2^32 failures in a row leave the counter at 0 and the reports no numbered run |
| Health.EveryStreamIsReported | src/checks/health_checker.cpp:304-335 | every such stream of reports is made in some run |
| Health.IgnoredBeforeReportsExactly | src/checks/health_checker.cpp:296-302 | an ignored failure comes before the first report if and only if the clock had not been past the grace period |
| Health.IgnoredOnlyBeforeReports | src/checks/health_checker.cpp:296-302 | with a monotone clock a failure is ignored only before the first report |
| Health.BackwardClockIgnoresLater | src/checks/health_checker.cpp:296-302 | with a clock that goes back it can be ignored later |
| Scheduler.CommandScheduler.constructor | src/cli/execute.cpp:405-424 | disconnected, without an id, nothing launched |
| Scheduler.CommandScheduler.OnConnected | src/cli/execute.cpp:442-447 | connects and registers |
| Scheduler.CommandScheduler.OnDisconnected | src/cli/execute.cpp:449-452 | disconnects and keeps everything else |
| Scheduler.CommandScheduler.DoReliableRegistration | src/cli/execute.cpp:454-473 | only while connected and not subscribed, subscribes and sets a retry |
| Scheduler.CommandScheduler.KillTask | src/cli/execute.cpp:475-491 | sends one kill with the framework id |
| Scheduler.CommandScheduler.OnOffers | src/cli/execute.cpp:493-644 | each offer is accepted or declined in turn |
| Scheduler.CommandScheduler.Update | src/cli/execute.cpp:698-763 | acknowledges, schedules a kill and counts terminal updates |
| Scheduler.CommandScheduler.Received | src/cli/execute.cpp:646-696 | the queued events are handled in order |
| Scheduler.HandlingIsGood | src/cli/execute.cpp:493-763 | no event makes a check on the framework id fail; the one on the subscription fails exactly for offers and updates without one |
| Scheduler.OffersAnsweredInOrder | src/cli/execute.cpp:497-643 | all received offers are answered once each, in order: the first that fits is accepted, all others declined |
| Scheduler.AtMostOneAccept | src/cli/execute.cpp:515-624 | at most one ACCEPT is ever sent |
| Scheduler.AbortsExactlyWhenUnsubscribed | src/cli/execute.cpp:483-700 | a run aborts if and only if an offer or an update is handled without a subscription, delayed kills included |
| Scheduler.RegistrationIsRetried | src/cli/execute.cpp:442-473 | while connected a retry is pending; a subscription and a pending kill have a framework id |
| Scheduler.TerminatesExactlyWhenDone | src/cli/execute.cpp:749-762 | after any run the scheduler is terminating if and only if it has tasks and the received events hold at least as many terminal updates |
| Scheduler.TerminatesInTimeExactly | src/cli/execute.cpp:749-762 | at every moment of a run it is terminating exactly if all its tasks have ended, if and only if it has tasks and the first updates, as many as tasks, are about distinct ones of them |
| Scheduler.RepeatedUpdateEndsTheGroup | src/cli/execute.cpp:755-760 | an instance: two updates about one of two tasks terminate it |
| SchedulerCalls.RunIsTold | src/cli/execute.cpp:442-763 | in every run the framework id, the connection, the pending retries and kills and the whole sequence of calls sent are functions of the events |
| SchedulerCalls.StopsExactly | src/cli/execute.cpp:493-700 | an error event ends the process, an offer or an update without a subscription aborts it, whichever comes first, and nothing else does |
| SchedulerCalls.UpdatesAreAcknowledged | src/cli/execute.cpp:725-737 | the acknowledgements sent are one for each update with a uuid, in order, with its task, agent and uuid and the id of the last subscription |
| SchedulerCalls.RunningTasksAreKilled | src/cli/execute.cpp:475-491 | the kills sent and pending are together the running updates, each with its task and agent, if tasks are to be killed, and none otherwise |
| AllocationInfo.InjectAll | src/common/protobuf_utils.cpp:710-725 | the loop sets the value on every resource of a list that has none, in place |
| AllocationInfo.StripAll | src/common/protobuf_utils.cpp:846-860 | the loop clears the value on every resource of a list |
| AllocationInfo.InjectTasks | src/common/protobuf_utils.cpp:732-740 | the nested loops do so for all tasks and their executors |
| AllocationInfo.StripTasks | src/common/protobuf_utils.cpp:867-873 | so do those of the other function |
| AllocationInfo.InjectAllocationInfo | src/common/protobuf_utils.cpp:704-839 | its switch sets the value on every resource the kind selects that has none |
| AllocationInfo.StripAllocationInfo | src/common/protobuf_utils.cpp:842-947 | its own switch clears the value on every resource the kind selects |
| AllocationInfo.StripAfterInject | src/common/protobuf_utils.cpp:704-947 | stripping after injecting equals stripping alone, for every kind |
| AllocationInfo.SecondInjectChangesNothing | src/common/protobuf_utils.cpp:710-716 | a second injection with any value changes nothing |
| AllocationInfo.SelectedAreRewritten | src/common/protobuf_utils.cpp:728-838 | every resource the kind selects is rewritten, in place and once, also in a submessage created on the way |
| AllocationInfo.NothingElseIsRewritten | src/common/protobuf_utils.cpp:728-838 | no other submessage changes, and nothing in the selected one beside the selected resources |
| AllocationInfo.RewritingIsUnique | src/common/protobuf_utils.cpp:728-838 | these two facts determine the result |
| AllocationInfo.InjectAfterStrip | src/common/protobuf_utils.cpp:704-947 | after stripping and injecting every selected resource is as before, with exactly the injected value |
| SlaveToAgent.ReplaceAll | src/common/http.cpp:144-156 | the loop terminates and replaces exactly the original occurrences, keeping every other character |
| SlaveToAgent.LowerSlaveToAgent | src/common/http.cpp:144-156 | exactly the occurrences of "slave" are replaced and none is left |
| SlaveToAgent.UpperSlaveToAgent | src/common/http.cpp:159-171 | exactly the occurrences of "SLAVE" are replaced and none is left |
| SlaveToAgent.ReplacingIsIdempotent | src/common/http.cpp:144-171 | replacing again changes nothing |
| SlaveToAgent.ReplacedIsUnique | src/common/http.cpp:144-171 | the result is determined by the string |
| SlaveToAgent.LowerIsCompatible | src/common/http.cpp:149-152 | neither "slave" nor "agent" can overlap an occurrence of "slave" |
| SlaveToAgent.UpperIsCompatible | src/common/http.cpp:164-167 | the same in upper case |

## Left out

- The bracket matchers' search from a `<` or `>` that is part of an operator: it is modelled, and nothing is claimed about what it finds.
- The rest of `cpplint.py`: style checks that do not depend on one another.
- Aliasing of the linter's stack entries: the source copies the stacks it saves, so they are values here.
- HTTP and TCP checks: they follow the same scheduling as plain commands, with other results.
- Launching processes, entering namespaces, HTTP transport, logging and messages on the console.
- The contents of ACCEPT calls: only the offer they name is kept.
- Resource arithmetic: whether an offer fits is given.
- Posting reviews and deciding which ones need verification: scripts around git and HTTP.
- `applied`, `posted` and similar reports of `verify-reviews.py` after the walk: they only print lists.
