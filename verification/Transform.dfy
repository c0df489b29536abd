/**
 `transform`: an asynchronous loop that reads records one at a time from a Record-IO reader it owns,
 maps each through a function and writes the result to a pipe.
 */
module Transform {
  import opened Wrappers
  import opened Reader

  const WRITE_FAILED := "Write failed to the pipe"

  /** The loop's parameters; `accepts(k)` says whether the k-th write to the output pipe succeeds. */
  datatype Config<!T> = Config(
    numify: Numify,
    deserialize: string -> Try<T>,
    func: T -> string,
    accepts: nat -> bool)

  /** `result` is the loop's future; the read in progress is the last future of the reader. */
  datatype LoopState<+T> = LoopState(reader: State<T>, written: seq<string>, result: Option<Try<()>>) {
    predicate Valid() {
      reader.Valid() && reader.futures != []
    }

    function Next(): Answer<T>
      requires reader.futures != []
    {
      reader.futures[|reader.futures| - 1]
    }
  }

  /** The loop body on an answered read, up to the next read. */
  function Resuming<T>(config: Config<T>, s: LoopState<T>): (r: LoopState<T>)
    requires s.Valid() && s.result.None? && !s.Next().Pending?
    ensures r.Valid()
  {
    match s.Next()
    case Failed(message) => s.(result := Some(Error(message)))
    case EndOfFile => s.(result := Some(Success(())))
    case Answered(Error(message)) => s.(result := Some(Error(message)))
    case Answered(Success(t)) =>
      if !config.accepts(|s.written|) then s.(result := Some(Error(WRITE_FAILED)))
      else s.(written := s.written + [config.func(t)], reader := Reading(s.reader))
  }

  class TransformLoop<T> {
    const reader: ReaderProcess<T>
    const config: Config<T>
    var next: nat
    var written: seq<string>
    var result: Option<Try<()>>

    ghost predicate Valid()
      reads this, reader, reader.decoder
    {
      && reader.Valid()
      && |reader.futures| == next + 1
      && reader.decoder.numify == config.numify && reader.deserialize == config.deserialize
    }

    ghost function View(): LoopState<T>
      reads this, reader, reader.decoder
    {
      LoopState(reader.View(), written, result)
    }

    /** Starting the loop issues its first read. */
    constructor (config: Config<T>)
      ensures Valid() && fresh(reader) && fresh(reader.decoder) && this.config == config
      ensures View() == Started(config)
    {
      this.config := config;
      var process := new ReaderProcess(config.numify, config.deserialize);
      var first := process.Read();
      reader, next, written, result := process, first, [], None;
    }

    /** The loop body on the answer to the read in progress. */
    method Resume()
      requires Valid() && result.None? && !reader.futures[next].Pending?
      modifies this, reader
      ensures Valid() && View() == Resuming(config, old(View()))
    {
      match reader.futures[next]
      case Failed(message) =>
        result := Some(Error(message));
      case EndOfFile =>
        result := Some(Success(()));
      case Answered(record) =>
        if record.Error? {
          result := Some(Error(record.message));
          return;
        }
        if !config.accepts(|written|) {
          result := Some(Error(WRITE_FAILED));
          return;
        }
        written := written + [config.func(record.value)];
        next := reader.Read();
    }
  }

  // ---------------------------------------------------------------- runs

  function Started<T>(config: Config<T>): (s: LoopState<T>)
    ensures s.Valid()
  {
    LoopState(Reading(Spawned()), [], None)
  }

  datatype LoopEvent = Piped(read: PipeRead) | Resumed

  predicate LoopEnabled<T>(s: LoopState<T>, e: LoopEvent)
    requires s.Valid()
  {
    s.result.None? && match e
      case Piped(read) => Enabled(s.reader, PipeEnds(read))
      case Resumed => !s.Next().Pending?
  }

  function LoopStep<T>(config: Config<T>, s: LoopState<T>, e: LoopEvent): (r: LoopState<T>)
    requires s.Valid() && LoopEnabled(s, e)
    ensures r.Valid()
  {
    match e
    case Piped(read) => s.(reader := Step(config.numify, config.deserialize, s.reader, PipeEnds(read)))
    case Resumed => Resuming(config, s)
  }

  function LoopRun<T>(config: Config<T>, events: seq<LoopEvent>): (r: Option<LoopState<T>>)
    ensures r.Some? ==> r.value.Valid()
  {
    if events == [] then Some(Started(config))
    else
      var last := events[|events| - 1];
      match LoopRun(config, events[..|events| - 1])
      case None => None
      case Some(s) => if LoopEnabled(s, last) then Some(LoopStep(config, s, last)) else None
  }

  /** What came out of the input pipe in a run of the loop. */
  function Input<T>(config: Config<T>, events: seq<LoopEvent>): (src: Source<T>)
    ensures src.decoder.Valid() && !src.terminated
  {
    if events == [] then Source(RecordIO.INITIAL, [], Open, false)
    else
      var src := Input(config, events[..|events| - 1]);
      match events[|events| - 1]
      case Resumed => src
      case Piped(read) => Emit(config.numify, config.deserialize, src, PipeEnds(read))
  }

  // ---------------------------------------------------------------- the reference

  /** The k-th record can be read, transformed and written. */
  predicate Passes<T>(config: Config<T>, src: Source<T>, k: nat) {
    k < |src.records| && src.records[k].Success? && config.accepts(k)
  }

  ghost predicate PassesUpTo<T>(config: Config<T>, src: Source<T>, k: nat) {
    k <= |src.records| && forall i | 0 <= i < k :: src.records[i].Success? && config.accepts(i)
  }

  /** How the loop ends at the first record that does not pass; none while that is not settled. */
  function Verdict<T>(config: Config<T>, src: Source<T>, k: nat): Option<Try<()>> {
    if k < |src.records| then
      match src.records[k]
      case Error(message) => Some(Error(message))
      case Success(_) => if config.accepts(k) then None else Some(Error(WRITE_FAILED))
    else match src.ending
      case Open => None
      case AtEof => Some(Success(()))
      case Broken(message) => Some(Error(message))
  }

  function Mapped<T>(config: Config<T>, src: Source<T>, k: nat): seq<string>
    requires k <= |src.records| && forall i | 0 <= i < k :: src.records[i].Success?
  {
    seq(k, i requires 0 <= i < k => config.func(src.records[i].value))
  }

  /**
   In every reachable state the loop has written exactly the mapped records before its read in progress,
   all of which pass, and it is finished only with the verdict on the first record that does not pass.
   */
  ghost predicate Faithful<T>(config: Config<T>, src: Source<T>, s: LoopState<T>) {
    var k := |s.written|;
    && s.reader == Ideal(k + 1, src)
    && PassesUpTo(config, src, k)
    && s.written == Mapped(config, src, k)
    && (s.result.Some? ==> s.result == Verdict(config, src, k))
  }

  lemma {:induction false} NextIsIdeal<T>(src: Source<T>, s: LoopState<T>, k: nat)
    requires s.reader == Ideal(k + 1, src)
    ensures s.reader.futures != [] && s.Next() == IdealAnswer(src, k)
  {
  }

  lemma {:induction false} MappedNext<T>(config: Config<T>, src: Source<T>, k: nat)
    requires PassesUpTo(config, src, k) && Passes(config, src, k)
    ensures PassesUpTo(config, src, k + 1)
    ensures Mapped(config, src, k + 1) == Mapped(config, src, k) + [config.func(src.records[k].value)]
  {
  }

  lemma {:induction false} FaithfulResume<T>(config: Config<T>, src: Source<T>, s: LoopState<T>)
    requires src.decoder.Valid() && !src.terminated
    requires Faithful(config, src, s) && LoopEnabled(s, Resumed)
    ensures Faithful(config, src, LoopStep(config, s, Resumed))
  {
    var k := |s.written|;
    NextIsIdeal(src, s, k);
    if Passes(config, src, k) {
      IdealRead(k + 1, src);
      MappedNext(config, src, k);
    }
  }

  lemma {:induction false} MappedGoesOn<T>(config: Config<T>, src: Source<T>, src': Source<T>, k: nat)
    requires PassesUpTo(config, src, k) && src.records <= src'.records
    ensures PassesUpTo(config, src', k) && Mapped(config, src', k) == Mapped(config, src, k)
  {
    assert forall i | 0 <= i < k :: src'.records[i] == src.records[i];
  }

  lemma {:induction false} EmitGoesOn<T>(config: Config<T>, src: Source<T>, read: PipeRead)
    requires src.decoder.Valid()
    ensures src.records <= Emit(config.numify, config.deserialize, src, PipeEnds(read)).records
  {
  }

  lemma {:induction false} FaithfulPiped<T>(config: Config<T>, src: Source<T>, s: LoopState<T>, read: PipeRead)
    requires src.decoder.Valid() && !src.terminated
    requires Faithful(config, src, s) && LoopEnabled(s, Piped(read))
    ensures Faithful(config, Emit(config.numify, config.deserialize, src, PipeEnds(read)), LoopStep(config, s, Piped(read)))
  {
    var k := |s.written|;
    IdealStep(config.numify, config.deserialize, k + 1, src, PipeEnds(read));
    EmitGoesOn(config, src, read);
    MappedGoesOn(config, src, Emit(config.numify, config.deserialize, src, PipeEnds(read)), k);
  }

  lemma {:induction false} LoopRunIsFaithful<T>(config: Config<T>, events: seq<LoopEvent>)
    requires LoopRun(config, events).Some?
    ensures Faithful(config, Input(config, events), LoopRun(config, events).value)
    decreases events
  {
    if events == [] {
      var src: Source<T> := Input(config, events);
      assert Spawned<T>() == Ideal(0, src);
      IdealRead(0, src);
    } else {
      var before := events[..|events| - 1];
      LoopRunIsFaithful(config, before);
      var s := LoopRun(config, before).value;
      match events[|events| - 1]
      case Resumed => FaithfulResume(config, Input(config, before), s);
      case Piped(read) => FaithfulPiped(config, Input(config, before), s, read);
    }
  }

  /**
   A finished loop has written the mapped records before the first one that could not be deserialised
   or written, or all of them; and it succeeded exactly when it got to end-of-file without either.
   */
  lemma {:induction false} TransformOutcome<T>(config: Config<T>, events: seq<LoopEvent>)
    requires LoopRun(config, events).Some? && LoopRun(config, events).value.result.Some?
    ensures
      var s, src := LoopRun(config, events).value, Input(config, events);
      var k := |s.written|;
      && PassesUpTo(config, src, k) && !Passes(config, src, k)
      && s.written == Mapped(config, src, k)
      && (s.result == Some(Success(())) <==> k == |src.records| && src.ending == AtEof)
  {
    LoopRunIsFaithful(config, events);
  }

  lemma {:induction false} FirstStopIsUnique<T>(config: Config<T>, src: Source<T>, i: nat, j: nat)
    requires PassesUpTo(config, src, i) && !Passes(config, src, i)
    requires PassesUpTo(config, src, j) && !Passes(config, src, j)
    ensures i == j
  {
  }

  /** What was read from the pipe in a run, in order. */
  function Pipe(events: seq<LoopEvent>): seq<PipeRead> {
    if events == [] then []
    else Pipe(events[..|events| - 1]) + match events[|events| - 1] case Piped(read) => [read] case Resumed => []
  }

  /** `b` is `a`, or goes on from there; a stream that has ended does not go on. */
  predicate GoesOn<T(==)>(a: Source<T>, b: Source<T>) {
    && a.records <= b.records
    && (a.ending != Open ==> a.records == b.records && a.ending == b.ending)
  }

  lemma {:induction false} InputIsThePipes<T>(config: Config<T>, a: seq<LoopEvent>, b: seq<LoopEvent>)
    requires Pipe(a) == Pipe(b)
    ensures Input(config, a) == Input(config, b)
    decreases |a| + |b|
  {
    if a != [] && a[|a| - 1].Resumed? {
      InputIsThePipes(config, a[..|a| - 1], b);
    } else if b != [] && b[|b| - 1].Resumed? {
      InputIsThePipes(config, a, b[..|b| - 1]);
    } else if a != [] && b != [] {
      var a', b' := a[..|a| - 1], b[..|b| - 1];
      var n := |Pipe(a)|;
      assert Pipe(a') == Pipe(a)[..n - 1] && Pipe(b') == Pipe(b)[..n - 1];
      assert a[|a| - 1].read == Pipe(a)[n - 1] == Pipe(b)[n - 1] == b[|b| - 1].read;
      InputIsThePipes(config, a', b');
    }
  }

  lemma {:induction false} PipedOnlyWhileOpen<T>(config: Config<T>, events: seq<LoopEvent>, read: PipeRead)
    requires LoopRun(config, events).Some? && LoopEnabled(LoopRun(config, events).value, Piped(read))
    ensures Input(config, events).ending == Open
  {
    LoopRunIsFaithful(config, events);
  }

  lemma {:induction false} InputGoesOn<T>(config: Config<T>, a: seq<LoopEvent>, b: seq<LoopEvent>)
    requires LoopRun(config, b).Some? && Pipe(a) <= Pipe(b)
    ensures GoesOn(Input(config, a), Input(config, b))
    decreases b
  {
    if Pipe(a) == Pipe(b) {
      InputIsThePipes(config, a, b);
    } else {
      var before, last := b[..|b| - 1], b[|b| - 1];
      if last.Piped? {
        assert Pipe(b)[..|Pipe(b)| - 1] == Pipe(before);
        PipedOnlyWhileOpen(config, before, last.read);
      }
      assert Pipe(a) <= Pipe(before);
      InputGoesOn(config, a, before);
    }
  }

  /** The first record that stops the loop stops it however much more has been read by then. */
  lemma {:induction false} StopsAlike<T>(config: Config<T>, a: seq<LoopEvent>, b: seq<LoopEvent>)
    requires LoopRun(config, a).Some? && LoopRun(config, a).value.result.Some?
    requires LoopRun(config, b).Some? && LoopRun(config, b).value.result.Some?
    requires Pipe(a) <= Pipe(b)
    ensures LoopRun(config, a).value.written == LoopRun(config, b).value.written
    ensures LoopRun(config, a).value.result == LoopRun(config, b).value.result
  {
    LoopRunIsFaithful(config, a);
    LoopRunIsFaithful(config, b);
    InputGoesOn(config, a, b);
    var j, k := |LoopRun(config, a).value.written|, |LoopRun(config, b).value.written|;
    VerdictGoesOn(config, Input(config, a), Input(config, b), j);
    FirstStopIsUnique(config, Input(config, b), j, k);
  }

  lemma {:induction false} VerdictGoesOn<T>(config: Config<T>, a: Source<T>, b: Source<T>, k: nat)
    requires GoesOn(a, b) && PassesUpTo(config, a, k) && Verdict(config, a, k).Some?
    ensures PassesUpTo(config, b, k) && !Passes(config, b, k)
    ensures Verdict(config, b, k) == Verdict(config, a, k) && Mapped(config, b, k) == Mapped(config, a, k)
  {
    assert forall i | 0 <= i < |a.records| :: b.records[i] == a.records[i];
  }

  /**
   The outcome does not depend on how the loop's own steps fell between the pipe's, nor on how much of the pipe
   had been read when the loop stopped: it is that of the pipe alone.
   */
  lemma {:induction false} TransformInterleavingIrrelevant<T>(config: Config<T>, a: seq<LoopEvent>, b: seq<LoopEvent>)
    requires LoopRun(config, a).Some? && LoopRun(config, a).value.result.Some?
    requires LoopRun(config, b).Some? && LoopRun(config, b).value.result.Some?
    requires Pipe(a) <= Pipe(b) || Pipe(b) <= Pipe(a)
    ensures LoopRun(config, a).value.written == LoopRun(config, b).value.written
    ensures LoopRun(config, a).value.result == LoopRun(config, b).value.result
  {
    if Pipe(a) <= Pipe(b) {
      StopsAlike(config, a, b);
    } else {
      StopsAlike(config, b, a);
    }
  }

  /** A loop that cannot resume and is not finished waits for the pipe: it has written all there is. */
  lemma {:induction false} StuckOnlyOnAnOpenPipe<T>(config: Config<T>, events: seq<LoopEvent>)
    requires LoopRun(config, events).Some?
    ensures
      var s, src := LoopRun(config, events).value, Input(config, events);
      s.result.None? ==>
        (!LoopEnabled(s, Resumed) <==> src.ending == Open && |s.written| == |src.records|)
  {
    LoopRunIsFaithful(config, events);
    var s, src := LoopRun(config, events).value, Input(config, events);
    assert s.Next() == IdealAnswer(src, |s.written|);
  }
}
