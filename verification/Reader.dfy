/**
 The asynchronous Record-IO reader: an actor that decodes a pipe and answers `read()` calls.
 Reads and pipe events interleave arbitrarily; a read that finds no record waits.
 */
module Reader {
  import opened Wrappers
  import RecordIO

  type DecoderState = RecordIO.DecoderState
  type Numify = RecordIO.Numify

  /** The state of the future a `read()` returned. */
  datatype Answer<+T> = Pending | Answered(record: Try<T>) | EndOfFile | Failed(message: string)

  const TERMINATING := "Reader is terminating"
  const DISCARDED := "discarded"

  function PipeError(message: string): string { "Pipe::Reader failure: " + message }
  function DecoderError(message: string): string { "Decoder failure: " + message }

  // ---------------------------------------------------------------- the actor's state and its methods' effects

  predicate InRange(waiters: seq<nat>, n: nat) {
    forall i | 0 <= i < |waiters| :: waiters[i] < n
  }

  /**
   `futures[i]` is the future of the i-th read; `waiters` names the futures still to be answered;
   `pipeReads` counts the pipe reads whose continuation can still run.
   */
  datatype State<+T> = State(
    decoder: DecoderState,
    waiters: seq<nat>,
    records: seq<Try<T>>,
    done: bool,
    error: Option<string>,
    futures: seq<Answer<T>>,
    pipeReads: nat,
    running: bool)
  {
    predicate Valid() {
      decoder.Valid() && InRange(waiters, |futures|)
    }
  }

  function Reading<T>(s: State<T>): (r: State<T>)
    requires s.Valid()
    ensures r.Valid()
  {
    if s.records != [] then s.(records := s.records[1..], futures := s.futures + [Answered(s.records[0])])
    else if s.error.Some? then s.(futures := s.futures + [Failed(s.error.value)])
    else if s.done then s.(futures := s.futures + [EndOfFile])
    else s.(waiters := s.waiters + [|s.futures|], futures := s.futures + [Pending])
  }

  /** Answers the given futures, front to back, with one and the same answer. */
  function AnswerAll<T>(futures: seq<Answer<T>>, waiters: seq<nat>, a: Answer<T>): (r: seq<Answer<T>>)
    requires InRange(waiters, |futures|)
    ensures |r| == |futures|
    decreases waiters
  {
    if waiters == [] then futures else AnswerAll(futures[waiters[0] := a], waiters[1..], a)
  }

  function Failing<T>(s: State<T>, message: string): (r: State<T>)
    requires s.Valid()
    ensures r.Valid() && |r.futures| == |s.futures|
  {
    s.(error := Some(message), waiters := [], futures := AnswerAll(s.futures, s.waiters, Failed(message)))
  }

  function Finalizing<T>(s: State<T>): (r: State<T>)
    requires s.Valid()
    ensures r.Valid() && |r.futures| == |s.futures|
  {
    Failing(s, TERMINATING).(pipeReads := 0, running := false)
  }

  function Completing<T>(s: State<T>): (r: State<T>)
    requires s.Valid()
    ensures r.Valid() && |r.futures| == |s.futures|
  {
    s.(done := true, waiters := [], futures := AnswerAll(s.futures, s.waiters, EndOfFile))
  }

  function DeliverOne<T>(s: State<T>, t: Try<T>): (r: State<T>)
    requires s.Valid()
    ensures r.Valid() && |r.futures| == |s.futures|
  {
    if s.waiters != [] then s.(futures := s.futures[s.waiters[0] := Answered(t)], waiters := s.waiters[1..])
    else s.(records := s.records + [t])
  }

  function Deliver<T>(s: State<T>, ts: seq<Try<T>>): (r: State<T>)
    requires s.Valid()
    ensures r.Valid() && |r.futures| == |s.futures|
    decreases ts
  {
    if ts == [] then s else Deliver(DeliverOne(s, ts[0]), ts[1..])
  }

  function Deserialized<T>(deserialize: string -> Try<T>, records: seq<string>): (ts: seq<Try<T>>)
    ensures |ts| == |records|
  {
    seq(|records|, i requires 0 <= i < |records| => deserialize(records[i]))
  }

  /** What the pipe read in flight can end with; an empty read is the end of the stream. */
  datatype PipeRead = Data(data: string) | Failure(message: string) | Discarded

  function Consuming<T>(numify: Numify, deserialize: string -> Try<T>, s: State<T>, read: PipeRead): (r: State<T>)
    requires s.Valid() && s.pipeReads > 0
    ensures r.Valid() && |r.futures| == |s.futures|
  {
    var s := s.(pipeReads := s.pipeReads - 1);
    match read
    case Failure(message) => Failing(s, PipeError(message))
    case Discarded => Failing(s, PipeError(DISCARDED))
    case Data(data) =>
      if data == "" then Completing(s)
      else
        match RecordIO.DecodeChunk(numify, s.decoder, data)
        case (decoder, Error(message)) => Failing(s.(decoder := decoder), DecoderError(message))
        case (decoder, Success(records)) =>
          var s := Deliver(s.(decoder := decoder), Deserialized(deserialize, records));
          s.(pipeReads := s.pipeReads + 1)
  }

  // ---------------------------------------------------------------- the actor

  class ReaderProcess<T> {
    const deserialize: string -> Try<T>
    const decoder: RecordIO.Decoder
    var waiters: seq<nat>
    var records: seq<Try<T>>
    var done: bool
    var error: Option<string>
    var futures: seq<Answer<T>>
    var pipeReads: nat
    var running: bool

    ghost function View(): State<T>
      reads this, decoder
    {
      State(decoder.View(), waiters, records, done, error, futures, pipeReads, running)
    }

    ghost predicate Valid()
      reads this, decoder
    {
      View().Valid()
    }

    /** Spawning: `initialize` issues the first pipe read. */
    constructor (numify: Numify, deserialize: string -> Try<T>)
      ensures Valid() && fresh(decoder) && decoder.numify == numify && this.deserialize == deserialize
      ensures View() == Spawned()
    {
      this.deserialize := deserialize;
      decoder := new RecordIO.Decoder(numify);
      waiters, records, done, error, futures := [], [], false, None, [];
      pipeReads, running := 0, true;
      new;
      Consume();
    }

    method Read() returns (future: nat)
      requires Valid()
      modifies this
      ensures Valid() && View() == Reading(old(View()))
      ensures future == old(|futures|)
    {
      future := |futures|;
      if records != [] {
        var record := records[0];
        records := records[1..];
        futures := futures + [Answered(record)];
        return;
      }
      if error.Some? {
        futures := futures + [Failed(error.value)];
        return;
      }
      if done {
        futures := futures + [EndOfFile];
        return;
      }
      waiters := waiters + [future];
      futures := futures + [Pending];
    }

    method Fail(message: string)
      requires Valid()
      modifies this
      ensures Valid() && View() == Failing(old(View()), message)
    {
      error := Some(message);
      while waiters != []
        invariant Valid()
        invariant View() == old(View()).(error := Some(message), waiters := waiters, futures := futures)
        invariant AnswerAll(futures, waiters, Failed(message))
               == AnswerAll(old(futures), old(waiters), Failed(message))
        decreases waiters
      {
        futures := futures[waiters[0] := Failed(message)];
        waiters := waiters[1..];
      }
    }

    method Complete()
      requires Valid()
      modifies this
      ensures Valid() && View() == Completing(old(View()))
    {
      done := true;
      while waiters != []
        invariant Valid()
        invariant View() == old(View()).(done := true, waiters := waiters, futures := futures)
        invariant AnswerAll(futures, waiters, EndOfFile) == AnswerAll(old(futures), old(waiters), EndOfFile)
        decreases waiters
      {
        futures := futures[waiters[0] := EndOfFile];
        waiters := waiters[1..];
      }
    }

    method Consume()
      requires Valid()
      modifies this
      ensures Valid() && View() == old(View()).(pipeReads := old(pipeReads) + 1)
    {
      pipeReads := pipeReads + 1;
    }

    /** The continuation of a pipe read. */
    method Consumed(read: PipeRead)
      requires Valid() && pipeReads > 0
      modifies this, decoder
      ensures Valid() && View() == Consuming(decoder.numify, deserialize, old(View()), read)
    {
      pipeReads := pipeReads - 1;
      if !read.Data? {
        Fail(PipeError(if read.Failure? then read.message else DISCARDED));
        return;
      }
      if read.data == "" {
        Complete();
        return;
      }
      var decode := decoder.Decode(read.data);
      if decode.Error? {
        Fail(DecoderError(decode.message));
        return;
      }
      DeliverRecords(decode.value);
      Consume();
    }

    /** Hands each record to the longest waiting read, or queues it. */
    method DeliverRecords(decoded: seq<string>)
      requires Valid()
      modifies this
      ensures Valid() && View() == Deliver(old(View()), Deserialized(deserialize, decoded))
    {
      ghost var ts := Deserialized(deserialize, decoded);
      ghost var before := View();
      for i := 0 to |decoded|
        invariant Valid()
        invariant View() == before.(waiters := waiters, records := records, futures := futures)
        invariant Deliver(View(), ts[i..]) == Deliver(before, ts)
      {
        var t := deserialize(decoded[i]);
        assert ts[i] == t && ts[i..][1..] == ts[i + 1..];
        if waiters != [] {
          futures := futures[waiters[0] := Answered(t)];
          waiters := waiters[1..];
        } else {
          records := records + [t];
        }
      }
    }

    method Finalize()
      requires Valid()
      modifies this
      ensures Valid() && View() == Finalizing(old(View()))
    {
      Fail(TERMINATING);
      pipeReads, running := 0, false;
    }
  }

  // ---------------------------------------------------------------- runs

  function Spawned<T>(): (s: State<T>)
    ensures s.Valid()
  {
    State(RecordIO.INITIAL, [], [], false, None, [], 1, true)
  }

  datatype Event = ReadCall | PipeEnds(read: PipeRead) | Terminate

  /** A terminated actor handles nothing; a pipe event needs a pipe read in flight. */
  predicate Enabled<T>(s: State<T>, e: Event) {
    s.running && (e.PipeEnds? ==> s.pipeReads > 0)
  }

  function Step<T>(numify: Numify, deserialize: string -> Try<T>, s: State<T>, e: Event): (r: State<T>)
    requires s.Valid() && Enabled(s, e)
    ensures r.Valid()
  {
    match e
    case ReadCall => Reading(s)
    case PipeEnds(read) => Consuming(numify, deserialize, s, read)
    case Terminate => Finalizing(s)
  }

  /** The state after the events, or none if one of them was not enabled in its turn. */
  function Run<T>(numify: Numify, deserialize: string -> Try<T>, events: seq<Event>): (r: Option<State<T>>)
    ensures r.Some? ==> r.value.Valid()
    decreases events
  {
    if events == [] then Some(Spawned())
    else
      var last := events[|events| - 1];
      match Run(numify, deserialize, events[..|events| - 1])
      case None => None
      case Some(s) => if Enabled(s, last) then Some(Step(numify, deserialize, s, last)) else None
  }

  // ---------------------------------------------------------------- the reference: one ordered stream

  datatype Ending = Open | AtEof | Broken(message: string)

  /** What has come out of the pipe: every decoded record, in order, and how the stream ended. */
  datatype Source<+T> = Source(decoder: DecoderState, records: seq<Try<T>>, ending: Ending, terminated: bool)

  function Emit<T>(numify: Numify, deserialize: string -> Try<T>, src: Source<T>, e: Event): (r: Source<T>)
    requires src.decoder.Valid()
    ensures r.decoder.Valid()
  {
    match e
    case ReadCall => src
    case Terminate =>
      src.(terminated := true, ending := if src.ending == Open then Broken(TERMINATING) else src.ending)
    case PipeEnds(Failure(message)) => src.(ending := Broken(PipeError(message)))
    case PipeEnds(Discarded) => src.(ending := Broken(PipeError(DISCARDED)))
    case PipeEnds(Data(data)) =>
      if data == "" then src.(ending := AtEof)
      else
        match RecordIO.DecodeChunk(numify, src.decoder, data)
        case (decoder, Error(message)) => src.(decoder := decoder, ending := Broken(DecoderError(message)))
        case (decoder, Success(records)) =>
          src.(decoder := decoder, records := src.records + Deserialized(deserialize, records))
  }

  /** The stream is a function of the pipe events alone: reads pass it by. */
  function Emitted<T>(numify: Numify, deserialize: string -> Try<T>, events: seq<Event>): (r: Source<T>)
    ensures r.decoder.Valid()
  {
    if events == [] then Source(RecordIO.INITIAL, [], Open, false)
    else Emit(numify, deserialize, Emitted(numify, deserialize, events[..|events| - 1]), events[|events| - 1])
  }

  function Reads(events: seq<Event>): nat {
    if events == [] then 0
    else Reads(events[..|events| - 1]) + if events[|events| - 1].ReadCall? then 1 else 0
  }

  /** The i-th read gets the i-th record; reads past the last record get the way the stream ended. */
  function IdealAnswer<T>(src: Source<T>, i: nat): Answer<T> {
    if i < |src.records| then Answered(src.records[i])
    else match src.ending
      case Open => Pending
      case AtEof => EndOfFile
      case Broken(message) => Failed(message)
  }

  function Range(lo: nat, hi: nat): (r: seq<nat>)
    ensures |r| == if lo < hi then hi - lo else 0
    ensures forall i | 0 <= i < |r| :: r[i] == lo + i
  {
    if lo < hi then seq(hi - lo, i requires 0 <= i => lo + i) else []
  }

  /** The whole actor state, in closed form, after `n` reads of the stream `src`. */
  function Ideal<T>(n: nat, src: Source<T>): State<T> {
    State(
      src.decoder,
      if src.ending == Open then Range(|src.records|, n) else [],
      if n < |src.records| then src.records[n..] else [],
      src.ending == AtEof,
      if src.terminated then Some(TERMINATING)
      else if src.ending.Broken? then Some(src.ending.message) else None,
      seq(n, i requires 0 <= i => IdealAnswer(src, i)),
      if src.ending == Open then 1 else 0,
      !src.terminated)
  }

  // ---------------------------------------------------------------- refinement

  lemma IdealRead<T>(n: nat, src: Source<T>)
    requires src.decoder.Valid() && !src.terminated
    requires Ideal(n, src).Valid()
    ensures Reading(Ideal(n, src)) == Ideal(n + 1, src)
  {
    var s, s' := Ideal(n, src), Ideal(n + 1, src);
    assert s'.futures == s.futures + [IdealAnswer(src, n)];
    if n < |src.records| {
      assert s.records[1..] == s'.records;
    } else {
      assert s.records == [] && s'.records == [];
      assert src.ending == Open ==> s'.waiters == s.waiters + [n];
    }
  }

  lemma {:induction false} AnswerAllRange<T>(futures: seq<Answer<T>>, lo: nat, a: Answer<T>)
    requires lo <= |futures|
    ensures AnswerAll(futures, Range(lo, |futures|), a)
         == seq(|futures|, i requires 0 <= i < |futures| => if i < lo then futures[i] else a)
    decreases |futures| - lo
  {
    if lo < |futures| {
      var futures' := futures[lo := a];
      assert Range(lo, |futures|)[1..] == Range(lo + 1, |futures|);
      AnswerAllRange(futures', lo + 1, a);
    }
  }

  /** Ending an open stream answers exactly the reads that wait, and leaves no waiter. */
  lemma IdealEnd<T>(n: nat, src: Source<T>, ending: Ending)
    requires src.ending == Open && ending != Open
    ensures InRange(Ideal(n, src).waiters, n)
    ensures AnswerAll(Ideal(n, src).futures, Ideal(n, src).waiters, IdealAnswer(src.(ending := ending), |src.records|))
         == Ideal(n, src.(ending := ending)).futures
  {
    var a := IdealAnswer(src.(ending := ending), |src.records|);
    if |src.records| <= n {
      AnswerAllRange(Ideal(n, src).futures, |src.records|, a);
    }
  }

  lemma IdealDeliverOne<T>(n: nat, src: Source<T>, t: Try<T>)
    requires src.ending == Open && Ideal(n, src).Valid()
    ensures DeliverOne(Ideal(n, src), t) == Ideal(n, src.(records := src.records + [t]))
  {
    var src' := src.(records := src.records + [t]);
    var s, s' := Ideal(n, src), Ideal(n, src');
    var d := |src.records|;
    if d < n {
      assert s.waiters[0] == d && s.waiters[1..] == s'.waiters;
      assert s.futures[d := Answered(t)] == s'.futures;
      assert s.records == s'.records;
    } else {
      assert s.waiters == [] && s'.waiters == [];
      assert s.records + [t] == s'.records;
      assert s.futures == s'.futures;
    }
  }

  lemma {:induction false} IdealDeliver<T>(n: nat, src: Source<T>, ts: seq<Try<T>>)
    requires src.ending == Open && src.decoder.Valid()
    ensures Ideal(n, src).Valid()
    ensures Deliver(Ideal(n, src), ts) == Ideal(n, src.(records := src.records + ts))
    decreases ts
  {
    if ts == [] {
      assert src.records + ts == src.records;
    } else {
      IdealDeliverOne(n, src, ts[0]);
      IdealDeliver(n, src.(records := src.records + [ts[0]]), ts[1..]);
      assert src.records + [ts[0]] + ts[1..] == src.records + ts;
    }
  }

  lemma {:induction false} DeliverKeepsPipeReads<T>(s: State<T>, ts: seq<Try<T>>, k: nat)
    requires s.Valid()
    ensures Deliver(s.(pipeReads := k), ts) == Deliver(s, ts).(pipeReads := k)
    decreases ts
  {
    if ts != [] {
      DeliverKeepsPipeReads(DeliverOne(s, ts[0]), ts[1..], k);
    }
  }

  lemma IdealFails<T>(n: nat, src: Source<T>, decoder: DecoderState, message: string)
    requires src.ending == Open && !src.terminated && src.decoder.Valid() && decoder.Valid()
    ensures Ideal(n, src).Valid()
    ensures Failing(Ideal(n, src).(decoder := decoder, pipeReads := 0), message)
         == Ideal(n, src.(decoder := decoder, ending := Broken(message)))
  {
    IdealEnd(n, src, Broken(message));
    assert Ideal(n, src.(ending := Broken(message))).futures == Ideal(n, src.(decoder := decoder, ending := Broken(message))).futures;
  }

  lemma IdealCompletes<T>(n: nat, src: Source<T>)
    requires src.ending == Open && !src.terminated && src.decoder.Valid()
    ensures Ideal(n, src).Valid()
    ensures Completing(Ideal(n, src).(pipeReads := 0)) == Ideal(n, src.(ending := AtEof))
  {
    IdealEnd(n, src, AtEof);
  }

  lemma IdealFinalizes<T>(n: nat, src: Source<T>)
    requires !src.terminated && src.decoder.Valid() && Ideal(n, src).Valid()
    ensures Finalizing(Ideal(n, src))
         == Ideal(n, src.(terminated := true, ending := if src.ending == Open then Broken(TERMINATING) else src.ending))
  {
    if src.ending == Open {
      IdealEnd(n, src, Broken(TERMINATING));
    }
    assert Ideal(n, src).futures == Ideal(n, src.(terminated := true)).futures;
  }

  lemma IdealGetsData<T>(n: nat, src: Source<T>, decoder: DecoderState, ts: seq<Try<T>>)
    requires src.ending == Open && src.decoder.Valid() && decoder.Valid()
    ensures Ideal(n, src).Valid()
    ensures
      var s := Deliver(Ideal(n, src).(decoder := decoder, pipeReads := 0), ts);
      s.(pipeReads := s.pipeReads + 1) == Ideal(n, src.(decoder := decoder, records := src.records + ts))
  {
    var src' := src.(decoder := decoder);
    IdealDeliver(n, src', ts);
    assert Ideal(n, src').futures == Ideal(n, src).futures;
    assert Ideal(n, src') == Ideal(n, src).(decoder := decoder);
    DeliverKeepsPipeReads(Ideal(n, src'), ts, 0);
  }

  lemma IdealConsumes<T>(numify: Numify, deserialize: string -> Try<T>, n: nat, src: Source<T>, read: PipeRead)
    requires src.ending == Open && !src.terminated && src.decoder.Valid() && Ideal(n, src).Valid()
    ensures Consuming(numify, deserialize, Ideal(n, src), read) == Ideal(n, Emit(numify, deserialize, src, PipeEnds(read)))
  {
    match read
    case Failure(message) => IdealFails(n, src, src.decoder, PipeError(message));
    case Discarded => IdealFails(n, src, src.decoder, PipeError(DISCARDED));
    case Data(data) =>
      if data == "" {
        IdealCompletes(n, src);
      } else {
        var (decoder, decode) := RecordIO.DecodeChunk(numify, src.decoder, data);
        if decode.Error? {
          IdealFails(n, src, decoder, DecoderError(decode.message));
        } else {
          IdealGetsData(n, src, decoder, Deserialized(deserialize, decode.value));
        }
      }
  }

  lemma IdealStep<T>(numify: Numify, deserialize: string -> Try<T>, n: nat, src: Source<T>, e: Event)
    requires src.decoder.Valid() && Ideal(n, src).Valid() && Enabled(Ideal(n, src), e)
    ensures Step(numify, deserialize, Ideal(n, src), e)
         == Ideal(n + if e.ReadCall? then 1 else 0, Emit(numify, deserialize, src, e))
  {
    match e
    case ReadCall => IdealRead(n, src);
    case Terminate => IdealFinalizes(n, src);
    case PipeEnds(read) => IdealConsumes(numify, deserialize, n, src, read);
  }

  /**
   Refinement: after any run the actor is in the closed form given by the number of reads
   and the stream that came out of the pipe.
   */
  lemma {:induction false} RunIsIdeal<T>(numify: Numify, deserialize: string -> Try<T>, events: seq<Event>)
    requires Run(numify, deserialize, events).Some?
    ensures Run(numify, deserialize, events) == Some(Ideal(Reads(events), Emitted(numify, deserialize, events)))
    decreases events
  {
    if events == [] {
      assert Spawned<T>() == Ideal(0, Emitted(numify, deserialize, events));
    } else {
      var before := events[..|events| - 1];
      RunIsIdeal(numify, deserialize, before);
      IdealStep(numify, deserialize, Reads(before), Emitted(numify, deserialize, before), events[|events| - 1]);
    }
  }

  /**
   What that says: the i-th read has the i-th record, and later ones the way the stream ended; reads wait only when no
   record does; one pipe read is in flight exactly while the stream is open; and once it has ended nobody waits.
   */
  lemma {:induction false} RunServesItsReads<T>(numify: Numify, deserialize: string -> Try<T>, events: seq<Event>)
    requires Run(numify, deserialize, events).Some?
    ensures
      var s, src := Run(numify, deserialize, events).value, Emitted(numify, deserialize, events);
      && |s.futures| == Reads(events)
      && (forall i | 0 <= i < |s.futures| :: s.futures[i] == IdealAnswer(src, i))
      && (forall i | 0 <= i < |s.futures| :: s.futures[i].Pending? <==> i in s.waiters)
      && (s.waiters == [] || s.records == [])
      && (if src.ending == Open then s.pipeReads == 1 else s.pipeReads == 0 && s.waiters == [])
  {
    RunIsIdeal(numify, deserialize, events);
    var s, src := Run(numify, deserialize, events).value, Emitted(numify, deserialize, events);
    forall i | 0 <= i < |s.futures| && s.futures[i].Pending?
      ensures i in s.waiters
    {
      assert s.waiters[i - |src.records|] == i;
    }
  }

  // ---------------------------------------------------------------- what clients see

  /** A run without its reads: what happened at the pipe. */
  function PipeTrace(events: seq<Event>): seq<Event> {
    if events == [] then []
    else PipeTrace(events[..|events| - 1]) + if events[|events| - 1].ReadCall? then [] else [events[|events| - 1]]
  }

  lemma {:induction false} EmittedFromPipe<T>(numify: Numify, deserialize: string -> Try<T>, events: seq<Event>)
    ensures Emitted(numify, deserialize, events) == Emitted(numify, deserialize, PipeTrace(events))
    decreases events
  {
    if events != [] {
      var before, last := events[..|events| - 1], events[|events| - 1];
      EmittedFromPipe(numify, deserialize, before);
      if !last.ReadCall? {
        assert PipeTrace(events)[..|PipeTrace(events)| - 1] == PipeTrace(before);
      } else {
        assert PipeTrace(events) == PipeTrace(before);
      }
    }
  }

  /** Two runs with as many reads and the same pipe events end alike, however the reads fell between them. */
  lemma InterleavingIrrelevant<T>(numify: Numify, deserialize: string -> Try<T>, a: seq<Event>, b: seq<Event>)
    requires Run(numify, deserialize, a).Some? && Run(numify, deserialize, b).Some?
    requires Reads(a) == Reads(b) && PipeTrace(a) == PipeTrace(b)
    ensures Run(numify, deserialize, a) == Run(numify, deserialize, b)
  {
    RunIsIdeal(numify, deserialize, a);
    RunIsIdeal(numify, deserialize, b);
    EmittedFromPipe(numify, deserialize, a);
    EmittedFromPipe(numify, deserialize, b);
  }

  /** An answered future is never answered again: later events keep it. */
  lemma {:induction false} AnsweredOnce<T>(numify: Numify, deserialize: string -> Try<T>, events: seq<Event>, e: Event, i: nat)
    requires Run(numify, deserialize, events + [e]).Some?
    ensures Run(numify, deserialize, events).Some?
    ensures
      var s := Run(numify, deserialize, events).value;
      var s' := Run(numify, deserialize, events + [e]).value;
      |s.futures| <= |s'.futures| && (i < |s.futures| && !s.futures[i].Pending? ==> s'.futures[i] == s.futures[i])
  {
    assert (events + [e])[..|events + [e]| - 1] == events;
    RunIsIdeal(numify, deserialize, events);
    RunIsIdeal(numify, deserialize, events + [e]);
  }

  /** The chunks a pipe trace carries. */
  function Chunks(chunks: seq<string>): seq<Event> {
    if chunks == [] then [] else Chunks(chunks[..|chunks| - 1]) + [PipeEnds(Data(chunks[|chunks| - 1]))]
  }

  lemma {:induction false} FlattenLast(chunks: seq<string>, last: string)
    ensures RecordIO.Flatten(chunks + [last]) == RecordIO.Flatten(chunks) + last
    decreases chunks
  {
    if chunks == [] {
      assert (chunks + [last])[1..] == [] && last + "" == last;
    } else {
      FlattenLast(chunks[1..], last);
      assert (chunks + [last])[1..] == chunks[1..] + [last];
    }
  }

  lemma DeserializedAppend<T>(deserialize: string -> Try<T>, a: seq<string>, b: seq<string>)
    ensures Deserialized(deserialize, a + b) == Deserialized(deserialize, a) + Deserialized(deserialize, b)
  {
  }

  /** Chunks without a bad header leave the stream open, with the records of the whole byte string. */
  lemma {:induction false} EmittedChunks<T>(numify: Numify, deserialize: string -> Try<T>, chunks: seq<string>)
    requires (forall j | 0 <= j < |chunks| :: chunks[j] != "")
    requires RecordIO.Feed(numify, RecordIO.INITIAL, RecordIO.Flatten(chunks)).state.phase != RecordIO.Failed
    ensures
      var fed := RecordIO.Feed(numify, RecordIO.INITIAL, RecordIO.Flatten(chunks));
      Emitted(numify, deserialize, Chunks(chunks)) == Source(fed.state, Deserialized(deserialize, fed.records), Open, false)
    decreases chunks
  {
    if chunks != [] {
      var before, last := chunks[..|chunks| - 1], chunks[|chunks| - 1];
      assert chunks == before + [last];
      FlattenLast(before, last);
      RecordIO.FeedAppend(numify, RecordIO.INITIAL, RecordIO.Flatten(before), last);
      var fed := RecordIO.Feed(numify, RecordIO.INITIAL, RecordIO.Flatten(before));
      if fed.state.phase == RecordIO.Failed {
        RecordIO.FeedFailed(numify, fed.state, last);
      }
      EmittedChunks(numify, deserialize, before);
      DeserializedAppend(deserialize, fed.records, RecordIO.Feed(numify, fed.state, last).records);
      ghost var trace := Chunks(chunks);
      assert trace[..|trace| - 1] == Chunks(before) && trace[|trace| - 1] == PipeEnds(Data(last));
      assert Emitted(numify, deserialize, trace) == Emit(numify, deserialize, Emitted(numify, deserialize, Chunks(before)), PipeEnds(Data(last)));
    }
  }

  /**
   End to end: when the pipe carries an encoding of `records`, cut anyhow, and then ends,
   the i-th read is answered with the i-th record and every further read with end-of-file.
   */
  lemma EncodedRecordsAreRead<T>(numify: Numify, deserialize: string -> Try<T>,
                                 records: seq<string>, chunks: seq<string>, events: seq<Event>, i: nat)
    requires RecordIO.InvertsDecimal(numify)
    requires forall r | r in records :: |r| < RecordIO.SIZE_LIMIT
    requires RecordIO.Flatten(chunks) == RecordIO.EncodeAll(records) && (forall j | 0 <= j < |chunks| :: chunks[j] != "")
    requires Run(numify, deserialize, events).Some?
    requires PipeTrace(events) == Chunks(chunks) + [PipeEnds(Data(""))]
    requires i < Reads(events)
    ensures
      var futures := Run(numify, deserialize, events).value.futures;
      && |futures| == Reads(events)
      && futures[i] == if i < |records| then Answered(deserialize(records[i])) else EndOfFile
  {
    var headers := RecordIO.EncodedIsFramed(numify, records);
    RecordIO.FeedFrames(numify, RecordIO.INITIAL, headers, records);
    EmittedChunks(numify, deserialize, chunks);
    EmittedFromPipe(numify, deserialize, events);
    RunIsIdeal(numify, deserialize, events);
    assert PipeTrace(events)[..|PipeTrace(events)| - 1] == Chunks(chunks);
  }
}
