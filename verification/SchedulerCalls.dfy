/** What the command-line scheduler knows and which calls it has sent, told from the events it received. */
module SchedulerCalls {
  import opened Wrappers
  import opened Scheduler

  // ---------------------------------------------------------------- what the events say

  /** The framework id of the last subscription. */
  function KnownOn(known: Option<Id>, event: MasterEvent): Option<Id> {
    if event.Subscribed? then Some(event.frameworkId) else known
  }

  function KnownIn(known: Option<Id>, queue: seq<MasterEvent>): Option<Id>
    decreases queue
  {
    if queue == [] then known else KnownIn(KnownOn(known, queue[0]), queue[1..])
  }

  function Known(events: seq<Event>): Option<Id> {
    if events == [] then None
    else
      var before, last := events[..|events| - 1], events[|events| - 1];
      if last.ReceivedCalled? then KnownIn(Known(before), last.events) else Known(before)
  }

  predicate Subscribes(queue: seq<MasterEvent>) {
    exists i | 0 <= i < |queue| :: queue[i].Subscribed?
  }

  /** The last thing that happened to the connection. */
  function Link(events: seq<Event>): Connection {
    if events == [] then Disconnected
    else
      var before, last := events[..|events| - 1], events[|events| - 1];
      match last
      case ConnectedCalled => Connected
      case DisconnectedCalled => Disconnected
      case ReceivedCalled(queue) => if Subscribes(queue) then Subscription else Link(before)
      case _ => Link(before)
  }

  /** The registration retries set and not yet fired. */
  function Retries(events: seq<Event>): int {
    if events == [] then 0
    else
      var before, last := events[..|events| - 1], events[|events| - 1];
      match last
      case ConnectedCalled => Retries(before) + 1
      case RetryFires => if Link(before) == Connected then Retries(before) else Retries(before) - 1
      case _ => Retries(before)
  }

  /** The tasks said to be running, each with its agent, in the order of the updates. */
  function RunningIn(queue: seq<MasterEvent>): seq<(Id, Id)> {
    if queue == [] then [] else RunningOf(queue[0]) + RunningIn(queue[1..])
  }

  function RunningOf(event: MasterEvent): seq<(Id, Id)> {
    if event.UpdateStatus? && event.status.running then [(event.status.task, event.status.agent)] else []
  }

  function AllRunning(events: seq<Event>): seq<(Id, Id)> {
    if events == [] then []
    else
      var before, last := events[..|events| - 1], events[|events| - 1];
      AllRunning(before) + RunningAt(last)
  }

  function RunningAt(e: Event): seq<(Id, Id)> {
    if e.ReceivedCalled? then RunningIn(e.events) else []
  }

  function Without<T>(s: seq<T>, i: nat): seq<T> {
    if i < |s| then s[..i] + s[i + 1..] else s
  }

  /** The kills that are due: one for each running task, if tasks are to be killed, until its time has come. */
  function Due(config: Config, events: seq<Event>): seq<(Id, Id)> {
    if events == [] then []
    else
      var before, last := events[..|events| - 1], events[|events| - 1];
      match last
      case ReceivedCalled(queue) => Due(config, before) + if config.killAfter then RunningIn(queue) else []
      case KillFires(which) => Without(Due(config, before), which)
      case _ => Due(config, before)
  }

  // ---------------------------------------------------------------- the calls they call for

  /** The first offer that fits is accepted; every other one is declined, and further offers suppressed. */
  function OfferCalls(id: Id, fitted: bool, offers: seq<Offer>): seq<Call>
    decreases offers
  {
    if offers == [] then []
    else
      (if !fitted && offers[0].fits then [Accept(id, offers[0].id)] else [Decline(id, offers[0].id), Suppress(id)]) +
      OfferCalls(id, fitted || offers[0].fits, offers[1..])
  }

  /** An update with a uuid is acknowledged. */
  function Acknowledgement(id: Id, event: MasterEvent): seq<Call> {
    if event.UpdateStatus? && event.status.uuid.Some? then
      [Acknowledge(id, event.status.task, event.status.agent, event.status.uuid.value)]
    else []
  }

  function CallsOn(known: Option<Id>, fitted: bool, event: MasterEvent): seq<Call> {
    if known.None? then []
    else (if event.Offers? then OfferCalls(known.value, fitted, event.offers) else []) + Acknowledgement(known.value, event)
  }

  function CallsIn(known: Option<Id>, fitted: bool, queue: seq<MasterEvent>): seq<Call>
    decreases queue
  {
    if queue == [] then []
    else
      CallsOn(known, fitted, queue[0]) +
      CallsIn(KnownOn(known, queue[0]), fitted || SomeFits(OffersOf(queue[0])), queue[1..])
  }

  function CallsAt(config: Config, before: seq<Event>, e: Event): seq<Call> {
    match e
    case ConnectedCalled => [Subscribe(Known(before))]
    case DisconnectedCalled => []
    case RetryFires => if Link(before) == Connected then [Subscribe(Known(before))] else []
    case KillFires(which) =>
      if which < |Due(config, before)| && Known(before).Some? then
        [Kill(Known(before).value, Due(config, before)[which].0, Due(config, before)[which].1)]
      else []
    case ReceivedCalled(queue) => CallsIn(Known(before), SomeFits(AllOffers(before)), queue)
  }

  function Calls(config: Config, events: seq<Event>): seq<Call> {
    if events == [] then []
    else
      var before, last := events[..|events| - 1], events[|events| - 1];
      Calls(config, before) + CallsAt(config, before, last)
  }

  // ---------------------------------------------------------------- and these are the calls sent

  lemma {:induction false} FitsJoined(a: seq<Offer>, b: seq<Offer>)
    ensures SomeFits(a + b) <==> SomeFits(a) || SomeFits(b)
  {
    if k :| 0 <= k < |a| && a[k].fits {
      assert (a + b)[k].fits;
    }
    if k :| 0 <= k < |b| && b[k].fits {
      assert (a + b)[|a| + k].fits;
    }
  }

  lemma {:induction false} OfferingAllSends(s: State, offers: seq<Offer>)
    requires s.frameworkId.Some? && !Stopped(s)
    ensures
      var s' := OfferingAll(s, offers);
      && s'.sent == s.sent + OfferCalls(s.frameworkId.value, s.launched, offers)
      && s'.launched == (s.launched || SomeFits(offers))
      && s' == s.(sent := s'.sent, launched := s'.launched, offered := s'.offered)
    decreases offers
  {
    if offers == [] {
      assert s.sent + [] == s.sent;
    } else {
      var s', id := Offering(s, offers[0]), s.frameworkId.value;
      OfferingAllSends(s', offers[1..]);
      Joined(s.sent, s'.sent[|s.sent|..], OfferCalls(id, s'.launched, offers[1..]));
      assert offers == [offers[0]] + offers[1..];
      FitsJoined([offers[0]], offers[1..]);
      assert SomeFits([offers[0]]) <==> [offers[0]][0].fits;
    }
  }

  lemma {:induction false} UpdatingSendsAcknowledgement(config: Config, s: State, status: TaskStatus)
    requires s.connection == Subscription && s.frameworkId.Some? && !Stopped(s)
    ensures
      var s' := Updating(config, s, status);
      && s'.sent == s.sent + Acknowledgement(s.frameworkId.value, UpdateStatus(status))
      && s'.kills == s.kills + (if config.killAfter then RunningOf(UpdateStatus(status)) else [])
      && s' == s.(sent := s'.sent, kills := s'.kills, terminatedTasks := s'.terminatedTasks, life := s'.life)
  {
    assert s.sent + [] == s.sent && s.kills + [] == s.kills;
  }

  /** What handling an event adds to the calls, the kills due and what is known. */
  predicate Handled(config: Config, s: State, event: MasterEvent, s': State) {
    && s'.sent == s.sent + CallsOn(s.frameworkId, s.launched, event)
    && s'.kills == s.kills + (if config.killAfter then RunningOf(event) else [])
    && s'.frameworkId == KnownOn(s.frameworkId, event)
    && s'.connection == (if event.Subscribed? then Subscription else s.connection)
    && s'.launched == (s.launched || SomeFits(OffersOf(event)))
    && s'.retries == s.retries
  }

  lemma {:induction false} HandlingSends(config: Config, s: State, event: MasterEvent)
    requires Registered(s) && !Stopped(s) && !Stopped(Handling(config, s, event))
    ensures Handled(config, s, event, Handling(config, s, event))
  {
    assert s.sent + [] == s.sent && s.kills + [] == s.kills;
    match event
    case Offers(offers) =>
      OfferingAllSends(s, offers);
      assert OfferCalls(s.frameworkId.value, s.launched, offers) + [] == OfferCalls(s.frameworkId.value, s.launched, offers);
    case UpdateStatus(status) =>
      UpdatingSendsAcknowledgement(config, s, status);
      assert [] + Acknowledgement(s.frameworkId.value, event) == Acknowledgement(s.frameworkId.value, event);
    case _ =>
  }

  lemma {:induction false} ReceivingSends(config: Config, s: State, queue: seq<MasterEvent>)
    requires Answered(s) && Registered(s) && !Stopped(s) && !Stopped(Receiving(config, s, queue))
    ensures
      var s' := Receiving(config, s, queue);
      && s'.sent == s.sent + CallsIn(s.frameworkId, s.launched, queue)
      && s'.kills == s.kills + (if config.killAfter then RunningIn(queue) else [])
      && s'.frameworkId == KnownIn(s.frameworkId, queue)
      && s'.connection == (if Subscribes(queue) then Subscription else s.connection)
      && s'.retries == s.retries
    decreases queue
  {
    if queue == [] {
      assert s.sent + [] == s.sent && s.kills + [] == s.kills;
    } else {
      var s', rest := Handling(config, s, queue[0]), queue[1..];
      HandlingIsGood(config, s, queue[0]);
      HandlingSends(config, s, queue[0]);
      ReceivingSends(config, s', rest);
      Joined(s.sent, CallsOn(s.frameworkId, s.launched, queue[0]), CallsIn(s'.frameworkId, s'.launched, rest));
      Joined(s.kills, RunningOf(queue[0]), RunningIn(rest));
      SubscribesFirst(queue);
      if !config.killAfter {
        assert s.kills + [] == s.kills;
      }
    }
  }

  lemma {:induction false} SubscribesFirst(queue: seq<MasterEvent>)
    requires queue != []
    ensures Subscribes(queue) <==> queue[0].Subscribed? || Subscribes(queue[1..])
  {
    if i :| 0 <= i < |queue[1..]| && queue[1..][i].Subscribed? {
      assert queue[i + 1].Subscribed?;
    }
    if i :| 0 <= i < |queue| && queue[i].Subscribed? {
      assert i > 0 ==> queue[1..][i - 1].Subscribed?;
    }
  }

  /** The state holds what the events say. */
  predicate Told(config: Config, events: seq<Event>, s: State) {
    && s.frameworkId == Known(events) && s.connection == Link(events)
    && s.retries == Retries(events) && s.kills == Due(config, events)
    && s.sent == Calls(config, events)
  }

  lemma {:induction false} StepIsTold(config: Config, before: seq<Event>, s: State, e: Event)
    requires Answered(s) && Registered(s) && Enabled(s, e) && !Stopped(Step(config, s, e))
    requires Told(config, before, s) && s.launched == SomeFits(AllOffers(before))
    ensures Told(config, before + [e], Step(config, s, e))
  {
    assert (before + [e])[..|before + [e]| - 1] == before;
    assert s.sent + [] == s.sent;
    match e
    case ReceivedCalled(queue) => ReceivingSends(config, s, queue);
    case _ =>
  }

  lemma {:induction false} LastStep(config: Config, events: seq<Event>) returns (s: State)
    requires events != [] && Run(config, events).Some? && !Stopped(Run(config, events).value)
    ensures
      var before, last := events[..|events| - 1], events[|events| - 1];
      && Run(config, before) == Some(s) && Enabled(s, last) && Run(config, events) == Some(Step(config, s, last))
      && Answered(s) && Registered(s) && !Stopped(s) && s.launched == SomeFits(AllOffers(before))
  {
    var before := events[..|events| - 1];
    s := Run(config, before).value;
    RunIsGood(config, before);
  }

  /**
   After any run that was not broken off, the scheduler knows the id of the last subscription and the state of the
   connection, has the retries and kills that are due, and has sent exactly the calls the events call for, in order.
   */
  lemma {:induction false} RunIsTold(config: Config, events: seq<Event>)
    requires Run(config, events).Some? && !Stopped(Run(config, events).value)
    ensures Told(config, events, Run(config, events).value)
    decreases events
  {
    if events != [] {
      var before, last := events[..|events| - 1], events[|events| - 1];
      var s := LastStep(config, events);
      RunIsTold(config, before);
      StepIsTold(config, before, s, last);
      assert before + [last] == events;
    }
  }

  // ---------------------------------------------------------------- how a run is broken off

  /** How the first event of the queue that ends the process ends it: an error, or an offer or update out of turn. */
  function Fatal(link: Connection, queue: seq<MasterEvent>): Option<Life>
    decreases queue
  {
    if queue == [] then None
    else
      match queue[0]
      case ErrorEvent => Some(Exited)
      case Subscribed(_) => Fatal(Subscription, queue[1..])
      case Ignored => Fatal(link, queue[1..])
      case _ => if link == Subscription then Fatal(link, queue[1..]) else Some(Aborted)
  }

  predicate EndsAs(life: Life, fatal: Option<Life>) {
    if fatal.Some? then life == fatal.value else life == Alive || life == Terminating
  }

  lemma {:induction false} HandlingEnds(config: Config, s: State, event: MasterEvent)
    requires Registered(s) && !Stopped(s)
    ensures EndsAs(Handling(config, s, event).life, Fatal(s.connection, [event]))
  {
    assert [event][1..] == [];
    if event.Offers? && s.connection == Subscription {
      OfferingAllSends(s, event.offers);
    }
  }

  lemma {:induction false} FatalFirst(link: Connection, queue: seq<MasterEvent>)
    requires queue != []
    ensures Fatal(link, queue) ==
      if Fatal(link, [queue[0]]).Some? then Fatal(link, [queue[0]])
      else Fatal(if queue[0].Subscribed? then Subscription else link, queue[1..])
  {
    assert [queue[0]][1..] == [];
  }

  lemma {:induction false} ReceivingEnds(config: Config, s: State, queue: seq<MasterEvent>)
    requires Answered(s) && Registered(s) && !Stopped(s)
    ensures EndsAs(Receiving(config, s, queue).life, Fatal(s.connection, queue))
    decreases queue
  {
    if queue != [] {
      var s' := Handling(config, s, queue[0]);
      HandlingIsGood(config, s, queue[0]);
      HandlingEnds(config, s, queue[0]);
      FatalFirst(s.connection, queue);
      if !Stopped(s') {
        HandlingSends(config, s, queue[0]);
        ReceivingEnds(config, s', queue[1..]);
      }
    }
  }

  lemma {:induction false} StepEnds(config: Config, s: State, e: Event)
    requires Answered(s) && Registered(s) && Enabled(s, e)
    ensures EndsAs(Step(config, s, e).life, if e.ReceivedCalled? then Fatal(s.connection, e.events) else None)
  {
    if e.ReceivedCalled? {
      ReceivingEnds(config, s, e.events);
    }
  }

  /** Exactly an error event ends the process, exactly an offer or an update without a subscription aborts it. */
  lemma {:induction false} StopsExactly(config: Config, events: seq<Event>, e: Event)
    requires Run(config, events + [e]).Some?
    ensures EndsAs(Run(config, events + [e]).value.life, if e.ReceivedCalled? then Fatal(Link(events), e.events) else None)
  {
    assert (events + [e])[..|events + [e]| - 1] == events;
    RunIsGood(config, events);
    RunIsTold(config, events);
    StepEnds(config, Run(config, events).value, e);
  }

  // ---------------------------------------------------------------- acknowledgements

  function Acknowledgements(calls: seq<Call>): seq<Call> {
    if calls == [] then []
    else Acknowledgements(calls[..|calls| - 1]) + if calls[|calls| - 1].Acknowledge? then [calls[|calls| - 1]] else []
  }

  /** One for each update with a uuid, with the id of the last subscription before it. */
  function AcknowledgementsIn(known: Option<Id>, queue: seq<MasterEvent>): seq<Call>
    decreases queue
  {
    if queue == [] then []
    else
      (if known.Some? then Acknowledgement(known.value, queue[0]) else []) +
      AcknowledgementsIn(KnownOn(known, queue[0]), queue[1..])
  }

  function AllAcknowledgements(events: seq<Event>): seq<Call> {
    if events == [] then []
    else
      var before, last := events[..|events| - 1], events[|events| - 1];
      AllAcknowledgements(before) + AcknowledgementsAt(before, last)
  }

  function AcknowledgementsAt(before: seq<Event>, e: Event): seq<Call> {
    if e.ReceivedCalled? then AcknowledgementsIn(Known(before), e.events) else []
  }

  lemma {:induction false} AcknowledgementsJoined(a: seq<Call>, b: seq<Call>)
    ensures Acknowledgements(a + b) == Acknowledgements(a) + Acknowledgements(b)
    decreases b
  {
    if b == [] {
      assert a + b == a && Acknowledgements(a) + [] == Acknowledgements(a);
    } else {
      assert (a + b)[..|a + b| - 1] == a + b[..|b| - 1];
      AcknowledgementsJoined(a, b[..|b| - 1]);
      Joined(Acknowledgements(a), Acknowledgements(b[..|b| - 1]), if b[|b| - 1].Acknowledge? then [b[|b| - 1]] else []);
    }
  }

  lemma {:induction false} NoneAmong(calls: seq<Call>)
    requires forall i | 0 <= i < |calls| :: !calls[i].Acknowledge?
    ensures Acknowledgements(calls) == []
    decreases calls
  {
    if calls != [] {
      NoneAmong(calls[..|calls| - 1]);
    }
  }

  lemma {:induction false} OfferCallsAcknowledgeNothing(id: Id, fitted: bool, offers: seq<Offer>)
    ensures Acknowledgements(OfferCalls(id, fitted, offers)) == []
    decreases offers
  {
    if offers != [] {
      var first := if !fitted && offers[0].fits then [Accept(id, offers[0].id)] else [Decline(id, offers[0].id), Suppress(id)];
      NoneAmong(first);
      OfferCallsAcknowledgeNothing(id, fitted || offers[0].fits, offers[1..]);
      AcknowledgementsJoined(first, OfferCalls(id, fitted || offers[0].fits, offers[1..]));
    }
  }

  lemma {:induction false} AcknowledgesOn(known: Option<Id>, fitted: bool, event: MasterEvent)
    ensures Acknowledgements(CallsOn(known, fitted, event)) == if known.Some? then Acknowledgement(known.value, event) else []
  {
    if known.Some? {
      var offers := if event.Offers? then OfferCalls(known.value, fitted, event.offers) else [];
      var own := Acknowledgement(known.value, event);
      OfferCallsAcknowledgeNothing(known.value, fitted, OffersOf(event));
      AcknowledgementsJoined(offers, own);
      assert own == [] || (own[..|own| - 1] == [] && Acknowledgements(own) == [] + own);
    }
  }

  lemma {:induction false} AcknowledgesIn(known: Option<Id>, fitted: bool, queue: seq<MasterEvent>)
    ensures Acknowledgements(CallsIn(known, fitted, queue)) == AcknowledgementsIn(known, queue)
    decreases queue
  {
    if queue != [] {
      var fitted' := fitted || SomeFits(OffersOf(queue[0]));
      AcknowledgesOn(known, fitted, queue[0]);
      AcknowledgesIn(KnownOn(known, queue[0]), fitted', queue[1..]);
      AcknowledgementsJoined(CallsOn(known, fitted, queue[0]), CallsIn(KnownOn(known, queue[0]), fitted', queue[1..]));
    }
  }

  lemma {:induction false} CallsAcknowledge(config: Config, events: seq<Event>)
    ensures Acknowledgements(Calls(config, events)) == AllAcknowledgements(events)
    decreases events
  {
    if events != [] {
      var before, last := events[..|events| - 1], events[|events| - 1];
      CallsAcknowledge(config, before);
      AcknowledgementsJoined(Calls(config, before), CallsAt(config, before, last));
      AcknowledgesAt(config, before, last);
    }
  }

  lemma {:induction false} AcknowledgesAt(config: Config, before: seq<Event>, e: Event)
    ensures Acknowledgements(CallsAt(config, before, e)) == AcknowledgementsAt(before, e)
  {
    if e.ReceivedCalled? {
      AcknowledgesIn(Known(before), SomeFits(AllOffers(before)), e.events);
    } else {
      NoneAmong(CallsAt(config, before, e));
    }
  }

  /** The acknowledgements sent are one for each received update with a uuid, in order, each with its own task, agent and uuid. */
  lemma {:induction false} UpdatesAreAcknowledged(config: Config, events: seq<Event>)
    requires Run(config, events).Some? && !Stopped(Run(config, events).value)
    ensures Acknowledgements(Run(config, events).value.sent) == AllAcknowledgements(events)
  {
    RunIsTold(config, events);
    CallsAcknowledge(config, events);
  }

  // ---------------------------------------------------------------- kills

  /** The tasks killed, each with the agent the call named. */
  function Killed(calls: seq<Call>): multiset<(Id, Id)> {
    if calls == [] then multiset{}
    else
      var last := calls[|calls| - 1];
      Killed(calls[..|calls| - 1]) + if last.Kill? then multiset{(last.task, last.agent)} else multiset{}
  }

  lemma {:induction false} KilledJoined(a: seq<Call>, b: seq<Call>)
    ensures Killed(a + b) == Killed(a) + Killed(b)
    decreases b
  {
    if b == [] {
      assert a + b == a;
    } else {
      assert (a + b)[..|a + b| - 1] == a + b[..|b| - 1];
      KilledJoined(a, b[..|b| - 1]);
    }
  }

  lemma {:induction false} NothingKilled(calls: seq<Call>)
    requires forall i | 0 <= i < |calls| :: !calls[i].Kill?
    ensures Killed(calls) == multiset{}
    decreases calls
  {
    if calls != [] {
      NothingKilled(calls[..|calls| - 1]);
    }
  }

  lemma {:induction false} OfferCallsKillNothing(id: Id, fitted: bool, offers: seq<Offer>, i: nat)
    requires i < |OfferCalls(id, fitted, offers)|
    ensures !OfferCalls(id, fitted, offers)[i].Kill?
    decreases offers
  {
    var n := if !fitted && offers[0].fits then 1 else 2;
    if i >= n {
      OfferCallsKillNothing(id, fitted || offers[0].fits, offers[1..], i - n);
    }
  }

  lemma {:induction false} QueueKillsNothing(known: Option<Id>, fitted: bool, queue: seq<MasterEvent>)
    ensures Killed(CallsIn(known, fitted, queue)) == multiset{}
    decreases queue
  {
    if queue != [] {
      var first, fitted' := CallsOn(known, fitted, queue[0]), fitted || SomeFits(OffersOf(queue[0]));
      forall i | 0 <= i < |first|
        ensures !first[i].Kill?
      {
        if queue[0].Offers? {
          OfferCallsKillNothing(known.value, fitted, queue[0].offers, i);
        }
      }
      NothingKilled(first);
      QueueKillsNothing(KnownOn(known, queue[0]), fitted', queue[1..]);
      KilledJoined(first, CallsIn(KnownOn(known, queue[0]), fitted', queue[1..]));
    }
  }

  lemma {:induction false} WithoutOne<T>(s: seq<T>, i: nat)
    requires i < |s|
    ensures multiset(Without(s, i)) + multiset{s[i]} == multiset(s)
  {
    assert s == s[..i] + ([s[i]] + s[i + 1..]);
  }

  lemma {:induction false} KillsAtEvent(config: Config, before: seq<Event>, e: Event)
    requires e.KillFires? ==> e.which < |Due(config, before)| && Known(before).Some?
    ensures Killed(CallsAt(config, before, e)) ==
              if e.KillFires? then multiset{Due(config, before)[e.which]} else multiset{}
  {
    var calls := CallsAt(config, before, e);
    if e.ReceivedCalled? {
      QueueKillsNothing(Known(before), SomeFits(AllOffers(before)), e.events);
    } else if e.KillFires? {
      assert calls[..|calls| - 1] == [];
    } else {
      NothingKilled(calls);
    }
  }

  lemma {:induction false} DueAtEvent(config: Config, before: seq<Event>, e: Event)
    requires e.KillFires? ==> e.which < |Due(config, before)|
    ensures multiset(Due(config, before + [e])) + (if e.KillFires? then multiset{Due(config, before)[e.which]} else multiset{})
         == multiset(Due(config, before)) + (if config.killAfter then multiset(RunningAt(e)) else multiset{})
  {
    assert (before + [e])[..|before + [e]| - 1] == before;
    if e.KillFires? {
      WithoutOne(Due(config, before), e.which);
    }
  }

  /** The kills called for and those due are together the running updates. */
  predicate Conserved(config: Config, events: seq<Event>) {
    Killed(Calls(config, events)) + multiset(Due(config, events)) ==
      if config.killAfter then multiset(AllRunning(events)) else multiset{}
  }

  lemma {:induction false} Balance<T>(killed: multiset<T>, now: multiset<T>, due: multiset<T>, due': multiset<T>,
                                      all: multiset<T>, more: multiset<T>)
    requires killed + due == all && due' + now == due + more
    ensures (killed + now) + due' == all + more
  {
    assert (killed + now) + due' == killed + (due' + now);
    assert killed + (due + more) == (killed + due) + more;
  }

  lemma {:induction false} ConservedAtLast(config: Config, events: seq<Event>)
    requires events != [] && Conserved(config, events[..|events| - 1])
    requires
      var before, last := events[..|events| - 1], events[|events| - 1];
      last.KillFires? ==> last.which < |Due(config, before)| && Known(before).Some?
    ensures Conserved(config, events)
  {
    var before, last := events[..|events| - 1], events[|events| - 1];
    var now := CallsAt(config, before, last);
    assert before + [last] == events;
    KilledJoined(Calls(config, before), now);
    KillsAtEvent(config, before, last);
    DueAtEvent(config, before, last);
    Balance(Killed(Calls(config, before)), Killed(now), multiset(Due(config, before)), multiset(Due(config, events)),
            if config.killAfter then multiset(AllRunning(before)) else multiset{},
            if config.killAfter then multiset(RunningAt(last)) else multiset{});
  }

  lemma {:induction false} LastKillIsDue(config: Config, events: seq<Event>)
    requires events != [] && Run(config, events).Some? && !Stopped(Run(config, events).value)
    ensures
      var before, last := events[..|events| - 1], events[|events| - 1];
      && Run(config, before).Some? && !Stopped(Run(config, before).value)
      && (last.KillFires? ==> last.which < |Due(config, before)| && Known(before).Some?)
  {
    var s := LastStep(config, events);
    RunIsTold(config, events[..|events| - 1]);
  }

  lemma {:induction false} KillsAreConserved(config: Config, events: seq<Event>)
    requires Run(config, events).Some? && !Stopped(Run(config, events).value)
    ensures Conserved(config, events)
    decreases events
  {
    if events != [] {
      LastKillIsDue(config, events);
      KillsAreConserved(config, events[..|events| - 1]);
      ConservedAtLast(config, events);
    }
  }

  /**
   With a kill delay, the kills sent and those due are together the running updates received, each with its own task
   and agent; without one there are none.
   */
  lemma {:induction false} RunningTasksAreKilled(config: Config, events: seq<Event>)
    requires Run(config, events).Some? && !Stopped(Run(config, events).value)
    ensures
      var s := Run(config, events).value;
      Killed(s.sent) + multiset(s.kills) == if config.killAfter then multiset(AllRunning(events)) else multiset{}
  {
    RunIsTold(config, events);
    KillsAreConserved(config, events);
  }
}
