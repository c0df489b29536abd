/** The command-line scheduler: subscribes until it succeeds, launches its task on the first offer that fits, and stops. */
module Scheduler {
  import opened Wrappers

  type Id = nat

  /** `fits`: what is offered, without reservations, contains what the task or task group needs. */
  datatype Offer = Offer(id: Id, agent: Id, fits: bool)

  datatype TaskStatus = TaskStatus(task: Id, agent: Id, uuid: Option<Id>, running: bool, terminal: bool)

  datatype MasterEvent =
    | Subscribed(frameworkId: Id)
    | Offers(offers: seq<Offer>)
    | UpdateStatus(status: TaskStatus)
    | ErrorEvent
    | Ignored

  datatype Call =
    | Subscribe(known: Option<Id>)
    | Kill(frameworkId: Id, task: Id, agent: Id)
    | Accept(frameworkId: Id, offer: Id)
    | Decline(frameworkId: Id, offer: Id)
    | Suppress(frameworkId: Id)
    | Acknowledge(frameworkId: Id, task: Id, agent: Id, uuid: Id)

  datatype Connection = Disconnected | Connected | Subscription

  /** How the process ends: `terminate` lets the handler that calls it finish, the other two do not. */
  datatype Life = Alive | Terminating | Exited | Aborted

  /** What to launch: one task, or a group of tasks. */
  datatype Work = Task(task: Id) | TaskGroup(tasks: set<Id>) {
    function Ids(): set<Id> {
      match this
      case Task(task) => {task}
      case TaskGroup(tasks) => tasks
    }
  }

  datatype Config = Config(work: Work, killAfter: bool)

  datatype State = State(
    connection: Connection,
    frameworkId: Option<Id>,
    launched: bool,
    terminatedTasks: nat,
    retries: nat,
    kills: seq<(Id, Id)>,
    sent: seq<Call>,
    life: Life,
    // History: the offers handled so far.
    offered: seq<Offer>)

  predicate Stopped(s: State) {
    s.life == Exited || s.life == Aborted
  }

  // ---------------------------------------------------------------- the handlers' effects

  function Registering(s: State): State {
    if s.connection != Connected then s
    else s.(sent := s.sent + [Subscribe(s.frameworkId)], retries := s.retries + 1)
  }

  /** A failed `CHECK` aborts the process. */
  function Killing(s: State, task: Id, agent: Id): State {
    if s.frameworkId.None? then s.(life := Aborted)
    else s.(sent := s.sent + [Kill(s.frameworkId.value, task, agent)])
  }

  function Offering(s: State, offer: Offer): State {
    if s.frameworkId.None? then s.(life := Aborted)
    else
      var id := s.frameworkId.value;
      var s := s.(offered := s.offered + [offer]);
      if !s.launched && offer.fits then s.(sent := s.sent + [Accept(id, offer.id)], launched := true)
      else s.(sent := s.sent + [Decline(id, offer.id), Suppress(id)])
  }

  function OfferingAll(s: State, offers: seq<Offer>): State
    decreases offers
  {
    if offers == [] || Stopped(s) then s else OfferingAll(Offering(s, offers[0]), offers[1..])
  }

  function Acknowledging(s: State, status: TaskStatus): State {
    if status.uuid.None? then s
    else if s.frameworkId.None? then s.(life := Aborted)
    else s.(sent := s.sent + [Acknowledge(s.frameworkId.value, status.task, status.agent, status.uuid.value)])
  }

  function Updating(config: Config, s: State, status: TaskStatus): State {
    if s.connection != Subscription then s.(life := Aborted)
    else
      var s := Acknowledging(s, status);
      if Stopped(s) then s
      else
        var s := if config.killAfter && status.running then s.(kills := s.kills + [(status.task, status.agent)]) else s;
        if !status.terminal then s
        else if config.work.Task? then s.(life := Terminating)
        else
          var s := s.(terminatedTasks := s.terminatedTasks + 1);
          if s.terminatedTasks == |config.work.tasks| then s.(life := Terminating) else s
  }

  function Handling(config: Config, s: State, event: MasterEvent): State {
    match event
    case Subscribed(id) => s.(frameworkId := Some(id), connection := Subscription)
    case Offers(offers) => if s.connection != Subscription then s.(life := Aborted) else OfferingAll(s, offers)
    case UpdateStatus(status) => Updating(config, s, status)
    case ErrorEvent => s.(life := Exited)
    case Ignored => s
  }

  function Receiving(config: Config, s: State, events: seq<MasterEvent>): State
    decreases events
  {
    if events == [] || Stopped(s) then s else Receiving(config, Handling(config, s, events[0]), events[1..])
  }

  // ---------------------------------------------------------------- the scheduler

  class CommandScheduler {
    const config: Config
    var connection: Connection
    var frameworkId: Option<Id>
    var launched: bool
    var terminatedTasks: nat
    var retries: nat
    var kills: seq<(Id, Id)>
    var sent: seq<Call>
    var life: Life
    ghost var offered: seq<Offer>

    ghost function View(): State
      reads this
    {
      State(connection, frameworkId, launched, terminatedTasks, retries, kills, sent, life, offered)
    }

    constructor (config: Config)
      ensures this.config == config && View() == INITIAL
    {
      this.config := config;
      connection, frameworkId, launched, terminatedTasks := Disconnected, None, false, 0;
      retries, kills, sent, life, offered := 0, [], [], Alive, [];
    }

    method OnConnected()
      modifies this
      ensures View() == Registering(old(View()).(connection := Connected))
    {
      connection := Connected;
      DoReliableRegistration();
    }

    method OnDisconnected()
      modifies this
      ensures View() == old(View()).(connection := Disconnected)
    {
      connection := Disconnected;
    }

    method DoReliableRegistration()
      modifies this
      ensures View() == Registering(old(View()))
    {
      if connection == Subscription || connection == Disconnected {
        return;
      }
      sent := sent + [Subscribe(frameworkId)];
      retries := retries + 1;
    }

    method KillTask(task: Id, agent: Id)
      modifies this
      ensures View() == Killing(old(View()), task, agent)
    {
      if frameworkId.None? {
        life := Aborted;
        return;
      }
      sent := sent + [Kill(frameworkId.value, task, agent)];
    }

    method OnOffers(offers: seq<Offer>)
      requires !Stopped(View())
      modifies this
      ensures View() == if old(connection) != Subscription then old(View()).(life := Aborted)
                        else OfferingAll(old(View()), offers)
    {
      if connection != Subscription {
        life := Aborted;
        return;
      }
      for i := 0 to |offers|
        invariant !Stopped(View())
        invariant OfferingAll(View(), offers[i..]) == OfferingAll(old(View()), offers)
      {
        var offer := offers[i];
        assert offers[i..][0] == offer && offers[i..][1..] == offers[i + 1..];
        if frameworkId.None? {
          life := Aborted;
          return;
        }
        offered := offered + [offer];
        if !launched && offer.fits {
          sent := sent + [Accept(frameworkId.value, offer.id)];
          launched := true;
        } else {
          sent := sent + [Decline(frameworkId.value, offer.id), Suppress(frameworkId.value)];
        }
      }
    }

    method Update(status: TaskStatus)
      requires !Stopped(View())
      modifies this
      ensures View() == Updating(config, old(View()), status)
    {
      if connection != Subscription {
        life := Aborted;
        return;
      }
      if status.uuid.Some? {
        if frameworkId.None? {
          life := Aborted;
          return;
        }
        sent := sent + [Acknowledge(frameworkId.value, status.task, status.agent, status.uuid.value)];
      }
      if config.killAfter && status.running {
        kills := kills + [(status.task, status.agent)];
      }
      if status.terminal {
        if config.work.Task? {
          life := Terminating;
        } else {
          terminatedTasks := terminatedTasks + 1;
          if terminatedTasks == |config.work.tasks| {
            life := Terminating;
          }
        }
      }
    }

    method Received(queue: seq<MasterEvent>)
      requires !Stopped(View())
      modifies this
      ensures View() == Receiving(config, old(View()), queue)
    {
      var events := queue;
      while events != [] && life != Exited && life != Aborted
        invariant Receiving(config, View(), events) == Receiving(config, old(View()), queue)
        decreases events
      {
        var event := events[0];
        events := events[1..];
        match event
        case Subscribed(id) =>
          frameworkId := Some(id);
          connection := Subscription;
        case Offers(offers) =>
          OnOffers(offers);
        case UpdateStatus(status) =>
          Update(status);
        case ErrorEvent =>
          life := Exited;
        case Ignored =>
      }
    }
  }

  // ---------------------------------------------------------------- runs

  const INITIAL: State := State(Disconnected, None, false, 0, 0, [], [], Alive, [])

  datatype Event =
    | ConnectedCalled | DisconnectedCalled
    | RetryFires | KillFires(which: nat)
    | ReceivedCalled(events: seq<MasterEvent>)

  predicate Enabled(s: State, e: Event) {
    s.life == Alive && match e
      case RetryFires => s.retries > 0
      case KillFires(which) => which < |s.kills|
      case _ => true
  }

  function Step(config: Config, s: State, e: Event): State
    requires Enabled(s, e)
  {
    match e
    case ConnectedCalled => Registering(s.(connection := Connected))
    case DisconnectedCalled => s.(connection := Disconnected)
    case RetryFires => Registering(s.(retries := s.retries - 1))
    case KillFires(which) =>
      var (task, agent) := s.kills[which];
      Killing(s.(kills := s.kills[..which] + s.kills[which + 1..]), task, agent)
    case ReceivedCalled(events) => Receiving(config, s, events)
  }

  function Run(config: Config, events: seq<Event>): Option<State> {
    if events == [] then Some(INITIAL)
    else
      var last := events[|events| - 1];
      match Run(config, events[..|events| - 1])
      case None => None
      case Some(s) => if Enabled(s, last) then Some(Step(config, s, last)) else None
  }

  // ---------------------------------------------------------------- every offer is answered once, at most one accepted

  /** The accepted and declined offers among the calls, in order. */
  function Answers(sent: seq<Call>): seq<(Id, bool)> {
    if sent == [] then []
    else
      Answers(sent[..|sent| - 1]) +
      match sent[|sent| - 1]
      case Accept(_, offer) => [(offer, true)]
      case Decline(_, offer) => [(offer, false)]
      case _ => []
  }

  lemma {:induction false} AnswersAppend(sent: seq<Call>, call: Call)
    ensures Answers(sent + [call]) == Answers(sent) +
      match call
      case Accept(_, offer) => [(offer, true)]
      case Decline(_, offer) => [(offer, false)]
      case _ => []
  {
    assert (sent + [call])[..|sent|] == sent;
  }

  /** What should happen to the offers: the first one that fits is accepted, every other one declined. */
  function Decisions(offers: seq<Offer>): seq<(Id, bool)> {
    seq(|offers|, k requires 0 <= k < |offers| => (offers[k].id, IsFirstFit(offers, k)))
  }

  predicate IsFirstFit(offers: seq<Offer>, k: nat)
    requires k < |offers|
  {
    offers[k].fits && forall j | 0 <= j < k :: !offers[j].fits
  }

  predicate SomeFits(offers: seq<Offer>) {
    exists k | 0 <= k < |offers| :: offers[k].fits
  }

  /** The offers handled are answered as they should be. */
  ghost predicate Answered(s: State) {
    AnsweredBy(s.sent, s.offered, s.launched)
  }

  ghost predicate AnsweredBy(sent: seq<Call>, offered: seq<Offer>, launched: bool) {
    Answers(sent) == Decisions(offered) && (launched <==> SomeFits(offered))
  }

  /** A framework id is there when it is needed, and a registration on its way while there is none. */
  predicate Registered(s: State) {
    && (s.connection == Subscription ==> s.frameworkId.Some?)
    && (s.kills != [] ==> s.frameworkId.Some?)
    && (s.connection == Connected ==> s.retries > 0)
  }

  lemma {:induction false} DecisionsAppend(offers: seq<Offer>, offer: Offer)
    ensures Decisions(offers + [offer]) == Decisions(offers) + [(offer.id, offer.fits && !SomeFits(offers))]
    ensures SomeFits(offers + [offer]) <==> SomeFits(offers) || offer.fits
  {
    var all, n := offers + [offer], |offers|;
    assert all[n] == offer && forall k | 0 <= k < n :: all[k] == offers[k];
    forall k | 0 <= k < n
      ensures IsFirstFit(all, k) == IsFirstFit(offers, k)
    {
    }
    assert IsFirstFit(all, n) <==> offer.fits && !SomeFits(offers);
  }

  lemma {:induction false} OfferingAnswers(s: State, offer: Offer)
    requires s.frameworkId.Some?
    ensures Answers(Offering(s, offer).sent) == Answers(s.sent) + [(offer.id, offer.fits && !s.launched)]
  {
    var id := s.frameworkId.value;
    if !s.launched && offer.fits {
      AnswersAppend(s.sent, Accept(id, offer.id));
    } else {
      AnswersAppend(s.sent, Decline(id, offer.id));
      AnswersAppend(s.sent + [Decline(id, offer.id)], Suppress(id));
      assert s.sent + [Decline(id, offer.id), Suppress(id)] == s.sent + [Decline(id, offer.id)] + [Suppress(id)];
    }
  }

  lemma {:induction false} OfferingAllAnswers(s: State, offers: seq<Offer>)
    requires Answered(s) && s.frameworkId.Some? && !Stopped(s)
    ensures
      var s' := OfferingAll(s, offers);
      && Answered(s') && s'.offered == s.offered + offers
      && s' == s.(sent := s'.sent, launched := s'.launched, offered := s'.offered)
    decreases offers
  {
    if offers == [] {
      assert s.offered + offers == s.offered;
    } else {
      DecisionsAppend(s.offered, offers[0]);
      OfferingAnswers(s, offers[0]);
      OfferingAllAnswers(Offering(s, offers[0]), offers[1..]);
      assert s.offered + [offers[0]] + offers[1..] == s.offered + offers;
    }
  }

  lemma {:induction false} UpdatingAnswers(config: Config, s: State, status: TaskStatus)
    requires Answered(s)
    ensures Answered(Updating(config, s, status)) && Updating(config, s, status).offered == s.offered
  {
    UpdatingSends(config, s, status);
    if s.frameworkId.Some? && status.uuid.Some? {
      OtherCall(s.sent, s.offered, s.launched,
                Acknowledge(s.frameworkId.value, status.task, status.agent, status.uuid.value));
    }
  }

  lemma {:induction false} UpdatingSends(config: Config, s: State, status: TaskStatus)
    ensures
      var s' := Updating(config, s, status);
      && s'.offered == s.offered && s'.launched == s.launched
      && (s'.sent == s.sent ||
          (s.frameworkId.Some? && status.uuid.Some? &&
           s'.sent == s.sent + [Acknowledge(s.frameworkId.value, status.task, status.agent, status.uuid.value)]))
  {
  }

  lemma {:induction false} OtherCall(sent: seq<Call>, offered: seq<Offer>, launched: bool, call: Call)
    requires AnsweredBy(sent, offered, launched) && !call.Accept? && !call.Decline?
    ensures AnsweredBy(sent + [call], offered, launched)
  {
    AnswersAppend(sent, call);
  }

  lemma {:induction false} UpdatingRegisters(config: Config, s: State, status: TaskStatus)
    requires Registered(s) && !Stopped(s)
    ensures Registered(Updating(config, s, status))
    ensures Updating(config, s, status).life == Aborted <==> s.connection != Subscription
    ensures Updating(config, s, status).life != Exited
  {
  }

  /** An offer or an update that arrives without a subscription. */
  predicate Unsubscribed(s: State, event: MasterEvent) {
    (event.Offers? || event.UpdateStatus?) && s.connection != Subscription
  }

  /** The only failing `CHECK` is the one on the subscription: a framework id is always there when it is needed. */
  lemma {:induction false} HandlingIsGood(config: Config, s: State, event: MasterEvent)
    requires Answered(s) && Registered(s) && !Stopped(s)
    ensures
      var s' := Handling(config, s, event);
      && Answered(s') && Registered(s')
      && (s'.life == Aborted <==> Unsubscribed(s, event))
      && (!Stopped(s') ==> s'.offered == s.offered + OffersOf(event))
  {
    match event
    case Offers(offers) =>
      if s.connection == Subscription {
        OfferingAllAnswers(s, offers);
      }
    case UpdateStatus(status) =>
      UpdatingAnswers(config, s, status);
      UpdatingRegisters(config, s, status);
      assert s.offered + [] == s.offered;
    case _ => assert s.offered + [] == s.offered;
  }

  /** No event of the queue comes without a subscription when its turn comes. */
  predicate AllSubscribed(config: Config, s: State, events: seq<MasterEvent>)
    decreases events
  {
    events == [] || Stopped(s) ||
    (!Unsubscribed(s, events[0]) && AllSubscribed(config, Handling(config, s, events[0]), events[1..]))
  }

  function OffersOf(event: MasterEvent): seq<Offer> {
    if event.Offers? then event.offers else []
  }

  function OffersIn(events: seq<MasterEvent>): seq<Offer> {
    if events == [] then [] else OffersOf(events[0]) + OffersIn(events[1..])
  }

  lemma {:induction false} OffersInTurn(offered: seq<Offer>, events: seq<MasterEvent>)
    requires events != []
    ensures offered + OffersOf(events[0]) + OffersIn(events[1..]) == offered + OffersIn(events)
  {
    Joined(offered, OffersOf(events[0]), OffersIn(events[1..]));
  }

  lemma {:induction false} Joined<T>(a: seq<T>, b: seq<T>, c: seq<T>)
    ensures (a + b) + c == a + (b + c)
  {
  }

  lemma {:induction false} ReceivingIsGood(config: Config, s: State, events: seq<MasterEvent>)
    requires Answered(s) && Registered(s) && !Stopped(s)
    ensures
      var s' := Receiving(config, s, events);
      && Answered(s') && Registered(s')
      && (s'.life == Aborted <==> !AllSubscribed(config, s, events))
      && (!Stopped(s') ==> s'.offered == s.offered + OffersIn(events))
    decreases events
  {
    if events == [] {
      assert s.offered + [] == s.offered;
    } else {
      var s' := Handling(config, s, events[0]);
      HandlingIsGood(config, s, events[0]);
      if !Stopped(s') {
        ReceivingIsGood(config, s', events[1..]);
        OffersInTurn(s.offered, events);
      }
    }
  }

  lemma {:induction false} RegisteringIsGood(s: State)
    requires Answered(s)
    ensures Answered(Registering(s)) && Registering(s).offered == s.offered
  {
    OtherCall(s.sent, s.offered, s.launched, Subscribe(s.frameworkId));
  }

  lemma {:induction false} KillingIsGood(s: State, task: Id, agent: Id)
    requires Answered(s) && s.frameworkId.Some?
    ensures Answered(Killing(s, task, agent)) && Killing(s, task, agent).offered == s.offered
  {
    OtherCall(s.sent, s.offered, s.launched, Kill(s.frameworkId.value, task, agent));
  }

  function OffersAt(e: Event): seq<Offer> {
    if e.ReceivedCalled? then OffersIn(e.events) else []
  }

  lemma {:induction false} StepIsGood(config: Config, s: State, e: Event)
    requires Answered(s) && Registered(s) && Enabled(s, e)
    ensures
      var s' := Step(config, s, e);
      && Answered(s') && Registered(s')
      && (s'.life == Aborted <==> e.ReceivedCalled? && !AllSubscribed(config, s, e.events))
      && (!Stopped(s') ==> s'.offered == s.offered + OffersAt(e))
  {
    assert s.offered + [] == s.offered;
    match e
    case ReceivedCalled(events) => ReceivingIsGood(config, s, events);
    case KillFires(which) =>
      var rest := s.(kills := s.kills[..which] + s.kills[which + 1..]);
      KillingIsGood(rest, s.kills[which].0, s.kills[which].1);
    case ConnectedCalled => RegisteringIsGood(s.(connection := Connected));
    case RetryFires => RegisteringIsGood(s.(retries := s.retries - 1));
    case DisconnectedCalled =>
  }

  function AllOffers(events: seq<Event>): seq<Offer> {
    if events == [] then [] else AllOffers(events[..|events| - 1]) + OffersAt(events[|events| - 1])
  }

  lemma {:induction false} RunIsGood(config: Config, events: seq<Event>)
    requires Run(config, events).Some?
    ensures
      var s := Run(config, events).value;
      Answered(s) && Registered(s) && (!Stopped(s) ==> s.offered == AllOffers(events))
    decreases events
  {
    if events != [] {
      var before := events[..|events| - 1];
      RunIsGood(config, before);
      StepIsGood(config, Run(config, before).value, events[|events| - 1]);
    }
  }

  /** The received offers are answered once each, in order: the first that fits is accepted, all others declined. */
  lemma {:induction false} OffersAnsweredInOrder(config: Config, events: seq<Event>)
    requires Run(config, events).Some? && !Stopped(Run(config, events).value)
    ensures Answers(Run(config, events).value.sent) == Decisions(AllOffers(events))
  {
    RunIsGood(config, events);
  }

  /** At most one ACCEPT is ever sent, in any run. */
  lemma {:induction false} AtMostOneAccept(config: Config, events: seq<Event>, i: nat, j: nat)
    requires Run(config, events).Some?
    ensures
      var answers := Answers(Run(config, events).value.sent);
      i < j < |answers| ==> !(answers[i].1 && answers[j].1)
  {
    RunIsGood(config, events);
  }

  /** A run aborts exactly when an offer or an update is handled without a subscription; no other `CHECK` can fail. */
  lemma {:induction false} AbortsExactlyWhenUnsubscribed(config: Config, events: seq<Event>, e: Event)
    requires Run(config, events + [e]).Some?
    ensures Run(config, events).Some?
    ensures Run(config, events + [e]).value.life == Aborted <==>
              e.ReceivedCalled? && !AllSubscribed(config, Run(config, events).value, e.events)
  {
    assert (events + [e])[..|events + [e]| - 1] == events;
    RunIsGood(config, events);
    StepIsGood(config, Run(config, events).value, e);
  }

  /** While connected and not subscribed, a registration retry is always pending. */
  lemma {:induction false} RegistrationIsRetried(config: Config, events: seq<Event>)
    requires Run(config, events).Some?
    ensures
      var s := Run(config, events).value;
      && (s.connection == Connected ==> s.retries > 0)
      && (s.connection == Subscription || s.kills != [] ==> s.frameworkId.Some?)
  {
    RunIsGood(config, events);
  }

  // ---------------------------------------------------------------- when the scheduler terminates

  /** The tasks that terminal updates are about, in the order of the updates. */
  function EndedIn(queue: seq<MasterEvent>): seq<Id> {
    if queue == [] then [] else EndedOf(queue[0]) + EndedIn(queue[1..])
  }

  function EndedOf(event: MasterEvent): seq<Id> {
    if event.UpdateStatus? && event.status.terminal then [event.status.task] else []
  }

  function EndedAt(e: Event): seq<Id> {
    if e.ReceivedCalled? then EndedIn(e.events) else []
  }

  function Ended(events: seq<Event>): seq<Id> {
    if events == [] then [] else Ended(events[..|events| - 1]) + EndedAt(events[|events| - 1])
  }

  /** As many terminal updates as tasks have been handled. */
  predicate Enough(work: Work, n: nat) {
    0 < |work.Ids()| <= n
  }

  predicate Counted(config: Config, s: State, n: nat) {
    && (config.work.TaskGroup? ==> s.terminatedTasks == n)
    && (s.life == Terminating <==> Enough(config.work, n))
  }

  lemma {:induction false} UpdatingCounts(config: Config, s: State, status: TaskStatus, n: nat)
    requires Registered(s) && Counted(config, s, n) && !Stopped(s) && s.connection == Subscription
    ensures Counted(config, Updating(config, s, status), n + |EndedOf(UpdateStatus(status))|)
  {
  }

  lemma {:induction false} OfferingAllCounts(config: Config, s: State, offers: seq<Offer>, n: nat)
    requires Counted(config, s, n) && s.frameworkId.Some? && !Stopped(s)
    ensures Counted(config, OfferingAll(s, offers), n)
    decreases offers
  {
    if offers != [] {
      OfferingAllCounts(config, Offering(s, offers[0]), offers[1..], n);
    }
  }

  lemma {:induction false} HandlingCounts(config: Config, s: State, event: MasterEvent, n: nat)
    requires Registered(s) && Counted(config, s, n) && !Stopped(s)
    ensures
      var s' := Handling(config, s, event);
      !Stopped(s') ==> Counted(config, s', n + |EndedOf(event)|)
  {
    match event
    case Offers(offers) =>
      if s.connection == Subscription {
        OfferingAllCounts(config, s, offers, n);
      }
    case UpdateStatus(status) =>
      if s.connection == Subscription {
        UpdatingCounts(config, s, status, n);
      }
    case _ =>
  }

  lemma {:induction false} ReceivingCounts(config: Config, s: State, queue: seq<MasterEvent>, n: nat)
    requires Answered(s) && Registered(s) && Counted(config, s, n) && !Stopped(s)
    ensures
      var s' := Receiving(config, s, queue);
      !Stopped(s') ==> Counted(config, s', n + |EndedIn(queue)|)
    decreases queue
  {
    if queue != [] {
      HandlingIsGood(config, s, queue[0]);
      HandlingCounts(config, s, queue[0], n);
      var s' := Handling(config, s, queue[0]);
      if !Stopped(s') {
        ReceivingCounts(config, s', queue[1..], n + |EndedOf(queue[0])|);
      }
    }
  }

  lemma {:induction false} StepCounts(config: Config, s: State, e: Event, n: nat)
    requires Answered(s) && Registered(s) && Counted(config, s, n) && Enabled(s, e) && !Stopped(Step(config, s, e))
    ensures Counted(config, Step(config, s, e), n + |EndedAt(e)|)
  {
    if e.ReceivedCalled? {
      ReceivingCounts(config, s, e.events, n);
    }
  }

  lemma {:induction false} RunCounts(config: Config, events: seq<Event>)
    requires Run(config, events).Some? && !Stopped(Run(config, events).value)
    ensures Counted(config, Run(config, events).value, |Ended(events)|)
    decreases events
  {
    if events != [] {
      var before, last := events[..|events| - 1], events[|events| - 1];
      RunCounts(config, before);
      RunIsGood(config, before);
      StepCounts(config, Run(config, before).value, last, |Ended(before)|);
    }
  }

  /** The scheduler terminates exactly when it has been told of as many ends of tasks as it has tasks, and it has some. */
  lemma {:induction false} TerminatesExactlyWhenDone(config: Config, events: seq<Event>)
    requires Run(config, events).Some? && !Stopped(Run(config, events).value)
    ensures Run(config, events).value.life == Terminating <==> Enough(config.work, |Ended(events)|)
  {
    RunCounts(config, events);
  }

  function ToSet(ids: seq<Id>): set<Id> {
    set id | id in ids
  }

  predicate Distinct(ids: seq<Id>) {
    forall i, j | 0 <= i < j < |ids| :: ids[i] != ids[j]
  }

  lemma {:induction false} DistinctBySize(ids: seq<Id>)
    ensures |ToSet(ids)| <= |ids|
    ensures |ToSet(ids)| == |ids| <==> Distinct(ids)
    decreases ids
  {
    if ids != [] {
      var before, last := ids[..|ids| - 1], ids[|ids| - 1];
      DistinctBySize(before);
      assert ToSet(ids) == ToSet(before) + {last};
      assert ids == before + [last];
    }
  }

  lemma {:induction false} Subset(a: set<Id>, b: set<Id>)
    requires a <= b
    ensures |a| <= |b| && (|a| == |b| ==> a == b)
  {
    assert b == a + (b - a);
  }

  /** As many updates as tasks cover the tasks exactly if they are about distinct ones of them. */
  lemma {:induction false} CoversExactly(tasks: set<Id>, ended: seq<Id>)
    requires |ended| == |tasks|
    ensures tasks <= ToSet(ended) <==> Distinct(ended) && ToSet(ended) <= tasks
  {
    DistinctBySize(ended);
    if tasks <= ToSet(ended) {
      Subset(tasks, ToSet(ended));
    }
    if Distinct(ended) && ToSet(ended) <= tasks {
      Subset(ToSet(ended), tasks);
    }
  }

  lemma {:induction false} TooFew(tasks: set<Id>, ended: seq<Id>)
    requires |ended| < |tasks|
    ensures !(tasks <= ToSet(ended))
  {
    DistinctBySize(ended);
    if tasks <= ToSet(ended) {
      Subset(tasks, ToSet(ended));
    }
  }

  /** After each terminal update, there have been enough of them if and only if all tasks have ended. */
  ghost predicate InTime(work: Work, ended: seq<Id>) {
    forall k | 0 <= k <= |ended| :: Enough(work, k) <==> work.Ids() <= ToSet(ended[..k])
  }

  /** There are tasks, and the first terminal updates, as many as there are tasks, are about distinct ones of them. */
  predicate OncePerTask(work: Work, ended: seq<Id>) {
    var n := |work.Ids()|;
    n > 0 && (n <= |ended| ==> Distinct(ended[..n]) && ToSet(ended[..n]) <= work.Ids())
  }

  lemma {:induction false} InTimeExactly(work: Work, ended: seq<Id>)
    ensures InTime(work, ended) <==> OncePerTask(work, ended)
  {
    var tasks := work.Ids();
    var n := |tasks|;
    if n == 0 {
      assert tasks <= ToSet(ended[..0]) && !Enough(work, 0);
    } else {
      forall k | 0 <= k <= |ended| && k < n
        ensures !Enough(work, k) && !(tasks <= ToSet(ended[..k]))
      {
        TooFew(tasks, ended[..k]);
      }
      if n <= |ended| {
        CoversExactly(tasks, ended[..n]);
        assert Enough(work, n);
        forall k | n <= k <= |ended|
          ensures ToSet(ended[..n]) <= ToSet(ended[..k])
        {
          assert ended[..n] == ended[..k][..n];
        }
      }
    }
  }

  /** A run broken off while its `i`-th event, a queue, is handled: after the queue's first `j` events. */
  function Moment(events: seq<Event>, i: nat, j: nat): seq<Event>
    requires IsMoment(events, i, j)
  {
    events[..i] + [ReceivedCalled(events[i].events[..j])]
  }

  predicate IsMoment(events: seq<Event>, i: nat, j: nat) {
    i < |events| && events[i].ReceivedCalled? && j <= |events[i].events|
  }

  lemma {:induction false} RunPrefix(config: Config, events: seq<Event>, i: nat)
    requires Run(config, events).Some? && i < |events|
    ensures Run(config, events[..i]).Some? && Enabled(Run(config, events[..i]).value, events[i])
    decreases events
  {
    var before := events[..|events| - 1];
    if i < |before| {
      RunPrefix(config, before, i);
      assert before[..i] == events[..i] && before[i] == events[i];
    }
  }

  lemma {:induction false} ReceivingGoesOn(config: Config, s: State, queue: seq<MasterEvent>, j: nat)
    requires j <= |queue| && !Stopped(Receiving(config, s, queue))
    ensures !Stopped(Receiving(config, s, queue[..j]))
    decreases queue
  {
    if j > 0 {
      assert queue[..j][0] == queue[0] && queue[..j][1..] == queue[1..][..j - 1];
      ReceivingGoesOn(config, Handling(config, s, queue[0]), queue[1..], j - 1);
    } else {
      assert queue[..j] == [];
    }
  }

  lemma {:induction false} MomentIsARun(config: Config, events: seq<Event>, i: nat, j: nat)
    requires Run(config, events).Some? && !Stopped(Run(config, events).value) && IsMoment(events, i, j)
    ensures Run(config, Moment(events, i, j)).Some? && !Stopped(Run(config, Moment(events, i, j)).value)
  {
    RunPrefix(config, events, i);
    var s := Run(config, events[..i]).value;
    var m := Moment(events, i, j);
    assert m[..|m| - 1] == events[..i];
    if i + 1 < |events| {
      RunPrefix(config, events, i + 1);
      assert events[..i + 1][..i] == events[..i];
    } else {
      assert events[..|events| - 1] == events[..i];
    }
    ReceivingGoesOn(config, s, events[i].events, j);
  }

  lemma {:induction false} EndedInPrefix(queue: seq<MasterEvent>, j: nat)
    requires j <= |queue|
    ensures EndedIn(queue[..j]) <= EndedIn(queue)
    decreases queue
  {
    if j > 0 {
      assert queue[..j][0] == queue[0] && queue[..j][1..] == queue[1..][..j - 1];
      EndedInPrefix(queue[1..], j - 1);
    }
  }

  lemma {:induction false} EndedPrefix(events: seq<Event>, i: nat)
    requires i <= |events|
    ensures Ended(events[..i]) <= Ended(events)
    decreases events
  {
    if i < |events| {
      var before := events[..|events| - 1];
      EndedPrefix(before, i);
      assert before[..i] == events[..i];
    } else {
      assert events[..i] == events;
    }
  }

  lemma {:induction false} MomentEnded(events: seq<Event>, i: nat, j: nat)
    requires IsMoment(events, i, j)
    ensures Ended(Moment(events, i, j)) == Ended(events[..i]) + EndedIn(events[i].events[..j]) <= Ended(events)
  {
    var m := Moment(events, i, j);
    assert m[..|m| - 1] == events[..i];
    EndedInPrefix(events[i].events, j);
    EndedPrefix(events, i + 1);
    assert events[..i + 1][..i] == events[..i];
    assert Ended(events[..i + 1]) == Ended(events[..i]) + EndedIn(events[i].events);
  }

  lemma {:induction false} QueueMoment(queue: seq<MasterEvent>, k: nat) returns (j: nat)
    requires k <= |EndedIn(queue)|
    ensures j <= |queue| && EndedIn(queue[..j]) == EndedIn(queue)[..k]
    decreases queue
  {
    if k == 0 {
      j := 0;
    } else {
      var n := |EndedOf(queue[0])|;
      var j' := QueueMoment(queue[1..], k - n);
      j := j' + 1;
      assert queue[..j][0] == queue[0] && queue[..j][1..] == queue[1..][..j'];
    }
  }

  lemma {:induction false} MomentBefore(events: seq<Event>, i: nat, j: nat)
    requires events != [] && IsMoment(events[..|events| - 1], i, j)
    ensures IsMoment(events, i, j) && Moment(events, i, j) == Moment(events[..|events| - 1], i, j)
  {
    assert events[..|events| - 1][..i] == events[..i];
  }

  lemma {:induction false} MomentAtLast(events: seq<Event>, k: nat) returns (j: nat)
    requires events != [] && |Ended(events[..|events| - 1])| < k <= |Ended(events)|
    ensures IsMoment(events, |events| - 1, j) && Ended(Moment(events, |events| - 1, j)) == Ended(events)[..k]
  {
    var before, queue := Ended(events[..|events| - 1]), events[|events| - 1].events;
    j := QueueMoment(queue, k - |before|);
    MomentEnded(events, |events| - 1, j);
    PrefixOfSum(before, EndedIn(queue), k);
  }

  /** Each of a run's terminal updates was the last one at some moment. */
  lemma {:induction false} EveryUpdateHadItsMoment(events: seq<Event>, k: nat) returns (i: nat, j: nat)
    requires 0 < k <= |Ended(events)|
    ensures IsMoment(events, i, j) && Ended(Moment(events, i, j)) == Ended(events)[..k]
    decreases events
  {
    var before := events[..|events| - 1];
    if k <= |Ended(before)| {
      i, j := EveryUpdateHadItsMoment(before, k);
      MomentBefore(events, i, j);
      EndedPrefix(events, |events| - 1);
    } else {
      i := |events| - 1;
      j := MomentAtLast(events, k);
    }
  }

  lemma {:induction false} PrefixOfSum(a: seq<Id>, b: seq<Id>, k: nat)
    requires |a| <= k <= |a + b|
    ensures a + b[..k - |a|] == (a + b)[..k]
  {
  }

  ghost predicate Coincides(config: Config, events: seq<Event>)
    requires Run(config, events).Some?
  {
    Run(config, events).value.life == Terminating <==> config.work.Ids() <= ToSet(Ended(events))
  }

  /** At every moment of the run, the scheduler is about to terminate if and only if all its tasks have ended. */
  ghost predicate CoincidesThroughout(config: Config, events: seq<Event>) {
    && Coincides(config, [])
    && forall i, j | IsMoment(events, i, j) ::
         Run(config, Moment(events, i, j)).Some? && Coincides(config, Moment(events, i, j))
  }

  lemma {:induction false} CoincidesExactly(config: Config, events: seq<Event>)
    requires Run(config, events).Some? && !Stopped(Run(config, events).value)
    ensures Coincides(config, events) <==>
              (Enough(config.work, |Ended(events)|) <==> config.work.Ids() <= ToSet(Ended(events)))
  {
    TerminatesExactlyWhenDone(config, events);
  }

  /**
   Termination coincides with the end of all tasks throughout a run exactly when there are tasks and the first
   terminal updates, as many as there are tasks, are about distinct ones of them.
   */
  lemma {:induction false} TerminatesInTimeExactly(config: Config, events: seq<Event>)
    requires Run(config, events).Some? && !Stopped(Run(config, events).value)
    ensures CoincidesThroughout(config, events) <==> OncePerTask(config.work, Ended(events))
  {
    InTimeExactly(config.work, Ended(events));
    CoincidesExactly(config, []);
    assert Ended(events)[..0] == [] == Ended([]);
    if CoincidesThroughout(config, events) {
      forall k | 0 < k <= |Ended(events)|
        ensures Enough(config.work, k) <==> config.work.Ids() <= ToSet(Ended(events)[..k])
      {
        var i, j := EveryUpdateHadItsMoment(events, k);
        MomentIsARun(config, events, i, j);
        CoincidesExactly(config, Moment(events, i, j));
      }
    }
    if InTime(config.work, Ended(events)) {
      forall i, j | IsMoment(events, i, j)
        ensures Run(config, Moment(events, i, j)).Some? && Coincides(config, Moment(events, i, j))
      {
        MomentIsARun(config, events, i, j);
        CoincidesExactly(config, Moment(events, i, j));
        MomentEnded(events, i, j);
        assert Ended(Moment(events, i, j)) == Ended(events)[..|Ended(Moment(events, i, j))|];
      }
    }
  }

  lemma {:induction false} RunOne(config: Config, e: Event)
    requires Enabled(INITIAL, e)
    ensures Run(config, [e]) == Some(Step(config, INITIAL, e))
  {
    assert [e][..0] == [];
    assert Run(config, []) == Some(INITIAL);
  }

  /** Two updates about one of two tasks end the scheduler while the other task has not ended. */
  lemma {:induction false} RepeatedUpdateEndsTheGroup(first: Id, second: Id, agent: Id)
    requires first != second
    ensures
      var config := Config(TaskGroup({first, second}), false);
      var update := UpdateStatus(TaskStatus(first, agent, None, false, true));
      var events := [ReceivedCalled([Subscribed(0), update, update])];
      && Run(config, events).Some? && Run(config, events).value.life == Terminating
      && Ended(events) == [first, first]
  {
    var config := Config(TaskGroup({first, second}), false);
    var update := UpdateStatus(TaskStatus(first, agent, None, false, true));
    var queue := [Subscribed(0), update, update];
    var e := ReceivedCalled(queue);
    RunOne(config, e);
    assert queue[1..] == [update, update] && [update, update][1..] == [update] && [update][1..] == [];
    var subscribed := Handling(config, INITIAL, Subscribed(0));
    var once := Updating(config, subscribed, update.status);
    var twice := Updating(config, once, update.status);
    assert |{first, second}| == 2;
    assert Receiving(config, once, [update]) == Receiving(config, twice, []) == twice;
    assert Receiving(config, subscribed, [update, update]) == twice;
    assert EndedIn([update]) == [first] + EndedIn([]);
    assert EndedIn([update, update]) == [first] + EndedIn([update]);
    assert [e][..0] == [];
    assert Ended([e]) == Ended([]) + EndedIn(queue);
  }
}
