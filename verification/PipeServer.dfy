// The event pipe: worker threads that serve one client each, a writer thread per subscriber, any number
// of concurrent broadcasters, and shutdown, as one interleaved transition system. An action is what a
// thread does between two points where others may run.
module PipeServer {
  import opened Sequences

  type ClientId = nat
  type BroadcastId = nat

  /** A broadcast message as it sits in a queue. */
  datatype Event = Event(id: BroadcastId, text: string)

  /** Where a worker stands in `serve_client`. */
  datatype Phase =
    | Reading
    | Handling(subscribe: bool)
    | Registering
    | Answering(subscribe: bool)
    | Withdrawing      // the answer could not be written
    | Serving          // the writer runs, the worker waits
    | Leaving          // the wait is over, still registered
    | Clearing         // deregistered, running flag still to be cleared
    | Joining          // waits for the writer
    | Done

  /** Where the writer thread stands; a stopped one remembers the message its last write lost. */
  datatype Writer = NoWriter | LoopHead | Waiting | Writing(event: Event) | Stopped(lost: seq<Event>)

  datatype Client = Client(
    phase: Phase, answer: string, running: bool, queue: seq<Event>, writer: Writer,
    pipe: seq<string>,        // what was written to the pipe, write by write
    enqueued: seq<Event>,     // everything ever pushed to the queue
    delivered: seq<Event>)    // everything the writer wrote successfully

  const NEW_CLIENT := Client(Reading, "", true, [], NoWriter, [], [], [])

  datatype Broadcast = Broadcast(message: string, audience: seq<ClientId>, pushed: nat)

  datatype Stopping = NotStopping | Waking | Signalling(pending: seq<ClientId>) | JoiningWorkers | Finished

  datatype State = State(running: bool, clients: map<ClientId, Client>, subscribers: seq<ClientId>,
                         broadcasts: map<BroadcastId, Broadcast>, stopping: Stopping)

  const INITIAL := State(true, map[], [], map[], NotStopping)

  /** What one client's worker or writer can do next. */
  datatype Move =
    | Read(wantsEvents: bool)
    | ReadFails
    | Handle(reply: string)
    | Register
    | AnswerWritten
    | AnswerFails
    | Withdraw
    | WriterChecks
    | WriterPops
    | WriterGivesUp
    | WriteSucceeds
    | WriteFails
    | WorkerWakes
    | Deregister
    | ClearRunning
    | Join

  datatype Action =
    | ClientMoves(c: ClientId, move: Move)
    | Accept(newcomer: ClientId)
    | BeginBroadcast(b: BroadcastId, event: string)
    | Push(cast: BroadcastId)
    | StopBegins
    | StopSnapshots
    | StopSignals
    | StopSignalled
    | StopFinishes

  function Erase(ids: seq<ClientId>, c: ClientId): (r: seq<ClientId>)
    ensures forall id :: id in r <==> id in ids && id != c
    ensures NoDuplicates(ids) ==> NoDuplicates(r)
  {
    if ids == [] then []
    else
      var rest := Erase(ids[1..], c);
      assert NoDuplicates(ids) ==> NoDuplicates(ids[1..]);
      assert NoDuplicates(ids) ==> forall i | 0 <= i < |rest| :: rest[i] in ids[1..] && rest[i] != ids[0];
      if ids[0] == c then rest else [ids[0]] + rest
  }

  predicate NoDuplicates(ids: seq<ClientId>) {
    forall i, j | 0 <= i < j < |ids| :: ids[i] != ids[j]
  }

  predicate CanMove(serverRunning: bool, cl: Client, m: Move) {
    match m
    case Read(_) => cl.phase == Reading
    case ReadFails => cl.phase == Reading
    case Handle(_) => cl.phase.Handling?
    case Register => cl.phase == Registering
    case AnswerWritten => cl.phase.Answering?
    case AnswerFails => cl.phase.Answering?
    case Withdraw => cl.phase == Withdrawing
    case WriterChecks => cl.writer == LoopHead
    case WriterPops => cl.writer == Waiting && cl.queue != []
    case WriterGivesUp => cl.writer == Waiting && cl.queue == [] && !cl.running
    case WriteSucceeds => cl.writer.Writing?
    case WriteFails => cl.writer.Writing?
    case WorkerWakes => cl.phase == Serving && (!serverRunning || !cl.running)
    case Deregister => cl.phase == Leaving
    case ClearRunning => cl.phase == Clearing
    case Join => cl.phase == Joining && cl.writer.Stopped?
  }

  function Moved(serverRunning: bool, cl: Client, m: Move): Client
    requires CanMove(serverRunning, cl, m)
  {
    match m
    case Read(wantsEvents) => cl.(phase := Handling(wantsEvents))
    case ReadFails => cl.(phase := Done)
    case Handle(reply) =>
      cl.(answer := reply, phase := if cl.phase.subscribe then Registering else Answering(false))
    case Register => cl.(phase := Answering(true))
    case AnswerWritten =>
      var answered := cl.(pipe := cl.pipe + [cl.answer]);
      if cl.phase.subscribe then answered.(phase := Serving, writer := LoopHead) else answered.(phase := Done)
    case AnswerFails => cl.(phase := if cl.phase.subscribe then Withdrawing else Done)
    case Withdraw => cl.(phase := Done)
    case WriterChecks => cl.(writer := if cl.running then Waiting else Stopped([]))
    case WriterPops => cl.(writer := Writing(cl.queue[0]), queue := cl.queue[1..])
    case WriterGivesUp => cl.(writer := Stopped([]))
    case WriteSucceeds =>
      cl.(pipe := cl.pipe + [cl.writer.event.text], delivered := cl.delivered + [cl.writer.event], writer := LoopHead)
    case WriteFails => cl.(running := false, writer := Stopped([cl.writer.event]))
    case WorkerWakes => cl.(phase := Leaving)
    case Deregister => cl.(phase := Clearing)
    case ClearRunning => cl.(running := false, phase := Joining)
    case Join => cl.(phase := Done)
  }

  function SubscribersAfter(subscribers: seq<ClientId>, c: ClientId, m: Move): seq<ClientId> {
    match m
    case Register => subscribers + [c]
    case Withdraw => Erase(subscribers, c)
    case Deregister => Erase(subscribers, c)
    case _ => subscribers
  }

  predicate Enabled(s: State, a: Action) {
    match a
    case ClientMoves(c, m) => c in s.clients && CanMove(s.running, s.clients[c], m)
    case Accept(c) => c !in s.clients && (s.stopping == NotStopping || s.stopping == Waking)
    case BeginBroadcast(b, _) => b !in s.broadcasts
    case Push(b) =>
      b in s.broadcasts && s.broadcasts[b].pushed < |s.broadcasts[b].audience| && Target(s.broadcasts[b]) in s.clients
    case StopBegins => s.running && s.stopping == NotStopping
    case StopSnapshots => s.stopping == Waking
    case StopSignals => s.stopping.Signalling? && s.stopping.pending != [] && s.stopping.pending[0] in s.clients
    case StopSignalled => s.stopping == Signalling([])
    case StopFinishes => s.stopping == JoiningWorkers && forall c | c in s.clients :: s.clients[c].phase == Done
  }

  function Target(cast: Broadcast): ClientId
    requires cast.pushed < |cast.audience|
  {
    cast.audience[cast.pushed]
  }

  function Received(cl: Client, e: Event): Client {
    cl.(queue := cl.queue + [e], enqueued := cl.enqueued + [e])
  }

  /** One queue of a broadcast's audience receives the message. */
  function Pushed(s: State, b: BroadcastId): State
    requires Enabled(s, Push(b))
  {
    var cast := s.broadcasts[b];
    var c := Target(cast);
    s.(clients := s.clients[c := Received(s.clients[c], Event(b, cast.message))],
       broadcasts := s.broadcasts[b := cast.(pushed := cast.pushed + 1)])
  }

  function Next(s: State, a: Action): State
    requires Enabled(s, a)
  {
    match a
    case ClientMoves(c, m) =>
      s.(clients := s.clients[c := Moved(s.running, s.clients[c], m)],
         subscribers := SubscribersAfter(s.subscribers, c, m))
    case Accept(c) => s.(clients := s.clients[c := NEW_CLIENT])
    case BeginBroadcast(b, event) =>
      s.(broadcasts := s.broadcasts[b := Broadcast(event + "\n", s.subscribers, 0)])
    case Push(b) => Pushed(s, b)
    case StopBegins => s.(running := false, stopping := Waking)
    case StopSnapshots => s.(stopping := Signalling(s.subscribers))
    case StopSignals =>
      var c := s.stopping.pending[0];
      s.(clients := s.clients[c := s.clients[c].(running := false)],
         stopping := Signalling(s.stopping.pending[1..]))
    case StopSignalled => s.(stopping := JoiningWorkers)
    case StopFinishes => s.(subscribers := [], stopping := Finished)
  }

  // ----- The invariant -----

  predicate Registered(p: Phase) {
    p == Answering(true) || p == Withdrawing || p == Serving || p == Leaving
  }

  predicate BeforeRegistration(p: Phase) {
    p == Reading || p.Handling? || p == Registering || p == Answering(false)
  }

  predicate BeforeAnswer(p: Phase) {
    p == Reading || p.Handling? || p == Registering || p.Answering? || p == Withdrawing
  }

  function Texts(events: seq<Event>): (r: seq<string>)
    ensures |r| == |events|
  {
    seq(|events|, i requires 0 <= i < |events| => events[i].text)
  }

  function InFlight(w: Writer): seq<Event> {
    match w
    case Writing(e) => [e]
    case Stopped(lost) => lost
    case _ => []
  }

  /** One client: nothing enqueued is out of order, and the pipe holds the answer and what was delivered. */
  predicate ClientOk(cl: Client) {
    && cl.enqueued == cl.delivered + InFlight(cl.writer) + cl.queue
    && (BeforeAnswer(cl.phase) ==> cl.pipe == [] && cl.delivered == [] && cl.writer == NoWriter)
    && (cl.phase == Done ==> cl.writer.NoWriter? || cl.writer.Stopped?)
    && (!BeforeAnswer(cl.phase) && cl.phase != Done ==> !cl.writer.NoWriter?)
    && (cl.pipe == [] ==> cl.delivered == [])
    && (cl.pipe != [] ==> cl.pipe == [cl.answer] + Texts(cl.delivered))
    && (cl.writer != NoWriter ==> cl.pipe != [])
  }

  predicate DistinctIds(events: seq<Event>) {
    forall i, j | 0 <= i < j < |events| :: events[i].id != events[j].id
  }

  ghost predicate Reached(cast: Broadcast, c: ClientId) {
    exists k | 0 <= k < |cast.audience| && k < cast.pushed :: cast.audience[k] == c
  }

  /** A client's queue received exactly the broadcasts that have reached it, each once. */
  ghost predicate QueueOk(c: ClientId, enqueued: seq<Event>, broadcasts: map<BroadcastId, Broadcast>) {
    && DistinctIds(enqueued)
    && (forall e | e in enqueued ::
          e.id in broadcasts && Reached(broadcasts[e.id], c) && e.text == broadcasts[e.id].message)
    && (forall b | b in broadcasts && Reached(broadcasts[b], c) :: Event(b, broadcasts[b].message) in enqueued)
  }

  ghost predicate CastOk(cast: Broadcast, clients: map<ClientId, Client>) {
    && cast.pushed <= |cast.audience| && NoDuplicates(cast.audience)
    && forall c | c in cast.audience :: c in clients && !BeforeRegistration(clients[c].phase)
  }

  ghost predicate SubscribersOk(s: State) {
    && NoDuplicates(s.subscribers)
    && forall c :: c in s.subscribers <==> c in s.clients && Registered(s.clients[c].phase)
  }

  ghost predicate ClientsOk(clients: map<ClientId, Client>, broadcasts: map<BroadcastId, Broadcast>) {
    forall c | c in clients :: ClientOk(clients[c]) && QueueOk(c, clients[c].enqueued, broadcasts)
  }

  ghost predicate CastsOk(broadcasts: map<BroadcastId, Broadcast>, clients: map<ClientId, Client>) {
    forall b | b in broadcasts :: CastOk(broadcasts[b], clients)
  }

  predicate PendingOk(stopping: Stopping, clients: map<ClientId, Client>) {
    stopping.Signalling? ==> forall c | c in stopping.pending :: c in clients
  }

  ghost predicate Invariant(s: State) {
    SubscribersOk(s) && ClientsOk(s.clients, s.broadcasts) && CastsOk(s.broadcasts, s.clients) &&
    PendingOk(s.stopping, s.clients)
  }

  lemma WriteKeepsClientOk(cl: Client)
    requires cl.writer.Writing? && ClientOk(cl)
    ensures ClientOk(Moved(true, cl, WriteSucceeds))
  {
    var after := Moved(true, cl, WriteSucceeds);
    assert Texts(after.delivered) == Texts(cl.delivered) + [cl.writer.event.text];
    assert after.pipe == [cl.answer] + Texts(after.delivered);
  }

  lemma PopKeepsClientOk(cl: Client)
    requires cl.writer == Waiting && cl.queue != [] && ClientOk(cl)
    ensures ClientOk(Moved(true, cl, WriterPops))
  {
    assert cl.queue == [cl.queue[0]] + cl.queue[1..];
    Associative(cl.delivered, [cl.queue[0]], cl.queue[1..]);
    assert cl.delivered + [] == cl.delivered;
  }

  lemma MoveKeepsClientOk(serverRunning: bool, cl: Client, m: Move)
    requires CanMove(serverRunning, cl, m) && ClientOk(cl)
    ensures ClientOk(Moved(serverRunning, cl, m))
  {
    match m {
      case WriterPops => PopKeepsClientOk(cl);
      case WriteSucceeds => WriteKeepsClientOk(cl);
      case AnswerWritten => assert [cl.answer] + Texts([]) == [cl.answer];
      case _ =>
    }
  }

  lemma MoveGrows(serverRunning: bool, cl: Client, m: Move)
    requires CanMove(serverRunning, cl, m)
    ensures Moved(serverRunning, cl, m).enqueued == cl.enqueued && cl.pipe <= Moved(serverRunning, cl, m).pipe
  {
  }

  predicate EndsRegistration(m: Move) {
    m == Withdraw || m == Deregister
  }

  lemma MembersAfterMove(subscribers: seq<ClientId>, c: ClientId, m: Move)
    requires NoDuplicates(subscribers) && (m == Register ==> c !in subscribers)
    ensures var after := SubscribersAfter(subscribers, c, m);
            && NoDuplicates(after)
            && (forall id :: id in after <==>
                  if id == c then m == Register || (c in subscribers && !EndsRegistration(m)) else id in subscribers)
  {
  }

  lemma RegisteredAfterMove(serverRunning: bool, cl: Client, m: Move)
    requires CanMove(serverRunning, cl, m)
    ensures Registered(Moved(serverRunning, cl, m).phase) <==>
            m == Register || (Registered(cl.phase) && !EndsRegistration(m))
    ensures m == Register ==> !Registered(cl.phase)
  {
  }

  lemma MoveKeepsSubscribers(s: State, c: ClientId, m: Move)
    requires SubscribersOk(s) && Enabled(s, ClientMoves(c, m))
    ensures SubscribersOk(Next(s, ClientMoves(c, m)))
  {
    RegisteredAfterMove(s.running, s.clients[c], m);
    MembersAfterMove(s.subscribers, c, m);
  }

  lemma ReplacedKeepsCasts(clients: map<ClientId, Client>, broadcasts: map<BroadcastId, Broadcast>, c: ClientId,
                           cl: Client)
    requires CastsOk(broadcasts, clients) && c in clients
    requires BeforeRegistration(cl.phase) ==> BeforeRegistration(clients[c].phase)
    ensures CastsOk(broadcasts, clients[c := cl])
  {
    forall b | b in broadcasts ensures CastOk(broadcasts[b], clients[c := cl]) {
      assert CastOk(broadcasts[b], clients);
    }
  }

  lemma ReplacedKeepsClients(clients: map<ClientId, Client>, broadcasts: map<BroadcastId, Broadcast>, c: ClientId,
                             cl: Client)
    requires ClientsOk(clients, broadcasts) && c in clients
    requires ClientOk(cl) && cl.enqueued == clients[c].enqueued
    ensures ClientsOk(clients[c := cl], broadcasts)
  {
    var after := clients[c := cl];
    forall id | id in after ensures ClientOk(after[id]) && QueueOk(id, after[id].enqueued, broadcasts) {
      assert ClientOk(clients[id]) && QueueOk(id, clients[id].enqueued, broadcasts);
    }
  }

  /** Replacing one client by one with the same received messages disturbs nobody else. */
  lemma ReplaceClient(s: State, c: ClientId, cl: Client, s': State)
    requires Invariant(s) && c in s.clients && ClientOk(cl) && cl.enqueued == s.clients[c].enqueued
    requires BeforeRegistration(cl.phase) ==> BeforeRegistration(s.clients[c].phase)
    requires s'.clients == s.clients[c := cl] && s'.broadcasts == s.broadcasts
    requires SubscribersOk(s') && PendingOk(s'.stopping, s'.clients)
    ensures Invariant(s')
  {
    ReplacedKeepsClients(s.clients, s.broadcasts, c, cl);
    ReplacedKeepsCasts(s.clients, s.broadcasts, c, cl);
  }

  lemma ReachedAfterPush(cast: Broadcast, c: ClientId)
    requires cast.pushed < |cast.audience| && NoDuplicates(cast.audience)
    ensures Reached(cast.(pushed := cast.pushed + 1), c) <==> Reached(cast, c) || c == Target(cast)
    ensures !Reached(cast, Target(cast))
  {
    var cast' := cast.(pushed := cast.pushed + 1);
    if Reached(cast, c) {
      var k :| 0 <= k < |cast.audience| && k < cast.pushed && cast.audience[k] == c;
      assert cast'.audience[k] == c;
    }
    assert cast'.audience[cast.pushed] == Target(cast);
  }

  lemma PushKeepsQueueOk(c: ClientId, enqueued: seq<Event>, broadcasts: map<BroadcastId, Broadcast>, b: BroadcastId)
    requires QueueOk(c, enqueued, broadcasts) && b in broadcasts
    requires broadcasts[b].pushed < |broadcasts[b].audience| && NoDuplicates(broadcasts[b].audience)
    ensures var cast := broadcasts[b];
            var e := Event(b, cast.message);
            QueueOk(c, if c == Target(cast) then enqueued + [e] else enqueued,
                    broadcasts[b := cast.(pushed := cast.pushed + 1)])
  {
    var cast := broadcasts[b];
    ReachedAfterPush(cast, c);
    if c == Target(cast) {
      forall i | 0 <= i < |enqueued| ensures enqueued[i].id != b {
        assert enqueued[i] in enqueued;
      }
    }
  }

  lemma PushedClient(s: State, b: BroadcastId, c: ClientId)
    requires Enabled(s, Push(b)) && c in s.clients
    ensures var cast := s.broadcasts[b];
            && Pushed(s, b).clients.Keys == s.clients.Keys
            && Pushed(s, b).broadcasts == s.broadcasts[b := cast.(pushed := cast.pushed + 1)]
            && Pushed(s, b).clients[c] ==
               (if c == Target(cast) then Received(s.clients[c], Event(b, cast.message)) else s.clients[c])
  {
  }

  lemma PushKeepsClient(s: State, b: BroadcastId, c: ClientId)
    requires Enabled(s, Push(b)) && c in s.clients
    requires s.broadcasts[b].pushed < |s.broadcasts[b].audience| && NoDuplicates(s.broadcasts[b].audience)
    requires ClientOk(s.clients[c]) && QueueOk(c, s.clients[c].enqueued, s.broadcasts)
    ensures c in Pushed(s, b).clients && Pushed(s, b).clients[c].phase == s.clients[c].phase
    ensures ClientOk(Pushed(s, b).clients[c])
    ensures QueueOk(c, Pushed(s, b).clients[c].enqueued, Pushed(s, b).broadcasts)
  {
    PushedClient(s, b, c);
    PushKeepsQueueOk(c, s.clients[c].enqueued, s.broadcasts, b);
    ReceivedKeepsClientOk(s.clients[c], Event(b, s.broadcasts[b].message));
  }

  lemma PushKeepsClients(s: State, b: BroadcastId)
    requires Enabled(s, Push(b)) && CastsOk(s.broadcasts, s.clients) && ClientsOk(s.clients, s.broadcasts)
    ensures ClientsOk(Pushed(s, b).clients, Pushed(s, b).broadcasts)
  {
    var s' := Pushed(s, b);
    forall c | c in s'.clients ensures ClientOk(s'.clients[c]) && QueueOk(c, s'.clients[c].enqueued, s'.broadcasts) {
      assert CastOk(s.broadcasts[b], s.clients);
      PushKeepsClient(s, b, c);
    }
  }

  lemma PushKeepsCasts(s: State, b: BroadcastId)
    requires Enabled(s, Push(b)) && CastsOk(s.broadcasts, s.clients)
    ensures CastsOk(Pushed(s, b).broadcasts, Pushed(s, b).clients)
  {
    var s' := Pushed(s, b);
    forall other | other in s'.broadcasts ensures CastOk(s'.broadcasts[other], s'.clients) {
      PushKeepsCast(s.broadcasts[other], s.clients, s'.broadcasts[other], s'.clients);
    }
  }

  lemma PushKeepsSubscribers(s: State, b: BroadcastId)
    requires SubscribersOk(s) && Enabled(s, Push(b))
    ensures SubscribersOk(Pushed(s, b))
  {
    SamePhasesKeepSubscribers(s, Pushed(s, b));
  }

  lemma PushKeepsInvariant(s: State, b: BroadcastId)
    requires Invariant(s) && Enabled(s, Push(b))
    ensures Invariant(Pushed(s, b))
  {
    PushKeepsClients(s, b);
    PushKeepsCasts(s, b);
    PushKeepsSubscribers(s, b);
  }

  lemma SamePhasesKeepSubscribers(s: State, s': State)
    requires SubscribersOk(s) && s'.subscribers == s.subscribers && s'.clients.Keys == s.clients.Keys
    requires forall c | c in s.clients :: s'.clients[c].phase == s.clients[c].phase
    ensures SubscribersOk(s')
  {
  }

  lemma PushKeepsCast(cast: Broadcast, clients: map<ClientId, Client>, cast': Broadcast,
                      clients': map<ClientId, Client>)
    requires CastOk(cast, clients) && clients.Keys == clients'.Keys
    requires forall c | c in clients :: clients'[c].phase == clients[c].phase
    requires cast'.audience == cast.audience && cast'.pushed <= |cast.audience|
    ensures CastOk(cast', clients')
  {
  }

  lemma ReceivedKeepsClientOk(cl: Client, e: Event)
    requires ClientOk(cl)
    ensures ClientOk(Received(cl, e))
  {
    Associative(cl.delivered + InFlight(cl.writer), cl.queue, [e]);
  }

  lemma UnknownIsUnreached(broadcasts: map<BroadcastId, Broadcast>, clients: map<ClientId, Client>, c: ClientId)
    requires CastsOk(broadcasts, clients) && c !in clients
    ensures QueueOk(c, [], broadcasts)
    ensures CastsOk(broadcasts, clients[c := NEW_CLIENT])
  {
    forall b | b in broadcasts
      ensures !Reached(broadcasts[b], c) && CastOk(broadcasts[b], clients[c := NEW_CLIENT])
    {
      assert CastOk(broadcasts[b], clients);
      var audience := broadcasts[b].audience;
      assert forall k | 0 <= k < |audience| :: audience[k] in audience;
    }
  }

  lemma AcceptKeepsInvariant(s: State, c: ClientId)
    requires Invariant(s) && Enabled(s, Accept(c))
    ensures Invariant(Next(s, Accept(c)))
  {
    UnknownIsUnreached(s.broadcasts, s.clients, c);
    assert ClientOk(NEW_CLIENT);
  }

  lemma BeginKeepsQueueOk(c: ClientId, enqueued: seq<Event>, broadcasts: map<BroadcastId, Broadcast>, b: BroadcastId,
                          cast: Broadcast)
    requires QueueOk(c, enqueued, broadcasts) && b !in broadcasts && cast.pushed == 0
    ensures QueueOk(c, enqueued, broadcasts[b := cast])
  {
    assert !Reached(cast, c);
  }

  lemma BeginKeepsClients(clients: map<ClientId, Client>, broadcasts: map<BroadcastId, Broadcast>, b: BroadcastId,
                          cast: Broadcast)
    requires ClientsOk(clients, broadcasts) && b !in broadcasts && cast.pushed == 0
    ensures ClientsOk(clients, broadcasts[b := cast])
  {
    forall c | c in clients ensures ClientOk(clients[c]) && QueueOk(c, clients[c].enqueued, broadcasts[b := cast]) {
      BeginKeepsQueueOk(c, clients[c].enqueued, broadcasts, b, cast);
    }
  }

  lemma BeginKeepsInvariant(s: State, b: BroadcastId, event: string)
    requires Invariant(s) && Enabled(s, BeginBroadcast(b, event))
    ensures Invariant(Next(s, BeginBroadcast(b, event)))
  {
    BeginKeepsClients(s.clients, s.broadcasts, b, Broadcast(event + "\n", s.subscribers, 0));
    assert CastOk(Broadcast(event + "\n", s.subscribers, 0), s.clients);
  }

  lemma MoveKeepsInvariant(s: State, c: ClientId, m: Move)
    requires Invariant(s) && Enabled(s, ClientMoves(c, m))
    ensures Invariant(Next(s, ClientMoves(c, m)))
  {
    assert ClientOk(s.clients[c]);
    MoveKeepsClientOk(s.running, s.clients[c], m);
    MoveGrows(s.running, s.clients[c], m);
    MoveKeepsSubscribers(s, c, m);
    ReplaceClient(s, c, Moved(s.running, s.clients[c], m), Next(s, ClientMoves(c, m)));
  }

  lemma SignalKeepsInvariant(s: State)
    requires Invariant(s) && Enabled(s, StopSignals)
    ensures Invariant(Next(s, StopSignals))
  {
    var c := s.stopping.pending[0];
    assert ClientOk(s.clients[c]);
    SamePhasesKeepSubscribers(s, Next(s, StopSignals));
    ReplaceClient(s, c, s.clients[c].(running := false), Next(s, StopSignals));
  }

  lemma StepKeepsInvariant(s: State, a: Action)
    requires Invariant(s) && Enabled(s, a)
    ensures Invariant(Next(s, a))
  {
    match a {
      case ClientMoves(c, m) => MoveKeepsInvariant(s, c, m);
      case Accept(c) => AcceptKeepsInvariant(s, c);
      case BeginBroadcast(b, event) => BeginKeepsInvariant(s, b, event);
      case Push(b) => PushKeepsInvariant(s, b);
      case StopSignals => SignalKeepsInvariant(s);
      case _ =>
    }
  }

  // ----- Runs -----

  predicate Runs(s: State, actions: seq<Action>)
    decreases |actions|
  {
    actions == [] || (Enabled(s, actions[0]) && Runs(Next(s, actions[0]), actions[1..]))
  }

  function Final(s: State, actions: seq<Action>): State
    requires Runs(s, actions)
    decreases |actions|
  {
    if actions == [] then s else Final(Next(s, actions[0]), actions[1..])
  }

  lemma {:induction false} InvariantOverRuns(s: State, actions: seq<Action>)
    requires Invariant(s) && Runs(s, actions)
    ensures Invariant(Final(s, actions))
    decreases |actions|
  {
    if actions != [] {
      StepKeepsInvariant(s, actions[0]);
      InvariantOverRuns(Next(s, actions[0]), actions[1..]);
    }
  }

  function Bytes(writes: seq<string>): string {
    if writes == [] then "" else writes[0] + Bytes(writes[1..])
  }

  /** Under every interleaving, what a client's pipe received is nothing, or its answer followed by the
      messages enqueued for it, from the first on, in order, without gap or repetition. */
  lemma PipeIsAnswerThenPrefix(actions: seq<Action>, c: ClientId)
    requires Runs(INITIAL, actions) && c in Final(INITIAL, actions).clients
    ensures var cl := Final(INITIAL, actions).clients[c];
            && cl.delivered <= cl.enqueued && DistinctIds(cl.enqueued)
            && (cl.pipe == [] || Bytes(cl.pipe) == cl.answer + Bytes(Texts(cl.enqueued[..|cl.delivered|])))
  {
    InvariantOverRuns(INITIAL, actions);
    var cl := Final(INITIAL, actions).clients[c];
    assert cl.enqueued[..|cl.delivered|] == cl.delivered;
    if cl.pipe != [] {
      assert cl.pipe[1..] == Texts(cl.delivered);
    }
  }

  /** Nothing is lost on the way: as long as the writer has not stopped, every broadcast that has reached
      the client is delivered, being written, or queued. That includes those pushed before the answer. */
  lemma ReachedIsNotLost(actions: seq<Action>, c: ClientId, b: BroadcastId)
    requires Runs(INITIAL, actions)
    requires var s := Final(INITIAL, actions); c in s.clients && b in s.broadcasts && Reached(s.broadcasts[b], c)
    ensures var s := Final(INITIAL, actions);
            var cl, e := s.clients[c], Event(b, s.broadcasts[b].message);
            && e in cl.enqueued
            && (!cl.writer.Stopped? ==> e in cl.delivered || cl.writer == Writing(e) || e in cl.queue)
            && (BeforeAnswer(cl.phase) ==> e in cl.queue)
  {
    InvariantOverRuns(INITIAL, actions);
  }

  /** What is enqueued for a client was broadcast after its registration began to count. */
  lemma NothingBeforeRegistration(actions: seq<Action>, c: ClientId)
    requires Runs(INITIAL, actions) && c in Final(INITIAL, actions).clients
    ensures var cl := Final(INITIAL, actions).clients[c];
            BeforeRegistration(cl.phase) ==> cl.enqueued == []
  {
    InvariantOverRuns(INITIAL, actions);
    var s := Final(INITIAL, actions);
    var cl := s.clients[c];
    if cl.enqueued != [] {
      var e := cl.enqueued[0];
      assert e in cl.enqueued && Reached(s.broadcasts[e.id], c);
    }
  }

  /** Every exit path of a worker deregisters its client and ends its writer, and while the client is
      being served, from before its answer on, it stays registered. */
  lemma DoneIsDeregistered(actions: seq<Action>, c: ClientId)
    requires Runs(INITIAL, actions) && c in Final(INITIAL, actions).clients
    ensures var s := Final(INITIAL, actions);
            var cl := s.clients[c];
            && (c in s.subscribers <==> Registered(cl.phase))
            && (cl.phase == Done ==> c !in s.subscribers && (cl.writer.NoWriter? || cl.writer.Stopped?))
  {
    InvariantOverRuns(INITIAL, actions);
  }

  // ----- Order and completeness across steps -----

  /** What no step undoes: clients and broadcasts stay, queues and pipes only grow at their end, and the
      audience of a broadcast is fixed. */
  ghost predicate Grows(s: State, s': State) {
    && (forall c | c in s.clients :: c in s'.clients &&
          s.clients[c].enqueued <= s'.clients[c].enqueued && s.clients[c].pipe <= s'.clients[c].pipe)
    && (forall b | b in s.broadcasts :: b in s'.broadcasts &&
          s'.broadcasts[b].audience == s.broadcasts[b].audience &&
          s'.broadcasts[b].message == s.broadcasts[b].message && s.broadcasts[b].pushed <= s'.broadcasts[b].pushed)
  }

  lemma StepGrows(s: State, a: Action)
    requires Enabled(s, a)
    ensures Grows(s, Next(s, a))
  {
    match a {
      case ClientMoves(c, m) => MoveGrows(s.running, s.clients[c], m);
      case _ =>
    }
  }

  lemma GrowsTransitive(s0: State, s1: State, s2: State)
    requires Grows(s0, s1) && Grows(s1, s2)
    ensures Grows(s0, s2)
  {
    forall c | c in s0.clients
      ensures s0.clients[c].enqueued <= s2.clients[c].enqueued && s0.clients[c].pipe <= s2.clients[c].pipe
    {
      assert s0.clients[c].enqueued <= s1.clients[c].enqueued <= s2.clients[c].enqueued;
    }
  }

  lemma {:induction false} RunsGrow(s: State, actions: seq<Action>)
    requires Runs(s, actions)
    ensures Grows(s, Final(s, actions))
    decreases |actions|
  {
    if actions != [] {
      var s' := Next(s, actions[0]);
      StepGrows(s, actions[0]);
      RunsGrow(s', actions[1..]);
      GrowsTransitive(s, s', Final(s', actions[1..]));
    }
  }

  /** A client registered when a broadcast begins has the message enqueued, exactly once, by the time that
      broadcast is over, whatever happens in between. */
  lemma RegisteredClientsAreReached(before: seq<Action>, b: BroadcastId, event: string, after: seq<Action>, c: ClientId)
    requires Runs(INITIAL, before)
    requires var s := Final(INITIAL, before); Enabled(s, BeginBroadcast(b, event)) && c in s.subscribers
    requires Runs(Next(Final(INITIAL, before), BeginBroadcast(b, event)), after)
    ensures var s := Final(Next(Final(INITIAL, before), BeginBroadcast(b, event)), after);
            && b in s.broadcasts && c in s.clients
            && (s.broadcasts[b].pushed == |s.broadcasts[b].audience| ==>
                  Event(b, event + "\n") in s.clients[c].enqueued && DistinctIds(s.clients[c].enqueued))
  {
    var s0 := Final(INITIAL, before);
    var s1 := Next(s0, BeginBroadcast(b, event));
    var s := Final(s1, after);
    InvariantOverRuns(INITIAL, before);
    StepKeepsInvariant(s0, BeginBroadcast(b, event));
    InvariantOverRuns(s1, after);
    RunsGrow(s1, after);
    var cast := s.broadcasts[b];
    assert cast.audience == s0.subscribers && cast.message == event + "\n";
    if cast.pushed == |cast.audience| {
      var k :| 0 <= k < |cast.audience| && cast.audience[k] == c;
      assert Reached(cast, c);
    }
  }

  ghost predicate Precedes(s: State, c: ClientId, first: Event, b: BroadcastId) {
    && c in s.clients
    && var enqueued := s.clients[c].enqueued;
       forall j | 0 <= j < |enqueued| && enqueued[j].id == b :: exists i | 0 <= i < j :: enqueued[i] == first
  }

  /** Of two broadcasts of which one was over before the other began, every client that got both got
      them in this order. */
  lemma SequentialBroadcastsKeepOrder(s: State, b: BroadcastId, event: string, after: seq<Action>, c: ClientId,
                                      first: Event)
    requires Invariant(s) && Enabled(s, BeginBroadcast(b, event)) && c in s.clients && first in s.clients[c].enqueued
    requires Runs(Next(s, BeginBroadcast(b, event)), after)
    ensures Precedes(Final(Next(s, BeginBroadcast(b, event)), after), c, first, b)
  {
    var s1 := Next(s, BeginBroadcast(b, event));
    RunsGrow(s1, after);
    QueueLacksUnknown(c, s.clients[c].enqueued, s.broadcasts, b);
    EarlierStaysEarlier(s.clients[c].enqueued, Final(s1, after).clients[c].enqueued, first, b);
  }

  lemma QueueLacksUnknown(c: ClientId, enqueued: seq<Event>, broadcasts: map<BroadcastId, Broadcast>, b: BroadcastId)
    requires QueueOk(c, enqueued, broadcasts) && b !in broadcasts
    ensures forall e | e in enqueued :: e.id != b
  {
  }

  lemma EarlierStaysEarlier(early: seq<Event>, enqueued: seq<Event>, first: Event, b: BroadcastId)
    requires early <= enqueued && first in early && forall e | e in early :: e.id != b
    ensures forall j | 0 <= j < |enqueued| && enqueued[j].id == b :: exists i | 0 <= i < j :: enqueued[i] == first
  {
    var i :| 0 <= i < |early| && early[i] == first;
    forall j | 0 <= j < |enqueued| && enqueued[j].id == b ensures i < j && enqueued[i] == first {
      assert forall k | 0 <= k < |early| :: enqueued[k] == early[k] && early[k] in early;
    }
  }
}
