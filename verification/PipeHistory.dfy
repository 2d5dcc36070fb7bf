// What a run of the event pipe amounts to, told from its list of actions alone: which answer a client got,
// whether it was registered, and which broadcasts reached its pipe.
module PipeHistory {
  import opened Sequences
  import opened PipeServer

  // ----- Runs, from their end -----

  lemma {:induction false} RunsOneMore(s: State, actions: seq<Action>, a: Action)
    ensures Runs(s, actions + [a]) <==> Runs(s, actions) && Enabled(Final(s, actions), a)
    ensures Runs(s, actions + [a]) ==> Final(s, actions + [a]) == Next(Final(s, actions), a)
    decreases |actions|
  {
    var longer := actions + [a];
    if actions == [] {
      assert longer == [a] && longer[1..] == [];
    } else {
      assert longer[1..] == actions[1..] + [a];
      if Enabled(s, actions[0]) {
        RunsOneMore(Next(s, actions[0]), actions[1..], a);
      }
    }
  }

  /** The steps of one client's worker and writer, in order. */
  function MovesOf(actions: seq<Action>, c: ClientId): (moves: seq<Move>)
    ensures forall m :: m in moves <==> ClientMoves(c, m) in actions
  {
    if actions == [] then []
    else
      var n := |actions| - 1;
      var earlier := MovesOf(actions[..n], c);
      assert forall m :: ClientMoves(c, m) in actions <==>
                         ClientMoves(c, m) in actions[..n] || actions[n] == ClientMoves(c, m);
      if actions[n].ClientMoves? && actions[n].c == c then earlier + [actions[n].move] else earlier
  }

  // ----- One client -----

  predicate HasReply(p: Phase) {
    p == Registering || p.Answering? || p == Withdrawing || p == Serving || p == Leaving || p == Clearing ||
    p == Joining
  }

  predicate Subscribing(p: Phase) {
    p == Handling(true) || (HasReply(p) && p != Answering(false))
  }

  predicate Ended(moves: seq<Move>) {
    Withdraw in moves || Deregister in moves
  }

  /** How the steps of a client tell its answer. */
  ghost predicate ReplyTold(moves: seq<Move>, cl: Client) {
    && (cl.phase.Handling? ==> forall reply :: Handle(reply) !in moves)
    && (forall reply | Handle(reply) in moves :: reply == cl.answer)
    && (HasReply(cl.phase) || cl.pipe != [] ==> Handle(cl.answer) in moves)
    && (AnswerWritten in moves <==> cl.pipe != [])
    && (AnswerFails in moves ==> !BeforeAnswer(cl.phase) || cl.phase == Withdrawing)
  }

  predicate NotRegisteredYet(p: Phase) {
    p == Handling(true) || p == Registering
  }

  /** How they tell whether it was registered. */
  predicate RegistrationTold(moves: seq<Move>, cl: Client) {
    && (Read(true) !in moves || Read(false) !in moves)
    && (Subscribing(cl.phase) ==> Read(true) in moves)
    && (cl.phase == Handling(false) || cl.phase == Answering(false) ==> Read(false) in moves)
    && (Register in moves ==> Read(true) in moves && !NotRegisteredYet(cl.phase))
    && (Read(true) in moves ==> NotRegisteredYet(cl.phase) || Register in moves)
    && (Ended(moves) <==> Register in moves && !Registered(cl.phase))
  }

  ghost predicate Told(moves: seq<Move>, cl: Client) {
    (cl.phase == Reading ==> moves == []) && ReplyTold(moves, cl) && RegistrationTold(moves, cl)
  }

  lemma ReplyStaysTold(serverRunning: bool, moves: seq<Move>, cl: Client, m: Move)
    requires CanMove(serverRunning, cl, m) && ClientOk(cl) && (cl.phase == Reading ==> moves == [])
    requires ReplyTold(moves, cl)
    ensures ReplyTold(moves + [m], Moved(serverRunning, cl, m))
  {
  }

  lemma RegistrationStaysTold(serverRunning: bool, moves: seq<Move>, cl: Client, m: Move)
    requires CanMove(serverRunning, cl, m) && (cl.phase == Reading ==> moves == [])
    requires RegistrationTold(moves, cl)
    ensures RegistrationTold(moves + [m], Moved(serverRunning, cl, m))
  {
  }

  lemma MoveIsTold(serverRunning: bool, moves: seq<Move>, cl: Client, m: Move)
    requires CanMove(serverRunning, cl, m) && ClientOk(cl) && Told(moves, cl)
    ensures Told(moves + [m], Moved(serverRunning, cl, m))
  {
    ReplyStaysTold(serverRunning, moves, cl, m);
    RegistrationStaysTold(serverRunning, moves, cl, m);
  }

  /** A client that is not there yet has made no step. */
  ghost predicate AllTold(actions: seq<Action>, clients: map<ClientId, Client>, c: ClientId) {
    if c in clients then Told(MovesOf(actions, c), clients[c]) else MovesOf(actions, c) == []
  }

  lemma MovesGrow(actions: seq<Action>, a: Action, c: ClientId)
    ensures MovesOf(actions + [a], c) ==
            if a.ClientMoves? && a.c == c then MovesOf(actions, c) + [a.move] else MovesOf(actions, c)
  {
    assert (actions + [a])[..|actions|] == actions;
  }

  /** Nobody else's step changes what is told of a client. */
  predicate SameTold(cl: Client, cl': Client) {
    cl'.phase == cl.phase && cl'.answer == cl.answer && cl'.pipe == cl.pipe
  }

  lemma OthersKeepTold(s: State, a: Action, c: ClientId)
    requires Enabled(s, a) && c in s.clients && (a.ClientMoves? ==> a.c != c)
    ensures c in Next(s, a).clients && SameTold(s.clients[c], Next(s, a).clients[c])
  {
  }

  lemma ArrivalsAreNew(s: State, a: Action, c: ClientId)
    requires Enabled(s, a) && c !in s.clients
    ensures !(a.ClientMoves? && a.c == c)
    ensures c in Next(s, a).clients ==> Next(s, a).clients[c] == NEW_CLIENT
  {
  }

  lemma StepIsTold(s: State, actions: seq<Action>, a: Action, c: ClientId)
    requires Invariant(s) && Enabled(s, a) && AllTold(actions, s.clients, c)
    ensures AllTold(actions + [a], Next(s, a).clients, c)
  {
    MovesGrow(actions, a, c);
    if c !in s.clients {
      ArrivalsAreNew(s, a, c);
    } else if a.ClientMoves? && a.c == c {
      assert ClientOk(s.clients[c]);
      MoveIsTold(s.running, MovesOf(actions, c), s.clients[c], a.move);
    } else {
      OthersKeepTold(s, a, c);
    }
  }

  lemma {:induction false} RunsAreTold(actions: seq<Action>, c: ClientId)
    requires Runs(INITIAL, actions)
    ensures AllTold(actions, Final(INITIAL, actions).clients, c)
    decreases |actions|
  {
    if actions != [] {
      var front, last := actions[..|actions| - 1], actions[|actions| - 1];
      FrontAndLast(actions);
      RunsOneMore(INITIAL, front, last);
      RunsAreTold(front, c);
      InvariantOverRuns(INITIAL, front);
      StepIsTold(Final(INITIAL, front), front, last, c);
    }
  }

  /** What a client reads first is what the handler replied to it, and that is there exactly if the write of the
      answer succeeded. */
  lemma PipeBeginsWithReply(actions: seq<Action>, c: ClientId)
    requires Runs(INITIAL, actions) && c in Final(INITIAL, actions).clients
    ensures var pipe := Final(INITIAL, actions).clients[c].pipe;
            && (pipe != [] <==> ClientMoves(c, AnswerWritten) in actions)
            && (pipe != [] ==> ClientMoves(c, Handle(pipe[0])) in actions)
            && (forall reply | pipe != [] && ClientMoves(c, Handle(reply)) in actions :: reply == pipe[0])
  {
    RunsAreTold(actions, c);
    InvariantOverRuns(INITIAL, actions);
    var cl := Final(INITIAL, actions).clients[c];
    assert ClientOk(cl);
    if cl.pipe != [] {
      assert cl.pipe[0] == cl.answer;
    }
    forall reply | ClientMoves(c, Handle(reply)) in actions ensures reply == cl.answer {
      assert Handle(reply) in MovesOf(actions, c);
    }
  }

  lemma ToldRegistration(moves: seq<Move>, cl: Client)
    requires Told(moves, cl) && ClientOk(cl)
    ensures AnswerWritten in moves || AnswerFails in moves ==> (Register in moves <==> Read(true) in moves)
    ensures Registered(cl.phase) <==> Register in moves && Withdraw !in moves && Deregister !in moves
  {
  }

  lemma SubscribersByPhase(actions: seq<Action>, c: ClientId)
    requires Runs(INITIAL, actions)
    ensures var s := Final(INITIAL, actions);
            && (c in s.subscribers <==> c in s.clients && Registered(s.clients[c].phase))
            && (c in s.clients ==> ClientOk(s.clients[c]))
  {
    InvariantOverRuns(INITIAL, actions);
  }

  /** Whoever asks for events is registered before it gets its answer, nobody else is, and the registration
      lasts until the worker withdraws it. */
  lemma RegisteredExactlyIfAskedFor(actions: seq<Action>, c: ClientId)
    requires Runs(INITIAL, actions)
    ensures ClientMoves(c, Register) in actions ==> ClientMoves(c, Read(true)) in actions
    ensures ClientMoves(c, AnswerWritten) in actions || ClientMoves(c, AnswerFails) in actions ==>
              (ClientMoves(c, Register) in actions <==> ClientMoves(c, Read(true)) in actions)
    ensures ClientMoves(c, Read(true)) !in actions || ClientMoves(c, Read(false)) !in actions
    ensures c in Final(INITIAL, actions).subscribers <==>
            ClientMoves(c, Register) in actions &&
            ClientMoves(c, Withdraw) !in actions && ClientMoves(c, Deregister) !in actions
  {
    var s, moves := Final(INITIAL, actions), MovesOf(actions, c);
    RunsAreTold(actions, c);
    SubscribersByPhase(actions, c);
    if c in s.clients {
      ToldRegistration(moves, s.clients[c]);
    }
    assert forall m | m in {Register, Read(true), Read(false), AnswerWritten, AnswerFails, Withdraw, Deregister} ::
             m in moves <==> ClientMoves(c, m) in actions;
  }

  // ----- Broadcasts -----

  /** The k-th action began this broadcast, and this client was registered then. */
  predicate BegunFor(actions: seq<Action>, k: nat, c: ClientId, b: BroadcastId, text: string)
    requires k < |actions|
  {
    && actions[k].BeginBroadcast? && actions[k].b == b && text == actions[k].event + "\n"
    && ClientMoves(c, Register) in actions[..k]
    && ClientMoves(c, Withdraw) !in actions[..k] && ClientMoves(c, Deregister) !in actions[..k]
  }

  ghost predicate BroadcastTo(actions: seq<Action>, c: ClientId, b: BroadcastId, text: string) {
    exists k | 0 <= k < |actions| :: BegunFor(actions, k, c, b, text)
  }

  lemma LongerRunTells(front: seq<Action>, a: Action, c: ClientId, b: BroadcastId, text: string)
    requires BroadcastTo(front, c, b, text)
    ensures BroadcastTo(front + [a], c, b, text)
  {
    var k :| 0 <= k < |front| && BegunFor(front, k, c, b, text);
    assert (front + [a])[..k] == front[..k];
    assert BegunFor(front + [a], k, c, b, text);
  }

  lemma BeginningTells(front: seq<Action>, c: ClientId, b: BroadcastId, event: string)
    requires Runs(INITIAL, front) && c in Final(INITIAL, front).subscribers
    ensures BroadcastTo(front + [BeginBroadcast(b, event)], c, b, event + "\n")
  {
    RegisteredExactlyIfAskedFor(front, c);
    var longer := front + [BeginBroadcast(b, event)];
    assert longer[..|front|] == front;
    assert BegunFor(longer, |front|, c, b, event + "\n");
  }

  lemma CastsStay(s: State, a: Action, b: BroadcastId)
    requires Enabled(s, a) && b in Next(s, a).broadcasts && b !in s.broadcasts
    ensures a.BeginBroadcast? && a.b == b
    ensures Next(s, a).broadcasts[b] == Broadcast(a.event + "\n", s.subscribers, 0)
  {
  }

  /** The audience of a broadcast are clients that were registered when it began. */
  lemma {:induction false} AudienceWasRegistered(actions: seq<Action>, b: BroadcastId, c: ClientId)
    requires Runs(INITIAL, actions) && b in Final(INITIAL, actions).broadcasts
    requires c in Final(INITIAL, actions).broadcasts[b].audience
    ensures BroadcastTo(actions, c, b, Final(INITIAL, actions).broadcasts[b].message)
    decreases |actions|
  {
    if actions != [] {
      var front, last := actions[..|actions| - 1], actions[|actions| - 1];
      FrontAndLast(actions);
      RunsOneMore(INITIAL, front, last);
      var s := Final(INITIAL, front);
      if b in s.broadcasts {
        StepGrows(s, last);
        AudienceWasRegistered(front, b, c);
        LongerRunTells(front, last, c, b, s.broadcasts[b].message);
      } else {
        CastsStay(s, last, b);
        BeginningTells(front, c, b, last.event);
      }
    }
  }

  lemma DeliveredIsBroadcast(actions: seq<Action>, c: ClientId, e: Event)
    requires Runs(INITIAL, actions) && c in Final(INITIAL, actions).clients
    requires e in Final(INITIAL, actions).clients[c].enqueued
    ensures BroadcastTo(actions, c, e.id, e.text)
  {
    InvariantOverRuns(INITIAL, actions);
    var s := Final(INITIAL, actions);
    assert QueueOk(c, s.clients[c].enqueued, s.broadcasts);
    var cast := s.broadcasts[e.id];
    var k :| 0 <= k < |cast.audience| && k < cast.pushed && cast.audience[k] == c;
    AudienceWasRegistered(actions, e.id, c);
  }

  lemma DeliveredInPipe(cl: Client)
    requires ClientOk(cl)
    ensures |cl.delivered| == (if cl.pipe == [] then 0 else |cl.pipe| - 1)
    ensures forall j | 0 <= j < |cl.delivered| :: cl.pipe[j + 1] == cl.delivered[j].text
  {
  }

  function Ids(events: seq<Event>): (ids: seq<BroadcastId>)
    ensures |ids| == |events|
  {
    seq(|events|, j requires 0 <= j < |events| => events[j].id)
  }

  predicate NoRepetition(ids: seq<BroadcastId>) {
    forall i, j | 0 <= i < j < |ids| :: ids[i] != ids[j]
  }

  /** Behind the reply a pipe carries events only, each as it was broadcast while the client was registered, and
      no broadcast twice. */
  lemma PipeCarriesBroadcasts(actions: seq<Action>, c: ClientId) returns (ids: seq<BroadcastId>)
    requires Runs(INITIAL, actions) && c in Final(INITIAL, actions).clients
    ensures var pipe := Final(INITIAL, actions).clients[c].pipe;
            && |ids| == (if pipe == [] then 0 else |pipe| - 1) && NoRepetition(ids)
            && (forall j | 0 <= j < |ids| :: BroadcastTo(actions, c, ids[j], pipe[j + 1]))
  {
    var cl := Final(INITIAL, actions).clients[c];
    PipeIsAnswerThenPrefix(actions, c);
    SubscribersByPhase(actions, c);
    DeliveredInPipe(cl);
    ids := Ids(cl.delivered);
    forall j | 0 <= j < |ids| ensures BroadcastTo(actions, c, ids[j], cl.pipe[j + 1]) {
      assert cl.delivered[j] == cl.enqueued[j];
      DeliveredIsBroadcast(actions, c, cl.enqueued[j]);
    }
  }

  // ----- A run that delivers -----

  lemma Take(actions: seq<Action>, s: State, a: Action) returns (longer: seq<Action>, s': State)
    requires Runs(INITIAL, actions) && Final(INITIAL, actions) == s && Enabled(s, a)
    ensures longer == actions + [a] && s' == Next(s, a)
    ensures Runs(INITIAL, longer) && Final(INITIAL, longer) == s'
  {
    longer, s' := actions + [a], Next(s, a);
    RunsOneMore(INITIAL, actions, a);
  }

  /** A client that asked for events, with a broadcast begun before it got its answer. */
  lemma Subscribed(c: ClientId, reply: string, b: BroadcastId, event: string) returns (actions: seq<Action>, s: State)
    ensures Runs(INITIAL, actions) && Final(INITIAL, actions) == s && c in s.clients
    ensures s.clients[c] == NEW_CLIENT.(phase := Answering(true), answer := reply)
    ensures s.broadcasts == map[b := Broadcast(event + "\n", [c], 0)]
  {
    actions, s := Take([], INITIAL, Accept(c));
    actions, s := Take(actions, s, ClientMoves(c, Read(true)));
    actions, s := Take(actions, s, ClientMoves(c, Handle(reply)));
    actions, s := Take(actions, s, ClientMoves(c, Register));
    assert s.subscribers == [c];
    actions, s := Take(actions, s, BeginBroadcast(b, event));
  }

  /** Its worker has written the answer, and its writer starts on a queue with this event. */
  lemma Answered(c: ClientId, reply: string, b: BroadcastId, event: string) returns (actions: seq<Action>, s: State)
    ensures Runs(INITIAL, actions) && Final(INITIAL, actions) == s && c in s.clients
    ensures s.clients[c].pipe == [reply] && s.clients[c].running && s.clients[c].writer == LoopHead
    ensures s.clients[c].queue == [Event(b, event + "\n")]
  {
    actions, s := Subscribed(c, reply, b, event);
    actions, s := Take(actions, s, Push(b));
    actions, s := Take(actions, s, ClientMoves(c, AnswerWritten));
  }

  /** Every reply, and an event broadcast before the reply was written, can arrive. */
  lemma SubscriberCanGetEvent(c: ClientId, reply: string, b: BroadcastId, event: string) returns (actions: seq<Action>)
    ensures Runs(INITIAL, actions) && c in Final(INITIAL, actions).clients
    ensures Final(INITIAL, actions).clients[c].pipe == [reply, event + "\n"]
  {
    var s: State;
    actions, s := Answered(c, reply, b, event);
    actions, s := Take(actions, s, ClientMoves(c, WriterChecks));
    actions, s := Take(actions, s, ClientMoves(c, WriterPops));
    actions, s := Take(actions, s, ClientMoves(c, WriteSucceeds));
  }

  // ----- Nobody is stuck -----

  /** A writer that has stopped, or a worker that waits for it, leaves the running flag cleared. */
  predicate FlagCleared(cl: Client) {
    cl.writer.Stopped? || cl.phase == Joining ==> !cl.running
  }

  lemma MoveKeepsFlagCleared(serverRunning: bool, cl: Client, m: Move)
    requires CanMove(serverRunning, cl, m) && FlagCleared(cl)
    ensures FlagCleared(Moved(serverRunning, cl, m))
  {
  }

  lemma StepKeepsFlagsCleared(s: State, a: Action)
    requires Enabled(s, a) && forall c | c in s.clients :: FlagCleared(s.clients[c])
    ensures forall c | c in Next(s, a).clients :: FlagCleared(Next(s, a).clients[c])
  {
    match a {
      case ClientMoves(c, m) => MoveKeepsFlagCleared(s.running, s.clients[c], m);
      case _ =>
    }
  }

  lemma {:induction false} FlagsStayCleared(actions: seq<Action>)
    requires Runs(INITIAL, actions)
    ensures forall c | c in Final(INITIAL, actions).clients :: FlagCleared(Final(INITIAL, actions).clients[c])
    decreases |actions|
  {
    if actions != [] {
      var front, last := actions[..|actions| - 1], actions[|actions| - 1];
      FrontAndLast(actions);
      RunsOneMore(INITIAL, front, last);
      FlagsStayCleared(front);
      StepKeepsFlagsCleared(Final(INITIAL, front), last);
    }
  }

  /** A subscriber with nothing to do, while the server runs. */
  predicate Idle(serverRunning: bool, cl: Client) {
    serverRunning && cl.phase == Serving && cl.running && cl.writer == Waiting && cl.queue == []
  }

  function WriterMove(cl: Client): Move {
    match cl.writer
    case LoopHead => WriterChecks
    case Waiting => if cl.queue != [] then WriterPops else WriterGivesUp
    case Writing(_) => WriteSucceeds
    case _ => Join
  }

  function OneMove(serverRunning: bool, cl: Client): Move {
    match cl.phase
    case Reading => ReadFails
    case Handling(_) => Handle("")
    case Registering => Register
    case Answering(_) => AnswerFails
    case Withdrawing => Withdraw
    case Serving => if serverRunning && cl.running then WriterMove(cl) else WorkerWakes
    case Leaving => Deregister
    case Clearing => ClearRunning
    case _ => WriterMove(cl)
  }

  lemma MovesUnlessIdle(serverRunning: bool, cl: Client)
    requires ClientOk(cl) && FlagCleared(cl)
    ensures (exists m :: CanMove(serverRunning, cl, m)) <==> cl.phase != Done && !Idle(serverRunning, cl)
  {
    if cl.phase != Done && !Idle(serverRunning, cl) {
      assert CanMove(serverRunning, cl, OneMove(serverRunning, cl));
    }
  }

  /** No client is ever stuck: one whose worker has not ended can take a step, unless it waits for events while the
      server runs. So a shutdown can always go on. */
  lemma NobodyIsStuck(actions: seq<Action>, c: ClientId)
    requires Runs(INITIAL, actions) && c in Final(INITIAL, actions).clients
    ensures var s := Final(INITIAL, actions);
            (exists m :: Enabled(s, ClientMoves(c, m))) <==>
            s.clients[c].phase != Done && !Idle(s.running, s.clients[c])
  {
    var s := Final(INITIAL, actions);
    FlagsStayCleared(actions);
    SubscribersByPhase(actions, c);
    MovesUnlessIdle(s.running, s.clients[c]);
    assert forall m :: Enabled(s, ClientMoves(c, m)) <==> CanMove(s.running, s.clients[c], m);
  }

  // ----- Shutdown -----

  predicate Ending(stopping: Stopping) {
    stopping.Signalling? || stopping == JoiningWorkers || stopping == Finished
  }

  predicate SignalledOrPending(s: State, c: ClientId) {
    && Ending(s.stopping) && c in s.clients
    && (!s.clients[c].running || (s.stopping.Signalling? && c in s.stopping.pending))
  }

  lemma StepKeepsSignalled(s: State, a: Action, c: ClientId)
    requires Enabled(s, a) && SignalledOrPending(s, c)
    ensures SignalledOrPending(Next(s, a), c)
  {
  }

  lemma {:induction false} RunKeepsSignalled(s: State, actions: seq<Action>, c: ClientId)
    requires Runs(s, actions) && SignalledOrPending(s, c)
    ensures SignalledOrPending(Final(s, actions), c)
    decreases |actions|
  {
    if actions != [] {
      StepKeepsSignalled(s, actions[0], c);
      RunKeepsSignalled(Next(s, actions[0]), actions[1..], c);
    }
  }

  /** A shutdown tells every client that is subscribed when it looks, before it joins the workers. */
  lemma EverySubscriberIsSignalled(before: seq<Action>, after: seq<Action>, c: ClientId)
    requires Runs(INITIAL, before) && Enabled(Final(INITIAL, before), StopSnapshots)
    requires c in Final(INITIAL, before).subscribers
    requires Runs(Next(Final(INITIAL, before), StopSnapshots), after)
    ensures var s := Final(Next(Final(INITIAL, before), StopSnapshots), after);
            c in s.clients && (!s.stopping.Signalling? || c !in s.stopping.pending ==> !s.clients[c].running)
  {
    SubscribersByPhase(before, c);
    RunKeepsSignalled(Next(Final(INITIAL, before), StopSnapshots), after, c);
  }

  predicate StopOk(s: State) {
    && (s.running <==> s.stopping == NotStopping)
    && (s.stopping == Finished ==> s.subscribers == [] && forall c | c in s.clients :: s.clients[c].phase == Done)
  }

  lemma StepKeepsStopOk(s: State, a: Action)
    requires Enabled(s, a) && StopOk(s)
    ensures StopOk(Next(s, a))
  {
  }

  lemma {:induction false} RunKeepsStopOk(s: State, actions: seq<Action>)
    requires Runs(s, actions) && StopOk(s)
    ensures StopOk(Final(s, actions))
    decreases |actions|
  {
    if actions != [] {
      StepKeepsStopOk(s, actions[0]);
      RunKeepsStopOk(Next(s, actions[0]), actions[1..]);
    }
  }

  /** When a shutdown is over, nobody is subscribed and no worker or writer is left; the server counts as running
      exactly until it begins. */
  lemma FinishedIsQuiet(actions: seq<Action>)
    requires Runs(INITIAL, actions)
    ensures var s := Final(INITIAL, actions);
            && (s.running <==> s.stopping == NotStopping)
            && (s.stopping == Finished ==>
                  s.subscribers == [] &&
                  forall c | c in s.clients ::
                    s.clients[c].phase == Done && (s.clients[c].writer.NoWriter? || s.clients[c].writer.Stopped?))
  {
    RunKeepsStopOk(INITIAL, actions);
    forall c | c in Final(INITIAL, actions).clients ensures ClientOk(Final(INITIAL, actions).clients[c]) {
      SubscribersByPhase(actions, c);
    }
  }
}
