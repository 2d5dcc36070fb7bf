// The UI's event listener: a reconnect loop that announces every change of the connection once, forwards
// events while connected, and waits longer and longer while the engine cannot be reached.
module PipeClient {
  const FIRST_DELAY: nat := 200
  const LONGEST_DELAY: nat := 5000

  /** What the environment does during one turn of the loop. */
  datatype Round =
    | Unreachable(stopSignalled: bool, listening: bool)      // no connection; the wait may be cut short
    | Refused(listening: bool)                               // connected, but the subscription fails
    | Session(payloads: seq<string>, listening: bool)        // subscribed; events until the pipe breaks

  /** What the listener does: dispatches to the UI, and waits. */
  datatype Step = Connected | Disconnected | Payload(text: string) | Wait(milliseconds: nat)

  datatype Link = Unknown | Up | Down

  /** The connection as last announced. */
  function LinkAfter(trace: seq<Step>): Link {
    if trace == [] then Unknown
    else
      match trace[|trace| - 1]
      case Connected => Up
      case Disconnected => Down
      case _ => LinkAfter(trace[..|trace| - 1])
  }

  /** How many waits there were since the last successful subscription. */
  function WaitsSinceConnected(trace: seq<Step>): nat {
    if trace == [] || trace[|trace| - 1].Connected? then 0
    else WaitsSinceConnected(trace[..|trace| - 1]) + (if trace[|trace| - 1].Wait? then 1 else 0)
  }

  function Pow2(k: nat): nat {
    if k == 0 then 1 else 2 * Pow2(k - 1)
  }

  function Min(a: nat, b: nat): nat {
    if a < b then a else b
  }

  /** Capped exponential backoff in closed form. */
  function Backoff(k: nat): nat {
    Min(FIRST_DELAY * Pow2(k), LONGEST_DELAY)
  }

  /** Doubling under the cap, step by step, is the closed form. */
  lemma DoublingIsBackoff(k: nat)
    ensures Min(Backoff(k) * 2, LONGEST_DELAY) == Backoff(k + 1)
  {
    assert Pow2(k + 1) == 2 * Pow2(k);
  }

  /** The first waits, in milliseconds; from the sixth on each takes five seconds. */
  lemma {:induction false} WaitsInMilliseconds(k: nat)
    ensures Backoff(0) == 200 && Backoff(1) == 400 && Backoff(2) == 800 && Backoff(3) == 1600 && Backoff(4) == 3200
    ensures k >= 5 ==> Backoff(k) == 5000
  {
    assert Pow2(1) == 2 && Pow2(2) == 4 && Pow2(3) == 8 && Pow2(4) == 16 && Pow2(5) == 32;
    if k > 5 {
      WaitsInMilliseconds(k - 1);
      DoublingIsBackoff(k - 1);
    }
  }

  /** One more step is allowed: announcements alternate, events come only while connected, and a wait
      only while disconnected, of the length the backoff prescribes. */
  predicate Allowed(before: seq<Step>, step: Step) {
    match step
    case Connected => LinkAfter(before) != Up
    case Disconnected => LinkAfter(before) != Down
    case Payload(_) => LinkAfter(before) == Up
    case Wait(ms) => LinkAfter(before) == Down && ms == Backoff(WaitsSinceConnected(before))
  }

  predicate WellFormed(trace: seq<Step>) {
    trace == [] ||
    (WellFormed(trace[..|trace| - 1]) && Allowed(trace[..|trace| - 1], trace[|trace| - 1]))
  }

  lemma {:induction false} EachIsAllowed(trace: seq<Step>, i: nat)
    requires WellFormed(trace) && i < |trace|
    ensures Allowed(trace[..i], trace[i])
    decreases |trace|
  {
    var front := trace[..|trace| - 1];
    if i < |front| {
      EachIsAllowed(front, i);
      assert front[..i] == trace[..i];
    }
  }

  lemma WellFormedSnoc(trace: seq<Step>, step: Step)
    requires WellFormed(trace) && Allowed(trace, step)
    ensures WellFormed(trace + [step])
    ensures (trace + [step])[..|trace|] == trace
  {
  }

  // ----- The language of announcements -----

  function Announcements(trace: seq<Step>): seq<Step> {
    if trace == [] then []
    else
      var last := trace[|trace| - 1];
      Announcements(trace[..|trace| - 1]) + (if last.Connected? || last.Disconnected? then [last] else [])
  }

  /** Connected and disconnected strictly alternate in every well-formed trace. */
  lemma {:induction false} AnnouncementsAlternate(trace: seq<Step>)
    requires WellFormed(trace)
    ensures var a := Announcements(trace);
            && (forall i | 0 < i < |a| :: a[i - 1] != a[i])
            && (forall i | 0 <= i < |a| :: a[i].Connected? || a[i].Disconnected?)
            && LinkAfter(trace) == if a == [] then Unknown else if a[|a| - 1].Connected? then Up else Down
    decreases |trace|
  {
    if trace != [] {
      AnnouncementsAlternate(trace[..|trace| - 1]);
    }
  }

  /** An event lies between a connected announcement and the next disconnected one. */
  lemma {:induction false} EventsLieInSessions(trace: seq<Step>, i: nat)
    requires WellFormed(trace) && i < |trace| && trace[i].Payload?
    ensures exists start :: 0 <= start < i && trace[start].Connected? &&
                            forall k | start < k < i :: !trace[k].Disconnected?
  {
    EachIsAllowed(trace, i);
    LastConnected(trace, i);
  }

  lemma {:induction false} LastConnected(trace: seq<Step>, i: nat)
    requires i <= |trace| && LinkAfter(trace[..i]) == Up
    ensures exists start :: 0 <= start < i && trace[start].Connected? &&
                            forall k | start < k < i :: !trace[k].Disconnected?
    decreases i
  {
    var last := trace[i - 1];
    assert trace[..i][..i - 1] == trace[..i - 1];
    if !last.Connected? {
      LastConnected(trace, i - 1);
      var start :| 0 <= start < i - 1 && trace[start].Connected? &&
                   forall k | start < k < i - 1 :: !trace[k].Disconnected?;
      assert !last.Disconnected?;
    }
  }

  // ----- What a run must have forwarded -----

  function PayloadsOf(trace: seq<Step>): seq<string> {
    if trace == [] then []
    else
      PayloadsOf(trace[..|trace| - 1]) + (if trace[|trace| - 1].Payload? then [trace[|trace| - 1].text] else [])
  }

  function Connections(trace: seq<Step>): nat {
    if trace == [] then 0
    else Connections(trace[..|trace| - 1]) + (if trace[|trace| - 1].Connected? then 1 else 0)
  }

  function Waits(trace: seq<Step>): nat {
    if trace == [] then 0
    else Waits(trace[..|trace| - 1]) + (if trace[|trace| - 1].Wait? then 1 else 0)
  }

  function SessionPayloads(rounds: seq<Round>): seq<string> {
    if rounds == [] then []
    else
      SessionPayloads(rounds[..|rounds| - 1]) +
      (if rounds[|rounds| - 1].Session? then rounds[|rounds| - 1].payloads else [])
  }

  function Sessions(rounds: seq<Round>): nat {
    if rounds == [] then 0
    else Sessions(rounds[..|rounds| - 1]) + (if rounds[|rounds| - 1].Session? then 1 else 0)
  }

  function FailedConnects(rounds: seq<Round>): nat {
    if rounds == [] then 0
    else FailedConnects(rounds[..|rounds| - 1]) + (if rounds[|rounds| - 1].Unreachable? then 1 else 0)
  }

  predicate Ends(round: Round) {
    !round.listening || (round.Unreachable? && round.stopSignalled)
  }

  /** The listener is still wanted after this turn, and no stop signal cut its wait short. */
  predicate GoesOn(round: Round) {
    match round
    case Unreachable(stopSignalled, listening) => listening && !stopSignalled
    case Refused(listening) => listening
    case Session(_, listening) => listening
  }

  lemma EndsExactly(round: Round)
    ensures Ends(round) <==> !GoesOn(round)
  {
  }

  /** The first rounds account for the trace: every event of every session, nothing else. */
  predicate Accounts(rounds: seq<Round>, trace: seq<Step>) {
    && PayloadsOf(trace) == SessionPayloads(rounds)
    && Connections(trace) == Sessions(rounds)
    && Waits(trace) == FailedConnects(rounds)
  }

  lemma RoundAdds(rounds: seq<Round>, n: nat)
    requires 0 < n <= |rounds|
    ensures var round, before, after := rounds[n - 1], rounds[..n - 1], rounds[..n];
            && SessionPayloads(after) == SessionPayloads(before) + (if round.Session? then round.payloads else [])
            && Sessions(after) == Sessions(before) + (if round.Session? then 1 else 0)
            && FailedConnects(after) == FailedConnects(before) + (if round.Unreachable? then 1 else 0)
  {
    assert rounds[..n][..n - 1] == rounds[..n - 1];
  }

  class Listener {
    var connected: bool
    var listening: bool
    ghost var trace: seq<Step>

    constructor ()
      ensures !connected && listening && trace == []
    {
      connected, listening, trace := false, true, [];
    }

    method Do(step: Step)
      requires WellFormed(trace) && Allowed(trace, step)
      modifies `trace
      ensures trace == old(trace) + [step] && WellFormed(trace)
      ensures PayloadsOf(trace) == PayloadsOf(old(trace)) + (if step.Payload? then [step.text] else [])
      ensures Connections(trace) == Connections(old(trace)) + (if step.Connected? then 1 else 0)
      ensures Waits(trace) == Waits(old(trace)) + (if step.Wait? then 1 else 0)
      ensures WaitsSinceConnected(trace) ==
              if step.Connected? then 0 else WaitsSinceConnected(old(trace)) + (if step.Wait? then 1 else 0)
      ensures LinkAfter(trace) ==
              if step.Connected? then Up else if step.Disconnected? then Down else LinkAfter(old(trace))
    {
      WellFormedSnoc(trace, step);
      trace := trace + [step];
    }

    /** The reconnect loop, over any behaviour of the environment; `n` turns of it were taken. */
    method Listen(rounds: seq<Round>) returns (ghost n: nat)
      requires listening && trace == []
      modifies this
      ensures n <= |rounds| && (rounds != [] ==> n > 0)
      ensures n < |rounds| ==> !GoesOn(rounds[n - 1])
      ensures forall k | 0 <= k < n - 1 :: GoesOn(rounds[k])
      ensures WellFormed(trace) && Accounts(rounds[..n], trace)
      ensures n > 0 && rounds[n - 1].listening ==> LinkAfter(trace) == Down
      ensures !connected && !listening
    {
      var reconnectDelay, offlineAnnounced := FIRST_DELAY, false;
      connected := false;
      n := 0;
      for turn := 0 to |rounds|
        invariant n == turn && Ready(reconnectDelay, offlineAnnounced)
        invariant forall k | 0 <= k < n :: GoesOn(rounds[k])
        invariant Accounts(rounds[..n], trace)
        invariant n > 0 ==> offlineAnnounced
      {
        n := turn + 1;
        RoundAdds(rounds, n);
        EndsExactly(rounds[turn]);
        reconnectDelay, offlineAnnounced := Turn(rounds[turn], reconnectDelay, offlineAnnounced);
        if Ends(rounds[turn]) {
          break;
        }
      }
      listening := false;
    }

    ghost predicate Ready(reconnectDelay: nat, offlineAnnounced: bool)
      reads this
    {
      && listening && !connected && WellFormed(trace)
      && LinkAfter(trace) == (if offlineAnnounced then Down else Unknown)
      && reconnectDelay == Backoff(WaitsSinceConnected(trace))
    }

    /** One turn of the loop. */
    method Turn(round: Round, reconnectDelay: nat, offlineAnnounced: bool) returns (delay: nat, announced: bool)
      requires Ready(reconnectDelay, offlineAnnounced)
      modifies this
      ensures !connected && WellFormed(trace) && (!Ends(round) ==> announced && Ready(delay, announced))
      ensures round.listening ==> LinkAfter(trace) == Down
      ensures PayloadsOf(trace) == PayloadsOf(old(trace)) + (if round.Session? then round.payloads else [])
      ensures Connections(trace) == Connections(old(trace)) + (if round.Session? then 1 else 0)
      ensures Waits(trace) == Waits(old(trace)) + (if round.Unreachable? then 1 else 0)
    {
      if round.Unreachable? {
        AnnounceLoss(offlineAnnounced);
        delay := WaitLonger(reconnectDelay);
        announced := true;
        if round.stopSignalled {
          return;
        }
      } else {
        delay, announced := Connect(round, reconnectDelay, offlineAnnounced);
      }
      listening := round.listening;
    }

    /** A turn that reached the engine. */
    method Connect(round: Round, reconnectDelay: nat, offlineAnnounced: bool) returns (delay: nat, announced: bool)
      requires Ready(reconnectDelay, offlineAnnounced) && !round.Unreachable?
      modifies `trace, `connected
      ensures !connected && WellFormed(trace) && (announced ==> LinkAfter(trace) == Down)
      ensures (round.listening ==> announced) && delay == Backoff(WaitsSinceConnected(trace))
      ensures PayloadsOf(trace) == PayloadsOf(old(trace)) + (if round.Session? then round.payloads else [])
      ensures Connections(trace) == Connections(old(trace)) + (if round.Session? then 1 else 0)
      ensures Waits(trace) == Waits(old(trace))
    {
      delay, announced := reconnectDelay, offlineAnnounced;
      if round.Session? {
        announced, delay := false, FIRST_DELAY;
        Serve(round.payloads);
      }
      connected := false;
      if round.listening {
        AnnounceLoss(announced);
        announced := true;
      }
    }

    /** A subscribed session, until its pipe breaks. */
    method Serve(payloads: seq<string>)
      requires WellFormed(trace) && LinkAfter(trace) != Up
      modifies `trace, `connected
      ensures connected && WellFormed(trace) && LinkAfter(trace) == Up
      ensures Backoff(WaitsSinceConnected(trace)) == FIRST_DELAY
      ensures PayloadsOf(trace) == PayloadsOf(old(trace)) + payloads
      ensures Connections(trace) == Connections(old(trace)) + 1 && Waits(trace) == Waits(old(trace))
    {
      connected := true;
      Do(Connected);
      Forward(payloads);
    }

    /** Waits, and doubles the delay for the next time. */
    method WaitLonger(delay: nat) returns (longer: nat)
      requires WellFormed(trace) && LinkAfter(trace) == Down && delay == Backoff(WaitsSinceConnected(trace))
      modifies `trace
      ensures trace == old(trace) + [Wait(delay)] && WellFormed(trace) && LinkAfter(trace) == Down
      ensures longer == Backoff(WaitsSinceConnected(trace))
      ensures PayloadsOf(trace) == PayloadsOf(old(trace)) && Connections(trace) == Connections(old(trace))
      ensures Waits(trace) == Waits(old(trace)) + 1
    {
      DoublingIsBackoff(WaitsSinceConnected(trace));
      Do(Wait(delay));
      longer := Min(delay * 2, LONGEST_DELAY);
    }

    /** Tells the UI that the engine is gone, unless it has been told already. */
    method AnnounceLoss(announced: bool)
      requires WellFormed(trace) && (announced <==> LinkAfter(trace) == Down)
      modifies `trace
      ensures WellFormed(trace) && LinkAfter(trace) == Down
      ensures trace == if announced then old(trace) else old(trace) + [Disconnected]
      ensures PayloadsOf(trace) == PayloadsOf(old(trace)) && Connections(trace) == Connections(old(trace))
      ensures Waits(trace) == Waits(old(trace)) && WaitsSinceConnected(trace) == WaitsSinceConnected(old(trace))
    {
      if !announced {
        Do(Disconnected);
      }
    }

    method Forward(payloads: seq<string>)
      requires WellFormed(trace) && LinkAfter(trace) == Up
      modifies `trace
      ensures WellFormed(trace) && LinkAfter(trace) == Up
      ensures PayloadsOf(trace) == PayloadsOf(old(trace)) + payloads
      ensures Connections(trace) == Connections(old(trace)) && Waits(trace) == Waits(old(trace))
      ensures WaitsSinceConnected(trace) == WaitsSinceConnected(old(trace))
    {
      for i := 0 to |payloads|
        invariant WellFormed(trace) && LinkAfter(trace) == Up
        invariant PayloadsOf(trace) == PayloadsOf(old(trace)) + payloads[..i]
        invariant Connections(trace) == Connections(old(trace)) && Waits(trace) == Waits(old(trace))
        invariant WaitsSinceConnected(trace) == WaitsSinceConnected(old(trace))
      {
        assert payloads[..i + 1] == payloads[..i] + [payloads[i]];
        Do(Payload(payloads[i]));
      }
      assert payloads[..|payloads|] == payloads;
    }
  }
}
