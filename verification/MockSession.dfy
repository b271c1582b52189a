/**
 One session of the mock agent: any number of concurrent `continue_turn` and
 `abort` calls over an atomic flag, a lock around the sender and a bounded channel.
 */
module MockSession {
  import opened Prelude
  import opened AgentEvents

  const CHANNEL_CAPACITY: nat := 8

  datatype Config = Config(message: string, usage: Option<TokenUsage>, issue: string)

  function TurnSession(thread: nat, turn: nat): string {
    SessionId("mock-th-" + Decimal(thread), "tn-" + Decimal(turn))
  }

  /** The events of one scripted turn. */
  function Script(cfg: Config, thread: nat, turn: nat): seq<AgentEvent> {
    var session := TurnSession(thread, turn);
    [Started(session, cfg.issue), Message(session, "assistant", cfg.message)]
    + (if cfg.usage.Some? then [Usage(session, cfg.usage.value)] else [])
    + [Completed(session, Success)]
  }

  function CancelEvent(thread: nat, turn: nat): AgentEvent {
    Completed(TurnSession(thread, turn), Cancelled)
  }

  /** Where a call stands between two of its atomic steps. */
  datatype Stage =
    | Continuing               // about to read the flag
    | WantsTurn                // saw the flag clear, waits for the lock
    | Sending(turn: nat, next: nat)  // holds the lock
    | Aborting                 // about to swap the flag
    | WantsCancel              // was first to set the flag, waits for the lock
    | SendingCancel(turn: nat) // holds the lock and has taken the sender
    | Returned

  datatype MockState = MockState(
    aborted: bool, lock: Option<nat>, sender: bool, nextTurn: nat,
    calls: map<nat, Stage>,
    receiving: bool, queue: seq<AgentEvent>, delivered: seq<AgentEvent>,
    sent: seq<AgentEvent>)  // every send so far, whether or not somebody listens

  /** The state `start_session` returns: turn 1 is in the channel. */
  function Begun(cfg: Config, thread: nat): MockState {
    var first := Script(cfg, thread, 1);
    MockState(false, None, true, 2, map[], true, first, [], first)
  }

  function Send(s: MockState, e: AgentEvent): MockState {
    s.(queue := if s.receiving then s.queue + [e] else s.queue, sent := s.sent + [e])
  }

  predicate CanSend(s: MockState) {
    !s.receiving || |s.queue| < CHANNEL_CAPACITY
  }

  /** Whether call `c` can take its next step now. */
  predicate Enabled(s: MockState, cfg: Config, thread: nat, c: nat) {
    c in s.calls &&
    match s.calls[c]
    case Continuing => true
    case WantsTurn => s.lock.None?
    case Sending(turn, next) => next >= |Script(cfg, thread, turn)| || CanSend(s)
    case Aborting => true
    case WantsCancel => s.lock.None?
    case SendingCancel(_) => CanSend(s)
    case Returned => false
  }

  /** The next atomic step of call `c`. */
  function CallStep(s: MockState, cfg: Config, thread: nat, c: nat): MockState
    requires Enabled(s, cfg, thread, c)
  {
    match s.calls[c]
    case Continuing =>
      s.(calls := s.calls[c := if s.aborted then Returned else WantsTurn])
    case WantsTurn =>
      if s.sender then s.(lock := Some(c), nextTurn := s.nextTurn + 1, calls := s.calls[c := Sending(s.nextTurn, 0)])
      else s.(calls := s.calls[c := Returned])
    case Sending(turn, next) =>
      if next < |Script(cfg, thread, turn)|
      then Send(s, Script(cfg, thread, turn)[next]).(calls := s.calls[c := Sending(turn, next + 1)])
      else s.(lock := None, calls := s.calls[c := Returned])
    case Aborting =>
      s.(aborted := true, calls := s.calls[c := if s.aborted then Returned else WantsCancel])
    case WantsCancel =>
      if s.sender then s.(lock := Some(c), sender := false, nextTurn := s.nextTurn + 1,
                          calls := s.calls[c := SendingCancel(s.nextTurn)])
      else s.(calls := s.calls[c := Returned])
    case SendingCancel(turn) =>
      Send(s, CancelEvent(thread, turn)).(lock := None, calls := s.calls[c := Returned])
    case Returned => s
  }

  class MockAgentControl {
    const cfg: Config
    const thread: nat
    var aborted: bool
    var lock: Option<nat>
    var sender: bool
    var nextTurn: nat
    var calls: map<nat, Stage>
    var receiving: bool
    var queue: seq<AgentEvent>
    var delivered: seq<AgentEvent>
    ghost var sent: seq<AgentEvent>

    /** `start_session`: sends the first turn, then hands out the control. */
    constructor (cfg: Config, thread: nat)
      ensures this.cfg == cfg && this.thread == thread
      ensures State() == Begun(cfg, thread)
    {
      this.cfg, this.thread := cfg, thread;
      aborted, lock, sender, nextTurn := false, None, true, 1;
      calls, receiving, queue, delivered, sent := map[], true, [], [], [];
      new;
      var script := Script(cfg, thread, nextTurn);
      nextTurn := nextTurn + 1;
      for i := 0 to |script|
        invariant State() == Begun(cfg, thread).(queue := script[..i], sent := script[..i])
      {
        queue := queue + [script[i]];
        sent := sent + [script[i]];
      }
      assert script[..|script|] == script;
    }

    ghost function State(): MockState
      reads this
    {
      MockState(aborted, lock, sender, nextTurn, calls, receiving, queue, delivered, sent)
    }

    method Put(e: AgentEvent)
      modifies this
      ensures State() == Send(old(State()), e)
    {
      if receiving {
        queue := queue + [e];
      }
      sent := sent + [e];
    }

    method ReadFlag(c: nat)
      requires Enabled(State(), cfg, thread, c) && calls[c] == Continuing
      modifies this
      ensures State() == CallStep(old(State()), cfg, thread, c)
    {
      calls := calls[c := if aborted then Returned else WantsTurn];
    }

    method LockForTurn(c: nat)
      requires Enabled(State(), cfg, thread, c) && calls[c] == WantsTurn
      modifies this
      ensures State() == CallStep(old(State()), cfg, thread, c)
    {
      if !sender {
        calls := calls[c := Returned];
        return;
      }
      lock := Some(c);
      calls := calls[c := Sending(nextTurn, 0)];
      nextTurn := nextTurn + 1;
    }

    method SendNext(c: nat)
      requires Enabled(State(), cfg, thread, c) && calls[c].Sending?
      modifies this
      ensures State() == CallStep(old(State()), cfg, thread, c)
    {
      var stage := calls[c];
      var script := Script(cfg, thread, stage.turn);
      if stage.next < |script| {
        Put(script[stage.next]);
        calls := calls[c := Sending(stage.turn, stage.next + 1)];
      } else {
        lock := None;
        calls := calls[c := Returned];
      }
    }

    method SwapFlag(c: nat)
      requires Enabled(State(), cfg, thread, c) && calls[c] == Aborting
      modifies this
      ensures State() == CallStep(old(State()), cfg, thread, c)
    {
      var was := aborted;
      aborted := true;
      calls := calls[c := if was then Returned else WantsCancel];
    }

    method LockForCancel(c: nat)
      requires Enabled(State(), cfg, thread, c) && calls[c] == WantsCancel
      modifies this
      ensures State() == CallStep(old(State()), cfg, thread, c)
    {
      if !sender {
        calls := calls[c := Returned];
        return;
      }
      lock := Some(c);
      sender := false;
      calls := calls[c := SendingCancel(nextTurn)];
      nextTurn := nextTurn + 1;
    }

    method SendCancelled(c: nat)
      requires Enabled(State(), cfg, thread, c) && calls[c].SendingCancel?
      modifies this
      ensures State() == CallStep(old(State()), cfg, thread, c)
    {
      Put(CancelEvent(thread, calls[c].turn));
      lock := None;
      calls := calls[c := Returned];
    }
  }

  // ---------------------------------------------------------------------------
  // Interleavings
  // ---------------------------------------------------------------------------

  datatype Action =
    | ContinueTurn(call: nat)
    | Abort(call: nat)
    | Step(call: nat)
    | Receive
    | HangUp

  predicate Possible(s: MockState, cfg: Config, thread: nat, a: Action) {
    match a
    case ContinueTurn(c) => c !in s.calls
    case Abort(c) => c !in s.calls
    case Step(c) => Enabled(s, cfg, thread, c)
    case Receive => s.receiving && s.queue != []
    case HangUp => s.receiving
  }

  function Perform(s: MockState, cfg: Config, thread: nat, a: Action): MockState
    requires Possible(s, cfg, thread, a)
  {
    match a
    case ContinueTurn(c) => s.(calls := s.calls[c := Continuing])
    case Abort(c) => s.(calls := s.calls[c := Aborting])
    case Step(c) => CallStep(s, cfg, thread, c)
    case Receive => s.(queue := s.queue[1..], delivered := s.delivered + [s.queue[0]])
    case HangUp => s.(receiving := false, queue := [])
  }

  predicate Interleaving(s: MockState, cfg: Config, thread: nat, actions: seq<Action>)
    decreases |actions|
  {
    actions == [] ||
    (Possible(s, cfg, thread, actions[0])
     && Interleaving(Perform(s, cfg, thread, actions[0]), cfg, thread, actions[1..]))
  }

  function Run(s: MockState, cfg: Config, thread: nat, actions: seq<Action>): MockState
    requires Interleaving(s, cfg, thread, actions)
    decreases |actions|
  {
    if actions == [] then s else Run(Perform(s, cfg, thread, actions[0]), cfg, thread, actions[1..])
  }

  /** The complete scripts of turns 1 to `n`. */
  function Turns(cfg: Config, thread: nat, n: nat): seq<AgentEvent> {
    if n == 0 then [] else Turns(cfg, thread, n - 1) + Script(cfg, thread, n)
  }

  /** Whether a call is inside its critical section. */
  predicate Inside(stage: Stage) {
    stage.Sending? || stage.SendingCancel?
  }

  /** Exactly the lock holder is inside. */
  predicate LockHeld(s: MockState) {
    && (s.lock.Some? ==> s.lock.value in s.calls)
    && (forall c | c in s.calls :: Inside(s.calls[c]) <==> s.lock == Some(c))
  }

  /** What has been sent, from the lock holder's stage and the sender. */
  predicate SentExactly(s: MockState, cfg: Config, thread: nat)
    requires LockHeld(s)
  {
    s.nextTurn >= 2 &&
    var n := s.nextTurn - 1;
    if s.lock.Some? then
      match s.calls[s.lock.value]
      case Sending(turn, next) =>
        && s.sender && turn == n && next <= |Script(cfg, thread, n)|
        && s.sent == Turns(cfg, thread, n - 1) + Script(cfg, thread, n)[..next]
      case SendingCancel(turn) => !s.sender && turn == n && s.sent == Turns(cfg, thread, n - 1)
      case _ => false
    else if s.sender then s.sent == Turns(cfg, thread, n)
    else s.sent == Turns(cfg, thread, n - 1) + [CancelEvent(thread, n)]
  }

  /** While the receiver listens it has or will get everything sent; afterwards it
      has a beginning of it. */
  predicate Received(s: MockState) {
    if s.receiving then s.delivered + s.queue == s.sent && |s.queue| <= CHANNEL_CAPACITY
    else s.queue == [] && s.delivered <= s.sent
  }

  /** The flag is set exactly when the sender is gone or somebody is about to take it. */
  predicate FlagMeansCancel(s: MockState) {
    && (!s.sender ==> s.aborted)
    && (s.aborted && s.sender ==> exists c :: c in s.calls && s.calls[c] == WantsCancel)
    && (!s.aborted ==> forall c | c in s.calls :: s.calls[c] != WantsCancel)
  }

  predicate Sound(s: MockState, cfg: Config, thread: nat) {
    LockHeld(s) && SentExactly(s, cfg, thread) && Received(s) && FlagMeansCancel(s)
  }

  lemma BegunIsSound(cfg: Config, thread: nat)
    ensures Sound(Begun(cfg, thread), cfg, thread)
  {
    assert Turns(cfg, thread, 0) + Script(cfg, thread, 1) == Script(cfg, thread, 1);
  }

  lemma StepKeepsLock(s: MockState, cfg: Config, thread: nat, c: nat)
    requires LockHeld(s) && Enabled(s, cfg, thread, c)
    ensures LockHeld(CallStep(s, cfg, thread, c))
  {
  }

  lemma SendKeepsReceived(s: MockState, e: AgentEvent)
    requires Received(s) && CanSend(s)
    ensures Received(Send(s, e))
  {
    if s.receiving {
      assert s.delivered + (s.queue + [e]) == (s.delivered + s.queue) + [e];
    }
  }

  lemma StepKeepsReceived(s: MockState, cfg: Config, thread: nat, c: nat)
    requires Received(s) && Enabled(s, cfg, thread, c)
    ensures Received(CallStep(s, cfg, thread, c))
  {
    match s.calls[c] {
      case Sending(turn, next) =>
        if next < |Script(cfg, thread, turn)| {
          SendKeepsReceived(s, Script(cfg, thread, turn)[next]);
        }
      case SendingCancel(turn) => SendKeepsReceived(s, CancelEvent(thread, turn));
      case _ =>
    }
  }

  lemma StepKeepsFlag(s: MockState, cfg: Config, thread: nat, c: nat)
    requires FlagMeansCancel(s) && Enabled(s, cfg, thread, c)
    ensures FlagMeansCancel(CallStep(s, cfg, thread, c))
  {
    var s' := CallStep(s, cfg, thread, c);
    if s.aborted && s.sender && s'.sender {
      var w :| w in s.calls && s.calls[w] == WantsCancel;
      assert w != c;
      assert s'.calls[w] == WantsCancel;
    } else if !s.aborted && s'.aborted {
      assert s'.calls[c] == WantsCancel;
    }
  }

  lemma StepKeepsSent(s: MockState, cfg: Config, thread: nat, c: nat)
    requires LockHeld(s) && SentExactly(s, cfg, thread) && Enabled(s, cfg, thread, c)
    requires LockHeld(CallStep(s, cfg, thread, c))
    ensures SentExactly(CallStep(s, cfg, thread, c), cfg, thread)
  {
    match s.calls[c] {
      case Sending(turn, next) =>
        assert Inside(s.calls[c]);
        SendingKeepsSent(s, cfg, thread, c, turn, next);
      case SendingCancel(turn) =>
        assert Inside(s.calls[c]);
        CancelKeepsSent(s, cfg, thread, c, turn);
      case WantsTurn => TurnStartKeepsSent(s, cfg, thread, c);
      case WantsCancel => CancelStartKeepsSent(s, cfg, thread, c);
      case Continuing =>
        assert !Inside(s.calls[c]);
        OtherCallKeepsSent(s, CallStep(s, cfg, thread, c), cfg, thread);
      case Aborting =>
        assert !Inside(s.calls[c]);
        OtherCallKeepsSent(s, CallStep(s, cfg, thread, c), cfg, thread);
      case Returned =>
    }
  }

  lemma SendingKeepsSent(s: MockState, cfg: Config, thread: nat, c: nat, turn: nat, next: nat)
    requires LockHeld(s) && SentExactly(s, cfg, thread) && Enabled(s, cfg, thread, c)
    requires s.calls[c] == Sending(turn, next) && s.lock == Some(c)
    requires LockHeld(CallStep(s, cfg, thread, c))
    ensures SentExactly(CallStep(s, cfg, thread, c), cfg, thread)
  {
    var script := Script(cfg, thread, turn);
    if next < |script| {
      assert script[..next + 1] == script[..next] + [script[next]];
    } else {
      assert script[..next] == script;
    }
  }

  lemma CancelKeepsSent(s: MockState, cfg: Config, thread: nat, c: nat, turn: nat)
    requires LockHeld(s) && SentExactly(s, cfg, thread) && Enabled(s, cfg, thread, c)
    requires s.calls[c] == SendingCancel(turn) && s.lock == Some(c)
    requires LockHeld(CallStep(s, cfg, thread, c))
    ensures SentExactly(CallStep(s, cfg, thread, c), cfg, thread)
  {
  }

  lemma TurnStartKeepsSent(s: MockState, cfg: Config, thread: nat, c: nat)
    requires LockHeld(s) && SentExactly(s, cfg, thread) && Enabled(s, cfg, thread, c)
    requires s.calls[c] == WantsTurn
    requires LockHeld(CallStep(s, cfg, thread, c))
    ensures SentExactly(CallStep(s, cfg, thread, c), cfg, thread)
  {
    var sent := Turns(cfg, thread, s.nextTurn - 1);
    assert sent + Script(cfg, thread, s.nextTurn)[..0] == sent;
  }

  lemma CancelStartKeepsSent(s: MockState, cfg: Config, thread: nat, c: nat)
    requires LockHeld(s) && SentExactly(s, cfg, thread) && Enabled(s, cfg, thread, c)
    requires s.calls[c] == WantsCancel
    requires LockHeld(CallStep(s, cfg, thread, c))
    ensures SentExactly(CallStep(s, cfg, thread, c), cfg, thread)
  {
  }

  /** A step of a call outside the lock that touches neither lock nor stream. */
  lemma OtherCallKeepsSent(s: MockState, s': MockState, cfg: Config, thread: nat)
    requires LockHeld(s) && LockHeld(s') && SentExactly(s, cfg, thread)
    requires s'.lock == s.lock && s'.sender == s.sender && s'.nextTurn == s.nextTurn && s'.sent == s.sent
    requires s.lock.Some? ==> s'.calls[s.lock.value] == s.calls[s.lock.value]
    ensures SentExactly(s', cfg, thread)
  {
  }

  lemma StepKeepsSound(s: MockState, cfg: Config, thread: nat, c: nat)
    requires Sound(s, cfg, thread) && Enabled(s, cfg, thread, c)
    ensures Sound(CallStep(s, cfg, thread, c), cfg, thread)
  {
    StepKeepsLock(s, cfg, thread, c);
    StepKeepsSent(s, cfg, thread, c);
    StepKeepsReceived(s, cfg, thread, c);
    StepKeepsFlag(s, cfg, thread, c);
  }

  /** A new call touches neither the lock holder nor the stream. */
  lemma StartKeepsSound(s: MockState, cfg: Config, thread: nat, c: nat, stage: Stage)
    requires Sound(s, cfg, thread) && c !in s.calls && (stage == Continuing || stage == Aborting)
    ensures Sound(s.(calls := s.calls[c := stage]), cfg, thread)
  {
    StartKeepsFlag(s, c, stage);
    OtherCallKeepsSent(s, s.(calls := s.calls[c := stage]), cfg, thread);
  }

  /** What the receiver does changes the queue and what was delivered, nothing else. */
  lemma ReceiverKeepsSound(s: MockState, cfg: Config, thread: nat, receiving: bool, queue: seq<AgentEvent>,
                           delivered: seq<AgentEvent>)
    requires Sound(s, cfg, thread)
    requires Received(s.(receiving := receiving, queue := queue, delivered := delivered))
    ensures Sound(s.(receiving := receiving, queue := queue, delivered := delivered), cfg, thread)
  {
    var s' := s.(receiving := receiving, queue := queue, delivered := delivered);
    OtherCallKeepsSent(s, s', cfg, thread);
  }

  lemma ReceiveKeepsReceived(s: MockState)
    requires Received(s) && s.receiving && s.queue != []
    ensures Received(s.(queue := s.queue[1..], delivered := s.delivered + [s.queue[0]]))
  {
    assert s.queue == [s.queue[0]] + s.queue[1..];
  }

  lemma HangUpKeepsReceived(s: MockState)
    requires Received(s) && s.receiving
    ensures Received(s.(receiving := false, queue := []))
  {
  }

  lemma ActionKeepsSound(s: MockState, cfg: Config, thread: nat, a: Action)
    requires Sound(s, cfg, thread) && Possible(s, cfg, thread, a)
    ensures Sound(Perform(s, cfg, thread, a), cfg, thread)
  {
    match a {
      case Step(c) => StepKeepsSound(s, cfg, thread, c);
      case ContinueTurn(c) => StartKeepsSound(s, cfg, thread, c, Continuing);
      case Abort(c) => StartKeepsSound(s, cfg, thread, c, Aborting);
      case Receive =>
        ReceiveKeepsReceived(s);
        ReceiverKeepsSound(s, cfg, thread, s.receiving, s.queue[1..], s.delivered + [s.queue[0]]);
      case HangUp =>
        HangUpKeepsReceived(s);
        ReceiverKeepsSound(s, cfg, thread, false, [], s.delivered);
    }
  }

  lemma StartKeepsFlag(s: MockState, c: nat, stage: Stage)
    requires FlagMeansCancel(s) && c !in s.calls && stage != WantsCancel
    ensures FlagMeansCancel(s.(calls := s.calls[c := stage]))
  {
    if s.aborted && s.sender {
      var w :| w in s.calls && s.calls[w] == WantsCancel;
      assert s.calls[c := stage][w] == WantsCancel;
    }
  }

  /** Every interleaving sends whole turns 1, 2, 3, ... one after the other, and
      after them at most one cancellation, which is last. */
  lemma {:induction false} EveryInterleavingIsSound(s: MockState, cfg: Config, thread: nat, actions: seq<Action>)
    requires Sound(s, cfg, thread) && Interleaving(s, cfg, thread, actions)
    ensures Sound(Run(s, cfg, thread, actions), cfg, thread)
    decreases |actions|
  {
    if actions != [] {
      ActionKeepsSound(s, cfg, thread, actions[0]);
      EveryInterleavingIsSound(Perform(s, cfg, thread, actions[0]), cfg, thread, actions[1..]);
    }
  }

  /** Once every call has returned, the stream holds whole turns, followed by the
      cancellation exactly if somebody aborted. */
  lemma QuietSession(cfg: Config, thread: nat, actions: seq<Action>)
    requires Interleaving(Begun(cfg, thread), cfg, thread, actions)
    requires forall c :: c in Run(Begun(cfg, thread), cfg, thread, actions).calls ==>
               Run(Begun(cfg, thread), cfg, thread, actions).calls[c] == Returned
    ensures var s := Run(Begun(cfg, thread), cfg, thread, actions);
            s.nextTurn >= 2 &&
            var n := s.nextTurn - 1;
            && s.sent == (if s.aborted then Turns(cfg, thread, n - 1) + [CancelEvent(thread, n)]
                          else Turns(cfg, thread, n))
            && s.sender == !s.aborted
  {
    BegunIsSound(cfg, thread);
    EveryInterleavingIsSound(Begun(cfg, thread), cfg, thread, actions);
  }

  // ---------------------------------------------------------------------------
  // Session ids
  // ---------------------------------------------------------------------------

  lemma SessionsDiffer(threadA: nat, turnA: nat, threadB: nat, turnB: nat)
    requires TurnSession(threadA, turnA) == TurnSession(threadB, turnB)
    ensures threadA == threadB && turnA == turnB
  {
    var (a, b) := (Decimal(threadA), Decimal(threadB));
    var (x, y) := (Decimal(turnA), Decimal(turnB));
    DecimalReadsBack(threadA);
    DecimalReadsBack(threadB);
    var s, t := TurnSession(threadA, turnA), TurnSession(threadB, turnB);
    assert s == "mock-th-" + (a + ("-tn-" + x));
    assert t == "mock-th-" + (b + ("-tn-" + y));
    assert s[8..] == a + ("-tn-" + x) && t[8..] == b + ("-tn-" + y);
    SameNumberBeforeDash(a, "-tn-" + x, b, "-tn-" + y);
    assert ("-tn-" + x)[4..] == x && ("-tn-" + y)[4..] == y;
    DecimalInjective(threadA, threadB);
    DecimalInjective(turnA, turnB);
  }

  lemma SameNumberBeforeDash(a: string, x: string, b: string, y: string)
    requires AllDigits(a) && AllDigits(b) && x != "" && y != "" && x[0] == '-' && y[0] == '-'
    requires a + x == b + y
    ensures a == b && x == y
  {
    assert forall i | 0 <= i < |a| :: IsDigit((a + x)[i]);
    assert forall i | 0 <= i < |b| :: IsDigit((b + y)[i]);
    assert (a + x)[|a|] == '-' && (b + y)[|b|] == '-';
    assert a == (a + x)[..|a|] && b == (b + y)[..|b|];
    assert x == (a + x)[|a|..] && y == (b + y)[|b|..];
  }

  lemma ScriptKeepsContract(cfg: Config, thread: nat, turn: nat)
    ensures ContractKept(Script(cfg, thread, turn))
    ensures forall e | e in Script(cfg, thread, turn) :: e.session == TurnSession(thread, turn)
  {
  }

  lemma {:induction false} TurnsKeepContract(cfg: Config, thread: nat, n: nat)
    ensures ContractKept(Turns(cfg, thread, n))
    ensures forall e | e in Turns(cfg, thread, n) :: exists k | 1 <= k <= n :: e.session == TurnSession(thread, k)
  {
    if n > 0 {
      TurnsKeepContract(cfg, thread, n - 1);
      ScriptKeepsContract(cfg, thread, n);
      NextTurnIsFresh(cfg, thread, n, Script(cfg, thread, n));
    }
  }

  /** Events of turn `n` share no session id with the turns before it. */
  lemma NextTurnIsFresh(cfg: Config, thread: nat, n: nat, es: seq<AgentEvent>)
    requires n > 0 && ContractKept(Turns(cfg, thread, n - 1)) && ContractKept(es)
    requires forall e | e in Turns(cfg, thread, n - 1) ::
               exists k | 1 <= k <= n - 1 :: e.session == TurnSession(thread, k)
    requires forall e | e in es :: e.session == TurnSession(thread, n)
    ensures ContractKept(Turns(cfg, thread, n - 1) + es)
  {
    forall x, y | x in Turns(cfg, thread, n - 1) && y in es
      ensures x.session != y.session
    {
      var k :| 1 <= k <= n - 1 && x.session == TurnSession(thread, k);
      if x.session == y.session {
        SessionsDiffer(thread, k, thread, n);
      }
    }
    ContractOfConcat(Turns(cfg, thread, n - 1), es);
  }

  /** In every interleaving, at every moment, no session id has an event after its
      terminal one: neither among the events sent nor among those delivered. */
  lemma ContractHolds(cfg: Config, thread: nat, actions: seq<Action>)
    requires Interleaving(Begun(cfg, thread), cfg, thread, actions)
    ensures ContractKept(Run(Begun(cfg, thread), cfg, thread, actions).sent)
    ensures ContractKept(Run(Begun(cfg, thread), cfg, thread, actions).delivered)
  {
    BegunIsSound(cfg, thread);
    EveryInterleavingIsSound(Begun(cfg, thread), cfg, thread, actions);
    var s := Run(Begun(cfg, thread), cfg, thread, actions);
    SoundKeepsContract(s, cfg, thread);
    ContractOfPrefix(s.delivered, s.sent);
  }

  lemma SoundKeepsContract(s: MockState, cfg: Config, thread: nat)
    requires Sound(s, cfg, thread)
    ensures ContractKept(s.sent)
  {
    var n := s.nextTurn - 1;
    TurnsKeepContract(cfg, thread, n);
    TurnsKeepContract(cfg, thread, n - 1);
    ScriptKeepsContract(cfg, thread, n);
    if s.lock.Some? && s.calls[s.lock.value].Sending? {
      var next := s.calls[s.lock.value].next;
      ContractOfPrefix(Script(cfg, thread, n)[..next], Script(cfg, thread, n));
      NextTurnIsFresh(cfg, thread, n, Script(cfg, thread, n)[..next]);
    } else if s.lock.None? && !s.sender {
      NextTurnIsFresh(cfg, thread, n, [CancelEvent(thread, n)]);
    }
  }
}
