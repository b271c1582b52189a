/**
 The stream of a mock session as its consumer reads it, stated without the session's own
 scripts, and what the calls contribute to it.
 */
module MockStream {
  import opened Prelude
  import opened AgentEvents
  import opened MockSession
  import opened MockProgress

  // ---------------------------------------------------------------------------
  // Reading a stream
  // ---------------------------------------------------------------------------

  function TurnLength(cfg: Config): nat {
    if cfg.usage.Some? then 4 else 3
  }

  /** One turn: started for the issue, the configured message by the assistant, the usage
      exactly if configured, completed with success, all under one session id. */
  predicate ReadsTurn(es: seq<AgentEvent>, cfg: Config, id: string) {
    && |es| == TurnLength(cfg)
    && es[0] == Started(id, cfg.issue)
    && es[1] == Message(id, "assistant", cfg.message)
    && (cfg.usage.Some? ==> es[2] == Usage(id, cfg.usage.value))
    && es[|es| - 1] == Completed(id, Success)
  }

  function Id(thread: nat, k: nat): string {
    "mock-th-" + Decimal(thread) + "-tn-" + Decimal(k)
  }

  /** Turns from the `k`-th on, and a cancellation at the end exactly if `aborted`. */
  predicate ReadsFrom(es: seq<AgentEvent>, cfg: Config, thread: nat, k: nat, aborted: bool)
    decreases |es|
  {
    if es == [] then !aborted
    else if |es| == 1 then aborted && es[0] == Completed(Id(thread, k), Cancelled)
    else
      TurnLength(cfg) <= |es| && ReadsTurn(es[..TurnLength(cfg)], cfg, Id(thread, k))
      && ReadsFrom(es[TurnLength(cfg)..], cfg, thread, k + 1, aborted)
  }

  lemma ScriptReads(cfg: Config, thread: nat, k: nat)
    ensures ReadsTurn(Script(cfg, thread, k), cfg, Id(thread, k))
    ensures TurnSession(thread, k) == Id(thread, k)
  {
    var (a, b) := ("mock-th-" + Decimal(thread), "tn-" + Decimal(k));
    assert SessionId(a, b) == a + "-" + b;
    assert a + "-" + b == a + "-tn-" + Decimal(k);
  }

  lemma TurnInFront(cfg: Config, thread: nat, k: nat, rest: seq<AgentEvent>, aborted: bool)
    requires ReadsFrom(rest, cfg, thread, k + 1, aborted)
    ensures ReadsFrom(Script(cfg, thread, k) + rest, cfg, thread, k, aborted)
  {
    var script := Script(cfg, thread, k);
    ScriptReads(cfg, thread, k);
    assert (script + rest)[..|script|] == script && (script + rest)[|script|..] == rest;
  }

  /** Turns 1 to `n` in front of a stream that goes on with turn `n + 1`. */
  lemma {:induction false} TurnsInFront(cfg: Config, thread: nat, n: nat, rest: seq<AgentEvent>, aborted: bool)
    requires ReadsFrom(rest, cfg, thread, n + 1, aborted)
    ensures ReadsFrom(Turns(cfg, thread, n) + rest, cfg, thread, 1, aborted)
    decreases n
  {
    if n == 0 {
      assert [] + rest == rest;
    } else {
      TurnInFront(cfg, thread, n, rest, aborted);
      TurnsInFront(cfg, thread, n - 1, Script(cfg, thread, n) + rest, aborted);
      Regroup(Turns(cfg, thread, n - 1), Script(cfg, thread, n), rest);
    }
  }

  lemma {:induction false} TurnsSize(cfg: Config, thread: nat, n: nat)
    ensures |Turns(cfg, thread, n)| == n * TurnLength(cfg)
  {
    if n > 0 {
      TurnsSize(cfg, thread, n - 1);
      ScriptReads(cfg, thread, n);
    }
  }

  // ---------------------------------------------------------------------------
  // Aborting
  // ---------------------------------------------------------------------------

  ghost predicate AbortCalled(actions: seq<Action>) {
    exists c :: Action.Abort(c) in actions
  }

  predicate BeingAborted(s: MockState) {
    s.aborted || exists c :: c in s.calls && s.calls[c] == Aborting
  }

  lemma StepKeepsAborting(s: MockState, cfg: Config, thread: nat, a: Action)
    requires Possible(s, cfg, thread, a)
    ensures BeingAborted(Perform(s, cfg, thread, a)) <==> BeingAborted(s) || a.Abort?
  {
    var s' := Perform(s, cfg, thread, a);
    if BeingAborted(s) && !s'.aborted {
      var c :| c in s.calls && s.calls[c] == Aborting;
      assert s'.calls[c] == Aborting;
    }
    if a.Abort? {
      assert s'.calls[a.call] == Aborting;
    }
    if BeingAborted(s') && !s'.aborted && !a.Abort? {
      var c :| c in s'.calls && s'.calls[c] == Aborting;
      assert c in s.calls && s.calls[c] == Aborting;
    }
  }

  lemma {:induction false} AbortingExactlyIfCalled(s: MockState, cfg: Config, thread: nat, actions: seq<Action>)
    requires Interleaving(s, cfg, thread, actions)
    ensures BeingAborted(Run(s, cfg, thread, actions)) <==> BeingAborted(s) || AbortCalled(actions)
    decreases |actions|
  {
    if actions != [] {
      StepKeepsAborting(s, cfg, thread, actions[0]);
      AbortingExactlyIfCalled(Perform(s, cfg, thread, actions[0]), cfg, thread, actions[1..]);
      AbortAtFront(actions);
    }
  }

  lemma AbortAtFront(actions: seq<Action>)
    requires actions != []
    ensures AbortCalled(actions) <==> actions[0].Abort? || AbortCalled(actions[1..])
  {
    assert actions == [actions[0]] + actions[1..];
    if actions[0].Abort? {
      assert Action.Abort(actions[0].call) in actions;
    } else if c :| Action.Abort(c) in actions {
      assert Action.Abort(c) in actions[1..];
    }
  }

  // ---------------------------------------------------------------------------
  // The stream of a finished session
  // ---------------------------------------------------------------------------

  lemma SentReads(cfg: Config, thread: nat, n: nat, aborted: bool)
    requires n >= 1
    ensures ReadsFrom(if aborted then Turns(cfg, thread, n - 1) + [CancelEvent(thread, n)] else Turns(cfg, thread, n),
                      cfg, thread, 1, aborted)
  {
    ScriptReads(cfg, thread, n);
    if aborted {
      TurnsInFront(cfg, thread, n - 1, [CancelEvent(thread, n)], true);
    } else {
      TurnsInFront(cfg, thread, n, [], false);
      assert Turns(cfg, thread, n) + [] == Turns(cfg, thread, n);
    }
  }

  /** What a listening receiver got when nothing can move any more: turns 1, 2, ... as
      configured, at least one, and a cancellation last exactly if `abort` was called. */
  lemma FinishedStreamReads(cfg: Config, thread: nat, actions: seq<Action>)
    requires Interleaving(Begun(cfg, thread), cfg, thread, actions)
    requires forall a | Moves(a) :: !Possible(Run(Begun(cfg, thread), cfg, thread, actions), cfg, thread, a)
    requires Run(Begun(cfg, thread), cfg, thread, actions).receiving
    ensures var got := Run(Begun(cfg, thread), cfg, thread, actions).delivered;
            ReadsFrom(got, cfg, thread, 1, AbortCalled(actions)) && |got| >= TurnLength(cfg)
  {
    var s := Run(Begun(cfg, thread), cfg, thread, actions);
    StuckMeansDelivered(cfg, thread, actions);
    AbortingExactlyIfCalled(Begun(cfg, thread), cfg, thread, actions);
    assert forall c :: c in s.calls ==> s.calls[c] == Returned;
    QuietSession(cfg, thread, actions);
    SentReads(cfg, thread, s.nextTurn - 1, s.aborted);
    FirstTurnSent(cfg, thread, actions);
    TurnsSize(cfg, thread, s.nextTurn - 1);
    TurnsSize(cfg, thread, s.nextTurn - 2);
    AtLeastOneTurn(s.nextTurn - 2, s.nextTurn - 1, TurnLength(cfg), s.aborted);
  }

  lemma AtLeastOneTurn(m: nat, n: nat, length: nat, aborted: bool)
    requires n == m + 1 && (aborted ==> m >= 1)
    ensures (if aborted then m * length + 1 else n * length) >= length
  {
    if aborted {
      assert m * length >= 1 * length;
    } else {
      assert n * length >= 1 * length;
    }
  }

  /** Turn numbers: the first turn is always there, before any cancellation. */
  predicate TurnsBegun(s: MockState) {
    s.nextTurn >= (if s.sender then 2 else 3)
  }

  lemma {:induction false} TurnsStayBegun(s: MockState, cfg: Config, thread: nat, actions: seq<Action>)
    requires TurnsBegun(s) && Interleaving(s, cfg, thread, actions)
    ensures TurnsBegun(Run(s, cfg, thread, actions))
    decreases |actions|
  {
    if actions != [] {
      TurnsStayBegun(Perform(s, cfg, thread, actions[0]), cfg, thread, actions[1..]);
    }
  }

  lemma FirstTurnSent(cfg: Config, thread: nat, actions: seq<Action>)
    requires Interleaving(Begun(cfg, thread), cfg, thread, actions)
    ensures TurnsBegun(Run(Begun(cfg, thread), cfg, thread, actions))
    ensures var s := Run(Begun(cfg, thread), cfg, thread, actions);
            s.nextTurn >= 2 && (s.sender || s.nextTurn >= 3)
  {
    TurnsStayBegun(Begun(cfg, thread), cfg, thread, actions);
  }

  // ---------------------------------------------------------------------------
  // What a call contributes
  // ---------------------------------------------------------------------------

  /** A call that has not looked at the flag, or has already returned. */
  predicate Harmless(stage: Stage) {
    stage == Continuing || stage == Aborting || stage == Returned
  }

  lemma StepStaysHarmless(s: MockState, cfg: Config, thread: nat, a: Action, c: nat)
    requires s.aborted && (c in s.calls ==> Harmless(s.calls[c])) && Possible(s, cfg, thread, a)
    ensures var s' := Perform(s, cfg, thread, a);
            s'.aborted && (c in s'.calls ==> Harmless(s'.calls[c]))
  {
  }

  /** A call that reads the flag after it was set does nothing: it never takes the lock and
      never sends, be it a `continue_turn` or another `abort`. */
  lemma {:induction false} CallsAfterAbortDoNothing(s: MockState, cfg: Config, thread: nat, actions: seq<Action>,
                                                    c: nat)
    requires s.aborted && (c in s.calls ==> Harmless(s.calls[c])) && Interleaving(s, cfg, thread, actions)
    ensures var end := Run(s, cfg, thread, actions);
            end.aborted && (c in end.calls ==> Harmless(end.calls[c]))
    decreases |actions|
  {
    if actions != [] {
      StepStaysHarmless(s, cfg, thread, actions[0], c);
      CallsAfterAbortDoNothing(Perform(s, cfg, thread, actions[0]), cfg, thread, actions[1..], c);
    }
  }

  /** A `continue_turn` whose turn has not begun. */
  function Waiting(stage: Stage): nat {
    if stage == Continuing || stage == WantsTurn then 1 else 0
  }

  function Continues(actions: seq<Action>): nat {
    if actions == [] then 0 else (if actions[0].ContinueTurn? then 1 else 0) + Continues(actions[1..])
  }

  /** The turns begun and the turns still to begin. */
  ghost function TurnsInAll(s: MockState): nat {
    s.nextTurn + Sum(s.calls, s.calls.Keys, Waiting)
  }

  lemma StageCounts(calls: map<nat, Stage>, c: nat, stage: Stage)
    ensures c in calls ==> Sum(calls[c := stage], calls[c := stage].Keys, Waiting) + Waiting(calls[c])
                           == Sum(calls, calls.Keys, Waiting) + Waiting(stage)
    ensures c !in calls ==> Sum(calls[c := stage], calls[c := stage].Keys, Waiting)
                            == Sum(calls, calls.Keys, Waiting) + Waiting(stage)
  {
    var next := calls[c := stage];
    if c in calls {
      SumOfUpdate(calls, c, stage, Waiting);
      assert next.Keys == calls.Keys;
    } else {
      SumTakeOut(next, next.Keys, c, Waiting);
      assert next.Keys - {c} == calls.Keys;
      SumOfAgreeing(calls, next, calls.Keys, Waiting);
    }
  }

  lemma QuietStepCounts(s: MockState, cfg: Config, thread: nat, a: Action)
    requires !BeingAborted(s) && s.sender && FlagMeansCancel(s) && Possible(s, cfg, thread, a) && !a.Abort?
    ensures s.calls.Keys <= Perform(s, cfg, thread, a).calls.Keys
    ensures Perform(s, cfg, thread, a).sender
    ensures TurnsInAll(Perform(s, cfg, thread, a)) == TurnsInAll(s) + if a.ContinueTurn? then 1 else 0
  {
    match a {
      case ContinueTurn(c) => StageCounts(s.calls, c, Continuing);
      case Step(c) =>
        assert s.calls[c] != WantsCancel && s.calls[c] != Aborting;
        StageCounts(s.calls, c, CallStep(s, cfg, thread, c).calls[c]);
      case Receive =>
      case HangUp =>
    }
  }

  lemma {:induction false} QuietRunCounts(s: MockState, cfg: Config, thread: nat, actions: seq<Action>)
    requires Sound(s, cfg, thread) && s.sender && !BeingAborted(s) && NoCancelStage(s)
    requires Interleaving(s, cfg, thread, actions) && !AbortCalled(actions)
    ensures TurnsInAll(Run(s, cfg, thread, actions)) == TurnsInAll(s) + Continues(actions)
    decreases |actions|
  {
    if actions != [] {
      AbortAtFront(actions);
      QuietStepCounts(s, cfg, thread, actions[0]);
      ActionKeepsSound(s, cfg, thread, actions[0]);
      StepKeepsAborting(s, cfg, thread, actions[0]);
      QuietRunCounts(Perform(s, cfg, thread, actions[0]), cfg, thread, actions[1..]);
    }
  }

  predicate NoCancelStage(s: MockState) {
    forall c | c in s.calls :: s.calls[c] != WantsCancel && !s.calls[c].SendingCancel?
  }

  lemma {:induction false} NothingWaits(calls: map<nat, Stage>, keys: set<nat>)
    requires keys <= calls.Keys && forall c | c in keys :: calls[c] == Returned
    ensures Sum(calls, keys, Waiting) == 0
    decreases keys
  {
    if c :| c in keys {
      SumTakeOut(calls, keys, c, Waiting);
      NothingWaits(calls, keys - {c});
    }
  }

  /** Unless `abort` was called, every `continue_turn` gives exactly one turn: a finished
      stream holds one turn more than there were calls. */
  lemma EveryContinueGivesATurn(cfg: Config, thread: nat, actions: seq<Action>)
    requires Interleaving(Begun(cfg, thread), cfg, thread, actions) && !AbortCalled(actions)
    requires forall a | Moves(a) :: !Possible(Run(Begun(cfg, thread), cfg, thread, actions), cfg, thread, a)
    requires Run(Begun(cfg, thread), cfg, thread, actions).receiving
    ensures |Run(Begun(cfg, thread), cfg, thread, actions).delivered| == (1 + Continues(actions)) * TurnLength(cfg)
  {
    var s := Run(Begun(cfg, thread), cfg, thread, actions);
    BegunIsSound(cfg, thread);
    QuietRunCounts(Begun(cfg, thread), cfg, thread, actions);
    StuckMeansDelivered(cfg, thread, actions);
    AbortingExactlyIfCalled(Begun(cfg, thread), cfg, thread, actions);
    NothingWaits(s.calls, s.calls.Keys);
    TurnsSize(cfg, thread, 1 + Continues(actions));
  }

  /** At most eight events wait in the channel of a listening receiver, and a turn stops
      before its next event exactly while eight do. */
  lemma FullChannelHoldsTheTurn(s: MockState, cfg: Config, thread: nat, c: nat)
    requires Sound(s, cfg, thread) && c in s.calls && s.calls[c].Sending? && s.calls[c].next < TurnLength(cfg)
    ensures s.receiving ==> |s.queue| <= 8
    ensures Possible(s, cfg, thread, Step(c)) <==> !(s.receiving && |s.queue| == 8)
  {
    ScriptReads(cfg, thread, s.calls[c].turn);
  }
}
