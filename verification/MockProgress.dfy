/** Progress of the mock session: nothing can hang, and every schedule comes to an end. */
module MockProgress {
  import opened Prelude
  import opened MockSession

  /** A move of a call already made, or of the receiver; no new call and no hanging up. */
  predicate Moves(a: Action) {
    a.Step? || a.Receive?
  }

  predicate Unfinished(s: MockState) {
    exists c :: c in s.calls && s.calls[c] != Returned
  }

  // ---------------------------------------------------------------------------
  // Nothing hangs
  // ---------------------------------------------------------------------------

  /** While a call has not returned, it or the lock holder can move, or the receiver can
      take an event from the full channel. */
  lemma SomebodyCanMove(s: MockState, cfg: Config, thread: nat)
    requires Sound(s, cfg, thread) && Unfinished(s)
    ensures exists a :: Moves(a) && Possible(s, cfg, thread, a)
  {
    var c :| c in s.calls && s.calls[c] != Returned;
    if s.lock.Some? {
      var h := s.lock.value;
      assert Inside(s.calls[h]);
      if !Possible(s, cfg, thread, Step(h)) {
        assert s.receiving && s.queue != [];
        assert Possible(s, cfg, thread, Receive);
      }
    } else {
      assert !Inside(s.calls[c]);
      assert Possible(s, cfg, thread, Step(c));
    }
  }

  // ---------------------------------------------------------------------------
  // Every schedule ends
  // ---------------------------------------------------------------------------

  const LONGEST_SCRIPT: nat := 4

  /** The moves a call can still cause: its own steps and the receipt of what it sends. */
  function Left(stage: Stage): nat {
    match stage
    case Continuing => 2 * LONGEST_SCRIPT + 3
    case WantsTurn => 2 * LONGEST_SCRIPT + 2
    case Sending(_, next) => if next < LONGEST_SCRIPT then 2 * (LONGEST_SCRIPT - next) + 1 else 1
    case Aborting => 4
    case WantsCancel => 3
    case SendingCancel(_) => 2
    case Returned => 0
  }

  ghost function Work(s: MockState): nat {
    Sum(s.calls, s.calls.Keys, Left) + |s.queue|
  }

  lemma StepLowersStage(s: MockState, cfg: Config, thread: nat, c: nat)
    requires Enabled(s, cfg, thread, c)
    ensures var s' := CallStep(s, cfg, thread, c);
            c in s'.calls && s'.calls == s.calls[c := s'.calls[c]]
            && Left(s'.calls[c]) + |s'.queue| < Left(s.calls[c]) + |s.queue|
  {
  }

  /** Every move lowers the work that is left. */
  lemma MoveLowersWork(s: MockState, cfg: Config, thread: nat, a: Action)
    requires Moves(a) && Possible(s, cfg, thread, a)
    ensures Work(Perform(s, cfg, thread, a)) < Work(s)
  {
    if a.Step? {
      var s' := CallStep(s, cfg, thread, a.call);
      StepLowersStage(s, cfg, thread, a.call);
      SumOfUpdate(s.calls, a.call, s'.calls[a.call], Left);
      assert s'.calls.Keys == s.calls.Keys;
    }
  }

  /** No schedule of moves is longer than the work that was left. */
  lemma {:induction false} SchedulesEnd(s: MockState, cfg: Config, thread: nat, actions: seq<Action>)
    requires Interleaving(s, cfg, thread, actions) && forall a | a in actions :: Moves(a)
    ensures Work(Run(s, cfg, thread, actions)) + |actions| <= Work(s)
    decreases |actions|
  {
    if actions != [] {
      assert actions[0] in actions;
      MoveLowersWork(s, cfg, thread, actions[0]);
      SchedulesEnd(Perform(s, cfg, thread, actions[0]), cfg, thread, actions[1..]);
    }
  }

  /** A schedule that cannot go on has let every call return and, unless the receiver hung
      up, delivered everything: whole turns, and the cancellation last if somebody aborted. */
  lemma StuckMeansDelivered(cfg: Config, thread: nat, actions: seq<Action>)
    requires Interleaving(Begun(cfg, thread), cfg, thread, actions)
    requires forall a | Moves(a) :: !Possible(Run(Begun(cfg, thread), cfg, thread, actions), cfg, thread, a)
    ensures var s := Run(Begun(cfg, thread), cfg, thread, actions);
            var n := s.nextTurn - 1;
            && !Unfinished(s) && n >= 1
            && (s.receiving ==>
                  s.delivered == if s.aborted then Turns(cfg, thread, n - 1) + [CancelEvent(thread, n)]
                                 else Turns(cfg, thread, n))
  {
    var s := Run(Begun(cfg, thread), cfg, thread, actions);
    BegunIsSound(cfg, thread);
    EveryInterleavingIsSound(Begun(cfg, thread), cfg, thread, actions);
    if Unfinished(s) {
      SomebodyCanMove(s, cfg, thread);
    }
    QuietSession(cfg, thread, actions);
    assert !Possible(s, cfg, thread, Receive);
    assert s.receiving ==> s.delivered + [] == s.delivered;
  }

  // ---------------------------------------------------------------------------
  // Overlapping turns
  // ---------------------------------------------------------------------------

  lemma {:induction false} OneMore(s: MockState, cfg: Config, thread: nat, actions: seq<Action>, a: Action)
    requires Interleaving(s, cfg, thread, actions)
    requires Possible(Run(s, cfg, thread, actions), cfg, thread, a)
    ensures Interleaving(s, cfg, thread, actions + [a])
    ensures Run(s, cfg, thread, actions + [a]) == Perform(Run(s, cfg, thread, actions), cfg, thread, a)
    decreases |actions|
  {
    if actions == [] {
      assert [] + [a] == [a] && [a][1..] == [];
    } else {
      assert (actions + [a])[1..] == actions[1..] + [a];
      OneMore(Perform(s, cfg, thread, actions[0]), cfg, thread, actions[1..], a);
    }
  }

  /** Two overlapping `continue_turn` calls are no error: the second waits for the lock. */
  lemma OverlappingTurnWaits(cfg: Config, thread: nat) returns (actions: seq<Action>)
    ensures Interleaving(Begun(cfg, thread), cfg, thread, actions)
    ensures var s := Run(Begun(cfg, thread), cfg, thread, actions);
            s.calls == map[0 := Sending(2, 0), 1 := WantsTurn]
            && !Possible(s, cfg, thread, Step(1)) && Possible(s, cfg, thread, Step(0))
  {
    var s := Begun(cfg, thread);
    OneMore(s, cfg, thread, [], ContinueTurn(0));
    OneMore(s, cfg, thread, [] + [ContinueTurn(0)], ContinueTurn(1));
    actions := [] + [ContinueTurn(0)] + [ContinueTurn(1)];
    OneMore(s, cfg, thread, actions, Step(0));
    actions := actions + [Step(0)];
    OneMore(s, cfg, thread, actions, Step(1));
    actions := actions + [Step(1)];
    OneMore(s, cfg, thread, actions, Step(0));
    actions := actions + [Step(0)];
  }
}
