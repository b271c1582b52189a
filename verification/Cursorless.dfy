/**
 Connections opened without a cursor, as `symphony watch` opens every one of them:
 what the backlog rule sends, and when a chain of such connections has a gap.
 */
module Cursorless {
  import opened Prelude
  import opened DurableTail

  // ---------------------------------------------------------------------------
  // Which rows a connection can send
  // ---------------------------------------------------------------------------

  /** The run of some connection sends the row. */
  ghost predicate CanSend(log: seq<DurableEvent>, cursor: Option<int>, pageSize: nat, e: DurableEvent) {
    exists steps :: e in Emitted(Run(Opened(log, cursor), steps, pageSize).out)
  }

  /** A row that is in the log when a connection opens can be sent over it exactly when
      it lies above the chosen cursor. */
  lemma SentExactlyAbove(log: seq<DurableEvent>, cursor: Option<int>, pageSize: nat, e: DurableEvent)
    requires Ascending(log) && pageSize > 0 && e in log
    ensures CanSend(log, cursor, pageSize, e) <==> e.sequence > Cutoff(cursor)
  {
    OpenedIsGapFree(log, cursor);
    if e.sequence > Cutoff(cursor) {
      var n := |After(log, Cutoff(cursor))|;
      CatchesUp(Opened(log, cursor), cursor, n, pageSize);
      AfterMembers(log, Cutoff(cursor));
      assert e in Emitted(Run(Opened(log, cursor), Polls(n), pageSize).out);
    }
    if steps :| e in Emitted(Run(Opened(log, cursor), steps, pageSize).out) {
      SentIsAbove(log, cursor, steps, pageSize);
    }
  }

  /** Which rows a request brings: with a query parameter those above it, whatever the
      header and the head; else with a header those above it, whatever the head; else
      those above the head; and after a failed lookup of the head all of them. */
  lemma SentExactlyAboveCursor(log: seq<DurableEvent>, query: Option<int>, header: Option<int>,
                               head: Result<Option<int>, ()>, pageSize: nat, e: DurableEvent)
    requires Ascending(log) && pageSize > 0 && e in log
    ensures var sent := CanSend(log, ChooseCursor(query, header, head), pageSize, e);
            && (query.Some? ==> (sent <==> e.sequence > query.value))
            && (query.None? && header.Some? ==> (sent <==> e.sequence > header.value))
            && (query.None? && header.None? && head.Ok? && head.value.Some?
                ==> (sent <==> e.sequence > head.value.value))
            && (query.None? && header.None? && (head.Err? || head.value.None?) ==> sent)
  {
    SentExactlyAbove(log, ChooseCursor(query, header, head), pageSize, e);
    HeadIsHighest(log);
  }

  /** Nothing at or below the cursor is ever sent. */
  lemma SentIsAbove(log: seq<DurableEvent>, cursor: Option<int>, steps: seq<Step>, pageSize: nat)
    requires Ascending(log)
    ensures forall e | e in Emitted(Run(Opened(log, cursor), steps, pageSize).out) :: e.sequence > Cutoff(cursor)
  {
    OpenedIsGapFree(log, cursor);
    RunKeepsGapFree(Opened(log, cursor), cursor, steps, pageSize);
    var w := Run(Opened(log, cursor), steps, pageSize);
    AfterMembers(w.log, Cutoff(cursor));
    forall e | e in Emitted(w.out) ensures e in After(w.log, Cutoff(cursor)) {
    }
  }

  /** The answer to the lookup of the head, if it succeeds. */
  predicate HeadAnswer(log: seq<DurableEvent>, head: Result<Option<int>, ()>) {
    head.Ok? ==> head.value == LastSequence(log)
  }

  lemma HeadIsHighest(log: seq<DurableEvent>)
    requires Ascending(log)
    ensures forall e | e in log :: 0 < e.sequence <= Cutoff(LastSequence(log))
    ensures log != [] ==> log[|log| - 1].sequence == Cutoff(LastSequence(log))
  {
  }

  /** A connection opened without a cursor is spared the backlog exactly when the lookup
      of the head succeeded or there is no backlog: after a failed lookup the cursor is
      zero and the whole log can be sent. */
  lemma BacklogSkippedExactlyWhen(log: seq<DurableEvent>, head: Result<Option<int>, ()>, pageSize: nat)
    requires Ascending(log) && pageSize > 0 && HeadAnswer(log, head)
    ensures (forall e | e in log :: !CanSend(log, ChooseCursor(None, None, head), pageSize, e))
            <==> head.Ok? || log == []
  {
    HeadIsHighest(log);
    forall e | e in log
      ensures CanSend(log, ChooseCursor(None, None, head), pageSize, e) <==> head.Err?
    {
      SentExactlyAboveCursor(log, None, None, head, pageSize, e);
    }
    if log != [] {
      assert log[0] in log;
    }
  }

  lemma {:induction false} AllAfterZero(log: seq<DurableEvent>)
    requires Ascending(log)
    ensures After(log, 0) == log
  {
    if log != [] {
      AllAfterZero(log[..|log| - 1]);
    }
  }

  /** After a failed lookup, good polls replay the whole log to a client that may have
      seen all of it. */
  lemma FailedLookupReplays(log: seq<DurableEvent>, pageSize: nat)
    requires Ascending(log) && pageSize > 0
    ensures Emitted(Run(Opened(log, ChooseCursor(None, None, Err(()))), Polls(|log|), pageSize).out) == log
  {
    AllAfterZero(log);
    OpenedIsGapFree(log, None);
    CatchesUp(Opened(log, None), None, |log|, pageSize);
  }

  // ---------------------------------------------------------------------------
  // Reopening at the head
  // ---------------------------------------------------------------------------

  /** Connections opened one after the other, each without a cursor: the final log and
      everything that arrived. */
  function HeadChain(log: seq<DurableEvent>, sessions: seq<Session>, pageSize: nat)
    : (seq<DurableEvent>, seq<DurableEvent>)
    decreases |sessions|
  {
    if sessions == [] then (log, [])
    else
      var (log', seen) := Deliver(log, NO_CURSOR, sessions[0], pageSize);
      var (final, more) := HeadChain(log', sessions[1..], pageSize);
      (final, seen + more)
  }

  function Head(log: seq<DurableEvent>): int {
    Cutoff(LastSequence(log))
  }

  lemma HeadsAscend(log: seq<DurableEvent>, log': seq<DurableEvent>)
    requires log <= log' && Ascending(log')
    ensures Head(log) <= Head(log')
  {
    if log != [] {
      assert log'[|log| - 1] == log[|log| - 1];
    }
  }

  lemma {:induction false} HeadChainExtends(log: seq<DurableEvent>, sessions: seq<Session>, pageSize: nat)
    requires Ascending(log)
    ensures log <= HeadChain(log, sessions, pageSize).0 && Ascending(HeadChain(log, sessions, pageSize).0)
    decreases |sessions|
  {
    if sessions != [] {
      OneSession(log, NO_CURSOR, sessions[0], pageSize);
      HeadChainExtends(Deliver(log, NO_CURSOR, sessions[0], pageSize).0, sessions[1..], pageSize);
    }
  }

  /** What one connection brings: rows of the log as it is when the connection breaks, in
      order, and none the log had at the opening if the head was looked up. */
  lemma OneArrival(log: seq<DurableEvent>, session: Session, pageSize: nat)
    requires Ascending(log)
    ensures var (log', seen) := Deliver(log, NO_CURSOR, session, pageSize);
            && log <= log' && Ascending(log') && InOrder(seen, log')
            && (session.lookupOk ==> forall e | e in seen :: e.sequence > Head(log))
            && (!session.lookupOk ==> seen <= log')
  {
    var (log', seen) := Deliver(log, NO_CURSOR, session, pageSize);
    var start := Start(log, NO_CURSOR, session.lookupOk);
    OneSession(log, NO_CURSOR, session, pageSize);
    AfterAscends(log', start);
    PrefixAscends(seen, After(log', start));
    AfterMembers(log', start);
    forall e | e in seen ensures e in After(log', start) {
    }
    AllAfterZero(log');
  }

  // ---------------------------------------------------------------------------
  // When arrivals ascend
  // ---------------------------------------------------------------------------

  /** A session that delivers something after a failed lookup delivers before anything
      else has `arrived`. */
  predicate ReplaysComeFirst(arrived: bool, log: seq<DurableEvent>, sessions: seq<Session>, pageSize: nat)
    decreases |sessions|
  {
    sessions == [] ||
    var (log', seen) := Deliver(log, NO_CURSOR, sessions[0], pageSize);
    (seen == [] || sessions[0].lookupOk || !arrived)
    && ReplaysComeFirst(arrived || seen != [], log', sessions[1..], pageSize)
  }

  lemma JoinAscends(a: seq<DurableEvent>, b: seq<DurableEvent>, bound: int)
    requires Ascending(a) && Ascending(b)
    requires forall e | e in a :: e.sequence <= bound
    requires forall e | e in b :: e.sequence > bound
    ensures Ascending(a + b)
  {
    var c := a + b;
    forall i, j | 0 <= i < j < |c| ensures c[i].sequence < c[j].sequence {
      assert i < |a| ==> c[i] in a;
      assert j >= |a| ==> c[j] in b;
    }
  }

  /** The first row of a log, sent after any other of its rows, is out of order. */
  lemma ReplayDescends(log: seq<DurableEvent>, before: seq<DurableEvent>, seen: seq<DurableEvent>,
                       more: seq<DurableEvent>)
    requires Ascending(log) && before != [] && InOrder(before, log) && seen != [] && seen <= log
    ensures !Ascending(before + (seen + more))
  {
    var c := before + (seen + more);
    assert before[0] in before;
    assert c[0] == before[0] && c[|before|] == log[0];
    assert before[0].sequence >= log[0].sequence;
  }

  predicate InOrder(rows: seq<DurableEvent>, log: seq<DurableEvent>) {
    Ascending(rows) && forall e | e in rows :: e in log
  }

  /** Rows of the log stay in order behind nothing, or behind rows of the log before. */
  lemma StaysInOrder(before: seq<DurableEvent>, seen: seq<DurableEvent>, log: seq<DurableEvent>,
                     log': seq<DurableEvent>)
    requires Ascending(log') && log <= log' && InOrder(before, log) && InOrder(seen, log')
    requires seen == [] || before == [] || forall e | e in seen :: e.sequence > Head(log)
    ensures InOrder(before + seen, log')
  {
    if seen == [] {
      assert before + seen == before;
    } else if before == [] {
      assert before + seen == seen;
    } else {
      HeadIsHighest(log);
      JoinAscends(before, seen, Head(log));
    }
  }

  lemma {:induction false} ArrivalsFrom(before: seq<DurableEvent>, log: seq<DurableEvent>, sessions: seq<Session>,
                                        pageSize: nat)
    requires Ascending(log) && InOrder(before, log)
    ensures Ascending(before + HeadChain(log, sessions, pageSize).1)
            <==> ReplaysComeFirst(before != [], log, sessions, pageSize)
    decreases |sessions|
  {
    if sessions == [] {
      assert before + [] == before;
    } else {
      var (log', seen) := Deliver(log, NO_CURSOR, sessions[0], pageSize);
      var more := HeadChain(log', sessions[1..], pageSize).1;
      OneArrival(log, sessions[0], pageSize);
      ArrivalsStep(before, seen, more);
      if seen == [] || sessions[0].lookupOk || before == [] {
        StaysInOrder(before, seen, log, log');
        ArrivalsFrom(before + seen, log', sessions[1..], pageSize);
      } else {
        KnownLater(before, log, log');
        ReplayDescends(log', before, seen, more);
      }
    }
  }

  lemma KnownLater(rows: seq<DurableEvent>, log: seq<DurableEvent>, log': seq<DurableEvent>)
    requires InOrder(rows, log) && log <= log'
    ensures InOrder(rows, log')
  {
  }

  lemma ArrivalsStep(before: seq<DurableEvent>, seen: seq<DurableEvent>, more: seq<DurableEvent>)
    ensures before + (seen + more) == (before + seen) + more
    ensures before + seen != [] <==> before != [] || seen != []
  {
  }

  /** What arrives over connections opened without a cursor ascends, and so never repeats,
      exactly if every session that delivers after a failed lookup of the head delivers
      before anything else has arrived. */
  lemma HeadArrivalsAscendExactlyWhen(log: seq<DurableEvent>, sessions: seq<Session>, pageSize: nat)
    requires Ascending(log)
    ensures Ascending(HeadChain(log, sessions, pageSize).1) <==> ReplaysComeFirst(false, log, sessions, pageSize)
  {
    ArrivalsFrom([], log, sessions, pageSize);
    var seen := HeadChain(log, sessions, pageSize).1;
    assert [] + seen == seen;
  }

  /** Whatever arrives is in the log. */
  lemma {:induction false} HeadArrivalsAreLogged(log: seq<DurableEvent>, sessions: seq<Session>, pageSize: nat)
    requires Ascending(log)
    ensures var (final, seen) := HeadChain(log, sessions, pageSize);
            forall e | e in seen :: e in final
    decreases |sessions|
  {
    if sessions != [] {
      var log' := Deliver(log, NO_CURSOR, sessions[0], pageSize).0;
      OneSession(log, NO_CURSOR, sessions[0], pageSize);
      OneArrival(log, sessions[0], pageSize);
      HeadArrivalsAreLogged(log', sessions[1..], pageSize);
      HeadChainExtends(log', sessions[1..], pageSize);
    }
  }

  // ---------------------------------------------------------------------------
  // When nothing is missed
  // ---------------------------------------------------------------------------

  /** Each later session that delivers something looked up the head, and the sessions
      before it had left nothing unread in the log as it stands at that reopening. */
  predicate CaughtUpAfter(start: int, before: seq<DurableEvent>, log: seq<DurableEvent>, sessions: seq<Session>,
                          pageSize: nat)
    decreases |sessions|
  {
    sessions == [] ||
    var (log', seen) := Deliver(log, NO_CURSOR, sessions[0], pageSize);
    (seen == [] || (sessions[0].lookupOk && before == After(log, start)))
    && CaughtUpAfter(start, before + seen, log', sessions[1..], pageSize)
  }

  /** The same, from the first session that delivers something. */
  predicate CaughtUpAtReopenings(log: seq<DurableEvent>, sessions: seq<Session>, pageSize: nat)
    decreases |sessions|
  {
    sessions == [] ||
    var (log', seen) := Deliver(log, NO_CURSOR, sessions[0], pageSize);
    if seen == [] then CaughtUpAtReopenings(log', sessions[1..], pageSize)
    else CaughtUpAfter(Start(log, NO_CURSOR, sessions[0].lookupOk), seen, log', sessions[1..], pageSize)
  }

  /** Rows that were appended lie above the old head. */
  lemma {:induction false} AfterGrows(log: seq<DurableEvent>, log': seq<DurableEvent>, start: int)
    requires log <= log' && Ascending(log') && start <= Head(log)
    ensures After(log', start) == After(log, start) + After(log', Head(log))
    decreases |log'|
  {
    var head := Head(log);
    if |log| == |log'| {
      assert log' == log;
      HeadIsHighest(log);
      NoneAfter(log, head);
    } else {
      var init, last := log'[..|log'| - 1], log'[|log'| - 1];
      assert last.sequence > head;
      AfterGrows(log, init, start);
      assert init + [last] == log';
      Regroup(After(log, start), After(init, head), [last]);
    }
  }

  /** Once a delivered event lies past an unread one, nothing that follows closes the gap. */
  lemma GapStays(start: int, before: seq<DurableEvent>, log: seq<DurableEvent>, final: seq<DurableEvent>,
                 seen: seq<DurableEvent>, more: seq<DurableEvent>)
    requires Ascending(final) && log <= final && before <= After(log, start) && before != After(log, start)
    requires seen != [] && seen[0].sequence > Head(log)
    ensures !(before + (seen + more) <= After(final, start))
  {
    var k := |before|;
    AfterExtends(log, final, start);
    var unread := After(log, start)[k];
    AfterMembers(log, start);
    assert unread in After(log, start);
    HeadIsHighest(log);
    assert After(final, start)[k] == unread;
    assert (before + (seen + more))[k] == seen[0];
  }

  lemma LaterRow(log: seq<DurableEvent>, start: int, k: nat)
    requires Ascending(log) && 0 < k < |After(log, start)|
    ensures log != [] && After(log, start)[k] != log[0]
  {
    var rows := After(log, start);
    AfterAscends(log, start);
    AfterMembers(log, start);
    assert rows[0] in rows && rows[0] in log;
    assert rows[0].sequence < rows[k].sequence;
  }

  /** The first row of the log never continues a stretch that has begun. */
  lemma ReplayBreaks(start: int, before: seq<DurableEvent>, final: seq<DurableEvent>, seen: seq<DurableEvent>,
                     more: seq<DurableEvent>)
    requires Ascending(final) && before != [] && seen != [] && seen <= final
    ensures !(before + (seen + more) <= After(final, start))
  {
    var c := before + (seen + more);
    assert c[|before|] == final[0];
    if |before| < |After(final, start)| {
      LaterRow(final, start, |before|);
    }
  }

  lemma ReadFurther(start: int, before: seq<DurableEvent>, log: seq<DurableEvent>, log': seq<DurableEvent>,
                    seen: seq<DurableEvent>)
    requires log <= log' && Ascending(log') && start <= Head(log) && before <= After(log, start)
    requires seen == [] || (before == After(log, start) && seen <= After(log', Head(log)))
    ensures before + seen <= After(log', start)
  {
    AfterGrows(log, log', start);
    if seen == [] {
      assert before + seen == before;
    }
  }

  lemma {:induction false} GapFreeFrom(start: int, before: seq<DurableEvent>, log: seq<DurableEvent>,
                                       sessions: seq<Session>, pageSize: nat)
    requires Ascending(log) && start <= Head(log) && before != [] && before <= After(log, start)
    ensures before + HeadChain(log, sessions, pageSize).1 <= After(HeadChain(log, sessions, pageSize).0, start)
            <==> CaughtUpAfter(start, before, log, sessions, pageSize)
    decreases |sessions|
  {
    if sessions == [] {
      assert before + [] == before;
    } else {
      var (log', seen) := Deliver(log, NO_CURSOR, sessions[0], pageSize);
      var (final, more) := HeadChain(log', sessions[1..], pageSize);
      OneSession(log, NO_CURSOR, sessions[0], pageSize);
      OneArrival(log, sessions[0], pageSize);
      HeadChainExtends(log', sessions[1..], pageSize);
      HeadsAscend(log, log');
      Regroup(before, seen, more);
      if seen == [] || (sessions[0].lookupOk && before == After(log, start)) {
        ReadFurther(start, before, log, log', seen);
        GapFreeFrom(start, before + seen, log', sessions[1..], pageSize);
      } else if sessions[0].lookupOk {
        assert seen[0] in seen;
        GapStays(start, before, log, final, seen, more);
      } else {
        ReplayBreaks(start, before, final, seen, more);
      }
    }
  }

  /** A client that never names a cursor gets the log from the first delivering connection
      on without a gap exactly when each later session that delivers something looked up
      the head and the sessions before it had left nothing unread. */
  lemma {:induction false} HeadChainGapFreeExactlyWhen(log: seq<DurableEvent>, sessions: seq<Session>, pageSize: nat)
    requires Ascending(log)
    ensures var (final, seen) := HeadChain(log, sessions, pageSize);
            seen <= After(final, FirstStart(log, NO_CURSOR, sessions, pageSize))
            <==> CaughtUpAtReopenings(log, sessions, pageSize)
    decreases |sessions|
  {
    if sessions != [] {
      var (log', seen) := Deliver(log, NO_CURSOR, sessions[0], pageSize);
      var more := HeadChain(log', sessions[1..], pageSize).1;
      OneSession(log, NO_CURSOR, sessions[0], pageSize);
      if seen == [] {
        assert seen + more == more;
        HeadChainGapFreeExactlyWhen(log', sessions[1..], pageSize);
      } else {
        HeadsAscend(log, log');
        HeadIsHighest(log');
        GapFreeFrom(Start(log, NO_CURSOR, sessions[0].lookupOk), seen, log', sessions[1..], pageSize);
      }
    }
  }

  // ---------------------------------------------------------------------------
  // A gap, and a repetition
  // ---------------------------------------------------------------------------

  /** A connection during which one event is written and polled. */
  function OneEvent(payload: string, arrived: nat): Session {
    Session(true, [Append("state_changed", payload), Next(true)], arrived)
  }

  function Row(log: seq<DurableEvent>, payload: string): DurableEvent {
    DurableEvent(Cutoff(LastSequence(log)) + 1, "state_changed", payload)
  }

  lemma TwoSteps(w: World, a: Step, b: Step, pageSize: nat)
    ensures Run(w, [a, b], pageSize) == Perform(Perform(w, a, pageSize), b, pageSize)
  {
    assert Run(Perform(w, a, pageSize), [b], pageSize) == Perform(Perform(w, a, pageSize), b, pageSize) by {
      assert [b][1..] == [];
    }
    assert [a, b][1..] == [b];
  }

  /** A poll that finds one row sends it. */
  lemma OneRowSent(log: seq<DurableEvent>, cursor: Option<int>, e: DurableEvent, pageSize: nat)
    requires pageSize > 0 && After(log, Cutoff(cursor)) == [e]
    ensures Emitted(Perform(Opened(log, cursor), Next(true), pageSize).out) == [e]
    ensures Perform(Opened(log, cursor), Next(true), pageSize).log == log
  {
    assert EventsAfter(log, cursor, pageSize) == [e];
    EmitOne([], Frame(e));
  }

  lemma OneRowDelivered(log: seq<DurableEvent>, payload: string, arrived: nat, pageSize: nat)
    requires Ascending(log)
    requires Run(Opened(log, LastSequence(log)), OneEvent(payload, arrived).steps, pageSize).log
             == log + [Row(log, payload)]
    requires Emitted(Run(Opened(log, LastSequence(log)), OneEvent(payload, arrived).steps, pageSize).out)
             == [Row(log, payload)]
    ensures Deliver(log, NO_CURSOR, OneEvent(payload, arrived), pageSize)
            == (log + [Row(log, payload)], if arrived == 0 then [] else [Row(log, payload)])
  {
  }

  lemma OneEventArrives(log: seq<DurableEvent>, payload: string, arrived: nat, pageSize: nat)
    requires Ascending(log) && pageSize > 0
    ensures Deliver(log, NO_CURSOR, OneEvent(payload, arrived), pageSize)
            == (log + [Row(log, payload)], if arrived == 0 then [] else [Row(log, payload)])
    ensures Ascending(log + [Row(log, payload)])
  {
    var cursor, e := LastSequence(log), Row(log, payload);
    var append := Append("state_changed", payload);
    TwoSteps(Opened(log, cursor), append, Next(true), pageSize);
    assert Perform(Opened(log, cursor), append, pageSize) == Opened(log + [e], cursor);
    HeadIsHighest(log);
    NoneAfter(log, Cutoff(cursor));
    AfterAppend(log, e, Cutoff(cursor));
    OneRowSent(log + [e], cursor, e, pageSize);
    OneRowDelivered(log, payload, arrived, pageSize);
    AppendAscends(log, "state_changed", payload);
  }

  lemma HeadChainFront(log: seq<DurableEvent>, s: Session, rest: seq<Session>, pageSize: nat)
    ensures var (log', seen) := Deliver(log, NO_CURSOR, s, pageSize);
            var (final, more) := HeadChain(log', rest, pageSize);
            HeadChain(log, [s] + rest, pageSize) == (final, seen + more)
  {
    assert ([s] + rest)[1..] == rest;
  }

  /** The client sees the first event, loses the second with its connection, and after
      the next reopening is sent the third: the second never arrives. */
  lemma WatchSkipsAnEvent(log: seq<DurableEvent>, p: string, q: string, r: string, pageSize: nat)
    requires Ascending(log) && pageSize > 0
    ensures var one := log + [Row(log, p)];
            var two := one + [Row(one, q)];
            var sessions := [OneEvent(p, 1), OneEvent(q, 0), OneEvent(r, 1)];
            HeadChain(log, sessions, pageSize) == (two + [Row(two, r)], [Row(log, p), Row(two, r)])
  {
    var one := log + [Row(log, p)];
    var two := one + [Row(one, q)];
    var three := two + [Row(two, r)];
    OneEventArrives(log, p, 1, pageSize);
    OneEventArrives(one, q, 0, pageSize);
    OneEventArrives(two, r, 1, pageSize);
    var a, b, c := OneEvent(p, 1), OneEvent(q, 0), OneEvent(r, 1);
    HeadChainFront(two, c, [], pageSize);
    HeadChainFront(one, b, [c], pageSize);
    HeadChainFront(log, a, [b, c], pageSize);
    assert [c] + [] == [c] && [b] + [c] == [b, c] && [a] + [b, c] == [a, b, c];
    var last := [Row(two, r)];
    assert last + [] == last && [] + last == last;
    assert [Row(log, p)] + last == [Row(log, p), Row(two, r)];
  }

  lemma {:induction false} PollsKeepLog(w: World, n: nat, pageSize: nat)
    ensures Run(w, Polls(n), pageSize).log == w.log
    decreases n
  {
    if n > 0 {
      FirstPoll(w, n, pageSize);
      PollsKeepLog(Perform(w, Next(true), pageSize), n - 1, pageSize);
    }
  }

  /** A connection opened after a failed lookup, with a good poll for every row. */
  function Replay(n: nat): Session {
    Session(false, Polls(n), n)
  }

  lemma ReplayDelivers(log: seq<DurableEvent>, pageSize: nat)
    requires Ascending(log) && pageSize > 0
    ensures Deliver(log, NO_CURSOR, Replay(|log|), pageSize) == (log, log)
  {
    FailedLookupReplays(log, pageSize);
    PollsKeepLog(Opened(log, None), |log|, pageSize);
  }

  /** An event arrives, the connection breaks, and the lookup of the head fails at the
      next opening: the whole log arrives, and with it the same event again. */
  lemma FailedLookupRepeats(log: seq<DurableEvent>, payload: string, pageSize: nat)
    requires Ascending(log) && pageSize > 0
    ensures var log' := log + [Row(log, payload)];
            HeadChain(log, [OneEvent(payload, 1), Replay(|log'|)], pageSize) == (log', [Row(log, payload)] + log')
  {
    var log' := log + [Row(log, payload)];
    OneEventArrives(log, payload, 1, pageSize);
    ReplayDelivers(log', pageSize);
    TwoDeliveries(log, OneEvent(payload, 1), Replay(|log'|), log', [Row(log, payload)], log', log', pageSize);
  }

  lemma TwoDeliveries(log: seq<DurableEvent>, a: Session, b: Session, one: seq<DurableEvent>, s: seq<DurableEvent>,
                      two: seq<DurableEvent>, t: seq<DurableEvent>, pageSize: nat)
    requires Deliver(log, NO_CURSOR, a, pageSize) == (one, s) && Deliver(one, NO_CURSOR, b, pageSize) == (two, t)
    ensures HeadChain(log, [a, b], pageSize) == (two, s + t)
  {
    HeadChainFront(one, b, [], pageSize);
    HeadChainFront(log, a, [b], pageSize);
    assert [b] + [] == [b] && [a] + [b] == [a, b] && t + [] == t;
  }
}
