/**
 The server side of the event stream: a cursor and a pending page over an
 append-only log, one item per `next()`.
 */
module DurableTail {
  import opened Prelude

  datatype DurableEvent = DurableEvent(sequence: int, eventType: string, payload: string)

  /** Log rows in the order of their sequence numbers, which start above zero. */
  predicate Ascending(log: seq<DurableEvent>) {
    && (forall i | 0 <= i < |log| :: log[i].sequence > 0)
    && (forall i, j | 0 <= i < j < |log| :: log[i].sequence < log[j].sequence)
  }

  function LastSequence(log: seq<DurableEvent>): Option<int> {
    if log == [] then None else Some(log[|log| - 1].sequence)
  }

  function Cutoff(after: Option<int>): int {
    if after.Some? then after.value else 0
  }

  /** The log after one more append: one above the highest sequence so far. */
  function Appended(log: seq<DurableEvent>, eventType: string, payload: string): seq<DurableEvent> {
    log + [DurableEvent(Cutoff(LastSequence(log)) + 1, eventType, payload)]
  }

  /** Every row with a sequence above `cutoff`. */
  function After(log: seq<DurableEvent>, cutoff: int): seq<DurableEvent> {
    if log == [] then []
    else
      var last := log[|log| - 1];
      After(log[..|log| - 1], cutoff) + if last.sequence > cutoff then [last] else []
  }

  /** The paged read of the durable source. */
  function EventsAfter(log: seq<DurableEvent>, after: Option<int>, limit: nat): seq<DurableEvent> {
    var rows := After(log, Cutoff(after));
    if limit < |rows| then rows[..limit] else rows
  }

  datatype Item = Frame(event: DurableEvent) | Comment(text: string)

  datatype TailState = TailState(cursor: Option<int>, pending: seq<DurableEvent>)

  /** One step of the stream: the pending page first, then one poll. */
  function TailNext(log: seq<DurableEvent>, s: TailState, pageSize: nat, pollOk: bool): (TailState, Item) {
    var page := if s.pending != [] then s.pending else if pollOk then EventsAfter(log, s.cursor, pageSize) else [];
    if page != [] then (TailState(Some(page[0].sequence), page[1..]), Frame(page[0]))
    else (s, Comment(if pollOk then "idle" else "poll-error"))
  }

  class EventLog {
    var rows: seq<DurableEvent>

    constructor ()
      ensures rows == []
    {
      rows := [];
    }

    method Append(eventType: string, payload: string)
      modifies this
      ensures rows == Appended(old(rows), eventType, payload)
    {
      var sequence := if rows == [] then 1 else rows[|rows| - 1].sequence + 1;
      rows := rows + [DurableEvent(sequence, eventType, payload)];
    }

    /** Rows above the cursor, at most `limit`; `None` when the query fails. */
    method ListEventsAfter(after: Option<int>, limit: nat, healthy: bool) returns (r: Option<seq<DurableEvent>>)
      ensures r == if healthy then Some(EventsAfter(rows, after, limit)) else None
    {
      if !healthy {
        return None;
      }
      var cutoff := if after.Some? then after.value else 0;
      var out: seq<DurableEvent> := [];
      for i := 0 to |rows|
        invariant out == After(rows[..i], cutoff)
      {
        assert rows[..i + 1][..i] == rows[..i];
        if rows[i].sequence > cutoff {
          out := out + [rows[i]];
        }
      }
      assert rows[..|rows|] == rows;
      r := Some(if limit < |out| then out[..limit] else out);
    }
  }

  class DurableTailStream {
    const source: EventLog
    const pageSize: nat
    var cursor: Option<int>
    var pending: seq<DurableEvent>

    constructor (source: EventLog, startAfter: Option<int>, pageSize: nat)
      ensures this.source == source && this.pageSize == pageSize
      ensures State() == TailState(startAfter, [])
    {
      this.source := source;
      this.pageSize := pageSize;
      cursor, pending := startAfter, [];
    }

    function State(): TailState
      reads this
    {
      TailState(cursor, pending)
    }

    method Next(pollOk: bool) returns (item: Item)
      modifies this
      ensures (State(), item) == TailNext(source.rows, old(State()), pageSize, pollOk)
    {
      if pending != [] {
        var event := pending[0];
        pending := pending[1..];
        cursor := Some(event.sequence);
        return Frame(event);
      }
      var rows := source.ListEventsAfter(cursor, pageSize, pollOk);
      if rows.None? {
        return Comment("poll-error");
      }
      pending := pending + rows.value;
      assert pending == rows.value;
      if pending == [] {
        return Comment("idle");
      }
      var event := pending[0];
      pending := pending[1..];
      cursor := Some(event.sequence);
      item := Frame(event);
    }
  }

  // ---------------------------------------------------------------------------
  // Runs
  // ---------------------------------------------------------------------------

  datatype Step =
    | Append(eventType: string, payload: string)
    | Next(pollOk: bool)
    | KeepAlive

  datatype World = World(log: seq<DurableEvent>, tail: TailState, out: seq<Item>)

  function Perform(w: World, step: Step, pageSize: nat): World {
    match step
    case Append(t, p) => w.(log := Appended(w.log, t, p))
    case Next(ok) =>
      var (tail, item) := TailNext(w.log, w.tail, pageSize, ok);
      w.(tail := tail, out := w.out + [item])
    case KeepAlive => w.(out := w.out + [Comment("")])
  }

  function Run(w: World, steps: seq<Step>, pageSize: nat): World
    decreases |steps|
  {
    if steps == [] then w else Run(Perform(w, steps[0], pageSize), steps[1..], pageSize)
  }

  function Opened(log: seq<DurableEvent>, start: Option<int>): World {
    World(log, TailState(start, []), [])
  }

  /** The events among the items sent so far. */
  function Emitted(out: seq<Item>): seq<DurableEvent> {
    if out == [] then []
    else
      var last := out[|out| - 1];
      Emitted(out[..|out| - 1]) + if last.Frame? then [last.event] else []
  }

  /** What has been sent and what is unread make up the log after the start
      cursor, and the pending page is the next stretch of what is unread. */
  predicate GapFree(w: World, start: Option<int>) {
    var sent, unread := Emitted(w.out), After(w.log, Cutoff(w.tail.cursor));
    && Ascending(w.log)
    && sent + unread == After(w.log, Cutoff(start))
    && w.tail.pending <= unread
    && w.tail.cursor == Resume(start, sent)
  }

  /** The cursor of a client that has seen exactly `seen` since `start`. */
  function Resume(start: Option<int>, seen: seq<DurableEvent>): Option<int> {
    if seen == [] then start else Some(seen[|seen| - 1].sequence)
  }

  lemma {:induction false} AfterMembers(log: seq<DurableEvent>, cutoff: int)
    ensures forall e | e in After(log, cutoff) :: e in log && e.sequence > cutoff
    ensures forall e | e in log && e.sequence > cutoff :: e in After(log, cutoff)
  {
    if log != [] {
      AfterMembers(log[..|log| - 1], cutoff);
    }
  }

  lemma {:induction false} NoneAfter(log: seq<DurableEvent>, cutoff: int)
    requires forall e | e in log :: e.sequence <= cutoff
    ensures After(log, cutoff) == []
  {
    if log != [] {
      NoneAfter(log[..|log| - 1], cutoff);
    }
  }

  lemma AfterAppend(log: seq<DurableEvent>, e: DurableEvent, cutoff: int)
    ensures After(log + [e], cutoff) == After(log, cutoff) + if e.sequence > cutoff then [e] else []
  {
    assert (log + [e])[..|log|] == log;
  }

  lemma AppendAscends(log: seq<DurableEvent>, eventType: string, payload: string)
    requires Ascending(log)
    ensures Ascending(Appended(log, eventType, payload))
  {
  }

  /** Raising the cutoff to the first unread row leaves the other unread rows. */
  lemma {:induction false} AfterFirst(log: seq<DurableEvent>, cutoff: int)
    requires Ascending(log) && After(log, cutoff) != []
    ensures After(log, After(log, cutoff)[0].sequence) == After(log, cutoff)[1..]
  {
    var init, last := log[..|log| - 1], log[|log| - 1];
    NoneAfter(init, last.sequence);
    if After(init, cutoff) != [] {
      AfterFirst(init, cutoff);
      AfterMembers(init, cutoff);
      var first := After(init, cutoff)[0];
      assert first in init;
    }
  }

  /** A client that saw the first `k` unread rows and resumes there sees the others. */
  lemma {:induction false} AfterSome(log: seq<DurableEvent>, start: Option<int>, k: nat)
    requires Ascending(log) && k <= |After(log, Cutoff(start))|
    ensures var rows := After(log, Cutoff(start));
            After(log, Cutoff(Resume(start, rows[..k]))) == rows[k..]
    decreases k
  {
    var rows := After(log, Cutoff(start));
    if k > 0 {
      AfterFirst(log, Cutoff(start));
      var next := Some(rows[0].sequence);
      AfterSome(log, next, k - 1);
      assert rows[1..][..k - 1] == rows[1..k];
      assert rows[1..][k - 1..] == rows[k..];
      assert Resume(start, rows[..k]) == Resume(next, rows[1..k]);
    }
  }

  lemma EmitOne(out: seq<Item>, item: Item)
    ensures Emitted(out + [item]) == Emitted(out) + if item.Frame? then [item.event] else []
  {
    assert (out + [item])[..|out|] == out;
  }

  /** The page a step takes its event from is the next stretch of the unread rows. */
  lemma PageIsNext(w: World, start: Option<int>, pageSize: nat, pollOk: bool)
    requires GapFree(w, start)
    ensures var unread := After(w.log, Cutoff(w.tail.cursor));
            var (tail, item) := TailNext(w.log, w.tail, pageSize, pollOk);
            && (item.Frame? ==> unread != [] && item.event == unread[0])
            && (item.Frame? ==> tail.cursor == Some(unread[0].sequence) && tail.pending <= unread[1..])
            && (item.Frame? ==>
                  |tail.pending| == (if w.tail.pending != [] then |w.tail.pending| else Min(pageSize, |unread|)) - 1)
            && (item.Comment? ==> tail == w.tail && (item.text == "idle" <==> pollOk)
                                  && (item.text == "poll-error" <==> !pollOk))
            && (item.Frame? <==> w.tail.pending != [] || (pollOk && pageSize > 0 && unread != []))
  {
  }

  lemma NextKeepsGapFree(w: World, start: Option<int>, pageSize: nat, pollOk: bool)
    requires GapFree(w, start)
    ensures GapFree(Perform(w, Next(pollOk), pageSize), start)
  {
    var (tail, item) := TailNext(w.log, w.tail, pageSize, pollOk);
    PageIsNext(w, start, pageSize, pollOk);
    EmitOne(w.out, item);
    var w' := World(w.log, tail, w.out + [item]);
    assert Perform(w, Next(pollOk), pageSize) == w';
    var sent, unread := Emitted(w.out), After(w.log, Cutoff(w.tail.cursor));
    if item.Frame? {
      AfterFirst(w.log, Cutoff(w.tail.cursor));
      assert After(w.log, Cutoff(tail.cursor)) == unread[1..];
      assert Emitted(w'.out) == sent + [unread[0]];
      MoveOne(sent, unread);
      assert w'.tail.cursor == Resume(start, sent + [unread[0]]);
    } else {
      assert Emitted(w'.out) == sent;
    }
  }

  lemma MoveOne(sent: seq<DurableEvent>, unread: seq<DurableEvent>)
    requires unread != []
    ensures sent + unread == (sent + [unread[0]]) + unread[1..]
  {
    assert unread == [unread[0]] + unread[1..];
  }

  lemma AppendKeepsGapFree(w: World, start: Option<int>, eventType: string, payload: string, pageSize: nat)
    requires GapFree(w, start)
    ensures GapFree(Perform(w, Append(eventType, payload), pageSize), start)
  {
    var sent := Emitted(w.out);
    var e := DurableEvent(Cutoff(LastSequence(w.log)) + 1, eventType, payload);
    AppendAscends(w.log, eventType, payload);
    AfterAppend(w.log, e, Cutoff(start));
    AfterAppend(w.log, e, Cutoff(w.tail.cursor));
    if sent != [] {
      LastSentIsInLog(w, start);
      assert e.sequence > sent[|sent| - 1].sequence;
    }
    var added := if e.sequence > Cutoff(start) then [e] else [];
    var unread := After(w.log, Cutoff(w.tail.cursor));
    assert After(w.log + [e], Cutoff(w.tail.cursor)) == unread + added;
    assert (sent + unread) + added == sent + (unread + added);
  }

  lemma LastSentIsInLog(w: World, start: Option<int>)
    requires GapFree(w, start) && Emitted(w.out) != []
    ensures var sent := Emitted(w.out);
            var last := sent[|sent| - 1];
            last in w.log && last.sequence > Cutoff(start)
  {
    var sent := Emitted(w.out);
    AfterMembers(w.log, Cutoff(start));
    assert After(w.log, Cutoff(start))[|sent| - 1] == sent[|sent| - 1];
  }

  /** In every reachable state of the tail nothing was skipped, repeated or reordered. */
  lemma {:induction false} RunKeepsGapFree(w: World, start: Option<int>, steps: seq<Step>, pageSize: nat)
    requires GapFree(w, start)
    ensures GapFree(Run(w, steps, pageSize), start)
    decreases |steps|
  {
    if steps != [] {
      match steps[0] {
        case Append(t, p) => AppendKeepsGapFree(w, start, t, p, pageSize);
        case Next(ok) => NextKeepsGapFree(w, start, pageSize, ok);
        case KeepAlive => EmitOne(w.out, Comment(""));
      }
      RunKeepsGapFree(Perform(w, steps[0], pageSize), start, steps[1..], pageSize);
    }
  }

  lemma OpenedIsGapFree(log: seq<DurableEvent>, start: Option<int>)
    requires Ascending(log)
    ensures GapFree(Opened(log, start), start)
  {
  }

  // ---------------------------------------------------------------------------
  // Progress
  // ---------------------------------------------------------------------------

  function Polls(n: nat): seq<Step> {
    seq(n, _ => Next(true))
  }

  lemma PollShrinks(w: World, start: Option<int>, pageSize: nat)
    requires GapFree(w, start) && pageSize > 0 && After(w.log, Cutoff(w.tail.cursor)) != []
    ensures var w' := Perform(w, Next(true), pageSize);
            && GapFree(w', start) && w'.log == w.log
            && |After(w'.log, Cutoff(w'.tail.cursor))| == |After(w.log, Cutoff(w.tail.cursor))| - 1
  {
    PageIsNext(w, start, pageSize, true);
    NextKeepsGapFree(w, start, pageSize, true);
    AfterFirst(w.log, Cutoff(w.tail.cursor));
  }

  lemma FirstPoll(w: World, n: nat, pageSize: nat)
    requires n > 0
    ensures Run(w, Polls(n), pageSize) == Run(Perform(w, Next(true), pageSize), Polls(n - 1), pageSize)
  {
    assert Polls(n)[0] == Next(true) && Polls(n)[1..] == Polls(n - 1);
  }

  /** With a positive page size every good step delivers one unread event, so the
      stream catches up in as many steps as there are unread events. */
  lemma {:induction false} CatchesUp(w: World, start: Option<int>, n: nat, pageSize: nat)
    requires GapFree(w, start) && pageSize > 0
    requires n == |After(w.log, Cutoff(w.tail.cursor))|
    ensures Emitted(Run(w, Polls(n), pageSize).out) == After(w.log, Cutoff(start))
    decreases n
  {
    if n > 0 {
      PollShrinks(w, start, pageSize);
      var w' := Perform(w, Next(true), pageSize);
      FirstPoll(w, n, pageSize);
      CatchesUp(w', start, n - 1, pageSize);
    }
  }

  predicate NothingSent(w: World) {
    w.tail.pending == [] && Emitted(w.out) == []
  }

  /** With page size zero no step fills the page or sends an event. */
  lemma EmptyPageStep(w: World, step: Step)
    requires NothingSent(w)
    ensures NothingSent(Perform(w, step, 0))
  {
    match step {
      case Append(_, _) =>
      case Next(ok) =>
        var item := TailNext(w.log, w.tail, 0, ok).1;
        EmptyPagePoll(w.log, w.tail, ok);
        EmitOne(w.out, item);
      case KeepAlive => EmitOne(w.out, Comment(""));
    }
  }

  lemma EmptyPagePoll(log: seq<DurableEvent>, tail: TailState, pollOk: bool)
    requires tail.pending == []
    ensures TailNext(log, tail, 0, pollOk).0 == tail && TailNext(log, tail, 0, pollOk).1.Comment?
  {
    assert EventsAfter(log, tail.cursor, 0) == [];
  }

  /** With page size zero nothing is ever delivered. */
  lemma {:induction false} EmptyPagesDeliverNothing(w: World, steps: seq<Step>)
    requires NothingSent(w)
    ensures NothingSent(Run(w, steps, 0))
    decreases |steps|
  {
    if steps != [] {
      EmptyPageStep(w, steps[0]);
      EmptyPagesDeliverNothing(Perform(w, steps[0], 0), steps[1..]);
    }
  }

  // ---------------------------------------------------------------------------
  // Reconnecting
  // ---------------------------------------------------------------------------

  /** The cursor a new connection starts from: the query parameter, else the
      `Last-Event-ID` header, else the head of the log (or nothing if that lookup fails). */
  function ChooseCursor(query: Option<int>, header: Option<int>, head: Result<Option<int>, ()>): Option<int> {
    if query.Some? then query
    else if header.Some? then header
    else if head.Ok? then head.value else None
  }

  /** One connection: whether a lookup of the head succeeds when it opens, what happens
      while it is open, and how many of the events sent actually reach the client before
      it breaks. */
  datatype Session = Session(lookupOk: bool, steps: seq<Step>, arrived: nat)

  /** The cursors a client sends: the query parameter and the `Last-Event-ID` header. */
  datatype Request = Request(query: Option<int>, header: Option<int>)

  const NO_CURSOR := Request(None, None)

  /** The cursor a client names: the query parameter outranks the header. */
  function Named(r: Request): Option<int> {
    if r.query.Some? then r.query else r.header
  }

  /** The request of a client that names its last event in the header. */
  function ByHeader(cursor: Option<int>): Request {
    Request(None, cursor)
  }

  /** The cursor a connection opens with. */
  function Opening(log: seq<DurableEvent>, r: Request, lookupOk: bool): Option<int> {
    ChooseCursor(r.query, r.header, if lookupOk then Ok(LastSequence(log)) else Err(()))
  }

  /** The log when a connection breaks, and the events that arrived over it. */
  function Deliver(log: seq<DurableEvent>, r: Request, session: Session, pageSize: nat)
    : (seq<DurableEvent>, seq<DurableEvent>)
  {
    var w := Run(Opened(log, Opening(log, r, session.lookupOk)), session.steps, pageSize);
    var sent := Emitted(w.out);
    (w.log, if session.arrived < |sent| then sent[..session.arrived] else sent)
  }

  /** Connections opened one after the other: the first with the request given, every
      later one with the last event that arrived in its header. The final log and
      everything that arrived. */
  function Chain(log: seq<DurableEvent>, r: Request, sessions: seq<Session>, pageSize: nat)
    : (seq<DurableEvent>, seq<DurableEvent>)
    decreases |sessions|
  {
    if sessions == [] then (log, [])
    else
      var (log', seen) := Deliver(log, r, sessions[0], pageSize);
      var (log'', more) := Chain(log', ByHeader(Resume(Named(r), seen)), sessions[1..], pageSize);
      (log'', seen + more)
  }

  /** Where a connection starts: behind the client's cursor, else at the head of the log,
      else, if the lookup of the head fails, at the beginning. */
  function Start(log: seq<DurableEvent>, r: Request, lookupOk: bool): int {
    Cutoff(Opening(log, r, lookupOk))
  }

  /** The cutoff of the connection over which the first event arrives. */
  function FirstStart(log: seq<DurableEvent>, r: Request, sessions: seq<Session>, pageSize: nat): int
    decreases |sessions|
  {
    if Named(r).Some? || sessions == [] then Cutoff(Named(r))
    else
      var (log', seen) := Deliver(log, NO_CURSOR, sessions[0], pageSize);
      if seen != [] then Start(log, NO_CURSOR, sessions[0].lookupOk)
      else FirstStart(log', NO_CURSOR, sessions[1..], pageSize)
  }

  /** What arrives over one connection: the first rows after its cursor. */
  lemma OneSession(log: seq<DurableEvent>, r: Request, session: Session, pageSize: nat)
    requires Ascending(log)
    ensures var (log', seen) := Deliver(log, r, session, pageSize);
            log <= log' && Ascending(log') && seen <= After(log', Start(log, r, session.lookupOk))
    ensures Named(r).Some? ==> Start(log, r, session.lookupOk) == Named(r).value
  {
    var cursor := Opening(log, r, session.lookupOk);
    OpenedIsGapFree(log, cursor);
    RunKeepsGapFree(Opened(log, cursor), cursor, session.steps, pageSize);
    RunExtends(Opened(log, cursor), session.steps, pageSize);
    var w := Run(Opened(log, cursor), session.steps, pageSize);
    assert Emitted(w.out) <= After(w.log, Cutoff(cursor));
  }

  /** A client that started at `start` and saw `seen` has exactly the rows after its
      last one still to come. */
  predicate Accounts(log: seq<DurableEvent>, start: Option<int>, seen: seq<DurableEvent>) {
    seen + After(log, Cutoff(Resume(start, seen))) == After(log, Cutoff(start))
  }

  lemma AccountsCompose(log: seq<DurableEvent>, start: Option<int>, a: seq<DurableEvent>, b: seq<DurableEvent>)
    requires Accounts(log, start, a) && Accounts(log, Resume(start, a), b)
    ensures Accounts(log, start, a + b)
  {
    assert Resume(start, a + b) == Resume(Resume(start, a), b);
    var rest := After(log, Cutoff(Resume(start, a + b)));
    assert (a + b) + rest == a + (b + rest);
  }

  /** Over any number of broken connections, the events that arrive are the log after
      the cursor of the first connection that delivered: in order, without gap, without
      duplicate, however the lookups of the head end. A client that names a first cursor
      thus misses nothing after it. */
  lemma {:induction false} ChainIsGapFree(log: seq<DurableEvent>, r: Request, sessions: seq<Session>, pageSize: nat)
    requires Ascending(log)
    ensures var (final, seen) := Chain(log, r, sessions, pageSize);
            var first := Some(FirstStart(log, r, sessions, pageSize));
            Ascending(final) && Ascending(seen) && Accounts(final, first, seen)
    ensures Named(r).Some? ==> FirstStart(log, r, sessions, pageSize) == Named(r).value
    decreases |sessions|
  {
    if sessions != [] {
      var (log', seen) := Deliver(log, r, sessions[0], pageSize);
      OneSession(log, r, sessions[0], pageSize);
      var next := Resume(Named(r), seen);
      ChainIsGapFree(log', ByHeader(next), sessions[1..], pageSize);
      var (final, more) := Chain(log', ByHeader(next), sessions[1..], pageSize);
      if Named(r).Some? || seen != [] {
        var first := Some(Start(log, r, sessions[0].lookupOk));
        ChainExtends(log', ByHeader(next), sessions[1..], pageSize);
        SeenStaysFirst(log', final, first, seen);
        AccountsCompose(final, first, seen, more);
        AfterAscends(final, first.value);
        PrefixAscends(seen + more, After(final, first.value));
      } else {
        assert seen + more == more;
      }
    }
  }

  lemma PrefixAscends(a: seq<DurableEvent>, b: seq<DurableEvent>)
    requires a <= b && Ascending(b)
    ensures Ascending(a)
  {
  }

  lemma SnocAscends(rows: seq<DurableEvent>, e: DurableEvent)
    requires Ascending(rows) && e.sequence > 0 && forall r | r in rows :: r.sequence < e.sequence
    ensures Ascending(rows + [e])
  {
  }

  /** Unread rows ascend, so nothing that arrives can arrive twice. */
  lemma {:induction false} AfterAscends(log: seq<DurableEvent>, cutoff: int)
    requires Ascending(log)
    ensures Ascending(After(log, cutoff))
  {
    if log != [] {
      var init, last := log[..|log| - 1], log[|log| - 1];
      AfterAscends(init, cutoff);
      AfterMembers(init, cutoff);
      SnocAscends(After(init, cutoff), last);
    }
  }

  lemma {:induction false} RunExtends(w: World, steps: seq<Step>, pageSize: nat)
    ensures w.log <= Run(w, steps, pageSize).log
    decreases |steps|
  {
    if steps != [] {
      RunExtends(Perform(w, steps[0], pageSize), steps[1..], pageSize);
    }
  }

  lemma {:induction false} ChainExtends(log: seq<DurableEvent>, r: Request, sessions: seq<Session>, pageSize: nat)
    ensures log <= Chain(log, r, sessions, pageSize).0
    decreases |sessions|
  {
    if sessions != [] {
      var (log', seen) := Deliver(log, r, sessions[0], pageSize);
      RunExtends(Opened(log, Opening(log, r, sessions[0].lookupOk)), sessions[0].steps, pageSize);
      ChainExtends(log', ByHeader(Resume(Named(r), seen)), sessions[1..], pageSize);
    }
  }

  lemma {:induction false} AfterExtends(log: seq<DurableEvent>, log': seq<DurableEvent>, cutoff: int)
    requires log <= log'
    ensures After(log, cutoff) <= After(log', cutoff)
    decreases |log'|
  {
    if |log| == |log'| {
      assert log == log';
    } else {
      AfterExtends(log, log'[..|log'| - 1], cutoff);
    }
  }

  /** Rows already seen stay the first rows after the start when the log grows. */
  lemma SeenStaysFirst(log: seq<DurableEvent>, log': seq<DurableEvent>, start: Option<int>, seen: seq<DurableEvent>)
    requires log <= log' && Ascending(log') && seen <= After(log, Cutoff(start))
    ensures Accounts(log', start, seen)
  {
    AfterExtends(log, log', Cutoff(start));
    var rows := After(log', Cutoff(start));
    AfterSome(log', start, |seen|);
    assert rows[..|seen|] == seen;
    assert rows == rows[..|seen|] + rows[|seen|..];
  }
}
