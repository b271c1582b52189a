/**
 From the durable log to the client: the items a tail sends, printed on the wire
 and parsed back from arbitrary chunks, are the log after the start cursor.
 */
module EndToEnd {
  import opened Prelude
  import opened SseText
  import opened SseParsing
  import opened SsePrinting
  import opened DurableTail
  import opened Cursorless
  import SseStandard

  function SequenceText(n: int): string {
    if n < 0 then "-" + Decimal(-n) else Decimal(n)
  }

  function EventFrame(e: DurableEvent): SseFrame {
    SseFrame(Some(e.eventType), e.payload)
  }

  function EventFrames(events: seq<DurableEvent>): seq<SseFrame> {
    if events == [] then [] else [EventFrame(events[0])] + EventFrames(events[1..])
  }

  /** The lines of one item on the wire: an id, event and data block, or a comment. */
  function ItemBlock(item: Item): seq<string> {
    match item
    case Frame(e) => FrameLines(Some(SequenceText(e.sequence)), EventFrame(e))
    case Comment(text) => [": " + text]
  }

  function ItemBlocks(items: seq<Item>): seq<seq<string>> {
    if items == [] then [] else [ItemBlock(items[0])] + ItemBlocks(items[1..])
  }

  /** What the wire format can carry: a one-line event type and a payload without a
      carriage return. */
  predicate Writable(e: DurableEvent) {
    CleanLine(e.eventType) && '\r' !in e.payload
  }

  /** What the parser hands back as it was: a payload that, besides, is not empty and does
      not start with a line feed. */
  predicate Carried(e: DurableEvent) {
    Writable(e) && e.payload != "" && e.payload[0] != '\n'
  }

  predicate WritableItem(item: Item) {
    match item
    case Frame(e) => Writable(e)
    case Comment(text) => CleanLine(text)
  }

  predicate CarriedItem(item: Item) {
    match item
    case Frame(e) => Carried(e)
    case Comment(text) => CleanLine(text)
  }

  lemma {:induction false} DecimalIsClean(n: nat)
    ensures CleanLine(Decimal(n))
  {
    if n >= 10 {
      DecimalIsClean(n / 10);
    }
  }

  lemma ItemBlockReads(item: Item)
    requires WritableItem(item)
    ensures Sendable(ItemBlock(item))
    ensures FrameOf(ItemBlock(item))
            == if item.Frame? then SseFrame(Some(item.event.eventType), Stripped(item.event.payload))
               else SseFrame(None, "")
  {
    match item {
      case Frame(e) =>
        DecimalIsClean(if e.sequence < 0 then -e.sequence else e.sequence);
        assert CleanLine("-");
        FrameLinesSendable(Some(SequenceText(e.sequence)), EventFrame(e));
        FrameReadsBack(Some(SequenceText(e.sequence)), EventFrame(e));
      case Comment(text) =>
        var line := ": " + text;
        PrefixedClean(": ", text);
        PrefixedField(": ", text);
        OneLine(line);
    }
  }

  lemma {:induction false} EmittedFront(items: seq<Item>)
    requires items != []
    ensures Emitted(items) == (if items[0].Frame? then [items[0].event] else []) + Emitted(items[1..])
  {
    if |items| > 1 {
      EmittedFront(items[..|items| - 1]);
      assert items[..|items| - 1][1..] == items[1..][..|items| - 2];
    }
  }

  /** The frames with data of some events: their payloads stripped, those left empty dropped. */
  function StrippedFrames(events: seq<DurableEvent>): seq<SseFrame> {
    SseStandard.WithData(SseStandard.StrippedAll(EventFrames(events)))
  }

  lemma StrippedFramesFirst(e: DurableEvent, events: seq<DurableEvent>)
    ensures StrippedFrames([e] + events)
            == (if Stripped(e.payload) == "" then [] else [SseFrame(Some(e.eventType), Stripped(e.payload))])
               + StrippedFrames(events)
  {
    assert ([e] + events)[1..] == events;
    assert EventFrames([e] + events)[1..] == EventFrames(events);
  }

  lemma BlocksInFront(item: Item, rest: seq<seq<string>>)
    ensures SseStandard.WithData(FramesOf([ItemBlock(item)] + rest))
            == (if FrameOf(ItemBlock(item)).data != "" then [FrameOf(ItemBlock(item))] else [])
               + SseStandard.WithData(FramesOf(rest))
  {
    assert ([ItemBlock(item)] + rest)[1..] == rest;
    assert FramesOf([ItemBlock(item)] + rest)[1..] == FramesOf(rest);
  }

  lemma {:induction false} ItemsReadStripped(items: seq<Item>)
    requires forall i | i in items :: WritableItem(i)
    ensures forall b | b in ItemBlocks(items) :: Sendable(b)
    ensures SseStandard.WithData(FramesOf(ItemBlocks(items))) == StrippedFrames(Emitted(items))
  {
    if items != [] {
      var item, rest := items[0], ItemBlocks(items[1..]);
      assert item in items;
      ItemBlockReads(item);
      ItemsReadStripped(items[1..]);
      EmittedFront(items);
      BlocksInFront(item, rest);
      if item.Frame? {
        StrippedFramesFirst(item.event, Emitted(items[1..]));
      } else {
        assert Emitted(items) == Emitted(items[1..]);
      }
    }
  }

  lemma {:induction false} EmittedAreCarried(items: seq<Item>)
    requires forall i | i in items :: CarriedItem(i)
    ensures forall e | e in Emitted(items) :: Carried(e)
  {
    if items != [] {
      assert items[|items| - 1] in items;
      EmittedAreCarried(items[..|items| - 1]);
    }
  }

  lemma {:induction false} CarriedUnchanged(events: seq<DurableEvent>)
    requires forall e | e in events :: Carried(e)
    ensures StrippedFrames(events) == EventFrames(events)
  {
    if events != [] {
      assert events[0] in events;
      CarriedUnchanged(events[1..]);
      assert events == [events[0]] + events[1..];
      StrippedFramesFirst(events[0], events[1..]);
    }
  }

  lemma CarriedIsWritable(items: seq<Item>)
    requires forall i | i in items :: CarriedItem(i)
    ensures forall i | i in items :: WritableItem(i)
  {
    forall i | i in items
      ensures WritableItem(i)
    {
      assert CarriedItem(i);
    }
  }

  lemma ItemsReadBack(items: seq<Item>)
    requires forall i | i in items :: CarriedItem(i)
    ensures forall b | b in ItemBlocks(items) :: Sendable(b)
    ensures SseStandard.WithData(FramesOf(ItemBlocks(items))) == EventFrames(Emitted(items))
  {
    CarriedIsWritable(items);
    ItemsReadStripped(items);
    EmittedAreCarried(items);
    CarriedUnchanged(Emitted(items));
  }

  /** The lines the server sends for a run of the tail, with any terminators. */
  predicate OnTheWire(ls: seq<Line>, items: seq<Item>) {
    Texts(ls) == WireLines(ItemBlocks(items)) && Unambiguous(ls)
  }

  /** Whatever the payloads: the frames with data are the log after the start cursor up to
      the tail's cursor, each payload without the line feeds it starts with, those left
      empty dropped. */
  lemma EveryPayloadReachesClient(log: seq<DurableEvent>, start: Option<int>, steps: seq<Step>, pageSize: nat,
                                  ls: seq<Line>, calls: seq<Call>)
    requires Ascending(log)
    requires forall i | i in Run(Opened(log, start), steps, pageSize).out :: WritableItem(i)
    requires OnTheWire(ls, Run(Opened(log, start), steps, pageSize).out)
    requires PushedText(calls) == Render(ls)
    ensures var w := Run(Opened(log, start), steps, pageSize);
            var r := RunCalls(NEW_READER, calls);
            && SseStandard.WithData(r.taken + CompleteFrames(r.parser)) == StrippedFrames(Emitted(w.out))
            && Unfinished(r.parser) == ""
            && Emitted(w.out) + After(w.log, Cutoff(w.tail.cursor)) == After(w.log, Cutoff(start))
  {
    var w := Run(Opened(log, start), steps, pageSize);
    OpenedIsGapFree(log, start);
    RunKeepsGapFree(Opened(log, start), start, steps, pageSize);
    ItemsReadStripped(w.out);
    PrintedBlocksParse(ItemBlocks(w.out), ls, calls);
  }

  /** Everything sent and read: the frames with data are the log after the start
      cursor up to the tail's cursor, in order, each event once. */
  lemma LogReachesClient(log: seq<DurableEvent>, start: Option<int>, steps: seq<Step>, pageSize: nat,
                         ls: seq<Line>, calls: seq<Call>)
    requires Ascending(log)
    requires forall i | i in Run(Opened(log, start), steps, pageSize).out :: CarriedItem(i)
    requires OnTheWire(ls, Run(Opened(log, start), steps, pageSize).out)
    requires PushedText(calls) == Render(ls)
    ensures var w := Run(Opened(log, start), steps, pageSize);
            var r := RunCalls(NEW_READER, calls);
            && SseStandard.WithData(r.taken + CompleteFrames(r.parser)) == EventFrames(Emitted(w.out))
            && Unfinished(r.parser) == ""
            && Emitted(w.out) + After(w.log, Cutoff(w.tail.cursor)) == After(w.log, Cutoff(start))
  {
    var w := Run(Opened(log, start), steps, pageSize);
    CarriedIsWritable(w.out);
    EveryPayloadReachesClient(log, start, steps, pageSize, ls, calls);
    EmittedAreCarried(w.out);
    CarriedUnchanged(Emitted(w.out));
  }

  lemma {:induction false} EventFramesPrefix(a: seq<DurableEvent>, b: seq<DurableEvent>)
    ensures EventFrames(a + b) == EventFrames(a) + EventFrames(b)
  {
    if a == [] {
      assert a + b == b;
    } else {
      assert (a + b)[1..] == a[1..] + b;
      EventFramesPrefix(a[1..], b);
    }
  }

  lemma WithDataPrefix(a: seq<SseFrame>, b: seq<SseFrame>)
    requires a <= b
    ensures SseStandard.WithData(a) <= SseStandard.WithData(b)
  {
    assert b == a + b[|a|..];
    SseStandard.WithDataSplits(a, b[|a|..]);
  }

  lemma EventFramesFront(events: seq<DurableEvent>, k: nat)
    requires k <= |events|
    ensures |EventFrames(events)| == |events| && EventFrames(events)[..k] == EventFrames(events[..k])
  {
    EventFramesCount(events);
    EventFramesCount(events[..k]);
    assert events == events[..k] + events[k..];
    EventFramesPrefix(events[..k], events[k..]);
  }

  lemma {:induction false} EventFramesCount(events: seq<DurableEvent>)
    ensures |EventFrames(events)| == |events|
  {
    if events != [] {
      EventFramesCount(events[1..]);
    }
  }

  /** A connection cut anywhere, even inside a line: what the client has taken is the
      beginning of what was sent. */
  lemma CutConnectionIsAPrefix(log: seq<DurableEvent>, start: Option<int>, steps: seq<Step>, pageSize: nat,
                               ls: seq<Line>, calls: seq<Call>, lost: string)
    requires Ascending(log)
    requires forall i | i in Run(Opened(log, start), steps, pageSize).out :: CarriedItem(i)
    requires OnTheWire(ls, Run(Opened(log, start), steps, pageSize).out)
    requires PushedText(calls) + lost == Render(ls)
    ensures var w := Run(Opened(log, start), steps, pageSize);
            SseStandard.WithData(RunCalls(NEW_READER, calls).taken) <= EventFrames(Emitted(w.out))
            && EventFrames(Emitted(w.out)) <= EventFrames(After(w.log, Cutoff(start)))
  {
    var w := Run(Opened(log, start), steps, pageSize);
    var whole := [Push(PushedText(calls) + lost)];
    assert whole[1..] == [];
    assert PushedText(whole) == Render(ls) + "";
    LogReachesClient(log, start, steps, pageSize, ls, whole);
    var all := Pushed(EMPTY_PARSER, PushedText(calls) + lost);
    assert RunCalls(NEW_READER, whole) == Reader(all, []);
    assert [] + CompleteFrames(all) == CompleteFrames(all);
    EventFramesPrefix(Emitted(w.out), After(w.log, Cutoff(w.tail.cursor)));
    FramesArePrefixStable(calls, lost);
    WithDataPrefix(RunCalls(NEW_READER, calls).taken, CompleteFrames(all));
  }

  // ---------------------------------------------------------------------------
  // What the client makes of the frames
  // ---------------------------------------------------------------------------

  /** What repeated calls of `next_event` return until the connection is closed, or dropped
      after a lag notice. */
  function Taking<E>(decode: string -> Option<E>, readCount: string -> nat, frames: seq<SseFrame>, end: string)
    : seq<Outcome<E>>
    decreases |frames|
  {
    var (o, rest) := FirstInterest(decode, readCount, frames, end);
    if o.Closed? then [] else if o.Lagged? then [o] else [o] + Taking(decode, readCount, rest, end)
  }

  /** What the client should make of events: a lag notice ends the connection, an event that
      cannot be decoded is skipped, any other is passed on. */
  function Expected<E>(decode: string -> Option<E>, readCount: string -> nat, events: seq<DurableEvent>)
    : seq<Outcome<E>>
  {
    if events == [] then []
    else if events[0].eventType == "lagged" then [Lagged(readCount(events[0].payload))]
    else
      (match decode(events[0].payload) case Some(e) => [Outcome.Event(e)] case None => [])
      + Expected(decode, readCount, events[1..])
  }

  lemma ExpectedFront<E>(decode: string -> Option<E>, readCount: string -> nat, e: DurableEvent,
                         rest: seq<DurableEvent>)
    ensures Expected(decode, readCount, [e] + rest)
            == if e.eventType == "lagged" then [Lagged(readCount(e.payload))]
               else (match decode(e.payload) case Some(x) => [Outcome.Event(x)] case None => [])
                    + Expected(decode, readCount, rest)
  {
    assert ([e] + rest)[1..] == rest;
  }

  lemma TakingEvent<E>(decode: string -> Option<E>, readCount: string -> nat, e: DurableEvent, rest: seq<SseFrame>,
                       end: string)
    requires e.payload != ""
    ensures Taking(decode, readCount, [EventFrame(e)] + rest, end)
            == if e.eventType == "lagged" then [Lagged(readCount(e.payload))]
               else (match decode(e.payload) case Some(x) => [Outcome.Event(x)] case None => [])
                    + Taking(decode, readCount, rest, end)
  {
    FirstFrameDecides(decode, readCount, EventFrame(e), rest, end);
    if e.eventType != "lagged" && decode(e.payload).None? {
      assert [] + Taking(decode, readCount, rest, end) == Taking(decode, readCount, rest, end);
    }
  }

  lemma TakingComment<E>(decode: string -> Option<E>, readCount: string -> nat, rest: seq<SseFrame>, end: string)
    ensures Taking(decode, readCount, [SseFrame(None, "")] + rest, end) == Taking(decode, readCount, rest, end)
  {
    FirstFrameDecides(decode, readCount, SseFrame(None, ""), rest, end);
  }

  lemma {:induction false} ItemsTaken<E>(decode: string -> Option<E>, readCount: string -> nat, items: seq<Item>,
                                         end: string)
    requires forall i | i in items :: CarriedItem(i)
    ensures Taking(decode, readCount, FramesOf(ItemBlocks(items)), end) == Expected(decode, readCount, Emitted(items))
  {
    if items != [] {
      var item, rest := items[0], items[1..];
      assert item in items;
      ItemsTaken(decode, readCount, rest, end);
      ItemBlockReads(item);
      FramesOfFirst(ItemBlock(item), ItemBlocks(rest));
      EmittedFront(items);
      if item.Frame? {
        TakingEvent(decode, readCount, item.event, FramesOf(ItemBlocks(rest)), end);
        ExpectedFront(decode, readCount, item.event, Emitted(rest));
      } else {
        TakingComment(decode, readCount, FramesOf(ItemBlocks(rest)), end);
        assert [] + Emitted(rest) == Emitted(rest);
      }
    }
  }

  /** From the log to the client's events: over a connection that delivers the whole text
      in any chunks, repeated `next_event` returns what the events of the log after the
      start cursor up to the tail's cursor call for, in order, each once. */
  lemma EventsReachClient<E>(decode: string -> Option<E>, readCount: string -> nat, end: string,
                             log: seq<DurableEvent>, start: Option<int>, steps: seq<Step>, pageSize: nat,
                             ls: seq<Line>, chunks: seq<string>)
    requires Ascending(log)
    requires forall i | i in Run(Opened(log, start), steps, pageSize).out :: CarriedItem(i)
    requires OnTheWire(ls, Run(Opened(log, start), steps, pageSize).out)
    requires Concat(chunks) == Render(ls)
    ensures var w := Run(Opened(log, start), steps, pageSize);
            && Taking(decode, readCount, CompleteFrames(Pushed(EMPTY_PARSER, Concat(chunks))), end)
               == Expected(decode, readCount, Emitted(w.out))
            && Emitted(w.out) + After(w.log, Cutoff(w.tail.cursor)) == After(w.log, Cutoff(start))
  {
    var w := Run(Opened(log, start), steps, pageSize);
    OpenedIsGapFree(log, start);
    RunKeepsGapFree(Opened(log, start), start, steps, pageSize);
    WholeTextParses(w.out, ls);
    ItemsTaken(decode, readCount, w.out, end);
  }

  /** Of events that can be decoded, and are not lag notices, the client gets every one. */
  lemma {:induction false} DecodableAllExpected<E>(decode: string -> Option<E>, readCount: string -> nat,
                                                   events: seq<DurableEvent>)
    requires forall e | e in events :: e.eventType != "lagged" && decode(e.payload).Some?
    ensures var got := Expected(decode, readCount, events);
            |got| == |events|
            && forall i | 0 <= i < |got| :: events[i] in events
                                            && got[i] == Outcome.Event(decode(events[i].payload).value)
  {
    if events != [] {
      assert events[0] in events;
      DecodableAllExpected(decode, readCount, events[1..]);
    }
  }

  lemma WholeTextParses(items: seq<Item>, ls: seq<Line>)
    requires (forall i | i in items :: CarriedItem(i)) && OnTheWire(ls, items)
    ensures CompleteFrames(Pushed(EMPTY_PARSER, Render(ls))) == FramesOf(ItemBlocks(items))
  {
    var calls := [Push(Render(ls))];
    assert calls[1..] == [] && PushedText(calls) == Render(ls) + "";
    ItemsReadBack(items);
    PrintedBlocksParse(ItemBlocks(items), ls, calls);
    assert RunCalls(NEW_READER, calls) == Reader(Pushed(EMPTY_PARSER, Render(ls)), []);
    var frames := CompleteFrames(Pushed(EMPTY_PARSER, Render(ls)));
    assert [] + frames == frames;
  }

  // ---------------------------------------------------------------------------
  // Many connections, each cut inside its text
  // ---------------------------------------------------------------------------

  /** One connection: whether a lookup of the head succeeds, what happens at the server,
      the lines it writes, the calls of the client's parser on the text that arrives, and
      the text that is lost. */
  datatype Link = Link(lookupOk: bool, steps: seq<Step>, lines: seq<Line>, calls: seq<Call>, lost: string)

  function Taken(link: Link): seq<SseFrame> {
    SseStandard.WithData(RunCalls(NEW_READER, link.calls).taken)
  }

  function AllTaken(links: seq<Link>): seq<SseFrame> {
    if links == [] then [] else Taken(links[0]) + AllTaken(links[1..])
  }

  /** The connection as the server's log sees it: as many events arrive as frames with
      data are taken. */
  function SessionOf(link: Link): Session {
    Session(link.lookupOk, link.steps, |Taken(link)|)
  }

  function SessionsOf(links: seq<Link>): seq<Session> {
    if links == [] then [] else [SessionOf(links[0])] + SessionsOf(links[1..])
  }

  /** The lines are those of the items sent, and the client reads a first part of them. */
  predicate LinkFits(log: seq<DurableEvent>, r: Request, link: Link, pageSize: nat) {
    var out := Run(Opened(log, Opening(log, r, link.lookupOk)), link.steps, pageSize).out;
    (forall i | i in out :: CarriedItem(i)) && OnTheWire(link.lines, out)
    && PushedText(link.calls) + link.lost == Render(link.lines)
  }

  /** Links opened one after the other, each with the client's last event in its header
      if the client `resumes` and without a cursor otherwise. */
  predicate LinksFit(log: seq<DurableEvent>, r: Request, resumes: bool, links: seq<Link>, pageSize: nat)
    decreases |links|
  {
    links == [] ||
    var (log', seen) := Deliver(log, r, SessionOf(links[0]), pageSize);
    LinkFits(log, r, links[0], pageSize)
    && LinksFit(log', if resumes then ByHeader(Resume(Named(r), seen)) else NO_CURSOR, resumes, links[1..], pageSize)
  }

  /** The frames taken over one link are the events that arrive over it. */
  lemma LinkDelivers(log: seq<DurableEvent>, r: Request, link: Link, pageSize: nat)
    requires Ascending(log) && LinkFits(log, r, link, pageSize)
    ensures Taken(link) == EventFrames(Deliver(log, r, SessionOf(link), pageSize).1)
  {
    var cursor := Opening(log, r, link.lookupOk);
    var sent := Emitted(Run(Opened(log, cursor), link.steps, pageSize).out);
    CutConnectionIsAPrefix(log, cursor, link.steps, pageSize, link.lines, link.calls, link.lost);
    var k := |Taken(link)|;
    EventFramesCount(sent);
    EventFramesFront(sent, k);
    assert Taken(link) == EventFrames(sent)[..k];
    assert k == |sent| ==> sent[..k] == sent;
  }

  lemma {:induction false} LinksDeliver(log: seq<DurableEvent>, r: Request, links: seq<Link>, pageSize: nat)
    requires Ascending(log) && LinksFit(log, r, true, links, pageSize)
    ensures AllTaken(links) == EventFrames(Chain(log, r, SessionsOf(links), pageSize).1)
    decreases |links|
  {
    if links != [] {
      var (log', seen) := Deliver(log, r, SessionOf(links[0]), pageSize);
      var next := ByHeader(Resume(Named(r), seen));
      var (final, more) := Chain(log', next, SessionsOf(links[1..]), pageSize);
      LinkDelivers(log, r, links[0], pageSize);
      OneSession(log, r, SessionOf(links[0]), pageSize);
      LinksDeliver(log', next, links[1..], pageSize);
      assert SessionsOf(links)[1..] == SessionsOf(links[1..]);
      EventFramesPrefix(seen, more);
    }
  }

  /** Over any number of connections, each cut anywhere in its text and resumed after the
      last event taken, the frames taken are the log from the first delivering cursor on:
      no gap, no repetition, no reordering. */
  lemma ResumedLinksAreGapFree(log: seq<DurableEvent>, r: Request, links: seq<Link>, pageSize: nat)
    requires Ascending(log) && LinksFit(log, r, true, links, pageSize)
    ensures var final := Chain(log, r, SessionsOf(links), pageSize).0;
            AllTaken(links) <= EventFrames(After(final, FirstStart(log, r, SessionsOf(links), pageSize)))
  {
    var (final, seen) := Chain(log, r, SessionsOf(links), pageSize);
    var first := FirstStart(log, r, SessionsOf(links), pageSize);
    LinksDeliver(log, r, links, pageSize);
    ChainIsGapFree(log, r, SessionsOf(links), pageSize);
    EventFramesPrefix(seen, After(final, Cutoff(Resume(Some(first), seen))));
  }

  lemma {:induction false} HeadLinksDeliver(log: seq<DurableEvent>, links: seq<Link>, pageSize: nat)
    requires Ascending(log) && LinksFit(log, NO_CURSOR, false, links, pageSize)
    ensures AllTaken(links) == EventFrames(HeadChain(log, SessionsOf(links), pageSize).1)
    decreases |links|
  {
    if links != [] {
      var (log', seen) := Deliver(log, NO_CURSOR, SessionOf(links[0]), pageSize);
      var (final, more) := HeadChain(log', SessionsOf(links[1..]), pageSize);
      LinkDelivers(log, NO_CURSOR, links[0], pageSize);
      OneSession(log, NO_CURSOR, SessionOf(links[0]), pageSize);
      HeadLinksDeliver(log', links[1..], pageSize);
      assert SessionsOf(links)[1..] == SessionsOf(links[1..]);
      EventFramesPrefix(seen, more);
    }
  }

  /** What `symphony watch` takes, over connections cut anywhere and reopened without a
      cursor, are events of the log: in order, and each at most once, exactly if every
      link that delivers after a failed lookup delivers first; without gap exactly as
      `HeadChainGapFreeExactlyWhen` says. */
  lemma WatchTakesLoggedEvents(log: seq<DurableEvent>, links: seq<Link>, pageSize: nat)
    requires Ascending(log) && LinksFit(log, NO_CURSOR, false, links, pageSize)
    ensures var (final, seen) := HeadChain(log, SessionsOf(links), pageSize);
            && AllTaken(links) == EventFrames(seen) && (forall e | e in seen :: e in final)
            && (Ascending(seen) <==> ReplaysComeFirst(false, log, SessionsOf(links), pageSize))
            && (seen <= After(final, FirstStart(log, NO_CURSOR, SessionsOf(links), pageSize))
                <==> CaughtUpAtReopenings(log, SessionsOf(links), pageSize))
  {
    HeadLinksDeliver(log, links, pageSize);
    HeadArrivalsAreLogged(log, SessionsOf(links), pageSize);
    HeadArrivalsAscendExactlyWhen(log, SessionsOf(links), pageSize);
    HeadChainGapFreeExactlyWhen(log, SessionsOf(links), pageSize);
  }
}
