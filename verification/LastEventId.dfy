/**
 Resuming by the text: the `id:` line names the event, and a client that sends the last
 id it received is served from exactly the event it took last.
 */
module LastEventId {
  import opened Prelude
  import opened SseText
  import opened SseParsing
  import opened SsePrinting
  import opened DurableTail
  import opened EndToEnd
  import SseStandard

  /** The value of the last `id` field of a block, if there is one. */
  function LastId(lines: seq<string>): Option<string> {
    if lines == [] then None
    else
      var last := ParseField(lines[|lines| - 1]);
      if last.name == "id" then Some(last.value) else LastId(lines[..|lines| - 1])
  }

  /** The last id over some blocks. */
  function LastIdIn(blocks: seq<seq<string>>): Option<string> {
    if blocks == [] then None
    else
      var last := LastId(blocks[|blocks| - 1]);
      if last.Some? then last else LastIdIn(blocks[..|blocks| - 1])
  }

  /** The number a trimmed header text stands for, as the server reads it. */
  function ReadSequence(text: string): Option<int> {
    if text != "" && AllDigits(text) then Some(ReadDecimal(text))
    else if |text| > 1 && text[0] == '+' && AllDigits(text[1..]) then Some(ReadDecimal(text[1..]))
    else if |text| > 1 && text[0] == '-' && AllDigits(text[1..]) then
      var n: int := ReadDecimal(text[1..]);
      Some(-n)
    else None
  }

  // ---------------------------------------------------------------------------
  // The id of one item
  // ---------------------------------------------------------------------------

  lemma SequenceReads(n: int)
    ensures ReadSequence(SequenceText(n)) == Some(n)
  {
    if n >= 0 {
      DecimalReadsBack(n);
    } else {
      DecimalReadsBack(-n);
      var text := SequenceText(n);
      assert text[0] == '-' && text[1..] == Decimal(-n);
      assert !AllDigits(text) by {
        assert !IsDigit(text[0]);
      }
    }
  }

  lemma {:induction false} LastIdSplits(a: seq<string>, b: seq<string>)
    ensures LastId(a + b) == if LastId(b).Some? then LastId(b) else LastId(a)
  {
    if b == [] {
      assert a + b == a;
    } else {
      assert (a + b)[..|a + b| - 1] == a + b[..|b| - 1];
      LastIdSplits(a, b[..|b| - 1]);
    }
  }

  lemma IdOfLine(line: string)
    ensures LastId([line]) == if ParseField(line).name == "id" then Some(ParseField(line).value) else None
  {
    assert [line][..0] == [];
  }

  lemma PrefixedLineId(prefix: string, name: string, v: string)
    requires FieldPrefix(prefix) && prefix[..|prefix| - 2] == name
    ensures LastId([prefix + v]) == if name == "id" then Some(v) else None
  {
    PrefixedField(prefix, v);
    IdOfLine(prefix + v);
  }

  lemma {:induction false} DataLinesNameNoId(values: seq<string>)
    ensures LastId(DataLines(values)) == None
  {
    if values != [] {
      PrefixedLineId("data: ", "data", values[0]);
      DataLinesNameNoId(values[1..]);
      LastIdSplits(["data: " + values[0]], DataLines(values[1..]));
    }
  }

  /** The block printed for an event carries its sequence number as its last id; a comment
      carries none and is one line that still holds its text behind the colon. */
  lemma BlockNamesEvent(item: Item)
    ensures item.Frame? ==> LastId(ItemBlock(item)).Some?
                            && ReadSequence(LastId(ItemBlock(item)).value) == Some(item.event.sequence)
    ensures item.Comment? ==> LastId(ItemBlock(item)).None?
                              && |ItemBlock(item)| == 1 && ParseField(ItemBlock(item)[0]) == Field("", item.text)
  {
    match item {
      case Frame(e) =>
        var id, event, data := SequenceText(e.sequence), "event: " + e.eventType, DataLines(SplitLines(e.payload));
        PrefixedLineId("id: ", "id", id);
        PrefixedLineId("event: ", "event", e.eventType);
        DataLinesNameNoId(SplitLines(e.payload));
        LastIdSplits(["id: " + id] + [event], data);
        LastIdSplits(["id: " + id], [event]);
        SequenceReads(e.sequence);
      case Comment(text) =>
        PrefixedField(": ", text);
        PrefixedLineId(": ", "", text);
    }
  }

  /** The lines of an event with a one-line payload, in the order of the wire format. */
  lemma OneLineEventBlock(e: DurableEvent)
    requires e.sequence > 0 && '\n' !in e.payload
    ensures ItemBlock(Frame(e)) == ["id: " + Decimal(e.sequence), "event: " + e.eventType, "data: " + e.payload]
  {
    SplitLinesClean(e.payload);
    assert DataLines([e.payload]) == ["data: " + e.payload] by {
      assert [e.payload][1..] == [];
    }
  }

  // ---------------------------------------------------------------------------
  // The last id of a text
  // ---------------------------------------------------------------------------

  lemma {:induction false} ItemBlocksFront(items: seq<Item>, k: nat)
    requires k <= |items|
    ensures |ItemBlocks(items)| == |items| && ItemBlocks(items)[..k] == ItemBlocks(items[..k])
    decreases |items|
  {
    if items != [] {
      ItemBlocksFront(items[1..], if k > 0 then k - 1 else 0);
      if k > 0 {
        assert items[..k][1..] == items[1..][..k - 1];
      }
    }
  }

  lemma {:induction false} EmittedSplits(a: seq<Item>, b: seq<Item>)
    ensures Emitted(a + b) == Emitted(a) + Emitted(b)
  {
    if b == [] {
      assert a + b == a;
    } else {
      assert (a + b)[..|a + b| - 1] == a + b[..|b| - 1];
      EmittedSplits(a, b[..|b| - 1]);
    }
  }

  /** The last id over the blocks of some items names the last event among them. */
  lemma {:induction false} LastIdNamesLastEvent(items: seq<Item>)
    ensures var id := LastIdIn(ItemBlocks(items));
            var sent := Emitted(items);
            if sent == [] then id == None
            else id.Some? && ReadSequence(id.value) == Some(sent[|sent| - 1].sequence)
  {
    ItemBlocksFront(items, |items|);
    if items != [] {
      var n := |items| - 1;
      ItemBlocksFront(items, n);
      LastBlock(items);
      BlockNamesEvent(items[n]);
      LastIdNamesLastEvent(items[..n]);
    }
  }

  lemma {:induction false} LastBlock(items: seq<Item>)
    requires items != []
    ensures |ItemBlocks(items)| == |items| && ItemBlocks(items)[|items| - 1] == ItemBlock(items[|items| - 1])
  {
    if |items| > 1 {
      LastBlock(items[1..]);
    }
  }

  lemma WireBlocks(blocks: seq<seq<string>>, ls: seq<Line>)
    requires forall b | b in blocks :: Sendable(b)
    requires Texts(ls) == WireLines(blocks) && Unambiguous(ls)
    ensures Blocks(Normalize(false, Render(ls))).0 == blocks
  {
    WireLinesClean(blocks);
    TextsElements(ls);
    forall l | l in ls
      ensures CleanLine(l.text)
    {
      var i :| 0 <= i < |ls| && ls[i] == l;
      assert Texts(ls)[i] in Texts(ls);
    }
    AnyTerminators(ls);
    SentBlocksReturn(blocks, "");
    assert Terminated(WireLines(blocks)) + "" == Terminated(WireLines(blocks));
    assert blocks + [] == blocks;
  }

  lemma BlocksOfPart(part: string, lost: string)
    ensures Blocks(Normalize(false, part)).0 <= Blocks(Normalize(false, part + lost)).0
  {
    NormalizeSplits(false, part, lost);
    BlocksResume(Normalize(false, part), Normalize(EndsOnCr(false, part), lost));
  }

  lemma {:induction false} FramesOfFront(blocks: seq<seq<string>>, k: nat)
    requires k <= |blocks|
    ensures FramesOf(blocks)[..k] == FramesOf(blocks[..k])
  {
    assert blocks == blocks[..k] + blocks[k..];
    FramesOfSplits(blocks[..k], blocks[k..]);
  }

  // ---------------------------------------------------------------------------
  // Resuming by the last id
  // ---------------------------------------------------------------------------

  function FramesTaken(link: Link): nat {
    |RunCalls(NEW_READER, link.calls).taken|
  }

  /** The blocks whose frames the client has taken, read off the text it received. */
  function TakenBlocks(link: Link): seq<seq<string>> {
    var received := Blocks(Normalize(false, PushedText(link.calls))).0;
    if FramesTaken(link) < |received| then received[..FramesTaken(link)] else received
  }

  /** The cursor a client sends next: the last id it received, else the one it sent before. */
  function NextCursor(cursor: Option<int>, link: Link): Option<int> {
    var id := LastIdIn(TakenBlocks(link));
    if id.Some? then ReadSequence(id.value) else cursor
  }

  /** The blocks taken are those of the first items sent. */
  lemma TakenAreFirstItems(items: seq<Item>, link: Link)
    requires (forall i | i in items :: CarriedItem(i)) && OnTheWire(link.lines, items)
    requires PushedText(link.calls) + link.lost == Render(link.lines)
    ensures FramesTaken(link) <= |items|
    ensures TakenBlocks(link) == ItemBlocks(items[..FramesTaken(link)])
    ensures RunCalls(NEW_READER, link.calls).taken == FramesOf(TakenBlocks(link))
  {
    var k := FramesTaken(link);
    var received := Blocks(Normalize(false, PushedText(link.calls))).0;
    ItemsReadBack(items);
    WireBlocks(ItemBlocks(items), link.lines);
    BlocksOfPart(PushedText(link.calls), link.lost);
    TakenFirst(link, received);
    FrontOfFront(received, ItemBlocks(items), k);
    ItemBlocksFront(items, 0);
    ItemBlocksFront(items, k);
  }

  lemma FrontOfFront(a: seq<seq<string>>, b: seq<seq<string>>, k: nat)
    requires a <= b && k <= |a|
    ensures a[..k] == b[..k]
  {
  }

  lemma ReceivedFrames(text: string)
    ensures CompleteFrames(Pushed(EMPTY_PARSER, text)) == FramesOf(Blocks(Normalize(false, text)).0)
  {
    assert "" + Normalize(false, text) == Normalize(false, text);
  }

  lemma TakenFirst(link: Link, received: seq<seq<string>>)
    requires received == Blocks(Normalize(false, PushedText(link.calls))).0
    ensures FramesTaken(link) <= |received|
    ensures TakenBlocks(link) == received[..FramesTaken(link)]
    ensures RunCalls(NEW_READER, link.calls).taken == FramesOf(received[..FramesTaken(link)])
  {
    FramesTakenFirst(link.calls);
    ReceivedFrames(PushedText(link.calls));
    FramesOfFront(received, FramesTaken(link));
    assert received[..|received|] == received;
  }

  lemma ArrivedAre(sent: seq<DurableEvent>, a: seq<DurableEvent>, b: seq<DurableEvent>, n: nat)
    requires sent == a + b && n == |a|
    ensures (if n < |sent| then sent[..n] else sent) == a
  {
    if n == |sent| {
      assert b == [];
    }
  }

  /** The frames with data taken are as many as the events among the items taken. */
  lemma TakenCounts(items: seq<Item>, link: Link)
    requires (forall i | i in items :: CarriedItem(i)) && OnTheWire(link.lines, items)
    requires PushedText(link.calls) + link.lost == Render(link.lines)
    ensures FramesTaken(link) <= |items| && |Taken(link)| == |Emitted(items[..FramesTaken(link)])|
  {
    TakenAreFirstItems(items, link);
    var first := items[..FramesTaken(link)];
    assert forall i | i in first :: i in items;
    ItemsReadBack(first);
    EventFramesCount(Emitted(first));
  }

  lemma ArrivedAmongItems(items: seq<Item>, k: nat, n: nat)
    requires k <= |items| && n == |Emitted(items[..k])|
    ensures (if n < |Emitted(items)| then Emitted(items)[..n] else Emitted(items)) == Emitted(items[..k])
  {
    assert items == items[..k] + items[k..];
    EmittedSplits(items[..k], items[k..]);
    ArrivedAre(Emitted(items), Emitted(items[..k]), Emitted(items[k..]), n);
  }

  lemma DeliveredItems(log: seq<DurableEvent>, r: Request, link: Link, pageSize: nat) returns (items: seq<Item>)
    requires LinkFits(log, r, link, pageSize)
    ensures (forall i | i in items :: CarriedItem(i)) && OnTheWire(link.lines, items)
    ensures PushedText(link.calls) + link.lost == Render(link.lines)
    ensures Deliver(log, r, SessionOf(link), pageSize).1
            == if |Taken(link)| < |Emitted(items)| then Emitted(items)[..|Taken(link)|] else Emitted(items)
  {
    items := Run(Opened(log, Opening(log, r, link.lookupOk)), link.steps, pageSize).out;
  }

  lemma ArrivedItems(log: seq<DurableEvent>, r: Request, link: Link, pageSize: nat) returns (first: seq<Item>)
    requires LinkFits(log, r, link, pageSize)
    ensures TakenBlocks(link) == ItemBlocks(first)
    ensures Deliver(log, r, SessionOf(link), pageSize).1 == Emitted(first)
  {
    var items := DeliveredItems(log, r, link, pageSize);
    TakenAreFirstItems(items, link);
    TakenCounts(items, link);
    ArrivedAmongItems(items, FramesTaken(link), |Taken(link)|);
    first := items[..FramesTaken(link)];
  }

  lemma IdOfTaken(cursor: Option<int>, link: Link, first: seq<Item>, seen: seq<DurableEvent>)
    requires TakenBlocks(link) == ItemBlocks(first) && seen == Emitted(first)
    ensures NextCursor(cursor, link) == Resume(cursor, seen)
  {
    LastIdNamesLastEvent(first);
  }

  /** The last id received names the last event that arrived: a client that sends it as its
      next cursor resumes exactly behind what it took. */
  lemma IdNamesResume(log: seq<DurableEvent>, r: Request, link: Link, pageSize: nat)
    requires LinkFits(log, r, link, pageSize)
    ensures NextCursor(Named(r), link) == Resume(Named(r), Deliver(log, r, SessionOf(link), pageSize).1)
  {
    var first := ArrivedItems(log, r, link, pageSize);
    IdOfTaken(Named(r), link, first, Deliver(log, r, SessionOf(link), pageSize).1);
  }

  /** Links opened one after the other, each with the last id the client received in its
      header. */
  predicate IdLinksFit(log: seq<DurableEvent>, r: Request, links: seq<Link>, pageSize: nat)
    decreases |links|
  {
    links == [] ||
    (LinkFits(log, r, links[0], pageSize)
     && IdLinksFit(Deliver(log, r, SessionOf(links[0]), pageSize).0, ByHeader(NextCursor(Named(r), links[0])),
                   links[1..], pageSize))
  }

  lemma {:induction false} IdLinksResume(log: seq<DurableEvent>, r: Request, links: seq<Link>, pageSize: nat)
    requires Ascending(log)
    ensures IdLinksFit(log, r, links, pageSize) <==> LinksFit(log, r, true, links, pageSize)
    decreases |links|
  {
    if links != [] && LinkFits(log, r, links[0], pageSize) {
      var (log', seen) := Deliver(log, r, SessionOf(links[0]), pageSize);
      IdNamesResume(log, r, links[0], pageSize);
      OneSession(log, r, SessionOf(links[0]), pageSize);
      IdLinksResume(log', ByHeader(Resume(Named(r), seen)), links[1..], pageSize);
    }
  }

  /** From text to text: a client that reads its cursor off the last `id:` line it received
      and sends it in the header of its next request takes the log from the first
      delivering connection on, without gap, repetition or reordering. */
  lemma ResumedByIdIsGapFree(log: seq<DurableEvent>, r: Request, links: seq<Link>, pageSize: nat)
    requires Ascending(log) && IdLinksFit(log, r, links, pageSize)
    ensures var final := Chain(log, r, SessionsOf(links), pageSize).0;
            AllTaken(links) <= EventFrames(After(final, FirstStart(log, r, SessionsOf(links), pageSize)))
    ensures Named(r).Some? ==> FirstStart(log, r, SessionsOf(links), pageSize) == Named(r).value
  {
    IdLinksResume(log, r, links, pageSize);
    ResumedLinksAreGapFree(log, r, links, pageSize);
    ChainIsGapFree(log, r, SessionsOf(links), pageSize);
  }
}
