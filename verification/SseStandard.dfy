/**
 The parser against the line-at-a-time interpretation of section 9.2.6 of the
 WHATWG HTML Living Standard.
 */
module SseStandard {
  import opened Prelude
  import opened SseText
  import opened SseParsing

  // ---------------------------------------------------------------------------
  // Section 9.2.6: interpreting an event stream, one line at a time
  // ---------------------------------------------------------------------------

  /** An empty event type is no event type. */
  function Typed(f: SseFrame): SseFrame {
    if f.event == Some("") then f.(event := None) else f
  }

  function AllTyped(frames: seq<SseFrame>): (r: seq<SseFrame>)
    ensures |r| == |frames| && forall i | 0 <= i < |frames| :: r[i] == Typed(frames[i])
  {
    if frames == [] then [] else [Typed(frames[0])] + AllTyped(frames[1..])
  }

  /** The messages the standard dispatches for complete lines, from an event type
      buffer and a data buffer. */
  function Messages(event: Option<string>, data: string, lines: seq<string>): seq<SseFrame>
    decreases |lines|
  {
    if lines == [] then []
    else if lines[0] == "" then
      (if data == "" then [] else [Typed(SseFrame(event, data[..|data| - 1]))]) + Messages(None, "", lines[1..])
    else if lines[0][0] == ':' then Messages(event, data, lines[1..])
    else
      var f := ParseField(lines[0]);
      if f.name == "event" then Messages(Some(f.value), data, lines[1..])
      else if f.name == "data" then Messages(event, data + f.value + "\n", lines[1..])
      else Messages(event, data, lines[1..])
  }

  /** The standard's messages for a normalised text; an unterminated last line is discarded. */
  function StandardMessages(text: string): seq<SseFrame> {
    CompleteLineMessages(SplitLines(text))
  }

  function CompleteLineMessages(lines: seq<string>): seq<SseFrame>
    requires lines != []
  {
    Messages(None, "", lines[..|lines| - 1])
  }

  function EventAfter(event: Option<string>, lines: seq<string>): Option<string> {
    if LastEvent(lines).Some? then LastEvent(lines) else event
  }

  /** A line that is not blank only fills the buffers. */
  lemma MessagesOverLine(event: Option<string>, data: string, line: string, rest: seq<string>)
    requires line != ""
    ensures Messages(event, data, [line] + rest)
         == Messages(EventAfter(event, [line]), data + Terminated(DataValues([line])), rest)
  {
    OneLine(line);
    var f := ParseField(line);
    assert ([line] + rest)[1..] == rest;
    if f.name == "data" {
      assert Terminated([f.value]) == f.value + "\n" + Terminated([]);
      assert data + f.value + "\n" == data + Terminated([f.value]);
    } else {
      assert data + "" == data;
    }
  }

  /** Lines without a blank one only fill the buffers; the blank line dispatches them. */
  lemma {:induction false} MessagesOverLines(event: Option<string>, data: string, ls: seq<string>, rest: seq<string>)
    requires "" !in ls
    ensures Messages(event, data, ls + rest)
         == Messages(EventAfter(event, ls), data + Terminated(DataValues(ls)), rest)
    decreases |ls|
  {
    if ls == [] {
      assert ls + rest == rest;
      assert data + "" == data;
    } else {
      var l, tail := ls[0], ls[1..];
      assert l in ls && "" !in tail;
      assert ls == [l] + tail;
      assert ls + rest == [l] + (tail + rest);
      var event', data' := EventAfter(event, [l]), data + Terminated(DataValues([l]));
      calc {
        Messages(event, data, ls + rest);
        { MessagesOverLine(event, data, l, tail + rest); }
        Messages(event', data', tail + rest);
        { MessagesOverLines(event', data', tail, rest); }
        Messages(EventAfter(event', tail), data' + Terminated(DataValues(tail)), rest);
        { BuffersCompose(event, data, [l], tail); }
        Messages(EventAfter(event, ls), data + Terminated(DataValues(ls)), rest);
      }
    }
  }

  lemma BuffersCompose(event: Option<string>, data: string, a: seq<string>, b: seq<string>)
    ensures EventAfter(event, a + b) == EventAfter(EventAfter(event, a), b)
    ensures data + Terminated(DataValues(a + b)) == data + Terminated(DataValues(a)) + Terminated(DataValues(b))
  {
    LastEventSplits(a, b);
    DataComposes(data, a, b);
  }

  lemma DataComposes(data: string, a: seq<string>, b: seq<string>)
    ensures data + Terminated(DataValues(a + b)) == data + Terminated(DataValues(a)) + Terminated(DataValues(b))
  {
    var va, vb := DataValues(a), DataValues(b);
    DataValuesSplit(a, b);
    TerminatedSplits(va, vb);
    Regroup(data, Terminated(va), Terminated(vb));
  }

  /** The message of one block: none without a data field. */
  function BlockMessage(block: seq<string>): seq<SseFrame> {
    if DataValues(block) == [] then [] else [Typed(SseFrame(LastEvent(block), JoinLf(DataValues(block))))]
  }

  function BlockMessages(blocks: seq<seq<string>>): seq<SseFrame> {
    if blocks == [] then [] else BlockMessage(blocks[0]) + BlockMessages(blocks[1..])
  }

  ghost predicate NoBlank(s: string) {
    forall j: nat :: !BlankAt(s, j)
  }

  /** Only the first and the last piece may be empty, and the last only behind a final
      line feed. */
  predicate BlankAtEnds(pieces: seq<string>, last: bool) {
    |pieces| >= 2 ==> "" !in pieces[1..|pieces| - 1] && (!last ==> pieces[|pieces| - 1] != "")
  }

  predicate EndsOnLf(s: string) {
    s != "" && s[|s| - 1] == '\n'
  }

  lemma PieceInFront(piece: string, pieces: seq<string>, last: bool)
    requires pieces != [] && BlankAtEnds(pieces, last)
    requires |pieces| >= 2 ==> pieces[0] != ""
    requires |pieces| == 1 && !last ==> pieces[0] != ""
    ensures BlankAtEnds([piece] + pieces, last)
  {
    var all := [piece] + pieces;
    if |pieces| >= 2 {
      assert all[1..|all| - 1] == [pieces[0]] + pieces[1..|pieces| - 1];
    } else {
      assert all[1..|all| - 1] == [];
    }
  }

  /** Without two adjacent line feeds only the first and the last piece can be empty. */
  lemma {:induction false} NoInnerBlank(s: string)
    requires NoBlank(s)
    ensures BlankAtEnds(SplitLines(s), EndsOnLf(s))
    decreases |s|
  {
    if IndexOf(s, '\n').Some? {
      var i := IndexOf(s, '\n').value;
      var head, tail := AtFirst(s, i);
      SplitAfterHead(head, tail);
      TailNoBlank(s, head, tail);
      NoInnerBlank(tail);
      FirstPiece(tail);
      PieceInFront(head, SplitLines(tail), EndsOnLf(s));
    }
  }

  lemma TailNoBlank(s: string, head: string, tail: string)
    requires NoBlank(s) && s == head + "\n" + tail
    ensures NoBlank(tail) && (tail == "" || tail[0] != '\n')
    ensures EndsOnLf(s) <==> tail == "" || EndsOnLf(tail)
  {
    assert !BlankAt(s, |head|);
    forall j: nat
      ensures !BlankAt(tail, j)
    {
      var k: nat := j + |head| + 1;
      assert BlankAt(tail, j) ==> BlankAt(s, k);
    }
  }

  lemma FirstPiece(s: string)
    requires s == "" || s[0] != '\n'
    ensures |SplitLines(s)| >= 2 ==> SplitLines(s)[0] != ""
    ensures |SplitLines(s)| == 1 ==> SplitLines(s)[0] == s
  {
  }

  lemma MessagesOfBlock(block: seq<string>, rest: seq<string>)
    requires block != [] && "" !in block[1..]
    ensures Messages(None, "", block + [""] + rest) == BlockMessage(block) + Messages(None, "", rest)
  {
    var body := if block[0] == "" then block[1..] else block;
    assert block == [block[0]] + block[1..];
    assert block[0] == "" ==> block + [""] + rest == [""] + (body + ([""] + rest));
    assert block[0] != "" ==> block + [""] + rest == body + ([""] + rest);
    assert Messages(None, "", block + [""] + rest) == Messages(None, "", body + ([""] + rest)) by {
      if block[0] == "" {
        assert ([""] + (body + ([""] + rest)))[1..] == body + ([""] + rest);
      }
    }
    assert "" !in body;
    MessagesOverLines(None, "", body, [""] + rest);
    assert ([""] + rest)[1..] == rest;
    assert DataValues(body) == DataValues(block) && LastEvent(body) == LastEvent(block) by {
      if block[0] == "" {
        LastEventSplits([""], body);
        DataValuesSplit([""], body);
        OneLine("");
      }
    }
    assert "" + Terminated(DataValues(body)) == Terminated(DataValues(body));
    if DataValues(body) != [] {
      TerminatedIsJoin(DataValues(body));
    }
  }

  /** What the standard dispatches depends only on the blank-line-terminated blocks. */
  lemma {:induction false} StandardReadsBlocks(text: string)
    ensures StandardMessages(text) == BlockMessages(Blocks(text).0)
    decreases |text|
  {
    match FindBlank(text) {
      case None => NoMessageBeforeBlank(text);
      case Some(i) =>
        StandardFirstBlock(text, i);
        StandardReadsBlocks(text[i + 2..]);
        BlockMessagesFirst(SplitLines(text[..i]), Blocks(text[i + 2..]).0);
    }
  }

  lemma BlockMessagesFirst(block: seq<string>, rest: seq<seq<string>>)
    ensures BlockMessages([block] + rest) == BlockMessage(block) + BlockMessages(rest)
  {
    assert ([block] + rest)[1..] == rest;
  }

  lemma StandardFirstBlock(text: string, i: nat)
    requires FindBlank(text) == Some(i)
    ensures StandardMessages(text) == BlockMessage(SplitLines(text[..i])) + StandardMessages(text[i + 2..])
  {
    var block, rest := SplitLines(text[..i]), SplitLines(text[i + 2..]);
    FirstBlockLines(text, i);
    MessagesOfAll(SplitLines(text), block, rest);
  }

  lemma MessagesOfAll(lines: seq<string>, block: seq<string>, rest: seq<string>)
    requires lines == block + [""] + rest && rest != []
    requires block != [] && "" !in block[1..]
    ensures CompleteLineMessages(lines) == BlockMessage(block) + CompleteLineMessages(rest)
  {
    DropLast(block + [""], rest);
    MessagesOfBlock(block, rest[..|rest| - 1]);
  }

  lemma DropLast(a: seq<string>, b: seq<string>)
    requires b != []
    ensures (a + b)[..|a + b| - 1] == a + b[..|b| - 1]
  {
  }

  lemma NoMessageBeforeBlank(text: string)
    requires FindBlank(text).None?
    ensures StandardMessages(text) == []
  {
    var lines := SplitLines(text);
    NoInnerBlank(text);
    var kept := lines[..|lines| - 1];
    if kept != [] {
      assert kept == [kept[0]] + lines[1..|lines| - 1];
      var body := if kept[0] == "" then kept[1..] else kept;
      assert "" !in body;
      MessagesOverLines(None, "", body, []);
      assert body + [] == body;
    }
  }

  lemma FirstBlockLines(text: string, i: nat)
    requires FindBlank(text) == Some(i)
    ensures "" !in SplitLines(text[..i])[1..]
    ensures SplitLines(text) == SplitLines(text[..i]) + [""] + SplitLines(text[i + 2..])
  {
    FirstBlockInner(text, i);
    var head, tail := text[..i], text[i + 2..];
    assert text == head + "\n" + text[i + 1..];
    assert text[i + 1..] == "" + "\n" + tail;
    calc {
      SplitLines(text);
      { SplitLinesJoins(head, text[i + 1..]); }
      SplitLines(head) + SplitLines(text[i + 1..]);
      { SplitLinesJoins("", tail); SplitLinesClean(""); }
      SplitLines(head) + ([""] + SplitLines(tail));
    }
  }

  lemma FirstBlockInner(text: string, i: nat)
    requires FindBlank(text) == Some(i)
    ensures "" !in SplitLines(text[..i])[1..]
  {
    var head := text[..i];
    var block := SplitLines(head);
    forall j: nat
      ensures !BlankAt(head, j)
    {
      assert BlankAt(head, j) ==> BlankAt(text, j);
    }
    assert i > 0 ==> !BlankAt(text, i - 1);
    NoInnerBlank(head);
    assert |block| >= 2 ==> block[1..] == block[1..|block| - 1] + [block[|block| - 1]];
  }

  // ---------------------------------------------------------------------------
  // Where the parser and the standard agree
  // ---------------------------------------------------------------------------

  /** The frames a client keeps: those that carry data. */
  function WithData(frames: seq<SseFrame>): seq<SseFrame> {
    if frames == [] then []
    else (if frames[0].data != "" then [frames[0]] else []) + WithData(frames[1..])
  }

  lemma {:induction false} WithDataSplits(a: seq<SseFrame>, b: seq<SseFrame>)
    ensures WithData(a + b) == WithData(a) + WithData(b)
  {
    if a == [] {
      assert a + b == b;
    } else {
      assert (a + b)[1..] == a[1..] + b;
      WithDataSplits(a[1..], b);
    }
  }

  predicate LeadsWithEmptyData(block: seq<string>) {
    DataValues(block) != [] && DataValues(block)[0] == ""
  }

  predicate CleanBlock(block: seq<string>) {
    forall l | l in block :: '\n' !in l
  }

  lemma {:induction false} BlocksAreClean(text: string)
    ensures forall b | b in Blocks(text).0 :: CleanBlock(b)
    decreases |text|
  {
    if FindBlank(text).Some? {
      var i := FindBlank(text).value;
      SplitLinesClean(text[..i]);
      BlocksAreClean(text[i + 2..]);
    }
  }

  lemma {:induction false} DataValuesClean(block: seq<string>)
    requires CleanBlock(block)
    ensures forall v | v in DataValues(block) :: '\n' !in v
  {
    if block != [] {
      assert block[0] in block;
      DataValuesClean(block[1..]);
    }
  }

  lemma {:induction false} MessageIsAmong(blocks: seq<seq<string>>, block: seq<string>)
    requires block in blocks && DataValues(block) != []
    ensures Typed(SseFrame(LastEvent(block), JoinLf(DataValues(block)))) in BlockMessages(blocks)
  {
    if block != blocks[0] {
      MessageIsAmong(blocks[1..], block);
    }
  }

  lemma {:induction false} KeptFrameShape(blocks: seq<seq<string>>)
    requires forall b | b in blocks :: CleanBlock(b)
    ensures forall f | f in WithData(FramesOf(blocks)) :: f.data != "" && f.data[0] != '\n'
  {
    if blocks != [] {
      assert FramesOf(blocks)[1..] == FramesOf(blocks[1..]);
      KeptFrameShape(blocks[1..]);
      var block := blocks[0];
      var vs := DataValues(block);
      DataValuesClean(block);
      DropLeadingEmptyShape(vs);
      var ds := DropLeadingEmpty(vs);
      if ds != [] {
        JoinLfHead(ds);
        assert ds[0] in vs && ds[0][0] in ds[0];
      }
    }
  }

  lemma {:induction false} AgreeWithoutLeadingEmpty(blocks: seq<seq<string>>)
    requires forall b | b in blocks :: !LeadsWithEmptyData(b)
    ensures AllTyped(WithData(FramesOf(blocks))) == BlockMessages(blocks)
  {
    if blocks != [] {
      assert FramesOf(blocks)[1..] == FramesOf(blocks[1..]);
      AgreeWithoutLeadingEmpty(blocks[1..]);
      var vs := DataValues(blocks[0]);
      assert !LeadsWithEmptyData(blocks[0]);
      DropLeadingEmptyShape(vs);
      JoinedIsEmpty(vs);
    }
  }

  lemma LeadingMessageShape(vs: seq<string>)
    requires vs != [] && vs[0] == ""
    ensures JoinLf(vs) == "" || JoinLf(vs)[0] == '\n'
  {
    JoinLfHead(vs);
  }

  lemma NotAmongTyped(frames: seq<SseFrame>, m: SseFrame)
    requires forall f | f in frames :: f.data != m.data
    ensures m !in AllTyped(frames)
  {
    forall i | 0 <= i < |frames| ensures AllTyped(frames)[i] != m {
      assert frames[i] in frames;
    }
  }

  lemma LeadingEmptyDisagrees(blocks: seq<seq<string>>, b: seq<string>)
    requires b in blocks && LeadsWithEmptyData(b) && forall b | b in blocks :: CleanBlock(b)
    ensures AllTyped(WithData(FramesOf(blocks))) != BlockMessages(blocks)
  {
    KeptFrameShape(blocks);
    MessageIsAmong(blocks, b);
    LeadingMessageShape(DataValues(b));
    NotAmongTyped(WithData(FramesOf(blocks)), Typed(SseFrame(LastEvent(b), JoinLf(DataValues(b)))));
  }

  /** Block by block, the kept frames are the standard's messages exactly when no
      block's first data field is empty. */
  lemma AgreeExactlyWhen(blocks: seq<seq<string>>)
    requires forall b | b in blocks :: CleanBlock(b)
    ensures AllTyped(WithData(FramesOf(blocks))) == BlockMessages(blocks)
            <==> forall b | b in blocks :: !LeadsWithEmptyData(b)
  {
    if b :| b in blocks && LeadsWithEmptyData(b) {
      LeadingEmptyDisagrees(blocks, b);
    } else {
      AgreeWithoutLeadingEmpty(blocks);
    }
  }

  /** For every text, cut into any chunks: the frames with data that the parser
      hands out are the messages section 9.2.6 dispatches, if and only if no block
      of the text starts its data with an empty value. */
  lemma ParserMeetsStandard(calls: seq<Call>)
    requires CompleteFrames(RunCalls(NEW_READER, calls).parser) == []
    ensures var text := Normalize(false, PushedText(calls));
            AllTyped(WithData(RunCalls(NEW_READER, calls).taken)) == StandardMessages(text)
            <==> forall b | b in Blocks(text).0 :: !LeadsWithEmptyData(b)
  {
    var text := Normalize(false, PushedText(calls));
    AllFramesTaken(calls);
    StandardReadsBlocks(text);
    BlocksAreClean(text);
    AgreeExactlyWhen(Blocks(text).0);
  }

  lemma AllFramesTaken(calls: seq<Call>)
    requires CompleteFrames(RunCalls(NEW_READER, calls).parser) == []
    ensures RunCalls(NEW_READER, calls).taken == FramesOf(Blocks(Normalize(false, PushedText(calls))).0)
  {
    var text := Normalize(false, PushedText(calls));
    ChunkIndependence(NEW_READER, calls);
    assert "" + text == text;
    assert Pushed(EMPTY_PARSER, PushedText(calls)).buf == text;
    var frames := RunCalls(NEW_READER, calls).taken;
    assert frames + [] == frames;
  }

  // ---------------------------------------------------------------------------
  // What exactly is lost
  // ---------------------------------------------------------------------------

  function StrippedAll(messages: seq<SseFrame>): seq<SseFrame> {
    if messages == [] then []
    else [messages[0].(data := Stripped(messages[0].data))] + StrippedAll(messages[1..])
  }

  lemma {:induction false} StrippedSplits(a: seq<SseFrame>, b: seq<SseFrame>)
    ensures StrippedAll(a + b) == StrippedAll(a) + StrippedAll(b)
  {
    if a == [] {
      assert a + b == b;
    } else {
      assert (a + b)[1..] == a[1..] + b;
      StrippedSplits(a[1..], b);
    }
  }

  lemma KeptFrameFirst(f: SseFrame, frames: seq<SseFrame>)
    ensures AllTyped(WithData([f] + frames))
         == (if f.data == "" then [] else [Typed(f)]) + AllTyped(WithData(frames))
  {
    assert ([f] + frames)[1..] == frames;
  }

  lemma KeptBlock(block: seq<string>)
    requires CleanBlock(block)
    ensures (if FrameOf(block).data == "" then [] else [Typed(FrameOf(block))])
         == WithData(StrippedAll(BlockMessage(block)))
  {
    var vs := DataValues(block);
    DataValuesClean(block);
    DroppedIsStripped(vs);
    var ms := BlockMessage(block);
    if ms != [] {
      assert ms[1..] == [];
    }
  }

  /** Block by block, the kept frames are the standard's messages without their leading
      line feeds, those left empty dropped. */
  lemma {:induction false} KeptAreStripped(blocks: seq<seq<string>>)
    requires forall b | b in blocks :: CleanBlock(b)
    ensures AllTyped(WithData(FramesOf(blocks))) == WithData(StrippedAll(BlockMessages(blocks)))
  {
    if blocks != [] {
      var block, rest := blocks[0], blocks[1..];
      KeptBlock(block);
      KeptAreStripped(rest);
      KeptFrameFirst(FrameOf(block), FramesOf(rest));
      StrippedSplits(BlockMessage(block), BlockMessages(rest));
      WithDataSplits(StrippedAll(BlockMessage(block)), StrippedAll(BlockMessages(rest)));
    }
  }

  /** For every text in any chunks: the frames with data are the messages of section 9.2.6
      with the line feeds at the start of their data stripped, and without the messages
      that this leaves empty. Nothing else is lost or changed. */
  lemma ParserStripsMessages(calls: seq<Call>)
    requires CompleteFrames(RunCalls(NEW_READER, calls).parser) == []
    ensures AllTyped(WithData(RunCalls(NEW_READER, calls).taken))
         == WithData(StrippedAll(StandardMessages(Normalize(false, PushedText(calls)))))
  {
    var text := Normalize(false, PushedText(calls));
    AllFramesTaken(calls);
    StandardReadsBlocks(text);
    BlocksAreClean(text);
    KeptAreStripped(Blocks(text).0);
  }

  /** The parser loses the empty first value of a block that the standard keeps. */
  lemma LeadingEmptyValueIsLost(v: string)
    requires v != "" && v[0] != ' '
    ensures FrameOf(["data:" + "", "data:" + v]).data == v
    ensures BlockMessage(["data:" + "", "data:" + v]) == [SseFrame(None, "\n" + v)]
  {
    TwoDataLines("", v);
    var vs := ["", v];
    assert vs[1..] == [v] && vs[..1] == [""];
    assert DropLeadingEmpty(vs) == DropLeadingEmpty([v]) == [v];
    assert JoinLf(vs) == "" + "\n" + v;
    assert "" + "\n" + v == "\n" + v;
  }

  lemma TwoDataLines(v: string, w: string)
    requires (v == "" || v[0] != ' ') && (w == "" || w[0] != ' ')
    ensures DataValues(["data:" + v, "data:" + w]) == [v, w]
    ensures LastEvent(["data:" + v, "data:" + w]) == None
  {
    var a, b := "data:" + v, "data:" + w;
    DataLine(v);
    DataLine(w);
    OneLine(a);
    OneLine(b);
    assert [a, b] == [a] + [b];
    DataValuesSplit([a], [b]);
    LastEventSplits([a], [b]);
  }

  lemma DataLine(v: string)
    requires v == "" || v[0] != ' '
    ensures ParseField("data:" + v) == Field("data", v)
  {
    var line := "data:" + v;
    IndexOfFirst(line, ':', 4);
    assert line[..4] == "data" && line[5..] == v;
  }
}
