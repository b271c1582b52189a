/** A sender that prints frames as field lines, read back by the parser. */
module SsePrinting {
  import opened Prelude
  import opened SseText
  import opened SseParsing

  /** A field name followed by a colon and one space. */
  predicate FieldPrefix(prefix: string) {
    && |prefix| >= 2
    && prefix[|prefix| - 2] == ':' && prefix[|prefix| - 1] == ' '
    && forall j: nat | j < |prefix| - 2 :: prefix[j] != ':'
  }

  lemma PrefixedField(prefix: string, v: string)
    requires FieldPrefix(prefix)
    ensures ParseField(prefix + v) == Field(prefix[..|prefix| - 2], v)
  {
    var line := prefix + v;
    var n := |prefix| - 2;
    IndexOfFirst(line, ':', n);
    assert line[..n] == prefix[..n];
    assert line[n + 1..] == " " + v;
    assert line[n + 1..][1..] == v;
  }

  function DataLines(values: seq<string>): seq<string> {
    if values == [] then [] else ["data: " + values[0]] + DataLines(values[1..])
  }

  /** The field lines of one printed frame: an optional id, the event name, and
      one `data` line for every line of the data. */
  function FrameLines(id: Option<string>, f: SseFrame): seq<string> {
    HeaderLine("id: ", id) + HeaderLine("event: ", f.event) + DataLines(SplitLines(f.data))
  }

  function HeaderLine(prefix: string, v: Option<string>): seq<string> {
    if v.Some? then [prefix + v.value] else []
  }

  predicate Printable(id: Option<string>, f: SseFrame) {
    && (id.Some? ==> CleanLine(id.value))
    && (f.event.Some? ==> CleanLine(f.event.value))
    && '\r' !in f.data
  }

  /** The first line of the data is not an empty line followed by more. */
  predicate KeepsFirstLine(data: string) {
    data == "" || data[0] != '\n'
  }

  lemma DataLineReads(v: string)
    ensures DataValue("data: " + v) == [v]
    ensures LastEvent(["data: " + v]) == None
  {
    PrefixedField("data: ", v);
    assert "data: "[..4] == "data";
    OneLine("data: " + v);
  }

  lemma {:induction false} DataLinesCarry(values: seq<string>)
    ensures DataValues(DataLines(values)) == values
  {
    if values != [] {
      var line, rest := "data: " + values[0], DataLines(values[1..]);
      DataLineReads(values[0]);
      DataLinesCarry(values[1..]);
      DataValuesFront(line, rest);
      assert [values[0]] + values[1..] == values;
    }
  }

  lemma {:induction false} DataLinesNameNoEvent(values: seq<string>)
    ensures LastEvent(DataLines(values)) == None
  {
    if values != [] {
      DataLineReads(values[0]);
      DataLinesNameNoEvent(values[1..]);
      LastEventSplits(["data: " + values[0]], DataLines(values[1..]));
    }
  }

  lemma {:induction false} DataLinesCount(values: seq<string>)
    ensures |DataLines(values)| == |values|
  {
    if values != [] {
      DataLinesCount(values[1..]);
    }
  }

  lemma DataReadsStripped(data: string)
    ensures JoinLf(DropLeadingEmpty(SplitLines(data))) == Stripped(data)
  {
    JoinOfSplit(data);
    SplitLinesClean(data);
    DroppedIsStripped(SplitLines(data));
  }

  /** A printed frame reads back with the line feeds at the start of its data stripped:
      as itself, exactly when its data does not start with an empty line. */
  lemma FrameReadsBack(id: Option<string>, f: SseFrame)
    ensures FrameOf(FrameLines(id, f)) == f.(data := Stripped(f.data))
    ensures FrameOf(FrameLines(id, f)) == f <==> KeepsFirstLine(f.data)
  {
    var ids, events, datas := HeaderLine("id: ", id), HeaderLine("event: ", f.event), DataLines(SplitLines(f.data));
    HeaderLineReads("id: ", "id", id);
    HeaderLineReads("event: ", "event", f.event);
    DataLinesCarry(SplitLines(f.data));
    DataLinesNameNoEvent(SplitLines(f.data));
    DataValuesSplit(ids + events, datas);
    DataValuesSplit(ids, events);
    LastEventSplits(ids + events, datas);
    LastEventSplits(ids, events);
    assert [] + [] + SplitLines(f.data) == SplitLines(f.data);
    DataReadsStripped(f.data);
  }

  lemma HeaderLineReads(prefix: string, name: string, v: Option<string>)
    requires FieldPrefix(prefix) && prefix[..|prefix| - 2] == name && name != "data"
    ensures DataValues(HeaderLine(prefix, v)) == []
    ensures LastEvent(HeaderLine(prefix, v)) == if name == "event" then v else None
  {
    if v.Some? {
      PrefixedField(prefix, v.value);
      OneLine(prefix + v.value);
    }
  }

  // ---------------------------------------------------------------------------
  // From blocks of lines to the wire and back
  // ---------------------------------------------------------------------------

  /** A block that can be sent: at least one line, none of them empty or holding a line break. */
  predicate Sendable(block: seq<string>) {
    block != [] && GoodLines(block)
  }

  lemma {:induction false} PiecesLack(s: string, c: char)
    requires c !in s
    ensures forall l | l in SplitLines(s) :: c !in l
    decreases |s|
  {
    if IndexOf(s, '\n').Some? {
      PiecesLack(s[IndexOf(s, '\n').value + 1..], c);
    }
  }

  lemma CleanPieces(s: string)
    requires '\r' !in s
    ensures forall l | l in SplitLines(s) :: CleanLine(l)
  {
    SplitLinesClean(s);
    PiecesLack(s, '\r');
  }

  predicate GoodLines(ls: seq<string>) {
    forall l | l in ls :: l != "" && CleanLine(l)
  }

  lemma GoodTogether(a: seq<string>, b: seq<string>)
    requires GoodLines(a) && GoodLines(b)
    ensures GoodLines(a + b)
  {
  }

  lemma FrameLinesSendable(id: Option<string>, f: SseFrame)
    requires Printable(id, f)
    ensures Sendable(FrameLines(id, f))
  {
    var ids, events, datas := HeaderLine("id: ", id), HeaderLine("event: ", f.event), DataLines(SplitLines(f.data));
    CleanPieces(f.data);
    DataLinesCount(SplitLines(f.data));
    DataLinesClean(SplitLines(f.data));
    HeaderLineClean("id: ", id);
    HeaderLineClean("event: ", f.event);
    GoodTogether(ids, events);
    GoodTogether(ids + events, datas);
  }

  lemma HeaderLineClean(prefix: string, v: Option<string>)
    requires prefix != "" && CleanLine(prefix) && (v.Some? ==> CleanLine(v.value))
    ensures GoodLines(HeaderLine(prefix, v))
  {
    if v.Some? {
      PrefixedClean(prefix, v.value);
    }
  }

  lemma {:induction false} DataLinesClean(values: seq<string>)
    requires forall v | v in values :: CleanLine(v)
    ensures GoodLines(DataLines(values))
  {
    if values != [] {
      assert values[0] in values;
      PrefixedClean("data: ", values[0]);
      DataLinesClean(values[1..]);
    }
  }

  lemma PrefixedClean(prefix: string, v: string)
    requires prefix != "" && CleanLine(prefix) && CleanLine(v)
    ensures prefix + v != "" && CleanLine(prefix + v)
  {
  }

  /** The lines on the wire: every block followed by an empty line. */
  function WireLines(blocks: seq<seq<string>>): seq<string> {
    if blocks == [] then [] else blocks[0] + [""] + WireLines(blocks[1..])
  }

  lemma {:induction false} JoinHasNoBlank(block: seq<string>)
    requires Sendable(block)
    ensures var s := JoinLf(block);
            s != "" && s[0] != '\n' && s[|s| - 1] != '\n' && forall j: nat :: !BlankAt(s, j)
  {
    var init, last := block[..|block| - 1], block[|block| - 1];
    assert last in block;
    assert last[0] in last && last[|last| - 1] in last;
    assert forall j: nat :: BlankAt(last, j) ==> last[j] in last;
    if |block| > 1 {
      assert forall l | l in init :: l in block;
      JoinHasNoBlank(init);
      var a := JoinLf(init);
      var s := a + "\n" + last;
      forall j: nat
        ensures !BlankAt(s, j)
      {
        assert j + 1 < |a| ==> !BlankAt(a, j);
        if j > |a| {
          var k: nat := j - |a| - 1;
          assert BlankAt(s, j) ==> BlankAt(last, k);
        }
      }
    }
  }

  lemma FirstSentBlock(block: seq<string>, rest: string)
    requires Sendable(block)
    ensures FindBlank(JoinLf(block) + "\n\n" + rest) == Some(|JoinLf(block)|)
  {
    JoinHasNoBlank(block);
    var a := JoinLf(block);
    var s := a + "\n\n" + rest;
    assert BlankAt(s, |a|);
    forall j: nat | j < |a|
      ensures !BlankAt(s, j)
    {
      assert j + 1 < |a| ==> !BlankAt(a, j);
    }
  }

  lemma OneSentBlock(block: seq<string>, rest: string)
    requires Sendable(block)
    ensures Blocks(JoinLf(block) + "\n\n" + rest) == ([block] + Blocks(rest).0, Blocks(rest).1)
  {
    var a := JoinLf(block);
    var s := a + "\n\n" + rest;
    FirstSentBlock(block, rest);
    assert s[..|a|] == a && s[|a| + 2..] == rest;
    SplitOfJoin(block);
  }

  /** Sent blocks come back one by one and nothing is left over. */
  lemma {:induction false} SentBlocksReturn(blocks: seq<seq<string>>, tail: string)
    requires forall b | b in blocks :: Sendable(b)
    ensures Blocks(Terminated(WireLines(blocks)) + tail) == (blocks + Blocks(tail).0, Blocks(tail).1)
    decreases |blocks|
  {
    if blocks == [] {
      assert "" + tail == tail;
      assert blocks + Blocks(tail).0 == Blocks(tail).0;
    } else {
      assert blocks[0] in blocks;
      WireText(blocks, tail);
      OneSentBlock(blocks[0], Terminated(WireLines(blocks[1..])) + tail);
      SentBlocksReturn(blocks[1..], tail);
      Rejoined(blocks, Blocks(tail).0);
    }
  }

  lemma Rejoined(blocks: seq<seq<string>>, more: seq<seq<string>>)
    requires blocks != []
    ensures [blocks[0]] + (blocks[1..] + more) == blocks + more
  {
  }

  lemma WireText(blocks: seq<seq<string>>, tail: string)
    requires blocks != [] && blocks[0] != []
    ensures Terminated(WireLines(blocks)) + tail
         == JoinLf(blocks[0]) + "\n\n" + (Terminated(WireLines(blocks[1..])) + tail)
  {
    var a, b := JoinLf(blocks[0]) + "\n\n", Terminated(WireLines(blocks[1..]));
    SentText(blocks[0], WireLines(blocks[1..]));
    Regroup(a, b, tail);
  }

  lemma SentText(block: seq<string>, more: seq<string>)
    requires block != []
    ensures Terminated(block + [""] + more) == JoinLf(block) + "\n\n" + Terminated(more)
  {
    TerminatedSplits(block + [""], more);
    TerminatedSplits(block, [""]);
    TerminatedIsJoin(block);
    assert Terminated([""]) == "" + "\n" + Terminated([]);
    assert JoinLf(block) + "\n" + "\n" == JoinLf(block) + "\n\n";
  }

  lemma {:induction false} WireLinesClean(blocks: seq<seq<string>>)
    requires forall b | b in blocks :: Sendable(b)
    ensures forall l | l in WireLines(blocks) :: CleanLine(l)
  {
    if blocks != [] {
      assert blocks[0] in blocks;
      WireLinesClean(blocks[1..]);
    }
  }

  lemma {:induction false} TextsElements(ls: seq<Line>)
    ensures |Texts(ls)| == |ls| && forall i | 0 <= i < |ls| :: Texts(ls)[i] == ls[i].text
  {
    if ls != [] {
      TextsElements(ls[1..]);
    }
  }

  /** Printed blocks, with a terminator chosen freely for every line, pushed in any
      chunks: the parser's frames are those of the blocks. */
  lemma PrintedBlocksParse(blocks: seq<seq<string>>, ls: seq<Line>, calls: seq<Call>)
    requires forall b | b in blocks :: Sendable(b)
    requires Texts(ls) == WireLines(blocks) && Unambiguous(ls)
    requires PushedText(calls) == Render(ls)
    ensures var r := RunCalls(NEW_READER, calls);
            r.taken + CompleteFrames(r.parser) == FramesOf(blocks) && Unfinished(r.parser) == ""
  {
    WireLinesClean(blocks);
    TextsElements(ls);
    forall l | l in ls
      ensures CleanLine(l.text)
    {
      var i :| 0 <= i < |ls| && ls[i] == l;
      assert Texts(ls)[i] in Texts(ls);
    }
    AnyTerminators(ls);
    ChunkIndependence(NEW_READER, calls);
    var text := Terminated(WireLines(blocks));
    assert "" + text == text && text + "" == text;
    SentBlocksReturn(blocks, "");
    assert blocks + [] == blocks;
  }

  function PrintAll(frames: seq<(Option<string>, SseFrame)>): seq<seq<string>> {
    if frames == [] then [] else [FrameLines(frames[0].0, frames[0].1)] + PrintAll(frames[1..])
  }

  function FramesOnly(frames: seq<(Option<string>, SseFrame)>): seq<SseFrame> {
    if frames == [] then [] else [frames[0].1] + FramesOnly(frames[1..])
  }

  lemma {:induction false} PrintAllReads(frames: seq<(Option<string>, SseFrame)>)
    requires forall f | f in frames :: Printable(f.0, f.1)
    ensures forall b | b in PrintAll(frames) :: Sendable(b)
    ensures FramesOf(PrintAll(frames)) == FramesOnly(frames)
            <==> forall f | f in frames :: KeepsFirstLine(f.1.data)
  {
    if frames != [] {
      var f := frames[0];
      assert f in frames;
      FrameLinesSendable(f.0, f.1);
      FrameReadsBack(f.0, f.1);
      PrintAllReads(frames[1..]);
      var all := PrintAll(frames);
      assert all[1..] == PrintAll(frames[1..]);
      assert FramesOf(all)[0] == FrameOf(FrameLines(f.0, f.1)) && FramesOf(all)[1..] == FramesOf(all[1..]);
      assert FramesOnly(frames)[0] == f.1 && FramesOnly(frames)[1..] == FramesOnly(frames[1..]);
      assert FramesOf(all) == FramesOnly(frames)
             <==> FrameOf(FrameLines(f.0, f.1)) == f.1 && FramesOf(all[1..]) == FramesOnly(frames[1..]) by {
        if FramesOf(all)[0] == f.1 && FramesOf(all)[1..] == FramesOnly(frames)[1..] {
          assert FramesOf(all) == [f.1] + FramesOf(all)[1..];
        }
      }
      assert forall g | g in frames :: g == f || g in frames[1..];
    }
  }

  /** Printing frames and parsing the text, with any terminators and any chunks,
      returns the same frames, exactly when no frame's data starts with an empty line. */
  lemma PrintParseRoundTrip(frames: seq<(Option<string>, SseFrame)>, ls: seq<Line>, calls: seq<Call>)
    requires forall f | f in frames :: Printable(f.0, f.1)
    requires Texts(ls) == WireLines(PrintAll(frames)) && Unambiguous(ls)
    requires PushedText(calls) == Render(ls)
    ensures var r := RunCalls(NEW_READER, calls);
            && Unfinished(r.parser) == ""
            && (r.taken + CompleteFrames(r.parser) == FramesOnly(frames)
                <==> forall f | f in frames :: KeepsFirstLine(f.1.data))
  {
    PrintAllReads(frames);
    PrintedBlocksParse(PrintAll(frames), ls, calls);
  }
}
