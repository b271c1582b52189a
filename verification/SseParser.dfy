/**
 The streaming parser: an in-place buffer fed by arbitrary chunks, and the
 connection loop that alternates reading chunks with taking frames.
 */
module SseParsing {
  import opened Prelude
  import opened SseText

  datatype ParserState = ParserState(buf: string, prevCr: bool)

  const EMPTY_PARSER := ParserState("", false)

  function Pushed(p: ParserState, chunk: string): ParserState {
    ParserState(p.buf + Normalize(p.prevCr, chunk), EndsOnCr(p.prevCr, chunk))
  }

  function Polled(p: ParserState): (ParserState, Option<SseFrame>) {
    match FindBlank(p.buf)
    case None => (p, None)
    case Some(i) => (p.(buf := p.buf[i + 2..]), Some(FrameOf(SplitLines(p.buf[..i]))))
  }

  /** All frames that are complete in the buffer. */
  function CompleteFrames(p: ParserState): seq<SseFrame> {
    FramesOf(Blocks(p.buf).0)
  }

  /** The buffered text that belongs to no complete frame. */
  function Unfinished(p: ParserState): string {
    Blocks(p.buf).1
  }

  /** Rust's `trim_end_matches('\n')`. */
  function TrimLf(s: string): string {
    if s != "" && s[|s| - 1] == '\n' then TrimLf(s[..|s| - 1]) else s
  }

  /** Trimming a block removes its two terminators and nothing else. */
  lemma TrimRemovesTerminators(buf: string, i: nat)
    requires FindBlank(buf) == Some(i)
    ensures TrimLf(buf[..i + 2]) == buf[..i]
  {
    assert buf[..i + 2][..i + 1] == buf[..i + 1];
    assert buf[..i + 1][..i] == buf[..i];
    assert TrimLf(buf[..i + 2]) == TrimLf(buf[..i + 1]) == TrimLf(buf[..i]);
    if i > 0 {
      assert !BlankAt(buf, i - 1);
    }
  }

  class SseParser {
    var buf: string
    var prevCr: bool

    function State(): ParserState
      reads this
    {
      ParserState(buf, prevCr)
    }

    constructor ()
      ensures State() == EMPTY_PARSER
    {
      buf, prevCr := "", false;
    }

    method Push(chunk: string)
      modifies this
      ensures State() == Pushed(old(State()), chunk)
    {
      for i := 0 to |chunk|
        invariant State() == Pushed(old(State()), chunk[..i])
      {
        PushOne(old(State()), chunk, i);
        var ch := chunk[i];
        if prevCr && ch == '\n' {
          prevCr := false;
        } else if ch == '\r' {
          buf := buf + "\n";
          prevCr := true;
        } else {
          buf := buf + [ch];
          prevCr := false;
        }
      }
      assert chunk[..|chunk|] == chunk;
    }

    method NextFrame() returns (r: Option<SseFrame>)
      modifies this
      ensures (State(), r) == Polled(old(State()))
    {
      var end := FindBlank(buf);
      if end.None? {
        return None;
      }
      var block := buf[..end.value + 2];
      TrimRemovesTerminators(buf, end.value);
      buf := buf[end.value + 2..];
      var frame := ReadBlock(SplitLines(TrimLf(block)));
      r := Some(frame);
    }

    /** The line loop of `next_frame`. */
    static method ReadBlock(lines: seq<string>) returns (frame: SseFrame)
      ensures frame == FrameOf(lines)
    {
      var event: Option<string> := None;
      var data := "";
      for i := 0 to |lines|
        invariant SseFrame(event, data) == FrameOf(lines[..i])
      {
        var line := lines[i];
        TakeLine(lines, i);
        if line == "" || line[0] == ':' {
          continue;
        }
        var field := ParseField(line);
        if field.name == "event" {
          event := Some(field.value);
        } else if field.name == "data" {
          if data != "" {
            data := data + "\n";
          }
          data := data + field.value;
        }
      }
      assert lines[..|lines|] == lines;
      frame := SseFrame(event, data);
    }
  }

  lemma PushOne(p: ParserState, chunk: string, i: nat)
    requires i < |chunk|
    ensures var q := Pushed(p, chunk[..i]);
            Pushed(p, chunk[..i + 1]) == ParserState(q.buf + Emit(q.prevCr, chunk[i]), chunk[i] == '\r')
  {
    var c := [chunk[i]];
    var q := Pushed(p, chunk[..i]);
    assert chunk[..i + 1] == chunk[..i] + c;
    NormalizeSplits(p.prevCr, chunk[..i], c);
    assert Normalize(q.prevCr, c) == Emit(q.prevCr, chunk[i]) + Normalize(chunk[i] == '\r', "");
  }

  /** What one more line does to the frame read so far. */
  lemma TakeLine(lines: seq<string>, i: nat)
    requires i < |lines|
    ensures var f := ParseField(lines[i]);
            var before := FrameOf(lines[..i]);
            && (lines[i] == "" || lines[i][0] == ':' ==> f.name == "")
            && FrameOf(lines[..i + 1])
               == if f.name == "event" then before.(event := Some(f.value))
                  else if f.name != "data" then before
                  else if before.data != "" then before.(data := before.data + "\n" + f.value)
                  else before.(data := f.value)
  {
    var f := ParseField(lines[i]);
    assert lines[..i + 1] == lines[..i] + [lines[i]];
    assert lines[..i + 1][..i] == lines[..i];
    DataValuesSplit(lines[..i], [lines[i]]);
    var vs := DataValues(lines[..i]);
    if f.name == "data" {
      assert DataValues([lines[i]]) == [f.value];
      JoinOneMore(vs, f.value);
    } else {
      assert DataValues([lines[i]]) == [];
      assert vs + [] == vs;
    }
  }

  lemma JoinOneMore(vs: seq<string>, v: string)
    ensures var before := JoinLf(DropLeadingEmpty(vs));
            JoinLf(DropLeadingEmpty(vs + [v])) == if before != "" then before + "\n" + v else v
  {
    JoinedIsEmpty(vs);
    DropLeadingEmptySnoc(vs, v);
    var ds := DropLeadingEmpty(vs);
    assert ds != [] ==> (ds + [v])[..|ds|] == ds;
  }

  // ---------------------------------------------------------------------------
  // Chunk independence
  // ---------------------------------------------------------------------------

  datatype Call = Push(chunk: string) | NextFrame

  /** A parser in use: its state and the frames taken from it so far. */
  datatype Reader = Reader(parser: ParserState, taken: seq<SseFrame>)

  const NEW_READER := Reader(EMPTY_PARSER, [])

  function PerformCall(r: Reader, call: Call): Reader {
    match call
    case Push(chunk) => r.(parser := Pushed(r.parser, chunk))
    case NextFrame =>
      var (p, frame) := Polled(r.parser);
      Reader(p, if frame.Some? then r.taken + [frame.value] else r.taken)
  }

  /** Any interleaving of `push` and `next_frame`. */
  function RunCalls(r: Reader, calls: seq<Call>): Reader
    decreases |calls|
  {
    if calls == [] then r else RunCalls(PerformCall(r, calls[0]), calls[1..])
  }

  function CallText(call: Call): string {
    if call.Push? then call.chunk else ""
  }

  /** The text of all pushed chunks, joined. */
  function PushedText(calls: seq<Call>): string {
    if calls == [] then "" else CallText(calls[0]) + PushedText(calls[1..])
  }

  /** Every frame a reader has taken or will find once `text` has been pushed too. */
  function AllFrames(r: Reader, text: string): seq<SseFrame> {
    r.taken + CompleteFrames(Pushed(r.parser, text))
  }

  lemma PushedTwice(p: ParserState, a: string, b: string)
    ensures Pushed(Pushed(p, a), b) == Pushed(p, a + b)
  {
    var na, nb := Normalize(p.prevCr, a), Normalize(EndsOnCr(p.prevCr, a), b);
    NormalizeSplits(p.prevCr, a, b);
    EndsOnCrSplits(p.prevCr, a, b);
    assert (p.buf + na) + nb == p.buf + (na + nb);
  }

  /** A buffer with a complete block, and the same buffer without it, under more text. */
  lemma FirstBlockFirst(buf: string, i: nat, more: string)
    requires FindBlank(buf) == Some(i)
    ensures Blocks(buf + more).0 == [SplitLines(buf[..i])] + Blocks(buf[i + 2..] + more).0
    ensures Blocks(buf + more).1 == Blocks(buf[i + 2..] + more).1
  {
    FindBlankStable(buf, more);
    assert (buf + more)[..i] == buf[..i];
    assert (buf + more)[i + 2..] == buf[i + 2..] + more;
  }

  /** Taking a frame now or after more text has been pushed is the same. */
  lemma PolledThenPushed(p: ParserState, text: string)
    ensures var (p', frame) := Polled(p);
            && CompleteFrames(Pushed(p, text))
               == (if frame.Some? then [frame.value] else []) + CompleteFrames(Pushed(p', text))
            && Unfinished(Pushed(p, text)) == Unfinished(Pushed(p', text))
            && Pushed(p, text).prevCr == Pushed(p', text).prevCr
  {
    if FindBlank(p.buf).Some? {
      var i := FindBlank(p.buf).value;
      var more := Normalize(p.prevCr, text);
      FirstBlockFirst(p.buf, i, more);
      FramesOfFirst(SplitLines(p.buf[..i]), Blocks(p.buf[i + 2..] + more).0);
    }
  }

  lemma FramesOfFirst(block: seq<string>, rest: seq<seq<string>>)
    ensures FramesOf([block] + rest) == [FrameOf(block)] + FramesOf(rest)
  {
    assert ([block] + rest)[1..] == rest;
  }

  /** One call changes neither the frames in all nor what will be unfinished. */
  lemma CallAccounts(r: Reader, call: Call, text: string)
    ensures AllFrames(PerformCall(r, call), text) == AllFrames(r, CallText(call) + text)
    ensures var (a, b) := (PerformCall(r, call).parser, r.parser);
            && Unfinished(Pushed(a, text)) == Unfinished(Pushed(b, CallText(call) + text))
            && Pushed(a, text).prevCr == Pushed(b, CallText(call) + text).prevCr
  {
    match call {
      case Push(chunk) => PushedTwice(r.parser, chunk, text);
      case NextFrame =>
        assert "" + text == text;
        PolledThenPushed(r.parser, text);
        var (p, frame) := Polled(r.parser);
        if frame.Some? {
          var rest := CompleteFrames(Pushed(p, text));
          assert (r.taken + [frame.value]) + rest == r.taken + ([frame.value] + rest);
        }
    }
  }

  lemma PushNothing(p: ParserState)
    ensures Pushed(p, "") == p
  {
  }

  /** However the text is cut into chunks and however the calls interleave, the
      frames taken followed by those still complete in the buffer are the frames
      of one push of the whole text, and the unfinished rest is the same. */
  lemma {:induction false} ChunkIndependence(r: Reader, calls: seq<Call>)
    ensures var end := RunCalls(r, calls);
            var whole := Pushed(r.parser, PushedText(calls));
            && end.taken + CompleteFrames(end.parser) == r.taken + CompleteFrames(whole)
            && Unfinished(end.parser) == Unfinished(whole)
            && end.parser.prevCr == whole.prevCr
    decreases |calls|
  {
    if calls == [] {
      PushNothing(r.parser);
    } else {
      CallAccounts(r, calls[0], PushedText(calls[1..]));
      ChunkIndependence(PerformCall(r, calls[0]), calls[1..]);
    }
  }

  lemma FramesGrow(p: ParserState, later: string)
    ensures CompleteFrames(p) <= CompleteFrames(Pushed(p, later))
  {
    var t := Normalize(p.prevCr, later);
    BlocksResume(p.buf, t);
    FramesOfSplits(Blocks(p.buf).0, Blocks(Blocks(p.buf).1 + t).0);
  }

  /** Frames seen after part of the text has arrived are the first frames of all of it. */
  lemma FramesArePrefixStable(calls: seq<Call>, later: string)
    ensures RunCalls(NEW_READER, calls).taken <= CompleteFrames(Pushed(EMPTY_PARSER, PushedText(calls) + later))
  {
    var q := Pushed(EMPTY_PARSER, PushedText(calls));
    FramesTakenFirst(calls);
    FramesGrow(q, later);
    PushedTwice(EMPTY_PARSER, PushedText(calls), later);
  }

  lemma FramesTakenFirst(calls: seq<Call>)
    ensures RunCalls(NEW_READER, calls).taken <= CompleteFrames(Pushed(EMPTY_PARSER, PushedText(calls)))
  {
    ChunkIndependence(NEW_READER, calls);
    var end := RunCalls(NEW_READER, calls);
    StartsWith(end.taken, CompleteFrames(end.parser), CompleteFrames(Pushed(EMPTY_PARSER, PushedText(calls))));
  }

  lemma StartsWith(a: seq<SseFrame>, b: seq<SseFrame>, c: seq<SseFrame>)
    requires a + b == [] + c
    ensures a <= c
  {
    assert [] + c == c;
    assert (a + b)[..|a|] == a;
  }

  // ---------------------------------------------------------------------------
  // The connection loop
  // ---------------------------------------------------------------------------

  datatype Outcome<+E> = Event(event: E) | Lagged(missed: nat) | Closed(reason: string)

  /** What one frame means to the client; `None` if the loop skips it. The JSON
      decoder and the reader of the lag count are parameters. */
  function Interest<E>(decode: string -> Option<E>, readCount: string -> nat, f: SseFrame): Option<Outcome<E>> {
    if f.event == Some("lagged") then Some(Lagged(readCount(f.data)))
    else if f.data == "" then None
    else match decode(f.data)
      case Some(e) => Some(Event(e))
      case None => None
  }

  /** The first interesting frame and the frames after it, or how the connection ends. */
  function FirstInterest<E>(decode: string -> Option<E>, readCount: string -> nat, frames: seq<SseFrame>, end: string)
    : (r: (Outcome<E>, seq<SseFrame>))
    ensures r.0.Closed? ==> r == (Closed(end), []) && forall f | f in frames :: Interest(decode, readCount, f).None?
    ensures !r.0.Closed? ==>
              exists k | 0 <= k < |frames| :: Interest(decode, readCount, frames[k]) == Some(r.0)
                       && frames[k + 1..] == r.1
                       && forall j | 0 <= j < k :: Interest(decode, readCount, frames[j]).None?
  {
    if frames == [] then (Closed(end), [])
    else match Interest(decode, readCount, frames[0])
      case Some(o) => (o, frames[1..])
      case None =>
        var r := FirstInterest(decode, readCount, frames[1..], end);
        assert !r.0.Closed? ==>
            forall k | 0 <= k < |frames[1..]| ::
              frames[1..][k] == frames[k + 1] && frames[1..][k + 1..] == frames[k + 2..];
        r
  }

  function Concat(chunks: seq<string>): string {
    if chunks == [] then "" else chunks[0] + Concat(chunks[1..])
  }

  /** An open connection: its parser and the chunks the network still delivers
      before the server closes the stream or the read fails. */
  class Connection<E> {
    const parser: SseParser
    var chunks: seq<string>
    const decode: string -> Option<E>
    const readCount: string -> nat
    const end: string

    constructor (chunks: seq<string>, decode: string -> Option<E>, readCount: string -> nat, end: string)
      ensures fresh(parser) && this.decode == decode && this.readCount == readCount && this.end == end
      ensures Frames() == CompleteFrames(Pushed(EMPTY_PARSER, Concat(chunks)))
    {
      parser := new SseParser();
      this.chunks := chunks;
      this.decode := decode;
      this.readCount := readCount;
      this.end := end;
    }

    /** Every frame this connection will still produce, however the chunks are cut. */
    function Frames(): seq<SseFrame>
      reads this, parser
    {
      CompleteFrames(Pushed(parser.State(), Concat(chunks)))
    }

    /** Skips frames of no interest and returns the first interesting one, or
        `Closed` if no remaining frame is interesting. */
    method NextEvent() returns (r: Outcome<E>)
      modifies this, parser
      ensures r == FirstInterest(decode, readCount, old(Frames()), end).0
      ensures !r.Closed? ==> Frames() == FirstInterest(decode, readCount, old(Frames()), end).1
      ensures r.Closed? ==> Frames() == []
    {
      while true
        invariant FirstInterest(decode, readCount, Frames(), end)
                  == FirstInterest(decode, readCount, old(Frames()), end)
        decreases |chunks|, |parser.buf|
      {
        PolledThenPushed(parser.State(), Concat(chunks));
        ghost var before := Frames();
        var frame := parser.NextFrame();
        if frame.Some? {
          assert before == [frame.value] + Frames();
          FirstOfCons(decode, readCount, frame.value, Frames(), end);
          var o := Interest(decode, readCount, frame.value);
          if o.Some? {
            return o.value;
          }
        } else if chunks == [] {
          NoFrameLeft(parser.State());
          return Closed(end);
        } else {
          PushedTwice(parser.State(), chunks[0], Concat(chunks[1..]));
          parser.Push(chunks[0]);
          chunks := chunks[1..];
        }
      }
    }
  }

  lemma FirstOfCons<E>(decode: string -> Option<E>, readCount: string -> nat, f: SseFrame, rest: seq<SseFrame>,
                       end: string)
    ensures FirstInterest(decode, readCount, [f] + rest, end)
         == match Interest(decode, readCount, f)
            case Some(o) => (o, rest)
            case None => FirstInterest(decode, readCount, rest, end)
  {
    assert ([f] + rest)[1..] == rest;
  }

  /** A lag notice is never skipped, with whatever data; any other frame is skipped exactly
      if it has no data or cannot be decoded. */
  lemma FirstFrameDecides<E>(decode: string -> Option<E>, readCount: string -> nat, f: SseFrame, rest: seq<SseFrame>,
                             end: string)
    ensures f.event == Some("lagged") ==>
              FirstInterest(decode, readCount, [f] + rest, end) == (Lagged(readCount(f.data)), rest)
    ensures f.event != Some("lagged") && f.data != "" && decode(f.data).Some? ==>
              FirstInterest(decode, readCount, [f] + rest, end) == (Outcome.Event(decode(f.data).value), rest)
    ensures f.event != Some("lagged") && (f.data == "" || decode(f.data).None?) ==>
              FirstInterest(decode, readCount, [f] + rest, end) == FirstInterest(decode, readCount, rest, end)
  {
    FirstOfCons(decode, readCount, f, rest, end);
  }

  lemma NoFrameLeft(p: ParserState)
    requires FindBlank(p.buf).None?
    ensures CompleteFrames(Pushed(p, "")) == []
  {
    assert Pushed(p, "").buf == p.buf;
  }
}
