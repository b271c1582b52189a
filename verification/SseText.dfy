/**
 The text of a server-sent event stream: line terminators, blank-line framing
 and field syntax, as functions on strings. `SseParser` computes these
 functions with an in-place buffer; the lemmas here say what they mean.
 */
module SseText {
  import opened Prelude

  /** One frame handed to the client: the last `event:` value and the joined data. */
  datatype SseFrame = SseFrame(event: Option<string>, data: string)

  // ---------------------------------------------------------------------------
  // Line terminators
  // ---------------------------------------------------------------------------

  /** What `push` appends for one character, given whether the previous one was a
      carriage return: the LF of a CRLF pair adds nothing, a CR adds a line feed. */
  function Emit(cr: bool, c: char): string {
    if cr && c == '\n' then "" else if c == '\r' then "\n" else [c]
  }

  /** What `push` appends for the text `s` when the text before it ended in a
      carriage return exactly if `cr`. */
  function Normalize(cr: bool, s: string): string
    decreases |s|
  {
    if s == "" then "" else Emit(cr, s[0]) + Normalize(s[0] == '\r', s[1..])
  }

  function EndsOnCr(cr: bool, s: string): bool {
    if s == "" then cr else s[|s| - 1] == '\r'
  }

  lemma EndsOnCrSplits(cr: bool, a: string, b: string)
    ensures EndsOnCr(cr, a + b) == EndsOnCr(EndsOnCr(cr, a), b)
  {
  }

  /** Normalisation is a homomorphism once the pending carriage return is carried along. */
  lemma {:induction false} NormalizeSplits(cr: bool, a: string, b: string)
    ensures Normalize(cr, a + b) == Normalize(cr, a) + Normalize(EndsOnCr(cr, a), b)
    decreases |a|
  {
    if a == "" {
      assert a + b == b;
    } else {
      var cr' := a[0] == '\r';
      var s := a + b;
      assert s[0] == a[0] && s[1..] == a[1..] + b;
      assert EndsOnCr(cr', a[1..]) == EndsOnCr(cr, a);
      calc {
        Normalize(cr, s);
        Emit(cr, a[0]) + Normalize(cr', a[1..] + b);
        { NormalizeSplits(cr', a[1..], b); }
        Emit(cr, a[0]) + (Normalize(cr', a[1..]) + Normalize(EndsOnCr(cr, a), b));
        (Emit(cr, a[0]) + Normalize(cr', a[1..])) + Normalize(EndsOnCr(cr, a), b);
        Normalize(cr, a) + Normalize(EndsOnCr(cr, a), b);
      }
    }
  }

  datatype Terminator = Lf | Cr | CrLf

  function TerminatorText(t: Terminator): string {
    match t
    case Lf => "\n"
    case Cr => "\r"
    case CrLf => "\r\n"
  }

  predicate CleanLine(l: string) {
    '\n' !in l && '\r' !in l
  }

  datatype Line = Line(text: string, end: Terminator)

  /** The text a sender writes for lines with individually chosen terminators. */
  function Render(ls: seq<Line>): string {
    if ls == [] then "" else ls[0].text + TerminatorText(ls[0].end) + Render(ls[1..])
  }

  function Texts(ls: seq<Line>): seq<string> {
    if ls == [] then [] else [ls[0].text] + Texts(ls[1..])
  }

  /** Lines each ended by a single line feed. */
  function Terminated(ls: seq<string>): string {
    if ls == [] then "" else ls[0] + "\n" + Terminated(ls[1..])
  }

  /** A blank line ended by LF directly after a line ended by CR reads as one CRLF. */
  predicate Ambiguous(first: Line, second: Line) {
    first.end == Cr && second.text == "" && second.end == Lf
  }

  predicate Unambiguous(ls: seq<Line>) {
    forall i | 0 <= i < |ls| - 1 :: !Ambiguous(ls[i], ls[i + 1])
  }

  /** The number of line ends lost to CR/LF pairs that read as one CRLF. */
  function Lost(cr: bool, ls: seq<Line>): nat
    decreases |ls|
  {
    if ls == [] then 0
    else (if cr && ls[0].text == "" && ls[0].end == Lf then 1 else 0) + Lost(ls[0].end == Cr, ls[1..])
  }

  lemma {:induction false} NormalizeClean(cr: bool, l: string)
    requires CleanLine(l)
    ensures Normalize(cr, l) == l
  {
    if l != "" {
      NormalizeClean(false, l[1..]);
    }
  }

  lemma NormalizeTerminator(cr: bool, end: Terminator)
    ensures Normalize(cr, TerminatorText(end)) == if cr && end == Lf then "" else "\n"
    ensures EndsOnCr(cr, TerminatorText(end)) == (end == Cr)
  {
    var t := TerminatorText(end);
    match end {
      case Lf => assert t[1..] == "";
      case Cr => assert t[1..] == "";
      case CrLf =>
        assert t[1..] == "\n" && "\n"[1..] == "";
        assert Normalize(true, "\n") == "";
    }
  }

  lemma CleanEndsOnCr(cr: bool, l: string)
    requires CleanLine(l)
    ensures EndsOnCr(cr, l) == (cr && l == "")
  {
    assert l != "" ==> l[|l| - 1] in l;
  }

  lemma NormalizeLine(cr: bool, l: Line)
    requires CleanLine(l.text)
    ensures Normalize(cr, l.text + TerminatorText(l.end))
         == if cr && l.text == "" && l.end == Lf then "" else l.text + "\n"
    ensures EndsOnCr(cr, l.text + TerminatorText(l.end)) == (l.end == Cr)
  {
    var cr' := EndsOnCr(cr, l.text);
    CleanEndsOnCr(cr, l.text);
    NormalizeSplits(cr, l.text, TerminatorText(l.end));
    NormalizeClean(cr, l.text);
    NormalizeTerminator(cr', l.end);
    EndsOnCrSplits(cr, l.text, TerminatorText(l.end));
  }

  lemma {:induction false} NormalizeRenderCounts(cr: bool, ls: seq<Line>)
    requires forall l | l in ls :: CleanLine(l.text)
    ensures |Normalize(cr, Render(ls))| == |Terminated(Texts(ls))| - Lost(cr, ls)
    ensures Lost(cr, ls) == 0 ==> Normalize(cr, Render(ls)) == Terminated(Texts(ls))
    decreases |ls|
  {
    if ls != [] {
      var head := ls[0].text + TerminatorText(ls[0].end);
      NormalizeSplits(cr, head, Render(ls[1..]));
      NormalizeLine(cr, ls[0]);
      NormalizeRenderCounts(ls[0].end == Cr, ls[1..]);
      assert Texts(ls)[1..] == Texts(ls[1..]);
    }
  }

  lemma {:induction false} LostIsZero(cr: bool, ls: seq<Line>)
    ensures Lost(cr, ls) == 0 <==>
            Unambiguous(ls) && !(cr && ls != [] && ls[0].text == "" && ls[0].end == Lf)
    decreases |ls|
  {
    if ls != [] {
      LostIsZero(ls[0].end == Cr, ls[1..]);
      if Unambiguous(ls) {
        forall i | 0 <= i < |ls[1..]| - 1
          ensures !Ambiguous(ls[1..][i], ls[1..][i + 1])
        {
          assert !Ambiguous(ls[i + 1], ls[i + 1 + 1]);
        }
      } else {
        var i :| 0 <= i < |ls| - 1 && Ambiguous(ls[i], ls[i + 1]);
        if i > 0 {
          assert Ambiguous(ls[1..][i - 1], ls[1..][i]);
        }
      }
    }
  }

  /** Any mix of the three terminators is read as if every line ended in LF,
      exactly when no bare CR is followed by an empty LF-terminated line. */
  lemma AnyTerminators(ls: seq<Line>)
    requires forall l | l in ls :: CleanLine(l.text)
    ensures Normalize(false, Render(ls)) == Terminated(Texts(ls)) <==> Unambiguous(ls)
  {
    NormalizeRenderCounts(false, ls);
    LostIsZero(false, ls);
  }

  // ---------------------------------------------------------------------------
  // Lines and blocks
  // ---------------------------------------------------------------------------

  function IndexOf(s: string, c: char): (r: Option<nat>)
    ensures r.Some? ==> r.value < |s| && s[r.value] == c && forall j: nat | j < r.value :: s[j] != c
    ensures r.None? ==> c !in s
  {
    if s == "" then None
    else if s[0] == c then Some(0)
    else match IndexOf(s[1..], c)
      case None => None
      case Some(i) =>
        assert forall j: nat | 0 < j < i + 1 :: s[j] == s[1..][j - 1];
        Some(i + 1)
  }

  predicate BlankAt(s: string, i: nat) {
    i + 1 < |s| && s[i] == '\n' && s[i + 1] == '\n'
  }

  /** The first place where two line feeds stand next to each other. */
  function FindBlank(s: string): (r: Option<nat>)
    ensures r.Some? ==> BlankAt(s, r.value) && forall j: nat | j < r.value :: !BlankAt(s, j)
    ensures r.None? ==> forall j: nat :: !BlankAt(s, j)
  {
    if |s| < 2 then None
    else if BlankAt(s, 0) then Some(0)
    else
      match FindBlank(s[1..])
      case None =>
        assert forall j: nat | j > 0 :: BlankAt(s, j) ==> BlankAt(s[1..], j - 1);
        None
      case Some(i) =>
        assert forall j: nat | 0 < j < i + 1 :: BlankAt(s, j) ==> BlankAt(s[1..], j - 1);
        Some(i + 1)
  }

  /** Text that arrives later never moves the first blank line. */
  lemma FindBlankStable(s: string, t: string)
    requires FindBlank(s).Some?
    ensures FindBlank(s + t) == FindBlank(s)
  {
    var i := FindBlank(s).value;
    assert BlankAt(s + t, i);
    forall j: nat | j < i
      ensures !BlankAt(s + t, j)
    {
      assert !BlankAt(s, j);
    }
  }

  /** Rust's `split('\n')`: always at least one piece. */
  function SplitLines(s: string): (r: seq<string>)
    ensures |r| >= 1
  {
    match IndexOf(s, '\n')
    case None => [s]
    case Some(i) => [s[..i]] + SplitLines(s[i + 1..])
  }

  lemma IndexOfFirst(s: string, c: char, i: nat)
    requires i < |s| && s[i] == c && forall j: nat | j < i :: s[j] != c
    ensures IndexOf(s, c) == Some(i)
  {
    assert s[i] in s;
  }

  lemma SplitAfterHead(head: string, tail: string)
    requires '\n' !in head
    ensures SplitLines(head + "\n" + tail) == [head] + SplitLines(tail)
  {
    var s := head + "\n" + tail;
    IndexOfFirst(s, '\n', |head|);
    assert s[..|head|] == head && s[|head| + 1..] == tail;
  }

  /** The pieces of a text at its first line feed. */
  lemma AtFirst(s: string, i: nat) returns (head: string, tail: string)
    requires IndexOf(s, '\n') == Some(i)
    ensures s == head + "\n" + tail && '\n' !in head && |tail| < |s|
  {
    head, tail := s[..i], s[i + 1..];
  }

  lemma JoinAround(head: string, rest: string, b: string)
    ensures (head + "\n" + rest) + "\n" + b == head + "\n" + (rest + "\n" + b)
  {
  }

  lemma {:induction false} SplitLinesJoins(a: string, b: string)
    ensures SplitLines(a + "\n" + b) == SplitLines(a) + SplitLines(b)
    decreases |a|
  {
    match IndexOf(a, '\n') {
      case None => SplitAfterHead(a, b);
      case Some(i) =>
        var head, rest := AtFirst(a, i);
        SplitAfterHead(head, rest);
        JoinAround(head, rest, b);
        SplitAfterHead(head, rest + "\n" + b);
        SplitLinesJoins(rest, b);
        Regroup([head], SplitLines(rest), SplitLines(b));
    }
  }

  /** Every blank-line-terminated block of the text, as its lines, and what is left over. */
  function Blocks(s: string): (r: (seq<seq<string>>, string))
    decreases |s|
  {
    match FindBlank(s)
    case None => ([], s)
    case Some(i) =>
      var (bs, rest) := Blocks(s[i + 2..]);
      ([SplitLines(s[..i])] + bs, rest)
  }

  /** Splitting can stop anywhere and resume when more text has arrived. */
  lemma {:induction false} BlocksResume(a: string, b: string)
    ensures Blocks(a + b).0 == Blocks(a).0 + Blocks(Blocks(a).1 + b).0
    ensures Blocks(a + b).1 == Blocks(Blocks(a).1 + b).1
    decreases |a|
  {
    if FindBlank(a).Some? {
      FindBlankStable(a, b);
      var i := FindBlank(a).value;
      assert (a + b)[..i] == a[..i];
      assert (a + b)[i + 2..] == a[i + 2..] + b;
      BlocksResume(a[i + 2..], b);
    }
  }

  // ---------------------------------------------------------------------------
  // Fields
  // ---------------------------------------------------------------------------

  datatype Field = Field(name: string, value: string)

  /** A line split at its first colon; one space after the colon is dropped. */
  function ParseField(line: string): Field {
    match IndexOf(line, ':')
    case None => Field(line, "")
    case Some(i) =>
      var v := line[i + 1..];
      Field(line[..i], if v != "" && v[0] == ' ' then v[1..] else v)
  }

  lemma FieldOfPieces(name: string, v: string)
    requires ':' !in name
    ensures ParseField(name + ":" + v) == Field(name, if v != "" && v[0] == ' ' then v[1..] else v)
  {
    var line := name + ":" + v;
    IndexOfFirst(line, ':', |name|);
    assert line[..|name|] == name && line[|name| + 1..] == v;
  }

  lemma PiecesOfField(line: string) returns (name: string, v: string)
    requires ':' in line
    ensures ':' !in name && line == name + ":" + v
  {
    var i := IndexOf(line, ':').value;
    name, v := line[..i], line[i + 1..];
  }

  /** A line is read as a field exactly as it can be written: the name without a colon, then
      nothing, or a colon and the value, of which one leading space belongs to the separator. */
  predicate WrittenAs(line: string, name: string, value: string) {
    ':' !in name && ((line == name && value == "")
                     || (line == name + ":" + value && (value == "" || value[0] != ' '))
                     || line == name + ":" + (" " + value))
  }

  lemma FieldWhenWritten(line: string, name: string, value: string)
    requires WrittenAs(line, name, value)
    ensures ParseField(line) == Field(name, value)
  {
    if line == name + ":" + (" " + value) {
      FieldOfPieces(name, " " + value);
      assert (" " + value)[1..] == value;
    } else if line == name + ":" + value {
      FieldOfPieces(name, value);
    }
  }

  lemma FieldExactlyWhen(line: string, name: string, value: string)
    ensures ParseField(line) == Field(name, value) <==> WrittenAs(line, name, value)
  {
    if WrittenAs(line, name, value) {
      FieldWhenWritten(line, name, value);
    } else if ':' in line {
      var n, v := PiecesOfField(line);
      FieldOfPieces(n, v);
      assert v != "" && v[0] == ' ' ==> v == " " + v[1..];
    }
  }

  /** The values of the `data` fields, in order. */
  function DataValues(lines: seq<string>): seq<string> {
    if lines == [] then [] else DataValue(lines[0]) + DataValues(lines[1..])
  }

  function DataValue(line: string): seq<string> {
    if ParseField(line).name == "data" then [ParseField(line).value] else []
  }

  /** The value of the last `event` field, if there is one. */
  function LastEvent(lines: seq<string>): Option<string> {
    if lines == [] then None
    else
      var last := ParseField(lines[|lines| - 1]);
      if last.name == "event" then Some(last.value) else LastEvent(lines[..|lines| - 1])
  }

  function JoinLf(vs: seq<string>): string {
    if vs == [] then ""
    else if |vs| == 1 then vs[0]
    else JoinLf(vs[..|vs| - 1]) + "\n" + vs[|vs| - 1]
  }

  function DropLeadingEmpty(vs: seq<string>): seq<string> {
    if vs != [] && vs[0] == "" then DropLeadingEmpty(vs[1..]) else vs
  }

  /** The frame a block stands for: last event name, and the data values joined
      by line feeds after the leading empty ones are dropped. */
  function FrameOf(lines: seq<string>): SseFrame {
    SseFrame(LastEvent(lines), JoinLf(DropLeadingEmpty(DataValues(lines))))
  }

  function FramesOf(blocks: seq<seq<string>>): (r: seq<SseFrame>)
    ensures |r| == |blocks|
  {
    if blocks == [] then [] else [FrameOf(blocks[0])] + FramesOf(blocks[1..])
  }

  lemma {:induction false} FramesOfSplits(a: seq<seq<string>>, b: seq<seq<string>>)
    ensures FramesOf(a + b) == FramesOf(a) + FramesOf(b)
  {
    if a == [] {
      assert a + b == b;
    } else {
      assert (a + b)[1..] == a[1..] + b;
      FramesOfSplits(a[1..], b);
    }
  }

  lemma DataValuesFront(line: string, rest: seq<string>)
    ensures DataValues([line] + rest) == DataValue(line) + DataValues(rest)
  {
    assert ([line] + rest)[1..] == rest;
  }

  lemma {:induction false} DataValuesSplit(a: seq<string>, b: seq<string>)
    ensures DataValues(a + b) == DataValues(a) + DataValues(b)
  {
    if a == [] {
      assert a + b == b;
    } else {
      var tail := a[1..];
      assert a == [a[0]] + tail && a + b == [a[0]] + (tail + b);
      DataValuesFront(a[0], tail);
      DataValuesFront(a[0], tail + b);
      DataValuesSplit(tail, b);
      Regroup(DataValue(a[0]), DataValues(tail), DataValues(b));
    }
  }

  lemma {:induction false} LastEventSplits(a: seq<string>, b: seq<string>)
    ensures LastEvent(a + b) == if LastEvent(b).Some? then LastEvent(b) else LastEvent(a)
  {
    if b == [] {
      assert a + b == a;
    } else {
      assert (a + b)[..|a + b| - 1] == a + b[..|b| - 1];
      LastEventSplits(a, b[..|b| - 1]);
    }
  }

  lemma OneLine(line: string)
    ensures LastEvent([line]) == if ParseField(line).name == "event" then Some(ParseField(line).value) else None
    ensures DataValues([line]) == if ParseField(line).name == "data" then [ParseField(line).value] else []
  {
    assert [line][..0] == [];
  }

  lemma {:induction false} DropLeadingEmptySnoc(vs: seq<string>, v: string)
    ensures DropLeadingEmpty(vs + [v])
         == if DropLeadingEmpty(vs) == [] && v == "" then [] else DropLeadingEmpty(vs) + [v]
  {
    if vs != [] && vs[0] == "" {
      assert (vs + [v])[1..] == vs[1..] + [v];
      DropLeadingEmptySnoc(vs[1..], v);
    } else if vs == [] {
      assert vs + [v] == [v];
    }
  }

  lemma {:induction false} DropLeadingEmptyShape(vs: seq<string>)
    ensures DropLeadingEmpty(vs) != [] ==> DropLeadingEmpty(vs)[0] != ""
    ensures vs == [] || vs[0] != "" ==> DropLeadingEmpty(vs) == vs
    ensures forall w | w in DropLeadingEmpty(vs) :: w in vs
  {
    if vs != [] && vs[0] == "" {
      DropLeadingEmptyShape(vs[1..]);
    }
  }

  /** A join starts with its first value, followed by a line feed if there are more. */
  lemma {:induction false} JoinLfHead(vs: seq<string>)
    requires vs != []
    ensures |vs| == 1 ==> JoinLf(vs) == vs[0]
    ensures |vs| > 1 ==> vs[0] + "\n" <= JoinLf(vs)
  {
    if |vs| > 1 {
      JoinLfHead(vs[..|vs| - 1]);
    }
  }

  /** The accumulator is empty exactly while every value so far was empty. */
  lemma JoinedIsEmpty(vs: seq<string>)
    ensures JoinLf(DropLeadingEmpty(vs)) == "" <==> DropLeadingEmpty(vs) == []
  {
    DropLeadingEmptyShape(vs);
    if DropLeadingEmpty(vs) != [] {
      JoinLfHead(DropLeadingEmpty(vs));
    }
  }

  lemma {:induction false} JoinLfFront(v: string, vs: seq<string>)
    requires vs != []
    ensures JoinLf([v] + vs) == v + "\n" + JoinLf(vs)
  {
    var all := [v] + vs;
    var init := vs[..|vs| - 1];
    assert all[..|all| - 1] == [v] + init;
    if init != [] {
      JoinLfFront(v, init);
    }
  }

  lemma {:induction false} TerminatedIsJoin(vs: seq<string>)
    requires vs != []
    ensures Terminated(vs) == JoinLf(vs) + "\n"
  {
    if |vs| > 1 {
      TerminatedIsJoin(vs[1..]);
      JoinLfFront(vs[0], vs[1..]);
      assert [vs[0]] + vs[1..] == vs;
    }
  }

  lemma {:induction false} TerminatedSplits(a: seq<string>, b: seq<string>)
    ensures Terminated(a + b) == Terminated(a) + Terminated(b)
  {
    if a == [] {
      assert a + b == b;
    } else {
      assert (a + b)[1..] == a[1..] + b;
      TerminatedSplits(a[1..], b);
    }
  }

  /** Splitting and joining are inverse. */
  lemma {:induction false} JoinOfSplit(s: string)
    ensures JoinLf(SplitLines(s)) == s
    decreases |s|
  {
    if IndexOf(s, '\n').Some? {
      var head, tail := AtFirst(s, IndexOf(s, '\n').value);
      JoinOfSplit(tail);
      SplitAfterHead(head, tail);
      JoinLfFront(head, SplitLines(tail));
    }
  }

  lemma {:induction false} SplitLinesClean(s: string)
    ensures forall l | l in SplitLines(s) :: '\n' !in l
    ensures '\n' !in s ==> SplitLines(s) == [s]
    decreases |s|
  {
    if IndexOf(s, '\n').Some? {
      SplitLinesClean(s[IndexOf(s, '\n').value + 1..]);
    }
  }

  lemma {:induction false} SplitOfJoin(ls: seq<string>)
    requires ls != [] && forall l | l in ls :: '\n' !in l
    ensures SplitLines(JoinLf(ls)) == ls
  {
    var init, last := ls[..|ls| - 1], ls[|ls| - 1];
    assert last in ls;
    SplitLinesClean(last);
    if |ls| > 1 {
      assert forall l | l in init :: l in ls;
      SplitOfJoin(init);
      SplitLinesJoins(JoinLf(init), last);
      assert init + [last] == ls;
    }
  }

  /** A text from its first character on that is not a line feed. */
  function Stripped(text: string): (r: string)
    ensures |r| <= |text|
    ensures r == "" || r[0] != '\n'
  {
    if text != "" && text[0] == '\n' then Stripped(text[1..]) else text
  }

  /** Dropping the leading empty values strips the joined text. */
  lemma {:induction false} DroppedIsStripped(vs: seq<string>)
    requires forall v | v in vs :: '\n' !in v
    ensures JoinLf(DropLeadingEmpty(vs)) == Stripped(JoinLf(vs))
  {
    if |vs| == 1 {
      assert vs[0] in vs;
    } else if |vs| > 1 {
      var joined := JoinLf(vs[1..]);
      JoinLfFront(vs[0], vs[1..]);
      assert [vs[0]] + vs[1..] == vs;
      assert vs[0] in vs;
      if vs[0] == "" {
        DroppedIsStripped(vs[1..]);
        assert ("" + "\n" + joined)[1..] == joined;
      }
    }
  }
}
