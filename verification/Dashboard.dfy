/**
 The dashboard state: one fold over the watch events, updating the active issues,
 the cost panel, the identifier cache, the tandem panel and the recent-events log.
 */
module Dashboard {
  import opened Prelude
  import opened AgentEvents
  import Reconnect

  datatype ClaimState = Running | RetryQueued(attempt: nat)

  datatype OrchestratorEvent =
    | StateChanged(issue: string, identifier: string, previous: Option<ClaimState>, current: ClaimState)
    | Dispatched(issue: string, identifier: string, session: string, backend: string, attempt: nat)
    | Released(issue: string, identifier: string)
    | Agent(issue: string, event: AgentEvent)
    | RetryScheduled(issue: string, identifier: string)
    | Reconciled(dropped: seq<string>)
    | ScopeCapReached(known: Option<string>)
    | BudgetExceeded(name: string)
    | RunCancelled(known: Option<string>)
    | WorkItemStatusChanged(known: Option<string>)

  type WatchEvent = Reconnect.WatchEvent<OrchestratorEvent>

  /** A watch event and the instant it is applied. */
  datatype Entry = Entry(event: WatchEvent, at: nat)

  datatype ConnectionStatus =
    | Pending
    | Online(url: string)
    | Offline(reason: string)
    | Retrying(attempt: nat, delay: real)

  datatype ActiveIssue = ActiveIssue(identifier: string, state: ClaimState, dispatchedAt: Option<nat>,
                                     backend: Option<string>, attempt: nat)

  /** One line of the log: the event it was made from stands for its formatted text. */
  datatype RecentEvent = RecentEvent(at: nat, source: WatchEvent, identifier: Option<string>)

  datatype Role = Lead | Follower

  datatype TandemSession = TandemSession(
    identifier: string, lead: Option<string>, follower: Option<string>,
    leadMessages: nat, followerMessages: nat, leadTools: nat, followerTools: nat,
    leadWords: set<string>, followerWords: set<string>, lastActive: Option<Role>)

  const RECENT_EVENTS_CAP: nat := 200
  const TANDEM: string := "tandem"
  const U32_MAX: nat := 0xffff_ffff
  const U64_MAX: nat := 0xffff_ffff_ffff_ffff

  function Saturated32(n: nat): nat {
    if n >= U32_MAX then U32_MAX else n + 1
  }

  // ---------------------------------------------------------------------------
  // Words of a message
  // ---------------------------------------------------------------------------

  function LowerAscii(w: string): string {
    if w == "" then ""
    else [if 'A' <= w[0] <= 'Z' then (w[0] as int + 32) as char else w[0]] + LowerAscii(w[1..])
  }

  /** The lower-cased runs of word characters in `s`, `word` being a run already begun. */
  function WordTokens(isWord: char -> bool, s: string, word: string): seq<string>
    decreases |s|
  {
    var flushed := if word == "" then [] else [LowerAscii(word)];
    if s == "" then flushed
    else if isWord(s[0]) then WordTokens(isWord, s[1..], word + [s[0]])
    else flushed + WordTokens(isWord, s[1..], "")
  }

  function Words(isWord: char -> bool, content: string): set<string> {
    set w | w in WordTokens(isWord, content, "")
  }

  predicate WordAt(isWord: char -> bool, s: string, k: int) {
    0 <= k < |s| && isWord(s[k])
  }

  /** A maximal run of word characters. */
  predicate WordRun(isWord: char -> bool, s: string, i: nat, j: nat) {
    i < j <= |s| && (forall k | i <= k < j :: WordAt(isWord, s, k))
    && !WordAt(isWord, s, i - 1) && !WordAt(isWord, s, j)
  }

  ghost predicate RunFrom(isWord: char -> bool, s: string, from: nat, w: string) {
    exists i: nat, j: nat :: from <= i && WordRun(isWord, s, i, j) && w == LowerAscii(s[i..j])
  }

  lemma OnlyRunFrom(isWord: char -> bool, s: string, b: nat, p: nat, i: nat, j: nat)
    requires b <= p <= |s| && (forall k | b <= k < p :: WordAt(isWord, s, k)) && !WordAt(isWord, s, p)
    requires b <= i && WordRun(isWord, s, i, j)
    ensures (i == b && j == p) || i > p
  {
    assert b < i <= p ==> WordAt(isWord, s, i - 1);
    assert b <= j < p ==> WordAt(isWord, s, j);
    assert i <= p < j ==> WordAt(isWord, s, p);
  }

  lemma RunEnds(isWord: char -> bool, s: string, b: nat, p: nat, w: string)
    requires b <= p <= |s| && (forall k | b <= k < p :: WordAt(isWord, s, k)) && !WordAt(isWord, s, p)
    requires !WordAt(isWord, s, b - 1)
    ensures RunFrom(isWord, s, b, w)
            <==> (b < p && w == LowerAscii(s[b..p])) || (p < |s| && RunFrom(isWord, s, p + 1, w))
  {
    if b < p {
      assert WordRun(isWord, s, b, p);
    }
    if RunFrom(isWord, s, b, w) {
      var i: nat, j: nat :| b <= i && WordRun(isWord, s, i, j) && w == LowerAscii(s[i..j]);
      OnlyRunFrom(isWord, s, b, p, i, j);
    }
  }

  /** One more character of the text: it lengthens the run, or ends it. */
  lemma NextCharacter(isWord: char -> bool, s: string, p: nat, word: string)
    requires p < |s|
    ensures WordAt(isWord, s, p) ==>
              WordTokens(isWord, s[p..], word) == WordTokens(isWord, s[p + 1..], word + [s[p]])
    ensures !WordAt(isWord, s, p) ==>
              WordTokens(isWord, s[p..], word)
              == (if word == "" then [] else [LowerAscii(word)]) + WordTokens(isWord, s[p + 1..], "")
  {
    assert s[p..][0] == s[p] && s[p..][1..] == s[p + 1..];
  }

  lemma {:induction false} TokensAreRuns(isWord: char -> bool, s: string, b: nat, p: nat, word: string, w: string)
    requires b <= p <= |s| && (forall k | b <= k < p :: WordAt(isWord, s, k)) && !WordAt(isWord, s, b - 1)
    requires word == s[b..p]
    ensures w in WordTokens(isWord, s[p..], word) <==> RunFrom(isWord, s, b, w)
    decreases |s| - p
  {
    if p < |s| {
      NextCharacter(isWord, s, p, word);
    }
    if WordAt(isWord, s, p) {
      TokensAreRuns(isWord, s, b, p + 1, word + [s[p]], w);
    } else {
      RunEnds(isWord, s, b, p, w);
      if p < |s| {
        TokensAreRuns(isWord, s, p + 1, p + 1, "", w);
      }
    }
  }

  /** Only the letters A to Z change, each to the letter 32 places on. */
  lemma {:induction false} LowerAsciiAt(w: string)
    ensures |LowerAscii(w)| == |w|
    ensures forall i | 0 <= i < |w| ::
              LowerAscii(w)[i] as int == w[i] as int + if 'A' <= w[i] <= 'Z' then 32 else 0
  {
    if w != "" {
      LowerAsciiAt(w[1..]);
    }
  }

  /** The words of a message are exactly its maximal runs of word characters, in lower case. */
  lemma WordsAreRuns(isWord: char -> bool, content: string, w: string)
    ensures w in Words(isWord, content)
            <==> exists i: nat, j: nat :: WordRun(isWord, content, i, j) && w == LowerAscii(content[i..j])
  {
    assert content[0..] == content;
    TokensAreRuns(isWord, content, 0, 0, "", w);
  }

  // ---------------------------------------------------------------------------
  // The panels, one fold step each
  // ---------------------------------------------------------------------------

  function ActiveStep(active: map<string, ActiveIssue>, ev: OrchestratorEvent, at: nat): map<string, ActiveIssue> {
    match ev
    case StateChanged(issue, identifier, _, current) =>
      var row := if issue in active then active[issue] else ActiveIssue(identifier, current, None, None, 1);
      var row' := row.(identifier := identifier, state := current);
      active[issue := if current.RetryQueued? then row'.(attempt := current.attempt) else row']
    case Dispatched(issue, identifier, _, backend, attempt) =>
      active[issue := ActiveIssue(identifier, Running, Some(at), Some(backend), attempt)]
    case Released(issue, _) => active - {issue}
    case _ => active
  }

  function TokensStep(tokens: map<string, TokenUsage>, ev: OrchestratorEvent): map<string, TokenUsage> {
    if ev.Agent? && ev.event.Usage? then tokens[ev.event.session := ev.event.usage] else tokens
  }

  function BackendsStep(backends: map<string, string>, ev: OrchestratorEvent): map<string, string> {
    if ev.Dispatched? then backends[ev.session := ev.backend] else backends
  }

  function IdentifiersStep(identifiers: map<string, string>, ev: OrchestratorEvent): map<string, string> {
    if ev.StateChanged? || ev.Dispatched? || ev.Released? || ev.RetryScheduled?
    then identifiers[ev.issue := ev.identifier] else identifiers
  }

  function NewTandem(identifier: string, session: string): TandemSession {
    TandemSession(identifier, Some(session), None, 0, 0, 0, 0, {}, {}, None)
  }

  function TandemsStep(tandems: map<string, TandemSession>, ev: OrchestratorEvent, isWord: char -> bool)
    : map<string, TandemSession>
  {
    match ev
    case Dispatched(issue, identifier, session, backend, _) =>
      if backend == TANDEM then tandems[issue := NewTandem(identifier, session)] else tandems
    case Released(issue, _) => tandems - {issue}
    case Agent(issue, event) =>
      if issue in tandems then tandems[issue := TandemStep(tandems[issue], event, isWord)] else tandems
    case _ => tandems
  }

  /** The seat an event belongs to, adopting the first other session as follower. */
  function Seat(t: TandemSession, session: string): Option<(TandemSession, Role)> {
    if t.lead == Some(session) then Some((t, Lead))
    else if t.follower == Some(session) then Some((t, Follower))
    else if t.lead.Some? && t.follower.None? then Some((t.(follower := Some(session)), Follower))
    else None
  }

  function TandemStep(t: TandemSession, event: AgentEvent, isWord: char -> bool): TandemSession {
    match Seat(t, event.session)
    case None => t
    case Some((seated, role)) =>
      var t := seated.(lastActive := Some(role));
      if event.Message? && role == Lead then
        t.(leadMessages := Saturated32(t.leadMessages), leadWords := t.leadWords + Words(isWord, event.content))
      else if event.Message? then
        t.(followerMessages := Saturated32(t.followerMessages),
           followerWords := t.followerWords + Words(isWord, event.content))
      else if event.ToolUse? && role == Lead then t.(leadTools := Saturated32(t.leadTools))
      else if event.ToolUse? then t.(followerTools := Saturated32(t.followerTools))
      else t
  }

  /** The identifier an event is logged under, given the cache after the event. */
  function LogIdentifier(identifiers: map<string, string>, ev: OrchestratorEvent): Option<string> {
    match ev
    case Agent(issue, _) => if issue in identifiers then Some(identifiers[issue]) else None
    case Reconciled(_) => None
    case ScopeCapReached(known) => known
    case BudgetExceeded(name) => Some(name)
    case RunCancelled(known) => known
    case WorkItemStatusChanged(known) => known
    case _ => Some(ev.identifier)
  }

  function Pushed(recent: seq<RecentEvent>, e: RecentEvent): seq<RecentEvent> {
    (if |recent| == RECENT_EVENTS_CAP then recent[1..] else recent) + [e]
  }

  datatype View = View(
    connection: ConnectionStatus, active: map<string, ActiveIssue>,
    tokens: map<string, TokenUsage>, backends: map<string, string>,
    recent: seq<RecentEvent>, identifiers: map<string, string>, tandems: map<string, TandemSession>)

  const EMPTY_VIEW := View(Pending, map[], map[], map[], [], map[], map[])

  function OrchestratorStep(v: View, ev: OrchestratorEvent, at: nat, isWord: char -> bool): View {
    var identifiers := IdentifiersStep(v.identifiers, ev);
    var line := RecentEvent(at, Reconnect.WatchEvent.Event(ev), LogIdentifier(identifiers, ev));
    View(v.connection, ActiveStep(v.active, ev, at), TokensStep(v.tokens, ev), BackendsStep(v.backends, ev),
         Pushed(v.recent, line), identifiers, TandemsStep(v.tandems, ev, isWord))
  }

  function Applied(v: View, e: Entry, isWord: char -> bool): View {
    match e.event
    case Connected(url) => v.(connection := Online(url))
    case Disconnected(reason) => v.(connection := Offline(reason))
    case Reconnecting(attempt, delay) => v.(connection := Retrying(attempt, delay))
    case Lagged(_) => v.(recent := Pushed(v.recent, RecentEvent(e.at, e.event, None)))
    case Event(ev) => OrchestratorStep(v, ev, e.at, isWord)
  }

  class AppState {
    const isWord: char -> bool
    var connection: ConnectionStatus
    var active: map<string, ActiveIssue>
    var tokens: map<string, TokenUsage>
    var backends: map<string, string>
    var recent: seq<RecentEvent>
    var identifiers: map<string, string>
    var tandems: map<string, TandemSession>

    constructor (isWord: char -> bool)
      ensures this.isWord == isWord && Current() == EMPTY_VIEW
    {
      this.isWord := isWord;
      connection, active, tokens, backends := Pending, map[], map[], map[];
      recent, identifiers, tandems := [], map[], map[];
    }

    function Current(): View
      reads this
    {
      View(connection, active, tokens, backends, recent, identifiers, tandems)
    }

    method Apply(e: Entry)
      modifies this
      ensures Current() == Applied(old(Current()), e, isWord)
    {
      match e.event {
        case Connected(url) => connection := Online(url);
        case Disconnected(reason) => connection := Offline(reason);
        case Reconnecting(attempt, delay) => connection := Retrying(attempt, delay);
        case Lagged(_) => PushRecent(e.event, e.at, None);
        case Event(ev) => ApplyOrchestratorEvent(ev, e.at);
      }
    }

    method PushRecent(source: WatchEvent, at: nat, identifier: Option<string>)
      modifies this`recent
      ensures recent == Pushed(old(recent), RecentEvent(at, source, identifier))
    {
      if |recent| == RECENT_EVENTS_CAP {
        recent := recent[1..];
      }
      recent := recent + [RecentEvent(at, source, identifier)];
    }

    method ApplyOrchestratorEvent(ev: OrchestratorEvent, at: nat)
      modifies this
      ensures Current() == OrchestratorStep(old(Current()), ev, at, isWord)
    {
      match ev {
        case StateChanged(issue, identifier, _, current) =>
          identifiers := identifiers[issue := identifier];
          var row := if issue in active then active[issue] else ActiveIssue(identifier, current, None, None, 1);
          row := row.(identifier := identifier, state := current);
          if current.RetryQueued? {
            row := row.(attempt := current.attempt);
          }
          active := active[issue := row];
        case Dispatched(issue, identifier, session, backend, attempt) =>
          identifiers := identifiers[issue := identifier];
          active := active[issue := ActiveIssue(identifier, Running, Some(at), Some(backend), attempt)];
          backends := backends[session := backend];
          if backend == TANDEM {
            tandems := tandems[issue := NewTandem(identifier, session)];
          }
        case Released(issue, identifier) =>
          identifiers := identifiers[issue := identifier];
          active := active - {issue};
          tandems := tandems - {issue};
        case Agent(issue, event) =>
          if event.Usage? {
            tokens := tokens[event.session := event.usage];
          }
          if issue in tandems {
            var t := ApplyTandemAgentEvent(tandems[issue], event);
            tandems := tandems[issue := t];
          }
        case RetryScheduled(issue, identifier) =>
          identifiers := identifiers[issue := identifier];
        case _ =>
      }
      PushRecent(Reconnect.WatchEvent.Event(ev), at, LogIdentifier(identifiers, ev));
    }

    method ApplyTandemAgentEvent(row: TandemSession, event: AgentEvent) returns (t: TandemSession)
      ensures t == TandemStep(row, event, isWord)
    {
      t := row;
      var role;
      if t.lead == Some(event.session) {
        role := Lead;
      } else if t.follower == Some(event.session) {
        role := Follower;
      } else if t.lead.Some? && t.follower.None? {
        t := t.(follower := Some(event.session));
        role := Follower;
      } else {
        return;
      }
      t := t.(lastActive := Some(role));
      if event.Message? {
        var words := Words(isWord, event.content);
        if role == Lead {
          t := t.(leadMessages := Saturated32(t.leadMessages), leadWords := t.leadWords + words);
        } else {
          t := t.(followerMessages := Saturated32(t.followerMessages), followerWords := t.followerWords + words);
        }
      } else if event.ToolUse? {
        if role == Lead {
          t := t.(leadTools := Saturated32(t.leadTools));
        } else {
          t := t.(followerTools := Saturated32(t.followerTools));
        }
      }
    }
  }

  // ---------------------------------------------------------------------------
  // Agreement
  // ---------------------------------------------------------------------------

  /** Jaccard similarity of the two word bags; zero while a side is silent. */
  function AgreementRate(t: TandemSession): real {
    if t.leadWords == {} || t.followerWords == {} then 0.0
    else |t.leadWords * t.followerWords| as real / |t.leadWords + t.followerWords| as real
  }

  lemma {:induction false} SubsetSize(a: set<string>, b: set<string>)
    requires a <= b
    ensures |a| <= |b|
    ensures |a| == |b| ==> a == b
    decreases a
  {
    if x :| x in a {
      SubsetSize(a - {x}, b - {x});
      assert a == a - {x} + {x} && b == b - {x} + {x};
    }
  }

  lemma QuotientBounds(a: nat, b: nat)
    requires a <= b && b > 0
    ensures 0.0 <= a as real / b as real <= 1.0
    ensures a as real / b as real == 1.0 <==> a == b
    ensures a as real / b as real == 0.0 <==> a == 0
  {
    var q := a as real / b as real;
    assert q * b as real == a as real;
  }

  lemma SameBags(a: set<string>, b: set<string>)
    ensures a * b == a + b <==> a == b
  {
    if a * b == a + b {
      assert a <= a + b && b <= a + b;
    }
  }

  lemma DisjointBags(a: set<string>, b: set<string>)
    ensures |a * b| == 0 <==> a !! b
  {
    if a !! b {
      assert forall w :: w !in a * b;
      assert a * b == {};
    }
    if w :| w in a && w in b {
      assert w in a * b;
    }
  }

  /** A rate is the share of common words among all words of two bags, zero while one of
      them is empty. */
  predicate SharesWords(rate: real, a: set<string>, b: set<string>) {
    if a == {} || b == {} then rate == 0.0 else rate * (|a| + |b| - |a * b|) as real == |a * b| as real
  }

  lemma Quotient(a: nat, b: nat)
    requires b > 0
    ensures a as real / b as real * b as real == a as real
  {
  }

  /** The rate is the share of common words among all words of either side. */
  lemma RateIsJaccard(t: TandemSession)
    ensures SharesWords(AgreementRate(t), t.leadWords, t.followerWords)
  {
    if t.leadWords != {} && t.followerWords != {} {
      var all := t.leadWords + t.followerWords;
      assert |all| == |t.leadWords| + |t.followerWords| - |t.leadWords * t.followerWords|;
      var w :| w in t.leadWords;
      assert w in all;
      Quotient(|t.leadWords * t.followerWords|, |all|);
    }
  }

  /** The rate lies between zero and one, is one exactly for equal bags that are not
      empty, and zero exactly for bags without a common word. */
  lemma AgreementBounds(t: TandemSession)
    ensures 0.0 <= AgreementRate(t) <= 1.0
    ensures AgreementRate(t) == 1.0 <==> t.leadWords == t.followerWords != {}
    ensures AgreementRate(t) == 0.0 <==> t.leadWords !! t.followerWords
  {
    if t.leadWords != {} && t.followerWords != {} {
      var both, all := t.leadWords * t.followerWords, t.leadWords + t.followerWords;
      var w :| w in t.leadWords;
      assert w in all;
      SubsetSize(both, all);
      SameBags(t.leadWords, t.followerWords);
      QuotientBounds(|both|, |all|);
      assert |both| == |all| <==> t.leadWords == t.followerWords;
      DisjointBags(t.leadWords, t.followerWords);
    }
  }
}
