/**
 The dashboard state as a function of the whole event history: what each panel
 shows after any sequence of events.
 */
module DashboardHistory {
  import opened Prelude
  import opened AgentEvents
  import opened Dashboard

  /** The state after a history of events. */
  function ViewOf(h: seq<Entry>, isWord: char -> bool): View {
    if h == [] then EMPTY_VIEW else Applied(ViewOf(h[..|h| - 1], isWord), h[|h| - 1], isWord)
  }

  // ---------------------------------------------------------------------------
  // Each panel as a fold of its own
  // ---------------------------------------------------------------------------

  function ActiveOf(h: seq<Entry>): map<string, ActiveIssue> {
    if h == [] then map[]
    else
      var rest, e := ActiveOf(h[..|h| - 1]), h[|h| - 1];
      if e.event.Event? then ActiveStep(rest, e.event.event, e.at) else rest
  }

  function TokensOf(h: seq<Entry>): map<string, TokenUsage> {
    if h == [] then map[]
    else
      var rest, e := TokensOf(h[..|h| - 1]), h[|h| - 1];
      if e.event.Event? then TokensStep(rest, e.event.event) else rest
  }

  function IdentifiersOf(h: seq<Entry>): map<string, string> {
    if h == [] then map[]
    else
      var rest, e := IdentifiersOf(h[..|h| - 1]), h[|h| - 1];
      if e.event.Event? then IdentifiersStep(rest, e.event.event) else rest
  }

  function TandemsOf(h: seq<Entry>, isWord: char -> bool): map<string, TandemSession> {
    if h == [] then map[]
    else
      var rest, e := TandemsOf(h[..|h| - 1], isWord), h[|h| - 1];
      if e.event.Event? then TandemsStep(rest, e.event.event, isWord) else rest
  }

  function BackendsOf(h: seq<Entry>): map<string, string> {
    if h == [] then map[]
    else
      var rest, e := BackendsOf(h[..|h| - 1]), h[|h| - 1];
      if e.event.Event? then BackendsStep(rest, e.event.event) else rest
  }

  lemma {:induction false} ActiveIsSeparate(h: seq<Entry>, isWord: char -> bool)
    ensures ViewOf(h, isWord).active == ActiveOf(h)
  {
    if h != [] {
      ActiveIsSeparate(h[..|h| - 1], isWord);
    }
  }

  lemma {:induction false} TokensAreSeparate(h: seq<Entry>, isWord: char -> bool)
    ensures ViewOf(h, isWord).tokens == TokensOf(h)
  {
    if h != [] {
      TokensAreSeparate(h[..|h| - 1], isWord);
    }
  }

  lemma {:induction false} BackendsAreSeparate(h: seq<Entry>, isWord: char -> bool)
    ensures ViewOf(h, isWord).backends == BackendsOf(h)
  {
    if h != [] {
      BackendsAreSeparate(h[..|h| - 1], isWord);
    }
  }

  lemma {:induction false} IdentifiersAreSeparate(h: seq<Entry>, isWord: char -> bool)
    ensures ViewOf(h, isWord).identifiers == IdentifiersOf(h)
  {
    if h != [] {
      IdentifiersAreSeparate(h[..|h| - 1], isWord);
    }
  }

  lemma {:induction false} TandemsAreSeparate(h: seq<Entry>, isWord: char -> bool)
    ensures ViewOf(h, isWord).tandems == TandemsOf(h, isWord)
  {
    if h != [] {
      TandemsAreSeparate(h[..|h| - 1], isWord);
    }
  }

  /** The five maps of the view are five folds, none of which depends on another. */
  lemma PanelsAreSeparate(h: seq<Entry>, isWord: char -> bool)
    ensures ViewOf(h, isWord)
            == View(ViewOf(h, isWord).connection, ActiveOf(h), TokensOf(h), BackendsOf(h), ViewOf(h, isWord).recent,
                    IdentifiersOf(h), TandemsOf(h, isWord))
  {
    ActiveIsSeparate(h, isWord);
    TokensAreSeparate(h, isWord);
    BackendsAreSeparate(h, isWord);
    IdentifiersAreSeparate(h, isWord);
    TandemsAreSeparate(h, isWord);
    SevenPanels(ViewOf(h, isWord));
  }

  lemma SevenPanels(v: View)
    ensures v == View(v.connection, v.active, v.tokens, v.backends, v.recent, v.identifiers, v.tandems)
  {
  }

  /** The connection status a transport event announces. */
  function StatusGiven(e: Entry): Option<ConnectionStatus> {
    match e.event
    case Connected(url) => Some(Online(url))
    case Disconnected(reason) => Some(Offline(reason))
    case Reconnecting(attempt, delay) => Some(Retrying(attempt, delay))
    case _ => None
  }

  lemma StatusStep(v: View, e: Entry, isWord: char -> bool)
    ensures Applied(v, e, isWord).connection == if StatusGiven(e).Some? then StatusGiven(e).value else v.connection
  {
  }

  /** The status shown is the last one announced, and nothing else touches it. */
  lemma {:induction false} StatusExactlyWhen(h: seq<Entry>, isWord: char -> bool, st: ConnectionStatus)
    requires st != Pending
    ensures ViewOf(h, isWord).connection == st
            <==> Since(h, e => StatusGiven(e) == Some(st), e => StatusGiven(e).Some? && StatusGiven(e) != Some(st))
  {
    if h != [] {
      LastOf(h);
      var init, e := h[..|h| - 1], h[|h| - 1];
      StatusExactlyWhen(init, isWord, st);
      StatusStep(ViewOf(init, isWord), e, isWord);
      SinceSnoc(init, e, e => StatusGiven(e) == Some(st), e => StatusGiven(e).Some? && StatusGiven(e) != Some(st));
    }
  }

  // ---------------------------------------------------------------------------
  // Active issues
  // ---------------------------------------------------------------------------

  predicate Claims(e: Entry, issue: string) {
    e.event.Event? && (e.event.event.StateChanged? || e.event.event.Dispatched?) && e.event.event.issue == issue
  }

  predicate Releases(e: Entry, issue: string) {
    e.event.Event? && e.event.event.Released? && e.event.event.issue == issue
  }

  /** An issue is active exactly when it was claimed or dispatched and not released since. */
  lemma {:induction false} ActiveExactlyWhen(h: seq<Entry>, issue: string)
    ensures issue in ActiveOf(h) <==> Since(h, e => Claims(e, issue), e => Releases(e, issue))
  {
    if h != [] {
      LastOf(h);
      var init, e := h[..|h| - 1], h[|h| - 1];
      ActiveExactlyWhen(init, issue);
      SinceSnoc(init, e, e => Claims(e, issue), e => Releases(e, issue));
    }
  }

  /** The claim state an event gives an issue. */
  function StateGiven(e: Entry, issue: string): Option<ClaimState> {
    if !Claims(e, issue) then None
    else if e.event.event.StateChanged? then Some(e.event.event.current)
    else Some(Running)
  }

  predicate StateLost(e: Entry, issue: string, st: ClaimState) {
    Releases(e, issue) || (Claims(e, issue) && StateGiven(e, issue) != Some(st))
  }

  /** A row shows the state given by the last event that gave one. */
  lemma {:induction false} ActiveStateExactlyWhen(h: seq<Entry>, issue: string, st: ClaimState)
    ensures issue in ActiveOf(h) && ActiveOf(h)[issue].state == st
            <==> Since(h, e => StateGiven(e, issue) == Some(st), e => StateLost(e, issue, st))
  {
    if h != [] {
      LastOf(h);
      var init, e := h[..|h| - 1], h[|h| - 1];
      ActiveStateExactlyWhen(init, issue, st);
      SinceSnoc(init, e, e => StateGiven(e, issue) == Some(st), e => StateLost(e, issue, st));
    }
  }

  predicate DispatchedOn(e: Entry, issue: string) {
    e.event.Event? && e.event.event.Dispatched? && e.event.event.issue == issue
  }

  predicate DispatchIs(e: Entry, issue: string, backend: string, at: nat) {
    DispatchedOn(e, issue) && e.event.event.backend == backend && e.at == at
  }

  predicate Supplants(e: Entry, issue: string, backend: string, at: nat) {
    Releases(e, issue) || (DispatchedOn(e, issue) && !DispatchIs(e, issue, backend, at))
  }

  /** A row shows the backend and time of the last dispatch since the last release. */
  lemma {:induction false} DispatchShownExactlyWhen(h: seq<Entry>, issue: string, backend: string, at: nat)
    ensures issue in ActiveOf(h) && ActiveOf(h)[issue].backend == Some(backend)
            && ActiveOf(h)[issue].dispatchedAt == Some(at)
            <==> Since(h, e => DispatchIs(e, issue, backend, at), e => Supplants(e, issue, backend, at))
  {
    if h != [] {
      LastOf(h);
      var init, e := h[..|h| - 1], h[|h| - 1];
      DispatchShownExactlyWhen(init, issue, backend, at);
      SinceSnoc(init, e, e => DispatchIs(e, issue, backend, at), e => Supplants(e, issue, backend, at));
    }
  }

  /** Before its first dispatch since the last release a row shows neither backend nor time. */
  lemma {:induction false} UndispatchedExactlyWhen(h: seq<Entry>, issue: string)
    ensures issue in ActiveOf(h) ==>
              (ActiveOf(h)[issue].backend.Some? <==> Since(h, e => DispatchedOn(e, issue), e => Releases(e, issue)))
              && (ActiveOf(h)[issue].dispatchedAt.Some? <==> ActiveOf(h)[issue].backend.Some?)
    ensures issue !in ActiveOf(h) ==> !Since(h, e => DispatchedOn(e, issue), e => Releases(e, issue))
  {
    if h != [] {
      LastOf(h);
      var init, e := h[..|h| - 1], h[|h| - 1];
      UndispatchedExactlyWhen(init, issue);
      SinceSnoc(init, e, e => DispatchedOn(e, issue), e => Releases(e, issue));
    }
  }

  /** A row carries the identifier of the last event that claimed its issue; a retry
      notice renames the cache entry only. */
  lemma {:induction false} RowNameExactlyWhen(h: seq<Entry>, issue: string, name: string)
    ensures issue in ActiveOf(h) && ActiveOf(h)[issue].identifier == name
            <==> Since(h, e => Claims(e, issue) && e.event.event.identifier == name,
                       e => Releases(e, issue) || (Claims(e, issue) && e.event.event.identifier != name))
  {
    if h != [] {
      LastOf(h);
      var init, e := h[..|h| - 1], h[|h| - 1];
      RowNameExactlyWhen(init, issue, name);
      SinceSnoc(init, e, e => Claims(e, issue) && e.event.event.identifier == name,
                e => Releases(e, issue) || (Claims(e, issue) && e.event.event.identifier != name));
    }
  }

  /** The attempt an event gives an issue: a dispatch or a queued retry names one. */
  function AttemptGiven(e: Entry, issue: string): Option<nat> {
    if DispatchedOn(e, issue) then Some(e.event.event.attempt)
    else if Claims(e, issue) && e.event.event.current.RetryQueued? then Some(e.event.event.current.attempt)
    else None
  }

  /** The attempt last given since the last release, one if none was. */
  function LastAttempt(h: seq<Entry>, issue: string): nat {
    if h == [] || Releases(h[|h| - 1], issue) then 1
    else if AttemptGiven(h[|h| - 1], issue).Some? then AttemptGiven(h[|h| - 1], issue).value
    else LastAttempt(h[..|h| - 1], issue)
  }

  lemma {:induction false} RowAttempt(h: seq<Entry>, issue: string)
    ensures LastAttempt(h, issue) == if issue in ActiveOf(h) then ActiveOf(h)[issue].attempt else 1
  {
    if h != [] {
      RowAttempt(h[..|h| - 1], issue);
    }
  }

  // ---------------------------------------------------------------------------
  // Identifiers and the log
  // ---------------------------------------------------------------------------

  /** The identifier an event names for an issue. */
  function NameGiven(e: Entry, issue: string): Option<string> {
    if e.event.Event? && (e.event.event.StateChanged? || e.event.event.Dispatched? || e.event.event.Released?
                          || e.event.event.RetryScheduled?) && e.event.event.issue == issue
    then Some(e.event.event.identifier) else None
  }

  /** The identifier last named for an issue in a history. */
  function LastName(h: seq<Entry>, issue: string): Option<string> {
    if h == [] then None
    else
      var given := NameGiven(h[|h| - 1], issue);
      if given.Some? then given else LastName(h[..|h| - 1], issue)
  }

  lemma {:induction false} CacheHoldsLastName(h: seq<Entry>, issue: string)
    ensures LastName(h, issue) == if issue in IdentifiersOf(h) then Some(IdentifiersOf(h)[issue]) else None
  {
    if h != [] {
      CacheHoldsLastName(h[..|h| - 1], issue);
    }
  }

  /** The log line of the last event of a history, if it is logged at all. */
  function LineOf(h: seq<Entry>): seq<RecentEvent>
    requires h != []
  {
    var e := h[|h| - 1];
    match e.event
    case Lagged(_) => [RecentEvent(e.at, e.event, None)]
    case Event(ev) =>
      var identifier := match ev
        case Agent(issue, _) => LastName(h, issue)
        case Reconciled(_) => None
        case ScopeCapReached(known) => known
        case BudgetExceeded(name) => Some(name)
        case RunCancelled(known) => known
        case WorkItemStatusChanged(known) => known
        case _ => Some(ev.identifier);
      [RecentEvent(e.at, e.event, identifier)]
    case _ => []
  }

  /** Every line ever logged. */
  function Logged(h: seq<Entry>): seq<RecentEvent> {
    if h == [] then [] else Logged(h[..|h| - 1]) + LineOf(h)
  }

  function LastLines(lines: seq<RecentEvent>): seq<RecentEvent> {
    if |lines| > RECENT_EVENTS_CAP then lines[|lines| - RECENT_EVENTS_CAP..] else lines
  }

  lemma PushKeepsLastLines(lines: seq<RecentEvent>, line: RecentEvent)
    ensures Pushed(LastLines(lines), line) == LastLines(lines + [line])
  {
  }

  /** The log always holds the last 200 lines ever logged, in order. */
  lemma {:induction false} RecentIsLastLines(h: seq<Entry>, isWord: char -> bool)
    ensures ViewOf(h, isWord).recent == LastLines(Logged(h))
    ensures |ViewOf(h, isWord).recent| == Min(200, |Logged(h)|)
  {
    if h != [] {
      var init, e := h[..|h| - 1], h[|h| - 1];
      RecentIsLastLines(init, isWord);
      var v := ViewOf(init, isWord);
      match e.event {
        case Lagged(_) => PushKeepsLastLines(Logged(init), LineOf(h)[0]);
        case Event(ev) =>
          if ev.Agent? {
            CacheHoldsLastName(h, ev.issue);
            IdentifiersAreSeparate(h, isWord);
          }
          assert LineOf(h)[0] == RecentEvent(e.at, e.event, LogIdentifier(IdentifiersStep(v.identifiers, ev), ev));
          PushKeepsLastLines(Logged(init), LineOf(h)[0]);
        case _ => assert Logged(init) + [] == Logged(init);
      }
    }
  }

  /** Tandem rows belong to active issues, and active issues have a cached identifier. */
  lemma {:induction false} PanelsAreNested(h: seq<Entry>, isWord: char -> bool)
    ensures TandemsOf(h, isWord).Keys <= ActiveOf(h).Keys <= IdentifiersOf(h).Keys
  {
    if h != [] {
      PanelsAreNested(h[..|h| - 1], isWord);
    }
  }
}
