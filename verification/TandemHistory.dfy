/**
 The tandem panel as a function of the whole event history: when a row exists, and
 what it says about the two sides since its latest tandem dispatch.
 */
module TandemHistory {
  import opened Prelude
  import opened AgentEvents
  import opened Dashboard
  import opened DashboardHistory

  // ---------------------------------------------------------------------------
  // What a row should say, from the agent events since its dispatch
  // ---------------------------------------------------------------------------

  /** The first session other than the lead's. */
  function FollowerOf(evs: seq<AgentEvent>, lead: string): Option<string> {
    if evs == [] then None
    else if evs[0].session != lead then Some(evs[0].session)
    else FollowerOf(evs[1..], lead)
  }

  function MessagesBy(evs: seq<AgentEvent>, session: string): nat {
    if evs == [] then 0
    else
      var e := evs[|evs| - 1];
      MessagesBy(evs[..|evs| - 1], session) + if e.Message? && e.session == session then 1 else 0
  }

  function ToolsBy(evs: seq<AgentEvent>, session: string): nat {
    if evs == [] then 0
    else
      var e := evs[|evs| - 1];
      ToolsBy(evs[..|evs| - 1], session) + if e.ToolUse? && e.session == session then 1 else 0
  }

  predicate Says(e: AgentEvent, session: string, isWord: char -> bool, w: string) {
    e.Message? && e.session == session && w in Words(isWord, e.content)
  }

  /** Every word of every message of a session. */
  function WordsBy(evs: seq<AgentEvent>, session: string, isWord: char -> bool): set<string> {
    set i, w | 0 <= i < |evs| && evs[i].Message? && w in Words(isWord, evs[i].content)
               && Says(evs[i], session, isWord, w) :: w
  }

  /** The side of the last event that came from either side. */
  function LastSeat(evs: seq<AgentEvent>, lead: string, follower: Option<string>): Option<Role> {
    if evs == [] then None
    else
      var session := evs[|evs| - 1].session;
      if session == lead then Some(Lead)
      else if follower == Some(session) then Some(Follower)
      else LastSeat(evs[..|evs| - 1], lead, follower)
  }

  function Row(identifier: string, lead: string, evs: seq<AgentEvent>, isWord: char -> bool): TandemSession {
    var follower := FollowerOf(evs, lead);
    TandemSession(
      identifier, Some(lead), follower,
      Min(0xffff_ffff, MessagesBy(evs, lead)),
      if follower.Some? then Min(0xffff_ffff, MessagesBy(evs, follower.value)) else 0,
      Min(0xffff_ffff, ToolsBy(evs, lead)),
      if follower.Some? then Min(0xffff_ffff, ToolsBy(evs, follower.value)) else 0,
      WordsBy(evs, lead, isWord),
      if follower.Some? then WordsBy(evs, follower.value, isWord) else {},
      LastSeat(evs, lead, follower))
  }

  // ---------------------------------------------------------------------------
  // One more event
  // ---------------------------------------------------------------------------

  lemma {:induction false} FollowerSnoc(evs: seq<AgentEvent>, e: AgentEvent, lead: string)
    ensures FollowerOf(evs + [e], lead)
            == if FollowerOf(evs, lead).Some? then FollowerOf(evs, lead)
               else if e.session != lead then Some(e.session) else None
  {
    if evs == [] {
      assert evs + [e] == [e] && FollowerOf([e][1..], lead) == None;
    } else {
      assert (evs + [e])[1..] == evs[1..] + [e];
      FollowerSnoc(evs[1..], e, lead);
    }
  }

  lemma {:induction false} FollowerIsOther(evs: seq<AgentEvent>, lead: string)
    ensures FollowerOf(evs, lead) != Some(lead)
    ensures FollowerOf(evs, lead).None? ==> forall i | 0 <= i < |evs| :: evs[i].session == lead
  {
    if evs != [] {
      FollowerIsOther(evs[1..], lead);
      if FollowerOf(evs, lead).None? {
        forall i | 0 <= i < |evs| ensures evs[i].session == lead {
          if i > 0 {
            assert evs[i] == evs[1..][i - 1];
          }
        }
      }
    }
  }

  lemma CountsSnoc(evs: seq<AgentEvent>, e: AgentEvent, session: string)
    ensures MessagesBy(evs + [e], session)
            == MessagesBy(evs, session) + if e.Message? && e.session == session then 1 else 0
    ensures ToolsBy(evs + [e], session)
            == ToolsBy(evs, session) + if e.ToolUse? && e.session == session then 1 else 0
  {
    assert (evs + [e])[..|evs|] == evs;
  }

  lemma WordsSnoc(evs: seq<AgentEvent>, e: AgentEvent, session: string, isWord: char -> bool)
    ensures WordsBy(evs + [e], session, isWord)
            == WordsBy(evs, session, isWord)
               + if e.Message? && e.session == session then Words(isWord, e.content) else {}
  {
    var all := evs + [e];
    var right := WordsBy(evs, session, isWord)
                 + if e.Message? && e.session == session then Words(isWord, e.content) else {};
    forall w | w in right ensures w in WordsBy(all, session, isWord) {
      if w in WordsBy(evs, session, isWord) {
        var i :| 0 <= i < |evs| && Says(evs[i], session, isWord, w);
        assert Says(all[i], session, isWord, w);
      } else {
        assert Says(all[|evs|], session, isWord, w);
      }
    }
    forall w | w in WordsBy(all, session, isWord) ensures w in right {
      var i :| 0 <= i < |all| && Says(all[i], session, isWord, w);
      if i < |evs| {
        assert Says(evs[i], session, isWord, w);
      }
    }
  }

  lemma SeatSnoc(evs: seq<AgentEvent>, e: AgentEvent, lead: string, follower: Option<string>)
    ensures LastSeat(evs + [e], lead, follower)
            == if e.session == lead then Some(Lead)
               else if follower == Some(e.session) then Some(Follower)
               else LastSeat(evs, lead, follower)
  {
    assert (evs + [e])[..|evs|] == evs;
  }

  /** A session that has not been seen has no share in a row. */
  lemma {:induction false} UnseenSession(evs: seq<AgentEvent>, session: string, isWord: char -> bool)
    requires forall i | 0 <= i < |evs| :: evs[i].session != session
    ensures MessagesBy(evs, session) == 0 && ToolsBy(evs, session) == 0
    ensures WordsBy(evs, session, isWord) == {}
  {
    if evs != [] {
      UnseenSession(evs[..|evs| - 1], session, isWord);
    }
    assert forall w :: w !in WordsBy(evs, session, isWord);
  }

  lemma {:induction false} OnlyLeadSeated(evs: seq<AgentEvent>, lead: string, f: string)
    requires f != lead && forall i | 0 <= i < |evs| :: evs[i].session == lead
    ensures LastSeat(evs, lead, Some(f)) == LastSeat(evs, lead, None)
  {
    if evs != [] {
      assert evs[|evs| - 1].session == lead;
    }
  }

  lemma RowOfLead(identifier: string, lead: string, evs: seq<AgentEvent>, e: AgentEvent, isWord: char -> bool)
    requires e.session == lead
    ensures TandemStep(Row(identifier, lead, evs, isWord), e, isWord) == Row(identifier, lead, evs + [e], isWord)
  {
    var follower := FollowerOf(evs, lead);
    FollowerSnoc(evs, e, lead);
    FollowerIsOther(evs, lead);
    CountsSnoc(evs, e, lead);
    WordsSnoc(evs, e, lead, isWord);
    SeatSnoc(evs, e, lead, follower);
    if follower.Some? {
      CountsSnoc(evs, e, follower.value);
      WordsSnoc(evs, e, follower.value, isWord);
    }
  }

  lemma RowOfOther(identifier: string, lead: string, evs: seq<AgentEvent>, e: AgentEvent, isWord: char -> bool)
    requires e.session != lead && FollowerOf(evs, lead).Some?
    ensures TandemStep(Row(identifier, lead, evs, isWord), e, isWord) == Row(identifier, lead, evs + [e], isWord)
    ensures FollowerOf(evs, lead) != Some(e.session) ==>
              Row(identifier, lead, evs + [e], isWord) == Row(identifier, lead, evs, isWord)
  {
    var f := FollowerOf(evs, lead).value;
    FollowerSnoc(evs, e, lead);
    CountsSnoc(evs, e, lead);
    WordsSnoc(evs, e, lead, isWord);
    SeatSnoc(evs, e, lead, Some(f));
    CountsSnoc(evs, e, f);
    WordsSnoc(evs, e, f, isWord);
  }

  lemma RowOfNewcomer(identifier: string, lead: string, evs: seq<AgentEvent>, e: AgentEvent, isWord: char -> bool)
    requires e.session != lead && FollowerOf(evs, lead).None?
    ensures TandemStep(Row(identifier, lead, evs, isWord), e, isWord) == Row(identifier, lead, evs + [e], isWord)
  {
    var f := e.session;
    FollowerSnoc(evs, e, lead);
    FollowerIsOther(evs, lead);
    UnseenSession(evs, f, isWord);
    OnlyLeadSeated(evs, lead, f);
    CountsSnoc(evs, e, lead);
    WordsSnoc(evs, e, lead, isWord);
    SeatSnoc(evs, e, lead, Some(f));
    CountsSnoc(evs, e, f);
    WordsSnoc(evs, e, f, isWord);
  }

  /** One fold step keeps a row in agreement with the events since its dispatch. */
  lemma RowGrows(identifier: string, lead: string, evs: seq<AgentEvent>, e: AgentEvent, isWord: char -> bool)
    ensures TandemStep(Row(identifier, lead, evs, isWord), e, isWord) == Row(identifier, lead, evs + [e], isWord)
  {
    if e.session == lead {
      RowOfLead(identifier, lead, evs, e, isWord);
    } else if FollowerOf(evs, lead).Some? {
      RowOfOther(identifier, lead, evs, e, isWord);
    } else {
      RowOfNewcomer(identifier, lead, evs, e, isWord);
    }
  }

  // ---------------------------------------------------------------------------
  // Rows along a history
  // ---------------------------------------------------------------------------

  predicate TandemDispatch(e: Entry, issue: string) {
    DispatchedOn(e, issue) && e.event.event.backend == "tandem"
  }

  /** The agent events a history carries for an issue. */
  function AgentEventsOf(h: seq<Entry>, issue: string): seq<AgentEvent> {
    if h == [] then []
    else
      var e := h[|h| - 1];
      AgentEventsOf(h[..|h| - 1], issue)
      + if e.event.Event? && e.event.event.Agent? && e.event.event.issue == issue then [e.event.event.event] else []
  }

  /** A row exists exactly when a tandem dispatch happened and no release since. */
  lemma {:induction false} TandemRowExactlyWhen(h: seq<Entry>, isWord: char -> bool, issue: string)
    ensures issue in TandemsOf(h, isWord) <==> Since(h, e => TandemDispatch(e, issue), e => Releases(e, issue))
  {
    if h != [] {
      LastOf(h);
      var init, e := h[..|h| - 1], h[|h| - 1];
      TandemRowExactlyWhen(init, isWord, issue);
      SinceSnoc(init, e, e => TandemDispatch(e, issue), e => Releases(e, issue));
    }
  }

  /** Entry `i` is the tandem dispatch the row of `issue` stems from. */
  predicate RowStarts(h: seq<Entry>, i: nat, issue: string) {
    i < |h| && TandemDispatch(h[i], issue)
    && forall j | i < j < |h| :: !TandemDispatch(h[j], issue) && !Releases(h[j], issue)
  }

  /** The row says exactly what the agent events since its latest tandem dispatch say. */
  lemma {:induction false} TandemRowSays(h: seq<Entry>, isWord: char -> bool, issue: string, i: nat)
    requires RowStarts(h, i, issue)
    ensures issue in TandemsOf(h, isWord)
    ensures TandemsOf(h, isWord)[issue]
            == Row(h[i].event.event.identifier, h[i].event.event.session, AgentEventsOf(h[i + 1..], issue), isWord)
    decreases |h|
  {
    var identifier, lead := h[i].event.event.identifier, h[i].event.event.session;
    var init, e, tail := h[..|h| - 1], h[|h| - 1], h[i + 1..];
    if i == |h| - 1 {
      assert tail == [] && NewTandem(identifier, lead) == Row(identifier, lead, [], isWord);
    } else {
      TandemRowSays(init, isWord, issue, i);
      var evs := AgentEventsOf(init[i + 1..], issue);
      assert init[i + 1..] == tail[..|tail| - 1] && tail[|tail| - 1] == e;
      if e.event.Event? && e.event.event.Agent? && e.event.event.issue == issue {
        RowGrows(identifier, lead, evs, e.event.event.event, isWord);
        assert AgentEventsOf(tail, issue) == evs + [e.event.event.event];
      } else {
        assert AgentEventsOf(tail, issue) == evs;
      }
    }
  }

  /** The words of either side since the dispatch, as the row holds them. */
  function SideWords(h: seq<Entry>, isWord: char -> bool, issue: string, i: nat): (set<string>, set<string>)
    requires RowStarts(h, i, issue)
  {
    var lead, evs := h[i].event.event.session, AgentEventsOf(h[i + 1..], issue);
    var follower := FollowerOf(evs, lead);
    (WordsBy(evs, lead, isWord), if follower.Some? then WordsBy(evs, follower.value, isWord) else {})
  }

  lemma RowWords(identifier: string, lead: string, evs: seq<AgentEvent>, isWord: char -> bool)
    ensures var (row, follower) := (Row(identifier, lead, evs, isWord), FollowerOf(evs, lead));
            row.leadWords == WordsBy(evs, lead, isWord)
            && row.followerWords == if follower.Some? then WordsBy(evs, follower.value, isWord) else {}
  {
  }

  lemma RowHoldsWords(h: seq<Entry>, isWord: char -> bool, issue: string, i: nat) returns (row: TandemSession)
    requires RowStarts(h, i, issue)
    ensures issue in TandemsOf(h, isWord) && row == TandemsOf(h, isWord)[issue]
    ensures row.leadWords == SideWords(h, isWord, issue, i).0 && row.followerWords == SideWords(h, isWord, issue, i).1
  {
    TandemRowSays(h, isWord, issue, i);
    RowWords(h[i].event.event.identifier, h[i].event.event.session, AgentEventsOf(h[i + 1..], issue), isWord);
    row := TandemsOf(h, isWord)[issue];
  }

  /** Along a history a row's rate is the share of common words among the words of all
      messages of its two sides since the dispatch. */
  lemma RateSays(h: seq<Entry>, isWord: char -> bool, issue: string, i: nat)
    requires RowStarts(h, i, issue)
    ensures issue in TandemsOf(h, isWord)
    ensures var (a, b) := SideWords(h, isWord, issue, i);
            SharesWords(AgreementRate(TandemsOf(h, isWord)[issue]), a, b)
  {
    var row := RowHoldsWords(h, isWord, issue, i);
    RateIsJaccard(row);
  }

  // ---------------------------------------------------------------------------
  // Third sessions
  // ---------------------------------------------------------------------------

  /** The events of two sessions only. */
  function OfSides(evs: seq<AgentEvent>, lead: string, f: string): seq<AgentEvent> {
    if evs == [] then []
    else
      var e := evs[|evs| - 1];
      OfSides(evs[..|evs| - 1], lead, f) + if e.session == lead || e.session == f then [e] else []
  }

  lemma {:induction false} AllLeadKept(evs: seq<AgentEvent>, lead: string, f: string)
    requires forall i | 0 <= i < |evs| :: evs[i].session == lead
    ensures OfSides(evs, lead, f) == evs
  {
    if evs != [] {
      AllLeadKept(evs[..|evs| - 1], lead, f);
    }
  }

  /** Events of third sessions change nothing: a row is that of its two sides alone. */
  lemma {:induction false} ThirdSessionsChangeNothing(identifier: string, lead: string, evs: seq<AgentEvent>,
                                                       isWord: char -> bool)
    requires FollowerOf(evs, lead).Some?
    ensures var kept := OfSides(evs, lead, FollowerOf(evs, lead).value);
            Row(identifier, lead, kept, isWord) == Row(identifier, lead, evs, isWord)
  {
    var init, e := evs[..|evs| - 1], evs[|evs| - 1];
    assert evs == init + [e];
    var f := FollowerOf(evs, lead).value;
    FollowerSnoc(init, e, lead);
    RowGrows(identifier, lead, init, e, isWord);
    var kept := OfSides(init, lead, f);
    if FollowerOf(init, lead).None? {
      FollowerIsOther(init, lead);
      AllLeadKept(init, lead, f);
    } else {
      ThirdSessionsChangeNothing(identifier, lead, init, isWord);
      if e.session == lead || e.session == f {
        RowGrows(identifier, lead, kept, e, isWord);
      } else {
        RowOfOther(identifier, lead, init, e, isWord);
        assert kept + [] == kept;
      }
    }
  }
}
