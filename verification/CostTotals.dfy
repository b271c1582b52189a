/**
 The cost panel: the latest cumulative snapshot of every session, and their
 saturating sum, which depends neither on the iteration order nor on releases.
 */
module CostTotals {
  import opened Prelude
  import opened AgentEvents
  import opened Dashboard
  import opened DashboardHistory

  // ---------------------------------------------------------------------------
  // Snapshots
  // ---------------------------------------------------------------------------

  predicate Reports(e: Entry, session: string) {
    e.event.Event? && e.event.event.Agent? && e.event.event.event.Usage? && e.event.event.event.session == session
  }

  predicate ReportIs(e: Entry, session: string, u: TokenUsage) {
    Reports(e, session) && e.event.event.event.usage == u
  }

  /** The stored usage of a session is its last snapshot. */
  lemma {:induction false} StoredIsLastSnapshot(h: seq<Entry>, session: string, u: TokenUsage)
    ensures session in TokensOf(h) && TokensOf(h)[session] == u
            <==> Since(h, e => ReportIs(e, session, u), e => Reports(e, session) && !ReportIs(e, session, u))
  {
    if h != [] {
      LastOf(h);
      var init, e := h[..|h| - 1], h[|h| - 1];
      StoredIsLastSnapshot(init, session, u);
      SinceSnoc(init, e, e => ReportIs(e, session, u), e => Reports(e, session) && !ReportIs(e, session, u));
    }
  }

  predicate Opens(e: Entry, session: string) {
    e.event.Event? && e.event.event.Dispatched? && e.event.event.session == session
  }

  /** A session is priced as the backend of its last dispatch, through releases too. */
  lemma {:induction false} BackendIsLastDispatched(h: seq<Entry>, session: string, backend: string)
    ensures session in BackendsOf(h) && BackendsOf(h)[session] == backend
            <==> Since(h, e => Opens(e, session) && e.event.event.backend == backend,
                       e => Opens(e, session) && e.event.event.backend != backend)
  {
    if h != [] {
      LastOf(h);
      var init, e := h[..|h| - 1], h[|h| - 1];
      BackendIsLastDispatched(init, session, backend);
      SinceSnoc(init, e, e => Opens(e, session) && e.event.event.backend == backend,
                e => Opens(e, session) && e.event.event.backend != backend);
    }
  }

  // ---------------------------------------------------------------------------
  // Totals
  // ---------------------------------------------------------------------------

  function InputOf(u: TokenUsage): nat { u.input }

  function OutputOf(u: TokenUsage): nat { u.output }

  function CachedOf(u: TokenUsage): nat { u.cachedInput }

  function TotalOf(u: TokenUsage): nat { u.total }

  function Saturating(a: nat, b: nat): nat {
    if a + b > U64_MAX then U64_MAX else a + b
  }

  /** The largest word caps every total. */
  function Capped(n: nat): nat {
    Min(0xffff_ffff_ffff_ffff, n)
  }

  /** The panel's totals: every field summed over all sessions, capped at the largest word. */
  ghost function Totals(m: map<string, TokenUsage>): TokenUsage {
    TokenUsage(Capped(Sum(m, m.Keys, InputOf)), Capped(Sum(m, m.Keys, OutputOf)),
               Capped(Sum(m, m.Keys, CachedOf)), Capped(Sum(m, m.Keys, TotalOf)))
  }

  lemma AccumulateOne(m: map<string, TokenUsage>, done: set<string>, left: set<string>, k: string,
                      field: TokenUsage -> nat)
    requires k in left && left <= m.Keys && done == m.Keys - left
    ensures m.Keys - (left - {k}) == done + {k}
    ensures Saturating(Min(U64_MAX, Sum(m, done, field)), field(m[k])) == Min(U64_MAX, Sum(m, done + {k}, field))
  {
    assert done + {k} - {k} == done;
    SumTakeOut(m, done + {k}, k, field);
  }

  /** Adds up the sessions in whatever order the map yields them. */
  method AggregateTokens(m: map<string, TokenUsage>) returns (acc: TokenUsage)
    ensures acc == Totals(m)
  {
    acc := TokenUsage(0, 0, 0, 0);
    var left := m.Keys;
    while left != {}
      invariant left <= m.Keys
      invariant acc.input == Min(U64_MAX, Sum(m, m.Keys - left, InputOf))
      invariant acc.output == Min(U64_MAX, Sum(m, m.Keys - left, OutputOf))
      invariant acc.cachedInput == Min(U64_MAX, Sum(m, m.Keys - left, CachedOf))
      invariant acc.total == Min(U64_MAX, Sum(m, m.Keys - left, TotalOf))
      decreases |left|
    {
      var session :| session in left;
      var u := m[session];
      ghost var done := m.Keys - left;
      AccumulateOne(m, done, left, session, InputOf);
      AccumulateOne(m, done, left, session, OutputOf);
      AccumulateOne(m, done, left, session, CachedOf);
      AccumulateOne(m, done, left, session, TotalOf);
      acc := TokenUsage(Saturating(acc.input, u.input), Saturating(acc.output, u.output),
                        Saturating(acc.cachedInput, u.cachedInput), Saturating(acc.total, u.total));
      left := left - {session};
    }
    assert m.Keys - {} == m.Keys;
  }

  /** One more session adds its own input, output, cached input and total, each to its own
      sum; no session adds nothing. */
  lemma TotalsOfOneMore(m: map<string, TokenUsage>, session: string, u: TokenUsage)
    requires session !in m
    ensures var (t, n) := (Totals(m), Totals(m[session := u]));
            && n.input == Capped(t.input + u.input) && n.output == Capped(t.output + u.output)
            && n.cachedInput == Capped(t.cachedInput + u.cachedInput) && n.total == Capped(t.total + u.total)
    ensures Totals(map[]) == TokenUsage(0, 0, 0, 0)
  {
    SumOfOneMore(m, session, u, InputOf);
    SumOfOneMore(m, session, u, OutputOf);
    SumOfOneMore(m, session, u, CachedOf);
    SumOfOneMore(m, session, u, TotalOf);
  }

  lemma SumOfOneMore(m: map<string, TokenUsage>, session: string, u: TokenUsage, field: TokenUsage -> nat)
    requires session !in m
    ensures var n := m[session := u]; Sum(n, n.Keys, field) == Sum(m, m.Keys, field) + field(u)
  {
    var n := m[session := u];
    assert n.Keys - {session} == m.Keys;
    SumTakeOut(n, n.Keys, session, field);
    SumOfAgreeing(m, n, m.Keys, field);
  }

  // ---------------------------------------------------------------------------
  // Totals along a run
  // ---------------------------------------------------------------------------

  predicate AtMost(u: TokenUsage, v: TokenUsage) {
    u.input <= v.input && u.output <= v.output && u.cachedInput <= v.cachedInput && u.total <= v.total
  }

  /** Cumulative snapshots: no session's usage ever goes down. */
  predicate Cumulative(h: seq<Entry>) {
    forall i, j | 0 <= i < j < |h| && h[i].event.Event? && h[i].event.event.Agent? && h[i].event.event.event.Usage?
                  && Reports(h[j], h[i].event.event.event.session) ::
      AtMost(h[i].event.event.event.usage, h[j].event.event.event.usage)
  }

  lemma SumOfRaised(m: map<string, TokenUsage>, session: string, u: TokenUsage, field: TokenUsage -> nat)
    requires session in m ==> field(m[session]) <= field(u)
    ensures var n := m[session := u]; Sum(m, m.Keys, field) <= Sum(n, n.Keys, field)
  {
    var n := m[session := u];
    var others := m.Keys - {session};
    assert n.Keys - {session} == others;
    SumTakeOut(n, n.Keys, session, field);
    SumOfAgreeing(m, n, others, field);
    if session in m {
      SumTakeOut(m, m.Keys, session, field);
    } else {
      assert m.Keys == others;
    }
  }

  lemma StoredWasReported(h: seq<Entry>, session: string) returns (i: nat)
    requires session in TokensOf(h)
    ensures i < |h| && ReportIs(h[i], session, TokensOf(h)[session])
  {
    var u := TokensOf(h)[session];
    StoredIsLastSnapshot(h, session, u);
    i :| 0 <= i < |h| && (e => ReportIs(e, session, u))(h[i]);
  }

  lemma StepRaisesTotals(h: seq<Entry>, e: Entry)
    requires Cumulative(h + [e])
    ensures AtMost(Totals(TokensOf(h)), Totals(TokensOf(h + [e])))
  {
    var all, m := h + [e], TokensOf(h);
    assert all[..|h|] == h && all[|h|] == e;
    if e.event.Event? && e.event.event.Agent? && e.event.event.event.Usage? {
      var session, u := e.event.event.event.session, e.event.event.event.usage;
      if session in m {
        var i := StoredWasReported(h, session);
        assert all[i] == h[i] && Reports(all[|h|], session);
        assert AtMost(m[session], u);
      }
      SumOfRaised(m, session, u, InputOf);
      SumOfRaised(m, session, u, OutputOf);
      SumOfRaised(m, session, u, CachedOf);
      SumOfRaised(m, session, u, TotalOf);
      assert TokensOf(all) == m[session := u];
    } else {
      assert TokensOf(all) == m;
    }
  }

  /** With cumulative snapshots the totals never go down, through releases too. */
  lemma {:induction false} TotalsNeverDrop(h: seq<Entry>, k: nat)
    requires k <= |h| && Cumulative(h)
    ensures AtMost(Totals(TokensOf(h[..k])), Totals(TokensOf(h)))
  {
    if k == |h| {
      assert h[..k] == h;
    } else {
      var init := h[..|h| - 1];
      assert init[..k] == h[..k] && init + [h[|h| - 1]] == h;
      TotalsNeverDrop(init, k);
      StepRaisesTotals(init, h[|h| - 1]);
    }
  }
}
