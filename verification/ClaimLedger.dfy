/**
 The in-memory ledger of claimed runs, and the recovery view of it: the claims whose
 issue has left the active set, in run-id order.
 */
module ClaimLedger {
  import opened Prelude

  datatype ClaimedRun = ClaimedRun(runId: int, workItem: int, owner: string, expiresAt: string,
                                   workspaceClaim: Option<int>)

  datatype ExpiredLease = ExpiredLease(runId: int, workItem: int, owner: string, expiresAt: string,
                                       workspaceClaim: Option<int>)

  type Listing = seq<(string, ClaimedRun)>

  function Candidate(c: ClaimedRun): ExpiredLease {
    ExpiredLease(c.runId, c.workItem, c.owner, c.expiresAt, c.workspaceClaim)
  }

  /** A lease carries everything a claim says. */
  predicate Carries(e: ExpiredLease, c: ClaimedRun) {
    e.runId == c.runId && e.workItem == c.workItem && e.owner == c.owner && e.expiresAt == c.expiresAt
    && e.workspaceClaim == c.workspaceClaim
  }

  // ---------------------------------------------------------------------------
  // Sorting by run id
  // ---------------------------------------------------------------------------

  /** `c` placed behind every element that does not come after it. */
  function Inserted(out: seq<ExpiredLease>, c: ExpiredLease): seq<ExpiredLease> {
    if out == [] || out[|out| - 1].runId <= c.runId then out + [c]
    else Inserted(out[..|out| - 1], c) + [out[|out| - 1]]
  }

  /** A stable sort by run id. */
  function Sorted(cs: seq<ExpiredLease>): seq<ExpiredLease> {
    if cs == [] then [] else Inserted(Sorted(cs[..|cs| - 1]), cs[|cs| - 1])
  }

  predicate Ascending(cs: seq<ExpiredLease>) {
    forall i, j | 0 <= i < j < |cs| :: cs[i].runId <= cs[j].runId
  }

  /** The elements of one run, in order. */
  function OfRun(cs: seq<ExpiredLease>, run: int): seq<ExpiredLease> {
    if cs == [] then []
    else OfRun(cs[..|cs| - 1], run) + if cs[|cs| - 1].runId == run then [cs[|cs| - 1]] else []
  }

  lemma OfRunSnoc(cs: seq<ExpiredLease>, c: ExpiredLease, run: int)
    ensures OfRun(cs + [c], run) == OfRun(cs, run) + if c.runId == run then [c] else []
  {
    assert (cs + [c])[..|cs|] == cs;
  }

  lemma {:induction false} InsertedBag(out: seq<ExpiredLease>, c: ExpiredLease)
    ensures multiset(Inserted(out, c)) == multiset(out) + multiset{c}
  {
    if out != [] {
      var init, last := out[..|out| - 1], out[|out| - 1];
      assert out == init + [last];
      InsertedBag(init, c);
      assert multiset(Inserted(init, c) + [last]) == multiset(init) + multiset{c} + multiset{last};
    }
    assert multiset(out + [c]) == multiset(out) + multiset{c};
  }

  lemma {:induction false} InsertedAscends(out: seq<ExpiredLease>, c: ExpiredLease)
    requires Ascending(out)
    ensures Ascending(Inserted(out, c))
  {
    if out != [] && out[|out| - 1].runId > c.runId {
      var init, last := out[..|out| - 1], out[|out| - 1];
      InsertedAscends(init, c);
      InsertedBag(init, c);
      var rest := Inserted(init, c);
      forall i | 0 <= i < |rest| ensures rest[i].runId <= last.runId {
        assert rest[i] in multiset(rest);
        assert rest[i] in init || rest[i] == c;
      }
      assert Inserted(out, c) == rest + [last];
    }
  }

  lemma {:induction false} InsertedOfRun(out: seq<ExpiredLease>, c: ExpiredLease, run: int)
    ensures OfRun(Inserted(out, c), run) == OfRun(out, run) + if c.runId == run then [c] else []
  {
    if out == [] || out[|out| - 1].runId <= c.runId {
      OfRunSnoc(out, c, run);
    } else {
      var init, last := out[..|out| - 1], out[|out| - 1];
      InsertedOfRun(init, c, run);
      OfRunSnoc(Inserted(init, c), last, run);
      SwapTail(OfRun(init, run), c, last, run);
    }
  }

  /** An element inserted in front of a larger one never shares its run. */
  lemma SwapTail(front: seq<ExpiredLease>, c: ExpiredLease, last: ExpiredLease, run: int)
    requires last.runId > c.runId
    ensures front + (if c.runId == run then [c] else []) + (if last.runId == run then [last] else [])
            == front + (if last.runId == run then [last] else []) + (if c.runId == run then [c] else [])
  {
  }

  lemma {:induction false} SortedBag(cs: seq<ExpiredLease>)
    ensures multiset(Sorted(cs)) == multiset(cs)
  {
    if cs != [] {
      var init, last := cs[..|cs| - 1], cs[|cs| - 1];
      SortedBag(init);
      InsertedBag(Sorted(init), last);
      assert cs == init + [last];
    }
  }

  lemma {:induction false} SortedAscends(cs: seq<ExpiredLease>)
    ensures Ascending(Sorted(cs))
  {
    if cs != [] {
      SortedAscends(cs[..|cs| - 1]);
      InsertedAscends(Sorted(cs[..|cs| - 1]), cs[|cs| - 1]);
    }
  }

  lemma {:induction false} SortedOfRun(cs: seq<ExpiredLease>, run: int)
    ensures OfRun(Sorted(cs), run) == OfRun(cs, run)
  {
    if cs != [] {
      SortedOfRun(cs[..|cs| - 1], run);
      InsertedOfRun(Sorted(cs[..|cs| - 1]), cs[|cs| - 1], run);
    }
  }

  /** Sorting orders by run id, keeps every element, and keeps the order within a run. */
  lemma SortedSorts(cs: seq<ExpiredLease>)
    ensures Ascending(Sorted(cs))
    ensures multiset(Sorted(cs)) == multiset(cs)
    ensures forall run :: OfRun(Sorted(cs), run) == OfRun(cs, run)
  {
    SortedAscends(cs);
    SortedBag(cs);
    forall run ensures OfRun(Sorted(cs), run) == OfRun(cs, run) {
      SortedOfRun(cs, run);
    }
  }

  // ---------------------------------------------------------------------------
  // Listings of a ledger
  // ---------------------------------------------------------------------------

  /** Every entry of the map once, in some order. */
  ghost predicate Lists(entries: Listing, m: map<string, ClaimedRun>) {
    (forall i, j | 0 <= i < j < |entries| :: entries[i].0 != entries[j].0)
    && (forall i | 0 <= i < |entries| :: entries[i].0 in m && m[entries[i].0] == entries[i].1)
    && (forall k | k in m :: (k, m[k]) in entries)
  }

  /** The candidates of the entries whose issue is not active, in listing order. */
  function Expired(entries: Listing, active: set<string>): seq<ExpiredLease> {
    if entries == [] then []
    else
      var e := entries[|entries| - 1];
      Expired(entries[..|entries| - 1], active) + if e.0 in active then [] else [Candidate(e.1)]
  }

  function IdSet(ids: seq<string>): set<string> {
    set id | id in ids
  }

  class ActiveSetStore {
    var ids: seq<string>

    constructor ()
      ensures ids == []
    {
      ids := [];
    }

    method Replace(ids': seq<string>)
      modifies this
      ensures ids == ids'
    {
      ids := ids';
    }
  }

  class ClaimedRunRegistry {
    var inner: map<string, ClaimedRun>

    constructor ()
      ensures inner == map[]
    {
      inner := map[];
    }

    method Record(issue: string, claim: ClaimedRun)
      modifies this
      ensures inner == LedgerStep(old(inner), Step.Record(issue, claim))
    {
      inner := inner[issue := claim];
    }

    method Forget(issue: string)
      modifies this
      ensures inner == LedgerStep(old(inner), Step.Forget(issue))
    {
      inner := inner - {issue};
    }

    /** The entries in whatever order the map yields them. */
    method Snapshot() returns (entries: Listing)
      ensures Lists(entries, inner)
    {
      entries := [];
      var left := inner.Keys;
      while left != {}
        invariant left <= inner.Keys
        invariant forall i, j | 0 <= i < j < |entries| :: entries[i].0 != entries[j].0
        invariant forall i | 0 <= i < |entries| ::
                    entries[i].0 in inner && entries[i].0 !in left && inner[entries[i].0] == entries[i].1
        invariant forall k | k in inner && k !in left :: (k, inner[k]) in entries
        decreases |left|
      {
        var k :| k in left;
        entries := entries + [(k, inner[k])];
        left := left - {k};
      }
    }
  }

  class ActiveSetRecoverySource {
    const activeSet: ActiveSetStore
    const registry: ClaimedRunRegistry

    constructor (activeSet: ActiveSetStore, registry: ClaimedRunRegistry)
      ensures this.activeSet == activeSet && this.registry == registry
    {
      this.activeSet, this.registry := activeSet, registry;
    }

    method ListExpiredLeases() returns (out: seq<ExpiredLease>)
      ensures exists entries :: Lists(entries, registry.inner)
                && out == Sorted(Expired(entries, IdSet(activeSet.ids)))
      ensures Ascending(out)
      ensures forall c :: multiset(out)[c] == |Claiming(registry.inner, IdSet(activeSet.ids), c)|
    {
      var activeIds := IdSet(activeSet.ids);
      var entries := registry.Snapshot();
      out := [];
      for i := 0 to |entries|
        invariant out == Expired(entries[..i], activeIds)
      {
        assert entries[..i + 1][..i] == entries[..i];
        if entries[i].0 !in activeIds {
          out := out + [Candidate(entries[i].1)];
        }
      }
      assert entries[..|entries|] == entries;
      SortedSorts(out);
      CandidatesCounted(registry.inner, entries, activeIds);
      out := Sorted(out);
    }
  }

  // ---------------------------------------------------------------------------
  // What the view contains
  // ---------------------------------------------------------------------------

  /** The expired issues whose claim the candidate `c` carries. */
  function Claiming(m: map<string, ClaimedRun>, active: set<string>, c: ExpiredLease): set<string> {
    set k | k in m && k !in active && Carries(c, m[k])
  }

  predicate Counts(e: (string, ClaimedRun), active: set<string>, c: ExpiredLease) {
    e.0 !in active && Candidate(e.1) == c
  }

  function Counted(entries: Listing, active: set<string>, c: ExpiredLease): set<string> {
    set i | 0 <= i < |entries| && Counts(entries[i], active, c) :: entries[i].0
  }

  lemma CountedSnoc(init: Listing, e: (string, ClaimedRun), active: set<string>, c: ExpiredLease)
    ensures Counted(init + [e], active, c) == Counted(init, active, c) + if Counts(e, active, c) then {e.0} else {}
  {
    var all := init + [e];
    var right := Counted(init, active, c) + if Counts(e, active, c) then {e.0} else {};
    forall k | k in right ensures k in Counted(all, active, c) {
      if k in Counted(init, active, c) {
        var i :| 0 <= i < |init| && Counts(init[i], active, c) && init[i].0 == k;
        assert all[i] == init[i];
      } else {
        assert all[|init|] == e;
      }
    }
    forall k | k in Counted(all, active, c) ensures k in right {
      var i :| 0 <= i < |all| && Counts(all[i], active, c) && all[i].0 == k;
      assert i < |init| ==> all[i] == init[i];
    }
  }

  lemma {:induction false} CountListed(entries: Listing, active: set<string>, c: ExpiredLease)
    requires forall i, j | 0 <= i < j < |entries| :: entries[i].0 != entries[j].0
    ensures multiset(Expired(entries, active))[c] == |Counted(entries, active, c)|
  {
    if entries != [] {
      var init, e := entries[..|entries| - 1], entries[|entries| - 1];
      assert entries == init + [e];
      CountListed(init, active, c);
      CountedSnoc(init, e, active, c);
      assert e.0 !in Counted(init, active, c);
    }
  }

  /** Each candidate occurs once for every expired issue that claims it. */
  lemma CandidatesCounted(m: map<string, ClaimedRun>, entries: Listing, active: set<string>)
    requires Lists(entries, m)
    ensures forall c :: multiset(Expired(entries, active))[c] == |Claiming(m, active, c)|
  {
    forall c ensures multiset(Expired(entries, active))[c] == |Claiming(m, active, c)| {
      CountListed(entries, active, c);
      assert Counted(entries, active, c) == Claiming(m, active, c) by {
        forall k | k in Claiming(m, active, c) ensures k in Counted(entries, active, c) {
          var i :| 0 <= i < |entries| && entries[i] == (k, m[k]);
        }
      }
    }
  }

  // ---------------------------------------------------------------------------
  // Iteration order
  // ---------------------------------------------------------------------------

  /** Expired issues that share a run id read as the same candidate. */
  predicate RunsTellApart(m: map<string, ClaimedRun>, active: set<string>) {
    forall x, y | x in m && y in m && x !in active && y !in active && m[x].runId == m[y].runId ::
      Candidate(m[x]) == Candidate(m[y])
  }

  /** The view does not depend on the order in which the map is iterated. */
  ghost predicate OrderFree(m: map<string, ClaimedRun>, active: set<string>) {
    forall one, other | Lists(one, m) && Lists(other, m) ::
      Sorted(Expired(one, active)) == Sorted(Expired(other, active))
  }

  lemma TailBag(a: seq<ExpiredLease>)
    requires a != []
    ensures multiset(a[1..]) == multiset(a) - multiset{a[0]}
    ensures forall x | x in a[1..] :: x in a
  {
    assert a == [a[0]] + a[1..];
  }

  lemma {:induction false} AscendingUnique(a: seq<ExpiredLease>, b: seq<ExpiredLease>)
    requires Ascending(a) && Ascending(b) && multiset(a) == multiset(b)
    requires forall x, y | x in a && y in a && x.runId == y.runId :: x == y
    ensures a == b
  {
    assert |multiset(a)| == |a| && |multiset(b)| == |b|;
    if a != [] {
      assert a[0] in multiset(a) && b[0] in multiset(b);
      assert a[0] in b && b[0] in a;
      assert a[0] == b[0];
      TailBag(a);
      TailBag(b);
      AscendingUnique(a[1..], b[1..]);
    }
  }

  lemma ExpiredAreClaims(m: map<string, ClaimedRun>, entries: Listing, active: set<string>, c: ExpiredLease)
    returns (k: string)
    requires Lists(entries, m) && c in Expired(entries, active)
    ensures k in m && k !in active && Candidate(m[k]) == c
  {
    CandidatesCounted(m, entries, active);
    assert c in multiset(Expired(entries, active));
    var claiming := Claiming(m, active, c);
    assert |claiming| > 0;
    k :| k in claiming;
  }

  lemma TellingApartFreesOrder(m: map<string, ClaimedRun>, active: set<string>, one: Listing, other: Listing)
    requires RunsTellApart(m, active) && Lists(one, m) && Lists(other, m)
    ensures Sorted(Expired(one, active)) == Sorted(Expired(other, active))
  {
    var a, b := Expired(one, active), Expired(other, active);
    SortedSorts(a);
    SortedSorts(b);
    CandidatesCounted(m, one, active);
    CandidatesCounted(m, other, active);
    assert multiset(a) == multiset(b);
    forall x, y | x in Sorted(a) && y in Sorted(a) && x.runId == y.runId ensures x == y {
      assert x in multiset(a) && y in multiset(a);
      var k := ExpiredAreClaims(m, one, active, x);
      var l := ExpiredAreClaims(m, one, active, y);
    }
    AscendingUnique(Sorted(a), Sorted(b));
  }

  lemma {:induction false} SomeListing(m: map<string, ClaimedRun>) returns (entries: Listing)
    ensures Lists(entries, m)
    decreases m.Keys
  {
    if m == map[] {
      entries := [];
    } else {
      var k :| k in m;
      var rest := SomeListing(m - {k});
      entries := [(k, m[k])] + rest;
      assert forall j | j in m && j != k :: (j, (m - {k})[j]) in rest;
    }
  }

  lemma {:induction false} OfRunSplits(a: seq<ExpiredLease>, b: seq<ExpiredLease>, run: int)
    ensures OfRun(a + b, run) == OfRun(a, run) + OfRun(b, run)
  {
    if b == [] {
      assert a + b == a;
    } else {
      assert (a + b)[..|a + b| - 1] == a + b[..|b| - 1];
      OfRunSplits(a, b[..|b| - 1], run);
    }
  }

  lemma {:induction false} ExpiredSplits(a: Listing, b: Listing, active: set<string>)
    ensures Expired(a + b, active) == Expired(a, active) + Expired(b, active)
  {
    if b == [] {
      assert a + b == a;
    } else {
      assert (a + b)[..|a + b| - 1] == a + b[..|b| - 1];
      ExpiredSplits(a, b[..|b| - 1], active);
    }
  }

  lemma TwoInFront(m: map<string, ClaimedRun>, x: string, y: string, rest: Listing)
    requires x in m && y in m && x != y && Lists(rest, m - {x, y})
    ensures Lists([(x, m[x]), (y, m[y])] + rest, m)
  {
    var entries := [(x, m[x]), (y, m[y])] + rest;
    forall k | k in m ensures (k, m[k]) in entries {
      if k == x {
        assert entries[0] == (k, m[k]);
      } else if k == y {
        assert entries[1] == (k, m[k]);
      } else {
        assert (k, (m - {x, y})[k]) in rest;
      }
    }
  }

  lemma FrontOf(e: (string, ClaimedRun), f: (string, ClaimedRun), active: set<string>)
    requires e.0 !in active && f.0 !in active
    ensures Expired([e, f], active) == [Candidate(e.1), Candidate(f.1)]
  {
    assert Expired([e], active) == [Candidate(e.1)] by {
      assert [e][..0] == [];
    }
    assert [e, f][..1] == [e] && [e, f][1] == f;
  }

  lemma RunOfTwo(c: ExpiredLease, d: ExpiredLease)
    requires c.runId == d.runId
    ensures OfRun([c, d], c.runId) == [c, d]
  {
    assert OfRun([c], c.runId) == [c] by {
      assert [c][..0] == [];
    }
    assert [c, d][..1] == [c] && [c, d][1] == d;
  }

  /** A listing that starts with two expired issues of one run shows them in that order. */
  lemma FrontDecides(e: (string, ClaimedRun), f: (string, ClaimedRun), active: set<string>, rest: Listing)
    requires e.0 !in active && f.0 !in active && e.1.runId == f.1.runId
    ensures var run := OfRun(Sorted(Expired([e, f] + rest, active)), e.1.runId);
            |run| >= 2 && run[0] == Candidate(e.1)
  {
    var c, d, r := Candidate(e.1), Candidate(f.1), e.1.runId;
    var tail := Expired(rest, active);
    ExpiredSplits([e, f], rest, active);
    FrontOf(e, f, active);
    SortedSorts([c, d] + tail);
    OfRunSplits([c, d], tail, r);
    RunOfTwo(c, d);
  }

  /** The view is independent of the iteration order exactly when the run ids tell the
      expired claims apart. */
  lemma OrderFreeExactlyWhen(m: map<string, ClaimedRun>, active: set<string>)
    ensures OrderFree(m, active) <==> RunsTellApart(m, active)
  {
    if RunsTellApart(m, active) {
      forall one, other | Lists(one, m) && Lists(other, m)
        ensures Sorted(Expired(one, active)) == Sorted(Expired(other, active))
      {
        TellingApartFreesOrder(m, active, one, other);
      }
    } else {
      var x, y :| x in m && y in m && x !in active && y !in active && m[x].runId == m[y].runId
                  && Candidate(m[x]) != Candidate(m[y]);
      var rest := SomeListing(m - {x, y});
      var one, other := [(x, m[x]), (y, m[y])] + rest, [(y, m[y]), (x, m[x])] + rest;
      TwoInFront(m, x, y, rest);
      assert m - {x, y} == m - {y, x};
      TwoInFront(m, y, x, rest);
      FrontDecides((x, m[x]), (y, m[y]), active, rest);
      FrontDecides((y, m[y]), (x, m[x]), active, rest);
      assert Lists(one, m) && Lists(other, m);
    }
  }

  // ---------------------------------------------------------------------------
  // The ledger along a run
  // ---------------------------------------------------------------------------

  datatype Step = Record(issue: string, claim: ClaimedRun) | Forget(issue: string) | Publish(ids: seq<string>)

  function LedgerStep(m: map<string, ClaimedRun>, s: Step): map<string, ClaimedRun> {
    match s
    case Record(issue, claim) => m[issue := claim]
    case Forget(issue) => m - {issue}
    case Publish(_) => m
  }

  function LedgerOf(h: seq<Step>): map<string, ClaimedRun> {
    if h == [] then map[] else LedgerStep(LedgerOf(h[..|h| - 1]), h[|h| - 1])
  }

  predicate Touches(s: Step, issue: string) {
    !s.Publish? && s.issue == issue
  }

  /** The ledger holds the latest claim of every issue not forgotten since, and no other. */
  lemma {:induction false} LedgerHoldsLatest(h: seq<Step>, issue: string, claim: ClaimedRun)
    ensures issue in LedgerOf(h) && LedgerOf(h)[issue] == claim
            <==> LatestClaim(h, issue, claim)
  {
    if h != [] {
      LastOf(h);
      var init, s := h[..|h| - 1], h[|h| - 1];
      LedgerHoldsLatest(init, issue, claim);
      SinceSnoc(init, s, s => s == Record(issue, claim), s => Touches(s, issue) && s != Record(issue, claim));
    }
  }

  /** The ids of the latest published active set. */
  function PublishedOf(h: seq<Step>): seq<string> {
    if h == [] then []
    else if h[|h| - 1].Publish? then h[|h| - 1].ids
    else PublishedOf(h[..|h| - 1])
  }

  ghost predicate LatestClaim(h: seq<Step>, issue: string, claim: ClaimedRun) {
    Since(h, s => s == Record(issue, claim), s => Touches(s, issue) && s != Record(issue, claim))
  }

  /** After any run of records, forgets and publications the view shows exactly the
      latest claims whose issue is missing from the latest active set: each candidate as
      often as there are such issues. */
  lemma ViewShowsLatest(h: seq<Step>, entries: Listing, c: ExpiredLease)
    requires Lists(entries, LedgerOf(h))
    ensures var active := IdSet(PublishedOf(h));
            multiset(Sorted(Expired(entries, active)))[c] == |Claiming(LedgerOf(h), active, c)|
    ensures forall issue ::
              issue in Claiming(LedgerOf(h), IdSet(PublishedOf(h)), c)
              <==> issue !in PublishedOf(h) && exists claim :: LatestClaim(h, issue, claim) && Carries(c, claim)
  {
    var m, active := LedgerOf(h), IdSet(PublishedOf(h));
    SortedBag(Expired(entries, active));
    CandidatesCounted(m, entries, active);
    forall issue
      ensures issue in Claiming(m, active, c)
              <==> issue !in PublishedOf(h) && exists claim :: LatestClaim(h, issue, claim) && Carries(c, claim)
    {
      if issue in Claiming(m, active, c) {
        LedgerHoldsLatest(h, issue, m[issue]);
      }
      if claim :| LatestClaim(h, issue, claim) && Carries(c, claim) {
        LedgerHoldsLatest(h, issue, claim);
      }
    }
  }
}
