/**
 A client that keeps its query parameter in the address and adds its last event in the
 header: the parameter outranks the header, so every connection starts over.
 */
module KeptQuery {
  import opened Prelude
  import opened DurableTail
  import opened Cursorless

  /** Connections opened one after the other with the same query parameter, and from the
      second on with the last event that arrived in the header. */
  function KeptChain(log: seq<DurableEvent>, query: int, header: Option<int>, sessions: seq<Session>, pageSize: nat)
    : (seq<DurableEvent>, seq<DurableEvent>)
    decreases |sessions|
  {
    if sessions == [] then (log, [])
    else
      var (log', seen) := Deliver(log, Request(Some(query), header), sessions[0], pageSize);
      var (final, more) := KeptChain(log', query, Resume(header, seen), sessions[1..], pageSize);
      (final, seen + more)
  }

  /** At most one session delivers anything, none if something has `arrived`. */
  predicate OneDelivers(arrived: bool, log: seq<DurableEvent>, query: int, header: Option<int>,
                        sessions: seq<Session>, pageSize: nat)
    decreases |sessions|
  {
    sessions == [] ||
    var (log', seen) := Deliver(log, Request(Some(query), header), sessions[0], pageSize);
    (seen == [] || !arrived)
    && OneDelivers(arrived || seen != [], log', query, Resume(header, seen), sessions[1..], pageSize)
  }

  /** What a connection brings are the first rows above the query parameter. */
  lemma FromTheQuery(log: seq<DurableEvent>, query: int, header: Option<int>, session: Session, pageSize: nat)
    requires Ascending(log)
    ensures var (log', seen) := Deliver(log, Request(Some(query), header), session, pageSize);
            log <= log' && Ascending(log') && seen <= After(log', query) && Ascending(seen)
  {
    var (log', seen) := Deliver(log, Request(Some(query), header), session, pageSize);
    OneSession(log, Request(Some(query), header), session, pageSize);
    AfterAscends(log', query);
    PrefixAscends(seen, After(log', query));
  }

  lemma SameFirstRow(log: seq<DurableEvent>, log': seq<DurableEvent>, query: int, before: seq<DurableEvent>,
                     seen: seq<DurableEvent>, more: seq<DurableEvent>)
    requires log <= log' && before != [] && before <= After(log, query) && seen != [] && seen <= After(log', query)
    ensures !Ascending(before + (seen + more))
  {
    AfterExtends(log, log', query);
    var c := before + (seen + more);
    assert c[0] == before[0] == After(log', query)[0] && c[|before|] == seen[0] == After(log', query)[0];
  }

  lemma {:induction false} KeptFrom(before: seq<DurableEvent>, log: seq<DurableEvent>, query: int,
                                    header: Option<int>, sessions: seq<Session>, pageSize: nat)
    requires Ascending(log) && Ascending(before) && before <= After(log, query)
    ensures Ascending(before + KeptChain(log, query, header, sessions, pageSize).1)
            <==> OneDelivers(before != [], log, query, header, sessions, pageSize)
    decreases |sessions|
  {
    if sessions == [] {
      assert before + [] == before;
    } else {
      var (log', seen) := Deliver(log, Request(Some(query), header), sessions[0], pageSize);
      var more := KeptChain(log', query, Resume(header, seen), sessions[1..], pageSize).1;
      FromTheQuery(log, query, header, sessions[0], pageSize);
      AfterExtends(log, log', query);
      Regroup(before, seen, more);
      if seen == [] || before == [] {
        assert before + seen == if seen == [] then before else seen;
        KeptFrom(before + seen, log', query, Resume(header, seen), sessions[1..], pageSize);
      } else {
        SameFirstRow(log, log', query, before, seen, more);
      }
    }
  }

  /** For a client that keeps its query parameter, arrivals ascend, and so never repeat,
      exactly if at most one of its connections delivers anything. */
  lemma KeptQueryExactlyWhen(log: seq<DurableEvent>, query: int, sessions: seq<Session>, pageSize: nat)
    requires Ascending(log)
    ensures Ascending(KeptChain(log, query, None, sessions, pageSize).1)
            <==> OneDelivers(false, log, query, None, sessions, pageSize)
  {
    KeptFrom([], log, query, None, sessions, pageSize);
    var seen := KeptChain(log, query, None, sessions, pageSize).1;
    assert [] + seen == seen;
  }
}
