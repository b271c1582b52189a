/** The watch stream: connecting, reading, and waiting with capped backoff. */
module Reconnect {
  import opened Prelude
  import opened SseParsing

  datatype WatchEvent<+E> =
    | Connected(url: string)
    | Disconnected(reason: string)
    | Reconnecting(attempt: nat, delay: real)
    | Lagged(missed: nat)
    | Event(event: E)

  datatype Backoff = Backoff(initial: real, max: real, factor: real)

  predicate ValidBackoff(b: Backoff) {
    b.initial >= 0.0 && b.max >= 0.0
  }

  function RMin(a: real, b: real): real {
    if a <= b then a else b
  }

  function RMax(a: real, b: real): real {
    if a >= b then a else b
  }

  /** The delay after one more failure. */
  function BackoffStep(b: Backoff, current: real): real {
    RMin(RMax(current * b.factor, b.initial), b.max)
  }

  /** The attempt counter is an unsigned 32-bit number. */
  const U32: nat := 0x1_0000_0000

  datatype StreamState = StreamState(delay: real, attempt: nat, connected: bool)

  const FRESH := StreamState(0.0, 0, false)

  /** What the outside world answers when the stream is polled. */
  datatype Input<+E> = Read(outcome: Outcome<E>) | Dial(ok: bool) | Cancel

  /** A connected stream reads; a disconnected one dials, unless it is cancelled
      during a sleep. */
  predicate Fits<E>(s: StreamState, input: Input<E>) {
    match input
    case Read(_) => s.connected
    case Dial(_) => !s.connected
    case Cancel => !s.connected && s.delay > 0.0
  }

  /** One poll: the next state and the one event it produces, or the end. */
  function Poll<E>(s: StreamState, b: Backoff, url: string, input: Input<E>): (StreamState, Option<WatchEvent<E>>)
    requires Fits(s, input)
  {
    match input
    case Read(Event(e)) => (s, Some(WatchEvent.Event(e)))
    case Read(Lagged(n)) => (s.(connected := false), Some(WatchEvent.Lagged(n)))
    case Read(Closed(reason)) => (s.(connected := false), Some(Disconnected(reason)))
    case Dial(true) => (StreamState(0.0, 0, true), Some(Connected(url)))
    case Dial(false) =>
      var delay := BackoffStep(b, s.delay);
      var attempt := (s.attempt + 1) % U32;
      (StreamState(delay, attempt, false), Some(Reconnecting(attempt, delay)))
    case Cancel => (s, None)
  }

  class WatchStream<E> {
    const url: string
    const backoff: Backoff
    var delay: real
    var attempt: nat
    var connected: bool

    constructor (url: string, backoff: Backoff)
      ensures this.url == url && this.backoff == backoff && State() == FRESH
    {
      this.url, this.backoff := url, backoff;
      delay, attempt, connected := 0.0, 0, false;
    }

    function State(): StreamState
      reads this
    {
      StreamState(delay, attempt, connected)
    }

    method Next(input: Input<E>) returns (r: Option<WatchEvent<E>>)
      requires Fits(State(), input)
      modifies this
      ensures (State(), r) == Poll(old(State()), backoff, url, input)
    {
      if connected {
        match input.outcome {
          case Event(e) =>
            return Some(WatchEvent.Event(e));
          case Lagged(missed) =>
            connected := false;
            return Some(WatchEvent.Lagged(missed));
          case Closed(reason) =>
            connected := false;
            return Some(Disconnected(reason));
        }
      }
      if delay > 0.0 {
        if input.Cancel? {
          return None;
        }
      }
      if input.ok {
        connected, delay, attempt := true, 0.0, 0;
        return Some(Connected(url));
      }
      delay := RMin(RMax(delay * backoff.factor, backoff.initial), backoff.max);
      attempt := (attempt + 1) % U32;
      r := Some(Reconnecting(attempt, delay));
    }
  }

  // ---------------------------------------------------------------------------
  // Whole runs
  // ---------------------------------------------------------------------------

  /** A stream in use: its state and the events it has produced. */
  datatype Watch<E> = Watch(state: StreamState, trace: seq<WatchEvent<E>>)

  function NewWatch<E>(s: StreamState): Watch<E> {
    Watch(s, [])
  }

  function Step<E>(w: Watch<E>, b: Backoff, url: string, input: Input<E>): Watch<E>
    requires Fits(w.state, input)
  {
    var (s, event) := Poll(w.state, b, url, input);
    Watch(s, if event.Some? then w.trace + [event.value] else w.trace)
  }

  /** Inputs the stream can meet one after the other; a cancelled stream has ended. */
  predicate Feasible<E>(w: Watch<E>, b: Backoff, url: string, inputs: seq<Input<E>>)
    decreases |inputs|
  {
    inputs == [] ||
    (&& Fits(w.state, inputs[0])
     && (inputs[0].Cancel? ==> |inputs| == 1)
     && Feasible(Step(w, b, url, inputs[0]), b, url, inputs[1..]))
  }

  function Run<E>(w: Watch<E>, b: Backoff, url: string, inputs: seq<Input<E>>): Watch<E>
    requires Feasible(w, b, url, inputs)
    decreases |inputs|
  {
    if inputs == [] then w else Run(Step(w, b, url, inputs[0]), b, url, inputs[1..])
  }

  // ---------------------------------------------------------------------------
  // The grammar of traces
  // ---------------------------------------------------------------------------

  function SkipReconnecting<E>(t: seq<WatchEvent<E>>): (r: seq<WatchEvent<E>>)
    ensures |r| <= |t|
  {
    if t != [] && t[0].Reconnecting? then SkipReconnecting(t[1..]) else t
  }

  function SkipEvents<E>(t: seq<WatchEvent<E>>): (r: seq<WatchEvent<E>>)
    ensures |r| <= |t|
  {
    if t != [] && t[0].Event? then SkipEvents(t[1..]) else t
  }

  /** A prefix of a word of (Reconnecting* Connected Event* (Lagged | Disconnected))*. */
  predicate GrammarPrefix<E>(t: seq<WatchEvent<E>>)
    decreases |t|, 1
  {
    var a := SkipReconnecting(t);
    a == [] || (a[0].Connected? && OpenConnection(a[1..]))
  }

  /** The same, from just after `Connected`. */
  predicate OpenConnection<E>(t: seq<WatchEvent<E>>)
    decreases |t|, 0
  {
    var a := SkipEvents(t);
    a == [] || ((a[0].Lagged? || a[0].Disconnected?) && GrammarPrefix(a[1..]))
  }

  /** What the rest of a run adds to the trace, read from the front. */
  function Tail<E>(s: StreamState, b: Backoff, url: string, inputs: seq<Input<E>>): seq<WatchEvent<E>>
    requires Feasible(NewWatch<E>(s), b, url, inputs)
    decreases |inputs|
  {
    if inputs == [] then []
    else
      var (s', event) := Poll(s, b, url, inputs[0]);
      FeasibleFromState(Step(NewWatch<E>(s), b, url, inputs[0]), [], b, url, inputs[1..]);
      (if event.Some? then [event.value] else []) + Tail(s', b, url, inputs[1..])
  }

  lemma {:induction false} FeasibleFromState<E>(w: Watch<E>, trace: seq<WatchEvent<E>>, b: Backoff, url: string,
                                                 inputs: seq<Input<E>>)
    ensures Feasible(w, b, url, inputs) <==> Feasible(Watch(w.state, trace), b, url, inputs)
    decreases |inputs|
  {
    if inputs != [] && Fits(w.state, inputs[0]) {
      var w' := Step(w, b, url, inputs[0]);
      FeasibleFromState(w', Step(Watch(w.state, trace), b, url, inputs[0]).trace, b, url, inputs[1..]);
    }
  }

  lemma {:induction false} RunAddsTail<E>(w: Watch<E>, b: Backoff, url: string, inputs: seq<Input<E>>)
    requires Feasible(w, b, url, inputs)
    ensures Feasible(NewWatch<E>(w.state), b, url, inputs)
    ensures Run(w, b, url, inputs).trace == w.trace + Tail(w.state, b, url, inputs)
    decreases |inputs|
  {
    FeasibleFromState(w, [], b, url, inputs);
    if inputs != [] {
      RunAddsTail(Step(w, b, url, inputs[0]), b, url, inputs[1..]);
    }
  }

  lemma {:induction false} TailFollowsGrammar<E>(s: StreamState, b: Backoff, url: string, inputs: seq<Input<E>>)
    requires Feasible(NewWatch<E>(s), b, url, inputs)
    ensures if s.connected then OpenConnection(Tail(s, b, url, inputs)) else GrammarPrefix(Tail(s, b, url, inputs))
    decreases |inputs|
  {
    if inputs != [] {
      var (s', event) := Poll(s, b, url, inputs[0]);
      FeasibleFromState(Step(NewWatch<E>(s), b, url, inputs[0]), [], b, url, inputs[1..]);
      TailFollowsGrammar(s', b, url, inputs[1..]);
      if event.Some? {
        var rest := Tail(s', b, url, inputs[1..]);
        var t := [event.value] + rest;
        assert t[1..] == rest;
        assert Tail(s, b, url, inputs) == t;
      } else {
        assert [] + Tail(s', b, url, inputs[1..]) == Tail(s', b, url, inputs[1..]);
      }
    }
  }

  /** Every run of the stream produces a prefix of a word of the grammar. */
  lemma TraceFollowsGrammar<E>(b: Backoff, url: string, inputs: seq<Input<E>>)
    requires Feasible(NewWatch<E>(FRESH), b, url, inputs)
    ensures GrammarPrefix(Run(NewWatch<E>(FRESH), b, url, inputs).trace)
  {
    RunAddsTail(NewWatch<E>(FRESH), b, url, inputs);
    TailFollowsGrammar(FRESH, b, url, inputs);
    assert [] + Tail(FRESH, b, url, inputs) == Tail(FRESH, b, url, inputs);
  }

  // ---------------------------------------------------------------------------
  // Attempts and delays
  // ---------------------------------------------------------------------------

  /** Failed dials since the last successful one. */
  function FailuresSince<E>(t: seq<WatchEvent<E>>): nat {
    if t == [] then 0
    else
      var last := t[|t| - 1];
      if last.Connected? then 0
      else FailuresSince(t[..|t| - 1]) + if last.Reconnecting? then 1 else 0
  }

  function Pow(x: real, n: nat): real {
    if n == 0 then 1.0 else Pow(x, n - 1) * x
  }

  /** The delay announced by the `k`-th failure in a row. */
  function DelayAfter(b: Backoff, k: nat): real {
    if k == 0 then 0.0 else RMin(b.max, Reach(b, k - 1))
  }

  lemma MulMonotone(c: real, a: real, b: real)
    requires a <= b && c >= 0.0
    ensures c * a <= c * b
  {
  }

  lemma {:induction false} PowAtLeastOne(x: real, n: nat)
    requires x >= 1.0
    ensures Pow(x, n) >= 1.0
    ensures Pow(x, n + 1) >= Pow(x, n)
  {
    if n > 0 {
      PowAtLeastOne(x, n - 1);
    }
    MulMonotone(Pow(x, n), 1.0, x);
  }

  /** A step while the factor lets the delay grow. */
  lemma GrowingStep(b: Backoff, reach: real)
    requires ValidBackoff(b) && b.factor >= 1.0 && reach >= b.initial
    ensures BackoffStep(b, RMin(b.max, reach)) == RMin(b.max, reach * b.factor)
  {
    MulMonotone(reach, 1.0, b.factor);
    MulMonotone(b.max, 1.0, b.factor);
    var d := RMin(b.max, reach);
    var next := d * b.factor;
    assert reach * 1.0 == reach && b.max * 1.0 == b.max;
    assert BackoffStep(b, d) == RMin(RMax(next, b.initial), b.max);
  }

  /** A step with a factor below one, negative ones included. */
  lemma FlatStep(b: Backoff)
    requires ValidBackoff(b) && b.factor < 1.0
    ensures BackoffStep(b, RMin(b.max, b.initial)) == RMin(b.max, b.initial)
  {
    var d := RMin(b.max, b.initial);
    MulMonotone(d, b.factor, 1.0);
    var next := d * b.factor;
    assert next <= d * 1.0 == d;
    assert BackoffStep(b, d) == RMin(RMax(next, b.initial), b.max);
  }

  /** How far the delay would have grown without the cap. */
  function Reach(b: Backoff, k: nat): real {
    b.initial * Pow(RMax(1.0, b.factor), k)
  }

  lemma ReachGrows(b: Backoff, k: nat)
    requires ValidBackoff(b)
    ensures b.initial <= Reach(b, k) <= Reach(b, k + 1)
    ensures b.factor >= 1.0 ==> Reach(b, k + 1) == Reach(b, k) * b.factor
    ensures b.factor < 1.0 ==> Reach(b, k) == b.initial
  {
    var g := RMax(1.0, b.factor);
    PowAtLeastOne(g, k);
    var p, q := Pow(g, k), Pow(g, k + 1);
    MulMonotone(b.initial, 1.0, p);
    MulMonotone(b.initial, p, q);
    MulAssoc(b.initial, p, g);
    OnesStayOne(k);
  }

  /** One backoff step leads from the delay of `k` failures to that of `k + 1`,
      whatever the factor. */
  lemma BackoffClosedForm(b: Backoff, k: nat)
    requires ValidBackoff(b)
    ensures BackoffStep(b, DelayAfter(b, k)) == DelayAfter(b, k + 1)
  {
    if k == 0 {
      FirstDelay(b);
    } else {
      ReachGrows(b, k - 1);
      ReachGrows(b, k);
      if b.factor >= 1.0 {
        GrowingStep(b, Reach(b, k - 1));
      } else {
        FlatStep(b);
      }
    }
  }

  lemma FirstDelay(b: Backoff)
    requires ValidBackoff(b)
    ensures BackoffStep(b, 0.0) == RMin(b.max, b.initial) == DelayAfter(b, 1)
  {
    assert Pow(RMax(1.0, b.factor), 0) == 1.0;
  }

  lemma MulAssoc(a: real, b: real, c: real)
    ensures (a * b) * c == a * (b * c)
  {
  }

  lemma {:induction false} OnesStayOne(n: nat)
    ensures Pow(1.0, n) == 1.0
  {
    if n > 0 {
      OnesStayOne(n - 1);
    }
  }

  /** The announced delays never shrink during an outage and never exceed the cap. */
  lemma DelaysGrowToCap(b: Backoff, k: nat)
    requires ValidBackoff(b) && k > 0
    ensures RMin(b.initial, b.max) <= DelayAfter(b, k) <= DelayAfter(b, k + 1) <= b.max
  {
    ReachGrows(b, k - 1);
  }

  /** An announcement carries the number of failures since the last connection and
      the delay that number calls for. */
  predicate AnnouncedAt<E>(t: seq<WatchEvent<E>>, b: Backoff, i: nat)
    requires i < |t|
  {
    var n := FailuresSince(t[..i + 1]);
    t[i].Reconnecting? ==> t[i].attempt == n % U32 && t[i].delay == DelayAfter(b, n)
  }

  predicate Announced<E>(t: seq<WatchEvent<E>>, b: Backoff) {
    forall i: nat | i < |t| :: AnnouncedAt(t, b, i)
  }

  /** The state and every announcement agree with the number of failures since the
      last connection. */
  predicate CountsFailures<E>(w: Watch<E>, b: Backoff) {
    && w.state.attempt == FailuresSince(w.trace) % U32
    && (w.state.connected ==> FailuresSince(w.trace) == 0)
    && w.state.delay == DelayAfter(b, FailuresSince(w.trace))
    && Announced(w.trace, b)
  }

  lemma FailuresSnoc<E>(t: seq<WatchEvent<E>>, e: WatchEvent<E>)
    ensures FailuresSince(t + [e]) == if e.Connected? then 0 else FailuresSince(t) + if e.Reconnecting? then 1 else 0
  {
    assert (t + [e])[..|t|] == t;
  }

  lemma AnnouncedSnoc<E>(t: seq<WatchEvent<E>>, e: WatchEvent<E>, b: Backoff)
    requires Announced(t, b)
    requires e.Reconnecting? ==>
               e.attempt == (FailuresSince(t) + 1) % U32 && e.delay == DelayAfter(b, FailuresSince(t) + 1)
    ensures Announced(t + [e], b)
  {
    FailuresSnoc(t, e);
    var t' := t + [e];
    assert t'[..|t| + 1] == t';
    assert AnnouncedAt(t', b, |t|);
    forall i: nat | i < |t|
      ensures AnnouncedAt(t', b, i)
    {
      assert AnnouncedAt(t, b, i);
      assert t'[..i + 1] == t[..i + 1];
    }
  }

  lemma NextAttempt(n: nat)
    ensures (n % U32 + 1) % U32 == (n + 1) % U32
  {
  }

  lemma StepCountsFailures<E>(w: Watch<E>, b: Backoff, url: string, input: Input<E>)
    requires ValidBackoff(b) && CountsFailures(w, b) && Fits(w.state, input)
    ensures CountsFailures(Step(w, b, url, input), b)
  {
    var (s, event) := Poll(w.state, b, url, input);
    if event.Some? {
      FailuresSnoc(w.trace, event.value);
      BackoffClosedForm(b, FailuresSince(w.trace));
      NextAttempt(FailuresSince(w.trace));
      AnnouncedSnoc(w.trace, event.value, b);
    }
  }

  /** In every run each announcement carries the number of failed dials since the
      last connection and the delay that number calls for. */
  lemma {:induction false} RunCountsFailures<E>(w: Watch<E>, b: Backoff, url: string, inputs: seq<Input<E>>)
    requires ValidBackoff(b) && CountsFailures(w, b) && Feasible(w, b, url, inputs)
    ensures CountsFailures(Run(w, b, url, inputs), b)
    decreases |inputs|
  {
    if inputs != [] {
      StepCountsFailures(w, b, url, inputs[0]);
      RunCountsFailures(Step(w, b, url, inputs[0]), b, url, inputs[1..]);
    }
  }

  /** What an announcement says about the trace in front of it. */
  predicate Says<E>(t: seq<WatchEvent<E>>, b: Backoff, i: nat)
    requires i < |t| && t[i].Reconnecting?
  {
    var n := FailuresSince(t[..i + 1]);
    n > 0 && t[i].attempt == n % 0x1_0000_0000 && t[i].delay == RMin(b.max, Reach(b, n - 1))
  }

  lemma AnnouncementSays<E>(t: seq<WatchEvent<E>>, b: Backoff, i: nat)
    requires i < |t| && t[i].Reconnecting? && AnnouncedAt(t, b, i)
    ensures Says(t, b, i)
  {
    FailuresSnoc(t[..i], t[i]);
    assert t[..i + 1] == t[..i] + [t[i]];
  }

  lemma FreshCounts<E>(b: Backoff)
    requires ValidBackoff(b)
    ensures CountsFailures(NewWatch<E>(FRESH), b)
  {
  }

  /** From the first poll on: announcements count the failures since the last
      connection, and their delays follow the closed form. */
  lemma EveryAnnouncementCounts<E>(b: Backoff, url: string, inputs: seq<Input<E>>, i: nat)
    requires ValidBackoff(b) && Feasible(NewWatch<E>(FRESH), b, url, inputs)
    requires i < |Run(NewWatch<E>(FRESH), b, url, inputs).trace|
    requires Run(NewWatch<E>(FRESH), b, url, inputs).trace[i].Reconnecting?
    ensures Says(Run(NewWatch<E>(FRESH), b, url, inputs).trace, b, i)
  {
    FreshCounts<E>(b);
    RunCountsFailures(NewWatch<E>(FRESH), b, url, inputs);
    AnnouncementSays(Run(NewWatch<E>(FRESH), b, url, inputs).trace, b, i);
  }

  // ---------------------------------------------------------------------------
  // Before a dial, and cancelling
  // ---------------------------------------------------------------------------

  predicate JustAnnounced<E>(t: seq<WatchEvent<E>>) {
    t != [] && t[|t| - 1].Reconnecting?
  }

  /** The last event tells what the stream does next: after an announcement it waits for
      the announced delay and dials, otherwise it does not wait. */
  predicate LastTells<E>(w: Watch<E>) {
    && (FailuresSince(w.trace) > 0 <==> JustAnnounced(w.trace))
    && w.state.delay == (if JustAnnounced(w.trace) then w.trace[|w.trace| - 1].delay else 0.0)
    && (w.state.connected ==> !JustAnnounced(w.trace))
  }

  lemma StepTells<E>(w: Watch<E>, b: Backoff, url: string, input: Input<E>)
    requires LastTells(w) && Fits(w.state, input)
    ensures LastTells(Step(w, b, url, input))
  {
    var event := Poll(w.state, b, url, input).1;
    if event.Some? {
      FailuresSnoc(w.trace, event.value);
    }
  }

  lemma {:induction false} RunTells<E>(w: Watch<E>, b: Backoff, url: string, inputs: seq<Input<E>>)
    requires LastTells(w) && Feasible(w, b, url, inputs)
    ensures LastTells(Run(w, b, url, inputs))
    decreases |inputs|
  {
    if inputs != [] {
      StepTells(w, b, url, inputs[0]);
      RunTells(Step(w, b, url, inputs[0]), b, url, inputs[1..]);
    }
  }

  /** A dial directly follows an announcement exactly if a dial has failed since the last
      connection; the first dial after a lost connection is neither announced nor delayed. */
  lemma DialAnnouncedExactlyWhen<E>(b: Backoff, url: string, inputs: seq<Input<E>>)
    requires Feasible(NewWatch<E>(FRESH), b, url, inputs)
    ensures var w := Run(NewWatch<E>(FRESH), b, url, inputs);
            && (JustAnnounced(w.trace) <==> FailuresSince(w.trace) > 0)
            && (!JustAnnounced(w.trace) ==> w.state.delay == 0.0)
  {
    RunTells(NewWatch<E>(FRESH), b, url, inputs);
  }

  /** The stream can be cancelled exactly while it waits out an announced delay: neither a
      read nor a dial without a delay is interrupted. */
  lemma CancelledExactlyWhileWaiting<E>(b: Backoff, url: string, inputs: seq<Input<E>>)
    requires Feasible(NewWatch<E>(FRESH), b, url, inputs)
    ensures var w := Run(NewWatch<E>(FRESH), b, url, inputs);
            Fits(w.state, Input<E>.Cancel) <==> JustAnnounced(w.trace) && w.trace[|w.trace| - 1].delay > 0.0
  {
    RunTells(NewWatch<E>(FRESH), b, url, inputs);
  }

  // ---------------------------------------------------------------------------
  // What the consumer sees of the inputs
  // ---------------------------------------------------------------------------

  /** The event a consumer is owed for an input. */
  predicate Answers<E(==)>(input: Input<E>, url: string, event: WatchEvent<E>) {
    match input
    case Read(Event(e)) => event == WatchEvent.Event(e)
    case Read(Lagged(n)) => event == WatchEvent.Lagged(n)
    case Read(Closed(reason)) => event == Disconnected(reason)
    case Dial(true) => event == Connected(url)
    case Dial(false) => event.Reconnecting?
    case Cancel => false
  }

  /** The inputs up to a cancellation, which ends the stream. */
  function Answered<E>(inputs: seq<Input<E>>): nat {
    if inputs != [] && inputs[|inputs| - 1].Cancel? then |inputs| - 1 else |inputs|
  }

  lemma PollAnswers<E>(s: StreamState, b: Backoff, url: string, input: Input<E>)
    requires Fits(s, input)
    ensures Poll(s, b, url, input).1.Some? <==> !input.Cancel?
    ensures Poll(s, b, url, input).1.Some? ==> Answers(input, url, Poll(s, b, url, input).1.value)
  {
  }

  lemma {:induction false} TailAnswers<E>(s: StreamState, b: Backoff, url: string, inputs: seq<Input<E>>)
    requires Feasible(NewWatch<E>(s), b, url, inputs)
    ensures var t := Tail(s, b, url, inputs);
            |t| == Answered(inputs) && forall i | 0 <= i < |t| :: Answers(inputs[i], url, t[i])
    decreases |inputs|
  {
    if inputs != [] {
      var (s', event) := Poll(s, b, url, inputs[0]);
      PollAnswers(s, b, url, inputs[0]);
      FeasibleFromState(Step(NewWatch<E>(s), b, url, inputs[0]), [], b, url, inputs[1..]);
      TailAnswers(s', b, url, inputs[1..]);
    }
  }

  /** In every run the trace answers the inputs one by one: every event, lag or end read is
      passed on, every successful dial is announced with the stream's address, every failed
      one as a retry, and nothing else is ever added. */
  lemma EveryInputIsAnswered<E>(b: Backoff, url: string, inputs: seq<Input<E>>)
    requires Feasible(NewWatch<E>(FRESH), b, url, inputs)
    ensures var t := Run(NewWatch<E>(FRESH), b, url, inputs).trace;
            |t| == Answered(inputs) && forall i | 0 <= i < |t| :: Answers(inputs[i], url, t[i])
  {
    RunAddsTail(NewWatch<E>(FRESH), b, url, inputs);
    TailAnswers<E>(FRESH, b, url, inputs);
    assert [] + Tail<E>(FRESH, b, url, inputs) == Tail<E>(FRESH, b, url, inputs);
  }

  /** The events of a trace that are not about dialling. */
  function ReadEvents<E>(t: seq<WatchEvent<E>>): seq<WatchEvent<E>> {
    if t == [] then []
    else (if t[0].Connected? || t[0].Reconnecting? then [] else [t[0]]) + ReadEvents(t[1..])
  }

  /** What was read from the connections, as the consumer knows it. */
  function ReadInputs<E>(inputs: seq<Input<E>>): seq<WatchEvent<E>> {
    if inputs == [] then []
    else
      (match inputs[0]
       case Read(Event(e)) => [WatchEvent.Event(e)]
       case Read(Lagged(n)) => [WatchEvent.Lagged(n)]
       case Read(Closed(reason)) => [Disconnected(reason)]
       case _ => [])
      + ReadInputs(inputs[1..])
  }

  lemma {:induction false} AnswersAreReads<E>(t: seq<WatchEvent<E>>, url: string, inputs: seq<Input<E>>)
    requires |t| == Answered(inputs) && forall i | 0 <= i < |t| :: Answers(inputs[i], url, t[i])
    ensures ReadEvents(t) == ReadInputs(inputs)
    decreases |inputs|
  {
    if t != [] {
      assert Answers(inputs[0], url, t[0]);
      AnswersAreReads(t[1..], url, inputs[1..]);
    } else if inputs != [] {
      assert inputs[1..] == [] && inputs[0].Cancel?;
    }
  }

  /** In every run the consumer gets exactly what the connections delivered, in order. */
  lemma ConsumerGetsEverythingRead<E>(b: Backoff, url: string, inputs: seq<Input<E>>)
    requires Feasible(NewWatch<E>(FRESH), b, url, inputs)
    ensures ReadEvents(Run(NewWatch<E>(FRESH), b, url, inputs).trace) == ReadInputs(inputs)
  {
    EveryInputIsAnswered(b, url, inputs);
    AnswersAreReads(Run(NewWatch<E>(FRESH), b, url, inputs).trace, url, inputs);
  }
}
