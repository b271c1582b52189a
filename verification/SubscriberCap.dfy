/**
 The lock-free subscriber cap: `try_acquire` as its separate atomic steps, run by
 any number of callers in any interleaving.
 */
module SubscriberCap {

  /** The counter is a 64-bit `usize` and wraps. */
  const USIZE: nat := 0x1_0000_0000_0000_0000

  /** The shared counter, the callers between their add and their compensating
      subtract, and the callers that hold a live guard. */
  datatype CapState = CapState(active: nat, rejecting: set<nat>, holding: set<nat>)

  const IDLE := CapState(0, {}, {})

  datatype CapStep =
    | Add(caller: nat)      // fetch_add, and the comparison with its result
    | Subtract(caller: nat) // the over-cap caller's fetch_sub
    | Drop(caller: nat)     // a guard is dropped

  predicate Enabled(s: CapState, step: CapStep) {
    match step
    case Add(c) => c !in s.rejecting && c !in s.holding
    case Subtract(c) => c in s.rejecting
    case Drop(c) => c in s.holding
  }

  function Wrap(n: int): nat {
    n % USIZE
  }

  function Perform(s: CapState, maxSubscribers: nat, step: CapStep): CapState {
    match step
    case Add(c) =>
      if s.active >= maxSubscribers then CapState(Wrap(s.active + 1), s.rejecting + {c}, s.holding)
      else CapState(Wrap(s.active + 1), s.rejecting, s.holding + {c})
    case Subtract(c) => CapState(Wrap(s.active - 1), s.rejecting - {c}, s.holding)
    case Drop(c) => CapState(Wrap(s.active - 1), s.rejecting, s.holding - {c})
  }

  class SseState {
    const maxSubscribers: nat
    var active: nat
    var rejecting: set<nat>
    var holding: set<nat>

    constructor (maxSubscribers: nat)
      ensures this.maxSubscribers == maxSubscribers && State() == IDLE
    {
      this.maxSubscribers := maxSubscribers;
      active, rejecting, holding := 0, {}, {};
    }

    function State(): CapState
      reads this
    {
      CapState(active, rejecting, holding)
    }

    /** The first step of `try_acquire`. */
    method FetchAdd(caller: nat) returns (granted: bool)
      requires Enabled(State(), Add(caller))
      modifies this
      ensures State() == Perform(old(State()), maxSubscribers, Add(caller))
      ensures granted <==> caller in holding
    {
      var prev := active;
      active := (active + 1) % USIZE;
      granted := prev < maxSubscribers;
      if granted {
        holding := holding + {caller};
      } else {
        rejecting := rejecting + {caller};
      }
    }

    /** The second step of a rejected `try_acquire`. */
    method FetchSub(caller: nat)
      requires Enabled(State(), Subtract(caller))
      modifies this
      ensures State() == Perform(old(State()), maxSubscribers, Subtract(caller))
    {
      active := (active - 1) % USIZE;
      rejecting := rejecting - {caller};
    }

    method DropGuard(caller: nat)
      requires Enabled(State(), Drop(caller))
      modifies this
      ensures State() == Perform(old(State()), maxSubscribers, Drop(caller))
    {
      active := (active - 1) % USIZE;
      holding := holding - {caller};
    }

    /** `try_acquire` with nobody else running in between. */
    method TryAcquire(caller: nat) returns (granted: bool)
      requires Enabled(State(), Add(caller)) && Counted(State())
      modifies this
      ensures Counted(State())
      ensures granted <==> (|old(holding)| + |old(rejecting)|) % 0x1_0000_0000_0000_0000 < maxSubscribers
      ensures holding == old(holding) + if granted then {caller} else {}
      ensures rejecting == old(rejecting) && active == Wrap(old(active) + if granted then 1 else 0)
    {
      StepCounts(State(), maxSubscribers, Add(caller));
      WrappedBack(active);
      granted := FetchAdd(caller);
      if !granted {
        StepCounts(State(), maxSubscribers, Subtract(caller));
        FetchSub(caller);
      }
    }
  }

  /** The counter counts, modulo its width, the live guards and the callers between
      their two steps. */
  predicate Counted(s: CapState) {
    && s.rejecting !! s.holding
    && s.active == (|s.rejecting| + |s.holding|) % 0x1_0000_0000_0000_0000
  }

  lemma WrappedBack(n: nat)
    requires n < USIZE
    ensures Wrap(Wrap(n + 1) - 1) == n && Wrap(n) == n
  {
  }

  lemma WrapIs(n: int, q: int, r: nat)
    requires r < USIZE && n == USIZE * q + r
    ensures Wrap(n) == r
  {
  }

  lemma WrapUp(n: nat)
    ensures Wrap(Wrap(n) + 1) == Wrap(n + 1)
  {
    var q, r := n / USIZE, n % USIZE;
    if r + 1 < USIZE {
      WrapIs(n + 1, q, r + 1);
      WrapIs(r + 1, 0, r + 1);
    } else {
      WrapIs(n + 1, q + 1, 0);
      WrapIs(r + 1, 1, 0);
    }
  }

  lemma WrapDown(n: nat)
    ensures Wrap(Wrap(n) - 1) == Wrap(n - 1)
  {
    var q, r := n / USIZE, n % USIZE;
    if r > 0 {
      WrapIs(n - 1, q, r - 1);
      WrapIs(r - 1, 0, r - 1);
    } else {
      WrapIs(n - 1, q - 1, USIZE - 1);
      WrapIs(r - 1, -1, USIZE - 1);
    }
  }

  lemma WithoutOne(s: set<nat>, c: nat)
    requires c in s
    ensures |s - {c}| == |s| - 1
  {
    assert s == s - {c} + {c};
  }

  /** The callers that are counted: one more after an add, one fewer after the others. */
  lemma StepSizes(s: CapState, maxSubscribers: nat, step: CapStep)
    requires s.rejecting !! s.holding && Enabled(s, step)
    ensures var s' := Perform(s, maxSubscribers, step);
            && s'.rejecting !! s'.holding
            && |s'.rejecting| + |s'.holding| == |s.rejecting| + |s.holding| + if step.Add? then 1 else -1
  {
    match step {
      case Add(c) =>
        assert |s.rejecting + {c}| == |s.rejecting| + 1;
        assert |s.holding + {c}| == |s.holding| + 1;
      case Subtract(c) => WithoutOne(s.rejecting, c);
      case Drop(c) => WithoutOne(s.holding, c);
    }
  }

  lemma StepWraps(s: CapState, maxSubscribers: nat, step: CapStep, n: nat)
    requires s.active == Wrap(n)
    ensures Perform(s, maxSubscribers, step).active == Wrap(if step.Add? then n + 1 else n - 1)
  {
    if step.Add? {
      WrapUp(n);
    } else {
      WrapDown(n);
    }
  }

  /** Every step keeps the count, whatever the number of callers. */
  lemma StepCounts(s: CapState, maxSubscribers: nat, step: CapStep)
    requires Counted(s) && Enabled(s, step)
    ensures Counted(Perform(s, maxSubscribers, step))
  {
    StepSizes(s, maxSubscribers, step);
    StepWraps(s, maxSubscribers, step, |s.rejecting| + |s.holding|);
  }

  // ---------------------------------------------------------------------------
  // Interleavings
  // ---------------------------------------------------------------------------

  /** A run of callers drawn from `population`, each step allowed when it happens. */
  predicate Interleaving(s: CapState, maxSubscribers: nat, steps: seq<CapStep>, population: set<nat>)
    decreases |steps|
  {
    steps == [] ||
    (&& Enabled(s, steps[0])
     && steps[0].caller in population
     && Interleaving(Perform(s, maxSubscribers, steps[0]), maxSubscribers, steps[1..], population))
  }

  function Run(s: CapState, maxSubscribers: nat, steps: seq<CapStep>): CapState
    decreases |steps|
  {
    if steps == [] then s else Run(Perform(s, maxSubscribers, steps[0]), maxSubscribers, steps[1..])
  }

  lemma {:induction false} SubsetIsSmaller(a: set<nat>, b: set<nat>)
    requires a <= b
    ensures |a| <= |b|
    decreases a
  {
    if x :| x in a {
      SubsetIsSmaller(a - {x}, b - {x});
    }
  }

  /** A caller of the population that is about to add leaves room for itself. */
  lemma RoomForOne(s: CapState, population: set<nat>, c: nat)
    requires s.rejecting !! s.holding && s.rejecting + s.holding <= population
    requires c in population && c !in s.rejecting && c !in s.holding
    ensures |s.rejecting| + |s.holding| + 1 <= |population|
  {
    assert |s.rejecting + s.holding| == |s.rejecting| + |s.holding|;
    assert |s.rejecting + s.holding + {c}| == |s.rejecting| + |s.holding| + 1;
    SubsetIsSmaller(s.rejecting + s.holding + {c}, population);
  }

  /** With at most 2^64 callers no step takes the live guards above the cap. */
  lemma StepKeepsCap(s: CapState, maxSubscribers: nat, step: CapStep, population: set<nat>)
    requires Counted(s) && Enabled(s, step) && step.caller in population
    requires s.rejecting + s.holding <= population && |population| <= 0x1_0000_0000_0000_0000
    requires |s.holding| <= maxSubscribers
    ensures |Perform(s, maxSubscribers, step).holding| <= maxSubscribers
  {
    match step {
      case Add(c) =>
        RoomForOne(s, population, c);
        assert s.active == |s.rejecting| + |s.holding|;
      case Subtract(_) =>
      case Drop(c) => WithoutOne(s.holding, c);
    }
  }

  /** In every interleaving the counter is exact modulo its width, and with at most
      2^64 callers the cap holds, even while the counter itself stands above it. */
  lemma {:induction false} CapHolds(s: CapState, maxSubscribers: nat, steps: seq<CapStep>, population: set<nat>)
    requires Counted(s) && s.rejecting + s.holding <= population
    requires Interleaving(s, maxSubscribers, steps, population)
    ensures Counted(Run(s, maxSubscribers, steps))
    ensures |population| <= 0x1_0000_0000_0000_0000 && |s.holding| <= maxSubscribers
            ==> |Run(s, maxSubscribers, steps).holding| <= maxSubscribers
    decreases |steps|
  {
    if steps != [] {
      var s' := Perform(s, maxSubscribers, steps[0]);
      StepCounts(s, maxSubscribers, steps[0]);
      if |population| <= 0x1_0000_0000_0000_0000 && |s.holding| <= maxSubscribers {
        StepKeepsCap(s, maxSubscribers, steps[0], population);
      }
      assert s'.rejecting + s'.holding <= population;
      CapHolds(s', maxSubscribers, steps[1..], population);
    }
  }

  // ---------------------------------------------------------------------------
  // What the counter itself may do
  // ---------------------------------------------------------------------------

  function Members(p: seq<nat>): set<nat> {
    set c | c in p
  }

  predicate Distinct(p: seq<nat>) {
    forall i, j :: 0 <= i < j < |p| ==> p[i] != p[j]
  }

  function Adds(p: seq<nat>): seq<CapStep> {
    if p == [] then [] else Adds(p[..|p| - 1]) + [Add(p[|p| - 1])]
  }

  /** The state after all of `p` have added and none has subtracted. */
  function Crowd(maxSubscribers: nat, p: seq<nat>): CapState {
    if |p| <= maxSubscribers then CapState(Wrap(|p|), {}, Members(p))
    else CapState(Wrap(|p|), Members(p[maxSubscribers..]), Members(p[..maxSubscribers]))
  }

  lemma {:induction false} RunOfSnoc(s: CapState, maxSubscribers: nat, steps: seq<CapStep>, step: CapStep,
                                     population: set<nat>)
    ensures Run(s, maxSubscribers, steps + [step]) == Perform(Run(s, maxSubscribers, steps), maxSubscribers, step)
    ensures Interleaving(s, maxSubscribers, steps + [step], population)
            <==> Interleaving(s, maxSubscribers, steps, population)
                 && Enabled(Run(s, maxSubscribers, steps), step) && step.caller in population
    decreases |steps|
  {
    if steps == [] {
      assert [] + [step] == [step] && [step][1..] == [];
    } else {
      assert (steps + [step])[1..] == steps[1..] + [step];
      RunOfSnoc(Perform(s, maxSubscribers, steps[0]), maxSubscribers, steps[1..], step, population);
    }
  }

  lemma MembersSnoc(p: seq<nat>, c: nat)
    ensures Members(p + [c]) == Members(p) + {c}
  {
  }

  lemma CrowdGrows(maxSubscribers: nat, p: seq<nat>, c: nat)
    requires maxSubscribers < USIZE && |p| < USIZE && c !in p
    ensures Enabled(Crowd(maxSubscribers, p), Add(c))
    ensures Perform(Crowd(maxSubscribers, p), maxSubscribers, Add(c)) == Crowd(maxSubscribers, p + [c])
  {
    WrappedBack(|p|);
    if |p| < maxSubscribers {
      MembersSnoc(p, c);
    } else {
      assert p[..maxSubscribers] + p[maxSubscribers..] == p;
      assert (p + [c])[maxSubscribers..] == p[maxSubscribers..] + [c];
      assert (p + [c])[..maxSubscribers] == p[..maxSubscribers];
      MembersSnoc(p[maxSubscribers..], c);
    }
  }

  lemma OneMoreAdds(maxSubscribers: nat, p: seq<nat>, c: nat, population: set<nat>)
    requires maxSubscribers < USIZE && |p| < USIZE && c !in p && c in population
    requires Run(IDLE, maxSubscribers, Adds(p)) == Crowd(maxSubscribers, p)
    requires Interleaving(IDLE, maxSubscribers, Adds(p), population)
    ensures Run(IDLE, maxSubscribers, Adds(p + [c])) == Crowd(maxSubscribers, p + [c])
    ensures Interleaving(IDLE, maxSubscribers, Adds(p + [c]), population)
  {
    CrowdGrows(maxSubscribers, p, c);
    RunOfSnoc(IDLE, maxSubscribers, Adds(p), Add(c), population);
    assert (p + [c])[..|p|] == p;
  }

  lemma {:induction false} AddsMakeCrowd(maxSubscribers: nat, p: seq<nat>, population: set<nat>)
    requires maxSubscribers < USIZE && |p| <= USIZE && Distinct(p)
    requires forall c :: c in p ==> c in population
    ensures Run(IDLE, maxSubscribers, Adds(p)) == Crowd(maxSubscribers, p)
    ensures Interleaving(IDLE, maxSubscribers, Adds(p), population)
    decreases |p|
  {
    if p == [] {
      WrapIs(0, 0, 0);
    } else {
      var front, c := p[..|p| - 1], p[|p| - 1];
      AddsMakeCrowd(maxSubscribers, front, population);
      OneMoreAdds(maxSubscribers, front, c, population);
      assert p == front + [c];
    }
  }

  /** The overshoot of the counter is not limited to one or two: any callers that add
      before any of them subtracts drive it to their number, while exactly the first
      `maxSubscribers` of them hold guards. */
  lemma CounterOvershoots(maxSubscribers: nat, p: seq<nat>, population: set<nat>)
    requires maxSubscribers < 0x1_0000_0000_0000_0000 && |p| < 0x1_0000_0000_0000_0000 && Distinct(p)
    requires forall c :: c in p ==> c in population
    ensures Interleaving(IDLE, maxSubscribers, Adds(p), population)
    ensures var end := Run(IDLE, maxSubscribers, Adds(p));
            end.active == |p| && end.holding == Members(if |p| < maxSubscribers then p else p[..maxSubscribers])
  {
    AddsMakeCrowd(maxSubscribers, p, population);
    WrapIs(|p|, 0, |p|);
    if |p| == maxSubscribers {
      assert p[..maxSubscribers] == p;
    }
  }

  lemma {:induction false} Listed(population: set<nat>) returns (p: seq<nat>)
    ensures Distinct(p) && Members(p) == population && |p| == |population|
    decreases population
  {
    p := [];
    if c :| c in population {
      var rest := Listed(population - {c});
      p := rest + [c];
      MembersSnoc(rest, c);
    }
  }

  lemma {:induction false} DistinctCount(p: seq<nat>)
    requires Distinct(p)
    ensures |Members(p)| == |p|
  {
    if p != [] {
      var front, c := p[..|p| - 1], p[|p| - 1];
      assert p == front + [c];
      DistinctCount(front);
      MembersSnoc(front, c);
    }
  }

  lemma FullCrowdLetsIn(maxSubscribers: nat, p: seq<nat>, c: nat)
    requires 0 < maxSubscribers < |p| == USIZE && Distinct(p) && c !in p
    ensures var full := Crowd(maxSubscribers, p);
            Enabled(full, Add(c)) && |Perform(full, maxSubscribers, Add(c)).holding| == maxSubscribers + 1
  {
    var front := p[..maxSubscribers];
    DistinctCount(front);
    assert front + p[maxSubscribers..] == p;
    assert |Members(front) + {c}| == maxSubscribers + 1;
  }

  /** One caller more than the counter can count: after 2^64 callers it reads zero
      again and the next one is let in above the cap. */
  lemma WrappedCounterLetsIn(maxSubscribers: nat, p: seq<nat>, c: nat, population: set<nat>)
    requires 0 < maxSubscribers < |p| == USIZE && Distinct(p) && c !in p
    requires c in population && forall d :: d in p ==> d in population
    ensures Interleaving(IDLE, maxSubscribers, Adds(p) + [Add(c)], population)
    ensures |Run(IDLE, maxSubscribers, Adds(p) + [Add(c)]).holding| == maxSubscribers + 1
  {
    AddsMakeCrowd(maxSubscribers, p, population);
    FullCrowdLetsIn(maxSubscribers, p, c);
    RunOfSnoc(IDLE, maxSubscribers, Adds(p), Add(c), population);
  }

  lemma {:induction false} NothingBelowZero(s: CapState, steps: seq<CapStep>, population: set<nat>)
    requires s.holding == {} && Interleaving(s, 0, steps, population)
    ensures Run(s, 0, steps).holding == {}
    decreases |steps|
  {
    if steps != [] {
      NothingBelowZero(Perform(s, 0, steps[0]), steps[1..], population);
    }
  }

  /** How many callers the cap withstands: every interleaving of a population keeps the
      live guards within the cap exactly if the counter can count all of them. */
  lemma CapHoldsExactlyWhen(maxSubscribers: nat, population: set<nat>)
    requires maxSubscribers < 0x1_0000_0000_0000_0000
    ensures (forall steps :: Interleaving(IDLE, maxSubscribers, steps, population)
                             ==> |Run(IDLE, maxSubscribers, steps).holding| <= maxSubscribers)
            <==> maxSubscribers == 0 || |population| <= 0x1_0000_0000_0000_0000
  {
    if maxSubscribers == 0 || |population| <= 0x1_0000_0000_0000_0000 {
      forall steps | Interleaving(IDLE, maxSubscribers, steps, population)
        ensures |Run(IDLE, maxSubscribers, steps).holding| <= maxSubscribers
      {
        CapHolds(IDLE, maxSubscribers, steps, population);
        if maxSubscribers == 0 {
          NothingBelowZero(IDLE, steps, population);
        }
      }
    } else {
      var p := Listed(population);
      var n := USIZE;
      assert forall d :: d in p ==> d in Members(p);
      WrappedCounterLetsIn(maxSubscribers, p[..n], p[n], population);
    }
  }

  /** A caller can be turned away although no guard is live: another rejected
      caller has not yet subtracted. */
  lemma RejectedWithoutGuards()
    ensures var steps := [Add(0), Add(1), Drop(0), Add(2)];
            var end := Run(IDLE, 1, steps);
            Interleaving(IDLE, 1, steps, {0, 1, 2}) && end.holding == {} && 2 in end.rejecting
  {
    var steps := [Add(0), Add(1), Drop(0), Add(2)];
    var s1 := CapState(1, {}, {0});
    var s2 := CapState(2, {1}, {0});
    var s3 := CapState(1, {1}, {});
    assert Perform(IDLE, 1, Add(0)) == s1 && Perform(s1, 1, Add(1)) == s2 && Perform(s2, 1, Drop(0)) == s3;
    assert steps[1..] == [Add(1), Drop(0), Add(2)];
    assert steps[1..][1..] == [Drop(0), Add(2)];
    assert steps[1..][1..][1..] == [Add(2)];
    assert steps[1..][1..][1..][1..] == [];
    var s4 := Perform(s3, 1, Add(2));
    assert Run(s3, 1, [Add(2)]) == Run(s4, 1, []) == s4;
    assert Run(s2, 1, [Drop(0), Add(2)]) == s4;
    assert Run(s1, 1, [Add(1), Drop(0), Add(2)]) == s4;
    assert Interleaving(s3, 1, [Add(2)], {0, 1, 2});
    assert Interleaving(s2, 1, [Drop(0), Add(2)], {0, 1, 2});
    assert Interleaving(s1, 1, [Add(1), Drop(0), Add(2)], {0, 1, 2});
  }
}
