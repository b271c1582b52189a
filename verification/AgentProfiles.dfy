/**
 Resolving a role's agent profile into a runner: backend profiles give one runner,
 composite profiles give a tandem of two resolved references.
 */
module AgentProfiles {
  import opened Prelude

  datatype Backend = Codex | Claude | Mock

  datatype TandemMode = DraftReview | SplitImplement | Consensus

  datatype TandemStrategy = DraftsAndReviews | SplitsWork | SeeksConsensus

  datatype BackendSettings = BackendSettings(backend: Backend, argv: seq<string>)

  datatype Profile =
    | Concrete(settings: BackendSettings)
    | Composite(lead: string, follower: string, mode: TandemMode)

  datatype Runner =
    | CodexRunner(role: string, settings: BackendSettings)
    | ClaudeRunner(role: string, settings: BackendSettings)
    | MockRunner
    | TandemRunner(lead: Runner, follower: Runner, strategy: TandemStrategy)

  datatype Metadata = Metadata(role: string, profile: string, settings: BackendSettings)

  datatype BuildError = RoleMissing(role: string) | RoleWithoutAgent(role: string) | ProfileMissing(profile: string)

  type Agents = map<string, Profile>

  function StrategyOf(mode: TandemMode): TandemStrategy {
    match mode
    case DraftReview => DraftsAndReviews
    case SplitImplement => SplitsWork
    case Consensus => SeeksConsensus
  }

  function BackendRunner(role: string, settings: BackendSettings): Runner {
    match settings.backend
    case Codex => CodexRunner(role, settings)
    case Claude => ClaudeRunner(role, settings)
    case Mock => MockRunner
  }

  /** `build_agent_runner_for_profile` with at most `depth` calls open at a time; `None`
      when that is not enough. */
  function Build(agents: Agents, role: string, name: string, depth: nat)
    : Option<Result<(Runner, Metadata), BuildError>>
    decreases depth
  {
    if depth == 0 then None
    else if name !in agents then Some(Err(ProfileMissing(name)))
    else match agents[name]
      case Concrete(settings) => Some(Ok((BackendRunner(role, settings), Metadata(role, name, settings))))
      case Composite(lead, follower, mode) =>
        match Build(agents, role, lead, depth - 1)
        case None => None
        case Some(Err(e)) => Some(Err(e))
        case Some(Ok((leadRunner, leadMeta))) =>
          match Build(agents, role, follower, depth - 1)
          case None => None
          case Some(Err(e)) => Some(Err(e))
          case Some(Ok((followerRunner, _))) =>
            Some(Ok((TandemRunner(leadRunner, followerRunner, StrategyOf(mode)), leadMeta)))
  }

  /** A role names its agent profile, if it has one. */
  function BuildForRole(roles: map<string, Option<string>>, agents: Agents, role: string, depth: nat)
    : Option<Result<(Runner, Metadata), BuildError>>
  {
    if role !in roles then Some(Err(RoleMissing(role)))
    else if roles[role].None? then Some(Err(RoleWithoutAgent(role)))
    else Build(agents, role, roles[role].value, depth)
  }

  /** The recursion ends: some depth suffices. */
  ghost predicate Ends(agents: Agents, role: string, name: string) {
    exists depth: nat :: Build(agents, role, name, depth).Some?
  }

  /** A greater depth never changes a result. */
  lemma {:induction false} DepthIsIrrelevant(agents: Agents, role: string, name: string, d: nat, e: nat)
    requires d <= e && Build(agents, role, name, d).Some?
    ensures Build(agents, role, name, e) == Build(agents, role, name, d)
    decreases d
  {
    if name in agents && agents[name].Composite? {
      DepthIsIrrelevant(agents, role, agents[name].lead, d - 1, e - 1);
      if Build(agents, role, agents[name].lead, d - 1).value.Ok? {
        DepthIsIrrelevant(agents, role, agents[name].follower, d - 1, e - 1);
      }
    }
  }

  // ---------------------------------------------------------------------------
  // The reference graph
  // ---------------------------------------------------------------------------

  datatype Seat = Lead | Follower

  type Path = seq<Seat>

  function Target(p: Profile, seat: Seat): string
    requires p.Composite?
  {
    if seat == Lead then p.lead else p.follower
  }

  /** The profile a path of references leads to. */
  function NameAt(agents: Agents, name: string, path: Path): Option<string>
    decreases |path|
  {
    if path == [] then Some(name)
    else if name in agents && agents[name].Composite? then NameAt(agents, Target(agents[name], path[0]), path[1..])
    else None
  }

  /** The runner a path of seats leads to. */
  function RunnerAt(r: Runner, path: Path): Option<Runner>
    decreases |path|
  {
    if path == [] then Some(r)
    else if r.TandemRunner? then RunnerAt(if path[0] == Lead then r.lead else r.follower, path[1..])
    else None
  }

  ghost predicate AllReachableConfigured(agents: Agents, name: string) {
    forall path :: NameAt(agents, name, path).Some? ==> NameAt(agents, name, path).value in agents
  }

  /** A lead seat comes before a follower seat at the first place two paths part. */
  predicate Before(p: Path, q: Path)
    decreases |p|
  {
    p != [] && q != [] && (if p[0] == q[0] then Before(p[1..], q[1..]) else p[0] == Lead)
  }

  /** `path` leads to a profile that is missing, and no path before it does. */
  ghost predicate FirstMissing(agents: Agents, name: string, path: Path, missing: string) {
    NameAt(agents, name, path) == Some(missing) && missing !in agents
    && forall p | Before(p, path) && NameAt(agents, name, p).Some? :: NameAt(agents, name, p).value in agents
  }

  lemma StepPath(agents: Agents, name: string, seat: Seat, path: Path)
    requires name in agents && agents[name].Composite?
    ensures NameAt(agents, name, [seat] + path) == NameAt(agents, Target(agents[name], seat), path)
  {
    assert ([seat] + path)[1..] == path;
  }

  lemma ConfiguredThrough(agents: Agents, name: string, seat: Seat)
    requires name in agents && agents[name].Composite? && AllReachableConfigured(agents, name)
    ensures AllReachableConfigured(agents, Target(agents[name], seat))
  {
    forall path | NameAt(agents, Target(agents[name], seat), path).Some?
      ensures NameAt(agents, Target(agents[name], seat), path).value in agents
    {
      StepPath(agents, name, seat, path);
      assert NameAt(agents, name, [seat] + path).Some?;
    }
  }

  lemma ConfiguredBySeats(agents: Agents, name: string)
    requires name in agents && agents[name].Composite?
    ensures AllReachableConfigured(agents, name)
            <==> AllReachableConfigured(agents, agents[name].lead)
                 && AllReachableConfigured(agents, agents[name].follower)
  {
    if AllReachableConfigured(agents, name) {
      ConfiguredThrough(agents, name, Lead);
      ConfiguredThrough(agents, name, Follower);
    } else {
      var path :| NameAt(agents, name, path).Some? && NameAt(agents, name, path).value !in agents;
      assert NameAt(agents, Target(agents[name], path[0]), path[1..]) == NameAt(agents, name, path);
    }
  }

  /** Where the recursion ends, it succeeds exactly if every reachable profile is configured. */
  lemma {:induction false} BuildsExactlyWhen(agents: Agents, role: string, name: string, depth: nat)
    requires Build(agents, role, name, depth).Some?
    ensures Build(agents, role, name, depth).value.Ok? <==> AllReachableConfigured(agents, name)
    decreases depth
  {
    if name !in agents {
      assert NameAt(agents, name, []).Some?;
    } else if agents[name].Composite? {
      BuildsExactlyWhen(agents, role, agents[name].lead, depth - 1);
      if Build(agents, role, agents[name].lead, depth - 1).value.Ok? {
        BuildsExactlyWhen(agents, role, agents[name].follower, depth - 1);
      }
      ConfiguredBySeats(agents, name);
    } else {
      ConcreteIsConfigured(agents, name);
    }
  }

  lemma ConcreteIsConfigured(agents: Agents, name: string)
    requires name in agents && agents[name].Concrete?
    ensures AllReachableConfigured(agents, name)
  {
  }

  lemma FirstThroughLead(agents: Agents, name: string, path: Path, missing: string)
    requires name in agents && agents[name].Composite?
    requires FirstMissing(agents, agents[name].lead, path, missing)
    ensures FirstMissing(agents, name, [Lead] + path, missing)
  {
    StepPath(agents, name, Lead, path);
    forall p | Before(p, [Lead] + path) && NameAt(agents, name, p).Some?
      ensures NameAt(agents, name, p).value in agents
    {
      assert ([Lead] + path)[1..] == path;
      assert p[0] == Lead && Before(p[1..], path);
    }
  }

  lemma FirstThroughFollower(agents: Agents, name: string, path: Path, missing: string)
    requires name in agents && agents[name].Composite? && AllReachableConfigured(agents, agents[name].lead)
    requires FirstMissing(agents, agents[name].follower, path, missing)
    ensures FirstMissing(agents, name, [Follower] + path, missing)
  {
    StepPath(agents, name, Follower, path);
    forall p | Before(p, [Follower] + path) && NameAt(agents, name, p).Some?
      ensures NameAt(agents, name, p).value in agents
    {
      assert ([Follower] + path)[1..] == path;
      if p[0] == Lead {
        assert NameAt(agents, agents[name].lead, p[1..]).Some?;
      } else {
        assert Before(p[1..], path);
      }
    }
  }

  /** A failed resolution names the first missing profile, leads before followers. */
  lemma {:induction false} ErrorNamesFirstMissing(agents: Agents, role: string, name: string, depth: nat)
    returns (path: Path)
    requires Build(agents, role, name, depth).Some? && Build(agents, role, name, depth).value.Err?
    ensures Build(agents, role, name, depth).value.error.ProfileMissing?
    ensures FirstMissing(agents, name, path, Build(agents, role, name, depth).value.error.profile)
    decreases depth
  {
    if name !in agents {
      path := [];
    } else {
      var lead, follower := agents[name].lead, agents[name].follower;
      if Build(agents, role, lead, depth - 1).value.Err? {
        path := ErrorNamesFirstMissing(agents, role, lead, depth - 1);
        FirstThroughLead(agents, name, path, Build(agents, role, name, depth).value.error.profile);
        path := [Lead] + path;
      } else {
        BuildsExactlyWhen(agents, role, lead, depth - 1);
        path := ErrorNamesFirstMissing(agents, role, follower, depth - 1);
        FirstThroughFollower(agents, name, path, Build(agents, role, name, depth).value.error.profile);
        path := [Follower] + path;
      }
    }
  }

  // ---------------------------------------------------------------------------
  // The runner tree
  // ---------------------------------------------------------------------------

  /** What the profile `name` says the runner at its place must be. */
  predicate Fits(agents: Agents, role: string, name: string, r: Runner) {
    name in agents
    && match agents[name]
       case Concrete(settings) =>
         (settings.backend == Codex ==> r == CodexRunner(role, settings))
         && (settings.backend == Claude ==> r == ClaudeRunner(role, settings))
         && (settings.backend == Mock ==> r == MockRunner)
       case Composite(_, _, mode) =>
         r.TandemRunner?
         && (mode == DraftReview ==> r.strategy == DraftsAndReviews)
         && (mode == SplitImplement ==> r.strategy == SplitsWork)
         && (mode == Consensus ==> r.strategy == SeeksConsensus)
  }

  /** At every path the tree has a runner exactly where the references have a profile,
      and that runner is the one the profile asks for. */
  lemma {:induction false} TreeUnfoldsReferences(agents: Agents, role: string, name: string, depth: nat, path: Path)
    requires Build(agents, role, name, depth).Some? && Build(agents, role, name, depth).value.Ok?
    ensures var at := RunnerAt(Build(agents, role, name, depth).value.value.0, path);
            at.Some? == NameAt(agents, name, path).Some?
            && (at.Some? ==> Fits(agents, role, NameAt(agents, name, path).value, at.value))
    decreases |path|
  {
    if path != [] && agents[name].Composite? {
      TreeUnfoldsReferences(agents, role, Target(agents[name], path[0]), depth - 1, path[1..]);
    }
  }

  function Leads(k: nat): Path {
    seq(k, _ => Lead)
  }

  /** The metadata is that of the backend profile at the end of the chain of leads. */
  lemma {:induction false} MetadataOfLeadChain(agents: Agents, role: string, name: string, depth: nat) returns (k: nat)
    requires Build(agents, role, name, depth).Some? && Build(agents, role, name, depth).value.Ok?
    ensures var meta := Build(agents, role, name, depth).value.value.1;
            meta.role == role && NameAt(agents, name, Leads(k)) == Some(meta.profile)
            && meta.profile in agents && agents[meta.profile] == Concrete(meta.settings)
    decreases depth
  {
    if agents[name].Concrete? {
      k := 0;
    } else {
      var rest := MetadataOfLeadChain(agents, role, agents[name].lead, depth - 1);
      k := rest + 1;
      assert Leads(k)[1..] == Leads(rest);
    }
  }

  // ---------------------------------------------------------------------------
  // When the recursion ends
  // ---------------------------------------------------------------------------

  lemma {:induction false} PathThenPath(agents: Agents, name: string, q: Path, r: Path)
    ensures NameAt(agents, name, q + r)
            == if NameAt(agents, name, q).Some? then NameAt(agents, NameAt(agents, name, q).value, r) else None
    decreases |q|
  {
    if q == [] {
      assert q + r == r;
    } else {
      assert (q + r)[0] == q[0] && (q + r)[1..] == q[1..] + r;
      if name in agents && agents[name].Composite? {
        PathThenPath(agents, Target(agents[name], q[0]), q[1..], r);
      }
    }
  }

  lemma {:induction false} BeforeExtends(p: Path, q: Path, r: Path)
    requires Before(p, q)
    ensures Before(p, q + r)
    decreases |p|
  {
    assert (q + r)[0] == q[0] && (q + r)[1..] == q[1..] + r;
    if p[0] == q[0] {
      BeforeExtends(p[1..], q[1..], r);
    }
  }

  lemma {:induction false} BeforeBehind(q: Path, p: Path, r: Path)
    requires Before(p, r)
    ensures Before(q + p, q + r)
    decreases |q|
  {
    if q == [] {
      assert q + p == p && q + r == r;
    } else {
      assert (q + p)[1..] == q[1..] + p && (q + r)[1..] == q[1..] + r;
      BeforeBehind(q[1..], p, r);
    }
  }

  /** Every path that is tried before `path` leads to a configured profile. */
  ghost predicate ClearUpTo(agents: Agents, name: string, path: Path) {
    forall p | Before(p, path) && NameAt(agents, name, p).Some? :: NameAt(agents, name, p).value in agents
  }

  /** Resolution comes to `q`, and by way of `r` to the same profile again, before it
      comes to any missing one. */
  ghost predicate ComesBack(agents: Agents, name: string, q: Path, r: Path) {
    r != [] && NameAt(agents, name, q).Some? && NameAt(agents, name, q + r) == NameAt(agents, name, q)
    && ClearUpTo(agents, name, q + r)
  }

  lemma ClearThroughSeat(agents: Agents, name: string, path: Path)
    requires path != [] && name in agents && agents[name].Composite? && ClearUpTo(agents, name, path)
    ensures ClearUpTo(agents, Target(agents[name], path[0]), path[1..])
    ensures path[0] == Follower ==> AllReachableConfigured(agents, agents[name].lead)
  {
    var seat := path[0];
    forall p | Before(p, path[1..]) && NameAt(agents, Target(agents[name], seat), p).Some?
      ensures NameAt(agents, Target(agents[name], seat), p).value in agents
    {
      StepPath(agents, name, seat, p);
      assert ([seat] + p)[1..] == p;
      assert Before([seat] + p, path);
    }
    if seat == Follower {
      forall p | NameAt(agents, agents[name].lead, p).Some?
        ensures NameAt(agents, agents[name].lead, p).value in agents
      {
        StepPath(agents, name, Lead, p);
        assert Before([Lead] + p, path);
      }
    }
  }

  /** A resolution that ends has also ended for every profile it must come to. */
  lemma {:induction false} ReachesPath(agents: Agents, role: string, name: string, depth: nat, path: Path)
    requires Build(agents, role, name, depth).Some?
    requires NameAt(agents, name, path).Some? && ClearUpTo(agents, name, path)
    ensures depth > |path| && Build(agents, role, NameAt(agents, name, path).value, depth - |path|).Some?
    decreases |path|
  {
    if path != [] {
      var lead := agents[name].lead;
      ClearThroughSeat(agents, name, path);
      if path[0] == Follower {
        BuildsExactlyWhen(agents, role, lead, depth - 1);
      }
      ReachesPath(agents, role, Target(agents[name], path[0]), depth - 1, path[1..]);
    }
  }

  /** No depth is enough for a profile that resolution comes back to. */
  lemma {:induction false} LoopNeverEnds(agents: Agents, role: string, name: string, r: Path, depth: nat)
    requires ComesBack(agents, name, [], r)
    ensures Build(agents, role, name, depth).None?
    decreases depth
  {
    assert [] + r == r;
    if Build(agents, role, name, depth).Some? {
      ReachesPath(agents, role, name, depth, r);
      LoopNeverEnds(agents, role, name, r, depth - |r|);
    }
  }

  lemma ComesBackThere(agents: Agents, name: string, q: Path, r: Path)
    requires ComesBack(agents, name, q, r)
    ensures ClearUpTo(agents, name, q)
    ensures ComesBack(agents, NameAt(agents, name, q).value, [], r)
  {
    var n := NameAt(agents, name, q).value;
    PathThenPath(agents, name, q, r);
    assert [] + r == r;
    forall p | Before(p, q) && NameAt(agents, name, p).Some? ensures NameAt(agents, name, p).value in agents {
      BeforeExtends(p, q, r);
    }
    forall p | Before(p, r) && NameAt(agents, n, p).Some? ensures NameAt(agents, n, p).value in agents {
      BeforeBehind(q, p, r);
      PathThenPath(agents, name, q, p);
      assert NameAt(agents, name, q + p).Some?;
    }
  }

  lemma {:induction false} LongPath(agents: Agents, role: string, name: string, depth: nat) returns (path: Path)
    requires Build(agents, role, name, depth).None?
    ensures |path| == depth && NameAt(agents, name, path).Some? && ClearUpTo(agents, name, path)
    decreases depth
  {
    if depth == 0 {
      path := [];
    } else {
      var lead, follower := agents[name].lead, agents[name].follower;
      if Build(agents, role, lead, depth - 1).None? {
        var rest := LongPath(agents, role, lead, depth - 1);
        path := [Lead] + rest;
        ClearBehindLead(agents, name, rest);
      } else {
        BuildsExactlyWhen(agents, role, lead, depth - 1);
        var rest := LongPath(agents, role, follower, depth - 1);
        path := [Follower] + rest;
        ClearBehindFollower(agents, name, rest);
      }
    }
  }

  lemma ClearBehindLead(agents: Agents, name: string, rest: Path)
    requires name in agents && agents[name].Composite? && ClearUpTo(agents, agents[name].lead, rest)
    ensures ClearUpTo(agents, name, [Lead] + rest)
    ensures NameAt(agents, name, [Lead] + rest) == NameAt(agents, agents[name].lead, rest)
  {
    assert ([Lead] + rest)[1..] == rest;
  }

  lemma ClearBehindFollower(agents: Agents, name: string, rest: Path)
    requires name in agents && agents[name].Composite? && ClearUpTo(agents, agents[name].follower, rest)
    requires AllReachableConfigured(agents, agents[name].lead)
    ensures ClearUpTo(agents, name, [Follower] + rest)
    ensures NameAt(agents, name, [Follower] + rest) == NameAt(agents, agents[name].follower, rest)
  {
    assert ([Follower] + rest)[1..] == rest;
    forall p | Before(p, [Follower] + rest) && NameAt(agents, name, p).Some?
      ensures NameAt(agents, name, p).value in agents
    {
      if p[0] == Lead {
        assert NameAt(agents, agents[name].lead, p[1..]).Some?;
      } else {
        assert Before(p[1..], rest);
      }
    }
  }

  lemma {:induction false} Pigeonhole(names: seq<string>, s: set<string>) returns (i: nat, j: nat)
    requires |names| > |s| && forall k | 0 <= k < |names| :: names[k] in s
    ensures i < j < |names| && names[i] == names[j]
    decreases |names|
  {
    var init, last := names[..|names| - 1], names[|names| - 1];
    if k :| 0 <= k < |init| && init[k] == last {
      i, j := k, |init|;
    } else {
      assert last in s && |s - {last}| == |s| - 1;
      i, j := Pigeonhole(init, s - {last});
    }
  }

  /** The profiles on the way along a path. */
  function OnTheWay(agents: Agents, name: string, path: Path): seq<string>
    decreases |path|
  {
    if path == [] || name !in agents || agents[name].Concrete? then []
    else [name] + OnTheWay(agents, Target(agents[name], path[0]), path[1..])
  }

  lemma {:induction false} WayPassesNames(agents: Agents, name: string, path: Path)
    requires NameAt(agents, name, path).Some?
    ensures |OnTheWay(agents, name, path)| == |path|
    ensures forall k | 0 <= k < |path| ::
              NameAt(agents, name, path[..k]) == Some(OnTheWay(agents, name, path)[k])
              && OnTheWay(agents, name, path)[k] in agents
    decreases |path|
  {
    if path != [] {
      var next, rest := Target(agents[name], path[0]), path[1..];
      WayPassesNames(agents, next, rest);
      forall k | 0 < k < |path| ensures NameAt(agents, name, path[..k]) == Some(OnTheWay(agents, next, rest)[k - 1]) {
        assert path[..k][1..] == rest[..k - 1];
      }
    }
  }

  /** A path longer than the number of profiles passes one of them twice. */
  lemma LongPathRepeats(agents: Agents, name: string, path: Path) returns (q: Path, r: Path)
    requires NameAt(agents, name, path).Some? && |path| > |agents|
    ensures r != [] && q + r <= path
    ensures NameAt(agents, name, q).Some? && NameAt(agents, name, q + r) == NameAt(agents, name, q)
  {
    WayPassesNames(agents, name, path);
    var names := OnTheWay(agents, name, path);
    assert |agents| == |agents.Keys|;
    var i, j := Pigeonhole(names, agents.Keys);
    q, r := path[..i], path[i..j];
    assert q + r == path[..j];
  }

  lemma ClearShorter(agents: Agents, name: string, path: Path, longer: Path)
    requires path <= longer && ClearUpTo(agents, name, longer)
    ensures ClearUpTo(agents, name, path)
  {
    forall p | Before(p, path) && NameAt(agents, name, p).Some? ensures NameAt(agents, name, p).value in agents {
      BeforeExtends(p, path, longer[|path|..]);
      assert path + longer[|path|..] == longer;
    }
  }

  /** The recursion fails to end exactly if resolution comes back to a profile before it
      comes to a missing one. */
  lemma EndsExactlyWhen(agents: Agents, role: string, name: string)
    ensures !Ends(agents, role, name) <==> exists q, r :: ComesBack(agents, name, q, r)
  {
    if Ends(agents, role, name) {
      var depth: nat :| Build(agents, role, name, depth).Some?;
      forall q, r | ComesBack(agents, name, q, r) ensures false {
        ComesBackThere(agents, name, q, r);
        ReachesPath(agents, role, name, depth, q);
        LoopNeverEnds(agents, role, NameAt(agents, name, q).value, r, depth - |q|);
      }
    } else {
      assert Build(agents, role, name, |agents| + 1).None?;
      var path := LongPath(agents, role, name, |agents| + 1);
      var q, r := LongPathRepeats(agents, name, path);
      ClearShorter(agents, name, q + r, path);
      assert ComesBack(agents, name, q, r);
    }
  }

  /** Some reference chain returns to a profile it has passed. */
  ghost predicate Cyclic(agents: Agents, name: string) {
    exists q, r :: r != [] && NameAt(agents, name, q).Some? && NameAt(agents, name, q + r) == NameAt(agents, name, q)
  }

  lemma CyclesComeBack(agents: Agents, name: string)
    requires AllReachableConfigured(agents, name) && Cyclic(agents, name)
    ensures exists q, r :: ComesBack(agents, name, q, r)
  {
    var q, r :| r != [] && NameAt(agents, name, q).Some? && NameAt(agents, name, q + r) == NameAt(agents, name, q);
    assert ComesBack(agents, name, q, r);
  }

  /** Resolution yields a runner exactly if every reachable profile is configured and no
      cycle is reachable. */
  lemma SucceedsExactlyWhen(agents: Agents, role: string, name: string)
    ensures (exists depth: nat :: Build(agents, role, name, depth).Some? && Build(agents, role, name, depth).value.Ok?)
            <==> AllReachableConfigured(agents, name) && !Cyclic(agents, name)
  {
    EndsExactlyWhen(agents, role, name);
    if AllReachableConfigured(agents, name) && Cyclic(agents, name) {
      CyclesComeBack(agents, name);
    }
    if !Cyclic(agents, name) {
      AcyclicEnds(agents, role, name);
    }
    forall depth: nat | Build(agents, role, name, depth).Some?
      ensures Build(agents, role, name, depth).value.Ok? <==> AllReachableConfigured(agents, name)
    {
      BuildsExactlyWhen(agents, role, name, depth);
    }
    if Ends(agents, role, name) {
      var depth: nat :| Build(agents, role, name, depth).Some?;
      assert Build(agents, role, name, depth).value.Ok? <==> AllReachableConfigured(agents, name);
    }
  }

  lemma AcyclicEnds(agents: Agents, role: string, name: string)
    requires !Cyclic(agents, name)
    ensures Ends(agents, role, name)
  {
    EndsExactlyWhen(agents, role, name);
    forall q, r ensures !ComesBack(agents, name, q, r) {
    }
  }

  /** A cycle behind a missing lead is never entered: the error comes first. */
  lemma CycleBehindMissingLead(role: string, name: string, missing: string, mode: TandemMode)
    requires name != missing
    ensures var agents := map[name := Composite(missing, name, mode)];
            Cyclic(agents, name) && Build(agents, role, name, 2) == Some(Err(ProfileMissing(missing)))
  {
    var agents := map[name := Composite(missing, name, mode)];
    assert [Follower][1..] == [] && [] + [Follower] == [Follower];
    assert NameAt(agents, name, [] + [Follower]) == Some(name) == NameAt(agents, name, []);
    assert Build(agents, role, missing, 1) == Some(Err(ProfileMissing(missing)));
  }

  // ---------------------------------------------------------------------------
  // Rankings
  // ---------------------------------------------------------------------------

  /** A ranking under which every reachable reference leads downwards. */
  ghost predicate RankedFrom(agents: Agents, name: string, rank: string -> nat) {
    forall path, seat | NameAt(agents, name, path).Some? && NameAt(agents, name, path + [seat]).Some? ::
      rank(NameAt(agents, name, path + [seat]).value) < rank(NameAt(agents, name, path).value)
  }

  lemma {:induction false} RanksDescend(agents: Agents, name: string, rank: string -> nat, q: Path, r: Path)
    requires RankedFrom(agents, name, rank) && NameAt(agents, name, q).Some? && NameAt(agents, name, q + r).Some?
    ensures rank(NameAt(agents, name, q + r).value) + |r| <= rank(NameAt(agents, name, q).value)
    decreases |r|
  {
    if r == [] {
      assert q + r == q;
    } else {
      var init, last := r[..|r| - 1], r[|r| - 1];
      assert q + r == (q + init) + [last];
      PathThenPath(agents, name, q + init, [last]);
      RanksDescend(agents, name, rank, q, init);
    }
  }

  /** How far references go on from a profile, counted up to `bound`. */
  function Height(agents: Agents, name: string, bound: nat): nat
    decreases bound
  {
    if bound == 0 || name !in agents || agents[name].Concrete? then 0
    else
      var (a, b) := (Height(agents, agents[name].lead, bound - 1), Height(agents, agents[name].follower, bound - 1));
      1 + if a >= b then a else b
  }

  lemma {:induction false} HeightHasPath(agents: Agents, name: string, bound: nat) returns (path: Path)
    ensures |path| == Height(agents, name, bound) <= bound && NameAt(agents, name, path).Some?
    decreases bound
  {
    if Height(agents, name, bound) == 0 {
      path := [];
    } else {
      var (lead, follower) := (agents[name].lead, agents[name].follower);
      var seat := if Height(agents, lead, bound - 1) >= Height(agents, follower, bound - 1) then Lead else Follower;
      var rest := HeightHasPath(agents, Target(agents[name], seat), bound - 1);
      StepPath(agents, name, seat, rest);
      path := [seat] + rest;
    }
  }

  /** A height below its bound does not depend on the bound. */
  lemma {:induction false} HeightSettles(agents: Agents, name: string, bound: nat)
    requires Height(agents, name, bound) < bound
    ensures Height(agents, name, bound + 1) == Height(agents, name, bound)
    decreases bound
  {
    if name in agents && agents[name].Composite? {
      HeightSettles(agents, agents[name].lead, bound - 1);
      HeightSettles(agents, agents[name].follower, bound - 1);
    }
  }

  lemma CyclicFurther(agents: Agents, name: string, path: Path)
    requires NameAt(agents, name, path).Some? && Cyclic(agents, NameAt(agents, name, path).value)
    ensures Cyclic(agents, name)
  {
    var n := NameAt(agents, name, path).value;
    var q, r :| r != [] && NameAt(agents, n, q).Some? && NameAt(agents, n, q + r) == NameAt(agents, n, q);
    PathThenPath(agents, name, path, q);
    PathThenPath(agents, name, path, q + r);
    assert (path + q) + r == path + (q + r);
  }

  lemma AcyclicHeight(agents: Agents, name: string, bound: nat)
    requires !Cyclic(agents, name)
    ensures Height(agents, name, bound) <= |agents|
  {
    var path := HeightHasPath(agents, name, bound);
    if |path| > |agents| {
      var q, r := LongPathRepeats(agents, name, path);
    }
  }

  lemma HeightDescends(agents: Agents, name: string, seat: Seat)
    requires name in agents && agents[name].Composite? && !Cyclic(agents, name)
    ensures Height(agents, Target(agents[name], seat), |agents| + 1) < Height(agents, name, |agents| + 1)
  {
    var target, n := Target(agents[name], seat), |agents|;
    AcyclicHeight(agents, name, n + 1);
    assert Height(agents, target, n) < Height(agents, name, n + 1);
    HeightSettles(agents, target, n);
  }

  /** The references reachable from a profile can be ranked exactly if they form no cycle. */
  lemma RankingExactlyWhen(agents: Agents, name: string)
    ensures (exists rank: string -> nat :: RankedFrom(agents, name, rank)) <==> !Cyclic(agents, name)
  {
    if rank: string -> nat :| RankedFrom(agents, name, rank) {
      if q, r :| r != [] && NameAt(agents, name, q).Some? && NameAt(agents, name, q + r) == NameAt(agents, name, q) {
        RanksDescend(agents, name, rank, q, r);
        assert false;
      }
    }
    if !Cyclic(agents, name) {
      var rank: string -> nat := n => Height(agents, n, |agents| + 1);
      forall path, seat | NameAt(agents, name, path).Some? && NameAt(agents, name, path + [seat]).Some?
        ensures rank(NameAt(agents, name, path + [seat]).value) < rank(NameAt(agents, name, path).value)
      {
        var n := NameAt(agents, name, path).value;
        PathThenPath(agents, name, path, [seat]);
        if Cyclic(agents, n) {
          CyclicFurther(agents, name, path);
        }
        assert [seat][1..] == [];
        HeightDescends(agents, n, seat);
      }
      assert RankedFrom(agents, name, rank);
    }
  }

  /** With a ranking the recursion ends. */
  lemma RankedEnds(agents: Agents, role: string, name: string, rank: string -> nat)
    requires RankedFrom(agents, name, rank)
    ensures Ends(agents, role, name)
  {
    RankingExactlyWhen(agents, name);
    AcyclicEnds(agents, role, name);
  }

  /** The check of a loaded configuration: composites refer to configured backends. */
  predicate Validated(roles: map<string, Option<string>>, agents: Agents) {
    (forall role | role in roles && roles[role].Some? :: roles[role].value in agents)
    && forall n | n in agents && agents[n].Composite? ::
         agents[n].lead in agents && agents[agents[n].lead].Concrete?
         && agents[n].follower in agents && agents[agents[n].follower].Concrete?
  }

  /** In a validated configuration two open calls are enough, and resolution succeeds
      for exactly the roles that name an agent profile. */
  lemma ValidatedRolesBuild(roles: map<string, Option<string>>, agents: Agents, role: string)
    requires Validated(roles, agents)
    ensures BuildForRole(roles, agents, role, 2).Some?
    ensures BuildForRole(roles, agents, role, 2).value.Ok? <==> role in roles && roles[role].Some?
  {
    if role in roles && roles[role].Some? {
      var name := roles[role].value;
      if agents[name].Composite? {
        assert Build(agents, role, agents[name].lead, 1).Some? && Build(agents, role, agents[name].follower, 1).Some?;
      }
    }
  }

  /** Which roles fail before any profile is looked up, and with which error. */
  lemma RoleErrors(roles: map<string, Option<string>>, agents: Agents, role: string, name: string, depth: nat)
    ensures BuildForRole(roles, agents, role, depth) == Some(Err(RoleMissing(name))) <==> role == name && role !in roles
    ensures BuildForRole(roles, agents, role, depth) == Some(Err(RoleWithoutAgent(name)))
            <==> role == name && role in roles && roles[role].None?
  {
    if role in roles && roles[role].Some? {
      var built := Build(agents, role, roles[role].value, depth);
      if built.Some? && built.value.Err? {
        var path := ErrorNamesFirstMissing(agents, role, roles[role].value, depth);
      }
    }
  }
}
