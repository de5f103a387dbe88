/**
 * The managed fan-out. TargetsRun follows the controller's two nested loops
 * (targets, then the startup deployments of each) for any operation performed
 * per deployment; Plan lists, in scenario order, the registry lookups and
 * per-deployment events the fan-out is meant to make, and WalkRun is the plain
 * reference walk over such a list: run each entry in turn, stop at the first
 * exception. The lemmas prove that the nested loops are that walk over the
 * plan, and what the walk attempts.
 */
module FanOut {
  import opened Domain
  import opened Actions

  /** A target of the scenario with its startup (managed) deployments, in order. */
  datatype Group = Group(target: Target, startup: seq<Deployment>)

  type Scenario = seq<Group>

  /**
   * The container registry's lookup. Targets are validated before the fan-out
   * runs, so every target the scenario names resolves to a container.
   */
  type Registry = Target -> Container

  /** What (part of) a fan-out recorded, and how it completed. */
  datatype Progress = Progress(steps: seq<Action>, outcome: Outcome)

  function Then(prefix: seq<Action>, p: Progress): Progress {
    Progress(prefix + p.steps, p.outcome)
  }

  /** What the fan-out does for one deployment on its container, given the trace length. */
  type Operation = (Container, Deployment, nat) -> Progress

  /** The event the managed deploy (or undeploy) fan-out fires for one deployment. */
  function DispatchEvent(op: Op, c: Container, d: Deployment): Action {
    match op
    case DeployOp => DeployDeployment(c, d)
    case UnDeployOp => UnDeployDeployment(c, d)
  }

  predicate IsDispatchOf(op: Op, a: Action) {
    match op
    case DeployOp => a.DeployDeployment?
    case UnDeployOp => a.UnDeployDeployment?
  }

  /**
   * The operation of the managed fan-outs: fire the per-deployment event; its
   * observer in the controller is the single deploy or undeploy action, run in
   * the deployment's own context (empty when the fan-out reaches it), whose
   * exception is the event's.
   */
  function PerformRun(op: Op, c: Container, d: Deployment, env: Env, n: nat): Progress {
    var r := ActionRun(op, c, d, env, n + 1, Unbound);
    Progress([DispatchEvent(op, c, d)] + r.steps, r.outcome)
  }

  function Performer(op: Op, env: Env): Operation {
    (c: Container, d: Deployment, n: nat) => PerformRun(op, c, d, env, n)
  }

  /** The inner loop: perform each deployment of ds on c, stop at the first exception. */
  function DeploymentsRun(perform: Operation, c: Container, ds: seq<Deployment>, n: nat): Progress
    decreases |ds|
  {
    if ds == [] then Progress([], Ok)
    else
      var r := perform(c, ds[0], n);
      if r.outcome == Err then r
      else Then(r.steps, DeploymentsRun(perform, c, ds[1..], n + |r.steps|))
  }

  /**
   * One target: skip it when it has no startup deployments; otherwise look its
   * container up once and run the inner loop.
   */
  function GroupRun(perform: Operation, g: Group, registry: Registry, n: nat): Progress {
    if g.startup == [] then Progress([], Ok)
    else Then([Lookup(g.target)], DeploymentsRun(perform, registry(g.target), g.startup, n + 1))
  }

  /** The outer loop: each target in turn, stopping at the first exception. */
  function TargetsRun(perform: Operation, scenario: Scenario, registry: Registry, n: nat): Progress
    decreases |scenario|
  {
    if scenario == [] then Progress([], Ok)
    else
      var r := GroupRun(perform, scenario[0], registry, n);
      if r.outcome == Err then r
      else Then(r.steps, TargetsRun(perform, scenario[1..], registry, n + |r.steps|))
  }

  // ---------------------------------------------------------------------------
  // The plan and the reference walk

  /** The entries the fan-out itself makes: lookups and per-deployment events. */
  predicate IsWalkStep(a: Action) {
    a.Lookup? || a.DeployDeployment? || a.UnDeployDeployment?
  }

  /** The events for the deployments ds on c, in list order. */
  function Dispatches(op: Op, c: Container, ds: seq<Deployment>): (p: seq<Action>)
    ensures |p| == |ds|
  {
    if ds == [] then [] else [DispatchEvent(op, c, ds[0])] + Dispatches(op, c, ds[1..])
  }

  /** One target's part of the plan: nothing, or its lookup then its events. */
  function GroupPlan(op: Op, g: Group, registry: Registry): seq<Action> {
    if g.startup == [] then [] else [Lookup(g.target)] + Dispatches(op, registry(g.target), g.startup)
  }

  /**
   * What the fan-out is meant to do: for each target in scenario order that has
   * startup deployments, one lookup, then one event per startup deployment with
   * the registered container.
   */
  function Plan(op: Op, scenario: Scenario, registry: Registry): seq<Action>
    decreases |scenario|
  {
    if scenario == [] then [] else GroupPlan(op, scenario[0], registry) + Plan(op, scenario[1..], registry)
  }

  /**
   * One planned entry: a per-deployment event performs the operation on its
   * container and deployment; a lookup (the only other entry a plan holds) is
   * recorded and cannot fail.
   */
  function StepRun(perform: Operation, a: Action, n: nat): Progress {
    if a.DeployDeployment? || a.UnDeployDeployment? then perform(a.container, a.deployment, n)
    else Progress([a], Ok)
  }

  /** The reference walk: every planned entry in turn, stopping at the first exception. */
  function WalkRun(perform: Operation, plan: seq<Action>, n: nat): Progress
    decreases |plan|
  {
    if plan == [] then Progress([], Ok)
    else
      var r := StepRun(perform, plan[0], n);
      if r.outcome == Err then r
      else Then(r.steps, WalkRun(perform, plan[1..], n + |r.steps|))
  }

  /** The fan-out's own entries of a trace, in order. */
  function Attempted(steps: seq<Action>): seq<Action> {
    if steps == [] then []
    else (if IsWalkStep(steps[0]) then [steps[0]] else []) + Attempted(steps[1..])
  }

  /**
   * The walk stops at entry k: everything before k completed normally and
   * entry k threw.
   */
  predicate StopsAt(perform: Operation, plan: seq<Action>, n: nat, k: int) {
    && 0 <= k < |plan|
    && var p := WalkRun(perform, plan[..k], n);
    && p.outcome == Ok
    && StepRun(perform, plan[k], n + |p.steps|).outcome == Err
  }

  /** Each perform of the operation records exactly one fan-out entry: its event. */
  ghost predicate Announces(perform: Operation, op: Op) {
    forall c: Container, d: Deployment, n: nat {:trigger Attempted(perform(c, d, n).steps)} ::
      Attempted(perform(c, d, n).steps) == [DispatchEvent(op, c, d)]
  }

  /** Every entry is a lookup or an event of the fan-out's own kind. */
  predicate Planned(op: Op, plan: seq<Action>)
    decreases |plan|
  {
    plan == [] || ((plan[0].Lookup? || IsDispatchOf(op, plan[0])) && Planned(op, plan[1..]))
  }

  // ---------------------------------------------------------------------------
  // Lemmas about the reference walk

  /** Walking A + B is walking A and, if that completed normally, then B. */
  lemma {:induction false} WalkAppend(perform: Operation, A: seq<Action>, B: seq<Action>, n: nat)
    ensures WalkRun(perform, A + B, n)
         == (var r := WalkRun(perform, A, n);
             if r.outcome == Err then r else Then(r.steps, WalkRun(perform, B, n + |r.steps|)))
    decreases |A|
  {
    if A == [] {
      assert A + B == B;
    } else {
      var r := StepRun(perform, A[0], n);
      assert (A + B)[0] == A[0];
      assert (A + B)[1..] == A[1..] + B;
      if r.outcome != Err {
        WalkAppend(perform, A[1..], B, n + |r.steps|);
        var q := WalkRun(perform, A[1..], n + |r.steps|);
        if q.outcome != Err {
          var t := WalkRun(perform, B, n + |r.steps| + |q.steps|);
          assert r.steps + (q.steps + t.steps) == (r.steps + q.steps) + t.steps;
        }
      }
    }
  }

  lemma {:induction false} AttemptedAppend(a: seq<Action>, b: seq<Action>)
    ensures Attempted(a + b) == Attempted(a) + Attempted(b)
    decreases |a|
  {
    if a == [] {
      assert a + b == b;
    } else {
      assert (a + b)[0] == a[0];
      assert (a + b)[1..] == a[1..] + b;
      AttemptedAppend(a[1..], b);
    }
  }

  /** Running one planned entry attempts exactly that entry. */
  lemma StepAttempted(perform: Operation, op: Op, a: Action, n: nat)
    requires Announces(perform, op) && (a.Lookup? || IsDispatchOf(op, a))
    ensures Attempted(StepRun(perform, a, n).steps) == [a]
  {
    if a.Lookup? {
      assert [a][1..] == [];
    } else {
      assert a == DispatchEvent(op, a.container, a.deployment);
    }
  }

  /** One attempted entry followed by a prefix of the rest is a prefix of the whole. */
  lemma AttemptedCons(x: Action, head: seq<Action>, tail: seq<Action>, rest: seq<Action>)
    requires Attempted(head) == [x] && Attempted(tail) <= rest
    ensures Attempted(head + tail) <= [x] + rest
    ensures Attempted(tail) == rest ==> Attempted(head + tail) == [x] + rest
  {
    AttemptedAppend(head, tail);
    assert ([x] + rest)[..1 + |Attempted(tail)|] == [x] + rest[..|Attempted(tail)|];
  }

  /**
   * The walk attempts the planned entries in order: a prefix of the plan, all
   * of it when it completes normally.
   */
  lemma {:induction false} WalkAttempts(perform: Operation, op: Op, plan: seq<Action>, n: nat)
    requires Announces(perform, op) && Planned(op, plan)
    ensures var r := WalkRun(perform, plan, n);
      && Attempted(r.steps) <= plan
      && (r.outcome == Ok ==> Attempted(r.steps) == plan)
    decreases |plan|
  {
    if plan != [] {
      var r := StepRun(perform, plan[0], n);
      StepAttempted(perform, op, plan[0], n);
      if r.outcome != Err {
        var q := WalkRun(perform, plan[1..], n + |r.steps|);
        WalkAttempts(perform, op, plan[1..], n + |r.steps|);
        AttemptedCons(plan[0], r.steps, q.steps, plan[1..]);
        assert plan == [plan[0]] + plan[1..];
      }
    }
  }

  /** When the walk stops at k, it throws and its trace ends with entry k's own run. */
  lemma StopEndsWalk(perform: Operation, plan: seq<Action>, n: nat, k: int)
    requires StopsAt(perform, plan, n, k)
    ensures var r := WalkRun(perform, plan, n);
      var p := WalkRun(perform, plan[..k], n);
      && r.outcome == Err
      && r.steps == p.steps + StepRun(perform, plan[k], n + |p.steps|).steps
  {
    var p := WalkRun(perform, plan[..k], n);
    var q := StepRun(perform, plan[k], n + |p.steps|);
    assert plan == plan[..k] + plan[k..];
    WalkAppend(perform, plan[..k], plan[k..], n);
    assert plan[k..][0] == plan[k];
    assert WalkRun(perform, plan[k..], n + |p.steps|) == q;
  }

  /** A stop after a first entry that completed normally is a stop of the whole walk, one later. */
  lemma StopsAtShift(perform: Operation, plan: seq<Action>, n: nat, j: int)
    requires plan != [] && StepRun(perform, plan[0], n).outcome == Ok
    requires StopsAt(perform, plan[1..], n + |StepRun(perform, plan[0], n).steps|, j)
    ensures StopsAt(perform, plan, n, j + 1)
  {
    var r := StepRun(perform, plan[0], n);
    var rest := plan[1..];
    assert plan[..j + 1] == [plan[0]] + rest[..j];
    WalkAppend(perform, [plan[0]], rest[..j], n);
    assert WalkRun(perform, [plan[0]], n) == r by { assert [plan[0]][1..] == []; }
    assert plan[j + 1] == rest[j];
  }

  /** A walk that throws stopped at some planned entry. */
  lemma {:induction false} ErrStops(perform: Operation, plan: seq<Action>, n: nat)
    requires WalkRun(perform, plan, n).outcome == Err
    ensures exists k :: StopsAt(perform, plan, n, k)
    decreases |plan|
  {
    var r := StepRun(perform, plan[0], n);
    if r.outcome == Err {
      assert WalkRun(perform, plan[..0], n) == Progress([], Ok) by { assert plan[..0] == []; }
      assert StopsAt(perform, plan, n, 0);
    } else {
      ErrStops(perform, plan[1..], n + |r.steps|);
      var j :| StopsAt(perform, plan[1..], n + |r.steps|, j);
      StopsAtShift(perform, plan, n, j);
    }
  }

  /**
   * Fail-fast, for the reference walk: it throws exactly when some planned
   * entry throws after all earlier ones completed normally.
   */
  lemma WalkFailsIffStops(perform: Operation, plan: seq<Action>, n: nat)
    ensures WalkRun(perform, plan, n).outcome == Err <==> exists k :: StopsAt(perform, plan, n, k)
  {
    if WalkRun(perform, plan, n).outcome == Err {
      ErrStops(perform, plan, n);
    } else if k :| StopsAt(perform, plan, n, k) {
      StopEndsWalk(perform, plan, n, k);
    }
  }

  /** A walk that stops at entry k attempted exactly the entries up to and including k. */
  lemma WalkStopAttempts(perform: Operation, op: Op, plan: seq<Action>, n: nat, k: int)
    requires Announces(perform, op) && Planned(op, plan)
    requires StopsAt(perform, plan, n, k)
    ensures Attempted(WalkRun(perform, plan, n).steps) == plan[..k + 1]
  {
    var p := WalkRun(perform, plan[..k], n);
    var q := StepRun(perform, plan[k], n + |p.steps|);
    StopEndsWalk(perform, plan, n, k);
    PlannedTake(op, plan, k);
    WalkAttempts(perform, op, plan[..k], n);
    StepAttempted(perform, op, plan[k], n + |p.steps|);
    AttemptedAppend(p.steps, q.steps);
    assert plan[..k + 1] == plan[..k] + [plan[k]];
  }

  /**
   * Where a walk over planned entries stops: at an event of the fan-out's own
   * kind (a lookup cannot throw); the walk throws, ends with that entry's own
   * run, and attempted the plan up to and including that entry.
   */
  lemma WalkStop(perform: Operation, op: Op, plan: seq<Action>, n: nat, k: int)
    requires Announces(perform, op) && Planned(op, plan)
    requires StopsAt(perform, plan, n, k)
    ensures var r := WalkRun(perform, plan, n);
      var p := WalkRun(perform, plan[..k], n);
      && IsDispatchOf(op, plan[k])
      && r.outcome == Err
      && r.steps == p.steps + StepRun(perform, plan[k], n + |p.steps|).steps
      && Attempted(r.steps) == plan[..k + 1]
  {
    StopEndsWalk(perform, plan, n, k);
    PlannedTake(op, plan, k);
    WalkStopAttempts(perform, op, plan, n, k);
  }

  // ---------------------------------------------------------------------------
  // The nested loops are the walk over the plan

  /** The inner loop is the walk over the deployments' events. */
  lemma {:induction false} DeploymentsAreWalk(perform: Operation, op: Op, c: Container, ds: seq<Deployment>, n: nat)
    ensures DeploymentsRun(perform, c, ds, n) == WalkRun(perform, Dispatches(op, c, ds), n)
    decreases |ds|
  {
    if ds != [] {
      var plan := Dispatches(op, c, ds);
      assert plan[0] == DispatchEvent(op, c, ds[0]);
      assert plan[1..] == Dispatches(op, c, ds[1..]);
      var r := perform(c, ds[0], n);
      assert StepRun(perform, plan[0], n) == r;
      if r.outcome != Err {
        DeploymentsAreWalk(perform, op, c, ds[1..], n + |r.steps|);
      }
    }
  }

  /** One target's part of the plan, walked, is what the loops do for that target. */
  lemma GroupIsWalk(perform: Operation, op: Op, g: Group, registry: Registry, n: nat)
    ensures GroupRun(perform, g, registry, n) == WalkRun(perform, GroupPlan(op, g, registry), n)
  {
    if g.startup != [] {
      var lookup := [Lookup(g.target)];
      WalkAppend(perform, lookup, Dispatches(op, registry(g.target), g.startup), n);
      assert WalkRun(perform, lookup, n) == Progress(lookup, Ok) by {
        assert lookup[1..] == [];
      }
      DeploymentsAreWalk(perform, op, registry(g.target), g.startup, n + 1);
    }
  }

  /** The walk over a plan is the first target's part of the loops, then the walk over the rest. */
  lemma PlanStep(perform: Operation, op: Op, scenario: Scenario, registry: Registry, n: nat)
    requires scenario != []
    ensures var r := GroupRun(perform, scenario[0], registry, n);
      WalkRun(perform, Plan(op, scenario, registry), n)
        == if r.outcome == Err then r
           else Then(r.steps, WalkRun(perform, Plan(op, scenario[1..], registry), n + |r.steps|))
  {
    GroupIsWalk(perform, op, scenario[0], registry, n);
    WalkAppend(perform, GroupPlan(op, scenario[0], registry), Plan(op, scenario[1..], registry), n);
  }

  lemma TargetsStep(perform: Operation, scenario: Scenario, registry: Registry, n: nat)
    requires scenario != []
    ensures var r := GroupRun(perform, scenario[0], registry, n);
      TargetsRun(perform, scenario, registry, n)
        == if r.outcome == Err then r
           else Then(r.steps, TargetsRun(perform, scenario[1..], registry, n + |r.steps|))
  {
  }

  /** The nested loops with their early skip are the reference walk over the plan. */
  lemma {:induction false} TargetsAreWalk(perform: Operation, op: Op, scenario: Scenario, registry: Registry, n: nat)
    ensures TargetsRun(perform, scenario, registry, n) == WalkRun(perform, Plan(op, scenario, registry), n)
    decreases |scenario|
  {
    if scenario != [] {
      var r := GroupRun(perform, scenario[0], registry, n);
      var m := n + |r.steps|;
      calc {
        TargetsRun(perform, scenario, registry, n);
      == { TargetsStep(perform, scenario, registry, n); }
        if r.outcome == Err then r else Then(r.steps, TargetsRun(perform, scenario[1..], registry, m));
      == { if r.outcome != Err { TargetsAreWalk(perform, op, scenario[1..], registry, m); } }
        if r.outcome == Err then r else Then(r.steps, WalkRun(perform, Plan(op, scenario[1..], registry), m));
      == { PlanStep(perform, op, scenario, registry, n); }
        WalkRun(perform, Plan(op, scenario, registry), n);
      }
    }
  }

  // ---------------------------------------------------------------------------
  // The shape of the plan

  /** The events for a deployment list: one per deployment, in list order. */
  lemma {:induction false} DispatchesAt(op: Op, c: Container, ds: seq<Deployment>, i: int)
    requires 0 <= i < |ds|
    ensures Dispatches(op, c, ds)[i] == DispatchEvent(op, c, ds[i])
    decreases |ds|
  {
    if i > 0 {
      DispatchesAt(op, c, ds[1..], i - 1);
    }
  }

  lemma {:induction false} PlannedAppend(op: Op, a: seq<Action>, b: seq<Action>)
    requires Planned(op, a) && Planned(op, b)
    ensures Planned(op, a + b)
    decreases |a|
  {
    if a == [] {
      assert a + b == b;
    } else {
      assert (a + b)[0] == a[0];
      assert (a + b)[1..] == a[1..] + b;
      PlannedAppend(op, a[1..], b);
    }
  }

  /** A planned entry and everything before it are planned entries. */
  lemma {:induction false} PlannedTake(op: Op, plan: seq<Action>, k: int)
    requires Planned(op, plan) && 0 <= k < |plan|
    ensures Planned(op, plan[..k]) && (plan[k].Lookup? || IsDispatchOf(op, plan[k]))
    decreases k
  {
    if k == 0 {
      assert plan[..0] == [];
    } else {
      PlannedTake(op, plan[1..], k - 1);
      assert plan[..k][0] == plan[0];
      assert plan[..k][1..] == plan[1..][..k - 1];
      assert plan[1..][k - 1] == plan[k];
    }
  }

  lemma {:induction false} DispatchesPlanned(op: Op, c: Container, ds: seq<Deployment>)
    ensures Planned(op, Dispatches(op, c, ds))
    decreases |ds|
  {
    if ds != [] {
      var p := Dispatches(op, c, ds);
      assert p[1..] == Dispatches(op, c, ds[1..]);
      DispatchesPlanned(op, c, ds[1..]);
    }
  }

  /** A plan holds lookups and events of the fan-out's own kind only. */
  lemma {:induction false} PlanIsPlanned(op: Op, scenario: Scenario, registry: Registry)
    ensures Planned(op, Plan(op, scenario, registry))
    decreases |scenario|
  {
    if scenario != [] {
      var g := scenario[0];
      PlanIsPlanned(op, scenario[1..], registry);
      if g.startup != [] {
        var ds := Dispatches(op, registry(g.target), g.startup);
        DispatchesPlanned(op, registry(g.target), g.startup);
        assert ([Lookup(g.target)] + ds)[1..] == ds;
      }
      PlannedAppend(op, GroupPlan(op, g, registry), Plan(op, scenario[1..], registry));
    }
  }

  lemma {:induction false} PlanAppend(op: Op, A: Scenario, B: Scenario, registry: Registry)
    ensures Plan(op, A + B, registry) == Plan(op, A, registry) + Plan(op, B, registry)
    decreases |A|
  {
    if A == [] {
      assert A + B == B;
    } else {
      assert (A + B)[0] == A[0];
      assert (A + B)[1..] == A[1..] + B;
      PlanAppend(op, A[1..], B, registry);
    }
  }

  /** A target's part of the plan sits between the parts of the targets around it. */
  lemma PlanAround(op: Op, A: Scenario, g: Group, B: Scenario, registry: Registry)
    ensures Plan(op, A + [g] + B, registry) == Plan(op, A, registry) + GroupPlan(op, g, registry) + Plan(op, B, registry)
  {
    PlanAppend(op, A, [g], registry);
    PlanAppend(op, A + [g], B, registry);
    assert [g][1..] == [];
    assert GroupPlan(op, g, registry) + [] == GroupPlan(op, g, registry);
  }

  /**
   * A target without startup deployments contributes nothing: no lookup and
   * no event; the fan-out moves on to the next target.
   */
  lemma SkipEmptyTarget(op: Op, A: Scenario, t: Target, B: Scenario, registry: Registry)
    ensures Plan(op, A + [Group(t, [])] + B, registry) == Plan(op, A + B, registry)
  {
    PlanAround(op, A, Group(t, []), B, registry);
    PlanAppend(op, A, B, registry);
    assert Plan(op, A, registry) + [] == Plan(op, A, registry);
  }

  /**
   * A target with startup deployments contributes one lookup of that target
   * followed by one event per startup deployment, in list order, with the
   * container registered for the target.
   */
  lemma NonEmptyTarget(op: Op, A: Scenario, g: Group, B: Scenario, registry: Registry, i: int)
    requires 0 <= i < |g.startup|
    ensures var plan := Plan(op, A + [g] + B, registry);
      var at := |Plan(op, A, registry)|;
      && |plan| == at + 1 + |g.startup| + |Plan(op, B, registry)|
      && plan[at] == Lookup(g.target)
      && plan[at + 1 + i] == DispatchEvent(op, registry(g.target), g.startup[i])
  {
    var pre := Plan(op, A, registry);
    var ds := Dispatches(op, registry(g.target), g.startup);
    var group := GroupPlan(op, g, registry);
    PlanAround(op, A, g, B, registry);
    assert group == [Lookup(g.target)] + ds;
    DispatchesAt(op, registry(g.target), g.startup, i);
    GroupEntries(pre, group, Plan(op, B, registry), 1 + i);
    GroupEntries(pre, group, Plan(op, B, registry), 0);
  }

  /** An entry of the middle part of a three-part plan, by its position in that part. */
  lemma GroupEntries(pre: seq<Action>, group: seq<Action>, post: seq<Action>, j: int)
    requires 0 <= j < |group|
    ensures |pre + group + post| == |pre| + |group| + |post|
    ensures (pre + group + post)[|pre| + j] == group[j]
  {
  }

  // ---------------------------------------------------------------------------
  // The managed fan-outs

  /** A single deploy or undeploy action makes no lookup and fires no per-deployment event. */
  lemma ActionNotAttempted(op: Op, c: Container, d: Deployment, env: Env, n: nat, s: Scope)
    ensures Attempted(ActionRun(op, c, d, env, n, s).steps) == []
  {
    var steps := ActionRun(op, c, d, env, n, s).steps;
    var t := steps[1..];
    assert !IsWalkStep(steps[0]);
    if t != [] {
      assert !IsWalkStep(t[0]);
      var u := t[1..];
      if u != [] {
        assert !IsWalkStep(u[0]) && u[1..] == [];
        assert Attempted(u) == [];
      }
      assert Attempted(t) == Attempted(u);
    }
  }

  /** The managed fan-outs' operation records its own event and nothing else of the fan-out's. */
  lemma PerformerAnnounces(op: Op, env: Env)
    ensures Announces(Performer(op, env), op)
  {
    forall c: Container, d: Deployment, n: nat
      ensures Attempted(Performer(op, env)(c, d, n).steps) == [DispatchEvent(op, c, d)]
    {
      var inner := ActionRun(op, c, d, env, n + 1, Unbound);
      ActionNotAttempted(op, c, d, env, n + 1, Unbound);
      AttemptedAppend([DispatchEvent(op, c, d)], inner.steps);
      assert Attempted([DispatchEvent(op, c, d)]) == [DispatchEvent(op, c, d)] by {
        assert [DispatchEvent(op, c, d)][1..] == [];
      }
    }
  }

  /**
   * Managed fan-out ordering: the lookups and per-deployment events it makes are
   * the plan's, in scenario order and list order; a prefix of the plan always,
   * the whole plan when it completes normally.
   */
  lemma ManagedOrder(op: Op, scenario: Scenario, registry: Registry, env: Env, n: nat)
    ensures var r := TargetsRun(Performer(op, env), scenario, registry, n);
      && Attempted(r.steps) <= Plan(op, scenario, registry)
      && (r.outcome == Ok ==> Attempted(r.steps) == Plan(op, scenario, registry))
  {
    TargetsAreWalk(Performer(op, env), op, scenario, registry, n);
    PerformerAnnounces(op, env);
    PlanIsPlanned(op, scenario, registry);
    WalkAttempts(Performer(op, env), op, Plan(op, scenario, registry), n);
  }

  /**
   * Managed fan-out fail-fast: it throws exactly when some planned deployment's
   * perform throws after every earlier entry completed normally.
   */
  lemma ManagedFailFast(op: Op, scenario: Scenario, registry: Registry, env: Env, n: nat)
    ensures TargetsRun(Performer(op, env), scenario, registry, n).outcome == Err
        <==> exists k :: StopsAt(Performer(op, env), Plan(op, scenario, registry), n, k)
  {
    TargetsAreWalk(Performer(op, env), op, scenario, registry, n);
    WalkFailsIffStops(Performer(op, env), Plan(op, scenario, registry), n);
  }

  /** The nested loops stop where the walk over the plan stops, for any announcing operation. */
  lemma TargetsStop(perform: Operation, op: Op, scenario: Scenario, registry: Registry, n: nat, k: int)
    requires Announces(perform, op)
    requires StopsAt(perform, Plan(op, scenario, registry), n, k)
    ensures var plan := Plan(op, scenario, registry);
      var r := TargetsRun(perform, scenario, registry, n);
      var p := WalkRun(perform, plan[..k], n);
      && IsDispatchOf(op, plan[k])
      && r.outcome == Err
      && r.steps == p.steps + StepRun(perform, plan[k], n + |p.steps|).steps
      && Attempted(r.steps) == plan[..k + 1]
  {
    TargetsAreWalk(perform, op, scenario, registry, n);
    PlanIsPlanned(op, scenario, registry);
    WalkStop(perform, op, Plan(op, scenario, registry), n, k);
  }

  /**
   * When the managed fan-out stops at planned entry k, that entry is a
   * deployment's event, the trace ends with that deployment's own perform, and
   * the fan-out attempted the plan up to and including it and nothing after it.
   */
  lemma ManagedStop(op: Op, scenario: Scenario, registry: Registry, env: Env, n: nat, k: int)
    requires StopsAt(Performer(op, env), Plan(op, scenario, registry), n, k)
    ensures var plan := Plan(op, scenario, registry);
      var r := TargetsRun(Performer(op, env), scenario, registry, n);
      var p := WalkRun(Performer(op, env), plan[..k], n);
      && IsDispatchOf(op, plan[k])
      && r.outcome == Err
      && r.steps == p.steps + StepRun(Performer(op, env), plan[k], n + |p.steps|).steps
      && Attempted(r.steps) == plan[..k + 1]
  {
    PerformerAnnounces(op, env);
    TargetsStop(Performer(op, env), op, scenario, registry, n, k);
  }
}
