/**
 * The controller itself, as a class whose methods append to the effect trace.
 * Each method is proved to produce exactly the run its specification function
 * describes (DeployRun, UndeployRun, PerformRun, TargetsRun), so the lifecycle
 * and fan-out lemmas about those functions hold of the methods.
 */
module Controller {
  import opened Domain
  import opened Actions
  import opened FanOut

  /**
   * The deployment-scoped bindings of one deployment's context: the
   * description, the deployment and the protocol metadata producers.
   */
  class DeploymentContext {
    var bindings: Scope

    /** A deployment context starts with nothing bound. */
    constructor()
      ensures bindings == Unbound
    {
      bindings := Unbound;
    }
  }

  class ContainerDeployController {
    /** The behaviour of the observers and containers the controller calls. */
    const env: Env
    /** Every event fired, registry lookup made and capability called, in order. */
    var trace: seq<Action>

    constructor(env: Env)
      ensures this.env == env && trace == []
    {
      this.env := env;
      trace := [];
    }

    /** Fires a lifecycle event; threw says whether one of its observers threw. */
    method Fire(a: Action) returns (threw: bool)
      modifies this
      ensures trace == old(trace) + [a]
      ensures threw == Fails(env, |old(trace)|)
    {
      threw := Fails(env, |trace|);
      trace := trace + [a];
    }

    /** Calls the container's deploy capability; meta is what it returns. */
    method DeployCall(c: Container, arg: Deployable) returns (threw: bool, meta: ProtocolMetaData)
      modifies this
      ensures trace == old(trace) + [PhysicalDeploy(c, arg)]
      ensures threw == Fails(env, |old(trace)|)
      ensures meta == env.metaData(|old(trace)|)
    {
      meta := env.metaData(|trace|);
      threw := Fails(env, |trace|);
      trace := trace + [PhysicalDeploy(c, arg)];
    }

    /** Calls the container's undeploy capability; threw says whether it threw. */
    method UndeployCall(c: Container, arg: Deployable) returns (threw: bool)
      modifies this
      ensures trace == old(trace) + [PhysicalUnDeploy(c, arg)]
      ensures threw == Fails(env, |old(trace)|)
    {
      threw := Fails(env, |trace|);
      trace := trace + [PhysicalUnDeploy(c, arg)];
    }

    /**
     * The observer of DeployDeployment: bind description and deployment in the
     * deployment's context, fire BeforeDeploy, deploy the testable archive (or
     * the archive, or the descriptor), bind the returned metadata for archives,
     * fire AfterDeploy. The first exception ends it.
     */
    method Deploy(c: Container, d: Deployment, ctx: DeploymentContext) returns (outcome: Outcome)
      modifies this, ctx
      ensures var r := DeployRun(c, d, env, |old(trace)|, old(ctx.bindings));
        && trace == old(trace) + r.steps
        && ctx.bindings == r.scope
        && outcome == r.outcome
    {
      var desc := d.description;
      ctx.bindings := ctx.bindings.(description := Some(desc));
      ctx.bindings := ctx.bindings.(deployment := Some(d));
      var threw := Fire(BeforeDeploy(c, desc, ctx.bindings));
      if threw {
        return Err;
      }
      if desc.ArchiveDescription? {
        var meta;
        threw, meta := DeployCall(c, ArchiveArgument(TestableOrArchive(desc)));
        if threw {
          return Err;
        }
        ctx.bindings := ctx.bindings.(protocolMetaData := Some(meta));
      } else {
        var discarded;
        threw, discarded := DeployCall(c, DescriptorArgument(desc.descriptor));
        if threw {
          return Err;
        }
      }
      threw := Fire(AfterDeploy(c, desc, ctx.bindings));
      outcome := if threw then Err else Ok;
    }

    /**
     * The observer of UnDeployDeployment: fire BeforeUnDeploy, undeploy the
     * testable archive (or the archive, or the descriptor), fire AfterUnDeploy.
     * An archive undeploy that throws is ignored when the deployment already
     * failed to deploy; every other exception ends it. It binds nothing.
     */
    method Undeploy(c: Container, d: Deployment, ctx: DeploymentContext) returns (outcome: Outcome)
      modifies this
      ensures var r := UndeployRun(c, d, env, |old(trace)|, ctx.bindings);
        && trace == old(trace) + r.steps
        && outcome == r.outcome
    {
      var desc := d.description;
      var threw := Fire(BeforeUnDeploy(c, desc));
      if threw {
        return Err;
      }
      if desc.ArchiveDescription? {
        threw := UndeployCall(c, ArchiveArgument(TestableOrArchive(desc)));
        if threw && !d.hasDeploymentError {
          return Err;
        }
      } else {
        threw := UndeployCall(c, DescriptorArgument(desc.descriptor));
        if threw {
          return Err;
        }
      }
      threw := Fire(AfterUnDeploy(c, desc));
      outcome := if threw then Err else Ok;
    }

    /**
     * The operation of the managed fan-outs: fire the deployment's
     * DeployDeployment (or UnDeployDeployment) event, whose observer is Deploy
     * (or Undeploy) in the deployment's own, fresh context.
     */
    method Perform(op: Op, c: Container, d: Deployment) returns (outcome: Outcome)
      modifies this
      ensures var p := PerformRun(op, c, d, env, |old(trace)|);
        trace == old(trace) + p.steps && outcome == p.outcome
    {
      trace := trace + [DispatchEvent(op, c, d)];
      var ctx := new DeploymentContext();
      match op
      case DeployOp =>
        outcome := Deploy(c, d, ctx);
      case UnDeployOp =>
        outcome := Undeploy(c, d, ctx);
    }

    /** The registry lookup of a target's container. */
    method ContainerFor(registry: Registry, t: Target) returns (c: Container)
      modifies this
      ensures trace == old(trace) + [Lookup(t)]
      ensures c == registry(t)
    {
      trace := trace + [Lookup(t)];
      c := registry(t);
    }

    /**
     * The inner loop of the managed fan-out: perform the operation on each
     * deployment of ds, in list order, on the container c; the first exception
     * ends it.
     */
    method PerformEach(ghost perform: Operation, op: Op, c: Container, ds: seq<Deployment>) returns (outcome: Outcome)
      requires Realizes(perform, op, env)
      modifies this
      ensures var r := DeploymentsRun(perform, c, ds, |old(trace)|);
        trace == old(trace) + r.steps && outcome == r.outcome
    {
      ghost var done: seq<Action> := [];
      var j := 0;
      while j < |ds|
        invariant 0 <= j <= |ds|
        invariant trace == old(trace) + done
        invariant DeploymentsRun(perform, c, ds, |old(trace)|)
          == Then(done, DeploymentsRun(perform, c, ds[j..], |trace|))
      {
        ghost var k := |trace|;
        outcome := Perform(op, c, ds[j]);
        ghost var p := perform(c, ds[j], k);
        EachStep(perform, c, ds, j, |old(trace)|, done, k, |trace|);
        AppendAssoc(old(trace), done, p.steps);
        if outcome == Err {
          return;
        }
        done := done + p.steps;
        j := j + 1;
      }
      EachDone(perform, c, ds, |trace|);
      outcome := Ok;
    }

    /**
     * One target of the managed fan-out that has startup deployments: look its
     * container up once, then perform the operation on each of them.
     */
    method VisitTarget(ghost perform: Operation, op: Op, g: Group, registry: Registry) returns (outcome: Outcome)
      requires Realizes(perform, op, env) && g.startup != []
      modifies this
      ensures var r := GroupRun(perform, g, registry, |old(trace)|);
        trace == old(trace) + r.steps && outcome == r.outcome
    {
      var c := ContainerFor(registry, g.target);
      outcome := PerformEach(perform, op, c, g.startup);
      GroupSteps(perform, g, registry, |old(trace)|, trace, old(trace));
    }

    /**
     * The managed fan-out: for each target in scenario order, skip it when it
     * has no startup deployments, otherwise look its container up once and
     * perform the operation on each startup deployment in list order; the
     * first exception ends the whole fan-out.
     */
    method ForEachManagedDeployment(ghost perform: Operation, op: Op, scenario: Scenario, registry: Registry)
      returns (outcome: Outcome)
      requires Realizes(perform, op, env)
      modifies this
      ensures var r := TargetsRun(perform, scenario, registry, |old(trace)|);
        trace == old(trace) + r.steps && outcome == r.outcome
    {
      ghost var done: seq<Action> := [];
      var i := 0;
      while i < |scenario|
        invariant 0 <= i <= |scenario|
        invariant trace == old(trace) + done
        invariant TargetsRun(perform, scenario, registry, |old(trace)|)
          == Then(done, TargetsRun(perform, scenario[i..], registry, |trace|))
      {
        var g := scenario[i];
        ghost var m := |trace|;
        if g.startup == [] {
          SkipTarget(perform, scenario, registry, i, |old(trace)|, done, m);
          i := i + 1;
          continue;
        }
        outcome := VisitTarget(perform, op, g, registry);
        ghost var r := GroupRun(perform, g, registry, m);
        AppendAssoc(old(trace), done, r.steps);
        VisitedTarget(perform, scenario, registry, i, |old(trace)|, done, m, |trace|);
        if outcome == Err {
          return;
        }
        done := done + r.steps;
        i := i + 1;
      }
      TargetsDone(perform, scenario, registry, |trace|);
      assert done + [] == done;
      outcome := Ok;
    }

    /** deployManaged: the managed fan-out of DeployDeployment events. */
    method DeployManaged(scenario: Scenario, registry: Registry) returns (outcome: Outcome)
      modifies this
      ensures var r := TargetsRun(Performer(DeployOp, env), scenario, registry, |old(trace)|);
        trace == old(trace) + r.steps && outcome == r.outcome
    {
      PerformerRealizes(DeployOp, env);
      outcome := ForEachManagedDeployment(Performer(DeployOp, env), DeployOp, scenario, registry);
    }

    /** undeployManaged: the managed fan-out of UnDeployDeployment events. */
    method UndeployManaged(scenario: Scenario, registry: Registry) returns (outcome: Outcome)
      modifies this
      ensures var r := TargetsRun(Performer(UnDeployOp, env), scenario, registry, |old(trace)|);
        trace == old(trace) + r.steps && outcome == r.outcome
    {
      PerformerRealizes(UnDeployOp, env);
      outcome := ForEachManagedDeployment(Performer(UnDeployOp, env), UnDeployOp, scenario, registry);
    }
  }

  // ---------------------------------------------------------------------------
  // Loop steps

  /**
   * perform is the managed fan-out's operation for op: it does what PerformRun
   * says wherever that is asked.
   */
  ghost predicate Realizes(perform: Operation, op: Op, env: Env) {
    forall c: Container, d: Deployment, n: nat {:trigger PerformRun(op, c, d, env, n)} ::
      perform(c, d, n) == PerformRun(op, c, d, env, n)
  }

  lemma PerformerRealizes(op: Op, env: Env)
    ensures Realizes(Performer(op, env), op, env)
  {
  }

  /** Recording a then b then a run is recording a + b then that run. */
  lemma ThenThen(a: seq<Action>, b: seq<Action>, p: Progress)
    ensures Then(a, Then(b, p)) == Then(a + b, p)
  {
    assert a + (b + p.steps) == (a + b) + p.steps;
  }

  /** Trace concatenation regroups freely. */
  lemma AppendAssoc(a: seq<Action>, b: seq<Action>, c: seq<Action>)
    ensures a + b + c == a + (b + c)
  {
  }

  /**
   * The inner loop after deployment j's perform ran from trace length k to
   * length k2: the loop ends with it when it threw, and goes on with
   * deployment j + 1 otherwise.
   */
  lemma EachStep(perform: Operation, c: Container, ds: seq<Deployment>, j: int, n: nat, done: seq<Action>, k: nat, k2: nat)
    requires 0 <= j < |ds|
    requires DeploymentsRun(perform, c, ds, n) == Then(done, DeploymentsRun(perform, c, ds[j..], k))
    requires k2 == k + |perform(c, ds[j], k).steps|
    ensures var p := perform(c, ds[j], k);
      var t := DeploymentsRun(perform, c, ds, n);
      && (p.outcome == Err ==> t.steps == done + p.steps && t.outcome == Err)
      && (p.outcome != Err ==> t == Then(done + p.steps, DeploymentsRun(perform, c, ds[j + 1..], k2)))
  {
    var p := perform(c, ds[j], k);
    assert ds[j..][0] == ds[j] && ds[j..][1..] == ds[j + 1..];
    ThenThen(done, p.steps, DeploymentsRun(perform, c, ds[j + 1..], k2));
  }

  /** The inner loop has nothing left to do once it passed the last deployment. */
  lemma EachDone(perform: Operation, c: Container, ds: seq<Deployment>, n: nat)
    ensures DeploymentsRun(perform, c, ds[|ds|..], n) == Progress([], Ok)
  {
    assert ds[|ds|..] == [];
  }

  /**
   * A target with startup deployments: the trace after its lookup and inner
   * loop is the trace before it followed by the target's run.
   */
  lemma GroupSteps(perform: Operation, g: Group, registry: Registry, m: nat, trace: seq<Action>, before: seq<Action>)
    requires g.startup != [] && |before| == m
    requires trace == before + [Lookup(g.target)] + DeploymentsRun(perform, registry(g.target), g.startup, m + 1).steps
    ensures var r := GroupRun(perform, g, registry, m);
      trace == before + r.steps
      && r.outcome == DeploymentsRun(perform, registry(g.target), g.startup, m + 1).outcome
  {
    AppendAssoc(before, [Lookup(g.target)], DeploymentsRun(perform, registry(g.target), g.startup, m + 1).steps);
  }

  /** One turn of the outer loop, at target i. */
  lemma TargetsNext(perform: Operation, scenario: Scenario, registry: Registry, i: int, n: nat)
    requires 0 <= i < |scenario|
    ensures var r := GroupRun(perform, scenario[i], registry, n);
      TargetsRun(perform, scenario[i..], registry, n)
        == if r.outcome == Err then r
           else Then(r.steps, TargetsRun(perform, scenario[i + 1..], registry, n + |r.steps|))
  {
    TargetsStep(perform, scenario[i..], registry, n);
    assert scenario[i..][0] == scenario[i] && scenario[i..][1..] == scenario[i + 1..];
  }

  /** The outer loop moves past a target without startup deployments. */
  lemma SkipTarget(perform: Operation, scenario: Scenario, registry: Registry, i: int, n: nat, done: seq<Action>, m: nat)
    requires 0 <= i < |scenario| && scenario[i].startup == []
    requires TargetsRun(perform, scenario, registry, n) == Then(done, TargetsRun(perform, scenario[i..], registry, m))
    ensures TargetsRun(perform, scenario, registry, n) == Then(done, TargetsRun(perform, scenario[i + 1..], registry, m))
  {
    TargetsNext(perform, scenario, registry, i, m);
    ThenThen(done, [], TargetsRun(perform, scenario[i + 1..], registry, m));
    assert done + [] == done;
  }

  /**
   * The outer loop after target i ran from trace length m to length k: the
   * fan-out ends with it when it threw, and goes on with target i + 1 otherwise.
   */
  lemma VisitedTarget(perform: Operation, scenario: Scenario, registry: Registry, i: int, n: nat, done: seq<Action>, m: nat, k: nat)
    requires 0 <= i < |scenario|
    requires TargetsRun(perform, scenario, registry, n) == Then(done, TargetsRun(perform, scenario[i..], registry, m))
    requires k == m + |GroupRun(perform, scenario[i], registry, m).steps|
    ensures var r := GroupRun(perform, scenario[i], registry, m);
      var t := TargetsRun(perform, scenario, registry, n);
      && (r.outcome == Err ==> t.steps == done + r.steps && t.outcome == Err)
      && (r.outcome != Err ==> t == Then(done + r.steps, TargetsRun(perform, scenario[i + 1..], registry, k)))
  {
    var r := GroupRun(perform, scenario[i], registry, m);
    TargetsNext(perform, scenario, registry, i, m);
    ThenThen(done, r.steps, TargetsRun(perform, scenario[i + 1..], registry, k));
  }

  /** The outer loop has nothing left to do once it passed the last target. */
  lemma TargetsDone(perform: Operation, scenario: Scenario, registry: Registry, n: nat)
    ensures TargetsRun(perform, scenario[|scenario|..], registry, n) == Progress([], Ok)
  {
    assert scenario[|scenario|..] == [];
  }
}
