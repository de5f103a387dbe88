/**
 * The single deploy and undeploy actions as functions of the environment: the
 * trace entries each produces, how it completes, and the bindings it leaves.
 * The controller's methods are proved to produce exactly these runs; the
 * lemmas below state the lifecycle promises about them.
 */
module Actions {
  import opened Domain

  /** Which single action a managed fan-out performs per deployment. */
  datatype Op = DeployOp | UnDeployOp

  /** What running one piece of the controller produces. */
  datatype Run = Run(steps: seq<Action>, outcome: Outcome, scope: Scope)

  /** The bindings made before BeforeDeploy fires: description and deployment. */
  function Bind(s: Scope, d: Deployment): (b: Scope)
    ensures b.description == Some(d.description) && b.deployment == Some(d)
    ensures b.protocolMetaData == s.protocolMetaData
  {
    s.(description := Some(d.description), deployment := Some(d))
  }

  /**
   * Deploying d on c when the trace already holds n entries and the bindings
   * are s: bind, fire BeforeDeploy, call the capability, store the returned
   * metadata for archives, fire AfterDeploy; the first exception ends it.
   */
  function DeployRun(c: Container, d: Deployment, env: Env, n: nat, s: Scope): Run {
    var desc := d.description;
    var bound := Bind(s, d);
    var before := BeforeDeploy(c, desc, bound);
    if Fails(env, n) then Run([before], Err, bound)
    else
      var call := PhysicalDeploy(c, PhysicalArgument(desc));
      if Fails(env, n + 1) then Run([before, call], Err, bound)
      else
        var stored := if desc.ArchiveDescription? then bound.(protocolMetaData := Some(env.metaData(n + 1))) else bound;
        Run([before, call, AfterDeploy(c, desc, stored)], if Fails(env, n + 2) then Err else Ok, stored)
  }

  /** An undeploy failure is swallowed only for archives of a deployment that already failed. */
  predicate Suppressed(d: Deployment) {
    d.description.ArchiveDescription? && d.hasDeploymentError
  }

  /** Undeploying d from c: fire BeforeUnDeploy, call the capability, fire AfterUnDeploy. */
  function UndeployRun(c: Container, d: Deployment, env: Env, n: nat, s: Scope): Run {
    var desc := d.description;
    var before := BeforeUnDeploy(c, desc);
    if Fails(env, n) then Run([before], Err, s)
    else
      var call := PhysicalUnDeploy(c, PhysicalArgument(desc));
      if Fails(env, n + 1) && !Suppressed(d) then Run([before, call], Err, s)
      else Run([before, call, AfterUnDeploy(c, desc)], if Fails(env, n + 2) then Err else Ok, s)
  }

  function ActionRun(op: Op, c: Container, d: Deployment, env: Env, n: nat, s: Scope): Run {
    match op
    case DeployOp => DeployRun(c, d, env, n, s)
    case UnDeployOp => UndeployRun(c, d, env, n, s)
  }

  /** Number of entries of a trace with the given constructor. */
  datatype Kind =
    | LookupKind | DeployDeploymentKind | UnDeployDeploymentKind
    | BeforeDeployKind | PhysicalDeployKind | AfterDeployKind
    | BeforeUnDeployKind | PhysicalUnDeployKind | AfterUnDeployKind

  function KindOf(a: Action): Kind {
    match a
    case Lookup(_) => LookupKind
    case DeployDeployment(_, _) => DeployDeploymentKind
    case UnDeployDeployment(_, _) => UnDeployDeploymentKind
    case BeforeDeploy(_, _, _) => BeforeDeployKind
    case PhysicalDeploy(_, _) => PhysicalDeployKind
    case AfterDeploy(_, _, _) => AfterDeployKind
    case BeforeUnDeploy(_, _) => BeforeUnDeployKind
    case PhysicalUnDeploy(_, _) => PhysicalUnDeployKind
    case AfterUnDeploy(_, _) => AfterUnDeployKind
  }

  function Count(steps: seq<Action>, k: Kind): nat {
    if steps == [] then 0
    else (if KindOf(steps[0]) == k then 1 else 0) + Count(steps[1..], k)
  }

  /** Count on the short traces a single action produces, entry by entry. */
  lemma {:induction false} CountShort(steps: seq<Action>, k: Kind)
    requires 1 <= |steps| <= 3
    ensures Count(steps, k) ==
      (if KindOf(steps[0]) == k then 1 else 0)
      + (if |steps| >= 2 && KindOf(steps[1]) == k then 1 else 0)
      + (if |steps| == 3 && KindOf(steps[2]) == k then 1 else 0)
  {
    var t := steps[1..];
    if |t| >= 1 {
      var u := t[1..];
      assert t[0] == steps[1];
      assert Count(t, k) == (if KindOf(steps[1]) == k then 1 else 0) + Count(u, k);
      if |u| == 1 {
        assert u[0] == steps[2] && u[1..] == [];
        assert Count(u, k) == (if KindOf(steps[2]) == k then 1 else 0);
      }
    }
  }

  /**
   * Deploy: BeforeDeploy fires exactly once, first, with description and
   * deployment already bound; the physical deploy is made exactly once unless
   * BeforeDeploy threw; AfterDeploy fires exactly once when both succeeded and
   * never otherwise; a successful run is BeforeDeploy, deploy, AfterDeploy.
   */
  lemma DeployProtocol(c: Container, d: Deployment, env: Env, n: nat, s: Scope)
    ensures var r := DeployRun(c, d, env, n, s);
      && r.steps != []
      && r.steps[0] == BeforeDeploy(c, d.description, Bind(s, d))
      && Count(r.steps, BeforeDeployKind) == 1
      && Count(r.steps, PhysicalDeployKind) == (if Fails(env, n) then 0 else 1)
      && Count(r.steps, AfterDeployKind) == (if Fails(env, n) || Fails(env, n + 1) then 0 else 1)
      && (r.outcome == Ok <==> !Fails(env, n) && !Fails(env, n + 1) && !Fails(env, n + 2))
      && (r.outcome == Ok ==> |r.steps| == 3 && KindOf(r.steps[1]) == PhysicalDeployKind && KindOf(r.steps[2]) == AfterDeployKind)
  {
    var r := DeployRun(c, d, env, n, s);
    CountShort(r.steps, BeforeDeployKind);
    CountShort(r.steps, PhysicalDeployKind);
    CountShort(r.steps, AfterDeployKind);
  }

  /**
   * Deploy stores the capability's return value for archives: after the
   * physical deploy at index n + 1 succeeded, the metadata binding is what it
   * returned; a descriptor deploy stores no metadata.
   */
  lemma DeployStoresMetaData(c: Container, d: Deployment, env: Env, n: nat, s: Scope)
    requires !Fails(env, n) && !Fails(env, n + 1)
    ensures var r := DeployRun(c, d, env, n, s);
      && r.steps[1] == PhysicalDeploy(c, PhysicalArgument(d.description))
      && r.scope.description == Some(d.description)
      && r.scope.deployment == Some(d)
      && (d.description.ArchiveDescription? ==> r.scope.protocolMetaData == Some(env.metaData(n + 1)))
      && (d.description.DescriptorDescription? ==> r.scope.protocolMetaData == s.protocolMetaData)
      && r.steps[2] == AfterDeploy(c, d.description, r.scope)
  {
  }

  /** Undeploy: BeforeUnDeploy fires once and first; its failure stops any physical call. */
  lemma UndeployBeforeFailure(c: Container, d: Deployment, env: Env, n: nat, s: Scope)
    requires Fails(env, n)
    ensures var r := UndeployRun(c, d, env, n, s);
      && r.outcome == Err
      && r.steps == [BeforeUnDeploy(c, d.description)]
      && Count(r.steps, PhysicalUnDeployKind) == 0
  {
  }

  /**
   * Archive undeploy failure with the deployment error flag set: the failure is
   * swallowed and AfterUnDeploy fires exactly once; the outcome then depends on
   * AfterUnDeploy's observers only.
   */
  lemma ArchiveUndeployFailureSuppressed(c: Container, d: Deployment, env: Env, n: nat, s: Scope)
    requires d.description.ArchiveDescription? && d.hasDeploymentError
    requires !Fails(env, n) && Fails(env, n + 1)
    ensures var r := UndeployRun(c, d, env, n, s);
      && Count(r.steps, AfterUnDeployKind) == 1
      && r.steps[|r.steps| - 1] == AfterUnDeploy(c, d.description)
      && (r.outcome == Ok <==> !Fails(env, n + 2))
  {
    var r := UndeployRun(c, d, env, n, s);
    CountShort(r.steps, AfterUnDeployKind);
  }

  /** Archive undeploy failure without the error flag: it propagates and AfterUnDeploy never fires. */
  lemma ArchiveUndeployFailurePropagates(c: Container, d: Deployment, env: Env, n: nat, s: Scope)
    requires d.description.ArchiveDescription? && !d.hasDeploymentError
    requires !Fails(env, n) && Fails(env, n + 1)
    ensures var r := UndeployRun(c, d, env, n, s);
      && r.outcome == Err
      && Count(r.steps, AfterUnDeployKind) == 0
      && Count(r.steps, PhysicalUnDeployKind) == 1
  {
    var r := UndeployRun(c, d, env, n, s);
    CountShort(r.steps, AfterUnDeployKind);
    CountShort(r.steps, PhysicalUnDeployKind);
  }

  /** Descriptor undeploy failure always propagates, whatever the error flag says. */
  lemma DescriptorUndeployFailurePropagates(c: Container, d: Deployment, env: Env, n: nat, s: Scope)
    requires d.description.DescriptorDescription?
    requires !Fails(env, n) && Fails(env, n + 1)
    ensures var r := UndeployRun(c, d, env, n, s);
      && r.outcome == Err
      && Count(r.steps, AfterUnDeployKind) == 0
      && r.steps == [BeforeUnDeploy(c, d.description), PhysicalUnDeploy(c, DescriptorArgument(d.description.descriptor))]
  {
    var r := UndeployRun(c, d, env, n, s);
    CountShort(r.steps, AfterUnDeployKind);
  }

  /**
   * Undeploy in general: it completes normally exactly when BeforeUnDeploy,
   * the physical call (unless suppressed) and AfterUnDeploy all succeed;
   * AfterUnDeploy fires exactly when the physical call's outcome did not
   * propagate, and the trace is then BeforeUnDeploy, the physical undeploy,
   * AfterUnDeploy, in that order; undeploy binds nothing.
   */
  lemma UndeployProtocol(c: Container, d: Deployment, env: Env, n: nat, s: Scope)
    ensures var r := UndeployRun(c, d, env, n, s);
      && r.steps[0] == BeforeUnDeploy(c, d.description)
      && Count(r.steps, BeforeUnDeployKind) == 1
      && Count(r.steps, PhysicalUnDeployKind) == (if Fails(env, n) then 0 else 1)
      && Count(r.steps, AfterUnDeployKind) == (if Fails(env, n) || (Fails(env, n + 1) && !Suppressed(d)) then 0 else 1)
      && (r.outcome == Ok <==> !Fails(env, n) && (!Fails(env, n + 1) || Suppressed(d)) && !Fails(env, n + 2))
      && (!Fails(env, n) && (!Fails(env, n + 1) || Suppressed(d)) ==>
            r.steps == [BeforeUnDeploy(c, d.description), PhysicalUnDeploy(c, PhysicalArgument(d.description)),
                        AfterUnDeploy(c, d.description)])
      && r.scope == s
  {
    var r := UndeployRun(c, d, env, n, s);
    CountShort(r.steps, BeforeUnDeployKind);
    CountShort(r.steps, PhysicalUnDeployKind);
    CountShort(r.steps, AfterUnDeployKind);
  }

  /**
   * Archive selection: every physical call of deploy and of undeploy receives
   * the testable archive when the description has one, the primary archive
   * otherwise, and the descriptor for descriptor descriptions.
   */
  lemma ArchiveSelection(c: Container, d: Deployment, env: Env, n: nat, s: Scope, i: nat)
    ensures var r := DeployRun(c, d, env, n, s);
      i < |r.steps| && r.steps[i].PhysicalDeploy? ==> r.steps[i] == PhysicalDeploy(c, PhysicalArgument(d.description))
    ensures var r := UndeployRun(c, d, env, n, s);
      i < |r.steps| && r.steps[i].PhysicalUnDeploy? ==> r.steps[i] == PhysicalUnDeploy(c, PhysicalArgument(d.description))
    ensures d.description.ArchiveDescription? && d.description.testable.Some? ==>
      PhysicalArgument(d.description) == ArchiveArgument(d.description.testable.value)
    ensures d.description.ArchiveDescription? && d.description.testable.None? ==>
      PhysicalArgument(d.description) == ArchiveArgument(d.description.archive)
  {
  }
}
