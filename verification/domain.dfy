/**
 * Values the deployment lifecycle controller works with: targets, containers,
 * deployment descriptions, deployments, the deployment-scoped bindings, the
 * entries of the effect trace and the environment that decides which lifecycle
 * event or capability call throws.
 */
module Domain {

  datatype Option<+T> = None | Some(value: T)

  /** Identifies an execution-environment configuration; the registry key. */
  type Target = string

  /** A live container; the model only needs its identity. */
  datatype Container = Container(name: string)

  /** Archives and descriptors are opaque; only their identity matters. */
  type Archive = string
  type Descriptor = string

  /** Opaque result of a physical archive deploy. */
  type ProtocolMetaData = nat

  /**
   * A deployment description holds exactly one of an archive or a descriptor.
   * An archive description may carry a testable archive that replaces the
   * primary archive in every physical call.
   */
  datatype Description =
    | ArchiveDescription(archive: Archive, testable: Option<Archive>)
    | DescriptorDescription(descriptor: Descriptor)

  /** A description paired with the flag that records a failed deploy. */
  datatype Deployment = Deployment(description: Description, hasDeploymentError: bool)

  /** What a physical deploy or undeploy call is given. */
  datatype Deployable = ArchiveArgument(archive: Archive) | DescriptorArgument(descriptor: Descriptor)

  /** The archive handed to the container: the testable archive when there is one. */
  function TestableOrArchive(d: Description): (a: Archive)
    requires d.ArchiveDescription?
    ensures d.testable.Some? ==> a == d.testable.value
    ensures d.testable.None? ==> a == d.archive
  {
    match d.testable
    case Some(t) => t
    case None => d.archive
  }

  /** The argument of both the physical deploy and the physical undeploy call. */
  function PhysicalArgument(d: Description): (arg: Deployable)
    ensures arg.ArchiveArgument? <==> d.ArchiveDescription?
    ensures d.ArchiveDescription? ==> arg.archive == TestableOrArchive(d)
    ensures d.DescriptorDescription? ==> arg.descriptor == d.descriptor
  {
    match d
    case ArchiveDescription(_, _) => ArchiveArgument(TestableOrArchive(d))
    case DescriptorDescription(x) => DescriptorArgument(x)
  }

  /** The deployment-scoped bindings a single deploy action sets. */
  datatype Scope = Scope(
    description: Option<Description>,
    deployment: Option<Deployment>,
    protocolMetaData: Option<ProtocolMetaData>)

  const Unbound: Scope := Scope(None, None, None)

  /**
   * One entry of the effect trace. Lookup is a registry lookup; the next two are
   * the per-deployment trigger events; Before/After entries are lifecycle events
   * (the deploy ones carry the bindings observers can read when they fire); the
   * Physical entries are calls of the container's deploy/undeploy capability.
   */
  datatype Action =
    | Lookup(target: Target)
    | DeployDeployment(container: Container, deployment: Deployment)
    | UnDeployDeployment(container: Container, deployment: Deployment)
    | BeforeDeploy(container: Container, description: Description, bindings: Scope)
    | PhysicalDeploy(container: Container, argument: Deployable)
    | AfterDeploy(container: Container, description: Description, bindings: Scope)
    | BeforeUnDeploy(container: Container, description: Description)
    | PhysicalUnDeploy(container: Container, argument: Deployable)
    | AfterUnDeploy(container: Container, description: Description)

  /** Completion of an operation: normally, or by an exception. */
  datatype Outcome = Ok | Err

  /**
   * The collaborators' behaviour. A lifecycle event (Before/After) or capability
   * call recorded at trace index i throws exactly when i is in fails; lookups
   * never throw, and a per-deployment event (DeployDeployment/UnDeployDeployment)
   * throws exactly when the deploy or undeploy action it triggers does, whatever
   * fails says about its own index. A physical deploy recorded at index i
   * returns metaData(i).
   */
  datatype Env = Env(fails: set<nat>, metaData: nat -> ProtocolMetaData)

  predicate Fails(env: Env, i: nat) {
    i in env.fails
  }
}
