# ContainerDeployController, modelled in Dafny

This project models Arquillian's deployment lifecycle controller,
`ContainerDeployController`. The controller deploys the test deployments of a
scenario onto containers and undeploys them again. Around each physical action
it fires lifecycle events that other extensions observe. The model covers:

- **The managed fan-outs.** `deployManaged` and `undeployManaged` run
  `forEachManagedDeployment`. It walks the scenario's targets in order and
  skips a target that has no startup deployments. For every other target it
  looks the container up once, then performs an `Operation` on each startup
  deployment in list order. The first exception ends the whole walk. The
  operation fires `DeployDeployment` (or `UnDeployDeployment`).
- **The single deploy.** This is the observer of `DeployDeployment`. It binds the
  description and the deployment in the deployment scope, then fires
  `BeforeDeploy`. Next it calls the container's `deploy` capability with the
  testable archive, the archive or the descriptor. For archives it binds the
  returned `ProtocolMetaData`. Finally it fires `AfterDeploy`.
- **The single undeploy.** This is the observer of `UnDeployDeployment`. It fires
  `BeforeUnDeploy`, calls the container's `undeploy` capability, then fires
  `AfterUnDeploy`. An archive undeploy that throws an `Exception` is swallowed
  when the deployment already failed to deploy. Every other exception
  propagates.

Everything the controller does is recorded as an append-only **trace** of
`Action`s:

- registry lookups;
- the per-deployment events;
- lifecycle events, each carrying the bindings visible when it fires;
- physical capability calls.

Observers and containers are collaborators the model cannot see. They are
represented by an environment `Env`:

- a lifecycle event (`BeforeDeploy`, `AfterDeploy`, `BeforeUnDeploy`,
  `AfterUnDeploy`) or a capability call recorded at trace index `i` throws
  exactly when `i` is in `env.fails`;
- a registry lookup never throws;
- a per-deployment event (`DeployDeployment`, `UnDeployDeployment`) throws
  exactly when the deploy or undeploy action it triggers throws, whatever
  `env.fails` says about its own index;
- a physical deploy recorded at index `i` returns `env.metaData(i)`.

Exceptions are one outcome, `Err`.

The modules:

- `Domain` (domain.dfy) holds the values: descriptions, deployments, the bound
  scope, trace entries, and the archive selection `TestableOrArchive`.
- `Actions` (actions.dfy) specifies the single deploy and undeploy as functions
  `DeployRun` and `UndeployRun`. Each gives the entries it appends, its outcome
  and the bindings it leaves. The lifecycle lemmas are proved about them.
- `FanOut` (fanout.dfy) specifies the nested loops as `TargetsRun`, for any
  `Operation`. `Operation` is the interface's `perform`, seen as what it appends
  and how it completes. `Plan` lists the lookups and events the fan-out is meant
  to make. `WalkRun` is a plain reference walk over such a list. It runs each
  entry in turn and stops at the first exception. The lemmas prove three things:
  - the loops are that walk;
  - the walk attempts a prefix of the plan (the whole plan on success);
  - it throws exactly where some entry throws after all earlier ones succeeded.
- `Controller` (controller.dfy) holds the imperative code:
  - class `ContainerDeployController`, whose `trace` field the methods append to;
  - class `DeploymentContext`, whose `bindings` field holds the deployment-scoped
    producers.

  Each method is proved to produce exactly its specification function's run.
  The loops of `forEachManagedDeployment` are `while` loops with invariants.

## Model

Paths are relative to the repository root. `CDC` below is
`impl-base/src/main/java/org/jboss/arquillian/impl/client/container/ContainerDeployController.java`;
each source cell spells the path out.

| member | source | states |
|---|---|---|
| Domain.TestableOrArchive | impl-base/src/main/java/org/jboss/arquillian/impl/client/container/ContainerDeployController.java:148 | the archive handed to the container is the testable archive when there is one, and the primary archive only otherwise |
| Domain.PhysicalArgument | impl-base/src/main/java/org/jboss/arquillian/impl/client/container/ContainerDeployController.java:145-153 | the capability receives an archive exactly for archive descriptions (the testable-or-primary one) and the descriptor for descriptor descriptions |
| Actions.Bind | impl-base/src/main/java/org/jboss/arquillian/impl/client/container/ContainerDeployController.java:140-141 | after binding, the scope holds the deployment's description and the deployment; the metadata binding is untouched |
| Actions.DeployProtocol | impl-base/src/main/java/org/jboss/arquillian/impl/client/container/ContainerDeployController.java:140-155 | BeforeDeploy fires exactly once, first, with description and deployment already bound; the physical deploy happens once unless BeforeDeploy threw; AfterDeploy fires once exactly when both succeeded; deploy completes normally iff all three succeed, and then the trace is BeforeDeploy, deploy, AfterDeploy |
| Actions.DeployStoresMetaData | impl-base/src/main/java/org/jboss/arquillian/impl/client/container/ContainerDeployController.java:145-155 | after a successful physical deploy, the archive case binds exactly the capability's return value (the descriptor case binds none), the call gets the selected argument, and AfterDeploy sees those bindings |
| Actions.UndeployBeforeFailure | impl-base/src/main/java/org/jboss/arquillian/impl/client/container/ContainerDeployController.java:175 | a BeforeUnDeploy failure propagates before any physical undeploy call |
| Actions.ArchiveUndeployFailureSuppressed | impl-base/src/main/java/org/jboss/arquillian/impl/client/container/ContainerDeployController.java:177-197 | an archive undeploy failure (an `Exception`) of a deployment with a deployment error is swallowed: AfterUnDeploy fires exactly once, last, and the outcome depends only on it |
| Actions.ArchiveUndeployFailurePropagates | impl-base/src/main/java/org/jboss/arquillian/impl/client/container/ContainerDeployController.java:177-191 | an archive undeploy failure of a deployment without a deployment error propagates after one physical call, and AfterUnDeploy never fires |
| Actions.DescriptorUndeployFailurePropagates | impl-base/src/main/java/org/jboss/arquillian/impl/client/container/ContainerDeployController.java:192-197 | a descriptor undeploy failure always propagates, whatever the error flag; the trace ends at the failed call and AfterUnDeploy never fires |
| Actions.UndeployProtocol | impl-base/src/main/java/org/jboss/arquillian/impl/client/container/ContainerDeployController.java:169-199 | BeforeUnDeploy fires once and first; one physical call unless BeforeUnDeploy threw; AfterUnDeploy fires exactly when the call's outcome did not propagate, and then the trace is exactly BeforeUnDeploy, the physical undeploy, AfterUnDeploy, in that order; undeploy completes normally iff every step succeeds or only a suppressed call failed; it binds nothing |
| Actions.ArchiveSelection | impl-base/src/main/java/org/jboss/arquillian/impl/client/container/ContainerDeployController.java:145-195 | every physical deploy and undeploy call of a run receives the testable archive when present, else the primary archive, and the descriptor for descriptor descriptions |
| FanOut.DeploymentsAreWalk | impl-base/src/main/java/org/jboss/arquillian/impl/client/container/ContainerDeployController.java:220-223 | the inner loop over a target's startup deployments is the reference walk over one event per deployment, in list order |
| FanOut.GroupIsWalk | impl-base/src/main/java/org/jboss/arquillian/impl/client/container/ContainerDeployController.java:211-223 | one target's part of the loops (skip, or one lookup followed by the inner loop) is the walk over that target's part of the plan |
| FanOut.TargetsAreWalk | impl-base/src/main/java/org/jboss/arquillian/impl/client/container/ContainerDeployController.java:209-224 | the nested loops with their early skip and their fail-fast exit are the reference walk over the whole plan |
| FanOut.PlanIsPlanned | impl-base/src/main/java/org/jboss/arquillian/impl/client/container/ContainerDeployController.java:209-224 | the plan holds registry lookups and events of the fan-out's own kind only |
| FanOut.SkipEmptyTarget | impl-base/src/main/java/org/jboss/arquillian/impl/client/container/ContainerDeployController.java:211-215 | a target without startup deployments contributes no lookup and no event, and the fan-out goes on with the next target |
| FanOut.NonEmptyTarget | impl-base/src/main/java/org/jboss/arquillian/impl/client/container/ContainerDeployController.java:217-223 | a target with startup deployments contributes exactly one lookup, then one event per startup deployment in list order, each naming the container registered for that target |
| FanOut.PerformerAnnounces | impl-base/src/main/java/org/jboss/arquillian/impl/client/container/ContainerDeployController.java:85-109 | each managed operation's perform (deploy's at lines 85-88, undeploy's at lines 106-109) records exactly one fan-out entry, its own DeployDeployment (or UnDeployDeployment) event |
| FanOut.ManagedOrder | impl-base/src/main/java/org/jboss/arquillian/impl/client/container/ContainerDeployController.java:203-224 | the lookups and events a managed fan-out makes are a prefix of the plan, in scenario and list order, and the whole plan when it completes normally |
| FanOut.ManagedFailFast | impl-base/src/main/java/org/jboss/arquillian/impl/client/container/ContainerDeployController.java:220-224 | a managed fan-out throws iff some planned deployment's perform throws after every earlier entry completed normally |
| FanOut.TargetsStop | impl-base/src/main/java/org/jboss/arquillian/impl/client/container/ContainerDeployController.java:220-224 | for any operation that records its own event, the loops that stop at entry k throw, end with that deployment's perform, and attempted the plan up to k and nothing after |
| FanOut.ManagedStop | impl-base/src/main/java/org/jboss/arquillian/impl/client/container/ContainerDeployController.java:220-224 | when a managed fan-out stops at entry k, that entry is a deployment's event, the error reaches the caller, the trace ends with that perform, and no later deployment of that or any later target is attempted |
| Controller.DeploymentContext.constructor | impl-base/src/main/java/org/jboss/arquillian/impl/client/container/ContainerDeployController.java:120-127 | a deployment context starts with no description, deployment or metadata bound |
| Controller.ContainerDeployController.Deploy | impl-base/src/main/java/org/jboss/arquillian/impl/client/container/ContainerDeployController.java:130-157 | appends exactly DeployRun's entries, leaves DeployRun's bindings in the context and returns its outcome |
| Controller.ContainerDeployController.Undeploy | impl-base/src/main/java/org/jboss/arquillian/impl/client/container/ContainerDeployController.java:169-199 | appends exactly UndeployRun's entries and returns its outcome, including the suppression of archive failures |
| Controller.ContainerDeployController.Perform | impl-base/src/main/java/org/jboss/arquillian/impl/client/container/ContainerDeployController.java:85-109 | for deploy's perform (lines 85-88) and undeploy's (lines 106-109), appends the deployment's event followed by the single action run in a fresh deployment context, and returns that action's outcome |
| Controller.ContainerDeployController.ContainerFor | impl-base/src/main/java/org/jboss/arquillian/impl/client/container/ContainerDeployController.java:218 | records one lookup of the target and returns the container registered for it |
| Controller.ContainerDeployController.PerformEach | impl-base/src/main/java/org/jboss/arquillian/impl/client/container/ContainerDeployController.java:220-223 | the inner loop appends exactly DeploymentsRun's entries and returns its outcome |
| Controller.ContainerDeployController.VisitTarget | impl-base/src/main/java/org/jboss/arquillian/impl/client/container/ContainerDeployController.java:217-223 | for a target with startup deployments, appends exactly GroupRun's entries (one lookup, then the inner loop) and returns its outcome |
| Controller.ContainerDeployController.ForEachManagedDeployment | impl-base/src/main/java/org/jboss/arquillian/impl/client/container/ContainerDeployController.java:203-225 | the nested loops append exactly TargetsRun's entries for the given operation and return its outcome |
| Controller.ContainerDeployController.DeployManaged | impl-base/src/main/java/org/jboss/arquillian/impl/client/container/ContainerDeployController.java:77-90 | appends exactly the managed deploy fan-out's entries and returns its outcome, so ManagedOrder, ManagedFailFast and ManagedStop hold of it |
| Controller.ContainerDeployController.UndeployManaged | impl-base/src/main/java/org/jboss/arquillian/impl/client/container/ContainerDeployController.java:98-111 | the same for the managed undeploy fan-out |

The `Operation` interface (CDC line 236) is the type `FanOut.Operation`. The
fan-out lemmas hold for any operation that records its own event
(`FanOut.Announces`). The two anonymous operations of `deployManaged` and
`undeployManaged` are `FanOut.Performer(op, env)`, and
`Controller.ContainerDeployController.Perform` executes them.

## Left out

- Dependency injection is left out. This covers `@Inject`, `Instance.get()` and
  `Injector.inject` at CDC lines 205 and 230. The registry, the scenario and the
  operation are explicit parameters. `executeOperation` (CDC lines 227-232) only
  injects and calls, so the observers' bodies are called directly.
- Event-bus dispatch is left out. Firing an event appends it to the trace.
  Whether the event's observers throw comes from `Env`. Those observers cannot
  change the bindings. Only the controller's own `deploy` and `undeploy`
  observers of `DeployDeployment` and `UnDeployDeployment` are modelled, and
  their exception is the event's.
- The `@DeploymentScoped` context lifecycle is left out. Its creation,
  activation and teardown happen outside this file. Each perform runs its
  action in a fresh, empty `DeploymentContext`. Sharing one context between a
  deployment's deploy and its later undeploy is not modelled. Undeploy neither
  reads nor writes bindings.
- A registry lookup never fails. The registry is a total function from targets
  to containers, because a missing container is ruled out by validation before
  the fan-out (CDC line 217). The lookup is recorded as a trace entry so that
  "one lookup per non-empty target" can be stated.
- The physical transport of `DeployableContainer.deploy` and `undeploy` is left
  out. Whether a call throws and what it returns come from `Env`.
- Archive and descriptor contents are opaque strings. Containers are identified
  by name only.
- Java exception types are collapsed into the single outcome `Err`. The
  exception object itself is not carried.
- UndeployRun and ArchiveUndeployFailureSuppressed: the archive undeploy's
  catch block (CDC lines 184-190) catches `Exception` only, so a
  `java.lang.Error` from the capability still propagates even when
  `hasDeploymentError()` is true. The model has a single `Err` and suppresses
  every failure of that call when the flag is set, so it does not capture that
  an `Error` escapes the suppression.
- Who sets `Deployment.hasDeploymentError` is outside this file. The model only
  reads the flag.
- Concurrency is left out. The controller is sequential.
