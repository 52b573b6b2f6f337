# A verified model of the governance barrier

The repository is a governance barrier. An arbiter decides whether a request may
run, an issuer logs the decision and signs an artifact, a boundary re-checks the
artifact and claims its nonce before the action runs, and a queue delivers jobs
through that boundary. Around it stand a policy registry with lifecycles, a mesh
of governance inputs, a compiler from rule lists to policies, quorum approval,
federation between organisations and a rate limiter. This project models those
state machines in Dafny and proves what they are for.

| file | what it models |
|---|---|
| Basics.dfy | options and results, Python's string order, `sorted` |
| ReplayChain.dfy | hash-chained frames, the in-memory log, its three checkers, anchors, reload |
| PolicyEngine.dfy | JSON values with Python's `==`, policies, approvals, `DeterministicArbiter` |
| Translator.dfy | `GovernanceRuleTranslator` |
| Mesh.dfy | `GovernanceMesh.preflight` and the evidence it logs |
| Barrier.dfy | `AuthorizationIssuer` and `ExecutionBoundary`, one call at a time |
| BarrierRuns.dfy | the barrier under arbitrary interleavings, crashes and restarts |
| DecisionRecords.dfy | `reconstruct_decisions` |
| Replicas.dfy | many `PostgresReplayLog` replicas over shared tables |
| ReplicatedBarrier.dfy | the barrier's calls over those replicas, and how they refine the barrier over one log |
| Jobs.dfy | `SQLiteJobStore` with `run_once`, `PostgresJobStore` with leases |
| Queue.dfy | workers, queue and barrier together |
| ReplicatedQueue.dfy | workers and queue over the replicated barrier |
| Worker.dfy | `WorkerRuntime` |
| Lifecycle.dfy | `VersionedPolicyRegistry` |
| SemVer.dfy | `semver_key`, `list_versions`, `latest` |
| RateLimiter.dfy | `BoundedRateLimiter` |
| Registries.dfy | `TrustStore`, `PolicyRegistry` |
| Quorum.dfy | `PolicyChangeManager` |
| Federation.dfy | `GovernanceReconciler` |

How things are rendered:

- SHA-256 over canonical JSON is a function parameter. A lemma that needs it to
  be injective, or its output not to be empty, says so in its `requires`.
  Signatures are checked by an abstract predicate on key, payload and signature.
- Clocks, nonces, signatures, handler answers and sandbox answers are
  parameters. A raised exception is a `Result`, an `Option` or an error value.
- Objects that change their fields in place are classes. Where calls can
  interleave, the same operations are cut into atomic steps of a state machine,
  and a run is any list of steps; a step that is not enabled changes nothing.
  Clients of the trust store, the policy registry and the clock may see any
  values at each step.

Two statements of the repository's own documentation do not hold as written, and
the model follows the code. README item 2 says that reloading a log reconstructs
the consumed nonces; it does so exactly when every claimed nonce has its execution
frame (`ReplayChain.ReloadRestores`, `BarrierRuns.RestartIsClean`). Otherwise an
action can run twice: after a restart an artifact that still passes the other
checks repeats exactly when it was run and its frame is missing
(`BarrierRuns.RestartRepeats`), and every executable artifact has a run from the
empty log that does so (`BarrierRuns.IssuedRunsTwice`). With a durable nonce table
it never does (`ReplicatedBarrier.ReplicatedSafety`).
The docstring at `src/governed_autonomy/mesh.py:276` says that the heaviest group
wins and priority breaks ties; in the code priority comes first, and the verdict
never depends on weights (`Mesh.WeightsIrrelevant`, `Mesh.HeavierGroupLoses`). The
winner it describes is selected exactly when that group holds every
highest-priority input (`Mesh.DocumentedWinnerSelected`). It also speaks of
conflicts over allow or deny; in the code any difference between highest-priority
decisions is one (`Mesh.ConflictExactly`).

`dafny verify dfyconfig.toml` checks the whole project.

## Model

| member | source | states |
|---|---|---|
| ReplayChain.AppendKeepsChain | src/governed_autonomy/replay.py:78-87 | appending a created frame to a valid chain gives a valid chain |
| ReplayChain.HeadBindsHistory | src/governed_autonomy/replay.py:24-28 | two valid chains have equal head hashes exactly when they are equal frame for frame |
| ReplayChain.FindFrameStable | src/governed_autonomy/replay.py:89-90 | appending never changes what a successful look-up returns |
| ReplayChain.GetFrame | src/governed_autonomy/replay.py:89-90 | the look-up loop returns the first frame with the id |
| ReplayChain.VerifyFrames | src/governed_autonomy/replay.py:177-184 | the checking loop accepts exactly the sequences in which every frame continues its predecessor |
| ReplayChain.ReplayLog.Append | src/governed_autonomy/replay.py:78-87 | the log and its file grow by the frame that continues the chain, nonces unchanged |
| ReplayChain.ReplayLog.ClaimNonce | src/governed_autonomy/replay.py:95-99 | the first claim of a nonce succeeds and every other one fails |
| ReplayChain.ReplayLog.VerifyIntegrity | src/governed_autonomy/replay.py:186-212 | the report names the least bad frame and its defect, duplicates are exactly the repeated ids in order, and duplicates reported plus distinct ids equal the frame count |
| ReplayChain.ReportOkMeaning | src/governed_autonomy/replay.py:186-212 | the report is ok exactly when the chain is valid and no id repeats |
| ReplayChain.ReplayLog.CertifyAnchor | src/governed_autonomy/replay.py:231-248 | an anchor is certified exactly when the report is ok, the signature verifies and digest, head and count match |
| ReplayChain.AnchorCertifiesOnlyItsLog | src/governed_autonomy/audit.py:95-121 | an anchor can be made exactly of a valid log with unique ids, and then certifies a later log exactly when that log is the anchored one |
| ReplayChain.LoadJsonl | src/governed_autonomy/replay.py:48-76 | loading accepts exactly the files whose lines all parse into a valid chain, restores frames and executed nonces, and names the first bad line otherwise |
| ReplayChain.CheckersAgree | src/governed_autonomy/replay.py:48-212 | `load_jsonl`, `verify_chain` and `verify_integrity` accept the same frames (loading their lines succeeds exactly when the chain is valid), and the two that locate a failure point at the same frame |
| ReplayChain.ReloadRestores | src/governed_autonomy/replay.py:48-76 | reloading what was written restores the frames, and the used nonces exactly when each has its execution frame |
| Values.PyEqSymmetric | src/governed_autonomy/policy.py:219-245 | Python's equality on JSON values, with booleans, integers and floats mixed, is symmetric |
| Values.PyEqTransitive | src/governed_autonomy/policy.py:219-245 | Python's equality on JSON values is transitive |
| Arbitration.RunDecide | src/governed_autonomy/policy.py:209-275 | the arbiter's loops compute the set of violated constraints, and a request with an unhashable action raises |
| Arbitration.CountApprovals | src/governed_autonomy/policy.py:172-207 | the counting loops return an explicit count or the number of distinct valid approver keys |
| Arbitration.AllowedMeaning | src/governed_autonomy/policy.py:209-275 | a request is allowed exactly when it is small enough, its context is an object, its action is an allowed text, each required field and context name is there, each exact value equals, each limited number is within its limit, and its quorum is met |
| Arbitration.QuorumNeedsSigners | src/governed_autonomy/policy.py:172-207 | without explicit counts, an allowed request carries approvals of the required number of distinct trusted keys, each signed over this very request |
| Translator.Translate | src/governed_autonomy/governance.py:122-174 | the merging and building loops compute the translation function, including its errors |
| Translator.TranslationSucceeds | src/governed_autonomy/governance.py:122-174 | translation succeeds exactly when rules are given, the policy id is set and no action or required name is empty |
| Translator.AllowsMeaning | src/governed_autonomy/policy.py:209-275 | the arbiter allows a request under a built policy exactly when it meets the policy's constraints one by one |
| Translator.TranslationMeaning | src/governed_autonomy/governance.py:122-174 | a request meets every rule exactly when the translated policy allows it and the rules do not clash over its action |
| Translator.OrderIrrelevant | src/governed_autonomy/governance.py:122-174 | without clashes, reordering a list of rules that translates gives one that translates and allows the same requests |
| Translator.ClashIsOverwritten | src/governed_autonomy/governance.py:133-140 | with a clash the later value wins, so the policy allows a request that breaks the earlier rule |
| Mesh.Preflight | src/governed_autonomy/mesh.py:319-416 | grouping, conflict and ranking loops compute the simple rule: the highest-priority inputs decide if they agree |
| Mesh.AllowMeaning | src/governed_autonomy/mesh.py:333-393 | allowed exactly when all highest-priority inputs share one decision and it allows |
| Mesh.ConflictsMatchStatus | src/governed_autonomy/mesh.py:333-393 | conflicts are reported exactly when the status is conflict |
| Mesh.SelectedIncludesTop | src/governed_autonomy/mesh.py:333-393 | a settled preflight selects every highest-priority source |
| Mesh.RankWinner | src/governed_autonomy/mesh.py:355-366 | the loops return a group of the inputs that holds a highest-priority input, and no group ranks before it by priority, weight and digest |
| Mesh.WinnerHoldsTop | src/governed_autonomy/mesh.py:355-366 | the ranked winner always contains a highest-priority input |
| Mesh.PreflightForgetsOrder | src/governed_autonomy/mesh.py:333-393 | verdict, sources, digest and errors are the same for every permutation of the inputs |
| Mesh.WeightsIrrelevant | src/governed_autonomy/mesh.py:355-393 | inputs that differ only in weight, metadata and signature get the same result |
| Mesh.HeavierGroupLoses | src/governed_autonomy/mesh.py:273-281 | a heavier group of lower priority loses, whatever its weight; the condition is in `DocumentedWinnerSelected` |
| Mesh.DocumentedWinnerSelected | src/governed_autonomy/mesh.py:273-281 | a winner by weight and then priority, as documented, is selected exactly when its group holds every highest-priority input, and then it is the only such winner |
| Mesh.SelectedExactly | src/governed_autonomy/mesh.py:333-393 | a decision is selected exactly when every highest-priority input is of it, for any inputs and any decision |
| Mesh.ConflictExactly | src/governed_autonomy/mesh.py:273-281 | the status is conflict exactly when two highest-priority inputs have different decisions, over allow or anything else |
| Mesh.EvidenceRoundTrip | src/governed_autonomy/mesh.py:83-113 | well-formed inputs logged with `to_dict` are read back by `from_dict` with the same views |
| Mesh.SameViewsSameDecision | src/governed_autonomy/engine.py:163-169 | recomputing from read-back inputs without attestation gives the same preflight |
| Barrier.AuthorizationIssuer.Authorize | src/governed_autonomy/issuer.py:52-210 | the call returns what the issuing function says and appends exactly its frames, claiming nothing |
| Barrier.AuthorizationIssuer.AuthorizeCompensation | src/governed_autonomy/issuer.py:212-230 | a compensation is issued only for a nonce with an audited failed execution, and then like any request |
| Barrier.ExecutionBoundary.ValidateArtifact | src/governed_autonomy/engine.py:94-138 | the checks run in order and return the first that fails |
| Barrier.ExecutionBoundary.ValidateMeshEvidence | src/governed_autonomy/engine.py:140-172 | the checks, with the preflight recomputed by its loops, give the verdict of the evidence rule |
| Barrier.MeshEvidenceMeaning | src/governed_autonomy/engine.py:140-172 | evidence passes exactly when none is signed and none logged, or the logged inputs read back and re-derive an allowing preflight with the signed digest, for the digest of this request, on a frame whose hash is right |
| Barrier.ExecutionBoundary.Execute | src/governed_autonomy/engine.py:55-92 | a refused artifact changes nothing; an accepted one has an unused nonce, is run once, and leaves the nonce claimed and one execution frame |
| Barrier.EvidenceReconstructs | src/governed_autonomy/engine.py:140-172 | mesh evidence logged at issue time passes the boundary's reconstruction |
| Barrier.IssuedArtifactsValidate | src/governed_autonomy/issuer.py:136-210 | an artifact issued under a fresh nonce passes every check on any later log while unexpired, unclaimed, its key trusted and its policy unchanged |
| BarrierRuns.StepKeepsSafe | src/governed_autonomy/engine.py:55-92 | every atomic step keeps the chain, one authorization and one execution per nonce, and every effect and frame backed by an earlier issued authorization |
| BarrierRuns.BarrierSafety | src/governed_autonomy/engine.py:55-138 | over all runs each execution frame and effect has a strictly earlier issued authorization of exactly that artifact, and no nonce has two execution frames, even across restarts |
| BarrierRuns.DeniedNeverRuns | src/governed_autonomy/issuer.py:157-170 | a denied nonce is never run and never gets an execution frame |
| BarrierRuns.AtMostOnce | src/governed_autonomy/engine.py:55-92 | no nonce's action is run twice unless a restart happens between an action and its frame |
| BarrierRuns.RestartIsClean | src/governed_autonomy/replay.py:74-75 | in every run, a restart restores the claimed nonces exactly when each has its execution frame, and that is exactly when every call begun since the last restart that claimed a nonce has written its frame |
| BarrierRuns.RestartForgets | src/governed_autonomy/replay.py:74-75 | in any state, a call begun after a restart for an artifact that passes the other checks runs the action exactly when its nonce has no execution frame |
| BarrierRuns.RestartRepeats | src/governed_autonomy/replay.py:74-75 | after a restart in a state without repetition, such a call makes an action repeat exactly when it had been run and has no execution frame |
| BarrierRuns.RunsTwice | src/governed_autonomy/engine.py:55-92 | from any state that accepts an artifact: run it, restart before its frame, run it again, and its action has run twice |
| BarrierRuns.IssuedRunsTwice | src/governed_autonomy/engine.py:55-92 | for every executable artifact there is a run from the empty log that issues it and runs its action twice |
| BarrierRuns.UninterruptedCall | src/governed_autonomy/engine.py:55-92 | the steps of one undisturbed call do exactly what validating and executing promise |
| BarrierRuns.ArbitrationEntry | src/governed_autonomy/issuer.py:157-202 | the last frame an arbitration writes authorizes its nonce, issued exactly when an artifact is returned, with that artifact's payload |
| DecisionRecords.ReconstructDecisions | src/governed_autonomy/replay.py:127-160 | the loop builds one record per non-empty nonce from its last authorization and execution |
| DecisionRecords.RecordsAreFaithful | src/governed_autonomy/replay.py:127-160 | in every run the record of a nonce holds its one authorization and one execution, and no execution lacks an issued authorization |
| Replicas.ApplyKeepsInv | src/governed_autonomy/storage.py:237-290 | every lock, refresh, insert, commit, cache step, failing statement and crash keeps the table a chain, caches prefixes and claims exclusive |
| Replicas.ReplicaSafety | src/governed_autonomy/storage.py:186-290 | over all runs the table is one valid chain without repeated ids, every cache is a valid prefix of it, cached nonces are consumed, and a nonce is granted at most once |
| Replicas.StepsAreAtomic | src/governed_autonomy/storage.py:237-290 | every replica step is invisible, or one atomic append to the shared chain, or one claim of an unclaimed nonce |
| Replicas.TableOnlyGrows | src/governed_autonomy/storage.py:237-274 | committed frames and nonces are never lost |
| Replicas.PostgresReplayLog.Append | src/governed_autonomy/storage.py:237-274 | an append with a free id extends table and cache by the next frame, one with a taken id changes no table |
| Replicas.PostgresReplayLog.ClaimNonce | src/governed_autonomy/storage.py:276-290 | a claim succeeds exactly for a non-empty unconsumed nonce and consumes it |
| Replicas.PostgresReplayLog.VerifyChain | src/governed_autonomy/storage.py:225-226 | a replica's cache always verifies, however stale |
| Replicas.Connect | src/governed_autonomy/storage.py:160-184 | connecting succeeds exactly when the stored frames are a valid chain, and then holds the tables as its caches |
| ReplicatedBarrier.StepSimulates | src/governed_autonomy/storage.py:186-290 | every statement, commit, rollback, failure or death of every replica is one step of the barrier over the shared tables, or none, and never a reload of nonces; also a commit that took effect while its caller saw an error |
| ReplicatedBarrier.RunSimulates | src/governed_autonomy/storage.py:186-290 | every interleaved run of calls over many replicas is a run of the barrier with the same log, claimed nonces, calls and effects |
| ReplicatedBarrier.ReplicatedSafety | src/governed_autonomy/engine.py:55-92 | over all replicated runs: one valid chain, prefix caches, every execution and effect after the authorization of its artifact, and no nonce's action run twice |
| ReplicatedBarrier.UninterruptedCall | src/governed_autonomy/engine.py:55-92 | the eleven steps of an undisturbed call through a ready replica validate, claim, run once and record, as one call over the in-memory log does |
| Jobs.FindNext | src/governed_autonomy/jobs.py:105-109 | the scan finds the due row first in availability and id, or that there is none |
| Jobs.SQLiteJobStore.Enqueue | src/governed_autonomy/jobs.py:61-93 | one job per idempotency key; a known key returns its job unchanged |
| Jobs.SQLiteJobStore.Claim | src/governed_autonomy/jobs.py:104-117 | the earliest due job becomes running with one more attempt |
| Jobs.SQLiteJobStore.Fail | src/governed_autonomy/jobs.py:125-132 | a failed job is queued again while attempts are left and dead otherwise |
| Jobs.SQLiteJobStore.RunOnce | src/governed_autonomy/jobs.py:140-157 | a non-empty call settles one due job, strictly lowers the remaining attempts, leaves nothing running and compensates exactly dead jobs |
| Jobs.SQLiteJobStore.Drain | src/governed_autonomy/worker_main.py:82-95 | serving until nothing is queued ends, makes at most the remaining attempts in handler calls, and leaves every job succeeded or dead |
| Jobs.PostgresJobStore.Enqueue | src/governed_autonomy/jobs_postgres.py:66-95 | a conflicting idempotency key inserts nothing and returns the existing job |
| Jobs.PostgresJobStore.Claim | src/governed_autonomy/jobs_postgres.py:103-117 | among the rows no concurrent claim holds locked, the first queued due job or running job with an expired lease becomes running under a new lease |
| Jobs.PostgresJobStore.Complete | src/governed_autonomy/jobs_postgres.py:119-124 | only a running row succeeds |
| Jobs.PostgresJobStore.Fail | src/governed_autonomy/jobs_postgres.py:126-135 | any row is queued again or dead, whatever its status |
| Queue.StepKeepsInv | src/governed_autonomy/worker.py:200-230 | every step of workers, leases, crashes and barrier keeps each barrier call answered for by one worker or one sandbox run |
| Queue.SandboxAtMostOnce | src/governed_autonomy/worker.py:207-230 | over all runs the sandbox runs at most once per nonce and only for issued artifacts |
| Queue.SucceededMeansOneRun | src/governed_autonomy/jobs_postgres.py:103-135 | a succeeded job had exactly one sandbox run for its nonce, its own, with exit code 0; no two succeeded jobs share a nonce and no key has two jobs |
| ReplicatedQueue.StepSimulates | src/governed_autonomy/worker.py:200-230 | every step of workers and replicas is one step of the queue over one shared barrier, or none |
| ReplicatedQueue.QueueSafetyOverReplicas | src/governed_autonomy/worker.py:200-230 | what `SandboxAtMostOnce` and `SucceededMeansOneRun` say holds over every interleaving of workers and replicas |
| Worker.WorkerRuntime.Handle | src/governed_autonomy/worker.py:207-230 | no error exactly when the barrier executed the artifact and the sandbox exited with 0; a denied job never reaches the sandbox |
| Worker.WorkerRuntime.ProcessOnce | src/governed_autonomy/worker.py:200-205 | the first claimable job in availability and id is claimed and settled, all other rows stay; it succeeds exactly when the barrier ran its artifact and the sandbox exited with 0, is queued or dead otherwise; counters count it and no nonce is run twice |
| Lifecycle.ActiveMeansSelected | src/governed_autonomy/policy_registry.py:640-734 | over all runs a version is active exactly when selected, so at most one per policy is |
| Lifecycle.TerminalStates | src/governed_autonomy/policy_registry.py:659-660 | revoked stays revoked and deprecated becomes only revoked, in spite of the unconditional demotion to published |
| Lifecycle.RevisionAccounting | src/governed_autonomy/policy_registry.py:650-676 | the revision counts events plus revocations of the active version; consecutive events differ by one, or by two exactly when the later found none selected |
| Lifecycle.NoAba | src/governed_autonomy/policy_registry.py:651-655 | once an activation with an expected revision succeeded, no later one with that revision does |
| Lifecycle.SnapshotRoundTrip | src/governed_autonomy/policy_registry.py:739-792 | loading what was saved in any reachable state restores exactly that state |
| Lifecycle.GroupStates | src/governed_autonomy/policy_registry.py:777-779 | the saving loop groups the flat states by policy, losing nothing |
| Lifecycle.FlattenStates | src/governed_autonomy/policy_registry.py:752-756 | the loading loops flatten the grouped states, losing nothing |
| Lifecycle.LoadState | src/governed_autonomy/policy_registry.py:739-771 | loading fails exactly on a negative revision and otherwise restores what the snapshot holds |
| Lifecycle.VersionedPolicyRegistry.Register | src/governed_autonomy/policy_registry.py:531-549 | registering is idempotent for equal content and refused for different content |
| Lifecycle.VersionedPolicyRegistry.Publish | src/governed_autonomy/policy_registry.py:551-571 | publishing is refused for a known version or an invalid signature |
| Lifecycle.VersionedPolicyRegistry.Activate | src/governed_autonomy/policy_registry.py:624-676 | activation checks state and revision, demotes the previous version and records the event, keeping the invariant and the snapshot |
| Lifecycle.VersionedPolicyRegistry.Deprecate | src/governed_autonomy/policy_registry.py:699-716 | active and revoked versions cannot be deprecated |
| Lifecycle.VersionedPolicyRegistry.Revoke | src/governed_autonomy/policy_registry.py:718-734 | revoking the active version deselects it and moves the revision on |
| Lifecycle.VersionedPolicyRegistry.Reload | src/governed_autonomy/policy_registry.py:739-771 | rebuilding the registry over its storage never fails and gives the same registry back |
| Lifecycle.VersionedPolicyRegistry.GetActive | src/governed_autonomy/policy_registry.py:609-619 | the answer is the selected, active, verified version, and the error for an unusable active version is never raised |
| SemVer.KeyOrderIsPrecedence | src/governed_autonomy/policy_registry.py:115-126 | comparing keys is comparing precedence by section 11 of Semantic Versioning 2.0.0 |
| SemVer.KeyLePreorder | src/governed_autonomy/policy_registry.py:115-126 | the key order is total and transitive |
| SemVer.TiesAreBuilds | src/governed_autonomy/policy_registry.py:115-126 | two versions rank alike exactly when they differ at most in build metadata |
| SemVer.ListVersions | src/governed_autonomy/policy_registry.py:590-592 | the list is a permutation of the stored versions, ascending in precedence |
| SemVer.Latest | src/governed_autonomy/policy_registry.py:594-598 | the latest version is stored and no stored version ranks above it |
| RateLimiter.BoundedRateLimiter.Allow | src/governed_autonomy/deployment.py:34-47 | the pruned table answers as the whole history would and never holds more than its maximum of clients |
| RateLimiter.BoundedRateLimiter.Prune | src/governed_autonomy/deployment.py:39-41 | the comprehension keeps exactly the stamps less than a window old |
| RateLimiter.WindowBound | src/governed_autonomy/deployment.py:39-47 | any stretch of one window holds at most the limit of allowed calls per client |
| RateLimiter.FullTableRefusesNewcomers | src/governed_autonomy/deployment.py:37-38 | a full table refuses an unknown client for good |
| Trust.TrustStore.Add | src/governed_autonomy/trust.py:19-26 | a key can be added only when its id resolves to none, and no other id is affected |
| Trust.TrustStore.Revoke | src/governed_autonomy/trust.py:28-32 | a revoked id resolves to none, and no other id is affected |
| Registries.PolicyRegistry.Register | src/governed_autonomy/policy.py:296-301 | an id keeps its digest; registering another digest is refused |
| Registries.PolicyRegistry.RegisterSigned | src/governed_autonomy/policy.py:303-321 | a manifest is taken only when trusted, newer or identical, and of the registered digest |
| Registries.SignedKeepsIds | src/governed_autonomy/policy.py:303-321 | no signed registration changes the digest of a registered id |
| Registries.RegisteringKeepsManifests | src/governed_autonomy/policy.py:296-301 | an accepted registration keeps every manifest the registered policy's own exactly when it puts no other policy under a manifest's id, as it never does under an injective digest |
| Quorum.QuorumSafety | src/governed_autonomy/platform_admin.py:287-413 | over all runs an activation has a quorum of distinct keys, none the proposer's where duties are separated, each trusted when it signed the digest of exactly the registered policy; no proposal activates twice |
| Quorum.PolicyChangeManager.ProposeSigned | src/governed_autonomy/platform_admin.py:252-291 | a proposal is taken only from a trusted key, with a valid signature, under a new id |
| Quorum.PolicyChangeManager.Approve | src/governed_autonomy/platform_admin.py:293-397 | an approval is taken only for a pending proposal, from a trusted key that may approve, over this policy's digest |
| Quorum.PolicyChangeManager.Activate | src/governed_autonomy/platform_admin.py:399-413 | activation needs a valid proposal and a quorum, registers the proposed policy and closes the proposal |
| Federation.GovernanceReconciler.Reconcile | src/governed_autonomy/federation.py:214-260 | on every path what was registered keeps its digest and manifests keep matching their policies; for a snapshot whose entries sit under their own ids a normal return merges with local values winning, and an acceptable one is never refused |
| Federation.HonestIsAcceptable | src/governed_autonomy/federation.py:236-251 | a snapshot taken of a registry is acceptable exactly when every unknown policy in it is signed by a trusted key |
| Federation.LocalWins | src/governed_autonomy/federation.py:125-134 | the digest map is the local one extended by exactly the unknown ids, and the conflicts are exactly the shared ids with different digests |
| Federation.Receive | src/governed_autonomy/federation.py:137-260 | whatever envelope arrives, what is registered stays as it is; what does not parse changes nothing, and what parses and is reconciled has only been merged |
| Federation.ReconcileAgain | src/governed_autonomy/federation.py:214-260 | reconciling an honest snapshot of signed policies twice under two nonces: both calls return normally, the second imports nothing and finds the same conflicts |
| Federation.ReconcileEachOther | src/governed_autonomy/federation.py:214-260 | two organisations reconciling each other's honest snapshots of signed policies: both calls return normally, and the maps end equal exactly when the shared ids had equal digests |
| Federation.WireRoundTripFails | src/governed_autonomy/federation.py:125-151 | no snapshot built by `from_registry` parses, under an injective digest: the builder leaves the organisation out of what the parser hashes |

## Left out

- Servers, admin pages, the command line, adapters, identity providers, key-management clients, container invocation and logging are plumbing around the modelled parts.
- `SQLiteReplayLog` keeps frames and consumed nonces in tables of its own; it is covered by the same log with durable nonces and has no class here.
- Cryptography, JSON text, base64 and SQL are abstract: injective functions, a signature predicate, and atomic operations on tables.
- ReplayChain.ReplayLog.Append: memory and file grow together; in the source the frame is in memory before it is written, so a write that fails leaves the file behind, or with a last line that no longer loads.
- `_result_audit`: a completed action is recorded by one digest; the size limit and the omission reasons are not modelled.
- Arbitration.RunDecide: reports the reasons as a set, because the order and repetition of messages decide nothing.
- Barrier.AuthorizationIssuer.Authorize: an unmet mesh requirement is one error value, and the denial text assembled for the caller is not modelled.
- Barrier.ExecutionBoundary.ValidatePolicy: a TypeError raised by the arbiter is reported as a policy violation; the action is not run either way.
- Execution records in a log file that have no nonce raise a KeyError on reload and are not modelled; neither is a mesh digest that is not a string.
- The mesh's own frame id is derived from the preflight digest, so repeating one preflight on a durable log collides with the unique id there; the model shows this as an append that returns none.
- Rule strings are parsed with regular expressions; the model starts from structured rules. Overrides given beside a rule list in a source document and the description field are not modelled.
- SemVer.KeyOrderIsPrecedence: starts from versions already split by the grammar; matching a version string against it is not modelled.
- Lifecycle.VersionedPolicyRegistry.Activate: role checks on an identity are not modelled; whether digest and signature of a stored record verify is a parameter.
- The Postgres store does not bound attempts when it reclaims a job, and `fail` may reopen a succeeded job; the model keeps both behaviours, so neither a bound nor finality of `succeeded` is claimed there.
- The SQLite store returns the row of a claim regardless of the update count, so it is modelled with one consumer.
- Queue.SandboxAtMostOnce: the sandbox runs after the barrier call returned, so a run is counted from its start and may end without an exit code when the worker dies.
- Arbitration.QuorumNeedsSigners: an explicit `approval_count` or `approvals_count` in the request replaces signature counting in the code, so the statement is about requests without one.
- Federation.GovernanceReconciler.Reconcile: takes the signature and age checks of an envelope as a parameter, and the snapshot as the parsed value it carries; `Federation.WireRoundTripFails` shows which snapshots never come to be parsed.
- ReplicatedBarrier.RunSimulates: a claim that fails for other reasons than a conflict ends its call like any exception, where the source words it as a used nonce; frames of mesh preflights are written by transactions of their own, as in the source.
- RateLimiter.BoundedRateLimiter.Allow: times are real numbers; floating-point rounding is not modelled.
- Operator keys, trust change requests, worker metrics as text, compliance reports, demos and benchmarks would only add easy members.
