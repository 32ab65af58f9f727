# A verified model of the release control plane

This project models the stateful parts of a Helm release control plane and proves what
they promise: the authorization policy (compiling it, storing it, enforcing it, consuming
it from another service), the SQLite to PostgreSQL migration, the audit pipeline, login
sessions and the login limiter, cursor pagination, notification retry, and redaction of
connection strings.

`dafny verify dfyconfig.toml` checks everything.

## How it is organised

| file | part of the system |
|---|---|
| `Common.dfy`, `Lists.dfy`, `Orders.dfy`, `Words.dfy` | option and result types, list functions, total orders and sorted sets, text as words |
| `PolicyTypes.dfy`, `PolicyCompiler.dfy` | memberships, grants and preserved rules compiled into one rule list |
| `PolicyMatcher.dfy`, `PolicyAgreement.dfy` | the Casbin decision, and its agreement with the plain authorizer |
| `PolicyStore.dfy`, `CapabilityGrants.dfy` | the durable state under compare-and-swap, and concurrent grant updates |
| `PolicyEnforcer.dfy`, `EnforcerLifecycle.dfy` | loading and enforcing the rules; shutdown in every interleaving |
| `AuthorizationSnapshots.dfy`, `SnapshotProtocol.dfy` | the snapshot consumer, as a program and in every interleaving |
| `TableOrder.dfy`, `RowColumns.dfy`, `UniqueIndexes.dfy`, `RowCopy.dfy`, `ReleaseCopy.dfy`, `Backfill.dfy` | the migration: order, columns, unique indexes, copying, the release schema, data fixes |
| `AuditEmitter.dfy`, `AuditSpool.dfy`, `AuditArchiver.dfy` | the audit pipeline |
| `Sessions.dfy`, `SessionRotation.dfy`, `RateLimiter.dfy` | refresh-token families, request by request and call by call; the login limiter |
| `Cursor.dfy`, `Paging.dfy` | cursor tokens, paging under concurrent writes |
| `Notifier.dfy`, `RedactDsn.dfy` | delivery retries, redaction |

Three conventions recur. Programs that change state are classes or methods with loops,
proved against functions on values; lemmas about runs are about those functions. Protocols
with several parties are state machines over their atomic steps, and the theorems speak
about every run. Everything outside (clocks, servers, databases, files, failures, other
writers) is a parameter, so a contract holds for all of its values.

## Where the code does not do what one would expect

* A stored rule list that is empty is read as nil, and the compiled list never is nil. With
  no member and no preserved rule, which is exactly when the compiled list is empty, every
  reload writes again and a refresh applies twice. Otherwise a second reload writes nothing
  and a refresh applies once: `CompiledIsEmptyIff`, `SecondReloadApplies`,
  `RefreshThenReload`, `EmptyPolicyIsRewritten`.
* A rule added through the enforcer is dropped again by the reload that follows unless it
  is of a preserved kind or a membership asks for it: `AddedRuleStaysIff`,
  `AddedBindingIsDropped`.
* Creating an operation is decided by the role alone in the snapshot, but by role or grant
  in the plain authorizer. `SnapshotAgreesExactly` says when the two agree, and
  `GrantedViewerDisagrees` is a case where they do not.
* The producer reads the two versions of a snapshot with two queries, source before policy,
  so of two snapshots the one with the newer source can carry the older policy. When pulls
  of different actors of one scope interleave, the persisted policy version can then fall:
  `InterleavedPullsCanLowerPolicy` is such a run. It falls exactly at a save whose answer
  was compared with another checkpoint than the one it replaces, and which raises the
  source and lowers the policy (`PolicyFallsIff`). It never falls when no save comes between
  the compare and the save of another pull (`SerialisedPolicyNeverFalls`), nor would it with
  snapshots read at once (`WholeAnswersKeepPolicy`).
* The first wait after a failed pull is not capped, so all waits are within the maximum
  exactly when the interval is: `WaitsWithinMaxIff`.
* The largest 64-bit checkpoint is never usable, because its successor wraps to zero:
  `UsableIff`, `PullsConverge`.
* The topology of the copy leaves out nine foreign keys between target tables. Six have
  their parent table copied after the child: execution results to operations, prepare
  sessions to release definitions and to revisions, and image bindings, bundle aliases and
  validation outbox to bundles. The SQLite store creates only the first two of these five
  tables, so those are the ones its own databases can hold: `LateKeyIsNotRespected`,
  `LuckyKeyIsRespected`.
* Some unique indexes of the target are not in the source, or not in the same form. The
  source lets a new notification job follow one that was delivered or given up, the target
  does not. Bundle digests are not unique in the source; verification records differ in the
  source by nanoseconds and in the target by microseconds; one active operation per
  definition is an index only in the target: `TargetOnlyIndexes`, `RepeatsNamed`.
* So a source that meets its own indexes and the keys of the target is copied exactly when
  each row fits the target by itself, no two rows have the same key in one of these indexes,
  no row holds one of the late keys, no revision is read before its parent, no link row is
  also implied by an artifact's bundle, and every artifact's bundle is there:
  `ReleaseCopySucceedsIff`, with `SuccessorJobWitness`, `ExecutionResultWitness`,
  `PrepareSessionWitness`, `RevisionParentWitness`, `CollisionWitness` and
  `LostBundleWitness`.
* The fix that supersedes older approved revisions has nothing to do after a copy, because
  the target admits only one approved revision per definition: `RetireIsIdle`. A source with
  two fails earlier, in the copy: `SecondApprovedFailsTheCopy`.
* The archive loop asks for the first page again each time, so against an unchanging store
  it ends exactly when fewer events are eligible than fit in a batch: `LoopEndsIff`,
  `LoopRepeats`.
* A retry limit of zero or less means no limit, and retry times are stored in whole seconds,
  so a shorter delay is no delay. Sends are bounded exactly when a limit is set, or a
  deadline together with delays that reach a second: `SendsAreBoundedIff`,
  `UnlimitedRetries`.
* A rotation of a refresh token looks the session up, revokes the family and creates a new
  session in three store calls, and nothing keeps other requests out in between. Taken as
  one step each, requests keep at most one live session per family (`Sessions.dfy`). Call by
  call, two rotations of one token that overlap redeem it twice and leave two live sessions
  (`OverlapMakesTwo`), and a rotation under way outlives a revocation of all sessions of its
  user (`RotationOutlivesRevocation`). A second live session appears exactly when a session
  is created in a family that has one (`SecondLiveIff`, `SingleThroughoutIff`); a dead family
  comes back, a revoked user slips back in, and a redeemed token is redeemed again exactly
  when a rotation is under way (`FamilyComesBackIff`, `UserSlipsBackIff`,
  `RedeemableAgainIff`). If requests of one family do not overlap, everything holds as for
  whole requests.

## Model

| member | source | states |
|---|---|---|
| `PolicyCompiler.CompileAuthorizationRules` | internal/auth/casbin.go:466-527 | the nested loops over organizations, members, grants and current rules compute the compiled list of the roster that was read, and fail exactly when a roster read fails |
| `PolicyCompiler.CompileMember` | internal/auth/casbin.go:496-507 | one member contributes its role binding, its role's rules, and its grants in force, with capability rules named like the role skipped |
| `PolicyCompiler.CapabilityRules` | internal/auth/authorization_snapshot.go:235-268 | the capability rules of a member: those of the role, then those of the grants that are not revoked and are the member's own |
| `PolicyCompiler.DeduplicateRules` | internal/auth/casbin.go:529-540 | the loop with the seen set keeps first occurrences in order |
| `PolicyCompiler.CompiledIsFixpoint` | internal/auth/casbin.go:466-540 | for every roster, grant list and rule list, compiling the compiled list gives the identical sequence |
| `PolicyCompiler.InCompiled` | internal/auth/casbin.go:466-527 | a rule is in the compiled list exactly when a member asks for it or it was there and is preserved |
| `PolicyCompiler.CompiledByFields` | internal/auth/casbin.go:466-527 | field by field: the compiled list has exactly the role bindings of members, the rules of their roles, their unrevoked grants, and, of the earlier list, the service bindings and the permissions of anybody but the four roles, except the release permissions whose key some grant has, revoked or not |
| `PolicyCompiler.RosterHas` | internal/auth/casbin.go:476-497 | the compiled roster has exactly the members read for the listed organizations |
| `PolicyCompiler.ManagedRuleIffInForce` | internal/auth/casbin.go:509-525 | the direct release rule of a grant key is compiled exactly when a grant of that key is in force for a member, or the subject is a role that has the rule and that a member has, whatever the list held before |
| `PolicyMatcher.OneRoleDecision` | internal/auth/casbin.go:34-36 | for a subject with one role that has no role itself, the matcher decides by the rules of the subject and of that role only |
| `PolicyAgreement.AuthorizeWrite` | internal/authorization/store_authorizer.go:23-82 | the plain authorizer's outcome for every scope, membership, grant list and failure: invalid, denied, stale, or allowed with the source version |
| `PolicyAgreement.MemberDecision` | internal/auth/casbin.go:543-604 | for every object and action the compiled rules allow a member exactly what its role may do there, the release capabilities granted to it, and what a preserved direct rule says |
| `PolicyAgreement.RolePermitsIffMay` | internal/auth/casbin.go:543-604 | what each role may do, object by object and action by action, is exactly what the rules of its table grant; only a platform administrator has patterns |
| `PolicyAgreement.ActionsOfRole` | internal/auth/authorization_snapshot.go:248-268 | the capabilities of a role are those that the plain authorizer gives it, creating operations aside |
| `PolicyAgreement.ValidActions` | internal/store/store.go:923-932 | the valid actions are creating operations and the capabilities of a platform administrator |
| `PolicyAgreement.CompiledAgreesWithStore` | internal/auth/casbin.go:466-604 | for a member and each of the four emergency and values actions, the compiled rules allow exactly when the plain authorizer does or a preserved direct rule does |
| `PolicyAgreement.SnapshotAgreesExactly` | internal/authorization/module.go:369-384 | for all five actions, the exact condition under which the published snapshot and the plain authorizer agree |
| `PolicyAgreement.GrantedViewerDisagrees` | internal/authorization/module.go:369-384 | a viewer with a grant to create operations is allowed by the plain authorizer and not by the snapshot |
| `PolicyStore.WritesFollow` | internal/store/postgres/authorization.go:20-86 | whatever is written, versions never decrease, and an unchanged pair of versions means unchanged grants and rules, and a membership that at most gained organizations without members |
| `PolicyStore.WriteMeans` | internal/store/postgres/authorization.go:20-86 | a compare-and-swap changes nothing exactly when a version has moved or a key is inserted twice; otherwise each kind of change advances the versions it has to, and a change of members the source version alone |
| `PolicyStore.FlattenHas` | internal/auth/casbin.go:476-497 | a roster has exactly the members of the organizations |
| `PolicyStore.ListedOnce` | internal/store/postgres/authorization.go:130-153 | reading the grants lists every stored grant exactly once, without duplicate keys |
| `CapabilityGrants.UpsertCapabilityGrant` | internal/auth/authorization_snapshot.go:196-217 | the loop replaces the grant of the same key in place, keeping its creation time, or appends |
| `CapabilityGrants.UpsertIsMerge` | internal/auth/authorization_snapshot.go:196-217 | on a list without duplicate keys the update sets one key, keeps every other grant and leaves no duplicate |
| `CapabilityGrants.CommitIsSerial` | internal/auth/authorization_snapshot.go:155-194 | a commit applies the update to the grants, and compiles for the membership, of the very moment of the commit, although both were read in several earlier steps |
| `CapabilityGrants.CurrentCommandIsAccepted` | internal/auth/authorization_snapshot.go:155-194 | a caller whose versions are still current is never refused |
| `CapabilityGrants.AloneCommits` | internal/auth/authorization_snapshot.go:155-194 | a caller with an attempt left that nobody disturbs commits with the write after its reads unless that fails, and is told so unless the answer is lost |
| `CapabilityGrants.AttemptsAreRefusals` | internal/auth/authorization_snapshot.go:155-194 | in every run a caller has been refused as often as it counts, and gives up after three refusals or a failed call and not before |
| `CapabilityGrants.NoUpdateIsLost` | internal/auth/authorization_snapshot.go:155-194 | in every run of any number of callers beside other writers, with failing calls and lost answers and with the membership read organization by organization, the stored grants are the committed updates applied in commit order, each once; a caller committed exactly when it was told so or its answer was lost |
| `CapabilityGrants.CommitSetsOneKey` | internal/auth/authorization_snapshot.go:155-217 | a commit sets the caller's key to the caller's choice and leaves every other key as it was |
| `CapabilityGrants.CommitLeavesNoStaleRule` | internal/auth/casbin.go:509-525 | after a commit the direct release rule of a stored key is there exactly when the grant is not revoked and its subject is a member, or the subject is a role that has the rule and that a member has |
| `PolicyEnforcer.AuthorizationStore.Load` | internal/store/postgres/authorization.go:130-201 | a read of four queries between which others write returns rules of one durable state, no older than the policy version it reports |
| `PolicyEnforcer.AuthorizationStore.ReadRoster` | internal/auth/casbin.go:476-497 | the organizations are listed and then read one by one while others write; the state only moves forward, and undisturbed the roster is that of the state |
| `PolicyEnforcer.AuthorizationStore.Apply` | internal/store/postgres/authorization.go:20-86 | compare-and-swap on both versions: whoever gets a snapshot back knows that at some point of the history the command was accepted and the next state is the command applied to it; undisturbed, that is the present state |
| `PolicyEnforcer.Enforcer.Reload` | internal/auth/casbin.go:170-228 | under any writers and failures: it fails exactly when it leaves the enforcer unhealthy, keeps the old rules on failure, never lowers the reported version, and on success reports one at least as new as at the start; undisturbed, it puts the compiled rules in force with the stated number of applies |
| `PolicyEnforcer.CalmWritesMean` | internal/auth/casbin.go:180-210 | what an undisturbed reload, refresh and edit leave: members and grants as they were, one policy version more for every write, and a source version started only by the first compilation that finds something |
| `PolicyEnforcer.Enforcer.RefreshPolicies` | internal/auth/casbin.go:231-260 | the same for a refresh; undisturbed it applies once, or twice when the compiled list is empty; a failure never turns the enforcer healthy |
| `PolicyEnforcer.Enforcer.MutateRules` | internal/auth/casbin.go:289-339 | adding or removing a rule under any writers and failures: on success some state of the history was followed by the same state with the edited rules; undisturbed, what is then in force is the compilation of the edited list |
| `PolicyEnforcer.Enforcer.Edit` | internal/auth/casbin.go:316-339 | the edit without the reload: success means the edit was applied to a state that still had the rules it was computed from |
| `PolicyEnforcer.EditTouchesOneRule` | internal/auth/casbin.go:289-314 | adding appends one rule; removing drops exactly the bindings with these fields; the rest stays in order |
| `PolicyEnforcer.Enforcer.Enforce` | internal/auth/casbin.go:83-105 | a request is let through exactly when its fields are not empty, the enforcer is healthy and the rules in force allow it; those rules are of a durable state at least as new as the reported version |
| `PolicyEnforcer.CompiledIsEmptyIff` | internal/auth/casbin.go:466-527 | the compiled list is empty exactly when there is no member and no preserved rule |
| `PolicyEnforcer.SecondReloadApplies` | internal/auth/casbin.go:180-210 | without other writers a second reload issues no apply exactly when there is a member or a preserved rule |
| `PolicyEnforcer.RefreshThenReload` | internal/auth/casbin.go:240-259 | after a refresh has written, the reload inside it applies again exactly when there is no member and no preserved rule |
| `PolicyEnforcer.EmptyPolicyIsRewritten` | internal/auth/casbin.go:185-203 | with no organization and no rule each of two reloads issues an apply |
| `PolicyEnforcer.AddedRuleStaysIff` | internal/auth/casbin.go:289-300 | an added rule is in force after the reload exactly when a member asks for it or it is of a preserved kind |
| `PolicyEnforcer.AddedBindingIsDropped` | internal/auth/casbin.go:289-300 | a binding added for somebody who is neither a member nor a service is not in force after the reload |
| `PolicyEnforcer.RemovedBindingIsGoneIff` | internal/auth/casbin.go:303-314 | a removed binding is gone after the reload exactly when no membership asks for it |
| `EnforcerLifecycle.RunKeepsInv` | internal/auth/casbin.go:147-168 | lock ownership, the once guard and the state of the reloader stay consistent in every interleaving |
| `EnforcerLifecycle.RefreshAlone` | internal/auth/casbin.go:147-168 | while the enforcer is open, a refresh that nobody disturbs uses the store under the lock and leaves no trace |
| `EnforcerLifecycle.TickAlone` | internal/auth/casbin.go:355-385 | the same for the reloader at a tick |
| `EnforcerLifecycle.StartAlone` | internal/auth/casbin.go:355-385 | a starting call that nobody disturbs spawns the reloader exactly when the enforcer is open and none was started |
| `EnforcerLifecycle.QuietEverAfterClose` | internal/auth/casbin.go:355-408 | once any Close has returned, from then on no refresh uses the store, none begins to, and no reloader runs or is about to be spawned |
| `EnforcerLifecycle.CloseIsNeverStuck` | internal/auth/casbin.go:387-408 | while a Close call waits, some call that has begun, or the reloader, can take a step |
| `EnforcerLifecycle.CloseEndsWithin` | internal/auth/casbin.go:355-408 | in every run, once the closed flag is set, calls under way and the reloader take no more steps than were left then, plus ten for each call begun since |
| `AuthorizationSnapshots.UsableIff` | internal/authorization/module.go:271-336 | an answer passes exactly when it is for the actor and scope, fresh, and repeats the persisted versions, which are neither zero nor the largest |
| `AuthorizationSnapshots.StaleBecause` | internal/authorization/module.go:271-336 | why an answer is not used: it is older than what is stored, skips a version, is news, or is not fresh; unless it is older its versions are stored and it is published |
| `AuthorizationSnapshots.SaveNeverLowersSource` | internal/store/postgres/authorization.go:95-123 | the guarded save never lowers the source version, and lowers the policy version exactly when the source grows and the policy does not |
| `AuthorizationSnapshots.PullsNeverDecrease` | internal/authorization/module.go:276-336 | serialised pulls never lower the persisted checkpoint or policy version, whatever the server answers and whatever fails |
| `AuthorizationSnapshots.PullsConverge` | internal/authorization/module.go:276-336 | when the server repeats one fresh snapshot at or above the persisted versions, only the first pull can be stale; all later ones pass exactly when the version is not the largest |
| `AuthorizationSnapshots.PullMeans` | internal/authorization/module.go:222-337 | on the whole cache, one pull touches no other key and no other scope, moves the checkpoint as assessed, after a failed call waits as stated and keeps what was published, and if it passes has published the answer as it is |
| `AuthorizationSnapshots.Module.Pull` | internal/authorization/module.go:222-337 | the calls of one pull leave the cache that one pull means, and it is stale exactly when the answer is not usable |
| `AuthorizationSnapshots.BackoffIsDoubledAndCapped` | internal/authorization/module.go:339-355 | after any number of failures the wait is the interval doubled so often, cut to the maximum, except that the first wait is never cut |
| `AuthorizationSnapshots.WaitsWithinMaxIff` | internal/authorization/module.go:339-355 | all waits are within the maximum exactly when the interval is |
| `AuthorizationSnapshots.Module.MarkPullFailure` | internal/authorization/module.go:339-355 | the next wait of this key is recorded, and no other entry changes |
| `AuthorizationSnapshots.Module.AuthorizeWrite` | internal/authorization/module.go:135-219 | alone, a write is allowed exactly when the call's own snapshot request was answered with the persisted versions and grants the action; the fence is the persisted checkpoint |
| `AuthorizationSnapshots.Module.PullDue` | internal/authorization/module.go:117-132 | the background refresh is one pull for each entry whose time has come, each once, in some order, and for no other; no checkpoint falls |
| `SnapshotProtocol.RunNeverLowersSource` | internal/authorization/module.go:222-337 | in every interleaving a scope's persisted source version never decreases |
| `SnapshotProtocol.AnsweredAt` | internal/authorization/module.go:246-271 | a call counts as answered only by an answer for its own actor and scope, received while it held the lock of its key |
| `SnapshotProtocol.AllowedMeans` | internal/authorization/module.go:135-219 | in every interleaving an allowed request had its own snapshot call answered, was decided on a fresh snapshot for exactly its actor and scope that grants the action, and recorded a fence at most the checkpoint persisted before the decision |
| `SnapshotProtocol.AloneIsTheProgram` | internal/authorization/module.go:135-337 | a call that nobody disturbs ends, in at most nine steps, as the sequential program does: a request is allowed, with the source version of the answer as its fence, exactly when the answer passes and grants the action |
| `SnapshotProtocol.AnswerIsAllowed` | internal/authorization/module.go:135-219 | whatever is persisted, an answer that repeats it and grants the action is followed by a run in which the request is allowed |
| `SnapshotProtocol.UncachedRefreshDoesNothing` | internal/authorization/module.go:117-132 | a refresh of a key that is not cached changes nothing |
| `SnapshotProtocol.InterleavedPullsCanLowerPolicy` | internal/authorization/module.go:276-305 | for any two actors of one scope, a run from two requests in which both answers are reads of a growing producer and the persisted policy version falls |
| `SnapshotProtocol.PolicyFallsIff` | internal/authorization/module.go:276-305 | a step lowers a scope's policy version exactly when it saves a newer source with an older policy, and then the answer was compared with another checkpoint |
| `SnapshotProtocol.SerialisedPolicyNeverFalls` | internal/authorization/module.go:276-305 | in every run in which no save falls between the compare and the save of another pull of the scope, the policy version never falls |
| `SnapshotProtocol.WholeAnswersKeepPolicy` | internal/store/postgres/authorization.go:190-201 | with both versions read at one moment the policy version would never fall, in any interleaving |
| `TableOrder.OrderTables` | internal/migration/copy.go:67-123 | the loop with dependency sets and a sorted queue ends, and its result is a function of the set of tables alone, including the cyclic fallback |
| `TableOrder.OrderIsPermutation` | internal/migration/copy.go:67-123 | every table occurs exactly once |
| `TableOrder.RespectsIffAcyclic` | internal/migration/copy.go:67-123 | present dependencies come before their dependents exactly when the restricted graph has no cycle |
| `TableOrder.ListedForeignKeysAreRespected` | internal/migration/copy.go:37-63 | the listed foreign keys have no cycle, so every source is copied in an order that respects them |
| `TableOrder.KindsOfKeys` | migrations/000012_values_revision_management.up.sql:18-45 | every foreign key of the target schema, written down table by table from its migrations, is listed, late, in order by name, or from a revision to its parent |
| `TableOrder.ListedAreKeys` | internal/migration/copy.go:37-63 | every listed dependency is a foreign key of the target or one of the two that only order the copy |
| `TableOrder.OrderOnlyIsRespected` | internal/migration/copy.go:37-63 | bundles are copied before artifacts, and operations before preflights, in every source that has both |
| `TableOrder.LateKeyIsNotRespected` | migrations/000009_upgrade_result.up.sql:8-9 | for each of the six late keys the child table comes before the parent table in every source that has both |
| `TableOrder.LuckyKeyIsRespected` | migrations/000009_upgrade_result.up.sql:15-16 | for each of the three other unlisted keys the parent comes first in every source that has both |
| `RowCopy.CopyTable` | internal/migration/copy.go:219-298 | the row loop inserts and relocates row by row and fails exactly where an insert fails, on a key, a reference, a unique index or the row itself |
| `RowCopy.CopyTables` | internal/migration/migrate.go:103-124 | the table loop ends with the rows of the whole copy or with nothing, and with one count per table equal to its rows |
| `RowCopy.CopiedContent` | internal/migration/copy.go:219-298 | a copy that succeeds leaves exactly the seeded rows, the source rows, and for every artifact its location and, if it has a bundle, its link |
| `RowCopy.CopySucceedsIff` | internal/migration/copy.go:475-544 | for any schema, topology, keys and indexes, and any source that meets the keys, the copy succeeds exactly when every row fits by itself, no two rows of a table share a key of a unique index, no link row collides, no row references one that is copied after it, and every carried bundle is there |
| `RowCopy.TablesCopiedIff` | internal/migration/copy.go:219-298 | a copy of tables succeeds exactly when keys and references allow it, no two rows of a table share a key of a unique index, and every row fits |
| `RowCopy.RepeatedKeyFails` | internal/migration/copy.go:243-250 | two rows that share a key of a unique index make the whole copy fail, whatever else the source holds |
| `ReleaseCopy.ReleaseCopySucceedsIff` | internal/migration/copy.go:37-63 | for the registered tables, relocations and pre-seeded tables, and any source that meets its own unique indexes and the foreign keys of the target: the copy succeeds exactly when every row fits by itself, no two rows share a key of an index that only the target has, no link collides, no row holds one of the late keys, every revision is read after its parent, and every carried bundle is there |
| `ReleaseCopy.RepeatsNamed` | internal/store/sqlite/db.go:1600-1607 | in a source that meets its own indexes, two rows can share a key only in an index that the source does not have |
| `ReleaseCopy.SecondJobFailsTheCopy` | migrations/000001_legacy_baseline.up.sql:255-255 | two jobs for one operation, channel and recipient are not copied, whatever their status |
| `ReleaseCopy.SuccessorJobWitness` | internal/store/sqlite/db.go:1602-1607 | a job that was given up and its successor, which the source allows, are not copied |
| `ReleaseCopy.SecondApprovedFailsTheCopy` | migrations/000006_schema_parity.up.sql:95-97 | a source with two approved revisions of one definition is not copied |
| `UniqueIndexes.RevisionKeysMean` | migrations/000006_schema_parity.up.sql:95-100 | two revisions share a key exactly when both are approved, both pending, or of one version, within a definition |
| `UniqueIndexes.JobKeysMean` | internal/store/sqlite/db.go:1602-1607 | jobs that agree share the key of the target always, and that of the source exactly while both are active |
| `UniqueIndexes.SharedIndexesAre` | migrations/000014_operator_management.up.sql:16-31 | index by index, the unique indexes and conditions that source and target declare alike, and on which tables |
| `UniqueIndexes.OnlyTheTargetEnforces` | migrations/000001_legacy_baseline.up.sql:255-351 | the unique indexes that the target enforces and the source does not are exactly seven, on these tables |
| `UniqueIndexes.ActiveOperationKeysMean` | migrations/000001_legacy_baseline.up.sql:62-64 | operations share the key that only the target has exactly when both are active, no emergency, and of one definition |
| `RowCopy.LateParentFails` | internal/migration/copy.go:67-123 | a row that references a table copied later makes the whole copy fail |
| `ReleaseCopy.LateParentsNamed` | migrations/000007_bundle_services.up.sql:97-106 | the references to rows copied later are exactly those of the late keys and of revisions read before their parent |
| `ReleaseCopy.LateRowFailsTheCopy` | migrations/000009_upgrade_result.up.sql:8-9 | one row with a late key makes the copy fail, whatever else the source holds |
| `ReleaseCopy.ExecutionResultWitness` | migrations/000009_upgrade_result.up.sql:8-9 | a source that meets the keys and its own indexes, with one operation and its result, is not copied |
| `ReleaseCopy.PrepareSessionWitness` | migrations/000012_values_revision_management.up.sql:40-45 | the same with one release definition and a prepare session |
| `ReleaseCopy.RevisionParentWitness` | migrations/000012_values_revision_management.up.sql:21-22 | the same with two revisions, the child read first |
| `ReleaseCopy.CollisionWitness` | internal/migration/copy.go:475-544 | the same with an artifact that carries its bundle and the link row of the two |
| `ReleaseCopy.LostBundleWitness` | internal/migration/copy.go:475-544 | the same with an artifact that carries a bundle which is not there |
| `RowColumns.InsertableColumns` | internal/migration/copy.go:518-530 | exactly the columns that are not moved are kept, in order, and each gets its own position |
| `RowColumns.AppendTargetColumns` | internal/migration/copy.go:183-200 | columns the source already has are not added again, so no column is named twice |
| `RowColumns.RowArguments` | internal/migration/copy.go:258-286 | every kept column's converted value lands at that column's position, every added column gets its derived value, and the row fails exactly when a value does not convert |
| `RowColumns.PlanColumns` | internal/migration/copy.go:475-544 | every source column is inserted at its own position, relocated, or the one registered dropped column, and no target column is assigned twice; which columns are moved or derived, and in which tables, is spelled out |
| `Backfill.RetireKeepsTheNewest` | internal/migration/copy.go:607-620 | on any table, of the approved revisions of each definition exactly the newest stays approved, the others are superseded with both counters raised, and no other revision of the definition changes |
| `Backfill.RetireIsIdempotent` | internal/migration/copy.go:607-620 | on any table, running that fix again changes nothing |
| `Backfill.CopiedMeetsIndexes` | migrations/000006_schema_parity.up.sql:95-97 | whatever table the copy leaves has one approved revision per definition and no version twice |
| `Backfill.AdmitsMeans` | migrations/000012_values_revision_management.up.sql:24-26 | the three unique indexes admit a revision exactly when its id is new and no revision of its definition has its version, or is approved or pending like it |
| `Backfill.CopiedIff` | migrations/000012_values_revision_management.up.sql:24-26 | revisions are copied exactly when no id repeats and no two of one definition share a version, are both approved or both pending; then the table holds exactly them |
| `Backfill.SecondApprovedFailsTheCopy` | migrations/000006_schema_parity.up.sql:95-97 | in the copy of the revisions by themselves, a second approved revision of a definition fails |
| `Backfill.RetireIsIdle` | internal/migration/copy.go:607-620 | with one approved revision per definition the fix changes nothing |
| `Backfill.BackfillIsIdempotent` | internal/migration/copy.go:594-620 | on every table that the copy can leave, all revision fixes keep both indexes and running them again changes nothing |
| `Backfill.RaisedVersionsFitIff` | migrations/000012_values_revision_management.up.sql:24-26 | without the index on approved revisions, raising the versions row by row meets the index on versions exactly when no revision to be raised meets the next version of its definition, not yet raised |
| `Backfill.TerminalAtIsComplete` | internal/migration/copy.go:583-588 | every finished operation gets an end time, the others are unchanged, and a second run changes nothing |
| `AuditEmitter.EventsAreConserved` | internal/audit/emitter.go:69-166 | in every run the accepted events are the persisted, the batched and the queued ones, in order, and the queue respects its capacity |
| `AuditEmitter.AcceptedIsStored` | internal/audit/emitter.go:69-157 | a valid event that finds room while the worker waits gets stored, after all accepted before it, and the worker can then be shut down: with a store that answers, some steps lead there |
| `AuditEmitter.ShutdownKeepsEverything` | internal/audit/emitter.go:104-198 | after a shutdown without error every accepted event was persisted or spooled exactly once, in order, and none is accepted later |
| `AuditEmitter.FailedSpoolLoses` | internal/audit/emitter.go:168-198 | a failed spool loses exactly the events after the lines that were written |
| `AuditEmitter.Emitter.Emit` | internal/audit/emitter.go:69-98 | an event is accepted exactly when it is valid, the queue is open and has room |
| `AuditEmitter.Emitter.Flush` | internal/audit/emitter.go:128-138 | the batch is persisted, or on failure kept |
| `AuditEmitter.Emitter.DrainAndStop` | internal/audit/emitter.go:123-157 | once the queue is closed the worker drains it and stops whatever the store does, and without a spool error nothing accepted is lost |
| `AuditEmitter.Emitter.Shutdown` | internal/audit/emitter.go:104-121 | closing the queue and waiting for the worker accepts nothing more and reports no error exactly when the caller waits to the end and the spool did not fail; then all accepted events are stored or spooled, and if the caller gives up none is lost either |
| `AuditSpool.Recover` | internal/audit/spool.go:28-83 | all events of the file are in the store before the file goes away, or nothing happens; success exactly when no step fails and every line decodes |
| `AuditSpool.ReplayIsIdempotent` | internal/store/postgres/audit.go:18-59 | replaying the same events again changes nothing |
| `AuditSpool.EventsAreReplayedOnce` | internal/audit/spool.go:28-83 | however often recovery is tried, wherever it fails and whatever others store in between: nothing stored changes, the file is gone only when all its events are stored, and an attempt on events that are all stored changes nothing |
| `AuditSpool.SpooledIsRecovered` | internal/audit/spool.go:42-62 | events that were normalized when accepted come back unchanged and in order |
| `AuditArchiver.LoopEndsIff` | internal/audit/archiver.go:67-92 | against an unchanging store the loop ends exactly when fewer events are eligible than fit in a batch, and then has exported each once |
| `AuditArchiver.PageIsOldest` | internal/store/postgres/audit.go:200-212 | a page is the oldest eligible events, as many as fit, and a short one is all of them |
| `AuditArchiver.LoopRepeats` | internal/audit/archiver.go:67-92 | otherwise what is exported grows without bound and events are doubled |
| `AuditArchiver.Archiver.Archive` | internal/audit/archiver.go:43-135 | wherever a run fails, every deleted event is in an archive committed or found intact before the deletion, and no event ever inserted is lost; undisturbed, it exports and deletes exactly the eligible events, or is cancelled |
| `AuditArchiver.Archiver.VerifyExisting` | internal/audit/archiver.go:170-191 | an archive counts as existing exactly if it is there and its checksum file is complete and vouches for it |
| `AuditArchiver.Archiver.Commit` | internal/audit/archive_sink.go:44-57 | only the last of sync, rename and checksum file vouches for the archive, and nothing archived before is disturbed |
| `Sessions.AuthService.RefreshToken` | internal/auth/service.go:161-253 | the calls of the bearer path, each of which may fail, have the effect of one rotation step and return a new token exactly when the old one is redeemed |
| `Sessions.AuthService.RefreshBrowserSession` | internal/auth/browser_session.go:48-92 | the same for the browser path, which starts a new family |
| `Sessions.AuthService.IssueSession` | internal/auth/browser_session.go:177-210 | a login creates one session in a new family unless a call fails |
| `Sessions.AuthService.LogoutToken` | internal/auth/service.go:116-146 | logging out a token ends its family; an unknown token is no error |
| `Sessions.OneLiveSessionPerFamily` | internal/auth/service.go:161-253 | in every run with any failures each family has at most one live session |
| `Sessions.RequestMeans` | internal/auth/service.go:116-253 | for every request and every combination of failing calls: exactly which sessions it revokes, which one it opens under the next token, and that no other session changes |
| `Sessions.RedeemsIff` | internal/auth/service.go:221-253 | with no failing call, a token is redeemed exactly when its session is there, not revoked, not expired, and its user active |
| `Sessions.ExpiryEndsTheFamily` | internal/auth/service.go:221-253 | in every run, presenting an expired token on the bearer path ends its family for good, unless the store fails |
| `Sessions.OverChangesNothing` | internal/auth/browser_session.go:48-92 | on the browser path a revoked or expired token changes nothing |
| `Sessions.CleanupIsInvisible` | internal/store/postgres/auth_sessions.go:97-105 | deleting expired sessions removes exactly those, and never changes what can be redeemed from then on |
| `Sessions.DeadForever` | internal/auth/service.go:161-253 | a family without a live session never gets one again |
| `Sessions.RedeemedAtMostOnce` | internal/auth/browser_session.go:48-92 | every refresh token is redeemed at most once, across both paths |
| `Sessions.ReplayEndsTheFamily` | internal/auth/service.go:221-230 | in every run, presenting a revoked token on the bearer path ends its family for good, unless the store fails |
| `Sessions.RevokedUserStartsAfresh` | internal/auth/service.go:276-313 | in every run, after a revocation by user every live session of the user has a token issued later |
| `Sessions.AuthService.RevokeByUser` | internal/auth/service.go:147-157 | logout by access token revokes all sessions of the user unless the call fails |
| `Sessions.AuthService.ChangePassword` | internal/auth/service.go:276-313 | a password change that succeeds has revoked all sessions of the user, and one whose old password is wrong changes nothing |
| `SessionRotation.ThreeCallsAreOneRequest` | internal/auth/service.go:168-203 | the lookup, the revocation and the creation without interruption are the atomic request, on both paths and whichever of them fails |
| `SessionRotation.RedeemedWasLookedUp` | internal/auth/service.go:161-253 | in every interleaving a redeemed token was looked up earlier by the same request, when it was neither revoked nor expired |
| `SessionRotation.SecondLiveIff` | internal/auth/service.go:168-203 | with every store call a step of its own and any interleaving, a step gives a family a second live session exactly when it creates one in a family that has one |
| `SessionRotation.SingleThroughoutIff` | internal/auth/service.go:168-203 | in every run, families have at most one live session throughout exactly when no step creates beside a live one |
| `SessionRotation.OverForever` | internal/auth/service.go:161-253 | in every interleaving, a family that is neither live nor about to be never gets a session again |
| `SessionRotation.FamilyComesBackIff` | internal/auth/service.go:174-203 | a family without a live session can get one again exactly when a bearer rotation of it is under way |
| `SessionRotation.UserSlipsBackIff` | internal/auth/service.go:276-313 | a user without live sessions can be logged in again without a new login exactly when a bearer rotation for that user is under way |
| `SessionRotation.RedeemableAgainIff` | internal/auth/browser_session.go:48-92 | a token that was redeemed can be redeemed again exactly when another request is rotating it |
| `SessionRotation.OverlapMakesTwo` | internal/auth/service.go:168-203 | a run of two overlapping rotations that redeems one token twice and ends with two live sessions of one family |
| `SessionRotation.RotationOutlivesRevocation` | internal/auth/service.go:174-203 | a run in which all sessions of a user are revoked during a rotation, and the user ends with a live session in the old family |
| `SessionRotation.OneLiveSessionCallByCall` | internal/auth/service.go:161-203 | in every run in which requests of one family do not overlap, each family has at most one live session at every moment |
| `SessionRotation.RedeemedOnceCallByCall` | internal/auth/service.go:161-203 | in the same runs every refresh token is redeemed at most once |
| `RateLimiter.RateLimiter.Allow` | internal/auth/ratelimit.go:27-51 | the attempt is admitted exactly when fewer than the maximum are left after trimming, and is then recorded |
| `RateLimiter.RateLimiter.Cleanup` | internal/auth/ratelimit.go:54-73 | the loop drops expired entries and empty keys and nothing else |
| `RateLimiter.LimiterMatchesFullHistory` | internal/auth/ratelimit.go:27-73 | for every sequence of calls under a clock that does not go back, the trimmed limiter decides like one that keeps the full history |
| `RateLimiter.AdmissionsAreHistory` | internal/auth/ratelimit.go:27-73 | what the trimmed limiter admits in a run is, in order, what the full history records |
| `RateLimiter.AdmittedIff` | internal/auth/ratelimit.go:27-51 | after any run an attempt is admitted exactly when fewer than the maximum of the attempts of its key that were admitted lie in the window that ends now |
| `RateLimiter.NoWindowIsCrowded` | internal/auth/ratelimit.go:27-73 | no window of the configured length ever holds more attempts that the limiter admitted than the maximum |
| `Base64Url.RoundTrip` | internal/contracts/pagination.go:27-39 | decoding what was encoded gives every byte string back |
| `Base64Url.AlphabetIsStandard` | internal/contracts/pagination.go:27-39 | the digits are the URL-safe alphabet of section 5 of RFC 4648, in order |
| `Base64Url.OnlyTheAlphabet` | internal/contracts/pagination.go:34-39 | nothing outside the alphabet is a digit |
| `Base64Url.StrangersAreRefused` | internal/contracts/pagination.go:34-39 | a text with a character that is neither a digit nor a line break is refused |
| `Base64Url.LineBreaksAreSkipped` | internal/contracts/pagination.go:34-39 | line breaks may stand anywhere |
| `Decimal.Int64RoundTrip` | internal/contracts/pagination.go:26-51 | every signed 64-bit integer is parsed back from its decimal form |
| `Decimal.FormatIsPlain` | internal/contracts/pagination.go:25-28 | numbers are written without a leading zero and with a sign only if negative |
| `Decimal.PlusIsRead` | internal/contracts/pagination.go:45-51 | a plus sign is read |
| `Decimal.OutOfRangeIsRefused` | internal/contracts/pagination.go:45-51 | every number outside the signed 64-bit range is refused |
| `Cursor.CursorRoundTrip` | internal/contracts/pagination.go:25-58 | every position comes back from its token, for any time and any id, bars included |
| `Cursor.DecodeMeans` | internal/contracts/pagination.go:34-58 | each way a token is refused, and the two formats of its time |
| `Cursor.CursorIsInjective` | internal/contracts/pagination.go:25-28 | different positions have different tokens |
| `Paging.KeysetIsTotal` | internal/contracts/pagination.go:65-71 | the keyset predicate of either direction is a strict total order of the rows |
| `Paging.PagingIsExactlyOnce` | internal/contracts/pagination.go:60-88 | whatever page size is asked for and whatever is inserted or removed between the pages, the rows are strictly ordered, none twice, each was there when read, and every row present throughout is returned |
| `Paging.PagingEnds` | internal/contracts/pagination.go:60-88 | against an unchanging table there is another page exactly as long as the pages so far are too small for the table, so the client ends |
| `Notifier.DelaysGrowIff` | internal/notifier/retry.go:36-51 | successive delays never shrink exactly when the multiplier is at least 1 |
| `Notifier.WaitsGrow` | internal/notifier/retry.go:36-51 | in whole nanoseconds the waits grow and stay between the initial and the maximal backoff |
| `Notifier.SendsAreBounded` | internal/notifier/consumer.go:146-201 | with a positive limit every job is sent at most once more than the limit, even when writes fail |
| `Notifier.UnlimitedRetries` | internal/notifier/retry.go:57-68 | without a limit, and without a deadline that the stored waits would reach, a job can be sent any number of times, under clocks that do not go back |
| `Notifier.DeadlineLimitsSends` | internal/store/postgres/notifications.go:81-128 | with times stored in whole seconds, a deadline bounds the sends of a job by its seconds and the number of delays under a second |
| `Notifier.SendsAreBoundedIff` | internal/notifier/retry.go:57-68 | the sends of a job are bounded over all runs exactly when a limit is set, or a deadline and delays that reach a second |
| `Notifier.OutcomesOfDelivery` | internal/notifier/consumer.go:146-201 | in every run, what a delivery leads to by answer, deadline, limit and write failure, with the stored retry time and count; only a failed one goes on |
| `Notifier.AttemptsAreClaims` | internal/store/postgres/notifications.go:70-121 | in every run a job records as many attempts as it was claimed |
| `Notifier.Consumer.ClaimNext` | internal/store/postgres/notifications.go:70-121 | the oldest due job is claimed; no claim exactly when nothing is due |
| `Notifier.Consumer.Deliver` | internal/notifier/consumer.go:146-201 | the outcome of a delivery for every answer, deadline and write failure |
| `Notifier.Consumer.ProcessPending` | internal/notifier/consumer.go:109-129 | the loop stops at a failed claim, keeps the bound on sends and touches no finished job |
| `RedactDsn.RedactDSN` | cmd/store-migrate/main.go:107-124 | the loop ends on every string, its result contains neither scheme, and it equals a redaction word by word in one pass |
| `RedactDsn.UrlIsReplaced` | cmd/store-migrate/main.go:107-124 | a text without space, line break or quote is cut at its scheme, query and all |
| `RedactDsn.RedactedApart` | cmd/store-migrate/main.go:107-124 | what stands on the two sides of a space, line break or quote is redacted by itself |
| `RedactDsn.Redactor.RewriteRemovesScheme` | cmd/store-migrate/main.go:117-121 | each rewrite lowers the number of scheme occurrences, since none can form across the placeholder |
| `RedactDsn.Redactor.RewriteKeepsMeaning` | cmd/store-migrate/main.go:117-121 | a rewrite does not change what the one-pass redaction of the text is |
| `RedactDsn.Redactor.CleanIsUnchanged` | cmd/store-migrate/main.go:109-116 | a text without a scheme is not changed |
| `RedactDsn.RedactionCanGrow` | cmd/store-migrate/main.go:117-121 | the text can get longer, so length is no measure of the loop |

## Left out

- UpsertCapabilityGrant: times are integers with 0 for a zero time.
- NoUpdateIsLost: a new organization is listed last and has no members at first.
- LoadCompiled: a store that answers with neither a snapshot nor an error counts as a failed read.
- Enforce: errors inside the Casbin evaluator are not modelled.
- CloseIsNeverStuck: some step is possible; that there are only so many is CloseEndsWithin, and that a scheduler takes them is assumed.
- CopySucceedsIff: the values of a row are in RowArguments; here a row is its key, its references and the columns of unique indexes, and one flag says whether it converts and meets the constraints on a row by itself (types, not null, checks).
- RetireKeepsTheNewest: the update time that the statement also sets is not modelled, and ids are compared byte by byte.
- OneLiveSessionPerFamily: every request is one atomic step; SessionRotation takes the store calls one by one and says what is left. The Redis layer in front of the session store is not modelled.
- DelaysGrowIff: delays are exact reals; floating-point rounding is not modelled.
- SendsAreBounded: a job whose final write failed stays in the sending state for good, as in the program.
- SendsAreBoundedIff: for a multiplier of at least 1; a positive limit bounds the sends for every multiplier, in SendsAreBounded.
- PagingIsExactlyOnce: a row whose timestamp changes between pages counts as removed and inserted. Rows are in any total order; SQLite keeps times as text with trailing zeros cut, whose order is not everywhere that of the times in ComesBefore.
- CursorRoundTrip: times are those that fit in 64-bit nanoseconds; parsing legacy timestamps is a parameter.
- Archive: a run that finds no end is cancelled from outside after the given number of pages; gzip and JSON are replaced by the list of events and a hash without collisions.
- Recover: JSON decoding is a kind of line; normalization is a parameter.
- Validation after the copy, the report, schema migrations and opening of databases.
- Credentials, cookies, cross-site request tokens, passwords, token signing and external identity providers.
- Connect and protobuf conversion, error metadata, logging, metrics, tracing, service wiring and configuration.
- Organization, customer and binding handlers, the Kubernetes operator, Helm execution, the web console.
