# Skillplane, modelled in Dafny

This project models the parts of Skillplane whose correctness rests on an algorithm or a
protocol, and proves what they keep. `dafny verify dfyconfig.toml` checks all of it.

| files | what they model |
|---|---|
| `Sequences` | lists, multisets and a stable sort, shared by the others |
| `Locks`, `LockMeaning`, `LockValidation`, `Merging`, `Pruning`, `Resolver`, `NodeOrder`, `DependencyResolution` | the dependency resolver of skills: what a valid lock is, the memoised check of a lock, the bounded backtracking search, the children-first order of its result |
| `Closures` | the two-mode walk that splits a locked closure into execution and verification |
| `Outbox`, `OutboxInvariant`, `OutboxProperties`, `OutboxProgress`, `OutboxScenario`, `Drain`, `Placements` | the regional outbox, its workers, the global statistics checkpoint, and workspace moves by compare-and-set |
| `Visibility` | the global projection of published skills and its sequence-guarded heads |
| `Schemas`, `KeyRoots`, `KeyRemap`, `FreshKeys`, `DatabaseCopy`, `CopyProperties`, `CopyScenario` | copying a workspace's rows to another cell with fresh keys |
| `OAuthTokens`, `TokenFamilies`, `FamilyProperties` | authorization codes, rotating refresh tokens, replay and revocation |
| `Amendments` | reading the changes of a skill amendment and applying them to its files |

The conventions are the same throughout. A table is a `map` or a `seq`; an SQL statement of the
outbox, and a `BEGIN..COMMIT` block of OAuth and of the copy, is one atomic step. An object whose
methods update its fields, or a database whose statements update its tables, is a class; its
methods are proved against functions on values (`Reordered`, `Rotate`, `Deliver`, `Step`, ...), and
the theorems are about those functions and about runs of any length. Versions and ranges are an
arbitrary total preorder and an arbitrary relation; hashes are arbitrary functions. Random ids and
secrets are assumed not to repeat. A clock reading, a lock held by another transaction, a failing
effect, a worker that stops and the interleaving of workers are left to the environment, so what is
proved holds for all of them; which failures are not modelled is said at the end.

## What the models show about the code

- **An empty dependency list skips validation.** `resolveDependencies` returns the lock it starts
  from without calling `validateLock`. The result is then valid exactly when the root alone is
  within the byte limit (`DependencyResolution.ResolvedIsBest`);
  `DependencyResolution.UncheckedEmptyLock` gives a root of eleven bytes under a limit of ten.
- **A rotation that straddles the expiry outlives it.** `performRefresh` compares the clock with the
  family's expiry and `issueTokenPair` reads it again. The access token stays within the expiry plus
  one lifetime exactly when the second reading is no later than the expiry
  (`FamilyProperties.RotationLifetime`), and over a whole run the bound holds in every state exactly
  when every rotation is issued in time (`FamilyProperties.BoundedExactlyWhenPrompt`).
  `FamilyProperties.LateIssue` is a run of three operations, from empty tables, that breaks it.
- **A copy can move a reference, and verification accepts it.** A column that owns a sequence and a
  unique index is rewritten; when it references a column from which no references lead to such a
  column, that one is not. A finished copy then never keeps the reference: a row's copy references
  the copy of the row it referenced exactly when the columns of the constraint are joined alike
  (`CopyProperties.ReferencesPreserved`), which means that references lead to such a column from
  both of each two columns joined, or from neither (`CopyProperties.JoinedAlikeExactly`,
  `KeyRoots.RootedExactly`). `verifyForeignKeys` asks only whether each copy references some row of
  the workspace, so it may reject such a copy (`DatabaseCopy.VerificationFault`) or accept it with
  the reference moved to another row: `CopyScenario.MovedReference` is a finished copy of three rows
  with one moved.
- **A move rolled back before its events are drained leaves the outbox stuck.** Rolling back raises
  the epoch, and events still waiting carry the earlier one, so they no longer pass the fencing
  check. The workspace's outbox is then stuck exactly when there is an unsettled event and nobody
  holds the row of the first with a token that has passed the check already
  (`OutboxProgress.RollbackSticks`). From there no run settles anything more, as long as no token
  claims one event twice (`OutboxProgress.StuckForever`), which random tokens never do; in every
  other consistent state with an event left some run settles it
  (`OutboxProgress.ProgressUnlessStuck`). `OutboxScenario.RolledBack` is a run of four statements
  that ends stuck, and `OutboxScenario.ClaimLost` one in which a worker has passed the check but
  lost the row to another. Out of such a state, and no other stuck one, a worker could get by
  claiming with its old token again (`OutboxProgress.ProgressUnlessStranded`). Nothing is counted twice or out of order.
- **An amendment can be readable and yet not writable.** The limit on base64 is checked when a
  change carries base64, and again when the file is written, but not when a change carries text. A
  change that was read can be written exactly when it came as base64 or its text is at most six
  mebibytes (`Amendments.ReadIsWritable`); `Amendments.UnwritableText` adds a file of one byte more,
  which `parseAmendmentOperations` accepts and no base files admit.

## Model

| member | source | states |
|---|---|---|
| `LockValidation.ValidateLock` | packages/domain/src/composition.ts:64-165 | accepts a lock exactly when it is well formed, within the node, byte, fan-out and depth limits, one version per identity and none the root's, pins satisfied, aliases and ordinals unique per parent, acyclic and wholly reachable |
| `LockMeaning.ValidExactly` | packages/domain/src/composition.ts:64-165 | what a valid lock is, in the fields and positions of its rows: ids and identities differ pairwise, the sizes add up within the limit, each edge pins a node it asks for, two edges of one parent share neither alias nor ordinal, and no parent has too many |
| `LockMeaning.SelectorExactly` | packages/storage/src/composition.ts:3-7 | a selector is at most 120 characters: words of lower-case letters and digits with single hyphens between them |
| `LockMeaning.DigestExactly` | packages/domain/src/composition.ts:82-85 | a digest is sha256: and sixty-four lower-case hexadecimal digits |
| `LockValidation.CheckNodes` | packages/domain/src/composition.ts:112-126 | the loop over nodes accepts exactly when identities agree and no running total or size leaves the limits |
| `LockValidation.CheckPaths` | packages/domain/src/composition.ts:127-164 | the search from the root accepts exactly when every edge is sound, nothing reachable is on a cycle, no path is too long and everything is reached |
| `LockValidation.PathCheck.Height` | packages/domain/src/composition.ts:130-157 | a number is the length of the longest path below; a conflict means a bad edge or a cycle; no parent's edges are ever listed twice; it terminates on every lock |
| `LockValidation.PathCheck.FollowAll` | packages/domain/src/composition.ts:141-154 | the loop over one parent's edges leaves every child checked, reached and measured, and the result one more than the tallest |
| `LockValidation.Decide` | packages/domain/src/composition.ts:158-164 | the three tests after the search decide path soundness, in both directions |
| `LockValidation.FanOutConflict` | packages/domain/src/composition.ts:135-140 | comparing set sizes detects exactly a repeated alias, a repeated ordinal or too many edges |
| `Merging.EdgeKeyInjective` | packages/domain/src/composition.ts:212-218 | the joined key of an edge identifies its parent and alias when aliases have no slash |
| `Merging.MergeSucceeds` | packages/domain/src/composition.ts:205-221 | a choice can be merged exactly when rows with one version id, or with one parent and alias, are the same row |
| `Merging.MergeSorted` | packages/domain/src/composition.ts:229-235 | a merged lock lists its nodes by version id and its edges by parent and then ordinal |
| `Sequences.StrLeExactly` | packages/domain/src/composition.ts:53 | text is compared at the first difference, and a prefix comes first |
| `Sequences.SortStable` | packages/domain/src/composition.ts:229-235 | sorting keeps elements that compare equal in their order |
| `Pruning.InvalidNeverRecovers` | packages/domain/src/composition.ts:236-237 | an invalid partial lock stays invalid whatever further choices add, so pruning loses no solution |
| `Pruning.MergeAnchored` | packages/domain/src/composition.ts:203-235 | merging a choice with a valid lock of its own keeps the partial lock reachable, its rows unique and its earlier rows |
| `Resolver.SolutionPrefix` | packages/domain/src/composition.ts:197-238 | every prefix of a valid combination passes the validation made while searching |
| `Resolver.FirstExists` | packages/domain/src/composition.ts:197-245 | when some combination is valid there is a lexicographically first one |
| `Resolver.FirstUnique` | packages/domain/src/composition.ts:197-245 | and only one, so the answer does not depend on how it is found |
| `Resolver.MergeChoice` | packages/domain/src/composition.ts:205-235 | the body of the loop up to the validation yields the merged lock when the rows agree, and a conflict otherwise |
| `Resolver.Search.Try` | packages/domain/src/composition.ts:203-243 | one turn of the loop: a candidate that conflicts or leaves the lock invalid has no solution below it; otherwise the first solution with it is found, and the attempts are counted exactly |
| `Resolver.Search.Explore` | packages/domain/src/composition.ts:197-245 | the recursion returns the first valid combination below its prefix, none when there is none, and counts its attempts exactly |
| `Resolver.VisitsCount` | packages/domain/src/composition.ts:195-245 | the number of attempts, which decides the limit, is the number of viable prefixes of combinations, the empty one included, that do not come after the first valid combination; of all viable prefixes when there is none |
| `Resolver.SearchAll` | packages/domain/src/composition.ts:195-253 | the search gives the outcome that the problem determines: the first solution, no solution, or the attempt limit |
| `NodeOrder.ReorderedLists` | packages/domain/src/composition.ts:254-269 | the final list is a permutation of the nodes in which every child precedes its parents |
| `NodeOrder.RootsInOrder` | packages/domain/src/composition.ts:256-267 | what the root asks for at a lower ordinal is listed earlier, unless something the root asks for as early needs the other one |
| `NodeOrder.ReorderedValid` | packages/domain/src/composition.ts:254-269 | the reordered lock of a valid lock is valid |
| `NodeOrder.OrderNodes` | packages/domain/src/composition.ts:254-269 | the recursion that fills `seen` and `ordered` computes that list |
| `DependencyResolution.ResolveDependencies` | packages/domain/src/composition.ts:168-270 | the whole method gives the answer that declarations, candidates and limits determine, with every rejection |
| `DependencyResolution.ResolvedIsBest` | packages/domain/src/composition.ts:184-253 | a resolved lock is the merge of the best-first valid combination, children first; it is valid exactly when something was declared or the root fits |
| `DependencyResolution.DependenciesRanked` | packages/domain/src/composition.ts:54-58 | declarations are taken by order, 0 when it is left out, and then by alias |
| `DependencyResolution.CandidatesRanked` | packages/domain/src/composition.ts:184-194 | an earlier candidate of a dependency has the higher version, or one of the same precedence and no greater version id |
| `DependencyResolution.ResolvedVersionsBest` | packages/domain/src/composition.ts:184-253 | the resolved lock merges a valid combination that has the better version at the first dependency where any other valid combination differs from it |
| `DependencyResolution.UncheckedEmptyLock` | packages/domain/src/composition.ts:200 | with nothing declared an invalid lock can be returned |
| `DependencyResolution.RejectedMeansNone` | packages/domain/src/composition.ts:246-253 | within the attempt limit it fails exactly when no combination of candidates is valid |
| `DependencyResolution.PinsNeverFloat` | packages/domain/src/composition.ts:203-235 | each chosen child's rows are in the merge unchanged, and every row of the merge is one of these or the root edge of a declaration |
| `DependencyResolution.ResolvedPins` | packages/domain/src/composition.ts:203-269 | the same of the reordered result |
| `DependencyResolution.ResolvedMeets` | packages/domain/src/composition.ts:168-270 | from end to end: each declaration is pinned by its own edge from the root, at its place in the order, to a version offered for it that satisfies its range, and whose node and whole lock are in the result |
| `DependencyResolution.Deterministic` | packages/domain/src/composition.ts:54-58 | permuting declarations with unique aliases, or candidates with unique version ids, does not change the answer |
| `DependencyResolution.CandidatesCanonical` | packages/domain/src/composition.ts:187-193 | filtering and sorting candidates forgets the order in which they were listed |
| `Closures.Closure.Visit` | packages/domain/src/composition-service.ts:633-641 | the two-mode walk terminates and gives what two plain walks give, one over all edges and one over those not for verification alone, dependencies first |
| `Closures.Resolve` | packages/domain/src/composition-service.ts:631-711 | execution modules are the nodes reached without verification edges and verification modules, of all nodes, those with a verify entrypoint, each dependencies first and in the order of a plain walk along the lock's edges; the invocations are the invoking edges with both ends executed, in the order and as often as the lock lists them |
| `OutboxInvariant.StartsConsistent` | packages/control-plane/src/projection-outbox.ts:160-283 | a workspace without placement or events is consistent |
| `OutboxInvariant.StepKeeps` | packages/control-plane/src/projection-outbox.ts:160-472 | enqueue, claim, fencing check, effect, acknowledgement, release, cleanup and every step of a move keep the outbox and the statistics consistent |
| `OutboxInvariant.RunKeeps` | packages/control-plane/src/projection-outbox.ts:160-472 | so does every run, however workers interleave |
| `OutboxInvariant.EnqueueKeeps` | packages/domain/src/projection-events.ts:32-79 | allocating a sequence keeps the history increasing and every event in its row |
| `OutboxInvariant.EarliestIsNext` | packages/control-plane/src/projection-outbox.ts:203-219 | the only row that the claim statement can match is the first unsettled event |
| `OutboxInvariant.AdvanceGlobal` | packages/control-plane/src/projection-outbox.ts:389-425 | an effect that moves the checkpoint adds exactly its own event to the total |
| `OutboxInvariant.RepeatGlobal` | packages/control-plane/src/projection-outbox.ts:389-425 | a repeated or late effect, with or without its ledger entry, adds nothing |
| `OutboxInvariant.DrainedMeansSettled` | packages/control-plane/src/concrete-migration.ts:935-942 | a drained outbox means that every event ever enqueued is settled |
| `OutboxProperties.ExactlyOnceTotals` | packages/control-plane/src/projection-outbox.ts:375-435 | after any run the counters are the starting total plus the statistics events at or below the checkpoint, that is the settled ones and at most the next |
| `OutboxProperties.CountersByKind` | packages/control-plane/src/projection-outbox.ts:411-425 | after any run the uses counter is its start plus the uses among these events, and the skills counter its start plus the changes of their number |
| `OutboxProperties.CountedExactlyOnce` | packages/control-plane/src/projection-outbox.ts:375-435 | over a whole run no event is counted twice, and every settled statistics event has been counted once |
| `OutboxProperties.OnlyCountingAdds` | packages/control-plane/src/projection-outbox.ts:411-425 | no other action changes the counters |
| `OutboxProperties.RowsSettleInOrder` | packages/control-plane/src/projection-outbox.ts:152-159 | in all regions together, processed rows precede pending ones by sequence, and a claimed row precedes every other pending one |
| `OutboxProperties.OnlyTheNextIsClaimed` | packages/control-plane/src/projection-outbox.ts:200-226 | a row is claimed only as the first unsettled event, in the region that owns the workspace |
| `OutboxProperties.SequencesNeverReused` | packages/domain/src/projection-events.ts:47-70 | a newly allocated sequence is greater than all before it, whatever was cleaned up or moved |
| `OutboxProperties.LeastSequence` | packages/domain/src/projection-events.ts:47-66 | an allocated sequence is the least positive one beyond the allocator and all rows present |
| `OutboxProperties.HeldByClaimant` | packages/control-plane/src/projection-outbox.ts:220-222 | a claimed row is held with the claiming token and no other |
| `OutboxProperties.ClearedInForce` | packages/control-plane/src/projection-outbox.ts:461-472 | a copy passes the fencing check exactly when it was claimed and its region and epoch are those in force |
| `OutboxProperties.PlacementEpochRises` | packages/control-plane/src/concrete-migration.ts:1282-1348 | every placement write raises the epoch, the epoch of a move included |
| `OutboxProperties.CleanedIsDone` | packages/control-plane/src/projection-outbox.ts:293-372 | cleanup drops exactly the given rows, all processed, and the given ledger entries, none later than the checkpoint |
| `OutboxProperties.MovesDrained` | packages/control-plane/src/concrete-migration.ts:935-959 | rows are copied and a target activated only with every event settled and counted |
| `OutboxProperties.StaleEpochsFencedOut` | packages/control-plane/src/projection-outbox.ts:461-472 | once the epoch has moved on, no event of an earlier one passes the fencing check in any continuation |
| `OutboxProperties.ActivationSupersedes` | packages/control-plane/src/concrete-migration.ts:1282-1348 | activating the target, or rolling back, supersedes the epoch of every event so far |
| `OutboxProgress.ProgressUnlessStuck` | packages/control-plane/src/projection-outbox.ts:196-283 | from any consistent state with an unsettled event some run whose tokens claim no event twice settles it exactly when the outbox is not stuck: the event's epoch is in force, or its row is held in the owning region with a token that has passed the fencing check |
| `OutboxProgress.StuckForever` | packages/control-plane/src/projection-outbox.ts:461-472 | from a stuck state every run whose tokens claim no event twice leaves the outbox stuck and settles nothing |
| `OutboxProgress.RollbackSticks` | packages/control-plane/src/concrete-migration.ts:1305-1348 | rolling a move back leaves the outbox stuck exactly when an event is unsettled and nobody holds the first one past the fencing check |
| `OutboxProgress.OnlyLosingSticks` | packages/control-plane/src/projection-outbox.ts:200-283 | no other statement does, but for a claim, release or acknowledgement of a superseded event that was held past the check |
| `OutboxProgress.EnqueueExactly` | packages/domain/src/projection-events.ts:47-66 | a new event can be enqueued in a region exactly when the workspace is placed there and its cell is not fenced |
| `OutboxProgress.WritesFollowTheMove` | packages/control-plane/src/concrete-migration.ts:1282-1348 | quiescing fences the source; activation makes the target, and rolling back the source, the active region again, with its rows and unfenced |
| `OutboxScenario.ClaimLost` | packages/control-plane/src/projection-outbox.ts:200-283 | a possible run with distinct tokens in which a worker passes the check, loses the row to another, and the move is rolled back: it ends stuck |
| `OutboxProgress.ProgressUnlessStranded` | packages/control-plane/src/projection-outbox.ts:168-283 | the same when `claimToken` may repeat a token: some run settles the event exactly when its epoch is in force or some worker of the owning region has it past the check, holding the row or not |
| `OutboxProgress.StrandedForever` | packages/control-plane/src/projection-outbox.ts:461-472 | from a stranded state every run, repeated tokens or not, leaves the outbox stranded and settles nothing |
| `OutboxProgress.RollbackStrands` | packages/control-plane/src/concrete-migration.ts:1305-1348 | rolling a move back strands the outbox, even for repeated tokens, exactly when an event is unsettled and no worker of the source ever took the first one past the check |
| `OutboxProgress.OnlyRollbackStrands` | packages/control-plane/src/concrete-migration.ts:1305-1348 | no other statement strands it even for repeated tokens, but for settling the last superseded event that was in hand |
| `OutboxScenario.RolledBack` | packages/control-plane/src/concrete-migration.ts:1305-1348 | placing a workspace, recording one event, beginning a move and rolling it back is a possible run, and ends stuck and stranded |
| `OutboxScenario.LateWorker` | packages/control-plane/src/projection-outbox.ts:200-283 | such runs exist: a stalled worker's effect arrives after the event was settled and its ledger entry cleaned, the workspace moves, and the event is counted once |
| `Drain.NotClaimableTwice` | packages/control-plane/src/projection-outbox.ts:206-216 | once a row of a workspace is claimed, the workspace can be claimed again exactly when the lease is over, and then only by that row |
| `Drain.Databases.ClaimBatch` | packages/control-plane/src/projection-outbox.ts:201-234 | at most the batch size, one row a workspace, each its first unsettled event, none blocked, each unclaimed or past its lease; nothing else changes; fewer only when nothing else can be claimed |
| `Drain.Databases.Process` | packages/control-plane/src/projection-outbox.ts:437-472 | an event whose effect is reported done has passed the fencing check and been applied |
| `Drain.Databases.Acknowledge` | packages/control-plane/src/projection-outbox.ts:256-267 | succeeds exactly while the row is held, settles that event and nothing else |
| `Drain.Databases.Release` | packages/control-plane/src/projection-outbox.ts:272-277 | gives up the row exactly while it is held |
| `Drain.Databases.Settle` | packages/control-plane/src/projection-outbox.ts:254-281 | reports success only for a settled event and never leaves the row held |
| `Drain.Databases.ReturnClaims` | packages/control-plane/src/projection-outbox.ts:236-245 | no unused claim is left |
| `Drain.Databases.DrainOutbox` | packages/control-plane/src/projection-outbox.ts:160-285 | rejects exactly invalid limits; otherwise terminates, reports at most `limit` events, each processed one settled, each workspace in sequence order and silent after its failure, no claim left; stopping early without a deadline means that nothing outside failed and locked workspaces can be claimed |
| `Placements.EpochsOnlyGrow` | packages/control-plane/src/placement.ts:96-142 | no request removes a placement, and one that changes it raises its epoch |
| `Placements.OneWinnerPerEpoch` | packages/control-plane/src/placement.ts:113-141 | of any number of compare-and-sets from one epoch at most one succeeds |
| `Placements.WinnerStays` | packages/control-plane/src/placement.ts:113-141 | a placement stays until a compare-and-set names its epoch |
| `Placements.PostgresPlacementDirectory.Put` | packages/control-plane/src/placement.ts:97-112 | inserts only when absent and returns the placement in force |
| `Placements.PostgresPlacementDirectory.Replace` | packages/control-plane/src/placement.ts:113-141 | replaces exactly the row at the expected epoch and state, with each refusal |
| `Visibility.VisibleExactlyWhenLive` | packages/api/src/public-projections.ts:223-232 | under any delivery order with duplicates a version is visible exactly when it is not revoked and an accepted publish of it is later than every accepted unpublish of its skill |
| `Visibility.LatestIsShown` | packages/control-plane/src/publication.ts:114-173 | a visible version shows the document of its latest accepted publish, and its skill's head names the current version of the skill's latest delivery |
| `Visibility.ProjectionBehindHead` | packages/control-plane/src/publication.ts:114-205 | a projection's sequence never exceeds its head's |
| `Visibility.DeliveryMonotone` | packages/control-plane/src/publication.ts:126-133 | heads never go back and a stale delivery changes nothing |
| `Visibility.DeliveryIdempotent` | packages/control-plane/src/publication.ts:114-205 | delivering an event again changes nothing |
| `Visibility.UnpublishWithdraws` | packages/control-plane/src/publication.ts:175-205 | an accepted unpublish hides every projection of the skill, withdraws each of its versions at the greatest sequence so far, and leaves other skills alone |
| `Visibility.DeliverFaithful` | packages/control-plane/src/publication.ts:114-205 | each delivery keeps heads, projections and withdrawals in step with the deliveries so far |
| `Visibility.PublicProjectionDirectory.PublishVersion` | packages/control-plane/src/publication.ts:114-173 | the statement that publishes, on the head and projection tables |
| `Visibility.PublicProjectionDirectory.UnpublishSkill` | packages/control-plane/src/publication.ts:175-205 | the statement that unpublishes, on the head, projection and lifecycle tables |
| `KeyRoots.DynamicKeyRoots` | packages/control-plane/src/concrete-migration.ts:586-626 | terminates on every graph and succeeds exactly when references are acyclic and a consistent assignment of roots exists; the result is that assignment, the only one; a cycle error exhibits a cycle, a relationship error means that no assignment exists |
| `KeyRoots.KeyResolver.Resolve` | packages/control-plane/src/concrete-migration.ts:601-623 | settles the column and all it references, leaving settled roots as they were |
| `KeyRoots.OrderDoesNotMatter` | packages/control-plane/src/concrete-migration.ts:591-596 | the outcome does not depend on the order of tables, columns or constraints |
| `KeyRoots.SharedRoots` | packages/control-plane/src/concrete-migration.ts:607-619 | a column that references a rooted one has its root; every root has a sequence and a unique index and is its own root |
| `KeyRoots.RootedExactly` | packages/control-plane/src/concrete-migration.ts:601-623 | a column has a root exactly when following references from it leads to a column with a sequence and a unique index |
| `KeyRoots.NoCycle` | packages/control-plane/src/concrete-migration.ts:605 | ranked references have no cycle |
| `KeyRemap.EqualityPreserved` | packages/control-plane/src/concrete-migration.ts:728-766 | in columns sharing a root, values are equal after remapping exactly when they were before, and only nulls are null |
| `KeyRemap.PointsPreserved` | packages/control-plane/src/concrete-migration.ts:728-766 | which row a row references is unchanged, composite keys included |
| `KeyRemap.IntactPreserved` | packages/control-plane/src/concrete-migration.ts:798-833 | a constraint holds among the copies exactly when it holds among the source rows |
| `KeyRemap.BrokenExactly` | packages/control-plane/src/concrete-migration.ts:798-833 | a row keeps a constraint exactly when some parent row has all of its values, or it has a null where the constraint is simple, or only nulls where it is full |
| `FreshKeys.SequenceBoundary` | packages/control-plane/src/concrete-migration.ts:643-678 | the boundary bounds every target and incoming value and the sequence itself, in its direction; each failure names its cause |
| `FreshKeys.RestartBeyond` | packages/control-plane/src/concrete-migration.ts:629-641 | the next value lies past the boundary and within the sequence's limits; it fails only on a cycling sequence or one without room for that value |
| `FreshKeys.DrawReplacements` | packages/control-plane/src/concrete-migration.ts:712-724 | one distinct new value for each old one, all past the boundary and before the sequence's next, each one of the sequence's next values; it fails only on a repeated key, or when one value for each row leaves the sequence's limits |
| `DatabaseCopy.TargetCell.RootBoundary` | packages/control-plane/src/concrete-migration.ts:686-710 | bounds every value of every column with the root |
| `DatabaseCopy.TargetCell.ReserveKeys` | packages/control-plane/src/concrete-migration.ts:680-726 | reserves for every root keys that are injective and past all values in use |
| `DatabaseCopy.TargetCell.InsertRows` | packages/control-plane/src/concrete-migration.ts:1069-1083 | inserts exactly the remapped rows, and fails exactly when some value has no replacement or the unique and check constraints of a table refuse its rows |
| `DatabaseCopy.TargetCell.VerifyForeignKeys` | packages/control-plane/src/concrete-migration.ts:798-833 | accepts exactly when every constraint of the table holds within the workspace |
| `DatabaseCopy.ConstraintHoldsExactly` | packages/control-plane/src/concrete-migration.ts:798-833 | a constraint holds exactly when its parent table is copied too and each row of the workspace has a parent row of the workspace with all its values, or the nulls that spare it one |
| `DatabaseCopy.TargetCell.RestartSequences` | packages/control-plane/src/concrete-migration.ts:1093-1104 | leaves the next value of every sequence past everything stored in its column; it fails only when a sequence has no room left, cycles or runs against another, or a column is not numeric |
| `DatabaseCopy.TargetCell.CopyDatabase` | packages/control-plane/src/concrete-migration.ts:961-1123 | all or nothing: a complete copy, or an unchanged target and a reason in the schema, the rows or the sequences, for each of the eleven failures |
| `DatabaseCopy.AlikeExactly` | packages/control-plane/src/concrete-migration.ts:607-619 | the two columns of a foreign key are rewritten together exactly when both or neither is rooted |
| `DatabaseCopy.FitHolds` | packages/control-plane/src/concrete-migration.ts:798-833 | a constraint that holds in the source, between columns rooted alike, is verified in the copy |
| `DatabaseCopy.VerificationFault` | packages/control-plane/src/concrete-migration.ts:1084-1092 | a rejected copy has a constraint that the source rows break, or one joining a rewritten column to one that is not |
| `DatabaseCopy.MissingIsStray` | packages/control-plane/src/concrete-migration.ts:762-764 | a value without a replacement is the key of no incoming row of its root |
| `CopyProperties.RowsAccountedFor` | packages/control-plane/src/concrete-migration.ts:1062-1083 | after a copy every table holds each row of another workspace as often as before, and of the workspace one copy for each source row |
| `CopyProperties.RowsKeptInOrder` | packages/control-plane/src/concrete-migration.ts:1062-1083 | and in order: the others' rows as they stood, the copies as the source rows came |
| `CopyProperties.Isomorphism` | packages/control-plane/src/concrete-migration.ts:680-766 | the copy preserves shape, nulls, unmapped columns, and equality between columns sharing a root |
| `CopyProperties.CopiedKeysAreFresh` | packages/control-plane/src/concrete-migration.ts:686-726 | a copied key lies past every value that any column with its root held, and so collides with none |
| `CopyProperties.ReferencesPreserved` | packages/control-plane/src/concrete-migration.ts:728-766 | in a finished copy, a row's copy references the copy of the row it referenced exactly when each column of the constraint is rooted just when the one it references is; then it references no other row's copy either |
| `CopyProperties.JoinedAlikeExactly` | packages/control-plane/src/concrete-migration.ts:601-623 | that condition in terms of the schema: for each part of the constraint, references lead to a column with a sequence and a unique index from both of its columns or from neither |
| `CopyScenario.MovedReference` | packages/control-plane/src/concrete-migration.ts:798-833 | there is a finished, verified copy, of a constraint not joined alike, in which a row references the copy of another row than it referenced |
| `CopyProperties.NextKeysAreUnused` | packages/control-plane/src/concrete-migration.ts:629-641 | the value that a sequence yields next is stored nowhere in its column |
| `OAuthTokens.ReducedScopesShrink` | packages/authfn-mcp-oauth/src/refresh.ts:28-45 | granted scopes are distinct members of the earlier grant |
| `OAuthTokens.ReducedScopesExactly` | packages/authfn-mcp-oauth/src/refresh.ts:28-45 | without a scope parameter the whole grant is kept; with one, it is granted exactly when it names one to twenty distinct scopes, all known and all in the grant |
| `OAuthTokens.IssuedAccessWorks` | packages/authfn-mcp-oauth/src/tokens.ts:80-139 | a new access token verifies for its own user, resource and scopes until its lifetime is over, and for nothing else |
| `OAuthTokens.IssuedRefreshWorks` | packages/authfn-mcp-oauth/src/refresh.ts:76-154 | a new refresh token can be exchanged by its own client, for its resource and scopes, until its family expires, and after an exchange never again |
| `OAuthTokens.RotatedAccessWorks` | packages/authfn-mcp-oauth/src/refresh.ts:138-154 | the access token of a rotation verifies for exactly the scopes asked for, or for the whole grant when none were |
| `OAuthTokens.IssuedCodeWorks` | packages/authfn-mcp-oauth/src/codes.ts:26-111 | a new code can be redeemed by its own client with its redirect, resource and verifier until it expires, and once redeemed never again |
| `OAuthTokens.TokenTables.ExchangeAuthorizationCode` | packages/authfn-mcp-oauth/src/codes.ts:63-111 | consumes an acceptable code and starts a family for its user, client, resource and scopes, exactly when the verifier and every field match; otherwise changes nothing |
| `OAuthTokens.TokenTables.PerformRefresh` | packages/authfn-mcp-oauth/src/refresh.ts:47-171 | rotates exactly a live token presented as it was granted, passing on family, user, client, resource and expiry; on reuse revokes that family alone; otherwise changes nothing |
| `OAuthTokens.TokenTables.RevokeToken` | packages/authfn-mcp-oauth/src/revocation.ts:20-65 | revokes a family by any of its refresh tokens, or one access token, for its own client only |
| `TokenFamilies.StepKeeps` | packages/authfn-mcp-oauth/src/refresh.ts:122-171 | every operation keeps the tokens in linear families with one grant, started by one consumed code each |
| `TokenFamilies.RunKeeps` | packages/authfn-mcp-oauth/src/refresh.ts:122-171 | so does every run: each token but the last of its chain is consumed, parents link the chain, user, client, resource and expiry are constant |
| `TokenFamilies.ScopesShrink` | packages/authfn-mcp-oauth/src/refresh.ts:138-154 | along a family scopes only shrink |
| `TokenFamilies.UnconsumedIsLast` | packages/authfn-mcp-oauth/src/refresh.ts:95-146 | the only token that may be exchanged is the last of its chain |
| `FamilyProperties.OneExchangeable` | packages/authfn-mcp-oauth/src/refresh.ts:122-146 | in every reachable state at most one token of a family can be exchanged |
| `FamilyProperties.CodeUsedOnce` | packages/authfn-mcp-oauth/src/codes.ts:82-99 | a redeemed code is never redeemable again |
| `FamilyProperties.ReuseKills` | packages/authfn-mcp-oauth/src/refresh.ts:95-121 | presenting a consumed refresh token revokes its whole family |
| `FamilyProperties.RevocationKills` | packages/authfn-mcp-oauth/src/revocation.ts:42-57 | revoking a refresh token by its client revokes its whole family; by another client nothing happens |
| `FamilyProperties.OtherFamiliesSpared` | packages/authfn-mcp-oauth/src/revocation.ts:42-57 | reuse and revocation leave every code and every token of another family as it was |
| `FamilyProperties.AccessRevoked` | packages/authfn-mcp-oauth/src/revocation.ts:58-65 | revoking an access token by its own client ends that token alone; by another client nothing happens |
| `FamilyProperties.DeathIsPermanent` | packages/authfn-mcp-oauth/src/verify.ts:47-56 | in every continuation no refresh token of a dead family is exchanged and no access token of it verifies |
| `FamilyProperties.RotationLifetime` | packages/authfn-mcp-oauth/src/refresh.ts:140-154 | the new access token stays within the family's expiry plus one lifetime exactly when it is issued by the expiry |
| `FamilyProperties.BoundedExactlyWhenPrompt` | packages/authfn-mcp-oauth/src/tokens.ts:85-131 | over a run from empty tables the bound holds in every state exactly when every rotation is issued by its family's expiry |
| `FamilyProperties.FamilyLifetime` | packages/authfn-mcp-oauth/src/tokens.ts:85-131 | in runs that issue in time no access token of a family is accepted past that bound |
| `FamilyProperties.LateIssue` | packages/authfn-mcp-oauth/src/tokens.ts:85-93 | a run from empty tables, with two clock readings around the expiry, after which an access token is accepted past the bound |
| `Amendments.ApplyAmendmentOperations` | packages/domain/src/amendments.ts:312-356 | the loop succeeds exactly when every operation fits the base files, and equals applying all at once |
| `Amendments.OrderDoesNotMatter` | packages/domain/src/amendments.ts:312-356 | the result depends only on the set of operations; other paths are unchanged |
| `Amendments.ParseAmendmentOperations` | packages/domain/src/amendments.ts:203-309 | accepts exactly one to a hundred changes, each readable by itself, no two on one path in any letter case, and returns what each of them says; the paths are distinct |
| `Amendments.ReadExactly` | packages/domain/src/amendments.ts:217-308 | a change is readable exactly when its operation, path, digest and encoding are as required, and what is read is what it says |
| `Amendments.ReadIsWritable` | packages/domain/src/amendments.ts:173-345 | an add or replace that was read can be written exactly when it carried base64, or text of at most 6291456 bytes, and then with the bytes it carried |
| `Amendments.UnwritableText` | packages/domain/src/amendments.ts:203-345 | adding a file of 6291457 letters is accepted when read and rejected when applied, whatever the base files |

## Left out

- `Drain.Databases.DrainOutbox`: a claim, release or return statement that itself fails, a row whose type, epoch or sequence does not parse, and an `onEvent` callback that throws are not modelled; they may reject the call with claims still held, or count a settled event as failed. The order in which workspaces are claimed (creation time) is left open, so nothing is said about fairness between workspaces.
- `OutboxInvariant.StepKeeps`: statements that a constraint or trigger refuses change nothing and are not actions; the non-negativity check on the skill total is one of these.
- `OutboxProgress.ProgressUnlessStuck`: says that some run settles the event, not that every fair schedule does.
- `OutboxProperties.ExactlyOnceTotals`: events recorded before checkpoints existed, with sequence zero or none, are part of the starting total.
- `DatabaseCopy.TargetCell.CopyDatabase`: the unique and check constraints of a table are an arbitrary predicate on its rows, decided once for the table where PostgreSQL decides row by row; the md5 comparison of row images, which repeats the rows just inserted, is not modelled.
- `CopyProperties.Isomorphism`: key columns hold whole numbers or nulls; other values in them are the failure `NotANumber`, and the text form of a number is identified with the number.
- `FamilyProperties.FamilyLifetime`: the bound is conditional on issuing in time because the code does not ensure it; `FamilyProperties.BoundedExactlyWhenPrompt` gives the exact condition.
- `Visibility.VisibleExactlyWhenLive`: deliveries about one skill with one sequence are one event, which `OutboxProperties.SequencesNeverReused` provides, and a version id belongs to one skill.
- `LockValidation.ValidateLock`: which error is reported first is kept, its message and path are not; parsed rows are taken as records with the field checks of the schema, the trimming of version text aside.
- `Closures.Resolve`: the version being resolved is not a node of its own lock; module contents, claims, authorization and deprecation warnings are not modelled.
- `Amendments.ParseAmendmentOperations`: a change is a record with five text fields; its unknown keys, the type of each field and the messages are not modelled, and path normalization, lower-casing and text encoding are arbitrary functions.
- Comparison of strings is by code point, where JavaScript compares UTF-16 code units.
- Column keys are pairs of table and column; the code joins them with a dot, so names containing a dot are outside the model.
- Schema cloning, indexes, table and sequence locks, bundle copying and the row-image checks after the copy.
- Retention periods and limits of the two cleanup statements: rows may be retired at any age, which is more than the code does.
- Rate limiting is a flag, audit rows and diagnostics are not modelled; HMAC, SHA-256 and PKCE are uninterpreted functions.
- Isolation anomalies below statement or transaction granularity.
- HTTP, MCP and user interface code, role tables, topology and configuration, pagination: no deep invariant.
