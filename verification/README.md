# Verification of simple_module's stateful core

Dafny 4.11 models of the parts of the framework where a mistake is silent: the rewriting that scopes
SQL statements to a tenant, the lease and semaphore protocol, and the stateful algorithms around them.
`dafny verify dfyconfig.toml` checks everything.

**Query scoping.** `Sql` gives SELECT statements a meaning: three-valued expressions, joins with NULL
padding (`<joined table>`, section 7.5 of ISO/IEC 9075:1992), `.join()` steps, correlated subqueries,
derived tables and set operations, all on sequences of rows. A FROM occurrence is a `Leaf` with an
identity of its own, so "the same FROM" is equality. `JoinScope` and `CoreScope` are the rewriting as
functions, `Scoper` the same as the imperative code, proved equal to them. Two theorems follow:

- *Safety* (`SelectSafety.SelectIsSafe`): every row a scoped SELECT keeps passes the predicates of every
  scoped plain table in it. It needs no primary keys and no resolvable ON.
- *Exactness* (`CoreExact.ExactQ`, `CorePass.CoreIsExact`): the scoped statement over the whole
  database is the original over pre-filtered tables, row for row.

Exactness is promised without conditions by the module documentation
(framework/db/simple_module_db/_core_joins.py:19-22). The code meets it under three:

- what a FULL join or step hands on in padded form belongs to a keyed table;
- the ON of an outer step is given or found, where its target is scoped; and a FULL step whose join is not
  found has a left side on which nothing is owed any more (`SelectExact.Resolves`);
- a nested SELECT does not name a scoped leaf that an outer join of an enclosing statement may have padded.

`Limits` and `LimitsNested` show that each is needed: the statements of a whole family are exact *if and
only if* the condition holds, for FULL joins, for LEFT steps, for FULL steps and for `NOT EXISTS`. The last
contradicts the documentation: a correlated subquery that names a padded leaf gets that leaf's predicate
in its own WHERE, where it is never true, so `NOT EXISTS` can return rows too many.

`Walk` is the cheap walk over the clause graph. `StatementGraph` says which graphs show which statements,
elements shared between SELECTs and joins included, proves that the walk finds something exactly when the
statement reads a scoped table, and is the pass that branches on it.

**Leases.** `InProcessLeases` is the holder map, `LeaseTable` the slot table with atomic transactions, and
`LeaseSimulation` a step-by-step simulation between them: both give the same answers, fences included, on
every sequence of requests and on both dialects, and those follow from the calls alone
(`InProcessLeases.AnsweredByCalls`). `PostgresLeases` and `PostgresSafety` take the table's
transactions apart into moves that interleave: insert, row lock, clock read, update, commit.

**Stateful algorithms.** Each is a fast or stateful form proved against a simple one:

- `Discovery`, `DependencyOrder`, `CycleSearch`: Kahn's algorithm finds the least ordering; the reported cycle is one.
- `Callbacks`: the savepoint-tagged log is a stack of lists.
- `Permissions`: cached views equal what recomputing them would give.
- `CacheFill`, `SingleFlight`: no stale fill, one task per key.
- `Csp`: what each clause of an extended policy holds, in closed form; a policy is never narrowed and no
  directive widened beyond what is declared for it, with the exact exceptions.
- `RateLimit`: fixed windows let less than twice the limit through in one period, and that bound is tight.
- `Requirements`: versions move up, pins keep their style.

Where the code and its documentation disagree the model follows the code. Besides the correlated read
above: a permission list whose expiry is exactly zero is served by every later call until something
invalidates it (`Permissions.ServeOn`, `Permissions.ServedIsRecomputedIff`); a refresh or release that runs
beside a claim of the same token can revive a lapsed hold, and nothing else can
(`PostgresSafety.NoRevivalIff`); a policy whose new child-src comes between worker-src and script-src can be
narrowed, and then lets workers load what only default-src listed (`Csp.PolicyNarrowsIff`,
`Csp.PolicyAddsIff`, at one policy `Csp.CutNarrows`); and a policy that lists a directive twice can be
narrowed too (`Csp.AnyPolicyNarrowsIff`, at one policy `Csp.RepeatNarrows`).

Parameters that stand for the outside world: clock readings, what a permission provider answers, which
callbacks fail, whether SQLAlchemy can resolve an inferred join, and the interleaving of tasks.

## Model

| member | source | states |
|---|---|---|
| JoinAlgebra.JoinMember | framework/db/simple_module_db/_core_joins.py:9-17 | every row of an INNER, LEFT or FULL join is a matched pair or one row padded on the other side |
| JoinAlgebra.JoinPush | framework/db/simple_module_db/_core_joins.py:9-17 | when the tests a join makes in ON and leaves above are the right ones, filtering the join is joining filtered sides, in the same order, for all three kinds |
| JoinMeaning.ConjoinMeans | framework/db/simple_module_db/_core_joins.py:102-103 | the new ON is true exactly when the old one is and every owed predicate is |
| JoinMeaning.OwedMeans | framework/db/simple_module_db/_core_joins.py:106-114 | an owed entry, plain or padded, is true on a genuine row exactly when the leaf is absent (padded form) or passes all its predicates |
| JoinMeaning.OwedDecides | framework/db/simple_module_db/_core_joins.py:106-118 | the flattened owed predicates are all true exactly when every owing leaf that is present passes |
| JoinMeaning.OwedByWithin | framework/db/simple_module_db/_core_joins.py:77-103 | the key invariant: where what FULL joins hand on can be padded, an owed entry not in padded form belongs to a leaf that is present in every row of the node |
| JoinMeaning.TreeSound | framework/db/simple_module_db/_core_joins.py:91-103 | a join tree's rows have exactly its leaves, padded only where an outer join may pad |
| JoinMeaning.TreeSettled | framework/db/simple_module_db/_core_joins.py:77-103 | safety of every join tree: a scoped plain leaf of the rewritten tree passes its predicates wherever it is present, unless its predicates are still owed |
| SelectSafety.StepLedger | framework/db/simple_module_db/_core_joins.py:160-189 | a `.join()` step only adds to what is owed and covered, for its target and the leaves joined so far, and takes no leaf off the list without owing its predicates |
| SelectSafety.StepHeld | framework/db/simple_module_db/_core_joins.py:160-189 | after a rewritten step every scoped leaf is filtered, owed to WHERE, or still a bare FROM |
| SelectSafety.CoveredByIs | framework/db/simple_module_db/_core_joins.py:84-89 | the covered list is exactly the scoped plain leaves of the tree |
| SelectSafety.LeftOwedIs | framework/db/simple_module_db/_core_joins.py:213-238 | what a FULL step finds on its left: existing entries as they are, new ones for leaves nobody has scoped, nothing else |
| SelectSafety.AddedCleans | framework/db/simple_module_db/core_scope.py:60-68 | a row on which everything added to WHERE is true passes the predicates of all its leaves |
| SelectSafety.SelectIsSafe | framework/db/simple_module_db/core_scope.py:60-68 | safety: in every row a scoped SELECT keeps, each scoped plain leaf that is present satisfies all its predicates, for every join tree and step sequence, keyed or not, resolved or not |
| SelectExact.CleanJoin | framework/db/simple_module_db/_core_joins.py:91-103 | cleaning the rewritten join is the original join of cleaned sides |
| SelectExact.TreeTests | framework/db/simple_module_db/_core_joins.py:91-103 | what a rewritten tree join tests in ON is what pushing the policy through it requires |
| SelectExact.AsResolved | framework/db/simple_module_db/_core_joins.py:176-189 | where nothing is owed on its left and no ON has to be inferred, a FULL step whose join is not found is scoped as if it were |
| SelectExact.StepTests | framework/db/simple_module_db/_core_joins.py:160-189 | the same for a `.join()` step, FULL steps and their left side included |
| SelectExact.StepsTight | framework/db/simple_module_db/_core_joins.py:146-157 | over all steps, what reaches WHERE unpadded is about a leaf that is present in every row |
| SelectExact.OpenStays | framework/db/simple_module_db/_core_joins.py:160-189 | the leaves that still owe, followed from the statement alone, are those the ledger says |
| SelectExact.CleanPassesAdded | framework/db/simple_module_db/core_scope.py:60-68 | a row all of whose leaves pass is not removed by what was added to WHERE |
| CoreExact.ExactF | framework/db/simple_module_db/_core_joins.py:77-103 | for every tree, cleaning the rows of the scoped tree gives the tree over pre-filtered leaves, nested statements rewritten too |
| CoreExact.ExactSs | framework/db/simple_module_db/_core_joins.py:131-189 | the left-to-right fold over steps is exact, unresolved FULL steps over a settled left side included |
| CoreExact.ExactSurvivors | framework/db/simple_module_db/core_scope.py:60-68 | the rows that pass the scoped WHERE are the rows that pass the original WHERE over pre-filtered inputs |
| CoreExact.ExactQ | framework/db/simple_module_db/core_scope.py:60-122 | meaning preserved: a scoped statement over the full database equals the original over pre-filtered tables, for any nesting of products, joins, steps, correlated subqueries, derived tables and set operations; keys are asked only of what FULL joins and steps hand on |
| CoreExact.SurvivorIsClean | framework/db/simple_module_db/core_scope.py:60-68 | every row that survives a scoped statement with its nested ones is clean |
| CorePass.SameQ | framework/db/simple_module_db/core_scope.py:97-98 | full scoping leaves a statement that reads nothing scoped as it is |
| CorePass.CoreIsExact | framework/db/simple_module_db/core_scope.py:79-122 | `scope_core` is exact on whole statements, whichever branch it takes |
| CorePass.DmlIsExact | framework/db/simple_module_db/core_scope.py:70-73 | the rows an UPDATE or DELETE joins in after scoping are those it would join in from pre-filtered tables |
| StatementGraph.WalkDecides | framework/db/simple_module_db/_core_walk.py:96-132 | on every graph that shows a statement, elements shared or not, the walk finds a reference exactly when the statement reads a scoped table somewhere, has an entity of one over SQL text, or holds DML on one |
| StatementGraph.InferredStepShown | framework/db/simple_module_db/_core_walk.py:176-191 | such a graph where the inferred ON of a step reads a table inside a FROM join, which no child of the SELECT names |
| StatementGraph.TextEntityShown | framework/db/simple_module_db/_core_walk.py:118-123 | the graph of a SELECT of an entity over SQL text, whose table is scoped |
| StatementGraph.ScopeStatement | framework/db/simple_module_db/core_scope.py:97-122 | branching on the walk makes of the SELECT what full scoping gives, and it is exact |
| Limits.FullJoinExactIff | framework/db/simple_module_db/_core_joins.py:106-114 | a FULL join of two scoped tables is exact on every database if and only if both are keyed |
| Limits.LeftStepExactIff | framework/db/simple_module_db/_core_joins.py:176-185 | a LEFT step with an inferred ON is exact on every database if and only if the ON is found or its target is not scoped |
| Limits.FullStepExactIff | framework/db/simple_module_db/_core_joins.py:174-189 | a FULL step is exact on every keyed database if and only if its join is found, or its left side is not scoped and it needs no inferred ON |
| LimitsNested.NotExistsExactIff | framework/db/simple_module_db/core_scope.py:60-68 | NOT EXISTS over a subquery that names an outer leaf is exact on every database if and only if the leaf cannot be padded or is not scoped |
| Scoper.JoinScoper.Scope | framework/db/simple_module_db/_core_joins.py:77-103 | the recursion computes the rewritten tree, what it owes, and appends exactly the leaves it covered |
| Scoper.JoinScoper.VisitLeaf | framework/db/simple_module_db/_core_joins.py:228-237 | one leaf's entries: the ones it has, or new ones once |
| Scoper.JoinScoper.FindLeftOwed | framework/db/simple_module_db/_core_joins.py:213-238 | the worklist visits the left side's leaves right to left and accumulates their entries in that order |
| Scoper.JoinScoper.ScopeSetupJoin | framework/db/simple_module_db/_core_joins.py:160-189 | one step is rewritten and the shared owed and covered lists updated as specified |
| Scoper.ScopeAllJoins | framework/db/simple_module_db/_core_joins.py:131-157 | FROM joins, then steps, then the padded form for all of WHERE once a step is FULL |
| Scoper.Preds | framework/db/simple_module_db/core_scope.py:50-58 | each candidate's predicates once, skipping what the joins covered |
| CoreScope.CandidatesOnce | framework/db/simple_module_db/core_scope.py:50-58 | the predicates are those of distinct tables: of each plain candidate that is not skipped, once |
| Scoper.Statement.VisitSelect | framework/db/simple_module_db/core_scope.py:60-68 | the statement's FROM, steps and WHERE become those of the scoped SELECT |
| Scoper.Statement.VisitUpdateDelete | framework/db/simple_module_db/core_scope.py:70-73 | only WHERE changes, by the predicates of the tables joined in |
| Walk.ReferencesPlain | framework/db/simple_module_db/_core_walk.py:96-132 | on any graph of shared elements the worklist ends, and answers true exactly when an unpruned path leads to nested DML on a scoped table, an entity of a scoped table over SQL text, or a scoped plain leaf |
| Walk.OpaqueNarrows | framework/db/simple_module_db/core_scope.py:97-102 | the second walk, which prunes more, never finds what the first denied |
| Walk.CoreWhereFroms | framework/db/simple_module_db/_core_walk.py:72-93 | the worklist finds exactly the FROMs of plain columns not behind an ORM element or one that reads nothing |
| Walk.PlainFromsIff | framework/db/simple_module_db/_core_walk.py:84-93 | a FROM is collected exactly when a column names it with no ORM element, and none that reads nothing, above it |
| Walk.CoreReadsAll | framework/db/simple_module_db/_core_walk.py:49-59 | where nothing is ORM that is everything the clauses say they read |
| OuterJoins.OrmOuterJoinTables | framework/db/simple_module_db/_outer_joins.py:48-90 | the excluded tables are exactly those LEFT-joined, never FULL, as the own and only table of a covered class, directly or by a relationship without secondary, of the class that `of_type` names if it names one |
| OuterJoins.LeftOnFilters | framework/db/simple_module_db/_outer_joins.py:10-16 | criteria in a LEFT join's ON are the same as filtering its right side first |
| OuterJoins.WhereMakesInner | framework/db/simple_module_db/_outer_joins.py:3-8 | the same criteria in WHERE turn the LEFT join into an inner one |
| OuterJoins.FullReturnsRejected | framework/db/simple_module_db/_outer_joins.py:18-22 | a FULL join returns every right row its criteria reject |
| OuterJoins.OnIsEnoughIff | framework/db/simple_module_db/_outer_joins.py:48-61 | once the criteria reject some right row, ON alone filters an outer join exactly if and only if it is a LEFT join |
| InProcessLeases.InProcessLeaseBackend.PruneExpired | framework/core/simple_module_core/leases.py:108-112 | only unexpired holders stay, other names untouched |
| InProcessLeases.InProcessLeaseBackend.TakeHold | framework/core/simple_module_core/leases.py:114-121 | grants with the next fence unless every slot is held by others |
| InProcessLeases.InProcessLeaseBackend.ExtendHold | framework/core/simple_module_core/leases.py:123-129 | extends exactly the unexpired holds |
| InProcessLeases.InProcessLeaseBackend.DropHold | framework/core/simple_module_core/leases.py:131-133 | ends exactly the unexpired holds |
| InProcessLeases.AtMostSlotsHeld | framework/core/simple_module_core/leases.py:108-133 | over every run at most `slots` tokens hold unexpired leases at any instant |
| InProcessLeases.GrantsOutrank | framework/core/simple_module_core/leases.py:114-121 | a grant's fence is above every fence before it |
| InProcessLeases.FencesIncrease | framework/core/simple_module_core/leases.py:114-121 | fences of later grants are strictly larger |
| InProcessLeases.LapsedStaysLapsed | framework/core/simple_module_core/leases.py:123-133 | a lapsed token can neither refresh nor release until it acquires again |
| InProcessLeases.AnsweredByCalls | framework/core/simple_module_core/leases.py:108-133 | every answer follows from the earlier calls and answers alone: a refresh or release succeeds exactly until the time stamped by the last grant or refresh, and an acquire is granted, with one more than the grants so far, exactly if the token holds or fewer than `slots` tokens do |
| LeaseTable.DbLeaseBackend.ClaimSlot | framework/db/simple_module_db/leases.py:121-154 | both dialects claim a slot exactly when it is missing, expired or already ours, with the next fence |
| LeaseTable.DbLeaseBackend.BumpCounter | framework/db/simple_module_db/leases.py:156-166 | the counter row is made or raised by one and returned |
| LeaseTable.DbLeaseBackend.FindOwnSlot | framework/db/simple_module_db/leases.py:181-187 | some slot the token holds unexpired, if there is one |
| LeaseTable.DbLeaseBackend.AcquireSemaphore | framework/db/simple_module_db/leases.py:172-179 | on either dialect, alone: the own slot, else the first that can be claimed, with a fence from the counter row |
| LeaseTable.DbLeaseBackend.UpdateHeld | framework/db/simple_module_db/leases.py:189-201 | exactly the token's unexpired rows move their expiry |
| LeaseSimulation.FullIffNoFreeSlot | framework/db/simple_module_db/leases.py:172-179 | by the pigeonhole principle: the holder map is full exactly when no slot is free |
| LeaseSimulation.CallSame | framework/db/simple_module_db/leases.py:168-213 | one request, lock or semaphore, on either dialect, gets the same answer from both backends and leaves them matching |
| LeaseSimulation.BackendsAgree | framework/db/simple_module_db/leases.py:121-201 | on every sequence of requests over any names, on either dialect, the table's possible answers are the in-process ones and no others, fences included |
| LeaseSimulation.PlaceholderClaimsAlike | framework/db/simple_module_db/leases.py:131-151 | inserting an expired placeholder and claiming it is the same as inserting the claimed row |
| LeaseSimulation.DialectsAcquireAlike | framework/db/simple_module_db/leases.py:172-179 | both dialects acquire a semaphore alike |
| PostgresLeases.MoveKeeps | framework/db/simple_module_db/leases.py:111-201 | every interleaved move keeps the invariant: uncommitted rows are locked by their writer, and each is a lawful grant, prolongation or count of the committed row at a clock read after the lock |
| PostgresSafety.RowStep | framework/db/simple_module_db/leases.py:141-154 | a committed row changes only by the commit of the transaction that locked it, goes to another holder only once the previous expiry has passed, and takes the next fence with every grant, to another holder or the same |
| PostgresSafety.GrantStep | framework/db/simple_module_db/leases.py:142-166 | a committed claim leaves the claimant as holder under the next fence until its clock reading plus its ttl, and raises the counter row by one where it counted |
| PostgresSafety.CounterStep | framework/db/simple_module_db/leases.py:172-179 | in every run, committing a semaphore's claim of a slot raises the counter row by exactly one |
| PostgresSafety.HoldStands | framework/db/simple_module_db/leases.py:141-151 | mutual exclusion over every run: until its hold expires a token keeps its slot, row untouched, unless one of its own transactions commits |
| PostgresSafety.TakeoverOutranks | framework/db/simple_module_db/leases.py:146-151 | over every run a row is never deleted, its fence never falls, and another holder than before has a larger one |
| PostgresSafety.GrantOutranks | framework/db/simple_module_db/leases.py:146-151 | over every run a later grant, to whichever token, outranks every fence the slot had before, and a semaphore's later grant every value its counter had before |
| PostgresSafety.GrantLasts | framework/db/simple_module_db/leases.py:111-151 | in every run a committed claim of a slot holds it for the ttl it was begun with from its own clock reading on, and that reading lies between the row's lock and the commit |
| PostgresSafety.GrantExcludes | framework/db/simple_module_db/leases.py:142-151 | exclusion: after a grant no other token's claim of the slot commits with a clock reading before the grant's reading plus its ttl, unless the holder commits something itself |
| PostgresSafety.ClaimsInOrder | framework/db/simple_module_db/leases.py:121-179 | in every run a finished claim was granted the first slot of its order that no other token held when it looked, and only that one, or found all of them held |
| PostgresSafety.HeldCommits | framework/db/simple_module_db/leases.py:189-201 | where no refresh or release runs beside a claim of its token, committing one moves exactly the token's unexpired rows, a refresh to its clock reading plus the ttl, a release to its clock reading |
| PostgresSafety.ReleaseEnds | framework/db/simple_module_db/leases.py:189-201 | so after a committed release no hold of the token on those slots is unexpired |
| PostgresSafety.NoRevival | framework/db/simple_module_db/leases.py:189-201 | in every run in which no refresh or release runs beside a claim of its token, no refresh prolongs a hold that had lapsed when its row's lock was granted |
| PostgresSafety.SharedTokenRevives | framework/db/simple_module_db/leases.py:111-119 | beside a claim of its token one does: rows that appear after the locking SELECT are updated without having been locked by it |
| PostgresSafety.NoRevivalIff | framework/db/simple_module_db/leases.py:111-119 | for every set of tokens allowed that overlap: all runs are free of revival if and only if the set holds no token that is ever held |
| Names.SortSorts | framework/core/simple_module_core/discovery.py:241-242 | sorting orders by code points and keeps every element as often |
| DependencyOrder.GreedyIsLeast | framework/core/simple_module_core/discovery.py:237-249 | always taking the least ready name gives the least of all orderings |
| DependencyOrder.LeastUnique | framework/core/simple_module_core/discovery.py:241-242 | there is only one least ordering |
| DependencyOrder.LeftoverStuck | framework/core/simple_module_core/discovery.py:251-255 | what Kahn's algorithm leaves over has a dependency among itself, every name of it |
| DependencyOrder.OrderingExcludesCycle | framework/core/simple_module_core/discovery.py:251-255 | a graph with an ordering has no cycle |
| Discovery.OrderingDeps | framework/core/simple_module_core/discovery.py:201-204 | the loaded dependencies, required and optional, each once |
| Discovery.MissingPairsMembers | framework/core/simple_module_core/discovery.py:193-198 | exactly the required dependencies that are not loaded are reported |
| Discovery.CountEdges | framework/core/simple_module_core/discovery.py:226-233 | the tables count each name's dependencies and list its dependents |
| Discovery.PlaceNext | framework/core/simple_module_core/discovery.py:243-249 | after a name is placed the counters and the queue are those of the longer prefix |
| Discovery.Kahn | framework/core/simple_module_core/discovery.py:225-249 | the result takes the least ready name each time and stops only when none is ready |
| Discovery.TopologicalSort | framework/core/simple_module_core/discovery.py:207-257 | missing pairs exactly under strict; otherwise the least ordering, or a genuine cycle, the latter if and only if there is one |
| Discovery.SortPermutes | framework/core/simple_module_core/discovery.py:207-257 | with distinct names the result is a permutation of the input |
| Discovery.SortPutsDependenciesFirst | framework/core/simple_module_core/discovery.py:207-213 | every loaded dependency comes before the module that names it |
| Discovery.LoadOrderIrrelevant | framework/core/simple_module_core/discovery.py:241-242 | the result does not depend on the input's order |
| CycleSearch.CycleFinder.Dfs | framework/core/simple_module_core/discovery.py:265-276 | where every node has a dependency among the nodes, the first descent closes on its own path, a simple walk, and returns that end of it, a genuine cycle |
| CycleSearch.FindCycle | framework/core/simple_module_core/discovery.py:260-286 | on such nodes the cycle closes a simple walk from the first start, so neither the index-zero case nor another start nor the fallback is taken |
| Callbacks.Session.OpenSavepoints | framework/db/simple_module_db/callbacks.py:31-43 | the walk outwards collects exactly the open savepoints |
| Callbacks.Session.RegisterOnCommit | framework/db/simple_module_db/callbacks.py:20-28 | the entry is appended with its savepoints, and rollbacks are heard from then on |
| Callbacks.Session.RollBackInner | framework/db/simple_module_db/callbacks.py:46-52 | rolling back a savepoint drops exactly the entries tagged with it |
| Callbacks.Session.RollBackAll | framework/db/simple_module_db/callbacks.py:46-48 | rolling back the root drops everything |
| Callbacks.Session.RunOnCommit | framework/db/simple_module_db/callbacks.py:60-77 | every queued callback runs once, in order, whichever fail, and the queue is left empty |
| Callbacks.Cut | framework/db/simple_module_db/callbacks.py:46-52 | filtering by a savepoint's tag cuts the log exactly where that savepoint began |
| Callbacks.StepTagged | framework/db/simple_module_db/callbacks.py:20-52 | the tagged log and the stack of lists stay in step through every event |
| Callbacks.LogIsLists | framework/db/simple_module_db/callbacks.py:20-52 | after every run the log is the lists of the open transactions, where release appends to the parent and rollback discards |
| Callbacks.LogSurvives | framework/db/simple_module_db/callbacks.py:46-77 | after every run the log is what was registered with no enclosing savepoint rolled back since, once each, in order |
| Permissions.PermissionRegistry.AddSource | framework/core/simple_module_core/permissions.py:66-79 | one source per name, its cached output and failure forgotten, both views dropped |
| Permissions.PermissionRegistry.InvalidateSource | framework/core/simple_module_core/permissions.py:81-85 | output and failure of the source forgotten, both views dropped |
| Permissions.PermissionRegistry.AddGroup | framework/core/simple_module_core/permissions.py:120-130 | the declared permissions grow by exactly the given ones |
| Permissions.PermissionRegistry.Add | framework/core/simple_module_core/permissions.py:132-139 | the permission is listed once in the group named by what comes before its first dot, or "general" where there is none; nothing else changes |
| Permissions.PermissionRegistry.SourceOutput | framework/core/simple_module_core/permissions.py:87-114 | a cached output is kept, a recent failure is not retried, otherwise the provider's answer or failure is remembered; other sources untouched |
| Permissions.PermissionRegistry.SourceLabels | framework/core/simple_module_core/permissions.py:116-118 | asking one source on its own never spoils a list that may still be served |
| Permissions.PermissionRegistry.Groups | framework/core/simple_module_core/permissions.py:158-169 | one group for each declared name and each source, listing its declared permissions in order and then, sorted, the keys of the source of that name that it did not list; every source is asked once, and a list that may still be served stays right |
| Permissions.PermissionRegistry.AllPermissions | framework/core/simple_module_core/permissions.py:141-156 | what is returned is settled: sorted, complete, and due at the earliest failing source's retry; served unchanged until due |
| Permissions.PermissionRegistry.Has | framework/core/simple_module_core/permissions.py:171-172 | membership in the union of groups and sources |
| Permissions.SettledIsRecomputed | framework/core/simple_module_core/permissions.py:141-156 | inside its expiry a settled list equals the sorted union recomputed now, for every answer the providers could give, and none would be called |
| Permissions.ServedIsRecomputedIff | framework/core/simple_module_core/permissions.py:144-145 | of what may be served: it equals the recomputed list for all providers if and only if its expiry is not a zero that has passed |
| Permissions.ServeOn | framework/core/simple_module_core/permissions.py:144-145 | a list whose expiry is zero is returned by every later call, however much time passes |
| Permissions.ZeroExpiryRun | framework/core/simple_module_core/permissions.py:141-156 | a run that gets there: a source that fails at -30 is not listed from 0 on although it would answer |
| Permissions.PermissionRegistry.MapRole | framework/core/simple_module_core/permissions.py:174-183 | code mappings accumulate per role |
| Permissions.PermissionRegistry.SetRoleOverlay | framework/core/simple_module_core/permissions.py:201-209 | a role's persisted grants are replaced, code mappings untouched |
| Permissions.PermissionRegistry.ReplaceRoleOverlays | framework/core/simple_module_core/permissions.py:211-217 | the whole snapshot is replaced; an equal one keeps the cached views, which stay right |
| Permissions.PermissionRegistry.RoleMap | framework/core/simple_module_core/permissions.py:219-230 | what is returned, cached or not, is the role-by-role union of defaults, code mappings and persisted grants, and gives admin the wildcard |
| CacheFill.StepKeeps | framework/core/simple_module_core/singleflight.py:40-75 | no step of any fill, change or forget puts a value in the cache that was read before the latest forget |
| CacheFill.CacheNeverStale | framework/core/simple_module_core/singleflight.py:47-58 | after every run the cached value's read began after the latest forget and saw a source no older than it |
| CacheFill.SettledCacheIsCurrent | framework/core/simple_module_core/singleflight.py:47-58 | once every change has been followed by a forget, what is cached is the current source |
| CacheFill.ReadStores | framework/core/simple_module_core/singleflight.py:64-75 | a read during which nothing is forgotten leaves exactly the version it saw cached, and the fill answers it; otherwise the cache is left alone, and what it saw is answered only on the last attempt |
| CacheFill.ServedUntilForgotten | framework/core/simple_module_core/singleflight.py:61-63 | until the next forget something stays cached, no fill begins a read, and every fill called later answers the cached version or one stored since by a read that was under way |
| CacheFill.LooksAndAnswers | framework/core/simple_module_core/singleflight.py:61-63 | a fill that looks while something is cached answers it at once |
| CacheFill.GivingUpNeedsForgets | framework/core/simple_module_core/singleflight.py:54-58 | a fill answers uncached only after at least three forgets during it |
| CacheFill.GivesUpOnThird | framework/core/simple_module_core/singleflight.py:68-75 | a fill that gives up has begun exactly three reads |
| CacheFill.AnswerIsFresh | framework/core/simple_module_core/singleflight.py:59-75 | any other answer is no older than the latest forget |
| CacheFill.AtMostThreeReads | framework/core/simple_module_core/singleflight.py:24-26 | in every interleaving a fill begins at most three reads |
| CacheFill.FillThrough | framework/core/simple_module_core/singleflight.py:59-75 | the loop, whatever others do during its reads, is a run of these steps that ends in an answer, which is the cached version unless the fill gives up |
| SingleFlight.NextKeeps | framework/core/simple_module_core/singleflight.py:84-96 | every step keeps the count of users, the one flight per key and the one holder per flight |
| SingleFlight.OneInside | framework/core/simple_module_core/singleflight.py:84-96 | in every run at most one task is inside per key |
| SingleFlight.EntryWhileUsed | framework/core/simple_module_core/singleflight.py:86-96 | a key has an entry exactly while it has users, and the entry counts them |
| SingleFlight.FreeLockOpens | framework/core/simple_module_core/singleflight.py:91-92 | with nobody inside, any waiting user may go in |
| SingleFlight.FlightTable.EnterHold | framework/core/simple_module_core/singleflight.py:86-89 | finds or creates the key's flight and counts one more user |
| SingleFlight.FlightTable.LeaveHold | framework/core/simple_module_core/singleflight.py:93-96 | counts one user less and removes the entry with the last |
| Csp.CspSourceRegistry.Add | framework/core/simple_module_core/csp.py:101-106 | a valid source is listed once under an extendable directive, anything else refused |
| Csp.CspSourceRegistry.ExtendPolicy | framework/core/simple_module_core/csp.py:126-178 | the loops compute the extended policy from declared and extra sources |
| Csp.AddAllHolds | framework/core/simple_module_core/csp.py:137-141 | a call extends with each directive's registered sources and the call's own pairs, and nothing else |
| Csp.PolicyNarrowsIff | framework/core/simple_module_core/csp.py:126-178 | for a policy without repeats a directive is narrowed if and only if it was unrestricted and something it falls back to is declared, or it is worker-src with a new child-src in between and script-src sources not otherwise allowed |
| Csp.ExtendedContent | framework/core/simple_module_core/csp.py:154-176 | the closed form: each extended clause holds exactly what it listed, or where it is new what it falls back to, and what is declared for it and for what it shadows |
| Csp.ExtendedGrowsFromStart | framework/core/simple_module_core/csp.py:154-176 | each extended clause begins with what it starts from, in order, and gains only sources it does not list, each once |
| Csp.ExtendedOrder | framework/core/simple_module_core/csp.py:126-159 | the clauses stay in their order, and new ones follow in the order of declaration |
| Csp.BareClauseHolds | framework/core/simple_module_core/csp.py:180-186 | a new clause of a policy with nothing to fall back on holds exactly 'self' and what is declared |
| Csp.AnyPolicyNarrowsIff | framework/core/simple_module_core/csp.py:126-178 | for every policy, repeats or not: nothing is lost if and only if every source of the first governing clause is in the closed form of what governs afterwards, or nothing governed and nothing is declared along the list |
| Csp.PolicyAddsIff | framework/core/simple_module_core/csp.py:126-178 | for a policy without repeats a directive may load nothing beyond what governed it, the default where nothing did, and what is declared along its list, if and only if workers gain no default-src source in the cut |
| Csp.CutNarrows | framework/core/simple_module_core/csp.py:180-186 | a policy at which workers lose a script-src source and gain one of default-src |
| Csp.RepeatNarrows | framework/core/simple_module_core/csp.py:147-153 | a policy with script-src twice that loses a script source when an image source is declared |
| Csp.DefaultedPolicyKeepsAll | framework/core/simple_module_core/csp.py:129-136 | with a default-src clause only that worker-src case can narrow anything |
| Csp.RepeatedDirectiveNarrows | framework/core/simple_module_core/csp.py:147-153 | where nothing is declared along a directive's list, it is narrowed if and only if its governing directive is repeated and the first clause lists a source that the last does not |
| Csp.DeclaredGoverns | framework/core/simple_module_core/csp.py:154-159 | a declared directive ends up governed by its own clause, which holds every source declared for it |
| Csp.DeclaredReaches | framework/core/simple_module_core/csp.py:160-176 | a declared source also reaches every clause that shadows its directive |
| Csp.PolicyExtendedTwice | framework/core/simple_module_core/csp.py:126-178 | extending twice is extending once |
| RateLimit.InProcessWindowStore.HitKey | framework/core/simple_module_core/rate_limit.py:141-154 | counts the hit, reports it, and never leaves more keys than the cap |
| RateLimit.InProcessWindowStore.Peek | framework/core/simple_module_core/rate_limit.py:156-163 | reports without counting |
| RateLimit.InProcessWindowStore.ResetKey | framework/core/simple_module_core/rate_limit.py:165-166 | forgets exactly one key |
| RateLimit.InProcessWindowStore.Sweep | framework/core/simple_module_core/rate_limit.py:168-174 | drops what has expired, and only when all is live the half that ends first |
| RateLimit.PeekPredictsHit | framework/core/simple_module_core/rate_limit.py:107-114 | peek says what the next hit, fixed or sliding, would be told |
| RateLimit.RetryTells | framework/core/simple_module_core/rate_limit.py:137-139 | what a caller is told to wait is the least whole number of seconds, at least one, after which its window has ended |
| RateLimit.FixedCountsSinceOpened | framework/core/simple_module_core/rate_limit.py:140-154 | hit by hit: a fixed window counts the hits since the one that opened it, allows as many as the limit, and ends one period after it opened |
| RateLimit.LessThanTwice | framework/core/simple_module_core/rate_limit.py:141-154 | fixed windows allow less than twice the limit in any half-open interval one period long |
| RateLimit.TwiceLessOneReached | framework/core/simple_module_core/rate_limit.py:141-154 | and one less than twice is reached |
| RateLimit.StoreAllowsLessThanTwice | framework/core/simple_module_core/rate_limit.py:141-174 | the same over the whole table, with other keys, resets of them and sweeps in between |
| RateLimit.SlidingCountsSinceQuiet | framework/core/simple_module_core/rate_limit.py:101-103 | a sliding count is the number of hits since the last full quiet period |
| Requirements.CompareTransitive | framework/cli/simple_module_cli/requirements.py:74-77 | the order of versions is transitive |
| Requirements.KeepsPinStyle | framework/cli/simple_module_cli/requirements.py:185-215 | every operator and wildcard and their number stay, and no version goes down |
| Requirements.RewriteSettles | framework/cli/simple_module_cli/requirements.py:218-252 | a second rewrite changes nothing |
| Requirements.LatestSatisfiesIff | framework/cli/simple_module_cli/requirements.py:154-252 | unless excluded, `latest` satisfies every rewritten clause if and only if it meets every floor of the original, strictly for `>` |
| Requirements.RewriteMoves | framework/cli/simple_module_cli/requirements.py:185-215 | clause by clause: a plain ==, === or >= older than `latest` ends at `latest`; a ~= ends at the greatest version of its own width up to `latest`, if and only if `latest` can be cut to that width, and stays otherwise; every other clause stays |
| Requirements.UncutStays | framework/cli/simple_module_cli/requirements.py:203-212 | the pre-release 1.6.0rc1 leaves ~=1.4 alone, although 1.5 is not above it |
| Requirements.FloorAdmits | framework/cli/simple_module_cli/requirements.py:230-234 | with loosening or no clauses the result admits exactly the versions from `latest` up |
| Requirements.ExcludedIff | framework/cli/simple_module_cli/requirements.py:154-182 | a requirement is reported as excluding `latest` if and only if a clause rules it out for good, and the first such clause is named |
| Requirements.BumpOnlyNarrows | framework/cli/simple_module_cli/requirements.py:193-203 | apart from exact pins, what satisfies a rewritten clause satisfied the original |

## Left out

- SQLAlchemy's object model: annotations, cloning, `_setup_joins` tuples and clone sets become a small syntax tree; whether an inferred ON can be resolved is a given of each step.
- Strict mode with no tenant bound, where asking for predicates raises: nothing is returned to reason about.
- CoreExact.ExactQ: holds under the three conditions above, each shown to be needed by an if-and-only-if in `Limits` or `LimitsNested`.
- StatementGraph.ScopeStatement: what becomes of entities over selectables and of nested DML once the walk has found something, and the second walk with those left out, are not part of it.
- Scoper.Statement.VisitSelect: a candidate that an ORM entity LEFT-joins in is not left out here; its exclusion is treated in `OuterJoins`.
- ORM loader criteria themselves, vetting of entities over selectables, INSERT guards and predicates for the target of nested DML.
- LATERAL joins, recursive CTEs and window frames; grouping, DISTINCT, ordering and LIMIT are one arbitrary function of the selected rows.
- Lease acquisition by polling, its jitter and time-outs, and name or TTL validation: timing heuristics.
- StatementGraph.WalkDecides: a derived table that only columns name has a node of its own among the SELECT's children; whether SQLAlchemy always lists it there is not part of this model.
- LeaseSimulation.BackendsAgree: each name is used only as a lock or only as a semaphore of one size; a request reads the clock once, the same reading on both sides, and on Postgres one after the placeholder's expiry, the epoch.
- PostgresSafety.NoRevival: tokens that refresh or release are non-empty, as the callers' are.
- SQL dialects, drivers, engine pooling and connection failures: SQLite transactions are atomic steps.
- Discovery through entry points and the choice of an authentication provider; names are ordered by code point.
- Callbacks.Session.RunOnCommit: awaiting a callback is one step, and no callback registers another while it runs.
- Permissions.PermissionRegistry.SourceLabels: the labels it returns are not modelled, only what the call does to the caches.
- Permissions: translation keys, grant sources and the order in which groups are returned; grants of a role are sets, so the order of a role's list is not modelled.
- Permissions.PermissionRegistry.AllPermissions: each provider's answer is fixed for the length of one call.
- CacheFill.FillThrough: a read sees the source at one moment between its beginning and end.
- SingleFlight: fairness and the order in which waiting tasks are woken.
- Csp: splitting and joining of policy strings, the pattern for single sources, and providers evaluated per response; keywords such as 'none' are tokens like any other.
- RateLimit: fractions of a millisecond, `parse_rate`, per-route rules; which of several keys that end together are shed.
- Requirements: parsing of requirement strings, epochs, post-, development and local versions; versions are release segments with an optional pre-release rank.
