# Triplex: a Dafny model

Dafny 4.11 model of six parts of Triplex, a bitemporal fact database with
Datalog queries, and proofs about them. `dafny verify dfyconfig.toml` checks the
whole project.

**Constraint enforcement** (`Constraint`, `ConstraintEvaluation`,
`ConstraintEnforcement`, `ConstraintMeaning`, `ConstraintSlice`, `ConstraintCommit`,
`ConstraintLoad`, `ConstraintTransact`, `ConstraintRuns`, `ConstraintEscapes`). Before a commit the store
loads a slice of the facts, projects the transaction on it, and compares the violations
before and after at the valid-time edges. `Constraint` says what a violation is; the
loops are methods proved against that, and `ConstraintMeaning` says what reports and
enforcement come to in terms of the stored fields. Two arguments carry the design: sampling the
edges covers all time (`EdgesDecide`), and the slice decides as the whole store does
(`SliceDecidesAsStore`, although both sides sample different edges). `ConstraintCommit`
writes the operations as rows, patterns through the SQL statements, and reads them
back; `ConstraintLoad` loads the slice through the same statements;
`ConstraintTransact` is the transaction as the store runs it, and `ConstraintRuns`
follows whole runs of transactions on the table.

**The fact table** (`FactTable`, `FactReads`, `DependencyState`, `SqlConditions`,
`SqlAdapters`). A class with the row list and the commit counter; reads are cut by
position, recorded time and valid time. The condition builders of both SQL
dialects produce terms of a small condition language with three-valued logic.

**Pagination** (`Pagination`, `Keyset`, `PaginationRun`). Order completion, cursor minting
and checking, and walks over any number of requests while commits go on. The
executor's page step is a contract: the first `limit` rows strictly after the
cursor key, among the rows that the query, a function of the visible facts, gives.

**FoundationDB backend** (`RangeScan`, `WriteChunks`). Resumable range scans whose
pages read different stores, and the chunker for large writes.

**Tenant host** (`InstanceIdentity`, `Lifecycle`, `TenantRegistry`,
`HostProtocol`, `HostDeletion`, `HostExecution`, `HostOutcomes`, `TenantDatabase`).
Registry keys, life cycle, compare-and-set, any number of interleaved admin and data
requests in which each stretch between two waits is one step and messages and replies
may be lost, and the drain inside one tenant object.

**Handler cache** (`HandlerCache`), against a function of all requests so far.

`Orders`, `Facts` and `Text` hold what these share.

## Where the code does less than it seems to

- The projection takes a text that is there but empty at its word; the SQL adapters
  and the read-back take it as absent. Retracting by the entity type "" removes
  nothing in the projection and everything else the pattern asks for in the table:
  `ConstraintEscapes.EmptyPatternTextEscapes` is a transaction that is admitted and
  leaves a violated table. The same split makes an asserted entity type "" come back
  as none, a file name "" as none, and a pattern value that is JSON, a blob or sealed
  match other rows. `ConstraintCommit.OperationAgreesIff` is the exact condition, and
  the run theorems ask for it of every operation (`SafeOps`).
- Retracting `constraint-pending-i`, the id the projection gives to its i-th new
  fact, drops the fact from the projection only. No decoded fact id has that form
  (`ConstraintRuns.DecodedLeavesNewFacts`), so this takes a caller inside the process
  that hands over ids nothing has decoded: `ConstraintEscapes.RetractedPendingIdEscapes`,
  with the exact condition in `ConstraintEscapes.ProjectionAgreesIff`.
- SQLite compares a blob in a query pattern by its type only, PostgreSQL by its
  hash: `SqlAdapters.DialectsAgree` shows that this is the only difference.
- A fact with an empty valid interval still makes a temporal boundary at which
  nothing changes: `DependencyState.EmptyIntervalFalseAlarm`, with the exact
  condition in `DependencyState.DiffersAtBoundary`.
- A deletion whose request ends between `deleting` and `deleted` can never be
  finished, because `deleting` allows only `deleted` and every delete request first
  asks for `deleting`. One lost reply is enough: `HostDeletion.SomeDeletionIsStuck`,
  with the exact condition in `HostDeletion.DeletionFinishesIff`.

## Model

| member | source | states |
|---|---|---|
| Constraint.IdentityFixesViolation | packages/core/src/Constraint.ts:308-315 | Two violations of one report with the same identity are the same violation, so keeping one `actual` per identity loses nothing |
| Constraint.MultiplicityIgnoresOrder | packages/core/src/Constraint.ts:182-306 | How often a violation is reported depends on the facts as a collection, not on their order |
| ConstraintEvaluation.CheckCounts | packages/core/src/Constraint.ts:205-236 | The required and cardinality loops report, with the right number of copies, exactly the declared violations of such a rule |
| ConstraintEvaluation.CollectClaims | packages/core/src/Constraint.ts:239-246 | The claim table maps each value identity to exactly the distinct entities that claim it |
| ConstraintEvaluation.CheckUnique | packages/core/src/Constraint.ts:238-265 | The uniqueness loops report one violation for each claimant of a value claimed at least twice, with the number of distinct claimants as `actual`, and no other |
| ConstraintEvaluation.CheckReferences | packages/core/src/Constraint.ts:267-294 | The reference loop reports each fact whose value is not a reference to a live entity of the target type, once for each such fact |
| ConstraintEvaluation.DistinctSubjects | packages/core/src/Constraint.ts:193-202 | The subjects are the entities typed as the rule asks at that instant, each once |
| ConstraintEvaluation.EvaluateFacts | packages/core/src/Constraint.ts:182-306 | The report holds exactly the violations of the four rule kinds, as many times as the declarative definition says, in the report order |
| ConstraintEvaluation.ReportIgnoresOrder | packages/core/src/Constraint.ts:297-305 | Permuting facts and rules leaves the sorted report unchanged, element for element, when the texts sorted by tell apart the listed rules and the identities of the listed facts |
| ConstraintEvaluation.SomeCollation | packages/core/src/Constraint.ts:297-305 | Order by code units serves as the order of texts, whatever the texts of rules and values are |
| ConstraintEvaluation.ReportOrderMeans | packages/core/src/Constraint.ts:297-305 | Reports are compared by entity type, subject, path, code, rule key and value identity, in that order |
| ConstraintMeaning.SameValueMeans | packages/core/src/Constraint.ts:159-176 | Two facts have the same value exactly when both are sealed with the same blind token, whatever the ciphertext, or neither is sealed and the values are equal, or both are sealed without a token and are the same fact |
| ConstraintMeaning.RequiredMeans | packages/core/src/Constraint.ts:211-222 | Reported for exactly the entities typed by a visible fact that have no visible value, with `actual` 0 |
| ConstraintMeaning.CardinalityMeans | packages/core/src/Constraint.ts:223-234 | Reported for exactly the typed entities with more visible values than the maximum, and `actual` is how many there are |
| ConstraintMeaning.UniqueMeans | packages/core/src/Constraint.ts:238-265 | Reported for exactly the facts whose value at least two typed entities share, with the number of those entities as `actual` and the others named |
| ConstraintMeaning.SharedSubjectReported | packages/core/src/Constraint.ts:238-265 | An entity is reported exactly when it has a value, by blind token or plain, that another typed entity has |
| ConstraintMeaning.ReferenceMeans | packages/core/src/Constraint.ts:267-294 | Reported for exactly the facts that are no reference or refer to an entity not visibly of the target type, once for each |
| ConstraintEnforcement.Project | packages/core/src/Constraint.ts:341-375 | The loop computes the projection of the transaction on the facts: each operation acts on what the earlier ones left |
| ConstraintEnforcement.SortedEdges | packages/core/src/Constraint.ts:390-397 | The boundaries are the edges of the current and projected facts, each exactly once, strictly increasing |
| ConstraintEnforcement.PriorActuals | packages/core/src/Constraint.ts:402-402 | The map holds, for each identity violated before, its `actual` |
| ConstraintEnforcement.EdgesDecide | packages/core/src/Constraint.ts:377-399 | If at each edge of either state every violation was already there at least as large, then so it is at every instant |
| ConstraintEnforcement.NothingBeforeEdges | packages/core/src/Constraint.ts:178-179 | No violation holds before the first edge |
| ConstraintEnforcement.CompareAt | packages/core/src/Constraint.ts:399-408 | At one instant: exactly the violations after that were not there before, or were smaller, as often as the evaluation reports them |
| ConstraintEnforcement.NewlyViolated | packages/core/src/Constraint.ts:381-411 | The result is exactly the new or grown violations at the sampled edges, each as often per edge as the evaluation there reports it, and it is empty if and only if at no instant at all a violation appears or grows |
| ConstraintMeaning.EnforcementMeans | packages/core/src/Constraint.ts:381-411 | A transaction passes if and only if, for every rule and instant: no typed entity newly lacks a required value, none above its maximum has more values than before, no entity's value is newly shared or shared by more, and no reference newly dangles, all in terms of the stored fields |
| ConstraintMeaning.GrownCountIsRefused | packages/core/src/Constraint.ts:403-407 | If at some instant an entity's number of visible values is above the maximum and above what it was, the transaction is refused |
| ConstraintSlice.SourceIdsAre | packages/core/src/Constraint.ts:119-136 | The loader expands exactly the entities that a fact or an assertion of a source type names |
| ConstraintSlice.SliceLeavesOut | packages/core/src/Constraint.ts:114-148 | What the loader leaves out of the live facts is irrelevant to the rules: not of a source or target type, and not of a subject |
| ConstraintSlice.DropIrrelevant | packages/core/src/Constraint.ts:182-306 | Irrelevant facts change no violation, at any instant, of any of the rules |
| ConstraintSlice.ApplyKeepsRest | packages/core/src/Constraint.ts:341-375 | Projecting the transaction on the slice and on the whole fact set keeps the difference irrelevant |
| ConstraintSlice.SliceDecidesAsStore | packages/core/src/Constraint.ts:106-148 | Enforcing on the loaded slice and on the whole live fact set accept the same transactions, for every rule set, operation list and instant |
| ConstraintLoad.LoadByType | packages/core/src/store/TriplesLive.ts:329-330 | The type scan through the statement of either dialect, read back, is the live facts of that type, or all of them for an empty type |
| ConstraintLoad.LoadByEntities | packages/core/src/store/TriplesLive.ts:331-339 | The batch load through the statement of either dialect, read back, is the live facts of each requested entity in turn |
| ConstraintLoad.LoadSlice | packages/core/src/Constraint.ts:114-148 | The loader on the table gives the slice of the live facts, in either dialect |
| ConstraintLoad.Enforce | packages/core/src/store/TriplesLive.ts:324-364 | Load through SQL, project, evaluate and compare: the transaction passes if and only if, over all live facts of the table and all instants, no violation appears or grows |
| ConstraintCommit.ReadBackKeeps | packages/core/src/store/TriplesLive.ts:78-134 | Reading back keeps every column of a row, but for an empty entity type and an empty file name |
| ConstraintCommit.QueryRows | packages/core/src/store/TriplesLive.ts:431-433 | The statement of either SQL dialect answers a pattern with exactly the live rows that the pattern selects, in table order, empty texts constraining nothing |
| ConstraintCommit.OperationAgreesIff | packages/core/src/Constraint.ts:317-360 | For every table an operation leaves, read back, the facts that the projection leaves, if and only if its asserted type and file name and its pattern texts are not empty and its pattern asks for a plain value or none |
| ConstraintCommit.CommittedLiveFacts | packages/core/src/store/TriplesLive.ts:366-471 | After the commit of such operations the live facts of the table are those of the operations applied in turn, under the drawn ids, followed by the journal |
| ConstraintCommit.TransactionIsCommit | packages/core/src/store/TriplesLive.ts:252-475 | A transaction is one commit of the fact table with its instant, and is taken exactly when those writes fit the primary key |
| ConstraintTransact.FlushAsserts | packages/core/src/store/TriplesLive.ts:212-250 | A run of assertions is inserted as a whole, or not at all exactly when the primary key refuses one of them |
| ConstraintTransact.WriteOperations | packages/core/src/store/TriplesLive.ts:366-465 | Batching consecutive assertions and flushing them before each retraction leaves the rows that the operations leave one by one, and fails exactly when a drawn id is taken |
| ConstraintTransact.Transact | packages/core/src/store/TriplesLive.ts:252-475 | Rejected if and only if, over all live facts, all instants and all edges, some violation would appear or grow; rejected or failed, it leaves table and counter as they were; otherwise it commits at the next position; the table stays well formed |
| ConstraintRuns.DecodedLeavesNewFacts | packages/core/src/Branded.ts:3-6 | No id that has the form of a fact id is a pending id, so no decoded operation retracts a fact of its own transaction |
| ConstraintRuns.JournalReports | packages/core/src/store/transactionMetadata.ts:29-57 | Journal facts change no violation of rules about other types, at any instant |
| ConstraintRuns.CommitReportsAsProjected | packages/core/src/store/TriplesLive.ts:366-471 | What is in the table after the commit, read back, has the violations of the projected facts, at every instant, in either dialect |
| ConstraintRuns.RunNeverGetsWorse | packages/core/src/store/TriplesLive.ts:324-471 | Over any run of admitted, well-posed transactions on the table no violation among the facts read back appears or grows in `actual`, at any valid-time instant |
| ConstraintRuns.CleanStaysClean | packages/core/src/store/TriplesLive.ts:324-471 | A store with no violation at any instant never reaches one |
| ConstraintRuns.RunIsHistory | packages/core/src/store/TriplesLive.ts:252-475 | Each run from the empty table is one possible history of the fact table, with the transactions' instants, so everything proved of histories holds at each of its states |
| ConstraintRuns.RunTimeTravel | packages/sqlite/src/SqliteAdapter.ts:511-551 | A read at position i of a later state of the run shows what a latest-state read showed after the i-th transaction |
| ConstraintEscapes.ProjectionAgreesIff | packages/core/src/Constraint.ts:348-360 | For any operations, also with ids of any form: projection and commit hold the same facts up to ids if and only if each new fact whose pending id is retracted is removed by a later pattern as well |
| ConstraintEscapes.ProjectionAgreesOnNewFact | packages/core/src/Constraint.ts:348-360 | The same for one new fact |
| ConstraintEscapes.RetractedPendingIdEscapes | packages/core/src/Constraint.ts:348-360 | On the empty table, adding a person and retracting the pending id is admitted and leaves a violated table |
| ConstraintEscapes.EmptyPatternTextEscapes | packages/core/src/store/TriplesLive.ts:431-451 | On a clean table, retracting by the entity type "" is admitted and leaves a violated table, in both dialects |
| FactTable.Table.NextCommitPosition | packages/sqlite/src/SqliteAdapter.ts:106-123 | Each commit takes the next position |
| FactTable.Table.Insert | packages/sqlite/src/SqliteAdapter.ts:248-303 | A row is appended with its stamps, or, when the primary key is taken, nothing changes |
| FactTable.Table.Retract | packages/sqlite/src/SqliteAdapter.ts:466-485 | Exactly the live row of the id is stamped; the answer says whether there was one |
| FactTable.Table.BatchInsert | packages/sqlite/src/SqliteAdapter.ts:305-464 | Statements of at most 500 rows together insert all rows or none; it fails exactly on a wrong id count or a taken or repeated id |
| FactTable.Table.Transact | packages/sqlite/src/SqliteAdapter.ts:75-104 | A transaction takes a position and applies its writes with it, or leaves table and counter as they were |
| FactTable.ReachableWellFormed | packages/sqlite/src/SqliteAdapter.ts:248-303 | In every reachable table ids are unique, positions lie within the counter, and no row is retracted before it was recorded |
| FactTable.TimeTravel | packages/sqlite/src/SqliteAdapter.ts:511-551 | A read at position p shows, in table order, what a latest-state read showed right after commit p, also for facts asserted and retracted in one commit |
| FactTable.SnapshotStable | packages/sqlite/src/SqliteAdapter.ts:511-551 | A read that carries a position cut shows the same facts whatever is committed later |
| FactTable.CutPositionIsLast | packages/sqlite/src/SqliteAdapter.ts:523-533 | The cut position is the last commit that satisfies both cuts, when the clock does not run backwards |
| FactTable.BothCutsReadOneState | packages/sqlite/src/SqliteAdapter.ts:525-530 | A basis with both cuts reads the state right after the last commit that satisfies both, when the clock does not run backwards |
| FactTable.RecordedInstantReadsOneState | packages/sqlite/src/SqliteAdapter.ts:531-533 | The same for a basis with a recorded instant only |
| FactReads.ReadShows | packages/core/src/store/TriplesLive.ts:117-134 | A read shows each visible row exactly once, in table order, with the columns of the row as the fields of the fact |
| FactReads.AssertedIsRead | packages/sqlite/src/SqliteAdapter.ts:248-303 | What was asserted is read back with its own id, entity, attribute, value, type and interval (from the commit's instant if none was given), exactly while no later write retracted it and the interval holds the instant, and nothing else is read under its id |
| FactReads.AssertedIsReadAt | packages/sqlite/src/SqliteAdapter.ts:511-551 | The same of a read at any later position, with the retractions made by then |
| DependencyState.SourceIsLastTouch | packages/sqlite/src/SqliteAdapter.ts:146-183 | The latest source position is the position of the last commit that asserted or retracted a fact of the attributes, 0 if none did |
| DependencyState.SourceTimeTravel | packages/sqlite/src/SqliteAdapter.ts:146-155 | Asked at position p, the answer is what the latest answer was right after commit p |
| DependencyState.SourceAtInstant | packages/sqlite/src/SqliteAdapter.ts:150-152 | Asked at a recorded instant, it is the last touching commit made by then, when the clock does not run backwards |
| DependencyState.UnchangedSourceUnchangedFacts | packages/sqlite/src/SqliteAdapter.ts:141-200 | Equal source positions after two commits mean equal visible facts of the attributes, at every valid instant |
| DependencyState.BoundaryIsLeast | packages/sqlite/src/SqliteAdapter.ts:172-180 | The next boundary is the least edge still to come of a recorded-visible row of the attributes |
| DependencyState.ConstantUntilBoundary | packages/sqlite/src/SqliteAdapter.ts:156-190 | The visible facts of the attributes stay the same until the boundary, and for good without one |
| DependencyState.DiffersAtBoundary | packages/sqlite/src/SqliteAdapter.ts:172-180 | They differ at the boundary if and only if some row whose edge it is does not have an empty interval still to come |
| DependencyState.NonEmptyDiffersAtBoundary | packages/sqlite/src/SqliteAdapter.ts:156-190 | With non-empty valid intervals they always differ at the boundary |
| DependencyState.EmptyIntervalFalseAlarm | packages/sqlite/src/SqliteAdapter.ts:172-180 | A concrete fact with an empty interval is announced as a boundary though it never shows |
| DependencyState.BothCutsByPosition | packages/sqlite/src/SqliteAdapter.ts:146-171 | A basis with both cuts gets the source position and the boundary of its position alone |
| SqlConditions.TemporalClauseMeans | packages/sqlite/src/SqliteAdapter.ts:511-551 | With SQL NULL logic and as many parameters as marks, the temporal conditions accept exactly the rows the basis shows, for all four kinds of basis and for none |
| SqlConditions.ContentClauseMeans | packages/sqlite/src/SqliteAdapter.ts:607-641 | The value conditions accept exactly the rows whose stored columns hold the wanted value |
| SqlConditions.QueryClauseMeans | packages/sqlite/src/SqliteAdapter.ts:585-659 | A query accepts exactly the rows its basis shows and its pattern matches |
| SqlConditions.JoinAccepts | packages/sqlite/src/SqliteAdapter.ts:534-550 | Conditions and parameters appended in the same order stay aligned: the joined list accepts what both parts accept |
| SqlConditions.TypeNameInjective | packages/sql/src/queries.ts:30-62 | Rows with the type column of a value hold a value of the same kind |
| SqlConditions.ThreeValued | packages/sqlite/src/SqliteAdapter.ts:511-551 | AND and OR over NULL: unknown unless the other part decides |
| SqlAdapters.SqliteTemporal | packages/sqlite/src/SqliteAdapter.ts:511-551 | The pushed conditions and parameters are, in order, those of the temporal clause |
| SqlAdapters.SqliteQuery | packages/sqlite/src/SqliteAdapter.ts:585-659 | The positional statement selects exactly the rows that basis and pattern ask for, blobs by their type only |
| SqlAdapters.ParamCollector.Add | packages/core/src/params.ts:22-26 | A value is stored under the next number |
| SqlAdapters.PgTemporal | packages/postgres/src/PostgresqlAdapter.ts:430-465 | The numbered conditions are the temporal clause with its marks numbered in order, and the collector holds its parameters |
| SqlAdapters.PgQuery | packages/postgres/src/PostgresqlAdapter.ts:501-569 | The numbered statement selects exactly the rows that basis and pattern ask for, blobs by their hash |
| SqlAdapters.DialectsAgree | packages/postgres/src/PostgresqlAdapter.ts:523-548 | The two dialects select the same rows, for every table, if and only if the pattern does not ask for a blob value |
| SqlAdapters.EntitiesClauseMeans | packages/sqlite/src/SqliteAdapter.ts:556-563 | The batch condition accepts exactly the visible rows of the requested entities |
| SqlAdapters.GetByEntities | packages/sqlite/src/SqliteAdapter.ts:556-583 | Every requested id gets exactly its visible rows in table order, and no other id gets an entry; repeated ids make no difference |
| SqlAdapters.PgGetByEntities | packages/postgres/src/PostgresqlAdapter.ts:470-499 | The same with numbered placeholders, so both dialects group the same rows (`LoadedOneWay`) |
| Pagination.ProjectedOnce | packages/core/src/Pagination.ts:84-96 | The projected variables are exactly the find, aggregate and optional terms that start with `?`, each once, in the order of their first occurrences |
| Pagination.CollectVariables | packages/core/src/Pagination.ts:84-96 | The loop collects exactly those variables, each once, in order of first occurrence |
| Pagination.NormalizePaginationOrder | packages/core/src/Pagination.ts:103-124 | The loops complete the order, or fail on a variable that is not projected |
| Pagination.CompletedOrder | packages/core/src/Pagination.ts:98-124 | The completed order names every projected variable exactly once: first each caller's item that names a new variable, with its direction and in the order asked, then the other projected variables, ascending and in projected order; it fails exactly when the caller orders by something not projected |
| Pagination.FirstRequest | packages/core/src/Pagination.ts:194-296 | Without a cursor: accepted exactly for a safe position, instants that are not negative, a page size from 1 to 1000 (100 by default) and orders that complete; it then reads at that position and at the instants asked for, now otherwise, and fetches one row more than the page |
| Pagination.DecodesWhen | packages/core/src/Pagination.ts:151-191 | A cursor is read exactly when it is of version 1 and its basis is one that a first request could have |
| Pagination.CursorRefused | packages/core/src/Pagination.ts:237-276 | Which error a readable cursor is refused with: another basis, then another scope, then another query |
| Pagination.TextOrderMeans | packages/core/src/kv/datalog/executor.ts:676-682 | Texts are ordered by their first difference, a longer one after its prefixes |
| Keyset.CompileKeysetClause | packages/core/src/datalog/wrapper.ts:268-303 | The compiled alternatives accept, with SQL's NULL, exactly the rows that agree with the cursor on the components before one with a value and are beyond it there |
| Keyset.KeysetMeans | packages/core/src/datalog/wrapper.ts:186-303 | Over category, number, boolean and text of every sort column, that is exactly the rows after the cursor in the order of the page, for mixed directions and kinds |
| Keyset.KeysetCondition | packages/core/src/datalog/wrapper.ts:378-387 | So the SQL condition of a page behind a cursor finds exactly the rows after it |
| Keyset.IsAfterCursor | packages/core/src/kv/datalog/executor.ts:942-961 | The key-value backend's comparison loop decides the same |
| Pagination.MintedCursorAccepted | packages/core/src/Pagination.ts:194-298 | A cursor minted by a page is accepted if and only if query, page size, order and scope are the same and no other basis is asked for; the page then continues at its basis and row |
| Pagination.RowOrderTotal | packages/core/src/Pagination.ts:98-102 | Any order that names all projected variables orders the rows of a set-valued answer strictly and totally |
| PaginationRun.SnapshotPinned | packages/sqlite/src/SqliteAdapter.ts:511-551 | Later commits do not show through the basis of the first request |
| PaginationRun.OwnCursorAccepted | packages/core/src/Pagination.ts:237-276 | A walk's own cursor is accepted at any later request and resumes that walk |
| PaginationRun.LaterPage | packages/core/src/Pagination.ts:303-328 | The page behind a cursor holds the rows after the cursor's row, with a cursor of its own exactly when one more row was found |
| PaginationRun.WalkShowsSnapshotOnce | packages/core/src/store/TriplesLive.ts:646-676 | Following cursors, with any commits between requests, shows the first request's snapshot in the completed order, each row once, in full pages but for the last; every cursor handed out is accepted; the walk ends, within as many pages as rows, exactly when all is shown |
| RangeScan.KeyAfterIsNext | packages/foundationdb/src/FdbKvBackend.ts:262-262 | A key is at or after `key ++ [0]` if and only if it is after `key` |
| RangeScan.NextInterval | packages/foundationdb/src/FdbKvBackend.ts:447-463 | The next cursor covers exactly the keys of this one that follow the page's last key, in either direction |
| RangeScan.PageIsFull | packages/foundationdb/src/FdbKvBackend.ts:417-446 | A page holds as much of the cursor's interval as the page size, at least one, and what is left of the limit allow |
| RangeScan.ScanStaysOrdered | packages/foundationdb/src/FdbKvBackend.ts:417-468 | With any writes between pages the emitted keys run strictly in scan order inside the range, and the cursor covers exactly what follows them |
| RangeScan.CursorsNeverInverted | packages/foundationdb/src/FdbKvBackend.ts:447-463 | No later page reads an inverted range if the first does not |
| RangeScan.CompletedScanMissesNothing | packages/foundationdb/src/FdbKvBackend.ts:606-611 | A completed scan without limit emits each key of the range that was present throughout at exactly one place, and only entries that its pages met |
| RangeScan.FixedStoreScan | packages/foundationdb/src/FdbKvBackend.ts:417-468 | On a fixed store the pages so far start the first `limit` entries of the range, forward or reverse, are all of them once the cursor is gone, and each further page shows at least one more |
| RangeScan.FixedStoreScanEnds | packages/foundationdb/src/FdbKvBackend.ts:417-468 | On a fixed store the scan ends with exactly those entries, within one page more than there are entries |
| WriteChunks.ChunkEntriesByByteSize | packages/foundationdb/src/FdbKvBackend.ts:368-415 | Rejects exactly when some entry breaks a limit, with the reason of the first such entry; otherwise consecutive non-empty chunks that concatenate to the input, respect both caps, and are as few as in any such partition |
| WriteChunks.FitsMeans | packages/foundationdb/src/FdbKvBackend.ts:356-357 | A chunk fits when its keys and values, and for each entry the prefix and 64 bytes, are within the byte cap, and it has one entry or no more than the entry cap |
| WriteChunks.RejectionMeans | packages/foundationdb/src/FdbKvBackend.ts:359-385 | An entry is refused for its value first, then for its size on its own, with the number of bytes |
| WriteChunks.GreedyIsLeast | packages/foundationdb/src/FdbKvBackend.ts:393-407 | A greedy partition has no more chunks than any partition of the same entries |
| WriteChunks.LastWriteWins | packages/foundationdb/src/FdbKvBackend.ts:719-723 | After a list of writes each key has its last value in the list, and every other key the one it had |
| WriteChunks.KvStore.Transact | packages/foundationdb/src/FdbKvBackend.ts:718-723 | One transaction writes all of its entries |
| WriteChunks.KvStore.WriteChunks | packages/foundationdb/src/FdbKvBackend.ts:717-724 | However many chunk transactions go through, the store holds exactly the entries of those chunks on top |
| WriteChunks.KvStore.SetAll | packages/foundationdb/src/FdbKvBackend.ts:707-725 | Nothing is written on rejection; otherwise the store equals the old one with a prefix of the entries written, cut at a chunk border, and all of them when no transaction fails |
| InstanceIdentity.LengthIsBytes | packages/host/src/Identity.ts:30-30 | The length in the key is the number of UTF-8 bytes of the string's code points, a lone surrogate counting as U+FFFD |
| InstanceIdentity.PointsGiveUnits | packages/host/src/Identity.ts:30-30 | The code points of a string without lone surrogates give the string back |
| InstanceIdentity.PointFromBytes | packages/host/src/Identity.ts:30-30 | Those bytes give the code point back |
| InstanceIdentity.Utf8Grows | packages/host/src/Identity.ts:30-30 | A string is longer in UTF-8 than each of its proper prefixes, also one that cuts a surrogate pair |
| InstanceIdentity.PartParsesOneWay | packages/host/src/Identity.ts:30-30 | A length-prefixed part can be read off the front of a text in one way only |
| InstanceIdentity.CanonicalInjective | packages/host/src/Identity.ts:33-41 | Distinct identities have distinct keys, for all strings |
| InstanceIdentity.SameKeyIffSameIdentity | packages/host/src/Identity.ts:47-48 | Comparing keys is comparing identities |
| Lifecycle.ChainMovesOn | packages/host/src/Lifecycle.ts:52-86 | Along a chain of records identity, key, release, creation instant, schema version and configuration stay, the revision counts by one, the routing revision never falls and rises with each step to ready, suspended or deleting, and the life cycle never goes back |
| Lifecycle.TransitionsAre | packages/host/src/Lifecycle.ts:52-58 | Deleting follows every earlier state, deleted only deleting, ready only provisioning or suspended, suspended only ready |
| Lifecycle.RefusedTransition | packages/host/src/Lifecycle.ts:63-74 | A transition is refused exactly when it is not allowed, with both states |
| Lifecycle.RoutesAreUnique | packages/host/src/Lifecycle.ts:75-81 | A routing revision names at most one ready record of a chain |
| Lifecycle.DeletedIsFinal | packages/host/src/Lifecycle.ts:52-58 | Deleted comes last, and only straight after deleting |
| TenantRegistry.StoredLookup | packages/host/src/InMemoryTenantRegistry.ts:26-26 | Storing a record answers lookups of its identity and of no other |
| TenantRegistry.InMemoryTenantRegistry.Get | packages/host/src/InMemoryTenantRegistry.ts:9-9 | The record stored for the identity, if any |
| TenantRegistry.InMemoryTenantRegistry.CompareAndSet | packages/host/src/InMemoryTenantRegistry.ts:10-28 | Succeeds exactly when the expected revision is the stored one (or none is stored); then it replaces that identity's record only, otherwise nothing changes and the conflict names the stored revision |
| HostProtocol.TakenOverReadRecord | examples/tenant-host-cloudflare/src/worker.ts:388-407 | The registry takes a record only over the very record its writer had read |
| HostProtocol.StepKeeps | examples/tenant-host-cloudflare/src/worker.ts:178-322 | Every step of every kind of request keeps the invariant on registry, histories, waiting requests and executions |
| HostProtocol.HistoryIsChain | examples/tenant-host-cloudflare/src/worker.ts:178-322 | In every interleaving the registry history of an identity is a chain: revisions 1, 2, 3, each record extends exactly the record its writer read by an allowed transition or a provisioning-failure note, deleted comes last, and the registry answers with the last record |
| HostProtocol.ExecutedUnderOneReady | examples/tenant-host-cloudflare/src/worker.ts:295-322 | Each executed data operation carries the routing revision of exactly one ready record of its identity's history |
| HostProtocol.HistoryOnlyGrows | examples/tenant-host-cloudflare/src/worker.ts:382-408 | What the registry took for an identity is never taken back or replaced |
| HostProtocol.DeletedStays | packages/host/src/Lifecycle.ts:52-58 | Once the registry answers with a deleted record it does so for good |
| HostExecution.ExecutesOnOwnRoute | packages/host/src/Protocol.ts:173-186 | A step of a request in a tenant object executes it if the binding it was admitted under has its own identity and routing revision, and executes nothing otherwise; no other step executes anything |
| HostExecution.ExecutedOnOwnRoute | packages/host/src/Protocol.ts:169-190 | In every run, each data operation ran under a binding of its own identity and its own routing revision that its tenant object had, ready, at some point of the run |
| HostExecution.OvertakenRequestIsRefused | packages/host/src/Protocol.ts:179-185 | A request that passed the registry and is overtaken by a suspend and a resume executes nothing, although the instance serves again |
| HostExecution.SmoothRequestExecutes | examples/tenant-host-cloudflare/src/worker.ts:295-322 | A request for the current route of a serving instance executes once, under that route's binding |
| HostExecution.SmoothChange | examples/tenant-host-cloudflare/src/worker.ts:271-284 | A suspend of a ready, or a resume of a suspended, instance that loses no message moves record and object to the next routing revision |
| HostDeletion.SmoothProvisioning | examples/tenant-host-cloudflare/src/worker.ts:178-262 | Provisioning that loses no message ends with the record of its request, ready on the first route, and the object bound to it |
| HostOutcomes.ProvisioningStops | examples/tenant-host-cloudflare/src/worker.ts:213-225 | Provisioning that meets a ready record or another operation's, or whose read fails, changes nothing |
| HostOutcomes.ProvisioningResumes | examples/tenant-host-cloudflare/src/worker.ts:213-262 | Provisioning that meets its own operation's record takes the instance on to ready |
| HostOutcomes.RereadingDecides | examples/tenant-host-cloudflare/src/worker.ts:217-225 | After a creation that failed or lost its reply, the request goes on exactly when the record read again is its operation's |
| HostOutcomes.FailedActivationIsNoted | examples/tenant-host-cloudflare/src/worker.ts:228-246 | A failed activation is noted on the record, with operation, message, instant and as retryable |
| HostOutcomes.ChangeStops | examples/tenant-host-cloudflare/src/worker.ts:265-292 | A change that is settled, not allowed, finds no record or fails to read changes nothing |
| HostOutcomes.FailedControlWritesNothing | examples/tenant-host-cloudflare/src/worker.ts:274-292 | A change whose control call fails ends without writing to the registry |
| HostOutcomes.SmoothDeletion | examples/tenant-host-cloudflare/src/worker.ts:286-292 | A deletion that loses no message leaves record and object deleted, under the route it fenced with |
| HostOutcomes.RequestStops | examples/tenant-host-cloudflare/src/worker.ts:304-309 | A data request for an instance that is not ready, or with a stale route, changes nothing |
| HostOutcomes.ObjectRefuses | examples/tenant-host-cloudflare/src/worker.ts:537-541 | An object that is not bound or not ready lets no request in |
| HostDeletion.ControlIsAccepted | examples/tenant-host-cloudflare/src/worker.ts:452-470 | In every reachable world a tenant object accepts every control call that arrives |
| HostDeletion.AbandonedDeletionIsStuck | examples/tenant-host-cloudflare/src/worker.ts:286-292 | If the request that wrote `deleting` is over, nothing any request does finishes the deletion or revives the instance |
| HostDeletion.DeletionFinishesIff | examples/tenant-host-cloudflare/src/worker.ts:286-292 | In every run from the start, a deletion whose last record is `deleting` can still reach `deleted` if and only if the request that wrote `deleting` is not over |
| HostDeletion.SomeDeletionIsStuck | examples/tenant-host-cloudflare/src/worker.ts:286-292 | Whatever other requests there are, a run that provisions an instance and deletes it, losing the one reply to `deleting`, after which the deletion can never be finished |
| TenantDatabase.TenantDatabase.Bind | examples/tenant-host-cloudflare/src/worker.ts:452-470 | Refuses another identity, else keeps the identity and takes over routing revision and state |
| TenantDatabase.TenantDatabase.GetRuntime | examples/tenant-host-cloudflare/src/worker.ts:472-493 | Opens a runtime only when none is open |
| TenantDatabase.TenantDatabase.WaitForDrain | examples/tenant-host-cloudflare/src/worker.ts:495-498 | Goes on at once exactly when nothing is in flight, else is listed as a waiter |
| TenantDatabase.TenantDatabase.CloseRuntime | examples/tenant-host-cloudflare/src/worker.ts:500-504 | Takes the runtime out and disposes of that one |
| TenantDatabase.TenantDatabase.AdmitRequest | examples/tenant-host-cloudflare/src/worker.ts:537-542 | Admits exactly when bound and ready, and counts the request |
| TenantDatabase.TenantDatabase.FinishRequest | examples/tenant-host-cloudflare/src/worker.ts:506-512 | Counts down, and resumes every waiter exactly when it was the last |
| TenantDatabase.StepKeeps | examples/tenant-host-cloudflare/src/worker.ts:514-559 | Each step keeps: the counter counts the admitted unfinished requests, a request waits exactly when it is listed and then something is in flight, and runtime and requests belong to the bound identity |
| TenantDatabase.RunKeepsSound | examples/tenant-host-cloudflare/src/worker.ts:514-559 | The same over every interleaving |
| TenantDatabase.ControlRebinds | examples/tenant-host-cloudflare/src/worker.ts:518-536 | A control request is refused exactly when the object is bound to another identity, and then nothing changes; else the object is bound as it says, and an activation leaves a runtime of that identity open |
| TenantDatabase.DataRequestRuns | examples/tenant-host-cloudflare/src/worker.ts:537-553 | A data request left alone in a ready object runs under the object's binding and a runtime of its identity, and leaves counter, waiters and the other requests as they were |
| TenantDatabase.DataRequestStops | examples/tenant-host-cloudflare/src/worker.ts:537-553 | A request whose body cannot be read, and one to an object that is not bound and ready, leave the object as it was |
| TenantDatabase.FenceDrains | examples/tenant-host-cloudflare/src/worker.ts:518-553 | Behind a fence, while nothing reopens the object: no request is admitted, every earlier one has finished when the runtime is about to be closed, and no runtime is open after it was closed |
| HandlerCache.HandlerCache.Get | packages/http/src/HandlerCache.ts:23-39 | After any sequence of requests the cache holds what the function of that sequence says; a hit serves the build of the latest miss, a miss the new build, and the requested key is cached |
| HandlerCache.HandlerCache.DropOldest | packages/http/src/HandlerCache.ts:35-35 | The loop drops from the front until the capacity is met |
| HandlerCache.MakeCache | packages/http/src/HandlerCache.ts:14-21 | Fails exactly on a capacity below one |
| HandlerCache.ByLastRequestIs | packages/http/src/HandlerCache.ts:26-31 | The key list holds exactly the requested keys, by their last request |
| HandlerCache.CachedWhenRecent | packages/http/src/HandlerCache.ts:23-39 | A key is cached if and only if fewer than `capacity` other keys were requested since its last request |
| HandlerCache.CachedSize | packages/http/src/HandlerCache.ts:43-43 | The size is the smaller of the capacity and the number of distinct keys requested |
| HandlerCache.JustRequestedStays | packages/http/src/HandlerCache.ts:34-36 | The key just requested is cached, and the last to go |
| HandlerCache.LargerHoldsSmaller | packages/http/src/HandlerCache.ts:35-35 | A larger cache holds what a smaller one does, in the same order, at its back |

## Left out

- Joined texts: constraint keys and violation identities are structured tuples, not strings joined by separators; hashes, canonical JSON, base64url and JSON text are injective constructors.
- Lone surrogates in stored texts: texts of facts are sequences of Unicode characters (registry keys are UTF-16 code units). Two JavaScript strings that differ in a lone surrogate only differ in the projection, and a store that keeps UTF-8 may read them back equal.
- Canonical-JSON encoding errors, and numbers that are not finite.
- `localeCompare` is any order of texts that is strict and total (`Collation.Valid`).
- Values sealed without a blind token in the run theorems: two such values are comparable to nothing, and their identity is the fact id, which differs between projection and commit.
- How the journal lists its changes: a transaction carries any list of facts about its own id, of type `_Transaction` and not sealed, and the run theorems are about rules that do not name that type.
- Preconditions, command receipts, writes refused for reserved names, and the `createdBy`, `txId` and `schemaVersion` columns.
- The ids a commit draws are given with the transaction; the run theorems ask that they are new.
- Index dropping, PRAGMA settings, connection pools and error wrapping around the batch insert.
- SQL text, column affinities and result order: rows come in table order, and the condition language stands for the emitted text.
- A basis with both cuts in `dependencyState`: the code then uses the position only, and so does the model; the boundary theorems ask for at most one cut.
- The executor's query compilation, counts, debug output and filters: contracts and opaque parameters of the pagination model. The keyset clause is modelled for projected values, whose category, number, boolean and text columns it sorts by, not for aggregate columns.
- The FoundationDB client: conflicts, retries, timeouts, watches, and whether an inverted first range is an error or empty (the model reads it as empty; `RangeScan.CursorsNeverInverted` covers later ones).
- Other writers between the chunk transactions of one `setAll`.
- WriteChunks.KvStore.SetAll: the number of chunk transactions that go through is a parameter, because what makes one fail lies in the client.
- Agreement between registry and tenant binding under stale control calls: control calls come before the compare-and-set, so only what the registry chain and one object's binding give is stated.
- SHA-256 in provider keys: the key is an injective constructor over the canonical text.
- Authentication, authorization, request budgets, HTTP routing and response bodies; an execution in the model is one that was not refused for those reasons.
- Disposal of a runtime takes no time in the drain model; the runtime counts as closed when it is taken out.
- Effects held by the handler cache are opaque handler numbers, and its lock makes each request one step.
- `TriplesLive` beyond enforcement order, the KV hexastore, the Datalog compiler, `ConfigStore`, `Evaluate`, `Reactor`, `TypeSchema`, migrations, the CLI and the dashboard.
