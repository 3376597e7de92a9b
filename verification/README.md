# adelie: a verified model

adelie is a columnar SQL store. This project models the parts of it where correctness does not
follow from reading one function, and proves what they promise:

- **The store's protocol** (`src/storage`). Commits, the flusher, deletes, compactions, migrations,
  views and garbage collection interleave; every lock-protected region is one step of a machine, and
  the theorems speak of every point of every run. `Manifest`, `TableEdits`, `GcProtocol`,
  `RowsProtocol`, `Commits`, `Compaction`, `FieldReads`, `Migration`, `JobCommits`.
- **Durability**. The filesystem operations of flushes, compactions, migrations, other commits and
  collections, with everything a power loss may undo; one crash, and any number of crashes with a
  reopening after each. `Disk`, `Crash`, `Reboot`,
  `FlushRun`, `Verdict`.
- **The query rewriter** (`src/sql`). A plan denotes a sequence of rows under three-valued logic;
  every pass is shown to keep it. `Relational`, `Folding`, `Narrow`, `Pushdown`, `JoinOn`, `Sorting`,
  `RowOrder`, `Lowering`, `Planner`.
- **Pruning** against filtering. `Prune`, `Footer`.
- **Exact values and text** (`src/types`). `Order`, `Fit`, `Calendar`, `Text`, `Numerals`, `DecimalText`.
- **Buffers and kernels** (`src/exec`). `Like`, `Bitmaps`, `Columns`, `Concat`, `ConcatLoops`,
  `Builder`, `FromParts`, `Aggregates`, `MemoryBudget`.

`Options`, `Arith`, `Seqs`, `Sums` and `Bags` hold facts about options, division, sequences, sums over
sets and bags. Code that works by changing things is modelled by methods with loops, or classes whose
methods state their whole new state; code made of expressions by functions and lemmas. Integer widths
are written out wherever they can be reached.

## Findings

Where the code does not have a property one would expect, a lemma gives an input and another says
exactly when the property holds.

- A WHERE conjunct that touches only the right side of a LEFT join, or no column, is pushed below the
  join, and null-extended rows reappear (`src/sql/planner.rs:433-445`): `Pushdown.WhereFalseKeepsRows`.
  It is harmless exactly for the inputs of `Pushdown.LeftPushExactIff`, and for all inputs exactly for
  conjuncts that reject nothing (`Pushdown.LeftPushSoundIffUseless`).
- `view_at` may lose files under a reader: with `retain_manifests == 0`
  (`GcProtocol.ViewAtNeedsRetention`); with retention on, if a link outside the window was left by a
  failed prune (`GcProtocol.LeftLinkLosesFiles`); and after a reopening that lowers the retention, or
  raises it from zero, when even a version inside the new window may already be without its files
  (`GcProtocol.RaisedRetentionLosesFiles`). With links pruned in time, a store run at one retention and
  reopened at another is safe exactly when the first is positive and the second no smaller
  (`GcProtocol.ReopeningSafeIff`); whatever was left or reopened, a view of the current version, or of
  one inside the window of its process and of every earlier one, is (`GcProtocol.ReadersAreSafe`).
- A power loss between the rename of the manifest and the sync of its directory may leave both names
  on one file, if the filesystem persists the two halves of a rename separately. The next publication
  truncates the temporary name in place, and with it the manifest: `Reboot.AliasPossible`; safe exactly
  otherwise: `Reboot.NextWriteSafeIff`.
- `days_from_civil` works in i64 without overflow checks in the release profile: the first of March of
  the year 50505469855533200 is accepted as a date of the year 91 (`Text.WrappedYearAccepted`). Exact
  exactly for the years of `Text.ParsedDateExactIff`.
- A fraction's length is cut to eight bits before the scale check, so `0.`, 256 zeros and a `5` read as
  0.5 (`DecimalText.LongFractionMisread`, `DecimalText.DecimalParseExactIff`).
- A timestamp in the partial day above `i64::MIN` prints but does not parse
  (`Text.TimestampRoundTripFails`, `Text.TimestampRoundTrip`).
- The fields of a clock may carry a minus sign: `-1:00:00` is accepted (`Text.NegativeHourAccepted`,
  `Text.ClockWithinDay`).
- `strip_plus` runs before parsers that take a sign themselves, so `++5` and `+-5` are accepted as integers
  (`Numerals.TwoSignsAccepted`, `Numerals.ReadsExactly`) and `+-5` as a DECIMAL (`DecimalText.SpellsExactly`).
- Whether an INT64 SUM reports an overflow depends on how its rows were cut
  (`Aggregates.OverflowDependsOnTheCut`, `Aggregates.ReportsAlikeIff`); never for inputs of one sign.
- `Limit` over `TopK` differs from `Limit` over `Sort` for a positive limit with a negative offset
  (`Lowering.TopKSoundIff`). No SQL text gets there: the parser reads an unsigned integer
  (`src/sql/parser.rs:279-286`) and the binder is the only maker of a `Limit` (`src/sql/binder.rs:755`).
- `plan_partition` with no minimum proposes an empty merge, which `validate_merge` refuses
  (`Compaction.PlanLoneSegment`): exactly when a segment that is not small begins or ends the partition
  or follows another such (`Compaction.PlanPartition`).
- A list push that fails inside the list leaves its elements in the child builder, and the next list
  pushed begins with them (`Builder.LeftoverSeen`, `Builder.StrandedShowNext`); it leaves nothing exactly
  when the list is over-long or its first element is the one that does not fit
  (`Builder.RefusedUnchangedIff`).
- With batches of no rows, the crash harness reports every acknowledged batch as lost
  (`Verdict.EmptyBatchesAlwaysLost`); the verdict on a crashed workload is clean exactly when batches have
  rows or none was acknowledged (`Verdict.CrashIsJudgedSound`).
- AVG adds without overflow checks, and its comment that integer and DECIMAL sums cannot overflow before
  2^64 rows holds exactly for INT64 and for DECIMAL of at most 18 digits (`Aggregates.CommentHoldsIff`).
  Two DECIMAL(38, s) values can already sum to a negative number (`Aggregates.TwoDecimalsOverflow`). How
  many rows are safe, exactly, is 2^63 for UINT64, 2^64 for INT64 and the quotient of the largest i128 and
  10^p - 1 for DECIMAL(p, s) (`Aggregates.AvgExactIff`).

## Model

| member | source | states |
|---|---|---|
| Manifest.EditEvolves | src/storage/manifest/commit.rs:114-147 | every edit leaves garbage unnamed, names nothing again that was gone, and stamps whatever loses its last reference with the commit's version |
| Manifest.EditsEvolve | src/storage/manifest/commit.rs:99-112 | the same for a whole commit whose new segment ids were never used |
| TableEdits.TruncateLeaves | src/storage/manifest/commit.rs:681-698 | a truncated table shows nothing and keeps its identity; every other table, job and retired entry is as it was |
| TableEdits.CancelLeaves | src/storage/manifest/commit.rs:524-534 | cancelling a job changes no table |
| TableEdits.ForgetLeaves | src/storage/manifest/commit.rs:794-796 | exactly the named garbage is forgotten |
| TableEdits.ExpireLeaves | src/storage/manifest/commit.rs:700-717 | exactly the older retired entries go |
| TableEdits.ReleasedNow | src/storage/manifest/commit.rs:325-347 | whatever any commit releases is stamped with its own time and version, once |
| TableEdits.UndropRestores | src/storage/manifest/commit.rs:642-679 | a dropped table comes back with every segment and delete it had, whatever was committed since, unless its name was taken or it expired |
| TableEdits.UndropRefused | src/storage/manifest/commit.rs:661-679 | refused exactly when nothing of that name was dropped, or the name is taken |
| TableEdits.SwapLeaves | src/storage/manifest/commit.rs:442-522 | a swap puts the target's segments under all of the source's deletes, exactly when every source segment was handled |
| TableEdits.RevertRestores | src/storage/manifest/commit.rs:536-640 | after a swap and any flushes, deletes, compactions and commits elsewhere, a revert brings back the source's segments and those flushed since, under every delete made before or after the swap; refused exactly when a job runs or a migrated segment is gone |
| GcProtocol.ReadersAreSafe | src/storage/gc.rs:17-88 | at every point of every run, with any number of GC runs, left links and reopenings at any retention, the files of a live view are on disk if it is a snapshot, or was opened on the current version or on one inside the window of its process and of every earlier one |
| GcProtocol.TidyReadersAreSafe | src/storage/mod.rs:597-643 | while links are pruned in time, with retention on and no reopening that lowers it, that is every view |
| GcProtocol.RetainedVersionsReadable | src/storage/gc.rs:50-61 | every file named by the current version, or by one inside all windows so far, exists, though each GC run works from whatever manifest it read |
| GcProtocol.FilesConserved | src/storage/manifest/commit.rs:325-347 | a file once named is on disk and still reachable from the newest manifest, or GC deleted it; never both, never neither |
| GcProtocol.ViewAtNeedsRetention | src/storage/mod.rs:183-216 | with links pruned in time and the retention never lowered, all views of all runs keep their files if and only if `retain_manifests` is positive |
| GcProtocol.ReopeningSafeIff | src/storage/manifest/publish.rs:75-103 | for any two retentions: with links pruned in time, every view of every run at the first, reopened at the second, keeps its files if and only if the first is positive and the second no smaller |
| GcProtocol.RaisedRetentionLosesFiles | src/storage/gc.rs:50-61 | a store run at retention 0 and reopened at any from 2 on: `view_at` finds a version inside the new window whose file is gone |
| GcProtocol.LeftLinkLosesFiles | src/storage/manifest/publish.rs:69-103 | a run with retention on in which a left link lets `view_at` open a version whose file GC then deletes |
| GcProtocol.Collect | src/storage/gc.rs:35-72 | the loop removes exactly the files with a garbage entry whose release is at least the grace period ago and outside the window, named by no live manifest: in milliseconds and versions |
| GcProtocol.CollectableIsDeletable | src/storage/gc.rs:43-72 | whatever the loop removes the protocol's deletion step permits |
| RowsProtocol.StepVisible | src/storage/flush.rs:28-86 | each step changes the multiset of rows a reader sees by exactly its effect: a write adds, a delete hides what it matches, a failed flush withdraws, everything else nothing |
| RowsProtocol.RunConservesRows | src/storage/flush.rs:91-194 | over every run a row is visible as often as it was written, less what failed flushes withdrew |
| RowsProtocol.NothingInFlightWhenTaken | src/storage/flush.rs:49-86 | `in_flight` is empty whenever the flusher takes work |
| RowsProtocol.AcksAreHonest | src/storage/buffer.rs:26-53 | a ticket resolves to version v exactly when everything written under it was committed, whole, by the flush at v and by no other |
| RowsProtocol.WritesAreAtomic | src/storage/mod.rs:306-353 | all batches of one `write_many` share one fate |
| RowsProtocol.DeleteCoversEarlierWrites | src/storage/mod.rs:384-394 | when a delete commits, no matching row written before it began survives, whatever flushes and compactions ran between |
| RowsProtocol.CompactShows | src/storage/compact.rs:58-151 | a compaction's commit shows the same live rows, deletes landing after its preparation included |
| Commits.CreateIsCommit | src/storage/mod.rs:287-299 | a creation's step is `Commit::apply` of its `CreateTable` |
| Commits.FlushIsCommit | src/storage/flush.rs:165-194 | a flush's step is `Commit::apply` of one `AddSegments` for each table, in any order |
| Commits.DeleteIsCommit | src/storage/mod.rs:384-394 | a delete's step is `Commit::apply` of its `AddTombstone` |
| Commits.CompactIsCommit | src/storage/compact.rs:153-175 | a compaction's step is `Commit::apply` of `RemoveSegments` and `AddSegments`; refused exactly when an input is gone or a job runs |
| JobCommits.StartIsCommit | src/storage/manifest/commit.rs:353-377 | a migration's start is `Commit::apply` of `CreateJob` |
| JobCommits.AdvanceIsCommit | src/storage/manifest/commit.rs:379-440 | carrying segments, reused or rewritten, is `Commit::apply` of `AdvanceJob` |
| JobCommits.SwapIsCommit | src/storage/manifest/commit.rs:442-522 | the swap is `Commit::apply` of `SwapJob`, deletes included; refused exactly when a segment is not carried |
| JobCommits.LastCallIsCommit | src/storage/migrate.rs:215-262 | the last call's two edits in one commit leave what the two steps leave, one version earlier |
| JobCommits.CancelIsCommit | src/storage/manifest/commit.rs:524-534 | a cancel is `Commit::apply` of `CancelJob` |
| JobCommits.JobFlushIsCommit | src/storage/flush.rs:165-194 | a flush of a migrating table is `Commit::apply` of `AddSegments` |
| JobCommits.JobDeleteIsCommit | src/storage/mod.rs:384-394 | a delete on it is `Commit::apply` of `AddTombstone` |
| JobCommits.EditKeepsIds | src/storage/manifest/commit.rs:353-377 | after every commit a job's target has an id of its own, so the swapped-in table has no job |
| Compaction.ValidateMerge | src/storage/compact.rs:24-54 | accepts exactly the plans whose inputs are live, in the partition, and covered alike by every tombstone; each refusal names its cause |
| Compaction.PlanPartition | src/storage/engines/append.rs:124-153 | every non-empty plan passes `validate_merge`, plans share no input; the plans are exactly the runs of at least `min_inputs` small segments, each ending at a segment that is not small, a tombstone, 32 inputs or the end; an empty one is proposed exactly when no minimum is set and a segment that is not small begins or ends the partition or follows another such |
| Compaction.PlanLoneSegment | src/storage/engines/append.rs:124-163 | as for a partition of one such segment, and `validate_merge` refuses it |
| Compaction.SplitIntoSegments | src/storage/engines/append.rs:93-122 | keeps every batch, whole and in order |
| Compaction.AcceptedPlansAreSafe | src/storage/compact.rs:81-151 | an accepted plan is one the rows protocol may prepare, under the largest input sequence number and no other |
| Crash.SegmentsDurable | src/storage/flush.rs:91-163 | once the directories are synced every new segment is beyond loss, before any manifest names it |
| Crash.RenameRecoverable | src/storage/manifest/publish.rs:47-67 | at the rename the manifest's name is the old version or the new, and both are whole |
| Crash.CommitRecoverable | src/storage/manifest/publish.rs:44-73 | every prefix of a publication, also over a left temporary manifest, leaves a recoverable disk; the whole of it acknowledges |
| Crash.JobRecoverable | src/storage/flush.rs:91-194 | so does every prefix of writing segments, of any commit and of any collection of files out of use |
| Crash.CrashSafe | src/storage/flush.rs:275-288 | power lost at any operation of any run of flushes, compactions, migrations, other commits and collections: the store reopens without error on exactly the rows of a published version no older than the last acknowledgement |
| Reboot.CrashesSafe | src/storage/mod.rs:235-285 | the same for any number of processes, each ended by a power loss and followed by a reopening that keeps listed garbage and removes orphans |
| Reboot.NextWriteSafeIff | src/storage/manifest/publish.rs:47-57 | after a reopening the next temporary manifest is safe to write if and only if the left one is not also the manifest |
| Reboot.AliasPossible | src/storage/manifest/publish.rs:56-67 | between rename and directory sync that image can be found |
| FlushRun.Io.CreateDirAll | src/storage/io.rs:105-123 | creates the missing ancestors top-down, each followed by a sync of its parent: the recorded log is the specified one |
| FlushRun.Io.Flush | src/storage/flush.rs:91-194 | one flush records exactly the operations whose every prefix is shown recoverable |
| FlushRun.RunFlushes | src/storage/flush.rs:28-47 | the flusher's loop records exactly the log of the crash theorem |
| Verdict.Judge | harness/src/crash/verdict.rs:31-69 | accepts exactly the sound stores, and any defect it reports is one |
| Verdict.CrashIsJudgedSound | harness/src/crash/verdict.rs:31-69 | crash a workload anywhere and reopen: the verdict is clean if and only if batches have rows or none was acknowledged |
| Verdict.EmptyBatchesAlwaysLost | harness/src/crash/verdict.rs:31-69 | with batches of no rows it never is, once one was acknowledged |
| FieldReads.Realign | src/storage/read.rs:41-62 | the iterator advanced at matched fields puts every field's own column in its place, NULL elsewhere |
| FieldReads.ReadSegmentAs | src/storage/read.rs:67-104 | every field of the schema is its own column of the file by id, or NULL; the only error is a type that disagrees |
| FieldReads.ProjectBatch | src/storage/read.rs:107-137 | the same for a batch in memory |
| FieldReads.ReuseEqualsRewrite | src/storage/migrate.rs:78-153 | reading a reused segment equals reading a rewritten one, as the target and after any further migration |
| Migration.SwapConservesRows | src/storage/migrate.rs:214-265 | the swap shows exactly the old rows as the target schema sees them: reused, rewritten, tombstoned and buffered alike |
| Migration.MigrationConservesRows | src/storage/migrate.rs:158-274 | so does every step of a job among writers, flushes and deletes |
| Migration.CarriedOnce | src/storage/migrate.rs:163-200 | each handled segment is carried once, by itself or by files of its rows under its own sequence number, and no two share a file |
| Migration.MigrationEnds | src/storage/migrate.rs:158-274 | with nothing buffered and `job_step_segments` at least 1, however each call carries its share, by reuse or rewriting, the job is gone after exactly the computed number of calls |
| Migration.MigrationCanFinish | src/storage/migrate.rs:158-274 | and from every such store it can be called to its end |
| Migration.CallConservesRows | src/storage/migrate.rs:158-274 | each call shows readers the same rows |
| Folding.FoldingPreservesMeaning | src/sql/planner.rs:37-171 | constant folding keeps the fields, rows and order of every plan, LEFT joins included |
| Folding.FoldTreeSettles | src/sql/planner.rs:37-171 | and leaves no expression, at any depth of any node, that would still fold |
| Folding.FoldingIsIdempotent | src/sql/planner.rs:105-171 | folding an expression twice is folding it once |
| Relational.LogicIsKleene | src/exec/kernels/boolean.rs:55-69 | in the rows a plan denotes AND is false when a part is and unknown when none is but one is NULL; OR the other way round |
| Narrow.PruningPreservesMeaning | src/sql/planner.rs:176-335 | after pruning every name resolves and a plan that projects or aggregates has the same rows, also with no column used |
| Narrow.PruningKeepsRowCounts | src/sql/planner.rs:251-335 | row counts survive at every node |
| Narrow.PruningPrunes | src/sql/planner.rs:251-335 | no scan is left with a column nothing uses, but for the one it must keep |
| Narrow.UsedIsNamed | src/sql/planner.rs:176-229 | the used names are exactly those some expression, join key or sort key of the plan mentions |
| Narrow.NarrowestIs | src/sql/planner.rs:233-249 | the kept column is the narrowest fixed-width one, a variable one only if there is no other |
| Narrow.NarrowestIsEarliest | src/sql/planner.rs:233-249 | and the first of the equally narrow ones |
| Pushdown.PushdownPreservesMeaning | src/sql/planner.rs:339-553 | pushing down and merging filters keeps fields, rows and order of every plan in which no conjunct goes right below a LEFT join |
| Pushdown.InnerPushdownPreservesMeaning | src/sql/planner.rs:362-553 | in particular of every plan whose joins are INNER |
| Pushdown.LeftPushExactIff | src/sql/planner.rs:424-445 | for any two inputs, pushing right below a LEFT join keeps the rows if and only if each left row has a passing match, or no match and a conjunct true of the null extension |
| Pushdown.LeftPushSoundIffUseless | src/sql/planner.rs:433-445 | for all inputs if and only if the conjunct rejects neither the null extension nor any matching row |
| Pushdown.WhereFalseKeepsRows | src/sql/planner.rs:433-445 | WHERE FALSE above a LEFT join returns the left rows |
| Pushdown.PushDownSinks | src/sql/planner.rs:362-479 | no conjunct is left above a join one of whose sides could take it |
| Pushdown.MergeFiltersMerges | src/sql/planner.rs:481-553 | and no filter above a filter |
| JoinOn.BindJoin | src/sql/binder.rs:1172-1250 | for INNER joins, and LEFT joins of equalities and right-side filters, the split plan has the rows of the join on the whole ON condition; refused exactly when no conjunct equates a column of one side with one of the other, or the join is LEFT and some conjunct neither does nor reads only the right; each conjunct goes where the columns it reads say |
| RowOrder.CompareRows | src/exec/kernels/order.rs:43-83 | the loop over the sort keys: the first key on which two rows differ decides, NULLs standing where the key says, whatever its direction |
| RowOrder.RowsArePreordered | src/exec/kernels/order.rs:43-83 | for any keys that is a total preorder of the rows of any column types |
| RowOrder.OrderBySorts | src/exec/kernels/order.rs:35-41 | so the stable sort by it has every row, none preceding an earlier one, and rows no key tells apart in arrival order |
| Sorting.SortIsStable | src/exec/ops/sort.rs:54-75 | rows that compare equal keep their arrival order |
| Sorting.TopKFold | src/exec/ops/topk.rs:28-49 | folding a batch into the k rows held gives the first k of the stable sort of everything seen |
| Sorting.TopKMerge | src/exec/ops/topk.rs:58-64 | merging two workers' held rows gives the first k of all both saw |
| Sorting.TopKSink.Finish | src/exec/ops/topk.rs:66-68 | the answer is the first k rows of that sort |
| Lowering.SwapPreservesRows | src/sql/planner.rs:642-654 | an INNER join with its sides swapped and the restoring projection has the same bag of rows in the same columns |
| Lowering.SmallerSideIsBuilt | src/sql/planner.rs:642-654 | an INNER join builds the side with the smaller estimate, the right one of equals; a LEFT join its right side |
| Lowering.TopKSoundIff | src/sql/planner.rs:803-835 | Limit over TopK(n + offset) equals Limit over Sort for all rows if and only if the limit is not positive or the offset not negative |
| Lowering.LimitedSortIsTopK | src/sql/planner.rs:803-825 | ORDER BY with LIMIT holds exactly the rows that can be asked for, never all |
| Lowering.LowerSucceeds | src/sql/planner.rs:656-840 | a well-formed plan lowers: no name is unresolved |
| Lowering.LowerExact | src/sql/planner.rs:656-840 | with no side swapped the physical plan yields the denoted rows in order |
| Lowering.LowerBag | src/sql/planner.rs:656-840 | whatever is swapped it yields the same bag, if no LIMIT and no aggregate that depends on row order is above a swap |
| Planner.RewritePreservesMeaning | src/sql/planner.rs:23-33 | folding, pruning, pushdown and merging together keep every row in order, LEFT joins included, if no conjunct goes right below one |
| Planner.InnerKeeps | src/sql/planner.rs:23-33 | as none does in a query whose joins are INNER |
| Planner.PlanningPreservesRows | src/sql/planner.rs:23-33 | end to end: planning succeeds and executing the physical plan yields exactly the bag the query denotes, whatever the estimates if its own aggregates ignore order and it has no LIMIT, else if neither is above a swap |
| Planner.PlanningPreservesOrder | src/sql/planner.rs:23-33 | with no side swapped, in the denoted order, LIMIT included |
| Prune.MayMatchSound | src/storage/prune.rs:20-205 | if zone maps reject, the predicate is true on no row, for every nesting, flipped literal, NaN and missing bound |
| Prune.IndexMayMatchSound | src/storage/prune.rs:25-91 | the same for an index without false negatives |
| Prune.SkipsExactly | src/storage/prune.rs:93-151 | with bounds that occur, an ordering comparison or `<>`, either way round, is skipped exactly when no row satisfies it |
| Prune.EqualitySkips | src/storage/prune.rs:93-151 | an equality exactly when the literal lies outside the range |
| Prune.NullTestsSkip | src/storage/prune.rs:47-52 | a NULL test exactly when no row passes |
| Prune.BetweenSkips | src/storage/prune.rs:153-179 | BETWEEN exactly when the interval misses the range |
| Prune.InListSkips | src/storage/prune.rs:181-205 | IN exactly when every listed value does |
| Prune.NestingSkips | src/storage/prune.rs:20-54 | AND exactly when a part is skipped, OR exactly when all are, for zone maps and indexes |
| Prune.IndexSkips | src/storage/prune.rs:57-91 | an index skips exactly the equalities and lists it denies |
| Prune.CompareIs | src/exec/kernels/compare.rs:14-60 | the comparison rows are filtered by: the order of the values, NaN equal to nothing, NULL unknown |
| Prune.FlippedMeansSame | src/exec/expr/mod.rs:34-43 | a flipped comparison of swapped operands says the same |
| Prune.FoldIsKleene | src/exec/kernels/boolean.rs:55-98 | AND and OR of many parts are decided by one decisive part, else unknown if a part is |
| Prune.InListIs | src/exec/expr/eval.rs:112-130 | IN is true when an element is equal, false when all are unequal, else unknown |
| Prune.BetweenIs | src/exec/expr/eval.rs:132-143 | BETWEEN takes in both ends, by the order of the values |
| Prune.ListOutside | src/storage/prune.rs:181-205 | the early-exit loop rejects an IN list exactly when every element that is not NULL is outside the range |
| Prune.ScanMinMax | src/exec/column.rs:219-263 | the word-skipping scan finds the least and the greatest valid row, or nothing when no row is valid |
| Prune.BoundStats | src/storage/segment/footer.rs:168-201 | a minimum over 128 bytes becomes its longest prefix that fits and ends a character, a maximum over it is dropped, others stay; they bound everything the exact ones did |
| Prune.BoundaryIsWhole | src/storage/segment/footer.rs:194-201 | a character boundary of valid text is where the text before it is valid |
| Prune.TombstoneKeepMask | src/storage/scan.rs:249-290 | drops a row exactly when every predicate of some tombstone is true of it |
| Prune.ReadSegment | src/storage/scan.rs:103-242 | filtering what the pruned read returns equals filtering the full read |
| Footer.FooterStats | src/exec/column.rs:203-216 | the statistics of a column's buffers are bounds the pruning theorem accepts, and without long values bounds that occur |
| Footer.FootersAreStats | src/storage/scan.rs:161-242 | footers of all columns make the statistics a scan prunes by |
| Order.DecimalCmpExact | src/types/order.rs:43-58 | comparison across scales 0..38 is that of the rationals |
| Order.FractionBounds | src/types/order.rs:53-58 | no intermediate of it leaves i128 |
| Order.TotalPreorderOnType | src/types/order.rs:9-79 | on each type `total_cmp` is a total preorder |
| Order.TotalCmpIs | src/types/order.rs:9-79 | and it is this one: numbers, decimals, dates and instants by what they stand for, false before true, octets by proper prefix or first smaller octet, lists by first differing element, NULL last, prefix first |
| Order.ComparableIff | src/types/order.rs:9-26 | scalars compare exactly when they are of one type |
| Order.FloatOrder | src/types/order.rs:29-41 | NaN is greatest, the two zeros are equal |
| Order.CompareLists | src/types/order.rs:60-79 | the loop computes the lexicographic order, NULL elements last |
| Order.EqualLists | src/types/order.rs:102-115 | the loop with its `unknown` flag computes three-valued list equality |
| Order.SqlEqAgrees | src/types/order.rs:81-115 | SQL equality is true exactly for values that compare Equal and hold no NULL and no NaN |
| Order.ListEqIsKleene | src/types/order.rs:100-115 | lists are unequal when their lengths or some elements are, equal when all elements are, else unknown |
| Order.ScalarEqKnownIff | src/types/order.rs:81-98 | equality of scalars is known exactly within one type |
| Fit.CoerceIsExact | src/types/fit.rs:15-78 | a coerced value is of the column's type and means the same number, instant or list |
| Fit.CoerceIsComplete | src/types/fit.rs:15-78 | if the type holds such a value the code finds it, save the conversions it withholds |
| Fit.FitsIff | src/types/fit.rs:80-82 | a value fits if and only if the type holds a counterpart and the conversion is offered |
| Fit.RescaleIff | src/types/fit.rs:86-101 | rescaling gives the one decimal of the target type of the same value, if there is one; the checked product costs none |
| Fit.CoerceKeeps | src/types/fit.rs:15-40 | a value of the column's type is stored as it is |
| Fit.DetourAgrees | src/types/fit.rs:15-78 | going through another column first changes nothing |
| Fit.Utf8Iff | src/exec/column.rs:484-492 | text is valid exactly when it is the encoding (section 3 of RFC 3629) of some sequence of Unicode scalar values |
| Calendar.CivilRoundTrip | src/types/parse.rs:134-142 | every calendar date has a day number that gives it back |
| Calendar.DaysRoundTrip | src/types/text.rs:91-102 | every day number names a calendar date that gives it back |
| Calendar.DaysCountDays | src/types/text.rs:91-102 | the next number is the next day of the Gregorian calendar, and 0 is 1970-01-01 |
| Calendar.ExactIn64 | src/types/parse.rs:134-142 | in i64 arithmetic the day number is exact where no operation overflows |
| Calendar.DatesThatStay | src/types/parse.rs:134-142 | those are exactly the dates from -25252734927764585-06-07 to 25252734927766554-09-25 |
| Text.IntegerRoundTrip | src/types/text.rs:8-25 | every integer of a machine type prints and parses back |
| Numerals.ReadsExactly | src/types/parse.rs:22-38 | an integer is read from exactly its digits behind any zeros, an optional sign (minus for INT64 only), and an optional plus before the sign |
| Numerals.TwoSignsAccepted | src/types/parse.rs:36-38 | as in `++5` and `+-5` |
| Text.DateRoundTrip | src/types/parse.rs:146-162 | every i32 date prints and parses back |
| Numerals.DateReadsExactly | src/types/parse.rs:146-171 | a date of any i64 year is read from exactly a numeral of the year and two-character numerals of month and day |
| Text.ParsedDateExactIff | src/types/parse.rs:146-162 | an accepted text is read as the date it spells if and only if its year lies in the range computed without overflow |
| Text.WrappedYearAccepted | src/types/parse.rs:134-162 | a year far outside it is accepted as another date |
| Text.TimestampRoundTrip | src/types/parse.rs:173-215 | a printed timestamp parses back if its day's midnight fits i64, and is rejected otherwise |
| Text.TimestampRoundTripFails | src/types/parse.rs:212-212 | as `i64::MIN` is |
| Text.FormsAgree | src/types/parse.rs:181-187 | `T` with `Z`, a space, and a space with `Z` spell one timestamp; `T` without `Z` is none |
| Text.BareDateIsMidnight | src/types/parse.rs:177-179 | a date alone is its midnight, where that fits i64 |
| Text.AcceptedForms | src/types/parse.rs:173-188 | nothing else is accepted |
| Text.FractionIs | src/types/parse.rs:201-211 | a fraction is one to nine digits and stands for that part of a second |
| Numerals.ClockReadsExactly | src/types/parse.rs:189-200 | a clock is read from exactly three two-character signed numerals below 24, 60 and 60 |
| Text.ClockWithinDay | src/types/parse.rs:192-200 | an accepted clock is a time of day exactly when no field is negative |
| Text.NegativeHourAccepted | src/types/parse.rs:192-200 | and one of them can be |
| DecimalText.DecimalRoundTrip | src/types/text.rs:43-54 | every DECIMAL(p, s) value prints and parses back |
| DecimalText.SpellsExactly | src/types/parse.rs:50-68 | a text spells a decimal exactly when it is an optional plus, an optional minus, digits, and maybe a dot and more digits; and it spells no other |
| DecimalText.DecimalAccepts | src/types/parse.rs:50-90 | with fewer than 256 fraction digits, exactly the spellings the type holds without rounding are accepted |
| DecimalText.DecimalParseExactIff | src/types/parse.rs:50-90 | an accepted text is parsed exactly if and only if its fraction is shorter than 256 digits or zero |
| DecimalText.LongFractionMisread | src/types/parse.rs:75-75 | a text of 257 fraction digits read as 0.5 |
| Like.LikeMatch | src/exec/expr/like.rs:46-75 | the greedy loop decides the declarative wildcard relation for every text, token list and character equality |
| Like.ForgetEarlierStar | src/exec/expr/like.rs:46-75 | once the run after a `%` is matched at its leftmost place, a second `%` makes the first one's position irrelevant |
| Like.LikePattern | src/exec/expr/like.rs:15-75 | compiling and matching decides the relation on the pattern's characters: `%` any run, `_` exactly one, a backslash quotes the next, anything else itself |
| Like.RefusedIffOdd | src/exec/expr/like.rs:15-34 | a pattern is refused exactly when an odd number of backslashes end it |
| Like.Compile | src/exec/expr/like.rs:15-34 | the compiling loop reads every token as the pattern means it, and rejects exactly a trailing escape |
| Like.QuotedMatchesItself | src/exec/expr/like.rs:15-34 | a fully quoted pattern compiles and matches exactly the quoted text |
| Bitmaps.Bitmap.Set | src/exec/bitmap.rs:45-57 | changes one row and nothing else |
| Bitmaps.Bitmap.Push | src/exec/bitmap.rs:59-65 | appends one row, across word boundaries |
| Bitmaps.Bitmap.CountValid | src/exec/bitmap.rs:67-70 | the number of set rows |
| Bitmaps.FromWords | src/exec/bitmap.rs:83-91 | accepts exactly the packed forms |
| Bitmaps.MaskTrailing | src/exec/bitmap.rs:99-106 | clears exactly the bits past the length |
| Bitmaps.PackedIsCanonical | src/exec/bitmap.rs:83-106 | equal rows have equal words |
| Columns.RowsHold | src/exec/column.rs:144-175 | whatever a column gives back is NULL or a value of its type |
| Columns.SliceReads | src/exec/column.rs:332-379 | a slice is a valid column of the subsequence, LIST child and offsets included |
| Concat.SliceOfSlice | src/exec/column.rs:332-379 | a slice of a slice is a slice |
| Concat.ConcatReads | src/exec/column.rs:381-416 | concatenation appends the rows |
| Concat.CutRebuilds | src/exec/column.rs:332-416 | cut a column anywhere, any number of times, and concatenate: the identical column, with offsets, validity and null count |
| ConcatLoops.ConcatColumns | src/exec/column.rs:383-416 | the loops compute the columns appended one after another, and refuse exactly when that does |
| ConcatLoops.RefusedIffTooLarge | src/exec/column.rs:555-594 | columns of one type are refused exactly when their joint payload, or their children's, does not fit 32-bit offsets |
| Builder.PushReads | src/exec/column.rs:827-866 | a push appends the coerced value as one row, in a LIST column behind any leftover elements |
| Builder.PushRefusedIff | src/exec/column.rs:827-877 | refused exactly when bytes, elements or the elements' bytes pass `u32::MAX` |
| Builder.RefusedUnchangedIff | src/exec/column.rs:846-860 | a refused push leaves the builder as it was if and only if the value is no list, or an over-long one, or its first element's bytes do not fit; no row shows what it leaves |
| Builder.StrandedShowNext | src/exec/column.rs:846-860 | the next list pushed begins with the elements before the refused one |
| Builder.LeftoverSeen | src/exec/column.rs:846-860 | a concrete builder, list and next list |
| Builder.ColumnBuilder.PushNull | src/exec/column.rs:765-773 | one NULL row; the first creates the bitmap, all-valid up to it |
| Builder.ColumnBuilder.PushList | src/exec/column.rs:846-860 | pushes the list, or leaves exactly the specified state: unchanged if over-long or stopped at the first element, else the elements before the refused one in the child |
| Builder.ColumnBuilder.Push | src/exec/column.rs:751-763 | `DoesNotFit` exactly when the value does not coerce, and then nothing changes; after `TooLarge`, exactly the state of the refused push |
| Builder.FromValues | src/exec/column.rs:96-102 | the column holds exactly the coerced values, and a bitmap exactly when one is NULL |
| FromParts.ColumnFromParts | src/exec/column.rs:308-330 | any decoded buffers are accepted exactly when they form a valid column |
| Aggregates.Absorb | src/exec/agg/basic.rs:64-95 | the row loop leaves in every group the fold of its rows, and fails exactly when one of them does |
| Aggregates.Accumulator.Update | src/exec/agg/basic.rs:222-248 | the same for an accumulator's own groups |
| Aggregates.Accumulator.Merge | src/exec/agg/basic.rs:250-272 | and for another accumulator's groups under a group mapping |
| Aggregates.SplitInvariant | src/exec/agg/basic.rs:64-95 | for any cut of the rows and any injective mapping, update-then-merge is the single pass |
| Aggregates.CountMergeable | src/exec/agg/basic.rs:64-95 | COUNT qualifies |
| Aggregates.SumIsExact | src/exec/agg/basic.rs:194-209 | SUM is the mathematical sum, and reports overflow exactly when a running total leaves the range |
| Aggregates.FinishedSumIsExact | src/exec/agg/basic.rs:274-295 | a finished SUM is the exact sum or an error, and NULL without rows |
| Aggregates.SumFailsIff | src/exec/agg/basic.rs:194-209 | accumulating fails exactly when the sum of some first rows leaves the output type's numbers |
| Aggregates.SumMergeable | src/exec/agg/basic.rs:250-272 | SUM qualifies when neither run overflows |
| Aggregates.SplitOverflowIff | src/exec/agg/basic.rs:194-272 | exactly when a single pass and a split run succeed |
| Aggregates.ReportsAlikeIff | src/exec/agg/basic.rs:194-272 | exactly when the two report alike |
| Aggregates.OneSignReportsAlike | src/exec/agg/basic.rs:194-272 | always for inputs of one sign |
| Aggregates.OverflowDependsOnTheCut | src/exec/agg/basic.rs:194-272 | not always otherwise |
| Aggregates.AvgIsExact | src/exec/agg/basic.rs:403-450 | in wrapping i128 additions AVG holds the exact sum and count if and only if the sum fits |
| Aggregates.AvgMergeable | src/exec/agg/basic.rs:428-450 | AVG qualifies |
| Aggregates.AvgExactIff | src/exec/agg/basic.rs:403-426 | for every type and n: the sum of every n-row column is exact if and only if n is within the type's limit |
| Aggregates.CommentHoldsIff | src/exec/agg/basic.rs:368-369 | the limit is at least 2^64, as promised, exactly for INT64 and DECIMAL of at most 18 digits |
| Aggregates.TwoDecimalsOverflow | src/exec/agg/basic.rs:418-418 | two rows of the largest DECIMAL(38, s) sum to a negative number |
| Aggregates.WinnerIsFirstBest | src/exec/agg/basic.rs:556-572 | MIN, MAX and ARG keep the first of the best entries |
| Aggregates.WinnerIsExtreme | src/exec/agg/basic.rs:556-572 | best by the order of the values: nothing is greater for MAX, or less for MIN, and all before fall short |
| Aggregates.WinnerMergeable | src/exec/agg/basic.rs:685-749 | they qualify, first-wins ties included |
| MemoryBudget.AccountingHolds | src/exec/context.rs:58-97 | in every interleaving of the atomic operations `used` is what is held plus what is under way, and never above the limit |
| MemoryBudget.QuiescentUse | src/exec/context.rs:146-207 | with nothing under way it is the sum of the reservations |
| MemoryBudget.NoReleaseSaturates | src/exec/context.rs:90-97 | no saturating subtraction saturates |
| MemoryBudget.RefusedIffOverLimit | src/exec/context.rs:69-88 | a request is refused exactly when it would pass the limit |
| MemoryBudget.PeakIsHistoricalMaximum | src/exec/context.rs:69-88 | the peak never overstates, and is the historical maximum when no grow is half done |
| MemoryBudget.ResizeReachesTarget | src/exec/context.rs:193-201 | a resize reaches its target exactly |
| MemoryBudget.Reservation.Grow | src/exec/context.rs:179-184 | exactly the bytes, or nothing changes |
| MemoryBudget.Reservation.Resize | src/exec/context.rs:193-201 | exactly the target, or nothing changes; the rest of `used` stays |

## Left out

- Pushdown.PushdownPreservesMeaning: excludes plans in which a conjunct goes to the right below a LEFT join, because the property is false there; the exact condition is `Pushdown.LeftPushExactIff`.
- Lowering.LowerBag: excludes a LIMIT, or an aggregate that depends on row order (ARG_MIN, ARG_MAX, the collecting ones), above a swapped join, whose order the swap changes; which aggregates those are is a property of the world, not of this model.
- Planner.PlanningPreservesRows: the restrictions of `Pushdown.PushdownPreservesMeaning` and `Lowering.LowerBag` carry over.
- Migration.MigrationEnds: the reuse of the last segments and the swap are two steps here and one commit in the source, so version numbers differ by one; the manifests are otherwise equal (`JobCommits.LastCallIsCommit`).
- Crash.CrashSafe: the operations of two jobs do not interleave, except that a commit may fall between another's writing and its commit; rows are those of the segment files, and tombstones, being in the manifest's file, come and go with its version.
- Reboot.CrashesSafe: assumes the image after each crash does not have the temporary manifest and the manifest on one file; `Reboot.NextWriteSafeIff` shows this is needed.
- Folding.FoldingPreservesMeaning: scalar functions are total; which constants fold is a parameter, and errors at run time are not modelled.
- Aggregates.AvgIsExact: FLOAT64 sums and the final division are not modelled; a build with overflow checks stops where this one wraps.
- The store root's own creation is not synced by the source and is taken as durable; I/O errors inside a flush, and a second process on the same directory, are not modelled.
- Readers in other processes, which only a grace period protects.
- A compaction racing the start of a migration job: the check and the commit are not atomic.
- The bytes of segments, footers, manifests and spill files; indexes, engines and join kernels enter through their contracts.
- Floats are the reals with two infinities, NaN and a signed zero; their arithmetic and text are not modelled, nor the text of UUIDs, addresses, bytes and lists.
- Lexer, parser, statement dispatch, COPY, CSV, the command line and the benchmarks.
- The checks of new segments against a schema, of tombstone values and of columns dropped under a job (`src/storage/manifest/commit.rs:249-279`, `719-792`) are not modelled.
- Counters are unbounded, except where a width is reachable; a COUNT past 2^64 rows is not modelled.
