# A verified model of the personal-finance ledger

This project models, in Dafny 4.11, the ledger algebra of the accounting backend and proves what it promises: the
pipeline that turns raw postings into resolved ones and the cache that stores its output, the import that tells a second
coffee from a second upload, the write protocols that run concurrently, the surgery on the category tree, the matching
and funding loops, and the fast forms of balances and exchange rates. `dafny verify dfyconfig.toml` checks all of it.

Amounts are `int` (ten-thousandths) or exact `real`; dates are numbers; tables are maps by natural key; whatever the
code reads from outside (a clock, a similarity score, another transaction's commit) is a parameter, so every theorem
holds for all of its values.

## Where things are

| files | what they model |
|---|---|
| Frame, Categorization, Linking, Resolution, OverlayLaws, StageLaws, Locality, Agreement, Conservation, Display, IncomeStatement | the frame, the five overlay stages, the composed pipeline and its derived flags, and what each stage does to a posting told from the outside |
| Tables, Loading, Footprint, QuietWrites, CategoryWrites, Slices, SplitOverrides, ResolvedIds, Recompute, Projection, TornReads | the seventeen source tables, the trigger footprints, what one transaction's resolution reads, and the recompute, from one state or several |
| Rebase, Drains, ProjectionRuns, ProjectionWindows, ProjectionStart, ProjectionStore, ProjectionReach, ProjectionExamples | the cache under interleaved units of work and drains, statement by statement, from where the migration leaves it: when it goes stale, and runs that reach each limit |
| Importing, ImportLaws, LedgerStore | import by counting look-alikes, its laws, and the write of the ledger |
| NaturalKeyMerge, NaturalKeyRuns, NaturalKeyTable, Provisioning, RowVersions | the concurrent write protocols as interleaved statements |
| Taxonomy, CategoryEdits, CategoryNames, CategoryReferences, Retirement | renaming, merging, deleting and retiring categories |
| Reconciling, ReconcileLaws, Duplicates, FileMatching, Paystubs, Goals, Schedules | the matching, grouping and funding loops |
| Balances, ZeroSum, ExchangeRates | cumulative and rolling forms against the plain ones, rounding, the commit check |

## Where the code and its documentation differ

Each of these is modelled as the code has it, with the exact condition proved.

- "Forgetting is impossible" holds up to two windows. A trigger's insert does nothing against a marker that is already
  committed, so a drain that claims that marker before the unit of work commits takes it away unseen; and a trigger's
  join cannot see what another open unit of work has written. A commit slips a transaction through a window if it touches
  one that was claimed or changed underneath it. In every run the cache is right throughout if and only if it is right at
  the start and no such commit strands a transaction, itself or through the drain that had begun to read by then
  (`ProjectionWindows.EveryRunExactly`). Each window loses any change made in it (`ProjectionReach.ClaimUnderneathLoses`,
  `ProjectionReach.ChangeUnderneathLoses`): an amount edited while its page is read, a category retired while an import
  files a posting under it (`ProjectionExamples.EditIsLost`, `ProjectionExamples.RetirementIsLost`).
- The migration that adds the projection promises that the first read fills it, since a drain treats having no row and no
  marker as a cold cache. A drain recomputes only what is in the queue, and the migration puts nothing there. The cache
  is right after it exactly if no transaction resolves to a row (`ProjectionStarts.InstalledIsRight`), and no read has
  anything to claim. Nothing is stored for a transaction until a trigger has named it and a drain has taken its marker,
  or a rebuild, which no request makes, has run (`ProjectionStarts.UnfilledUntilDrained`); one recorded before the
  migration and left alone stays missing (`ProjectionExamples.UpgradeIsNotFilled`). A database migrated while empty
  starts right (`ProjectionStarts.BlankIsRight`).
- A drain of more than one batch, with nothing committed in between, can be refused by the projection's primary key: it
  is, exactly when a posting id has moved to a transaction drained in an earlier batch than the one still storing it
  (`Recomputing.RecomputeRefused`). Such a drain of at most 5,000 transactions never is. Pruning a transaction and
  importing its postings again among more than 5,000 others gets there (`ProjectionExamples.ReimportIsRefused`).
- The triggers name only the member of a transfer link in the changed row. A transaction left out of the queue goes
  stale exactly when a link it stays in was handed another partner (`Projection.StaleOnlyByMovedPartner`, and
  `ProjectionExamples.MovedPartnerIsNotQueued` for two such states), so both memberships must change in one unit of work.
- The projection's own description says a rename dirties nothing. It enqueues exactly the transactions filed under the
  category (`CategoryWrites.RenameEnqueues`), although none resolves differently
  (`CategoryWrites.RenameChangesNothing`); only on a category with nothing filed under it is the queue left empty.
- An override is documented as able to target a split leg. Overrides are loaded for stored postings only and run after
  splits, so correcting a split posting, or dropping its correction, changes nothing any transaction shows
  (`SplitOverrides.SplitOverrideChangesNothing`, `SplitOverrides.SplitPostingIgnoresItsOverride`).
- A rebuild from the archive keeps the sum of each fingerprint's counts over the files, a history of imports their
  maximum; the two agree exactly when no two files share a fingerprint (`ImportLaws.RebuildAgainstHistory`).
- Retirement is said never to leave a tombstone naming another tombstone, and a cycle merely to end the walk. A ring of
  merges does leave one; redirects stay one hop long exactly when no retired key leads back into the mapping
  (`Retirement.OneHopExactly`). No rename or delete builds a ring (`Retirement.MergesKeepOneHop`,
  `Retirement.DeletesKeepOneHop`).
- A withdrawal run never takes a goal below zero exactly if no goal that has money is listed twice
  (`Goals.OverdrawsIffListedTwice`).
- The smoothed rate series is described as having no gaps; a currency last quoted more than a window before a day has
  none for that day and all later ones (`ExchangeRates.EmptyTailExactly`).
- The zero-sum trigger checks a posting's new transaction only. Moving a posting between transactions leaves the old one
  unchecked, and that is the only way round it (`ZeroSum.CommitKeepsBalance`).
- `unbalanced_transactions` says a transaction in several currencies is not checked; it checks every (transaction,
  currency) group. The commit trigger is the one that skips them, so the two agree on a transaction exactly if it is in
  one currency or each of its currency groups cancels (`ZeroSum.ChecksAgreeExactly`).
- A paystub split is proposed only where it adds up, but to the deposit, and the match allows the bank posting a cent
  either way. Confirmed as it stands it is saved exactly when it has two legs or more and the two amounts are equal; a
  proposal of one leg goes to the override route whatever the amounts (`Paystubs.ConfirmProposal`), and sent to the split
  route would be refused although it sums to the posting (`Paystubs.SumIsNotEnough`).

## Model

| member | source | states |
|---|---|---|
| Locality.StageLocal | src/accounting/ledger/resolution.py:167-209 | each stage, run on any set of whole transactions, gives the restriction of what it gives on the whole ledger |
| Locality.ResolveLocal | src/accounting/ledger/resolution.py:167-209 | so does the composed pipeline, in order and contents, for any overlays |
| Locality.DisplayRowsLocal | src/accounting/ledger/resolution.py:323-403 | so do the rendered rows with every derived flag |
| Resolution.ApplyOverlays | src/accounting/ledger/resolution.py:167-209 | the loop over stages computes the taxonomy lookup followed by the five stages |
| OverlayLaws.RuleMatchesExactly | src/accounting/ledger/categorization.py:115-125 | a rule matches a leg if and only if it is active, its text is somewhere in the description up to letter case, it is for that account or any, and the transaction is not opted out of it |
| OverlayLaws.BestRuleWins | src/accounting/ledger/categorization.py:126-134 | some rule is found if and only if one matches, and the one found has the smallest priority number of those that match and, among equals, the first id |
| OverlayLaws.PlaceholderFollowsTheWinner | src/accounting/ledger/categorization.py:165-215 | of a two-leg transaction with one placeholder leg, that leg comes out on the counterparty of the rule that wins for the other leg if no statement is imported for that account, and else where it was; no other column of either leg changes, and nothing else comes out for the transaction |
| OverlayLaws.RulesLeaveOthersAlone | src/accounting/ledger/categorization.py:172-179 | every other leg comes out as it went in |
| OverlayLaws.ShownRuleWins | src/accounting/ledger/resolution.py:323-403 | the rule shown for a transaction is the one that repointed it, and none where a manual override moved an account |
| OverlayLaws.TextOrder | src/accounting/ledger/categorization.py:126-130 | ties fall back to text order: a prefix first, else the smaller character at the first difference |
| StageLaws.LookupReads | src/accounting/ledger/categorization.py:253-287 | a retired category reads as its successor, or as nothing, any other as itself, and no other column changes |
| StageLaws.SplitsBecomeLegs | src/accounting/ledger/categorization.py:290-329 | each split posting is there as its legs, each with the leg's own amount and categories, its description if it has one, and the posting's every other column; each other posting is there untouched |
| StageLaws.OverridesCorrect | src/accounting/ledger/categorization.py:332-359 | each posting is there with every field its override sets, column by column, and every other as it was |
| StageLaws.MergesDropAndTitle | src/accounting/ledger/categorization.py:362-401 | just the postings of no duplicate are there, a kept transaction's under the last description a merge gives it |
| StageLaws.LinksMark | src/accounting/ledger/transfers.py:298-350 | each posting is marked with the other side and the source of the one link its transaction is in, and with nothing if it is in none |
| Agreement.ResolveUnfolds | src/accounting/precedence.py:116-122 | the declared stage order is redirects, rules, splits, overrides, merges, links |
| Agreement.DisplayRowsAgree | src/accounting/ledger/resolution.py:95-164 | two sets of overlays that agree on what these rows can look up render them alike |
| Categorization.ApplyPostingSplits | src/accounting/ledger/categorization.py:290-329 | the row loop replaces each split posting by its legs and leaves the rest, in frame order |
| Categorization.ApplyManualOverrides | src/accounting/ledger/categorization.py:332-359 | the row loop overwrites exactly the fields an override sets |
| Categorization.ApplyPostingMerges | src/accounting/ledger/categorization.py:362-401 | collecting duplicates and descriptions and then filtering once drops and renames exactly what the merges name |
| Conservation.ResolvedTotal | src/accounting/ledger/categorization.py:290-401 | for any overlays, a merged duplicate's total becomes zero and a surviving transaction's moves by exactly what its splits fail to add up to |
| Conservation.ResolvingKeepsTheLedgerBalanced | src/accounting/ledger/categorization.py:290-401 | if every split adds up, a ledger balanced per transaction and currency resolves to a balanced one |
| Conservation.OnlyDuplicatesDisappear | src/accounting/ledger/categorization.py:362-401 | a transaction is in the resolved ledger if and only if it was in the raw one and no merge calls it a duplicate |
| Conservation.RulesKeepImportableBalances | src/accounting/ledger/categorization.py:137-215 | the rule stage leaves the balance of every account statements are imported for unchanged |
| Conservation.RulesAreIdempotent | src/accounting/ledger/categorization.py:165-215 | running the rules over their own output changes nothing |
| Linking.PartnersAreMutual | src/accounting/ledger/transfers.py:298-350 | on a matching, marking is an involution on partners and both sides show one source |
| Linking.LinkingOnlyMarks | src/accounting/ledger/transfers.py:298-350 | linking adds, drops and reorders no row; it sets the link columns only |
| Display.LatestCandidate | src/accounting/ledger/resolution.py:323-403 | the override shown for a transaction is its latest-loaded account override, if any leg has one |
| Display.ManualOverrides | src/accounting/ledger/resolution.py:323-403 | one walk over the overrides in load order fills the table of what each transaction shows |
| Display.VirtualTransactions | src/accounting/ledger/resolution.py:323-403 | one pass finds exactly the transactions with a leg on a virtual account |
| Display.ResolvedDisplayRows | src/accounting/ledger/resolution.py:323-403 | rendering from tables filled once equals rendering each row from its own definition |
| IncomeStatement.DisplayMirrorsIncomeStatement | src/accounting/dashboard/income_statement.py:82-106 | the stored income/expense flag selects exactly the legs the income statement sums, in order |
| IncomeStatement.FlagExactly | src/accounting/ledger/resolution.py:323-403 | a posting is flagged as real income or expense if and only if it is on no payee or income source itself, another leg of its transaction is, and it is no confirmed transfer |
| Loading.LedgerLoads | src/accounting/importers/ingest.py:95-155 | the frame holds each posting of the transactions asked for once, in order, with its own columns, its transaction's date and description and its tags |
| Loading.RulesLoad | src/accounting/repositories/interpretation.py:267-302 | each transfer rule is loaded once, with all its columns and the transactions opted out of it |
| Loading.SplitLoads | src/accounting/repositories/interpretation.py:732-790 | a split is loaded if and only if it has a leg, with all its legs in ordinal order |
| Loading.MergesLoad | src/accounting/repositories/interpretation.py:935-985 | each merge is loaded once, with what it keeps, its description and its duplicates |
| Loading.LinksLoad | src/accounting/repositories/interpretation.py:1076-1149 | each link is loaded once with its two members in canonical order, its source and its rule, and together they are a matching |
| Loading.OverridesLoad | src/accounting/repositories/interpretation.py:1377-1458 | a posting asked for has an override if and only if it has a correction or a suggestion waiting; the override says what the correction says, tags only if those were corrected, and what the suggestion says |
| Loading.SuggestionIsShown | src/accounting/repositories/projection.py:167-232 | a recomputed row shows the suggestion waiting for its posting, and is selected if none is |
| Footprint.StatementFootprint | src/accounting/db/projection.py:251-394 | for every one of the source tables and any insert, update or delete, a transaction its trigger does not enqueue reads what it read before |
| Slices.SliceDetermines | src/accounting/precedence.py:124-177 | equal inputs from the declared tables and equal link partners resolve to equal rows and flags |
| Slices.BatchIsLocal | src/accounting/repositories/projection.py:167-232 | a recompute of any batch agrees, transaction by transaction, with recomputing each alone |
| Slices.BatchOverridesSuffice | src/accounting/repositories/interpretation.py:1325-1374 | loading overrides for a batch's postings says nothing different from loading more of them |
| Slices.RecomputeMatchesFullRead | src/accounting/repositories/projection.py:314-331 | one transaction's recompute is what the whole-ledger read shows for it |
| TornReads.TornBatchIsLocal | src/accounting/repositories/projection.py:167-232 | a batch that reads its rows, its overlays and its overrides at three different states agrees, transaction by transaction, with reading each alone at those states |
| TornReads.TornReadMatches | src/accounting/repositories/projection.py:167-272 | such a batch shows a transaction as one read does if its own slice and the members of its links are the same at all three |
| SplitOverrides.SplitOverrideChangesNothing | src/accounting/repositories/interpretation.py:1325-1374 | two states that differ only in the correction, its tags or the suggestions of one split posting resolve and render every transaction alike |
| SplitOverrides.SplitPostingIgnoresItsOverride | src/accounting/ledger/categorization.py:290-359 | with a posting split, the resolved ledger is the same whatever its override says |
| CategoryWrites.RenameEnqueues | src/accounting/db/projection.py:251-300 | a rename to a new name enqueues the transactions filed under the category as category or subcategory, and no other |
| CategoryWrites.RenameChangesNothing | src/accounting/db/projection.py:251-300 | a rename changes the resolution of no transaction |
| CategoryWrites.CreatingEnqueuesNothing | src/accounting/db/projection.py:251-300 | creating a category enqueues nothing |
| Slices.AbsentResolvesToNothing | src/accounting/repositories/projection.py:167-232 | a deleted transaction recomputes to no rows |
| ResolvedIds.BatchIds | src/accounting/db/projection.py:107-198 | the resolved ids of a batch are distinct, so a recompute never collides with itself |
| ResolvedIds.BatchOwners | src/accounting/db/projection.py:107-198 | every resolved row stands for a stored posting of its own transaction, and only of the batch's |
| Recomputing.RecomputeInBatches | src/accounting/repositories/projection.py:167-280 | the batch loop of delete, resolve, insert computes the recompute, or refuses on a primary-key conflict |
| Recomputing.RecomputeFreshens | src/accounting/repositories/projection.py:235-280 | every claimed transaction comes out with freshly resolved rows and no other transaction's rows move |
| Recomputing.RecomputeRefused | src/accounting/repositories/projection.py:235-280 | a drain is refused if and only if an id moved to a transaction drained in an earlier batch than its old owner |
| Recomputing.OneBatchNeverMoves | src/accounting/repositories/projection.py:101-113 | a queue that fits one batch has no such move, so draining it with nothing committed in between is never refused |
| Projection.PipelineIsCoherent | src/accounting/repositories/projection.py:167-232 | on committed tables the pipeline is local, never repeats an id and never resolves one posting under two transactions |
| Projection.UnenqueuedResolvesAsBefore | src/accounting/db/projection.py:200-229 | a whole unit of work, statement by statement, leaves the resolution of what it does not enqueue as it was |
| Projection.StaleOnlyByMovedPartner | src/accounting/db/projection.py:309-394 | a transaction no trigger enqueues keeps its resolution if and only if its links keep their partners, or it resolves to nothing |
| Rebase.UntouchedByEither | src/db/session.py:37-66 | with two units of work's changes in, a transaction neither touched reads what it read, for every source table |
| ProjectionRuns.StepKeepsProtocol | src/accounting/db/projection.py:407-465 | in any interleaving uncommitted markers stay their inserter's alone, claimed ones stay queued until the drain commits, and an open drain holds for each transaction it has replaced exactly what it read, at the states it read it at, and for any other what was stored |
| ProjectionRuns.StepKeepsInvariant | src/accounting/repositories/projection.py:167-272 | a statement, marker, commit, claim, read of the overlays, read of a batch, write of a batch, drain commit, rollback or rebuild keeps "whatever is not in the queue is stored exactly as it resolves" if and only if it strands nothing: no commit moves a transaction it leaves unmarked, no drain commit takes the marker of one it has written other rows for than it resolves to by then |
| ProjectionRuns.RebuildRepairs | src/accounting/repositories/projection.py:283-311 | a rebuild makes any stored rows right again and is never refused |
| ProjectionWindows.StrandedOnlyBySlipping | src/accounting/db/projection.py:446-451 | a transaction is stranded only by a commit that touches it, and whose trigger had found its marker before a drain claimed it or that another unit's commit changed it underneath: by that commit itself, or by a drain that had begun to read before it |
| ProjectionWindows.EveryRunExactly | src/accounting/repositories/projection.py:235-280 | in every run of interleaved statements, from any stored rows and any queue with nothing open, the invariant holds throughout if and only if it holds at the start and no transaction slips through one of those windows and is stranded by that very slip |
| ProjectionWindows.EveryRunKeepsInvariant | src/accounting/db/projection.py:200-229 | a run in which no commit touches a transaction that was claimed or changed underneath it keeps the invariant in every state, however many units of work are open at once |
| ProjectionStarts.InstalledIsRight | src/migration/versions/000000000002_resolved_posting_projection.py:48-112 | where the migration leaves the projection, over whatever ledger there is, it is right if and only if no transaction resolves to a row |
| ProjectionStarts.UnfilledUntilDrained | src/accounting/repositories/projection.py:260-272 | in every run from there, until a trigger has named a transaction and a drain has taken its marker, or a rebuild has run, nothing is stored for it, and it is fresh if and only if it resolves to no row |
| ProjectionStarts.UnnamedBreaksInvariant | src/accounting/repositories/projection.py:260-268 | so the invariant stays broken while a transaction that resolves to a row has not been named, whatever is read |
| ProjectionStarts.BlankIsRight | src/migration/versions/000000000002_resolved_posting_projection.py:48-112 | a database migrated while it is empty starts with the invariant |
| ProjectionReach.ClaimUnderneathLoses | src/accounting/repositories/projection.py:260-272 | whatever a unit of work moves in whatever ledger, a run from an empty database through that ledger drains between its statement and its commit, and ends with the moved transaction stale and the queue empty |
| ProjectionReach.ChangeUnderneathLoses | src/accounting/db/projection.py:251-300 | so does one in which a second unit of work commits and is drained before the first commits, for any change the first makes only on top of it |
| ProjectionExamples.UpgradeIsNotFilled | src/migration/versions/000000000002_resolved_posting_projection.py:7-10 | over a ledger recorded before the migration the invariant is broken at once and no read has a marker to claim |
| ProjectionExamples.EditIsLost | src/accounting/repositories/projection.py:260-272 | an amount edited while its transaction is queued and a page is read ends stale with the queue empty |
| ProjectionExamples.RetirementIsLost | src/accounting/db/projection.py:251-300 | so does a posting imported under a category while it is being retired |
| ProjectionExamples.MovedPartnerIsNotQueued | src/accounting/db/projection.py:352-361 | two committed states in which a kept link has another partner and the member left alone is not enqueued but resolves differently |
| ProjectionExamples.SomeOrderIsRefused | src/accounting/repositories/projection.py:260-272 | once more than one batch is queued, any posting id that moved between two queued transactions gets the drain refused in some order of the markers |
| ProjectionExamples.ReimportIsRefused | src/accounting/repositories/projection.py:260-272 | a run from an empty database prunes a transaction, imports its postings under another row id among n others, and ends where a drain is refused, for every n of at least one batch |
| ProjectionStores.DrainReconciles | src/accounting/repositories/projection.py:235-280 | a drain of the whole queue with nothing committed in between empties it, or changes nothing in the one refused case |
| ProjectionStores.SaveKeepsInvariant | src/accounting/db/projection.py:200-229 | a unit of work alone keeps the invariant, through whatever statements it writes |
| ProjectionStores.EmptyQueueMeansEqual | src/accounting/repositories/projection.py:314-331 | under the invariant, with the queue empty the stored rows are the whole-ledger resolution, no more and no less |
| ProjectionStores.ProjectionStore.constructor | src/migration/versions/000000000002_resolved_posting_projection.py:48-112 | both tables start empty, whatever the ledger holds, which is right if and only if no transaction resolves to a row |
| ProjectionStores.ProjectionStore.Mark | src/accounting/db/projection.py:446-451 | inserting markers one at a time leaves the committed ones found and the others inserted |
| ProjectionStores.ProjectionStore.ExecuteAll | src/accounting/db/projection.py:407-465 | the statements of a unit of work alone find or insert the markers each owes against the tables it found |
| ProjectionStores.ProjectionStore.Commit | src/accounting/db/projection.py:407-465 | a commit beside other open units of work is the commit step, and keeps the invariant exactly if it strands nothing |
| ProjectionStores.ProjectionStore.WriteBatch | src/accounting/repositories/projection.py:196-232 | the statements of one batch, overrides, delete and inserts, are the batch step over what the drain has read, and a refused insert puts the markers back |
| ProjectionStores.ProjectionStore.RecomputeClaimed | src/accounting/repositories/projection.py:269-271 | the loop that reads and writes batch after batch, with nothing committed in between, leaves the drain with the rows of one recompute of all it claimed, or refused |
| ProjectionStores.ProjectionStore.CommitDrain | src/accounting/repositories/projection.py:272-280 | a drain's commit is the drain-commit step, and keeps the invariant exactly if no claimed transaction resolves by then to other rows than were written for it |
| ProjectionStores.ProjectionStore.DrainQueue | src/accounting/repositories/projection.py:235-280 | a drain nothing interrupts keeps the invariant, reports whether the queue is empty, and with one batch always empties it |
| Importing.ExistingIdsByFingerprint | src/accounting/importers/ingest.py:382-403 | the dict holds, for each fingerprint in the ledger, its ids in order of copy |
| Importing.ReassignCollidingIds | src/accounting/importers/ingest.py:406-480 | the loops give the n-th look-alike of an id the n-th existing id, or a fresh copy, and its balancing leg the same |
| ImportLaws.MergeExtendsIds | src/accounting/importers/ingest.py:406-496 | after a merge each fingerprint has the ids it had, in their order, then just enough new ones numbered 0, 2, 3, … |
| ImportLaws.MergeCountsTheMaximum | src/accounting/importers/ingest.py:406-496 | each fingerprint then occurs max(existing, new) times |
| ImportLaws.MergeKeepsLedger | src/accounting/importers/ingest.py:406-496 | posting ids stay unique, copies numbered, and no transaction loses a leg |
| ImportLaws.TransactionsBalance | src/accounting/importers/ingest.py:406-496 | after a merge into a ledger every posting has exactly one sibling under its transaction id, the other leg, and the two cancel |
| ImportLaws.NothingIsLost | src/accounting/importers/ingest.py:483-496 | no existing posting disappears, and one the file does not restate is unchanged |
| ImportLaws.ReimportChangesNothing | src/accounting/importers/ingest.py:406-496 | importing the same file again changes no row at all |
| ImportLaws.RowOrderIsIrrelevant | src/accounting/importers/ingest.py:406-480 | a file with its rows in any other order leaves the same ids |
| ImportLaws.FileOrderIsIrrelevant | src/accounting/importers/ingest.py:406-496 | two files of one source leave the same ids in either order |
| ImportLaws.HistoryCountsTheMaximum | src/accounting/importers/ingest.py:543-633 | importing files one after another keeps, per fingerprint, the largest count of any file |
| ImportLaws.RebuildCountsTheSum | src/accounting/importers/ingest.py:860-926 | the one-shot rebuild keeps the sum of the counts |
| ImportLaws.RebuildAgainstHistory | src/accounting/importers/ingest.py:860-926 | a rebuild has every id the history has, and the two agree if and only if no fingerprint is in two files |
| LedgerStore.Store.WriteLedger | src/accounting/importers/ingest.py:158-345 | the write leaves the imported half as the frame under unchanged ids and the manual half untouched, and removes links and references of pruned transactions whole; it fails, changing nothing, exactly on a key a manual row holds, a new posting key used twice, an account, category, budget, tag or currency that is not there, or a transaction it wrote to that does not sum to zero at the commit |
| LedgerStore.Store.MergePostings | src/accounting/importers/ingest.py:268-296 | posting by posting, references are looked up, known rows updated and the others inserted; the loop fails at the first unknown reference or taken key, and otherwise every leg is written under its own id |
| LedgerStore.WriteThenReadBack | src/accounting/importers/ingest.py:95-345 | a row was in the frame if and only if reading the imported half back yields it |
| LedgerStore.LastLegSpeaks | src/accounting/importers/ingest.py:203 | where the legs of a transaction disagree on date or description, the last one's are written |
| LedgerStore.CascadesExactly | src/accounting/importers/ingest.py:298-345 | just the links all of whose members are left, and the references whose transaction is, survive the prune, unchanged |
| LedgerStore.WriteKeepsBalance | src/accounting/db/triggers.py:53-80 | after a write that passes the commit check on a balanced ledger every transaction balances if and only if those a posting moved out of still do |
| NaturalKeyMerge.StepKeepsInvariant | src/db/base.py:541-673 | every statement of every writer keeps: one row per key in every writer's view, exclusive uncommitted keys, found ids still right |
| NaturalKeyRuns.EveryRunKeepsInvariant | src/db/base.py:541-673 | in every interleaving the committed table has one row per key |
| NaturalKeyRuns.RunKeepsIds | src/db/base.py:541-673 | no interleaving changes the id of a committed key |
| NaturalKeyRuns.CallOutcome | src/db/base.py:541-673 | in every interleaving a call leaves the caller's earlier writes alone until it returns with exactly its batch written; it runs out of attempts only with four or more keys missing, and on distinct keys re-raises only a genuine error |
| NaturalKeyRuns.FourMissingKeysCanExhaust | src/db/base.py:501-521 | with four keys missing and one other session a run exists that loses all four attempts, so the bound is exact |
| NaturalKeyTable.Table.MergeByNaturalKey | src/db/base.py:641-673 | the retry loop writes the whole batch under stable ids or nothing of it; gives up only with four keys missing; re-raises only on a repeated missing key; and with nobody else writing succeeds if and only if none is repeated |
| NaturalKeyTable.Table.FlushBatch | src/db/base.py:651-656 | one flush succeeds if and only if no missing key repeats and no batch key was raced, and then writes each key's last row |
| NaturalKeyTable.Table.UpsertAndPrune | src/db/base.py:736-790 | after the merge just the keys to keep are left, each kept row of the batch with its last value, each other as it was, all under the ids they had; every key left was there before, or is of the batch or of another transaction |
| Provisioning.EveryCallerAgrees | src/db/provisioning.py:81-103 | in every run any two calls for one account that returned gave one id, the only user made for it, which any later lookup finds |
| Provisioning.NoOrphans | src/db/provisioning.py:81-103 | whatever calls lose or give up, every committed user is the one its account links to |
| Provisioning.NoLinkRaceError | src/db/external_identities.py:123-143 | the re-read after a conflicting insert always finds a row |
| Provisioning.SomeoneCanMove | src/db/external_identities.py:123-143 | a call waiting on another's uncommitted link never waits for ever: some call can take a step |
| Provisioning.Directory.LinkIdentity | src/db/external_identities.py:85-143 | it says which user is linked and never overwrites a link |
| Provisioning.Directory.ProvisionLinkedUser | src/db/provisioning.py:50-103 | it returns the linked id; a lost race rolls its own user row back and adopts the winner |
| RowVersions.AtMostOneSaverWins | src/db/base.py:804-881 | in any run of locking, committing and aborting saves no two that remembered one version both commit |
| RowVersions.VersionCountsSaves | src/db/base.py:804-881 | the stored version counts the committed saves |
| RowVersions.CheckedSaveSucceedsIffUnchanged | src/db/base.py:804-881 | a checking save succeeds if and only if nothing was saved since its caller loaded; otherwise it changes nothing |
| RowVersions.VersionTable.CheckAndBumpRowVersion | src/db/base.py:856-881 | the two statements answer bumped, missing or conflict as the atomic step does, and bump only in the first case |
| Taxonomy.NormalizeCategories | src/accounting/taxonomy.py:201-246 | the loop over parents adds and removes just the catch-alls the rule asks for |
| Taxonomy.NormalizedIsNormal | src/accounting/taxonomy.py:201-246 | on a two-level tree a top-level category then has a catch-all if and only if it has a real subcategory; what stays is as it was, and what is added is a catch-all named Other |
| Taxonomy.NormalTreesAreFixed | src/accounting/taxonomy.py:201-246 | a tree that keeps the rule is left as it is |
| CategoryEdits.PlanCategoryRename | src/accounting/taxonomy.py:249-331 | it merges into a same-named category of the right place if there is one, else only renames |
| CategoryEdits.FoldChildren | src/accounting/taxonomy.py:308-329 | the child loop merges, reparents or maps to the catch-all as specified |
| CategoryNames.MergesIffTaken | src/accounting/taxonomy.py:284-303 | a rename merges if and only if a sibling has the new name, blanks and case aside, and into such a sibling; otherwise it changes the one name |
| CategoryNames.SameNamesMerge | src/accounting/taxonomy.py:308-329 | a subcategory of a merged category with a namesake under the target is remapped to that and leaves; any other moves under the target unchanged |
| CategoryNames.OthersStay | src/accounting/taxonomy.py:249-331 | every other real category is left as it was |
| CategoryNames.NamesStayApart | src/accounting/taxonomy.py:249-331 | if no two siblings share a name before a rename, blanks and case aside, none do after it |
| CategoryEdits.MergeKeepsTheTree | src/accounting/taxonomy.py:249-331 | a merge leaves a normal two-level tree without the merged-away ids, with every remap target and every other id in it |
| CategoryEdits.MergeKeepsReferences | src/accounting/taxonomy.py:360-421 | every coherent (category, subcategory) reference, remapped, is coherent in the new tree |
| CategoryReferences.PlainRenameKeepsTheTree | src/accounting/taxonomy.py:298-303 | a rename that merges nothing changes one name and keeps the rule |
| CategoryReferences.MergedIdLeavesUnlessCatchAll | src/accounting/taxonomy.py:249-331 | the merged category leaves the tree if and only if it is not a catch-all, which is re-created |
| CategoryReferences.RemapBudgets | src/accounting/taxonomy.py:424-459 | repointed budgets have unique keys, untouched ones survive as they were, no key is lost, and each one left has the month and amount of a budget it stood for and its categories as the remap renames them |
| CategoryReferences.MergedBudgets | src/accounting/taxonomy.py:424-459 | after a merge every budget names a live, coherent category |
| CategoryReferences.DeleteKeepsTheTree | src/accounting/api/routers/categories.py:287-316 | a delete leaves a normal tree and takes, besides what it names, at most the lone catch-all beside it |
| CategoryReferences.DeleteTakesExactly | src/accounting/api/routers/categories.py:287-316 | of the real categories just the one deleted and its subcategories leave, and the others are as they were |
| CategoryReferences.DeleteKeepsReferences | src/accounting/taxonomy.py:489-573 | every coherent reference, cleared of what left, is coherent in what remains |
| CategoryReferences.UncategorizeBudgets | src/accounting/taxonomy.py:539-562 | cleared budgets have unique keys and untouched ones survive; budgets of a deleted category go, and each one left has the month, category and amount it had and its subcategory unless that was deleted |
| CategoryReferences.BudgetsAfterDelete | src/accounting/taxonomy.py:489-573 | after a delete every budget names a remaining, coherent category |
| Retirement.TerminalSuccessor | src/accounting/repositories/taxonomy.py:231-249 | the loop with its seen set ends, on any mapping, on the key the recursive walk ends on |
| Retirement.CategoryTable.RetireCategories | src/accounting/repositories/taxonomy.py:187-267 | the loop applies one retirement per mapped category, and fails exactly if some chain ends on an unknown key |
| Retirement.RetiringKeepsOneHop | src/accounting/repositories/taxonomy.py:140-184 | where chains end well every redirect stays one hop and resolves to the end of what it resolved to, in any order of the mapping |
| Retirement.OneHopExactly | src/accounting/repositories/taxonomy.py:187-267 | redirects stay one hop if and only if no mapped category leads back into the mapping or ends on a retired one |
| Retirement.MergesEndWell | src/accounting/api/routers/categories.py:638-641 | the mapping of a category merge always ends on live categories |
| Retirement.MergesKeepOneHop | src/accounting/api/routers/categories.py:638-641 | so retiring what a merge remaps leaves every redirect one hop long |
| Retirement.DeletesKeepOneHop | src/accounting/api/routers/categories.py:287-316 | retiring what a delete removes leaves every redirect one hop long, and what led to a deleted category leading to nothing |
| Retirement.RingBreaksOneHop | src/accounting/repositories/taxonomy.py:231-249 | two categories retired into each other leave a tombstone naming a tombstone |
| Reconciling.ReconcileRuleLinks | src/accounting/ledger/transfers.py:236-295 | the claim loop proposes the links of the specified claims |
| ReconcileLaws.CandidateExactly | src/accounting/ledger/transfers.py:195-271 | one transaction may be linked to another if and only if both are of two legs with one placeholder, unlinked and unsplit, and the rule that wins for the first points at the second's account, a statement account, for the opposite amount within the window |
| ReconcileLaws.ClaimIsLinked | src/accounting/ledger/transfers.py:236-295 | a claimed pair becomes one link, the smaller id first, marked as made by a rule, under the id of the rule that wins |
| ReconcileLaws.ClaimsInTurn | src/accounting/ledger/transfers.py:272-293 | in the order of the matches each one not used yet claims its one candidate not used yet, counting the claims before it, and a match without just one such candidate claims nothing |
| Reconciling.ProposalsKeepTheMatching | src/accounting/ledger/transfers.py:236-295 | existing and proposed links form a matching, and each proposal joins unresolved, unsplit, unlinked transactions of opposite amounts within the window, the counterpart on the rule's account |
| Reconciling.UncontestedIsLinked | src/accounting/ledger/transfers.py:272-293 | a match with one candidate nobody competes for is always linked, wherever it falls in the order |
| Reconciling.RoundsTerminate | src/accounting/ledger/transfers.py:353-405 | repeated rounds end within half as many as there are open transactions, each link using up two, in a matching that extends the first links and on which one more round proposes nothing |
| Reconciling.SecondRoundCanPropose | src/accounting/ledger/transfers.py:272-293 | a ledger on which a round proposes one link, and the next, on the links with it, another |
| Duplicates.UnionFind.Find | src/accounting/ledger/duplicates.py:124-136 | it terminates, returns the representative, compresses the path, and changes nobody's group |
| Duplicates.UnionFind.Union | src/accounting/ledger/duplicates.py:138-142 | exactly the first node's group takes the second one's representative |
| Duplicates.LabelsAreComponents | src/accounting/ledger/duplicates.py:190-200 | two transactions share a representative if and only if a chain of edges connects them |
| Duplicates.GroupByRoot | src/accounting/ledger/duplicates.py:190-202 | there is a group per representative, with its edges' transactions, their least certainty and the last edge's account |
| Duplicates.GroupsAreComponents | src/accounting/ledger/duplicates.py:190-223 | a group holds exactly the mentioned transactions connected to any of its members |
| Duplicates.GroupsPartition | src/accounting/ledger/duplicates.py:190-223 | no transaction is in two groups and every mentioned one is in one |
| Duplicates.GroupsHaveTwo | src/accounting/ledger/duplicates.py:190-223 | every group has at least two transactions |
| FileMatching.ScorePairs | src/accounting/importers/categorize_from_file.py:232-262 | the bucketed double loop scores every row against every plausible posting, in order |
| FileMatching.ScoredExactly | src/accounting/importers/categorize_from_file.py:232-262 | a pair is scored if and only if the amounts are equal, the dates within the window and the descriptions at least 0.3 alike, and with six tenths of the likeness plus four tenths of the part of the window left |
| FileMatching.BestFirstIsSorted | src/accounting/importers/categorize_from_file.py:264 | claims are tried by falling score, equal scores in the order they were scored |
| FileMatching.Preview | src/accounting/importers/categorize_from_file.py:227-297 | each file row is reported with the posting the greedy claims gave it, or none |
| FileMatching.PreviewIsStable | src/accounting/importers/categorize_from_file.py:243-275 | claims are one-to-one, and a plausible pair loses its row or posting only to a pair scoring at least as high |
| Paystubs.MatchingIsExclusive | src/accounting/dashboard/paystub.py:75-114 | no bank row is claimed twice, each claim fits its deposit, and an unmatched deposit had every fitting row taken |
| Paystubs.DepositTakesTheFirst | src/accounting/dashboard/paystub.py:75-114 | each deposit takes the first posting, in order, that is positive, near pay day, of its amount to the cent and on its account if it names one, and that no earlier deposit took; it goes without only if there is none |
| Paystubs.ReconcileEarningsStatement | src/accounting/dashboard/paystub.py:75-114 | the nested loops compute that matching and report whether it is complete |
| Paystubs.SplitDeposit | src/accounting/dashboard/paystub.py:171-208 | in order, a line goes on the deposit if and only if it fits what those before it leave, then salary if anything is over or nothing fits; the legs sum to the deposit, or to zero if it is negative and no line fits it, and there are two or more exactly if the first line that fits leaves something over or another fits what it leaves |
| Paystubs.ProposePostingSplits | src/accounting/dashboard/paystub.py:141-210 | every matched deposit gets one proposal, and all lines are on one proposal or left over |
| Paystubs.PutPostingSplit | src/accounting/api/routers/postings.py:357-394 | a split is saved if and only if its posting exists, its legs sum to the posting's amount exactly and there are at least two |
| Paystubs.SumIsNotEnough | src/accounting/models.py:838 | one leg of the whole amount, and no leg for a posting of zero, sum to the posting and are refused |
| Paystubs.ConfirmProposal | src/accounting/api/routers/imports.py:545-580 | the proposal for a matched deposit goes to the override route if and only if it has one leg, and is otherwise saved if and only if the bank posting has the deposit's amount, not merely one within a cent |
| Goals.RunWithdrawalAutomation | src/accounting/ledger/goal_automations.py:178-189 | the loop gives each listing what is left of the shortfall after those before it, up to what its goal has |
| Goals.WithdrawalsCover | src/accounting/ledger/goal_automations.py:178-189 | withdrawals sum to the shortfall, or to all the listings have if that is less |
| Goals.PriorityIsKept | src/accounting/ledger/goal_automations.py:178-189 | a goal is touched only once every one before it is empty |
| Goals.OverdrawsIffListedTwice | src/accounting/ledger/goal_automations.py:152-189 | no goal ever goes below zero if and only if none with money is listed twice |
| Goals.RunRecurringAdditions | src/accounting/ledger/goal_automations.py:129-149 | each automation gets what it asks for, a fixed amount or a percentage of the pool as it stood, up to what the pool has beyond all that is asked for ahead of it; a remainder gets all of that, and nothing is left for those after it |
| Goals.CoveredGetsItsAsk | src/accounting/ledger/goal_automations.py:106-111 | if the pool covers every fixed amount and every percentage of it, each automation ahead of a remainder gets exactly that, whatever its place in the order |
| Goals.AdditionsFitThePool | src/accounting/ledger/goal_automations.py:129-149 | additions are positive and with the remainder make up the pool, which is never overspent |
| Goals.UnderfundedIsLast | src/accounting/ledger/goal_automations.py:129-149 | one that gets less than it asked for empties the pool and is the last funded |
| Goals.RemainderUsesThePool | src/accounting/ledger/goal_automations.py:129-149 | with a remainder automation last a positive pool is used exactly |
| Goals.ByPriorityIsSorted | src/accounting/ledger/goal_automations.py:131 | the order run in is a permutation of the list, sorted by priority, with equal priorities in the order given |
| Schedules.OccurrenceIsTheLatest | src/accounting/ledger/goal_automations.py:27-80 | the result is the greatest scheduled date on or before the date and the end, over the real calendar, and none exactly if there is none |
| Schedules.OrdinalOrders | src/accounting/ledger/goal_automations.py:73-80 | date order and day-count order agree for every valid date, leap years included |
| Balances.SeriesAgrees | src/accounting/ledger/replay.py:20-90 | cumulative daily sums with a backward as-of join and zero fill equal the filtered sum for every account and date |
| Balances.BalancesTotalZero | src/accounting/ledger/replay.py:20-90 | in a zero-sum ledger with one date per transaction all balances total zero on every date |
| ZeroSum.QuantizedIsNearest | src/db/money.py:118-136 | the stored amount is the nearest ten-thousandth, ties away from zero |
| ZeroSum.QuantizedIsOdd | src/db/money.py:118-136 | rounding is odd |
| ZeroSum.PairsAreWrittenBalanced | src/accounting/importers/common.py:81-141 | every transaction of a ledger of pairs is written summing to exactly zero |
| ZeroSum.PairsPassTheCommit | src/accounting/db/triggers.py:53-73 | the table a ledger of pairs is written to, under any distinct keys, passes the commit check for every transaction |
| ZeroSum.PairsValidate | src/accounting/ledger/replay.py:93-145 | and passes the check made before the write |
| ZeroSum.GridSum | src/accounting/importers/ingest.py:288 | when every amount is a whole number of ten-thousandths rounding changes no sum |
| ZeroSum.ThreeLegsCanDrift | src/accounting/importers/ingest.py:288 | off that grid three legs that cancel can fail the commit check once rounded; no importer builds three |
| ZeroSum.SingleCurrencyAgrees | src/accounting/db/triggers.py:53-73 | on a single-currency transaction the commit check rejects if and only if the earlier check, with its tolerance, does |
| ZeroSum.ChecksAgreeExactly | src/accounting/ledger/replay.py:93-121 | for any transaction of a written frame the two checks agree if and only if it is in one currency or each of its currency groups cancels |
| ZeroSum.CommitKeepsBalance | src/accounting/db/triggers.py:53-80 | if all commit checks pass, all transactions balance if and only if those a posting was moved out of do |
| ZeroSum.MovedPostingIsNotSeen | src/accounting/db/triggers.py:53-80 | moving a posting can unbalance a transaction that is not checked |
| ExchangeRates.SmoothedRateSeries | src/accounting/market_data/exchange_rates.py:254-346 | the first requested currency without history is named; otherwise the rows are the base currency at one on every day, then each requested currency in turn, each day with its own one-date mean or that of the next later day that has one |
| ExchangeRates.RequestedExactly | src/accounting/market_data/exchange_rates.py:311 | the requested currencies are those given besides the base one, each as often as it was given |
| ExchangeRates.SeriesIsSmoothedThenNext | src/accounting/market_data/exchange_rates.py:224-345 | a day's rate is the one-date trailing mean where there is one, else that of the next later day that has one |
| ExchangeRates.MeanIsBetween | src/accounting/market_data/exchange_rates.py:224-251 | a one-date rate lies between any two bounds on the currency's rates in its window, both ends of the window included |
| ExchangeRates.EmptyTailExactly | src/accounting/market_data/exchange_rates.py:318-345 | a day has no rate if and only if the currency was last quoted more than a window before it |
| ExchangeRates.SeriesHasEveryDay | src/accounting/market_data/exchange_rates.py:311-345 | there is one row per calendar day and currency |

## Left out

- Several users at once: every table is one user's, so row-level security is not modelled.
- Row ids of the projection's source tables: natural keys never change, so rows are keyed by them; transactions keep ids.
- A natural key containing ":split:": a split leg's id is a constructor here, so it cannot clash with a stored key.
- Non-ASCII case folding in rule matching, and the order of a posting's tags (a set here).
- The order the database returns unordered rows in: read in key order; display sorting newest first is not modelled.
- ProjectionRuns.StepKeepsInvariant: the several queries that load the overlays see one state, as do those that load a batch's rows and those that load its overrides; a rebuild, which no request makes, is one step. A transaction deleted between a batch's read and its write makes the code give the drain up; the runs here include both that and going on.
- ProjectionWindows.EveryRunExactly: locks on source rows are not modelled, so the runs include some where the engine would make one unit of work wait for another; foreign keys are assumed to hold in every unit's view.
- Writes to a transfer link that replace one member and keep the other: a commit is assumed to keep the pairs of the links it keeps; `Projection.StaleOnlyByMovedPartner` says exactly what happens without that.
- Seeding defaults for a new user, and every HTTP, statement-parsing, archive and backup path.
- ImportLaws: an id hash stands for one fingerprint, both ways, within one source; a collision is not modelled. The sort of the merged frame by date is not modelled either.
- NaturalKeyRuns.CallOutcome: no row is deleted while a call is running.
- NaturalKeyTable.Table.MergeByNaturalKey: other transactions commit between a lookup and its flush, not during the flush; the finer interleavings are those of `NaturalKeyRuns`.
- NaturalKeyTable.Table.UpsertAndPrune: a foreign key that refuses a prune is not modelled.
- Provisioning: re-pointing an existing link to another user, which no code here does.
- Taxonomy: colours of categories; which of several merge targets of one name is met first is left open, so the results hold for each.
- CategoryReferences: category patterns and split legs are remapped reference by reference, as `CategoryEdits.MergeKeepsReferences` and `CategoryReferences.DeleteKeepsReferences` state for any reference.
- Retirement.CategoryTable.RetireCategories: on an unknown key the caller's transaction is rolled back; the rows left in memory are not specified.
- Reconciling.ReconcileRuleLinks: the sorted order of natural keys is a parameter, so the results hold for every order; amounts are compared exactly.
- Duplicates: which pairs of postings look alike (amount, window, fuzzy words) is an input; groups are not sorted by certainty.
- FileMatching.ScorePairs: description similarity is an arbitrary function; amounts are compared exactly.
- Paystubs.ProposePostingSplits: the two sorts, largest first, are done by the caller; the results hold for any order.
- LedgerStore.Store.WriteLedger: posting metadata, which is copied through.
- ZeroSum: floating-point error; sums are exact, and the comparison of the two checks is for amounts on the ten-thousandth grid.
- Goals and Balances: floating-point error; sums are exact reals.
- ExchangeRates: fetching and caching rates, and converting amounts with them.
- The trades ledger, dashboards other than the legs they sum, the goal simulator, bank detection and colour palettes: they would add only easy members.
