# Payments lakehouse: a verified model

A Dafny model of the parts of a payments data platform whose correctness is not visible in any one
function. Three systems are modelled and then joined:

1. **Change feed to silver to gold.** Debezium records are cut into micro-batches, routed, reduced to
   one change per payment, validated and applied to silver by one sequenced MERGE; gold is recomputed
   from silver. Rejects go to a dead-letter table; bronze is append-only behind a checkpoint.
2. **The gold serving tier.** A query builder with positional parameters, keyset pagination, and a
   bounded LRU cache that belongs to one gold snapshot and is shared by threads.
3. **Staging and snapshot completion.** An extract is written in parts under a run prefix, registered,
   loaded, reconciled by counting and stamped complete; downstream reads the newest completed full run.

## What is proved

- **Replay converges although silver keeps no tombstones** (`Replay`, `SourceAgreement`). Over any run
  of batches of any size, failed batches, crashes before the checkpoint, and rewinds, each payment's row
  is the fold of some log prefix between the cursor and the furthest point delivered. At the end of the
  log silver holds the source's payments as their last operations left them, amounts to the cent and times to
  the second, and gold's counts add up to it. Replaying an old
  record is *not* a no-op in general: `StaleReplayIsHarmless` says exactly when it is, and
  `DeletedRowReappears` gives the run in which a deleted payment comes back until its delete is replayed.
  A log that holds records more than once converges too (`Reread`), and so does silver over a bronze table
  that read parts of the topic again after losing its checkpoint (`BronzeToSilver`).
- **Validation judges what survives the window** (`SilverJob.PassesExactly`): a batch is applied exactly when
  it has a change and each payment's surviving one is a delete or clean.
- **One MERGE per batch is the one-at-a-time semantics** (`BatchSemantics`), for any silver and any order
  of records, when LSNs are distinct per payment; for equal LSNs `TiesAgreeExactly` says, for any batch,
  when it still is.
- **Cached responses are linearizable** (`Serving`), although a build may read a newer version than its
  label and threads may flip the cache's snapshot back and forth, under an exact condition on what
  clients send (`LinearizableExactly`): requests served under one key must have the same answers.
  `KeyCollisions` says which requests share a key, whatever the cursor text, which comes from clients and
  is decoded leniently; `EmptyMethodIsServedAllMethods` and `CursorIsServedAnother` are runs that break
  the condition and get a wrong answer. A summary response is told from the silver rows behind the gold
  version it read (`ServedGold`).
- **When a lookup hits** (`CacheHistory`) is told from the calls alone, whatever snapshots they name.
- **Pagination, query compilation and the roll-up** mean what the endpoints promise (`Queries`, `Paging`,
  `RollUp`), over a fixed table and over one replaced between pages.
- **Counting proves completeness** if the load history names staged files only, none twice, and no more
  rows of each than staged; without any one of the three there is room for a wrong decision (`Loading`).
  Parts an earlier attempt left under the run's prefix are one way to lose them: `Pipeline` says when there
  are none.
- **Completion** (`Completion`) is stamped once and never altered, over runs with any registrations and
  validations. The registration MERGE refreshes completed rows too, so a completed row need not still be
  the one that was reconciled: `StandsUnlessReregistered` says exactly when it is, and
  `ReregisteredRunIsUnreconciled` and `WindowTurnsFull` what else can happen. `Pipeline` joins staging,
  loading and completion in one theorem.

## How the source is read

- A table is a sequence of rows; MERGE is its branch semantics, a comparison with NULL is not true, and
  two source rows for one target row are an error, hence a precondition of the silver MERGE. Amounts are
  cents; casts to DECIMAL(12,2) and DECIMAL(18,2) that overflow give NULL, as in Spark with ANSI mode off. Event times
  become whole UTC seconds.
- `docs/design.md:100` still describes a two-pass delete that loses a re-created payment. The code
  (`config/spark/jobs/payment_rules.py:113-148`) resolves by LSN, and the model follows the code;
  `RecreateSurvives` is the case that document calls unsupported.
- The patterns `^[A-Z]{3}$` and `^[A-Z]{2}$` also accept one final line end; the model keeps that.
- An Airflow task that fails part-way, is retried or is rolled back is a run made of the steps that took effect.
- Cursors and timestamps in cache keys are parameters: a decoder of cursor text, and a timestamp format
  assumed injective, non-empty and free of `|`.
- The engine carries out a dead-letter MERGE unless two of its source rows match one target row; two
  rejects of one new coordinate are both inserted.

Each file is one module. `Basics` holds text helpers; `Cdc`, `Routing`, `Merge`, `BatchSemantics`, `DeadLetters`,
`SilverJob`, `Replay`, `Reread`, `Gold`, `SourceAgreement`, `Bronze` and `BronzeToSilver` the first system; `Queries`, `Paging`,
`RollUp`, `Cache`, `LruInclusion`, `CacheHistory`, `CacheKey` and `Serving` the second, with `ReachableGold` and
`ServedGold` joining the two; `Staging`, `Loading`, `Completion` and `Pipeline` the third.

## Model

| member | source | states |
|---|---|---|
| `Routing.RouteSpec` | config/spark/jobs/silver_payments.py:173-185 | the job's chain of filters takes each record down one route: the malformed are the null ops, the unexpected those outside the op set, and what remains is all the projection reads |
| `Cdc.CanonicalFormIsFinal` | config/spark/jobs/silver_payments.py:97-100 | trimming and casing a code, or slugging a method or status, a second time changes nothing |
| `Cdc.CodeSpec` | config/spark/jobs/silver_payments.py:97-100 | a currency or country is the text without the spaces around it, with each small letter and nothing else made its capital |
| `Cdc.SlugSpec` | config/spark/jobs/silver_payments.py:98-99 | a method or status is the text without the spaces around it, with each capital and nothing else made small, and then its white space collapsed |
| `Cdc.CollapseJoins` | config/spark/jobs/silver_payments.py:98-99 | collapsing makes each run of white space one underscore and leaves the words as they stand |
| `Cdc.WinnerSpec` | config/spark/jobs/silver_payments.py:111-117 | row number 1 of a payment exists exactly when the payment occurs, is one of its changes, and has the highest LSN, none only where no change has one, and among those the highest offset |
| `Cdc.DedupSpec` | config/spark/jobs/silver_payments.py:114-119 | the change set holds each payment once, NULL keys forming one, and its change is the window's winner, so the MERGE gets at most one source row per key and the duplicate check never fires |
| `Cdc.WinnerIgnoresOrder` | config/spark/jobs/silver_payments.py:106-113 | without ties the surviving change does not depend on the order in the batch |
| `Cdc.ProjectedConcat` | config/spark/jobs/silver_payments.py:91-105 | projecting two batches one after the other is projecting their concatenation, so batch boundaries do not show |
| `Merge.MatchedSpec` | config/spark/jobs/payment_rules.py:143-145 | over the whole table the MATCHED branches act per payment as the branch semantics say and keep ids unique |
| `Merge.UnmatchedSpec` | config/spark/jobs/payment_rules.py:146-147 | the NOT MATCHED branch adds exactly one row for each upserted payment silver lacks, and none for a delete |
| `Merge.MergeRefines` | config/spark/jobs/payment_rules.py:113-148 | the table-level MERGE leaves each payment as the three branches applied to it alone, and payment ids unique |
| `Merge.MergeRaisesLsn` | config/spark/jobs/payment_rules.py:122-126 | a row that survives a MERGE is untouched or has a strictly higher LSN, both of them present |
| `Merge.RowWithoutLsnStays` | config/spark/jobs/payment_rules.py:138-147 | a silver row without an LSN is left alone by every MERGE, since no comparison with NULL is true |
| `BatchSemantics.ApplyInOrderRefines` | config/spark/jobs/payment_rules.py:113-148 | a MERGE per change, first to last, is per payment the fold of its changes |
| `BatchSemantics.NewerErasesOlder` | config/spark/jobs/payment_rules.py:122-126 | an older change leaves no trace under a newer one, although deletes leave no tombstone |
| `BatchSemantics.FoldIsWinner` | config/spark/jobs/silver_payments.py:106-110 | folding a payment's changes in LSN order is applying the window's winner alone |
| `BatchSemantics.BatchEqualsSequence` | config/spark/jobs/silver_payments.py:111-119 | for any silver and any batch in any order with ascending LSNs per payment, dedup and one MERGE equal applying the changes one by one in LSN order |
| `BatchSemantics.RecreateSurvives` | config/spark/jobs/silver_payments.py:106-110 | a delete and a later re-create of a payment in one batch leave the re-created row, in either arrival order |
| `BatchSemantics.MergeIsIdempotent` | config/spark/jobs/payment_rules.py:113-148 | applying one change set twice in a row is applying it once, for any change set |
| `BatchSemantics.TiesAgreeExactly` | config/spark/jobs/silver_payments.py:109-113 | for any silver, any batch and any order in which a payment's LSNs never fall and ties stand in offset order, batch and one-at-a-time agree on the payment if and only if it has no change, or its row is not older than the winner, or nothing at the winner's LSN is an upsert, or the winner is one and the first upsert there writes the same row |
| `BatchSemantics.TwoTiesAgreeExactly` | config/spark/jobs/silver_payments.py:109-113 | the same for two ties, also applied against offset order |
| `BatchSemantics.EqualLsnsDiverge` | config/spark/jobs/silver_payments.py:109-113 | two updates with equal LSNs: the batch keeps the higher offset, one at a time keeps the first |
| `BatchSemantics.WinnerConcat` | config/spark/jobs/silver_payments.py:106-113 | over two consecutive runs of changes the winner is the second's if it has one, and that one is newer |
| `DeadLetters.MergeLettersRefines` | config/spark/jobs/payment_rules.py:167-186 | the dead-letter MERGE keeps one row per coordinate: the source's where it has one, else the table's |
| `DeadLetters.MergeKeepsUnique` | config/spark/jobs/payment_rules.py:173-185 | a dead-letter MERGE the engine carries out keeps one row per coordinate if and only if its source has one row per coordinate |
| `DeadLetters.RoutedSpec` | config/spark/jobs/silver_payments.py:176-185 | each filter keeps exactly the batch's records of its route, with coordinates still distinct |
| `DeadLetters.RoutingConserves` | config/spark/jobs/silver_payments.py:173-185 | tombstones, both kinds of reject and projected changes add up to the batch; every processable record is projected and nothing else is |
| `DeadLetters.LettersAfterSpec` | config/spark/jobs/silver_payments.py:175-183 | after one batch whose rejects have distinct coordinates, a coordinate holds the reject delivered there with its own reason, and is otherwise unchanged; accepted records may repeat |
| `DeadLetters.OneLetterPerReject` | config/spark/jobs/payment_rules.py:167-186 | after any batches, repeats included, there is a row at a coordinate exactly when a record rejected there was ever delivered, one row, carrying that record and reason |
| `SilverJob.NoViolationIsClean` | config/spark/jobs/silver_payments.py:126-143 | a change that violates none of the sixteen metrics makes a row every data-quality rule accepts |
| `SilverJob.ValidationMeansClean` | config/spark/jobs/silver_payments.py:122-162 | the metrics are all zero exactly when every upsert would make a clean row |
| `SilverJob.SurvivorIsAhead` | config/spark/jobs/silver_payments.py:106-119 | the change of a payment that survives a batch is that of a processable record of the payment which no other one is ahead of by envelope LSN and record offset |
| `SilverJob.PassesExactly` | config/spark/jobs/silver_payments.py:187-195 | a batch is applied if and only if it has a change and, for every key, NULL included, the change that survives the window is a delete or makes a clean row; what the window drops is not validated |
| `SilverJob.SilverStore.constructor` | config/spark/jobs/silver_payments.py:222-259 | both tables start empty |
| `SilverJob.SilverStore.WriteToDlq` | config/spark/jobs/silver_payments.py:43-63 | where the rejects' coordinates are distinct each gets its letter, every other coordinate keeps its own and there is one row per coordinate; where they are not, an accepted MERGE leaves two rows at one |
| `SilverJob.SilverStore.UpsertToSilver` | config/spark/jobs/silver_payments.py:165-204 | for any batch: rejects are recorded first; silver then changes by one MERGE of the change set exactly when the batch has a change and every surviving change is a delete or clean, and not at all when a dead-letter MERGE is rejected, validation fails or nothing is left |
| `SilverJob.BatchKeepsSilverClean` | config/spark/jobs/silver_payments.py:193-204 | whatever the batch, silver keeps unique ids, non-null LSNs and rows that satisfy every rule |
| `SilverJob.BatchRaisesLsn` | config/spark/jobs/payment_rules.py:138-147 | each in-place change a batch makes to a row strictly raises its LSN |
| `Replay.RunKeepsSilverClean` | config/spark/jobs/silver_payments.py:165-204 | in every run over any log, with any batches, failures, crashes and rewinds, silver is clean with unique ids |
| `Replay.BatchActsByLast` | config/spark/jobs/silver_payments.py:187-204 | a batch that passes acts on each payment through its surviving change alone |
| `Replay.DeliveryAnchors` | config/spark/jobs/payment_rules.py:138-147 | a segment acting on a row that is the fold of one log prefix leaves the fold of a prefix at or past the segment's end |
| `Replay.StaleReplayIsHarmless` | config/spark/jobs/payment_rules.py:122-126 | replaying an already covered segment leaves a payment unchanged if and only if it is not the case that the payment's last covered change is a delete and its last one in the segment an upsert |
| `Replay.StepAnchors` | config/spark/jobs/silver_payments.py:165-204 | append, deliver, crash and rewind each keep every payment at the fold of a prefix between cursor and high mark |
| `Replay.ReplayConverges` | config/spark/jobs/silver_payments.py:165-204 | in every run over a log whose LSNs rise per payment the same holds, so at the end of the log silver is the fold of the whole log |
| `Replay.DeletedRowReappears` | config/spark/jobs/payment_rules.py:146-147 | concrete run: deliver a create and its delete, rewind, deliver the create again; the deleted row is back |
| `Replay.NeverFails` | config/spark/jobs/silver_payments.py:191-195 | if every upsert on the log is clean, no batch fails validation wherever it is cut |
| `Reread.BatchSettles` | config/spark/jobs/silver_payments.py:106-119 | a batch of a log that repeats itself leaves a payment at the fold of a prefix the log reached, at or past where the log stands after the batch |
| `Reread.RereadConverges` | config/spark/jobs/silver_payments.py:165-204 | in every run over a log made from a sequenced one by appending its next record and starting again from any earlier position, any number of times, silver at the end of the log is the fold of the sequenced log |
| `SourceAgreement.UpsertIsFaithful` | config/spark/jobs/silver_payments.py:91-105 | an insert, snapshot read or update emits an event, with any LSN above that payment's earlier ones, after which the log still folds to the source, and the payment's row shows its key, merchant and amount unchanged, its times to the second and its codes and slugs in canonical form |
| `SourceAgreement.RemoveIsFaithful` | config/spark/jobs/silver_payments.py:86-89 | so does a delete whose before section carries only the key, with or without a tombstone after it |
| `SourceAgreement.ValidMeansClean` | config/spark/jobs/silver_payments.py:122-162 | the rules accept the canonical row of a source row if and only if the source row is valid: every field present, 0 <= cents < 10^12, codes and slugs that match, and not updated before it was created, to the second |
| `SourceAgreement.TimesFallBack` | config/spark/jobs/silver_payments.py:101-102 | a time column is the whole second of the after section's time, or without one of the before section's, and NULL only without both |
| `SourceAgreement.BeforeGivesKeyAndTimes` | config/spark/jobs/silver_payments.py:91-105 | beyond the key and the two times nothing is taken from the before section, whatever the after section lacks |
| `SourceAgreement.HistoryTable` | config/spark/jobs/silver_payments.py:91-105 | after any history the source holds a payment exactly when its last operation was no delete, and as that operation left it; every operation wrote one change |
| `SourceAgreement.HistoryIsFaithful` | config/spark/jobs/silver_payments.py:91-119 | for every history of inserts, snapshot reads, updates and deletes the log is sequenced and clean, and folds for every payment to a row that shows what the payment's last operation wrote, or to none after a delete |
| `SourceAgreement.SameOrderSuffices` | config/spark/jobs/silver_payments.py:106-110 | any log with the same changes per payment in the same order, however payments interleave over partitions and offsets, is sequenced and clean and has the same fold |
| `SourceAgreement.DrainedRunAgrees` | config/spark/jobs/silver_payments.py:165-204 | for any such history and any run over any log that keeps its order per payment, the rest passes validation, and once the cursor is at the end silver holds exactly the source's payments, each row showing its last operation: the amount in cents as it was, each time as the whole second that contains it; and gold's counts sum to their number |
| `SourceAgreement.GoldCountsAll` | config/spark/jobs/gold_metrics.py:62-75 | gold's payment counts add up to the number of silver rows |
| `Gold.FactOf` | config/spark/jobs/gold_metrics.py:65-67 | a payment's bucket is the hour that contains its creation time |
| `Gold.GoldHasEachGroupOnce` | config/spark/jobs/gold_metrics.py:62-75 | one row per hour, country and method that has a payment, and no other |
| `Gold.GoldRowsAreConsistent` | config/spark/jobs/gold_metrics.py:68-72 | every row has a positive count, 0 <= authorized <= gross, a rate in [0, 1], and a NULL volume only past a million payments |
| `Gold.GroupsConserve` | config/spark/jobs/gold_metrics.py:62-74 | whatever is summed over whatever groups, the groups add up to the payments in them |
| `Gold.CountsConserve` | config/spark/jobs/gold_metrics.py:68-68 | the counts of any selection of gold rows add up to the number of payments in it |
| `Gold.AuthorizedConserves` | config/spark/jobs/gold_metrics.py:70-71 | the authorized volumes of any selection without overflow add up to the amounts of its authorized payments |
| `Gold.DecimalBoundIsTight` | config/spark/jobs/gold_metrics.py:69-69 | every group of n payments fits DECIMAL(18,2) if and only if n is at most 1,000,000 |
| `ReachableGold.SilverBoundIsTight` | config/spark/jobs/gold_metrics.py:69-69 | a bucket of n valid silver rows is sure to fit DECIMAL(18,2) if and only if n is at most 1,000,000; past that a silver table of valid payments has a NULL volume |
| `ReachableGold.ReachableGoldIsConsistent` | config/spark/jobs/gold_metrics.py:62-75 | after every run of the silver job over any log, gold has one row per bucket of a silver row, each with a positive count, 0 <= authorized <= gross, a rate in [0, 1] and a NULL volume only past a million payments |
| `ReachableGold.GoldRowIsItsRows` | config/spark/jobs/gold_metrics.py:62-75 | after every such run a gold row is about exactly the silver rows whose columns have its hour, country and method: it counts them, adds up their amounts and those of the authorized ones, NULL past DECIMAL(18,2), and gives the share of the authorized |
| `ReachableGold.EveryRowHasABucket` | config/spark/jobs/gold_metrics.py:62-74 | and every silver row is in exactly one gold row's bucket |
| `ReachableGold.ReachableSummaryIsSilver` | api/src/queries.py:126-142 | after every such run and for every filter, the summary over gold is that of the selected silver rows: how many buckets they fall in, count and share authorized always, exact volume if and only if no selected bucket overflowed, and always up to a million rows |
| `Bronze.DetectionIsExact` | config/spark/jobs/payment_rules.py:189-203 | over a duplicate-free table the check after an append fails exactly when the append repeated a coordinate held before |
| `Bronze.FetchedSpec` | config/spark/jobs/bronze_from_kafka.py:91-117 | a read appends each coordinate from its start to the current end once and no other |
| `Bronze.ReadsOnlyRetained` | config/spark/jobs/bronze_from_kafka.py:91-117 | a read is refused, changing nothing, exactly when a record the checkpoint has not passed has expired; whatever it adds the topic still retains |
| `Bronze.KeptCheckpointIsExactlyOnce` | config/spark/jobs/bronze_from_kafka.py:91-119 | in every run of production, expiry and consumption that keeps the checkpoint, bronze is empty before the first read and afterwards holds every record from what was retained at that read up to the checkpoint, each exactly once, and nothing else |
| `Bronze.LostCheckpointIsDetected` | config/spark/jobs/bronze_from_kafka.py:26-50 | after losing the checkpoint over a clean bronze, the next read is detected exactly when some record bronze holds is still retained |
| `BronzeToSilver.RunStaysInStep` | config/spark/jobs/bronze_from_kafka.py:91-119 | if every read without a checkpoint still found what bronze had not got, bronze passed over no record of the partition, and a kept checkpoint stands where bronze does |
| `BronzeToSilver.ReadCatchesUp` | config/spark/jobs/bronze_from_kafka.py:109-117 | and a read that is not refused gets to the end of the partition |
| `BronzeToSilver.LostCheckpointsLeaveNoTrace` | config/spark/jobs/bronze_from_kafka.py:26-50 | then, however often the checkpoint was lost and records read twice, silver over that bronze ends with the fold of the partition's records, each once |
| `Queries.KeyLessTotal` | api/src/queries.py:117-117 | the sort order of hour, country and method is total and irreflexive |
| `Queries.KeyLessTransitive` | api/src/queries.py:117-117 | and transitive |
| `Queries.FilterPredicates` | api/src/queries.py:56-74 | the clauses, fed their parameters left to right, use each exactly once and accept exactly the filtered keys |
| `Queries.KeysetMeans` | api/src/queries.py:77-96 | the nested OR groups with their six parameters mean strictly after the cursor lexicographically |
| `Queries.HourlyMetricsSql` | api/src/queries.py:99-123 | for every filter and optional cursor the statement accepts exactly the wanted keys and consumes every parameter |
| `Paging.OrderedSpec` | api/src/queries.py:117-122 | the ordered result is strictly increasing and holds exactly the selected rows |
| `Paging.FetchHourlyRows` | api/src/app.py:105-110 | building and running the statement fetches the first limit + 1 wanted rows in order |
| `Paging.PageSpec` | api/src/app.py:180-201 | a page is a prefix of the wanted rows; it has no cursor exactly when it shows them all, and otherwise its cursor is its last row's key |
| `Paging.WalkIncreases` | api/src/app.py:166-201 | even if gold is replaced between pages, the keys of one walk strictly increase, and each row is wanted and comes from a version read |
| `Paging.FinishedWalkMissesNothing` | api/src/app.py:166-201 | a finished walk returned every wanted key present in all the versions it read |
| `Paging.CursorDropsPage` | api/src/queries.py:77-96 | resuming after a page selects exactly the rows the page left |
| `Paging.RequestsIsCeiling` | api/src/app.py:180-199 | the request count is max(1, ceil(n / limit)) |
| `Paging.FixedWalkIsTheQuery` | api/src/app.py:180-201 | over a fixed table the walk ends after exactly that many requests and returns the wanted rows in order, no gaps or repeats |
| `RollUp.FetchSummary` | api/src/queries.py:126-142 | building and running the roll-up summarises exactly the accepted rows |
| `RollUp.RollUpIsExact` | api/src/queries.py:131-141 | the summary over gold is that of the payments: buckets, count and rate always, NULL rate when empty; volume if and only if no summarised bucket overflowed |
| `RollUp.SplitCombines` | api/src/queries.py:131-141 | the summary of a selection is the count-weighted combination of the summaries of any two parts |
| `RollUp.AdjacentWindowsTile` | api/src/queries.py:60-66 | the summaries of [a, b) and [b, c) combine to that of [a, c) |
| `Cache.SnapshotCache.constructor` | api/src/cache.py:22-31 | an empty cache with the given bound and zero counters |
| `Cache.SnapshotCache.Reset` | api/src/cache.py:40-42 | drops every entry and takes the new snapshot id |
| `Cache.SnapshotCache.Get` | api/src/cache.py:44-62 | returns what is held under this snapshot and key and nothing else; another snapshot empties the cache, a hit becomes most recent, and one of hits and misses goes up by one |
| `Cache.SnapshotCache.Shrink` | api/src/cache.py:72-74 | the eviction loop keeps exactly the newest entries the bound allows and counts the rest |
| `Cache.SnapshotCache.Put` | api/src/cache.py:64-74 | the entry becomes most recent in a cache of its own snapshot, within the bound and with distinct keys; under the same snapshot every other entry stays when there is room or the key was held |
| `Cache.SnapshotCache.Clear` | api/src/cache.py:76-78 | empties the cache and forgets the snapshot, keeping the counters |
| `Cache.MoveToEndSpec` | api/src/cache.py:60-60 | moving a key to the recent end keeps keys distinct and the size right |
| `LruInclusion.HitCarriesOver` | api/src/cache.py:44-62 | a hit in the smaller cache is a hit with the same value in the larger |
| `LruInclusion.StoreKeepsInclusion` | api/src/cache.py:69-74 | storing and evicting in both keeps the smaller cache a subsequence of the larger |
| `LruInclusion.LargerCacheIncludesSmaller` | api/src/cache.py:44-78 | for the same calls with any snapshot ids, the smaller cache's recency order is a subsequence of the larger's, it never has more hits, and neither exceeds its bound |
| `CacheHistory.LookupHitsExactly` | api/src/cache.py:44-78 | after any calls with any snapshot ids, a lookup of a snapshot and key hits with v if and only if v was the last value stored under that key, no call with another snapshot id and no clear came since, and since the key's last use fewer other keys than the bound were stored or found |
| `CacheHistory.CountersCount` | api/src/cache.py:44-62 | hits count the lookups that were answered, and hits and misses together all lookups |
| `CacheKey.KeyIdentifiesRequest` | api/src/app.py:138-149 | among accepted requests whose country does not begin with the separator and whose method is absent, or non-empty and free of it, equal keys mean equal requests, whatever the cursor text |
| `CacheKey.KeyCollisions` | api/src/app.py:138-149 | exactly when two accepted requests share a key, whatever their cursors: all else equal, an absent against an empty method or a country that begins with the separator and swallows the start of the other's method; or one request's method running into the other's limit and cursor |
| `Serving.CursorIsServedAnother` | api/src/app.py:138-149 | for every cursor token of up to 54 characters that decodes alone and before a second request's limit and token, two served requests with different limits and one key; the second is given the rows of the first although it asked for a method that has none |
| `Serving.Cached` | api/src/app.py:94-103 | the held value on a hit, else the built one, which is stored; the cache's new state is the get, then the put |
| `Serving.CommitKeepsInv` | api/src/app.py:88-103 | a gold commit at any moment keeps the invariant that everything cached was built no earlier than the snapshot it is filed under |
| `Serving.HitAnswersRequest` | api/src/app.py:94-98 | a hit answers this very request over a version no older than its label |
| `Serving.LookUpKeepsInv` | api/src/cache.py:44-62 | a lookup, including one that flips the cache to another snapshot, keeps the invariant |
| `Serving.StoreKeepsInv` | api/src/cache.py:64-74 | so does a store by a thread whose label is no longer the cache's |
| `Serving.ResponsesAreLinearizable` | api/src/app.py:166-201 | in every interleaving of request steps, failures and commits, when any two requests clients send that are served under one key have the same answers, each response is the query's answer on a version between its label and its return, and on exactly the labelled one if nothing was committed meanwhile |
| `Serving.OnlyServedAreAnswered` | api/src/app.py:151-171 | in every run only requests with accepted parameters are answered, and no hourly request whose cursor does not decode |
| `Serving.LinearizableExactly` | api/src/app.py:94-103 | for every set of requests clients may send: every response of every run answers its own request if and only if any two of them served under one key have the same answers over every gold table, or the cache holds nothing |
| `Serving.CompatibleIsAboutCollisions` | api/src/app.py:138-149 | that condition concerns exactly the colliding pairs of KeyCollisions, and holds when every request is unambiguous |
| `Serving.SameAnswersExactly` | api/src/queries.py:56-96 | two requests of one kind and page size have the same answers over every gold table if and only if they are about the same keys |
| `Serving.ResponsePageIsAPage` | api/src/app.py:176-201 | a page cut from any such response is a page of one version in that range |
| `Serving.TotalsResponseIsASummary` | api/src/app.py:204-229 | a summary response carries, for some version in that range, the number of accepted gold rows, the sum of their payment counts and volumes, and their rate weighted by payments |
| `ServedGold.SummariesAreOfSilver` | api/src/queries.py:131-141 | in every interleaving, when requests served under one key have the same answers and gold versions come from runs of the silver job, a summary response counts, for some version in that range, the selected silver rows and their buckets, gives the share authorized and, up to a million rows, their exact volume |
| `Serving.WalkThroughCache` | api/src/app.py:166-201 | a client that follows next_cursor through the cache, in any interleaving with other requests and commits, when requests served under one key have the same answers, gets strictly increasing keys and, at the end, every wanted key that stayed in gold throughout |
| `Serving.SharedKeySharesAnswer` | api/src/app.py:138-149 | the second of two accepted requests with one key is answered with the first one's result |
| `Serving.EmptyMethodIsServedAllMethods` | api/src/app.py:145-145 | concrete run: over any gold with rows, none of the empty method, totals of the empty method asked after totals of every method come back wrong |
| `Staging.IterJsonlChunks` | snowflake_etl/src/stage_to_s3.py:64-85 | fails exactly on a chunk size below one, else yields the chunks |
| `Staging.ChunksConserve` | snowflake_etl/src/stage_to_s3.py:78-85 | concatenated, the parts read back line by line as the records in order, and their row counts add up |
| `Staging.ChunkSizes` | snowflake_etl/src/stage_to_s3.py:78-85 | every part but the last holds exactly the chunk size, the last between one and it, and the number of parts is the ceiling |
| `Staging.SanitizeIsIdempotent` | snowflake_etl/src/stage_to_s3.py:104-114 | a run id is usable exactly when it has a letter, digit or underscore, and sanitizing twice is sanitizing once |
| `Staging.DashedJoins` | snowflake_etl/src/stage_to_s3.py:111-111 | each run of other characters becomes one dash, and the characters kept stay as they are |
| `Staging.StripJoins` | snowflake_etl/src/stage_to_s3.py:111-111 | stripping removes exactly the dashes at the two ends |
| `Staging.SanitizeIsNotInjective` | snowflake_etl/src/stage_to_s3.py:111-111 | two different ids that sanitize to the same one |
| `Staging.CollapsesExactly` | snowflake_etl/src/stage_to_s3.py:111-111 | a usable id shares its result with another, sanitized, id if and only if it is not itself sanitized |
| `Staging.RawIdsShareKeys` | snowflake_etl/src/stage_to_s3.py:117-118 | two usable raw ids write the same keys exactly when they sanitize to one id, and sanitized ones exactly when they are equal |
| `Staging.PadReadsBack` | snowflake_etl/src/stage_to_s3.py:145-145 | a part number reads back from its padded text, also past five digits; the text has five digits up to 99,999 |
| `Staging.ReadsFirstMatch` | snowflake_etl/dbt/models/staging/stg_payments.sql:51 | the pattern run=([^/]+) reads what its first match in a key takes, up to the next slash or the end, and nothing exactly when it matches nowhere |
| `Staging.RunIdReadsBack` | snowflake_etl/src/stage_to_s3.py:117-118 | the pattern run=([^/]+) reads the sanitized run id back from a key if and only if prefix, dataset and date do not themselves match it, or match with this id |
| `Staging.PlainHeadReadsNothing` | snowflake_etl/src/stage_to_s3.py:117-118 | without an equals sign in prefix, dataset or date they never match |
| `Staging.KeysIdentifyRunAndPart` | snowflake_etl/src/stage_to_s3.py:140-149 | whatever the prefix, two keys are equal exactly when run id and part number are, so runs never overwrite each other |
| `Staging.KeysIdentifyEverything` | snowflake_etl/src/stage_to_s3.py:117-118 | under one prefix, with no slash in datasets and dates, two part keys are equal if and only if dataset, date, run id and part number are |
| `Staging.KeysAreDistinct` | snowflake_etl/src/stage_to_s3.py:144-149 | the parts of one run have distinct keys |
| `Staging.ObjectStore.PutParts` | snowflake_etl/src/stage_to_s3.py:142-150 | each part is stored under its own key in order, no other object changes, and the total is the rows written |
| `Staging.ObjectStore.StageDataset` | snowflake_etl/src/stage_to_s3.py:121-170 | fails exactly on an unusable run id or chunk size, writing nothing; otherwise writes the chunks, or one empty part, and reports the keys and the number of records |
| `Loading.ParseCopyResult` | snowflake_etl/src/load_to_snowflake.py:123-143 | column by column: one file for each row with a first column, the total of the numbers in the fourth, and as skipped exactly the files of rows whose second column reads LOAD_SKIPPED in any letter case |
| `Loading.ListedExactly` | snowflake_etl/src/load_to_snowflake.py:133-143 | a file is listed as skipped if and only if a row of it has that status, and as a file if and only if it has a row |
| `Loading.CellTextReads` | snowflake_etl/src/load_to_snowflake.py:136-136 | a file name that is a number reads back as that number, and a missing one reads None |
| `Loading.SkippedIsRefused` | snowflake_etl/src/load_to_snowflake.py:356-360 | a history with one skipped file is refused whatever its counts and type |
| `Loading.HonestSums` | snowflake_etl/src/load_to_snowflake.py:133-143 | over a history of distinct staged files, counting by part is counting by row |
| `Loading.CountingIsEnough` | snowflake_etl/src/load_to_snowflake.py:333-380 | if the history lists distinct staged files, each loading at most its part's rows, reconciliation accepts exactly when for every part some row, its status not reading LOAD_SKIPPED, loaded all its rows, and a full snapshot is non-empty or allowed to be empty |
| `Loading.CountingNeedsDistinctFiles` | snowflake_etl/src/load_to_snowflake.py:361-375 | for every list of files: the counts decide every history of those files rightly, over all staged parts and loads, if and only if no file is listed twice |
| `Loading.StrayFileFools` | snowflake_etl/src/load_to_snowflake.py:368-375 | for every list of distinct files and each of them: were that one not staged, it could stand in for a staged part that never arrived |
| `Loading.OverloadFools` | snowflake_etl/src/load_to_snowflake.py:372-375 | for every list of distinct staged files and any two of them: one that loads a row too many makes up for the other loading none |
| `Loading.RepeatedFileFools` | snowflake_etl/src/load_to_snowflake.py:368-375 | concrete history: one part listed twice is accepted in place of another that never arrived |
| `Completion.RegisteredSpec` | snowflake_etl/src/load_to_snowflake.py:267-285 | afterwards the run has one row with the given facts, keeping what an earlier load stamped on it; every other run is as it was |
| `Completion.CompletedSpec` | snowflake_etl/src/load_to_snowflake.py:398-403 | run by run, only the open row of this very run is stamped |
| `Completion.FirstFailure` | airflow/dags/snowflake_fx_etl.py:181-194 | the first run of the list that does not reconcile; all before it do |
| `Completion.ControlTable.constructor` | snowflake_etl/src/load_to_snowflake.py:266-266 | a new control table holds no runs |
| `Completion.ControlTable.RegisterSnapshotRun` | snowflake_etl/src/load_to_snowflake.py:250-291 | an unknown snapshot type changes nothing; otherwise the run has one row with the given facts and its earlier stamp, and every other run is unchanged |
| `Completion.ControlTable.CompleteSnapshotRun` | snowflake_etl/src/load_to_snowflake.py:383-406 | row by row: the open row of the run keeps its facts and gets its counts and times; every other row, an already completed one included, is unchanged |
| `Completion.ControlTable.RegisterRuns` | airflow/dags/snowflake_fx_etl.py:136-159 | is a run of registration steps in order, up to the first unknown snapshot type, where it stops |
| `Completion.ControlTable.ValidateSnapshotLoad` | airflow/dags/snowflake_fx_etl.py:167-197 | is a run of validation steps in order, up to the first run that does not reconcile, whose failure it reports |
| `Completion.CompletedMeansReconciled` | snowflake_etl/src/load_to_snowflake.py:391-403 | in every run of register and validate steps whatever, there is one row per dataset and run id exactly for the registered runs; it shows the last registration's facts, and is open or carries the counts and time of the first validation that reconciled it |
| `Completion.StandsUnlessReregistered` | snowflake_etl/src/load_to_snowflake.py:276-279 | a completed row still shows the type, parts and rows its completion reconciled if and only if the last registration has them, that is unless a later one changed them |
| `Completion.ReregisteredRunIsUnreconciled` | snowflake_etl/src/load_to_snowflake.py:276-279 | register, validate, register with any other numbers: the row stays completed and shows numbers nobody reconciled |
| `Completion.CompletionIsFinal` | snowflake_etl/src/load_to_snowflake.py:399-401 | whatever steps follow, a completed run keeps its counts and times; it keeps its type, parts and rows if and only if the last registration then has those of the last one before |
| `Completion.ValidateCompletesExactly` | airflow/dags/snowflake_fx_etl.py:181-194 | a validate step over an honest history completes an open run if and only if every part arrived whole and the snapshot has a row or is windowed, one without a type counting as full; otherwise it changes nothing |
| `Completion.CurrentSnapshotIsWhole` | tests/test_dbt_project.py:112-120 | in every run what downstream reads was reconciled; it was reconciled as a full snapshot if and only if its type is still the one its completion saw, and then it has rows and with an honest history every part arrived whole |
| `Completion.WindowTurnsFull` | snowflake_etl/src/load_to_snowflake.py:276-279 | any windowed run that is completed and then registered again as full becomes what downstream reads |
| `Completion.CurrentIsNewest` | tests/test_dbt_project.py:112-120 | which run is current depends only on the set of completed full runs and their times |
| `Completion.OnlyACompletedFullRunTakesOver` | tests/test_dbt_project.py:112-120 | a step changes that set if and only if it registers a completed run of the dataset with the other type or validates an open full run of it; failed, repeated and windowed steps never do |
| `Pipeline.XcomSpec` | airflow/dags/snowflake_fx_etl.py:81-134 | what staging hands on are the snapshot's own facts and counts, and the type is window exactly for a proper data interval |
| `Pipeline.StagedRecordsArrived` | airflow/dags/snowflake_fx_etl.py:212-221 | for any extract staged in parts and any run in which it is completed on a history true of its files: every file was loaded whole, the row records as many rows as there were records, and the loaded files read in order are the records in order |
| `Pipeline.WhatIsUnderRun` | snowflake_etl/src/stage_to_s3.py:140-158 | after any attempts of one run, under its prefix are exactly the parts up to the most any attempt wrote |
| `Pipeline.OnlyTheLastExtract` | snowflake_etl/src/stage_to_s3.py:140-158 | so the prefix holds only the last extract if and only if no earlier attempt wrote more parts |
| `Pipeline.LaterPartsHoldRows` | snowflake_etl/src/stage_to_s3.py:78-85 | every part but the first of an extract holds a row |
| `Pipeline.LeftoversAreAccepted` | snowflake_etl/src/load_to_snowflake.py:356-380 | a load of an extract and parts left behind is accepted just as one of the extract alone; its row count is the extract's if and only if nothing with a row was left behind |

## Left out

- MaskPii: hashing of PII fields in `mask_pii_fields` (JSON and SHA-256 library calls); a bronze value is already an envelope or null.
- Json: envelope parsing and the text-to-number casts of a projected field; a field that is missing or does not cast is None.
- Clocks: `ingested_at`, `staged_at` and `completed_at` beyond their order; ties of `completed_at` or of Iceberg commit times are not broken.
- Text: trimming, case mapping and the white-space pattern beyond ASCII.
- Zone: session time zones; hours are cut in UTC.
- Rates: rounding of `avg` and of DOUBLE arithmetic; rates are exact rationals.
- Codec: base64 and JSON of cursor tokens, so the walk is over decoded keys.
- BatchSemantics.BatchEqualsSequence: two changes of one payment must both carry LSNs, because a change without one has no place in LSN order.
- DeadLetterFailures: a batch whose dead-letter MERGE the engine rejects has no step of its own in Replay, because it leaves silver and the checkpoint as they are; that the rest of a log can be delivered is therefore about validation only.
- Replay.ReplayConverges: silver starts empty, so a pre-existing table migrated with NULL LSNs is not covered.
- Cache: the lock, modelled as atomicity of each method; negative bounds, on which the program's eviction loop fails.
- HitRatio: `hit_ratio`, Prometheus metrics, health endpoints, the console and the benchmark.
- Copy: which files COPY picks up beyond those under a run's prefix, the LIKE pattern and the look-back window of the load history; the history is an input, and which histories the counts can be trusted on is stated as Honest.
- Completion.ControlTable.ValidateSnapshotLoad: each stamp takes effect when issued; a transaction that is rolled back is a run without those steps.
- Topics: bronze coordinates are partition and offset of the one configured topic.
- Dbt: the dbt models, FX extraction, the Databricks port, Kubernetes, Compose and Terraform.
- Platforms: Spark, Iceberg, Trino, Kafka, Snowflake and S3 themselves.
