# WOW-DB: a verified model of its hard logic

This project models, in Dafny, the parts of WOW-DB whose correctness is hardest
to see from the code, and proves what they promise. WOW-DB is an OLAP database
made of query nodes, compute nodes and storage nodes. The model covers:

- the in-memory SELECT executor: predicate pushdown, hash joins, column pruning
  and ORDER BY, against the plain "cross product, then WHERE" reading of a query
  (`Json`, `ValueOrder`, `Sql`, `SqlMeaning`, `Select`, `SelectCorrect`,
  `SelectQuery`, `SelectLimits`, `NullTests`, `Sorting`, `OrderBy`);
- the three-pool block cache: a doubly linked LRU list held in a map, with
  second chances for filter blocks (`BlockCache`, `Recency`, `EvictionOrder`);
- distributed GROUP BY: partial states, merging and the hash shuffle
  (`GroupBy`, `Shuffle`);
- the parser of `INSERT ... VALUES` lists, byte by byte, and the bulk loader's
  literals (`InsertValues`, `InsertRoundTrip`, `InsertLiterals`, `InsertText`,
  `InsertSpaces`, `LoaderQuoting`);
- automatic time partitions under concurrent calls (`Calendar`, `Partition`,
  `PartitionRuns`);
- two-phase commit, coordinator and storage side (`Coordinator`, `StorageTx`,
  `TwoPhaseCommit`);
- the asynchronous INSERT buffer, its worker and the channel to it
  (`AsyncInsert`, `InsertChannel`);
- disk-full hysteresis and the cluster's read-only guard (`ClusterGuard`,
  `DiskMonitor`);
- sessionization, funnel counting, tablet placement and column rewriting
  (`Sessionize`, `Funnel`, `Tablet`, `ColumnRewrite`).

`Common` holds shared sequence helpers, `Text` decimal digits and UTF-8. Objects
that the code updates in place are classes here (`LruPool`,
`VectorizedGroupByAgg`, `AutoPartitionManager`, `TransactionManager`,
`SnTransactionManager`, `Worker`, `Guard`, `QnDiskMonitor`, `TabletManager`);
each method is proved against a function of the old state, and the laws are
lemmas about those functions. Loops that the code runs over local variables are
methods with invariants.

What the code takes from elsewhere is a parameter: number parsing and printing
(`Host`), JSON and float parsing and the current time (`Lib`), clocks, fresh
identifiers, hash-map iteration order, probe results, and whether a Raft write
or a channel send succeeds. Every theorem holds for all values of them, under
the stated laws for the number functions and for JSON text.

Where a promise of the code does not hold, the model keeps the code's behaviour
and a lemma shows the input or gives the exact condition under which it holds:

| finding | member |
|---|---|
| a hash join misses rows equal under `=` when one side reads as negative zero and the other does not, and rows without the column when the other side is null | `SelectLimits.EquiJoinExact` |
| the planner does not look inside null tests: `WHERE b IS [NOT] NULL` reads a pruned column when nothing else in the query mentions `b` | `NullTests.NullTestExact` |
| and `WHERE a = 1 OR b IS NOT NULL` is tested before the table of `b` is joined | `NullTests.OrNullTestExact` |
| a column name shared by two tables makes pushdown drop right answers: `WHERE b.x = 1` is tested on the other table, and `WHERE x <> b.x` finds nothing | `SelectLimits.SharedColumnExact`, `SelectLimits.SelfUnequalExact` |
| pruning looks at the first row alone, so columns that only later rows have are lost | `SelectLimits.RaggedExact` |
| overwriting a cached block never evicts, and a block larger than the pool is kept | `BlockCache.InsertBound` |
| COUNT(DISTINCT) is the plain count | `Shuffle.CountDistinctExact` |
| NULL and the smallest integer are one group but may be shuffled apart | `Shuffle.ShuffleApartExact` |
| white space other than spaces and tabs before a value makes the tuple parser re-read part of it, and after a value is an error | `InsertSpaces.WhiteSpaceExact` |
| strings that are not ASCII are read back as their UTF-8 bytes taken for characters, and strings that are JSON text, such as 123, as the value they denote | `InsertText.InsertRoundTrips` |
| a string the bulk loader writes does not come back when it holds a backslash, is not ASCII or is JSON text | `LoaderQuoting.LoaderExact` |
| a range query with an empty range returns the partition around it | `Partition.RangeExact` |
| a node registered twice for a transaction blocks it for ever | `Coordinator.AcksCompleteExactly` |
| the coordinator's record of the outcome is that of the last call: a rollback overwrites a commit, and a commit a rollback | `Coordinator.LastCallWins` |
| a timeout after the acknowledgement splits the outcome of a transaction | `TwoPhaseCommit.TimeoutSplits` |
| the commit list of an active transaction is handed out, and may be refused | `TwoPhaseCommit.ActiveListRefused` |
| rows still in the channel are lost at shutdown, also those accepted while the last batches are being sent | `InsertChannel.StopLosesRow`, `InsertChannel.StoppingTakesNone` |
| a worker whose send fails loses that batch, the batches behind it, its buffers and the channel | `InsertChannel.ArrivalExact` |
| a shutdown requested while the worker is busy is never seen | `InsertChannel.StopSeenExact` |
| a manual override with a comment, or of another administrator, survives the clear command | `ClusterGuard.ClearExact` |
| a change whose Raft write fails, or lands before an older one, leaves a stale copy for the next restart | `ClusterGuard.CopyExact`, `ClusterGuard.StaleExact` |
| with recovery above full, hysteresis is lost | `DiskMonitor.HysteresisExact` |
| an event outside the window restarts the funnel as if it were its first step, so steps are missed or invented | `Funnel.WindowExact` |
| the analytics functions have no leap days: 29 February and 1 March are one day and distances shrink | `Funnel.PlainDaysExact`, `Funnel.PlainDistance` |
| leaders are not balanced: only nodes at multiples of the greatest common divisor of the replica and node counts lead a tablet, one single node once every node holds a replica | `Tablet.LeadersAre`, `Tablet.LeadersExact` |
| the column rewriter doubles every byte that is not ASCII, each time it runs | `ColumnRewrite.RewriteExact`, `ColumnRewrite.RewriteTwiceExact` |

## Model

| member | source | states |
|---|---|---|
| `Json.EscapeInjective` | query-node/src/executor/select_exec.rs:1260-1276 | strings whose JSON texts are equal are equal, so the text fallback of the join key confuses no two strings |
| `Json.EqualValuesShareKey` | query-node/src/executor/select_exec.rs:1260-1286 | values equal under SQL `=`, including a number against a numeric string, have the same hash-join key unless a negative zero is involved |
| `Json.ScalarKeyExact` | query-node/src/executor/select_exec.rs:1260-1286 | for equal scalars the keys agree if and only if both or neither read as negative zero |
| `Json.CmpJsonFlip` | query-node/src/executor/select_exec.rs:1292-1304 | comparing in the other order gives the opposite answer, for every mix of types |
| `Json.CmpJsonTransitive` | query-node/src/executor/select_exec.rs:1292-1304 | the comparison of mixed JSON values is transitive, so it is a total preorder |
| `ValueOrder.CmpJsonExact` | query-node/src/executor/select_exec.rs:1292-1304 | the comparison is one order: numbers by size, strings by their characters, false before true, null before everything, and mixed types as null, strings, numbers, lists, booleans, objects |
| `ValueOrder.ScalarEqExact` | query-node/src/executor/select_exec.rs:1278-1286 | scalars are equal under `=` if and only if they are the same number, also one read from a string, or the same string, boolean or null |
| `Sql.EvalLocal` | query-node/src/executor/select_exec.rs:834-937 | an expression's value depends only on what the row says for the names it mentions |
| `SqlMeaning.ComparisonsMeaning` | query-node/src/executor/select_exec.rs:869-874 | each of the six comparisons is that order or, for scalars, that equality of the operands' values |
| `SqlMeaning.NumbersCompare` | query-node/src/executor/select_exec.rs:869-874 | on numbers, integers and floats mixed, they compare sizes |
| `SqlMeaning.ConnectivesMeaning` | query-node/src/executor/select_exec.rs:860-876 | AND, OR and NOT are the connectives of two-valued logic |
| `SqlMeaning.TruthMeaning` | query-node/src/executor/select_exec.rs:810-817 | a condition is met unless it is false or NULL |
| `SqlMeaning.QualifiedMeaning` | query-node/src/executor/select_exec.rs:846-854 | a qualified name is looked up as a whole and then by its last part |
| `SqlMeaning.MissingMeaning` | query-node/src/executor/select_exec.rs:839-845 | a column the row does not have is NULL, and a condition that is NULL is not met |
| `SqlMeaning.BetweenMeaning` | query-node/src/executor/select_exec.rs:908-915 | BETWEEN is the conjunction of `>=` and `<=`, NOT BETWEEN its negation |
| `SqlMeaning.InMeaning` | query-node/src/executor/select_exec.rs:903-907 | IN is the disjunction of the equalities with the list's members, NOT IN its negation |
| `SqlMeaning.CaseMeaning` | query-node/src/executor/select_exec.rs:918-934 | CASE, with an operand or without, is the result of its first branch that matches, else its ELSE, else NULL |
| `SqlMeaning.CoalesceMeaning` | query-node/src/executor/select_exec.rs:971-983 | COALESCE is its first argument that is not NULL, or NULL |
| `SqlMeaning.IfMeaning` | query-node/src/executor/select_exec.rs:984-999 | IF is its second or third argument, by its first |
| `SqlMeaning.ConcatMeaning` | query-node/src/executor/select_exec.rs:881-885 | concatenation joins the operands' texts, nothing for NULL and a string as it is |
| `SqlMeaning.LikeMeaning` | query-node/src/executor/select_exec.rs:889-894 | LIKE matches the texts of its operands and NOT LIKE is its negation |
| `SqlMeaning.IntegersCalculate` | query-node/src/executor/select_exec.rs:1306-1321 | arithmetic on integers gives the integer below 2^53 that the library's operation gives; a division by zero gives zero |
| `SqlMeaning.FloatsCalculate` | query-node/src/executor/select_exec.rs:1306-1321 | with a float among the operands the result is the float the library gives, or NULL if that is infinite or no number |
| `SqlMeaning.NoNumberNoResult` | query-node/src/executor/select_exec.rs:1306-1321 | arithmetic on NULL or a boolean is NULL, and the negation of a number is its negative |
| `Sql.WalkIsComplete` | query-node/src/executor/select_exec.rs:466-501 | without IS NULL and IS NOT NULL the collected columns cover every name the expression reads |
| `Sql.ConjunctsMeaning` | query-node/src/executor/select_exec.rs:452-463 | a row passes WHERE if and only if it passes every split conjunct |
| `Sql.EqPairMeaning` | query-node/src/executor/select_exec.rs:422-449 | every row that passes WHERE satisfies each extracted column equality |
| `Select.MergeRow` | query-node/src/executor/select_exec.rs:622-630 | merging the new row's columns in any order gives the left row's columns, then the new ones, with every qualified copy, whatever the column names |
| `Select.MergeLookup` | query-node/src/executor/select_exec.rs:622-630 | in a merged row a qualified copy precedes a column the left row had, and that one a new column of the same name |
| `Select.HashJoinTables` | query-node/src/executor/select_exec.rs:584-637 | index build and probe return, for each left row in order, the right rows with the same key in order |
| `Select.MergeHits` | query-node/src/executor/select_exec.rs:619-632 | the rows merged for one probe are the indexed right rows in index order |
| `Select.CrossJoinTables` | query-node/src/executor/select_exec.rs:640-655 | the nested loops return every pair, left-major |
| `SelectCorrect.PushdownPreserves` | query-node/src/executor/select_exec.rs:505-536 | dropping rows that fail an applicable conjunct changes no final answer, whatever the rows' shapes and the tables joined later |
| `SelectCorrect.HashJoinIsFilter` | query-node/src/executor/select_exec.rs:584-655 | a hash join is the cross join restricted to pairs with equal keys, as a sequence |
| `SelectCorrect.JoinPreserves` | query-node/src/executor/select_exec.rs:268-285 | the join chosen for the next table, hash or cross, preserves the final answer |
| `SelectCorrect.KeepColsExact` | query-node/src/executor/select_exec.rs:570-581 | for any rows, pruning loses no wanted value if and only if no key of the first row is wanted or the first row has every wanted key that some row has |
| `SelectCorrect.KeepColsPreserves` | query-node/src/executor/select_exec.rs:570-581 | then pruning columns between joins leaves the answer the same on the columns kept |
| `SelectCorrect.PlanIsCorrect` | query-node/src/executor/select_exec.rs:210-305 | main theorem: the planned pipeline returns the rows of the filtered cross product, in order, equal on the needed columns; rows may differ in columns that are neither joined on nor needed |
| `SelectQuery.ExecuteFrom` | query-node/src/executor/select_exec.rs:228-305 | the executor's loop over the FROM list computes the plan of the theorem |
| `SelectQuery.NeededColsExact` | query-node/src/executor/select_exec.rs:540-567 | the needed columns are exactly those of the expressions in the five clauses, and all columns if and only if there is a wildcard |
| `SelectQuery.QueryIsCorrect` | query-node/src/executor/select_exec.rs:540-567 | if the planner knows the columns each pushed conjunct and the query read, every expression in the SELECT list, WHERE, GROUP BY, ORDER BY or HAVING has, on each row returned, the value it has on the same row of the filtered cross product |
| `SelectQuery.NoNullTestsCovered` | query-node/src/executor/select_exec.rs:466-501 | it does know them in every query without null tests in any of these clauses |
| `SelectQuery.GroupsAgree` | query-node/src/executor/select_exec.rs:664-671 | every row returned has the GROUP BY key of the same row of the filtered cross product, so the rows fall into the same groups |
| `SelectLimits.TwoTableExact` | query-node/src/executor/select_exec.rs:228-305 | for any two tables and any WHERE, all columns asked for, the plan is right if and only if every joined row that passes WHERE passes the conjuncts tested early on the first table's row alone and is one the index gives |
| `SelectLimits.EquiJoinExact` | query-node/src/executor/select_exec.rs:268-285 | an equality join over scalar columns is right if and only if no two equal values differ in reading as negative zero and no row without the right column meets a null on the left |
| `SelectLimits.NamesakeJoinExact` | query-node/src/executor/select_exec.rs:268-285 | `a.x = b.x` is joined right, in spite of the shared name, if and only if no two equal values differ in reading as negative zero |
| `SelectLimits.RaggedExact` | query-node/src/executor/select_exec.rs:570-581 | one table without WHERE is answered right if and only if no key of its first row is needed or that row has every needed key that some row has |
| `SelectLimits.RaggedLosesColumn` | query-node/src/executor/select_exec.rs:570-581 | two rows of different shapes whose second one loses a column that is asked for |
| `SelectLimits.PushedExact` | query-node/src/executor/select_exec.rs:505-536 | a conjunct that the first table seems to answer is answered right if and only if no joined row satisfies it whose row of the first table alone does not |
| `NullTests.NullTestExact` | query-node/src/executor/select_exec.rs:466-501 | `IS NULL` or `IS NOT NULL` on a column is answered right if and only if the column is needed elsewhere, or nothing is pruned, or the column is null in every row |
| `NullTests.OrNullTestExact` | query-node/src/executor/select_exec.rs:505-536 | over two tables, a condition on the first OR a null test on a column of the second: with IS NULL always right, with IS NOT NULL if and only if the column is null throughout or every row of the first table satisfies the condition |
| `NullTests.OrNullTestLosesRows` | query-node/src/executor/select_exec.rs:505-536 | a query over two one-row tables whose answer is lost that way |
| `SelectLimits.SharedColumnExact` | query-node/src/executor/select_exec.rs:505-536 | for two tables with a common column, `b.x = v` is answered right if and only if no row of `b` passes or every row of the other table does |
| `SelectLimits.SelfCompareExact` | query-node/src/executor/select_exec.rs:505-536 | `x op b.x` is answered right if and only if no pair passes whose left value does not pass against itself |
| `SelectLimits.SelfUnequalExact` | query-node/src/executor/select_exec.rs:505-536 | `x <> b.x` is answered right if and only if all values are equal |
| `SelectLimits.SharedColumnLosesRows` | query-node/src/executor/select_exec.rs:505-536 | two one-row tables whose answers to both are lost |
| `Sorting.SortIsUnique` | query-node/src/executor/select_exec.rs:1172-1201 | for a total preorder there is only one stable sort |
| `Sorting.PassesAreLexicographic` | query-node/src/executor/select_exec.rs:1172-1201 | sorting stably by each key, last key first, is one stable sort by the lexicographic order, for any number of keys |
| `OrderBy.TermPreorder` | query-node/src/executor/select_exec.rs:1178-1198 | each ORDER BY term, ascending or descending, compares rows by a total preorder |
| `OrderBy.ApplyOrderBy` | query-node/src/executor/select_exec.rs:1172-1201 | the result is a permutation of the rows in which any two rows tie on all terms or stand as the first term says on which they do not, by the order of its cells, ascending or descending; rows that tie on all terms keep their input order, and terms that name no column are ignored |
| `OrderBy.LexExact` | query-node/src/executor/select_exec.rs:1178-1198 | the lexicographic comparison of the sort is that order: a position counts from one and a header is the first one equal up to ASCII case |
| `OrderBy.FirstTermTypes` | query-node/src/executor/select_exec.rs:1192-1197 | so by the first term numbers go up by size, strings by their characters, booleans from false to true and nulls first; descending, the other way round |
| `BlockCache.AttemptTires` | storage-node/src/block_cache.rs:116-140 | every eviction attempt lowers the sum of resist + 1, so the eviction loop ends on every pool |
| `BlockCache.EvictsShortestSuffix` | storage-node/src/block_cache.rs:96-98 | without second chances, making room removes exactly the shortest least-recently-used suffix that suffices, or everything |
| `EvictionOrder.OrderHolds` | storage-node/src/block_cache.rs:116-129 | the eviction order, by resistance and least recently used first, lists exactly the pool's blocks |
| `EvictionOrder.AttemptInOrder` | storage-node/src/block_cache.rs:116-129 | an eviction attempt takes the first block of that order or, as a reprieve, leaves the order as it is |
| `EvictionOrder.EvictsInOrder` | storage-node/src/block_cache.rs:96-98 | with second chances, making room takes exactly the shortest prefix of that order that suffices, or everything |
| `EvictionOrder.FilterPoolEvicts` | storage-node/src/block_cache.rs:83-113 | so does inserting a new block into the filter pool after every run of operations |
| `BlockCache.InsertBound` | storage-node/src/block_cache.rs:84-114 | a new block leaves the pool within its limit if and only if the block fits; an overwrite evicts nothing |
| `Recency.UseMovesToFront` | storage-node/src/block_cache.rs:75-94 | a hit or an overwrite puts its block first, an overwrite with the new bytes and the old resistance, and leaves the others in their order |
| `Recency.MissKeepsAll` | storage-node/src/block_cache.rs:75-82 | a look-up that misses changes nothing |
| `Recency.RunIsLru` | storage-node/src/block_cache.rs:61-166 | in every run of a pool without second chances the blocks are in order of the last operation on them, latest first |
| `Recency.RunRecent` | storage-node/src/block_cache.rs:61-166 | in every run of either kind of pool they are in order of the last insertion, use or reprieve, latest first |
| `Recency.RunHoldsLatest` | storage-node/src/block_cache.rs:75-94 | in every run a block holds the bytes last inserted for it |
| `BlockCache.RunReprieves` | storage-node/src/block_cache.rs:116-140 | in every run a filter block is evicted after exactly three reprieves since it came in, other blocks after none |
| `BlockCache.LruPool.MoveToHead` | storage-node/src/block_cache.rs:142-166 | relinking keeps one well-formed doubly linked list and moves exactly that entry to the front |
| `BlockCache.LruPool.Get` | storage-node/src/block_cache.rs:75-82 | returns the stored block if present and makes it most recent |
| `BlockCache.LruPool.Reprieve` | storage-node/src/block_cache.rs:119-128 | a filter block with resistance left goes to the front with one less |
| `BlockCache.LruPool.RemoveTail` | storage-node/src/block_cache.rs:130-139 | the last entry leaves the map, the list and the byte count |
| `BlockCache.LruPool.Overwrite` | storage-node/src/block_cache.rs:87-94 | a present key gets the new block, keeps its resistance and becomes most recent, as `Recency.UseMovesToFront` says of the entries |
| `BlockCache.LruPool.Push` | storage-node/src/block_cache.rs:100-113 | a new block goes to the front, with three reprieves in the filter pool and none elsewhere |
| `BlockCache.LruPool.TryEvictTail` | storage-node/src/block_cache.rs:116-140 | drops the last entry, or in the filter pool gives it a second chance at the front |
| `BlockCache.LruPool.Insert` | storage-node/src/block_cache.rs:84-114 | the pool holds exactly the specified entries and byte count after an insert or overwrite |
| `BlockCache.RunPool` | storage-node/src/block_cache.rs:61-166 | after every sequence of operations the links encode one list equal to the specified entries |
| `BlockCache.BlockCacheInner.constructor` | storage-node/src/block_cache.rs:184-194 | the budget is split 70, 20 and the remainder, and the pools start empty |
| `BlockCache.BlockCacheInner.UsedBytes` | storage-node/src/block_cache.rs:222-224 | the bytes in use are those of all three pools' blocks |
| `BlockCache.BlockCacheInner.Insert` | storage-node/src/block_cache.rs:217-220 | a block goes to the pool of its type and leaves the other two pools unchanged |
| `BlockCache.BlockCacheInner.Get` | storage-node/src/block_cache.rs:212-215 | a lookup asks the pool of the block's type and leaves the other two unchanged |
| `GroupBy.SumAndCount` | compute-node/src/executor/vectorized_agg.rs:32-61 | SUM is the sum of the non-null cells modulo 2^64, COUNT their number |
| `GroupBy.MinAndMax` | compute-node/src/executor/vectorized_agg.rs:32-61 | MIN and MAX are attained and bound every non-null cell |
| `GroupBy.SummaryPermuted` | compute-node/src/executor/vectorized_agg.rs:32-51 | the order of rows does not change a group's state |
| `GroupBy.EncodeInverse` | compute-node/src/executor/vectorized_agg.rs:91-95 | eight little-endian bytes decode to the 64-bit integer they came from |
| `GroupBy.KeyColumnInverse` | compute-node/src/executor/vectorized_agg.rs:136-144 | every group cell is read back from the concatenated key |
| `GroupBy.SameKeyExact` | compute-node/src/executor/vectorized_agg.rs:88-96 | two rows share a serialised key if and only if their group cells agree, NULL counting as the smallest integer |
| `GroupBy.RowAccumulated` | compute-node/src/executor/vectorized_agg.rs:85-108 | adding one row to the state of some rows gives the state of all of them |
| `GroupBy.StatesMerged` | compute-node/src/executor/vectorized_agg.rs:111-122 | merging two partial states gives the state of all rows |
| `GroupBy.VectorizedGroupByAgg.UpdateStates` | compute-node/src/executor/vectorized_agg.rs:103-106 | every aggregate of the row's group is updated with its own column |
| `GroupBy.VectorizedGroupByAgg.AccumulateRow` | compute-node/src/executor/vectorized_agg.rs:89-106 | one row changes the state of its group only |
| `GroupBy.VectorizedGroupByAgg.MergeAllGroups` | compute-node/src/executor/vectorized_agg.rs:111-122 | the loop over the other map merges each of its groups once, in any order |
| `GroupBy.VectorizedGroupByAgg.Accumulate` | compute-node/src/executor/vectorized_agg.rs:85-108 | the map holds the state of all rows accumulated so far |
| `GroupBy.VectorizedGroupByAgg.Merge` | compute-node/src/executor/vectorized_agg.rs:111-122 | aggregate by aggregate, as many as both have, and in any order of groups, for any other aggregator; with the same lists the result is the state of both row lists together |
| `GroupBy.VectorizedGroupByAgg.Finish` | compute-node/src/executor/vectorized_agg.rs:125-161 | one record per group, in some order of the groups |
| `Shuffle.DistributedEqualsGlobal` | compute-node/src/executor/vectorized_agg.rs:111-122 | for every split and reordering of the rows, merged partial states equal aggregation on one node |
| `Shuffle.PartitionBatch` | compute-node/src/shuffle.rs:27-77 | each row goes to the partition its key hashes to, in order |
| `Shuffle.PartitionConserves` | compute-node/src/shuffle.rs:38-77 | partitioning loses and duplicates no row |
| `Shuffle.PartExact` | compute-node/src/shuffle.rs:41-58 | a row with value v is in partition |v| mod n; one without a value or without the column is in the first |
| `Shuffle.ShuffledAggregation` | compute-node/src/shuffle.rs:27-77 | shuffle, aggregate each partition, merge: the global aggregation |
| `Shuffle.ShuffleApartExact` | compute-node/src/shuffle.rs:38-60 | for any rows, shuffling by a group column keeps each group in one partition if and only if the partition count divides 2^63 or no group mixes NULL and the smallest integer in that column |
| `Shuffle.ShuffleAlwaysApart` | compute-node/src/shuffle.rs:38-60 | it holds for all rows if and only if the partition count divides 2^63 |
| `Shuffle.FinishIsCorrect` | compute-node/src/executor/vectorized_agg.rs:125-161 | exactly one record per distinct group key, decoding to the group's cells, with each aggregate of exactly that group's rows |
| `Shuffle.CountDistinctExact` | compute-node/src/executor/vectorized_agg.rs:53-61 | COUNT(DISTINCT) is never too small and is right if and only if the group has no repeated value |
| `InsertValues.ParseValue` | query-node/src/executor/insert_exec.rs:172-244 | a successful parse uses between one and the remaining characters after trimming, so the loops end |
| `InsertValues.ScanValue` | query-node/src/executor/insert_exec.rs:172-244 | the character loops compute the specified value and length |
| `InsertValues.ScanQuoted` | query-node/src/executor/insert_exec.rs:191-219 | the loop over a quoted string computes the specified text and end |
| `InsertValues.ScanTuple` | query-node/src/executor/insert_exec.rs:152-169 | the tuple loop equals the specified scan, for every value parser that makes progress |
| `InsertValues.ParseValueTuples` | query-node/src/executor/insert_exec.rs:130-149 | the list loop equals the specified scan, errors included |
| `InsertLiterals.DecimalRead` | query-node/src/executor/insert_exec.rs:223-232 | a number with a decimal point is the float it denotes, NULL if it overflows, and kept as a string if it is no float |
| `InsertLiterals.IntegerRead` | query-node/src/executor/insert_exec.rs:223-232 | digits behind an optional sign are the integer they denote if it has 64 bits, else kept as a string |
| `InsertLiterals.NoNumberRead` | query-node/src/executor/insert_exec.rs:223-232 | any other text that starts like a number is kept as a string |
| `InsertLiterals.EscapesRead` | query-node/src/executor/insert_exec.rs:191-220 | a string is read back whichever way it is written: doubled quotes, backslashes, and the escapes for newline and tab |
| `InsertLiterals.KeywordRead` | query-node/src/executor/insert_exec.rs:187-241 | NULL, TRUE and FALSE are read in any letter case; the call of NOW must start with a capital letter |
| `InsertLiterals.TupleStepExact` | query-node/src/executor/insert_exec.rs:157-168 | inside a tuple blanks are skipped and a comma is passed over, a parenthesis ends it, the end of the text is an error |
| `InsertLiterals.TuplesStepExact` | query-node/src/executor/insert_exec.rs:135-147 | between tuples blanks, newlines and commas are skipped, and anything but a tuple or the end is an error |
| `InsertRoundTrip.ValueRoundTrip` | query-node/src/executor/insert_exec.rs:172-244 | the bytes of a printed NULL, boolean, 64-bit integer or string are used up, and read as the value or, for JSON text, as what it denotes |
| `InsertRoundTrip.BytesRoundTrip` | query-node/src/executor/insert_exec.rs:130-244 | so are those of any list of tuples of such values, to the last byte |
| `InsertText.ValueRoundTrips` | query-node/src/executor/insert_exec.rs:172-244 | the UTF-8 text of a printed value is used up and gives the value back if and only if it is no string, or one that is ASCII and no JSON text |
| `InsertText.InsertRoundTrips` | query-node/src/executor/insert_exec.rs:130-244 | the UTF-8 text of any list of tuples is consumed and gives the same tuples if and only if every string is ASCII and no JSON text |
| `InsertSpaces.WhiteSpaceExact` | query-node/src/executor/insert_exec.rs:152-179 | a tuple with white space before and after any of its values is read right if and only if all of that is spaces and tabs (other white space being before the last value, or before one from which on no value is a string) |
| `InsertSpaces.NewlineRepeats` | query-node/src/executor/insert_exec.rs:152-179 | a newline before a one-digit value makes the tuple hold it twice |
| `LoaderQuoting.LoaderEscapeExact` | query-node/src/executor/insert_exec.rs:191-217 | the text between the loader's quotes is read back if and only if it is ASCII and holds no backslash |
| `LoaderQuoting.LoaderExact` | scripts/tpch/bench.py:116-117 | a string the loader writes, doubling quotes only, comes back as that value if and only if it is ASCII, holds no backslash and is no JSON text |
| `LoaderQuoting.LoaderJson` | query-node/src/executor/insert_exec.rs:218-220 | an ASCII string without backslashes that is JSON text comes back as the value it denotes |
| `Calendar.DateIsUnique` | storage-node/src/partition.rs:106-110 | Gregorian dates and day numbers correspond one to one, for every year |
| `Calendar.CountsDays` | storage-node/src/partition.rs:106-110 | day 0 is 1970-01-01 and each day's number is one less than that of the date after it, by the lengths of the months and the rule for leap years |
| `Partition.CreateIsUnit` | storage-node/src/partition.rs:103-153 | the partition computed from year, month and day, with the December rollover, is that of the timestamp's calendar unit |
| `Partition.CreateExact` | storage-node/src/partition.rs:103-153 | for a representable timestamp it is the calendar partition that contains it; if it starts within the library's range, it contains the timestamp if and only if the timestamp is representable |
| `Partition.UnitContains` | storage-node/src/partition.rs:42-46 | a unit's partition contains exactly the timestamps of the unit |
| `Partition.UnitLength` | storage-node/src/partition.rs:111-152 | a partition starts at midnight and is one day, the days of its month or those of its year long |
| `Partition.NamesDiffer` | storage-node/src/partition.rs:112-151 | different units have different names, for every year, however many digits |
| `Partition.NameReads` | storage-node/src/partition.rs:112-151 | a name reads back as year, month and day, in this order, the year in at least four characters and the others in two digits |
| `Partition.TidyIsPartition` | storage-node/src/partition.rs:93-98 | in an ascending list of calendar partitions no name occurs twice and none overlap |
| `Partition.AddKeepsTidy` | storage-node/src/partition.rs:93-98 | the name check, push and sort keep the list ascending and canonical and add exactly the new partition |
| `Partition.RangeExact` | storage-node/src/partition.rs:188-192 | the range test holds exactly for partitions that meet the range, or that span an empty one |
| `Partition.FindExact` | storage-node/src/partition.rs:73-79 | the lookup finds the calendar partition of the timestamp if it is listed |
| `Partition.AutoPartitionManager.Add` | storage-node/src/partition.rs:92-98 | the section under the write lock adds the partition once and keeps the list in order |
| `Partition.AutoPartitionManager.GetOrCreate` | storage-node/src/partition.rs:67-100 | without interference the calendar partition of the timestamp is returned and listed and nothing else changes |
| `Partition.AutoPartitionManager.DropPartition` | storage-node/src/partition.rs:164-176 | exactly the partition of that name in that cube goes, every other one stays, and the result says whether it was there |
| `Partition.AutoPartitionManager.PartitionsInRange` | storage-node/src/partition.rs:179-198 | for a non-empty range, exactly the listed partitions that meet it, in order |
| `PartitionRuns.ListsStayDisjoint` | storage-node/src/partition.rs:67-176 | in every interleaving of look-ups, insertions and drops each list is sorted, name-unique and disjoint |
| `PartitionRuns.CallsReturnTheirPartition` | storage-node/src/partition.rs:67-100 | each call returns the calendar partition of its timestamp whatever ran in between, and it is listed unless it was dropped since the call found or added it |
| `PartitionRuns.DroppedExact` | storage-node/src/partition.rs:163-176 | a call is marked so if and only if a drop of that name in that cube came after it returned |
| `PartitionRuns.ListedExact` | storage-node/src/partition.rs:67-176 | in every interleaving the partitions listed are exactly those that some call added and no later event dropped |
| `PartitionRuns.CallsAgree` | storage-node/src/partition.rs:67-100 | two calls return the same partition if and only if their timestamps share a calendar unit |
| `Coordinator.MarkFirstExact` | query-node/src/transaction.rs:124-129 | an acknowledgement sets the flag of the first entry of its node and no other |
| `Coordinator.PreparedMeansAllAcked` | query-node/src/transaction.rs:119-138 | in every run that leaves a transaction Prepared no node is registered twice and every entry was acknowledged after it was registered |
| `Coordinator.Frozen` | query-node/src/transaction.rs:96-181 | once a transaction has left Active it never returns and its participants are frozen |
| `Coordinator.FlagsExact` | query-node/src/transaction.rs:119-129 | in every run an entry's flag is set if and only if it is the first of its node and the node acknowledged after it was registered |
| `Coordinator.ParticipantsExact` | query-node/src/transaction.rs:96-116 | as long as a transaction is active its participants are all that registered, in order |
| `Coordinator.StateExact` | query-node/src/transaction.rs:119-158 | without a recorded outcome a transaction is Aborted if a commit timed out, else Prepared if and only if an acknowledgement found every flag set |
| `Coordinator.LastCallWins` | query-node/src/transaction.rs:161-181 | else its state is that of the last commit mark or rollback, whatever came before |
| `Coordinator.AcksCompleteExactly` | query-node/src/transaction.rs:119-138 | acknowledgements complete a transaction if and only if no node is registered twice and every node acknowledged |
| `Coordinator.MarkPrepared` | query-node/src/transaction.rs:124-129 | the loop with its early exit sets the flag of the first matching entry |
| `Coordinator.TransactionManager.Begin` | query-node/src/transaction.rs:87-93 | a fresh identifier gets an active transaction without participants |
| `Coordinator.TransactionManager.MarkCommitted` | query-node/src/transaction.rs:161-168 | marks a known transaction committed from any state |
| `Coordinator.TransactionManager.RegisterParticipant` | query-node/src/transaction.rs:96-116 | a participant is added only to an active transaction; unknown and inactive ones are errors |
| `Coordinator.TransactionManager.ReceivePrepareAck` | query-node/src/transaction.rs:119-138 | the first entry of the node is marked and the transaction becomes Prepared when all are |
| `Coordinator.TransactionManager.PrepareCommit` | query-node/src/transaction.rs:142-158 | hands out the participants of an open transaction, or aborts it on timeout |
| `Coordinator.TransactionManager.Rollback` | query-node/src/transaction.rs:171-180 | marks the transaction rolled back from any state and returns its participants |
| `Coordinator.TransactionManager.CleanupTimedOut` | query-node/src/transaction.rs:190-207 | exactly the open transactions that did not expire remain, and the count is of those that did |
| `StorageTx.CommittedWasPrepared` | storage-node/src/transaction.rs:90-131 | in every run Committed implies an earlier successful prepare and the log position it recorded |
| `StorageTx.Absorbing` | storage-node/src/transaction.rs:70-148 | Committed and RolledBack are never left and a recorded log position never changes |
| `StorageTx.StateExact` | storage-node/src/transaction.rs:90-148 | the state after any run in terms of its operations: the first prepare or rollback settles it, and after a prepare in time the first commit or rollback |
| `StorageTx.StaysActive` | storage-node/src/transaction.rs:90-148 | without a prepare or rollback the entry stays active |
| `StorageTx.RollbackExact` | storage-node/src/transaction.rs:135-148 | after any run a rollback succeeds if and only if the entry is not committed |
| `StorageTx.TabletsExact` | storage-node/src/transaction.rs:77-85 | the entry lists exactly the tablets added, each once |
| `StorageTx.SnTransactionManager.Register` | storage-node/src/transaction.rs:70-74 | an unknown transaction gets an active entry, a known one is left alone |
| `StorageTx.SnTransactionManager.AddTablet` | storage-node/src/transaction.rs:77-85 | a tablet is recorded once, in any state |
| `StorageTx.SnTransactionManager.PrepareTx` | storage-node/src/transaction.rs:90-108 | prepares an active entry, rolls back a timed-out one, refuses any other |
| `StorageTx.SnTransactionManager.CommitTx` | storage-node/src/transaction.rs:113-131 | commits a prepared entry, repeats for a committed one, refuses any other |
| `StorageTx.SnTransactionManager.RollbackTx` | storage-node/src/transaction.rs:135-148 | rolls back anything that is not committed |
| `StorageTx.SnTransactionManager.CleanupTimedOut` | storage-node/src/transaction.rs:151-171 | reports the open entries that expired and keeps exactly the other open ones |
| `TwoPhaseCommit.SplitsAreTimeouts` | storage-node/src/transaction.rs:90-171 | in every run in which some node committed, the nodes that ever rolled back are exactly those a timeout rolled back |
| `TwoPhaseCommit.Agreement` | query-node/src/transaction.rs:96-181 | without timeouts no node ever commits in a run in which another rolls back, for every run of the stated driver, clean-up and registration anew included |
| `TwoPhaseCommit.CommitCompletes` | storage-node/src/transaction.rs:113-131 | after a commit decision, delivering it in any order and any number of times commits every target that did not time out |
| `TwoPhaseCommit.AbortCompletes` | storage-node/src/transaction.rs:135-148 | after an abort decision, delivering it in any order and any number of times rolls back every target reached that has an entry, and none has committed |
| `TwoPhaseCommit.TimeoutSplits` | storage-node/src/transaction.rs:151-171 | from every reachable state with a commit decision one timeout at a prepared target splits the outcome |
| `TwoPhaseCommit.SplitIsReachable` | query-node/src/transaction.rs:96-158 | for any two nodes a run of nine events reaches such a state |
| `TwoPhaseCommit.CommitNeedsPrepared` | query-node/src/transaction.rs:142-158 | sending a commit list commits all its targets if and only if every target has committed or prepared |
| `TwoPhaseCommit.ActiveListRefused` | query-node/src/transaction.rs:142-158 | every run of an active transaction can be continued so that it is still active and its list, delivered in any order, leaves a target uncommitted |
| `AsyncInsert.Worker.Drain` | query-node/src/ingestion/async_insert.rs:107-110 | a buffer gives up its rows and its byte count and the counter drops by as many |
| `AsyncInsert.NeedsFlushExact` | query-node/src/ingestion/async_insert.rs:94-105 | a buffer is due exactly when it has reached a limit or has waited for the interval with rows in it, for the first reason that applies |
| `AsyncInsert.StoreExact` | query-node/src/ingestion/async_insert.rs:87-105 | storing a row makes a batch, of all rows of its cube, if and only if these reach the row limit or the byte limit or the interval has passed since the row was stored; other cubes are not touched |
| `AsyncInsert.BatchOnTime` | query-node/src/ingestion/async_insert.rs:94-105 | in every run the worker handles, a batch that names the timeout was made at least the interval after its last row was stored, and one that names the shutdown at the shutdown |
| `AsyncInsert.Worker.StoreRow` | query-node/src/ingestion/async_insert.rs:87-105 | the buffers, the counter and the batch after a stored row are those of `AsyncInsert.StoreExact` |
| `AsyncInsert.Worker.SendPending` | query-node/src/ingestion/async_insert.rs:240-246 | the non-empty batches are sent in order, up to the first send that fails; that one and the rest are lost |
| `AsyncInsert.Worker.Receive` | query-node/src/ingestion/async_insert.rs:213-228 | storing a row and flushing its cube keep rows conserved, the counter exact and every buffer under both limits |
| `AsyncInsert.Worker.DrainDue` | query-node/src/ingestion/async_insert.rs:231-239 | exactly the buffers that reached a limit or are overdue are emptied, each into one batch, in any order of cubes; the others are unchanged and rows are conserved |
| `AsyncInsert.Worker.Round` | query-node/src/ingestion/async_insert.rs:229-247 | the periodic round empties exactly the buffers that are due and keeps the same |
| `AsyncInsert.Worker.Finish` | query-node/src/ingestion/async_insert.rs:197-210 | shutdown makes a batch of every buffer, in any order of cubes, and sends it or loses it |
| `AsyncInsert.Worker.RunBuffer` | query-node/src/ingestion/async_insert.rs:182-249 | for every sequence of rows, ticks and shutdown: per cube the batches sent, those lost and the buffer together equal the rows received, in order; no batch exceeds the row limit, each names the first reason that applies and was made by a signal that justifies it, nothing is lost before a send fails, and after the first shutdown no buffer is left |
| `InsertChannel.RunOrderly` | query-node/src/ingestion/async_insert.rs:128-164 | in every run of callers and worker the accepted rows are those taken, then those in the channel, in order; the channel holds no more than its capacity, and the worker handles nothing after it saw the stop |
| `InsertChannel.ArrivalExact` | query-node/src/ingestion/async_insert.rs:194-228 | in every run a cube's accepted rows are those sent, lost in a batch, buffered and untaken, in this order; all were sent if and only if no lost batch and no buffer holds one and the worker took each |
| `InsertChannel.Serve` | query-node/src/ingestion/async_insert.rs:182-249 | the worker over any such run, stopped, failed or running: that account holds at every moment after its last signal, and a worker that did not fail lost no batch |
| `InsertChannel.StopLosesRow` | query-node/src/ingestion/async_insert.rs:194-210 | every run that is not stopping and has room in the channel can be continued to one that stops with an accepted row never taken |
| `InsertChannel.StoppingTakesNone` | query-node/src/ingestion/async_insert.rs:197-210 | once the stop is seen no row is taken, whatever is accepted until the worker leaves |
| `InsertChannel.LossBound` | query-node/src/ingestion/async_insert.rs:129-129 | no run loses more rows than the channel's capacity |
| `InsertChannel.AskedExact` | query-node/src/ingestion/async_insert.rs:172-175 | the worker has been notified if and only if a stop was requested since it last began to wait |
| `InsertChannel.StopSeenExact` | query-node/src/ingestion/async_insert.rs:194-209 | it stops exactly when that is so; a request made while it is busy changes nothing |
| `ClusterGuard.AddExact` | query-node/src/meta/cluster_guard.rs:70-80 | adding replaces the reason of the same source, keeps the others, one per source |
| `ClusterGuard.RemoveExact` | query-node/src/meta/cluster_guard.rs:83-90 | removing drops that source and nothing else, and leaves read-only mode exactly when no reason is left |
| `ClusterGuard.EnteredExact` | query-node/src/meta/cluster_guard.rs:70-90 | in every sequence of changes the recorded time is that of the change that brought read-only mode in, after which it never ended |
| `ClusterGuard.ClearExact` | query-node/src/meta/cluster_guard.rs:252-271 | a clear is refused if and only if a disk is full and it is not forced; an accepted one drops that administrator's override without a comment and nothing else, and ends read-only mode if and only if no other reason is left |
| `ClusterGuard.SameSourceIsEquivalence` | query-node/src/meta/cluster_guard.rs:48-56 | having the same source is an equivalence |
| `ClusterGuard.CopyExact` | query-node/src/meta/cluster_guard.rs:211-243 | whatever order the writes reach Raft in, the stored copy is the state as of the change written last |
| `ClusterGuard.StaleExact` | query-node/src/meta/cluster_guard.rs:211-243 | a change that is not written leaves a copy that was in step out of step unless it put the last reason again or dropped an absent source |
| `ClusterGuard.Guard.LoadFromRaft` | query-node/src/meta/cluster_guard.rs:176-189 | a restart takes over the stored copy, if there is one |
| `ClusterGuard.Guard.Add` | query-node/src/meta/cluster_guard.rs:211-226 | the local state gains the reason whether or not the Raft write succeeds, the stored copy only if it does |
| `ClusterGuard.Guard.Remove` | query-node/src/meta/cluster_guard.rs:229-243 | the local state loses the source whether or not the Raft write succeeds, the stored copy only if it does |
| `ClusterGuard.Guard.CheckWriteAllowed` | query-node/src/meta/cluster_guard.rs:193-203 | writes are refused, with all reasons, exactly while some reason remains |
| `DiskMonitor.HysteresisExact` | query-node/src/disk_monitor.rs:190-224 | for every history a path is read-only iff it exceeded full and has not recovered since, if and only if recovery is not above full |
| `DiskMonitor.GuardFollowsDisks` | query-node/src/disk_monitor.rs:178-231 | in every run, with failing probes and Raft writes and other reasons in between, the guard holds a path's reason iff the path has tripped, no source appears twice, and writes are refused iff a reason remains |
| `DiskMonitor.PollObserves` | query-node/src/disk_monitor.rs:178-231 | a poll observes its paths in order, each probe's answer once, up to the first whose Raft write fails, and all of them without such a failure |
| `DiskMonitor.QnDiskMonitor.PollOnce` | query-node/src/disk_monitor.rs:178-231 | the loop over the paths, its early return included, computes the specified poll |
| `DiskMonitor.QnDiskMonitor.ObservePath` | query-node/src/disk_monitor.rs:190-224 | one observation changes the path's state and the guard together, before any Raft failure shows |
| `Sessionize.SegmentIsSegmentation` | compute-node/src/analytics/sessionize.rs:101-128 | sessions concatenate to the events, neighbours inside are at most the timeout apart, sessions more than it |
| `Sessionize.SegmentationIsUnique` | compute-node/src/analytics/sessionize.rs:101-128 | no other division of the events has those properties |
| `Sessionize.LargerTimeoutMerges` | compute-node/src/analytics/sessionize.rs:101-128 | a larger timeout only merges whole neighbouring sessions |
| `Sessionize.BuildSessions` | compute-node/src/analytics/sessionize.rs:42-61 | start, end, count, names and duration of each session are those of its events |
| `Sessionize.SessionsAddUp` | compute-node/src/analytics/sessionize.rs:42-61 | the sessions' names in order are those of the events and their counts add up to the number of events; each has as many names as it counts and lasts from its start to its end |
| `Sessionize.GroupByUser` | compute-node/src/analytics/sessionize.rs:84-87 | each user's events are grouped in input order |
| `Sessionize.SessionizeAll` | compute-node/src/analytics/sessionize.rs:82-98 | each user's sessions are those of the user's events sorted stably by time, whatever order users come out in |
| `Sessionize.UserEventsSorted` | compute-node/src/analytics/sessionize.rs:92 | the events sessions are cut from are exactly the user's, in order of time |
| `Sessionize.SessionTimes` | compute-node/src/analytics/sessionize.rs:82-128 | on sorted events no session ends before it starts, its events are at most the timeout apart, and it starts more than the timeout after the previous end |
| `Funnel.GroupRows` | query-node/src/executor/analytics_exec.rs:184-191 | each named user's rows are grouped in row order |
| `Funnel.SortGroups` | query-node/src/executor/analytics_exec.rs:192-194 | each group is sorted stably by time |
| `Funnel.ScanUser` | query-node/src/executor/analytics_exec.rs:199-220 | the matching loop computes the specified scan |
| `Funnel.GreedyIsOptimal` | query-node/src/executor/analytics_exec.rs:199-220 | when no event comes too late the scan reaches a step if and only if the steps up to it are a subsequence of the events, and then also one within the window |
| `Funnel.CoveredIsNeverLate` | query-node/src/executor/analytics_exec.rs:209-218 | a window that covers the user's whole span leaves nothing late |
| `Funnel.ExactWithoutStraddle` | query-node/src/executor/analytics_exec.rs:199-220 | sorted events of which none is in the window of one event and outside that of an earlier one: for every funnel the scan reaches a step if and only if the steps up to it were completed within the window |
| `Funnel.WindowExact` | query-node/src/executor/analytics_exec.rs:199-220 | for sorted timestamps the scan is exact for every funnel and every naming of the events if and only if there is no such event |
| `Funnel.StraddleUndercounts` | query-node/src/executor/analytics_exec.rs:213-218 | wherever there is one, a naming of the events makes the scan miss a completed step of a two-step funnel |
| `Funnel.LateEventOvercounts` | query-node/src/executor/analytics_exec.rs:213-218 | an input on which the restart counts a step never completed in the window |
| `Funnel.LateEventUndercounts` | query-node/src/executor/analytics_exec.rs:213-218 | an input on which the restart loses a step that was |
| `Funnel.CountSteps` | query-node/src/executor/analytics_exec.rs:196-225 | the count at a step is the number of users whose scan passed it |
| `Funnel.CountsDecrease` | query-node/src/executor/analytics_exec.rs:222-224 | step counts never increase, for every input |
| `Funnel.CountsAreExact` | query-node/src/executor/analytics_exec.rs:196-225 | when nothing is late the users counted are exactly those who completed the steps |
| `Funnel.CountsInWindow` | query-node/src/executor/analytics_exec.rs:184-225 | when no user's events straddle the window the users counted are exactly those who completed the steps within it |
| `Funnel.UsersExact` | query-node/src/executor/analytics_exec.rs:184-194 | counted are the users that some row names, each with the events of exactly the user's rows in order of time |
| `Funnel.ExecuteFunnelCount` | query-node/src/executor/analytics_exec.rs:182-225 | grouping, sorting and counting together, rows without a user skipped |
| `Funnel.PlainDaysExact` | query-node/src/executor/analytics_exec.rs:105-120 | the executor's day numbers keep the order of dates except that 29 February and 1 March of one year coincide |
| `Funnel.PlainDistance` | query-node/src/executor/analytics_exec.rs:105-120 | the executor's distance between two dates is the true one less the number of 29 Februarys passed over |
| `Tablet.ReplicasDistinct` | query-node/src/meta/tablet.rs:87-92 | a bucket's replicas are on distinct nodes |
| `Tablet.PlannedExact` | query-node/src/meta/tablet.rs:84-98 | each planned tablet has its own bucket and identifier and min(replication, nodes) replicas, those at its places of the round, the first of them its leader |
| `Tablet.ReplicasBalanced` | query-node/src/meta/tablet.rs:84-92 | over all buckets any two nodes' replica counts differ by at most one |
| `Tablet.LeadersExact` | query-node/src/meta/tablet.rs:50-51 | with two or more buckets all leaders are the same node if and only if the replication factor reaches the number of nodes |
| `Tablet.LeadersAre` | query-node/src/meta/tablet.rs:84-92 | with enough buckets a node leads one if and only if its place is a multiple of the greatest common divisor of the replica and node counts |
| `Tablet.TabletManager.Allocate` | query-node/src/meta/tablet.rs:40-69 | an empty node list or a failed write is an error that stores nothing; otherwise the tablet is stored with its first node as leader |
| `Tablet.TabletManager.AllocateForCube` | query-node/src/meta/tablet.rs:76-98 | one tablet per bucket in order; the first failure leaves exactly the earlier ones in the store |
| `Tablet.RouteExact` | query-node/src/meta/tablet.rs:127-158 | after the first allocation every hash is routed to the one tablet of its bucket, or to none if the bucket was not allocated, in any iteration order of the store |
| `ColumnRewrite.ReplaceWordBounded` | query-node/src/planner/behavioral_column_map.rs:39-68 | the index loop computes the specified rewrite |
| `ColumnRewrite.RunsAreRuns` | query-node/src/planner/behavioral_column_map.rs:37-38 | every text is the join of its maximal word and non-word runs |
| `ColumnRewrite.ReplaceIsMapRuns` | query-node/src/planner/behavioral_column_map.rs:39-68 | the characters pushed are the runs with those equal to the name mapped and all others as they were, for any notion of word character |
| `ColumnRewrite.RewriteExact` | query-node/src/planner/behavioral_column_map.rs:39-68 | the bytes of the result are the mapped runs if and only if the text is ASCII |
| `ColumnRewrite.RewriteTwiceExact` | query-node/src/planner/behavioral_column_map.rs:31-68 | rewriting the result again changes nothing if and only if the text is ASCII |
| `ColumnRewrite.NoWordRemains` | query-node/src/planner/behavioral_column_map.rs:31-33 | no whole-word occurrence is left among the characters pushed |
| `Text.DecodeInverse` | query-node/src/planner/behavioral_column_map.rs:63 | the UTF-8 bytes stored for a character decode to it, for every character |
| `ColumnRewrite.EventTimeLawful` | query-node/src/planner/behavioral_column_map.rs:31-33 | the rule for event_time is one the theorems apply to |

## Left out

- SelectCorrect.PlanIsCorrect: column names must be plain and unshared, rows must agree on the columns joined on or needed, and equality columns hold no negative zero. For two tables with all columns asked for, `TwoTableExact` says exactly what happens without any of this; for one table without WHERE `RaggedExact` does. Three or more tables, or pruned columns under WHERE, are characterised only under these conditions and by the instances in `NullTests`.
- SelectQuery.QueryIsCorrect: as `PlanIsCorrect`; a null test is covered only on a column that the same conjunct, or for pruning the query, also mentions outside null tests; `NullTests` says what happens otherwise for single conditions.
- SelectQuery.ExecuteFrom: explicit JOIN ... ON clauses, LIMIT, aggregates, projection and HAVING of the SELECT executor are not modelled, and of GROUP BY only the keys; the other functions behind `Func` and LIKE matching are parts of `Host`.
- Sql.EvalLocal: the evaluator's internal result type is collapsed to a JSON value; back quotes around identifiers and non-ASCII letter case are not modelled.
- Json: floating-point numbers are reals with signed zero, infinities and NaN; rounding is not modelled.
- BlockCache: the mutex around the cache and its statistics.
- GroupBy: Arrow arrays, types other than 64-bit integers, and the panic of a debug build on overflow (sums wrap, as in a release build).
- InsertValues: outside quoted strings only ASCII is modelled (other white space and letter case, and slices that cut a character, are not); column lists and the statement around VALUES; floats are parsed by a library parameter: `DecimalRead` says what is made of them, and they are not part of the round trip.
- InsertSpaces.WhiteSpaceExact: white space other than blanks before a value is covered if it is the last one or if no value from there on is a string; what the parser makes of a string it resumes inside, with more values behind it, is not characterised.
- Partition.AutoPartitionManager.GetOrCreate: locks are modelled as atomic steps in `PartitionRuns`; logging is left out, and an unrepresentable unit end, which panics, is the result `None`.
- TwoPhaseCommit.Agreement: one transaction, and a driver that acknowledges a node only after its prepare succeeded, decides once, and decides to commit only in Prepared; the code has no such driver of its own.
- Coordinator.TransactionManager.Begin: the UUID is a parameter that must be fresh.
- AsyncInsert.Worker.RunBuffer: a row's approximate size is a field; an insert that waits for room in the channel is one that happens later, and waiting for room in the flush channel is part of being busy.
- DiskMonitor.QnDiskMonitor.PollOnce: reading disk usage is a parameter and a usage is a real number, so NaN is left out; a restart between polls is not part of the runs.
- Sessionize.BuildSessions: the 32-bit event counter and 64-bit times do not wrap; session identifiers and extra columns are left out; the timeout is the signed value the code compares with.
- Funnel.ExecuteFunnelCount: argument and date parsing are left out apart from the day number.
- Tablet.TabletManager.AllocateForCube: tablet identifiers are fresh parameters; leader changes and listing by cube are left out.
- gRPC, HTTP and MySQL protocol code, Kafka and Spark ingestion, Raft, the LSM store, SIMD kernels, the cost-based optimiser, rebalancing, tiering, TTL, resource groups, result and metadata caches, materialised views and metrics are left out: they are plumbing, their sources are elsewhere, or they would only add easy members.
