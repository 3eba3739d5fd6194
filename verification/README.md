# BusTub in Dafny

A Dafny model of the parts of the BusTub database system that are written in full, with proofs of what they are for. `dafny verify dfyconfig.toml` checks every file.

The files fall into eight groups, after the components of the system.

**Query optimizer** (`Values`, `Expressions`, `HashUtil`, `Aggregates`, `Plans`, `PlanFacts`, `Optimizer`, `MergeFilterProof`, `JoinProof`, `SortProof`, `OptimizerProof`, `FilteredScanProof`, `MergePass`, `Pipeline`, `RuleCompleteness`, `NormalForm`, `PlannedQueries`). A plan is a tree of operators and denotes a sequence of rows; joins and HAVING have the meaning of sections 7.5 and 7.8 of ISO/IEC 9075:1992, and a row passes a predicate only when it is neither null nor false. All rewrites share one bottom-up skeleton and differ in what they do at a node; failed checks of the source are a `Throw` result. The main results are `OptimizePreserves`, that the default pass order keeps schema and rows, and `OptimizeSucceedsExactly`, when it throws, and `OptimizeReachesNormalForm`, that it leaves nothing for its rules to do; `FromWhereSucceedsExactly` and `FromWhereRowsExactly` say both of queries over base tables. Where a rewrite is unsound outside its evident intent there is a concrete plan that shows it and an equivalence that says exactly when it is right: `MergeFilterNljExactly`, `FilteredIndexJoinExactly`, `FilteredIndexScanExactly`, `KeyColumnExactly`.

**Executors** (`Executors`, `SqlMeaning`). The four pull iterators that exist and the polling loop are objects with a cursor; `Execute` ties them to the denotation of their plan. `SqlMeaning` says on the values themselves what each operator computes and which rows a filter yields.

**Aggregation planner** (`Strings`, `BoundExprs`, `AggregationPlanner`, `AggregationProof`, `AggregateMeaning`, `Typing`). One traversal rips aggregate calls out of expressions and a second must meet them in the same order. `TwoPhasePlanMeansDirect` says the resulting plan computes what evaluating the statement group by group, with columns read by name, computes; `QueryPlansExactly` says which statements are planned at all.

**Transaction manager** (`TableUndo`, `RowHistory`, `IndexUndo`, `Transactions`). Interleavings of row operations by several transactions, the logs they leave, and the undo of one log, for the runs as values and, in `PerformThenAbort`, for the objects; the latch protocol is a state machine over the five calls. `SlotOfRun` and `CellOfRun` say what a run leaves of a row and of an index key in terms of the operations on it.

**Extendible hash table** (`HashTableSpec`, `HashTableSplit`, `HashTableRuns`, `ExtendibleHashTable`, `HashTableFaults`, `HashTableRecovery`). A directory of handles into a store of buckets, so that several slots share one bucket, as in the source. Splitting as written can lose entries or throw; `RedistributeExactly` says exactly when a split changes no answer. Runs whose splits all meet that condition answer as a finite map (`SplittableRunsAnswer`); `RunExactly` makes it an equivalence for the states inside insertions too, `StrandedEntryRecovers` shows that between calls it is not one, and `EntryLost` and `InsertThrows` are two short runs with a bad split.

**LRU-K replacer** (`LruK`, `LruKHistory`, `LruKVictim`, `LruKReplacer`). What every run keeps and leaves of each frame, and exactly when the evicted frame is the one with the largest backward k-distance, given that the scan compares one history entry and remembers another. `VictimByHistories` says it of all histories and in their terms, `BriefHistories` in a simpler form for histories of up to 2k - 1 accesses.

**Binder and planner** (`TableRefs`, `TableRefProof`, `ResolvedColumns`, `FromClause`, `SelectStatement`). `PlannedFromMeans` and `PlannedSelectMeans` say that the plan of a FROM clause, and of a whole SELECT, has the rows of the statement, evaluated by recursion on it with columns read by name; `OptimizedSelectMeans` carries this through the optimizer. Enumeration and resolution of columns in nested table references against the schemas the planner gives them; the planner finds the column the binder meant except where dotted names coincide or a common table expression is used under another alias.

**Catalog** (`Catalog`, `CatalogObject`, `CatalogDb`). The four maps stay consistent in every run, indexes keep what they were filled with, and what the optimizer assumes of its database follows.

Where the code departs from its evident intent or its own comments, the model follows the code:

- Merging a filter keeps the join type of a LEFT join (merge_filter_nlj.cpp, line 70).
- The always-true test casts the constant of a join to BOOLEAN (merge_filter_nlj.cpp, line 41). It throws on integers, so that a join ON 1 under a WHERE is not optimized, and it accepts a NULL of type BOOLEAN and strings such as `t`. No row passes such a NULL as a predicate, so that merging makes rows appear; that no row passes a string either is a convention of the model.
- The order-by rule matches an index key by column name only (order_by_index_scan.cpp, line 66).
- Undoing an update ignores that the page may have no room for the old row (table_page.cpp, line 159); deleting a row twice is logged twice, so that commit's second delete fails its assertion; deleting a slot past the page is logged too (table_heap.cpp, lines 105 to 109), so that abort and commit both fail (table_page.cpp, lines 213 and 276).
- A bucket split computes the new slot as slot plus depth when nothing moves, and otherwise hands over only the slot of the last item moved (extendible_hash_table.h, lines 208 to 218).
- The eviction scan compares entry n - k of a history and remembers entry k - 1 (lru_k_replacer.h, lines 218 and 220).
- A column of a common table expression resolves under the expression's own name (bind_select.cpp, lines 622 and 686), while the plan carries the reference's alias (plan_table_ref.cpp, line 125).

Names of the model that recur: `Result` is `Ok` or `Throw`, the latter for any exception or failed assertion; `Valid`, `Shape`, `Homed`, `DbOk` and `WellFormed` are the invariants of the respective components; clocks, hash functions, shuffles, page space and key attributes are parameters.

## Model

| member | source | states |
|---|---|---|
| `Pipeline.OptimizePreserves` | bustub/src/optimizer/optimizer_custom_rules.cpp:10-19 | The whole default pass order returns a plan with the same schema and the same row sequence, for every well-formed plan whose scans carry no filter, on whatever constants its joins are, given sound indexes and that each merge it makes leaves every left row's output alone; the result again has no scan filter |
| `Pipeline.OptimizePlanned` | bustub/src/optimizer/optimizer_custom_rules.cpp:10-19 | A plan of the planner's shape in which filters come to sit over no constant but the TRUE of a cross product is optimized without a throw, into one of the same schema and rows |
| `NormalForm.OptimizeReachesNormalForm` | bustub/src/optimizer/optimizer_custom_rules.cpp:10-19 | The optimized plan leaves nothing for the rules of the order to do: no projection that only renames, no filter over an always-true join, no join of a scanned table on a column it has an index on, no sort that an index of that name would serve |
| `Pipeline.OptimizeSucceedsExactly` | bustub/src/optimizer/optimizer_custom_rules.cpp:10-19 | A plan of the planner's shape is optimized without a throw if and only if the merging pass meets its condition on constants |
| `MergePass.MergePassExactly` | bustub/src/optimizer/merge_filter_nlj.cpp:46-75 | On every well-formed plan the merging pass throws if and only if somewhere a filter comes to sit over a join on a constant that does not cast to BOOLEAN, or is merged while reading past its child |
| `MergePass.MergeNodeExactly` | bustub/src/optimizer/merge_filter_nlj.cpp:39-75 | At one node of any plan, exactly when the rule throws |
| `PlannedQueries.TableRefPlanned` | bustub/src/planner/plan_table_ref.cpp:34-139 | Plans of table references have the planner's shape, whatever constants their join conditions are |
| `FromClause.PlannedFromMeans` | bustub/src/planner/plan_table_ref.cpp:34-139 | For every table reference the planner accepts, nested at will, its plan has exactly the rows and column types of the FROM clause: the rows of tables and subqueries, cross products, and INNER and LEFT joins on conditions read by column name |
| `FromClause.JoinConditionMeans` | bustub/src/planner/plan_expression.cpp:62-98 | A planned join condition means itself with columns read by name from the side that has them |
| `FromClause.PlannedWhereMeans` | bustub/src/planner/plan_select.cpp:41-57 | With WHERE, exactly those of the rows on which the condition, read by name, is true, in order |
| `SelectStatement.PlannedSelectMeans` | bustub/src/planner/plan_select.cpp:35-155 | The plan of every SELECT the planner accepts has the rows of the statement: FROM, WHERE, grouping and select list evaluated directly by name, each once with DISTINCT, rearranged into the order of ORDER BY, and the first of them with LIMIT; and its columns bear the names of the select list |
| `SelectStatement.SelectPlansExactly` | bustub/src/planner/plan_select.cpp:35-155 | A SELECT is planned if and only if its tables exist, its WHERE, select list and sort keys have types where they are read, LIMIT is an INTEGER constant, and there is no OFFSET |
| `SelectStatement.GroupedExactly` | bustub/src/planner/plan_select.cpp:59-70 | It is planned without grouping if and only if it has neither GROUP BY nor HAVING nor an aggregate call to collect |
| `SelectStatement.ItemNamesExactly` | bustub/src/planner/plan_select.cpp:76-84 | An item of the select list keeps its name, and unnamed ones are numbered in order |
| `SelectStatement.LimitExactly` | bustub/src/planner/plan_select.cpp:115-148 | LIMIT n takes n rows, a negative one being read as an unsigned 64-bit number |
| `SelectStatement.OptimizedSelectMeans` | bustub/src/planner/plan_select.cpp:35-155 | And so has its optimized plan, where filters come to sit over no constant but the TRUE of a cross product |
| `SelectStatement.SelectPlanned` | bustub/src/planner/plan_select.cpp:35-155 | Plans of SELECT statements have the planner's shape |
| `FromClause.PlannedQueryMeans` | bustub/src/planner/plan_select.cpp:41-75 | A whole grouped query over FROM and WHERE has the rows of direct evaluation, group by group |
| `Typing.TableRefPlansExactly` | bustub/src/planner/plan_table_ref.cpp:34-139 | A table reference is planned if and only if its tables exist and are not internal ones, its subqueries were planned, and its join conditions have types |
| `Typing.ConditionPlansExactly` | bustub/src/planner/plan_expression.cpp:62-98 | A join condition is planned if and only if it has a type, each column being borne on one side only |
| `PlannedQueries.AggregationPlanned` | bustub/src/planner/plan_aggregation.cpp:50-164 | Plans of grouped queries have it over any child that has it |
| `PlannedQueries.WherePlanned` | bustub/src/planner/plan_select.cpp:53-57 | So has the filter of a WHERE clause |
| `PlannedQueries.FromWhereSucceedsExactly` | bustub/src/planner/plan_select.cpp:41-57 | For every FROM of base tables, cross products and joins nested at will and every WHERE, the optimizer throws if and only if the outermost join is ON a constant that does not cast to BOOLEAN |
| `PlannedQueries.FromWhereRowsExactly` | bustub/src/planner/plan_select.cpp:41-57 | And otherwise it keeps schema and rows if and only if the merge it makes, if any, leaves every left row's output alone |
| `PlannedQueries.OnIntegerThrows` | bustub/src/optimizer/merge_filter_nlj.cpp:39-44 | A join of base tables ON an integer, under any WHERE, makes the optimizer throw |
| `PlannedQueries.OnOneThrows` | bustub/src/optimizer/merge_filter_nlj.cpp:39-44 | FROM a JOIN b ON 1 WHERE 1 is planned, and the optimizer throws on it |
| `PlannedQueries.CastExactly` | bustub/src/type/varlen_type.cpp:184-194 | Exactly the spellings of the truth values cast to BOOLEAN, in any case of letters, besides BOOLEAN constants |
| `PlannedQueries.AcceptedConstantChangesRows` | bustub/src/optimizer/merge_filter_nlj.cpp:39-44 | In a well-formed plan over an INNER join on any constant the test accepts and no row passes, the merge turns no rows into one |
| `PlannedQueries.NullAndStringConstants` | bustub/src/optimizer/merge_filter_nlj.cpp:41 | Such constants are a NULL of type BOOLEAN and, by the convention of the model that no row passes a string, the string t; of the constants the test accepts only TRUE passes |
| `Pipeline.PassOnPlanned` | bustub/src/optimizer/optimizer_custom_rules.cpp:10-19 | The passes other than the merging one succeed on every plan of the planner's shape, preserve meaning and keep the shape |
| `Pipeline.PassKeepsUnfiltered` | bustub/src/optimizer/optimizer_custom_rules.cpp:10-19 | Every default pass keeps the property that no scan carries a filter, at every depth |
| `Pipeline.FilteredScanIsUnsafe` | bustub/src/optimizer/nlj_as_index_join.cpp:35-91 | A concrete join over a filtered scan whose rows change when it becomes an index join: why the previous property is needed |
| `FilteredScanProof.DroppedFilterExactly` | bustub/src/optimizer/nlj_as_index_join.cpp:60-88 | A join, INNER or LEFT, that ignores the right scan's filter has the same rows if and only if for every left row every match passes the filter, or in a LEFT join none does and the only match is a copy of the padding |
| `FilteredScanProof.FilteredIndexJoinExactly` | bustub/src/optimizer/nlj_as_index_join.cpp:35-91 | Over a filtered scan the index-join rule preserves schema and rows if and only if every left row is unaffected in that sense |
| `FilteredScanProof.FilteredIndexScanExactly` | bustub/src/optimizer/order_by_index_scan.cpp:58-68 | Over a filtered scan the sort rule preserves schema and rows if and only if every row of the table passes the filter |
| `Pipeline.FilteredSortIsUnsafe` | bustub/src/optimizer/order_by_index_scan.cpp:58-68 | A concrete sort over a filtered scan to which the index scan adds a row |
| `OptimizerProof.PassSound` | bustub/src/optimizer/optimizer.cpp:8-21 | Any one pass, applied bottom-up to a whole tree, preserves schema and rows when its rule is safe at every node reached |
| `OptimizerProof.Congruence` | bustub/src/include/execution/plans/abstract_plan.h:82-98 | Replacing children by equivalent ones gives an equivalent plan |
| `OptimizerProof.RuleSound` | bustub/src/optimizer/optimizer.cpp:8-21 | Each of the rules preserves schema and rows at one node under that rule's own condition |
| `MergeFilterProof.RewriteSucceeds` | bustub/src/optimizer/merge_filter_nlj.cpp:18-37 | The rewrite throws exactly when some column has tuple index other than 0 or lies outside the joined row |
| `MergeFilterProof.RewriteMeaning` | bustub/src/optimizer/merge_filter_nlj.cpp:18-37 | Evaluating the rewritten expression on a left and a right row equals evaluating the original on their concatenation |
| `MergeFilterProof.MergeInner` | bustub/src/optimizer/merge_filter_nlj.cpp:46-75 | Filtering an INNER join on TRUE yields the same row sequence as the join on the rewritten predicate |
| `MergeFilterProof.MergeExactly` | bustub/src/optimizer/merge_filter_nlj.cpp:63-71 | For INNER and LEFT joins on any constant, merging preserves the rows if and only if every left row is harmless. INNER: the constant passes, or nothing matches. LEFT: the row has a match, or there is no right row and its padding passes; on a constant that does not pass, its padding passes and it matches at most a copy of it |
| `MergeFilterProof.LeftMergeChangesRows` | bustub/src/optimizer/merge_filter_nlj.cpp:63-71 | A concrete LEFT join over which the merge invents a row |
| `MergeFilterProof.LeftExampleWellFormed` | bustub/src/optimizer/merge_filter_nlj.cpp:63-71 | That counterexample is a well-formed plan over any database |
| `OptimizerProof.MergeFilterNljExactly` | bustub/src/optimizer/merge_filter_nlj.cpp:46-75 | Wherever the rule merges, it preserves schema and rows if and only if every left row is harmless |
| `Pipeline.MergeFilterComplete` | bustub/src/optimizer/merge_filter_nlj.cpp:46-75 | After the pass no filter is left directly over a join whose predicate is always true |
| `RuleCompleteness.RuleFiresExactly` | bustub/src/optimizer/nlj_as_index_join.cpp:36-90 | Each of the rules for index joins, hash joins, index scans, filters in scans and constant filters rewrites a node exactly when the node is what the rule is for, said on the plan and the catalog |
| `RuleCompleteness.PassComplete` | bustub/src/optimizer/nlj_as_index_join.cpp:36-90 | After a pass of any of them, nothing its rule is for is left anywhere in the plan |
| `JoinProof.EquiMeaning` | bustub/src/optimizer/nlj_as_index_join.cpp:47-57 | An equality predicate over one column of each side, in either operand order, holds exactly when the extracted keys compare equal and non-null |
| `RuleCompleteness.HashJoinFiresExactly` | bustub/src/optimizer/nlj_as_hash_join.cpp:20-62 | A join becomes a hash join if and only if its predicate equates a left and a right column, in either order, and then with these columns as its keys |
| `RuleCompleteness.IndexJoinFiresExactly` | bustub/src/optimizer/nlj_as_index_join.cpp:36-90 | And an index join if and only if besides the right input is a table scan with a listed index on exactly that column |
| `JoinProof.ProbeFindsMatches` | bustub/src/optimizer/nlj_as_index_join.cpp:35-91 | Probing an index that agrees with its table returns the rows the equality predicate selects, in the same order, null keys included |
| `JoinProof.MatchIndexFound` | bustub/src/optimizer/nlj_as_index_join.cpp:24-33 | The index matched is one of the table's own and its key is exactly the joined column |
| `JoinProof.IndexJoinRows` | bustub/src/optimizer/nlj_as_index_join.cpp:35-91 | An index join yields the row sequence of the nested-loop join, INNER and LEFT, both operand orders |
| `OptimizerProof.IndexJoinSound` | bustub/src/optimizer/nlj_as_index_join.cpp:35-91 | The pass at one node preserves schema and rows |
| `JoinProof.HashFindsMatches` | bustub/src/optimizer/nlj_as_hash_join.cpp:20-63 | Bucketing by hash and comparing inside the bucket finds exactly the rows the equality predicate selects |
| `JoinProof.HashJoinRows` | bustub/src/optimizer/nlj_as_hash_join.cpp:20-63 | A hash join yields the row sequence of the nested-loop join, INNER and LEFT, both operand orders |
| `OptimizerProof.HashJoinSound` | bustub/src/optimizer/nlj_as_hash_join.cpp:20-63 | The pass at one node preserves schema and rows |
| `HashUtil.HashBytes` | bustub/src/include/common/hash_util.h:32-39 | The loop computes the 64-bit fold of the bytes seeded with the length |
| `HashUtil.HashedOne` | bustub/src/include/common/util/hash_util.h:32-39 | The hash of the eight bytes of the number 1, through both shifts |
| `HashUtil.HashedSigned` | bustub/src/include/common/util/hash_util.h:32-39 | The hash of a byte with the high bit set: it is extended by its sign |
| `HashUtil.LastByteMatters` | bustub/src/include/common/util/hash_util.h:32-39 | Byte strings that differ in their last byte only hash differently |
| `HashUtil.FirstByteDecides` | bustub/src/execution/filter_executor.cpp:28 | A number read as a predicate passes if and only if the first of its stored bytes is not zero |
| `HashUtil.EqualHashAlike` | bustub/src/include/common/hash_util.h:63-80 | Values that compare equal, of whatever integer width, hash alike |
| `HashUtil.NumbersHashApart` | bustub/src/include/common/util/hash_util.h:62-95 | Numbers that differ in their highest byte only hash differently, of whatever widths |
| `Values.CompareTrans` | bustub/src/type/integer_type.cpp:208-230 | The order rows are sorted by is transitive, and a tie end to end is a tie at each step |
| `SqlMeaning.CompareStringsMeans` | bustub/src/include/type/type_util.h:31-43 | Strings compare as at the first place where one ends or they differ |
| `SqlMeaning.ComparisonMeans` | bustub/src/include/execution/expressions/comparison_expression.h:62-80 | Each comparison of two values is what its SQL operator says of the numbers, strings or booleans, and null for a null or values of different kinds |
| `SqlMeaning.IntegerComparisons` | bustub/src/type/integer_type.cpp:183-240 | On numbers of any widths the six comparisons are the relations of the integers |
| `SqlMeaning.ArithmeticMeans` | bustub/src/include/execution/expressions/arithmetic_expression.h:78-91 | Sum and difference are the integer ones up to a multiple of 2 to the 32, null for a null and for the number that stands for null |
| `SqlMeaning.LogicMeans` | bustub/src/include/execution/expressions/logic_expression.h:70-105 | AND and OR follow the three-valued tables |
| `SqlMeaning.EvalTyped` | bustub/src/include/execution/expressions/comparison_expression.h:35-43 | On a row that suits it, an expression evaluates to a value of the type it announces |
| `SortProof.SortSorts` | bustub/src/optimizer/order_by_index_scan.cpp:24-75 | The reference meaning of ORDER BY is sorted, and a permutation (with PlanFacts.SortMultiset) |
| `PlanFacts.SortMultiset` | bustub/src/optimizer/order_by_index_scan.cpp:24-75 | Sorting keeps the multiset of rows |
| `SortProof.OneSortedArrangement` | bustub/src/optimizer/order_by_index_scan.cpp:24-75 | A strictly sorted arrangement of given rows is unique |
| `SortProof.IndexScanSorts` | bustub/src/optimizer/order_by_index_scan.cpp:24-75 | Scanning an index that agrees with its table yields exactly the sorted table |
| `SortProof.NamePicksColumn` | bustub/src/optimizer/order_by_index_scan.cpp:58-71 | With distinct column names, the key matched by name is the ordered column |
| `RuleCompleteness.OrderByFiresExactly` | bustub/src/optimizer/order_by_index_scan.cpp:17-74 | A sort becomes an index scan if and only if it is by one ascending column of a scanned table with a listed single-column index whose key bears the name of that column |
| `SortProof.CompareRowsMeans` | bustub/src/include/execution/plans/sort_plan.h:36-57 | Rows compare by the first key on which they differ, in the direction of that key |
| `SortProof.SharedNameChangesOrder` | bustub/src/optimizer/order_by_index_scan.cpp:58-71 | With a shared column name the pass changes the row order: a concrete table and index |
| `SortProof.KeyColumnExactly` | bustub/src/optimizer/order_by_index_scan.cpp:58-71 | Whatever the table holds, scanning its index on column d sorts it on column c: if and only if they are the same column |
| `OptimizerProof.OrderByIndexSound` | bustub/src/optimizer/order_by_index_scan.cpp:24-75 | The pass at one node preserves schema and rows |
| `Optimizer.TestIdentity` | bustub/src/optimizer/merge_projection.cpp:34-46 | The loop decides whether expression i is column i of the child, for all i |
| `OptimizerProof.MergeProjectionSound` | bustub/src/optimizer/merge_projection.cpp:12-55 | Dropping an identity projection keeps the rows and takes the outer schema |
| `Pipeline.MergeProjectionComplete` | bustub/src/optimizer/merge_projection.cpp:12-55 | No projection that meets the identity test is left anywhere in the tree |
| `Pipeline.MergeProjectionIdempotent` | bustub/src/optimizer/merge_projection.cpp:12-55 | A second pass changes nothing |
| `OptimizerProof.FilterScanSound` | bustub/src/optimizer/merge_filter_scan.cpp:15-37 | Moving a filter into a scan preserves schema and rows |
| `OptimizerProof.TrueFilterExactly` | bustub/src/optimizer/eliminate_true_filter.cpp:13-30 | Dropping a filter on any constant that casts to true keeps the rows if and only if the constant passes or the child has no rows, and is equivalent if and only if the schema was also that of the child |
| `PlanFacts.RowsWidth` | bustub/src/execution/plan_node.cpp:25-34 | Every row of a well-formed plan is as wide as the plan's schema |
| `Executors.Execute` | bustub/src/include/execution/execution_engine.h:53-77 | Executing any tree of the four executors ends with exactly the rows the plan denotes, and so does executing the same executor again |
| `Executors.PollExecutor` | bustub/src/include/execution/execution_engine.h:86-95 | Polling appends all remaining rows, in order, terminates and leaves the executor exhausted |
| `Executors.Executor.Init` | bustub/src/execution/filter_executor.cpp:11-14 | From any state, Init makes the remaining rows those the plan denotes |
| `Executors.Executor.Next` | bustub/src/execution/projection_executor.cpp:15-35 | Next yields the first remaining row and leaves the rest, or reports exhaustion exactly when none remains |
| `Executors.Executor.FilterNext` | bustub/src/execution/filter_executor.cpp:16-32 | The loop skips child rows whose predicate is null or false |
| `SqlMeaning.FilterPicks` | bustub/src/execution/filter_executor.cpp:16-33 | A filter yields, in order, exactly the rows on which its predicate is neither null nor false |
| `SqlMeaning.FilterOnColumn` | bustub/src/execution/filter_executor.cpp:16-33 | Comparing a column with a number, exactly the rows whose number stands in that relation to it |
| `Executors.Executor.ProjectionNext` | bustub/src/execution/projection_executor.cpp:15-35 | The next child row, with every expression evaluated on it |
| `Executors.Executor.ValuesNext` | bustub/src/execution/values_executor.cpp:10-27 | The tuple at the cursor, evaluated, and the cursor advanced |
| `Executors.Executor.MockNext` | bustub/src/execution/mock_scan_executor.cpp:399-412 | The row at the cursor, through the shuffle when there is one |
| `Executors.ShuffleRearranges` | bustub/src/execution/mock_scan_executor.cpp:382-392 | A shuffled scan yields the unshuffled rows, rearranged |
| `AggregationProof.TwoPhasePlanMeansDirect` | bustub/src/planner/plan_aggregation.cpp:84-163 | Projection over Filter over Aggregation yields, group by group, the select list evaluated directly on each group HAVING keeps; groups, keys and arguments are given by column name, without the planner |
| `AggregationProof.PlannedMeansDirect` | bustub/src/planner/plan_aggregation.cpp:141-158 | A second-phase expression, evaluated on an output row of the aggregation, equals the original evaluated on its group: the k-th call met is bound to the k-th aggregate |
| `AggregationProof.OperatorMeans` | bustub/src/planner/expression_factory.cpp:37-73 | The expression made for each of the twelve operator texts computes what the text says of the two values |
| `AggregateMeaning.CountStarCounts` | bustub/src/include/execution/executors/aggregation_executor.h:46-64 | count(*) is the number of rows, zero over none |
| `AggregateMeaning.CountCounts` | bustub/src/include/execution/executors/aggregation_executor.h:46-64 | count is the number of values that are not null, and null without any |
| `AggregateMeaning.ExtremeFound` | bustub/src/include/execution/executors/aggregation_executor.h:46-64 | min and max are an extreme of the values that are not null, and null without any |
| `AggregateMeaning.SumTotals` | bustub/src/include/execution/executors/aggregation_executor.h:46-64 | sum is the total of the numbers that are not null while partial totals fit in 32 bits, and null without any |
| `Typing.ExpressionPlansExactly` | bustub/src/planner/plan_expression.cpp:22-62 | Over one child an expression is planned if and only if it has a type and a slot is left for each of its calls; the plan has that type |
| `Typing.QueryPlansExactly` | bustub/src/planner/plan_aggregation.cpp:50-164 | A grouped query is planned if and only if its grouping expressions and calls have types over the table, and HAVING and select list have types over the groups |
| `Typing.QuerySchemaExactly` | bustub/src/planner/plan_aggregation.cpp:50-164 | The columns of its plan bear the names of the select list and the types its items have |
| `AggregationPlanner.DigitsRead` | bustub/src/planner/plan_aggregation.cpp:90-130 | Numbers in column names read back as themselves, so that aggregate columns have names of their own |
| `AggregationProof.ConsumesCollected` | bustub/src/planner/plan_expression.cpp:136-166 | Planning consumes exactly as many aggregates as collecting found in the expression |
| `AggregationProof.ListConsumesCollected` | bustub/src/planner/plan_aggregation.cpp:154-158 | The same over the whole select list: none is left over and none is missing |
| `AggregationProof.PlannedMeansByName` | bustub/src/planner/plan_expression.cpp:136-166 | An argument or grouping key, planned over the table, evaluates on every row to the expression read by column name, and keeps its name |
| `AggregationProof.PlannedCallMeans` | bustub/src/planner/plan_aggregation.cpp:27-45 | A planned aggregate call computes the named function over its argument's values |
| `AggregationProof.PlannedGroups` | bustub/src/planner/plan_aggregation.cpp:84-92 | The planned grouping keys group the rows as the grouping expressions do, in order of first appearance |
| `AggregateMeaning.FirstSeenExactly` | bustub/src/planner/plan_select.cpp:90-103 | Grouping keys, and the rows of DISTINCT, are each once and at the places of first appearance |
| `AggregationProof.AggNodeRows` | bustub/src/planner/plan_aggregation.cpp:104-139 | Row i of the aggregation node is the key of group i followed by each collected call folded over its argument's values in the group |
| `AggregationPlanner.PseudoPlansAlike` | bustub/src/planner/plan_expression.cpp:102-112 | Replacing aggregate calls by pseudo calls changes nothing for the second traversal |
| `AggregationPlanner.Planner.AddAggCallToContext` | bustub/src/planner/plan_expression.cpp:102-134 | Appends the outermost aggregate calls, left before right, and rewrites each to its pseudo name; throws exactly on unsupported kinds and on calls where none are allowed |
| `AggregationPlanner.Planner.PlanExpression` | bustub/src/planner/plan_expression.cpp:136-166 | Plans as the specification does, advancing the next aggregate |
| `AggregationPlanner.Planner.PlanAggCall` | bustub/src/planner/plan_aggregation.cpp:27-45 | Plans arguments in a fresh context, rejects DISTINCT, and restores the context |
| `AggregationPlanner.Planner.PlanSelectAgg` | bustub/src/planner/plan_aggregation.cpp:50-164 | Returns the two-phase plan or throws when it does, and leaves the surrounding context as it was |
| `BoundExprs.FindColumn` | bustub/src/planner/plan_expression.cpp:39-57 | Finds the column of a name, and throws when there is none or a second one |
| `TableUndo.AbortRestoresRow` | bustub/src/concurrency/transaction_manager.cpp:68-85 | For any interleaving by transactions on disjoint rows, popping the write set leaves a row as in the run without the transaction, if and only if undoing its first update finds room on the page |
| `TableUndo.AbortAssertsExactly` | bustub/src/concurrency/transaction_manager.cpp:72-84 | No assertion of the undo operations fails in such an abort if and only if every logged delete is of a slot within the page, that is, every row the transaction marked was there at the start or was inserted during the run |
| `TableUndo.DeletePastPageFails` | bustub/src/storage/table/table_heap.cpp:94-111 | Marking any slot past the page logs a delete, changes nothing, and makes both the abort and the commit fail |
| `TableUndo.ShrunkRowStaysShrunk` | bustub/src/storage/page/table_page.cpp:139-170 | A concrete run in which the undo finds no room and the row stays changed |
| `TableUndo.CommitEmptiesDeleted` | bustub/src/concurrency/transaction_manager.cpp:49-60 | Commit frees exactly the rows its log deletes |
| `TableUndo.CommitAssertsExactly` | bustub/src/concurrency/transaction_manager.cpp:49-60 | Commit's deletes trip no assertion if and only if each row is deleted once and is still present |
| `TableUndo.DoubleDeleteFails` | bustub/src/storage/table/table_heap.cpp:94-111 | Marking any live row twice logs two deletes, and commit fails its assertion |
| `RowHistory.SlotOfRun` | bustub/src/storage/page/table_page.cpp:38-209 | After any interleaving, the slot of every row in terms of its own events: live from its last insertion, with the last update before its first mark, and marked from then on |
| `RowHistory.MarkedStaysMarked` | bustub/src/storage/page/table_page.cpp:92-157 | A live row that is marked keeps its tuple whatever follows short of an insertion, no update finds it, and no other row changes |
| `IndexUndo.AbortRestoresIndexes` | bustub/src/concurrency/transaction_manager.cpp:86-110 | For any interleaving of effective entries, abort leaves every index as in the run without the transaction |
| `IndexUndo.CellOfRun` | bustub/src/concurrency/transaction_manager.cpp:86-110 | After any run of effective index operations, a key leads to a row if and only if the last operation on the key put it there, or it was there and there was none |
| `IndexUndo.AbortKeepsAgreement` | bustub/src/concurrency/transaction_manager.cpp:68-116 | Among any other transactions on rows and keys of their own, an index that agrees with its table in the run without the transaction agrees with it after the abort |
| `IndexUndo.LoneAbortKeepsAgreement` | bustub/src/concurrency/transaction_manager.cpp:68-116 | In particular, for a transaction that ran alone, if it agreed before |
| `LatchProtocol.Safety` | bustub/src/concurrency/transaction_manager.cpp:27-66 | In every interleaving of the five calls, shared latch holders equal running transactions, none runs while the block is held, and new ids are pairwise distinct |
| `LatchProtocol.AfterExactly` | bustub/src/concurrency/transaction_manager.cpp:27-120 | From the calls of an interleaving alone: ids are handed out from 0 on in order, a transaction runs as often as it has begun and not finished, the latch is exclusive since an unreleased block |
| `LatchProtocol.BlockAtLast` | bustub/src/concurrency/transaction_manager.cpp:118 | No interleaving gets stuck: the running transactions can finish, and then blocking does not wait |
| `LatchProtocol.StepKeepsInv` | bustub/src/concurrency/transaction_manager.cpp:118-120 | Every step that need not wait keeps the latch invariant |
| `Transactions.TransactionManager.Begin` | bustub/src/concurrency/transaction_manager.cpp:27-44 | Takes the latch shared, makes a transaction with the next id when none is given, and enters it in the map |
| `Transactions.TransactionManager.Commit` | bustub/src/concurrency/transaction_manager.cpp:46-66 | Fails exactly when an assertion of its deletes does; otherwise the heap with the logged deletes applied, an empty write set, and the latch released |
| `Transactions.TransactionManager.Abort` | bustub/src/concurrency/transaction_manager.cpp:68-116 | Fails exactly when an assertion of its undo does; otherwise heap and indexes undone from the back of both logs, both logs empty, and the latch released |
| `Transactions.TransactionManager.UndoTables` | bustub/src/concurrency/transaction_manager.cpp:70-85 | The loop equals the recursive undo of the whole log or stops at the first failed assertion, and ends |
| `Transactions.TransactionManager.UndoIndexes` | bustub/src/concurrency/transaction_manager.cpp:86-110 | The loop equals the recursive undo of the index log, and ends |
| `Transactions.PerformThenAbort` | bustub/src/concurrency/transaction_manager.cpp:68-116 | Any interleaving of insert, delete and update calls on the storage, whose events are those the calls amount to, then the abort of a transaction that shares no row with the others: the abort fails if and only if the transaction marked a row that was neither in its page at the start nor inserted during the run, and otherwise each row is as the others alone would have left it if and only if undoing the row's first update finds room |
| `Transactions.Perform` | bustub/src/storage/table/table_heap.cpp:39-132 | A call by any of the transactions amounts to one event of the run, or none when it is an update of a row that is not live or finds no room: heap and all write sets are those of the events so far |
| `Transactions.TransactionManager.BlockAllTransactions` | bustub/src/concurrency/transaction_manager.cpp:118 | While blocked no transaction runs and every call but ResumeTransactions has to wait; the latch invariant is kept |
| `Transactions.TransactionManager.ResumeTransactions` | bustub/src/concurrency/transaction_manager.cpp:120 | Transactions may begin again, the latch invariant is kept, and blocking again leads back to the state before |
| `Transactions.Storage.UpdateTuple` | bustub/src/storage/table/table_heap.cpp:113-132 | The row replaced when it is live and the new one fits, with the old one in the log unless the transaction is aborting |
| `Transactions.Storage.InsertTuple` | bustub/src/storage/table/table_heap.cpp:39-92 | The row is live in its slot and logged, no other slot changes |
| `Transactions.Storage.MarkDelete` | bustub/src/storage/table/table_heap.cpp:94-111 | A live row is marked and keeps its tuple, no other slot changes, and the delete is logged in any case |
| `Transactions.DeleteThenUpdate` | bustub/src/storage/page/table_page.cpp:92-157 | Of a deleted row an update is refused, and it keeps its tuple |
| `Transactions.Storage.ApplyDelete` | bustub/src/storage/page/table_page.cpp:211-260 | The slot freed; fails on an empty slot |
| `Transactions.Storage.RollbackDelete` | bustub/src/storage/page/table_page.cpp:262-283 | A marked row made live again, any other slot of the page left alone; fails on a slot past the page |
| `HashTableRuns.RunExactly` | bustub/src/container/hash/extendible_hash_table.cpp:78-116 | Over every run of inserts and removals the table answers as the finite map at every point, between the splits of an insertion included, if and only if every split it makes is splittable |
| `HashTableRuns.SplittableRunsAnswer` | bustub/src/container/hash/extendible_hash_table.cpp:78-116 | So what callers see, before the run and after each call, is right in every run whose splits are all splittable |
| `HashTableRecovery.StrandedEntryRecovers` | bustub/src/container/hash/extendible_hash_table.cpp:108-116 | For callers the condition is not necessary: inserting 19, 99, 111, 91 and 123 with buckets of two makes a split that strands 111 and a later one that brings it home, and every answer after each call is right |
| `HashTableRuns.InsertExactly` | bustub/src/container/hash/extendible_hash_table.cpp:108-116 | The same for one insertion: the table answers right after each of its splits if and only if they are all splittable |
| `HashTableRuns.InsertAnswers` | bustub/src/container/hash/extendible_hash_table.cpp:108-116 | An insertion with splittable splits adds its entry to the map, loses nothing, and keeps the invariant |
| `HashTableRuns.RetryEnds` | bustub/src/container/hash/extendible_hash_table.cpp:108-116 | Each retry lowers a well-founded measure when no more keys share a hash value than fit in a bucket |
| `HashTableRuns.RoomAtLast` | bustub/src/container/hash/extendible_hash_table.cpp:108-116 | Once the directory uses every hash bit, one more split makes room |
| `HashTableRuns.EmptyAnswers` | bustub/src/container/hash/extendible_hash_table.cpp:25-29 | A new table answers as the empty map |
| `HashTableRuns.RunCounts` | bustub/src/include/container/hash/extendible_hash_table.h:195-219 | In every run the counter of buckets is the number of buckets made |
| `HashTableFaults.CrowdedStaysFull` | bustub/src/container/hash/extendible_hash_table.cpp:108-116 | With a bucketful of keys sharing a hash value, or buckets of size 0, a split for one more that does not throw leaves it facing such a bucket again |
| `HashTableFaults.CrowdedNeverFits` | bustub/src/container/hash/extendible_hash_table.cpp:108-116 | However many splits are made for it, none makes room: the insertion ends only if a split throws |
| `HashTableSplit.RedistributeExactly` | bustub/src/include/container/hash/extendible_hash_table.h:195-219 | Redistributing a bucket changes no answer if and only if the grown directory lets it split: all moved items share a slot, or none moves and the computed slot exists and holds nothing |
| `HashTableSplit.DoubleKeeps` | bustub/src/include/container/hash/extendible_hash_table.h:197-202 | Doubling the directory keeps every lookup and the invariant |
| `HashTableFaults.EntryLost` | bustub/src/include/container/hash/extendible_hash_table.h:195-219 | Inserting 3, 0 and 4 with buckets of one: 3 is no longer found |
| `HashTableFaults.InsertThrows` | bustub/src/include/container/hash/extendible_hash_table.h:208-218 | Inserting 3, 0, 2 and 7 with buckets of one: the last insertion assigns past the directory and throws |
| `HashTableSpec.PutAtAnswers` | bustub/src/container/hash/extendible_hash_table.cpp:150-164 | Insertion into a bucket with room updates the map at the key |
| `HashTableSpec.RemoveAtAnswers` | bustub/src/container/hash/extendible_hash_table.cpp:93-99 | Removal removes the key from the map |
| `HashTableSpec.RemoveAtHomed` | bustub/src/container/hash/extendible_hash_table.cpp:93-99 | Removal keeps every entry in the slot its hash selects |
| `ExtendibleHashTable.FindInBucket` | bustub/src/container/hash/extendible_hash_table.cpp:126-135 | The loop finds the first entry of the key |
| `ExtendibleHashTable.RemoveFromBucket` | bustub/src/container/hash/extendible_hash_table.cpp:138-147 | The loop cuts out the first entry of the key and says whether there was one |
| `ExtendibleHashTable.InsertIntoBucket` | bustub/src/container/hash/extendible_hash_table.cpp:150-164 | Overwrites the key's entry even when full, else appends unless full |
| `ExtendibleHashTable.MoveItems` | bustub/src/include/container/hash/extendible_hash_table.h:205-217 | The loop keeps the items of this slot, moves the others, and remembers the slot of the last one moved |
| `ExtendibleHashTable.ExtendibleHashTable.constructor` | bustub/src/container/hash/extendible_hash_table.cpp:25-29 | One empty bucket at depth zero, answering as the empty map |
| `ExtendibleHashTable.ExtendibleHashTable.Find` | bustub/src/container/hash/extendible_hash_table.cpp:78-84 | The lookup in the bucket of the key's slot |
| `ExtendibleHashTable.ExtendibleHashTable.Remove` | bustub/src/container/hash/extendible_hash_table.cpp:93-99 | The table without the key, and whether it was found |
| `ExtendibleHashTable.ExtendibleHashTable.RedistributeBucket` | bustub/src/include/container/hash/extendible_hash_table.h:195-219 | The state of a split, or the half-changed state left when it throws |
| `ExtendibleHashTable.ExtendibleHashTable.Insert` | bustub/src/container/hash/extendible_hash_table.cpp:108-116 | The recursion equals the specified insertion, throwing exactly when it does, and ends |
| `LruK.RunKeeps` | bustub/src/include/buffer/lru_k_replacer.h:172-229 | Every run keeps frame ids distinct, the size equal to the evictable count, the frames within capacity, histories increasing and past, times unique, and frames ordered by first access |
| `LruK.StepKeeps` | bustub/src/include/buffer/lru_k_replacer.h:172-229 | Every operation keeps that invariant, and an eviction trips no assertion |
| `LruK.EvictTakesOne` | bustub/src/include/buffer/lru_k_replacer.h:206-229 | An eviction takes a frame if and only if one is evictable; it takes an evictable one and only that |
| `LruKHistory.FrameOfRun` | bustub/src/include/buffer/lru_k_replacer.h:165-229 | After every run a frame is known if and only if it was accessed and not dropped since, evictable if and only if the last setting of it since says so, and its history is the times of its accesses since |
| `LruKHistory.CallOnFrame` | bustub/src/include/buffer/lru_k_replacer.h:172-229 | What each call does to the frame it names, that it leaves every other frame alone, and how it moves the clock |
| `LruKHistory.CallFailsExactly` | bustub/src/include/buffer/lru_k_replacer.h:172-205 | Exactly when a call fails its assertion |
| `LruKHistory.VictimWasSet` | bustub/src/include/buffer/lru_k_replacer.h:206-229 | A frame last set otherwise, or never set, is never a victim |
| `LruKVictim.VictimByHistories` | bustub/src/include/buffer/lru_k_replacer.h:206-229 | For all histories and in their terms: the victim is the frame the LRU-K policy names if and only if that has fewer than k accesses, or it is where displacements end, which start at the hindmost evictable frame and go from each frame to the nearest one in front whose backward k-distance exceeds the age of its k-th access |
| `LruKVictim.VictimExactly` | bustub/src/include/buffer/lru_k_replacer.h:206-229 | The victim is the frame the LRU-K policy names if and only if it has fewer than k accesses, or the distance the scan has remembered from the frames behind it is below its own and no frame in front exceeds the one remembered for it |
| `LruKVictim.ShortHistoryFirst` | bustub/src/include/buffer/lru_k_replacer.h:215-217 | If some evictable frame has fewer than k accesses, the one first accessed earliest goes |
| `LruKVictim.BriefHistories` | bustub/src/include/buffer/lru_k_replacer.h:218-221 | In terms of the histories alone: with k to 2k - 1 accesses each, the policy is followed if and only if no frame in front lies farther back than the k-th access of the right one |
| `LruKVictim.EvenHistories` | bustub/src/include/buffer/lru_k_replacer.h:218-221 | With exactly 2k - 1 accesses each the policy is always followed |
| `LruKVictim.FarthestExists` | bustub/src/include/buffer/lru_k_replacer.h:206-229 | The policy names a frame whenever one is evictable |
| `LruKVictim.FarthestUnique` | bustub/src/include/buffer/lru_k_replacer.h:206-229 | It names no other |
| `LruKVictim.NearerFrameEvicted` | bustub/src/include/buffer/lru_k_replacer.h:218-221 | A run with k = 1 in which the more recently used of two frames is evicted |
| `LruKReplacer.LRUKReplacer.Size` | bustub/src/include/buffer/lru_k_replacer.h:170 | The number of evictable frames |
| `LruKReplacer.LRUKReplacer.FindInternal` | bustub/src/include/buffer/lru_k_replacer.h:160-168 | The loop finds the place of a frame, or reports its absence |
| `LruKReplacer.LRUKReplacer.Remove` | bustub/src/include/buffer/lru_k_replacer.h:172-180 | Cuts out an evictable frame, ignores an absent one, fails on any other |
| `LruKReplacer.LRUKReplacer.SetEvictable` | bustub/src/include/buffer/lru_k_replacer.h:182-191 | Sets the flag and counts the change; fails on an absent frame |
| `LruKReplacer.LRUKReplacer.RecordAccess` | bustub/src/include/buffer/lru_k_replacer.h:193-204 | Stamps the access on a known or new frame; fails when a new one exceeds the capacity |
| `LruKReplacer.LRUKReplacer.ChooseVictim` | bustub/src/include/buffer/lru_k_replacer.h:206-223 | The loop from the last frame to the first equals the recursive scan |
| `LruKReplacer.LRUKReplacer.Evict` | bustub/src/include/buffer/lru_k_replacer.h:206-229 | The specified eviction, reporting a frame if and only if the size is positive |
| `TableRefProof.PlanNamesAsBinder` | bustub/src/planner/plan_table_ref.cpp:34-139 | For every nested table reference the plan's column names are the dotted names the binder enumerates, in order |
| `TableRefProof.ResolveExactly` | bustub/src/binder/bind_select.cpp:540-704 | A name resolves if and only if it denotes exactly one enumerated column in exactly one way; none is not found, more is ambiguous |
| `TableRefProof.SuffixMeans` | bustub/src/binder/bind_select.cpp:590-600 | The wanted parts match a name if and only if the name, in lower case, ends with them |
| `Strings.LowerMeans` | bustub/src/include/common/util/string_util.h:77 | Strings are equal in lower case if and only if they differ in the case of letters only |
| `ResolvedColumns.ResolvedColumnPlanned` | bustub/src/planner/plan_expression.cpp:31-57 | The planner finds the very column the binder meant if and only if that column alone is called by the resolved dotted name; between names without dots, if and only if it does not come from a CTE under another alias |
| `ResolvedColumns.JoinConditionColumnPlanned` | bustub/src/planner/plan_expression.cpp:58-93 | The same for a join condition, looked for in both children: if and only if the column is the first so called on its side and none is on the other |
| `ResolvedColumns.JoinInjective` | bustub/src/include/binder/expressions/bound_column_ref.h:32 | Names without dots in their parts are told apart by their dotted form |
| `ResolvedColumns.AliasHidesTable` | bustub/src/binder/bind_select.cpp:640-672 | A table under an alias has its columns found under the alias and by themselves, and not under its own name |
| `TableRefs.FindCteNone` | bustub/src/planner/plan_table_ref.cpp:121-128 | None is found if and only if none bears the name |
| `TableRefs.FindCteFirst` | bustub/src/planner/plan_table_ref.cpp:121-128 | Of several common table expressions of a name the first is meant |
| `ResolvedColumns.AliasedCteNotFound` | bustub/src/binder/bind_select.cpp:618-622 | A CTE under an alias: the resolved name is not in the plan |
| `ResolvedColumns.AliasedCteCrossed` | bustub/src/binder/bind_select.cpp:681-690 | The CTE joined with itself: the planner silently finds the column of the other table |
| `ResolvedColumns.SubqueryProjectionVanishes` | bustub/src/planner/plan_table_ref.cpp:66-86 | The renaming projection over a subquery is one the optimizer removes, and has the rows of the subquery |
| `TableRefs.ResolveFromSelectList` | bustub/src/binder/bind_select.cpp:602-615 | The loop returns the one matching name, nothing, or an ambiguity |
| `TableRefs.ResolveColumnRefFromSchema` | bustub/src/binder/bind_select.cpp:540-556 | The loop returns the one column of that lower-cased name, nothing, or an ambiguity |
| `TableRefs.RenamedColumns` | bustub/src/planner/plan_table_ref.cpp:73-79 | The loop refers to each column of the subquery and names it alias.name |
| `TableRefs.InferScanSchema` | bustub/src/execution/plan_node.cpp:16-23 | The loop names each column table.column, keeping types |
| `TableRefs.InferJoinSchema` | bustub/src/execution/plan_node.cpp:25-34 | The loops list the left columns, then the right ones |
| `TableRefs.RenameSchema` | bustub/src/execution/plan_node.cpp:50-60 | New names and old types in order; throws on a different count |
| `Catalog.IndexesOfRun` | bustub/src/include/catalog/catalog.h:202-251 | After any run the indexes listed for a table are exactly those asked for once the table existed, each leading to the index of that name on that table |
| `Catalog.CreatedIndexLasts` | bustub/src/include/catalog/catalog.h:202-251 | Whatever follows its creation, an index is found by name and holds the keys of the rows of that moment |
| `Catalog.CreatedTableLasts` | bustub/src/include/catalog/catalog.h:126-155 | Whatever follows its creation, a table is found by name under its object id with the schema it was given and the rows last put in it |
| `Catalog.StepKeeps` | bustub/src/include/catalog/catalog.h:126-155 | Every operation keeps the four maps consistent; none of the consistency assertions fails, and only an index on a table without a heap stops a run |
| `Catalog.PopulateHoldsKeys` | bustub/src/include/catalog/catalog.h:231-236 | A new index holds every row's key, under the first row that has it, and nothing else |
| `Catalog.IndexCoversRowsExactly` | bustub/src/include/catalog/catalog.h:231-236 | A new index holds an entry for every row if and only if no two rows share a key |
| `Catalog.FillIndex` | bustub/src/include/catalog/catalog.h:231-236 | The loop inserts the rows' keys in heap order |
| `CatalogObject.Catalog.CreateTable` | bustub/src/include/catalog/catalog.h:126-155 | Enters a table under the next oid, or changes nothing when the name is taken |
| `CatalogObject.Catalog.GetTable` | bustub/src/include/catalog/catalog.h:162-173 | Finds a table exactly when the name is taken, and the right one |
| `CatalogObject.Catalog.CreateIndex` | bustub/src/include/catalog/catalog.h:202-251 | Enters a filled index, or changes nothing when the table is absent or has one of that name |
| `CatalogObject.Catalog.GetIndex` | bustub/src/include/catalog/catalog.h:259-278 | Finds an index exactly when one of that name exists on that table |
| `CatalogObject.Catalog.GetTableIndexes` | bustub/src/include/catalog/catalog.h:316-334 | Exactly the indexes on the table, each once |
| `CatalogDb.CatalogGivesDbOk` | bustub/src/include/catalog/catalog.h:126-334 | In a consistent catalog whose indexes hold what filling them from the present rows would, over distinct keys, everything the optimizer assumes of its database holds |
| `CatalogDb.CatalogGivesKeyNames` | bustub/src/include/catalog/catalog.h:202-251 | Key schemas that copy columns of distinct names give what the sort rule assumes of key names |
| `CatalogDb.CreatedUpToDate` | bustub/src/include/catalog/catalog.h:202-251 | A newly created index over distinct keys holds what filling it would |

## Left out

- Lock manager, buffer pool, LRU and clock replacers, log manager, recovery and checkpoints: their bodies are empty in the source.
- Join, aggregation, sort, limit, scan and data-changing executors: not written in the source; as plan nodes they have only their meaning. The meaning of ORDER BY puts nulls first.
- Insert, update and delete plan nodes and RIGHT and OUTER joins: the executors reject or lack them. The meaning of a FROM clause is stated for INNER and LEFT joins.
- Doubles, timestamps and comparisons between strings and numbers: a comparison across families is null in the model and satisfies no predicate.
- Overflow checks of integer arithmetic: addition and subtraction wrap to 32 bits.
- Widths of counters (transaction ids, object ids, directory depth): unbounded in the model; the LRU-K clock is taken to be below the largest `size_t`.
- B+ tree internals: an index is a map from unique keys, as the tree's own comments promise; inserting into the tree is not written in the source.
- Table page layout: whether a row fits is a parameter, and every page a row id names can be fetched. A slot past the page is told apart from an emptied one where the source does.
- Logging and lock release inside Begin, Commit and Abort: no effect on what is stated.
- Expression lists as table references, and the nesting of statements: a subquery carries the outcome of planning its own SELECT.
- Parse-tree walking of the binder, printing, shells, test tools: plumbing.
- Mutexes of the replacer and the hash table: each public call is one step.
- The starter pass order: the same five passes in the same order as the default one.
- OptimizePreserves: takes as conditions that indexes agree with their tables with one row per key and that key columns keep their names, which CatalogDb derives from the catalog, and that scans carry no filter; FilteredScanProof says when a filtered scan is harmless at one node.
- HashJoinSound: the hash-join pass is not part of the default order and is proved on its own.
- PassSafe: is sufficient for a whole pass and exact at each node; two harmful merges of one plan could cancel.
- SumTotals: covers sums whose partial totals fit in 32 bits; the source does not say what a larger one is.
- HashedOne: the mixing of bytes is pinned by values and by LastByteMatters, not bit by bit.
- TwoPhasePlanMeansDirect: column names are taken to be qualified, as the binder always makes them; an unqualified name could coincide with the name of an aggregate column.
- LRUKReplacer.constructor: takes k of at least one; with k = 0 the source reads past the end of a history.
- RunExactly: keys in use are a finite set of which no more share a hash value than fit in a bucket; CrowdedNeverFits says why insertion needs this to end. For callers, who see no state inside an insertion, only SplittableRunsAnswer holds.
- VictimExactly: half its condition is the scan's running distance; VictimByHistories states the condition on the histories.
- String constants as predicates: the source would read a byte of the string's address; in the model no row passes them.
