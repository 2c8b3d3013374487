# A Dafny model of libcudf's example and benchmark programs

The repository is a GPU dataframe library. The library's own kernels are foreign
code here; what is modelled are the programs built on top of it: the
billion-rows examples, the multithreaded parquet reader, the NDS-H queries, the
build-log chart, the include-what-you-use filter, three ways of evaluating a
polynomial, the string-transform kernels, and a few smaller algorithms. Library
operators (groupby, inner join, gather, interleave, segmented reduction,
concatenate, scans with a pushed-down filter, boolean masks) are given their
documented meaning as plain functions on sequences, and where the library leaves
an order open the theorems hold for every order.

## Components

| files | what they model |
|---|---|
| `Outcomes`, `Sequences`, `Totals`, `Sorting`, `Arithmetic`, `Decimals` | results that may be missing or thrown, sequence and arithmetic facts, totals and numbers of places, the order of strings and a stable sort, decimal text |
| `BrcTables`, `BrcMeaning`, `BrcAggregates`, `BrcChunks`, `BrcPipeline` | the billion-rows programs: one pass, a chunked loop, a thread pipeline, and what their numbers say about the rows |
| `NamedTables`, `TableOps`, `QueryPlans`, `JoinTrees`, `GroupedTables`, `QueryAnswers`, `AmountText`, `AmountEngines`, `QueryQ5`, `QueryQ9`, `QueryQ10`, `NullKeys` | tables with named columns, joins by row index, any tree of joins against the SQL it should answer, groupby and orderby, three queries, and one of them on null keys |
| `NinjaThreads`, `NinjaOptimality`, `NinjaLog` | the build chart, how many tracks it needs, and the log reader |
| `ParquetReader`, `ParquetTranscode` | strided reading threads over a shared vector, and the transcoding run with its check |
| `ExpressionTrees`, `Polynomials`, `SourceText`, `GeneratedSource`, `PolynomialEngines` | expression trees built by pushes, column loops, and generated function text with a tokenizer and parser |
| `IwyuText`, `IwyuFilter`, `IwyuPasses` | line shapes, the filter, and the filter fed with its own output |
| `ScratchBuffers`, `ScratchSchedules`, `PhoneE164`, `PhoneLocalize`, `EmailProvider`, `Checksum` | string kernels with a cursor over a scratch slice, all rows' kernels interleaved, and the column versions of the same tasks |
| `Deduplication`, `SegmentChunks` | the nested-type example and the splitting of segments |

Arithmetic on temperatures, prices and coefficients is exact (`real`), so
rounding is not part of the statements. Strings in the kernels are sequences of
bytes, one `char` per byte. `size_t` subtraction in the chunk loops is modelled
with its wrap-around.

Two hypotheses stand for file formats: a byte-range read returns the rows that
start in the range, and writing a parquet file and reading it back is the
identity. In the thread pipeline a slot that no thread filled holds a null
pointer, whose use is undefined in the program; the model reports a failure.

## Where a claim needed a condition

* The chunked billion-rows answer is the single-pass answer exactly when every
  city occurs in every chunk (`ChunkedIsSinglePassIff`). Two one-row chunks with
  different cities succeed with a wrong answer (`MisalignedChunksExample`).
* The chunked loop stops at the first empty read, and loses rows exactly when a later
  read is not empty (`EarlyExitLosesNothingIff`, `RowLostExample`). The pipeline leaves a
  slot empty on the same file, and its merge fails (`EmptySlotExample`).
* The query plans compare join keys with nulls equal, the library wrapper's
  default, while SQL does not. Plan and SQL agree exactly when no combination of base
  rows that matches null-safely has a null in a compared column (`PlanIsSqlIff`);
  primary keys without nulls suffice (`PlanIsSql`), and so do joins with nulls unequal
  (`PlanIsQuery`). On a database with null join keys the fifth query reports a group
  that SQL does not have (`RunOnNullJoinKeys`). And `groupby` leaves out null group keys,
  which SQL keeps (`SqlAnswerIff`); on a database with a null nation name the fifth
  query loses SQL's group (`RunOnNullGroupKey`).
* The build chart opens exactly as many tracks as the largest number of entries that
  hold one when another is placed, and one more (`GreedyCount`). That is the least
  number possible exactly when no entry of length zero is placed while as many hold a
  track as overlap anywhere (`GreedyIsMinimalIff`); it is never more than one too many
  (`GreedyNearlyMinimal`). An entry of length zero listed behind one that ends with it
  can cost a track (`OneTrackTooMany`).
* The check after transcoding looks at rows of one table only. It passes on every
  run, but the tables really hold the same rows only if the input multiplier is
  one or there are no rows (`SameRowsIff`, `RowTwiceExample`). A reading thread without a
  source makes the whole read throw (`ReadSucceedsIff`, `IdleThreadExample`).
* The filter reads its own output back faithfully exactly when no line it wrote
  has the shape of a section header (`RereadsIff`). A header indented by blanks, inside
  a section, is stripped, written and misread (`MisreadOutput`). Then the third pass may
  still change what the second wrote (`ThirdPassNeeded`); from the third pass on nothing
  changes, whatever the input (`PassesSettle`).
* `segments_in_chunk` checks its chunk number only from above: a negative one selects
  segments that do not exist (`SegmentsOfFileIff`).
* Kernel and column versions of the string transforms agree exactly under
  `PhoneE164.Agrees`, `PhoneLocalize.LocalAgrees`, and, for email providers, when
  at most one dot follows the first '@'. They differ on `TwoByteExample`,
  `LeadingZeroExample`, `NoDashExample` and `TwoDotsExample`.
* The checksum's sums are those of RFC 1146 at every point of the loop, and nothing leaves
  16 bits, exactly when no byte, as a signed char, takes the remainder of the sum before
  it below zero (`SumsAreWeightedIff`, `NoOverflowIff`). On ASCII none does. A byte of -1
  at the start does (`NegativeByteExample`), a negative byte behind enough positive ones
  does not (`HarmlessNegativeByte`).

## Model

| member | source | states |
|---|---|---|
| BrcTables.SortByKeyCanonical | cpp/examples/billion_rows/brc_chunks.cpp:97-100 | whatever order the groupby gives its groups and whichever permutation sorts them, gathering every column gives the same table: one row per city, in city order |
| BrcTables.FoldPermuted | cpp/examples/billion_rows/groupby_results.cpp:88-101 | minimum, maximum and sum of a group do not depend on the order of its values |
| BrcTables.FoldBlocks | cpp/examples/billion_rows/groupby_results.cpp:88-101 | reducing the reductions of non-empty blocks is reducing all values of the blocks |
| BrcTables.OffsetsDelimitBlocks | cpp/examples/billion_rows/groupby_results.cpp:81-86 | the offsets 0, k, 2k, ... are valid segment bounds of an interleaved column of n rows from k tables |
| BrcTables.InterleaveSegment | cpp/examples/billion_rows/groupby_results.cpp:63-77 | after interleaving, the i-th segment holds the i-th value of every column, in column order |
| BrcMeaning.FoldLeast | cpp/examples/billion_rows/groupby_results.cpp:88-91 | the minimum is one of the values and at most each of them |
| BrcMeaning.FoldGreatest | cpp/examples/billion_rows/groupby_results.cpp:92-94 | the maximum is one of the values and at least each of them |
| BrcMeaning.FoldTotal | cpp/examples/billion_rows/groupby_results.cpp:96-101 | the sum is the total of the values |
| BrcMeaning.ReduceAggregates | cpp/examples/billion_rows/brc.cpp:74-79 | of the rows of a city: the minimum is the temperature of one and at most that of each, the maximum likewise, the sum their total, the count their number, and the mean times their number is their total |
| BrcMeaning.SortedTableDescribes | cpp/examples/billion_rows/brc_chunks.cpp:92-100 | the sorted table lists each city that has rows once, in order, and each cell is that aggregate of the city's rows |
| BrcAggregates.ComputeResults | cpp/examples/billion_rows/groupby_results.cpp:28-48 | the loop that appends result columns gives the keys followed by one column per requested aggregation; every cell is the least, greatest, total, number or mean of the temperatures in its city's rows |
| BrcAggregates.AggregateChunk | cpp/examples/billion_rows/brc_chunks.cpp:92-100 | the per-chunk aggregate, sorted by city, is the canonical table of the chunk, for every group order and sorting permutation: each city once, in order, with the least, greatest, total and number of its temperatures |
| BrcAggregates.ComputeFinalAggregates | cpp/examples/billion_rows/groupby_results.cpp:50-112 | the merge by interleaved segmented reduction equals the row-by-row merge; city by city the least minimum, the greatest maximum, and the total of the sums over the total of the counts; it fails exactly for missing tables, no tables or unequal row counts |
| BrcAggregates.SinglePassAnswers | cpp/examples/billion_rows/brc.cpp:74-79 | the single-pass table is the one table that holds, for every city in order, the least, the greatest and the mean temperature of the city's rows |
| BrcAggregates.ChunkedIsSinglePassIff | cpp/examples/billion_rows/groupby_results.cpp:63-77 | the merged per-chunk result is the single-pass table, and so holds the least, greatest and mean temperature of every city's rows in the whole file, if and only if every city occurs in every chunk |
| BrcAggregates.MisalignedChunksExample | cpp/examples/billion_rows/groupby_results.cpp:64-64 | two chunks with one different city each: the merge succeeds and is wrong |
| BrcAggregates.FinalAggregatesPermuted | cpp/examples/billion_rows/brc_pipeline.cpp:154-163 | the merge does not depend on the order of the chunk tables |
| BrcChunks.LoopRangesPartitionFile | cpp/examples/billion_rows/brc_chunks.cpp:81-104 | the loop's byte ranges are non-empty, lie end to end from 0 to the file size, and are at most `divider` many |
| BrcChunks.LeastCover | cpp/examples/billion_rows/brc_chunks.cpp:81-81 | no smaller chunk size covers the file with `divider` chunks |
| BrcChunks.SubtractionWraps | cpp/examples/billion_rows/brc_chunks.cpp:81-104 | an unsigned subtraction below zero counts down from 2^64 |
| BrcChunks.LoadedRows | cpp/examples/billion_rows/brc_chunks.cpp:85-85 | a read returns, in order, the rows of the one run of lines that start in its range |
| BrcChunks.AllRowsListed | cpp/examples/billion_rows/brc.cpp:53-66 | the whole file gives the row of every line, in order |
| BrcChunks.EarlyExitLosesNothingIff | cpp/examples/billion_rows/brc_chunks.cpp:85-87 | leaving the loop at the first empty read loses no row if and only if no empty read comes before a row |
| BrcChunks.ChunkLoop | cpp/examples/billion_rows/brc_chunks.cpp:80-107 | the loop aggregates the chunks up to the first empty read, ends within `divider` rounds, and `file_size - start_pos` never wraps, although it is computed on unsigned values |
| BrcChunks.LoopReadsWholeFileIff | cpp/examples/billion_rows/brc_chunks.cpp:84-104 | the aggregated chunks are the whole file, in order, if and only if empty reads come only at the end |
| BrcChunks.ChunkLoopIsSinglePassIff | cpp/examples/billion_rows/brc_chunks.cpp:80-107 | when nothing is lost, the loop's answer is the single-pass answer, with the least, greatest and mean temperature of every city's rows, if and only if it read some row and every city is in every chunk |
| BrcChunks.RowLostExample | cpp/examples/billion_rows/brc_chunks.cpp:85-87 | a file whose middle third starts no line: in three chunks the loop loses the last row |
| BrcPipeline.PipelineReadsWholeFile | cpp/examples/billion_rows/brc_pipeline.cpp:128-142 | the ranges dealt out, with wrapping sizes past the end, read every row of the file once and in order |
| BrcPipeline.YieldingRangesFit | cpp/examples/billion_rows/brc_pipeline.cpp:138-142 | a range that yields rows starts inside the file |
| BrcPipeline.ChunkTask.constructor | cpp/examples/billion_rows/brc_pipeline.cpp:58-64 | a task starts without ranges |
| BrcPipeline.ChunkTask.AddRange | cpp/examples/billion_rows/brc_pipeline.cpp:66-70 | appends the range and remembers whether any range starts the file |
| BrcPipeline.ChunkTask.Run | cpp/examples/billion_rows/brc_pipeline.cpp:72-97 | a thread run alone leaves one table per non-empty range, in range order |
| BrcPipeline.AssignRanges | cpp/examples/billion_rows/brc_pipeline.cpp:134-142 | chunk i goes to task i modulo the number of tasks, behind the task's earlier chunks |
| BrcPipeline.DealtEvery | cpp/examples/billion_rows/brc_pipeline.cpp:138-142 | task t holds the ranges of chunks t, t + threads, t + 2 * threads and so on, in order, and no others |
| BrcPipeline.DealtIsPermutation | cpp/examples/billion_rows/brc_pipeline.cpp:138-142 | dealing gives every range to exactly one task |
| BrcPipeline.ScheduleIndependent | cpp/examples/billion_rows/brc_pipeline.cpp:72-98 | under every interleaving of reads and appends, what each thread has and will append stays the tables of its own ranges |
| BrcPipeline.CombineResults | cpp/examples/billion_rows/brc_pipeline.cpp:154-160 | table k of thread c stands behind all tables of the threads before it, and the slots behind the last table are empty |
| BrcPipeline.AllOutputs | cpp/examples/billion_rows/brc_pipeline.cpp:143-160 | every completed schedule has 2 * divider steps and leaves, in some order, the tables of all ranges |
| BrcPipeline.CanFinish | cpp/examples/billion_rows/brc_pipeline.cpp:72-98 | no thread ever blocks: from any state some schedule runs all threads to their ends |
| BrcPipeline.PipelineIsSinglePassIff | cpp/examples/billion_rows/brc_pipeline.cpp:128-163 | for every schedule, the answer is the single-pass answer, with the least, greatest and mean temperature of every city's rows, if and only if every range yields rows and every city occurs in every range |
| BrcPipeline.EmptySlotExample | cpp/examples/billion_rows/brc_pipeline.cpp:154-163 | on the file with the gap every schedule leaves a slot empty and the merge fails |
| BrcPipeline.PipelineIsChunkLoop | cpp/examples/billion_rows/brc_pipeline.cpp:128-163 | when every range yields rows, every schedule agrees with the sequential chunk loop, and (divider - 1) * chunk_size is below the file size |
| NamedTables.ColumnId | cpp/benchmarks/ndsh/utilities.cpp:117-125 | the first column with the name; a failure exactly for unknown names |
| TableOps.TableWithNames.Column | cpp/benchmarks/ndsh/utilities.cpp:110-113 | the values of the first column with the name, row by row; a failure exactly for unknown names |
| TableOps.TableWithNames.Append | cpp/benchmarks/ndsh/utilities.cpp:127-135 | one more column and name at the end, nothing else changed |
| TableOps.AppendedRecords | cpp/benchmarks/ndsh/utilities.cpp:127-135 | in every row, appending adds one entry under the new name and keeps all others |
| TableOps.JoinAndGather | cpp/benchmarks/ndsh/utilities.cpp:161-193 | gathering both tables by the matching index pairs gives each matching pair of rows once, left columns first, under either equality of nulls |
| TableOps.InnerJoin | cpp/benchmarks/ndsh/utilities.cpp:172-176 | the index pairs hold each pair of rows that match on the key columns once, and no other |
| TableOps.LookUp | cpp/benchmarks/ndsh/utilities.cpp:203-212 | the loop finds the numbers of all key columns or throws at an unknown one |
| TableOps.ApplyInnerJoin | cpp/benchmarks/ndsh/utilities.cpp:195-227 | succeeds exactly for known keys of equal number; the result has both tables' names and the joined rows, under either equality of nulls |
| TableOps.InnerJoinRecords | cpp/benchmarks/ndsh/utilities.cpp:161-227 | seen as records, the joined table is the nested-loop join on the named keys, nulls matching or not as asked |
| QueryPlans.ScanRecords | cpp/benchmarks/ndsh/utilities.cpp:319-335 | a scan with columns and a filter returns the projected records that pass it |
| QueryPlans.TestedScanOccurs | cpp/benchmarks/ndsh/utilities.cpp:319-335 | how often a record occurs in a filtered scan: as often as in the projected table if it passes, else never |
| QueryPlans.SelectCount | cpp/benchmarks/ndsh/q05.cpp:38-57 | a record occurs in the answer of a FROM/WHERE query as often as the product of its parts' occurrences in the tables |
| QueryPlans.GroupSumsPermuted | cpp/benchmarks/ndsh/utilities.cpp:246-287 | grouped sums depend only on which rows there are |
| QueryPlans.GroupSumsMeaning | cpp/benchmarks/ndsh/utilities.cpp:246-287 | a group exists exactly for each null-free key that occurs, and holds the total of the numbers in its rows, and null if they have none |
| QueryPlans.SqlGroupSumsMeaning | cpp/benchmarks/ndsh/q05.cpp:38-59 | SQL's GROUP BY has a group for every key that occurs, with nulls too, with the total of its numbers, null if it has none |
| QueryPlans.RevenueIs | cpp/benchmarks/ndsh/q05.cpp:72-89 | a row's revenue is its price less the discounted part of it, and null without either |
| QueryPlans.KeyEqualities | cpp/benchmarks/ndsh/utilities.hpp:108-108 | null-safe keys match when equal; SQL's when equal and not null |
| QueryPlans.QueryDates | cpp/benchmarks/ndsh/utilities.cpp:346-354 | the dates the queries compare with, as days counted through months and leap years |
| QueryPlans.GroupSumsIsSqlIff | cpp/benchmarks/ndsh/utilities.cpp:250-251 | leaving out null keys gives SQL's groups if and only if no row has a null key |
| JoinTrees.TreeOccurs | cpp/benchmarks/ndsh/utilities.cpp:161-227 | in the result of any tree of joins a record occurs as often as the product over the scans, if all join conditions hold of it |
| JoinTrees.PlanIsQuery | cpp/benchmarks/ndsh/q09.cpp:248-266 | any tree of inner joins over filtered scans whose conditions amount to the WHERE clause yields exactly the rows of the filtered cross product, with the joins' equality of nulls: with nulls unequal, SQL's rows |
| JoinTrees.PlanIsSqlIff | cpp/benchmarks/ndsh/utilities.hpp:108-108 | joining with nulls equal, plan and SQL query agree if and only if no combination of base rows that matches null-safely has a null in a compared column |
| JoinTrees.PlanIsSql | cpp/benchmarks/ndsh/q05.cpp:48-57 | if primary keys without nulls force all compared columns, the plan yields exactly the rows of the SQL query |
| GroupedTables.ApplyGroupby | cpp/benchmarks/ndsh/utilities.cpp:246-287 | one row per null-free key that occurs, in an order left open, its key in front and each requested result at its place, under its name: the total, the mean or the number of what is not null in the group's rows; unknown columns and unsupported aggregations throw |
| GroupedTables.AggregatedMeaning | cpp/benchmarks/ndsh/utilities.cpp:258-266 | of a group's values that are not null: SUM is their total, MEAN times their number is their total, COUNT_ALL is their number; SUM and MEAN of none are null |
| GroupedTables.SumsListed | cpp/benchmarks/ndsh/utilities.cpp:246-287 | with one SUM the rows list the grouped sums, each group once |
| GroupedTables.ApplyOrderby | cpp/benchmarks/ndsh/utilities.cpp:289-301 | the same rows, sorted by the named columns, where two rows first differ in a sort column, the earlier has the smaller value, or the larger if that column descends; unknown columns throw |
| GroupedTables.ValueLessIff | cpp/benchmarks/ndsh/utilities.cpp:298-299 | nulls come first, numbers by size, texts by the first place where they differ |
| Sorting.BeforeIff | cpp/benchmarks/ndsh/utilities.cpp:298-299 | a string comes before another when, where they first differ, it ends or has the smaller byte |
| Sorting.SortedUnique | cpp/benchmarks/ndsh/utilities.cpp:289-301 | rows without ties have only one sorted order |
| GroupedTables.AnswerUnique | cpp/benchmarks/ndsh/utilities.cpp:289-301 | ordered by all its group keys, a grouped table has only one possible order of rows |
| QueryAnswers.PlanAnswers | cpp/benchmarks/ndsh/q05.cpp:135-155 | grouping the plan's rows, in whatever order the joins left them, gives the query's groups |
| QueryAnswers.SqlAnswerIff | cpp/benchmarks/ndsh/utilities.cpp:250-251 | the groups are SQL's own if and only if no row of the query has a null group key |
| QueryAnswers.GuardedAnswersAgree | cpp/benchmarks/ndsh/utilities.hpp:108-108 | with primary keys present, equal nulls in the joins make no difference to the groups |
| QueryAnswers.AnswerTotals | cpp/benchmarks/ndsh/utilities.cpp:246-287 | rows that list the grouped sums are each a group's key and the total of its numbers, for each null-free key that occurs once; for SQL's groups, null keys too |
| QueryAnswers.RevenueByGroup | cpp/benchmarks/ndsh/q05.cpp:143-158 | appending the revenue column, grouping on it and ordering lists the sums of price * (1 - discount) over the joined rows, each group once, largest first |
| QueryQ5.JoinConditions | cpp/benchmarks/ndsh/q05.cpp:48-53 | the five joins' conditions together are the six equalities of the SQL, one of them only by transitivity, under either equality of nulls |
| QueryQ5.ClauseHolds | cpp/benchmarks/ndsh/q05.cpp:48-57 | the clause measured against, column by column: six equalities, the region's name, and an order date from 1994-01-01 to before 1995-01-01 |
| QueryQ5.PlanImplements | cpp/benchmarks/ndsh/q05.cpp:91-141 | the tree joins each table once, and its joins and pushed-down filters amount to the WHERE clause |
| QueryQ5.PrimaryDecides | cpp/benchmarks/ndsh/q05.cpp:48-53 | with primary keys present no compared column is null, `s_nationkey` and `c_nationkey` through `n_nationkey` |
| QueryQ5.PlanRows | cpp/benchmarks/ndsh/q05.cpp:136-141 | whatever order each join leaves its rows in, the joined rows are as a multiset the filtered cross product of the SQL text: with the joins' equality of nulls always, with SQL's when primary keys are present |
| QueryQ5.RunQ5 | cpp/benchmarks/ndsh/q05.cpp:91-158 | scans, joins, revenue, groupby and orderby give one row per group of the query, sorted: the SQL query's groups when primary keys are present and no group key is null, its null-safe reading always; each row is a nation's name and the total of its revenues |
| NullKeys.RunOnNullJoinKeys | cpp/benchmarks/ndsh/q05.cpp:136-158 | on a database with one row per table and null join keys the run reports a group, and the SQL query has none |
| NullKeys.RunOnNullGroupKey | cpp/benchmarks/ndsh/q05.cpp:136-158 | with all keys present and a null nation name the run reports nothing, and the SQL query has a group |
| QueryQ9.JoinConditions | cpp/benchmarks/ndsh/q09.cpp:86-91 | the bushy tree's conditions are the six equalities of the SQL, under either equality of nulls |
| QueryQ9.ClauseHolds | cpp/benchmarks/ndsh/q09.cpp:85-92 | the clause measured against: six equalities, and a part name with "green" somewhere in it |
| QueryQ9.ProfitIs | cpp/benchmarks/ndsh/q09.cpp:74-77 | what a joined row contributes: its nation, its order's year, and the price less its discounted part and less the supply cost of the quantity, null if one is missing |
| QueryQ9.MaskedScan | cpp/benchmarks/ndsh/q09.cpp:252-257 | masking the read table by the LIKE column is filtering during the scan |
| QueryQ9.ReadGreenParts | cpp/benchmarks/ndsh/q09.cpp:252-257 | reads `part` whole and keeps exactly the rows whose name contains "green" |
| QueryQ9.ApplyMask | cpp/benchmarks/ndsh/utilities.cpp:238-244 | a row whose mask is true stays, behind those before it that stay; no row whose mask is false or null does |
| QueryQ9.JoinData | cpp/benchmarks/ndsh/q09.cpp:248-266 | the five joins run without an unknown name and yield a result of the tree, with the columns in join order |
| QueryQ9.ComputeProfit | cpp/benchmarks/ndsh/q09.cpp:268-308 | the profit table lists the groups of the inner select over the joined rows, each once, by nation ascending and year descending, on any engine |
| QueryQ9.PlanRows | cpp/benchmarks/ndsh/q09.cpp:259-265 | the same for the bushy tree over the masked parts |
| QueryQ9.RunQ9 | cpp/benchmarks/ndsh/q09.cpp:227-308 | on every engine, one row per group of the query, sorted: the SQL query's groups when primary keys are present and no group key is null, its null-safe reading always; each row is a nation, a year and the total of its amounts |
| QueryQ9.OrderDetermined | cpp/benchmarks/ndsh/q09.cpp:305-307 | nation and year leave only one possible order of the result |
| QueryQ10.JoinConditions | cpp/benchmarks/ndsh/q10.cpp:51-56 | the three joins' conditions are the three equalities of the SQL, under either equality of nulls |
| QueryQ10.ClauseHolds | cpp/benchmarks/ndsh/q10.cpp:50-56 | the clause measured against: three equalities, returned items, and an order date from 1993-10-01 to before 1994-01-01 |
| QueryQ10.PlanRows | cpp/benchmarks/ndsh/q10.cpp:136-139 | the same for the two joins of scans, joined |
| QueryQ10.RunQ10 | cpp/benchmarks/ndsh/q10.cpp:96-157 | scans, joins, revenue, groupby on seven keys and orderby give one row per group of the query, sorted: the SQL query's groups when primary keys are present and no group key is null, its null-safe reading always; each row is a group's key and the total of its revenues |
| AmountEngines.ComputeAmountBinaryop | cpp/benchmarks/ndsh/q09.cpp:112-142 | the column operations compute the amount row by row, null if any input is |
| AmountText.AmountParsed | cpp/benchmarks/ndsh/q09.cpp:153-158 | the function text is one expression and parses to price * (1 - discount) - cost * quantity, whatever its words are called |
| AmountText.ParametersRead | cpp/benchmarks/ndsh/q09.cpp:153-158 | the header declares the output and the four inputs, in that order |
| AmountText.AmountRow | cpp/benchmarks/ndsh/q09.cpp:153-168 | the compiled text, its parameters bound by position, computes the amount; a null input gives null |
| AmountEngines.ComputeAmountTransform | cpp/benchmarks/ndsh/q09.cpp:144-169 | the text run on every row gives the amounts |
| AmountEngines.ComputeAmountAst | cpp/benchmarks/ndsh/q09.cpp:171-205 | the pushed tree, with the product expanded, evaluates to the same amounts |
| AmountEngines.ComputeAmount | cpp/benchmarks/ndsh/q09.cpp:207-225 | the engine does not change the column |
| ExpressionTrees.Tree.Push | cpp/benchmarks/ast/polynomials.cpp:101-113 | appends a node whose operands come earlier and returns its reference |
| ExpressionTrees.EvaluateExtended | cpp/benchmarks/ast/polynomials.cpp:101-113 | later pushes never change the value of an earlier node |
| Polynomials.PowerSumSnoc | cpp/benchmarks/binaryop/polynomials.cpp:97-97 | one more coefficient: the sum of powers is multiplied by x and the coefficient added |
| Polynomials.BuildTree | cpp/benchmarks/ast/polynomials.cpp:101-113 | for every order above zero and all coefficients, the last node pushed evaluates on every column to the sum of c_i * x^(order - i) |
| Polynomials.BinaryopPolynomial | cpp/benchmarks/binaryop/polynomials.cpp:97-119 | the column loop computes the same sum of powers, null where x is |
| GeneratedSource.GenerateText | cpp/benchmarks/transform/polynomials.cpp:98-104 | the loop's final expression and parameter texts |
| GeneratedSource.ParseGenerated | cpp/benchmarks/transform/polynomials.cpp:98-104 | tokenized and parsed with the usual precedences, the generated expression is the Horner form for every order |
| GeneratedSource.HeaderNames | cpp/benchmarks/transform/polynomials.cpp:98-113 | the generated header declares the output, x and all coefficients, in that order |
| GeneratedSource.CoefficientNamesDiffer | cpp/benchmarks/transform/polynomials.cpp:101-104 | no two coefficients share a name and none is called like x or the output |
| GeneratedSource.TransformRowIsPolynomial | cpp/benchmarks/transform/polynomials.cpp:98-122 | the generated function, its parameters bound by position, computes the sum of powers; a null coefficient or x gives null |
| GeneratedSource.TransformPolynomial | cpp/benchmarks/transform/polynomials.cpp:98-122 | the third engine's column is the same polynomial column as the other two |
| PolynomialEngines.ComputePolynomial | cpp/benchmarks/transform/polynomials.cpp:53-122 | an order below one throws; otherwise tree, column loop and generated text give the same column, the sum of c_i * x^(order - i) |
| NinjaThreads.SortByEndSorts | cpp/scripts/sort_ninja_log.py:82-84 | sorting keeps the names and puts later ends first |
| NinjaThreads.FindThread | cpp/scripts/sort_ninja_log.py:94-99 | the first thread whose start is not before the entry's end, or none |
| NinjaThreads.PlaceEntry | cpp/scripts/sort_ninja_log.py:89-109 | one round puts the entry on the first free track or a new one and records its start |
| NinjaThreads.AssignEntriesToThreads | cpp/scripts/sort_ninja_log.py:79-115 | the numbered greedy tracks and the last end time; an empty log throws |
| NinjaThreads.GreedyIsSchedule | cpp/scripts/sort_ninja_log.py:79-109 | every entry is on one track once, no track is empty, and on each track one entry follows another |
| NinjaThreads.NoOverlapOnTrack | cpp/scripts/sort_ninja_log.py:91-99 | two entries on one track never overlap, if no entry ends before it starts |
| NinjaOptimality.SortInOrder | cpp/scripts/sort_ninja_log.py:82-84 | the sort is stable: entries that end together stay in listing order |
| NinjaOptimality.GreedyCount | cpp/scripts/sort_ninja_log.py:86-109 | for every input, the number of tracks is the largest number of entries that hold one when another is placed, and one |
| NinjaOptimality.CliqueNeedsTracks | cpp/scripts/sort_ninja_log.py:86-109 | entries that overlap one another at the end of one of them need as many tracks in any conflict-free assignment |
| NinjaOptimality.CliquesSuffice | cpp/scripts/sort_ninja_log.py:86-109 | some assignment needs no more tracks than the most entries that so overlap |
| NinjaOptimality.GreedyIsMinimalIff | cpp/scripts/sort_ninja_log.py:77-109 | the number of tracks is the least of any conflict-free assignment if and only if no entry of length zero is placed while as many hold a track as overlap anywhere |
| NinjaOptimality.ClearIsMinimal | cpp/scripts/sort_ninja_log.py:77-109 | so it is if no entry of length zero is listed behind one that takes time and ends with it |
| NinjaOptimality.GreedyNearlyMinimal | cpp/scripts/sort_ninja_log.py:77-109 | for every input, at most one track more than any conflict-free assignment has |
| NinjaOptimality.OneTrackTooMany | cpp/scripts/sort_ninja_log.py:94-104 | three tracks where two would do, because of an entry of length zero |
| NinjaOptimality.TracksAreMostRunningIff | cpp/scripts/sort_ninja_log.py:77-109 | no more entries run at one instant than there are tracks, and as many do if and only if no entry of length zero is placed while that many hold a track |
| NinjaOptimality.GreedyIsOptimal | cpp/scripts/sort_ninja_log.py:77-109 | if every entry takes some time, the number of tracks is the least of any conflict-free assignment, and the largest number of entries running at one instant |
| NinjaOptimality.ZeroLengthExample | cpp/scripts/sort_ninja_log.py:94-104 | an entry of length zero needs a second track although no two entries ever run together |
| NinjaLog.BuildLogMap | cpp/scripts/sort_ninja_log.py:40-67 | of the lines with more than four fields: those behind the last drop in field 1, the first of each field 4 among them, and of these the last with a name in field 3 decide; its entry is field 0, field 1 and the size of the file; an unreadable time, or a size missing where the other directory has the file, throws |
| NinjaLog.ReadMapIsLogMap | cpp/scripts/sort_ninja_log.py:40-67 | that map is: the lines after the last drop in end times, the first line of each hash among them, the last of those for each output |
| ParquetReader.ConcatenateTables | cpp/examples/parquet_io/common_utils.cpp:114-127 | one table passes through, none gives a table without columns, unequal column counts throw, otherwise row k of table i stands behind all rows of the tables before it |
| ParquetReader.StridesPartition | cpp/examples/parquet_io/parquet_io_multithreaded.cpp:79-81 | every source is in exactly one thread's stride, once |
| ParquetReader.StrideAt | cpp/examples/parquet_io/parquet_io_multithreaded.cpp:79-81 | a thread's k-th source is its own number plus k times the number of threads, and none is left behind the last |
| ParquetReader.StepKeeps | cpp/examples/parquet_io/parquet_io_multithreaded.cpp:74-101 | any step of a thread keeps all threads on course and writes no other thread's slot |
| ParquetReader.AllSchedulesAgree | cpp/examples/parquet_io/parquet_io_multithreaded.cpp:116-155 | for every interleaving that finishes, slot t holds the concatenation of stride t, and each source was read exactly once |
| ParquetReader.CanFinish | cpp/examples/parquet_io/parquet_io_multithreaded.cpp:74-101 | no thread ever blocks: from any state some schedule lets all threads store their results |
| ParquetReader.ReadFn.Run | cpp/examples/parquet_io/parquet_io_multithreaded.cpp:74-101 | a thread run alone stores its stride's concatenation in its own slot, unless nothing is kept, and changes no other |
| ParquetReader.ReadParquetMultithreaded | cpp/examples/parquet_io/parquet_io_multithreaded.cpp:116-155 | in each read mode, threads run in any order leave the tables that every schedule leaves; CONCATENATE_THREAD returns them as they are, CONCATENATE_ALL as one |
| ParquetReader.ReadHasAllRows | cpp/examples/parquet_io/parquet_io_multithreaded.cpp:145-152 | with a source for every thread, CONCATENATE_ALL holds exactly the multiset of all source rows |
| ParquetReader.ReadSucceedsIff | cpp/examples/parquet_io/parquet_io_multithreaded.cpp:296-318 | for sources with columns, CONCATENATE_ALL succeeds if and only if there are at least as many sources as threads |
| ParquetReader.IdleThreadExample | cpp/examples/parquet_io/parquet_io_multithreaded.cpp:145-152 | one source and two threads: the read throws |
| ParquetTranscode.ExtractInputSources | cpp/examples/parquet_io/parquet_io_multithreaded.cpp:296-318 | element i is the original i modulo the initial size, and there are the larger of multiplier * size and the thread count |
| ParquetTranscode.WrittenByAll | cpp/examples/parquet_io/parquet_io_multithreaded.cpp:160-218 | in whatever order the writers run, the directory holds exactly one file per thread with that thread's table |
| ParquetTranscode.TranscodedRows | cpp/examples/parquet_io/parquet_io_multithreaded.cpp:409-452 | for every write order, directory order and read schedule, what is read back is exactly `input_multiplier` copies of what was written |
| ParquetTranscode.AntiJoinEmptyIff | cpp/examples/parquet_io/common_utils.cpp:97-107 | the anti-join is empty if and only if every left row occurs on the right, however often |
| ParquetTranscode.AntiJoinPicks | cpp/examples/parquet_io/common_utils.cpp:97-107 | the anti-join keeps exactly the left rows that do not occur on the right, in order and as often as they do |
| ParquetTranscode.CheckTablesEqual | cpp/examples/parquet_io/common_utils.cpp:97-107 | reports equality exactly when every left row occurs on the right |
| ParquetTranscode.SameRowsIff | cpp/examples/parquet_io/parquet_io_multithreaded.cpp:441-455 | the two tables hold the same rows equally often if and only if the multiplier is one or there are no rows |
| ParquetTranscode.RowTwiceExample | cpp/examples/parquet_io/parquet_io_multithreaded.cpp:441-455 | one row against two copies of it: the check passes and the tables differ |
| ParquetTranscode.TranscodeValidates | cpp/examples/parquet_io/parquet_io_multithreaded.cpp:409-455 | the whole run: the first read has all source rows, the second `input_multiplier` copies of them, and the check passes |
| ParquetTranscode.Transcode | cpp/examples/parquet_io/parquet_io_multithreaded.cpp:409-455 | read into one table per thread, write, list, read back and check: the check passes, on all source rows and `input_multiplier` copies of them |
| IwyuText.StripIs | cpp/scripts/parse_iwyu_output.py:62-62 | stripping takes off blanks at both ends, all of them, and nothing else |
| IwyuText.AddHeaderText | cpp/scripts/parse_iwyu_output.py:47-58 | a written addition header is recognized and names its path |
| IwyuText.AddHeaderIff | cpp/scripts/parse_iwyu_output.py:47-48 | a line opens an addition section for a path exactly when it is the path, the words, and anything behind them |
| IwyuText.RemoveHeaderText | cpp/scripts/parse_iwyu_output.py:59-60 | a written removal header is recognized as one and not as an addition header |
| IwyuText.FullHeaderText | cpp/scripts/parse_iwyu_output.py:61-62 | a written full-list header is recognized as one and as no other |
| IwyuFilter.ShapeIff | cpp/scripts/parse_iwyu_output.py:47-65 | the text of a line decides which of the three headers, the separator or a plain line it is |
| IwyuText.ExtractedPath | cpp/scripts/parse_iwyu_output.py:33-38 | the path of a line is the name in its first include directive (the word, blanks, an opening mark, a name without closing marks, a closing mark), and there is none exactly when no directive starts anywhere |
| IwyuText.IncludeText | cpp/scripts/parse_iwyu_output.py:33-38 | a written directive, with blanks, either opening and either closing mark, gives exactly its name, whatever stands behind it, if no directive starts in front of it |
| IwyuFilter.ParseOutput | cpp/scripts/parse_iwyu_output.py:41-91 | each file named has, in order and stripped, the plain lines of its sections of each kind, files in the order first named; plain lines outside all sections are passed on if they are no report |
| IwyuFilter.PassedOnIff | cpp/scripts/parse_iwyu_output.py:80-85 | blank lines and lines with one of the three reports somewhere in them are not passed on |
| IwyuFilter.WithoutPicks | cpp/scripts/parse_iwyu_output.py:125-130 | filtering a list drops exactly the lines whose path is in the set and keeps the others in order, as often as they stand there |
| IwyuFilter.PostProcessIncludes | cpp/scripts/parse_iwyu_output.py:94-130 | every entry is replaced by its clean-up, in place: sets without the paths in both, the full list without added paths |
| IwyuFilter.NothingInBoth | cpp/scripts/parse_iwyu_output.py:109-121 | after clean-up no path is both added and removed |
| IwyuFilter.CleanUpIdempotent | cpp/scripts/parse_iwyu_output.py:94-130 | cleaning up twice is cleaning up once, as sets |
| IwyuFilter.WriteOutput | cpp/scripts/parse_iwyu_output.py:133-150 | the printer writes one block per file that has lines to remove |
| IwyuPasses.ParsedWellFormed | cpp/scripts/parse_iwyu_output.py:46-91 | every parse has distinct paths and trimmed lines |
| IwyuPasses.RereadsIff | cpp/scripts/parse_iwyu_output.py:41-150 | parsing what was written gives back each written file with one blank line in two of its lists, if and only if no written line looks like a header |
| IwyuPasses.SecondPass | cpp/scripts/parse_iwyu_output.py:94-150 | if no written line looks like a header, a second pass keeps exactly the include-bearing lines to remove, as a set, and the include-bearing full list, in order |
| IwyuPasses.PassKeepsOutput | cpp/scripts/parse_iwyu_output.py:41-150 | on entries with only include-bearing lines, none shaped like a header, a pass changes nothing that is written |
| IwyuPasses.ThirdPassChangesNothing | cpp/scripts/parse_iwyu_output.py:41-150 | from any input whose first pass writes no line that looks like a header, a third pass writes what the second wrote, as sets per file |
| IwyuPasses.LaterPassesSame | cpp/scripts/parse_iwyu_output.py:41-150 | if the first pass writes no line that looks like a header, every pass from the second on writes what the second wrote |
| IwyuPasses.FixpointIff | cpp/scripts/parse_iwyu_output.py:41-150 | a pass changes nothing that is written if and only if only include-bearing lines are written |
| IwyuPasses.PassesSettle | cpp/scripts/parse_iwyu_output.py:41-150 | from any input, every pass from the third on writes what the third wrote, and only include-bearing lines |
| IwyuPasses.ThirdPassNeeded | cpp/scripts/parse_iwyu_output.py:41-150 | two headers that blanks hide in a section: the third pass drops lines that the second wrote |
| IwyuPasses.MisreadOutput | cpp/scripts/parse_iwyu_output.py:46-91 | any header-shaped line that blanks hide in a section is stripped, written and then read back as a header |
| IwyuPasses.FilterOutput | cpp/scripts/parse_iwyu_output.py:153-170 | parse into the files' sections, clean up and print, with the lines passed on |
| ScratchBuffers.PushedEachFills | cpp/examples/string_transforms/format_phone_jit.cpp:49-67 | pushing byte by byte fills the slice with as many bytes as fit |
| ScratchBuffers.NoDashesPicks | cpp/examples/string_transforms/format_phone_jit.cpp:58-67 | the bytes pushed digit by digit are those that are not dashes, each once and in order |
| ScratchBuffers.ScratchSlice.Push | cpp/examples/string_transforms/format_phone_jit.cpp:49-56 | appends the whole string or nothing; the cursor stays in the slice and no byte but those it passes changes |
| ScratchBuffers.ScratchSlice.PushDigits | cpp/examples/string_transforms/format_phone_jit.cpp:58-67 | pushes each byte that is not a dash, writing only the bytes the cursor passes |
| ScratchBuffers.ScratchSlice.PushHiddenDigits | cpp/examples/string_transforms/format_phone_jit.cpp:69-78 | pushes a star per byte that is not a dash, writing only the bytes the cursor passes |
| ScratchBuffers.ScratchSlice.PushDigitsUpTo | cpp/examples/string_transforms/localize_phone_jit.cpp:53-66 | pushes at most the given number of digits, writing only the bytes the cursor passes, and returns where reading stopped; bytes that do not fit count |
| ScratchBuffers.DigitsAndRest | cpp/examples/string_transforms/localize_phone_jit.cpp:53-66 | the digits pushed are the first ones, and resuming finds exactly the others |
| ScratchSchedules.SlicesSeparate | cpp/examples/string_transforms/format_phone_jit.cpp:44-47 | the rows' slices lie in the buffer and do not overlap |
| ScratchSchedules.Step | cpp/examples/string_transforms/format_phone_jit.cpp:44-56 | one bounds check or one copied byte of a row's kernel; whatever the pushes, the cursor stays in the row's slice |
| ScratchSchedules.SchedulesAgree | cpp/examples/string_transforms/format_phone_jit.cpp:44-56 | however the rows' checks and copied bytes interleave, the finished buffer holds each row's pushed text and is otherwise as before |
| ScratchSchedules.CanFinish | cpp/examples/string_transforms/format_phone_jit.cpp:44-56 | no kernel ever blocks: some schedule finishes from every state |
| PhoneE164.SkipLeadingZeros | cpp/examples/string_transforms/format_phone_jit.cpp:89-91 | the code behind its first bytes, all of them zeros, and the rest is empty or does not start with one |
| PhoneE164.SkipZerosIs | cpp/examples/string_transforms/format_phone_jit.cpp:89-91 | that is the only such rest |
| PhoneE164.E164Format | cpp/examples/string_transforms/format_phone_jit.cpp:34-109 | the kernel returns the pushed text from the start of its slice and changes no byte behind or before it |
| PhoneE164.KernelsInterleave | cpp/examples/string_transforms/format_phone_jit.cpp:112-137 | all interleavings of the rows' kernels that finish leave the same scratch buffer, each row's text in its slice |
| PhoneE164.PushesGiveText | cpp/examples/string_transforms/format_phone_jit.cpp:84-107 | the kernel's pushes in turn leave the text it returns |
| PhoneE164.CharactersCounted | cpp/examples/string_transforms/format_phone_precompiled.cpp:79-80 | the characters counted are the bytes that do not continue one |
| PhoneE164.CountsCharacters | cpp/examples/string_transforms/format_phone_precompiled.cpp:79-80 | on UTF-8 text (section 3 of RFC 3629) the number counted is the number of characters |
| PhoneE164.FormatRows | cpp/examples/string_transforms/format_phone_jit.cpp:112-137 | the kernels run one row after the other, in any order, leave the buffer that every finished interleaving leaves |
| PhoneE164.KernelIsColumnIff | cpp/examples/string_transforms/format_phone_precompiled.cpp:49-103 | kernel and columns agree if and only if the column text fits in 20 bytes and hidden digits are single bytes or the text fills the slice |
| PhoneE164.TwoByteExample | cpp/examples/string_transforms/format_phone_precompiled.cpp:79-87 | a hidden number with a two-byte letter: one star per byte against one per character |
| PhoneLocalize.FormatPhone | cpp/examples/string_transforms/localize_phone_jit.cpp:33-135 | the kernel's pushes by country, writing only the bytes of its text |
| PhoneLocalize.LocalKernelsInterleave | cpp/examples/string_transforms/localize_phone_jit.cpp:33-135 | all interleavings of the rows' kernels that finish leave each row's text in its slice |
| PhoneLocalize.UsAgreesIff | cpp/examples/string_transforms/localize_phone_jit.cpp:75-100 | US rows agree if and only if the area code has no leading zero, the column text fits, and the dash is where the kernel puts it or just falls off the end |
| PhoneLocalize.UkKeepsAllDigits | cpp/examples/string_transforms/localize_phone_jit.cpp:103-129 | with room for it, all bytes but dashes are kept in order, a blank before the last four |
| PhoneLocalize.UkAgreesIff | cpp/examples/string_transforms/localize_phone_jit.cpp:103-129 | UK, Irish and New Zealand rows agree if and only if the column text fits and its one dash stands before the last four, or only blanks lie between |
| PhoneLocalize.LocalAgreesIff | cpp/examples/string_transforms/localize_phone_precompiled.cpp:59-148 | kernel in 24 bytes against masks and selections, exactly, for every country code |
| PhoneLocalize.LeadingZeroExample | cpp/examples/string_transforms/localize_phone_jit.cpp:75-100 | a US area code with a leading zero: the kernel drops it |
| PhoneLocalize.NoDashExample | cpp/examples/string_transforms/localize_phone_jit.cpp:103-129 | a UK number without a dash: only the kernel parts the last four digits |
| EmailProvider.ProvidersAsPrefixes | cpp/examples/string_transforms/extract_email_precompiled.cpp:45-105 | the kernel returns the domain up to its first dot, the columns up to its last |
| EmailProvider.KernelIsPrefix | cpp/examples/string_transforms/extract_email_jit.cpp:31-57 | where a provider is found, the kernel's is a prefix of the columns' |
| EmailProvider.BothUnknown | cpp/examples/string_transforms/extract_email_jit.cpp:35-52 | without a dot after an '@' both return the alternative |
| EmailProvider.ProvidersAgreeIff | cpp/examples/string_transforms/extract_email_precompiled.cpp:45-105 | the two agree if and only if at most one dot follows the first '@' |
| EmailProvider.TwoDotsExample | cpp/examples/string_transforms/extract_email_precompiled.cpp:45-105 | a domain with two dots: the two differ |
| Checksum.Fletcher16 | cpp/examples/string_transforms/compute_checksum_jit.cpp:35-43 | the loop on signed chars and 16-bit sums computes its step function |
| Checksum.RemIs | cpp/examples/string_transforms/compute_checksum_jit.cpp:39-40 | C's remainder differs from the dividend by a multiple, is smaller than the modulus and has the dividend's sign |
| Checksum.SumsAreWeightedIff | cpp/examples/string_transforms/compute_checksum_jit.cpp:35-43 | on any bytes, the sums are the plain and the position-weighted sum modulo 255 at every point of the loop if and only if no byte takes the remainder of the bytes before it below zero |
| Checksum.NoOverflowIff | cpp/examples/string_transforms/compute_checksum_jit.cpp:39-40 | on any bytes, no intermediate sum leaves 16 bits under exactly the same condition |
| Checksum.SumsAreWeighted | cpp/examples/string_transforms/compute_checksum_jit.cpp:35-43 | on ASCII the sums are the plain and the position-weighted sum of the bytes, both modulo 255 |
| Checksum.NoOverflow | cpp/examples/string_transforms/compute_checksum_jit.cpp:39-40 | on ASCII no intermediate sum leaves 16 bits |
| Checksum.FletcherValue | cpp/examples/string_transforms/compute_checksum_jit.cpp:42-42 | where no sum goes below zero, shifting and or-ing puts the two sums side by side |
| Checksum.BitsOfXor | cpp/examples/string_transforms/compute_checksum_jit.cpp:44-44 | a bit of the exclusive or is set when exactly one of the two has it |
| Checksum.OneByteChangeIff | cpp/examples/string_transforms/compute_checksum_jit.cpp:35-43 | where no sum goes below zero, changing one byte changes the checksum if and only if the old and the new byte differ and are not the lowest and the highest char |
| Checksum.NeighbourSwapIff | cpp/examples/string_transforms/compute_checksum_jit.cpp:35-43 | where no sum goes below zero, swapping unequal neighbours changes the checksum with the same exception |
| Checksum.OneByteChange | cpp/examples/string_transforms/compute_checksum_jit.cpp:35-43 | on ASCII, changing one byte always changes the checksum |
| Checksum.NeighbourSwap | cpp/examples/string_transforms/compute_checksum_jit.cpp:35-43 | on ASCII, swapping two unequal neighbours always changes the checksum |
| Checksum.RowNotices | cpp/examples/string_transforms/compute_checksum_jit.cpp:44-44 | the exclusive or with the other column's checksum hides no change |
| Checksum.NegativeByteExample | cpp/examples/string_transforms/compute_checksum_jit.cpp:39-39 | a byte above 127 is a negative char and takes the 16-bit sum out of 0..254 |
| Checksum.HarmlessNegativeByte | cpp/examples/string_transforms/compute_checksum_jit.cpp:39-39 | a negative byte behind a large enough one leaves the sums right |
| Deduplication.CountAggregate | cpp/examples/nested_types/deduplication.cpp:105-125 | one row per key that is not null, with the number of places it stands at, in an order left open |
| Deduplication.CountIsNumber | cpp/examples/nested_types/deduplication.cpp:105-125 | the count of a key is the number of positions whose row has it |
| Deduplication.JoinAnnotates | cpp/examples/nested_types/deduplication.cpp:134-146 | the join puts its key's count next to each row with a key, losing and repeating none |
| Deduplication.SortKeysSorts | cpp/examples/nested_types/deduplication.cpp:156-160 | sorting keeps the rows and orders them by key |
| Deduplication.DeduplicationResult | cpp/examples/nested_types/deduplication.cpp:105-160 | for any order the operators choose, the output is the rows with a key, each with its count |
| Deduplication.Deduplicate | cpp/examples/nested_types/deduplication.cpp:105-160 | the whole run: a row with a count occurs as often as the row does in the input if the count is the number of rows with its key, else never; rows stand by key |
| SegmentChunks.SegmentsInChunk | cpp/benchmarks/io/cuio_common.cpp:170-184 | the segments of one chunk, for all integers; too many chunks, a chunk number too large, or a negative number of segments per chunk throw |
| SegmentChunks.TruncatedIs | cpp/benchmarks/io/cuio_common.cpp:177-177 | division truncates: what it leaves is smaller than the divisor and has the dividend's sign |
| SegmentChunks.SegmentsOfFileIff | cpp/benchmarks/io/cuio_common.cpp:172-179 | the segments are segments of the file if and only if the chunk number is not negative |
| SegmentChunks.ChunksPartition | cpp/benchmarks/io/cuio_common.cpp:177-181 | the chunks together are all segments in order, each once |
| SegmentChunks.EmptyChunkExample | cpp/benchmarks/io/cuio_common.cpp:177-179 | a trailing chunk may be empty |

## Left out

- GPU kernels, streams, memory resources, just-in-time compilation: foreign code; only the order of effects between threads or rows is kept.
- CSV, JSON and parquet decoding and file systems: replaced by the two hypotheses above; `load_chunk`, `read_json` and `read_parquet` are parameters or sequences of rows.
- Rounding, NaN and infinities: arithmetic is exact.
- Column types: tables do not carry them, so the type checks of concatenation and joins are not modelled.
- Command lines, timers, throughput counters, random data, printing, HTML and CSV output of the build chart.
- `make_tm` and the time zone of `mktime`: `days_since_epoch` is modelled for the first days of months, counted through the calendar.
- `apply_reduction`: no query modelled here uses it.
- GroupedTables.ApplyGroupby: a request of kind COUNT_ALL counts the values that are not null, as the aggregation made for it does; SUM and MEAN of texts, which the library refuses, count as no value.
- The year of a date in query 9: an arbitrary function of the date.
- NinjaLog.BuildLogMap: integer syntax, the existence of files and their sizes are parameters.
- NinjaThreads.AssignEntriesToThreads: the dictionary of entries is a map with a listing of its keys; any listing order is allowed.
- BrcPipeline.ChunkTask.Run: the stream and the file name of a task are not modelled.
- ParquetReader.ReadParquetMultithreaded: runs the threads to their ends in any order; the interleavings are the state machine of `AllSchedulesAgree`, with the same result. A failed concatenation in a thread, which would end the program, is a failure in its slot.
- ParquetTranscode.ExtractInputSources: walking directories is not modelled; the list of files found is a parameter.
- IwyuText.ExtractedPath: blanks are those of Latin-1 text; other Unicode blanks are not modelled.
- AmountEngines.ComputeAmountTransform: of the function text, the parameter list and the assigned expression are tokenized and parsed; the name of the function and the assignment itself are not.
- Checksum.Fletcher16: `char` is signed, as on the platforms CUDA runs on.
- SegmentChunks.SegmentsInChunk: zero chunks, where the code divides by zero, are a failure; 32-bit overflow of `chunk_idx * segments_in_chunk` beyond 2^30 segments is not modelled.
- Null rows in the string transforms: the kernels return null for them, the column versions treat nulls as empty; only rows without nulls are compared.
