/**
  The aggregation half of the billion-rows examples: grouping one chunk of rows
  (`compute_results` and the sort that follows it) and merging the per-chunk
  tables (`compute_final_aggregates`).
 */
module BrcAggregates {
  import opened Outcomes
  import opened Sequences
  import opened Totals
  import opened BrcTables
  import opened BrcMeaning

  /** Order of the sub-aggregations requested per chunk: columns 1 to 4 of its table. */
  const CHUNK_AGGS: seq<Aggregation> := [Min, Max, Sum, Count]

  /** Aggregations requested by the single-pass program. */
  const SINGLE_PASS_AGGS: seq<Aggregation> := [Min, Max, Mean]

  datatype FinalTable = FinalTable(mins: seq<real>, maxes: seq<real>, means: seq<real>)

  /**
    Groups `rows` and returns the keys followed by one column per aggregation.
    `groupOrder` is the order, unspecified by the groupby, of the groups.
   */
  method ComputeResults(rows: seq<Row>, aggs: seq<Aggregation>, groupOrder: seq<string>) returns (table: AggTable)
    requires IsGroupOrder(rows, groupOrder)
    ensures AllPresent(rows, groupOrder) && table == GroupTable(rows, groupOrder, aggs)
    ensures table.keys == groupOrder && Describes(table, rows, aggs)
  {
    GroupOrderPresent(rows, groupOrder);
    GroupTableDescribes(rows, groupOrder, aggs);
    var columns: seq<seq<real>> := [];
    for a := 0 to |aggs|
      invariant columns == GroupTable(rows, groupOrder, aggs).values[..a]
    {
      columns := columns + [ValueColumn(rows, groupOrder, aggs[a])];
    }
    table := AggTable(groupOrder, columns);
  }

  /**
    The per-chunk work: sub-aggregate, then sort every column by city. The
    table does not depend on the group order or the sorting permutation; it
    holds the least, greatest, total and number of each city's temperatures.
   */
  method AggregateChunk(rows: seq<Row>, groupOrder: seq<string>, perm: seq<nat>) returns (table: AggTable)
    requires IsGroupOrder(rows, groupOrder)
    requires IsPermutation(perm, |groupOrder|) && Ordered(Gather(groupOrder, perm))
    ensures table == SortedTable(rows, CHUNK_AGGS)
    ensures Lists(table.keys, rows) && Describes(table, rows, [Min, Max, Sum, Count])
  {
    SortedTableDescribes(rows, CHUNK_AGGS);
    var result := ComputeResults(rows, CHUNK_AGGS, groupOrder);
    SortByKeyCanonical(rows, groupOrder, CHUNK_AGGS, perm);
    var columns: seq<seq<real>> := [];
    for a := 0 to |result.values|
      invariant columns == SortedTable(rows, CHUNK_AGGS).values[..a]
    {
      columns := columns + [Gather(result.values[a], perm)];
    }
    table := AggTable(Gather(result.keys, perm), columns);
  }

  /** The single-pass answer: min, max and mean of every city, in city order. */
  function SinglePass(rows: seq<Row>): FinalTable {
    var t := SortedTable(rows, SINGLE_PASS_AGGS);
    FinalTable(t.values[0], t.values[1], t.values[2])
  }

  /** The least, greatest and mean temperature of every city of `rows`, in city order. */
  ghost predicate Answers(t: FinalTable, rows: seq<Row>) {
    exists cities :: Lists(cities, rows) && AnswersFor(t, rows, cities)
  }

  ghost predicate AnswersFor(t: FinalTable, rows: seq<Row>, cities: seq<string>) {
    && |t.mins| == |t.maxes| == |t.means| == |cities|
    && (forall i :: 0 <= i < |cities| ==> Aggregates(rows, cities[i], Min, t.mins[i]))
    && (forall i :: 0 <= i < |cities| ==> Aggregates(rows, cities[i], Max, t.maxes[i]))
    && (forall i :: 0 <= i < |cities| ==> Aggregates(rows, cities[i], Mean, t.means[i]))
  }

  /** The single-pass table is the one table with these numbers. */
  lemma SinglePassAnswers(rows: seq<Row>, t: FinalTable)
    ensures Answers(t, rows) <==> t == SinglePass(rows)
  {
    var sorted, single := SortedTable(rows, SINGLE_PASS_AGGS), SinglePass(rows);
    SortedTableDescribes(rows, SINGLE_PASS_AGGS);
    assert AnswersFor(single, rows, sorted.keys);
    if cities :| Lists(cities, rows) && AnswersFor(t, rows, cities) {
      ListsUnique(cities, sorted.keys, rows);
      forall i | 0 <= i < |cities|
        ensures t.mins[i] == single.mins[i] && t.maxes[i] == single.maxes[i] && t.means[i] == single.means[i]
      {
        AggregatesUnique(rows, cities[i], Min, t.mins[i], single.mins[i]);
        AggregatesUnique(rows, cities[i], Max, t.maxes[i], single.maxes[i]);
        AggregatesUnique(rows, cities[i], Mean, t.means[i], single.means[i]);
      }
      assert t.mins == single.mins && t.maxes == single.maxes && t.means == single.means;
    }
  }

  /** A run that succeeds with the answer for `rows`. */
  ghost predicate AnswersRows(r: Result<FinalTable>, rows: seq<Row>) { r.Success? && Answers(r.value, rows) }

  lemma AnswersRowsIff(r: Result<FinalTable>, rows: seq<Row>)
    ensures AnswersRows(r, rows) <==> r == Success(SinglePass(rows))
  {
    if r.Success? {
      SinglePassAnswers(rows, r.value);
    }
  }

  /** Column shape of a chunk table; its counts are positive. */
  ghost predicate WellFormed(t: AggTable) {
    && |t.values| == 4
    && (forall a :: 0 <= a < 4 ==> |t.values[a]| == |t.keys|)
    && (forall i :: 0 <= i < |t.keys| ==> t.values[3][i] > 0.0)
  }

  ghost predicate AllWellFormed(aggData: seq<Option<AggTable>>) {
    forall j :: 0 <= j < |aggData| ==> aggData[j].Some? ==> WellFormed(aggData[j].value)
  }

  /** Every slot holds a table and all tables have the same number of cities. */
  predicate Mergeable(aggData: seq<Option<AggTable>>) {
    && aggData != []
    && (forall j :: 0 <= j < |aggData| ==> aggData[j].Some?)
    && (forall j :: 0 <= j < |aggData| ==> |aggData[j].value.keys| == |aggData[0].value.keys|)
  }

  /** Value column `a` of every chunk table. */
  function ColumnsOf(aggData: seq<Option<AggTable>>, a: nat): (cols: seq<seq<real>>)
    requires Mergeable(aggData) && AllWellFormed(aggData) && a < 4
    ensures |cols| == |aggData|
    ensures forall j :: 0 <= j < |cols| ==> |cols[j]| == |aggData[0].value.keys|
  {
    seq(|aggData|, j requires 0 <= j < |aggData| => aggData[j].value.values[a])
  }

  /** Sub-aggregate `a` of city number `i`, merged over the chunks. */
  function MergedCell(aggData: seq<Option<AggTable>>, a: nat, op: Monoid, i: nat): real
    requires Mergeable(aggData) && AllWellFormed(aggData) && a < 4 && i < |aggData[0].value.keys|
  {
    Fold(op, AcrossColumns(ColumnsOf(aggData, a), i))
  }

  lemma {:induction false} SumOfPositives(s: seq<real>)
    requires s != [] && forall i :: 0 <= i < |s| ==> s[i] > 0.0
    ensures Fold(SumOp, s) > 0.0
  {
    if |s| > 1 {
      SumOfPositives(s[1..]);
    }
  }

  lemma MergedCountPositive(aggData: seq<Option<AggTable>>, i: nat)
    requires Mergeable(aggData) && AllWellFormed(aggData) && i < |aggData[0].value.keys|
    ensures MergedCell(aggData, 3, SumOp, i) > 0.0
  {
    SumOfPositives(AcrossColumns(ColumnsOf(aggData, 3), i));
  }

  function MergedMean(aggData: seq<Option<AggTable>>, i: nat): real
    requires Mergeable(aggData) && AllWellFormed(aggData) && i < |aggData[0].value.keys|
  {
    MergedCountPositive(aggData, i);
    MergedCell(aggData, 2, SumOp, i) / MergedCell(aggData, 3, SumOp, i)
  }

  /**
    Merging chunk tables: city by city over the chunks when they line up. It
    fails on an empty list, on a slot never filled, and on columns of unequal length.
   */
  function FinalAggregates(aggData: seq<Option<AggTable>>): Result<FinalTable>
    requires AllWellFormed(aggData)
  {
    if !Mergeable(aggData) then Failure
    else
      var n := |aggData[0].value.keys|;
      Success(FinalTable(
                seq(n, i requires 0 <= i < n => MergedCell(aggData, 0, MinOp, i)),
                seq(n, i requires 0 <= i < n => MergedCell(aggData, 1, MaxOp, i)),
                seq(n, i requires 0 <= i < n => MergedMean(aggData, i))))
  }

  /** What the chunk tables hold for city number `i` in value column `a`. */
  function Cells(aggData: seq<Option<AggTable>>, a: nat, i: nat): (cells: seq<real>)
    requires Mergeable(aggData) && AllWellFormed(aggData) && a < 4 && i < |aggData[0].value.keys|
    ensures |cells| == |aggData|
    ensures forall j :: 0 <= j < |aggData| ==> cells[j] == aggData[j].value.values[a][i]
  {
    seq(|aggData|, j requires 0 <= j < |aggData| => aggData[j].value.values[a][i])
  }

  /** City by city: the least minimum, the greatest maximum, and the sums' total over the counts' total. */
  ghost predicate Merges(t: FinalTable, aggData: seq<Option<AggTable>>)
    requires Mergeable(aggData) && AllWellFormed(aggData)
  {
    var n := |aggData[0].value.keys|;
    && |t.mins| == |t.maxes| == |t.means| == n
    && (forall i :: 0 <= i < n ==> Least(t.mins[i], Cells(aggData, 0, i)))
    && (forall i :: 0 <= i < n ==> Greatest(t.maxes[i], Cells(aggData, 1, i)))
    && (forall i :: 0 <= i < n ==> IsQuotient(t.means[i], Total(Cells(aggData, 2, i)), Total(Cells(aggData, 3, i))))
  }

  ghost predicate IsQuotient(v: real, total: real, count: real) { count > 0.0 && v * count == total }

  lemma QuotientIs(total: real, count: real)
    requires count > 0.0
    ensures IsQuotient(total / count, total, count)
  {
  }

  lemma CellsAcross(aggData: seq<Option<AggTable>>, a: nat, i: nat)
    requires Mergeable(aggData) && AllWellFormed(aggData) && a < 4 && i < |aggData[0].value.keys|
    ensures AcrossColumns(ColumnsOf(aggData, a), i) == Cells(aggData, a, i)
  {
  }

  lemma MergedExtremes(aggData: seq<Option<AggTable>>, i: nat)
    requires Mergeable(aggData) && AllWellFormed(aggData) && i < |aggData[0].value.keys|
    ensures Least(MergedCell(aggData, 0, MinOp, i), Cells(aggData, 0, i))
    ensures Greatest(MergedCell(aggData, 1, MaxOp, i), Cells(aggData, 1, i))
  {
    CellsAcross(aggData, 0, i);
    CellsAcross(aggData, 1, i);
    FoldLeast(Cells(aggData, 0, i));
    FoldGreatest(Cells(aggData, 1, i));
  }

  lemma MergedMeanIsQuotient(aggData: seq<Option<AggTable>>, i: nat)
    requires Mergeable(aggData) && AllWellFormed(aggData) && i < |aggData[0].value.keys|
    ensures IsQuotient(MergedMean(aggData, i), Total(Cells(aggData, 2, i)), Total(Cells(aggData, 3, i)))
  {
    MergedCountPositive(aggData, i);
    CellsAcross(aggData, 2, i);
    CellsAcross(aggData, 3, i);
    FoldTotal(Cells(aggData, 2, i));
    FoldTotal(Cells(aggData, 3, i));
    QuotientIs(MergedCell(aggData, 2, SumOp, i), MergedCell(aggData, 3, SumOp, i));
  }

  lemma FinalAggregatesMerge(aggData: seq<Option<AggTable>>)
    requires Mergeable(aggData) && AllWellFormed(aggData)
    ensures Merges(FinalAggregates(aggData).value, aggData)
  {
    forall i | 0 <= i < |aggData[0].value.keys|
      ensures Least(MergedCell(aggData, 0, MinOp, i), Cells(aggData, 0, i))
      ensures Greatest(MergedCell(aggData, 1, MaxOp, i), Cells(aggData, 1, i))
      ensures IsQuotient(MergedMean(aggData, i), Total(Cells(aggData, 2, i)), Total(Cells(aggData, 3, i)))
    {
      MergedExtremes(aggData, i);
      MergedMeanIsQuotient(aggData, i);
    }
  }

  /** Interleaving then segment-reducing with offsets 0, k, 2k, ... merges city by city. */
  lemma SegmentsAreCities(aggData: seq<Option<AggTable>>, a: nat, op: Monoid, n: nat, offsets: seq<nat>)
    requires Mergeable(aggData) && AllWellFormed(aggData) && a < 4
    requires n == |aggData[0].value.keys| && offsets == Offsets(n + 1, |aggData|)
    ensures var cols := ColumnsOf(aggData, a);
            && ValidOffsets(offsets, |Interleave(cols, n)|)
            && SegmentedReduce(Interleave(cols, n), offsets, op)
               == seq(n, i requires 0 <= i < n => MergedCell(aggData, a, op, i))
  {
    var cols := ColumnsOf(aggData, a);
    OffsetsDelimitBlocks(n, |cols|);
    forall i | 0 <= i < n
      ensures SegmentedReduce(Interleave(cols, n), offsets, op)[i] == MergedCell(aggData, a, op, i)
    {
      ReducedSegment(cols, n, op, i);
    }
  }

  /** All four merged columns at once, with counts that can be divided by. */
  lemma MergedColumns(aggData: seq<Option<AggTable>>, n: nat, offsets: seq<nat>)
    requires Mergeable(aggData) && AllWellFormed(aggData)
    requires n == |aggData[0].value.keys| && offsets == Offsets(n + 1, |aggData|)
    ensures ValidOffsets(offsets, n * |aggData|)
    ensures var mins := SegmentedReduce(Interleave(ColumnsOf(aggData, 0), n), offsets, MinOp);
            var maxes := SegmentedReduce(Interleave(ColumnsOf(aggData, 1), n), offsets, MaxOp);
            var sums := SegmentedReduce(Interleave(ColumnsOf(aggData, 2), n), offsets, SumOp);
            var counts := SegmentedReduce(Interleave(ColumnsOf(aggData, 3), n), offsets, SumOp);
            && (forall i :: 0 <= i < n ==> counts[i] > 0.0)
            && FinalAggregates(aggData)
               == Success(FinalTable(mins, maxes, seq(n, i requires 0 <= i < n => sums[i] / counts[i])))
  {
    SegmentsAreCities(aggData, 0, MinOp, n, offsets);
    SegmentsAreCities(aggData, 1, MaxOp, n, offsets);
    SegmentsAreCities(aggData, 2, SumOp, n, offsets);
    SegmentsAreCities(aggData, 3, SumOp, n, offsets);
    var sums := SegmentedReduce(Interleave(ColumnsOf(aggData, 2), n), offsets, SumOp);
    var counts := SegmentedReduce(Interleave(ColumnsOf(aggData, 3), n), offsets, SumOp);
    forall i | 0 <= i < n ensures counts[i] > 0.0 && sums[i] / counts[i] == MergedMean(aggData, i) {
      MergedCountPositive(aggData, i);
    }
    assert FinalAggregates(aggData).value.means == seq(n, i requires 0 <= i < n => sums[i] / counts[i]);
  }

  /** Merges the per-chunk tables by interleaved segmented reduction. */
  method ComputeFinalAggregates(aggData: seq<Option<AggTable>>) returns (r: Result<FinalTable>)
    requires AllWellFormed(aggData)
    ensures r == FinalAggregates(aggData)
    ensures r.Success? <==> Mergeable(aggData)
    ensures r.Success? ==> Merges(r.value, aggData)
  {
    var minCols: seq<seq<real>>, maxCols: seq<seq<real>> := [], [];
    var sumCols: seq<seq<real>>, countCols: seq<seq<real>> := [], [];
    for j := 0 to |aggData|
      invariant |minCols| == |maxCols| == |sumCols| == |countCols| == j
      invariant forall m :: 0 <= m < j ==> aggData[m].Some?
      invariant forall m :: 0 <= m < j ==> minCols[m] == aggData[m].value.values[0]
      invariant forall m :: 0 <= m < j ==> maxCols[m] == aggData[m].value.values[1]
      invariant forall m :: 0 <= m < j ==> sumCols[m] == aggData[m].value.values[2]
      invariant forall m :: 0 <= m < j ==> countCols[m] == aggData[m].value.values[3]
    {
      if aggData[j].None? {
        return Failure;
      }
      var table := aggData[j].value;
      minCols := minCols + [table.values[0]];
      maxCols := maxCols + [table.values[1]];
      sumCols := sumCols + [table.values[2]];
      countCols := countCols + [table.values[3]];
    }
    // A table needs at least one column, all of one length.
    if minCols == [] || exists j :: 0 <= j < |minCols| && |minCols[j]| != |minCols[0]| {
      return Failure;
    }
    assert Mergeable(aggData);
    FinalAggregatesMerge(aggData);
    assert minCols == ColumnsOf(aggData, 0) && maxCols == ColumnsOf(aggData, 1);
    assert sumCols == ColumnsOf(aggData, 2) && countCols == ColumnsOf(aggData, 3);

    var numKeys := aggData[0].value.NumRows();
    var mins, maxes := Interleave(minCols, numKeys), Interleave(maxCols, numKeys);
    var sums, counts := Interleave(sumCols, numKeys), Interleave(countCols, numKeys);
    var offsets := Offsets(numKeys + 1, |aggData|);
    MergedColumns(aggData, numKeys, offsets);
    mins := SegmentedReduce(mins, offsets, MinOp);
    maxes := SegmentedReduce(maxes, offsets, MaxOp);
    sums := SegmentedReduce(sums, offsets, SumOp);
    counts := SegmentedReduce(counts, offsets, SumOp);
    var means := seq(numKeys, i requires 0 <= i < numKeys => sums[i] / counts[i]);
    r := Success(FinalTable(mins, maxes, means));
  }

  // ------------------------------------------------- chunked run = single pass

  /** The chunk tables of a run that read the row blocks `parts`. */
  function ChunkTables(parts: seq<seq<Row>>): (aggData: seq<Option<AggTable>>)
    ensures |aggData| == |parts|
    ensures forall j :: 0 <= j < |parts| ==> aggData[j] == Some(SortedTable(parts[j], CHUNK_AGGS))
  {
    seq(|parts|, j requires 0 <= j < |parts| => Some(SortedTable(parts[j], CHUNK_AGGS)))
  }

  lemma ChunkTableWellFormed(rows: seq<Row>)
    ensures WellFormed(SortedTable(rows, CHUNK_AGGS))
  {
    SortedCitiesPresent(rows);
  }

  lemma ChunkTablesWellFormed(parts: seq<seq<Row>>)
    ensures AllWellFormed(ChunkTables(parts))
  {
    forall j | 0 <= j < |parts| { ChunkTableWellFormed(parts[j]); }
  }

  /** Every city of the file occurs in every block. */
  ghost predicate EveryCityEverywhere(parts: seq<seq<Row>>) {
    forall j, c :: 0 <= j < |parts| && HasCity(Flatten(parts), c) ==> HasCity(parts[j], c)
  }

  lemma {:induction false} HasCityFlatten(parts: seq<seq<Row>>, j: nat, c: string)
    requires j < |parts| && HasCity(parts[j], c)
    ensures HasCity(Flatten(parts), c)
  {
    var i :| 0 <= i < |parts[j]| && parts[j][i].city == c;
    if j == 0 {
      assert Flatten(parts)[i].city == c;
    } else {
      HasCityFlatten(parts[1..], j - 1, c);
      var m :| 0 <= m < |Flatten(parts[1..])| && Flatten(parts[1..])[m].city == c;
      assert Flatten(parts)[|parts[0]| + m].city == c;
    }
  }

  /** Lining up is decided by the number of cities alone. */
  lemma SameCountSameCities(parts: seq<seq<Row>>, j: nat)
    requires j < |parts| && |SortedCities(parts[j])| == |SortedCities(Flatten(parts))|
    ensures forall c :: HasCity(Flatten(parts), c) ==> HasCity(parts[j], c)
  {
    var all, here := SortedCities(Flatten(parts)), SortedCities(parts[j]);
    SortedCitiesPresent(Flatten(parts));
    SortedCitiesPresent(parts[j]);
    forall c | c in here ensures c in all {
      HasCityFlatten(parts, j, c);
    }
    SameLengthListings(here, all);
  }

  lemma EverywhereSameListing(parts: seq<seq<Row>>, j: nat)
    requires EveryCityEverywhere(parts) && j < |parts|
    ensures SortedCities(parts[j]) == SortedCities(Flatten(parts))
  {
    SortedCitiesListsCities(parts[j]);
    SortedCitiesListsCities(Flatten(parts));
    forall c ensures c in SortedCities(parts[j]) <==> c in SortedCities(Flatten(parts)) {
      if HasCity(parts[j], c) { HasCityFlatten(parts, j, c); }
    }
    OrderedListingUnique(SortedCities(parts[j]), SortedCities(Flatten(parts)));
  }

  /** The temperatures of city `c`, block by block. */
  ghost function BlocksOf(parts: seq<seq<Row>>, c: string): (blocks: seq<seq<real>>)
    ensures |blocks| == |parts|
  {
    seq(|parts|, i requires 0 <= i < |parts| => TempsOf(parts[i], c))
  }

  /** The reduction that merges value column `a`. */
  function MergeOp(a: nat): Monoid { if a == 0 then MinOp else if a == 1 then MaxOp else SumOp }

  /** Cell `i` of value column `a` of one chunk, when all cities are everywhere. */
  lemma ChunkCell(parts: seq<seq<Row>>, a: nat, i: nat, j: nat)
    requires EveryCityEverywhere(parts) && i < |SortedCities(Flatten(parts))| && a < 4 && j < |parts|
    ensures var temps := TempsOf(parts[j], SortedCities(Flatten(parts))[i]);
            var table := SortedTable(parts[j], CHUNK_AGGS);
            && i < |table.keys| == |table.values[a]| && temps != []
            && table.values[a][i] == if a == 3 then |temps| as real else Fold(MergeOp(a), temps)
  {
    EverywhereSameListing(parts, j);
    SortedCitiesPresent(parts[j]);
  }

  /** One merged sub-aggregate is the aggregate of the city over the whole file. */
  lemma MergedCellIsWholeFile(parts: seq<seq<Row>>, a: nat, i: nat)
    requires parts != [] && EveryCityEverywhere(parts) && i < |SortedCities(Flatten(parts))|
    requires AllWellFormed(ChunkTables(parts)) && Mergeable(ChunkTables(parts))
    requires a < 4 && i < |SortedCities(parts[0])|
    ensures var temps := TempsOf(Flatten(parts), SortedCities(Flatten(parts))[i]);
            && temps != []
            && MergedCell(ChunkTables(parts), a, MergeOp(a), i)
               == if a == 3 then |temps| as real else Fold(MergeOp(a), temps)
  {
    var c := SortedCities(Flatten(parts))[i];
    var blocks := BlocksOf(parts, c);
    forall j | 0 <= j < |parts| { ChunkCell(parts, a, i, j); }
    TempsOfFlatten(parts, c);
    FoldBlocks(MergeOp(a), blocks);
    var cells := AcrossColumns(ColumnsOf(ChunkTables(parts), a), i);
    if a == 3 {
      CountsAddUp(blocks);
      assert cells == seq(|blocks|, j requires 0 <= j < |blocks| => |blocks[j]| as real);
    } else {
      assert cells == seq(|blocks|, j requires 0 <= j < |blocks| => Fold(MergeOp(a), blocks[j]));
    }
  }

  lemma {:induction false} CountsAddUp(blocks: seq<seq<real>>)
    requires blocks != []
    ensures Fold(SumOp, seq(|blocks|, j requires 0 <= j < |blocks| => |blocks[j]| as real))
         == |Flatten(blocks)| as real
  {
    var counts := seq(|blocks|, j requires 0 <= j < |blocks| => |blocks[j]| as real);
    if |blocks| == 1 {
      assert Flatten(blocks) == blocks[0] + Flatten<real>([]) == blocks[0];
    } else {
      CountsAddUp(blocks[1..]);
      assert counts[1..] == seq(|blocks[1..]|, j requires 0 <= j < |blocks[1..]| => |blocks[1..][j]| as real);
    }
  }

  lemma EverywhereMergeable(parts: seq<seq<Row>>)
    requires parts != [] && EveryCityEverywhere(parts)
    ensures Mergeable(ChunkTables(parts))
  {
    forall j | 0 <= j < |parts| ensures SortedCities(parts[j]) == SortedCities(parts[0]) {
      EverywhereSameListing(parts, j);
      EverywhereSameListing(parts, 0);
    }
  }

  lemma ChunkedIsSinglePass(parts: seq<seq<Row>>)
    requires parts != [] && EveryCityEverywhere(parts)
    ensures AllWellFormed(ChunkTables(parts))
    ensures FinalAggregates(ChunkTables(parts)) == Success(SinglePass(Flatten(parts)))
  {
    var aggData, rows := ChunkTables(parts), Flatten(parts);
    ChunkTablesWellFormed(parts);
    EverywhereMergeable(parts);
    EverywhereSameListing(parts, 0);
    SortedCitiesPresent(rows);
    var n := |SortedCities(rows)|;
    var final, single := FinalAggregates(aggData).value, SinglePass(rows);
    forall i | 0 <= i < n
      ensures final.mins[i] == single.mins[i] && final.maxes[i] == single.maxes[i] && final.means[i] == single.means[i]
    {
      MergedCellIsWholeFile(parts, 0, i);
      MergedCellIsWholeFile(parts, 1, i);
      MergedCellIsWholeFile(parts, 2, i);
      MergedCellIsWholeFile(parts, 3, i);
    }
    assert final.mins == single.mins && final.maxes == single.maxes && final.means == single.means;
  }

  /**
    The chunked computation gives the single-pass answer exactly when every
    city occurs in every chunk, the assumption the source states in a comment.
   */
  lemma ChunkedIsSinglePassIff(parts: seq<seq<Row>>)
    requires parts != []
    ensures AllWellFormed(ChunkTables(parts))
    ensures FinalAggregates(ChunkTables(parts)) == Success(SinglePass(Flatten(parts))) <==> EveryCityEverywhere(parts)
    ensures AnswersRows(FinalAggregates(ChunkTables(parts)), Flatten(parts)) <==> EveryCityEverywhere(parts)
  {
    ChunkTablesWellFormed(parts);
    AnswersRowsIff(FinalAggregates(ChunkTables(parts)), Flatten(parts));
    if EveryCityEverywhere(parts) {
      ChunkedIsSinglePass(parts);
    }
    if FinalAggregates(ChunkTables(parts)) == Success(SinglePass(Flatten(parts))) {
      var aggData := ChunkTables(parts);
      assert Mergeable(aggData);
      assert |SinglePass(Flatten(parts)).mins| == |SortedCities(Flatten(parts))|;
      forall j, c | 0 <= j < |parts| && HasCity(Flatten(parts), c) ensures HasCity(parts[j], c) {
        assert |aggData[j].value.keys| == |aggData[0].value.keys|;
        SameCountSameCities(parts, j);
      }
    }
  }

  /**
    Two one-row chunks with different cities have equally long columns, so the
    merge pairs them up and succeeds with a wrong answer.
   */
  lemma MisalignedChunksExample(p: Row, q: Row)
    requires p.city != q.city
    ensures var parts := [[p], [q]];
            && AllWellFormed(ChunkTables(parts))
            && FinalAggregates(ChunkTables(parts)).Success?
            && FinalAggregates(ChunkTables(parts)) != Success(SinglePass(Flatten(parts)))
  {
    var parts := [[p], [q]];
    OneCity(p);
    OneCity(q);
    ChunkedIsSinglePassIff(parts);
    HasCityFlatten(parts, 1, q.city) by { assert parts[1][0].city == q.city; }
    assert !HasCity(parts[0], q.city);
  }

  lemma OneCity(row: Row)
    ensures SortedCities([row]) == [row.city]
  {
    assert [row][1..] == [];
  }

  // ------------------------------------------------------ order of the chunks

  lemma MergeablePermuted(a: seq<Option<AggTable>>, b: seq<Option<AggTable>>)
    requires multiset(a) == multiset(b) && Mergeable(a)
    ensures Mergeable(b) && |a[0].value.keys| == |b[0].value.keys|
  {
    SameLength(a, b);
    forall j | 0 <= j < |b| ensures b[j].Some? && |b[j].value.keys| == |a[0].value.keys| {
      assert b[j] in multiset(b);
      assert b[j] in a;
    }
  }

  lemma WellFormedPermuted(a: seq<Option<AggTable>>, b: seq<Option<AggTable>>)
    requires multiset(a) == multiset(b) && AllWellFormed(a)
    ensures AllWellFormed(b)
  {
    forall j | 0 <= j < |b| && b[j].Some? ensures WellFormed(b[j].value) {
      assert b[j] in multiset(b);
      assert b[j] in a;
    }
  }

  lemma MergedCellPermuted(x: seq<Option<AggTable>>, y: seq<Option<AggTable>>, a: nat, op: Monoid, i: nat)
    requires multiset(x) == multiset(y) && a < 4
    requires Mergeable(x) && AllWellFormed(x) && Mergeable(y) && AllWellFormed(y)
    requires i < |x[0].value.keys| && i < |y[0].value.keys|
    ensures MergedCell(x, a, op, i) == MergedCell(y, a, op, i)
  {
    var cell := (t: Option<AggTable>) =>
      if t.Some? && a < |t.value.values| && i < |t.value.values[a]| then t.value.values[a][i] else 0.0;
    ImagePermuted(x, y, cell);
    assert AcrossColumns(ColumnsOf(x, a), i) == Image(x, cell);
    assert AcrossColumns(ColumnsOf(y, a), i) == Image(y, cell);
    FoldPermuted(op, Image(x, cell), Image(y, cell));
  }

  /** The merge does not see the order in which the chunk tables arrive. */
  lemma FinalAggregatesPermuted(x: seq<Option<AggTable>>, y: seq<Option<AggTable>>)
    requires multiset(x) == multiset(y) && AllWellFormed(x)
    ensures AllWellFormed(y) && FinalAggregates(x) == FinalAggregates(y)
  {
    WellFormedPermuted(x, y);
    if Mergeable(x) {
      MergeablePermuted(x, y);
      var n := |x[0].value.keys|;
      forall i | 0 <= i < n
        ensures MergedCell(x, 0, MinOp, i) == MergedCell(y, 0, MinOp, i)
        ensures MergedCell(x, 1, MaxOp, i) == MergedCell(y, 1, MaxOp, i)
        ensures MergedMean(x, i) == MergedMean(y, i)
      {
        MergedCellPermuted(x, y, 0, MinOp, i);
        MergedCellPermuted(x, y, 1, MaxOp, i);
        MergedCellPermuted(x, y, 2, SumOp, i);
        MergedCellPermuted(x, y, 3, SumOp, i);
      }
      var p, q := FinalAggregates(x).value, FinalAggregates(y).value;
      assert p.mins == q.mins && p.maxes == q.maxes && p.means == q.means;
    } else if Mergeable(y) {
      MergeablePermuted(y, x);
    }
  }
}
