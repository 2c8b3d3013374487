/**
  The sequential chunk loop: byte ranges, the rows each range yields, and the
  conditions under which the loop sees the whole file.
 */
module BrcChunks {
  import opened Outcomes
  import opened Arithmetic
  import opened Sequences
  import opened Sorting
  import opened BrcTables
  import opened BrcAggregates

  /** A line of the input file, known by the byte it starts at. */
  datatype Line = Line(pos: nat, row: Row)

  datatype File = File(size: nat, lines: seq<Line>) {
    ghost predicate Valid() {
      && (forall i :: 0 <= i < |lines| ==> lines[i].pos < size)
      && (forall i, j :: 0 <= i < j < |lines| ==> lines[i].pos < lines[j].pos)
    }
  }

  datatype Range = Range(start: nat, size: nat)

  const SIZE_T_MODULUS := 0x1_0000_0000_0000_0000

  /** Subtraction of `std::size_t` values, which wraps. */
  function SubSizeT(a: nat, b: nat): nat { (a - b) % SIZE_T_MODULUS }

  /** What is missing counts down from the modulus. */
  lemma SubtractionWraps(a: nat, b: nat)
    requires a < SIZE_T_MODULUS && b < SIZE_T_MODULUS
    ensures SubSizeT(a, b) == if b <= a then a - b else SIZE_T_MODULUS - (b - a)
  {
    if b > a {
      RemainderUnique(a - b, SIZE_T_MODULUS, -1, SIZE_T_MODULUS - (b - a));
    }
  }

  function Starting(line: Line, lo: nat, hi: nat): seq<Row> { if lo <= line.pos < hi then [line.row] else [] }

  /** Rows of the lines that start in `[lo, hi)`. */
  function RowsIn(lines: seq<Line>, lo: nat, hi: nat): seq<Row> {
    if lines == [] then [] else Starting(lines[0], lo, hi) + RowsIn(lines[1..], lo, hi)
  }

  /** A byte-range read: the rows that start in the range. */
  function LoadChunk(f: File, r: Range): seq<Row> { RowsIn(f.lines, r.start, r.start + r.size) }

  function AllRows(f: File): seq<Row> { RowsIn(f.lines, 0, f.size) }

  /** The rows of `lines[a..b]`, in order. */
  ghost predicate AreRowsOf(rows: seq<Row>, lines: seq<Line>, a: nat, b: nat) {
    a <= b <= |lines| && |rows| == b - a && forall k :: 0 <= k < |rows| ==> rows[k] == lines[a + k].row
  }

  /** `lines[a..b]` are the lines that start in `[lo, hi)`. */
  ghost predicate StartWithin(lines: seq<Line>, a: nat, b: nat, lo: nat, hi: nat) {
    a <= b <= |lines| && forall i :: 0 <= i < |lines| ==> (a <= i < b <==> lo <= lines[i].pos < hi)
  }

  lemma BehindFirst(lines: seq<Line>, a: nat, b: nat, lo: nat, hi: nat)
    requires lines != [] && StartWithin(lines[1..], a, b, lo, hi)
    ensures lines[0].pos < lo ==> StartWithin(lines, a + 1, b + 1, lo, hi)
    ensures lo <= lines[0].pos < hi && a == 0 ==> StartWithin(lines, 0, b + 1, lo, hi)
  {
    forall i | 0 < i < |lines| ensures a + 1 <= i < b + 1 <==> lo <= lines[i].pos < hi {
      assert lines[i] == lines[1..][i - 1];
    }
  }

  lemma RowsBehindFirst(rows: seq<Row>, lines: seq<Line>, a: nat, b: nat)
    requires lines != [] && AreRowsOf(rows, lines[1..], a, b)
    ensures AreRowsOf([] + rows, lines, a + 1, b + 1)
    ensures a == 0 ==> AreRowsOf([lines[0].row] + rows, lines, 0, b + 1)
  {
  }

  lemma {:induction false} RowsInOrder(lines: seq<Line>, lo: nat, hi: nat) returns (a: nat, b: nat)
    requires forall i, j :: 0 <= i < j < |lines| ==> lines[i].pos < lines[j].pos
    requires lo <= hi
    ensures StartWithin(lines, a, b, lo, hi) && AreRowsOf(RowsIn(lines, lo, hi), lines, a, b)
    ensures a > 0 ==> lines[0].pos < lo
  {
    if lines == [] {
      return 0, 0;
    }
    if lines[0].pos >= hi {
      NothingBefore(lines, lo, hi);
      return 0, 0;
    }
    a, b := RowsInOrder(lines[1..], lo, hi);
    BehindFirst(lines, a, b, lo, hi);
    RowsBehindFirst(RowsIn(lines[1..], lo, hi), lines, a, b);
    a, b := if lines[0].pos < lo then a + 1 else 0, b + 1;
  }

  /** A read returns the rows of one run of lines: those that start in the range. */
  lemma LoadedRows(f: File, r: Range)
    requires f.Valid()
    ensures exists a: nat, b: nat :: StartWithin(f.lines, a, b, r.start, r.start + r.size)
                        && AreRowsOf(LoadChunk(f, r), f.lines, a, b)
  {
    var a, b := RowsInOrder(f.lines, r.start, r.start + r.size);
    assert LoadChunk(f, r) == RowsIn(f.lines, r.start, r.start + r.size);
    assert AreRowsOf(LoadChunk(f, r), f.lines, a, b);
  }

  /** The file's rows are the rows of its lines. */
  lemma AllRowsListed(f: File)
    requires f.Valid()
    ensures AreRowsOf(AllRows(f), f.lines, 0, |f.lines|)
  {
    var a, b := RowsInOrder(f.lines, 0, f.size);
    if f.lines != [] {
      var last := |f.lines| - 1;
      assert 0 <= f.lines[last].pos < f.size && 0 <= f.lines[0].pos < f.size;
      assert a <= 0 && last < b;
    }
  }

  lemma {:induction false} NothingBefore(lines: seq<Line>, lo: nat, hi: nat)
    requires forall i :: 0 <= i < |lines| ==> lines[i].pos >= hi
    ensures RowsIn(lines, lo, hi) == []
  {
    if lines != [] {
      NothingBefore(lines[1..], lo, hi);
    }
  }

  lemma {:induction false} RowsInSplit(lines: seq<Line>, lo: nat, mid: nat, hi: nat)
    requires forall i, j :: 0 <= i < j < |lines| ==> lines[i].pos < lines[j].pos
    requires lo <= mid <= hi
    ensures RowsIn(lines, lo, hi) == RowsIn(lines, lo, mid) + RowsIn(lines, mid, hi)
  {
    if lines != [] {
      RowsInSplit(lines[1..], lo, mid, hi);
      SplitOne(lines[0], lines[1..], lo, mid, hi);
    }
  }

  /** A line in front of rows that are already split. */
  lemma SplitOne(line: Line, rest: seq<Line>, lo: nat, mid: nat, hi: nat)
    requires lo <= mid <= hi && forall i :: 0 <= i < |rest| ==> line.pos < rest[i].pos
    ensures var before, behind := RowsIn(rest, lo, mid), RowsIn(rest, mid, hi);
        Starting(line, lo, hi) + (before + behind)
            == (Starting(line, lo, mid) + before) + (Starting(line, mid, hi) + behind)
  {
    var before, behind := RowsIn(rest, lo, mid), RowsIn(rest, mid, hi);
    if line.pos < mid {
      assert [] + behind == behind;
      ConcatAssociative(Starting(line, lo, hi), before, behind);
    } else {
      NothingBefore(rest, lo, mid);
      assert [] + behind == behind && [] + before == before;
    }
  }

  lemma {:induction false} NothingBeyond(lines: seq<Line>, end: nat, lo: nat, hi: nat)
    requires forall i :: 0 <= i < |lines| ==> lines[i].pos < end
    requires end <= hi
    ensures RowsIn(lines, lo, hi) == RowsIn(lines, lo, end)
    ensures end <= lo ==> RowsIn(lines, lo, hi) == []
  {
    if lines != [] {
      NothingBeyond(lines[1..], end, lo, hi);
    }
  }

  /** `file_size / divider`, rounded up. */
  function ChunkSize(fileSize: nat, divider: nat): nat
    requires divider > 0
  {
    fileSize / divider + if fileSize % divider != 0 then 1 else 0
  }

  /** No smaller chunk size covers the file with `divider` chunks. */
  lemma LeastCover(fileSize: nat, divider: nat, size: nat)
    requires divider > 0 && fileSize <= size * divider
    ensures ChunkSize(fileSize, divider) <= size
  {
    var q, r := fileSize / divider, fileSize % divider;
    assert fileSize == q * divider + r;
    if size <= q - 1 {
      TimesMonotone(size + 1, q, divider);
    } else if size == q {
      assert r == 0;
    }
  }

  lemma ChunkSizeCovers(fileSize: nat, divider: nat)
    requires divider > 0
    ensures fileSize <= ChunkSize(fileSize, divider) * divider
    ensures fileSize > 0 ==> 0 < ChunkSize(fileSize, divider) <= fileSize
  {
    var q, r := fileSize / divider, fileSize % divider;
    assert fileSize == q * divider + r;
    if q == 0 {
      assert r == fileSize;
    } else if r != 0 {
      assert (q + 1) * divider == q * divider + divider;
      TimesMonotone(1, q, divider);
      TimesMonotone(1, divider, q);
      assert q + 1 <= fileSize;
    } else {
      TimesMonotone(1, divider, q);
    }
  }

  /** The byte ranges the loop asks for when no read comes back empty. */
  function ChunkRanges(start: nat, chunkSize: nat, fileSize: nat): (ranges: seq<Range>)
    requires chunkSize > 0
    decreases fileSize - start
  {
    if start >= fileSize then []
    else [Range(start, if chunkSize <= fileSize - start then chunkSize else fileSize - start)]
         + ChunkRanges(start + chunkSize, chunkSize, fileSize)
  }

  /** Non-empty ranges laid end to end over `[start, end)`. */
  ghost predicate Tiles(ranges: seq<Range>, start: nat, end: nat) {
    if ranges == [] then start == end
    else ranges[0].start == start && ranges[0].size > 0 && Tiles(ranges[1..], start + ranges[0].size, end)
  }

  /** The loop's ranges partition the rest of the file, in at most `rounds` rounds. */
  lemma {:induction false} ChunkRangesTile(start: nat, chunkSize: nat, fileSize: nat, rounds: nat)
    requires chunkSize > 0 && start <= fileSize <= start + chunkSize * rounds
    ensures Tiles(ChunkRanges(start, chunkSize, fileSize), start, fileSize)
    ensures |ChunkRanges(start, chunkSize, fileSize)| <= rounds
    decreases rounds
  {
    if start < fileSize {
      assert rounds > 0 by { assert chunkSize * 0 == 0; }
      assert chunkSize * rounds == chunkSize + chunkSize * (rounds - 1);
      if chunkSize <= fileSize - start {
        ChunkRangesTile(start + chunkSize, chunkSize, fileSize, rounds - 1);
      } else {
        assert ChunkRanges(start + chunkSize, chunkSize, fileSize) == [];
        assert Tiles([], fileSize, fileSize);
      }
    }
  }

  lemma LoopRangesPartitionFile(fileSize: nat, divider: nat)
    requires divider > 0 && fileSize > 0
    ensures Tiles(ChunkRanges(0, ChunkSize(fileSize, divider), fileSize), 0, fileSize)
    ensures |ChunkRanges(0, ChunkSize(fileSize, divider), fileSize)| <= divider
  {
    ChunkSizeCovers(fileSize, divider);
    ChunkRangesTile(0, ChunkSize(fileSize, divider), fileSize, divider);
  }

  function Loads(f: File, ranges: seq<Range>): (loads: seq<seq<Row>>)
    ensures |loads| == |ranges|
    ensures forall i :: 0 <= i < |ranges| ==> loads[i] == LoadChunk(f, ranges[i])
  {
    seq(|ranges|, i requires 0 <= i < |ranges| => LoadChunk(f, ranges[i]))
  }

  /** Reading tiles one after the other reads what they cover. */
  lemma {:induction false} TiledLoads(f: File, ranges: seq<Range>, start: nat, end: nat)
    requires f.Valid() && Tiles(ranges, start, end)
    ensures start <= end && Flatten(Loads(f, ranges)) == RowsIn(f.lines, start, end)
  {
    if ranges == [] {
      RowsInSplit(f.lines, start, start, start);
      assert |RowsIn(f.lines, start, start)| == 2 * |RowsIn(f.lines, start, start)|;
    } else {
      var mid := start + ranges[0].size;
      TiledLoads(f, ranges[1..], mid, end);
      RowsInSplit(f.lines, start, mid, end);
      assert Loads(f, ranges)[1..] == Loads(f, ranges[1..]);
    }
  }

  /** The reads before the first empty one: where the loop stops. */
  function UntilEmpty(loads: seq<seq<Row>>): seq<seq<Row>> {
    if loads == [] || loads[0] == [] then [] else [loads[0]] + UntilEmpty(loads[1..])
  }

  /** An empty read is followed by empty reads only. */
  ghost predicate EmptyOnlyAtEnd(loads: seq<seq<Row>>) {
    forall i, j :: 0 <= i < j < |loads| && loads[i] == [] ==> loads[j] == []
  }

  lemma {:induction false} AllEmptyFlatten(loads: seq<seq<Row>>)
    ensures Flatten(loads) == [] <==> forall i :: 0 <= i < |loads| ==> loads[i] == []
  {
    if loads != [] {
      AllEmptyFlatten(loads[1..]);
      assert forall i :: 0 < i < |loads| ==> loads[i] == loads[1..][i - 1];
    }
  }

  /** The early exit loses no row exactly when no empty read precedes a row. */
  lemma {:induction false} EarlyExitLosesNothingIff(loads: seq<seq<Row>>)
    ensures Flatten(UntilEmpty(loads)) == Flatten(loads) <==> EmptyOnlyAtEnd(loads)
  {
    if loads != [] {
      if loads[0] == [] {
        AllEmptyFlatten(loads);
      } else {
        EarlyExitLosesNothingIff(loads[1..]);
        assert UntilEmpty(loads)[1..] == UntilEmpty(loads[1..]);
        assert Flatten(UntilEmpty(loads)) == loads[0] + Flatten(UntilEmpty(loads[1..]));
        assert Flatten(UntilEmpty(loads)) == Flatten(loads)
            <==> Flatten(UntilEmpty(loads[1..])) == Flatten(loads[1..]) by {
          assert Flatten(UntilEmpty(loads))[|loads[0]|..] == Flatten(UntilEmpty(loads[1..]));
          assert Flatten(loads)[|loads[0]|..] == Flatten(loads[1..]);
        }
        assert forall i :: 0 < i < |loads| ==> loads[i] == loads[1..][i - 1];
      }
    }
  }

  /** The blocks of rows the chunk loop aggregates. */
  function LoopParts(f: File, divider: nat): seq<seq<Row>>
    requires divider > 0
  {
    if f.size == 0 then []
    else
      ChunkSizeCovers(f.size, divider);
      UntilEmpty(Loads(f, ChunkRanges(0, ChunkSize(f.size, divider), f.size)))
  }

  /** Some order in which a groupby returned its groups, and a permutation sorting it. */
  method SomeGroupOrder(rows: seq<Row>) returns (groupOrder: seq<string>, perm: seq<nat>)
    ensures IsGroupOrder(rows, groupOrder)
    ensures IsPermutation(perm, |groupOrder|) && Ordered(Gather(groupOrder, perm))
  {
    groupOrder := SortedCities(rows);
    SortedCitiesPresent(rows);
    SortedCitiesListsCities(rows);
    perm := seq(|groupOrder|, i requires 0 <= i < |groupOrder| => i);
    forall r | 0 <= r < |groupOrder| ensures r in perm { assert perm[r] == r; }
    forall i, j | 0 <= i < j < |groupOrder| ensures !Before(groupOrder[j], groupOrder[i]) {
      BeforeAsymmetric(groupOrder[i], groupOrder[j]);
    }
  }

  /** Groups the rows of one read and sorts the table by city. */
  method TableOfChunk(rows: seq<Row>) returns (table: AggTable)
    ensures table == SortedTable(rows, CHUNK_AGGS)
  {
    var groupOrder, perm := SomeGroupOrder(rows);
    table := AggregateChunk(rows, groupOrder, perm);
  }

  /** What is left to aggregate from byte `start` on. */
  ghost function PartsFrom(f: File, start: nat, size: nat): seq<seq<Row>>
    requires size > 0
  {
    UntilEmpty(Loads(f, ChunkRanges(start, size, f.size)))
  }

  lemma LoopRound(f: File, start: nat, size: nat, chunkSize: nat)
    requires 0 < size && start < f.size
    requires chunkSize == if size <= f.size - start then size else f.size - start
    ensures var rows := LoadChunk(f, Range(start, chunkSize));
            && PartsFrom(f, start, size) == (if rows == [] then [] else [rows] + PartsFrom(f, start + chunkSize, size))
            && |ChunkRanges(start, size, f.size)| == 1 + |ChunkRanges(start + chunkSize, size, f.size)|
  {
    var ranges := ChunkRanges(start, size, f.size);
    if chunkSize < size {
      assert ChunkRanges(start + size, size, f.size) == [] == ChunkRanges(start + chunkSize, size, f.size);
    }
    assert ranges[1..] == ChunkRanges(start + chunkSize, size, f.size);
    assert Loads(f, ranges)[1..] == Loads(f, ranges[1..]);
  }

  /** Between rounds: the blocks kept so far and those still to come make up `LoopParts`. */
  ghost predicate Underway(f: File, divider: nat, parts: seq<seq<Row>>, startPos: nat, chunkSize: nat, rounds: nat)
    requires divider > 0
  {
    var size := ChunkSize(f.size, divider);
    if f.size == 0 then parts == [] && startPos == 0 && chunkSize == 0
    else
      && 0 < size && startPos < f.size
      && chunkSize == (if size <= f.size - startPos then size else f.size - startPos)
      && LoopParts(f, divider) == parts + PartsFrom(f, startPos, size)
      && rounds + |ChunkRanges(startPos, size, f.size)| <= divider
  }

  lemma UnderwayAtStart(f: File, divider: nat)
    requires divider > 0
    ensures Underway(f, divider, [], 0, ChunkSize(f.size, divider), 0)
  {
    ChunkSizeCovers(f.size, divider);
    if f.size > 0 {
      LoopRangesPartitionFile(f.size, divider);
    }
  }

  /** One round either ends the loop with all its blocks or keeps it underway. */
  lemma UnderwayRound(f: File, divider: nat, parts: seq<seq<Row>>, startPos: nat, chunkSize: nat, rounds: nat)
    requires f.Valid() && divider > 0 && Underway(f, divider, parts, startPos, chunkSize, rounds)
    ensures f.size > 0 ==> chunkSize > 0 && startPos + chunkSize <= f.size && rounds < divider
    ensures var rows := LoadChunk(f, Range(startPos, chunkSize));
            var next, left := startPos + chunkSize, f.size - (startPos + chunkSize);
            if rows == [] then parts == LoopParts(f, divider)
            else if next >= f.size then f.size > 0 && parts + [rows] == LoopParts(f, divider)
            else Underway(f, divider, parts + [rows], next, if chunkSize <= left then chunkSize else left, rounds + 1)
  {
    if f.size == 0 {
      NothingBeyond(f.lines, 0, 0, 0);
    } else {
      var size := ChunkSize(f.size, divider);
      LoopRound(f, startPos, size, chunkSize);
      var rows := LoadChunk(f, Range(startPos, chunkSize));
      if rows != [] {
        assert parts + ([rows] + PartsFrom(f, startPos + chunkSize, size))
            == (parts + [rows]) + PartsFrom(f, startPos + chunkSize, size);
      }
    }
  }

  lemma NoWrap(a: nat, b: nat)
    requires b <= a < SIZE_T_MODULUS
    ensures SubSizeT(a, b) == a - b
  {
  }

  /**
    The chunk loop: one table per non-empty read. It ends after at most `divider` rounds.
    `wrapped` records whether `fileSize - startPos`, a subtraction of unsigned
    values, ever wrapped: it never does.
   */
  method AggregateChunks(f: File, divider: nat)
      returns (aggData: seq<Option<AggTable>>, rounds: nat, ghost wrapped: bool)
    requires f.Valid() && divider > 0 && f.size < SIZE_T_MODULUS
    ensures aggData == ChunkTables(LoopParts(f, divider))
    ensures f.size > 0 ==> rounds <= divider
    ensures !wrapped
  {
    aggData := [];
    var chunkSize: nat := ChunkSize(f.size, divider);
    var startPos: nat := 0;
    rounds := 0;
    ghost var parts: seq<seq<Row>> := [];
    wrapped := false;
    UnderwayAtStart(f, divider);
    while true
      invariant aggData == ChunkTables(parts)
      invariant Underway(f, divider, parts, startPos, chunkSize, rounds)
      invariant !wrapped
      decreases f.size - startPos
    {
      UnderwayRound(f, divider, parts, startPos, chunkSize, rounds);
      var rows := LoadChunk(f, Range(startPos, chunkSize));
      rounds := rounds + 1;
      if rows == [] {
        break;
      }
      var table := TableOfChunk(rows);
      aggData := aggData + [Some(table)];
      parts := parts + [rows];
      assert aggData == ChunkTables(parts);
      startPos := startPos + chunkSize;
      var left: nat := SubSizeT(f.size, startPos);
      NoWrap(f.size, startPos);
      wrapped := wrapped || left != f.size - startPos;
      chunkSize := if chunkSize <= left then chunkSize else left;
      if !(startPos < f.size && chunkSize > 0) {
        break;
      }
    }
  }

  /** The chunk loop and the final merge. */
  method ChunkLoop(f: File, divider: nat) returns (r: Result<FinalTable>, rounds: nat, ghost wrapped: bool)
    requires f.Valid() && divider > 0 && f.size < SIZE_T_MODULUS
    ensures AllWellFormed(ChunkTables(LoopParts(f, divider)))
    ensures r == FinalAggregates(ChunkTables(LoopParts(f, divider)))
    ensures f.size > 0 ==> rounds <= divider
    ensures !wrapped
  {
    var aggData;
    aggData, rounds, wrapped := AggregateChunks(f, divider);
    ChunkTablesWellFormed(LoopParts(f, divider));
    r := ComputeFinalAggregates(aggData);
  }

  /** When no read is empty too early, the loop aggregates the whole file. */
  lemma LoopReadsWholeFileIff(f: File, divider: nat)
    requires f.Valid() && divider > 0 && f.size > 0
    ensures ChunkSize(f.size, divider) > 0
    ensures Flatten(LoopParts(f, divider)) == AllRows(f)
       <==> EmptyOnlyAtEnd(Loads(f, ChunkRanges(0, ChunkSize(f.size, divider), f.size)))
  {
    var ranges := (ChunkSizeCovers(f.size, divider); ChunkRanges(0, ChunkSize(f.size, divider), f.size));
    LoopRangesPartitionFile(f.size, divider);
    TiledLoads(f, ranges, 0, f.size);
    EarlyExitLosesNothingIff(Loads(f, ranges));
  }

  /** A file whose middle third holds no start of a line. */
  function GapFile(first: Row, last: Row): File { File(30, [Line(0, first), Line(25, last)]) }

  lemma GapLoads(first: Row, last: Row)
    ensures LoadChunk(GapFile(first, last), Range(0, 10)) == [first]
    ensures LoadChunk(GapFile(first, last), Range(10, 10)) == []
    ensures LoadChunk(GapFile(first, last), Range(20, 10)) == [last]
    ensures AllRows(GapFile(first, last)) == [first, last]
  {
    RowsOfTwo(Line(0, first), Line(25, last), 0, 10);
    RowsOfTwo(Line(0, first), Line(25, last), 10, 20);
    RowsOfTwo(Line(0, first), Line(25, last), 20, 30);
    RowsOfTwo(Line(0, first), Line(25, last), 0, 30);
  }

  lemma RowsOfTwo(a: Line, b: Line, lo: nat, hi: nat)
    ensures RowsIn([a, b], lo, hi) == Starting(a, lo, hi) + Starting(b, lo, hi)
  {
    assert [a, b][1..] == [b] && [b][1..] == [];
    assert RowsIn([b], lo, hi) == Starting(b, lo, hi) + RowsIn([], lo, hi) == Starting(b, lo, hi);
  }

  lemma GapRanges()
    ensures ChunkSize(30, 3) == 10
    ensures ChunkRanges(0, 10, 30) == [Range(0, 10), Range(10, 10), Range(20, 10)]
  {
    assert ChunkRanges(30, 10, 30) == [];
    assert ChunkRanges(20, 10, 30) == [Range(20, 10)];
    assert ChunkRanges(10, 10, 30) == [Range(10, 10), Range(20, 10)];
  }

  /** In three chunks, the loop stops at the empty one and loses the last row. */
  lemma RowLostExample(first: Row, last: Row)
    ensures GapFile(first, last).Valid() && AllRows(GapFile(first, last)) == [first, last]
    ensures LoopParts(GapFile(first, last), 3) == [[first]]
  {
    var f := GapFile(first, last);
    GapLoads(first, last);
    GapRanges();
    var loads := Loads(f, [Range(0, 10), Range(10, 10), Range(20, 10)]);
    assert loads == [[first], [], [last]];
    assert loads[1..][0] == [];
    assert UntilEmpty(loads) == [[first]] + UntilEmpty(loads[1..]);
  }

  /**
    When nothing is lost, the chunk loop computes the single-pass answer exactly when it
    read some row and every city is everywhere.
   */
  lemma ChunkLoopIsSinglePassIff(f: File, divider: nat)
    requires f.Valid() && divider > 0 && f.size > 0
    requires ChunkSize(f.size, divider) > 0
    requires EmptyOnlyAtEnd(Loads(f, ChunkRanges(0, ChunkSize(f.size, divider), f.size)))
    ensures AllWellFormed(ChunkTables(LoopParts(f, divider)))
    ensures FinalAggregates(ChunkTables(LoopParts(f, divider))) == Success(SinglePass(AllRows(f)))
       <==> LoopParts(f, divider) != [] && EveryCityEverywhere(LoopParts(f, divider))
    ensures AnswersRows(FinalAggregates(ChunkTables(LoopParts(f, divider))), AllRows(f))
       <==> LoopParts(f, divider) != [] && EveryCityEverywhere(LoopParts(f, divider))
  {
    LoopReadsWholeFileIff(f, divider);
    MergeOfPartsIff(LoopParts(f, divider), AllRows(f));
  }

  lemma MergeOfPartsIff(parts: seq<seq<Row>>, rows: seq<Row>)
    requires Flatten(parts) == rows
    ensures AllWellFormed(ChunkTables(parts))
    ensures FinalAggregates(ChunkTables(parts)) == Success(SinglePass(rows))
       <==> parts != [] && EveryCityEverywhere(parts)
    ensures AnswersRows(FinalAggregates(ChunkTables(parts)), rows) <==> parts != [] && EveryCityEverywhere(parts)
  {
    ChunkTablesWellFormed(parts);
    if parts != [] {
      ChunkedIsSinglePassIff(parts);
    }
  }
}
