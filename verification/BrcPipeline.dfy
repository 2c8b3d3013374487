/**
  The multithreaded billion-rows program: byte ranges dealt round-robin to
  threads, threads that read and aggregate at their own pace, and the merge of
  whatever order their tables end up in.
 */
module BrcPipeline {
  import opened Outcomes
  import opened Sequences
  import opened BrcTables
  import opened BrcAggregates
  import opened BrcChunks

  // ------------------------------------------------------------- byte ranges

  /** The range computed for chunk `i`; the size wraps when it starts past the end. */
  function PipelineRange(fileSize: nat, divider: nat, i: nat): Range
    requires divider > 0
  {
    var chunkSize := ChunkSize(fileSize, divider);
    var start := i * chunkSize;
    var left := SubSizeT(fileSize, start);
    Range(start, if chunkSize <= left then chunkSize else left)
  }

  function PipelineRanges(fileSize: nat, divider: nat, n: nat): (ranges: seq<Range>)
    requires divider > 0
    ensures |ranges| == n
  {
    seq(n, i requires 0 <= i < n => PipelineRange(fileSize, divider, i))
  }

  /** What chunk `i` actually reads: the rows starting in block `i` of the file. */
  lemma PipelineLoad(f: File, divider: nat, i: nat)
    requires f.Valid() && divider > 0 && i < divider && f.size + divider < SIZE_T_MODULUS
    ensures var chunkSize := ChunkSize(f.size, divider);
            LoadChunk(f, PipelineRange(f.size, divider, i)) == RowsIn(f.lines, i * chunkSize, i * chunkSize + chunkSize)
  {
    var chunkSize := ChunkSize(f.size, divider);
    var start := i * chunkSize;
    var r := PipelineRange(f.size, divider, i);
    if start <= f.size {
      assert SubSizeT(f.size, start) == f.size - start;
      if r.size < chunkSize {
        NothingBeyond(f.lines, f.size, start, start + chunkSize);
      }
    } else {
      NothingBeyond(f.lines, f.size, start, start + r.size);
      NothingBeyond(f.lines, f.size, start, start + chunkSize);
    }
  }

  /** The rows of block `i` of the file, for each chunk. */
  function Blocks(f: File, chunkSize: nat, n: nat): (blocks: seq<seq<Row>>)
    ensures |blocks| == n
  {
    seq(n, i requires 0 <= i < n => RowsIn(f.lines, i * chunkSize, i * chunkSize + chunkSize))
  }

  /** One more block. */
  lemma BlockAdded(f: File, chunkSize: nat, n: nat, lo: nat, hi: nat)
    requires f.Valid() && lo == n * chunkSize && hi == lo + chunkSize
    requires Flatten(Blocks(f, chunkSize, n)) == RowsIn(f.lines, 0, lo)
    ensures Flatten(Blocks(f, chunkSize, n + 1)) == RowsIn(f.lines, 0, hi)
  {
    var last := RowsIn(f.lines, lo, hi);
    assert Blocks(f, chunkSize, n + 1) == Blocks(f, chunkSize, n) + [last];
    FlattenSnoc(Blocks(f, chunkSize, n), last);
    RowsInSplit(f.lines, 0, lo, hi);
  }

  lemma NextMultiple(k: nat, size: nat)
    requires k > 0
    ensures k * size == (k - 1) * size + size && (k - 1) * size >= 0
  {
  }

  lemma {:induction false} BlocksCover(f: File, chunkSize: nat, n: nat)
    requires f.Valid()
    ensures Flatten(Blocks(f, chunkSize, n)) == RowsIn(f.lines, 0, n * chunkSize)
  {
    if n == 0 {
      NothingBetween(f.lines, 0);
    } else {
      NextMultiple(n, chunkSize);
      BlocksCover(f, chunkSize, n - 1);
      BlockAdded(f, chunkSize, n - 1, (n - 1) * chunkSize, n * chunkSize);
    }
  }

  lemma {:induction false} NothingBetween(lines: seq<Line>, at: nat)
    ensures RowsIn(lines, at, at) == []
  {
    if lines != [] {
      NothingBetween(lines[1..], at);
    }
  }

  /** Whatever the divider, the ranges read every row of the file once and in order. */
  lemma PipelineReadsWholeFile(f: File, divider: nat)
    requires f.Valid() && divider > 0 && f.size + divider < SIZE_T_MODULUS
    ensures Flatten(Loads(f, PipelineRanges(f.size, divider, divider))) == AllRows(f)
  {
    var chunkSize := ChunkSize(f.size, divider);
    var ranges := PipelineRanges(f.size, divider, divider);
    forall i | 0 <= i < divider { PipelineLoad(f, divider, i); }
    assert Loads(f, ranges) == Blocks(f, chunkSize, divider);
    BlocksCover(f, chunkSize, divider);
    ChunkSizeCovers(f.size, divider);
    NothingBeyond(f.lines, f.size, 0, divider * chunkSize);
    assert divider * chunkSize == chunkSize * divider;
  }

  /** A range that yields rows starts inside the file; so `(divider - 1) * chunk_size < file_size`. */
  lemma YieldingRangesFit(f: File, divider: nat, i: nat)
    requires f.Valid() && divider > 0 && i < divider && f.size + divider < SIZE_T_MODULUS
    requires LoadChunk(f, PipelineRange(f.size, divider, i)) != []
    ensures i * ChunkSize(f.size, divider) < f.size
  {
    var r := PipelineRange(f.size, divider, i);
    if f.size <= r.start {
      NothingBeyond(f.lines, f.size, r.start, r.start + r.size);
    }
  }

  // ------------------------------------------------------------ thread tasks

  /** The part of `chunk_fn` that the main thread fills in. */
  class ChunkTask {
    var byteRanges: seq<Range>
    var firstRange: bool

    constructor ()
      ensures byteRanges == [] && !firstRange
    {
      byteRanges, firstRange := [], false;
    }

    method AddRange(start: nat, size: nat)
      modifies this
      ensures byteRanges == old(byteRanges) + [Range(start, size)]
      ensures firstRange == (old(firstRange) || start == 0)
    {
      byteRanges := byteRanges + [Range(start, size)];
      if !firstRange {
        firstRange := start == 0;
      }
    }

    /** The thread body run without interruption. */
    method Run(f: File) returns (aggData: seq<AggTable>)
      ensures aggData == TablesOf(f, byteRanges)
    {
      aggData := [];
      for i := 0 to |byteRanges|
        invariant aggData + TablesOf(f, byteRanges[i..]) == TablesOf(f, byteRanges)
      {
        var rows := LoadChunk(f, byteRanges[i]);
        TablesFrom(f, byteRanges, i);
        if rows == [] {
          continue;
        }
        var table := TableOfChunk(rows);
        ConcatAssociative(aggData, [table], TablesOf(f, byteRanges[i + 1..]));
        aggData := aggData + [table];
      }
      assert byteRanges[|byteRanges|..] == [];
    }
  }

  /** The tables a thread appends for its ranges; empty reads append nothing. */
  function TablesOf(f: File, ranges: seq<Range>): seq<AggTable> {
    if ranges == [] then []
    else
      var rows := LoadChunk(f, ranges[0]);
      (if rows == [] then [] else [SortedTable(rows, CHUNK_AGGS)]) + TablesOf(f, ranges[1..])
  }

  lemma TablesFrom(f: File, ranges: seq<Range>, i: nat)
    requires i < |ranges|
    ensures var rows, rest := LoadChunk(f, ranges[i]), TablesOf(f, ranges[i + 1..]);
        TablesOf(f, ranges[i..]) == if rows == [] then rest else [SortedTable(rows, CHUNK_AGGS)] + rest
  {
    assert ranges[i..][0] == ranges[i] && ranges[i..][1..] == ranges[i + 1..];
    var rest := TablesOf(f, ranges[i + 1..]);
    assert [] + rest == rest;
  }

  /** The ranges of each of `threads` tasks after the first `n` chunks were dealt out. */
  function Dealt(fileSize: nat, divider: nat, threads: nat, n: nat): (dealt: seq<seq<Range>>)
    requires divider > 0 && threads > 0
    ensures |dealt| == threads
  {
    if n == 0 then Empties<Range>(threads)
    else
      var before := Dealt(fileSize, divider, threads, n - 1);
      var t := (n - 1) % threads;
      before[t := before[t] + [PipelineRange(fileSize, divider, n - 1)]]
  }

  /** The task holds the ranges of chunks `t`, `t + threads`, `t + 2 * threads` and so on below `n`. */
  ghost predicate HoldsEvery(ranges: seq<Range>, fileSize: nat, divider: nat, threads: nat, t: nat, n: nat)
    requires divider > 0
  {
    && (forall k :: 0 <= k < |ranges| ==> ranges[k] == PipelineRange(fileSize, divider, t + k * threads))
    && n <= t + |ranges| * threads
    && (ranges != [] ==> t + (|ranges| - 1) * threads < n)
  }

  /** The task whose turn it is has had one chunk per round. */
  lemma RoundsSoFar(n: nat, threads: nat, dealt: nat)
    requires threads > 0 && n <= n % threads + dealt * threads
    requires dealt > 0 ==> n % threads + (dealt - 1) * threads < n
    ensures n == n % threads + dealt * threads
  {
    var q, r := n / threads, n % threads;
    assert n == q * threads + r;
    if dealt <= q - 1 {
      TimesMonotone(dealt + 1, q, threads);
    } else if q <= dealt - 1 {
      TimesMonotone(q, dealt - 1, threads);
    }
  }

  lemma NotYet(n: nat, threads: nat, t: nat, dealt: nat)
    requires 0 < threads && t < threads && t != n % threads && n <= t + dealt * threads
    ensures n + 1 <= t + dealt * threads
  {
    if n == t + dealt * threads {
      DivModBlock(dealt, t, threads);
    }
  }

  /** Every task is dealt every `threads`-th chunk, in order. */
  lemma {:induction false} DealtEvery(fileSize: nat, divider: nat, threads: nat, n: nat, t: nat)
    requires divider > 0 && t < threads
    ensures HoldsEvery(Dealt(fileSize, divider, threads, n)[t], fileSize, divider, threads, t, n)
  {
    if n > 0 {
      var before := Dealt(fileSize, divider, threads, n - 1)[t];
      DealtEvery(fileSize, divider, threads, n - 1, t);
      if t == (n - 1) % threads {
        RoundsSoFar(n - 1, threads, |before|);
        assert (|before| + 1) * threads == |before| * threads + threads;
      } else {
        NotYet(n - 1, threads, t, |before|);
      }
    }
  }

  /** Deals chunk `i` to task `i % threads`. */
  method AssignRanges(tasks: seq<ChunkTask>, fileSize: nat, divider: nat)
    requires tasks != [] && divider > 0
    requires forall t, u :: 0 <= t < u < |tasks| ==> tasks[t] != tasks[u]
    requires forall t :: 0 <= t < |tasks| ==> tasks[t].byteRanges == []
    modifies tasks
    ensures forall t :: 0 <= t < |tasks| ==> tasks[t].byteRanges == Dealt(fileSize, divider, |tasks|, divider)[t]
    ensures forall t :: 0 <= t < |tasks| ==>
        HoldsEvery(tasks[t].byteRanges, fileSize, divider, |tasks|, t, divider)
  {
    var chunkSize := ChunkSize(fileSize, divider);
    for i := 0 to divider
      invariant forall t :: 0 <= t < |tasks| ==> tasks[t].byteRanges == Dealt(fileSize, divider, |tasks|, i)[t]
    {
      var start: nat := i * chunkSize;
      var left := SubSizeT(fileSize, start);
      tasks[i % |tasks|].AddRange(start, if chunkSize <= left then chunkSize else left);
    }
    forall t | 0 <= t < |tasks| ensures HoldsEvery(tasks[t].byteRanges, fileSize, divider, |tasks|, t, divider) {
      DealtEvery(fileSize, divider, |tasks|, divider, t);
    }
  }

  /** Dealing loses no range and gives none out twice. */
  lemma {:induction false} DealtIsPermutation(fileSize: nat, divider: nat, threads: nat, n: nat)
    requires divider > 0 && threads > 0
    ensures multiset(Flatten(Dealt(fileSize, divider, threads, n))) == multiset(PipelineRanges(fileSize, divider, n))
  {
    if n == 0 {
      FlattenEmpties<Range>(threads);
    } else {
      DealtIsPermutation(fileSize, divider, threads, n - 1);
      var r := PipelineRange(fileSize, divider, n - 1);
      FlattenUpdate(Dealt(fileSize, divider, threads, n - 1), (n - 1) % threads, [r]);
      assert PipelineRanges(fileSize, divider, n) == PipelineRanges(fileSize, divider, n - 1) + [r];
    }
  }

  // -------------------------------------------------------- threads, stepwise

  /** One running thread: ranges left, the block just read if any, tables appended so far. */
  datatype Thread = Thread(todo: seq<Range>, loaded: Option<seq<Row>>, out: seq<AggTable>) {
    predicate Done() { todo == [] }

    /** The next atomic action: read the first range, or finish with the block read. */
    function Step(f: File): Thread
      requires !Done()
    {
      match loaded
      case None => this.(loaded := Some(LoadChunk(f, todo[0])))
      case Some(rows) =>
        Thread(todo[1..], None, if rows == [] then out else out + [SortedTable(rows, CHUNK_AGGS)])
    }

    ghost predicate Consistent(f: File) {
      loaded.Some? ==> todo != [] && loaded.value == LoadChunk(f, todo[0])
    }

    /** Actions left to take. */
    function Fuel(): nat { if todo == [] then 0 else 2 * |todo| - (if loaded.Some? then 1 else 0) }
  }

  function Started(dealt: seq<seq<Range>>): (ts: seq<Thread>)
    ensures |ts| == |dealt|
    ensures forall t :: 0 <= t < |ts| ==> ts[t] == Thread(dealt[t], None, [])
  {
    seq(|dealt|, t requires 0 <= t < |dealt| => Thread(dealt[t], None, []))
  }

  /** The scheduler lets the threads named in `schedule` act, one after the other. */
  ghost predicate Reaches(f: File, ts: seq<Thread>, schedule: seq<nat>, ts': seq<Thread>)
    decreases |schedule|
  {
    if schedule == [] then ts' == ts
    else
      var t := schedule[0];
      t < |ts| && !ts[t].Done() && Reaches(f, ts[t := ts[t].Step(f)], schedule[1..], ts')
  }

  predicate AllDone(ts: seq<Thread>) { forall t :: 0 <= t < |ts| ==> ts[t].Done() }

  ghost predicate AllConsistent(f: File, ts: seq<Thread>) {
    forall t :: 0 <= t < |ts| ==> ts[t].Consistent(f)
  }

  function FuelOf(): Thread -> nat { (th: Thread) => th.Fuel() }

  function TotalFuel(ts: seq<Thread>): nat { SumBy(ts, FuelOf()) }

  /** What a thread will have appended when it is done does not change as it runs. */
  lemma StepKeepsOutcome(f: File, th: Thread)
    requires !th.Done() && th.Consistent(f)
    ensures th.Step(f).Consistent(f) && th.Step(f).Fuel() == th.Fuel() - 1
    ensures th.Step(f).out + TablesOf(f, th.Step(f).todo) == th.out + TablesOf(f, th.todo)
  {
    if th.loaded.Some? && th.loaded.value != [] {
      var table := SortedTable(th.loaded.value, CHUNK_AGGS);
      assert th.out + ([table] + TablesOf(f, th.todo[1..])) == (th.out + [table]) + TablesOf(f, th.todo[1..]);
    }
  }

  /** Under every schedule, each thread ends with the tables of its own ranges, in order. */
  lemma {:induction false} ScheduleIndependent(f: File, ts: seq<Thread>, schedule: seq<nat>, ts': seq<Thread>)
    requires AllConsistent(f, ts) && Reaches(f, ts, schedule, ts')
    ensures |ts'| == |ts| && |schedule| == TotalFuel(ts) - TotalFuel(ts')
    ensures forall t :: 0 <= t < |ts| ==>
        ts'[t].out + TablesOf(f, ts'[t].todo) == ts[t].out + TablesOf(f, ts[t].todo)
    decreases |schedule|
  {
    if schedule != [] {
      var t := schedule[0];
      var next := ts[t := ts[t].Step(f)];
      StepKeepsOutcome(f, ts[t]);
      SumByUpdated(ts, t, ts[t].Step(f), FuelOf());
      ScheduleIndependent(f, next, schedule[1..], ts');
      forall u | 0 <= u < |ts|
        ensures next[u].out + TablesOf(f, next[u].todo) == ts[u].out + TablesOf(f, ts[u].todo)
      {
        assert next[u] == if u == t then ts[t].Step(f) else ts[u];
      }
    }
  }

  lemma StepUsesFuel(f: File, th: Thread)
    requires !th.Done()
    ensures th.Step(f).Fuel() < th.Fuel()
  {
  }

  /** No thread ever blocks: from any state some schedule runs all threads to their ends. */
  lemma {:induction false} CanFinish(f: File, ts: seq<Thread>) returns (schedule: seq<nat>, ts': seq<Thread>)
    ensures Reaches(f, ts, schedule, ts') && AllDone(ts')
    decreases TotalFuel(ts)
  {
    if AllDone(ts) {
      schedule, ts' := [], ts;
    } else {
      var t: nat :| t < |ts| && !ts[t].Done();
      StepUsesFuel(f, ts[t]);
      SumByUpdated(ts, t, ts[t].Step(f), FuelOf());
      var rest;
      rest, ts' := CanFinish(f, ts[t := ts[t].Step(f)]);
      schedule := [t] + rest;
      assert schedule[1..] == rest;
    }
  }

  // ------------------------------------------------------- combining results

  function Outputs(ts: seq<Thread>): (outs: seq<seq<AggTable>>)
    ensures |outs| == |ts|
  {
    seq(|ts|, t requires 0 <= t < |ts| => ts[t].out)
  }

  /** `divider` slots, filled from the front; the rest stay empty. */
  function Slots(tables: seq<AggTable>, divider: nat): (slots: seq<Option<AggTable>>)
    requires |tables| <= divider
    ensures |slots| == divider
  {
    seq(divider, i requires 0 <= i < divider => if i < |tables| then Some(tables[i]) else None)
  }

  /** Table `k` of thread `c` stands behind all tables of the threads before it; the slots behind the last are empty. */
  ghost predicate InThreadOrder(slots: seq<Option<AggTable>>, chunkResults: seq<seq<AggTable>>) {
    && (forall c, k :: 0 <= c < |chunkResults| && 0 <= k < |chunkResults[c]| ==> InSlot(slots, chunkResults, c, k))
    && forall i :: LengthBefore(chunkResults, |chunkResults|) <= i < |slots| ==> slots[i] == None
  }

  ghost predicate InSlot(slots: seq<Option<AggTable>>, chunkResults: seq<seq<AggTable>>, c: nat, k: nat)
    requires c < |chunkResults| && k < |chunkResults[c]|
  {
    var i := LengthBefore(chunkResults, c) + k;
    i < |slots| && slots[i] == Some(chunkResults[c][k])
  }

  lemma SlotsInOrder(chunkResults: seq<seq<AggTable>>, divider: nat)
    requires |Flatten(chunkResults)| <= divider
    ensures InThreadOrder(Slots(Flatten(chunkResults), divider), chunkResults)
  {
    var slots := Slots(Flatten(chunkResults), divider);
    FlattenLength(chunkResults);
    forall c, k | 0 <= c < |chunkResults| && 0 <= k < |chunkResults[c]| ensures InSlot(slots, chunkResults, c, k) {
      FlattenAt(chunkResults, c, k);
    }
  }

  /** Moves each thread's tables into one vector of `divider` slots. */
  method CombineResults(chunkResults: seq<seq<AggTable>>, divider: nat) returns (aggData: array<Option<AggTable>>)
    requires |Flatten(chunkResults)| <= divider
    ensures fresh(aggData) && aggData[..] == Slots(Flatten(chunkResults), divider)
    ensures aggData.Length == divider && InThreadOrder(aggData[..], chunkResults)
  {
    SlotsInOrder(chunkResults, divider);
    aggData := new Option<AggTable>[divider](_ => None);
    var begin := 0;
    assert chunkResults[..0] == [];
    for c := 0 to |chunkResults|
      invariant begin == |Flatten(chunkResults[..c])| <= divider
      invariant aggData[..] == Slots(Flatten(chunkResults[..c]), divider)
    {
      ghost var done := Flatten(chunkResults[..c]);
      assert chunkResults[..c + 1] == chunkResults[..c] + [chunkResults[c]];
      FlattenSnoc(chunkResults[..c], chunkResults[c]);
      assert chunkResults == chunkResults[..c + 1] + chunkResults[c + 1..];
      FlattenConcat(chunkResults[..c + 1], chunkResults[c + 1..]);
      for i := 0 to |chunkResults[c]|
        invariant aggData[..] == Slots(done + chunkResults[c][..i], divider)
      {
        aggData[begin + i] := Some(chunkResults[c][i]);
        assert chunkResults[c][..i + 1] == chunkResults[c][..i] + [chunkResults[c][i]];
      }
      assert chunkResults[c][..|chunkResults[c]|] == chunkResults[c];
      begin := begin + |chunkResults[c]|;
    }
    assert chunkResults[..|chunkResults|] == chunkResults;
  }

  lemma {:induction false} TablesOfConcat(f: File, a: seq<Range>, b: seq<Range>)
    ensures TablesOf(f, a + b) == TablesOf(f, a) + TablesOf(f, b)
  {
    if a == [] {
      assert a + b == b;
    } else {
      assert (a + b)[0] == a[0] && (a + b)[1..] == a[1..] + b;
      TablesOfConcat(f, a[1..], b);
    }
  }

  lemma TablesOfRemove(f: File, b: seq<Range>, k: nat)
    requires k < |b|
    ensures multiset(TablesOf(f, b)) == multiset(TablesOf(f, [b[k]])) + multiset(TablesOf(f, b[..k] + b[k + 1..]))
  {
    assert b == b[..k] + ([b[k]] + b[k + 1..]);
    TablesOfConcat(f, b[..k], [b[k]] + b[k + 1..]);
    TablesOfConcat(f, [b[k]], b[k + 1..]);
    TablesOfConcat(f, b[..k], b[k + 1..]);
  }

  lemma {:induction false} TablesOfPermuted(f: File, a: seq<Range>, b: seq<Range>)
    requires multiset(a) == multiset(b)
    ensures multiset(TablesOf(f, a)) == multiset(TablesOf(f, b))
  {
    if a == [] {
      SameLength(a, b);
    } else {
      var k := MatchHead(a, b);
      TablesOfPermuted(f, a[1..], b[..k] + b[k + 1..]);
      TablesOfRemove(f, b, k);
      TablesOfRemove(f, a, 0);
      assert a[..0] + a[1..] == a[1..];
    }
  }

  lemma {:induction false} TablesOfFlatten(f: File, dealt: seq<seq<Range>>)
    ensures Flatten(seq(|dealt|, t requires 0 <= t < |dealt| => TablesOf(f, dealt[t]))) == TablesOf(f, Flatten(dealt))
  {
    var tables := seq(|dealt|, t requires 0 <= t < |dealt| => TablesOf(f, dealt[t]));
    if dealt != [] {
      TablesOfFlatten(f, dealt[1..]);
      TablesOfConcat(f, dealt[0], Flatten(dealt[1..]));
      assert tables[1..] == seq(|dealt[1..]|, t requires 0 <= t < |dealt[1..]| => TablesOf(f, dealt[1..][t]));
    }
  }

  lemma {:induction false} TablesOfBound(f: File, ranges: seq<Range>)
    ensures |TablesOf(f, ranges)| <= |ranges|
    ensures |TablesOf(f, ranges)| == |ranges| <==> forall i :: 0 <= i < |ranges| ==> LoadChunk(f, ranges[i]) != []
  {
    if ranges != [] {
      TablesOfBound(f, ranges[1..]);
      assert forall i :: 0 < i < |ranges| ==> ranges[i] == ranges[1..][i - 1];
    }
  }

  ghost predicate AllYield(loads: seq<seq<Row>>) { forall i :: 0 <= i < |loads| ==> loads[i] != [] }

  lemma {:induction false} YieldingTables(f: File, ranges: seq<Range>)
    requires AllYield(Loads(f, ranges))
    ensures |TablesOf(f, ranges)| == |ranges|
    ensures Image(TablesOf(f, ranges), t => Some(t)) == ChunkTables(Loads(f, ranges))
  {
    if ranges != [] {
      var loads := Loads(f, ranges);
      assert loads[0] != [];
      assert Loads(f, ranges[1..]) == loads[1..];
      YieldingTables(f, ranges[1..]);
      var rest := Image(TablesOf(f, ranges[1..]), t => Some(t));
      forall i | 0 < i < |ranges| ensures Some(TablesOf(f, ranges)[i]) == ChunkTables(loads)[i] {
        assert TablesOf(f, ranges)[i] == TablesOf(f, ranges[1..])[i - 1];
        assert rest[i - 1] == ChunkTables(loads[1..])[i - 1];
      }
    }
  }

  /** The tables of every single thread, whatever the schedule was. */
  lemma EachOutput(f: File, dealt: seq<seq<Range>>, schedule: seq<nat>, ts: seq<Thread>)
    requires Reaches(f, Started(dealt), schedule, ts) && AllDone(ts)
    ensures |schedule| == 2 * |Flatten(dealt)|
    ensures Outputs(ts) == seq(|dealt|, t requires 0 <= t < |dealt| => TablesOf(f, dealt[t]))
  {
    var start := Started(dealt);
    ScheduleIndependent(f, start, schedule, ts);
    FuelAtStart(dealt);
    FuelAtEnd(ts, f, schedule, start);
    forall t | 0 <= t < |dealt| ensures Outputs(ts)[t] == TablesOf(f, dealt[t]) {
      var th := ts[t];
      assert th.todo == [] && TablesOf(f, th.todo) == [];
      assert th.out + [] == th.out;
      assert start[t].out + TablesOf(f, dealt[t]) == TablesOf(f, dealt[t]);
    }
  }

  /** The tables of all threads together, whatever the schedule was. */
  lemma AllOutputs(f: File, divider: nat, threads: nat, schedule: seq<nat>, ts: seq<Thread>)
    requires divider > 0 && threads > 0
    requires Reaches(f, Started(Dealt(f.size, divider, threads, divider)), schedule, ts) && AllDone(ts)
    ensures multiset(Flatten(Outputs(ts))) == multiset(TablesOf(f, PipelineRanges(f.size, divider, divider)))
    ensures |Flatten(Outputs(ts))| <= divider
    ensures |schedule| == 2 * divider
  {
    var dealt := Dealt(f.size, divider, threads, divider);
    var ranges := PipelineRanges(f.size, divider, divider);
    EachOutput(f, dealt, schedule, ts);
    TablesOfFlatten(f, dealt);
    DealtIsPermutation(f.size, divider, threads, divider);
    SameLength(Flatten(dealt), ranges);
    TablesOfPermuted(f, Flatten(dealt), ranges);
    TablesOfBound(f, Flatten(dealt));
  }

  lemma {:induction false} FuelAtStart(dealt: seq<seq<Range>>)
    ensures TotalFuel(Started(dealt)) == 2 * |Flatten(dealt)|
  {
    if dealt != [] {
      FuelAtStart(dealt[1..]);
      assert Started(dealt)[1..] == Started(dealt[1..]);
    }
  }

  lemma {:induction false} ReachesKeepsConsistent(f: File, ts: seq<Thread>, schedule: seq<nat>, ts': seq<Thread>)
    requires AllConsistent(f, ts) && Reaches(f, ts, schedule, ts')
    ensures AllConsistent(f, ts')
    decreases |schedule|
  {
    if schedule != [] {
      var t := schedule[0];
      StepKeepsOutcome(f, ts[t]);
      ReachesKeepsConsistent(f, ts[t := ts[t].Step(f)], schedule[1..], ts');
    }
  }

  lemma {:induction false} NoFuelLeft(ts: seq<Thread>)
    requires forall t :: 0 <= t < |ts| ==> ts[t].todo == [] && ts[t].loaded.None?
    ensures TotalFuel(ts) == 0
  {
    if ts != [] {
      NoFuelLeft(ts[1..]);
    }
  }

  lemma FuelAtEnd(ts: seq<Thread>, f: File, schedule: seq<nat>, start: seq<Thread>)
    requires AllConsistent(f, start) && Reaches(f, start, schedule, ts) && AllDone(ts)
    ensures TotalFuel(ts) == 0
  {
    ReachesKeepsConsistent(f, start, schedule, ts);
    NoFuelLeft(ts);
  }

  /** A file whose ranges all yield rows: the filled slots are the chunk tables, reordered. */
  lemma SlotsWhenAllYield(f: File, divider: nat, tables: seq<AggTable>)
    requires divider > 0
    requires multiset(tables) == multiset(TablesOf(f, PipelineRanges(f.size, divider, divider)))
    requires AllYield(Loads(f, PipelineRanges(f.size, divider, divider)))
    ensures |tables| == divider
    ensures multiset(Slots(tables, divider))
        == multiset(ChunkTables(Loads(f, PipelineRanges(f.size, divider, divider))))
  {
    var ranges := PipelineRanges(f.size, divider, divider);
    YieldingTables(f, ranges);
    SameLength(tables, TablesOf(f, ranges));
    ImagePermuted(tables, TablesOf(f, ranges), t => Some(t));
    assert Slots(tables, divider) == Image(tables, t => Some(t));
  }

  lemma {:induction false} EveryTableWellFormed(f: File, ranges: seq<Range>)
    ensures forall t :: t in TablesOf(f, ranges) ==> WellFormed(t)
  {
    if ranges != [] {
      EveryTableWellFormed(f, ranges[1..]);
      ChunkTableWellFormed(LoadChunk(f, ranges[0]));
    }
  }

  lemma SlotsWellFormed(f: File, ranges: seq<Range>, tables: seq<AggTable>, divider: nat)
    requires multiset(tables) == multiset(TablesOf(f, ranges)) && |tables| <= divider
    ensures AllWellFormed(Slots(tables, divider))
  {
    EveryTableWellFormed(f, ranges);
    forall i | 0 <= i < |tables| ensures WellFormed(tables[i]) {
      assert tables[i] in multiset(tables);
      assert tables[i] in TablesOf(f, ranges);
    }
  }

  /**
    The whole pipeline, for every schedule: its answer is the single-pass answer
    exactly when every range yields rows and every city occurs in every range.
   */
  lemma PipelineIsSinglePassIff(f: File, divider: nat, threads: nat, schedule: seq<nat>, ts: seq<Thread>)
    requires f.Valid() && divider > 0 && threads > 0 && f.size + divider < SIZE_T_MODULUS
    requires Reaches(f, Started(Dealt(f.size, divider, threads, divider)), schedule, ts) && AllDone(ts)
    ensures |Flatten(Outputs(ts))| <= divider && AllWellFormed(Slots(Flatten(Outputs(ts)), divider))
    ensures var loads := Loads(f, PipelineRanges(f.size, divider, divider));
            FinalAggregates(Slots(Flatten(Outputs(ts)), divider)) == Success(SinglePass(AllRows(f)))
            <==> AllYield(loads) && EveryCityEverywhere(loads)
    ensures var loads := Loads(f, PipelineRanges(f.size, divider, divider));
            AnswersRows(FinalAggregates(Slots(Flatten(Outputs(ts)), divider)), AllRows(f))
            <==> AllYield(loads) && EveryCityEverywhere(loads)
  {
    var ranges := PipelineRanges(f.size, divider, divider);
    var loads := Loads(f, ranges);
    var tables := Flatten(Outputs(ts));
    AllOutputs(f, divider, threads, schedule, ts);
    SlotsWellFormed(f, ranges, tables, divider);
    AnswersRowsIff(FinalAggregates(Slots(tables, divider)), AllRows(f));
    if AllYield(loads) {
      SlotsWhenAllYield(f, divider, tables);
      FinalAggregatesPermuted(Slots(tables, divider), ChunkTables(loads));
      ChunkedIsSinglePassIff(loads);
      PipelineReadsWholeFile(f, divider);
    } else {
      SlotsLeftEmpty(f, ranges, tables, divider);
    }
  }

  /** An empty read leaves a slot without a table, on which the merge fails. */
  lemma SlotsLeftEmpty(f: File, ranges: seq<Range>, tables: seq<AggTable>, divider: nat)
    requires multiset(tables) == multiset(TablesOf(f, ranges)) && |ranges| == divider >= |tables|
    requires !AllYield(Loads(f, ranges)) && AllWellFormed(Slots(tables, divider))
    ensures FinalAggregates(Slots(tables, divider)) == Failure
  {
    TablesOfBound(f, ranges);
    SameLength(tables, TablesOf(f, ranges));
    assert exists i :: 0 <= i < |ranges| && LoadChunk(f, ranges[i]) == [];
    assert Slots(tables, divider)[|tables|] == None;
  }

  /** On the file with a gap, a slot stays empty under every schedule, and the merge fails. */
  lemma EmptySlotExample(first: Row, last: Row, threads: nat, schedule: seq<nat>, ts: seq<Thread>)
    requires threads > 0
    requires Reaches(GapFile(first, last), Started(Dealt(30, 3, threads, 3)), schedule, ts) && AllDone(ts)
    ensures |Flatten(Outputs(ts))| <= 3 && AllWellFormed(Slots(Flatten(Outputs(ts)), 3))
    ensures FinalAggregates(Slots(Flatten(Outputs(ts)), 3)) == Failure
  {
    var f := GapFile(first, last);
    var ranges := PipelineRanges(30, 3, 3);
    GapRanges();
    GapLoads(first, last);
    NextRange(30, 3, 1);
    assert ranges[1] == PipelineRange(30, 3, 1) == Range(10, 10);
    assert Loads(f, ranges)[1] == [];
    AllOutputs(f, 3, threads, schedule, ts);
    SlotsWellFormed(f, ranges, Flatten(Outputs(ts)), 3);
    SlotsLeftEmpty(f, ranges, Flatten(Outputs(ts)), 3);
  }

  // -------------------------------------------- pipeline against chunk loop

  /** A range that starts inside the file is the chunk loop's next range. */
  lemma NextRange(fileSize: nat, divider: nat, i: nat)
    requires divider > 0 && fileSize < SIZE_T_MODULUS && i * ChunkSize(fileSize, divider) < fileSize
    ensures ChunkSize(fileSize, divider) > 0
    ensures var size := ChunkSize(fileSize, divider);
        ChunkRanges(i * size, size, fileSize)
            == [PipelineRange(fileSize, divider, i)] + ChunkRanges((i + 1) * size, size, fileSize)
  {
    var size := ChunkSize(fileSize, divider);
    ChunkSizeCovers(fileSize, divider);
    NoWrap(fileSize, i * size);
    assert (i + 1) * size == i * size + size;
  }

  /** When every range yields rows, the pipeline's ranges are the chunk loop's. */
  lemma {:induction false} SameRangesAsLoop(f: File, divider: nat, i: nat)
    requires f.Valid() && divider > 0 && i <= divider && f.size + divider < SIZE_T_MODULUS
    requires AllYield(Loads(f, PipelineRanges(f.size, divider, divider)))
    ensures ChunkSize(f.size, divider) > 0
    ensures ChunkRanges(i * ChunkSize(f.size, divider), ChunkSize(f.size, divider), f.size)
         == PipelineRanges(f.size, divider, divider)[i..]
    decreases divider - i
  {
    var ranges := PipelineRanges(f.size, divider, divider);
    YieldingStart(f, divider, 0);
    ChunkSizeCovers(f.size, divider);
    if i < divider {
      YieldingStart(f, divider, i);
      NextRange(f.size, divider, i);
      SameRangesAsLoop(f, divider, i + 1);
      assert ranges[i..] == [ranges[i]] + ranges[i + 1..];
    } else {
      assert divider * ChunkSize(f.size, divider) == ChunkSize(f.size, divider) * divider;
    }
  }

  lemma YieldingStart(f: File, divider: nat, i: nat)
    requires f.Valid() && divider > 0 && i < divider && f.size + divider < SIZE_T_MODULUS
    requires AllYield(Loads(f, PipelineRanges(f.size, divider, divider)))
    ensures i * ChunkSize(f.size, divider) < f.size
  {
    var ranges := PipelineRanges(f.size, divider, divider);
    assert LoadChunk(f, ranges[i]) == Loads(f, ranges)[i] != [];
    YieldingRangesFit(f, divider, i);
  }

  lemma {:induction false} UntilEmptyOfYielding(loads: seq<seq<Row>>)
    requires AllYield(loads)
    ensures UntilEmpty(loads) == loads
  {
    if loads != [] {
      assert loads[0] != [];
      UntilEmptyOfYielding(loads[1..]);
    }
  }

  lemma LoopPartsWhenAllYield(f: File, divider: nat)
    requires f.Valid() && divider > 0 && f.size + divider < SIZE_T_MODULUS
    requires AllYield(Loads(f, PipelineRanges(f.size, divider, divider)))
    ensures (divider - 1) * ChunkSize(f.size, divider) < f.size
    ensures LoopParts(f, divider) == Loads(f, PipelineRanges(f.size, divider, divider))
  {
    var ranges := PipelineRanges(f.size, divider, divider);
    YieldingStart(f, divider, divider - 1);
    SameRangesAsLoop(f, divider, 0);
    assert ranges[0..] == ranges;
    UntilEmptyOfYielding(Loads(f, ranges));
    ChunkSizeCovers(f.size, divider);
  }

  /** Every schedule of the pipeline agrees with the sequential chunk loop when every range yields rows. */
  lemma PipelineIsChunkLoop(f: File, divider: nat, threads: nat, schedule: seq<nat>, ts: seq<Thread>)
    requires f.Valid() && divider > 0 && threads > 0 && f.size + divider < SIZE_T_MODULUS
    requires Reaches(f, Started(Dealt(f.size, divider, threads, divider)), schedule, ts) && AllDone(ts)
    requires AllYield(Loads(f, PipelineRanges(f.size, divider, divider)))
    ensures |Flatten(Outputs(ts))| == divider && (divider - 1) * ChunkSize(f.size, divider) < f.size
    ensures AllWellFormed(Slots(Flatten(Outputs(ts)), divider)) && AllWellFormed(ChunkTables(LoopParts(f, divider)))
    ensures FinalAggregates(Slots(Flatten(Outputs(ts)), divider)) == FinalAggregates(ChunkTables(LoopParts(f, divider)))
  {
    var loads := Loads(f, PipelineRanges(f.size, divider, divider));
    AllOutputs(f, divider, threads, schedule, ts);
    SlotsWhenAllYield(f, divider, Flatten(Outputs(ts)));
    LoopPartsWhenAllYield(f, divider);
    ChunkTablesWellFormed(loads);
    FinalAggregatesPermuted(ChunkTables(loads), Slots(Flatten(Outputs(ts)), divider));
  }
}
