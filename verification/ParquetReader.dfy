/**
  The multithreaded parquet reader: thread `t` sweeps the sources t, t+n, t+2n, ...,
  concatenates what it read and stores it in its own slot of a shared vector.
 */
module ParquetReader {
  import opened Outcomes
  import opened Sequences
  import opened Arithmetic

  // ------------------------------------------------------------------- tables

  type Row = seq<int>

  datatype Table = Table(columns: nat, rows: seq<Row>)

  function RowsOf(): Table -> seq<Row> { (t: Table) => t.rows }

  /** `cudf::concatenate`: an empty table for an empty list; unequal numbers of columns throw. */
  function ConcatenateViews(ts: seq<Table>): Result<Table> {
    if ts == [] then Success(Table(0, []))
    else if forall i :: 0 <= i < |ts| ==>
        ts[i].columns == ts[0].columns then Success(Table(ts[0].columns, Flatten(Image(ts, RowsOf()))))
    else Failure
  }

  /** Row `k` of table `i` stands behind all rows of the tables before it, and there are no others. */
  ghost predicate IsConcatenation(rows: seq<Row>, ts: seq<Table>) {
    && |rows| == RowsBefore(ts, |ts|)
    && forall i, k :: 0 <= i < |ts| && 0 <= k < |ts[i].rows| ==> RowPlaced(rows, ts, i, k)
  }

  ghost predicate RowPlaced(rows: seq<Row>, ts: seq<Table>, i: nat, k: nat)
    requires i < |ts| && k < |ts[i].rows|
  {
    RowsBefore(ts, i) + k < |rows| && rows[RowsBefore(ts, i) + k] == ts[i].rows[k]
  }

  function RowsBefore(ts: seq<Table>, i: nat): nat
    requires i <= |ts|
  {
    if i == 0 then 0 else RowsBefore(ts, i - 1) + |ts[i - 1].rows|
  }

  lemma {:induction false} BlocksBefore(ts: seq<Table>, i: nat)
    requires i <= |ts|
    ensures LengthBefore(Image(ts, RowsOf()), i) == RowsBefore(ts, i)
  {
    if i > 0 {
      BlocksBefore(ts, i - 1);
    }
  }

  lemma RowInBlock(ts: seq<Table>, i: nat, k: nat)
    requires i < |ts| && k < |ts[i].rows|
    ensures RowPlaced(Flatten(Image(ts, RowsOf())), ts, i, k)
  {
    assert Image(ts, RowsOf())[i] == ts[i].rows;
    BlocksBefore(ts, i);
    FlattenAt(Image(ts, RowsOf()), i, k);
  }

  lemma RowsConcatenated(ts: seq<Table>)
    ensures IsConcatenation(Flatten(Image(ts, RowsOf())), ts)
  {
    var blocks := Image(ts, RowsOf());
    FlattenLength(blocks);
    BlocksBefore(ts, |ts|);
    forall i, k | 0 <= i < |ts| && 0 <= k < |ts[i].rows| ensures RowPlaced(Flatten(blocks), ts, i, k) {
      RowInBlock(ts, i, k);
    }
  }

  /** `concatenate_tables`: a single table is handed through. */
  method ConcatenateTables(ts: seq<Table>) returns (r: Result<Table>)
    ensures r == ConcatenateViews(ts)
    ensures r.Success? <==> forall i, j :: 0 <= i < j < |ts| ==> ts[i].columns == ts[j].columns
    ensures r.Success? ==> IsConcatenation(r.value.rows, ts)
    ensures r.Success? ==> r.value.columns == if ts == [] then 0 else ts[0].columns
  {
    RowsConcatenated(ts);
    if |ts| == 1 {
      assert Image(ts, RowsOf()) == [ts[0].rows];
      assert Flatten([ts[0].rows]) == ts[0].rows + Flatten<Row>([]) == ts[0].rows;
      return Success(ts[0]);
    }
    r := ConcatenateViews(ts);
  }

  // ------------------------------------------------------------------ strides

  /** The sources one thread sweeps. */
  function Stride(from: nat, step: nat, n: nat): (r: seq<nat>)
    requires step > 0
    ensures forall i :: 0 <= i < |r| ==> r[i] < n
    decreases n - from
  {
    if from >= n then [] else [from] + Stride(from + step, step, n)
  }

  lemma NextStep(from: nat, step: nat, k: nat)
    ensures from + step + k * step == from + (k + 1) * step
  {
  }

  /** The sources `from`, `from + step`, `from + 2 * step` and so on, as long as there are any. */
  lemma {:induction false} StrideAt(from: nat, step: nat, n: nat)
    requires step > 0
    ensures forall k :: 0 <= k < |Stride(from, step, n)| ==> Stride(from, step, n)[k] == from + k * step
    ensures from + |Stride(from, step, n)| * step >= n
    decreases n - from
  {
    if from < n {
      var rest := Stride(from + step, step, n);
      StrideAt(from + step, step, n);
      NextStep(from, step, |rest|);
      forall k | 0 <= k < |Stride(from, step, n)| ensures Stride(from, step, n)[k] == from + k * step {
        if k > 0 {
          NextStep(from, step, k - 1);
        }
      }
    }
  }

  function Strides(step: nat, n: nat): (r: seq<seq<nat>>)
    requires step > 0
    ensures |r| == step && forall t :: 0 <= t < step ==> r[t] == Stride(t, step, n)
  {
    seq(step, t requires 0 <= t < step => Stride(t, step, n))
  }

  function Numbers(n: nat): (r: seq<nat>)
    ensures |r| == n && forall i :: 0 <= i < n ==> r[i] == i
  {
    seq(n, i requires 0 <= i < n => i)
  }

  /** One more source lengthens the stride of thread `n % step` and no other. */
  lemma {:induction false} StrideGrows(from: nat, step: nat, n: nat)
    requires step > 0
    ensures Stride(from, step, n + 1) == Stride(from, step, n) + if from <= n && (n - from) % step == 0 then [n] else []
    decreases n - from
  {
    if from < n {
      StrideGrows(from + step, step, n);
      assert n - from == (n - (from + step)) + step;
      RemainderPlus(n - (from + step), step);
      if n < from + step {
        SmallRemainder(n - from, step);
      }
    } else if from == n {
      assert Stride(from + step, step, n + 1) == [];
    }
  }

  lemma StridesGrow(step: nat, n: nat)
    requires step > 0
    ensures var t := n % step; Strides(step, n + 1) == Strides(step, n)[t := Strides(step, n)[t] + [n]]
  {
    var t, before := n % step, Strides(step, n);
    var after := before[t := before[t] + [n]];
    forall s | 0 <= s < step ensures Strides(step, n + 1)[s] == after[s] {
      StrideGrows(s, step, n);
      SameRemainder(n, step, s);
      assert before[s] + [] == before[s];
    }
  }

  lemma StrideAdded(step: nat, n: nat)
    requires step > 0
    ensures multiset(Flatten(Strides(step, n + 1))) == multiset(Flatten(Strides(step, n))) + multiset([n])
  {
    StridesGrow(step, n);
    FlattenUpdate(Strides(step, n), n % step, [n]);
  }

  lemma NumbersGrow(n: nat)
    ensures multiset(Numbers(n + 1)) == multiset(Numbers(n)) + multiset([n])
  {
    assert Numbers(n + 1) == Numbers(n) + [n];
  }

  lemma NoSources(step: nat)
    requires step > 0
    ensures Flatten(Strides(step, 0)) == [] && Numbers(0) == []
  {
    FlattenEmpties<nat>(step);
    assert Strides(step, 0) == Empties<nat>(step);
  }

  /** Every source is in exactly one stride, once. */
  lemma {:induction false} StridesPartition(step: nat, n: nat)
    requires step > 0
    ensures multiset(Flatten(Strides(step, n))) == multiset(Numbers(n))
  {
    if n == 0 {
      NoSources(step);
    } else {
      StridesPartition(step, n - 1);
      StrideAdded(step, n - 1);
      NumbersGrow(n - 1);
    }
  }

  // ------------------------------------------------------------------ threads

  /** What one thread has reached: the next source, the tables read, and whether it has stored its result. */
  datatype Thread = Thread(cursor: nat, local: seq<Table>, stored: bool)

  /** One place of the shared vector: empty, or what its thread stored. */
  type Slot = Option<Result<Table>>

  /** All threads, the shared vector of tables, and the sources read so far, in order. */
  datatype State = State(threads: seq<Thread>, slots: seq<Slot>, swept: seq<nat>)

  function Started(count: nat): (s: State)
    ensures |s.threads| == count && |s.slots| == count && s.swept == []
    ensures forall t :: 0 <= t < count ==> s.threads[t] == Thread(t, [], false) && s.slots[t] == None
  {
    State(seq(count, t requires 0 <= t < count => Thread(t, [], false)), seq(count, t => None), [])
  }

  /** Thread `t` reads its next source, or stores the concatenation of what it read. */
  function Step(sources: seq<Table>, s: State, t: nat): State
    requires t < |s.threads| == |s.slots| && !s.threads[t].stored
  {
    var th := s.threads[t];
    if th.cursor < |sources|
    then State(s.threads[t := Thread(th.cursor + |s.threads|, th.local + [sources[th.cursor]], false)], s.slots,
               s.swept + [th.cursor])
    else State(s.threads[t := th.(stored := true)], s.slots[t := Some(ConcatenateViews(th.local))], s.swept)
  }

  ghost predicate Reaches(sources: seq<Table>, s: State, schedule: seq<nat>, s': State)
    requires |s.threads| == |s.slots|
    decreases |schedule|
  {
    if schedule == [] then s' == s
    else
      var t := schedule[0];
      t < |s.threads| && !s.threads[t].stored && Reaches(sources, Step(sources, s, t), schedule[1..], s')
  }

  predicate AllStored(s: State) { forall t :: 0 <= t < |s.threads| ==> s.threads[t].stored }

  function SourceAt(sources: seq<Table>): nat -> Table {
    (i: nat) => if i < |sources| then sources[i] else Table(0, [])
  }

  /** The tables a thread still has to read. */
  function Ahead(sources: seq<Table>, cursor: nat, count: nat): seq<Table>
    requires count > 0
  {
    Image(Stride(cursor, count, |sources|), SourceAt(sources))
  }

  /** What thread `t` will have read is fixed; its slot is empty until it stores exactly that. */
  ghost predicate OnCourse(sources: seq<Table>, s: State, t: nat)
    requires t < |s.threads| == |s.slots|
  {
    var th, count := s.threads[t], |s.threads|;
    && th.local + Ahead(sources, th.cursor, count) == Ahead(sources, t, count)
    && (th.stored ==> th.cursor >= |sources|)
    && s.slots[t] == if th.stored then Some(ConcatenateViews(Ahead(sources, t, count))) else None
  }

  ghost predicate Consistent(sources: seq<Table>, s: State) {
    |s.threads| == |s.slots| > 0 && forall t :: 0 <= t < |s.threads| ==> OnCourse(sources, s, t)
  }

  function Remaining(s: State, n: nat): (r: seq<seq<nat>>)
    requires s.threads != []
    ensures |r| == |s.threads| && forall t :: 0 <= t < |r| ==> r[t] == Stride(s.threads[t].cursor, |s.threads|, n)
  {
    seq(|s.threads|, t requires 0 <= t < |s.threads| => Stride(s.threads[t].cursor, |s.threads|, n))
  }

  /** A step keeps every thread on course and writes no other thread's slot. */
  lemma StepKeeps(sources: seq<Table>, s: State, t: nat)
    requires Consistent(sources, s) && t < |s.threads| && !s.threads[t].stored
    ensures Consistent(sources, Step(sources, s, t))
    ensures forall u :: 0 <= u < |s.slots| && u != t ==> Step(sources, s, t).slots[u] == s.slots[u]
  {
    var s', th, count := Step(sources, s, t), s.threads[t], |s.threads|;
    assert OnCourse(sources, s, t);
    if th.cursor < |sources| {
      AheadStep(sources, th.cursor, count);
      assert s'.threads[t].local + Ahead(sources, th.cursor + count, count)
          == th.local + Ahead(sources, th.cursor, count);
    } else {
      assert th.local + [] == th.local;
      assert Ahead(sources, th.cursor, count) == [];
    }
    forall u | 0 <= u < count && u != t ensures OnCourse(sources, s', u) {
      assert OnCourse(sources, s, u);
    }
  }

  lemma AheadStep(sources: seq<Table>, cursor: nat, count: nat)
    requires count > 0 && cursor < |sources|
    ensures Ahead(sources, cursor, count) == [sources[cursor]] + Ahead(sources, cursor + count, count)
  {
    ImageConcat([cursor], Stride(cursor + count, count, |sources|), SourceAt(sources));
  }

  /** Reads done plus reads ahead are the same sources before and after a step. */
  lemma StepReads(sources: seq<Table>, s: State, t: nat)
    requires Consistent(sources, s) && t < |s.threads| && !s.threads[t].stored
    ensures var s' := Step(sources, s, t);
        multiset(s'.swept) + multiset(Flatten(Remaining(s', |sources|)))
        == multiset(s.swept) + multiset(Flatten(Remaining(s, |sources|)))
  {
    var s', th, count := Step(sources, s, t), s.threads[t], |s.threads|;
    var before, after := Remaining(s, |sources|), Remaining(s', |sources|);
    if th.cursor < |sources| {
      assert after == before[t := before[t][1..]];
      FlattenDropHead(before, t);
    } else {
      assert after == before;
    }
  }

  /** Under every schedule: threads stay on course, and no source is read twice or lost. */
  lemma {:induction false} ScheduleKeeps(sources: seq<Table>, s: State, schedule: seq<nat>, s': State)
    requires Consistent(sources, s) && Reaches(sources, s, schedule, s')
    ensures Consistent(sources, s') && |s'.threads| == |s.threads|
    ensures multiset(s'.swept) + multiset(Flatten(Remaining(s', |sources|)))
         == multiset(s.swept) + multiset(Flatten(Remaining(s, |sources|)))
    decreases |schedule|
  {
    if schedule != [] {
      var t := schedule[0];
      StepKeeps(sources, s, t);
      StepReads(sources, s, t);
      ScheduleKeeps(sources, Step(sources, s, t), schedule[1..], s');
    }
  }

  lemma StartedConsistent(sources: seq<Table>, count: nat)
    requires count > 0
    ensures Consistent(sources, Started(count))
    ensures Remaining(Started(count), |sources|) == Strides(count, |sources|)
  {
    forall t | 0 <= t < count ensures OnCourse(sources, Started(count), t) {
      assert [] + Ahead(sources, t, count) == Ahead(sources, t, count);
    }
  }

  /** The tables each thread reads. */
  function Shares(sources: seq<Table>, count: nat): (r: seq<seq<Table>>)
    requires count > 0
    ensures |r| == count && forall t :: 0 <= t < count ==> r[t] == Ahead(sources, t, count)
  {
    seq(count, t requires 0 <= t < count => Ahead(sources, t, count))
  }

  /**
    When all threads have finished, whatever the schedule: the slots are fixed and each
    source was read exactly once.
   */
  lemma AllSchedulesAgree(sources: seq<Table>, count: nat, schedule: seq<nat>, s: State)
    requires count > 0 && Reaches(sources, Started(count), schedule, s) && AllStored(s)
    ensures |s.slots| == count
    ensures forall t :: 0 <= t < count ==> s.slots[t] == Some(ConcatenateViews(Shares(sources, count)[t]))
    ensures multiset(s.swept) == multiset(Numbers(|sources|))
  {
    StartedConsistent(sources, count);
    ScheduleKeeps(sources, Started(count), schedule, s);
    StoredSlots(sources, s);
    NothingRemains(s, |sources|);
    StridesPartition(count, |sources|);
    var all := multiset(Flatten(Strides(count, |sources|)));
    assert multiset(Started(count).swept) + all == all;
    assert multiset(s.swept) + multiset(Flatten(Remaining(s, |sources|))) == multiset(s.swept);
  }

  /** Steps a thread has left, of `count` threads over `n` sources. */
  function StepsLeft(count: nat, n: nat): Thread -> nat
    requires count > 0
  {
    (th: Thread) => if th.stored then 0 else 1 + |Stride(th.cursor, count, n)|
  }

  /** No thread ever blocks: from any state some schedule lets all threads store their results. */
  lemma {:induction false} CanFinish(sources: seq<Table>, s: State) returns (schedule: seq<nat>, s': State)
    requires |s.threads| == |s.slots| > 0
    ensures Reaches(sources, s, schedule, s') && AllStored(s')
    decreases SumBy(s.threads, StepsLeft(|s.threads|, |sources|))
  {
    if AllStored(s) {
      schedule, s' := [], s;
    } else {
      var t: nat :| t < |s.threads| && !s.threads[t].stored;
      var next := Step(sources, s, t);
      SumByUpdated(s.threads, t, next.threads[t], StepsLeft(|s.threads|, |sources|));
      assert next.threads == s.threads[t := next.threads[t]];
      var rest;
      rest, s' := CanFinish(sources, next);
      schedule := [t] + rest;
      assert schedule[1..] == rest;
    }
  }

  lemma StoredSlots(sources: seq<Table>, s: State)
    requires Consistent(sources, s) && AllStored(s)
    ensures forall t :: 0 <= t < |s.slots| ==> s.slots[t] == Some(ConcatenateViews(Shares(sources, |s.slots|)[t]))
    ensures forall t :: 0 <= t < |s.slots| ==> s.threads[t].cursor >= |sources|
  {
    forall t | 0 <= t < |s.slots|
      ensures s.slots[t] == Some(ConcatenateViews(Shares(sources, |s.slots|)[t])) && s.threads[t].cursor >= |sources|
    {
      assert OnCourse(sources, s, t) && s.threads[t].stored;
    }
  }

  lemma NothingRemains(s: State, n: nat)
    requires s.threads != [] && forall t :: 0 <= t < |s.threads| ==> s.threads[t].cursor >= n
    ensures Flatten(Remaining(s, n)) == []
  {
    FlattenEmpties<nat>(|s.threads|);
    assert Remaining(s, n) == Empties<nat>(|s.threads|);
  }

  // ------------------------------------------------------------- thread tasks

  /** What becomes of the tables that are read. */
  datatype ReadMode = NO_CONCATENATE | CONCATENATE_THREAD | CONCATENATE_ALL

  /** The functor of one reading thread. */
  class ReadFn {
    const inputSources: seq<Table>
    const threadId: nat
    const threadCount: nat
    const mode: ReadMode

    constructor (sources: seq<Table>, id: nat, count: nat, mode: ReadMode)
      requires id < count
      ensures inputSources == sources && threadId == id && threadCount == count && this.mode == mode
    {
      inputSources, threadId, threadCount, this.mode := sources, id, count, mode;
    }

    /** The sweep over the thread's sources. */
    method Sweep() returns (tablesThisThread: seq<Table>)
      requires threadId < threadCount
      ensures tablesThisThread == Shares(inputSources, threadCount)[threadId]
    {
      tablesThisThread := [];
      var cursor := threadId;
      while cursor < |inputSources|
        invariant tablesThisThread + Ahead(inputSources, cursor, threadCount)
            == Shares(inputSources, threadCount)[threadId]
        decreases |inputSources| - cursor
      {
        AheadStep(inputSources, cursor, threadCount);
        ConcatAssociative(tablesThisThread, [inputSources[cursor]],
                          Ahead(inputSources, cursor + threadCount, threadCount));
        tablesThisThread := tablesThisThread + [inputSources[cursor]];
        cursor := cursor + threadCount;
      }
      assert Ahead(inputSources, cursor, threadCount) == [];
      assert tablesThisThread + [] == tablesThisThread;
    }

    /** The thread body run without interruption: fills its own slot, if tables are kept at all, and no other. */
    method Run(tables: array<Slot>)
      requires threadId < threadCount == tables.Length
      modifies tables
      ensures tables[threadId] == if mode == NO_CONCATENATE then old(tables[threadId])
                                  else Some(ConcatenateViews(Shares(inputSources, threadCount)[threadId]))
      ensures forall u :: 0 <= u < tables.Length && u != threadId ==> tables[u] == old(tables[u])
    {
      var tablesThisThread := Sweep();
      if mode != NO_CONCATENATE {
        var table := ConcatenateTables(tablesThisThread);
        tables[threadId] := Some(table);
      }
    }
  }

  // ------------------------------------------------------------- whole reads

  /** The tables in the slots; an exception in a thread, or an empty slot, is a failure. */
  function SlotTables(slots: seq<Slot>): (r: Result<seq<Table>>)
    ensures r.Success? ==> |r.value| == |slots| && forall t :: 0 <= t < |slots| ==>
        slots[t] == Some(Success(r.value[t]))
    ensures r.Failure? ==> exists t :: 0 <= t < |slots| && (slots[t].None? || slots[t].value.Failure?)
  {
    if slots == [] then Success([])
    else if slots[0].None? || slots[0].value.Failure? then Failure
    else
      match SlotTables(slots[1..])
      case Failure => Failure
      case Success(rest) => Success([slots[0].value.value] + rest)
  }

  /** CONCATENATE_ALL: all slots in one table. */
  function ConcatenateAll(slots: seq<Slot>): Result<Table> {
    match SlotTables(slots)
    case Failure => Failure
    case Success(tables) => ConcatenateViews(tables)
  }

  /** What the slots hold when all threads are done. */
  function FinalSlots(sources: seq<Table>, count: nat): (slots: seq<Slot>)
    requires count > 0
    ensures |slots| == count
    ensures forall t :: 0 <= t < count ==> slots[t] == Some(ConcatenateViews(Shares(sources, count)[t]))
  {
    seq(count, t requires 0 <= t < count => Some(ConcatenateViews(Shares(sources, count)[t])))
  }

  lemma FinalState(sources: seq<Table>, count: nat, schedule: seq<nat>, s: State)
    requires count > 0 && Reaches(sources, Started(count), schedule, s) && AllStored(s)
    ensures s.slots == FinalSlots(sources, count)
  {
    AllSchedulesAgree(sources, count, schedule, s);
  }

  /** Starts and joins the threads: here each runs to its end before the next starts, in any order. */
  method RunThreads(sources: seq<Table>, threadCount: nat, mode: ReadMode, order: seq<nat>)
      returns (tables: array<Slot>)
    requires threadCount > 0 && Enumerates(order, threadCount)
    ensures fresh(tables) && tables.Length == threadCount
    ensures mode == NO_CONCATENATE ==> forall t :: 0 <= t < threadCount ==> tables[t] == None
    ensures mode != NO_CONCATENATE ==> tables[..] == FinalSlots(sources, threadCount)
  {
    tables := new Slot[threadCount](_ => None);
    for i := 0 to |order|
      invariant fresh(tables)
      invariant forall t :: 0 <= t < threadCount ==>
          tables[t] == if mode != NO_CONCATENATE && t in order[..i] then FinalSlots(sources, threadCount)[t] else None
    {
      assert order[i] in order;
      var task := new ReadFn(sources, order[i], threadCount, mode);
      task.Run(tables);
      assert order[..i + 1] == order[..i] + [order[i]];
    }
    assert order[..|order|] == order;
  }

  /** What the caller gets: nothing, one table per thread, or one table. */
  function ReadResult(slots: seq<Slot>, mode: ReadMode): seq<Slot> {
    match mode
    case NO_CONCATENATE => seq(|slots|, _ => None)
    case CONCATENATE_THREAD => slots
    case CONCATENATE_ALL => [Some(ConcatenateAll(slots))]
  }

  /** The slots of every schedule that finishes are those of the threads run one after the other. */
  method ReadParquetMultithreaded(sources: seq<Table>, threadCount: nat, mode: ReadMode, order: seq<nat>)
      returns (r: seq<Slot>)
    requires threadCount > 0 && Enumerates(order, threadCount)
    ensures r == ReadResult(FinalSlots(sources, threadCount), mode)
    ensures forall schedule, s :: Reaches(sources, Started(threadCount), schedule, s) && AllStored(s) ==>
        && (mode == CONCATENATE_THREAD ==> r == s.slots)
        && (mode == CONCATENATE_ALL ==> r == [Some(ConcatenateAll(s.slots))])
    ensures mode == NO_CONCATENATE ==> |r| == threadCount && forall t :: 0 <= t < threadCount ==> r[t] == None
  {
    var tables := RunThreads(sources, threadCount, mode, order);
    r := tables[..];
    if mode == CONCATENATE_ALL {
      var all := SlotTables(tables[..]);
      if all.Success? {
        var final := ConcatenateTables(all.value);
        r := [Some(final)];
      } else {
        r := [Some(Failure)];
      }
    }
    forall schedule, s | Reaches(sources, Started(threadCount), schedule, s) && AllStored(s)
      ensures s.slots == FinalSlots(sources, threadCount)
    {
      FinalState(sources, threadCount, schedule, s);
    }
  }

  ghost predicate AllHaveColumns(ts: seq<Table>, columns: nat) {
    forall i :: 0 <= i < |ts| ==> ts[i].columns == columns
  }

  function AllRows(ts: seq<Table>): seq<Row> { Flatten(Image(ts, RowsOf())) }

  lemma ShareColumns(sources: seq<Table>, count: nat, columns: nat, t: nat)
    requires count > 0 && t < count && AllHaveColumns(sources, columns)
    ensures var share := Shares(sources, count)[t];
        && (share == [] <==> t >= |sources|)
        && ConcatenateViews(share) == Success(Table(if share == [] then 0 else columns, AllRows(share)))
  {
    var share := Shares(sources, count)[t];
    assert share == [] <==> Stride(t, count, |sources|) == [];
  }

  /** The rows of all shares are the rows of all sources. */
  lemma SharesHaveAllRows(sources: seq<Table>, count: nat)
    requires count > 0
    ensures multiset(Flatten(FlattenEach(Images(Shares(sources, count), RowsOf())))) == multiset(AllRows(sources))
  {
    var strides, at := Strides(count, |sources|), SourceAt(sources);
    assert Shares(sources, count) == Images(strides, at);
    ImageFlatten(strides, at);
    StridesPartition(count, |sources|);
    ImagePermuted(Flatten(strides), Numbers(|sources|), at);
    assert Image(Numbers(|sources|), at) == sources;
    SharedRows(Shares(sources, count), sources);
  }

  lemma SharedRows(shares: seq<seq<Table>>, sources: seq<Table>)
    requires multiset(Flatten(shares)) == multiset(sources)
    ensures multiset(Flatten(FlattenEach(Images(shares, RowsOf())))) == multiset(AllRows(sources))
  {
    FlattenTwice(Images(shares, RowsOf()));
    ImageFlatten(shares, RowsOf());
    ImagePermuted(Flatten(shares), sources, RowsOf());
    FlattenPermuted(Image(Flatten(shares), RowsOf()), Image(sources, RowsOf()));
  }

  /** The tables the threads leave when every thread has a source. */
  lemma SlotTablesOfShares(sources: seq<Table>, count: nat, columns: nat)
    requires 0 < count <= |sources| && AllHaveColumns(sources, columns)
    ensures SlotTables(FinalSlots(sources, count)).Success?
    ensures var tables := SlotTables(FinalSlots(sources, count)).value;
        && |tables| == count && AllHaveColumns(tables, columns)
        && Image(tables, RowsOf()) == FlattenEach(Images(Shares(sources, count), RowsOf()))
  {
    forall t | 0 <= t < count
      ensures FinalSlots(sources, count)[t] == Some(Success(Table(columns, AllRows(Shares(sources, count)[t]))))
    {
      ShareColumns(sources, count, columns, t);
    }
  }

  /** With a source for every thread, CONCATENATE_ALL holds exactly the rows of all sources. */
  lemma ReadHasAllRows(sources: seq<Table>, count: nat, columns: nat)
    requires 0 < count <= |sources| && AllHaveColumns(sources, columns)
    ensures ConcatenateAll(FinalSlots(sources, count)).Success?
    ensures ConcatenateAll(FinalSlots(sources, count)).value.columns == columns
    ensures multiset(ConcatenateAll(FinalSlots(sources, count)).value.rows) == multiset(AllRows(sources))
  {
    SlotTablesOfShares(sources, count, columns);
    SharesHaveAllRows(sources, count);
  }

  /** A thread without sources stores a table without columns, and then concatenating throws. */
  lemma ReadSucceedsIff(sources: seq<Table>, count: nat, columns: nat)
    requires count > 0 && sources != [] && columns > 0 && AllHaveColumns(sources, columns)
    ensures ConcatenateAll(FinalSlots(sources, count)).Success? <==> count <= |sources|
  {
    if count <= |sources| {
      ReadHasAllRows(sources, count, columns);
    } else {
      ShareColumns(sources, count, columns, 0);
      ShareColumns(sources, count, columns, |sources|);
      var slots := FinalSlots(sources, count);
      if SlotTables(slots).Success? {
        var tables := SlotTables(slots).value;
        assert slots[0] == Some(Success(tables[0])) && slots[|sources|] == Some(Success(tables[|sources|]));
        assert tables[0].columns == columns && tables[|sources|].columns == 0;
      }
    }
  }

  /** One source for two threads: nothing to concatenate for the second, and the whole read throws. */
  lemma IdleThreadExample(source: Table)
    requires source.columns > 0
    ensures ConcatenateAll(FinalSlots([source], 2)) == Failure
  {
    ReadSucceedsIff([source], 2, source.columns);
  }
}
