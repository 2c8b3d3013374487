/**
  The transcoding run: input files repeated to feed every thread, one table per
  thread written to its own file, the files read back, and the final check.
 */
module ParquetTranscode {
  import opened Outcomes
  import opened Sequences
  import opened Totals
  import opened Arithmetic
  import opened Decimals
  import opened ParquetReader

  // ------------------------------------------------------------ input sources

  /** `m` files, going round and round through `found`. */
  function Cycle<T>(found: seq<T>, m: nat): (r: seq<T>)
    requires found != []
    ensures |r| == m && forall i :: 0 <= i < m ==> r[i] == found[i % |found|]
  {
    seq(m, i requires 0 <= i < m => found[i % |found|])
  }

  lemma RemainderOfSum(m: nat, n: nat, a: nat)
    requires n > 0 && m % n == 0
    ensures (m + a) % n == a % n
  {
    RemainderUnique(m + a, n, m / n + a / n, a % n);
  }

  lemma TimesRemainder(k: nat, n: nat)
    requires n > 0
    ensures (k * n) % n == 0
  {
    RemainderUnique(k * n, n, k, 0);
  }

  /** One more round: the first files again. */
  lemma CycleRound<T>(found: seq<T>, m: nat)
    requires found != [] && m % |found| == 0
    ensures Cycle(found, m) + found == Cycle(found, m + |found|)
  {
    forall j | 0 <= j < |found| ensures Cycle(found, m + |found|)[m + j] == found[j] {
      RemainderOfSum(m, |found|, j);
      RemainderUnique(j, |found|, 0, j);
    }
  }

  lemma CycleNext<T>(found: seq<T>, m: nat, idx: nat)
    requires found != [] && m % |found| == 0 && m > 0
    ensures idx % |found| < m + idx
    ensures Cycle(found, m + idx) + [Cycle(found, m + idx)[idx % |found|]] == Cycle(found, m + idx + 1)
  {
    var n := |found|;
    RemainderOfSum(m, n, idx);
    RemainderUnique(idx % n, n, 0, idx % n);
    PositiveMultiple(m, n);
  }

  lemma PositiveMultiple(m: nat, n: nat)
    requires n > 0 && m % n == 0 && m > 0
    ensures m >= n
  {
    if m < n {
      RemainderUnique(m, n, 0, m);
    }
  }

  lemma NextMultiple(k: nat, n: nat)
    ensures k * n + n == (k + 1) * n
    ensures k > 0 ==> k * n >= n
  {
  }

  lemma FirstRound<T>(found: seq<T>, m: nat)
    requires found != [] && m >= |found|
    ensures Cycle(found, m)[..|found|] == found
  {
    forall i | 0 <= i < |found| ensures Cycle(found, m)[i] == found[i] {
      RemainderUnique(i, |found|, 0, i);
    }
  }

  /** The list repeated `inputMultiplier` times. */
  method RepeatFiles(found: seq<string>, inputMultiplier: nat) returns (files: seq<string>)
    requires inputMultiplier > 0 && found != []
    ensures files == Cycle(found, inputMultiplier * |found|)
  {
    files := found;
    FirstRound(found, |found|);
    assert Cycle(found, |found|) == found;
    ghost var m := |found|;
    for i := 1 to inputMultiplier
      invariant m == i * |found| && m >= |found| && m % |found| == 0
      invariant files == Cycle(found, m)
    {
      NextMultiple(i, |found|);
      CycleRound(found, m);
      FirstRound(found, m);
      files := files + files[..|found|];
      m := m + |found|;
      TimesRemainder(i + 1, |found|);
    }
  }

  /** The list of files to read: `inputMultiplier` rounds, then more until every thread has one. */
  method ExtractInputSources(found: seq<string>, inputMultiplier: nat, threadCount: nat) returns (files: seq<string>)
    requires inputMultiplier > 0
    ensures found == [] ==> files == []
    ensures found != [] ==> files == Cycle(found, Max(inputMultiplier * |found|, threadCount))
  {
    var initialSize := |found|;
    if initialSize == 0 {
      return [];
    }
    files := RepeatFiles(found, inputMultiplier);
    var idx := 0;
    ghost var m := inputMultiplier * initialSize;
    TimesRemainder(inputMultiplier, initialSize);
    NextMultiple(inputMultiplier, initialSize);
    while threadCount > |files|
      invariant files == Cycle(found, m + idx) && (idx > 0 ==> |files| <= threadCount)
      decreases threadCount - |files|
    {
      CycleNext(found, m, idx);
      files := files + [files[idx % initialSize]];
      idx := idx + 1;
    }
  }

  // ------------------------------------------------------------------- copies

  /** `k` copies, one after the other. */
  function Copies<T>(s: seq<T>, k: nat): seq<T> {
    if k == 0 then [] else Copies(s, k - 1) + s
  }

  /** Whole rounds are copies. */
  lemma {:induction false} RoundsAreCopies<T>(found: seq<T>, k: nat)
    requires found != []
    ensures Cycle(found, k * |found|) == Copies(found, k)
  {
    if k > 0 {
      RoundsAreCopies(found, k - 1);
      TimesRemainder(k - 1, |found|);
      NextMultiple(k - 1, |found|);
      CycleRound(found, (k - 1) * |found|);
    }
  }

  lemma {:induction false} CopiesPermuted<T>(a: seq<T>, b: seq<T>, k: nat)
    requires multiset(a) == multiset(b)
    ensures multiset(Copies(a, k)) == multiset(Copies(b, k))
  {
    if k > 0 {
      CopiesPermuted(a, b, k - 1);
    }
  }

  lemma {:induction false} CopiesImage<A, B>(s: seq<A>, k: nat, f: A -> B)
    ensures Image(Copies(s, k), f) == Copies(Image(s, f), k)
  {
    if k > 0 {
      CopiesImage(s, k - 1, f);
      ImageConcat(Copies(s, k - 1), s, f);
    }
  }

  lemma {:induction false} CopiesFlatten<T>(ss: seq<seq<T>>, k: nat)
    ensures Flatten(Copies(ss, k)) == Copies(Flatten(ss), k)
  {
    if k > 0 {
      CopiesFlatten(ss, k - 1);
      FlattenConcat(Copies(ss, k - 1), ss);
    }
  }

  /** Every element occurs `k` times as often. */
  lemma {:induction false} CopiesCount<T>(s: seq<T>, k: nat, x: T)
    ensures multiset(Copies(s, k))[x] == k * multiset(s)[x]
  {
    if k > 0 {
      CopiesCount(s, k - 1, x);
      CountConcat(Copies(s, k - 1), s, x);
      TimesSuccessor(k - 1, multiset(s)[x]);
    }
  }

  lemma {:induction false} CopiesLength<T>(s: seq<T>, k: nat)
    ensures |Copies(s, k)| == k * |s|
  {
    if k > 0 {
      CopiesLength(s, k - 1);
    }
  }

  // ------------------------------------------------------------------ writing

  /** The file thread `id` writes. */
  function PathOf(outputPath: string, id: nat): string {
    outputPath + "/table_" + ToString(id) + ".parquet"
  }

  lemma PathsDiffer(outputPath: string, i: nat, j: nat)
    requires PathOf(outputPath, i) == PathOf(outputPath, j)
    ensures i == j
  {
    var front := outputPath + "/table_";
    var a, b := ToString(i), ToString(j);
    var back := ".parquet";
    assert PathOf(outputPath, i)[|front|..] == a + back && PathOf(outputPath, j)[|front|..] == b + back;
    assert |a| == |b|;
    assert (a + back)[..|a|] == a && (b + back)[..|b|] == b;
    ToStringValue(i);
    ToStringValue(j);
  }

  type Directory = map<string, Table>

  /** The directory after the threads in `order` have written, one after the other. */
  function Written(outputPath: string, views: seq<Table>, order: seq<nat>): Directory
    requires forall k :: 0 <= k < |order| ==> order[k] < |views|
  {
    if order == [] then map[]
    else
      var n := |order| - 1;
      Written(outputPath, views, order[..n])[PathOf(outputPath, order[n]) := views[order[n]]]
  }

  lemma {:induction false} WrittenKeys(outputPath: string, views: seq<Table>, order: seq<nat>)
    requires forall k :: 0 <= k < |order| ==> order[k] < |views|
    ensures forall p ::
        p in Written(outputPath, views, order) <==> exists k :: 0 <= k < |order| && PathOf(outputPath, order[k]) == p
  {
    if order != [] {
      var n := |order| - 1;
      WrittenKeys(outputPath, views, order[..n]);
      assert forall k :: 0 <= k < n ==> order[..n][k] == order[k];
    }
  }

  /** Each thread's file holds its table, whatever the order. */
  lemma {:induction false} WrittenHolds(outputPath: string, views: seq<Table>, order: seq<nat>, t: nat)
    requires forall k :: 0 <= k < |order| ==> order[k] < |views|
    requires t in order
    ensures PathOf(outputPath, t) in Written(outputPath, views, order)
    ensures Written(outputPath, views, order)[PathOf(outputPath, t)] == views[t]
  {
    var n := |order| - 1;
    if PathOf(outputPath, t) == PathOf(outputPath, order[n]) {
      PathsDiffer(outputPath, t, order[n]);
    } else {
      var k :| 0 <= k < |order| && order[k] == t;
      assert order[..n][k] == t;
      WrittenHolds(outputPath, views, order[..n], t);
    }
  }

  function Paths(outputPath: string, count: nat): (r: seq<string>)
    ensures |r| == count && forall t :: 0 <= t < count ==> r[t] == PathOf(outputPath, t)
  {
    seq(count, t requires 0 <= t < count => PathOf(outputPath, t))
  }

  lemma OrderCovers(order: seq<nat>, n: nat)
    requires multiset(order) == multiset(Numbers(n))
    ensures forall k :: 0 <= k < |order| ==> order[k] < n
    ensures forall t :: 0 <= t < n ==> t in order
  {
    forall k | 0 <= k < |order| ensures order[k] < n {
      assert order[k] in multiset(order);
      assert order[k] in Numbers(n);
    }
    forall t | 0 <= t < n ensures t in order {
      assert Numbers(n)[t] in multiset(order);
    }
  }

  /** All threads write, in any order: one file per thread. */
  lemma WrittenByAll(outputPath: string, views: seq<Table>, order: seq<nat>)
    requires multiset(order) == multiset(Numbers(|views|))
    ensures forall k :: 0 <= k < |order| ==> order[k] < |views|
    ensures forall t :: 0 <= t < |views| ==>
        && PathOf(outputPath, t) in Written(outputPath, views, order)
        && Written(outputPath, views, order)[PathOf(outputPath, t)] == views[t]
    ensures forall p :: p in Written(outputPath, views, order) ==>
        exists t :: 0 <= t < |views| && PathOf(outputPath, t) == p
  {
    OrderCovers(order, |views|);
    WrittenKeys(outputPath, views, order);
    forall t | 0 <= t < |views|
      ensures PathOf(outputPath, t) in Written(outputPath, views, order)
      ensures Written(outputPath, views, order)[PathOf(outputPath, t)] == views[t]
    {
      WrittenHolds(outputPath, views, order, t);
    }
  }

  function ReadFrom(dir: Directory): string -> Table {
    (p: string) => if p in dir then dir[p] else Table(0, [])
  }

  /** Reading the paths back gives the tables that were written. */
  lemma ReadBack(outputPath: string, views: seq<Table>, order: seq<nat>)
    requires multiset(order) == multiset(Numbers(|views|))
    ensures forall k :: 0 <= k < |order| ==> order[k] < |views|
    ensures Image(Paths(outputPath, |views|), ReadFrom(Written(outputPath, views, order))) == views
  {
    WrittenByAll(outputPath, views, order);
    var paths := Paths(outputPath, |views|);
    assert Image(paths, ReadFrom(Written(outputPath, views, order))) == views;
  }

  // ------------------------------------------------------------------ checking

  /** The rows of `l` that do not occur in `r`. */
  function LeftAntiJoin(l: seq<Row>, r: seq<Row>): seq<Row> {
    if l == [] then [] else (if l[0] in r then [] else [l[0]]) + LeftAntiJoin(l[1..], r)
  }

  /** The rows on the left that do not occur on the right, each as often as it occurs and in order. */
  lemma {:induction false} AntiJoinPicks(l: seq<Row>, r: seq<Row>)
    ensures Picks(LeftAntiJoin(l, r), l, row => row !in r)
  {
    var lonely := row => row !in r;
    if l == [] {
      PicksNone(lonely);
    } else {
      AntiJoinPicks(l[1..], r);
      PicksFirst(LeftAntiJoin(l[1..], r), l, lonely);
    }
  }

  /** The check looks at rows of the left table only, and not at how often they occur. */
  lemma {:induction false} AntiJoinEmptyIff(l: seq<Row>, r: seq<Row>)
    ensures LeftAntiJoin(l, r) == [] <==> forall i :: 0 <= i < |l| ==> l[i] in r
  {
    if l != [] {
      AntiJoinEmptyIff(l[1..], r);
      if l[0] in r {
        assert LeftAntiJoin(l, r) == LeftAntiJoin(l[1..], r);
        assert forall i :: 0 < i < |l| ==> l[i] == l[1..][i - 1];
      }
    }
  }

  method CheckTablesEqual(l: Table, r: Table) returns (valid: bool)
    ensures valid <==> forall i :: 0 <= i < |l.rows| ==> l.rows[i] in r.rows
  {
    AntiJoinEmptyIff(l.rows, r.rows);
    valid := |LeftAntiJoin(l.rows, r.rows)| == 0;
  }

  // ------------------------------------------------------------------ the run

  /** The tables written come back, each `multiplier` times, for any order of the directory listing. */
  lemma ListedBack(outputPath: string, views: seq<Table>, order: seq<nat>, listing: seq<string>, multiplier: nat)
    requires multiset(order) == multiset(Numbers(|views|)) && views != [] && multiplier > 0
    requires multiset(listing) == multiset(Paths(outputPath, |views|))
    ensures forall k :: 0 <= k < |order| ==> order[k] < |views|
    ensures listing != [] && |listing| == |views| && Max(multiplier * |listing|, |views|) == multiplier * |listing|
    ensures multiset(Image(Cycle(listing, multiplier * |listing|), ReadFrom(Written(outputPath, views, order))))
         == multiset(Copies(views, multiplier))
  {
    SameLength(listing, Paths(outputPath, |views|));
    NextMultiple(multiplier, |views|);
    OrderCovers(order, |views|);
    var read := ReadFrom(Written(outputPath, views, order));
    RoundsAreCopies(listing, multiplier);
    CopiesPermuted(listing, Paths(outputPath, |views|), multiplier);
    ImagePermuted(Copies(listing, multiplier), Copies(Paths(outputPath, |views|), multiplier), read);
    CopiesImage(Paths(outputPath, |views|), multiplier, read);
    ReadBack(outputPath, views, order);
  }

  lemma RowsOfCopies(tables: seq<Table>, views: seq<Table>, multiplier: nat)
    requires multiset(tables) == multiset(Copies(views, multiplier))
    ensures multiset(AllRows(tables)) == multiset(Copies(AllRows(views), multiplier))
  {
    ImagePermuted(tables, Copies(views, multiplier), RowsOf());
    FlattenPermuted(Image(tables, RowsOf()), Image(Copies(views, multiplier), RowsOf()));
    CopiesImage(views, multiplier, RowsOf());
    CopiesFlatten(Image(views, RowsOf()), multiplier);
  }

  lemma {:induction false} CopiesMember<T>(s: seq<T>, k: nat, x: T)
    ensures x in Copies(s, k) ==> x in s
    ensures k > 0 && x in s ==> x in Copies(s, k)
  {
    if k > 0 {
      CopiesMember(s, k - 1, x);
    }
  }

  lemma CopiesColumns(tables: seq<Table>, views: seq<Table>, multiplier: nat, columns: nat)
    requires multiset(tables) == multiset(Copies(views, multiplier)) && AllHaveColumns(views, columns)
    ensures AllHaveColumns(tables, columns)
  {
    forall i | 0 <= i < |tables| ensures tables[i].columns == columns {
      assert tables[i] in multiset(tables);
      assert tables[i] in Copies(views, multiplier);
      CopiesMember(views, multiplier, tables[i]);
    }
  }

  /** The files of the second read. */
  function SecondSources(outputPath: string, views: seq<Table>, order: seq<nat>, listing: seq<string>,
                         multiplier: nat): seq<Table>
    requires (forall k :: 0 <= k < |order| ==> order[k] < |views|) && listing != []
  {
    Image(Cycle(listing, Max(multiplier * |listing|, |views|)), ReadFrom(Written(outputPath, views, order)))
  }

  /**
    One transcoding run: the orders in which threads wrote and the directory was listed,
    and the final state of the readers.
   */
  ghost predicate SecondRead(outputPath: string, views: seq<Table>, order: seq<nat>, listing: seq<string>,
                             multiplier: nat,
                             schedule: seq<nat>, s: State)
  {
    && views != []
    && multiset(order) == multiset(Numbers(|views|)) && (forall k :: 0 <= k < |order| ==> order[k] < |views|)
    && multiset(listing) == multiset(Paths(outputPath, |views|)) && listing != []
    && Reaches(SecondSources(outputPath, views, order, listing, multiplier), Started(|views|), schedule, s)
    && AllStored(s)
  }

  /**
    Whatever the schedules and the listing order: what is read back is exactly
    `multiplier` copies of what was written.
   */
  lemma TranscodedRows(outputPath: string, views: seq<Table>, order: seq<nat>, listing: seq<string>, multiplier: nat,
                       schedule: seq<nat>, s: State, columns: nat)
    requires multiplier > 0 && AllHaveColumns(views, columns)
    requires SecondRead(outputPath, views, order, listing, multiplier, schedule, s)
    ensures ConcatenateViews(views).Success? && ConcatenateViews(views).value.rows == AllRows(views)
    ensures ConcatenateAll(s.slots).Success?
    ensures multiset(ConcatenateAll(s.slots).value.rows) == multiset(Copies(AllRows(views), multiplier))
  {
    var sources := SecondSources(outputPath, views, order, listing, multiplier);
    ListedBack(outputPath, views, order, listing, multiplier);
    NextMultiple(multiplier, |views|);
    CopiesColumns(sources, views, multiplier, columns);
    FinalState(sources, |views|, schedule, s);
    ReadHasAllRows(sources, |views|, columns);
    RowsOfCopies(sources, views, multiplier);
  }

  /** The final check passes on every run. */
  lemma CheckPasses(input: seq<Row>, transcoded: seq<Row>, multiplier: nat)
    requires multiplier > 0 && multiset(transcoded) == multiset(Copies(input, multiplier))
    ensures LeftAntiJoin(input, transcoded) == []
  {
    SameMembers(transcoded, Copies(input, multiplier));
    forall i | 0 <= i < |input| ensures input[i] in transcoded {
      CopiesMember(input, multiplier, input[i]);
    }
    AntiJoinEmptyIff(input, transcoded);
  }

  /** The tables really hold the same rows exactly when nothing was multiplied, or there was nothing. */
  lemma SameRowsIff(input: seq<Row>, transcoded: seq<Row>, multiplier: nat)
    requires multiplier > 0 && multiset(transcoded) == multiset(Copies(input, multiplier))
    ensures multiset(input) == multiset(transcoded) <==> multiplier == 1 || input == []
  {
    if multiset(input) == multiset(transcoded) {
      SameLength(input, Copies(input, multiplier));
      CopiesLength(input, multiplier);
      if input != [] && multiplier > 1 {
        SeveralTimes(multiplier, |input|);
      }
    }
    if multiplier == 1 {
      assert Copies(input, 1) == Copies(input, 0) + input == input;
    }
    if input == [] {
      CopiesLength(input, multiplier);
      assert Copies(input, multiplier) == [];
    }
  }

  /** One row, twice: the check passes and the tables differ. */
  lemma RowTwiceExample(row: Row)
    ensures LeftAntiJoin([row], Copies([row], 2)) == [] && multiset([row]) != multiset(Copies([row], 2))
  {
    SameRowsIff([row], Copies([row], 2), 2);
    assert Copies([row], 2) == Copies([row], 1) + [row];
    AntiJoinEmptyIff([row], Copies([row], 2));
  }

  lemma SeveralTimes(k: nat, n: nat)
    requires k > 1 && n > 0
    ensures k * n > n
  {
  }

  /**
    The validating run as a whole: with a source for every thread, the first read
    gives one table per thread, and after writing and reading back the check passes.
   */
  lemma TranscodeValidates(sources: seq<Table>, count: nat, columns: nat, first: seq<nat>, s1: State,
                           outputPath: string,
                           order: seq<nat>, listing: seq<string>, multiplier: nat, second: seq<nat>, s2: State)
    requires 0 < count <= |sources| && AllHaveColumns(sources, columns) && multiplier > 0
    requires Reaches(sources, Started(count), first, s1) && AllStored(s1)
    requires SlotTables(s1.slots).Success? ==>
        SecondRead(outputPath, SlotTables(s1.slots).value, order, listing, multiplier, second, s2)
    ensures SlotTables(s1.slots).Success? && ConcatenateViews(SlotTables(s1.slots).value).Success?
    ensures ConcatenateAll(s2.slots).Success?
    ensures var input := ConcatenateViews(SlotTables(s1.slots).value).value.rows;
        var transcoded := ConcatenateAll(s2.slots).value.rows;
        && multiset(input) == multiset(AllRows(sources))
        && multiset(transcoded) == multiset(Copies(input, multiplier))
        && LeftAntiJoin(input, transcoded) == []
  {
    FinalState(sources, count, first, s1);
    SlotTablesOfShares(sources, count, columns);
    ReadHasAllRows(sources, count, columns);
    var views := SlotTables(s1.slots).value;
    TranscodedRows(outputPath, views, order, listing, multiplier, second, s2, columns);
    CheckPasses(AllRows(views), ConcatenateAll(s2.slots).value.rows, multiplier);
  }

  /** The writing threads, here one after the other in any order. */
  method WriteParquetMultithreaded(outputPath: string, views: seq<Table>, order: seq<nat>) returns (dir: Directory)
    requires forall k :: 0 <= k < |order| ==> order[k] < |views|
    ensures dir == Written(outputPath, views, order)
  {
    dir := map[];
    for i := 0 to |order|
      invariant dir == Written(outputPath, views, order[..i])
    {
      assert order[..i + 1][..i] == order[..i];
      dir := dir[PathOf(outputPath, order[i]) := views[order[i]]];
    }
    assert order[..|order|] == order;
  }

  /** What one run leaves open: the orders of its threads, of the writes and of the directory listing. */
  datatype Orders = Orders(first: seq<nat>, writes: seq<nat>, listing: seq<string>, second: seq<nat>) {
    ghost predicate Possible(outputPath: string, threadCount: nat) {
      && Enumerates(first, threadCount) && Enumerates(second, threadCount)
      && multiset(writes) == multiset(Numbers(threadCount))
      && multiset(listing) == multiset(Paths(outputPath, threadCount))
    }
  }

  /** The two reads of the run, for some schedules of their threads. */
  lemma BothReads(sources: seq<Table>, threadCount: nat, columns: nat, outputPath: string, orders: Orders,
                  multiplier: nat, views: seq<Table>, read: seq<Table>)
    requires 0 < threadCount <= |sources| && AllHaveColumns(sources, columns) && multiplier > 0
    requires orders.Possible(outputPath, threadCount)
    requires SlotTables(FinalSlots(sources, threadCount)) == Success(views)
    requires (forall k :: 0 <= k < |orders.writes| ==> orders.writes[k] < |views|) && orders.listing != []
    requires read == SecondSources(outputPath, views, orders.writes, orders.listing, multiplier)
    ensures ConcatenateViews(views).Success? && ConcatenateAll(FinalSlots(read, threadCount)).Success?
    ensures var input, transcoded := ConcatenateViews(views).value.rows,
                                     ConcatenateAll(FinalSlots(read, threadCount)).value.rows;
        && multiset(input) == multiset(AllRows(sources))
        && multiset(transcoded) == multiset(Copies(input, multiplier))
        && forall i :: 0 <= i < |input| ==> input[i] in transcoded
  {
    var first, s1 := CanFinish(sources, Started(threadCount));
    FinalState(sources, threadCount, first, s1);
    var second, s2 := CanFinish(read, Started(threadCount));
    FinalState(read, threadCount, second, s2);
    TranscodeValidates(sources, threadCount, columns, first, s1, outputPath, orders.writes, orders.listing, multiplier,
                       second, s2);
    AntiJoinEmptyIff(ConcatenateViews(views).value.rows, ConcatenateAll(s2.slots).value.rows);
  }

  /** Every thread has a file to write and one to read back. */
  lemma OrdersFit(orders: Orders, outputPath: string, threadCount: nat)
    requires threadCount > 0 && orders.Possible(outputPath, threadCount)
    ensures forall k :: 0 <= k < |orders.writes| ==> orders.writes[k] < threadCount
    ensures |orders.listing| == threadCount
  {
    OrderCovers(orders.writes, threadCount);
    SameLength(orders.listing, Paths(outputPath, threadCount));
  }

  /** Reads, writes, reads back and checks: the check passes, on `multiplier` copies of the rows that were read. */
  method Transcode(sources: seq<Table>, threadCount: nat, outputPath: string, orders: Orders, multiplier: nat,
                   ghost columns: nat)
      returns (input: Table, transcoded: Table, valid: bool)
    requires 0 < threadCount <= |sources| && AllHaveColumns(sources, columns) && multiplier > 0
    requires orders.Possible(outputPath, threadCount)
    ensures valid
    ensures multiset(input.rows) == multiset(AllRows(sources))
    ensures multiset(transcoded.rows) == multiset(Copies(input.rows, multiplier))
  {
    OrdersFit(orders, outputPath, threadCount);
    SlotTablesOfShares(sources, threadCount, columns);
    var slots := ReadParquetMultithreaded(sources, threadCount, CONCATENATE_THREAD, orders.first);
    var views := SlotTables(slots).value;
    var dir := WriteParquetMultithreaded(outputPath, views, orders.writes);
    var files := ExtractInputSources(orders.listing, multiplier, threadCount);
    var read := Image(files, ReadFrom(dir));
    BothReads(sources, threadCount, columns, outputPath, orders, multiplier, views, read);
    var back := ReadParquetMultithreaded(read, threadCount, CONCATENATE_ALL, orders.second);
    input, transcoded := ConcatenateViews(views).value, back[0].value.value;
    valid := CheckTablesEqual(input, transcoded);
  }
}
