/**
  `table_with_names` and the join built on row-index gathers, at the level of
  rows; the lemmas relate them to joins of records.
 */
module TableOps {
  import opened Outcomes
  import opened Sequences
  import opened NamedTables

  type Row = seq<Value>

  // ----------------------------------------------------- table_with_names

  function AppendColumn(t: Table, col: seq<Value>, name: string): (r: Table)
    requires |col| == |t.rows|
  {
    Table(t.names + [name], seq(|t.rows|, i requires 0 <= i < |t.rows| => t.rows[i] + [col[i]]))
  }

  class TableWithNames {
    var names: seq<string>
    var rows: seq<Row>

    function View(): Table
      reads this
    {
      Table(names, rows)
    }

    constructor (table: Table)
      ensures View() == table
    {
      names, rows := table.names, table.rows;
    }

    /** The values of one column, or the exception for an unknown name. */
    method Column(col: string) returns (r: Result<seq<Value>>)
      requires View().Rectangular()
      ensures r.Failure? <==> col !in names
      ensures r.Success? ==>
          && |r.value| == |rows|
          && forall i :: 0 <= i < |rows| ==> r.value[i] == ToRecord(names, rows[i])[col]
    {
      var id :- ColumnId(names, col);
      forall i | 0 <= i < |rows| ensures rows[i][id] == ToRecord(names, rows[i])[col] {
        ToRecordAt(names, rows[i], col);
      }
      var all := rows;
      r := Success(seq(|all|, i requires 0 <= i < |all| && id < |all[i]| => all[i][id]));
    }

    method Append(col: seq<Value>, name: string)
      requires |col| == |rows|
      modifies this
      ensures View() == AppendColumn(old(View()), col, name)
    {
      var all := rows;
      rows := seq(|all|, i requires 0 <= i < |all| => all[i] + [col[i]]);
      names := names + [name];
    }
  }

  lemma AppendedRecord(names: seq<string>, row: Row, name: string, v: Value)
    requires |names| == |row| && name !in names
    ensures ToRecord(names + [name], row + [v]) == ToRecord(names, row)[name := v]
  {
    ToRecordConcat(names, [name], row, [v]);
    assert ToRecord([name], [v]) == map[name := v] by { assert ToRecord([], []) == map[]; }
    assert ToRecord(names, row)[name := v] == ToRecord(names, row) + map[name := v];
  }

  /** An appended column is one more entry in every record and disturbs no other. */
  lemma AppendedRecords(t: Table, col: seq<Value>, name: string)
    requires t.Valid() && |col| == |t.rows| && name !in t.names
    ensures AppendColumn(t, col, name).Valid()
    ensures forall i :: 0 <= i < |col| ==> RecordsOf(AppendColumn(t, col, name))[i] == RecordsOf(t)[i][name := col[i]]
  {
    forall i | 0 <= i < |col| { AppendedRecord(t.names, t.rows[i], name, col[i]); }
  }

  // ------------------------------------------------------------- inner join

  /** Agreement of two rows on the numbered columns. */
  predicate RowsMatch(l: Row, r: Row, leftOn: seq<nat>, rightOn: seq<nat>, nulls: NullEquality)
    requires |leftOn| == |rightOn|
  {
    forall k :: 0 <= k < |leftOn| ==> leftOn[k] < |l| && rightOn[k] < |r| && SameKey(nulls, l[leftOn[k]], r[rightOn[k]])
  }

  function PairsAt(l: Row, i: nat, rs: seq<Row>, j: nat, leftOn: seq<nat>, rightOn: seq<nat>,
                   nulls: NullEquality): seq<(nat, nat)>
    requires |leftOn| == |rightOn|
    decreases |rs| - j
  {
    if j >= |rs| then []
    else
      var first := if RowsMatch(l, rs[j], leftOn, rightOn, nulls) then [(i, j)] else [];
      first + PairsAt(l, i, rs, j + 1, leftOn, rightOn, nulls)
  }

  function PairsFrom(ls: seq<Row>, i: nat, rs: seq<Row>, leftOn: seq<nat>, rightOn: seq<nat>,
                     nulls: NullEquality): seq<(nat, nat)>
    requires |leftOn| == |rightOn|
    decreases |ls| - i
  {
    if i >= |ls| then []
        else PairsAt(ls[i], i, rs, 0, leftOn, rightOn, nulls) + PairsFrom(ls, i + 1, rs, leftOn, rightOn, nulls)
  }

  /** The index pairs of matching rows, each once. */
  function MatchingPairs(ls: seq<Row>, rs: seq<Row>, leftOn: seq<nat>, rightOn: seq<nat>,
                         nulls: NullEquality): seq<(nat, nat)>
    requires |leftOn| == |rightOn|
  {
    PairsFrom(ls, 0, rs, leftOn, rightOn, nulls)
  }

  function GatherPair(ls: seq<Row>, rs: seq<Row>): ((nat, nat)) -> Row {
    (p: (nat, nat)) => if p.0 < |ls| && p.1 < |rs| then ls[p.0] + rs[p.1] else []
  }

  function RowMatcher(l: Row, leftOn: seq<nat>, rightOn: seq<nat>, nulls: NullEquality): Row -> Option<Row>
    requires |leftOn| == |rightOn|
  {
    (r: Row) => if RowsMatch(l, r, leftOn, rightOn, nulls) then Some(l + r) else None
  }

  function RowJoiner(rs: seq<Row>, leftOn: seq<nat>, rightOn: seq<nat>, nulls: NullEquality): Row -> seq<Row>
    requires |leftOn| == |rightOn|
  {
    (l: Row) => Collect(rs, RowMatcher(l, leftOn, rightOn, nulls))
  }

  /** The joined rows, left columns first. */
  function JoinRows(ls: seq<Row>, rs: seq<Row>, leftOn: seq<nat>, rightOn: seq<nat>, nulls: NullEquality): seq<Row>
    requires |leftOn| == |rightOn|
  {
    CollectAll(ls, RowJoiner(rs, leftOn, rightOn, nulls))
  }

  lemma {:induction false} GatherPairsAt(ls: seq<Row>, i: nat, rs: seq<Row>, j: nat, leftOn: seq<nat>,
                                         rightOn: seq<nat>,
                                         nulls: NullEquality)
    requires |leftOn| == |rightOn| && i < |ls| && j <= |rs|
    ensures Image(PairsAt(ls[i], i, rs, j, leftOn, rightOn, nulls), GatherPair(ls, rs))
         == Collect(rs[j..], RowMatcher(ls[i], leftOn, rightOn, nulls))
    decreases |rs| - j
  {
    if j < |rs| {
      GatherPairsAt(ls, i, rs, j + 1, leftOn, rightOn, nulls);
      assert rs[j..][1..] == rs[j + 1..] && rs[j..][0] == rs[j];
      var first := if RowsMatch(ls[i], rs[j], leftOn, rightOn, nulls) then [(i, j)] else [];
      ImageConcat(first, PairsAt(ls[i], i, rs, j + 1, leftOn, rightOn, nulls), GatherPair(ls, rs));
      assert Image(first, GatherPair(ls, rs)) == if RowsMatch(ls[i], rs[j], leftOn, rightOn, nulls)
          then [ls[i] + rs[j]] else [];
    }
  }

  lemma {:induction false} GatherPairsFrom(ls: seq<Row>, i: nat, rs: seq<Row>, leftOn: seq<nat>, rightOn: seq<nat>,
                                           nulls: NullEquality)
    requires |leftOn| == |rightOn| && i <= |ls|
    ensures Image(PairsFrom(ls, i, rs, leftOn, rightOn, nulls), GatherPair(ls, rs))
         == CollectAll(ls[i..], RowJoiner(rs, leftOn, rightOn, nulls))
    ensures forall k :: 0 <= k < |PairsFrom(ls, i, rs, leftOn, rightOn, nulls)| ==>
        var p := PairsFrom(ls, i, rs, leftOn, rightOn, nulls)[k]; p.0 < |ls| && p.1 < |rs|
    decreases |ls| - i
  {
    if i < |ls| {
      GatherPairsFrom(ls, i + 1, rs, leftOn, rightOn, nulls);
      GatherPairsAt(ls, i, rs, 0, leftOn, rightOn, nulls);
      PairsInRange(ls, i, rs, 0, leftOn, rightOn, nulls);
      assert rs[0..] == rs && ls[i..][1..] == ls[i + 1..];
      ImageConcat(PairsAt(ls[i], i, rs, 0, leftOn, rightOn, nulls), PairsFrom(ls, i + 1, rs, leftOn, rightOn, nulls),
                  GatherPair(ls, rs));
    }
  }

  lemma {:induction false} PairsInRange(ls: seq<Row>, i: nat, rs: seq<Row>, j: nat, leftOn: seq<nat>, rightOn: seq<nat>,
                                        nulls: NullEquality)
    requires |leftOn| == |rightOn| && i < |ls|
    ensures forall k :: 0 <= k < |PairsAt(ls[i], i, rs, j, leftOn, rightOn, nulls)| ==>
        var p := PairsAt(ls[i], i, rs, j, leftOn, rightOn, nulls)[k]; p.0 == i && p.1 < |rs|
    decreases |rs| - j
  {
    if j < |rs| {
      PairsInRange(ls, i, rs, j + 1, leftOn, rightOn, nulls);
    }
  }

  /** Whether rows `i` and `j` are a pair the join returns. */
  ghost predicate Matching(ls: seq<Row>, rs: seq<Row>, leftOn: seq<nat>, rightOn: seq<nat>, nulls: NullEquality,
                           i: nat, j: nat)
    requires |leftOn| == |rightOn|
  {
    i < |ls| && j < |rs| && RowsMatch(ls[i], rs[j], leftOn, rightOn, nulls)
  }

  /** Which rows match `l`. */
  function Hits(l: Row, rs: seq<Row>, leftOn: seq<nat>, rightOn: seq<nat>, nulls: NullEquality): (hits: seq<bool>)
    requires |leftOn| == |rightOn|
    ensures |hits| == |rs|
    ensures forall j :: 0 <= j < |rs| ==> hits[j] == RowsMatch(l, rs[j], leftOn, rightOn, nulls)
  {
    seq(|rs|, j requires 0 <= j < |rs| => RowsMatch(l, rs[j], leftOn, rightOn, nulls))
  }

  /** `i` paired with the numbers from `j` on that are marked. */
  function HitPairs(i: nat, hits: seq<bool>, j: nat): seq<(nat, nat)>
    decreases |hits| - j
  {
    if j >= |hits| then [] else (if hits[j] then [(i, j)] else []) + HitPairs(i, hits, j + 1)
  }

  lemma {:induction false} PairsAreHits(l: Row, i: nat, rs: seq<Row>, j: nat, leftOn: seq<nat>, rightOn: seq<nat>,
                                        nulls: NullEquality)
    requires |leftOn| == |rightOn|
    ensures PairsAt(l, i, rs, j, leftOn, rightOn, nulls) == HitPairs(i, Hits(l, rs, leftOn, rightOn, nulls), j)
    decreases |rs| - j
  {
    if j < |rs| {
      PairsAreHits(l, i, rs, j + 1, leftOn, rightOn, nulls);
    }
  }

  /** Marked numbers from `from` on, ascending, each paired with `i`. */
  ghost predicate Ascend(pairs: seq<(nat, nat)>, i: nat, hits: seq<bool>, from: nat) {
    && (forall k :: 0 <= k < |pairs| ==> pairs[k].0 == i && from <= pairs[k].1 < |hits| && hits[pairs[k].1])
    && forall k, m :: 0 <= k < m < |pairs| ==> pairs[k].1 < pairs[m].1
  }

  lemma OneMoreHit(rest: seq<(nat, nat)>, i: nat, hits: seq<bool>, from: nat)
    requires from < |hits| && Ascend(rest, i, hits, from + 1)
    ensures Ascend((if hits[from] then [(i, from)] else []) + rest, i, hits, from)
  {
    if hits[from] {
      var pairs := [(i, from)] + rest;
      assert pairs[0] == (i, from) && forall k :: 0 < k < |pairs| ==> pairs[k] == rest[k - 1];
    } else {
      assert [] + rest == rest;
    }
  }

  lemma {:induction false} HitsAscend(i: nat, hits: seq<bool>, from: nat)
    ensures Ascend(HitPairs(i, hits, from), i, hits, from)
    decreases |hits| - from
  {
    if from < |hits| {
      HitsAscend(i, hits, from + 1);
      OneMoreHit(HitPairs(i, hits, from + 1), i, hits, from);
    }
  }

  lemma {:induction false} HitFound(i: nat, hits: seq<bool>, from: nat, j: nat)
    requires from <= j < |hits| && hits[j]
    ensures (i, j) in HitPairs(i, hits, from)
    decreases j - from
  {
    if from < j {
      HitFound(i, hits, from + 1, j);
    }
  }

  lemma HitOnce(i: nat, hits: seq<bool>, a: nat, j: nat)
    ensures multiset(HitPairs(i, hits, 0))[(a, j)] == if a == i && j < |hits| && hits[j] then 1 else 0
  {
    var pairs := HitPairs(i, hits, 0);
    HitsAscend(i, hits, 0);
    forall k, m | 0 <= k < m < |pairs| ensures pairs[k] != pairs[m] {
      assert pairs[k].1 < pairs[m].1;
    }
    OccursOnce(pairs, (a, j));
    if a == i && j < |hits| && hits[j] {
      HitFound(i, hits, 0, j);
    }
  }

  lemma PairAtOnce(l: Row, i: nat, rs: seq<Row>, leftOn: seq<nat>, rightOn: seq<nat>, nulls: NullEquality,
                   a: nat, j: nat)
    requires |leftOn| == |rightOn|
    ensures multiset(PairsAt(l, i, rs, 0, leftOn, rightOn, nulls))[(a, j)]
         == if a == i && j < |rs| && RowsMatch(l, rs[j], leftOn, rightOn, nulls) then 1 else 0
  {
    PairsAreHits(l, i, rs, 0, leftOn, rightOn, nulls);
    HitOnce(i, Hits(l, rs, leftOn, rightOn, nulls), a, j);
  }

  lemma {:induction false} PairFromOnce(ls: seq<Row>, from: nat, rs: seq<Row>, leftOn: seq<nat>, rightOn: seq<nat>,
                                        nulls: NullEquality, i: nat, j: nat)
    requires |leftOn| == |rightOn| && from <= |ls|
    ensures multiset(PairsFrom(ls, from, rs, leftOn, rightOn, nulls))[(i, j)]
         == if from <= i && Matching(ls, rs, leftOn, rightOn, nulls, i, j) then 1 else 0
    decreases |ls| - from
  {
    if from < |ls| {
      PairFromOnce(ls, from + 1, rs, leftOn, rightOn, nulls, i, j);
      PairAtOnce(ls[from], from, rs, leftOn, rightOn, nulls, i, j);
      CountConcat(PairsAt(ls[from], from, rs, 0, leftOn, rightOn, nulls),
                  PairsFrom(ls, from + 1, rs, leftOn, rightOn, nulls), (i, j));
    }
  }

  function Zip(a: seq<nat>, b: seq<nat>): (z: seq<(nat, nat)>)
    requires |a| == |b|
    ensures |z| == |a|
    ensures forall k :: 0 <= k < |a| ==> z[k] == (a[k], b[k])
  {
    seq(|a|, k requires 0 <= k < |a| => (a[k], b[k]))
  }

  /** The indices of matching rows, each pair once, in an order left open. */
  method InnerJoin(ls: seq<Row>, rs: seq<Row>, leftOn: seq<nat>, rightOn: seq<nat>, nulls: NullEquality)
      returns (li: seq<nat>, ri: seq<nat>)
    requires |leftOn| == |rightOn|
    ensures |li| == |ri| && multiset(Zip(li, ri)) == multiset(MatchingPairs(ls, rs, leftOn, rightOn, nulls))
    ensures forall i: nat, j: nat ::
        multiset(Zip(li, ri))[(i, j)] == if Matching(ls, rs, leftOn, rightOn, nulls, i, j) then 1 else 0
  {
    forall i: nat, j: nat
      ensures multiset(MatchingPairs(ls, rs, leftOn, rightOn, nulls))[(i, j)]
           == if Matching(ls, rs, leftOn, rightOn, nulls, i, j) then 1 else 0
    {
      PairFromOnce(ls, 0, rs, leftOn, rightOn, nulls, i, j);
    }
    var pairs := MatchingPairs(ls, rs, leftOn, rightOn, nulls);
    li := seq(|pairs|, k requires 0 <= k < |pairs| => pairs[k].0);
    ri := seq(|pairs|, k requires 0 <= k < |pairs| => pairs[k].1);
    assert Zip(li, ri) == pairs;
  }

  function GatherRows(rows: seq<Row>, idx: seq<nat>): (r: seq<Row>)
    requires forall k :: 0 <= k < |idx| ==> idx[k] < |rows|
    ensures |r| == |idx| && forall k :: 0 <= k < |idx| ==> r[k] == rows[idx[k]]
  {
    seq(|idx|, k requires 0 <= k < |idx| => rows[idx[k]])
  }

  /** Whatever order the pairs come in, they are pairs of rows of the two tables. */
  lemma PairsBound(ls: seq<Row>, rs: seq<Row>, li: seq<nat>, ri: seq<nat>, leftOn: seq<nat>, rightOn: seq<nat>,
                   nulls: NullEquality)
    requires |leftOn| == |rightOn| && |li| == |ri|
    requires multiset(Zip(li, ri)) == multiset(MatchingPairs(ls, rs, leftOn, rightOn, nulls))
    ensures forall k :: 0 <= k < |li| ==> li[k] < |ls| && ri[k] < |rs|
  {
    GatherPairsFrom(ls, 0, rs, leftOn, rightOn, nulls);
    forall k | 0 <= k < |li| ensures li[k] < |ls| && ri[k] < |rs| {
      assert Zip(li, ri)[k] in multiset(Zip(li, ri));
      assert Zip(li, ri)[k] in MatchingPairs(ls, rs, leftOn, rightOn, nulls);
    }
  }

  lemma PairsGathered(ls: seq<Row>, rs: seq<Row>, li: seq<nat>, ri: seq<nat>, leftOn: seq<nat>, rightOn: seq<nat>,
                      nulls: NullEquality)
    requires |leftOn| == |rightOn| && |li| == |ri|
    requires multiset(Zip(li, ri)) == multiset(MatchingPairs(ls, rs, leftOn, rightOn, nulls))
    ensures multiset(Image(Zip(li, ri), GatherPair(ls, rs))) == multiset(JoinRows(ls, rs, leftOn, rightOn, nulls))
  {
    GatherPairsFrom(ls, 0, rs, leftOn, rightOn, nulls);
    assert ls[0..] == ls;
    ImagePermuted(Zip(li, ri), MatchingPairs(ls, rs, leftOn, rightOn, nulls), GatherPair(ls, rs));
  }

  /** Joins by index and puts the right table's columns behind the left table's. */
  method JoinAndGather(ls: seq<Row>, rs: seq<Row>, leftOn: seq<nat>, rightOn: seq<nat>, nulls: NullEquality)
      returns (joined: seq<Row>)
    requires |leftOn| == |rightOn|
    ensures multiset(joined) == multiset(JoinRows(ls, rs, leftOn, rightOn, nulls))
  {
    var li, ri := InnerJoin(ls, rs, leftOn, rightOn, nulls);
    PairsBound(ls, rs, li, ri, leftOn, rightOn, nulls);
    var left, right := GatherRows(ls, li), GatherRows(rs, ri);
    joined := seq(|li|, k requires 0 <= k < |li| => left[k] + right[k]);
    assert joined == Image(Zip(li, ri), GatherPair(ls, rs));
    PairsGathered(ls, rs, li, ri, leftOn, rightOn, nulls);
  }

  /** The numbers of the named columns. */
  function ColumnIds(names: seq<string>, cols: seq<string>): (ids: seq<nat>)
    requires forall k :: 0 <= k < |cols| ==> cols[k] in names
    ensures |ids| == |cols|
    ensures forall k :: 0 <= k < |cols| ==> ids[k] == ColumnId(names, cols[k]).value
  {
    seq(|cols|, k requires 0 <= k < |cols| => ColumnId(names, cols[k]).value)
  }

  ghost predicate AllNamed(names: seq<string>, cols: seq<string>) {
    forall k :: 0 <= k < |cols| ==> cols[k] in names
  }

  method LookUp(t: TableWithNames, cols: seq<string>) returns (r: Result<seq<nat>>)
    ensures r.Success? <==> AllNamed(t.names, cols)
    ensures r.Success? ==> r.value == ColumnIds(t.names, cols)
  {
    var ids: seq<nat> := [];
    for k := 0 to |cols|
      invariant AllNamed(t.names, cols[..k]) && ids == ColumnIds(t.names, cols[..k])
    {
      var id := ColumnId(t.names, cols[k]);
      if id.Failure? {
        return Failure;
      }
      ids := ids + [id.value];
      assert cols[..k + 1] == cols[..k] + [cols[k]];
    }
    assert cols[..|cols|] == cols;
    r := Success(ids);
  }

  /** What `apply_inner_join` makes of two tables, up to the order of rows. */
  ghost predicate IsInnerJoin(left: Table, right: Table, leftOn: seq<string>, rightOn: seq<string>,
                              nulls: NullEquality, t: Table) {
    && |leftOn| == |rightOn| && AllNamed(left.names, leftOn) && AllNamed(right.names, rightOn)
    && t.names == left.names + right.names
    && multiset(t.rows)
       == multiset(JoinRows(left.rows, right.rows, ColumnIds(left.names, leftOn), ColumnIds(right.names, rightOn),
                            nulls))
  }

  /** Joins on named columns; an unknown name or unequal key counts throw. */
  method ApplyInnerJoin(left: TableWithNames, right: TableWithNames, leftOn: seq<string>, rightOn: seq<string>,
                        nulls: NullEquality)
      returns (r: Result<TableWithNames>)
    ensures r.Success? <==> |leftOn| == |rightOn| && AllNamed(left.names, leftOn) && AllNamed(right.names, rightOn)
    ensures r.Success? ==>
        fresh(r.value) && IsInnerJoin(left.View(), right.View(), leftOn, rightOn, nulls, r.value.View())
  {
    var leftIds :- LookUp(left, leftOn);
    var rightIds :- LookUp(right, rightOn);
    if |leftOn| != |rightOn| {
      return Failure;
    }
    var joined := JoinAndGather(left.rows, right.rows, leftIds, rightIds, nulls);
    var merged := new TableWithNames(Table(left.names + right.names, joined));
    r := Success(merged);
  }

  // --------------------------------------------------- rows against records

  function AsRecord(names: seq<string>): Row -> Record {
    (row: Row) => if |row| == |names| then ToRecord(names, row) else map[]
  }

  lemma RecordsAreImage(t: Table)
    requires t.Valid()
    ensures RecordsOf(t) == Image(t.rows, AsRecord(t.names))
  {
  }

  function Keyed(leftOn: seq<string>, rightOn: seq<string>, nulls: NullEquality): (on: JoinKeys)
    requires |leftOn| == |rightOn|
    ensures |on.pairs| == |leftOn| && on.nulls == nulls
    ensures forall k :: 0 <= k < |leftOn| ==> on.pairs[k] == (leftOn[k], rightOn[k])
  {
    JoinKeys(seq(|leftOn|, k requires 0 <= k < |leftOn| => (leftOn[k], rightOn[k])), nulls)
  }

  /** Matching by column number is matching by column name. */
  lemma MatchByName(left: Table, right: Table, leftOn: seq<string>, rightOn: seq<string>, nulls: NullEquality, l: Row,
                    r: Row)
    requires |leftOn| == |rightOn| && AllNamed(left.names, leftOn) && AllNamed(right.names, rightOn)
    requires |l| == |left.names| && |r| == |right.names|
    requires left.Schema() !! right.Schema()
    ensures RowsMatch(l, r, ColumnIds(left.names, leftOn), ColumnIds(right.names, rightOn), nulls)
       <==> KeysMatch(ToRecord(left.names, l), ToRecord(right.names, r), Keyed(leftOn, rightOn, nulls))
    ensures ToRecord(left.names + right.names, l + r) == ToRecord(left.names, l) + ToRecord(right.names, r)
  {
    var on := Keyed(leftOn, rightOn, nulls);
    forall k | 0 <= k < |on.pairs|
      ensures ToRecord(left.names, l)[on.pairs[k].0] == l[ColumnIds(left.names, leftOn)[k]]
      ensures ToRecord(right.names, r)[on.pairs[k].1] == r[ColumnIds(right.names, rightOn)[k]]
    {
      ToRecordAt(left.names, l, leftOn[k]);
      ToRecordAt(right.names, r, rightOn[k]);
    }
    forall c | c in left.names ensures c !in right.names {
      assert c in left.Schema();
      assert c !in right.Schema();
    }
    ToRecordConcat(left.names, right.names, l, r);
  }

  /** One pair of rows. */
  lemma PairRecords(left: Table, right: Table, leftOn: seq<string>, rightOn: seq<string>, nulls: NullEquality, l: Row,
                    r: Row)
    requires left.Schema() !! right.Schema() && |l| == |left.names| && |r| == |right.names|
    requires |leftOn| == |rightOn| && AllNamed(left.names, leftOn) && AllNamed(right.names, rightOn)
    ensures Matcher(ToRecord(left.names, l), Keyed(leftOn, rightOn, nulls))(AsRecord(right.names)(r))
         == Lift(RowMatcher(l, ColumnIds(left.names, leftOn), ColumnIds(right.names, rightOn), nulls)(r),
                 AsRecord(left.names + right.names))
  {
    MatchByName(left, right, leftOn, rightOn, nulls, l, r);
  }

  /** One left row against all right rows. */
  lemma JoinerRecords(left: Table, right: Table, leftOn: seq<string>, rightOn: seq<string>, nulls: NullEquality, l: Row)
    requires left.Valid() && right.Valid() && left.Schema() !! right.Schema() && |l| == |left.names|
    requires |leftOn| == |rightOn| && AllNamed(left.names, leftOn) && AllNamed(right.names, rightOn)
    ensures Joiner(RecordsOf(right), Keyed(leftOn, rightOn, nulls))(ToRecord(left.names, l))
         == Image(RowJoiner(right.rows, ColumnIds(left.names, leftOn), ColumnIds(right.names, rightOn), nulls)(l),
                  AsRecord(left.names + right.names))
  {
    var li, ri, on := ColumnIds(left.names, leftOn), ColumnIds(right.names, rightOn), Keyed(leftOn, rightOn, nulls);
    var rec := AsRecord(left.names + right.names);
    RecordsAreImage(right);
    forall j | 0 <= j < |right.rows|
      ensures Matcher(ToRecord(left.names, l), on)(AsRecord(right.names)(right.rows[j]))
           == Lift(RowMatcher(l, li, ri, nulls)(right.rows[j]), rec)
    {
      PairRecords(left, right, leftOn, rightOn, nulls, l, right.rows[j]);
    }
    CollectMapped(right.rows, RowMatcher(l, li, ri, nulls), rec, AsRecord(right.names),
                  Matcher(ToRecord(left.names, l), on));
  }

  lemma JoinRowsRecords(left: Table, right: Table, leftOn: seq<string>, rightOn: seq<string>, nulls: NullEquality)
    requires left.Valid() && right.Valid() && left.Schema() !! right.Schema()
    requires |leftOn| == |rightOn| && AllNamed(left.names, leftOn) && AllNamed(right.names, rightOn)
    ensures Image(JoinRows(left.rows, right.rows, ColumnIds(left.names, leftOn), ColumnIds(right.names, rightOn),
                           nulls),
                  AsRecord(left.names + right.names))
         == NestedJoin(RecordsOf(left), RecordsOf(right), Keyed(leftOn, rightOn, nulls))
  {
    var li, ri, on := ColumnIds(left.names, leftOn), ColumnIds(right.names, rightOn), Keyed(leftOn, rightOn, nulls);
    var rec := AsRecord(left.names + right.names);
    RecordsAreImage(left);
    forall i | 0 <= i < |left.rows|
      ensures Joiner(RecordsOf(right), on)(AsRecord(left.names)(left.rows[i]))
           == Image(RowJoiner(right.rows, li, ri, nulls)(left.rows[i]), rec)
    {
      JoinerRecords(left, right, leftOn, rightOn, nulls, left.rows[i]);
    }
    CollectAllMapped(left.rows, RowJoiner(right.rows, li, ri, nulls), rec, AsRecord(left.names),
                     Joiner(RecordsOf(right), on));
  }

  /** A joined row is as wide as the two tables together. */
  lemma JoinRowsWidth(left: Table, right: Table, leftOn: seq<nat>, rightOn: seq<nat>, nulls: NullEquality)
    requires left.Valid() && right.Valid() && |leftOn| == |rightOn|
    ensures Every(JoinRows(left.rows, right.rows, leftOn, rightOn, nulls), Wide(|left.names| + |right.names|))
  {
    forall i | 0 <= i < |left.rows|
      ensures Every(RowJoiner(right.rows, leftOn, rightOn, nulls)(left.rows[i]), Wide(|left.names| + |right.names|))
    {
      EveryCollected(right.rows, RowMatcher(left.rows[i], leftOn, rightOn, nulls), Wide(|left.names| + |right.names|));
    }
    EveryCollectedAll(left.rows, RowJoiner(right.rows, leftOn, rightOn, nulls), Wide(|left.names| + |right.names|));
  }

  function Wide(n: nat): Row -> bool { (row: Row) => |row| == n }

  lemma InnerJoinValid(left: Table, right: Table, leftOn: seq<string>, rightOn: seq<string>, nulls: NullEquality,
                       t: Table)
    requires left.Valid() && right.Valid() && left.Schema() !! right.Schema()
    requires IsInnerJoin(left, right, leftOn, rightOn, nulls, t)
    ensures t.Valid() && t.Schema() == left.Schema() + right.Schema()
  {
    var li, ri := ColumnIds(left.names, leftOn), ColumnIds(right.names, rightOn);
    JoinRowsWidth(left, right, li, ri, nulls);
    EveryPermuted(JoinRows(left.rows, right.rows, li, ri, nulls), t.rows, Wide(|t.names|));
    assert forall k :: 0 <= k < |t.rows| ==> Wide(|t.names|)(t.rows[k]);
    forall i, j | 0 <= i < j < |t.names| ensures t.names[i] != t.names[j] {
      if i < |left.names| <= j {
        assert left.names[i] in left.Schema() && right.names[j - |left.names|] in right.Schema();
      }
    }
  }

  /** The records of a joined table are the joined records. */
  lemma InnerJoinRecords(left: Table, right: Table, leftOn: seq<string>, rightOn: seq<string>, nulls: NullEquality,
                         t: Table)
    requires left.Valid() && right.Valid() && left.Schema() !! right.Schema()
    requires IsInnerJoin(left, right, leftOn, rightOn, nulls, t)
    ensures t.Valid() && t.Schema() == left.Schema() + right.Schema()
    ensures multiset(RecordsOf(t))
        == multiset(NestedJoin(RecordsOf(left), RecordsOf(right), Keyed(leftOn, rightOn, nulls)))
  {
    InnerJoinValid(left, right, leftOn, rightOn, nulls, t);
    JoinRowsRecords(left, right, leftOn, rightOn, nulls);
    RecordsAreImage(t);
    ImagePermuted(t.rows,
                  JoinRows(left.rows, right.rows, ColumnIds(left.names, leftOn), ColumnIds(right.names, rightOn),
                           nulls),
                  AsRecord(t.names));
  }
}
