/**
  `apply_groupby` and `apply_orderby`: one row per group with any number of
  aggregations, in an order left open, and rows sorted by named columns.
 */
module GroupedTables {
  import opened Outcomes
  import opened Sequences
  import opened Totals
  import opened Sorting
  import opened NamedTables
  import opened TableOps
  import opened QueryPlans

  // -------------------------------------------------------------- aggregations

  datatype Kind = SUM | MEAN | COUNT_ALL | Unsupported

  /** The value columns, each with its aggregations and the names of their results. */
  datatype GroupbyContext = GroupbyContext(keys: seq<string>, values: seq<(string, seq<(Kind, string)>)>)

  /** Sum that skips nulls; null if nothing is left. */
  function SumOf(vals: seq<Value>): Value { if vals == [] then Null else AddValue(vals[0], SumOf(vals[1..])) }

  function ValidCount(vals: seq<Value>): nat {
    if vals == [] then 0 else (if vals[0].Num? then 1 else 0) + ValidCount(vals[1..])
  }

  lemma {:induction false} SumExists(vals: seq<Value>)
    ensures SumOf(vals).Num? <==> ValidCount(vals) > 0
    ensures SumOf(vals).Num? || SumOf(vals) == Null
  {
    if vals != [] {
      SumExists(vals[1..]);
    }
  }

  /** A count request leaves out nulls too: that is the default of the aggregation it makes. */
  function Aggregated(kind: Kind, vals: seq<Value>): Value {
    match kind
    case MEAN =>
      SumExists(vals);
      if SumOf(vals).Num? then Num(SumOf(vals).n / ValidCount(vals) as real) else Null
    case COUNT_ALL => Num(ValidCount(vals) as real)
    case _ => SumOf(vals)
  }

  /** The places of the values that are not null, and the number at each of them. */
  ghost function Numbers(vals: seq<Value>): set<nat> { set i: nat | i < |vals| && vals[i].Num? }

  function NumberTerms(vals: seq<Value>): (ts: seq<real>)
    ensures |ts| == |vals|
    ensures forall i :: 0 <= i < |vals| ==> ts[i] == if vals[i].Num? then vals[i].n else 0.0
  {
    seq(|vals|, i requires 0 <= i < |vals| => if vals[i].Num? then vals[i].n else 0.0)
  }

  /** Total, mean and number of what is not null: null, null and 0 when there is nothing. */
  ghost predicate IsAggregate(kind: Kind, count: nat, total: real, v: Value) {
    match kind
    case COUNT_ALL => v == Num(count as real)
    case MEAN => if count == 0 then v == Null else v.Num? && IsMean(v.n, count, total)
    case _ => v == if count == 0 then Null else Num(total)
  }

  ghost predicate IsMean(mean: real, count: nat, total: real) { mean * count as real == total }

  lemma {:induction false} ValuesCounted(vals: seq<Value>)
    ensures ValidCount(vals) == |Numbers(vals)|
  {
    if vals == [] {
      assert Numbers(vals) == {};
    } else {
      var num := (v: Value) => v.Num?;
      ValuesCounted(vals[1..]);
      PlacesFirst(vals, num);
      assert Places(vals, num) == Numbers(vals) && Places(vals[1..], num) == Numbers(vals[1..]);
    }
  }

  lemma {:induction false} ValuesAddUp(vals: seq<Value>)
    ensures SumOf(vals).Num? ==> SumOf(vals).n == Total(NumberTerms(vals))
    ensures !SumOf(vals).Num? ==> Total(NumberTerms(vals)) == 0.0
  {
    if vals != [] {
      ValuesAddUp(vals[1..]);
      TotalFirst(NumberTerms(vals));
      assert NumberTerms(vals)[1..] == NumberTerms(vals[1..]);
    }
  }

  lemma QuotientIsMean(total: real, count: nat)
    requires count > 0
    ensures IsMean(total / count as real, count, total)
  {
  }

  /** The aggregate of a list of values, told by its numbers. */
  lemma AggregatedMeaning(kind: Kind, vals: seq<Value>)
    ensures IsAggregate(kind, |Numbers(vals)|, Total(NumberTerms(vals)), Aggregated(kind, vals))
  {
    SumExists(vals);
    ValuesCounted(vals);
    ValuesAddUp(vals);
    if kind == MEAN && ValidCount(vals) > 0 {
      QuotientIsMean(SumOf(vals).n, ValidCount(vals));
    }
  }

  /** The values of `c` in group `k`, in row order. */
  function GroupValues(rs: seq<Record>, keys: seq<string>, k: seq<Value>, c: string): seq<Value> {
    if rs == [] then []
    else (if GroupKey(rs[0], keys) == k then [At(rs[0], c)] else []) + GroupValues(rs[1..], keys, k, c)
  }

  lemma {:induction false} SumOfGroup(rs: seq<Record>, keys: seq<string>, k: seq<Value>, c: string)
    ensures SumOf(GroupValues(rs, keys, k, c)) == SumWhere(rs, keys, ColumnValue(c), k)
  {
    if rs != [] {
      SumOfGroup(rs[1..], keys, k, c);
      var rest := GroupValues(rs[1..], keys, k, c);
      if GroupKey(rs[0], keys) == k {
        assert ([At(rs[0], c)] + rest)[1..] == rest;
      } else {
        assert [] + rest == rest;
      }
    }
  }

  /** The group's values of `c` are those of its rows, told by their numbers. */
  lemma {:induction false} GroupValuesNumbered(rs: seq<Record>, keys: seq<string>, k: seq<Value>, c: string)
    ensures |Numbers(GroupValues(rs, keys, k, c))| == |NumberedRows(rs, keys, ColumnValue(c), k)|
    ensures Total(NumberTerms(GroupValues(rs, keys, k, c))) == Total(GroupTerms(rs, keys, ColumnValue(c), k))
  {
    if rs == [] {
      assert Numbers(GroupValues(rs, keys, k, c)) == {} == NumberedRows(rs, keys, ColumnValue(c), k);
    } else {
      var rest := GroupValues(rs[1..], keys, k, c);
      GroupValuesNumbered(rs[1..], keys, k, c);
      NumberedFirstCount(rs, keys, k, c);
      InGroupIff(rs[0], keys, k);
      var terms := GroupTerms(rs, keys, ColumnValue(c), k);
      TotalFirst(terms);
      assert terms[1..] == GroupTerms(rs[1..], keys, ColumnValue(c), k);
      if GroupKey(rs[0], keys) == k {
        NumbersFirst(At(rs[0], c), rest);
      } else {
        assert [] + rest == rest;
      }
    }
  }

  lemma NumberedFirstCount(rs: seq<Record>, keys: seq<string>, k: seq<Value>, c: string)
    requires rs != []
    ensures |NumberedRows(rs, keys, ColumnValue(c), k)|
         == (if InGroup(rs[0], keys, k) && At(rs[0], c).Num? then 1 else 0)
            + |NumberedRows(rs[1..], keys, ColumnValue(c), k)|
  {
    var tests := Marks(rs, keys, k, c);
    PlacesFirst(tests, Marked());
    assert Places(tests, Marked()) == NumberedRows(rs, keys, ColumnValue(c), k);
    assert tests[1..] == Marks(rs[1..], keys, k, c);
    assert Places(tests[1..], Marked()) == NumberedRows(rs[1..], keys, ColumnValue(c), k);
  }

  ghost function Marks(rs: seq<Record>, keys: seq<string>, k: seq<Value>, c: string): (marks: seq<bool>)
    ensures |marks| == |rs|
    ensures forall i :: 0 <= i < |rs| ==> marks[i] == (InGroup(rs[i], keys, k) && At(rs[i], c).Num?)
  {
    seq(|rs|, i requires 0 <= i < |rs| => InGroup(rs[i], keys, k) && At(rs[i], c).Num?)
  }

  function Marked(): bool -> bool { (b: bool) => b }

  lemma NumbersFirst(v: Value, rest: seq<Value>)
    ensures |Numbers([v] + rest)| == (if v.Num? then 1 else 0) + |Numbers(rest)|
    ensures Total(NumberTerms([v] + rest)) == (if v.Num? then v.n else 0.0) + Total(NumberTerms(rest))
  {
    var num, all := (v: Value) => v.Num?, [v] + rest;
    PlacesFirst(all, num);
    TotalFirst(NumberTerms(all));
    assert all[1..] == rest && NumberTerms(all)[1..] == NumberTerms(rest);
    assert Places(all, num) == Numbers(all) && Places(rest, num) == Numbers(rest);
  }

  /** `v` aggregates column `c` over the records with the key values `k`. */
  ghost predicate IsGroupAggregate(rs: seq<Record>, keys: seq<string>, k: seq<Value>, c: string, kind: Kind, v: Value) {
    IsAggregate(kind, |NumberedRows(rs, keys, ColumnValue(c), k)|, Total(GroupTerms(rs, keys, ColumnValue(c), k)), v)
  }

  /** The null-free keys that occur, each once. */
  function KeyList(rs: seq<Record>, keys: seq<string>): seq<seq<Value>> {
    if rs == [] then []
    else
      var rest, k := KeyList(rs[1..], keys), GroupKey(rs[0], keys);
      if Null in k || k in rest then rest else [k] + rest
  }

  lemma {:induction false} KeysListed(rs: seq<Record>, keys: seq<string>, val: Record -> Value)
    ensures forall k :: k in KeyList(rs, keys) <==> k in GroupSums(rs, keys, val)
    ensures forall i, j :: 0 <= i < j < |KeyList(rs, keys)| ==> KeyList(rs, keys)[i] != KeyList(rs, keys)[j]
    ensures forall i :: 0 <= i < |KeyList(rs, keys)| ==> |KeyList(rs, keys)[i]| == |keys|
  {
    if rs != [] {
      KeysListed(rs[1..], keys, val);
      var rest, k := KeyList(rs[1..], keys), GroupKey(rs[0], keys);
      if !(Null in k || k in rest) {
        assert forall j :: j in [k] + rest <==> j == k || j in rest;
      }
    }
  }

  function AggregateOne(rs: seq<Record>, keys: seq<string>, k: seq<Value>, c: string,
                        aggs: seq<(Kind, string)>): (r: Row)
    ensures |r| == |aggs|
  {
    seq(|aggs|, i requires 0 <= i < |aggs| => Aggregated(aggs[i].0, GroupValues(rs, keys, k, c)))
  }

  function AggregateAll(rs: seq<Record>, keys: seq<string>, k: seq<Value>,
                        values: seq<(string, seq<(Kind, string)>)>): Row {
    if values == [] then []
    else AggregateOne(rs, keys, k, values[0].0, values[0].1) + AggregateAll(rs, keys, k, values[1..])
  }

  /** The row of one group: its key and all aggregates. */
  function GroupRow(rs: seq<Record>, ctx: GroupbyContext): seq<Value> -> Row {
    (k: seq<Value>) => k + AggregateAll(rs, ctx.keys, k, ctx.values)
  }

  function OutputNames(values: seq<(string, seq<(Kind, string)>)>): seq<string> {
    if values == [] then [] else Image(values[0].1, Named()) + OutputNames(values[1..])
  }

  function Named(): ((Kind, string)) -> string { (agg: (Kind, string)) => agg.1 }

  predicate Supported(aggs: seq<(Kind, string)>) { forall i :: 0 <= i < |aggs| ==> aggs[i].0 != Unsupported }

  /** Every column is known and every aggregation supported. */
  ghost predicate Answerable(names: seq<string>, ctx: GroupbyContext) {
    AllNamed(names, ctx.keys) && Requestable(names, ctx.values)
  }

  ghost predicate Requestable(names: seq<string>, values: seq<(string, seq<(Kind, string)>)>) {
    forall i :: 0 <= i < |values| ==> values[i].0 in names && Supported(values[i].1)
  }

  /** A result of the groupby: one row per null-free key that occurs, in some order. */
  ghost predicate IsGrouped(t: Table, ctx: GroupbyContext, out: Table)
    requires t.Rectangular()
  {
    && out.names == ctx.keys + OutputNames(ctx.values)
    && multiset(out.rows) == multiset(Image(KeyList(RecordsOf(t), ctx.keys), GroupRow(RecordsOf(t), ctx)))
  }

  lemma {:induction false} OutputNamesSnoc(values: seq<(string, seq<(Kind, string)>)>, v: (string, seq<(Kind, string)>))
    ensures OutputNames(values + [v]) == OutputNames(values) + Image(v.1, Named())
  {
    if values == [] {
      assert ([] + [v])[1..] == [];
    } else {
      OutputNamesSnoc(values[1..], v);
      assert (values + [v])[1..] == values[1..] + [v];
    }
  }

  // ------------------------------------------------- the cells of a grouped table

  /** How many aggregations are requested of the first `v` value columns. */
  function RequestsBefore(values: seq<(string, seq<(Kind, string)>)>, v: nat): nat
    requires v <= |values|
  {
    if v == 0 then 0 else RequestsBefore(values, v - 1) + |values[v - 1].1|
  }

  lemma {:induction false} RequestsBehindFirst(values: seq<(string, seq<(Kind, string)>)>, v: nat)
    requires 0 < v <= |values|
    ensures RequestsBefore(values, v) == |values[0].1| + RequestsBefore(values[1..], v - 1)
  {
    if v > 1 {
      RequestsBehindFirst(values, v - 1);
    }
  }

  /** Result `j` of value column `v` is one of the `n` results, and stands behind those requested before it. */
  ghost predicate ResultAt(values: seq<(string, seq<(Kind, string)>)>, v: int, j: int, p: int) {
    0 <= v < |values| && 0 <= j < |values[v].1| && p == RequestsBefore(values, v) + j
  }

  /** Name `p` and result `p` of group `k` are those of request `j` on value column `v`. */
  ghost predicate ResultIs(rs: seq<Record>, keys: seq<string>, k: seq<Value>,
                           values: seq<(string, seq<(Kind, string)>)>, v: int, j: int, p: int)
    requires ResultAt(values, v, j, p)
  {
    var names, row := OutputNames(values), AggregateAll(rs, keys, k, values);
    && 0 <= p < |names| && names[p] == values[v].1[j].1
    && p < |row| && IsGroupAggregate(rs, keys, k, values[v].0, values[v].1[j].0, row[p])
  }

  lemma FirstResult(rs: seq<Record>, keys: seq<string>, k: seq<Value>, values: seq<(string, seq<(Kind, string)>)>,
                    j: int)
    requires ResultAt(values, 0, j, j)
    ensures ResultIs(rs, keys, k, values, 0, j, j)
  {
    var c, kind := values[0].0, values[0].1[j].0;
    AggregatedMeaning(kind, GroupValues(rs, keys, k, c));
    GroupValuesNumbered(rs, keys, k, c);
    assert AggregateAll(rs, keys, k, values)[j] == AggregateOne(rs, keys, k, c, values[0].1)[j];
  }

  lemma LaterResult(rs: seq<Record>, keys: seq<string>, k: seq<Value>, values: seq<(string, seq<(Kind, string)>)>,
                    v: int, j: int, p: int)
    requires ResultAt(values, v, j, p) && v > 0
    ensures ResultAt(values[1..], v - 1, j, p - |values[0].1|)
    ensures ResultIs(rs, keys, k, values[1..], v - 1, j, p - |values[0].1|) ==> ResultIs(rs, keys, k, values, v, j, p)
  {
    RequestsBehindFirst(values, v);
  }

  /** The results of one group with their names, in the order of the requests. */
  lemma {:induction false} ResultsInOrder(rs: seq<Record>, keys: seq<string>, k: seq<Value>,
                                          values: seq<(string, seq<(Kind, string)>)>)
    ensures |OutputNames(values)| == |AggregateAll(rs, keys, k, values)| == RequestsBefore(values, |values|)
    ensures forall v, j, p :: ResultAt(values, v, j, p) ==> ResultIs(rs, keys, k, values, v, j, p)
  {
    if values != [] {
      ResultsInOrder(rs, keys, k, values[1..]);
      RequestsBehindFirst(values, |values|);
      forall v, j, p | ResultAt(values, v, j, p) ensures ResultIs(rs, keys, k, values, v, j, p) {
        if v == 0 {
          FirstResult(rs, keys, k, values, j);
        } else {
          LaterResult(rs, keys, k, values, v, j, p);
          assert ResultIs(rs, keys, k, values[1..], v - 1, j, p - |values[0].1|);
        }
      }
    }
  }

  /** The row of group `k`: its key, then the aggregates in the order they were asked for. */
  ghost predicate IsRowOf(rs: seq<Record>, ctx: GroupbyContext, k: seq<Value>, row: Row) {
    && |k| == |ctx.keys| && |row| == |ctx.keys| + RequestsBefore(ctx.values, |ctx.values|)
    && row[..|k|] == k
    && forall v, j, p :: ResultAt(ctx.values, v, j, p) ==>
        |k| <= |k| + p < |row| &&
        IsGroupAggregate(rs, ctx.keys, k, ctx.values[v].0, ctx.values[v].1[j].0, row[|k| + p])
  }

  ghost predicate NamesResults(names: seq<string>, ctx: GroupbyContext) {
    && |names| == |ctx.keys| + RequestsBefore(ctx.values, |ctx.values|)
    && names[..|ctx.keys|] == ctx.keys
    && forall v, j, p :: ResultAt(ctx.values, v, j, p) ==>
        |ctx.keys| <= |ctx.keys| + p < |names| && names[|ctx.keys| + p] == ctx.values[v].1[j].1
  }

  /** The null-free key `k` occurs among the records. */
  ghost predicate IsGroup(rs: seq<Record>, keys: seq<string>, k: seq<Value>) { Null !in k && Occupied(rs, keys, k) }

  ghost predicate RowOfSomeGroup(rs: seq<Record>, ctx: GroupbyContext, row: Row) {
    exists k :: IsGroup(rs, ctx.keys, k) && IsRowOf(rs, ctx, k, row)
  }

  ghost predicate HasRowOf(rs: seq<Record>, ctx: GroupbyContext, k: seq<Value>, rows: seq<Row>) {
    exists row :: row in rows && IsRowOf(rs, ctx, k, row)
  }

  /** One row per null-free key that occurs, with every aggregate that was asked for under its name. */
  ghost predicate DescribesGroups(rs: seq<Record>, ctx: GroupbyContext, out: Table) {
    && NamesResults(out.names, ctx)
    && (forall row :: row in out.rows ==> RowOfSomeGroup(rs, ctx, row))
    && (forall k :: IsGroup(rs, ctx.keys, k) ==> HasRowOf(rs, ctx, k, out.rows))
    && Distinct(Image(out.rows, Front(|ctx.keys|)))
  }

  function Front(n: nat): Row -> Row { (row: Row) => if n <= |row| then row[..n] else row }

  lemma GroupRowIs(rs: seq<Record>, ctx: GroupbyContext, k: seq<Value>)
    requires |k| == |ctx.keys|
    ensures IsRowOf(rs, ctx, k, GroupRow(rs, ctx)(k)) && Front(|ctx.keys|)(GroupRow(rs, ctx)(k)) == k
  {
    ResultsInOrder(rs, ctx.keys, k, ctx.values);
    var row := GroupRow(rs, ctx)(k);
    forall v, j, p | ResultAt(ctx.values, v, j, p)
      ensures |k| <= |k| + p < |row|
      ensures IsGroupAggregate(rs, ctx.keys, k, ctx.values[v].0, ctx.values[v].1[j].0, row[|k| + p])
    {
      assert ResultIs(rs, ctx.keys, k, ctx.values, v, j, p);
      assert row[|k| + p] == AggregateAll(rs, ctx.keys, k, ctx.values)[p];
    }
  }

  lemma NamesAreResults(rs: seq<Record>, ctx: GroupbyContext)
    ensures NamesResults(ctx.keys + OutputNames(ctx.values), ctx)
  {
    ResultsInOrder(rs, ctx.keys, [], ctx.values);
    var names := ctx.keys + OutputNames(ctx.values);
    forall v, j, p | ResultAt(ctx.values, v, j, p)
      ensures |ctx.keys| <= |ctx.keys| + p < |names| && names[|ctx.keys| + p] == ctx.values[v].1[j].1
    {
      assert ResultIs(rs, ctx.keys, [], ctx.values, v, j, p);
      assert names[|ctx.keys| + p] == OutputNames(ctx.values)[p];
    }
  }

  lemma KeysAreGroups(rs: seq<Record>, keys: seq<string>)
    ensures forall k :: k in KeyList(rs, keys) <==> IsGroup(rs, keys, k)
    ensures Distinct(KeyList(rs, keys))
    ensures forall k :: k in KeyList(rs, keys) ==> |k| == |keys|
  {
    var none := (m: Record) => Null;
    KeysListed(rs, keys, none);
    forall k { GroupSumsMeaning(rs, keys, none, k); }
  }

  lemma GroupRowsDescribe(rs: seq<Record>, ctx: GroupbyContext, rows: seq<Row>)
    requires multiset(rows) == multiset(Image(KeyList(rs, ctx.keys), GroupRow(rs, ctx)))
    ensures forall row :: row in rows ==> RowOfSomeGroup(rs, ctx, row)
    ensures forall k :: IsGroup(rs, ctx.keys, k) ==> HasRowOf(rs, ctx, k, rows)
  {
    var ks := KeyList(rs, ctx.keys);
    var image := Image(ks, GroupRow(rs, ctx));
    KeysAreGroups(rs, ctx.keys);
    SameMembers(rows, image);
    forall row | row in rows ensures RowOfSomeGroup(rs, ctx, row) {
      assert row in image;
      var i :| 0 <= i < |image| && image[i] == row;
      assert ks[i] in ks;
      GroupRowIs(rs, ctx, ks[i]);
    }
    forall k | IsGroup(rs, ctx.keys, k) ensures HasRowOf(rs, ctx, k, rows) {
      assert k in ks;
      var i :| 0 <= i < |ks| && ks[i] == k;
      GroupRowIs(rs, ctx, k);
      assert image[i] == GroupRow(rs, ctx)(k) && image[i] in image;
    }
  }

  /** What a groupby returns, told by the rows of its input. */
  lemma GroupedDescribes(t: Table, ctx: GroupbyContext, out: Table)
    requires t.Rectangular() && IsGrouped(t, ctx, out)
    ensures DescribesGroups(RecordsOf(t), ctx, out)
  {
    var rs, ks := RecordsOf(t), KeyList(RecordsOf(t), ctx.keys);
    var image, front := Image(ks, GroupRow(rs, ctx)), Front(|ctx.keys|);
    NamesAreResults(rs, ctx);
    GroupRowsDescribe(rs, ctx, out.rows);
    KeysAreGroups(rs, ctx.keys);
    forall i | 0 <= i < |ks| ensures Image(image, front)[i] == ks[i] {
      assert ks[i] in ks;
      GroupRowIs(rs, ctx, ks[i]);
    }
    assert Image(image, front) == ks;
    ImagePermuted(image, out.rows, front);
    DistinctPermuted(ks, Image(out.rows, front));
  }

  /** The names of one column's results; an unsupported aggregation throws. */
  method CheckAggregations(aggs: seq<(Kind, string)>) returns (r: Result<seq<string>>)
    ensures r.Success? <==> Supported(aggs)
    ensures r.Success? ==> r.value == Image(aggs, Named())
  {
    var names: seq<string> := [];
    for j := 0 to |aggs|
      invariant Supported(aggs[..j]) && names == Image(aggs[..j], Named())
    {
      if aggs[j].0 == Unsupported {
        return Failure;
      }
      names := names + [aggs[j].1];
      assert aggs[..j + 1] == aggs[..j] + [aggs[j]];
    }
    assert aggs[..|aggs|] == aggs;
    r := Success(names);
  }

  /** `apply_groupby`: an unknown key or value column, or an unsupported aggregation, throws. */
  method ApplyGroupby(t: TableWithNames, ctx: GroupbyContext) returns (r: Result<TableWithNames>)
    requires t.View().Rectangular()
    ensures r.Success? <==> Answerable(t.names, ctx)
    ensures r.Success? ==> fresh(r.value) && IsGrouped(t.View(), ctx, r.value.View())
    ensures r.Success? ==> DescribesGroups(RecordsOf(t.View()), ctx, r.value.View())
  {
    var keyIds :- LookUp(t, ctx.keys);
    var names := ctx.keys;
    for i := 0 to |ctx.values|
      invariant Requestable(t.names, ctx.values[..i]) && names == ctx.keys + OutputNames(ctx.values[..i])
    {
      assert ctx.values[..i + 1] == ctx.values[..i] + [ctx.values[i]];
      var added :- CheckAggregations(ctx.values[i].1);
      var values :- t.Column(ctx.values[i].0);
      OutputNamesSnoc(ctx.values[..i], ctx.values[i]);
      ConcatAssociative(ctx.keys, OutputNames(ctx.values[..i]), added);
      names := names + added;
    }
    assert ctx.values[..|ctx.values|] == ctx.values;
    var rs := RecordsOf(t.View());
    var grouped := new TableWithNames(Table(names, Image(KeyList(rs, ctx.keys), GroupRow(rs, ctx))));
    GroupedDescribes(t.View(), ctx, grouped.View());
    r := Success(grouped);
  }

  // ------------------------------------------------------------ groups as rows

  ghost predicate IsGroupRow(row: Row, groups: Groups) { exists k :: k in groups && row == k + [groups[k]] }

  /** `rows` holds each group once, its sum behind its key. */
  ghost predicate Lists(rows: seq<Row>, groups: Groups) {
    && (forall i :: 0 <= i < |rows| ==> IsGroupRow(rows[i], groups))
    && (forall k :: k in groups ==> k + [groups[k]] in rows)
    && forall i, j :: 0 <= i < j < |rows| ==> rows[i] != rows[j]
  }

  lemma ListsPermuted(a: seq<Row>, b: seq<Row>, groups: Groups)
    requires Lists(a, groups) && multiset(a) == multiset(b)
    ensures Lists(b, groups)
  {
    DistinctPermuted(a, b);
    forall i | 0 <= i < |b| ensures IsGroupRow(b[i], groups) {
      assert b[i] in a;
      var j :| 0 <= j < |a| && a[j] == b[i];
    }
  }

  /** The one aggregation the queries ask for. */
  function SumRequest(keys: seq<string>, value: string, name: string): GroupbyContext {
    GroupbyContext(keys, [(value, [(SUM, name)])])
  }

  lemma SumRow(rs: seq<Record>, keys: seq<string>, value: string, name: string, k: seq<Value>)
    requires k in GroupSums(rs, keys, ColumnValue(value))
    ensures GroupRow(rs, SumRequest(keys, value, name))(k) == k + [GroupSums(rs, keys, ColumnValue(value))[k]]
  {
    var values := [(value, [(SUM, name)])];
    SumOfGroup(rs, keys, k, value);
    GroupSumsMeaning(rs, keys, ColumnValue(value), k);
    assert values[1..] == [];
    assert AggregateOne(rs, keys, k, value, [(SUM, name)]) == [SumOf(GroupValues(rs, keys, k, value))];
    assert AggregateAll(rs, keys, k, values) == [SumOf(GroupValues(rs, keys, k, value))];
  }

  /** A groupby with one sum lists the grouped sums. */
  lemma SumsListed(t: Table, keys: seq<string>, value: string, name: string, out: Table)
    requires t.Rectangular() && IsGrouped(t, SumRequest(keys, value, name), out)
    ensures out.names == keys + [name]
    ensures Lists(out.rows, GroupSums(RecordsOf(t), keys, ColumnValue(value)))
  {
    var rs, ctx := RecordsOf(t), SumRequest(keys, value, name);
    var groups, ks := GroupSums(rs, keys, ColumnValue(value)), KeyList(rs, keys);
    var rows := Image(ks, GroupRow(rs, ctx));
    KeysListed(rs, keys, ColumnValue(value));
    forall k | k in groups ensures GroupRow(rs, ctx)(k) == k + [groups[k]] {
      SumRow(rs, keys, value, name, k);
    }
    RowsList(ks, rows, groups);
    ListsPermuted(rows, out.rows, groups);
    assert ctx.values[1..] == [];
    assert OutputNames(ctx.values) == [name];
  }

  lemma RowsList(ks: seq<seq<Value>>, rows: seq<Row>, groups: Groups)
    requires |rows| == |ks| && (forall k :: k in ks <==> k in groups)
    requires forall i, j :: 0 <= i < j < |ks| ==> ks[i] != ks[j]
    requires forall i, j :: 0 <= i < |ks| && 0 <= j < |ks| ==> |ks[i]| == |ks[j]|
    requires forall i :: 0 <= i < |rows| ==> ks[i] in groups && rows[i] == ks[i] + [groups[ks[i]]]
    ensures Lists(rows, groups)
  {
    forall i | 0 <= i < |rows| ensures IsGroupRow(rows[i], groups) {
      assert ks[i] in groups;
    }
    forall k | k in groups ensures k + [groups[k]] in rows {
      var i :| 0 <= i < |ks| && ks[i] == k;
      assert rows[i] == k + [groups[k]];
    }
    forall i, j | 0 <= i < j < |rows| ensures rows[i] != rows[j] {
      assert rows[i][..|ks[i]|] == ks[i] && rows[j][..|ks[j]|] == ks[j];
    }
  }

  // ------------------------------------------------------------------ ordering

  datatype Order = ASCENDING | DESCENDING

  /** Nulls come before everything else. */
  predicate ValueLess(a: Value, b: Value) {
    match (a, b)
    case (Null, _) => b != Null
    case (Num(x), Num(y)) => x < y
    case (Num(_), Text(_)) => true
    case (Text(x), Text(y)) => Before(x, y)
    case (_, _) => false
  }

  lemma ValueTotal(a: Value, b: Value)
    ensures !(ValueLess(a, b) && ValueLess(b, a))
    ensures ValueLess(a, b) || ValueLess(b, a) <==> a != b
  {
    if a.Text? && b.Text? {
      BeforeTotal(a.s, b.s);
      BeforeIrreflexive(a.s);
      if Before(a.s, b.s) {
        BeforeAsymmetric(a.s, b.s);
      }
    }
  }

  lemma ValueTransitive(a: Value, b: Value, c: Value)
    requires ValueLess(a, b) && ValueLess(b, c)
    ensures ValueLess(a, c)
  {
    if a.Text? {
      BeforeTransitive(a.s, b.s, c.s);
    }
  }

  /** Nulls first, numbers by size and before texts, texts by the first place where they differ. */
  lemma ValueLessIff(a: Value, b: Value)
    ensures a == Null ==> (ValueLess(a, b) <==> b != Null)
    ensures a.Num? ==> (ValueLess(a, b) <==> b.Text? || (b.Num? && a.n < b.n))
    ensures a.Text? ==> (ValueLess(a, b) <==> b.Text? && exists k :: LeadsAt(a.s, b.s, k))
  {
    if a.Text? && b.Text? {
      BeforeIff(a.s, b.s);
    }
  }

  /** Sort columns by number, each with its direction. */
  type SortKeys = seq<(nat, Order)>

  function CellAt(row: Row, i: nat): Value { if i < |row| then row[i] else Null }

  /** `x` comes before `y`: at the first column where they differ. */
  predicate RowLess(x: Row, y: Row, order: SortKeys) {
    order != [] &&
    var a, b := CellAt(x, order[0].0), CellAt(y, order[0].0);
    if a == b then RowLess(x, y, order[1..]) else if order[0].1 == ASCENDING then ValueLess(a, b) else ValueLess(b, a)
  }

  /** The rows agree in every sort column. */
  predicate Ties(x: Row, y: Row, order: SortKeys) {
    forall i :: 0 <= i < |order| ==> CellAt(x, order[i].0) == CellAt(y, order[i].0)
  }

  lemma {:induction false} RowTotal(x: Row, y: Row, order: SortKeys)
    ensures !(RowLess(x, y, order) && RowLess(y, x, order))
    ensures RowLess(x, y, order) || RowLess(y, x, order) <==> !Ties(x, y, order)
  {
    if order != [] {
      ValueTotal(CellAt(x, order[0].0), CellAt(y, order[0].0));
      RowTotal(x, y, order[1..]);
      assert Ties(x, y, order) <==> CellAt(x, order[0].0) == CellAt(y, order[0].0) && Ties(x, y, order[1..]) by {
        assert forall i :: 0 < i < |order| ==> order[i] == order[1..][i - 1];
      }
    }
  }

  lemma {:induction false} RowTransitive(x: Row, y: Row, z: Row, order: SortKeys)
    requires !RowLess(y, x, order) && !RowLess(z, y, order)
    ensures !RowLess(z, x, order)
  {
    if order != [] {
      var a, b, c := CellAt(x, order[0].0), CellAt(y, order[0].0), CellAt(z, order[0].0);
      ValueTotal(a, b);
      ValueTotal(b, c);
      ValueTotal(a, c);
      if a == b == c {
        RowTransitive(x, y, z, order[1..]);
      } else if a != b && b != c {
        if order[0].1 == ASCENDING {
          ValueTransitive(a, b, c);
        } else {
          ValueTransitive(c, b, a);
        }
      }
    }
  }

  function Earlier(order: SortKeys): (Row, Row) -> bool { (x: Row, y: Row) => RowLess(x, y, order) }

  lemma EarlierIsOrder(order: SortKeys)
    ensures WeakOrder(Earlier(order))
  {
    forall a, b | Earlier(order)(a, b) ensures !Earlier(order)(b, a) {
      RowTotal(a, b, order);
    }
    forall a, b, c | !Earlier(order)(b, a) && !Earlier(order)(c, b) ensures !Earlier(order)(c, a) {
      RowTransitive(a, b, c, order);
    }
  }

  function ByColumns(names: seq<string>, cols: seq<string>, orders: seq<Order>): (order: SortKeys)
    requires AllNamed(names, cols)
    ensures |order| == |cols|
    ensures forall i :: 0 <= i < |cols| ==>
        order[i] == (ColumnId(names, cols[i]).value, if i < |orders| then orders[i] else ASCENDING)
  {
    seq(|cols|, i requires 0 <= i < |cols| =>
        (ColumnId(names, cols[i]).value, if i < |orders| then orders[i] else ASCENDING))
  }

  /** The value of the named column. */
  function ValueIn(names: seq<string>, row: Row, col: string): Value
    requires col in names
  {
    CellAt(row, ColumnId(names, col).value)
  }

  /** Descending if the directions say so; no directions mean ascending. */
  predicate Descends(orders: seq<Order>, i: nat) { i < |orders| && orders[i] == DESCENDING }

  /** `x` may stand before `y`: the first column in which they differ, if any, has them in the order asked for. */
  ghost predicate MayPrecede(names: seq<string>, cols: seq<string>, orders: seq<Order>, x: Row, y: Row)
    requires AllNamed(names, cols)
  {
    (forall i :: 0 <= i < |cols| ==> ValueIn(names, x, cols[i]) == ValueIn(names, y, cols[i]))
    || exists d :: DecidesAt(names, cols, orders, x, y, d)
  }

  ghost predicate DecidesAt(names: seq<string>, cols: seq<string>, orders: seq<Order>, x: Row, y: Row, d: nat)
    requires AllNamed(names, cols)
  {
    && d < |cols|
    && (forall i :: 0 <= i < d ==> ValueIn(names, x, cols[i]) == ValueIn(names, y, cols[i]))
    && var a, b := ValueIn(names, x, cols[d]), ValueIn(names, y, cols[d]);
       if Descends(orders, d) then ValueLess(b, a) else ValueLess(a, b)
  }

  /** The first column that decides between two rows. */
  lemma {:induction false} RowLessDecides(x: Row, y: Row, order: SortKeys) returns (d: nat)
    requires RowLess(x, y, order)
    ensures d < |order| && forall i :: 0 <= i < d ==> CellAt(x, order[i].0) == CellAt(y, order[i].0)
    ensures var a, b := CellAt(x, order[d].0), CellAt(y, order[d].0);
            if order[d].1 == DESCENDING then ValueLess(b, a) else ValueLess(a, b)
  {
    d := 0;
    if CellAt(x, order[0].0) == CellAt(y, order[0].0) {
      var e := RowLessDecides(x, y, order[1..]);
      d := e + 1;
      assert forall i :: 0 < i < |order| ==> order[i] == order[1..][i - 1];
    }
  }

  /** Sorted rows stand in the order that was asked for. */
  lemma OrderedMayPrecede(names: seq<string>, cols: seq<string>, orders: seq<Order>, x: Row, y: Row)
    requires AllNamed(names, cols) && !RowLess(y, x, ByColumns(names, cols, orders))
    ensures MayPrecede(names, cols, orders, x, y)
  {
    var order := ByColumns(names, cols, orders);
    RowTotal(x, y, order);
    if RowLess(x, y, order) {
      var d := RowLessDecides(x, y, order);
      forall i | 0 <= i <= d ensures order[i].0 == ColumnId(names, cols[i]).value {}
      assert DecidesAt(names, cols, orders, x, y, d);
    } else {
      forall i | 0 <= i < |cols| ensures ValueIn(names, x, cols[i]) == ValueIn(names, y, cols[i]) {
        assert CellAt(x, order[i].0) == CellAt(y, order[i].0);
      }
    }
  }

  /** A result of ordering: the same rows, sorted; ties in any order. */
  ghost predicate IsOrdered(t: Table, cols: seq<string>, orders: seq<Order>, out: Table) {
    && AllNamed(t.names, cols)
    && out.names == t.names
    && multiset(out.rows) == multiset(t.rows)
    && Sorted(out.rows, Earlier(ByColumns(t.names, cols, orders)))
  }

  /** `apply_orderby`: no directions mean all ascending; an unknown column or a wrong number of directions throws. */
  method ApplyOrderby(t: TableWithNames, cols: seq<string>, orders: seq<Order>) returns (r: Result<TableWithNames>)
    ensures r.Success? <==> AllNamed(t.names, cols) && (orders == [] || |orders| == |cols|)
    ensures r.Success? ==> fresh(r.value) && IsOrdered(t.View(), cols, orders, r.value.View())
    ensures r.Success? ==> forall i, j :: 0 <= i < j < |r.value.rows| ==>
        MayPrecede(t.names, cols, orders, r.value.rows[i], r.value.rows[j])
  {
    var ids :- LookUp(t, cols);
    if orders != [] && |orders| != |cols| {
      return Failure;
    }
    var order := ByColumns(t.names, cols, orders);
    EarlierIsOrder(order);
    SortSorts(t.rows, Earlier(order));
    var rows := Sort(t.rows, Earlier(order));
    forall i, j | 0 <= i < j < |rows| ensures MayPrecede(t.names, cols, orders, rows[i], rows[j]) {
      OrderedMayPrecede(t.names, cols, orders, rows[i], rows[j]);
    }
    var ordered := new TableWithNames(Table(t.names, rows));
    r := Success(ordered);
  }

  // -------------------------------------------------------------- query results

  /** The result table of a grouped query: one row per group, its sum behind its key, sorted. */
  ghost predicate IsAnswer(out: Table, keys: seq<string>, name: string, groups: Groups, cols: seq<string>,
                           orders: seq<Order>) {
    && out.names == keys + [name] && Lists(out.rows, groups)
    && AllNamed(out.names, cols) && Sorted(out.rows, Earlier(ByColumns(out.names, cols, orders)))
  }

  /** Groups by `keys`, sums `value` under the name `name`, and orders the groups. */
  method SumAndOrder(t: TableWithNames, keys: seq<string>, value: string, name: string, cols: seq<string>,
                     orders: seq<Order>)
      returns (r: Result<TableWithNames>)
    requires t.View().Rectangular() && (orders == [] || |orders| == |cols|)
    ensures r.Success? <==> AllNamed(t.names, keys) && value in t.names && AllNamed(keys + [name], cols)
    ensures r.Success? ==>
        && fresh(r.value)
        && IsAnswer(r.value.View(), keys, name, GroupSums(RecordsOf(t.View()), keys, ColumnValue(value)), cols, orders)
  {
    var ctx := SumRequest(keys, value, name);
    assert Answerable(t.names, ctx) <==> AllNamed(t.names, keys) && value in t.names by {
      assert Answerable(t.names, ctx) ==> ctx.values[0].0 in t.names;
    }
    var grouped :- ApplyGroupby(t, ctx);
    SumsListed(t.View(), keys, value, name, grouped.View());
    r := ApplyOrderby(grouped, cols, orders);
    if r.Success? {
      ListsPermuted(grouped.rows, r.value.rows, GroupSums(RecordsOf(t.View()), keys, ColumnValue(value)));
    }
  }

  /** Ordered by all its keys, a grouped result has only one possible order. */
  lemma AnswerUnique(a: Table, b: Table, keys: seq<string>, name: string, groups: Groups, orders: seq<Order>)
    requires Distinct(keys) && forall k :: k in groups ==> |k| == |keys|
    requires IsAnswer(a, keys, name, groups, keys, orders) && IsAnswer(b, keys, name, groups, keys, orders)
    ensures a == b
  {
    var order := ByColumns(a.names, keys, orders);
    ListsSame(a.rows, b.rows, groups);
    var rows := a.rows;
    forall i, j | 0 <= i < |rows| && 0 <= j < |rows| && !Earlier(order)(rows[i], rows[j])
        && !Earlier(order)(rows[j], rows[i])
      ensures rows[i] == rows[j]
    {
      RowTotal(rows[i], rows[j], order);
      TiedKeys(keys, name, groups, orders, rows[i], rows[j]);
    }
    SortedUnique(a.rows, b.rows, Earlier(order));
  }

  lemma {:induction false} KeyColumn(keys: seq<string>, name: string, i: nat)
    requires Distinct(keys) && i < |keys|
    ensures keys[i] in keys + [name] && ColumnId(keys + [name], keys[i]).value == i
  {
    assert (keys + [name])[i] == keys[i] && (keys + [name])[0] == keys[0];
    if i > 0 {
      assert (keys + [name])[1..] == keys[1..] + [name];
      KeyColumn(keys[1..], name, i - 1);
    }
  }

  lemma TiedKeys(keys: seq<string>, name: string, groups: Groups, orders: seq<Order>, x: Row, y: Row)
    requires Distinct(keys) && (forall k :: k in groups ==> |k| == |keys|) && AllNamed(keys + [name], keys)
    requires IsGroupRow(x, groups) && IsGroupRow(y, groups)
    requires Ties(x, y, ByColumns(keys + [name], keys, orders))
    ensures x == y
  {
    var order := ByColumns(keys + [name], keys, orders);
    var k :| k in groups && x == k + [groups[k]];
    var l :| l in groups && y == l + [groups[l]];
    forall i | 0 <= i < |keys| ensures k[i] == l[i] {
      KeyColumn(keys, name, i);
      assert CellAt(x, order[i].0) == CellAt(y, order[i].0);
      assert x[i] == k[i] && y[i] == l[i];
    }
    assert k == l;
  }

  /** Two listings of the same groups are permutations of each other. */
  lemma ListsSame(a: seq<Row>, b: seq<Row>, groups: Groups)
    requires Lists(a, groups) && Lists(b, groups)
    ensures multiset(a) == multiset(b)
  {
    forall r ensures multiset(a)[r] == multiset(b)[r] {
      OccursOnce(a, r);
      OccursOnce(b, r);
    }
  }
}
