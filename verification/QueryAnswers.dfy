/**
  Grouped queries over joined tables: what a plan's grouped and ordered output is
  worth as an answer to the query.
 */
module QueryAnswers {
  import opened Outcomes
  import opened Sequences
  import opened NamedTables
  import opened TableOps
  import opened QueryPlans
  import opened JoinTrees
  import opened GroupedTables

  /** `select keys, sum(value) from (select ... from ... where clause) group by keys`. */
  datatype Query = Query(clause: Condition, inner: Record -> Record, keys: seq<string>, value: Record -> Value) {
    /** The rows that are grouped, under the given equality of join keys. */
    ghost function Rows(ss: seq<Source>, eq: (Value, Value) -> bool): seq<Record>
      requires ValidSources(ss)
    {
      Image(QueryRows(ss, clause, eq), inner)
    }

    /** The groups that `groupby` makes of these rows: none for null keys. */
    ghost function Answer(ss: seq<Source>, eq: (Value, Value) -> bool): Groups
      requires ValidSources(ss)
    {
      GroupSums(Rows(ss, eq), keys, value)
    }

    /** The answer by SQL's own rules: no match on nulls, a group for null keys too. */
    ghost function SqlAnswer(ss: seq<Source>): Groups
      requires ValidSources(ss)
    {
      SqlGroupSums(Rows(ss, SqlEqual()), keys, value)
    }

    /** No row of the SQL query has a null group key. */
    ghost predicate NullFreeGroups(ss: seq<Source>)
      requires ValidSources(ss)
    {
      NullFreeKeys(Rows(ss, SqlEqual()), keys)
    }
  }

  /** `groupby` leaves out null keys: the SQL answer exactly when the query has no row with one. */
  lemma SqlAnswerIff(q: Query, ss: seq<Source>)
    requires ValidSources(ss)
    ensures q.Answer(ss, SqlEqual()) == q.SqlAnswer(ss) <==> q.NullFreeGroups(ss)
  {
    GroupSumsIsSqlIff(q.Rows(ss, SqlEqual()), q.keys, q.value);
  }

  lemma SameRowsSameAnswer(a: seq<Record>, b: seq<Record>, q: Query)
    requires multiset(a) == multiset(b)
    ensures GroupSums(Image(a, q.inner), q.keys, q.value) == GroupSums(Image(b, q.inner), q.keys, q.value)
  {
    ImagePermuted(a, b, q.inner);
    GroupSumsPermuted(Image(a, q.inner), Image(b, q.inner), q.keys, q.value);
  }

  /** Grouping a plan's rows, in whatever order the joins left them, gives the query's groups. */
  lemma PlanAnswers(t: JoinTree, ss: seq<Source>, q: Query, nulls: NullEquality, out: Table)
    requires ValidSources(ss) && Implements(t, ss, q.clause) && Yields(t, ss, nulls, out)
    ensures out.Valid() && out.Schema() == Kept(ss)
    ensures GroupSums(Image(RecordsOf(out), q.inner), q.keys, q.value) == q.Answer(ss, Equality(nulls))
  {
    PlanIsQuery(t, ss, q.clause, nulls, out);
    SameRowsSameAnswer(RecordsOf(out), QueryRows(ss, q.clause, Equality(nulls)), q);
  }

  /** With primary keys present, null-safe matching makes no difference to the answer. */
  lemma GuardedAnswersAgree(ss: seq<Source>, q: Query, primary: seq<string>)
    requires ValidSources(ss) && q.clause.Over(Kept(ss)) && KeysGuarded(ss, q.clause, primary)
    ensures AnswersSql(q, ss)
  {
    GuardedQueriesAgree(ss, q.clause, primary);
    SameRowsSameAnswer(QueryRows(ss, q.clause, NullSafeEqual()), QueryRows(ss, q.clause, SqlEqual()), q);
    SqlAnswerIff(q, ss);
  }

  /** Null-safe matching gives the answer of SQL's matching, and SQL's own answer if no group key is null. */
  ghost predicate AnswersSql(q: Query, ss: seq<Source>)
    requires ValidSources(ss)
  {
    && q.Answer(ss, NullSafeEqual()) == q.Answer(ss, SqlEqual())
    && (q.NullFreeGroups(ss) ==> q.Answer(ss, NullSafeEqual()) == q.SqlAnswer(ss))
  }

  lemma {:induction false} GroupSumsKeyed(rs: seq<Record>, keys: seq<string>, val: Record -> Value)
    ensures forall k :: k in GroupSums(rs, keys, val) ==> |k| == |keys|
  {
    if rs != [] {
      GroupSumsKeyed(rs[1..], keys, val);
    }
  }

  /** The select list of queries that group the joined rows themselves. */
  function Whole(): Record -> Record { (m: Record) => m }

  lemma WholeRows(rs: seq<Record>)
    ensures Image(rs, Whole()) == rs
  {
  }

  // -------------------------------------------------------------------- totals

  /** A row of the answer: the key of a group that occurs, and the total of its numbers. */
  ghost predicate IsTotalRow(row: Row, rs: seq<Record>, keys: seq<string>, val: Record -> Value, k: seq<Value>) {
    Occupied(rs, keys, k) && |row| == |k| + 1 && row[..|k|] == k && IsGroupTotal(rs, keys, val, k, row[|k|])
  }

  ghost predicate TotalsSomeGroup(row: Row, rs: seq<Record>, keys: seq<string>, val: Record -> Value, nullsToo: bool) {
    exists k :: (nullsToo || Null !in k) && IsTotalRow(row, rs, keys, val, k)
  }

  ghost predicate HasTotalRow(rows: seq<Row>, rs: seq<Record>, keys: seq<string>, val: Record -> Value, k: seq<Value>) {
    exists i :: 0 <= i < |rows| && IsTotalRow(rows[i], rs, keys, val, k)
  }

  /** `rows` are the totals of the groups of `rs`, each group once; those with nulls in the key only if asked for. */
  ghost predicate ListsTotals(rows: seq<Row>, rs: seq<Record>, keys: seq<string>, val: Record -> Value,
                              nullsToo: bool) {
    && (forall i :: 0 <= i < |rows| ==> TotalsSomeGroup(rows[i], rs, keys, val, nullsToo))
    && (forall k :: Occupied(rs, keys, k) && (nullsToo || Null !in k) ==> HasTotalRow(rows, rs, keys, val, k))
    && forall i, j :: 0 <= i < j < |rows| ==> rows[i] != rows[j]
  }

  /** Rows that list a map of groups list the totals the map holds. */
  lemma ListedTotals(rows: seq<Row>, rs: seq<Record>, keys: seq<string>, val: Record -> Value, groups: Groups,
                     nullsToo: bool)
    requires Lists(rows, groups)
    requires forall k :: k in groups <==> Occupied(rs, keys, k) && (nullsToo || Null !in k)
    requires forall k :: k in groups ==> IsGroupTotal(rs, keys, val, k, groups[k])
    ensures ListsTotals(rows, rs, keys, val, nullsToo)
  {
    forall i | 0 <= i < |rows| ensures TotalsSomeGroup(rows[i], rs, keys, val, nullsToo) {
      assert IsGroupRow(rows[i], groups);
      var k :| k in groups && rows[i] == k + [groups[k]];
      assert IsTotalRow(rows[i], rs, keys, val, k);
    }
    forall k | Occupied(rs, keys, k) && (nullsToo || Null !in k) ensures HasTotalRow(rows, rs, keys, val, k) {
      var i :| 0 <= i < |rows| && rows[i] == k + [groups[k]];
      assert IsTotalRow(rows[i], rs, keys, val, k);
    }
  }

  /** The answer's rows, told by the rows that were grouped. */
  lemma AnswerTotals(rows: seq<Row>, rs: seq<Record>, keys: seq<string>, val: Record -> Value)
    ensures Lists(rows, GroupSums(rs, keys, val)) ==> ListsTotals(rows, rs, keys, val, false)
    ensures Lists(rows, SqlGroupSums(rs, keys, val)) ==> ListsTotals(rows, rs, keys, val, true)
  {
    forall k
      ensures k in GroupSums(rs, keys, val) <==> Occupied(rs, keys, k) && Null !in k
      ensures k in GroupSums(rs, keys, val) ==> IsGroupTotal(rs, keys, val, k, GroupSums(rs, keys, val)[k])
      ensures k in SqlGroupSums(rs, keys, val) <==> Occupied(rs, keys, k)
      ensures k in SqlGroupSums(rs, keys, val) ==> IsGroupTotal(rs, keys, val, k, SqlGroupSums(rs, keys, val)[k])
    {
      GroupSumsMeaning(rs, keys, val, k);
      SqlGroupSumsMeaning(rs, keys, val, k);
    }
    if Lists(rows, GroupSums(rs, keys, val)) {
      ListedTotals(rows, rs, keys, val, GroupSums(rs, keys, val), false);
    }
    if Lists(rows, SqlGroupSums(rs, keys, val)) {
      ListedTotals(rows, rs, keys, val, SqlGroupSums(rs, keys, val), true);
    }
  }

  /** The rows total the query's groups under the given equality of join keys. */
  ghost predicate Reports(rows: seq<Row>, q: Query, ss: seq<Source>, eq: (Value, Value) -> bool, nullsToo: bool)
    requires ValidSources(ss)
  {
    ListsTotals(rows, q.Rows(ss, eq), q.keys, q.value, nullsToo)
  }

  lemma AnswerReports(rows: seq<Row>, q: Query, ss: seq<Source>)
    requires ValidSources(ss)
    ensures Lists(rows, q.Answer(ss, NullSafeEqual())) ==> Reports(rows, q, ss, NullSafeEqual(), false)
    ensures Lists(rows, q.SqlAnswer(ss)) ==> Reports(rows, q, ss, SqlEqual(), true)
  {
    AnswerTotals(rows, q.Rows(ss, NullSafeEqual()), q.keys, q.value);
    AnswerTotals(rows, q.Rows(ss, SqlEqual()), q.keys, q.value);
  }

  // ------------------------------------------------------------------- revenue

  lemma NamedBefore(names: seq<string>, added: string, keys: seq<string>)
    requires added !in keys
    ensures AllNamed(names + [added], keys) <==> AllNamed(names, keys)
  {
    if AllNamed(names + [added], keys) {
      forall k | 0 <= k < |keys| ensures keys[k] in names {
        assert keys[k] in names + [added];
      }
    }
  }

  /** The revenue of each group, largest first. */
  ghost predicate IsRevenueAnswer(out: Table, keys: seq<string>, groups: Groups) {
    IsAnswer(out, keys, "revenue", groups, ["revenue"], [DESCENDING])
  }

  /** Appends the revenue column, sums it per group, and puts the largest sums first. */
  method RevenueByGroup(joined: TableWithNames, keys: seq<string>) returns (r: Result<TableWithNames>)
    requires joined.View().Valid() && "revenue" !in joined.names && "revenue" !in keys
    modifies joined
    ensures r.Success? <==>
        "l_extendedprice" in old(joined.names) && "l_discount" in old(joined.names) && AllNamed(old(joined.names), keys)
    ensures r.Success? ==>
        IsRevenueAnswer(r.value.View(), keys, GroupSums(old(RecordsOf(joined.View())), keys, RevenueOf()))
  {
    ghost var before := joined.View();
    var prices :- joined.Column("l_extendedprice");
    var discounts :- joined.Column("l_discount");
    var revenue := RevenueColumn(prices, discounts);
    joined.Append(revenue, "revenue");
    AppendedRecords(before, revenue, "revenue");
    NamedBefore(before.names, "revenue", keys);
    forall i | 0 <= i < |revenue| ensures revenue[i] == RevenueOf()(RecordsOf(before)[i]) {
      assert prices[i] == At(RecordsOf(before)[i], "l_extendedprice");
      assert discounts[i] == At(RecordsOf(before)[i], "l_discount");
    }
    GroupSumsAppended(RecordsOf(joined.View()), RecordsOf(before), keys, "revenue", RevenueOf());
    assert ["revenue"][0] in keys + ["revenue"];
    r := SumAndOrder(joined, keys, "revenue", "revenue", ["revenue"], [DESCENDING]);
  }
}
