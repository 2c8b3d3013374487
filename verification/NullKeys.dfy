/**
  Query 5 on databases with one row per table. If the join keys are null, the plan
  matches them with each other and reports a group, and SQL matches none and reports
  nothing. If the group key is null, SQL reports its group and the plan leaves it out.
 */
module NullKeys {
  import opened Outcomes
  import opened Sequences
  import opened NamedTables
  import opened TableOps
  import opened QueryPlans
  import opened JoinTrees
  import opened GroupedTables
  import opened QueryAnswers
  import opened QueryQ5

  /** The one value of each column: the filters pass, nations are called `nation`, and all else is `key`. */
  datatype Cells = Cells(key: Value, nation: Value) {
    function Of(c: string): Value {
      if c == "r_name" then Text("ASIA")
      else if c == "o_orderdate" then Num(DATE_LOWER)
      else if c == "n_name" then nation
      else key
    }
  }

  function CellRecord(w: Cells, ks: set<string>): (m: Record)
    ensures m.Keys == ks && forall c :: c in ks ==> m[c] == w.Of(c)
  {
    map c | c in ks :: w.Of(c)
  }

  /** A table with one row. */
  function OneRow(w: Cells, names: seq<string>): (t: Table)
    ensures t.names == names && |t.rows| == 1 && |t.rows[0]| == |names|
    ensures forall k :: 0 <= k < |names| ==> t.rows[0][k] == w.Of(names[k])
  {
    Table(names, [seq(|names|, k requires 0 <= k < |names| => w.Of(names[k]))])
  }

  lemma OneRowRecord(w: Cells, names: seq<string>)
    ensures OneRow(w, names).Rectangular() && RecordsOf(OneRow(w, names)) == [CellRecord(w, NameSet(names))]
  {
    var row := OneRow(w, names).rows[0];
    forall c | c in names ensures ToRecord(names, row)[c] == w.Of(c) {
      ToRecordAt(names, row, c);
    }
    RecordsEqual(ToRecord(names, row), CellRecord(w, NameSet(names)));
  }

  function Rows(w: Cells): Base {
    Base(OneRow(w, CUSTOMER_SCHEMA), OneRow(w, ORDERS_SCHEMA), OneRow(w, LINEITEM_SCHEMA),
         OneRow(w, SUPPLIER_SCHEMA), OneRow(w, NATION_SCHEMA), OneRow(w, REGION_SCHEMA))
  }

  lemma CustomerDistinct()
    ensures Distinct(CUSTOMER_SCHEMA)
  {
  }

  lemma OrdersDistinct()
    ensures Distinct(ORDERS_SCHEMA)
  {
  }

  lemma LineitemDistinct()
    ensures Distinct(LINEITEM_SCHEMA)
  {
  }

  lemma SupplierDistinct()
    ensures Distinct(SUPPLIER_SCHEMA)
  {
  }

  lemma NationDistinct()
    ensures Distinct(NATION_SCHEMA)
  {
  }

  lemma RegionDistinct()
    ensures Distinct(REGION_SCHEMA)
  {
  }

  lemma OneRowValid(w: Cells, names: seq<string>)
    requires Distinct(names)
    ensures OneRow(w, names).Valid()
  {
  }

  lemma RowsValid(w: Cells)
    ensures Rows(w).Valid() && ValidSources(Rows(w).Sources())
  {
    CustomerDistinct();
    OrdersDistinct();
    LineitemDistinct();
    SupplierDistinct();
    NationDistinct();
    RegionDistinct();
    OneRowValid(w, CUSTOMER_SCHEMA);
    OneRowValid(w, ORDERS_SCHEMA);
    OneRowValid(w, LINEITEM_SCHEMA);
    OneRowValid(w, SUPPLIER_SCHEMA);
    OneRowValid(w, NATION_SCHEMA);
    OneRowValid(w, REGION_SCHEMA);
    SourcesValid(Rows(w));
  }

  /** A source over a table with one row. */
  ghost predicate SingleRow(w: Cells, s: Source) { s.Valid() && s.table == OneRow(w, s.table.names) }

  lemma RowsSingle(w: Cells)
    requires ValidSources(Rows(w).Sources())
    ensures forall i :: 0 <= i < 6 ==> SingleRow(w, Rows(w).Sources()[i])
  {
  }

  /** The row of a single-row source occurs in its part of any record made of the same cells. */
  lemma SingleRowOccurs(w: Cells, s: Source, ks: set<string>)
    requires SingleRow(w, s) && s.Columns() <= ks
    ensures SourceCount(s, CellRecord(w, ks)) == 1
  {
    OneRowRecord(w, s.table.names);
    var rs := RecordsOf(s.table);
    ColumnsWithin(s);
    RecordsEqual(Restrict(rs[0], s.Columns()), CellRecord(w, s.Columns()));
    RecordsEqual(Restrict(CellRecord(w, ks), s.Columns()), CellRecord(w, s.Columns()));
    assert Project(rs, s.Columns()) == [CellRecord(w, s.Columns())];
  }

  lemma {:induction false} AllOnes(s: seq<nat>)
    requires forall i :: 0 <= i < |s| ==> s[i] == 1
    ensures ProductOf(s) == 1
  {
    if s != [] {
      AllOnes(s[1..]);
    }
  }

  /** The combination of all rows occurs. */
  lemma CombinationOccurs(w: Cells, ss: seq<Source>)
    requires ValidSources(ss) && forall i :: 0 <= i < |ss| ==> SingleRow(w, ss[i])
    ensures ProductOf(SourceCounts(ss, CellRecord(w, Kept(ss)))) == 1
  {
    forall i | 0 <= i < |ss| ensures SourceCounts(ss, CellRecord(w, Kept(ss)))[i] == 1 {
      UnionMember(KeptSets(ss), i);
      SingleRowOccurs(w, ss[i], Kept(ss));
    }
    AllOnes(SourceCounts(ss, CellRecord(w, Kept(ss))));
  }

  lemma KeyCells(w: Cells)
    ensures w.Of("c_custkey") == w.Of("o_custkey") == w.Of("l_orderkey") == w.Of("o_orderkey") == w.key
    ensures w.Of("l_suppkey") == w.Of("s_suppkey") == w.Of("c_nationkey") == w.Of("s_nationkey") == w.key
    ensures w.Of("n_nationkey") == w.Of("n_regionkey") == w.Of("r_regionkey") == w.key
  {
  }

  lemma CombinationTests(w: Cells, ks: set<string>)
    requires Clause().Over(ks)
    ensures Clause().TestsHold(CellRecord(w, ks))
  {
    var m, c := CellRecord(w, ks), Clause();
    assert w.Of("r_name") == Text("ASIA") && w.Of("o_orderdate") == Num(DATE_LOWER);
    forall k | 0 <= k < |c.tests| ensures c.tests[k].1(At(m, c.tests[k].0)) {
      assert At(m, c.tests[k].0) == w.Of(c.tests[k].0);
    }
  }

  lemma EqualCells(w: Cells)
    ensures forall k :: 0 <= k < |Clause().equals| ==>
        w.Of(Clause().equals[k].0) == w.key && w.Of(Clause().equals[k].1) == w.key
  {
    KeyCells(w);
  }

  lemma CombinationMatches(w: Cells, ks: set<string>, nulls: NullEquality)
    requires Clause().Over(ks) && SameKey(nulls, w.key, w.key)
    ensures Clause().EqualsHold(CellRecord(w, ks), Equality(nulls))
  {
    var m, c := CellRecord(w, ks), Clause();
    EqualCells(w);
    forall k | 0 <= k < |c.equals| ensures Equality(nulls)(At(m, c.equals[k].0), At(m, c.equals[k].1)) {
      assert At(m, c.equals[k].0) == w.Of(c.equals[k].0) && At(m, c.equals[k].1) == w.Of(c.equals[k].1);
    }
  }

  /** Where its key matches itself, the combination of all rows is a row of the query. */
  lemma CombinationReturned(w: Cells, ss: seq<Source>, nulls: NullEquality)
    requires ValidSources(ss) && (forall i :: 0 <= i < |ss| ==> SingleRow(w, ss[i])) && Clause().Over(Kept(ss))
    requires SameKey(nulls, w.key, w.key)
    ensures CellRecord(w, Kept(ss)) in QueryRows(ss, Clause(), Equality(nulls))
  {
    CombinationOccurs(w, ss);
    CombinationMatches(w, Kept(ss), nulls);
    CombinationTests(w, Kept(ss));
    QueryCount(ss, Clause(), Equality(nulls), CellRecord(w, Kept(ss)));
    assert CellRecord(w, Kept(ss)) in multiset(QueryRows(ss, Clause(), Equality(nulls)));
  }

  /** A column of source `i` holds its one value in every row of the query. */
  lemma OneValue(w: Cells, i: nat, k: nat, col: string, m: Record)
    requires ValidSources(Rows(w).Sources()) && i < 6 && k < |Rows(w).Sources()[i].cols|
    requires Rows(w).Sources()[i].cols[k] == col && ProductOf(SourceCounts(Rows(w).Sources(), m)) > 0
    ensures At(m, col) == w.Of(col)
  {
    var ss := Rows(w).Sources();
    RowsSingle(w);
    PositiveFactor(SourceCounts(ss, m), i);
    OneValueIn(w, ss[i], k, m);
  }

  lemma OneValueIn(w: Cells, s: Source, k: nat, m: Record)
    requires SingleRow(w, s) && k < |s.cols| && SourceCount(s, m) > 0
    ensures At(m, s.cols[k]) == w.Of(s.cols[k])
  {
    assert s.cols[k] in s.Columns();
    ColumnsWithin(s);
    OneRowRecord(w, s.table.names);
    OccursInTable(RecordsOf(s.table), s.Columns(), m, s.cols[k]);
  }

  // --------------------------------------------------------------- null join keys

  const NULL_JOINS := Cells(Null, Text("CHINA"))

  lemma GroupOf(rows: seq<Record>, m: Record)
    requires m in rows && At(m, "n_name") == Text("CHINA")
    ensures [Text("CHINA")] in GroupSums(rows, ["n_name"], RevenueOf())
  {
    var i :| 0 <= i < |rows| && rows[i] == m;
    assert GroupKey(rows[i], ["n_name"]) == [Text("CHINA")];
    GroupSumsMeaning(rows, ["n_name"], RevenueOf(), [Text("CHINA")]);
  }

  lemma GroupFrom(ss: seq<Source>)
    requires ValidSources(ss) && (forall i :: 0 <= i < |ss| ==> SingleRow(NULL_JOINS, ss[i])) && Clause().Over(Kept(ss))
    requires "n_name" in Kept(ss)
    ensures [Text("CHINA")] in SqlQuery().Answer(ss, NullSafeEqual())
  {
    CombinationReturned(NULL_JOINS, ss, EQUAL);
    WholeRows(QueryRows(ss, Clause(), NullSafeEqual()));
    GroupOf(QueryRows(ss, Clause(), NullSafeEqual()), CellRecord(NULL_JOINS, Kept(ss)));
  }

  /** The plan's answer has a group. */
  lemma GroupReported()
    requires ValidSources(Rows(NULL_JOINS).Sources())
    ensures [Text("CHINA")] in SqlQuery().Answer(Rows(NULL_JOINS).Sources(), NullSafeEqual())
  {
    RowsSingle(NULL_JOINS);
    ClauseColumns(Rows(NULL_JOINS));
    KeptHas(Rows(NULL_JOINS).Sources(), 4, 2);
    GroupFrom(Rows(NULL_JOINS).Sources());
  }

  lemma FirstKeyMatched(m: Record)
    requires Clause().EqualsHold(m, SqlEqual())
    ensures At(m, "c_custkey") != Null
  {
    assert SqlEqual()(At(m, Clause().equals[0].0), At(m, Clause().equals[0].1));
  }

  lemma NoRows(ss: seq<Source>)
    requires ValidSources(ss) && Clause().Over(Kept(ss))
    requires forall m: Record :: ProductOf(SourceCounts(ss, m)) > 0 ==> At(m, "c_custkey") == Null
    ensures QueryRows(ss, Clause(), SqlEqual()) == []
  {
    var rows := QueryRows(ss, Clause(), SqlEqual());
    if rows != [] {
      var m := rows[0];
      assert m in multiset(rows);
      QueryCount(ss, Clause(), SqlEqual(), m);
      FirstKeyMatched(m);
      assert false;
    }
  }

  /** The SQL query has no rows. */
  lemma NothingMatches()
    requires ValidSources(Rows(NULL_JOINS).Sources())
    ensures SqlQuery().SqlAnswer(Rows(NULL_JOINS).Sources()) == map[]
  {
    var ss := Rows(NULL_JOINS).Sources();
    ClauseColumns(Rows(NULL_JOINS));
    KeyCells(NULL_JOINS);
    forall m: Record | ProductOf(SourceCounts(ss, m)) > 0 ensures At(m, "c_custkey") == Null {
      OneValue(NULL_JOINS, 0, 0, "c_custkey", m);
    }
    NoRows(ss);
    WholeRows([]);
  }

  /** The whole run reports a group that the SQL query does not have. */
  method RunOnNullJoinKeys() returns (r: Result<TableWithNames>)
    ensures ValidSources(Rows(NULL_JOINS).Sources())
    ensures r.Success? && r.value.rows != [] && SqlQuery().SqlAnswer(Rows(NULL_JOINS).Sources()) == map[]
    ensures !Lists(r.value.rows, SqlQuery().SqlAnswer(Rows(NULL_JOINS).Sources()))
  {
    RowsValid(NULL_JOINS);
    r := RunQ5(Rows(NULL_JOINS));
    GroupReported();
    NothingMatches();
  }

  // ------------------------------------------------------------- a null group key

  const NULL_GROUP := Cells(Num(1.0), Null)

  lemma {:induction false} NoGroups(rows: seq<Record>)
    requires forall i :: 0 <= i < |rows| ==> At(rows[i], "n_name") == Null
    ensures GroupSums(rows, ["n_name"], RevenueOf()) == map[]
  {
    if rows != [] {
      NoGroups(rows[1..]);
      assert GroupKey(rows[0], ["n_name"])[0] == At(rows[0], "n_name") == Null;
    }
  }

  lemma NullGroupOf(rows: seq<Record>, m: Record)
    requires m in rows && At(m, "n_name") == Null
    ensures [Null] in SqlGroupSums(rows, ["n_name"], RevenueOf())
  {
    var i :| 0 <= i < |rows| && rows[i] == m;
    assert GroupKey(rows[i], ["n_name"]) == [Null];
    InGroupIff(rows[i], ["n_name"], [Null]);
    SqlGroupSumsMeaning(rows, ["n_name"], RevenueOf(), [Null]);
  }

  lemma NullNations(ss: seq<Source>)
    requires ValidSources(ss) && Clause().Over(Kept(ss))
    requires forall m: Record :: ProductOf(SourceCounts(ss, m)) > 0 ==> At(m, "n_name") == Null
    ensures SqlQuery().Answer(ss, NullSafeEqual()) == map[]
  {
    var rows := QueryRows(ss, Clause(), NullSafeEqual());
    forall i | 0 <= i < |rows| ensures At(rows[i], "n_name") == Null {
      assert rows[i] in multiset(rows);
      QueryCount(ss, Clause(), NullSafeEqual(), rows[i]);
    }
    WholeRows(rows);
    NoGroups(rows);
  }

  /** The plan's answer has no group. */
  lemma NothingReported()
    requires ValidSources(Rows(NULL_GROUP).Sources())
    ensures SqlQuery().Answer(Rows(NULL_GROUP).Sources(), NullSafeEqual()) == map[]
  {
    var ss := Rows(NULL_GROUP).Sources();
    ClauseColumns(Rows(NULL_GROUP));
    forall m: Record | ProductOf(SourceCounts(ss, m)) > 0 ensures At(m, "n_name") == Null {
      OneValue(NULL_GROUP, 4, 2, "n_name", m);
    }
    NullNations(ss);
  }

  lemma NullGroupFrom(ss: seq<Source>)
    requires ValidSources(ss) && (forall i :: 0 <= i < |ss| ==> SingleRow(NULL_GROUP, ss[i])) && Clause().Over(Kept(ss))
    requires "n_name" in Kept(ss)
    ensures [Null] in SqlQuery().SqlAnswer(ss)
  {
    CombinationReturned(NULL_GROUP, ss, UNEQUAL);
    WholeRows(QueryRows(ss, Clause(), SqlEqual()));
    NullGroupOf(QueryRows(ss, Clause(), SqlEqual()), CellRecord(NULL_GROUP, Kept(ss)));
  }

  /** SQL's answer has one, with a null key. */
  lemma SqlHasNullGroup()
    requires ValidSources(Rows(NULL_GROUP).Sources())
    ensures [Null] in SqlQuery().SqlAnswer(Rows(NULL_GROUP).Sources())
  {
    RowsSingle(NULL_GROUP);
    ClauseColumns(Rows(NULL_GROUP));
    KeptHas(Rows(NULL_GROUP).Sources(), 4, 2);
    NullGroupFrom(Rows(NULL_GROUP).Sources());
  }

  /** No key is null, and yet the whole run leaves out a group that the SQL query has. */
  method RunOnNullGroupKey() returns (r: Result<TableWithNames>)
    ensures ValidSources(Rows(NULL_GROUP).Sources())
    ensures r.Success? && r.value.rows == [] && [Null] in SqlQuery().SqlAnswer(Rows(NULL_GROUP).Sources())
    ensures !Lists(r.value.rows, SqlQuery().SqlAnswer(Rows(NULL_GROUP).Sources()))
  {
    RowsValid(NULL_GROUP);
    r := RunQ5(Rows(NULL_GROUP));
    NothingReported();
    SqlHasNullGroup();
    EmptyListing(r.value.rows);
  }

  lemma ListedGroup(rows: seq<Row>, groups: Groups, i: nat)
    requires Lists(rows, groups) && i < |rows|
    ensures groups != map[]
  {
    assert IsGroupRow(rows[i], groups);
  }

  lemma EmptyListing(rows: seq<Row>)
    requires Lists(rows, map[])
    ensures rows == []
  {
    if rows != [] {
      ListedGroup(rows, map[], 0);
      assert false;
    }
  }
}
