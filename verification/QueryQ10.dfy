/**
  NDS-H query 10 (TPC-H section 2.4.10): two joins of scans, joined; two filters
  pushed into the scans; revenue grouped by seven columns.
 */
module QueryQ10 {
  import opened Outcomes
  import opened NamedTables
  import opened TableOps
  import opened QueryPlans
  import opened JoinTrees
  import opened QueryAnswers

  const CUSTOMER_COLS := ["c_custkey", "c_name", "c_nationkey", "c_acctbal", "c_address", "c_phone", "c_comment"]
  const ORDERS_COLS := ["o_custkey", "o_orderkey", "o_orderdate"]
  const LINEITEM_COLS := ["l_extendedprice", "l_discount", "l_orderkey", "l_returnflag"]
  const NATION_COLS := ["n_name", "n_nationkey"]

  /** Days from 1970-01-01 to 1993-10-01 and to 1994-01-01. */
  const DATE_LOWER: real := 8674.0
  const DATE_UPPER: real := 8766.0

  function IsLastQuarter1993(): Value -> bool { (v: Value) => v.Num? && DATE_LOWER <= v.n && v.n < DATE_UPPER }

  function IsReturned(): Value -> bool { (v: Value) => v == Text("R") }

  /** The base tables, with their full schemas. */
  datatype Base = Base(customer: Table, orders: Table, lineitem: Table, nation: Table) {
    ghost predicate Valid() {
      && customer.Valid() && customer.names == CUSTOMER_SCHEMA
      && orders.Valid() && orders.names == ORDERS_SCHEMA
      && lineitem.Valid() && lineitem.names == LINEITEM_SCHEMA
      && nation.Valid() && nation.names == NATION_SCHEMA
    }

    /** The scans, in the order of the SQL FROM list. */
    function Sources(): (ss: seq<Source>)
      ensures |ss| == 4
    {
      [CustomerScan(customer), OrdersScan(orders), LineitemScan(lineitem), NationScan(nation)]
    }
  }

  function CustomerScan(t: Table): Source { Source(t, CUSTOMER_COLS, "c_custkey", Unfiltered()) }
  function OrdersScan(t: Table): Source { Source(t, ORDERS_COLS, "o_orderdate", IsLastQuarter1993()) }
  function LineitemScan(t: Table): Source { Source(t, LINEITEM_COLS, "l_returnflag", IsReturned()) }
  function NationScan(t: Table): Source { Source(t, NATION_COLS, "n_name", Unfiltered()) }

  lemma CustomerScanValid(t: Table)
    requires t.Valid() && t.names == CUSTOMER_SCHEMA
    ensures ValidTagged(CustomerScan(t), CUSTOMER)
  {
    PickedSource(CustomerScan(t), [0, 1, 3, 5, 2, 4, 7], 0);
    CustomerTag();
  }

  lemma OrdersScanValid(t: Table)
    requires t.Valid() && t.names == ORDERS_SCHEMA
    ensures ValidTagged(OrdersScan(t), ORDERS)
  {
    PickedSource(OrdersScan(t), [1, 0, 4], 2);
    OrdersTag();
  }

  lemma LineitemScanValid(t: Table)
    requires t.Valid() && t.names == LINEITEM_SCHEMA
    ensures ValidTagged(LineitemScan(t), LINEITEM)
  {
    PickedSource(LineitemScan(t), [5, 6, 0, 8], 3);
    LineitemTag();
  }

  lemma NationScanValid(t: Table)
    requires t.Valid() && t.names == NATION_SCHEMA
    ensures ValidTagged(NationScan(t), NATION)
  {
    PickedSource(NationScan(t), [1, 0], 0);
    NationTag();
  }

  /** The WHERE clause as the SQL text has it. */
  function Clause(): Condition {
    Condition([("c_custkey", "o_custkey"), ("l_orderkey", "o_orderkey"), ("c_nationkey", "n_nationkey")],
              [("o_orderdate", IsLastQuarter1993()), ("l_returnflag", IsReturned())])
  }

  /** The clause, column by column. */
  lemma ClauseHolds(m: Record, eq: (Value, Value) -> bool)
    ensures Clause().EqualsHold(m, eq)
        <==> && eq(At(m, "c_custkey"), At(m, "o_custkey")) && eq(At(m, "l_orderkey"), At(m, "o_orderkey"))
             && eq(At(m, "c_nationkey"), At(m, "n_nationkey"))
    ensures Clause().TestsHold(m)
        <==> && At(m, "l_returnflag") == Text("R") && At(m, "o_orderdate").Num?
             && DaysSinceEpoch(1993, 10) as real <= At(m, "o_orderdate").n < DaysSinceEpoch(1994, 1) as real
  {
    QueryDates();
    EqualsOfThree(Clause(), m, eq);
    TestsOfTwo(Clause(), m);
  }

  function JoinA(): JoinTree { Node(Leaf(0), Leaf(3), ["c_nationkey"], ["n_nationkey"]) }
  function JoinB(): JoinTree { Node(Leaf(2), Leaf(1), ["l_orderkey"], ["o_orderkey"]) }
  function Joined(): JoinTree { Node(JoinA(), JoinB(), ["c_custkey"], ["o_custkey"]) }

  lemma JoinConditions(m: Record, nulls: NullEquality)
    ensures Holds(Joined(), m, nulls) <==> Clause().EqualsHold(m, Equality(nulls))
  {
    AgreeOne(m, "c_nationkey", "n_nationkey", nulls);
    AgreeOne(m, "l_orderkey", "o_orderkey", nulls);
    AgreeOne(m, "c_custkey", "o_custkey", nulls);
    NodeHolds(JoinA(), m, nulls);
    NodeHolds(JoinB(), m, nulls);
    NodeHolds(Joined(), m, nulls);
    EqualsOfThree(Clause(), m, Equality(nulls));
  }

  lemma ScanFilters(db: Base, m: Record)
    ensures AllPass(db.Sources(), m) <==> Clause().TestsHold(m)
  {
    var ss, c := db.Sources(), Clause();
    if AllPass(ss, m) {
      assert Passes(ss[1], m) && Passes(ss[2], m);
    }
    if c.TestsHold(m) {
      assert c.tests[0].1(At(m, c.tests[0].0)) && c.tests[1].1(At(m, c.tests[1].0));
    }
  }

  lemma ClauseColumns(db: Base)
    ensures Clause().Over(Kept(db.Sources()))
  {
    var ss := db.Sources();
    KeptHas(ss, 0, 0);
    KeptHas(ss, 0, 2);
    KeptHas(ss, 1, 0);
    KeptHas(ss, 1, 1);
    KeptHas(ss, 1, 2);
    KeptHas(ss, 2, 2);
    KeptHas(ss, 2, 3);
    KeptHas(ss, 3, 1);
  }

  lemma TreeLeaves()
    ensures Leaves(Joined()) == [0, 3, 2, 1]
  {
    assert Leaves(JoinA()) == [0, 3];
    assert Leaves(JoinB()) == [2, 1];
  }

  lemma LeafOrder()
    ensures multiset([0, 3, 2, 1]) == multiset([0, 1, 2, 3])
  {
  }

  lemma TreeWellFormed()
    ensures WellFormed(Joined(), 4)
  {
    assert Leaves(JoinA()) == [0, 3];
    assert Leaves(JoinB()) == [2, 1];
  }

  lemma TreeShape()
    ensures WellFormed(Joined(), 4)
    ensures multiset(Leaves(Joined())) == multiset(SourceNumbers(4))
  {
    TreeWellFormed();
    assert multiset(Leaves(Joined())) == multiset(SourceNumbers(4)) by {
      TreeLeaves();
      LeafOrder();
      FourSources();
    }
  }

  lemma PlanImplements(db: Base)
    ensures Implements(Joined(), db.Sources(), Clause())
  {
    TreeShape();
    ClauseColumns(db);
    forall m: Record, nulls { JoinConditions(m, nulls); }
    forall m: Record { ScanFilters(db, m); }
  }

  const TAGS := [CUSTOMER, ORDERS, LINEITEM, NATION]

  lemma SourcesValid(db: Base)
    requires db.Valid()
    ensures ValidSources(db.Sources()) && PrefixedNames(db.Sources())
  {
    CustomerScanValid(db.customer);
    OrdersScanValid(db.orders);
    LineitemScanValid(db.lineitem);
    NationScanValid(db.nation);
    FourValidByTags(CustomerScan(db.customer), OrdersScan(db.orders), LineitemScan(db.lineitem), NationScan(db.nation),
                    TAGS);
  }

  const PRIMARY := ["c_custkey", "o_orderkey", "n_nationkey"]

  /** The primary keys of the tables joined are never null. */
  ghost predicate PrimaryKeysPresent(db: Base)
    requires db.Valid()
  {
    && NeverNull(db.customer, "c_custkey") && NeverNull(db.orders, "o_orderkey") && NeverNull(db.nation, "n_nationkey")
  }

  /** With the primary keys present no key is null. */
  lemma PrimaryDecides(m: Record)
    requires Clause().EqualsHold(m, NullSafeEqual()) && NoneNull(m, PRIMARY)
    ensures Clause().KeysNonNull(m)
  {
    EqualsOfThree(Clause(), m, NullSafeEqual());
    EqualsOfThree(Clause(), m, SqlEqual());
    assert At(m, PRIMARY[0]) != Null && At(m, PRIMARY[1]) != Null && At(m, PRIMARY[2]) != Null;
    SqlEqualsHold(Clause(), m);
  }

  lemma PrimaryKeysGuarded(db: Base)
    requires db.Valid() && ValidSources(db.Sources()) && PrimaryKeysPresent(db)
    ensures forall k :: 0 <= k < |PRIMARY| ==> Guarded(db.Sources(), PRIMARY[k])
  {
    GuardedBy(db.Sources(), 0, 0, "c_custkey");
    GuardedBy(db.Sources(), 1, 1, "o_orderkey");
    GuardedBy(db.Sources(), 3, 1, "n_nationkey");
  }

  lemma PrimaryGuards(db: Base)
    requires db.Valid() && ValidSources(db.Sources()) && PrimaryKeysPresent(db)
    ensures KeysGuarded(db.Sources(), Clause(), PRIMARY)
  {
    PrimaryKeysGuarded(db);
    forall m: Record | Clause().EqualsHold(m, NullSafeEqual()) && NoneNull(m, PRIMARY) { PrimaryDecides(m); }
  }

  lemma NamesFound()
    ensures AllNamed(CUSTOMER_COLS, ["c_nationkey"]) && AllNamed(NATION_COLS, ["n_nationkey"])
    ensures AllNamed(LINEITEM_COLS, ["l_orderkey"]) && AllNamed(ORDERS_COLS, ["o_orderkey"])
    ensures AllNamed(CUSTOMER_COLS + NATION_COLS, ["c_custkey"]) && AllNamed(LINEITEM_COLS + ORDERS_COLS, ["o_custkey"])
  {
    assert CUSTOMER_COLS[2] == "c_nationkey" && NATION_COLS[1] == "n_nationkey" && CUSTOMER_COLS[0] == "c_custkey";
    assert LINEITEM_COLS[2] == "l_orderkey" && ORDERS_COLS[1] == "o_orderkey" && ORDERS_COLS[0] == "o_custkey";
  }

  const GROUP_KEYS := ["c_custkey", "c_name", "c_acctbal", "c_phone", "n_name", "c_address", "c_comment"]

  /** The query of the SQL text. */
  function SqlQuery(): Query { Query(Clause(), Whole(), GROUP_KEYS, RevenueOf()) }

  /**
    The joined rows are the rows of the FROM and WHERE clauses, as a multiset: with
    the joins' equality of nulls always, with SQL's when primary keys are present.
   */
  lemma PlanRows(db: Base, nulls: NullEquality, out: Table)
    requires db.Valid() && ValidSources(db.Sources())
    requires WellFormed(Joined(), 4) && Yields(Joined(), db.Sources(), nulls, out)
    ensures out.Valid()
    ensures multiset(RecordsOf(out)) == multiset(QueryRows(db.Sources(), Clause(), Equality(nulls)))
    ensures PrimaryKeysPresent(db) ==>
        multiset(RecordsOf(out)) == multiset(QueryRows(db.Sources(), Clause(), SqlEqual()))
  {
    PlanImplements(db);
    PlanIsQuery(Joined(), db.Sources(), Clause(), nulls, out);
    if PrimaryKeysPresent(db) {
      PrimaryGuards(db);
      PlanIsSql(Joined(), db.Sources(), Clause(), nulls, out, PRIMARY);
    }
  }

  lemma PrimaryAnswers(db: Base)
    requires db.Valid() && ValidSources(db.Sources()) && PrimaryKeysPresent(db)
    ensures AnswersSql(SqlQuery(), db.Sources())
  {
    ClauseColumns(db);
    PrimaryGuards(db);
    GuardedAnswersAgree(db.Sources(), SqlQuery(), PRIMARY);
  }

  /** The three joins. */
  method JoinData(db: Base) returns (joined: TableWithNames)
    requires db.Valid() && ValidSources(db.Sources()) && WellFormed(Joined(), 4)
    ensures fresh(joined) && Yields(Joined(), db.Sources(), EQUAL, joined.View())
    ensures joined.names == CUSTOMER_COLS + NATION_COLS + (LINEITEM_COLS + ORDERS_COLS)
  {
    NamesFound();
    var customer := ReadSource(db.Sources(), 0);
    var orders := ReadSource(db.Sources(), 1);
    var lineitem := ReadSource(db.Sources(), 2);
    var nation := ReadSource(db.Sources(), 3);
    var joinA := JoinNode(JoinA(), db.Sources(), customer, nation);
    var joinB := JoinNode(JoinB(), db.Sources(), lineitem, orders);
    var all := JoinNode(Joined(), db.Sources(), joinA.value, joinB.value);
    joined := all.value;
  }

  lemma PriceAndDiscount()
    ensures "l_extendedprice" in LINEITEM_COLS && "l_discount" in LINEITEM_COLS && "revenue" !in GROUP_KEYS
  {
    assert LINEITEM_COLS[0] == "l_extendedprice" && LINEITEM_COLS[1] == "l_discount";
    assert forall k :: 0 <= k < |GROUP_KEYS| ==> GROUP_KEYS[k][1] == '_';
    assert "revenue"[1] == 'e';
  }

  lemma GroupKeysFound()
    ensures AllNamed(CUSTOMER_COLS + NATION_COLS, GROUP_KEYS)
  {
    assert CUSTOMER_COLS[0] == "c_custkey" && CUSTOMER_COLS[1] == "c_name" && CUSTOMER_COLS[3] == "c_acctbal";
    assert CUSTOMER_COLS[5] == "c_phone" && NATION_COLS[0] == "n_name" && CUSTOMER_COLS[4] == "c_address";
    assert CUSTOMER_COLS[6] == "c_comment";
  }

  /** Scans, joins, computes revenue, groups it by seven columns and orders it: the answer to the SQL text. */
  method RunQ10(db: Base) returns (r: Result<TableWithNames>)
    requires db.Valid()
    ensures ValidSources(db.Sources()) && r.Success?
    ensures IsRevenueAnswer(r.value.View(), GROUP_KEYS, SqlQuery().Answer(db.Sources(), NullSafeEqual()))
    ensures PrimaryKeysPresent(db) ==>
        IsRevenueAnswer(r.value.View(), GROUP_KEYS, SqlQuery().Answer(db.Sources(), SqlEqual()))
    ensures PrimaryKeysPresent(db) && SqlQuery().NullFreeGroups(db.Sources()) ==>
        IsRevenueAnswer(r.value.View(), GROUP_KEYS, SqlQuery().SqlAnswer(db.Sources()))
    ensures Reports(r.value.rows, SqlQuery(), db.Sources(), NullSafeEqual(), false)
    ensures PrimaryKeysPresent(db) && SqlQuery().NullFreeGroups(db.Sources()) ==>
        Reports(r.value.rows, SqlQuery(), db.Sources(), SqlEqual(), true)
  {
    SourcesValid(db);
    TreeShape();
    var joined := JoinData(db);
    PlanImplements(db);
    PlanAnswers(Joined(), db.Sources(), SqlQuery(), EQUAL, joined.View());
    if PrimaryKeysPresent(db) {
      PrimaryAnswers(db);
    }
    RevenueIsNew(db.Sources(), joined.View());
    WholeRows(RecordsOf(joined.View()));
    PriceAndDiscount();
    GroupKeysFound();
    assert AllNamed(joined.names, GROUP_KEYS);
    r := RevenueByGroup(joined, GROUP_KEYS);
    AnswerReports(r.value.rows, SqlQuery(), db.Sources());
  }
}
