/**
  NDS-H query 5 (TPC-H section 2.4.5): five nested joins with two filters pushed
  into the scans; one equality of the SQL holds only by transitivity.
 */
module QueryQ5 {
  import opened Outcomes
  import opened NamedTables
  import opened TableOps
  import opened QueryPlans
  import opened JoinTrees
  import opened QueryAnswers

  const CUSTOMER_COLS := ["c_custkey", "c_nationkey"]
  const ORDERS_COLS := ["o_custkey", "o_orderkey", "o_orderdate"]
  const LINEITEM_COLS := ["l_orderkey", "l_suppkey", "l_extendedprice", "l_discount"]
  const SUPPLIER_COLS := ["s_suppkey", "s_nationkey"]
  const NATION_COLS := ["n_nationkey", "n_regionkey", "n_name"]
  const REGION_COLS := ["r_regionkey", "r_name"]

  /** Days from 1970-01-01 to 1994-01-01 and to 1995-01-01. */
  const DATE_LOWER: real := 8766.0
  const DATE_UPPER: real := 9131.0

  function IsIn1994(): Value -> bool { (v: Value) => v.Num? && DATE_LOWER <= v.n && v.n < DATE_UPPER }

  function IsAsia(): Value -> bool { (v: Value) => v == Text("ASIA") }

  /** The base tables, with their full schemas. */
  datatype Base = Base(customer: Table, orders: Table, lineitem: Table, supplier: Table, nation: Table, region: Table) {
    ghost predicate Valid() {
      && customer.Valid() && customer.names == CUSTOMER_SCHEMA
      && orders.Valid() && orders.names == ORDERS_SCHEMA
      && lineitem.Valid() && lineitem.names == LINEITEM_SCHEMA
      && supplier.Valid() && supplier.names == SUPPLIER_SCHEMA
      && nation.Valid() && nation.names == NATION_SCHEMA
      && region.Valid() && region.names == REGION_SCHEMA
    }

    /** The scans, in the order of the SQL FROM list. */
    function Sources(): (ss: seq<Source>)
      ensures |ss| == 6
    {
      [CustomerScan(customer), OrdersScan(orders), LineitemScan(lineitem),
       SupplierScan(supplier), NationScan(nation), RegionScan(region)]
    }
  }

  function CustomerScan(t: Table): Source { Source(t, CUSTOMER_COLS, "c_custkey", Unfiltered()) }
  function OrdersScan(t: Table): Source { Source(t, ORDERS_COLS, "o_orderdate", IsIn1994()) }
  function LineitemScan(t: Table): Source { Source(t, LINEITEM_COLS, "l_orderkey", Unfiltered()) }
  function SupplierScan(t: Table): Source { Source(t, SUPPLIER_COLS, "s_suppkey", Unfiltered()) }
  function NationScan(t: Table): Source { Source(t, NATION_COLS, "n_nationkey", Unfiltered()) }
  function RegionScan(t: Table): Source { Source(t, REGION_COLS, "r_name", IsAsia()) }

  lemma CustomerScanValid(t: Table)
    requires t.Valid() && t.names == CUSTOMER_SCHEMA
    ensures ValidTagged(CustomerScan(t), CUSTOMER)
  {
    PickedSource(CustomerScan(t), [0, 3], 0);
    CustomerTag();
  }

  lemma OrdersScanValid(t: Table)
    requires t.Valid() && t.names == ORDERS_SCHEMA
    ensures ValidTagged(OrdersScan(t), ORDERS)
  {
    PickedSource(OrdersScan(t), [1, 0, 4], 2);
    OrdersTag();
  }

  lemma LineitemScanValid(t: Table)
    requires t.Valid() && t.names == LINEITEM_SCHEMA
    ensures ValidTagged(LineitemScan(t), LINEITEM)
  {
    PickedSource(LineitemScan(t), [0, 2, 5, 6], 0);
    LineitemTag();
  }

  lemma SupplierScanValid(t: Table)
    requires t.Valid() && t.names == SUPPLIER_SCHEMA
    ensures ValidTagged(SupplierScan(t), SUPPLIER)
  {
    PickedSource(SupplierScan(t), [0, 3], 0);
    SupplierTag();
  }

  lemma NationScanValid(t: Table)
    requires t.Valid() && t.names == NATION_SCHEMA
    ensures ValidTagged(NationScan(t), NATION)
  {
    PickedSource(NationScan(t), [0, 2, 1], 0);
    NationTag();
  }

  lemma RegionScanValid(t: Table)
    requires t.Valid() && t.names == REGION_SCHEMA
    ensures ValidTagged(RegionScan(t), REGION)
  {
    PickedSource(RegionScan(t), [0, 1], 1);
    RegionTag();
  }

  /** The WHERE clause as the SQL text has it. */
  function Clause(): Condition {
    Condition([("c_custkey", "o_custkey"), ("l_orderkey", "o_orderkey"), ("l_suppkey", "s_suppkey"),
               ("c_nationkey", "s_nationkey"), ("s_nationkey", "n_nationkey"), ("n_regionkey", "r_regionkey")],
              [("r_name", IsAsia()), ("o_orderdate", IsIn1994())])
  }

  /** The clause, column by column. */
  lemma ClauseHolds(m: Record, eq: (Value, Value) -> bool)
    ensures Clause().EqualsHold(m, eq)
        <==> && eq(At(m, "c_custkey"), At(m, "o_custkey")) && eq(At(m, "l_orderkey"), At(m, "o_orderkey"))
             && eq(At(m, "l_suppkey"), At(m, "s_suppkey")) && eq(At(m, "c_nationkey"), At(m, "s_nationkey"))
             && eq(At(m, "s_nationkey"), At(m, "n_nationkey")) && eq(At(m, "n_regionkey"), At(m, "r_regionkey"))
    ensures Clause().TestsHold(m)
        <==> && At(m, "r_name") == Text("ASIA") && At(m, "o_orderdate").Num?
             && DaysSinceEpoch(1994, 1) as real <= At(m, "o_orderdate").n < DaysSinceEpoch(1995, 1) as real
  {
    QueryDates();
    EqualsOfSix(Clause(), m, eq);
    TestsOfTwo(Clause(), m);
  }

  function JoinA(): JoinTree { Node(Leaf(5), Leaf(4), ["r_regionkey"], ["n_regionkey"]) }
  function JoinB(): JoinTree { Node(JoinA(), Leaf(0), ["n_nationkey"], ["c_nationkey"]) }
  function JoinC(): JoinTree { Node(JoinB(), Leaf(1), ["c_custkey"], ["o_custkey"]) }
  function JoinD(): JoinTree { Node(JoinC(), Leaf(2), ["o_orderkey"], ["l_orderkey"]) }
  function Joined(): JoinTree { Node(Leaf(3), JoinD(), ["s_suppkey", "s_nationkey"], ["l_suppkey", "n_nationkey"]) }

  lemma JoinConditions(m: Record, nulls: NullEquality)
    ensures Holds(Joined(), m, nulls) <==> Clause().EqualsHold(m, Equality(nulls))
  {
    AgreeOne(m, "r_regionkey", "n_regionkey", nulls);
    AgreeOne(m, "n_nationkey", "c_nationkey", nulls);
    AgreeOne(m, "c_custkey", "o_custkey", nulls);
    AgreeOne(m, "o_orderkey", "l_orderkey", nulls);
    AgreeTwo(m, "s_suppkey", "l_suppkey", "s_nationkey", "n_nationkey", nulls);
    NodeHolds(JoinA(), m, nulls);
    NodeHolds(JoinB(), m, nulls);
    NodeHolds(JoinC(), m, nulls);
    NodeHolds(JoinD(), m, nulls);
    NodeHolds(Joined(), m, nulls);
    EqualsOfSix(Clause(), m, Equality(nulls));
  }

  lemma ScanFilters(db: Base, m: Record)
    ensures AllPass(db.Sources(), m) <==> Clause().TestsHold(m)
  {
    var ss, c := db.Sources(), Clause();
    if AllPass(ss, m) {
      assert Passes(ss[1], m) && Passes(ss[5], m);
    }
    if c.TestsHold(m) {
      assert c.tests[0].1(At(m, c.tests[0].0)) && c.tests[1].1(At(m, c.tests[1].0));
    }
  }

  lemma ClauseColumns(db: Base)
    ensures Clause().Over(Kept(db.Sources()))
  {
    var ss := db.Sources();
    KeptHas(ss, 0, 0);
    KeptHas(ss, 0, 1);
    KeptHas(ss, 1, 0);
    KeptHas(ss, 1, 1);
    KeptHas(ss, 1, 2);
    KeptHas(ss, 2, 0);
    KeptHas(ss, 2, 1);
    KeptHas(ss, 3, 0);
    KeptHas(ss, 3, 1);
    KeptHas(ss, 4, 0);
    KeptHas(ss, 4, 1);
    KeptHas(ss, 5, 0);
    KeptHas(ss, 5, 1);
  }

  lemma TreeLeaves()
    ensures Leaves(Joined()) == [3, 5, 4, 0, 1, 2]
  {
    assert Leaves(JoinA()) == [5, 4];
    assert Leaves(JoinB()) == [5, 4, 0];
    assert Leaves(JoinC()) == [5, 4, 0, 1];
    assert Leaves(JoinD()) == [5, 4, 0, 1, 2];
  }

  lemma LeafOrder()
    ensures multiset([3, 5, 4, 0, 1, 2]) == multiset([0, 1, 2, 3, 4, 5])
  {
  }

  lemma TreeWellFormed()
    ensures WellFormed(Joined(), 6)
  {
    assert Leaves(JoinA()) == [5, 4];
    assert Leaves(JoinB()) == [5, 4, 0];
    assert Leaves(JoinC()) == [5, 4, 0, 1];
    assert Leaves(JoinD()) == [5, 4, 0, 1, 2];
  }

  lemma TreeShape()
    ensures WellFormed(Joined(), 6)
    ensures multiset(Leaves(Joined())) == multiset(SourceNumbers(6))
  {
    TreeWellFormed();
    assert multiset(Leaves(Joined())) == multiset(SourceNumbers(6)) by {
      TreeLeaves();
      LeafOrder();
      SixSources();
    }
  }

  lemma PlanImplements(db: Base)
    ensures Implements(Joined(), db.Sources(), Clause())
  {
    TreeShape();
    ClauseColumns(db);
    forall m: Record, nulls { JoinConditions(m, nulls); }
    forall m: Record { ScanFilters(db, m); }
  }

  const TAGS := [CUSTOMER, ORDERS, LINEITEM, SUPPLIER, NATION, REGION]

  lemma SourcesValid(db: Base)
    requires db.Valid()
    ensures ValidSources(db.Sources()) && PrefixedNames(db.Sources())
  {
    CustomerScanValid(db.customer);
    OrdersScanValid(db.orders);
    LineitemScanValid(db.lineitem);
    SupplierScanValid(db.supplier);
    NationScanValid(db.nation);
    RegionScanValid(db.region);
    SixValidByTags(CustomerScan(db.customer), OrdersScan(db.orders), LineitemScan(db.lineitem),
                   SupplierScan(db.supplier), NationScan(db.nation), RegionScan(db.region), TAGS);
  }

  const PRIMARY := ["c_custkey", "o_orderkey", "s_suppkey", "n_nationkey", "r_regionkey"]

  /** The primary keys of the tables joined are never null. */
  ghost predicate PrimaryKeysPresent(db: Base)
    requires db.Valid()
  {
    && NeverNull(db.customer, "c_custkey") && NeverNull(db.orders, "o_orderkey")
    && NeverNull(db.supplier, "s_suppkey") && NeverNull(db.nation, "n_nationkey")
    && NeverNull(db.region, "r_regionkey")
  }

  /** With the primary keys present no key is null; `s_nationkey` only because it equals `n_nationkey`. */
  lemma PrimaryDecides(m: Record)
    requires Clause().EqualsHold(m, NullSafeEqual()) && NoneNull(m, PRIMARY)
    ensures Clause().KeysNonNull(m)
  {
    EqualsOfSix(Clause(), m, NullSafeEqual());
    EqualsOfSix(Clause(), m, SqlEqual());
    assert At(m, PRIMARY[0]) != Null && At(m, PRIMARY[1]) != Null && At(m, PRIMARY[2]) != Null;
    assert At(m, PRIMARY[3]) != Null && At(m, PRIMARY[4]) != Null;
    SqlEqualsHold(Clause(), m);
  }

  lemma GuardedFirst(db: Base)
    requires db.Valid() && ValidSources(db.Sources()) && PrimaryKeysPresent(db)
    ensures Guarded(db.Sources(), "c_custkey") && Guarded(db.Sources(), "o_orderkey")
        && Guarded(db.Sources(), "s_suppkey")
  {
    GuardedBy(db.Sources(), 0, 0, "c_custkey");
    GuardedBy(db.Sources(), 1, 1, "o_orderkey");
    GuardedBy(db.Sources(), 3, 0, "s_suppkey");
  }

  lemma GuardedLast(db: Base)
    requires db.Valid() && ValidSources(db.Sources()) && PrimaryKeysPresent(db)
    ensures Guarded(db.Sources(), "n_nationkey") && Guarded(db.Sources(), "r_regionkey")
  {
    GuardedBy(db.Sources(), 4, 0, "n_nationkey");
    GuardedBy(db.Sources(), 5, 0, "r_regionkey");
  }

  lemma PrimaryKeysGuarded(db: Base)
    requires db.Valid() && ValidSources(db.Sources()) && PrimaryKeysPresent(db)
    ensures forall k :: 0 <= k < |PRIMARY| ==> Guarded(db.Sources(), PRIMARY[k])
  {
    GuardedFirst(db);
    GuardedLast(db);
  }

  lemma PrimaryGuards(db: Base)
    requires db.Valid() && ValidSources(db.Sources()) && PrimaryKeysPresent(db)
    ensures KeysGuarded(db.Sources(), Clause(), PRIMARY)
  {
    PrimaryKeysGuarded(db);
    forall m: Record | Clause().EqualsHold(m, NullSafeEqual()) && NoneNull(m, PRIMARY) { PrimaryDecides(m); }
  }

  lemma NamesFound()
    ensures AllNamed(REGION_COLS, ["r_regionkey"]) && AllNamed(NATION_COLS, ["n_regionkey"])
    ensures AllNamed(REGION_COLS + NATION_COLS, ["n_nationkey"]) && AllNamed(CUSTOMER_COLS, ["c_nationkey"])
    ensures AllNamed(REGION_COLS + NATION_COLS + CUSTOMER_COLS, ["c_custkey"]) && AllNamed(ORDERS_COLS, ["o_custkey"])
    ensures AllNamed(REGION_COLS + NATION_COLS + CUSTOMER_COLS + ORDERS_COLS, ["o_orderkey"])
    ensures AllNamed(LINEITEM_COLS, ["l_orderkey"])
    ensures AllNamed(SUPPLIER_COLS, ["s_suppkey", "s_nationkey"])
    ensures AllNamed(REGION_COLS + NATION_COLS + CUSTOMER_COLS + ORDERS_COLS + LINEITEM_COLS,
                     ["l_suppkey", "n_nationkey"])
  {
    assert REGION_COLS[0] == "r_regionkey" && NATION_COLS[1] == "n_regionkey" && NATION_COLS[0] == "n_nationkey";
    assert CUSTOMER_COLS[1] == "c_nationkey" && CUSTOMER_COLS[0] == "c_custkey" && ORDERS_COLS[0] == "o_custkey";
    assert ORDERS_COLS[1] == "o_orderkey" && LINEITEM_COLS[0] == "l_orderkey" && LINEITEM_COLS[1] == "l_suppkey";
    assert SUPPLIER_COLS[0] == "s_suppkey" && SUPPLIER_COLS[1] == "s_nationkey";
  }

  /** The query of the SQL text. */
  function SqlQuery(): Query { Query(Clause(), Whole(), ["n_name"], RevenueOf()) }

  /**
    The joined rows are the rows of the FROM and WHERE clauses, as a multiset: with
    the joins' equality of nulls always, with SQL's when primary keys are present.
   */
  lemma PlanRows(db: Base, nulls: NullEquality, out: Table)
    requires db.Valid() && ValidSources(db.Sources())
    requires WellFormed(Joined(), 6) && Yields(Joined(), db.Sources(), nulls, out)
    ensures out.Valid()
    ensures multiset(RecordsOf(out)) == multiset(QueryRows(db.Sources(), Clause(), Equality(nulls)))
    ensures PrimaryKeysPresent(db) ==>
        multiset(RecordsOf(out)) == multiset(QueryRows(db.Sources(), Clause(), SqlEqual()))
  {
    PlanImplements(db);
    PlanIsQuery(Joined(), db.Sources(), Clause(), nulls, out);
    if PrimaryKeysPresent(db) {
      PrimaryGuards(db);
      PlanIsSql(Joined(), db.Sources(), Clause(), nulls, out, PRIMARY);
    }
  }

  lemma PrimaryAnswers(db: Base)
    requires db.Valid() && ValidSources(db.Sources()) && PrimaryKeysPresent(db)
    ensures AnswersSql(SqlQuery(), db.Sources())
  {
    ClauseColumns(db);
    PrimaryGuards(db);
    GuardedAnswersAgree(db.Sources(), SqlQuery(), PRIMARY);
  }

  /** The five joins. */
  method JoinData(db: Base) returns (joined: TableWithNames)
    requires db.Valid() && ValidSources(db.Sources()) && WellFormed(Joined(), 6)
    ensures fresh(joined) && Yields(Joined(), db.Sources(), EQUAL, joined.View())
    ensures joined.names == SUPPLIER_COLS + (REGION_COLS + NATION_COLS + CUSTOMER_COLS + ORDERS_COLS + LINEITEM_COLS)
  {
    NamesFound();
    var customer := ReadSource(db.Sources(), 0);
    var orders := ReadSource(db.Sources(), 1);
    var lineitem := ReadSource(db.Sources(), 2);
    var supplier := ReadSource(db.Sources(), 3);
    var nation := ReadSource(db.Sources(), 4);
    var region := ReadSource(db.Sources(), 5);
    var joinA := JoinNode(JoinA(), db.Sources(), region, nation);
    var joinB := JoinNode(JoinB(), db.Sources(), joinA.value, customer);
    var joinC := JoinNode(JoinC(), db.Sources(), joinB.value, orders);
    var joinD := JoinNode(JoinD(), db.Sources(), joinC.value, lineitem);
    var all := JoinNode(Joined(), db.Sources(), supplier, joinD.value);
    joined := all.value;
  }

  lemma PriceAndDiscount()
    ensures "l_extendedprice" in LINEITEM_COLS && "l_discount" in LINEITEM_COLS && "revenue" !in ["n_name"]
    ensures AllNamed(NATION_COLS, ["n_name"])
  {
    assert NATION_COLS[2] == "n_name";
    assert LINEITEM_COLS[2] == "l_extendedprice" && LINEITEM_COLS[3] == "l_discount";
    assert ["n_name"][0][0] == 'n' && "revenue"[0] == 'r';
  }

  /** Scans, joins, computes revenue, groups it by nation name and orders it: the answer to the SQL text. */
  method RunQ5(db: Base) returns (r: Result<TableWithNames>)
    requires db.Valid()
    ensures ValidSources(db.Sources()) && r.Success?
    ensures IsRevenueAnswer(r.value.View(), ["n_name"], SqlQuery().Answer(db.Sources(), NullSafeEqual()))
    ensures PrimaryKeysPresent(db) ==>
        IsRevenueAnswer(r.value.View(), ["n_name"], SqlQuery().Answer(db.Sources(), SqlEqual()))
    ensures PrimaryKeysPresent(db) && SqlQuery().NullFreeGroups(db.Sources()) ==>
        IsRevenueAnswer(r.value.View(), ["n_name"], SqlQuery().SqlAnswer(db.Sources()))
    ensures Reports(r.value.rows, SqlQuery(), db.Sources(), NullSafeEqual(), false)
    ensures PrimaryKeysPresent(db) && SqlQuery().NullFreeGroups(db.Sources()) ==>
        Reports(r.value.rows, SqlQuery(), db.Sources(), SqlEqual(), true)
  {
    SourcesValid(db);
    TreeShape();
    var joined := JoinData(db);
    PlanImplements(db);
    PlanAnswers(Joined(), db.Sources(), SqlQuery(), EQUAL, joined.View());
    if PrimaryKeysPresent(db) {
      PrimaryAnswers(db);
    }
    RevenueIsNew(db.Sources(), joined.View());
    WholeRows(RecordsOf(joined.View()));
    PriceAndDiscount();
    assert AllNamed(joined.names, ["n_name"]);
    r := RevenueByGroup(joined, ["n_name"]);
    AnswerReports(r.value.rows, SqlQuery(), db.Sources());
  }
}
