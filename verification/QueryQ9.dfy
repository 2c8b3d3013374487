/**
  NDS-H query 9 (TPC-H section 2.4.9): a bushy join tree of depth three, a LIKE
  filter applied as a mask, and profits grouped by nation and year.
 */
module QueryQ9 {
  import opened Outcomes
  import opened Sequences
  import opened NamedTables
  import opened TableOps
  import opened QueryPlans
  import opened JoinTrees
  import opened GroupedTables
  import opened QueryAnswers
  import ExpressionTrees
  import opened AmountText
  import opened AmountEngines

  const PART_COLS := ["p_partkey", "p_name"]
  const SUPPLIER_COLS := ["s_suppkey", "s_nationkey"]
  const LINEITEM_COLS := ["l_suppkey", "l_partkey", "l_orderkey", "l_extendedprice", "l_discount", "l_quantity"]
  const PARTSUPP_COLS := ["ps_suppkey", "ps_partkey", "ps_supplycost"]
  const ORDERS_COLS := ["o_orderkey", "o_orderdate"]
  const NATION_COLS := ["n_nationkey", "n_name"]

  predicate Contains(s: string, part: string) { exists i :: 0 <= i <= |s| && part <= s[i..] }

  /** `like '%green%'` */
  function IsGreen(): Value -> bool { (v: Value) => v.Text? && Contains(v.s, "green") }

  /** The base tables, with their full schemas. */
  datatype Base = Base(part: Table, supplier: Table, lineitem: Table, partsupp: Table, orders: Table, nation: Table) {
    ghost predicate Valid() {
      && part.Valid() && part.names == PART_SCHEMA
      && supplier.Valid() && supplier.names == SUPPLIER_SCHEMA
      && lineitem.Valid() && lineitem.names == LINEITEM_SCHEMA
      && partsupp.Valid() && partsupp.names == PARTSUPP_SCHEMA
      && orders.Valid() && orders.names == ORDERS_SCHEMA
      && nation.Valid() && nation.names == NATION_SCHEMA
    }

    /** The scans, in the order of the SQL FROM list; the mask counts as the filter of `part`. */
    function Sources(): (ss: seq<Source>)
      ensures |ss| == 6
    {
      [PartScan(part), SupplierScan(supplier), LineitemScan(lineitem),
       PartsuppScan(partsupp), OrdersScan(orders), NationScan(nation)]
    }
  }

  function PartScan(t: Table): Source { Source(t, PART_COLS, "p_name", IsGreen()) }
  function SupplierScan(t: Table): Source { Source(t, SUPPLIER_COLS, "s_suppkey", Unfiltered()) }
  function LineitemScan(t: Table): Source { Source(t, LINEITEM_COLS, "l_suppkey", Unfiltered()) }
  function PartsuppScan(t: Table): Source { Source(t, PARTSUPP_COLS, "ps_suppkey", Unfiltered()) }
  function OrdersScan(t: Table): Source { Source(t, ORDERS_COLS, "o_orderkey", Unfiltered()) }
  function NationScan(t: Table): Source { Source(t, NATION_COLS, "n_nationkey", Unfiltered()) }

  lemma PartScanValid(t: Table)
    requires t.Valid() && t.names == PART_SCHEMA
    ensures ValidTagged(PartScan(t), PART)
  {
    PickedSource(PartScan(t), [0, 1], 1);
    PartTag();
  }

  lemma SupplierScanValid(t: Table)
    requires t.Valid() && t.names == SUPPLIER_SCHEMA
    ensures ValidTagged(SupplierScan(t), SUPPLIER)
  {
    PickedSource(SupplierScan(t), [0, 3], 0);
    SupplierTag();
  }

  lemma LineitemScanValid(t: Table)
    requires t.Valid() && t.names == LINEITEM_SCHEMA
    ensures ValidTagged(LineitemScan(t), LINEITEM)
  {
    PickedSource(LineitemScan(t), [2, 1, 0, 5, 6, 4], 0);
    LineitemTag();
  }

  lemma PartsuppScanValid(t: Table)
    requires t.Valid() && t.names == PARTSUPP_SCHEMA
    ensures ValidTagged(PartsuppScan(t), PARTSUPP)
  {
    PickedSource(PartsuppScan(t), [1, 0, 3], 0);
    PartsuppTag();
  }

  lemma OrdersScanValid(t: Table)
    requires t.Valid() && t.names == ORDERS_SCHEMA
    ensures ValidTagged(OrdersScan(t), ORDERS)
  {
    PickedSource(OrdersScan(t), [0, 4], 0);
    OrdersTag();
  }

  lemma NationScanValid(t: Table)
    requires t.Valid() && t.names == NATION_SCHEMA
    ensures ValidTagged(NationScan(t), NATION)
  {
    PickedSource(NationScan(t), [0, 1], 0);
    NationTag();
  }

  /** The WHERE clause as the SQL text has it. */
  function Clause(): Condition {
    Condition([("s_suppkey", "l_suppkey"), ("ps_suppkey", "l_suppkey"), ("ps_partkey", "l_partkey"),
               ("p_partkey", "l_partkey"), ("o_orderkey", "l_orderkey"), ("s_nationkey", "n_nationkey")],
              [("p_name", IsGreen())])
  }

  /** The clause, column by column. */
  lemma ClauseHolds(m: Record, eq: (Value, Value) -> bool)
    ensures Clause().EqualsHold(m, eq)
        <==> && eq(At(m, "s_suppkey"), At(m, "l_suppkey")) && eq(At(m, "ps_suppkey"), At(m, "l_suppkey"))
             && eq(At(m, "ps_partkey"), At(m, "l_partkey")) && eq(At(m, "p_partkey"), At(m, "l_partkey"))
             && eq(At(m, "o_orderkey"), At(m, "l_orderkey")) && eq(At(m, "s_nationkey"), At(m, "n_nationkey"))
    ensures Clause().TestsHold(m)
        <==> At(m, "p_name").Text? && exists before, behind :: At(m, "p_name").s == before + "green" + behind
  {
    EqualsOfSix(Clause(), m, eq);
    assert Clause().TestsHold(m) <==> IsGreen()(At(m, "p_name")) by {
      assert Clause().TestsHold(m) ==> Clause().tests[0].1(At(m, Clause().tests[0].0));
    }
    if At(m, "p_name").Text? {
      ContainsIff(At(m, "p_name").s, "green");
    }
  }

  /** The text has something before and behind the part. */
  lemma ContainsIff(s: string, part: string)
    ensures Contains(s, part) <==> exists before, behind :: s == before + part + behind
  {
    if Contains(s, part) {
      var i :| 0 <= i <= |s| && part <= s[i..];
      assert s == s[..i] + part + s[i + |part|..];
    }
    if before, behind :| s == before + part + behind {
      assert s[|before|..] == part + behind;
    }
  }

  function JoinA(): JoinTree { Node(Leaf(1), Leaf(5), ["s_nationkey"], ["n_nationkey"]) }
  function JoinB(): JoinTree { Node(Leaf(3), JoinA(), ["ps_suppkey"], ["s_suppkey"]) }
  function JoinC(): JoinTree { Node(Leaf(2), Leaf(0), ["l_partkey"], ["p_partkey"]) }
  function JoinD(): JoinTree { Node(Leaf(4), JoinC(), ["o_orderkey"], ["l_orderkey"]) }
  function Joined(): JoinTree { Node(JoinD(), JoinB(), ["l_suppkey", "l_partkey"], ["s_suppkey", "ps_partkey"]) }

  /** `ps_suppkey = l_suppkey` is never compared; it follows from two other equalities. */
  lemma JoinConditions(m: Record, nulls: NullEquality)
    ensures Holds(Joined(), m, nulls) <==> Clause().EqualsHold(m, Equality(nulls))
  {
    AgreeOne(m, "s_nationkey", "n_nationkey", nulls);
    AgreeOne(m, "ps_suppkey", "s_suppkey", nulls);
    AgreeOne(m, "l_partkey", "p_partkey", nulls);
    AgreeOne(m, "o_orderkey", "l_orderkey", nulls);
    AgreeTwo(m, "l_suppkey", "s_suppkey", "l_partkey", "ps_partkey", nulls);
    NodeHolds(JoinA(), m, nulls);
    NodeHolds(JoinB(), m, nulls);
    NodeHolds(JoinC(), m, nulls);
    NodeHolds(JoinD(), m, nulls);
    NodeHolds(Joined(), m, nulls);
    EqualsOfSix(Clause(), m, Equality(nulls));
  }

  lemma ScanFilters(db: Base, m: Record)
    ensures AllPass(db.Sources(), m) <==> Clause().TestsHold(m)
  {
    var ss, c := db.Sources(), Clause();
    if AllPass(ss, m) {
      assert Passes(ss[0], m);
    }
    if c.TestsHold(m) {
      assert c.tests[0].1(At(m, c.tests[0].0));
    }
  }

  lemma ClauseColumns(db: Base)
    ensures Clause().Over(Kept(db.Sources()))
  {
    var ss := db.Sources();
    KeptHas(ss, 0, 0);
    KeptHas(ss, 0, 1);
    KeptHas(ss, 1, 0);
    KeptHas(ss, 1, 1);
    KeptHas(ss, 2, 0);
    KeptHas(ss, 2, 1);
    KeptHas(ss, 2, 2);
    KeptHas(ss, 3, 0);
    KeptHas(ss, 3, 1);
    KeptHas(ss, 4, 0);
    KeptHas(ss, 5, 0);
  }

  lemma TreeLeaves()
    ensures Leaves(Joined()) == [4, 2, 0, 3, 1, 5]
  {
    assert Leaves(JoinA()) == [1, 5];
    assert Leaves(JoinB()) == [3, 1, 5];
    assert Leaves(JoinC()) == [2, 0];
    assert Leaves(JoinD()) == [4, 2, 0];
  }

  lemma LeafOrder()
    ensures multiset([4, 2, 0, 3, 1, 5]) == multiset([0, 1, 2, 3, 4, 5])
  {
  }

  lemma TreeWellFormed()
    ensures WellFormed(Joined(), 6)
  {
    assert Leaves(JoinA()) == [1, 5];
    assert Leaves(JoinB()) == [3, 1, 5];
    assert Leaves(JoinC()) == [2, 0];
    assert Leaves(JoinD()) == [4, 2, 0];
  }

  lemma TreeShape()
    ensures WellFormed(Joined(), 6)
    ensures multiset(Leaves(Joined())) == multiset(SourceNumbers(6))
  {
    TreeWellFormed();
    assert multiset(Leaves(Joined())) == multiset(SourceNumbers(6)) by {
      TreeLeaves();
      LeafOrder();
      SixSources();
    }
  }

  lemma PlanImplements(db: Base)
    ensures Implements(Joined(), db.Sources(), Clause())
  {
    TreeShape();
    ClauseColumns(db);
    forall m: Record, nulls { JoinConditions(m, nulls); }
    forall m: Record { ScanFilters(db, m); }
  }

  const TAGS := [PART, SUPPLIER, LINEITEM, PARTSUPP, ORDERS, NATION]

  lemma SourcesValid(db: Base)
    requires db.Valid()
    ensures ValidSources(db.Sources())
  {
    PartScanValid(db.part);
    SupplierScanValid(db.supplier);
    LineitemScanValid(db.lineitem);
    PartsuppScanValid(db.partsupp);
    OrdersScanValid(db.orders);
    NationScanValid(db.nation);
    SixValidByTags(PartScan(db.part), SupplierScan(db.supplier), LineitemScan(db.lineitem),
                   PartsuppScan(db.partsupp), OrdersScan(db.orders), NationScan(db.nation), TAGS);
  }

  const PRIMARY := ["p_partkey", "s_suppkey", "o_orderkey", "n_nationkey"]

  /** The primary keys of the tables joined are never null. */
  ghost predicate PrimaryKeysPresent(db: Base)
    requires db.Valid()
  {
    && NeverNull(db.part, "p_partkey") && NeverNull(db.supplier, "s_suppkey")
    && NeverNull(db.orders, "o_orderkey") && NeverNull(db.nation, "n_nationkey")
  }

  /** With the primary keys present no key is null. */
  lemma PrimaryDecides(m: Record)
    requires Clause().EqualsHold(m, NullSafeEqual()) && NoneNull(m, PRIMARY)
    ensures Clause().KeysNonNull(m)
  {
    EqualsOfSix(Clause(), m, NullSafeEqual());
    EqualsOfSix(Clause(), m, SqlEqual());
    assert At(m, PRIMARY[0]) != Null && At(m, PRIMARY[1]) != Null;
    assert At(m, PRIMARY[2]) != Null && At(m, PRIMARY[3]) != Null;
    SqlEqualsHold(Clause(), m);
  }

  lemma GuardedFirst(db: Base)
    requires db.Valid() && ValidSources(db.Sources()) && PrimaryKeysPresent(db)
    ensures Guarded(db.Sources(), "p_partkey") && Guarded(db.Sources(), "s_suppkey")
  {
    GuardedBy(db.Sources(), 0, 0, "p_partkey");
    GuardedBy(db.Sources(), 1, 0, "s_suppkey");
  }

  lemma GuardedLast(db: Base)
    requires db.Valid() && ValidSources(db.Sources()) && PrimaryKeysPresent(db)
    ensures Guarded(db.Sources(), "o_orderkey") && Guarded(db.Sources(), "n_nationkey")
  {
    GuardedBy(db.Sources(), 4, 0, "o_orderkey");
    GuardedBy(db.Sources(), 5, 0, "n_nationkey");
  }

  lemma PrimaryKeysGuarded(db: Base)
    requires db.Valid() && ValidSources(db.Sources()) && PrimaryKeysPresent(db)
    ensures forall k :: 0 <= k < |PRIMARY| ==> Guarded(db.Sources(), PRIMARY[k])
  {
    GuardedFirst(db);
    GuardedLast(db);
  }

  lemma PrimaryGuards(db: Base)
    requires db.Valid() && ValidSources(db.Sources()) && PrimaryKeysPresent(db)
    ensures KeysGuarded(db.Sources(), Clause(), PRIMARY)
  {
    PrimaryKeysGuarded(db);
    forall m: Record | Clause().EqualsHold(m, NullSafeEqual()) && NoneNull(m, PRIMARY) { PrimaryDecides(m); }
  }

  // -------------------------------------------------------------------- masks

  /** `apply_boolean_mask`: keeps the rows whose mask is true, not false or null. */
  function Masked(rows: seq<Row>, mask: seq<Option<bool>>): seq<Row>
    requires |rows| == |mask|
  {
    if rows == [] then []
    else (if mask[0] == Some(true) then [rows[0]] else []) + Masked(rows[1..], mask[1..])
  }

  /** How many rows before row `n` stay. */
  function KeptBefore(mask: seq<Option<bool>>, n: nat): (k: nat)
    requires n <= |mask|
    ensures k <= n
  {
    if n == 0 then 0 else KeptBefore(mask, n - 1) + if mask[n - 1] == Some(true) then 1 else 0
  }

  lemma {:induction false} KeptBeforeTail(mask: seq<Option<bool>>, n: nat)
    requires 0 < n <= |mask|
    ensures KeptBefore(mask, n) == KeptBefore(mask[1..], n - 1) + if mask[0] == Some(true) then 1 else 0
  {
    if n > 1 {
      KeptBeforeTail(mask, n - 1);
    }
  }

  /** A row whose mask is true stays, behind the rows before it that stay, and no others do. */
  lemma {:induction false} MaskedKeeps(rows: seq<Row>, mask: seq<Option<bool>>)
    requires |rows| == |mask|
    ensures |Masked(rows, mask)| == KeptBefore(mask, |mask|)
    ensures forall i :: 0 <= i < |rows| && mask[i] == Some(true) ==>
        KeptBefore(mask, i) < |Masked(rows, mask)| && Masked(rows, mask)[KeptBefore(mask, i)] == rows[i]
  {
    if rows != [] {
      MaskedKeeps(rows[1..], mask[1..]);
      KeptBeforeTail(mask, |mask|);
      forall i | 0 <= i < |rows| && mask[i] == Some(true)
        ensures KeptBefore(mask, i) < |Masked(rows, mask)| && Masked(rows, mask)[KeptBefore(mask, i)] == rows[i]
      {
        if i > 0 {
          KeptBeforeTail(mask, i);
          assert rows[1..][i - 1] == rows[i] && mask[1..][i - 1] == mask[i];
        }
      }
    }
  }

  method ApplyMask(t: TableWithNames, mask: seq<Option<bool>>) returns (r: TableWithNames)
    requires |mask| == |t.rows|
    ensures fresh(r) && r.names == t.names && |r.rows| == KeptBefore(mask, |mask|)
    ensures forall i :: 0 <= i < |mask| && mask[i] == Some(true) ==>
        KeptBefore(mask, i) < |r.rows| && r.rows[KeptBefore(mask, i)] == t.rows[i]
    ensures r.rows == Masked(t.rows, mask)
  {
    MaskedKeeps(t.rows, mask);
    r := new TableWithNames(Table(t.names, Masked(t.rows, mask)));
  }

  /** LIKE of a null is null. */
  function LikeGreen(v: Value): Option<bool> { if v.Text? then Some(Contains(v.s, "green")) else None }

  function Passer(p: Row -> bool): Row -> Option<Row> { (row: Row) => if p(row) then Some(row) else None }

  lemma {:induction false} MaskedIsCollect(rows: seq<Row>, mask: seq<Option<bool>>, p: Row -> bool)
    requires |rows| == |mask| && forall k :: 0 <= k < |rows| ==> (mask[k] == Some(true) <==> p(rows[k]))
    ensures Masked(rows, mask) == Collect(rows, Passer(p))
  {
    if rows != [] {
      MaskedIsCollect(rows[1..], mask[1..], p);
      var rest := Masked(rows[1..], mask[1..]);
      assert [] + rest == rest;
    }
  }

  lemma {:induction false} CollectTwice<A, B, C>(s: seq<A>, f: A -> Option<B>, h: B -> Option<C>, g: A -> Option<C>)
    requires forall i :: 0 <= i < |s| ==> g(s[i]) == match f(s[i]) { case None => None case Some(b) => h(b) }
    ensures Collect(Collect(s, f), h) == Collect(s, g)
  {
    if s != [] {
      CollectTwice(s[1..], f, h, g);
      if f(s[0]).Some? {
        assert Collect(s, f)[1..] == Collect(s[1..], f);
      }
    }
  }

  /** Masking after the scan is filtering during the scan. */
  lemma MaskedScan(file: Table, cols: seq<string>, c: string, test: Value -> bool, mask: seq<Option<bool>>)
    requires AllNamed(file.names, cols) && c in cols && Scan(file, cols, RowTest(cols, c, Unfiltered())).Valid()
    requires MaskOf(Scan(file, cols, RowTest(cols, c, Unfiltered())), c, test, mask)
    ensures Table(cols, Masked(Scan(file, cols, RowTest(cols, c, Unfiltered())).rows, mask))
        == Scan(file, cols, RowTest(cols, c, test))
  {
    var t := Scan(file, cols, RowTest(cols, c, Unfiltered()));
    var all := Scanner(file.names, cols, RowTest(cols, c, Unfiltered()));
    var filtered := Scanner(file.names, cols, RowTest(cols, c, test));
    forall k | 0 <= k < |t.rows| ensures mask[k] == Some(true) <==> RowTest(cols, c, test)(t.rows[k]) {
      ToRecordAt(cols, t.rows[k], c);
    }
    MaskedIsCollect(t.rows, mask, RowTest(cols, c, test));
    forall i | 0 <= i < |file.rows|
      ensures filtered(file.rows[i])
          == match all(file.rows[i]) { case None => None case Some(b) => Passer(RowTest(cols, c, test))(b) }
    {
      var row := file.rows[i];
      if |row| == |file.names| {
        assert ColumnId(cols, c).value < |SelectRow(file.names, row, cols)|;
        assert RowTest(cols, c, Unfiltered())(SelectRow(file.names, row, cols));
      }
    }
    CollectTwice(file.rows, all, Passer(RowTest(cols, c, test)), filtered);
  }

  /** The mask is true exactly in the rows whose column `c` passes. */
  ghost predicate MaskOf(t: Table, c: string, test: Value -> bool, mask: seq<Option<bool>>)
    requires t.Valid() && c in t.names
  {
    && |mask| == |t.rows|
    && forall k :: 0 <= k < |t.rows| ==> (mask[k] == Some(true) <==> test(ToRecord(t.names, t.rows[k])[c]))
  }

  /** Reads `part` whole and keeps the rows whose name is LIKE '%green%'. */
  method ReadGreenParts(t: Table) returns (r: TableWithNames)
    requires PartScan(t).Valid()
    ensures fresh(r) && r.View() == PartScan(t).Scanned() && r.names == PART_COLS
  {
    var part := ReadParquet(t, PART_COLS, RowTest(PART_COLS, "p_name", Unfiltered()));
    ScanValid(t, PART_COLS, RowTest(PART_COLS, "p_name", Unfiltered()));
    var names := part.Column("p_name");
    var mask := Image(names.value, LikeGreen);
    MaskedScan(t, PART_COLS, "p_name", IsGreen(), mask);
    r := ApplyMask(part, mask);
  }

  lemma NamesFound()
    ensures AllNamed(SUPPLIER_COLS, ["s_nationkey"]) && AllNamed(NATION_COLS, ["n_nationkey"])
    ensures AllNamed(PARTSUPP_COLS, ["ps_suppkey"]) && AllNamed(SUPPLIER_COLS + NATION_COLS, ["s_suppkey"])
    ensures AllNamed(LINEITEM_COLS, ["l_partkey"]) && AllNamed(PART_COLS, ["p_partkey"])
    ensures AllNamed(ORDERS_COLS, ["o_orderkey"]) && AllNamed(LINEITEM_COLS + PART_COLS, ["l_orderkey"])
    ensures AllNamed(ORDERS_COLS + (LINEITEM_COLS + PART_COLS), ["l_suppkey", "l_partkey"])
    ensures AllNamed(PARTSUPP_COLS + (SUPPLIER_COLS + NATION_COLS), ["s_suppkey", "ps_partkey"])
  {
    assert SUPPLIER_COLS[1] == "s_nationkey" && NATION_COLS[0] == "n_nationkey" && SUPPLIER_COLS[0] == "s_suppkey";
    assert PARTSUPP_COLS[0] == "ps_suppkey" && PARTSUPP_COLS[1] == "ps_partkey" && PART_COLS[0] == "p_partkey";
    assert LINEITEM_COLS[0] == "l_suppkey" && LINEITEM_COLS[1] == "l_partkey" && LINEITEM_COLS[2] == "l_orderkey";
    assert ORDERS_COLS[0] == "o_orderkey";
  }

  const JOINED_COLS := ORDERS_COLS + (LINEITEM_COLS + PART_COLS) + (PARTSUPP_COLS + (SUPPLIER_COLS + NATION_COLS))

  /** `join_data`: four joins below, one on two keys on top. */
  method JoinData(db: Base) returns (joined: TableWithNames)
    requires db.Valid() && ValidSources(db.Sources()) && WellFormed(Joined(), 6) && ValidTagged(PartScan(db.part), PART)
    ensures fresh(joined) && Yields(Joined(), db.Sources(), EQUAL, joined.View()) && joined.names == JOINED_COLS
  {
    NamesFound();
    var lineitem := ReadSource(db.Sources(), 2);
    var nation := ReadSource(db.Sources(), 5);
    var orders := ReadSource(db.Sources(), 4);
    var part := ReadGreenParts(db.part);
    var partsupp := ReadSource(db.Sources(), 3);
    var supplier := ReadSource(db.Sources(), 1);
    assert Yields(Leaf(0), db.Sources(), EQUAL, part.View());
    var joinA := JoinNode(JoinA(), db.Sources(), supplier, nation);
    var joinB := JoinNode(JoinB(), db.Sources(), partsupp, joinA.value);
    var joinC := JoinNode(JoinC(), db.Sources(), lineitem, part);
    var joinD := JoinNode(JoinD(), db.Sources(), orders, joinC.value);
    var all := JoinNode(Joined(), db.Sources(), joinD.value, joinB.value);
    joined := all.value;
  }

  // ------------------------------------------------------------------- profit

  function ToCell(v: Value): ExpressionTrees.Cell { if v.Num? then Some(v.n) else None }

  function FromCell(c: ExpressionTrees.Cell): Value { if c.Some? then Num(c.value) else Null }

  const PROFIT_COLS := ["nation", "o_year", "amount"]
  const GROUP_KEYS := ["nation", "o_year"]

  function AmountValue(discount: Value, price: Value, cost: Value, quantity: Value): Value {
    FromCell(AmountCell(ToCell(discount), ToCell(price), ToCell(cost), ToCell(quantity)))
  }

  function ProfitRow(name: Value, year: Value, amount: Value): Record {
    map["nation" := name, "o_year" := year, "amount" := amount]
  }

  /** The inner select: what one joined row contributes. */
  function Profit(year: Value -> Value): Record -> Record {
    (m: Record) => ProfitRow(At(m, "n_name"), year(At(m, "o_orderdate")),
        AmountValue(At(m, "l_discount"), At(m, "l_extendedprice"), At(m, "ps_supplycost"), At(m, "l_quantity")))
  }

  /** What a joined row contributes, by nation and year: its price less the discount and the supply cost. */
  lemma ProfitIs(year: Value -> Value, m: Record)
    ensures Profit(year)(m).Keys == {"nation", "o_year", "amount"}
    ensures var p := Profit(year)(m);
            var price, discount := At(m, "l_extendedprice"), At(m, "l_discount");
            var cost, quantity := At(m, "ps_supplycost"), At(m, "l_quantity");
            && p["nation"] == At(m, "n_name") && p["o_year"] == year(At(m, "o_orderdate"))
            && p["amount"] == if price.Num? && discount.Num? && cost.Num? && quantity.Num?
                              then Num(price.n - discount.n * price.n - quantity.n * cost.n) else Null
  {
    ProfitRowIs(At(m, "n_name"), year(At(m, "o_orderdate")),
                AmountValue(At(m, "l_discount"), At(m, "l_extendedprice"), At(m, "ps_supplycost"),
                            At(m, "l_quantity")));
    AmountIs(At(m, "l_discount"), At(m, "l_extendedprice"), At(m, "ps_supplycost"), At(m, "l_quantity"));
  }

  lemma ProfitRowIs(name: Value, year: Value, amount: Value)
    ensures var p := ProfitRow(name, year, amount);
            p.Keys == {"nation", "o_year", "amount"}
            && p["nation"] == name && p["o_year"] == year && p["amount"] == amount
  {
    ProfitNamesDiffer();
  }

  lemma AmountIs(discount: Value, price: Value, cost: Value, quantity: Value)
    ensures AmountValue(discount, price, cost, quantity)
         == if price.Num? && discount.Num? && cost.Num? && quantity.Num?
            then Num(price.n - discount.n * price.n - quantity.n * cost.n) else Null
  {
    if price.Num? && discount.Num? && cost.Num? && quantity.Num? {
      assert price.n * (1.0 - discount.n) == price.n - discount.n * price.n;
      assert cost.n * quantity.n == quantity.n * cost.n;
    }
  }

  lemma ToRecordCons(name: string, v: Value, names: seq<string>, row: Row)
    requires |names| == |row|
    ensures ToRecord([name] + names, [v] + row) == ToRecord(names, row)[name := v]
  {
    assert ([name] + names)[1..] == names && ([v] + row)[1..] == row;
  }

  /** Records of three columns, one key at a time. */
  lemma ThreeColumns(x: string, y: string, z: string, a: Value, b: Value, c: Value)
    ensures ToRecord([x, y, z], [a, b, c]) == map[][z := c][y := b][x := a]
  {
    ToRecordCons(z, c, [], []);
    ToRecordCons(y, b, [z], [c]);
    ToRecordCons(x, a, [y, z], [b, c]);
    assert [x] + [y, z] == [x, y, z] && [a] + [b, c] == [a, b, c];
    assert [y] + [z] == [y, z] && [b] + [c] == [b, c];
    assert [z] + [] == [z] && [c] + [] == [c];
  }

  lemma ProfitRecord(a: Value, b: Value, c: Value)
    ensures ToRecord(PROFIT_COLS, [a, b, c]) == ProfitRow(a, b, c)
  {
    ThreeColumns("nation", "o_year", "amount", a, b, c);
    ProfitNamesDiffer();
    RecordsEqual(map[]["amount" := c]["o_year" := b]["nation" := a], ProfitRow(a, b, c));
  }

  lemma ProfitNamesDiffer()
    ensures "nation" != "o_year" && "nation" != "amount" && "o_year" != "amount"
  {
    assert "nation"[0] == 'n' && "o_year"[0] == 'o' && "amount"[0] == 'a';
  }

  function ProfitTable(names: seq<Value>, years: seq<Value>, amounts: seq<Value>): (t: Table)
    requires |names| == |years| == |amounts|
    ensures t.names == PROFIT_COLS && |t.rows| == |names|
    ensures forall i :: 0 <= i < |names| ==> t.rows[i] == [names[i], years[i], amounts[i]]
  {
    Table(PROFIT_COLS, seq(|names|, i requires 0 <= i < |names| => [names[i], years[i], amounts[i]]))
  }

  lemma ProfitTableRecords(names: seq<Value>, years: seq<Value>, amounts: seq<Value>, rs: seq<Record>,
                           year: Value -> Value)
    requires |names| == |years| == |amounts| == |rs|
    requires forall i :: 0 <= i < |rs| ==> Profit(year)(rs[i]) == ProfitRow(names[i], years[i], amounts[i])
    ensures ProfitTable(names, years, amounts).Valid()
    ensures RecordsOf(ProfitTable(names, years, amounts)) == Image(rs, Profit(year))
  {
    ProfitNamesDiffer();
    var t := ProfitTable(names, years, amounts);
    assert t.Valid();
    forall i | 0 <= i < |rs| ensures RecordsOf(t)[i] == Image(rs, Profit(year))[i] {
      ProfitRecord(names[i], years[i], amounts[i]);
    }
  }

  const PROFIT_INPUTS := ["n_name", "o_orderdate", "l_discount", "l_extendedprice", "ps_supplycost", "l_quantity"]

  ghost predicate IsColumn(t: Table, c: string, values: seq<Value>)
    requires t.Valid()
  {
    |values| == |t.rows| && forall i :: 0 <= i < |values| ==> values[i] == At(RecordsOf(t)[i], c)
  }

  method ReadColumn(joined: TableWithNames, c: string) returns (r: Result<seq<Value>>)
    requires joined.View().Valid()
    ensures r.Success? <==> c in joined.names
    ensures r.Success? ==> IsColumn(joined.View(), c, r.value)
  {
    r := joined.Column(c);
  }

  /** Profit rows from the columns they are computed from. */
  lemma ProfitRows(t: Table, names: seq<Value>, dates: seq<Value>, discounts: seq<Value>, prices: seq<Value>,
                   costs: seq<Value>, quantities: seq<Value>, amounts: seq<Value>, year: Value -> Value)
    requires t.Valid() && IsColumn(t, "n_name", names) && IsColumn(t, "o_orderdate", dates)
    requires IsColumn(t, "l_discount", discounts) && IsColumn(t, "l_extendedprice", prices)
    requires IsColumn(t, "ps_supplycost", costs) && IsColumn(t, "l_quantity", quantities)
    requires |amounts| == |t.rows|
    requires forall i :: 0 <= i < |amounts| ==>
        amounts[i] == AmountValue(discounts[i], prices[i], costs[i], quantities[i])
    ensures ProfitTable(names, Image(dates, year), amounts).Valid()
    ensures RecordsOf(ProfitTable(names, Image(dates, year), amounts)) == Image(RecordsOf(t), Profit(year))
  {
    ProfitTableRecords(names, Image(dates, year), amounts, RecordsOf(t), year);
  }

  method AmountValues(engine: Engine, discounts: seq<Value>, prices: seq<Value>, costs: seq<Value>,
                      quantities: seq<Value>)
      returns (amounts: seq<Value>)
    requires |discounts| == |prices| == |costs| == |quantities|
    ensures |amounts| == |prices|
    ensures forall i :: 0 <= i < |amounts| ==>
        amounts[i] == AmountValue(discounts[i], prices[i], costs[i], quantities[i])
  {
    var cells := ComputeAmount(engine, Image(discounts, ToCell), Image(prices, ToCell), Image(costs, ToCell),
                               Image(quantities, ToCell));
    amounts := Image(cells, FromCell);
  }

  /** The profit of each nation and year, nations ascending and years descending. */
  ghost predicate IsProfitAnswer(out: Table, groups: Groups) {
    IsAnswer(out, GROUP_KEYS, "sum_profit", groups, GROUP_KEYS, [ASCENDING, DESCENDING])
  }

  /**
    Computes nation, year and amount of every joined row with the given engine, sums
    amounts per group and orders the groups.
   */
  method ComputeProfit(joined: TableWithNames, engine: Engine, year: Value -> Value) returns (r: Result<TableWithNames>)
    requires joined.View().Valid()
    ensures AllNamed(joined.names, PROFIT_INPUTS) ==> r.Success?
    ensures r.Success? ==> IsProfitAnswer(r.value.View(),
        GroupSums(Image(RecordsOf(joined.View()), Profit(year)), GROUP_KEYS, ColumnValue("amount")))
  {
    assert AllNamed(joined.names, PROFIT_INPUTS) ==>
        PROFIT_INPUTS[0] in joined.names && PROFIT_INPUTS[1] in joined.names && PROFIT_INPUTS[2] in joined.names
        && PROFIT_INPUTS[3] in joined.names && PROFIT_INPUTS[4] in joined.names && PROFIT_INPUTS[5] in joined.names;
    var names :- ReadColumn(joined, "n_name");
    var dates :- ReadColumn(joined, "o_orderdate");
    var discounts :- ReadColumn(joined, "l_discount");
    var prices :- ReadColumn(joined, "l_extendedprice");
    var costs :- ReadColumn(joined, "ps_supplycost");
    var quantities :- ReadColumn(joined, "l_quantity");
    var amounts := AmountValues(engine, discounts, prices, costs, quantities);
    ProfitRows(joined.View(), names, dates, discounts, prices, costs, quantities, amounts, year);
    var profit := new TableWithNames(ProfitTable(names, Image(dates, year), amounts));
    ProfitColumnsFound();
    r := SumAndOrder(profit, GROUP_KEYS, "amount", "sum_profit", GROUP_KEYS, [ASCENDING, DESCENDING]);
  }

  lemma ProfitColumnsFound()
    ensures AllNamed(PROFIT_COLS, GROUP_KEYS) && "amount" in PROFIT_COLS
        && AllNamed(GROUP_KEYS + ["sum_profit"], GROUP_KEYS)
  {
    assert PROFIT_COLS[0] == "nation" && PROFIT_COLS[1] == "o_year" && PROFIT_COLS[2] == "amount";
    assert (GROUP_KEYS + ["sum_profit"])[0] == "nation" && (GROUP_KEYS + ["sum_profit"])[1] == "o_year";
  }

  // ------------------------------------------------------------------- result

  /** The query of the SQL text, for a given year of a date. */
  function SqlQuery(year: Value -> Value): Query { Query(Clause(), Profit(year), GROUP_KEYS, ColumnValue("amount")) }

  /**
    The joined rows are the rows of the FROM and WHERE clauses, as a multiset: with
    the joins' equality of nulls always, with SQL's when primary keys are present.
   */
  lemma PlanRows(db: Base, nulls: NullEquality, out: Table)
    requires db.Valid() && ValidSources(db.Sources())
    requires WellFormed(Joined(), 6) && Yields(Joined(), db.Sources(), nulls, out)
    ensures out.Valid()
    ensures multiset(RecordsOf(out)) == multiset(QueryRows(db.Sources(), Clause(), Equality(nulls)))
    ensures PrimaryKeysPresent(db) ==>
        multiset(RecordsOf(out)) == multiset(QueryRows(db.Sources(), Clause(), SqlEqual()))
  {
    PlanImplements(db);
    PlanIsQuery(Joined(), db.Sources(), Clause(), nulls, out);
    if PrimaryKeysPresent(db) {
      PrimaryGuards(db);
      PlanIsSql(Joined(), db.Sources(), Clause(), nulls, out, PRIMARY);
    }
  }

  lemma PrimaryAnswers(db: Base, year: Value -> Value)
    requires db.Valid() && ValidSources(db.Sources()) && PrimaryKeysPresent(db)
    ensures AnswersSql(SqlQuery(year), db.Sources())
  {
    ClauseColumns(db);
    PrimaryGuards(db);
    GuardedAnswersAgree(db.Sources(), SqlQuery(year), PRIMARY);
  }

  lemma ProfitInputsJoined()
    ensures AllNamed(JOINED_COLS, PROFIT_INPUTS)
  {
    assert LINEITEM_COLS[3] == "l_extendedprice" && LINEITEM_COLS[4] == "l_discount"
        && LINEITEM_COLS[5] == "l_quantity";
    assert NATION_COLS[1] == "n_name" && ORDERS_COLS[1] == "o_orderdate" && PARTSUPP_COLS[2] == "ps_supplycost";
  }

  /** The whole query, on any engine: the answer to the SQL text. */
  method RunQ9(db: Base, engine: Engine, year: Value -> Value) returns (r: Result<TableWithNames>)
    requires db.Valid()
    ensures ValidSources(db.Sources()) && r.Success?
    ensures IsProfitAnswer(r.value.View(), SqlQuery(year).Answer(db.Sources(), NullSafeEqual()))
    ensures PrimaryKeysPresent(db) ==>
        IsProfitAnswer(r.value.View(), SqlQuery(year).Answer(db.Sources(), SqlEqual()))
    ensures PrimaryKeysPresent(db) && SqlQuery(year).NullFreeGroups(db.Sources()) ==>
        IsProfitAnswer(r.value.View(), SqlQuery(year).SqlAnswer(db.Sources()))
    ensures Reports(r.value.rows, SqlQuery(year), db.Sources(), NullSafeEqual(), false)
    ensures PrimaryKeysPresent(db) && SqlQuery(year).NullFreeGroups(db.Sources()) ==>
        Reports(r.value.rows, SqlQuery(year), db.Sources(), SqlEqual(), true)
  {
    SourcesValid(db);
    TreeShape();
    PartScanValid(db.part);
    var joined := JoinData(db);
    PlanImplements(db);
    PlanAnswers(Joined(), db.Sources(), SqlQuery(year), EQUAL, joined.View());
    if PrimaryKeysPresent(db) {
      PrimaryAnswers(db, year);
    }
    ProfitInputsJoined();
    r := ComputeProfit(joined, engine, year);
    AnswerReports(r.value.rows, SqlQuery(year), db.Sources());
  }

  /** Ordered by nation and year, the answer has only one possible order of rows. */
  lemma OrderDetermined(ss: seq<Source>, eq: (Value, Value) -> bool, year: Value -> Value, a: Table, b: Table)
    requires ValidSources(ss)
    requires IsProfitAnswer(a, SqlQuery(year).Answer(ss, eq))
    requires IsProfitAnswer(b, SqlQuery(year).Answer(ss, eq))
    ensures a == b
  {
    ProfitNamesDiffer();
    GroupSumsKeyed(SqlQuery(year).Rows(ss, eq), GROUP_KEYS, ColumnValue("amount"));
    AnswerUnique(a, b, GROUP_KEYS, "sum_profit", SqlQuery(year).Answer(ss, eq), [ASCENDING, DESCENDING]);
  }
}
