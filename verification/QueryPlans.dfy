/**
  What the query plans are measured against: the FROM/WHERE meaning of a SQL
  query over whole tables, and grouped sums. Also the table schemas and the
  projecting, filtering scan every plan starts with.
 */
module QueryPlans {
  import opened Outcomes
  import opened Sequences
  import opened Totals
  import opened NamedTables
  import opened TableOps

  // ------------------------------------------------------------------ schemas

  const ORDERS_SCHEMA := ["o_orderkey", "o_custkey", "o_orderstatus", "o_totalprice", "o_orderdate",
                          "o_orderpriority", "o_clerk", "o_shippriority", "o_comment"]
  const LINEITEM_FRONT := ["l_orderkey", "l_partkey", "l_suppkey", "l_linenumber", "l_quantity",
                           "l_extendedprice", "l_discount", "l_tax"]
  const LINEITEM_BACK := ["l_returnflag", "l_linestatus", "l_shipdate", "l_commitdate",
                          "l_receiptdate", "l_shipinstruct", "l_shipmode", "l_comment"]
  const LINEITEM_SCHEMA := LINEITEM_FRONT + LINEITEM_BACK
  const PART_SCHEMA := ["p_partkey", "p_name", "p_mfgr", "p_brand", "p_type", "p_size", "p_container",
                        "p_retailprice", "p_comment"]
  const PARTSUPP_SCHEMA := ["ps_partkey", "ps_suppkey", "ps_availqty", "ps_supplycost", "ps_comment"]
  const SUPPLIER_SCHEMA := ["s_suppkey", "s_name", "s_address", "s_nationkey", "s_phone", "s_acctbal", "s_comment"]
  const CUSTOMER_SCHEMA := ["c_custkey", "c_name", "c_address", "c_nationkey", "c_phone", "c_acctbal",
                            "c_mktsegment", "c_comment"]
  const NATION_SCHEMA := ["n_nationkey", "n_name", "n_regionkey", "n_comment"]
  const REGION_SCHEMA := ["r_regionkey", "r_name", "r_comment"]

  datatype TableName = CUSTOMER | ORDERS | LINEITEM | SUPPLIER | NATION | REGION | PART | PARTSUPP {
    /** The two letters that all column names of the table start with. */
    function Letters(): (char, char) {
      match this
      case CUSTOMER => ('c', '_')
      case ORDERS => ('o', '_')
      case LINEITEM => ('l', '_')
      case SUPPLIER => ('s', '_')
      case NATION => ('n', '_')
      case REGION => ('r', '_')
      case PART => ('p', '_')
      case PARTSUPP => ('p', 's')
    }
  }

  predicate HasLetters(c: string, letters: (char, char)) {
    |c| >= 2 && c[0] == letters.0 && c[1] == letters.1
  }

  ghost predicate Tagged(ks: set<string>, tag: TableName) {
    forall c :: c in ks ==> HasLetters(c, tag.Letters())
  }

  lemma TaggedNames(names: seq<string>, tag: TableName)
    requires forall i :: 0 <= i < |names| ==> HasLetters(names[i], tag.Letters())
    ensures Tagged(NameSet(names), tag)
  {
  }

  lemma CustomerTag()
    ensures Tagged(NameSet(CUSTOMER_SCHEMA), CUSTOMER)
  {
    TaggedNames(CUSTOMER_SCHEMA, CUSTOMER);
  }

  lemma OrdersTag()
    ensures Tagged(NameSet(ORDERS_SCHEMA), ORDERS)
  {
    TaggedNames(ORDERS_SCHEMA, ORDERS);
  }

  lemma LineitemFrontTag()
    ensures Tagged(NameSet(LINEITEM_FRONT), LINEITEM)
  {
    TaggedNames(LINEITEM_FRONT, LINEITEM);
  }

  lemma LineitemBackTag()
    ensures Tagged(NameSet(LINEITEM_BACK), LINEITEM)
  {
    TaggedNames(LINEITEM_BACK, LINEITEM);
  }

  lemma LineitemTag()
    ensures Tagged(NameSet(LINEITEM_SCHEMA), LINEITEM)
  {
    LineitemFrontTag();
    LineitemBackTag();
    TaggedUnion(LINEITEM_FRONT, LINEITEM_BACK, LINEITEM);
  }

  lemma TaggedUnion(a: seq<string>, b: seq<string>, tag: TableName)
    requires Tagged(NameSet(a), tag) && Tagged(NameSet(b), tag)
    ensures Tagged(NameSet(a + b), tag)
  {
  }

  lemma SupplierTag()
    ensures Tagged(NameSet(SUPPLIER_SCHEMA), SUPPLIER)
  {
    TaggedNames(SUPPLIER_SCHEMA, SUPPLIER);
  }

  lemma NationTag()
    ensures Tagged(NameSet(NATION_SCHEMA), NATION)
  {
    TaggedNames(NATION_SCHEMA, NATION);
  }

  lemma RegionTag()
    ensures Tagged(NameSet(REGION_SCHEMA), REGION)
  {
    TaggedNames(REGION_SCHEMA, REGION);
  }

  lemma PartTag()
    ensures Tagged(NameSet(PART_SCHEMA), PART)
  {
    TaggedNames(PART_SCHEMA, PART);
  }

  lemma PartsuppTag()
    ensures Tagged(NameSet(PARTSUPP_SCHEMA), PARTSUPP)
  {
    TaggedNames(PARTSUPP_SCHEMA, PARTSUPP);
  }

  /** Names picked from a schema by position. */
  lemma PickedNames(names: seq<string>, cols: seq<string>, at: seq<nat>)
    requires |at| == |cols|
    requires forall k :: 0 <= k < |cols| ==> at[k] < |names| && names[at[k]] == cols[k]
    ensures AllNamed(names, cols) && NameSet(cols) <= NameSet(names)
  {
    forall k | 0 <= k < |cols| ensures cols[k] in names {
      assert names[at[k]] in names;
    }
  }

  lemma TagsSeparate(ka: set<string>, kb: set<string>, ta: TableName, tb: TableName)
    requires Tagged(ka, ta) && Tagged(kb, tb) && ta != tb
    ensures ka !! kb
  {
    assert ta.Letters() != tb.Letters();
  }

  // -------------------------------------------------------------------- dates

  predicate IsLeap(year: nat) { year % 4 == 0 && (year % 100 != 0 || year % 400 == 0) }

  function DaysInMonth(year: nat, month: nat): nat
    requires 1 <= month <= 12
  {
    if month in {4, 6, 9, 11} then 30 else if month != 2 then 31 else if IsLeap(year) then 29 else 28
  }

  /** Days from 1970-01-01 to the first day of a month. */
  function DaysSinceEpoch(year: nat, month: nat): nat
    requires 1970 <= year && 1 <= month <= 12
    decreases year, month
  {
    if month > 1 then DaysSinceEpoch(year, month - 1) + DaysInMonth(year, month - 1)
    else if year == 1970 then 0
    else DaysSinceEpoch(year - 1, 12) + 31
  }

  /** A year has 365 days, a leap year one more. */
  lemma NextYear(year: nat)
    requires 1970 <= year
    ensures DaysSinceEpoch(year + 1, 1) == DaysSinceEpoch(year, 1) + if IsLeap(year) then 366 else 365
    ensures DaysSinceEpoch(year, 10) == DaysSinceEpoch(year, 1) + if IsLeap(year) then 274 else 273
  {
    var march := DaysSinceEpoch(year, 1) + 31 + DaysInMonth(year, 2);
    assert DaysSinceEpoch(year, 2) == DaysSinceEpoch(year, 1) + 31;
    assert DaysSinceEpoch(year, 3) == march && DaysSinceEpoch(year, 4) == march + 31;
    assert DaysSinceEpoch(year, 5) == march + 61 && DaysSinceEpoch(year, 6) == march + 92;
    assert DaysSinceEpoch(year, 7) == march + 122 && DaysSinceEpoch(year, 8) == march + 153;
    assert DaysSinceEpoch(year, 9) == march + 184 && DaysSinceEpoch(year, 10) == march + 214;
    assert DaysSinceEpoch(year, 11) == march + 245 && DaysSinceEpoch(year, 12) == march + 275;
  }

  lemma LeapYears(year: nat)
    requires 1970 <= year < 2100
    ensures IsLeap(year) <==> year % 4 == 0
  {
  }

  lemma {:induction false} YearStart(year: nat)
    requires 1970 <= year < 2100
    ensures DaysSinceEpoch(year, 1) == 365 * (year - 1970) + (year - 1969) / 4
  {
    if year > 1970 {
      YearStart(year - 1);
      NextYear(year - 1);
      LeapYears(year - 1);
    }
  }

  /** The days between which the queries select orders. */
  lemma QueryDates()
    ensures DaysSinceEpoch(1993, 10) == 8674
    ensures DaysSinceEpoch(1994, 1) == 8766
    ensures DaysSinceEpoch(1995, 1) == 9131
  {
    YearStart(1993);
    YearStart(1994);
    YearStart(1995);
    NextYear(1993);
    LeapYears(1993);
  }

  // ------------------------------------------------------------ FROM and WHERE

  function At(m: Record, c: string): Value { if c in m then m[c] else Null }

  function Equality(nulls: NullEquality): (Value, Value) -> bool { (a: Value, b: Value) => SameKey(nulls, a, b) }

  /** SQL equality is not true of nulls. */
  function SqlEqual(): (Value, Value) -> bool { Equality(UNEQUAL) }

  /** The equality `apply_inner_join` compares keys with by default: nulls are equal. */
  function NullSafeEqual(): (Value, Value) -> bool { Equality(EQUAL) }

  /** Two keys match when they are the same value; for SQL a null matches nothing. */
  lemma KeyEqualities(a: Value, b: Value)
    ensures NullSafeEqual()(a, b) <==> a == b
    ensures SqlEqual()(a, b) <==> a == b && a != Null
  {
  }

  /** Every combination of one record from each table. */
  function CrossAll(tables: seq<seq<Record>>): seq<Record> {
    if tables == [] then [map[]] else NestedJoin(tables[0], CrossAll(tables[1..]), CROSS)
  }

  function UnionAll(schemas: seq<set<string>>): set<string> {
    if schemas == [] then {} else schemas[0] + UnionAll(schemas[1..])
  }

  /** The tables have the given, pairwise disjoint schemas. */
  ghost predicate From(tables: seq<seq<Record>>, schemas: seq<set<string>>) {
    && |tables| == |schemas|
    && (tables != [] ==>
          && Uniform(tables[0], schemas[0])
          && schemas[0] !! UnionAll(schemas[1..])
          && From(tables[1..], schemas[1..]))
  }

  /** `select * from tables where ...` */
  function Select(tables: seq<seq<Record>>, condition: Record -> bool): seq<Record> {
    Keep(CrossAll(tables), condition)
  }

  lemma {:induction false} CrossAllUniform(tables: seq<seq<Record>>, schemas: seq<set<string>>)
    requires From(tables, schemas)
    ensures Uniform(CrossAll(tables), UnionAll(schemas))
  {
    if tables != [] {
      CrossAllUniform(tables[1..], schemas[1..]);
      NestedJoinUniform(tables[0], schemas[0], CrossAll(tables[1..]), UnionAll(schemas[1..]), CROSS);
    }
  }

  /** How often each table's part of `m` occurs, multiplied. */
  function Occurrences(tables: seq<seq<Record>>, schemas: seq<set<string>>, m: Record): nat
    requires |tables| == |schemas|
  {
    if tables == [] then 1
    else multiset(tables[0])[Restrict(m, schemas[0])] * Occurrences(tables[1..], schemas[1..], m)
  }

  lemma {:induction false} OccurrencesRestrict(tables: seq<seq<Record>>, schemas: seq<set<string>>, m: Record,
                                               ks: set<string>)
    requires |tables| == |schemas| && UnionAll(schemas) <= ks
    ensures Occurrences(tables, schemas, Restrict(m, ks)) == Occurrences(tables, schemas, m)
  {
    if tables != [] {
      RestrictTwice(m, ks, schemas[0]);
      OccurrencesRestrict(tables[1..], schemas[1..], m, ks);
    }
  }

  lemma {:induction false} CrossAllCount(tables: seq<seq<Record>>, schemas: seq<set<string>>, m: Record)
    requires From(tables, schemas)
    ensures multiset(CrossAll(tables))[m] == if m.Keys == UnionAll(schemas) then Occurrences(tables, schemas, m) else 0
  {
    if tables == [] {
      assert m.Keys == {} <==> m == map[];
    } else {
      var rest := UnionAll(schemas[1..]);
      CrossAllUniform(tables[1..], schemas[1..]);
      NestedJoinCount(tables[0], schemas[0], CrossAll(tables[1..]), rest, CROSS, m);
      if m.Keys == UnionAll(schemas) {
        CrossAllCount(tables[1..], schemas[1..], Restrict(m, rest));
        OccurrencesRestrict(tables[1..], schemas[1..], m, rest);
      }
    }
  }

  /** Projecting the query's rows, or querying projected tables, is the same. */
  lemma {:induction false} CrossAllProject(tables: seq<seq<Record>>, schemas: seq<set<string>>, ks: set<string>)
    requires From(tables, schemas)
    ensures Project(CrossAll(tables), ks) == CrossAll(ProjectEach(tables, ks))
  {
    if tables == [] {
      assert Restrict(map[], ks) == map[];
    } else {
      CrossAllProject(tables[1..], schemas[1..], ks);
      CrossAllUniform(tables[1..], schemas[1..]);
      CrossProject(tables[0], schemas[0], CrossAll(tables[1..]), UnionAll(schemas[1..]), ks);
      assert ProjectEach(tables, ks)[1..] == ProjectEach(tables[1..], ks);
    }
  }

  function ProjectEach(tables: seq<seq<Record>>, ks: set<string>): (ps: seq<seq<Record>>)
    ensures |ps| == |tables|
  {
    seq(|tables|, i requires 0 <= i < |tables| => Project(tables[i], ks))
  }

  lemma SelectProject(tables: seq<seq<Record>>, schemas: seq<set<string>>, condition: Record -> bool, ks: set<string>)
    requires From(tables, schemas) && ReadsOnly(condition, ks)
    ensures Project(Select(tables, condition), ks) == Select(ProjectEach(tables, ks), condition)
  {
    CrossAllProject(tables, schemas, ks);
    KeepProject(CrossAll(tables), condition, ks);
  }

  // ------------------------------------------------------------------- scans

  function SelectRow(names: seq<string>, row: Row, cols: seq<string>): (r: Row)
    requires |row| == |names| && AllNamed(names, cols)
    ensures |r| == |cols|
  {
    seq(|cols|, k requires 0 <= k < |cols| => row[ColumnIds(names, cols)[k]])
  }

  function Scanner(names: seq<string>, cols: seq<string>, pred: Row -> bool): Row -> Option<Row>
    requires AllNamed(names, cols)
  {
    (row: Row) =>
      if |row| == |names| && pred(SelectRow(names, row, cols)) then Some(SelectRow(names, row, cols)) else None
  }

  /** A parquet scan: the columns `cols`, in that order, of the rows on which `pred` is true. */
  function Scan(file: Table, cols: seq<string>, pred: Row -> bool): Table
    requires AllNamed(file.names, cols)
  {
    Table(cols, Collect(file.rows, Scanner(file.names, cols, pred)))
  }

  method ReadParquet(file: Table, cols: seq<string>, pred: Row -> bool) returns (t: TableWithNames)
    requires AllNamed(file.names, cols)
    ensures fresh(t) && t.View() == Scan(file, cols, pred)
  {
    t := new TableWithNames(Scan(file, cols, pred));
  }

  lemma {:induction false} RecordsEqual(a: Record, b: Record)
    requires a.Keys == b.Keys && forall c :: c in a ==> a[c] == b[c]
    ensures a == b
  {
  }

  lemma SelectedRecord(names: seq<string>, row: Row, cols: seq<string>)
    requires |row| == |names| && AllNamed(names, cols)
    ensures ToRecord(cols, SelectRow(names, row, cols)) == Restrict(ToRecord(names, row), NameSet(cols))
  {
    var selected := SelectRow(names, row, cols);
    var a, b := ToRecord(cols, selected), Restrict(ToRecord(names, row), NameSet(cols));
    forall c | c in cols ensures c in b && a[c] == b[c] {
      var k := ColumnId(cols, c).value;
      assert cols[k] == c && c in names;
      ToRecordAt(cols, selected, c);
      assert selected[k] == row[ColumnIds(names, cols)[k]] == row[ColumnId(names, c).value];
      ToRecordAt(names, row, c);
    }
    RecordsEqual(a, b);
  }

  /** What the scan keeps of one row, as a record. */
  lemma ScannedRecord(file: Table, cols: seq<string>, pred: Row -> bool, p: Record -> bool, row: Row)
    requires |row| == |file.names| && AllNamed(file.names, cols) && SameFilter(cols, pred, p)
    ensures Passing(p)(Narrowed(file.names, NameSet(cols))(row))
         == Lift(Scanner(file.names, cols, pred)(row), AsRecord(cols))
  {
    SelectedRecord(file.names, row, cols);
    var selected := SelectRow(file.names, row, cols);
    assert pred(selected) <==> p(ToRecord(cols, selected));
    var whole := AsRecord(file.names)(row);
    assert whole == ToRecord(file.names, row);
    assert Narrowed(file.names, NameSet(cols))(row) == Restrict(whole, NameSet(cols));
    assert Narrowed(file.names, NameSet(cols))(row) == ToRecord(cols, selected);
  }

  /** The filter on rows of the columns `cols` and the filter on records are the same. */
  ghost predicate SameFilter(cols: seq<string>, pred: Row -> bool, p: Record -> bool) {
    forall row: Row :: |row| == |cols| ==> (pred(row) <==> p(ToRecord(cols, row)))
  }

  function Narrowed(names: seq<string>, ks: set<string>): Row -> Record {
    (row: Row) => Restrict(AsRecord(names)(row), ks)
  }

  lemma NarrowedRows(file: Table, ks: set<string>)
    requires file.Valid()
    ensures Image(file.rows, Narrowed(file.names, ks)) == Project(RecordsOf(file), ks)
  {
    forall i | 0 <= i < |file.rows|
      ensures Image(file.rows, Narrowed(file.names, ks))[i] == Project(RecordsOf(file), ks)[i]
    {
      assert AsRecord(file.names)(file.rows[i]) == RecordsOf(file)[i];
    }
  }

  lemma ScanValid(file: Table, cols: seq<string>, pred: Row -> bool)
    requires AllNamed(file.names, cols) && Distinct(cols)
    ensures Scan(file, cols, pred).Valid()
  {
    EveryCollected(file.rows, Scanner(file.names, cols, pred), Wide(|cols|));
    var t := Scan(file, cols, pred);
    assert forall r :: 0 <= r < |t.rows| ==> Wide(|cols|)(t.rows[r]);
  }

  /** The records a scan returns: projected, then filtered. */
  lemma ScanRecords(file: Table, cols: seq<string>, pred: Row -> bool, p: Record -> bool)
    requires file.Valid() && AllNamed(file.names, cols) && Distinct(cols)
    requires SameFilter(cols, pred, p)
    ensures Scan(file, cols, pred).Valid()
    ensures RecordsOf(Scan(file, cols, pred)) == Keep(Project(RecordsOf(file), NameSet(cols)), p)
  {
    var ks := NameSet(cols);
    ScanValid(file, cols, pred);
    RecordsAreImage(Scan(file, cols, pred));
    forall i | 0 <= i < |file.rows| { ScannedRecord(file, cols, pred, p, file.rows[i]); }
    CollectMapped(file.rows, Scanner(file.names, cols, pred), AsRecord(cols), Narrowed(file.names, ks), Passing(p));
    NarrowedRows(file, ks);
  }

  // ---------------------------------------------------------- counting joins

  lemma OnHoldsRestrict(m: Record, on: JoinKeys, ks: set<string>)
    requires forall k :: 0 <= k < |on.pairs| ==> on.pairs[k].0 in ks && on.pairs[k].1 in ks
    ensures OnHolds(Restrict(m, ks), on) <==> OnHolds(m, on)
  {
    var r := Restrict(m, ks);
    forall k | 0 <= k < |on.pairs|
      ensures on.pairs[k].0 in r <==> on.pairs[k].0 in m
      ensures on.pairs[k].1 in r <==> on.pairs[k].1 in m
    {
    }
  }

  lemma KeysInSchemas(left: Table, right: Table, leftOn: seq<string>, rightOn: seq<string>, nulls: NullEquality)
    requires |leftOn| == |rightOn| && AllNamed(left.names, leftOn) && AllNamed(right.names, rightOn)
    ensures KeysIn(Keyed(leftOn, rightOn, nulls), left.Schema(), right.Schema())
  {
  }

  /** How often a record occurs in a joined table. */
  lemma InnerJoinCount(left: Table, right: Table, leftOn: seq<string>, rightOn: seq<string>, nulls: NullEquality,
                       t: Table, m: Record)
    requires left.Valid() && right.Valid() && left.Schema() !! right.Schema()
    requires IsInnerJoin(left, right, leftOn, rightOn, nulls, t)
    ensures t.Valid() && t.Schema() == left.Schema() + right.Schema()
    ensures multiset(RecordsOf(t))[m]
         == if m.Keys == t.Schema() && OnHolds(m, Keyed(leftOn, rightOn, nulls))
            then multiset(RecordsOf(left))[Restrict(m, left.Schema())]
                 * multiset(RecordsOf(right))[Restrict(m, right.Schema())]
            else 0
  {
    InnerJoinRecords(left, right, leftOn, rightOn, nulls, t);
    KeysInSchemas(left, right, leftOn, rightOn, nulls);
    NestedJoinCount(RecordsOf(left), left.Schema(), RecordsOf(right), right.Schema(), Keyed(leftOn, rightOn, nulls), m);
  }

  /** How often the part of `m` that belongs to table `t` occurs in it. */
  ghost function Occurs(t: Table, m: Record): nat
    requires t.Valid()
  {
    multiset(RecordsOf(t))[Restrict(m, t.Schema())]
  }

  /** One join, seen from a record that spans a whole plan. */
  lemma JoinOccurs(left: Table, right: Table, leftOn: seq<string>, rightOn: seq<string>, nulls: NullEquality, t: Table,
                   m: Record)
    requires left.Valid() && right.Valid() && left.Schema() !! right.Schema()
    requires IsInnerJoin(left, right, leftOn, rightOn, nulls, t)
    requires left.Schema() + right.Schema() <= m.Keys
    ensures t.Valid() && t.Schema() == left.Schema() + right.Schema()
    ensures Occurs(t, m) == if OnHolds(m, Keyed(leftOn, rightOn, nulls)) then Occurs(left, m) * Occurs(right, m) else 0
  {
    var part := Restrict(m, left.Schema() + right.Schema());
    InnerJoinCount(left, right, leftOn, rightOn, nulls, t, part);
    KeysInSchemas(left, right, leftOn, rightOn, nulls);
    OnHoldsRestrict(m, Keyed(leftOn, rightOn, nulls), left.Schema() + right.Schema());
    RestrictTwice(m, left.Schema() + right.Schema(), left.Schema());
    RestrictTwice(m, left.Schema() + right.Schema(), right.Schema());
  }

  lemma CountByOccurs(t: Table, m: Record)
    requires t.Valid()
    ensures multiset(RecordsOf(t))[m] == if m.Keys == t.Schema() then Occurs(t, m) else 0
  {
    if m.Keys == t.Schema() {
      RecordsEqual(Restrict(m, t.Schema()), m);
    }
  }

  // ------------------------------------------- counting the rows of a query

  ghost predicate PairwiseDisjoint(schemas: seq<set<string>>) {
    forall i, j :: 0 <= i < j < |schemas| ==> schemas[i] !! schemas[j]
  }

  lemma {:induction false} DisjointFromUnion(ks: set<string>, schemas: seq<set<string>>)
    requires forall j :: 0 <= j < |schemas| ==> ks !! schemas[j]
    ensures ks !! UnionAll(schemas)
  {
    if schemas != [] {
      DisjointFromUnion(ks, schemas[1..]);
    }
  }

  lemma {:induction false} PairwiseFrom(tables: seq<seq<Record>>, schemas: seq<set<string>>)
    requires |tables| == |schemas| && PairwiseDisjoint(schemas)
    requires forall i :: 0 <= i < |tables| ==> Uniform(tables[i], schemas[i])
    ensures From(tables, schemas)
  {
    if tables != [] {
      PairwiseFrom(tables[1..], schemas[1..]);
      DisjointFromUnion(schemas[0], schemas[1..]);
    }
  }

  lemma DisjointByTags(schemas: seq<set<string>>, tags: seq<TableName>)
    requires |schemas| == |tags|
    requires forall i :: 0 <= i < |tags| ==> Tagged(schemas[i], tags[i])
    requires forall i, j :: 0 <= i < j < |tags| ==> tags[i] != tags[j]
    ensures PairwiseDisjoint(schemas)
  {
    forall i, j | 0 <= i < j < |schemas| ensures schemas[i] !! schemas[j] {
      TagsSeparate(schemas[i], schemas[j], tags[i], tags[j]);
    }
  }

  function Count(rs: seq<Record>, m: Record, ks: set<string>): nat { multiset(rs)[Restrict(m, ks)] }

  /** How often the part of `m` that belongs to a scanned table occurs in the scan. */
  lemma ScanOccurs(file: Table, cols: seq<string>, pred: Row -> bool, p: Record -> bool, m: Record)
    requires file.Valid() && AllNamed(file.names, cols) && Distinct(cols) && SameFilter(cols, pred, p)
    requires p(Restrict(m, NameSet(cols))) == p(m)
    ensures Scan(file, cols, pred).Valid()
    ensures Occurs(Scan(file, cols, pred), m)
         == if p(m) then Count(Project(RecordsOf(file), NameSet(cols)), m, NameSet(cols)) else 0
  {
    ScanRecords(file, cols, pred, p);
    KeepCount(Project(RecordsOf(file), NameSet(cols)), p, Restrict(m, NameSet(cols)));
  }

  /** A filter on one column, on rows and on records. */
  function RowTest(cols: seq<string>, c: string, test: Value -> bool): Row -> bool
    requires c in cols
  {
    (row: Row) => var i := ColumnId(cols, c).value; i < |row| && test(row[i])
  }

  function RecordTest(c: string, test: Value -> bool): Record -> bool {
    (m: Record) => test(At(m, c))
  }

  lemma TestsAgree(cols: seq<string>, c: string, test: Value -> bool, row: Row)
    requires |row| == |cols| && c in cols
    ensures RowTest(cols, c, test)(row) <==> RecordTest(c, test)(ToRecord(cols, row))
  {
    ToRecordAt(cols, row, c);
    assert At(ToRecord(cols, row), c) == row[ColumnId(cols, c).value];
  }

  lemma AtRestrict(m: Record, ks: set<string>, c: string)
    requires c in ks
    ensures At(Restrict(m, ks), c) == At(m, c)
  {
  }

  lemma TestedScanOccurs(file: Table, cols: seq<string>, c: string, test: Value -> bool, m: Record)
    requires file.Valid() && AllNamed(file.names, cols) && Distinct(cols) && c in cols
    ensures Scan(file, cols, RowTest(cols, c, test)).Valid()
    ensures Occurs(Scan(file, cols, RowTest(cols, c, test)), m)
         == if test(At(m, c)) then Count(Project(RecordsOf(file), NameSet(cols)), m, NameSet(cols)) else 0
  {
    forall row: Row | |row| == |cols|
      ensures RowTest(cols, c, test)(row) <==> RecordTest(c, test)(ToRecord(cols, row))
    {
      TestsAgree(cols, c, test, row);
    }
    AtRestrict(m, NameSet(cols), c);
    ScanOccurs(file, cols, RowTest(cols, c, test), RecordTest(c, test), m);
  }

  /** `cols[i]` are the columns of table `i` that the query's answer keeps. */
  ghost predicate Database(tables: seq<seq<Record>>, schemas: seq<set<string>>, cols: seq<set<string>>) {
    && From(tables, schemas)
    && |cols| == |schemas|
    && forall i :: 0 <= i < |cols| ==> cols[i] <= schemas[i]
  }

  /** The kept columns `ks` meet each schema in that table's columns. */
  ghost predicate Splits(ks: set<string>, schemas: seq<set<string>>, cols: seq<set<string>>)
    requires |cols| == |schemas|
  {
    forall i :: 0 <= i < |cols| ==> ks * schemas[i] == cols[i]
  }

  lemma {:induction false} UnionMember(sets: seq<set<string>>, i: nat)
    requires i < |sets|
    ensures sets[i] <= UnionAll(sets)
  {
    if i > 0 {
      UnionMember(sets[1..], i - 1);
    }
  }

  lemma {:induction false} UnionWithin(small: seq<set<string>>, big: seq<set<string>>)
    requires |small| == |big| && forall i :: 0 <= i < |small| ==> small[i] <= big[i]
    ensures UnionAll(small) <= UnionAll(big)
  {
    if small != [] {
      UnionWithin(small[1..], big[1..]);
    }
  }

  lemma {:induction false} UnionSplits(tables: seq<seq<Record>>, schemas: seq<set<string>>, cols: seq<set<string>>)
    requires Database(tables, schemas, cols)
    ensures Splits(UnionAll(cols), schemas, cols)
  {
    if tables != [] {
      UnionSplits(tables[1..], schemas[1..], cols[1..]);
      UnionWithin(cols[1..], schemas[1..]);
      forall i | 0 <= i < |cols| ensures UnionAll(cols) * schemas[i] == cols[i] {
        if i > 0 {
          UnionMember(schemas[1..], i - 1);
          assert UnionAll(cols[1..]) * schemas[1..][i - 1] == cols[1..][i - 1];
        }
      }
    }
  }

  lemma {:induction false} ProjectedFrom(tables: seq<seq<Record>>, schemas: seq<set<string>>, cols: seq<set<string>>,
                                         ks: set<string>)
    requires Database(tables, schemas, cols) && Splits(ks, schemas, cols)
    ensures From(ProjectEach(tables, ks), cols)
  {
    if tables != [] {
      var ps := ProjectEach(tables, ks);
      ProjectedFrom(tables[1..], schemas[1..], cols[1..], ks);
      UnionWithin(cols[1..], schemas[1..]);
      assert ps[1..] == ProjectEach(tables[1..], ks);
      assert Uniform(ps[0], cols[0]);
    }
  }

  /** How often a record occurs in the answer of a query over whole tables. */
  lemma SelectCount(tables: seq<seq<Record>>, schemas: seq<set<string>>, cols: seq<set<string>>,
                    condition: Record -> bool, m: Record)
    requires Database(tables, schemas, cols) && ReadsOnly(condition, UnionAll(cols))
    ensures multiset(Project(Select(tables, condition), UnionAll(cols)))[m]
         == if m.Keys == UnionAll(cols) && condition(m)
            then Occurrences(ProjectEach(tables, UnionAll(cols)), cols, m) else 0
  {
    var ks := UnionAll(cols);
    UnionSplits(tables, schemas, cols);
    ProjectedFrom(tables, schemas, cols, ks);
    SelectProject(tables, schemas, condition, ks);
    KeepCount(CrossAll(ProjectEach(tables, ks)), condition, m);
    CrossAllCount(ProjectEach(tables, ks), cols, m);
  }

  lemma ProjectionOfTable(rs: seq<Record>, schema: set<string>, ks: set<string>, cols: set<string>)
    requires Uniform(rs, schema) && ks * schema == cols
    ensures Project(rs, ks) == Project(rs, cols)
  {
    forall i | 0 <= i < |rs| ensures Restrict(rs[i], ks) == Restrict(rs[i], cols) {
      RecordsEqual(Restrict(rs[i], ks), Restrict(rs[i], cols));
    }
  }

  /** Multisets with the same multiplicities are equal. */
  lemma SameCounts(a: multiset<Record>, b: multiset<Record>)
    requires forall m: Record :: a[m] == b[m]
    ensures a == b
  {
  }

  // ----------------------------------------------------------------- grouping

  /** Sum that skips nulls; null if there was nothing to add. */
  function AddValue(acc: Value, v: Value): Value {
    match (acc, v)
    case (Num(x), Num(y)) => Num(x + y)
    case (Num(_), _) => acc
    case (_, Num(_)) => v
    case (_, _) => Null
  }

  function GroupKey(m: Record, keys: seq<string>): (k: seq<Value>)
    ensures |k| == |keys|
  {
    seq(|keys|, i requires 0 <= i < |keys| => if keys[i] in m then m[keys[i]] else Null)
  }

  type Groups = map<seq<Value>, Value>

  function AddToGroup(groups: Groups, k: seq<Value>, v: Value): Groups {
    groups[k := AddValue(v, if k in groups then groups[k] else Null)]
  }

  /** `groupby(keys)` with a SUM of `val`; rows with a null key are left out, as is the default. */
  function GroupSums(rs: seq<Record>, keys: seq<string>, val: Record -> Value): Groups {
    if rs == [] then map[]
    else
      var rest := GroupSums(rs[1..], keys, val);
      var k := GroupKey(rs[0], keys);
      if Null in k then rest else AddToGroup(rest, k, val(rs[0]))
  }

  lemma UpdatesCommute<K, V>(m: map<K, V>, k: K, v: V, j: K, w: V)
    requires k != j
    ensures m[k := v][j := w] == m[j := w][k := v]
  {
  }

  lemma AddValueCommutes(acc: Value, v: Value, w: Value)
    ensures AddValue(w, AddValue(v, acc)) == AddValue(v, AddValue(w, acc))
  {
  }

  lemma AddToGroupCommutes(groups: Groups, k: seq<Value>, v: Value, j: seq<Value>, w: Value)
    ensures AddToGroup(AddToGroup(groups, k, v), j, w) == AddToGroup(AddToGroup(groups, j, w), k, v)
  {
    var gk, gj := if k in groups then groups[k] else Null, if j in groups then groups[j] else Null;
    if k == j {
      AddValueCommutes(gk, v, w);
    } else {
      UpdatesCommute(groups, k, AddValue(v, gk), j, AddValue(w, gj));
    }
  }

  lemma {:induction false} GroupSumsRemove(rs: seq<Record>, keys: seq<string>, val: Record -> Value, i: nat)
    requires i < |rs|
    ensures GroupSums(rs, keys, val) == GroupSums([rs[i]] + (rs[..i] + rs[i + 1..]), keys, val)
  {
    var moved := [rs[i]] + (rs[..i] + rs[i + 1..]);
    if i == 0 {
      assert moved == rs;
    } else {
      var tail := rs[1..];
      var swapped := [tail[i - 1]] + (tail[..i - 1] + tail[i..]);
      GroupSumsRemove(tail, keys, val, i - 1);
      var rest := tail[..i - 1] + tail[i..];
      assert swapped[1..] == rest;
      assert moved[1..] == [rs[0]] + rest && moved[1..][1..] == rest;
      AddToGroupCommutes(GroupSums(rest, keys, val),
                         GroupKey(rs[0], keys), val(rs[0]), GroupKey(rs[i], keys), val(rs[i]));
    }
  }

  /** Grouped sums depend only on which records there are, not on their order. */
  lemma {:induction false} GroupSumsPermuted(a: seq<Record>, b: seq<Record>, keys: seq<string>, val: Record -> Value)
    requires multiset(a) == multiset(b)
    ensures GroupSums(a, keys, val) == GroupSums(b, keys, val)
  {
    if a == [] {
      SameLength(a, b);
    } else {
      var k := MatchHead(a, b);
      var rest := b[..k] + b[k + 1..];
      GroupSumsPermuted(a[1..], rest, keys, val);
      GroupSumsRemove(b, keys, val, k);
      assert ([b[k]] + rest)[1..] == rest;
    }
  }

  /** The sum of `val` over the records in group `k`. */
  function SumWhere(rs: seq<Record>, keys: seq<string>, val: Record -> Value, k: seq<Value>): Value {
    if rs == [] then Null
    else
      var rest := SumWhere(rs[1..], keys, val, k);
      if GroupKey(rs[0], keys) == k then AddValue(val(rs[0]), rest) else rest
  }

  /** The record has the values `k` in the key columns; a missing column counts as null. */
  ghost predicate InGroup(m: Record, keys: seq<string>, k: seq<Value>) {
    |k| == |keys| && forall i :: 0 <= i < |keys| ==> if keys[i] in m then k[i] == m[keys[i]] else k[i] == Null
  }

  lemma InGroupIff(m: Record, keys: seq<string>, k: seq<Value>)
    ensures GroupKey(m, keys) == k <==> InGroup(m, keys, k)
  {
    if InGroup(m, keys, k) {
      assert forall i :: 0 <= i < |keys| ==> GroupKey(m, keys)[i] == k[i];
    }
  }

  /** The records of group `k` for which `val` is a number. */
  ghost function NumberedRows(rs: seq<Record>, keys: seq<string>, val: Record -> Value, k: seq<Value>): (at: set<nat>)
    ensures forall i: nat :: i in at <==> i < |rs| && InGroup(rs[i], keys, k) && val(rs[i]).Num?
  {
    set i: nat | i < |rs| && InGroup(rs[i], keys, k) && val(rs[i]).Num?
  }

  /** The number of each such record, and 0 for the others. */
  ghost function GroupTerms(rs: seq<Record>, keys: seq<string>, val: Record -> Value, k: seq<Value>): (ts: seq<real>)
    ensures |ts| == |rs|
    ensures forall i :: 0 <= i < |rs| ==>
        ts[i] == if InGroup(rs[i], keys, k) && val(rs[i]).Num? then val(rs[i]).n else 0.0
  {
    seq(|rs|, i requires 0 <= i < |rs| => if InGroup(rs[i], keys, k) && val(rs[i]).Num? then val(rs[i]).n else 0.0)
  }

  /** `v` is the total of the numbers of group `k`, and null if it has none. */
  ghost predicate IsGroupTotal(rs: seq<Record>, keys: seq<string>, val: Record -> Value, k: seq<Value>, v: Value) {
    v == if NumberedRows(rs, keys, val, k) == {} then Null else Num(Total(GroupTerms(rs, keys, val, k)))
  }

  /** Whether a group has numbers, one record at a time. */
  lemma NumberedFirst(rs: seq<Record>, keys: seq<string>, val: Record -> Value, k: seq<Value>)
    requires rs != []
    ensures NumberedRows(rs, keys, val, k) != {}
       <==> (InGroup(rs[0], keys, k) && val(rs[0]).Num?) || NumberedRows(rs[1..], keys, val, k) != {}
  {
    var all, rest := NumberedRows(rs, keys, val, k), NumberedRows(rs[1..], keys, val, k);
    if i :| i in rest {
      assert i + 1 in all;
    }
    if i :| i in all {
      assert i == 0 || i - 1 in rest;
    }
    assert InGroup(rs[0], keys, k) && val(rs[0]).Num? ==> 0 in all;
  }

  lemma NoTerms(rs: seq<Record>, keys: seq<string>, val: Record -> Value, k: seq<Value>)
    requires NumberedRows(rs, keys, val, k) == {}
    ensures Total(GroupTerms(rs, keys, val, k)) == 0.0
  {
    forall i | 0 <= i < |rs| ensures GroupTerms(rs, keys, val, k)[i] == 0.0 {
      assert i !in NumberedRows(rs, keys, val, k);
    }
    ZerosTotal(GroupTerms(rs, keys, val, k));
  }

  lemma {:induction false} SumWhereTotal(rs: seq<Record>, keys: seq<string>, val: Record -> Value, k: seq<Value>)
    ensures IsGroupTotal(rs, keys, val, k, SumWhere(rs, keys, val, k))
  {
    if rs != [] {
      var terms := GroupTerms(rs, keys, val, k);
      SumWhereTotal(rs[1..], keys, val, k);
      InGroupIff(rs[0], keys, k);
      NumberedFirst(rs, keys, val, k);
      assert terms[1..] == GroupTerms(rs[1..], keys, val, k);
      TotalFirst(terms);
      if NumberedRows(rs[1..], keys, val, k) == {} {
        NoTerms(rs[1..], keys, val, k);
      }
    }
  }

  /** Some record has the key values `k`. */
  ghost predicate Occupied(rs: seq<Record>, keys: seq<string>, k: seq<Value>) {
    exists i :: 0 <= i < |rs| && InGroup(rs[i], keys, k)
  }

  lemma OccupiedFirst(rs: seq<Record>, keys: seq<string>, k: seq<Value>)
    requires rs != []
    ensures Occupied(rs, keys, k) <==> GroupKey(rs[0], keys) == k || Occupied(rs[1..], keys, k)
  {
    InGroupIff(rs[0], keys, k);
    if i :| 0 <= i < |rs[1..]| && InGroup(rs[1..][i], keys, k) {
      assert InGroup(rs[i + 1], keys, k);
    }
    if i :| 0 <= i < |rs| && InGroup(rs[i], keys, k) {
      assert i == 0 || InGroup(rs[1..][i - 1], keys, k);
    }
  }

  lemma {:induction false} NothingToSum(rs: seq<Record>, keys: seq<string>, val: Record -> Value, k: seq<Value>)
    requires !Occupied(rs, keys, k)
    ensures SumWhere(rs, keys, val, k) == Null
  {
    if rs != [] {
      OccupiedFirst(rs, keys, k);
      NothingToSum(rs[1..], keys, val, k);
    }
  }

  lemma {:induction false} GroupsAreSums(rs: seq<Record>, keys: seq<string>, val: Record -> Value, k: seq<Value>)
    ensures k in GroupSums(rs, keys, val) <==> Null !in k && Occupied(rs, keys, k)
    ensures k in GroupSums(rs, keys, val) ==> GroupSums(rs, keys, val)[k] == SumWhere(rs, keys, val, k)
  {
    if rs != [] {
      GroupsAreSums(rs[1..], keys, val, k);
      OccupiedFirst(rs, keys, k);
      if !Occupied(rs[1..], keys, k) {
        NothingToSum(rs[1..], keys, val, k);
      }
    }
  }

  /** A group exists for every null-free key that occurs, and holds the total of its numbers. */
  lemma GroupSumsMeaning(rs: seq<Record>, keys: seq<string>, val: Record -> Value, k: seq<Value>)
    ensures k in GroupSums(rs, keys, val) <==> Null !in k && Occupied(rs, keys, k)
    ensures k in GroupSums(rs, keys, val) ==> GroupSums(rs, keys, val)[k] == SumWhere(rs, keys, val, k)
    ensures k in GroupSums(rs, keys, val) ==> IsGroupTotal(rs, keys, val, k, GroupSums(rs, keys, val)[k])
  {
    GroupsAreSums(rs, keys, val, k);
    SumWhereTotal(rs, keys, val, k);
  }

  /** SQL's GROUP BY, which keeps groups with null keys. */
  function SqlGroupSums(rs: seq<Record>, keys: seq<string>, val: Record -> Value): Groups {
    if rs == [] then map[]
    else AddToGroup(SqlGroupSums(rs[1..], keys, val), GroupKey(rs[0], keys), val(rs[0]))
  }

  lemma {:induction false} SqlGroupsAreSums(rs: seq<Record>, keys: seq<string>, val: Record -> Value, k: seq<Value>)
    ensures k in SqlGroupSums(rs, keys, val) <==> Occupied(rs, keys, k)
    ensures k in SqlGroupSums(rs, keys, val) ==> SqlGroupSums(rs, keys, val)[k] == SumWhere(rs, keys, val, k)
  {
    if rs != [] {
      SqlGroupsAreSums(rs[1..], keys, val, k);
      OccupiedFirst(rs, keys, k);
      if !Occupied(rs[1..], keys, k) {
        NothingToSum(rs[1..], keys, val, k);
      }
    }
  }

  /** SQL's groups: one for every key that occurs, with the total of its numbers. */
  lemma SqlGroupSumsMeaning(rs: seq<Record>, keys: seq<string>, val: Record -> Value, k: seq<Value>)
    ensures k in SqlGroupSums(rs, keys, val) <==> Occupied(rs, keys, k)
    ensures k in SqlGroupSums(rs, keys, val) ==> IsGroupTotal(rs, keys, val, k, SqlGroupSums(rs, keys, val)[k])
  {
    SqlGroupsAreSums(rs, keys, val, k);
    SumWhereTotal(rs, keys, val, k);
  }

  ghost predicate NullFreeKeys(rs: seq<Record>, keys: seq<string>) {
    forall i :: 0 <= i < |rs| ==> Null !in GroupKey(rs[i], keys)
  }

  lemma {:induction false} NullFreeGroups(rs: seq<Record>, keys: seq<string>, val: Record -> Value)
    requires NullFreeKeys(rs, keys)
    ensures GroupSums(rs, keys, val) == SqlGroupSums(rs, keys, val)
  {
    if rs != [] {
      assert Null !in GroupKey(rs[0], keys);
      assert forall i :: 0 < i < |rs| ==> rs[i] == rs[1..][i - 1];
      NullFreeGroups(rs[1..], keys, val);
    }
  }

  /** Leaving out null keys loses nothing exactly when no row has one. */
  lemma GroupSumsIsSqlIff(rs: seq<Record>, keys: seq<string>, val: Record -> Value)
    ensures GroupSums(rs, keys, val) == SqlGroupSums(rs, keys, val) <==> NullFreeKeys(rs, keys)
  {
    if NullFreeKeys(rs, keys) {
      NullFreeGroups(rs, keys, val);
    }
    if GroupSums(rs, keys, val) == SqlGroupSums(rs, keys, val) {
      forall i | 0 <= i < |rs| ensures Null !in GroupKey(rs[i], keys) {
        InGroupIff(rs[i], keys, GroupKey(rs[i], keys));
        SqlGroupSumsMeaning(rs, keys, val, GroupKey(rs[i], keys));
        GroupSumsMeaning(rs, keys, val, GroupKey(rs[i], keys));
      }
    }
  }

  // ---------------------------------------------------- nulls and SQL equality

  /** Filtering changes nothing exactly when everything passes. */
  lemma FilteredSameIff(all: multiset<Record>, kept: multiset<Record>, good: Record -> bool)
    requires forall m: Record :: kept[m] == if good(m) then all[m] else 0
    ensures kept == all <==> forall m :: m in all ==> good(m)
  {
    if forall m :: m in all ==> good(m) {
      SameCounts(kept, all);
    }
    if kept == all {
      forall m | m in all ensures good(m) {
        assert kept[m] == all[m] > 0;
      }
    }
  }

  /** A projected record that occurs comes from some row of the table. */
  lemma OccursInTable(rs: seq<Record>, ks: set<string>, m: Record, c: string)
    requires Count(Project(rs, ks), m, ks) > 0 && c in ks
    ensures exists i :: 0 <= i < |rs| && At(rs[i], c) == At(m, c)
  {
    var part := Restrict(m, ks);
    assert part in Project(rs, ks);
    var i :| 0 <= i < |rs| && Project(rs, ks)[i] == part;
    AtRestrict(rs[i], ks, c);
    AtRestrict(m, ks, c);
  }

  /** No row of the table has a null in column `c`. */
  ghost predicate NeverNull(t: Table, c: string)
    requires t.Valid()
  {
    forall i :: 0 <= i < |t.rows| ==> At(RecordsOf(t)[i], c) != Null
  }

  // ------------------------------------------------------------ derived columns

  /** `price * (1 - discount)`; null if either is. */
  function RevenueValue(price: Value, discount: Value): Value {
    match (price, discount)
    case (Num(p), Num(d)) => Num(p * (1.0 - d))
    case _ => Null
  }

  /** Element-wise revenue of two columns. */
  function RevenueColumn(prices: seq<Value>, discounts: seq<Value>): (col: seq<Value>)
    requires |prices| == |discounts|
    ensures |col| == |prices|
  {
    seq(|prices|, i requires 0 <= i < |prices| => RevenueValue(prices[i], discounts[i]))
  }

  function RevenueOf(): Record -> Value {
    (m: Record) => RevenueValue(At(m, "l_extendedprice"), At(m, "l_discount"))
  }

  /** A record's revenue is its price less the discounted part of it, and null without either. */
  lemma RevenueIs(m: Record)
    ensures var price, discount, revenue := At(m, "l_extendedprice"), At(m, "l_discount"), RevenueOf()(m);
            if price.Num? && discount.Num? then revenue == Num(price.n - discount.n * price.n) else revenue == Null
  {
    var price, discount := At(m, "l_extendedprice"), At(m, "l_discount");
    if price.Num? && discount.Num? {
      assert price.n * (1.0 - discount.n) == price.n - discount.n * price.n;
    }
  }

  function ColumnValue(c: string): Record -> Value { (m: Record) => At(m, c) }

  /** Grouping on an appended column is grouping on the values it was filled with. */
  lemma {:induction false} GroupSumsAppended(wide: seq<Record>, rs: seq<Record>, keys: seq<string>, c: string,
                                             val: Record -> Value)
    requires |wide| == |rs| && c !in keys
    requires forall i :: 0 <= i < |rs| ==> wide[i] == rs[i][c := val(rs[i])]
    ensures GroupSums(wide, keys, ColumnValue(c)) == GroupSums(rs, keys, val)
  {
    if rs != [] {
      GroupSumsAppended(wide[1..], rs[1..], keys, c, val);
      assert GroupKey(wide[0], keys) == GroupKey(rs[0], keys);
    }
  }
}
