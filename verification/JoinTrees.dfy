/**
  Any tree of inner joins over filtered scans against the query it should
  answer: the cross product of the whole tables, filtered by the WHERE clause.
 */
module JoinTrees {
  import opened Outcomes
  import opened Sequences
  import opened NamedTables
  import opened TableOps
  import opened QueryPlans

  // ------------------------------------------------------------------ sources

  /** A base table, the columns read from it, and the filter applied while reading. */
  datatype Source = Source(table: Table, cols: seq<string>, filterColumn: string, test: Value -> bool) {
    ghost predicate Valid() {
      table.Valid() && AllNamed(table.names, cols) && Distinct(cols) && filterColumn in cols
    }

    function Columns(): set<string> { NameSet(cols) }

    function Scanned(): Table
      requires AllNamed(table.names, cols) && filterColumn in cols
    {
      Scan(table, cols, RowTest(cols, filterColumn, test))
    }
  }

  /** The test of a table that is read without a filter. */
  function Unfiltered(): Value -> bool { (v: Value) => true }

  ghost predicate ValidSources(ss: seq<Source>) {
    && (forall i :: 0 <= i < |ss| ==> ss[i].Valid())
    && PairwiseDisjoint(FullSchemas(ss))
  }

  function FullSchemas(ss: seq<Source>): (r: seq<set<string>>)
    ensures |r| == |ss|
  {
    seq(|ss|, i requires 0 <= i < |ss| => ss[i].table.Schema())
  }

  function KeptSets(ss: seq<Source>): (r: seq<set<string>>)
    ensures |r| == |ss|
  {
    seq(|ss|, i requires 0 <= i < |ss| => ss[i].Columns())
  }

  /** All columns read from any table. */
  function Kept(ss: seq<Source>): set<string> { UnionAll(KeptSets(ss)) }

  /** The FROM list. */
  function FromTables(ss: seq<Source>): (r: seq<seq<Record>>)
    requires forall i :: 0 <= i < |ss| ==> ss[i].table.Valid()
    ensures |r| == |ss|
  {
    seq(|ss|, i requires 0 <= i < |ss| && ss[i].table.Valid() => RecordsOf(ss[i].table))
  }

  lemma SourcesAreDatabase(ss: seq<Source>)
    requires ValidSources(ss)
    ensures Database(FromTables(ss), FullSchemas(ss), KeptSets(ss))
  {
    PairwiseFrom(FromTables(ss), FullSchemas(ss));
    forall i | 0 <= i < |ss| ensures KeptSets(ss)[i] <= FullSchemas(ss)[i] {
      ColumnsWithin(ss[i]);
    }
  }

  lemma ColumnsWithin(s: Source)
    requires s.Valid()
    ensures s.Columns() <= s.table.Schema()
  {
  }

  // -------------------------------------------------------------------- trees

  datatype JoinTree = Leaf(i: nat) | Node(left: JoinTree, right: JoinTree, leftOn: seq<string>, rightOn: seq<string>)

  function Leaves(t: JoinTree): seq<nat> {
    match t
    case Leaf(i) => [i]
    case Node(l, r, _, _) => Leaves(l) + Leaves(r)
  }

  /** Every leaf is a source and no source is joined twice. */
  ghost predicate WellFormed(t: JoinTree, n: nat) {
    match t
    case Leaf(i) => i < n
    case Node(l, r, _, _) => WellFormed(l, n) && WellFormed(r, n) && Separate(Leaves(l), Leaves(r))
  }

  ghost predicate Separate(a: seq<nat>, b: seq<nat>) {
    forall i, j :: 0 <= i < |a| && 0 <= j < |b| ==> a[i] != b[j]
  }

  ghost function TreeColumns(t: JoinTree, ss: seq<Source>): set<string>
    requires WellFormed(t, |ss|)
  {
    match t
    case Leaf(i) => ss[i].Columns()
    case Node(l, r, _, _) => TreeColumns(l, ss) + TreeColumns(r, ss)
  }

  /** `out` is a table that running the joins of `t` may give. */
  ghost predicate Yields(t: JoinTree, ss: seq<Source>, nulls: NullEquality, out: Table)
    requires ValidSources(ss) && WellFormed(t, |ss|)
  {
    match t
    case Leaf(i) => out == ss[i].Scanned()
    case Node(l, r, leftOn, rightOn) =>
      exists x: Table, y: Table :: Yields(l, ss, nulls, x) && Yields(r, ss, nulls, y)
          && IsInnerJoin(x, y, leftOn, rightOn, nulls, out)
  }

  lemma YieldsNode(t: JoinTree, ss: seq<Source>, nulls: NullEquality, x: Table, y: Table, out: Table)
    requires ValidSources(ss) && t.Node? && WellFormed(t, |ss|)
    requires Yields(t.left, ss, nulls, x) && Yields(t.right, ss, nulls, y)
        && IsInnerJoin(x, y, t.leftOn, t.rightOn, nulls, out)
    ensures Yields(t, ss, nulls, out)
  {
  }

  predicate Agree(m: Record, a: seq<string>, b: seq<string>, nulls: NullEquality) {
    |a| == |b| && forall k :: 0 <= k < |a| ==> SameKey(nulls, At(m, a[k]), At(m, b[k]))
  }

  /** All join conditions of the tree. */
  predicate Holds(t: JoinTree, m: Record, nulls: NullEquality) {
    match t
    case Leaf(_) => true
    case Node(l, r, leftOn, rightOn) => Holds(l, m, nulls) && Holds(r, m, nulls) && Agree(m, leftOn, rightOn, nulls)
  }

  // ------------------------------------------------------------------ counting

  function ProductOf(s: seq<nat>): nat { if s == [] then 1 else s[0] * ProductOf(s[1..]) }

  lemma TimesAssociative(x: nat, y: nat, z: nat)
    ensures (x * y) * z == x * (y * z)
  {
  }

  lemma {:induction false} ProductConcat(a: seq<nat>, b: seq<nat>)
    ensures ProductOf(a + b) == ProductOf(a) * ProductOf(b)
  {
    if a == [] {
      assert a + b == b;
    } else {
      ProductConcat(a[1..], b);
      assert (a + b)[1..] == a[1..] + b;
      TimesAssociative(a[0], ProductOf(a[1..]), ProductOf(b));
    }
  }

  lemma ProductRemove(s: seq<nat>, k: nat)
    requires k < |s|
    ensures ProductOf(s) == s[k] * ProductOf(s[..k] + s[k + 1..])
  {
    var front, back := s[..k], s[k + 1..];
    assert s == front + s[k..] && s[k..][1..] == back;
    ProductConcat(front, s[k..]);
    ProductConcat(front, back);
    assert ProductOf(s[k..]) == s[k] * ProductOf(back);
    ProductOfThree(ProductOf(front), s[k], ProductOf(back));
  }

  lemma ProductOfThree(x: nat, y: nat, z: nat)
    ensures x * (y * z) == y * (x * z)
  {
    TimesAssociative(x, y, z);
    TimesAssociative(y, x, z);
  }

  lemma {:induction false} ProductPermuted(a: seq<nat>, b: seq<nat>)
    requires multiset(a) == multiset(b)
    ensures ProductOf(a) == ProductOf(b)
  {
    if a == [] {
      SameLength(a, b);
    } else {
      var k := MatchHead(a, b);
      ProductPermuted(a[1..], b[..k] + b[k + 1..]);
      ProductRemove(b, k);
    }
  }

  /** How often the part of `m` from source `s` occurs among its projected rows. */
  ghost function SourceCount(s: Source, m: Record): nat
    requires s.table.Valid()
  {
    Count(Project(RecordsOf(s.table), s.Columns()), m, s.Columns())
  }

  predicate Passes(s: Source, m: Record) { s.test(At(m, s.filterColumn)) }

  /** Occurrences in the filtered scan of source `i`. */
  ghost function LeafOccurs(ss: seq<Source>, m: Record): nat -> nat {
    (i: nat) => if i < |ss| && ss[i].table.Valid() && Passes(ss[i], m) then SourceCount(ss[i], m) else 0
  }

  /** A column of the tree is a column of one of its leaves, and conversely. */
  lemma {:induction false} TreeColumnsFromLeaves(t: JoinTree, ss: seq<Source>, c: string)
    requires WellFormed(t, |ss|)
    ensures c in TreeColumns(t, ss) <==> exists i :: i in Leaves(t) && i < |ss| && c in ss[i].Columns()
  {
    match t
    case Leaf(i) =>
      assert i in Leaves(t);
    case Node(l, r, _, _) =>
      TreeColumnsFromLeaves(l, ss, c);
      TreeColumnsFromLeaves(r, ss, c);
      assert forall i :: i in Leaves(t) <==> i in Leaves(l) || i in Leaves(r);
  }

  lemma SourcesApart(ss: seq<Source>, i: nat, j: nat)
    requires ValidSources(ss) && i < |ss| && j < |ss| && i != j
    ensures ss[i].Columns() !! ss[j].Columns()
  {
    ColumnsWithin(ss[i]);
    ColumnsWithin(ss[j]);
    var schemas := FullSchemas(ss);
    assert if i < j then schemas[i] !! schemas[j] else schemas[j] !! schemas[i];
  }

  lemma {:induction false} TreeApart(t: JoinTree, ss: seq<Source>, ks: set<string>)
    requires WellFormed(t, |ss|)
    requires forall k :: 0 <= k < |Leaves(t)| ==> Leaves(t)[k] < |ss| && ss[Leaves(t)[k]].Columns() !! ks
    ensures TreeColumns(t, ss) !! ks
  {
    match t
    case Leaf(i) =>
      assert Leaves(t)[0] == i;
    case Node(l, r, _, _) =>
      forall k | 0 <= k < |Leaves(l)| ensures Leaves(l)[k] < |ss| && ss[Leaves(l)[k]].Columns() !! ks {
        assert Leaves(t)[k] == Leaves(l)[k];
      }
      forall k | 0 <= k < |Leaves(r)| ensures Leaves(r)[k] < |ss| && ss[Leaves(r)[k]].Columns() !! ks {
        assert Leaves(t)[|Leaves(l)| + k] == Leaves(r)[k];
      }
      TreeApart(l, ss, ks);
      TreeApart(r, ss, ks);
  }

  lemma {:induction false} LeavesInRange(t: JoinTree, n: nat)
    requires WellFormed(t, n)
    ensures forall k :: 0 <= k < |Leaves(t)| ==> Leaves(t)[k] < n
  {
    if t.Node? {
      LeavesInRange(t.left, n);
      LeavesInRange(t.right, n);
    }
  }

  lemma SubtreesApart(t: JoinTree, ss: seq<Source>)
    requires ValidSources(ss) && t.Node? && WellFormed(t, |ss|)
    ensures TreeColumns(t.left, ss) !! TreeColumns(t.right, ss)
  {
    var l, r := Leaves(t.left), Leaves(t.right);
    LeavesInRange(t.left, |ss|);
    LeavesInRange(t.right, |ss|);
    forall j | 0 <= j < |r| ensures ss[r[j]].Columns() !! TreeColumns(t.left, ss) {
      forall i | 0 <= i < |l| ensures ss[l[i]].Columns() !! ss[r[j]].Columns() {
        SourcesApart(ss, l[i], r[j]);
      }
      TreeApart(t.left, ss, ss[r[j]].Columns());
    }
    TreeApart(t.right, ss, TreeColumns(t.left, ss));
  }

  lemma AgreeIsOnHolds(m: Record, a: seq<string>, b: seq<string>, nulls: NullEquality)
    requires |a| == |b| && forall k :: 0 <= k < |a| ==> a[k] in m && b[k] in m
    ensures OnHolds(m, Keyed(a, b, nulls)) <==> Agree(m, a, b, nulls)
  {
    var on := Keyed(a, b, nulls);
    forall k | 0 <= k < |a|
      ensures m[on.pairs[k].0] == At(m, a[k]) && m[on.pairs[k].1] == At(m, b[k])
    {
      assert on.pairs[k] == (a[k], b[k]);
    }
  }

  /** The columns a join tree's result has. */
  lemma {:induction false} TreeSchema(t: JoinTree, ss: seq<Source>, nulls: NullEquality, out: Table)
    requires ValidSources(ss) && WellFormed(t, |ss|) && Yields(t, ss, nulls, out)
    ensures out.Valid() && out.Schema() == TreeColumns(t, ss)
  {
    match t
    case Leaf(i) =>
      var s := ss[i];
      ScanValid(s.table, s.cols, RowTest(s.cols, s.filterColumn, s.test));
    case Node(l, r, leftOn, rightOn) =>
      var x: Table, y: Table :| Yields(l, ss, nulls, x) && Yields(r, ss, nulls, y)
          && IsInnerJoin(x, y, leftOn, rightOn, nulls, out);
      TreeSchema(l, ss, nulls, x);
      TreeSchema(r, ss, nulls, y);
      SubtreesApart(t, ss);
      InnerJoinValid(x, y, leftOn, rightOn, nulls, out);
  }

  /** One join of a plan, for a record that spans the plan. */
  lemma NodeOccurs(x: Table, y: Table, leftOn: seq<string>, rightOn: seq<string>, nulls: NullEquality, out: Table,
                   m: Record)
    requires x.Valid() && y.Valid() && x.Schema() !! y.Schema() && x.Schema() + y.Schema() <= m.Keys
    requires IsInnerJoin(x, y, leftOn, rightOn, nulls, out)
    ensures out.Valid()
    ensures Occurs(out, m) == if Agree(m, leftOn, rightOn, nulls) then Occurs(x, m) * Occurs(y, m) else 0
  {
    JoinOccurs(x, y, leftOn, rightOn, nulls, out, m);
    KeysInSchemas(x, y, leftOn, rightOn, nulls);
    forall k | 0 <= k < |leftOn| ensures leftOn[k] in m && rightOn[k] in m {
      assert Keyed(leftOn, rightOn, nulls).pairs[k].0 in x.Schema()
          && Keyed(leftOn, rightOn, nulls).pairs[k].1 in y.Schema();
    }
    AgreeIsOnHolds(m, leftOn, rightOn, nulls);
  }

  lemma LeafOccursIsScan(ss: seq<Source>, i: nat, m: Record)
    requires ValidSources(ss) && i < |ss|
    ensures ss[i].Scanned().Valid() && LeafOccurs(ss, m)(i) == Occurs(ss[i].Scanned(), m)
  {
    var s := ss[i];
    TestedScanOccurs(s.table, s.cols, s.filterColumn, s.test, m);
  }

  /** The product over the leaves of `t` if its conditions hold of `m`, else 0. */
  ghost function TreeCount(t: JoinTree, ss: seq<Source>, nulls: NullEquality, m: Record): nat {
    if Holds(t, m, nulls) then ProductOf(Image(Leaves(t), LeafOccurs(ss, m))) else 0
  }

  lemma TreeCountNode(t: JoinTree, ss: seq<Source>, nulls: NullEquality, m: Record)
    requires t.Node?
    ensures TreeCount(t, ss, nulls, m)
         == if Agree(m, t.leftOn, t.rightOn, nulls)
             then TreeCount(t.left, ss, nulls, m) * TreeCount(t.right, ss, nulls, m) else 0
  {
    LeavesProduct(t, LeafOccurs(ss, m));
    TimesWhen(TreeCount(t.left, ss, nulls, m), TreeCount(t.right, ss, nulls, m),
              ProductOf(Image(Leaves(t.left), LeafOccurs(ss, m))), ProductOf(Image(Leaves(t.right), LeafOccurs(ss, m))),
              Holds(t.left, m, nulls), Holds(t.right, m, nulls));
  }

  lemma TreeCountLeaf(i: nat, ss: seq<Source>, nulls: NullEquality, m: Record)
    ensures TreeCount(Leaf(i), ss, nulls, m) == LeafOccurs(ss, m)(i)
  {
    var n := LeafOccurs(ss, m)(i);
    assert Image(Leaves(Leaf(i)), LeafOccurs(ss, m)) == [n];
    assert ProductOf([n]) == n * ProductOf([]);
  }

  /** Occurrences in a join tree's result: the product over its leaves, if the conditions hold. */
  lemma {:induction false} TreeOccurs(t: JoinTree, ss: seq<Source>, nulls: NullEquality, out: Table, m: Record)
    requires ValidSources(ss) && WellFormed(t, |ss|) && Yields(t, ss, nulls, out) && TreeColumns(t, ss) <= m.Keys
    ensures out.Valid()
    ensures Occurs(out, m) == TreeCount(t, ss, nulls, m)
  {
    match t
    case Leaf(i) =>
      LeafOccursIsScan(ss, i, m);
      TreeCountLeaf(i, ss, nulls, m);
    case Node(l, r, leftOn, rightOn) =>
      var x: Table, y: Table :| Yields(l, ss, nulls, x) && Yields(r, ss, nulls, y)
          && IsInnerJoin(x, y, leftOn, rightOn, nulls, out);
      TreeOccurs(l, ss, nulls, x, m);
      TreeOccurs(r, ss, nulls, y, m);
      TreeSchema(l, ss, nulls, x);
      TreeSchema(r, ss, nulls, y);
      SubtreesApart(t, ss);
      NodeOccurs(x, y, leftOn, rightOn, nulls, out, m);
      TreeCountNode(t, ss, nulls, m);
  }

  lemma TimesWhen(x: nat, y: nat, p: nat, q: nat, left: bool, right: bool)
    requires x == (if left then p else 0) && y == if right then q else 0
    ensures x * y == if left && right then p * q else 0
  {
  }

  lemma LeavesProduct(t: JoinTree, f: nat -> nat)
    requires t.Node?
    ensures ProductOf(Image(Leaves(t), f)) == ProductOf(Image(Leaves(t.left), f)) * ProductOf(Image(Leaves(t.right), f))
  {
    ImageConcat(Leaves(t.left), Leaves(t.right), f);
    ProductConcat(Image(Leaves(t.left), f), Image(Leaves(t.right), f));
  }

  // --------------------------------------------------------- the query's side

  function SourceNumbers(n: nat): seq<nat> { seq(n, i requires 0 <= i < n => i) }

  ghost function SourceCounts(ss: seq<Source>, m: Record): (r: seq<nat>)
    requires forall i :: 0 <= i < |ss| ==> ss[i].table.Valid()
    ensures |r| == |ss|
  {
    seq(|ss|, i requires 0 <= i < |ss| => SourceCount(ss[i], m))
  }

  predicate AllPass(ss: seq<Source>, m: Record) { forall i :: 0 <= i < |ss| ==> Passes(ss[i], m) }

  /** Filtering while scanning is filtering the product. */
  lemma {:induction false} FilteredProduct(ss: seq<Source>, m: Record, filtered: seq<nat>)
    requires forall i :: 0 <= i < |ss| ==> ss[i].table.Valid()
    requires |filtered| == |ss|
    requires forall i :: 0 <= i < |ss| ==> filtered[i] == if Passes(ss[i], m) then SourceCount(ss[i], m) else 0
    ensures ProductOf(filtered) == if AllPass(ss, m) then ProductOf(SourceCounts(ss, m)) else 0
  {
    if ss != [] {
      FilteredProduct(ss[1..], m, filtered[1..]);
      assert SourceCounts(ss, m)[1..] == SourceCounts(ss[1..], m);
      assert AllPass(ss, m) <==> Passes(ss[0], m) && AllPass(ss[1..], m) by {
        assert forall i :: 0 < i < |ss| ==> ss[i] == ss[1..][i - 1];
      }
    }
  }

  lemma {:induction false} OccurrencesAreProduct(tables: seq<seq<Record>>, schemas: seq<set<string>>, m: Record,
                                                 counts: seq<nat>)
    requires |tables| == |schemas| == |counts|
    requires forall i :: 0 <= i < |counts| ==> counts[i] == multiset(tables[i])[Restrict(m, schemas[i])]
    ensures Occurrences(tables, schemas, m) == ProductOf(counts)
  {
    if tables != [] {
      OccurrencesAreProduct(tables[1..], schemas[1..], m, counts[1..]);
    }
  }

  lemma QueryOccurrences(ss: seq<Source>, m: Record)
    requires ValidSources(ss)
    ensures Occurrences(ProjectEach(FromTables(ss), Kept(ss)), KeptSets(ss), m) == ProductOf(SourceCounts(ss, m))
  {
    SourcesAreDatabase(ss);
    UnionSplits(FromTables(ss), FullSchemas(ss), KeptSets(ss));
    forall i | 0 <= i < |ss|
      ensures SourceCounts(ss, m)[i] == multiset(ProjectEach(FromTables(ss), Kept(ss))[i])[Restrict(m, KeptSets(ss)[i])]
    {
      assert Kept(ss) * FullSchemas(ss)[i] == KeptSets(ss)[i];
      ProjectionOfTable(RecordsOf(ss[i].table), ss[i].table.Schema(), Kept(ss), ss[i].Columns());
    }
    OccurrencesAreProduct(ProjectEach(FromTables(ss), Kept(ss)), KeptSets(ss), m, SourceCounts(ss, m));
  }

  // ------------------------------------------------------------ WHERE clauses

  /** A conjunction of column equalities and tests of single columns. */
  datatype Condition = Condition(equals: seq<(string, string)>, tests: seq<(string, Value -> bool)>) {
    predicate EqualsHold(m: Record, eq: (Value, Value) -> bool) {
      forall k :: 0 <= k < |equals| ==> eq(At(m, equals[k].0), At(m, equals[k].1))
    }

    predicate TestsHold(m: Record) {
      forall k :: 0 <= k < |tests| ==> tests[k].1(At(m, tests[k].0))
    }

    function Where(eq: (Value, Value) -> bool): Record -> bool {
      (m: Record) => EqualsHold(m, eq) && TestsHold(m)
    }

    /** Every column mentioned is among `ks`. */
    ghost predicate Over(ks: set<string>) {
      && (forall k :: 0 <= k < |equals| ==> equals[k].0 in ks && equals[k].1 in ks)
      && (forall k :: 0 <= k < |tests| ==> tests[k].0 in ks)
    }

    predicate KeysNonNull(m: Record) {
      forall k :: 0 <= k < |equals| ==> At(m, equals[k].0) != Null && At(m, equals[k].1) != Null
    }
  }

  lemma EqualsRestrict(c: Condition, eq: (Value, Value) -> bool, ks: set<string>, m: Record)
    requires c.Over(ks)
    ensures c.EqualsHold(Restrict(m, ks), eq) <==> c.EqualsHold(m, eq)
  {
    forall k | 0 <= k < |c.equals|
      ensures At(Restrict(m, ks), c.equals[k].0) == At(m, c.equals[k].0)
      ensures At(Restrict(m, ks), c.equals[k].1) == At(m, c.equals[k].1)
    {
      AtRestrict(m, ks, c.equals[k].0);
      AtRestrict(m, ks, c.equals[k].1);
    }
  }

  lemma TestsRestrict(c: Condition, ks: set<string>, m: Record)
    requires c.Over(ks)
    ensures c.TestsHold(Restrict(m, ks)) <==> c.TestsHold(m)
  {
    forall k | 0 <= k < |c.tests| ensures At(Restrict(m, ks), c.tests[k].0) == At(m, c.tests[k].0) {
      AtRestrict(m, ks, c.tests[k].0);
    }
  }

  lemma WhereReadsOnly(c: Condition, eq: (Value, Value) -> bool, ks: set<string>)
    requires c.Over(ks)
    ensures ReadsOnly(c.Where(eq), ks)
  {
    forall m: Record ensures c.Where(eq)(m) == c.Where(eq)(Restrict(m, ks)) {
      EqualsRestrict(c, eq, ks, m);
      TestsRestrict(c, ks, m);
    }
  }

  /** The answer to `select <columns read> from <tables> where c`. */
  function QueryRows(ss: seq<Source>, c: Condition, eq: (Value, Value) -> bool): seq<Record>
    requires forall i :: 0 <= i < |ss| ==> ss[i].table.Valid()
  {
    Project(Select(FromTables(ss), c.Where(eq)), Kept(ss))
  }

  lemma QueryCount(ss: seq<Source>, c: Condition, eq: (Value, Value) -> bool, m: Record)
    requires ValidSources(ss) && c.Over(Kept(ss))
    ensures multiset(QueryRows(ss, c, eq))[m]
         == if m.Keys == Kept(ss) && c.EqualsHold(m, eq) && c.TestsHold(m) then ProductOf(SourceCounts(ss, m)) else 0
  {
    SourcesAreDatabase(ss);
    WhereReadsOnly(c, eq, Kept(ss));
    SelectCount(FromTables(ss), FullSchemas(ss), KeptSets(ss), c.Where(eq), m);
    QueryOccurrences(ss, m);
  }

  // -------------------------------------------------------------- the theorem

  /** The tree joins every source once, and its conditions and scans add up to the WHERE clause. */
  ghost predicate Implements(t: JoinTree, ss: seq<Source>, c: Condition) {
    && WellFormed(t, |ss|)
    && multiset(Leaves(t)) == multiset(SourceNumbers(|ss|))
    && c.Over(Kept(ss))
    && (forall m: Record, nulls :: Holds(t, m, nulls) <==> c.EqualsHold(m, Equality(nulls)))
    && (forall m: Record :: AllPass(ss, m) <==> c.TestsHold(m))
  }

  lemma {:induction false} UnionHas(sets: seq<set<string>>, c: string)
    ensures c in UnionAll(sets) <==> exists i :: 0 <= i < |sets| && c in sets[i]
  {
    if sets != [] {
      UnionHas(sets[1..], c);
      if c in UnionAll(sets[1..]) {
        var i :| 0 <= i < |sets[1..]| && c in sets[1..][i];
        assert c in sets[i + 1];
      }
      if exists i :: 0 < i < |sets| && c in sets[i] {
        var i :| 0 < i < |sets| && c in sets[i];
        assert c in sets[1..][i - 1];
      }
    }
  }

  lemma TreeReadsAll(t: JoinTree, ss: seq<Source>)
    requires WellFormed(t, |ss|) && multiset(Leaves(t)) == multiset(SourceNumbers(|ss|))
    ensures TreeColumns(t, ss) == Kept(ss)
  {
    forall c ensures c in TreeColumns(t, ss) <==> c in Kept(ss) {
      TreeColumnsFromLeaves(t, ss, c);
      UnionHas(KeptSets(ss), c);
      if c in Kept(ss) {
        var i :| 0 <= i < |ss| && c in KeptSets(ss)[i];
        assert SourceNumbers(|ss|)[i] == i;
        assert i in multiset(SourceNumbers(|ss|));
        assert i in Leaves(t);
      }
      if c in TreeColumns(t, ss) {
        var i :| i in Leaves(t) && i < |ss| && c in ss[i].Columns();
        assert c in KeptSets(ss)[i];
      }
    }
  }

  /** The leaves' occurrences multiply to the sources', where the filters pass. */
  lemma LeavesMultiply(t: JoinTree, ss: seq<Source>, m: Record)
    requires ValidSources(ss) && multiset(Leaves(t)) == multiset(SourceNumbers(|ss|))
    ensures ProductOf(Image(Leaves(t), LeafOccurs(ss, m)))
         == if AllPass(ss, m) then ProductOf(SourceCounts(ss, m)) else 0
  {
    var occurs := LeafOccurs(ss, m);
    ImagePermuted(Leaves(t), SourceNumbers(|ss|), occurs);
    ProductPermuted(Image(Leaves(t), occurs), Image(SourceNumbers(|ss|), occurs));
    FilteredProduct(ss, m, Image(SourceNumbers(|ss|), occurs));
  }

  lemma PlanCount(t: JoinTree, ss: seq<Source>, c: Condition, nulls: NullEquality, out: Table, m: Record)
    requires ValidSources(ss) && Implements(t, ss, c) && Yields(t, ss, nulls, out)
    ensures out.Valid() && out.Schema() == Kept(ss)
    ensures multiset(RecordsOf(out))[m]
         == if m.Keys == Kept(ss) && c.EqualsHold(m, Equality(nulls)) && c.TestsHold(m)
            then ProductOf(SourceCounts(ss, m)) else 0
  {
    TreeReadsAll(t, ss);
    TreeSchema(t, ss, nulls, out);
    CountByOccurs(out, m);
    if m.Keys == Kept(ss) {
      TreeOccurs(t, ss, nulls, out, m);
      LeavesMultiply(t, ss, m);
      assert Holds(t, m, nulls) <==> c.EqualsHold(m, Equality(nulls));
      assert AllPass(ss, m) <==> c.TestsHold(m);
    }
  }

  /**
    Whatever the shape of the join tree, the order of the joins' output rows and
    the filters pushed into scans: the rows are those of the query, with the joins'
    notion of equal nulls. With nulls unequal these are SQL's rows.
   */
  lemma PlanIsQuery(t: JoinTree, ss: seq<Source>, c: Condition, nulls: NullEquality, out: Table)
    requires ValidSources(ss) && Implements(t, ss, c) && Yields(t, ss, nulls, out)
    ensures out.Valid() && out.Schema() == Kept(ss)
    ensures multiset(RecordsOf(out)) == multiset(QueryRows(ss, c, Equality(nulls)))
  {
    PlanCount(t, ss, c, nulls, out, map[]);
    forall m: Record ensures multiset(RecordsOf(out))[m] == multiset(QueryRows(ss, c, Equality(nulls)))[m] {
      PlanCount(t, ss, c, nulls, out, m);
      QueryCount(ss, c, Equality(nulls), m);
    }
    SameCounts(multiset(RecordsOf(out)), multiset(QueryRows(ss, c, Equality(nulls))));
  }

  // ------------------------------------------------------ nulls in join keys

  function NonNullKeys(c: Condition): Record -> bool { (m: Record) => c.KeysNonNull(m) }

  lemma SqlEqualsHold(c: Condition, m: Record)
    ensures c.EqualsHold(m, SqlEqual()) <==> c.EqualsHold(m, NullSafeEqual()) && c.KeysNonNull(m)
  {
    if c.EqualsHold(m, SqlEqual()) {
      forall k | 0 <= k < |c.equals|
        ensures NullSafeEqual()(At(m, c.equals[k].0), At(m, c.equals[k].1))
        ensures At(m, c.equals[k].0) != Null && At(m, c.equals[k].1) != Null
      {
        assert SqlEqual()(At(m, c.equals[k].0), At(m, c.equals[k].1));
      }
    }
    if c.EqualsHold(m, NullSafeEqual()) && c.KeysNonNull(m) {
      forall k | 0 <= k < |c.equals| ensures SqlEqual()(At(m, c.equals[k].0), At(m, c.equals[k].1)) {
        assert NullSafeEqual()(At(m, c.equals[k].0), At(m, c.equals[k].1));
      }
    }
  }

  /** SQL's answer and the null-safe one agree exactly when no row of the latter has a null in a compared column. */
  lemma QueriesAgreeIff(ss: seq<Source>, c: Condition)
    requires ValidSources(ss) && c.Over(Kept(ss))
    ensures multiset(QueryRows(ss, c, NullSafeEqual())) == multiset(QueryRows(ss, c, SqlEqual()))
       <==> forall m :: m in multiset(QueryRows(ss, c, NullSafeEqual())) ==> NonNullKeys(c)(m)
  {
    var rows, sql := multiset(QueryRows(ss, c, NullSafeEqual())), multiset(QueryRows(ss, c, SqlEqual()));
    forall m: Record ensures sql[m] == if NonNullKeys(c)(m) then rows[m] else 0 {
      QueryCount(ss, c, NullSafeEqual(), m);
      QueryCount(ss, c, SqlEqual(), m);
      SqlEqualsHold(c, m);
    }
    FilteredSameIff(rows, sql, NonNullKeys(c));
  }

  /** Whatever rows of the base tables satisfy the query null-safely have no null in a compared column. */
  ghost predicate MatchesKeyed(ss: seq<Source>, c: Condition)
    requires ValidSources(ss)
  {
    forall m :: m in CrossAll(FromTables(ss)) && c.Where(NullSafeEqual())(m) ==> c.KeysNonNull(m)
  }

  lemma KeysRestrict(c: Condition, ks: set<string>, m: Record)
    requires c.Over(ks)
    ensures c.KeysNonNull(Restrict(m, ks)) <==> c.KeysNonNull(m)
  {
    forall k | 0 <= k < |c.equals|
      ensures At(Restrict(m, ks), c.equals[k].0) == At(m, c.equals[k].0)
      ensures At(Restrict(m, ks), c.equals[k].1) == At(m, c.equals[k].1)
    {
      AtRestrict(m, ks, c.equals[k].0);
      AtRestrict(m, ks, c.equals[k].1);
    }
  }

  lemma KeepMember(rs: seq<Record>, p: Record -> bool, m: Record)
    ensures m in Keep(rs, p) <==> m in rs && p(m)
  {
    KeepCount(rs, p, m);
    assert m in Keep(rs, p) <==> m in multiset(Keep(rs, p));
    assert m in rs <==> m in multiset(rs);
  }

  lemma MatchesAreRows(ss: seq<Source>, c: Condition)
    requires ValidSources(ss) && c.Over(Kept(ss))
    ensures MatchesKeyed(ss, c) <==> forall m :: m in multiset(QueryRows(ss, c, NullSafeEqual())) ==> NonNullKeys(c)(m)
  {
    var all, p := CrossAll(FromTables(ss)), c.Where(NullSafeEqual());
    var matched := Keep(all, p);
    var rows := QueryRows(ss, c, NullSafeEqual());
    forall i | 0 <= i < |rows| ensures c.KeysNonNull(rows[i]) <==> c.KeysNonNull(matched[i]) {
      KeysRestrict(c, Kept(ss), matched[i]);
    }
    if MatchesKeyed(ss, c) {
      forall m | m in multiset(rows) ensures c.KeysNonNull(m) {
        var i :| 0 <= i < |rows| && rows[i] == m;
        KeepMember(all, p, matched[i]);
      }
    }
    if forall m :: m in multiset(rows) ==> NonNullKeys(c)(m) {
      forall m | m in all && p(m) ensures c.KeysNonNull(m) {
        KeepMember(all, p, m);
        var i :| 0 <= i < |matched| && matched[i] == m;
        assert rows[i] in multiset(rows);
        assert NonNullKeys(c)(rows[i]);
      }
    }
  }

  /**
    With nulls equal, as the plans join: plan and SQL query agree exactly when no
    combination of base rows that matches null-safely has a null in a compared column.
   */
  lemma PlanIsSqlIff(t: JoinTree, ss: seq<Source>, c: Condition, out: Table)
    requires ValidSources(ss) && Implements(t, ss, c) && Yields(t, ss, EQUAL, out)
    ensures out.Valid()
    ensures multiset(RecordsOf(out)) == multiset(QueryRows(ss, c, SqlEqual())) <==> MatchesKeyed(ss, c)
  {
    PlanIsQuery(t, ss, c, EQUAL, out);
    QueriesAgreeIff(ss, c);
    MatchesAreRows(ss, c);
  }

  /**
    `primary` are columns of base tables without nulls, and a row that satisfies
    the equalities null-safely with none of them null has no null key at all.
   */
  ghost predicate KeysGuarded(ss: seq<Source>, c: Condition, primary: seq<string>)
    requires ValidSources(ss)
  {
    && (forall k :: 0 <= k < |primary| ==> Guarded(ss, primary[k]))
    && (forall m: Record :: c.EqualsHold(m, NullSafeEqual()) && NoneNull(m, primary) ==> c.KeysNonNull(m))
  }

  predicate NoneNull(m: Record, cols: seq<string>) { forall k :: 0 <= k < |cols| ==> At(m, cols[k]) != Null }

  ghost predicate Guarded(ss: seq<Source>, col: string)
    requires ValidSources(ss)
  {
    exists i :: 0 <= i < |ss| && col in ss[i].Columns() && NeverNull(ss[i].table, col)
  }

  lemma GuardedNonNull(ss: seq<Source>, col: string, m: Record)
    requires ValidSources(ss) && Guarded(ss, col)
    requires ProductOf(SourceCounts(ss, m)) > 0
    ensures At(m, col) != Null
  {
    var i :| 0 <= i < |ss| && col in ss[i].Columns() && NeverNull(ss[i].table, col);
    PositiveFactor(SourceCounts(ss, m), i);
    OccursInTable(RecordsOf(ss[i].table), ss[i].Columns(), m, col);
  }

  lemma {:induction false} PositiveFactor(s: seq<nat>, i: nat)
    requires ProductOf(s) > 0 && i < |s|
    ensures s[i] > 0
  {
    if i > 0 {
      assert ProductOf(s[1..]) > 0;
      PositiveFactor(s[1..], i - 1);
    }
  }

  /** When the primary keys are never null, SQL's answer is the null-safe one. */
  lemma GuardedQueriesAgree(ss: seq<Source>, c: Condition, primary: seq<string>)
    requires ValidSources(ss) && c.Over(Kept(ss)) && KeysGuarded(ss, c, primary)
    ensures multiset(QueryRows(ss, c, NullSafeEqual())) == multiset(QueryRows(ss, c, SqlEqual()))
  {
    QueriesAgreeIff(ss, c);
    forall m | m in multiset(QueryRows(ss, c, NullSafeEqual())) ensures NonNullKeys(c)(m) {
      QueryCount(ss, c, NullSafeEqual(), m);
      forall k | 0 <= k < |primary| ensures At(m, primary[k]) != Null {
        GuardedNonNull(ss, primary[k], m);
      }
      assert NoneNull(m, primary);
    }
  }

  /**
    Under either null equality, when the primary keys are never null the plan joins
    exactly the rows of the SQL query.
   */
  lemma PlanIsSql(t: JoinTree, ss: seq<Source>, c: Condition, nulls: NullEquality, out: Table, primary: seq<string>)
    requires ValidSources(ss) && Implements(t, ss, c) && Yields(t, ss, nulls, out) && KeysGuarded(ss, c, primary)
    ensures out.Valid()
    ensures multiset(RecordsOf(out)) == multiset(QueryRows(ss, c, SqlEqual()))
  {
    PlanIsQuery(t, ss, c, nulls, out);
    GuardedQueriesAgree(ss, c, primary);
  }

  // ------------------------------------------------- helpers for given plans

  lemma AgreeOne(m: Record, a: string, b: string, nulls: NullEquality)
    ensures Agree(m, [a], [b], nulls) <==> SameKey(nulls, At(m, a), At(m, b))
  {
    if Agree(m, [a], [b], nulls) {
      assert SameKey(nulls, At(m, [a][0]), At(m, [b][0]));
    }
  }

  lemma AgreeTwo(m: Record, a: string, b: string, c: string, d: string, nulls: NullEquality)
    ensures Agree(m, [a, c], [b, d], nulls)
        <==> SameKey(nulls, At(m, a), At(m, b)) && SameKey(nulls, At(m, c), At(m, d))
  {
    if Agree(m, [a, c], [b, d], nulls) {
      assert SameKey(nulls, At(m, [a, c][0]), At(m, [b, d][0])) && SameKey(nulls, At(m, [a, c][1]), At(m, [b, d][1]));
    }
  }

  lemma EqualsOfSix(c: Condition, m: Record, eq: (Value, Value) -> bool)
    requires |c.equals| == 6
    ensures c.EqualsHold(m, eq)
       <==> && eq(At(m, c.equals[0].0), At(m, c.equals[0].1)) && eq(At(m, c.equals[1].0), At(m, c.equals[1].1))
            && eq(At(m, c.equals[2].0), At(m, c.equals[2].1)) && eq(At(m, c.equals[3].0), At(m, c.equals[3].1))
            && eq(At(m, c.equals[4].0), At(m, c.equals[4].1)) && eq(At(m, c.equals[5].0), At(m, c.equals[5].1))
  {
  }

  lemma TestsOfTwo(c: Condition, m: Record)
    requires |c.tests| == 2
    ensures c.TestsHold(m) <==> c.tests[0].1(At(m, c.tests[0].0)) && c.tests[1].1(At(m, c.tests[1].0))
  {
  }

  lemma NodeHolds(t: JoinTree, m: Record, nulls: NullEquality)
    requires t.Node?
    ensures Holds(t, m, nulls)
        <==> Holds(t.left, m, nulls) && Holds(t.right, m, nulls) && Agree(m, t.leftOn, t.rightOn, nulls)
  {
  }

  /** A column read from a source is among all columns read. */
  lemma KeptHas(ss: seq<Source>, i: nat, k: nat)
    requires i < |ss| && k < |ss[i].cols|
    ensures ss[i].cols[k] in Kept(ss)
  {
    assert ss[i].cols[k] in KeptSets(ss)[i];
    UnionHas(KeptSets(ss), ss[i].cols[k]);
  }

  /** Columns picked from distinct positions of a table's schema make a valid source. */
  lemma PickedSource(s: Source, at: seq<nat>, f: nat)
    requires s.table.Valid() && |at| == |s.cols| && f < |s.cols| && s.filterColumn == s.cols[f]
    requires forall k :: 0 <= k < |at| ==> at[k] < |s.table.names| && s.table.names[at[k]] == s.cols[k]
    requires forall k, l :: 0 <= k < l < |at| ==> at[k] != at[l]
    ensures s.Valid()
  {
    PickedNames(s.table.names, s.cols, at);
    forall k, l | 0 <= k < l < |s.cols| ensures s.cols[k] != s.cols[l] {
      assert s.table.names[at[k]] != s.table.names[at[l]];
    }
  }

  /** A valid source over a table whose columns carry the tag. */
  ghost predicate ValidTagged(s: Source, tag: TableName) { s.Valid() && Tagged(s.table.Schema(), tag) }

  lemma ValidByTags(ss: seq<Source>, tags: seq<TableName>)
    requires |ss| == |tags| && forall i :: 0 <= i < |ss| ==> ValidTagged(ss[i], tags[i])
    requires forall i, j :: 0 <= i < j < |tags| ==> tags[i] != tags[j]
    ensures ValidSources(ss)
  {
    DisjointByTags(FullSchemas(ss), tags);
  }

  predicate AllDifferent(tags: seq<TableName>) { forall i, j :: 0 <= i < j < |tags| ==> tags[i] != tags[j] }

  /** The second letter of every column read is one that the tables' prefixes use. */
  ghost predicate PrefixedNames(ss: seq<Source>) {
    forall c :: c in Kept(ss) ==> |c| >= 2 && (c[1] == '_' || c[1] == 's')
  }

  lemma PrefixedByTags(ss: seq<Source>, tags: seq<TableName>)
    requires |ss| == |tags| && forall i :: 0 <= i < |ss| ==> ValidTagged(ss[i], tags[i])
    ensures PrefixedNames(ss)
  {
    forall c | c in Kept(ss) ensures |c| >= 2 && (c[1] == '_' || c[1] == 's') {
      UnionHas(KeptSets(ss), c);
      var i :| 0 <= i < |ss| && c in KeptSets(ss)[i];
      ColumnsWithin(ss[i]);
      assert c in ss[i].table.Schema();
    }
  }

  lemma SixValidByTags(a: Source, b: Source, c: Source, d: Source, e: Source, f: Source, tags: seq<TableName>)
    requires |tags| == 6 && AllDifferent(tags)
    requires ValidTagged(a, tags[0]) && ValidTagged(b, tags[1]) && ValidTagged(c, tags[2])
    requires ValidTagged(d, tags[3]) && ValidTagged(e, tags[4]) && ValidTagged(f, tags[5])
    ensures ValidSources([a, b, c, d, e, f]) && PrefixedNames([a, b, c, d, e, f])
  {
    ValidByTags([a, b, c, d, e, f], tags);
    PrefixedByTags([a, b, c, d, e, f], tags);
  }

  lemma FourValidByTags(a: Source, b: Source, c: Source, d: Source, tags: seq<TableName>)
    requires |tags| == 4 && AllDifferent(tags)
    requires ValidTagged(a, tags[0]) && ValidTagged(b, tags[1]) && ValidTagged(c, tags[2]) && ValidTagged(d, tags[3])
    ensures ValidSources([a, b, c, d]) && PrefixedNames([a, b, c, d])
  {
    ValidByTags([a, b, c, d], tags);
    PrefixedByTags([a, b, c, d], tags);
  }

  lemma FourSources()
    ensures SourceNumbers(4) == [0, 1, 2, 3]
  {
  }

  lemma SixSources()
    ensures SourceNumbers(6) == [0, 1, 2, 3, 4, 5]
  {
  }

  lemma EqualsOfThree(c: Condition, m: Record, eq: (Value, Value) -> bool)
    requires |c.equals| == 3
    ensures c.EqualsHold(m, eq)
       <==> && eq(At(m, c.equals[0].0), At(m, c.equals[0].1)) && eq(At(m, c.equals[1].0), At(m, c.equals[1].1))
            && eq(At(m, c.equals[2].0), At(m, c.equals[2].1))
  {
  }

  /** A column of source `i` that its table never leaves null. */
  lemma GuardedBy(ss: seq<Source>, i: nat, k: nat, col: string)
    requires ValidSources(ss) && i < |ss| && k < |ss[i].cols| && ss[i].cols[k] == col && NeverNull(ss[i].table, col)
    ensures Guarded(ss, col)
  {
    assert ss[i].cols[k] in ss[i].Columns();
  }

  /** The revenue column gets a new name. */
  lemma RevenueIsNew(ss: seq<Source>, t: Table)
    requires PrefixedNames(ss) && t.Schema() == Kept(ss)
    ensures "revenue" !in t.names
  {
    assert "revenue"[1] == 'e';
    assert "revenue" !in Kept(ss);
    assert "revenue" !in t.Schema();
  }

  /** Scans one source. */
  method ReadSource(ss: seq<Source>, i: nat) returns (t: TableWithNames)
    requires ValidSources(ss) && i < |ss|
    ensures fresh(t) && Yields(Leaf(i), ss, EQUAL, t.View()) && t.names == ss[i].cols
  {
    t := ReadParquet(ss[i].table, ss[i].cols, RowTest(ss[i].cols, ss[i].filterColumn, ss[i].test));
  }

  /** Runs one join of the tree, with the wrapper's default of equal nulls. */
  method JoinNode(t: JoinTree, ss: seq<Source>, left: TableWithNames, right: TableWithNames)
      returns (r: Result<TableWithNames>)
    requires ValidSources(ss) && t.Node? && WellFormed(t, |ss|)
    requires Yields(t.left, ss, EQUAL, left.View()) && Yields(t.right, ss, EQUAL, right.View())
    ensures r.Success?
        <==> |t.leftOn| == |t.rightOn| && AllNamed(left.names, t.leftOn) && AllNamed(right.names, t.rightOn)
    ensures r.Success? ==>
        fresh(r.value) && Yields(t, ss, EQUAL, r.value.View()) && r.value.names == left.names + right.names
  {
    r := ApplyInnerJoin(left, right, t.leftOn, t.rightOn, EQUAL);
    if r.Success? {
      YieldsNode(t, ss, EQUAL, left.View(), right.View(), r.value.View());
    }
  }
}
