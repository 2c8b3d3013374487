/**
  Tables with named columns and the operators the query plans are built from.
  A row is also seen as a record, a map from column names to values, which does
  not depend on the order of the columns.
 */
module NamedTables {
  import opened Outcomes
  import opened Sequences

  datatype Value = Null | Num(n: real) | Text(s: string)

  type Record = map<string, Value>

  datatype Table = Table(names: seq<string>, rows: seq<seq<Value>>) {
    ghost predicate Valid() {
      Rectangular() && forall i, j :: 0 <= i < j < |names| ==> names[i] != names[j]
    }

    /** Every row has a value for every name. */
    ghost predicate Rectangular() { forall r :: 0 <= r < |rows| ==> |rows[r]| == |names| }

    function Schema(): set<string> { NameSet(names) }
  }

  function NameSet(names: seq<string>): set<string> { set c | c in names }

  // ------------------------------------------------------------------ columns

  /** Number of the first column called `col`; looking up any other name throws. */
  function ColumnId(names: seq<string>, col: string): (r: Result<nat>)
    ensures r.Success? ==> r.value < |names| && names[r.value] == col && col !in names[..r.value]
    ensures r.Failure? <==> col !in names
  {
    if names == [] then Failure
    else if names[0] == col then Success(0)
    else
      match ColumnId(names[1..], col)
      case Failure => Failure
      case Success(i) =>
        assert names[..i + 1] == [names[0]] + names[1..][..i];
        Success(i + 1)
  }

  function ToRecord(names: seq<string>, row: seq<Value>): (m: Record)
    requires |names| == |row|
    ensures forall c :: c in m <==> c in names
  {
    if names == [] then map[] else ToRecord(names[1..], row[1..])[names[0] := row[0]]
  }

  lemma {:induction false} ToRecordAt(names: seq<string>, row: seq<Value>, col: string)
    requires |names| == |row| && col in names
    ensures ToRecord(names, row)[col] == row[ColumnId(names, col).value]
  {
    if names[0] != col {
      ToRecordAt(names[1..], row[1..], col);
    }
  }

  lemma UpdateUnion<K, V>(m: map<K, V>, n: map<K, V>, k: K, v: V)
    requires k !in n
    ensures (m + n)[k := v] == m[k := v] + n
  {
  }

  lemma {:induction false} ToRecordConcat(a: seq<string>, b: seq<string>, x: seq<Value>, y: seq<Value>)
    requires |a| == |x| && |b| == |y| && forall c :: c in a ==> c !in b
    ensures ToRecord(a + b, x + y) == ToRecord(a, x) + ToRecord(b, y)
  {
    if a == [] {
      assert a + b == b && x + y == y;
    } else {
      var am, bm := ToRecord(a[1..], x[1..]), ToRecord(b, y);
      ToRecordConcat(a[1..], b, x[1..], y);
      assert (a + b)[1..] == a[1..] + b && (x + y)[1..] == x[1..] + y;
      UpdateUnion(am, bm, a[0], x[0]);
    }
  }

  /** The rows as records. */
  function RecordsOf(t: Table): (rs: seq<Record>)
    requires t.Rectangular()
    ensures |rs| == |t.rows|
    ensures forall i :: 0 <= i < |rs| ==> rs[i] == ToRecord(t.names, t.rows[i])
    ensures Uniform(rs, t.Schema())
  {
    seq(|t.rows|, i requires 0 <= i < |t.rows| => ToRecord(t.names, t.rows[i]))
  }

  /** All records have exactly the columns `ks`. */
  ghost predicate Uniform(rs: seq<Record>, ks: set<string>) {
    forall i :: 0 <= i < |rs| ==> rs[i].Keys == ks
  }

  function Restrict(m: Record, ks: set<string>): (r: Record)
    ensures r.Keys == m.Keys * ks
    ensures forall c :: c in r ==> r[c] == m[c]
  {
    map c | c in m && c in ks :: m[c]
  }

  lemma RestrictTwice(m: Record, ks: set<string>, js: set<string>)
    requires js <= ks
    ensures Restrict(Restrict(m, ks), js) == Restrict(m, js)
  {
  }

  // --------------------------------------------------------------------- join

  /** Whether two nulls are the same key value, `cudf::null_equality`. */
  datatype NullEquality = EQUAL | UNEQUAL

  predicate SameKey(nulls: NullEquality, x: Value, y: Value) { x == y && (nulls == UNEQUAL ==> x != Null) }

  /** Pairs of columns whose values must agree, the left table's first. */
  datatype JoinKeys = JoinKeys(pairs: seq<(string, string)>, nulls: NullEquality)

  /** Joining on nothing: every pair of rows. */
  const CROSS := JoinKeys([], EQUAL)

  predicate KeysMatch(a: Record, b: Record, on: JoinKeys) {
    forall k :: 0 <= k < |on.pairs| ==>
      on.pairs[k].0 in a && on.pairs[k].1 in b && SameKey(on.nulls, a[on.pairs[k].0], b[on.pairs[k].1])
  }

  /** The merge of `a` with a matching record. */
  function Matcher(a: Record, on: JoinKeys): Record -> Option<Record> {
    (b: Record) => if KeysMatch(a, b, on) then Some(a + b) else None
  }

  function JoinOne(a: Record, bs: seq<Record>, on: JoinKeys): seq<Record> { Collect(bs, Matcher(a, on)) }

  function Joiner(bs: seq<Record>, on: JoinKeys): Record -> seq<Record> { (a: Record) => JoinOne(a, bs, on) }

  /** All matching pairs, merged. */
  function NestedJoin(rs: seq<Record>, bs: seq<Record>, on: JoinKeys): seq<Record> {
    CollectAll(rs, Joiner(bs, on))
  }

  /** The join condition, read off the merged record. */
  predicate OnHolds(m: Record, on: JoinKeys) {
    forall k :: 0 <= k < |on.pairs| ==>
      on.pairs[k].0 in m && on.pairs[k].1 in m && SameKey(on.nulls, m[on.pairs[k].0], m[on.pairs[k].1])
  }

  ghost predicate KeysIn(on: JoinKeys, ka: set<string>, kb: set<string>) {
    forall k :: 0 <= k < |on.pairs| ==> on.pairs[k].0 in ka && on.pairs[k].1 in kb
  }

  lemma MergedRecord(a: Record, b: Record, m: Record, on: JoinKeys)
    requires a.Keys !! b.Keys && KeysIn(on, a.Keys, b.Keys)
    ensures a + b == m <==> m.Keys == a.Keys + b.Keys && Restrict(m, a.Keys) == a && Restrict(m, b.Keys) == b
    ensures a + b == m ==> (KeysMatch(a, b, on) <==> OnHolds(m, on))
  {
    if m.Keys == a.Keys + b.Keys && Restrict(m, a.Keys) == a && Restrict(m, b.Keys) == b {
      forall c | c in m ensures m[c] == (a + b)[c] {
        if c in b {
          assert Restrict(m, b.Keys)[c] == m[c];
        } else {
          assert Restrict(m, a.Keys)[c] == m[c];
        }
      }
      assert m == a + b;
    }
    if a + b == m {
      assert Restrict(m, a.Keys) == a && Restrict(m, b.Keys) == b;
      forall k | 0 <= k < |on.pairs|
        ensures on.pairs[k].0 in m && on.pairs[k].1 in m
        ensures m[on.pairs[k].0] == a[on.pairs[k].0] && m[on.pairs[k].1] == b[on.pairs[k].1]
      {
      }
    }
  }

  lemma JoinOneCount(a: Record, bs: seq<Record>, kb: set<string>, on: JoinKeys, m: Record)
    requires Uniform(bs, kb) && a.Keys !! kb && KeysIn(on, a.Keys, kb)
    ensures multiset(JoinOne(a, bs, on))[m]
         == if m.Keys == a.Keys + kb && Restrict(m, a.Keys) == a && OnHolds(m, on)
            then multiset(bs)[Restrict(m, kb)] else 0
  {
    var x := Restrict(m, kb);
    var good := m.Keys == a.Keys + kb && Restrict(m, a.Keys) == a && OnHolds(m, on);
    forall i | 0 <= i < |bs| ensures Matcher(a, on)(bs[i]) == Some(m) <==> good && bs[i] == x {
      MergedRecord(a, bs[i], m, on);
    }
    CollectCount(bs, Matcher(a, on), m, x, good);
  }

  /**
    How often a record occurs in a join: the product of how often its two
    halves occur, if the join condition holds of it.
   */
  lemma NestedJoinCount(rs: seq<Record>, ka: set<string>, bs: seq<Record>, kb: set<string>, on: JoinKeys, m: Record)
    requires Uniform(rs, ka) && Uniform(bs, kb) && ka !! kb && KeysIn(on, ka, kb)
    ensures multiset(NestedJoin(rs, bs, on))[m]
         == if m.Keys == ka + kb && OnHolds(m, on)
            then multiset(rs)[Restrict(m, ka)] * multiset(bs)[Restrict(m, kb)] else 0
  {
    var x, k := Restrict(m, ka), multiset(bs)[Restrict(m, kb)];
    var good := m.Keys == ka + kb && OnHolds(m, on);
    forall i | 0 <= i < |rs|
      ensures multiset(Joiner(bs, on)(rs[i]))[m] == if good && rs[i] == x then k else 0
    {
      JoinOneCount(rs[i], bs, kb, on, m);
    }
    CollectAllCount(rs, Joiner(bs, on), m, x, k, good);
  }

  lemma {:induction false} JoinOneUniform(a: Record, bs: seq<Record>, kb: set<string>, on: JoinKeys)
    requires Uniform(bs, kb)
    ensures Uniform(JoinOne(a, bs, on), a.Keys + kb)
  {
    if bs != [] {
      JoinOneUniform(a, bs[1..], kb, on);
      assert (a + bs[0]).Keys == a.Keys + kb;
    }
  }

  lemma {:induction false} NestedJoinUniform(rs: seq<Record>, ka: set<string>, bs: seq<Record>, kb: set<string>,
                                             on: JoinKeys)
    requires Uniform(rs, ka) && Uniform(bs, kb)
    ensures Uniform(NestedJoin(rs, bs, on), ka + kb)
  {
    if rs != [] {
      NestedJoinUniform(rs[1..], ka, bs, kb, on);
      JoinOneUniform(rs[0], bs, kb, on);
    }
  }

  // ------------------------------------------------ filters and projections

  function Passing(p: Record -> bool): Record -> Option<Record> {
    (m: Record) => if p(m) then Some(m) else None
  }

  /** The records that satisfy `p`. */
  function Keep(rs: seq<Record>, p: Record -> bool): seq<Record> { Collect(rs, Passing(p)) }

  lemma KeepCount(rs: seq<Record>, p: Record -> bool, m: Record)
    ensures multiset(Keep(rs, p))[m] == if p(m) then multiset(rs)[m] else 0
  {
    CollectCount(rs, Passing(p), m, m, p(m));
  }

  /** Keeps only the columns `ks` of every record. */
  function Project(rs: seq<Record>, ks: set<string>): (ps: seq<Record>)
    ensures |ps| == |rs|
    ensures forall i :: 0 <= i < |rs| ==> ps[i] == Restrict(rs[i], ks)
  {
    seq(|rs|, i requires 0 <= i < |rs| => Restrict(rs[i], ks))
  }

  /** `p` reads only the columns `ks`. */
  ghost predicate ReadsOnly(p: Record -> bool, ks: set<string>) {
    forall m: Record :: p(m) == p(Restrict(m, ks))
  }

  lemma ProjectConcat(x: seq<Record>, y: seq<Record>, ks: set<string>)
    ensures Project(x + y, ks) == Project(x, ks) + Project(y, ks)
  {
  }

  lemma {:induction false} KeepProject(rs: seq<Record>, p: Record -> bool, ks: set<string>)
    requires ReadsOnly(p, ks)
    ensures Keep(Project(rs, ks), p) == Project(Keep(rs, p), ks)
  {
    if rs != [] {
      KeepProject(rs[1..], p, ks);
      assert Project(rs, ks)[1..] == Project(rs[1..], ks);
      assert p(Restrict(rs[0], ks)) == p(rs[0]);
    }
  }

  lemma RestrictMerge(a: Record, b: Record, ks: set<string>)
    requires a.Keys !! b.Keys
    ensures Restrict(a + b, ks) == Restrict(a, ks) + Restrict(b, ks)
  {
  }

  lemma {:induction false} CrossOneProject(a: Record, bs: seq<Record>, kb: set<string>, ks: set<string>)
    requires Uniform(bs, kb) && a.Keys !! kb
    ensures JoinOne(Restrict(a, ks), Project(bs, ks), CROSS) == Project(JoinOne(a, bs, CROSS), ks)
  {
    if bs != [] {
      CrossOneProject(a, bs[1..], kb, ks);
      RestrictMerge(a, bs[0], ks);
      assert Project(bs, ks)[1..] == Project(bs[1..], ks);
    }
  }

  /** A cross product can be projected before or after. */
  lemma {:induction false} CrossProject(rs: seq<Record>, ka: set<string>, bs: seq<Record>, kb: set<string>,
                                        ks: set<string>)
    requires Uniform(rs, ka) && Uniform(bs, kb) && ka !! kb
    ensures NestedJoin(Project(rs, ks), Project(bs, ks), CROSS) == Project(NestedJoin(rs, bs, CROSS), ks)
  {
    if rs != [] {
      CrossProject(rs[1..], ka, bs, kb, ks);
      CrossOneProject(rs[0], bs, kb, ks);
      assert Project(rs, ks)[1..] == Project(rs[1..], ks);
      ProjectConcat(JoinOne(rs[0], bs, CROSS), NestedJoin(rs[1..], bs, CROSS), ks);
    }
  }
}
