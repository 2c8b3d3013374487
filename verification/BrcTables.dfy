/**
  The column operators that the billion-rows programs are built from: a groupby
  over (city, temperature) rows, a sort by key, interleaving and segmented
  reduction. Temperatures and their sums are exact reals.
 */
module BrcTables {
  import opened Sequences
  import opened Sorting

  datatype Row = Row(city: string, temp: real)

  datatype Aggregation = Min | Max | Mean | Sum | Count

  /** A key column followed by one value column per requested aggregation. */
  datatype AggTable = AggTable(keys: seq<string>, values: seq<seq<real>>) {
    function NumRows(): nat { |keys| }
  }

  // ---------------------------------------------------------------- city order

  /** Non-strict ordering of a key column, the promise of `sort_by_key`. */
  ghost predicate Ordered(keys: seq<string>) {
    forall i, j :: 0 <= i < j < |keys| ==> !Before(keys[j], keys[i])
  }

  ghost predicate StrictlyOrdered(keys: seq<string>) {
    forall i, j :: 0 <= i < j < |keys| ==> Before(keys[i], keys[j])
  }

  /** A set of keys has one ordered listing. */
  lemma {:induction false} OrderedListingUnique(a: seq<string>, b: seq<string>)
    requires StrictlyOrdered(a) && StrictlyOrdered(b)
    requires forall c :: c in a <==> c in b
    ensures a == b
  {
    assert |b| > 0 ==> b[0] in a;
    if a != [] {
      assert a[0] in b;
      assert b[0] in a;
      var i :| 0 <= i < |b| && b[i] == a[0];
      var j :| 0 <= j < |a| && a[j] == b[0];
      if a[0] != b[0] {
        BeforeAsymmetric(a[0], b[0]);
        assert false;
      }
      BeforeIrreflexive(a[0]);
      forall c ensures c in a[1..] <==> c in b[1..] {
        assert c in a[1..] ==> c in a;
        assert c in b[1..] ==> c in b;
        assert c in a && c != a[0] ==> c in a[1..];
        assert c in b && c != b[0] ==> c in b[1..];
      }
      OrderedListingUnique(a[1..], b[1..]);
    }
  }

  function InsertCity(c: string, keys: seq<string>): seq<string> {
    if keys == [] then [c]
    else if c == keys[0] then keys
    else if Before(c, keys[0]) then [c] + keys
    else [keys[0]] + InsertCity(c, keys[1..])
  }

  /** The cities of `rows`, each once, in order. */
  function SortedCities(rows: seq<Row>): seq<string> {
    if rows == [] then [] else InsertCity(rows[0].city, SortedCities(rows[1..]))
  }

  lemma {:induction false} InsertCityOrdered(c: string, keys: seq<string>)
    requires StrictlyOrdered(keys)
    ensures StrictlyOrdered(InsertCity(c, keys))
    ensures forall x :: x in InsertCity(c, keys) <==> x == c || x in keys
  {
    if keys != [] && c != keys[0] {
      if Before(c, keys[0]) {
        forall j | 0 < j < |keys| ensures Before(c, keys[j]) {
          BeforeTransitive(c, keys[0], keys[j]);
        }
      } else {
        BeforeTotal(c, keys[0]);
        InsertCityOrdered(c, keys[1..]);
        var rest := InsertCity(c, keys[1..]);
        forall x | x in rest ensures Before(keys[0], x) {
          assert x == c || x in keys[1..];
        }
        assert forall x :: x in keys <==> x == keys[0] || x in keys[1..];
      }
    }
  }

  ghost predicate HasCity(rows: seq<Row>, c: string) {
    exists i :: 0 <= i < |rows| && rows[i].city == c
  }

  lemma {:induction false} SortedCitiesListsCities(rows: seq<Row>)
    ensures StrictlyOrdered(SortedCities(rows))
    ensures forall c :: c in SortedCities(rows) <==> HasCity(rows, c)
  {
    if rows != [] {
      SortedCitiesListsCities(rows[1..]);
      InsertCityOrdered(rows[0].city, SortedCities(rows[1..]));
      forall c ensures HasCity(rows, c) <==> c == rows[0].city || HasCity(rows[1..], c) {
        if HasCity(rows, c) && c != rows[0].city {
          var i :| 0 <= i < |rows| && rows[i].city == c;
          assert rows[1..][i - 1].city == c;
        }
        if HasCity(rows[1..], c) {
          var i :| 0 <= i < |rows[1..]| && rows[1..][i].city == c;
          assert rows[i + 1].city == c;
        }
      }
    }
  }

  // ---------------------------------------------------------------- reductions

  datatype Monoid = MinOp | MaxOp | SumOp {
    function Apply(x: real, y: real): real {
      match this
      case MinOp => if x <= y then x else y
      case MaxOp => if x <= y then y else x
      case SumOp => x + y
    }
  }

  function Fold(op: Monoid, s: seq<real>): real
    requires s != []
  {
    if |s| == 1 then s[0] else op.Apply(s[0], Fold(op, s[1..]))
  }

  lemma {:induction false} FoldConcat(op: Monoid, a: seq<real>, b: seq<real>)
    requires a != [] && b != []
    ensures Fold(op, a + b) == op.Apply(Fold(op, a), Fold(op, b))
  {
    if |a| == 1 {
      assert (a + b)[1..] == b;
    } else {
      assert (a + b)[1..] == a[1..] + b;
      FoldConcat(op, a[1..], b);
    }
  }

  lemma {:induction false} FoldRemove(op: Monoid, s: seq<real>, k: nat)
    requires |s| > 1 && k < |s|
    ensures Fold(op, s) == op.Apply(s[k], Fold(op, s[..k] + s[k + 1..]))
  {
    if k == 0 {
      assert s[..0] + s[1..] == s[1..];
    } else {
      var rest := s[..k] + s[k + 1..];
      assert rest[1..] == s[1..][..k - 1] + s[1..][k..];
      if |s| > 2 {
        FoldRemove(op, s[1..], k - 1);
      }
    }
  }

  /** A reduction does not see the order of its values. */
  lemma {:induction false} FoldPermuted(op: Monoid, a: seq<real>, b: seq<real>)
    requires a != [] && multiset(a) == multiset(b)
    ensures b != [] && Fold(op, a) == Fold(op, b)
  {
    SameLength(a, b);
    var k := MatchHead(a, b);
    if |a| > 1 {
      SameLength(a[1..], b[..k] + b[k + 1..]);
      FoldPermuted(op, a[1..], b[..k] + b[k + 1..]);
      FoldRemove(op, b, k);
    }
  }

  /** Reducing block by block and then over the block results reduces the whole. */
  lemma {:induction false} FoldBlocks(op: Monoid, blocks: seq<seq<real>>)
    requires blocks != [] && forall i :: 0 <= i < |blocks| ==> blocks[i] != []
    ensures Flatten(blocks) != []
    ensures Fold(op, seq(|blocks|, i requires 0 <= i < |blocks| => Fold(op, blocks[i])))
         == Fold(op, Flatten(blocks))
  {
    var parts := seq(|blocks|, i requires 0 <= i < |blocks| => Fold(op, blocks[i]));
    if |blocks| == 1 {
      assert Flatten(blocks) == blocks[0] + Flatten<real>([]) == blocks[0];
    } else {
      FoldBlocks(op, blocks[1..]);
      FoldConcat(op, blocks[0], Flatten(blocks[1..]));
      assert parts[1..] == seq(|blocks[1..]|, i requires 0 <= i < |blocks[1..]| => Fold(op, blocks[1..][i]));
    }
  }

  /** What a groupby aggregation makes of one group's values. */
  function Reduce(agg: Aggregation, s: seq<real>): real
    requires s != []
  {
    match agg
    case Min => Fold(MinOp, s)
    case Max => Fold(MaxOp, s)
    case Sum => Fold(SumOp, s)
    case Count => |s| as real
    case Mean => Fold(SumOp, s) / |s| as real
  }

  // ------------------------------------------------------------------- groupby

  /** The temperatures recorded for city `c`, in file order. */
  function TempsOf(rows: seq<Row>, c: string): seq<real> {
    if rows == [] then []
    else (if rows[0].city == c then [rows[0].temp] else []) + TempsOf(rows[1..], c)
  }

  lemma {:induction false} TempsOfConcat(a: seq<Row>, b: seq<Row>, c: string)
    ensures TempsOf(a + b, c) == TempsOf(a, c) + TempsOf(b, c)
  {
    if a == [] {
      assert a + b == b;
    } else {
      assert (a + b)[1..] == a[1..] + b && (a + b)[0] == a[0];
      TempsOfConcat(a[1..], b, c);
      ConcatAssociative(if a[0].city == c then [a[0].temp] else [], TempsOf(a[1..], c), TempsOf(b, c));
    }
  }

  lemma {:induction false} TempsOfFlatten(parts: seq<seq<Row>>, c: string)
    ensures TempsOf(Flatten(parts), c)
         == Flatten(seq(|parts|, i requires 0 <= i < |parts| => TempsOf(parts[i], c)))
  {
    var blocks := seq(|parts|, i requires 0 <= i < |parts| => TempsOf(parts[i], c));
    if parts != [] {
      TempsOfConcat(parts[0], Flatten(parts[1..]), c);
      TempsOfFlatten(parts[1..], c);
      assert blocks[1..] == seq(|parts[1..]|, i requires 0 <= i < |parts[1..]| => TempsOf(parts[1..][i], c));
    }
  }

  lemma {:induction false} TempsOfNonempty(rows: seq<Row>, c: string)
    ensures TempsOf(rows, c) != [] <==> HasCity(rows, c)
  {
    if rows != [] {
      TempsOfNonempty(rows[1..], c);
      if HasCity(rows[1..], c) {
        var i :| 0 <= i < |rows[1..]| && rows[1..][i].city == c;
        assert rows[i + 1].city == c;
      }
      if HasCity(rows, c) && rows[0].city != c {
        var i :| 0 <= i < |rows| && rows[i].city == c;
        assert rows[1..][i - 1].city == c;
      }
    }
  }

  /** The group keys in the order a groupby happens to return them. */
  ghost predicate IsGroupOrder(rows: seq<Row>, keys: seq<string>) {
    && (forall i, j :: 0 <= i < j < |keys| ==> keys[i] != keys[j])
    && (forall c :: c in keys <==> HasCity(rows, c))
  }

  ghost predicate AllPresent(rows: seq<Row>, keys: seq<string>) {
    forall i :: 0 <= i < |keys| ==> TempsOf(rows, keys[i]) != []
  }

  /** One value column: aggregation `agg` of each group, in key order. */
  function ValueColumn(rows: seq<Row>, keys: seq<string>, agg: Aggregation): (col: seq<real>)
    requires AllPresent(rows, keys)
  {
    seq(|keys|, i requires 0 <= i < |keys| => Reduce(agg, TempsOf(rows, keys[i])))
  }

  function GroupTable(rows: seq<Row>, keys: seq<string>, aggs: seq<Aggregation>): AggTable
    requires AllPresent(rows, keys)
  {
    AggTable(keys, seq(|aggs|, a requires 0 <= a < |aggs| => ValueColumn(rows, keys, aggs[a])))
  }

  lemma SortedCitiesPresent(rows: seq<Row>)
    ensures AllPresent(rows, SortedCities(rows))
    ensures IsGroupOrder(rows, SortedCities(rows))
  {
    SortedCitiesListsCities(rows);
    var keys := SortedCities(rows);
    forall i | 0 <= i < |keys| ensures TempsOf(rows, keys[i]) != [] {
      assert keys[i] in keys;
      TempsOfNonempty(rows, keys[i]);
    }
    forall i, j | 0 <= i < j < |keys| ensures keys[i] != keys[j] {
      BeforeIrreflexive(keys[i]);
    }
  }

  lemma GroupOrderPresent(rows: seq<Row>, keys: seq<string>)
    requires IsGroupOrder(rows, keys)
    ensures AllPresent(rows, keys)
  {
    forall i | 0 <= i < |keys| ensures TempsOf(rows, keys[i]) != [] {
      assert keys[i] in keys;
      TempsOfNonempty(rows, keys[i]);
    }
  }

  /** The aggregated table with its rows in key order. */
  function SortedTable(rows: seq<Row>, aggs: seq<Aggregation>): AggTable {
    SortedCitiesPresent(rows);
    GroupTable(rows, SortedCities(rows), aggs)
  }

  /** A permutation of the row numbers `0..n`. */
  ghost predicate IsPermutation(perm: seq<nat>, n: nat) {
    && |perm| == n
    && (forall i :: 0 <= i < n ==> perm[i] < n)
    && (forall i, j :: 0 <= i < j < n ==> perm[i] != perm[j])
    && (forall r :: 0 <= r < n ==> r in perm)
  }

  function Gather<T>(col: seq<T>, perm: seq<nat>): (r: seq<T>)
    requires forall i :: 0 <= i < |perm| ==> perm[i] < |col|
  {
    seq(|perm|, i requires 0 <= i < |perm| => col[perm[i]])
  }

  /**
    Whatever order the groupby returned and whatever sorting permutation was
    applied to every column, the sorted table is the same one.
   */
  lemma SortByKeyCanonical(rows: seq<Row>, keys: seq<string>, aggs: seq<Aggregation>, perm: seq<nat>)
    requires IsGroupOrder(rows, keys) && AllPresent(rows, keys)
    requires IsPermutation(perm, |keys|) && Ordered(Gather(keys, perm))
    ensures var t := GroupTable(rows, keys, aggs);
            && Gather(t.keys, perm) == SortedTable(rows, aggs).keys
            && forall a :: 0 <= a < |aggs| ==> Gather(t.values[a], perm) == SortedTable(rows, aggs).values[a]
  {
    var sorted := Gather(keys, perm);
    SortedCitiesPresent(rows);
    SortedCitiesListsCities(rows);
    forall i, j | 0 <= i < j < |sorted| ensures Before(sorted[i], sorted[j]) {
      assert perm[i] != perm[j];
      BeforeTotal(sorted[i], sorted[j]);
    }
    forall c ensures c in sorted <==> c in SortedCities(rows) {
      if c in keys {
        var r :| 0 <= r < |keys| && keys[r] == c;
        assert r in perm;
        var i :| 0 <= i < |perm| && perm[i] == r;
        assert sorted[i] == c;
      }
      if c in sorted {
        var i :| 0 <= i < |sorted| && sorted[i] == c;
        assert keys[perm[i]] == c;
      }
    }
    OrderedListingUnique(sorted, SortedCities(rows));
  }

  // -------------------------------------------- interleave and segmented reduce

  /** Element `p` of the row-major listing. */
  function InterleavedAt(cols: seq<seq<real>>, n: nat, p: nat): real
    requires cols != [] && p < n * |cols| && forall j :: 0 <= j < |cols| ==> |cols[j]| == n
  {
    DivBound(p, n, |cols|);
    cols[p % |cols|][p / |cols|]
  }

  /** Row-major listing of equally long columns. */
  function Interleave(cols: seq<seq<real>>, n: nat): (r: seq<real>)
    requires cols != [] && forall j :: 0 <= j < |cols| ==> |cols[j]| == n
    ensures |r| == n * |cols|
  {
    seq(n * |cols|, p requires 0 <= p < n * |cols| => InterleavedAt(cols, n, p))
  }

  lemma TimesMonotone(x: int, y: int, k: nat)
    ensures x <= y ==> x * k <= y * k
  {
    if x <= y {
      assert y * k == x * k + (y - x) * k;
    }
  }

  lemma DivBound(p: nat, n: nat, k: nat)
    requires k > 0 && p < n * k
    ensures p / k < n
  {
    assert p == (p / k) * k + p % k;
    TimesMonotone(n, p / k, k);
  }

  lemma DivModBlock(i: nat, j: nat, k: nat)
    requires j < k
    ensures (i * k + j) / k == i && (i * k + j) % k == j
  {
    var p := i * k + j;
    assert p == (p / k) * k + p % k;
    TimesMonotone(p / k + 1, i, k);
    TimesMonotone(i + 1, p / k, k);
  }

  lemma BlockBound(i: nat, n: nat, k: nat)
    requires i < n
    ensures i * k + k <= n * k
  {
    assert (i + 1) * k <= n * k;
  }

  /** `size` numbers starting at 0, `step` apart. */
  function Offsets(size: nat, step: nat): (r: seq<nat>)
    ensures |r| == size && forall i :: 0 <= i < size ==> r[i] == i * step
  {
    seq(size, i requires 0 <= i < size => i * step)
  }

  ghost predicate ValidOffsets(offsets: seq<nat>, n: nat) {
    && offsets != []
    && (forall i :: 0 <= i < |offsets| ==> offsets[i] <= n)
    && (forall i :: 0 <= i < |offsets| - 1 ==> offsets[i] < offsets[i + 1])
  }

  /** Reduces each segment between consecutive offsets. */
  function SegmentedReduce(vals: seq<real>, offsets: seq<nat>, op: Monoid): (r: seq<real>)
    requires ValidOffsets(offsets, |vals|)
  {
    seq(|offsets| - 1, i requires 0 <= i < |offsets| - 1 => Fold(op, vals[offsets[i]..offsets[i + 1]]))
  }

  lemma OffsetsDelimitBlocks(n: nat, k: nat)
    requires k > 0
    ensures ValidOffsets(Offsets(n + 1, k), n * k)
    ensures forall i :: 0 <= i < n ==> Offsets(n + 1, k)[i + 1] == i * k + k
  {
    forall i | 0 <= i <= n ensures i * k <= n * k {
      TimesMonotone(i, n, k);
    }
    forall i | 0 <= i < n ensures (i + 1) * k == i * k + k {}
  }

  /** Element `i` of every column. */
  function AcrossColumns(cols: seq<seq<real>>, i: nat): (r: seq<real>)
    requires forall j :: 0 <= j < |cols| ==> i < |cols[j]|
    ensures |r| == |cols|
  {
    seq(|cols|, j requires 0 <= j < |cols| => cols[j][i])
  }

  /** Segment `i` of the interleaved column is row `i` of the input columns. */
  lemma InterleaveSegment(cols: seq<seq<real>>, n: nat, i: nat)
    requires cols != [] && i < n && forall j :: 0 <= j < |cols| ==> |cols[j]| == n
    ensures i * |cols| + |cols| <= |Interleave(cols, n)|
    ensures Interleave(cols, n)[i * |cols|..i * |cols| + |cols|] == AcrossColumns(cols, i)
  {
    var k := |cols|;
    BlockBound(i, n, k);
    var seg := Interleave(cols, n)[i * k..i * k + k];
    forall j | 0 <= j < k ensures seg[j] == cols[j][i] {
      DivModBlock(i, j, k);
      assert seg[j] == Interleave(cols, n)[i * k + j];
    }
  }

  /** Reducing segment `i` is reducing row `i` of the input columns. */
  lemma ReducedSegment(cols: seq<seq<real>>, n: nat, op: Monoid, i: nat)
    requires cols != [] && i < n && forall j :: 0 <= j < |cols| ==> |cols[j]| == n
    ensures ValidOffsets(Offsets(n + 1, |cols|), n * |cols|)
    ensures SegmentedReduce(Interleave(cols, n), Offsets(n + 1, |cols|), op)[i] == Fold(op, AcrossColumns(cols, i))
  {
    var offsets := Offsets(n + 1, |cols|);
    OffsetsDelimitBlocks(n, |cols|);
    InterleaveSegment(cols, n, i);
    assert offsets[i] == i * |cols| && offsets[i + 1] == i * |cols| + |cols|;
  }
}
