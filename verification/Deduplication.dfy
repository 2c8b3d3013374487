/**
  The nested-type example: counts per key, a join that puts the count next to each
  row, and a sort by key. Operators that leave the order of rows open are any
  reordering of the result given here.
 */
module Deduplication {
  import opened Outcomes
  import opened Sequences
  import opened Totals
  import opened Sorting

  /** A nested value; its structure does not matter, only equality and the order of `sorted_order`. */
  type Key = seq<int>

  /** The first column, which may be null, and the others. */
  datatype Row = Row(key: Option<Key>, others: seq<int>)

  type Counted = (Row, nat)

  // ---------------------------------------------------------------- operators

  function CountOf(rows: seq<Row>, key: Key): nat {
    if rows == [] then 0 else (if rows[0].key == Some(key) then 1 else 0) + CountOf(rows[1..], key)
  }

  /** The places of the rows that have the key. */
  ghost function RowsWith(rows: seq<Row>, key: Key): set<nat> { set i: nat | i < |rows| && rows[i].key == Some(key) }

  lemma {:induction false} CountIsNumber(rows: seq<Row>, key: Key)
    ensures CountOf(rows, key) == |RowsWith(rows, key)|
  {
    if rows == [] {
      assert RowsWith(rows, key) == {};
    } else {
      var same := (r: Row) => r.key == Some(key);
      CountIsNumber(rows[1..], key);
      PlacesFirst(rows, same);
      assert Places(rows, same) == RowsWith(rows, key) && Places(rows[1..], same) == RowsWith(rows[1..], key);
    }
  }

  ghost predicate Occurs(rows: seq<Row>, key: Key) { exists i :: 0 <= i < |rows| && rows[i].key == Some(key) }

  ghost predicate HasKey(counts: seq<(Key, nat)>, key: Key) { exists i :: 0 <= i < |counts| && counts[i].0 == key }

  /** Every key of `keys` once, with its number of rows. */
  ghost predicate CountsKeys(rows: seq<Row>, counts: seq<(Key, nat)>, keys: set<Key>) {
    && (forall i, j :: 0 <= i < j < |counts| ==> counts[i].0 != counts[j].0)
    && (forall i :: 0 <= i < |counts| ==> counts[i].0 in keys && counts[i].1 == CountOf(rows, counts[i].0))
    && (forall key :: key in keys ==> HasKey(counts, key))
  }

  function KeysOf(rows: seq<Row>): (keys: set<Key>)
    ensures forall key :: key in keys <==> Occurs(rows, key)
  {
    set i | 0 <= i < |rows| && rows[i].key.Some? :: rows[i].key.value
  }

  /** A groupby with a count: one row per key that is not null, in an order left open. */
  ghost predicate IsCountTable(rows: seq<Row>, counts: seq<(Key, nat)>) { CountsKeys(rows, counts, KeysOf(rows)) }

  lemma OneMoreKey(rows: seq<Row>, counts: seq<(Key, nat)>, keys: set<Key>, key: Key)
    requires CountsKeys(rows, counts, keys) && key !in keys
    ensures CountsKeys(rows, counts + [(key, CountOf(rows, key))], keys + {key})
  {
    var more := counts + [(key, CountOf(rows, key))];
    forall k | k in keys + {key} ensures HasKey(more, k) {
      if k == key {
        assert more[|counts|].0 == key;
      } else {
        var i :| 0 <= i < |counts| && counts[i].0 == k;
        assert more[i].0 == k;
      }
    }
  }

  method CountEach(rows: seq<Row>, keys: set<Key>) returns (counts: seq<(Key, nat)>)
    ensures CountsKeys(rows, counts, keys)
  {
    var rest := keys;
    ghost var done: set<Key> := {};
    counts := [];
    while rest != {}
      invariant done + rest == keys && done !! rest
      invariant CountsKeys(rows, counts, done)
      decreases |rest|
    {
      var key :| key in rest;
      OneMoreKey(rows, counts, done, key);
      counts := counts + [(key, CountOf(rows, key))];
      done := done + {key};
      rest := rest - {key};
    }
    assert done == keys;
  }

  /** `count_aggregate` */
  method CountAggregate(rows: seq<Row>) returns (counts: seq<(Key, nat)>)
    ensures IsCountTable(rows, counts)
    ensures forall i :: 0 <= i < |counts| ==> counts[i].1 == |RowsWith(rows, counts[i].0)| > 0
    ensures forall key :: RowsWith(rows, key) != {} ==> HasKey(counts, key)
  {
    counts := CountEach(rows, KeysOf(rows));
    forall i | 0 <= i < |counts| ensures counts[i].1 == |RowsWith(rows, counts[i].0)| > 0 {
      CountIsNumber(rows, counts[i].0);
      assert Occurs(rows, counts[i].0);
      var k :| 0 <= k < |rows| && rows[k].key == Some(counts[i].0);
      assert k in RowsWith(rows, counts[i].0);
    }
    forall key | RowsWith(rows, key) != {} ensures HasKey(counts, key) {
      var k :| k in RowsWith(rows, key);
      assert Occurs(rows, key);
    }
  }

  function WithCount(r: Row): ((Key, nat)) -> Option<Counted> {
    (c: (Key, nat)) => if r.key == Some(c.0) then Some((r, c.1)) else None
  }

  function Matches(counts: seq<(Key, nat)>): Row -> seq<Counted> { (r: Row) => Collect(counts, WithCount(r)) }

  /** `join_count`: every pair of a row and a count with the same key. */
  function JoinCount(rows: seq<Row>, counts: seq<(Key, nat)>): seq<Counted> { CollectAll(rows, Matches(counts)) }

  /** A strict total order of keys. */
  ghost predicate IsOrder(less: (Key, Key) -> bool) {
    && (forall a :: !less(a, a))
    && (forall a, b :: less(a, b) || a == b || less(b, a))
    && (forall a, b, c :: less(a, b) && less(b, c) ==> less(a, c))
  }

  /** Null keys first, as `sorted_order` puts them by default. */
  function KeyBefore(less: (Key, Key) -> bool, a: Row, b: Row): bool {
    b.key.Some? && (a.key.None? || less(a.key.value, b.key.value))
  }

  ghost predicate SortedByKey(rows: seq<Counted>, less: (Key, Key) -> bool) {
    forall i, j :: 0 <= i < j < |rows| ==> !KeyBefore(less, rows[j].0, rows[i].0)
  }

  function CountedBefore(less: (Key, Key) -> bool): (Counted, Counted) -> bool {
    (a: Counted, b: Counted) => KeyBefore(less, a.0, b.0)
  }

  /** `sort_keys` */
  function SortKeys(rows: seq<Counted>, less: (Key, Key) -> bool): seq<Counted> { Sort(rows, CountedBefore(less)) }

  lemma CountedOrder(less: (Key, Key) -> bool)
    requires IsOrder(less)
    ensures WeakOrder(CountedBefore(less))
  {
    forall a, b | CountedBefore(less)(a, b) ensures !CountedBefore(less)(b, a) {
      NotBeforeAsymmetric(less, a.0, b.0);
    }
    forall a, b, c | !CountedBefore(less)(b, a) && !CountedBefore(less)(c, b) ensures !CountedBefore(less)(c, a) {
      NotBeforeTransitive(less, a.0, b.0, c.0);
    }
  }

  lemma NotBeforeTransitive(less: (Key, Key) -> bool, a: Row, b: Row, c: Row)
    requires IsOrder(less) && !KeyBefore(less, b, a) && !KeyBefore(less, c, b)
    ensures !KeyBefore(less, c, a)
  {
  }

  lemma NotBeforeAsymmetric(less: (Key, Key) -> bool, a: Row, b: Row)
    requires IsOrder(less) && KeyBefore(less, a, b)
    ensures !KeyBefore(less, b, a)
  {
  }

  lemma SortKeysSorts(rows: seq<Counted>, less: (Key, Key) -> bool)
    requires IsOrder(less)
    ensures multiset(SortKeys(rows, less)) == multiset(rows) && SortedByKey(SortKeys(rows, less), less)
  {
    CountedOrder(less);
    SortSorts(rows, CountedBefore(less));
    var sorted := SortKeys(rows, less);
    forall i, j | 0 <= i < j < |sorted| ensures !KeyBefore(less, sorted[j].0, sorted[i].0) {
      assert !CountedBefore(less)(sorted[j], sorted[i]);
    }
  }

  // ---------------------------------------------------------------- the result

  /** A row with a key, and how many rows of the input have that key. */
  function Annotate(all: seq<Row>): Row -> Option<Counted> {
    (r: Row) => if r.key.Some? then Some((r, CountOf(all, r.key.value))) else None
  }

  function Annotated(rows: seq<Row>): seq<Counted> { Collect(rows, Annotate(rows)) }

  /** Among distinct keys a row meets at most the one that is its own. */
  lemma {:induction false} NoMatch(counts: seq<(Key, nat)>, r: Row)
    requires forall i :: 0 <= i < |counts| ==> r.key != Some(counts[i].0)
    ensures Matches(counts)(r) == []
  {
    if counts != [] {
      NoMatch(counts[1..], r);
    }
  }

  lemma {:induction false} OneMatch(counts: seq<(Key, nat)>, r: Row, at: nat)
    requires forall i, j :: 0 <= i < j < |counts| ==> counts[i].0 != counts[j].0
    requires at < |counts| && r.key == Some(counts[at].0)
    ensures Matches(counts)(r) == [(r, counts[at].1)]
  {
    if at == 0 {
      NoMatch(counts[1..], r);
    } else {
      OneMatch(counts[1..], r, at - 1);
      assert counts[0].0 != counts[at].0;
    }
  }

  lemma MatchOfRow(all: seq<Row>, counts: seq<(Key, nat)>, r: Row)
    requires IsCountTable(all, counts) && (r.key.Some? ==> Occurs(all, r.key.value))
    ensures Matches(counts)(r) == match Annotate(all)(r) { case None => [] case Some(c) => [c] }
  {
    if r.key.None? {
      NoMatch(counts, r);
    } else {
      assert HasKey(counts, r.key.value);
      var at :| 0 <= at < |counts| && counts[at].0 == r.key.value;
      OneMatch(counts, r, at);
    }
  }

  /** The join loses no row that has a key and repeats none. */
  lemma {:induction false} JoinAnnotates(all: seq<Row>, rows: seq<Row>, counts: seq<(Key, nat)>)
    requires IsCountTable(all, counts)
    requires forall i :: 0 <= i < |rows| && rows[i].key.Some? ==> Occurs(all, rows[i].key.value)
    ensures JoinCount(rows, counts) == Collect(rows, Annotate(all))
  {
    if rows != [] {
      JoinAnnotates(all, rows[1..], counts);
      MatchOfRow(all, counts, rows[0]);
      assert [] + JoinCount(rows[1..], counts) == JoinCount(rows[1..], counts);
    }
  }

  /** Whatever orders the operators choose: the rows with a key, each with its count, sorted by key. */
  lemma DeduplicationResult(rows: seq<Row>, counts: seq<(Key, nat)>, joined: seq<Counted>, sorted: seq<Counted>)
    requires IsCountTable(rows, counts)
    requires multiset(joined) == multiset(JoinCount(rows, counts)) && multiset(sorted) == multiset(joined)
    ensures multiset(sorted) == multiset(Annotated(rows))
  {
    forall i | 0 <= i < |rows| && rows[i].key.Some? ensures Occurs(rows, rows[i].key.value) {}
    JoinAnnotates(rows, rows, counts);
  }

  /** How often a row with a count occurs in the result: as often as the row, if the count is its key's. */
  lemma AnnotatedCount(rows: seq<Row>, r: Row, n: nat)
    ensures multiset(Annotated(rows))[(r, n)]
         == if r.key.Some? && n == |RowsWith(rows, r.key.value)| then multiset(rows)[r] else 0
  {
    var good := r.key.Some? && n == CountOf(rows, r.key.value);
    if r.key.Some? {
      CountIsNumber(rows, r.key.value);
    }
    CollectCount(rows, Annotate(rows), (r, n), r, good);
  }

  /** Rows without a key come first, the others by key. */
  ghost predicate InKeyOrder(a: Row, b: Row, less: (Key, Key) -> bool) {
    match (a.key, b.key)
    case (None, _) => true
    case (_, None) => false
    case (Some(k), Some(l)) => !less(l, k)
  }

  /** The whole run. */
  method Deduplicate(rows: seq<Row>, less: (Key, Key) -> bool) returns (result: seq<Counted>)
    requires IsOrder(less)
    ensures multiset(result) == multiset(Annotated(rows)) && SortedByKey(result, less)
    ensures forall r, n: nat :: multiset(result)[(r, n)]
                             == if r.key.Some? && n == |RowsWith(rows, r.key.value)| then multiset(rows)[r] else 0
    ensures forall i, j :: 0 <= i < j < |result| ==> InKeyOrder(result[i].0, result[j].0, less)
  {
    forall r, n: nat ensures multiset(Annotated(rows))[(r, n)]
        == if r.key.Some? && n == |RowsWith(rows, r.key.value)| then multiset(rows)[r] else 0 {
      AnnotatedCount(rows, r, n);
    }
    var counts := CountAggregate(rows);
    var joined := JoinCount(rows, counts);
    result := SortKeys(joined, less);
    SortKeysSorts(joined, less);
    DeduplicationResult(rows, counts, joined, result);
  }
}
