/** The order of strings, and a stable sort by any order in which elements may tie. */
module Sorting {
  import opened Sequences

  // -------------------------------------------------------------------- strings

  /** Byte-wise order of strings. */
  predicate Before(a: string, b: string) {
    b != [] && (a == [] || a[0] < b[0] || (a[0] == b[0] && Before(a[1..], b[1..])))
  }

  lemma {:induction false} BeforeTransitive(a: string, b: string, c: string)
    requires Before(a, b) && Before(b, c)
    ensures Before(a, c)
  {
    if a != [] && a[0] == b[0] == c[0] {
      BeforeTransitive(a[1..], b[1..], c[1..]);
    }
  }

  lemma {:induction false} BeforeTotal(a: string, b: string)
    ensures a == b || Before(a, b) || Before(b, a)
  {
    if a != [] && b != [] && a[0] == b[0] {
      BeforeTotal(a[1..], b[1..]);
      assert a == [a[0]] + a[1..] && b == [b[0]] + b[1..];
    }
  }

  lemma {:induction false} BeforeIrreflexive(a: string)
    ensures !Before(a, a)
  {
    if a != [] {
      BeforeIrreflexive(a[1..]);
    }
  }

  lemma BeforeAsymmetric(a: string, b: string)
    requires Before(a, b)
    ensures !Before(b, a)
  {
    if Before(b, a) {
      BeforeTransitive(a, b, a);
      BeforeIrreflexive(a);
    }
  }

  /** At the first place where the two differ, `a` ends or has the smaller character. */
  ghost predicate LeadsAt(a: string, b: string, k: nat) {
    k <= |a| && k < |b| && (forall i :: 0 <= i < k ==> a[i] == b[i]) && (k < |a| ==> a[k] < b[k])
  }

  lemma {:induction false} LeadBefore(a: string, b: string, k: nat)
    requires LeadsAt(a, b, k)
    ensures Before(a, b)
  {
    if k > 0 {
      assert LeadsAt(a[1..], b[1..], k - 1);
      LeadBefore(a[1..], b[1..], k - 1);
    }
  }

  lemma {:induction false} BeforeLeads(a: string, b: string) returns (k: nat)
    requires Before(a, b)
    ensures LeadsAt(a, b, k)
  {
    k := 0;
    if a != [] && a[0] == b[0] {
      k := BeforeLeads(a[1..], b[1..]);
      assert forall i :: 0 < i <= k ==> a[i] == a[1..][i - 1] && b[i] == b[1..][i - 1];
      k := k + 1;
    }
  }

  /** Strings are ordered by the first place where they differ. */
  lemma BeforeIff(a: string, b: string)
    ensures Before(a, b) <==> exists k :: LeadsAt(a, b, k)
  {
    if Before(a, b) {
      var k := BeforeLeads(a, b);
    }
    if k: nat :| LeadsAt(a, b, k) {
      LeadBefore(a, b, k);
    }
  }

  // ----------------------------------------------------------------------- sorts

  type Less<!T> = (T, T) -> bool

  /** What is not before is behind or tied, and this is transitive. */
  ghost predicate WeakOrder<T(!new)>(less: Less<T>) {
    && (forall a, b :: less(a, b) ==> !less(b, a))
    && (forall a, b, c :: !less(b, a) && !less(c, b) ==> !less(c, a))
  }

  ghost predicate Sorted<T>(s: seq<T>, less: Less<T>) {
    forall i, j :: 0 <= i < j < |s| ==> !less(s[j], s[i])
  }

  function Insert<T>(x: T, sorted: seq<T>, less: Less<T>): seq<T> {
    if sorted == [] || !less(sorted[0], x) then [x] + sorted else [sorted[0]] + Insert(x, sorted[1..], less)
  }

  function Sort<T>(s: seq<T>, less: Less<T>): seq<T> {
    if s == [] then [] else Insert(s[0], Sort(s[1..], less), less)
  }

  lemma {:induction false} InsertKeeps<T>(x: T, sorted: seq<T>, less: Less<T>)
    ensures multiset(Insert(x, sorted, less)) == multiset([x] + sorted)
  {
    if !(sorted == [] || !less(sorted[0], x)) {
      InsertKeeps(x, sorted[1..], less);
      assert sorted == [sorted[0]] + sorted[1..];
    }
  }

  lemma Prepended<T>(x: T, rest: seq<T>, less: Less<T>)
    requires Sorted(rest, less) && forall j :: 0 <= j < |rest| ==> !less(rest[j], x)
    ensures Sorted([x] + rest, less)
  {
  }

  lemma {:induction false} InsertSorted<T(!new)>(x: T, sorted: seq<T>, less: Less<T>)
    requires WeakOrder(less) && Sorted(sorted, less)
    ensures Sorted(Insert(x, sorted, less), less)
  {
    if sorted == [] || !less(sorted[0], x) {
      forall j | 0 <= j < |sorted| ensures !less(sorted[j], x) {
        assert j > 0 ==> !less(sorted[j], sorted[0]);
      }
      Prepended(x, sorted, less);
    } else {
      var rest := Insert(x, sorted[1..], less);
      InsertSorted(x, sorted[1..], less);
      InsertKeeps(x, sorted[1..], less);
      SameMembers(rest, [x] + sorted[1..]);
      forall j | 0 <= j < |rest| ensures !less(rest[j], sorted[0]) {
        assert rest[j] in [x] + sorted[1..];
      }
      Prepended(sorted[0], rest, less);
    }
  }

  /** Sorting reorders the elements and puts them in order. */
  lemma {:induction false} SortSorts<T(!new)>(s: seq<T>, less: Less<T>)
    requires WeakOrder(less)
    ensures multiset(Sort(s, less)) == multiset(s) && Sorted(Sort(s, less), less)
  {
    if s != [] {
      SortSorts(s[1..], less);
      InsertKeeps(s[0], Sort(s[1..], less), less);
      InsertSorted(s[0], Sort(s[1..], less), less);
      assert s == [s[0]] + s[1..];
    }
  }

  // ------------------------------------------------------------------- stability

  /** `x` stands before `y` in the listing. */
  ghost predicate Listed<T>(s: seq<T>, x: T, y: T) {
    exists p, q :: 0 <= p < q < |s| && s[p] == x && s[q] == y
  }

  /** `x` is sorted before `y`: it is less, or tied and listed first. */
  ghost predicate Ahead<T>(s: seq<T>, less: Less<T>, x: T, y: T) { less(x, y) || (!less(y, x) && Listed(s, x, y)) }

  ghost predicate Stable<T>(sorted: seq<T>, s: seq<T>, less: Less<T>) {
    forall i, j :: 0 <= i < j < |sorted| ==> Ahead(s, less, sorted[i], sorted[j])
  }

  lemma PrependedStable<T>(x: T, rest: seq<T>, s: seq<T>, less: Less<T>)
    requires Stable(rest, s, less) && forall j :: 0 <= j < |rest| ==> Ahead(s, less, x, rest[j])
    ensures Stable([x] + rest, s, less)
  {
  }

  lemma {:induction false} InsertStable<T(!new)>(x: T, sorted: seq<T>, s: seq<T>, less: Less<T>)
    requires WeakOrder(less) && Sorted(sorted, less) && Stable(sorted, s, less)
    requires forall j :: 0 <= j < |sorted| ==> Listed(s, x, sorted[j])
    ensures Stable(Insert(x, sorted, less), s, less)
  {
    if sorted == [] || !less(sorted[0], x) {
      forall j | 0 <= j < |sorted| ensures !less(sorted[j], x) {
        assert j > 0 ==> !less(sorted[j], sorted[0]);
      }
      PrependedStable(x, sorted, s, less);
    } else {
      var rest := Insert(x, sorted[1..], less);
      InsertStable(x, sorted[1..], s, less);
      InsertKeeps(x, sorted[1..], less);
      SameMembers(rest, [x] + sorted[1..]);
      forall j | 0 <= j < |rest| ensures Ahead(s, less, sorted[0], rest[j]) {
        assert rest[j] in [x] + sorted[1..];
        OneOrBehind(x, sorted[1..], rest[j]);
        if rest[j] != x {
          var i :| 0 <= i < |sorted[1..]| && sorted[1..][i] == rest[j];
          assert sorted[i + 1] == rest[j];
        }
      }
      PrependedStable(sorted[0], rest, s, less);
    }
  }

  lemma OneOrBehind<T>(x: T, rest: seq<T>, y: T)
    requires y in [x] + rest
    ensures y == x || exists i :: 0 <= i < |rest| && rest[i] == y
  {
  }

  lemma ListedLater<T>(s: seq<T>, sorted: seq<T>, less: Less<T>)
    requires s != [] && Stable(sorted, s[1..], less)
    ensures Stable(sorted, s, less)
  {
    forall x, y | Listed(s[1..], x, y) ensures Listed(s, x, y) {
      var p, q :| 0 <= p < q < |s[1..]| && s[1..][p] == x && s[1..][q] == y;
      assert s[p + 1] == x && s[q + 1] == y;
    }
  }

  /** What ties stays in listing order. */
  lemma {:induction false} SortStable<T(!new)>(s: seq<T>, less: Less<T>)
    requires WeakOrder(less)
    ensures Stable(Sort(s, less), s, less)
  {
    if s != [] {
      var rest := Sort(s[1..], less);
      SortStable(s[1..], less);
      ListedLater(s, rest, less);
      SortSorts(s[1..], less);
      SameMembers(rest, s[1..]);
      forall i | 0 <= i < |rest| ensures Listed(s, s[0], rest[i]) {
        assert rest[i] in s[1..];
        var q :| 0 <= q < |s[1..]| && s[1..][q] == rest[i];
        assert s[q + 1] == rest[i];
      }
      InsertStable(s[0], rest, s, less);
    }
  }

  // ------------------------------------------------------------------ uniqueness

  /** Different elements are not tied. */
  ghost predicate Untied<T>(s: seq<T>, less: Less<T>) {
    forall i, j :: 0 <= i < |s| && 0 <= j < |s| && !less(s[i], s[j]) && !less(s[j], s[i]) ==> s[i] == s[j]
  }

  lemma SortedHeads<T>(a: seq<T>, b: seq<T>, less: Less<T>)
    requires multiset(a) == multiset(b) && Sorted(a, less) && Sorted(b, less) && Untied(a, less) && a != [] && b != []
    ensures a[0] == b[0]
  {
    SameMembers(a, b);
    assert a[0] in b && b[0] in a;
    var i :| 0 <= i < |a| && a[i] == b[0];
    var j :| 0 <= j < |b| && b[j] == a[0];
    assert i > 0 ==> !less(a[i], a[0]);
    assert j > 0 ==> !less(b[j], b[0]);
  }

  lemma TailElements<T>(s: seq<T>)
    requires s != []
    ensures multiset(s[1..]) == multiset(s) - multiset{s[0]}
  {
    assert s == [s[0]] + s[1..];
  }

  /** Without ties there is only one sorted order. */
  lemma {:induction false} SortedUnique<T>(a: seq<T>, b: seq<T>, less: Less<T>)
    requires multiset(a) == multiset(b) && Sorted(a, less) && Sorted(b, less) && Untied(a, less)
    ensures a == b
  {
    SameLength(a, b);
    if a != [] {
      SortedHeads(a, b, less);
      TailElements(a);
      TailElements(b);
      SortedUnique(a[1..], b[1..], less);
    }
  }
}
