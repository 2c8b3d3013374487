/**
  Facts about finite sequences that several components share: flattening a
  sequence of sequences, and peeling one element off two sequences that hold
  the same elements in different orders.
 */
module Sequences {
  import opened Outcomes

  function Flatten<T>(ss: seq<seq<T>>): (r: seq<T>) {
    if ss == [] then [] else ss[0] + Flatten(ss[1..])
  }

  lemma ConcatAssociative<T>(a: seq<T>, b: seq<T>, c: seq<T>)
    ensures a + (b + c) == (a + b) + c
  {
  }

  lemma {:induction false} FlattenConcat<T>(a: seq<seq<T>>, b: seq<seq<T>>)
    ensures Flatten(a + b) == Flatten(a) + Flatten(b)
  {
    if a == [] {
      assert a + b == b;
    } else {
      FlattenConcat(a[1..], b);
      assert (a + b)[0] == a[0] && (a + b)[1..] == a[1..] + b;
      ConcatAssociative(a[0], Flatten(a[1..]), Flatten(b));
    }
  }

  lemma FlattenSnoc<T>(ss: seq<seq<T>>, s: seq<T>)
    ensures Flatten(ss + [s]) == Flatten(ss) + s
  {
    FlattenConcat(ss, [s]);
    assert Flatten([s]) == s + Flatten<T>([]) == s;
  }

  lemma FlattenRemove<T>(ss: seq<seq<T>>, k: nat)
    requires k < |ss|
    ensures multiset(Flatten(ss)) == multiset(ss[k]) + multiset(Flatten(ss[..k] + ss[k + 1..]))
  {
    var rest := ss[k..];
    assert ss == ss[..k] + rest;
    FlattenConcat(ss[..k], rest);
    FlattenConcat(ss[..k], ss[k + 1..]);
    assert rest[0] == ss[k] && rest[1..] == ss[k + 1..];
  }

  /** Reordering the blocks reorders the elements. */
  lemma {:induction false} FlattenPermuted<T>(a: seq<seq<T>>, b: seq<seq<T>>)
    requires multiset(a) == multiset(b)
    ensures multiset(Flatten(a)) == multiset(Flatten(b))
  {
    if a == [] {
      assert |b| == |multiset(b)| == 0;
    } else {
      var k := MatchHead(a, b);
      FlattenPermuted(a[1..], b[..k] + b[k + 1..]);
      FlattenRemove(b, k);
    }
  }

  /** Adding one element to one block adds it to the whole. */
  lemma {:induction false} FlattenUpdate<T>(ss: seq<seq<T>>, t: nat, x: seq<T>)
    requires t < |ss|
    ensures multiset(Flatten(ss[t := ss[t] + x])) == multiset(Flatten(ss)) + multiset(x)
  {
    var ss' := ss[t := ss[t] + x];
    assert ss == ss[..t] + ([ss[t]] + ss[t + 1..]);
    assert ss' == ss[..t] + ([ss[t] + x] + ss[t + 1..]);
    FlattenConcat(ss[..t], [ss[t]] + ss[t + 1..]);
    FlattenConcat(ss[..t], [ss[t] + x] + ss[t + 1..]);
    assert ([ss[t]] + ss[t + 1..])[1..] == ss[t + 1..];
    assert ([ss[t] + x] + ss[t + 1..])[1..] == ss[t + 1..];
  }

  /** How many elements the first `i` blocks hold. */
  function LengthBefore<T>(ss: seq<seq<T>>, i: nat): nat
    requires i <= |ss|
  {
    if i == 0 then 0 else LengthBefore(ss, i - 1) + |ss[i - 1]|
  }

  lemma {:induction false} LengthBehindFirst<T>(ss: seq<seq<T>>, i: nat)
    requires 0 < i <= |ss|
    ensures LengthBefore(ss, i) == |ss[0]| + LengthBefore(ss[1..], i - 1)
  {
    if i > 1 {
      LengthBehindFirst(ss, i - 1);
    }
  }

  lemma {:induction false} FlattenLength<T>(ss: seq<seq<T>>)
    ensures |Flatten(ss)| == LengthBefore(ss, |ss|)
  {
    if ss != [] {
      FlattenLength(ss[1..]);
      LengthBehindFirst(ss, |ss|);
    }
  }

  /** Element `k` of block `i` stands behind the elements of the blocks before it. */
  lemma {:induction false} FlattenAt<T>(ss: seq<seq<T>>, i: nat, k: nat)
    requires i < |ss| && k < |ss[i]|
    ensures LengthBefore(ss, i) + k < |Flatten(ss)| && Flatten(ss)[LengthBefore(ss, i) + k] == ss[i][k]
  {
    if i > 0 {
      FlattenAt(ss[1..], i - 1, k);
      LengthBehindFirst(ss, i);
    }
  }

  function Empties<T>(n: nat): seq<seq<T>> { seq(n, _ => []) }

  lemma {:induction false} FlattenEmpties<T>(n: nat)
    ensures Flatten(Empties<T>(n)) == []
  {
    if n > 0 {
      FlattenEmpties<T>(n - 1);
      assert Empties<T>(n)[1..] == Empties<T>(n - 1);
    }
  }

  /** Where the first element of `a` sits in a reordering `b`. */
  lemma MatchHead<T>(a: seq<T>, b: seq<T>) returns (k: nat)
    requires a != [] && multiset(a) == multiset(b)
    ensures k < |b| && b[k] == a[0]
    ensures multiset(a[1..]) == multiset(b[..k] + b[k + 1..])
  {
    assert a[0] in multiset(a);
    assert a[0] in b;
    k :| 0 <= k < |b| && b[k] == a[0];
    RemoveOne(a, 0);
    RemoveOne(b, k);
    assert a[..0] + a[1..] == a[1..];
    assert multiset(a[1..]) == multiset(a) - multiset{a[0]};
  }

  lemma RemoveOne<T>(s: seq<T>, k: nat)
    requires k < |s|
    ensures multiset(s) == multiset(s[..k] + s[k + 1..]) + multiset{s[k]}
  {
    assert s == s[..k] + ([s[k]] + s[k + 1..]);
  }

  /** Taking the head off one block takes it off the whole. */
  lemma FlattenDropHead<T>(ss: seq<seq<T>>, t: nat)
    requires t < |ss| && ss[t] != []
    ensures multiset(Flatten(ss)) == multiset(Flatten(ss[t := ss[t][1..]])) + multiset{ss[t][0]}
  {
    var rest := ss[t := ss[t][1..]];
    FlattenRemove(ss, t);
    FlattenRemove(rest, t);
    assert rest[..t] == ss[..t] && rest[t + 1..] == ss[t + 1..];
    assert ss[t] == [ss[t][0]] + ss[t][1..];
  }

  /** Two sequences with the same elements have the same image. */
  lemma {:induction false} ImagePermuted<A, B>(a: seq<A>, b: seq<A>, f: A -> B)
    requires multiset(a) == multiset(b)
    ensures multiset(Image(a, f)) == multiset(Image(b, f))
  {
    if a == [] {
      assert |b| == |multiset(b)| == 0;
    } else {
      var k := MatchHead(a, b);
      ImagePermuted(a[1..], b[..k] + b[k + 1..], f);
      assert Image(b, f) == Image(b[..k], f) + [f(b[k])] + Image(b[k + 1..], f);
      assert Image(b[..k] + b[k + 1..], f) == Image(b[..k], f) + Image(b[k + 1..], f);
      assert Image(a, f) == [f(a[0])] + Image(a[1..], f);
    }
  }

  function Image<A, B>(s: seq<A>, f: A -> B): (r: seq<B>)
    ensures |r| == |s|
    ensures forall i :: 0 <= i < |s| ==> r[i] == f(s[i])
  {
    seq(|s|, i requires 0 <= i < |s| => f(s[i]))
  }

  function Images<A, B>(ss: seq<seq<A>>, f: A -> B): (r: seq<seq<B>>)
    ensures |r| == |ss| && forall i :: 0 <= i < |ss| ==> r[i] == Image(ss[i], f)
  {
    seq(|ss|, i requires 0 <= i < |ss| => Image(ss[i], f))
  }

  lemma {:induction false} ImageFlatten<A, B>(ss: seq<seq<A>>, f: A -> B)
    ensures Image(Flatten(ss), f) == Flatten(Images(ss, f))
  {
    if ss != [] {
      ImageFlatten(ss[1..], f);
      ImageConcat(ss[0], Flatten(ss[1..]), f);
      assert Images(ss, f)[1..] == Images(ss[1..], f);
    }
  }

  function FlattenEach<T>(sss: seq<seq<seq<T>>>): (r: seq<seq<T>>)
    ensures |r| == |sss| && forall i :: 0 <= i < |sss| ==> r[i] == Flatten(sss[i])
  {
    seq(|sss|, i requires 0 <= i < |sss| => Flatten(sss[i]))
  }

  lemma {:induction false} FlattenTwice<T>(sss: seq<seq<seq<T>>>)
    ensures Flatten(FlattenEach(sss)) == Flatten(Flatten(sss))
  {
    if sss != [] {
      FlattenTwice(sss[1..]);
      FlattenConcat(sss[0], Flatten(sss[1..]));
      assert FlattenEach(sss)[1..] == FlattenEach(sss[1..]);
    }
  }

  ghost predicate Distinct<T>(s: seq<T>) { forall i, j :: 0 <= i < j < |s| ==> s[i] != s[j] }

  /** All numbers below `n`, each once, in any order. */
  ghost predicate Enumerates(order: seq<nat>, n: nat) { Distinct(order) && forall k: nat :: k in order <==> k < n }

  lemma SameLength<T>(a: seq<T>, b: seq<T>)
    requires multiset(a) == multiset(b)
    ensures |a| == |b|
  {
    assert |multiset(a)| == |a| && |multiset(b)| == |b|;
  }

  /** A sequence of distinct elements is as long as the set it lists. */
  lemma {:induction false} DistinctCardinality<T>(s: seq<T>, xs: set<T>)
    requires Distinct(s)
    requires forall x :: x in s <==> x in xs
    ensures |s| == |xs|
  {
    if s == [] {
      assert xs == {};
    } else {
      assert s[0] in xs;
      DistinctCardinality(s[1..], xs - {s[0]});
    }
  }

  /** A listing without repeats that fits in another of the same length fills it. */
  lemma SameLengthListings<T>(a: seq<T>, b: seq<T>)
    requires Distinct(a) && Distinct(b)
    requires forall x :: x in a ==> x in b
    requires |a| == |b|
    ensures forall x :: x in b ==> x in a
  {
    var xs, ys := set x | x in a, set x | x in b;
    DistinctCardinality(a, xs);
    DistinctCardinality(b, ys);
    assert ys == xs + (ys - xs);
    assert |ys| == |xs| + |ys - xs|;
  }

  lemma CountHead<T>(s: seq<T>, x: T)
    requires s != []
    ensures multiset(s)[x] == (if s[0] == x then 1 else 0) + multiset(s[1..])[x]
  {
    assert s == [s[0]] + s[1..];
  }

  function SumBy<T>(s: seq<T>, weight: T -> nat): nat { if s == [] then 0 else weight(s[0]) + SumBy(s[1..], weight) }

  lemma {:induction false} SumByUpdated<T>(s: seq<T>, i: nat, x: T, weight: T -> nat)
    requires i < |s|
    ensures SumBy(s[i := x], weight) + weight(s[i]) == SumBy(s, weight) + weight(x)
  {
    if i == 0 {
      assert s[0 := x][1..] == s[1..];
    } else {
      assert s[i := x][1..] == s[1..][i - 1 := x];
      SumByUpdated(s[1..], i - 1, x, weight);
    }
  }

  lemma {:induction false} OccursOnce<T>(s: seq<T>, x: T)
    requires Distinct(s)
    ensures multiset(s)[x] == if x in s then 1 else 0
  {
    if s != [] {
      OccursOnce(s[1..], x);
      CountHead(s, x);
      if s[0] == x {
        assert x !in s[1..];
      }
    }
  }

  lemma SameMembers<T>(a: seq<T>, b: seq<T>)
    requires multiset(a) == multiset(b)
    ensures forall x :: x in a <==> x in b
  {
    forall x ensures x in a <==> x in b {
      assert x in a <==> x in multiset(a);
      assert x in b <==> x in multiset(b);
    }
  }

  /** Reordering distinct elements leaves them distinct. */
  lemma DistinctPermuted<T>(a: seq<T>, b: seq<T>)
    requires multiset(a) == multiset(b) && Distinct(a)
    ensures Distinct(b)
    ensures forall x :: x in a <==> x in b
  {
    SameMembers(a, b);
    forall i, j | 0 <= i < j < |b| ensures b[i] != b[j] {
      if b[i] == b[j] {
        RemoveOne(b, j);
        var rest := b[..j] + b[j + 1..];
        assert rest[i] == b[i] && b[i] in multiset(rest);
        assert multiset(a)[b[i]] >= 2;
        OccursOnce(a, b[i]);
        assert false;
      }
    }
  }

  lemma CountConcat<T>(a: seq<T>, b: seq<T>, x: T)
    ensures multiset(a + b)[x] == multiset(a)[x] + multiset(b)[x]
  {
  }

  // ------------------------------------------------- filtering and flat maps

  /** The images of the elements that have one. */
  function Collect<A, B>(s: seq<A>, f: A -> Option<B>): (r: seq<B>) {
    if s == [] then []
    else
      var rest := Collect(s[1..], f);
      match f(s[0])
      case None => rest
      case Some(y) => [y] + rest
  }

  /** The images of all elements, one after the other. */
  function CollectAll<A, B>(s: seq<A>, f: A -> seq<B>): (r: seq<B>) {
    if s == [] then [] else f(s[0]) + CollectAll(s[1..], f)
  }

  /** If only `x` can produce `y`, then `y` occurs as often as `x` did. */
  lemma {:induction false} CollectCount<A, B>(s: seq<A>, f: A -> Option<B>, y: B, x: A, good: bool)
    requires forall i :: 0 <= i < |s| ==> (f(s[i]) == Some(y) <==> good && s[i] == x)
    ensures multiset(Collect(s, f))[y] == if good then multiset(s)[x] else 0
  {
    if s != [] {
      CollectCount(s[1..], f, y, x, good);
      CountHead(s, x);
      if f(s[0]).Some? {
        CountHead(Collect(s, f), y);
        assert Collect(s, f)[1..] == Collect(s[1..], f);
      }
    }
  }

  lemma TimesSuccessor(n: nat, k: nat)
    ensures (n + 1) * k == n * k + k
  {
  }

  lemma {:induction false} CollectAllCount<A, B>(s: seq<A>, f: A -> seq<B>, y: B, x: A, k: nat, good: bool)
    requires forall i :: 0 <= i < |s| ==> multiset(f(s[i]))[y] == if good && s[i] == x then k else 0
    ensures multiset(CollectAll(s, f))[y] == if good then multiset(s)[x] * k else 0
  {
    if s != [] {
      CollectAllCount(s[1..], f, y, x, k, good);
      CountHead(s, x);
      CountConcat(f(s[0]), CollectAll(s[1..], f), y);
      TimesSuccessor(multiset(s[1..])[x], k);
    }
  }

  lemma CollectSingle<A, B>(x: A, f: A -> Option<B>)
    ensures Collect([x], f) == match f(x) { case None => [] case Some(y) => [y] }
  {
    assert [x][1..] == [];
  }

  ghost predicate Every<T>(s: seq<T>, p: T -> bool) { forall i :: 0 <= i < |s| ==> p(s[i]) }

  lemma {:induction false} EveryCollected<A, B>(s: seq<A>, f: A -> Option<B>, p: B -> bool)
    requires forall i :: 0 <= i < |s| && f(s[i]).Some? ==> p(f(s[i]).value)
    ensures Every(Collect(s, f), p)
  {
    if s != [] {
      EveryCollected(s[1..], f, p);
    }
  }

  lemma {:induction false} EveryCollectedAll<A, B>(s: seq<A>, f: A -> seq<B>, p: B -> bool)
    requires forall i :: 0 <= i < |s| ==> Every(f(s[i]), p)
    ensures Every(CollectAll(s, f), p)
  {
    if s != [] {
      EveryCollectedAll(s[1..], f, p);
    }
  }

  lemma EveryPermuted<T>(a: seq<T>, b: seq<T>, p: T -> bool)
    requires multiset(a) == multiset(b) && Every(a, p)
    ensures Every(b, p)
  {
    forall i | 0 <= i < |b| ensures p(b[i]) {
      assert b[i] in multiset(b);
      assert b[i] in a;
    }
  }

  function Lift<B, D>(o: Option<B>, g: B -> D): Option<D> {
    match o
    case None => None
    case Some(b) => Some(g(b))
  }

  /** Mapping what was collected is collecting from mapped elements. */
  lemma {:induction false} CollectMapped<A, B, C,
      D>(s: seq<A>, f: A -> Option<B>, g: B -> D, h: A -> C, k: C -> Option<D>)
    requires forall i :: 0 <= i < |s| ==> k(h(s[i])) == Lift(f(s[i]), g)
    ensures Image(Collect(s, f), g) == Collect(Image(s, h), k)
  {
    if s != [] {
      CollectMapped(s[1..], f, g, h, k);
      assert Image(s, h)[1..] == Image(s[1..], h);
      var rest := Collect(s[1..], f);
      if f(s[0]).Some? {
        assert Image([f(s[0]).value] + rest, g) == [g(f(s[0]).value)] + Image(rest, g);
      }
    }
  }

  lemma {:induction false} CollectAllMapped<A, B, C, D>(s: seq<A>, f: A -> seq<B>, g: B -> D, h: A -> C, k: C -> seq<D>)
    requires forall i :: 0 <= i < |s| ==> k(h(s[i])) == Image(f(s[i]), g)
    ensures Image(CollectAll(s, f), g) == CollectAll(Image(s, h), k)
  {
    if s != [] {
      CollectAllMapped(s[1..], f, g, h, k);
      assert Image(s, h)[1..] == Image(s[1..], h);
      ImageConcat(f(s[0]), CollectAll(s[1..], f), g);
    }
  }

  lemma ImageConcat<A, B>(a: seq<A>, b: seq<A>, f: A -> B)
    ensures Image(a + b, f) == Image(a, f) + Image(b, f)
  {
  }
}
