/** Sums of real numbers, and how many elements have a property. */
module Totals {
  function Total(s: seq<real>): real { if s == [] then 0.0 else Total(s[..|s| - 1]) + s[|s| - 1] }

  lemma {:induction false} TotalConcat(a: seq<real>, b: seq<real>)
    ensures Total(a + b) == Total(a) + Total(b)
  {
    if b == [] {
      assert a + b == a;
    } else {
      assert (a + b)[..|a + b| - 1] == a + b[..|b| - 1];
      TotalConcat(a, b[..|b| - 1]);
    }
  }

  lemma TotalFirst(s: seq<real>)
    requires s != []
    ensures Total(s) == s[0] + Total(s[1..])
  {
    assert s == [s[0]] + s[1..] && [s[0]][..0] == [];
    TotalConcat([s[0]], s[1..]);
  }

  lemma {:induction false} ZerosTotal(s: seq<real>)
    requires forall i :: 0 <= i < |s| ==> s[i] == 0.0
    ensures Total(s) == 0.0
  {
    if s != [] {
      ZerosTotal(s[..|s| - 1]);
    }
  }

  /** The places at which `p` holds. */
  ghost function Places<T>(s: seq<T>, p: T -> bool): (at: set<nat>)
    ensures forall i: nat :: i in at <==> i < |s| && p(s[i])
  {
    set i: nat | i < |s| && p(s[i])
  }

  lemma PlacesSnoc<T>(s: seq<T>, p: T -> bool)
    requires s != []
    ensures var n := |s| - 1; |Places(s, p)| == |Places(s[..n], p)| + if p(s[n]) then 1 else 0
  {
    var n := |s| - 1;
    assert Places(s, p) == Places(s[..n], p) + if p(s[n]) then {n} else {};
  }

  lemma {:induction false} PlacesConcat<T>(a: seq<T>, b: seq<T>, p: T -> bool)
    ensures |Places(a + b, p)| == |Places(a, p)| + |Places(b, p)|
  {
    if b == [] {
      assert a + b == a && Places(b, p) == {};
    } else {
      assert (a + b)[..|a + b| - 1] == a + b[..|b| - 1];
      PlacesConcat(a, b[..|b| - 1], p);
      PlacesSnoc(a + b, p);
      PlacesSnoc(b, p);
    }
  }

  lemma PlacesFirst<T>(s: seq<T>, p: T -> bool)
    requires s != []
    ensures |Places(s, p)| == (if p(s[0]) then 1 else 0) + |Places(s[1..], p)|
  {
    assert s == [s[0]] + s[1..];
    PlacesConcat([s[0]], s[1..], p);
    assert Places([s[0]], p) == if p(s[0]) then {0} else {};
  }

  /** `r` lists the elements of `s` with `p`, each once, in order: element `i` stands behind those before it. */
  ghost predicate Picks<T>(r: seq<T>, s: seq<T>, p: T -> bool) {
    |r| == |Places(s, p)| && forall i :: 0 <= i < |s| && p(s[i]) ==> PickedAt(r, s, p, i)
  }

  ghost predicate PickedAt<T>(r: seq<T>, s: seq<T>, p: T -> bool, i: nat)
    requires i < |s|
  {
    var k := |Places(s[..i], p)|;
    k < |r| && r[k] == s[i]
  }

  lemma PicksNone<T>(p: T -> bool)
    ensures Picks([], [], p)
  {
    assert Places([], p) == {};
  }

  /** One more element in front. */
  lemma PicksFirst<T>(rest: seq<T>, s: seq<T>, p: T -> bool)
    requires s != [] && Picks(rest, s[1..], p)
    ensures Picks((if p(s[0]) then [s[0]] else []) + rest, s, p)
  {
    var r := (if p(s[0]) then [s[0]] else []) + rest;
    PlacesFirst(s, p);
    forall i | 0 <= i < |s| && p(s[i]) ensures PickedAt(r, s, p, i) {
      if i == 0 {
        assert Places(s[..0], p) == {};
      } else {
        assert PickedAt(rest, s[1..], p, i - 1);
        assert s[..i][1..] == s[1..][..i - 1];
        PlacesFirst(s[..i], p);
      }
    }
  }
}
