/**
  What the numbers of an aggregated table say about the rows themselves: the
  least and greatest temperature of a city, their total and their number.
 */
module BrcMeaning {
  import opened Sequences
  import opened Sorting
  import opened Totals
  import opened BrcTables

  /** The least element of `s`. */
  ghost predicate Least(x: real, s: seq<real>) { x in s && forall i :: 0 <= i < |s| ==> x <= s[i] }

  ghost predicate Greatest(x: real, s: seq<real>) { x in s && forall i :: 0 <= i < |s| ==> s[i] <= x }

  lemma {:induction false} FoldLeast(s: seq<real>)
    requires s != []
    ensures Least(Fold(MinOp, s), s)
  {
    if |s| > 1 {
      FoldLeast(s[1..]);
      forall i | 0 <= i < |s| ensures Fold(MinOp, s) <= s[i] {
        assert i > 0 ==> s[i] == s[1..][i - 1];
      }
    }
  }

  lemma {:induction false} FoldGreatest(s: seq<real>)
    requires s != []
    ensures Greatest(Fold(MaxOp, s), s)
  {
    if |s| > 1 {
      FoldGreatest(s[1..]);
      forall i | 0 <= i < |s| ensures s[i] <= Fold(MaxOp, s) {
        assert i > 0 ==> s[i] == s[1..][i - 1];
      }
    }
  }

  lemma {:induction false} FoldTotal(s: seq<real>)
    requires s != []
    ensures Fold(SumOp, s) == Total(s)
  {
    TotalFirst(s);
    if |s| > 1 {
      FoldTotal(s[1..]);
    }
  }

  // ------------------------------------------------------------- rows of a city

  /** The numbers of the rows of city `c`. */
  ghost function CityRows(rows: seq<Row>, c: string): set<nat> { set i: nat | i < |rows| && rows[i].city == c }

  /** The temperature of every row of city `c`, and 0 for the other rows. */
  function CityTerms(rows: seq<Row>, c: string): (terms: seq<real>)
    ensures |terms| == |rows|
    ensures forall i :: 0 <= i < |rows| ==> terms[i] == if rows[i].city == c then rows[i].temp else 0.0
  {
    seq(|rows|, i requires 0 <= i < |rows| => if rows[i].city == c then rows[i].temp else 0.0)
  }

  /** `v` is aggregation `agg` of the temperatures of city `c`, which has rows. */
  ghost predicate Aggregates(rows: seq<Row>, c: string, agg: Aggregation, v: real) {
    var at := CityRows(rows, c);
    at != {} &&
    match agg
    case Min => (exists i :: i in at && rows[i].temp == v) && forall i :: i in at ==> v <= rows[i].temp
    case Max => (exists i :: i in at && rows[i].temp == v) && forall i :: i in at ==> rows[i].temp <= v
    case Sum => v == Total(CityTerms(rows, c))
    case Count => v == |at| as real
    case Mean => IsMean(v, Total(CityTerms(rows, c)), |at|)
  }

  ghost predicate IsMean(v: real, total: real, count: nat) { count > 0 && v * count as real == total }

  /** The listed temperatures are those of the city's rows. */
  lemma {:induction false} TempsListed(rows: seq<Row>, c: string)
    ensures forall x :: x in TempsOf(rows, c) <==> exists i :: i in CityRows(rows, c) && rows[i].temp == x
  {
    if rows != [] {
      TempsListed(rows[1..], c);
      forall x ensures x in TempsOf(rows, c) <==> exists i :: i in CityRows(rows, c) && rows[i].temp == x {
        if i :| i in CityRows(rows[1..], c) && rows[1..][i].temp == x {
          assert i + 1 in CityRows(rows, c) && rows[i + 1].temp == x;
        }
        if i :| i in CityRows(rows, c) && rows[i].temp == x {
          if i > 0 {
            assert i - 1 in CityRows(rows[1..], c) && rows[1..][i - 1].temp == x;
          }
        } else if rows[0].city == c {
          assert 0 in CityRows(rows, c);
        }
      }
    }
  }

  lemma {:induction false} TempsAddUp(rows: seq<Row>, c: string)
    ensures Total(TempsOf(rows, c)) == Total(CityTerms(rows, c))
  {
    if rows != [] {
      TempsAddUp(rows[1..], c);
      TotalFirst(CityTerms(rows, c));
      assert CityTerms(rows, c)[1..] == CityTerms(rows[1..], c);
      var rest := TempsOf(rows[1..], c);
      if rows[0].city == c {
        TotalFirst([rows[0].temp] + rest);
      } else {
        assert [] + rest == rest;
      }
    }
  }

  lemma {:induction false} TempsCounted(rows: seq<Row>, c: string)
    ensures |TempsOf(rows, c)| == |CityRows(rows, c)|
  {
    if rows == [] {
      assert CityRows(rows, c) == {};
    } else {
      var here := (row: Row) => row.city == c;
      TempsCounted(rows[1..], c);
      PlacesFirst(rows, here);
      assert Places(rows, here) == CityRows(rows, c) && Places(rows[1..], here) == CityRows(rows[1..], c);
    }
  }

  lemma ExtremesAggregate(rows: seq<Row>, c: string)
    requires TempsOf(rows, c) != []
    ensures Aggregates(rows, c, Min, Fold(MinOp, TempsOf(rows, c)))
    ensures Aggregates(rows, c, Max, Fold(MaxOp, TempsOf(rows, c)))
  {
    var temps, at := TempsOf(rows, c), CityRows(rows, c);
    TempsListed(rows, c);
    FoldLeast(temps);
    FoldGreatest(temps);
    assert exists i :: i in at && rows[i].temp == Fold(MinOp, temps);
    assert exists i :: i in at && rows[i].temp == Fold(MaxOp, temps);
    forall i | i in at ensures Fold(MinOp, temps) <= rows[i].temp <= Fold(MaxOp, temps) {
      assert rows[i].temp in temps;
    }
  }

  lemma QuotientIsMean(total: real, count: nat)
    requires count > 0
    ensures IsMean(total / count as real, total, count)
  {
  }

  /** What a groupby makes of a city's temperatures aggregates the city's rows. */
  lemma ReduceAggregates(rows: seq<Row>, c: string, agg: Aggregation)
    requires TempsOf(rows, c) != []
    ensures Aggregates(rows, c, agg, Reduce(agg, TempsOf(rows, c)))
  {
    var temps := TempsOf(rows, c);
    TempsAddUp(rows, c);
    TempsCounted(rows, c);
    FoldTotal(temps);
    match agg {
      case Min => ExtremesAggregate(rows, c);
      case Max => ExtremesAggregate(rows, c);
      case Mean => QuotientIsMean(Fold(SumOp, temps), |temps|);
      case _ =>
    }
  }

  lemma MeanUnique(v: real, w: real, total: real, count: nat)
    requires IsMean(v, total, count) && IsMean(w, total, count)
    ensures v == w
  {
    var n := count as real;
    assert (v - w) * n == 0.0;
  }

  /** The rows of a city determine the aggregate. */
  lemma AggregatesUnique(rows: seq<Row>, c: string, agg: Aggregation, v: real, w: real)
    requires Aggregates(rows, c, agg, v) && Aggregates(rows, c, agg, w)
    ensures v == w
  {
    if agg == Mean {
      MeanUnique(v, w, Total(CityTerms(rows, c)), |CityRows(rows, c)|);
    }
  }

  // ------------------------------------------------------------- whole tables

  /** The cities of `rows`, each once and in order. */
  ghost predicate Lists(cities: seq<string>, rows: seq<Row>) {
    && (forall i, j :: 0 <= i < j < |cities| ==> Before(cities[i], cities[j]))
    && (forall c :: c in cities <==> CityRows(rows, c) != {})
  }

  /** Every cell of `t` aggregates the rows of its key. */
  ghost predicate Describes(t: AggTable, rows: seq<Row>, aggs: seq<Aggregation>) {
    && |t.values| == |aggs|
    && forall a :: 0 <= a < |aggs| ==>
        |t.values[a]| == |t.keys| &&
        forall i :: 0 <= i < |t.keys| ==> Aggregates(rows, t.keys[i], aggs[a], t.values[a][i])
  }

  lemma GroupTableDescribes(rows: seq<Row>, keys: seq<string>, aggs: seq<Aggregation>)
    requires AllPresent(rows, keys)
    ensures Describes(GroupTable(rows, keys, aggs), rows, aggs)
  {
    forall a, i | 0 <= a < |aggs| && 0 <= i < |keys|
      ensures Aggregates(rows, keys[i], aggs[a], GroupTable(rows, keys, aggs).values[a][i])
    {
      ReduceAggregates(rows, keys[i], aggs[a]);
    }
  }

  lemma CityHasRows(rows: seq<Row>, c: string)
    ensures HasCity(rows, c) <==> CityRows(rows, c) != {}
  {
    if i :| 0 <= i < |rows| && rows[i].city == c {
      assert i in CityRows(rows, c);
    }
  }

  /** The sorted table lists every city once, in order, and aggregates its rows. */
  lemma SortedTableDescribes(rows: seq<Row>, aggs: seq<Aggregation>)
    ensures Lists(SortedTable(rows, aggs).keys, rows)
    ensures Describes(SortedTable(rows, aggs), rows, aggs)
  {
    SortedCitiesPresent(rows);
    SortedCitiesListsCities(rows);
    forall c { CityHasRows(rows, c); }
    GroupTableDescribes(rows, SortedCities(rows), aggs);
  }

  /** There is one such list. */
  lemma ListsUnique(a: seq<string>, b: seq<string>, rows: seq<Row>)
    requires Lists(a, rows) && Lists(b, rows)
    ensures a == b
  {
    OrderedListingUnique(a, b);
  }
}
