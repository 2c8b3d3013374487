/**
  Three ways of computing c0*x^n + c1*x^(n-1) + ... + cn on a column: an
  expression tree built by pushes, a loop over whole columns, and the source
  text of a function generated as a string.
 */
module Polynomials {
  import opened Outcomes
  import opened ExpressionTrees

  // -------------------------------------------------------- the polynomial

  function Power(x: real, n: nat): real { if n == 0 then 1.0 else x * Power(x, n - 1) }

  /** The sum of `cs[i] * x^(|cs| - 1 - i)`. */
  function PowerSum(cs: seq<real>, x: real): real {
    if cs == [] then 0.0 else cs[0] * Power(x, |cs| - 1) + PowerSum(cs[1..], x)
  }

  lemma HornerStep(c: real, p: real, rest: real, x: real, last: real)
    ensures c * (x * p) + (rest * x + last) == (c * p + rest) * x + last
  {
  }

  /** One more coefficient: multiply by `x` and add it. */
  lemma {:induction false} PowerSumSnoc(cs: seq<real>, c: real, x: real)
    ensures PowerSum(cs + [c], x) == PowerSum(cs, x) * x + c
  {
    if cs == [] {
      assert cs + [c] == [c];
      assert PowerSum([c], x) == c * Power(x, 0) + PowerSum([], x);
    } else {
      PowerSumSnoc(cs[1..], c, x);
      assert (cs + [c])[1..] == cs[1..] + [c];
      HornerStep(cs[0], Power(x, |cs| - 1), PowerSum(cs[1..], x), x, c);
    }
  }

  function PolynomialCell(cs: seq<real>, x: Cell): Cell {
    if x.Some? then Some(PowerSum(cs, x.value)) else None
  }

  /** The polynomial on every row; null where `x` is null. */
  function PolynomialColumn(cs: seq<real>, xs: Column): (col: Column)
    ensures |col| == |xs| && forall r :: 0 <= r < |xs| ==> col[r] == PolynomialCell(cs, xs[r])
  {
    seq(|xs|, r requires 0 <= r < |xs| => PolynomialCell(cs, xs[r]))
  }

  /** The value after the coefficients `cs`: before the first multiplication, null in `x` has no effect. */
  function HornerCell(cs: seq<real>, x: Cell): Cell {
    if |cs| == 1 then Some(cs[0]) else PolynomialCell(cs, x)
  }

  lemma SingleCoefficient(c: real, x: real)
    ensures PowerSum([c], x) == c
  {
    assert PowerSum([c], x) == c * Power(x, 0) + PowerSum([], x);
  }

  lemma CombineStep(a: real, x: real, c: real, r: real)
    requires r == a * x + c
    ensures Combine(ADD, Combine(MUL, Some(a), Some(x)), Some(c)) == Some(r)
  {
  }

  lemma HornerCellStep(cs: seq<real>, c: real, x: Cell)
    requires cs != []
    ensures Combine(ADD, Combine(MUL, HornerCell(cs, x), x), Some(c)) == HornerCell(cs + [c], x)
  {
    if x.Some? {
      var sum := PowerSum(cs, x.value);
      SingleCoefficient(cs[0], x.value);
      assert |cs| == 1 ==> cs == [cs[0]];
      PowerSumSnoc(cs, c, x.value);
      CombineStep(sum, x.value, c, PowerSum(cs + [c], x.value));
      assert HornerCell(cs, x) == Some(sum) && x == Some(x.value);
    }
  }

  lemma Extended<T>(s: seq<T>, i: nat)
    requires i + 1 < |s|
    ensures s[..i + 2] == s[..i + 1] + [s[i + 1]]
  {
  }

  // ------------------------------------------------------ expression tree

  /** On every column, the last node computes the polynomial. */
  ghost predicate ComputesPolynomial(nodes: seq<Expression>, cs: seq<real>)
    requires nodes != [] && BackwardOnly(nodes)
  {
    forall xs: Column :: ComputeColumn(nodes, |nodes| - 1, [xs], |xs|) == PolynomialColumn(cs, xs)
  }

  /** What the last node means after the coefficients `cs` have been pushed. */
  ghost predicate MeansHorner(nodes: seq<Expression>, root: nat, cs: seq<real>) {
    && BackwardOnly(nodes) && root < |nodes| && cs != []
    && forall row: seq<Cell> :: |row| == 1 ==>
         Evaluate(nodes, root, row) == HornerCell(cs, row[0])
  }

  lemma PushedStep(before: seq<Expression>, after: seq<Expression>, cs: seq<real>, c: real)
    requires before != [] && before[0] == ColumnReference(0) && MeansHorner(before, |before| - 1, cs)
    requires after == before + [Operation(MUL, |before| - 1, 0), Literal(c), Operation(ADD, |before|, |before| + 1)]
    ensures BackwardOnly(after) && MeansHorner(after, |after| - 1, cs + [c])
  {
    var n := |before|;
    forall row: seq<Cell> | |row| == 1
      ensures Evaluate(after, n + 2, row) == HornerCell(cs + [c], row[0])
    {
      EvaluateExtended(before, after[n..], n - 1, row);
      assert before + after[n..] == after;
      assert Evaluate(after, n, row) == Combine(MUL, Evaluate(after, n - 1, row), row[0]);
      HornerCellStep(cs, c, row[0]);
    }
  }

  lemma PushedFirst(nodes: seq<Expression>, c: real)
    requires nodes == [ColumnReference(0), Literal(c)]
    ensures BackwardOnly(nodes) && MeansHorner(nodes, 1, [c])
  {
  }

  /** The pushes of one round; `tree.back()` is the last node. */
  method PushRound(tree: Tree, x: nat, c: real)
    requires tree.Valid() && x < |tree.nodes|
    modifies tree
    ensures tree.Valid()
    ensures var n := |old(tree.nodes)|;
        tree.nodes == old(tree.nodes) + [Operation(MUL, n - 1, x), Literal(c), Operation(ADD, n, n + 1)]
  {
    var product := tree.Push(Operation(MUL, |tree.nodes| - 1, x));
    var constant := tree.Push(Literal(c));
    var sum := tree.Push(Operation(ADD, product, constant));
  }

  /** The pushes of the benchmark, for any order above zero. */
  method BuildTree(constants: seq<real>) returns (tree: Tree)
    requires |constants| > 1
    ensures fresh(tree) && tree.Valid() && tree.nodes != []
    ensures ComputesPolynomial(tree.nodes, constants)
  {
    tree := new Tree();
    var x := tree.Push(ColumnReference(0));
    var first := tree.Push(Literal(constants[0]));
    PushedFirst(tree.nodes, constants[0]);
    assert constants[..1] == [constants[0]];
    for i := 0 to |constants| - 1
      invariant fresh(tree) && tree.Valid() && tree.nodes != []
      invariant tree.nodes[0] == ColumnReference(0)
      invariant MeansHorner(tree.nodes, |tree.nodes| - 1, constants[..i + 1])
    {
      ghost var before := tree.nodes;
      PushRound(tree, x, constants[i + 1]);
      Extended(constants, i);
      PushedStep(before, tree.nodes, constants[..i + 1], constants[i + 1]);
    }
    assert constants[..|constants|] == constants;
    HornerOnColumns(tree.nodes, constants);
  }

  lemma HornerOnColumns(nodes: seq<Expression>, cs: seq<real>)
    requires nodes != [] && |cs| > 1 && MeansHorner(nodes, |nodes| - 1, cs)
    ensures ComputesPolynomial(nodes, cs)
  {
    forall xs: Column ensures ComputeColumn(nodes, |nodes| - 1, [xs], |xs|) == PolynomialColumn(cs, xs) {
      forall r | 0 <= r < |xs| ensures Evaluate(nodes, |nodes| - 1, RowAt([xs], r)) == PolynomialCell(cs, xs[r]) {
        assert RowAt([xs], r)[0] == xs[r];
      }
    }
  }

  // ----------------------------------------------------------- column loop

  function ConstantColumn(c: real, rows: nat): (col: Column)
    ensures |col| == rows && forall r :: 0 <= r < rows ==> col[r] == Some(c)
  {
    seq(rows, r => Some(c))
  }

  method BinaryopPolynomial(xs: Column, constants: seq<real>) returns (result: Column)
    requires |constants| > 1
    ensures result == PolynomialColumn(constants, xs)
  {
    var intermediates: seq<Column> := [];
    result := ConstantColumn(constants[0], |xs|);
    for i := 0 to |constants| - 1
      invariant |result| == |xs| && |intermediates| == 2 * i
      invariant forall r :: 0 <= r < |xs| ==> result[r] == HornerCell(constants[..i + 1], xs[r])
    {
      var product := BinaryOperation(result, xs, MUL);
      var sum := BinaryOperationScalar(product, constants[i + 1], ADD);
      Extended(constants, i);
      forall r | 0 <= r < |xs| { HornerCellStep(constants[..i + 1], constants[i + 1], xs[r]); }
      intermediates := intermediates + [product, result];
      result := sum;
    }
    assert constants[..|constants|] == constants;
  }
}
