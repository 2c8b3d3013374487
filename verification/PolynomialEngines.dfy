/** The three polynomial benchmarks side by side, with their check of the order. */
module PolynomialEngines {
  import opened Outcomes
  import opened ExpressionTrees
  import opened Polynomials
  import opened SourceText
  import opened GeneratedSource

  datatype Engine = AST | BINARYOP | TRANSFORM

  function Cells(constants: seq<real>): (cells: seq<Cell>)
    ensures |cells| == |constants| && NoNulls(cells) && Values(cells) == constants
  {
    seq(|constants|, i requires 0 <= i < |constants| => Some(constants[i]))
  }

  lemma FloatIsWord()
    ensures IsWord("float")
  {
  }

  /** An order below one throws; otherwise every engine computes the polynomial. */
  method ComputePolynomial(engine: Engine, order: int, constants: seq<real>, xs: Column) returns (r: Result<Column>)
    requires order > 0 ==> |constants| == order + 1
    ensures r.Failure? <==> order <= 0
    ensures r.Success? ==> r.value == PolynomialColumn(constants, xs)
  {
    if order <= 0 {
      return Failure;
    }
    match engine
    case AST =>
      var tree := BuildTree(constants);
      r := Success(ComputeColumn(tree.nodes, |tree.nodes| - 1, [xs], |xs|));
    case BINARYOP =>
      var column := BinaryopPolynomial(xs, constants);
      r := Success(column);
    case TRANSFORM =>
      FloatIsWord();
      var column := TransformPolynomial("float", xs, Cells(constants));
      r := Success(column);
  }
}
