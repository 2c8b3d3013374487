/**
  The three ways NDS-H query 9 computes `price * (1 - discount) - cost * quantity`:
  column by column, as the text of a function of a row, and as an expression tree in
  which the product is expanded because a literal may not stand on the left.
 */
module AmountEngines {
  import opened Outcomes
  import opened ExpressionTrees
  import opened SourceText
  import opened AmountText

  datatype Engine = BINARYOP | AST | TRANSFORM

  predicate SameRows(discount: Column, price: Column, cost: Column, quantity: Column) {
    |discount| == |price| == |cost| == |quantity|
  }

  function AmountColumn(discount: Column, price: Column, cost: Column, quantity: Column): (amount: Column)
    requires SameRows(discount, price, cost, quantity)
    ensures |amount| == |price|
    ensures forall r :: 0 <= r < |price| ==> amount[r] == AmountCell(discount[r], price[r], cost[r], quantity[r])
  {
    seq(|price|, r requires 0 <= r < |price| => AmountCell(discount[r], price[r], cost[r], quantity[r]))
  }

  method ComputeAmountBinaryop(discount: Column, price: Column, cost: Column, quantity: Column) returns (amount: Column)
    requires SameRows(discount, price, cost, quantity)
    ensures amount == AmountColumn(discount, price, cost, quantity)
  {
    var oneMinusDiscount := BinaryOperationFromScalar(1.0, discount, SUB);
    var discounted := BinaryOperation(price, oneMinusDiscount, MUL);
    var costs := BinaryOperation(cost, quantity, MUL);
    amount := BinaryOperation(discounted, costs, SUB);
    forall r | 0 <= r < |price| { StepwiseCells(discount[r], price[r], cost[r], quantity[r]); }
  }

  /** Compiles the text and runs it on every row. */
  method ComputeAmountTransform(discount: Column, price: Column, cost: Column, quantity: Column)
      returns (amount: Column)
    requires SameRows(discount, price, cost, quantity)
    ensures amount == AmountColumn(discount, price, cost, quantity)
  {
    amount := seq(|price|, r requires 0 <= r < |price| =>
        TransformRow(Header(), Body(), [discount[r], price[r], cost[r], quantity[r]]));
    forall r | 0 <= r < |price| { AmountRow([discount[r], price[r], cost[r], quantity[r]]); }
  }

  // ---------------------------------------------------------- the expression tree

  /** The nodes the tree holds when all pushes are done. */
  const AMOUNT_NODES: seq<Expression> := [
    ColumnReference(0), ColumnReference(1), ColumnReference(2), ColumnReference(3),
    Operation(MUL, 1, 0), Operation(SUB, 1, 4), CastToFloat64(3), Operation(MUL, 2, 6), Operation(SUB, 5, 7)]

  lemma AmountNodesBackward()
    ensures BackwardOnly(AMOUNT_NODES) && |AMOUNT_NODES| == 9
  {
  }

  lemma ExpandedPrice(p: real, d: real)
    ensures p - p * d == p * (1.0 - d)
  {
  }

  /** The expanded expression means the same. */
  lemma AmountNodesValue(row: seq<Cell>)
    requires |row| == 4
    ensures BackwardOnly(AMOUNT_NODES) && |AMOUNT_NODES| == 9
    ensures Evaluate(AMOUNT_NODES, 8, row) == AmountCell(row[0], row[1], row[2], row[3])
  {
    AmountNodesBackward();
    assert Evaluate(AMOUNT_NODES, 0, row) == row[0] && Evaluate(AMOUNT_NODES, 1, row) == row[1];
    assert Evaluate(AMOUNT_NODES, 2, row) == row[2] && Evaluate(AMOUNT_NODES, 3, row) == row[3];
    assert Evaluate(AMOUNT_NODES, 4, row) == Combine(MUL, row[1], row[0]);
    assert Evaluate(AMOUNT_NODES, 5, row) == Combine(SUB, row[1], Combine(MUL, row[1], row[0]));
    assert Evaluate(AMOUNT_NODES, 6, row) == row[3];
    assert Evaluate(AMOUNT_NODES, 7, row) == Combine(MUL, row[2], row[3]);
    ExpandedCells(row[0], row[1], row[2], row[3]);
  }

  lemma ExpandedCells(d: Cell, p: Cell, c: Cell, q: Cell)
    ensures Combine(SUB, Combine(SUB, p, Combine(MUL, p, d)), Combine(MUL, c, q)) == AmountCell(d, p, c, q)
  {
    if d.Some? && p.Some? {
      ExpandedPrice(p.value, d.value);
    }
  }

  method ComputeAmountAst(discount: Column, price: Column, cost: Column, quantity: Column) returns (amount: Column)
    requires SameRows(discount, price, cost, quantity)
    ensures amount == AmountColumn(discount, price, cost, quantity)
  {
    var tree := new Tree();
    var discountRef := tree.Push(ColumnReference(0));
    var priceRef := tree.Push(ColumnReference(1));
    var costRef := tree.Push(ColumnReference(2));
    var quantityRef := tree.Push(ColumnReference(3));
    var priceTimesDiscount := tree.Push(Operation(MUL, priceRef, discountRef));
    var discounted := tree.Push(Operation(SUB, priceRef, priceTimesDiscount));
    var quantityFloat := tree.Push(CastToFloat64(quantityRef));
    var costs := tree.Push(Operation(MUL, costRef, quantityFloat));
    var result := tree.Push(Operation(SUB, discounted, costs));
    assert tree.nodes == AMOUNT_NODES;
    amount := ComputeColumn(tree.nodes, result, [discount, price, cost, quantity], |price|);
    forall r | 0 <= r < |price| ensures amount[r] == AmountCell(discount[r], price[r], cost[r], quantity[r]) {
      var row := RowAt([discount, price, cost, quantity], r);
      AmountNodesValue(row);
      assert row == [discount[r], price[r], cost[r], quantity[r]];
    }
  }

  /** Whichever engine is chosen, the column is the same. */
  method ComputeAmount(engine: Engine, discount: Column, price: Column, cost: Column, quantity: Column)
      returns (amount: Column)
    requires SameRows(discount, price, cost, quantity)
    ensures amount == AmountColumn(discount, price, cost, quantity)
  {
    match engine
    case BINARYOP => amount := ComputeAmountBinaryop(discount, price, cost, quantity);
    case AST => amount := ComputeAmountAst(discount, price, cost, quantity);
    case TRANSFORM => amount := ComputeAmountTransform(discount, price, cost, quantity);
  }
}
