/**
  `cudf::ast::tree`: nodes pushed one after the other, whose operands are
  references to nodes pushed before, evaluated row by row.
 */
module ExpressionTrees {
  import opened Outcomes

  /** One value of a nullable column. */
  type Cell = Option<real>

  type Column = seq<Cell>

  datatype Operator = ADD | SUB | MUL {
    function On(a: real, b: real): real {
      match this
      case ADD => a + b
      case SUB => a - b
      case MUL => a * b
    }
  }

  /** A null operand makes the result null. */
  function Combine(op: Operator, a: Cell, b: Cell): Cell {
    if a.Some? && b.Some? then Some(op.On(a.value, b.value)) else None
  }

  datatype Expression =
    | Literal(value: real)
    | ColumnReference(index: nat)
    | CastToFloat64(arg: nat)
    | Operation(op: Operator, left: nat, right: nat)
  {
    /** Every operand is one of the first `n` nodes. */
    predicate Refers(n: nat) {
      match this
      case Literal(_) => true
      case ColumnReference(_) => true
      case CastToFloat64(arg) => arg < n
      case Operation(_, l, r) => l < n && r < n
    }
  }

  /** Operands come before the nodes that use them. */
  predicate BackwardOnly(nodes: seq<Expression>) {
    forall i :: 0 <= i < |nodes| ==> nodes[i].Refers(i)
  }

  function Evaluate(nodes: seq<Expression>, i: nat, row: seq<Cell>): Cell
    requires i < |nodes| && BackwardOnly(nodes)
    decreases i
  {
    match nodes[i]
    case Literal(v) => Some(v)
    case ColumnReference(k) => if k < |row| then row[k] else None
    case CastToFloat64(arg) => Evaluate(nodes, arg, row)
    case Operation(op, l, r) => Combine(op, Evaluate(nodes, l, row), Evaluate(nodes, r, row))
  }

  /** Later pushes never change what an earlier node means. */
  lemma {:induction false} EvaluateExtended(nodes: seq<Expression>, more: seq<Expression>, i: nat, row: seq<Cell>)
    requires i < |nodes| && BackwardOnly(nodes) && BackwardOnly(nodes + more)
    ensures Evaluate(nodes + more, i, row) == Evaluate(nodes, i, row)
    decreases i
  {
    assert (nodes + more)[i] == nodes[i];
    match nodes[i]
    case Literal(_) =>
    case ColumnReference(_) =>
    case CastToFloat64(arg) => EvaluateExtended(nodes, more, arg, row);
    case Operation(_, l, r) =>
      EvaluateExtended(nodes, more, l, row);
      EvaluateExtended(nodes, more, r, row);
  }

  class Tree {
    var nodes: seq<Expression>

    predicate Valid()
      reads this
    {
      BackwardOnly(nodes)
    }

    constructor ()
      ensures Valid() && nodes == []
    {
      nodes := [];
    }

    /** Appends a node and returns the reference to it. */
    method Push(e: Expression) returns (at: nat)
      requires Valid() && e.Refers(|nodes|)
      modifies this
      ensures Valid() && nodes == old(nodes) + [e] && at == |old(nodes)|
    {
      at := |nodes|;
      nodes := nodes + [e];
    }
  }

  /** One row of a table given as columns. */
  function RowAt(table: seq<Column>, r: nat): (row: seq<Cell>)
    ensures |row| == |table|
  {
    seq(|table|, c requires 0 <= c < |table| => if r < |table[c]| then table[c][r] else None)
  }

  /** Evaluates node `root` on every row. */
  function ComputeColumn(nodes: seq<Expression>, root: nat, table: seq<Column>, rows: nat): (col: Column)
    requires root < |nodes| && BackwardOnly(nodes)
    ensures |col| == rows && forall r :: 0 <= r < rows ==> col[r] == Evaluate(nodes, root, RowAt(table, r))
  {
    seq(rows, r requires 0 <= r < rows => Evaluate(nodes, root, RowAt(table, r)))
  }

  /** `cudf::binary_operation` on two columns. */
  function BinaryOperation(a: Column, b: Column, op: Operator): (col: Column)
    requires |a| == |b|
    ensures |col| == |a| && forall r :: 0 <= r < |a| ==> col[r] == Combine(op, a[r], b[r])
  {
    seq(|a|, r requires 0 <= r < |a| => Combine(op, a[r], b[r]))
  }

  /** `cudf::binary_operation` with a scalar on the right. */
  function BinaryOperationScalar(a: Column, b: real, op: Operator): (col: Column)
    ensures |col| == |a| && forall r :: 0 <= r < |a| ==> col[r] == Combine(op, a[r], Some(b))
  {
    seq(|a|, r requires 0 <= r < |a| => Combine(op, a[r], Some(b)))
  }

  /** `cudf::binary_operation` with a scalar on the left. */
  function BinaryOperationFromScalar(a: real, b: Column, op: Operator): (col: Column)
    ensures |col| == |b| && forall r :: 0 <= r < |b| ==> col[r] == Combine(op, Some(a), b[r])
  {
    seq(|b|, r requires 0 <= r < |b| => Combine(op, Some(a), b[r]))
  }
}
