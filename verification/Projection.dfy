/** src/execution/projection: view, dense and sparse projection against row-wise evaluation. */
module Projection {
  import opened Wrappers
  import opened Values
  import opened Expressions
  import opened SelectionCursors
  import VectorPredicates

  // ---------- batches by column ----------

  datatype Column = Column(dataType: DataType, values: seq<ExecValue>)

  datatype ColumnBatch = ColumnBatch(columns: seq<Column>, selection: seq<bool>) {
    predicate Shaped() {
      forall c | 0 <= c < |columns| :: |columns[c].values| == |selection|
    }

    predicate Typed() {
      forall c, k | 0 <= c < |columns| && 0 <= k < |columns[c].values| ::
        HasType(columns[c].values[k], columns[c].dataType)
    }

    predicate Valid() {
      Shaped() && Typed()
    }

    function Schema(): (schema: seq<DataType>)
      ensures |schema| == |columns| && forall c | 0 <= c < |columns| :: schema[c] == columns[c].dataType
    {
      seq(|columns|, c requires 0 <= c < |columns| => columns[c].dataType)
    }

    function RowAt(k: nat): (row: Row)
      requires Shaped() && k < |selection|
      ensures |row| == |columns| && forall c | 0 <= c < |columns| :: row[c] == columns[c].values[k]
    {
      seq(|columns|, c requires 0 <= c < |columns| => columns[c].values[k])
    }

    predicate IsDense() {
      forall k | 0 <= k < |selection| :: selection[k]
    }
  }

  /** The selected row numbers, ascending. */
  function ActiveRows(selection: seq<bool>): (rows: seq<nat>)
    ensures InRange(rows, |selection|)
    ensures forall k | 0 <= k < |rows| :: selection[rows[k]]
  {
    if selection == [] then []
    else
      var n := |selection| - 1;
      var before := ActiveRows(selection[..n]);
      if selection[n] then before + [n] else before
  }

  function AllRows(n: nat): (rows: seq<nat>)
    ensures |rows| == n && InRange(rows, n) && forall k | 0 <= k < n :: rows[k] == k
  {
    seq(n, k => k)
  }

  lemma {:induction false} DenseRows(selection: seq<bool>)
    requires forall k | 0 <= k < |selection| :: selection[k]
    ensures ActiveRows(selection) == AllRows(|selection|)
  {
    if selection != [] {
      DenseRows(selection[..|selection| - 1]);
    }
  }

  // ---------- one output, row by row ----------

  predicate Computes(e: Expr, b: ColumnBatch, rows: seq<nat>, values: seq<ExecValue>)
    requires b.Shaped() && InRange(rows, |b.selection|)
  {
    |values| == |rows| && forall k | 0 <= k < |rows| :: Outcome(e, b.RowAt(rows[k])) == Ok(values[k])
  }

  predicate Throws(e: Expr, b: ColumnBatch, rows: seq<nat>)
    requires b.Shaped() && InRange(rows, |b.selection|)
  {
    exists k | 0 <= k < |rows| :: Outcome(e, b.RowAt(rows[k])).Err?
  }

  // ---------- whole-column arithmetic ----------

  datatype VectorExpression =
    VectorExpression(isAdd: bool, lhs: VectorPredicates.Operand, rhs: VectorPredicates.Operand, resultType: DataType)

  function ClassifyOperand(e: Expr, t: DataType, isFloat: real -> bool): Option<VectorPredicates.Operand> {
    match e
    case ColumnRef(slot, ct) => if ct != t then None else Some(VectorPredicates.Column(slot))
    case Literal(v, _) =>
      (match VectorPredicates.TryCoerceExact(v, t, isFloat)
       case None => None
       case Some(c) => Some(VectorPredicates.Constant(c)))
    case Binary(_, _, _, _) => None
  }

  function TryCompileVectorExpression(e: Expr, isFloat: real -> bool): Option<VectorExpression> {
    if !e.Binary? || !(e.op.Add? || e.op.Sub?) || !IsNumericType(e.returnType) then None
    else
      match ClassifyOperand(e.left, e.returnType, isFloat)
      case None => None
      case Some(l) =>
        match ClassifyOperand(e.right, e.returnType, isFloat)
        case None => None
        case Some(r) =>
          if l.Constant? && r.Constant? then None else Some(VectorExpression(e.op.Add?, l, r, e.returnType))
  }

  /** Two's complement wrap-around. */
  function Wrap(n: int, modulus: int): int
    requires modulus > 0
  {
    (n + modulus / 2) % modulus - modulus / 2
  }

  predicate OfNumericType(v: ExecValue, t: DataType) {
    IsNumericType(t) && KindOf(v) == KindOfType(t)
  }

  /** ArithmeticTypedValue: fixed-width integers wrap, floating values are exact here. */
  function TypedValue(isAdd: bool, a: ExecValue, b: ExecValue, t: DataType): ExecValue
    requires OfNumericType(a, t) && OfNumericType(b, t)
  {
    match t
    case Int32 => I32(Wrap(if isAdd then a.i + b.i else a.i - b.i, 0x1_0000_0000))
    case Int64 => I64(Wrap(if isAdd then a.l + b.l else a.l - b.l, 0x1_0000_0000_0000_0000))
    case Float => F32(if isAdd then a.f + b.f else a.f - b.f)
    case Double => F64(if isAdd then a.d + b.d else a.d - b.d)
  }

  /** The sum or difference fits the result type. */
  predicate FitsInt(isAdd: bool, a: ExecValue, b: ExecValue, t: DataType) {
    match t
    case Int32 => a.I32? && b.I32? ==> INT32_MIN <= (if isAdd then a.i + b.i else a.i - b.i) <= INT32_MAX
    case Int64 => a.I64? && b.I64? ==> INT64_MIN <= (if isAdd then a.l + b.l else a.l - b.l) <= INT64_MAX
    case _ => true
  }

  function OperandValue(o: VectorPredicates.Operand, row: Row): Option<ExecValue> {
    match o
    case Column(slot) => if slot < |row| then Some(row[slot]) else None
    case Constant(v) => Some(v)
  }

  /** The arithmetic the kernels do on this row stays within the result type. */
  predicate FitsAt(v: VectorExpression, row: Row) {
    var a, b := OperandValue(v.lhs, row), OperandValue(v.rhs, row);
    a.Some? && b.Some? ==> FitsInt(v.isAdd, a.value, b.value, v.resultType)
  }

  /** References to existing columns carry those columns' types. */
  predicate RefsMatch(e: Expr, schema: seq<DataType>) {
    match e
    case ColumnRef(slot, t) => slot < |schema| ==> schema[slot] == t
    case Literal(_, _) => true
    case Binary(_, l, r, _) => RefsMatch(l, schema) && RefsMatch(r, schema)
  }

  lemma OperandAgrees(e: Expr, t: DataType, isFloat: real -> bool, row: Row, schema: seq<DataType>)
    requires ClassifyOperand(e, t, isFloat).Some? && IsNumericType(t)
    requires RefsMatch(e, schema) && TypedRow(row, schema)
    ensures var o := OperandValue(ClassifyOperand(e, t, isFloat).value, row);
            && (o.None? <==> Eval(e, row).Err?)
            && (o.Some? ==> OfNumericType(o.value, t) && !Eval(e, row).value.Str?
                            && AsNumber(o.value) == AsNumber(Eval(e, row).value))
  {
    if e.ColumnRef? {
      if e.slot < |row| {
        assert HasType(row[e.slot], schema[e.slot]);
      }
    } else {
      VectorPredicates.CoercionIsExact(e.value, t, isFloat);
    }
  }

  lemma WrapFits(n: int, half: int)
    requires half > 0
    ensures Wrap(n, 2 * half) == n <==> -half <= n < half
  {
  }

  lemma TruncateInt(n: int, r: real)
    requires r == n as real
    ensures Truncate(r) == n
  {
  }

  /** The kernel's value is the row-wise sum or difference exactly when that fits the result type. */
  lemma KernelIsExactIff(isAdd: bool, a: ExecValue, b: ExecValue, t: DataType)
    requires OfNumericType(a, t) && OfNumericType(b, t)
    ensures var r := if isAdd then AsNumber(a) + AsNumber(b) else AsNumber(a) - AsNumber(b);
            && Stored(CastNumber(r, t), t) == Ok(CastNumber(r, t))
            && (TypedValue(isAdd, a, b, t) == CastNumber(r, t) <==> FitsInt(isAdd, a, b, t))
  {
    match t
    case Int32 =>
      var n := if isAdd then a.i + b.i else a.i - b.i;
      TruncateInt(n, n as real);
      WrapFits(n, 0x8000_0000);
    case Int64 =>
      var n := if isAdd then a.l + b.l else a.l - b.l;
      TruncateInt(n, n as real);
      WrapFits(n, 0x8000_0000_0000_0000);
    case _ =>
  }

  /** A compiled expression throws where row-wise evaluation does, and otherwise gives the stored row-wise value. */
  lemma VectorCompiles(e: Expr, isFloat: real -> bool, row: Row, schema: seq<DataType>)
    requires TryCompileVectorExpression(e, isFloat).Some? && RefsMatch(e, schema) && TypedRow(row, schema)
    requires FitsAt(TryCompileVectorExpression(e, isFloat).value, row)
    ensures var v := TryCompileVectorExpression(e, isFloat).value;
            var a, b := OperandValue(v.lhs, row), OperandValue(v.rhs, row);
            if a.None? || b.None? then Outcome(e, row).Err?
            else
              && OfNumericType(a.value, v.resultType) && OfNumericType(b.value, v.resultType)
              && Outcome(e, row) == Ok(TypedValue(v.isAdd, a.value, b.value, v.resultType))
  {
    var v := TryCompileVectorExpression(e, isFloat).value;
    OperandAgrees(e.left, v.resultType, isFloat, row, schema);
    OperandAgrees(e.right, v.resultType, isFloat, row, schema);
    var a, b := OperandValue(v.lhs, row), OperandValue(v.rhs, row);
    if a.Some? && b.Some? {
      KernelIsExactIff(v.isAdd, a.value, b.value, v.resultType);
    }
  }

  function OperandSlots(o: VectorPredicates.Operand): set<nat> {
    if o.Column? then {o.slot} else {}
  }

  /** CollectInputSlots. */
  function InputSlots(v: VectorExpression): set<nat> {
    OperandSlots(v.lhs) + OperandSlots(v.rhs)
  }

  // ---------- plans ----------

  datatype Plan = DirectColumn(slot: nat) | Vector(expression: VectorExpression) | Scalar

  function PlanOf(e: Expr, isFloat: real -> bool): Plan {
    if e.ColumnRef? then DirectColumn(e.slot)
    else match TryCompileVectorExpression(e, isFloat)
      case Some(v) => Vector(v)
      case None => Scalar
  }

  /** The input batch is well formed for these expressions, their integer arithmetic in range on the active rows. */
  predicate Projectable(es: seq<Expr>, isFloat: real -> bool, b: ColumnBatch) {
    b.Valid() && ProjectableOn(es, isFloat, b, ActiveRows(b.selection))
  }

  predicate ProjectableOn(es: seq<Expr>, isFloat: real -> bool, b: ColumnBatch, rows: seq<nat>)
    requires b.Shaped() && InRange(rows, |b.selection|)
  {
    forall c | 0 <= c < |es| ::
      && RefsMatch(es[c], b.Schema())
      && (PlanOf(es[c], isFloat).Vector? ==> ColumnInRange(PlanOf(es[c], isFloat).expression, b, rows))
  }

  predicate ColumnInRange(v: VectorExpression, b: ColumnBatch, rows: seq<nat>)
    requires b.Shaped() && InRange(rows, |b.selection|)
  {
    forall k | 0 <= k < |rows| :: FitsAt(v, b.RowAt(rows[k]))
  }

  /** The output's active rows are, column by column, the outcomes on the input's active rows. */
  predicate IsProjection(es: seq<Expr>, b: ColumnBatch, out: ColumnBatch)
    requires b.Shaped()
  {
    && out.Shaped() && |out.columns| == |es|
    && forall c | 0 <= c < |es| ::
         Computes(es[c], b, ActiveRows(b.selection), Picked(out.columns[c].values, ActiveRows(out.selection)))
  }

  predicate SomeThrows(es: seq<Expr>, b: ColumnBatch)
    requires b.Shaped()
  {
    exists c | 0 <= c < |es| :: Throws(es[c], b, ActiveRows(b.selection))
  }

  function OutputRows(b: ColumnBatch): (rows: seq<Row>)
    requires b.Shaped()
    ensures |rows| == |ActiveRows(b.selection)|
    ensures forall k | 0 <= k < |rows| :: rows[k] == b.RowAt(ActiveRows(b.selection)[k])
  {
    var active := ActiveRows(b.selection);
    seq(|active|, k requires 0 <= k < |active| => b.RowAt(active[k]))
  }

  /** Two projections of one batch, dense or sparse, are the same sequence of rows. */
  lemma ProjectionsAgree(es: seq<Expr>, b: ColumnBatch, x: ColumnBatch, y: ColumnBatch)
    requires b.Shaped() && IsProjection(es, b, x) && IsProjection(es, b, y) && es != []
    ensures OutputRows(x) == OutputRows(y)
  {
    assert Computes(es[0], b, ActiveRows(b.selection), Picked(x.columns[0].values, ActiveRows(x.selection)));
    assert Computes(es[0], b, ActiveRows(b.selection), Picked(y.columns[0].values, ActiveRows(y.selection)));
    forall k | 0 <= k < |OutputRows(x)|
      ensures OutputRows(x)[k] == OutputRows(y)[k]
    {
      forall c | 0 <= c < |es|
        ensures OutputRows(x)[k][c] == OutputRows(y)[k][c]
      {
        SameOutcome(es[c], b, ActiveRows(b.selection), Picked(x.columns[c].values, ActiveRows(x.selection)),
                    Picked(y.columns[c].values, ActiveRows(y.selection)));
      }
    }
  }

  lemma SameOutcome(e: Expr, b: ColumnBatch, rows: seq<nat>, x: seq<ExecValue>, y: seq<ExecValue>)
    requires b.Shaped() && InRange(rows, |b.selection|) && Computes(e, b, rows, x) && Computes(e, b, rows, y)
    ensures x == y
  {
    forall k | 0 <= k < |rows| ensures x[k] == y[k] {
      assert Outcome(e, b.RowAt(rows[k])) == Ok(x[k]);
    }
  }
}
