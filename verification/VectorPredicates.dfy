/** src/execution/expression: predicates compiled to masks, against row-wise evaluation. */
module VectorPredicates {
  import opened Wrappers
  import opened Values
  import opened Expressions
  import opened Rounding
  import opened Batches

  datatype Operand = Column(slot: nat) | Constant(value: ExecValue)

  datatype VectorPredicate =
    | NumericCompare(op: CmpOp, dataType: DataType, lhs: Operand, rhs: Operand)
    | Logical(isAnd: bool, left: VectorPredicate, right: VectorPredicate)
    | Scalar(expr: Expr)

  // ---------- Exact coercion ----------

  function DoubleToInt64Exact(d: real): Option<int> {
    if d < INT64_MIN as real || d >= (INT64_MAX + 1) as real then None
    else if d.Floor as real != d then None
    else Some(d.Floor)
  }

  function CoerceFromInt64(n: int, t: DataType): Option<ExecValue> {
    match t
    case Int32 => if INT32_MIN <= n <= INT32_MAX then Some(I32(n)) else None
    case Int64 => Some(I64(n))
    case Float => if -0x100_0000 <= n <= 0x100_0000 then Some(F32(n as real)) else None
    case Double =>
      var d := ToDouble(n);
      if INT64_MIN <= d <= INT64_MAX && d == n then Some(F64(d as real)) else None
    case _ => None
  }

  /** `isFloat` says which reals a binary32 holds exactly. */
  function CoerceFromDouble(d: real, t: DataType, isFloat: real -> bool): Option<ExecValue> {
    match t
    case Float => if isFloat(d) then Some(F32(d)) else None
    case Double => Some(F64(d))
    case Int32 =>
      (match DoubleToInt64Exact(d)
       case None => None
       case Some(n) => if INT32_MIN <= n <= INT32_MAX then Some(I32(n)) else None)
    case Int64 => (match DoubleToInt64Exact(d) case None => None case Some(n) => Some(I64(n)))
    case _ => None
  }

  function TryCoerceExact(v: ExecValue, t: DataType, isFloat: real -> bool): Option<ExecValue> {
    match v
    case I32(i) => CoerceFromInt64(i, t)
    case I64(l) => CoerceFromInt64(l, t)
    case F32(f) => CoerceFromDouble(f, t, isFloat)
    case F64(d) => CoerceFromDouble(d, t, isFloat)
    case _ => None
  }

  /** A literal that converges at all converges to the same number, in the column's own type. */
  lemma CoercionIsExact(v: ExecValue, t: DataType, isFloat: real -> bool)
    ensures TryCoerceExact(v, t, isFloat).Some? ==>
              var c := TryCoerceExact(v, t, isFloat).value;
              && !v.Str? && IsNumericType(t) && KindOf(c) == KindOfType(t) && AsNumber(c) == AsNumber(v)
  {
  }

  /** A number converges to an integer type exactly if the type has it, and to DOUBLE if a double surely is it. */
  lemma CoercionIff(v: ExecValue, t: DataType, isFloat: real -> bool)
    requires v.F32? || v.F64? || (v.I32? && HasType(v, Int32)) || (v.I64? && HasType(v, Int64))
    ensures t.Int32? || t.Int64? ==>
              (TryCoerceExact(v, t, isFloat).Some? <==> exists w :: HasType(w, t) && AsNumber(w) == AsNumber(v))
    ensures t.Double? && !v.I64? ==> TryCoerceExact(v, t, isFloat).Some?
    ensures t.Double? && v.I64? && -TWO_53 <= v.l <= TWO_53 ==> TryCoerceExact(v, t, isFloat).Some?
  {
    if v.I32? {
      ToDoubleExact(v.i);
    } else if v.I64? && -TWO_53 <= v.l <= TWO_53 {
      ToDoubleExact(v.l);
    }
    if TryCoerceExact(v, t, isFloat).Some? && (t.Int32? || t.Int64?) {
      assert HasType(TryCoerceExact(v, t, isFloat).value, t);
    }
  }

  // ---------- Compilation ----------

  function ReverseCmpOp(op: CmpOp): CmpOp {
    match op
    case LT => GT
    case LE => GE
    case GT => LT
    case GE => LE
    case _ => op
  }

  function TryCompileNumericCompare(op: CmpOp, l: Expr, r: Expr, isFloat: real -> bool): Option<VectorPredicate> {
    if l.ColumnRef? && r.ColumnRef? then
      if l.returnType != r.returnType || !IsNumericType(l.returnType) then None
      else Some(NumericCompare(op, l.returnType, Column(l.slot), Column(r.slot)))
    else if l.ColumnRef? && r.Literal? then
      if !IsNumericType(l.returnType) then None
      else
        match TryCoerceExact(r.value, l.returnType, isFloat)
        case None => None
        case Some(c) => Some(NumericCompare(op, l.returnType, Column(l.slot), Constant(c)))
    else if l.Literal? && r.ColumnRef? then
      if !IsNumericType(r.returnType) then None
      else
        match TryCoerceExact(l.value, r.returnType, isFloat)
        case None => None
        case Some(c) => Some(NumericCompare(ReverseCmpOp(op), r.returnType, Column(r.slot), Constant(c)))
    else None
  }

  function Compile(e: Expr, isFloat: real -> bool): VectorPredicate {
    match e
    case Binary(op, l, r, _) =>
      if IsComparison(op) then
        match TryCompileNumericCompare(ToCmpOp(op), l, r, isFloat)
        case Some(p) => p
        case None => Scalar(e)
      else if op.And? || op.Or? then Logical(op.And?, Compile(l, isFloat), Compile(r, isFloat))
      else Scalar(e)
    case _ => Scalar(e)
  }

  /** Row-wise evaluation that yields true. */
  predicate RowTrue(e: Expr, row: Row) {
    Eval(e, row).Ok? && Truthy(Eval(e, row).value)
  }

  function OperandValue(o: Operand, row: Row): ExecValue
    requires o.Column? ==> o.slot < |row|
  {
    match o
    case Column(slot) => row[slot]
    case Constant(v) => v
  }

  predicate Comparable(p: VectorPredicate, row: Row)
    requires p.NumericCompare?
  {
    && p.lhs.Column? && p.lhs.slot < |row| && (p.rhs.Column? ==> p.rhs.slot < |row|)
    && !OperandValue(p.lhs, row).Str? && !OperandValue(p.rhs, row).Str?
  }

  /** What the compare kernel decides on a row. */
  predicate KernelTrue(p: VectorPredicate, row: Row)
    requires p.NumericCompare? && Comparable(p, row)
  {
    CompareReals(p.op, AsNumber(OperandValue(p.lhs, row)), AsNumber(OperandValue(p.rhs, row)))
  }

  /** A comparison that compiles decides on every typed row as Eval does, which then cannot throw. */
  lemma CompareCompiles(e: Expr, isFloat: real -> bool, row: Row, schema: seq<DataType>)
    requires e.Binary? && IsComparison(e.op) && Compile(e, isFloat).NumericCompare?
    requires TypedRefs(e, schema) && TypedRow(row, schema)
    ensures Eval(e, row).Ok? && Comparable(Compile(e, isFloat), row)
    ensures RowTrue(e, row) == KernelTrue(Compile(e, isFloat), row)
  {
    var l, r := e.left, e.right;
    if l.ColumnRef? {
      assert HasType(row[l.slot], schema[l.slot]);
    }
    if r.ColumnRef? {
      assert HasType(row[r.slot], schema[r.slot]);
    }
    if r.Literal? && l.ColumnRef? {
      CoercionIsExact(r.value, l.returnType, isFloat);
    }
    if l.Literal? && r.ColumnRef? {
      CoercionIsExact(l.value, r.returnType, isFloat);
    }
  }

  // ---------- Evaluation over a mask ----------

  /** The mask of the input rows on which the expression is true. */
  ghost predicate IsResult(e: Expr, rows: seq<Row>, input: seq<bool>, output: seq<bool>)
    requires |input| == |rows|
  {
    |output| == |rows| && forall i | 0 <= i < |rows| :: output[i] == (input[i] && RowTrue(e, rows[i]))
  }

  predicate SomeThrows(e: Expr, rows: seq<Row>, input: seq<bool>)
    requires |input| == |rows|
  {
    exists i | 0 <= i < |rows| :: input[i] && Eval(e, rows[i]).Err?
  }

  method EvaluateCompare(p: VectorPredicate, ghost e: Expr, ghost isFloat: real -> bool, rows: seq<Row>,
                         ghost schema: seq<DataType>, input: seq<bool>)
    returns (output: seq<bool>)
    requires p.NumericCompare? && p == Compile(e, isFloat) && TypedRefs(e, schema) && TypedRows(rows, schema)
    requires |input| == |rows|
    ensures IsResult(e, rows, input, output) && !SomeThrows(e, rows, input)
  {
    output := MaskNone(|rows|);
    forall i | 0 <= i < |rows|
      ensures Eval(e, rows[i]).Ok? && Comparable(p, rows[i]) && RowTrue(e, rows[i]) == KernelTrue(p, rows[i])
    {
      CompareCompiles(e, isFloat, rows[i], schema);
    }
    if true !in input {
      return;
    }
    var i := 0;
    while i < |rows|
      invariant 0 <= i <= |rows| == |output|
      invariant forall j | 0 <= j < i :: output[j] == RowTrue(e, rows[j])
    {
      output := output[i := KernelTrue(p, rows[i])];
      i := i + 1;
    }
    output := MaskAnd(output, input);
  }

  method EvaluateScalar(e: Expr, rows: seq<Row>, input: seq<bool>) returns (threw: bool, output: seq<bool>)
    requires |input| == |rows|
    ensures threw <==> SomeThrows(e, rows, input)
    ensures !threw ==> IsResult(e, rows, input, output)
  {
    output := MaskNone(|rows|);
    var i := 0;
    while i < |rows|
      invariant 0 <= i <= |rows| == |output|
      invariant forall j | 0 <= j < i :: input[j] ==> Eval(e, rows[j]).Ok?
      invariant forall j | 0 <= j < |rows| :: output[j] == (j < i && input[j] && RowTrue(e, rows[j]))
    {
      if input[i] {
        var v := Eval(e, rows[i]);
        if v.Err? {
          return true, output;
        }
        output := output[i := Truthy(v.value)];
      }
      i := i + 1;
    }
    threw := false;
  }

  lemma EvalLogical(e: Expr, row: Row)
    requires e.Binary? && (e.op.And? || e.op.Or?)
    ensures Eval(e, row).Err? <==>
              Eval(e.left, row).Err? || (RowTrue(e.left, row) == e.op.And? && Eval(e.right, row).Err?)
    ensures Eval(e, row).Ok? ==>
              RowTrue(e, row) == if e.op.And? then RowTrue(e.left, row) && RowTrue(e.right, row)
                                 else RowTrue(e.left, row) || RowTrue(e.right, row)
  {
  }

  /** AND: the right side is asked only about rows the left side kept. */
  lemma AndNarrows(e: Expr, rows: seq<Row>, input: seq<bool>, left: seq<bool>)
    requires e.Binary? && e.op.And? && |input| == |rows|
    requires !SomeThrows(e.left, rows, input) && IsResult(e.left, rows, input, left)
    ensures SomeThrows(e, rows, input) <==> SomeThrows(e.right, rows, left)
    ensures !SomeThrows(e, rows, input) ==>
              forall out | IsResult(e.right, rows, left, out) :: IsResult(e, rows, input, MaskAnd(left, out))
  {
    forall i | 0 <= i < |rows| ensures input[i] && Eval(e, rows[i]).Err? <==> left[i] && Eval(e.right, rows[i]).Err? {
      EvalLogical(e, rows[i]);
    }
    forall out | IsResult(e.right, rows, left, out) && !SomeThrows(e, rows, input)
      ensures IsResult(e, rows, input, MaskAnd(left, out))
    {
      forall i | 0 <= i < |rows| ensures MaskAnd(left, out)[i] == (input[i] && RowTrue(e, rows[i])) {
        EvalLogical(e, rows[i]);
      }
    }
  }

  /** OR: the right side is asked only about rows the left side did not take. */
  lemma OrNarrows(e: Expr, rows: seq<Row>, input: seq<bool>, left: seq<bool>)
    requires e.Binary? && e.op.Or? && |input| == |rows|
    requires !SomeThrows(e.left, rows, input) && IsResult(e.left, rows, input, left)
    ensures SomeThrows(e, rows, input) <==> SomeThrows(e.right, rows, MaskAndNot(input, left))
    ensures !SomeThrows(e, rows, input) ==>
              forall out | IsResult(e.right, rows, MaskAndNot(input, left), out) ::
                IsResult(e, rows, input, MaskOr(left, out))
  {
    var rest := MaskAndNot(input, left);
    forall i | 0 <= i < |rows| ensures input[i] && Eval(e, rows[i]).Err? <==> rest[i] && Eval(e.right, rows[i]).Err? {
      EvalLogical(e, rows[i]);
    }
    forall out | IsResult(e.right, rows, rest, out) && !SomeThrows(e, rows, input)
      ensures IsResult(e, rows, input, MaskOr(left, out))
    {
      forall i | 0 <= i < |rows| ensures MaskOr(left, out)[i] == (input[i] && RowTrue(e, rows[i])) {
        EvalLogical(e, rows[i]);
      }
    }
  }

  lemma NothingLeft(e: Expr, rows: seq<Row>, input: seq<bool>, output: seq<bool>)
    requires |input| == |rows| == |output| && true !in input && forall i | 0 <= i < |output| :: !output[i]
    ensures !SomeThrows(e, rows, input) && IsResult(e, rows, input, output)
  {
    forall i | 0 <= i < |rows| ensures !input[i] {
      assert input[i] in input;
    }
  }

  /**
   * VectorPredicate::Evaluate on a compiled predicate: bit i of the result is set exactly when input bit i is
   * set and row-wise Eval of row i is true; it throws exactly when some input row's Eval throws.
   */
  method Evaluate(p: VectorPredicate, ghost e: Expr, ghost isFloat: real -> bool, rows: seq<Row>,
                  ghost schema: seq<DataType>, input: seq<bool>)
    returns (threw: bool, output: seq<bool>)
    requires p == Compile(e, isFloat) && TypedRefs(e, schema) && TypedRows(rows, schema) && |input| == |rows|
    ensures threw <==> SomeThrows(e, rows, input)
    ensures !threw ==> IsResult(e, rows, input, output)
    decreases p
  {
    output := MaskNone(|rows|);
    if true !in input {
      NothingLeft(e, rows, input, output);
      return false, output;
    }
    match p {
      case NumericCompare(_, _, _, _) =>
        output := EvaluateCompare(p, e, isFloat, rows, schema, input);
        threw := false;
      case Scalar(_) =>
        ScalarCompiles(e, isFloat);
        threw, output := EvaluateScalar(p.expr, rows, input);
      case Logical(isAnd, left, right) =>
        threw, output := EvaluateLogical(isAnd, left, right, e, isFloat, rows, schema, input);
    }
  }

  lemma ScalarCompiles(e: Expr, isFloat: real -> bool)
    requires Compile(e, isFloat).Scalar?
    ensures Compile(e, isFloat).expr == e
  {
  }

  method EvaluateLogical(isAnd: bool, left: VectorPredicate, right: VectorPredicate, ghost e: Expr,
                         ghost isFloat: real -> bool, rows: seq<Row>, ghost schema: seq<DataType>, input: seq<bool>)
    returns (threw: bool, output: seq<bool>)
    requires Logical(isAnd, left, right) == Compile(e, isFloat)
    requires TypedRefs(e, schema) && TypedRows(rows, schema) && |input| == |rows|
    ensures threw <==> SomeThrows(e, rows, input)
    ensures !threw ==> IsResult(e, rows, input, output)
    decreases Logical(isAnd, left, right), 0
  {
    LogicalCompiles(e, isFloat);
    threw, output := Evaluate(left, e.left, isFloat, rows, schema, input);
    if threw {
      LeftThrows(e, rows, input);
      return;
    }
    ghost var kept := output;
    if isAnd {
      AndNarrows(e, rows, input, kept);
      if true !in output {
        NothingLeft(e.right, rows, kept, kept);
        assert MaskAnd(kept, kept) == kept;
        return;
      }
      var rhs;
      threw, rhs := Evaluate(right, e.right, isFloat, rows, schema, output);
      if !threw {
        output := MaskAnd(output, rhs);
      }
    } else {
      OrNarrows(e, rows, input, kept);
      MaskCountDecides(output, input);
      if MaskCount(output) >= MaskCount(input) {
        var rest, none := MaskAndNot(input, kept), MaskNone(|rows|);
        NothingLeft(e.right, rows, rest, none);
        assert MaskOr(kept, none) == kept;
        return;
      }
      var rhs;
      threw, rhs := Evaluate(right, e.right, isFloat, rows, schema, MaskAndNot(input, output));
      if !threw {
        output := MaskOr(output, rhs);
      }
    }
  }

  lemma LogicalCompiles(e: Expr, isFloat: real -> bool)
    requires Compile(e, isFloat).Logical?
    ensures e.Binary? && (e.op.And? || e.op.Or?) && Compile(e, isFloat).isAnd == e.op.And?
    ensures Compile(e, isFloat).left == Compile(e.left, isFloat)
    ensures Compile(e, isFloat).right == Compile(e.right, isFloat)
  {
  }

  lemma LeftThrows(e: Expr, rows: seq<Row>, input: seq<bool>)
    requires e.Binary? && (e.op.And? || e.op.Or?) && |input| == |rows| && SomeThrows(e.left, rows, input)
    ensures SomeThrows(e, rows, input)
  {
    var i :| 0 <= i < |rows| && input[i] && Eval(e.left, rows[i]).Err?;
    EvalLogical(e, rows[i]);
  }
}
