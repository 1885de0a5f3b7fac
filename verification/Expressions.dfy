/** src/execution/expression/exec_expression.{h,cpp}: row-wise evaluation, the specification side. */
module Expressions {
  import opened Wrappers
  import opened Values

  datatype BinaryOp = Add | Sub | Eq | Ne | Gt | Ge | Lt | Le | And | Or

  datatype Expr =
    | ColumnRef(slot: nat, returnType: DataType)
    | Literal(value: ExecValue, returnType: DataType)
    | Binary(op: BinaryOp, left: Expr, right: Expr, returnType: DataType)

  predicate IsComparison(op: BinaryOp) {
    op.Eq? || op.Ne? || op.Gt? || op.Ge? || op.Lt? || op.Le?
  }

  function ToCmpOp(op: BinaryOp): CmpOp
    requires IsComparison(op)
  {
    match op
    case Eq => EQ
    case Ne => NE
    case Gt => GT
    case Ge => GE
    case Lt => LT
    case Le => LE
  }

  /** static_cast from a floating value to an integer: towards zero. */
  function Truncate(r: real): int {
    if r >= 0.0 then r.Floor else -(-r).Floor
  }

  /** CastNumber, on values the target type can hold. */
  function CastNumber(r: real, t: DataType): ExecValue {
    match t
    case Int32 => I32(Truncate(r))
    case Int64 => I64(Truncate(r))
    case Float => F32(r)
    case _ => F64(r)
  }

  /** ExecExpression::Eval; Err stands for a thrown exception. */
  function Eval(e: Expr, row: Row): Result<ExecValue, string>
    decreases e, 0
  {
    match e
    case ColumnRef(slot, _) => if slot < |row| then Ok(row[slot]) else Err("input slot out of range")
    case Literal(v, _) => Ok(v)
    case Binary(And, l, r, _) =>
      (match Eval(l, row)
       case Err(m) => Err(m)
       case Ok(a) => if !Truthy(a) then Ok(Bool(false)) else EvalBool(r, row))
    case Binary(Or, l, r, _) =>
      (match Eval(l, row)
       case Err(m) => Err(m)
       case Ok(a) => if Truthy(a) then Ok(Bool(true)) else EvalBool(r, row))
    case Binary(op, l, r, t) =>
      (match Eval(l, row)
       case Err(m) => Err(m)
       case Ok(a) =>
         match Eval(r, row)
         case Err(m) => Err(m)
         case Ok(b) => Operate(op, a, b, t))
  }

  function EvalBool(e: Expr, row: Row): Result<ExecValue, string>
    decreases e, 1
  {
    match Eval(e, row)
    case Err(m) => Err(m)
    case Ok(v) => Ok(Bool(Truthy(v)))
  }

  /** The comparison and arithmetic operators on two evaluated operands. */
  function Operate(op: BinaryOp, a: ExecValue, b: ExecValue, t: DataType): Result<ExecValue, string>
    requires !op.And? && !op.Or?
  {
    if IsComparison(op) then
      match Compare(a, b)
      case Err(m) => Err(m)
      case Ok(c) => Ok(Bool(Holds(ToCmpOp(op), c)))
    else if a.Str? || b.Str? then Err("string is not numeric")
    else if op.Add? then Ok(CastNumber(AsNumber(a) + AsNumber(b), t))
    else Ok(CastNumber(AsNumber(a) - AsNumber(b), t))
  }

  /** WriteExecValue into a column of this type, and reading it back. */
  function Stored(v: ExecValue, t: DataType): Result<ExecValue, string> {
    match t
    case Varchar =>
      if !v.Str? then Err("non-string value for VARCHAR output column")
      else if |v.s| > VARCHAR_INLINE_MAX then Err("VARCHAR value too long for inline slot")
      else Ok(v)
    case Invalid => Err("invalid output type")
    case _ => if v.Str? then Err("string is not numeric") else Ok(CastNumber(AsNumber(v), t))
  }

  /** What an output column holds for a row: columns pass through, everything else is evaluated and stored. */
  function Outcome(e: Expr, row: Row): Result<ExecValue, string> {
    match Eval(e, row)
    case Err(m) => Err(m)
    case Ok(v) => if e.ColumnRef? then Ok(v) else Stored(v, e.returnType)
  }

  // ---------- The alternative an expression evaluates to ----------

  datatype Kind = KI32 | KI64 | KF32 | KF64 | KStr | KBool

  function KindOf(v: ExecValue): Kind {
    match v
    case I32(_) => KI32
    case I64(_) => KI64
    case F32(_) => KF32
    case F64(_) => KF64
    case Str(_) => KStr
    case Bool(_) => KBool
  }

  function KindOfType(t: DataType): Kind {
    match t
    case Int32 => KI32
    case Int64 => KI64
    case Float => KF32
    case Varchar => KStr
    case _ => KF64
  }

  /** A row read from columns of these types. */
  predicate TypedRow(row: Row, schema: seq<DataType>) {
    |row| == |schema| && forall i | 0 <= i < |row| :: HasType(row[i], schema[i])
  }

  predicate TypedRows(rows: seq<Row>, schema: seq<DataType>) {
    forall i | 0 <= i < |rows| :: TypedRow(rows[i], schema)
  }

  function StaticKind(e: Expr, schema: seq<DataType>): Kind {
    match e
    case ColumnRef(slot, _) => if slot < |schema| then KindOfType(schema[slot]) else KF64
    case Literal(v, _) => KindOf(v)
    case Binary(op, _, _, t) =>
      if op.Add? || op.Sub? then (if t.Varchar? then KF64 else KindOfType(t)) else KBool
  }

  lemma EvalKind(e: Expr, row: Row, schema: seq<DataType>)
    requires TypedRow(row, schema) && Eval(e, row).Ok?
    ensures KindOf(Eval(e, row).value) == StaticKind(e, schema)
  {
    if e.ColumnRef? {
      assert HasType(row[e.slot], schema[e.slot]);
    }
  }

  /** Column references carry the types of the columns they name. */
  predicate TypedRefs(e: Expr, schema: seq<DataType>) {
    match e
    case ColumnRef(slot, t) => slot < |schema| && schema[slot] == t
    case Literal(_, _) => true
    case Binary(_, l, r, _) => TypedRefs(l, schema) && TypedRefs(r, schema)
  }
}
