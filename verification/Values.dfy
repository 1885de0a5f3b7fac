/** Scalar values, their types and the row-wise comparison they share. */
module Values {
  import opened Wrappers

  datatype DataType = Invalid | Int32 | Int64 | Float | Double | Varchar

  datatype CmpOp = EQ | NE | GT | GE | LT | LE

  /** ExecValue: FLOAT and DOUBLE payloads are exact reals (no NaN, no rounding). */
  datatype ExecValue =
    | I32(i: int)
    | I64(l: int)
    | F32(f: real)
    | F64(d: real)
    | Str(s: string)
    | Bool(b: bool)

  type Row = seq<ExecValue>

  /** Characters an inline VARCHAR slot holds. */
  const VARCHAR_INLINE_MAX: nat := 60

  const INT32_MIN: int := -0x8000_0000
  const INT32_MAX: int := 0x7FFF_FFFF
  const INT64_MIN: int := -0x8000_0000_0000_0000
  const INT64_MAX: int := 0x7FFF_FFFF_FFFF_FFFF

  predicate IsNumericType(t: DataType) {
    t.Int32? || t.Int64? || t.Float? || t.Double?
  }

  /** The variant alternative a column of type `t` is read into, within its range. */
  predicate HasType(v: ExecValue, t: DataType) {
    match t
    case Int32 => v.I32? && INT32_MIN <= v.i <= INT32_MAX
    case Int64 => v.I64? && INT64_MIN <= v.l <= INT64_MAX
    case Float => v.F32?
    case Double => v.F64?
    case Varchar => v.Str?
    case Invalid => false
  }

  /** ExecValueAsNumber; strings throw there, so callers rule them out. */
  function AsNumber(v: ExecValue): (r: real)
    requires !v.Str?
  {
    match v
    case I32(i) => i as real
    case I64(l) => l as real
    case F32(f) => f
    case F64(d) => d
    case Bool(b) => if b then 1.0 else 0.0
  }

  /** ExecValueAsBool: bool as is, strings by emptiness, numbers by non-zero. */
  predicate Truthy(v: ExecValue) {
    match v
    case Bool(b) => b
    case Str(s) => s != []
    case _ => AsNumber(v) != 0.0
  }

  /** std::string operator<: lexicographic on characters. */
  predicate StringLess(a: string, b: string) {
    if b == [] then false
    else if a == [] then true
    else if a[0] != b[0] then a[0] < b[0]
    else StringLess(a[1..], b[1..])
  }

  /** CompareExecValues: Err when exactly one side is a string (the source throws). */
  function Compare(a: ExecValue, b: ExecValue): (r: Result<int, string>)
    ensures r.Ok? <==> a.Str? == b.Str?
    ensures r.Ok? ==> -1 <= r.value <= 1
  {
    if a.Str? != b.Str? then Err("cannot compare string with numeric value")
    else if a.Str? then
      Ok(if StringLess(a.s, b.s) then -1 else if StringLess(b.s, a.s) then 1 else 0)
    else
      var x, y := AsNumber(a), AsNumber(b);
      Ok(if x < y then -1 else if x > y then 1 else 0)
  }

  /** How a comparison operator reads the three-way result. */
  predicate Holds(op: CmpOp, c: int) {
    match op
    case EQ => c == 0
    case NE => c != 0
    case GT => c > 0
    case GE => c >= 0
    case LT => c < 0
    case LE => c <= 0
  }

  /** Exact comparison of two numbers; what every numeric path has to agree with. */
  predicate CompareReals(op: CmpOp, x: real, y: real) {
    match op
    case EQ => x == y
    case NE => x != y
    case GT => x > y
    case GE => x >= y
    case LT => x < y
    case LE => x <= y
  }
}
