/** src/storage/scan/storage_predicate.cpp: literals bound to the column type once per scan. */
module StoragePredicates {
  import opened Wrappers
  import opened Values
  import opened Rounding
  import opened FloatRounding
  import opened ZoneMaps

  datatype Condition = Condition(column: nat, op: CmpOp, value: ExecValue)

  datatype ColumnSchema = ColumnSchema(id: nat, dataType: DataType)

  datatype BoundKind = TypedCompare | AlwaysTrue | AlwaysFalse

  datatype Prepared = Prepared(kind: BoundKind, slot: nat, dataType: DataType, op: CmpOp, value: ExecValue)

  /** What the row filter does with a prepared predicate on one value. */
  predicate Matches(p: Prepared, v: ExecValue)
    requires !v.Str? && !p.value.Str?
  {
    match p.kind
    case AlwaysTrue => true
    case AlwaysFalse => false
    case TypedCompare => Satisfies(v, p.op, p.value)
  }

  function SetIntegerConstant(lo: int, hi: int, op: CmpOp, value: int, p: Prepared): Prepared {
    if value < lo || value > hi then
      var below := value < lo;
      match op
      case EQ => p.(kind := AlwaysFalse)
      case NE => p.(kind := AlwaysTrue)
      case GT => p.(kind := if below then AlwaysTrue else AlwaysFalse)
      case GE => p.(kind := if below then AlwaysTrue else AlwaysFalse)
      case LT => p.(kind := if below then AlwaysFalse else AlwaysTrue)
      case LE => p.(kind := if below then AlwaysFalse else AlwaysTrue)
    else
      p.(kind := TypedCompare, op := op, value := if p.dataType.Int32? then I32(value) else I64(value))
  }

  function Ceiling(d: real): int {
    -((-d).Floor)
  }

  function SetIntegerDouble(lo: int, hi: int, loD: real, hiExclD: real, op: CmpOp, d: real, p: Prepared): Prepared {
    if !(d >= loD && d < hiExclD) then
      var tooBig := d >= hiExclD;
      match op
      case EQ => p.(kind := AlwaysFalse)
      case NE => p.(kind := AlwaysTrue)
      case GT => p.(kind := if tooBig then AlwaysFalse else AlwaysTrue)
      case GE => p.(kind := if tooBig then AlwaysFalse else AlwaysTrue)
      case LT => p.(kind := if tooBig then AlwaysTrue else AlwaysFalse)
      case LE => p.(kind := if tooBig then AlwaysTrue else AlwaysFalse)
    else if d.Floor as real == d then SetIntegerConstant(lo, hi, op, d.Floor, p)
    else
      match op
      case EQ => p.(kind := AlwaysFalse)
      case NE => p.(kind := AlwaysTrue)
      case GT => SetIntegerConstant(lo, hi, GT, d.Floor, p)
      case GE => SetIntegerConstant(lo, hi, GT, d.Floor, p)
      case LT => SetIntegerConstant(lo, hi, LT, Ceiling(d), p)
      case LE => SetIntegerConstant(lo, hi, LT, Ceiling(d), p)
  }

  function BindInteger(op: CmpOp, literal: ExecValue, p: Prepared): Result<Prepared, string> {
    var lo, hi := if p.dataType.Int32? then INT32_MIN else INT64_MIN, if p.dataType.Int32? then INT32_MAX else INT64_MAX;
    match literal
    case I32(v) => Ok(SetIntegerConstant(lo, hi, op, v, p))
    case I64(v) => Ok(SetIntegerConstant(lo, hi, op, v, p))
    case F64(d) => Ok(SetIntegerDouble(lo, hi, lo as real, (hi + 1) as real, op, d, p))
    case _ => Err("pushed predicate contains unsupported literal type")
  }

  function BindFloating(op: CmpOp, literal: ExecValue, p: Prepared): Result<Prepared, string> {
    if !(literal.I32? || literal.I64? || literal.F64?) then Err("pushed predicate contains unsupported literal type")
    else
      var v := AsDouble(literal);
      Ok(p.(kind := TypedCompare, op := op, value := if p.dataType.Float? then F32(ToFloat(v)) else F64(v)))
  }

  /** Index of the first occurrence at or after `from`, as std::find gives it. */
  function IndexOf(ids: seq<nat>, id: nat, from: nat): (r: Option<nat>)
    requires from <= |ids|
    ensures r.Some? ==> from <= r.value < |ids| && ids[r.value] == id
    decreases |ids| - from
  {
    if from == |ids| then None
    else if ids[from] == id then Some(from)
    else IndexOf(ids, id, from + 1)
  }

  lemma {:induction false} IndexOfFirst(ids: seq<nat>, id: nat, from: nat)
    requires from <= |ids|
    ensures forall j | from <= j < (if IndexOf(ids, id, from).Some? then IndexOf(ids, id, from).value else |ids|) ::
              ids[j] != id
    decreases |ids| - from
  {
    if from < |ids| && ids[from] != id {
      IndexOfFirst(ids, id, from + 1);
    }
  }

  lemma {:induction false} FoundIfThere(ids: seq<nat>, id: nat, from: nat)
    requires from <= |ids| && id in ids[from..]
    ensures IndexOf(ids, id, from).Some?
    decreases |ids| - from
  {
    if ids[from] != id {
      assert ids[from..] == [ids[from]] + ids[from + 1..];
      FoundIfThere(ids, id, from + 1);
    }
  }

  function Ids(schema: seq<ColumnSchema>): (r: seq<nat>)
    ensures |r| == |schema|
    ensures forall i | 0 <= i < |schema| :: r[i] == schema[i].id
  {
    seq(|schema|, i requires 0 <= i < |schema| => schema[i].id)
  }

  predicate HasColumn(schema: seq<ColumnSchema>, id: nat) {
    IndexOf(Ids(schema), id, 0).Some?
  }

  /** Where the column `id` sits in a row. */
  function ColumnIndex(schema: seq<ColumnSchema>, id: nat): (k: nat)
    requires HasColumn(schema, id)
    ensures k < |schema| && schema[k].id == id
  {
    IndexOf(Ids(schema), id, 0).value
  }

  function ColumnType(schema: seq<ColumnSchema>, id: nat): DataType {
    if HasColumn(schema, id) then schema[ColumnIndex(schema, id)].dataType else Invalid
  }

  /** One turn of the Build loop. */
  function Bind(columns: seq<nat>, schema: seq<ColumnSchema>, cond: Condition): Result<Prepared, string> {
    match IndexOf(columns, cond.column, 0)
    case None => Err("predicate column is not scanned")
    case Some(slot) =>
      var t := ColumnType(schema, cond.column);
      var p := Prepared(TypedCompare, slot, t, cond.op, I32(0));
      match t
      case Invalid => Err("pushed predicate references unknown column")
      case Int32 => BindInteger(cond.op, cond.value, p)
      case Int64 => BindInteger(cond.op, cond.value, p)
      case Float => BindFloating(cond.op, cond.value, p)
      case Double => BindFloating(cond.op, cond.value, p)
      case Varchar => Err("pushed predicate contains unsupported column type")
  }

  /** Binding fails on a column that is not scanned or not numeric, or a literal that is not a number. */
  lemma BindOkIff(columns: seq<nat>, schema: seq<ColumnSchema>, cond: Condition)
    ensures Bind(columns, schema, cond).Ok? <==>
              && IndexOf(columns, cond.column, 0).Some?
              && IsNumericType(ColumnType(schema, cond.column))
              && (cond.value.I32? || cond.value.I64? || cond.value.F64?)
  {
  }

  predicate AllBound(columns: seq<nat>, schema: seq<ColumnSchema>, conditions: seq<Condition>, prepared: seq<Prepared>) {
    |prepared| == |conditions| &&
    forall i {:trigger BoundAs(columns, schema, conditions[i], prepared[i])} | 0 <= i < |conditions| ::
      BoundAs(columns, schema, conditions[i], prepared[i])
  }

  predicate BoundAs(columns: seq<nat>, schema: seq<ColumnSchema>, cond: Condition, p: Prepared) {
    Bind(columns, schema, cond) == Ok(p)
  }

  /** PreparedScanPredicates::Build: one prepared predicate per condition, or the first condition's error. */
  method Build(columns: seq<nat>, schema: seq<ColumnSchema>, conditions: seq<Condition>)
    returns (r: Result<seq<Prepared>, string>)
    ensures r.Ok? ==> AllBound(columns, schema, conditions, r.value)
    ensures r.Err? ==> exists i | 0 <= i < |conditions| :: Bind(columns, schema, conditions[i]) == Err(r.error)
  {
    var prepared := [];
    while |prepared| < |conditions|
      invariant |prepared| <= |conditions|
      invariant AllBound(columns, schema, conditions[..|prepared|], prepared)
    {
      match Bind(columns, schema, conditions[|prepared|]) {
        case Err(e) => return Err(e);
        case Ok(p) => prepared := prepared + [p];
      }
    }
    assert conditions[..|prepared|] == conditions;
    r := Ok(prepared);
  }

  // ---------- Binding preserves meaning ----------

  predicate InRange(v: ExecValue, t: DataType) {
    (t.Int32? || t.Int64?) && HasType(v, t)
  }

  lemma IntegerConstantExact(lo: int, hi: int, op: CmpOp, value: int, p: Prepared, v: ExecValue)
    requires InRange(v, p.dataType) && !p.value.Str?
    requires lo == (if p.dataType.Int32? then INT32_MIN else INT64_MIN)
    requires hi == (if p.dataType.Int32? then INT32_MAX else INT64_MAX)
    ensures !SetIntegerConstant(lo, hi, op, value, p).value.Str?
    ensures Matches(SetIntegerConstant(lo, hi, op, value, p), v) == CompareReals(op, AsNumber(v), value as real)
  {
  }

  lemma FloorAndCeiling(n: int, d: real)
    requires d.Floor as real != d
    ensures n as real > d <==> n > d.Floor
    ensures n as real < d <==> n < Ceiling(d)
    ensures n as real != d
  {
  }

  /**
   * The literal rewriting is exact: for every value the integer column can hold, every operator and every
   * numeric literal, the prepared predicate decides as exact comparison does. Strings are refused.
   */
  lemma IntegerBindingExact(op: CmpOp, literal: ExecValue, p: Prepared, v: ExecValue)
    requires InRange(v, p.dataType) && !p.value.Str?
    ensures BindInteger(op, literal, p).Ok? <==> literal.I32? || literal.I64? || literal.F64?
    ensures BindInteger(op, literal, p).Ok? ==>
              var q := BindInteger(op, literal, p).value;
              !q.value.Str? && q.slot == p.slot && q.dataType == p.dataType
              && Matches(q, v) == Satisfies(v, op, literal)
  {
    var lo, hi := if p.dataType.Int32? then INT32_MIN else INT64_MIN, if p.dataType.Int32? then INT32_MAX else INT64_MAX;
    if literal.F64? {
      var d := literal.d;
      if d >= lo as real && d < (hi + 1) as real {
        IntegerConstantExact(lo, hi, op, d.Floor, p, v);
        if d.Floor as real != d {
          FloorAndCeiling(IntegerOf(v), d);
          IntegerConstantExact(lo, hi, GT, d.Floor, p, v);
          IntegerConstantExact(lo, hi, LT, Ceiling(d), p, v);
        }
      }
    } else if literal.I32? || literal.I64? {
      IntegerConstantExact(lo, hi, op, IntegerOf(literal), p, v);
    }
  }

  /** On a DOUBLE column binding is exact just when the literal is a double to begin with. */
  lemma DoubleBindingExactIff(literal: ExecValue, p: Prepared)
    requires p.dataType.Double? && (literal.I32? || literal.I64? || literal.F64?)
    ensures forall op :: BindFloating(op, literal, p).Ok?
    ensures (forall op, d: real ::
               Matches(BindFloating(op, literal, p).value, F64(d)) == Satisfies(F64(d), op, literal))
            <==> AsDouble(literal) == AsNumber(literal)
  {
    var d := AsDouble(literal);
    if d != AsNumber(literal) {
      assert Matches(BindFloating(EQ, literal, p).value, F64(d)) != Satisfies(F64(d), EQ, literal);
    }
  }

  /**
   * On a FLOAT column it is exact, for everything such a column can hold, just when narrowing leaves the literal
   * alone or takes it out of the range of floats.
   */
  lemma FloatBindingExactIff(literal: ExecValue, p: Prepared)
    requires p.dataType.Float? && (literal.I32? || literal.I64? || literal.F64?)
    requires AsDouble(literal) == AsNumber(literal)
    ensures forall op :: BindFloating(op, literal, p).Ok?
    ensures (forall op, f: real | IsFloat(f) ::
               Matches(BindFloating(op, literal, p).value, F32(f)) == Satisfies(F32(f), op, literal))
            <==> ToFloat(AsNumber(literal)) == AsNumber(literal) || !IsFinite(ToFloat(AsNumber(literal)))
  {
    var l, f := AsNumber(literal), ToFloat(AsNumber(literal));
    if f != l && IsFinite(f) {
      ToFloatStays(l);
      assert Matches(BindFloating(EQ, literal, p).value, F32(f)) != Satisfies(F32(f), EQ, literal);
    }
    if !IsFinite(f) {
      forall op, v: real | IsFloat(v)
        ensures Matches(BindFloating(op, literal, p).value, F32(v)) == Satisfies(F32(v), op, literal)
      {
        if v <= l { ToFloatMonotone(v, l); }
        if v >= l { ToFloatMonotone(l, v); }
      }
    }
  }

  /** Which column of the batch is read does not matter to what is decided. */
  lemma SlotFree(columns: seq<nat>, schema: seq<ColumnSchema>, cond: Condition)
    requires Bind(columns, schema, cond).Ok?
    ensures var p := Bind(columns, schema, cond).value;
            && p.slot < |columns| && columns[p.slot] == cond.column
            && Bind([cond.column], schema, cond) == Ok(p.(slot := 0))
  {
  }
}
