/** src/execution/aggregate: one aggregate call, its intermediate state and the merge of two. */
module Aggregates {
  import opened Wrappers
  import opened Values
  import opened Expressions

  datatype AggType = InvalidAgg | Sum | Count | Avg | Min | Max

  /** AggCallSpec; no argument means COUNT(*). */
  datatype AggCall = AggCall(aggType: AggType, arg: Option<Expr>, resultType: DataType)

  datatype AggState = AggState(sum: real, count: int, hasValue: bool, minValue: ExecValue, maxValue: ExecValue)

  const EMPTY: AggState := AggState(0.0, 0, false, I32(0), I32(0))

  /** UpdateAggregate on one row; None is a thrown exception. */
  function Update(call: AggCall, state: AggState, row: Row): Option<AggState> {
    if call.aggType.Count? then
      if call.arg.Some? && Eval(call.arg.value, row).Err? then None
      else Some(state.(count := state.count + 1))
    else if call.arg.None? then None
    else match Eval(call.arg.value, row)
         case Err(_) => None
         case Ok(v) => Accumulate(call.aggType, state, v)
  }

  function Accumulate(t: AggType, state: AggState, v: ExecValue): Option<AggState> {
    match t
    case Sum =>
      if v.Str? then None else Some(state.(sum := state.sum + AsNumber(v), hasValue := true))
    case Avg =>
      if v.Str? then None
      else Some(state.(sum := state.sum + AsNumber(v), count := state.count + 1, hasValue := true))
    case Min =>
      if !state.hasValue then Some(state.(minValue := v, hasValue := true))
      else
        (match Compare(v, state.minValue)
         case Err(_) => None
         case Ok(c) => Some(if c < 0 then state.(minValue := v) else state))
    case Max =>
      if !state.hasValue then Some(state.(maxValue := v, hasValue := true))
      else
        (match Compare(v, state.maxValue)
         case Err(_) => None
         case Ok(c) => Some(if c > 0 then state.(maxValue := v) else state))
    case _ => None
  }

  /** CombineAggregate: `src` folded into `dst`. */
  function Combine(t: AggType, dst: AggState, src: AggState): Option<AggState> {
    var has := dst.hasValue || src.hasValue;
    match t
    case Count => Some(dst.(count := dst.count + src.count))
    case Sum => Some(dst.(sum := dst.sum + src.sum, hasValue := has))
    case Avg => Some(dst.(sum := dst.sum + src.sum, count := dst.count + src.count, hasValue := has))
    case Min =>
      if !src.hasValue then Some(dst)
      else if !dst.hasValue then Some(dst.(minValue := src.minValue, hasValue := true))
      else
        (match Compare(src.minValue, dst.minValue)
         case Err(_) => None
         case Ok(c) => Some(if c < 0 then dst.(minValue := src.minValue) else dst))
    case Max =>
      if !src.hasValue then Some(dst)
      else if !dst.hasValue then Some(dst.(maxValue := src.maxValue, hasValue := true))
      else
        (match Compare(src.maxValue, dst.maxValue)
         case Err(_) => None
         case Ok(c) => Some(if c > 0 then dst.(maxValue := src.maxValue) else dst))
    case InvalidAgg => None
  }

  /** FinalizeAggregate. */
  function Finalize(call: AggCall, state: AggState): Option<ExecValue> {
    match call.aggType
    case Count => Some(I64(state.count))
    case Sum => Some(CastNumber(state.sum, call.resultType))
    case Avg => Some(F64(if state.count == 0 then 0.0 else state.sum / state.count as real))
    case Min => Some(if state.hasValue then state.minValue else CastNumber(0.0, call.resultType))
    case Max => Some(if state.hasValue then state.maxValue else CastNumber(0.0, call.resultType))
    case InvalidAgg => None
  }

  // ---------- The order behind MIN and MAX ----------

  lemma {:induction false} StringLessTransitive(a: string, b: string, c: string)
    requires StringLess(a, b) && StringLess(b, c)
    ensures StringLess(a, c)
  {
    if a != [] && b[0] == a[0] && c[0] == b[0] {
      StringLessTransitive(a[1..], b[1..], c[1..]);
    }
  }

  lemma {:induction false} StringLessTotal(a: string, b: string)
    ensures StringLess(a, b) || StringLess(b, a) || a == b
    ensures !(StringLess(a, b) && StringLess(b, a))
    ensures a == b ==> !StringLess(a, b)
  {
    if a != [] && b != [] {
      StringLessTotal(a[1..], b[1..]);
      if a[0] == b[0] && a[1..] == b[1..] {
        assert a == [a[0]] + a[1..] == [b[0]] + b[1..] == b;
      }
    }
  }

  /** On values of one alternative, comparison is a strict total order. */
  predicate Less(a: ExecValue, b: ExecValue) {
    Compare(a, b) == Ok(-1)
  }

  lemma LessTotal(a: ExecValue, b: ExecValue)
    requires KindOf(a) == KindOf(b)
    ensures Less(a, b) || Less(b, a) || a == b
    ensures !(Less(a, b) && Less(b, a)) && !Less(a, a)
    ensures Compare(a, b).Ok? && (Compare(a, b).value < 0 <==> Less(a, b)) && (Compare(a, b).value > 0 <==> Less(b, a))
  {
    if a.Str? {
      StringLessTotal(a.s, b.s);
      StringLessTotal(a.s, a.s);
    }
  }

  lemma LessTransitive(a: ExecValue, b: ExecValue, c: ExecValue)
    requires KindOf(a) == KindOf(b) == KindOf(c)
    requires Less(a, b) && Less(b, c)
    ensures Less(a, c)
  {
    if a.Str? {
      StringLessTotal(a.s, b.s);
      StringLessTotal(b.s, c.s);
      StringLessTransitive(a.s, b.s, c.s);
    }
  }

  // ---------- Combine is a commutative monoid on the states updates reach ----------

  /** The fields the aggregate does not use still hold their initial values. */
  predicate Canonical(t: AggType, kind: Kind, s: AggState) {
    match t
    case Count => s == EMPTY.(count := s.count)
    case Sum => s == EMPTY.(sum := s.sum, hasValue := s.hasValue)
    case Avg => s == EMPTY.(sum := s.sum, count := s.count, hasValue := s.hasValue)
    case Min => if s.hasValue then s == EMPTY.(hasValue := true, minValue := s.minValue) && KindOf(s.minValue) == kind
                else s == EMPTY
    case Max => if s.hasValue then s == EMPTY.(hasValue := true, maxValue := s.maxValue) && KindOf(s.maxValue) == kind
                else s == EMPTY
    case InvalidAgg => false
  }

  lemma CombineLaws(t: AggType, kind: Kind, a: AggState, b: AggState)
    requires Canonical(t, kind, a) && Canonical(t, kind, b)
    ensures Combine(t, a, b).Some? && Canonical(t, kind, Combine(t, a, b).value)
    ensures Combine(t, a, b) == Combine(t, b, a)
    ensures Combine(t, EMPTY, a) == Some(a)
  {
    if t.Min? && a.hasValue && b.hasValue {
      LessTotal(a.minValue, b.minValue);
      LessTotal(b.minValue, a.minValue);
    }
    if t.Max? && a.hasValue && b.hasValue {
      LessTotal(a.maxValue, b.maxValue);
      LessTotal(b.maxValue, a.maxValue);
    }
  }

  /** The smaller of two values of one kind, as MIN keeps it. */
  function Smaller(a: ExecValue, b: ExecValue): ExecValue {
    if Less(b, a) then b else a
  }

  lemma SmallerAssociative(a: ExecValue, b: ExecValue, c: ExecValue)
    requires KindOf(a) == KindOf(b) == KindOf(c)
    ensures Smaller(Smaller(a, b), c) == Smaller(a, Smaller(b, c))
  {
    LessTotal(a, b);
    LessTotal(b, c);
    LessTotal(a, c);
    if Less(b, a) && Less(c, b) { LessTransitive(c, b, a); }
    if Less(a, b) && Less(b, c) { LessTransitive(a, b, c); }
  }

  function Larger(a: ExecValue, b: ExecValue): ExecValue {
    if Less(a, b) then b else a
  }

  lemma LargerAssociative(a: ExecValue, b: ExecValue, c: ExecValue)
    requires KindOf(a) == KindOf(b) == KindOf(c)
    ensures Larger(Larger(a, b), c) == Larger(a, Larger(b, c))
  {
    LessTotal(a, b);
    LessTotal(b, c);
    LessTotal(a, c);
    if Less(b, a) && Less(c, b) { LessTransitive(c, b, a); }
    if Less(a, b) && Less(b, c) { LessTransitive(a, b, c); }
  }

  lemma CombineAssociative(t: AggType, kind: Kind, a: AggState, b: AggState, c: AggState)
    requires Canonical(t, kind, a) && Canonical(t, kind, b) && Canonical(t, kind, c)
    ensures Combine(t, a, b).Some? && Combine(t, b, c).Some?
    ensures Combine(t, Combine(t, a, b).value, c) == Combine(t, a, Combine(t, b, c).value)
  {
    CombineLaws(t, kind, a, b);
    CombineLaws(t, kind, b, c);
    if t.Min? && a.hasValue && b.hasValue && c.hasValue {
      LessTotal(b.minValue, a.minValue);
      LessTotal(c.minValue, b.minValue);
      LessTotal(c.minValue, Smaller(a.minValue, b.minValue));
      LessTotal(Smaller(b.minValue, c.minValue), a.minValue);
      SmallerAssociative(a.minValue, b.minValue, c.minValue);
    }
    if t.Max? && a.hasValue && b.hasValue && c.hasValue {
      LessTotal(b.maxValue, a.maxValue);
      LessTotal(c.maxValue, b.maxValue);
      LessTotal(c.maxValue, Larger(a.maxValue, b.maxValue));
      LessTotal(Larger(b.maxValue, c.maxValue), a.maxValue);
      LargerAssociative(a.maxValue, b.maxValue, c.maxValue);
    }
  }

  // ---------- A row's own contribution ----------

  function KindOfCall(call: AggCall, schema: seq<DataType>): Kind {
    if call.arg.Some? then StaticKind(call.arg.value, schema) else KI32
  }

  /** Folding a row in is combining with what the row alone would give; both throw alike. */
  lemma UpdateIsCombine(call: AggCall, schema: seq<DataType>, state: AggState, row: Row)
    requires TypedRow(row, schema) && Canonical(call.aggType, KindOfCall(call, schema), state)
    ensures var own := Update(call, EMPTY, row);
            match own
            case None => Update(call, state, row) == None
            case Some(s) => Canonical(call.aggType, KindOfCall(call, schema), s)
                            && Update(call, state, row) == Combine(call.aggType, state, s)
  {
    if call.arg.Some? && Eval(call.arg.value, row).Ok? {
      var v := Eval(call.arg.value, row).value;
      EvalKind(call.arg.value, row, schema);
      if call.aggType.Min? && state.hasValue {
        LessTotal(v, state.minValue);
      }
      if call.aggType.Max? && state.hasValue {
        LessTotal(v, state.maxValue);
      }
    }
  }
}
