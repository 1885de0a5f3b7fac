/** Column statistics as they are built, and the per-segment verdict read off them. */
module ZoneMaps {
  import opened Wrappers
  import opened Values
  import opened Rounding

  datatype Stats = NoStats | MinMax(min: real, max: real)

  function Least(a: real, b: real): real { if b < a then b else a }

  function Greatest(a: real, b: real): real { if a < b then b else a }

  /** One more value in the running minimum and maximum. */
  function Widen(stats: Stats, v: real): Stats {
    match stats
    case NoStats => MinMax(v, v)
    case MinMax(lo, hi) => MinMax(Least(lo, v), Greatest(hi, v))
  }

  function StatsOf(t: DataType, data: seq<ExecValue>): Stats
    requires OfType(data, t)
  {
    if !IsNumericType(t) || data == [] then NoStats
    else Widen(StatsOf(t, data[..|data| - 1]), AsDouble(data[|data| - 1]))
  }

  predicate OfType(data: seq<ExecValue>, t: DataType) {
    forall i | 0 <= i < |data| :: HasType(data[i], t)
  }

  /** src/storage/segment/columnchunk.cpp: the column being written. */
  class ColumnBuilder {
    const dataType: DataType
    var data: seq<ExecValue>
    var rowCount: nat
    var stats: Stats

    ghost predicate Valid()
      reads this
    {
      OfType(data, dataType) && rowCount == |data| && stats == StatsOf(dataType, data)
    }

    constructor (dataType: DataType)
      ensures Valid() && this.dataType == dataType && data == []
    {
      this.dataType := dataType;
      data, rowCount, stats := [], 0, NoStats;
    }

    method Append(column: seq<ExecValue>)
      requires Valid() && OfType(column, dataType)
      modifies this
      ensures Valid() && data == old(data) + column
    {
      ghost var before := data;
      data := data + column;
      if IsNumericType(dataType) {
        var i := 0;
        assert before + column[..0] == before;
        while i < |column|
          modifies this`stats
          invariant 0 <= i <= |column|
          invariant OfType(before + column[..i], dataType)
          invariant stats == StatsOf(dataType, before + column[..i])
        {
          assert (before + column[..i + 1])[..|before| + i] == before + column[..i];
          stats := Widen(stats, AsDouble(column[i]));
          i := i + 1;
        }
        assert before + column[..i] == data;
      }
      rowCount := rowCount + |column|;
    }
  }

  /** The statistics are the two extremes of the values, each of them attained. */
  lemma {:induction false} StatsAreExtremes(t: DataType, data: seq<ExecValue>)
    requires OfType(data, t) && IsNumericType(t)
    ensures StatsOf(t, data).NoStats? <==> data == []
    ensures data != [] ==>
              var s := StatsOf(t, data);
              && (forall i | 0 <= i < |data| :: s.min <= AsDouble(data[i]) <= s.max)
              && (exists i | 0 <= i < |data| :: AsDouble(data[i]) == s.min)
              && (exists i | 0 <= i < |data| :: AsDouble(data[i]) == s.max)
  {
    if data != [] {
      var n := |data| - 1;
      var init := data[..n];
      StatsAreExtremes(t, init);
      var s := StatsOf(t, data);
      forall i | 0 <= i < |data| ensures s.min <= AsDouble(data[i]) <= s.max {
        if i < n { assert init[i] == data[i]; }
      }
      if init != [] {
        var least :| 0 <= least < n && AsDouble(init[least]) == StatsOf(t, init).min;
        var greatest :| 0 <= greatest < n && AsDouble(init[greatest]) == StatsOf(t, init).max;
        assert AsDouble(data[least]) == s.min || AsDouble(data[n]) == s.min;
        assert AsDouble(data[greatest]) == s.max || AsDouble(data[n]) == s.max;
      } else {
        assert AsDouble(data[n]) == s.min == s.max;
      }
    }
  }

  datatype SegmentMatch = Skip | AllMatch | NeedFilter

  /** EvaluateByStats in src/storage/segment/segment.cpp. */
  function EvaluateByStats(stats: Stats, op: CmpOp, literal: ExecValue): SegmentMatch {
    if stats.NoStats? || literal.Str? then NeedFilter
    else
      var value, min, max := AsDouble(literal), stats.min, stats.max;
      match op
      case EQ => if value < min || value > max then Skip
                 else if min == value && max == value then AllMatch else NeedFilter
      case NE => if min == value && max == value then Skip
                 else if value < min || value > max then AllMatch else NeedFilter
      case GT => if max <= value then Skip else if min > value then AllMatch else NeedFilter
      case GE => if max < value then Skip else if min >= value then AllMatch else NeedFilter
      case LT => if min >= value then Skip else if max < value then AllMatch else NeedFilter
      case LE => if min > value then Skip else if max <= value then AllMatch else NeedFilter
  }

  /** The verdicts are as sharp as two extremes allow: SKIP, or ALL_MATCH, just where no, or every, number between does. */
  lemma VerdictsAreSharp(min: real, max: real, op: CmpOp, literal: ExecValue)
    requires min <= max && !literal.Str?
    ensures var verdict, value := EvaluateByStats(MinMax(min, max), op, literal), AsDouble(literal);
            && (verdict.Skip? <==> forall x | min <= x <= max :: !CompareReals(op, x, value))
            && (verdict.AllMatch? <==> forall x | min <= x <= max :: CompareReals(op, x, value))
  {
    var value := AsDouble(literal);
    assert CompareReals(op, min, value) || !CompareReals(op, min, value);
    assert CompareReals(op, max, value) || !CompareReals(op, max, value);
    if min <= value <= max {
      assert CompareReals(op, value, value) || !CompareReals(op, value, value);
    }
  }

  /** What a predicate means on a stored value: exact comparison. */
  predicate Satisfies(v: ExecValue, op: CmpOp, literal: ExecValue)
    requires !v.Str? && !literal.Str?
  {
    CompareReals(op, AsNumber(v), AsNumber(literal))
  }

  predicate Plain(data: seq<ExecValue>) {
    forall i | 0 <= i < |data| :: IsPlain(data[i])
  }

  /** The verdict may be acted on: Skip loses nothing and AllMatch lets nothing through. */
  predicate Sound(verdict: SegmentMatch, data: seq<ExecValue>, op: CmpOp, literal: ExecValue)
    requires Plain(data) && IsPlain(literal)
  {
    forall i | 0 <= i < |data| ::
      && (verdict.Skip? ==> !Satisfies(data[i], op, literal))
      && (verdict.AllMatch? ==> Satisfies(data[i], op, literal))
  }

  /** An extreme value and the literal differ, but not as doubles. */
  predicate Collides(stats: Stats, data: seq<ExecValue>, literal: ExecValue)
    requires Plain(data) && IsPlain(literal) && stats.MinMax?
  {
    exists i | 0 <= i < |data| ::
      || (AsDouble(literal) == AsDouble(data[i]) == stats.max && AsNumber(data[i]) > AsNumber(literal))
      || (AsDouble(literal) == AsDouble(data[i]) == stats.min && AsNumber(data[i]) < AsNumber(literal))
  }

  lemma SoundWithoutCollision(t: DataType, data: seq<ExecValue>, op: CmpOp, literal: ExecValue)
    requires OfType(data, t) && IsNumericType(t) && Plain(data) && IsPlain(literal) && data != []
    requires StatsOf(t, data).MinMax? ==> !Collides(StatsOf(t, data), data, literal)
    ensures Sound(EvaluateByStats(StatsOf(t, data), op, literal), data, op, literal)
  {
    StatsAreExtremes(t, data);
    forall i | 0 <= i < |data|
      ensures var verdict := EvaluateByStats(StatsOf(t, data), op, literal);
              && (verdict.Skip? ==> !Satisfies(data[i], op, literal))
              && (verdict.AllMatch? ==> Satisfies(data[i], op, literal))
    {
      if AsNumber(data[i]) <= AsNumber(literal) {
        AsDoubleMonotone(data[i], literal);
      }
      if AsNumber(data[i]) >= AsNumber(literal) {
        AsDoubleMonotone(literal, data[i]);
      }
    }
  }

  lemma CollisionIsUnsound(stats: Stats, data: seq<ExecValue>, literal: ExecValue)
    requires Plain(data) && IsPlain(literal) && stats.MinMax? && Collides(stats, data, literal)
    ensures exists op :: !Sound(EvaluateByStats(stats, op, literal), data, op, literal)
  {
    var i :| 0 <= i < |data| && AsDouble(literal) == AsDouble(data[i]) &&
             ((AsDouble(data[i]) == stats.max && AsNumber(data[i]) > AsNumber(literal))
              || (AsDouble(data[i]) == stats.min && AsNumber(data[i]) < AsNumber(literal)));
    var op := if AsNumber(data[i]) > AsNumber(literal) then GT else LT;
    assert Satisfies(data[i], op, literal);
    assert !Sound(EvaluateByStats(stats, op, literal), data, op, literal);
  }

  /**
   * Exactly when the zone map of a column can be trusted with a literal, whatever the operator: no
   * extreme value of the column may differ from the literal and still be the same double.
   */
  lemma ZoneMapSoundIff(t: DataType, data: seq<ExecValue>, literal: ExecValue)
    requires OfType(data, t) && IsNumericType(t) && Plain(data) && IsPlain(literal) && data != []
    ensures StatsOf(t, data).MinMax?
    ensures (forall op :: Sound(EvaluateByStats(StatsOf(t, data), op, literal), data, op, literal))
            <==> !Collides(StatsOf(t, data), data, literal)
  {
    var stats := StatsOf(t, data);
    StatsAreExtremes(t, data);
    if Collides(stats, data, literal) {
      CollisionIsUnsound(stats, data, literal);
    } else {
      forall op ensures Sound(EvaluateByStats(stats, op, literal), data, op, literal) {
        SoundWithoutCollision(t, data, op, literal);
      }
    }
  }

  predicate Within53Bits(v: ExecValue) {
    v.F32? || v.F64? || (v.I32? && -TWO_53 <= v.i <= TWO_53) || (v.I64? && -TWO_53 <= v.l <= TWO_53)
  }

  /** What a caller can rely on: integers within 2^53 on both sides never collide. */
  lemma NoCollisionWithin53Bits(stats: Stats, data: seq<ExecValue>, literal: ExecValue)
    requires Plain(data) && IsPlain(literal) && stats.MinMax?
    requires Within53Bits(literal) && forall i | 0 <= i < |data| :: Within53Bits(data[i])
    ensures !Collides(stats, data, literal)
  {
    forall v | Within53Bits(v) ensures AsDouble(v) == AsNumber(v) {
      if v.I32? || v.I64? { ToDoubleExact(IntegerOf(v)); }
    }
  }

  /** Just above it they do: a column holding only 2^53 + 1 is skipped by `> 2^53`. */
  lemma ZoneMapLosesARow()
    ensures var data, literal := [I64(TWO_53 + 1)], I64(TWO_53);
            && OfType(data, Int64)
            && EvaluateByStats(StatsOf(Int64, data), GT, literal).Skip? && Satisfies(data[0], GT, literal)
  {
    TwoTo53PlusOneCollides();
    var data := [I64(TWO_53 + 1)];
    assert data[..0] == [];
    assert StatsOf(Int64, data) == MinMax(TWO_53 as real, TWO_53 as real);
  }
}
