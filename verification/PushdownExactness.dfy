/** What a pushed condition decides in storage, against what the same comparison decides in a filter. */
module PushdownExactness {
  import opened Wrappers
  import opened Values
  import opened Expressions
  import opened Rounding
  import opened FloatRounding
  import opened ZoneMaps
  import opened StoragePredicates
  import opened StorageScan
  import opened TableScan
  import opened Optimizer
  import opened OptimizerProofs

  /** Column ids are positions, as the catalog numbers them. */
  predicate Positional(schema: seq<ColumnSchema>) {
    forall i | 0 <= i < |schema| :: schema[i].id == i
  }

  lemma PositionalIndex(schema: seq<ColumnSchema>, c: nat)
    requires Positional(schema)
    ensures HasColumn(schema, c) <==> c < |schema|
    ensures c < |schema| ==> ColumnIndex(schema, c) == c
  {
    if c < |schema| {
      assert Ids(schema)[c] == c && Ids(schema)[0..] == Ids(schema);
      FoundIfThere(Ids(schema), c, 0);
    }
  }

  function Types(schema: seq<ColumnSchema>): (types: seq<DataType>)
    ensures |types| == |schema| && forall i | 0 <= i < |schema| :: types[i] == schema[i].dataType
  {
    seq(|schema|, i requires 0 <= i < |schema| => schema[i].dataType)
  }

  lemma SameRows(schema: seq<ColumnSchema>, rows: seq<Row>)
    ensures RowsOf(schema, rows) <==> TypedRows(rows, Types(schema))
  {
    forall r | 0 <= r < |rows| ensures RowOf(schema, rows[r]) <==> TypedRow(rows[r], Types(schema)) {
    }
  }

  /** What the optimizer pushes: a literal is an INT32 or a DOUBLE, the operator one of three. */
  predicate PushedForm(schema: seq<ColumnSchema>, c: Condition) {
    && c.column < |schema| && IsNumericType(schema[c.column].dataType)
    && (c.op.EQ? || c.op.GT? || c.op.LT?)
    && PushedLiteral(c.value)
  }

  predicate PushedLiteral(v: ExecValue) {
    (v.I32? && INT32_MIN <= v.i <= INT32_MAX) || (v.F64? && IsDouble(v.d))
  }

  lemma LiteralIsDouble(v: ExecValue)
    requires PushedLiteral(v)
    ensures IsPlain(v) && AsDouble(v) == AsNumber(v)
  {
    if v.I32? { ToDoubleExact(v.i); }
  }

  // ---------- Which values are misread ----------

  /**
   * By column type, extremes and literal. On INT64 the extreme that decides the verdict rounds to the literal and
   * the value is not the literal; on FLOAT the literal is narrowed to another value, this one, and lies within the
   * extremes.
   */
  predicate MisreadValue(t: DataType, stats: Stats, op: CmpOp, literal: ExecValue, v: ExecValue)
    requires !literal.Str? && !v.Str?
  {
    var l := AsNumber(literal);
    stats.MinMax? &&
    match t
    case Int64 =>
      (match op
       case GT => stats.max == l < AsNumber(v)
       case LT => AsNumber(v) < l == stats.min
       case _ => stats.min == l == stats.max && AsNumber(v) != l)
    case Float =>
      var narrowed := ToFloat(l);
      AsNumber(v) == narrowed &&
      (match op
       case GT => stats.min <= l < narrowed
       case LT => narrowed < l <= stats.max
       case _ => narrowed != l && stats.min <= l <= stats.max)
    case _ => false
  }

  /** The statistics of a column bound each of its values. */
  predicate Within(stats: Stats, v: ExecValue)
    requires !v.Str?
  {
    stats.MinMax? && stats.min <= AsDouble(v) <= stats.max
  }

  /** The two layers on one value of a column of this type. */
  predicate TakesValue(t: DataType, stats: Stats, op: CmpOp, literal: ExecValue, v: ExecValue)
    requires !v.Str?
  {
    var p := Prepared(TypedCompare, 0, t, op, I32(0));
    var bound := if t.Int32? || t.Int64? then BindInteger(op, literal, p) else BindFloating(op, literal, p);
    match EvaluateByStats(stats, op, literal)
    case Skip => false
    case AllMatch => true
    case NeedFilter => bound.Ok? && !bound.value.value.Str? && Matches(bound.value, v)
  }

  lemma IntegerValueIff(t: DataType, stats: Stats, op: CmpOp, literal: ExecValue, v: ExecValue)
    requires (t.Int32? || t.Int64?) && HasType(v, t) && PushedLiteral(literal) && Within(stats, v)
    requires op.EQ? || op.GT? || op.LT?
    ensures TakesValue(t, stats, op, literal, v) == Satisfies(v, op, literal)
            <==> !MisreadValue(t, stats, op, literal, v)
  {
    LiteralIsDouble(literal);
    IntegerBindingExact(op, literal, Prepared(TypedCompare, 0, t, op, I32(0)), v);
    if AsNumber(v) <= AsNumber(literal) { AsDoubleMonotone(v, literal); }
    if AsNumber(v) >= AsNumber(literal) { AsDoubleMonotone(literal, v); }
    if t.Int32? { ToDoubleExact(v.i); }
  }

  lemma DoubleValueExact(stats: Stats, op: CmpOp, literal: ExecValue, v: ExecValue)
    requires v.F64? && PushedLiteral(literal) && Within(stats, v) && (op.EQ? || op.GT? || op.LT?)
    ensures TakesValue(Double, stats, op, literal, v) == Satisfies(v, op, literal)
  {
    LiteralIsDouble(literal);
  }

  /** Verdict by the literal, filter by its narrowed form `n`, on a value `f` that lies on the same side of both. */
  lemma FloatCases(stats: Stats, op: CmpOp, literal: ExecValue, n: real, f: real)
    requires !literal.Str? && AsDouble(literal) == AsNumber(literal) && (op.EQ? || op.GT? || op.LT?)
    requires stats.MinMax? && stats.min <= f <= stats.max
    requires (f <= AsNumber(literal) ==> f <= n) && (f >= AsNumber(literal) ==> f >= n)
    ensures (match EvaluateByStats(stats, op, literal)
             case Skip => false
             case AllMatch => true
             case NeedFilter => CompareReals(op, f, n)) == CompareReals(op, f, AsNumber(literal))
            <==> !(f == n && match op
                             case GT => stats.min <= AsNumber(literal) < n
                             case LT => n < AsNumber(literal) <= stats.max
                             case _ => n != AsNumber(literal) && stats.min <= AsNumber(literal) <= stats.max)
  {
  }

  lemma FloatBound(op: CmpOp, literal: ExecValue, p: Prepared, v: ExecValue)
    requires p.dataType.Float? && v.F32? && PushedLiteral(literal)
    ensures var bound := BindFloating(op, literal, p);
            && bound.Ok? && !bound.value.value.Str?
            && Matches(bound.value, v) == CompareReals(op, v.f, ToFloat(AsNumber(literal)))
  {
    LiteralIsDouble(literal);
  }

  lemma FloatValueIff(stats: Stats, op: CmpOp, literal: ExecValue, v: ExecValue)
    requires v.F32? && IsFloat(v.f) && PushedLiteral(literal) && Within(stats, v) && (op.EQ? || op.GT? || op.LT?)
    ensures TakesValue(Float, stats, op, literal, v) == Satisfies(v, op, literal)
            <==> !MisreadValue(Float, stats, op, literal, v)
  {
    LiteralIsDouble(literal);
    if v.f <= AsNumber(literal) { ToFloatMonotone(v.f, AsNumber(literal)); }
    if v.f >= AsNumber(literal) { ToFloatMonotone(AsNumber(literal), v.f); }
    FloatBound(op, literal, Prepared(TypedCompare, 0, Float, op, I32(0)), v);
    FloatCases(stats, op, literal, ToFloat(AsNumber(literal)), v.f);
  }

  /** The condition on a row of a segment is the condition on its value. */
  lemma TakesIsTakesValue(schema: seq<ColumnSchema>, s: Segment, cond: Condition, row: Row)
    requires SegmentOf(schema, s) && schema != [] && Positional(schema) && PushedForm(schema, cond) && RowOf(schema, row)
    ensures !row[cond.column].Str?
    ensures Takes(schema, s, cond, row)
            == TakesValue(schema[cond.column].dataType, s.stats[cond.column], cond.op, cond.value, row[cond.column])
    ensures Meets(schema, row, cond) == Satisfies(row[cond.column], cond.op, cond.value)
  {
    PositionalIndex(schema, cond.column);
    assert HasType(row[cond.column], schema[cond.column].dataType);
    assert ColumnType(schema, cond.column) == schema[cond.column].dataType;
  }

  /** Verdict and filter decide a row as the comparison does exactly unless its value is misread. */
  lemma TakesIff(schema: seq<ColumnSchema>, s: Segment, cond: Condition, r: nat)
    requires SegmentOf(schema, s) && schema != [] && PlainRows(s.rows) && Positional(schema)
    requires PushedForm(schema, cond) && r < |s.rows|
    ensures RowOf(schema, s.rows[r]) && !s.rows[r][cond.column].Str?
    ensures Takes(schema, s, cond, s.rows[r]) == Meets(schema, s.rows[r], cond)
            <==> !MisreadValue(schema[cond.column].dataType, s.stats[cond.column], cond.op, cond.value,
                               s.rows[r][cond.column])
  {
    var t, k, row := schema[cond.column].dataType, cond.column, s.rows[r];
    assert RowOf(schema, row);
    TakesIsTakesValue(schema, s, cond, row);
    var data := ColumnOf(schema, s.rows, k);
    StatsAreExtremes(t, data);
    assert data[r] == row[k] && PlainValue(row[k]) && HasType(row[k], t);
    assert Within(s.stats[k], row[k]);
    match t
    case Int32 => IntegerValueIff(t, s.stats[k], cond.op, cond.value, row[k]);
    case Int64 => IntegerValueIff(t, s.stats[k], cond.op, cond.value, row[k]);
    case Float => FloatValueIff(s.stats[k], cond.op, cond.value, row[k]);
    case Double => DoubleValueExact(s.stats[k], cond.op, cond.value, row[k]);
  }

  /** The segment holds a value on which storage and filter disagree. */
  predicate Misread(schema: seq<ColumnSchema>, s: Segment, cond: Condition)
    requires SegmentOf(schema, s) && PushedForm(schema, cond)
  {
    exists r | 0 <= r < |s.rows| ::
      && !s.rows[r][cond.column].Str?
      && MisreadValue(schema[cond.column].dataType, s.stats[cond.column], cond.op, cond.value, s.rows[r][cond.column])
  }

  // ---------- Scans ----------

  const ALL_COLUMNS: seq<nat> := []

  function AllOf(pushed: seq<Condition>): ScanOptions {
    ScanOptions(ALL_COLUMNS, pushed)
  }

  /** A table of segments as written, its columns numbered from zero. */
  predicate WellStored(t: Table) {
    && t.schema != [] && Positional(t.schema)
    && forall g | 0 <= g < |t.segments| :: SegmentOf(t.schema, t.segments[g]) && PlainRows(t.segments[g].rows)
  }

  lemma WellStoredScannable(t: Table, pushed: seq<Condition>)
    requires WellStored(t)
    ensures t.Scannable(AllOf(pushed))
  {
  }

  /** The table as one sequence of rows. */
  function TableRows(t: Table): seq<Row> {
    TableScan.AllRows(t.segments, 0)
  }

  /** What a scan of all columns with these conditions pushed delivers: see TableScan.Drain. */
  function StoredRows(t: Table, pushed: seq<Condition>): seq<Row>
    requires WellStored(t)
  {
    WellStoredScannable(t, pushed);
    TakenFrom(t, AllOf(pushed), 0)
  }

  lemma {:induction false} TableTyped(t: Table, g: nat)
    requires WellStored(t) && g <= |t.segments|
    ensures RowsOf(t.schema, TableScan.AllRows(t.segments, g))
    decreases |t.segments| - g
  {
    if g < |t.segments| {
      TableTyped(t, g + 1);
    }
  }

  lemma WholeRow(schema: seq<ColumnSchema>, pushed: seq<Condition>, row: Row)
    requires Positional(schema) && RowOf(schema, row)
    ensures OutputRow(schema, AllOf(pushed), row) == row
  {
    AllColumnsAreTheRow(schema, row);
  }

  lemma MeetsAllIsPassesAll(schema: seq<ColumnSchema>, pushed: seq<Condition>, row: Row)
    requires Positional(schema) && RowOf(schema, row)
    ensures MeetsAll(schema, row, pushed) <==> PassesAll(row, pushed)
  {
    forall i | 0 <= i < |pushed| ensures Meets(schema, row, pushed[i]) <==> Passes(row, pushed[i]) {
      PositionalIndex(schema, pushed[i].column);
    }
  }

  lemma {:induction false} KeptIsScanRows(schema: seq<ColumnSchema>, pushed: seq<Condition>, rows: seq<Row>)
    requires Positional(schema) && RowsOf(schema, rows)
    ensures Kept(schema, AllOf(pushed), rows) == ScanRows(rows, pushed)
  {
    if rows != [] {
      var n := |rows| - 1;
      KeptIsScanRows(schema, pushed, rows[..n]);
      MeetsAllIsPassesAll(schema, pushed, rows[n]);
      WholeRow(schema, pushed, rows[n]);
    }
  }

  /** How often a row comes out of a segment: always or never as often as it is stored. */
  lemma {:induction false} TakenCount(schema: seq<ColumnSchema>, pushed: seq<Condition>, s: Segment, rows: seq<Row>,
                                      x: Row)
    requires Positional(schema) && Scannable(schema, AllOf(pushed), s) && RowsOf(schema, rows) && RowOf(schema, x)
    ensures multiset(Taken(schema, AllOf(pushed), s, rows))[x]
            == if TakesAll(schema, s, pushed, x) then multiset(rows)[x] else 0
  {
    if rows != [] {
      var n := |rows| - 1;
      TakenCount(schema, pushed, s, rows[..n], x);
      WholeRow(schema, pushed, rows[n]);
      assert rows == rows[..n] + [rows[n]];
    }
  }

  lemma {:induction false} ScanCount(rows: seq<Row>, pushed: seq<Condition>, x: Row)
    ensures multiset(ScanRows(rows, pushed))[x] == if PassesAll(x, pushed) then multiset(rows)[x] else 0
  {
    if rows != [] {
      var n := |rows| - 1;
      ScanCount(rows[..n], pushed, x);
      assert rows == rows[..n] + [rows[n]];
    }
  }

  /** Every segment that holds the row decides it in this way. */
  predicate DecidedAlike(t: Table, pushed: seq<Condition>, g: nat, x: Row, taken: bool)
    requires WellStored(t) && RowOf(t.schema, x)
  {
    forall h | g <= h < |t.segments| && x in t.segments[h].rows ::
      TakesAll(t.schema, t.segments[h], pushed, x) == taken
  }

  lemma {:induction false} TableCount(t: Table, pushed: seq<Condition>, g: nat, x: Row)
    requires WellStored(t) && t.Scannable(AllOf(pushed)) && RowOf(t.schema, x) && g <= |t.segments|
    ensures var taken := multiset(TakenFrom(t, AllOf(pushed), g))[x];
            var all := multiset(TableScan.AllRows(t.segments, g))[x];
            && taken <= all
            && (taken == all ==> DecidedAlike(t, pushed, g, x, true))
            && (taken == 0 ==> DecidedAlike(t, pushed, g, x, false))
    decreases |t.segments| - g
  {
    if g < |t.segments| {
      var s := t.segments[g];
      TableCount(t, pushed, g + 1, x);
      TakenCount(t.schema, pushed, s, s.rows, x);
      assert s.rows[0..] == s.rows;
      assert multiset(TableScan.AllRows(t.segments, g)) == multiset(s.rows) + multiset(TableScan.AllRows(t.segments, g + 1));
      assert x in s.rows <==> multiset(s.rows)[x] > 0;
    }
  }

  /** A scan is the filter over the whole table exactly if it decides every stored row as the conditions do. */
  lemma ScanExactIff(t: Table, pushed: seq<Condition>)
    requires WellStored(t)
    ensures t.Scannable(AllOf(pushed))
    ensures StoredRows(t, pushed) == ScanRows(TableRows(t), pushed) <==> Exact(t, AllOf(pushed))
  {
    WellStoredScannable(t, pushed);
    TableTyped(t, 0);
    if Exact(t, AllOf(pushed)) {
      TakenFromIsKept(t, AllOf(pushed), 0);
      KeptIsScanRows(t.schema, pushed, TableRows(t));
    }
    if StoredRows(t, pushed) == ScanRows(TableRows(t), pushed) {
      forall g, r | 0 <= g < |t.segments| && 0 <= r < |t.segments[g].rows|
        ensures TakesAll(t.schema, t.segments[g], pushed, t.segments[g].rows[r])
                == MeetsAll(t.schema, t.segments[g].rows[r], pushed)
      {
        var x := t.segments[g].rows[r];
        assert RowOf(t.schema, x);
        ScanCount(TableRows(t), pushed, x);
        TableCount(t, pushed, 0, x);
        MeetsAllIsPassesAll(t.schema, pushed, x);
        assert x in t.segments[g].rows;
      }
    }
  }

  /** No segment holds a value that one of the conditions misreads. */
  predicate Clean(t: Table, pushed: seq<Condition>)
    requires WellStored(t)
  {
    forall i, g | 0 <= i < |pushed| && 0 <= g < |t.segments| ::
      PushedForm(t.schema, pushed[i]) && !Misread(t.schema, t.segments[g], pushed[i])
  }

  lemma CleanIsExact(t: Table, pushed: seq<Condition>)
    requires WellStored(t) && Clean(t, pushed)
    ensures t.Scannable(AllOf(pushed)) && Exact(t, AllOf(pushed))
    ensures StoredRows(t, pushed) == ScanRows(TableRows(t), pushed)
  {
    WellStoredScannable(t, pushed);
    forall g, r | 0 <= g < |t.segments| && 0 <= r < |t.segments[g].rows|
      ensures TakesAll(t.schema, t.segments[g], pushed, t.segments[g].rows[r])
              == MeetsAll(t.schema, t.segments[g].rows[r], pushed)
    {
      forall i | 0 <= i < |pushed|
        ensures Takes(t.schema, t.segments[g], pushed[i], t.segments[g].rows[r])
                == Meets(t.schema, t.segments[g].rows[r], pushed[i])
      {
        assert !Misread(t.schema, t.segments[g], pushed[i]);
        TakesIff(t.schema, t.segments[g], pushed[i], r);
      }
    }
    ScanExactIff(t, pushed);
  }

  /** One condition: the scan is the filter exactly if no segment holds a value that the condition misreads. */
  lemma OneConditionExactIff(t: Table, cond: Condition)
    requires WellStored(t) && PushedForm(t.schema, cond)
    ensures StoredRows(t, [cond]) == ScanRows(TableRows(t), [cond])
            <==> forall g | 0 <= g < |t.segments| :: !Misread(t.schema, t.segments[g], cond)
  {
    ScanExactIff(t, [cond]);
    forall g, r | 0 <= g < |t.segments| && 0 <= r < |t.segments[g].rows|
      ensures TakesAll(t.schema, t.segments[g], [cond], t.segments[g].rows[r])
              == Takes(t.schema, t.segments[g], cond, t.segments[g].rows[r])
      ensures MeetsAll(t.schema, t.segments[g].rows[r], [cond]) == Meets(t.schema, t.segments[g].rows[r], cond)
    {
      assert RowOf(t.schema, t.segments[g].rows[r]) && [cond][0] == cond;
    }
    forall g | 0 <= g < |t.segments|
      ensures Misread(t.schema, t.segments[g], cond)
              <==> exists r | 0 <= r < |t.segments[g].rows| ::
                     Takes(t.schema, t.segments[g], cond, t.segments[g].rows[r])
                     != Meets(t.schema, t.segments[g].rows[r], cond)
    {
      MisreadIff(t.schema, t.segments[g], cond);
    }
  }

  lemma MisreadIff(schema: seq<ColumnSchema>, s: Segment, cond: Condition)
    requires SegmentOf(schema, s) && schema != [] && PlainRows(s.rows) && Positional(schema) && PushedForm(schema, cond)
    ensures Misread(schema, s, cond)
            <==> exists r | 0 <= r < |s.rows| :: Takes(schema, s, cond, s.rows[r]) != Meets(schema, s.rows[r], cond)
  {
    forall r | 0 <= r < |s.rows|
      ensures RowOf(schema, s.rows[r]) && !s.rows[r][cond.column].Str?
      ensures Takes(schema, s, cond, s.rows[r]) == Meets(schema, s.rows[r], cond)
              <==> !MisreadValue(schema[cond.column].dataType, s.stats[cond.column], cond.op, cond.value,
                                 s.rows[r][cond.column])
    {
      TakesIff(schema, s, cond, r);
    }
  }
}
