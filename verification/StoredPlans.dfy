/** Plans over a stored table: what pushdown makes of them once storage decides the pushed conditions. */
module StoredPlans {
  import opened Wrappers
  import opened Values
  import opened Expressions
  import opened Rounding
  import opened FloatRounding
  import opened ZoneMaps
  import opened StoragePredicates
  import opened StorageScan
  import opened TableScan
  import opened Optimizer
  import opened OptimizerProofs
  import opened PushdownExactness

  /** A plan whose scan is the table's own: verdict, bound predicate and row filter decide what is pushed. */
  function StoredMeaning(plan: Plan, t: Table, agg: Aggregator): Rows
    requires WellStored(t)
  {
    match plan
    case Scan(_, pushed) => Ok(StoredRows(t, pushed))
    case Filter(p, child) =>
      (match StoredMeaning(child, t, agg) case Err(m) => Err(m) case Ok(rs) => FilterRows(p, rs))
    case Project(outputs, child) =>
      (match StoredMeaning(child, t, agg) case Err(m) => Err(m) case Ok(rs) => TupleRows(outputs, rs, true))
    case Aggregate(g, outputs, child) =>
      (match StoredMeaning(child, t, agg)
       case Err(m) => Err(m)
       case Ok(rs) =>
         match TupleRows(g + outputs, rs, false) case Err(m) => Err(m) case Ok(ts) => agg(g, outputs, ts))
    case Command => Ok([])
  }

  /** The conditions of the plan's scan. */
  function PushedOf(plan: Plan): seq<Condition> {
    match FindScan(plan) case None => [] case Some(scan) => scan.pushed
  }

  /** Where the scan is the filter over the table, the stored plan means what the plan means. */
  lemma {:induction false} StoredIsMeaning(plan: Plan, t: Table, agg: Aggregator)
    requires WellStored(t) && StoredRows(t, PushedOf(plan)) == ScanRows(TableRows(t), PushedOf(plan))
    ensures StoredMeaning(plan, t, agg) == Meaning(plan, TableRows(t), agg)
    decreases plan
  {
    if plan.Filter? || plan.Project? || plan.Aggregate? {
      StoredIsMeaning(plan.child, t, agg);
    }
  }

  predicate PushedForms(schema: seq<ColumnSchema>, pushed: seq<Condition>) {
    forall i | 0 <= i < |pushed| :: PushedForm(schema, pushed[i])
  }

  /** The push adds well-formed conditions, on columns and literals of the schema. */
  lemma {:induction false} PushKeepsForms(plan: Plan, schema: seq<ColumnSchema>)
    requires TypedPlan(plan, Types(schema)) && PlainLiterals(plan) && PushedForms(schema, PushedOf(plan))
    ensures PushedForms(schema, PushedOf(Push(plan).0))
    decreases plan
  {
    if plan.Filter? || plan.Project? || plan.Aggregate? {
      assert PushedOf(plan) == PushedOf(plan.child);
      PushKeepsForms(plan.child, schema);
    }
    if plan.Filter? && Push(plan.child).0.Scan? {
      PushKeepsOnScan(plan.child);
      ConjunctsTyped(plan.condition, Types(schema));
      ConjunctsPlain(plan.condition);
      ExtractedForms(Conjuncts(plan.condition), schema);
      PushedIsAdded(plan.condition, plan.child);
    }
  }

  lemma FilteredScan(p: Expr, scan: Plan)
    requires scan.Scan?
    ensures PushedOf(scan) == scan.pushed && PushedOf(Filter(p, scan)) == scan.pushed
  {
    assert FindScan(Filter(p, scan)) == FindScan(scan);
  }

  lemma PushedIsAdded(p: Expr, child: Plan)
    requires Push(child).0.Scan?
    ensures PushedOf(Push(Filter(p, child)).0) == Push(child).0.pushed + Pushable(Conjuncts(p))
  {
    var scan, es := Push(child).0, Conjuncts(p);
    if Pushable(es) == [] {
      FilteredScan(p, scan);
    } else if Staying(es) == [] {
      FilteredScan(p, scan.(pushed := scan.pushed + Pushable(es)));
    } else {
      FilteredScan(Conjunction(Staying(es)), scan.(pushed := scan.pushed + Pushable(es)));
    }
  }

  /** Literals are INT32 values, doubles or strings, as the binder makes them. */
  predicate PlainExpr(e: Expr) {
    match e
    case ColumnRef(_, _) => true
    case Literal(v, _) => v.Str? || PushedLiteral(v)
    case Binary(_, l, r, _) => PlainExpr(l) && PlainExpr(r)
  }

  predicate PlainLiterals(plan: Plan) {
    match plan
    case Filter(p, child) => PlainExpr(p) && PlainLiterals(child)
    case Project(_, child) => PlainLiterals(child)
    case Aggregate(_, _, child) => PlainLiterals(child)
    case _ => true
  }

  lemma {:induction false} ConjunctsPlain(e: Expr)
    requires PlainExpr(e)
    ensures forall i | 0 <= i < |Conjuncts(e)| :: PlainExpr(Conjuncts(e)[i])
    decreases e
  {
    if e.Binary? && e.op.And? {
      ConjunctsPlain(e.left);
      ConjunctsPlain(e.right);
    }
  }

  lemma {:induction false} ExtractedForms(es: seq<Expr>, schema: seq<ColumnSchema>)
    requires TypedList(es, Types(schema)) && forall i | 0 <= i < |es| :: PlainExpr(es[i])
    ensures PushedForms(schema, Pushable(es))
  {
    if es != [] {
      ExtractedForms(es[..|es| - 1], schema);
      var last := es[|es| - 1];
      if ExtractSimple(last).Some? {
        ExtractedForm(last, schema);
      }
    }
  }

  lemma ExtractedForm(e: Expr, schema: seq<ColumnSchema>)
    requires ExtractSimple(e).Some? && TypedRefs(e, Types(schema)) && PlainExpr(e)
    ensures PushedForm(schema, ExtractSimple(e).value)
  {
    assert TypedRefs(e.left, Types(schema)) && PlainExpr(e.right);
  }

  // ---------- Pushdown into storage ----------

  /** No value of the table is misread by a condition that is pushed, or was. */
  predicate CleanPush(plan: Plan, t: Table)
    requires WellStored(t)
  {
    Clean(t, PushedOf(plan)) && Clean(t, PushedOf(Push(plan).0))
  }

  lemma CleanMeaning(plan: Plan, t: Table, agg: Aggregator)
    requires WellStored(t) && Clean(t, PushedOf(plan))
    ensures StoredMeaning(plan, t, agg) == Meaning(plan, TableRows(t), agg)
  {
    CleanIsExact(t, PushedOf(plan));
    StoredIsMeaning(plan, t, agg);
  }

  lemma RowsTyped(t: Table)
    requires WellStored(t)
    ensures TypedRows(TableRows(t), Types(t.schema))
  {
    TableTyped(t, 0);
    SameRows(t.schema, TableRows(t));
  }

  /**
   * Over a stored table that holds nothing a pushed condition misreads, pushdown keeps the outcome exactly unless it
   * hides an error; a result is the same result.
   */
  lemma StoredPushSameIff(plan: Plan, t: Table, agg: Aggregator)
    requires WellStored(t) && TypedPlan(plan, Types(t.schema)) && CleanPush(plan, t)
    ensures SameOutcome(StoredMeaning(Push(plan).0, t, agg), StoredMeaning(plan, t, agg))
            <==> !(HidesError(plan, TableRows(t)) && StoredMeaning(Push(plan).0, t, agg).Ok?)
    ensures StoredMeaning(plan, t, agg).Ok? ==> StoredMeaning(Push(plan).0, t, agg) == StoredMeaning(plan, t, agg)
  {
    RowsTyped(t);
    CleanMeaning(plan, t, agg);
    CleanMeaning(Push(plan).0, t, agg);
    PushSameIff(plan, TableRows(t), Types(t.schema), agg);
    PushPreserves(plan, TableRows(t), Types(t.schema), agg);
  }

  /**
   * A chain of filters over a bare scan that is pushed away entirely: the pushed plan returns what the filters
   * return exactly if storage decides every row as the filters do.
   */
  lemma PushedAwayExactIff(plan: Plan, t: Table, agg: Aggregator)
    requires WellStored(t) && TypedPlan(plan, Types(t.schema)) && PushedOf(plan) == [] && Push(plan).0.Scan?
    ensures t.Scannable(AllOf(PushedOf(Push(plan).0)))
    ensures StoredMeaning(Push(plan).0, t, agg) == StoredMeaning(plan, t, agg)
            <==> Exact(t, AllOf(PushedOf(Push(plan).0)))
  {
    RowsTyped(t);
    CleanMeaning(plan, t, agg);
    PushedAway(plan, TableRows(t), Types(t.schema), agg);
    ScanExactIff(t, PushedOf(Push(plan).0));
  }

  lemma BareScan(e: Expr, required: seq<nat>)
    ensures PushedOf(Filter(e, Scan(required, []))) == []
  {
    assert FindScan(Filter(e, Scan(required, []))) == FindScan(Scan(required, []));
  }

  lemma OnePushed(e: Expr, required: seq<nat>)
    requires ExtractSimple(e).Some?
    ensures Push(Filter(e, Scan(required, []))).0 == Scan(required, [ExtractSimple(e).value])
  {
    var c := ExtractSimple(e).value;
    assert Conjuncts(e) == [e] && [e][..0] == [];
    assert Pushable([e]) == [c] && Staying([e]) == [] && [] + [c] == [c];
  }

  /** One comparison: pushing it changes the result exactly if some segment holds a value that it misreads. */
  lemma OneFilterExactIff(e: Expr, required: seq<nat>, t: Table, agg: Aggregator)
    requires WellStored(t) && ExtractSimple(e).Some? && TypedRefs(e, Types(t.schema)) && PlainExpr(e)
    ensures PushedForm(t.schema, ExtractSimple(e).value)
    ensures var plan := Filter(e, Scan(required, []));
            StoredMeaning(Push(plan).0, t, agg) == StoredMeaning(plan, t, agg)
            <==> forall g | 0 <= g < |t.segments| :: !Misread(t.schema, t.segments[g], ExtractSimple(e).value)
  {
    var plan, c := Filter(e, Scan(required, [])), ExtractSimple(e).value;
    OnePushed(e, required);
    ExtractedForm(e, t.schema);
    RowsTyped(t);
    BareScan(e, required);
    CleanMeaning(plan, t, agg);
    PushedAway(plan, TableRows(t), Types(t.schema), agg);
    OneConditionExactIff(t, c);
  }

  // ---------- Two tables on which it does change ----------

  function OneColumn(t: DataType, segment: Segment): Table {
    Table([ColumnSchema(0, t)], [segment])
  }

  function Comparison(op: BinaryOp, t: DataType, literal: real): Expr {
    Binary(op, ColumnRef(0, t), Literal(F64(literal), Double), Int32)
  }

  lemma OneValueSegment(t: DataType, v: ExecValue)
    requires HasType(v, t) && IsNumericType(t)
    ensures SegmentOf([ColumnSchema(0, t)], Segment([MinMax(AsDouble(v), AsDouble(v))], [[v]]))
  {
    var schema := [ColumnSchema(0, t)];
    var s := Segment([MinMax(AsDouble(v), AsDouble(v))], [[v]]);
    assert RowOf(schema, s.rows[0]);
    assert ColumnOf(schema, s.rows, 0) == [v];
    assert [v][..0] == [];
    assert StatsOf(t, [v]) == MinMax(AsDouble(v), AsDouble(v));
  }

  /** An INT64 column holding 2^53 + 1 under `x > 2^53`: the filter keeps the row, the pushed scan skips its segment. */
  lemma PushLosesARow(agg: Aggregator)
    ensures var t := OneColumn(Int64, Segment([MinMax(TWO_53 as real, TWO_53 as real)], [[I64(TWO_53 + 1)]]));
            var plan := Filter(Comparison(Gt, Int64, TWO_53 as real), Scan([], []));
            && WellStored(t)
            && StoredMeaning(plan, t, agg) == Ok([[I64(TWO_53 + 1)]])
            && StoredMeaning(Push(plan).0, t, agg) == Ok([])
  {
    TwoTo53PlusOneCollides();
    var v := I64(TWO_53 + 1);
    OneValueSegment(Int64, v);
    var t := OneColumn(Int64, Segment([MinMax(TWO_53 as real, TWO_53 as real)], [[v]]));
    PositionalIndex(t.schema, 0);
    KeptButSkipped(t, [v], Comparison(Gt, Int64, TWO_53 as real), Condition(0, GT, F64(TWO_53 as real)), agg);
  }

  lemma KeptButSkipped(t: Table, row: Row, e: Expr, c: Condition, agg: Aggregator)
    requires WellStored(t) && |t.segments| == 1 && t.segments[0].rows == [row] && RowOf(t.schema, row)
    requires ExtractSimple(e) == Some(c) && Truth(Eval(e, row)) == Ok(true)
    requires Verdict(t.schema, t.segments[0], c).Skip?
    ensures var plan := Filter(e, Scan([], []));
            StoredMeaning(plan, t, agg) == Ok([row]) && StoredMeaning(Push(plan).0, t, agg) == Ok([])
  {
    OneRowPlans(t, row, e, c, agg);
    assert [row] == [] + [row];
    FilterRowsAppend(e, [], row);
    assert [c][0] == c && !Takes(t.schema, t.segments[0], c, row);
  }

  /** The FLOAT segment of 2^24 and 2^25. */
  const POWERS: Segment := Segment([MinMax(16777216.0, 33554432.0)], [[F32(16777216.0)], [F32(33554432.0)]])

  lemma PowersStored()
    ensures WellStored(OneColumn(Float, POWERS))
  {
    var schema, a, b := [ColumnSchema(0, Float)], F32(16777216.0), F32(33554432.0);
    assert RowOf(schema, POWERS.rows[0]) && RowOf(schema, POWERS.rows[1]);
    assert ColumnOf(schema, POWERS.rows, 0) == [a, b];
    assert [a, b][..1] == [a] && [a][..0] == [];
    assert StatsOf(Float, [a]) == MinMax(16777216.0, 16777216.0);
    TwoTo24PlusOne();
    ToFloatStays(16777217.0);
    TwoTo25Stays();
  }

  lemma MisreadAt(e: Expr, t: Table, r: nat, agg: Aggregator)
    requires WellStored(t) && |t.segments| == 1 && ExtractSimple(e).Some? && TypedRefs(e, Types(t.schema)) && PlainExpr(e)
    requires PushedForm(t.schema, ExtractSimple(e).value) && r < |t.segments[0].rows|
    requires var c, s := ExtractSimple(e).value, t.segments[0];
             && RowOf(t.schema, s.rows[r]) && !s.rows[r][c.column].Str?
             && MisreadValue(t.schema[c.column].dataType, s.stats[c.column], c.op, c.value, s.rows[r][c.column])
    ensures var plan := Filter(e, Scan([], []));
            StoredMeaning(Push(plan).0, t, agg) != StoredMeaning(plan, t, agg)
  {
    OneFilterExactIff(e, [], t, agg);
    assert Misread(t.schema, t.segments[0], ExtractSimple(e).value);
  }

  /** Under `f = 2^24 + 1` the filter finds nothing there, and the narrowed literal finds a row. */
  lemma PushFindsARow(agg: Aggregator)
    ensures var t, plan := OneColumn(Float, POWERS), Filter(Comparison(Eq, Float, 16777217.0), Scan([], []));
            WellStored(t) && StoredMeaning(Push(plan).0, t, agg) != StoredMeaning(plan, t, agg)
  {
    PowersStored();
    TwoTo24PlusOne();
    MisreadAt(Comparison(Eq, Float, 16777217.0), OneColumn(Float, POWERS), 0, agg);
  }

  lemma OneRowPlans(t: Table, row: Row, e: Expr, c: Condition, agg: Aggregator)
    requires WellStored(t) && |t.segments| == 1 && t.segments[0].rows == [row] && RowOf(t.schema, row)
    requires ExtractSimple(e) == Some(c)
    ensures var plan := Filter(e, Scan([], []));
            && StoredMeaning(plan, t, agg) == FilterRows(e, [row])
            && StoredMeaning(Push(plan).0, t, agg) == Ok(if TakesAll(t.schema, t.segments[0], [c], row) then [row] else [])
  {
    var plan := Filter(e, Scan([], []));
    OnePushed(e, []);
    OneRowStored(t, [], row);
    OneRowStored(t, [c], row);
    assert plan.child == Scan([], []);
  }

  lemma OneRowStored(t: Table, pushed: seq<Condition>, row: Row)
    requires WellStored(t) && |t.segments| == 1 && t.segments[0].rows == [row] && RowOf(t.schema, row)
    ensures StoredRows(t, pushed) == if TakesAll(t.schema, t.segments[0], pushed, row) then [row] else []
  {
    var s, o := t.segments[0], AllOf(pushed);
    WellStoredScannable(t, pushed);
    WholeRow(t.schema, pushed, row);
    TakenOne(t.schema, o, s, row);
    assert s.rows[0..] == [row];
    OneSegmentTaken(t, o);
  }

  lemma OneSegmentTaken(t: Table, o: ScanOptions)
    requires t.Scannable(o) && |t.segments| == 1
    ensures TakenFrom(t, o, 0) == TakenRest(t.schema, o, t.segments[0], 0)
  {
    assert TakenFrom(t, o, 1) == [];
  }
}
