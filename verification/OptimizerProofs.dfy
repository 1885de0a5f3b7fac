/** The optimised plan computes what the original plan computes. */
module OptimizerProofs {
  import opened Wrappers
  import opened Values
  import opened Expressions
  import opened ZoneMaps
  import opened StoragePredicates
  import opened Optimizer

  // ---------- What a plan means, over full table rows ----------

  type Rows = Result<seq<Row>, string>

  /** What an aggregation makes of its evaluated group keys and arguments. */
  type Aggregator = (seq<Expr>, seq<Expr>, seq<Row>) -> Rows

  predicate Passes(row: Row, c: Condition) {
    c.column < |row| && !row[c.column].Str? && !c.value.Str? && Satisfies(row[c.column], c.op, c.value)
  }

  predicate PassesAll(row: Row, pushed: seq<Condition>) {
    forall i | 0 <= i < |pushed| :: Passes(row, pushed[i])
  }

  function ScanRows(rows: seq<Row>, pushed: seq<Condition>): seq<Row> {
    if rows == [] then []
    else
      var n := |rows| - 1;
      ScanRows(rows[..n], pushed) + (if PassesAll(rows[n], pushed) then [rows[n]] else [])
  }

  function Truth(v: Result<ExecValue, string>): Result<bool, string> {
    match v
    case Err(m) => Err(m)
    case Ok(x) => Ok(Truthy(x))
  }

  function FilterRows(p: Expr, rows: seq<Row>): Rows {
    if rows == [] then Ok([])
    else
      var n := |rows| - 1;
      match FilterRows(p, rows[..n])
      case Err(m) => Err(m)
      case Ok(done) =>
        match Truth(Eval(p, rows[n]))
        case Err(m) => Err(m)
        case Ok(keep) => Ok(if keep then done + [rows[n]] else done)
  }

  /** A projection stores what it evaluates; an aggregation uses the value as it is. */
  function ValueOf(e: Expr, row: Row, stored: bool): Result<ExecValue, string> {
    if stored then Outcome(e, row) else Eval(e, row)
  }

  function Tuple(outputs: seq<Expr>, row: Row, stored: bool): Result<Row, string> {
    if outputs == [] then Ok([])
    else
      match Tuple(outputs[..|outputs| - 1], row, stored)
      case Err(m) => Err(m)
      case Ok(done) =>
        match ValueOf(outputs[|outputs| - 1], row, stored)
        case Err(m) => Err(m)
        case Ok(v) => Ok(done + [v])
  }

  function TupleRows(outputs: seq<Expr>, rows: seq<Row>, stored: bool): Rows {
    if rows == [] then Ok([])
    else
      var n := |rows| - 1;
      match TupleRows(outputs, rows[..n], stored)
      case Err(m) => Err(m)
      case Ok(done) =>
        match Tuple(outputs, rows[n], stored)
        case Err(m) => Err(m)
        case Ok(t) => Ok(done + [t])
  }

  function Meaning(plan: Plan, rows: seq<Row>, agg: Aggregator): Rows {
    match plan
    case Scan(_, pushed) => Ok(ScanRows(rows, pushed))
    case Filter(p, child) =>
      (match Meaning(child, rows, agg) case Err(m) => Err(m) case Ok(rs) => FilterRows(p, rs))
    case Project(outputs, child) =>
      (match Meaning(child, rows, agg) case Err(m) => Err(m) case Ok(rs) => TupleRows(outputs, rs, true))
    case Aggregate(g, outputs, child) =>
      (match Meaning(child, rows, agg)
       case Err(m) => Err(m)
       case Ok(rs) =>
         match TupleRows(g + outputs, rs, false) case Err(m) => Err(m) case Ok(ts) => agg(g, outputs, ts))
    case Command => Ok([])
  }

  // ---------- Conjunctions ----------

  /** Conjuncts one after another, stopping at the first that fails or throws. */
  function EvalAll(es: seq<Expr>, row: Row): Result<bool, string> {
    if es == [] then Ok(true)
    else
      match Truth(Eval(es[0], row))
      case Err(m) => Err(m)
      case Ok(b) => if b then EvalAll(es[1..], row) else Ok(false)
  }

  lemma {:induction false} EvalAllConcat(a: seq<Expr>, b: seq<Expr>, row: Row)
    ensures EvalAll(a + b, row) ==
            match EvalAll(a, row) case Err(m) => Err(m) case Ok(t) => if t then EvalAll(b, row) else Ok(false)
  {
    if a == [] {
      assert a + b == b;
    } else {
      EvalAllConcat(a[1..], b, row);
      assert (a + b)[1..] == a[1..] + b;
    }
  }

  lemma EvalAllOne(e: Expr, row: Row)
    ensures EvalAll([e], row) == Truth(Eval(e, row))
  {
    assert [e][1..] == [];
  }

  lemma EvalAnd(e: Expr, row: Row)
    requires e.Binary? && e.op.And?
    ensures Truth(Eval(e, row)) ==
            match Truth(Eval(e.left, row))
            case Err(m) => Err(m)
            case Ok(t) => if t then Truth(Eval(e.right, row)) else Ok(false)
  {
  }

  /** Flattening an AND tree keeps its short-circuit meaning, errors included. */
  lemma {:induction false} ConjunctsMean(e: Expr, row: Row)
    ensures EvalAll(Conjuncts(e), row) == Truth(Eval(e, row))
    decreases e
  {
    if e.Binary? && e.op.And? {
      ConjunctsMean(e.left, row);
      ConjunctsMean(e.right, row);
      EvalAllConcat(Conjuncts(e.left), Conjuncts(e.right), row);
      EvalAnd(e, row);
    } else {
      EvalAllOne(e, row);
    }
  }

  lemma {:induction false} ConjunctionMeans(es: seq<Expr>, row: Row)
    requires es != []
    ensures Truth(Eval(Conjunction(es), row)) == EvalAll(es, row)
  {
    var n := |es| - 1;
    if n == 0 {
      EvalAllOne(es[0], row);
      assert es == [es[0]];
    } else {
      ConjunctionMeans(es[..n], row);
      EvalAnd(Conjunction(es), row);
      EvalAllOne(es[n], row);
      EvalAllConcat(es[..n], [es[n]], row);
      assert es == es[..n] + [es[n]];
    }
  }

  // ---------- Pushdown, row by row ----------

  predicate TypedList(es: seq<Expr>, schema: seq<DataType>) {
    forall i | 0 <= i < |es| :: TypedRefs(es[i], schema)
  }

  lemma {:induction false} ConjunctsTyped(e: Expr, schema: seq<DataType>)
    requires TypedRefs(e, schema)
    ensures TypedList(Conjuncts(e), schema)
    decreases e
  {
    if e.Binary? && e.op.And? {
      ConjunctsTyped(e.left, schema);
      ConjunctsTyped(e.right, schema);
    }
  }

  /** Exactly `column = number`, `column > number` and `column < number` on numeric columns are pushed. */
  lemma PushableIff(e: Expr, c: Condition)
    ensures ExtractSimple(e) == Some(c) <==>
            (c.value.I32? || c.value.F64?) && exists op, ct, lt, t ::
              && e == Binary(op, ColumnRef(c.column, ct), Literal(c.value, lt), t) && IsNumericType(ct)
              && ((op == Eq && c.op == EQ) || (op == Gt && c.op == GT) || (op == Lt && c.op == LT))
  {
    if ExtractSimple(e) == Some(c) {
      assert e == Binary(e.op, ColumnRef(c.column, e.left.returnType), Literal(c.value, e.right.returnType), e.returnType);
    }
  }

  /** A pushed comparison decides in storage as it would have in the filter, and never throws. */
  lemma ExtractedMeans(e: Expr, row: Row, schema: seq<DataType>)
    requires ExtractSimple(e).Some? && TypedRefs(e, schema) && TypedRow(row, schema)
    ensures Truth(Eval(e, row)) == Ok(Passes(row, ExtractSimple(e).value))
  {
    assert HasType(row[e.left.slot], schema[e.left.slot]);
  }

  /**
   * Evaluating the conjuncts in order, where that does not throw, is passing the pushed ones and then
   * evaluating the others in order.
   */
  lemma {:induction false} SplitMeans(es: seq<Expr>, row: Row, schema: seq<DataType>)
    requires TypedList(es, schema) && TypedRow(row, schema)
    ensures EvalAll(es, row).Ok? ==>
              if PassesAll(row, Pushable(es)) then EvalAll(Staying(es), row) == EvalAll(es, row)
              else EvalAll(es, row) == Ok(false)
    ensures EvalAll(es, row).Err? && PassesAll(row, Pushable(es)) ==> EvalAll(Staying(es), row) == EvalAll(es, row)
  {
    if es != [] {
      var n := |es| - 1;
      var init, last := es[..n], es[n];
      assert es == init + [last];
      SplitMeans(init, row, schema);
      EvalAllConcat(init, [last], row);
      EvalAllOne(last, row);
      if ExtractSimple(last).Some? {
        ExtractedMeans(last, row, schema);
        PassesAllAppend(row, Pushable(init), ExtractSimple(last).value);
        assert Staying(es) == Staying(init);
      } else {
        EvalAllConcat(Staying(init), [last], row);
        assert Pushable(es) == Pushable(init);
      }
    }
  }

  lemma PassesAllAppend(row: Row, pushed: seq<Condition>, c: Condition)
    ensures PassesAll(row, pushed + [c]) <==> PassesAll(row, pushed) && Passes(row, c)
  {
    assert (pushed + [c])[|pushed|] == c;
    assert forall i | 0 <= i < |pushed| :: (pushed + [c])[i] == pushed[i];
  }

  lemma PassesAllConcat(row: Row, a: seq<Condition>, b: seq<Condition>)
    ensures PassesAll(row, a + b) <==> PassesAll(row, a) && PassesAll(row, b)
  {
    assert forall i | 0 <= i < |a| :: (a + b)[i] == a[i];
    assert forall i | 0 <= i < |b| :: (a + b)[|a| + i] == b[i];
  }

  lemma ScanRowsAppend(rows: seq<Row>, row: Row, pushed: seq<Condition>)
    ensures ScanRows(rows + [row], pushed)
            == if PassesAll(row, pushed) then ScanRows(rows, pushed) + [row] else ScanRows(rows, pushed)
  {
    assert (rows + [row])[..|rows|] == rows;
    assert ScanRows(rows, pushed) + [] == ScanRows(rows, pushed);
  }

  /** What is left of the filter after the push. */
  function FilterLeft(residual: seq<Expr>, rows: seq<Row>): Rows {
    if residual == [] then Ok(rows) else FilterRows(Conjunction(residual), rows)
  }

  lemma FilterLeftAppend(residual: seq<Expr>, rows: seq<Row>, row: Row)
    ensures FilterLeft(residual, rows + [row]) ==
            match FilterLeft(residual, rows)
            case Err(m) => Err(m)
            case Ok(done) =>
              match EvalAll(residual, row) case Err(m) => Err(m) case Ok(keep) => Ok(if keep then done + [row] else done)
  {
    assert (rows + [row])[..|rows|] == rows;
    if residual != [] {
      ConjunctionMeans(residual, row);
    }
  }

  lemma FilterRowsAppend(p: Expr, rows: seq<Row>, row: Row)
    ensures FilterRows(p, rows + [row]) ==
            match FilterRows(p, rows)
            case Err(m) => Err(m)
            case Ok(done) =>
              match Truth(Eval(p, row)) case Err(m) => Err(m) case Ok(keep) => Ok(if keep then done + [row] else done)
  {
    assert (rows + [row])[..|rows|] == rows;
  }

  /** Filtering scanned rows, where that does not throw, is scanning with more and filtering with less. */
  lemma {:induction false} PushOnRows(p: Expr, before: seq<Condition>, rows: seq<Row>, schema: seq<DataType>)
    requires TypedRefs(p, schema) && TypedRows(rows, schema)
    ensures FilterRows(p, ScanRows(rows, before)).Ok? ==>
              FilterLeft(Staying(Conjuncts(p)), ScanRows(rows, before + Pushable(Conjuncts(p))))
              == FilterRows(p, ScanRows(rows, before))
  {
    var pushed, residual := Pushable(Conjuncts(p)), Staying(Conjuncts(p));
    if rows != [] {
      var n := |rows| - 1;
      var init, row := rows[..n], rows[n];
      PushOnRows(p, before, init, schema);
      ConjunctsTyped(p, schema);
      ConjunctsMean(p, row);
      SplitMeans(Conjuncts(p), row, schema);
      PassesAllConcat(row, before, pushed);
      assert rows == init + [row];
      ScanRowsAppend(init, row, before);
      ScanRowsAppend(init, row, before + pushed);
      FilterRowsAppend(p, ScanRows(init, before), row);
      FilterLeftAppend(residual, ScanRows(init, before + pushed), row);
    }
  }

  // ---------- Pushdown and exceptions ----------

  lemma {:induction false} InScanRows(rows: seq<Row>, pushed: seq<Condition>, row: Row)
    ensures row in ScanRows(rows, pushed) <==> row in rows && PassesAll(row, pushed)
  {
    if rows != [] {
      var n := |rows| - 1;
      InScanRows(rows[..n], pushed, row);
      assert rows == rows[..n] + [rows[n]];
    }
  }

  predicate Throws(p: Expr, row: Row) {
    Eval(p, row).Err?
  }

  lemma {:induction false} FilterThrowsIff(p: Expr, rows: seq<Row>)
    ensures FilterRows(p, rows).Err? <==> exists row :: row in rows && Throws(p, row)
  {
    if rows != [] {
      var n := |rows| - 1;
      FilterThrowsIff(p, rows[..n]);
      assert rows == rows[..n] + [rows[n]];
      if FilterRows(p, rows).Err? {
        assert FilterRows(p, rows[..n]).Err? || (rows[n] in rows && Throws(p, rows[n]));
      }
    }
  }

  lemma LeftThrowsIff(residual: seq<Expr>, rows: seq<Row>)
    ensures FilterLeft(residual, rows).Err? <==> exists row :: row in rows && EvalAll(residual, row).Err?
  {
    if residual != [] {
      FilterThrowsIff(Conjunction(residual), rows);
      forall row ensures Throws(Conjunction(residual), row) == EvalAll(residual, row).Err? {
        ConjunctionMeans(residual, row);
      }
    }
  }

  /** The filter throws on some row, and every row it throws on fails a condition that is pushed. */
  ghost predicate HidesOn(p: Expr, rows: seq<Row>) {
    && (exists row :: row in rows && Throws(p, row))
    && forall row | row in rows && Throws(p, row) :: !PassesAll(row, Pushable(Conjuncts(p)))
  }

  /** Both throw, or both return the same. */
  predicate SameOutcome(a: Rows, b: Rows) {
    a == b || (a.Err? && b.Err?)
  }

  /** After the push the rest throws exactly if some row passes the pushed conditions and makes the filter throw. */
  lemma PushThrowsIff(p: Expr, before: seq<Condition>, rows: seq<Row>, schema: seq<DataType>)
    requires TypedRefs(p, schema) && TypedRows(rows, schema)
    ensures FilterLeft(Staying(Conjuncts(p)), ScanRows(rows, before + Pushable(Conjuncts(p)))).Err?
            <==> exists row :: row in ScanRows(rows, before) && Throws(p, row) && PassesAll(row, Pushable(Conjuncts(p)))
  {
    var pushed, residual := Pushable(Conjuncts(p)), Staying(Conjuncts(p));
    LeftThrowsIff(residual, ScanRows(rows, before + pushed));
    ConjunctsTyped(p, schema);
    forall row
      ensures row in ScanRows(rows, before + pushed) && EvalAll(residual, row).Err?
              <==> row in ScanRows(rows, before) && Throws(p, row) && PassesAll(row, pushed)
    {
      InScanRows(rows, before, row);
      InScanRows(rows, before + pushed, row);
      PassesAllConcat(row, before, pushed);
      if row in rows {
        var k :| 0 <= k < |rows| && rows[k] == row;
        SplitMeans(Conjuncts(p), row, schema);
        ConjunctsMean(p, row);
      }
    }
  }

  /** The push keeps the outcome, errors included, unless the filter's only errors are on rows it now never sees. */
  lemma PushOutcomeIff(p: Expr, before: seq<Condition>, rows: seq<Row>, schema: seq<DataType>)
    requires TypedRefs(p, schema) && TypedRows(rows, schema)
    ensures var full := FilterRows(p, ScanRows(rows, before));
            var left := FilterLeft(Staying(Conjuncts(p)), ScanRows(rows, before + Pushable(Conjuncts(p))));
            && (SameOutcome(left, full) <==> !HidesOn(p, ScanRows(rows, before)))
            && (HidesOn(p, ScanRows(rows, before)) ==> full.Err? && left.Ok?)
  {
    PushOnRows(p, before, rows, schema);
    PushThrowsIff(p, before, rows, schema);
    FilterThrowsIff(p, ScanRows(rows, before));
  }

  /** Where no row that throws fails a pushed condition, the very same exception comes out. */
  lemma {:induction false} PushExactly(p: Expr, before: seq<Condition>, rows: seq<Row>, schema: seq<DataType>)
    requires TypedRefs(p, schema) && TypedRows(rows, schema)
    requires forall row | row in ScanRows(rows, before) && Throws(p, row) :: PassesAll(row, Pushable(Conjuncts(p)))
    ensures FilterLeft(Staying(Conjuncts(p)), ScanRows(rows, before + Pushable(Conjuncts(p))))
            == FilterRows(p, ScanRows(rows, before))
  {
    var pushed, residual := Pushable(Conjuncts(p)), Staying(Conjuncts(p));
    if rows != [] {
      var n := |rows| - 1;
      var init, row := rows[..n], rows[n];
      assert rows == init + [row];
      ScanRowsAppend(init, row, before);
      ScanRowsAppend(init, row, before + pushed);
      PushExactly(p, before, init, schema);
      ConjunctsTyped(p, schema);
      ConjunctsMean(p, row);
      SplitMeans(Conjuncts(p), row, schema);
      PassesAllConcat(row, before, pushed);
      FilterRowsAppend(p, ScanRows(init, before), row);
      FilterLeftAppend(residual, ScanRows(init, before + pushed), row);
    }
  }

  /** Below the first projection or aggregate the column references are to the table, with its types. */
  predicate TypedPlan(plan: Plan, schema: seq<DataType>) {
    match plan
    case Filter(p, child) => TypedPlan(child, schema) && (OnScan(child) ==> TypedRefs(p, schema))
    case Project(outputs, child) => TypedPlan(child, schema) && (OnScan(child) ==> TypedList(outputs, schema))
    case Aggregate(g, outputs, child) => TypedPlan(child, schema) && (OnScan(child) ==> TypedList(g + outputs, schema))
    case _ => true
  }

  predicate OnScan(plan: Plan) {
    plan.Scan? || (plan.Filter? && OnScan(plan.child))
  }

  lemma {:induction false} PushKeepsOnScan(plan: Plan)
    ensures OnScan(Push(plan).0) <==> OnScan(plan)
    decreases plan
  {
    if plan.Filter? {
      PushKeepsOnScan(plan.child);
    }
  }

  /**
   * Pushdown preserves the result: whatever the original plan returns without throwing, the pushed plan
   * returns. (It may return where the original throws: see PushHidesAnError.)
   */
  lemma {:induction false} PushPreserves(plan: Plan, rows: seq<Row>, schema: seq<DataType>, agg: Aggregator)
    requires TypedPlan(plan, schema) && TypedRows(rows, schema)
    ensures Meaning(plan, rows, agg).Ok? ==> Meaning(Push(plan).0, rows, agg) == Meaning(plan, rows, agg)
    decreases plan
  {
    match plan
    case Filter(p, child) =>
      PushPreserves(child, rows, schema, agg);
      PushKeepsOnScan(child);
      var below := Push(child).0;
      if below.Scan? {
        PushOnRows(p, below.pushed, rows, schema);
      }
    case Project(_, child) => PushPreserves(child, rows, schema, agg);
    case Aggregate(_, _, child) => PushPreserves(child, rows, schema, agg);
    case _ =>
  }

  /** A chain of filters that the push turns into a scan is that scan, and never throws. */
  lemma {:induction false} PushedAway(plan: Plan, rows: seq<Row>, schema: seq<DataType>, agg: Aggregator)
    requires TypedPlan(plan, schema) && TypedRows(rows, schema) && Push(plan).0.Scan?
    ensures Meaning(plan, rows, agg) == Ok(ScanRows(rows, Push(plan).0.pushed))
    decreases plan
  {
    if plan.Filter? {
      var before := Push(plan.child).0.pushed;
      PushKeepsOnScan(plan.child);
      PushedAway(plan.child, rows, schema, agg);
      ConjunctsTyped(plan.condition, schema);
      forall row | row in ScanRows(rows, before) ensures !Throws(plan.condition, row) {
        InScanRows(rows, before, row);
        var k :| 0 <= k < |rows| && rows[k] == row;
        PushableNeverThrows(Conjuncts(plan.condition), row, schema);
        ConjunctsMean(plan.condition, row);
      }
      PushExactly(plan.condition, before, rows, schema);
    }
  }

  lemma {:induction false} PushableNeverThrows(es: seq<Expr>, row: Row, schema: seq<DataType>)
    requires TypedList(es, schema) && TypedRow(row, schema) && Staying(es) == []
    ensures EvalAll(es, row).Ok?
  {
    if es != [] {
      var n := |es| - 1;
      assert es == es[..n] + [es[n]];
      assert |Staying(es)| == |Staying(es[..n])| + (if ExtractSimple(es[n]).Some? then 0 else 1);
      PushableNeverThrows(es[..n], row, schema);
      EvalAllConcat(es[..n], [es[n]], row);
      EvalAllOne(es[n], row);
      ExtractedMeans(es[n], row, schema);
    }
  }

  /**
   * The filter whose conditions are pushed throws on some of the rows it is given, and on none that the scan will
   * still let through.
   */
  ghost predicate HidesError(plan: Plan, rows: seq<Row>) {
    match plan
    case Filter(p, child) =>
      if Push(child).0.Scan? then HidesOn(p, ScanRows(rows, Push(child).0.pushed)) else HidesError(child, rows)
    case Project(_, child) => HidesError(child, rows)
    case Aggregate(_, _, child) => HidesError(child, rows)
    case _ => false
  }

  lemma {:induction false} HidingPlanThrows(plan: Plan, rows: seq<Row>, schema: seq<DataType>, agg: Aggregator)
    requires TypedPlan(plan, schema) && TypedRows(rows, schema) && HidesError(plan, rows)
    ensures Meaning(plan, rows, agg).Err?
    decreases plan
  {
    match plan
    case Filter(p, child) =>
      if Push(child).0.Scan? {
        PushedAway(child, rows, schema, agg);
        FilterThrowsIff(p, ScanRows(rows, Push(child).0.pushed));
      } else {
        HidingPlanThrows(child, rows, schema, agg);
      }
    case Project(_, child) => HidingPlanThrows(child, rows, schema, agg);
    case Aggregate(_, _, child) => HidingPlanThrows(child, rows, schema, agg);
  }

  /** A filter over a scan once its conditions have moved. */
  lemma PushedFilter(p: Expr, child: Plan, rows: seq<Row>, agg: Aggregator)
    requires Push(child).0.Scan?
    ensures Meaning(Push(Filter(p, child)).0, rows, agg)
            == FilterLeft(Staying(Conjuncts(p)), ScanRows(rows, Push(child).0.pushed + Pushable(Conjuncts(p))))
  {
    var es, scan := Conjuncts(p), Push(child).0;
    if Pushable(es) == [] {
      assert scan.pushed + [] == scan.pushed;
      NothingExtracted(es);
      FilterSame(p, ScanRows(rows, scan.pushed));
    }
  }

  lemma {:induction false} NothingExtracted(es: seq<Expr>)
    requires Pushable(es) == []
    ensures Staying(es) == es
  {
    if es != [] {
      var n := |es| - 1;
      assert ExtractSimple(es[n]).None? by {
        assert |Pushable(es)| == |Pushable(es[..n])| + (if ExtractSimple(es[n]).Some? then 1 else 0);
      }
      NothingExtracted(es[..n]);
      assert es == es[..n] + [es[n]];
    }
  }

  lemma {:induction false} FilterSame(p: Expr, rows: seq<Row>)
    ensures FilterRows(Conjunction(Conjuncts(p)), rows) == FilterRows(p, rows)
  {
    if rows != [] {
      FilterSame(p, rows[..|rows| - 1]);
      ConjunctionMeans(Conjuncts(p), rows[|rows| - 1]);
      ConjunctsMean(p, rows[|rows| - 1]);
    }
  }

  /** A filter whose conditions reach the scan: the outcome changes exactly if they drop every row it throws on. */
  lemma FilterPushSameIff(p: Expr, child: Plan, rows: seq<Row>, schema: seq<DataType>, agg: Aggregator)
    requires TypedRefs(p, schema) && TypedPlan(child, schema) && TypedRows(rows, schema) && Push(child).0.Scan?
    ensures SameOutcome(Meaning(Push(Filter(p, child)).0, rows, agg), Meaning(Filter(p, child), rows, agg))
            <==> !HidesOn(p, ScanRows(rows, Push(child).0.pushed))
    ensures HidesOn(p, ScanRows(rows, Push(child).0.pushed)) ==>
              Meaning(Filter(p, child), rows, agg).Err? && Meaning(Push(Filter(p, child)).0, rows, agg).Ok?
  {
    PushedAway(child, rows, schema, agg);
    PushedFilter(p, child, rows, agg);
    PushOutcomeIff(p, Push(child).0.pushed, rows, schema);
  }

  /**
   * Pushdown keeps the outcome of a plan, errors included, exactly unless it hides an error and nothing else
   * throws.
   */
  lemma {:induction false} PushSameIff(plan: Plan, rows: seq<Row>, schema: seq<DataType>, agg: Aggregator)
    requires TypedPlan(plan, schema) && TypedRows(rows, schema)
    ensures SameOutcome(Meaning(Push(plan).0, rows, agg), Meaning(plan, rows, agg))
            <==> !(HidesError(plan, rows) && Meaning(Push(plan).0, rows, agg).Ok?)
    decreases plan
  {
    if HidesError(plan, rows) {
      HidingPlanThrows(plan, rows, schema, agg);
    }
    match plan
    case Filter(p, child) =>
      PushKeepsOnScan(child);
      if Push(child).0.Scan? {
        FilterPushSameIff(p, child, rows, schema, agg);
      } else {
        PushSameIff(child, rows, schema, agg);
      }
    case Project(_, child) => PushSameIff(child, rows, schema, agg);
    case Aggregate(_, _, child) => PushSameIff(child, rows, schema, agg);
    case _ =>
  }

  // ---------- Well-typed plans never throw, so for them nothing is hidden ----------

  /** No string meets a number, no string is added. */
  predicate WellTyped(e: Expr, schema: seq<DataType>) {
    match e
    case ColumnRef(slot, t) => slot < |schema| && schema[slot] == t
    case Literal(_, _) => true
    case Binary(op, l, r, t) =>
      && WellTyped(l, schema) && WellTyped(r, schema)
      && (IsComparison(op) ==> (StaticKind(l, schema).KStr? <==> StaticKind(r, schema).KStr?))
      && (op.Add? || op.Sub? ==> !StaticKind(l, schema).KStr? && !StaticKind(r, schema).KStr?)
  }

  lemma {:induction false} WellTypedNeverThrows(e: Expr, row: Row, schema: seq<DataType>)
    requires WellTyped(e, schema) && TypedRow(row, schema)
    ensures Eval(e, row).Ok?
    decreases e
  {
    if e.Binary? {
      WellTypedNeverThrows(e.left, row, schema);
      WellTypedNeverThrows(e.right, row, schema);
      EvalKind(e.left, row, schema);
      EvalKind(e.right, row, schema);
      if !e.op.And? && !e.op.Or? {
        OperateNeverThrows(e.op, Eval(e.left, row).value, Eval(e.right, row).value, e.returnType);
        assert Eval(e, row) == Operate(e.op, Eval(e.left, row).value, Eval(e.right, row).value, e.returnType);
      }
    }
  }

  lemma OperateNeverThrows(op: BinaryOp, a: ExecValue, b: ExecValue, t: DataType)
    requires !op.And? && !op.Or?
    requires if IsComparison(op) then a.Str? == b.Str? else !a.Str? && !b.Str?
    ensures Operate(op, a, b, t).Ok?
  {
  }

  lemma {:induction false} WellTypedFilter(p: Expr, rows: seq<Row>, schema: seq<DataType>)
    requires WellTyped(p, schema) && TypedRows(rows, schema)
    ensures FilterRows(p, rows).Ok?
  {
    if rows != [] {
      WellTypedFilter(p, rows[..|rows| - 1], schema);
      WellTypedNeverThrows(p, rows[|rows| - 1], schema);
    }
  }

  // ---------- What a caller can check before ----------

  /** No conjunct that is pushed stands after one that can throw. */
  predicate Ordered(es: seq<Expr>, schema: seq<DataType>) {
    forall i, j | 0 <= i < j < |es| && ExtractSimple(es[j]).Some? :: WellTyped(es[i], schema)
  }

  predicate OrderedPlan(plan: Plan, schema: seq<DataType>) {
    match plan
    case Filter(p, child) => OrderedPlan(child, schema) && (Push(child).0.Scan? ==> Ordered(Conjuncts(p), schema))
    case Project(_, child) => OrderedPlan(child, schema)
    case Aggregate(_, _, child) => OrderedPlan(child, schema)
    case _ => true
  }

  /** Where the conjuncts throw, everything that is pushed has been passed. */
  lemma {:induction false} OrderedThrows(es: seq<Expr>, row: Row, schema: seq<DataType>)
    requires TypedList(es, schema) && TypedRow(row, schema) && Ordered(es, schema) && EvalAll(es, row).Err?
    ensures PassesAll(row, Pushable(es))
  {
    if es != [] {
      var n := |es| - 1;
      var init, last := es[..n], es[n];
      assert es == init + [last];
      EvalAllConcat(init, [last], row);
      EvalAllOne(last, row);
      if ExtractSimple(last).Some? {
        ExtractedMeans(last, row, schema);
        WellTypedNeverStops(init, row, schema);
      } else if EvalAll(init, row).Err? {
        OrderedThrows(init, row, schema);
      } else {
        SplitMeans(init, row, schema);
      }
    }
  }

  lemma {:induction false} WellTypedNeverStops(es: seq<Expr>, row: Row, schema: seq<DataType>)
    requires TypedRow(row, schema) && forall i | 0 <= i < |es| :: WellTyped(es[i], schema)
    ensures EvalAll(es, row).Ok?
  {
    if es != [] {
      WellTypedNeverThrows(es[0], row, schema);
      WellTypedNeverStops(es[1..], row, schema);
    }
  }

  /** On an ordered plan pushdown changes nothing at all: result or exception, it is the same one. */
  lemma {:induction false} OrderedPushSame(plan: Plan, rows: seq<Row>, schema: seq<DataType>, agg: Aggregator)
    requires TypedPlan(plan, schema) && TypedRows(rows, schema) && OrderedPlan(plan, schema)
    ensures Meaning(Push(plan).0, rows, agg) == Meaning(plan, rows, agg)
    decreases plan
  {
    match plan
    case Filter(p, child) =>
      PushKeepsOnScan(child);
      if Push(child).0.Scan? {
        var before := Push(child).0.pushed;
        PushedAway(child, rows, schema, agg);
        PushedFilter(p, child, rows, agg);
        ConjunctsTyped(p, schema);
        forall row | row in ScanRows(rows, before) && Throws(p, row) ensures PassesAll(row, Pushable(Conjuncts(p))) {
          InScanRows(rows, before, row);
          var k :| 0 <= k < |rows| && rows[k] == row;
          ConjunctsMean(p, row);
          OrderedThrows(Conjuncts(p), row, schema);
        }
        PushExactly(p, before, rows, schema);
      } else {
        OrderedPushSame(child, rows, schema, agg);
      }
    case Project(_, child) => OrderedPushSame(child, rows, schema, agg);
    case Aggregate(_, _, child) => OrderedPushSame(child, rows, schema, agg);
    case _ =>
  }

  /** Every filter directly on the scanned rows is well typed. */
  predicate WellTypedFilters(plan: Plan, schema: seq<DataType>) {
    match plan
    case Filter(p, child) => WellTypedFilters(child, schema) && (OnScan(child) ==> WellTyped(p, schema))
    case Project(_, child) => WellTypedFilters(child, schema)
    case Aggregate(_, _, child) => WellTypedFilters(child, schema)
    case _ => true
  }

  lemma {:induction false} WellTypedConjuncts(e: Expr, schema: seq<DataType>)
    requires WellTyped(e, schema)
    ensures forall i | 0 <= i < |Conjuncts(e)| :: WellTyped(Conjuncts(e)[i], schema)
    decreases e
  {
    if e.Binary? && e.op.And? {
      WellTypedConjuncts(e.left, schema);
      WellTypedConjuncts(e.right, schema);
    }
  }

  /** Well-typed filters are ordered, and a chain of them never throws before the push nor after it. */
  lemma {:induction false} WellTypedFiltersSame(plan: Plan, rows: seq<Row>, schema: seq<DataType>, agg: Aggregator)
    requires TypedPlan(plan, schema) && TypedRows(rows, schema) && WellTypedFilters(plan, schema)
    ensures OrderedPlan(plan, schema) && Meaning(Push(plan).0, rows, agg) == Meaning(plan, rows, agg)
    ensures OnScan(plan) ==>
              Meaning(plan, rows, agg).Ok? && TypedRows(Meaning(plan, rows, agg).value, schema)
    decreases plan
  {
    match plan
    case Scan(_, pushed) => ScanRowsTyped(rows, pushed, schema);
    case Filter(p, child) =>
      WellTypedFiltersSame(child, rows, schema, agg);
      PushKeepsOnScan(child);
      if OnScan(child) {
        WellTypedConjuncts(p, schema);
        WellTypedFilter(p, Meaning(child, rows, agg).value, schema);
        FilterRowsTyped(p, Meaning(child, rows, agg).value, schema);
      }
      OrderedPushSame(plan, rows, schema, agg);
    case Project(_, child) => WellTypedFiltersSame(child, rows, schema, agg);
    case Aggregate(_, _, child) => WellTypedFiltersSame(child, rows, schema, agg);
    case Command =>
  }

  lemma {:induction false} ScanRowsTyped(rows: seq<Row>, pushed: seq<Condition>, schema: seq<DataType>)
    requires TypedRows(rows, schema)
    ensures TypedRows(ScanRows(rows, pushed), schema)
  {
    if rows != [] {
      ScanRowsTyped(rows[..|rows| - 1], pushed, schema);
    }
  }

  lemma {:induction false} FilterRowsTyped(p: Expr, rows: seq<Row>, schema: seq<DataType>)
    requires TypedRows(rows, schema)
    ensures FilterRows(p, rows).Ok? ==> TypedRows(FilterRows(p, rows).value, schema)
  {
    if rows != [] {
      FilterRowsTyped(p, rows[..|rows| - 1], schema);
    }
  }

  // ---------- A plan whose error the push hides ----------

  const COMPARE: Expr := Binary(Gt, ColumnRef(0, Varchar), Literal(I32(0), Int32), Int32)
  const EQUAL: Expr := Binary(Eq, ColumnRef(1, Int32), Literal(I32(0), Int32), Int32)
  const HIDING: Plan := Filter(Binary(And, COMPARE, EQUAL, Int32), Scan([], []))
  const ZERO: Condition := Condition(1, EQ, I32(0))

  lemma HidingPushed()
    ensures Push(HIDING).0 == Filter(COMPARE, Scan([], [ZERO]))
  {
    var es := [COMPARE, EQUAL];
    assert Conjuncts(HIDING.condition) == es;
    assert es[..1] == [COMPARE] && [COMPARE][..0] == [];
    assert Pushable([COMPARE]) == [] && Pushable(es) == [ZERO];
    assert Staying([COMPARE]) == [COMPARE] && Staying(es) == [COMPARE];
  }

  lemma HidingThrows(row: Row)
    requires row == [Str("a"), I32(1)]
    ensures Eval(HIDING.condition, row).Err? && !Passes(row, ZERO)
  {
    assert Eval(COMPARE, row).Err?;
  }

  lemma HidingMeans(agg: Aggregator, row: Row)
    requires row == [Str("a"), I32(1)]
    ensures Meaning(HIDING, [row], agg).Err?
  {
    HidingThrows(row);
    assert [row] == [] + [row];
    ScanRowsAppend([], row, []);
    FilterRowsAppend(HIDING.condition, [], row);
    assert HIDING.child == Scan([], []);
    assert Meaning(HIDING.child, [row], agg) == Ok([row]);
  }

  lemma FilterOfNothing(p: Expr, c: Condition, row: Row, agg: Aggregator)
    requires !Passes(row, c)
    ensures Meaning(Filter(p, Scan([], [c])), [row], agg) == Ok([])
  {
    assert [row] == [] + [row];
    assert !PassesAll(row, [c]) by { assert [c][0] == c; }
    ScanRowsAppend([], row, [c]);
  }

  /** `x > 0 AND y = 0` on a string x: the filter throws, the scan drops the row before it is compared. */
  lemma PushHidesAnError(agg: Aggregator, row: Row)
    requires row == [Str("a"), I32(1)]
    ensures Meaning(HIDING, [row], agg).Err?
    ensures Meaning(Push(HIDING).0, [row], agg) == Ok([])
  {
    HidingMeans(agg, row);
    HidingThrows(row);
    FilterOfNothing(COMPARE, ZERO, row, agg);
    HidingPushed();
  }
}
