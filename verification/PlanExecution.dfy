/** Executing an optimised plan: storage scan over the required columns, expressions compiled against its output. */
module PlanExecution {
  import opened Wrappers
  import opened Values
  import opened Expressions
  import opened StoragePredicates
  import opened StorageScan
  import opened TableScan
  import opened Optimizer
  import opened OptimizerProofs
  import opened OptimizerFixpoint
  import opened PushdownExactness
  import opened StoredPlans

  // ---------- rows cut down to the scanned columns ----------

  /** What the scan hands on of a row: the required columns, or all of them when none is. */
  function Shown(row: Row, required: seq<nat>): Row {
    if required == [] then row
    else seq(|required|, i requires 0 <= i < |required| => if required[i] < |row| then row[required[i]] else I32(0))
  }

  function ShownAll(rows: seq<Row>, required: seq<nat>): (r: seq<Row>)
    ensures |r| == |rows| && forall i | 0 <= i < |rows| :: r[i] == Shown(rows[i], required)
  {
    seq(|rows|, i requires 0 <= i < |rows| => Shown(rows[i], required))
  }

  predicate ColumnsIn(e: Expr, required: seq<nat>) {
    forall c | c in ExprColumns(e) :: c in required
  }

  /** Compiling an expression against the scan's output: column indices become slots. */
  function Compile(e: Expr, required: seq<nat>): Option<Expr> {
    match e
    case ColumnRef(slot, t) =>
      (match IndexOf(required, slot, 0) case None => None case Some(k) => Some(ColumnRef(k, t)))
    case Literal(_, _) => Some(e)
    case Binary(op, l, r, t) =>
      match (Compile(l, required), Compile(r, required))
      case (Some(a), Some(b)) => Some(Binary(op, a, b, t))
      case _ => None
  }

  lemma {:induction false} CompiledMeans(e: Expr, required: seq<nat>, row: Row, schema: seq<DataType>)
    requires ColumnsIn(e, required) && TypedRefs(e, schema) && TypedRow(row, schema)
    ensures Compile(e, required).Some?
    ensures Eval(Compile(e, required).value, Shown(row, required)) == Eval(e, row)
    decreases e
  {
    match e
    case ColumnRef(slot, t) =>
      assert slot in ExprColumns(e);
      assert required[0..] == required;
      FoundIfThere(required, slot, 0);
    case Literal(_, _) =>
    case Binary(op, l, r, t) =>
      assert forall c | c in ExprColumns(l) :: c in ExprColumns(e);
      assert forall c | c in ExprColumns(r) :: c in ExprColumns(e);
      CompiledMeans(l, required, row, schema);
      CompiledMeans(r, required, row, schema);
  }

  lemma {:induction false} CompileCovered(e: Expr, required: seq<nat>)
    requires ColumnsIn(e, required)
    ensures Compile(e, required).Some?
    decreases e
  {
    match e
    case ColumnRef(slot, t) =>
      assert slot in ExprColumns(e);
      assert required[0..] == required;
      FoundIfThere(required, slot, 0);
    case Literal(_, _) =>
    case Binary(op, l, r, t) =>
      assert forall c | c in ExprColumns(l) :: c in ExprColumns(e);
      assert forall c | c in ExprColumns(r) :: c in ExprColumns(e);
      CompileCovered(l, required);
      CompileCovered(r, required);
  }

  function CompileList(es: seq<Expr>, required: seq<nat>): (r: Option<seq<Expr>>)
    ensures r.Some? ==> |r.value| == |es|
  {
    if es == [] then Some([])
    else
      match (CompileList(es[..|es| - 1], required), Compile(es[|es| - 1], required))
      case (Some(done), Some(last)) => Some(done + [last])
      case _ => None
  }

  predicate ListIn(es: seq<Expr>, required: seq<nat>) {
    forall i | 0 <= i < |es| :: ColumnsIn(es[i], required)
  }

  lemma {:induction false} ListCompiles(es: seq<Expr>, required: seq<nat>)
    requires ListIn(es, required)
    ensures CompileList(es, required).Some?
  {
    if es != [] {
      ListCompiles(es[..|es| - 1], required);
      CompileCovered(es[|es| - 1], required);
    }
  }

  // ---------- filters, tuples ----------

  /** The results with their rows cut down; an exception is the same exception. */
  function Cut(rows: Rows, required: seq<nat>): Rows {
    match rows case Err(m) => Err(m) case Ok(rs) => Ok(ShownAll(rs, required))
  }

  lemma {:induction false} FilterShown(p: Expr, required: seq<nat>, rows: seq<Row>, schema: seq<DataType>)
    requires ColumnsIn(p, required) && TypedRefs(p, schema) && TypedRows(rows, schema)
    ensures Compile(p, required).Some?
    ensures FilterRows(Compile(p, required).value, ShownAll(rows, required)) == Cut(FilterRows(p, rows), required)
  {
    CompileCovered(p, required);
    if rows != [] {
      var n := |rows| - 1;
      FilterShown(p, required, rows[..n], schema);
      CompiledMeans(p, required, rows[n], schema);
      assert ShownAll(rows, required)[..n] == ShownAll(rows[..n], required);
      if FilterRows(p, rows[..n]).Ok? {
        var done := FilterRows(p, rows[..n]).value;
        assert ShownAll(done + [rows[n]], required) == ShownAll(done, required) + [Shown(rows[n], required)];
      }
    }
  }

  lemma CompiledValue(e: Expr, required: seq<nat>, row: Row, schema: seq<DataType>, stored: bool)
    requires ColumnsIn(e, required) && TypedRefs(e, schema) && TypedRow(row, schema)
    ensures Compile(e, required).Some?
    ensures ValueOf(Compile(e, required).value, Shown(row, required), stored) == ValueOf(e, row, stored)
  {
    CompiledMeans(e, required, row, schema);
  }

  lemma {:induction false} TupleShown(es: seq<Expr>, required: seq<nat>, row: Row, schema: seq<DataType>,
                                     stored: bool)
    requires ListIn(es, required) && TypedList(es, schema) && TypedRow(row, schema)
    ensures CompileList(es, required).Some?
    ensures Tuple(CompileList(es, required).value, Shown(row, required), stored) == Tuple(es, row, stored)
  {
    ListCompiles(es, required);
    if es != [] {
      var n := |es| - 1;
      TupleShown(es[..n], required, row, schema, stored);
      CompiledValue(es[n], required, row, schema, stored);
      var c := CompileList(es, required).value;
      assert c[..n] == CompileList(es[..n], required).value;
    }
  }

  lemma {:induction false} TuplesShown(es: seq<Expr>, required: seq<nat>, rows: seq<Row>, schema: seq<DataType>,
                                      stored: bool)
    requires ListIn(es, required) && TypedList(es, schema) && TypedRows(rows, schema)
    ensures CompileList(es, required).Some?
    ensures TupleRows(CompileList(es, required).value, ShownAll(rows, required), stored) == TupleRows(es, rows, stored)
  {
    ListCompiles(es, required);
    if rows != [] {
      var n := |rows| - 1;
      TuplesShown(es, required, rows[..n], schema, stored);
      TupleShown(es, required, rows[n], schema, stored);
      assert ShownAll(rows, required)[..n] == ShownAll(rows[..n], required);
    }
  }

  // ---------- executing a plan ----------

  function RequiredOf(plan: Plan): seq<nat> {
    match FindScan(plan) case None => [] case Some(scan) => scan.required
  }

  /** The table scan of TableScan.Drain: it throws where a condition does not bind. */
  function ExecScan(required: seq<nat>, pushed: seq<Condition>, t: Table): Rows {
    var options := ScanOptions(required, pushed);
    if !t.Scannable(options) then Err("unknown column")
    else if BindFails(t, options) then Err("pushed predicate does not bind")
    else Ok(TakenFrom(t, options, 0))
  }

  function ExecFilter(p: Expr, required: seq<nat>, rows: seq<Row>): Rows {
    match Compile(p, required)
    case None => Err("column not found in child output schema")
    case Some(compiled) => FilterRows(compiled, rows)
  }

  function ExecTuples(es: seq<Expr>, required: seq<nat>, rows: seq<Row>, stored: bool): Rows {
    match CompileList(es, required)
    case None => Err("column not found in child output schema")
    case Some(compiled) => TupleRows(compiled, rows, stored)
  }

  /** Expressions directly on the scan are compiled against the columns it reads. */
  function Exec(plan: Plan, t: Table, agg: Aggregator): Rows {
    match plan
    case Scan(required, pushed) => ExecScan(required, pushed, t)
    case Filter(p, child) =>
      (match Exec(child, t, agg)
       case Err(m) => Err(m)
       case Ok(rs) => if OnScan(child) then ExecFilter(p, RequiredOf(child), rs) else FilterRows(p, rs))
    case Project(outputs, child) =>
      (match Exec(child, t, agg)
       case Err(m) => Err(m)
       case Ok(rs) => if OnScan(child) then ExecTuples(outputs, RequiredOf(child), rs, true)
                     else TupleRows(outputs, rs, true))
    case Aggregate(g, outputs, child) =>
      (match Exec(child, t, agg)
       case Err(m) => Err(m)
       case Ok(rs) =>
         match (if OnScan(child) then ExecTuples(g + outputs, RequiredOf(child), rs, false)
                else TupleRows(g + outputs, rs, false))
         case Err(m) => Err(m)
         case Ok(ts) => agg(g, outputs, ts))
    case Command => Ok([])
  }

  /** Every referenced column exists, and the pushed conditions are the optimizer's. */
  predicate Executable(plan: Plan, schema: seq<ColumnSchema>) {
    && TypedPlan(plan, Types(schema)) && PushedForms(schema, PushedOf(plan))
    && (FindScan(plan).Some? ==> Covered(plan, RequiredOf(plan)))
    && forall i | 0 <= i < |RequiredOf(plan)| :: RequiredOf(plan)[i] < |schema|
  }

  lemma ChildExecutable(plan: Plan, schema: seq<ColumnSchema>)
    requires (plan.Filter? || plan.Project? || plan.Aggregate?) && Executable(plan, schema)
    ensures Executable(plan.child, schema) && RequiredOf(plan) == RequiredOf(plan.child)
  {
    assert FindScan(plan) == FindScan(plan.child);
    assert forall c | c in RequiredColumns(plan.child) :: c in RequiredColumns(plan);
  }

  lemma ShownIsOutput(schema: seq<ColumnSchema>, options: ScanOptions, row: Row)
    requires Positional(schema) && RowOf(schema, row) && KnownColumns(schema, options.columns)
    ensures OutputRow(schema, options, row) == Shown(row, options.columns)
  {
    if options.columns == [] {
      AllColumnsAreTheRow(schema, row);
    } else {
      forall i | 0 <= i < |options.columns| ensures ColumnIndex(schema, options.columns[i]) == options.columns[i] {
        PositionalIndex(schema, options.columns[i]);
      }
    }
  }

  lemma {:induction false} TakenShown(schema: seq<ColumnSchema>, required: seq<nat>, pushed: seq<Condition>, s: Segment,
                                      rows: seq<Row>)
    requires Positional(schema) && Scannable(schema, ScanOptions(required, pushed), s) && RowsOf(schema, rows)
    ensures Scannable(schema, AllOf(pushed), s)
    ensures Taken(schema, ScanOptions(required, pushed), s, rows)
            == ShownAll(Taken(schema, AllOf(pushed), s, rows), required)
  {
    if rows != [] {
      var n := |rows| - 1;
      TakenShown(schema, required, pushed, s, rows[..n]);
      ShownIsOutput(schema, ScanOptions(required, pushed), rows[n]);
      WholeRow(schema, pushed, rows[n]);
      var done := Taken(schema, AllOf(pushed), s, rows[..n]);
      assert ShownAll(done + [rows[n]], required) == ShownAll(done, required) + [Shown(rows[n], required)];
    }
  }

  /** Scanning the required columns is scanning all of them and dropping the rest. */
  lemma {:induction false} ScanShown(t: Table, required: seq<nat>, pushed: seq<Condition>, g: nat)
    requires WellStored(t) && t.Scannable(ScanOptions(required, pushed)) && g <= |t.segments|
    ensures t.Scannable(AllOf(pushed))
    ensures TakenFrom(t, ScanOptions(required, pushed), g) == ShownAll(TakenFrom(t, AllOf(pushed), g), required)
    decreases |t.segments| - g
  {
    WellStoredScannable(t, pushed);
    if g < |t.segments| {
      ScanShown(t, required, pushed, g + 1);
      SegmentShown(t.schema, required, pushed, t.segments[g]);
      ShownConcat(TakenRest(t.schema, AllOf(pushed), t.segments[g], 0), TakenFrom(t, AllOf(pushed), g + 1), required);
    }
  }

  lemma ShownConcat(a: seq<Row>, b: seq<Row>, required: seq<nat>)
    ensures ShownAll(a + b, required) == ShownAll(a, required) + ShownAll(b, required)
  {
  }

  lemma SegmentShown(schema: seq<ColumnSchema>, required: seq<nat>, pushed: seq<Condition>, s: Segment)
    requires Positional(schema) && Scannable(schema, ScanOptions(required, pushed), s)
    ensures Scannable(schema, AllOf(pushed), s)
    ensures TakenRest(schema, ScanOptions(required, pushed), s, 0)
            == ShownAll(TakenRest(schema, AllOf(pushed), s, 0), required)
  {
    assert s.rows[0..] == s.rows;
    TakenShown(schema, required, pushed, s, s.rows);
  }

  lemma ScanBinds(t: Table, required: seq<nat>, pushed: seq<Condition>)
    requires WellStored(t) && PushedForms(t.schema, pushed)
    requires forall i | 0 <= i < |pushed| :: pushed[i].column in required
    requires forall i | 0 <= i < |required| :: required[i] < |t.schema|
    ensures t.Scannable(ScanOptions(required, pushed)) && !BindFails(t, ScanOptions(required, pushed))
  {
    forall i | 0 <= i < |required| ensures HasColumn(t.schema, required[i]) {
      PositionalIndex(t.schema, required[i]);
    }
    forall i | 0 <= i < |pushed| ensures Bind(required, t.schema, pushed[i]).Ok? {
      assert PushedForm(t.schema, pushed[i]);
      PositionalIndex(t.schema, pushed[i].column);
      assert required[0..] == required;
      FoundIfThere(required, pushed[i].column, 0);
      BindOkIff(required, t.schema, pushed[i]);
    }
  }

  lemma {:induction false} TakenTyped(t: Table, pushed: seq<Condition>, g: nat)
    requires WellStored(t) && t.Scannable(AllOf(pushed)) && g <= |t.segments|
    ensures TypedRows(TakenFrom(t, AllOf(pushed), g), Types(t.schema))
    decreases |t.segments| - g
  {
    if g < |t.segments| {
      TakenTyped(t, pushed, g + 1);
      assert t.segments[g].rows[0..] == t.segments[g].rows;
      SegmentTyped(t.schema, pushed, t.segments[g], t.segments[g].rows);
      TypedConcat(TakenRest(t.schema, AllOf(pushed), t.segments[g], 0), TakenFrom(t, AllOf(pushed), g + 1),
                  Types(t.schema));
    }
  }

  lemma TypedConcat(a: seq<Row>, b: seq<Row>, schema: seq<DataType>)
    requires TypedRows(a, schema) && TypedRows(b, schema)
    ensures TypedRows(a + b, schema)
  {
  }

  lemma {:induction false} SegmentTyped(schema: seq<ColumnSchema>, pushed: seq<Condition>, s: Segment, rows: seq<Row>)
    requires Positional(schema) && Scannable(schema, AllOf(pushed), s) && RowsOf(schema, rows)
    ensures TypedRows(Taken(schema, AllOf(pushed), s, rows), Types(schema))
  {
    if rows != [] {
      SegmentTyped(schema, pushed, s, rows[..|rows| - 1]);
      WholeRow(schema, pushed, rows[|rows| - 1]);
      SameRows(schema, rows);
    }
  }

  lemma {:induction false} StoredTyped(plan: Plan, t: Table, agg: Aggregator)
    requires WellStored(t) && OnScan(plan)
    ensures StoredMeaning(plan, t, agg).Ok? ==> TypedRows(StoredMeaning(plan, t, agg).value, Types(t.schema))
    decreases plan
  {
    match plan
    case Scan(_, pushed) =>
      WellStoredScannable(t, pushed);
      TakenTyped(t, pushed, 0);
    case Filter(p, child) =>
      StoredTyped(child, t, agg);
      if StoredMeaning(child, t, agg).Ok? {
        FilterRowsTyped(p, StoredMeaning(child, t, agg).value, Types(t.schema));
      }
  }

  lemma {:induction false} ListCovered(es: seq<Expr>, required: seq<nat>)
    requires forall c | c in ListColumns(es) :: c in required
    ensures ListIn(es, required)
  {
    if es != [] {
      assert forall c | c in ListColumns(es[1..]) :: c in ListColumns(es);
      ListCovered(es[1..], required);
      assert forall c | c in ExprColumns(es[0]) :: c in ListColumns(es);
      forall i | 0 <= i < |es| ensures ColumnsIn(es[i], required) {
        if i > 0 { assert es[i] == es[1..][i - 1]; }
      }
    }
  }

  lemma {:induction false} ListColumnsConcat(a: seq<Expr>, b: seq<Expr>)
    ensures ListColumns(a + b) == ListColumns(a) + ListColumns(b)
  {
    if a == [] {
      assert a + b == b;
    } else {
      ListColumnsConcat(a[1..], b);
      assert (a + b)[1..] == a[1..] + b;
      AppendAssociates(ExprColumns(a[0]), ListColumns(a[1..]), ListColumns(b));
    }
  }

  /**
   * Reading only the required columns is enough: executing the plan gives what it means over the stored table, the
   * same exceptions included. Above a projection or aggregate the rows are the same; below, they are cut down.
   */
  lemma {:induction false} ExecIsMeaning(plan: Plan, t: Table, agg: Aggregator)
    requires WellStored(t) && Executable(plan, t.schema)
    ensures Exec(plan, t, agg)
            == if OnScan(plan) then Cut(StoredMeaning(plan, t, agg), RequiredOf(plan)) else StoredMeaning(plan, t, agg)
    decreases plan
  {
    match plan
    case Scan(required, pushed) => ExecScanIsMeaning(required, pushed, t, agg);
    case Command =>
    case Filter(p, child) =>
      ChildExecutable(plan, t.schema);
      ExecIsMeaning(child, t, agg);
      if OnScan(child) && StoredMeaning(child, t, agg).Ok? {
        StoredTyped(child, t, agg);
        OnScanHasScan(child);
        assert forall c | c in ExprColumns(p) :: c in RequiredColumns(plan);
        FilterShown(p, RequiredOf(child), StoredMeaning(child, t, agg).value, Types(t.schema));
      }
    case Project(outputs, child) =>
      ChildExecutable(plan, t.schema);
      ExecIsMeaning(child, t, agg);
      if OnScan(child) && StoredMeaning(child, t, agg).Ok? {
        StoredTyped(child, t, agg);
        OnScanHasScan(child);
        assert forall c | c in ListColumns(outputs) :: c in RequiredColumns(plan);
        ListCovered(outputs, RequiredOf(child));
        TuplesShown(outputs, RequiredOf(child), StoredMeaning(child, t, agg).value, Types(t.schema), true);
      }
    case Aggregate(g, outputs, child) =>
      ChildExecutable(plan, t.schema);
      ExecIsMeaning(child, t, agg);
      if OnScan(child) && StoredMeaning(child, t, agg).Ok? {
        StoredTyped(child, t, agg);
        OnScanHasScan(child);
        ListColumnsConcat(g, outputs);
        assert forall c | c in ListColumns(g + outputs) :: c in RequiredColumns(plan);
        ListCovered(g + outputs, RequiredOf(child));
        TuplesShown(g + outputs, RequiredOf(child), StoredMeaning(child, t, agg).value, Types(t.schema), false);
      }
  }

  lemma ExecScanIsMeaning(required: seq<nat>, pushed: seq<Condition>, t: Table, agg: Aggregator)
    requires WellStored(t) && Executable(Scan(required, pushed), t.schema)
    ensures Exec(Scan(required, pushed), t, agg) == Cut(StoredMeaning(Scan(required, pushed), t, agg), required)
  {
    forall i | 0 <= i < |pushed| ensures pushed[i].column in required {
      assert PushedColumns(pushed)[i] in RequiredColumns(Scan(required, pushed));
    }
    ScanBinds(t, required, pushed);
    ScanShown(t, required, pushed, 0);
  }

  lemma {:induction false} OnScanHasScan(plan: Plan)
    requires OnScan(plan)
    ensures FindScan(plan).Some?
    decreases plan
  {
    if plan.Filter? {
      OnScanHasScan(plan.child);
    }
  }

  // ---------- the optimised plan, executed ----------

  lemma {:induction false} ConjunctsColumns(e: Expr)
    ensures forall i, c | 0 <= i < |Conjuncts(e)| && c in ExprColumns(Conjuncts(e)[i]) :: c in ExprColumns(e)
    decreases e
  {
    if e.Binary? && e.op.And? {
      ConjunctsColumns(e.left);
      ConjunctsColumns(e.right);
    }
  }

  lemma {:induction false} ConjunctionColumns(es: seq<Expr>, columns: seq<nat>)
    requires es != [] && ListIn(es, columns)
    ensures ColumnsIn(Conjunction(es), columns)
  {
    if |es| > 1 {
      ConjunctionColumns(es[..|es| - 1], columns);
      assert ColumnsIn(es[|es| - 1], columns);
    }
  }

  lemma {:induction false} PushableColumns(es: seq<Expr>, columns: seq<nat>)
    requires ListIn(es, columns)
    ensures forall i | 0 <= i < |Pushable(es)| :: Pushable(es)[i].column in columns
  {
    if es != [] {
      var last := es[|es| - 1];
      PushableColumns(es[..|es| - 1], columns);
      if ExtractSimple(last).Some? {
        assert ColumnsIn(last, columns) && last.left.slot in ExprColumns(last);
      }
    }
  }

  lemma {:induction false} ConjunctionTyped(es: seq<Expr>, schema: seq<DataType>)
    requires es != [] && TypedList(es, schema)
    ensures TypedRefs(Conjunction(es), schema)
  {
    if |es| > 1 {
      ConjunctionTyped(es[..|es| - 1], schema);
    }
  }

  lemma StayingList(es: seq<Expr>, columns: seq<nat>, schema: seq<DataType>)
    ensures ListIn(es, columns) ==> ListIn(Staying(es), columns)
    ensures TypedList(es, schema) ==> TypedList(Staying(es), schema)
  {
    forall i | 0 <= i < |Staying(es)| ensures Staying(es)[i] in es {
    }
  }

  /** Pushing refers to no new column and keeps the types. */
  lemma {:induction false} PushKeepsShape(plan: Plan, schema: seq<DataType>)
    requires TypedPlan(plan, schema)
    ensures TypedPlan(Push(plan).0, schema)
    ensures forall c | c in RequiredColumns(Push(plan).0) :: c in RequiredColumns(plan)
    decreases plan
  {
    if plan.Filter? || plan.Project? || plan.Aggregate? {
      PushKeepsShape(plan.child, schema);
      PushKeepsOnScan(plan.child);
    }
    if plan.Filter? && Push(plan.child).0.Scan? {
      PushedFilterShape(plan.condition, plan.child, schema);
    }
  }

  lemma MovedColumns(scan: Plan, es: seq<Expr>, columns: seq<nat>, c: nat)
    requires scan.Scan? && ListIn(es, columns) && c in PushedColumns(scan.pushed + Pushable(es))
    ensures c in columns || c in RequiredColumns(scan)
  {
    var pushed := scan.pushed + Pushable(es);
    PushableColumns(es, columns);
    var i :| 0 <= i < |pushed| && pushed[i].column == c;
    if i < |scan.pushed| {
      assert PushedColumns(scan.pushed)[i] == c;
    } else {
      assert Pushable(es)[i - |scan.pushed|].column == c;
    }
  }

  lemma StayingColumns(es: seq<Expr>, columns: seq<nat>, c: nat)
    requires ListIn(es, columns) && Staying(es) != [] && c in ExprColumns(Conjunction(Staying(es)))
    ensures c in columns
  {
    StayingList(es, columns, []);
    ConjunctionColumns(Staying(es), columns);
  }

  lemma PushedFilterShape(p: Expr, child: Plan, schema: seq<DataType>)
    requires Push(child).0.Scan? && TypedRefs(p, schema)
    requires forall c | c in RequiredColumns(Push(child).0) :: c in RequiredColumns(child)
    ensures TypedPlan(Push(Filter(p, child)).0, schema)
    ensures forall c | c in RequiredColumns(Push(Filter(p, child)).0) :: c in RequiredColumns(Filter(p, child))
  {
    var scan, es, columns := Push(child).0, Conjuncts(p), ExprColumns(p);
    ConjunctsTyped(p, schema);
    StayingList(es, columns, schema);
    if Staying(es) != [] {
      ConjunctionTyped(Staying(es), schema);
    }
    forall c | c in RequiredColumns(Push(Filter(p, child)).0) ensures c in RequiredColumns(Filter(p, child)) {
      PushedFilterColumn(p, child, c);
    }
  }

  lemma PushedFilterColumn(p: Expr, child: Plan, c: nat)
    requires Push(child).0.Scan? && c in RequiredColumns(Push(Filter(p, child)).0)
    ensures c in ExprColumns(p) || c in RequiredColumns(Push(child).0)
  {
    var scan, es, columns := Push(child).0, Conjuncts(p), ExprColumns(p);
    ConjunctsColumns(p);
    assert ListIn(es, columns);
    var pushed := scan.pushed + Pushable(es);
    if Pushable(es) == [] {
      assert RequiredColumns(Filter(p, scan)) == columns + RequiredColumns(scan);
    } else if c in PushedColumns(pushed) {
      MovedColumns(scan, es, columns, c);
    } else if Staying(es) != [] {
      assert RequiredColumns(Filter(Conjunction(Staying(es)), scan.(pushed := pushed)))
             == ExprColumns(Conjunction(Staying(es))) + PushedColumns(pushed);
      StayingColumns(es, columns, c);
    }
  }

  lemma {:induction false} RequiredChangesNothing(plan: Plan, required: seq<nat>, schema: seq<DataType>)
    ensures TypedPlan(WithRequired(plan, required), schema) == TypedPlan(plan, schema)
    ensures OnScan(WithRequired(plan, required)) == OnScan(plan)
    ensures PushedOf(WithRequired(plan, required)) == PushedOf(plan)
    decreases plan
  {
    if plan.Filter? || plan.Project? || plan.Aggregate? {
      RequiredChangesNothing(plan.child, required, schema);
      assert PushedOf(plan) == PushedOf(plan.child);
      assert PushedOf(WithRequired(plan, required)) == PushedOf(WithRequired(plan.child, required));
    }
  }

  /** What the binder hands to the optimizer for a table: typed, every column there, nothing pushed yet. */
  predicate Bound(plan: Plan, schema: seq<ColumnSchema>) {
    && TypedPlan(plan, Types(schema)) && PlainLiterals(plan) && PushedOf(plan) == []
    && forall c | c in RequiredColumns(plan) :: c < |schema|
  }

  lemma OptimisedIsExecutable(root: Plan, r: Plan, schema: seq<ColumnSchema>)
    requires Optimised(root, r) && Bound(root, schema)
    ensures Executable(r, schema) && PushedOf(r) == PushedOf(Push(root).0)
    ensures OnScan(r) == OnScan(root)
  {
    var pushed := Push(root).0;
    PushKeepsShape(root, Types(schema));
    PushKeepsForms(root, schema);
    PushKeepsOnScan(root);
    if FindScan(pushed).Some? {
      var required: seq<nat> :| SortedUnique(RequiredColumns(pushed), required) && r == WithRequired(pushed, required);
      RequiredChangesNothing(pushed, required, Types(schema));
      RequiredUnderRequired(pushed, required);
      RequiredExist(root, required, |schema|);
    }
  }

  lemma RequiredExist(root: Plan, required: seq<nat>, n: nat)
    requires forall c | c in RequiredColumns(Push(root).0) :: c in RequiredColumns(root)
    requires forall c | c in RequiredColumns(root) :: c < n
    requires SortedUnique(RequiredColumns(Push(root).0), required)
    ensures forall i | 0 <= i < |required| :: required[i] < n
  {
    forall i | 0 <= i < |required| ensures required[i] < n {
      assert required[i] in required;
    }
  }

  lemma OptimisedStored(root: Plan, r: Plan, t: Table, agg: Aggregator)
    requires WellStored(t) && Optimised(root, r)
    ensures StoredMeaning(r, t, agg) == StoredMeaning(Push(root).0, t, agg)
  {
    var pushed := Push(root).0;
    if FindScan(pushed).Some? {
      var required: seq<nat> :| SortedUnique(RequiredColumns(pushed), required) && r == WithRequired(pushed, required);
      StoredIgnoresRequired(pushed, required, t, agg);
    }
  }

  lemma {:induction false} StoredIgnoresRequired(plan: Plan, required: seq<nat>, t: Table, agg: Aggregator)
    requires WellStored(t)
    ensures StoredMeaning(WithRequired(plan, required), t, agg) == StoredMeaning(plan, t, agg)
    decreases plan
  {
    if plan.Filter? || plan.Project? || plan.Aggregate? {
      StoredIgnoresRequired(plan.child, required, t, agg);
    }
  }

  /**
   * Pushdown, pruning, zone maps, binding and compilation together: where no pushed condition misreads a value, the
   * executed plan returns what the query means over the table's rows, and where the filters are ordered it also
   * throws just what the query throws.
   */
  lemma OptimisedExecutes(root: Plan, r: Plan, t: Table, agg: Aggregator)
    requires WellStored(t) && Optimised(root, r) && Bound(root, t.schema) && Clean(t, PushedOf(Push(root).0))
    ensures var meant, done := Meaning(root, TableRows(t), agg), Exec(r, t, agg);
            var wanted := if OnScan(root) then Cut(meant, RequiredOf(r)) else meant;
            && (meant.Ok? || OrderedPlan(root, Types(t.schema)) ==> done == wanted)
            && (SameOutcome(done, wanted) <==> !(HidesError(root, TableRows(t)) && done.Ok?))
  {
    RowsTyped(t);
    OptimisedIsExecutable(root, r, t.schema);
    ExecIsMeaning(r, t, agg);
    OptimisedStored(root, r, t, agg);
    CleanMeaning(Push(root).0, t, agg);
    PushPreserves(root, TableRows(t), Types(t.schema), agg);
    PushSameIff(root, TableRows(t), Types(t.schema), agg);
    if HidesError(root, TableRows(t)) {
      HidingPlanThrows(root, TableRows(t), Types(t.schema), agg);
    }
    if OrderedPlan(root, Types(t.schema)) {
      OrderedPushSame(root, TableRows(t), Types(t.schema), agg);
    }
  }
}
