/** Segment verdict, batch read, row filter and resumable cursor: the three layers of a table scan. */
module StorageScan {
  import opened Wrappers
  import opened Values
  import opened Expressions
  import opened Batches
  import opened Rounding
  import opened FloatRounding
  import opened ZoneMaps
  import opened StoragePredicates

  datatype ScanOptions = ScanOptions(columns: seq<nat>, conditions: seq<Condition>)

  datatype Segment = Segment(stats: seq<Stats>, rows: seq<Row>)

  predicate RowOf(schema: seq<ColumnSchema>, row: Row) {
    |row| == |schema| && forall i | 0 <= i < |row| :: HasType(row[i], schema[i].dataType)
  }

  predicate RowsOf(schema: seq<ColumnSchema>, rows: seq<Row>) {
    forall r | 0 <= r < |rows| :: RowOf(schema, rows[r])
  }

  function ColumnOf(schema: seq<ColumnSchema>, rows: seq<Row>, k: nat): (data: seq<ExecValue>)
    requires RowsOf(schema, rows) && k < |schema|
    ensures |data| == |rows| && OfType(data, schema[k].dataType)
    ensures forall r | 0 <= r < |rows| :: data[r] == rows[r][k]
  {
    assert forall r | 0 <= r < |rows| :: RowOf(schema, rows[r]);
    seq(|rows|, r requires 0 <= r < |rows| => rows[r][k])
  }

  /** A segment as the column builders leave it. */
  predicate SegmentOf(schema: seq<ColumnSchema>, s: Segment) {
    && RowsOf(schema, s.rows)
    && |s.stats| == |schema|
    && forall k | 0 <= k < |schema| :: s.stats[k] == StatsOf(schema[k].dataType, ColumnOf(schema, s.rows, k))
  }

  predicate KnownColumns(schema: seq<ColumnSchema>, columns: seq<nat>) {
    forall i {:trigger HasColumn(schema, columns[i])} | 0 <= i < |columns| :: HasColumn(schema, columns[i])
  }

  /** No columns asked for means all of them. */
  function OutColumns(schema: seq<ColumnSchema>, columns: seq<nat>): (r: seq<nat>)
    ensures KnownColumns(schema, columns) ==> KnownColumns(schema, r)
    ensures columns != [] ==> r == columns
  {
    if columns != [] then columns else AllKnown(schema); Ids(schema)
  }

  lemma AllKnown(schema: seq<ColumnSchema>)
    ensures KnownColumns(schema, Ids(schema))
  {
    forall i | 0 <= i < |schema| ensures HasColumn(schema, Ids(schema)[i]) {
      assert Ids(schema)[0..] == Ids(schema);
      FoundIfThere(Ids(schema), Ids(schema)[i], 0);
    }
  }

  function ProjectRow(schema: seq<ColumnSchema>, columns: seq<nat>, row: Row): (r: Row)
    requires RowOf(schema, row) && KnownColumns(schema, columns)
    ensures |r| == |columns|
  {
    seq(|columns|, i requires 0 <= i < |columns| => row[ColumnIndex(schema, columns[i])])
  }

  /** What a scan hands on of a stored row. */
  function OutputRow(schema: seq<ColumnSchema>, options: ScanOptions, row: Row): (r: Row)
    requires RowOf(schema, row) && KnownColumns(schema, options.columns)
  {
    ProjectRow(schema, OutColumns(schema, options.columns), row)
  }

  /** With distinct column ids, all columns are the row as it is stored. */
  lemma AllColumnsAreTheRow(schema: seq<ColumnSchema>, row: Row)
    requires RowOf(schema, row) && forall i, j | 0 <= i < j < |schema| :: schema[i].id != schema[j].id
    ensures KnownColumns(schema, OutColumns(schema, [])) && ProjectRow(schema, OutColumns(schema, []), row) == row
  {
    AllKnown(schema);
    forall i | 0 <= i < |schema| ensures ColumnIndex(schema, schema[i].id) == i {
      assert HasColumn(schema, Ids(schema)[i]);
      var k := ColumnIndex(schema, schema[i].id);
    }
  }

  // ---------- What a scan is for ----------

  /** The row meets a condition, by exact comparison. */
  predicate Meets(schema: seq<ColumnSchema>, row: Row, cond: Condition)
    requires RowOf(schema, row)
  {
    && HasColumn(schema, cond.column) && !cond.value.Str?
    && var v := row[ColumnIndex(schema, cond.column)];
       !v.Str? && Satisfies(v, cond.op, cond.value)
  }

  predicate MeetsAll(schema: seq<ColumnSchema>, row: Row, conditions: seq<Condition>)
    requires RowOf(schema, row)
  {
    forall i | 0 <= i < |conditions| :: Meets(schema, row, conditions[i])
  }

  /** The rows that meet every condition, projected to the scanned columns, in their order. */
  function Kept(schema: seq<ColumnSchema>, options: ScanOptions, rows: seq<Row>): seq<Row>
    requires RowsOf(schema, rows) && KnownColumns(schema, options.columns)
  {
    if rows == [] then []
    else
      var last := rows[|rows| - 1];
      Kept(schema, options, rows[..|rows| - 1])
      + (if MeetsAll(schema, last, options.conditions) then [OutputRow(schema, options, last)] else [])
  }

  lemma {:induction false} KeptConcat(schema: seq<ColumnSchema>, options: ScanOptions, a: seq<Row>, b: seq<Row>)
    requires RowsOf(schema, a) && RowsOf(schema, b) && KnownColumns(schema, options.columns)
    ensures RowsOf(schema, a + b)
    ensures Kept(schema, options, a + b) == Kept(schema, options, a) + Kept(schema, options, b)
  {
    if b == [] {
      assert a + b == a;
    } else {
      KeptConcat(schema, options, a, b[..|b| - 1]);
      assert (a + b)[..|a + b| - 1] == a + b[..|b| - 1];
    }
  }

  lemma KeptOne(schema: seq<ColumnSchema>, options: ScanOptions, row: Row)
    requires RowOf(schema, row) && KnownColumns(schema, options.columns)
    ensures Kept(schema, options, [row])
            == if MeetsAll(schema, row, options.conditions) then [OutputRow(schema, options, row)] else []
  {
    assert [row][..0] == [];
  }

  function ProjectAll(schema: seq<ColumnSchema>, columns: seq<nat>, rows: seq<Row>): (r: seq<Row>)
    requires RowsOf(schema, rows) && KnownColumns(schema, columns)
    ensures |r| == |rows|
    ensures forall i | 0 <= i < |rows| :: r[i] == ProjectRow(schema, columns, rows[i])
  {
    seq(|rows|, i requires 0 <= i < |rows| => ProjectRow(schema, columns, rows[i]))
  }

  function OutputAll(schema: seq<ColumnSchema>, options: ScanOptions, rows: seq<Row>): (r: seq<Row>)
    requires RowsOf(schema, rows) && KnownColumns(schema, options.columns)
    ensures |r| == |rows|
    ensures forall i | 0 <= i < |rows| :: r[i] == OutputRow(schema, options, rows[i])
  {
    ProjectAll(schema, OutColumns(schema, options.columns), rows)
  }

  lemma {:induction false} SelectedIsKept(schema: seq<ColumnSchema>, options: ScanOptions, rows: seq<Row>,
                                          batch: VectorBatch)
    requires RowsOf(schema, rows) && KnownColumns(schema, options.columns)
    requires batch.rows == OutputAll(schema, options, rows) && |batch.selection| == |rows|
    requires forall r | 0 <= r < |rows| :: batch.selection[r] == MeetsAll(schema, rows[r], options.conditions)
    ensures ActiveRows(batch) == Kept(schema, options, rows)
  {
    if rows != [] {
      var n := |rows| - 1;
      SelectedIsKept(schema, options, rows[..n], VectorBatch(batch.rows[..n], batch.selection[..n]));
    }
  }

  // ---------- First layer: the segment verdict ----------

  function Verdict(schema: seq<ColumnSchema>, s: Segment, cond: Condition): SegmentMatch
    requires |s.stats| == |schema| > 0
  {
    var k := if HasColumn(schema, cond.column) then ColumnIndex(schema, cond.column) else 0;
    EvaluateByStats(s.stats[k], cond.op, cond.value)
  }

  datatype Decision = SkipSegment | ReadSegment(rowFilterMask: seq<bool>)

  method EvaluatePredicates(schema: seq<ColumnSchema>, s: Segment, conditions: seq<Condition>) returns (d: Decision)
    requires |s.stats| == |schema| > 0
    ensures d.SkipSegment? <==> exists i | 0 <= i < |conditions| :: Verdict(schema, s, conditions[i]).Skip?
    ensures d.ReadSegment? ==> DecidedFor(schema, s, conditions, d.rowFilterMask)
  {
    var mask: seq<bool> := [];
    while |mask| < |conditions|
      invariant |mask| <= |conditions|
      invariant forall i | 0 <= i < |mask| :: mask[i] <==> Verdict(schema, s, conditions[i]).NeedFilter?
      invariant forall i | 0 <= i < |mask| :: !Verdict(schema, s, conditions[i]).Skip?
    {
      var verdict := Verdict(schema, s, conditions[|mask|]);
      if verdict.Skip? {
        return SkipSegment;
      }
      mask := mask + [verdict.NeedFilter?];
    }
    d := ReadSegment(mask);
  }

  predicate DecidedFor(schema: seq<ColumnSchema>, s: Segment, conditions: seq<Condition>, mask: seq<bool>)
    requires |s.stats| == |schema| > 0
  {
    |mask| == |conditions| &&
    forall i {:trigger Settled(schema, s, conditions[i], mask[i])} | 0 <= i < |mask| ::
      Settled(schema, s, conditions[i], mask[i])
  }

  /** The condition is left to the row filter, or known to hold on the whole segment. */
  predicate Settled(schema: seq<ColumnSchema>, s: Segment, cond: Condition, needed: bool)
    requires |s.stats| == |schema| > 0
  {
    if needed then Verdict(schema, s, cond).NeedFilter? else Verdict(schema, s, cond).AllMatch?
  }

  // ---------- Second layer: the batch ----------

  /** GetVectorBatch: up to BATCH_SIZE rows from `offset`, all active, of the columns asked for or of all. */
  method GetVectorBatch(schema: seq<ColumnSchema>, s: Segment, options: ScanOptions, offset: nat)
    returns (r: Option<VectorBatch>)
    requires RowsOf(schema, s.rows) && KnownColumns(schema, options.columns)
    ensures r.Some? <==> offset < |s.rows|
    ensures r.Some? ==> IsBatchAt(schema, s.rows, options, offset, r.value) && r.value.IsDense()
    ensures r.Some? ==> |r.value.rows| == if |s.rows| - offset < BATCH_SIZE then |s.rows| - offset else BATCH_SIZE
  {
    if offset >= |s.rows| {
      return None;
    }
    var count := if |s.rows| - offset < BATCH_SIZE then |s.rows| - offset else BATCH_SIZE;
    r := Some(VectorBatch(OutputAll(schema, options, s.rows[offset..offset + count]), seq(count, _ => true)));
  }

  /** The batch holds the rows from `offset` on, projected. */
  predicate IsBatchAt(schema: seq<ColumnSchema>, rows: seq<Row>, options: ScanOptions, offset: nat, batch: VectorBatch)
    requires RowsOf(schema, rows) && KnownColumns(schema, options.columns)
  {
    && batch.Valid() && 0 < |batch.rows| <= BATCH_SIZE && offset + |batch.rows| <= |rows|
    && batch.rows == OutputAll(schema, options, rows[offset..offset + |batch.rows|])
  }

  // ---------- Third layer: the row filter ----------

  /** The batch columns a prepared predicate reads hold numbers. */
  predicate ReadsNumber(p: Prepared, row: Row) {
    p.slot < |row| && !row[p.slot].Str? && !p.value.Str?
  }

  predicate ReadsNumbers(prepared: seq<Prepared>, row: Row) {
    forall p | 0 <= p < |prepared| :: ReadsNumber(prepared[p], row)
  }

  predicate Filterable(prepared: seq<Prepared>, rows: seq<Row>) {
    forall r | 0 <= r < |rows| :: ReadsNumbers(prepared, rows[r])
  }

  predicate MatchesRow(p: Prepared, row: Row)
    requires ReadsNumber(p, row)
  {
    Matches(p, row[p.slot])
  }

  predicate Compares(p: Prepared, row: Row)
    requires ReadsNumber(p, row)
  {
    Satisfies(row[p.slot], p.op, p.value)
  }

  predicate PassesUpTo(prepared: seq<Prepared>, mask: seq<bool>, row: Row, n: nat)
    requires n <= |prepared| && ReadsNumbers(prepared, row)
  {
    forall p | 0 <= p < n && (p < |mask| ==> mask[p]) :: MatchesRow(prepared[p], row)
  }

  /** A compare kernel: one bit per row. */
  function RunTypedCompare(p: Prepared, rows: seq<Row>): (bits: seq<bool>)
    requires forall r | 0 <= r < |rows| :: ReadsNumber(p, rows[r])
    ensures |bits| == |rows|
    ensures forall r | 0 <= r < |rows| :: bits[r] == Compares(p, rows[r])
  {
    seq(|rows|, r requires 0 <= r < |rows| => Compares(p, rows[r]))
  }

  /** StorageRowFilter::Apply: the selection afterwards, None where the source throws. */
  method ApplyRowFilter(prepared: seq<Prepared>, mask: seq<bool>, batch: VectorBatch) returns (r: Option<seq<bool>>)
    requires batch.Valid() && batch.IsDense() && Filterable(prepared, batch.rows)
    ensures r.None? <==> prepared != [] && |batch.rows| > BATCH_SIZE
    ensures r.Some? ==> |r.value| == |batch.rows|
    ensures r.Some? ==> forall i | 0 <= i < |batch.rows| ::
              r.value[i] == PassesUpTo(prepared, mask, batch.rows[i], |prepared|)
  {
    var n := |batch.rows|;
    if prepared == [] || n == 0 {
      return Some(batch.selection);
    }
    if n > BATCH_SIZE {
      return None;
    }
    var final := batch.selection;
    var p := 0;
    while p < |prepared|
      invariant 0 <= p <= |prepared| && |final| == n
      invariant forall i | 0 <= i < n :: final[i] == PassesUpTo(prepared, mask, batch.rows[i], p)
    {
      if (p < |mask| ==> mask[p]) && !prepared[p].kind.AlwaysTrue? {
        if prepared[p].kind.AlwaysFalse? {
          final := seq(n, _ => false);
          break;
        }
        final := MaskAnd(final, RunTypedCompare(prepared[p], batch.rows));
        if true !in final {
          break;
        }
      }
      p := p + 1;
    }
    r := Some(final);
  }

  // ---------- What the three layers decide ----------

  /** The bound predicate on a stored value. */
  predicate FilterPasses(schema: seq<ColumnSchema>, cond: Condition, row: Row)
    requires RowOf(schema, row)
  {
    && HasColumn(schema, cond.column)
    && match Bind([cond.column], schema, cond)
       case Err(_) => false
       case Ok(p) =>
         var v := row[ColumnIndex(schema, cond.column)];
         !v.Str? && !p.value.Str? && Matches(p, v)
  }

  /** Verdict first, filter where the verdict leaves the row open. */
  predicate Takes(schema: seq<ColumnSchema>, s: Segment, cond: Condition, row: Row)
    requires |s.stats| == |schema| > 0 && RowOf(schema, row)
  {
    match Verdict(schema, s, cond)
    case Skip => false
    case AllMatch => true
    case NeedFilter => FilterPasses(schema, cond, row)
  }

  predicate TakesAll(schema: seq<ColumnSchema>, s: Segment, conditions: seq<Condition>, row: Row)
    requires |s.stats| == |schema| > 0 && RowOf(schema, row)
  {
    forall i | 0 <= i < |conditions| :: Takes(schema, s, conditions[i], row)
  }

  /** A segment of rows of the schema, with statistics. */
  predicate Scannable(schema: seq<ColumnSchema>, options: ScanOptions, s: Segment) {
    |s.stats| == |schema| > 0 && RowsOf(schema, s.rows) && KnownColumns(schema, options.columns)
  }

  /** What the layers take of some rows of a segment, in their order. */
  function Taken(schema: seq<ColumnSchema>, options: ScanOptions, s: Segment, rows: seq<Row>): seq<Row>
    requires Scannable(schema, options, s) && RowsOf(schema, rows)
  {
    if rows == [] then []
    else
      var last := rows[|rows| - 1];
      Taken(schema, options, s, rows[..|rows| - 1])
      + (if TakesAll(schema, s, options.conditions, last) then [OutputRow(schema, options, last)] else [])
  }

  lemma {:induction false} TakenConcat(schema: seq<ColumnSchema>, options: ScanOptions, s: Segment, a: seq<Row>,
                                       b: seq<Row>)
    requires Scannable(schema, options, s) && RowsOf(schema, a) && RowsOf(schema, b)
    ensures RowsOf(schema, a + b)
    ensures Taken(schema, options, s, a + b) == Taken(schema, options, s, a) + Taken(schema, options, s, b)
  {
    if b == [] {
      assert a + b == a;
    } else {
      TakenConcat(schema, options, s, a, b[..|b| - 1]);
      assert (a + b)[..|a + b| - 1] == a + b[..|b| - 1];
    }
  }

  lemma TakenOne(schema: seq<ColumnSchema>, options: ScanOptions, s: Segment, row: Row)
    requires Scannable(schema, options, s) && RowOf(schema, row)
    ensures Taken(schema, options, s, [row])
            == if TakesAll(schema, s, options.conditions, row) then [OutputRow(schema, options, row)] else []
  {
    assert [row][..0] == [];
  }

  /** What is still to come from a cursor's offset on. */
  function TakenRest(schema: seq<ColumnSchema>, options: ScanOptions, s: Segment, from: nat): seq<Row>
    requires Scannable(schema, options, s) && from <= |s.rows|
  {
    Taken(schema, options, s, s.rows[from..])
  }

  lemma TakenRestSplits(schema: seq<ColumnSchema>, options: ScanOptions, s: Segment, from: nat, mid: nat)
    requires Scannable(schema, options, s) && from <= mid <= |s.rows|
    ensures TakenRest(schema, options, s, from)
            == Taken(schema, options, s, s.rows[from..mid]) + TakenRest(schema, options, s, mid)
  {
    assert s.rows[from..] == s.rows[from..mid] + s.rows[mid..];
    TakenConcat(schema, options, s, s.rows[from..mid], s.rows[mid..]);
  }

  lemma {:induction false} TakenNothing(schema: seq<ColumnSchema>, options: ScanOptions, s: Segment, rows: seq<Row>)
    requires Scannable(schema, options, s) && RowsOf(schema, rows)
    requires forall r | 0 <= r < |rows| :: !TakesAll(schema, s, options.conditions, rows[r])
    ensures Taken(schema, options, s, rows) == []
  {
    if rows != [] {
      TakenNothing(schema, options, s, rows[..|rows| - 1]);
    }
  }

  /** The rows a batch leaves active are those taken. */
  lemma {:induction false} SelectedIsTaken(schema: seq<ColumnSchema>, options: ScanOptions, s: Segment, rows: seq<Row>,
                                           batch: VectorBatch)
    requires Scannable(schema, options, s) && RowsOf(schema, rows)
    requires batch.rows == OutputAll(schema, options, rows) && |batch.selection| == |rows|
    requires forall r | 0 <= r < |rows| :: batch.selection[r] == TakesAll(schema, s, options.conditions, rows[r])
    ensures ActiveRows(batch) == Taken(schema, options, s, rows)
  {
    if rows != [] {
      var n := |rows| - 1;
      SelectedIsTaken(schema, options, s, rows[..n], VectorBatch(batch.rows[..n], batch.selection[..n]));
    }
  }

  /** A condition that bound: its column is scanned, numeric, and its literal a number. */
  lemma BoundCondition(schema: seq<ColumnSchema>, columns: seq<nat>, cond: Condition)
    requires KnownColumns(schema, columns) && Bind(columns, schema, cond).Ok?
    ensures HasColumn(schema, cond.column)
    ensures IsNumericType(schema[ColumnIndex(schema, cond.column)].dataType)
    ensures cond.value.I32? || cond.value.I64? || cond.value.F64?
    ensures var p := Bind(columns, schema, cond).value;
            p.slot < |columns| && columns[p.slot] == cond.column && !p.value.Str?
  {
    var k := ColumnIndex(schema, cond.column);
    assert ColumnType(schema, cond.column) == schema[k].dataType;
  }

  /** The row filter decides on the projected row what the bound predicate decides on the stored one. */
  lemma FilterReads(schema: seq<ColumnSchema>, options: ScanOptions, cond: Condition, row: Row)
    requires RowOf(schema, row) && KnownColumns(schema, options.columns)
    requires Bind(options.columns, schema, cond).Ok?
    ensures var p, projected := Bind(options.columns, schema, cond).value, OutputRow(schema, options, row);
            ReadsNumber(p, projected) && MatchesRow(p, projected) == FilterPasses(schema, cond, row)
  {
    BoundCondition(schema, options.columns, cond);
    SlotFree(options.columns, schema, cond);
    var k := ColumnIndex(schema, cond.column);
    assert HasType(row[k], schema[k].dataType);
  }

  // ---------- One segment ----------

  datatype SegmentCursor = SegmentCursor(offset: nat, decisionValid: bool, rowFilterMask: seq<bool>)

  predicate CursorOf(schema: seq<ColumnSchema>, options: ScanOptions, s: Segment, c: SegmentCursor)
    requires Scannable(schema, options, s)
  {
    c.offset <= |s.rows| && (c.decisionValid ==> DecidedFor(schema, s, options.conditions, c.rowFilterMask))
  }

  predicate PreparedFor(schema: seq<ColumnSchema>, options: ScanOptions, prepared: Option<seq<Prepared>>) {
    match prepared
    case None => options.conditions == []
    case Some(p) => AllBound(options.columns, schema, options.conditions, p)
  }

  /** With the predicates the verdict settled left out, the filter passes what the layers take. */
  lemma FilterExact(schema: seq<ColumnSchema>, options: ScanOptions, s: Segment, prepared: seq<Prepared>,
                    mask: seq<bool>, row: Row)
    requires Scannable(schema, options, s) && RowOf(schema, row)
    requires AllBound(options.columns, schema, options.conditions, prepared)
    requires DecidedFor(schema, s, options.conditions, mask)
    ensures var projected := OutputRow(schema, options, row);
            && ReadsNumbers(prepared, projected)
            && PassesUpTo(prepared, mask, projected, |prepared|) == TakesAll(schema, s, options.conditions, row)
  {
    var projected := OutputRow(schema, options, row);
    forall p | 0 <= p < |prepared|
      ensures ReadsNumber(prepared[p], projected)
      ensures (mask[p] ==> MatchesRow(prepared[p], projected)) == Takes(schema, s, options.conditions[p], row)
    {
      assert BoundAs(options.columns, schema, options.conditions[p], prepared[p]);
      assert Settled(schema, s, options.conditions[p], mask[p]);
      FilterReads(schema, options, options.conditions[p], row);
    }
  }

  /** TableStorage::ScanSegment: None when the segment has nothing more to give. */
  method ScanSegment(schema: seq<ColumnSchema>, options: ScanOptions, s: Segment, prepared: Option<seq<Prepared>>,
                     cursor: SegmentCursor)
    returns (batch: Option<VectorBatch>, next: SegmentCursor)
    requires Scannable(schema, options, s) && PreparedFor(schema, options, prepared)
    requires CursorOf(schema, options, s, cursor)
    ensures CursorOf(schema, options, s, next)
    ensures batch.None? ==> TakenRest(schema, options, s, cursor.offset) == []
    ensures batch.Some? ==>
              && cursor.offset < next.offset && next.decisionValid
              && 0 < |batch.value.rows| <= BATCH_SIZE && |batch.value.rows| == next.offset - cursor.offset
              && batch.value.Valid()
              && TakenRest(schema, options, s, cursor.offset)
                 == ActiveRows(batch.value) + TakenRest(schema, options, s, next.offset)
  {
    next := cursor;
    if !next.decisionValid {
      var decision := EvaluatePredicates(schema, s, options.conditions);
      if decision.SkipSegment? {
        SkippedIsEmpty(schema, options, s, cursor.offset);
        return None, next;
      }
      next := next.(rowFilterMask := decision.rowFilterMask, decisionValid := true);
    }
    batch := ReadFiltered(schema, options, s, prepared, next);
    if batch.Some? {
      next := next.(offset := next.offset + |batch.value.rows|);
    }
  }

  /** Second and third layer: the next physical batch, filtered. */
  method ReadFiltered(schema: seq<ColumnSchema>, options: ScanOptions, s: Segment, prepared: Option<seq<Prepared>>,
                      cursor: SegmentCursor)
    returns (batch: Option<VectorBatch>)
    requires Scannable(schema, options, s) && PreparedFor(schema, options, prepared)
    requires CursorOf(schema, options, s, cursor) && cursor.decisionValid
    ensures batch.None? ==> TakenRest(schema, options, s, cursor.offset) == []
    ensures batch.Some? ==>
              && 0 < |batch.value.rows| <= BATCH_SIZE && cursor.offset + |batch.value.rows| <= |s.rows|
              && batch.value.Valid()
              && TakenRest(schema, options, s, cursor.offset)
                 == ActiveRows(batch.value) + TakenRest(schema, options, s, cursor.offset + |batch.value.rows|)
  {
    batch := GetVectorBatch(schema, s, options, cursor.offset);
    if batch.None? {
      return;
    }
    ghost var end := cursor.offset + |batch.value.rows|;
    var filtered := FilterBatch(schema, options, s, s.rows[cursor.offset..end], prepared, cursor.rowFilterMask, batch.value);
    batch := Some(filtered);
    TakenRestSplits(schema, options, s, cursor.offset, end);
  }

  /** The row filter, unless every predicate is settled by the verdict. */
  method FilterBatch(schema: seq<ColumnSchema>, ghost options: ScanOptions, ghost s: Segment, ghost rows: seq<Row>,
                     prepared: Option<seq<Prepared>>, mask: seq<bool>, batch: VectorBatch)
    returns (filtered: VectorBatch)
    requires Scannable(schema, options, s) && PreparedFor(schema, options, prepared) && RowsOf(schema, rows)
    requires DecidedFor(schema, s, options.conditions, mask)
    requires batch.Valid() && batch.IsDense() && |batch.rows| <= BATCH_SIZE
    requires batch.rows == OutputAll(schema, options, rows)
    ensures filtered.Valid() && filtered.rows == batch.rows
    ensures ActiveRows(filtered) == Taken(schema, options, s, rows)
  {
    filtered := batch;
    if prepared.Some? {
      BatchDecided(schema, options, s, rows, prepared.value, mask, batch);
    }
    if true in mask {
      var selection := ApplyRowFilter(prepared.value, mask, batch);
      filtered := batch.(selection := selection.value);
    } else {
      BatchSettled(schema, options, s, rows, mask);
    }
    SelectedIsTaken(schema, options, s, rows, filtered);
  }

  lemma BatchDecided(schema: seq<ColumnSchema>, options: ScanOptions, s: Segment, rows: seq<Row>,
                     prepared: seq<Prepared>, mask: seq<bool>, batch: VectorBatch)
    requires Scannable(schema, options, s) && AllBound(options.columns, schema, options.conditions, prepared)
    requires DecidedFor(schema, s, options.conditions, mask) && RowsOf(schema, rows)
    requires batch.rows == OutputAll(schema, options, rows)
    ensures |mask| == |prepared| && Filterable(prepared, batch.rows)
    ensures forall r | 0 <= r < |rows| ::
              PassesUpTo(prepared, mask, batch.rows[r], |prepared|) == TakesAll(schema, s, options.conditions, rows[r])
  {
    forall r | 0 <= r < |rows|
      ensures ReadsNumbers(prepared, batch.rows[r])
      ensures PassesUpTo(prepared, mask, batch.rows[r], |prepared|) == TakesAll(schema, s, options.conditions, rows[r])
    {
      FilterExact(schema, options, s, prepared, mask, rows[r]);
    }
  }

  lemma BatchSettled(schema: seq<ColumnSchema>, options: ScanOptions, s: Segment, rows: seq<Row>, mask: seq<bool>)
    requires Scannable(schema, options, s) && DecidedFor(schema, s, options.conditions, mask) && true !in mask
    requires RowsOf(schema, rows)
    ensures forall r | 0 <= r < |rows| :: TakesAll(schema, s, options.conditions, rows[r])
  {
    forall i, r | 0 <= i < |options.conditions| && 0 <= r < |rows|
      ensures Takes(schema, s, options.conditions[i], rows[r])
    {
      assert !mask[i] && Settled(schema, s, options.conditions[i], mask[i]);
    }
  }

  lemma SkippedIsEmpty(schema: seq<ColumnSchema>, options: ScanOptions, s: Segment, offset: nat)
    requires Scannable(schema, options, s) && offset <= |s.rows|
    requires exists i | 0 <= i < |options.conditions| :: Verdict(schema, s, options.conditions[i]).Skip?
    ensures TakenRest(schema, options, s, offset) == []
  {
    var i :| 0 <= i < |options.conditions| && Verdict(schema, s, options.conditions[i]).Skip?;
    var rest := s.rows[offset..];
    forall r | 0 <= r < |rest| ensures !TakesAll(schema, s, options.conditions, rest[r]) {
      assert !Takes(schema, s, options.conditions[i], rest[r]);
    }
    TakenNothing(schema, options, s, rest);
  }

  // ---------- When that is exact ----------

  /** What FLOAT and DOUBLE columns hold. */
  predicate PlainRows(rows: seq<Row>) {
    forall r, k | 0 <= r < |rows| && 0 <= k < |rows[r]| :: PlainValue(rows[r][k])
  }

  predicate PlainValue(v: ExecValue) {
    && (v.F64? ==> IsDouble(v.d))
    && (v.F32? ==> IsDouble(v.f) && IsFloat(v.f))
  }

  /**
   * The conditions under which the layers are exact, all of them about rounding: the literal does not merge
   * with an extreme of its column (see ZoneMapSoundIff), and on a DOUBLE or FLOAT column it is a double or a float
   * (see DoubleBindingExactIff and FloatBindingExactIff).
   */
  predicate Trusted(schema: seq<ColumnSchema>, s: Segment, cond: Condition)
    requires SegmentOf(schema, s) && PlainRows(s.rows)
  {
    && BindsExactly(schema, cond)
    && (HasColumn(schema, cond.column) ==>
          var k := ColumnIndex(schema, cond.column);
          && (IsPlain(cond.value) || cond.value.Str?)
          && (IsNumericType(schema[k].dataType) && IsPlain(cond.value) ==>
                (PlainColumn(schema, s, k);
                 s.stats[k].MinMax? ==> !Collides(s.stats[k], ColumnOf(schema, s.rows, k), cond.value))))
  }

  /** The part of it that does not depend on the data. */
  predicate BindsExactly(schema: seq<ColumnSchema>, cond: Condition) {
    HasColumn(schema, cond.column) ==>
      var t := schema[ColumnIndex(schema, cond.column)].dataType;
      && (t.Double? && !cond.value.Str? ==> AsDouble(cond.value) == AsNumber(cond.value))
      && (t.Float? && !cond.value.Str? ==> ToFloat(AsDouble(cond.value)) == AsNumber(cond.value))
  }

  lemma PlainColumn(schema: seq<ColumnSchema>, s: Segment, k: nat)
    requires SegmentOf(schema, s) && PlainRows(s.rows) && k < |schema|
    requires IsNumericType(schema[k].dataType)
    ensures Plain(ColumnOf(schema, s.rows, k))
  {
    var data := ColumnOf(schema, s.rows, k);
    forall r | 0 <= r < |data| ensures IsPlain(data[r]) {
      assert HasType(data[r], schema[k].dataType);
      assert PlainValue(s.rows[r][k]);
    }
  }

  /** First layer: a verdict says what it says of every row of the segment. */
  lemma VerdictExact(schema: seq<ColumnSchema>, s: Segment, columns: seq<nat>, cond: Condition, r: nat)
    requires SegmentOf(schema, s) && schema != [] && PlainRows(s.rows) && Trusted(schema, s, cond)
    requires KnownColumns(schema, columns) && Bind(columns, schema, cond).Ok? && r < |s.rows|
    ensures RowOf(schema, s.rows[r])
    ensures Verdict(schema, s, cond).Skip? ==> !Meets(schema, s.rows[r], cond)
    ensures Verdict(schema, s, cond).AllMatch? ==> Meets(schema, s.rows[r], cond)
  {
    BoundCondition(schema, columns, cond);
    var k := ColumnIndex(schema, cond.column);
    var t, data := schema[k].dataType, ColumnOf(schema, s.rows, k);
    PlainColumn(schema, s, k);
    StatsAreExtremes(t, data);
    SoundWithoutCollision(t, data, cond.op, cond.value);
    assert data[r] == s.rows[r][k];
    assert HasType(data[r], t);
  }

  /** Third layer: the bound predicate decides on a stored row as the condition does. */
  lemma BindingExact(schema: seq<ColumnSchema>, columns: seq<nat>, cond: Condition, row: Row)
    requires RowOf(schema, row) && BindsExactly(schema, cond)
    requires KnownColumns(schema, columns) && Bind(columns, schema, cond).Ok?
    ensures FilterPasses(schema, cond, row) == Meets(schema, row, cond)
  {
    BoundCondition(schema, columns, cond);
    SlotFree(columns, schema, cond);
    var k := ColumnIndex(schema, cond.column);
    var t, v := schema[k].dataType, row[k];
    assert HasType(v, t);
    var p := Prepared(TypedCompare, 0, t, cond.op, I32(0));
    if t.Double? {
      DoubleBindingExactIff(cond.value, p);
      assert Matches(BindFloating(cond.op, cond.value, p).value, F64(v.d)) == Satisfies(F64(v.d), cond.op, cond.value);
    } else if !t.Float? {
      IntegerBindingExact(cond.op, cond.value, p, v);
    }
  }

  /** A segment as written, scanned with trusted conditions: what is taken is what meets the conditions. */
  lemma TrustedIsExact(schema: seq<ColumnSchema>, options: ScanOptions, s: Segment, r: nat)
    requires SegmentOf(schema, s) && schema != [] && PlainRows(s.rows) && KnownColumns(schema, options.columns)
    requires forall i | 0 <= i < |options.conditions| ::
               Trusted(schema, s, options.conditions[i]) && Bind(options.columns, schema, options.conditions[i]).Ok?
    requires r < |s.rows|
    ensures TakesAll(schema, s, options.conditions, s.rows[r]) == MeetsAll(schema, s.rows[r], options.conditions)
  {
    forall i | 0 <= i < |options.conditions|
      ensures Takes(schema, s, options.conditions[i], s.rows[r]) == Meets(schema, s.rows[r], options.conditions[i])
    {
      VerdictExact(schema, s, options.columns, options.conditions[i], r);
      BindingExact(schema, options.columns, options.conditions[i], s.rows[r]);
    }
  }

  /** Where that holds of every row, the layers together are the filter. */
  lemma {:induction false} TakenIsKept(schema: seq<ColumnSchema>, options: ScanOptions, s: Segment, rows: seq<Row>)
    requires Scannable(schema, options, s) && RowsOf(schema, rows)
    requires forall r | 0 <= r < |rows| ::
               TakesAll(schema, s, options.conditions, rows[r]) == MeetsAll(schema, rows[r], options.conditions)
    ensures Taken(schema, options, s, rows) == Kept(schema, options, rows)
  {
    if rows != [] {
      TakenIsKept(schema, options, s, rows[..|rows| - 1]);
    }
  }

  // ---------- Filtering rows that were looked up ----------

  predicate DecidesRow(schema: seq<ColumnSchema>, options: ScanOptions, row: Row, prepared: seq<Prepared>,
                       mask: seq<bool>, projected: Row)
    requires RowOf(schema, row)
  {
    && |mask| == |prepared| && ReadsNumbers(prepared, projected)
    && PassesUpTo(prepared, mask, projected, |prepared|) == MeetsAll(schema, row, options.conditions)
  }

  /** On this batch the prepared predicates decide as all conditions together. */
  predicate FilterDecides(schema: seq<ColumnSchema>, options: ScanOptions, rows: seq<Row>, prepared: seq<Prepared>,
                          mask: seq<bool>, batch: VectorBatch)
    requires RowsOf(schema, rows)
  {
    |batch.rows| == |rows| &&
    forall r | 0 <= r < |rows| :: DecidesRow(schema, options, rows[r], prepared, mask, batch.rows[r])
  }

  /** Bound one by one, the prepared predicates together decide as the conditions do. */
  lemma AllBoundDecide(schema: seq<ColumnSchema>, options: ScanOptions, prepared: seq<Prepared>, mask: seq<bool>, row: Row)
    requires RowOf(schema, row) && KnownColumns(schema, options.columns)
    requires AllBound(options.columns, schema, options.conditions, prepared)
    requires forall i | 0 <= i < |options.conditions| :: BindsExactly(schema, options.conditions[i])
    requires |mask| == |prepared| && forall i | 0 <= i < |mask| :: mask[i]
    ensures DecidesRow(schema, options, row, prepared, mask, OutputRow(schema, options, row))
  {
    var projected := OutputRow(schema, options, row);
    forall p | 0 <= p < |prepared|
      ensures ReadsNumber(prepared[p], projected)
      ensures MatchesRow(prepared[p], projected) == Meets(schema, row, options.conditions[p])
    {
      assert BoundAs(options.columns, schema, options.conditions[p], prepared[p]);
      FilterReads(schema, options, options.conditions[p], row);
      BindingExact(schema, options.columns, options.conditions[p], row);
    }
  }
}
