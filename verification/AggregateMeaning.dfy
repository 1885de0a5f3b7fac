/** What an aggregate comes to, said of the argument's values alone. */
module AggregateMeaning {
  import opened Wrappers
  import opened Sequences
  import opened Values
  import opened Expressions
  import opened EvaluationMeaning
  import opened Aggregates
  import opened GroupTables
  import opened HashAggregate

  // ---------- values ----------

  /** Strings by the dictionary, numbers by size. */
  ghost predicate Before(a: ExecValue, b: ExecValue) {
    if a.Str? && b.Str? then Precedes(a.s, b.s)
    else !a.Str? && !b.Str? && AsNumber(a) < AsNumber(b)
  }

  lemma CompareIsBefore(a: ExecValue, b: ExecValue)
    requires Compare(a, b).Ok?
    ensures Compare(a, b).value < 0 <==> Before(a, b)
    ensures Compare(a, b).value > 0 <==> Before(b, a)
  {
    if a.Str? {
      StringLessIff(a.s, b.s);
      StringLessIff(b.s, a.s);
      OneWay(a.s, b.s);
    }
  }

  lemma BeforeTransitive(a: ExecValue, b: ExecValue, c: ExecValue)
    requires Before(a, b) && Before(b, c)
    ensures Before(a, c)
  {
    if a.Str? {
      StringLessIff(a.s, b.s);
      StringLessIff(b.s, c.s);
      StringLessTransitive(a.s, b.s, c.s);
      StringLessIff(a.s, c.s);
    }
  }

  lemma NotBeforeItself(a: ExecValue)
    ensures !Before(a, a)
  {
    if a.Str? {
      StringLessIff(a.s, a.s);
      OneWay(a.s, a.s);
    }
  }

  // ---------- one call over rows ----------

  /** The rows' argument values, in order. */
  predicate ReadsTo(call: AggCall, rows: seq<Row>, values: seq<ExecValue>) {
    && call.arg.Some? && |values| == |rows|
    && forall i | 0 <= i < |rows| :: Eval(call.arg.value, rows[i]) == Ok(values[i])
  }

  predicate Numbers(values: seq<ExecValue>) {
    forall i | 0 <= i < |values| :: !values[i].Str?
  }

  function Total(values: seq<ExecValue>): real
    requires Numbers(values)
  {
    if values == [] then 0.0 else AsNumber(values[0]) + Total(values[1..])
  }

  lemma {:induction false} TotalAppend(values: seq<ExecValue>, v: ExecValue)
    requires Numbers(values) && !v.Str?
    ensures Numbers(values + [v]) && Total(values + [v]) == Total(values) + AsNumber(v)
  {
    if values == [] {
      assert values + [v] == [v] && [v][1..] == [];
    } else {
      TotalAppend(values[1..], v);
      assert (values + [v])[1..] == values[1..] + [v];
    }
  }

  /** `v` occurs, and nothing that occurs is before it. */
  ghost predicate IsLeast(values: seq<ExecValue>, v: ExecValue) {
    v in values && forall i | 0 <= i < |values| :: !Before(values[i], v)
  }

  ghost predicate IsGreatest(values: seq<ExecValue>, v: ExecValue) {
    v in values && forall i | 0 <= i < |values| :: !Before(v, values[i])
  }

  /** The value of an aggregate over rows whose argument reads `values`. */
  ghost predicate IsAggregate(call: AggCall, rows: seq<Row>, values: seq<ExecValue>, v: ExecValue) {
    match call.aggType
    case Count => v == I64(|rows|)
    case Sum => ReadsTo(call, rows, values) && Numbers(values) && IsCast(Total(values), call.resultType, v)
    case Avg =>
      && ReadsTo(call, rows, values) && Numbers(values)
      && v == F64(if rows == [] then 0.0 else Total(values) / |rows| as real)
    case Min =>
      ReadsTo(call, rows, values) && if rows == [] then IsCast(0.0, call.resultType, v) else IsLeast(values, v)
    case Max =>
      ReadsTo(call, rows, values) && if rows == [] then IsCast(0.0, call.resultType, v) else IsGreatest(values, v)
    case InvalidAgg => false
  }

  /** What the state holds on the way there. */
  ghost predicate StateOf(call: AggCall, rows: seq<Row>, values: seq<ExecValue>, s: AggState) {
    match call.aggType
    case Count => s.count == |rows|
    case Sum => ReadsTo(call, rows, values) && Numbers(values) && s.sum == Total(values)
    case Avg => ReadsTo(call, rows, values) && Numbers(values) && s.sum == Total(values) && s.count == |rows|
    case Min =>
      && ReadsTo(call, rows, values) && (s.hasValue <==> rows != [])
      && (rows != [] ==> IsLeast(values, s.minValue))
    case Max =>
      && ReadsTo(call, rows, values) && (s.hasValue <==> rows != [])
      && (rows != [] ==> IsGreatest(values, s.maxValue))
    case InvalidAgg => false
  }

  lemma LeastOfMore(values: seq<ExecValue>, least: ExecValue, v: ExecValue)
    requires IsLeast(values, least) && Compare(v, least).Ok?
    ensures IsLeast(values + [v], if Compare(v, least).value < 0 then v else least)
  {
    CompareIsBefore(v, least);
    NotBeforeItself(v);
    forall i | 0 <= i < |values| && Before(values[i], v) && Before(v, least) ensures false {
      BeforeTransitive(values[i], v, least);
    }
  }

  lemma GreatestOfMore(values: seq<ExecValue>, greatest: ExecValue, v: ExecValue)
    requires IsGreatest(values, greatest) && Compare(v, greatest).Ok?
    ensures IsGreatest(values + [v], if Compare(v, greatest).value > 0 then v else greatest)
  {
    CompareIsBefore(v, greatest);
    NotBeforeItself(v);
    forall i | 0 <= i < |values| && Before(v, values[i]) && Before(greatest, v) ensures false {
      BeforeTransitive(greatest, v, values[i]);
    }
  }

  lemma StateStep(call: AggCall, rows: seq<Row>, values: seq<ExecValue>, s: AggState, row: Row)
    returns (more: seq<ExecValue>)
    requires StateOf(call, rows, values, s) && Update(call, s, row).Some?
    ensures StateOf(call, rows + [row], more, Update(call, s, row).value)
  {
    more := values;
    if !call.aggType.Count? {
      var v := Eval(call.arg.value, row).value;
      more := values + [v];
      match call.aggType
      case Sum => TotalAppend(values, v);
      case Avg => TotalAppend(values, v);
      case Min =>
        if rows == [] { NotBeforeItself(v); } else { LeastOfMore(values, s.minValue, v); }
      case Max =>
        if rows == [] { NotBeforeItself(v); } else { GreatestOfMore(values, s.maxValue, v); }
      case _ =>
    }
  }

  lemma {:induction false} FoldMeans(call: AggCall, rows: seq<Row>) returns (values: seq<ExecValue>)
    requires !call.aggType.InvalidAgg? && (call.aggType.Count? || call.arg.Some?)
    requires FoldUpdate(call, EMPTY, rows).Some?
    ensures StateOf(call, rows, values, FoldUpdate(call, EMPTY, rows).value)
  {
    values := [];
    if rows != [] {
      var n := |rows| - 1;
      var before := FoldMeans(call, rows[..n]);
      values := StateStep(call, rows[..n], before, FoldUpdate(call, EMPTY, rows[..n]).value, rows[n]);
      assert rows[..n] + [rows[n]] == rows;
    }
  }

  /** Folding rows from the empty state and finalizing gives the aggregate of their argument values. */
  lemma FoldedIsAggregate(call: AggCall, rows: seq<Row>) returns (values: seq<ExecValue>)
    requires !call.aggType.InvalidAgg? && (call.aggType.Count? || call.arg.Some?)
    requires FoldUpdate(call, EMPTY, rows).Some?
    ensures Finalize(call, FoldUpdate(call, EMPTY, rows).value).Some?
    ensures IsAggregate(call, rows, values, Finalize(call, FoldUpdate(call, EMPTY, rows).value).value)
  {
    values := FoldMeans(call, rows);
    var s := FoldUpdate(call, EMPTY, rows).value;
    CastMeans(s.sum, call.resultType);
    CastMeans(0.0, call.resultType);
  }

  // ---------- groups ----------

  /** The row's group expressions have these values. */
  predicate InGroup(exprs: seq<Expr>, row: Row, key: Key) {
    |key| == |exprs| && forall i | 0 <= i < |exprs| :: Eval(exprs[i], row) == Ok(key[i])
  }

  lemma {:induction false} KeyOfMeans(exprs: seq<Expr>, row: Row)
    ensures KeyOf(exprs, row).None? <==> exists i :: 0 <= i < |exprs| && Eval(exprs[i], row).Err?
    ensures KeyOf(exprs, row).Some? ==> InGroup(exprs, row, KeyOf(exprs, row).value)
  {
    if exprs != [] {
      var n := |exprs| - 1;
      KeyOfMeans(exprs[..n], row);
      assert forall i | 0 <= i < n :: exprs[..n][i] == exprs[i];
    }
  }

  lemma OneGroup(exprs: seq<Expr>, row: Row, a: Key, b: Key)
    requires InGroup(exprs, row, a) && InGroup(exprs, row, b)
    ensures a == b
  {
    assert forall i | 0 <= i < |exprs| :: Ok(a[i]) == Eval(exprs[i], row) == Ok(b[i]);
  }

  /** The rows of a group, in their order. */
  function GroupRows(exprs: seq<Expr>, rows: seq<Row>, key: Key): (members: seq<Row>)
    ensures forall row | row in members :: row in rows && InGroup(exprs, row, key)
    ensures forall row | row in rows && InGroup(exprs, row, key) :: row in members
  {
    if rows == [] then []
    else
      var n := |rows| - 1;
      assert rows == rows[..n] + [rows[n]];
      GroupRows(exprs, rows[..n], key) + (if InGroup(exprs, rows[n], key) then [rows[n]] else [])
  }

  predicate Occurs(exprs: seq<Expr>, rows: seq<Row>, key: Key) {
    exists row :: row in rows && InGroup(exprs, row, key)
  }

  lemma OccursIfAny(exprs: seq<Expr>, rows: seq<Row>, key: Key)
    ensures GroupRows(exprs, rows, key) != [] ==> Occurs(exprs, rows, key)
  {
    var members := GroupRows(exprs, rows, key);
    if members != [] {
      assert members[0] in rows && InGroup(exprs, members[0], key);
    }
  }

  lemma OccursMore(exprs: seq<Expr>, rows: seq<Row>, row: Row, key: Key)
    ensures Occurs(exprs, rows + [row], key) <==> Occurs(exprs, rows, key) || InGroup(exprs, row, key)
    ensures GroupRows(exprs, rows + [row], key)
            == GroupRows(exprs, rows, key) + (if InGroup(exprs, row, key) then [row] else [])
  {
    assert (rows + [row])[..|rows|] == rows;
    assert row in rows + [row] && forall r :: r in rows ==> r in rows + [row];
  }

  /** The states of a group are the folds of its rows. */
  predicate FoldedStates(spec: AggSpec, members: seq<Row>, states: seq<AggState>) {
    && |states| == |spec.calls|
    && forall i | 0 <= i < |states| :: FoldUpdate(spec.calls[i], EMPTY, members) == Some(states[i])
  }

  /** Exactly the groups that occur, or the one group there always is without GROUP BY, each folded from its rows. */
  ghost predicate IsGrouping(spec: AggSpec, rows: seq<Row>, g: Groups) {
    && (forall k :: k in g <==> k in spec.Start() || Occurs(spec.groupExprs, rows, k))
    && forall k | k in g :: FoldedStates(spec, GroupRows(spec.groupExprs, rows, k), g[k])
  }

  lemma FoldedMore(spec: AggSpec, members: seq<Row>, states: seq<AggState>, row: Row)
    requires FoldedStates(spec, members, states) && UpdateAll(spec.calls, states, row).Some?
    ensures FoldedStates(spec, members + [row], UpdateAll(spec.calls, states, row).value)
  {
    UpdateAllAt(spec.calls, states, row);
    forall i | 0 <= i < |spec.calls|
      ensures FoldUpdate(spec.calls[i], EMPTY, members + [row]) == Update(spec.calls[i], states[i], row)
    {
      FoldUpdateAppend(spec.calls[i], EMPTY, members, row);
    }
  }

  lemma FreshStates(spec: AggSpec)
    ensures FoldedStates(spec, [], spec.MakeStates())
  {
  }

  /** The states that the table has for the group, or a new group gets. */
  function StatesOf(spec: AggSpec, g: Groups, key: Key): seq<AggState> {
    if key in g then g[key] else spec.MakeStates()
  }

  lemma StatesBefore(spec: AggSpec, rows: seq<Row>, g: Groups, key: Key)
    requires IsGrouping(spec, rows, g)
    ensures FoldedStates(spec, GroupRows(spec.groupExprs, rows, key), StatesOf(spec, g, key))
  {
    if key !in g {
      OccursIfAny(spec.groupExprs, rows, key);
      FreshStates(spec);
    }
  }

  lemma AddedRow(spec: AggSpec, g: Groups, row: Row, key: Key)
    requires Shaped(spec, g) && AddRow(spec, g, row).Some? && KeyOf(spec.groupExprs, row) == Some(key)
    ensures |StatesOf(spec, g, key)| == |spec.calls| && UpdateAll(spec.calls, StatesOf(spec, g, key), row).Some?
    ensures AddRow(spec, g, row).value == g[key := UpdateAll(spec.calls, StatesOf(spec, g, key), row).value]
  {
  }

  lemma GroupAdded(spec: AggSpec, rows: seq<Row>, row: Row, key: Key, states: seq<AggState>)
    requires InGroup(spec.groupExprs, row, key)
    requires FoldedStates(spec, GroupRows(spec.groupExprs, rows, key), states)
    requires UpdateAll(spec.calls, states, row).Some?
    ensures FoldedStates(spec, GroupRows(spec.groupExprs, rows + [row], key), UpdateAll(spec.calls, states, row).value)
  {
    OccursMore(spec.groupExprs, rows, row, key);
    FoldedMore(spec, GroupRows(spec.groupExprs, rows, key), states, row);
  }

  lemma GroupStays(spec: AggSpec, rows: seq<Row>, row: Row, key: Key, k: Key, states: seq<AggState>)
    requires InGroup(spec.groupExprs, row, key) && k != key
    requires FoldedStates(spec, GroupRows(spec.groupExprs, rows, k), states)
    ensures FoldedStates(spec, GroupRows(spec.groupExprs, rows + [row], k), states)
  {
    OccursMore(spec.groupExprs, rows, row, k);
    if InGroup(spec.groupExprs, row, k) { OneGroup(spec.groupExprs, row, k, key); }
    assert GroupRows(spec.groupExprs, rows, k) + [] == GroupRows(spec.groupExprs, rows, k);
  }

  lemma GroupingStep(spec: AggSpec, rows: seq<Row>, g: Groups, row: Row)
    requires IsGrouping(spec, rows, g) && Shaped(spec, g) && AddRow(spec, g, row).Some?
    ensures IsGrouping(spec, rows + [row], AddRow(spec, g, row).value)
  {
    var exprs, key, t := spec.groupExprs, KeyOf(spec.groupExprs, row).value, AddRow(spec, g, row).value;
    KeyOfMeans(exprs, row);
    AddedRow(spec, g, row, key);
    StatesBefore(spec, rows, g, key);
    GroupAdded(spec, rows, row, key, StatesOf(spec, g, key));
    forall k ensures k in t <==> k in spec.Start() || Occurs(exprs, rows + [row], k) {
      OccursMore(exprs, rows, row, k);
      if InGroup(exprs, row, k) { OneGroup(exprs, row, k, key); }
    }
    forall k | k in t && k != key ensures FoldedStates(spec, GroupRows(exprs, rows + [row], k), t[k]) {
      GroupStays(spec, rows, row, key, k, g[k]);
    }
  }

  /** The table that consuming rows leaves is their grouping. */
  lemma {:induction false} TableMeans(spec: AggSpec, rows: seq<Row>)
    requires Shaped(spec, spec.Start())
    ensures AddRows(spec, spec.Start(), rows).Some? ==> IsGrouping(spec, rows, AddRows(spec, spec.Start(), rows).value)
  {
    if rows == [] {
      assert forall k | k in spec.Start() :: FoldedStates(spec, GroupRows(spec.groupExprs, [], k), spec.Start()[k]);
    } else {
      var n := |rows| - 1;
      TableMeans(spec, rows[..n]);
      assert rows[..n] + [rows[n]] == rows;
      if AddRows(spec, spec.Start(), rows).Some? {
        GroupingStep(spec, rows[..n], AddRows(spec, spec.Start(), rows[..n]).value, rows[n]);
      }
    }
  }

  // ---------- exceptions ----------

  predicate CallThrows(call: AggCall, row: Row) {
    if call.aggType.Count? then call.arg.Some? && Eval(call.arg.value, row).Err?
    else
      || call.arg.None? || Eval(call.arg.value, row).Err?
      || ((call.aggType.Sum? || call.aggType.Avg?) && Eval(call.arg.value, row).value.Str?)
  }

  /** A group expression throws on the row, or an argument does, or a sum meets a string. */
  predicate RowThrows(spec: AggSpec, row: Row) {
    || (exists i :: 0 <= i < |spec.groupExprs| && Eval(spec.groupExprs[i], row).Err?)
    || exists i :: 0 <= i < |spec.calls| && CallThrows(spec.calls[i], row)
  }

  lemma RowTableThrows(spec: AggSpec, row: Row)
    requires spec.Valid()
    ensures RowTable(spec, row).None? <==> RowThrows(spec, row)
  {
    KeyOfMeans(spec.groupExprs, row);
    UpdateAllAt(spec.calls, spec.MakeStates(), row);
    assert forall i | 0 <= i < |spec.calls| ::
        Update(spec.calls[i], spec.MakeStates()[i], row).None? <==> CallThrows(spec.calls[i], row);
  }

  lemma {:induction false} TableThrows(spec: AggSpec, rows: seq<Row>)
    requires spec.Valid()
    ensures TableOf(spec, rows).None? <==> exists row :: row in rows && RowThrows(spec, row)
  {
    if rows != [] {
      var n := |rows| - 1;
      TableThrows(spec, rows[..n]);
      RowTableThrows(spec, rows[n]);
      assert rows == rows[..n] + [rows[n]];
    }
  }

  /** Consuming rows throws exactly if one of them does. */
  lemma ConsumingThrowsIff(spec: AggSpec, schema: seq<DataType>, rows: seq<Row>)
    requires spec.Valid() && TypedRows(rows, schema)
    ensures Shaped(spec, spec.Start())
    ensures AddRows(spec, spec.Start(), rows).None? <==> exists row :: row in rows && RowThrows(spec, row)
  {
    MakeStatesCanonical(spec, schema);
    AddRowsIsMerge(spec, schema, spec.Start(), rows);
    TableThrows(spec, rows);
  }

  // ---------- the rows put out ----------

  lemma {:induction false} OutputRowMeans(spec: AggSpec, outputs: seq<OutputSpec>, key: Key, states: seq<AggState>)
    requires OutputRow(spec, outputs, key, states).Some?
    ensures var row := OutputRow(spec, outputs, key, states).value;
            |row| == |outputs| && forall c | 0 <= c < |outputs| :: OutputValue(spec, outputs[c], key, states) == Some(row[c])
  {
    if outputs != [] {
      var n := |outputs| - 1;
      OutputRowMeans(spec, outputs[..n], key, states);
      assert forall c | 0 <= c < n :: outputs[..n][c] == outputs[c];
    }
  }

  /** Every call but COUNT(*) has its argument. */
  predicate HasArguments(spec: AggSpec) {
    spec.Valid() && forall i | 0 <= i < |spec.calls| :: spec.calls[i].aggType.Count? || spec.calls[i].arg.Some?
  }

  /** A cell of the group's row: a value of its key, or an aggregate over its rows. */
  ghost predicate IsResultCell(spec: AggSpec, column: OutputSpec, rows: seq<Row>, key: Key, cell: ExecValue) {
    match column
    case GroupKeyColumn(i, t) => i < |key| && Stored(key[i], t) == Ok(cell)
    case AggregateColumn(i, t) =>
      i < |spec.calls| && exists values, v ::
        IsAggregate(spec.calls[i], GroupRows(spec.groupExprs, rows, key), values, v) && Stored(v, t) == Ok(cell)
  }

  ghost predicate IsResultRow(spec: AggSpec, outputs: seq<OutputSpec>, rows: seq<Row>, key: Key, row: Row) {
    |row| == |outputs| && forall c | 0 <= c < |outputs| :: IsResultCell(spec, outputs[c], rows, key, row[c])
  }

  /** One row for every group, holding in each column what the column asks for. */
  ghost predicate IsResult(spec: AggSpec, outputs: seq<OutputSpec>, rows: seq<Row>, order: seq<Key>, result: seq<Row>) {
    && NoDuplicates(order) && |result| == |order|
    && (forall k :: k in order <==> k in spec.Start() || Occurs(spec.groupExprs, rows, k))
    && forall r | 0 <= r < |order| :: IsResultRow(spec, outputs, rows, order[r], result[r])
  }

  lemma CellMeans(spec: AggSpec, column: OutputSpec, rows: seq<Row>, key: Key, states: seq<AggState>, cell: ExecValue)
    requires HasArguments(spec) && FoldedStates(spec, GroupRows(spec.groupExprs, rows, key), states)
    requires OutputValue(spec, column, key, states) == Some(cell)
    ensures IsResultCell(spec, column, rows, key, cell)
  {
    if column.AggregateColumn? {
      var call, members := spec.calls[column.index], GroupRows(spec.groupExprs, rows, key);
      var values := FoldedIsAggregate(call, members);
      assert IsAggregate(call, members, values, Finalize(call, states[column.index]).value);
    }
  }

  lemma RowMeans(spec: AggSpec, outputs: seq<OutputSpec>, rows: seq<Row>, key: Key, states: seq<AggState>, row: Row)
    requires HasArguments(spec) && FoldedStates(spec, GroupRows(spec.groupExprs, rows, key), states)
    requires OutputRow(spec, outputs, key, states) == Some(row)
    ensures IsResultRow(spec, outputs, rows, key, row)
  {
    OutputRowMeans(spec, outputs, key, states);
    forall c | 0 <= c < |outputs| ensures IsResultCell(spec, outputs[c], rows, key, row[c]) {
      CellMeans(spec, outputs[c], rows, key, states, row[c]);
    }
  }

  /** The rows a grouping is put out as are the result of the aggregation. */
  lemma ResultMeans(spec: AggSpec, outputs: seq<OutputSpec>, rows: seq<Row>, g: Groups, order: seq<Key>,
                    result: seq<Row>)
    requires HasArguments(spec) && IsGrouping(spec, rows, g)
    requires NoDuplicates(order) && Members(order) == g.Keys && RowsOfKeys(spec, outputs, g, order, result)
    ensures IsResult(spec, outputs, rows, order, result)
  {
    forall k ensures k in order <==> k in g {
      assert k in order <==> k in Members(order);
    }
    forall r | 0 <= r < |order| ensures IsResultRow(spec, outputs, rows, order[r], result[r]) {
      assert IsRowOf(spec, outputs, g, order, 0 + r, result[r]);
      RowMeans(spec, outputs, rows, order[r], g[order[r]], result[r]);
    }
  }
}
