/** Aggregation from rows to result, by one operator and by many workers. */
module AggregateQuery {
  import opened Wrappers
  import opened Sequences
  import opened Values
  import opened Expressions
  import EvaluationMeaning
  import opened Batches
  import opened Aggregates
  import opened GroupTables
  import opened HashAggregate
  import opened AggregateMeaning
  import opened ParallelAggregate
  import opened ParallelAggregateProofs

  // ---------- one operator ----------

  lemma {:induction false} AddRowsConcat(spec: AggSpec, g: Groups, a: seq<Row>, b: seq<Row>)
    requires Shaped(spec, g)
    ensures AddRows(spec, g, a + b) ==
            match AddRows(spec, g, a) case None => None case Some(h) => AddRows(spec, h, b)
  {
    if b == [] {
      assert a + b == a;
    } else {
      var init, last := b[..|b| - 1], b[|b| - 1];
      AddRowsConcat(spec, g, a, init);
      assert b == init + [last] && a + b == (a + init) + [last];
      AddRowsAppend(spec, g, a + init, last);
      if AddRows(spec, g, a).Some? {
        AddRowsAppend(spec, AddRows(spec, g, a).value, init, last);
      }
    }
  }

  /**
   * HashAggregateOperator: everything consumed, then the result. What comes out is the aggregate of the input rows, and
   * a row of the input that throws is never passed over.
   */
  method Aggregate(spec: AggSpec, outputs: seq<OutputSpec>, batches: seq<VectorBatch>, ghost schema: seq<DataType>)
    returns (threw: bool, delivered: seq<seq<Row>>, ghost order: seq<Key>)
    requires HasArguments(spec) && AllValid(batches) && TypedRows(Input(batches), schema)
    ensures !threw ==> IsResult(spec, outputs, Input(batches), order, Concat(delivered))
    ensures (exists row :: row in Input(batches) && RowThrows(spec, row)) ==> threw
    ensures threw ==>
              || (exists row :: row in Input(batches) && RowThrows(spec, row))
              || exists key :: (key in spec.Start() || Occurs(spec.groupExprs, Input(batches), key))
                               && !HasResultRow(spec, outputs, Input(batches), key)
  {
    delivered, order := [], [];
    var state := new HashAggregateState(spec);
    var i := 0;
    while i < |batches|
      invariant 0 <= i <= |batches| && fresh(state) && state.Valid() && state.spec == spec
      invariant !state.emitStarted && !state.globalEmitted
      invariant AddRows(spec, spec.Start(), Input(batches[..i])) == Some(state.Table())
    {
      ghost var before := state.Table();
      threw := state.Consume(batches[i]);
      assert batches[..i + 1][..i] == batches[..i];
      AddRowsConcat(spec, spec.Start(), Input(batches[..i]), ActiveRows(batches[i]));
      if threw {
        InputStopped(spec, batches, i + 1);
        ConsumingThrowsIff(spec, schema, Input(batches));
        return;
      }
      i := i + 1;
    }
    assert batches[..i] == batches;
    ghost var table := state.Table();
    TableMeans(spec, Input(batches));
    ConsumingThrowsIff(spec, schema, Input(batches));
    threw, delivered, order := EmitAll(state, outputs);
    if threw {
      ghost var k :| 0 <= k < |order| && Throws(spec, outputs, table, order, k);
      NoRow(spec, outputs, Input(batches), schema, table, order[k]);
    } else {
      ResultMeans(spec, outputs, Input(batches), table, order, Concat(delivered));
    }
  }

  lemma {:induction false} InputStopped(spec: AggSpec, batches: seq<VectorBatch>, n: nat)
    requires Shaped(spec, spec.Start()) && AllValid(batches) && n <= |batches|
    requires AddRows(spec, spec.Start(), Input(batches[..n])).None?
    ensures AddRows(spec, spec.Start(), Input(batches)).None?
    decreases |batches| - n
  {
    if n == |batches| {
      assert batches[..n] == batches;
    } else {
      assert batches[..n + 1][..n] == batches[..n];
      AddRowsConcat(spec, spec.Start(), Input(batches[..n]), ActiveRows(batches[n]));
      InputStopped(spec, batches, n + 1);
    }
  }

  /** The group has a row to put out: every column's value can be stored. */
  ghost predicate HasResultRow(spec: AggSpec, outputs: seq<OutputSpec>, rows: seq<Row>, key: Key) {
    forall c | 0 <= c < |outputs| :: exists cell :: IsResultCell(spec, outputs[c], rows, key, cell)
  }

  lemma SameValues(call: AggCall, rows: seq<Row>, a: seq<ExecValue>, b: seq<ExecValue>)
    requires ReadsTo(call, rows, a) && ReadsTo(call, rows, b)
    ensures a == b
  {
    assert forall i | 0 <= i < |rows| :: Ok(a[i]) == Eval(call.arg.value, rows[i]) == Ok(b[i]);
  }

  lemma ReadsKind(call: AggCall, rows: seq<Row>, values: seq<ExecValue>, schema: seq<DataType>, v: ExecValue)
    requires ReadsTo(call, rows, values) && TypedRows(rows, schema) && v in values
    ensures KindOf(v) == KindOfCall(call, schema)
  {
    var i :| 0 <= i < |values| && values[i] == v;
    EvalKind(call.arg.value, rows[i], schema);
  }

  lemma NeitherBefore(a: ExecValue, b: ExecValue)
    requires a.Str? && b.Str? && !Before(a, b) && !Before(b, a)
    ensures a == b
  {
    EvaluationMeaning.StringLessIff(a.s, b.s);
    EvaluationMeaning.StringLessIff(b.s, a.s);
    EvaluationMeaning.OneWay(a.s, b.s);
  }

  /** Two values of one aggregate can be stored alike. */
  lemma StoredAlike(call: AggCall, rows: seq<Row>, schema: seq<DataType>, x: seq<ExecValue>, v: ExecValue,
                    y: seq<ExecValue>, w: ExecValue, t: DataType)
    requires TypedRows(rows, schema) && IsAggregate(call, rows, x, v) && IsAggregate(call, rows, y, w)
    ensures Stored(v, t).Ok? <==> Stored(w, t).Ok?
  {
    if !call.aggType.Count? {
      SameValues(call, rows, x, y);
      if rows != [] && (call.aggType.Min? || call.aggType.Max?) {
        ReadsKind(call, rows, x, schema, v);
        ReadsKind(call, rows, x, schema, w);
        if v.Str? {
          NeitherBefore(v, w);
        }
      }
    }
  }

  lemma {:induction false} FailingColumn(spec: AggSpec, outputs: seq<OutputSpec>, key: Key, states: seq<AggState>)
    returns (c: nat)
    requires OutputRow(spec, outputs, key, states).None?
    ensures c < |outputs| && OutputValue(spec, outputs[c], key, states).None?
  {
    var n := |outputs| - 1;
    if OutputRow(spec, outputs[..n], key, states).None? {
      c := FailingColumn(spec, outputs[..n], key, states);
    } else {
      c := n;
    }
  }

  lemma MembersTyped(exprs: seq<Expr>, rows: seq<Row>, schema: seq<DataType>, key: Key)
    requires TypedRows(rows, schema)
    ensures TypedRows(GroupRows(exprs, rows, key), schema)
  {
    var members := GroupRows(exprs, rows, key);
    forall i | 0 <= i < |members| ensures TypedRow(members[i], schema) {
      assert members[i] in rows;
    }
  }

  lemma NoAggregateCell(call: AggCall, members: seq<Row>, schema: seq<DataType>, s: AggState, t: DataType)
    requires !call.aggType.InvalidAgg? && (call.aggType.Count? || call.arg.Some?) && TypedRows(members, schema)
    requires FoldUpdate(call, EMPTY, members) == Some(s)
    requires Finalize(call, s).Some? ==> Stored(Finalize(call, s).value, t).Err?
    ensures forall x, w | IsAggregate(call, members, x, w) :: Stored(w, t).Err?
  {
    var values := FoldedIsAggregate(call, members);
    var v := Finalize(call, s).value;
    forall x, w | IsAggregate(call, members, x, w) ensures Stored(w, t).Err? {
      StoredAlike(call, members, schema, values, v, x, w, t);
    }
  }

  lemma NoCell(spec: AggSpec, column: OutputSpec, rows: seq<Row>, schema: seq<DataType>, key: Key,
               states: seq<AggState>, cell: ExecValue)
    requires HasArguments(spec) && TypedRows(rows, schema)
    requires FoldedStates(spec, GroupRows(spec.groupExprs, rows, key), states)
    requires OutputValue(spec, column, key, states).None?
    ensures !IsResultCell(spec, column, rows, key, cell)
  {
    if column.AggregateColumn? && column.index < |spec.calls| {
      var i := column.index;
      MembersTyped(spec.groupExprs, rows, schema, key);
      NoAggregateCell(spec.calls[i], GroupRows(spec.groupExprs, rows, key), schema, states[i], column.dataType);
    }
  }

  /** A group whose row is not put out has none. */
  lemma NoRow(spec: AggSpec, outputs: seq<OutputSpec>, rows: seq<Row>, schema: seq<DataType>, g: Groups, key: Key)
    requires HasArguments(spec) && TypedRows(rows, schema) && IsGrouping(spec, rows, g)
    requires key in g && OutputRow(spec, outputs, key, g[key]).None?
    ensures !HasResultRow(spec, outputs, rows, key)
  {
    var c := FailingColumn(spec, outputs, key, g[key]);
    forall cell ensures !IsResultCell(spec, outputs[c], rows, key, cell) {
      NoCell(spec, outputs[c], rows, schema, key, g[key], cell);
    }
  }

  // ---------- many workers ----------

  /** Whatever workers made of which segment: the rows put out from their merged table are the result over all rows. */
  lemma ParallelResult(cfg: Config, steps: seq<Step>, outputs: seq<OutputSpec>, order: seq<Key>, result: seq<Row>)
    requires cfg.Valid() && HasArguments(cfg.spec) && (ShapedInitially(cfg); IsRun(cfg, Initial(cfg), steps))
    requires After(cfg, Initial(cfg), steps).main.Done? && After(cfg, Initial(cfg), steps).main.result.Some?
    requires var table := After(cfg, Initial(cfg), steps).main.result.value;
             NoDuplicates(order) && Members(order) == table.Keys && RowsOfKeys(cfg.spec, outputs, table, order, result)
    ensures IsResult(cfg.spec, outputs, AllRows(cfg.segments), order, result)
  {
    ParallelIsSerial(cfg, steps);
    TableMeans(cfg.spec, AllRows(cfg.segments));
    ResultMeans(cfg.spec, outputs, AllRows(cfg.segments), After(cfg, Initial(cfg), steps).main.result.value, order, result);
  }
}