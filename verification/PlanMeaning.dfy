/** What filters and projections of a plan make of rows, position by position. */
module PlanMeaning {
  import opened Wrappers
  import opened Values
  import opened Expressions
  import opened OptimizerProofs
  import opened SelectionCursors
  import Projection

  // ---------- projections ----------

  /** A tuple throws exactly if one of its expressions does; entry i is the value of expression i. */
  lemma {:induction false} TupleMeans(outputs: seq<Expr>, row: Row, stored: bool)
    ensures Tuple(outputs, row, stored).Err? <==> exists i :: 0 <= i < |outputs| && ValueOf(outputs[i], row, stored).Err?
    ensures Tuple(outputs, row, stored).Ok? ==>
              && |Tuple(outputs, row, stored).value| == |outputs|
              && forall i | 0 <= i < |outputs| ::
                   ValueOf(outputs[i], row, stored) == Ok(Tuple(outputs, row, stored).value[i])
  {
    if outputs != [] {
      var n := |outputs| - 1;
      TupleMeans(outputs[..n], row, stored);
      assert forall i | 0 <= i < n :: outputs[..n][i] == outputs[i];
    }
  }

  /** The rows of a projection throw exactly if some row's tuple does; row k is the tuple of row k. */
  lemma {:induction false} TupleRowsMeans(outputs: seq<Expr>, rows: seq<Row>, stored: bool)
    ensures TupleRows(outputs, rows, stored).Err? <==> exists k :: 0 <= k < |rows| && Tuple(outputs, rows[k], stored).Err?
    ensures TupleRows(outputs, rows, stored).Ok? ==>
              && |TupleRows(outputs, rows, stored).value| == |rows|
              && forall k | 0 <= k < |rows| ::
                   Tuple(outputs, rows[k], stored) == Ok(TupleRows(outputs, rows, stored).value[k])
  {
    if rows != [] {
      var n := |rows| - 1;
      TupleRowsMeans(outputs, rows[..n], stored);
      assert forall k | 0 <= k < n :: rows[..n][k] == rows[k];
    }
  }

  /** Row k of a projection holds, in column c, what expression c stores for row k. */
  lemma ProjectionMeans(outputs: seq<Expr>, rows: seq<Row>)
    ensures TupleRows(outputs, rows, true).Err?
            <==> exists k, c :: 0 <= k < |rows| && 0 <= c < |outputs| && Outcome(outputs[c], rows[k]).Err?
    ensures TupleRows(outputs, rows, true).Ok? ==>
              var result := TupleRows(outputs, rows, true).value;
              && |result| == |rows|
              && forall k | 0 <= k < |rows| ::
                   |result[k]| == |outputs|
                   && forall c | 0 <= c < |outputs| :: Outcome(outputs[c], rows[k]) == Ok(result[k][c])
  {
    TupleRowsMeans(outputs, rows, true);
    forall k | 0 <= k < |rows|
      ensures Tuple(outputs, rows[k], true).Err? <==> exists c :: 0 <= c < |outputs| && Outcome(outputs[c], rows[k]).Err?
      ensures Tuple(outputs, rows[k], true).Ok? ==>
                && |Tuple(outputs, rows[k], true).value| == |outputs|
                && forall c | 0 <= c < |outputs| ::
                     Outcome(outputs[c], rows[k]) == Ok(Tuple(outputs, rows[k], true).value[c])
    {
      TupleMeans(outputs, rows[k], true);
      assert forall c | 0 <= c < |outputs| :: ValueOf(outputs[c], rows[k], true) == Outcome(outputs[c], rows[k]);
    }
  }

  // ---------- filters ----------

  predicate Ascending(ks: seq<nat>, n: nat) {
    && (forall j | 0 <= j < |ks| :: ks[j] < n)
    && forall i, j | 0 <= i < j < |ks| :: ks[i] < ks[j]
  }

  predicate Keeps(p: Expr, row: Row) {
    Eval(p, row).Ok? && Truthy(Eval(p, row).value)
  }

  /** The numbers of the rows on which the predicate is true. */
  function KeptAt(p: Expr, rows: seq<Row>): (ks: seq<nat>)
    ensures Ascending(ks, |rows|) && forall k: nat | k < |rows| :: k in ks <==> Keeps(p, rows[k])
  {
    if rows == [] then []
    else
      var n := |rows| - 1;
      var before := KeptAt(p, rows[..n]);
      assert forall k: nat | k < n :: rows[..n][k] == rows[k];
      if Keeps(p, rows[n]) then before + [n] else before
  }

  lemma {:induction false} FilterKeeps(p: Expr, rows: seq<Row>)
    requires FilterRows(p, rows).Ok?
    ensures |FilterRows(p, rows).value| == |KeptAt(p, rows)|
    ensures forall j | 0 <= j < |KeptAt(p, rows)| :: FilterRows(p, rows).value[j] == rows[KeptAt(p, rows)[j]]
  {
    if rows != [] {
      var n := |rows| - 1;
      FilterKeeps(p, rows[..n]);
      var kept, done := KeptAt(p, rows[..n]), FilterRows(p, rows[..n]).value;
      assert forall j | 0 <= j < |kept| :: done[j] == rows[..n][kept[j]] == rows[kept[j]];
    }
  }

  /** A filter throws exactly if its predicate does on some row; it keeps, in order, the rows on which that is true. */
  lemma FilterMeans(p: Expr, rows: seq<Row>)
    ensures FilterRows(p, rows).Err? <==> exists row :: row in rows && Eval(p, row).Err?
    ensures FilterRows(p, rows).Ok? ==>
              && |FilterRows(p, rows).value| == |KeptAt(p, rows)|
              && forall j | 0 <= j < |KeptAt(p, rows)| :: FilterRows(p, rows).value[j] == rows[KeptAt(p, rows)[j]]
  {
    FilterThrowsIff(p, rows);
    assert forall row :: Throws(p, row) <==> Eval(p, row).Err?;
    if FilterRows(p, rows).Ok? {
      FilterKeeps(p, rows);
    }
  }

  // ---------- the operator on a batch ----------

  lemma ProjectedColumn(es: seq<Expr>, b: Projection.ColumnBatch, out: Projection.ColumnBatch, c: nat)
    requires b.Shaped() && Projection.IsProjection(es, b, out) && c < |es|
    ensures |Projection.OutputRows(out)| == |Projection.OutputRows(b)|
    ensures forall k | 0 <= k < |Projection.OutputRows(b)| ::
              Outcome(es[c], Projection.OutputRows(b)[k]) == Ok(Projection.OutputRows(out)[k][c])
  {
    var active := Projection.ActiveRows(b.selection);
    var values := Picked(out.columns[c].values, Projection.ActiveRows(out.selection));
    assert Projection.Computes(es[c], b, active, values);
    forall k | 0 <= k < |active|
      ensures Outcome(es[c], Projection.OutputRows(b)[k]) == Ok(Projection.OutputRows(out)[k][c])
    {
      assert Outcome(es[c], b.RowAt(active[k])) == Ok(values[k]);
    }
  }

  /** The projection of a batch is the plan's projection of its active rows. */
  lemma BatchIsTuples(es: seq<Expr>, b: Projection.ColumnBatch, out: Projection.ColumnBatch)
    requires b.Shaped() && Projection.IsProjection(es, b, out) && es != []
    ensures TupleRows(es, Projection.OutputRows(b), true) == Ok(Projection.OutputRows(out))
  {
    var rows, given := Projection.OutputRows(b), Projection.OutputRows(out);
    forall c | 0 <= c < |es|
      ensures |given| == |rows| && forall k | 0 <= k < |rows| :: Outcome(es[c], rows[k]) == Ok(given[k][c])
    {
      ProjectedColumn(es, b, out, c);
    }
    assert |given| == |rows| by {
      ProjectedColumn(es, b, out, 0);
    }
    ProjectionMeans(es, rows);
    var result := TupleRows(es, rows, true).value;
    forall k | 0 <= k < |rows| ensures result[k] == given[k] {
      assert |result[k]| == |es| == |given[k]|;
      assert forall c | 0 <= c < |es| :: Outcome(es[c], rows[k]) == Ok(given[k][c]);
    }
    assert result == given;
  }

  lemma BatchThrows(es: seq<Expr>, b: Projection.ColumnBatch)
    requires b.Shaped()
    ensures Projection.SomeThrows(es, b) <==> TupleRows(es, Projection.OutputRows(b), true).Err?
  {
    var rows, active := Projection.OutputRows(b), Projection.ActiveRows(b.selection);
    ProjectionMeans(es, rows);
    if Projection.SomeThrows(es, b) {
      var c :| 0 <= c < |es| && Projection.Throws(es[c], b, active);
      var k :| 0 <= k < |active| && Outcome(es[c], b.RowAt(active[k])).Err?;
      assert Outcome(es[c], rows[k]).Err?;
    }
    if TupleRows(es, rows, true).Err? {
      var k, c :| 0 <= k < |rows| && 0 <= c < |es| && Outcome(es[c], rows[k]).Err?;
      assert Outcome(es[c], b.RowAt(active[k])).Err?;
      assert Projection.Throws(es[c], b, active);
    }
  }
}
