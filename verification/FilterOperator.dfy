/** src/execution/filter/filter.cpp: batches in, batches with fewer active rows out. */
module FilterOperator {
  import opened Wrappers
  import opened Values
  import opened Expressions
  import opened Batches
  import opened OptimizerProofs
  import VectorPredicates

  lemma OneMore(e: Expr, before: seq<Row>, kept: seq<Row>, row: Row, input: bool, output: bool)
    requires FilterRows(e, before) == Ok(kept) && (input ==> Eval(e, row).Ok?)
    requires output == (input && VectorPredicates.RowTrue(e, row))
    ensures FilterRows(e, before + (if input then [row] else [])) == Ok(kept + (if output then [row] else []))
  {
    assert before + [] == before && kept + [] == kept;
    FilterRowsAppend(e, before, row);
  }

  /** The mask that evaluation leaves selects the rows the filter keeps. */
  lemma {:induction false} MaskIsFilter(e: Expr, rows: seq<Row>, input: seq<bool>, output: seq<bool>)
    requires |input| == |rows| && VectorPredicates.IsResult(e, rows, input, output)
    requires !VectorPredicates.SomeThrows(e, rows, input)
    ensures FilterRows(e, Selected(rows, input)) == Ok(Selected(rows, output))
  {
    if rows != [] {
      var n := |rows| - 1;
      assert forall i | 0 <= i < n :: rows[..n][i] == rows[i] && input[..n][i] == input[i] && output[..n][i] == output[i];
      MaskIsFilter(e, rows[..n], input[..n], output[..n]);
      OneMore(e, Selected(rows[..n], input[..n]), Selected(rows[..n], output[..n]), rows[n], input[n], output[n]);
    }
  }

  lemma {:induction false} SelectedHas(rows: seq<Row>, input: seq<bool>, i: nat)
    requires |input| == |rows| && i < |rows| && input[i]
    ensures rows[i] in Selected(rows, input)
  {
    var n := |rows| - 1;
    if i < n {
      assert rows[..n][i] == rows[i] && input[..n][i] == input[i];
      SelectedHas(rows[..n], input[..n], i);
    }
  }

  lemma ThrowsInFilter(e: Expr, rows: seq<Row>, input: seq<bool>)
    requires |input| == |rows| && VectorPredicates.SomeThrows(e, rows, input)
    ensures FilterRows(e, Selected(rows, input)).Err?
  {
    var i :| 0 <= i < |rows| && input[i] && Eval(e, rows[i]).Err?;
    SelectedHas(rows, input, i);
    assert Throws(e, rows[i]);
    FilterThrowsIff(e, Selected(rows, input));
  }

  lemma {:induction false} NoneSelected(rows: seq<Row>, selection: seq<bool>)
    requires |rows| == |selection| && true !in selection
    ensures Selected(rows, selection) == []
  {
    if rows != [] {
      var n := |rows| - 1;
      assert forall b | b in selection[..n] :: b in selection;
      assert selection[n] in selection;
      NoneSelected(rows[..n], selection[..n]);
    }
  }

  lemma SomeSelected(rows: seq<Row>, selection: seq<bool>)
    requires |rows| == |selection| && true in selection
    ensures Selected(rows, selection) != []
  {
    var i :| 0 <= i < |selection| && selection[i];
    SelectedHas(rows, selection, i);
  }

  /** Everything the filter has kept of the batches so far. */
  lemma InputGrows(p: Expr, batches: seq<VectorBatch>, n: nat)
    requires AllValid(batches) && n < |batches|
    ensures AllValid(batches[..n]) && AllValid(batches[..n + 1])
    ensures FilterRows(p, Input(batches[..n])) == Ok([]) ==>
              match FilterRows(p, ActiveRows(batches[n]))
              case Err(_) => FilterRows(p, Input(batches[..n + 1])).Err?
              case Ok(kept) => FilterRows(p, Input(batches[..n + 1])) == Ok(kept)
  {
    assert batches[..n + 1][..n] == batches[..n] && batches[..n + 1][n] == batches[n];
    FilterRowsConcat(p, Input(batches[..n]), ActiveRows(batches[n]));
    assert forall kept: seq<Row> :: [] + kept == kept;
  }

  lemma {:induction false} FilterRowsConcat(p: Expr, a: seq<Row>, b: seq<Row>)
    ensures FilterRows(p, a + b) ==
            match FilterRows(p, a)
            case Err(m) => Err(m)
            case Ok(x) => (match FilterRows(p, b) case Err(m) => Err(m) case Ok(y) => Ok(x + y))
  {
    if b == [] {
      assert a + b == a;
      assert FilterRows(p, a).Ok? ==> FilterRows(p, a).value + [] == FilterRows(p, a).value;
    } else {
      var n := |b| - 1;
      FilterRowsConcat(p, a, b[..n]);
      assert (a + b)[..|a| + n] == a + b[..n];
      if FilterRows(p, a).Ok? && FilterRows(p, b[..n]).Ok? {
        AppendAssociates(FilterRows(p, a).value, FilterRows(p, b[..n]).value, [b[n]]);
      }
    }
  }

  class Filter {
    const condition: Expr
    ghost const isFloat: real -> bool
    var prepared: VectorPredicates.VectorPredicate

    ghost predicate Valid()
      reads this
    {
      prepared == VectorPredicates.Compile(condition, isFloat)
    }

    /** Init compiles the predicate once. */
    constructor (condition: Expr, isFloat: real -> bool)
      ensures Valid() && this.condition == condition
    {
      this.condition, this.isFloat := condition, isFloat;
      prepared := VectorPredicates.Compile(condition, isFloat);
    }

    /**
     * Batches of which nothing is kept are passed over; the first other one comes out with the kept rows active. All
     * that was kept of the batches taken is what comes out, in order, and it throws exactly if the filter does on them.
     */
    method Next(batches: seq<VectorBatch>, ghost schema: seq<DataType>)
      returns (taken: nat, threw: bool, r: Option<VectorBatch>)
      requires Valid() && AllValid(batches) && TypedRefs(condition, schema)
      requires forall i | 0 <= i < |batches| :: TypedRows(batches[i].rows, schema)
      ensures taken <= |batches| && AllValid(batches[..taken])
      ensures threw <==> FilterRows(condition, Input(batches[..taken])).Err?
      ensures !threw && r.None? ==> taken == |batches| && FilterRows(condition, Input(batches)) == Ok([])
      ensures !threw && r.Some? ==>
                && r.value.Valid() && ActiveRows(r.value) != []
                && FilterRows(condition, Input(batches[..taken])) == Ok(ActiveRows(r.value))
    {
      taken, threw, r := 0, false, None;
      while taken < |batches|
        invariant taken <= |batches| && AllValid(batches[..taken])
        invariant FilterRows(condition, Input(batches[..taken])) == Ok([])
      {
        var b := batches[taken];
        var output;
        threw, output := VectorPredicates.Evaluate(prepared, condition, isFloat, b.rows, schema, b.selection);
        InputGrows(condition, batches, taken);
        taken := taken + 1;
        if threw {
          ThrowsInFilter(condition, b.rows, b.selection);
          return;
        }
        MaskIsFilter(condition, b.rows, b.selection, output);
        if true in output {
          SomeSelected(b.rows, output);
          return taken, false, Some(b.(selection := output));
        }
        NoneSelected(b.rows, output);
      }
      assert batches[..taken] == batches;
    }
  }
}
