/** ProjectionOperator: planning once, then view, dense or sparse projection of each batch. */
module ProjectionOperators {
  import opened Wrappers
  import opened Values
  import opened Expressions
  import opened SelectionCursors
  import opened Projection
  import VectorPredicates

  // ---------- one column ----------

  /** The value an operand has at a dense row of these columns. */
  function OperandAt(o: VectorPredicates.Operand, columns: seq<Column>, k: nat): ExecValue
    requires o.Column? ==> o.slot < |columns| && k < |columns[o.slot].values|
  {
    match o
    case Column(slot) => columns[slot].values[k]
    case Constant(v) => v
  }

  predicate Readable(o: VectorPredicates.Operand, columns: seq<Column>, count: nat, t: DataType) {
    match o
    case Column(slot) =>
      slot < |columns| ==>
        |columns[slot].values| == count && forall k | 0 <= k < count :: OfNumericType(columns[slot].values[k], t)
    case Constant(v) => OfNumericType(v, t)
  }

  predicate Missing(o: VectorPredicates.Operand, columns: seq<Column>) {
    o.Column? && o.slot >= |columns|
  }

  /** EvaluateDense: column with column, or column with constant on either side. None where it throws. */
  method EvaluateDense(v: VectorExpression, columns: seq<Column>, count: nat) returns (out: Option<seq<ExecValue>>)
    requires v.lhs.Column? || v.rhs.Column?
    requires Readable(v.lhs, columns, count, v.resultType) && Readable(v.rhs, columns, count, v.resultType)
    ensures out.None? <==> Missing(v.lhs, columns) || Missing(v.rhs, columns)
    ensures out.Some? ==>
              && |out.value| == count
              && forall k | 0 <= k < count ::
                   out.value[k]
                   == TypedValue(v.isAdd, OperandAt(v.lhs, columns, k), OperandAt(v.rhs, columns, k), v.resultType)
  {
    if Missing(v.lhs, columns) || Missing(v.rhs, columns) {
      return None;
    }
    var values: seq<ExecValue>, i := [], 0;
    if v.lhs.Column? && v.rhs.Column? {
      var a, b := columns[v.lhs.slot].values, columns[v.rhs.slot].values;
      while i < count
        invariant 0 <= i <= count && |values| == i
        invariant forall k | 0 <= k < i :: values[k] == TypedValue(v.isAdd, a[k], b[k], v.resultType)
      {
        values, i := values + [TypedValue(v.isAdd, a[i], b[i], v.resultType)], i + 1;
      }
    } else {
      var constOnLeft := !v.lhs.Column?;
      var data := if constOnLeft then columns[v.rhs.slot].values else columns[v.lhs.slot].values;
      var c := if constOnLeft then v.lhs.value else v.rhs.value;
      while i < count
        invariant 0 <= i <= count && |values| == i
        invariant forall k | 0 <= k < i ::
                    values[k] == TypedValue(v.isAdd, if constOnLeft then c else data[k],
                                            if constOnLeft then data[k] else c, v.resultType)
      {
        var x := if constOnLeft then TypedValue(v.isAdd, c, data[i], v.resultType)
                 else TypedValue(v.isAdd, data[i], c, v.resultType);
        values, i := values + [x], i + 1;
      }
    }
    out := Some(values);
  }

  /** Row by row, in the order of `rows`. */
  method EvaluateRows(e: Expr, b: ColumnBatch, rows: seq<nat>) returns (out: Option<seq<ExecValue>>)
    requires b.Shaped() && InRange(rows, |b.selection|) && !e.ColumnRef?
    ensures out.None? <==> Throws(e, b, rows)
    ensures out.Some? ==> Computes(e, b, rows, out.value)
  {
    var values: seq<ExecValue>, i := [], 0;
    while i < |rows|
      invariant 0 <= i <= |rows| && |values| == i
      invariant forall k | 0 <= k < i :: Outcome(e, b.RowAt(rows[k])) == Ok(values[k])
    {
      match Eval(e, b.RowAt(rows[i])) {
        case Err(_) => return None;
        case Ok(v) =>
          var stored := Stored(v, e.returnType);
          if stored.Err? {
            return None;
          }
          values := values + [stored.value];
      }
      i := i + 1;
    }
    out := Some(values);
  }

  /** Columns in which every slot the expression reads holds the input's active rows. */
  predicate GatheredFor(slots: set<nat>, b: ColumnBatch, rows: seq<nat>, columns: seq<Column>)
    requires b.Shaped() && InRange(rows, |b.selection|)
  {
    && |columns| == |b.columns|
    && forall s | s in slots && s < |columns| :: columns[s].values == Picked(b.columns[s].values, rows)
  }

  lemma ReadableGathered(e: Expr, o: VectorPredicates.Operand, t: DataType, isFloat: real -> bool, b: ColumnBatch,
                         rows: seq<nat>, columns: seq<Column>)
    requires b.Valid() && InRange(rows, |b.selection|) && RefsMatch(e, b.Schema()) && IsNumericType(t)
    requires ClassifyOperand(e, t, isFloat) == Some(o) && GatheredFor(OperandSlots(o), b, rows, columns)
    ensures Readable(o, columns, |rows|, t)
    ensures !Missing(o, columns) ==> forall k | 0 <= k < |rows| ::
              OperandValue(o, b.RowAt(rows[k])) == Some(OperandAt(o, columns, k))
    ensures Missing(o, columns) ==> forall k | 0 <= k < |rows| :: OperandValue(o, b.RowAt(rows[k])) == None
  {
    if e.ColumnRef? {
      if e.slot < |columns| {
        assert e.slot in OperandSlots(o);
        forall k | 0 <= k < |rows| ensures OfNumericType(columns[e.slot].values[k], t) {
          assert HasType(b.columns[e.slot].values[rows[k]], b.columns[e.slot].dataType);
        }
      }
    } else {
      VectorPredicates.CoercionIsExact(e.value, t, isFloat);
    }
  }

  lemma TypedRowAt(b: ColumnBatch, k: nat)
    requires b.Valid() && k < |b.selection|
    ensures TypedRow(b.RowAt(k), b.Schema())
  {
    forall c | 0 <= c < |b.columns| ensures HasType(b.RowAt(k)[c], b.Schema()[c]) {
      assert HasType(b.columns[c].values[k], b.columns[c].dataType);
    }
  }

  /** Over gathered columns the compiled expression is the row-wise one, in values and in throwing. */
  method EvaluateVector(e: Expr, v: VectorExpression, ghost isFloat: real -> bool, ghost b: ColumnBatch,
                        ghost rows: seq<nat>, columns: seq<Column>, count: nat)
    returns (out: Option<seq<ExecValue>>)
    requires PlanOf(e, isFloat) == Vector(v) && b.Valid() && InRange(rows, |b.selection|) && count == |rows| > 0
    requires RefsMatch(e, b.Schema()) && ColumnInRange(v, b, rows) && GatheredFor(InputSlots(v), b, rows, columns)
    ensures out.None? <==> Throws(e, b, rows)
    ensures out.Some? ==> Computes(e, b, rows, out.value)
  {
    ReadableGathered(e.left, v.lhs, v.resultType, isFloat, b, rows, columns);
    ReadableGathered(e.right, v.rhs, v.resultType, isFloat, b, rows, columns);
    forall k | 0 <= k < |rows|
      ensures var x, y := OperandValue(v.lhs, b.RowAt(rows[k])), OperandValue(v.rhs, b.RowAt(rows[k]));
              if x.None? || y.None? then Outcome(e, b.RowAt(rows[k])).Err?
              else
                && OfNumericType(x.value, v.resultType) && OfNumericType(y.value, v.resultType)
                && Outcome(e, b.RowAt(rows[k])) == Ok(TypedValue(v.isAdd, x.value, y.value, v.resultType))
    {
      TypedRowAt(b, rows[k]);
      assert FitsAt(v, b.RowAt(rows[k]));
      VectorCompiles(e, isFloat, b.RowAt(rows[k]), b.Schema());
    }
    out := EvaluateDense(v, columns, count);
    if out.None? {
      assert Outcome(e, b.RowAt(rows[0])).Err?;
    }
  }

  lemma DirectComputes(e: Expr, b: ColumnBatch, rows: seq<nat>)
    requires e.ColumnRef? && b.Shaped() && InRange(rows, |b.selection|)
    ensures e.slot < |b.columns| ==> Computes(e, b, rows, Picked(b.columns[e.slot].values, rows)) && !Throws(e, b, rows)
    ensures e.slot >= |b.columns| && rows != [] ==> Throws(e, b, rows)
  {
    if e.slot >= |b.columns| && rows != [] {
      assert Outcome(e, b.RowAt(rows[0])).Err?;
    }
  }

  // ---------- whole batches ----------

  function AllTrue(n: nat): (m: seq<bool>)
    ensures |m| == n && forall k | 0 <= k < n :: m[k]
  {
    seq(n, _ => true)
  }

  lemma ComputesNeverThrows(e: Expr, b: ColumnBatch, rows: seq<nat>, values: seq<ExecValue>)
    requires b.Shaped() && InRange(rows, |b.selection|) && Computes(e, b, rows, values)
    ensures !Throws(e, b, rows)
  {
    forall k | 0 <= k < |rows| ensures Outcome(e, b.RowAt(rows[k])).Ok? {
      assert Outcome(e, b.RowAt(rows[k])) == Ok(values[k]);
    }
  }

  /** A dense batch whose every column is computed is the projection. */
  lemma DenseProjection(es: seq<Expr>, b: ColumnBatch, columns: seq<Column>)
    requires b.Shaped() && |columns| == |es|
    requires forall c | 0 <= c < |es| :: Computes(es[c], b, ActiveRows(b.selection), columns[c].values)
    ensures IsProjection(es, b, ColumnBatch(columns, AllTrue(|ActiveRows(b.selection)|))) && !SomeThrows(es, b)
  {
    var rows := ActiveRows(b.selection);
    var out := ColumnBatch(columns, AllTrue(|rows|));
    DenseRows(out.selection);
    assert out.Shaped() by {
      forall c | 0 <= c < |es| ensures |columns[c].values| == |rows| {
        assert Computes(es[c], b, rows, columns[c].values);
      }
    }
    forall c | 0 <= c < |es|
      ensures Computes(es[c], b, rows, Picked(columns[c].values, ActiveRows(out.selection))) && !Throws(es[c], b, rows)
    {
      assert Picked(columns[c].values, ActiveRows(out.selection)) == columns[c].values;
      ComputesNeverThrows(es[c], b, rows, columns[c].values);
    }
  }

  /** Passing every column through with the selection unchanged is the projection too. */
  lemma ViewProjection(es: seq<Expr>, b: ColumnBatch, columns: seq<Column>)
    requires b.Shaped() && |columns| == |es|
    requires forall c | 0 <= c < |es| ::
               es[c].ColumnRef? && es[c].slot < |b.columns| && columns[c] == b.columns[es[c].slot]
    ensures IsProjection(es, b, ColumnBatch(columns, b.selection)) && !SomeThrows(es, b)
  {
    var rows := ActiveRows(b.selection);
    forall c | 0 <= c < |es|
      ensures Computes(es[c], b, rows, Picked(columns[c].values, rows)) && !Throws(es[c], b, rows)
    {
      DirectComputes(es[c], b, rows);
    }
  }

  class ProjectionOperator {
    const expressions: seq<Expr>
    const isFloat: real -> bool
    var slotPlans: seq<Plan>
    var allDirectColumns: bool
    var gatherSlots: set<nat>

    predicate Planned()
      reads this
    {
      && |slotPlans| == |expressions|
      && (forall c | 0 <= c < |expressions| :: slotPlans[c] == PlanOf(expressions[c], isFloat))
      && (allDirectColumns <==> forall c | 0 <= c < |expressions| :: slotPlans[c].DirectColumn?)
      && forall c | 0 <= c < |expressions| && slotPlans[c].Vector? :: InputSlots(slotPlans[c].expression) <= gatherSlots
    }

    constructor (expressions: seq<Expr>, isFloat: real -> bool)
      ensures this.expressions == expressions && this.isFloat == isFloat && slotPlans == [] && gatherSlots == {}
    {
      this.expressions, this.isFloat := expressions, isFloat;
      slotPlans, allDirectColumns, gatherSlots := [], false, {};
    }

    /** Each output column is classified once, and the slots the compiled ones read are collected. */
    method Init()
      modifies this
      ensures Planned()
    {
      slotPlans, allDirectColumns, gatherSlots := [], true, {};
      var i := 0;
      while i < |expressions|
        invariant 0 <= i <= |expressions| && |slotPlans| == i
        invariant forall c | 0 <= c < i :: slotPlans[c] == PlanOf(expressions[c], isFloat)
        invariant allDirectColumns <==> forall c | 0 <= c < i :: slotPlans[c].DirectColumn?
        invariant forall c | 0 <= c < i && slotPlans[c].Vector? :: InputSlots(slotPlans[c].expression) <= gatherSlots
      {
        var plan := PlanOf(expressions[i], isFloat);
        if !plan.DirectColumn? {
          allDirectColumns := false;
        }
        if plan.Vector? {
          gatherSlots := gatherSlots + InputSlots(plan.expression);
        }
        slotPlans, i := slotPlans + [plan], i + 1;
      }
    }

    /** All outputs are columns: views over the input's columns, its selection kept. */
    method ProduceViewProjection(b: ColumnBatch) returns (out: Option<ColumnBatch>)
      requires Planned() && allDirectColumns && b.Shaped() && ActiveRows(b.selection) != []
      ensures out.None? <==> SomeThrows(expressions, b)
      ensures out.Some? ==> IsProjection(expressions, b, out.value) && out.value.selection == b.selection
    {
      var columns: seq<Column>, i := [], 0;
      while i < |expressions|
        invariant 0 <= i <= |expressions| && |columns| == i
        invariant forall c | 0 <= c < i ::
                    expressions[c].slot < |b.columns| && columns[c] == b.columns[expressions[c].slot]
      {
        assert slotPlans[i].DirectColumn? && slotPlans[i] == PlanOf(expressions[i], isFloat);
        if expressions[i].slot >= |b.columns| {
          DirectComputes(expressions[i], b, ActiveRows(b.selection));
          return None;
        }
        columns, i := columns + [b.columns[expressions[i].slot]], i + 1;
      }
      forall c | 0 <= c < |expressions| ensures expressions[c].ColumnRef? {
        assert slotPlans[c].DirectColumn? && slotPlans[c] == PlanOf(expressions[c], isFloat);
      }
      ViewProjection(expressions, b, columns);
      out := Some(ColumnBatch(columns, b.selection));
    }

    /** The columns whose values are final, by the kind of their plan. */
    ghost predicate Filled(b: ColumnBatch, rows: seq<nat>, columns: seq<Column>, direct: bool, vector: bool)
      requires Planned() && b.Shaped() && InRange(rows, |b.selection|)
      reads this
    {
      && |columns| == |expressions|
      && forall c | 0 <= c < |expressions| && Among(slotPlans[c], direct, vector) ::
           Computes(expressions[c], b, rows, columns[c].values)
    }

    /** The last step of both paths: the remaining outputs are evaluated row by row. */
    method FillScalars(b: ColumnBatch, rows: seq<nat>, filled: seq<Column>) returns (out: Option<ColumnBatch>)
      requires Planned() && b.Shaped() && rows == ActiveRows(b.selection) && |filled| == |expressions|
      requires forall c | 0 <= c < |expressions| && !slotPlans[c].Scalar? ::
                 Computes(expressions[c], b, rows, filled[c].values)
      ensures out.None? <==> SomeThrows(expressions, b)
      ensures out.Some? ==> IsProjection(expressions, b, out.value) && out.value.selection == AllTrue(|rows|)
    {
      var columns, i := filled, 0;
      while i < |expressions|
        invariant 0 <= i <= |expressions| == |columns|
        invariant forall c | 0 <= c < |expressions| && (c < i || !slotPlans[c].Scalar?) ::
                    Computes(expressions[c], b, rows, columns[c].values)
      {
        if slotPlans[i].Scalar? {
          assert slotPlans[i] == PlanOf(expressions[i], isFloat);
          var values := EvaluateRows(expressions[i], b, rows);
          if values.None? {
            return None;
          }
          columns := columns[i := Column(columns[i].dataType, values.value)];
        }
        i := i + 1;
      }
      DenseProjection(expressions, b, columns);
      out := Some(ColumnBatch(columns, AllTrue(|rows|)));
    }

    /** One dense output: a view, a compiled expression over the input's own columns, or a place to fill. */
    method DenseColumn(b: ColumnBatch, ghost rows: seq<nat>, i: nat) returns (out: Option<Column>)
      requires Planned() && b.Valid() && rows == AllRows(|b.selection|) && rows != []
      requires ProjectableOn(expressions, isFloat, b, rows)
      requires i < |expressions|
      ensures out.None? ==> Throws(expressions[i], b, rows)
      ensures out.Some? && !slotPlans[i].Scalar? ==>
                Computes(expressions[i], b, rows, out.value.values)
    {
      WholeColumns(b);
      var e := expressions[i];
      assert slotPlans[i] == PlanOf(e, isFloat);
      match slotPlans[i] {
        case DirectColumn(slot) =>
          DirectComputes(e, b, rows);
          out := if slot >= |b.columns| then None else Some(b.columns[slot]);
        case Vector(v) =>
          var values := EvaluateVector(e, v, isFloat, b, rows, b.columns, |b.selection|);
          out := if values.None? then None else Some(Column(v.resultType, values.value));
        case Scalar =>
          out := Some(Column(e.returnType, []));
      }
    }

    method DenseColumns(b: ColumnBatch, ghost rows: seq<nat>) returns (out: Option<seq<Column>>)
      requires Planned() && b.Valid() && rows == AllRows(|b.selection|) && rows != []
      requires ProjectableOn(expressions, isFloat, b, rows)
      ensures out.None? ==> exists c :: 0 <= c < |expressions| && Throws(expressions[c], b, rows)
      ensures out.Some? ==>
                && |out.value| == |expressions|
                && forall c | 0 <= c < |expressions| && !slotPlans[c].Scalar? ::
                     Computes(expressions[c], b, rows, out.value[c].values)
    {
      var columns: seq<Column>, i := [], 0;
      while i < |expressions|
        invariant 0 <= i <= |expressions| && |columns| == i
        invariant forall c | 0 <= c < i && !slotPlans[c].Scalar? ::
                    Computes(expressions[c], b, rows, columns[c].values)
      {
        var column := DenseColumn(b, rows, i);
        if column.None? {
          return None;
        }
        ghost var before := columns;
        columns := columns + [column.value];
        assert forall c | 0 <= c < i :: columns[c] == before[c];
        i := i + 1;
      }
      out := Some(columns);
    }

    /** Columns pass through as views, compiled outputs are evaluated over the input's own columns. */
    method ProduceDenseProjection(b: ColumnBatch) returns (out: Option<ColumnBatch>)
      requires Planned() && Projectable(expressions, isFloat, b) && b.IsDense() && ActiveRows(b.selection) != []
      ensures out.None? <==> SomeThrows(expressions, b)
      ensures out.Some? ==> IsProjection(expressions, b, out.value) && out.value.IsDense()
    {
      DenseRows(b.selection);
      var columns := DenseColumns(b, ActiveRows(b.selection));
      if columns.None? {
        return None;
      }
      out := FillScalars(b, ActiveRows(b.selection), columns.value);
    }

    /** The output columns in order, or None when a column reference is out of range. */
    method AddOutputColumns(b: ColumnBatch) returns (out: Option<seq<Column>>)
      requires Planned() && b.Shaped() && ActiveRows(b.selection) != []
      ensures out.None? ==> SomeThrows(expressions, b)
      ensures out.Some? ==>
                && |out.value| == |expressions|
                && forall c | 0 <= c < |expressions| && slotPlans[c].DirectColumn? :: slotPlans[c].slot < |b.columns|
    {
      var columns: seq<Column>, i := [], 0;
      while i < |expressions|
        invariant 0 <= i <= |expressions| && |columns| == i
        invariant forall c | 0 <= c < i && slotPlans[c].DirectColumn? :: slotPlans[c].slot < |b.columns|
      {
        assert slotPlans[i] == PlanOf(expressions[i], isFloat);
        match slotPlans[i] {
          case DirectColumn(slot) =>
            if slot >= |b.columns| {
              DirectComputes(expressions[i], b, ActiveRows(b.selection));
              return None;
            }
            columns := columns + [Column(b.columns[slot].dataType, [])];
          case Vector(v) => columns := columns + [Column(v.resultType, [])];
          case Scalar => columns := columns + [Column(expressions[i].returnType, [])];
        }
        i := i + 1;
      }
      out := Some(columns);
    }

    method GatherDirectColumns(b: ColumnBatch, rows: seq<nat>, empty: seq<Column>) returns (columns: seq<Column>)
      requires Planned() && b.Shaped() && InRange(rows, |b.selection|) && |empty| == |expressions|
      requires forall c | 0 <= c < |expressions| && slotPlans[c].DirectColumn? :: slotPlans[c].slot < |b.columns|
      ensures Filled(b, rows, columns, true, false)
      ensures forall c | 0 <= c < |expressions| && slotPlans[c].DirectColumn? ::
                columns[c].values == Picked(b.columns[slotPlans[c].slot].values, rows)
    {
      columns := empty;
      var i := 0;
      while i < |expressions|
        invariant 0 <= i <= |expressions| == |columns|
        invariant forall c | 0 <= c < i && slotPlans[c].DirectColumn? ::
                    && columns[c].values == Picked(b.columns[slotPlans[c].slot].values, rows)
                    && Computes(expressions[c], b, rows, columns[c].values)
      {
        if slotPlans[i].DirectColumn? {
          assert slotPlans[i] == PlanOf(expressions[i], isFloat);
          DirectComputes(expressions[i], b, rows);
          columns := columns[i := Column(columns[i].dataType, Picked(b.columns[slotPlans[i].slot].values, rows))];
        }
        i := i + 1;
      }
    }

    /** For every input slot the last output column that passes it through. */
    method BuildDirectOutputMap(slotCount: nat) returns (outputOf: seq<Option<nat>>)
      requires Planned()
      ensures |outputOf| == slotCount
      ensures forall s | 0 <= s < slotCount && outputOf[s].Some? ::
                outputOf[s].value < |slotPlans| && slotPlans[outputOf[s].value] == DirectColumn(s)
    {
      outputOf := seq(slotCount, _ => None);
      var i := 0;
      while i < |slotPlans|
        invariant 0 <= i <= |slotPlans| && |outputOf| == slotCount
        invariant forall s | 0 <= s < slotCount && outputOf[s].Some? ::
                    outputOf[s].value < |slotPlans| && slotPlans[outputOf[s].value] == DirectColumn(s)
      {
        if slotPlans[i].DirectColumn? && slotPlans[i].slot < slotCount {
          outputOf := outputOf[slotPlans[i].slot := Some(i)];
        }
        i := i + 1;
      }
    }

    /** The slots expressions read: shared with an already gathered output where there is one, gathered otherwise. */
    method BuildGatheredInput(b: ColumnBatch, rows: seq<nat>, columns: seq<Column>) returns (gathered: seq<Column>)
      requires Planned() && b.Shaped() && InRange(rows, |b.selection|) && |columns| == |expressions|
      requires forall c | 0 <= c < |expressions| && slotPlans[c].DirectColumn? ::
                 slotPlans[c].slot < |b.columns|
                 && columns[c].values == Picked(b.columns[slotPlans[c].slot].values, rows)
      ensures GatheredFor(gatherSlots, b, rows, gathered)
    {
      var outputOf := BuildDirectOutputMap(|b.columns|);
      gathered := [];
      var s := 0;
      while s < |b.columns|
        invariant 0 <= s <= |b.columns| && |gathered| == s
        invariant forall t | t in gatherSlots && t < s :: gathered[t].values == Picked(b.columns[t].values, rows)
      {
        var src := b.columns[s];
        if s !in gatherSlots {
          gathered := gathered + [Column(src.dataType, [])];
        } else if outputOf[s].Some? {
          gathered := gathered + [Column(src.dataType, columns[outputOf[s].value].values)];
        } else {
          gathered := gathered + [Column(src.dataType, Picked(src.values, rows))];
        }
        s := s + 1;
      }
    }

    method FillVectors(b: ColumnBatch, rows: seq<nat>, gathered: seq<Column>, filled: seq<Column>)
      returns (out: Option<seq<Column>>)
      requires Planned() && Projectable(expressions, isFloat, b) && rows == ActiveRows(b.selection) != []
      requires GatheredFor(gatherSlots, b, rows, gathered) && Filled(b, rows, filled, true, false)
      ensures out.None? ==> SomeThrows(expressions, b)
      ensures out.Some? ==> Filled(b, rows, out.value, true, true)
    {
      var columns, i := filled, 0;
      while i < |expressions|
        invariant 0 <= i <= |expressions| == |columns|
        invariant forall c | 0 <= c < |expressions| && Among(slotPlans[c], true, c < i) ::
                    Computes(expressions[c], b, rows, columns[c].values)
      {
        if slotPlans[i].Vector? {
          var e, v := expressions[i], slotPlans[i].expression;
          assert slotPlans[i] == PlanOf(e, isFloat) && InputSlots(v) <= gatherSlots;
          var values := EvaluateVector(e, v, isFloat, b, rows, gathered, |rows|);
          if values.None? {
            return None;
          }
          columns := columns[i := Column(columns[i].dataType, values.value)];
        }
        i := i + 1;
      }
      out := Some(columns);
    }

    /** Gather the passed-through columns, share or gather what expressions read, then evaluate densely. */
    method ProduceSparseProjection(b: ColumnBatch) returns (out: Option<ColumnBatch>)
      requires Planned() && Projectable(expressions, isFloat, b) && ActiveRows(b.selection) != []
      ensures out.None? <==> SomeThrows(expressions, b)
      ensures out.Some? ==> IsProjection(expressions, b, out.value) && out.value.IsDense()
    {
      var rows := ActiveRows(b.selection);
      var empty := AddOutputColumns(b);
      if empty.None? {
        return None;
      }
      var direct := GatherDirectColumns(b, rows, empty.value);
      var gathered := BuildGatheredInput(b, rows, direct);
      var filled := FillVectors(b, rows, gathered, direct);
      if filled.None? {
        return None;
      }
      out := FillScalars(b, rows, filled.value);
    }

    /**
     * Batches without active rows are passed over; the first other one is projected. `taken` batches were read,
     * and None stands for the end of the input.
     */
    method Next(batches: seq<ColumnBatch>) returns (taken: nat, r: Option<Result<ColumnBatch, string>>)
      requires Planned() && forall i | 0 <= i < |batches| :: Projectable(expressions, isFloat, batches[i])
      ensures taken <= |batches|
      ensures r.None? ==> taken == |batches|
      ensures forall i | 0 <= i < (if r.None? then taken else taken - 1) :: ActiveRows(batches[i].selection) == []
      ensures r.Some? ==>
                && taken > 0 && batches[taken - 1].Shaped() && ActiveRows(batches[taken - 1].selection) != []
                && (r.value.Err? <==> SomeThrows(expressions, batches[taken - 1]))
                && (r.value.Ok? ==> IsProjection(expressions, batches[taken - 1], r.value.value))
    {
      taken := 0;
      while taken < |batches|
        invariant taken <= |batches|
        invariant forall i | 0 <= i < taken :: ActiveRows(batches[i].selection) == []
      {
        var b := batches[taken];
        taken := taken + 1;
        if ActiveRows(b.selection) != [] {
          var out: Option<ColumnBatch>;
          if allDirectColumns {
            out := ProduceViewProjection(b);
          } else if b.IsDense() {
            out := ProduceDenseProjection(b);
          } else {
            out := ProduceSparseProjection(b);
          }
          return taken, Some(match out case None => Err("projection failed") case Some(batch) => Ok(batch));
        }
      }
      r := None;
    }
  }

  predicate Among(plan: Plan, direct: bool, vector: bool) {
    (direct && plan.DirectColumn?) || (vector && plan.Vector?)
  }

  lemma WholeColumns(b: ColumnBatch)
    requires b.Shaped()
    ensures forall s | 0 <= s < |b.columns| ::
              Picked(b.columns[s].values, AllRows(|b.selection|)) == b.columns[s].values
  {
    forall s | 0 <= s < |b.columns|
      ensures Picked(b.columns[s].values, AllRows(|b.selection|)) == b.columns[s].values
    {
      assert |b.columns[s].values| == |b.selection|;
    }
  }
}
