/** HashAggregateState: the object behind the serial aggregate and behind every worker. */
module HashAggregate {
  import opened Wrappers
  import opened Sequences
  import opened Values
  import opened Expressions
  import opened Aggregates
  import opened Batches
  import opened GroupTables

  datatype OutputSpec = GroupKeyColumn(index: nat, dataType: DataType) | AggregateColumn(index: nat, dataType: DataType)

  /** One output row of a group. */
  function OutputRow(spec: AggSpec, outputs: seq<OutputSpec>, key: Key, states: seq<AggState>): Option<Row> {
    if outputs == [] then Some([])
    else
      var column := outputs[|outputs| - 1];
      match OutputRow(spec, outputs[..|outputs| - 1], key, states)
      case None => None
      case Some(done) =>
        match OutputValue(spec, column, key, states)
        case None => None
        case Some(v) => Some(done + [v])
  }

  function OutputValue(spec: AggSpec, column: OutputSpec, key: Key, states: seq<AggState>): Option<ExecValue> {
    match column
    case GroupKeyColumn(i, t) => if i < |key| then Stored(key[i], t).ToOption() else None
    case AggregateColumn(i, t) =>
      if i < |spec.calls| && i < |states| then
        match Finalize(spec.calls[i], states[i])
        case None => None
        case Some(v) => Stored(v, t).ToOption()
      else None
  }

  predicate IsCountStar(call: AggCall) {
    call.aggType.Count? && call.arg.None?
  }

  // ---------- GLOBAL mode: the rows folded into one call at a time ----------

  function FoldUpdate(call: AggCall, state: AggState, rows: seq<Row>): Option<AggState> {
    if rows == [] then Some(state)
    else
      match FoldUpdate(call, state, rows[..|rows| - 1])
      case None => None
      case Some(s) => Update(call, s, rows[|rows| - 1])
  }

  lemma FoldUpdateAppend(call: AggCall, state: AggState, rows: seq<Row>, row: Row)
    ensures FoldUpdate(call, state, rows + [row]) ==
            match FoldUpdate(call, state, rows) case None => None case Some(s) => Update(call, s, row)
  {
    assert (rows + [row])[..|rows|] == rows;
  }

  /** COUNT(*) counts the rows, whatever they hold: why one addition per batch is enough. */
  lemma {:induction false} CountStarCounts(call: AggCall, state: AggState, rows: seq<Row>)
    requires IsCountStar(call)
    ensures FoldUpdate(call, state, rows) == Some(state.(count := state.count + |rows|))
  {
    if rows != [] {
      CountStarCounts(call, state, rows[..|rows| - 1]);
    }
  }

  lemma {:induction false} FoldUpdateStopped(call: AggCall, state: AggState, batch: VectorBatch, n: nat)
    requires batch.Valid() && n <= |batch.rows|
    requires FoldUpdate(call, state, Selected(batch.rows[..n], batch.selection[..n])).None?
    ensures FoldUpdate(call, state, ActiveRows(batch)).None?
    decreases |batch.rows| - n
  {
    if n == |batch.rows| {
      assert batch.rows[..n] == batch.rows && batch.selection[..n] == batch.selection;
    } else {
      SelectedStep(batch.rows, batch.selection, n);
      var done := Selected(batch.rows[..n], batch.selection[..n]);
      FoldUpdateAppend(call, state, done, batch.rows[n]);
      assert done + [] == done;
      FoldUpdateStopped(call, state, batch, n + 1);
    }
  }

  /** Without GROUP BY, folding rows into the table is folding them into each call. */
  lemma {:induction false} GlobalTable(spec: AggSpec, before: seq<AggState>, rows: seq<Row>)
    requires spec.IsGlobal() && |before| == |spec.calls|
    ensures var folded := AddRows(spec, map[[] := before], rows);
            && (folded.Some? <==> forall i | 0 <= i < |spec.calls| :: FoldUpdate(spec.calls[i], before[i], rows).Some?)
            && (folded.Some? ==>
                  folded.value.Keys == {[]} && |folded.value[[]]| == |spec.calls| &&
                  forall i | 0 <= i < |spec.calls| ::
                    FoldUpdate(spec.calls[i], before[i], rows) == Some(folded.value[[]][i]))
  {
    if rows != [] {
      var init, last := rows[..|rows| - 1], rows[|rows| - 1];
      GlobalTable(spec, before, init);
      var folded := AddRows(spec, map[[] := before], init);
      if folded.Some? {
        UpdateAllAt(spec.calls, folded.value[[]], last);
        forall i | 0 <= i < |spec.calls|
          ensures FoldUpdate(spec.calls[i], before[i], rows) == Update(spec.calls[i], folded.value[[]][i], last) {
        }
      }
    }
  }

  class HashAggregateState {
    const spec: AggSpec
    var groups: Groups
    var globalStates: seq<AggState>
    var countStarCalls: seq<nat>
    var rowCalls: seq<nat>
    var emitStarted: bool
    var emitOrder: seq<Key>
    var emitNext: nat
    var globalEmitted: bool

    /** The two call lists split the calls of GLOBAL mode. */
    predicate Split()
      reads this
    {
      && NoDuplicates(countStarCalls) && NoDuplicates(rowCalls)
      && (forall i | i in countStarCalls :: 0 <= i < |spec.calls|)
      && (forall i | i in rowCalls :: 0 <= i < |spec.calls|)
      && (forall i | 0 <= i < |spec.calls| :: i in countStarCalls <==> IsCountStar(spec.calls[i]))
      && (forall i | 0 <= i < |spec.calls| :: i in rowCalls <==> !IsCountStar(spec.calls[i]))
    }

    predicate Valid()
      reads this
    {
      && spec.Valid()
      && (spec.IsGlobal() ==> |globalStates| == |spec.calls| && Split())
      && (!spec.IsGlobal() ==> Shaped(spec, groups))
      && (emitStarted ==> emitNext <= |emitOrder| && forall i | 0 <= i < |emitOrder| :: emitOrder[i] in groups)
    }

    /** The group table either mode stands for. */
    function Table(): (g: Groups)
      requires Valid()
      reads this
      ensures Shaped(spec, g)
    {
      if spec.IsGlobal() then map[[] := globalStates] else groups
    }

    constructor (spec: AggSpec)
      requires spec.Valid()
      ensures Valid() && this.spec == spec && Table() == spec.Start()
      ensures !emitStarted && !globalEmitted
    {
      this.spec := spec;
      groups := map[];
      globalStates := [];
      countStarCalls, rowCalls := [], [];
      emitStarted, emitOrder, emitNext, globalEmitted := false, [], 0, false;
      new;
      if spec.IsGlobal() {
        globalStates := spec.MakeStates();
        var countStar: seq<nat> := [];
        var perRow: seq<nat> := [];
        var i := 0;
        while i < |spec.calls|
          modifies {}
          invariant 0 <= i <= |spec.calls|
          invariant NoDuplicates(countStar) && NoDuplicates(perRow)
          invariant forall j | j in countStar :: 0 <= j < i
          invariant forall j | j in perRow :: 0 <= j < i
          invariant forall j | 0 <= j < i :: j in countStar <==> IsCountStar(spec.calls[j])
          invariant forall j | 0 <= j < i :: j in perRow <==> !IsCountStar(spec.calls[j])
        {
          if IsCountStar(spec.calls[i]) {
            NoDuplicatesAppend(countStar, i);
            countStar := countStar + [i];
          } else {
            NoDuplicatesAppend(perRow, i);
            perRow := perRow + [i];
          }
          i := i + 1;
        }
        countStarCalls, rowCalls := countStar, perRow;
      }
    }

    /** Folds the active rows in; `threw` when the row-wise fold would throw. */
    method Consume(batch: VectorBatch) returns (threw: bool)
      requires Valid() && batch.Valid() && !emitStarted
      modifies this`groups, this`globalStates
      ensures threw <==> AddRows(spec, old(Table()), ActiveRows(batch)).None?
      ensures !threw ==> Valid() && AddRows(spec, old(Table()), ActiveRows(batch)) == Some(Table())
    {
      if spec.IsGlobal() {
        threw := ConsumeGlobal(batch);
      } else {
        threw := ConsumeGrouped(batch);
      }
    }

    /** COUNT(*) once per batch, the other calls once per active row. */
    method ConsumeGlobal(batch: VectorBatch) returns (threw: bool)
      requires Valid() && batch.Valid() && spec.IsGlobal()
      modifies this`globalStates
      ensures threw <==> AddRows(spec, old(Table()), ActiveRows(batch)).None?
      ensures !threw ==> Valid() && AddRows(spec, old(Table()), ActiveRows(batch)) == Some(Table())
    {
      ghost var before := globalStates;
      ghost var active := ActiveRows(batch);
      GlobalTable(spec, before, active);
      forall i | 0 <= i < |spec.calls| && IsCountStar(spec.calls[i])
        ensures FoldUpdate(spec.calls[i], before[i], active)
                == Some(before[i].(count := before[i].count + |active|))
      {
        CountStarCounts(spec.calls[i], before[i], active);
      }
      AddCountStar(|ActiveRows(batch)|);
      threw := ConsumeRowCalls(batch);
      if !threw {
        var folded := AddRows(spec, map[[] := before], active);
        assert globalStates == folded.value[[]];
        assert folded.value == map[[] := globalStates];
      }
    }

    method ConsumeRowCalls(batch: VectorBatch) returns (threw: bool)
      requires spec.IsGlobal() && |globalStates| == |spec.calls| && Split() && batch.Valid()
      modifies this`globalStates
      ensures |globalStates| == |spec.calls|
      ensures threw <==> exists i | 0 <= i < |spec.calls| && !IsCountStar(spec.calls[i]) ::
                           FoldUpdate(spec.calls[i], old(globalStates)[i], ActiveRows(batch)).None?
      ensures forall i | 0 <= i < |spec.calls| && IsCountStar(spec.calls[i]) ::
                globalStates[i] == old(globalStates)[i]
      ensures !threw ==> forall i | 0 <= i < |spec.calls| && !IsCountStar(spec.calls[i]) ::
                FoldUpdate(spec.calls[i], old(globalStates)[i], ActiveRows(batch)) == Some(globalStates[i])
    {
      ghost var before := globalStates;
      var row := 0;
      while row < |batch.rows|
        invariant 0 <= row <= |batch.rows|
        invariant |globalStates| == |spec.calls|
        invariant forall i | 0 <= i < |spec.calls| && IsCountStar(spec.calls[i]) :: globalStates[i] == before[i]
        invariant forall i | 0 <= i < |spec.calls| && !IsCountStar(spec.calls[i]) ::
                    FoldUpdate(spec.calls[i], before[i], Selected(batch.rows[..row], batch.selection[..row]))
                    == Some(globalStates[i])
      {
        ghost var done := Selected(batch.rows[..row], batch.selection[..row]);
        ghost var at := globalStates;
        SelectedStep(batch.rows, batch.selection, row);
        if batch.selection[row] {
          forall i | 0 <= i < |spec.calls| && !IsCountStar(spec.calls[i])
            ensures FoldUpdate(spec.calls[i], before[i], done + [batch.rows[row]])
                    == Update(spec.calls[i], at[i], batch.rows[row])
          {
            FoldUpdateAppend(spec.calls[i], before[i], done, batch.rows[row]);
          }
          threw := UpdateRowCalls(batch.rows[row]);
          if threw {
            ghost var i :| 0 <= i < |spec.calls| && !IsCountStar(spec.calls[i])
                           && Update(spec.calls[i], at[i], batch.rows[row]).None?;
            FoldUpdateStopped(spec.calls[i], before[i], batch, row + 1);
            return true;
          }
        } else {
          assert done + [] == done;
        }
        row := row + 1;
      }
      assert batch.rows[..row] == batch.rows && batch.selection[..row] == batch.selection;
      threw := false;
    }

    method AddCountStar(active: nat)
      requires Valid() && spec.IsGlobal()
      modifies this`globalStates
      ensures |globalStates| == |spec.calls|
      ensures forall i | 0 <= i < |spec.calls| :: globalStates[i] ==
                if IsCountStar(spec.calls[i]) then old(globalStates)[i].(count := old(globalStates)[i].count + active)
                else old(globalStates)[i]
    {
      ghost var before := globalStates;
      var c := 0;
      while c < |countStarCalls|
        invariant 0 <= c <= |countStarCalls|
        invariant |globalStates| == |spec.calls|
        invariant forall i | 0 <= i < |globalStates| :: globalStates[i] ==
                    if i in countStarCalls[..c] then before[i].(count := before[i].count + active) else before[i]
      {
        var idx := countStarCalls[c];
        assert idx in countStarCalls && idx !in countStarCalls[..c];
        globalStates := globalStates[idx := globalStates[idx].(count := globalStates[idx].count + active)];
        c := c + 1;
      }
    }

    method UpdateRowCalls(row: Row) returns (threw: bool)
      requires spec.IsGlobal() && |globalStates| == |spec.calls| && Split()
      modifies this`globalStates
      ensures threw <==> exists i | 0 <= i < |spec.calls| && !IsCountStar(spec.calls[i]) ::
                           Update(spec.calls[i], old(globalStates)[i], row).None?
      ensures |globalStates| == |spec.calls|
      ensures forall i | 0 <= i < |spec.calls| && IsCountStar(spec.calls[i]) ::
                globalStates[i] == old(globalStates)[i]
      ensures !threw ==> forall i | 0 <= i < |spec.calls| && !IsCountStar(spec.calls[i]) ::
                Update(spec.calls[i], old(globalStates)[i], row) == Some(globalStates[i])
    {
      ghost var before := globalStates;
      var c := 0;
      while c < |rowCalls|
        invariant 0 <= c <= |rowCalls|
        invariant |globalStates| == |spec.calls|
        invariant forall i | 0 <= i < |spec.calls| && i in rowCalls[..c] ::
                    Update(spec.calls[i], before[i], row) == Some(globalStates[i])
        invariant forall i | 0 <= i < |spec.calls| && i !in rowCalls[..c] :: globalStates[i] == before[i]
      {
        var idx := rowCalls[c];
        assert idx in rowCalls && idx !in rowCalls[..c];
        match Update(spec.calls[idx], globalStates[idx], row) {
          case None =>
            return true;
          case Some(s) =>
            globalStates := globalStates[idx := s];
        }
        c := c + 1;
      }
      threw := false;
      forall i | 0 <= i < |spec.calls| && !IsCountStar(spec.calls[i])
        ensures Update(spec.calls[i], before[i], row) == Some(globalStates[i])
      {
        assert i in rowCalls;
      }
    }

    method ConsumeGrouped(batch: VectorBatch) returns (threw: bool)
      requires Valid() && batch.Valid() && !spec.IsGlobal() && !emitStarted
      modifies this`groups
      ensures threw <==> AddRows(spec, old(groups), ActiveRows(batch)).None?
      ensures !threw ==> Valid() && AddRows(spec, old(groups), ActiveRows(batch)) == Some(groups)
    {
      ghost var before := groups;
      var row := 0;
      while row < |batch.rows|
        invariant 0 <= row <= |batch.rows|
        invariant Shaped(spec, groups)
        invariant AddRows(spec, before, Selected(batch.rows[..row], batch.selection[..row])) == Some(groups)
      {
        SelectedStep(batch.rows, batch.selection, row);
        ghost var done := Selected(batch.rows[..row], batch.selection[..row]);
        if batch.selection[row] {
          AddRowsAppend(spec, before, done, batch.rows[row]);
          threw := ConsumeRow(batch.rows[row]);
          if threw {
            AddRowsStopped(spec, before, batch, row + 1);
            return true;
          }
        } else {
          assert done + [] == done;
        }
        row := row + 1;
      }
      assert batch.rows[..row] == batch.rows && batch.selection[..row] == batch.selection;
      threw := false;
    }

    method ConsumeRow(row: Row) returns (threw: bool)
      requires spec.Valid() && Shaped(spec, groups)
      modifies this`groups
      ensures threw <==> AddRow(spec, old(groups), row).None?
      ensures !threw ==> AddRow(spec, old(groups), row) == Some(groups) && Shaped(spec, groups)
    {
      AddRowShape(spec, groups, row);
      match KeyOf(spec.groupExprs, row) {
        case None => threw := true;
        case Some(key) =>
          var states := if key in groups then groups[key] else spec.MakeStates();
          var start := states;
          UpdateAllAt(spec.calls, start, row);
          var i := 0;
          while i < |spec.calls|
            invariant 0 <= i <= |spec.calls| == |states|
            invariant forall j | 0 <= j < i :: Update(spec.calls[j], start[j], row) == Some(states[j])
            invariant forall j | i <= j < |states| :: states[j] == start[j]
          {
            match Update(spec.calls[i], states[i], row) {
              case None => return true;
              case Some(s) => states := states[i := s];
            }
            i := i + 1;
          }
          assert states == UpdateAll(spec.calls, start, row).value;
          groups := groups[key := states];
          threw := false;
      }
    }

    /** Merge: emplace where the key is new, then combine call by call. */
    method Merge(other: HashAggregateState, ghost schema: seq<DataType>)
      requires Valid() && other.Valid() && other != this && other.spec == spec && !emitStarted
      requires CanonicalGroups(spec, schema, Table()) && CanonicalGroups(spec, schema, other.Table())
      modifies this`groups, this`globalStates
      ensures Valid() && Table() == MergeGroups(spec, old(Table()), other.Table())
    {
      if spec.IsGlobal() {
        assert CanonicalStates(spec, schema, Table()[[]]) && CanonicalStates(spec, schema, other.Table()[[]]);
        globalStates := CombineStates(globalStates, other.globalStates, schema);
        return;
      }
      MergeGrouped(other, schema);
    }

    method MergeGrouped(other: HashAggregateState, ghost schema: seq<DataType>)
      requires spec.Valid() && Shaped(spec, groups) && Shaped(spec, other.groups) && other != this
      requires CanonicalGroups(spec, schema, groups) && CanonicalGroups(spec, schema, other.groups)
      modifies this`groups
      ensures Shaped(spec, groups) && groups == MergeGroups(spec, old(groups), other.groups)
    {
      ghost var before, merged := groups, map[];
      var source := other.groups;
      var todo := source.Keys;
      MergeNothing(spec, before);
      while todo != {}
        invariant todo <= source.Keys && merged == source - todo && Shaped(spec, merged)
        invariant groups == MergeGroups(spec, before, merged)
      {
        var k :| k in todo;
        MergeExtends(spec, before, merged, k, source[k]);
        MergeKey(k, source[k], schema);
        todo := todo - {k};
        merged := merged[k := source[k]];
        assert merged == source - todo;
      }
      assert merged == source;
    }

    method MergeKey(k: Key, states: seq<AggState>, ghost schema: seq<DataType>)
      requires spec.Valid() && CanonicalStates(spec, schema, states)
      requires k in groups ==> CanonicalStates(spec, schema, groups[k])
      modifies this`groups
      ensures groups == old(groups)[k := if k in old(groups) then JoinAll(spec.calls, old(groups)[k], states) else states]
    {
      var own := if k in groups then groups[k] else spec.MakeStates();
      MakeStatesCanonical(spec, schema);
      MakeStatesIsUnit(spec, schema, states);
      own := CombineStates(own, states, schema);
      groups := groups[k := own];
    }

    method CombineStates(dst: seq<AggState>, src: seq<AggState>, ghost schema: seq<DataType>)
      returns (states: seq<AggState>)
      requires spec.Valid() && CanonicalStates(spec, schema, dst) && CanonicalStates(spec, schema, src)
      ensures states == JoinAll(spec.calls, dst, src)
    {
      states := dst;
      var i := 0;
      while i < |spec.calls|
        invariant 0 <= i <= |spec.calls| == |states|
        invariant forall j | 0 <= j < i :: states[j] == Join(spec.calls[j].aggType, dst[j], src[j])
        invariant forall j | i <= j < |states| :: states[j] == dst[j]
      {
        CombineLaws(spec.calls[i].aggType, KindOfCall(spec.calls[i], schema), dst[i], src[i]);
        states := states[i := Combine(spec.calls[i].aggType, states[i], src[i]).value];
        i := i + 1;
      }
    }

    /** The groups in the order they are emitted in, and how many are behind us. */
    function Order(): seq<Key>
      reads this
    {
      if spec.IsGlobal() then [[]] else emitOrder
    }

    function Position(): nat
      reads this
    {
      if spec.IsGlobal() then (if globalEmitted then 1 else 0) else if emitStarted then emitNext else 0
    }

    /** Whether the order of emission is settled. */
    predicate Started()
      reads this
    {
      spec.IsGlobal() || emitStarted
    }

    /** NextResult: one batch of the groups from the current position on. */
    method NextResult(outputs: seq<OutputSpec>) returns (threw: bool, more: bool, emitted: seq<Row>)
      requires Valid()
      modifies this`globalEmitted, this`emitStarted, this`emitOrder, this`emitNext
      ensures Valid() && Started()
      ensures if old(Started()) then Order() == old(Order())
              else NoDuplicates(Order()) && Members(Order()) == Table().Keys
      ensures EmitsNext(spec, outputs, Table(), Order(), old(Position()), threw, more, emitted)
      ensures !threw ==> Position() == old(Position()) + |emitted|
    {
      if spec.IsGlobal() {
        threw, more, emitted := NextGlobalResult(outputs);
      } else {
        threw, more, emitted := NextGroupedResult(outputs);
      }
    }

    /** GLOBAL mode: one row in all, even for an empty input. */
    method NextGlobalResult(outputs: seq<OutputSpec>) returns (threw: bool, more: bool, emitted: seq<Row>)
      requires Valid() && spec.IsGlobal()
      modifies this`globalEmitted
      ensures Valid()
      ensures EmitsNext(spec, outputs, Table(), [[]], old(Position()), threw, more, emitted)
      ensures !threw ==> globalEmitted
    {
      threw, more, emitted := false, false, [];
      if globalEmitted {
        return;
      }
      var none: Key := [];
      assert [none][0] == none && none in Table();
      match OutputRow(spec, outputs, none, globalStates) {
        case None =>
          threw := true;
          assert Throws(spec, outputs, Table(), [none], 0);
        case Some(row) =>
          emitted := [row];
          more := true;
          globalEmitted := true;
      }
    }

    /** Grouped mode: the first call fixes a bucket order, every call emits up to a batch of it. */
    method NextGroupedResult(outputs: seq<OutputSpec>) returns (threw: bool, more: bool, emitted: seq<Row>)
      requires Valid() && !spec.IsGlobal()
      modifies this`emitStarted, this`emitOrder, this`emitNext
      ensures Valid() && emitStarted
      ensures if old(emitStarted) then emitOrder == old(emitOrder)
              else NoDuplicates(emitOrder) && Members(emitOrder) == groups.Keys
      ensures EmitsNext(spec, outputs, groups, emitOrder, old(Position()), threw, more, emitted)
      ensures !threw ==> emitNext == old(Position()) + |emitted|
    {
      if !emitStarted {
        emitOrder := Enumerate(groups.Keys);
        emitStarted, emitNext := true, 0;
        forall i | 0 <= i < |emitOrder| ensures emitOrder[i] in groups {
          assert emitOrder[i] in Members(emitOrder);
        }
      }
      var from := emitNext;
      var rows := TakeRows();
      threw, emitted := WriteRows(spec, outputs, groups, emitOrder, from, rows);
      more := |rows| > 0;
    }

    /** The keys of the next batch. */
    method TakeRows() returns (rows: seq<Key>)
      requires emitNext <= |emitOrder|
      modifies this`emitNext
      ensures |rows| == BatchSize(emitOrder, old(emitNext)) && emitNext == old(emitNext) + |rows| <= |emitOrder|
      ensures forall i | 0 <= i < |rows| :: rows[i] == emitOrder[old(emitNext) + i]
    {
      rows := [];
      while emitNext < |emitOrder| && |rows| < BATCH_SIZE
        invariant emitNext == old(emitNext) + |rows| <= |emitOrder| && |rows| <= BATCH_SIZE
        invariant forall i | 0 <= i < |rows| :: rows[i] == emitOrder[old(emitNext) + i]
      {
        rows := rows + [emitOrder[emitNext]];
        emitNext := emitNext + 1;
      }
    }
  }

  /** Groups in the batch that starts at `from`. */
  function BatchSize(order: seq<Key>, from: nat): nat
    requires from <= |order|
  {
    if |order| - from < BATCH_SIZE then |order| - from else BATCH_SIZE
  }

  predicate Throws(spec: AggSpec, outputs: seq<OutputSpec>, table: Groups, order: seq<Key>, i: nat) {
    i < |order| && order[i] in table && OutputRow(spec, outputs, order[i], table[order[i]]).None?
  }

  /** `rows` are the finished rows of the groups from `from` on. */
  predicate RowsFrom(spec: AggSpec, outputs: seq<OutputSpec>, table: Groups, order: seq<Key>, from: nat, rows: seq<Row>) {
    from + |rows| <= |order| && forall i | 0 <= i < |rows| :: IsRowOf(spec, outputs, table, order, from + i, rows[i])
  }

  predicate IsRowOf(spec: AggSpec, outputs: seq<OutputSpec>, table: Groups, order: seq<Key>, k: nat, row: Row) {
    k < |order| && order[k] in table && OutputRow(spec, outputs, order[k], table[order[k]]) == Some(row)
  }

  /** What one call emits: the whole next batch, unless a group of it throws. */
  predicate EmitsNext(spec: AggSpec, outputs: seq<OutputSpec>, table: Groups, order: seq<Key>, from: nat,
                      threw: bool, more: bool, emitted: seq<Row>)
  {
    && from <= |order|
    && (threw <==> exists i | from <= i < from + BatchSize(order, from) :: Throws(spec, outputs, table, order, i))
    && (!threw ==> |emitted| == BatchSize(order, from) && (more <==> |emitted| > 0)
                   && RowsFrom(spec, outputs, table, order, from, emitted))
  }

  method WriteRows(spec: AggSpec, outputs: seq<OutputSpec>, table: Groups, ghost order: seq<Key>, ghost from: nat,
                   keys: seq<Key>)
    returns (threw: bool, rows: seq<Row>)
    requires from + |keys| <= |order| && forall i | 0 <= i < |keys| :: keys[i] == order[from + i] && keys[i] in table
    ensures threw <==> exists i | from <= i < from + |keys| :: Throws(spec, outputs, table, order, i)
    ensures !threw ==> |rows| == |keys| && RowsFrom(spec, outputs, table, order, from, rows)
  {
    rows := [];
    while |rows| < |keys|
      invariant |rows| <= |keys|
      invariant RowsFrom(spec, outputs, table, order, from, rows)
    {
      var key := keys[|rows|];
      match OutputRow(spec, outputs, key, table[key]) {
        case None =>
          assert Throws(spec, outputs, table, order, from + |rows|);
          return true, rows;
        case Some(row) => rows := rows + [row];
      }
    }
    threw := false;
    forall i | from <= i < from + |keys| ensures !Throws(spec, outputs, table, order, i) {
      assert IsRowOf(spec, outputs, table, order, from + (i - from), rows[i - from]);
    }
  }

  predicate BatchSized(delivered: seq<seq<Row>>) {
    forall i | 0 <= i < |delivered| :: 0 < |delivered[i]| <= BATCH_SIZE
  }

  /**
   * The output loop both executors end with: NextResult until it says no. Every group is delivered
   * exactly once, in non-empty batches of at most BATCH_SIZE rows; it throws if and only if some group does.
   */
  method EmitAll(state: HashAggregateState, outputs: seq<OutputSpec>)
    returns (threw: bool, delivered: seq<seq<Row>>, ghost order: seq<Key>)
    requires state.Valid() && !state.emitStarted && !state.globalEmitted
    modifies state
    ensures state.Valid() && state.Table() == old(state.Table())
    ensures NoDuplicates(order) && Members(order) == state.Table().Keys
    ensures threw <==> exists i | 0 <= i < |order| :: Throws(state.spec, outputs, state.Table(), order, i)
    ensures BatchSized(delivered)
    ensures !threw ==> RowsOfKeys(state.spec, outputs, state.Table(), order, Concat(delivered))
    ensures !threw && state.spec.IsGlobal() ==> |Concat(delivered)| == 1
  {
    var more, batch;
    threw, more, batch := state.NextResult(outputs);
    order := state.Order();
    threw, delivered := EmitRest(state, outputs, threw, more, batch);
  }

  /** The loop after its first call. */
  method EmitRest(state: HashAggregateState, outputs: seq<OutputSpec>, threw0: bool, more0: bool, batch0: seq<Row>)
    returns (threw: bool, delivered: seq<seq<Row>>)
    requires state.Valid() && state.Started()
    requires EmitsNext(state.spec, outputs, state.Table(), state.Order(), 0, threw0, more0, batch0)
    requires !threw0 ==> state.Position() == |batch0|
    modifies state
    ensures state.Valid() && state.Table() == old(state.Table())
    ensures var order := old(state.Order());
            && (threw <==> exists i | 0 <= i < |order| :: Throws(state.spec, outputs, state.Table(), order, i))
            && (!threw ==> RowsOfKeys(state.spec, outputs, state.Table(), order, Concat(delivered)))
    ensures BatchSized(delivered)
  {
    ghost var table, order := state.Table(), state.Order();
    var more, batch;
    threw, more, batch, delivered := threw0, more0, batch0, [];
    while !threw && more
      invariant state.Valid() && state.Started() && state.Table() == table && state.Order() == order
      invariant BatchSized(delivered) && RowsFrom(state.spec, outputs, table, order, 0, Concat(delivered))
      invariant EmitsNext(state.spec, outputs, table, order, |Concat(delivered)|, threw, more, batch)
      invariant !threw ==> state.Position() == |Concat(delivered)| + |batch|
      decreases |order| - |Concat(delivered)|, !threw
    {
      RowsFromAppend(state.spec, outputs, table, order, Concat(delivered), batch);
      ConcatAppend(delivered, batch);
      delivered := delivered + [batch];
      threw, more, batch := state.NextResult(outputs);
    }
    EmitEnd(state.spec, outputs, table, order, Concat(delivered), threw, more, batch);
  }

  lemma RowsFromAppend(spec: AggSpec, outputs: seq<OutputSpec>, table: Groups, order: seq<Key>,
                       done: seq<Row>, batch: seq<Row>)
    requires RowsFrom(spec, outputs, table, order, 0, done)
    requires RowsFrom(spec, outputs, table, order, |done|, batch)
    ensures RowsFrom(spec, outputs, table, order, 0, done + batch)
  {
    forall i | 0 <= i < |done + batch| ensures IsRowOf(spec, outputs, table, order, 0 + i, (done + batch)[i]) {
      if i < |done| {
        assert IsRowOf(spec, outputs, table, order, 0 + i, done[i]);
      } else {
        assert IsRowOf(spec, outputs, table, order, |done| + (i - |done|), batch[i - |done|]);
      }
    }
  }

  /** One finished row per key, in the order of the keys. */
  predicate RowsOfKeys(spec: AggSpec, outputs: seq<OutputSpec>, table: Groups, keys: seq<Key>, rows: seq<Row>) {
    |rows| == |keys| && RowsFrom(spec, outputs, table, keys, 0, rows)
  }

  lemma EmitEnd(spec: AggSpec, outputs: seq<OutputSpec>, table: Groups, order: seq<Key>, done: seq<Row>,
                threw: bool, more: bool, batch: seq<Row>)
    requires RowsFrom(spec, outputs, table, order, 0, done)
    requires EmitsNext(spec, outputs, table, order, |done|, threw, more, batch) && (threw || !more)
    ensures threw <==> exists i | 0 <= i < |order| :: Throws(spec, outputs, table, order, i)
    ensures !threw ==> RowsOfKeys(spec, outputs, table, order, done)
  {
    if !threw {
      forall i | 0 <= i < |order| ensures !Throws(spec, outputs, table, order, i) {
        assert IsRowOf(spec, outputs, table, order, 0 + i, done[i]);
      }
    }
  }

  /** The rows a table is output as do not depend on the bucket order. */
  lemma SameRowsAnyOrder(spec: AggSpec, outputs: seq<OutputSpec>, table: Groups,
                         a: seq<Key>, aRows: seq<Row>, b: seq<Key>, bRows: seq<Row>)
    requires NoDuplicates(a) && NoDuplicates(b) && Members(a) == Members(b)
    requires RowsOfKeys(spec, outputs, table, a, aRows) && RowsOfKeys(spec, outputs, table, b, bRows)
    ensures multiset(aRows) == multiset(bRows)
  {
    var f := (k: Key) =>
      if k in table && OutputRow(spec, outputs, k, table[k]).Some? then OutputRow(spec, outputs, k, table[k]).value
      else [];
    SameMultiset(a, b);
    PermutedImages(a, aRows, b, bRows, f);
  }

  lemma MergeNothing(spec: AggSpec, g: Groups)
    requires Shaped(spec, g)
    ensures MergeGroups(spec, g, map[]) == g
  {
  }

  lemma MergeExtends(spec: AggSpec, g: Groups, h: Groups, k: Key, states: seq<AggState>)
    requires Shaped(spec, g) && Shaped(spec, h) && k !in h && |states| == |spec.calls|
    ensures k in MergeGroups(spec, g, h) <==> k in g
    ensures k in g ==> MergeGroups(spec, g, h)[k] == g[k]
    ensures MergeGroups(spec, g, h[k := states])
            == MergeGroups(spec, g, h)[k := if k in g then JoinAll(spec.calls, g[k], states) else states]
  {
  }

  lemma AddRowsAppend(spec: AggSpec, groups: Groups, rows: seq<Row>, row: Row)
    requires Shaped(spec, groups)
    ensures AddRows(spec, groups, rows + [row]) ==
            match AddRows(spec, groups, rows) case None => None case Some(g) => AddRow(spec, g, row)
  {
    assert (rows + [row])[..|rows|] == rows;
  }

  /** A row that throws makes its whole batch throw. */
  lemma {:induction false} AddRowsStopped(spec: AggSpec, groups: Groups, batch: VectorBatch, n: nat)
    requires Shaped(spec, groups) && batch.Valid() && n <= |batch.rows|
    requires AddRows(spec, groups, Selected(batch.rows[..n], batch.selection[..n])).None?
    ensures AddRows(spec, groups, ActiveRows(batch)).None?
    decreases |batch.rows| - n
  {
    if n == |batch.rows| {
      assert batch.rows[..n] == batch.rows && batch.selection[..n] == batch.selection;
    } else {
      SelectedStep(batch.rows, batch.selection, n);
      var done := Selected(batch.rows[..n], batch.selection[..n]);
      AddRowsAppend(spec, groups, done, batch.rows[n]);
      assert done + [] == done;
      AddRowsStopped(spec, groups, batch, n + 1);
    }
  }
}
