/** Group tables as values: what consuming rows and merging worker states have to compute. */
module GroupTables {
  import opened Wrappers
  import opened Values
  import opened Expressions
  import opened Aggregates

  type Key = seq<ExecValue>
  type Groups = map<Key, seq<AggState>>

  datatype AggSpec = AggSpec(groupExprs: seq<Expr>, calls: seq<AggCall>) {
    predicate Valid() {
      forall i | 0 <= i < |calls| :: !calls[i].aggType.InvalidAgg?
    }

    /** GLOBAL mode. */
    predicate IsGlobal() {
      groupExprs == []
    }

    function MakeStates(): seq<AggState> {
      seq(|calls|, _ => EMPTY)
    }

    /** The table before any row: GLOBAL mode always has its one group. */
    function Start(): Groups {
      if IsGlobal() then map[[] := MakeStates()] else map[]
    }
  }

  /** EvalGroupKey; None is a thrown exception. */
  function KeyOf(exprs: seq<Expr>, row: Row): Option<Key> {
    if exprs == [] then Some([])
    else
      match (KeyOf(exprs[..|exprs| - 1], row), Eval(exprs[|exprs| - 1], row))
      case (Some(k), Ok(v)) => Some(k + [v])
      case _ => None
  }

  function UpdateAll(calls: seq<AggCall>, states: seq<AggState>, row: Row): Option<seq<AggState>>
    requires |states| == |calls|
  {
    if calls == [] then Some([])
    else
      var n := |calls| - 1;
      match (UpdateAll(calls[..n], states[..n], row), Update(calls[n], states[n], row))
      case (Some(done), Some(s)) => Some(done + [s])
      case _ => None
  }

  /** One row folded into the table: try_emplace, then every call. */
  function AddRow(spec: AggSpec, groups: Groups, row: Row): Option<Groups>
    requires Shaped(spec, groups)
  {
    match KeyOf(spec.groupExprs, row)
    case None => None
    case Some(key) =>
      var states := if key in groups then groups[key] else spec.MakeStates();
      match UpdateAll(spec.calls, states, row)
      case None => None
      case Some(updated) => Some(groups[key := updated])
  }

  predicate Shaped(spec: AggSpec, groups: Groups) {
    forall k | k in groups :: |groups[k]| == |spec.calls|
  }

  lemma {:induction false} UpdateAllLength(calls: seq<AggCall>, states: seq<AggState>, row: Row)
    requires |states| == |calls|
    ensures UpdateAll(calls, states, row).Some? ==> |UpdateAll(calls, states, row).value| == |calls|
  {
    if calls != [] {
      UpdateAllLength(calls[..|calls| - 1], states[..|calls| - 1], row);
    }
  }

  lemma {:induction false} UpdateAllAt(calls: seq<AggCall>, states: seq<AggState>, row: Row)
    requires |states| == |calls|
    ensures UpdateAll(calls, states, row).Some? <==>
            forall i | 0 <= i < |calls| :: Update(calls[i], states[i], row).Some?
    ensures UpdateAll(calls, states, row).Some? ==>
              |UpdateAll(calls, states, row).value| == |calls| &&
              forall i | 0 <= i < |calls| ::
                Update(calls[i], states[i], row) == Some(UpdateAll(calls, states, row).value[i])
  {
    if calls != [] {
      var n := |calls| - 1;
      UpdateAllAt(calls[..n], states[..n], row);
      assert forall i | 0 <= i < n :: calls[..n][i] == calls[i] && states[..n][i] == states[i];
    }
  }

  // ---------- Merging ----------

  /** CombineAggregate where it cannot throw. */
  function Join(t: AggType, a: AggState, b: AggState): AggState {
    match Combine(t, a, b)
    case Some(s) => s
    case None => a
  }

  function JoinAll(calls: seq<AggCall>, a: seq<AggState>, b: seq<AggState>): (r: seq<AggState>)
    requires |a| == |b| == |calls|
    ensures |r| == |calls|
    ensures forall i | 0 <= i < |r| :: r[i] == Join(calls[i].aggType, a[i], b[i])
  {
    seq(|calls|, i requires 0 <= i < |calls| => Join(calls[i].aggType, a[i], b[i]))
  }

  /** Merge of two tables: groups on one side only are taken over as they are. */
  function MergeGroups(spec: AggSpec, g: Groups, h: Groups): (r: Groups)
    requires Shaped(spec, g) && Shaped(spec, h)
    ensures Shaped(spec, r) && r.Keys == g.Keys + h.Keys
  {
    map k | k in g.Keys + h.Keys ::
      if k in g && k in h then JoinAll(spec.calls, g[k], h[k])
      else if k in g then g[k]
      else h[k]
  }

  /** The states that consuming rows of this schema can lead to. */
  predicate CanonicalStates(spec: AggSpec, schema: seq<DataType>, states: seq<AggState>) {
    |states| == |spec.calls| &&
    forall i | 0 <= i < |states| :: Canonical(spec.calls[i].aggType, KindOfCall(spec.calls[i], schema), states[i])
  }

  predicate CanonicalGroups(spec: AggSpec, schema: seq<DataType>, g: Groups) {
    forall k | k in g :: CanonicalStates(spec, schema, g[k])
  }

  lemma MergeKeepsCanonical(spec: AggSpec, schema: seq<DataType>, g: Groups, h: Groups)
    requires CanonicalGroups(spec, schema, g) && CanonicalGroups(spec, schema, h)
    ensures CanonicalGroups(spec, schema, MergeGroups(spec, g, h))
  {
    forall k | k in g && k in h ensures CanonicalStates(spec, schema, JoinAll(spec.calls, g[k], h[k])) {
      forall i | 0 <= i < |spec.calls|
        ensures Canonical(spec.calls[i].aggType, KindOfCall(spec.calls[i], schema),
                          Join(spec.calls[i].aggType, g[k][i], h[k][i]))
      {
        CombineLaws(spec.calls[i].aggType, KindOfCall(spec.calls[i], schema), g[k][i], h[k][i]);
      }
    }
  }

  lemma MergeCommutes(spec: AggSpec, schema: seq<DataType>, g: Groups, h: Groups)
    requires CanonicalGroups(spec, schema, g) && CanonicalGroups(spec, schema, h)
    ensures MergeGroups(spec, g, h) == MergeGroups(spec, h, g)
  {
    forall k | k in g && k in h ensures JoinAll(spec.calls, g[k], h[k]) == JoinAll(spec.calls, h[k], g[k]) {
      forall i | 0 <= i < |spec.calls|
        ensures Join(spec.calls[i].aggType, g[k][i], h[k][i]) == Join(spec.calls[i].aggType, h[k][i], g[k][i])
      {
        CombineLaws(spec.calls[i].aggType, KindOfCall(spec.calls[i], schema), g[k][i], h[k][i]);
      }
    }
  }

  lemma JoinAllAssociates(spec: AggSpec, schema: seq<DataType>,
                          a: seq<AggState>, b: seq<AggState>, c: seq<AggState>)
    requires CanonicalStates(spec, schema, a) && CanonicalStates(spec, schema, b) && CanonicalStates(spec, schema, c)
    ensures JoinAll(spec.calls, JoinAll(spec.calls, a, b), c) == JoinAll(spec.calls, a, JoinAll(spec.calls, b, c))
  {
    forall i | 0 <= i < |spec.calls|
      ensures var t := spec.calls[i].aggType;
              Join(t, Join(t, a[i], b[i]), c[i]) == Join(t, a[i], Join(t, b[i], c[i]))
    {
      CombineAssociative(spec.calls[i].aggType, KindOfCall(spec.calls[i], schema), a[i], b[i], c[i]);
    }
  }

  lemma MergeAssociatesAt(spec: AggSpec, schema: seq<DataType>, f: Groups, g: Groups, h: Groups, k: Key)
    requires CanonicalGroups(spec, schema, f) && CanonicalGroups(spec, schema, g) && CanonicalGroups(spec, schema, h)
    requires k in f.Keys + g.Keys + h.Keys
    ensures MergeGroups(spec, MergeGroups(spec, f, g), h)[k] == MergeGroups(spec, f, MergeGroups(spec, g, h))[k]
  {
    if k in f && k in g && k in h {
      JoinAllAssociates(spec, schema, f[k], g[k], h[k]);
    }
  }

  lemma SameGroups(g: Groups, h: Groups)
    requires g.Keys == h.Keys && forall k | k in g.Keys :: g[k] == h[k]
    ensures g == h
  {
  }

  lemma MergeAssociates(spec: AggSpec, schema: seq<DataType>, f: Groups, g: Groups, h: Groups)
    requires CanonicalGroups(spec, schema, f) && CanonicalGroups(spec, schema, g) && CanonicalGroups(spec, schema, h)
    ensures MergeGroups(spec, MergeGroups(spec, f, g), h) == MergeGroups(spec, f, MergeGroups(spec, g, h))
  {
    var l, r := MergeGroups(spec, MergeGroups(spec, f, g), h), MergeGroups(spec, f, MergeGroups(spec, g, h));
    assert l.Keys == r.Keys == f.Keys + g.Keys + h.Keys;
    forall k | k in l.Keys ensures l[k] == r[k] {
      MergeAssociatesAt(spec, schema, f, g, h, k);
    }
    SameGroups(l, r);
  }

  lemma FreshIsCanonical(t: AggType, kind: Kind)
    ensures Canonical(t, kind, EMPTY) <==> !t.InvalidAgg?
  {
  }

  lemma MakeStatesCanonical(spec: AggSpec, schema: seq<DataType>)
    requires spec.Valid()
    ensures CanonicalStates(spec, schema, spec.MakeStates())
  {
    var initial := spec.MakeStates();
    forall i | 0 <= i < |initial|
      ensures Canonical(spec.calls[i].aggType, KindOfCall(spec.calls[i], schema), initial[i])
    {
      FreshIsCanonical(spec.calls[i].aggType, KindOfCall(spec.calls[i], schema));
    }
  }

  lemma FreshIsUnit(t: AggType, kind: Kind, a: AggState)
    requires Canonical(t, kind, a)
    ensures Join(t, EMPTY, a) == a
  {
    FreshIsCanonical(t, kind);
    CombineLaws(t, kind, EMPTY, a);
  }

  /** Fresh states are a unit, which is why emplacing them before combining is harmless. */
  lemma MakeStatesIsUnit(spec: AggSpec, schema: seq<DataType>, states: seq<AggState>)
    requires CanonicalStates(spec, schema, states)
    ensures JoinAll(spec.calls, spec.MakeStates(), states) == states
  {
    var joined := JoinAll(spec.calls, spec.MakeStates(), states);
    forall i | 0 <= i < |joined| ensures joined[i] == states[i] {
      FreshIsUnit(spec.calls[i].aggType, KindOfCall(spec.calls[i], schema), states[i]);
    }
  }

  lemma MergeSingleton(spec: AggSpec, g: Groups, k: Key, own: seq<AggState>)
    requires Shaped(spec, g) && |own| == |spec.calls|
    ensures MergeGroups(spec, g, map[k := own]) == g[k := if k in g then JoinAll(spec.calls, g[k], own) else own]
  {
  }

  // ---------- Tables of row lists ----------

  /** What one row alone amounts to. */
  function RowTable(spec: AggSpec, row: Row): (r: Option<Groups>)
    ensures r.Some? ==> Shaped(spec, r.value)
  {
    match KeyOf(spec.groupExprs, row)
    case None => None
    case Some(key) =>
      UpdateAllLength(spec.calls, spec.MakeStates(), row);
      match UpdateAll(spec.calls, spec.MakeStates(), row)
      case None => None
      case Some(own) => Some(map[key := own])
  }

  function MergeOption(spec: AggSpec, g: Option<Groups>, h: Option<Groups>): (r: Option<Groups>)
    requires g.Some? ==> Shaped(spec, g.value)
    requires h.Some? ==> Shaped(spec, h.value)
    ensures r.Some? ==> Shaped(spec, r.value)
  {
    if g.Some? && h.Some? then Some(MergeGroups(spec, g.value, h.value)) else None
  }

  /** The table of a list of rows; None when some row of it throws. */
  function TableOf(spec: AggSpec, rows: seq<Row>): (r: Option<Groups>)
    ensures r.Some? ==> Shaped(spec, r.value)
  {
    if rows == [] then Some(map[])
    else MergeOption(spec, TableOf(spec, rows[..|rows| - 1]), RowTable(spec, rows[|rows| - 1]))
  }

  predicate CanonicalOption(spec: AggSpec, schema: seq<DataType>, g: Option<Groups>) {
    g.Some? ==> CanonicalGroups(spec, schema, g.value)
  }

  /** Updating the states of a group with a row is joining the row's own states. */
  lemma UpdateAllIsJoin(spec: AggSpec, schema: seq<DataType>, states: seq<AggState>, row: Row)
    requires spec.Valid() && TypedRow(row, schema) && CanonicalStates(spec, schema, states)
    ensures match UpdateAll(spec.calls, spec.MakeStates(), row)
            case None => UpdateAll(spec.calls, states, row) == None
            case Some(own) => CanonicalStates(spec, schema, own)
                              && UpdateAll(spec.calls, states, row) == Some(JoinAll(spec.calls, states, own))
  {
    UpdateAllAt(spec.calls, states, row);
    UpdateAllAt(spec.calls, spec.MakeStates(), row);
    forall i | 0 <= i < |spec.calls|
      ensures match Update(spec.calls[i], EMPTY, row)
              case None => Update(spec.calls[i], states[i], row) == None
              case Some(own) => Canonical(spec.calls[i].aggType, KindOfCall(spec.calls[i], schema), own)
                                && Update(spec.calls[i], states[i], row)
                                   == Some(Join(spec.calls[i].aggType, states[i], own))
    {
      UpdateIsCombine(spec.calls[i], schema, states[i], row);
      if Update(spec.calls[i], EMPTY, row).Some? {
        CombineLaws(spec.calls[i].aggType, KindOfCall(spec.calls[i], schema), states[i],
                    Update(spec.calls[i], EMPTY, row).value);
      }
    }
    if UpdateAll(spec.calls, spec.MakeStates(), row).Some? {
      var own := UpdateAll(spec.calls, spec.MakeStates(), row).value;
      forall i | 0 <= i < |spec.calls| ensures Update(spec.calls[i], EMPTY, row) == Some(own[i]) {
        assert spec.MakeStates()[i] == EMPTY;
      }
      assert UpdateAll(spec.calls, states, row).Some?;
      assert UpdateAll(spec.calls, states, row).value == JoinAll(spec.calls, states, own);
    } else {
      var i :| 0 <= i < |spec.calls| && Update(spec.calls[i], spec.MakeStates()[i], row).None?;
      assert Update(spec.calls[i], states[i], row).None?;
    }
  }

  lemma RowTableCanonical(spec: AggSpec, schema: seq<DataType>, row: Row)
    requires spec.Valid() && TypedRow(row, schema)
    ensures CanonicalOption(spec, schema, RowTable(spec, row))
  {
    MakeStatesCanonical(spec, schema);
    UpdateAllIsJoin(spec, schema, spec.MakeStates(), row);
  }

  lemma {:induction false} TableOfCanonical(spec: AggSpec, schema: seq<DataType>, rows: seq<Row>)
    requires spec.Valid() && TypedRows(rows, schema)
    ensures CanonicalOption(spec, schema, TableOf(spec, rows))
  {
    if rows != [] {
      var init, last := rows[..|rows| - 1], rows[|rows| - 1];
      TableOfCanonical(spec, schema, init);
      RowTableCanonical(spec, schema, last);
      if TableOf(spec, rows).Some? {
        MergeKeepsCanonical(spec, schema, TableOf(spec, init).value, RowTable(spec, last).value);
      }
    }
  }

  /** Consuming a row is merging the row's own table: the serial path is a fold of merges. */
  lemma AddRowIsMerge(spec: AggSpec, schema: seq<DataType>, groups: Groups, row: Row)
    requires spec.Valid() && TypedRow(row, schema) && CanonicalGroups(spec, schema, groups)
    ensures AddRow(spec, groups, row) == MergeOption(spec, Some(groups), RowTable(spec, row))
  {
    var key := KeyOf(spec.groupExprs, row);
    if key.Some? {
      MakeStatesCanonical(spec, schema);
      var states := if key.value in groups then groups[key.value] else spec.MakeStates();
      UpdateAllIsJoin(spec, schema, states, row);
      if UpdateAll(spec.calls, spec.MakeStates(), row).Some? {
        var own := UpdateAll(spec.calls, spec.MakeStates(), row).value;
        if key.value !in groups {
          MakeStatesIsUnit(spec, schema, own);
        }
        MergeSingleton(spec, groups, key.value, own);
      }
    }
  }

  lemma {:induction false} TableOfConcat(spec: AggSpec, schema: seq<DataType>, a: seq<Row>, b: seq<Row>)
    requires spec.Valid() && TypedRows(a, schema) && TypedRows(b, schema)
    ensures TableOf(spec, a + b) == MergeOption(spec, TableOf(spec, a), TableOf(spec, b))
  {
    if b == [] {
      assert a + b == a;
      if TableOf(spec, a).Some? {
        assert MergeGroups(spec, TableOf(spec, a).value, map[]) == TableOf(spec, a).value;
      }
    } else {
      var init, last := b[..|b| - 1], b[|b| - 1];
      assert (a + b)[..|a + b| - 1] == a + init;
      TableOfConcat(spec, schema, a, init);
      TableOfCanonical(spec, schema, a);
      TableOfCanonical(spec, schema, init);
      RowTableCanonical(spec, schema, last);
      MergeOptionLaws(spec, schema, TableOf(spec, a), TableOf(spec, init), RowTable(spec, last));
    }
  }

  /** The laws of MergeOption, with a thrown exception as its zero. */
  lemma MergeOptionLaws(spec: AggSpec, schema: seq<DataType>, f: Option<Groups>, g: Option<Groups>, h: Option<Groups>)
    requires CanonicalOption(spec, schema, f) && CanonicalOption(spec, schema, g) && CanonicalOption(spec, schema, h)
    ensures CanonicalOption(spec, schema, MergeOption(spec, f, g))
    ensures MergeOption(spec, f, g) == MergeOption(spec, g, f)
    ensures MergeOption(spec, MergeOption(spec, f, g), h) == MergeOption(spec, f, MergeOption(spec, g, h))
    ensures MergeOption(spec, f, Some(map[])) == f
  {
    if f.Some? {
      assert MergeGroups(spec, f.value, map[]) == f.value;
      if g.Some? {
        MergeKeepsCanonical(spec, schema, f.value, g.value);
        MergeCommutes(spec, schema, f.value, g.value);
        if h.Some? {
          MergeAssociates(spec, schema, f.value, g.value, h.value);
        }
      }
    }
  }

  /** The serial path: rows folded into a table one by one. */
  function AddRows(spec: AggSpec, groups: Groups, rows: seq<Row>): (r: Option<Groups>)
    requires Shaped(spec, groups)
    ensures r.Some? ==> Shaped(spec, r.value) && groups.Keys <= r.value.Keys
  {
    if rows == [] then Some(groups)
    else
      match AddRows(spec, groups, rows[..|rows| - 1])
      case None => None
      case Some(g) => AddRowShape(spec, g, rows[|rows| - 1]); AddRow(spec, g, rows[|rows| - 1])
  }

  lemma AddRowShape(spec: AggSpec, groups: Groups, row: Row)
    requires Shaped(spec, groups)
    ensures AddRow(spec, groups, row).Some? ==>
              Shaped(spec, AddRow(spec, groups, row).value) && groups.Keys <= AddRow(spec, groups, row).value.Keys
  {
    var key := KeyOf(spec.groupExprs, row);
    if key.Some? {
      UpdateAllLength(spec.calls, if key.value in groups then groups[key.value] else spec.MakeStates(), row);
    }
  }

  /** Folding rows in one by one is one merge with the table of those rows. */
  lemma {:induction false} AddRowsIsMerge(spec: AggSpec, schema: seq<DataType>, groups: Groups, rows: seq<Row>)
    requires spec.Valid() && TypedRows(rows, schema) && CanonicalGroups(spec, schema, groups)
    ensures AddRows(spec, groups, rows) == MergeOption(spec, Some(groups), TableOf(spec, rows))
    ensures CanonicalOption(spec, schema, AddRows(spec, groups, rows))
  {
    TableOfCanonical(spec, schema, rows);
    if rows == [] {
      assert MergeGroups(spec, groups, map[]) == groups;
    } else {
      var init, last := rows[..|rows| - 1], rows[|rows| - 1];
      AddRowsIsMerge(spec, schema, groups, init);
      TableOfCanonical(spec, schema, init);
      RowTableCanonical(spec, schema, last);
      if AddRows(spec, groups, init).Some? {
        AddRowIsMerge(spec, schema, AddRows(spec, groups, init).value, last);
        if RowTable(spec, last).Some? {
          MergeAssociates(spec, schema, groups, TableOf(spec, init).value, RowTable(spec, last).value);
          MergeKeepsCanonical(spec, schema, groups, TableOf(spec, rows).value);
        }
      }
    }
  }
}
