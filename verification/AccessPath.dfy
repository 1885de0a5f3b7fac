/** src/planner/physical_plan/physical_planner.cpp: when an index lookup may stand in for a scan. */
module AccessPath {
  import opened Wrappers
  import opened Values
  import opened Rounding
  import opened ZoneMaps
  import opened StoragePredicates
  import opened StorageScan
  import opened KeyEncoding

  datatype KeySchema = KeySchema(id: nat, columns: seq<nat>)

  /** values[i] looks up the i-th key column and comes from predicate consumed[i]. */
  datatype KeyLookup = KeyLookup(values: seq<ExecValue>, consumed: seq<nat>)

  predicate LiteralUsableForKey(t: DataType, literal: ExecValue) {
    match t
    case Int32 => literal.I32?
    case Int64 => literal.I32?
    case Float => literal.I32? || literal.F64?
    case Double => literal.I32? || literal.F64?
    case Varchar => literal.Str?
    case Invalid => false
  }

  /**
   * What the planner lets through, the encoder can convert, with one exception: an integer literal on a FLOAT
   * key column, which the encoder throws on.
   */
  lemma UsableLiteralEncodesIff(t: DataType, literal: ExecValue)
    requires IsLiteral(literal)
    ensures LiteralUsableForKey(t, literal) && ConvertScalar(t, literal).None? <==> t.Float? && literal.I32?
    ensures ConvertScalar(t, literal).Some? ==> LiteralUsableForKey(t, literal)
  {
  }

  /** Predicate `i` pins the column down, and no other predicate does. */
  predicate OnlyEquality(predicates: seq<Condition>, column: nat, i: nat) {
    && i < |predicates| && predicates[i].column == column && predicates[i].op.EQ?
    && forall j | 0 <= j < |predicates| && j != i :: !(predicates[j].column == column && predicates[j].op.EQ?)
  }

  predicate KeyColumnMatched(schema: seq<ColumnSchema>, predicates: seq<Condition>, column: nat, i: nat) {
    && OnlyEquality(predicates, column, i)
    && HasColumn(schema, column)
    && LiteralUsableForKey(schema[ColumnIndex(schema, column)].dataType, predicates[i].value)
  }

  ghost predicate ColumnMatchable(schema: seq<ColumnSchema>, predicates: seq<Condition>, column: nat) {
    exists i :: KeyColumnMatched(schema, predicates, column, i)
  }

  /** Each key column is matched by the predicate the lookup names. */
  predicate IsLookup(schema: seq<ColumnSchema>, columns: seq<nat>, predicates: seq<Condition>, m: KeyLookup) {
    && |m.values| == |m.consumed| <= |columns|
    && forall k | 0 <= k < |m.consumed| ::
         KeyColumnMatched(schema, predicates, columns[k], m.consumed[k]) && m.values[k] == predicates[m.consumed[k]].value
  }

  /** The inner loop of MatchKeyLookup: the one equality on `column`, if there is exactly one. */
  method FindOnlyEquality(predicates: seq<Condition>, column: nat) returns (matched: Option<nat>)
    ensures matched.Some? ==> OnlyEquality(predicates, column, matched.value)
    ensures matched.None? ==> forall i :: !OnlyEquality(predicates, column, i)
  {
    matched := None;
    var i := 0;
    while i < |predicates|
      invariant 0 <= i <= |predicates|
      invariant matched.Some? ==> OnlyEquality(predicates[..i], column, matched.value)
      invariant matched.None? ==> forall j | 0 <= j < i :: !(predicates[j].column == column && predicates[j].op.EQ?)
    {
      if predicates[i].column == column && predicates[i].op.EQ? {
        if matched.Some? {
          var first := matched.value;
          assert predicates[first] == predicates[..i][first];
          return None;
        }
        matched := Some(i);
      }
      i := i + 1;
    }
    assert predicates[..i] == predicates;
  }

  /** MatchKeyLookup: a lookup exactly when every key column is matched. */
  method MatchKeyLookup(schema: seq<ColumnSchema>, columns: seq<nat>, predicates: seq<Condition>)
    returns (r: Option<KeyLookup>)
    ensures r.Some? ==> IsLookup(schema, columns, predicates, r.value) && |r.value.values| == |columns|
    ensures r.None? ==> exists k | 0 <= k < |columns| :: !ColumnMatchable(schema, predicates, columns[k])
  {
    var m := KeyLookup([], []);
    while |m.values| < |columns|
      invariant |m.values| <= |columns| && IsLookup(schema, columns, predicates, m)
    {
      var column := columns[|m.values|];
      var matched := FindOnlyEquality(predicates, column);
      if matched.None? {
        return None;
      }
      if !HasColumn(schema, column)
         || !LiteralUsableForKey(schema[ColumnIndex(schema, column)].dataType, predicates[matched.value].value) {
        assert forall i :: OnlyEquality(predicates, column, i) ==> i == matched.value;
        return None;
      }
      m := KeyLookup(m.values + [predicates[matched.value].value], m.consumed + [matched.value]);
    }
    r := Some(m);
  }

  /** The predicates the lookup does not consume, in order. */
  function Residual(predicates: seq<Condition>, consumed: seq<nat>): (r: seq<Condition>)
  {
    if predicates == [] then []
    else
      var n := |predicates| - 1;
      Residual(predicates[..n], consumed) + (if n in consumed then [] else [predicates[n]])
  }

  method BuildResidual(predicates: seq<Condition>, consumed: seq<nat>) returns (residual: seq<Condition>)
    ensures residual == Residual(predicates, consumed)
  {
    residual := [];
    var i := 0;
    while i < |predicates|
      invariant 0 <= i <= |predicates| && residual == Residual(predicates[..i], consumed)
    {
      assert predicates[..i + 1][..i] == predicates[..i];
      if i !in consumed {
        residual := residual + [predicates[i]];
      }
      i := i + 1;
    }
    assert predicates[..i] == predicates;
  }

  datatype Path = IndexScan(keyId: nat, lookup: KeyLookup, residual: seq<Condition>) | SeqScan

  /** Every key column is pinned down by exactly one usable equality. */
  ghost predicate Matchable(schema: seq<ColumnSchema>, key: KeySchema, predicates: seq<Condition>) {
    forall k | 0 <= k < |key.columns| :: ColumnMatchable(schema, predicates, key.columns[k])
  }

  /** The key a lookup uses: the primary key if it matches, else the first secondary key that does. */
  ghost predicate Chosen(schema: seq<ColumnSchema>, primary: Option<KeySchema>, secondary: seq<KeySchema>,
                         predicates: seq<Condition>, key: KeySchema)
  {
    && Matchable(schema, key, predicates)
    && if primary.Some? && Matchable(schema, primary.value, predicates) then key == primary.value
       else exists k: nat :: FirstMatch(schema, secondary, predicates, k) && key == secondary[k]
  }

  ghost predicate FirstMatch(schema: seq<ColumnSchema>, secondary: seq<KeySchema>, predicates: seq<Condition>, k: nat) {
    && k < |secondary| && Matchable(schema, secondary[k], predicates)
    && forall j | 0 <= j < k :: !Matchable(schema, secondary[j], predicates)
  }

  lemma LookupMatches(schema: seq<ColumnSchema>, key: KeySchema, predicates: seq<Condition>, m: KeyLookup)
    requires IsLookup(schema, key.columns, predicates, m) && |m.values| == |key.columns|
    ensures Matchable(schema, key, predicates)
  {
    forall k | 0 <= k < |key.columns|
      ensures ColumnMatchable(schema, predicates, key.columns[k])
    {
      assert KeyColumnMatched(schema, predicates, key.columns[k], m.consumed[k]);
    }
  }

  /** PlanScan: a lookup by the chosen key if there is one, and a scan exactly when no key matches. */
  method PlanScan(schema: seq<ColumnSchema>, primary: Option<KeySchema>, secondary: seq<KeySchema>,
                  predicates: seq<Condition>)
    returns (path: Path, ghost key: Option<KeySchema>)
    ensures path.SeqScan? <==>
              && (primary.Some? ==> !Matchable(schema, primary.value, predicates))
              && forall k | 0 <= k < |secondary| :: !Matchable(schema, secondary[k], predicates)
    ensures path.IndexScan? ==>
              && key.Some? && path.keyId == key.value.id && Chosen(schema, primary, secondary, predicates, key.value)
              && IsLookup(schema, key.value.columns, predicates, path.lookup)
              && |path.lookup.values| == |key.value.columns|
              && path.residual == Residual(predicates, path.lookup.consumed)
  {
    key := None;
    if primary.Some? {
      var m := MatchKeyLookup(schema, primary.value.columns, predicates);
      if m.Some? {
        LookupMatches(schema, primary.value, predicates, m.value);
        var residual := BuildResidual(predicates, m.value.consumed);
        return IndexScan(primary.value.id, m.value, residual), primary;
      }
    }
    var k := 0;
    while k < |secondary|
      invariant 0 <= k <= |secondary|
      invariant forall j | 0 <= j < k :: !Matchable(schema, secondary[j], predicates)
    {
      var m := MatchKeyLookup(schema, secondary[k].columns, predicates);
      if m.Some? {
        LookupMatches(schema, secondary[k], predicates, m.value);
        assert FirstMatch(schema, secondary, predicates, k);
        var residual := BuildResidual(predicates, m.value.consumed);
        return IndexScan(secondary[k].id, m.value, residual), Some(secondary[k]);
      }
      k := k + 1;
    }
    path := SeqScan;
  }

  // ---------- The lookup and the residual together are the predicates ----------

  lemma {:induction false} MeetsResidual(schema: seq<ColumnSchema>, row: Row, predicates: seq<Condition>,
                                         consumed: seq<nat>)
    requires RowOf(schema, row)
    ensures MeetsAll(schema, row, Residual(predicates, consumed))
            <==> forall i | 0 <= i < |predicates| && i !in consumed :: Meets(schema, row, predicates[i])
  {
    if predicates != [] {
      var n := |predicates| - 1;
      var init := Residual(predicates[..n], consumed);
      MeetsResidual(schema, row, predicates[..n], consumed);
      assert forall i | 0 <= i < n :: predicates[..n][i] == predicates[i];
      if n !in consumed {
        assert forall i | 0 <= i < |init| :: (init + [predicates[n]])[i] == init[i];
        assert (init + [predicates[n]])[|init|] == predicates[n];
      }
    }
  }

  lemma ConsumedEquality(schema: seq<ColumnSchema>, columns: seq<nat>, predicates: seq<Condition>, m: KeyLookup,
                         row: Row, k: nat)
    requires RowOf(schema, row) && IsLookup(schema, columns, predicates, m) && k < |m.values|
    ensures HasColumn(schema, columns[k]) && m.consumed[k] < |predicates|
    ensures Meets(schema, row, predicates[m.consumed[k]])
            <==> SameNumber(m.values[k], row[ColumnIndex(schema, columns[k])])
  {
    assert KeyColumnMatched(schema, predicates, columns[k], m.consumed[k]);
  }

  lemma MeetsSplit(schema: seq<ColumnSchema>, row: Row, predicates: seq<Condition>, consumed: seq<nat>)
    requires RowOf(schema, row) && forall k | 0 <= k < |consumed| :: consumed[k] < |predicates|
    ensures MeetsAll(schema, row, predicates)
            <==> (forall k | 0 <= k < |consumed| :: Meets(schema, row, predicates[consumed[k]]))
                 && MeetsAll(schema, row, Residual(predicates, consumed))
  {
    MeetsResidual(schema, row, predicates, consumed);
    if forall k | 0 <= k < |consumed| :: Meets(schema, row, predicates[consumed[k]]) {
      forall i | 0 <= i < |predicates| && i in consumed ensures Meets(schema, row, predicates[i]) {
        var k :| 0 <= k < |consumed| && consumed[k] == i;
      }
    }
  }

  predicate KeptByKeys(types: seq<DataType>, literals: seq<ExecValue>) {
    |literals| <= |types| && forall k | 0 <= k < |literals| :: KeptByKey(types[k], literals[k])
  }

  /** A looked-up literal on its column: the predicate it comes from, as the key compares it. */
  lemma ConsumedIsKeyMatch(schema: seq<ColumnSchema>, columns: seq<nat>, predicates: seq<Condition>, m: KeyLookup,
                           row: Row, k: nat)
    requires RowOf(schema, row) && IsLookup(schema, columns, predicates, m) && k < |m.values| == |columns|
    requires KeyColumns(schema, columns) && KeptByKeys(KeyTypes(schema, columns), m.values)
    ensures m.consumed[k] < |predicates| && m.values[k] == predicates[m.consumed[k]].value
    ensures Meets(schema, row, predicates[m.consumed[k]])
            <==> KeyMatches(KeyTypes(schema, columns)[k], m.values[k], KeyValues(schema, columns, row)[k])
  {
    var t, cell := KeyTypes(schema, columns)[k], KeyValues(schema, columns, row)[k];
    ConsumedEquality(schema, columns, predicates, m, row, k);
    assert HasType(row[ColumnIndex(schema, columns[k])], t);
    assert KeyColumnMatched(schema, predicates, columns[k], m.consumed[k]);
    assert KeptByKey(t, m.values[k]);
    MatchIsEquality(t, m.values[k], cell);
  }

  lemma MatchIsEquality(t: DataType, literal: ExecValue, cell: ExecValue)
    requires LiteralUsableForKey(t, literal) && KeptByKey(t, literal) && HasType(cell, t)
    ensures KeyMatches(t, literal, cell) <==> SameNumber(literal, cell)
  {
  }

  /** A row meets the predicates exactly when it has the looked-up key and meets the residual. */
  lemma LookupAndResidual(schema: seq<ColumnSchema>, columns: seq<nat>, predicates: seq<Condition>, m: KeyLookup,
                          converted: seq<ExecValue>, row: Row)
    requires RowOf(schema, row) && IsLookup(schema, columns, predicates, m) && |m.values| == |columns|
    requires KeyColumns(schema, columns) && KeyCells(KeyValues(schema, columns, row))
    requires forall i | 0 <= i < |predicates| :: IsLiteral(predicates[i].value)
    requires KeptByKeys(KeyTypes(schema, columns), m.values)
    requires |converted| == |columns| && ConvertsTo(KeyTypes(schema, columns), m.values, converted)
    ensures KeyCells(converted)
    ensures MeetsAll(schema, row, predicates)
            <==> EncodeTuple(KeyValues(schema, columns, row)) == EncodeTuple(converted)
                 && MeetsAll(schema, row, Residual(predicates, m.consumed))
  {
    var types, cells := KeyTypes(schema, columns), KeyValues(schema, columns, row);
    forall k | 0 <= k < |columns|
      ensures IsLiteral(m.values[k]) && m.consumed[k] < |predicates|
      ensures Meets(schema, row, predicates[m.consumed[k]]) <==> KeyMatches(types[k], m.values[k], cells[k])
    {
      ConsumedIsKeyMatch(schema, columns, predicates, m, row, k);
    }
    LookupKeyIff(schema, columns, m.values, converted, row);
    MeetsSplit(schema, row, predicates, m.consumed);
    assert (forall k | 0 <= k < |columns| :: KeyMatches(types[k], m.values[k], cells[k]))
           <==> forall k | 0 <= k < |columns| :: Meets(schema, row, predicates[m.consumed[k]]);
  }
}
