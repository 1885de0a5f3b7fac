/** From the chosen access path to the rows: index lookup with residual, or table scan, over one reachable store. */
module QueryPaths {
  import opened Wrappers
  import opened Values
  import opened Sequences
  import opened Rounding
  import opened ZoneMaps
  import opened StoragePredicates
  import opened StorageScan
  import opened TableScan
  import opened KeyEncoding
  import opened KeyIndexes
  import opened TableState
  import opened TableRuns
  import opened TableProofs
  import opened TableDurability
  import opened AccessPath
  import opened IndexScanOperator
  import opened IndexEqualsScan

  // ---------- the store as a table of segments ----------

  function StatsFor(schema: seq<ColumnSchema>, rows: seq<Row>): (stats: seq<Stats>)
    requires StorageScan.RowsOf(schema, rows)
    ensures |stats| == |schema|
    ensures forall k | 0 <= k < |schema| :: stats[k] == StatsOf(schema[k].dataType, ColumnOf(schema, rows, k))
  {
    seq(|schema|, k requires 0 <= k < |schema| => StatsOf(schema[k].dataType, ColumnOf(schema, rows, k)))
  }

  predicate FilesTyped(schema: seq<ColumnSchema>, s: Store) {
    forall g | g in s.files :: StorageScan.RowsOf(schema, s.files[g])
  }

  /** The listed segments, each with the statistics its builder left: those of its rows. */
  function TableOf(schema: seq<ColumnSchema>, s: Store): (t: Table)
    requires FilesTyped(schema, s) && forall g | g in s.metaIds :: g in s.files
    ensures t.schema == schema && |t.segments| == |s.metaIds|
    ensures forall i | 0 <= i < |s.metaIds| ::
              t.segments[i].rows == s.files[s.metaIds[i]] && SegmentOf(schema, t.segments[i])
  {
    Table(schema, seq(|s.metaIds|, i requires 0 <= i < |s.metaIds| =>
                        Segment(StatsFor(schema, s.files[s.metaIds[i]]), s.files[s.metaIds[i]])))
  }

  lemma {:induction false} TableHoldsStore(schema: seq<ColumnSchema>, s: Store, i: nat)
    requires FilesTyped(schema, s) && (forall g | g in s.metaIds :: g in s.files) && i <= |s.metaIds|
    ensures StoredRows(s.files, s.metaIds[..i]) + AllRows(TableOf(schema, s).segments, i)
            == AllRows(TableOf(schema, s).segments, 0)
  {
    if i > 0 {
      TableHoldsStore(schema, s, i - 1);
      assert s.metaIds[..i][..i - 1] == s.metaIds[..i - 1];
      AppendAssociates(StoredRows(s.files, s.metaIds[..i - 1]), s.files[s.metaIds[i - 1]],
                       AllRows(TableOf(schema, s).segments, i));
    }
  }

  /** Reading the segments one after the other reads the store. */
  lemma TableIsStore(schema: seq<ColumnSchema>, s: Store)
    requires FilesTyped(schema, s) && forall g | g in s.metaIds :: g in s.files
    ensures AllRows(TableOf(schema, s).segments, 0) == StoredRows(s.files, s.metaIds)
  {
    TableHoldsStore(schema, s, |s.metaIds|);
    assert s.metaIds[..|s.metaIds|] == s.metaIds;
    assert StoredRows(s.files, s.metaIds) + [] == StoredRows(s.files, s.metaIds);
  }

  // ---------- running the path ----------

  /** The declared keys are the ones the store indexes, with distinct ids. */
  ghost predicate KeysMatch(schema: seq<ColumnSchema>, keys: Keys, primary: Option<KeySchema>, secondary: seq<KeySchema>) {
    && primary.Some? == keys.primary.Some? && |secondary| == |keys.secondary|
    && (primary.Some? ==> EncodesKey(schema, primary.value.columns, keys.primary.value))
    && (forall i | 0 <= i < |secondary| :: EncodesKey(schema, secondary[i].columns, keys.secondary[i]))
    && (forall i, j | 0 <= i < j < |secondary| :: secondary[i].id != secondary[j].id)
    && (primary.Some? ==> forall i | 0 <= i < |secondary| :: secondary[i].id != primary.value.id)
  }

  /** A condition the optimizer may push, on a column that can hold its literal. */
  predicate Asks(schema: seq<ColumnSchema>, c: Condition) {
    IsLiteral(c.value) && !c.value.Str? && BindsExactly(schema, c)
  }

  predicate AskAll(schema: seq<ColumnSchema>, conditions: seq<Condition>) {
    forall i | 0 <= i < |conditions| :: Asks(schema, conditions[i])
  }

  /** The conditions are exact on the store: see StorageScan.Trusted. */
  ghost predicate Answerable(schema: seq<ColumnSchema>, s: Store, options: ScanOptions) {
    && FilesTyped(schema, s) && FilesHold(schema, s.files) && (forall g | g in s.metaIds :: g in s.files)
    && Stored(TableOf(schema, s), options) && AskAll(schema, options.conditions)
  }

  /** An integer asked of a FLOAT column: the planner takes it for a lookup and the encoder throws on it. */
  predicate IntegerOnFloat(schema: seq<ColumnSchema>, c: Condition) {
    && c.op.EQ? && c.value.I32? && HasColumn(schema, c.column)
    && schema[ColumnIndex(schema, c.column)].dataType.Float?
  }

  lemma LookupLiteral(schema: seq<ColumnSchema>, columns: seq<nat>, predicates: seq<Condition>, m: KeyLookup, k: nat)
    requires IsLookup(schema, columns, predicates, m) && |m.values| == |columns| && k < |columns|
    requires KeyColumns(schema, columns) && AskAll(schema, predicates)
    ensures IsLiteral(m.values[k]) && m.consumed[k] < |predicates|
    ensures KeptByKey(KeyTypes(schema, columns)[k], m.values[k])
    ensures ConvertScalar(KeyTypes(schema, columns)[k], m.values[k]).None?
            ==> IntegerOnFloat(schema, predicates[m.consumed[k]])
  {
    assert KeyColumnMatched(schema, predicates, columns[k], m.consumed[k]);
    assert Asks(schema, predicates[m.consumed[k]]);
    UsableLiteralEncodesIff(KeyTypes(schema, columns)[k], m.values[k]);
    if m.values[k].I32? {
      ToDoubleExact(m.values[k].i);
    }
  }

  lemma {:induction false} ResidualFrom(predicates: seq<Condition>, consumed: seq<nat>)
    ensures forall i | 0 <= i < |Residual(predicates, consumed)| :: Residual(predicates, consumed)[i] in predicates
  {
    if predicates != [] {
      ResidualFrom(predicates[..|predicates| - 1], consumed);
    }
  }

  /** The index on disk order does not matter: the buckets of the key a lookup names. */
  ghost predicate PathIsScan(schema: seq<ColumnSchema>, s: Store, options: ScanOptions, residual: seq<Condition>,
                             ls: seq<RowLocation>)
    requires FilesTyped(schema, s) && KnownColumns(schema, options.columns)
  {
    && Fetchable(s.files, ls) && StorageScan.RowsOf(schema, RowsAt(s.files, ls))
    && StorageScan.RowsOf(schema, StoredRows(s.files, s.metaIds))
    && multiset(Kept(schema, ScanOptions(options.columns, residual), RowsAt(s.files, ls)))
       == multiset(Kept(schema, options, StoredRows(s.files, s.metaIds)))
  }

  /** The literals encoded by the key's columns; None where the encoder throws. */
  method EncodeLookup(schema: seq<ColumnSchema>, columns: seq<nat>, predicates: seq<Condition>, m: KeyLookup)
    returns (key: Option<EncodedKey>, ghost converted: seq<ExecValue>)
    requires IsLookup(schema, columns, predicates, m) && |m.values| == |columns|
    requires KeyColumns(schema, columns) && AskAll(schema, predicates)
    ensures key.None? ==> exists i :: 0 <= i < |predicates| && IntegerOnFloat(schema, predicates[i])
    ensures key.Some? ==> IsIndexPath(schema, columns, predicates, m, converted) && key.value == EncodeTuple(converted)
  {
    var types := KeyTypes(schema, columns);
    forall k | 0 <= k < |columns| ensures IsLiteral(m.values[k]) && KeptByKey(types[k], m.values[k]) {
      LookupLiteral(schema, columns, predicates, m, k);
    }
    key, converted := EncodeValues(types, m.values);
    if key.None? {
      ghost var k :| 0 <= k < |types| && ConvertScalar(types[k], m.values[k]).None?;
      LookupLiteral(schema, columns, predicates, m, k);
    }
    assert forall i | 0 <= i < |predicates| :: Asks(schema, predicates[i]) ==> IsLiteral(predicates[i].value);
  }

  /** The key a path names, by its id. */
  function KeyWithId(primary: Option<KeySchema>, secondary: seq<KeySchema>, id: nat): KeySchema
    decreases secondary
  {
    if primary.Some? && primary.value.id == id then primary.value
    else if secondary == [] then KeySchema(id, [])
    else if secondary[0].id == id then secondary[0]
    else KeyWithId(None, secondary[1..], id)
  }

  lemma {:induction false} KeyWithItsId(primary: Option<KeySchema>, secondary: seq<KeySchema>, key: KeySchema)
    requires forall i, j | 0 <= i < j < |secondary| :: secondary[i].id != secondary[j].id
    requires primary.Some? ==> forall i | 0 <= i < |secondary| :: secondary[i].id != primary.value.id
    requires primary == Some(key) || key in secondary
    ensures KeyWithId(primary, secondary, key.id) == key
    decreases secondary
  {
    if primary != Some(key) && secondary[0] != key {
      assert key in secondary[1..];
      KeyWithItsId(None, secondary[1..], key);
    }
  }

  method FindKey(secondary: seq<KeySchema>, chosen: KeySchema) returns (i: nat)
    requires chosen in secondary
    requires forall j, k | 0 <= j < k < |secondary| :: secondary[j].id != secondary[k].id
    ensures i < |secondary| && secondary[i] == chosen
  {
    ghost var which :| 0 <= which < |secondary| && secondary[which] == chosen;
    i := 0;
    while secondary[i].id != chosen.id
      invariant 0 <= i <= which
      decreases which - i
    {
      i := i + 1;
    }
  }

  /** The lookup matches the key it names. */
  predicate MatchesKey(schema: seq<ColumnSchema>, key: KeySchema, predicates: seq<Condition>, m: KeyLookup) {
    && IsLookup(schema, key.columns, predicates, m) && |m.values| == |key.columns|
    && AskAll(schema, predicates)
  }

  /** What a lookup delivers: the locations, or an exception for an integer on a FLOAT column. */
  ghost predicate Delivers(schema: seq<ColumnSchema>, s: Store, options: ScanOptions, m: KeyLookup,
                           ls: Option<seq<RowLocation>>)
    requires FilesTyped(schema, s) && KnownColumns(schema, options.columns)
  {
    match ls
    case Some(found) => PathIsScan(schema, s, options, Residual(options.conditions, m.consumed), found)
    case None => exists i :: 0 <= i < |options.conditions| && IntegerOnFloat(schema, options.conditions[i])
  }

  method PrimaryLookup(schema: seq<ColumnSchema>, key: KeySchema, s: Store, options: ScanOptions, m: KeyLookup,
                       ghost keys: Keys, ghost ops: seq<Op>)
    returns (ls: Option<seq<RowLocation>>)
    requires Reachable(keys, s, ops) && s.pending == [] && keys.primary.Some? && s.primary.Some?
    requires FilesTyped(schema, s) && FilesHold(schema, s.files) && KnownColumns(schema, options.columns)
    requires EncodesKey(schema, key.columns, keys.primary.value) && MatchesKey(schema, key, options.conditions, m)
    ensures Delivers(schema, s, options, m, ls)
  {
    var encoded, converted := EncodeLookup(schema, key.columns, options.conditions, m);
    if encoded.None? {
      return None;
    }
    PrimaryPathIsScan(keys, s, ops, schema, key.columns, options, m, converted);
    ls := Some(LookupIn(AsBuckets(s.primary.value), encoded.value));
  }

  method SecondaryLookup(schema: seq<ColumnSchema>, key: KeySchema, s: Store, i: nat, options: ScanOptions,
                         m: KeyLookup, ghost keys: Keys, ghost ops: seq<Op>)
    returns (ls: Option<seq<RowLocation>>)
    requires Reachable(keys, s, ops) && s.pending == [] && i < |keys.secondary| == |s.secondary|
    requires FilesTyped(schema, s) && FilesHold(schema, s.files) && KnownColumns(schema, options.columns)
    requires EncodesKey(schema, key.columns, keys.secondary[i]) && MatchesKey(schema, key, options.conditions, m)
    ensures Delivers(schema, s, options, m, ls)
  {
    var encoded, converted := EncodeLookup(schema, key.columns, options.conditions, m);
    if encoded.None? {
      return None;
    }
    SecondaryPathIsScan(keys, s, ops, i, schema, key.columns, options, m, converted);
    ls := Some(LookupIn(s.secondary[i], encoded.value));
  }

  /** The index with the key's id: the locations it holds under the lookup's values. */
  method LookupPath(schema: seq<ColumnSchema>, primary: Option<KeySchema>, secondary: seq<KeySchema>, s: Store,
                    options: ScanOptions, m: KeyLookup, chosen: KeySchema, ghost keys: Keys, ghost ops: seq<Op>)
    returns (ls: Option<seq<RowLocation>>)
    requires Reachable(keys, s, ops) && s.pending == [] && KeysMatch(schema, keys, primary, secondary)
    requires s.primary.Some? == keys.primary.Some? && |s.secondary| == |keys.secondary|
    requires FilesTyped(schema, s) && FilesHold(schema, s.files) && KnownColumns(schema, options.columns)
    requires (primary == Some(chosen) || chosen in secondary) && MatchesKey(schema, chosen, options.conditions, m)
    ensures Delivers(schema, s, options, m, ls)
  {
    if primary == Some(chosen) {
      ls := PrimaryLookup(schema, chosen, s, options, m, keys, ops);
    } else {
      var i := FindKey(secondary, chosen);
      ls := SecondaryLookup(schema, chosen, s, i, options, m, keys, ops);
    }
  }

  /**
   * Access path and execution together, on every reachable store with nothing pending: whichever path is chosen, the
   * rows delivered are, up to order, the stored rows that meet every condition.
   */
  method Answer(schema: seq<ColumnSchema>, primary: Option<KeySchema>, secondary: seq<KeySchema>, s: Store,
                options: ScanOptions, ghost keys: Keys, ghost ops: seq<Op>)
    returns (threw: bool, delivered: seq<seq<Row>>)
    requires Reachable(keys, s, ops) && s.pending == [] && KeysMatch(schema, keys, primary, secondary)
    requires Answerable(schema, s, options)
    ensures StorageScan.RowsOf(schema, StoredRows(s.files, s.metaIds))
    ensures threw ==>
              || options.columns == [] || BindFails(TableOf(schema, s), options)
              || exists i :: 0 <= i < |options.conditions| && IntegerOnFloat(schema, options.conditions[i])
    ensures !threw ==> multiset(Concat(delivered)) == multiset(Kept(schema, options, StoredRows(s.files, s.metaIds)))
  {
    StoredAreTyped(schema, s);
    var path, chosen := PlanScan(schema, primary, secondary, options.conditions);
    match path {
      case SeqScan =>
        TableIsStore(schema, s);
        threw, delivered := ScanAll(TableOf(schema, s), options);
      case IndexScan(_, lookup, residual) =>
        ReachableInv(keys, s, ops);
        KeyWithItsId(primary, secondary, chosen.value);
        var key := KeyWithId(primary, secondary, path.keyId);
        var ls := LookupPath(schema, primary, secondary, s, options, lookup, key, keys, ops);
        if ls.None? {
          return true, [];
        }
        threw, delivered := RunLookup(schema, s, options, residual, ls.value);
    }
  }

  /** The residual bound, and the located rows read and filtered. */
  method RunLookup(schema: seq<ColumnSchema>, s: Store, options: ScanOptions, residual: seq<Condition>,
                   ls: seq<RowLocation>)
    returns (threw: bool, delivered: seq<seq<Row>>)
    requires Answerable(schema, s, options) && KnownColumns(schema, options.columns)
    requires exists consumed :: residual == Residual(options.conditions, consumed)
    requires PathIsScan(schema, s, options, residual, ls)
    ensures threw ==> options.columns == [] || BindFails(TableOf(schema, s), options)
    ensures !threw ==> multiset(Concat(delivered)) == multiset(Kept(schema, options, StoredRows(s.files, s.metaIds)))
  {
    ghost var consumed :| residual == Residual(options.conditions, consumed);
    ResidualFrom(options.conditions, consumed);
    delivered := [];
    var prepared := Build(options.columns, schema, residual);
    if prepared.Err? {
      ghost var i :| 0 <= i < |residual| && Bind(options.columns, schema, residual[i]).Err?;
      ghost var j :| 0 <= j < |options.conditions| && options.conditions[j] == residual[i];
      return true, [];
    }
    threw, delivered := RunIndexScan(schema, s.files, ScanOptions(options.columns, residual), prepared.value, ls);
  }

  lemma StoredAreTyped(schema: seq<ColumnSchema>, s: Store)
    requires FilesTyped(schema, s)
    ensures StorageScan.RowsOf(schema, StoredRows(s.files, s.metaIds))
  {
    StoredTypedUpTo(schema, s, s.metaIds);
  }

  lemma {:induction false} StoredTypedUpTo(schema: seq<ColumnSchema>, s: Store, ids: seq<nat>)
    requires FilesTyped(schema, s)
    ensures StorageScan.RowsOf(schema, StoredRows(s.files, ids))
  {
    if ids != [] {
      StoredTypedUpTo(schema, s, ids[..|ids| - 1]);
    }
  }

  // ---------- from what was inserted to what is answered ----------

  lemma {:induction false} InsertsReach(keys: Keys, s: Store, ops: seq<Op>, rows: seq<Row>)
    requires Inserts(keys, s, ops, rows)
    ensures Reachable(keys, s, ops)
    decreases ops
  {
    if ops != [] {
      var init, op := ops[..|ops| - 1], ops[|ops| - 1];
      var r, before :| Inserts(keys, r, init, before) && Extends(keys, r, before, op, s, rows);
      InsertsReach(keys, r, init, before);
    }
  }

  /**
   * INSERT, flush, SELECT: after an orderly run that ends with a flush, the stored rows that meet the conditions, which
   * are what Answer delivers, are up to order the accepted rows that do.
   */
  lemma AnswersInserts(keys: Keys, s: Store, ops: seq<Op>, rows: seq<Row>, schema: seq<ColumnSchema>,
                       options: ScanOptions)
    requires Inserts(keys, s, ops, rows) && ops != [] && ops[|ops| - 1].FlushOp?
    requires StorageScan.RowsOf(schema, StoredRows(s.files, s.metaIds)) && StorageScan.RowsOf(schema, rows)
    requires KnownColumns(schema, options.columns)
    ensures Reachable(keys, s, ops) && s.pending == []
    ensures multiset(Kept(schema, options, StoredRows(s.files, s.metaIds))) == multiset(Kept(schema, options, rows))
  {
    InsertsReach(keys, s, ops, rows);
    ScanSeesInserts(keys, s, ops, rows);
    KeptPermuted(schema, options, StoredRows(s.files, s.metaIds), rows);
    var init, op := ops[..|ops| - 1], ops[|ops| - 1];
    var r, before :| Inserts(keys, r, init, before) && Extends(keys, r, before, op, s, rows);
    assert s == Flush(r, op.order, op.ok, Saved);
  }
}
