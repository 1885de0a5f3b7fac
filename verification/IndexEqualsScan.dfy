/** The chosen index path and the sequential scan deliver the same rows. */
module IndexEqualsScan {
  import opened Wrappers
  import opened Values
  import opened Batches
  import opened Sequences
  import opened StoragePredicates
  import opened StorageScan
  import opened TableScan
  import opened KeyEncoding
  import opened KeyIndexes
  import opened TableState
  import opened TableRuns
  import opened TableProofs
  import opened AccessPath
  import opened IndexScanOperator

  // ---------- Filtering does not depend on order ----------

  lemma KeptWithout(schema: seq<ColumnSchema>, options: ScanOptions, rows: seq<Row>, j: nat)
    requires RowsOf(schema, rows) && KnownColumns(schema, options.columns) && j < |rows|
    ensures multiset(Kept(schema, options, rows))
            == multiset(Kept(schema, options, Without(rows, j))) + multiset(Kept(schema, options, [rows[j]]))
  {
    assert rows == rows[..j] + ([rows[j]] + rows[j + 1..]);
    KeptConcat(schema, options, rows[..j], [rows[j]] + rows[j + 1..]);
    KeptConcat(schema, options, [rows[j]], rows[j + 1..]);
    KeptConcat(schema, options, rows[..j], rows[j + 1..]);
  }

  lemma {:induction false} KeptPermuted(schema: seq<ColumnSchema>, options: ScanOptions, a: seq<Row>, b: seq<Row>)
    requires RowsOf(schema, a) && RowsOf(schema, b) && KnownColumns(schema, options.columns)
    requires multiset(a) == multiset(b)
    ensures multiset(Kept(schema, options, a)) == multiset(Kept(schema, options, b))
  {
    if a == [] {
      assert |multiset(b)| == |b|;
    } else {
      var j := FindIn(a, b);
      KeptWithout(schema, options, a, 0);
      KeptWithout(schema, options, b, j);
      KeptPermuted(schema, options, Without(a, 0), Without(b, j));
    }
  }

  lemma RowsAtPermuted(files: map<nat, seq<Row>>, a: seq<RowLocation>, b: seq<RowLocation>)
    requires Fetchable(files, a) && Fetchable(files, b) && multiset(a) == multiset(b)
    ensures multiset(RowsAt(files, a)) == multiset(RowsAt(files, b))
  {
    var f := (l: RowLocation) => if RowFor(files, l).Some? then RowFor(files, l).value else [];
    PermutedImages(a, RowsAt(files, a), b, RowsAt(files, b), f);
  }

  // ---------- The rows under a key, in scan order ----------

  function WithKey(files: map<nat, seq<Row>>, keyOf: Row -> EncodedKey, key: EncodedKey, ls: seq<RowLocation>)
    : (r: seq<RowLocation>)
    ensures forall l :: l in r <==> l in ls && RowFor(files, l).Some? && keyOf(RowFor(files, l).value) == key
  {
    if ls == [] then []
    else
      var n := |ls| - 1;
      var row := RowFor(files, ls[n]);
      assert ls == ls[..n] + [ls[n]];
      WithKey(files, keyOf, key, ls[..n]) + (if row.Some? && keyOf(row.value) == key then [ls[n]] else [])
  }

  lemma {:induction false} WithKeyOnce(files: map<nat, seq<Row>>, keyOf: Row -> EncodedKey, key: EncodedKey,
                                       ls: seq<RowLocation>)
    requires NoDuplicates(ls)
    ensures NoDuplicates(WithKey(files, keyOf, key, ls))
  {
    if ls != [] {
      WithKeyOnce(files, keyOf, key, ls[..|ls| - 1]);
    }
  }

  ghost predicate InFiles(files: map<nat, seq<Row>>, row: Row) {
    exists g :: g in files && row in files[g]
  }

  /** On the stored rows, the predicates ask for a key and a residual. */
  ghost predicate Splits(schema: seq<ColumnSchema>, files: map<nat, seq<Row>>, options: ScanOptions,
                         residual: seq<Condition>, keyOf: Row -> EncodedKey, key: EncodedKey)
  {
    forall row | InFiles(files, row) && StorageScan.RowOf(schema, row) ::
      MeetsAll(schema, row, options.conditions) <==> keyOf(row) == key && MeetsAll(schema, row, residual)
  }

  lemma {:induction false} KeptIsKeptWithKey(schema: seq<ColumnSchema>, files: map<nat, seq<Row>>, options: ScanOptions,
                                             residual: seq<Condition>, keyOf: Row -> EncodedKey, key: EncodedKey,
                                             ls: seq<RowLocation>)
    requires KnownColumns(schema, options.columns) && forall g | g in files :: RowsOf(schema, files[g])
    requires Splits(schema, files, options, residual, keyOf, key) && Fetchable(files, ls)
    ensures Fetchable(files, WithKey(files, keyOf, key, ls))
    ensures RowsOf(schema, RowsAt(files, ls)) && RowsOf(schema, RowsAt(files, WithKey(files, keyOf, key, ls)))
    ensures Kept(schema, options, RowsAt(files, ls))
            == Kept(schema, ScanOptions(options.columns, residual), RowsAt(files, WithKey(files, keyOf, key, ls)))
  {
    RowsAtTyped(schema, files, ls);
    if ls != [] {
      var n := |ls| - 1;
      var init, last := ls[..n], [ls[n]];
      assert ls == init + last;
      KeptIsKeptWithKey(schema, files, options, residual, keyOf, key, init);
      var found := WithKey(files, keyOf, key, init);
      FetchableSplits(files, init, last);
      var row := RowFor(files, ls[n]).value;
      assert RowsAt(files, last) == [row] && StorageScan.RowOf(schema, row) && InFiles(files, row);
      KeptConcat(schema, options, RowsAt(files, init), [row]);
      KeptOne(schema, options, row);
      if keyOf(row) == key {
        assert Fetchable(files, found + last);
        FetchableSplits(files, found, last);
        KeptConcat(schema, ScanOptions(options.columns, residual), RowsAt(files, found), [row]);
        KeptOne(schema, ScanOptions(options.columns, residual), row);
      } else {
        assert found + [] == found;
      }
    }
  }

  // ---------- The two paths ----------

  lemma {:induction false} StoredFetchable(files: map<nat, seq<Row>>, ids: seq<nat>)
    requires OnDisk(files, ids)
    ensures Fetchable(files, StoredLocations(files, ids))
    ensures RowsAt(files, StoredLocations(files, ids)) == StoredRows(files, ids)
  {
    StoredExact(files, ids);
    var ls := StoredLocations(files, ids);
    forall i | 0 <= i < |ls| ensures RowFor(files, ls[i]) == Some(StoredRows(files, ids)[i]) {
      assert ls[i].segment in ids;
    }
  }

  /**
   * Whatever order the lookup returns its locations in, the looked-up rows that meet the residual are, as a
   * multiset, the stored rows that meet all predicates.
   */
  lemma LookupIsScan(schema: seq<ColumnSchema>, files: map<nat, seq<Row>>, ids: seq<nat>, options: ScanOptions,
                     residual: seq<Condition>, keyOf: Row -> EncodedKey, key: EncodedKey, ls: seq<RowLocation>)
    requires KnownColumns(schema, options.columns) && forall g | g in files :: RowsOf(schema, files[g])
    requires OnDisk(files, ids) && Splits(schema, files, options, residual, keyOf, key)
    requires LooksUp(files, ids, keyOf, key, ls)
    ensures Fetchable(files, ls) && RowsOf(schema, RowsAt(files, ls)) && RowsOf(schema, StoredRows(files, ids))
    ensures multiset(Kept(schema, ScanOptions(options.columns, residual), RowsAt(files, ls)))
            == multiset(Kept(schema, options, StoredRows(files, ids)))
  {
    var all := StoredLocations(files, ids);
    StoredFetchable(files, ids);
    var found := WithKey(files, keyOf, key, all);
    KeptIsKeptWithKey(schema, files, options, residual, keyOf, key, all);
    FoundIsLookup(files, ids, keyOf, key, ls);
    RowsAtTyped(schema, files, ls);
    RowsAtPermuted(files, ls, found);
    KeptPermuted(schema, ScanOptions(options.columns, residual), RowsAt(files, ls), RowsAt(files, found));
  }

  /** A row lookup returns `l` if and only if it is listed, stored and has the key. */
  ghost predicate LooksUp(files: map<nat, seq<Row>>, ids: seq<nat>, keyOf: Row -> EncodedKey, key: EncodedKey,
                          ls: seq<RowLocation>)
  {
    NoDuplicates(ls) &&
    forall l :: l in ls <==> l.segment in ids && RowFor(files, l).Some? && keyOf(RowFor(files, l).value) == key
  }

  lemma FoundIsLookup(files: map<nat, seq<Row>>, ids: seq<nat>, keyOf: Row -> EncodedKey, key: EncodedKey,
                      ls: seq<RowLocation>)
    requires OnDisk(files, ids) && LooksUp(files, ids, keyOf, key, ls)
    ensures Fetchable(files, ls)
    ensures multiset(ls) == multiset(WithKey(files, keyOf, key, StoredLocations(files, ids)))
  {
    var all := StoredLocations(files, ids);
    var found := WithKey(files, keyOf, key, all);
    StoredExact(files, ids);
    WithKeyOnce(files, keyOf, key, all);
    forall l ensures l in ls <==> l in found {
      ListedIsStored(files, ids, l);
    }
    assert Members(ls) == Members(found);
    SameMultiset(ls, found);
    assert forall i | 0 <= i < |ls| :: ls[i] in ls;
  }

  lemma ListedIsStored(files: map<nat, seq<Row>>, ids: seq<nat>, l: RowLocation)
    requires OnDisk(files, ids)
    ensures l in StoredLocations(files, ids) <==> l.segment in ids && RowFor(files, l).Some?
  {
    StoredExact(files, ids);
  }

  // ---------- On a reachable store ----------

  /** `keyOf` is the encoder applied to the key columns. */
  ghost predicate EncodesKey(schema: seq<ColumnSchema>, columns: seq<nat>, keyOf: Row -> EncodedKey) {
    && KeyColumns(schema, columns)
    && forall row | StorageScan.RowOf(schema, row) && KeyCells(KeyValues(schema, columns, row)) ::
         keyOf(row) == EncodeTuple(KeyValues(schema, columns, row))
  }

  /** What is stored is what columns hold: rows of the schema, whose cells have byte patterns. */
  predicate FilesHold(schema: seq<ColumnSchema>, files: map<nat, seq<Row>>) {
    forall g | g in files :: RowsOf(schema, files[g]) && forall i | 0 <= i < |files[g]| :: KeyCells(files[g][i])
  }

  lemma HeldKey(schema: seq<ColumnSchema>, files: map<nat, seq<Row>>, columns: seq<nat>, row: Row)
    requires FilesHold(schema, files) && InFiles(files, row) && KeyColumns(schema, columns)
    ensures StorageScan.RowOf(schema, row) && KeyCells(KeyValues(schema, columns, row))
  {
    var g :| g in files && row in files[g];
    var i :| 0 <= i < |files[g]| && files[g][i] == row;
    assert KeyCells(files[g][i]);
  }

  ghost predicate IsIndexPath(schema: seq<ColumnSchema>, columns: seq<nat>, predicates: seq<Condition>, m: KeyLookup,
                              converted: seq<ExecValue>)
  {
    && IsLookup(schema, columns, predicates, m) && |m.values| == |columns| == |converted|
    && KeyColumns(schema, columns) && KeptByKeys(KeyTypes(schema, columns), m.values) && KeyCells(converted)
    && ConvertsTo(KeyTypes(schema, columns), m.values, converted)
    && forall i | 0 <= i < |predicates| :: IsLiteral(predicates[i].value)
  }

  lemma PathSplits(schema: seq<ColumnSchema>, files: map<nat, seq<Row>>, columns: seq<nat>, options: ScanOptions,
                   m: KeyLookup, converted: seq<ExecValue>, keyOf: Row -> EncodedKey)
    requires FilesHold(schema, files)
    requires IsIndexPath(schema, columns, options.conditions, m, converted) && EncodesKey(schema, columns, keyOf)
    ensures Splits(schema, files, options, Residual(options.conditions, m.consumed), keyOf, EncodeTuple(converted))
  {
    forall row | InFiles(files, row) && StorageScan.RowOf(schema, row)
      ensures MeetsAll(schema, row, options.conditions)
              <==> keyOf(row) == EncodeTuple(converted) && MeetsAll(schema, row, Residual(options.conditions, m.consumed))
    {
      HeldKey(schema, files, columns, row);
      LookupAndResidual(schema, columns, options.conditions, m, converted, row);
    }
  }

  /** In a reachable store with nothing pending, a lookup is by the rows on disk. */
  lemma LookupOnDisk(keys: Keys, s: Store, keyOf: Row -> EncodedKey, b: Buckets, key: EncodedKey)
    requires Inv(s, keys) && s.pending == [] && InSync(b, KeyOn(s, keyOf), s.lost, s.Visible())
    ensures OnDisk(s.files, s.metaIds) && LooksUp(s.files, s.metaIds, keyOf, key, LookupIn(b, key))
  {
    forall l ensures l in LookupIn(b, key)
                     <==> l.segment in s.metaIds && RowFor(s.files, l).Some? && keyOf(RowFor(s.files, l).value) == key
    {
      LookupExact(b, KeyOn(s, keyOf), s.lost, s.Visible(), key, l);
      assert l.segment in s.Visible() <==> l.segment in s.metaIds;
      if l.segment in s.metaIds {
        assert s.RowOn(l) == RowFor(s.files, l);
      }
    }
    LookupExact(b, KeyOn(s, keyOf), s.lost, s.Visible(), key, RowLocation(0, 0));
  }

  /**
   * Access-path selection: on every reachable store with nothing pending, the locations a key's index returns
   * for the literals, filtered by the residual, hold the rows a scan with all predicates keeps.
   */
  lemma SecondaryPathIsScan(keys: Keys, s: Store, ops: seq<Op>, i: nat, schema: seq<ColumnSchema>, columns: seq<nat>,
                            options: ScanOptions, m: KeyLookup, converted: seq<ExecValue>)
    requires Reachable(keys, s, ops) && s.pending == [] && i < |keys.secondary|
    requires KnownColumns(schema, options.columns) && FilesHold(schema, s.files)
    requires EncodesKey(schema, columns, keys.secondary[i])
    requires IsIndexPath(schema, columns, options.conditions, m, converted)
    ensures i < |s.secondary|
    ensures var ls := LookupIn(s.secondary[i], EncodeTuple(converted));
            && Fetchable(s.files, ls) && RowsOf(schema, RowsAt(s.files, ls)) && RowsOf(schema, StoredRows(s.files, s.metaIds))
            && multiset(Kept(schema, ScanOptions(options.columns, Residual(options.conditions, m.consumed)), RowsAt(s.files, ls)))
               == multiset(Kept(schema, options, StoredRows(s.files, s.metaIds)))
  {
    ReachableInv(keys, s, ops);
    LookupOnDisk(keys, s, keys.secondary[i], s.secondary[i], EncodeTuple(converted));
    PathSplits(schema, s.files, columns, options, m, converted, keys.secondary[i]);
    LookupIsScan(schema, s.files, s.metaIds, options, Residual(options.conditions, m.consumed), keys.secondary[i],
                 EncodeTuple(converted), LookupIn(s.secondary[i], EncodeTuple(converted)));
  }

  lemma PrimaryPathIsScan(keys: Keys, s: Store, ops: seq<Op>, schema: seq<ColumnSchema>, columns: seq<nat>,
                          options: ScanOptions, m: KeyLookup, converted: seq<ExecValue>)
    requires Reachable(keys, s, ops) && s.pending == [] && keys.primary.Some?
    requires KnownColumns(schema, options.columns) && FilesHold(schema, s.files)
    requires EncodesKey(schema, columns, keys.primary.value)
    requires IsIndexPath(schema, columns, options.conditions, m, converted)
    ensures s.primary.Some?
    ensures var ls := LookupIn(AsBuckets(s.primary.value), EncodeTuple(converted));
            && Fetchable(s.files, ls) && RowsOf(schema, RowsAt(s.files, ls)) && RowsOf(schema, StoredRows(s.files, s.metaIds))
            && multiset(Kept(schema, ScanOptions(options.columns, Residual(options.conditions, m.consumed)), RowsAt(s.files, ls)))
               == multiset(Kept(schema, options, StoredRows(s.files, s.metaIds)))
  {
    ReachableInv(keys, s, ops);
    var b := AsBuckets(s.primary.value);
    LookupOnDisk(keys, s, keys.primary.value, b, EncodeTuple(converted));
    PathSplits(schema, s.files, columns, options, m, converted, keys.primary.value);
    LookupIsScan(schema, s.files, s.metaIds, options, Residual(options.conditions, m.consumed), keys.primary.value,
                 EncodeTuple(converted), LookupIn(b, EncodeTuple(converted)));
  }

  /** The operator on the locations of a lookup: what it delivers is, up to order, what `Kept` says of them. */
  method RunIndexScan(schema: seq<ColumnSchema>, files: map<nat, seq<Row>>, options: ScanOptions, prepared: seq<Prepared>,
                      ls: seq<RowLocation>)
    returns (threw: bool, delivered: seq<seq<Row>>)
    requires KnownColumns(schema, options.columns) && (forall g | g in files :: RowsOf(schema, files[g]))
    requires Fetchable(files, ls) && RowsOf(schema, RowsAt(files, ls))
    requires AllBound(options.columns, schema, options.conditions, prepared)
    requires forall i | 0 <= i < |options.conditions| :: BindsExactly(schema, options.conditions[i])
    ensures threw <==> options.columns == [] && ls != []
    ensures !threw ==> multiset(Concat(delivered)) == multiset(Kept(schema, options, RowsAt(files, ls)))
  {
    var scan := new IndexScan(schema, files, options, prepared, ls);
    ghost var pending := scan.Pending();
    RowsAtTyped(schema, files, pending);
    RowsAtPermuted(files, pending, ls);
    KeptPermuted(schema, options, RowsAt(files, pending), RowsAt(files, ls));
    forall r | 0 <= r < |pending|
      ensures DecidesRow(schema, options, RowsAt(files, pending)[r], prepared, AllOn(|prepared|),
                         OutputRow(schema, options, RowsAt(files, pending)[r]))
    {
      AllBoundDecide(schema, options, prepared, AllOn(|prepared|), RowsAt(files, pending)[r]);
    }
    threw, delivered := IndexScanOperator.Drain(scan);
  }
}
