/** Index and data agree in every reachable store. */
module TableProofs {
  import opened Wrappers
  import opened Values
  import opened Sequences
  import opened KeyEncoding
  import opened KeyIndexes
  import opened TableState
  import opened TableRuns

  predicate IdsOk(s: Store) {
    && s.placement.Valid()
    && NoDuplicates(s.metaIds)
    && (forall g | g in s.metaIds ::
          g < s.placement.activeId && g !in s.placement.sealed && g in s.files && |s.files[g]| <= MAX_SEGMENT_ROWS)
    && (forall g | g in s.pending :: g in s.metaIds)
    && (forall g | g in s.lost :: g < s.placement.activeId && g !in s.placement.sealed && g !in s.metaIds)
  }

  predicate SavedOk(s: Store) {
    s.saved.Some? ==> NoDuplicates(s.saved.value) && forall g | g in s.saved.value :: g in s.metaIds
  }

  ghost predicate IndexesOk(s: Store, keys: Keys) {
    && s.primary.Some? == keys.primary.Some? && |s.secondary| == |keys.secondary|
    && (keys.primary.Some? ==>
          InSync(AsBuckets(s.primary.value), KeyOn(s, keys.primary.value), s.lost, s.Visible()))
    && (forall i | 0 <= i < |keys.secondary| ::
          InSync(s.secondary[i], KeyOn(s, keys.secondary[i]), s.lost, s.Visible()))
  }

  ghost predicate Inv(s: Store, keys: Keys) {
    IdsOk(s) && SavedOk(s) && IndexesOk(s, keys)
  }

  lemma InvEmpty(keys: Keys)
    ensures Inv(Empty(keys), keys)
  {
    forall keyOf: Row -> EncodedKey ensures InSync(map[], KeyOn(Empty(keys), keyOf), {}, Empty(keys).Visible()) {
      forall l ensures KeyOn(Empty(keys), keyOf)(l) == None {
        assert Empty(keys).RowOn(l) == None;
      }
    }
    assert AsBuckets(map[]) == map[];
  }

  // ---------- Append ----------

  lemma {:induction false} PlaceSealsNew(p: Placement, chunk: DataChunk)
    requires p.Valid() && chunk.Valid()
    ensures forall g | g in Place(p, chunk).0.sealed :: g in p.sealed || g >= p.activeId
    decreases chunk.size, |p.active|
  {
    if chunk.size > p.Room() {
      var (first, rest) := chunk.Slice(p.Room());
      PlaceSealsNew(p.(active := p.active + first.View()).Sealed(), rest);
    }
  }

  lemma AppendedAt(s: Store, t: Store, ls: seq<RowLocation>, rows: seq<Row>)
    requires IdsOk(s) && t.metaIds == s.metaIds && t.files == s.files
    requires PlacedAt(s.placement, t.placement, ls, rows)
    ensures forall j | 0 <= j < |ls| :: s.RowOn(ls[j]) == None && t.RowOn(ls[j]) == Some(rows[j])
    ensures forall l | l !in ls :: t.RowOn(l) == s.RowOn(l)
  {
    forall j | 0 <= j < |ls| ensures s.RowOn(ls[j]) == None && t.RowOn(ls[j]) == Some(rows[j]) {
      assert s.placement.activeId <= ls[j].segment;
      assert ls[j].segment !in s.metaIds;
    }
  }

  lemma AppendedIndex(s: Store, t: Store, ls: seq<RowLocation>, rows: seq<Row>, b: Buckets, keyOf: Row -> EncodedKey)
    requires IdsOk(s) && PlacedAt(s.placement, t.placement, ls, rows)
    requires t.metaIds == s.metaIds && t.files == s.files && t.lost == s.lost && t.pending == s.pending
    requires InSync(b, KeyOn(s, keyOf), s.lost, s.Visible())
    ensures InSync(InsertAll(b, KeysOf(keyOf, rows), ls, false), KeyOn(t, keyOf), t.lost, t.Visible())
  {
    AppendedAt(s, t, ls, rows);
    forall j | 0 <= j < |ls| ensures ls[j].segment !in s.lost && ls[j].segment !in s.Visible() {
      assert s.placement.activeId <= ls[j].segment;
    }
    InsertAllInSync(b, KeyOn(s, keyOf), KeyOn(t, keyOf), s.lost, s.Visible(), KeysOf(keyOf, rows), ls, false);
  }

  /**
   * An accepted Append that slices right stores row j at its location j, overwrites nothing, and leaves the
   * indexes in step with the data.
   */
  lemma AppendKeeps(s: Store, keys: Keys, rows: seq<Row>)
    requires Inv(s, keys) && SlicesRight(|rows|, s.placement.Room())
    ensures var chunk := DataChunk(rows, 0, |rows|);
            var t := Append(s, keys, chunk);
            t.Some? ==>
              && Inv(t.value, keys)
              && PlacedAt(s.placement, t.value.placement, Place(s.placement, chunk).1, rows)
  {
    var chunk := DataChunk(rows, 0, |rows|);
    assert chunk.View() == rows;
    var (placed, ls) := Place(s.placement, chunk);
    PlaceIsCopied(s.placement, chunk);
    CopiedRight(rows, s.placement.Room());
    PlaceSealsNew(s.placement, chunk);
    if Append(s, keys, chunk).Some? {
      var t := Append(s, keys, chunk).value;
      assert IdsOk(t);
      if keys.primary.Some? {
        AppendedIndex(s, t, ls, rows, AsBuckets(s.primary.value), keys.primary.value);
        InsertAllUniqueAsBuckets(s.primary.value, KeysOf(keys.primary.value, rows), ls, false);
      }
      forall i | 0 <= i < |keys.secondary|
        ensures InSync(t.secondary[i], KeyOn(t, keys.secondary[i]), t.lost, t.Visible())
      {
        AppendedIndex(s, t, ls, rows, s.secondary[i], keys.secondary[i]);
      }
    }
  }

  // ---------- Flush ----------

  /** The segments written come from the sealed ones, once each, and are new to the segment list. */
  lemma WrittenAreNew(s: Store, order: seq<nat>, ok: set<nat>)
    requires IdsOk(s) && FlushOrder(s, order)
    ensures NoDuplicates(Written(order, ok))
    ensures forall g | g in Written(order, ok) ::
              g in SealNonEmpty(s.placement).sealed && g !in s.metaIds && g !in s.pending && g !in s.lost
              && g <= s.placement.activeId
  {
    WrittenOnce(order, ok);
    forall g | g in Written(order, ok) ensures g in SealNonEmpty(s.placement).sealed {
      assert g in Members(order);
    }
  }

  lemma WriteKeepsVisible(s: Store, order: seq<nat>, ok: set<nat>)
    requires IdsOk(s) && FlushOrder(s, order)
    ensures WriteSegments(s, order, ok).Visible() == s.Visible()
  {
    var t, ids := WriteSegments(s, order, ok), Written(order, ok);
    WrittenAreNew(s, order, ok);
    forall g ensures g in t.Visible() <==> g in s.Visible() {
      assert g in t.metaIds <==> g in s.metaIds || g in ids;
      assert g in t.pending <==> g in s.pending || g in ids;
    }
  }

  lemma WriteKeepsIds(s: Store, order: seq<nat>, ok: set<nat>)
    requires IdsOk(s) && SavedOk(s) && FlushOrder(s, order)
    ensures var t := WriteSegments(s, order, ok); IdsOk(t) && SavedOk(t) && t.Visible() == s.Visible()
  {
    var t, ids := WriteSegments(s, order, ok), Written(order, ok);
    WrittenAreNew(s, order, ok);
    WriteKeepsVisible(s, order, ok);
    NoDuplicatesConcat(s.metaIds, ids);
    assert forall g :: g in t.metaIds <==> g in s.metaIds || g in ids;
    assert forall g :: g in t.pending <==> g in s.pending || g in ids;
  }

  lemma WriteMoves(s: Store, order: seq<nat>, ok: set<nat>, l: RowLocation)
    requires IdsOk(s) && FlushOrder(s, order)
    ensures var t := WriteSegments(s, order, ok); t.RowOn(l) == if l.segment in t.lost then None else s.RowOn(l)
  {
    var t := WriteSegments(s, order, ok);
    var p, ids := SealNonEmpty(s.placement), Written(order, ok);
    assert forall g | g in ids :: g in Members(order);
    assert p.RowIn(l) == s.placement.RowIn(l);
    assert l.segment in t.metaIds <==> l.segment in s.metaIds || l.segment in ids;
  }

  lemma WriteKeepsIndex(s: Store, order: seq<nat>, ok: set<nat>, b: Buckets, keyOf: Row -> EncodedKey)
    requires IdsOk(s) && SavedOk(s) && FlushOrder(s, order)
    requires InSync(b, KeyOn(s, keyOf), s.lost, s.Visible())
    ensures var t := WriteSegments(s, order, ok); InSync(b, KeyOn(t, keyOf), t.lost, t.Visible())
  {
    var t := WriteSegments(s, order, ok);
    WriteKeepsIds(s, order, ok);
    forall l ensures KeyOn(t, keyOf)(l) == if l.segment in t.lost then None else KeyOn(s, keyOf)(l) {
      WriteMoves(s, order, ok, l);
    }
    LoseInSync(b, KeyOn(s, keyOf), KeyOn(t, keyOf), s.lost, t.lost, s.Visible());
  }

  lemma WriteKeeps(s: Store, keys: Keys, order: seq<nat>, ok: set<nat>)
    requires Inv(s, keys) && FlushOrder(s, order)
    ensures Inv(WriteSegments(s, order, ok), keys)
  {
    var t := WriteSegments(s, order, ok);
    WriteKeepsIds(s, order, ok);
    if keys.primary.Some? {
      WriteKeepsIndex(s, order, ok, AsBuckets(s.primary.value), keys.primary.value);
    }
    forall i | 0 <= i < |keys.secondary|
      ensures InSync(t.secondary[i], KeyOn(t, keys.secondary[i]), t.lost, t.Visible())
    {
      WriteKeepsIndex(s, order, ok, s.secondary[i], keys.secondary[i]);
    }
  }

  lemma SaveKeepsIndex(s: Store, t: Store, b: Buckets, keyOf: Row -> EncodedKey)
    requires IdsOk(s) && t.placement == s.placement && t.files == s.files && t.metaIds == s.metaIds
    requires t.lost == s.lost && t.pending == [] && InSync(b, KeyOn(s, keyOf), s.lost, s.Visible())
    ensures InSync(MarkSegments(b, s.pending), KeyOn(t, keyOf), t.lost, t.Visible())
  {
    MarkSegmentsInSync(b, KeyOn(s, keyOf), s.lost, s.Visible(), s.pending);
    assert t.Visible() == s.Visible() + set g | g in s.pending;
    forall l ensures KeyOn(t, keyOf)(l) == KeyOn(s, keyOf)(l) {
      assert t.RowOn(l) == s.RowOn(l);
    }
    InSyncExtensional(MarkSegments(b, s.pending), KeyOn(s, keyOf), KeyOn(t, keyOf), s.lost, t.Visible());
  }

  lemma SameIndex(s: Store, t: Store, b: Buckets, keyOf: Row -> EncodedKey)
    requires t.placement == s.placement && t.files == s.files && t.metaIds == s.metaIds
    requires t.lost == s.lost && t.pending == s.pending && InSync(b, KeyOn(s, keyOf), s.lost, s.Visible())
    ensures InSync(b, KeyOn(t, keyOf), t.lost, t.Visible())
  {
    forall l ensures KeyOn(t, keyOf)(l) == KeyOn(s, keyOf)(l) {
      assert t.RowOn(l) == s.RowOn(l);
    }
    InSyncExtensional(b, KeyOn(s, keyOf), KeyOn(t, keyOf), s.lost, s.Visible());
  }

  lemma SaveKeeps(s: Store, keys: Keys, outcome: SaveOutcome)
    requires Inv(s, keys)
    ensures Inv(Save(s, outcome), keys)
  {
    var t := Save(s, outcome);
    if outcome.Saved? {
      if keys.primary.Some? {
        SaveKeepsIndex(s, t, AsBuckets(s.primary.value), keys.primary.value);
        MarkSegmentsAsBuckets(s.primary.value, s.pending);
      }
      forall i | 0 <= i < |keys.secondary|
        ensures InSync(t.secondary[i], KeyOn(t, keys.secondary[i]), t.lost, t.Visible())
      {
        SaveKeepsIndex(s, t, s.secondary[i], keys.secondary[i]);
      }
    } else {
      if keys.primary.Some? {
        SameIndex(s, t, AsBuckets(s.primary.value), keys.primary.value);
      }
      forall i | 0 <= i < |keys.secondary|
        ensures InSync(t.secondary[i], KeyOn(t, keys.secondary[i]), t.lost, t.Visible())
      {
        SameIndex(s, t, s.secondary[i], keys.secondary[i]);
      }
    }
  }

  lemma FlushKeeps(s: Store, keys: Keys, order: seq<nat>, ok: set<nat>, outcome: SaveOutcome)
    requires Inv(s, keys) && FlushOrder(s, order)
    ensures Inv(Flush(s, order, ok, outcome), keys)
  {
    WriteKeeps(s, keys, order, ok);
    SaveKeeps(WriteSegments(s, order, ok), keys, outcome);
  }

  // ---------- Reopen ----------

  predicate OnDisk(files: map<nat, seq<Row>>, ids: seq<nat>) {
    NoDuplicates(ids) && forall g | g in ids :: g in files
  }

  lemma {:induction false} StoredExact(files: map<nat, seq<Row>>, ids: seq<nat>)
    requires OnDisk(files, ids)
    ensures var ls, rows := StoredLocations(files, ids), StoredRows(files, ids);
            && NoDuplicates(ls)
            && (forall j | 0 <= j < |ls| ::
                  ls[j].segment in ids && RowAt(files[ls[j].segment], ls[j].offset) == Some(rows[j]))
            && (forall l: RowLocation | l.segment in ids && l.offset < |files[l.segment]| :: l in ls)
  {
    if ids != [] {
      var n := |ids| - 1;
      var init, here := StoredLocations(files, ids[..n]), Locations(ids[n], 0, |files[ids[n]]|);
      assert ids == ids[..n] + [ids[n]];
      StoredExact(files, ids[..n]);
      forall j | 0 <= j < |init| ensures init[j].segment != ids[n] {
        assert init[j].segment in ids[..n];
      }
      forall l: RowLocation | l.segment in ids && l.offset < |files[l.segment]| ensures l in init + here {
        if l.segment == ids[n] {
          assert here[l.offset] == l;
        }
      }
    }
  }

  lemma ReopenedRow(s: Store, keys: Keys, l: RowLocation)
    requires IdsOk(s) && SavedOk(s) && s.saved.Some?
    ensures var t := Reopen(s, keys);
            t.RowOn(l) == if l.segment in s.saved.value then s.RowOn(l) else None
  {
    var ids := s.saved.value;
    if l.segment in ids {
      assert l.segment in s.metaIds && l.segment < NextId(ids);
    }
  }

  lemma ReopenedIndex(s: Store, keys: Keys, keyOf: Row -> EncodedKey)
    requires IdsOk(s) && SavedOk(s) && s.saved.Some?
    ensures var t := Reopen(s, keys);
            var rows, ls := StoredRows(s.files, s.saved.value), StoredLocations(s.files, s.saved.value);
            InSync(InsertAll(map[], KeysOf(keyOf, rows), ls, true), KeyOn(t, keyOf), {}, t.Visible())
  {
    var t, ids := Reopen(s, keys), s.saved.value;
    var rows, ls := StoredRows(s.files, ids), StoredLocations(s.files, ids);
    StoredExact(s.files, ids);
    var none := (l: RowLocation) => None;
    assert t.Visible() == set g | g in ids;
    forall j | 0 <= j < |ls| ensures KeyOn(t, keyOf)(ls[j]) == Some(keyOf(rows[j])) && ls[j].segment in t.Visible() {
      ReopenedRow(s, keys, ls[j]);
      assert ls[j].segment in s.metaIds;
      assert s.RowOn(ls[j]) == Some(rows[j]);
    }
    forall l | l !in ls ensures KeyOn(t, keyOf)(l) == None {
      ReopenedRow(s, keys, l);
    }
    InsertAllInSync(map[], none, KeyOn(t, keyOf), {}, t.Visible(), KeysOf(keyOf, rows), ls, true);
  }

  lemma ReopenedKeysFresh(s: Store, keyOf: Row -> EncodedKey, u: Unique)
    requires IdsOk(s) && SavedOk(s) && s.saved.Some?
    requires InSync(AsBuckets(u), KeyOn(s, keyOf), s.lost, s.Visible())
    ensures FreshKeys(map[], KeysOf(keyOf, StoredRows(s.files, s.saved.value)))
  {
    var ids := s.saved.value;
    var rows, ls := StoredRows(s.files, ids), StoredLocations(s.files, ids);
    StoredExact(s.files, ids);
    forall i, j | 0 <= i < j < |rows| ensures keyOf(rows[i]) != keyOf(rows[j]) {
      assert ls[i] != ls[j] && ls[i].segment in s.metaIds && ls[j].segment in s.metaIds;
      assert s.RowOn(ls[i]) == Some(rows[i]) && s.RowOn(ls[j]) == Some(rows[j]);
      if keyOf(rows[i]) == keyOf(rows[j]) {
        UniqueInSync(u, KeyOn(s, keyOf), s.lost, s.Visible(), ls[i], ls[j]);
      }
    }
  }

  /** Rebuilding on open gives indexes in step with what disk holds. */
  lemma ReopenKeeps(s: Store, keys: Keys)
    requires Inv(s, keys) && s.saved.Some?
    ensures Inv(Reopen(s, keys), keys)
  {
    var t := Reopen(s, keys);
    if keys.primary.Some? {
      ReopenedIndex(s, keys, keys.primary.value);
      ReopenedKeysFresh(s, keys.primary.value, s.primary.value);
      var rows, ls := StoredRows(s.files, s.saved.value), StoredLocations(s.files, s.saved.value);
      InsertAllUniqueAsBuckets(map[], KeysOf(keys.primary.value, rows), ls, true);
      assert AsBuckets(map[]) == map[];
    }
    forall i | 0 <= i < |keys.secondary|
      ensures InSync(t.secondary[i], KeyOn(t, keys.secondary[i]), t.lost, t.Visible())
    {
      ReopenedIndex(s, keys, keys.secondary[i]);
    }
  }

  // ---------- Runs ----------

  datatype Op =
    | AppendOp(rows: seq<Row>)
    | FlushOp(order: seq<nat>, ok: set<nat>, outcome: SaveOutcome)
    | ReopenOp

  predicate Enabled(s: Store, op: Op)
    requires s.placement.Valid()
  {
    match op
    case AppendOp(rows) => SlicesRight(|rows|, s.placement.Room())
    case FlushOp(order, _, _) => FlushOrder(s, order)
    case ReopenOp => s.saved.Some?
  }

  function Apply(s: Store, keys: Keys, op: Op): Store
    requires s.placement.Valid() && Enabled(s, op)
    requires s.primary.Some? == keys.primary.Some? && |s.secondary| == |keys.secondary|
  {
    match op
    case AppendOp(rows) =>
      (match Append(s, keys, DataChunk(rows, 0, |rows|))
       case None => s
       case Some(t) => t)
    case FlushOp(order, ok, outcome) => Flush(s, order, ok, outcome)
    case ReopenOp => Reopen(s, keys)
  }

  lemma InvKept(s: Store, keys: Keys, op: Op)
    requires Inv(s, keys) && Enabled(s, op)
    ensures Inv(Apply(s, keys, op), keys)
  {
    match op
    case AppendOp(rows) => AppendKeeps(s, keys, rows);
    case FlushOp(order, ok, outcome) => FlushKeeps(s, keys, order, ok, outcome);
    case ReopenOp => ReopenKeeps(s, keys);
  }

  /** The stores some run of operations leads to from the empty table. */
  ghost predicate Reachable(keys: Keys, s: Store, ops: seq<Op>)
    decreases ops
  {
    if ops == [] then s == Empty(keys)
    else
      exists r: Store ::
        && Reachable(keys, r, ops[..|ops| - 1])
        && r.placement.Valid() && Enabled(r, ops[|ops| - 1])
        && r.primary.Some? == keys.primary.Some? && |r.secondary| == |keys.secondary|
        && s == Apply(r, keys, ops[|ops| - 1])
  }

  lemma {:induction false} ReachableInv(keys: Keys, s: Store, ops: seq<Op>)
    requires Reachable(keys, s, ops)
    ensures Inv(s, keys)
    decreases ops
  {
    if ops == [] {
      InvEmpty(keys);
    } else {
      var n := |ops| - 1;
      var r: Store :| Reachable(keys, r, ops[..n]) && r.placement.Valid() && Enabled(r, ops[n])
                      && r.primary.Some? == keys.primary.Some? && |r.secondary| == |keys.secondary|
                      && s == Apply(r, keys, ops[n]);
      ReachableInv(keys, r, ops[..n]);
      InvKept(r, keys, ops[n]);
    }
  }

  // ---------- What that says ----------

  /** The rows queries see under a key: those of the segment list, unless their visibility is still pending. */
  predicate SeenUnder(s: Store, keyOf: Row -> EncodedKey, key: EncodedKey, l: RowLocation) {
    && KeyOn(s, keyOf)(l) == Some(key)
    && l.segment in s.metaIds && l.segment !in s.pending
  }

  /**
   * In every reachable store a secondary lookup returns exactly the rows seen under the key, each once:
   * nothing outside the segment list, and everything in it once no segment is pending.
   */
  lemma SecondaryLookupExact(keys: Keys, s: Store, ops: seq<Op>, i: nat, key: EncodedKey, l: RowLocation)
    requires Reachable(keys, s, ops) && i < |keys.secondary|
    ensures i < |s.secondary| && NoDuplicates(LookupIn(s.secondary[i], key))
    ensures l in LookupIn(s.secondary[i], key) <==> SeenUnder(s, keys.secondary[i], key, l)
  {
    ReachableInv(keys, s, ops);
    LookupExact(s.secondary[i], KeyOn(s, keys.secondary[i]), s.lost, s.Visible(), key, l);
  }

  lemma PrimaryLookupExact(keys: Keys, s: Store, ops: seq<Op>, key: EncodedKey, l: RowLocation)
    requires Reachable(keys, s, ops) && keys.primary.Some?
    ensures s.primary.Some? && |LookupIn(AsBuckets(s.primary.value), key)| <= 1
    ensures l in LookupIn(AsBuckets(s.primary.value), key) <==> SeenUnder(s, keys.primary.value, key, l)
  {
    ReachableInv(keys, s, ops);
    LookupExact(AsBuckets(s.primary.value), KeyOn(s, keys.primary.value), s.lost, s.Visible(), key, l);
    if key in s.primary.value {
      OneVisible(s.primary.value[key]);
    }
  }

  /** No two rows of active, sealed and flushed segments share a primary key. */
  lemma PrimaryKeysDistinct(keys: Keys, s: Store, ops: seq<Op>, l: RowLocation, m: RowLocation)
    requires Reachable(keys, s, ops) && keys.primary.Some?
    requires s.RowOn(l).Some? && s.RowOn(m).Some?
    requires keys.primary.value(s.RowOn(l).value) == keys.primary.value(s.RowOn(m).value)
    ensures l == m
  {
    ReachableInv(keys, s, ops);
    UniqueInSync(s.primary.value, KeyOn(s, keys.primary.value), s.lost, s.Visible(), l, m);
  }

  /** No segment, in memory or on disk, outgrows its limit. */
  lemma SegmentsBounded(keys: Keys, s: Store, ops: seq<Op>)
    requires Reachable(keys, s, ops)
    ensures |s.placement.active| <= MAX_SEGMENT_ROWS
    ensures forall g | g in s.placement.sealed :: |s.placement.sealed[g]| <= MAX_SEGMENT_ROWS
    ensures forall g | g in s.metaIds :: g in s.files && |s.files[g]| <= MAX_SEGMENT_ROWS
  {
    ReachableInv(keys, s, ops);
  }

  /** Where everything is saved and visible, the rebuilt index answers as the maintained one did. */
  lemma RebuiltAnswersAlike(keys: Keys, s: Store, ops: seq<Op>, i: nat, key: EncodedKey, l: RowLocation)
    requires Reachable(keys, s, ops) && s.saved == Some(s.metaIds) && s.pending == [] && i < |keys.secondary|
    ensures i < |s.secondary|
    ensures l in LookupIn(Reopen(s, keys).secondary[i], key) <==> l in LookupIn(s.secondary[i], key)
    ensures NoDuplicates(LookupIn(Reopen(s, keys).secondary[i], key))
  {
    ReachableInv(keys, s, ops);
    var t := Reopen(s, keys);
    ReopenKeeps(s, keys);
    LookupExact(s.secondary[i], KeyOn(s, keys.secondary[i]), s.lost, s.Visible(), key, l);
    LookupExact(t.secondary[i], KeyOn(t, keys.secondary[i]), t.lost, t.Visible(), key, l);
    ReopenedRow(s, keys, l);
  }

  lemma RebuiltPrimaryAlike(keys: Keys, s: Store, ops: seq<Op>, key: EncodedKey, l: RowLocation)
    requires Reachable(keys, s, ops) && s.saved == Some(s.metaIds) && s.pending == [] && keys.primary.Some?
    ensures s.primary.Some? && Reopen(s, keys).primary.Some?
    ensures l in LookupIn(AsBuckets(Reopen(s, keys).primary.value), key)
            <==> l in LookupIn(AsBuckets(s.primary.value), key)
  {
    ReachableInv(keys, s, ops);
    var t := Reopen(s, keys);
    ReopenKeeps(s, keys);
    LookupExact(AsBuckets(s.primary.value), KeyOn(s, keys.primary.value), s.lost, s.Visible(), key, l);
    LookupExact(AsBuckets(t.primary.value), KeyOn(t, keys.primary.value), t.lost, t.Visible(), key, l);
    ReopenedRow(s, keys, l);
  }

  /** A SaveMeta that succeeds leaves nothing pending: what a scan sees, lookups see again. */
  lemma SaveSettles(keys: Keys, s: Store, ops: seq<Op>)
    requires Reachable(keys, s, ops)
    ensures Save(s, Saved).pending == [] && Save(s, Saved).saved == Some(Save(s, Saved).metaIds)
    ensures Inv(Save(s, Saved), keys)
    ensures Save(s, Saved).Visible() == (set g | g in s.metaIds)
  {
    ReachableInv(keys, s, ops);
    SaveKeeps(s, keys, Saved);
  }

  /** One row appended and written while table.meta could not be: it is listed and stored, and no lookup finds it. */
  lemma FailedSaveHidesARow(keyOf: Row -> EncodedKey, row: Row) returns (s: Store, ops: seq<Op>)
    ensures Reachable(Keys(None, [keyOf]), s, ops)
    ensures 0 in s.metaIds && s.RowOn(RowLocation(0, 0)) == Some(row)
    ensures |s.secondary| == 1 && RowLocation(0, 0) !in LookupIn(s.secondary[0], keyOf(row))
  {
    var keys := Keys(None, [keyOf]);
    var append, flush := AppendOp([row]), FlushOp([0], {0}, NotOpened);
    var empty := Empty(keys);
    var appended := Apply(empty, keys, append);
    assert Reachable(keys, empty, []);
    assert [append][..0] == [];
    assert Reachable(keys, appended, [append]);
    assert appended.placement == Placement(0, [row], map[], 1);
    assert SealNonEmpty(appended.placement).sealed == map[0 := [row]];
    s, ops := Apply(appended, keys, flush), [append, flush];
    assert ops[..1] == [append];
    assert Reachable(keys, s, ops);
    WrittenStep(map[], map[0 := [row]], [], {0}, 0);
    assert [] + [0] == [0];
    assert Written([0], {0}) == [0];
    SecondaryLookupExact(keys, s, ops, 0, keyOf(row), RowLocation(0, 0));
  }
}
