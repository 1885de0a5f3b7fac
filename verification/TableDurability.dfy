/** What was inserted is what is stored: appends, flushes and reopens as seen from the rows. */
module TableDurability {
  import opened Wrappers
  import opened Values
  import opened Sequences
  import opened KeyEncoding
  import opened KeyIndexes
  import opened TableState
  import opened TableRuns
  import opened TableProofs

  // ---------- one flush ----------

  /** The row is in the file of a listed segment. */
  predicate InFile(s: Store, l: RowLocation, row: Row) {
    l.segment in s.metaIds && l.segment in s.files && RowAt(s.files[l.segment], l.offset) == Some(row)
  }

  /**
   * A flush leaves nothing in memory. Every row that was there is in the file of a listed segment afterwards, unless
   * the write of its segment failed; no row appears that was not there.
   */
  lemma FlushPutsOnDisk(s: Store, keys: Keys, order: seq<nat>, ok: set<nat>, outcome: SaveOutcome, l: RowLocation)
    requires Inv(s, keys) && FlushOrder(s, order)
    ensures var t := Flush(s, order, ok, outcome);
            && t.placement.active == [] && t.placement.sealed == map[]
            && (s.RowOn(l).Some? && (l.segment in s.metaIds || l.segment in ok) ==>
                  InFile(t, l, s.RowOn(l).value) && t.RowOn(l) == s.RowOn(l))
            && (s.RowOn(l).Some? && !(l.segment in s.metaIds || l.segment in ok) ==>
                  l.segment in t.lost && t.RowOn(l) == None)
            && (s.RowOn(l).None? ==> t.RowOn(l) == None)
  {
    var p, ids := SealNonEmpty(s.placement), Written(order, ok);
    WrittenAreNew(s, order, ok);
    assert l.segment in p.sealed <==> l.segment in Members(order);
  }

  predicate AllWritten(order: seq<nat>, ok: set<nat>) {
    forall g | g in order :: g in ok
  }

  lemma NothingLostThen(s: Store, order: seq<nat>, ok: set<nat>)
    requires s.placement.Valid() && FlushOrder(s, order) && AllWritten(order, ok)
    ensures WriteSegments(s, order, ok).lost == s.lost
  {
    forall g | g in SealNonEmpty(s.placement).sealed ensures g in Written(order, ok) {
      assert g in Members(order);
    }
  }

  lemma SealedOrListed(s: Store, keys: Keys, order: seq<nat>, l: RowLocation)
    requires Inv(s, keys) && FlushOrder(s, order) && s.RowOn(l).Some?
    ensures l.segment in s.metaIds || l.segment in order
  {
    if l.segment !in s.metaIds {
      assert l.segment in SealNonEmpty(s.placement).sealed;
      assert l.segment in Members(order);
    }
  }

  /** When every write succeeds and table.meta is saved, all rows are visible, and still there after reopening. */
  lemma FlushIsDurable(s: Store, keys: Keys, order: seq<nat>, ok: set<nat>, l: RowLocation)
    requires Inv(s, keys) && FlushOrder(s, order) && AllWritten(order, ok)
    ensures var t := Flush(s, order, ok, Saved);
            && t.saved == Some(t.metaIds) && t.pending == [] && t.lost == s.lost
            && t.RowOn(l) == s.RowOn(l) && Reopen(t, keys).RowOn(l) == s.RowOn(l)
            && (s.RowOn(l).Some? ==> l.segment in t.Visible() && InFile(t, l, s.RowOn(l).value))
  {
    var t := Flush(s, order, ok, Saved);
    FlushPutsOnDisk(s, keys, order, ok, Saved, l);
    FlushKeeps(s, keys, order, ok, Saved);
    NothingLostThen(s, order, ok);
    if s.RowOn(l).Some? {
      SealedOrListed(s, keys, order, l);
    }
    ReopenedRow(t, keys, l);
  }

  /** What a failed SaveMeta leaves: queries by key see what they saw, and table.meta is as it was, or spoilt. */
  lemma UnsavedFlush(s: Store, keys: Keys, order: seq<nat>, ok: set<nat>, outcome: SaveOutcome)
    requires Inv(s, keys) && FlushOrder(s, order) && !outcome.Saved?
    ensures var t := Flush(s, order, ok, outcome);
            && t.Visible() == s.Visible() && t.primary == s.primary && t.secondary == s.secondary
            && t.saved == (if outcome.Torn? then None else s.saved)
            && (forall g | g in t.metaIds && g !in s.metaIds :: g in t.pending)
  {
    WriteKeepsVisible(s, order, ok);
  }

  // ---------- when an append is accepted ----------

  ghost predicate KeyTaken(s: Store, keyOf: Row -> EncodedKey, key: EncodedKey) {
    exists l :: s.RowOn(l).Some? && keyOf(s.RowOn(l).value) == key
  }

  /** A key that only the index still has: its row was in a segment whose write failed. */
  predicate KeyOfLost(s: Store, key: EncodedKey) {
    s.primary.Some? && key in s.primary.value && s.primary.value[key].location.segment in s.lost
  }

  lemma InIndexIff(s: Store, keys: Keys, key: EncodedKey)
    requires Inv(s, keys) && keys.primary.Some?
    ensures key in s.primary.value <==> KeyTaken(s, keys.primary.value, key) || KeyOfLost(s, key)
  {
    var u, at := s.primary.value, KeyOn(s, keys.primary.value);
    if key in u {
      assert BucketOk(AsBuckets(u)[key], key, at, s.lost, s.Visible());
      assert AsBuckets(u)[key][0] == u[key];
      assert EntryOk(AsBuckets(u)[key][0], key, at, s.lost, s.Visible());
      var l := u[key].location;
      if l.segment !in s.lost {
        assert s.RowOn(l).Some?;
      }
    }
    if KeyTaken(s, keys.primary.value, key) {
      var l :| s.RowOn(l).Some? && keys.primary.value(s.RowOn(l).value) == key;
      assert at(l) == Some(key);
      assert HasEntry(AsBuckets(u), key, l);
    }
  }

  /**
   * A batch is refused exactly if the table has a primary key and the batch repeats a key, or has one of a row that
   * is stored or was lost to a failed write.
   */
  lemma AppendAcceptedIff(s: Store, keys: Keys, rows: seq<Row>)
    requires Inv(s, keys)
    ensures Append(s, keys, DataChunk(rows, 0, |rows|)).None? <==>
              keys.primary.Some? &&
              var keyOf := keys.primary.value;
              || (exists i, j :: 0 <= i < j < |rows| && keyOf(rows[i]) == keyOf(rows[j]))
              || exists i :: 0 <= i < |rows| && (KeyTaken(s, keyOf, keyOf(rows[i])) || KeyOfLost(s, keyOf(rows[i])))
  {
    var chunk := DataChunk(rows, 0, |rows|);
    assert chunk.View() == rows;
    if keys.primary.Some? {
      var ks := KeysOf(keys.primary.value, rows);
      forall i | 0 <= i < |rows|
        ensures ks[i] in s.primary.value <==> KeyTaken(s, keys.primary.value, ks[i]) || KeyOfLost(s, ks[i])
      {
        InIndexIff(s, keys, ks[i]);
      }
    }
  }

  // ---------- whole runs ----------

  /** `ls` are the locations of all rows there are, and `rows` what they hold. */
  ghost predicate Holds(s: Store, ls: seq<RowLocation>, rows: seq<Row>) {
    && |ls| == |rows| && NoDuplicates(ls)
    && (forall j | 0 <= j < |ls| :: s.RowOn(ls[j]) == Some(rows[j]))
    && forall l | s.RowOn(l).Some? :: l in ls
  }

  /** Every write of the flush succeeds and is saved; a reopen finds nothing in memory that was not flushed. */
  predicate Orderly(s: Store, op: Op) {
    match op
    case AppendOp(_) => true
    case FlushOp(order, ok, outcome) => AllWritten(order, ok) && outcome.Saved?
    case ReopenOp => s.placement.active == [] && s.placement.sealed == map[] && s.saved == Some(s.metaIds)
  }

  /** The rows of an append that is accepted. */
  function Added(s: Store, keys: Keys, op: Op): seq<Row>
    requires s.placement.Valid() && s.primary.Some? == keys.primary.Some? && |s.secondary| == |keys.secondary|
  {
    match op
    case AppendOp(rows) => if Append(s, keys, DataChunk(rows, 0, |rows|)).Some? then rows else []
    case _ => []
  }

  /** One more orderly step, from `r` with the rows `before` to `s` with `rows`. */
  predicate Extends(keys: Keys, r: Store, before: seq<Row>, op: Op, s: Store, rows: seq<Row>) {
    && r.placement.Valid() && Enabled(r, op) && Orderly(r, op)
    && r.primary.Some? == keys.primary.Some? && |r.secondary| == |keys.secondary|
    && s == Apply(r, keys, op) && rows == before + Added(r, keys, op)
  }

  /** An orderly run from the empty table to `s` that has accepted `rows`, in this order. */
  ghost predicate Inserts(keys: Keys, s: Store, ops: seq<Op>, rows: seq<Row>)
    decreases ops
  {
    if ops == [] then s == Empty(keys) && rows == []
    else
      var init, op := ops[..|ops| - 1], ops[|ops| - 1];
      exists r, before :: Inserts(keys, r, init, before) && Extends(keys, r, before, op, s, rows)
  }

  lemma HoldsMore(s: Store, t: Store, ls: seq<RowLocation>, rows: seq<Row>, placed: seq<RowLocation>, batch: seq<Row>)
    requires Holds(s, ls, rows) && |placed| == |batch| && NoDuplicates(placed)
    requires forall j | 0 <= j < |placed| :: s.RowOn(placed[j]) == None && t.RowOn(placed[j]) == Some(batch[j])
    requires forall l | l !in placed :: t.RowOn(l) == s.RowOn(l)
    ensures Holds(t, ls + placed, rows + batch)
  {
    forall j | 0 <= j < |placed| ensures placed[j] !in ls {
      assert s.RowOn(placed[j]) == None;
    }
    NoDuplicatesConcat(ls, placed);
    forall l | t.RowOn(l).Some? ensures l in ls + placed {
      if l !in placed { assert s.RowOn(l).Some?; }
    }
    forall j | 0 <= j < |ls| ensures ls[j] !in placed {
      assert s.RowOn(ls[j]).Some?;
    }
  }

  lemma HoldsAppended(s: Store, keys: Keys, batch: seq<Row>, ls: seq<RowLocation>, rows: seq<Row>)
    returns (all: seq<RowLocation>)
    requires Inv(s, keys) && Enabled(s, AppendOp(batch)) && Holds(s, ls, rows)
    ensures Holds(Apply(s, keys, AppendOp(batch)), all, rows + Added(s, keys, AppendOp(batch)))
  {
    var chunk := DataChunk(batch, 0, |batch|);
    var t := Append(s, keys, chunk);
    if t.None? {
      assert rows + [] == rows;
      all := ls;
    } else {
      AppendKeeps(s, keys, batch);
      var placed := Place(s.placement, chunk).1;
      AppendedAt(s, t.value, placed, batch);
      HoldsMore(s, t.value, ls, rows, placed, batch);
      all := ls + placed;
    }
  }

  lemma HoldsAlike(s: Store, t: Store, ls: seq<RowLocation>, rows: seq<Row>)
    requires Holds(s, ls, rows) && forall l :: t.RowOn(l) == s.RowOn(l)
    ensures Holds(t, ls, rows)
  {
  }

  /** After an orderly run the table holds exactly the rows it accepted, each of them once. */
  lemma {:induction false} NothingIsLost(keys: Keys, s: Store, ops: seq<Op>, rows: seq<Row>)
    returns (ls: seq<RowLocation>)
    requires Inserts(keys, s, ops, rows)
    ensures Inv(s, keys) && Holds(s, ls, rows)
    decreases ops
  {
    if ops == [] {
      InvEmpty(keys);
      ls := [];
      assert forall l :: s.RowOn(l) == None;
    } else {
      var op := ops[|ops| - 1];
      var r, before :| Inserts(keys, r, ops[..|ops| - 1], before) && Extends(keys, r, before, op, s, rows);
      ls := NothingIsLost(keys, r, ops[..|ops| - 1], before);
      InvKept(r, keys, op);
      if op.AppendOp? {
        ls := HoldsAppended(r, keys, op.rows, ls, before);
      } else {
        RowsStay(keys, r, op);
        HoldsAlike(r, s, ls, before);
      }
    }
  }

  lemma RowsStay(keys: Keys, r: Store, op: Op)
    requires Inv(r, keys) && Enabled(r, op) && Orderly(r, op) && !op.AppendOp?
    ensures forall l :: Apply(r, keys, op).RowOn(l) == r.RowOn(l)
  {
    forall l ensures Apply(r, keys, op).RowOn(l) == r.RowOn(l) {
      if op.FlushOp? {
        FlushIsDurable(r, keys, op.order, op.ok, l);
      } else {
        ReopenedRow(r, keys, l);
      }
    }
  }

  /** With nothing in memory, the segment list names all rows. */
  lemma HeldIsStored(s: Store, keys: Keys, ls: seq<RowLocation>, rows: seq<Row>)
    requires Inv(s, keys) && Holds(s, ls, rows) && s.placement.active == [] && s.placement.sealed == map[]
    ensures multiset(StoredRows(s.files, s.metaIds)) == multiset(rows)
  {
    var all, stored := StoredLocations(s.files, s.metaIds), StoredRows(s.files, s.metaIds);
    StoredExact(s.files, s.metaIds);
    forall j | 0 <= j < |all| ensures s.RowOn(all[j]) == Some(stored[j]) {
      assert all[j].segment in s.metaIds;
    }
    forall l ensures l in all <==> s.RowOn(l).Some? {
    }
    assert Members(all) == Members(ls);
    SameMultiset(all, ls);
    var f := (l: RowLocation) => if s.RowOn(l).Some? then s.RowOn(l).value else [];
    PermutedImages(all, stored, ls, rows, f);
  }

  /** After a flush at the end of such a run, the segments a scan reads hold exactly the rows accepted. */
  lemma ScanSeesInserts(keys: Keys, s: Store, ops: seq<Op>, rows: seq<Row>)
    requires Inserts(keys, s, ops, rows) && ops != [] && ops[|ops| - 1].FlushOp?
    ensures multiset(StoredRows(s.files, s.metaIds)) == multiset(rows)
  {
    var op := ops[|ops| - 1];
    var r, before :| Inserts(keys, r, ops[..|ops| - 1], before) && Extends(keys, r, before, op, s, rows);
    var _ := NothingIsLost(keys, r, ops[..|ops| - 1], before);
    FlushPutsOnDisk(r, keys, op.order, op.ok, op.outcome, RowLocation(0, 0));
    var ls := NothingIsLost(keys, s, ops, rows);
    HeldIsStored(s, keys, ls, rows);
  }
}
