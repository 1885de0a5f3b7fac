/** src/storage/table/table_storage.cpp: the table object, tied operation by operation to TableRuns. */
module TableStorageClass {
  import opened Wrappers
  import opened Values
  import opened Sequences
  import opened KeyEncoding
  import opened KeyIndexes
  import opened TableState
  import opened TableRuns

  /** The table's directory: segment files, and the segment list of table.meta. */
  class Directory {
    var files: map<nat, seq<Row>>
    var saved: Option<seq<nat>>

    constructor ()
      ensures files == map[] && saved == None
    {
      files, saved := map[], None;
    }
  }

  class TableStorage {
    const keys: Keys
    const dir: Directory
    var placement: Placement
    var metaIds: seq<nat>
    var pending: seq<nat>
    var primary: Option<Unique>
    var secondary: seq<Buckets>
    ghost var lost: set<nat>

    ghost predicate Valid()
      reads this
    {
      placement.Valid() && primary.Some? == keys.primary.Some? && |secondary| == |keys.secondary|
    }

    ghost function Contents(): Store
      reads this, dir
    {
      Store(placement, metaIds, pending, primary, secondary, dir.files, dir.saved, lost)
    }

    constructor Create(keys: Keys, dir: Directory)
      requires dir.files == map[]
      modifies dir`saved
      ensures Valid() && this.keys == keys && this.dir == dir && Contents() == Empty(keys)
    {
      this.keys, this.dir := keys, dir;
      placement, metaIds, pending, lost := Placement(0, [], map[], 1), [], [], {};
      primary := if keys.primary.None? then None else Some(map[]);
      secondary := seq(|keys.secondary|, _ => map[]);
      new;
      dir.saved := Some([]);
    }

    /** Append: refused as a whole on a duplicate primary key, and then nothing has changed. */
    method Append(chunk: DataChunk) returns (accepted: bool)
      requires Valid() && chunk.Valid()
      modifies this`placement, this`primary, this`secondary
      ensures Valid()
      ensures accepted <==> TableRuns.Append(old(Contents()), keys, chunk).Some?
      ensures accepted ==> Some(Contents()) == TableRuns.Append(old(Contents()), keys, chunk)
      ensures !accepted ==> Contents() == old(Contents())
    {
      var isNew := ValidatePrimaryKey(chunk);
      if !isNew {
        return false;
      }
      var locations := PlaceChunk(chunk);
      OnAppend(chunk, locations);
      accepted := true;
      assert secondary == TableRuns.Append(old(Contents()), keys, chunk).value.secondary;
    }

    /** The loop of Append: fill the active segment, seal it, go on with the rest. */
    method PlaceChunk(chunk: DataChunk) returns (locations: seq<RowLocation>)
      requires placement.Valid() && chunk.Valid()
      modifies this`placement
      ensures placement.Valid() && (placement, locations) == Place(old(placement), chunk)
    {
      var rest := chunk;
      locations := [];
      ghost var all := Place(placement, chunk);
      while rest.size > 0
        modifies this`placement
        invariant placement.Valid() && rest.Valid()
        invariant Place(placement, rest).0 == all.0 && locations + Place(placement, rest).1 == all.1
        decreases rest.size, |placement.active|
      {
        var remaining := MAX_SEGMENT_ROWS - |placement.active|;
        if rest.size <= remaining {
          var appended := AppendInternal(rest);
          locations := locations + appended;
          break;
        }
        var (first, others) := rest.Slice(remaining);
        var appended := AppendInternal(first);
        AppendAssociates(locations, appended, Place(placement.Sealed(), others).1);
        locations := locations + appended;
        placement := placement.Sealed();
        rest := others;
      }
      assert placement == all.0 && locations == all.1;
    }

    method AppendInternal(chunk: DataChunk) returns (locations: seq<RowLocation>)
      requires placement.Valid() && chunk.Valid() && chunk.size <= placement.Room()
      modifies this`placement
      ensures placement == old(placement).(active := old(placement).active + chunk.View())
      ensures locations == Locations(old(placement).activeId, |old(placement).active|, chunk.size)
    {
      var start := |placement.active|;
      placement := placement.(active := placement.active + chunk.View());
      locations := [];
      while |locations| < chunk.size
        invariant |locations| <= chunk.size
        invariant forall i | 0 <= i < |locations| :: locations[i] == RowLocation(placement.activeId, start + i)
      {
        locations := locations + [RowLocation(placement.activeId, start + |locations|)];
      }
    }

    method ValidatePrimaryKey(chunk: DataChunk) returns (ok: bool)
      requires Valid() && chunk.Valid()
      ensures ok <==> keys.primary.None? || FreshKeys(primary.value, KeysOf(keys.primary.value, chunk.View()))
    {
      if primary.None? {
        return true;
      }
      var ks := EncodeAll(keys.primary.value, chunk);
      var index := new PrimaryKeyIndex.Holding(primary.value);
      ok := index.ValidateBatch(ks);
    }

    /** Entries for the appended rows, not visible yet. */
    method OnAppend(chunk: DataChunk, locations: seq<RowLocation>)
      requires Valid() && chunk.Valid() && |locations| == chunk.size
      modifies this`primary, this`secondary
      ensures Valid()
      ensures keys.primary.Some? ==>
                primary == Some(InsertAllUnique(old(primary).value, KeysOf(keys.primary.value, chunk.View()), locations, false))
      ensures forall i | 0 <= i < |keys.secondary| ::
                secondary[i] == InsertAll(old(secondary)[i], KeysOf(keys.secondary[i], chunk.View()), locations, false)
    {
      if primary.Some? {
        var ks := EncodeAll(keys.primary.value, chunk);
        var updated := InsertUniqueRows(primary.value, ks, locations, false);
        primary := Some(updated);
      }
      var i := 0;
      while i < |secondary|
        modifies this`secondary
        invariant 0 <= i <= |secondary| == |keys.secondary|
        invariant forall j | 0 <= j < |secondary| ::
                    secondary[j] == if j < i
                                    then InsertAll(old(secondary)[j], KeysOf(keys.secondary[j], chunk.View()), locations, false)
                                    else old(secondary)[j]
      {
        var ks := EncodeAll(keys.secondary[i], chunk);
        var updated := InsertRows(secondary[i], ks, locations, false);
        secondary := secondary[i := updated];
        i := i + 1;
      }
    }

    /** Flush: `writes` are the segment writes that succeed, `outcome` is what SaveMeta comes to. */
    method Flush(writes: set<nat>, outcome: SaveOutcome) returns (saved: bool, ghost order: seq<nat>)
      requires Valid()
      modifies this, dir
      ensures Valid() && saved == outcome.Saved?
      ensures FlushOrder(old(Contents()), order)
      ensures Contents() == TableRuns.Flush(old(Contents()), order, writes, outcome)
    {
      ghost var before := Contents();
      if placement.active != [] {
        placement := placement.Sealed();
      }
      order := WriteSealed(writes);
      assert Contents() == WriteSegments(before, order, writes);
      saved := outcome.Saved?;
      match outcome {
        case NotOpened =>
        case Torn => dir.saved := None;
        case Saved =>
          dir.saved := Some(metaIds);
          MarkPendingVisible();
          pending := [];
      }
    }

    method WriteSealed(writes: set<nat>) returns (ghost order: seq<nat>)
      requires placement.Valid()
      modifies this`placement, this`metaIds, this`pending, this`lost, dir`files
      ensures NoDuplicates(order) && Members(order) == old(placement).sealed.Keys
      ensures placement == old(placement).(sealed := map[])
      ensures metaIds == old(metaIds) + Written(order, writes) && pending == old(pending) + Written(order, writes)
      ensures dir.files == old(dir.files) + WrittenFiles(old(placement).sealed, Written(order, writes))
      ensures lost == old(lost) + set g | g in old(placement).sealed && g !in Written(order, writes)
    {
      var sealed := placement.sealed;
      var entries := Enumerate(sealed.Keys);
      order := entries;
      WriteEntries(sealed, entries, writes);
      placement := placement.(sealed := map[]);
      lost := lost + set g | g in sealed && g !in Written(order, writes);
    }

    method WriteEntries(sealed: map<nat, seq<Row>>, order: seq<nat>, writes: set<nat>)
      requires forall g | g in order :: g in sealed
      modifies this`metaIds, this`pending, dir`files
      ensures metaIds == old(metaIds) + Written(order, writes) && pending == old(pending) + Written(order, writes)
      ensures dir.files == old(dir.files) + WrittenFiles(sealed, Written(order, writes))
    {
      var k := 0;
      while k < |order|
        invariant 0 <= k <= |order|
        invariant metaIds == old(metaIds) + Written(order[..k], writes)
        invariant pending == old(pending) + Written(order[..k], writes)
        invariant dir.files == old(dir.files) + WrittenFiles(sealed, Written(order[..k], writes))
      {
        var g := order[k];
        assert order[..k + 1] == order[..k] + [g];
        WrittenStep(old(dir.files), sealed, order[..k], writes, g);
        AppendAssociates(old(metaIds), Written(order[..k], writes), [g]);
        AppendAssociates(old(pending), Written(order[..k], writes), [g]);
        WriteOne(g, sealed[g], g in writes);
        k := k + 1;
      }
      assert order[..k] == order;
    }

    /** One segment file; its id is listed only if the write succeeds. */
    method WriteOne(g: nat, rows: seq<Row>, ok: bool)
      modifies this`metaIds, this`pending, dir`files
      ensures metaIds == old(metaIds) + (if ok then [g] else [])
      ensures pending == old(pending) + (if ok then [g] else [])
      ensures dir.files == if ok then old(dir.files)[g := rows] else old(dir.files)
    {
      if ok {
        dir.files := dir.files[g := rows];
        metaIds := metaIds + [g];
        pending := pending + [g];
      }
    }

    method MarkPendingVisible()
      requires Valid()
      modifies this`primary, this`secondary
      ensures Valid()
      ensures primary == if old(primary).None? then None else Some(MarkSegmentsUnique(old(primary).value, pending))
      ensures forall i | 0 <= i < |secondary| :: secondary[i] == MarkSegments(old(secondary)[i], pending)
    {
      var k := 0;
      while k < |pending|
        modifies this`primary, this`secondary
        invariant 0 <= k <= |pending| && Valid()
        invariant primary == if old(primary).None? then None else Some(MarkSegmentsUnique(old(primary).value, pending[..k]))
        invariant forall i | 0 <= i < |secondary| :: secondary[i] == MarkSegments(old(secondary)[i], pending[..k])
      {
        assert pending[..k + 1][..k] == pending[..k];
        if primary.Some? {
          primary := Some(MarkedUnique(primary.value, pending[k]));
        }
        MarkSecondaries(pending[k]);
        k := k + 1;
      }
      assert pending[..k] == pending;
    }

    method MarkSecondaries(segment: nat)
      modifies this`secondary
      ensures |secondary| == |old(secondary)|
      ensures forall i | 0 <= i < |secondary| :: secondary[i] == MarkedAll(old(secondary)[i], segment)
    {
      var i := 0;
      while i < |secondary|
        modifies this`secondary
        invariant 0 <= i <= |secondary| == |old(secondary)|
        invariant forall j | 0 <= j < |secondary| ::
                    secondary[j] == if j < i then MarkedAll(old(secondary)[j], segment) else old(secondary)[j]
      {
        secondary := secondary[i := MarkedAll(secondary[i], segment)];
        i := i + 1;
      }
    }

    /** Opening an existing table: fresh active segment, indexes rebuilt from the segments on disk. */
    constructor Open(keys: Keys, dir: Directory, ghost before: Store)
      requires dir.saved.Some? && before.saved == dir.saved && before.files == dir.files
      requires HasKeys(keys) ==> forall g | g in dir.saved.value :: g in dir.files
      ensures Valid() && this.keys == keys && this.dir == dir && Contents() == Reopen(before, keys)
    {
      this.keys, this.dir := keys, dir;
      var ids := dir.saved.value;
      placement, metaIds, pending, lost := Placement(NextId(ids), [], map[], NextId(ids) + 1), ids, [], {};
      var u, bs := RebuildIndexes(keys, dir, ids);
      primary, secondary := u, bs;
    }

    method LookupSecondary(i: nat, key: EncodedKey) returns (result: seq<RowLocation>)
      requires Valid() && i < |keys.secondary|
      ensures result == LookupIn(Contents().secondary[i], key)
    {
      result := LookupIn(secondary[i], key);
    }
  }

  predicate HasKeys(keys: Keys) {
    keys.primary.Some? || keys.secondary != []
  }

  /**
   * Opening fails on an unreadable segment list, and on a listed segment that is not there when an index has to
   * be rebuilt from it: a table without keys opens all the same.
   */
  method OpenTable(keys: Keys, dir: Directory, ghost before: Store) returns (t: TableStorage?)
    requires before.saved == dir.saved && before.files == dir.files
    ensures t == null <==> dir.saved.None? || (HasKeys(keys) && exists g :: g in dir.saved.value && g !in dir.files)
    ensures t != null ==> fresh(t) && t.Valid() && t.keys == keys && t.dir == dir && t.Contents() == Reopen(before, keys)
  {
    t := null;
    if dir.saved.None? {
      return;
    }
    var k := if HasKeys(keys) then 0 else |dir.saved.value|;
    while k < |dir.saved.value|
      invariant 0 <= k <= |dir.saved.value|
      invariant HasKeys(keys) ==> forall j | 0 <= j < k :: dir.saved.value[j] in dir.files
    {
      if dir.saved.value[k] !in dir.files {
        return;
      }
      k := k + 1;
    }
    t := new TableStorage.Open(keys, dir, before);
  }

  method EncodeAll(keyOf: Row -> EncodedKey, chunk: DataChunk) returns (ks: seq<EncodedKey>)
    requires chunk.Valid()
    ensures ks == KeysOf(keyOf, chunk.View())
  {
    ks := [];
    while |ks| < chunk.size
      invariant |ks| <= chunk.size
      invariant forall i | 0 <= i < |ks| :: ks[i] == keyOf(chunk.View()[i])
    {
      ks := ks + [keyOf(chunk.rows[chunk.start + |ks|])];
    }
  }

  method InsertRows(b: Buckets, ks: seq<EncodedKey>, ls: seq<RowLocation>, visible: bool) returns (r: Buckets)
    requires |ks| == |ls|
    ensures r == InsertAll(b, ks, ls, visible)
  {
    r := b;
    var row := 0;
    while row < |ks|
      invariant 0 <= row <= |ks| && r == InsertAll(b, ks[..row], ls[..row], visible)
    {
      assert ks[..row + 1][..row] == ks[..row] && ls[..row + 1][..row] == ls[..row];
      r := Inserted(r, ks[row], ls[row], visible);
      row := row + 1;
    }
    assert ks[..row] == ks && ls[..row] == ls;
  }

  method InsertUniqueRows(u: Unique, ks: seq<EncodedKey>, ls: seq<RowLocation>, visible: bool) returns (r: Unique)
    requires |ks| == |ls|
    ensures r == InsertAllUnique(u, ks, ls, visible)
  {
    r := u;
    var row := 0;
    while row < |ks|
      invariant 0 <= row <= |ks| && r == InsertAllUnique(u, ks[..row], ls[..row], visible)
    {
      assert ks[..row + 1][..row] == ks[..row] && ls[..row + 1][..row] == ls[..row];
      r := r[ks[row] := IndexEntry(ls[row], visible)];
      row := row + 1;
    }
    assert ks[..row] == ks && ls[..row] == ls;
  }

  /** RebuildIndexes: nothing is read for a table without keys. */
  method RebuildIndexes(keys: Keys, dir: Directory, ids: seq<nat>)
    returns (primary: Option<Unique>, secondary: seq<Buckets>)
    requires HasKeys(keys) ==> forall g | g in ids :: g in dir.files
    ensures var rows, locations := StoredRows(dir.files, ids), StoredLocations(dir.files, ids);
            && |secondary| == |keys.secondary|
            && (forall j | 0 <= j < |secondary| ::
                  secondary[j] == InsertAll(map[], KeysOf(keys.secondary[j], rows), locations, true))
            && primary == match keys.primary
                          case None => None
                          case Some(keyOf) => Some(InsertAllUnique(map[], KeysOf(keyOf, rows), locations, true))
  {
    primary, secondary := None, [];
    if !HasKeys(keys) {
      return;
    }
    var rows, locations := ReadSegments(dir, ids);
    if keys.primary.Some? {
      var updated := InsertUniqueRows(map[], KeysOf(keys.primary.value, rows), locations, true);
      primary := Some(updated);
    }
    while |secondary| < |keys.secondary|
      invariant |secondary| <= |keys.secondary|
      invariant forall j | 0 <= j < |secondary| ::
                  secondary[j] == InsertAll(map[], KeysOf(keys.secondary[j], rows), locations, true)
    {
      var updated := InsertRows(map[], KeysOf(keys.secondary[|secondary|], rows), locations, true);
      secondary := secondary + [updated];
    }
  }

  /** The rebuild loop: segment after segment, row after row. */
  method ReadSegments(dir: Directory, ids: seq<nat>) returns (rows: seq<Row>, locations: seq<RowLocation>)
    ensures rows == StoredRows(dir.files, ids) && locations == StoredLocations(dir.files, ids)
  {
    rows, locations := [], [];
    var k := 0;
    while k < |ids|
      invariant 0 <= k <= |ids|
      invariant rows == StoredRows(dir.files, ids[..k]) && locations == StoredLocations(dir.files, ids[..k])
    {
      assert ids[..k + 1][..k] == ids[..k];
      if ids[k] in dir.files {
        rows := rows + dir.files[ids[k]];
        locations := locations + Locations(ids[k], 0, |dir.files[ids[k]]|);
      }
      k := k + 1;
    }
    assert ids[..k] == ids;
  }
}
