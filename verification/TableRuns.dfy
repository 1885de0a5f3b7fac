/** Append, Flush and reopen as steps of a store, and what every run of them keeps. */
module TableRuns {
  import opened Wrappers
  import opened Values
  import opened Sequences
  import opened KeyEncoding
  import opened KeyIndexes
  import opened TableState

  /**
   * `files` and `saved` are on disk: the segment files and the segment list of table.meta (None once a
   * torn write has spoilt it). `lost` is a history variable: the segments whose write failed.
   */
  datatype Store = Store(
    placement: Placement,
    metaIds: seq<nat>,
    pending: seq<nat>,
    primary: Option<Unique>,
    secondary: seq<Buckets>,
    files: map<nat, seq<Row>>,
    saved: Option<seq<nat>>,
    lost: set<nat>)
  {
    /** The row stored at a location of a segment that is active, sealed or in the segment list. */
    function RowOn(l: RowLocation): Option<Row> {
      if placement.RowIn(l).Some? then placement.RowIn(l)
      else if l.segment in metaIds && l.segment in files then RowAt(files[l.segment], l.offset)
      else None
    }

    /** The segments whose index entries queries see. */
    function Visible(): set<nat> {
      (set g | g in metaIds) - (set g | g in pending)
    }
  }

  function KeyOn(s: Store, keyOf: Row -> EncodedKey): RowLocation -> Option<EncodedKey> {
    l => match s.RowOn(l) case None => None case Some(row) => Some(keyOf(row))
  }

  // ---------- Index updates in bulk ----------

  function KeysOf(keyOf: Row -> EncodedKey, rows: seq<Row>): (ks: seq<EncodedKey>)
    ensures |ks| == |rows| && forall i | 0 <= i < |rows| :: ks[i] == keyOf(rows[i])
  {
    seq(|rows|, i requires 0 <= i < |rows| => keyOf(rows[i]))
  }

  function InsertAll(b: Buckets, ks: seq<EncodedKey>, ls: seq<RowLocation>, visible: bool): Buckets
    requires |ks| == |ls|
  {
    if ks == [] then b
    else
      var n := |ks| - 1;
      Inserted(InsertAll(b, ks[..n], ls[..n], visible), ks[n], ls[n], visible)
  }

  function InsertAllUnique(u: Unique, ks: seq<EncodedKey>, ls: seq<RowLocation>, visible: bool): Unique
    requires |ks| == |ls|
  {
    if ks == [] then u
    else
      var n := |ks| - 1;
      InsertAllUnique(u, ks[..n], ls[..n], visible)[ks[n] := IndexEntry(ls[n], visible)]
  }

  lemma {:induction false} InsertAllUniqueKeys(u: Unique, ks: seq<EncodedKey>, ls: seq<RowLocation>, visible: bool,
                                               k: EncodedKey)
    requires |ks| == |ls|
    ensures k in InsertAllUnique(u, ks, ls, visible) <==> k in u || k in ks
  {
    if ks != [] {
      var n := |ks| - 1;
      InsertAllUniqueKeys(u, ks[..n], ls[..n], visible, k);
      assert k in ks <==> k in ks[..n] || k == ks[n] by { assert ks == ks[..n] + [ks[n]]; }
    }
  }

  lemma {:induction false} InsertAllUniqueAsBuckets(u: Unique, ks: seq<EncodedKey>, ls: seq<RowLocation>, visible: bool)
    requires |ks| == |ls| && FreshKeys(u, ks)
    ensures AsBuckets(InsertAllUnique(u, ks, ls, visible)) == InsertAll(AsBuckets(u), ks, ls, visible)
  {
    if ks != [] {
      var n := |ks| - 1;
      InsertAllUniqueAsBuckets(u, ks[..n], ls[..n], visible);
      InsertAllUniqueKeys(u, ks[..n], ls[..n], visible, ks[n]);
      AsBucketsInsert(InsertAllUnique(u, ks[..n], ls[..n], visible), ks[n], ls[n], visible);
    }
  }

  lemma {:induction false} InsertAllInSync(b: Buckets, at: RowLocation -> Option<EncodedKey>,
                                           at': RowLocation -> Option<EncodedKey>, lost: set<nat>, visible: set<nat>,
                                           ks: seq<EncodedKey>, ls: seq<RowLocation>, seen: bool)
    requires InSync(b, at, lost, visible) && |ks| == |ls| && NoDuplicates(ls)
    requires forall j | 0 <= j < |ls| ::
               at(ls[j]) == None && ls[j].segment !in lost && (seen <==> ls[j].segment in visible)
               && at'(ls[j]) == Some(ks[j])
    requires forall l | l !in ls :: at'(l) == at(l)
    ensures InSync(InsertAll(b, ks, ls, seen), at', lost, visible)
  {
    if ks == [] {
      forall l ensures at'(l) == at(l) {
        assert l !in ls;
      }
      InSyncExtensional(b, at, at', lost, visible);
    } else {
      var n := |ks| - 1;
      var mid := (l: RowLocation) => if l == ls[n] then None else at'(l);
      assert ls == ls[..n] + [ls[n]];
      InsertAllInSync(b, at, mid, lost, visible, ks[..n], ls[..n], seen);
      InsertInSync(InsertAll(b, ks[..n], ls[..n], seen), mid, at', lost, visible, ks[n], ls[n]);
    }
  }

  lemma InSyncExtensional(b: Buckets, at: RowLocation -> Option<EncodedKey>, at': RowLocation -> Option<EncodedKey>,
                          lost: set<nat>, visible: set<nat>)
    requires InSync(b, at, lost, visible) && forall l :: at'(l) == at(l)
    ensures InSync(b, at', lost, visible)
  {
    forall k | k in b ensures BucketOk(b[k], k, at', lost, visible) {
      assert BucketOk(b[k], k, at, lost, visible);
      assert forall j | 0 <= j < |b[k]| :: EntryOk(b[k][j], k, at, lost, visible);
    }
    forall l | at'(l).Some? ensures HasEntry(b, at'(l).value, l) {
      assert at(l) == at'(l);
    }
  }

  function MarkSegments(b: Buckets, segments: seq<nat>): Buckets {
    if segments == [] then b else MarkedAll(MarkSegments(b, segments[..|segments| - 1]), segments[|segments| - 1])
  }

  function MarkSegmentsUnique(u: Unique, segments: seq<nat>): Unique {
    if segments == [] then u
    else MarkedUnique(MarkSegmentsUnique(u, segments[..|segments| - 1]), segments[|segments| - 1])
  }

  lemma {:induction false} MarkSegmentsAsBuckets(u: Unique, segments: seq<nat>)
    ensures AsBuckets(MarkSegmentsUnique(u, segments)) == MarkSegments(AsBuckets(u), segments)
  {
    if segments != [] {
      MarkSegmentsAsBuckets(u, segments[..|segments| - 1]);
      AsBucketsMark(MarkSegmentsUnique(u, segments[..|segments| - 1]), segments[|segments| - 1]);
    }
  }

  lemma {:induction false} MarkSegmentsInSync(b: Buckets, at: RowLocation -> Option<EncodedKey>, lost: set<nat>,
                                              visible: set<nat>, segments: seq<nat>)
    requires InSync(b, at, lost, visible)
    ensures InSync(MarkSegments(b, segments), at, lost, visible + set g | g in segments)
  {
    if segments == [] {
      assert visible + (set g | g in segments) == visible;
    } else {
      var n := |segments| - 1;
      MarkSegmentsInSync(b, at, lost, visible, segments[..n]);
      MarkInSync(MarkSegments(b, segments[..n]), at, lost, visible + (set g | g in segments[..n]), segments[n]);
      assert segments == segments[..n] + [segments[n]];
      assert visible + (set g | g in segments) == visible + (set g | g in segments[..n]) + {segments[n]};
    }
  }

  // ---------- The steps ----------

  /** Append; None when the primary key check refuses the batch. */
  function Append(s: Store, keys: Keys, chunk: DataChunk): Option<Store>
    requires s.placement.Valid() && chunk.Valid()
    requires s.primary.Some? == keys.primary.Some? && |s.secondary| == |keys.secondary|
  {
    if s.primary.Some? && !FreshKeys(s.primary.value, KeysOf(keys.primary.value, chunk.View())) then None
    else
      var (placed, ls) := Place(s.placement, chunk);
      Some(s.(placement := placed,
              primary := if s.primary.None? then None
                         else Some(InsertAllUnique(s.primary.value, KeysOf(keys.primary.value, chunk.View()), ls, false)),
              secondary := seq(|s.secondary|, i requires 0 <= i < |s.secondary| =>
                             InsertAll(s.secondary[i], KeysOf(keys.secondary[i], chunk.View()), ls, false))))
  }

  /** What SaveMeta comes to: written, not opened (the old file stays), or torn while being rewritten. */
  datatype SaveOutcome = Saved | NotOpened | Torn

  function SealNonEmpty(p: Placement): (q: Placement)
    requires p.Valid()
    ensures q.Valid()
  {
    if p.active != [] then p.Sealed() else p
  }

  function Written(order: seq<nat>, ok: set<nat>): (ids: seq<nat>)
    ensures forall g :: g in ids <==> g in order && g in ok
  {
    if order == [] then []
    else
      var n := |order| - 1;
      assert order == order[..n] + [order[n]];
      Written(order[..n], ok) + (if order[n] in ok then [order[n]] else [])
  }

  lemma {:induction false} WrittenOnce(order: seq<nat>, ok: set<nat>)
    requires NoDuplicates(order)
    ensures NoDuplicates(Written(order, ok))
  {
    if order != [] {
      WrittenOnce(order[..|order| - 1], ok);
    }
  }

  function WrittenFiles(sealed: map<nat, seq<Row>>, ids: seq<nat>): map<nat, seq<Row>> {
    map g | g in sealed && g in ids :: sealed[g]
  }

  lemma WrittenStep(files: map<nat, seq<Row>>, sealed: map<nat, seq<Row>>, order: seq<nat>, ok: set<nat>, g: nat)
    requires g in sealed
    ensures Written(order + [g], ok) == Written(order, ok) + (if g in ok then [g] else [])
    ensures files + WrittenFiles(sealed, Written(order + [g], ok))
            == if g in ok then (files + WrittenFiles(sealed, Written(order, ok)))[g := sealed[g]]
               else files + WrittenFiles(sealed, Written(order, ok))
  {
    assert (order + [g])[..|order|] == order;
  }

  /** The sealed segments, written in some order; `ok` are the ones whose write succeeds. */
  function WriteSegments(s: Store, order: seq<nat>, ok: set<nat>): Store
    requires s.placement.Valid()
  {
    var p := SealNonEmpty(s.placement);
    var ids := Written(order, ok);
    s.(placement := p.(sealed := map[]),
       metaIds := s.metaIds + ids,
       pending := s.pending + ids,
       files := s.files + WrittenFiles(p.sealed, ids),
       lost := s.lost + set g | g in p.sealed && g !in ids)
  }

  function Save(s: Store, outcome: SaveOutcome): Store {
    match outcome
    case NotOpened => s
    case Torn => s.(saved := None)
    case Saved =>
      s.(saved := Some(s.metaIds),
         pending := [],
         primary := if s.primary.None? then None else Some(MarkSegmentsUnique(s.primary.value, s.pending)),
         secondary := seq(|s.secondary|, i requires 0 <= i < |s.secondary| => MarkSegments(s.secondary[i], s.pending)))
  }

  /** `order` lists the sealed segments, in whatever order the hash map gives them. */
  predicate FlushOrder(s: Store, order: seq<nat>)
    requires s.placement.Valid()
  {
    NoDuplicates(order) && Members(order) == SealNonEmpty(s.placement).sealed.Keys
  }

  function Flush(s: Store, order: seq<nat>, ok: set<nat>, outcome: SaveOutcome): Store
    requires s.placement.Valid()
  {
    Save(WriteSegments(s, order, ok), outcome)
  }

  function NextId(ids: seq<nat>): (next: nat)
    ensures forall g | g in ids :: g < next
    ensures if ids == [] then next == 0 else next > 0 && next - 1 in ids
  {
    if ids == [] then 0
    else
      var n := |ids| - 1;
      var before := NextId(ids[..n]);
      assert ids == ids[..n] + [ids[n]];
      if ids[n] >= before then ids[n] + 1 else before
  }

  /** The rows of the listed segments with their locations, in the order RebuildIndexes reads them. */
  function StoredLocations(files: map<nat, seq<Row>>, ids: seq<nat>): seq<RowLocation> {
    if ids == [] then []
    else
      var n := |ids| - 1;
      StoredLocations(files, ids[..n]) + (if ids[n] in files then Locations(ids[n], 0, |files[ids[n]]|) else [])
  }

  function StoredRows(files: map<nat, seq<Row>>, ids: seq<nat>): (rows: seq<Row>)
    ensures |rows| == |StoredLocations(files, ids)|
  {
    if ids == [] then []
    else
      var n := |ids| - 1;
      StoredRows(files, ids[..n]) + (if ids[n] in files then files[ids[n]] else [])
  }

  /** Opening a table again: what disk holds, with the indexes rebuilt from it. */
  function Reopen(s: Store, keys: Keys): Store
    requires s.saved.Some?
  {
    var ids := s.saved.value;
    var next := NextId(ids);
    var rows, ls := StoredRows(s.files, ids), StoredLocations(s.files, ids);
    Store(Placement(next, [], map[], next + 1), ids, [],
          if keys.primary.None? then None
          else Some(InsertAllUnique(map[], KeysOf(keys.primary.value, rows), ls, true)),
          seq(|keys.secondary|, i requires 0 <= i < |keys.secondary| =>
                InsertAll(map[], KeysOf(keys.secondary[i], rows), ls, true)),
          s.files, s.saved, {})
  }

  /** TableStorage::Create on an empty directory: an empty segment list is written at once. */
  function Empty(keys: Keys): Store {
    Store(Placement(0, [], map[], 1), [], [], if keys.primary.None? then None else Some(map[]),
          seq(|keys.secondary|, _ => map[]), map[], Some([]), {})
  }
}
