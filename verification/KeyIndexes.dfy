/** The in-memory key indexes: what they hold, and what makes a lookup in one of them exact. */
module KeyIndexes {
  import opened Wrappers
  import opened KeyEncoding
  import opened Sequences

  datatype RowLocation = RowLocation(segment: nat, offset: nat)

  datatype IndexEntry = IndexEntry(location: RowLocation, visible: bool)

  type Buckets = map<EncodedKey, seq<IndexEntry>>

  type Unique = map<EncodedKey, IndexEntry>

  function Inserted(b: Buckets, key: EncodedKey, location: RowLocation, visible: bool): Buckets {
    b[key := (if key in b then b[key] else []) + [IndexEntry(location, visible)]]
  }

  function Marked(e: IndexEntry, segment: nat): IndexEntry {
    if e.location.segment == segment then e.(visible := true) else e
  }

  function MarkedBucket(bucket: seq<IndexEntry>, segment: nat): (r: seq<IndexEntry>)
    ensures |r| == |bucket| && forall i | 0 <= i < |r| :: r[i] == Marked(bucket[i], segment)
  {
    seq(|bucket|, i requires 0 <= i < |bucket| => Marked(bucket[i], segment))
  }

  function MarkedAll(b: Buckets, segment: nat): Buckets {
    map k | k in b :: MarkedBucket(b[k], segment)
  }

  function VisibleLocations(bucket: seq<IndexEntry>): seq<RowLocation> {
    if bucket == [] then []
    else
      var n := |bucket| - 1;
      VisibleLocations(bucket[..n]) + (if bucket[n].visible then [bucket[n].location] else [])
  }

  lemma OneVisible(e: IndexEntry)
    ensures VisibleLocations([e]) == if e.visible then [e.location] else []
  {
    assert [e][..0] == [] && [e][0] == e;
    assert VisibleLocations([e]) == VisibleLocations([e][..0]) + (if e.visible then [e.location] else []);
  }

  /** Locations come in the order in which they were entered. */
  lemma {:induction false} InEntryOrder(a: seq<IndexEntry>, b: seq<IndexEntry>)
    ensures VisibleLocations(a + b) == VisibleLocations(a) + VisibleLocations(b)
  {
    if b == [] {
      assert a + b == a;
    } else {
      var n := |b| - 1;
      InEntryOrder(a, b[..n]);
      assert (a + b)[..|a| + n] == a + b[..n];
    }
  }

  function LookupIn(b: Buckets, key: EncodedKey): seq<RowLocation> {
    if key in b then VisibleLocations(b[key]) else []
  }

  /** src/storage/index/secondary_key_index.cpp. */
  class SecondaryKeyIndex {
    var entries: Buckets

    constructor ()
      ensures entries == map[]
    {
      entries := map[];
    }

    method Insert(key: EncodedKey, location: RowLocation, visible: bool)
      modifies this
      ensures entries == Inserted(old(entries), key, location, visible)
    {
      var bucket := if key in entries then entries[key] else [];
      entries := entries[key := bucket + [IndexEntry(location, visible)]];
    }

    method LookupEqual(key: EncodedKey) returns (result: seq<RowLocation>)
      ensures result == LookupIn(entries, key)
    {
      result := [];
      if key !in entries {
        return;
      }
      var bucket := entries[key];
      var i := 0;
      while i < |bucket|
        invariant 0 <= i <= |bucket| && result == VisibleLocations(bucket[..i])
      {
        assert bucket[..i + 1][..i] == bucket[..i];
        if bucket[i].visible {
          result := result + [bucket[i].location];
        }
        i := i + 1;
      }
      assert bucket[..i] == bucket;
    }

    method MarkSegmentVisible(segment: nat)
      modifies this
      ensures entries == MarkedAll(old(entries), segment)
    {
      ghost var before := entries;
      var todo := entries.Keys;
      while todo != {}
        invariant todo <= before.Keys == entries.Keys
        invariant forall k | k in before ::
                    entries[k] == if k in todo then before[k] else MarkedBucket(before[k], segment)
      {
        var k :| k in todo;
        var bucket := MarkBucket(entries[k], segment);
        entries, todo := entries[k := bucket], todo - {k};
      }
    }
  }

  method MarkBucket(bucket: seq<IndexEntry>, segment: nat) returns (marked: seq<IndexEntry>)
    ensures marked == MarkedBucket(bucket, segment)
  {
    marked := bucket;
    var i := 0;
    while i < |bucket|
      invariant 0 <= i <= |bucket| == |marked|
      invariant forall j | 0 <= j < |bucket| :: marked[j] == if j < i then Marked(bucket[j], segment) else bucket[j]
    {
      if marked[i].location.segment == segment {
        marked := marked[i := marked[i].(visible := true)];
      }
      i := i + 1;
    }
  }

  /** A unique index seen as buckets of one. */
  function AsBuckets(u: Unique): Buckets {
    map k | k in u :: [u[k]]
  }

  function MarkedUnique(u: Unique, segment: nat): Unique {
    map k | k in u :: Marked(u[k], segment)
  }

  predicate FreshKeys(u: Unique, keys: seq<EncodedKey>) {
    && (forall i | 0 <= i < |keys| :: keys[i] !in u)
    && (forall i, j | 0 <= i < j < |keys| :: keys[i] != keys[j])
  }

  /** src/storage/index/primary_key_index.cpp. */
  class PrimaryKeyIndex {
    var entries: Unique

    constructor ()
      ensures entries == map[]
    {
      entries := map[];
    }

    constructor Holding(entries: Unique)
      ensures this.entries == entries
    {
      this.entries := entries;
    }

    /** The batch may be inserted: no key of it twice, none of it taken, visible or not. */
    method ValidateBatch(keys: seq<EncodedKey>) returns (ok: bool)
      ensures ok <==> FreshKeys(entries, keys)
    {
      var batchKeys: set<EncodedKey> := {};
      var i := 0;
      while i < |keys|
        invariant 0 <= i <= |keys|
        invariant batchKeys == set j | 0 <= j < i :: keys[j]
        invariant FreshKeys(entries, keys[..i])
      {
        if keys[i] in batchKeys {
          return false;
        }
        batchKeys := batchKeys + {keys[i]};
        if keys[i] in entries {
          return false;
        }
        i := i + 1;
      }
      assert keys[..i] == keys;
      ok := true;
    }

    method Insert(key: EncodedKey, location: RowLocation, visible: bool)
      modifies this
      ensures entries == old(entries)[key := IndexEntry(location, visible)]
    {
      entries := entries[key := IndexEntry(location, visible)];
    }

    method Lookup(key: EncodedKey) returns (location: Option<RowLocation>)
      ensures LookupIn(AsBuckets(entries), key) == if location.Some? then [location.value] else []
    {
      if key !in entries || !entries[key].visible {
        location := None;
      } else {
        location := Some(entries[key].location);
      }
      if key in entries {
        OneVisible(entries[key]);
      }
    }

    method MarkSegmentVisible(segment: nat)
      modifies this
      ensures entries == MarkedUnique(old(entries), segment)
    {
      ghost var before := entries;
      var todo := entries.Keys;
      while todo != {}
        invariant todo <= before.Keys == entries.Keys
        invariant forall k | k in before :: entries[k] == if k in todo then before[k] else Marked(before[k], segment)
      {
        var k :| k in todo;
        if entries[k].location.segment == segment {
          entries := entries[k := entries[k].(visible := true)];
        }
        todo := todo - {k};
      }
    }
  }

  lemma AsBucketsInsert(u: Unique, key: EncodedKey, location: RowLocation, visible: bool)
    requires key !in u
    ensures AsBuckets(u[key := IndexEntry(location, visible)]) == Inserted(AsBuckets(u), key, location, visible)
  {
    var e := IndexEntry(location, visible);
    assert [] + [e] == [e];
  }

  lemma AsBucketsMark(u: Unique, segment: nat)
    ensures AsBuckets(MarkedUnique(u, segment)) == MarkedAll(AsBuckets(u), segment)
  {
    forall k | k in u ensures MarkedBucket([u[k]], segment) == [Marked(u[k], segment)] {
    }
  }

  // ---------- In step with the data ----------

  /**
   * `at` gives the key of the row stored at a location, `lost` the segments whose rows are gone (their
   * write failed), `visible` the segments queries may see.
   */
  predicate EntryOk(e: IndexEntry, key: EncodedKey, at: RowLocation -> Option<EncodedKey>, lost: set<nat>,
                    visible: set<nat>)
  {
    && (e.visible <==> e.location.segment in visible)
    && (e.location.segment !in lost ==> at(e.location) == Some(key))
  }

  predicate BucketOk(bucket: seq<IndexEntry>, key: EncodedKey, at: RowLocation -> Option<EncodedKey>, lost: set<nat>,
                     visible: set<nat>)
  {
    && (forall j | 0 <= j < |bucket| :: EntryOk(bucket[j], key, at, lost, visible))
    && (forall i, j | 0 <= i < j < |bucket| :: bucket[i].location != bucket[j].location)
  }

  predicate HasEntry(b: Buckets, key: EncodedKey, location: RowLocation) {
    key in b && exists j | 0 <= j < |b[key]| :: b[key][j].location == location
  }

  ghost predicate InSync(b: Buckets, at: RowLocation -> Option<EncodedKey>, lost: set<nat>, visible: set<nat>) {
    && (forall k | k in b :: BucketOk(b[k], k, at, lost, visible))
    && (forall l | at(l).Some? :: HasEntry(b, at(l).value, l))
  }

  /** A new row entered under its key, at a place that held nothing. */
  lemma InsertInSync(b: Buckets, at: RowLocation -> Option<EncodedKey>, at': RowLocation -> Option<EncodedKey>,
                     lost: set<nat>, visible: set<nat>, key: EncodedKey, location: RowLocation)
    requires InSync(b, at, lost, visible) && at(location) == None && location.segment !in lost
    requires forall l :: at'(l) == if l == location then Some(key) else at(l)
    ensures InSync(Inserted(b, key, location, location.segment in visible), at', lost, visible)
  {
    var b' := Inserted(b, key, location, location.segment in visible);
    forall k | k in b' ensures BucketOk(b'[k], k, at', lost, visible) {
      if k in b {
        assert BucketOk(b[k], k, at, lost, visible);
        assert forall j | 0 <= j < |b[k]| :: EntryOk(b[k][j], k, at, lost, visible);
      }
    }
    forall l | at'(l).Some? ensures HasEntry(b', at'(l).value, l) {
      if l == location {
        assert b'[key][|b'[key]| - 1].location == l;
      } else {
        var k := at(l).value;
        assert HasEntry(b, k, l);
        var j :| 0 <= j < |b[k]| && b[k][j].location == l;
        assert b'[k][j].location == l;
      }
    }
  }

  /** A segment made visible. */
  lemma MarkInSync(b: Buckets, at: RowLocation -> Option<EncodedKey>, lost: set<nat>, visible: set<nat>, segment: nat)
    requires InSync(b, at, lost, visible)
    ensures InSync(MarkedAll(b, segment), at, lost, visible + {segment})
  {
    var b' := MarkedAll(b, segment);
    forall k | k in b' ensures BucketOk(b'[k], k, at, lost, visible + {segment}) {
      assert BucketOk(b[k], k, at, lost, visible);
    }
    forall l | at(l).Some? ensures HasEntry(b', at(l).value, l) {
      var k := at(l).value;
      assert HasEntry(b, k, l);
      var j :| 0 <= j < |b[k]| && b[k][j].location == l;
      assert b'[k][j].location == l;
    }
  }

  /** Segments whose write failed: their rows are gone, their entries stay behind, invisible. */
  lemma LoseInSync(b: Buckets, at: RowLocation -> Option<EncodedKey>, at': RowLocation -> Option<EncodedKey>,
                   lost: set<nat>, lost': set<nat>, visible: set<nat>)
    requires InSync(b, at, lost, visible) && lost <= lost'
    requires forall l :: at'(l) == if l.segment in lost' then None else at(l)
    ensures InSync(b, at', lost', visible)
  {
    forall k | k in b ensures BucketOk(b[k], k, at', lost', visible) {
      assert BucketOk(b[k], k, at, lost, visible);
      assert forall j | 0 <= j < |b[k]| :: EntryOk(b[k][j], k, at, lost, visible);
    }
    forall l | at'(l).Some? ensures HasEntry(b, at'(l).value, l) {
      assert at(l) == at'(l);
    }
  }

  lemma {:induction false} VisibleLocationsExact(bucket: seq<IndexEntry>, l: RowLocation)
    ensures l in VisibleLocations(bucket) <==> exists j | 0 <= j < |bucket| :: bucket[j] == IndexEntry(l, true)
  {
    if bucket != [] {
      var n := |bucket| - 1;
      VisibleLocationsExact(bucket[..n], l);
      assert bucket == bucket[..n] + [bucket[n]];
    }
  }

  lemma {:induction false} VisibleLocationsOnce(bucket: seq<IndexEntry>)
    requires forall i, j | 0 <= i < j < |bucket| :: bucket[i].location != bucket[j].location
    ensures NoDuplicates(VisibleLocations(bucket))
  {
    if bucket != [] {
      var n := |bucket| - 1;
      VisibleLocationsOnce(bucket[..n]);
      VisibleLocationsExact(bucket[..n], bucket[n].location);
      if bucket[n].visible {
        NoDuplicatesAppend(VisibleLocations(bucket[..n]), bucket[n].location);
      }
    }
  }

  /** A lookup in an index in sync returns each visible row with that key once, and nothing else. */
  lemma LookupExact(b: Buckets, at: RowLocation -> Option<EncodedKey>, lost: set<nat>, visible: set<nat>,
                    key: EncodedKey, l: RowLocation)
    requires InSync(b, at, lost, visible) && lost !! visible
    ensures l in LookupIn(b, key) <==> at(l) == Some(key) && l.segment in visible
    ensures NoDuplicates(LookupIn(b, key))
  {
    if key in b {
      assert BucketOk(b[key], key, at, lost, visible);
      VisibleLocationsExact(b[key], l);
      VisibleLocationsOnce(b[key]);
      if l in LookupIn(b, key) {
        var j :| 0 <= j < |b[key]| && b[key][j] == IndexEntry(l, true);
        assert EntryOk(b[key][j], key, at, lost, visible);
      }
    }
    if at(l) == Some(key) && l.segment in visible {
      assert HasEntry(b, key, l);
      var j :| 0 <= j < |b[key]| && b[key][j].location == l;
      assert EntryOk(b[key][j], key, at, lost, visible);
    }
  }

  /** A unique index in sync: no two stored rows share a key. */
  lemma UniqueInSync(u: Unique, at: RowLocation -> Option<EncodedKey>, lost: set<nat>, visible: set<nat>,
                     l: RowLocation, m: RowLocation)
    requires InSync(AsBuckets(u), at, lost, visible) && at(l).Some? && at(l) == at(m)
    ensures l == m && at(l).value in u
  {
    assert HasEntry(AsBuckets(u), at(l).value, l) && HasEntry(AsBuckets(u), at(m).value, m);
  }
}
