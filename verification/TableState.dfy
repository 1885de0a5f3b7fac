/** What a table holds in memory and on disk, and what its operations do to it, as values. */
module TableState {
  import opened Wrappers
  import opened Values
  import opened Sequences
  import opened KeyEncoding
  import opened KeyIndexes

  const MAX_SEGMENT_ROWS: nat := 65536

  /** The declared keys, each as the encoding of a row's key columns. */
  datatype Keys = Keys(primary: Option<Row -> EncodedKey>, secondary: seq<Row -> EncodedKey>)

  /** src/storage/datachunk.h: a view of shared rows. */
  datatype DataChunk = DataChunk(rows: seq<Row>, start: nat, size: nat) {
    predicate Valid() {
      start + size <= |rows|
    }

    function View(): (v: seq<Row>)
      requires Valid()
      ensures |v| == size
    {
      rows[start..start + size]
    }

    /** Slice: the part kept, and the rest, whose start is the boundary itself. */
    function Slice(boundary: nat): (parts: (DataChunk, DataChunk))
      requires Valid() && boundary <= size
      ensures parts.0.Valid() && parts.1.Valid()
    {
      (this.(size := boundary), this.(start := boundary, size := size - boundary))
    }
  }

  // ---------- Placing rows ----------

  datatype Placement = Placement(activeId: nat, active: seq<Row>, sealed: map<nat, seq<Row>>, nextId: nat) {
    predicate Valid() {
      && nextId == activeId + 1 && |active| <= MAX_SEGMENT_ROWS
      && forall g | g in sealed :: g < activeId && |sealed[g]| <= MAX_SEGMENT_ROWS
    }

    function RowIn(l: RowLocation): Option<Row> {
      if l.segment == activeId then RowAt(active, l.offset)
      else if l.segment in sealed then RowAt(sealed[l.segment], l.offset)
      else None
    }

    function Room(): nat
      requires Valid()
    {
      MAX_SEGMENT_ROWS - |active|
    }

    /** SealActiveSegment, then CreateActiveSegment. */
    function Sealed(): (p: Placement)
      requires Valid()
      ensures p.Valid() && p.activeId == activeId + 1 && p.active == []
    {
      Placement(nextId, [], sealed[activeId := active], nextId + 1)
    }
  }

  function RowAt(rows: seq<Row>, offset: nat): Option<Row> {
    if offset < |rows| then Some(rows[offset]) else None
  }

  function Locations(segment: nat, offset: nat, count: nat): (ls: seq<RowLocation>)
    ensures |ls| == count
    ensures forall i | 0 <= i < count :: ls[i] == RowLocation(segment, offset + i)
  {
    seq(count, i requires 0 <= i < count => RowLocation(segment, offset + i))
  }

  /** The loop of Append: where every row goes, and the segments afterwards. */
  function Place(p: Placement, chunk: DataChunk): (r: (Placement, seq<RowLocation>))
    requires p.Valid() && chunk.Valid()
    ensures r.0.Valid() && |r.1| == chunk.size && p.activeId <= r.0.activeId
    decreases chunk.size, |p.active|
  {
    if chunk.size == 0 then (p, [])
    else if chunk.size <= p.Room() then
      (p.(active := p.active + chunk.View()), Locations(p.activeId, |p.active|, chunk.size))
    else
      var (first, rest) := chunk.Slice(p.Room());
      var (q, ls) := Place(p.(active := p.active + first.View()).Sealed(), rest);
      (q, Locations(p.activeId, |p.active|, first.size) + ls)
  }

  /** The rows the loop copies, in the order of their locations. */
  function Copied(chunk: DataChunk, room: nat): (rows: seq<Row>)
    requires chunk.Valid() && room <= MAX_SEGMENT_ROWS
    ensures |rows| == chunk.size
    decreases chunk.size, MAX_SEGMENT_ROWS - room
  {
    if chunk.size <= room then chunk.View()
    else
      var (first, rest) := chunk.Slice(room);
      first.View() + Copied(rest, MAX_SEGMENT_ROWS)
  }

  /** Every row ends up at its location, none replaces another, and nothing else moves. */
  ghost predicate PlacedAt(p: Placement, q: Placement, ls: seq<RowLocation>, rows: seq<Row>) {
    && |ls| == |rows| && NoDuplicates(ls)
    && (forall j | 0 <= j < |ls| :: p.RowIn(ls[j]) == None && q.RowIn(ls[j]) == Some(rows[j]))
    && (forall j | 0 <= j < |ls| :: p.activeId <= ls[j].segment <= q.activeId)
    && (forall l | l !in ls :: q.RowIn(l) == p.RowIn(l))
  }

  lemma PlaceHere(p: Placement, rows: seq<Row>)
    requires p.Valid() && |rows| <= p.Room()
    ensures PlacedAt(p, p.(active := p.active + rows), Locations(p.activeId, |p.active|, |rows|), rows)
  {
    var ls := Locations(p.activeId, |p.active|, |rows|);
    var q := p.(active := p.active + rows);
    forall o | |p.active| <= o < |p.active| + |rows| ensures RowLocation(p.activeId, o) in ls {
      assert ls[o - |p.active|] == RowLocation(p.activeId, o);
    }
    forall l | l !in ls ensures q.RowIn(l) == p.RowIn(l) {
      assert l == RowLocation(l.segment, l.offset);
    }
  }

  lemma SealMovesNothing(p: Placement, l: RowLocation)
    requires p.Valid()
    ensures p.Sealed().RowIn(l) == p.RowIn(l)
  {
  }

  lemma PlacedThen(p: Placement, q: Placement, r: Placement, a: seq<RowLocation>, x: seq<Row>,
                   b: seq<RowLocation>, y: seq<Row>)
    requires PlacedAt(p, q, a, x) && PlacedAt(q, r, b, y) && p.activeId <= q.activeId <= r.activeId
    ensures PlacedAt(p, r, a + b, x + y)
  {
    assert forall k | 0 <= k < |a| :: q.RowIn(a[k]) == Some(x[k]);
    forall i | 0 <= i < |b| ensures b[i] !in a && p.RowIn(b[i]) == None {
      assert q.RowIn(b[i]) == None;
    }
  }

  lemma {:induction false} PlaceIsCopied(p: Placement, chunk: DataChunk)
    requires p.Valid() && chunk.Valid()
    ensures PlacedAt(p, Place(p, chunk).0, Place(p, chunk).1, Copied(chunk, p.Room()))
    decreases chunk.size, |p.active|
  {
    if chunk.size == 0 {
    } else if chunk.size <= p.Room() {
      PlaceHere(p, chunk.View());
    } else {
      var (first, rest) := chunk.Slice(p.Room());
      var full := p.(active := p.active + first.View());
      PlaceHere(p, first.View());
      var next := full.Sealed();
      forall l ensures next.RowIn(l) == full.RowIn(l) {
        SealMovesNothing(full, l);
      }
      PlaceIsCopied(next, rest);
      PlacedThen(p, next, Place(next, rest).0, Locations(p.activeId, |p.active|, first.size), first.View(),
                 Place(next, rest).1, Copied(rest, MAX_SEGMENT_ROWS));
    }
  }

  // ---------- When slicing copies the right rows ----------

  /** At most one slice of the chunk may start past row zero. */
  predicate SlicesRight(size: nat, room: nat) {
    size <= room + MAX_SEGMENT_ROWS || (room == 0 && size <= 2 * MAX_SEGMENT_ROWS)
  }

  lemma CopiedRight(rows: seq<Row>, room: nat)
    requires room <= MAX_SEGMENT_ROWS && SlicesRight(|rows|, room)
    ensures Copied(DataChunk(rows, 0, |rows|), room) == rows
  {
    var chunk := DataChunk(rows, 0, |rows|);
    if chunk.size > room {
      var (first, rest) := chunk.Slice(room);
      if rest.size > MAX_SEGMENT_ROWS {
        var (second, last) := rest.Slice(MAX_SEGMENT_ROWS);
        assert Copied(rest, MAX_SEGMENT_ROWS) == second.View() + last.View();
      }
    }
  }

  lemma CopiedWrong(rows: seq<Row>, room: nat)
    requires room <= MAX_SEGMENT_ROWS && !SlicesRight(|rows|, room)
    ensures var j := if room == 0 then 2 * MAX_SEGMENT_ROWS else room + MAX_SEGMENT_ROWS;
            j < |rows| && Copied(DataChunk(rows, 0, |rows|), room)[j] == rows[MAX_SEGMENT_ROWS]
  {
    var chunk := DataChunk(rows, 0, |rows|);
    var (first, rest) := chunk.Slice(room);
    var (second, third) := rest.Slice(MAX_SEGMENT_ROWS);
    CopiedFirst(third);
    if room == 0 {
      var (more, fourth) := third.Slice(MAX_SEGMENT_ROWS);
      CopiedFirst(fourth);
      assert Copied(third, MAX_SEGMENT_ROWS) == more.View() + Copied(fourth, MAX_SEGMENT_ROWS);
    }
    assert Copied(rest, MAX_SEGMENT_ROWS) == second.View() + Copied(third, MAX_SEGMENT_ROWS);
    assert Copied(chunk, room) == first.View() + Copied(rest, MAX_SEGMENT_ROWS);
  }

  lemma CopiedFirst(chunk: DataChunk)
    requires chunk.Valid() && chunk.size > 0
    ensures Copied(chunk, MAX_SEGMENT_ROWS)[0] == chunk.rows[chunk.start]
  {
  }

  function Numbered(n: nat): (rows: seq<Row>)
    ensures |rows| == n && forall j | 0 <= j < n :: rows[j] == [I32(j)]
  {
    seq(n, j => [I32(j)])
  }

  /**
   * Slice keeps its own boundary as the start of the rest, so an Append copies the rows it was given, for all
   * contents, exactly when it needs no second slice away from row zero.
   */
  lemma AppendCopiesIff(size: nat, room: nat)
    requires room <= MAX_SEGMENT_ROWS
    ensures (forall rows: seq<Row> | |rows| == size :: Copied(DataChunk(rows, 0, size), room) == rows)
            <==> SlicesRight(size, room)
  {
    if SlicesRight(size, room) {
      forall rows: seq<Row> | |rows| == size ensures Copied(DataChunk(rows, 0, size), room) == rows {
        CopiedRight(rows, room);
      }
    } else {
      var rows := Numbered(size);
      CopiedWrong(rows, room);
      assert Copied(DataChunk(rows, 0, size), room) != rows;
    }
  }
}
