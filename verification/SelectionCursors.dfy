/** SelectionCursor and the gathers driven by it. */
module SelectionCursors {
  import opened Wrappers
  import opened BitWords
  import opened Batches
  import opened SelectionMasks

  class SelectionCursor {
    const mask: SelectionMask
    var nextWord: nat
    var remainingBits: nat
    var remainingWord: nat

    ghost predicate Valid()
      reads this, mask, mask.words
    {
      mask.Valid() && nextWord <= UsedWords(mask.rowCount)
    }

    /** The rows not returned yet. */
    ghost function Remaining(): seq<nat>
      requires Valid()
      reads this, mask, mask.words
    {
      WordRows(remainingWord, remainingBits) + RowsFrom(mask.words[..], nextWord, UsedWords(mask.rowCount))
    }

    constructor (mask: SelectionMask)
      requires mask.Valid()
      ensures Valid() && this.mask == mask && Remaining() == mask.Rows()
    {
      this.mask := mask;
      nextWord, remainingBits, remainingWord := 0, 0, 0;
    }

    /** Skips zero words; false when no set row is left. */
    method EnsureBits() returns (found: bool)
      requires Valid()
      modifies this`nextWord, this`remainingBits, this`remainingWord
      ensures Valid() && Remaining() == old(Remaining())
      ensures found <==> remainingBits != 0
      ensures !found ==> Remaining() == []
    {
      if remainingBits != 0 {
        return true;
      }
      var wordCount := UsedWords(mask.rowCount);
      ghost var rest := Remaining();
      while nextWord < wordCount
        invariant Valid() && remainingBits == 0
        invariant RowsFrom(mask.words[..], nextWord, wordCount) == rest
      {
        var bits := mask.words[nextWord];
        nextWord := nextWord + 1;
        if bits != 0 {
          remainingBits := bits;
          remainingWord := nextWord - 1;
          return true;
        }
        assert WordRows(nextWord - 1, bits) + RowsFrom(mask.words[..], nextWord, wordCount)
               == RowsFrom(mask.words[..], nextWord, wordCount);
      }
      found := false;
    }

    /** The lowest remaining row, taken off. */
    method Take() returns (row: nat)
      requires Valid() && remainingBits != 0
      modifies this`remainingBits
      ensures Valid() && old(Remaining()) == [row] + Remaining()
    {
      ClearLowestCounts(remainingBits);
      row := remainingWord * WORD_BITS + Ctz(remainingBits);
      AppendAssociates([row], WordRows(remainingWord, And(remainingBits, remainingBits - 1)),
                       RowsFrom(mask.words[..], nextWord, UsedWords(mask.rowCount)));
      remainingBits := And(remainingBits, remainingBits - 1);
    }

    /** Next: the walk's next row. */
    method Next() returns (found: bool, row: nat)
      requires Valid()
      modifies this`nextWord, this`remainingBits, this`remainingWord
      ensures Valid()
      ensures found ==> old(Remaining()) == [row] + Remaining()
      ensures !found ==> old(Remaining()) == [] && Remaining() == []
    {
      row := 0;
      found := EnsureBits();
      if found {
        row := Take();
      }
    }

    /** NextBlock: as many of the next rows as fit. */
    method NextBlock(capacity: nat) returns (block: seq<nat>)
      requires Valid()
      modifies this`nextWord, this`remainingBits, this`remainingWord
      ensures Valid() && old(Remaining()) == block + Remaining()
      ensures |block| == if |old(Remaining())| < capacity then |old(Remaining())| else capacity
    {
      ghost var all := Remaining();
      block := [];
      while |block| < capacity
        modifies this`nextWord, this`remainingBits, this`remainingWord
        invariant Valid() && |block| <= capacity && all == block + Remaining()
      {
        var found := EnsureBits();
        if !found {
          break;
        }
        var row := Take();
        AppendAssociates(block, [row], Remaining());
        block := block + [row];
      }
    }
  }

  // ---------- Gather ----------

  function Picked<T>(src: seq<T>, rows: seq<nat>): (dst: seq<T>)
    requires InRange(rows, |src|)
    ensures |dst| == |rows| && forall i | 0 <= i < |rows| :: dst[i] == src[rows[i]]
  {
    seq(|rows|, i requires 0 <= i < |rows| => src[rows[i]])
  }

  ghost predicate WithinMask<T>(src: seq<T>, mask: SelectionMask)
    requires mask.Valid()
    reads mask, mask.words
  {
    InRange(mask.Rows(), |src|)
  }

  /** The reference gather: one row after the other. */
  method GatherScalar<T>(src: seq<T>, mask: SelectionMask) returns (dst: seq<T>)
    requires mask.Valid() && WithinMask(src, mask)
    ensures dst == Picked(src, mask.Rows())
  {
    var rows := mask.ToSelectionVector();
    dst := [];
    while |dst| < |rows|
      invariant |dst| <= |rows|
      invariant forall i | 0 <= i < |dst| :: dst[i] == src[rows[i]]
    {
      dst := dst + [src[rows[|dst|]]];
    }
  }

  const GATHER_BLOCK: nat := 8

  /**
   * The block gather: eight indices at a time from the cursor, then one short block. It equals the scalar one
   * for every mask.
   */
  method GatherBlocks<T>(src: seq<T>, mask: SelectionMask) returns (dst: seq<T>)
    requires mask.Valid() && WithinMask(src, mask)
    ensures dst == Picked(src, mask.Rows())
  {
    var cursor := new SelectionCursor(mask);
    ghost var rows, done := mask.Rows(), [];
    dst := [];
    while true
      invariant cursor.Valid() && cursor.mask == mask
      invariant rows == done + cursor.Remaining() && InRange(done, |src|) && dst == Picked(src, done)
      decreases |cursor.Remaining()|
    {
      ghost var rest := cursor.Remaining();
      var block := cursor.NextBlock(GATHER_BLOCK);
      if block == [] {
        assert rest == [] && done + [] == done;
        break;
      }
      AppendAssociates(done, block, cursor.Remaining());
      BlockInRange(rows, done, block, cursor.Remaining(), |src|);
      var lanes := GatherBlock(src, block);
      PickedAppend(src, done, block);
      dst := dst + lanes;
      done := done + block;
      if |block| < GATHER_BLOCK {
        assert cursor.Remaining() == [] && done + [] == done;
        break;
      }
    }
  }

  predicate InRange(rows: seq<nat>, n: nat) {
    forall i | 0 <= i < |rows| :: rows[i] < n
  }

  lemma BlockInRange(rows: seq<nat>, done: seq<nat>, block: seq<nat>, rest: seq<nat>, n: nat)
    requires rows == (done + block) + rest && InRange(rows, n)
    ensures InRange(block, n) && InRange(done + block, n)
  {
    forall i | 0 <= i < |done + block| ensures (done + block)[i] < n {
      assert rows[i] == (done + block)[i];
    }
    forall i | 0 <= i < |block| ensures block[i] < n {
      assert rows[|done| + i] == block[i];
    }
  }

  lemma PickedAppend<T>(src: seq<T>, done: seq<nat>, block: seq<nat>)
    requires InRange(done, |src|) && InRange(block, |src|) && InRange(done + block, |src|)
    ensures Picked(src, done + block) == Picked(src, done) + Picked(src, block)
  {
  }

  method GatherBlock<T>(src: seq<T>, block: seq<nat>) returns (lanes: seq<T>)
    requires InRange(block, |src|)
    ensures lanes == Picked(src, block)
  {
    lanes := [];
    while |lanes| < |block|
      invariant |lanes| <= |block|
      invariant forall i | 0 <= i < |lanes| :: lanes[i] == src[block[i]]
    {
      lanes := lanes + [src[block[|lanes|]]];
    }
  }
}
