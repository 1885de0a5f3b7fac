/** The bump allocator over pool blocks: ranges, alignment, reuse after Reset. */
module Arenas {
  import opened BitWords
  import opened BlockPools
  import Arithmetic

  datatype ArenaBlock = ArenaBlock(memory: MemoryBlock, offset: nat)

  /** Bytes from .. to of one block. */
  datatype Range = Range(block: nat, from: nat, to: nat)

  predicate Disjoint(a: Range, b: Range) {
    a.block != b.block || a.to <= b.from || b.to <= a.from
  }

  /** The range lies below its block's bump pointer, and the block is one of these. */
  predicate Inside(r: Range, blocks: seq<ArenaBlock>) {
    r.from <= r.to && exists i :: 0 <= i < |blocks| && blocks[i].memory.id == r.block && r.to <= blocks[i].offset
  }

  predicate AllInside(issued: seq<Range>, blocks: seq<ArenaBlock>) {
    forall k | 0 <= k < |issued| :: Inside(issued[k], blocks)
  }

  predicate PairwiseDisjoint(issued: seq<Range>) {
    forall j, k | 0 <= j < k < |issued| :: Disjoint(issued[j], issued[k])
  }

  predicate DistinctBlocks(blocks: seq<ArenaBlock>) {
    forall i, j | 0 <= i < j < |blocks| :: blocks[i].memory.id != blocks[j].memory.id
  }

  /** Every block is held from the pool, its bump pointer within it. */
  predicate Holding(blocks: seq<ArenaBlock>, held: set<MemoryBlock>) {
    forall i | 0 <= i < |blocks| :: blocks[i].memory in held && blocks[i].offset <= blocks[i].memory.capacity
  }

  /** Bumping block i hands out a range that meets no range handed out before. */
  lemma BumpIsDisjoint(blocks: seq<ArenaBlock>, issued: seq<Range>, i: nat, from: nat, size: nat)
    requires i < |blocks| && DistinctBlocks(blocks) && blocks[i].offset <= from
    requires AllInside(issued, blocks) && PairwiseDisjoint(issued)
    ensures var r := Range(blocks[i].memory.id, from, from + size);
            var bumped := blocks[i := blocks[i].(offset := from + size)];
            AllInside(issued + [r], bumped) && PairwiseDisjoint(issued + [r]) && DistinctBlocks(bumped)
  {
    var r := Range(blocks[i].memory.id, from, from + size);
    var bumped := blocks[i := blocks[i].(offset := from + size)];
    assert Inside(r, bumped) by { assert bumped[i].memory.id == r.block; }
    forall k | 0 <= k < |issued|
      ensures Inside(issued[k], bumped) && Disjoint(issued[k], r)
    {
      assert Inside(issued[k], blocks);
      var b :| 0 <= b < |blocks| && blocks[b].memory.id == issued[k].block && issued[k].to <= blocks[b].offset;
      assert bumped[b].memory.id == issued[k].block;
    }
  }

  /** The machine address of an offset in a block that starts at `base`. */
  function Address(base: nat, offset: nat): nat { base + offset }

  /** An aligned offset is an aligned address for every power of two up to the pool's own alignment. */
  lemma AlignedAddress(base: nat, offset: nat, k: nat)
    requires base % DEFAULT_ALIGNMENT == 0 && k <= 6 && offset % Pow2(k) == 0
    ensures Address(base, offset) % Pow2(k) == 0
  {
    SixtyFour(k);
    AlignedSum(base, offset, Pow2(6 - k), Pow2(k));
  }

  lemma AlignedSum(base: nat, offset: nat, m: nat, a: nat)
    requires m * a == DEFAULT_ALIGNMENT && base % DEFAULT_ALIGNMENT == 0 && a > 0 && offset % a == 0
    ensures Address(base, offset) % a == 0
  {
    SumOfMultiples(base / DEFAULT_ALIGNMENT, m, offset / a, a);
  }

  lemma SumOfMultiples(b: nat, m: nat, o: nat, a: nat)
    requires a > 0
    ensures (b * (m * a) + a * o) % a == 0
  {
    assert (b * m + o) * a == b * (m * a) + a * o;
    Arithmetic.Quotient((b * m + o) * a, b * m + o, a);
  }

  lemma SixtyFour(k: nat)
    requires k <= 6
    ensures Pow2(6 - k) * Pow2(k) == DEFAULT_ALIGNMENT
  {
  }

  /** Alignment is promised by the pool up to 64 and no further: an odd multiple of 64 breaks 128. */
  lemma AlignmentHoldsIff(k: nat)
    ensures (forall base: nat, offset: nat | base % DEFAULT_ALIGNMENT == 0 && offset % Pow2(k) == 0 ::
               Address(base, offset) % Pow2(k) == 0)
            <==> k <= 6
  {
    if k <= 6 {
      forall base: nat, offset: nat | base % DEFAULT_ALIGNMENT == 0 && offset % Pow2(k) == 0
        ensures Address(base, offset) % Pow2(k) == 0
      {
        AlignedAddress(base, offset, k);
      }
    } else {
      Pow2Monotone(7, k);
      assert Pow2(7) == 128;
      Arithmetic.Quotient(DEFAULT_ALIGNMENT, 0, Pow2(k));
      assert Address(DEFAULT_ALIGNMENT, 0) % Pow2(k) == DEFAULT_ALIGNMENT;
    }
  }

  class Arena {
    const pool: BlockPool
    var blocks: seq<ArenaBlock>
    var currentBlock: nat
    /** What was handed out since the last Reset or Release. */
    ghost var issued: seq<Range>

    ghost predicate Valid()
      reads this, pool
    {
      && pool.Valid()
      && Holding(blocks, pool.held) && DistinctBlocks(blocks)
      && (if blocks == [] then currentBlock == 0 else currentBlock < |blocks|)
      && AllInside(issued, blocks) && PairwiseDisjoint(issued)
    }

    constructor (pool: BlockPool)
      requires pool.Valid()
      ensures Valid() && this.pool == pool && blocks == [] && issued == []
    {
      this.pool, blocks, currentBlock, issued := pool, [], 0, [];
    }

    /** What a block can still serve. */
    function Serves(b: ArenaBlock, size: nat, alignment: nat): bool
      requires alignment > 0
    {
      AlignUp(b.offset, alignment) + size <= b.memory.capacity
    }

    /** Some block from the current one on has room. */
    ghost predicate HasRoom(size: nat, alignment: nat, from: nat)
      requires alignment > 0
      reads this
    {
      exists i :: from <= i < |blocks| && Serves(blocks[i], size, alignment)
    }

    method Allocate(size: nat, ghost k: nat, alignment: nat) returns (r: Range)
      requires Valid() && alignment == Pow2(k)
      modifies this, pool
      ensures Valid() && issued == old(issued) + [r]
      ensures r.to - r.from == size && r.from % alignment == 0
      ensures exists i :: 0 <= i < |blocks| && blocks[i].memory.id == r.block && r.to <= blocks[i].memory.capacity
      ensures old(pool.held) <= pool.held
      ensures old(HasRoom(size, alignment, currentBlock)) ==> |blocks| == |old(blocks)| && pool.held == old(pool.held)
    {
      if blocks != [] && Serves(blocks[currentBlock], size, alignment) {
        r := Bump(currentBlock, size, k, alignment);
      } else {
        r := AllocateSlow(size, k, alignment);
      }
    }

    method AllocateSlow(size: nat, ghost k: nat, alignment: nat) returns (r: Range)
      requires Valid() && alignment == Pow2(k)
      modifies this, pool
      ensures Valid() && issued == old(issued) + [r]
      ensures r.to - r.from == size && r.from % alignment == 0
      ensures exists i :: 0 <= i < |blocks| && blocks[i].memory.id == r.block && r.to <= blocks[i].memory.capacity
      ensures old(pool.held) <= pool.held
      ensures old(HasRoom(size, alignment, currentBlock + 1)) ==> |blocks| == |old(blocks)| && pool.held == old(pool.held)
    {
      var i := currentBlock + 1;
      while i < |blocks|
        invariant currentBlock + 1 <= i
        invariant forall j | currentBlock < j < i && j < |blocks| :: !Serves(blocks[j], size, alignment)
      {
        if Serves(blocks[i], size, alignment) {
          r := Bump(i, size, k, alignment);
          return;
        }
        i := i + 1;
      }
      AddBlock(size + alignment);
      AlignUpIsLeast(0, k);
      assert AlignUp(0, alignment) == 0 by { Arithmetic.Quotient(AlignUp(0, alignment), 0, alignment); }
      r := Bump(|blocks| - 1, size, k, alignment);
    }

    /** Hands out the next aligned `size` bytes of block i and makes it current. */
    method Bump(i: nat, size: nat, ghost k: nat, alignment: nat) returns (r: Range)
      requires Valid() && alignment == Pow2(k) && i < |blocks| && Serves(blocks[i], size, alignment)
      modifies this
      ensures Valid() && issued == old(issued) + [r]
      ensures r.to - r.from == size && r.from % alignment == 0
      ensures currentBlock == i < |blocks| && blocks[i].memory.id == r.block && r.to <= blocks[i].memory.capacity
      ensures |blocks| == |old(blocks)|
    {
      var from := AlignUp(blocks[i].offset, alignment);
      AlignUpIsLeast(blocks[i].offset, k);
      BumpIsDisjoint(blocks, issued, i, from, size);
      r := Range(blocks[i].memory.id, from, from + size);
      currentBlock := i;
      blocks := blocks[i := blocks[i].(offset := from + size)];
      issued := issued + [r];
    }

    method AddBlock(request: nat)
      requires Valid()
      modifies this, pool
      ensures Valid() && issued == old(issued) && old(pool.held) <= pool.held
      ensures |blocks| == |old(blocks)| + 1 && blocks[..|old(blocks)|] == old(blocks)
      ensures currentBlock == |blocks| - 1 && blocks[currentBlock].offset == 0
      ensures blocks[currentBlock].memory.capacity >= request
    {
      var memory := pool.Acquire(request);
      forall j | 0 <= j < |issued|
        ensures Inside(issued[j], blocks + [ArenaBlock(memory, 0)])
      {
        assert Inside(issued[j], blocks);
        var b :| 0 <= b < |blocks| && blocks[b].memory.id == issued[j].block && issued[j].to <= blocks[b].offset;
        assert (blocks + [ArenaBlock(memory, 0)])[b] == blocks[b];
      }
      blocks := blocks + [ArenaBlock(memory, 0)];
      currentBlock := |blocks| - 1;
    }

    /** Offsets go back to zero and every block is kept for reuse. */
    method Reset()
      requires Valid()
      modifies this
      ensures Valid() && issued == [] && currentBlock == 0 && |blocks| == |old(blocks)|
      ensures forall j | 0 <= j < |blocks| :: blocks[j] == old(blocks)[j].(offset := 0)
    {
      var i := 0;
      while i < |blocks|
        invariant 0 <= i <= |blocks| == |old(blocks)| && unchanged(`currentBlock) && unchanged(`issued)
        invariant forall j | 0 <= j < i :: blocks[j] == old(blocks)[j].(offset := 0)
        invariant forall j | i <= j < |blocks| :: blocks[j] == old(blocks)[j]
      {
        blocks := blocks[i := blocks[i].(offset := 0)];
        i := i + 1;
      }
      currentBlock, issued := 0, [];
    }

    /** Every block goes back to the pool; what other holders hold is untouched. */
    method Release()
      requires Valid()
      modifies this, pool
      ensures Valid() && blocks == [] && issued == [] && currentBlock == 0
      ensures pool.held == old(pool.held) - Owned(old(blocks))
    {
      ReturnBlocks(pool, blocks);
      blocks, currentBlock, issued := [], 0, [];
    }
  }

  method ReturnBlocks(pool: BlockPool, blocks: seq<ArenaBlock>)
    requires pool.Valid() && DistinctBlocks(blocks) && Holding(blocks, pool.held)
    modifies pool
    ensures pool.Valid() && pool.held == old(pool.held) - Owned(blocks)
  {
    var i := 0;
    while i < |blocks|
      invariant 0 <= i <= |blocks| && pool.Valid()
      invariant pool.held == old(pool.held) - Owned(blocks[..i])
    {
      OwnedNext(blocks, old(pool.held), i);
      pool.Release(blocks[i].memory);
      i := i + 1;
    }
    assert blocks[..i] == blocks;
  }

  function Owned(blocks: seq<ArenaBlock>): set<MemoryBlock> {
    set b | b in blocks :: b.memory
  }

  lemma OwnedNext(blocks: seq<ArenaBlock>, held: set<MemoryBlock>, i: nat)
    requires i < |blocks| && DistinctBlocks(blocks) && Holding(blocks, held)
    ensures held - Owned(blocks[..i + 1]) == held - Owned(blocks[..i]) - {blocks[i].memory}
    ensures blocks[i].memory in held - Owned(blocks[..i])
  {
    assert blocks[..i + 1] == blocks[..i] + [blocks[i]];
  }
}
