/** The pool of large aligned blocks: a bounded free list with counters. */
module BlockPools {
  import opened Wrappers
  import opened BitWords
  import opened Arithmetic

  const DEFAULT_BLOCK_SIZE: nat := 0x10_0000
  const DEFAULT_ALIGNMENT: nat := 64

  /** (value + alignment - 1) & ~(alignment - 1). */
  function AlignUp(value: nat, alignment: nat): nat
    requires alignment > 0
  {
    AndNot(value + alignment - 1, alignment - 1)
  }

  lemma {:induction false} ClearLowBits(n: nat, k: nat)
    ensures AndNot(n, LowMask(k)) == n / Pow2(k) * Pow2(k)
    decreases k
  {
    if k == 0 {
      AndNotZero(n);
    } else {
      ClearLowBits(n / 2, k - 1);
      ClearLowBit(n, k);
      HalvedMultiple(n, Pow2(k - 1));
    }
  }

  lemma ClearLowBit(n: nat, k: nat)
    requires k > 0
    ensures AndNot(n, LowMask(k)) == 2 * AndNot(n / 2, LowMask(k - 1))
  {
    assert LowMask(k) == 1 + 2 * LowMask(k - 1);
  }

  lemma HalvedMultiple(n: nat, p: nat)
    requires p > 0
    ensures n / (2 * p) * (2 * p) == 2 * (n / 2 / p * p)
  {
    var q := n / 2 / p;
    Division(n / 2, p);
    Twice(q, p);
    Quotient(n, q, 2 * p);
  }

  lemma Twice(q: nat, p: nat)
    ensures q * (2 * p) == 2 * (q * p)
  {
  }

  lemma {:induction false} AndNotZero(n: nat)
    ensures AndNot(n, 0) == n
  {
    if n > 0 { AndNotZero(n / 2); }
  }

  /** For a power of two it is the least multiple that is not below the value. */
  lemma AlignUpIsLeast(value: nat, k: nat)
    ensures var r := AlignUp(value, Pow2(k)); r % Pow2(k) == 0 && value <= r < value + Pow2(k)
  {
    AlignUpTo(value, Pow2(k), k);
  }

  lemma AlignUpTo(value: nat, a: nat, k: nat)
    requires a == Pow2(k)
    ensures var r := AlignUp(value, a); r % a == 0 && value <= r < value + a
  {
    assert a - 1 == LowMask(k);
    ClearLowBits(value + a - 1, k);
    RoundedUp(value, a);
  }

  lemma RoundedUp(value: nat, a: nat)
    requires a > 0
    ensures var r := (value + a - 1) / a * a; r % a == 0 && value <= r < value + a
  {
    Division(value + a - 1, a);
    var q := (value + a - 1) / a;
    Quotient(q * a, q, a);
  }

  /** One system allocation: `id` says which one, so that two blocks with one id are one piece of memory. */
  datatype MemoryBlock = MemoryBlock(id: nat, capacity: nat, pooled: bool)

  datatype Pool = Pool(
    blockSize: nat, maxCached: nat, free: seq<MemoryBlock>,
    allocations: nat, deallocations: nat, hits: nat, cachings: nat)

  function NewPool(blockSize: nat, maxCached: nat): Pool {
    Pool(AlignUp(if blockSize == 0 then DEFAULT_BLOCK_SIZE else blockSize, DEFAULT_ALIGNMENT), maxCached, [], 0, 0, 0, 0)
  }

  function AcquireFrom(p: Pool, minCapacity: nat): (Pool, MemoryBlock) {
    if minCapacity <= p.blockSize then
      if p.free != [] then
        (p.(free := p.free[..|p.free| - 1], hits := p.hits + 1), p.free[|p.free| - 1])
      else
        (p.(allocations := p.allocations + 1), MemoryBlock(p.allocations, p.blockSize, true))
    else
      (p.(allocations := p.allocations + 1),
       MemoryBlock(p.allocations, AlignUp(minCapacity, DEFAULT_ALIGNMENT), false))
  }

  function ReleaseTo(p: Pool, block: MemoryBlock): Pool {
    if block.pooled && |p.free| < p.maxCached then p.(free := p.free + [block], cachings := p.cachings + 1)
    else p.(deallocations := p.deallocations + 1)
  }

  predicate Different(a: MemoryBlock, b: MemoryBlock) { a.id != b.id }

  /** No piece of memory is cached twice, held twice, or both. */
  predicate Apart(free: seq<MemoryBlock>, held: set<MemoryBlock>) {
    && (forall i, j {:trigger Different(free[i], free[j])} | 0 <= i < j < |free| :: Different(free[i], free[j]))
    && (forall a, b {:trigger Different(a, b)} | a in held && b in held && a != b :: Different(a, b))
    && forall i, h {:trigger Different(free[i], h)} | 0 <= i < |free| && h in held :: Different(free[i], h)
  }

  predicate Sized(p: Pool, held: set<MemoryBlock>) {
    && p.blockSize > 0 && p.blockSize % DEFAULT_ALIGNMENT == 0
    && (forall i | 0 <= i < |p.free| :: p.free[i].pooled && p.free[i].capacity == p.blockSize)
    && (forall h | h in held :: h.capacity % DEFAULT_ALIGNMENT == 0 && (h.pooled ==> h.capacity == p.blockSize))
  }

  predicate Issued(p: Pool, held: set<MemoryBlock>) {
    && (forall i | 0 <= i < |p.free| :: p.free[i].id < p.allocations)
    && forall h | h in held :: h.id < p.allocations
  }

  /** No block is both free and held or held twice; what the system gave and did not get back is held or cached. */
  predicate Sound(p: Pool, held: set<MemoryBlock>) {
    && Apart(p.free, held) && Sized(p, held) && Issued(p, held)
    && p.allocations == p.deallocations + |held| + |p.free|
    && p.cachings == p.hits + |p.free|
    && |p.free| <= p.maxCached
  }

  lemma NewPoolIsSound(blockSize: nat, maxCached: nat)
    ensures Sound(NewPool(blockSize, maxCached), {}) && NewPool(blockSize, maxCached).blockSize >= blockSize
  {
    assert Pow2(6) == DEFAULT_ALIGNMENT;
    AlignUpIsLeast(if blockSize == 0 then DEFAULT_BLOCK_SIZE else blockSize, 6);
  }

  lemma TakeCached(p: Pool, held: set<MemoryBlock>)
    requires Sound(p, held) && p.free != []
    ensures var last := |p.free| - 1;
            && Sound(p.(free := p.free[..last], hits := p.hits + 1), held + {p.free[last]})
            && forall h | h in held :: h.id != p.free[last].id
  {
    var last := |p.free| - 1;
    assert forall h | h in held :: Different(p.free[last], h);
    assert p.free[last] !in held;
    assert |held + {p.free[last]}| == |held| + 1;
  }

  lemma TakeNew(p: Pool, held: set<MemoryBlock>, block: MemoryBlock)
    requires Sound(p, held) && block.id == p.allocations
    requires block.capacity % DEFAULT_ALIGNMENT == 0 && (block.pooled ==> block.capacity == p.blockSize)
    ensures Sound(p.(allocations := p.allocations + 1), held + {block})
    ensures forall h | h in held :: h.id != block.id
  {
    assert block !in held;
    assert |held + {block}| == |held| + 1;
  }

  /** The block is big enough, aligned in size, and nobody holds it. */
  lemma AcquireKeeps(p: Pool, held: set<MemoryBlock>, minCapacity: nat)
    requires Sound(p, held)
    ensures var (q, block) := AcquireFrom(p, minCapacity);
            && Sound(q, held + {block})
            && block.capacity >= minCapacity && block.capacity % DEFAULT_ALIGNMENT == 0
            && (forall h | h in held :: h.id != block.id)
            && (block.pooled <==> minCapacity <= p.blockSize)
            && (q.allocations == p.allocations <==> minCapacity <= p.blockSize && p.free != [])
  {
    if minCapacity <= p.blockSize && p.free != [] {
      TakeCached(p, held);
    } else {
      assert Pow2(6) == DEFAULT_ALIGNMENT;
      AlignUpIsLeast(minCapacity, 6);
      TakeNew(p, held, AcquireFrom(p, minCapacity).1);
    }
  }

  /** A returned block is cached while there is room, and otherwise goes back to the system. */
  lemma ReleaseKeeps(p: Pool, held: set<MemoryBlock>, block: MemoryBlock)
    requires Sound(p, held) && block in held
    ensures Sound(ReleaseTo(p, block), held - {block})
  {
  }

  // ---------- runs ----------

  datatype Request = Take(minCapacity: nat) | Give(block: MemoryBlock)

  /** A run of requests by any holders, each giving back only what is held. */
  function Run(p: Pool, held: set<MemoryBlock>, requests: seq<Request>): Option<(Pool, set<MemoryBlock>)>
    decreases |requests|
  {
    if requests == [] then Some((p, held))
    else match requests[0]
      case Take(n) =>
        var (q, block) := AcquireFrom(p, n);
        Run(q, held + {block}, requests[1..])
      case Give(block) =>
        if block in held then Run(ReleaseTo(p, block), held - {block}, requests[1..]) else None
  }


  lemma {:induction false} RunsAreSound(p: Pool, held: set<MemoryBlock>, requests: seq<Request>)
    requires Sound(p, held)
    ensures var end := Run(p, held, requests); end.Some? ==> Sound(end.value.0, end.value.1)
    decreases |requests|
  {
    if requests != [] {
      match requests[0]
      case Take(n) =>
        AcquireKeeps(p, held, n);
        var (q, block) := AcquireFrom(p, n);
        RunsAreSound(q, held + {block}, requests[1..]);
      case Give(block) =>
        if block in held {
          ReleaseKeeps(p, held, block);
          RunsAreSound(ReleaseTo(p, block), held - {block}, requests[1..]);
        }
    }
  }

  /** A pool destroyed once everything was returned has freed all it ever allocated. */
  lemma NothingLeaks(blockSize: nat, maxCached: nat, requests: seq<Request>)
    ensures var end := Run(NewPool(blockSize, maxCached), {}, requests);
            end.Some? && end.value.1 == {} ==>
              var p := end.value.0; p.deallocations + |p.free| == p.allocations && |p.free| <= maxCached
  {
    NewPoolIsSound(blockSize, maxCached);
    RunsAreSound(NewPool(blockSize, maxCached), {}, requests);
    LimitStays(NewPool(blockSize, maxCached), {}, requests);
  }

  lemma {:induction false} LimitStays(p: Pool, held: set<MemoryBlock>, requests: seq<Request>)
    ensures var end := Run(p, held, requests); end.Some? ==> end.value.0.maxCached == p.maxCached
    decreases |requests|
  {
    if requests != [] {
      match requests[0]
      case Take(n) =>
        var (q, block) := AcquireFrom(p, n);
        LimitStays(q, held + {block}, requests[1..]);
      case Give(block) =>
        if block in held { LimitStays(ReleaseTo(p, block), held - {block}, requests[1..]); }
    }
  }

  // ---------- the pool object ----------

  class BlockPool {
    const blockSize: nat
    const maxCachedBlocks: nat
    var freeBlocks: seq<MemoryBlock>
    var systemAllocations: nat
    var systemDeallocations: nat
    var poolHits: nat
    var poolReturns: nat
    ghost var held: set<MemoryBlock>

    function State(): Pool
      reads this
    {
      Pool(blockSize, maxCachedBlocks, freeBlocks, systemAllocations, systemDeallocations, poolHits, poolReturns)
    }

    ghost predicate Valid()
      reads this
    {
      Sound(State(), held)
    }

    constructor (size: nat, maxCached: nat)
      ensures Valid() && State() == NewPool(size, maxCached) && held == {}
    {
      blockSize := AlignUp(if size == 0 then DEFAULT_BLOCK_SIZE else size, DEFAULT_ALIGNMENT);
      maxCachedBlocks := maxCached;
      freeBlocks, systemAllocations, systemDeallocations, poolHits, poolReturns := [], 0, 0, 0, 0;
      held := {};
      NewPoolIsSound(size, maxCached);
    }

    method Acquire(minCapacity: nat) returns (block: MemoryBlock)
      requires Valid()
      modifies this
      ensures Valid() && (State(), block) == AcquireFrom(old(State()), minCapacity)
      ensures held == old(held) + {block}
      ensures block.capacity >= minCapacity && forall h | h in old(held) :: h.id != block.id
    {
      ghost var p := State();
      AcquireKeeps(p, held, minCapacity);
      if minCapacity <= blockSize && freeBlocks != [] {
        block := freeBlocks[|freeBlocks| - 1];
        freeBlocks := freeBlocks[..|freeBlocks| - 1];
        poolHits := poolHits + 1;
      } else if minCapacity <= blockSize {
        block := MemoryBlock(systemAllocations, blockSize, true);
        systemAllocations := systemAllocations + 1;
      } else {
        block := MemoryBlock(systemAllocations, AlignUp(minCapacity, DEFAULT_ALIGNMENT), false);
        systemAllocations := systemAllocations + 1;
      }
      held := held + {block};
      assert (State(), block) == AcquireFrom(p, minCapacity);
    }

    method Release(block: MemoryBlock)
      requires Valid() && block in held
      modifies this
      ensures Valid() && State() == ReleaseTo(old(State()), block) && held == old(held) - {block}
    {
      ReleaseKeeps(State(), held, block);
      if block.pooled && |freeBlocks| < maxCachedBlocks {
        freeBlocks := freeBlocks + [block];
        poolReturns := poolReturns + 1;
      } else {
        systemDeallocations := systemDeallocations + 1;
      }
      held := held - {block};
    }

    /** The destructor: every cached block goes back to the system. */
    method Destroy()
      requires Valid()
      modifies this
      ensures freeBlocks == [] && held == old(held)
      ensures systemAllocations == old(systemAllocations)
      ensures systemAllocations - systemDeallocations == |held|
    {
      ghost var p := State();
      var i := 0;
      while i < |freeBlocks|
        invariant 0 <= i <= |freeBlocks|
        invariant systemDeallocations == p.deallocations + i
        invariant State().(deallocations := 0) == p.(deallocations := 0) && held == old(held)
      {
        systemDeallocations := systemDeallocations + 1;
        i := i + 1;
      }
      freeBlocks := [];
    }
  }
}
