/** The pool of column buffers by size class, and the handles that own them. */
module BufferPools {
  import opened Wrappers
  import opened BitWords
  import BlockPools

  const CLASS_COUNT: nat := 5

  function SizeClass(i: nat): nat { 4096 * Pow2(i) }

  /** One system allocation of `size` bytes. */
  datatype Buffer = Buffer(id: nat, size: nat)

  /** An owning handle: the buffer, the capacity it claims, and its class; None for a direct allocation. */
  datatype Handle = Handle(buffer: Buffer, capacity: nat, sizeClass: Option<nat>)

  datatype Pool = Pool(
    maxCached: nat, direct: bool, lists: seq<seq<Buffer>>,
    allocations: nat, deallocations: nat, hits: nat, cachings: nat)

  function NewBufferPool(maxCached: nat, direct: bool): Pool {
    Pool(maxCached, direct, [[], [], [], [], []], 0, 0, 0, 0)
  }

  /** The smallest class from i on that can hold the request. */
  function ClassFor(minCapacity: nat, i: nat): (c: Option<nat>)
    requires i <= CLASS_COUNT
    ensures c.Some? ==> i <= c.value < CLASS_COUNT && minCapacity <= SizeClass(c.value)
    ensures forall j | i <= j < (if c.Some? then c.value else CLASS_COUNT) :: SizeClass(j) < minCapacity
    decreases CLASS_COUNT - i
  {
    if i == CLASS_COUNT then None
    else if minCapacity <= SizeClass(i) then Some(i)
    else ClassFor(minCapacity, i + 1)
  }

  function Fresh(p: Pool, capacity: nat, sizeClass: Option<nat>): (Pool, Handle) {
    (p.(allocations := p.allocations + 1), Handle(Buffer(p.allocations, capacity), capacity, sizeClass))
  }

  function AcquireFrom(p: Pool, minCapacity: nat): (Pool, Handle)
    requires |p.lists| == CLASS_COUNT
  {
    var c := if p.direct then None else ClassFor(minCapacity, 0);
    if c.None? then Fresh(p, BlockPools.AlignUp(minCapacity, BlockPools.DEFAULT_ALIGNMENT), None)
    else
      var list := p.lists[c.value];
      if list == [] then Fresh(p, SizeClass(c.value), c)
      else
        var last := |list| - 1;
        (p.(lists := p.lists[c.value := list[..last]], hits := p.hits + 1),
         Handle(list[last], SizeClass(c.value), c))
  }

  function ReleaseTo(p: Pool, h: Handle): Pool {
    if h.sizeClass.Some? && h.sizeClass.value < |p.lists| && |p.lists[h.sizeClass.value]| < p.maxCached then
      var c := h.sizeClass.value;
      p.(lists := p.lists[c := p.lists[c] + [h.buffer]], cachings := p.cachings + 1)
    else p.(deallocations := p.deallocations + 1)
  }

  // ---------- what is cached, what is owned ----------

  lemma Across<T>(h: multiset<T>, a: multiset<T>, x: multiset<T>, b: multiset<T>, y: multiset<T>)
    requires a + x == b + y
    ensures (h + a) + x == (h + b) + y
  {
    assert (h + a) + x == h + (a + x);
    assert (h + b) + y == h + (b + y);
  }

  lemma Cancels<T>(a: multiset<T>, b: multiset<T>, x: multiset<T>)
    requires a + x == b + x
    ensures a == b
  {
    assert a == (a + x) - x && b == (b + x) - x;
  }

  function Cached(lists: seq<seq<Buffer>>): multiset<Buffer> {
    if lists == [] then multiset{} else multiset(lists[0]) + Cached(lists[1..])
  }

  lemma {:induction false} CachedUpdate(lists: seq<seq<Buffer>>, c: nat, list: seq<Buffer>)
    requires c < |lists|
    ensures Cached(lists[c := list]) + multiset(lists[c]) == Cached(lists) + multiset(list)
  {
    if c == 0 {
      assert lists[0 := list][1..] == lists[1..];
    } else {
      CachedUpdate(lists[1..], c - 1, list);
      assert lists[c := list][1..] == lists[1..][c - 1 := list];
      Across(multiset(lists[0]), Cached(lists[1..][c - 1 := list]), multiset(lists[c]), Cached(lists[1..]),
             multiset(list));
    }
  }

  function Owned(slots: seq<Option<Handle>>): multiset<Buffer> {
    if slots == [] then multiset{}
    else One(slots[0]) + Owned(slots[1..])
  }

  function One(slot: Option<Handle>): multiset<Buffer> {
    if slot.Some? then multiset{slot.value.buffer} else multiset{}
  }

  lemma {:induction false} OwnedUpdate(slots: seq<Option<Handle>>, s: nat, slot: Option<Handle>)
    requires s < |slots|
    ensures Owned(slots[s := slot]) + One(slots[s]) == Owned(slots) + One(slot)
  {
    if s == 0 {
      assert slots[0 := slot][1..] == slots[1..];
    } else {
      OwnedUpdate(slots[1..], s - 1, slot);
      assert slots[s := slot][1..] == slots[1..][s - 1 := slot];
      Across(One(slots[0]), Owned(slots[1..][s - 1 := slot]), One(slots[s]), Owned(slots[1..]), One(slot));
    }
  }

  predicate Different(a: Buffer, b: Buffer) { a.id != b.id }

  /** Every live allocation is in exactly one place, and the counters count them. */
  predicate Counted(p: Pool, live: multiset<Buffer>) {
    && (forall b | b in live :: live[b] == 1 && b.id < p.allocations)
    && (forall a, b {:trigger Different(a, b)} | a in live && b in live && a != b :: Different(a, b))
    && |live| + p.deallocations == p.allocations
  }

  predicate ListFits(list: seq<Buffer>, size: nat, limit: nat) {
    |list| <= limit && forall k | 0 <= k < |list| :: list[k].size == size
  }

  predicate ListsFit(p: Pool) {
    && |p.lists| == CLASS_COUNT
    && (forall c | 0 <= c < CLASS_COUNT :: ListFits(p.lists[c], SizeClass(c), p.maxCached))
    && p.cachings == p.hits + |Cached(p.lists)|
  }

  /** A handle claims exactly the bytes it owns. */
  predicate HandleFits(h: Handle) {
    && h.capacity == h.buffer.size
    && (h.sizeClass.Some? ==> h.sizeClass.value < CLASS_COUNT && h.capacity == SizeClass(h.sizeClass.value))
  }

  predicate Ledger(p: Pool, owned: multiset<Buffer>) {
    ListsFit(p) && Counted(p, Cached(p.lists) + owned)
  }

  lemma FreshKeeps(p: Pool, owned: multiset<Buffer>, capacity: nat, sizeClass: Option<nat>)
    requires Ledger(p, owned)
    ensures var (q, h) := Fresh(p, capacity, sizeClass);
            Ledger(q, owned + multiset{h.buffer}) && h.buffer !in Cached(p.lists) + owned
  {
    var b := Buffer(p.allocations, capacity);
    assert Cached(p.lists) + (owned + multiset{b}) == (Cached(p.lists) + owned) + multiset{b};
  }

  /** Whatever the pool hands out is big enough and owned by nobody else. */
  lemma AcquireKeeps(p: Pool, owned: multiset<Buffer>, minCapacity: nat)
    requires Ledger(p, owned)
    ensures var (q, h) := AcquireFrom(p, minCapacity);
            && Ledger(q, owned + multiset{h.buffer}) && HandleFits(h)
            && minCapacity <= h.capacity && h.buffer !in owned
            && (p.direct ==> q.lists == p.lists && q.hits == p.hits)
  {
    var c := if p.direct then None else ClassFor(minCapacity, 0);
    assert Pow2(6) == BlockPools.DEFAULT_ALIGNMENT;
    BlockPools.AlignUpIsLeast(minCapacity, 6);
    if c.None? {
      FreshKeeps(p, owned, BlockPools.AlignUp(minCapacity, BlockPools.DEFAULT_ALIGNMENT), None);
    } else if p.lists[c.value] == [] {
      FreshKeeps(p, owned, SizeClass(c.value), c);
    } else {
      PopKeeps(p, owned, c.value);
    }
  }

  /** Taking the last buffer of a list takes it from what is cached, and nothing else. */
  lemma CachedPop(lists: seq<seq<Buffer>>, c: nat)
    requires c < |lists| && lists[c] != []
    ensures var last := |lists[c]| - 1;
            var left := Cached(lists[c := lists[c][..last]]);
            left + multiset{lists[c][last]} == Cached(lists) && |left| + 1 == |Cached(lists)|
  {
    var list := lists[c];
    var last := |list| - 1;
    var left := Cached(lists[c := list[..last]]);
    CachedUpdate(lists, c, list[..last]);
    assert list == list[..last] + [list[last]];
    assert multiset(list) == multiset(list[..last]) + multiset{list[last]};
    assert (left + multiset{list[last]}) + multiset(list[..last]) == left + multiset(list);
    Cancels(left + multiset{list[last]}, Cached(lists), multiset(list[..last]));
    assert |left + multiset{list[last]}| == |left| + 1;
  }

  /** A list that still fits keeps all of them fitting. */
  lemma ListsFitUpdate(p: Pool, c: nat, list: seq<Buffer>, hits: nat, cachings: nat)
    requires ListsFit(p) && c < CLASS_COUNT && ListFits(list, SizeClass(c), p.maxCached)
    requires cachings == hits + |Cached(p.lists[c := list])|
    ensures ListsFit(p.(lists := p.lists[c := list], hits := hits, cachings := cachings))
  {
  }

  lemma PopKeeps(p: Pool, owned: multiset<Buffer>, c: nat)
    requires Ledger(p, owned) && c < CLASS_COUNT && p.lists[c] != []
    ensures var last := |p.lists[c]| - 1;
            var q := p.(lists := p.lists[c := p.lists[c][..last]], hits := p.hits + 1);
            && Ledger(q, owned + multiset{p.lists[c][last]})
            && p.lists[c][last] !in owned && p.lists[c][last].size == SizeClass(c)
  {
    PopFits(p, c);
    PopCounts(p, owned, c);
  }

  lemma PopFits(p: Pool, c: nat)
    requires ListsFit(p) && c < CLASS_COUNT && p.lists[c] != []
    ensures var last := |p.lists[c]| - 1;
            && ListsFit(p.(lists := p.lists[c := p.lists[c][..last]], hits := p.hits + 1))
            && p.lists[c][last].size == SizeClass(c)
  {
    CachedPop(p.lists, c);
    assert ListFits(p.lists[c], SizeClass(c), p.maxCached);
    ListsFitUpdate(p, c, p.lists[c][..|p.lists[c]| - 1], p.hits + 1, p.cachings);
  }

  lemma PopCounts(p: Pool, owned: multiset<Buffer>, c: nat)
    requires Counted(p, Cached(p.lists) + owned) && c < |p.lists| && p.lists[c] != []
    ensures var last := |p.lists[c]| - 1;
            && Counted(p, Cached(p.lists[c := p.lists[c][..last]]) + (owned + multiset{p.lists[c][last]}))
            && p.lists[c][last] !in owned
  {
    var last := |p.lists[c]| - 1;
    CachedPop(p.lists, c);
    MovesOver(p, Cached(p.lists), Cached(p.lists[c := p.lists[c][..last]]), owned, p.lists[c][last]);
  }

  lemma MovesOver(p: Pool, cached: multiset<Buffer>, left: multiset<Buffer>, owned: multiset<Buffer>, b: Buffer)
    requires Counted(p, cached + owned) && left + multiset{b} == cached
    ensures Counted(p, left + (owned + multiset{b})) && b !in owned
  {
    assert left + (owned + multiset{b}) == cached + owned;
    assert (cached + owned)[b] == 1;
  }

  /** Caching one more buffer adds it to what is cached, and to nothing else. */
  lemma CachedPush(lists: seq<seq<Buffer>>, c: nat, b: Buffer)
    requires c < |lists|
    ensures var grown := Cached(lists[c := lists[c] + [b]]);
            grown == Cached(lists) + multiset{b} && |grown| == |Cached(lists)| + 1
  {
    var grown := Cached(lists[c := lists[c] + [b]]);
    CachedUpdate(lists, c, lists[c] + [b]);
    assert multiset(lists[c] + [b]) == multiset{b} + multiset(lists[c]);
    assert grown + multiset(lists[c]) == (Cached(lists) + multiset{b}) + multiset(lists[c]);
    Cancels(grown, Cached(lists) + multiset{b}, multiset(lists[c]));
  }

  lemma MovesBack(p: Pool, cached: multiset<Buffer>, owned: multiset<Buffer>, b: Buffer)
    requires Counted(p, cached + owned) && b in owned
    ensures Counted(p, (cached + multiset{b}) + (owned - multiset{b}))
  {
    assert (cached + multiset{b}) + (owned - multiset{b}) == cached + owned;
  }

  lemma PushKeeps(p: Pool, owned: multiset<Buffer>, c: nat, b: Buffer)
    requires Ledger(p, owned) && b in owned && c < CLASS_COUNT && b.size == SizeClass(c)
    requires |p.lists[c]| < p.maxCached
    ensures Ledger(p.(lists := p.lists[c := p.lists[c] + [b]], cachings := p.cachings + 1), owned - multiset{b})
  {
    PushFits(p, c, b);
    PushCounts(p, owned, c, b);
  }

  lemma PushFits(p: Pool, c: nat, b: Buffer)
    requires ListsFit(p) && c < CLASS_COUNT && b.size == SizeClass(c) && |p.lists[c]| < p.maxCached
    ensures ListsFit(p.(lists := p.lists[c := p.lists[c] + [b]], cachings := p.cachings + 1))
  {
    CachedPush(p.lists, c, b);
    assert ListFits(p.lists[c], SizeClass(c), p.maxCached);
    ListsFitUpdate(p, c, p.lists[c] + [b], p.hits, p.cachings + 1);
  }

  lemma PushCounts(p: Pool, owned: multiset<Buffer>, c: nat, b: Buffer)
    requires Counted(p, Cached(p.lists) + owned) && b in owned && c < |p.lists|
    ensures Counted(p, Cached(p.lists[c := p.lists[c] + [b]]) + (owned - multiset{b}))
  {
    CachedPush(p.lists, c, b);
    MovesBack(p, Cached(p.lists), owned, b);
  }

  /** A returned buffer is cached while its class has room, and otherwise freed. */
  lemma ReleaseKeeps(p: Pool, owned: multiset<Buffer>, h: Handle)
    requires Ledger(p, owned) && HandleFits(h) && h.buffer in owned
    ensures Ledger(ReleaseTo(p, h), owned - multiset{h.buffer})
  {
    var b := h.buffer;
    if h.sizeClass.Some? && |p.lists[h.sizeClass.value]| < p.maxCached {
      PushKeeps(p, owned, h.sizeClass.value, b);
    } else {
      var live := Cached(p.lists) + owned;
      assert Cached(p.lists) + (owned - multiset{b}) == live - multiset{b};
    }
  }

  // ---------- handles ----------

  /** A pool and the handle variables of the program, each owning a buffer or empty. */
  datatype World = World(pool: Pool, slots: seq<Option<Handle>>)
  {
    predicate Valid() {
      && Ledger(pool, Owned(slots))
      && forall s | 0 <= s < |slots| && slots[s].Some? :: HandleFits(slots[s].value)
    }
  }

  datatype Action = Acquire(slot: nat, minCapacity: nat) | Reset(slot: nat) | Move(from: nat, to: nat)

  /** Reset gives back what the slot owns and empties it. */
  function ResetSlot(w: World, s: nat): World
    requires s < |w.slots|
  {
    if w.slots[s].None? then w
    else World(ReleaseTo(w.pool, w.slots[s].value), w.slots[s := None])
  }

  /** Move assignment resets its target first; onto itself it does nothing. */
  function Step(w: World, a: Action): (w': World)
    requires w.Valid()
    ensures w'.Valid() && |w'.slots| == |w.slots|
  {
    match a
    case Acquire(s, n) =>
      if s >= |w.slots| then w
      else
        ResetKeeps(w, s);
        var emptied := ResetSlot(w, s);
        FillKeeps(emptied, s, n);
        var (q, h) := AcquireFrom(emptied.pool, n);
        World(q, emptied.slots[s := Some(h)])
    case Reset(s) =>
      if s >= |w.slots| then w else ResetKeeps(w, s); ResetSlot(w, s)
    case Move(from, to) =>
      if from >= |w.slots| || to >= |w.slots| || from == to then w
      else
        ResetKeeps(w, to);
        var emptied := ResetSlot(w, to);
        MoveKeeps(emptied, from, to);
        emptied.(slots := emptied.slots[to := emptied.slots[from]][from := None])
  }

  lemma ResetKeeps(w: World, s: nat)
    requires w.Valid() && s < |w.slots|
    ensures var r := ResetSlot(w, s); r.Valid() && |r.slots| == |w.slots| && r.slots[s].None?
    ensures forall k | 0 <= k < |w.slots| && k != s :: ResetSlot(w, s).slots[k] == w.slots[k]
  {
    if w.slots[s].Some? {
      ResetLedger(w.pool, w.slots, s);
    }
  }

  lemma ResetLedger(p: Pool, slots: seq<Option<Handle>>, s: nat)
    requires s < |slots| && slots[s].Some? && Ledger(p, Owned(slots)) && HandleFits(slots[s].value)
    ensures Ledger(ReleaseTo(p, slots[s].value), Owned(slots[s := None]))
  {
    OwnedEmptied(slots, s);
    ReleaseKeeps(p, Owned(slots), slots[s].value);
  }

  lemma OwnedEmptied(slots: seq<Option<Handle>>, s: nat)
    requires s < |slots| && slots[s].Some?
    ensures slots[s].value.buffer in Owned(slots)
    ensures Owned(slots[s := None]) == Owned(slots) - multiset{slots[s].value.buffer}
  {
    var b := slots[s].value.buffer;
    OwnedUpdate(slots, s, None);
    assert Owned(slots) == Owned(slots[s := None]) + multiset{b};
  }

  lemma FillKeeps(w: World, s: nat, n: nat)
    requires w.Valid() && s < |w.slots| && w.slots[s].None?
    ensures var (q, h) := AcquireFrom(w.pool, n); World(q, w.slots[s := Some(h)]).Valid() && n <= h.capacity
  {
    var (q, h) := AcquireFrom(w.pool, n);
    AcquireKeeps(w.pool, Owned(w.slots), n);
    OwnedUpdate(w.slots, s, Some(h));
    assert Owned(w.slots[s := Some(h)]) == Owned(w.slots) + multiset{h.buffer};
  }

  lemma MoveKeeps(w: World, from: nat, to: nat)
    requires w.Valid() && from < |w.slots| && to < |w.slots| && from != to && w.slots[to].None?
    ensures w.(slots := w.slots[to := w.slots[from]][from := None]).Valid()
    ensures Owned(w.slots[to := w.slots[from]][from := None]) == Owned(w.slots)
  {
    var mid := w.slots[to := w.slots[from]];
    OwnedUpdate(w.slots, to, w.slots[from]);
    OwnedUpdate(mid, from, None);
    Cancels(Owned(mid[from := None]), Owned(w.slots), One(w.slots[from]));
  }

  function Run(w: World, actions: seq<Action>): (end: World)
    requires w.Valid()
    ensures end.Valid() && |end.slots| == |w.slots|
    decreases |actions|
  {
    if actions == [] then w else Run(Step(w, actions[0]), actions[1..])
  }

  lemma {:induction false} OwnedHas(slots: seq<Option<Handle>>, s: nat)
    requires s < |slots| && slots[s].Some?
    ensures slots[s].value.buffer in Owned(slots)
  {
    if s > 0 { OwnedHas(slots[1..], s - 1); }
  }

  /** After any run of acquires, resets and moves no two handles own one buffer, and none owns a cached one. */
  lemma OneOwner(w: World, s: nat, t: nat)
    requires w.Valid() && s < |w.slots| && t < |w.slots| && s != t && w.slots[s].Some? && w.slots[t].Some?
    ensures w.slots[s].value.buffer.id != w.slots[t].value.buffer.id
    ensures w.slots[s].value.buffer !in Cached(w.pool.lists)
  {
    var b, d := w.slots[s].value.buffer, w.slots[t].value.buffer;
    OwnedHas(w.slots, s);
    var others := w.slots[s := None];
    OwnedUpdate(w.slots, s, None);
    assert Owned(w.slots) == Owned(others) + multiset{b};
    assert others[t] == w.slots[t];
    OwnedHas(others, t);
    var live := Cached(w.pool.lists) + Owned(w.slots);
    assert b in live && d in live && live[b] == 1;
    assert Different(b, d);
  }

  function Empty(n: nat): (slots: seq<Option<Handle>>)
    ensures |slots| == n && forall s | 0 <= s < n :: slots[s] == None
    ensures Owned(slots) == multiset{}
  {
    if n == 0 then [] else [None] + Empty(n - 1)
  }

  function NewWorld(maxCached: nat, direct: bool, n: nat): (w: World)
    ensures w.Valid()
  {
    NothingCached();
    World(NewBufferPool(maxCached, direct), Empty(n))
  }

  lemma NothingCached()
    ensures Cached([[], [], [], [], []]) == multiset{}
  {
    var e: seq<Buffer> := [];
    assert [e, e, e, e, e][1..] == [e, e, e, e] && [e, e, e, e][1..] == [e, e, e] && [e, e, e][1..] == [e, e];
    assert [e, e][1..] == [e] && Cached([e]) == multiset{} && Cached([e, e]) == multiset{};
  }

  /** At the end of every run: owners apart, capacities true, counters equal to what is owned and cached. */
  lemma RunsKeepOwnership(maxCached: nat, direct: bool, n: nat, actions: seq<Action>)
    ensures var w := Run(NewWorld(maxCached, direct, n), actions);
            && (forall s, t | 0 <= s < t < n && w.slots[s].Some? && w.slots[t].Some? ::
                  w.slots[s].value.buffer.id != w.slots[t].value.buffer.id)
            && (forall s | 0 <= s < n && w.slots[s].Some? :: w.slots[s].value.capacity == w.slots[s].value.buffer.size)
            && w.pool.allocations - w.pool.deallocations == |Cached(w.pool.lists)| + |Owned(w.slots)|
  {
    OwnersApart(Run(NewWorld(maxCached, direct, n), actions));
  }

  lemma OwnersApart(w: World)
    requires w.Valid()
    ensures forall s, t | 0 <= s < t < |w.slots| && w.slots[s].Some? && w.slots[t].Some? ::
              w.slots[s].value.buffer.id != w.slots[t].value.buffer.id
    ensures w.pool.allocations - w.pool.deallocations == |Cached(w.pool.lists)| + |Owned(w.slots)|
  {
    forall s, t | 0 <= s < t < |w.slots| && w.slots[s].Some? && w.slots[t].Some?
      ensures w.slots[s].value.buffer.id != w.slots[t].value.buffer.id
    {
      OneOwner(w, s, t);
    }
  }

  // ---------- the pool object ----------

  class BufferPool {
    const maxCachedPerClass: nat
    const direct: bool
    var freeLists: seq<seq<Buffer>>
    var systemAllocations: nat
    var systemDeallocations: nat
    var poolHits: nat
    var poolReturns: nat

    function State(): Pool
      reads this
    {
      Pool(maxCachedPerClass, direct, freeLists, systemAllocations, systemDeallocations, poolHits, poolReturns)
    }

    constructor (maxCached: nat, direct: bool)
      ensures State() == NewBufferPool(maxCached, direct)
    {
      maxCachedPerClass, this.direct := maxCached, direct;
      freeLists := [[], [], [], [], []];
      systemAllocations, systemDeallocations, poolHits, poolReturns := 0, 0, 0, 0;
    }

    method AllocateDirect(minCapacity: nat) returns (h: Handle)
      modifies this
      ensures (State(), h) == Fresh(old(State()), BlockPools.AlignUp(minCapacity, BlockPools.DEFAULT_ALIGNMENT), None)
    {
      var capacity := BlockPools.AlignUp(minCapacity, BlockPools.DEFAULT_ALIGNMENT);
      h := Handle(Buffer(systemAllocations, capacity), capacity, None);
      systemAllocations := systemAllocations + 1;
    }

    method Acquire(minCapacity: nat) returns (h: Handle)
      requires |freeLists| == CLASS_COUNT
      modifies this
      ensures (State(), h) == AcquireFrom(old(State()), minCapacity)
    {
      if direct {
        h := AllocateDirect(minCapacity);
        return;
      }
      var i := 0;
      while i < CLASS_COUNT
        invariant i <= CLASS_COUNT && State() == old(State())
        invariant ClassFor(minCapacity, 0) == ClassFor(minCapacity, i)
      {
        if minCapacity <= SizeClass(i) {
          var list := freeLists[i];
          if list != [] {
            h := Handle(list[|list| - 1], SizeClass(i), Some(i));
            freeLists := freeLists[i := list[..|list| - 1]];
            poolHits := poolHits + 1;
          } else {
            h := Handle(Buffer(systemAllocations, SizeClass(i)), SizeClass(i), Some(i));
            systemAllocations := systemAllocations + 1;
          }
          return;
        }
        i := i + 1;
      }
      h := AllocateDirect(minCapacity);
    }

    method Release(h: Handle)
      requires |freeLists| == CLASS_COUNT && (h.sizeClass.Some? ==> h.sizeClass.value < CLASS_COUNT)
      modifies this
      ensures State() == ReleaseTo(old(State()), h)
    {
      if h.sizeClass.Some? && |freeLists[h.sizeClass.value]| < maxCachedPerClass {
        var c := h.sizeClass.value;
        freeLists := freeLists[c := freeLists[c] + [h.buffer]];
        poolReturns := poolReturns + 1;
      } else {
        systemDeallocations := systemDeallocations + 1;
      }
    }
  }
}
