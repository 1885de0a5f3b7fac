/** src/simd: the block compare kernels write the mask the scalar kernels write. */
module CompareKernels {
  import opened Wrappers
  import opened Values
  import opened Arithmetic
  import opened BitWords
  import opened Batches
  import opened SelectionMasks

  // ---------- Lanes ----------

  /** The vector comparisons: NE, GE and LE by complement, LT by swapping. */
  predicate CompareLane(a: real, b: real, op: CmpOp): (hit: bool)
    ensures hit == CompareReals(op, a, b)
  {
    match op
    case EQ => a == b
    case NE => !(a == b)
    case GT => a > b
    case LT => b > a
    case GE => !(b > a)
    case LE => !(a > b)
  }

  /** movemask: bit k is lane k. */
  function Movemask(lanes: seq<bool>): nat {
    if lanes == [] then 0 else Digit(lanes[0]) + 2 * Movemask(lanes[1..])
  }

  lemma {:induction false} MovemaskBit(lanes: seq<bool>, k: nat)
    ensures Bit(Movemask(lanes), k) <==> k < |lanes| && lanes[k]
    ensures Movemask(lanes) < Pow2(|lanes|)
  {
    if lanes == [] {
      ZeroBit(k);
    } else {
      MovemaskBit(lanes[1..], if k > 0 then k - 1 else 0);
    }
  }

  // ---------- Packing partial masks into one word ----------

  /** m[0] | (m[1] << width) | (m[2] << 2 * width) | ... */
  function Pack(m: seq<nat>, width: nat): nat {
    if m == [] then 0
    else
      var n := |m| - 1;
      Or(Pack(m[..n], width), Shl(m[n], n * width))
  }

  predicate Narrow(m: seq<nat>, width: nat) {
    forall i | 0 <= i < |m| :: m[i] < Pow2(width)
  }

  lemma OrShifted(acc: nat, m: nat, s: nat, k: nat)
    requires acc < Pow2(s)
    ensures Bit(Or(acc, Shl(m, s)), k) <==> if k < s then Bit(acc, k) else Bit(m, k - s)
  {
    OrBit(acc, Shl(m, s), k);
    ShlBit(m, s, k);
    if k >= s {
      HighBitsClear(acc, s, k);
    }
  }

  lemma PackStepBound(acc: nat, m: nat, s: nat, width: nat)
    requires acc < Pow2(s) && m < Pow2(width)
    ensures Or(acc, Shl(m, s)) < Pow2(s + width)
  {
    ShlBound(m, s, width);
    Pow2Monotone(s, s + width);
    OrBound(acc, Shl(m, s), s + width);
  }

  lemma {:induction false} PackBound(m: seq<nat>, width: nat)
    requires Narrow(m, width)
    ensures Pack(m, width) < Pow2(|m| * width)
  {
    if m != [] {
      var n := |m| - 1;
      var s := n * width;
      assert |m| * width == s + width;
      PackBound(m[..n], width);
      PackStepBound(Pack(m[..n], width), m[n], s, width);
    }
  }

  lemma {:induction false} PackBit(m: seq<nat>, width: nat, i: nat, b: nat)
    requires Narrow(m, width) && i < |m| && b < width
    ensures Bit(Pack(m, width), i * width + b) <==> Bit(m[i], b)
  {
    var n := |m| - 1;
    PackBound(m[..n], width);
    OrShifted(Pack(m[..n], width), m[n], n * width, i * width + b);
    if i < n {
      TimesGrows(i, n, width);
      PackBit(m[..n], width, i, b);
    }
  }

  /** Partial masks packed four at a time. */
  function Quads(m: seq<nat>, width: nat): (parts: seq<nat>)
    requires |m| % 4 == 0
    ensures |parts| == |m| / 4
    ensures forall g | 0 <= g < |parts| :: parts[g] == Pack(m[4 * g..4 * g + 4], width)
  {
    seq(|m| / 4, g requires 0 <= g < |m| / 4 => Pack(m[4 * g..4 * g + 4], width))
  }

  /**
   * The word of a 64-row block: fours of masks, then the fours together. That is two halves for 8 lanes and
   * four quarters for 4 lanes.
   */
  function BlockWord(m: seq<nat>, width: nat): nat
    requires |m| % 4 == 0
  {
    Pack(Quads(m, width), 4 * width)
  }

  lemma QuadsNarrow(m: seq<nat>, width: nat)
    requires |m| % 4 == 0 && Narrow(m, width)
    ensures Narrow(Quads(m, width), 4 * width)
  {
    forall g | 0 <= g < |m| / 4 ensures Quads(m, width)[g] < Pow2(4 * width) {
      PackBound(m[4 * g..4 * g + 4], width);
    }
  }

  lemma BlockWordBound(m: seq<nat>, width: nat, bits: nat)
    requires |m| % 4 == 0 && Narrow(m, width) && |m| * width == bits
    ensures BlockWord(m, width) < Pow2(bits)
  {
    var q := |m| / 4;
    QuadsNarrow(m, width);
    PackBound(Quads(m, width), 4 * width);
    Regroup(q, width);
    assert |m| == 4 * q;
  }

  /** Bit b of mask i of quad g. */
  lemma BlockWordAt(m: seq<nat>, width: nat, g: nat, i: nat, b: nat)
    requires |m| % 4 == 0 && Narrow(m, width) && g < |m| / 4 && i < 4 && b < width
    ensures Bit(BlockWord(m, width), g * (4 * width) + (i * width + b)) <==> Bit(m[4 * g + i], b)
  {
    var parts, quad := Quads(m, width), m[4 * g..4 * g + 4];
    QuadsNarrow(m, width);
    TimesGrows(i, 4, width);
    PackBit(parts, 4 * width, g, i * width + b);
    PackBit(quad, width, i, b);
  }

  /** Bit k of the word is bit k % lanes of mask k / lanes. */
  lemma BlockWordBit(m: seq<nat>, lanes: nat, k: nat)
    requires (lanes == 8 && |m| == 8) || (lanes == 4 && |m| == 16)
    requires Narrow(m, lanes) && k < 64
    ensures Bit(BlockWord(m, lanes), k) <==> Bit(m[k / lanes], k % lanes)
  {
    if lanes == 8 {
      BlockWordAt(m, 8, k / 32, k / 8 - 4 * (k / 32), k % 8);
    } else {
      BlockWordAt(m, 4, k / 16, k / 4 - 4 * (k / 16), k % 4);
    }
  }

  // ---------- Progress of a kernel ----------

  /** The rows before `upTo` have their bits, the others are still zero. */
  ghost predicate Progress(words: seq<nat>, hits: seq<bool>, upTo: nat) {
    && |words| == WORD_COUNT && AllFit(words) && upTo <= |hits|
    && forall j: nat :: At(words, j) <==> j < upTo && hits[j]
  }

  lemma LaneWordFits(word: nat, m: nat, s: nat, lanes: nat)
    requires WordFits(word) && m < Pow2(lanes) && s + lanes <= WORD_BITS
    ensures WordFits(Or(word, Shl(m, s)))
  {
    ShlBound(m, s, lanes);
    Pow2Monotone(lanes + s, WORD_BITS);
    OrBound(word, Shl(m, s), WORD_BITS);
  }

  /** A partial mask or-ed into its word; it does not reach into the next one. */
  lemma LaneStep(words: seq<nat>, hits: seq<bool>, i: nat, lanes: nat, m: nat)
    requires Progress(words, hits, i) && i + lanes <= |hits| <= BATCH_SIZE && 0 < lanes
    requires i % WORD_BITS + lanes <= WORD_BITS
    requires m < Pow2(lanes) && forall k: nat :: Bit(m, k) <==> k < lanes && hits[i + k]
    ensures Progress(words[i / WORD_BITS := Or(words[i / WORD_BITS], Shl(m, i % WORD_BITS))], hits, i + lanes)
  {
    var w, s := i / WORD_BITS, i % WORD_BITS;
    var words' := words[w := Or(words[w], Shl(m, s))];
    assert WordFits(words[w]);
    LaneWordFits(words[w], m, s, lanes);
    forall j: nat ensures At(words', j) <==> j < i + lanes && hits[j] {
      LaneBit(words, hits, i, lanes, m, j);
    }
  }

  lemma LaneBit(words: seq<nat>, hits: seq<bool>, i: nat, lanes: nat, m: nat, j: nat)
    requires |words| == WORD_COUNT && i + lanes <= |hits| <= BATCH_SIZE && 0 < lanes
    requires At(words, j) <==> j < i && hits[j]
    requires i % WORD_BITS + lanes <= WORD_BITS
    requires forall k: nat :: Bit(m, k) <==> k < lanes && hits[i + k]
    ensures At(words[i / WORD_BITS := Or(words[i / WORD_BITS], Shl(m, i % WORD_BITS))], j) <==> j < i + lanes && hits[j]
  {
    var w, s := i / WORD_BITS, i % WORD_BITS;
    if j / WORD_BITS == w {
      OrBit(words[w], Shl(m, s), j % WORD_BITS);
      ShlBit(m, s, j % WORD_BITS);
      if j >= i {
        assert j % WORD_BITS - s == j - i;
        assert Bit(m, j - i) <==> j - i < lanes && hits[i + (j - i)];
      }
    }
  }

  /** A whole word overwritten. */
  lemma BlockStep(words: seq<nat>, hits: seq<bool>, i: nat, word: nat)
    requires Progress(words, hits, i) && i % WORD_BITS == 0 && i + WORD_BITS <= |hits| <= BATCH_SIZE
    requires WordFits(word) && forall k: nat | k < WORD_BITS :: Bit(word, k) <==> hits[i + k]
    ensures Progress(words[i / WORD_BITS := word], hits, i + WORD_BITS)
  {
    var w := i / WORD_BITS;
    var words' := words[w := word];
    forall j: nat ensures At(words', j) <==> j < i + WORD_BITS && hits[j] {
      assert At(words, j) <==> j < i && hits[j];
      if j / WORD_BITS == w {
        assert Bit(word, j - i) <==> hits[i + (j - i)];
      }
    }
  }

  /** Masks with the same rows have the same words. */
  lemma SameMask(a: seq<nat>, b: seq<nat>)
    requires |a| == |b| && AllFit(a) && AllFit(b) && forall i: nat :: At(a, i) <==> At(b, i)
    ensures a == b
  {
    forall w | 0 <= w < |a| ensures a[w] == b[w] {
      assert WordFits(a[w]) && WordFits(b[w]);
      forall k | 0 <= k < WORD_BITS ensures Bit(a[w], k) == Bit(b[w], k) {
        assert At(a, WORD_BITS * w + k) <==> At(b, WORD_BITS * w + k);
      }
      SameBits(a[w], b[w], WORD_BITS);
    }
  }

  // ---------- The kernels ----------

  /** What a comparison of two columns (or of a column with a broadcast constant) decides, row by row. */
  function Hits(lhs: seq<real>, rhs: seq<real>, count: nat, op: CmpOp): (hits: seq<bool>)
    requires count <= |lhs| && count <= |rhs|
    ensures |hits| == count && forall i | 0 <= i < count :: hits[i] == CompareReals(op, lhs[i], rhs[i])
  {
    seq(count, i requires 0 <= i < count => CompareReals(op, lhs[i], rhs[i]))
  }

  ghost predicate IsMaskOf(mask: SelectionMask, hits: seq<bool>)
    reads mask, mask.words
  {
    mask.Valid() && mask.rowCount == |hits| && forall i: nat :: mask.Has(i) <==> i < |hits| && hits[i]
  }

  method Start(mask: SelectionMask, count: nat, ghost hits: seq<bool>)
    requires mask.words.Length == WORD_COUNT && |hits| == count <= BATCH_SIZE
    modifies mask`rowCount, mask.words
    ensures mask.rowCount == |hits| && Progress(mask.words[..], hits, 0)
  {
    mask.SetNone(count);
    forall i: nat ensures !At(mask.words[..], i) {
      assert !mask.Has(i);
    }
  }

  /** One row: its bit, if it hits. */
  method StoreRow(mask: SelectionMask, ghost hits: seq<bool>, i: nat, hit: bool)
    requires mask.words.Length == WORD_COUNT && Progress(mask.words[..], hits, i)
    requires i < |hits| <= BATCH_SIZE && hits[i] == hit
    modifies mask.words
    ensures Progress(mask.words[..], hits, i + 1)
  {
    if hit {
      forall k: nat ensures Bit(1, k) <==> k < 1 && hits[i + k] {
        UnitBit(0, k);
      }
      LaneStep(mask.words[..], hits, i, 1, 1);
      ghost var before := mask.words[..];
      mask.words[i / WORD_BITS] := Or(mask.words[i / WORD_BITS], Shl(1, i % WORD_BITS));
      assert mask.words[..] == before[i / WORD_BITS := Or(before[i / WORD_BITS], Shl(1, i % WORD_BITS))];
    }
  }

  method StoreLanes(mask: SelectionMask, ghost hits: seq<bool>, i: nat, lanes: seq<bool>)
    requires mask.words.Length == WORD_COUNT && Progress(mask.words[..], hits, i)
    requires 0 < |lanes| && i + |lanes| <= |hits| <= BATCH_SIZE && i % WORD_BITS + |lanes| <= WORD_BITS
    requires lanes == hits[i..i + |lanes|]
    modifies mask.words
    ensures Progress(mask.words[..], hits, i + |lanes|)
  {
    var m := Movemask(lanes);
    forall k: nat ensures Bit(m, k) <==> k < |lanes| && hits[i + k] {
      MovemaskBit(lanes, k);
    }
    MovemaskBit(lanes, 0);
    LaneStep(mask.words[..], hits, i, |lanes|, m);
    ghost var before := mask.words[..];
    mask.words[i / WORD_BITS] := Or(mask.words[i / WORD_BITS], Shl(m, i % WORD_BITS));
    assert mask.words[..] == before[i / WORD_BITS := Or(before[i / WORD_BITS], Shl(m, i % WORD_BITS))];
  }

  predicate IsWordOf(word: nat, block: seq<bool>)
    requires |block| == WORD_BITS
  {
    WordFits(word) && forall k: nat | k < WORD_BITS :: Bit(word, k) == block[k]
  }

  method StoreBlock(mask: SelectionMask, ghost hits: seq<bool>, i: nat, word: nat)
    requires mask.words.Length == WORD_COUNT && Progress(mask.words[..], hits, i)
    requires i % WORD_BITS == 0 && i + WORD_BITS <= |hits| <= BATCH_SIZE
    requires IsWordOf(word, hits[i..i + WORD_BITS])
    modifies mask.words
    ensures Progress(mask.words[..], hits, i + WORD_BITS)
  {
    forall k: nat | k < WORD_BITS ensures Bit(word, k) <==> hits[i + k] {
      assert hits[i..i + WORD_BITS][k] == hits[i + k];
    }
    BlockStep(mask.words[..], hits, i, word);
    ghost var before := mask.words[..];
    mask.words[i / WORD_BITS] := word;
    assert mask.words[..] == before[i / WORD_BITS := word];
  }

  /** The vector comparison of rows `at` to `at + n`, lane by lane. */
  function Lanes(lhs: seq<real>, rhs: seq<real>, at: nat, n: nat, op: CmpOp): (lanes: seq<bool>)
    requires at + n <= |lhs| && at + n <= |rhs|
    ensures |lanes| == n && forall k | 0 <= k < n :: lanes[k] == LaneHit(lhs, rhs, at + k, op)
  {
    seq(n, k requires 0 <= k < n => LaneHit(lhs, rhs, at + k, op))
  }

  predicate LaneHit(lhs: seq<real>, rhs: seq<real>, i: nat, op: CmpOp): (hit: bool)
    requires i < |lhs| && i < |rhs|
    ensures hit == CompareReals(op, lhs[i], rhs[i])
  {
    CompareLane(lhs[i], rhs[i], op)
  }

  lemma LanesAreHits(lhs: seq<real>, rhs: seq<real>, count: nat, op: CmpOp, at: nat, n: nat)
    requires count <= |lhs| && count <= |rhs| && at + n <= count
    ensures Lanes(lhs, rhs, at, n, op) == Hits(lhs, rhs, count, op)[at..at + n]
  {
    var lanes, hits := Lanes(lhs, rhs, at, n, op), Hits(lhs, rhs, count, op);
    forall k | 0 <= k < n ensures lanes[k] == hits[at..at + n][k] {
      assert lanes[k] == LaneHit(lhs, rhs, at + k, op);
    }
  }

  /** The reference kernel. */
  method CompareScalar(lhs: seq<real>, rhs: seq<real>, count: nat, op: CmpOp, mask: SelectionMask)
    requires count <= |lhs| && count <= |rhs| && count <= BATCH_SIZE && mask.words.Length == WORD_COUNT
    modifies mask`rowCount, mask.words
    ensures IsMaskOf(mask, Hits(lhs, rhs, count, op))
  {
    ghost var hits := Hits(lhs, rhs, count, op);
    Start(mask, count, hits);
    var i := 0;
    while i < count
      modifies mask.words
      invariant 0 <= i <= count && Progress(mask.words[..], hits, i)
    {
      StoreRow(mask, hits, i, CompareReals(op, lhs[i], rhs[i]));
      i := i + 1;
    }
    ProgressEnd(mask, hits);
  }

  /** The i-th vector of a block. */
  function Vector(block: seq<bool>, i: nat, lanes: nat): seq<bool> {
    if i * lanes + lanes <= |block| then block[i * lanes..i * lanes + lanes] else []
  }

  predicate AreMasksOf(m: seq<nat>, block: seq<bool>, lanes: nat) {
    forall i | 0 <= i < |m| :: m[i] == Movemask(Vector(block, i, lanes))
  }

  /** The masks of one 64-row block, vector by vector. */
  method BlockMasks(block: seq<bool>, lanes: nat) returns (m: seq<nat>)
    requires (lanes == 8 || lanes == 4) && |block| == WORD_BITS
    ensures |m| == WORD_BITS / lanes && AreMasksOf(m, block, lanes)
  {
    m := [];
    while |m| < WORD_BITS / lanes
      invariant |m| <= WORD_BITS / lanes && AreMasksOf(m, block, lanes)
    {
      m := m + [Movemask(Vector(block, |m|, lanes))];
    }
  }

  method BlockOf(block: seq<bool>, lanes: nat) returns (word: nat)
    requires (lanes == 8 || lanes == 4) && |block| == WORD_BITS
    ensures IsWordOf(word, block)
  {
    var m := BlockMasks(block, lanes);
    word := BlockWord(m, lanes);
    BlockWordIsBlock(m, block, lanes);
  }

  lemma MaskFits(block: seq<bool>, i: nat, lanes: nat, b: nat)
    requires i * lanes + lanes <= |block| && b < lanes
    ensures Movemask(Vector(block, i, lanes)) < Pow2(lanes)
    ensures Bit(Movemask(Vector(block, i, lanes)), b) == block[i * lanes + b]
  {
    MovemaskBit(Vector(block, i, lanes), b);
  }

  lemma MasksNarrow(m: seq<nat>, block: seq<bool>, lanes: nat)
    requires lanes > 0 && AreMasksOf(m, block, lanes) && |m| * lanes == |block|
    ensures Narrow(m, lanes)
  {
    forall i | 0 <= i < |m| ensures m[i] < Pow2(lanes) {
      TimesGrows(i, |m|, lanes);
      MaskFits(block, i, lanes, 0);
    }
  }

  lemma BlockWordIsBlock(m: seq<nat>, block: seq<bool>, lanes: nat)
    requires (lanes == 8 && |m| == 8) || (lanes == 4 && |m| == 16)
    requires |block| == WORD_BITS && AreMasksOf(m, block, lanes)
    ensures IsWordOf(BlockWord(m, lanes), block)
  {
    MasksNarrow(m, block, lanes);
    BlockWordBound(m, lanes, WORD_BITS);
    forall k: nat | k < WORD_BITS ensures Bit(BlockWord(m, lanes), k) == block[k] {
      BlockWordBit(m, lanes, k);
      MaskOfRow(m, block, lanes, k);
    }
  }

  lemma MaskOfRow(m: seq<nat>, block: seq<bool>, lanes: nat, k: nat)
    requires (lanes == 8 && |m| == 8) || (lanes == 4 && |m| == 16)
    requires |block| == WORD_BITS && AreMasksOf(m, block, lanes) && k < WORD_BITS
    ensures Bit(m[k / lanes], k % lanes) == block[k]
  {
    if lanes == 8 {
      MaskFits(block, k / 8, 8, k % 8);
    } else {
      MaskFits(block, k / 4, 4, k % 4);
    }
  }

  /** Vectors that start at a multiple of their width stay inside one word. */
  lemma NoStraddle(i: nat, lanes: nat)
    requires (lanes == 8 || lanes == 4) && i % lanes == 0
    ensures i % WORD_BITS + lanes <= WORD_BITS && (i + lanes) % lanes == 0
  {
  }

  /**
   * The vector kernel with 8 or 4 lanes: whole 64-row blocks, then whole vectors, then single rows. It writes
   * the mask the scalar kernel writes.
   */
  method CompareBlocks(lhs: seq<real>, rhs: seq<real>, count: nat, op: CmpOp, lanes: nat, mask: SelectionMask)
    requires lanes == 8 || lanes == 4
    requires count <= |lhs| && count <= |rhs| && count <= BATCH_SIZE && mask.words.Length == WORD_COUNT
    modifies mask`rowCount, mask.words
    ensures IsMaskOf(mask, Hits(lhs, rhs, count, op))
  {
    ghost var hits := Hits(lhs, rhs, count, op);
    Start(mask, count, hits);
    var i := 0;
    while i + WORD_BITS <= count
      modifies mask.words
      invariant 0 <= i <= count && i % WORD_BITS == 0 && Progress(mask.words[..], hits, i)
    {
      LanesAreHits(lhs, rhs, count, op, i, WORD_BITS);
      var word := BlockOf(Lanes(lhs, rhs, i, WORD_BITS, op), lanes);
      StoreBlock(mask, hits, i, word);
      i := i + WORD_BITS;
    }
    assert i % lanes == 0;
    while i + lanes <= count
      modifies mask.words
      invariant 0 <= i <= count && i % lanes == 0 && Progress(mask.words[..], hits, i)
    {
      NoStraddle(i, lanes);
      LanesAreHits(lhs, rhs, count, op, i, lanes);
      StoreLanes(mask, hits, i, Lanes(lhs, rhs, i, lanes, op));
      i := i + lanes;
    }
    while i < count
      modifies mask.words
      invariant 0 <= i <= count && Progress(mask.words[..], hits, i)
    {
      StoreRow(mask, hits, i, CompareReals(op, lhs[i], rhs[i]));
      i := i + 1;
    }
    ProgressEnd(mask, hits);
  }

  lemma ProgressEnd(mask: SelectionMask, hits: seq<bool>)
    requires mask.words.Length == WORD_COUNT && mask.rowCount == |hits| <= BATCH_SIZE
    requires Progress(mask.words[..], hits, |hits|)
    ensures IsMaskOf(mask, hits)
  {
    forall i: nat ensures mask.Has(i) <==> i < |hits| && hits[i] {
      assert At(mask.words[..], i) <==> i < |hits| && hits[i];
    }
  }

  /** The two kernels agree word for word. */
  lemma KernelsAgree(scalar: SelectionMask, vector: SelectionMask, hits: seq<bool>)
    requires IsMaskOf(scalar, hits) && IsMaskOf(vector, hits)
    ensures scalar.words[..] == vector.words[..] && scalar.rowCount == vector.rowCount
  {
    forall i: nat ensures At(scalar.words[..], i) <==> At(vector.words[..], i) {
      assert scalar.Has(i) <==> vector.Has(i);
    }
    SameMask(scalar.words[..], vector.words[..]);
  }
}
