/** src/simd/selection_mask.{h,cpp}: a bitmap of active rows and the cursor that walks it. */
module SelectionMasks {
  import opened Wrappers
  import opened BitWords
  import opened Batches

  /** kWordCount: a batch has at most 1024 rows, a compile-time constant, in words of 64. */
  const WORD_COUNT: nat := 16

  function Lowest(a: nat, b: nat): nat { if a < b then a else b }

  function Highest(a: nat, b: nat): nat { if a < b then b else a }

  /** Words that cover `rowCount` rows. */
  function UsedWords(rowCount: nat): nat {
    (rowCount + WORD_BITS - 1) / WORD_BITS
  }

  predicate WordFits(n: nat) {
    n < Pow2(WORD_BITS)
  }

  // ---------- One word of ClearUnusedBits ----------

  function Cleared(word: nat, w: nat, rowCount: nat): nat {
    if rowCount <= WORD_BITS * w then 0
    else if rowCount - WORD_BITS * w < WORD_BITS then And(word, LowMask(rowCount - WORD_BITS * w))
    else word
  }

  lemma ClearedBit(word: nat, w: nat, rowCount: nat, k: nat)
    requires k < WORD_BITS
    ensures Bit(Cleared(word, w, rowCount), k) <==> Bit(word, k) && WORD_BITS * w + k < rowCount
  {
    if rowCount <= WORD_BITS * w {
      ZeroBit(k);
    } else if rowCount - WORD_BITS * w < WORD_BITS {
      AndBit(word, LowMask(rowCount - WORD_BITS * w), k);
      LowMaskBit(rowCount - WORD_BITS * w, k);
    }
  }

  lemma ClearedFits(word: nat, w: nat, rowCount: nat)
    requires WordFits(word)
    ensures WordFits(Cleared(word, w, rowCount))
  {
    if WORD_BITS * w < rowCount && rowCount - WORD_BITS * w < WORD_BITS {
      AndBound(word, LowMask(rowCount - WORD_BITS * w));
    }
  }

  // ---------- The set rows in order ----------

  /** Rows of word `w` whose bits are set, lowest first: ctz, then clear the lowest bit. */
  function WordRows(w: nat, bits: nat): seq<nat>
    decreases bits
  {
    if bits == 0 then []
    else
      ClearLowestCounts(bits);
      [WORD_BITS * w + Ctz(bits)] + WordRows(w, And(bits, bits - 1))
  }

  function RowsFrom(words: seq<nat>, from: nat, upTo: nat): seq<nat>
    requires upTo <= |words|
    decreases upTo - from
  {
    if from >= upTo then [] else WordRows(from, words[from]) + RowsFrom(words, from + 1, upTo)
  }

  predicate Ascending(s: seq<nat>) {
    forall i, j | 0 <= i < j < |s| :: s[i] < s[j]
  }

  lemma {:induction false} WordRowsExact(w: nat, bits: nat, k: nat)
    requires WordFits(bits) && k < WORD_BITS
    ensures WORD_BITS * w + k in WordRows(w, bits) <==> Bit(bits, k)
    ensures forall r | r in WordRows(w, bits) :: WORD_BITS * w <= r < WORD_BITS * w + WORD_BITS
    decreases bits
  {
    if bits == 0 {
      ZeroBit(k);
    } else {
      ClearLowestCounts(bits);
      ClearLowest(bits, k);
      CtzIsLowest(bits, k);
      CtzInWord(bits);
      WordRowsExact(w, And(bits, bits - 1), k);
    }
  }

  lemma CtzInWord(bits: nat)
    requires 0 < bits && WordFits(bits)
    ensures Ctz(bits) < WORD_BITS
  {
    CtzIsLowest(bits, 0);
    if Ctz(bits) >= WORD_BITS {
      HighBitsClear(bits, WORD_BITS, Ctz(bits));
    }
  }

  lemma {:induction false} WordRowsAscend(w: nat, bits: nat)
    requires WordFits(bits)
    ensures Ascending(WordRows(w, bits))
    ensures |WordRows(w, bits)| == Popcount(bits)
    decreases bits
  {
    if bits != 0 {
      var rest := And(bits, bits - 1);
      ClearLowestCounts(bits);
      WordRowsAscend(w, rest);
      forall r | r in WordRows(w, rest) ensures WORD_BITS * w + Ctz(bits) < r {
        WordRowsExact(w, rest, 0);
        var k := r - WORD_BITS * w;
        WordRowsExact(w, rest, k);
        ClearLowest(bits, k);
        CtzIsLowest(bits, k);
      }
      var tail := WordRows(w, rest);
      assert forall j | 0 <= j < |tail| :: tail[j] in tail;
    }
  }

  /** Whether row `i` is set. */
  predicate At(words: seq<nat>, i: nat) {
    i / WORD_BITS < |words| && Bit(words[i / WORD_BITS], i % WORD_BITS)
  }

  predicate AllFit(words: seq<nat>) {
    forall w | 0 <= w < |words| :: WordFits(words[w])
  }

  /** The walk lists exactly the set rows of its words, in ascending order. */
  lemma {:induction false} RowsFromExact(words: seq<nat>, from: nat, upTo: nat)
    requires from <= upTo <= |words| && AllFit(words)
    ensures Ascending(RowsFrom(words, from, upTo))
    ensures forall r | r in RowsFrom(words, from, upTo) :: WORD_BITS * from <= r
    ensures forall r :: r in RowsFrom(words, from, upTo) <==> from <= r / WORD_BITS < upTo && At(words, r)
    decreases upTo - from
  {
    if from < upTo {
      RowsFromExact(words, from + 1, upTo);
      WordRowsAscend(from, words[from]);
      var here, rest := WordRows(from, words[from]), RowsFrom(words, from + 1, upTo);
      forall r ensures r in here <==> r / WORD_BITS == from && At(words, r) {
        WordRowsExact(from, words[from], r % WORD_BITS);
        assert r == WORD_BITS * (r / WORD_BITS) + r % WORD_BITS;
      }
      forall i, j | 0 <= i < |here| && 0 <= j < |rest| ensures here[i] < rest[j] {
        assert here[i] in here && rest[j] in rest;
      }
    }
  }

  function PopcountFrom(words: seq<nat>, from: nat, upTo: nat): nat
    requires upTo <= |words|
    decreases upTo - from
  {
    if from >= upTo then 0 else Popcount(words[from]) + PopcountFrom(words, from + 1, upTo)
  }

  lemma {:induction false} PopcountIsLength(words: seq<nat>, from: nat, upTo: nat)
    requires upTo <= |words| && AllFit(words)
    ensures PopcountFrom(words, from, upTo) == |RowsFrom(words, from, upTo)|
    decreases upTo - from
  {
    if from < upTo {
      WordRowsAscend(from, words[from]);
      PopcountIsLength(words, from + 1, upTo);
    }
  }

  /** A mask's rows are exactly the set ones. */
  lemma RowsDenote(words: seq<nat>, rowCount: nat)
    requires |words| == WORD_COUNT && rowCount <= BATCH_SIZE && AllFit(words)
    requires forall i: nat | rowCount <= i :: !At(words, i)
    ensures Ascending(RowsFrom(words, 0, UsedWords(rowCount)))
    ensures forall r :: r in RowsFrom(words, 0, UsedWords(rowCount)) <==> At(words, r)
  {
    RowsFromExact(words, 0, UsedWords(rowCount));
  }

  lemma UsedWordsSplit(rowCount: nat, v: nat)
    ensures v + 1 < UsedWords(rowCount) ==> WORD_BITS * v + WORD_BITS <= rowCount
    ensures v + 1 == UsedWords(rowCount) ==>
              var rem := rowCount % WORD_BITS; rowCount - WORD_BITS * v == if rem == 0 then WORD_BITS else rem
    ensures v >= UsedWords(rowCount) ==> rowCount <= WORD_BITS * v
  {
  }

  lemma AndMasks(a: seq<nat>, b: seq<nat>, c: seq<nat>)
    requires |a| == |b| == |c| && AllFit(a) && forall w | 0 <= w < |a| :: c[w] == And(a[w], b[w])
    ensures AllFit(c) && forall i: nat :: At(c, i) <==> At(a, i) && At(b, i)
  {
    forall w | 0 <= w < |c| ensures WordFits(c[w]) {
      assert WordFits(a[w]);
      AndBound(a[w], b[w]);
    }
    forall i: nat ensures At(c, i) <==> At(a, i) && At(b, i) {
      if i / WORD_BITS < |a| { AndBit(a[i / WORD_BITS], b[i / WORD_BITS], i % WORD_BITS); }
    }
  }

  lemma OrMasks(a: seq<nat>, b: seq<nat>, c: seq<nat>)
    requires |a| == |b| == |c| && AllFit(a) && AllFit(b) && forall w | 0 <= w < |a| :: c[w] == Or(a[w], b[w])
    ensures AllFit(c) && forall i: nat :: At(c, i) <==> At(a, i) || At(b, i)
  {
    forall w | 0 <= w < |c| ensures WordFits(c[w]) {
      assert WordFits(a[w]) && WordFits(b[w]);
      OrBound(a[w], b[w], WORD_BITS);
    }
    forall i: nat ensures At(c, i) <==> At(a, i) || At(b, i) {
      if i / WORD_BITS < |a| { OrBit(a[i / WORD_BITS], b[i / WORD_BITS], i % WORD_BITS); }
    }
  }

  lemma AndNotMasks(a: seq<nat>, b: seq<nat>, c: seq<nat>)
    requires |a| == |b| == |c| && AllFit(a) && forall w | 0 <= w < |a| :: c[w] == AndNot(a[w], b[w])
    ensures AllFit(c) && forall i: nat :: At(c, i) <==> At(a, i) && !At(b, i)
  {
    forall w | 0 <= w < |c| ensures WordFits(c[w]) {
      assert WordFits(a[w]);
      AndNotBound(a[w], b[w]);
    }
    forall i: nat ensures At(c, i) <==> At(a, i) && !At(b, i) {
      if i / WORD_BITS < |a| { AndNotBit(a[i / WORD_BITS], b[i / WORD_BITS], i % WORD_BITS); }
    }
  }

  /** A word short of all ones in its first `m` bits leaves a row unset. */
  lemma MissingRow(words: seq<nat>, w: nat, m: nat)
    requires w < |words| && m <= WORD_BITS && And(words[w], LowMask(m)) != LowMask(m)
    ensures exists i: nat :: WORD_BITS * w <= i < WORD_BITS * w + m && !At(words, i)
  {
    AndBound(words[w], LowMask(m));
    MissingBit(And(words[w], LowMask(m)), m);
    var k: nat :| k < m && !Bit(And(words[w], LowMask(m)), k);
    AndBit(words[w], LowMask(m), k);
    LowMaskBit(m, k);
    assert !At(words, WORD_BITS * w + k);
  }

  lemma {:induction false} AndOnes(n: nat, m: nat)
    requires n < Pow2(m)
    ensures And(n, LowMask(m)) == n
    decreases m
  {
    if m > 0 && n > 0 {
      assert LowMask(m) == 1 + 2 * LowMask(m - 1);
      AndOnes(n / 2, m - 1);
    }
  }

  lemma ShortWord(words: seq<nat>, w: nat, rowCount: nat)
    requires w < |words| && AllFit(words) && words[w] != LowMask(WORD_BITS) && w + 1 < UsedWords(rowCount)
    ensures exists i: nat :: i < rowCount && !At(words, i)
  {
    assert WordFits(words[w]);
    AndOnes(words[w], WORD_BITS);
    MissingRow(words, w, WORD_BITS);
    UsedWordsSplit(rowCount, w);
  }

  /** The full words and the ones of the last: every row below the count. */
  lemma EveryRowAt(words: seq<nat>, rowCount: nat, last: nat)
    requires |words| == WORD_COUNT && 0 < rowCount <= BATCH_SIZE
    requires last == if rowCount % WORD_BITS == 0 then WORD_BITS else rowCount % WORD_BITS
    requires forall v | 0 <= v < UsedWords(rowCount) - 1 :: words[v] == LowMask(WORD_BITS)
    requires And(words[UsedWords(rowCount) - 1], LowMask(last)) == LowMask(last)
    ensures forall i: nat | i < rowCount :: At(words, i)
  {
    forall i: nat | i < rowCount ensures At(words, i) {
      var w, k := i / WORD_BITS, i % WORD_BITS;
      if w < UsedWords(rowCount) - 1 {
        LowMaskBit(WORD_BITS, k);
      } else {
        LowMaskBit(last, k);
        AndBit(words[w], LowMask(last), k);
      }
    }
  }

  lemma LastWordDecides(words: seq<nat>, rowCount: nat, last: nat)
    requires |words| == WORD_COUNT && AllFit(words) && 0 < rowCount <= BATCH_SIZE
    requires last == if rowCount % WORD_BITS == 0 then WORD_BITS else rowCount % WORD_BITS
    requires forall v | 0 <= v < UsedWords(rowCount) - 1 :: words[v] == LowMask(WORD_BITS)
    ensures And(words[UsedWords(rowCount) - 1], LowMask(last)) == LowMask(last)
            <==> forall i: nat | i < rowCount :: At(words, i)
  {
    var used := UsedWords(rowCount);
    if And(words[used - 1], LowMask(last)) == LowMask(last) {
      EveryRowAt(words, rowCount, last);
    } else {
      MissingRow(words, used - 1, last);
      UsedWordsSplit(rowCount, used - 1);
    }
  }

  lemma ClearedMasks(a: seq<nat>, c: seq<nat>, rowCount: nat)
    requires |a| == |c| && AllFit(a) && forall w | 0 <= w < |a| :: c[w] == Cleared(a[w], w, rowCount)
    ensures AllFit(c) && forall i: nat :: At(c, i) <==> At(a, i) && i < rowCount
  {
    forall w | 0 <= w < |c| ensures WordFits(c[w]) {
      assert WordFits(a[w]);
      ClearedFits(a[w], w, rowCount);
    }
    forall i: nat ensures At(c, i) <==> At(a, i) && i < rowCount {
      if i / WORD_BITS < |a| { ClearedBit(a[i / WORD_BITS], i / WORD_BITS, rowCount, i % WORD_BITS); }
    }
  }

  lemma NothingSet(words: seq<nat>)
    requires forall w | 0 <= w < |words| :: words[w] == 0
    ensures AllFit(words) && forall i: nat :: !At(words, i)
  {
    forall i: nat ensures !At(words, i) {
      ZeroBit(i % WORD_BITS);
    }
  }

  lemma EverythingSet(words: seq<nat>)
    requires forall w | 0 <= w < |words| :: words[w] == LowMask(WORD_BITS)
    ensures AllFit(words) && forall i: nat :: At(words, i) <==> i / WORD_BITS < |words|
  {
    forall i: nat ensures At(words, i) <==> i / WORD_BITS < |words| {
      LowMaskBit(WORD_BITS, i % WORD_BITS);
    }
  }

  /** A word that is not all ones lacks one of them. */
  lemma MissingBit(n: nat, m: nat)
    requires n < Pow2(m) && n != LowMask(m)
    ensures exists k :: 0 <= k < m && !Bit(n, k)
  {
    if forall k | 0 <= k < m :: Bit(n, k) {
      forall k | 0 <= k < m ensures Bit(n, k) == Bit(LowMask(m), k) {
        LowMaskBit(m, k);
      }
      SameBits(n, LowMask(m), m);
    }
  }

  /** The inner loop of ForEachSetBit. */
  method BitsOf(w: nat, word: nat) returns (rows: seq<nat>)
    ensures rows == WordRows(w, word)
  {
    rows := [];
    var bits := word;
    while bits != 0
      invariant rows + WordRows(w, bits) == WordRows(w, word)
      decreases bits
    {
      ClearLowestCounts(bits);
      var row := WORD_BITS * w + Ctz(bits);
      AppendAssociates(rows, [row], WordRows(w, And(bits, bits - 1)));
      rows := rows + [row];
      bits := And(bits, bits - 1);
    }
  }

  // ---------- The mask ----------

  class SelectionMask {
    const words: array<nat>
    var rowCount: nat

    /** Unused bits are zero. */
    ghost predicate Valid()
      reads this, words
    {
      && words.Length == WORD_COUNT && rowCount <= BATCH_SIZE
      && AllFit(words[..])
      && forall i: nat | rowCount <= i :: !At(words[..], i)
    }

    /** The mask as a set of rows. */
    ghost predicate Has(i: nat)
      reads words
    {
      At(words[..], i)
    }

    constructor ()
      ensures Valid() && fresh(words) && rowCount == 0 && forall i: nat :: !Has(i)
    {
      words := new nat[WORD_COUNT](_ => 0);
      rowCount := 0;
      new;
      NothingSet(words[..]);
    }

    method ClearUnusedBits()
      requires words.Length == WORD_COUNT && rowCount <= BATCH_SIZE && AllFit(words[..])
      modifies words
      ensures Valid()
      ensures forall i: nat :: Has(i) <==> old(Has(i)) && i < rowCount
    {
      ghost var before := words[..];
      var used := UsedWords(rowCount);
      var w := used;
      while w < WORD_COUNT
        modifies words
        invariant used <= w <= WORD_COUNT || (used > WORD_COUNT && w == used)
        invariant forall v | 0 <= v < WORD_COUNT :: words[v] == if used <= v < w then 0 else before[v]
      {
        words[w] := 0;
        w := w + 1;
      }
      var rem := rowCount % WORD_BITS;
      if rem != 0 && used > 0 {
        words[used - 1] := And(words[used - 1], LowMask(rem));
      }
      forall v | 0 <= v < WORD_COUNT ensures words[v] == Cleared(before[v], v, rowCount) {
        UsedWordsSplit(rowCount, v);
      }
      ClearedMasks(before, words[..], rowCount);
    }

    method Fill(word: nat)
      requires words.Length == WORD_COUNT
      modifies words
      ensures forall w | 0 <= w < WORD_COUNT :: words[w] == word
    {
      var w := 0;
      while w < WORD_COUNT
        modifies words
        invariant 0 <= w <= WORD_COUNT
        invariant forall v | 0 <= v < w :: words[v] == word
      {
        words[w] := word;
        w := w + 1;
      }
    }

    method SetAll(count: nat)
      requires words.Length == WORD_COUNT
      modifies this`rowCount, words
      ensures Valid() && rowCount == Lowest(count, BATCH_SIZE)
      ensures forall i: nat :: Has(i) <==> i < rowCount
    {
      rowCount := Lowest(count, BATCH_SIZE);
      Fill(LowMask(WORD_BITS));
      EverythingSet(words[..]);
      ClearUnusedBits();
    }

    method SetNone(count: nat)
      requires words.Length == WORD_COUNT
      modifies this`rowCount, words
      ensures Valid() && rowCount == Lowest(count, BATCH_SIZE)
      ensures forall i: nat :: !Has(i)
    {
      rowCount := Lowest(count, BATCH_SIZE);
      Fill(0);
      NothingSet(words[..]);
    }

    /** Intersection, over the smaller of the two row counts. */
    method Intersect(rhs: SelectionMask)
      requires Valid() && rhs.Valid() && (rhs == this || rhs.words != words)
      modifies this`rowCount, words
      ensures Valid() && rowCount == Lowest(old(rowCount), old(rhs.rowCount))
      ensures forall i: nat :: Has(i) <==> old(Has(i)) && old(rhs.Has(i))
    {
      ghost var before, other := words[..], rhs.words[..];
      rowCount := Lowest(rowCount, rhs.rowCount);
      var w := 0;
      while w < WORD_COUNT
        modifies words
        invariant 0 <= w <= WORD_COUNT
        invariant forall v | 0 <= v < WORD_COUNT :: words[v] == if v < w then And(before[v], other[v]) else before[v]
        invariant forall v | w <= v < WORD_COUNT :: rhs.words[v] == other[v]
      {
        words[w] := And(words[w], rhs.words[w]);
        w := w + 1;
      }
      AndMasks(before, other, words[..]);
      ClearUnusedBits();
    }

    /** Union, over the larger of the two row counts. */
    method Union(rhs: SelectionMask)
      requires Valid() && rhs.Valid() && (rhs == this || rhs.words != words)
      modifies this`rowCount, words
      ensures Valid() && rowCount == Highest(old(rowCount), old(rhs.rowCount))
      ensures forall i: nat :: Has(i) <==> old(Has(i)) || old(rhs.Has(i))
    {
      ghost var before, other := words[..], rhs.words[..];
      rowCount := Highest(rowCount, rhs.rowCount);
      var w := 0;
      while w < WORD_COUNT
        modifies words
        invariant 0 <= w <= WORD_COUNT
        invariant forall v | 0 <= v < WORD_COUNT :: words[v] == if v < w then Or(before[v], other[v]) else before[v]
        invariant forall v | w <= v < WORD_COUNT :: rhs.words[v] == other[v]
      {
        words[w] := Or(words[w], rhs.words[w]);
        w := w + 1;
      }
      OrMasks(before, other, words[..]);
      ClearUnusedBits();
    }

    /** Difference; the row count stays. */
    method Subtract(rhs: SelectionMask)
      requires Valid() && rhs.Valid() && (rhs == this || rhs.words != words)
      modifies words
      ensures Valid()
      ensures forall i: nat :: Has(i) <==> old(Has(i)) && !old(rhs.Has(i))
    {
      ghost var before, other := words[..], rhs.words[..];
      var w := 0;
      while w < WORD_COUNT
        modifies words
        invariant 0 <= w <= WORD_COUNT
        invariant forall v | 0 <= v < WORD_COUNT :: words[v] == if v < w then AndNot(before[v], other[v]) else before[v]
        invariant forall v | w <= v < WORD_COUNT :: rhs.words[v] == other[v]
      {
        words[w] := AndNot(words[w], rhs.words[w]);
        w := w + 1;
      }
      AndNotMasks(before, other, words[..]);
      ClearUnusedBits();
    }

    method Empty() returns (empty: bool)
      requires Valid()
      ensures empty <==> forall i: nat :: !Has(i)
    {
      var w := 0;
      while w < WORD_COUNT
        invariant 0 <= w <= WORD_COUNT
        invariant forall v | 0 <= v < w :: words[v] == 0
      {
        if words[w] != 0 {
          assert WordFits(words[..][w]);
          CtzIsLowest(words[w], 0);
          CtzInWord(words[w]);
          assert Has(WORD_BITS * w + Ctz(words[w]));
          return false;
        }
        w := w + 1;
      }
      NothingSet(words[..]);
      empty := true;
    }

    method IsAll() returns (all: bool)
      requires Valid()
      ensures all <==> forall i: nat | i < rowCount :: Has(i)
    {
      if rowCount == 0 {
        return true;
      }
      forall i: nat ensures Has(i) <==> At(words[..], i) {
      }
      var used := UsedWords(rowCount);
      var w := 0;
      while w + 1 < used
        invariant 0 <= w < used <= WORD_COUNT
        invariant forall v | 0 <= v < w :: words[v] == LowMask(WORD_BITS)
      {
        if words[w] != LowMask(WORD_BITS) {
          ShortWord(words[..], w, rowCount);
          return false;
        }
        w := w + 1;
      }
      var rem := rowCount % WORD_BITS;
      var last := if rem == 0 then WORD_BITS else rem;
      LastWordDecides(words[..], rowCount, last);
      all := And(words[used - 1], LowMask(last)) == LowMask(last);
    }

    /** The number of set rows. */
    method Count() returns (total: nat)
      requires Valid()
      ensures total == |Rows()|
    {
      total := 0;
      var count := UsedWords(rowCount);
      var w := count;
      while w > 0
        invariant 0 <= w <= count <= WORD_COUNT
        invariant total == PopcountFrom(words[..], w, count)
      {
        w := w - 1;
        total := total + Popcount(words[w]);
      }
      PopcountIsLength(words[..], 0, count);
    }

    /** The set rows in ascending order. */
    ghost function Rows(): seq<nat>
      requires Valid()
      reads this, words
    {
      RowsFrom(words[..], 0, UsedWords(rowCount))
    }

    /** ForEachSetBit, collecting. */
    method ToSelectionVector() returns (rows: seq<nat>)
      requires Valid()
      ensures rows == Rows() && Ascending(rows)
      ensures forall r :: r in rows <==> Has(r)
    {
      RowsDenote(words[..], rowCount);
      rows := [];
      var count := UsedWords(rowCount);
      var w := 0;
      while w < count
        invariant 0 <= w <= count <= WORD_COUNT
        invariant rows + RowsFrom(words[..], w, count) == Rows()
      {
        var here := BitsOf(w, words[w]);
        AppendAssociates(rows, here, RowsFrom(words[..], w + 1, count));
        rows := rows + here;
        w := w + 1;
      }
    }

    method Test(row: nat) returns (isSet: bool)
      requires Valid()
      ensures isSet <==> Has(row)
    {
      isSet := row < rowCount && Bit(words[row / WORD_BITS], row % WORD_BITS);
    }
  }
}
