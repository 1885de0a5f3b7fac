/** src/execution/vector/vector.h: a batch of physical rows and the rows of it that are active. */
module Batches {
  import opened Values

  const BATCH_SIZE: nat := 1024

  datatype VectorBatch = VectorBatch(rows: seq<Row>, selection: seq<bool>) {
    predicate Valid() {
      |rows| == |selection|
    }

    predicate IsDense() {
      forall i | 0 <= i < |selection| :: selection[i]
    }
  }

  /** The selected rows, ascending: what ForEachActiveRow visits. */
  function Selected(rows: seq<Row>, selection: seq<bool>): (active: seq<Row>)
    requires |rows| == |selection|
    ensures |active| <= |rows|
  {
    if rows == [] then []
    else
      var n := |rows| - 1;
      Selected(rows[..n], selection[..n]) + (if selection[n] then [rows[n]] else [])
  }

  function ActiveRows(batch: VectorBatch): seq<Row>
    requires batch.Valid()
  {
    Selected(batch.rows, batch.selection)
  }

  lemma SelectedStep(rows: seq<Row>, selection: seq<bool>, i: nat)
    requires |rows| == |selection| && i < |rows|
    ensures Selected(rows[..i + 1], selection[..i + 1])
            == Selected(rows[..i], selection[..i]) + (if selection[i] then [rows[i]] else [])
  {
    assert rows[..i + 1][..i] == rows[..i] && selection[..i + 1][..i] == selection[..i];
  }

  /** ActiveSize of a batch. */
  lemma {:induction false} SelectedAll(rows: seq<Row>, selection: seq<bool>)
    requires |rows| == |selection| && forall i | 0 <= i < |selection| :: selection[i]
    ensures Selected(rows, selection) == rows
  {
    if rows != [] {
      SelectedAll(rows[..|rows| - 1], selection[..|rows| - 1]);
    }
  }

  // ---------- Batches one after the other ----------

  predicate AllValid(batches: seq<VectorBatch>) {
    forall i | 0 <= i < |batches| :: batches[i].Valid()
  }

  /** The active rows of all of them. */
  function Input(batches: seq<VectorBatch>): seq<Row>
    requires AllValid(batches)
  {
    if batches == [] then [] else Input(batches[..|batches| - 1]) + ActiveRows(batches[|batches| - 1])
  }

  // ---------- Masks as values ----------

  function MaskNone(n: nat): (m: seq<bool>)
    ensures |m| == n && forall i | 0 <= i < n :: !m[i]
  {
    seq(n, _ => false)
  }

  function MaskAnd(a: seq<bool>, b: seq<bool>): (c: seq<bool>)
    requires |a| == |b|
    ensures |c| == |a| && forall i | 0 <= i < |a| :: c[i] == (a[i] && b[i])
  {
    seq(|a|, i requires 0 <= i < |a| => a[i] && b[i])
  }

  function MaskOr(a: seq<bool>, b: seq<bool>): (c: seq<bool>)
    requires |a| == |b|
    ensures |c| == |a| && forall i | 0 <= i < |a| :: c[i] == (a[i] || b[i])
  {
    seq(|a|, i requires 0 <= i < |a| => a[i] || b[i])
  }

  function MaskAndNot(a: seq<bool>, b: seq<bool>): (c: seq<bool>)
    requires |a| == |b|
    ensures |c| == |a| && forall i | 0 <= i < |a| :: c[i] == (a[i] && !b[i])
  {
    seq(|a|, i requires 0 <= i < |a| => a[i] && !b[i])
  }

  function MaskCount(m: seq<bool>): nat {
    if m == [] then 0 else MaskCount(m[..|m| - 1]) + (if m[|m| - 1] then 1 else 0)
  }

  /** A part of a mask with as many rows is all of it. */
  lemma {:induction false} MaskCountDecides(part: seq<bool>, whole: seq<bool>)
    requires |part| == |whole| && forall i | 0 <= i < |part| && part[i] :: whole[i]
    ensures MaskCount(part) <= MaskCount(whole)
    ensures MaskCount(part) >= MaskCount(whole) ==> part == whole
  {
    if part != [] {
      var n := |part| - 1;
      MaskCountDecides(part[..n], whole[..n]);
      assert part == part[..n] + [part[n]] && whole == whole[..n] + [whole[n]];
    }
  }
}
