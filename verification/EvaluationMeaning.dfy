/** What row-wise evaluation computes, said without following its cases. */
module EvaluationMeaning {
  import opened Wrappers
  import opened Values
  import opened Expressions

  // ---------- strings ----------

  /** The first difference is at `k`: `a` ends there, or has the smaller character. */
  predicate FirstDiffers(a: string, b: string, k: nat) {
    && k <= |a| && k < |b| && a[..k] == b[..k]
    && (k == |a| || a[k] < b[k])
  }

  ghost predicate Precedes(a: string, b: string) {
    exists k: nat :: FirstDiffers(a, b, k)
  }

  /** std::string's operator< is the dictionary order on characters. */
  lemma {:induction false} StringLessIff(a: string, b: string)
    ensures StringLess(a, b) <==> Precedes(a, b)
  {
    if b != [] && a != [] && a[0] == b[0] {
      StringLessIff(a[1..], b[1..]);
      if Precedes(a[1..], b[1..]) {
        var k: nat :| FirstDiffers(a[1..], b[1..], k);
        assert a[..k + 1] == [a[0]] + a[1..][..k] && b[..k + 1] == [b[0]] + b[1..][..k];
        assert FirstDiffers(a, b, k + 1);
      }
      if Precedes(a, b) {
        var k: nat :| FirstDiffers(a, b, k);
        assert k > 0 by {
          assert a[0] == b[0];
        }
        assert a[1..][..k - 1] == a[..k][1..] && b[1..][..k - 1] == b[..k][1..];
        assert FirstDiffers(a[1..], b[1..], k - 1);
      }
    } else if b != [] && (a == [] || a[0] < b[0]) {
      assert FirstDiffers(a, b, 0);
    }
  }

  /** Exactly one of two different strings precedes the other. */
  lemma {:induction false} OneWay(a: string, b: string)
    ensures StringLess(a, b) || StringLess(b, a) <==> a != b
    ensures !(StringLess(a, b) && StringLess(b, a))
  {
    if a != [] && b != [] && a[0] == b[0] {
      OneWay(a[1..], b[1..]);
      assert a == [a[0]] + a[1..] && b == [b[0]] + b[1..];
    }
  }

  ghost predicate StringsStand(op: BinaryOp, a: string, b: string) {
    match op
    case Eq => a == b
    case Ne => a != b
    case Gt => Precedes(b, a)
    case Ge => a == b || Precedes(b, a)
    case Lt => Precedes(a, b)
    case Le => a == b || Precedes(a, b)
    case _ => false
  }

  predicate NumbersStand(op: BinaryOp, x: real, y: real) {
    match op
    case Eq => x == y
    case Ne => x != y
    case Gt => x > y
    case Ge => x >= y
    case Lt => x < y
    case Le => x <= y
    case _ => false
  }

  // ---------- comparisons ----------

  /**
   * A comparison needs both operands, and neither or both as strings: it is by dictionary order on two strings and by
   * size on two numbers.
   */
  lemma EvalCompares(op: BinaryOp, l: Expr, r: Expr, t: DataType, row: Row)
    requires IsComparison(op)
    ensures var a, b, c := Eval(l, row), Eval(r, row), Eval(Binary(op, l, r, t), row);
            && (c.Ok? <==> a.Ok? && b.Ok? && a.value.Str? == b.value.Str?)
            && (c.Ok? && a.value.Str? ==> c.value == Bool(StringsStand(op, a.value.s, b.value.s)))
            && (c.Ok? && !a.value.Str? ==> c.value == Bool(NumbersStand(op, AsNumber(a.value), AsNumber(b.value))))
  {
    if Eval(l, row).Ok? && Eval(r, row).Ok? {
      var a, b := Eval(l, row).value, Eval(r, row).value;
      assert Eval(Binary(op, l, r, t), row) == Operate(op, a, b, t);
      if a.Str? && b.Str? {
        StringLessIff(a.s, b.s);
        StringLessIff(b.s, a.s);
        OneWay(a.s, b.s);
      }
    }
  }

  // ---------- arithmetic ----------

  /** A number in an integer type loses its fraction, towards zero; a floating type holds it. */
  ghost predicate IsCast(x: real, t: DataType, v: ExecValue) {
    match t
    case Int32 => v.I32? && IsTruncated(x, v.i)
    case Int64 => v.I64? && IsTruncated(x, v.l)
    case Float => v == F32(x)
    case _ => v == F64(x)
  }

  predicate IsTruncated(x: real, n: int) {
    if x >= 0.0 then n as real <= x < n as real + 1.0 else n as real - 1.0 < x <= n as real
  }

  lemma CastMeans(x: real, t: DataType)
    ensures IsCast(x, t, CastNumber(x, t))
  {
  }

  /** A sum is that of the operands, a difference the left less the right; there is none on a string. */
  lemma EvalAdds(op: BinaryOp, l: Expr, r: Expr, t: DataType, row: Row)
    requires op.Add? || op.Sub?
    ensures var a, b, c := Eval(l, row), Eval(r, row), Eval(Binary(op, l, r, t), row);
            && (c.Ok? <==> a.Ok? && b.Ok? && !a.value.Str? && !b.value.Str?)
            && (c.Ok? && op.Add? ==> IsCast(AsNumber(a.value) + AsNumber(b.value), t, c.value))
            && (c.Ok? && op.Sub? ==> IsCast(AsNumber(a.value) - AsNumber(b.value), t, c.value))
  {
    if Eval(l, row).Ok? && Eval(r, row).Ok? {
      assert Eval(Binary(op, l, r, t), row) == Operate(op, Eval(l, row).value, Eval(r, row).value, t);
    }
  }

  // ---------- logic ----------

  /** What counts as false: false, zero of any type, and the empty string. */
  predicate IsFalse(v: ExecValue) {
    v in {Bool(false), I32(0), I64(0), F32(0.0), F64(0.0), Str("")}
  }

  predicate Yields(e: Expr, row: Row, truth: bool) {
    Eval(e, row).Ok? && IsFalse(Eval(e, row).value) != truth
  }

  /** Which operand decides, and that the right one is not looked at when the left one has decided. */
  lemma EvalShortCircuits(l: Expr, r: Expr, t: DataType, row: Row)
    ensures var c := Eval(Binary(And, l, r, t), row);
            && (c == Ok(Bool(true)) <==> Yields(l, row, true) && Yields(r, row, true))
            && (c == Ok(Bool(false)) <==> Yields(l, row, false) || (Yields(l, row, true) && Yields(r, row, false)))
            && (c.Ok? ==> c.value.Bool?)
    ensures var c := Eval(Binary(Or, l, r, t), row);
            && (c == Ok(Bool(true)) <==> Yields(l, row, true) || (Yields(l, row, false) && Yields(r, row, true)))
            && (c == Ok(Bool(false)) <==> Yields(l, row, false) && Yields(r, row, false))
            && (c.Ok? ==> c.value.Bool?)
  {
    TruthyIff(l, row);
    TruthyIff(r, row);
  }

  lemma TruthyIff(e: Expr, row: Row)
    ensures Eval(e, row).Ok? ==> (Truthy(Eval(e, row).value) <==> !IsFalse(Eval(e, row).value))
  {
  }

  /** What a column of this type ends up with: a number of the type, or a string that fits its slot. */
  lemma StoredMeans(v: ExecValue, t: DataType)
    ensures Stored(v, t).Ok? <==> if t.Varchar? then v.Str? && |v.s| <= 60 else !t.Invalid? && !v.Str?
    ensures Stored(v, t).Ok? && t.Varchar? ==> Stored(v, t).value == v
    ensures Stored(v, t).Ok? && !t.Varchar? ==> IsCast(AsNumber(v), t, Stored(v, t).value)
  {
  }
}
