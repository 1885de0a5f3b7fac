/** The parser accepts the texts that the grammar derives, and no others, and builds the tree the derivation has. */
module SqlGrammar {
  import opened Wrappers
  import opened Values
  import opened Aggregates
  import opened SqlAst
  import opened SqlParser
  import opened SqlRoundTrip
  import opened SqlGrouping
  import L = SqlLexer

  // ---------- the grammar ----------

  predicate IsLeafToken(t: Token, e: SqlAst.Expr) {
    match t.tokenType
    case INTEGER => Stoi(t.text).Some? && e == IntLiteral(Stoi(t.text).value)
    case FLOAT => e == DoubleLiteral(t.text)
    case STRING => e == StringLiteral(t.text)
    case IDENTIFIER => e == ColumnRef(t.text)
    case _ => false
  }

  predicate InParentheses(ts: Tokens) {
    |ts| >= 2 && ts[0].tokenType == L.LPAREN && ts[|ts| - 1].tokenType == L.RPAREN
  }

  /** The operator at `k` has its left operand before it, of its own layer, and after it one of a tighter layer. */
  ghost predicate SplitAt(ts: Tokens, e: SqlAst.Expr, layer: nat, k: nat)
    requires 1 <= layer <= 3
    decreases |ts|, 4 - layer, 0
  {
    && e.BinaryOp? && Layer(e.op) == layer && 0 < k < |ts| - 1 && IsOperator(ts[k].tokenType, e.op)
    && Derives(ts[..k], e.left, layer) && Derives(ts[k + 1..], e.right, layer + 1)
  }

  /** The tokens are a phrase of this layer that stands for the expression. */
  ghost predicate Derives(ts: Tokens, e: SqlAst.Expr, layer: nat)
    requires 1 <= layer <= 4
    decreases |ts|, 4 - layer, 1
  {
    if layer < 4 then
      Derives(ts, e, layer + 1) || exists k: nat :: SplitAt(ts, e, layer, k)
    else
      || (|ts| == 1 && IsLeafToken(ts[0], e))
      || (InParentheses(ts) && Derives(ts[1..|ts| - 1], e, 1))
      || (|ts| >= 3 && ts[0].tokenType == L.IDENTIFIER && InParentheses(ts[1..]) && IsCall(AggOf(ts[0].text), ts, e))
  }

  /** A call of an aggregate: of COUNT on `*`, of any on an expression. */
  ghost predicate IsCall(t: AggType, ts: Tokens, e: SqlAst.Expr)
    requires |ts| >= 3
    decreases |ts|, 0, 0
  {
    var inside := ts[2..|ts| - 1];
    && !t.InvalidAgg? && e.AggFunc? && e.aggType == t
    && match e.arg
       case None => t.Count? && |inside| == 1 && inside[0].tokenType == L.STAR
       case Some(arg) => Derives(inside, arg, 1)
  }

  // ---------- what is read is derived ----------

  /** What a function of a layer reads is a phrase of it, and the rest is what follows. */
  ghost predicate Sound(ts: Tokens, r: Parsed, layer: nat)
    requires 1 <= layer <= 4
  {
    r.Ok? ==>
      var n := |ts| - |r.value.1|;
      n >= 0 && ts[n..] == r.value.1 && Derives(ts[..n], r.value.0, layer)
  }

  /** The same of a tail, which goes on from a phrase already read. */
  ghost predicate SoundAfter(pre: Tokens, ts: Tokens, r: Parsed, layer: nat)
    requires 1 <= layer <= 4
  {
    r.Ok? ==>
      var n := |ts| - |r.value.1|;
      n >= 0 && ts[n..] == r.value.1 && Derives(pre + ts[..n], r.value.0, layer)
  }

  lemma TailStops(pre: Tokens, ts: Tokens, e: SqlAst.Expr, layer: nat)
    requires 1 <= layer <= 3 && Derives(pre, e, layer)
    ensures SoundAfter(pre, ts, Ok((e, ts)), layer)
  {
    assert ts[0..] == ts && pre + ts[..0] == pre;
  }

  /** One more operand of a chain. */
  lemma ChainGrows(pre: Tokens, ts: Tokens, left: SqlAst.Expr, op: OpType, right: SqlAst.Expr, rest: Tokens)
    requires Derives(pre, left, Layer(op)) && pre != [] && ts != [] && IsOperator(ts[0].tokenType, op)
    requires Sound(ts[1..], Ok((right, rest)), Layer(op) + 1) && |rest| < |ts| - 1
    ensures var n := |ts| - |rest|;
            ts[n..] == rest && Derives(pre + ts[..n], BinaryOp(op, left, right), Layer(op))
  {
    var n := |ts| - |rest|;
    var all := pre + ts[..n];
    assert all[..|pre|] == pre && all[|pre|] == ts[0];
    assert all[|pre| + 1..] == ts[1..][..n - 1];
    assert SplitAt(all, BinaryOp(op, left, right), Layer(op), |pre|);
  }

  lemma TailGoesOn(pre: Tokens, ts: Tokens, rest: Tokens, r: Parsed, layer: nat)
    requires 1 <= layer <= 4 && |rest| <= |ts| && ts[|ts| - |rest|..] == rest
    requires SoundAfter(pre + ts[..|ts| - |rest|], rest, r, layer)
    ensures SoundAfter(pre, ts, r, layer)
  {
    if r.Ok? {
      var m := |ts| - |rest|;
      var n := |rest| - |r.value.1|;
      assert ts[m + n..] == rest[n..];
      assert pre + ts[..m + n] == pre + ts[..m] + rest[..n];
    }
  }

  lemma {:induction false} OrTailSound(pre: Tokens, left: SqlAst.Expr, ts: Tokens)
    requires pre != [] && Derives(pre, left, 1)
    ensures SoundAfter(pre, ts, OrTail(left, ts), 1)
    decreases |ts|, 4
  {
    if Head(ts) != L.OR {
      TailStops(pre, ts, left, 1);
    } else {
      AndSound(ts[1..]);
      var r := ParseAnd(ts[1..]);
      if r.Ok? {
        var (right, rest) := r.value;
        ChainGrows(pre, ts, left, SqlAst.OR, right, rest);
        var grown := BinaryOp(SqlAst.OR, left, right);
        assert OrTail(left, ts) == OrTail(grown, rest);
        OrTailSound(pre + ts[..|ts| - |rest|], grown, rest);
        TailGoesOn(pre, ts, rest, OrTail(grown, rest), 1);
      }
    }
  }

  lemma {:induction false} AndTailSound(pre: Tokens, left: SqlAst.Expr, ts: Tokens)
    requires pre != [] && Derives(pre, left, 2)
    ensures SoundAfter(pre, ts, AndTail(left, ts), 2)
    decreases |ts|, 4
  {
    if Head(ts) != L.AND {
      TailStops(pre, ts, left, 2);
    } else {
      ComparisonSound(ts[1..]);
      var r := ParseComparison(ts[1..]);
      if r.Ok? {
        var (right, rest) := r.value;
        ChainGrows(pre, ts, left, SqlAst.AND, right, rest);
        var grown := BinaryOp(SqlAst.AND, left, right);
        assert AndTail(left, ts) == AndTail(grown, rest);
        AndTailSound(pre + ts[..|ts| - |rest|], grown, rest);
        TailGoesOn(pre, ts, rest, AndTail(grown, rest), 2);
      }
    }
  }

  lemma ComparisonLayer(t: L.TokenType)
    requires ComparisonOp(t).Some?
    ensures IsOperator(t, ComparisonOp(t).value) && Layer(ComparisonOp(t).value) == 3
  {
  }

  lemma {:induction false} ComparisonTailSound(pre: Tokens, left: SqlAst.Expr, ts: Tokens)
    requires pre != [] && Derives(pre, left, 3)
    ensures SoundAfter(pre, ts, ComparisonTail(left, ts), 3)
    decreases |ts|, 4
  {
    if ComparisonOp(Head(ts)).None? {
      TailStops(pre, ts, left, 3);
    } else {
      PrimarySound(ts[1..]);
      var r := ParsePrimary(ts[1..]);
      if r.Ok? {
        var (right, rest) := r.value;
        var op := ComparisonOp(Head(ts)).value;
        ComparisonLayer(Head(ts));
        ChainGrows(pre, ts, left, op, right, rest);
        var grown := BinaryOp(op, left, right);
        assert ComparisonTail(left, ts) == ComparisonTail(grown, rest);
        ComparisonTailSound(pre + ts[..|ts| - |rest|], grown, rest);
        TailGoesOn(pre, ts, rest, ComparisonTail(grown, rest), 3);
      }
    }
  }

  /** A first phrase of the tighter layer, then the tail. */
  lemma FirstOperand(ts: Tokens, e: SqlAst.Expr, rest: Tokens, r: Parsed, layer: nat)
    requires 1 <= layer <= 3 && Sound(ts, Ok((e, rest)), layer + 1) && |rest| < |ts|
    requires SoundAfter(ts[..|ts| - |rest|], rest, r, layer)
    ensures Sound(ts, r, layer)
  {
    if r.Ok? {
      var m := |ts| - |rest|;
      var n := |rest| - |r.value.1|;
      assert ts[m + n..] == rest[n..];
      assert ts[..m + n] == ts[..m] + rest[..n];
    }
  }

  lemma {:induction false} OrSound(ts: Tokens)
    ensures Sound(ts, ParseOr(ts), 1)
    decreases |ts|, 3
  {
    AndSound(ts);
    if ParseAnd(ts).Ok? {
      var (left, rest) := ParseAnd(ts).value;
      assert ParseOr(ts) == OrTail(left, rest);
      OrTailSound(ts[..|ts| - |rest|], left, rest);
      FirstOperand(ts, left, rest, OrTail(left, rest), 1);
    }
  }

  lemma {:induction false} AndSound(ts: Tokens)
    ensures Sound(ts, ParseAnd(ts), 2)
    decreases |ts|, 2
  {
    ComparisonSound(ts);
    if ParseComparison(ts).Ok? {
      var (left, rest) := ParseComparison(ts).value;
      assert ParseAnd(ts) == AndTail(left, rest);
      AndTailSound(ts[..|ts| - |rest|], left, rest);
      FirstOperand(ts, left, rest, AndTail(left, rest), 2);
    }
  }

  lemma {:induction false} ComparisonSound(ts: Tokens)
    ensures Sound(ts, ParseComparison(ts), 3)
    decreases |ts|, 1
  {
    PrimarySound(ts);
    if ParsePrimary(ts).Ok? {
      var (left, rest) := ParsePrimary(ts).value;
      assert ParseComparison(ts) == ComparisonTail(left, rest);
      ComparisonTailSound(ts[..|ts| - |rest|], left, rest);
      FirstOperand(ts, left, rest, ComparisonTail(left, rest), 3);
    }
  }

  /** From the front of `ts`: `skip` tokens, a phrase of n more, and the token that closes it. */
  lemma Slices(ts: Tokens, skip: nat, n: nat, rest: Tokens)
    requires skip + n < |ts| && rest == ts[skip..][n..]
    ensures rest != [] && rest[0] == ts[skip + n] && rest[1..] == ts[skip + n + 1..]
    ensures ts[..skip + n + 1][skip..skip + n] == ts[skip..][..n]
  {
  }

  lemma ParenthesesDerive(ts: Tokens, e: SqlAst.Expr)
    requires InParentheses(ts) && Derives(ts[1..|ts| - 1], e, 1)
    ensures Derives(ts, e, 4)
  {
  }

  /** A phrase between parentheses, where the closing one has been found. */
  lemma Parenthesized(ts: Tokens, e: SqlAst.Expr, rest: Tokens)
    requires ts != [] && ts[0].tokenType == L.LPAREN && Sound(ts[1..], Ok((e, rest)), 1)
    requires Head(rest) == L.RPAREN && rest != [] && |rest| < |ts|
    ensures Sound(ts, Ok((e, rest[1..])), 4)
  {
    var n := |ts| - 1 - |rest|;
    Slices(ts, 1, n, rest);
    ParenthesesDerive(ts[..n + 2], e);
  }

  lemma LeafSound(ts: Tokens, e: SqlAst.Expr)
    requires ts != [] && IsLeafToken(ts[0], e)
    ensures Sound(ts, Ok((e, ts[1..])), 4)
  {
    assert ts[..1][0] == ts[0];
  }

  lemma StarSound(ts: Tokens)
    requires |ts| >= 4 && ts[0].tokenType == L.IDENTIFIER && AggOf(ts[0].text) == Count
    requires ts[1].tokenType == L.LPAREN && ts[2].tokenType == L.STAR && ts[3].tokenType == L.RPAREN
    ensures Sound(ts, Ok((AggFunc(Count, None), ts[4..])), 4)
  {
    assert ts[..4][2..3] == [ts[2]];
  }

  lemma CallDerives(ts: Tokens, arg: SqlAst.Expr)
    requires |ts| >= 3 && ts[0].tokenType == L.IDENTIFIER && !AggOf(ts[0].text).InvalidAgg?
    requires ts[1].tokenType == L.LPAREN && ts[|ts| - 1].tokenType == L.RPAREN
    requires Derives(ts[2..|ts| - 1], arg, 1)
    ensures Derives(ts, AggFunc(AggOf(ts[0].text), Some(arg)), 4)
  {
    assert InParentheses(ts[1..]);
    assert IsCall(AggOf(ts[0].text), ts, AggFunc(AggOf(ts[0].text), Some(arg)));
  }

  lemma ArgumentSound(ts: Tokens, arg: SqlAst.Expr, rest: Tokens)
    requires |ts| >= 2 && ts[0].tokenType == L.IDENTIFIER && !AggOf(ts[0].text).InvalidAgg?
    requires ts[1].tokenType == L.LPAREN && Sound(ts[2..], Ok((arg, rest)), 1) && |rest| < |ts| - 2
    requires Head(rest) == L.RPAREN && rest != []
    ensures Sound(ts, Ok((AggFunc(AggOf(ts[0].text), Some(arg)), rest[1..])), 4)
  {
    var n := |ts| - 2 - |rest|;
    Slices(ts, 2, n, rest);
    CallDerives(ts[..n + 3], arg);
  }

  lemma {:induction false} CallSound(ts: Tokens)
    requires |ts| >= 2 && ts[0].tokenType == L.IDENTIFIER && ts[1].tokenType == L.LPAREN
    ensures Sound(ts, ParseCall(AggOf(ts[0].text), ts[2..]), 4)
    decreases |ts| - 2, 4
  {
    var t, inside := AggOf(ts[0].text), ts[2..];
    if ParseCall(t, inside).Ok? {
      if Head(inside) == L.STAR {
        assert ts[3] == inside[1..][0];
        assert inside[1..][1..] == ts[4..];
        StarSound(ts);
      } else {
        OrSound(inside);
        var (arg, rest) := ParseOr(inside).value;
        ArgumentSound(ts, arg, rest);
      }
    }
  }

  lemma {:induction false} PrimarySound(ts: Tokens)
    ensures Sound(ts, ParsePrimary(ts), 4)
    decreases |ts|, 0
  {
    if ParsePrimary(ts).Ok? {
      if Head(ts) == L.LPAREN {
        OrSound(ts[1..]);
        var (e, rest) := ParseOr(ts[1..]).value;
        Parenthesized(ts, e, rest);
      } else if Head(ts) == L.IDENTIFIER && Head(ts[1..]) == L.LPAREN {
        assert ts[1..][0] == ts[1];
        CallSound(ts);
      } else {
        LeafSound(ts, ParsePrimary(ts).value.0);
      }
    }
  }

  // ---------- what is derived is read ----------

  lemma {:induction false} DerivedHead(ts: Tokens, e: SqlAst.Expr, layer: nat)
    requires 1 <= layer <= 4 && Derives(ts, e, layer)
    ensures ts != [] && ts[0].tokenType != L.STAR && ts[0].tokenType != L.RPAREN
    decreases |ts|, 4 - layer
  {
    if layer < 4 {
      if Derives(ts, e, layer + 1) {
        DerivedHead(ts, e, layer + 1);
      } else {
        var k: nat :| SplitAt(ts, e, layer, k);
        DerivedHead(ts[..k], e.left, layer);
      }
    }
  }

  lemma LeafRead(ts: Tokens, e: SqlAst.Expr)
    requires |ts| == 1 && IsLeafToken(ts[0], e)
    ensures ReadsAs(e, ts, 4)
  {
    forall x | MayFollow(4, x) ensures ReadsThen(e, ts + x, x, 4) {
      assert (ts + x)[1..] == x && (ts + x)[0] == ts[0];
    }
  }

  /** Parentheses around tokens, and what follows. */
  lemma Around(ts: Tokens, skip: nat, x: Tokens)
    requires skip < |ts|
    ensures var c := [ts[|ts| - 1]] + x;
            (ts + x)[skip..] == ts[skip..|ts| - 1] + c && c[1..] == x && c[0] == ts[|ts| - 1]
  {
  }

  lemma ParenthesesRead(ts: Tokens, e: SqlAst.Expr)
    requires InParentheses(ts) && ReadsAs(e, ts[1..|ts| - 1], 1)
    ensures ReadsAs(e, ts, 4)
  {
    forall x | MayFollow(4, x) ensures ReadsThen(e, ts + x, x, 4) {
      var c := [ts[|ts| - 1]] + x;
      Around(ts, 1, x);
      assert MayFollow(1, c) && ReadsThen(e, ts[1..|ts| - 1] + c, c, 1);
      assert (ts + x)[0] == ts[0];
    }
  }

  lemma StarRead(star: Token, c: Tokens, x: Tokens)
    requires star.tokenType == L.STAR && Head(c) == L.RPAREN && c != [] && c[1..] == x
    ensures ParseCall(Count, [star] + c) == Ok((AggFunc(Count, None), x))
  {
    assert ([star] + c)[1..] == c;
  }

  lemma ArgumentRead(t: AggType, inside: Tokens, arg: SqlAst.Expr, c: Tokens, x: Tokens)
    requires !t.InvalidAgg? && ReadsAs(arg, inside, 1) && Derives(inside, arg, 1)
    requires Head(c) == L.RPAREN && c != [] && c[1..] == x
    ensures ParseCall(t, inside + c) == Ok((AggFunc(t, Some(arg)), x))
  {
    DerivedHead(inside, arg, 1);
    assert (inside + c)[0] == inside[0];
    assert MayFollow(1, c) && ReadsThen(arg, inside + c, c, 1);
  }

  lemma CallRead(ts: Tokens, e: SqlAst.Expr, x: Tokens)
    requires |ts| >= 3 && InParentheses(ts[1..]) && IsCall(AggOf(ts[0].text), ts, e)
    requires e.arg.Some? ==> ReadsAs(e.arg.value, ts[2..|ts| - 1], 1)
    ensures ParseCall(AggOf(ts[0].text), (ts + x)[2..]) == Ok((e, x))
  {
    var inside, c := ts[2..|ts| - 1], [ts[|ts| - 1]] + x;
    Around(ts, 2, x);
    assert ts[1..][|ts| - 2] == ts[|ts| - 1];
    if e.arg.None? {
      assert inside == [inside[0]];
      StarRead(inside[0], c, x);
    } else {
      ArgumentRead(AggOf(ts[0].text), inside, e.arg.value, c, x);
    }
  }

  lemma PrimaryIsCall(ts: Tokens)
    requires |ts| >= 2 && ts[0].tokenType == L.IDENTIFIER && ts[1].tokenType == L.LPAREN
    ensures ParsePrimary(ts) == ParseCall(AggOf(ts[0].text), ts[2..])
  {
    assert ts[1..][0] == ts[1];
  }

  lemma CallIsRead(ts: Tokens, e: SqlAst.Expr)
    requires |ts| >= 3 && ts[0].tokenType == L.IDENTIFIER && InParentheses(ts[1..])
    requires IsCall(AggOf(ts[0].text), ts, e)
    requires e.arg.Some? ==> ReadsAs(e.arg.value, ts[2..|ts| - 1], 1)
    ensures ReadsAs(e, ts, 4)
  {
    forall x | MayFollow(4, x) ensures ReadsThen(e, ts + x, x, 4) {
      CallRead(ts, e, x);
      PrimaryIsCall(ts + x);
    }
  }

  lemma {:induction false} DerivedIsRead(ts: Tokens, e: SqlAst.Expr, layer: nat)
    requires 1 <= layer <= 4 && Derives(ts, e, layer)
    ensures ReadsAs(e, ts, layer)
    decreases |ts|, 4 - layer
  {
    if layer < 4 {
      if Derives(ts, e, layer + 1) {
        DerivedIsRead(ts, e, layer + 1);
        LooserReads(e, ts, layer + 1);
      } else {
        var k: nat :| SplitAt(ts, e, layer, k);
        DerivedIsRead(ts[..k], e.left, layer);
        DerivedIsRead(ts[k + 1..], e.right, layer + 1);
        SidesRead(e.op, e.left, ts[..k], ts[k], e.right, ts[k + 1..]);
        assert ts == ts[..k] + ([ts[k]] + ts[k + 1..]);
      }
    } else if |ts| == 1 && IsLeafToken(ts[0], e) {
      LeafRead(ts, e);
    } else if InParentheses(ts) && Derives(ts[1..|ts| - 1], e, 1) {
      DerivedIsRead(ts[1..|ts| - 1], e, 1);
      ParenthesesRead(ts, e);
    } else {
      if e.arg.Some? {
        DerivedIsRead(ts[2..|ts| - 1], e.arg.value, 1);
      }
      CallIsRead(ts, e);
    }
  }

  // ---------- texts ----------

  /** The one END token is the last. */
  predicate Ended(ts: Tokens) {
    ts != [] && ts[|ts| - 1].tokenType == L.END && forall i | 0 <= i < |ts| - 1 :: ts[i].tokenType != L.END
  }

  lemma {:induction false} LexedIsEnded(text: string)
    ensures L.Lex(text).Some? ==> Ended(L.Lex(text).value)
    decreases |text|
  {
    match L.Next(text)
    case Stuck =>
    case Read(token, rest) =>
      if token.tokenType != L.END {
        LexedIsEnded(rest);
      }
  }

  /** The expression a text stands for, if it stands for one. */
  ghost predicate Means(text: string, e: SqlAst.Expr) {
    L.Lex(text).Some? && L.Lex(text).value != [] &&
    var ts := L.Lex(text).value;
    Derives(ts[..|ts| - 1], e, 1)
  }

  lemma EndIsLast(ts: Tokens, n: nat)
    requires Ended(ts) && n <= |ts| && Head(ts[n..]) == L.END
    ensures n >= |ts| - 1
  {
  }

  lemma {:induction false} NoEndDerived(ts: Tokens, e: SqlAst.Expr, layer: nat)
    requires 1 <= layer <= 4 && Derives(ts, e, layer)
    ensures ts != [] && ts[|ts| - 1].tokenType != L.END
    decreases |ts|, 4 - layer
  {
    if layer < 4 {
      if Derives(ts, e, layer + 1) {
        NoEndDerived(ts, e, layer + 1);
      } else {
        var k: nat :| SplitAt(ts, e, layer, k);
        NoEndDerived(ts[k + 1..], e.right, layer + 1);
      }
    } else if |ts| >= 3 && InParentheses(ts[1..]) {
      assert ts[1..][|ts| - 2] == ts[|ts| - 1];
    }
  }

  lemma WholeIsRead(ts: Tokens, e: SqlAst.Expr, n: nat)
    requires Ended(ts) && n <= |ts| && Head(ts[n..]) == L.END && Derives(ts[..n], e, 1)
    ensures n == |ts| - 1
  {
    EndIsLast(ts, n);
    NoEndDerived(ts[..n], e, 1);
  }

  lemma ParsedMeans(text: string, e: SqlAst.Expr)
    requires ParseText(text) == Ok(e)
    ensures Means(text, e)
  {
    var ts := L.Lex(text).value;
    var rest := ParseOr(ts).value.1;
    LexedIsEnded(text);
    OrSound(ts);
    WholeIsRead(ts, e, |ts| - |rest|);
  }

  lemma MeantIsParsed(ts: Tokens, e: SqlAst.Expr)
    requires Ended(ts) && Derives(ts[..|ts| - 1], e, 1)
    ensures ParseOr(ts) == Ok((e, [ts[|ts| - 1]]))
  {
    var end := [ts[|ts| - 1]];
    DerivedIsRead(ts[..|ts| - 1], e, 1);
    assert MayFollow(1, end) && ReadsThen(e, ts[..|ts| - 1] + end, end, 1);
    assert ts == ts[..|ts| - 1] + end;
  }

  /**
   * A text is accepted, as an expression, exactly if its tokens are a phrase of the grammar that stands for it: OR over
   * AND over comparisons and arithmetic, each layer grouping to the left, over literals, names, calls and parentheses.
   */
  lemma ParsesIff(text: string, e: SqlAst.Expr)
    ensures ParseText(text) == Ok(e) <==> Means(text, e)
  {
    if ParseText(text) == Ok(e) {
      ParsedMeans(text, e);
    }
    if Means(text, e) {
      LexedIsEnded(text);
      MeantIsParsed(L.Lex(text).value, e);
    }
  }

  /** No text stands for two expressions. */
  lemma Unambiguous(text: string, a: SqlAst.Expr, b: SqlAst.Expr)
    requires Means(text, a) && Means(text, b)
    ensures a == b
  {
    ParsesIff(text, a);
    ParsesIff(text, b);
  }
}
