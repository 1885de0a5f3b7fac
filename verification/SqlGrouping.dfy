/** How operators group: an expression printed with no parentheses that its grouping makes redundant is read back. */
module SqlGrouping {
  import opened Wrappers
  import opened Values
  import opened Aggregates
  import opened SqlAst
  import opened SqlParser
  import opened SqlRoundTrip
  import L = SqlLexer

  // ---------- the printer ----------

  /** OR binds loosest, then AND, then comparisons and arithmetic, all of one layer. */
  function Layer(op: OpType): nat {
    match op
    case OR => 1
    case AND => 2
    case _ => 3
  }

  const OPERAND: nat := 4

  function LayerOf(e: SqlAst.Expr): nat {
    if e.BinaryOp? then Layer(e.op) else OPERAND
  }

  /** A chain of one layer groups to the left, so a left operand of the same layer needs no parentheses. */
  function Short(e: SqlAst.Expr): string
    decreases e, 0
  {
    match e
    case BinaryOp(op, l, r) => ShortAt(l, Layer(op)) + (" " + (OpName(op) + (" " + ShortAt(r, Layer(op) + 1))))
    case AggFunc(t, Some(arg)) => AggName(t) + "(" + Short(arg) + ")"
    case _ => ToString(e)
  }

  /** An operand where only this layer and tighter ones can stand without parentheses. */
  function ShortAt(e: SqlAst.Expr, layer: nat): string
    decreases e, 1
  {
    if LayerOf(e) >= layer then Short(e) else "(" + (Short(e) + ")")
  }

  // ---------- its tokens ----------

  function ShortTokens(e: SqlAst.Expr): Tokens
    decreases e, 0
  {
    match e
    case BinaryOp(op, l, r) => TokensAt(l, Layer(op)) + ([OpToken(op)] + TokensAt(r, Layer(op) + 1))
    case AggFunc(t, Some(arg)) => [L.Token(L.IDENTIFIER, AggName(t)), OPEN] + (ShortTokens(arg) + [CLOSE])
    case _ => TokensOf(e)
  }

  function TokensAt(e: SqlAst.Expr, layer: nat): Tokens
    decreases e, 1
  {
    if LayerOf(e) >= layer then ShortTokens(e) else [OPEN] + (ShortTokens(e) + [CLOSE])
  }

  // ---------- lexing ----------

  ghost predicate LexesShort(lex: LexFunction, text: string, ts: Tokens) {
    forall x {:trigger Delimited(x)} | Delimited(x) :: lex(text + x) == Prepend(ts, lex(x))
  }

  lemma Enclosed(text: string, x: string)
    ensures "(" + (text + ")") + x == "(" + (text + (")" + x))
  {
  }

  lemma LexEnclosed(lex: LexFunction, text: string, ts: Tokens, x: string)
    requires LexesPieces(lex) && LexesShort(lex, text, ts)
    ensures lex("(" + (text + ")") + x) == Prepend([OPEN] + (ts + [CLOSE]), lex(x))
  {
    assert Delimited(")" + x);
    Enclosed(text, x);
    PrependTwice(ts, [CLOSE], lex(x));
    PrependTwice([OPEN], ts + [CLOSE], lex(x));
  }

  lemma LexAt(lex: LexFunction, e: SqlAst.Expr, layer: nat)
    requires LexesPieces(lex) && LexesShort(lex, Short(e), ShortTokens(e))
    ensures LexesShort(lex, ShortAt(e, layer), TokensAt(e, layer))
  {
    if LayerOf(e) < layer {
      forall x | Delimited(x) ensures lex(ShortAt(e, layer) + x) == Prepend(TokensAt(e, layer), lex(x)) {
        LexEnclosed(lex, Short(e), ShortTokens(e), x);
      }
    }
  }

  lemma Spaced(left: string, op: OpType, right: string, x: string)
    ensures left + (" " + (OpName(op) + (" " + right))) + x == left + (" " + (OpName(op) + (" " + (right + x))))
  {
  }

  lemma LexBetween(lex: LexFunction, op: OpType, left: string, a: Tokens, right: string, b: Tokens, x: string)
    requires LexesPieces(lex) && Delimited(x) && LexesShort(lex, left, a) && LexesShort(lex, right, b)
    ensures lex(left + (" " + (OpName(op) + (" " + right))) + x) == Prepend(a + ([OpToken(op)] + b), lex(x))
  {
    assert Delimited(" " + (OpName(op) + (" " + (right + x))));
    Spaced(left, op, right, x);
    PrependTwice([OpToken(op)], b, lex(x));
    PrependTwice(a, [OpToken(op)] + b, lex(x));
  }

  lemma LexShortCall(lex: LexFunction, t: AggType, arg: SqlAst.Expr, x: string)
    requires LexesPieces(lex) && !t.InvalidAgg? && LexesShort(lex, Short(arg), ShortTokens(arg))
    ensures lex(Short(AggFunc(t, Some(arg))) + x) == Prepend(ShortTokens(AggFunc(t, Some(arg))), lex(x))
  {
    var f := ")" + x;
    var b := Short(arg) + f;
    assert Short(AggFunc(t, Some(arg))) + x == AggName(t) + ("(" + b);
    assert Delimited(f);
    CallChain(L.Token(L.IDENTIFIER, AggName(t)), ShortTokens(arg),
              [lex(AggName(t) + ("(" + b)), lex("(" + b), lex(b), lex(f), lex(x)]);
  }

  lemma {:induction false} LexShort(lex: LexFunction, e: SqlAst.Expr)
    requires LexesPieces(lex) && Printable(e) && NoDoubles(e)
    ensures LexesShort(lex, Short(e), ShortTokens(e))
    decreases e
  {
    match e
    case BinaryOp(op, l, r) =>
      LexShort(lex, l);
      LexShort(lex, r);
      LexAt(lex, l, Layer(op));
      LexAt(lex, r, Layer(op) + 1);
      forall x | Delimited(x) ensures lex(Short(e) + x) == Prepend(ShortTokens(e), lex(x)) {
        LexBetween(lex, op, ShortAt(l, Layer(op)), TokensAt(l, Layer(op)), ShortAt(r, Layer(op) + 1),
                   TokensAt(r, Layer(op) + 1), x);
      }
    case AggFunc(t, Some(arg)) =>
      LexShort(lex, arg);
      forall x | Delimited(x) ensures lex(Short(e) + x) == Prepend(ShortTokens(e), lex(x)) {
        LexShortCall(lex, t, arg, x);
      }
    case _ =>
      LexPrinted(lex, e);
  }

  // ---------- parsing ----------

  /** The tokens that may follow an expression of this layer: none that the layer would take for itself. */
  predicate MayFollow(layer: nat, ts: Tokens) {
    && Head(ts) != L.LPAREN
    && (layer < 3 ==> ComparisonOp(Head(ts)).None?)
    && (layer < 2 ==> Head(ts) != L.AND)
  }

  /** Parsing at this layer reads the tokens as the expression, and goes on with what follows. */
  ghost predicate ReadsAs(e: SqlAst.Expr, ts: Tokens, layer: nat) {
    forall x {:trigger MayFollow(layer, x)} | MayFollow(layer, x) :: ReadsThen(e, ts + x, x, layer)
  }

  predicate ReadsThen(e: SqlAst.Expr, ts: Tokens, x: Tokens, layer: nat) {
    match layer
    case 1 => ParseOr(ts) == OrTail(e, x)
    case 2 => ParseAnd(ts) == AndTail(e, x)
    case 3 => ParseComparison(ts) == ComparisonTail(e, x)
    case _ => ParsePrimary(ts) == Ok((e, x))
  }

  /** What a tighter layer reads, a looser one does. */
  lemma LooserReads(e: SqlAst.Expr, ts: Tokens, layer: nat)
    requires 2 <= layer <= 4 && ReadsAs(e, ts, layer)
    ensures ReadsAs(e, ts, layer - 1)
  {
    forall x | MayFollow(layer - 1, x) ensures ReadsThen(e, ts + x, x, layer - 1) {
      assert MayFollow(layer, x) && ReadsThen(e, ts + x, x, layer);
    }
  }

  lemma {:induction false} LoosestReads(e: SqlAst.Expr, ts: Tokens, layer: nat, looser: nat)
    requires 1 <= looser <= layer <= 4 && ReadsAs(e, ts, layer)
    ensures ReadsAs(e, ts, looser)
    decreases layer
  {
    if looser < layer {
      LooserReads(e, ts, layer);
      LoosestReads(e, ts, layer - 1, looser);
    }
  }

  lemma EnclosedReads(e: SqlAst.Expr, ts: Tokens)
    requires ReadsAs(e, ts, 1)
    ensures ReadsAs(e, [OPEN] + (ts + [CLOSE]), 4)
  {
    forall x | MayFollow(4, x) ensures ReadsThen(e, [OPEN] + (ts + [CLOSE]) + x, x, 4) {
      var c := [CLOSE] + x;
      assert MayFollow(1, c) && ReadsThen(e, ts + c, c, 1);
      assert [OPEN] + (ts + [CLOSE]) + x == [OPEN] + (ts + c);
      assert ([OPEN] + (ts + c))[1..] == ts + c;
      PrimaryParenthesis([OPEN] + (ts + c), e, x);
    }
  }

  /** An operand where this layer is asked for. */
  lemma OperandReads(e: SqlAst.Expr, layer: nat)
    requires 1 <= layer <= 4 && ReadsAs(e, ShortTokens(e), LayerOf(e))
    ensures ReadsAs(e, TokensAt(e, layer), layer)
  {
    if LayerOf(e) >= layer {
      LoosestReads(e, ShortTokens(e), LayerOf(e), layer);
    } else {
      LoosestReads(e, ShortTokens(e), LayerOf(e), 1);
      EnclosedReads(e, ShortTokens(e));
      LoosestReads(e, TokensAt(e, layer), 4, layer);
    }
  }

  predicate IsOperator(t: L.TokenType, op: OpType) {
    match op
    case OR => t == L.OR
    case AND => t == L.AND
    case _ => ComparisonOp(t) == Some(op)
  }

  /** The left operand's layer takes the operator, the tighter one after it the right operand. */
  lemma ChainReads(op: OpType, l: SqlAst.Expr, r: SqlAst.Expr, ts: Tokens, y: Tokens, x: Tokens)
    requires y != [] && IsOperator(y[0].tokenType, op) && MayFollow(Layer(op), x)
    requires ReadsThen(l, ts, y, Layer(op)) && ReadsThen(r, y[1..], x, Layer(op) + 1)
    ensures ReadsThen(BinaryOp(op, l, r), ts, x, Layer(op))
  {
  }

  lemma BetweenTokens(a: Tokens, o: Token, b: Tokens, x: Tokens)
    ensures (a + ([o] + b)) + x == a + ([o] + (b + x)) && ([o] + (b + x))[1..] == b + x
  {
  }

  lemma BinaryReads(op: OpType, l: SqlAst.Expr, r: SqlAst.Expr)
    requires ReadsAs(l, ShortTokens(l), LayerOf(l)) && ReadsAs(r, ShortTokens(r), LayerOf(r))
    ensures ReadsAs(BinaryOp(op, l, r), ShortTokens(BinaryOp(op, l, r)), Layer(op))
  {
    var a, b := TokensAt(l, Layer(op)), TokensAt(r, Layer(op) + 1);
    OperandReads(l, Layer(op));
    OperandReads(r, Layer(op) + 1);
    OperatorHead(op);
    SidesRead(op, l, a, OpToken(op), r, b);
  }

  lemma SidesRead(op: OpType, l: SqlAst.Expr, a: Tokens, o: Token, r: SqlAst.Expr, b: Tokens)
    requires ReadsAs(l, a, Layer(op)) && ReadsAs(r, b, Layer(op) + 1) && IsOperator(o.tokenType, op)
    ensures ReadsAs(BinaryOp(op, l, r), a + ([o] + b), Layer(op))
  {
    forall x | MayFollow(Layer(op), x) ensures ReadsThen(BinaryOp(op, l, r), (a + ([o] + b)) + x, x, Layer(op)) {
      var y := [o] + (b + x);
      BetweenTokens(a, o, b, x);
      assert MayFollow(Layer(op), y) && MayFollow(Layer(op) + 1, x);
      ChainReads(op, l, r, a + y, y, x);
    }
  }

  lemma CallReads(t: AggType, arg: SqlAst.Expr, x: Tokens)
    requires !t.InvalidAgg? && ReadsAs(arg, ShortTokens(arg), LayerOf(arg)) && Printable(arg)
    ensures ParsePrimary(ShortTokens(AggFunc(t, Some(arg))) + x) == Ok((AggFunc(t, Some(arg)), x))
  {
    var c := [CLOSE] + x;
    var b := ShortTokens(arg) + c;
    var ts := ShortTokens(AggFunc(t, Some(arg))) + x;
    assert ts == [L.Token(L.IDENTIFIER, AggName(t)), OPEN] + b;
    assert ts[2..] == b;
    LoosestReads(arg, ShortTokens(arg), LayerOf(arg), 1);
    assert MayFollow(1, c) && ReadsThen(arg, b, c, 1);
    ShortHead(arg);
    assert b[0] == ShortTokens(arg)[0];
    CallArgument(t, b, arg, x);
    PrimaryCall(t, ts, AggFunc(t, Some(arg)), x);
  }

  lemma {:induction false} ShortHead(e: SqlAst.Expr)
    ensures ShortTokens(e) != [] && Head(ShortTokens(e)) != L.STAR && Head(ShortTokens(e)) != L.RPAREN
    decreases e
  {
    match e
    case BinaryOp(op, l, r) => ShortHead(l);
    case _ =>
  }

  lemma PrintedReads(e: SqlAst.Expr)
    requires Printable(e) && NoDoubles(e)
    ensures ReadsAs(e, TokensOf(e), 4)
  {
    ParsePrinted(e);
    forall x | MayFollow(4, x) ensures ReadsThen(e, TokensOf(e) + x, x, 4) {
      assert Follows(x);
    }
  }

  /** An expression's tokens are read at its own layer. */
  lemma {:induction false} ShortReads(e: SqlAst.Expr)
    requires Printable(e) && NoDoubles(e)
    ensures ReadsAs(e, ShortTokens(e), LayerOf(e))
    decreases e
  {
    match e
    case BinaryOp(op, l, r) =>
      ShortReads(l);
      ShortReads(r);
      BinaryReads(op, l, r);
    case AggFunc(t, Some(arg)) =>
      ShortReads(arg);
      forall x | MayFollow(4, x) ensures ReadsThen(e, ShortTokens(e) + x, x, 4) {
        CallReads(t, arg, x);
      }
    case DoubleLiteral(_) =>
    case _ => PrintedReads(e);
  }

  lemma ShortParses(e: SqlAst.Expr)
    requires Printable(e) && NoDoubles(e)
    ensures ParseOr(ShortTokens(e) + [L.END_TOKEN]) == Ok((e, [L.END_TOKEN]))
  {
    var end := [L.END_TOKEN];
    ShortReads(e);
    LoosestReads(e, ShortTokens(e), LayerOf(e), 1);
    assert MayFollow(1, end) && ReadsThen(e, ShortTokens(e) + end, end, 1);
  }

  lemma ShortLexes(e: SqlAst.Expr)
    requires Printable(e) && NoDoubles(e)
    ensures L.Lex(Short(e)) == Some(ShortTokens(e) + [L.END_TOKEN])
  {
    var lex := (s: string) => L.Lex(s);
    PiecesLexed(lex);
    LexShort(lex, e);
    assert Delimited([]) && Short(e) + [] == Short(e);
    assert lex(Short(e) + []) == Prepend(ShortTokens(e), lex([]));
    EmptyText();
  }

  /**
   * Chains of OR, of AND, and of comparisons and arithmetic group to the left, AND binds tighter than OR and those
   * tighter than AND: with no other parentheses than these rules call for, the text gives the expression back.
   */
  lemma GroupsAsWritten(e: SqlAst.Expr)
    requires Printable(e) && NoDoubles(e)
    ensures ParseText(Short(e)) == Ok(e)
  {
    ShortLexes(e);
    ShortParses(e);
  }
}
