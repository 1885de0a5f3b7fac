/** Printing an expression, lexing the text and parsing the tokens gives the expression back. */
module SqlRoundTrip {
  import opened Wrappers
  import opened Values
  import opened Aggregates
  import opened SqlAst
  import opened SqlParser
  import L = SqlLexer

  /** Lexing and parsing a text that holds one expression. */
  function ParseText(text: string): Result<SqlAst.Expr, string> {
    match L.Lex(text)
    case None => Err("the lexer does not return")
    case Some(ts) =>
      match ParseOr(ts)
      case Err(m) => Err(m)
      case Ok((e, rest)) => if Head(rest) == L.END then Ok(e) else Err("Unexpected token after expression")
  }

  predicate IsIdentifier(name: string) {
    && name != [] && L.IsWordStart(name[0]) && L.KeywordOr(name) == L.IDENTIFIER
    && forall i | 0 <= i < |name| :: L.IsWord(name[i])
  }

  /** What the parser can produce: the expressions whose printed form is read back as themselves. */
  predicate Printable(e: SqlAst.Expr) {
    match e
    case ColumnRef(name) => IsIdentifier(name)
    case IntLiteral(v) => 0 <= v <= INT32_MAX
    case StringLiteral(s) => '\'' !in s
    case DoubleLiteral(_) => true
    case BinaryOp(_, l, r) => Printable(l) && Printable(r)
    case AggFunc(t, None) => t.Count?
    case AggFunc(t, Some(arg)) => !t.InvalidAgg? && Printable(arg)
  }

  predicate NoDoubles(e: SqlAst.Expr) {
    match e
    case DoubleLiteral(_) => false
    case BinaryOp(_, l, r) => NoDoubles(l) && NoDoubles(r)
    case AggFunc(_, Some(arg)) => NoDoubles(arg)
    case _ => true
  }

  // ---------- The tokens of an expression ----------

  function OpToken(op: OpType): Token {
    match op
    case ADD => L.Token(L.PLUS, "+")
    case SUB => L.Token(L.MINUS, "-")
    case EQ => L.Token(L.EQ, "=")
    case NE => L.Token(L.NE, "!=")
    case GT => L.Token(L.GT, ">")
    case GE => L.Token(L.GE, ">=")
    case LT => L.Token(L.LT, "<")
    case LE => L.Token(L.LE, "<=")
    case AND => L.Token(L.AND, "AND")
    case OR => L.Token(L.OR, "OR")
  }

  const OPEN: Token := L.Token(L.LPAREN, "(")
  const CLOSE: Token := L.Token(L.RPAREN, ")")

  function TokensOf(e: SqlAst.Expr): Tokens {
    match e
    case ColumnRef(name) => [L.Token(L.IDENTIFIER, name)]
    case IntLiteral(v) => [L.Token(L.INTEGER, IntString(v))]
    case StringLiteral(s) => [L.Token(L.STRING, s)]
    case DoubleLiteral(numeral) => [L.Token(L.FLOAT, numeral)]
    case BinaryOp(op, l, r) => [OPEN] + (TokensOf(l) + ([OpToken(op)] + (TokensOf(r) + [CLOSE])))
    case AggFunc(t, None) => [L.Token(L.IDENTIFIER, AggName(t)), OPEN, L.Token(L.STAR, "*"), CLOSE]
    case AggFunc(t, Some(arg)) => [L.Token(L.IDENTIFIER, AggName(t)), OPEN] + (TokensOf(arg) + [CLOSE])
  }

  // ---------- Lexing the printed form ----------

  function Prepend(ts: Tokens, r: Option<Tokens>): Option<Tokens> {
    match r
    case None => None
    case Some(rest) => Some(ts + rest)
  }

  lemma PrependTwice(a: Tokens, b: Tokens, r: Option<Tokens>)
    ensures Prepend(a, Prepend(b, r)) == Prepend(a + b, r)
  {
    if r.Some? { AppendAssociates(a, b, r.value); }
  }

  lemma {:induction false} WordTaken(w: string, rest: string)
    requires forall i | 0 <= i < |w| :: L.IsWord(w[i])
    requires rest == [] || !L.IsWord(rest[0])
    ensures L.WordLength(w + rest) == |w|
  {
    if w == [] {
      assert w + rest == rest;
    } else {
      assert (w + rest)[1..] == w[1..] + rest;
      WordTaken(w[1..], rest);
    }
  }

  lemma {:induction false} DigitsTaken(d: string, rest: string)
    requires AllDigits(d) && (rest == [] || (!L.IsDigit(rest[0]) && rest[0] != '.'))
    ensures L.NumberLength(d + rest, false) == |d|
  {
    if d == [] {
      assert d + rest == rest;
    } else {
      assert (d + rest)[1..] == d[1..] + rest;
      DigitsTaken(d[1..], rest);
    }
  }

  lemma {:induction false} QuotedTaken(s: string, rest: string)
    requires '\'' !in s
    ensures L.StringLength(s + "'" + rest) == |s|
  {
    var text := s + "'" + rest;
    if s == [] {
      assert text[0] == '\'';
    } else {
      assert text[1..] == s[1..] + "'" + rest;
      assert forall c | c in s[1..] :: c in s;
      QuotedTaken(s[1..], rest);
    }
  }

  lemma LexStep(text: string, token: Token, rest: string)
    requires L.Next(text) == L.Read(token, rest) && token.tokenType != L.END
    ensures L.Lex(text) == Prepend([token], L.Lex(rest))
  {
  }

  lemma NoSpace(text: string)
    requires text != [] && !L.IsSpace(text[0])
    ensures L.SpaceLength(text) == 0 && text[L.SpaceLength(text)..] == text
  {
  }

  lemma LexWord(w: string, rest: string)
    requires w != [] && L.IsWordStart(w[0]) && forall i | 0 <= i < |w| :: L.IsWord(w[i])
    requires rest == [] || !L.IsWord(rest[0])
    ensures L.Lex(w + rest) == Prepend([L.Token(L.KeywordOr(w), w)], L.Lex(rest))
  {
    var text := w + rest;
    WordTaken(w, rest);
    assert text[0] == w[0];
    NoSpace(text);
    assert text[..|w|] == w && text[|w|..] == rest;
    LexStep(text, L.Token(L.KeywordOr(w), w), rest);
  }

  lemma LexNumber(d: string, rest: string)
    requires d != [] && AllDigits(d) && (rest == [] || (!L.IsDigit(rest[0]) && rest[0] != '.'))
    ensures L.Lex(d + rest) == Prepend([L.Token(L.INTEGER, d)], L.Lex(rest))
  {
    var text := d + rest;
    DigitsTaken(d, rest);
    assert text[0] == d[0];
    NoSpace(text);
    assert text[..|d|] == d && text[|d|..] == rest;
    LexStep(text, L.Token(L.INTEGER, d), rest);
  }

  lemma LexQuoted(s: string, rest: string)
    requires '\'' !in s
    ensures L.Lex("'" + s + "'" + rest) == Prepend([L.Token(L.STRING, s)], L.Lex(rest))
  {
    var text := "'" + s + "'" + rest;
    QuotedTaken(s, rest);
    assert text[1..] == s + "'" + rest;
    NoSpace(text);
    assert text[1..1 + |s|] == s && text[|s| + 2..] == rest;
    assert L.ReadString(text) == L.Read(L.Token(L.STRING, s), rest);
    LexStep(text, L.Token(L.STRING, s), rest);
  }

  lemma LexSpace(rest: string)
    ensures L.Lex(" " + rest) == L.Lex(rest)
  {
    var text := " " + rest;
    assert text[1..] == rest;
    assert text[L.SpaceLength(text)..] == rest[L.SpaceLength(rest)..];
    L.SpaceEnds(text);
    L.SpaceEnds(rest);
  }

  lemma NextSymbol(text: string)
    requires text != [] && L.IsSymbol(text[0])
    ensures L.Next(text) == L.Symbol(text)
  {
    NoSpace(text);
  }

  lemma LexPunctuation(c: char, rest: string)
    requires c == '(' || c == ')' || c == '*'
    ensures L.Lex([c] + rest) == Prepend([L.Token(L.Punctuation(c), [c])], L.Lex(rest))
  {
    var text := [c] + rest;
    NextSymbol(text);
    assert text[1..] == rest && text[..1] == [c];
    LexStep(text, L.Token(L.Punctuation(c), [c]), rest);
  }

  lemma SymbolRead(op: OpType, after: string)
    requires !op.AND? && !op.OR? && after != [] && after[0] == ' '
    ensures var text := OpName(op) + after;
            L.IsSymbol(text[0]) && L.Symbol(text) == L.Read(OpToken(op), after)
  {
    var text := OpName(op) + after;
    var n := |OpName(op)|;
    assert text[n..] == after && text[..n] == OpName(op) && text[n] == ' ';
  }

  lemma LexSymbol(op: OpType, after: string)
    requires !op.AND? && !op.OR? && after != [] && after[0] == ' '
    ensures L.Lex(OpName(op) + after) == Prepend([OpToken(op)], L.Lex(after))
  {
    SymbolRead(op, after);
    NextSymbol(OpName(op) + after);
    LexStep(OpName(op) + after, OpToken(op), after);
  }

  lemma LexAnd(after: string)
    requires after != [] && after[0] == ' '
    ensures L.Lex("AND" + after) == Prepend([L.Token(L.AND, "AND")], L.Lex(after))
  {
    LexWord("AND", after);
    assert L.KeywordOr("AND") == L.AND;
  }

  lemma LexOr(after: string)
    requires after != [] && after[0] == ' '
    ensures L.Lex("OR" + after) == Prepend([L.Token(L.OR, "OR")], L.Lex(after))
  {
    LexWord("OR", after);
    assert L.KeywordOr("OR") == L.OR;
  }

  /** An operator is printed between spaces, so nothing after it can be mistaken for part of it. */
  lemma LexOperator(op: OpType, rest: string)
    ensures L.Lex(OpName(op) + (" " + rest)) == Prepend([OpToken(op)], L.Lex(rest))
  {
    LexSpace(rest);
    match op
    case AND => LexAnd(" " + rest);
    case OR => LexOr(" " + rest);
    case _ => LexSymbol(op, " " + rest);
  }

  lemma {:induction false} DigitsAreDigits(n: nat)
    ensures AllDigits(Digits(n)) && Numeral(Digits(n)) == n
  {
    if n >= 10 {
      DigitsAreDigits(n / 10);
      assert Digits(n)[..|Digits(n)| - 1] == Digits(n / 10);
    } else {
      assert [DigitChar(n)][..0] == [];
    }
  }

  /** Nothing that can follow a printed expression continues its last token. */
  predicate Delimited(rest: string) {
    rest == [] || rest[0] == ' ' || rest[0] == ')'
  }

  lemma PrintedBinary(op: OpType, l: SqlAst.Expr, r: SqlAst.Expr, rest: string)
    ensures ToString(BinaryOp(op, l, r)) + rest
            == "(" + (ToString(l) + (" " + (OpName(op) + (" " + (ToString(r) + (")" + rest))))))
  {
  }

  lemma BinaryChain(x: Tokens, o: Tokens, y: Tokens, t: seq<Option<Tokens>>)
    requires |t| == 6
    requires t[0] == Prepend([OPEN], t[1]) && t[1] == Prepend(x, t[2]) && t[2] == Prepend(o, t[3])
    requires t[3] == Prepend(y, t[4]) && t[4] == Prepend([CLOSE], t[5])
    ensures t[0] == Prepend([OPEN] + (x + (o + (y + [CLOSE]))), t[5])
  {
    PrependTwice(y, [CLOSE], t[5]);
    PrependTwice(o, y + [CLOSE], t[5]);
    PrependTwice(x, o + (y + [CLOSE]), t[5]);
    PrependTwice([OPEN], x + (o + (y + [CLOSE])), t[5]);
  }

  lemma LexOpen(rest: string)
    ensures L.Lex("(" + rest) == Prepend([OPEN], L.Lex(rest))
  {
    LexPunctuation('(', rest);
  }

  lemma LexClose(rest: string)
    ensures L.Lex(")" + rest) == Prepend([CLOSE], L.Lex(rest))
  {
    LexPunctuation(')', rest);
  }

  /** Operator and right operand, up to what follows the closing parenthesis. */
  lemma LexSpaced(op: OpType, rest: string)
    ensures L.Lex(" " + (OpName(op) + (" " + rest))) == Prepend([OpToken(op)], L.Lex(rest))
  {
    LexSpace(OpName(op) + (" " + rest));
    LexOperator(op, rest);
  }

  lemma AggNameIsWord(t: AggType)
    requires !t.InvalidAgg?
    ensures IsIdentifier(AggName(t)) && AggOf(AggName(t)) == t
  {
  }

  lemma CallChain(name: Token, x: Tokens, t: seq<Option<Tokens>>)
    requires |t| == 5
    requires t[0] == Prepend([name], t[1]) && t[1] == Prepend([OPEN], t[2]) && t[2] == Prepend(x, t[3])
    requires t[3] == Prepend([CLOSE], t[4])
    ensures t[0] == Prepend([name, OPEN] + (x + [CLOSE]), t[4])
  {
    PrependTwice(x, [CLOSE], t[4]);
    PrependTwice([OPEN], x + [CLOSE], t[4]);
    PrependTwice([name], [OPEN] + (x + [CLOSE]), t[4]);
    assert [name] + ([OPEN] + (x + [CLOSE])) == [name, OPEN] + (x + [CLOSE]);
  }

  lemma LexName(t: AggType, rest: string)
    requires !t.InvalidAgg?
    ensures L.Lex(AggName(t) + ("(" + rest)) == Prepend([L.Token(L.IDENTIFIER, AggName(t))], L.Lex("(" + rest))
  {
    AggNameIsWord(t);
    LexWord(AggName(t), "(" + rest);
  }

  lemma LexStar(rest: string)
    ensures L.Lex("*" + rest) == Prepend([L.Token(L.STAR, "*")], L.Lex(rest))
  {
    LexPunctuation('*', rest);
  }

  predicate IsLeaf(e: SqlAst.Expr) {
    e.ColumnRef? || e.IntLiteral? || e.StringLiteral?
  }

  lemma LexLeaf(e: SqlAst.Expr, rest: string)
    requires Printable(e) && IsLeaf(e) && Delimited(rest)
    ensures L.Lex(ToString(e) + rest) == Prepend(TokensOf(e), L.Lex(rest))
  {
    match e
    case ColumnRef(name) => LexWord(name, rest);
    case IntLiteral(v) =>
      DigitsAreDigits(v);
      LexNumber(Digits(v), rest);
    case StringLiteral(s) => LexQuoted(s, rest);
  }

  type LexFunction = string -> Option<Tokens>

  /** What the printed form asks of a lexer: leaves, operators, names and parentheses, one at a time. */
  ghost predicate LexesPieces(lex: LexFunction) {
    && (forall x :: lex("(" + x) == Prepend([OPEN], lex(x)))
    && (forall x :: lex(")" + x) == Prepend([CLOSE], lex(x)))
    && (forall x :: lex("*" + x) == Prepend([L.Token(L.STAR, "*")], lex(x)))
    && (forall op, x :: lex(" " + (OpName(op) + (" " + x))) == Prepend([OpToken(op)], lex(x)))
    && (forall t: AggType, x | !t.InvalidAgg? ::
          lex(AggName(t) + ("(" + x)) == Prepend([L.Token(L.IDENTIFIER, AggName(t))], lex("(" + x)))
    && (forall e, x | Printable(e) && IsLeaf(e) && Delimited(x) ::
          lex(ToString(e) + x) == Prepend(TokensOf(e), lex(x)))
  }

  /** Whatever delimiter follows, the expression's text reads as its tokens. */
  ghost predicate Lexes(lex: LexFunction, e: SqlAst.Expr) {
    forall x {:trigger Delimited(x)} | Delimited(x) :: lex(ToString(e) + x) == Prepend(TokensOf(e), lex(x))
  }

  lemma LexBinary(lex: LexFunction, op: OpType, l: SqlAst.Expr, r: SqlAst.Expr, rest: string)
    requires LexesPieces(lex) && Lexes(lex, l) && Lexes(lex, r)
    ensures lex(ToString(BinaryOp(op, l, r)) + rest) == Prepend(TokensOf(BinaryOp(op, l, r)), lex(rest))
  {
    var f := ")" + rest;
    var d := ToString(r) + f;
    var b := " " + (OpName(op) + (" " + d));
    var a := ToString(l) + b;
    PrintedBinary(op, l, r, rest);
    assert Delimited(b) && Delimited(f);
    BinaryChain(TokensOf(l), [OpToken(op)], TokensOf(r), [lex("(" + a), lex(a), lex(b), lex(d), lex(f), lex(rest)]);
  }

  lemma LexCall(lex: LexFunction, t: AggType, arg: SqlAst.Expr, rest: string)
    requires LexesPieces(lex) && !t.InvalidAgg? && Lexes(lex, arg)
    ensures lex(ToString(AggFunc(t, Some(arg))) + rest) == Prepend(TokensOf(AggFunc(t, Some(arg))), lex(rest))
  {
    var f := ")" + rest;
    var b := ToString(arg) + f;
    assert ToString(AggFunc(t, Some(arg))) + rest == AggName(t) + ("(" + b);
    assert Delimited(f);
    CallChain(L.Token(L.IDENTIFIER, AggName(t)), TokensOf(arg),
              [lex(AggName(t) + ("(" + b)), lex("(" + b), lex(b), lex(f), lex(rest)]);
  }

  lemma LexCountStar(lex: LexFunction, rest: string)
    requires LexesPieces(lex)
    ensures lex(ToString(AggFunc(Count, None)) + rest) == Prepend(TokensOf(AggFunc(Count, None)), lex(rest))
  {
    var f := ")" + rest;
    var b := "*" + f;
    assert ToString(AggFunc(Count, None)) + rest == AggName(Count) + ("(" + b);
    CallChain(L.Token(L.IDENTIFIER, AggName(Count)), [L.Token(L.STAR, "*")],
              [lex(AggName(Count) + ("(" + b)), lex("(" + b), lex(b), lex(f), lex(rest)]);
    CountStarTokens();
  }

  lemma CountStarTokens()
    ensures TokensOf(AggFunc(Count, None))
            == [L.Token(L.IDENTIFIER, AggName(Count)), OPEN] + ([L.Token(L.STAR, "*")] + [CLOSE])
  {
  }

  /** A lexer that gets the pieces right gets every printed expression right. */
  lemma {:induction false} LexPrinted(lex: LexFunction, e: SqlAst.Expr)
    requires LexesPieces(lex) && Printable(e) && NoDoubles(e)
    ensures Lexes(lex, e)
    decreases e
  {
    match e
    case BinaryOp(op, l, r) =>
      LexPrinted(lex, l);
      LexPrinted(lex, r);
      forall x | Delimited(x) ensures lex(ToString(e) + x) == Prepend(TokensOf(e), lex(x)) {
        LexBinary(lex, op, l, r, x);
      }
    case AggFunc(t, None) =>
      forall x | Delimited(x) ensures lex(ToString(e) + x) == Prepend(TokensOf(e), lex(x)) {
        LexCountStar(lex, x);
      }
    case AggFunc(t, Some(arg)) =>
      LexPrinted(lex, arg);
      forall x | Delimited(x) ensures lex(ToString(e) + x) == Prepend(TokensOf(e), lex(x)) {
        LexCall(lex, t, arg, x);
      }
    case _ =>
  }

  /** This lexer does. */
  lemma PiecesLexed(lex: LexFunction)
    requires forall s :: lex(s) == L.Lex(s)
    ensures LexesPieces(lex)
  {
    forall x ensures lex("(" + x) == Prepend([OPEN], lex(x)) { LexOpen(x); }
    forall x ensures lex(")" + x) == Prepend([CLOSE], lex(x)) { LexClose(x); }
    forall x ensures lex("*" + x) == Prepend([L.Token(L.STAR, "*")], lex(x)) { LexStar(x); }
    forall op, x ensures lex(" " + (OpName(op) + (" " + x))) == Prepend([OpToken(op)], lex(x)) { LexSpaced(op, x); }
    forall t: AggType, x | !t.InvalidAgg?
      ensures lex(AggName(t) + ("(" + x)) == Prepend([L.Token(L.IDENTIFIER, AggName(t))], lex("(" + x))
    {
      LexName(t, x);
    }
    forall e, x | Printable(e) && IsLeaf(e) && Delimited(x) ensures lex(ToString(e) + x) == Prepend(TokensOf(e), lex(x)) {
      LexLeaf(e, x);
    }
  }

  // ---------- Parsing the tokens ----------

  /** The tokens that may follow an operand. */
  predicate Follows(ts: Tokens) {
    Head(ts) != L.LPAREN
  }

  /** Whatever may follow, the expression's tokens parse, as one operand, to the expression. */
  ghost predicate Parses(e: SqlAst.Expr) {
    forall x {:trigger Follows(x)} | Follows(x) :: ParsePrimary(TokensOf(e) + x) == Ok((e, x))
  }

  /** A token that ends every layer. */
  predicate Stops(t: L.TokenType) {
    ComparisonOp(t).None? && t != L.AND && t != L.OR
  }

  lemma LayersStop(ts: Tokens, e: SqlAst.Expr, rest: Tokens)
    requires ParsePrimary(ts) == Ok((e, rest))
    ensures ComparisonOp(Head(rest)).None? ==> ParseComparison(ts) == Ok((e, rest))
    ensures ComparisonOp(Head(rest)).None? && Head(rest) != L.AND ==> ParseAnd(ts) == Ok((e, rest))
    ensures Stops(Head(rest)) ==> ParseOr(ts) == Ok((e, rest))
  {
  }

  lemma ComparisonTaken(op: OpType, l: SqlAst.Expr, r: SqlAst.Expr, ts: Tokens, a: Tokens, c: Tokens)
    requires ParsePrimary(ts) == Ok((l, a)) && ComparisonOp(Head(a)) == Some(op) && a != []
    requires ParsePrimary(a[1..]) == Ok((r, c)) && Stops(Head(c))
    ensures ParseOr(ts) == Ok((BinaryOp(op, l, r), c))
  {
    var e := BinaryOp(op, l, r);
    assert ComparisonTail(l, a) == ComparisonTail(e, c) == Ok((e, c));
    assert ParseComparison(ts) == Ok((e, c));
    assert ParseAnd(ts) == Ok((e, c));
  }

  lemma AndTaken(l: SqlAst.Expr, r: SqlAst.Expr, ts: Tokens, a: Tokens, c: Tokens)
    requires ParseComparison(ts) == Ok((l, a)) && Head(a) == L.AND
    requires ParseComparison(a[1..]) == Ok((r, c)) && Stops(Head(c))
    ensures ParseOr(ts) == Ok((BinaryOp(SqlAst.AND, l, r), c))
  {
    var e := BinaryOp(SqlAst.AND, l, r);
    assert AndTail(l, a) == AndTail(e, c) == Ok((e, c));
    assert ParseAnd(ts) == Ok((e, c));
  }

  lemma OrTaken(l: SqlAst.Expr, r: SqlAst.Expr, ts: Tokens, a: Tokens, c: Tokens)
    requires ParseAnd(ts) == Ok((l, a)) && Head(a) == L.OR && ParseAnd(a[1..]) == Ok((r, c)) && Stops(Head(c))
    ensures ParseOr(ts) == Ok((BinaryOp(SqlAst.OR, l, r), c))
  {
    var e := BinaryOp(SqlAst.OR, l, r);
    assert OrTail(l, a) == OrTail(e, c) == Ok((e, c));
  }

  lemma OrOperands(l: SqlAst.Expr, r: SqlAst.Expr, ts: Tokens, a: Tokens, c: Tokens)
    requires ParsePrimary(ts) == Ok((l, a)) && Head(a) == L.OR && ParsePrimary(a[1..]) == Ok((r, c)) && Stops(Head(c))
    ensures ParseAnd(ts) == Ok((l, a)) && ParseAnd(a[1..]) == Ok((r, c))
  {
    LayersStop(ts, l, a);
    LayersStop(a[1..], r, c);
  }

  lemma AndOperands(l: SqlAst.Expr, r: SqlAst.Expr, ts: Tokens, a: Tokens, c: Tokens)
    requires ParsePrimary(ts) == Ok((l, a)) && Head(a) == L.AND && ParsePrimary(a[1..]) == Ok((r, c)) && Stops(Head(c))
    ensures ParseComparison(ts) == Ok((l, a)) && ParseComparison(a[1..]) == Ok((r, c))
  {
    LayersStop(ts, l, a);
    LayersStop(a[1..], r, c);
  }

  lemma OrBinary(l: SqlAst.Expr, r: SqlAst.Expr, ts: Tokens, a: Tokens, c: Tokens)
    requires ParsePrimary(ts) == Ok((l, a)) && Head(a) == L.OR && ParsePrimary(a[1..]) == Ok((r, c)) && Stops(Head(c))
    ensures ParseOr(ts) == Ok((BinaryOp(SqlAst.OR, l, r), c))
  {
    OrOperands(l, r, ts, a, c);
    OrTaken(l, r, ts, a, c);
  }

  lemma AndBinary(l: SqlAst.Expr, r: SqlAst.Expr, ts: Tokens, a: Tokens, c: Tokens)
    requires ParsePrimary(ts) == Ok((l, a)) && Head(a) == L.AND && ParsePrimary(a[1..]) == Ok((r, c)) && Stops(Head(c))
    ensures ParseOr(ts) == Ok((BinaryOp(SqlAst.AND, l, r), c))
  {
    AndOperands(l, r, ts, a, c);
    AndTaken(l, r, ts, a, c);
  }

  lemma OperatorHead(op: OpType)
    ensures op.OR? <==> OpToken(op).tokenType == L.OR
    ensures op.AND? <==> OpToken(op).tokenType == L.AND
    ensures !op.OR? && !op.AND? ==> ComparisonOp(OpToken(op).tokenType) == Some(op)
    ensures OpToken(op).tokenType != L.LPAREN
  {
  }

  lemma ParseBinary(op: OpType, l: SqlAst.Expr, r: SqlAst.Expr, ts: Tokens, a: Tokens, c: Tokens, t: L.TokenType)
    requires ParsePrimary(ts) == Ok((l, a)) && a != [] && Head(a) == t
    requires ParsePrimary(a[1..]) == Ok((r, c)) && Stops(Head(c))
    requires if op.OR? then t == L.OR else if op.AND? then t == L.AND else ComparisonOp(t) == Some(op)
    ensures ParseOr(ts) == Ok((BinaryOp(op, l, r), c))
  {
    if op.OR? {
      OrBinary(l, r, ts, a, c);
    } else if op.AND? {
      AndBinary(l, r, ts, a, c);
    } else {
      ComparisonTaken(op, l, r, ts, a, c);
    }
  }

  lemma PrimaryCall(t: AggType, ts: Tokens, e: SqlAst.Expr, rest: Tokens)
    requires !t.InvalidAgg? && |ts| >= 2 && ts[0] == L.Token(L.IDENTIFIER, AggName(t)) && ts[1] == OPEN
    requires ParseCall(t, ts[2..]) == Ok((e, rest))
    ensures ParsePrimary(ts) == Ok((e, rest))
  {
    AggNameIsWord(t);
    assert ts[1..][0] == OPEN;
  }

  lemma CallArgument(t: AggType, b: Tokens, arg: SqlAst.Expr, rest: Tokens)
    requires !t.InvalidAgg? && Head(b) != L.STAR && Head(b) != L.RPAREN && ParseOr(b) == Ok((arg, [CLOSE] + rest))
    ensures ParseCall(t, b) == Ok((AggFunc(t, Some(arg)), rest))
  {
    assert ([CLOSE] + rest)[1..] == rest;
  }

  lemma ParseCallPrinted(t: AggType, arg: SqlAst.Expr, rest: Tokens)
    requires !t.InvalidAgg? && Parses(arg)
    ensures ParsePrimary(TokensOf(AggFunc(t, Some(arg))) + rest) == Ok((AggFunc(t, Some(arg)), rest))
  {
    var c := [CLOSE] + rest;
    var b := TokensOf(arg) + c;
    var ts := TokensOf(AggFunc(t, Some(arg))) + rest;
    assert ts == [L.Token(L.IDENTIFIER, AggName(t)), OPEN] + b;
    assert ts[2..] == b;
    assert Follows(c);
    LayersStop(b, arg, c);
    HeadOfPrinted(arg);
    assert b[0] == TokensOf(arg)[0];
    CallArgument(t, b, arg, rest);
    PrimaryCall(t, ts, AggFunc(t, Some(arg)), rest);
  }

  lemma CallStar(rest: Tokens)
    ensures ParseCall(Count, [L.Token(L.STAR, "*"), CLOSE] + rest) == Ok((AggFunc(Count, None), rest))
  {
    var b := [L.Token(L.STAR, "*"), CLOSE] + rest;
    assert b[1..] == [CLOSE] + rest && ([CLOSE] + rest)[1..] == rest;
  }

  lemma ParseCountStar(rest: Tokens)
    ensures ParsePrimary(TokensOf(AggFunc(Count, None)) + rest) == Ok((AggFunc(Count, None), rest))
  {
    var ts := TokensOf(AggFunc(Count, None)) + rest;
    var b := [L.Token(L.STAR, "*"), CLOSE] + rest;
    assert ts[2..] == b;
    CallStar(rest);
    PrimaryCall(Count, ts, AggFunc(Count, None), rest);
  }

  lemma {:induction false} HeadOfPrinted(e: SqlAst.Expr)
    ensures TokensOf(e) != [] && Head(TokensOf(e)) != L.STAR && Head(TokensOf(e)) != L.RPAREN
  {
  }

  lemma ParseInteger(v: int, rest: Tokens)
    requires 0 <= v <= INT32_MAX
    ensures ParsePrimary([L.Token(L.INTEGER, IntString(v))] + rest) == Ok((IntLiteral(v), rest))
  {
    var ts := [L.Token(L.INTEGER, IntString(v))] + rest;
    assert ts[1..] == rest;
    DigitsAreDigits(v);
  }

  lemma ParseName(name: string, rest: Tokens)
    requires Follows(rest)
    ensures ParsePrimary([L.Token(L.IDENTIFIER, name)] + rest) == Ok((ColumnRef(name), rest))
  {
    assert ([L.Token(L.IDENTIFIER, name)] + rest)[1..] == rest;
  }

  lemma ParseLeaf(e: SqlAst.Expr, rest: Tokens)
    requires Printable(e) && IsLeaf(e) && Follows(rest)
    ensures ParsePrimary(TokensOf(e) + rest) == Ok((e, rest))
  {
    match e
    case ColumnRef(name) => ParseName(name, rest);
    case IntLiteral(v) => ParseInteger(v, rest);
    case StringLiteral(s) => assert ([L.Token(L.STRING, s)] + rest)[1..] == rest;
  }

  lemma PrimaryParenthesis(ts: Tokens, e: SqlAst.Expr, rest: Tokens)
    requires ts != [] && ts[0] == OPEN && ParseOr(ts[1..]) == Ok((e, [CLOSE] + rest))
    ensures ParsePrimary(ts) == Ok((e, rest))
  {
    assert ([CLOSE] + rest)[1..] == rest;
  }

  lemma BinaryTokens(op: OpType, l: SqlAst.Expr, r: SqlAst.Expr, rest: Tokens)
    ensures TokensOf(BinaryOp(op, l, r)) + rest
            == [OPEN] + (TokensOf(l) + ([OpToken(op)] + (TokensOf(r) + ([CLOSE] + rest))))
  {
  }

  function Inside(op: OpType, l: SqlAst.Expr, r: SqlAst.Expr, c: Tokens): Tokens {
    TokensOf(l) + ([OpToken(op)] + (TokensOf(r) + c))
  }

  lemma ParseInside(op: OpType, l: SqlAst.Expr, r: SqlAst.Expr, c: Tokens)
    requires Parses(l) && Parses(r) && Head(c) == L.RPAREN
    ensures ParseOr(Inside(op, l, r, c)) == Ok((BinaryOp(op, l, r), c))
  {
    var b := TokensOf(r) + c;
    var a := [OpToken(op)] + b;
    OperatorHead(op);
    assert a[1..] == b;
    assert Follows(a) && Follows(c);
    ParseBinary(op, l, r, TokensOf(l) + a, a, c, OpToken(op).tokenType);
  }

  lemma ParseParenthesized(op: OpType, l: SqlAst.Expr, r: SqlAst.Expr, rest: Tokens)
    requires Parses(l) && Parses(r)
    ensures ParsePrimary(TokensOf(BinaryOp(op, l, r)) + rest) == Ok((BinaryOp(op, l, r), rest))
  {
    var inner := Inside(op, l, r, [CLOSE] + rest);
    ParseInside(op, l, r, [CLOSE] + rest);
    BinaryTokens(op, l, r, rest);
    assert ([OPEN] + inner)[1..] == inner;
    PrimaryParenthesis([OPEN] + inner, BinaryOp(op, l, r), rest);
  }

  /** The tokens of an expression parse, as one operand, to the expression. */
  lemma {:induction false} ParsePrinted(e: SqlAst.Expr)
    requires Printable(e) && NoDoubles(e)
    ensures Parses(e)
    decreases e
  {
    match e
    case BinaryOp(op, l, r) =>
      ParsePrinted(l);
      ParsePrinted(r);
      forall x | Follows(x) ensures ParsePrimary(TokensOf(e) + x) == Ok((e, x)) {
        ParseParenthesized(op, l, r, x);
      }
    case AggFunc(t, None) =>
      forall x | Follows(x) ensures ParsePrimary(TokensOf(e) + x) == Ok((e, x)) {
        ParseCountStar(x);
      }
    case AggFunc(t, Some(arg)) =>
      ParsePrinted(arg);
      forall x | Follows(x) ensures ParsePrimary(TokensOf(e) + x) == Ok((e, x)) {
        ParseCallPrinted(t, arg, x);
      }
    case DoubleLiteral(_) =>
    case _ =>
      forall x | Follows(x) ensures ParsePrimary(TokensOf(e) + x) == Ok((e, x)) {
        ParseLeaf(e, x);
      }
  }

  lemma LexesWhole(e: SqlAst.Expr)
    requires Printable(e) && NoDoubles(e)
    ensures L.Lex(ToString(e)) == Some(TokensOf(e) + [L.END_TOKEN])
  {
    var lex := (s: string) => L.Lex(s);
    PiecesLexed(lex);
    LexPrinted(lex, e);
    assert Delimited([]) && ToString(e) + [] == ToString(e);
    assert lex(ToString(e) + []) == Prepend(TokensOf(e), lex([]));
    EmptyText();
  }

  lemma EmptyText()
    ensures L.Lex([]) == Some([L.END_TOKEN])
  {
  }

  lemma ParsesWhole(e: SqlAst.Expr)
    requires Printable(e) && NoDoubles(e)
    ensures ParseOr(TokensOf(e) + [L.END_TOKEN]) == Ok((e, [L.END_TOKEN]))
  {
    var end := [L.END_TOKEN];
    ParsePrinted(e);
    assert Follows(end);
    LayersStop(TokensOf(e) + end, e, end);
  }

  /** Print, lex, parse: the expression comes back. */
  lemma RoundTrip(e: SqlAst.Expr)
    requires Printable(e) && NoDoubles(e)
    ensures ParseText(ToString(e)) == Ok(e)
  {
    LexesWhole(e);
    ParsesWhole(e);
  }
}
