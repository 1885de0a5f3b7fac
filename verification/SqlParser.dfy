/** src/sql/parser/parser.cpp: the expression layers. */
module SqlParser {
  import opened Wrappers
  import opened Values
  import opened Aggregates
  import opened SqlAst
  import L = SqlLexer

  type Token = L.Token
  type Tokens = seq<Token>

  /** An expression and the tokens after it. */
  type Parsed = Result<(SqlAst.Expr, Tokens), string>

  function Head(ts: Tokens): L.TokenType {
    if ts == [] then L.END else ts[0].tokenType
  }

  function ComparisonOp(t: L.TokenType): Option<OpType> {
    match t
    case PLUS => Some(ADD)
    case MINUS => Some(SUB)
    case EQ => Some(SqlAst.EQ)
    case NE => Some(SqlAst.NE)
    case GT => Some(SqlAst.GT)
    case GE => Some(SqlAst.GE)
    case LT => Some(SqlAst.LT)
    case LE => Some(SqlAst.LE)
    case _ => None
  }

  function AggOf(name: string): AggType {
    if name == "SUM" then Sum
    else if name == "COUNT" then Count
    else if name == "AVG" then Avg
    else if name == "MIN" then Min
    else if name == "MAX" then Max
    else InvalidAgg
  }

  predicate AllDigits(s: string) {
    forall i | 0 <= i < |s| :: L.IsDigit(s[i])
  }

  function Numeral(s: string): nat
    requires AllDigits(s)
  {
    if s == [] then 0 else 10 * Numeral(s[..|s| - 1]) + (s[|s| - 1] as int - '0' as int)
  }

  /** std::stoi on what the lexer calls an integer; None where it throws. */
  function Stoi(s: string): Option<int> {
    if s != [] && AllDigits(s) && Numeral(s) <= INT32_MAX then Some(Numeral(s)) else None
  }

  // ---------- Specification, on the tokens still to be read ----------

  function ParseOr(ts: Tokens): (r: Parsed)
    ensures r.Ok? ==> |r.value.1| < |ts|
    decreases |ts|, 3
  {
    match ParseAnd(ts)
    case Err(m) => Err(m)
    case Ok((left, rest)) => OrTail(left, rest)
  }

  function OrTail(left: SqlAst.Expr, ts: Tokens): (r: Parsed)
    ensures r.Ok? ==> |r.value.1| <= |ts|
    decreases |ts|, 4
  {
    if Head(ts) != L.OR then Ok((left, ts))
    else
      match ParseAnd(ts[1..])
      case Err(m) => Err(m)
      case Ok((right, rest)) => OrTail(BinaryOp(SqlAst.OR, left, right), rest)
  }

  function ParseAnd(ts: Tokens): (r: Parsed)
    ensures r.Ok? ==> |r.value.1| < |ts|
    decreases |ts|, 2
  {
    match ParseComparison(ts)
    case Err(m) => Err(m)
    case Ok((left, rest)) => AndTail(left, rest)
  }

  function AndTail(left: SqlAst.Expr, ts: Tokens): (r: Parsed)
    ensures r.Ok? ==> |r.value.1| <= |ts|
    decreases |ts|, 4
  {
    if Head(ts) != L.AND then Ok((left, ts))
    else
      match ParseComparison(ts[1..])
      case Err(m) => Err(m)
      case Ok((right, rest)) => AndTail(BinaryOp(SqlAst.AND, left, right), rest)
  }

  function ParseComparison(ts: Tokens): (r: Parsed)
    ensures r.Ok? ==> |r.value.1| < |ts|
    decreases |ts|, 1
  {
    match ParsePrimary(ts)
    case Err(m) => Err(m)
    case Ok((left, rest)) => ComparisonTail(left, rest)
  }

  function ComparisonTail(left: SqlAst.Expr, ts: Tokens): (r: Parsed)
    ensures r.Ok? ==> |r.value.1| <= |ts|
    decreases |ts|, 4
  {
    if ComparisonOp(Head(ts)).None? then Ok((left, ts))
    else
      match ParsePrimary(ts[1..])
      case Err(m) => Err(m)
      case Ok((right, rest)) => ComparisonTail(BinaryOp(ComparisonOp(Head(ts)).value, left, right), rest)
  }

  function ParsePrimary(ts: Tokens): (r: Parsed)
    ensures r.Ok? ==> |r.value.1| < |ts|
    decreases |ts|, 0
  {
    match Head(ts)
    case INTEGER =>
      (match Stoi(ts[0].text) case None => Err("stoi") case Some(v) => Ok((IntLiteral(v), ts[1..])))
    case FLOAT => Ok((DoubleLiteral(ts[0].text), ts[1..]))
    case STRING => Ok((StringLiteral(ts[0].text), ts[1..]))
    case IDENTIFIER =>
      if Head(ts[1..]) != L.LPAREN then Ok((ColumnRef(ts[0].text), ts[1..]))
      else ParseCall(AggOf(ts[0].text), ts[2..])
    case LPAREN =>
      (match ParseOr(ts[1..])
       case Err(m) => Err(m)
       case Ok((e, rest)) => Close(e, rest))
    case _ => Err("Unexpected token in expression")
  }

  /** The argument and closing parenthesis of an aggregate call. */
  function ParseCall(t: AggType, ts: Tokens): (r: Parsed)
    ensures r.Ok? ==> |r.value.1| < |ts|
    decreases |ts|, 4
  {
    if t.InvalidAgg? then Err("Unknown function")
    else if Head(ts) == L.STAR then
      if !t.Count? then Err("Only COUNT(*) supports '*' as aggregate argument") else Close(AggFunc(t, None), ts[1..])
    else if Head(ts) == L.RPAREN then Err("Aggregate function requires an argument")
    else
      match ParseOr(ts)
      case Err(m) => Err(m)
      case Ok((arg, rest)) => Close(AggFunc(t, Some(arg)), rest)
  }

  /** Expect(RPAREN). */
  function Close(e: SqlAst.Expr, ts: Tokens): (r: Parsed)
    ensures r.Ok? ==> |r.value.1| < |ts|
  {
    if Head(ts) == L.RPAREN then Ok((e, ts[1..])) else Err("Expected ')'")
  }

  // ---------- The parser ----------

  class Parser {
    const tokens: Tokens
    var currentIndex: nat

    constructor (tokens: Tokens)
      ensures this.tokens == tokens && currentIndex == 0
    {
      this.tokens, currentIndex := tokens, 0;
    }

    ghost predicate Valid()
      reads this
    {
      currentIndex <= |tokens|
    }

    ghost function Rest(): Tokens
      requires Valid()
      reads this
    {
      tokens[currentIndex..]
    }

    /** What a parsing method returned, next to what the specification says of the tokens it was given. */
    ghost predicate Agrees(r: Result<SqlAst.Expr, string>, spec: Parsed)
      requires Valid()
      reads this
    {
      match r
      case Ok(e) => spec == Ok((e, Rest()))
      case Err(m) => spec == Err(m)
    }

    function Peek(): (token: Token)
      requires Valid()
      reads this
      ensures token.tokenType == Head(Rest())
      ensures Rest() != [] ==> token == Rest()[0]
    {
      if currentIndex < |tokens| then tokens[currentIndex] else L.END_TOKEN
    }

    method Consume() returns (token: Token)
      requires Valid()
      modifies this
      ensures Valid() && token == old(Peek())
      ensures old(Rest()) != [] ==> Rest() == old(Rest())[1..]
    {
      token := Peek();
      if currentIndex < |tokens| {
        currentIndex := currentIndex + 1;
      }
    }

    method ParseExpression() returns (r: Result<SqlAst.Expr, string>)
      requires Valid()
      modifies this
      ensures Valid() && Agrees(r, ParseOr(old(Rest())))
      decreases |tokens| - currentIndex, 3
    {
      ghost var ts := Rest();
      r := ParseAndExpression();
      if r.Err? {
        return;
      }
      var left := r.value;
      while Peek().tokenType == L.OR
        invariant Valid() && |Rest()| < |ts| && ParseOr(ts) == OrTail(left, Rest())
        decreases |Rest()|
      {
        var op := Consume();
        r := ParseAndExpression();
        if r.Err? {
          return;
        }
        left := BinaryOp(SqlAst.OR, left, r.value);
      }
      r := Ok(left);
    }

    method ParseAndExpression() returns (r: Result<SqlAst.Expr, string>)
      requires Valid()
      modifies this
      ensures Valid() && Agrees(r, ParseAnd(old(Rest())))
      decreases |tokens| - currentIndex, 2
    {
      ghost var ts := Rest();
      r := ParseComparisonExpression();
      if r.Err? {
        return;
      }
      var left := r.value;
      while Peek().tokenType == L.AND
        invariant Valid() && |Rest()| < |ts| && ParseAnd(ts) == AndTail(left, Rest())
        decreases |Rest()|
      {
        var op := Consume();
        r := ParseComparisonExpression();
        if r.Err? {
          return;
        }
        left := BinaryOp(SqlAst.AND, left, r.value);
      }
      r := Ok(left);
    }

    method ParseComparisonExpression() returns (r: Result<SqlAst.Expr, string>)
      requires Valid()
      modifies this
      ensures Valid() && Agrees(r, ParseComparison(old(Rest())))
      decreases |tokens| - currentIndex, 1
    {
      ghost var ts := Rest();
      r := ParsePrimaryExpression();
      if r.Err? {
        return;
      }
      var left := r.value;
      while true
        invariant Valid() && |Rest()| < |ts| && ParseComparison(ts) == ComparisonTail(left, Rest())
        decreases |Rest()|
      {
        var op := ComparisonOp(Peek().tokenType);
        if op.None? {
          break;
        }
        var token := Consume();
        r := ParsePrimaryExpression();
        if r.Err? {
          return;
        }
        left := BinaryOp(op.value, left, r.value);
      }
      r := Ok(left);
    }

    method ParsePrimaryExpression() returns (r: Result<SqlAst.Expr, string>)
      requires Valid()
      modifies this
      ensures Valid() && Agrees(r, ParsePrimary(old(Rest())))
      decreases |tokens| - currentIndex, 0
    {
      ghost var ts := Rest();
      var token := Peek();
      match token.tokenType {
        case INTEGER =>
          token := Consume();
          var v := Stoi(token.text);
          r := if v.None? then Err("stoi") else Ok(IntLiteral(v.value));
        case FLOAT =>
          token := Consume();
          r := Ok(DoubleLiteral(token.text));
        case STRING =>
          token := Consume();
          r := Ok(StringLiteral(token.text));
        case IDENTIFIER =>
          token := Consume();
          if Peek().tokenType == L.LPAREN {
            var paren := Consume();
            assert Rest() == ts[2..];
            r := ParseCallArgument(AggOf(token.text));
          } else {
            r := Ok(ColumnRef(token.text));
          }
        case LPAREN =>
          token := Consume();
          r := ParseExpression();
          if r.Ok? {
            r := ExpectClose(r.value);
          }
        case _ =>
          r := Err("Unexpected token in expression");
      }
    }

    method ParseCallArgument(t: AggType) returns (r: Result<SqlAst.Expr, string>)
      requires Valid()
      modifies this
      ensures Valid() && Agrees(r, ParseCall(t, old(Rest())))
      decreases |tokens| - currentIndex, 4
    {
      if t.InvalidAgg? {
        return Err("Unknown function");
      }
      if Peek().tokenType == L.STAR {
        var star := Consume();
        if !t.Count? {
          return Err("Only COUNT(*) supports '*' as aggregate argument");
        }
        r := ExpectClose(AggFunc(t, None));
        return;
      }
      if Peek().tokenType == L.RPAREN {
        return Err("Aggregate function requires an argument");
      }
      r := ParseExpression();
      if r.Ok? {
        r := ExpectClose(AggFunc(t, Some(r.value)));
      }
    }

    method ExpectClose(e: SqlAst.Expr) returns (r: Result<SqlAst.Expr, string>)
      requires Valid()
      modifies this
      ensures Valid() && Agrees(r, Close(e, old(Rest())))
    {
      if Peek().tokenType != L.RPAREN {
        return Err("Expected ')'");
      }
      var paren := Consume();
      r := Ok(e);
    }
  }
}
