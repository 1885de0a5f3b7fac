/** What the parser can produce is exactly what survives being printed and read again. */
module SqlPrintable {
  import opened Wrappers
  import opened Values
  import opened Aggregates
  import opened SqlAst
  import opened SqlParser
  import opened SqlRoundTrip
  import L = SqlLexer

  predicate GoodToken(t: Token) {
    && (t.tokenType == L.IDENTIFIER ==> IsIdentifier(t.text))
    && (t.tokenType == L.STRING ==> '\'' !in t.text)
  }

  predicate GoodTokens(ts: Tokens) {
    forall i | 0 <= i < |ts| :: GoodToken(ts[i])
  }

  lemma {:induction false} WordCharacters(s: string)
    ensures forall i | 0 <= i < L.WordLength(s) :: L.IsWord(s[i])
  {
    if s != [] && L.IsWord(s[0]) {
      WordCharacters(s[1..]);
      forall i | 0 <= i < L.WordLength(s) ensures L.IsWord(s[i]) {
        if i > 0 { assert s[i] == s[1..][i - 1]; }
      }
    }
  }

  lemma {:induction false} StringCharacters(s: string)
    ensures forall i | 0 <= i < L.StringLength(s) :: s[i] != '\''
  {
    if s != [] && s[0] != '\'' {
      StringCharacters(s[1..]);
      forall i | 0 <= i < L.StringLength(s) ensures s[i] != '\'' {
        if i > 0 { assert s[i] == s[1..][i - 1]; }
      }
    }
  }

  lemma WordIsGood(s: string)
    requires s != [] && L.IsWordStart(s[0])
    ensures GoodToken(L.ReadWord(s).token)
  {
    WordCharacters(s);
    assert L.WordLength(s) > 0;
  }

  lemma StringIsGood(s: string)
    requires s != []
    ensures GoodToken(L.ReadString(s).token)
  {
    StringCharacters(s[1..]);
    var n := L.StringLength(s[1..]);
    var inside := s[1..1 + n];
    forall i | 0 <= i < n ensures inside[i] != '\'' {
      assert inside[i] == s[1..][i];
    }
  }

  lemma {:induction false} NextIsGood(text: string)
    ensures L.Next(text).Read? ==> GoodToken(L.Next(text).token)
    decreases |text|
  {
    var s := text[L.SpaceLength(text)..];
    if s != [] {
      if L.IsWordStart(s[0]) {
        WordIsGood(s);
      } else if L.IsDigit(s[0]) {
      } else if s[0] == '\'' {
        StringIsGood(s);
      } else if !L.IsSymbol(s[0]) {
        NextIsGood(s[1..]);
      }
    }
  }

  lemma {:induction false} LexIsGood(text: string)
    ensures L.Lex(text).Some? ==> GoodTokens(L.Lex(text).value)
    decreases |text|
  {
    NextIsGood(text);
    match L.Next(text)
    case Stuck =>
    case Read(token, rest) =>
      if token.tokenType != L.END {
        LexIsGood(rest);
      }
  }

  /** A parse of good tokens yields a printable expression and leaves good tokens. */
  predicate GoodParse(r: Parsed) {
    r.Ok? ==> Printable(r.value.0) && GoodTokens(r.value.1)
  }

  lemma {:induction false} OrIsGood(ts: Tokens)
    requires GoodTokens(ts)
    ensures GoodParse(ParseOr(ts))
    decreases |ts|, 3
  {
    AndIsGood(ts);
    var r := ParseAnd(ts);
    if r.Ok? {
      OrTailIsGood(r.value.0, r.value.1);
    }
  }

  lemma {:induction false} OrTailIsGood(left: SqlAst.Expr, ts: Tokens)
    requires GoodTokens(ts) && Printable(left)
    ensures GoodParse(OrTail(left, ts))
    decreases |ts|, 4
  {
    if Head(ts) == L.OR {
      AndIsGood(ts[1..]);
      var r := ParseAnd(ts[1..]);
      if r.Ok? {
        OrTailIsGood(BinaryOp(SqlAst.OR, left, r.value.0), r.value.1);
      }
    }
  }

  lemma {:induction false} AndIsGood(ts: Tokens)
    requires GoodTokens(ts)
    ensures GoodParse(ParseAnd(ts))
    decreases |ts|, 2
  {
    ComparisonIsGood(ts);
    var r := ParseComparison(ts);
    if r.Ok? {
      AndTailIsGood(r.value.0, r.value.1);
    }
  }

  lemma {:induction false} AndTailIsGood(left: SqlAst.Expr, ts: Tokens)
    requires GoodTokens(ts) && Printable(left)
    ensures GoodParse(AndTail(left, ts))
    decreases |ts|, 4
  {
    if Head(ts) == L.AND {
      ComparisonIsGood(ts[1..]);
      var r := ParseComparison(ts[1..]);
      if r.Ok? {
        AndTailIsGood(BinaryOp(SqlAst.AND, left, r.value.0), r.value.1);
      }
    }
  }

  lemma {:induction false} ComparisonIsGood(ts: Tokens)
    requires GoodTokens(ts)
    ensures GoodParse(ParseComparison(ts))
    decreases |ts|, 1
  {
    PrimaryIsGood(ts);
    var r := ParsePrimary(ts);
    if r.Ok? {
      ComparisonTailIsGood(r.value.0, r.value.1);
    }
  }

  lemma {:induction false} ComparisonTailIsGood(left: SqlAst.Expr, ts: Tokens)
    requires GoodTokens(ts) && Printable(left)
    ensures GoodParse(ComparisonTail(left, ts))
    decreases |ts|, 4
  {
    if ComparisonOp(Head(ts)).Some? {
      PrimaryIsGood(ts[1..]);
      var r := ParsePrimary(ts[1..]);
      if r.Ok? {
        ComparisonTailIsGood(BinaryOp(ComparisonOp(Head(ts)).value, left, r.value.0), r.value.1);
      }
    }
  }

  lemma {:induction false} PrimaryIsGood(ts: Tokens)
    requires GoodTokens(ts)
    ensures GoodParse(ParsePrimary(ts))
    decreases |ts|, 0
  {
    if Head(ts) == L.IDENTIFIER {
      assert GoodToken(ts[0]);
      if Head(ts[1..]) == L.LPAREN {
        CallIsGood(AggOf(ts[0].text), ts[2..]);
      }
    } else if Head(ts) == L.LPAREN {
      OrIsGood(ts[1..]);
    } else if Head(ts) == L.STRING {
      assert GoodToken(ts[0]);
    }
  }

  lemma {:induction false} CallIsGood(t: AggType, ts: Tokens)
    requires GoodTokens(ts)
    ensures GoodParse(ParseCall(t, ts))
    decreases |ts|, 4
  {
    if !t.InvalidAgg? && Head(ts) != L.STAR && Head(ts) != L.RPAREN {
      OrIsGood(ts);
    }
  }

  /** Whatever text is parsed, the expression that comes out can be printed and read again. */
  lemma ParsedIsPrintable(text: string)
    ensures ParseText(text).Ok? ==> Printable(ParseText(text).value)
  {
    LexIsGood(text);
    if L.Lex(text).Some? {
      OrIsGood(L.Lex(text).value);
    }
  }

  /**
   * Printing, lexing and parsing is the identity on an expression without floating literals exactly when its
   * names are identifiers, its integers int32 and not negative, its strings free of quotes, and `*` the
   * argument of COUNT alone.
   */
  lemma RoundTripIff(e: SqlAst.Expr)
    requires NoDoubles(e)
    ensures ParseText(ToString(e)) == Ok(e) <==> Printable(e)
  {
    ParsedIsPrintable(ToString(e));
    if Printable(e) {
      RoundTrip(e);
    }
  }

  /** A parsed expression is a fixed point of printing and parsing. */
  lemma ParsedIsFixed(text: string)
    requires ParseText(text).Ok? && NoDoubles(ParseText(text).value)
    ensures ParseText(ToString(ParseText(text).value)) == ParseText(text)
  {
    ParsedIsPrintable(text);
    RoundTrip(ParseText(text).value);
  }
}
