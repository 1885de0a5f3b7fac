/** Every kind of token, written out, is read as itself. */
module SqlTokens {
  import opened Wrappers
  import opened SqlLexer
  import opened SqlParser
  import opened SqlRoundTrip

  /** How keywords, operators and punctuation are written. */
  function Spelling(t: TokenType): string {
    match t
    case SELECT => "SELECT"
    case FROM => "FROM"
    case WHERE => "WHERE"
    case GROUP => "GROUP"
    case BY => "BY"
    case CREATE => "CREATE"
    case TABLE => "TABLE"
    case PRIMARY => "PRIMARY"
    case KEY => "KEY"
    case INSERT => "INSERT"
    case INTO => "INTO"
    case VALUES => "VALUES"
    case AS => "AS"
    case AND => "AND"
    case OR => "OR"
    case LPAREN => "("
    case RPAREN => ")"
    case COMMA => ","
    case SEMICOLON => ";"
    case STAR => "*"
    case PLUS => "+"
    case MINUS => "-"
    case EQ => "="
    case NE => "!="
    case GT => ">"
    case GE => ">="
    case LT => "<"
    case LE => "<="
    case _ => ""
  }

  predicate IsKeyword(t: TokenType) {
    t in {SELECT, FROM, WHERE, GROUP, BY, CREATE, TABLE, PRIMARY, KEY, INSERT, INTO, VALUES, AS, AND, OR}
  }

  predicate IsName(text: string) {
    && text != [] && IsWordStart(text[0]) && (forall i | 0 <= i < |text| :: IsWord(text[i]))
    && forall t | IsKeyword(t) :: text != Spelling(t)
  }

  /** Digits with one point among them, after the first. */
  predicate IsDecimal(text: string) {
    exists k :: 0 < k < |text| && text[k] == '.' && forall i | 0 <= i < |text| && i != k :: IsDigit(text[i])
  }

  predicate Proper(t: Token) {
    match t.tokenType
    case IDENTIFIER => IsName(t.text)
    case INTEGER => t.text != [] && AllDigits(t.text)
    case FLOAT => IsDecimal(t.text)
    case STRING => '\'' !in t.text
    case END => false
    case _ => t.text == Spelling(t.tokenType)
  }

  function Written(t: Token): string {
    if t.tokenType.STRING? then "'" + t.text + "'" else t.text
  }

  function Render(ts: seq<Token>): string {
    if ts == [] then [] else Written(ts[0]) + (" " + Render(ts[1..]))
  }

  // ---------- one token ----------

  lemma QueryKeywords(t: TokenType)
    requires t in {SELECT, FROM, WHERE, GROUP, BY}
    ensures KeywordOr(Spelling(t)) == t
  {
  }

  lemma TableKeywords(t: TokenType)
    requires t in {CREATE, TABLE, PRIMARY, KEY}
    ensures KeywordOr(Spelling(t)) == t
  {
  }

  lemma InsertKeywords(t: TokenType)
    requires t in {INSERT, INTO, VALUES}
    ensures KeywordOr(Spelling(t)) == t
  {
  }

  lemma OtherKeywords(t: TokenType)
    requires t in {AS, AND, OR}
    ensures KeywordOr(Spelling(t)) == t
  {
  }

  lemma KeywordKnown(t: TokenType)
    requires IsKeyword(t)
    ensures KeywordOr(Spelling(t)) == t
  {
    if t in {SELECT, FROM, WHERE, GROUP, BY} {
      QueryKeywords(t);
    } else if t in {CREATE, TABLE, PRIMARY, KEY} {
      TableKeywords(t);
    } else if t in {INSERT, INTO, VALUES} {
      InsertKeywords(t);
    } else {
      OtherKeywords(t);
    }
  }

  predicate Capitals(s: string) {
    s != [] && forall i | 0 <= i < |s| :: 'A' <= s[i] <= 'Z'
  }

  lemma KeywordLetters(t: TokenType)
    requires IsKeyword(t)
    ensures Capitals(Spelling(t))
  {
  }

  lemma KeywordSpelt(text: string)
    ensures KeywordOr(text) == IDENTIFIER || (IsKeyword(KeywordOr(text)) && text == Spelling(KeywordOr(text)))
  {
  }

  lemma {:induction false} DottedTaken(text: string, k: int, rest: string)
    requires k < |text| && (0 <= k ==> text[k] == '.')
    requires forall i | 0 <= i < |text| && i != k :: IsDigit(text[i])
    requires rest != [] && !IsDigit(rest[0]) && rest[0] != '.'
    ensures NumberLength(text + rest, k < 0) == |text|
    decreases |text|
  {
    if text == [] {
      assert text + rest == rest;
    } else {
      assert (text + rest)[1..] == text[1..] + rest && (text + rest)[0] == text[0];
      DottedTaken(text[1..], k - 1, rest);
    }
  }

  lemma LexDecimal(text: string, rest: string)
    requires IsDecimal(text)
    ensures Lex(text + (" " + rest)) == Prepend([Token(FLOAT, text)], Lex(" " + rest))
  {
    var all := text + (" " + rest);
    var k :| 0 < k < |text| && text[k] == '.' && forall i | 0 <= i < |text| && i != k :: IsDigit(text[i]);
    DottedTaken(text, k, " " + rest);
    assert all[0] == text[0];
    NoSpace(all);
    assert all[..|text|] == text && all[|text|..] == " " + rest;
    assert text[k] in text;
    LexStep(all, Token(FLOAT, text), " " + rest);
  }

  predicate IsSign(t: TokenType) {
    t in {LPAREN, RPAREN, COMMA, SEMICOLON, STAR, PLUS, MINUS, EQ, NE, GT, GE, LT, LE}
  }

  lemma ShortSign(t: TokenType, after: string)
    requires IsSign(t) && |Spelling(t)| == 1 && after != [] && after[0] == ' '
    ensures var text := Spelling(t) + after;
            IsSymbol(text[0]) && Symbol(text) == Read(Token(t, Spelling(t)), after)
  {
    var text := Spelling(t) + after;
    assert text[1..] == after && text[..1] == Spelling(t) && text[1] == ' ';
  }

  lemma LongSign(t: TokenType, after: string)
    requires IsSign(t) && |Spelling(t)| == 2
    ensures var text := Spelling(t) + after;
            IsSymbol(text[0]) && Symbol(text) == Read(Token(t, Spelling(t)), after)
  {
    var text := Spelling(t) + after;
    assert text[2..] == after && text[..2] == Spelling(t) && text[1] == '=';
  }

  lemma LexOne(t: Token, rest: string)
    requires Proper(t)
    ensures Lex(Written(t) + (" " + rest)) == Prepend([t], Lex(rest))
  {
    var after := " " + rest;
    LexSpace(rest);
    if t.tokenType.STRING? {
      LexQuoted(t.text, after);
    } else if t.tokenType.INTEGER? {
      LexNumber(t.text, after);
    } else if t.tokenType.FLOAT? {
      LexDecimal(t.text, rest);
    } else if t.tokenType.IDENTIFIER? {
      KeywordSpelt(t.text);
      LexWord(t.text, after);
    } else if IsKeyword(t.tokenType) {
      KeywordKnown(t.tokenType);
      KeywordLetters(t.tokenType);
      LexWord(t.text, after);
    } else {
      if |t.text| == 1 { ShortSign(t.tokenType, after); } else { LongSign(t.tokenType, after); }
      NextSymbol(t.text + after);
      LexStep(t.text + after, t, after);
    }
  }

  // ---------- many ----------

  /** Tokens of any kinds, written out with spaces between them, are read back. */
  lemma {:induction false} RenderedIsRead(ts: seq<Token>)
    requires forall i | 0 <= i < |ts| :: Proper(ts[i])
    ensures Lex(Render(ts)) == Some(ts + [END_TOKEN])
  {
    if ts == [] {
      EmptyText();
      assert ts + [END_TOKEN] == [END_TOKEN];
    } else {
      RenderedIsRead(ts[1..]);
      LexOne(ts[0], Render(ts[1..]));
      assert [ts[0]] + (ts[1..] + [END_TOKEN]) == ts + [END_TOKEN];
    }
  }
}
