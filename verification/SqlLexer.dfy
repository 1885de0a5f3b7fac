/** src/sql/lexer/lexer.cpp. */
module SqlLexer {
  import opened Wrappers

  datatype TokenType =
    | SELECT | FROM | WHERE | GROUP | BY | CREATE | TABLE | PRIMARY | KEY | INSERT | INTO | VALUES | AS
    | AND | OR
    | IDENTIFIER | INTEGER | FLOAT | STRING
    | LPAREN | RPAREN | COMMA | SEMICOLON | STAR | PLUS | MINUS | EQ | NE | GT | GE | LT | LE
    | END

  /** Source positions are not kept. */
  datatype Token = Token(tokenType: TokenType, text: string)

  const END_TOKEN: Token := Token(END, "")

  predicate IsAlpha(c: char) { 'a' <= c <= 'z' || 'A' <= c <= 'Z' }
  predicate IsDigit(c: char) { '0' <= c <= '9' }
  predicate IsSpace(c: char) { c == ' ' || '\t' <= c <= '\r' }
  predicate IsWordStart(c: char) { IsAlpha(c) || c == '_' }
  predicate IsWord(c: char) { IsAlpha(c) || IsDigit(c) || c == '_' }

  // ---------- Specification, on the text still to be read ----------

  /** How many characters at the front continue a word. */
  function WordLength(s: string): (n: nat)
    ensures n <= |s|
  {
    if s == [] || !IsWord(s[0]) then 0 else 1 + WordLength(s[1..])
  }

  function SpaceLength(s: string): (n: nat)
    ensures n <= |s|
  {
    if s == [] || !IsSpace(s[0]) then 0 else 1 + SpaceLength(s[1..])
  }

  /** How many characters belong to a number; `dotted` says its point has been read. */
  function NumberLength(s: string, dotted: bool): (n: nat)
    ensures n <= |s|
  {
    if s == [] then 0
    else if IsDigit(s[0]) then 1 + NumberLength(s[1..], dotted)
    else if s[0] == '.' && !dotted then 1 + NumberLength(s[1..], true)
    else 0
  }

  /** Characters before the closing quote, or all of them. */
  function StringLength(s: string): (n: nat)
    ensures n <= |s|
  {
    if s == [] || s[0] == '\'' then 0 else 1 + StringLength(s[1..])
  }

  function KeywordOr(text: string): TokenType {
    if text == "SELECT" then SELECT
    else if text == "FROM" then FROM
    else if text == "WHERE" then WHERE
    else if text == "GROUP" then GROUP
    else if text == "BY" then BY
    else if text == "CREATE" then CREATE
    else if text == "TABLE" then TABLE
    else if text == "PRIMARY" then PRIMARY
    else if text == "KEY" then KEY
    else if text == "INSERT" then INSERT
    else if text == "INTO" then INTO
    else if text == "VALUES" then VALUES
    else if text == "AS" then AS
    else if text == "AND" then AND
    else if text == "OR" then OR
    else IDENTIFIER
  }

  /** A token and the text after it; Stuck where the source recurses for ever. */
  datatype Scan = Read(token: Token, rest: string) | Stuck

  function ReadWord(s: string): Scan {
    var n := WordLength(s);
    Read(Token(KeywordOr(s[..n]), s[..n]), s[n..])
  }

  function ReadNumber(s: string): Scan {
    var n := NumberLength(s, false);
    Read(Token(if '.' in s[..n] then FLOAT else INTEGER, s[..n]), s[n..])
  }

  function ReadString(s: string): Scan
    requires s != []
  {
    var n := StringLength(s[1..]);
    Read(Token(STRING, s[1..1 + n]), if 1 + n < |s| then s[n + 2..] else s[n + 1..])
  }

  /** One of the two-character comparisons, or its first character alone. */
  function ReadCompare(s: string, withEquals: TokenType, alone: Token): Scan
    requires s != []
  {
    if |s| > 1 && s[1] == '=' then Read(Token(withEquals, s[..2]), s[2..]) else Read(alone, s[1..])
  }

  predicate IsSymbol(c: char) {
    c == '(' || c == ')' || c == ',' || c == ';' || c == '*' || c == '+' || c == '-' || c == '=' || c == '<' || c == '>'
    || c == '!'
  }

  /** Operators and punctuation. A lone `!` reads as END; `--` never returns. */
  function Symbol(s: string): (r: Scan)
    requires s != [] && IsSymbol(s[0])
    ensures r.Read? ==> |r.rest| < |s|
  {
    match s[0]
    case '-' => if |s| > 1 && s[1] == '-' then Stuck else Read(Token(MINUS, "-"), s[1..])
    case '<' => ReadCompare(s, LE, Token(LT, "<"))
    case '>' => ReadCompare(s, GE, Token(GT, ">"))
    case '!' => ReadCompare(s, NE, END_TOKEN)
    case _ => Read(Token(Punctuation(s[0]), s[..1]), s[1..])
  }

  function Punctuation(c: char): TokenType {
    match c
    case '(' => LPAREN
    case ')' => RPAREN
    case ',' => COMMA
    case ';' => SEMICOLON
    case '*' => STAR
    case '+' => PLUS
    case _ => EQ
  }

  /** NextToken: white space and unknown characters are skipped. */
  function Next(text: string): (r: Scan)
    ensures r.Read? ==> |r.rest| <= |text| && (r.token.tokenType != END ==> |r.rest| < |text|)
    decreases |text|
  {
    var s := text[SpaceLength(text)..];
    if s == [] then Read(END_TOKEN, [])
    else if IsWordStart(s[0]) then ReadWord(s)
    else if IsDigit(s[0]) then ReadNumber(s)
    else if s[0] == '\'' then ReadString(s)
    else if IsSymbol(s[0]) then Symbol(s)
    else Next(s[1..])
  }

  lemma {:induction false} SpaceEnds(s: string)
    ensures var t := s[SpaceLength(s)..]; SpaceLength(t) == 0 && (t == [] || !IsSpace(t[0])) && Next(t) == Next(s)
  {
    var t := s[SpaceLength(s)..];
    if s != [] && IsSpace(s[0]) {
      SpaceEnds(s[1..]);
      assert t == s[1..][SpaceLength(s[1..])..];
    }
    assert t[0..] == t;
  }

  /** Tokenize; None where it never returns. */
  function Lex(text: string): Option<seq<Token>>
    decreases |text|
  {
    match Next(text)
    case Stuck => None
    case Read(token, rest) =>
      if token.tokenType == END then Some([token])
      else match Lex(rest) case None => None case Some(ts) => Some([token] + ts)
  }

  // ---------- The lexer ----------

  class Lexer {
    var sql: string
    var curridx: nat

    constructor (sql: string)
      ensures this.sql == sql && curridx == 0
    {
      this.sql, curridx := sql, 0;
    }

    ghost predicate Valid()
      reads this
    {
      curridx <= |sql|
    }

    /** The text still to be read. */
    ghost function Rest(): string
      requires Valid()
      reads this
    {
      sql[curridx..]
    }

    method SkipWhitespace()
      requires Valid()
      modifies this`curridx
      ensures Valid() && Rest() == old(Rest())[SpaceLength(old(Rest()))..]
    {
      ghost var before := Rest();
      while curridx < |sql| && IsSpace(sql[curridx])
        invariant Valid() && old(curridx) <= curridx
        invariant Rest()[SpaceLength(Rest())..] == before[SpaceLength(before)..]
      {
        assert Rest()[1..] == sql[curridx + 1..];
        curridx := curridx + 1;
      }
    }

    /** Takes the next `n` characters. */
    method Take(n: nat) returns (text: string)
      requires Valid() && curridx + n <= |sql|
      modifies this`curridx
      ensures Valid() && text == old(Rest())[..n] && Rest() == old(Rest())[n..]
    {
      text := sql[curridx..curridx + n];
      curridx := curridx + n;
    }

    method ReadIdentifierOrKeyword() returns (token: Token)
      requires Valid()
      modifies this`curridx
      ensures Valid() && Read(token, Rest()) == ReadWord(old(Rest()))
    {
      var start := curridx;
      while curridx < |sql| && IsWord(sql[curridx])
        invariant Valid() && start <= curridx
        invariant curridx - start + WordLength(Rest()) == WordLength(sql[start..])
      {
        assert Rest()[1..] == sql[curridx + 1..];
        curridx := curridx + 1;
      }
      var text := sql[start..curridx];
      assert text == sql[start..][..WordLength(sql[start..])];
      token := Token(KeywordOr(text), text);
    }

    method ReadNumberToken() returns (token: Token)
      requires Valid()
      modifies this`curridx
      ensures Valid() && Read(token, Rest()) == ReadNumber(old(Rest()))
    {
      var start, isFloat := curridx, false;
      while curridx < |sql|
        invariant Valid() && start <= curridx
        invariant curridx - start + NumberLength(Rest(), isFloat) == NumberLength(sql[start..], false)
        invariant isFloat <==> '.' in sql[start..curridx]
      {
        var c := sql[curridx];
        assert Rest()[1..] == sql[curridx + 1..];
        assert sql[start..curridx + 1] == sql[start..curridx] + [c];
        if IsDigit(c) {
          curridx := curridx + 1;
        } else if c == '.' && !isFloat {
          isFloat := true;
          curridx := curridx + 1;
        } else {
          break;
        }
      }
      var text := sql[start..curridx];
      assert text == sql[start..][..NumberLength(sql[start..], false)];
      token := Token(if isFloat then FLOAT else INTEGER, text);
    }

    method SkipToQuote()
      requires Valid()
      modifies this`curridx
      ensures Valid() && curridx == old(curridx) + StringLength(old(Rest()))
    {
      ghost var start := curridx;
      while curridx < |sql| && sql[curridx] != '\''
        invariant Valid() && start <= curridx
        invariant curridx - start + StringLength(Rest()) == StringLength(sql[start..])
      {
        assert Rest()[1..] == sql[curridx + 1..];
        curridx := curridx + 1;
      }
    }

    method ReadStringToken() returns (token: Token)
      requires Valid() && curridx < |sql|
      modifies this`curridx
      ensures Valid() && Read(token, Rest()) == ReadString(old(Rest()))
    {
      ghost var s := Rest();
      curridx := curridx + 1;
      var start := curridx;
      assert s[1..] == Rest();
      SkipToQuote();
      ghost var n := StringLength(s[1..]);
      var text := sql[start..curridx];
      assert text == s[1..1 + n];
      if curridx < |sql| {
        curridx := curridx + 1;
        assert Rest() == s[n + 2..];
      } else {
        assert Rest() == s[n + 1..];
      }
      token := Token(STRING, text);
    }

    /** NextToken; `stuck` where the source would not return. */
    method NextToken() returns (stuck: bool, token: Token)
      requires Valid()
      modifies this`curridx
      ensures Valid()
      ensures stuck <==> Next(old(Rest())) == Stuck
      ensures !stuck ==> Read(token, Rest()) == Next(old(Rest()))
      decreases |sql| - curridx
    {
      SpaceEnds(Rest());
      SkipWhitespace();
      ghost var s := Rest();
      assert s[0..] == s;
      stuck, token := false, END_TOKEN;
      if curridx >= |sql| {
        return;
      }
      var c := sql[curridx];
      if IsWordStart(c) {
        token := ReadIdentifierOrKeyword();
      } else if IsDigit(c) {
        token := ReadNumberToken();
      } else if c == '\'' {
        token := ReadStringToken();
      } else if IsSymbol(c) {
        stuck, token := ReadSymbol();
      } else {
        curridx := curridx + 1;
        assert Rest() == s[1..];
        stuck, token := NextToken();
      }
    }

    method ReadSymbol() returns (stuck: bool, token: Token)
      requires Valid() && curridx < |sql| && IsSymbol(sql[curridx])
      modifies this`curridx
      ensures Valid()
      ensures stuck <==> Symbol(old(Rest())) == Stuck
      ensures !stuck ==> Read(token, Rest()) == Symbol(old(Rest()))
    {
      var c := sql[curridx];
      var doubled := curridx + 1 < |sql| && sql[curridx + 1] == '=';
      ghost var s := Rest();
      stuck, token := false, END_TOKEN;
      match c {
        case '-' =>
          if curridx + 1 < |sql| && sql[curridx + 1] == '-' {
            stuck := true;
            return;
          }
          token := Token(MINUS, "-");
        case '<' => token := if doubled then Token(LE, "<=") else Token(LT, "<");
        case '>' => token := if doubled then Token(GE, ">=") else Token(GT, ">");
        case '!' => token := if doubled then Token(NE, "!=") else END_TOKEN;
        case _ => token := Token(Punctuation(c), [c]);
      }
      if doubled && (c == '<' || c == '>' || c == '!') {
        assert s[..2] == [c, '='];
        curridx := curridx + 1;
      }
      curridx := curridx + 1;
    }

    /** Tokenize. */
    method Tokenize() returns (tokens: Option<seq<Token>>)
      requires Valid()
      modifies this`curridx
      ensures tokens == Lex(old(Rest()))
    {
      var out: seq<Token> := [];
      ghost var text := Rest();
      assert Lex(text).Some? ==> [] + Lex(text).value == Lex(text).value;
      while true
        invariant Valid()
        invariant Lex(text) == match Lex(Rest()) case None => None case Some(ts) => Some(out + ts)
        decreases |sql| - curridx
      {
        ghost var before := Rest();
        var stuck, token := NextToken();
        if stuck {
          return None;
        }
        out := out + [token];
        if token.tokenType == END {
          return Some(out);
        }
        if Lex(Rest()).Some? {
          AppendAssociates(out[..|out| - 1], [token], Lex(Rest()).value);
        }
      }
    }
  }
}
