/** When tokenizing returns: one pass over the text that knows quotes and nothing else of the tokens. */
module SqlTermination {
  import opened Wrappers
  import opened SqlLexer
  import SqlPrintable

  /** Two dashes outside a string come before any `!` that is not followed by `=`. */
  predicate DashesFirst(text: string, quoted: bool) {
    if text == [] then false
    else if quoted then DashesFirst(text[1..], text[0] != '\'')
    else if text[0] == '\'' then DashesFirst(text[1..], true)
    else if text[0] == '-' && |text| > 1 && text[1] == '-' then true
    else if text[0] == '!' && !(|text| > 1 && text[1] == '=') then false
    else DashesFirst(text[1..], false)
  }

  /** A character that neither opens a string, nor ends the text, nor can be half of two dashes. */
  predicate IsInert(c: char) {
    c != '\'' && c != '-' && c != '!'
  }

  lemma {:induction false} InertSkipped(text: string, n: nat)
    requires n <= |text| && forall i | 0 <= i < n :: IsInert(text[i])
    ensures DashesFirst(text[n..], false) == DashesFirst(text, false)
  {
    if n == 0 {
      assert text[0..] == text;
    } else {
      InertSkipped(text[1..], n - 1);
      assert text[1..][n - 1..] == text[n..];
    }
  }

  lemma {:induction false} SpaceInert(text: string)
    ensures forall i | 0 <= i < SpaceLength(text) :: IsInert(text[i])
  {
    if text != [] && IsSpace(text[0]) {
      SpaceInert(text[1..]);
      assert forall i | 0 < i < SpaceLength(text) :: text[i] == text[1..][i - 1];
    }
  }

  lemma {:induction false} NumberInert(text: string, dotted: bool)
    ensures forall i | 0 <= i < NumberLength(text, dotted) :: IsInert(text[i])
  {
    if text != [] && (IsDigit(text[0]) || (text[0] == '.' && !dotted)) {
      NumberInert(text[1..], dotted || text[0] == '.');
      assert forall i | 0 < i < NumberLength(text, dotted) :: text[i] == text[1..][i - 1];
    }
  }

  /** Inside a string the pass goes on to the closing quote, or to the end. */
  lemma {:induction false} StringSkipped(text: string)
    ensures var n := StringLength(text);
            DashesFirst(text, true) == (n < |text| && DashesFirst(text[n + 1..], false))
  {
    if text != [] && text[0] != '\'' {
      StringSkipped(text[1..]);
      var n := StringLength(text[1..]);
      assert n < |text[1..]| ==> text[1..][n + 1..] == text[n + 2..];
    }
  }

  lemma SymbolPassed(text: string)
    requires text != [] && IsSymbol(text[0])
    ensures Passed(text, Symbol(text))
  {
    if |text| > 1 && text[1] == '=' && (text[0] == '<' || text[0] == '>' || text[0] == '!') {
      assert text[1..][1..] == text[2..];
      assert DashesFirst(text[1..], false) == DashesFirst(text[2..], false);
    }
  }

  predicate Passed(text: string, r: Scan) {
    match r
    case Stuck => DashesFirst(text, false)
    case Read(token, rest) => DashesFirst(text, false) == (token.tokenType != END && DashesFirst(rest, false))
  }

  lemma WordPassed(s: string)
    ensures Passed(s, ReadWord(s))
  {
    SqlPrintable.WordCharacters(s);
    InertSkipped(s, WordLength(s));
  }

  lemma NumberPassed(s: string)
    ensures Passed(s, ReadNumber(s))
  {
    NumberInert(s, false);
    InertSkipped(s, NumberLength(s, false));
  }

  lemma StringPassed(s: string)
    requires s != [] && s[0] == '\''
    ensures Passed(s, ReadString(s))
  {
    StringSkipped(s[1..]);
    var n := StringLength(s[1..]);
    if n < |s[1..]| {
      assert s[1..][n + 1..] == s[n + 2..];
    }
  }

  /** One token: the pass says yes exactly when the lexer is stuck now or will be on what is left. */
  lemma {:induction false} TokenPassed(text: string)
    ensures Passed(text, Next(text))
    decreases |text|
  {
    SpaceInert(text);
    InertSkipped(text, SpaceLength(text));
    var s := text[SpaceLength(text)..];
    if s != [] {
      if IsWordStart(s[0]) {
        WordPassed(s);
      } else if IsDigit(s[0]) {
        NumberPassed(s);
      } else if s[0] == '\'' {
        StringPassed(s);
      } else if IsSymbol(s[0]) {
        SymbolPassed(s);
      } else {
        TokenPassed(s[1..]);
      }
    }
  }

  /**
   * Tokenizing a text never returns exactly when two dashes stand outside a string before the first lone `!`,
   * which reads as the end.
   */
  lemma {:induction false} NeverReturnsIff(text: string)
    ensures Lex(text) == None <==> DashesFirst(text, false)
    decreases |text|
  {
    TokenPassed(text);
    match Next(text)
    case Stuck =>
    case Read(token, rest) =>
      if token.tokenType != END {
        NeverReturnsIff(rest);
      }
  }
}
