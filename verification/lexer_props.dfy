/** Properties of the older lexer's steps: the string limit and escapes,
    the identifier limit and reserved words, scalar values, the two
    two-character-operator variants, and whole-token examples. */
module LexerProperties {
  import opened Wrappers
  import opened Tokens
  import opened CharSource
  import opened LexerSpec

  // ---------------------------------------------------------------------
  // Strings

  /** How a value is written between quotes so that the lexer reads it back:
      a backslash or a quote is preceded by a backslash. */
  function Escape(s: string): (e: string)
    ensures |e| >= |s|
  {
    if |s| == 0 then "" else EscapeChar(s[0]) + Escape(s[1..])
  }

  /** One character as written inside quotes. */
  function EscapeChar(c: char): (e: string)
    ensures 1 <= |e| <= 2 && e[0] != '"'
  {
    if c == '\\' then "\\\\" else if c == '"' then "\\\"" else [c]
  }

  /** A string literal holding `s`. */
  function Quoted(s: string): string {
    "\"" + Escape(s) + "\""
  }

  /** Reading an escaped body up to its closing quote gives back the value,
      unless the gathered characters pass the limit `cap` first. */
  lemma {:induction false} EscapedBody(text: string, k: nat, chars: string, s: string, cap: int)
    requires k + |Escape(s)| < |text|
    requires text[k..k + |Escape(s)|] == Escape(s) && text[k + |Escape(s)|] == '"'
    ensures |chars| + |s| <= cap + 1 ==> StringBody(text, k, chars, cap) == Success((chars + s, k + |Escape(s)|))
    ensures |s| > 0 && |chars| + |s| > cap + 1 ==> StringBody(text, k, chars, cap) == Failure(ExceedMaxStringLength)
    decreases |s|
  {
    if |s| > 0 {
      EscapedStep(text, k, chars, s, cap);
      if |chars| <= cap {
        var k', more, rest := k + |EscapeChar(s[0])|, chars + [s[0]], s[1..];
        assert k' + |Escape(rest)| == k + |Escape(s)|;
        EscapedBody(text, k', more, rest, cap);
        assert more + rest == chars + s;
      }
    } else {
      assert chars + s == chars;
    }
  }

  /** Reading the first escaped character of `s` gathers `s[0]` and leaves
      the escaped rest of `s` before the closing quote. */
  lemma EscapedStep(text: string, k: nat, chars: string, s: string, cap: int)
    requires |s| > 0 && k + |Escape(s)| < |text|
    requires text[k..k + |Escape(s)|] == Escape(s) && text[k + |Escape(s)|] == '"'
    ensures var k', tail := k + |EscapeChar(s[0])|, Escape(s[1..]);
      k' + |tail| == k + |Escape(s)| && text[k'..k' + |tail|] == tail && text[k] != '"' &&
      (|chars| <= cap ==> StringBody(text, k, chars, cap) == StringBody(text, k', chars + [s[0]], cap)) &&
      (|chars| > cap ==> StringBody(text, k, chars, cap) == Failure(ExceedMaxStringLength))
  {
    var e, head, tail := Escape(s), EscapeChar(s[0]), Escape(s[1..]);
    assert e == head + tail;
    assert text[k] == e[0] == head[0];
    var k' := k + |head|;
    assert text[k'..k' + |tail|] == text[k..k + |e|][|head|..];
    if |head| == 2 {
      assert text[k + 1] == e[1];
      assert CharAt(text, k + 1) == [head[1]];
      assert Unescape(CharAt(text, k + 1)) == [s[0]];
    }
  }

  /** With the limit repaired to `>=`, a literal is read back exactly when
      its value has at most `maxString` characters; a longer one raises
      EXCEED_MAX_STRING_LENGHT. */
  lemma StringLimit(cfg: Config, s: string)
    requires cfg.mode == Repaired
    ensures |s| <= cfg.maxString ==> StringAttempt(cfg, Quoted(s), 0) == Built(Lexeme(String, Text(s)), |Quoted(s)|)
    ensures |s| > cfg.maxString ==> StringAttempt(cfg, Quoted(s), 0) == Raise(ExceedMaxStringLength)
  {
    QuotedBody(s, StringCap(cfg));
  }

  /** As written (`len(chars) > MAX`), a literal of `maxString + 1`
      characters is still accepted. */
  lemma StringLimitAsWritten(cfg: Config, s: string)
    requires cfg.mode == AsWritten
    ensures |s| <= cfg.maxString + 1 ==> StringAttempt(cfg, Quoted(s), 0) == Built(Lexeme(String, Text(s)), |Quoted(s)|)
    ensures |s| > cfg.maxString + 1 ==> StringAttempt(cfg, Quoted(s), 0) == Raise(ExceedMaxStringLength)
  {
    QuotedBody(s, StringCap(cfg));
  }

  lemma QuotedBody(s: string, cap: int)
    requires cap >= -1
    ensures |s| <= cap + 1 ==> StringAttemptWith(Quoted(s), 0, cap) == Built(Lexeme(String, Text(s)), |Quoted(s)|)
    ensures |s| > cap + 1 ==> StringAttemptWith(Quoted(s), 0, cap) == Raise(ExceedMaxStringLength)
  {
    var q := Quoted(s);
    var e := Escape(s);
    assert q[1..1 + |e|] == e;
    assert q[1 + |e|] == '"';
    assert CharAt(q, 0) == "\"";
    EscapedBody(q, 1, "", s, cap);
    assert "" + s == s;
  }

  /** The default limit lets a 501-character string through; repaired, it
      is refused. */
  lemma DefaultStringLimitAsWritten()
    ensures var s := seq(501, _ => 'a');
      StringAttempt(DefaultConfig, Quoted(s), 0).Built?
      && StringAttempt(DefaultConfig.(mode := Repaired), Quoted(s), 0) == Raise(ExceedMaxStringLength)
  {
    var s := seq(501, _ => 'a');
    StringLimitAsWritten(DefaultConfig, s);
    StringLimit(DefaultConfig.(mode := Repaired), s);
  }

  /** A backslash followed by any other character contributes nothing. */
  lemma UnknownEscapeDropped()
    ensures StringAttempt(DefaultConfig, "\"a\\nb\"", 0) == Built(Lexeme(String, Text("ab")), 6)
  {
    var t := "\"a\\nb\"";
    assert StringBody(t, 5, "ab", 500) == Success(("ab", 5));
    assert "a" + [t[4]] == "ab";
    assert StringBody(t, 4, "a", 500) == StringBody(t, 5, "ab", 500);
    assert CharAt(t, 3) == "n" && "a" + Unescape("n") == "a";
    assert StringBody(t, 2, "a", 500) == StringBody(t, 4, "a", 500);
    assert "" + [t[1]] == "a";
  }

  /** A string that reaches the end of input raises STRING_BUILD_FAIL. */
  lemma UnterminatedString(cfg: Config, s: string)
    requires forall k | 0 <= k < |s| :: s[k] != '"' && s[k] != '\\'
    requires |s| <= cfg.maxString
    ensures StringAttempt(cfg, "\"" + s, 0) == Raise(StringBuildFail)
  {
    var t := "\"" + s;
    forall j | 1 <= j <= |t|
      ensures StringBody(t, j, t[1..j], StringCap(cfg)) == Failure(StringBuildFail)
    {
      UnterminatedFrom(t, j, StringCap(cfg));
    }
    assert t[1..1] == "";
  }

  lemma {:induction false} UnterminatedFrom(t: string, j: nat, cap: int)
    requires 1 <= j <= |t|
    requires forall k | 1 <= k < |t| :: t[k] != '"' && t[k] != '\\'
    requires |t| - 1 <= cap + 1
    ensures StringBody(t, j, t[1..j], cap) == Failure(StringBuildFail)
    decreases |t| - j
  {
    if j < |t| {
      UnterminatedFrom(t, j + 1, cap);
      assert t[1..j] + [t[j]] == t[1..j + 1];
    }
  }

  // ---------------------------------------------------------------------
  // Identifiers

  /** A word of `n` identifier characters after a letter is read whole when
      it fits the limit and raises otherwise; reserved words take their
      kind from the table. */
  lemma IdentifierLimit(cfg: Config, w: string)
    requires |w| > 0 && IsAlpha(w[0])
    requires forall k | 0 <= k < |w| :: IsIdentChar(w[k])
    ensures |w| > cfg.maxIdentifier ==> IdentifierAttempt(cfg, w, 0) == Raise(ExceedMaxIdentifierLength)
    ensures |w| <= cfg.maxIdentifier ==>
      IdentifierAttempt(cfg, w, 0) == Built(Lexeme(if w in cfg.tables.reserved then cfg.tables.reserved[w] else Identifier, Text(w)), |w|)
  {
    WordEnd(w, 0);
    assert w[0..|w|] == w;
  }

  lemma {:induction false} WordEnd(w: string, i: nat)
    requires i <= |w|
    requires forall k | 0 <= k < |w| :: IsIdentChar(w[k])
    ensures IdentEnd(w, i) == |w|
    decreases |w| - i
  {
    if i < |w| {
      WordEnd(w, i + 1);
    }
  }

  /** Reserved words in the newer tables, and a word that only starts like
      one. */
  lemma ReservedWords()
    ensures IdentifierAttempt(DefaultConfig, "while", 0) == Built(Lexeme(While, Text("while")), 5)
    ensures IdentifierAttempt(DefaultConfig, "True", 0) == Built(Lexeme(Bool, Text("True")), 4)
    ensures IdentifierAttempt(DefaultConfig, "whilex", 0) == Built(Lexeme(Identifier, Text("whilex")), 6)
  {
    IdentifierLimit(DefaultConfig, "while");
    IdentifierLimit(DefaultConfig, "True");
    IdentifierLimit(DefaultConfig, "whilex");
  }

  // ---------------------------------------------------------------------
  // Scalars

  /** A leading `0` is a scalar of its own: `012` starts with the scalar 0. */
  lemma LeadingZero()
    ensures ScalarAttempt("012", 0) == Built(Lexeme(Scalar, Number(0.0)), 1)
  {
    assert "012"[0..1] == "0";
    assert PointIndex("0") == 1;
  }

  /** A scalar that fills the whole text is read as `float` of the text. */
  lemma WholeScalar(text: string)
    requires |text| > 0 && IsDigit(text[0]) && ScalarEnd(text, 0) == |text|
    ensures ScalarText(text)
    ensures ScalarAttempt(text, 0) == Built(Lexeme(Scalar, Number(ParseNumber(text))), |text|)
  {
    assert text[0..|text|] == text;
  }

  /** `4.5` is read with its fraction. */
  lemma FourPointFive()
    ensures ScalarAttempt("4.5", 0) == Built(Lexeme(Scalar, Number(4.5)), 3)
  {
    var t := "4.5";
    assert DigitsEnd(t, 1) == 1;
    assert DigitsEnd(t, 2) == 3 by { assert DigitsEnd(t, 3) == 3; }
    assert ScalarEnd(t, 0) == 3;
    WholeScalar(t);
    assert ParseNumber(t) == 4.5 by {
      assert PointIndex(t) == 1 by { assert t[1..] == ".5"; }
      assert t[..1] == "4" && t[2..] == "5";
      assert FractionValue("5") == 0.5 by { assert "5"[1..] == ""; }
    }
  }

  /** `0.25`: a leading 0 followed by a point keeps its fraction. */
  lemma ZeroPointTwoFive()
    ensures ScalarAttempt("0.25", 0) == Built(Lexeme(Scalar, Number(0.25)), 4)
  {
    var t := "0.25";
    assert DigitsEnd(t, 2) == 4 by { assert DigitsEnd(t, 4) == 4; assert DigitsEnd(t, 3) == 4; }
    assert ScalarEnd(t, 0) == 4;
    WholeScalar(t);
    assert ParseNumber(t) == 0.25 by {
      assert PointIndex(t) == 1 by { assert t[1..] == ".25"; }
      assert t[..1] == "0" && t[2..] == "25";
      assert FractionValue("5") == 0.5 by { assert "5"[1..] == ""; }
      assert FractionValue("25") == 0.25 by { assert "25"[1..] == "5"; }
    }
  }

  /** A point with no digits after it still ends a scalar: `7.` is 7. */
  lemma TrailingPoint()
    ensures ScalarAttempt("7.", 0) == Built(Lexeme(Scalar, Number(7.0)), 2)
  {
    var t := "7.";
    assert DigitsEnd(t, 1) == 1;
    assert DigitsEnd(t, 2) == 2;
    assert ScalarEnd(t, 0) == 2;
    WholeScalar(t);
    assert ParseNumber(t) == 7.0 by {
      assert PointIndex(t) == 1 by { assert t[1..] == "."; }
      assert t[..1] == "7" && t[2..] == "";
    }
  }

  // ---------------------------------------------------------------------
  // Two-character operators

  /** As written, `!(` reads the `!`, finds no operator `!(` and no single
      character `!`, reports no match with the cursor already on `(`, and
      the next step then builds `(`: the `!` vanishes, and the token `(`
      carries the position of the `!`. */
  lemma BangSwallowedAsWritten(cfg: Config)
    requires cfg.mode == AsWritten
    requires '!' !in cfg.tables.special && '(' in cfg.tables.special && cfg.tables.special['('] == OpRoundBracket
    ensures DoubleOperatorAttempt(cfg, "!(", 0) == NoMatch(1)
    ensures NextToken(cfg, "!(", 0) == Success((Tok(OpRoundBracket, Text("("), 1, 1), 2))
  {
    BangOpens();
    assert SkipTrivia("!(", 0) == 0;
    assert ClassifyLiteral(cfg, "!(", 0) == NoMatch(0);
    assert SpecialAttempt(cfg.tables, "!(", 1) == Built(Lexeme(OpRoundBracket, Text("(")), 2);
  }

  /** Repaired, `!(` is an error at the `!`. */
  lemma BangRejected(cfg: Config)
    requires cfg.mode == Repaired && '!' !in cfg.tables.special
    ensures NextToken(cfg, "!(", 0) == Failure(LexError(CantIdentifyToken, 1, 1))
  {
    BangOpens();
    assert SkipTrivia("!(", 0) == 0;
    assert ClassifyLiteral(cfg, "!(", 0) == NoMatch(0);
    assert DoubleOperatorAttempt(cfg, "!(", 0) == Raise(CantIdentifyToken);
  }

  /** Both generations' tables leave `!` out and map `(`. */
  lemma BangTables()
    ensures '!' !in CurrentSpecial && CurrentSpecial['('] == OpRoundBracket
    ensures '!' !in LegacySpecial && LegacySpecial['('] == OpRoundBracket
  {
  }

  /** `!` opens an operator, and `!(` is not one. */
  lemma BangOpens()
    ensures StartsDouble("!") && "!" + CharAt("!(", 1) == "!(" && "!(" !in DoubleOperators
  {
    DoubleOperatorTable();
  }

  /** The step as written and repaired agree except on a character that
      opens an operator but forms no token, which the repair reports. */
  lemma DoubleOperatorVariantsAgree(cfg: Config, text: string, i: nat)
    ensures var written := DoubleOperatorAttempt(cfg.(mode := AsWritten), text, i);
      var repaired := DoubleOperatorAttempt(cfg.(mode := Repaired), text, i);
      && (written != NoMatch(i + 1) ==> repaired == written)
      && (written == NoMatch(i + 1) ==> repaired == Raise(CantIdentifyToken))
  {
  }

  /** `<` opens a two-character operator. */
  lemma LessOpens()
    ensures StartsDouble("<")
  {
    assert "<=" in DoubleOperators && "<="[0] == '<';
  }

  /** `<=` is one token, whatever the single-character table. */
  lemma LessOrEqualIsOneToken(cfg: Config)
    ensures DoubleOperatorAttempt(cfg, "<=", 0) == Built(Lexeme(LessOrEqualTo, Text("<=")), 2)
  {
    LessOpens();
    assert CharAt("<=", 0) == "<" && CharAt("<=", 1) == "=";
    assert "<" + "=" == "<=";
    assert DoubleOperators["<="] == LessOrEqualTo;
  }

  /** `<` followed by anything but `=` is the single-character token `<`. */
  lemma LessThenOtherIsBracket(cfg: Config, c: char)
    requires c != '=' && '<' in cfg.tables.special
    ensures DoubleOperatorAttempt(cfg, ['<', c], 0) == Built(Lexeme(cfg.tables.special['<'], Text("<")), 1)
  {
    LessOpens();
    assert "<" + CharAt(['<', c], 1) == ['<', c];
    assert ['<', c] !in DoubleOperators;
  }

  // ---------------------------------------------------------------------
  // Whole tokens

  /** Blank input yields the end-of-input token, whose value is empty. */
  lemma BlankInputIsEof(text: string)
    requires forall k | 0 <= k < |text| :: text[k] == ' '
    ensures NextToken(DefaultConfig, text, 0).Success?
    ensures NextToken(DefaultConfig, text, 0).value.0.kind == Eof
    ensures NextToken(DefaultConfig, text, 0).value.0.value == Text("")
    ensures Tokenize(DefaultConfig, text, 0).0 == [NextToken(DefaultConfig, text, 0).value.0]
  {
    BlanksToEnd(text, 0);
  }

  lemma {:induction false} BlanksToEnd(text: string, i: nat)
    requires i <= |text|
    requires forall k | 0 <= k < |text| :: text[k] == ' '
    ensures SkipTrivia(text, i) == |text|
    decreases |text| - i
  {
    if i < |text| {
      BlanksToEnd(text, i + 1);
      BlanksEndAt(text, i);
    }
  }

  lemma {:induction false} BlanksEndAt(text: string, i: nat)
    requires i <= |text|
    requires forall k | 0 <= k < |text| :: text[k] == ' '
    ensures BlanksEnd(text, i) == |text|
    decreases |text| - i
  {
    if i < |text| {
      BlanksEndAt(text, i + 1);
    }
  }

  /** A comment runs to the end of its line: the token after it is on the
      next line, at column 1. */
  lemma CommentSkipped()
    ensures NextToken(DefaultConfig, "#c\nx", 0) == Success((Tok(Identifier, Text("x"), 2, 1), 4))
  {
    var t := "#c\nx";
    assert CommentEnd(t, 0) == 2;
    assert SkipTrivia(t, 3) == 3;
    assert LineAt(t, 0) == 1 && LineAt(t, 1) == 1 && LineAt(t, 2) == 2 && LineAt(t, 3) == 2;
    assert ColumnAt(t, 2) == 0 && ColumnAt(t, 3) == 1;
    assert IdentEnd(t, 3) == 4;
    assert t[3..4] == "x";
  }
}
