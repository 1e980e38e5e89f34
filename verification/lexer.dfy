/** The older lexer: a state machine over the character cursor that builds
    one token at a time into its `token` field. Every step is proved to do
    what the matching function of `LexerSpec` describes. */
module NeoLexer {
  import opened Wrappers
  import opened Tokens
  import opened CharSource
  import opened LexerSpec

  class Lexer {
    const source: Source
    const config: Config
    var token: Token?

    constructor (text: string, config: Config)
      ensures fresh(source) && source.Valid() && source.text == text && source.index == 0
      ensures this.config == config && token == null
    {
      source := new Source(text);
      this.config := config;
      token := null;
    }

    predicate Valid()
      reads this, source
    {
      source.Valid()
    }

    /** The outcome `r` of a step, with the token and cursor it left, is the
        one the attempt `a` describes. */
    predicate Reflects(a: Attempt, r: Result<bool, ErrorCode>)
      reads this, source, token
    {
      match a
      case NoMatch(n) => r == Success(false) && source.index == n
      case Built(lx, n) =>
        r == Success(true) && token != null && token.kind == lx.kind && token.value == lx.value && source.index == n
      case Raise(c) => r == Failure(c)
    }

    /** `skip_comment`: from `#` up to the newline or the end of input, and
        one read further. */
    method SkipComment() returns (skipped: bool)
      requires Valid()
      modifies source
      ensures Valid()
      ensures skipped == (CharAt(source.text, old(source.index)) == "#")
      ensures source.index == if skipped then CommentEnd(source.text, old(source.index)) + 1 else old(source.index)
    {
      if source.currentChar == "#" {
        ghost var start := source.index;
        while source.currentChar != "\n" && source.currentChar != ""
          invariant source.Valid()
          invariant start <= source.index <= CommentEnd(source.text, start)
          invariant CommentEnd(source.text, source.index) == CommentEnd(source.text, start)
          decreases |source.text| + 1 - source.index
        {
          var _ := source.MoveToNextChar();
        }
        var _ := source.MoveToNextChar();
        return true;
      }
      return false;
    }

    /** `skip_whitespace`: a run of spaces and newlines. */
    method SkipWhitespace() returns (skipped: bool)
      requires Valid()
      modifies source
      ensures Valid()
      ensures skipped == BlankStr(CharAt(source.text, old(source.index)))
      ensures source.index == BlanksEnd(source.text, old(source.index))
    {
      if source.currentChar == " " || source.currentChar == "\n" {
        ghost var start := source.index;
        while source.currentChar == " " || source.currentChar == "\n"
          invariant source.Valid()
          invariant start <= source.index <= BlanksEnd(source.text, start)
          invariant BlanksEnd(source.text, source.index) == BlanksEnd(source.text, start)
          decreases |source.text| + 1 - source.index
        {
          var _ := source.MoveToNextChar();
        }
        return true;
      }
      return false;
    }

    /** `try_build_eof`: at the end of input, an EOF token with value "". */
    method TryBuildEof() returns (built: bool)
      requires Valid()
      modifies this
      ensures Valid() && built == (CharAt(source.text, source.index) == "")
      ensures built ==> token != null && fresh(token) && token.kind == Eof && token.value == Text("")
      ensures !built ==> token == old(token)
    {
      if source.currentChar == "" {
        token := new Token(Eof, Text(""));
        return true;
      }
      return false;
    }

    /** `try_build_identifier_or_reserved_word`. */
    method TryBuildIdentifierOrReservedWord() returns (r: Result<bool, ErrorCode>)
      requires Valid()
      modifies this, source
      ensures Valid()
      ensures Reflects(IdentifierAttempt(config, source.text, old(source.index)), r)
      ensures r == Success(true) ==> fresh(token)
    {
      if !AlphaStr(source.currentChar) {
        return Success(false);
      }
      var word := ReadWord();
      if word.None? {
        return Failure(ExceedMaxIdentifierLength);
      }
      var chars := word.value;
      if chars in config.tables.reserved {
        token := new Token(config.tables.reserved[chars], Text(chars));
      } else {
        token := new Token(Identifier, Text(chars));
      }
      return Success(true);
    }

    /** The loop of `try_build_ident_or_reserved_word`: letters, digits and
        `_` are gathered until the word would outgrow the limit, which gives
        `None`. */
    method ReadWord() returns (word: Option<string>)
      requires Valid() && AlphaStr(source.currentChar)
      modifies source
      ensures Valid()
      ensures word.None? <==> IdentEnd(source.text, old(source.index)) - old(source.index) > config.maxIdentifier
      ensures word.Some? ==> source.index == IdentEnd(source.text, old(source.index))
      ensures word.Some? ==> word.value == source.text[old(source.index)..source.index]
    {
      ghost var start := source.index;
      var chars := "";
      while IdentStr(source.currentChar)
        invariant source.Valid()
        invariant start <= source.index <= IdentEnd(source.text, start)
        invariant IdentEnd(source.text, source.index) == IdentEnd(source.text, start)
        invariant chars == source.text[start..source.index]
        invariant |chars| <= config.maxIdentifier
        decreases |source.text| + 1 - source.index
      {
        if |chars| >= config.maxIdentifier {
          return None;
        }
        chars := chars + source.currentChar;
        var _ := source.MoveToNextChar();
      }
      return Some(chars);
    }

    /** Consume a run of digits and return it. */
    method ReadDigits() returns (digits: string)
      requires Valid() && source.index <= |source.text|
      modifies source
      ensures Valid()
      ensures source.index == DigitsEnd(source.text, old(source.index))
      ensures digits == source.text[old(source.index)..source.index]
    {
      ghost var start := source.index;
      digits := "";
      while DigitStr(source.currentChar)
        invariant source.Valid()
        invariant start <= source.index <= DigitsEnd(source.text, start)
        invariant DigitsEnd(source.text, source.index) == DigitsEnd(source.text, start)
        invariant digits == source.text[start..source.index]
        decreases |source.text| + 1 - source.index
      {
        digits := digits + source.currentChar;
        var _ := source.MoveToNextChar();
      }
    }

    /** `try_build_scalar`: a leading `0` alone, or a run of digits; then
        `check_dot`. */
    method TryBuildScalar() returns (built: bool)
      requires Valid()
      modifies this, source
      ensures Valid()
      ensures Reflects(ScalarAttempt(source.text, old(source.index)), Success(built))
      ensures built ==> fresh(token)
    {
      if !DigitStr(source.currentChar) {
        return false;
      }
      ghost var start := source.index;
      var buffer := ReadLeading();
      ghost var j := source.index;
      CheckDot(buffer);
      ScalarPieces(source.text, start, j, source.index, buffer);
      ScalarAttemptAt(source.text, start, source.index);
      return true;
    }

    /** The leading part of a scalar: a `0` alone, or a run of digits. */
    method ReadLeading() returns (buffer: string)
      requires Valid() && DigitStr(source.currentChar)
      modifies source
      ensures Valid()
      ensures var i := old(source.index);
        && i < |source.text| && IsDigit(source.text[i])
        && source.index == (if source.text[i] == '0' then i + 1 else DigitsEnd(source.text, i))
      ensures source.index <= |source.text| && buffer == source.text[old(source.index)..source.index]
      ensures AllDigits(buffer)
    {
      ghost var start := source.index;
      if source.currentChar == "0" {
        buffer := source.currentChar;
        var _ := source.MoveToNextChar();
        assert source.text[start..start + 1] == [source.text[start]];
      } else {
        buffer := ReadDigits();
        DigitsRun(source.text, start);
      }
    }

    /** The optional point of `check_dot` and the digits after it. */
    method ReadFraction() returns (tail: string)
      requires Valid() && source.index <= |source.text|
      modifies source
      ensures Valid()
      ensures source.index == if CharAt(source.text, old(source.index)) == "."
        then DigitsEnd(source.text, old(source.index) + 1) else old(source.index)
      ensures old(source.index) <= source.index <= |source.text|
      ensures tail == source.text[old(source.index)..source.index]
      ensures tail == "" || (tail[0] == '.' && AllDigits(tail[1..]))
    {
      ghost var j := source.index;
      tail := "";
      if source.currentChar == "." {
        tail := source.currentChar;
        var _ := source.MoveToNextChar();
        var digits := ReadDigits();
        DigitsRun(source.text, j + 1);
        PointThenDigits(source.text, j, source.index, tail, digits);
        tail := tail + digits;
      }
    }

    /** `check_dot`: an optional point and the digits after it, then the
        scalar token holding the number the whole buffer denotes. */
    method CheckDot(buffer: string)
      requires Valid() && source.index <= |source.text|
      requires AllDigits(buffer)
      modifies this, source
      ensures Valid()
      ensures source.index == if CharAt(source.text, old(source.index)) == "."
        then DigitsEnd(source.text, old(source.index) + 1) else old(source.index)
      ensures old(source.index) <= source.index <= |source.text|
      ensures var s := buffer + source.text[old(source.index)..source.index];
        ScalarText(s) && token != null && fresh(token) && token.kind == Scalar && token.value == Number(ParseNumber(s))
    {
      var tail := ReadFraction();
      ScalarWithTail(buffer, tail);
      token := new Token(Scalar, Number(ParseNumber(buffer + tail)));
    }

    /** `try_build_special_character`: one character from the table. */
    method TryBuildSpecialCharacter() returns (built: bool)
      requires Valid()
      modifies this, source
      ensures Valid()
      ensures Reflects(SpecialAttempt(config.tables, source.text, old(source.index)), Success(built))
      ensures built ==> fresh(token)
    {
      if |source.currentChar| == 1 && source.currentChar[0] in config.tables.special {
        var kind := config.tables.special[source.currentChar[0]];
        token := new Token.At(kind, Text(source.currentChar), source.currentLine, source.currentColumn);
        var _ := source.MoveToNextChar();
        return true;
      }
      return false;
    }

    /** `try_build_double_operator`: a lone opening character is left
        consumed with no match as written, and reported when repaired (see
        `DoubleOperatorAttempt`). */
    method TryBuildDoubleOperator() returns (r: Result<bool, ErrorCode>)
      requires Valid()
      modifies this, source
      ensures Valid()
      ensures Reflects(DoubleOperatorAttempt(config, source.text, old(source.index)), r)
      ensures r == Success(true) ==> fresh(token)
    {
      var first := source.currentChar;
      if !StartsDouble(first) {
        return Success(false);
      }
      ghost var start := source.index;
      var second := source.MoveToNextChar();
      DoubleAttemptAt(config, source.text, start, first, second);
      if first + second in DoubleOperators {
        token := new Token(DoubleOperators[first + second], Text(first + second));
        var _ := source.MoveToNextChar();
        return Success(true);
      } else if first[0] in config.tables.special {
        token := new Token(config.tables.special[first[0]], Text(first));
        return Success(true);
      }
      if config.mode == AsWritten {
        return Success(false);
      }
      return Failure(CantIdentifyToken);
    }

    /** One character of a string body: an escape pair, or a plain
        character. */
    method ReadStringChar(chars: string, ghost cap: int) returns (next: string)
      requires Valid() && source.index < |source.text| && source.text[source.index] != '"'
      requires |chars| <= cap
      modifies source
      ensures Valid() && source.index > old(source.index)
      ensures StringBody(source.text, source.index, next, cap) == StringBody(source.text, old(source.index), chars, cap)
    {
      ghost var k := source.index;
      assert source.currentChar == [source.text[k]];
      if source.currentChar == "\\" {
        assert source.text[k] == '\\';
        var e := source.MoveToNextChar();
        if e == "\\" {
          next := chars + "\\";
        } else if e == "\"" {
          next := chars + "\"";
        } else {
          next := chars;
        }
        assert next == chars + Unescape(CharAt(source.text, k + 1));
        var _ := source.MoveToNextChar();
        assert StringBody(source.text, k, chars, cap) == StringBody(source.text, k + 2, next, cap);
      } else {
        next := chars + source.currentChar;
        var _ := source.MoveToNextChar();
        assert StringBody(source.text, k, chars, cap) == StringBody(source.text, k + 1, next, cap);
      }
    }

    /** `try_build_string`, with the length limit of `StringCap`. */
    method TryBuildString() returns (r: Result<bool, ErrorCode>)
      requires Valid()
      modifies this, source
      ensures Valid()
      ensures Reflects(StringAttempt(config, source.text, old(source.index)), r)
      ensures r == Success(true) ==> fresh(token)
    {
      if source.currentChar != "\"" {
        return Success(false);
      }
      ghost var start := source.index;
      var cap := StringCap(config);
      var _ := source.MoveToNextChar();
      var chars := "";
      while source.currentChar != "\""
        invariant source.Valid()
        invariant source.index > start
        invariant StringBody(source.text, source.index, chars, cap) == StringBody(source.text, start + 1, "", cap)
        decreases |source.text| + 1 - source.index
      {
        if source.currentChar == "" {
          return Failure(StringBuildFail);
        }
        if |chars| > cap {
          return Failure(ExceedMaxStringLength);
        }
        chars := ReadStringChar(chars, cap);
      }
      var _ := source.MoveToNextChar();
      token := new Token(String, Text(chars));
      return Success(true);
    }

    /** `while skip_comment() or skip_whitespace(): pass`. */
    method SkipCommentsAndBlanks()
      requires Valid()
      modifies source
      ensures Valid()
      ensures source.index == SkipTrivia(source.text, old(source.index))
    {
      ghost var i := source.index;
      while true
        invariant source.Valid()
        invariant i <= source.index <= SkipTrivia(source.text, i)
        invariant SkipTrivia(source.text, source.index) == SkipTrivia(source.text, i)
        decreases SkipTrivia(source.text, i) - source.index
      {
        var comment := SkipComment();
        if !comment {
          var blank := SkipWhitespace();
          if !blank {
            break;
          }
        }
      }
    }

    /** The identifier, string and scalar steps, in that order. */
    method BuildLiteral() returns (r: Result<bool, ErrorCode>)
      requires Valid()
      modifies this, source
      ensures Valid()
      ensures Reflects(ClassifyLiteral(config, source.text, old(source.index)), r)
      ensures r == Success(true) ==> fresh(token)
    {
      r := TryBuildIdentifierOrReservedWord();
      if r != Success(false) {
        return;
      }
      r := TryBuildString();
      if r != Success(false) {
        return;
      }
      var built := TryBuildScalar();
      return Success(built);
    }

    /** The two-character operator and single-character steps. */
    method BuildSymbol() returns (r: Result<bool, ErrorCode>)
      requires Valid()
      modifies this, source
      ensures Valid()
      ensures Reflects(ClassifySymbol(config, source.text, old(source.index)), r)
      ensures r == Success(true) ==> fresh(token)
    {
      r := TryBuildDoubleOperator();
      if r != Success(false) {
        return;
      }
      var built := TryBuildSpecialCharacter();
      return Success(built);
    }

    /** `build_next_token`: skip comments and blanks, note the position, try
        each step in order and stamp the token with the noted position; a
        step that raises, or no step matching, is an error at that
        position. */
    method BuildNextToken() returns (r: Outcome<LexError>)
      requires Valid()
      modifies this, source
      ensures Valid()
      ensures r.Pass? ==>
        && token != null && fresh(token) && token.Positioned()
        && NextToken(config, source.text, old(source.index)) == Success((token.Snapshot(), source.index))
      ensures r.Fail? ==> NextToken(config, source.text, old(source.index)) == Failure(r.error)
    {
      SkipCommentsAndBlanks();
      var line, column := source.currentLine, source.currentColumn;
      var done := TryBuildEof();
      if !done {
        var a := BuildClassified();
        if a.Failure? {
          return Fail(LexError(a.error, line, column));
        } else if !a.value {
          return Fail(LexError(CantIdentifyToken, line, column));
        }
      }
      token.SetPosition(line, column);
      return Pass;
    }

    /** The steps of `build_next_token` after end of input has been ruled
        out: the literals, then the symbols. */
    method BuildClassified() returns (r: Result<bool, ErrorCode>)
      requires Valid()
      modifies this, source
      ensures Valid()
      ensures Reflects(Classify(config, source.text, old(source.index)), r)
      ensures r == Success(true) ==> fresh(token)
    {
      r := BuildLiteral();
      if r == Success(false) {
        r := BuildSymbol();
      }
    }

    /** `yield_tokens`: build tokens until an EOF token has been built; a
        lexer error ends the sequence. */
    method YieldTokens() returns (toks: seq<Tok>, err: Option<LexError>)
      requires Valid()
      modifies this, source
      ensures old(token) != null && old(token.kind) == Eof ==> toks == [] && err == None
      ensures old(token) == null || old(token.kind) != Eof ==> (toks, err) == Tokenize(config, source.text, old(source.index))
    {
      toks := [];
      err := None;
      if token != null && token.kind == Eof {
        return;
      }
      ghost var i := source.index;
      RemainsAtStart(config, source.text, i);
      // The loop test of the source, `token.kind != EOF`, is the `return`
      // right after the end-of-input token is appended.
      while true
        invariant Valid()
        invariant Remains(config, source.text, i, toks, source.index)
        decreases |source.text| + 1 - source.index
      {
        ghost var before := source.index;
        var outcome := BuildNextToken();
        if outcome.Fail? {
          err := Some(outcome.error);
          RemainsFailed(config, source.text, i, toks, before, outcome.error);
          return;
        }
        var t := token.Snapshot();
        if t.kind == Eof {
          RemainsEof(config, source.text, i, toks, before, t, source.index);
          toks := toks + [t];
          return;
        }
        RemainsStep(config, source.text, i, toks, before, t, source.index);
        toks := toks + [t];
      }
    }
  }

  /** The tokens from `i` are `toks` followed by the tokens from `k`. */
  ghost predicate Remains(cfg: Config, text: string, i: nat, toks: seq<Tok>, k: nat) {
    Tokenize(cfg, text, i) == (toks + Tokenize(cfg, text, k).0, Tokenize(cfg, text, k).1)
  }

  lemma RemainsAtStart(cfg: Config, text: string, i: nat)
    ensures Remains(cfg, text, i, [], i)
  {
    assert [] + Tokenize(cfg, text, i).0 == Tokenize(cfg, text, i).0;
  }

  /** An error at `k` ends the stream with the tokens before it. */
  lemma RemainsFailed(cfg: Config, text: string, i: nat, toks: seq<Tok>, k: nat, e: LexError)
    requires Remains(cfg, text, i, toks, k) && NextToken(cfg, text, k) == Failure(e)
    ensures Tokenize(cfg, text, i) == (toks, Some(e))
  {
    assert toks + [] == toks;
  }

  /** The end-of-input token at `k` is the last one. */
  lemma RemainsEof(cfg: Config, text: string, i: nat, toks: seq<Tok>, k: nat, t: Tok, j: nat)
    requires Remains(cfg, text, i, toks, k) && NextToken(cfg, text, k) == Success((t, j)) && t.kind == Eof
    ensures Tokenize(cfg, text, i) == (toks + [t], None)
  {
  }

  /** Any other token at `k` moves the rest of the stream to where it ends. */
  lemma RemainsStep(cfg: Config, text: string, i: nat, toks: seq<Tok>, k: nat, t: Tok, j: nat)
    requires Remains(cfg, text, i, toks, k) && NextToken(cfg, text, k) == Success((t, j)) && t.kind != Eof
    ensures k < j <= |text| && Remains(cfg, text, i, toks + [t], j)
  {
    ClassifyAdvances(cfg, text, SkipTrivia(text, k));
    var later := Tokenize(cfg, text, j);
    assert Tokenize(cfg, text, k) == ([t] + later.0, later.1);
    assert toks + ([t] + later.0) == (toks + [t]) + later.0;
  }

  /** A point followed by its digits spells the slice they were read from. */
  lemma PointThenDigits(text: string, j: nat, k: nat, point: string, digits: string)
    requires j < k <= |text| && point == [text[j]] && digits == text[j + 1..k]
    ensures point + digits == text[j..k] && (point + digits)[1..] == digits
  {
    SliceJoin(text, j, j + 1, k);
    assert text[j..j + 1] == [text[j]];
  }

  /** The attempt at a character that may open a two-character operator,
      once that character and the next have been read. */
  lemma DoubleAttemptAt(cfg: Config, text: string, i: nat, first: string, second: string)
    requires first == CharAt(text, i) && second == CharAt(text, i + 1) && StartsDouble(first)
    ensures DoubleOperatorAttempt(cfg, text, i) ==
      if first + second in DoubleOperators then Built(Lexeme(DoubleOperators[first + second], Text(first + second)), i + 2)
      else if first[0] in cfg.tables.special then Built(Lexeme(cfg.tables.special[first[0]], Text(first)), i + 1)
      else if cfg.mode == AsWritten then NoMatch(i + 1)
      else Raise(CantIdentifyToken)
  {
  }

  /** The attempt at a digit, once the end of its scalar is known. */
  lemma ScalarAttemptAt(text: string, i: nat, k: nat)
    requires i < |text| && IsDigit(text[i]) && ScalarEnd(text, i) == k
    ensures ScalarAttempt(text, i) == Built(Lexeme(Scalar, Number(ParseNumber(text[i..k]))), k)
  {
  }

  /** A scalar read as its leading part `text[i..j]` and then its optional
      fraction `text[j..k]` spans exactly `ScalarEnd`. */
  lemma ScalarPieces(text: string, i: nat, j: nat, k: nat, buffer: string)
    requires i < |text| && IsDigit(text[i])
    requires j == if text[i] == '0' then i + 1 else DigitsEnd(text, i)
    requires j <= |text| && buffer == text[i..j]
    requires k == if CharAt(text, j) == "." then DigitsEnd(text, j + 1) else j
    requires j <= k <= |text|
    ensures ScalarEnd(text, i) == k
    ensures buffer + text[j..k] == text[i..k]
  {
    SliceJoin(text, i, j, k);
  }

  /** Digits followed by nothing, or by a point and digits, form a scalar. */
  lemma ScalarWithTail(buffer: string, tail: string)
    requires AllDigits(buffer)
    requires tail == "" || (tail[0] == '.' && AllDigits(tail[1..]))
    ensures ScalarText(buffer + tail)
  {
    var s := buffer + tail;
    assert s[..|buffer|] == buffer;
    if tail != "" {
      assert s[|buffer| + 1..] == tail[1..];
    }
  }
}
