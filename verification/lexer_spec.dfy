/** What the older lexer computes, as functions of the input text and the
    index of the current character. Each `...Attempt` function describes one
    `try_build_*` step: it either does not match (leaving the cursor at
    `next`), builds a lexeme and leaves the cursor at `next`, or raises. */
module LexerSpec {
  import opened Wrappers
  import opened Tokens
  import opened CharSource

  datatype ErrorCode =
    | ExceedMaxIdentifierLength
    | ExceedMaxStringLength
    | StringBuildFail
    | CantIdentifyToken

  /** A lexer error carries its code and the position of the token start. */
  datatype LexError = LexError(code: ErrorCode, line: int, column: int)

  /** A token without its position. */
  datatype Lexeme = Lexeme(kind: TokenType, value: TokenValue)

  datatype Attempt = NoMatch(next: nat) | Built(lexeme: Lexeme, next: nat) | Raise(code: ErrorCode)

  /** The tables and the two length limits a lexer is built with, and
      whether its two defective steps (`try_build_double_operator` and the
      string limit) run as written or repaired. */
  datatype Config = Config(tables: Tables, maxIdentifier: nat, maxString: nat, mode: Mode)

  /** The default limits: 100 characters per identifier, 500 per string;
      the steps as written. */
  const DefaultConfig: Config := Config(CurrentTables, 100, 500, AsWritten)

  // ---------------------------------------------------------------------
  // Character classes (ASCII letters and digits)

  predicate IsAlpha(c: char) {
    'a' <= c <= 'z' || 'A' <= c <= 'Z'
  }

  predicate IsDigit(c: char) {
    '0' <= c <= '9'
  }

  predicate IsIdentChar(c: char) {
    IsAlpha(c) || IsDigit(c) || c == '_'
  }

  /** The same classes on the one-character-or-empty current character. */
  predicate AlphaStr(c: string) { |c| == 1 && IsAlpha(c[0]) }
  predicate DigitStr(c: string) { |c| == 1 && IsDigit(c[0]) }
  predicate IdentStr(c: string) { |c| == 1 && IsIdentChar(c[0]) }
  predicate BlankStr(c: string) { c == " " || c == "\n" }

  // ---------------------------------------------------------------------
  // Skipping comments and blanks

  /** Index of the first newline at or after `i`, or of the end of input. */
  function CommentEnd(text: string, i: nat): (r: nat)
    ensures r >= i
    ensures CharAt(text, r) == "\n" || CharAt(text, r) == ""
    decreases |text| - i
  {
    if CharAt(text, i) == "\n" || CharAt(text, i) == "" then i
    else CommentEnd(text, i + 1)
  }

  /** Index of the first character at or after `i` that is neither a space
      nor a newline. */
  function BlanksEnd(text: string, i: nat): (r: nat)
    ensures r >= i
    ensures !BlankStr(CharAt(text, r))
    decreases |text| - i
  {
    if BlankStr(CharAt(text, i)) then BlanksEnd(text, i + 1) else i
  }

  /** Where the cursor rests after `skip_comment` / `skip_whitespace` have
      been repeated until neither applies. */
  function SkipTrivia(text: string, i: nat): (r: nat)
    ensures r >= i
    ensures CharAt(text, r) != "#" && !BlankStr(CharAt(text, r))
    decreases |text| - i
  {
    if CharAt(text, i) == "#" then SkipTrivia(text, CommentEnd(text, i) + 1)
    else if BlankStr(CharAt(text, i)) then SkipTrivia(text, BlanksEnd(text, i))
    else i
  }

  // ---------------------------------------------------------------------
  // Identifiers and reserved words

  /** End of the run of identifier characters starting at `i`. */
  function IdentEnd(text: string, i: nat): (r: nat)
    ensures r >= i
    ensures !IdentStr(CharAt(text, r))
    ensures r == i || r <= |text|
    decreases |text| - i
  {
    if IdentStr(CharAt(text, i)) then IdentEnd(text, i + 1) else i
  }

  /** A letter starts a word of letters, digits and `_`; a word longer than
      the limit raises; a reserved word takes its kind from the table. */
  function IdentifierAttempt(cfg: Config, text: string, i: nat): Attempt {
    if !AlphaStr(CharAt(text, i)) then NoMatch(i)
    else
      var e := IdentEnd(text, i);
      if e - i > cfg.maxIdentifier then Raise(ExceedMaxIdentifierLength)
      else
        var word := text[i..e];
        Built(Lexeme(if word in cfg.tables.reserved then cfg.tables.reserved[word] else Identifier, Text(word)), e)
  }

  // ---------------------------------------------------------------------
  // Scalars

  /** End of the run of digits starting at `i`. */
  function DigitsEnd(text: string, i: nat): (r: nat)
    ensures r >= i
    ensures !DigitStr(CharAt(text, r))
    ensures r == i || r <= |text|
    decreases |text| - i
  {
    if DigitStr(CharAt(text, i)) then DigitsEnd(text, i + 1) else i
  }

  /** The run `DigitsEnd` delimits is made of digits. */
  lemma {:induction false} DigitsRun(text: string, i: nat)
    requires i <= |text|
    ensures AllDigits(text[i..DigitsEnd(text, i)])
    decreases |text| - i
  {
    if DigitStr(CharAt(text, i)) {
      DigitsRun(text, i + 1);
      assert text[i..DigitsEnd(text, i)] == [text[i]] + text[i + 1..DigitsEnd(text, i)];
    }
  }

  function Digit(c: char): nat
    requires IsDigit(c)
  {
    (c as int - '0' as int) as nat
  }

  predicate AllDigits(s: string) {
    forall k | 0 <= k < |s| :: IsDigit(s[k])
  }

  /** The whole number a run of decimal digits denotes. */
  function DigitsValue(s: string): nat
    requires AllDigits(s)
  {
    if |s| == 0 then 0 else DigitsValue(s[..|s| - 1]) * 10 + Digit(s[|s| - 1])
  }

  /** The fraction `0.<s>` a run of digits after the point denotes. */
  function FractionValue(s: string): real
    requires AllDigits(s)
  {
    if |s| == 0 then 0.0 else (Digit(s[0]) as real + FractionValue(s[1..])) / 10.0
  }

  /** A scalar lexeme: digits, then optionally a point and more digits. */
  predicate ScalarText(s: string) {
    exists d | 0 <= d <= |s| :: AllDigits(s[..d]) && (d == |s| || (s[d] == '.' && AllDigits(s[d + 1..])))
  }

  /** Index of the first `.` in `s`, or `|s|`. */
  function PointIndex(s: string): (d: nat)
    ensures d <= |s|
    ensures forall k | 0 <= k < d :: s[k] != '.'
    ensures d < |s| ==> s[d] == '.'
  {
    if |s| == 0 || s[0] == '.' then 0 else 1 + PointIndex(s[1..])
  }

  /** `float(buffer)` on a scalar lexeme. */
  function ParseNumber(s: string): real
    requires ScalarText(s)
  {
    var d := PointIndex(s);
    ScalarSplit(s, d);
    if d == |s| then DigitsValue(s) as real
    else DigitsValue(s[..d]) as real + FractionValue(s[d + 1..])
  }

  /** The point found by `PointIndex` is the one that splits a lexeme. */
  lemma ScalarSplit(s: string, d: nat)
    requires ScalarText(s) && d == PointIndex(s)
    ensures AllDigits(s[..d])
    ensures d < |s| ==> AllDigits(s[d + 1..])
  {
    var d' :| 0 <= d' <= |s| && AllDigits(s[..d']) && (d' == |s| || (s[d'] == '.' && AllDigits(s[d' + 1..])));
    assert forall k | 0 <= k < d' :: s[k] == s[..d'][k];
    assert d == d';
  }

  /** Where a scalar starting at a digit `i` ends: a leading `0` is a run of
      its own; then an optional point and digits. */
  function ScalarEnd(text: string, i: nat): (k: nat)
    requires i < |text| && IsDigit(text[i])
    ensures i < k <= |text|
    ensures ScalarText(text[i..k])
  {
    var j := if text[i] == '0' then i + 1 else DigitsEnd(text, i);
    var k := if CharAt(text, j) == "." then DigitsEnd(text, j + 1) else j;
    DigitsRun(text, i);
    assert AllDigits(text[i..j]);
    if CharAt(text, j) == "." then
      DigitsRun(text, j + 1);
      ScalarBetween(text, i, j, k);
      k
    else
      ScalarBetween(text, i, j, k);
      k
  }

  /** Digits `text[i..j]`, then nothing or a point and digits up to `k`,
      make `text[i..k]` a scalar. */
  lemma ScalarBetween(text: string, i: nat, j: nat, k: nat)
    requires i <= j <= k <= |text| && AllDigits(text[i..j])
    requires j == k || (text[j] == '.' && AllDigits(text[j + 1..k]))
    ensures ScalarText(text[i..k])
  {
    var s := text[i..k];
    SliceJoin(text, i, j, k);
    if j < k {
      SliceJoin(text, i, j + 1, k);
      assert s[j - i] == text[j];
    }
    ScalarAt(s, j - i);
  }

  /** A split point that shows a lexeme is a scalar. */
  lemma ScalarAt(s: string, d: nat)
    requires d <= |s| && AllDigits(s[..d]) && (d == |s| || (s[d] == '.' && AllDigits(s[d + 1..])))
    ensures ScalarText(s)
  {
  }

  /** Two adjacent slices of a text join into one, and each is a slice of
      the joined one. */
  lemma SliceJoin(t: string, i: nat, j: nat, k: nat)
    requires i <= j <= k <= |t|
    ensures t[i..j] + t[j..k] == t[i..k]
    ensures t[i..k][..j - i] == t[i..j]
    ensures t[i..k][j - i..] == t[j..k]
  {
  }

  function ScalarAttempt(text: string, i: nat): Attempt {
    if !DigitStr(CharAt(text, i)) then NoMatch(i)
    else
      var k := ScalarEnd(text, i);
      Built(Lexeme(Scalar, Number(ParseNumber(text[i..k]))), k)
  }

  // ---------------------------------------------------------------------
  // Single characters and two-character operators

  function SpecialAttempt(tables: Tables, text: string, i: nat): Attempt {
    if i < |text| && text[i] in tables.special then
      Built(Lexeme(tables.special[text[i]], Text([text[i]])), i + 1)
    else NoMatch(i)
  }

  predicate StartsDouble(c: string) {
    |c| == 1 && c[0] in DoubleStarts()
  }

  /** `try_build_double_operator`. A character that opens a two-character
      operator is consumed before the pair is checked. As written, when the
      pair is not an operator and the character is not a single-character
      token either, the step reports no match with the cursor one further,
      so the next step reads the following character in its place.
      Repaired, the consumed character raises CANT_IDENTIFY_TOKEN. */
  function DoubleOperatorAttempt(cfg: Config, text: string, i: nat): (a: Attempt)
    ensures a.NoMatch? && cfg.mode == Repaired ==> a.next == i
    ensures a.NoMatch? && a.next != i ==> cfg.mode == AsWritten && StartsDouble(CharAt(text, i)) && a.next == i + 1
  {
    var first := CharAt(text, i);
    if !StartsDouble(first) then NoMatch(i)
    else
      var pair := first + CharAt(text, i + 1);
      if pair in DoubleOperators then Built(Lexeme(DoubleOperators[pair], Text(pair)), i + 2)
      else if first[0] in cfg.tables.special then Built(Lexeme(cfg.tables.special[first[0]], Text(first)), i + 1)
      else if cfg.mode == AsWritten then NoMatch(i + 1)
      else Raise(CantIdentifyToken)
  }

  // ---------------------------------------------------------------------
  // Strings

  /** The characters an escape sequence `\e` contributes: `\\` and `\"`
      give the escaped character, anything else nothing. */
  function Unescape(e: string): string {
    if e == "\\" then "\\" else if e == "\"" then "\"" else ""
  }

  /** The body of a string from index `k` on, with `chars` gathered so far:
      the value and the index of the closing quote, or an error. Before each
      character that is not the closing quote the count gathered so far is
      compared with `cap` and the string is rejected once it exceeds it. */
  function StringBody(text: string, k: nat, chars: string, cap: int): (r: Result<(string, nat), ErrorCode>)
    ensures r.Success? ==> k <= r.value.1 < |text| && text[r.value.1] == '"'
    ensures r.Success? ==> |r.value.0| <= (if |chars| > cap + 1 then |chars| else cap + 1)
    decreases |text| - k
  {
    if CharAt(text, k) == "" then Failure(StringBuildFail)
    else if text[k] == '"' then Success((chars, k))
    else if |chars| > cap then Failure(ExceedMaxStringLength)
    else if text[k] == '\\' then StringBody(text, k + 2, chars + Unescape(CharAt(text, k + 1)), cap)
    else StringBody(text, k + 1, chars + [text[k]], cap)
  }

  function StringAttemptWith(text: string, i: nat, cap: int): Attempt {
    if CharAt(text, i) != "\"" then NoMatch(i)
    else
      match StringBody(text, i + 1, "", cap)
      case Success((v, q)) => Built(Lexeme(String, Text(v)), q + 1)
      case Failure(c) => Raise(c)
  }

  /** The count of gathered characters past which `try_build_string`
      raises: as written the test is `len(chars) > MAX`, so a string may
      hold `MAX + 1` characters; repaired it is `len(chars) >= MAX`. */
  function StringCap(cfg: Config): (cap: int)
    ensures cap + 1 == cfg.maxString + (if cfg.mode == AsWritten then 1 else 0)
  {
    if cfg.mode == AsWritten then cfg.maxString else cfg.maxString - 1
  }

  /** `try_build_string` with the configured limit. */
  function StringAttempt(cfg: Config, text: string, i: nat): (a: Attempt)
    ensures a.Built? ==> a.lexeme.kind == String && a.lexeme.value.Text?
    ensures a.Built? ==> |a.lexeme.value.text| <= cfg.maxString + (if cfg.mode == AsWritten then 1 else 0)
  {
    StringAttemptWith(text, i, StringCap(cfg))
  }

  // ---------------------------------------------------------------------
  // A whole token

  /** The first three steps after end of input, in their fixed order:
      identifier or reserved word, string, scalar. */
  function ClassifyLiteral(cfg: Config, text: string, s: nat): Attempt {
    var a1 := IdentifierAttempt(cfg, text, s);
    if !a1.NoMatch? then a1
    else
      var a2 := StringAttempt(cfg, text, s);
      if !a2.NoMatch? then a2
      else ScalarAttempt(text, s)
  }

  /** The last two steps: two-character operator, then single character. */
  function ClassifySymbol(cfg: Config, text: string, s: nat): Attempt {
    var a4 := DoubleOperatorAttempt(cfg, text, s);
    if !a4.NoMatch? then a4
    else SpecialAttempt(cfg.tables, text, a4.next)
  }

  /** All five steps after end of input, in their fixed order. */
  function Classify(cfg: Config, text: string, s: nat): Attempt {
    var a := ClassifyLiteral(cfg, text, s);
    if !a.NoMatch? then a else ClassifySymbol(cfg, text, s)
  }

  /** `build_next_token` from the cursor at `i`: skip comments and blanks,
      note the position, then end of input or the first step that matches;
      the token, or the error, carries the noted position. */
  function NextToken(cfg: Config, text: string, i: nat): (r: Result<(Tok, nat), LexError>)
    ensures var s := SkipTrivia(text, i);
      && (r.Success? ==> r.value.0.line == LineAt(text, s) && r.value.0.column == ColumnAt(text, s))
      && (r.Failure? ==> r.error.line == LineAt(text, s) && r.error.column == ColumnAt(text, s))
  {
    var s := SkipTrivia(text, i);
    var line := LineAt(text, s);
    var column := ColumnAt(text, s);
    if CharAt(text, s) == "" then Success((Tok(Eof, Text(""), line, column), s))
    else
      match Classify(cfg, text, s)
      case Built(lx, n) => Success((Tok(lx.kind, lx.value, line, column), n))
      case Raise(c) => Failure(LexError(c, line, column))
      case NoMatch(_) => Failure(LexError(CantIdentifyToken, line, column))
  }

  /** A step that builds a token from a character strictly advances the
      cursor and stays within the input. */
  lemma ClassifyAdvances(cfg: Config, text: string, s: nat)
    requires s < |text|
    ensures Classify(cfg, text, s).Built? ==> s < Classify(cfg, text, s).next <= |text|
  {
    DoubleOperatorTable();
  }

  /** `yield_tokens`: the tokens up to and including the end-of-input token,
      or up to a lexer error, which ends the sequence. */
  function Tokenize(cfg: Config, text: string, i: nat): (r: (seq<Tok>, Option<LexError>))
    ensures r.1.None? ==> |r.0| > 0 && r.0[|r.0| - 1].kind == Eof
    ensures forall k | 0 <= k < |r.0| - 1 :: r.0[k].kind != Eof
    decreases |text| + 1 - i
  {
    match NextToken(cfg, text, i)
    case Failure(e) => ([], Some(e))
    case Success((t, j)) =>
      if t.kind == Eof then ([t], None)
      else
        ClassifyAdvances(cfg, text, SkipTrivia(text, i));
        var rest := Tokenize(cfg, text, j);
        ([t] + rest.0, rest.1)
  }
}
