/** Token kinds, the symbol tables of the two lexer generations, and the
    token object whose position is filled in after it is built.

    `TokenType` is the union of both enums: the newer one adds `Mut`,
    `Power` and `Delimiter`; the older tables simply never produce them. */
module Tokens {
  import opened Wrappers

  datatype TokenType =
    | Eof | Identifier | VarDeclaration | Mut
    | Scalar | Bool | String
    | Plus | Minus | Multiply | Divide | Power | Assign
    | Semicolon | Comma | Dot | Delimiter
    | OpRoundBracket | ClRoundBracket | OpSquareBracket | ClSquareBracket
    | OpCurlyBracket | ClCurlyBracket | OpAngleBracket | ClAngleBracket
    | LessOrEqualTo | GreaterOrEqualTo | EqualTo | NotEqualTo
    | And | Or | Not | Function | Return | If | Else | While

  /** The lookup tables in which the two generations differ. */
  datatype Tables = Tables(special: map<char, TokenType>, reserved: map<string, TokenType>)

  /** The four two-character operators; both generations have exactly these. */
  const DoubleOperators: map<string, TokenType> := map[
    "<=" := LessOrEqualTo,
    ">=" := GreaterOrEqualTo,
    "==" := EqualTo,
    "!=" := NotEqualTo]

  /** Single characters of the newer generation (`language/lexer/Token.py`). */
  const CurrentSpecial: map<char, TokenType> := map[
    '(' := OpRoundBracket, ')' := ClRoundBracket,
    '[' := OpSquareBracket, ']' := ClSquareBracket,
    '{' := OpCurlyBracket, '}' := ClCurlyBracket,
    '<' := OpAngleBracket, '>' := ClAngleBracket,
    '*' := Multiply, '/' := Divide, '+' := Plus, '-' := Minus,
    '^' := Power, ';' := Semicolon, ',' := Comma, '.' := Dot,
    '=' := Assign, '|' := Delimiter]

  /** Reserved words of the newer generation. */
  const CurrentReserved: map<string, TokenType> := map[
    "and" := And, "or" := Or, "not" := Not,
    "var" := VarDeclaration, "mut" := Mut,
    "True" := Bool, "False" := Bool,
    "return" := Return, "function" := Function,
    "if" := If, "else" := Else, "while" := While]

  /** Single characters of the older generation (`Lexer/Token.py`). */
  const LegacySpecial: map<char, TokenType> := map[
    '(' := OpRoundBracket, ')' := ClRoundBracket,
    '[' := OpSquareBracket, ']' := ClSquareBracket,
    '{' := OpCurlyBracket, '}' := ClCurlyBracket,
    '<' := OpAngleBracket, '>' := ClAngleBracket,
    '*' := Multiply, '/' := Divide, '+' := Plus, '-' := Minus,
    ';' := Semicolon, ',' := Comma, '.' := Dot, '=' := Assign]

  /** Reserved words of the older generation. */
  const LegacyReserved: map<string, TokenType> := map[
    "and" := And, "or" := Or, "not" := Not,
    "var" := VarDeclaration,
    "true" := Bool, "false" := Bool,
    "return" := Return, "function" := Function,
    "if" := If, "else" := Else, "while" := While]

  /** The tables the newer lexer consults. */
  const CurrentTables: Tables := Tables(CurrentSpecial, CurrentReserved)

  /** The tables the older lexer consults; the parser reads its kinds. */
  const LegacyTables: Tables := Tables(LegacySpecial, LegacyReserved)

  /** The characters that may open a two-character operator. */
  function DoubleStarts(): (s: set<char>)
    ensures forall op | op in DoubleOperators && |op| > 0 :: op[0] in s
    ensures forall c | c in s :: exists op | op in DoubleOperators && |op| > 0 :: op[0] == c
  {
    set op | op in DoubleOperators && |op| > 0 :: op[0]
  }

  /** A token's value: text for names, keywords, strings and symbols, a
      number for scalars. */
  datatype TokenValue = Text(text: string) | Number(number: real)

  /** An immutable copy of a token once its position is known: what the
      lexer yields and the parser consumes. */
  datatype Tok = Tok(kind: TokenType, value: TokenValue, line: int, column: int)

  /** A token object: built with a kind and a value, and optionally with a
      position, which `SetPosition` fills in later. */
  class Token {
    var kind: TokenType
    var value: TokenValue
    var line: Option<int>
    var column: Option<int>

    constructor (kind: TokenType, value: TokenValue)
      ensures this.kind == kind && this.value == value
      ensures line == None && column == None
    {
      this.kind := kind;
      this.value := value;
      line := None;
      column := None;
    }

    constructor At(kind: TokenType, value: TokenValue, line: int, column: int)
      ensures this.kind == kind && this.value == value
      ensures this.line == Some(line) && this.column == Some(column)
    {
      this.kind := kind;
      this.value := value;
      this.line := Some(line);
      this.column := Some(column);
    }

    /** `set_position`: only the line and the column change. */
    method SetPosition(line: int, column: int)
      modifies this
      ensures this.line == Some(line) && this.column == Some(column)
      ensures kind == old(kind) && value == old(value)
    {
      this.line := Some(line);
      this.column := Some(column);
    }

    predicate Positioned()
      reads this
    {
      line.Some? && column.Some?
    }

    /** The immutable copy of a positioned token. */
    function Snapshot(): (t: Tok)
      reads this
      requires Positioned()
      ensures t.kind == kind && t.value == value
      ensures Some(t.line) == line && Some(t.column) == column
    {
      Tok(kind, value, line.value, column.value)
    }
  }

  // ---------------------------------------------------------------------
  // Facts about the tables

  /** The characters of the newer single-character table, in code-point order. */
  const CurrentSpecialChars: string := "()*+,-./;<=>[]^{|}"

  /** The characters of the older single-character table, in code-point order. */
  const LegacySpecialChars: string := "()*+,-./;<=>[]{}"

  predicate Distinct(s: string) {
    forall i, j | 0 <= i < j < |s| :: s[i] != s[j]
  }

  predicate Increasing(s: string) {
    forall k | 0 <= k < |s| - 1 :: s[k] < s[k + 1]
  }

  /** In a string whose neighbours increase, every later character is larger. */
  lemma {:induction false} Climb(s: string, i: nat, j: nat)
    requires Increasing(s) && i < j < |s|
    ensures s[i] < s[j]
    decreases j - i
  {
    if i + 1 < j {
      Climb(s, i, j - 1);
    }
  }

  lemma IncreasingIsDistinct(s: string)
    requires Increasing(s)
    ensures Distinct(s)
  {
    forall i, j | 0 <= i < j < |s|
      ensures s[i] != s[j]
    {
      Climb(s, i, j);
    }
  }

  /** A string of distinct characters has as many elements as characters. */
  lemma {:induction false} DistinctCount(s: string)
    requires Distinct(s)
    ensures |set c | c in s| == |s|
  {
    if |s| > 0 {
      var rest := s[1..];
      DistinctCount(rest);
      assert (set c | c in s) == {s[0]} + (set c | c in rest);
      assert s[0] !in (set c | c in rest);
    }
  }

  /** A table whose keys are the listed characters, each of them listed. */
  lemma KeysListed(table: map<char, TokenType>, chars: string)
    requires forall k | 0 <= k < |chars| :: chars[k] in table
    requires forall c | c in table :: c in chars
    ensures table.Keys == set c | c in chars
  {
  }

  /** The newer single-character table's keys are exactly its characters,
      among them `^` and `|`, and not `!`. */
  lemma CurrentSpecialKeys()
    ensures CurrentSpecial.Keys == set c | c in CurrentSpecialChars
    ensures CurrentSpecial['^'] == Power && CurrentSpecial['|'] == Delimiter
    ensures '!' !in CurrentSpecial
  {
    CurrentCharsAreKeys();
    CurrentKeysAreChars();
    CurrentNewerChars();
    KeysListed(CurrentSpecial, CurrentSpecialChars);
  }

  lemma CurrentNewerChars()
    ensures CurrentSpecial['^'] == Power && CurrentSpecial['|'] == Delimiter
    ensures '!' !in CurrentSpecial
  {
  }

  lemma CurrentCharsAreKeys()
    ensures forall k | 0 <= k < |CurrentSpecialChars| :: CurrentSpecialChars[k] in CurrentSpecial
  {
  }

  lemma CurrentKeysAreChars()
    ensures forall c | c in CurrentSpecial :: c in CurrentSpecialChars
  {
  }

  /** The newer single-character table maps 18 distinct characters. */
  lemma CurrentSpecialTable()
    ensures |CurrentSpecial| == 18
  {
    CurrentSpecialKeys();
    CharsDistinctCurrent();
    DistinctCount(CurrentSpecialChars);
    assert |CurrentSpecial| == |CurrentSpecial.Keys|;
  }

  lemma CharsDistinctCurrent()
    ensures Distinct(CurrentSpecialChars)
  {
    IncreasingIsDistinct(CurrentSpecialChars);
  }

  /** The older single-character table's keys are exactly its characters:
      no `^`, `|` or `!`. */
  lemma LegacySpecialKeys()
    ensures LegacySpecial.Keys == set c | c in LegacySpecialChars
    ensures '^' !in LegacySpecial && '|' !in LegacySpecial && '!' !in LegacySpecial
  {
    LegacyCharsAreKeys();
    LegacyKeysAreChars();
    LegacyLacksNewerChars();
    KeysListed(LegacySpecial, LegacySpecialChars);
  }

  lemma LegacyLacksNewerChars()
    ensures '^' !in LegacySpecial && '|' !in LegacySpecial && '!' !in LegacySpecial
  {
  }

  lemma LegacyCharsAreKeys()
    ensures forall k | 0 <= k < |LegacySpecialChars| :: LegacySpecialChars[k] in LegacySpecial
  {
  }

  lemma LegacyKeysAreChars()
    ensures forall c | c in LegacySpecial :: c in LegacySpecialChars
  {
  }

  /** The older single-character table maps 16 distinct characters. */
  lemma LegacySpecialTable()
    ensures |LegacySpecial| == 16
  {
    LegacySpecialKeys();
    CharsDistinctLegacy();
    DistinctCount(LegacySpecialChars);
    assert |LegacySpecial| == |LegacySpecial.Keys|;
  }

  lemma CharsDistinctLegacy()
    ensures Distinct(LegacySpecialChars)
  {
    IncreasingIsDistinct(LegacySpecialChars);
  }

  /** The two-character operators are exactly `<=`, `>=`, `==` and `!=`,
      and `<`, `>`, `=` and `!` are the characters that open one. */
  lemma DoubleOperatorTable()
    ensures DoubleOperators.Keys == {"<=", ">=", "==", "!="}
    ensures forall op | op in DoubleOperators :: |op| == 2
    ensures forall c :: c in DoubleStarts() <==> c in "<>=!"
  {
    assert "<="[0] == '<' && ">="[0] == '>' && "=="[0] == '=' && "!="[0] == '!';
    forall c | c in DoubleStarts()
      ensures c in "<>=!"
    {
      var op :| op in DoubleOperators && |op| > 0 && op[0] == c;
    }
  }

  /** Reserved words: the newer table spells the booleans with capitals and
      has `mut`; the older one spells them in lower case and has no `mut`. */
  lemma ReservedWordTables()
    ensures CurrentReserved["True"] == CurrentReserved["False"] == Bool
    ensures CurrentReserved["mut"] == Mut && CurrentReserved["var"] == VarDeclaration
    ensures "true" !in CurrentReserved
    ensures LegacyReserved["true"] == LegacyReserved["false"] == Bool
    ensures "mut" !in LegacyReserved && "True" !in LegacyReserved
  {
  }

  /** The older tables never yield the three kinds only the newer enum has. */
  predicate NewerOnly(k: TokenType) {
    k == Mut || k == Power || k == Delimiter
  }

  lemma LegacyKinds()
    ensures forall c | c in LegacySpecial :: !NewerOnly(LegacySpecial[c])
    ensures forall w | w in LegacyReserved :: !NewerOnly(LegacyReserved[w])
    ensures forall p | p in DoubleOperators :: !NewerOnly(DoubleOperators[p])
  {
  }
}
