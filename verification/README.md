# Neo: a verified model of a small matrix language

Neo is a small imperative language whose values are numbers, booleans,
strings, functions and rectangular matrices of numbers. A program is a
sequence of function definitions and statements. Statements are blocks,
`if`, `while`, `return`, function calls, assignments and, in the newest
version, `var`/`mut` declarations. A matrix is written `[<1, 2><3, 4>]`.
It supports cell-wise `+` and `-`, the matrix product, scalar broadcast,
power, transpose, determinant and the properties `rowlen`, `collen`,
`copy`, `transposed` and `det`.

The repository holds three generations of the implementation. Each one is
modelled here:

- the older front end: the character source (`Lexer/Source.py`), the
  lexer (`Lexer/Lexer.py`) with its token tables, and the
  recursive-descent parser (`Parser/Parser.py`). The token table of the
  newer lexer (`language/lexer/Token.py`) is a second dialect of the same
  lexer;
- the matrix class, in its older (`Objects/Expressions/Matrix.py`) and
  newer (`language/nodes/Expressions/Matrix.py`) forms;
- three tree-walking evaluators:
  - the newest: `language/interpreter/Interpreter.py` with
    `language/interpreter/Built_ins.py`. It has a stack of scopes, mutable
    and immutable bindings, closures and first-class functions;
  - the middle one: `Interpreter/Interpreter.py`. It has a stack of scopes
    that only function bodies push, and a global function table;
  - the earliest: `Interpreter/Visitor.py`. Matrices stay syntax nodes
    there.

Modules and files:

- `wrappers.dfy`: `Option`, `Result` and `Outcome`.
- `tokens.dfy` (`Tokens`): token kinds, both special-character tables,
  the two-character operators, both reserved-word tables, and the mutable
  `Token` object.
- `source.dfy` (`CharSource`): the character cursor as a class, with its
  line and column bookkeeping.
- `lexer_spec.dfy` (`LexerSpec`): what each lexer step does, as functions
  on the text and a position. `Tokenize` is the whole token stream.
- `lexer.dfy` (`NeoLexer`): the lexer as a class. Every step is a method
  proved against the matching `LexerSpec` function.
- `lexer_props.dfy` (`LexerProperties`): properties of the lexer:
  - string escapes round-trip;
  - the length limits;
  - reserved words;
  - scalar values;
  - concrete inputs.
- `parser.dfy` (`NeoParser`): the parser as a class over the token stream.
  Every parsing method proves that the tokens it consumed are exactly the
  written form (`Render…`) of the node it returns. It also proves that the
  node holds no matrix literal without rows and no empty row.
- `matrix.dfy` (`Matrix`): the matrix operations on exact reals, their
  loops as methods, and the algebra they satisfy.
- `builtins.dfy` (`Builtins`): `zeros` and `ones`.
- `ast.dfy` (`NeoAst`): the syntax tree the evaluators walk.
- `values.dfy` (`NeoValues`): run-time values, faults, and the meaning of
  every unary and binary operator as a `Plan`.
- `scopes.dfy` (`NeoScopes`): the newest evaluator's scope stack.
  Scopes are shared by reference, so they live in an arena of frames.
- `stacks.dfy` (`NeoStacks`): the plain stack of dictionaries used by the
  middle and earliest evaluators.
- `interpreter.dfy` (`NeoInterpreter`), `middle.dfy` (`NeoMiddle`),
  `earliest.dfy` (`NeoEarliest`): the three visitors, as classes.

Modelling choices:

- **Values live in a heap.** Matrices are objects in Python, so a matrix
  value is a reference into a heap of grids (`seq<Grid>`). Two variables
  can share a matrix, and a cell write through one is seen through the
  other.
- **Every run is bounded by fuel.** Neo programs need not terminate.
- **Each repaired defect is a mode.** Four defects are listed under
  "Findings". The lexer's configuration and the newest and earliest
  evaluators carry a `Mode`. `AsWritten` runs the code as it stands, and
  `Repaired` runs the evident intent. Both shipped lexer configurations
  and every `Run` use `AsWritten`, so the model behaves as the program
  does. The lemmas about `Repaired` state the intended properties.
- **Failures are data.** An error is a `Fault`:
  - `Raised`: a `NeoRuntimeError`, which `run` catches;
  - `Host`: a Python exception nobody catches;
  - `Unmodelled`: behaviour outside this model;
  - `OutOfFuel`: the fuel ran out.

## Model

| member | source | states |
|---|---|---|
| Tokens.Token.constructor | Lexer/Token.py:90-94 | a token made from a kind and a value has that kind and value and no position yet |
| Tokens.Token.At | Lexer/Token.py:90-94 | a token made with a position, as the special-character step makes it, carries that line and column |
| Tokens.Token.SetPosition | Lexer/Token.py:99-101 | setting the position changes line and column only; kind and value are kept |
| Tokens.Token.Snapshot | Lexer/Token.py:89-94 | the value view of a positioned token has the token's kind, value, line and column |
| Tokens.DoubleStarts | Lexer/Token.py:67-72 | the set of first characters of the two-character operators: every operator's first character is in it and nothing else is |
| Tokens.DoubleOperatorTable | Lexer/Token.py:67-72 | the operators are exactly `<=`, `>=`, `==`, `!=`, each two characters long, so they start with one of `<>=!` |
| Tokens.CurrentSpecialKeys | language/lexer/Token.py:51-70 | the newer special-character table has exactly the 18 listed characters as keys; `^` is power, `|` is the delimiter, `!` is absent |
| Tokens.CurrentSpecialTable | language/lexer/Token.py:51-70 | the newer table has 18 entries |
| Tokens.LegacySpecialKeys | Lexer/Token.py:48-65 | the older table has exactly the 16 listed characters as keys, without `^`, `|` or `!` |
| Tokens.LegacySpecialTable | Lexer/Token.py:48-65 | the older table has 16 entries |
| Tokens.ReservedWordTables | language/lexer/Token.py:79-92 | the newer reserved words spell booleans `True`/`False` and have `mut`; the older ones (Lexer/Token.py:74-86) spell `true`/`false` and have no `mut` |
| Tokens.LegacyKinds | Lexer/Token.py:47-86 | no entry of any older table yields a token kind only the newer lexer knows |
| CharSource.Source.constructor | Lexer/Source.py:2-8 | a new cursor is at the first character; line 1, column 1, or line 2, column 0 when that character is a newline |
| CharSource.CharAt | Lexer/Source.py:13-14 | reading one character gives that character inside the text and the empty string exactly at or past its end |
| CharSource.Source.MoveToNextChar | Lexer/Source.py:13-22 | one step forward; a newline starts the next line at column 0, any other character advances the column; the end of input reads as the empty string for ever |
| CharSource.LineCountsNewlines | Lexer/Source.py:13-22 | the line at a position is one more than the number of newlines read so far |
| CharSource.ColumnCountsSinceNewline | Lexer/Source.py:13-22 | the column at a position is the number of characters read since the last newline, still counting past the end of input |
| CharSource.NewlinesCounts | Lexer/Source.py:18-20 | the newline counter is the multiplicity of `\n` in the text read |
| CharSource.SinceNewlineCounts | Lexer/Source.py:16-20 | the column counter counts exactly the characters after the last newline |
| LexerSpec.SkipTrivia | Lexer/Lexer.py:21-22 | skipping comments and blanks stops at a character that is neither `#`, a space nor a newline |
| LexerSpec.CommentEnd | Lexer/Lexer.py:158-164 | a comment runs up to the next newline or the end of input, never backwards |
| LexerSpec.BlanksEnd | Lexer/Lexer.py:167-172 | a run of blanks stops at the first character that is neither a space nor a newline |
| LexerSpec.IdentEnd | Lexer/Lexer.py:54-58 | a word stops at the first character that is not a letter, a digit or `_`, and not past the end of input |
| LexerSpec.DigitsEnd | Lexer/Lexer.py:80-82 | a run of digits stops at the first non-digit, and not past the end of input |
| LexerSpec.DigitsRun | Lexer/Lexer.py:80-82 | the characters a run of digits consumes are all digits |
| LexerSpec.PointIndex | Lexer/Lexer.py:88-100 | the position of the first point of a scalar's text, or its length when there is none |
| LexerSpec.ScalarSplit | Lexer/Lexer.py:88-100 | scalar text is digits before its point and digits after it |
| LexerSpec.ScalarBetween | Lexer/Lexer.py:74-100 | leading digits followed by nothing, or by a point and digits, are scalar text |
| LexerSpec.ScalarEnd | Lexer/Lexer.py:70-101 | a scalar that starts with a digit ends after at least one character, and what it spans is digits with at most one point |
| LexerSpec.StringBody | Lexer/Lexer.py:135-150 | a body that is read successfully stops at a closing quote inside the text; it gathers at most one character more than the limit checked before each character |
| LexerSpec.StringAttempt | Lexer/Lexer.py:129-155 | a string token built by the step has text of at most the configured limit plus one as written (`len(chars) > MAX`), and at most the limit when repaired |
| LexerSpec.DoubleOperatorAttempt | Lexer/Lexer.py:113-126 | a step that matches nothing consumes nothing, except as written at a character that opens an operator but forms no token, which it consumes; repaired, that character is CANT_IDENTIFY_TOKEN |
| LexerSpec.NextToken | Lexer/Lexer.py:20-41 | the token or the error is stamped with the line and column where the token starts, after comments and blanks; the steps run as the configuration's mode says, as written in both shipped configurations |
| LexerSpec.ClassifyAdvances | Lexer/Lexer.py:26-37 | a step that builds a token consumes at least one character and stays within the input |
| LexerSpec.Tokenize | Lexer/Lexer.py:14-17 | the stream ends with exactly one EOF token, unless a lexer error cut it short; it is built from the steps as written in both shipped configurations |
| NeoLexer.Lexer.constructor | Lexer/Lexer.py:7-11 | a new lexer has no token and a cursor at the start of the text |
| NeoLexer.Lexer.SkipComment | Lexer/Lexer.py:158-164 | skips from `#` to the end of the line and one character further, exactly when the current character is `#` |
| NeoLexer.Lexer.SkipWhitespace | Lexer/Lexer.py:167-172 | skips the run of spaces and newlines; reports whether there was one |
| NeoLexer.Lexer.SkipCommentsAndBlanks | Lexer/Lexer.py:21-22 | leaves the cursor where `SkipTrivia` says |
| NeoLexer.Lexer.TryBuildEof | Lexer/Lexer.py:44-48 | builds an EOF token with empty text exactly at the end of input; otherwise the token is untouched |
| NeoLexer.Lexer.TryBuildIdentifierOrReservedWord | Lexer/Lexer.py:51-68 | behaves as `IdentifierAttempt`: no match unless at a letter; a word over the limit raises EXCEED_MAX_IDENTIFIER_LENGHT; a reserved word takes its kind from the table, any other word is an identifier |
| NeoLexer.Lexer.ReadWord | Lexer/Lexer.py:54-58 | reads the whole word of letters, digits and `_`, or reports that it is longer than the limit |
| NeoLexer.Lexer.TryBuildScalar | Lexer/Lexer.py:70-85 | behaves as `ScalarAttempt`: a leading `0` alone or a run of digits, then `check_dot`; the value is the number the text denotes |
| NeoLexer.Lexer.ReadLeading | Lexer/Lexer.py:74-83 | reads one `0`, or the whole run of digits that starts with another digit |
| NeoLexer.Lexer.ReadDigits | Lexer/Lexer.py:80-82 | consumes exactly the run of digits and returns it |
| NeoLexer.Lexer.ReadFraction | Lexer/Lexer.py:89-94 | consumes a point and the digits after it, or nothing when there is no point |
| NeoLexer.Lexer.CheckDot | Lexer/Lexer.py:88-101 | the buffer plus the consumed fraction is well-formed scalar text, and the token holds its numeric value |
| NeoLexer.Lexer.TryBuildSpecialCharacter | Lexer/Lexer.py:104-110 | behaves as `SpecialAttempt`: a character in the table becomes one token of the table's kind |
| NeoLexer.Lexer.TryBuildDoubleOperator | Lexer/Lexer.py:113-126 | behaves as `DoubleOperatorAttempt`: a two-character operator, else the first character as a special character; otherwise, as written, no match with that character consumed, and repaired CANT_IDENTIFY_TOKEN |
| NeoLexer.Lexer.ReadStringChar | Lexer/Lexer.py:142-150 | one escape pair or one plain character advances the cursor and leaves the outcome of reading the rest of the body unchanged |
| NeoLexer.Lexer.TryBuildString | Lexer/Lexer.py:129-155 | behaves as `StringAttempt`: the unescaped body up to the closing quote; an unterminated string raises STRING_BUILD_FAIL; a string raises EXCEED_MAX_STRING_LENGHT once more characters than the limit were gathered before another character (as written, so `MAX + 1` pass) |
| NeoLexer.Lexer.BuildLiteral | Lexer/Lexer.py:28-33 | tries identifier, then string, then scalar, and behaves as `ClassifyLiteral` with the string limit of the lexer's mode |
| NeoLexer.Lexer.BuildSymbol | Lexer/Lexer.py:34-37 | tries the two-character operator, then the special character, and behaves as `ClassifySymbol`, swallowing a lone `!` as written |
| NeoLexer.Lexer.BuildClassified | Lexer/Lexer.py:28-37 | the literal steps, then the symbol steps; behaves as `Classify` in the lexer's mode |
| NeoLexer.Lexer.BuildNextToken | Lexer/Lexer.py:20-41 | produces the token `NextToken` describes in the lexer's mode, at the position where it starts, and leaves the cursor after it; fails with the error `NextToken` gives |
| NeoLexer.Lexer.YieldTokens | Lexer/Lexer.py:14-17 | the tokens yielded are exactly `Tokenize` of the text from the cursor in the lexer's mode, up to and including EOF, or up to the first lexer error; a lexer whose last token was EOF yields nothing more |
| NeoLexer.RemainsStep | Lexer/Lexer.py:14-17 | after a token that is not EOF, the stream from the start is the tokens so far followed by the stream from the new, strictly later position |
| NeoLexer.ScalarPieces | Lexer/Lexer.py:70-101 | the leading digits and the optional fraction together end where `ScalarEnd` says and spell the scalar's text |
| NeoLexer.ScalarAttemptAt | Lexer/Lexer.py:70-101 | a scalar starting at a digit is one SCALAR token whose value is the number its text denotes, ending where `ScalarEnd` says |
| LexerProperties.EscapedBody | Lexer/Lexer.py:135-150 | reading the escaped form of a value back gives the value, or EXCEED_MAX_STRING_LENGHT once it passes the limit |
| LexerProperties.StringLimit | Lexer/Lexer.py:139-140 | with the limit repaired to `>=`, a quoted value is read back exactly when it has at most `maxString` characters; a longer one raises |
| LexerProperties.StringLimitAsWritten | Lexer/Lexer.py:139-140 | with the limit as written (`>`), a quoted value is read back exactly when it has at most `maxString + 1` characters; a longer one raises |
| LexerProperties.DefaultStringLimitAsWritten | Lexer/Lexer.py:7-11 | with the default limit of 500, a 501-character string passes the check as written and is refused by the repaired one |
| LexerProperties.UnknownEscapeDropped | Lexer/Lexer.py:142-147 | a backslash before any character other than `\` or `"` contributes nothing: `"a\nb"` reads as `ab` |
| LexerProperties.UnterminatedString | Lexer/Lexer.py:135-137 | a string without its closing quote raises STRING_BUILD_FAIL |
| LexerProperties.IdentifierLimit | Lexer/Lexer.py:51-68 | a word is an identifier or a reserved word exactly when it has at most `maxIdentifier` characters; a longer one raises |
| LexerProperties.ReservedWords | Lexer/Lexer.py:60-67 | `while` and `True` get their reserved kinds; `whilex` is an identifier |
| LexerProperties.LeadingZero | Lexer/Lexer.py:76-78 | `012` starts with the scalar `0` of length one |
| LexerProperties.WholeScalar | Lexer/Lexer.py:70-101 | text that is one whole scalar lexes to the number it denotes |
| LexerProperties.FourPointFive | Lexer/Lexer.py:88-100 | `4.5` is the scalar 4.5 |
| LexerProperties.ZeroPointTwoFive | Lexer/Lexer.py:76-100 | `0.25` is the scalar 0.25 |
| LexerProperties.TrailingPoint | Lexer/Lexer.py:88-100 | `7.` is the scalar 7.0 and spans both characters |
| LexerProperties.BangSwallowedAsWritten | Lexer/Lexer.py:113-126 | as written, `!(` reports no match after consuming `!`, and the next step then lexes `(` in its place |
| LexerProperties.BangRejected | Lexer/Lexer.py:113-126 | with the repaired step, `!(` is a CANT_IDENTIFY_TOKEN error at line 1, column 1 |
| LexerProperties.DoubleOperatorVariantsAgree | Lexer/Lexer.py:113-126 | the step as written and repaired give the same result, except that where the written one swallows a character and reports no match the repaired one raises CANT_IDENTIFY_TOKEN |
| LexerProperties.LessOrEqualIsOneToken | Lexer/Lexer.py:117-121 | `<=` is one LESS_OR_EQUAL_TO token of length two |
| LexerProperties.LessThenOtherIsBracket | Lexer/Lexer.py:122-125 | `<` followed by anything but `=` is the single `<` token |
| LexerProperties.BlankInputIsEof | Lexer/Lexer.py:20-48 | input of spaces only lexes to the single EOF token |
| LexerProperties.CommentSkipped | Lexer/Lexer.py:158-164 | in `#c\nx` the comment is skipped and `x` is an identifier at line 2, column 1 |
| NeoParser.Parser.constructor | Parser/Parser.py:8-10 | the parser starts on the first token and has consumed nothing |
| NeoParser.Parser.Advance | Parser/Parser.py:22 | moves to the next token and records the current one as consumed; a lexer error met while fetching is reported |
| NeoParser.Parser.CheckType | Parser/Parser.py:26-27 | true exactly when the current token has the kind |
| NeoParser.Parser.Expect | Parser/Parser.py:13-23 | succeeds exactly when the current token has the kind, returns that token and consumes it; otherwise InvalidSyntax names the token found |
| NeoParser.Parser.ExpectNext | Parser/Parser.py:13-23 | `expect` of a token kind other than EOF: on success one token of that kind is consumed and its value returned |
| NeoParser.Parser.ParseProgram | Parser/Parser.py:30-39 | the program parsed, written out, is exactly the tokens consumed up to and including EOF, and holds no empty matrix literal or row |
| NeoParser.Parser.TryParseFunction | Parser/Parser.py:42-58 | no match without `function`; otherwise a function definition whose written form is exactly the tokens consumed |
| NeoParser.Parser.ParseParameters | Parser/Parser.py:61-72 | empty at `)`; otherwise a non-empty comma-separated list of identifiers, spelled by the tokens consumed |
| NeoParser.Parser.ParseArguments | Parser/Parser.py:75-86 | empty at `)`; otherwise a non-empty comma-separated list of expressions, spelled by the tokens consumed, none an empty matrix literal |
| NeoParser.Parser.TryParseBlock | Parser/Parser.py:89-92 | no match without `{`; otherwise a block spelled by the tokens consumed |
| NeoParser.Parser.ParseBlock | Parser/Parser.py:95-104 | a block is `{`, its instructions and `}`, exactly the tokens consumed, with no empty matrix literal inside; any other start is an error expecting `{` |
| NeoParser.Parser.TryParseInstruction | Parser/Parser.py:107-111 | no match unless the token can start an instruction; otherwise an instruction spelled by the tokens consumed |
| NeoParser.Parser.ParseInstruction | Parser/Parser.py:114-123 | picks the form by the first token (block, if, while, return, identifier statement) and consumes exactly its written form |
| NeoParser.Parser.TryParseIf | Parser/Parser.py:126-144 | an `if` with its condition, block and optional `else` block, spelled by the tokens consumed; without `else` the next token is not `else` |
| NeoParser.Parser.TryParseWhile | Parser/Parser.py:147-160 | a `while` with its condition and block, spelled by the tokens consumed |
| NeoParser.Parser.TryParseReturn | Parser/Parser.py:163-176 | a `return` with an expression exactly when the next token is not `;`, spelled by the tokens consumed |
| NeoParser.Parser.ParseAssignmentOrFunctionCall | Parser/Parser.py:179-202 | an identifier followed by `(` is a call and by `=` an assignment, spelled by the tokens consumed; anything else is the "equal sign or left round bracket" error |
| NeoParser.Parser.ParseCallRest | Parser/Parser.py:190-195 | a call is the name, `(`, the arguments, `)` and `;` |
| NeoParser.Parser.ParseAssignmentRest | Parser/Parser.py:198-202 | an assignment is the name, `=`, an expression and `;` |
| NeoParser.Parser.ParseExpression | Parser/Parser.py:206-210 | on success the tokens consumed spell the result, which starts with `[` exactly when it is a matrix literal or a scalar read after a dropped `[]`; a matrix literal has at least one row, so `x = [];` is an error expecting SCALAR; a start other than `[` or a scalar is an error expecting SCALAR |
| NeoParser.Parser.TryParseMatrix | Parser/Parser.py:217-229 | no match without `[`; otherwise `[`, rows, `]`, exactly the tokens consumed, every row holding at least one scalar; `[]` is the literal with no rows |
| NeoParser.Parser.ParseMatrixRows | Parser/Parser.py:225-227 | rows for as long as `]` does not come next, each with at least one scalar, spelled by the tokens consumed; none when `]` comes at once |
| NeoParser.Parser.ParseMatrixRow | Parser/Parser.py:232-243 | `<`, one or more comma-separated scalars, `>`, exactly the tokens consumed; any other start is an error expecting `<` |
| NeoParser.Parser.ParseProperty | Parser/Parser.py:246-253 | identifier, `.`, identifier, exactly the tokens consumed |
| NeoParser.ParseText | Parser/Parser.py:8-39 | a text parses only if it lexes without error (lexer as written), and then the written form of the program is exactly its token stream, and the program holds no empty matrix literal or row |
| NeoParser.TokenizeShape | Lexer/Lexer.py:14-17 | a stream cut short by a lexer error holds no EOF token |
| Matrix.RowLen | language/nodes/Expressions/Matrix.py:207-208 | `rowlen` is the number of rows |
| Matrix.ColLen | language/nodes/Expressions/Matrix.py:210-211 | `collen` is the length of the rows; a matrix without rows has no first row (IndexError) |
| Matrix.ShapesDiffer | language/nodes/Expressions/Matrix.py:147-148 | the shape test of `+` and `-`: different row count or row length; it fails only when both matrices have no rows |
| Matrix.MapCells | language/nodes/Expressions/Matrix.py:92-99 | the double loop of negation and of every matrix-with-number operator yields `f` of every cell, same shape |
| Matrix.ZipCells | language/nodes/Expressions/Matrix.py:149-153 | the double loop over two equal-shaped matrices yields `f` of corresponding cells |
| Matrix.Combine | language/nodes/Expressions/Matrix.py:144-205 | `+`, `-` and reflected `-` of two matrices: when neither has rows, reading `collen` fails; otherwise "must have the same shape" exactly when the shapes differ, else the cell-wise result |
| Matrix.Multiply | language/nodes/Expressions/Matrix.py:101-114 | reading the first row of a matrix without rows fails; otherwise the product is defined exactly when the left row length equals the right row count ("Wrong shapes"), and the triple loop computes `Product` |
| Matrix.Product | language/nodes/Expressions/Matrix.py:110-114 | each cell is the dot product of a row and a column |
| Matrix.CellMap | language/nodes/Expressions/Matrix.py:92-99 | the same shape, with `f` applied to every cell |
| Matrix.CellZip | language/nodes/Expressions/Matrix.py:149-153 | the same shape, with `f` applied to corresponding cells |
| Matrix.Identity | language/nodes/Expressions/Matrix.py:135-137 | ones on the diagonal, zeros elsewhere |
| Matrix.RepeatedProduct | language/nodes/Expressions/Matrix.py:139-142 | the left-to-right product of `k` copies of a square matrix is square of the same size |
| Matrix.Pow | language/nodes/Expressions/Matrix.py:128-142 | the k-th power of a square matrix is square of the same size |
| Matrix.Power | language/nodes/Expressions/Matrix.py:128-142 | a negative exponent is refused first; a matrix without rows fails on its first row; a non-square one is refused; exponent 0 gives the identity; a positive exponent `e` gives the product of `max(int(e), 1)` copies, so a fraction is truncated |
| Matrix.Transposed | language/nodes/Expressions/Matrix.py:216-218 | cell `[i][j]` of the transpose is cell `[j][i]`; a matrix without rows has none |
| Matrix.Equal | language/nodes/Expressions/Matrix.py:81-90 | two matrices are equal exactly when they have the same shape and the same cells; when neither has rows, reading `collen` fails first |
| Matrix.Determinant | language/nodes/Expressions/Matrix.py:220-237 | a matrix without rows fails on its first row; a non-square one is refused; a square one yields its cofactor expansion along the first row |
| Matrix.LegacyDeterminant | Objects/Expressions/Matrix.py:160-170 | the older determinant checks no shape: it is defined exactly when the matrix has no rows or its rows are at least as long as their number, and then it is the cofactor expansion |
| Matrix.DropCell | language/nodes/Expressions/Matrix.py:227-228 | removing one cell of a row shortens it by one; an index past the end leaves it as it is |
| Matrix.Minor | language/nodes/Expressions/Matrix.py:227-228 | the minor has one row fewer, and each remaining row loses the cell in the removed column |
| Matrix.MinorShape | language/nodes/Expressions/Matrix.py:227-228 | the minor of an r by c matrix along row 0 is r-1 by c-1 |
| Matrix.ExpansionDefined | language/nodes/Expressions/Matrix.py:233-236 | the partial cofactor sum is defined exactly when nothing has been summed yet or the rows are wide enough |
| Matrix.DefinedIffWideEnough | Objects/Expressions/Matrix.py:160-170 | the cofactor expansion is defined exactly on empty or wide-enough matrices |
| Matrix.SingleCellDeterminantIsZero | language/nodes/Expressions/Matrix.py:230-236 | the 1x1 determinant is 0, as the expansion computes it: it has no 2x2 base case to reach |
| Matrix.TwoByTwoDeterminant | language/nodes/Expressions/Matrix.py:231-232 | the 2x2 determinant is `ad - bc` |
| Matrix.DeterminantExamples | language/nodes/Expressions/Matrix.py:220-237 | two worked determinants: -2 and -306 |
| Matrix.DeterminantsAgreeOnSquare | language/nodes/Expressions/Matrix.py:220-237 | on square matrices the older and the newer determinant agree |
| Matrix.LegacyDeterminantIgnoresShape | Objects/Expressions/Matrix.py:160-170 | the older determinant of a 2-row matrix with longer rows is computed from the first two columns; the newer one refuses it |
| Matrix.AdditionCommutes | language/nodes/Expressions/Matrix.py:144-162 | cell-wise addition commutes |
| Matrix.SubtractionUndoesAddition | language/nodes/Expressions/Matrix.py:144-185 | `(a + b) - b == a` |
| Matrix.ReflectedSubtraction | language/nodes/Expressions/Matrix.py:187-205 | `__rsub__` of two matrices equals subtraction with the operands swapped |
| Matrix.ScalarMinusIsNegatedMinusScalar | language/nodes/Expressions/Matrix.py:197-202 | `s - m` is the negation of `m - s` |
| Matrix.NegationIsInvolution | language/nodes/Expressions/Matrix.py:92-99 | negating twice gives the matrix back |
| Matrix.NegationKeepsTruthiness | language/nodes/Expressions/Matrix.py:78-99 | a matrix and its negation are both true or both false |
| Matrix.IdentityIsNeutral | language/nodes/Expressions/Matrix.py:101-114 | the identity is neutral for the product on both sides |
| Matrix.DotWithIdentityOnLeft | language/nodes/Expressions/Matrix.py:113-114 | a partial dot product of an identity row with a column picks out one cell, once it has passed the diagonal |
| Matrix.DotWithIdentityOnRight | language/nodes/Expressions/Matrix.py:113-114 | a partial dot product of a row with an identity column picks out one cell, once it has passed the diagonal |
| Matrix.RepeatedProductIsPower | language/nodes/Expressions/Matrix.py:139-142 | the loop's left-to-right repeated product equals the power |
| Matrix.ProductOfTwoByTwo | language/nodes/Expressions/Matrix.py:110-114 | the 2x2 product by the textbook formula |
| Matrix.FibonacciPower | language/nodes/Expressions/Matrix.py:128-142 | `[[1,1],[1,0]]` to the fifth power is `[[8,5],[5,3]]` |
| Matrix.TransposeTwice | language/nodes/Expressions/Matrix.py:216-218 | transposing twice gives the matrix back, unless its rows are empty, in which case the second transpose fails on its first row |
| Matrix.MinorOfIdentity | language/nodes/Expressions/Matrix.py:227-228 | removing row 0 and column 0 of the identity leaves the smaller identity |
| Matrix.IdentityExpansion | language/nodes/Expressions/Matrix.py:233-236 | the cofactor expansion of an identity of size three or more reduces to the determinant of the next smaller identity |
| Matrix.IdentityDeterminant | language/nodes/Expressions/Matrix.py:220-237 | the identity of size two or more has determinant 1; sizes 0 and 1 give 0, because the expansion has no 1x1 base case |
| Builtins.Filled | language/interpreter/Built_ins.py:9-17 | a grid of the given shape with every cell equal to the value |
| Builtins.Constant | language/interpreter/Built_ins.py:9-17 | refused ("Positive scalars expected") exactly when the first size is not positive or a second size is negative; otherwise `int(first)` rows of `int(second or first)` cells, all equal to the value |
| Builtins.ZerosOf | language/interpreter/Built_ins.py:9-12 | `zeros` gives a matrix that is false |
| Builtins.OnesOf | language/interpreter/Built_ins.py:14-17 | `ones` gives a matrix whose cells are all 1 |
| Builtins.OnesTruthyIffNonEmpty | language/interpreter/Built_ins.py:14-17 | a matrix of ones is true exactly when it has a cell |
| Builtins.SingleSizeIsSquare | language/interpreter/Built_ins.py:9-17 | one size `n` gives an `n` by `n` matrix |
| Builtins.TwoSizesGiveRowsByColumns | language/interpreter/Built_ins.py:9-12 | sizes `r` and `c` give `r` rows of `c` cells |
| Builtins.ZeroSecondIsAbsent | language/interpreter/Built_ins.py:10-12 | a second size of 0 is falsy and counts as absent |
| Builtins.TransposedZeros | language/interpreter/Built_ins.py:9-12 | the transpose of `zeros(2, 3)` is the 3 by 2 zero matrix |
| NeoStacks.Innermost | Interpreter/Interpreter.py:129-134 | the innermost scope binding a name: it binds the name and no later scope does; none exactly when no scope does |
| NeoStacks.Lookup | Interpreter/Interpreter.py:129-134 | a name's value is its binding in the innermost scope that has it; "doesn't exist" when none has it |
| NeoStacks.Assign | Interpreter/Interpreter.py:110-111 | plain assignment keeps the number of scopes |
| NeoStacks.AssignTouchesTopOnly | Interpreter/Interpreter.py:110-111 | plain assignment binds the name in the top scope and changes no other scope and no other name |
| NeoStacks.LookupAfterAssign | Interpreter/Interpreter.py:110-111 | after assignment the name reads back as the value; other names read as before |
| NeoStacks.InnermostAfterAssign | Interpreter/Interpreter.py:110-111 | assigning one name does not move where another is found |
| NeoValues.FromMatrixError | language/nodes/Expressions/Matrix.py:104-109 | only a matrix without rows gives a Python IndexError (reading its first row); every other matrix error is a reported NeoRuntimeError |
| NeoValues.Carry | language/interpreter/Interpreter.py:232-302 | carrying out an operator plan with the matrix methods yields what `ApplyPlan` says |
| NeoValues.BinaryPlan | language/interpreter/Interpreter.py:232-302 | every binary operator plan refers only to existing matrices |
| NeoValues.UnaryPlan | language/interpreter/Interpreter.py:219-229 | every unary operator plan refers only to existing matrices |
| NeoValues.LiteralValue | language/interpreter/Interpreter.py:306-307 | a literal evaluates to a value of its own kind |
| NeoValues.RealPower | language/interpreter/Interpreter.py:264-267 | a whole power of a nonzero number is nonzero, and a positive power of zero is zero |
| NeoValues.IndexPair | language/interpreter/Interpreter.py:142-146 | indices are accepted exactly when both are numbers, and then they are those numbers; a fractional first number is "Indices must be whole numbers" even when the second is not a number |
| NeoValues.AccessGivesCell | language/interpreter/Interpreter.py:193-202 | `m[i, j]` is the cell when in range, an IndexError out of range, "Matrix is needed for access operation" on a non-matrix |
| NeoValues.FractionalIndexRefused | language/interpreter/Interpreter.py:193-202 | a fractional index is "Indices must be whole numbers" |
| NeoValues.PropertiesOfMatrix | language/interpreter/Interpreter.py:205-216 | `rowlen`, `collen`, `copy` and `transposed` of a matrix with rows are its row count, row length, a fresh copy and its fresh transpose |
| NeoValues.PropertyNeedsAMatrix | language/interpreter/Interpreter.py:205-216 | a property of anything but a matrix is "Only matrix can have properties" |
| NeoValues.DeterminantProperty | language/interpreter/Interpreter.py:205-216 | `det` of a 2x2 matrix is `ad - bc`; an unknown property is reported |
| NeoValues.DeterminantDialects | Interpreter/Interpreter.py:164-175 | both evaluators agree on `det` of square matrices; on a 2x3 matrix the middle one computes a number and the newest one refuses |
| NeoValues.StringsRefused | language/interpreter/Interpreter.py:232-302 | `-`, `*`, `**`, `/` and `//` with a string operand are refused |
| NeoValues.MatricesNotDivided | language/interpreter/Interpreter.py:232-302 | dividing with a matrix on either side is refused, in both dialects |
| NeoValues.DivisionOfNumbers | Interpreter/Interpreter.py:191-248 | division by zero is reported; otherwise the quotient `q` satisfies `q * y == x` |
| NeoValues.AndOrGiveAnOperand | language/interpreter/Interpreter.py:232-302 | `and` and `or` return one of their operands, chosen by the truth of the left one |
| NeoValues.EmptyStringOrFour | language/interpreter/Interpreter.py:232-302 | `"" or 4` is 4 |
| NeoValues.BroadcastEitherSide | language/nodes/Expressions/Matrix.py:101-165 | a number added to or multiplied by a matrix gives the same fresh matrix on either side |
| NeoValues.ScalarMinusMatrix | language/nodes/Expressions/Matrix.py:187-205 | `s - m` is a fresh matrix of `s` minus each cell |
| NeoValues.NotEqualNegatesEqual | language/interpreter/Interpreter.py:232-302 | `!=` is the negation of `==` whenever `==` succeeds |
| NeoValues.MatrixEquality | language/nodes/Expressions/Matrix.py:81-90 | a matrix equals no non-matrix, and equals a matrix exactly when the cells are equal |
| NeoValues.OrderingNeedsComparableKinds | language/interpreter/Interpreter.py:232-302 | ordering succeeds exactly on two numbers or two strings; matrices, functions and None are "cannot be compared" |
| NeoValues.MatrixPowerIsRepeatedProduct | language/interpreter/Interpreter.py:232-302 | `m ** k` for a square matrix and whole `k >= 1` is the k-th power |
| NeoValues.MiddleHasNoPower | Interpreter/Interpreter.py:191-248 | the middle evaluator has no `**`: it is "Unknown binary operator" |
| NeoValues.StrBeforeIsStrictTotal | language/interpreter/Interpreter.py:232-302 | string ordering is a strict total order |
| NeoScopes.Innermost | language/interpreter/Interpreter.py:171-177 | the innermost scope binding a name; none exactly when no scope on the stack binds it |
| NeoScopes.InnermostFunction | language/interpreter/Interpreter.py:44-51 | the innermost scope whose binding of the name is a function; none exactly when no scope binds it to a function |
| NeoScopes.InnermostKeepsPosition | language/interpreter/Interpreter.py:119-160 | writing values without adding names does not change where a name is found |
| NeoScopes.AssignPlain | language/interpreter/Interpreter.py:119-160 | plain assignment fails only as undeclared or immutable |
| NeoScopes.AssignPlainFailsWhen | language/interpreter/Interpreter.py:119-160 | undeclared exactly when no scope binds the name; immutable exactly when the innermost binding is immutable |
| NeoScopes.AssignPlainChangesOneBinding | language/interpreter/Interpreter.py:119-160 | a successful assignment rebinds the name in its innermost scope, stays mutable, and changes nothing else |
| NeoScopes.AssignPlainKeepsImmutable | language/interpreter/Interpreter.py:119-160 | no assignment changes an immutable binding |
| NeoScopes.LookupAfterAssign | language/interpreter/Interpreter.py:119-177 | after assignment the name reads back as the value |
| NeoScopes.Declare | language/interpreter/Interpreter.py:163-168 | a declaration needs a scope to declare into |
| NeoScopes.DeclareTouchesTopOnly | language/interpreter/Interpreter.py:163-168 | a declaration binds the name, with its mutability, in the top scope only |
| NeoScopes.LookupAfterDeclare | language/interpreter/Interpreter.py:163-177 | a declared name reads back as its value |
| NeoScopes.DeclaredConstantRefusesAssignment | language/interpreter/Interpreter.py:119-168 | a name declared without `mut` refuses assignment |
| NeoScopes.WithCell | language/interpreter/Interpreter.py:119-160 | writing a cell changes that cell only and keeps the shape |
| NeoScopes.SetCell | language/interpreter/Interpreter.py:119-160 | a cell write keeps the number of matrices |
| NeoScopes.SetCellChangesOneCell | language/interpreter/Interpreter.py:119-160 | a successful cell write stores a number at whole in-range indices of the named matrix and changes no other cell and no other matrix |
| NeoScopes.SetCellRefusesImmutable | language/interpreter/Interpreter.py:119-160 | a cell of an immutable matrix binding cannot be written |
| NeoInterpreter.BuiltinConstructors | language/interpreter/Interpreter.py:40-42 | `zeros(n)` is an n by n zero matrix and `ones(n, c)` an n by c matrix of ones; a falsy second argument is ignored |
| NeoInterpreter.BuiltinErrors | language/interpreter/Built_ins.py:5-17 | non-positive sizes are reported; a string size or a wrong argument count is a TypeError; `print` returns None |
| NeoInterpreter.BlockExit | language/interpreter/Interpreter.py:81-87 | leaving a block gives a returned function the block's scope as its closure, then pops the block's scope, and also the scope under it when told to; popping an empty stack is an IndexError |
| NeoInterpreter.BlockExitRestoresStack | language/interpreter/Interpreter.py:65-89 | leaving a block restores the stack it entered with; a returned function captures the block's scope as its closure |
| NeoInterpreter.SelfReturnPopsCallerFrame | language/interpreter/Interpreter.py:81-87 | as written, a function returning itself pops one scope more than it pushed; the corrected exit does not |
| NeoInterpreter.SelfReturningFunctionEmptiesStack | language/interpreter/Interpreter.py:81-87 | a concrete case: the global scope is popped |
| NeoInterpreter.Visitor.constructor | language/interpreter/Interpreter.py:23-24 | one empty global scope, no matrices, and the mode of the block exit (as written for `run`) |
| NeoInterpreter.Visitor.Alloc | language/nodes/Expressions/Matrix.py:99 | a new matrix object is appended to the heap and nothing else changes |
| NeoInterpreter.Visitor.Deliver | language/interpreter/Interpreter.py:219-302 | an operator's result becomes a value: an existing value is returned, a new grid is allocated as a fresh matrix, and a fault is passed on |
| NeoInterpreter.Visitor.Perform | language/interpreter/Interpreter.py:219-302 | an operator's plan is carried out as `ApplyPlan` says; a fresh matrix is allocated |
| NeoInterpreter.Visitor.Search | language/interpreter/Interpreter.py:171-177 | the loop over the scopes finds `Innermost` |
| NeoInterpreter.Visitor.SearchFunction | language/interpreter/Interpreter.py:44-51 | the loop over the scopes finds `InnermostFunction` |
| NeoInterpreter.Visitor.VisitIdentifier | language/interpreter/Interpreter.py:171-177 | an identifier evaluates to its innermost binding; "doesn't exist" otherwise |
| NeoInterpreter.Visitor.Bind | language/interpreter/Interpreter.py:163-168 | binds as `Declare` says and changes nothing else |
| NeoInterpreter.Visitor.Reassign | language/interpreter/Interpreter.py:119-140 | assigns as `AssignPlain` says and changes nothing else |
| NeoInterpreter.Visitor.WriteCell | language/interpreter/Interpreter.py:141-160 | writes the cell as `SetCell` says and changes nothing else |
| NeoInterpreter.Visitor.VisitMatrix | language/interpreter/Interpreter.py:180-190 | a first evaluation that succeeds gives a matrix allocated during that evaluation and recorded for the node, with a row per row of the literal and a cell per cell, each literal cell being a number that the grid holds; evaluating the node again succeeds exactly when that matrix has no cell, because its rows then hold numbers rather than nodes, and gives the same matrix object; the node is one object, so a visit made while its own cells are evaluated gives that object too, and the outer visit then replaces its rows |
| NeoInterpreter.Visitor.VisitFunctionDeclaration | language/interpreter/Interpreter.py:27-32 | a built-in name is reserved; otherwise the function is bound, immutable, in the top scope |
| NeoInterpreter.Visitor.VisitDeclaration | language/interpreter/Interpreter.py:163-168 | declaring a name the top scope already binds is "already declared" |
| NeoInterpreter.Visitor.VisitReturn | language/interpreter/Interpreter.py:113-116 | a bare `return` gives None and changes nothing; a `return` of a literal gives the literal's value |
| NeoInterpreter.Visitor.EnterBlock | language/interpreter/Interpreter.py:65-73 | pushes the closure scope when the block has a non-empty one, then a new scope holding the passed arguments |
| NeoInterpreter.Visitor.RunInstructions | language/interpreter/Interpreter.py:76-79 | runs instructions in order up to and including the first `return`; with none run the value is None, and when the last one run returns a literal the value is that literal's |
| NeoInterpreter.Visitor.ExitBlock | language/interpreter/Interpreter.py:81-89 | leaves the block as `BlockExit` says, popping the closure scope as written when the block's `closure` is read non-empty after the update, and repaired when one was pushed on entry; an exit that pops differently from its entry is counted |
| NeoInterpreter.Visitor.PopFrames | language/interpreter/Interpreter.py:81-87 | gives a returned function the block's scope as its closure, pops the block's scope and, when told to, the one under it, as `BlockExit` says; an empty stack is an IndexError; nothing else changes |
| NeoInterpreter.Visitor.PassArguments | language/interpreter/Interpreter.py:59-61 | on success every parameter has an immutable binding among the body's passed variables, and no passed variable of any block is lost |
| NeoInterpreter.Visitor.StorePassed | language/interpreter/Interpreter.py:61 | the body's passed variables bind the parameter to the value, immutable; nothing else changes |
| NeoInterpreter.Visitor.Eval | language/interpreter/Interpreter.py:171-307 | on success the value refers into the heap and the heap only grows; the scope stack is as before unless a block exit as written popped differently from its entry, which the repaired exit never does |
| NeoInterpreter.Visitor.Exec | language/interpreter/Interpreter.py:92-168 | on success the heap only grows, and the scope stack is as before unless an exit as written popped differently from its entry; a `return` of a literal gives the literal's value |
| NeoInterpreter.Visitor.VisitBlock | language/interpreter/Interpreter.py:65-89 | on success the scope stack is exactly as before the block, unless an exit as written popped differently from its entry |
| NeoInterpreter.Visitor.VisitFunctionCall | language/interpreter/Interpreter.py:35-63 | on success the scope stack is as before the call, unless an exit as written popped differently from its entry |
| NeoInterpreter.Visitor.VisitIf | language/interpreter/Interpreter.py:92-98 | on success the scope stack is as before, unless a block exit as written popped differently from its entry |
| NeoInterpreter.Visitor.VisitWhile | language/interpreter/Interpreter.py:101-110 | on success the scope stack is as before, unless a block exit as written popped differently from its entry |
| NeoInterpreter.Visitor.VisitAssignment | language/interpreter/Interpreter.py:119-160 | on success the scope stack is as before, unless a block exit as written popped differently from its entry; with a literal value, and literal number indices, the write and its errors are `AssignPlain`'s or `SetCell`'s |
| NeoInterpreter.Visitor.VisitAccess | language/interpreter/Interpreter.py:193-202 | on success the scope stack is as before, unless a block exit as written popped differently from its entry |
| NeoInterpreter.Visitor.VisitProperty | language/interpreter/Interpreter.py:205-216 | on success the scope stack is as before, unless a block exit as written popped differently from its entry |
| NeoInterpreter.Visitor.VisitUnary | language/interpreter/Interpreter.py:219-229 | on success the scope stack is as before, unless a block exit as written popped differently from its entry |
| NeoInterpreter.Visitor.VisitBinary | language/interpreter/Interpreter.py:232-302 | on success the scope stack is as before, unless a block exit as written popped differently from its entry |
| NeoInterpreter.Visitor.BinaryWith | language/interpreter/Interpreter.py:234-302 | on success the scope stack is as before, unless a block exit as written popped differently from its entry |
| NeoInterpreter.Visitor.EvalAll | language/interpreter/Interpreter.py:42 | arguments are evaluated in order, one value each, leaving the scope stack as it was, unless a block exit as written popped differently from its entry |
| NeoInterpreter.Run | language/interpreter/Interpreter.py:13-19 | the run stops at the first object that raises a NeoRuntimeError, and crashes only on a fault that is not one |
| NeoMiddle.CellWrite | Interpreter/Interpreter.py:113-126 | a cell write keeps the number of matrices |
| NeoMiddle.CellWriteChangesOneCell | Interpreter/Interpreter.py:113-126 | a successful cell write stores a number at whole in-range indices of the innermost matrix of that name and changes nothing else |
| NeoMiddle.CellWriteUsesInnermost | Interpreter/Interpreter.py:119-123 | the innermost binding decides: a number there is "Only matrix can use access operation" |
| NeoMiddle.Entered | Interpreter/Interpreter.py:58-64 | entering a function body pushes a scope; another block adds to the top scope |
| NeoMiddle.EnteredScope | Interpreter/Interpreter.py:58-64 | a function body's new scope is the passed arguments; another block merges them into the top scope |
| NeoMiddle.Visitor.constructor | Interpreter/Interpreter.py:24-26 | one empty scope and no functions |
| NeoMiddle.Visitor.Alloc | Objects/Expressions/Matrix.py:5-13 | a new matrix object is appended to the heap and nothing else changes |
| NeoMiddle.Visitor.Deliver | Interpreter/Interpreter.py:178-248 | an operator's outcome becomes a value; a fresh matrix is allocated |
| NeoMiddle.Visitor.Perform | Interpreter/Interpreter.py:178-248 | an operator's plan is carried out as `ApplyPlan` says; a fresh matrix is allocated; nothing but the heap changes |
| NeoMiddle.Visitor.Search | Interpreter/Interpreter.py:129-134 | the loop over the scopes finds `Innermost` |
| NeoMiddle.Visitor.VisitIdentifier | Interpreter/Interpreter.py:129-134 | an identifier evaluates to its innermost binding; "doesn't exist" otherwise |
| NeoMiddle.Visitor.AssignTop | Interpreter/Interpreter.py:110-111 | a plain assignment writes the top scope as `Assign` says |
| NeoMiddle.Visitor.WriteCell | Interpreter/Interpreter.py:113-126 | writes the cell as `CellWrite` says and changes nothing else |
| NeoMiddle.Visitor.VisitMatrix | Interpreter/Interpreter.py:137-149 | a first evaluation that succeeds gives a matrix allocated during that evaluation and recorded for the node, with a row per row of the literal and a cell per cell, each literal cell being a number that the grid holds; a first cell that is a string or boolean literal is "Matrix can contain only scalars"; evaluating the node again succeeds exactly when that matrix has no cell, and gives the same matrix object; the node is one object, so a visit made while its own cells are evaluated gives that object too, and the outer visit then replaces its rows |
| NeoMiddle.Visitor.VisitFunctionCall | Interpreter/Interpreter.py:36-55 | a call to a built-in fails, because built-ins are not part of this model; an unknown name is "doesn't exist"; a wrong argument count is reported |
| NeoMiddle.Visitor.VisitFunction | Interpreter/Interpreter.py:29-33 | a built-in name is reserved; otherwise the definition replaces any of that name in the function table |
| NeoMiddle.Visitor.VisitAssignment | Interpreter/Interpreter.py:106-126 | an assignment's value is None; a plain one leaves the name bound in the top scope; with a literal value, and literal number indices, the new stack is `Assign`'s and the new heap `CellWrite`'s, errors included |
| NeoMiddle.Visitor.VisitReturn | Interpreter/Interpreter.py:100-103 | a bare `return` gives None and changes nothing; a `return` of a literal gives the literal's value |
| NeoMiddle.Visitor.EnterBlock | Interpreter/Interpreter.py:58-64 | the stack becomes `Entered` of the old stack and the passed arguments |
| NeoMiddle.Visitor.RunInstructions | Interpreter/Interpreter.py:66-72 | instructions run until one gives a value other than None, which is the block's value, or until all have run and the value is None; when the last one run returns a literal the value is that literal's |
| NeoMiddle.Visitor.VisitBlock | Interpreter/Interpreter.py:58-76 | a function body leaves the whole stack as it found it |
| NeoMiddle.Visitor.PassArguments | Interpreter/Interpreter.py:52-53 | on success every parameter has a value among the body's passed variables, and no passed variable of any block is lost |
| NeoMiddle.Visitor.StorePassed | Interpreter/Interpreter.py:53 | the body's passed variables bind the parameter to the value; nothing else changes |
| NeoMiddle.Visitor.Exec | Interpreter/Interpreter.py:79-126 | a declaration is not part of this language version and fails; a `return` of a literal gives the literal's value |
| NeoMiddle.Visitor.Eval | Interpreter/Interpreter.py:129-253 | on success the value refers into the heap and only the top scope may have changed |
| NeoMiddle.Visitor.EvalAll | Interpreter/Interpreter.py:42-53 | arguments are evaluated in order, one value each |
| NeoMiddle.Visitor.VisitIf | Interpreter/Interpreter.py:79-85 | on success only the top scope may have changed |
| NeoMiddle.Visitor.VisitWhile | Interpreter/Interpreter.py:88-97 | on success only the top scope may have changed |
| NeoMiddle.Visitor.VisitAccess | Interpreter/Interpreter.py:152-161 | on success only the top scope may have changed |
| NeoMiddle.Visitor.VisitProperty | Interpreter/Interpreter.py:164-175 | on success only the top scope may have changed |
| NeoMiddle.Visitor.VisitUnary | Interpreter/Interpreter.py:178-188 | on success only the top scope may have changed |
| NeoMiddle.Visitor.VisitBinary | Interpreter/Interpreter.py:191-248 | on success only the top scope may have changed |
| NeoMiddle.Visitor.BinaryWith | Interpreter/Interpreter.py:193-248 | on success only the top scope may have changed |
| NeoMiddle.Run | Interpreter/Interpreter.py:14-20 | the run stops at the first object that raises a NeoRuntimeError, and crashes only on a fault that is not one |
| NeoEarliest.LiteralItem | Interpreter/Visitor.py:29-30 | a literal evaluates to a value of its own kind |
| NeoEarliest.Truthy | Interpreter/Visitor.py:72-81 | a matrix node without cells is false; a matrix node with cells cannot be decided here |
| NeoEarliest.UnaryItem | Interpreter/Visitor.py:130-140 | `-x` negates a number; `not x` negates its truth |
| NeoEarliest.BinaryItem | Interpreter/Visitor.py:143-172 | `and`, `or`, `**` and `//` are "Unknown binary operator" |
| NeoEarliest.EarliestOperatorErrors | Interpreter/Visitor.py:143-172 | a string minus or times a number is a TypeError; division by zero is a ZeroDivisionError; equality compares values |
| NeoEarliest.LiteralUnequalToOthers | Interpreter/Visitor.py:167-170 | a matrix node is unequal to every number, boolean and string |
| NeoEarliest.AccessAlwaysFails | Interpreter/Visitor.py:112-118 | as written, indexing a list with a float always fails |
| NeoEarliest.AccessNode | Interpreter/Visitor.py:112-118 | access on anything but a matrix node is "Matrix is needed" |
| NeoEarliest.AccessGivesNode | Interpreter/Visitor.py:112-118 | with whole indices, access gives the cell's node, or an IndexError out of range |
| NeoEarliest.PropertyItem | Interpreter/Visitor.py:121-127 | a property of a non-matrix is refused; an unknown name is a KeyError; a known one is the bound getter |
| NeoEarliest.AssignEverywhere | Interpreter/Visitor.py:90-96 | assignment keeps the number of scopes |
| NeoEarliest.AssignEverywhereIsComplete | Interpreter/Visitor.py:90-96 | every scope that binds the name rebinds it; the top scope binds it; nothing else changes |
| NeoEarliest.LookupAfterAssignEverywhere | Interpreter/Visitor.py:90-105 | after assignment the name reads back as the value |
| NeoEarliest.OuterBindingRewritten | Interpreter/Visitor.py:90-96 | unlike the later evaluators, assignment rewrites an outer binding too |
| NeoEarliest.Visitor.constructor | Interpreter/Visitor.py:24-26 | one empty scope, no functions, and the mode of access (as written for `run`) |
| NeoEarliest.Visitor.VisitIdentifier | Interpreter/Visitor.py:99-105 | an identifier evaluates to its innermost binding |
| NeoEarliest.Visitor.AssignAll | Interpreter/Visitor.py:93-96 | the loop writes the stack as `AssignEverywhere` says |
| NeoEarliest.Visitor.VisitFunctionCall | Interpreter/Visitor.py:37-46 | an unknown name is a KeyError; a wrong argument count is reported; on success every parameter of the called function has a value among its body's passed variables |
| NeoEarliest.Visitor.Exec | Interpreter/Visitor.py:69-96 | a declaration is not part of this language version and fails; a `return` of a literal gives the literal's item |
| NeoEarliest.Visitor.VisitIf | Interpreter/Visitor.py:69-75 | an `if` gives nothing and leaves the same names bound |
| NeoEarliest.Visitor.VisitWhile | Interpreter/Visitor.py:78-83 | a `while` gives nothing and leaves the same names bound |
| NeoEarliest.Visitor.RunToReturn | Interpreter/Visitor.py:58-63 | instructions run in order up to the first `return`; without one the value is None, and a `return` of a literal gives the literal's item |
| NeoEarliest.Visitor.VisitBlock | Interpreter/Visitor.py:49-66 | on success the same names are bound in the same scopes as before |
| NeoEarliest.Visitor.Eval | Interpreter/Visitor.py:99-172 | on success the same names are bound as before, whichever access the mode selects; a literal gives its item |
| NeoEarliest.Run | Interpreter/Visitor.py:11-19 | nothing is caught: a run either finishes or crashes at some object |

## Left out

- File input and printing are not modelled. The lexer reads from a string
  that holds the file's contents. `print` (and `neo_print`) is a built-in
  that returns None, and its output is not modelled.
- Python distinguishes `int` from `float`; every number here is an exact
  `real`, and the model does not tell them apart. Number literals are
  floats (`float(buffer)`), but in the newest tree `zeros` and `ones` fill
  their cells with the ints `0` and `1`
  (language/interpreter/Built_ins.py:12,17), and `rowlen` and `collen`
  are `len(...)`, also ints.
- NeoValues.AddPlan: broadcasts any number over a matrix. The newest
  matrix class broadcasts only a `float`
  (language/nodes/Expressions/Matrix.py:154), so `m + z[0, 0]` with `z`
  from `zeros`, or `m + m.rowlen`, is a NeoRuntimeError there.
- NeoValues.SubtractPlan: the same, for `-` on either side
  (language/nodes/Expressions/Matrix.py:177,197).
- NeoValues.MultiplyPlan: the same, for `*`
  (language/nodes/Expressions/Matrix.py:115), so `m * m.rowlen` is an
  error there and a scaled matrix here.
- NeoMiddle.Visitor.VisitMatrix: accepts any number as a cell. The middle
  `visit_matrix` refuses a cell that is not a `float`
  (Interpreter/Interpreter.py:143), so a cell whose value is an int
  (`m.rowlen`) is "Matrix can contain only scalars" there. As in the
  newest evaluator, the grid's cells are tied to the literal's cells only
  where those are literals.
- Floating-point rounding is not modelled: all arithmetic is exact.
- Booleans used as integers (`True + 1`) are `Unmodelled`. So are numbers
  raised to a fractional power.
- In the newest and middle evaluators, matrix cells that are not numbers
  are `Unmodelled`, and so are nested matrices and jagged literals. The
  earliest evaluator keeps a matrix literal, jagged or not, as its node.
- Negative indices, which Python counts from the end of a list, are
  `Unmodelled` in the access and cell-write paths.
- The fuel bound stands in for non-termination. A program that runs out
  of fuel ends in `OutOfFuel`, which Python has no counterpart for.
- The `__repr__` methods and the printing done by `run` (error messages,
  the earliest evaluator's `TOP LEVEL:` lines) are not modelled.
- The middle evaluator imports its built-ins from
  `Interpreter/Built_ins.py`, which is not part of this model. The
  built-in names are a constructor parameter there, and calling one is
  `Unmodelled`.
- `Lexer/Lexer.py` line 2 imports `TokenType`, but `Lexer/Token.py`
  defines the enumeration as `Type`. The model reads both names as the
  same enumeration.
- In the newest tree, `Function.accept` calls
  `visit_function_definition`, but the visitor defines
  `visit_function_declaration`. The model dispatches to the declaration
  visitor.
- The newest evaluator tests `OperatorType.DIVIDE_INTEGER`, which the
  newest `OperatorType.py` does not define. The model includes integer
  division, as the evaluator's own branch describes it.
- A function definition node has one `passed_variables` dictionary and one
  closure slot. Recursive calls therefore share them, as in the source.
  The model keeps one such entry per block identity.
- The newest `Block` starts with no closure and no passed variables. This
  is taken from the evaluator's use of the node, because the node's own
  source file is not part of this model.
- The earliest evaluator's assignment has no index form. Its matrices
  stay syntax nodes, so arithmetic on them is a TypeError.
- The parser in `Parser/Parser.py` pulls tokens from the lexer one at a time. The model hands it the whole token stream instead. A lexer error is kept beside the stream and reported when the parser reaches it.
- The `Scalar` and `Literal` node classes are not part of this model.
  Literals are values of the syntax tree in `ast.dfy`.
- NeoParser.Parser.ParseExpression: treats only the literal with no rows
  as false. Parser/Parser.py:208 keeps a matrix only when it is true, and
  Objects/Expressions/Matrix.py:34-35 makes a matrix false when every cell
  equals 0. The cells are `Scalar` nodes, and their class is not part of
  this model. The model takes a `Scalar` node to be unequal to 0, as Python
  does for an object without its own equality. So `[]` is the only false
  literal.
- NeoParser.ParseText: proves one direction only. A successful parse
  consumes exactly the written form of the program it returns, and that
  program has no empty matrix literal or row. The converse is not proved:
  that every token stream spelling such a program is accepted and gives
  that program back.
- NeoParser.Parser.ParseProgram: the same, for the program; every other
  parsing method likewise states only what it read on success and which
  first tokens make it fail.
- LexerSpec.IdentEnd: letters and digits are ASCII only. Python's
  `str.isalpha()` and `str.isdigit()` in Lexer/Lexer.py:53-54 also accept
  other Unicode letters and digits, so `zmienną` is one identifier there.
  The model stops the word at `ą`.
- LexerSpec.DigitsEnd: digits are `0` to `9` only. Python's `isdigit()`
  in Lexer/Lexer.py:71-92 also accepts other Unicode digits, such as `٣`.
- NeoLexer.Lexer.TryBuildIdentifierOrReservedWord: starts a word only at
  an ASCII letter, for the reason given for `LexerSpec.IdentEnd`.
- NeoLexer.Lexer.ReadWord: reads ASCII letters, digits and `_` only, as
  `LexerSpec.IdentEnd` does.
- NeoLexer.Lexer.ReadDigits: reads ASCII digits only, as
  `LexerSpec.DigitsEnd` does.
- NeoLexer.Lexer.TryBuildScalar: starts a scalar only at an ASCII digit,
  for the reason given for `LexerSpec.DigitsEnd`.
- NeoInterpreter.Visitor.Eval: states only the evaluator invariant (heap
  growth, values in the heap, and the scope stack restored on success).
  The value it computes is not tied to a reference function. Operators go
  through `Perform`, which is tied to `ApplyPlan`. As written, a block exit
  can pop a scope its entry did not push. A ghost counter records each such
  exit, and the stack is promised back only when the counter did not move.
  Under `Repaired` it never moves.
- NeoInterpreter.Visitor.Exec: states the same invariant only, and the
  value of a `return` of a literal.
- NeoInterpreter.Visitor.VisitMatrix: the grid's cells are tied to the
  literal's cells only where those are literals; a cell given by another
  expression is whatever `Eval` gave, which has no reference function.
- NeoInterpreter.Visitor.RunInstructions: does not tie the block's value
  to the value of the last instruction run in general, only when that
  instruction returns a literal, because `Exec` has no reference function.
- NeoInterpreter.Visitor.PassArguments: states which parameters are
  bound, not to which values. A nested call of the same function while the
  arguments are evaluated writes the same dictionary, in the source as
  here, and the values are `Eval`'s.
- NeoInterpreter.Visitor.VisitIf: states the same invariant only.
- NeoInterpreter.Visitor.VisitWhile: states the same invariant only.
- NeoInterpreter.Visitor.VisitAssignment: states the write only for a
  literal value and literal number indices; otherwise the same invariant
  only. The write itself is stated by `Reassign` and `WriteCell`.
- NeoInterpreter.Visitor.VisitAccess: states the same invariant only. The
  cell read is stated by `NeoValues.AccessGivesCell`.
- NeoInterpreter.Visitor.VisitProperty: states the same invariant only.
- NeoInterpreter.Visitor.VisitUnary: states the same invariant only.
- NeoInterpreter.Visitor.VisitBinary: states the same invariant only.
- NeoInterpreter.Visitor.BinaryWith: states the same invariant only.
- NeoInterpreter.Visitor.VisitBlock: states the same invariant only.
- NeoInterpreter.Visitor.VisitFunctionCall: states the same invariant
  only.
- NeoMiddle.Visitor.Eval: states only the middle evaluator's invariant
  (heap growth, values in the heap, and on success only the top scope
  changed). The value it computes is not tied to a reference function.
- NeoMiddle.Visitor.VisitAssignment: states the write as `Assign` and
  `CellWrite` only for a literal value and literal number indices;
  otherwise only that a plain assignment binds the name in the top scope.
  The write itself is stated by `AssignTop` and `WriteCell`.
- NeoMiddle.Visitor.RunInstructions: ties the block's value to the first
  value other than None, and to a `return` of a literal, but not in
  general to the instruction's value, for the reason given for the newest
  evaluator.
- NeoMiddle.Visitor.PassArguments: states which parameters are bound, not
  to which values, as for the newest evaluator.
- NeoMiddle.Visitor.VisitIf: states the same invariant only.
- NeoMiddle.Visitor.VisitWhile: states the same invariant only.
- NeoMiddle.Visitor.VisitAccess: states the same invariant only.
- NeoMiddle.Visitor.VisitProperty: states the same invariant only.
- NeoMiddle.Visitor.VisitUnary: states the same invariant only.
- NeoMiddle.Visitor.VisitBinary: states the same invariant only.
- NeoMiddle.Visitor.BinaryWith: states the same invariant only.
- NeoEarliest.Visitor.Eval: states only that the bound names are kept.
  The value it computes is not tied to a reference function.
- NeoEarliest.Visitor.VisitBlock: states only that the bound names are
  kept.
- NeoEarliest.Visitor.RunToReturn: ties the block's value to the `return`
  only when it returns a literal; in general the value is whatever `Exec`
  gave, which has no reference function.
- NeoEarliest.Visitor.VisitFunctionCall: states which parameters are
  bound in the body's passed variables, not to which values.
- NeoInterpreter.Run: says how a run ends, not what state it ends in.
- NeoMiddle.Run: says how a run ends, not what state it ends in.
- NeoEarliest.Run: says how a run ends, not what state it ends in.

## Findings

| source | as written | input that shows it | evidently intended | confidence | as-written member | corrected member |
|---|---|---|---|---|---|---|
| Lexer/Lexer.py:139-140 | the string limit is tested with `len(chars) > MAX`, so `MAX + 1` characters pass | a string literal of 501 characters under the default limit of 500 | at most `MAX` characters, as the identifier limit is tested with `>=` | not executed | LexerProperties.StringLimitAsWritten, LexerProperties.DefaultStringLimitAsWritten | LexerProperties.StringLimit |
| Lexer/Lexer.py:113-126 | a character that may open a two-character operator is consumed before the pair is checked; when it forms no token the step returns False, and the next step reads the following character in its place | `!(` lexes as `(`, and the `!` vanishes | CANT_IDENTIFY_TOKEN at the `!` | not executed | LexerProperties.BangSwallowedAsWritten | LexerProperties.BangRejected |
| language/interpreter/Interpreter.py:81-87 | on exit, `block.closure` is read again; a function that returns itself has just had its closure set, so a scope that was never pushed is popped | a function with one parameter whose body returns the function itself, called at top level, pops the global scope | pop exactly the scopes pushed on entry | not executed | NeoInterpreter.SelfReturnPopsCallerFrame, NeoInterpreter.SelfReturningFunctionEmptiesStack | NeoInterpreter.BlockExitRestoresStack |
| Interpreter/Visitor.py:118 | a list is indexed with the literal's float value, which Python refuses | `m[0, 0]` on any matrix | the cell at the whole-number indices | not executed | NeoEarliest.AccessAlwaysFails | NeoEarliest.AccessGivesNode |
