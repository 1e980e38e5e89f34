/** The older recursive-descent parser (`Parser/Parser.py`). It reads the
    token stream of the older lexer one token at a time; every parsing
    method either returns the node it recognised or the first syntax error.

    The lexer is lazy: the parser asks for the next token only when it
    consumes one, so a lexical error surfaces at the point where the bad
    token would have been read. The model keeps this by holding the tokens
    the lexer yields up to its first error, together with that error. */
module NeoParser {
  import opened Wrappers
  import opened Tokens
  import opened LexerSpec

  /** The configuration the older lexer runs with under this parser. */
  const LegacyConfig: Config := Config(LegacyTables, 100, 500, AsWritten)

  /** What a failed check wanted: a token kind (`expect`), or the equal sign
      or left round bracket that must follow an identifier statement. */
  datatype Expected = Kind(kind: TokenType) | AssignOrCall

  /** `InvalidSyntax` carries the position of the offending token, what was
      expected, and the kind and value found; a lexical error raised while
      fetching the next token propagates unchanged. */
  datatype ParseError =
    | InvalidSyntax(line: int, column: int, expected: Expected, givenKind: TokenType, givenValue: TokenValue)
    | LexFailure(error: LexError)

  function Mismatch(t: Tok, e: Expected): ParseError {
    InvalidSyntax(t.line, t.column, e, t.kind, t.value)
  }

  // ---------------------------------------------------------------------
  // The syntax tree this parser builds

  /** An expression is only a matrix literal or a scalar literal; a matrix
      is a list of rows of scalar values whose lengths are not compared.
      `parse_expression` keeps a matrix only when it is truthy, and a
      literal with no rows is not: it is dropped and a scalar must follow.
      `afterEmpty` records that such a dropped `[]` was read before the
      scalar, so that the node still spells the tokens it was read from. */
  datatype Expression =
    | MatrixLiteral(rows: seq<seq<TokenValue>>)
    | ScalarLiteral(value: TokenValue, afterEmpty: bool)

  datatype Block = Block(instructions: seq<Instruction>)

  datatype Instruction =
    | BlockInstruction(block: Block)
    | IfStatement(condition: Expression, main: Block, otherwise: Option<Block>)
    | WhileLoop(condition: Expression, body: Block)
    | ReturnInstruction(expression: Option<Expression>)
    | FunctionCall(name: TokenValue, arguments: seq<Expression>)
    | Assignment(name: TokenValue, value: Expression)

  datatype TopLevel =
    | FunctionDefinition(name: TokenValue, parameters: seq<TokenValue>, body: Block)
    | Statement(instruction: Instruction)

  datatype Program = Program(objects: seq<TopLevel>)

  /** `object.property`, recognised by `parse_property`. */
  datatype Property = Property(objectName: TokenValue, propertyName: TokenValue)

  // ---------------------------------------------------------------------
  // The tokens a node is written with

  /** One token of a node's written form: a punctuation or keyword token,
      for which only the kind matters, or a name or scalar token, whose
      value the node keeps. */
  datatype Piece = Sym(kind: TokenType) | Val(kind: TokenType, value: TokenValue)

  /** The piece a token of this kind and value stands for. */
  function Spell(kind: TokenType, value: TokenValue): (p: Piece)
    ensures p.kind == kind
  {
    if kind == Identifier || kind == Scalar then Val(kind, value) else Sym(kind)
  }

  function PieceOf(t: Tok): Piece {
    Spell(t.kind, t.value)
  }

  /** The written form of a stretch of tokens. */
  function Pieces(s: seq<Tok>): (ps: seq<Piece>)
    ensures |ps| == |s|
  {
    if |s| == 0 then [] else Pieces(s[..|s| - 1]) + [PieceOf(s[|s| - 1])]
  }

  function RenderValues(kind: TokenType, vs: seq<TokenValue>): (ps: seq<Piece>)
    ensures |vs| > 0 ==> |ps| == 2 * |vs| - 1
    ensures |vs| == 0 ==> ps == []
  {
    if |vs| == 0 then []
    else if |vs| == 1 then [Val(kind, vs[0])]
    else RenderValues(kind, vs[..|vs| - 1]) + [Sym(Comma)] + [Val(kind, vs[|vs| - 1])]
  }

  function RenderRow(row: seq<TokenValue>): seq<Piece> {
    [Sym(OpAngleBracket)] + RenderValues(Scalar, row) + [Sym(ClAngleBracket)]
  }

  function RenderRows(rows: seq<seq<TokenValue>>): seq<Piece> {
    if |rows| == 0 then [] else RenderRows(rows[..|rows| - 1]) + RenderRow(rows[|rows| - 1])
  }

  function RenderExpression(e: Expression): (ps: seq<Piece>)
    ensures |ps| > 0
  {
    match e
    case ScalarLiteral(v, afterEmpty) =>
      (if afterEmpty then [Sym(OpSquareBracket), Sym(ClSquareBracket)] else []) + [Val(Scalar, v)]
    case MatrixLiteral(rows) => [Sym(OpSquareBracket)] + RenderRows(rows) + [Sym(ClSquareBracket)]
  }

  /** A comma-separated list of expressions. */
  function RenderArguments(args: seq<Expression>): (ps: seq<Piece>)
    ensures args == [] <==> ps == []
  {
    if |args| == 0 then []
    else if |args| == 1 then RenderExpression(args[0])
    else RenderArguments(args[..|args| - 1]) + [Sym(Comma)] + RenderExpression(args[|args| - 1])
  }

  function RenderBlock(b: Block): (ps: seq<Piece>)
    ensures |ps| >= 2
    decreases b, 1
  {
    [Sym(OpCurlyBracket)] + RenderInstructions(b.instructions) + [Sym(ClCurlyBracket)]
  }

  function RenderInstructions(s: seq<Instruction>): seq<Piece>
    decreases s, 0
  {
    if |s| == 0 then [] else RenderInstructions(s[..|s| - 1]) + RenderInstruction(s[|s| - 1])
  }

  function RenderInstruction(i: Instruction): (ps: seq<Piece>)
    ensures |ps| > 0
    decreases i, 0
  {
    match i
    case BlockInstruction(b) => RenderBlock(b)
    case IfStatement(c, m, o) =>
      [Sym(If)] + Guarded(c, m) + (if o.Some? then [Sym(Else)] + RenderBlock(o.value) else [])
    case WhileLoop(c, b) =>
      [Sym(While)] + Guarded(c, b)
    case ReturnInstruction(e) =>
      [Sym(Return)] + (if e.Some? then RenderExpression(e.value) else []) + [Sym(Semicolon)]
    case FunctionCall(n, args) =>
      [Val(Identifier, n), Sym(OpRoundBracket)] + RenderArguments(args) + [Sym(ClRoundBracket)] + [Sym(Semicolon)]
    case Assignment(n, e) =>
      [Val(Identifier, n), Sym(Assign)] + RenderExpression(e) + [Sym(Semicolon)]
  }

  /** `( condition ) block`, as after `if` and `while`. */
  function Guarded(c: Expression, b: Block): seq<Piece>
    decreases b, 2
  {
    [Sym(OpRoundBracket)] + RenderExpression(c) + [Sym(ClRoundBracket)] + RenderBlock(b)
  }

  function RenderTopLevel(t: TopLevel): (ps: seq<Piece>)
    ensures |ps| > 0
  {
    match t
    case FunctionDefinition(n, ps, b) =>
      [Sym(Function), Val(Identifier, n), Sym(OpRoundBracket)] + RenderValues(Identifier, ps)
      + [Sym(ClRoundBracket)] + RenderBlock(b)
    case Statement(i) => RenderInstruction(i)
  }

  function RenderObjects(s: seq<TopLevel>): seq<Piece> {
    if |s| == 0 then [] else RenderObjects(s[..|s| - 1]) + RenderTopLevel(s[|s| - 1])
  }

  /** A whole program is its objects followed by the end-of-input token. */
  function RenderProgram(p: Program): seq<Piece> {
    RenderObjects(p.objects) + [Sym(Eof)]
  }

  function RenderProperty(p: Property): seq<Piece> {
    [Val(Identifier, p.objectName), Sym(Dot), Val(Identifier, p.propertyName)]
  }

  // ---------------------------------------------------------------------
  // The nodes the parser can build

  /** An expression `parse_expression` can return: a matrix literal has a
      row, since the empty one is dropped, and every row has a scalar. */
  predicate ReadableExpression(e: Expression) {
    e.MatrixLiteral? ==> |e.rows| > 0 && forall k | 0 <= k < |e.rows| :: |e.rows[k]| > 0
  }

  predicate ReadableArguments(args: seq<Expression>) {
    forall k | 0 <= k < |args| :: ReadableExpression(args[k])
  }

  predicate ReadableBlock(b: Block)
    decreases b, 1
  {
    forall k | 0 <= k < |b.instructions| :: ReadableInstruction(b.instructions[k])
  }

  predicate ReadableInstruction(i: Instruction)
    decreases i, 0
  {
    match i
    case BlockInstruction(b) => ReadableBlock(b)
    case IfStatement(c, m, o) => ReadableExpression(c) && ReadableBlock(m) && (o.Some? ==> ReadableBlock(o.value))
    case WhileLoop(c, b) => ReadableExpression(c) && ReadableBlock(b)
    case ReturnInstruction(e) => e.Some? ==> ReadableExpression(e.value)
    case FunctionCall(_, args) => ReadableArguments(args)
    case Assignment(_, e) => ReadableExpression(e)
  }

  predicate ReadableTopLevel(t: TopLevel) {
    match t
    case FunctionDefinition(_, _, b) => ReadableBlock(b)
    case Statement(i) => ReadableInstruction(i)
  }

  predicate ReadableProgram(p: Program) {
    forall k | 0 <= k < |p.objects| :: ReadableTopLevel(p.objects[k])
  }

  // ---------------------------------------------------------------------
  // The token stream

  /** The kinds `try_parse_instruction` accepts as the start of an
      instruction. */
  predicate StartsInstruction(k: TokenType) {
    k == If || k == While || k == OpCurlyBracket || k == Return || k == Identifier
  }

  /** What the lexer yields: tokens up to and including the end-of-input
      token, or up to a lexical error, which is then kept beside them. */
  predicate StreamShape(tokens: seq<Tok>, failure: Option<LexError>) {
    && |tokens| > 0
    && (forall k | 0 <= k < |tokens| - 1 :: tokens[k].kind != Eof)
    && (failure.None? <==> tokens[|tokens| - 1].kind == Eof)
  }

  /** With a lexical error the stream holds no end-of-input token. */
  lemma {:induction false} TokenizeShape(cfg: Config, text: string, i: nat)
    ensures Tokenize(cfg, text, i).1.Some? ==> forall k | 0 <= k < |Tokenize(cfg, text, i).0| :: Tokenize(cfg, text, i).0[k].kind != Eof
    decreases |text| + 1 - i
  {
    match NextToken(cfg, text, i)
    case Failure(e) =>
    case Success((t, j)) =>
      if t.kind != Eof {
        ClassifyAdvances(cfg, text, SkipTrivia(text, i));
        TokenizeShape(cfg, text, j);
      }
  }

  class Parser {
    const tokens: seq<Tok>
    const failure: Option<LexError>
    /** Index of the lexer's current token. */
    var pos: nat
    /** The written form of the tokens consumed so far. */
    ghost var spelled: seq<Piece>

    ghost predicate Valid()
      reads this
    {
      && pos < |tokens| && spelled == Pieces(tokens[..pos])
      && (failure.None? ==> tokens[|tokens| - 1].kind == Eof)
    }

    /** The lexer's current token. */
    function Current(): Tok
      reads this
      requires Valid()
    {
      tokens[pos]
    }

    /** The constructor reads the first token. */
    constructor (tokens: seq<Tok>, failure: Option<LexError>)
      requires |tokens| > 0 && (failure.None? ==> tokens[|tokens| - 1].kind == Eof)
      ensures Valid() && this.tokens == tokens && this.failure == failure && pos == 0 && spelled == []
    {
      this.tokens := tokens;
      this.failure := failure;
      pos := 0;
      spelled := [];
    }

    /** `build_next_token`: the next token, the lexical error that stopped
        the stream, or, at end of input, the end-of-input token again. */
    method Advance() returns (r: Outcome<ParseError>)
      requires Valid()
      modifies this
      ensures Valid()
      ensures r.Pass? <==> old(pos) + 1 < |tokens| || failure.None?
      ensures r.Pass? && old(pos) + 1 < |tokens| ==> pos == old(pos) + 1 && spelled == old(spelled) + [PieceOf(old(Current()))]
      ensures r.Pass? && old(pos) + 1 == |tokens| ==> old(Current()).kind == Eof && pos == old(pos) && spelled == old(spelled)
      ensures r.Fail? ==> failure.Some? && r.error == LexFailure(failure.value) && pos == old(pos)
    {
      if pos + 1 < |tokens| {
        PiecesSnoc(tokens, pos);
        spelled := spelled + [PieceOf(tokens[pos])];
        pos := pos + 1;
        r := Pass;
      } else if failure.Some? {
        r := Fail(LexFailure(failure.value));
      } else {
        r := Pass;
      }
    }

    /** `check_type`. */
    function CheckType(kind: TokenType): (b: bool)
      reads this
      requires Valid()
      ensures b <==> tokens[pos].kind == kind
    {
      Current().kind == kind
    }

    /** `expect`: on a match, the current token is returned and the next one
        read; otherwise an `InvalidSyntax` naming the position, the expected
        kind and the kind and value found, with nothing consumed. */
    method Expect(kind: TokenType) returns (r: Result<Tok, ParseError>)
      requires Valid()
      modifies this
      ensures Valid()
      ensures r.Success? <==> old(Current()).kind == kind && (old(pos) + 1 < |tokens| || failure.None?)
      ensures r.Success? ==> r.value == old(Current())
      ensures r.Success? && kind != Eof ==> pos == old(pos) + 1 && spelled == old(spelled) + [PieceOf(r.value)]
      ensures r.Success? && kind == Eof && StreamShape(tokens, failure) ==> pos == old(pos) == |tokens| - 1 && failure.None? && spelled == old(spelled)
      ensures old(Current()).kind != kind ==> r == Failure(Mismatch(old(Current()), Kind(kind))) && pos == old(pos)
      ensures r.Failure? && old(Current()).kind == kind ==> failure.Some? && r.error == LexFailure(failure.value)
    {
      var t := Current();
      if t.kind != kind {
        return Failure(Mismatch(t, Kind(kind)));
      }
      var step := Advance();
      if step.Fail? {
        return Failure(step.error);
      }
      r := Success(t);
    }

    /** Consumes a punctuation or keyword token the caller has checked. */
    method Skip(ghost kind: TokenType) returns (r: Outcome<ParseError>)
      requires Valid() && Current().kind == kind && kind != Eof && kind != Identifier && kind != Scalar
      modifies this
      ensures Valid()
      ensures r.Pass? ==> pos == old(pos) + 1 && spelled == old(spelled) + [Sym(kind)]
      ensures r.Fail? ==> failure.Some? && r.error == LexFailure(failure.value) && old(pos) + 1 == |tokens|
    {
      r := Advance();
    }

    /** `expect` for a token inside a longer construct: the value of the
        matched token, which is appended to the written form. */
    method ExpectNext(kind: TokenType) returns (r: Result<TokenValue, ParseError>)
      requires Valid() && kind != Eof
      modifies this
      ensures Valid()
      ensures r.Success? ==> pos == old(pos) + 1 && spelled == old(spelled) + [Spell(kind, r.value)]
      ensures r.Success? ==> r.value == old(Current()).value
      ensures old(Current()).kind != kind ==> r == Failure(Mismatch(old(Current()), Kind(kind)))
      ensures old(Current()).kind == kind && old(pos) + 1 < |tokens| ==> r.Success?
      ensures r.Failure? ==> r.error == Mismatch(old(Current()), Kind(kind)) || (failure.Some? && r.error == LexFailure(failure.value))
    {
      var t :- Expect(kind);
      r := Success(t.value);
    }

    // -------------------------------------------------------------------
    // Program and functions

    /** `parse_program`: function definitions and instructions for as long
        as one starts, then the end-of-input token; the program spells the
        whole rest of the token stream, which ended without a lexical
        error. */
    method ParseProgram() returns (r: Result<Program, ParseError>)
      requires Valid() && StreamShape(tokens, failure)
      modifies this
      ensures Valid()
      ensures r.Success? ==> && spelled + [PieceOf(Current())] == old(spelled) + RenderProgram(r.value)
                             && pos == |tokens| - 1 && failure.None?
      ensures r.Success? ==> ReadableProgram(r.value)
    {
      ghost var before := spelled;
      var objects: seq<TopLevel> := [];
      while true
        invariant Valid() && spelled == before + RenderObjects(objects)
        invariant ReadableProgram(Program(objects))
        decreases |tokens| - pos
      {
        ghost var prefix := spelled;
        var f := TryParseFunction();
        if f.Failure? {
          return Failure(f.error);
        }
        if f.value.Some? {
          ObjectsGrow(before, objects, f.value.value, prefix, spelled);
          ProgramReadableSnoc(objects, f.value.value);
          objects := objects + [f.value.value];
          continue;
        }
        var i := TryParseInstruction();
        if i.Failure? {
          return Failure(i.error);
        }
        if i.value.None? {
          break;
        }
        assert RenderTopLevel(Statement(i.value.value)) == RenderInstruction(i.value.value);
        ObjectsGrow(before, objects, Statement(i.value.value), prefix, spelled);
        ProgramReadableSnoc(objects, Statement(i.value.value));
        objects := objects + [Statement(i.value.value)];
      }
      var eof :- Expect(Eof);
      ProgramCloses(before, objects, Current());
      r := Success(Program(objects));
    }

    /** `try_parse_function`: nothing unless the current token is
        `function`; then a name, `(`, the parameters, `)` and a block. */
    method TryParseFunction() returns (r: Result<Option<TopLevel>, ParseError>)
      requires Valid()
      modifies this
      ensures Valid()
      ensures old(Current()).kind != Function ==> r == Success(None) && pos == old(pos)
      ensures old(Current()).kind == Function && r.Success? ==> r.value.Some? && r.value.value.FunctionDefinition?
      ensures r.Success? && r.value.Some? ==> ReadableTopLevel(r.value.value)
      ensures r.Success? && r.value.Some? ==> spelled == old(spelled) + RenderTopLevel(r.value.value) && pos > old(pos)
    {
      if !CheckType(Function) {
        return Success(None);
      }
      ghost var before := spelled;
      var s := Skip(Function);
      if s.Fail? {
        return Failure(s.error);
      }
      var name :- ExpectNext(Identifier);
      FunctionHead(before, name);
      var f :- ParseFunctionRest(before, name);
      r := Success(Some(f));
    }

    /** The rest of `try_parse_function`, after the name: `(`, the
        parameters, `)` and the body. */
    method ParseFunctionRest(ghost before: seq<Piece>, name: TokenValue) returns (r: Result<TopLevel, ParseError>)
      requires Valid() && spelled == before + [Sym(Function), Val(Identifier, name)]
      modifies this
      ensures Valid()
      ensures r.Success? ==> r.value.FunctionDefinition? && r.value.name == name
      ensures r.Success? ==> ReadableTopLevel(r.value)
      ensures r.Success? ==> spelled == before + RenderTopLevel(r.value) && pos > old(pos)
    {
      var open :- ExpectNext(OpRoundBracket);
      ghost var started := spelled;
      var params :- ParseParameters();
      ghost var listed := spelled;
      var close :- ExpectNext(ClRoundBracket);
      ghost var closed := spelled;
      var body :- ParseBlock();
      FunctionSpelled(before, name, params, body, open, close, started, listed, closed, spelled);
      r := Success(FunctionDefinition(name, params, body));
    }

    /** `parse_parameters`: no parameters exactly when `)` follows;
        otherwise identifiers separated by commas, up to the first token
        that is not a comma. */
    method ParseParameters() returns (r: Result<seq<TokenValue>, ParseError>)
      requires Valid()
      modifies this
      ensures Valid()
      ensures old(Current()).kind == ClRoundBracket ==> r == Success([]) && pos == old(pos)
      ensures old(Current()).kind != ClRoundBracket && r.Success? ==> |r.value| > 0 && Current().kind != Comma
      ensures r.Success? ==> spelled == old(spelled) + RenderValues(Identifier, r.value)
    {
      if CheckType(ClRoundBracket) {
        assert spelled == spelled + [];
        return Success([]);
      }
      r := ParseCommaList(Identifier);
    }

    /** The loop of `parse_parameters`: one value of the given kind, then a
        comma and another for as long as a comma follows. */
    method ParseCommaList(kind: TokenType) returns (r: Result<seq<TokenValue>, ParseError>)
      requires Valid() && (kind == Identifier || kind == Scalar)
      modifies this
      ensures Valid()
      ensures r.Success? ==> |r.value| > 0 && Current().kind != Comma
      ensures r.Success? ==> spelled == old(spelled) + RenderValues(kind, r.value)
    {
      ghost var before := spelled;
      var first :- ExpectNext(kind);
      var values := [first];
      ValuesStart(before, kind, first);
      while CheckType(Comma)
        invariant Valid() && |values| > 0 && spelled == before + RenderValues(kind, values)
        decreases |tokens| - pos
      {
        ghost var prefix := spelled;
        var s := Skip(Comma);
        if s.Fail? {
          return Failure(s.error);
        }
        ghost var separated := spelled;
        var v :- ExpectNext(kind);
        ValuesGrow(before, kind, values, v, prefix, separated, spelled);
        values := values + [v];
      }
      r := Success(values);
    }

    /** `parse_arguments`: no arguments exactly when `)` follows;
        otherwise expressions separated by commas. */
    method ParseArguments() returns (r: Result<seq<Expression>, ParseError>)
      requires Valid()
      modifies this
      ensures Valid()
      ensures old(Current()).kind == ClRoundBracket ==> r == Success([]) && pos == old(pos)
      ensures old(Current()).kind != ClRoundBracket && r.Success? ==> |r.value| > 0 && Current().kind != Comma
      ensures r.Success? ==> spelled == old(spelled) + RenderArguments(r.value)
      ensures r.Success? ==> ReadableArguments(r.value)
    {
      if CheckType(ClRoundBracket) {
        assert spelled == spelled + [];
        return Success([]);
      }
      ghost var before := spelled;
      var first :- ParseExpression();
      var args := [first];
      assert RenderArguments(args) == RenderExpression(first);
      while CheckType(Comma)
        invariant Valid() && |args| > 0 && spelled == before + RenderArguments(args)
        invariant ReadableArguments(args)
        decreases |tokens| - pos
      {
        ghost var prefix := spelled;
        var s := Skip(Comma);
        if s.Fail? {
          return Failure(s.error);
        }
        ghost var separated := spelled;
        var e :- ParseExpression();
        ArgumentsGrow(before, args, e, prefix, separated, spelled);
        ArgumentsReadableSnoc(args, e);
        args := args + [e];
      }
      r := Success(args);
    }

    // -------------------------------------------------------------------
    // Blocks and instructions

    /** `try_parse_block`: nothing unless the current token is `{`. */
    method TryParseBlock() returns (r: Result<Option<Block>, ParseError>)
      requires Valid()
      modifies this
      ensures Valid()
      ensures old(Current()).kind != OpCurlyBracket ==> r == Success(None) && pos == old(pos)
      ensures old(Current()).kind == OpCurlyBracket && r.Success? ==> r.value.Some?
      ensures r.Success? && r.value.Some? ==> ReadableBlock(r.value.value)
      ensures r.Success? && r.value.Some? ==> spelled == old(spelled) + RenderBlock(r.value.value) && pos > old(pos)
      decreases |tokens| - pos, 1
    {
      if Current().kind != OpCurlyBracket {
        return Success(None);
      }
      var b :- ParseBlock();
      r := Success(Some(b));
    }

    /** `parse_block`: `{`, instructions until `}`, then `}`. */
    method ParseBlock() returns (r: Result<Block, ParseError>)
      requires Valid()
      modifies this
      ensures Valid()
      ensures r.Success? ==> spelled == old(spelled) + RenderBlock(r.value) && pos > old(pos)
      ensures r.Success? ==> ReadableBlock(r.value)
      ensures old(Current()).kind != OpCurlyBracket ==> r == Failure(Mismatch(old(Current()), Kind(OpCurlyBracket)))
      decreases |tokens| - pos, 0
    {
      ghost var before := spelled;
      ghost var start := pos;
      var open :- ExpectNext(OpCurlyBracket);
      var instructions: seq<Instruction> := [];
      BlockStarts(before, open);
      while !CheckType(ClCurlyBracket)
        invariant Valid() && pos > start
        invariant spelled == before + OpenBlock(instructions)
        invariant ReadableBlock(Block(instructions))
        decreases |tokens| - pos
      {
        ghost var prefix := spelled;
        var i :- ParseInstruction();
        BlockGrows(before, instructions, i, prefix, spelled);
        BlockReadableSnoc(instructions, i);
        instructions := instructions + [i];
      }
      ghost var prefix := spelled;
      var close :- ExpectNext(ClCurlyBracket);
      BlockCloses(before, instructions, close, prefix, spelled);
      r := Success(Block(instructions));
    }

    /** `try_parse_instruction`: an instruction only when the current token
        is `if`, `while`, `{`, `return` or an identifier. */
    method TryParseInstruction() returns (r: Result<Option<Instruction>, ParseError>)
      requires Valid()
      modifies this
      ensures Valid()
      ensures !StartsInstruction(old(Current()).kind) ==> r == Success(None) && pos == old(pos)
      ensures StartsInstruction(old(Current()).kind) && r.Success? ==> r.value.Some?
      ensures r.Success? && r.value.Some? ==> ReadableInstruction(r.value.value)
      ensures r.Success? && r.value.Some? ==> spelled == old(spelled) + RenderInstruction(r.value.value) && pos > old(pos)
      decreases |tokens| - pos, 3
    {
      if !StartsInstruction(Current().kind) {
        return Success(None);
      }
      var i :- ParseInstruction();
      r := Success(Some(i));
    }

    /** `parse_instruction`: a block, an `if`, a `while` or a `return`
        according to the current token, and otherwise an assignment or a
        call. */
    method ParseInstruction() returns (r: Result<Instruction, ParseError>)
      requires Valid()
      modifies this
      ensures Valid()
      ensures r.Success? ==> spelled == old(spelled) + RenderInstruction(r.value) && pos > old(pos)
      ensures r.Success? && old(Current()).kind == OpCurlyBracket ==> r.value.BlockInstruction?
      ensures r.Success? ==> ReadableInstruction(r.value)
      ensures r.Success? && old(Current()).kind == If ==> r.value.IfStatement?
      ensures r.Success? && old(Current()).kind == While ==> r.value.WhileLoop?
      ensures r.Success? && old(Current()).kind == Return ==> r.value.ReturnInstruction?
      ensures !StartsInstruction(old(Current()).kind) ==> r == Failure(Mismatch(old(Current()), Kind(Identifier)))
      decreases |tokens| - pos, 2
    {
      var b :- TryParseBlock();
      if b.Some? {
        return Success(BlockInstruction(b.value));
      }
      var i :- TryParseIf();
      if i.Some? {
        return Success(i.value);
      }
      var w :- TryParseWhile();
      if w.Some? {
        return Success(w.value);
      }
      var ret :- TryParseReturn();
      if ret.Some? {
        return Success(ret.value);
      }
      r := ParseAssignmentOrFunctionCall();
    }

    /** The part `try_parse_if` and `try_parse_while` share:
        `( expression ) block`. */
    method ParseGuarded() returns (r: Result<(Expression, Block), ParseError>)
      requires Valid()
      modifies this
      ensures Valid()
      ensures r.Success? ==> pos > old(pos) && spelled == old(spelled) + Guarded(r.value.0, r.value.1)
      ensures r.Success? ==> ReadableExpression(r.value.0) && ReadableBlock(r.value.1)
      decreases |tokens| - pos, 0
    {
      ghost var before := spelled;
      var open :- ExpectNext(OpRoundBracket);
      ghost var started := spelled;
      var condition :- ParseExpression();
      ghost var guarded := spelled;
      var close :- ExpectNext(ClRoundBracket);
      ghost var closed := spelled;
      var block :- ParseBlock();
      GuardedSpelled(before, condition, block, open, close, started, guarded, closed, spelled);
      r := Success((condition, block));
    }

    /** `try_parse_if`: `if ( expression ) block`, then `else block` when
        `else` follows. */
    method TryParseIf() returns (r: Result<Option<Instruction>, ParseError>)
      requires Valid()
      modifies this
      ensures Valid()
      ensures old(Current()).kind != If ==> r == Success(None) && pos == old(pos)
      ensures old(Current()).kind == If && r.Success? ==> r.value.Some? && r.value.value.IfStatement?
      ensures r.Success? && r.value.Some? ==> ReadableInstruction(r.value.value)
      ensures r.Success? && r.value.Some? ==> spelled == old(spelled) + RenderInstruction(r.value.value) && pos > old(pos)
      ensures r.Success? && r.value.Some? && r.value.value.otherwise.None? ==> Current().kind != Else
      decreases |tokens| - pos, 1
    {
      if !CheckType(If) {
        return Success(None);
      }
      ghost var before := spelled;
      var s := Skip(If);
      if s.Fail? {
        return Failure(s.error);
      }
      ghost var keyword := spelled;
      var guarded :- ParseGuarded();
      var (condition, main) := guarded;
      ghost var head := spelled;
      if CheckType(Else) {
        var e := Skip(Else);
        if e.Fail? {
          return Failure(e.error);
        }
        ghost var other := spelled;
        var otherwise :- ParseBlock();
        IfElseSpelled(before, condition, main, otherwise, keyword, head, other, spelled);
        r := Success(Some(IfStatement(condition, main, Some(otherwise))));
      } else {
        IfSpelled(before, condition, main, keyword, spelled);
        r := Success(Some(IfStatement(condition, main, None)));
      }
    }

    /** `try_parse_while`: `while ( expression ) block`. */
    method TryParseWhile() returns (r: Result<Option<Instruction>, ParseError>)
      requires Valid()
      modifies this
      ensures Valid()
      ensures old(Current()).kind != While ==> r == Success(None) && pos == old(pos)
      ensures old(Current()).kind == While && r.Success? ==> r.value.Some? && r.value.value.WhileLoop?
      ensures r.Success? && r.value.Some? ==> ReadableInstruction(r.value.value)
      ensures r.Success? && r.value.Some? ==> spelled == old(spelled) + RenderInstruction(r.value.value) && pos > old(pos)
      decreases |tokens| - pos, 1
    {
      if !CheckType(While) {
        return Success(None);
      }
      ghost var before := spelled;
      var s := Skip(While);
      if s.Fail? {
        return Failure(s.error);
      }
      ghost var keyword := spelled;
      var guarded :- ParseGuarded();
      var (condition, body) := guarded;
      WhileSpelled(before, condition, body, keyword, spelled);
      r := Success(Some(WhileLoop(condition, body)));
    }

    /** `try_parse_return`: `return`, an expression unless `;` comes next,
        then `;`. */
    method TryParseReturn() returns (r: Result<Option<Instruction>, ParseError>)
      requires Valid()
      modifies this
      ensures Valid()
      ensures old(Current()).kind != Return ==> r == Success(None) && pos == old(pos)
      ensures old(Current()).kind == Return && r.Success? ==> r.value.Some? && r.value.value.ReturnInstruction?
      ensures r.Success? && r.value.Some? ==> ReadableInstruction(r.value.value)
      ensures r.Success? && r.value.Some? ==> spelled == old(spelled) + RenderInstruction(r.value.value) && pos > old(pos)
      ensures r.Success? && r.value.Some? ==> (r.value.value.expression.None? <==> tokens[old(pos) + 1].kind == Semicolon)
    {
      if Current().kind != Return {
        return Success(None);
      }
      ghost var before := spelled;
      var s := Skip(Return);
      if s.Fail? {
        return Failure(s.error);
      }
      ghost var keyword := spelled;
      if CheckType(Semicolon) {
        var semi :- ExpectNext(Semicolon);
        ReturnSpelled(before, None, semi, keyword, keyword, spelled);
        r := Success(Some(ReturnInstruction(None)));
      } else {
        var e :- ParseExpression();
        ghost var valued := spelled;
        var semi :- ExpectNext(Semicolon);
        ReturnSpelled(before, Some(e), semi, keyword, valued, spelled);
        r := Success(Some(ReturnInstruction(Some(e))));
      }
    }

    /** `parse_assignment_or_functioncall`: an identifier, then either
        `( arguments ) ;` or `= expression ;`; any other token after the
        identifier is a syntax error expecting one of the two. */
    method ParseAssignmentOrFunctionCall() returns (r: Result<Instruction, ParseError>)
      requires Valid()
      modifies this
      ensures Valid()
      ensures old(Current()).kind != Identifier ==> r == Failure(Mismatch(old(Current()), Kind(Identifier)))
      ensures r.Success? ==> r.value.FunctionCall? || r.value.Assignment?
      ensures r.Success? ==> ReadableInstruction(r.value)
      ensures r.Success? ==> spelled == old(spelled) + RenderInstruction(r.value) && pos > old(pos)
      ensures && old(Current()).kind == Identifier && old(pos) + 1 < |tokens|
              && tokens[old(pos) + 1].kind != Assign && tokens[old(pos) + 1].kind != OpRoundBracket
              ==> r == Failure(Mismatch(tokens[old(pos) + 1], AssignOrCall))
    {
      ghost var before := spelled;
      var name :- ExpectNext(Identifier);
      if !(CheckType(Assign) || CheckType(OpRoundBracket)) {
        return Failure(Mismatch(Current(), AssignOrCall));
      }
      if CheckType(OpRoundBracket) {
        r := ParseCallRest(before, name);
      } else {
        r := ParseAssignmentRest(before, name);
      }
    }

    /** The call branch of `parse_assignment_or_functioncall`, after the
        name: `( arguments ) ;`. */
    method ParseCallRest(ghost before: seq<Piece>, name: TokenValue) returns (r: Result<Instruction, ParseError>)
      requires Valid() && Current().kind == OpRoundBracket && spelled == before + [Val(Identifier, name)]
      modifies this
      ensures Valid()
      ensures r.Success? ==> r.value.FunctionCall? && r.value.name == name && pos > old(pos)
      ensures r.Success? ==> ReadableInstruction(r.value)
      ensures r.Success? ==> spelled == before + RenderInstruction(r.value)
    {
      var s := Skip(OpRoundBracket);
      if s.Fail? {
        return Failure(s.error);
      }
      ghost var started := spelled;
      var args :- ParseArguments();
      ghost var listed := spelled;
      var close :- ExpectNext(ClRoundBracket);
      ghost var closed := spelled;
      var semi :- ExpectNext(Semicolon);
      CallSpelled(before, name, args, close, semi, started, listed, closed, spelled);
      r := Success(FunctionCall(name, args));
    }

    /** The assignment branch of `parse_assignment_or_functioncall`, after
        the name: `= expression ;`. */
    method ParseAssignmentRest(ghost before: seq<Piece>, name: TokenValue) returns (r: Result<Instruction, ParseError>)
      requires Valid() && Current().kind == Assign && spelled == before + [Val(Identifier, name)]
      modifies this
      ensures Valid()
      ensures r.Success? ==> r.value.Assignment? && r.value.name == name && pos > old(pos)
      ensures r.Success? ==> ReadableInstruction(r.value)
      ensures r.Success? ==> spelled == before + RenderInstruction(r.value)
    {
      var s := Skip(Assign);
      if s.Fail? {
        return Failure(s.error);
      }
      ghost var equated := spelled;
      var e :- ParseExpression();
      ghost var valued := spelled;
      var semi :- ExpectNext(Semicolon);
      AssignmentSpelled(before, name, e, semi, equated, valued, spelled);
      r := Success(Assignment(name, e));
    }

    // -------------------------------------------------------------------
    // Expressions

    /** `parse_expression`: a matrix when `[` comes next and the literal
        has a row; otherwise a scalar token, so that `[]` must be followed
        by a scalar and `x = [];` is a syntax error expecting SCALAR. */
    method ParseExpression() returns (r: Result<Expression, ParseError>)
      requires Valid()
      modifies this
      ensures Valid()
      ensures r.Success? ==> spelled == old(spelled) + RenderExpression(r.value) && pos > old(pos)
      ensures r.Success? ==> ReadableExpression(r.value)
      ensures r.Success? ==> (r.value.MatrixLiteral? || r.value.afterEmpty <==> old(Current()).kind == OpSquareBracket)
      ensures old(Current()).kind != OpSquareBracket && old(Current()).kind != Scalar ==> r == Failure(Mismatch(old(Current()), Kind(Scalar)))
      ensures && old(Current()).kind == OpSquareBracket && old(pos) + 2 < |tokens|
              && tokens[old(pos) + 1].kind == ClSquareBracket && tokens[old(pos) + 2].kind != Scalar
              ==> r == Failure(Mismatch(tokens[old(pos) + 2], Kind(Scalar)))
    {
      ghost var before := spelled;
      ghost var start := pos;
      var m :- TryParseMatrix();
      if m.Some? && m.value.rows != [] {
        return Success(m.value);
      }
      ghost var read := spelled;
      var v :- ExpectNext(Scalar);
      r := Success(ScalarLiteral(v, m.Some?));
      if m.Some? {
        assert read == before + [Sym(OpSquareBracket), Sym(ClSquareBracket)];
      }
    }

    /** `try_parse_matrix`: nothing unless `[` comes next; then rows until
        `]`. Row lengths are not compared. */
    method TryParseMatrix() returns (r: Result<Option<Expression>, ParseError>)
      requires Valid()
      modifies this
      ensures Valid()
      ensures old(Current()).kind != OpSquareBracket ==> r == Success(None) && pos == old(pos)
      ensures old(Current()).kind == OpSquareBracket && r.Success? ==> r.value.Some? && r.value.value.MatrixLiteral?
      ensures r.Success? && r.value.Some? ==> spelled == old(spelled) + RenderExpression(r.value.value) && pos > old(pos)
      ensures r.Success? && r.value.Some? ==> forall row | row in r.value.value.rows :: |row| > 0
      ensures && old(Current()).kind == OpSquareBracket && old(pos) + 2 < |tokens| && tokens[old(pos) + 1].kind == ClSquareBracket
              ==> r == Success(Some(MatrixLiteral([]))) && pos == old(pos) + 2
    {
      if !CheckType(OpSquareBracket) {
        return Success(None);
      }
      ghost var before := spelled;
      ghost var start := pos;
      var s := Skip(OpSquareBracket);
      if s.Fail? {
        return Failure(s.error);
      }
      MatrixStarts(before);
      var rows :- ParseMatrixRows(before);
      ghost var prefix := spelled;
      var close :- ExpectNext(ClSquareBracket);
      MatrixCloses(before, rows, close, prefix, spelled);
      r := Success(Some(MatrixLiteral(rows)));
    }

    /** The loop of `try_parse_matrix`: rows for as long as `]` does not
        come next. */
    method ParseMatrixRows(ghost before: seq<Piece>) returns (r: Result<seq<seq<TokenValue>>, ParseError>)
      requires Valid() && spelled == before + OpenMatrix([])
      modifies this
      ensures Valid()
      ensures r.Success? ==> spelled == before + OpenMatrix(r.value) && Current().kind == ClSquareBracket && pos >= old(pos)
      ensures r.Success? ==> forall row | row in r.value :: |row| > 0
      ensures old(Current()).kind == ClSquareBracket ==> r == Success([]) && pos == old(pos)
    {
      var rows: seq<seq<TokenValue>> := [];
      ghost var start := pos;
      while !CheckType(ClSquareBracket)
        invariant Valid() && pos >= start
        invariant spelled == before + OpenMatrix(rows)
        invariant forall row | row in rows :: |row| > 0
        invariant rows == [] ==> pos == start
        invariant tokens[start].kind == ClSquareBracket ==> rows == []
        decreases |tokens| - pos
      {
        ghost var prefix := spelled;
        var row :- ParseMatrixRow();
        MatrixGrows(before, rows, row, prefix, spelled);
        rows := rows + [row];
      }
      r := Success(rows);
    }

    /** `parse_matrix_row`: `<`, at least one scalar, more scalars each
        after a comma until `>`, then `>`. */
    method ParseMatrixRow() returns (r: Result<seq<TokenValue>, ParseError>)
      requires Valid()
      modifies this
      ensures Valid()
      ensures r.Success? ==> |r.value| > 0 && spelled == old(spelled) + RenderRow(r.value) && pos > old(pos)
      ensures old(Current()).kind != OpAngleBracket ==> r == Failure(Mismatch(old(Current()), Kind(OpAngleBracket)))
    {
      ghost var before := spelled;
      ghost var start := pos;
      var open :- ExpectNext(OpAngleBracket);
      var first :- ExpectNext(Scalar);
      var scalars := [first];
      RowStarts(before, first);
      while !CheckType(ClAngleBracket)
        invariant Valid() && |scalars| > 0 && pos > start
        invariant spelled == before + OpenRow(scalars)
        decreases |tokens| - pos
      {
        ghost var prefix := spelled;
        var comma :- ExpectNext(Comma);
        var v :- ExpectNext(Scalar);
        RowGrows(before, scalars, v, prefix);
        scalars := scalars + [v];
      }
      var close :- ExpectNext(ClAngleBracket);
      RowCloses(before, scalars);
      r := Success(scalars);
    }

    /** `parse_property`: identifier, `.`, identifier. */
    method ParseProperty() returns (r: Result<Property, ParseError>)
      requires Valid()
      modifies this
      ensures Valid()
      ensures r.Success? ==> spelled == old(spelled) + RenderProperty(r.value)
      ensures old(Current()).kind != Identifier ==> r == Failure(Mismatch(old(Current()), Kind(Identifier)))
    {
      ghost var before := spelled;
      var first :- ExpectNext(Identifier);
      var dot :- ExpectNext(Dot);
      var second :- ExpectNext(Identifier);
      PropertySpelled(before, first, dot, second);
      r := Success(Property(first, second));
    }
  }

  lemma Assoc(a: seq<Piece>, b: seq<Piece>, c: seq<Piece>)
    ensures (a + b) + c == a + (b + c)
  {
  }

  // Each list's written form grows at its end as the list does.

  /** A row being parsed: `<` and the scalars read so far. */
  function OpenRow(scalars: seq<TokenValue>): seq<Piece> {
    [Sym(OpAngleBracket)] + RenderValues(Scalar, scalars)
  }

  /** The first scalar of a row. */
  lemma RowStarts(before: seq<Piece>, first: TokenValue)
    ensures forall open :: before + [Spell(OpAngleBracket, open)] + [Spell(Scalar, first)] == before + OpenRow([first])
  {
  }

  /** One more `, scalar` inside a row being parsed. */
  lemma RowGrows(before: seq<Piece>, scalars: seq<TokenValue>, v: TokenValue, prefix: seq<Piece>)
    requires |scalars| > 0 && prefix == before + OpenRow(scalars)
    ensures forall comma :: prefix + [Spell(Comma, comma)] + [Spell(Scalar, v)] == before + OpenRow(scalars + [v])
  {
    ValuesSnoc(Scalar, scalars, v);
    assert OpenRow(scalars + [v]) == OpenRow(scalars) + [Sym(Comma)] + [Val(Scalar, v)];
  }

  /** The closing `>` completes the row. */
  lemma RowCloses(before: seq<Piece>, scalars: seq<TokenValue>)
    ensures forall close :: before + OpenRow(scalars) + [Spell(ClAngleBracket, close)] == before + RenderRow(scalars)
  {
  }

  /** `function name`, as consumed before the rest of a definition. */
  lemma FunctionHead(before: seq<Piece>, name: TokenValue)
    ensures before + [Sym(Function)] + [Spell(Identifier, name)] == before + [Sym(Function), Val(Identifier, name)]
  {
  }

  /** The pieces of a function definition, in the order they are read. */
  lemma FunctionSpelled(before: seq<Piece>, name: TokenValue, params: seq<TokenValue>, body: Block,
                        open: TokenValue, close: TokenValue,
                        started: seq<Piece>, listed: seq<Piece>, closed: seq<Piece>, final: seq<Piece>)
    requires started == before + [Sym(Function), Val(Identifier, name)] + [Spell(OpRoundBracket, open)]
    requires listed == started + RenderValues(Identifier, params)
    requires closed == listed + [Spell(ClRoundBracket, close)]
    requires final == closed + RenderBlock(body)
    ensures final == before + RenderTopLevel(FunctionDefinition(name, params, body))
  {
    var head := [Sym(Function), Val(Identifier, name), Sym(OpRoundBracket)];
    assert started == before + head;
    assert RenderTopLevel(FunctionDefinition(name, params, body))
        == head + RenderValues(Identifier, params) + [Sym(ClRoundBracket)] + RenderBlock(body);
  }

  /** The first value of a comma-separated list. */
  lemma ValuesStart(before: seq<Piece>, kind: TokenType, first: TokenValue)
    requires kind == Identifier || kind == Scalar
    ensures before + [Spell(kind, first)] == before + RenderValues(kind, [first])
  {
  }

  /** One more `, value` in a comma-separated list. */
  lemma ValuesGrow(before: seq<Piece>, kind: TokenType, values: seq<TokenValue>, v: TokenValue,
                   prefix: seq<Piece>, separated: seq<Piece>, final: seq<Piece>)
    requires (kind == Identifier || kind == Scalar) && |values| > 0
    requires prefix == before + RenderValues(kind, values)
    requires separated == prefix + [Sym(Comma)] && final == separated + [Spell(kind, v)]
    ensures final == before + RenderValues(kind, values + [v])
  {
    ValuesSnoc(kind, values, v);
  }

  /** One more `, expression` in an argument list. */
  lemma ArgumentsGrow(before: seq<Piece>, args: seq<Expression>, e: Expression,
                      prefix: seq<Piece>, separated: seq<Piece>, final: seq<Piece>)
    requires |args| > 0 && prefix == before + RenderArguments(args)
    requires separated == prefix + [Sym(Comma)] && final == separated + RenderExpression(e)
    ensures final == before + RenderArguments(args + [e])
  {
    var listed := RenderArguments(args);
    Assoc(before, listed, [Sym(Comma)]);
    Assoc(before, listed + [Sym(Comma)], RenderExpression(e));
    ArgumentsSnoc(args, e);
  }

  /** A block being parsed: `{` and the instructions read so far. */
  function OpenBlock(instructions: seq<Instruction>): seq<Piece> {
    [Sym(OpCurlyBracket)] + RenderInstructions(instructions)
  }

  lemma BlockStarts(before: seq<Piece>, open: TokenValue)
    ensures before + [Spell(OpCurlyBracket, open)] == before + OpenBlock([])
  {
  }

  lemma BlockGrows(before: seq<Piece>, instructions: seq<Instruction>, i: Instruction, prefix: seq<Piece>, final: seq<Piece>)
    requires prefix == before + OpenBlock(instructions) && final == prefix + RenderInstruction(i)
    ensures final == before + OpenBlock(instructions + [i])
  {
    InstructionsSnoc(instructions, i);
  }

  lemma BlockCloses(before: seq<Piece>, instructions: seq<Instruction>, close: TokenValue, prefix: seq<Piece>, final: seq<Piece>)
    requires prefix == before + OpenBlock(instructions) && final == prefix + [Spell(ClCurlyBracket, close)]
    ensures final == before + RenderBlock(Block(instructions))
  {
  }

  /** The pieces of `( condition ) block`, in the order they are read. */
  lemma GuardedSpelled(before: seq<Piece>, c: Expression, b: Block, open: TokenValue, close: TokenValue,
                       started: seq<Piece>, guarded: seq<Piece>, closed: seq<Piece>, final: seq<Piece>)
    requires started == before + [Spell(OpRoundBracket, open)]
    requires guarded == started + RenderExpression(c)
    requires closed == guarded + [Spell(ClRoundBracket, close)]
    requires final == closed + RenderBlock(b)
    ensures final == before + Guarded(c, b)
  {
  }

  lemma IfSpelled(before: seq<Piece>, c: Expression, m: Block, keyword: seq<Piece>, final: seq<Piece>)
    requires keyword == before + [Sym(If)] && final == keyword + Guarded(c, m)
    ensures final == before + RenderInstruction(IfStatement(c, m, None))
  {
  }

  lemma IfElseSpelled(before: seq<Piece>, c: Expression, m: Block, o: Block,
                      keyword: seq<Piece>, head: seq<Piece>, other: seq<Piece>, final: seq<Piece>)
    requires keyword == before + [Sym(If)] && head == keyword + Guarded(c, m)
    requires other == head + [Sym(Else)] && final == other + RenderBlock(o)
    ensures final == before + RenderInstruction(IfStatement(c, m, Some(o)))
  {
    var k, g, e, b := [Sym(If)], Guarded(c, m), [Sym(Else)], RenderBlock(o);
    Assoc(before, k, g);
    Assoc(before, k + g, e);
    Assoc(before, (k + g) + e, b);
    Assoc(k + g, e, b);
    assert RenderInstruction(IfStatement(c, m, Some(o))) == (k + g) + (e + b);
  }

  lemma WhileSpelled(before: seq<Piece>, c: Expression, b: Block, keyword: seq<Piece>, final: seq<Piece>)
    requires keyword == before + [Sym(While)] && final == keyword + Guarded(c, b)
    ensures final == before + RenderInstruction(WhileLoop(c, b))
  {
  }

  lemma ReturnSpelled(before: seq<Piece>, e: Option<Expression>, semi: TokenValue,
                      keyword: seq<Piece>, valued: seq<Piece>, final: seq<Piece>)
    requires keyword == before + [Sym(Return)]
    requires e.None? ==> valued == keyword
    requires e.Some? ==> valued == keyword + RenderExpression(e.value)
    requires final == valued + [Spell(Semicolon, semi)]
    ensures final == before + RenderInstruction(ReturnInstruction(e))
  {
  }

  lemma CallSpelled(before: seq<Piece>, name: TokenValue, args: seq<Expression>, close: TokenValue, semi: TokenValue,
                    started: seq<Piece>, listed: seq<Piece>, closed: seq<Piece>, final: seq<Piece>)
    requires started == before + [Val(Identifier, name)] + [Sym(OpRoundBracket)]
    requires listed == started + RenderArguments(args)
    requires closed == listed + [Spell(ClRoundBracket, close)]
    requires final == closed + [Spell(Semicolon, semi)]
    ensures final == before + RenderInstruction(FunctionCall(name, args))
  {
    var head, listing := [Val(Identifier, name), Sym(OpRoundBracket)], RenderArguments(args);
    assert started == before + head;
    Assoc(before, head, listing);
    Assoc(before, head + listing, [Sym(ClRoundBracket)]);
    Assoc(before, head + listing + [Sym(ClRoundBracket)], [Sym(Semicolon)]);
  }

  lemma AssignmentSpelled(before: seq<Piece>, name: TokenValue, e: Expression, semi: TokenValue,
                          equated: seq<Piece>, valued: seq<Piece>, final: seq<Piece>)
    requires equated == before + [Val(Identifier, name)] + [Sym(Assign)]
    requires valued == equated + RenderExpression(e)
    requires final == valued + [Spell(Semicolon, semi)]
    ensures final == before + RenderInstruction(Assignment(name, e))
  {
    var head := [Val(Identifier, name), Sym(Assign)];
    assert equated == before + head;
    Assoc(before, head, RenderExpression(e));
    Assoc(before, head + RenderExpression(e), [Sym(Semicolon)]);
  }

  /** A matrix being parsed: `[` and the rows read so far. */
  function OpenMatrix(rows: seq<seq<TokenValue>>): seq<Piece> {
    [Sym(OpSquareBracket)] + RenderRows(rows)
  }

  lemma MatrixStarts(before: seq<Piece>)
    ensures before + [Sym(OpSquareBracket)] == before + OpenMatrix([])
  {
  }

  lemma MatrixGrows(before: seq<Piece>, rows: seq<seq<TokenValue>>, row: seq<TokenValue>, prefix: seq<Piece>, final: seq<Piece>)
    requires prefix == before + OpenMatrix(rows) && final == prefix + RenderRow(row)
    ensures final == before + OpenMatrix(rows + [row])
  {
    RowsSnoc(rows, row);
  }

  lemma MatrixCloses(before: seq<Piece>, rows: seq<seq<TokenValue>>, close: TokenValue, prefix: seq<Piece>, final: seq<Piece>)
    requires prefix == before + OpenMatrix(rows) && final == prefix + [Spell(ClSquareBracket, close)]
    ensures final == before + RenderExpression(MatrixLiteral(rows))
  {
  }

  lemma PropertySpelled(before: seq<Piece>, first: TokenValue, dot: TokenValue, second: TokenValue)
    ensures before + [Spell(Identifier, first)] + [Spell(Dot, dot)] + [Spell(Identifier, second)]
         == before + RenderProperty(Property(first, second))
  {
  }

  lemma ObjectsGrow(before: seq<Piece>, objects: seq<TopLevel>, t: TopLevel, prefix: seq<Piece>, final: seq<Piece>)
    requires prefix == before + RenderObjects(objects) && final == prefix + RenderTopLevel(t)
    ensures final == before + RenderObjects(objects + [t])
  {
    ObjectsSnoc(objects, t);
  }

  lemma ProgramCloses(before: seq<Piece>, objects: seq<TopLevel>, last: Tok)
    requires last.kind == Eof
    ensures before + RenderObjects(objects) + [PieceOf(last)] == before + RenderProgram(Program(objects))
  {
  }

  lemma ValuesSnoc(kind: TokenType, vs: seq<TokenValue>, v: TokenValue)
    requires |vs| > 0
    ensures RenderValues(kind, vs + [v]) == RenderValues(kind, vs) + [Sym(Comma)] + [Val(kind, v)]
  {
    assert (vs + [v])[..|vs|] == vs;
  }

  lemma ArgumentsSnoc(args: seq<Expression>, e: Expression)
    requires |args| > 0
    ensures RenderArguments(args + [e]) == RenderArguments(args) + [Sym(Comma)] + RenderExpression(e)
  {
    assert (args + [e])[..|args|] == args;
  }

  lemma RowsSnoc(rows: seq<seq<TokenValue>>, row: seq<TokenValue>)
    ensures RenderRows(rows + [row]) == RenderRows(rows) + RenderRow(row)
  {
    assert (rows + [row])[..|rows|] == rows;
  }

  lemma InstructionsSnoc(s: seq<Instruction>, i: Instruction)
    ensures RenderInstructions(s + [i]) == RenderInstructions(s) + RenderInstruction(i)
  {
    assert (s + [i])[..|s|] == s;
  }

  // Each list stays readable as it grows.

  lemma ArgumentsReadableSnoc(args: seq<Expression>, e: Expression)
    requires ReadableArguments(args) && ReadableExpression(e)
    ensures ReadableArguments(args + [e])
  {
  }

  lemma BlockReadableSnoc(s: seq<Instruction>, i: Instruction)
    requires ReadableBlock(Block(s)) && ReadableInstruction(i)
    ensures ReadableBlock(Block(s + [i]))
  {
  }

  lemma ProgramReadableSnoc(s: seq<TopLevel>, t: TopLevel)
    requires ReadableProgram(Program(s)) && ReadableTopLevel(t)
    ensures ReadableProgram(Program(s + [t]))
  {
  }

  lemma ObjectsSnoc(s: seq<TopLevel>, t: TopLevel)
    ensures RenderObjects(s + [t]) == RenderObjects(s) + RenderTopLevel(t)
  {
    assert (s + [t])[..|s|] == s;
  }

  /** The written form of a stream cut at `k` and one more token. */
  lemma PiecesSnoc(s: seq<Tok>, k: nat)
    requires k < |s|
    ensures Pieces(s[..k]) + [PieceOf(s[k])] == Pieces(s[..k + 1])
  {
    assert s[..k + 1][..k] == s[..k];
  }

  /** `Parser(Lexer(text)).parse_program()`: the stream is read with the
      older tables; an empty stream means the very first token failed. On
      success the program is exactly the written form of the whole stream,
      which ends with the end-of-input token. */
  method ParseText(text: string) returns (r: Result<Program, ParseError>)
    ensures var (toks, err) := Tokenize(LegacyConfig, text, 0);
      && (|toks| == 0 ==> err.Some? && r == Failure(LexFailure(err.value)))
      && (r.Success? ==> err.None? && Pieces(toks) == RenderProgram(r.value) && ReadableProgram(r.value))
  {
    var (toks, err) := Tokenize(LegacyConfig, text, 0);
    if |toks| == 0 {
      return Failure(LexFailure(err.value));
    }
    TokenizeShape(LegacyConfig, text, 0);
    var p := new Parser(toks, err);
    r := p.ParseProgram();
    if r.Success? {
      PiecesSnoc(toks, p.pos);
      assert toks[..p.pos + 1] == toks;
    }
  }
}
