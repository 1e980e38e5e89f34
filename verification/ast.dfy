/** The syntax tree the three evaluators walk: expressions, instructions,
    blocks and function definitions. Node identity matters to the
    evaluators, because they keep state on nodes (a block's closure and
    passed variables, a matrix literal's rows); a node that carries such
    state has an `id`, and two nodes are the same object exactly when their
    ids are equal. */
module NeoAst {
  import opened Wrappers

  datatype UnaryOp = Negate | Not

  datatype BinaryOp =
    | Plus | Minus | Multiply | Divide | DivideInteger | Power
    | Equal | NotEqual | And | Or
    | Greater | GreaterOrEqual | Less | LessOrEqual

  /** The value a literal node holds. */
  datatype Literal = NumberLit(n: real) | BoolLit(b: bool) | StringLit(s: string)

  datatype Expression =
    | Lit(literal: Literal)
    | Ident(name: string)
      /** A matrix literal; `id` is the node's identity. */
    | MatrixNode(id: nat, rows: seq<seq<Expression>>)
      /** `target[first][second]`; the indices are literal numbers. */
    | Access(target: Expression, first: real, second: real)
    | PropertyOf(subject: Expression, property: string)
    | Unary(uop: UnaryOp, operand: Expression)
    | Binary(left: Expression, bop: BinaryOp, right: Expression)
    | Call(callee: string, arguments: seq<Expression>)

  /** The two index expressions of `name[first][second] = value`. */
  datatype Index = Index(first: Expression, second: Expression)

  /** Both index expressions are number literals. */
  predicate LiteralIndices(ix: Index) {
    ix.first.Lit? && ix.first.literal.NumberLit? && ix.second.Lit? && ix.second.literal.NumberLit?
  }

  /** `id` is the node's identity; `isFunctionBody` is the flag the middle
      evaluator reads (the others ignore it). */
  datatype Block = Block(id: nat, instructions: seq<Instruction>, isFunctionBody: bool)

  datatype FunctionDef = FunctionDef(name: string, parameters: seq<string>, body: Block)

  datatype Instruction =
    | Declaration(name: string, initialiser: Expression, mutable: bool)
    | Assignment(target: string, index: Option<Index>, value: Expression)
    | Nested(block: Block)
    | IfStatement(condition: Expression, main: Block, otherwise: Option<Block>)
    | WhileLoop(condition: Expression, body: Block)
    | Return(result: Option<Expression>)
    | CallStatement(callee: string, arguments: seq<Expression>)
    | FunctionDeclaration(definition: FunctionDef)

  /** `return` of a literal. */
  predicate ReturnsLiteral(ins: Instruction) {
    ins.Return? && ins.result.Some? && ins.result.value.Lit?
  }

  /** A program is its top-level objects: function declarations and
      instructions, in order. */
  type Program = seq<Instruction>
}
