/** The syntax tree the semantic checker and the bytecode generator walk.
    Only the fields those two visitors read are kept. A node that lists
    operators beside operands (`Trm` with `AddOperators`/`Terms`,
    `MulOperand` with `MulOperators`/`MulOperands`) is one leading child
    followed by (operator, child) pairs. */
module Ast {
  import opened Basics

  /** `TypeAST::TypeKind`; `Void` is only the checker's initial `LastType`. */
  datatype TypeKind = Integer | Array | Void

  /** `IntegerTypeAST` and `ArrayTypeAST`, whose size is the decimal text of
      the declared element count. */
  datatype TypeSpec = IntegerType | ArrayType(size: string)
  {
    function Kind(): (k: TypeKind)
      ensures k != Void
    {
      if IntegerType? then Integer else Array
    }
  }

  datatype Relation = Equal | NotEqual | Less | LessEq | Greater | GreaterEq
  datatype AddOperator = Plus | Minus
  datatype MulOperator = Multiple | Divide | Modulo
  datatype UnaryOperator = UnaryPlus | UnaryMinus

  /** `ExpressionAST`: a simple expression, optionally compared with a
      second one. */
  datatype Expression =
    | Plain(lhs: SimpleExpression)
    | Relational(lhs: SimpleExpression, rel: Relation, rhs: SimpleExpression)

  /** The condition of `if`, `for` and `while`: always a comparison. */
  datatype Condition = Condition(lhs: SimpleExpression, rel: Relation, rhs: SimpleExpression)

  datatype SimpleExpression = SimpleExpression(first: Term, rest: seq<AddTerm>)
  datatype AddTerm = AddTerm(op: AddOperator, term: Term)

  datatype Term = Term(first: MulOperand, rest: seq<MulTerm>)
  datatype MulTerm = MulTerm(op: MulOperator, operand: MulOperand)

  datatype MulOperand = MulOperand(unary: Option<UnaryOperator>, factor: Factor)

  datatype Factor =
    | Identifier(name: string)
    | IntegerLiteral(text: string)
    | ArrayInitialization(elements: seq<Expression>)
    | GetByIndex(name: string, index: Expression)
    | ExpressionFactor(expr: Expression)
    | FunctionCall(name: string, args: seq<Expression>)

  datatype VariableDeclaration = VariableDeclaration(typ: TypeSpec, name: string, init: Option<Expression>)

  datatype Statement =
    | Declare(decl: VariableDeclaration)
    | If(condition: Condition, body: Block, elseBody: Block)
    | For(initialization: Statement, condition: Condition, update: Statement, body: Block)
    | While(condition: Condition, body: Block)
    | Break
    | Continue
    | Return(value: Option<Expression>)
    | Assign(lhs: Factor, rhs: Option<Expression>)
    | Print(printed: Expression)

  /** `StatementSequenceAST`. */
  datatype Block = Block(statements: seq<Statement>)

  /** One entry of `ArgumentsListAST` (`Types[i]`, `Idents[i]`). */
  datatype Argument = Argument(typ: TypeSpec, name: string)

  datatype Declaration =
    | Global(decl: VariableDeclaration)
    | Function(name: string, returnType: Option<TypeSpec>, arguments: seq<Argument>, body: Block)

  datatype CompilationUnit = CompilationUnit(declarations: seq<Declaration>)
}
