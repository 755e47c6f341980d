/** Abstract syntax of StaBL as the type checker leaves it: every name carries its declaration. */
module Ast {

  datatype Option<+T> = None | Some(value: T)

  /** A state is a reference; the chart lists the states, and a reference is an index. */
  type StateId = nat

  datatype Type = IntType | BooleanType | StringType

  datatype Scope = Local | Static | Parameter

  /** A variable; names are unique within the state that owns the declaration. */
  datatype Declaration = Declaration(owner: StateId, vname: string, scope: Scope, typ: Type)

  datatype Constant = IntegerConstant(i: int) | BooleanConstant(b: bool) | StringLiteral(s: string)

  datatype Operator = Plus | Minus | Times | Divide | Ge | Gt | Le | Lt | Ne | Eq | AndAlso | OrElse

  datatype Expression =
    | Literal(c: Constant)
    | Name(id: string, decl: Declaration)
    | Binary(left: Expression, right: Expression, op: Operator)

  datatype Statement =
    | Assignment(id: string, lhs: Declaration, rhs: Expression)
    | StatementList(statements: seq<Statement>)
    | IfStatement(condition: Expression, thenBody: Statement, elseBody: Statement)
    | WhileStatement(condition: Expression, body: Statement)
    | ExpressionStatement(expression: Expression)
    | SkipStatement
    | HaltStatement

  function TypeOfConstant(c: Constant): Type {
    match c
    case IntegerConstant(_) => IntType
    case BooleanConstant(_) => BooleanType
    case StringLiteral(_) => StringType
  }
}
