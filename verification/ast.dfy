/** The IMP abstract syntax tree: one constructor per node class. Operators
    are kept as their token text, as the parser stores them. */
module Ast {
  import opened Wrappers

  datatype ArithExp =
    | IntAexp(i: int)
    | VarAexp(name: string)
    | BinopAexp(op: string, left: ArithExp, right: ArithExp)

  datatype BoolExp =
    | RelopBexp(op: string, lhs: ArithExp, rhs: ArithExp)
    | AndBexp(left: BoolExp, right: BoolExp)
    | OrBexp(left: BoolExp, right: BoolExp)
    | NotBexp(exp: BoolExp)

  datatype Statement =
    | AssignStatement(name: string, aexp: ArithExp)
    | CompoundStatement(first: Statement, second: Statement)
    | IfStatement(condition: BoolExp, trueStmt: Statement, falseStmt: Option<Statement>)
    | WhileStatement(condition: BoolExp, body: Statement)
}
