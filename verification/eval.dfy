/** The `eval` methods of the IMP tree: arithmetic and boolean expressions
    read a global environment, statements update it. The environment is a
    map from names to integers, threaded through instead of mutated.

    Two dialects are modelled. `AsWritten` does what the node classes do,
    including the two places where they go wrong: the else-branch of an
    `if`, and the comparison `=` that the grammar accepts but no node class
    knows. `Intended` repairs both, and is the semantics the laws about
    programs are stated for. */
module Eval {
  import opened Wrappers
  import opened Ast

  type Env = map<string, int>

  /** Why an evaluation stops with an exception. */
  datatype Error =
    | DivisionByZero          // `/` with a zero divisor
    | UnknownOperator(op: string)
    | UndefinedName(name: string)

  /** The value of an expression, or the exception its evaluation raises. */
  datatype Value<T> = Val(v: T) | Fail(err: Error)

  /** How running a statement ends: with the final environment, with an
      exception and the environment as the statements before it left it
      (the source updates its dictionary in place, so earlier assignments
      survive the exception), or with the fuel exhausted before a loop
      finished. */
  datatype Outcome = Done(env: Env) | Raised(err: Error, env: Env) | OutOfFuel

  datatype Dialect = AsWritten | Intended

  /** An interpreter: the dialect, and the quotient `/` computes for a
      non-zero divisor. */
  datatype Semantics = Semantics(dialect: Dialect, divide: (int, int) -> int)

  /** A variable's value; a name never assigned reads as 0. */
  function Lookup(env: Env, x: string): (v: int)
    ensures x in env ==> v == env[x]
    ensures x !in env ==> v == 0
  {
    if x in env then env[x] else 0
  }

  /** The arithmetic operators the evaluator knows. */
  const ArithOps: set<string> := {"+", "-", "*", "/"}

  /** Apply a binary arithmetic operator to two values. */
  function ApplyBinop(sem: Semantics, op: string, a: int, b: int): (r: Value<int>)
    ensures r.Fail? <==> op !in ArithOps || (op == "/" && b == 0)
    ensures r.Fail? ==> r.err == (if op in ArithOps then DivisionByZero else UnknownOperator(op))
  {
    if op == "+" then Val(a + b)
    else if op == "-" then Val(a - b)
    else if op == "*" then Val(a * b)
    else if op == "/" then (if b == 0 then Fail(DivisionByZero) else Val(sem.divide(a, b)))
    else Fail(UnknownOperator(op))
  }

  /** Evaluate an arithmetic expression: the left operand first, then the
      right, then the operator. */
  function EvalA(sem: Semantics, e: ArithExp, env: Env): (r: Value<int>)
    ensures e.IntAexp? ==> r == Val(e.i)
    ensures e.VarAexp? ==> r == Val(Lookup(env, e.name))
    ensures r.Fail? ==> !r.err.UndefinedName?
  {
    match e
    case IntAexp(i) => Val(i)
    case VarAexp(x) => Val(Lookup(env, x))
    case BinopAexp(op, left, right) =>
      match EvalA(sem, left, env)
      case Fail(err) => Fail(err)
      case Val(a) =>
        match EvalA(sem, right, env)
        case Fail(err) => Fail(err)
        case Val(b) => ApplyBinop(sem, op, a, b)
  }

  /** The relational operators the evaluator knows in each dialect; `=`
      only in the intended one. */
  function CompareOps(d: Dialect): set<string> {
    var written := {">", "<", "==", "!=", "<=", ">="};
    if d == Intended then written + {"="} else written
  }

  /** Apply a relational operator to two values. */
  function Compare(d: Dialect, op: string, a: int, b: int): (r: Value<bool>)
    ensures r.Val? <==> op in CompareOps(d)
    ensures r.Fail? ==> r.err == UnknownOperator(op)
  {
    if op == ">" then Val(a > b)
    else if op == "<" then Val(a < b)
    else if op == "==" then Val(a == b)
    else if op == "!=" then Val(a != b)
    else if op == "<=" then Val(a <= b)
    else if op == ">=" then Val(a >= b)
    else if op == "=" && d == Intended then Val(a == b)
    else Fail(UnknownOperator(op))
  }

  /** Evaluate a boolean expression. `and` and `or` evaluate both operands
      before combining them: there is no short-circuit. */
  function EvalB(sem: Semantics, b: BoolExp, env: Env): (r: Value<bool>)
    ensures r.Fail? ==> !r.err.UndefinedName?
  {
    match b
    case RelopBexp(op, lhs, rhs) =>
      (match EvalA(sem, lhs, env)
       case Fail(err) => Fail(err)
       case Val(x) =>
         match EvalA(sem, rhs, env)
         case Fail(err) => Fail(err)
         case Val(y) => Compare(sem.dialect, op, x, y))
    case AndBexp(left, right) =>
      (match EvalB(sem, left, env)
       case Fail(err) => Fail(err)
       case Val(x) =>
         match EvalB(sem, right, env)
         case Fail(err) => Fail(err)
         case Val(y) => Val(x && y))
    case OrBexp(left, right) =>
      (match EvalB(sem, left, env)
       case Fail(err) => Fail(err)
       case Val(x) =>
         match EvalB(sem, right, env)
         case Fail(err) => Fail(err)
         case Val(y) => Val(x || y))
    case NotBexp(exp) =>
      match EvalB(sem, exp, env)
      case Fail(err) => Fail(err)
      case Val(x) => Val(!x)
  }

  /** The names a statement may assign. */
  function Assigned(s: Statement): set<string> {
    match s
    case AssignStatement(x, _) => {x}
    case CompoundStatement(first, second) => Assigned(first) + Assigned(second)
    case IfStatement(_, t, f) => Assigned(t) + (if f.Some? then Assigned(f.value) else {})
    case WhileStatement(_, body) => Assigned(body)
  }

  /** The statement contains a `while` loop. */
  predicate Loops(s: Statement) {
    match s
    case AssignStatement(_, _) => false
    case CompoundStatement(first, second) => Loops(first) || Loops(second)
    case IfStatement(_, t, f) => Loops(t) || (f.Some? && Loops(f.value))
    case WhileStatement(_, _) => true
  }

  /** `env'` is `env` with at most the names in `xs` assigned: no name
      disappears and no other name changes. */
  predicate ChangesOnly(env: Env, env': Env, xs: set<string>) {
    env.Keys <= env'.Keys && env'.Keys <= env.Keys + xs
    && forall y :: y in env && y !in xs ==> env'[y] == env[y]
  }

  /** Run a statement. Each iteration of a `while` spends one unit of
      `fuel`; a loop that needs more ends with `OutOfFuel`. */
  function Exec(sem: Semantics, s: Statement, env: Env, fuel: nat): (r: Outcome)
    ensures r.OutOfFuel? ==> Loops(s)
    decreases fuel, s, 1
  {
    match s
    case AssignStatement(x, e) =>
      (match EvalA(sem, e, env)
       case Fail(err) => Raised(err, env)
       case Val(v) => Done(env[x := v]))
    case CompoundStatement(first, second) =>
      (match Exec(sem, first, env, fuel)
       case Done(env1) => Exec(sem, second, env1, fuel)
       case other => other)
    case IfStatement(cond, t, f) =>
      (match EvalB(sem, cond, env)
       case Fail(err) => Raised(err, env)
       case Val(c) =>
         if c then Exec(sem, t, env, fuel)
         else if sem.dialect == AsWritten then Raised(UndefinedName("false_value"), env)
         else if f.Some? then Exec(sem, f.value, env, fuel)
         else Done(env))
    case WhileStatement(cond, body) => Loop(sem, cond, body, env, fuel)
  }

  /** The iterations of `while cond do body end` from `env`. */
  function Loop(sem: Semantics, cond: BoolExp, body: Statement, env: Env, fuel: nat): (r: Outcome)
    ensures r.Done? ==> EvalB(sem, cond, r.env) == Val(false)
    decreases fuel, WhileStatement(cond, body), 0
  {
    match EvalB(sem, cond, env)
    case Fail(err) => Raised(err, env)
    case Val(c) =>
      if !c then Done(env)
      else if fuel == 0 then OutOfFuel
      else
        match Exec(sem, body, env, fuel - 1)
        case Done(env1) => Loop(sem, cond, body, env1, fuel - 1)
        case other => other
  }
}
