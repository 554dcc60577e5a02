/** The recursive rules of the IMP grammar, one function per rule of the
    source's cycles (aexp/aexp_term/aexp_group, bexp/bexp_term/bexp_not/
    bexp_group, stmt_list/stmt/if_stmt/while_stmt) plus the rules that
    lean on them (bexp_relop, assign_stmt, imp_parse).

    Each function reads the tokens itself and calls the rules it needs
    directly, so recursion is visible to the verifier and terminates on
    `|ts| - pos`. Precedence climbing is one function per expression kind,
    indexed by how many levels of the precedence table are in play.
    GrammarLaws proves every function here equal to the source's
    combinator expression for the rule (the forms of module Grammar). */
module ImpParser {
  import opened Wrappers
  import opened Tokens
  import opened Combinators
  import opened Ast
  import opened Grammar

  /** The reserved word or operator `kw` is at `pos`. */
  predicate IsKeyword(ts: seq<Token>, pos: nat, kw: string) {
    pos < |ts| && ts[pos] == Token(kw, RESERVED)
  }

  /** A reserved token whose text is one of `ops` is at `pos`. */
  predicate OperatorIn(ts: seq<Token>, pos: nat, ops: seq<string>) {
    pos < |ts| && ts[pos].tag == RESERVED && ts[pos].text in ops
  }

  /** The tokens an expression or a statement can end with: a number, a
      name, a closing parenthesis or `end`. */
  predicate Closes(t: Token) {
    t.tag == INT || t.tag == ID || t == Token(")", RESERVED) || t == Token("end", RESERVED)
  }

  /** What every rule promises: a success consumes at least one token, stays
      inside the input and ends on a closing token. */
  predicate Parsed<T>(ts: seq<Token>, pos: nat, r: ParseResult<T>) {
    r.Result? ==> pos < r.pos <= |ts| && Closes(ts[r.pos - 1])
  }

  /** What a loop of `Exp` promises, starting from `acc` at `pos`: it never
      fails, never moves back, and a step forward ends on a closing token;
      when it does not move it returns `acc`. */
  predicate Looped<T(==)>(ts: seq<Token>, pos: nat, acc: T, r: ParseResult<T>) {
    r.Result? && pos <= r.pos
    && (r.pos == pos ==> r.value == acc)
    && (pos < r.pos ==> pos < |ts| && r.pos <= |ts| && Closes(ts[r.pos - 1]))
  }

  // Arithmetic expressions

  /** `aexp`: the term under every precedence level. */
  function Aexp(ts: seq<Token>, pos: nat): (r: ParseResult<ArithExp>)
    ensures Parsed(ts, pos, r)
    decreases |ts| - pos, 5
  {
    AexpLevel(ts, pos, |AexpPrecedenceLevels|)
  }

  /** A term under the first `k` levels of the arithmetic precedence table. */
  function AexpLevel(ts: seq<Token>, pos: nat, k: nat): (r: ParseResult<ArithExp>)
    requires k <= |AexpPrecedenceLevels|
    ensures Parsed(ts, pos, r)
    decreases |ts| - pos, k + 2
  {
    if k == 0 then AexpTerm(ts, pos)
    else
      match AexpLevel(ts, pos, k - 1)
      case Failure => Failure
      case Result(v, q) => AexpLevelLoop(ts, k, v, q)
  }

  /** The `Exp` loop of level `k`: an operator of the level and an operand
      of the level below, folded onto `acc`, for as long as both parse. */
  function AexpLevelLoop(ts: seq<Token>, k: nat, acc: ArithExp, pos: nat): (r: ParseResult<ArithExp>)
    requires 1 <= k <= |AexpPrecedenceLevels|
    ensures Looped(ts, pos, acc, r)
    decreases |ts| - pos, 0
  {
    if OperatorIn(ts, pos, AexpPrecedenceLevels[k - 1]) then
      match AexpLevel(ts, pos + 1, k - 1)
      case Failure => Result(acc, pos)
      case Result(v, q) => AexpLevelLoop(ts, k, BinopAexp(ts[pos].text, acc, v), q)
    else Result(acc, pos)
  }

  /** `aexp_term`: an integer literal, a variable, or a parenthesised group. */
  function AexpTerm(ts: seq<Token>, pos: nat): (r: ParseResult<ArithExp>)
    ensures Parsed(ts, pos, r)
    decreases |ts| - pos, 1
  {
    if pos < |ts| && ts[pos].tag == INT then Result(IntAexp(DecimalValue(ts[pos].text)), pos + 1)
    else if pos < |ts| && ts[pos].tag == ID then Result(VarAexp(ts[pos].text), pos + 1)
    else AexpGroup(ts, pos)
  }

  /** `aexp_group`: `(` aexp `)`, yielding the inner expression. */
  function AexpGroup(ts: seq<Token>, pos: nat): (r: ParseResult<ArithExp>)
    ensures Parsed(ts, pos, r)
    decreases |ts| - pos, 0
  {
    if IsKeyword(ts, pos, "(") then
      match Aexp(ts, pos + 1)
      case Failure => Failure
      case Result(e, q) => if IsKeyword(ts, q, ")") then Result(e, q + 1) else Failure
    else Failure
  }

  // Boolean expressions

  /** `bexp`: the term under every precedence level. */
  function Bexp(ts: seq<Token>, pos: nat): (r: ParseResult<BoolExp>)
    ensures Parsed(ts, pos, r)
    decreases |ts| - pos, 5
  {
    BexpLevel(ts, pos, |BexpPrecedenceLevels|)
  }

  /** A term under the first `k` levels of the boolean precedence table. */
  function BexpLevel(ts: seq<Token>, pos: nat, k: nat): (r: ParseResult<BoolExp>)
    requires k <= |BexpPrecedenceLevels|
    ensures Parsed(ts, pos, r)
    decreases |ts| - pos, k + 2
  {
    if k == 0 then BexpTerm(ts, pos)
    else
      match BexpLevel(ts, pos, k - 1)
      case Failure => Failure
      case Result(v, q) => BexpLevelLoop(ts, k, v, q)
  }

  /** The `Exp` loop of level `k`; `and` builds a conjunction, `or` a
      disjunction, the only two operators the table holds. */
  function BexpLevelLoop(ts: seq<Token>, k: nat, acc: BoolExp, pos: nat): (r: ParseResult<BoolExp>)
    requires 1 <= k <= |BexpPrecedenceLevels|
    ensures Looped(ts, pos, acc, r)
    decreases |ts| - pos, 0
  {
    if OperatorIn(ts, pos, BexpPrecedenceLevels[k - 1]) then
      match BexpLevel(ts, pos + 1, k - 1)
      case Failure => Result(acc, pos)
      case Result(v, q) =>
        var combined := if ts[pos].text == "and" then AndBexp(acc, v) else OrBexp(acc, v);
        BexpLevelLoop(ts, k, combined, q)
    else Result(acc, pos)
  }

  /** `bexp_term`: a negation, a comparison or a parenthesised group, the
      first that parses. */
  function BexpTerm(ts: seq<Token>, pos: nat): (r: ParseResult<BoolExp>)
    ensures Parsed(ts, pos, r)
    decreases |ts| - pos, 1
  {
    var not := BexpNot(ts, pos);
    if not.Result? then not
    else
      var relop := BexpRelop(ts, pos);
      if relop.Result? then relop else BexpGroup(ts, pos)
  }

  /** `bexp_not`: `not` followed by a term. */
  function BexpNot(ts: seq<Token>, pos: nat): (r: ParseResult<BoolExp>)
    ensures Parsed(ts, pos, r)
    decreases |ts| - pos, 0
  {
    if IsKeyword(ts, pos, "not") then
      match BexpTerm(ts, pos + 1)
      case Failure => Failure
      case Result(b, q) => Result(NotBexp(b), q)
    else Failure
  }

  /** `bexp_relop`: aexp, a relational operator, aexp. */
  function BexpRelop(ts: seq<Token>, pos: nat): (r: ParseResult<BoolExp>)
    ensures Parsed(ts, pos, r)
  {
    match Aexp(ts, pos)
    case Failure => Failure
    case Result(left, q) =>
      if OperatorIn(ts, q, Relops) then
        match Aexp(ts, q + 1)
        case Failure => Failure
        case Result(right, q') => Result(RelopBexp(ts[q].text, left, right), q')
      else Failure
  }

  /** `bexp_group`: `(` bexp `)`, yielding the inner expression. */
  function BexpGroup(ts: seq<Token>, pos: nat): (r: ParseResult<BoolExp>)
    ensures Parsed(ts, pos, r)
    decreases |ts| - pos, 0
  {
    if IsKeyword(ts, pos, "(") then
      match Bexp(ts, pos + 1)
      case Failure => Failure
      case Result(b, q) => if IsKeyword(ts, q, ")") then Result(b, q + 1) else Failure
    else Failure
  }

  // Statements

  /** `stmt_list`: statements separated by `;`, nested to the left. */
  function StmtList(ts: seq<Token>, pos: nat): (r: ParseResult<Statement>)
    ensures Parsed(ts, pos, r)
    decreases |ts| - pos, 2
  {
    match Stmt(ts, pos)
    case Failure => Failure
    case Result(s, q) => StmtListLoop(ts, s, q)
  }

  /** The `Exp` loop of `stmt_list`: `;` and a statement, folded onto `acc`
      as a compound, for as long as both parse. */
  function StmtListLoop(ts: seq<Token>, acc: Statement, pos: nat): (r: ParseResult<Statement>)
    ensures Looped(ts, pos, acc, r)
    decreases |ts| - pos, 0
  {
    if IsKeyword(ts, pos, ";") then
      match Stmt(ts, pos + 1)
      case Failure => Result(acc, pos)
      case Result(s, q) => StmtListLoop(ts, CompoundStatement(acc, s), q)
    else Result(acc, pos)
  }

  /** `stmt`: an assignment, an if-statement or a while-statement, the first that parses. */
  function Stmt(ts: seq<Token>, pos: nat): (r: ParseResult<Statement>)
    ensures Parsed(ts, pos, r)
    decreases |ts| - pos, 1
  {
    var assign := AssignStmt(ts, pos);
    if assign.Result? then assign
    else
      var ifStmt := IfStmt(ts, pos);
      if ifStmt.Result? then ifStmt else WhileStmt(ts, pos)
  }

  /** `assign_stmt`: a variable, `:=`, an arithmetic expression. */
  function AssignStmt(ts: seq<Token>, pos: nat): (r: ParseResult<Statement>)
    ensures Parsed(ts, pos, r)
  {
    if pos < |ts| && ts[pos].tag == ID && IsKeyword(ts, pos + 1, ":=") then
      match Aexp(ts, pos + 2)
      case Failure => Failure
      case Result(e, q) => Result(AssignStatement(ts[pos].text, e), q)
    else Failure
  }

  /** `if_stmt`: `if` bexp `then` stmt_list, then optionally `else`
      stmt_list, then `end`. An `else` not followed by a statement list
      leaves the optional part empty, and `end` is then looked for at the
      `else`. */
  function IfStmt(ts: seq<Token>, pos: nat): (r: ParseResult<Statement>)
    ensures Parsed(ts, pos, r)
    decreases |ts| - pos, 0
  {
    if !IsKeyword(ts, pos, "if") then Failure
    else
      match Bexp(ts, pos + 1)
      case Failure => Failure
      case Result(cond, q1) =>
        if !IsKeyword(ts, q1, "then") then Failure
        else
          match StmtList(ts, q1 + 1)
          case Failure => Failure
          case Result(thenPart, q2) => IfStmtEnd(ts, cond, thenPart, q2)
  }

  /** The rest of an `if` after its `then` part, which ended at `pos`: an
      optional `else` part, then `end`. An `else` not followed by a statement
      list leaves the optional part empty, and `end` is looked for at the `else`. */
  function IfStmtEnd(ts: seq<Token>, cond: BoolExp, thenPart: Statement, pos: nat): (r: ParseResult<Statement>)
    ensures r.Result? ==> pos < r.pos <= |ts| && Closes(ts[r.pos - 1])
    decreases |ts| - pos + 1, 0
  {
    var elsePart := if IsKeyword(ts, pos, "else") then StmtList(ts, pos + 1) else Failure;
    var q := if elsePart.Result? then elsePart.pos else pos;
    if IsKeyword(ts, q, "end")
    then Result(IfStatement(cond, thenPart, if elsePart.Result? then Some(elsePart.value) else None), q + 1)
    else Failure
  }

  /** `while_stmt`: `while` bexp `do` stmt_list `end`. */
  function WhileStmt(ts: seq<Token>, pos: nat): (r: ParseResult<Statement>)
    ensures Parsed(ts, pos, r)
    decreases |ts| - pos, 0
  {
    if !IsKeyword(ts, pos, "while") then Failure
    else
      match Bexp(ts, pos + 1)
      case Failure => Failure
      case Result(cond, q1) =>
        if !IsKeyword(ts, q1, "do") then Failure
        else
          match StmtList(ts, q1 + 1)
          case Failure => Failure
          case Result(body, q2) =>
            if IsKeyword(ts, q2, "end") then Result(WhileStatement(cond, body), q2 + 1) else Failure
  }

  /** `imp_parse`: one statement list covering the whole token sequence. */
  function ImpParse(ts: seq<Token>): (r: ParseResult<Statement>)
    ensures r.Result? ==> r.pos == |ts| && |ts| > 0 && Closes(ts[|ts| - 1])
  {
    var r := StmtList(ts, 0);
    if r.Result? && r.pos == |ts| then r else Failure
  }

  // The rules as parser values, for the combinator forms

  function AexpParser(): (r: Parser<ArithExp>)
    ensures Advancing(r)
  {
    (t: seq<Token>, p: nat) => Aexp(t, p)
  }

  function AexpTermParser(): (r: Parser<ArithExp>)
    ensures Advancing(r)
  {
    (t: seq<Token>, p: nat) => AexpTerm(t, p)
  }

  function AexpGroupParser(): (r: Parser<ArithExp>)
    ensures Advancing(r)
  {
    (t: seq<Token>, p: nat) => AexpGroup(t, p)
  }

  function BexpParser(): (r: Parser<BoolExp>)
    ensures Advancing(r)
  {
    (t: seq<Token>, p: nat) => Bexp(t, p)
  }

  function BexpTermParser(): (r: Parser<BoolExp>)
    ensures Advancing(r)
  {
    (t: seq<Token>, p: nat) => BexpTerm(t, p)
  }

  function BexpNotParser(): (r: Parser<BoolExp>)
    ensures Advancing(r)
  {
    (t: seq<Token>, p: nat) => BexpNot(t, p)
  }

  function BexpRelopParser(): (r: Parser<BoolExp>)
    ensures Advancing(r)
  {
    (t: seq<Token>, p: nat) => BexpRelop(t, p)
  }

  function BexpGroupParser(): (r: Parser<BoolExp>)
    ensures Advancing(r)
  {
    (t: seq<Token>, p: nat) => BexpGroup(t, p)
  }

  function StmtListParser(): (r: Parser<Statement>)
    ensures Advancing(r)
  {
    (t: seq<Token>, p: nat) => StmtList(t, p)
  }

  function StmtParser(): (r: Parser<Statement>)
    ensures Advancing(r)
  {
    (t: seq<Token>, p: nat) => Stmt(t, p)
  }

  function AssignStmtParser(): (r: Parser<Statement>)
    ensures Advancing(r)
  {
    (t: seq<Token>, p: nat) => AssignStmt(t, p)
  }

  function IfStmtParser(): (r: Parser<Statement>)
    ensures Advancing(r)
  {
    (t: seq<Token>, p: nat) => IfStmt(t, p)
  }

  function WhileStmtParser(): (r: Parser<Statement>)
    ensures Advancing(r)
  {
    (t: seq<Token>, p: nat) => WhileStmt(t, p)
  }

  // `Lazy(rule)` for the rules the source reaches through `Lazy`

  function LazyAexp(): Parser<ArithExp>
  {
    Lazy(() => AexpParser())
  }

  function LazyBexp(): Parser<BoolExp>
  {
    Lazy(() => BexpParser())
  }

  function LazyBexpTerm(): Parser<BoolExp>
  {
    Lazy(() => BexpTermParser())
  }

  function LazyStmtList(): Parser<Statement>
  {
    Lazy(() => StmtListParser())
  }
}
