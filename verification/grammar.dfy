/** The IMP grammar as the source writes it: each rule is a combinator
    expression. A rule that refers to another rule of a recursive cycle
    takes that rule's parser as a parameter (`aexp_group` takes `aexp`,
    `if_stmt` takes `stmt_list`, ...), so that each form is an ordinary,
    non-recursive parser value. ImpParser defines the recursive rules
    themselves, and GrammarLaws proves each of them equal to its form here,
    fed with the parsers ImpParser defines (through `Lazy` where the source
    uses `Lazy`). */
module Grammar {
  import opened Wrappers
  import opened Tokens
  import opened Combinators
  import opened Ast

  /** Operator levels, tightest first. */
  const AexpPrecedenceLevels: seq<seq<string>> := [["*", "/"], ["+", "-"]]
  const BexpPrecedenceLevels: seq<seq<string>> := [["and"], ["or"]]
  /** The relational operators `bexp_relop` accepts. */
  const Relops: seq<string> := ["<", "<=", ">", ">=", "=", "!="]

  /** A reserved word or operator. */
  function Keyword(kw: string): (r: Parser<string>)
    ensures Advancing(r)
    ensures forall ts: seq<Token>, pos: nat :: r(ts, pos).Result? <==> pos < |ts| && ts[pos] == Token(kw, RESERVED)
    ensures forall ts: seq<Token>, pos: nat :: r(ts, pos).Result? ==> r(ts, pos) == Result(kw, pos + 1)
  {
    Reserved(kw, RESERVED)
  }

  /** An integer literal, converted to its value. */
  function Num(): (r: Parser<int>)
    ensures Advancing(r)
    ensures forall ts: seq<Token>, pos: nat :: r(ts, pos).Result? <==> pos < |ts| && ts[pos].tag == INT
    ensures forall ts: seq<Token>, pos: nat :: r(ts, pos).Result? ==>
      r(ts, pos) == Result(DecimalValue(ts[pos].text), pos + 1)
  {
    Process(Tag(INT), (text: string) => DecimalValue(text))
  }

  /** On the text the lexer gives an INT token, a run of decimal digits,
      `num` yields the number those digits denote. */
  lemma NumReadsDigits(ts: seq<Token>, pos: nat, n: nat)
    requires pos < |ts| && ts[pos] == Token(Digits(n), INT)
    ensures IsDecimal(ts[pos].text)
    ensures Num()(ts, pos) == Result(n, pos + 1)
  {
    DecimalRoundTrip(n);
  }

  /** A variable name. */
  function Id(): Parser<string>
  {
    Tag(ID)
  }

  /** `id` reads exactly one ID token, whatever its text, and yields the name. */
  lemma IdReadsName(ts: seq<Token>, pos: nat)
    ensures Advancing(Id())
    ensures Id()(ts, pos).Result? <==> pos < |ts| && ts[pos].tag == ID
    ensures Id()(ts, pos).Result? ==> Id()(ts, pos) == Result(ts[pos].text, pos + 1)
  {
  }

  /** Ordered choice among the keywords `ops`, folded as `((k1 | k2) | k3) ...`. */
  function AnyOperatorInList(ops: seq<string>): (r: Parser<string>)
    requires |ops| > 0
    ensures Advancing(r)
    ensures forall ts: seq<Token>, pos: nat :: r(ts, pos).Result? <==>
      pos < |ts| && ts[pos].tag == RESERVED && ts[pos].text in ops
    ensures forall ts: seq<Token>, pos: nat :: r(ts, pos).Result? ==> r(ts, pos) == Result(ts[pos].text, pos + 1)
    decreases |ops|
  {
    if |ops| == 1 then Keyword(ops[0])
    else
      var init := ops[..|ops| - 1];
      assert ops == init + [ops[|ops| - 1]];
      Alternate(AnyOperatorInList(init), Keyword(ops[|ops| - 1]))
  }

  /** Every level is non-empty and `combine` accepts each of its operators. */
  ghost predicate LevelsFit<T>(levels: seq<seq<string>>, combine: string --> ((T, T) -> T)) {
    forall i :: 0 <= i < |levels| ==> |levels[i]| > 0 && forall op :: op in levels[i] ==> combine.requires(op)
  }

  /** The separator of one precedence level: an operator of the level,
      mapped to its combining function. */
  function OpParser<T>(level: seq<string>, combine: string --> ((T, T) -> T)): (r: Parser<(T, T) -> T>)
    requires |level| > 0 && forall op :: op in level ==> combine.requires(op)
    ensures Advancing(r)
    ensures forall ts: seq<Token>, pos: nat :: r(ts, pos).Result? <==>
      pos < |ts| && ts[pos].tag == RESERVED && ts[pos].text in level
    ensures forall ts: seq<Token>, pos: nat :: r(ts, pos).Result? ==>
      r(ts, pos) == Result(combine(ts[pos].text), pos + 1)
  {
    Process(AnyOperatorInList(level), combine)
  }

  /** The loop of `precedence`: wraps `parser` in one `Exp` per remaining level. */
  function Climb<T>(parser: Parser<T>, levels: seq<seq<string>>, combine: string --> ((T, T) -> T)): (r: Parser<T>)
    requires Monotone(parser) && LevelsFit(levels, combine)
    ensures Monotone(r)
    ensures Advancing(parser) ==> Advancing(r)
    ensures forall ts: seq<Token>, pos: nat :: r(ts, pos).Failure? <==> parser(ts, pos).Failure?
    decreases |levels|
  {
    if levels == [] then parser
    else Climb(Exp(parser, OpParser(levels[0], combine)), levels[1..], combine)
  }

  /** `precedence`: the element parser wrapped in one `Exp` per level,
      tightest level innermost. */
  function Precedence<T>(value: Parser<T>, levels: seq<seq<string>>, combine: string --> ((T, T) -> T)): (r: Parser<T>)
    requires |levels| > 0 && Monotone(value) && LevelsFit(levels, combine)
    ensures Monotone(r)
    ensures Advancing(value) ==> Advancing(r)
    ensures forall ts: seq<Token>, pos: nat :: r(ts, pos).Failure? <==> value(ts, pos).Failure?
  {
    Climb(Exp(value, OpParser(levels[0], combine)), levels[1..], combine)
  }

  function ProcessBinop(op: string): (ArithExp, ArithExp) -> ArithExp
  {
    (l: ArithExp, r: ArithExp) => BinopAexp(op, l, r)
  }

  function ProcessRelop(parsed: ((ArithExp, string), ArithExp)): BoolExp
  {
    RelopBexp(parsed.0.1, parsed.0.0, parsed.1)
  }

  /** Only `and` and `or` have a logic constructor; any other text is the
      source's RuntimeError, here a precondition. */
  function ProcessLogic(op: string): (BoolExp, BoolExp) -> BoolExp
    requires op == "and" || op == "or"
  {
    if op == "and" then (l: BoolExp, r: BoolExp) => AndBexp(l, r)
    else (l: BoolExp, r: BoolExp) => OrBexp(l, r)
  }

  /** A parenthesised group stands for the expression inside it. */
  function ProcessGroup<T>(parsed: ((string, T), string)): T
  {
    parsed.0.1
  }

  /** The precedence tower built from the other end: `value` under the
      first `k` levels, the `k`-th level outermost. GrammarLaws shows that
      `Precedence` is this tower with every level. */
  function Nest<T>(value: Parser<T>, levels: seq<seq<string>>, combine: string --> ((T, T) -> T), k: nat): (r: Parser<T>)
    requires k <= |levels| && Monotone(value) && LevelsFit(levels, combine)
    ensures Monotone(r)
    ensures Advancing(value) ==> Advancing(r)
    decreases k
  {
    if k == 0 then value
    else Exp(Nest(value, levels, combine, k - 1), OpParser(levels[k - 1], combine))
  }

  /** `num ^ IntAexp`. */
  function IntValue(): (r: Parser<ArithExp>)
    ensures Advancing(r)
    ensures forall ts: seq<Token>, pos: nat :: r(ts, pos).Result? <==> pos < |ts| && ts[pos].tag == INT
    ensures forall ts: seq<Token>, pos: nat :: r(ts, pos).Result? ==>
      r(ts, pos) == Result(IntAexp(DecimalValue(ts[pos].text)), pos + 1)
  {
    Process(Num(), (i: int) => IntAexp(i))
  }

  /** `id ^ VarAexp`. */
  function VarValue(): (r: Parser<ArithExp>)
    ensures Advancing(r)
    ensures forall ts: seq<Token>, pos: nat :: r(ts, pos).Result? <==> pos < |ts| && ts[pos].tag == ID
    ensures forall ts: seq<Token>, pos: nat :: r(ts, pos).Result? ==>
      r(ts, pos) == Result(VarAexp(ts[pos].text), pos + 1)
  {
    Process(Id(), (v: string) => VarAexp(v))
  }

  /** `aexp_value`: an integer literal or a variable. */
  function AexpValue(): (r: Parser<ArithExp>)
    ensures Advancing(r)
    ensures forall ts: seq<Token>, pos: nat :: r(ts, pos).Result? <==>
      pos < |ts| && (ts[pos].tag == INT || ts[pos].tag == ID)
    ensures forall ts: seq<Token>, pos: nat :: pos < |ts| && ts[pos].tag == INT ==>
      r(ts, pos) == Result(IntAexp(DecimalValue(ts[pos].text)), pos + 1)
    ensures forall ts: seq<Token>, pos: nat :: pos < |ts| && ts[pos].tag == ID ==>
      r(ts, pos) == Result(VarAexp(ts[pos].text), pos + 1)
  {
    Alternate(IntValue(), VarValue())
  }

  /** `aexp`, given `aexp_term`: precedence climbing over `*` `/`, then `+` `-`. */
  function AexpForm(term: Parser<ArithExp>): Parser<ArithExp>
    requires Monotone(term)
  {
    Precedence(term, AexpPrecedenceLevels, ProcessBinop)
  }

  /** `aexp_term`, given `aexp_group`: a value or a parenthesised group. */
  function AexpTermForm(group: Parser<ArithExp>): Parser<ArithExp>
  {
    Alternate(AexpValue(), group)
  }

  /** `aexp_group` and `bexp_group`, given the inner rule: `(` inner `)`. */
  function GroupForm<T>(inner: Parser<T>): Parser<T>
  {
    Process(Concat(Concat(Keyword("("), inner), Keyword(")")), ProcessGroup)
  }

  /** `bexp_relop`, given `aexp`: aexp, a relational operator, aexp. */
  function BexpRelopForm(aexp: Parser<ArithExp>): Parser<BoolExp>
  {
    Process(Concat(Concat(aexp, AnyOperatorInList(Relops)), aexp), ProcessRelop)
  }

  /** `bexp`, given `bexp_term`: precedence climbing over `and`, then `or`. */
  function BexpForm(term: Parser<BoolExp>): Parser<BoolExp>
    requires Monotone(term)
  {
    assert LevelsFit(BexpPrecedenceLevels, ProcessLogic);
    Precedence(term, BexpPrecedenceLevels, ProcessLogic)
  }

  /** `bexp_term`: a negation, a comparison or a parenthesised group, in that order. */
  function BexpTermForm(not: Parser<BoolExp>, relop: Parser<BoolExp>, group: Parser<BoolExp>): Parser<BoolExp>
  {
    Alternate(Alternate(not, relop), group)
  }

  /** `bexp_not`, given `bexp_term`: `not` followed by a term. */
  function BexpNotForm(term: Parser<BoolExp>): Parser<BoolExp>
  {
    Process(Concat(Keyword("not"), term), (parsed: (string, BoolExp)) => NotBexp(parsed.1))
  }

  /** The separator of a statement list: `;`, combining two statements into a compound. */
  function StmtSeparator(): (r: Parser<(Statement, Statement) -> Statement>)
    ensures Advancing(r)
    ensures forall ts: seq<Token>, pos: nat :: r(ts, pos).Result? <==> pos < |ts| && ts[pos] == Token(";", RESERVED)
  {
    Process(Keyword(";"), (x: string) => (l: Statement, r: Statement) => CompoundStatement(l, r))
  }

  /** `stmt_list`, given `stmt`: statements separated by `;`. */
  function StmtListForm(stmt: Parser<Statement>): Parser<Statement>
    requires Monotone(stmt)
  {
    Exp(stmt, StmtSeparator())
  }

  /** `stmt`: an assignment, an if-statement or a while-statement, in that order. */
  function StmtForm(assign: Parser<Statement>, ifStmt: Parser<Statement>, whileStmt: Parser<Statement>): Parser<Statement>
  {
    Alternate(Alternate(assign, ifStmt), whileStmt)
  }

  function ProcessAssign(parsed: ((string, string), ArithExp)): Statement
  {
    AssignStatement(parsed.0.0, parsed.1)
  }

  /** `assign_stmt`, given `aexp`: a variable, `:=`, an arithmetic expression. */
  function AssignStmtForm(aexp: Parser<ArithExp>): Parser<Statement>
  {
    Process(Concat(Concat(Id(), Keyword(":=")), aexp), ProcessAssign)
  }

  function ProcessIf(parsed: (((((string, BoolExp), string), Statement), Option<(string, Statement)>), string)): Statement
  {
    var falseStmt := match parsed.0.1 case None => None case Some(elsePart) => Some(elsePart.1);
    IfStatement(parsed.0.0.0.0.1, parsed.0.0.1, falseStmt)
  }

  /** `if_stmt`, given `bexp` and `stmt_list`:
      `if` bexp `then` stmt_list [`else` stmt_list] `end`. */
  function IfStmtForm(cond: Parser<BoolExp>, body: Parser<Statement>): Parser<Statement>
  {
    Process(
      Concat(Concat(Concat(Concat(Concat(Keyword("if"), cond), Keyword("then")), body),
                    Opt(Concat(Keyword("else"), body))),
             Keyword("end")),
      ProcessIf)
  }

  function ProcessWhile(parsed: ((((string, BoolExp), string), Statement), string)): Statement
  {
    WhileStatement(parsed.0.0.0.1, parsed.0.1)
  }

  /** `while_stmt`, given `bexp` and `stmt_list`: `while` bexp `do` stmt_list `end`. */
  function WhileStmtForm(cond: Parser<BoolExp>, body: Parser<Statement>): Parser<Statement>
  {
    Process(
      Concat(Concat(Concat(Concat(Keyword("while"), cond), Keyword("do")), body), Keyword("end")),
      ProcessWhile)
  }

  /** `parser()`, given `stmt_list`: a statement list that must consume the whole input. */
  function ParserForm(stmtList: Parser<Statement>): Parser<Statement>
  {
    Phrase(stmtList)
  }
}
