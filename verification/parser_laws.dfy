/** The shapes of the trees the IMP grammar builds: precedence and
    associativity of the operators, left-nested statement lists, groups,
    the two forms of `if`, comparisons, and what `imp_parse` rejects. The
    laws are stated over the rules of ImpParser, which GrammarLaws shows
    equal to the source's combinator expressions. */
module ParserLaws {
  import opened Wrappers
  import opened Tokens
  import opened Combinators
  import opened Ast
  import opened Grammar
  import opened ImpParser

  const MulLevel: seq<string> := AexpPrecedenceLevels[0]
  const AddLevel: seq<string> := AexpPrecedenceLevels[1]

  /** No arithmetic operator of either level is at `pos`: an arithmetic
      expression that reached `pos` ends there. */
  predicate AexpEndsAt(ts: seq<Token>, pos: nat) {
    !OperatorIn(ts, pos, MulLevel) && !OperatorIn(ts, pos, AddLevel)
  }

  // One step of the level loops, as separate facts

  lemma AexpLoopStops(ts: seq<Token>, k: nat, acc: ArithExp, pos: nat)
    requires 1 <= k <= |AexpPrecedenceLevels| && !OperatorIn(ts, pos, AexpPrecedenceLevels[k - 1])
    ensures AexpLevelLoop(ts, k, acc, pos) == Result(acc, pos)
  {
  }

  lemma AexpLoopTakes(ts: seq<Token>, k: nat, acc: ArithExp, pos: nat, v: ArithExp, q: nat)
    requires 1 <= k <= |AexpPrecedenceLevels| && OperatorIn(ts, pos, AexpPrecedenceLevels[k - 1])
    requires AexpLevel(ts, pos + 1, k - 1) == Result(v, q)
    ensures AexpLevelLoop(ts, k, acc, pos) == AexpLevelLoop(ts, k, BinopAexp(ts[pos].text, acc, v), q)
  {
  }

  lemma AexpLevelThen(ts: seq<Token>, pos: nat, k: nat, v: ArithExp, q: nat)
    requires 1 <= k <= |AexpPrecedenceLevels| && AexpLevel(ts, pos, k - 1) == Result(v, q)
    ensures AexpLevel(ts, pos, k) == AexpLevelLoop(ts, k, v, q)
  {
  }

  /** The two levels over a term at `p0`, given how each level's loop
      ends: the whole expression is what the outer loop returns. */
  lemma AexpOverTerm(ts: seq<Token>, p0: nat, x: ArithExp, p1: nat, m: ArithExp, pm: nat)
    requires AexpTerm(ts, p0) == Result(x, p1) && AexpLevelLoop(ts, 1, x, p1) == Result(m, pm)
    ensures Aexp(ts, p0) == AexpLevelLoop(ts, 2, m, pm)
  {
    assert |AexpPrecedenceLevels| == 2;
    assert AexpLevel(ts, p0, 0) == Result(x, p1);
    AexpLevelThen(ts, p0, 1, x, p1);
    AexpLevelThen(ts, p0, 2, m, pm);
  }

  /** A term followed by no operator is the whole expression. */
  lemma AexpSingleTerm(ts: seq<Token>, p0: nat, x: ArithExp, p1: nat)
    requires AexpTerm(ts, p0) == Result(x, p1) && AexpEndsAt(ts, p1)
    ensures Aexp(ts, p0) == Result(x, p1)
  {
    AexpLoopStops(ts, 1, x, p1);
    AexpOverTerm(ts, p0, x, p1, x, p1);
    AexpLoopStops(ts, 2, x, p1);
  }

  /** `x lo y hi z`, with `lo` an additive and `hi` a multiplicative
      operator, is `lo(x, hi(y, z))`: the multiplicative operator binds tighter. */
  lemma MulBindsTighterOnTheRight(ts: seq<Token>, p0: nat, x: ArithExp, p1: nat, y: ArithExp, p2: nat, z: ArithExp, p3: nat)
    requires AexpTerm(ts, p0) == Result(x, p1) && OperatorIn(ts, p1, AddLevel)
    requires AexpTerm(ts, p1 + 1) == Result(y, p2) && OperatorIn(ts, p2, MulLevel)
    requires AexpTerm(ts, p2 + 1) == Result(z, p3) && AexpEndsAt(ts, p3)
    ensures Aexp(ts, p0) == Result(BinopAexp(ts[p1].text, x, BinopAexp(ts[p2].text, y, z)), p3)
  {
    var yz := BinopAexp(ts[p2].text, y, z);
    AexpLoopStops(ts, 1, x, p1);
    AexpOverTerm(ts, p0, x, p1, x, p1);
    assert AexpLevel(ts, p2 + 1, 0) == Result(z, p3);
    AexpLoopTakes(ts, 1, y, p2, z, p3);
    AexpLoopStops(ts, 1, yz, p3);
    assert AexpLevel(ts, p1 + 1, 0) == Result(y, p2);
    AexpLevelThen(ts, p1 + 1, 1, y, p2);
    AexpLoopTakes(ts, 2, x, p1, yz, p3);
    AexpLoopStops(ts, 2, BinopAexp(ts[p1].text, x, yz), p3);
  }

  /** `x hi y lo z` is `lo(hi(x, y), z)`. */
  lemma MulBindsTighterOnTheLeft(ts: seq<Token>, p0: nat, x: ArithExp, p1: nat, y: ArithExp, p2: nat, z: ArithExp, p3: nat)
    requires AexpTerm(ts, p0) == Result(x, p1) && OperatorIn(ts, p1, MulLevel)
    requires AexpTerm(ts, p1 + 1) == Result(y, p2) && OperatorIn(ts, p2, AddLevel)
    requires AexpTerm(ts, p2 + 1) == Result(z, p3) && AexpEndsAt(ts, p3)
    ensures Aexp(ts, p0) == Result(BinopAexp(ts[p2].text, BinopAexp(ts[p1].text, x, y), z), p3)
  {
    var xy := BinopAexp(ts[p1].text, x, y);
    assert !OperatorIn(ts, p2, MulLevel);
    assert AexpLevel(ts, p1 + 1, 0) == Result(y, p2);
    AexpLoopTakes(ts, 1, x, p1, y, p2);
    AexpLoopStops(ts, 1, xy, p2);
    AexpOverTerm(ts, p0, x, p1, xy, p2);
    assert AexpLevel(ts, p2 + 1, 0) == Result(z, p3);
    AexpLoopStops(ts, 1, z, p3);
    AexpLevelThen(ts, p2 + 1, 1, z, p3);
    AexpLoopTakes(ts, 2, xy, p2, z, p3);
    AexpLoopStops(ts, 2, BinopAexp(ts[p2].text, xy, z), p3);
  }

  /** Two operators of the same level associate to the left:
      `x o1 y o2 z` is `o2(o1(x, y), z)`. */
  lemma SameLevelAssociatesLeft(ts: seq<Token>, k: nat, p0: nat, x: ArithExp, p1: nat, y: ArithExp, p2: nat, z: ArithExp, p3: nat)
    requires 1 <= k <= |AexpPrecedenceLevels|
    requires AexpTerm(ts, p0) == Result(x, p1) && OperatorIn(ts, p1, AexpPrecedenceLevels[k - 1])
    requires AexpTerm(ts, p1 + 1) == Result(y, p2) && OperatorIn(ts, p2, AexpPrecedenceLevels[k - 1])
    requires AexpTerm(ts, p2 + 1) == Result(z, p3) && AexpEndsAt(ts, p3)
    ensures Aexp(ts, p0) == Result(BinopAexp(ts[p2].text, BinopAexp(ts[p1].text, x, y), z), p3)
  {
    var xy := BinopAexp(ts[p1].text, x, y);
    var xyz := BinopAexp(ts[p2].text, xy, z);
    if k == 1 {
      assert AexpLevel(ts, p1 + 1, 0) == Result(y, p2);
      assert AexpLevel(ts, p2 + 1, 0) == Result(z, p3);
      AexpLoopTakes(ts, 1, x, p1, y, p2);
      AexpLoopTakes(ts, 1, xy, p2, z, p3);
      AexpLoopStops(ts, 1, xyz, p3);
      AexpOverTerm(ts, p0, x, p1, xyz, p3);
      AexpLoopStops(ts, 2, xyz, p3);
    } else {
      assert !OperatorIn(ts, p1, MulLevel) && !OperatorIn(ts, p2, MulLevel);
      AexpLoopStops(ts, 1, x, p1);
      AexpOverTerm(ts, p0, x, p1, x, p1);
      assert AexpLevel(ts, p1 + 1, 0) == Result(y, p2);
      AexpLoopStops(ts, 1, y, p2);
      AexpLevelThen(ts, p1 + 1, 1, y, p2);
      assert AexpLevel(ts, p2 + 1, 0) == Result(z, p3);
      AexpLoopStops(ts, 1, z, p3);
      AexpLevelThen(ts, p2 + 1, 1, z, p3);
      AexpLoopTakes(ts, 2, x, p1, y, p2);
      AexpLoopTakes(ts, 2, xy, p2, z, p3);
      AexpLoopStops(ts, 2, xyz, p3);
    }
  }

  /** `x o y` with one operator of either level is `o(x, y)`. */
  lemma OneOperator(ts: seq<Token>, k: nat, p0: nat, x: ArithExp, p1: nat, y: ArithExp, p2: nat)
    requires 1 <= k <= |AexpPrecedenceLevels|
    requires AexpTerm(ts, p0) == Result(x, p1) && OperatorIn(ts, p1, AexpPrecedenceLevels[k - 1])
    requires AexpTerm(ts, p1 + 1) == Result(y, p2) && AexpEndsAt(ts, p2)
    ensures Aexp(ts, p0) == Result(BinopAexp(ts[p1].text, x, y), p2)
  {
    var xy := BinopAexp(ts[p1].text, x, y);
    assert AexpLevel(ts, p1 + 1, 0) == Result(y, p2);
    if k == 1 {
      AexpLoopTakes(ts, 1, x, p1, y, p2);
      AexpLoopStops(ts, 1, xy, p2);
      AexpOverTerm(ts, p0, x, p1, xy, p2);
      AexpLoopStops(ts, 2, xy, p2);
    } else {
      assert !OperatorIn(ts, p1, MulLevel);
      AexpLoopStops(ts, 1, x, p1);
      AexpOverTerm(ts, p0, x, p1, x, p1);
      AexpLoopStops(ts, 1, y, p2);
      AexpLevelThen(ts, p1 + 1, 1, y, p2);
      AexpLoopTakes(ts, 2, x, p1, y, p2);
      AexpLoopStops(ts, 2, xy, p2);
    }
  }

  /** A parenthesised expression is a term whose tree is the inner expression's. */
  lemma GroupIsTransparent(ts: seq<Token>, pos: nat, e: ArithExp, q: nat)
    requires IsKeyword(ts, pos, "(") && Aexp(ts, pos + 1) == Result(e, q) && IsKeyword(ts, q, ")")
    ensures AexpTerm(ts, pos) == Result(e, q + 1)
    ensures Aexp(ts, pos) == Result(e, q + 1) <== AexpEndsAt(ts, q + 1)
  {
    if AexpEndsAt(ts, q + 1) {
      AexpSingleTerm(ts, pos, e, q + 1);
    }
  }

  /** A term is a literal, a variable, or a group; nothing else starts one. */
  lemma AexpTermCases(ts: seq<Token>, pos: nat)
    ensures AexpTerm(ts, pos).Result? ==> pos < |ts|
    ensures AexpTerm(ts, pos).Result? && ts[pos].tag == INT ==> AexpTerm(ts, pos) == Result(IntAexp(DecimalValue(ts[pos].text)), pos + 1)
    ensures AexpTerm(ts, pos).Result? && ts[pos].tag == ID ==> AexpTerm(ts, pos) == Result(VarAexp(ts[pos].text), pos + 1)
    ensures AexpTerm(ts, pos).Result? && ts[pos].tag == RESERVED ==>
      ts[pos].text == "(" && Aexp(ts, pos + 1).Result? && IsKeyword(ts, Aexp(ts, pos + 1).pos, ")")
      && AexpTerm(ts, pos) == Result(Aexp(ts, pos + 1).value, Aexp(ts, pos + 1).pos + 1)
  {
    if AexpTerm(ts, pos).Result? && ts[pos].tag == RESERVED {
      assert AexpTerm(ts, pos) == AexpGroup(ts, pos);
      assert IsKeyword(ts, pos, "(");
    }
  }

  // Boolean expressions

  const AndLevel: seq<string> := BexpPrecedenceLevels[0]
  const OrLevel: seq<string> := BexpPrecedenceLevels[1]

  /** Neither `and` nor `or` is at `pos`. */
  predicate BexpEndsAt(ts: seq<Token>, pos: nat) {
    !OperatorIn(ts, pos, AndLevel) && !OperatorIn(ts, pos, OrLevel)
  }

  lemma BexpLoopStops(ts: seq<Token>, k: nat, acc: BoolExp, pos: nat)
    requires 1 <= k <= |BexpPrecedenceLevels| && !OperatorIn(ts, pos, BexpPrecedenceLevels[k - 1])
    ensures BexpLevelLoop(ts, k, acc, pos) == Result(acc, pos)
  {
  }

  lemma BexpLoopTakes(ts: seq<Token>, k: nat, acc: BoolExp, pos: nat, v: BoolExp, q: nat)
    requires 1 <= k <= |BexpPrecedenceLevels| && OperatorIn(ts, pos, BexpPrecedenceLevels[k - 1])
    requires BexpLevel(ts, pos + 1, k - 1) == Result(v, q)
    ensures BexpLevelLoop(ts, k, acc, pos)
         == BexpLevelLoop(ts, k, if k == 1 then AndBexp(acc, v) else OrBexp(acc, v), q)
  {
  }

  lemma BexpLevelThen(ts: seq<Token>, pos: nat, k: nat, v: BoolExp, q: nat)
    requires 1 <= k <= |BexpPrecedenceLevels| && BexpLevel(ts, pos, k - 1) == Result(v, q)
    ensures BexpLevel(ts, pos, k) == BexpLevelLoop(ts, k, v, q)
  {
  }

  lemma BexpOverTerm(ts: seq<Token>, p0: nat, x: BoolExp, p1: nat, m: BoolExp, pm: nat)
    requires BexpTerm(ts, p0) == Result(x, p1) && BexpLevelLoop(ts, 1, x, p1) == Result(m, pm)
    ensures Bexp(ts, p0) == BexpLevelLoop(ts, 2, m, pm)
  {
    assert |BexpPrecedenceLevels| == 2;
    assert BexpLevel(ts, p0, 0) == Result(x, p1);
    BexpLevelThen(ts, p0, 1, x, p1);
    BexpLevelThen(ts, p0, 2, m, pm);
  }

  /** A boolean term followed by neither `and` nor `or` is the whole expression. */
  lemma BexpSingleTerm(ts: seq<Token>, p0: nat, x: BoolExp, p1: nat)
    requires BexpTerm(ts, p0) == Result(x, p1) && BexpEndsAt(ts, p1)
    ensures Bexp(ts, p0) == Result(x, p1)
  {
    BexpLoopStops(ts, 1, x, p1);
    BexpOverTerm(ts, p0, x, p1, x, p1);
    BexpLoopStops(ts, 2, x, p1);
  }

  /** `x or y and z` is `x or (y and z)`: `and` binds tighter than `or`. */
  lemma AndBindsTighterThanOr(ts: seq<Token>, p0: nat, x: BoolExp, p1: nat, y: BoolExp, p2: nat, z: BoolExp, p3: nat)
    requires BexpTerm(ts, p0) == Result(x, p1) && IsKeyword(ts, p1, "or")
    requires BexpTerm(ts, p1 + 1) == Result(y, p2) && IsKeyword(ts, p2, "and")
    requires BexpTerm(ts, p2 + 1) == Result(z, p3) && BexpEndsAt(ts, p3)
    ensures Bexp(ts, p0) == Result(OrBexp(x, AndBexp(y, z)), p3)
  {
    assert !OperatorIn(ts, p1, AndLevel) && OperatorIn(ts, p1, OrLevel) && OperatorIn(ts, p2, AndLevel);
    BexpLoopStops(ts, 1, x, p1);
    BexpOverTerm(ts, p0, x, p1, x, p1);
    assert BexpLevel(ts, p2 + 1, 0) == Result(z, p3);
    BexpLoopTakes(ts, 1, y, p2, z, p3);
    BexpLoopStops(ts, 1, AndBexp(y, z), p3);
    assert BexpLevel(ts, p1 + 1, 0) == Result(y, p2);
    BexpLevelThen(ts, p1 + 1, 1, y, p2);
    BexpLoopTakes(ts, 2, x, p1, AndBexp(y, z), p3);
    BexpLoopStops(ts, 2, OrBexp(x, AndBexp(y, z)), p3);
  }

  /** `x and y or z` is `(x and y) or z`. */
  lemma AndBindsTighterOnTheLeft(ts: seq<Token>, p0: nat, x: BoolExp, p1: nat, y: BoolExp, p2: nat, z: BoolExp, p3: nat)
    requires BexpTerm(ts, p0) == Result(x, p1) && IsKeyword(ts, p1, "and")
    requires BexpTerm(ts, p1 + 1) == Result(y, p2) && IsKeyword(ts, p2, "or")
    requires BexpTerm(ts, p2 + 1) == Result(z, p3) && BexpEndsAt(ts, p3)
    ensures Bexp(ts, p0) == Result(OrBexp(AndBexp(x, y), z), p3)
  {
    assert OperatorIn(ts, p1, AndLevel) && !OperatorIn(ts, p2, AndLevel) && OperatorIn(ts, p2, OrLevel);
    assert BexpLevel(ts, p1 + 1, 0) == Result(y, p2);
    BexpLoopTakes(ts, 1, x, p1, y, p2);
    BexpLoopStops(ts, 1, AndBexp(x, y), p2);
    BexpOverTerm(ts, p0, x, p1, AndBexp(x, y), p2);
    assert BexpLevel(ts, p2 + 1, 0) == Result(z, p3);
    BexpLoopStops(ts, 1, z, p3);
    BexpLevelThen(ts, p2 + 1, 1, z, p3);
    BexpLoopTakes(ts, 2, AndBexp(x, y), p2, z, p3);
    BexpLoopStops(ts, 2, OrBexp(AndBexp(x, y), z), p3);
  }

  /** A comparison is an arithmetic expression, an operator of the
      relational table, and an arithmetic expression; its tree keeps the
      operator's text. Both directions. */
  lemma RelopShape(ts: seq<Token>, pos: nat)
    ensures BexpRelop(ts, pos).Result? <==>
      Aexp(ts, pos).Result? && OperatorIn(ts, Aexp(ts, pos).pos, Relops) && Aexp(ts, Aexp(ts, pos).pos + 1).Result?
    ensures BexpRelop(ts, pos).Result? ==>
      var q := Aexp(ts, pos).pos;
      BexpRelop(ts, pos) == Result(RelopBexp(ts[q].text, Aexp(ts, pos).value, Aexp(ts, q + 1).value), Aexp(ts, q + 1).pos)
      && BexpRelop(ts, pos).value.op in Relops
  {
  }

  // Statements

  /** The statements `rest` follow `pos`, each after a `;`; `ends[i]` is
      where the i-th one ends. */
  predicate Separated(ts: seq<Token>, pos: nat, rest: seq<Statement>, ends: seq<nat>)
    decreases |rest|
  {
    |rest| == |ends|
    && (|rest| > 0 ==>
          IsKeyword(ts, pos, ";") && Stmt(ts, pos + 1) == Result(rest[0], ends[0])
          && Separated(ts, ends[0], rest[1..], ends[1..]))
  }

  /** `acc` followed by `rest`, nested to the left: `((acc; r0); r1); ...`. */
  function Sequenced(acc: Statement, rest: seq<Statement>): Statement
    decreases |rest|
  {
    if rest == [] then acc else Sequenced(CompoundStatement(acc, rest[0]), rest[1..])
  }

  /** No further `; stmt` follows `pos`. */
  predicate ListEndsAt(ts: seq<Token>, pos: nat) {
    !IsKeyword(ts, pos, ";") || Stmt(ts, pos + 1).Failure?
  }

  /** The statement-list loop nests the statements it reads to the left. */
  lemma {:induction false} StmtListLoopSequences(ts: seq<Token>, acc: Statement, pos: nat, rest: seq<Statement>, ends: seq<nat>)
    requires Separated(ts, pos, rest, ends)
    requires ListEndsAt(ts, if ends == [] then pos else ends[|ends| - 1])
    ensures StmtListLoop(ts, acc, pos) == Result(Sequenced(acc, rest), if ends == [] then pos else ends[|ends| - 1])
    decreases |rest|
  {
    if rest != [] {
      assert StmtListLoop(ts, acc, pos) == StmtListLoop(ts, CompoundStatement(acc, rest[0]), ends[0]);
      if |rest| > 1 {
        assert ends[1..][|ends[1..]| - 1] == ends[|ends| - 1];
      }
      StmtListLoopSequences(ts, CompoundStatement(acc, rest[0]), ends[0], rest[1..], ends[1..]);
    }
  }

  /** A statement list is its first statement and the ones that follow it
      after `;`, nested to the left. */
  lemma StmtListSequences(ts: seq<Token>, pos: nat, first: Statement, p1: nat, rest: seq<Statement>, ends: seq<nat>)
    requires Stmt(ts, pos) == Result(first, p1) && Separated(ts, p1, rest, ends)
    requires ListEndsAt(ts, if ends == [] then p1 else ends[|ends| - 1])
    ensures StmtList(ts, pos) == Result(Sequenced(first, rest), if ends == [] then p1 else ends[|ends| - 1])
  {
    StmtListLoopSequences(ts, first, p1, rest, ends);
  }

  /** Three statements `a; b; c` are `(a; b); c`. */
  lemma ThreeStatementsNestLeft(ts: seq<Token>, p0: nat, a: Statement, p1: nat, b: Statement, p2: nat, c: Statement, p3: nat)
    requires Stmt(ts, p0) == Result(a, p1) && IsKeyword(ts, p1, ";")
    requires Stmt(ts, p1 + 1) == Result(b, p2) && IsKeyword(ts, p2, ";")
    requires Stmt(ts, p2 + 1) == Result(c, p3) && !IsKeyword(ts, p3, ";")
    ensures StmtList(ts, p0) == Result(CompoundStatement(CompoundStatement(a, b), c), p3)
  {
    var ab := CompoundStatement(a, b);
    assert Separated(ts, p3, [], []);
    assert Separated(ts, p2, [c], [p3]);
    assert Separated(ts, p1, [b, c], [p2, p3]) by {
      assert [b, c][1..] == [c] && [p2, p3][1..] == [p3];
    }
    assert ListEndsAt(ts, [p2, p3][|[p2, p3]| - 1]);
    assert Sequenced(a, [b, c]) == CompoundStatement(ab, c) by {
      assert [b, c][1..] == [c] && [c][1..] == [];
      assert Sequenced(a, [b, c]) == Sequenced(ab, [c]);
      assert Sequenced(ab, [c]) == Sequenced(CompoundStatement(ab, c), []);
    }
    StmtListSequences(ts, p0, a, p1, [b, c], [p2, p3]);
  }

  /** `a; b` followed by no `;` yields `Compound(a, b)`. */
  lemma TwoStatementsNest(ts: seq<Token>, p0: nat, a: Statement, p1: nat, b: Statement, p2: nat)
    requires Stmt(ts, p0) == Result(a, p1) && IsKeyword(ts, p1, ";")
    requires Stmt(ts, p1 + 1) == Result(b, p2) && !IsKeyword(ts, p2, ";")
    ensures StmtList(ts, p0) == Result(CompoundStatement(a, b), p2)
  {
    assert Separated(ts, p2, [], []);
    assert Separated(ts, p1, [b], [p2]);
    assert ListEndsAt(ts, [p2][|[p2]| - 1]);
    assert Sequenced(a, [b]) == CompoundStatement(a, b) by {
      assert [b][1..] == [];
    }
    StmtListSequences(ts, p0, a, p1, [b], [p2]);
  }

  /** A name, `:=` and an expression form a statement: the assignment. */
  lemma AssignIsStatement(ts: seq<Token>, pos: nat, e: ArithExp, q: nat)
    requires pos < |ts| && ts[pos].tag == ID && IsKeyword(ts, pos + 1, ":=") && Aexp(ts, pos + 2) == Result(e, q)
    ensures Stmt(ts, pos) == Result(AssignStatement(ts[pos].text, e), q)
  {
    assert AssignStmt(ts, pos) == Result(AssignStatement(ts[pos].text, e), q);
  }

  /** `while c do b end` is a statement: the loop. */
  lemma WhileIsStatement(ts: seq<Token>, pos: nat, c: BoolExp, q1: nat, b: Statement, q2: nat)
    requires IsKeyword(ts, pos, "while") && Bexp(ts, pos + 1) == Result(c, q1) && IsKeyword(ts, q1, "do")
    requires StmtList(ts, q1 + 1) == Result(b, q2) && IsKeyword(ts, q2, "end")
    ensures Stmt(ts, pos) == Result(WhileStatement(c, b), q2 + 1)
  {
    assert AssignStmt(ts, pos).Failure?;
    assert IfStmt(ts, pos).Failure?;
    assert WhileStmt(ts, pos) == Result(WhileStatement(c, b), q2 + 1);
  }

  /** An `if` without `else`: the optional part is empty. */
  lemma IfWithoutElse(ts: seq<Token>, pos: nat, c: BoolExp, q1: nat, t: Statement, q2: nat)
    requires IsKeyword(ts, pos, "if") && Bexp(ts, pos + 1) == Result(c, q1) && IsKeyword(ts, q1, "then")
    requires StmtList(ts, q1 + 1) == Result(t, q2) && IsKeyword(ts, q2, "end")
    ensures IfStmt(ts, pos) == Result(IfStatement(c, t, None), q2 + 1)
  {
  }

  /** An `if` with `else`: the optional part holds the else-branch. */
  lemma IfWithElse(ts: seq<Token>, pos: nat, c: BoolExp, q1: nat, t: Statement, q2: nat, e: Statement, q3: nat)
    requires IsKeyword(ts, pos, "if") && Bexp(ts, pos + 1) == Result(c, q1) && IsKeyword(ts, q1, "then")
    requires StmtList(ts, q1 + 1) == Result(t, q2) && IsKeyword(ts, q2, "else")
    requires StmtList(ts, q2 + 1) == Result(e, q3) && IsKeyword(ts, q3, "end")
    ensures IfStmt(ts, pos) == Result(IfStatement(c, t, Some(e)), q3 + 1)
  {
  }

  /** Every `if` the grammar accepts has one of the two forms above: it
      starts with `if`, ends with `end`, and has an else-branch exactly when
      an `else` follows its then-branch. An `else` whose statement list does
      not parse makes the whole statement fail. */
  lemma IfShape(ts: seq<Token>, pos: nat)
    requires IfStmt(ts, pos).Result?
    ensures IsKeyword(ts, pos, "if") && IsKeyword(ts, IfStmt(ts, pos).pos - 1, "end")
    ensures
      var c := Bexp(ts, pos + 1);
      c.Result? && IsKeyword(ts, c.pos, "then")
      && var t := StmtList(ts, c.pos + 1);
      t.Result? && IfStmt(ts, pos).value.IfStatement?
      && IfStmt(ts, pos).value.condition == c.value && IfStmt(ts, pos).value.trueStmt == t.value
      && (IfStmt(ts, pos).value.falseStmt.Some? <==> IsKeyword(ts, t.pos, "else"))
  {
    var c := Bexp(ts, pos + 1);
    var t := StmtList(ts, c.pos + 1);
    assert IfStmt(ts, pos) == IfStmtEnd(ts, c.value, t.value, t.pos);
  }

  /** A `while` has a condition, `do`, a body, and `end`. */
  lemma WhileShape(ts: seq<Token>, pos: nat)
    ensures WhileStmt(ts, pos).Result? <==>
      IsKeyword(ts, pos, "while") && Bexp(ts, pos + 1).Result? && IsKeyword(ts, Bexp(ts, pos + 1).pos, "do")
      && StmtList(ts, Bexp(ts, pos + 1).pos + 1).Result?
      && IsKeyword(ts, StmtList(ts, Bexp(ts, pos + 1).pos + 1).pos, "end")
    ensures WhileStmt(ts, pos).Result? ==>
      WhileStmt(ts, pos).value
      == WhileStatement(Bexp(ts, pos + 1).value, StmtList(ts, Bexp(ts, pos + 1).pos + 1).value)
  {
  }

  // What the whole-program parse rejects

  /** An empty program does not parse. */
  lemma EmptyProgramRejected()
    ensures ImpParse([]).Failure?
  {
  }

  /** A program ending in `;` does not parse: a statement list never ends on a separator. */
  lemma TrailingSeparatorRejected(ts: seq<Token>)
    requires |ts| > 0 && ts[|ts| - 1] == Token(";", RESERVED)
    ensures ImpParse(ts).Failure?
  {
  }

  /** Two assignments without `;` between them, `x := m y := n`, do not
      parse as a program: the statement list stops after the first one. */
  lemma MissingSeparatorRejected(x: string, m: string, y: string, n: string)
    ensures
      var ts := [Token(x, ID), Token(":=", RESERVED), Token(m, INT), Token(y, ID), Token(":=", RESERVED), Token(n, INT)];
      ImpParse(ts).Failure?
  {
    var ts := [Token(x, ID), Token(":=", RESERVED), Token(m, INT), Token(y, ID), Token(":=", RESERVED), Token(n, INT)];
    var e := IntAexp(DecimalValue(m));
    assert AexpTerm(ts, 2) == Result(e, 3);
    AexpSingleTerm(ts, 2, e, 3);
    assert Stmt(ts, 0) == Result(AssignStatement(x, e), 3);
    assert StmtList(ts, 0) == Result(AssignStatement(x, e), 3);
  }

  /** The comparison `x = 1` parses: `=` is in the relational table. */
  lemma EqualsSignParses()
    ensures
      var ts := [Token("x", ID), Token("=", RESERVED), Token("1", INT)];
      Bexp(ts, 0) == Result(RelopBexp("=", VarAexp("x"), IntAexp(1)), 3)
  {
    var ts := [Token("x", ID), Token("=", RESERVED), Token("1", INT)];
    assert AexpTerm(ts, 0) == Result(VarAexp("x"), 1);
    AexpSingleTerm(ts, 0, VarAexp("x"), 1);
    assert DecimalValue("1") == 1;
    assert AexpTerm(ts, 2) == Result(IntAexp(1), 3);
    AexpSingleTerm(ts, 2, IntAexp(1), 3);
    assert BexpRelop(ts, 0) == Result(RelopBexp("=", VarAexp("x"), IntAexp(1)), 3);
    assert BexpTerm(ts, 0) == BexpRelop(ts, 0);
    BexpSingleTerm(ts, 0, RelopBexp("=", VarAexp("x"), IntAexp(1)), 3);
  }

  /** `2 + 3 * 4` is `2 + (3 * 4)`. */
  lemma SumOfProductExample()
    ensures
      var ts := [Token("2", INT), Token("+", RESERVED), Token("3", INT), Token("*", RESERVED), Token("4", INT)];
      Aexp(ts, 0) == Result(BinopAexp("+", IntAexp(2), BinopAexp("*", IntAexp(3), IntAexp(4))), 5)
  {
    var ts := [Token("2", INT), Token("+", RESERVED), Token("3", INT), Token("*", RESERVED), Token("4", INT)];
    assert DecimalValue("2") == 2 && DecimalValue("3") == 3 && DecimalValue("4") == 4;
    assert AexpTerm(ts, 0) == Result(IntAexp(2), 1);
    assert AexpTerm(ts, 2) == Result(IntAexp(3), 3);
    assert AexpTerm(ts, 4) == Result(IntAexp(4), 5);
    MulBindsTighterOnTheRight(ts, 0, IntAexp(2), 1, IntAexp(3), 3, IntAexp(4), 5);
  }

  /** `1 - 2 - 3` is `(1 - 2) - 3`. */
  lemma DifferenceAssociatesLeftExample()
    ensures
      var ts := [Token("1", INT), Token("-", RESERVED), Token("2", INT), Token("-", RESERVED), Token("3", INT)];
      Aexp(ts, 0) == Result(BinopAexp("-", BinopAexp("-", IntAexp(1), IntAexp(2)), IntAexp(3)), 5)
  {
    var ts := [Token("1", INT), Token("-", RESERVED), Token("2", INT), Token("-", RESERVED), Token("3", INT)];
    assert DecimalValue("1") == 1 && DecimalValue("2") == 2 && DecimalValue("3") == 3;
    assert AexpTerm(ts, 0) == Result(IntAexp(1), 1);
    assert AexpTerm(ts, 2) == Result(IntAexp(2), 3);
    assert AexpTerm(ts, 4) == Result(IntAexp(3), 5);
    SameLevelAssociatesLeft(ts, 2, 0, IntAexp(1), 1, IntAexp(2), 3, IntAexp(3), 5);
  }

  /** `((1))` parses to the same tree as `1`. */
  lemma NestedGroupExample()
    ensures
      var ts := [Token("(", RESERVED), Token("(", RESERVED), Token("1", INT), Token(")", RESERVED), Token(")", RESERVED)];
      Aexp(ts, 0) == Result(IntAexp(1), 5)
  {
    var ts := [Token("(", RESERVED), Token("(", RESERVED), Token("1", INT), Token(")", RESERVED), Token(")", RESERVED)];
    assert DecimalValue("1") == 1;
    assert AexpTerm(ts, 2) == Result(IntAexp(1), 3);
    AexpSingleTerm(ts, 2, IntAexp(1), 3);
    GroupIsTransparent(ts, 1, IntAexp(1), 3);
    GroupIsTransparent(ts, 0, IntAexp(1), 4);
  }

  /** A parenthesised boolean expression yields the inner tree. */
  lemma BoolGroupIsTransparent(ts: seq<Token>, pos: nat, b: BoolExp, q: nat)
    requires IsKeyword(ts, pos, "(") && Bexp(ts, pos + 1) == Result(b, q) && IsKeyword(ts, q, ")")
    ensures BexpGroup(ts, pos) == Result(b, q + 1)
    ensures BexpRelop(ts, pos).Failure? ==> BexpTerm(ts, pos) == Result(b, q + 1)
  {
    assert BexpNot(ts, pos).Failure?;
  }
}
