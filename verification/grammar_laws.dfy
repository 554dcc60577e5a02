/** Each rule of ImpParser is the source's combinator expression for that
    rule (its form in Grammar), applied to the parsers of the rules it
    refers to, through `Lazy` wherever the source goes through `Lazy`. */
module GrammarLaws {
  import opened Wrappers
  import opened Tokens
  import opened Combinators
  import opened CombinatorLaws
  import opened Ast
  import opened Grammar
  import opened ImpParser

  // The precedence tower

  lemma LevelsFitSnoc<T>(levels: seq<seq<string>>, level: seq<string>, combine: string --> ((T, T) -> T))
    requires LevelsFit(levels, combine)
    requires |level| > 0 && forall op :: op in level ==> combine.requires(op)
    ensures LevelsFit(levels + [level], combine)
  {
    var all := levels + [level];
    forall i | 0 <= i < |all|
      ensures |all[i]| > 0 && forall op :: op in all[i] ==> combine.requires(op)
    {
      if i < |levels| {
        assert all[i] == levels[i];
      } else {
        assert all[i] == level;
      }
    }
  }

  lemma LevelsFitTail<T>(levels: seq<seq<string>>, combine: string --> ((T, T) -> T))
    requires LevelsFit(levels, combine) && levels != []
    ensures |levels[0]| > 0 && forall op :: op in levels[0] ==> combine.requires(op)
    ensures LevelsFit(levels[1..], combine)
  {
    forall i | 0 <= i < |levels[1..]|
      ensures |levels[1..][i]| > 0 && forall op :: op in levels[1..][i] ==> combine.requires(op)
    {
      assert levels[1..][i] == levels[i + 1];
    }
  }

  /** Adding a level at the outer end of the table wraps one more `Exp`
      around the parser built from the levels before it. */
  lemma {:induction false} ClimbSnoc<T>(p: Parser<T>, levels: seq<seq<string>>, level: seq<string>,
                                        combine: string --> ((T, T) -> T))
    requires Monotone(p) && LevelsFit(levels, combine)
    requires |level| > 0 && forall op :: op in level ==> combine.requires(op)
    ensures LevelsFit(levels + [level], combine)
    ensures Climb(p, levels + [level], combine) == Exp(Climb(p, levels, combine), OpParser(level, combine))
    decreases |levels|
  {
    var all := levels + [level];
    LevelsFitSnoc(levels, level, combine);
    if levels == [] {
      assert all[0] == level && all[1..] == [];
    } else {
      assert all[0] == levels[0] && all[1..] == levels[1..] + [level];
      LevelsFitTail(levels, combine);
      ClimbSnoc(Exp(p, OpParser(levels[0], combine)), levels[1..], level, combine);
    }
  }

  lemma TakeSnoc<X>(s: seq<X>, k: nat)
    requires 0 < k <= |s|
    ensures s[..k] == s[..k - 1] + [s[k - 1]]
  {
  }

  /** Running the source's level loop over the first `k` levels builds the
      tower `Nest(k)`. */
  lemma {:induction false} ClimbIsNest<T>(value: Parser<T>, levels: seq<seq<string>>, combine: string --> ((T, T) -> T), k: nat)
    requires Monotone(value) && LevelsFit(levels, combine) && k <= |levels|
    ensures LevelsFit(levels[..k], combine)
    ensures Climb(value, levels[..k], combine) == Nest(value, levels, combine, k)
    decreases k
  {
    if k == 0 {
      assert levels[..k] == [];
    } else {
      ClimbIsNest(value, levels, combine, k - 1);
      TakeSnoc(levels, k);
      assert |levels[k - 1]| > 0 && forall op :: op in levels[k - 1] ==> combine.requires(op);
      ClimbSnoc(value, levels[..k - 1], levels[k - 1], combine);
    }
  }

  /** `precedence` is the tower with every level of the table, the last
      level outermost. */
  lemma PrecedenceIsNest<T>(value: Parser<T>, levels: seq<seq<string>>, combine: string --> ((T, T) -> T))
    requires |levels| > 0 && Monotone(value) && LevelsFit(levels, combine)
    ensures Precedence(value, levels, combine) == Nest(value, levels, combine, |levels|)
  {
    ClimbIsNest(value, levels, combine, |levels|);
    assert levels[..|levels|] == levels;
  }

  lemma AexpLevelsFit()
    ensures LevelsFit(AexpPrecedenceLevels, ProcessBinop)
  {
  }

  lemma BexpLevelsFit()
    ensures LevelsFit(BexpPrecedenceLevels, ProcessLogic)
  {
  }

  // Sequencing, read token by token

  /** What `keyword(kw) + b` computes. */
  function KeywordThen<B>(kw: string, b: Parser<B>, ts: seq<Token>, pos: nat): ParseResult<(string, B)>
  {
    if IsKeyword(ts, pos, kw) && b(ts, pos + 1).Result?
    then Result((kw, b(ts, pos + 1).value), b(ts, pos + 1).pos)
    else Failure
  }

  lemma KeywordThenAt<B>(kw: string, b: Parser<B>, ts: seq<Token>, pos: nat)
    ensures Concat(Keyword(kw), b)(ts, pos) == KeywordThen(kw, b, ts, pos)
  {
    if IsKeyword(ts, pos, kw) {
      assert Keyword(kw)(ts, pos) == Result(kw, pos + 1);
    }
  }

  /** Any two parsers in sequence. */
  lemma ConcatAt<A, B>(a: Parser<A>, b: Parser<B>, ts: seq<Token>, pos: nat)
    ensures Concat(a, b)(ts, pos)
         == if a(ts, pos).Result? && b(ts, a(ts, pos).pos).Result?
            then Result((a(ts, pos).value, b(ts, a(ts, pos).pos).value), b(ts, a(ts, pos).pos).pos)
            else Failure
  {
  }

  /** A parser followed by an optional one fails only where the first does. */
  lemma ConcatOptAt<A, B>(a: Parser<A>, b: Parser<B>, ts: seq<Token>, pos: nat)
    ensures Concat(a, Opt(b))(ts, pos)
         == if a(ts, pos).Failure? then Failure
            else Result((a(ts, pos).value, Opt(b)(ts, a(ts, pos).pos).value), Opt(b)(ts, a(ts, pos).pos).pos)
  {
  }

  /** A parser followed by a keyword. */
  lemma ConcatKeywordAt<A>(a: Parser<A>, kw: string, ts: seq<Token>, pos: nat)
    ensures Concat(a, Keyword(kw))(ts, pos)
         == if a(ts, pos).Result? && IsKeyword(ts, a(ts, pos).pos, kw)
            then Result((a(ts, pos).value, kw), a(ts, pos).pos + 1)
            else Failure
  {
    if a(ts, pos).Result? && IsKeyword(ts, a(ts, pos).pos, kw) {
      assert Keyword(kw)(ts, a(ts, pos).pos) == Result(kw, a(ts, pos).pos + 1);
    }
  }

  // Arithmetic expressions

  /** Level `k` of the tower: the level below, then the loop over level `k`'s operators. */
  lemma NestStep<T>(value: Parser<T>, levels: seq<seq<string>>, combine: string --> ((T, T) -> T),
                    k: nat, ts: seq<Token>, pos: nat)
    requires 0 < k <= |levels| && Monotone(value) && LevelsFit(levels, combine)
    ensures Nest(value, levels, combine, k)(ts, pos)
         == var below := Nest(value, levels, combine, k - 1)(ts, pos);
            if below.Failure? then Failure
            else ExpLoop(Nest(value, levels, combine, k - 1), OpParser(levels[k - 1], combine), ts, below.value, below.pos)
  {
  }

  /** One turn of the loop of a precedence level: an operator of the level
      and an operand extend the accumulated value. */
  lemma OpLoopStep<T>(p: Parser<T>, level: seq<string>, combine: string --> ((T, T) -> T),
                      ts: seq<Token>, acc: T, pos: nat)
    requires Monotone(p) && |level| > 0 && forall op :: op in level ==> combine.requires(op)
    ensures ExpLoop(p, OpParser(level, combine), ts, acc, pos)
         == if OperatorIn(ts, pos, level) && p(ts, pos + 1).Result?
            then ExpLoop(p, OpParser(level, combine), ts, combine(ts[pos].text)(acc, p(ts, pos + 1).value), p(ts, pos + 1).pos)
            else Result(acc, pos)
  {
    var sep := OpParser(level, combine);
    ExpLoopStep(p, sep, ts, acc, pos);
    if OperatorIn(ts, pos, level) {
      assert sep(ts, pos) == Result(combine(ts[pos].text), pos + 1);
    }
  }

  /** The loop of level `k` is `Exp`'s loop over the level's operators and
      the tower one level down, given that level `k - 1` is that tower. */
  lemma {:induction false} AexpLevelLoopIsExpLoop(ts: seq<Token>, k: nat, acc: ArithExp, pos: nat)
    requires 1 <= k <= |AexpPrecedenceLevels| && LevelsFit(AexpPrecedenceLevels, ProcessBinop)
    requires forall q: nat {:trigger AexpLevel(ts, q, k - 1)} :: AexpLevel(ts, q, k - 1) == Nest(AexpTermParser(), AexpPrecedenceLevels, ProcessBinop, k - 1)(ts, q)
    ensures AexpLevelLoop(ts, k, acc, pos)
         == ExpLoop(Nest(AexpTermParser(), AexpPrecedenceLevels, ProcessBinop, k - 1),
                    OpParser(AexpPrecedenceLevels[k - 1], ProcessBinop), ts, acc, pos)
    decreases |ts| - pos
  {
    OpLoopStep(Nest(AexpTermParser(), AexpPrecedenceLevels, ProcessBinop, k - 1), AexpPrecedenceLevels[k - 1], ProcessBinop, ts, acc, pos);
    if OperatorIn(ts, pos, AexpPrecedenceLevels[k - 1]) {
      var r := AexpLevel(ts, pos + 1, k - 1);
      if r.Result? {
        assert ProcessBinop(ts[pos].text)(acc, r.value) == BinopAexp(ts[pos].text, acc, r.value);
        AexpLevelLoopIsExpLoop(ts, k, BinopAexp(ts[pos].text, acc, r.value), r.pos);
      }
    }
  }

  /** One level up: if level `k - 1` is the tower of depth `k - 1`, level
      `k` is the tower of depth `k`. */
  lemma AexpLevelStepIsNest(ts: seq<Token>, pos: nat, k: nat)
    requires 1 <= k <= |AexpPrecedenceLevels| && LevelsFit(AexpPrecedenceLevels, ProcessBinop)
    requires forall q: nat {:trigger AexpLevel(ts, q, k - 1)} :: AexpLevel(ts, q, k - 1) == Nest(AexpTermParser(), AexpPrecedenceLevels, ProcessBinop, k - 1)(ts, q)
    ensures AexpLevel(ts, pos, k) == Nest(AexpTermParser(), AexpPrecedenceLevels, ProcessBinop, k)(ts, pos)
  {
    NestStep(AexpTermParser(), AexpPrecedenceLevels, ProcessBinop, k, ts, pos);
    var r := AexpLevel(ts, pos, k - 1);
    if r.Result? {
      AexpLevelLoopIsExpLoop(ts, k, r.value, r.pos);
    }
  }

  /** Level `k` of `aexp` is the `k`-deep tower over its term rule. */
  lemma {:induction false} AexpLevelIsNest(k: nat)
    requires k <= |AexpPrecedenceLevels|
    ensures LevelsFit(AexpPrecedenceLevels, ProcessBinop)
    ensures forall ts: seq<Token>, pos: nat ::
      AexpLevel(ts, pos, k) == Nest(AexpTermParser(), AexpPrecedenceLevels, ProcessBinop, k)(ts, pos)
    decreases k
  {
    AexpLevelsFit();
    if k > 0 {
      AexpLevelIsNest(k - 1);
      forall ts: seq<Token>, pos: nat
        ensures AexpLevel(ts, pos, k) == Nest(AexpTermParser(), AexpPrecedenceLevels, ProcessBinop, k)(ts, pos)
      {
        AexpLevelStepIsNest(ts, pos, k);
      }
    }
  }

  /** `aexp` is `precedence(aexp_term, aexp_precedence_levels, process_binop)`. */
  lemma AexpIsSourceForm(ts: seq<Token>, pos: nat)
    ensures Aexp(ts, pos) == AexpForm(AexpTermParser())(ts, pos)
  {
    AexpLevelIsNest(|AexpPrecedenceLevels|);
    PrecedenceIsNest(AexpTermParser(), AexpPrecedenceLevels, ProcessBinop);
  }

  /** `aexp_term` is `aexp_value | aexp_group`. */
  lemma AexpTermIsSourceForm(ts: seq<Token>, pos: nat)
    ensures AexpTerm(ts, pos) == AexpTermForm(AexpGroupParser())(ts, pos)
  {
  }

  /** What `keyword('(') + inner + keyword(')') ^ process_group` computes,
      read token by token. */
  function GroupSteps<T>(inner: Parser<T>, ts: seq<Token>, pos: nat): ParseResult<T>
  {
    if IsKeyword(ts, pos, "(") && inner(ts, pos + 1).Result? && IsKeyword(ts, inner(ts, pos + 1).pos, ")")
    then Result(inner(ts, pos + 1).value, inner(ts, pos + 1).pos + 1)
    else Failure
  }

  /** The tuple `keyword('(') + inner + keyword(')')` collects. */
  function GroupParts<T>(inner: Parser<T>, ts: seq<Token>, pos: nat): ParseResult<((string, T), string)>
  {
    var h := KeywordThen("(", inner, ts, pos);
    if h.Result? && IsKeyword(ts, h.pos, ")") then Result((h.value, ")"), h.pos + 1) else Failure
  }

  lemma GroupPartsAt<T>(inner: Parser<T>, ts: seq<Token>, pos: nat)
    ensures Concat(Concat(Keyword("("), inner), Keyword(")"))(ts, pos) == GroupParts(inner, ts, pos)
  {
    KeywordThenAt("(", inner, ts, pos);
    ConcatKeywordAt(Concat(Keyword("("), inner), ")", ts, pos);
  }

  lemma GroupPartsProcessed<T>(inner: Parser<T>, ts: seq<Token>, pos: nat)
    ensures GroupSteps(inner, ts, pos)
         == if GroupParts(inner, ts, pos).Result?
            then Result(ProcessGroup(GroupParts(inner, ts, pos).value), GroupParts(inner, ts, pos).pos)
            else Failure
  {
  }

  lemma GroupFormAt<T>(inner: Parser<T>, ts: seq<Token>, pos: nat)
    ensures GroupForm(inner)(ts, pos) == GroupSteps(inner, ts, pos)
  {
    GroupPartsAt(inner, ts, pos);
    GroupPartsProcessed(inner, ts, pos);
  }

  lemma AexpGroupSteps(ts: seq<Token>, pos: nat)
    ensures AexpGroup(ts, pos) == GroupSteps(LazyAexp(), ts, pos)
  {
    assert LazyAexp()(ts, pos + 1) == Aexp(ts, pos + 1);
  }

  /** `aexp_group` is `keyword('(') + Lazy(aexp) + keyword(')') ^ process_group`. */
  lemma AexpGroupIsSourceForm(ts: seq<Token>, pos: nat)
    ensures AexpGroup(ts, pos) == GroupForm(LazyAexp())(ts, pos)
  {
    GroupFormAt(LazyAexp(), ts, pos);
    AexpGroupSteps(ts, pos);
  }

  // Boolean expressions

  /** The loop of level `k` is `Exp`'s loop over the level's operators and
      the tower one level down, given that level `k - 1` is that tower. */
  lemma {:induction false} BexpLevelLoopIsExpLoop(ts: seq<Token>, k: nat, acc: BoolExp, pos: nat)
    requires 1 <= k <= |BexpPrecedenceLevels| && LevelsFit(BexpPrecedenceLevels, ProcessLogic)
    requires forall q: nat {:trigger BexpLevel(ts, q, k - 1)} :: BexpLevel(ts, q, k - 1) == Nest(BexpTermParser(), BexpPrecedenceLevels, ProcessLogic, k - 1)(ts, q)
    ensures BexpLevelLoop(ts, k, acc, pos)
         == ExpLoop(Nest(BexpTermParser(), BexpPrecedenceLevels, ProcessLogic, k - 1),
                    OpParser(BexpPrecedenceLevels[k - 1], ProcessLogic), ts, acc, pos)
    decreases |ts| - pos
  {
    OpLoopStep(Nest(BexpTermParser(), BexpPrecedenceLevels, ProcessLogic, k - 1), BexpPrecedenceLevels[k - 1], ProcessLogic, ts, acc, pos);
    if OperatorIn(ts, pos, BexpPrecedenceLevels[k - 1]) {
      var r := BexpLevel(ts, pos + 1, k - 1);
      if r.Result? {
        assert ProcessLogic(ts[pos].text)(acc, r.value) == if ts[pos].text == "and" then AndBexp(acc, r.value) else OrBexp(acc, r.value);
        BexpLevelLoopIsExpLoop(ts, k, if ts[pos].text == "and" then AndBexp(acc, r.value) else OrBexp(acc, r.value), r.pos);
      }
    }
  }

  /** One level up: if level `k - 1` is the tower of depth `k - 1`, level
      `k` is the tower of depth `k`. */
  lemma BexpLevelStepIsNest(ts: seq<Token>, pos: nat, k: nat)
    requires 1 <= k <= |BexpPrecedenceLevels| && LevelsFit(BexpPrecedenceLevels, ProcessLogic)
    requires forall q: nat {:trigger BexpLevel(ts, q, k - 1)} :: BexpLevel(ts, q, k - 1) == Nest(BexpTermParser(), BexpPrecedenceLevels, ProcessLogic, k - 1)(ts, q)
    ensures BexpLevel(ts, pos, k) == Nest(BexpTermParser(), BexpPrecedenceLevels, ProcessLogic, k)(ts, pos)
  {
    NestStep(BexpTermParser(), BexpPrecedenceLevels, ProcessLogic, k, ts, pos);
    var r := BexpLevel(ts, pos, k - 1);
    if r.Result? {
      BexpLevelLoopIsExpLoop(ts, k, r.value, r.pos);
    }
  }

  /** Level `k` of `bexp` is the `k`-deep tower over its term rule. */
  lemma {:induction false} BexpLevelIsNest(k: nat)
    requires k <= |BexpPrecedenceLevels|
    ensures LevelsFit(BexpPrecedenceLevels, ProcessLogic)
    ensures forall ts: seq<Token>, pos: nat ::
      BexpLevel(ts, pos, k) == Nest(BexpTermParser(), BexpPrecedenceLevels, ProcessLogic, k)(ts, pos)
    decreases k
  {
    BexpLevelsFit();
    if k > 0 {
      BexpLevelIsNest(k - 1);
      forall ts: seq<Token>, pos: nat
        ensures BexpLevel(ts, pos, k) == Nest(BexpTermParser(), BexpPrecedenceLevels, ProcessLogic, k)(ts, pos)
      {
        BexpLevelStepIsNest(ts, pos, k);
      }
    }
  }

  /** `bexp` is `precedence(bexp_term, bexp_precedence_levels, process_logic)`. */
  lemma BexpIsSourceForm(ts: seq<Token>, pos: nat)
    ensures Bexp(ts, pos) == BexpForm(BexpTermParser())(ts, pos)
  {
    BexpLevelIsNest(|BexpPrecedenceLevels|);
    PrecedenceIsNest(BexpTermParser(), BexpPrecedenceLevels, ProcessLogic);
  }

  /** `bexp_term` is `bexp_not | bexp_relop | bexp_group`. */
  lemma BexpTermIsSourceForm(ts: seq<Token>, pos: nat)
    ensures BexpTerm(ts, pos) == BexpTermForm(BexpNotParser(), BexpRelopParser(), BexpGroupParser())(ts, pos)
  {
  }

  /** What `keyword('not') + term ^ NotBexp` computes, read token by token. */
  function NotSteps(term: Parser<BoolExp>, ts: seq<Token>, pos: nat): ParseResult<BoolExp>
  {
    if IsKeyword(ts, pos, "not") && term(ts, pos + 1).Result?
    then Result(NotBexp(term(ts, pos + 1).value), term(ts, pos + 1).pos)
    else Failure
  }

  lemma BexpNotFormAt(term: Parser<BoolExp>, ts: seq<Token>, pos: nat)
    ensures BexpNotForm(term)(ts, pos) == NotSteps(term, ts, pos)
  {
    var c := Concat(Keyword("not"), term);
    if IsKeyword(ts, pos, "not") {
      assert Keyword("not")(ts, pos) == Result("not", pos + 1);
    } else {
      assert c(ts, pos).Failure?;
    }
  }

  lemma BexpNotSteps(ts: seq<Token>, pos: nat)
    ensures BexpNot(ts, pos) == NotSteps(LazyBexpTerm(), ts, pos)
  {
    assert LazyBexpTerm()(ts, pos + 1) == BexpTerm(ts, pos + 1);
  }

  /** `bexp_not` is `keyword('not') + Lazy(bexp_term) ^ NotBexp`. */
  lemma BexpNotIsSourceForm(ts: seq<Token>, pos: nat)
    ensures BexpNot(ts, pos) == BexpNotForm(LazyBexpTerm())(ts, pos)
  {
    BexpNotFormAt(LazyBexpTerm(), ts, pos);
    BexpNotSteps(ts, pos);
  }

  /** What `aexp + any_operator_in_list(relops) + aexp ^ process_relop`
      computes, read token by token. */
  function RelopSteps(aexp: Parser<ArithExp>, ts: seq<Token>, pos: nat): ParseResult<BoolExp>
  {
    if aexp(ts, pos).Failure? then Failure
    else
      var left := aexp(ts, pos);
      if OperatorIn(ts, left.pos, Relops) && aexp(ts, left.pos + 1).Result?
      then Result(RelopBexp(ts[left.pos].text, left.value, aexp(ts, left.pos + 1).value), aexp(ts, left.pos + 1).pos)
      else Failure
  }

  lemma RelopFormFails(aexp: Parser<ArithExp>, ts: seq<Token>, pos: nat)
    requires RelopSteps(aexp, ts, pos).Failure?
    ensures BexpRelopForm(aexp)(ts, pos).Failure?
  {
    var c1 := Concat(aexp, AnyOperatorInList(Relops));
    var left := aexp(ts, pos);
    if left.Result? && OperatorIn(ts, left.pos, Relops) {
      assert c1(ts, pos) == Result((left.value, ts[left.pos].text), left.pos + 1);
    } else {
      assert c1(ts, pos).Failure?;
    }
  }

  lemma RelopFormSucceeds(aexp: Parser<ArithExp>, ts: seq<Token>, pos: nat)
    requires RelopSteps(aexp, ts, pos).Result?
    ensures BexpRelopForm(aexp)(ts, pos) == RelopSteps(aexp, ts, pos)
  {
    var c1 := Concat(aexp, AnyOperatorInList(Relops));
    var left := aexp(ts, pos);
    assert c1(ts, pos) == Result((left.value, ts[left.pos].text), left.pos + 1);
  }

  lemma BexpRelopFormAt(aexp: Parser<ArithExp>, ts: seq<Token>, pos: nat)
    ensures BexpRelopForm(aexp)(ts, pos) == RelopSteps(aexp, ts, pos)
  {
    if RelopSteps(aexp, ts, pos).Result? {
      RelopFormSucceeds(aexp, ts, pos);
    } else {
      RelopFormFails(aexp, ts, pos);
    }
  }

  lemma BexpRelopSteps(ts: seq<Token>, pos: nat)
    ensures BexpRelop(ts, pos) == RelopSteps(AexpParser(), ts, pos)
  {
    assert AexpParser()(ts, pos) == Aexp(ts, pos);
    var left := Aexp(ts, pos);
    if left.Result? {
      assert AexpParser()(ts, left.pos + 1) == Aexp(ts, left.pos + 1);
    }
  }

  /** `bexp_relop` is `aexp + any_operator_in_list(relops) + aexp ^ process_relop`. */
  lemma BexpRelopIsSourceForm(ts: seq<Token>, pos: nat)
    ensures BexpRelop(ts, pos) == BexpRelopForm(AexpParser())(ts, pos)
  {
    BexpRelopFormAt(AexpParser(), ts, pos);
    BexpRelopSteps(ts, pos);
  }

  lemma BexpGroupSteps(ts: seq<Token>, pos: nat)
    ensures BexpGroup(ts, pos) == GroupSteps(LazyBexp(), ts, pos)
  {
    assert LazyBexp()(ts, pos + 1) == Bexp(ts, pos + 1);
  }

  /** `bexp_group` is `keyword('(') + Lazy(bexp) + keyword(')') ^ process_group`. */
  lemma BexpGroupIsSourceForm(ts: seq<Token>, pos: nat)
    ensures BexpGroup(ts, pos) == GroupForm(LazyBexp())(ts, pos)
  {
    GroupFormAt(LazyBexp(), ts, pos);
    BexpGroupSteps(ts, pos);
  }

  // Statements

  lemma {:induction false} StmtListLoopIsExpLoop(ts: seq<Token>, acc: Statement, pos: nat)
    ensures StmtListLoop(ts, acc, pos) == ExpLoop(StmtParser(), StmtSeparator(), ts, acc, pos)
    decreases |ts| - pos
  {
    AdvancingIsMonotone(StmtParser());
    ExpLoopStep(StmtParser(), StmtSeparator(), ts, acc, pos);
    if IsKeyword(ts, pos, ";") {
      var r := Stmt(ts, pos + 1);
      if r.Result? {
        SeparatorAt(ts, pos, acc, r.value);
        StmtListLoopIsExpLoop(ts, CompoundStatement(acc, r.value), r.pos);
      }
    }
  }

  /** At a `;` the separator reads the function that builds a compound. */
  lemma SeparatorAt(ts: seq<Token>, pos: nat, first: Statement, second: Statement)
    requires IsKeyword(ts, pos, ";")
    ensures StmtSeparator()(ts, pos).Result? && StmtSeparator()(ts, pos).pos == pos + 1
    ensures StmtSeparator()(ts, pos).value(first, second) == CompoundStatement(first, second)
  {
  }

  /** `stmt_list` is `stmt * separator`, the separator being `;` building a compound. */
  lemma StmtListIsSourceForm(ts: seq<Token>, pos: nat)
    ensures Monotone(StmtParser())
    ensures StmtList(ts, pos) == StmtListForm(StmtParser())(ts, pos)
  {
    AdvancingIsMonotone(StmtParser());
    var r := Stmt(ts, pos);
    if r.Result? {
      StmtListLoopIsExpLoop(ts, r.value, r.pos);
    }
  }

  /** `stmt` is `assign_stmt | if_stmt | while_stmt`. */
  lemma StmtIsSourceForm(ts: seq<Token>, pos: nat)
    ensures Stmt(ts, pos) == StmtForm(AssignStmtParser(), IfStmtParser(), WhileStmtParser())(ts, pos)
  {
  }

  /** What `id + keyword(':=') + aexp ^ process` computes, read token by token. */
  function AssignSteps(aexp: Parser<ArithExp>, ts: seq<Token>, pos: nat): ParseResult<Statement>
  {
    if pos < |ts| && ts[pos].tag == ID && IsKeyword(ts, pos + 1, ":=") && aexp(ts, pos + 2).Result?
    then Result(AssignStatement(ts[pos].text, aexp(ts, pos + 2).value), aexp(ts, pos + 2).pos)
    else Failure
  }

  /** The pair `id + keyword(':=')` collects. */
  function AssignHead(ts: seq<Token>, pos: nat): ParseResult<(string, string)>
  {
    if pos < |ts| && ts[pos].tag == ID && IsKeyword(ts, pos + 1, ":=")
    then Result((ts[pos].text, ":="), pos + 2)
    else Failure
  }

  lemma AssignHeadAt(ts: seq<Token>, pos: nat)
    ensures Concat(Id(), Keyword(":="))(ts, pos) == AssignHead(ts, pos)
  {
    if pos < |ts| && ts[pos].tag == ID {
      assert Id()(ts, pos) == Result(ts[pos].text, pos + 1);
    }
    ConcatKeywordAt(Id(), ":=", ts, pos);
  }

  lemma AssignStmtFormAt(aexp: Parser<ArithExp>, ts: seq<Token>, pos: nat)
    ensures AssignStmtForm(aexp)(ts, pos) == AssignSteps(aexp, ts, pos)
  {
    AssignHeadAt(ts, pos);
    ConcatAt(Concat(Id(), Keyword(":=")), aexp, ts, pos);
  }

  lemma AssignStmtSteps(ts: seq<Token>, pos: nat)
    ensures AssignStmt(ts, pos) == AssignSteps(AexpParser(), ts, pos)
  {
    assert AexpParser()(ts, pos + 2) == Aexp(ts, pos + 2);
  }

  /** `assign_stmt` is `id + keyword(':=') + aexp ^ process`. */
  lemma AssignStmtIsSourceForm(ts: seq<Token>, pos: nat)
    ensures AssignStmt(ts, pos) == AssignStmtForm(AexpParser())(ts, pos)
  {
    AssignStmtFormAt(AexpParser(), ts, pos);
    AssignStmtSteps(ts, pos);
  }

  /** What `keyword(open) + cond + keyword(middle) + body` computes: the
      common head of `if_stmt` and `while_stmt`. */
  function HeadParts<C, B>(open: string, middle: string, cond: Parser<C>, body: Parser<B>, ts: seq<Token>, pos: nat)
    : ParseResult<(((string, C), string), B)>
  {
    if IsKeyword(ts, pos, open) && cond(ts, pos + 1).Result? && IsKeyword(ts, cond(ts, pos + 1).pos, middle)
       && body(ts, cond(ts, pos + 1).pos + 1).Result?
    then Result((((open, cond(ts, pos + 1).value), middle), body(ts, cond(ts, pos + 1).pos + 1).value),
                body(ts, cond(ts, pos + 1).pos + 1).pos)
    else Failure
  }

  lemma HeadAt<C, B>(open: string, middle: string, cond: Parser<C>, body: Parser<B>, ts: seq<Token>, pos: nat)
    ensures Concat(Concat(Concat(Keyword(open), cond), Keyword(middle)), body)(ts, pos)
         == HeadParts(open, middle, cond, body, ts, pos)
  {
    var c1 := Concat(Keyword(open), cond);
    var c2 := Concat(c1, Keyword(middle));
    var c3 := Concat(c2, body);
    if IsKeyword(ts, pos, open) {
      assert Keyword(open)(ts, pos) == Result(open, pos + 1);
      var c := cond(ts, pos + 1);
      if c.Result? {
        assert c1(ts, pos) == Result((open, c.value), c.pos);
        if IsKeyword(ts, c.pos, middle) {
          assert c2(ts, pos) == Result(((open, c.value), middle), c.pos + 1);
          var b := body(ts, c.pos + 1);
          if b.Result? {
            assert c3(ts, pos) == Result((((open, c.value), middle), b.value), b.pos);
          } else {
            assert c3(ts, pos).Failure?;
          }
        } else {
          assert c2(ts, pos).Failure?;
        }
      } else {
        assert c1(ts, pos).Failure?;
      }
    } else {
      assert c1(ts, pos).Failure?;
    }
  }

  /** What `Opt(keyword('else') + body)` computes. */
  lemma ElseAt<B>(body: Parser<B>, ts: seq<Token>, pos: nat)
    ensures Opt(Concat(Keyword("else"), body))(ts, pos)
         == if IsKeyword(ts, pos, "else") && body(ts, pos + 1).Result?
            then Result(Some(("else", body(ts, pos + 1).value)), body(ts, pos + 1).pos)
            else Result(None, pos)
  {
    var e := Concat(Keyword("else"), body);
    if IsKeyword(ts, pos, "else") {
      assert Keyword("else")(ts, pos) == Result("else", pos + 1);
    } else {
      assert e(ts, pos).Failure?;
    }
  }

  /** What the combinator expression of `if_stmt` computes, read token by
      token: an `else` not followed by a statement list leaves the optional
      part empty, and `end` is then looked for at the `else`. */
  function IfSteps(cond: Parser<BoolExp>, body: Parser<Statement>, ts: seq<Token>, pos: nat): ParseResult<Statement>
  {
    if !IsKeyword(ts, pos, "if") || cond(ts, pos + 1).Failure? then Failure
    else
      var c := cond(ts, pos + 1);
      if !IsKeyword(ts, c.pos, "then") || body(ts, c.pos + 1).Failure? then Failure
      else IfEndSteps(body, ts, c.value, body(ts, c.pos + 1).value, body(ts, c.pos + 1).pos)
  }

  /** The optional `else` part and the `end` of that expression, after a
      `then` part that ended at `pos`. */
  function IfEndSteps(body: Parser<Statement>, ts: seq<Token>, cond: BoolExp, thenPart: Statement, pos: nat)
    : ParseResult<Statement>
  {
    var e := if IsKeyword(ts, pos, "else") then body(ts, pos + 1) else Failure;
    var end := if e.Result? then e.pos else pos;
    if IsKeyword(ts, end, "end")
    then Result(IfStatement(cond, thenPart, if e.Result? then Some(e.value) else None), end + 1)
    else Failure
  }


  /** What `if` cond `then` body [`else` body] collects, before `end`. */
  function IfHeadParts(cond: Parser<BoolExp>, body: Parser<Statement>, ts: seq<Token>, pos: nat)
    : ParseResult<((((string, BoolExp), string), Statement), Option<(string, Statement)>)>
  {
    var h := HeadParts("if", "then", cond, body, ts, pos);
    if h.Failure? then Failure
    else if IsKeyword(ts, h.pos, "else") && body(ts, h.pos + 1).Result?
    then Result((h.value, Some(("else", body(ts, h.pos + 1).value))), body(ts, h.pos + 1).pos)
    else Result((h.value, None), h.pos)
  }

  lemma IfHeadPartsAt(cond: Parser<BoolExp>, body: Parser<Statement>, ts: seq<Token>, pos: nat)
    ensures Concat(Concat(Concat(Concat(Keyword("if"), cond), Keyword("then")), body),
                   Opt(Concat(Keyword("else"), body)))(ts, pos)
         == IfHeadParts(cond, body, ts, pos)
  {
    var head := Concat(Concat(Concat(Keyword("if"), cond), Keyword("then")), body);
    HeadAt("if", "then", cond, body, ts, pos);
    if head(ts, pos).Result? {
      ElseAt(body, ts, head(ts, pos).pos);
    }
    ConcatOptAt(head, Concat(Keyword("else"), body), ts, pos);
  }

  /** The tuple the combinator expression of `if_stmt` collects before
      `process` turns it into a statement. */
  function IfParts(cond: Parser<BoolExp>, body: Parser<Statement>, ts: seq<Token>, pos: nat)
    : ParseResult<(((((string, BoolExp), string), Statement), Option<(string, Statement)>), string)>
  {
    var h := IfHeadParts(cond, body, ts, pos);
    if h.Result? && IsKeyword(ts, h.pos, "end") then Result((h.value, "end"), h.pos + 1) else Failure
  }

  lemma IfPartsAt(cond: Parser<BoolExp>, body: Parser<Statement>, ts: seq<Token>, pos: nat)
    ensures Concat(Concat(Concat(Concat(Concat(Keyword("if"), cond), Keyword("then")), body),
                          Opt(Concat(Keyword("else"), body))),
                   Keyword("end"))(ts, pos)
         == IfParts(cond, body, ts, pos)
  {
    var headOpt := Concat(Concat(Concat(Concat(Keyword("if"), cond), Keyword("then")), body),
                          Opt(Concat(Keyword("else"), body)));
    IfHeadPartsAt(cond, body, ts, pos);
    ConcatKeywordAt(headOpt, "end", ts, pos);
  }

  /** `process` of the collected tuple is the statement read token by token. */
  lemma IfPartsProcessed(cond: Parser<BoolExp>, body: Parser<Statement>, ts: seq<Token>, pos: nat)
    ensures IfSteps(cond, body, ts, pos)
         == if IfParts(cond, body, ts, pos).Result?
            then Result(ProcessIf(IfParts(cond, body, ts, pos).value), IfParts(cond, body, ts, pos).pos)
            else Failure
  {
  }

  lemma IfStmtFormAt(cond: Parser<BoolExp>, body: Parser<Statement>, ts: seq<Token>, pos: nat)
    ensures IfStmtForm(cond, body)(ts, pos) == IfSteps(cond, body, ts, pos)
  {
    IfPartsAt(cond, body, ts, pos);
    IfPartsProcessed(cond, body, ts, pos);
  }

  lemma LazyStmtListAt(ts: seq<Token>, pos: nat)
    ensures LazyStmtList()(ts, pos) == StmtList(ts, pos)
  {
  }

  lemma IfStmtEndSteps(ts: seq<Token>, cond: BoolExp, thenPart: Statement, pos: nat)
    ensures IfStmtEnd(ts, cond, thenPart, pos) == IfEndSteps(LazyStmtList(), ts, cond, thenPart, pos)
  {
    LazyStmtListAt(ts, pos + 1);
  }

  lemma IfStmtSteps(ts: seq<Token>, pos: nat)
    ensures IfStmt(ts, pos) == IfSteps(BexpParser(), LazyStmtList(), ts, pos)
  {
    var c := Bexp(ts, pos + 1);
    assert BexpParser()(ts, pos + 1) == c;
    if c.Result? {
      LazyStmtListAt(ts, c.pos + 1);
      var b := StmtList(ts, c.pos + 1);
      if b.Result? {
        IfStmtEndSteps(ts, c.value, b.value, b.pos);
      }
    }
  }

  /** `if_stmt` is `keyword('if') + bexp + keyword('then') + Lazy(stmt_list)
      + Opt(keyword('else') + Lazy(stmt_list)) + keyword('end') ^ process`. */
  lemma IfStmtIsSourceForm(ts: seq<Token>, pos: nat)
    ensures IfStmt(ts, pos) == IfStmtForm(BexpParser(), LazyStmtList())(ts, pos)
  {
    IfStmtFormAt(BexpParser(), LazyStmtList(), ts, pos);
    IfStmtSteps(ts, pos);
  }

  /** What the combinator expression of `while_stmt` computes, read token by token. */
  function WhileSteps(cond: Parser<BoolExp>, body: Parser<Statement>, ts: seq<Token>, pos: nat): ParseResult<Statement>
  {
    if !IsKeyword(ts, pos, "while") || cond(ts, pos + 1).Failure? then Failure
    else
      var c := cond(ts, pos + 1);
      if !IsKeyword(ts, c.pos, "do") || body(ts, c.pos + 1).Failure? then Failure
      else
        var b := body(ts, c.pos + 1);
        if IsKeyword(ts, b.pos, "end") then Result(WhileStatement(c.value, b.value), b.pos + 1) else Failure
  }

  /** The tuple the combinator expression of `while_stmt` collects. */
  function WhileParts(cond: Parser<BoolExp>, body: Parser<Statement>, ts: seq<Token>, pos: nat)
    : ParseResult<(((((string, BoolExp), string), Statement), string))>
  {
    var h := HeadParts("while", "do", cond, body, ts, pos);
    if h.Result? && IsKeyword(ts, h.pos, "end") then Result((h.value, "end"), h.pos + 1) else Failure
  }

  lemma WhilePartsAt(cond: Parser<BoolExp>, body: Parser<Statement>, ts: seq<Token>, pos: nat)
    ensures Concat(Concat(Concat(Concat(Keyword("while"), cond), Keyword("do")), body), Keyword("end"))(ts, pos)
         == WhileParts(cond, body, ts, pos)
  {
    HeadAt("while", "do", cond, body, ts, pos);
    ConcatKeywordAt(Concat(Concat(Concat(Keyword("while"), cond), Keyword("do")), body), "end", ts, pos);
  }

  lemma WhilePartsProcessed(cond: Parser<BoolExp>, body: Parser<Statement>, ts: seq<Token>, pos: nat)
    ensures WhileSteps(cond, body, ts, pos)
         == if WhileParts(cond, body, ts, pos).Result?
            then Result(ProcessWhile(WhileParts(cond, body, ts, pos).value), WhileParts(cond, body, ts, pos).pos)
            else Failure
  {
  }

  lemma WhileStmtFormAt(cond: Parser<BoolExp>, body: Parser<Statement>, ts: seq<Token>, pos: nat)
    ensures WhileStmtForm(cond, body)(ts, pos) == WhileSteps(cond, body, ts, pos)
  {
    WhilePartsAt(cond, body, ts, pos);
    WhilePartsProcessed(cond, body, ts, pos);
  }

  lemma WhileStmtSteps(ts: seq<Token>, pos: nat)
    ensures WhileStmt(ts, pos) == WhileSteps(BexpParser(), LazyStmtList(), ts, pos)
  {
    var c := Bexp(ts, pos + 1);
    assert BexpParser()(ts, pos + 1) == c;
    if c.Result? {
      LazyStmtListAt(ts, c.pos + 1);
    }
  }

  /** `while_stmt` is `keyword('while') + bexp + keyword('do') + Lazy(stmt_list)
      + keyword('end') ^ process`. */
  lemma WhileStmtIsSourceForm(ts: seq<Token>, pos: nat)
    ensures WhileStmt(ts, pos) == WhileStmtForm(BexpParser(), LazyStmtList())(ts, pos)
  {
    WhileStmtFormAt(BexpParser(), LazyStmtList(), ts, pos);
    WhileStmtSteps(ts, pos);
  }

  /** `imp_parse(tokens)` is `parser()(tokens, 0)`, and `parser()` is `Phrase(stmt_list())`. */
  lemma ImpParseIsSourceForm(ts: seq<Token>)
    ensures ImpParse(ts) == ParserForm(StmtListParser())(ts, 0)
  {
  }
}
