/** Laws of the IMP evaluator: what more fuel changes, what an expression
    reads, how `and`/`or` evaluate, which operators of the grammar the
    evaluator knows, how a loop unrolls, and the two places where the node
    classes as written depart from what they evidently intend. */
module EvalLaws {
  import opened Wrappers
  import opened Tokens
  import opened Combinators
  import opened Ast
  import opened Grammar
  import opened ImpParser
  import opened Eval
  import ParserLaws

  // Fuel

  /** A run that finishes with some fuel finishes the same way with more. */
  lemma {:induction false} ExecFuelMonotone(sem: Semantics, s: Statement, env: Env, fuel: nat, more: nat)
    requires fuel <= more && !Exec(sem, s, env, fuel).OutOfFuel?
    ensures Exec(sem, s, env, more) == Exec(sem, s, env, fuel)
    decreases fuel, s, 1
  {
    match s
    case AssignStatement(_, _) =>
    case CompoundStatement(first, second) =>
      ExecFuelMonotone(sem, first, env, fuel, more);
      if Exec(sem, first, env, fuel).Done? {
        ExecFuelMonotone(sem, second, Exec(sem, first, env, fuel).env, fuel, more);
      }
    case IfStatement(cond, t, f) =>
      if EvalB(sem, cond, env) == Val(true) {
        ExecFuelMonotone(sem, t, env, fuel, more);
      } else if EvalB(sem, cond, env) == Val(false) && sem.dialect == Intended && f.Some? {
        ExecFuelMonotone(sem, f.value, env, fuel, more);
      }
    case WhileStatement(cond, body) =>
      LoopFuelMonotone(sem, cond, body, env, fuel, more);
  }

  lemma {:induction false} LoopFuelMonotone(sem: Semantics, cond: BoolExp, body: Statement, env: Env, fuel: nat, more: nat)
    requires fuel <= more && !Loop(sem, cond, body, env, fuel).OutOfFuel?
    ensures Loop(sem, cond, body, env, more) == Loop(sem, cond, body, env, fuel)
    decreases fuel, WhileStatement(cond, body), 0
  {
    if EvalB(sem, cond, env) == Val(true) {
      ExecFuelMonotone(sem, body, env, fuel - 1, more - 1);
      if Exec(sem, body, env, fuel - 1).Done? {
        LoopFuelMonotone(sem, cond, body, Exec(sem, body, env, fuel - 1).env, fuel - 1, more - 1);
      }
    }
  }

  // What a statement writes

  /** Changing only names in `xs`, then only names in `ys`, changes only
      names in `xs + ys`. */
  lemma ChangesOnlyComposes(env: Env, env1: Env, env2: Env, xs: set<string>, ys: set<string>)
    requires ChangesOnly(env, env1, xs) && ChangesOnly(env1, env2, ys)
    ensures ChangesOnly(env, env2, xs + ys)
  {
  }

  /** A run that ends, finished or raised, removes no name and changes
      only names the statement assigns: an exception keeps the effects of
      the statements that ran before it and nothing else. */
  lemma {:induction false} ExecChangesOnlyAssigned(sem: Semantics, s: Statement, env: Env, fuel: nat)
    requires !Exec(sem, s, env, fuel).OutOfFuel?
    ensures ChangesOnly(env, Exec(sem, s, env, fuel).env, Assigned(s))
    decreases fuel, s, 1
  {
    match s
    case AssignStatement(_, _) =>
    case CompoundStatement(first, second) =>
      ExecChangesOnlyAssigned(sem, first, env, fuel);
      var r1 := Exec(sem, first, env, fuel);
      if r1.Done? {
        ExecChangesOnlyAssigned(sem, second, r1.env, fuel);
        ChangesOnlyComposes(env, r1.env, Exec(sem, second, r1.env, fuel).env, Assigned(first), Assigned(second));
      }
    case IfStatement(cond, t, f) =>
      if EvalB(sem, cond, env) == Val(true) {
        ExecChangesOnlyAssigned(sem, t, env, fuel);
      } else if EvalB(sem, cond, env) == Val(false) && f.Some? && sem.dialect == Intended {
        ExecChangesOnlyAssigned(sem, f.value, env, fuel);
      }
    case WhileStatement(cond, body) =>
      LoopChangesOnlyAssigned(sem, cond, body, env, fuel);
  }

  /** A loop that ends changes only names its body assigns; one that
      finishes stops on a false condition. */
  lemma {:induction false} LoopChangesOnlyAssigned(sem: Semantics, cond: BoolExp, body: Statement, env: Env, fuel: nat)
    requires !Loop(sem, cond, body, env, fuel).OutOfFuel?
    ensures ChangesOnly(env, Loop(sem, cond, body, env, fuel).env, Assigned(body))
    ensures Loop(sem, cond, body, env, fuel).Done? ==> EvalB(sem, cond, Loop(sem, cond, body, env, fuel).env) == Val(false)
    decreases fuel, WhileStatement(cond, body), 0
  {
    if EvalB(sem, cond, env) == Val(true) {
      ExecChangesOnlyAssigned(sem, body, env, fuel - 1);
      var r1 := Exec(sem, body, env, fuel - 1);
      if r1.Done? {
        LoopIterates(sem, cond, body, env, fuel, r1.env);
        LoopChangesOnlyAssigned(sem, cond, body, r1.env, fuel - 1);
        ChangesOnlyComposes(env, r1.env, Loop(sem, cond, body, r1.env, fuel - 1).env, Assigned(body), Assigned(body));
      } else {
        LoopBodyStops(sem, cond, body, env, fuel);
      }
    }
  }

  /** `x := 1; y := 1 / 0` raises, and the assignment to `x` that ran
      before the fault has taken effect. */
  lemma EarlierEffectsSurviveAnError(sem: Semantics, fuel: nat)
    ensures
      var s := CompoundStatement(AssignStatement("x", IntAexp(1)),
                                 AssignStatement("y", BinopAexp("/", IntAexp(1), IntAexp(0))));
      Exec(sem, s, map[], fuel) == Raised(DivisionByZero, map["x" := 1])
  {
  }

  // What an expression reads

  function VarsA(e: ArithExp): set<string> {
    match e
    case IntAexp(_) => {}
    case VarAexp(x) => {x}
    case BinopAexp(_, left, right) => VarsA(left) + VarsA(right)
  }

  function VarsB(b: BoolExp): set<string> {
    match b
    case RelopBexp(_, lhs, rhs) => VarsA(lhs) + VarsA(rhs)
    case AndBexp(left, right) => VarsB(left) + VarsB(right)
    case OrBexp(left, right) => VarsB(left) + VarsB(right)
    case NotBexp(exp) => VarsB(exp)
  }

  /** The two environments give the same value to every name in `xs`,
      an unassigned name counting as 0. */
  predicate AgreeOn(env1: Env, env2: Env, xs: set<string>) {
    forall y :: y in xs ==> Lookup(env1, y) == Lookup(env2, y)
  }

  /** An arithmetic expression reads only its own variables. */
  lemma {:induction false} EvalAReadsItsVars(sem: Semantics, e: ArithExp, env1: Env, env2: Env)
    requires AgreeOn(env1, env2, VarsA(e))
    ensures EvalA(sem, e, env1) == EvalA(sem, e, env2)
  {
    match e
    case IntAexp(_) =>
    case VarAexp(x) => assert x in VarsA(e);
    case BinopAexp(_, left, right) =>
      EvalAReadsItsVars(sem, left, env1, env2);
      EvalAReadsItsVars(sem, right, env1, env2);
  }

  /** A boolean expression reads only its own variables. */
  lemma {:induction false} EvalBReadsItsVars(sem: Semantics, b: BoolExp, env1: Env, env2: Env)
    requires AgreeOn(env1, env2, VarsB(b))
    ensures EvalB(sem, b, env1) == EvalB(sem, b, env2)
  {
    match b
    case RelopBexp(_, lhs, rhs) =>
      EvalAReadsItsVars(sem, lhs, env1, env2);
      EvalAReadsItsVars(sem, rhs, env1, env2);
    case AndBexp(left, right) =>
      EvalBReadsItsVars(sem, left, env1, env2);
      EvalBReadsItsVars(sem, right, env1, env2);
    case OrBexp(left, right) =>
      EvalBReadsItsVars(sem, left, env1, env2);
      EvalBReadsItsVars(sem, right, env1, env2);
    case NotBexp(exp) =>
      EvalBReadsItsVars(sem, exp, env1, env2);
  }

  /** Binding an unassigned name to 0 changes no expression's value: an
      unassigned name reads as 0. */
  lemma UnassignedReadsZero(sem: Semantics, e: ArithExp, b: BoolExp, env: Env, x: string)
    requires x !in env
    ensures EvalA(sem, e, env[x := 0]) == EvalA(sem, e, env)
    ensures EvalB(sem, b, env[x := 0]) == EvalB(sem, b, env)
  {
    assert AgreeOn(env[x := 0], env, VarsA(e));
    EvalAReadsItsVars(sem, e, env[x := 0], env);
    assert AgreeOn(env[x := 0], env, VarsB(b));
    EvalBReadsItsVars(sem, b, env[x := 0], env);
  }

  // Boolean connectives

  /** `and` has a value exactly when both operands have one, and it is their
      conjunction; likewise `or` and disjunction. A false left operand does
      not spare the right one from being evaluated. */
  lemma ConnectivesEvaluateBoth(sem: Semantics, l: BoolExp, r: BoolExp, env: Env)
    ensures EvalB(sem, AndBexp(l, r), env).Val? <==> EvalB(sem, l, env).Val? && EvalB(sem, r, env).Val?
    ensures EvalB(sem, OrBexp(l, r), env).Val? <==> EvalB(sem, l, env).Val? && EvalB(sem, r, env).Val?
    ensures EvalB(sem, AndBexp(l, r), env).Val? ==>
      EvalB(sem, AndBexp(l, r), env).v == (EvalB(sem, l, env).v && EvalB(sem, r, env).v)
    ensures EvalB(sem, OrBexp(l, r), env).Val? ==>
      EvalB(sem, OrBexp(l, r), env).v == (EvalB(sem, l, env).v || EvalB(sem, r, env).v)
    ensures EvalB(sem, NotBexp(l), env).Val? <==> EvalB(sem, l, env).Val?
    ensures EvalB(sem, NotBexp(l), env).Val? ==> EvalB(sem, NotBexp(l), env).v == !EvalB(sem, l, env).v
  {
  }

  /** `0 > 1 and 1 < 1 / 0` raises division by zero although its left
      operand is false. */
  lemma NoShortCircuit(sem: Semantics, env: Env)
    ensures
      var l := RelopBexp(">", IntAexp(0), IntAexp(1));
      var r := RelopBexp("<", IntAexp(1), BinopAexp("/", IntAexp(1), IntAexp(0)));
      EvalB(sem, l, env) == Val(false) && EvalB(sem, AndBexp(l, r), env) == Fail(DivisionByZero)
  {
  }

  // The grammar's operators and the evaluator's

  /** Every arithmetic operator the grammar accepts is known to the
      evaluator; only a zero divisor makes it fail. */
  lemma GrammarArithOpsEvaluate(sem: Semantics, k: nat, op: string, a: int, b: int)
    requires k < |AexpPrecedenceLevels| && op in AexpPrecedenceLevels[k]
    ensures ApplyBinop(sem, op, a, b).Fail? <==> op == "/" && b == 0
  {
  }

  /** An arithmetic operator outside the grammar's table raises. */
  lemma OtherArithOpsRaise(sem: Semantics, op: string, a: int, b: int)
    requires forall k :: 0 <= k < |AexpPrecedenceLevels| ==> op !in AexpPrecedenceLevels[k]
    ensures ApplyBinop(sem, op, a, b) == Fail(UnknownOperator(op))
  {
    assert op !in AexpPrecedenceLevels[0] && op !in AexpPrecedenceLevels[1];
  }

  /** Dividing by an expression whose value is 0 raises division by zero. */
  lemma DivisionByZeroRaises(sem: Semantics, l: ArithExp, r: ArithExp, env: Env)
    requires EvalA(sem, l, env).Val? && EvalA(sem, r, env) == Val(0)
    ensures EvalA(sem, BinopAexp("/", l, r), env) == Fail(DivisionByZero)
  {
  }

  /** The intended evaluator knows every comparison of the grammar's table;
      as written it knows every one except `=`. */
  lemma GrammarRelopsEvaluate(op: string, a: int, b: int)
    requires op in Relops
    ensures Compare(Intended, op, a, b).Val?
    ensures Compare(AsWritten, op, a, b).Val? <==> op != "="
  {
  }

  // Statements

  /** One step of a loop, with the outcomes of its condition and its body
      named. */
  lemma LoopUnfolds(sem: Semantics, cond: BoolExp, body: Statement, env: Env, fuel: nat)
    ensures
      var c := EvalB(sem, cond, env);
      Loop(sem, cond, body, env, fuel)
      == if c.Fail? then Raised(c.err, env)
         else if !c.v then Done(env)
         else if fuel == 0 then OutOfFuel
         else
           var b := Exec(sem, body, env, fuel - 1);
           if b.Done? then Loop(sem, cond, body, b.env, fuel - 1) else b
  {
  }

  /** A loop whose condition raises, is false, or finds no fuel left ends
      without running its body. */
  lemma LoopEndsWithoutBody(sem: Semantics, cond: BoolExp, body: Statement, env: Env, fuel: nat)
    requires EvalB(sem, cond, env).Fail? || !EvalB(sem, cond, env).v || fuel == 0
    ensures Loop(sem, cond, body, env, fuel)
         == if EvalB(sem, cond, env).Fail? then Raised(EvalB(sem, cond, env).err, env)
            else if !EvalB(sem, cond, env).v then Done(env)
            else OutOfFuel
  {
  }

  /** A loop whose body does not finish ends as the body does. */
  lemma LoopBodyStops(sem: Semantics, cond: BoolExp, body: Statement, env: Env, fuel: nat)
    requires EvalB(sem, cond, env) == Val(true) && fuel > 0 && !Exec(sem, body, env, fuel - 1).Done?
    ensures Loop(sem, cond, body, env, fuel) == Exec(sem, body, env, fuel - 1)
  {
  }

  /** An iteration whose body finishes hands the loop on to the next. */
  lemma LoopIterates(sem: Semantics, cond: BoolExp, body: Statement, env: Env, fuel: nat, env1: Env)
    requires EvalB(sem, cond, env) == Val(true) && fuel > 0 && Exec(sem, body, env, fuel - 1) == Done(env1)
    ensures Loop(sem, cond, body, env, fuel) == Loop(sem, cond, body, env1, fuel - 1)
  {
  }

  /** A `while` with fuel left is an `if` whose then-branch is the body
      followed by the `while` again, and which has no else-branch. */
  lemma WhileUnrolls(sem: Semantics, cond: BoolExp, body: Statement, env: Env, fuel: nat)
    requires sem.dialect == Intended
    ensures Exec(sem, WhileStatement(cond, body), env, fuel + 1)
         == Exec(sem, IfStatement(cond, CompoundStatement(body, WhileStatement(cond, body)), None), env, fuel)
  {
    LoopUnfolds(sem, cond, body, env, fuel + 1);
    var b := Exec(sem, body, env, fuel);
    if b.Done? {
      assert Exec(sem, WhileStatement(cond, body), b.env, fuel) == Loop(sem, cond, body, b.env, fuel);
    }
  }

  /** Sequencing is associative: the left nesting the parser builds runs
      like the right nesting. */
  lemma SequencingAssociates(sem: Semantics, a: Statement, b: Statement, c: Statement, env: Env, fuel: nat)
    ensures Exec(sem, CompoundStatement(CompoundStatement(a, b), c), env, fuel)
         == Exec(sem, CompoundStatement(a, CompoundStatement(b, c)), env, fuel)
  {
  }

  /** No `if`, and no `=` comparison, anywhere in the statement. */
  predicate Unaffected(s: Statement) {
    match s
    case AssignStatement(_, _) => true
    case CompoundStatement(first, second) => Unaffected(first) && Unaffected(second)
    case IfStatement(_, _, _) => false
    case WhileStatement(cond, body) => !UsesEquals(cond) && Unaffected(body)
  }

  predicate UsesEquals(b: BoolExp) {
    match b
    case RelopBexp(op, _, _) => op == "="
    case AndBexp(left, right) => UsesEquals(left) || UsesEquals(right)
    case OrBexp(left, right) => UsesEquals(left) || UsesEquals(right)
    case NotBexp(exp) => UsesEquals(exp)
  }

  /** The two dialects evaluate a boolean expression without `=` alike. */
  lemma {:induction false} DialectsAgreeOnConditions(divide: (int, int) -> int, b: BoolExp, env: Env)
    requires !UsesEquals(b)
    ensures EvalB(Semantics(AsWritten, divide), b, env) == EvalB(Semantics(Intended, divide), b, env)
  {
    var w := Semantics(AsWritten, divide);
    var i := Semantics(Intended, divide);
    match b
    case RelopBexp(op, lhs, rhs) =>
      assert EvalA(w, lhs, env) == EvalA(i, lhs, env) by { EvalADialectFree(divide, lhs, env); }
      assert EvalA(w, rhs, env) == EvalA(i, rhs, env) by { EvalADialectFree(divide, rhs, env); }
    case AndBexp(left, right) =>
      DialectsAgreeOnConditions(divide, left, env);
      DialectsAgreeOnConditions(divide, right, env);
    case OrBexp(left, right) =>
      DialectsAgreeOnConditions(divide, left, env);
      DialectsAgreeOnConditions(divide, right, env);
    case NotBexp(exp) =>
      DialectsAgreeOnConditions(divide, exp, env);
  }

  lemma {:induction false} EvalADialectFree(divide: (int, int) -> int, e: ArithExp, env: Env)
    ensures EvalA(Semantics(AsWritten, divide), e, env) == EvalA(Semantics(Intended, divide), e, env)
  {
    match e
    case IntAexp(_) =>
    case VarAexp(_) =>
    case BinopAexp(_, left, right) =>
      EvalADialectFree(divide, left, env);
      EvalADialectFree(divide, right, env);
  }

  /** The corrections change nothing for a program without `if` and `=`. */
  lemma {:induction false} DialectsAgree(divide: (int, int) -> int, s: Statement, env: Env, fuel: nat)
    requires Unaffected(s)
    ensures Exec(Semantics(AsWritten, divide), s, env, fuel) == Exec(Semantics(Intended, divide), s, env, fuel)
    decreases fuel, s, 1
  {
    match s
    case AssignStatement(_, e) =>
      EvalADialectFree(divide, e, env);
    case CompoundStatement(first, second) =>
      DialectsAgree(divide, first, env, fuel);
      var r1 := Exec(Semantics(Intended, divide), first, env, fuel);
      if r1.Done? {
        DialectsAgree(divide, second, r1.env, fuel);
      }
    case WhileStatement(cond, body) =>
      LoopDialectsAgree(divide, cond, body, env, fuel);
  }

  lemma {:induction false} LoopDialectsAgree(divide: (int, int) -> int, cond: BoolExp, body: Statement, env: Env, fuel: nat)
    requires !UsesEquals(cond) && Unaffected(body)
    ensures Loop(Semantics(AsWritten, divide), cond, body, env, fuel) == Loop(Semantics(Intended, divide), cond, body, env, fuel)
    decreases fuel, WhileStatement(cond, body), 0
  {
    var w := Semantics(AsWritten, divide);
    var i := Semantics(Intended, divide);
    DialectsAgreeOnConditions(divide, cond, env);
    var c := EvalB(i, cond, env);
    if c.Fail? || !c.v || fuel == 0 {
      LoopEndsWithoutBody(w, cond, body, env, fuel);
      LoopEndsWithoutBody(i, cond, body, env, fuel);
    } else {
      DialectsAgree(divide, body, env, fuel - 1);
      var r1 := Exec(i, body, env, fuel - 1);
      if r1.Done? {
        LoopIterates(w, cond, body, env, fuel, r1.env);
        LoopIterates(i, cond, body, env, fuel, r1.env);
        LoopDialectsAgree(divide, cond, body, r1.env, fuel - 1);
      } else {
        LoopBodyStops(w, cond, body, env, fuel);
        LoopBodyStops(i, cond, body, env, fuel);
      }
    }
  }


  /** An assignment that finishes binds its name to the expression's value
      and leaves every other name as it was. */
  lemma AssignSetsOnlyItsName(sem: Semantics, x: string, e: ArithExp, env: Env, fuel: nat)
    requires Exec(sem, AssignStatement(x, e), env, fuel).Done?
    ensures
      var env' := Exec(sem, AssignStatement(x, e), env, fuel).env;
      EvalA(sem, e, env).Val? && x in env' && env'[x] == EvalA(sem, e, env).v
      && env'.Keys == env.Keys + {x}
      && forall y :: y in env && y != x ==> env'[y] == env[y]
  {
  }

  /** An expression that raises makes its assignment raise the same error. */
  lemma AssignPropagatesErrors(sem: Semantics, x: string, e: ArithExp, env: Env, fuel: nat)
    requires EvalA(sem, e, env).Fail?
    ensures Exec(sem, AssignStatement(x, e), env, fuel) == Raised(EvalA(sem, e, env).err, env)
  {
  }

  /** A true condition runs the then-branch alone, in either dialect. */
  lemma TrueConditionRunsThen(sem: Semantics, cond: BoolExp, t: Statement, f: Option<Statement>, env: Env, fuel: nat)
    requires EvalB(sem, cond, env) == Val(true)
    ensures Exec(sem, IfStatement(cond, t, f), env, fuel) == Exec(sem, t, env, fuel)
  {
  }

  // Findings: the else-branch

  /** As written, an `if` whose condition is false raises a NameError for
      `false_value`, with or without an else-branch. */
  lemma FalseConditionRaisesAsWritten(sem: Semantics, cond: BoolExp, t: Statement, f: Option<Statement>, env: Env, fuel: nat)
    requires sem.dialect == AsWritten && EvalB(sem, cond, env) == Val(false)
    ensures Exec(sem, IfStatement(cond, t, f), env, fuel) == Raised(UndefinedName("false_value"), env)
  {
  }

  /** Intended: a false condition runs the else-branch, or nothing. */
  lemma FalseConditionRunsElse(sem: Semantics, cond: BoolExp, t: Statement, f: Option<Statement>, env: Env, fuel: nat)
    requires sem.dialect == Intended && EvalB(sem, cond, env) == Val(false)
    ensures Exec(sem, IfStatement(cond, t, f), env, fuel)
         == if f.Some? then Exec(sem, f.value, env, fuel) else Done(env)
  {
  }

  /** `if 1 > 2 then x := 1 else x := 2 end`: raises as written, assigns 2 intended. */
  lemma ElseBranchExample(divide: (int, int) -> int)
    ensures
      var s := IfStatement(RelopBexp(">", IntAexp(1), IntAexp(2)),
                           AssignStatement("x", IntAexp(1)), Some(AssignStatement("x", IntAexp(2))));
      Exec(Semantics(AsWritten, divide), s, map[], 0) == Raised(UndefinedName("false_value"), map[])
      && Exec(Semantics(Intended, divide), s, map[], 0) == Done(map["x" := 2])
  {
  }

  /** As written, a `while` cannot be unrolled into an `if`: the loop whose
      condition is false at once finishes, its unrolling raises. */
  lemma UnrollingFailsAsWritten(divide: (int, int) -> int, body: Statement, env: Env, fuel: nat)
    ensures
      var sem := Semantics(AsWritten, divide);
      var cond := RelopBexp(">", IntAexp(0), IntAexp(1));
      Exec(sem, WhileStatement(cond, body), env, fuel + 1) == Done(env)
      && Exec(sem, IfStatement(cond, CompoundStatement(body, WhileStatement(cond, body)), None), env, fuel)
         == Raised(UndefinedName("false_value"), env)
  {
  }

  // Findings: `=`

  /** The tokens of `x = 1`. */
  const EqualsTokens: seq<Token> := [Token("x", ID), Token("=", RESERVED), Token("1", INT)]

  /** As written, the comparison `x = 1` parses but raises when evaluated. */
  lemma EqualsRaisesAsWritten(divide: (int, int) -> int, env: Env)
    ensures Bexp(EqualsTokens, 0).Result?
    ensures EvalB(Semantics(AsWritten, divide), Bexp(EqualsTokens, 0).value, env) == Fail(UnknownOperator("="))
  {
    ParserLaws.EqualsSignParses();
  }

  /** Intended, `x = 1` parses and compares `x` with 1. */
  lemma EqualsComparesIntended(divide: (int, int) -> int, env: Env)
    ensures Bexp(EqualsTokens, 0).Result?
    ensures EvalB(Semantics(Intended, divide), Bexp(EqualsTokens, 0).value, env) == Val(Lookup(env, "x") == 1)
  {
    ParserLaws.EqualsSignParses();
  }

  // The program in the source's closing comment

  /** `n := 5; p := 1; while n > 0 do p := p * n; n := n - 1 end`, nested
      as the parser nests it. */
  const FactorialInit: Statement := CompoundStatement(AssignStatement("n", IntAexp(5)), AssignStatement("p", IntAexp(1)))
  const FactorialCond: BoolExp := RelopBexp(">", VarAexp("n"), IntAexp(0))
  const MultiplyStep: Statement := AssignStatement("p", BinopAexp("*", VarAexp("p"), VarAexp("n")))
  const CountDownStep: Statement := AssignStatement("n", BinopAexp("-", VarAexp("n"), IntAexp(1)))
  const Factorial: Statement :=
    CompoundStatement(FactorialInit, WhileStatement(FactorialCond, CompoundStatement(MultiplyStep, CountDownStep)))

  /** `x := d ;` at `pos` of any token list, `d` a literal. */
  lemma LiteralAssignParses(ts: seq<Token>, pos: nat)
    requires pos + 3 < |ts| && ts[pos].tag == ID && ts[pos + 1] == Token(":=", RESERVED)
    requires ts[pos + 2].tag == INT && ts[pos + 3] == Token(";", RESERVED)
    ensures Stmt(ts, pos) == Result(AssignStatement(ts[pos].text, IntAexp(DecimalValue(ts[pos + 2].text))), pos + 3)
  {
    var e := IntAexp(DecimalValue(ts[pos + 2].text));
    assert AexpTerm(ts, pos + 2) == Result(e, pos + 3);
    ParserLaws.AexpSingleTerm(ts, pos + 2, e, pos + 3);
    ParserLaws.AssignIsStatement(ts, pos, e, pos + 3);
  }

  /** `n > 0 do` at `pos` of any token list: the loop condition. */
  lemma FactorialCondParses(ts: seq<Token>, pos: nat)
    requires pos + 3 < |ts| && ts[pos] == Token("n", ID) && ts[pos + 1] == Token(">", RESERVED)
    requires ts[pos + 2] == Token("0", INT) && ts[pos + 3] == Token("do", RESERVED)
    ensures Bexp(ts, pos) == Result(FactorialCond, pos + 3)
  {
    assert DecimalValue("0") == 0;
    assert AexpTerm(ts, pos) == Result(VarAexp("n"), pos + 1);
    ParserLaws.AexpSingleTerm(ts, pos, VarAexp("n"), pos + 1);
    assert AexpTerm(ts, pos + 2) == Result(IntAexp(0), pos + 3);
    ParserLaws.AexpSingleTerm(ts, pos + 2, IntAexp(0), pos + 3);
    assert BexpRelop(ts, pos) == Result(FactorialCond, pos + 3);
    assert BexpNot(ts, pos).Failure?;
    ParserLaws.BexpSingleTerm(ts, pos, FactorialCond, pos + 3);
  }

  /** `p := p * n` at `pos` of any token list, followed by `;`. */
  lemma MultiplyStepParses(ts: seq<Token>, pos: nat)
    requires pos + 5 < |ts| && ts[pos] == Token("p", ID) && ts[pos + 1] == Token(":=", RESERVED)
    requires ts[pos + 2] == Token("p", ID) && ts[pos + 3] == Token("*", RESERVED) && ts[pos + 4] == Token("n", ID)
    requires ts[pos + 5] == Token(";", RESERVED)
    ensures Stmt(ts, pos) == Result(MultiplyStep, pos + 5)
  {
    assert AexpTerm(ts, pos + 2) == Result(VarAexp("p"), pos + 3);
    assert AexpTerm(ts, pos + 4) == Result(VarAexp("n"), pos + 5);
    ParserLaws.OneOperator(ts, 1, pos + 2, VarAexp("p"), pos + 3, VarAexp("n"), pos + 5);
    ParserLaws.AssignIsStatement(ts, pos, MultiplyStep.aexp, pos + 5);
  }

  /** `n := n - 1` at `pos` of any token list, followed by `end`. */
  lemma CountDownStepParses(ts: seq<Token>, pos: nat)
    requires pos + 5 < |ts| && ts[pos] == Token("n", ID) && ts[pos + 1] == Token(":=", RESERVED)
    requires ts[pos + 2] == Token("n", ID) && ts[pos + 3] == Token("-", RESERVED) && ts[pos + 4] == Token("1", INT)
    requires ts[pos + 5] == Token("end", RESERVED)
    ensures Stmt(ts, pos) == Result(CountDownStep, pos + 5)
  {
    assert DecimalValue("1") == 1;
    assert AexpTerm(ts, pos + 2) == Result(VarAexp("n"), pos + 3);
    assert AexpTerm(ts, pos + 4) == Result(IntAexp(1), pos + 5);
    ParserLaws.OneOperator(ts, 2, pos + 2, VarAexp("n"), pos + 3, IntAexp(1), pos + 5);
    ParserLaws.AssignIsStatement(ts, pos, CountDownStep.aexp, pos + 5);
  }

  /** The loop body `p := p * n; n := n - 1` at `pos`, followed by `end`. */
  lemma FactorialBodyParses(ts: seq<Token>, pos: nat)
    requires pos + 11 < |ts| && ts[pos + 5] == Token(";", RESERVED)
    requires ts[pos] == Token("p", ID) && ts[pos + 1] == Token(":=", RESERVED)
    requires ts[pos + 2] == Token("p", ID) && ts[pos + 3] == Token("*", RESERVED) && ts[pos + 4] == Token("n", ID)
    requires ts[pos + 6] == Token("n", ID) && ts[pos + 7] == Token(":=", RESERVED)
    requires ts[pos + 8] == Token("n", ID) && ts[pos + 9] == Token("-", RESERVED) && ts[pos + 10] == Token("1", INT)
    requires ts[pos + 11] == Token("end", RESERVED)
    ensures StmtList(ts, pos) == Result(CompoundStatement(MultiplyStep, CountDownStep), pos + 11)
  {
    MultiplyStepParses(ts, pos);
    CountDownStepParses(ts, pos + 6);
    ParserLaws.TwoStatementsNest(ts, pos, MultiplyStep, pos + 5, CountDownStep, pos + 11);
  }

  /** `ts` holds the program's tokens, as the lexer hands them over. */
  predicate IsFactorialTokens(ts: seq<Token>) {
    |ts| == 25
    && ts[0] == Token("n", ID) && ts[1] == Token(":=", RESERVED) && ts[2] == Token("5", INT) && ts[3] == Token(";", RESERVED)
    && ts[4] == Token("p", ID) && ts[5] == Token(":=", RESERVED) && ts[6] == Token("1", INT) && ts[7] == Token(";", RESERVED)
    && ts[8] == Token("while", RESERVED) && ts[9] == Token("n", ID) && ts[10] == Token(">", RESERVED)
    && ts[11] == Token("0", INT) && ts[12] == Token("do", RESERVED)
    && ts[13] == Token("p", ID) && ts[14] == Token(":=", RESERVED) && ts[15] == Token("p", ID)
    && ts[16] == Token("*", RESERVED) && ts[17] == Token("n", ID) && ts[18] == Token(";", RESERVED)
    && ts[19] == Token("n", ID) && ts[20] == Token(":=", RESERVED) && ts[21] == Token("n", ID)
    && ts[22] == Token("-", RESERVED) && ts[23] == Token("1", INT) && ts[24] == Token("end", RESERVED)
  }

  /** The source's program parses to the tree `Factorial`: the statements
      nest to the left and the loop body is a compound of its two steps. */
  lemma FactorialParses(ts: seq<Token>)
    requires IsFactorialTokens(ts)
    ensures ImpParse(ts) == Result(Factorial, |ts|)
  {
    var body := CompoundStatement(MultiplyStep, CountDownStep);
    assert DecimalValue(ts[2].text) == 5 && DecimalValue(ts[6].text) == 1;
    LiteralAssignParses(ts, 0);
    LiteralAssignParses(ts, 4);
    FactorialCondParses(ts, 9);
    FactorialBodyParses(ts, 13);
    ParserLaws.WhileIsStatement(ts, 8, FactorialCond, 12, body, 24);
    ParserLaws.ThreeStatementsNestLeft(ts, 0, FactorialInit.first, 3, FactorialInit.second, 7, WhileStatement(FactorialCond, body), 25);
  }

  /** The environment of the factorial loop. */
  function FactorialEnv(n: int, p: int): Env {
    map["n" := n, "p" := p]
  }

  /** One iteration of the factorial loop from `n`, `p`. */
  lemma FactorialIteration(sem: Semantics, n: int, p: int, fuel: nat)
    requires n > 0 && fuel > 0
    ensures
      Loop(sem, FactorialCond, CompoundStatement(MultiplyStep, CountDownStep), FactorialEnv(n, p), fuel)
      == Loop(sem, FactorialCond, CompoundStatement(MultiplyStep, CountDownStep), FactorialEnv(n - 1, p * n), fuel - 1)
  {
    var env := FactorialEnv(n, p);
    assert EvalB(sem, FactorialCond, env) == Val(true);
    var env1 := env["p" := p * n];
    assert Lookup(env, "p") == p && Lookup(env, "n") == n;
    assert ApplyBinop(sem, "*", p, n) == Val(p * n);
    assert EvalA(sem, MultiplyStep.aexp, env) == Val(p * n);
    assert Exec(sem, MultiplyStep, env, fuel - 1) == Done(env1);
    var env2 := env1["n" := n - 1];
    assert Lookup(env1, "n") == n;
    assert ApplyBinop(sem, "-", n, 1) == Val(n - 1);
    assert EvalA(sem, CountDownStep.aexp, env1) == Val(n - 1);
    assert Exec(sem, CountDownStep, env1, fuel - 1) == Done(env2);
    assert env2 == FactorialEnv(n - 1, p * n);
    LoopUnfolds(sem, FactorialCond, CompoundStatement(MultiplyStep, CountDownStep), env, fuel);
  }

  lemma MultiplyAssociates(a: int, b: int, c: int)
    ensures a * b * c == a * (b * c)
  {
  }

  function Fact(n: nat): nat {
    if n == 0 then 1 else n * Fact(n - 1)
  }

  /** With `n` 0 the factorial loop ends at once. */
  lemma FactorialLoopExits(sem: Semantics, p: int, fuel: nat)
    ensures
      Loop(sem, FactorialCond, CompoundStatement(MultiplyStep, CountDownStep), FactorialEnv(0, p), fuel)
      == Done(FactorialEnv(0, p))
  {
    assert EvalB(sem, FactorialCond, FactorialEnv(0, p)) == Val(false) by {
      assert Lookup(FactorialEnv(0, p), "n") == 0;
    }
    LoopUnfolds(sem, FactorialCond, CompoundStatement(MultiplyStep, CountDownStep), FactorialEnv(0, p), fuel);
  }

  /** From `n`, `p`, with fuel for its `n` iterations, the factorial loop
      ends with `n` 0 and `p` multiplied by `n!`. */
  lemma {:induction false} FactorialLoop(sem: Semantics, n: nat, p: int, fuel: nat)
    requires fuel >= n
    ensures
      Loop(sem, FactorialCond, CompoundStatement(MultiplyStep, CountDownStep), FactorialEnv(n, p), fuel)
      == Done(FactorialEnv(0, p * Fact(n)))
    decreases n
  {
    if n == 0 {
      FactorialLoopExits(sem, p, fuel);
    } else {
      var body := CompoundStatement(MultiplyStep, CountDownStep);
      var m: nat := n - 1;
      var q := p * n;
      FactorialIteration(sem, n, p, fuel);
      assert Loop(sem, FactorialCond, body, FactorialEnv(n, p), fuel)
          == Loop(sem, FactorialCond, body, FactorialEnv(m, q), fuel - 1);
      FactorialLoop(sem, m, q, fuel - 1);
      var f := Fact(m);
      assert Fact(n) == n * f;
      MultiplyAssociates(p, n, f);
      assert q * f == p * Fact(n);
    }
  }

  /** From an empty environment the program ends with `n` 0 and `p` 120,
      in either dialect, when the loop may run its five iterations. */
  lemma FactorialComputes(sem: Semantics, fuel: nat)
    requires fuel >= 5
    ensures Exec(sem, Factorial, map[], fuel) == Done(map["n" := 0, "p" := 120])
  {
    var start := FactorialEnv(5, 1);
    assert Exec(sem, FactorialInit, map[], fuel) == Done(start) by {
      assert map[]["n" := 5]["p" := 1] == start;
    }
    FactorialLoop(sem, 5, 1, fuel);
    assert Fact(5) == 120;
    assert Exec(sem, Factorial, map[], fuel) == Exec(sem, Factorial.second, start, fuel);
  }

  /** From its source text to its result: the program parses, and the
      tree it parses to ends with `p` 120 when the loop may run. */
  lemma FactorialProgramComputes(sem: Semantics, ts: seq<Token>, fuel: nat)
    requires IsFactorialTokens(ts) && fuel >= 5
    ensures ImpParse(ts).Result? && ImpParse(ts).pos == |ts|
    ensures Exec(sem, ImpParse(ts).value, map[], fuel) == Done(map["n" := 0, "p" := 120])
  {
    FactorialParses(ts);
    FactorialComputes(sem, fuel);
  }
}
