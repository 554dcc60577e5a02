# IMP interpreter core in Dafny

IMP is a small imperative language: integer arithmetic, boolean
conditions, assignments, `;`-separated statement lists, `if ... then ...
[else ...] end` and `while ... do ... end`. Its interpreter has three
layers, and this project models each one.

1. **A parser-combinator engine.** A parser takes a token list and a
   position. It returns `Result(value, pos)`, or it fails.
2. **The IMP grammar.** The grammar is built from those combinators.
   Expressions are parsed by precedence climbing over two tables of
   operator levels.
3. **The `eval` methods of the syntax tree.** Statements update a global
   environment that maps names to integers.

The modules are:

- `Tokens` (tokens.dfy): the `(text, tag)` pairs the lexer produces, and
  the decimal reading `int(text)` of an INT token.
- `Combinators` (combinators.dfy): `Reserved`, `Tag`, `Concat` (`+`),
  `Alternate` (`|`), `Opt`, `Rep`, `Process` (`^`), `Lazy`, `Phrase` and
  `Exp` (`*`). Each is a pure function that returns a parser, and its
  contract says exactly when the parser succeeds and what it yields, with
  two exceptions. `Lazy` is simply the parser its thunk builds;
  `LazyCall` states how a `Lazy` object caches it. The value of `Exp` is
  given by `CombinatorLaws.ExpIsFoldedRep`.
- `CombinatorLaws` (combinator_laws.dfy): `Rep` yields the maximal chain
  of applications. `Exp` is a left fold over the separator/element pairs
  that follow its first element.
- `Grammar` (grammar.dfy): `keyword`, `num`, `id`, `any_operator_in_list`,
  `precedence`, the `process_*` helpers and the two level tables. It also
  holds every grammar rule written literally as the source's combinator
  expression (the `...Form` functions).
- `ImpParser` (imp_parser.dfy): the same rules as first-order recursive
  functions over `(tokens, pos)`. The verifier can follow their mutual
  recursion.
- `GrammarLaws` (grammar_laws.dfy): proves that each first-order rule
  equals the source's combinator expression at every input. The
  properties proved about `ImpParser` are therefore properties of the
  source's parser.
- `ParserLaws` (parser_laws.dfy) covers the shape of what the parser
  builds:
  - precedence and left associativity;
  - transparent parentheses;
  - relational expressions;
  - statement lists nested to the left;
  - the `if` and `while` forms;
  - the inputs the parser rejects.
- `Eval` (eval.dfy): expression evaluation and statement execution over
  an immutable `map<string, int>`. An exception ends a run with the
  environment the earlier statements left, as the source's in-place
  updates would. It comes in two dialects. `AsWritten` does what the node
  classes do. `Intended` repairs the two defects listed
  under Findings.
- `EvalLaws` (eval_laws.dfy):
  - fuel monotonicity;
  - a statement changes only the names it assigns, also when it raises;
  - expressions read only their own variables;
  - no short-circuit in `and`/`or`;
  - loop unrolling;
  - associativity of sequencing;
  - where the two dialects agree;
  - the two findings;
  - the factorial program from the source's closing comment: its tokens
    parse to the tree the evaluator runs, and the run ends with `p = 120`.

A `while` loop may run forever, so `Exec` and `Loop` take a `fuel`
argument. Each iteration spends one unit, and a loop that needs more ends
with `OutOfFuel`. `ExecFuelMonotone` shows that any fuel large enough to
finish gives the same outcome.

## Model

| member | source | states |
|---|---|---|
| Tokens.DecimalRoundTrip | imp_parser.py:44 | The decimal reading that `num` applies to an INT token inverts the decimal rendering of every natural number. |
| Combinators.Reserved | combinator.py:32-38 | Succeeds exactly when a token is at `pos` whose text and tag both match. It then yields that text and moves one token on. |
| Combinators.Tag | combinator.py:42-45 | Succeeds exactly when the token at `pos` has the tag, whatever its text. It yields the token's text at `pos + 1`. |
| Combinators.Concat | combinator.py:51-58 | Succeeds iff the left parser succeeds and the right parser succeeds where the left one stopped. It yields the pair of values at the right parser's end. It is advancing if one side advances and the other never moves back. |
| Combinators.Alternate | combinator.py:67-73 | Returns the left result when the left parser succeeds. Otherwise it returns the right parser's result at the same position. |
| Combinators.Opt | combinator.py:83-87 | Never fails. An inner success is wrapped in `Some`. An inner failure gives `None` without consuming a token. |
| Combinators.RepFrom | combinator.py:95-102 | Always succeeds. It stops where the parser first fails and records the chain of values it collected. The list is empty iff the first application fails. |
| Combinators.Rep | combinator.py:95-102 | Never fails and ends where the parser fails. A parser that fails at once gives the empty list at the starting position. |
| Combinators.Process | combinator.py:113-117 | Succeeds iff the inner parser does. The value is replaced by `f` of the inner value and the position is kept. |
| Combinators.LazyCall | combinator.py:132-135 | The thunk is called only when nothing is cached. Once cached, the parser is kept. A coherent cache gives the same result as calling the thunk's parser directly. |
| Combinators.Phrase | combinator.py:147-152 | Succeeds iff the inner parser succeeds and ends exactly at the end of the tokens, with the inner result. |
| Combinators.NextElement | combinator.py:191-194 | `process_next` succeeds iff a separator and an element follow. Its value is the separator's function applied to the accumulated value and the element. |
| Combinators.ExpLoop | combinator.py:195-200 | The loop never fails and never moves back. It stops only where a separator followed by an element no longer parses. |
| Combinators.Exp | combinator.py:189-200 | Fails iff the first element fails. On success it ends no earlier than the first element and at a point where no separator-plus-element follows. |
| CombinatorLaws.RepIsTheMaximalChain | combinator.py:96-102 | The result of `Rep` is determined: a chain of successes that ends where the parser fails is exactly what `Rep` returns. |
| CombinatorLaws.ExpLoopIsFold | combinator.py:195-200 | The loop of `Exp` equals the left fold of the pairs that `Rep(sep + p)` collects from the same position, and it ends where `Rep` ends. |
| CombinatorLaws.ExpLoopRunsNextElement | combinator.py:191-199 | Each turn of the loop runs `process_next`. It continues from that parser's result and stops where the parser fails. |
| CombinatorLaws.ExpIsFoldedRep | combinator.py:189-200 | `p * sep` is `p` followed by `Rep(sep + p)`, folded from the left, and it fails iff `p` fails. |
| CombinatorLaws.ExpSingle | combinator.py:189-200 | A lone element, not followed by a separator and an element, is the whole result. |
| CombinatorLaws.ExpPair | combinator.py:189-200 | `e1 s1 e2` yields `s1(e1, e2)`. |
| CombinatorLaws.ExpFoldsLeft | combinator.py:189-200 | `e1 s1 e2 s2 e3` yields `s2(s1(e1, e2), e3)`: the combination is left-associative. |
| Grammar.Keyword | imp_parser.py:42-43 | Matches exactly the reserved token with that text and yields the text. |
| Grammar.Num | imp_parser.py:44 | Matches exactly an INT token and yields the decimal reading of its text. |
| Grammar.NumReadsDigits | imp_parser.py:44 | On an INT token whose text is the decimal rendering of `n`, `num` yields `n`. |
| Grammar.AnyOperatorInList | imp_parser.py:167-170 | The fold of keyword alternatives succeeds iff the token is reserved and its text is one of the operators. It yields that text. |
| Grammar.OpParser | imp_parser.py:140-141 | A level's separator succeeds iff the next token is one of the level's operators. It yields `combine` of that operator. |
| Grammar.Climb | imp_parser.py:142-145 | Wrapping a parser in one `Exp` per remaining level keeps it monotone and advancing. The result fails exactly when the element parser fails. |
| Grammar.Precedence | imp_parser.py:139-145 | `precedence` fails exactly when the value parser fails, and it advances whenever the value parser does. |
| Grammar.Nest | imp_parser.py:139-145 | The level tower built innermost-first is monotone, and it is advancing when the element parser is. |
| Grammar.IntValue | imp_parser.py:135 | `num ^ IntAexp` succeeds exactly on an INT token and yields the literal's value. |
| Grammar.IdReadsName | imp_parser.py:45 | `id` succeeds exactly on an ID token, whatever its text, and yields that text at the next position; it always advances. |
| Grammar.VarValue | imp_parser.py:136 | `id ^ VarAexp` succeeds exactly on an ID token and yields a variable with that name. |
| Grammar.AexpValue | imp_parser.py:134-136 | `aexp_value` succeeds exactly on an INT or ID token. An INT becomes `IntAexp` and an ID becomes `VarAexp`. |
| Grammar.StmtSeparator | imp_parser.py:56 | The list separator succeeds exactly on `;`. |
| GrammarLaws.ClimbIsNest | imp_parser.py:142-145 | The source's loop over the level table, which builds from the first level outward, equals the tower over the first `k` levels. |
| GrammarLaws.PrecedenceIsNest | imp_parser.py:139-145 | `precedence` equals the full tower of `Exp` layers. |
| GrammarLaws.AexpIsSourceForm | imp_parser.py:123-126 | `Aexp` equals `precedence(aexp_term, aexp_precedence_levels, process_binop)` at every input. |
| GrammarLaws.AexpTermIsSourceForm | imp_parser.py:128-129 | `AexpTerm` equals `aexp_value \| aexp_group`. |
| GrammarLaws.AexpGroupIsSourceForm | imp_parser.py:131-132 | `AexpGroup` equals `keyword('(') + Lazy(aexp) + keyword(')') ^ process_group`. |
| GrammarLaws.AexpLevelIsNest | imp_parser.py:173-176 | For every `k`, the arithmetic level function equals the tower over the first `k` levels of the arithmetic table. |
| GrammarLaws.BexpIsSourceForm | imp_parser.py:102-105 | `Bexp` equals `precedence(bexp_term, bexp_precedence_levels, process_logic)`. |
| GrammarLaws.BexpLevelIsNest | imp_parser.py:178-181 | For every `k`, the boolean level function equals the tower over the first `k` levels of the boolean table. |
| GrammarLaws.BexpTermIsSourceForm | imp_parser.py:107-110 | `BexpTerm` equals `bexp_not \| bexp_relop \| bexp_group`. |
| GrammarLaws.BexpNotIsSourceForm | imp_parser.py:112-113 | `BexpNot` equals `keyword('not') + Lazy(bexp_term) ^ NotBexp`. |
| GrammarLaws.BexpRelopIsSourceForm | imp_parser.py:115-117 | `BexpRelop` equals `aexp + any_operator_in_list(relops) + aexp ^ process_relop`. |
| GrammarLaws.BexpGroupIsSourceForm | imp_parser.py:119-120 | `BexpGroup` equals the parenthesised `Lazy(bexp)` processed by `process_group`. |
| GrammarLaws.StmtListLoopIsExpLoop | imp_parser.py:55-57 | The statement-list loop is the loop of `Exp(stmt, separator)`. |
| GrammarLaws.StmtListIsSourceForm | imp_parser.py:55-57 | `StmtList` equals `Exp(stmt(), keyword(';') ^ CompoundStatement)`. |
| GrammarLaws.StmtIsSourceForm | imp_parser.py:59-62 | `Stmt` equals `assign_stmt \| if_stmt \| while_stmt`. |
| GrammarLaws.AssignStmtIsSourceForm | imp_parser.py:64-68 | `AssignStmt` equals `id + keyword(':=') + aexp ^ process`. |
| GrammarLaws.IfStmtIsSourceForm | imp_parser.py:70-81 | `IfStmt` equals the source's `if` expression, with its optional `else` part and its `process`. |
| GrammarLaws.WhileStmtIsSourceForm | imp_parser.py:83-89 | `WhileStmt` equals `while bexp do Lazy(stmt_list) end ^ process`. |
| GrammarLaws.ImpParseIsSourceForm | imp_parser.py:47-52 | `ImpParse` equals `Phrase(stmt_list())(tokens, 0)`. |
| ImpParser.ImpParse | imp_parser.py:47-52 | A successful parse covers every token of a non-empty input, and the last token is a number, a name, `)` or `end`. |
| ParserLaws.AexpSingleTerm | imp_parser.py:123-126 | A term followed by no arithmetic operator is the whole expression. |
| ParserLaws.MulBindsTighterOnTheRight | imp_parser.py:173-176 | `x + y * z` parses as `x + (y * z)`. |
| ParserLaws.MulBindsTighterOnTheLeft | imp_parser.py:173-176 | `x * y + z` parses as `(x * y) + z`. |
| ParserLaws.SameLevelAssociatesLeft | imp_parser.py:139-145 | Two operators of the same level associate to the left: `x - y - z` is `(x - y) - z`. |
| ParserLaws.GroupIsTransparent | imp_parser.py:131-132 | `( e )` yields `e` itself, with no node for the parentheses. |
| ParserLaws.OneOperator | imp_parser.py:139-145 | `x o y`, with `o` from either level and nothing after it, is `o(x, y)`. |
| ParserLaws.AexpTermCases | imp_parser.py:128-136 | A term is a literal, a name or a parenthesised expression, and it yields the matching node. |
| ParserLaws.BexpSingleTerm | imp_parser.py:102-105 | A boolean term followed by no `and`/`or` is the whole condition. |
| ParserLaws.AndBindsTighterThanOr | imp_parser.py:178-181 | `x or y and z` parses as `x or (y and z)`. |
| ParserLaws.AndBindsTighterOnTheLeft | imp_parser.py:155-161 | `x and y or z` parses as `(x and y) or z`, built with the `AndBexp` and `OrBexp` constructors. |
| ParserLaws.RelopShape | imp_parser.py:115-117 | A relation parses iff an expression, a relational operator and another expression follow one another. The node keeps the operator's text, which is one of the six relops. |
| ParserLaws.StmtListLoopSequences | imp_parser.py:55-57 | The list loop nests the statements it reads to the left, onto the accumulated statement. |
| ParserLaws.StmtListSequences | imp_parser.py:55-57 | A list `s1; ...; sn` yields the left-nested compound of its statements. |
| ParserLaws.ThreeStatementsNestLeft | imp_parser.py:55-57 | `a; b; c` yields `Compound(Compound(a, b), c)`. |
| ParserLaws.TwoStatementsNest | imp_parser.py:55-57 | `a; b` not followed by `;` yields `Compound(a, b)`. |
| ParserLaws.AssignIsStatement | imp_parser.py:59-68 | A name, `:=` and an expression make a statement: the assignment to that name. |
| ParserLaws.WhileIsStatement | imp_parser.py:59-62 | `while c do b end` is a statement: the loop, once assignment and `if` have failed. |
| ParserLaws.IfWithoutElse | imp_parser.py:70-81 | `if c then t end` yields an if-statement with no else branch. |
| ParserLaws.IfWithElse | imp_parser.py:70-81 | `if c then t else e end` yields an if-statement with `e` as its else branch. |
| ParserLaws.IfShape | imp_parser.py:70-81 | A parsed `if` runs from `if` to `end` and keeps its condition and then-branch. It has an else branch iff `else` follows the then-branch. |
| ParserLaws.WhileShape | imp_parser.py:83-89 | A `while` parses iff `while`, a condition, `do`, a statement list and `end` follow one another, and it keeps the condition and the body. |
| ParserLaws.EmptyProgramRejected | imp_parser.py:47-57 | The empty token list is not a program. |
| ParserLaws.TrailingSeparatorRejected | imp_parser.py:51-57 | A program ending in `;` is rejected. |
| ParserLaws.MissingSeparatorRejected | imp_parser.py:51-57 | Two assignments without a `;` between them are rejected. |
| ParserLaws.EqualsSignParses | imp_parser.py:116 | `x = 1` parses as a relation with the operator `=`. |
| ParserLaws.SumOfProductExample | imp_parser.py:173-176 | `2 + 3 * 4` parses as `2 + (3 * 4)`. |
| ParserLaws.DifferenceAssociatesLeftExample | imp_parser.py:139-145 | `1 - 2 - 3` parses as `(1 - 2) - 3`. |
| ParserLaws.NestedGroupExample | imp_parser.py:131-132 | `((1))` parses as the literal 1. |
| ParserLaws.BoolGroupIsTransparent | imp_parser.py:119-120 | A parenthesised condition yields the condition inside it. |
| Eval.Lookup | imp_ast.py:61-64 | A bound name reads its value in the environment, and a name that was never assigned reads as 0. |
| Eval.ApplyBinop | imp_ast.py:75-91 | An operator raises iff it is not one of `+ - * /`, or it is `/` with a zero divisor. The error names which case occurred. |
| Eval.EvalA | imp_ast.py:52-91 | A literal evaluates to itself and a variable to its lookup, so an unknown name reads as 0. Arithmetic evaluation never raises a name error. |
| Eval.Compare | imp_ast.py:101-118 | A comparison yields a value iff the dialect knows the operator. Otherwise it raises an unknown-operator error that names it. |
| Eval.EvalB | imp_ast.py:101-149 | Boolean evaluation never raises a name error. |
| Eval.Exec | imp_ast.py:157-196 | Only a statement that contains a `while` can run out of fuel: assignments, sequences and ifs of loop-free statements always end. |
| Eval.Loop | imp_ast.py:192-196 | A loop that finishes does so on a false condition. |
| EvalLaws.ExecFuelMonotone | imp_ast.py:192-196 | Any run that finishes with some fuel gives the same outcome with more fuel. |
| EvalLaws.LoopFuelMonotone | imp_ast.py:192-196 | The same holds for the loop on its own. |
| EvalLaws.ExecChangesOnlyAssigned | imp_ast.py:157-196 | A statement that finishes or raises keeps every name and changes only names it may assign. |
| EvalLaws.LoopChangesOnlyAssigned | imp_ast.py:192-196 | A loop that finishes or raises changes only the body's names. A finished loop's condition is false at the end. |
| EvalLaws.EarlierEffectsSurviveAnError | imp_ast.py:157-169 | In `x := 1; y := 1 / 0` the division raises, and the assignment to `x` made before it has taken effect. |
| EvalLaws.EvalAReadsItsVars | imp_ast.py:52-91 | Two environments that agree on an expression's variables give it the same value or the same error. |
| EvalLaws.EvalBReadsItsVars | imp_ast.py:101-149 | The same holds for boolean expressions. |
| EvalLaws.UnassignedReadsZero | imp_ast.py:61-64 | Binding an unassigned name to 0 changes no expression's value. |
| EvalLaws.ConnectivesEvaluateBoth | imp_ast.py:126-149 | `and`/`or` succeed iff both operands do, and `not` succeeds iff its operand does. Each yields the matching boolean operation. |
| EvalLaws.NoShortCircuit | imp_ast.py:126-129 | `0 > 1 and 1 < 1/0` raises division by zero even though its left side is false. |
| EvalLaws.GrammarArithOpsEvaluate | imp_ast.py:78-88 | Every operator of the arithmetic level table is known to the evaluator. Only `/` by zero raises. |
| EvalLaws.OtherArithOpsRaise | imp_ast.py:89-90 | An operator outside the tables raises an unknown-operator error. |
| EvalLaws.DivisionByZeroRaises | imp_ast.py:84-88 | Dividing by an expression worth 0 raises division by zero. |
| EvalLaws.GrammarRelopsEvaluate | imp_ast.py:104-117 | Every relop the grammar accepts is known to the intended evaluator. The written one knows all of them except `=`. |
| EvalLaws.LoopUnfolds | imp_ast.py:192-196 | One turn of a loop: a false condition ends it, and a true one runs the body and continues from the new environment. |
| EvalLaws.WhileUnrolls | imp_ast.py:178-196 | In the intended dialect, `while c do b end` behaves as `if c then b; while c do b end end`. |
| EvalLaws.SequencingAssociates | imp_ast.py:167-169 | `(a; b); c` and `a; (b; c)` have the same outcome, so the left nesting the parser builds does not matter. |
| EvalLaws.DialectsAgreeOnConditions | imp_ast.py:101-149 | A condition without `=` evaluates the same in both dialects. |
| EvalLaws.EvalADialectFree | imp_ast.py:52-91 | Arithmetic evaluation does not depend on the dialect. |
| EvalLaws.DialectsAgree | imp_ast.py:157-196 | A statement with no `if` and no `=` condition has the same outcome in both dialects. |
| EvalLaws.LoopDialectsAgree | imp_ast.py:192-196 | The same holds for a loop whose condition and body qualify. |
| EvalLaws.AssignSetsOnlyItsName | imp_ast.py:157-159 | An assignment binds its name to the expression's value, adds only that name and leaves every other name alone. |
| EvalLaws.AssignPropagatesErrors | imp_ast.py:157-159 | An assignment whose expression raises raises the same error. |
| EvalLaws.TrueConditionRunsThen | imp_ast.py:178-181 | A true condition runs the then-branch. |
| EvalLaws.FalseConditionRaisesAsWritten | imp_ast.py:182-184 | As written, a false condition raises a name error on `false_value`, with or without an else branch. |
| EvalLaws.FalseConditionRunsElse | imp_ast.py:182-184 | As intended, a false condition runs the else branch if there is one, and otherwise changes nothing. |
| EvalLaws.ElseBranchExample | imp_ast.py:178-184 | `if 1 > 2 then x := 1 else x := 2 end` raises as written and gives `x = 2` as intended. |
| EvalLaws.UnrollingFailsAsWritten | imp_ast.py:178-196 | As written, a loop whose condition is false finishes, but its one-step unrolling into an `if` raises. |
| EvalLaws.EqualsRaisesAsWritten | imp_ast.py:101-117 | The parsed `x = 1` raises an unknown-operator error for `=` in the written evaluator. |
| EvalLaws.EqualsComparesIntended | imp_parser.py:116 | In the intended evaluator, the parsed `x = 1` compares `x` with 1. |
| EvalLaws.FactorialLoop | imp_ast.py:224-227 | From `n`, `p`, with enough fuel, the factorial loop ends with `n = 0` and `p` multiplied by `n!`. |
| EvalLaws.FactorialComputes | imp_ast.py:221-227 | The factorial program from an empty environment ends with `n = 0` and `p = 120`, in both dialects. |
| EvalLaws.FactorialParses | imp_ast.py:221-227 | The program's tokens parse as a whole into the tree `Factorial`: the three statements nest to the left and the loop body is the compound of its two steps. |
| EvalLaws.FactorialProgramComputes | imp_ast.py:221-227 | From its tokens to its result: the program parses, and the tree it parses to ends with `p = 120`. |

## Left out

- The lexer, the drivers that read files and print the tree, `equality.py` and every `__repr__` are not part of this model. The parser starts from a token list.
- `for_stmt`, `ForStatement` and `PrintStatement` are not reachable from `stmt` and are not modelled.
- Grammar.Num: it yields the decimal reading of any INT token's text. The source's `int(text)` raises ValueError on text that is not a decimal numeral; the lexer gives INT only to runs of digits, so that error is not modelled. `NumReadsDigits` states the case the lexer produces.
- Combinators.Rep: it requires a parser that consumes at least one token on success, and `Exp` requires the same of its separator. In the source, `Rep` and `Exp` loop forever on a parser that succeeds without consuming; every parser the grammar passes them consumes.
- Token tags are compared with `is` in the source. The model compares them as values, which matches for the lexer's interned tag constants.
- `Process` mutates the result object in place, and `Lazy` caches its parser in a mutable field. Both are modelled as pure functions. `LazyCall` keeps the cache as an explicit value.
- `Lazy` is used inside the grammar as the parser its thunk builds. The mutual recursion of the rules is resolved by the first-order functions of `ImpParser`, which `GrammarLaws` proves equal to the combinator forms.
- ProcessLogic: an operator other than `and`/`or` raises a RuntimeError in the source. Here it is a precondition, because the level table only ever passes `and` and `or`.
- Eval.ApplyBinop: `/` in the source is Python's true division and yields a float. The model leaves the quotient to the `divide` parameter of `Semantics` and keeps values integer. Two float behaviours are therefore not modelled: the OverflowError that true division raises when the quotient is too large for a float (the model's `/` by a non-zero divisor never fails), and float quotients flowing into later `+ - *` and comparisons (`7 / 2 * 2` is `7.0` in the source).
- Eval.ApplyBinop: on a zero divisor the source prints a message and then fails on the unbound local `value`. The model has no I/O, so this is the single error `DivisionByZero`.
- Exec: the source's `while` may run forever. The model bounds iterations by `fuel`, and `OutOfFuel` stands for a run that did not finish within the bound.
- Exec: its own contract says only when a run may run out of fuel. What a run does is stated by the lemmas of `EvalLaws`.
- Exec: `OutOfFuel` carries no environment. A run that needs more fuel has no counterpart in the source, which keeps looping.
- The environment is threaded through as a value, not mutated. Expressions cannot change it, because evaluation is a pure function.
- Exceptions are the `Raised` outcome. Python's exception types are reduced to the three kinds of `Eval.Error`.

## Findings

| source | as written | input that shows it | evidently intended | confidence | as-written member | corrected member |
|---|---|---|---|---|---|---|
| imp_ast.py:182-184 | The else part tests and calls `false_value`, a name that is never defined, instead of `self.false_statement`. | `if 1 > 2 then x := 1 else x := 2 end`: the condition is false, so evaluation raises a name error. | A false condition runs the else branch if there is one, and otherwise does nothing. | not executed | EvalLaws.FalseConditionRaisesAsWritten, EvalLaws.ElseBranchExample | EvalLaws.FalseConditionRunsElse |
| imp_parser.py:116 | The grammar accepts `=` as a relational operator, but `RelopBexp.eval` knows only `>`, `<`, `==`, `!=`, `<=` and `>=` (imp_ast.py:104-117). | `x = 1` parses, then raises "unknown operator: =" when evaluated. | `=` compares for equality, as `==` does. | not executed | EvalLaws.EqualsRaisesAsWritten | EvalLaws.EqualsComparesIntended |
