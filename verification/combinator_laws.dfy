/** Laws relating the combinators to one another: `Rep` is determined by the
    chain of applications it records, and `Exp` is a left fold over the
    separator/element pairs that `Rep` would collect. */
module CombinatorLaws {
  import opened Tokens
  import opened Combinators

  /** Left fold of separator/element pairs onto a first element. */
  function FoldLeft<T>(acc: T, pairs: seq<((T, T) -> T, T)>): T
    decreases |pairs|
  {
    if pairs == [] then acc else FoldLeft(pairs[0].0(acc, pairs[0].1), pairs[1..])
  }

  /** `Rep` returns exactly the chain of successful applications that ends
      where `p` first fails: no other result is possible. */
  lemma {:induction false} RepIsTheMaximalChain<T>(p: Parser<T>, ts: seq<Token>, pos: nat, vs: seq<T>, end: nat)
    requires Advancing(p)
    requires Repeated(p, ts, pos, vs, end) && p(ts, end).Failure?
    ensures Rep(p)(ts, pos) == Result(vs, end)
    decreases |vs|
  {
    if vs != [] {
      RepIsTheMaximalChain(p, ts, p(ts, pos).pos, vs[1..], end);
      assert [vs[0]] + vs[1..] == vs;
    }
  }

  lemma {:induction false} ExpLoopIsFold<T>(p: Parser<T>, sep: Parser<(T, T) -> T>, ts: seq<Token>, acc: T, pos: nat)
    requires Monotone(p) && Advancing(sep)
    ensures Advancing(Concat(sep, p))
    ensures ExpLoop(p, sep, ts, acc, pos)
         == Result(FoldLeft(acc, RepFrom(Concat(sep, p), ts, pos).value), RepFrom(Concat(sep, p), ts, pos).pos)
    decreases |ts| - pos
  {
    var next := Concat(sep, p);
    var r := RepFrom(next, ts, pos);
    match next(ts, pos)
    case Failure =>
    case Result(pair, q) =>
      ExpLoopIsFold(p, sep, ts, pair.0(acc, pair.1), q);
      assert r.value[1..] == RepFrom(next, ts, q).value;
  }

  /** One turn of `Exp`'s loop: a separator and an element extend the
      accumulated value; anything else ends the loop where it is. */
  lemma ExpLoopStep<T>(p: Parser<T>, sep: Parser<(T, T) -> T>, ts: seq<Token>, acc: T, pos: nat)
    requires Monotone(p) && Advancing(sep)
    ensures ExpLoop(p, sep, ts, acc, pos)
         == if sep(ts, pos).Result? && p(ts, sep(ts, pos).pos).Result?
            then ExpLoop(p, sep, ts, sep(ts, pos).value(acc, p(ts, sep(ts, pos).pos).value), p(ts, sep(ts, pos).pos).pos)
            else Result(acc, pos)
  {
  }

  /** Each turn of `Exp`'s loop runs the source's `process_next` parser:
      the loop stops where it fails and continues from where it succeeds. */
  lemma ExpLoopRunsNextElement<T>(p: Parser<T>, sep: Parser<(T, T) -> T>, ts: seq<Token>, acc: T, pos: nat)
    requires Monotone(p) && Advancing(sep)
    ensures ExpLoop(p, sep, ts, acc, pos)
         == match NextElement(p, sep, acc)(ts, pos)
            case Failure => Result(acc, pos)
            case Result(v, q) => ExpLoop(p, sep, ts, v, q)
  {
  }

  /** `Exp(p, sep)` fails exactly when the first element fails; otherwise it
      is the first element followed by `Rep(sep + p)`, folded from the left. */
  lemma ExpIsFoldedRep<T>(p: Parser<T>, sep: Parser<(T, T) -> T>, ts: seq<Token>, pos: nat)
    requires Monotone(p) && Advancing(sep)
    ensures Advancing(Concat(sep, p))
    ensures p(ts, pos).Failure? ==> Exp(p, sep)(ts, pos).Failure?
    ensures p(ts, pos).Result? ==>
      var rest := Rep(Concat(sep, p))(ts, p(ts, pos).pos);
      Exp(p, sep)(ts, pos) == Result(FoldLeft(p(ts, pos).value, rest.value), rest.pos)
  {
    if p(ts, pos).Result? {
      ExpLoopIsFold(p, sep, ts, p(ts, pos).value, p(ts, pos).pos);
    }
  }

  /** A single element not followed by a separator and an element is the
      whole `Exp`. */
  lemma ExpSingle<T>(p: Parser<T>, sep: Parser<(T, T) -> T>, ts: seq<Token>, pos: nat, e1: T, m1: nat)
    requires Monotone(p) && Advancing(sep)
    requires p(ts, pos) == Result(e1, m1) && Concat(sep, p)(ts, m1).Failure?
    ensures Exp(p, sep)(ts, pos) == Result(e1, m1)
  {
    ExpIsFoldedRep(p, sep, ts, pos);
  }

  /** For e1 s1 e2 followed by anything that is not a separator and an
      element, `Exp` yields s1(e1, e2) and stops after e2. */
  lemma ExpPair<T>(p: Parser<T>, sep: Parser<(T, T) -> T>, ts: seq<Token>, pos: nat,
                   e1: T, e2: T, s1: (T, T) -> T, m1: nat, m2: nat, m3: nat)
    requires Monotone(p) && Advancing(sep)
    requires p(ts, pos) == Result(e1, m1) && sep(ts, m1) == Result(s1, m2) && p(ts, m2) == Result(e2, m3)
    requires Concat(sep, p)(ts, m3).Failure?
    ensures Exp(p, sep)(ts, pos) == Result(s1(e1, e2), m3)
  {
    var next := Concat(sep, p);
    ExpIsFoldedRep(p, sep, ts, pos);
    assert Repeated(next, ts, m3, [], m3);
    assert Repeated(next, ts, m1, [(s1, e2)], m3);
    RepIsTheMaximalChain(next, ts, m1, [(s1, e2)], m3);
    assert [(s1, e2)][1..] == [];
  }

  /** For e1 s1 e2 s2 e3 followed by anything that is not a separator and an
      element, `Exp` yields s2(s1(e1, e2), e3) and stops after e3. */
  lemma ExpFoldsLeft<T>(p: Parser<T>, sep: Parser<(T, T) -> T>, ts: seq<Token>, pos: nat,
                        e1: T, e2: T, e3: T, s1: (T, T) -> T, s2: (T, T) -> T,
                        m1: nat, m2: nat, m3: nat, m4: nat, m5: nat)
    requires Monotone(p) && Advancing(sep)
    requires p(ts, pos) == Result(e1, m1) && sep(ts, m1) == Result(s1, m2) && p(ts, m2) == Result(e2, m3)
    requires sep(ts, m3) == Result(s2, m4) && p(ts, m4) == Result(e3, m5)
    requires Concat(sep, p)(ts, m5).Failure?
    ensures Exp(p, sep)(ts, pos) == Result(s2(s1(e1, e2), e3), m5)
  {
    var next := Concat(sep, p);
    ExpIsFoldedRep(p, sep, ts, pos);
    assert Repeated(next, ts, m5, [], m5);
    assert Repeated(next, ts, m3, [(s2, e3)], m5);
    assert Repeated(next, ts, m1, [(s1, e2), (s2, e3)], m5);
    RepIsTheMaximalChain(next, ts, m1, [(s1, e2), (s2, e3)], m5);
    var pairs := [(s1, e2), (s2, e3)];
    assert pairs[1..] == [(s2, e3)] && [(s2, e3)][1..] == [];
    assert FoldLeft(e1, pairs) == FoldLeft(s1(e1, e2), [(s2, e3)]) == s2(s1(e1, e2), e3);
  }
}
