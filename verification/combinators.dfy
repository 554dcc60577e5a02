/** The parser-combinator engine: primitive token matchers and the
    combinators that compose them. A parser maps a token sequence and a
    position to `Result(value, newPos)` or `Failure`. */
module Combinators {
  import opened Wrappers
  import opened Tokens

  /** What a parser returns: `Failure` stands for the source's `None`. */
  datatype ParseResult<+T> = Failure | Result(value: T, pos: nat)

  type Parser<T> = (seq<Token>, nat) -> ParseResult<T>

  /** A successful parse never moves backwards, and from a position inside
      the input it never ends past the input's end. */
  ghost predicate Monotone<T>(p: Parser<T>) {
    forall ts: seq<Token>, pos: nat :: p(ts, pos).Result? ==>
      pos <= p(ts, pos).pos && (pos <= |ts| ==> p(ts, pos).pos <= |ts|)
  }

  /** A successful parse consumes at least one token and stays inside the input. */
  ghost predicate Advancing<T>(p: Parser<T>) {
    forall ts: seq<Token>, pos: nat :: p(ts, pos).Result? ==> pos < p(ts, pos).pos <= |ts|
  }

  lemma AdvancingIsMonotone<T>(p: Parser<T>)
    requires Advancing(p)
    ensures Monotone(p)
  {
  }

  /** Matches one token with exactly this text and tag; yields the text. */
  function Reserved(value: string, tag: TokenTag): (r: Parser<string>)
    ensures Advancing(r)
    ensures forall ts: seq<Token>, pos: nat :: r(ts, pos).Result? <==>
      pos < |ts| && ts[pos].text == value && ts[pos].tag == tag
    ensures forall ts: seq<Token>, pos: nat :: r(ts, pos).Result? ==>
      r(ts, pos) == Result(value, pos + 1)
  {
    (ts: seq<Token>, pos: nat) =>
      if pos < |ts| && ts[pos].text == value && ts[pos].tag == tag
      then Result(ts[pos].text, pos + 1)
      else Failure
  }

  /** Matches one token with this tag, whatever its text; yields the text. */
  function Tag(tag: TokenTag): (r: Parser<string>)
    ensures Advancing(r)
    ensures forall ts: seq<Token>, pos: nat :: r(ts, pos).Result? <==>
      pos < |ts| && ts[pos].tag == tag
    ensures forall ts: seq<Token>, pos: nat :: r(ts, pos).Result? ==>
      r(ts, pos) == Result(ts[pos].text, pos + 1)
  {
    (ts: seq<Token>, pos: nat) =>
      if pos < |ts| && ts[pos].tag == tag then Result(ts[pos].text, pos + 1) else Failure
  }

  /** `left + right`: runs `right` where `left` stopped and pairs the values. */
  function Concat<A, B>(left: Parser<A>, right: Parser<B>): (r: Parser<(A, B)>)
    ensures forall ts: seq<Token>, pos: nat :: r(ts, pos).Result? <==>
      left(ts, pos).Result? && right(ts, left(ts, pos).pos).Result?
    ensures forall ts: seq<Token>, pos: nat :: r(ts, pos).Result? ==>
      r(ts, pos) == Result((left(ts, pos).value, right(ts, left(ts, pos).pos).value),
                           right(ts, left(ts, pos).pos).pos)
    ensures Monotone(left) && Monotone(right) ==> Monotone(r)
    ensures Advancing(left) && Monotone(right) ==> Advancing(r)
    ensures Monotone(left) && Advancing(right) ==> Advancing(r)
  {
    (ts: seq<Token>, pos: nat) =>
      match left(ts, pos)
      case Failure => Failure
      case Result(lv, lpos) =>
        match right(ts, lpos)
        case Failure => Failure
        case Result(rv, rpos) => Result((lv, rv), rpos)
  }

  /** `left | right`: ordered choice; `right` is tried at the original position. */
  function Alternate<T>(left: Parser<T>, right: Parser<T>): (r: Parser<T>)
    ensures forall ts: seq<Token>, pos: nat :: left(ts, pos).Result? ==> r(ts, pos) == left(ts, pos)
    ensures forall ts: seq<Token>, pos: nat :: left(ts, pos).Failure? ==> r(ts, pos) == right(ts, pos)
    ensures Monotone(left) && Monotone(right) ==> Monotone(r)
    ensures Advancing(left) && Advancing(right) ==> Advancing(r)
  {
    (ts: seq<Token>, pos: nat) =>
      var lr := left(ts, pos);
      if lr.Result? then lr else right(ts, pos)
  }

  /** Never fails: an inner failure becomes `Result(None, pos)`. */
  function Opt<T>(p: Parser<T>): (r: Parser<Option<T>>)
    ensures forall ts: seq<Token>, pos: nat :: r(ts, pos).Result?
    ensures forall ts: seq<Token>, pos: nat :: p(ts, pos).Failure? ==> r(ts, pos) == Result(None, pos)
    ensures forall ts: seq<Token>, pos: nat :: p(ts, pos).Result? ==>
      r(ts, pos) == Result(Some(p(ts, pos).value), p(ts, pos).pos)
    ensures Monotone(p) ==> Monotone(r)
  {
    (ts: seq<Token>, pos: nat) =>
      match p(ts, pos)
      case Result(v, q) => Result(Some(v), q)
      case Failure => Result(None, pos)
  }

  /** `vs` are the values of successive successful applications of `p`
      starting at `pos`, the last of which ends at `end`. */
  ghost predicate Repeated<T>(p: Parser<T>, ts: seq<Token>, pos: nat, vs: seq<T>, end: nat)
    decreases |vs|
  {
    if vs == [] then end == pos
    else p(ts, pos).Result? && p(ts, pos).value == vs[0]
         && Repeated(p, ts, p(ts, pos).pos, vs[1..], end)
  }

  /** The loop of `Rep`, from position `pos`. */
  function RepFrom<T>(p: Parser<T>, ts: seq<Token>, pos: nat): (r: ParseResult<seq<T>>)
    requires Advancing(p)
    ensures r.Result? && pos <= r.pos
    ensures pos <= |ts| ==> r.pos <= |ts|
    ensures p(ts, r.pos).Failure?
    ensures Repeated(p, ts, pos, r.value, r.pos)
    ensures r.value == [] <==> p(ts, pos).Failure?
    decreases |ts| - pos
  {
    match p(ts, pos)
    case Failure => Result([], pos)
    case Result(v, q) =>
      var rest := RepFrom(p, ts, q);
      assert [v] + rest.value != [] && ([v] + rest.value)[1..] == rest.value;
      Result([v] + rest.value, rest.pos)
  }

  /** Zero or more applications of `p`; never fails. */
  function Rep<T>(p: Parser<T>): (r: Parser<seq<T>>)
    requires Advancing(p)
    ensures Monotone(r)
    ensures forall ts: seq<Token>, pos: nat :: r(ts, pos).Result? && p(ts, r(ts, pos).pos).Failure?
    ensures forall ts: seq<Token>, pos: nat :: Repeated(p, ts, pos, r(ts, pos).value, r(ts, pos).pos)
    ensures forall ts: seq<Token>, pos: nat :: p(ts, pos).Failure? ==> r(ts, pos) == Result([], pos)
  {
    (ts: seq<Token>, pos: nat) => RepFrom(p, ts, pos)
  }

  /** `p ^ f`: replaces the value by `f(value)` and keeps the position. The
      function may be partial; it must accept every value `p` yields. */
  function Process<A, B>(p: Parser<A>, f: A --> B): (r: Parser<B>)
    requires forall ts: seq<Token>, pos: nat :: p(ts, pos).Result? ==> f.requires(p(ts, pos).value)
    ensures forall ts: seq<Token>, pos: nat :: r(ts, pos).Result? <==> p(ts, pos).Result?
    ensures forall ts: seq<Token>, pos: nat :: p(ts, pos).Result? ==>
      r(ts, pos) == Result(f(p(ts, pos).value), p(ts, pos).pos)
    ensures Monotone(p) ==> Monotone(r)
    ensures Advancing(p) ==> Advancing(r)
  {
    (ts: seq<Token>, pos: nat) =>
      match p(ts, pos)
      case Failure => Failure
      case Result(v, q) => Result(f(v), q)
  }

  /** The parser a `Lazy` wrapper stands for: the one its thunk builds. */
  function Lazy<T>(thunk: () -> Parser<T>): Parser<T>
  {
    (ts: seq<Token>, pos: nat) => thunk()(ts, pos)
  }

  /** A `Lazy` object: its thunk and the parser cached by the first call. */
  datatype LazyCell<T> = LazyCell(thunk: () -> Parser<T>, cached: Option<Parser<T>>)

  /** The cache, once filled, holds the parser the thunk builds. */
  ghost predicate Coherent<T>(cell: LazyCell<T>) {
    cell.cached.None? || cell.cached.value == cell.thunk()
  }

  /** One call of a `Lazy` object: runs the thunk only if nothing is cached,
      then runs the cached parser. Yields the updated object and the result. */
  function LazyCall<T>(cell: LazyCell<T>, ts: seq<Token>, pos: nat): (r: (LazyCell<T>, ParseResult<T>))
    ensures r.0.thunk == cell.thunk && r.0.cached.Some?
    ensures cell.cached.Some? ==> r.0 == cell
    ensures Coherent(cell) ==> Coherent(r.0) && r.1 == Lazy(cell.thunk)(ts, pos)
  {
    var c := if cell.cached.None? then LazyCell(cell.thunk, Some(cell.thunk())) else cell;
    (c, c.cached.value(ts, pos))
  }

  /** Succeeds only when `p` succeeds and consumes every remaining token. */
  function Phrase<T>(p: Parser<T>): (r: Parser<T>)
    ensures forall ts: seq<Token>, pos: nat :: r(ts, pos).Result? <==>
      p(ts, pos).Result? && p(ts, pos).pos == |ts|
    ensures forall ts: seq<Token>, pos: nat :: r(ts, pos).Result? ==> r(ts, pos) == p(ts, pos)
  {
    (ts: seq<Token>, pos: nat) =>
      var pr := p(ts, pos);
      if pr.Result? && pr.pos == |ts| then pr else Failure
  }

  /** The parser `Exp` runs after the first element: a separator and an
      element, combined with the value accumulated so far. */
  function NextElement<T>(p: Parser<T>, sep: Parser<(T, T) -> T>, acc: T): (r: Parser<T>)
    ensures forall ts: seq<Token>, pos: nat :: r(ts, pos).Result? <==> Concat(sep, p)(ts, pos).Result?
    ensures forall ts: seq<Token>, pos: nat :: r(ts, pos).Result? ==>
      r(ts, pos) == Result(sep(ts, pos).value(acc, p(ts, sep(ts, pos).pos).value),
                           p(ts, sep(ts, pos).pos).pos)
    ensures Monotone(p) && Advancing(sep) ==> Advancing(r)
  {
    Process(Concat(sep, p), (parsed: ((T, T) -> T, T)) => parsed.0(acc, parsed.1))
  }

  /** The loop of `Exp`: `acc` at `pos` is the result accumulated so far.
      A separator followed by an element extends it; anything else ends the
      loop where it is. */
  function ExpLoop<T>(p: Parser<T>, sep: Parser<(T, T) -> T>, ts: seq<Token>, acc: T, pos: nat): (r: ParseResult<T>)
    requires Monotone(p) && Advancing(sep)
    ensures r.Result? && pos <= r.pos
    ensures pos <= |ts| ==> r.pos <= |ts|
    ensures sep(ts, r.pos).Failure? || p(ts, sep(ts, r.pos).pos).Failure?
    decreases |ts| - pos
  {
    var s := sep(ts, pos);
    if s.Failure? then Result(acc, pos)
    else
      var e := p(ts, s.pos);
      if e.Failure? then Result(acc, pos)
      else ExpLoop(p, sep, ts, s.value(acc, e.value), e.pos)
  }

  /** `p * sep`: one or more elements separated by `sep`, whose value is the
      combining function; the values are folded from the left. */
  function Exp<T>(p: Parser<T>, sep: Parser<(T, T) -> T>): (r: Parser<T>)
    requires Monotone(p) && Advancing(sep)
    ensures Monotone(r)
    ensures Advancing(p) ==> Advancing(r)
    ensures forall ts: seq<Token>, pos: nat :: r(ts, pos).Failure? <==> p(ts, pos).Failure?
    ensures forall ts: seq<Token>, pos: nat :: r(ts, pos).Result? ==>
      p(ts, pos).pos <= r(ts, pos).pos
      && (sep(ts, r(ts, pos).pos).Failure? || p(ts, sep(ts, r(ts, pos).pos).pos).Failure?)
  {
    (ts: seq<Token>, pos: nat) =>
      match p(ts, pos)
      case Failure => Failure
      case Result(v, q) => ExpLoop(p, sep, ts, v, q)
  }
}
