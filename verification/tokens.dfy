/** The optional value used for `Opt` results and for the else-branch of an if-statement. */
module Wrappers {

  datatype Option<+T> = None | Some(value: T)
}

/** Tokens as the IMP lexer hands them to the parser: (text, tag) pairs. */
module Tokens {

  /** The tag set of the IMP lexer. */
  datatype TokenTag = RESERVED | INT | ID

  datatype Token = Token(text: string, tag: TokenTag)

  /** True when `s` is a non-empty run of decimal digits, the only text the
      lexer gives an INT token. */
  predicate IsDecimal(s: string) {
    |s| > 0 && forall i :: 0 <= i < |s| ==> '0' <= s[i] <= '9'
  }

  /** The integer a run of decimal digits denotes (what `int(text)` computes
      for such text). */
  function DecimalValue(s: string): int
    decreases |s|
  {
    if s == [] then 0
    else DecimalValue(s[..|s| - 1]) * 10 + (s[|s| - 1] as int - '0' as int)
  }

  /** The decimal rendering of a natural number, without leading zeros. */
  function Digits(n: nat): (s: string)
    ensures IsDecimal(s)
    decreases n
  {
    var d := [(n % 10 + '0' as int) as char];
    if n < 10 then d else Digits(n / 10) + d
  }

  /** Reading back the decimal rendering of `n` gives `n`. */
  lemma {:induction false} DecimalRoundTrip(n: nat)
    ensures DecimalValue(Digits(n)) == n
    decreases n
  {
    var s := Digits(n);
    if n >= 10 {
      DecimalRoundTrip(n / 10);
      assert s[..|s| - 1] == Digits(n / 10);
    }
  }
}
