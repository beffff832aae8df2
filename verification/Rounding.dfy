/** The seven rounding modes of the rating rules, as functions from a real number to an integer. */
module Rounding {

  datatype Mode = Ceiling | Down | Floor | HalfDown | HalfEven | HalfUp | Up

  predicate IsHalf(mode: Mode) {
    mode.HalfDown? || mode.HalfEven? || mode.HalfUp?
  }

  function Abs(x: real): real {
    if x < 0.0 then -x else x
  }

  /** Whether the magnitude floor(|x|) = m is incremented, when frac = |x| - m is discarded. */
  predicate Increments(mode: Mode, negative: bool, m: int, frac: real) {
    match mode
    case Down => false
    case Up => frac > 0.0
    case Floor => negative && frac > 0.0
    case Ceiling => !negative && frac > 0.0
    case HalfUp => frac >= 0.5
    case HalfDown => frac > 0.5
    case HalfEven => frac > 0.5 || (frac == 0.5 && m % 2 == 1)
  }

  /** The magnitude x is truncated and, depending on the mode, incremented. */
  function Magnitude(mode: Mode, negative: bool, x: real): int {
    if Increments(mode, negative, x.Floor, x - x.Floor as real) then x.Floor + 1 else x.Floor
  }

  /** Rounds x to an integer, sign and magnitude separately. */
  function Round(mode: Mode, x: real): int {
    var r := Magnitude(mode, x < 0.0, Abs(x));
    if x < 0.0 then -r else r
  }

  /** What each mode promises about the result n, said without computing it. */
  ghost predicate Meets(mode: Mode, x: real, n: int) {
    match mode
    case Floor => n as real <= x < n as real + 1.0
    case Ceiling => n as real - 1.0 < x <= n as real
    case Down => if x < 0.0 then n as real - 1.0 < x <= n as real else n as real <= x < n as real + 1.0
    case Up => if x < 0.0 then n as real <= x < n as real + 1.0 else n as real - 1.0 < x <= n as real
    case HalfUp =>
      Abs(n as real - x) <= 0.5 && (Abs(n as real - x) == 0.5 ==> Abs(n as real) > Abs(x))
    case HalfDown =>
      Abs(n as real - x) <= 0.5 && (Abs(n as real - x) == 0.5 ==> Abs(n as real) < Abs(x))
    case HalfEven =>
      Abs(n as real - x) <= 0.5 && (Abs(n as real - x) == 0.5 ==> n % 2 == 0)
  }

  lemma RoundSatisfies(mode: Mode, x: real)
    ensures Meets(mode, x, Round(mode, x))
  {
  }

  lemma MeetsUnique(mode: Mode, x: real, m: int, n: int)
    requires Meets(mode, x, m) && Meets(mode, x, n)
    ensures m == n
  {
  }

  /** The promise determines the result: in every mode, exactly one integer meets it, and Round finds it. */
  lemma RoundMeets(mode: Mode, x: real, n: int)
    ensures Meets(mode, x, n) <==> n == Round(mode, x)
  {
    RoundSatisfies(mode, x);
    if Meets(mode, x, n) {
      MeetsUnique(mode, x, n, Round(mode, x));
    }
  }

  /** Less than one unit away, and at most half a unit in the HALF modes. */
  lemma RoundError(mode: Mode, x: real)
    ensures Abs(Round(mode, x) as real - x) < 1.0
    ensures IsHalf(mode) ==> Abs(Round(mode, x) as real - x) <= 0.5
  {
    RoundSatisfies(mode, x);
  }

  /** Integers are left alone. */
  lemma RoundInteger(mode: Mode, n: int)
    ensures Round(mode, n as real) == n
  {
    RoundMeets(mode, n as real, n);
  }

  /** Rounding never reverses an order, negative numbers and ties included. */
  lemma RoundMonotone(mode: Mode, x: real, y: real)
    requires x <= y
    ensures Round(mode, x) <= Round(mode, y)
  {
    RoundSatisfies(mode, x);
    RoundSatisfies(mode, y);
  }

  /** Between integers nothing is crossed: m <= x <= n is kept. */
  lemma RoundBetween(mode: Mode, m: int, x: real, n: int)
    requires m as real <= x <= n as real
    ensures m <= Round(mode, x) <= n
  {
    RoundInteger(mode, m);
    RoundInteger(mode, n);
    RoundMonotone(mode, m as real, x);
    RoundMonotone(mode, x, n as real);
  }

  /** Rounding two numbers of the same sign moves their difference by at most one unit. */
  lemma RoundDifference(mode: Mode, x: real, y: real)
    requires 0.0 <= x && 0.0 <= y
    ensures Abs(Round(mode, x) as real - Round(mode, y) as real) <= Abs(x - y) + 1.0
  {
    RoundSatisfies(mode, x);
    RoundSatisfies(mode, y);
  }
}
