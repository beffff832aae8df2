/**
 Finite decimal numbers and the context operations of the General Decimal Arithmetic Specification that the
 rating engine uses. The operations are computed on integer coefficients; the lemmas say what they mean on reals.
 */
module Decimals {
  import opened Wrappers
  import opened Errors
  import opened Powers
  import opened Rounding
  import opened SignificantDigits

  /** coef * 10^exp. */
  datatype Decimal = Dec(coef: int, exp: int)

  function Val(d: Decimal): real {
    Shift(10, d.coef as real, d.exp)
  }

  const ZERO := Dec(0, 0)

  /** The working precisions: the calculators' own, and the ambient default. */
  const CALCULATION_PRECISION: nat := 80
  const AMBIENT_PRECISION: nat := 28

  function AbsInt(n: int): nat {
    if n < 0 then -n else n
  }

  /** Number of decimal digits. */
  function Digits(n: nat): (k: nat)
    ensures k >= 1
    ensures n > 0 ==> PowNat(10, k - 1) <= n
    ensures n < PowNat(10, k)
  {
    if n < 10 then
      assert PowNat(10, 1) == 10 * PowNat(10, 0);
      1
    else 1 + Digits(n / 10)
  }

  /** n / m rounded to an integer, by comparing the remainder with the divisor. */
  function RoundQuotient(mode: Mode, n: int, m: nat): int
    requires m > 0
  {
    var c := RoundMagnitude(mode, n < 0, AbsInt(n) / m, AbsInt(n) % m, m);
    if n < 0 then 0 - c else c
  }

  /** The magnitude q + r / m, rounded. */
  function RoundMagnitude(mode: Mode, negative: bool, q: nat, r: nat, m: nat): nat {
    var up :=
      match mode
      case Down => false
      case Up => r > 0
      case Floor => negative && r > 0
      case Ceiling => !negative && r > 0
      case HalfUp => 2 * r >= m
      case HalfDown => 2 * r > m
      case HalfEven => 2 * r > m || (2 * r == m && q % 2 == 1);
    if up then q + 1 else q
  }

  /** What a context of precision prec does to an exact result: round half-even to prec digits. */
  function Fix(prec: nat, d: Decimal): Decimal
    requires prec >= 1
  {
    if Fits(10, prec, d.coef) then d
    else
      FitsMeansFewDigits(prec, d.coef);
      var k := Digits(AbsInt(d.coef)) - prec;
      Carry(prec, RoundQuotient(HalfEven, d.coef, PowNat(10, k)), d.exp + k)
  }

  /** A coefficient that was rounded up to 10^prec gives its last zero to the exponent. */
  function Carry(prec: nat, c: int, e: int): Decimal
    requires prec >= 1
  {
    if c == PowNat(10, prec) then Dec(PowNat(10, prec - 1), e + 1)
    else if c == 0 - PowNat(10, prec) then Dec(0 - PowNat(10, prec - 1), e + 1)
    else Dec(c, e)
  }

  lemma FitsMeansFewDigits(prec: nat, c: int)
    ensures !Fits(10, prec, c) ==> Digits(AbsInt(c)) > prec
  {
    if Digits(AbsInt(c)) <= prec {
      PowNatMonotone(Digits(AbsInt(c)), prec);
    }
  }

  lemma {:induction false} PowNatMonotone(j: nat, k: nat)
    requires j <= k
    ensures PowNat(10, j) <= PowNat(10, k)
  {
    PowIsNat(10, j);
    PowIsNat(10, k);
    PowMonotone(10, j, k);
  }

  function MulExact(a: Decimal, b: Decimal): Decimal {
    Dec(a.coef * b.coef, a.exp + b.exp)
  }

  /** The coefficient of d when written with exponent e. */
  function Aligned(d: Decimal, e: int): int
    requires e <= d.exp
  {
    d.coef * PowNat(10, d.exp - e)
  }

  function Min(a: int, b: int): int {
    if a < b then a else b
  }

  function AddExact(a: Decimal, b: Decimal): Decimal {
    var e := Min(a.exp, b.exp);
    Dec(Aligned(a, e) + Aligned(b, e), e)
  }

  function SubExact(a: Decimal, b: Decimal): Decimal {
    AddExact(a, Dec(-b.coef, b.exp))
  }

  function Mul(prec: nat, a: Decimal, b: Decimal): Decimal
    requires prec >= 1
  {
    Fix(prec, MulExact(a, b))
  }

  function Add(prec: nat, a: Decimal, b: Decimal): Decimal
    requires prec >= 1
  {
    Fix(prec, AddExact(a, b))
  }

  function Sub(prec: nat, a: Decimal, b: Decimal): Decimal
    requires prec >= 1
  {
    Fix(prec, SubExact(a, b))
  }

  /** The `//` operator: the integer part of the quotient, refused when it needs more than prec digits. */
  function IntegerDivide(prec: nat, a: Decimal, b: Decimal): Result<Decimal, Error> {
    if b.coef == 0 then Failure(if a.coef == 0 then InvalidOperation else DivisionByZero)
    else
      var e := Min(a.exp, b.exp);
      var n, m := Aligned(a, e), Aligned(b, e);
      assert m != 0 by { NonzeroProduct(b.coef, PowNat(10, b.exp - e)); }
      Checked(prec, Truncated(n, m), 0)
  }

  /** n / m rounded towards zero. */
  function Truncated(n: int, m: int): int
    requires m != 0
  {
    var q := AbsInt(n) / AbsInt(m);
    if (n < 0) == (m < 0) then q else 0 - q
  }

  lemma NonzeroProduct(m: int, n: int)
    requires m != 0 && n != 0
    ensures m * n != 0
  {
  }

  /** The quantize operation: d at exponent -places, refused when it needs more than prec digits. */
  function Quantize(prec: nat, mode: Mode, places: nat, d: Decimal): Result<Decimal, Error> {
    var e := 0 - places;
    var c :=
      if d.exp >= e then Aligned(d, e)
      else RoundQuotient(mode, d.coef, PowNat(10, e - d.exp));
    Checked(prec, c, e)
  }

  // ---------------------------------------------------------------- meaning

  /** The integer algorithm agrees with rounding the real quotient. */
  lemma RoundQuotientIsRound(mode: Mode, n: int, m: nat, x: real)
    requires m > 0 && n as real == Product(m as real, x)
    ensures RoundQuotient(mode, n, m) == Round(mode, x)
  {
    DivideParts(AbsInt(n), m);
    AbsProduct(n, m, x);
    MagnitudesAgree(mode, n < 0, AbsInt(n) / m, AbsInt(n) % m, m, Abs(x));
  }

  lemma MagnitudesAgree(mode: Mode, negative: bool, q: nat, r: nat, m: nat, x: real)
    requires r < m && (m * q + r) as real == Product(m as real, x)
    ensures RoundMagnitude(mode, negative, q, r, m) == Magnitude(mode, negative, x)
  {
    QuotientFloor(q, r, m, x);
  }

  lemma DivideParts(n: nat, m: nat)
    requires m > 0
    ensures n == m * (n / m) + n % m
  {
  }

  lemma AbsProduct(n: int, m: nat, x: real)
    requires m > 0 && n as real == Product(m as real, x)
    ensures AbsInt(n) as real == Product(m as real, Abs(x))
    ensures n < 0 <==> x < 0.0
  {
    SameSign(m as real, x);
  }

  /** The quotient is the floor, and comparing the remainder compares the fraction. */
  lemma QuotientFloor(q: nat, r: nat, m: nat, x: real)
    requires r < m && (m * q + r) as real == Product(m as real, x)
    ensures x.Floor == q
    ensures x - q as real > 0.0 <==> r > 0
    ensures x - q as real > 0.5 <==> 2 * r > m
    ensures x - q as real == 0.5 <==> 2 * r == m
  {
    CastProduct(m, q);
    assert m as real * (x - q as real) == r as real;
    QuotientParts(m as real, x - q as real, r as real);
  }

  lemma CastProduct(m: int, n: int)
    ensures (m * n) as real == Product(m as real, n as real)
  {
  }

  lemma SameSign(m: real, x: real)
    requires m > 0.0
    ensures x < 0.0 <==> m * x < 0.0
    ensures x == 0.0 <==> m * x == 0.0
  {
  }

  lemma QuotientParts(m: real, f: real, r: real)
    requires m > 0.0 && m * f == r && 0.0 <= r < m
    ensures 0.0 <= f < 1.0
    ensures f > 0.0 <==> r > 0.0
    ensures f > 0.5 <==> 2.0 * r > m
    ensures f == 0.5 <==> 2.0 * r == m
  {
    SameSign(m, f - 0.5);
    SameSign(m, f - 1.0);
  }

  lemma AlignedVal(d: Decimal, e: int)
    requires e <= d.exp
    ensures Val(d) == Shift(10, Aligned(d, e) as real, e)
  {
    ShiftInteger(10, d.coef, d.exp - e);
    ShiftAdd(10, d.coef as real, d.exp - e, e);
  }

  lemma MulExactVal(a: Decimal, b: Decimal)
    ensures Val(MulExact(a, b)) == Product(Val(a), Val(b))
  {
    ShiftProduct(10, a.coef as real, a.exp, b.coef as real, b.exp);
    CastProduct(a.coef, b.coef);
  }

  lemma AddExactVal(a: Decimal, b: Decimal)
    ensures Val(AddExact(a, b)) == Val(a) + Val(b)
  {
    var e := Min(a.exp, b.exp);
    AlignedVal(a, e);
    AlignedVal(b, e);
    ShiftLinear(10, Aligned(a, e) as real, Aligned(b, e) as real, e);
  }

  lemma SubExactVal(a: Decimal, b: Decimal)
    ensures Val(SubExact(a, b)) == Val(a) - Val(b)
  {
    AddExactVal(a, Dec(-b.coef, b.exp));
    ShiftLinear(10, b.coef as real, 0.0, b.exp);
  }

  // ---------------------------------------------------------------- the context operations, on values

  /** One rounding to prec significant decimal digits. */
  function Rounded(prec: nat, x: real): real
    requires prec >= 1
  {
    RoundSig(10, prec, x)
  }

  function RoundedProduct(prec: nat, x: real, y: real): real
    requires prec >= 1
  {
    Rounded(prec, Product(x, y))
  }

  function RoundedSum(prec: nat, x: real, y: real): real
    requires prec >= 1
  {
    Rounded(prec, x + y)
  }

  function RoundedDifference(prec: nat, x: real, y: real): real
    requires prec >= 1
  {
    Rounded(prec, x - y)
  }

  lemma FitsVal(prec: nat, d: Decimal)
    requires Fits(10, prec, d.coef)
    ensures Representable(10, prec, Val(d))
  {
    assert Writes(10, prec, Val(d), d.coef, d.exp);
  }

  /** A coefficient of D digits, D > prec, has its last kept digit D - prec places up. */
  lemma CoefficientScale(prec: nat, d: Decimal, k: nat)
    requires prec >= 1 && d.coef != 0 && k + prec == Digits(AbsInt(d.coef))
    ensures IsScale(10, prec, Val(d), d.exp + k)
  {
    var c := d.coef as real;
    ShiftAdd(10, c, d.exp, 0 - (d.exp + k));
    ShiftAbs(10, c, 0 - k);
    PowIsNat(10, prec + k);
    PowIsNat(10, prec + k - 1);
    ShiftPowOrder(prec + k - 1, Abs(c), 0 - k);
    ShiftPowOrder(prec + k, Abs(c), 0 - k);
  }

  lemma ShiftPowOrder(j: int, x: real, k: int)
    ensures Pow(10, j) <= x <==> Pow(10, j + k) <= Shift(10, x, k)
    ensures x < Pow(10, j) <==> Shift(10, x, k) < Pow(10, j + k)
  {
    ShiftOrder(10, Pow(10, j), x, k);
    ShiftOrder(10, x, Pow(10, j), k);
    ShiftAdd(10, 1.0, j, k);
  }

  lemma CarryVal(prec: nat, c: int, e: int)
    requires prec >= 1
    ensures Val(Carry(prec, c, e)) == Shift(10, c as real, e)
  {
    var t := PowNat(10, prec - 1) as real;
    ShiftStep(10, t, e);
    ShiftStep(10, -t, e);
  }

  /** The digit-by-digit algorithm is rounding to prec significant digits, and its coefficient fits. */
  lemma FixRounds(prec: nat, d: Decimal)
    requires prec >= 1
    ensures Val(Fix(prec, d)) == Rounded(prec, Val(d))
    ensures Fits(10, prec, Fix(prec, d).coef)
  {
    var x := Val(d);
    if Fits(10, prec, d.coef) {
      FitsVal(prec, d);
      RoundSigFixes(10, prec, x);
    } else {
      FitsMeansFewDigits(prec, d.coef);
      var k := Digits(AbsInt(d.coef)) - prec;
      var e := d.exp + k;
      CoefficientScale(prec, d, k);
      NonzeroVal(d);
      ScaleUnique(10, prec, x, Scale(10, prec, x), e);
      KeptCoefficient(d, k);
      var c := RoundQuotient(HalfEven, d.coef, PowNat(10, k));
      CarryVal(prec, c, e);
      PowIsNat(10, prec);
      RoundBetween(HalfEven, 0 - PowNat(10, prec), Shift(10, x, -e), PowNat(10, prec));
      CarryFits(prec, c, e);
    }
  }

  /** Dropping k digits of the coefficient is rounding the value in units of 10^(exp + k). */
  lemma {:induction false} KeptCoefficient(d: Decimal, k: nat)
    ensures RoundQuotient(HalfEven, d.coef, PowNat(10, k)) == Round(HalfEven, Shift(10, Val(d), -(d.exp + k)))
  {
    var s := Shift(10, Val(d), -(d.exp + k));
    ShiftAdd(10, d.coef as real, d.exp, -(d.exp + k));
    DroppedDigits(HalfEven, d.coef, k, s);
  }

  /** n / 10^k rounded by its remainder is s = n * 10^-k rounded. */
  lemma DroppedDigits(mode: Mode, n: int, k: nat, s: real)
    requires s == Shift(10, n as real, 0 - k)
    ensures RoundQuotient(mode, n, PowNat(10, k)) == Round(mode, s)
  {
    ShiftAdd(10, n as real, 0 - k, k);
    ShiftTimesNat(s, k);
    RoundQuotientIsRound(mode, n, PowNat(10, k), s);
  }

  lemma NonzeroVal(d: Decimal)
    ensures Val(d) == 0.0 <==> d.coef == 0
    ensures Val(d) < 0.0 <==> d.coef < 0
  {
    ShiftLinear(10, 0.0, 0.0, d.exp);
    ShiftOrder(10, 0.0, d.coef as real, d.exp);
    ShiftOrder(10, d.coef as real, 0.0, d.exp);
  }

  lemma ShiftTimesNat(x: real, k: nat)
    ensures Shift(10, x, k) == Product(PowNat(10, k) as real, x)
  {
    ShiftScale(10, x, 1.0, k);
    PowIsNat(10, k);
  }

  lemma CarryFits(prec: nat, c: int, e: int)
    requires prec >= 1 && 0 - PowNat(10, prec) <= c <= PowNat(10, prec)
    ensures Fits(10, prec, Carry(prec, c, e).coef)
  {
  }

  lemma MulRounds(prec: nat, a: Decimal, b: Decimal)
    requires prec >= 1
    ensures Val(Mul(prec, a, b)) == RoundedProduct(prec, Val(a), Val(b))
    ensures Representable(10, prec, Val(Mul(prec, a, b)))
  {
    MulExactVal(a, b);
    FixRounds(prec, MulExact(a, b));
    FitsVal(prec, Mul(prec, a, b));
    assert Product(Val(a), Val(b)) == Val(a) * Val(b);
  }

  lemma AddRounds(prec: nat, a: Decimal, b: Decimal)
    requires prec >= 1
    ensures Val(Add(prec, a, b)) == RoundedSum(prec, Val(a), Val(b))
    ensures Representable(10, prec, Val(Add(prec, a, b)))
  {
    AddExactVal(a, b);
    FixRounds(prec, AddExact(a, b));
    FitsVal(prec, Add(prec, a, b));
  }

  lemma SubRounds(prec: nat, a: Decimal, b: Decimal)
    requires prec >= 1
    ensures Val(Sub(prec, a, b)) == RoundedDifference(prec, Val(a), Val(b))
    ensures Representable(10, prec, Val(Sub(prec, a, b)))
  {
    SubExactVal(a, b);
    FixRounds(prec, SubExact(a, b));
    FitsVal(prec, Sub(prec, a, b));
  }

  /** A coefficient is accepted only when it has at most prec digits. */
  function Checked(prec: nat, c: int, e: int): Result<Decimal, Error> {
    if Fits(10, prec, c) then Success(Dec(c, e)) else Failure(InvalidOperation)
  }

  /** x in units of 10^-places, rounded to an integer number of them. */
  function Units(mode: Mode, places: nat, x: real): int {
    Round(mode, Shift(10, x, places))
  }

  /** Quantising rounds the value to a whole number of units, and is refused only when that number is too long. */
  lemma QuantizeRounds(prec: nat, mode: Mode, places: nat, d: Decimal)
    ensures Quantize(prec, mode, places, d)
         == Checked(prec, Units(mode, places, Val(d)), 0 - places)
  {
    var e := 0 - places;
    var s := Shift(10, Val(d), places);
    if d.exp >= e {
      AlignedVal(d, e);
      ShiftAdd(10, Aligned(d, e) as real, e, places);
      RoundInteger(mode, Aligned(d, e));
    } else {
      var k := e - d.exp;
      ShiftAdd(10, d.coef as real, d.exp, places);
      DroppedDigits(mode, d.coef, k, s);
    }
  }

  /** For a non-negative dividend and a positive divisor `//` is the floor of the quotient. */
  lemma IntegerDivideFloors(prec: nat, a: Decimal, b: Decimal)
    requires Val(a) >= 0.0 && Val(b) > 0.0
    ensures (Val(a) / Val(b)).Floor >= 0
    ensures IntegerDivide(prec, a, b) == Checked(prec, (Val(a) / Val(b)).Floor, 0)
  {
    NonzeroVal(a);
    NonzeroVal(b);
    var e := Min(a.exp, b.exp);
    var n, m := Aligned(a, e), Aligned(b, e);
    PositiveProduct(b.coef, PowNat(10, b.exp - e));
    PositiveProduct(a.coef, PowNat(10, a.exp - e));
    AlignedVal(a, e);
    AlignedVal(b, e);
    RatioOfShifts(n as real, m as real, e);
    FloorOfRatio(n, m);
  }

  function Negated(d: Decimal): Decimal {
    Dec(0 - d.coef, d.exp)
  }

  /** Truncation: the sign of either operand only changes the sign of the quotient. */
  lemma IntegerDivideTruncates(prec: nat, a: Decimal, b: Decimal)
    requires b.coef != 0
    ensures var q := IntegerDivide(prec, a, b);
      var expected := if q.Success? then Success(Negated(q.value)) else q;
      IntegerDivide(prec, Negated(a), b) == expected && IntegerDivide(prec, a, Negated(b)) == expected
  {
    hide PowNat, Truncated, Aligned;
    var e := Min(a.exp, b.exp);
    NegatedAligned(a, e);
    NegatedAligned(b, e);
    AlignedNonzero(b, e);
    TruncatedSigns(Aligned(a, e), Aligned(b, e));
  }

  lemma AlignedNonzero(d: Decimal, e: int)
    requires e <= d.exp && d.coef != 0
    ensures Aligned(d, e) != 0
  {
    hide PowNat;
    NonzeroProduct(d.coef, PowNat(10, d.exp - e));
  }

  lemma TruncatedSigns(n: int, m: int)
    requires m != 0
    ensures Truncated(0 - n, m) == 0 - Truncated(n, m) == Truncated(n, 0 - m)
  {
    if n == 0 {
      ZeroOver(AbsInt(m));
    }
  }

  lemma ZeroOver(m: nat)
    requires m > 0
    ensures 0 / m == 0
  {
  }

  lemma NegatedAligned(d: Decimal, e: int)
    requires e <= d.exp
    ensures Aligned(Negated(d), e) == 0 - Aligned(d, e)
  {
    hide PowNat;
    var p := PowNat(10, d.exp - e);
    assert (0 - d.coef) * p == 0 - d.coef * p;
  }

  /** There is no quotient by zero: of zero it is invalid, of anything else a division by zero. */
  lemma IntegerDivideByZero(prec: nat, a: Decimal, b: Decimal)
    requires Val(b) == 0.0
    ensures IntegerDivide(prec, a, b) == Failure(if Val(a) == 0.0 then InvalidOperation else DivisionByZero)
  {
    NonzeroVal(a);
    NonzeroVal(b);
  }

  lemma PositiveProduct(m: int, n: int)
    requires n > 0
    ensures m > 0 ==> m * n > 0
    ensures m >= 0 ==> m * n >= 0
    ensures m < 0 ==> m * n < 0
  {
  }

  lemma {:induction false} RatioOfShifts(n: real, m: real, e: int)
    requires m > 0.0
    ensures Shift(10, m, e) > 0.0
    ensures Shift(10, n, e) / Shift(10, m, e) == n / m
  {
    ShiftPositive(m, e);
    Ratio(n, m);
    ShiftScale(10, n / m, m, e);
    RatioUnique(n / m, Shift(10, m, e), Shift(10, n, e));
  }

  lemma ShiftPositive(m: real, e: int)
    requires m > 0.0
    ensures Shift(10, m, e) > 0.0
  {
    ShiftLinear(10, 0.0, 0.0, e);
    ShiftOrder(10, 0.0, m, e);
  }

  lemma Ratio(n: real, m: real)
    requires m > 0.0
    ensures Product(n / m, m) == n
  {
  }

  lemma RatioUnique(x: real, y: real, z: real)
    requires y > 0.0 && Product(x, y) == z
    ensures z / y == x
  {
  }

  lemma FloorOfRatio(n: nat, m: nat)
    requires m > 0
    ensures (n as real / m as real).Floor == n / m
  {
    var x := n as real / m as real;
    DivideParts(n, m);
    Ratio(n as real, m as real);
    QuotientFloor(n / m, n % m, m, x);
  }
}
