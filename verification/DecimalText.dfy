/** The text of a decimal, by the to-scientific-string rules, and the number a text stands for. */
module DecimalText {
  import opened Wrappers
  import opened Decimals
  import opened Digits

  function ExponentText(e: int): string {
    [if e < 0 then '-' else '+'] + NatText(AbsInt(e))
  }

  /** Plain notation when the point falls in or near the digits, scientific notation otherwise. */
  function Unsigned(digits: string, exp: int): string
    requires digits != ""
  {
    var left := exp + |digits|;
    if exp <= 0 && left > -6 then
      if left <= 0 then "0" + ['.'] + (Zeros(-left) + digits)
      else if exp == 0 then digits
      else digits[..left] + ['.'] + digits[left..]
    else
      (if |digits| == 1 then digits else [digits[0]] + ['.'] + digits[1..]) + ['E'] + ExponentText(left - 1)
  }

  /** The text of coef * 10^exp. */
  function Str(d: Decimal): string {
    (if d.coef < 0 then "-" else "") + Unsigned(NatText(AbsInt(d.coef)), d.exp)
  }

  function ReadExponent(s: string): Option<int> {
    if |s| < 2 || s[0] !in {'+', '-'} || Number(10, s[1..]).None? then None
    else Some(if s[0] == '-' then 0 - Number(10, s[1..]).value else Number(10, s[1..]).value)
  }

  /** Digits with at most one point among them. */
  function ReadPlain(s: string, exponent: int): Option<(nat, int)> {
    var (whole, fraction) := match Split('.', s) case None => (s, "") case Some(parts) => parts;
    if whole + fraction == "" || Number(10, whole + fraction).None? then None
    else Some((Number(10, whole + fraction).value, exponent - |fraction|))
  }

  function ReadUnsigned(s: string): Option<(nat, int)> {
    match Split('E', s)
    case None => ReadPlain(s, 0)
    case Some((plain, e)) =>
      var exponent := ReadExponent(e);
      if exponent.None? then None else ReadPlain(plain, exponent.value)
  }

  /** The decimal a text stands for. */
  function ReadDecimal(s: string): Option<Decimal> {
    var negative := s != "" && s[0] == '-';
    match ReadUnsigned(if negative then s[1..] else s)
    case None => None
    case Some((coef, exp)) => Some(Dec(if negative then 0 - coef else coef, exp))
  }

  lemma ExponentRoundTrip(e: int)
    ensures ReadExponent(ExponentText(e)) == Some(e)
  {
    hide NatText, Number;
    NatTextRoundTrip(AbsInt(e));
    assert ExponentText(e)[1..] == NatText(AbsInt(e));
  }

  /** A number written with a point, read back with the digits after it taken off the exponent. */
  lemma {:induction false} PointRoundTrip(whole: string, fraction: string, exponent: int)
    requires IsDecimalDigits(whole) && whole != "" && Number(10, whole + fraction).Some?
    ensures ReadPlain(whole + ['.'] + fraction, exponent)
      == Some((Number(10, whole + fraction).value, exponent - |fraction|))
  {
    hide Number, Split;
    assert '.' !in whole;
    SplitAtMark('.', whole, fraction);
    assert whole + fraction != "";
  }

  lemma WholeRoundTrip(whole: string, exponent: int)
    requires IsDecimalDigits(whole) && whole != "" && Number(10, whole).Some?
    ensures ReadPlain(whole, exponent) == Some((Number(10, whole).value, exponent))
  {
    hide Number, Split;
    assert '.' !in whole;
    SplitNowhere('.', whole);
    assert whole + "" == whole;
  }

  ghost predicate IsNumeral(digits: string, n: nat) {
    digits != "" && IsDecimalDigits(digits) && Number(10, digits) == Some(n)
  }

  lemma PartsAreDigits(digits: string, i: nat)
    requires IsDecimalDigits(digits) && i <= |digits|
    ensures IsDecimalDigits(digits[..i]) && IsDecimalDigits(digits[i..])
  {
    forall c | c in digits[..i] || c in digits[i..] ensures c in digits {
    }
  }

  lemma PlainRoundTrip(digits: string, n: nat, exp: int)
    requires IsNumeral(digits, n) && exp <= 0 && exp + |digits| > -6
    ensures ReadUnsigned(Unsigned(digits, exp)) == Some((n, exp))
  {
    hide Number, Split, ReadPlain, Zeros;
    var left := exp + |digits|;
    if left <= 0 {
      ZerosAreZero(-left);
      SplitNowhere('E', Unsigned(digits, exp));
      PointBeforeDigits(digits, n, -left);
    } else if exp == 0 {
      SplitNowhere('E', digits);
      WholeRoundTrip(digits, 0);
    } else {
      PartsAreDigits(digits, left);
      SplitNowhere('E', Unsigned(digits, exp));
      assert digits[..left] + digits[left..] == digits;
      PointRoundTrip(digits[..left], digits[left..], 0);
    }
  }

  lemma PointBeforeDigits(digits: string, n: nat, zeros: nat)
    requires IsNumeral(digits, n)
    ensures ReadPlain("0" + ['.'] + (Zeros(zeros) + digits), 0) == Some((n, 0 - zeros - |digits|))
  {
    hide Number, ReadPlain, Zeros;
    LeadingZeros(zeros, digits);
    OneZero(Zeros(zeros) + digits);
    PointRoundTrip("0", Zeros(zeros) + digits, 0);
  }

  lemma OneZero(s: string)
    ensures Number(10, "0" + s) == Number(10, s)
  {
    hide Number;
    LeadingZeros(1, s);
    assert Zeros(1) == Zeros(0) + ['0'] == "0";
  }

  lemma ScientificRoundTrip(digits: string, n: nat, exp: int)
    requires IsNumeral(digits, n) && (exp > 0 || exp + |digits| <= -6)
    ensures ReadUnsigned(Unsigned(digits, exp)) == Some((n, exp))
  {
    hide Number, Split, ReadPlain, ExponentText, ReadExponent;
    var e := exp + |digits| - 1;
    var plain := if |digits| == 1 then digits else [digits[0]] + ['.'] + digits[1..];
    PartsAreDigits(digits, 1);
    assert digits[..1] == [digits[0]];
    assert 'E' !in plain;
    SplitAtMark('E', plain, ExponentText(e));
    ExponentRoundTrip(e);
    if |digits| == 1 {
      WholeRoundTrip(digits, e);
    } else {
      assert [digits[0]] + digits[1..] == digits;
      PointRoundTrip([digits[0]], digits[1..], e);
    }
  }

  lemma UnsignedIsUnsigned(digits: string, exp: int)
    requires digits != "" && IsDecimalDigits(digits)
    ensures Unsigned(digits, exp) != "" && Unsigned(digits, exp)[0] != '-'
  {
    hide Zeros, ExponentText;
    assert digits[0] in digits;
  }

  /** The text of a decimal determines it, coefficient and exponent: nothing is lost in the payload. */
  lemma DecimalRoundTrip(d: Decimal)
    ensures ReadDecimal(Str(d)) == Some(d)
  {
    hide NatText, Number, Unsigned, ReadUnsigned;
    var n := AbsInt(d.coef);
    var digits := NatText(n);
    NatTextRoundTrip(n);
    NatTextIsDigits(n);
    if d.exp <= 0 && d.exp + |digits| > -6 {
      PlainRoundTrip(digits, n, d.exp);
    } else {
      ScientificRoundTrip(digits, n, d.exp);
    }
    UnsignedIsUnsigned(digits, d.exp);
    if d.coef < 0 {
      assert Str(d)[1..] == Unsigned(digits, d.exp);
    } else {
      assert Str(d) == Unsigned(digits, d.exp);
    }
  }

  /** Scientific notation is used exactly for positive exponents and for numbers below 10^-6 in their leading digit. */
  lemma NotationMeaning(d: Decimal)
    ensures 'E' in Str(d) <==> d.exp > 0 || d.exp + |NatText(AbsInt(d.coef))| - 1 < -6
    ensures d.exp <= 0 && 'E' !in Str(d) ==>
      |Str(d)| >= 0 - d.exp && (d.exp < 0 ==> |Str(d)| > 0 - d.exp && Str(d)[|Str(d)| + d.exp - 1] == '.')
  {
    hide NatText, Zeros;
    var digits := NatText(AbsInt(d.coef));
    NatTextIsDigits(AbsInt(d.coef));
    var left := d.exp + |digits|;
    if d.exp <= 0 && left > -6 {
      PlainHasNoE(digits, d.exp);
    } else {
      assert 'E' in Unsigned(digits, d.exp);
    }
  }

  lemma PlainHasNoE(digits: string, exp: int)
    requires digits != "" && IsDecimalDigits(digits) && exp <= 0 && exp + |digits| > -6
    ensures 'E' !in Unsigned(digits, exp)
    ensures |Unsigned(digits, exp)| >= 0 - exp
    ensures var s := Unsigned(digits, exp); exp < 0 ==> |s| > 0 - exp && s[|s| + exp - 1] == '.'
  {
    hide Zeros;
    var left := exp + |digits|;
    if left <= 0 {
      ZerosAreZero(-left);
    } else {
      PartsAreDigits(digits, left);
    }
  }
}
