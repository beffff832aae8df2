/** Numbers written in digits, and splitting a text at a mark. */
module Digits {
  import opened Wrappers

  type NumberBase = b: nat | b == 10 || b == 16 witness 10

  function DigitChar(d: nat): char
    requires d < 16
  {
    if d < 10 then '0' + d as char else 'a' + (d - 10) as char
  }

  function DigitValue(b: NumberBase, c: char): Option<nat> {
    if '0' <= c <= '9' then Some((c - '0') as nat)
    else if b == 16 && 'a' <= c <= 'f' then Some((c - 'a') as nat + 10)
    else if b == 16 && 'A' <= c <= 'F' then Some((c - 'A') as nat + 10)
    else None
  }

  /** Hexadecimal digits are read in either case, and written in lower case. */
  lemma DigitValueMeaning(b: NumberBase, c: char, d: nat)
    requires d < 16
    ensures DigitValue(b, c) == Some(d) <==>
      d < b && (c == DigitChar(d) || (d >= 10 && c == 'A' + (d - 10) as char))
  {
  }

  /** n in exactly k digits, with leading zeros. */
  function Pad(b: NumberBase, n: nat, k: nat): (s: string)
    ensures |s| == k
  {
    if k == 0 then "" else Pad(b, n / b, k - 1) + [DigitChar(n % b)]
  }

  /** b^k, so that k digits write the numbers below it. */
  function Bound(b: NumberBase, k: nat): (r: nat)
    ensures r >= 1
  {
    if k == 0 then 1 else if b == 10 then 10 * Bound(b, k - 1) else 16 * Bound(b, k - 1)
  }

  /** The number written by a text of digits only. */
  function Number(b: NumberBase, s: string): Option<nat> {
    if s == "" then Some(0)
    else
      var high := Number(b, s[..|s| - 1]);
      var low := DigitValue(b, s[|s| - 1]);
      if high.Some? && low.Some? then Some(high.value * b + low.value) else None
  }

  lemma DigitRoundTrip(b: NumberBase, d: nat)
    requires d < b
    ensures DigitValue(b, DigitChar(d)) == Some(d)
  {
  }

  lemma HighDigits(b: NumberBase, n: nat, k: nat)
    requires k > 0 && n < Bound(b, k)
    ensures n / b < Bound(b, k - 1) && n / b * b + n % b == n
  {
  }

  /** One more digit at the end. */
  lemma NumberAppend(b: NumberBase, s: string, c: char)
    requires Number(b, s).Some? && DigitValue(b, c).Some?
    ensures Number(b, s + [c]) == Some(Number(b, s).value * b + DigitValue(b, c).value)
  {
    hide DigitValue;
    var t := s + [c];
    assert t[..|t| - 1] == s && t[|t| - 1] == c;
  }

  lemma {:induction false} NumberRoundTrip(b: NumberBase, n: nat, k: nat)
    requires n < Bound(b, k)
    ensures Number(b, Pad(b, n, k)) == Some(n)
  {
    hide Bound, DigitChar, DigitValue, Number;
    if k == 0 {
      NoDigits(b);
    } else {
      hide Pad;
      HighDigits(b, n, k);
      NumberRoundTrip(b, n / b, k - 1);
      DigitRoundTrip(b, n % b);
      NumberAppend(b, Pad(b, n / b, k - 1), DigitChar(n % b));
      LastDigitPadded(b, n, k);
    }
  }

  lemma LastDigitPadded(b: NumberBase, n: nat, k: nat)
    requires k > 0
    ensures Pad(b, n, k) == Pad(b, n / b, k - 1) + [DigitChar(n % b)]
  {
  }

  lemma NoDigits(b: NumberBase)
    ensures Bound(b, 0) == 1 && Number(b, "") == Some(0)
  {
  }

  /** Only digits are written. */
  lemma {:induction false} PadIsDigits(b: NumberBase, n: nat, k: nat)
    ensures forall c | c in Pad(b, n, k) :: '0' <= c <= '9' || 'a' <= c <= 'f'
  {
    if k > 0 {
      PadIsDigits(b, n / b, k - 1);
    }
  }

  lemma {:induction false} NumberBelow(b: NumberBase, s: string)
    requires Number(b, s).Some?
    ensures Number(b, s).value < Bound(b, |s|)
  {
    hide Bound, DigitValue;
    if s == "" {
      NoDigits(b);
    } else {
      NumberBelow(b, s[..|s| - 1]);
      DigitBelow(b, s[|s| - 1]);
      BoundMore(b, |s| - 1, Number(b, s[..|s| - 1]).value, DigitValue(b, s[|s| - 1]).value);
    }
  }

  lemma DigitBelow(b: NumberBase, c: char)
    requires DigitValue(b, c).Some?
    ensures DigitValue(b, c).value < b
  {
  }

  lemma BoundMore(b: NumberBase, k: nat, n: nat, d: nat)
    requires n < Bound(b, k) && d < b
    ensures n * b + d < Bound(b, k + 1)
  {
  }

  lemma {:induction false} BoundSplit(j: nat, k: nat)
    ensures Bound(16, j + k) == Bound(16, j) * Bound(16, k)
  {
    if k > 0 {
      BoundSplit(j, k - 1);
      assert Bound(16, j) * (16 * Bound(16, k - 1)) == 16 * (Bound(16, j) * Bound(16, k - 1));
    }
  }

  /** The digits of n, most significant first; "0" for zero. */
  function NatText(n: nat): (s: string)
    ensures |s| >= 1
  {
    if n < 10 then [DigitChar(n)] else NatText(n / 10) + [DigitChar(n % 10)]
  }

  lemma {:induction false} NatTextRoundTrip(n: nat)
    ensures Number(10, NatText(n)) == Some(n)
  {
    var s := NatText(n);
    if n < 10 {
      assert s[..0] == "" && Number(10, "") == Some(0);
    } else {
      NatTextRoundTrip(n / 10);
      assert s[..|s| - 1] == NatText(n / 10);
    }
  }

  predicate IsDecimalDigits(s: string) {
    forall c | c in s :: '0' <= c <= '9'
  }

  lemma {:induction false} NatTextIsDigits(n: nat)
    ensures IsDecimalDigits(NatText(n))
  {
    if n >= 10 {
      NatTextIsDigits(n / 10);
    }
  }

  function Zeros(k: nat): (s: string)
    ensures |s| == k
  {
    if k == 0 then "" else Zeros(k - 1) + ['0']
  }

  lemma {:induction false} ZerosAreZero(k: nat)
    ensures Number(10, Zeros(k)) == Some(0) && IsDecimalDigits(Zeros(k))
  {
    if k > 0 {
      ZerosAreZero(k - 1);
      assert Zeros(k)[..k - 1] == Zeros(k - 1);
    }
  }

  /** Leading zeros do not matter. */
  lemma {:induction false} LeadingZeros(k: nat, s: string)
    ensures Number(10, Zeros(k) + s) == Number(10, s)
  {
    if s == "" {
      ZerosAreZero(k);
      assert Zeros(k) + "" == Zeros(k);
    } else {
      LeadingZeros(k, s[..|s| - 1]);
      var t := Zeros(k) + s;
      assert t[..|t| - 1] == Zeros(k) + s[..|s| - 1];
    }
  }

  /** Split at the first occurrence of a mark. */
  function Split(mark: char, s: string): Option<(string, string)> {
    if s == "" then None
    else if s[0] == mark then Some(("", s[1..]))
    else
      match Split(mark, s[1..])
      case None => None
      case Some((a, b)) => Some(([s[0]] + a, b))
  }

  lemma {:induction false} SplitAtMark(mark: char, a: string, b: string)
    requires mark !in a
    ensures Split(mark, a + [mark] + b) == Some((a, b))
  {
    if a == "" {
      assert ("" + [mark] + b)[1..] == b;
    } else {
      SplitAtMark(mark, a[1..], b);
      assert (a + [mark] + b)[1..] == a[1..] + [mark] + b;
      assert a == [a[0]] + a[1..];
    }
  }

  lemma {:induction false} SplitMeaning(mark: char, s: string)
    requires Split(mark, s).Some?
    ensures var (a, b) := Split(mark, s).value; s == a + [mark] + b && mark !in a
  {
    if s[0] != mark {
      SplitMeaning(mark, s[1..]);
      assert s == [s[0]] + s[1..];
    } else {
      assert s == "" + [mark] + s[1..];
    }
  }

  lemma {:induction false} SplitNowhere(mark: char, s: string)
    requires mark !in s
    ensures Split(mark, s).None?
  {
    if s != "" {
      SplitNowhere(mark, s[1..]);
    }
  }
}
