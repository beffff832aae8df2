/**
 Scaling by powers of a radix. The two radices in use are 10, for decimals, and 2, for binary floating point.
 Everything is said with Shift(b, x, k) = x * b^k, whose laws are linear and proved by induction on k.
 */
module Powers {

  type Radix = b: nat | b == 2 || b == 10 witness 10

  /** b * x, written so that the verifier sees a multiplication by a constant. */
  function Times(b: Radix, x: real): (r: real)
    ensures r == b as real * x
  {
    if b == 2 then 2.0 * x else 10.0 * x
  }

  function Over(b: Radix, x: real): (r: real)
    ensures Times(b, r) == x
  {
    if b == 2 then 0.5 * x else 0.1 * x
  }

  /** x * b^k for any integer k. */
  function Shift(b: Radix, x: real, k: int): real
    decreases if k < 0 then -k else k
  {
    if k == 0 then x
    else if k > 0 then Shift(b, Times(b, x), k - 1)
    else Shift(b, Over(b, x), k + 1)
  }

  /** b^k for any integer k. */
  function Pow(b: Radix, k: int): real {
    Shift(b, 1.0, k)
  }

  /** b^k for a natural k, as a natural number. */
  function PowNat(b: Radix, k: nat): (r: nat)
    ensures r >= 1
  {
    if k == 0 then 1 else if b == 2 then 2 * PowNat(b, k - 1) else 10 * PowNat(b, k - 1)
  }

  lemma {:induction false} ShiftStep(b: Radix, x: real, k: int)
    ensures Shift(b, x, k + 1) == Shift(b, Times(b, x), k) == Times(b, Shift(b, x, k))
    decreases if k < 0 then -k else k
  {
    if k > 0 {
      ShiftStep(b, Times(b, x), k - 1);
    } else if k < 0 {
      assert Times(b, Over(b, x)) == x == Over(b, Times(b, x));
      if k < -1 {
        ShiftStep(b, Over(b, x), k + 1);
      }
    }
  }

  lemma {:induction false} ShiftAdd(b: Radix, x: real, j: int, k: int)
    ensures Shift(b, Shift(b, x, j), k) == Shift(b, x, j + k)
    decreases if k < 0 then -k else k
  {
    if k > 0 {
      ShiftAdd(b, x, j, k - 1);
      ShiftStep(b, Shift(b, x, j), k - 1);
      ShiftStep(b, x, j + k - 1);
    } else if k < 0 {
      ShiftAdd(b, x, j, k + 1);
      ShiftStep(b, Shift(b, x, j), k);
      ShiftStep(b, x, j + k);
    }
  }

  /** Shifting there and back changes nothing. */
  lemma ShiftBack(b: Radix, x: real, k: int)
    ensures Shift(b, Shift(b, x, k), -k) == x
  {
    ShiftAdd(b, x, k, -k);
  }

  lemma {:induction false} ShiftOrder(b: Radix, x: real, y: real, k: int)
    ensures x <= y <==> Shift(b, x, k) <= Shift(b, y, k)
    ensures x < y <==> Shift(b, x, k) < Shift(b, y, k)
    decreases if k < 0 then -k else k
  {
    if k > 0 {
      ShiftOrder(b, Times(b, x), Times(b, y), k - 1);
    } else if k < 0 {
      ShiftOrder(b, Over(b, x), Over(b, y), k + 1);
    }
  }

  lemma {:induction false} ShiftLinear(b: Radix, x: real, y: real, k: int)
    ensures Shift(b, 0.0, k) == 0.0
    ensures Shift(b, -x, k) == -Shift(b, x, k)
    ensures Shift(b, x + y, k) == Shift(b, x, k) + Shift(b, y, k)
    ensures Shift(b, x - y, k) == Shift(b, x, k) - Shift(b, y, k)
    decreases if k < 0 then -k else k
  {
    if k > 0 {
      ShiftLinear(b, Times(b, x), Times(b, y), k - 1);
      assert Times(b, x + y) == Times(b, x) + Times(b, y) && Times(b, x - y) == Times(b, x) - Times(b, y);
      assert Times(b, -x) == -Times(b, x) && Times(b, 0.0) == 0.0;
    } else if k < 0 {
      ShiftLinear(b, Over(b, x), Over(b, y), k + 1);
      assert Over(b, x + y) == Over(b, x) + Over(b, y) && Over(b, x - y) == Over(b, x) - Over(b, y);
      assert Over(b, -x) == -Over(b, x) && Over(b, 0.0) == 0.0;
    }
  }

  /** x * y under a name, so that equals can be substituted for equals inside it. */
  function Product(x: real, y: real): real {
    x * y
  }

  lemma ProductRadix(b: Radix, x: real, y: real)
    ensures Product(x, Times(b, y)) == Times(b, Product(x, y))
    ensures Product(x, Over(b, y)) == Over(b, Product(x, y))
  {
    var h := Over(b, y);
    assert b == 2 ==> y == 2.0 * h && x * y == 2.0 * (x * h);
    assert b == 10 ==> y == 10.0 * h && x * y == 10.0 * (x * h);
  }

  lemma {:induction false} ShiftScale(b: Radix, x: real, y: real, k: int)
    ensures Product(x, Shift(b, y, k)) == Shift(b, Product(x, y), k)
    decreases if k < 0 then -k else k
  {
    ProductRadix(b, x, y);
    if k > 0 {
      ShiftScale(b, x, Times(b, y), k - 1);
    } else if k < 0 {
      ShiftScale(b, x, Over(b, y), k + 1);
    }
  }

  /** (x * b^j) * (y * b^k) == (x * y) * b^(j + k). */
  lemma ShiftProduct(b: Radix, x: real, j: int, y: real, k: int)
    ensures Product(Shift(b, x, j), Shift(b, y, k)) == Shift(b, Product(x, y), j + k)
  {
    ShiftScale(b, Shift(b, x, j), y, k);
    assert Product(Shift(b, x, j), y) == Product(y, Shift(b, x, j));
    ShiftScale(b, y, x, j);
    assert Product(y, x) == Product(x, y);
    ShiftAdd(b, Product(x, y), j, k);
  }

  /** Shifting an integer up gives an integer. */
  lemma {:induction false} ShiftInteger(b: Radix, n: int, k: nat)
    ensures Shift(b, n as real, k) == (n * PowNat(b, k)) as real
  {
    if k > 0 {
      ShiftInteger(b, n, k - 1);
      ShiftStep(b, n as real, k - 1);
      RadixOut(n, PowNat(b, k - 1));
    }
  }

  lemma RadixOut(n: int, m: nat)
    ensures n * (2 * m) == 2 * (n * m) && n * (10 * m) == 10 * (n * m)
  {
  }

  lemma {:induction false} PowPositive(b: Radix, k: int)
    ensures Pow(b, k) > 0.0
  {
    ShiftOrder(b, 0.0, 1.0, k);
    ShiftLinear(b, 0.0, 0.0, k);
  }

  lemma PowIsNat(b: Radix, k: nat)
    ensures Pow(b, k) == PowNat(b, k) as real
  {
    ShiftInteger(b, 1, k);
  }

  lemma {:induction false} PowMonotone(b: Radix, j: int, k: int)
    requires j <= k
    ensures Pow(b, j) <= Pow(b, k)
    decreases k - j
  {
    if j < k {
      PowMonotone(b, j, k - 1);
      ShiftStep(b, 1.0, k - 1);
      PowPositive(b, k - 1);
    }
  }

  /** b^j < b^k exactly when j < k. */
  lemma PowOrder(b: Radix, j: int, k: int)
    ensures Pow(b, j) < Pow(b, k) <==> j < k
  {
    if j < k {
      ShiftStep(b, 1.0, j);
      PowPositive(b, j);
      PowMonotone(b, j + 1, k);
    } else {
      PowMonotone(b, k, j);
    }
  }
}
