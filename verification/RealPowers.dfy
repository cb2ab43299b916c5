/** Integer powers of a real base and the integer part of a logarithm, in exact arithmetic. */
module RealPowers {

  function Power(base: real, n: nat): real {
    if n == 0 then 1.0 else base * Power(base, n - 1)
  }

  /** A power with any integer exponent. */
  function PowerInt(base: real, k: int): real
    requires base > 0.0
  {
    if k >= 0 then Power(base, k) else Power(1.0 / base, -k)
  }

  lemma Products(a: real, b: real)
    requires a >= 0.0 && b >= 0.0
    ensures a * b >= 0.0 && (a > 0.0 && b > 0.0 ==> a * b > 0.0)
  {
  }

  /** A positive factor can be cancelled. */
  lemma Cancel(c: real, a: real, b: real)
    requires c > 0.0
    ensures a <= b <==> c * a <= c * b
    ensures a < b <==> c * a < c * b
  {
    if a < b {
      Products(c, b - a);
      assert c * (b - a) == c * b - c * a;
    } else if b < a {
      Products(c, a - b);
      assert c * (a - b) == c * a - c * b;
    }
  }

  lemma Quotient(c: real, y: real, q: real)
    requires c > 0.0 && q == y / c
    ensures c * q == y && (y > 0.0 ==> q > 0.0)
  {
  }

  lemma QuotientBetween(c: real, y: real, q: real, p: real, cp: real)
    requires c > 0.0 && q == y / c && c <= y < cp && cp == c * p
    ensures c * q == y && 1.0 <= q < p
  {
    Quotient(c, y, q);
    Cancel(c, 1.0, q);
    Cancel(c, q, p);
  }

  lemma {:induction false} PowerNonNegative(base: real, n: nat)
    requires base >= 0.0
    ensures Power(base, n) >= 0.0
  {
    if n == 0 {
    } else {
      PowerNonNegative(base, n - 1);
    }
  }

  lemma {:induction false} PowerPositive(base: real, n: nat)
    requires base > 0.0
    ensures Power(base, n) > 0.0
  {
    if n == 0 {
    } else {
      PowerPositive(base, n - 1);
      Products(base, Power(base, n - 1));
    }
  }

  lemma {:induction false} PowerGrows(base: real, m: nat, n: nat)
    requires base >= 1.0 && m <= n
    ensures 1.0 <= Power(base, m) <= Power(base, n)
    decreases n
  {
    if m == n {
      if n > 0 {
        PowerGrows(base, n - 1, n - 1);
      }
    } else {
      PowerGrows(base, m, n - 1);
      Products(base - 1.0, Power(base, n - 1));
      assert (base - 1.0) * Power(base, n - 1) == Power(base, n) - Power(base, n - 1);
    }
  }

  /** Bernoulli's inequality. */
  lemma {:induction false} PowerAtLeastLinear(base: real, n: nat)
    requires base >= 1.0
    ensures Power(base, n) >= 1.0 + n as real * (base - 1.0)
  {
    if n == 0 {
    } else {
      PowerAtLeastLinear(base, n - 1);
      PowerGrows(base, 0, n - 1);
      var p, d := Power(base, n - 1), base - 1.0;
      Products(d, p - 1.0);
      assert d * (p - 1.0) == d * p - d;
      assert base * p == p + d * p;
      assert n as real * d == (n - 1) as real * d + d;
    }
  }

  /** An exponent that takes the base beyond `y`. */
  function Enough(base: real, y: real): (n: nat)
    requires base > 1.0 && y > 0.0
    ensures Power(base, n) > y
  {
    var q := y / (base - 1.0);
    Products(base - 1.0, 1.0);
    assert q >= 0.0 by { if q < 0.0 { Products(base - 1.0, -q); } }
    PowerAtLeastLinear(base, q.Floor + 1);
    Cancel(base - 1.0, q, (q.Floor + 1) as real);
    q.Floor + 1
  }

  lemma PowerIntStep(base: real, k: int)
    requires base > 0.0
    ensures PowerInt(base, k + 1) == base * PowerInt(base, k) && PowerInt(base, k) > 0.0
  {
    if k >= 0 {
      PowerPositive(base, k);
    } else {
      var inverse := 1.0 / base;
      Quotient(base, 1.0, inverse);
      PowerPositive(inverse, -k);
      var p := Power(inverse, -k - 1);
      assert base * (inverse * p) == (base * inverse) * p;
    }
  }

  /** `k` is the integer part of the logarithm of `y`. */
  ghost predicate IsFloorLog(base: real, y: real, k: int)
    requires base > 1.0
  {
    PowerInt(base, k) <= y < PowerInt(base, k + 1)
  }

  lemma CancelBetween(c: real, a: real, y: real, b: real, ca: real, cy: real, cb: real)
    requires c > 0.0 && ca == c * a && cy == c * y && cb == c * b
    ensures a <= y < b <==> ca <= cy < cb
  {
    Cancel(c, a, y);
    Cancel(c, y, b);
  }

  lemma ShiftFloorLog(base: real, y: real, z: real, k: int)
    requires base > 1.0 && z == base * y
    ensures IsFloorLog(base, z, k + 1) <==> IsFloorLog(base, y, k)
  {
    PowerIntStep(base, k);
    PowerIntStep(base, k + 1);
    CancelBetween(base, PowerInt(base, k), y, PowerInt(base, k + 1), PowerInt(base, k + 1), z, PowerInt(base, k + 2));
  }

  lemma PowerIntGrowsOnce(base: real, k: int)
    requires base > 1.0
    ensures 0.0 < PowerInt(base, k) <= PowerInt(base, k + 1)
  {
    PowerIntStep(base, k);
    var p := PowerInt(base, k);
    Products(base - 1.0, p);
    assert (base - 1.0) * p == base * p - p;
  }

  lemma {:induction false} PowerIntGrows(base: real, j: int, k: int)
    requires base > 1.0 && j <= k
    ensures 0.0 < PowerInt(base, j) <= PowerInt(base, k)
    decreases k - j
  {
    PowerIntGrowsOnce(base, j);
    if j < k {
      PowerIntGrows(base, j, k - 1);
      PowerIntGrowsOnce(base, k - 1);
    }
  }

  lemma {:induction false} FloorLogUnique(base: real, y: real, j: int, k: int)
    requires base > 1.0 && IsFloorLog(base, y, j) && IsFloorLog(base, y, k)
    ensures j == k
  {
    if j < k {
      PowerIntGrows(base, j + 1, k);
    } else if k < j {
      PowerIntGrows(base, k + 1, j);
    }
  }

  function FloorLogAbove(base: real, y: real, ghost n: nat): (k: nat)
    requires base > 1.0 && 1.0 <= y < Power(base, n)
    ensures IsFloorLog(base, y, k)
    decreases n
  {
    if y < base then
      assert Power(base, 1) == base * Power(base, 0);
      0
    else
      var z := y / base;
      QuotientBetween(base, y, z, Power(base, n - 1), Power(base, n));
      var k := FloorLogAbove(base, z, n - 1);
      ShiftFloorLog(base, z, y, k);
      k + 1
  }

  function FloorLogBelow(base: real, y: real, ghost n: nat): (k: int)
    requires base > 1.0 && 0.0 < y < 1.0 && y * Power(base, n) >= 1.0
    ensures IsFloorLog(base, y, k)
    decreases n
  {
    Products(base, y);
    var z := base * y;
    if z >= 1.0 then
      PowerIntStep(base, -1);
      Cancel(base, PowerInt(base, -1), y);
      -1
    else
      assert z * Power(base, n - 1) == y * Power(base, n);
      var k := FloorLogBelow(base, z, n - 1);
      ShiftFloorLog(base, y, z, k - 1);
      k - 1
  }

  /** The integer part of the logarithm exists for every positive argument. */
  function FloorLog(base: real, y: real): (k: int)
    requires base > 1.0 && y > 0.0
    ensures IsFloorLog(base, y, k)
  {
    if y >= 1.0 then FloorLogAbove(base, y, Enough(base, y))
    else
      Cancel(y, 1.0 / y, Power(base, Enough(base, 1.0 / y)));
      FloorLogBelow(base, y, Enough(base, 1.0 / y))
  }
}
