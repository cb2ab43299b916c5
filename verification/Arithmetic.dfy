/** The widths of the source's integers, and facts about products and quotients that the solver
    does not find itself. */
module Arithmetic {

  const TWO_63: int := 0x8000_0000_0000_0000
  const TWO_64: int := 0x1_0000_0000_0000_0000

  lemma ProductNonNegative(x: nat, y: nat)
    ensures x * y >= 0
  {
  }

  lemma Distribute(x: int, k: int, b: int)
    ensures (x + k + 1) * b == x * b + k * b + b
  {
  }

  lemma MulStep(x: int, y: int, b: nat)
    ensures x < y ==> x * b + b <= y * b
  {
    if x < y {
      Distribute(x, y - x - 1, b);
      ProductNonNegative(y - x - 1, b);
    }
  }

  lemma DivisionFacts(a: int, b: nat)
    requires b > 0 && a >= 0
    ensures 0 <= a / b <= a && (a / b) * b <= a < (a / b) * b + b
    ensures a < b ==> a / b == 0
    ensures a >= b ==> a / b >= 1
  {
    QuotientBounds(a, b, a / b, a % b);
  }

  lemma QuotientBounds(a: nat, b: nat, q: int, r: nat)
    requires r < b && a == b * q + r
    ensures 0 <= q <= a && q * b <= a < q * b + b
    ensures a < b ==> q == 0
    ensures a >= b ==> q >= 1
  {
    MulStep(q, 0, b);
    MulStep(0, q, b);
    MulStep(q, 1, b);
    assert q * b == b * q;
    if q >= 0 {
      assert q * (b - 1) >= 0;
      assert q * (b - 1) == q * b - q;
    }
  }

  lemma QuotientUnique(a: int, b: nat, q: int)
    requires b > 0 && a >= 0 && q * b <= a < q * b + b
    ensures a / b == q
  {
    assert a == (a / b) * b + a % b;
    MulStep(a / b, q, b);
    MulStep(q, a / b, b);
  }

  lemma QuotientAndRemainder(a: nat, b: nat, q: int, r: int)
    requires b > 0 && q == a / b && r == a % b
    ensures a == q * b + r && 0 <= r < b && q >= 0
  {
    DivisionFacts(a, b);
  }

  lemma RemainderIs(a: int, b: nat, q: int, r: nat)
    requires r < b && a == q * b + r
    ensures a / b == q && a % b == r
  {
    assert a == (a / b) * b + a % b;
    MulStep(a / b, q, b);
    MulStep(q, a / b, b);
  }

  lemma QuotientAndRemainderInt(a: int, b: nat, q: int, r: int)
    requires b > 0 && q == a / b && r == a % b
    ensures a == q * b + r && 0 <= r < b
  {
  }

  lemma SameRemainder(a: int, k: int, n: nat)
    requires n > 0
    ensures (a + k) % n == a % n <==> k % n == 0
  {
    QuotientAndRemainderInt(a, n, a / n, a % n);
    QuotientAndRemainderInt(k, n, k / n, k % n);
    var r := a % n + k % n;
    var q := a / n + k / n;
    assert q * n == (a / n) * n + (k / n) * n;
    assert (q + 1) * n == q * n + n;
    RemainderIs(a + k, n, if r < n then q else q + 1, if r < n then r else r - n);
  }

  lemma ShiftQuotient(t: nat, n: nat, d: nat)
    requires d > 0
    ensures n * d >= 0 && (t + n * d) / d == t / d + n
  {
    ProductNonNegative(n, d);
    DivisionFacts(t, d);
    var q := t / d;
    assert (q + n) * d == q * d + n * d;
    QuotientUnique(t + n * d, d, q + n);
  }

  lemma ShiftRemainder(q: int, k: int, S: nat)
    requires S > 0
    ensures (q + k * S) % S == q % S
  {
    var p, r := q / S, q % S;
    QuotientAndRemainderInt(q, S, p, r);
    assert (p + k) * S == p * S + k * S;
    RemainderIs(q + k * S, S, p + k, r);
  }

  lemma AddRemainder(q: int, n: int, S: nat)
    requires S > 0
    ensures (q + n) % S == (q % S + n) % S
  {
    var p, r := q / S, q % S;
    QuotientAndRemainderInt(q, S, p, r);
    assert q + n == r + n + p * S;
    ShiftRemainder(r + n, p, S);
  }

  lemma DivMonotone(x: int, y: int, b: nat)
    requires b > 0 && 0 <= x <= y
    ensures x / b <= y / b
  {
    DivisionFacts(x, b);
    DivisionFacts(y, b);
    MulStep(y / b, x / b, b);
  }

  lemma QuotientAtLeast(n: nat, total: nat, d: nat)
    requires d > 0 && n * d <= total
    ensures n <= total / d
  {
    DivisionFacts(total, d);
    MulStep(total / d, n, d);
  }
}
