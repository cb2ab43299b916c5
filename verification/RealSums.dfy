/** Sums of sequences of exact reals, which stand for the byte counts of the C++ code. */
module RealSums {

  function SumTo(s: seq<real>, n: nat): real
    requires n <= |s|
  {
    if n == 0 then 0.0 else SumTo(s, n - 1) + s[n - 1]
  }

  function Sum(s: seq<real>): real {
    SumTo(s, |s|)
  }

  predicate AllZero(s: seq<real>) {
    forall i :: 0 <= i < |s| ==> s[i] == 0.0
  }

  predicate NonNegative(s: seq<real>) {
    forall i :: 0 <= i < |s| ==> s[i] >= 0.0
  }

  function Zeros(n: nat): seq<real> {
    seq(n, _ => 0.0)
  }

  function RealMin(x: real, y: real): real {
    if x <= y then x else y
  }

  lemma {:induction false} SumToPrefix(s: seq<real>, t: seq<real>, n: nat)
    requires n <= |s| && n <= |t|
    requires forall i :: 0 <= i < n ==> s[i] == t[i]
    ensures SumTo(s, n) == SumTo(t, n)
  {
    if n == 0 {
    } else {
      SumToPrefix(s, t, n - 1);
    }
  }

  lemma {:induction false} SumToAppend(a: seq<real>, b: seq<real>, n: nat)
    requires n <= |b|
    ensures SumTo(a + b, |a| + n) == Sum(a) + SumTo(b, n)
  {
    if n == 0 {
      SumToPrefix(a + b, a, |a|);
    } else {
      SumToAppend(a, b, n - 1);
      assert (a + b)[|a| + n - 1] == b[n - 1];
    }
  }

  lemma SumAppend(a: seq<real>, b: seq<real>)
    ensures Sum(a + b) == Sum(a) + Sum(b)
  {
    SumToAppend(a, b, |b|);
  }

  lemma SumSnoc(s: seq<real>, x: real)
    ensures Sum(s + [x]) == Sum(s) + x
  {
    SumToPrefix(s + [x], s, |s|);
  }

  lemma SumSplit(s: seq<real>, k: nat)
    requires k <= |s|
    ensures Sum(s) == Sum(s[..k]) + Sum(s[k..])
  {
    assert s == s[..k] + s[k..];
    SumAppend(s[..k], s[k..]);
  }

  lemma SumThree(s: seq<real>, i: nat, j: nat)
    requires i <= j <= |s|
    ensures Sum(s) == Sum(s[..i]) + Sum(s[i..j]) + Sum(s[j..])
  {
    SumSplit(s, j);
    assert s[..j] == s[..i] + s[i..j];
    SumAppend(s[..i], s[i..j]);
  }

  lemma {:induction false} SumToUpdate(s: seq<real>, i: nat, x: real, n: nat)
    requires i < |s| && n <= |s|
    ensures SumTo(s[i := x], n) == if i < n then SumTo(s, n) - s[i] + x else SumTo(s, n)
  {
    if n == 0 {
    } else {
      SumToUpdate(s, i, x, n - 1);
    }
  }

  lemma SumUpdate(s: seq<real>, i: nat, x: real)
    requires i < |s|
    ensures Sum(s[i := x]) == Sum(s) - s[i] + x
  {
    SumToUpdate(s, i, x, |s|);
  }

  lemma {:induction false} SumToAllZero(s: seq<real>, n: nat)
    requires n <= |s| && AllZero(s)
    ensures SumTo(s, n) == 0.0
  {
    if n == 0 {
    } else {
      SumToAllZero(s, n - 1);
    }
  }

  lemma SumAllZero(s: seq<real>)
    requires AllZero(s)
    ensures Sum(s) == 0.0
  {
    SumToAllZero(s, |s|);
  }

  // A sum of non-negative terms is at least each of them.
  lemma {:induction false} SumToTerm(s: seq<real>, n: nat)
    requires n <= |s| && NonNegative(s)
    ensures SumTo(s, n) >= 0.0
    ensures forall i :: 0 <= i < n ==> s[i] <= SumTo(s, n)
  {
    if n == 0 {
    } else {
      SumToTerm(s, n - 1);
    }
  }

  lemma SumNonNegative(s: seq<real>)
    requires NonNegative(s)
    ensures Sum(s) >= 0.0
  {
    SumToTerm(s, |s|);
  }

  // A sum of non-negative terms vanishes exactly when every term does.
  lemma SumZeroIffAllZero(s: seq<real>)
    requires NonNegative(s)
    ensures Sum(s) == 0.0 <==> AllZero(s)
  {
    SumToTerm(s, |s|);
    if AllZero(s) {
      SumAllZero(s);
    }
  }

  lemma {:induction false} SumToPointwise(a: seq<real>, b: seq<real>, c: seq<real>, n: nat)
    requires n <= |a| == |b| == |c|
    requires forall i :: 0 <= i < n ==> c[i] == a[i] + b[i]
    ensures SumTo(c, n) == SumTo(a, n) + SumTo(b, n)
  {
    if n == 0 {
    } else {
      SumToPointwise(a, b, c, n - 1);
    }
  }

  lemma SumPointwise(a: seq<real>, b: seq<real>, c: seq<real>)
    requires |a| == |b| == |c|
    requires forall i :: 0 <= i < |c| ==> c[i] == a[i] + b[i]
    ensures Sum(c) == Sum(a) + Sum(b)
  {
    SumToPointwise(a, b, c, |c|);
  }
}
