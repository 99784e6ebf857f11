/** Facts about products, quotients and sizes of sets that the solver does not find unaided. */
module Arithmetic {

  lemma MulMonotone(a: int, b: int, m: nat)
    requires a <= b
    ensures a * m <= b * m
  {
    assert b * m == a * m + (b - a) * m;
  }

  /** Quotient and remainder are determined by the equation they solve. */
  lemma DivModUnique(x: int, m: nat, q: int, r: int)
    requires x == q * m + r && 0 <= r < m
    ensures x / m == q && x % m == r
  {
    var k := x / m;
    assert x == k * m + x % m;
    if k < q {
      MulMonotone(k + 1, q, m);
    } else if q < k {
      MulMonotone(q + 1, k, m);
    }
  }

  lemma DivMonotone(a: int, b: int, m: nat)
    requires a <= b && m > 0
    ensures a / m <= b / m
  {
    if b / m < a / m {
      MulMonotone(b / m + 1, a / m, m);
    }
  }

  lemma DivAdd(a: int, m: nat, k: int)
    requires m > 0
    ensures (a + k * m) / m == a / m + k && (a + k * m) % m == a % m
  {
    assert a + k * m == (a / m + k) * m + a % m;
    DivModUnique(a + k * m, m, a / m + k, a % m);
  }

  lemma DivStep(a: nat, m: nat)
    requires m > 0
    ensures a < m ==> a / m == 0
    ensures a >= m ==> a / m == (a - m) / m + 1
  {
    if a < m {
      DivModUnique(a, m, 0, a);
    } else {
      DivAdd(a - m, m, 1);
    }
  }

  function Max(a: int, b: int): (r: int)
    ensures r >= a && r >= b
  {
    if a < b then b else a
  }

  function One(b: bool): int { if b then 1 else 0 }

  lemma Without<T>(s: set<T>, x: T)
    ensures |s - {x}| == |s| - (if x in s then 1 else 0)
  {
  }

  /** Sets that differ at most in x. */
  lemma SizeChange<T>(a: set<T>, b: set<T>, x: T)
    requires forall y :: y != x ==> (y in a <==> y in b)
    ensures |b| == |a| - (if x in a then 1 else 0) + (if x in b then 1 else 0)
  {
    assert a - {x} == b - {x};
    Without(a, x);
    Without(b, x);
  }
}
