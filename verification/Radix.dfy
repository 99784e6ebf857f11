/** Positional notation: values, canonical digits, and how many digits are enough. */
module Radix {
  import opened Arithmetic

  function Pow(b: nat, n: nat): (r: nat)
    ensures b > 0 ==> r > 0
  {
    if n == 0 then 1 else b * Pow(b, n - 1)
  }

  lemma {:induction false} PowAdd(b: nat, m: nat, n: nat)
    ensures Pow(b, m + n) == Pow(b, m) * Pow(b, n)
  {
    if m > 0 {
      PowAdd(b, m - 1, n);
      MulAssociates(b, Pow(b, m - 1), Pow(b, n));
    }
  }

  lemma MulAssociates(a: int, b: int, c: int)
    ensures a * (b * c) == (a * b) * c
  {
  }

  lemma {:induction false} PowMonotone(b: nat, m: nat, n: nat)
    requires b > 0 && m <= n
    ensures Pow(b, m) <= Pow(b, n)
    decreases n - m
  {
    if m < n {
      PowMonotone(b, m, n - 1);
      MulMonotone(1, b, Pow(b, n - 1));
    }
  }

  lemma MulStrict(a: nat, b: nat, c: nat, d: nat)
    requires a < b && c <= d && 0 < d
    ensures a * c < b * d
  {
    MulMonotone(c, d, a);
    MulMonotone(a + 1, b, d);
  }

  lemma MulBoth(a: nat, b: nat, c: nat, d: nat)
    requires a <= b && c <= d
    ensures a * c <= b * d
  {
    MulMonotone(c, d, a);
    MulMonotone(a, b, d);
  }

  // ---------- digits ----------

  predicate Digits(s: seq<int>, b: nat) { forall i :: 0 <= i < |s| ==> 0 <= s[i] < b }

  /** The value of big-endian digits. */
  function Val(s: seq<int>, b: nat): int {
    if s == [] then 0 else Val(s[..|s| - 1], b) * b + s[|s| - 1]
  }

  lemma {:induction false} ValRange(s: seq<int>, b: nat)
    requires Digits(s, b)
    ensures 0 <= Val(s, b) < Pow(b, |s|)
  {
    if s != [] {
      ValRange(s[..|s| - 1], b);
      DigitRange(Val(s[..|s| - 1], b), Pow(b, |s| - 1), b, s[|s| - 1]);
    }
  }

  lemma DigitRange(v: nat, p: nat, b: nat, d: nat)
    requires v < p && d < b
    ensures 0 <= v * b + d < b * p
  {
    MulMonotone(v + 1, p, b);
  }

  lemma {:induction false} ValAppend(s: seq<int>, t: seq<int>, b: nat)
    ensures Val(s + t, b) == Val(s, b) * Pow(b, |t|) + Val(t, b)
  {
    if t == [] {
      assert s + t == s;
    } else {
      var t' := t[..|t| - 1];
      ValAppend(s, t', b);
      assert (s + t)[..|s + t| - 1] == s + t';
      ShiftDigits(Val(s, b), Pow(b, |t'|), Val(t', b), b);
    }
  }

  lemma ShiftDigits(v: int, p: int, w: int, b: int)
    ensures (v * p + w) * b == v * (b * p) + w * b
  {
  }

  lemma {:induction false} ValZeros(s: seq<int>, b: nat)
    requires forall i :: 0 <= i < |s| ==> s[i] == 0
    ensures Val(s, b) == 0
  {
    if s != [] {
      ValZeros(s[..|s| - 1], b);
    }
  }

  /** The digits of a number, without leading zeros. */
  function ToBase(v: nat, b: nat): (s: seq<int>)
    requires b > 1
    ensures Digits(s, b) && Val(s, b) == v && (s != [] ==> s[0] != 0)
    decreases v
  {
    if v == 0 then [] else
      DivSmaller(v, b);
      var high := ToBase(v / b, b);
      ValSnoc(high, v % b, b);
      high + [v % b]
  }

  lemma ValSnoc(s: seq<int>, d: int, b: nat)
    ensures Val(s + [d], b) == Val(s, b) * b + d
  {
    assert (s + [d])[..|s|] == s;
  }

  lemma DivSmaller(v: nat, b: nat)
    requires v > 0 && b > 1
    ensures 0 <= v / b < v && v == v / b * b + v % b && 0 <= v % b < b
  {
    if v / b >= v {
      MulMonotone(v, v / b, b);
      MulMonotone(2, b, v);
    }
  }

  /** Digits without leading zeros are the digits of their value. */
  lemma {:induction false} ToBaseUnique(s: seq<int>, b: nat)
    requires b > 1 && Digits(s, b) && (s != [] ==> s[0] != 0)
    ensures Val(s, b) >= 0 && ToBase(Val(s, b), b) == s
  {
    ValRange(s, b);
    if s != [] {
      var s' := s[..|s| - 1];
      ToBaseUnique(s', b);
      ValRange(s', b);
      if s' != [] {
        ValPositive(s', b);
        MulMonotone(1, Val(s', b), b);
      }
      DivModUnique(Val(s, b), b, Val(s', b), s[|s| - 1]);
    }
  }

  lemma ValEmpty(b: nat)
    ensures Val([], b) == 0 && Pow(b, 0) == 1
  {
  }

  lemma PowStep(b: nat, n: nat)
    requires n > 0
    ensures Pow(b, n) == Pow(b, n - 1) * b
  {
  }

  lemma {:induction false} ValPositive(s: seq<int>, b: nat)
    requires b > 1 && Digits(s, b) && s != [] && s[0] != 0
    ensures Val(s, b) >= Pow(b, |s| - 1) > 0
  {
    hide Val, Pow;
    var s', d := s[..|s| - 1], s[|s| - 1];
    assert s == s' + [d];
    ValSnoc(s', d, b);
    if s' == [] {
      ValEmpty(b);
    } else {
      ValPositive(s', b);
      MulMonotone(Pow(b, |s'| - 1), Val(s', b), b);
      PowStep(b, |s'|);
    }
  }
}
