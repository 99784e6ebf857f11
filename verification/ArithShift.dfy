/** The two shift loops of arith_uint256.cpp, limb by limb. */
module ArithShift {
  import opened Arithmetic
  import opened Radix
  import opened Limbs

  predicate ZeroFrom(s: seq<int>, j: int) { forall k :: 0 <= k < |s| && j <= k ==> s[k] == 0 }

  // ---------- left ----------

  /** s0[..i] shifted left by 32 * k + n bits, cut off at the width. */
  ghost predicate ShiftingLeft(s0: seq<int>, s: seq<int>, i: nat, k: nat, n: nat) {
    && |s| == |s0| && i <= |s0| && n < 32 && Digits(s, BASE)
    && ZeroFrom(s, i + k + 1) && (i + k < |s| ==> s[i + k] < Two(n))
    && Little(s) == Little(s0[..i]) * Two(n) * Pow(BASE, k) % Top(|s|)
  }

  /** One turn of the loop: the limb's leaving part goes up, its staying part goes in place. */
  function LeftStep(s: seq<int>, a: nat, i: nat, k: nat, n: nat): (r: seq<int>)
    requires a < BASE && n < 32 && ZeroFrom(s, i + k + 1) && (i + k < |s| ==> 0 <= s[i + k] < Two(n))
  {
    hide Two;
    SplitShift(a, n);
    var s := if i + k + 1 < |s| && n != 0 then s[i + k + 1 := Or(a / Two(32 - n), s[i + k + 1], n)] else s;
    if i + k < |s| then s[i + k := Or(s[i + k], a * Two(n) % BASE, n)] else s
  }

  lemma LeftStart(s0: seq<int>, s: seq<int>, k: nat, n: nat)
    requires |s| == |s0| && n < 32 && ZeroFrom(s, 0)
    ensures ShiftingLeft(s0, s, 0, k, n)
  {
    hide Pow, Two;
    LittleZeros(s);
    assert s0[..0] == [];
    assert Little(s0[..0]) * Two(n) == 0;
    assert Little(s0[..0]) * Two(n) * Pow(BASE, k) == 0;
  }

  /** What one limb adds to the number being built. */
  lemma LeftTerm(low: int, a: int, p: int, q: int, r: int, q': int)
    requires q * r == q'
    ensures (low + a * q) * p * r == low * p * r + a * p * q'
  {
    calc {
      (low + a * q) * p * r;
      (low * p + a * q * p) * r;
      low * p * r + a * q * p * r;
      low * p * r + a * p * (q * r);
    }
  }

  lemma LeftValue(s0: seq<int>, i: nat, k: nat, n: nat)
    requires i < |s0|
    ensures Little(s0[..i + 1]) * Two(n) * Pow(BASE, k) ==
            Little(s0[..i]) * Two(n) * Pow(BASE, k) + s0[i] * Two(n) * Pow(BASE, i + k)
  {
    hide Pow, Two, Little;
    LittlePush(s0, i);
    PowAdd(BASE, i, k);
    LeftTerm(Little(s0[..i]), s0[i], Two(n), Pow(BASE, i), Pow(BASE, k), Pow(BASE, i + k));
  }

  lemma LeftStepShape(s: seq<int>, a: nat, i: nat, k: nat, n: nat)
    requires a < BASE && n < 32 && ZeroFrom(s, i + k + 1) && (i + k < |s| ==> s[i + k] < Two(n)) && Digits(s, BASE)
    ensures var r := LeftStep(s, a, i, k, n);
            && |r| == |s| && Digits(r, BASE) && ZeroFrom(r, i + k + 2) && (i + k + 1 < |r| ==> r[i + k + 1] < Two(n))
  {
    SplitShift(a, n);
    TwoSmall(n);
  }

  lemma TwoSmall(n: nat)
    requires n < 32
    ensures Two(n) < BASE && (n == 0 ==> Two(n) == 1)
  {
    Two32();
    TwoAdd(n, 32 - n);
    assert Two(32 - n) == 2 * Two(31 - n);
    MulMonotone(2, Two(32 - n), Two(n));
  }

  lemma LeftStepGain(s: seq<int>, a: nat, i: nat, k: nat, n: nat)
    requires a < BASE && n < 32 && ZeroFrom(s, i + k + 1) && (i + k < |s| ==> 0 <= s[i + k] < Two(n))
    ensures i + k + 1 < |s| ==> Little(LeftStep(s, a, i, k, n)) == Little(s) + a * Two(n) * Pow(BASE, i + k)
    ensures i + k + 1 == |s| ==> Little(LeftStep(s, a, i, k, n)) == Little(s) + a * Two(n) % BASE * Pow(BASE, i + k)
    ensures i + k >= |s| ==> LeftStep(s, a, i, k, n) == s
  {
    hide Pow, Two, Little;
    SplitShift(a, n);
    TwoSmall(n);
    var x := a * Two(n);
    var hi, lo := x / BASE, x % BASE;
    if i + k < |s| {
      var s1 := if i + k + 1 < |s| && n != 0 then s[i + k + 1 := hi] else s;
      LittleUpdate(s1, i + k, s[i + k] + lo);
      if i + k + 1 < |s| {
        LittleUpdate(s, i + k + 1, hi);
        PowNext(i + k);
        LimbGain(hi, lo, x, Pow(BASE, i + k));
      }
    }
  }

  lemma LimbGain(hi: int, lo: int, x: int, p: int)
    requires x == hi * BASE + lo
    ensures hi * (BASE * p) + lo * p == x * p
  {
    MulAssociates(hi, BASE, p);
    Distribute(hi * BASE, lo, p);
  }

  lemma ShiftLeftStep(s0: seq<int>, s: seq<int>, i: nat, k: nat, n: nat)
    requires ShiftingLeft(s0, s, i, k, n) && i < |s0| && Digits(s0, BASE)
    ensures ShiftingLeft(s0, LeftStep(s, s0[i], i, k, n), i + 1, k, n)
  {
    hide Pow, Two, Little, LeftStep;
    var a, w := s0[i], |s|;
    var r := LeftStep(s, a, i, k, n);
    LeftStepShape(s, a, i, k, n);
    LeftStepGain(s, a, i, k, n);
    LeftValue(s0, i, k, n);
    LittleRange(s);
    LittleRange(r);
    var t, x, p := Little(s0[..i]) * Two(n) * Pow(BASE, k), a * Two(n), Pow(BASE, i + k);
    if i + k + 1 < w {
      ModAdd(Little(s), t, x * p, 0, Top(w));
    } else if i + k + 1 == w {
      PowNext(i + k);
      TopPow(w);
      LimbGain(x / BASE, x % BASE, x, p);
      ModAdd(Little(s), t, x % BASE * p, x / BASE, Top(w));
    } else {
      PowAdd(BASE, i + k - w, w);
      TopPow(w);
      MulAssociates(x, Pow(BASE, i + k - w), Top(w));
      ModAdd(Little(s), t, 0, x * Pow(BASE, i + k - w), Top(w));
    }
  }

  lemma ShiftFactor(v: int, k: nat, n: nat)
    ensures v * Two(n) * Pow(BASE, k) == v * Two(32 * k + n)
  {
    hide Pow, Two;
    TopIsTwo(k);
    TopPow(k);
    TwoAdd(n, 32 * k);
    MulAssociates(v, Two(n), Two(32 * k));
  }

  lemma ShiftLeftDone(s0: seq<int>, s: seq<int>, k: nat, n: nat)
    requires ShiftingLeft(s0, s, |s0|, k, n)
    ensures Digits(s, BASE) && Little(s) == Little(s0) * Two(32 * k + n) % Top(|s|)
  {
    hide Pow, Two, Little;
    assert s0[..|s0|] == s0;
    ShiftFactor(Little(s0), k, n);
  }

  // ---------- right ----------

  /** s0[..i] shifted right by 32 * k + n bits. */
  ghost predicate ShiftingRight(s0: seq<int>, s: seq<int>, i: nat, k: nat, n: nat) {
    && |s| == |s0| && i <= |s0| && n < 32 && Digits(s, BASE)
    && ZeroFrom(s, i - k) && (0 <= i - k - 1 < |s| ==> s[i - k - 1] < Two(32 - n))
    && Little(s) == Little(s0[..i]) / (Two(n) * Pow(BASE, k))
  }

  lemma RightSplit(a: nat, n: nat)
    requires a < BASE && n < 32
    ensures 0 <= a / Two(n) < Two(32 - n) && 0 % Two(32 - n) == 0
    ensures var stays := a * Two(32 - n) % BASE; 0 <= stays && stays % Two(32 - n) == 0
  {
    hide Two;
    SplitShift(a, 32 - n);
    DivModUnique(0, Two(32 - n), 0, 0);
  }

  function RightStep(s: seq<int>, a: nat, i: nat, k: nat, n: nat): (r: seq<int>)
    requires a < BASE && n < 32 && i < |s| && ZeroFrom(s, i - k) && (i - k - 1 >= 0 ==> 0 <= s[i - k - 1] < Two(32 - n))
  {
    hide Two;
    RightSplit(a, n);
    var s := if i - k - 1 >= 0 && n != 0 then s[i - k - 1 := Or(s[i - k - 1], a * Two(32 - n) % BASE, 32 - n)] else s;
    if i - k >= 0 then s[i - k := Or(a / Two(n), s[i - k], 32 - n)] else s
  }

  lemma RightStart(s0: seq<int>, s: seq<int>, k: nat, n: nat)
    requires |s| == |s0| && n < 32 && ZeroFrom(s, 0)
    ensures ShiftingRight(s0, s, 0, k, n)
  {
    hide Pow, Two;
    LittleZeros(s);
    assert s0[..0] == [];
    MulPositive(Two(n), Pow(BASE, k));
    DivModUnique(0, Two(n) * Pow(BASE, k), 0, 0);
  }

  lemma MulPositive(a: nat, b: nat)
    requires a > 0 && b > 0
    ensures a * b > 0
  {
  }

  lemma RightStepShape(s: seq<int>, a: nat, i: nat, k: nat, n: nat)
    requires a < BASE && n < 32 && i < |s| && ZeroFrom(s, i - k)
             && (i - k - 1 >= 0 ==> 0 <= s[i - k - 1] < Two(32 - n)) && Digits(s, BASE)
    ensures var r := RightStep(s, a, i, k, n);
            && |r| == |s| && Digits(r, BASE) && ZeroFrom(r, i + 1 - k) && (0 <= i - k < |r| ==> r[i - k] < Two(32 - n))
  {
    SplitShift(a, 32 - n);
    Two32();
    if n > 0 {
      TwoSmall(32 - n);
    }
  }

  /** Where a limb above the dropped ones goes: it adds its own value, in place. */
  lemma RightStepGain(s: seq<int>, a: nat, i: nat, k: nat, n: nat)
    requires a < BASE && n < 32 && i < |s| && ZeroFrom(s, i - k) && (i - k - 1 >= 0 ==> 0 <= s[i - k - 1] < Two(32 - n))
    ensures i > k ==> Little(RightStep(s, a, i, k, n)) == Little(s) + a * Two(32 - n) * Pow(BASE, i - k - 1)
    ensures i == k ==> Little(RightStep(s, a, i, k, n)) == Little(s) + a / Two(n)
    ensures i < k ==> RightStep(s, a, i, k, n) == s
  {
    hide Two, Little;
    SplitShift(a, 32 - n);
    Two32();
    ZeroShift(0);
    var x := a * Two(32 - n);
    var hi, lo := x / BASE, x % BASE;
    if i > k {
      var j := i - k - 1;
      var s1 := if n != 0 then s[j := s[j] + lo] else s;
      if n == 0 {
        DivModUnique(x, BASE, a, 0);
      }
      LittleUpdate(s1, j + 1, hi);
      LittleUpdate(s, j, s[j] + lo);
      PowNext(j);
      LimbGain(hi, lo, x, Pow(BASE, j));
    } else if i == k {
      LittleUpdate(s, 0, hi);
    }
  }

  lemma ZeroShift(n: nat)
    ensures n == 0 ==> Two(n) == 1
  {
  }

  /** A limb above the dropped ones divides evenly. */
  lemma RightAbove(low: int, a: int, i: nat, k: nat, n: nat)
    requires i > k && n < 32
    ensures (low + a * Pow(BASE, i)) / (Two(n) * Pow(BASE, k)) ==
            low / (Two(n) * Pow(BASE, k)) + a * Two(32 - n) * Pow(BASE, i - k - 1)
  {
    hide Pow, Two;
    var p, q, u, r := Two(n), Two(32 - n), Pow(BASE, k), Pow(BASE, i - k - 1);
    TwoAdd(n, 32 - n);
    Two32();
    PowNext(i - k - 1);
    PowAdd(BASE, k, i - k);
    Spread(a, p, q, u, r);
    MulPositive(p, u);
    DivAdd(low, p * u, a * q * r);
  }

  lemma Spread(a: int, p: int, q: int, u: int, r: int)
    ensures a * (u * ((p * q) * r)) == a * q * r * (p * u)
  {
    calc {
      a * (u * ((p * q) * r));
      a * u * (p * q * r);
      a * u * p * q * r;
      a * q * r * (p * u);
    }
  }

  /** The limb that the cut goes through. */
  lemma RightAt(low: nat, a: nat, p: nat, u: nat)
    requires low < u && p > 0
    ensures p * u > 0 && (low + a * u) / (p * u) == a / p && low / (p * u) == 0
  {
    MulPositive(p, u);
    var d, r := a / p, a % p;
    assert a == d * p + r;
    Distribute(d * p, r, u);
    MulAssociates(d, p, u);
    DigitRange(r, p, u, low);
    assert u * p == p * u;
    DivModUnique(low + a * u, p * u, d, low + r * u);
    MulMonotone(1, p, u);
    DivModUnique(low, p * u, 0, low);
  }

  /** What one more limb adds to the quotient. */
  lemma RightQuotient(s0: seq<int>, i: nat, k: nat, n: nat)
    requires i < |s0| && Digits(s0, BASE) && n < 32
    ensures var d := Two(n) * Pow(BASE, k);
            d > 0 && Little(s0[..i + 1]) / d == Little(s0[..i]) / d +
              (if i > k then s0[i] * Two(32 - n) * Pow(BASE, i - k - 1) else if i == k then s0[i] / Two(n) else 0)
  {
    hide Pow, Two, Little;
    var a := s0[i];
    LittlePush(s0, i);
    LittleRange(s0[..i]);
    LittleRange(s0[..i + 1]);
    TopPow(i);
    MulPositive(Two(n), Pow(BASE, k));
    if i > k {
      RightAbove(Little(s0[..i]), a, i, k, n);
    } else if i == k {
      RightAt(Little(s0[..i]), a, Two(n), Pow(BASE, k));
    } else {
      TopPow(i + 1);
      PowMonotone(BASE, i + 1, k);
      PowMonotone(BASE, i, k);
      RightAt(Little(s0[..i + 1]), 0, Two(n), Pow(BASE, k));
      RightAt(Little(s0[..i]), 0, Two(n), Pow(BASE, k));
    }
  }

  lemma ShiftRightStep(s0: seq<int>, s: seq<int>, i: nat, k: nat, n: nat)
    requires ShiftingRight(s0, s, i, k, n) && i < |s0| && Digits(s0, BASE)
    ensures ShiftingRight(s0, RightStep(s, s0[i], i, k, n), i + 1, k, n)
  {
    hide Pow, Two, Little, RightStep;
    RightStepShape(s, s0[i], i, k, n);
    RightStepGain(s, s0[i], i, k, n);
    RightQuotient(s0, i, k, n);
  }

  lemma ShiftRightDone(s0: seq<int>, s: seq<int>, k: nat, n: nat)
    requires ShiftingRight(s0, s, |s0|, k, n)
    ensures Digits(s, BASE) && Little(s) == Little(s0) / Two(32 * k + n)
  {
    hide Pow, Two, Little;
    assert s0[..|s0|] == s0;
    ShiftFactor(1, k, n);
  }
}
