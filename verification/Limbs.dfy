/** Little-endian limbs of 32 bits and the natural number they stand for. */
module Limbs {
  import opened Arithmetic
  import opened Radix

  const BASE: nat := 0x1_0000_0000

  function Little(s: seq<int>): int {
    if s == [] then 0 else Little(s[..|s| - 1]) + s[|s| - 1] * Pow(BASE, |s| - 1)
  }

  /** One more than the largest number n limbs hold. */
  function Top(n: nat): (r: nat)
    ensures r > 0
  {
    Pow(BASE, n)
  }

  lemma TopPow(n: nat)
    ensures Top(n) == Pow(BASE, n)
  {
  }

  lemma {:induction false} LittleRange(s: seq<int>)
    requires Digits(s, BASE)
    ensures 0 <= Little(s) < Top(|s|)
  {
    if s != [] {
      LittleRange(s[..|s| - 1]);
      DigitRange(s[|s| - 1], BASE, Top(|s| - 1), Little(s[..|s| - 1]));
    }
  }

  /** One limb more. */
  lemma LittlePush(s: seq<int>, i: nat)
    requires i < |s|
    ensures Little(s[..i + 1]) == Little(s[..i]) + s[i] * Pow(BASE, i)
  {
    assert s[..i + 1][..i] == s[..i];
  }

  lemma {:induction false} LittleSame(s: seq<int>, t: seq<int>, i: nat)
    requires i <= |s| && i <= |t| && forall k :: 0 <= k < i ==> s[k] == t[k]
    ensures Little(s[..i]) == Little(t[..i])
  {
    assert s[..i] == t[..i];
  }

  lemma {:induction false} LittleZeros(s: seq<int>)
    requires forall k :: 0 <= k < |s| ==> s[k] == 0
    ensures Little(s) == 0
  {
    if s != [] {
      LittleZeros(s[..|s| - 1]);
    }
  }

  lemma {:induction false} LittleUpdate(s: seq<int>, j: nat, v: int)
    requires j < |s|
    ensures Little(s[j := v]) == Little(s) + (v - s[j]) * Pow(BASE, j)
  {
    var n := |s| - 1;
    if j == n {
      assert s[j := v][..n] == s[..n];
      Distribute(s[j], v - s[j], Pow(BASE, j));
    } else {
      assert s[j := v][..n] == s[..n][j := v];
      LittleUpdate(s[..n], j, v);
    }
  }

  lemma Distribute(a: int, b: int, c: int)
    ensures (a + b) * c == a * c + b * c
  {
  }

  /** Low and high limbs. */
  lemma {:induction false} LittleSplit(s: seq<int>, i: nat)
    requires i <= |s|
    ensures Little(s) == Little(s[..i]) + Pow(BASE, i) * Little(s[i..])
  {
    var n := |s| - 1;
    if i == |s| {
      assert s[..i] == s;
    } else {
      assert s[..n][..i] == s[..i] && s[..n][i..] == s[i..][..n - i];
      LittleSplit(s[..n], i);
      PowAdd(BASE, i, n - i);
      Regroup(Pow(BASE, i), Little(s[..n][i..]), s[n], Pow(BASE, n - i));
    }
  }

  lemma Regroup(p: int, v: int, d: int, q: int)
    ensures p * v + d * (p * q) == p * (v + d * q)
  {
  }

  /** One limb of a carry chain: what comes in equals the digit kept plus the carry passed on. */
  lemma CarryStep(low: int, sum: int, carry: int, x: int, p: int)
    requires low + carry * p == sum && x >= 0
    ensures low + (x % BASE) * p + (x / BASE) * (BASE * p) == sum + (x - carry) * p
  {
    assert x == x / BASE * BASE + x % BASE;
    Distribute(x % BASE, x / BASE * BASE, p);
    MulAssociates(x / BASE, BASE, p);
    Distribute(x - carry, carry, p);
  }

  lemma PowNext(i: nat)
    ensures Pow(BASE, i + 1) == BASE * Pow(BASE, i)
  {
  }

  /** A result that differs from the true one by a multiple of the modulus. */
  lemma WrapsTo(v: int, x: int, q: int, m: nat)
    requires 0 <= v < m && v + q * m == x
    ensures v == x % m
  {
    DivModUnique(x, m, q, v);
  }

  /** Adding to a residue without leaving the range. */
  lemma ModAdd(v: int, t: int, d: int, q: int, m: nat)
    requires m > 0 && v == t % m && 0 <= v + d < m
    ensures v + d == (t + d + q * m) % m
  {
    assert t == t / m * m + v;
    Distribute(t / m, q, m);
    DivModUnique(t + d + q * m, m, t / m + q, v + d);
  }

  // ---------- powers of two ----------

  function Two(n: nat): (r: nat)
    ensures r > 0
  {
    Pow(2, n)
  }

  lemma TwoOne()
    ensures Two(0) == 1 && Two(1) == 2
  {
  }

  lemma TwoAdd(m: nat, n: nat)
    ensures Two(m + n) == Two(m) * Two(n)
  {
    PowAdd(2, m, n);
  }

  lemma Two32()
    ensures Two(32) == BASE
  {
    assert Two(4) == 16;
    TwoAdd(4, 4);
    TwoAdd(8, 8);
    TwoAdd(16, 16);
  }

  lemma {:induction false} TopIsTwo(n: nat)
    ensures Top(n) == Two(32 * n)
  {
    if n > 0 {
      TopIsTwo(n - 1);
      TwoAdd(32, 32 * (n - 1));
      Two32();
    }
  }

  /** The bitwise or of two numbers without a common bit: x has only bits below k, y none. */
  function Or(x: nat, y: nat, ghost k: nat): nat
    requires x < Two(k) && y % Two(k) == 0
  {
    x + y
  }

  /** A limb shifted left by n: the part that stays and the part that leaves. */
  lemma SplitShift(a: nat, n: nat)
    requires a < BASE && n <= 32
    ensures a / Two(32 - n) == a * Two(n) / BASE < Two(n)
    ensures var stays := a * Two(n) % BASE; stays % Two(n) == 0 && 0 <= stays <= BASE - Two(n)
  {
    hide Pow, Two;
    var p, q := Two(n), Two(32 - n);
    TwoAdd(n, 32 - n);
    Two32();
    var u, r := a / q, a % q;
    assert a == u * q + r;
    Distribute(u * q, r, p);
    MulAssociates(u, q, p);
    assert q * p == p * q;
    MulMonotone(r, q - 1, p);
    Distribute(q, -1, p);
    DivModUnique(a * p, BASE, u, r * p);
    DivModUnique(r * p, p, r, 0);
    if u >= p {
      MulMonotone(p, u, q);
    }
  }
}
