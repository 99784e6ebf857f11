/** The fixed-width unsigned integers of arith_uint256.cpp: operators that rewrite an array of
    32-bit limbs in place. WIDTH is the length of the array; 256 bits are eight limbs. */
module ArithUint {
  import opened Arithmetic
  import opened Radix
  import opened Limbs
  import opened ArithShift

  // ---------- the carry chains, on sequences ----------

  /** The first i limbs of a sum are written. */
  ghost predicate Adding(s0: seq<int>, t0: seq<int>, s: seq<int>, i: nat, carry: int) {
    && |s| == |s0| == |t0| && i <= |s| && Digits(s, BASE) && 0 <= carry <= 1
    && (forall k :: i <= k < |s| ==> s[k] == s0[k])
    && Little(s[..i]) + carry * Pow(BASE, i) == Little(s0[..i]) + Little(t0[..i])
  }

  lemma AddStep(s0: seq<int>, t0: seq<int>, s: seq<int>, i: nat, carry: int)
    requires Adding(s0, t0, s, i, carry) && i < |s| && Digits(t0, BASE)
    ensures var n := carry + s[i] + t0[i]; Adding(s0, t0, s[i := n % BASE], i + 1, n / BASE)
  {
    hide Pow, Little;
    var n := carry + s[i] + t0[i];
    var s' := s[i := n % BASE];
    LittleSame(s, s', i);
    LittlePush(s', i);
    LittlePush(s0, i);
    LittlePush(t0, i);
    CarryStep(Little(s[..i]), Little(s0[..i]) + Little(t0[..i]), carry, n, Pow(BASE, i));
    Distribute(s0[i], t0[i], Pow(BASE, i));
    PowNext(i);
  }

  lemma AddEnd(s0: seq<int>, t0: seq<int>, s: seq<int>, carry: int)
    requires Adding(s0, t0, s, |s|, carry)
    ensures Little(s) == (Little(s0) + Little(t0)) % Top(|s|)
  {
    hide Pow, Little;
    assert s[..|s|] == s && s0[..|s|] == s0 && t0[..|s|] == t0;
    LittleRange(s);
    TopPow(|s|);
    WrapsTo(Little(s), Little(s0) + Little(t0), carry, Top(|s|));
  }

  function Complement(s: seq<int>): (t: seq<int>)
    ensures |t| == |s| && forall k :: 0 <= k < |s| ==> t[k] == BASE - 1 - s[k]
  {
    seq(|s|, k requires 0 <= k < |s| => BASE - 1 - s[k])
  }

  lemma {:induction false} ComplementValue(s: seq<int>)
    ensures Little(Complement(s)) + Little(s) == Top(|s|) - 1
  {
    if s != [] {
      var n := |s| - 1;
      ComplementValue(s[..n]);
      assert Complement(s)[..n] == Complement(s[..n]);
      Distribute(BASE - 1 - s[n], s[n], Pow(BASE, n));
      Distribute(BASE - 1, 1, Pow(BASE, n));
    }
  }

  /** Ones have been carried through the first i limbs of an increment. */
  ghost predicate Rippling(s0: seq<int>, s: seq<int>, i: nat, unit: int) {
    && |s| == |s0| && i <= |s| && Digits(s, BASE)
    && (forall k :: i <= k < |s| ==> s[k] == s0[k])
    && Little(s[..i]) + unit * Pow(BASE, i) == Little(s0[..i]) + unit
  }

  lemma RippleStart(s: seq<int>, unit: int)
    requires Digits(s, BASE)
    ensures Rippling(s, s, 0, unit)
  {
    assert s[..0] == [];
  }

  /** One more limb: it wraps and the ripple goes on, or it does not and the value is right. */
  lemma RippleStep(s0: seq<int>, s: seq<int>, i: nat, unit: int)
    requires Rippling(s0, s, i, unit) && i < |s| && (unit == 1 || unit == -1)
    ensures var x := s[i] + unit;
            && (0 <= x < BASE ==> Little(s[i := x]) == Little(s0) + unit && Digits(s[i := x], BASE))
            && (x == BASE ==> Rippling(s0, s[i := 0], i + 1, unit))
            && (x == -1 ==> Rippling(s0, s[i := BASE - 1], i + 1, unit))
  {
    hide Pow, Little;
    var x := s[i] + unit;
    var p := Pow(BASE, i);
    if 0 <= x < BASE {
      LittleUpdate(s, i, x);
      assert s[i..] == s0[i..];
      LittleSplit(s, i);
      LittleSplit(s0, i);
    } else {
      var y := if x == BASE then 0 else BASE - 1;
      var s' := s[i := y];
      LittleSame(s, s', i);
      LittlePush(s', i);
      LittlePush(s0, i);
      PowNext(i);
      RippleWrap(Little(s[..i]), Little(s0[..i]), s0[i], y, unit, p);
    }
  }

  lemma RippleWrap(v: int, v0: int, x: int, y: int, unit: int, p: int)
    requires v + unit * p == v0 + unit
    requires (unit == 1 && x == BASE - 1 && y == 0) || (unit == -1 && x == 0 && y == BASE - 1)
    ensures v + y * p + unit * (BASE * p) == v0 + x * p + unit
  {
    Distribute(BASE - 1, 1, p);
  }

  lemma RippleOut(s0: seq<int>, s: seq<int>, unit: int)
    requires Rippling(s0, s, |s|, unit) && (unit == 1 || unit == -1)
    ensures Little(s) == (Little(s0) + unit) % Top(|s|)
  {
    hide Pow, Little;
    assert s[..|s|] == s && s0[..|s|] == s0;
    LittleRange(s);
    TopPow(|s|);
    WrapsTo(Little(s), Little(s0) + unit, unit, Top(|s|));
  }

  lemma InRange(s: seq<int>, x: int)
    requires Digits(s, BASE) && Little(s) == x
    ensures x == x % Top(|s|)
  {
    hide Pow, Little;
    LittleRange(s);
    WrapsTo(x, x, 0, Top(|s|));
  }

  // ---------- comparison and bit length ----------

  lemma LessAt(s: seq<int>, t: seq<int>, i: nat)
    requires |s| == |t| && Digits(s, BASE) && Digits(t, BASE) && i < |s| && s[i] < t[i]
    requires forall k :: i < k < |s| ==> s[k] == t[k]
    ensures Little(s) < Little(t)
  {
    hide Pow, Little;
    assert s[i + 1..] == t[i + 1..];
    LittleSplit(s, i + 1);
    LittleSplit(t, i + 1);
    LittlePush(s, i);
    LittlePush(t, i);
    LittleRange(s[..i]);
    LittleRange(t[..i]);
    TopPow(i);
    MulMonotone(s[i] + 1, t[i], Pow(BASE, i));
    Distribute(s[i], 1, Pow(BASE, i));
  }

  /** n is the position of the highest bit of v, plus one, or 0. */
  predicate IsBits(v: int, n: nat) {
    if v == 0 then n == 0 else n > 0 && Two(n - 1) <= v < Two(n)
  }

  /** The highest limb that is not zero decides. */
  lemma BitsAt(s: seq<int>, pos: nat, b: nat)
    requires Digits(s, BASE) && pos < |s| && (forall k :: pos < k < |s| ==> s[k] == 0) && Two(b) <= s[pos] < Two(b + 1)
    ensures IsBits(Little(s), 32 * pos + b + 1)
  {
    hide Pow, Little, Two;
    var p := Pow(BASE, pos);
    LittleSplit(s, pos + 1);
    LittleZeros(s[pos + 1..]);
    assert Pow(BASE, pos + 1) * 0 == 0;
    LittlePush(s, pos);
    LittleRange(s[..pos]);
    TopPow(pos);
    TopIsTwo(pos);
    TwoAdd(b, 32 * pos);
    TwoAdd(b + 1, 32 * pos);
    MulMonotone(Two(b), s[pos], p);
    MulMonotone(s[pos] + 1, Two(b + 1), p);
    Distribute(s[pos], 1, p);
    MulPositive(Two(b), p);
  }

  lemma BitTest(x: nat, n: nat)
    requires x < Two(n + 1)
    ensures x / Two(n) % 2 == (if x >= Two(n) then 1 else 0)
  {
    hide Two;
    TwoAdd(1, n);
    assert Two(1) == 2 by { TwoOne(); }
    if x >= Two(n) {
      DivModUnique(x, Two(n), 1, x - Two(n));
    } else {
      DivModUnique(x, Two(n), 0, x);
    }
  }

  // ---------- multiplication ----------

  /** Row j of the product: the first i limbs of b times pj have been added at j. */
  ghost predicate Row(s0: seq<int>, s: seq<int>, b: seq<int>, pj: int, j: nat, i: nat, carry: int) {
    && |s| == |s0| == |b| && i + j <= |s| && Digits(s, BASE) && 0 <= carry < BASE
    && (forall k :: i + j <= k < |s| ==> s[k] == s0[k])
    && Little(s[..i + j]) + carry * Pow(BASE, i + j) == Little(s0[..i + j]) + pj * (Pow(BASE, j) * Little(b[..i]))
  }

  lemma RowStart(s0: seq<int>, b: seq<int>, pj: int, j: nat)
    requires |s0| == |b| && j <= |s0| && Digits(s0, BASE)
    ensures Row(s0, s0, b, pj, j, 0, 0)
  {
    hide Pow;
    assert b[..0] == [];
    assert Pow(BASE, j) * 0 == 0;
  }

  /** The product of two limbs plus two carries fits in 64 bits. */
  lemma ProductFits(x: nat, y: nat, c: nat, d: nat)
    requires x < BASE && y < BASE && c < BASE && d < BASE
    ensures 0 <= c + d + x * y < BASE * BASE && (c + d + x * y) / BASE < BASE
  {
    MulMonotone(0, x, y);
    MulBoth(x, BASE - 1, y, BASE - 1);
    var n := c + d + x * y;
    assert 0 <= n <= 2 * (BASE - 1) + (BASE - 1) * (BASE - 1);
  }

  lemma RowStep(s0: seq<int>, s: seq<int>, b: seq<int>, pj: nat, j: nat, i: nat, carry: int)
    requires Row(s0, s, b, pj, j, i, carry) && i + j < |s| && Digits(b, BASE) && pj < BASE
    ensures var n := carry + s[i + j] + pj * b[i];
            0 <= n < BASE * BASE && Row(s0, s[i + j := n % BASE], b, pj, j, i + 1, n / BASE)
  {
    hide Pow, Little;
    var n := carry + s[i + j] + pj * b[i];
    ProductFits(pj, b[i], carry, s[i + j]);
    var s' := s[i + j := n % BASE];
    var p := Pow(BASE, i + j);
    LittleSame(s, s', i + j);
    LittlePush(s', i + j);
    LittlePush(s0, i + j);
    LittlePush(b, i);
    CarryStep(Little(s[..i + j]), Little(s0[..i + j]) + pj * (Pow(BASE, j) * Little(b[..i])), carry, n, p);
    PowNext(i + j);
    PowAdd(BASE, j, i);
    RowTerm(s0[i + j], pj, b[i], Pow(BASE, j), Pow(BASE, i), Little(b[..i]));
  }

  lemma RowTerm(x: int, pj: int, d: int, u: int, v: int, low: int)
    ensures (x + pj * d) * (u * v) + pj * (u * low) == x * (u * v) + pj * (u * (low + d * v))
  {
    calc {
      pj * (u * (low + d * v));
      pj * (u * low + u * d * v);
      pj * (u * low) + pj * d * (u * v);
    }
    Distribute(x, pj * d, u * v);
  }

  lemma RowCut(pj: int, u: int, v: int, low: int, hi: int)
    ensures pj * (u * (low + v * hi)) == pj * (u * low) + pj * hi * (u * v)
  {
    calc {
      pj * (u * (low + v * hi));
      pj * (u * low + u * v * hi);
      pj * (u * low) + pj * hi * (u * v);
    }
  }

  /** The limbs of b that the row leaves out only matter above the width. */
  lemma RowWraps(sum: int, carry: int, t: int, pj: int, u: int, v: int, low: int, hi: int, whole: int, m: nat)
    requires 0 <= sum < m == u * v && sum + carry * m == t + pj * (u * low) && whole == low + v * hi
    ensures sum == (t + pj * (u * whole)) % m
  {
    RowCut(pj, u, v, low, hi);
    Distribute(carry, pj * hi, m);
    WrapsTo(sum, t + pj * (u * whole), carry + pj * hi, m);
  }

  lemma RowSum(s0: seq<int>, s: seq<int>, b: seq<int>, pj: int, j: nat, i: nat, carry: int)
    requires Row(s0, s, b, pj, j, i, carry) && i + j == |s|
    ensures 0 <= Little(s) < Top(|s|)
            && Little(s) + carry * Top(|s|) == Little(s0) + pj * (Pow(BASE, j) * Little(b[..i]))
  {
    hide Pow, Little;
    assert s[..i + j] == s && s0[..i + j] == s0;
    LittleRange(s);
  }

  lemma RowEnd(s0: seq<int>, s: seq<int>, b: seq<int>, pj: int, j: nat, i: nat, carry: int)
    requires Row(s0, s, b, pj, j, i, carry) && i + j == |s|
    ensures Little(s) == (Little(s0) + pj * (Pow(BASE, j) * Little(b))) % Top(|s|)
  {
    hide Pow, Little, Row, Top;
    RowSum(s0, s, b, pj, j, i, carry);
    RowSizes(s0, s, b, pj, j, i, carry);
    TopPow(|s|);
    LittleSplit(b, i);
    PowAdd(BASE, j, i);
    RowWraps(Little(s), carry, Little(s0), pj, Pow(BASE, j), Pow(BASE, i), Little(b[..i]), Little(b[i..]), Little(b),
             Top(|s|));
  }

  lemma RowSizes(s0: seq<int>, s: seq<int>, b: seq<int>, pj: int, j: nat, i: nat, carry: int)
    requires Row(s0, s, b, pj, j, i, carry)
    ensures |s| == |s0| == |b| && Digits(s, BASE)
  {
  }

  lemma NextRowMod(v: int, x: int, d: int, q: int, b: int, m: nat)
    requires m > 0 && v == x * b % m
    ensures (v + d * (q * b)) % m == (x + d * q) * b % m
  {
    Distribute(x, d * q, b);
    MulAssociates(d, q, b);
    ModPlus(x * b, d * (q * b), m);
  }

  /** One row more of the product, modulo the width. */
  lemma NextRow(s0: seq<int>, p: seq<int>, j: nat, b: int, m: nat)
    requires j < |p| && m > 0 && Little(s0) == Little(p[..j]) * b % m
    ensures (Little(s0) + p[j] * (Pow(BASE, j) * b)) % m == Little(p[..j + 1]) * b % m
  {
    hide Pow, Little;
    LittlePush(p, j);
    NextRowMod(Little(s0), Little(p[..j]), p[j], Pow(BASE, j), b, m);
  }

  lemma ModPlus(x: int, y: int, m: nat)
    requires m > 0
    ensures (x % m + y) % m == (x + y) % m
  {
    assert x == x / m * m + x % m;
    DivAdd(x % m + y, m, x / m);
  }

  // ---------- the object ----------

  class BaseUint {
    const pn: array<int>

    ghost predicate Valid()
      reads pn
    {
      Digits(pn[..], BASE)
    }

    ghost function Value(): int
      reads pn
    {
      Little(pn[..])
    }

    constructor (width: nat)
      ensures Valid() && fresh(pn) && pn.Length == width && Value() == 0
    {
      pn := new int[width](_ => 0);
      new;
      LittleZeros(pn[..]);
    }

    constructor Copy(b: BaseUint)
      requires b.Valid()
      ensures Valid() && fresh(pn) && pn[..] == b.pn[..]
    {
      pn := new int[b.pn.Length];
      new;
      for i := 0 to b.pn.Length
        invariant forall k :: 0 <= k < i ==> pn[k] == b.pn[k]
      {
        pn[i] := b.pn[i];
      }
      assert pn[..] == b.pn[..];
    }

    /** Addition wraps at the width; b may be the object itself. */
    method Add(b: BaseUint)
      requires Valid() && b.Valid() && b.pn.Length == pn.Length
      modifies pn
      ensures Valid() && Value() == (old(Value()) + old(b.Value())) % Top(pn.Length)
    {
      hide Pow, Little, Adding;
      ghost var s0, t0 := pn[..], b.pn[..];
      var carry: int := 0;
      AddStart(s0, t0);
      for i := 0 to pn.Length
        invariant Adding(s0, t0, pn[..], i, carry)
        invariant forall k :: i <= k < pn.Length ==> b.pn[k] == t0[k]
      {
        AddStep(s0, t0, pn[..], i, carry);
        var n := carry + pn[i] + b.pn[i];
        pn[i] := n % BASE;
        carry := n / BASE;
      }
      AddEnd(s0, t0, pn[..], carry);
      AddDigits(s0, t0, pn[..], pn.Length, carry);
    }

    method Increment()
      requires Valid()
      modifies pn
      ensures Valid() && Value() == (old(Value()) + 1) % Top(pn.Length)
    {
      hide Pow, Little;
      ghost var s0 := pn[..];
      RippleStart(s0, 1);
      var i := 0;
      while i < pn.Length
        invariant Rippling(s0, pn[..], i, 1)
      {
        RippleStep(s0, pn[..], i, 1);
        pn[i] := if pn[i] + 1 == BASE then 0 else pn[i] + 1;
        if pn[i] != 0 {
          InRange(pn[..], Little(s0) + 1);
          return;
        }
        i := i + 1;
      }
      RippleOut(s0, pn[..], 1);
    }

    method Decrement()
      requires Valid()
      modifies pn
      ensures Valid() && Value() == (old(Value()) - 1) % Top(pn.Length)
    {
      hide Pow, Little;
      ghost var s0 := pn[..];
      RippleStart(s0, -1);
      var i := 0;
      while i < pn.Length
        invariant Rippling(s0, pn[..], i, -1)
      {
        RippleStep(s0, pn[..], i, -1);
        pn[i] := if pn[i] == 0 then BASE - 1 else pn[i] - 1;
        if pn[i] != BASE - 1 {
          InRange(pn[..], Little(s0) - 1);
          return;
        }
        i := i + 1;
      }
      RippleOut(s0, pn[..], -1);
    }

    /** Two's complement. */
    method Negate() returns (r: BaseUint)
      requires Valid()
      ensures r.Valid() && fresh(r) && fresh(r.pn) && r.pn.Length == pn.Length
      ensures r.Value() == -Value() % Top(pn.Length)
    {
      hide Pow, Little;
      r := Not();
      ComplementValue(pn[..]);
      ghost var v, m := r.Value(), Top(pn.Length);
      r.Increment();
      DivAdd(-Value(), m, 1);
    }

    method Not() returns (r: BaseUint)
      requires Valid()
      ensures r.Valid() && fresh(r) && fresh(r.pn) && r.pn[..] == Complement(pn[..])
    {
      r := new BaseUint(pn.Length);
      for i := 0 to pn.Length
        invariant forall k :: 0 <= k < i ==> r.pn[k] == BASE - 1 - pn[k]
      {
        r.pn[i] := BASE - 1 - pn[i];
      }
    }

    /** Subtraction adds the negation; it wraps below zero. */
    method Subtract(b: BaseUint)
      requires Valid() && b.Valid() && b.pn.Length == pn.Length
      modifies pn
      ensures Valid() && Value() == (old(Value()) - old(b.Value())) % Top(pn.Length)
    {
      hide Pow, Little;
      var minus := b.Negate();
      ModPlus(-b.Value(), Value(), Top(pn.Length));
      Add(minus);
    }

    method CompareTo(b: BaseUint) returns (r: int)
      requires Valid() && b.Valid() && b.pn.Length == pn.Length
      ensures r == if Value() < b.Value() then -1 else if Value() > b.Value() then 1 else 0
    {
      hide Pow, Little;
      var i := pn.Length;
      while i > 0
        invariant 0 <= i <= pn.Length && forall k :: i <= k < pn.Length ==> pn[k] == b.pn[k]
      {
        i := i - 1;
        if pn[i] < b.pn[i] {
          LessAt(pn[..], b.pn[..], i);
          return -1;
        }
        if pn[i] > b.pn[i] {
          LessAt(b.pn[..], pn[..], i);
          return 1;
        }
      }
      assert pn[..] == b.pn[..];
      return 0;
    }

    method Bits() returns (n: nat)
      requires Valid()
      ensures IsBits(Value(), n)
    {
      hide Pow, Little, Two;
      var pos := pn.Length;
      while pos > 0
        invariant 0 <= pos <= pn.Length && forall k :: pos <= k < pn.Length ==> pn[k] == 0
      {
        pos := pos - 1;
        if pn[pos] != 0 {
          Two32();
          var nbits: nat := 31;
          while nbits > 0
            invariant nbits <= 31 && pn[pos] < Two(nbits + 1)
          {
            BitTest(pn[pos], nbits);
            if pn[pos] / Two(nbits) % 2 == 1 {
              BitsAt(pn[..], pos, nbits);
              return 32 * pos + nbits + 1;
            }
            nbits := nbits - 1;
          }
          TwoOne();
          BitsAt(pn[..], pos, 0);
          return 32 * pos + 1;
        }
      }
      LittleZeros(pn[..]);
      return 0;
    }

    method ShiftLeft(shift: nat)
      requires Valid()
      modifies pn
      ensures Valid() && Value() == old(Value()) * Two(shift) % Top(pn.Length)
    {
      hide Pow, Little, Two, LeftStep;
      var a := pn[..];
      Clear();
      var k, n := shift / 32, shift % 32;
      LeftStart(a, pn[..], k, n);
      for i := 0 to pn.Length
        invariant ShiftingLeft(a, pn[..], i, k, n)
      {
        ShiftLeftStep(a, pn[..], i, k, n);
        MoveUp(a[i], i, k, n);
      }
      ShiftLeftDone(a, pn[..], k, n);
    }

    method MoveUp(a: nat, i: nat, k: nat, n: nat)
      requires a < BASE && n < 32 && ZeroFrom(pn[..], i + k + 1) && (i + k < pn.Length ==> 0 <= pn[i + k] < Two(n))
      modifies pn
      ensures pn[..] == LeftStep(old(pn[..]), a, i, k, n)
    {
      hide Two;
      SplitShift(a, n);
      if i + k + 1 < pn.Length && n != 0 {
        pn[i + k + 1] := Or(a / Two(32 - n), pn[i + k + 1], n);
      }
      if i + k < pn.Length {
        pn[i + k] := Or(pn[i + k], a * Two(n) % BASE, n);
      }
    }

    method ShiftRight(shift: nat)
      requires Valid()
      modifies pn
      ensures Valid() && Value() == old(Value()) / Two(shift)
    {
      hide Pow, Little, Two, RightStep;
      var a := pn[..];
      Clear();
      var k, n := shift / 32, shift % 32;
      RightStart(a, pn[..], k, n);
      for i := 0 to pn.Length
        invariant ShiftingRight(a, pn[..], i, k, n)
      {
        ShiftRightStep(a, pn[..], i, k, n);
        MoveDown(a[i], i, k, n);
      }
      ShiftRightDone(a, pn[..], k, n);
    }

    method MoveDown(a: nat, i: nat, k: nat, n: nat)
      requires a < BASE && n < 32 && i < pn.Length && ZeroFrom(pn[..], i - k)
      requires i - k - 1 >= 0 ==> 0 <= pn[i - k - 1] < Two(32 - n)
      modifies pn
      ensures pn[..] == RightStep(old(pn[..]), a, i, k, n)
    {
      hide Two;
      RightSplit(a, n);
      if i - k - 1 >= 0 && n != 0 {
        pn[i - k - 1] := Or(pn[i - k - 1], a * Two(32 - n) % BASE, 32 - n);
      }
      if i - k >= 0 {
        pn[i - k] := Or(a / Two(n), pn[i - k], 32 - n);
      }
    }

    method Clear()
      modifies pn
      ensures Valid() && Value() == 0 && ZeroFrom(pn[..], 0)
    {
      for i := 0 to pn.Length
        invariant forall k :: 0 <= k < i ==> pn[k] == 0
      {
        pn[i] := 0;
      }
      LittleZeros(pn[..]);
    }

    method Multiply(b: BaseUint)
      requires Valid() && b.Valid() && b.pn.Length == pn.Length
      modifies pn
      ensures Valid() && Value() == old(Value()) * old(b.Value()) % Top(pn.Length)
    {
      hide Pow, Little, Row;
      var a := new BaseUint(pn.Length);
      assert pn[..][..0] == [];
      ProductStart(pn[..], b.pn[..]);
      for j := 0 to pn.Length
        invariant a.Valid() && a.Value() == Little(pn[..][..j]) * b.Value() % Top(pn.Length)
        invariant pn[..] == old(pn[..]) && b.pn[..] == old(b.pn[..])
      {
        NextRow(a.pn[..], pn[..], j, b.Value(), Top(pn.Length));
        a.AddRow(pn[j], b, j);
      }
      assert pn[..][..pn.Length] == pn[..];
      Assign(a);
    }

    method AddRow(pj: nat, b: BaseUint, j: nat)
      requires Valid() && b.Valid() && b.pn.Length == pn.Length && b.pn != pn && pj < BASE && j < pn.Length
      modifies pn
      ensures Valid() && Value() == (old(Value()) + pj * (Pow(BASE, j) * b.Value())) % Top(pn.Length)
    {
      hide Pow, Little, Row;
      ghost var s0 := pn[..];
      var carry: int := 0;
      RowStart(s0, b.pn[..], pj, j);
      for i := 0 to pn.Length - j
        invariant Row(s0, pn[..], b.pn[..], pj, j, i, carry)
      {
        RowStep(s0, pn[..], b.pn[..], pj, j, i, carry);
        var n := carry + pn[i + j] + pj * b.pn[i];
        pn[i + j] := n % BASE;
        carry := n / BASE;
      }
      RowEnd(s0, pn[..], b.pn[..], pj, j, pn.Length - j, carry);
      RowSizes(s0, pn[..], b.pn[..], pj, j, pn.Length - j, carry);
    }

    method Assign(b: BaseUint)
      requires b.Valid() && b.pn.Length == pn.Length && b.pn != pn
      modifies pn
      ensures Valid() && pn[..] == b.pn[..]
    {
      for i := 0 to pn.Length
        invariant forall k :: 0 <= k < i ==> pn[k] == b.pn[k]
      {
        pn[i] := b.pn[i];
      }
      assert pn[..] == b.pn[..];
    }
  }

  lemma ProductStart(s: seq<int>, b: seq<int>)
    ensures Little(s[..0]) * Little(b) % Top(|s|) == 0
  {
    hide Pow;
    assert s[..0] == [];
    DivModUnique(0, Top(|s|), 0, 0);
  }

  lemma AddStart(s0: seq<int>, t0: seq<int>)
    requires |s0| == |t0| && Digits(s0, BASE)
    ensures Adding(s0, t0, s0, 0, 0)
  {
    assert s0[..0] == [] && t0[..0] == [];
  }

  lemma AddDigits(s0: seq<int>, t0: seq<int>, s: seq<int>, i: nat, carry: int)
    requires Adding(s0, t0, s, i, carry)
    ensures Digits(s, BASE)
  {
  }
}
