/** The compact target format of arith_uint256.cpp and the work it stands for (chain.cpp). */
module Compact {
  import opened Arithmetic
  import opened Radix
  import opened Limbs
  import opened ArithShift
  import opened ArithUint
  import opened ArithDivide

  const WIDTH: nat := 8
  const EXPONENT: nat := 0x100_0000    // the size is above these 24 bits
  const SIGN: nat := 0x80_0000

  function Size(c: nat): nat { c / EXPONENT }
  function Mantissa(c: nat): nat { c % SIGN }

  /** The number a compact value denotes, sign aside, before any wrap. */
  function Target(c: nat): nat {
    hide Pow;
    if Size(c) <= 3 then
      DivShrinks(Mantissa(c), Pow(256, 3 - Size(c)));
      Mantissa(c) / Pow(256, 3 - Size(c))
    else MulNat(Mantissa(c), Pow(256, Size(c) - 3))
  }

  function MulNat(a: nat, b: nat): nat {
    assert a * b >= 0 by { MulMonotone(0, a, b); }
    a * b
  }

  predicate Negative(c: nat) {
    (if Size(c) <= 3 then Mantissa(c) / Pow(256, 3 - Size(c)) else Mantissa(c)) != 0 && c / SIGN % 2 == 1
  }

  lemma {:induction false} Pow256Two(n: nat)
    ensures Pow(256, n) == Two(8 * n)
  {
    if n > 0 {
      Pow256Two(n - 1);
      TwoAdd(8, 8 * (n - 1));
      assert Two(8) == 256;
    }
  }

  lemma Pow256Small()
    ensures Pow(256, 0) == 1 && Pow(256, 1) == 256 && Pow(256, 2) == 0x1_0000 && Pow(256, 3) == EXPONENT
  {
  }

  lemma WidthTop()
    ensures Top(WIDTH) == Pow(256, 32)
  {
    hide Pow, Two;
    TopIsTwo(WIDTH);
    Pow256Two(32);
  }

  // ---------- the overflow flag ----------

  predicate OverflowFlag(word: nat, size: nat) {
    word != 0 && (size > 34 || (word > 0xff && size > 33) || (word > 0xffff && size > 32))
  }

  /** The three tests say exactly that the number does not fit. */
  lemma OverflowExact(c: nat)
    ensures OverflowFlag(if Size(c) <= 3 then Target(c) else Mantissa(c), Size(c)) <==> Target(c) >= Pow(256, 32)
  {
    hide Pow;
    var size, word := Size(c), Mantissa(c);
    Pow256Small();
    if size <= 3 {
      TargetSmall(c);
      PowMonotone(256, 3, 32);
    } else if size > 34 {
      PowMonotone(256, 32, size - 3);
      if word != 0 {
        MulMonotone(1, word, Pow(256, size - 3));
      }
    } else {
      var k := 35 - size;
      PowAdd(256, k, size - 3);
      CompareScaled(word, Pow(256, k), Pow(256, size - 3));
      if size <= 32 {
        PowMonotone(256, 3, k);
      }
    }
  }

  lemma CompareScaled(x: nat, y: nat, p: nat)
    requires p > 0
    ensures x * p >= y * p <==> x >= y
  {
    if x >= y {
      MulMonotone(y, x, p);
    } else {
      MulMonotone(x + 1, y, p);
      Distribute(x, 1, p);
    }
  }

  lemma TargetSmall(c: nat)
    requires Size(c) <= 3
    ensures Target(c) <= Mantissa(c) < SIGN
  {
    hide Pow;
    DivShrinks(Mantissa(c), Pow(256, 3 - Size(c)));
  }

  lemma DivShrinks(a: nat, p: nat)
    requires p > 0
    ensures 0 <= a / p <= a
  {
    if a / p > a {
      MulMonotone(1, p, a / p);
    }
  }

  // ---------- SetCompact ----------

  method SetWord(x: BaseUint, b: nat)
    requires x.pn.Length == WIDTH && b < BASE * BASE
    modifies x.pn
    ensures x.Valid() && x.Value() == b
  {
    x.pn[0] := b % BASE;
    x.pn[1] := b / BASE;
    for i := 2 to WIDTH
      invariant x.pn[0] == b % BASE && x.pn[1] == b / BASE && forall k :: 2 <= k < i ==> x.pn[k] == 0
    {
      x.pn[i] := 0;
    }
    LowLimbs(x.pn[..], b);
  }

  lemma LowLimbs(s: seq<int>, b: nat)
    requires |s| == WIDTH && s[0] == b % BASE && s[1] == b / BASE && forall k :: 2 <= k < WIDTH ==> s[k] == 0
    ensures Little(s) == b
  {
    hide Pow, Little;
    LittleSplit(s, 2);
    LittleZeros(s[2..]);
    assert Pow(BASE, 2) * 0 == 0;
    LittlePush(s, 1);
    LittlePush(s, 0);
    LittleEmpty(s);
    FirstPowers();
  }

  lemma LittleEmpty(s: seq<int>)
    ensures Little(s[..0]) == 0
  {
    assert s[..0] == [];
  }

  lemma FirstPowers()
    ensures Pow(BASE, 0) == 1 && Pow(BASE, 1) == BASE
  {
  }

  method SetCompact(x: BaseUint, c: nat) returns (negative: bool, overflow: bool)
    requires x.pn.Length == WIDTH && c < BASE
    modifies x.pn
    ensures x.Valid() && x.Value() == Target(c) % Pow(256, 32)
    ensures negative == Negative(c)
    ensures overflow <==> Target(c) >= Pow(256, 32)
  {
    hide Pow, Two;
    var size, word := c / EXPONENT, c % SIGN;
    WidthTop();
    OverflowExact(c);
    if size <= 3 {
      Pow256Two(3 - size);
      DivShrinks(word, Two(8 * (3 - size)));
      word := word / Two(8 * (3 - size));
      SetWord(x, word);
      Pow256Small();
      PowMonotone(256, 3, 32);
      NoWrap(word, Pow(256, 32));
    } else {
      SetWord(x, word);
      Pow256Two(size - 3);
      x.ShiftLeft(8 * (size - 3));
    }
    negative := word != 0 && c / SIGN % 2 == 1;
    overflow := OverflowFlag(word, size);
  }

  // ---------- how many bytes ----------

  function Bytes(v: nat): nat
    decreases v
  {
    if v == 0 then 0 else 1 + Bytes(v / 256)
  }

  lemma {:induction false} BytesRange(v: nat)
    requires v > 0
    ensures Bytes(v) > 0 && Pow(256, Bytes(v) - 1) <= v < Pow(256, Bytes(v))
    decreases v
  {
    if v / 256 > 0 {
      BytesRange(v / 256);
      assert Pow(256, Bytes(v) - 1) == 256 * Pow(256, Bytes(v) - 2);
    }
    assert Pow(256, Bytes(v)) == 256 * Pow(256, Bytes(v) - 1);
  }

  lemma BytesIs(v: nat, n: nat)
    requires n > 0 && Pow(256, n - 1) <= v < Pow(256, n)
    ensures Bytes(v) == n
  {
    hide Pow;
    BytesRange(v);
    if Bytes(v) < n {
      PowMonotone(256, Bytes(v), n - 1);
    } else if Bytes(v) > n {
      PowMonotone(256, n, Bytes(v) - 1);
    }
  }

  lemma BytesOfBits(v: nat, b: nat)
    requires IsBits(v, b)
    ensures (b + 7) / 8 == Bytes(v)
  {
    hide Pow, Two;
    if v > 0 {
      var n := (b + 7) / 8;
      Pow256Two(n - 1);
      Pow256Two(n);
      TwoMonotone(8 * (n - 1), b - 1);
      TwoMonotone(b, 8 * n);
      BytesIs(v, n);
    }
  }

  // ---------- GetCompact ----------

  /** The leading three bytes. */
  function Head(v: nat): nat {
    hide Pow, Bytes;
    if Bytes(v) <= 3 then MulNat(v, Pow(256, 3 - Bytes(v))) else
      DivShrinks(v, Pow(256, Bytes(v) - 3));
      v / Pow(256, Bytes(v) - 3)
  }

  lemma HeadRange(v: nat)
    ensures Head(v) < EXPONENT && (v > 0 ==> Head(v) >= 0x1_0000) && (v == 0 ==> Head(v) == 0)
  {
    hide Pow;
    Pow256Small();
    if v > 0 {
      var n := Bytes(v);
      BytesRange(v);
      if n <= 3 {
        PowAdd(256, n, 3 - n);
        PowAdd(256, n - 1, 3 - n);
        MulStrict(v, Pow(256, n), Pow(256, 3 - n), Pow(256, 3 - n));
        MulMonotone(Pow(256, n - 1), v, Pow(256, 3 - n));
      } else {
        PowAdd(256, 3, n - 3);
        PowAdd(256, 2, n - 3);
        QuotientRange(v, Pow(256, n - 3), Pow(256, 2), Pow(256, 3));
      }
    }
  }

  lemma QuotientRange(v: nat, p: nat, lo: nat, hi: nat)
    requires p > 0 && lo * p <= v < hi * p
    ensures lo <= v / p < hi
  {
    assert v == v / p * p + v % p;
    if v / p < lo {
      MulMonotone(v / p + 1, lo, p);
      Distribute(v / p, 1, p);
    }
    if v / p >= hi {
      MulMonotone(hi, v / p, p);
    }
  }

  /** A head that reaches into the sign bit gives up its last byte. */
  function NormSize(v: nat): nat { if Head(v) >= SIGN then Bytes(v) + 1 else Bytes(v) }
  function NormMantissa(v: nat): nat { if Head(v) >= SIGN then Head(v) / 256 else Head(v) }

  function CompactOf(v: nat, negative: bool): nat {
    NormSize(v) * EXPONENT + (if negative && NormMantissa(v) != 0 then SIGN else 0) + NormMantissa(v)
  }

  lemma CompactFields(v: nat, negative: bool)
    ensures NormMantissa(v) < SIGN && (v > 0 ==> NormMantissa(v) >= 0x8000)
    ensures Size(CompactOf(v, negative)) == NormSize(v) && Mantissa(CompactOf(v, negative)) == NormMantissa(v)
    ensures CompactOf(v, negative) / SIGN % 2 == if negative && NormMantissa(v) != 0 then 1 else 0
  {
    hide Head, NormSize;
    MantissaRange(v);
    FieldsOf(NormSize(v), if negative && NormMantissa(v) != 0 then 1 else 0, NormMantissa(v));
  }

  lemma MantissaRange(v: nat)
    ensures NormMantissa(v) < SIGN && (v > 0 ==> NormMantissa(v) >= 0x8000)
  {
    hide Head;
    HeadRange(v);
  }

  /** Size, sign and mantissa are read back from their places in the word. */
  lemma FieldsOf(size: nat, sign: nat, mantissa: nat)
    requires sign <= 1 && mantissa < SIGN
    ensures var c := size * EXPONENT + sign * SIGN + mantissa;
            c / EXPONENT == size && c % SIGN == mantissa && c / SIGN % 2 == sign
  {
    var c := size * EXPONENT + sign * SIGN + mantissa;
    DivModUnique(c, EXPONENT, size, sign * SIGN + mantissa);
    DivModUnique(c, SIGN, 2 * size + sign, mantissa);
  }

  method GetLow64(x: BaseUint) returns (r: nat)
    requires x.Valid() && x.pn.Length == WIDTH
    ensures x.Value() < BASE * BASE ==> r == x.Value()
  {
    hide Pow, Little;
    r := x.pn[0] + x.pn[1] * BASE;
    ghost var s := x.pn[..];
    LittleSplit(s, 2);
    LittlePush(s, 1);
    LittlePush(s, 0);
    LittleEmpty(s);
    FirstPowers();
    LittleRange(s[2..]);
    assert Pow(BASE, 2) == BASE * BASE by { PowNext(1); }
    if Little(s[2..]) > 0 {
      MulMonotone(1, Little(s[2..]), BASE * BASE);
    }
  }

  /** The size in bytes and the leading three of them. */
  method GetHead(x: BaseUint) returns (size: nat, head: nat)
    requires x.Valid() && x.pn.Length == WIDTH
    ensures x.Value() >= 0 && size == Bytes(x.Value()) && head == Head(x.Value())
  {
    hide Pow, Two, Little, Bytes;
    LittleRange(x.pn[..]);
    var bits := x.Bits();
    BytesOfBits(x.Value(), bits);
    HeadRange(x.Value());
    size := (bits + 7) / 8;
    if size <= 3 {
      SmallValue(x.Value());
      Pow256Two(3 - size);
      var low := GetLow64(x);
      head := low * Two(8 * (3 - size));
    } else {
      var bn := new BaseUint.Copy(x);
      Pow256Two(size - 3);
      bn.ShiftRight(8 * (size - 3));
      head := GetLow64(bn);
    }
  }

  method GetCompact(x: BaseUint, negative: bool) returns (c: nat)
    requires x.Valid() && x.pn.Length == WIDTH
    ensures x.Value() >= 0 && c == CompactOf(x.Value(), negative) < BASE
  {
    hide Pow, Two, Little, Head, Bytes;
    LittleRange(x.pn[..]);
    SizeRange(x.Value());
    HeadRange(x.Value());
    var size;
    size, c := GetHead(x);
    if c / SIGN % 2 == 1 {
      c := c / 256;
      size := size + 1;
    }
    c := size * EXPONENT + c;
    if negative && c % SIGN != 0 {
      c := c + SIGN;
    }
  }

  lemma SmallValue(v: nat)
    requires Bytes(v) <= 3
    ensures v < EXPONENT
  {
    hide Pow;
    Pow256Small();
    if v > 0 {
      BytesRange(v);
      PowMonotone(256, Bytes(v), 3);
    }
  }

  lemma SizeRange(v: nat)
    requires v < Top(WIDTH)
    ensures Bytes(v) <= 32
  {
    hide Pow, Top;
    WidthTop();
    if v > 0 {
      BytesRange(v);
      if Bytes(v) > 32 {
        PowMonotone(256, 32, Bytes(v) - 1);
      }
    }
  }

  // ---------- what the format rounds to ----------

  function Rounded(v: nat): nat { Target(CompactOf(v, false)) }

  /** The weight of the mantissa's last bit. */
  function Unit(v: nat): (u: nat)
    ensures u > 0
  {
    if NormSize(v) <= 3 then 1 else Pow(256, NormSize(v) - 3)
  }

  lemma MulDiv(a: nat, p: nat)
    requires p > 0
    ensures a * p / p == a
  {
    DivModUnique(a * p, p, a, 0);
  }

  lemma DivDiv(v: nat, p: nat, q: nat)
    requires p > 0 && q > 0
    ensures v / p / q == v / (p * q)
  {
    var a := v / p;
    assert v == a * p + v % p;
    assert a == a / q * q + a % q;
    Distribute(a / q * q, a % q, p);
    MulAssociates(a / q, q, p);
    MulPositive(p, q);
    DigitRange(a % q, q, p, v % p);
    assert q * p == p * q;
    DivModUnique(v, p * q, a / q, a % q * p + v % p);
  }

  /** Above three bytes the mantissa is the number in units. */
  lemma MantissaInUnits(v: nat)
    requires NormSize(v) > 3
    ensures NormMantissa(v) == v / Unit(v)
  {
    hide Pow, Bytes;
    Pow256Small();
    var n := Bytes(v);
    if Head(v) >= SIGN {
      if n == 3 {
        assert Head(v) == v;
      } else {
        PowAdd(256, n - 3, 1);
        DivDiv(v, Pow(256, n - 3), 256);
      }
    }
  }

  /** Up to three bytes nothing is lost. */
  lemma SmallExact(v: nat)
    requires NormSize(v) <= 3
    ensures Rounded(v) == v
  {
    hide Pow, CompactOf, Head;
    Pow256Small();
    CompactFields(v, false);
    HeadSmall(v);
    if v == 0 {
      HeadRange(v);
    } else if Bytes(v) == 1 {
      MulDiv(v, 0x1_0000);
      MulDiv(v * 256, 256);
      MulDiv(v, 256);
    } else if Bytes(v) == 2 {
      MulDiv(v, 256);
    }
  }

  lemma HeadSmall(v: nat)
    requires Bytes(v) <= 3
    ensures Head(v) == if Bytes(v) == 3 then v else if Bytes(v) == 2 then v * 256
                       else if Bytes(v) == 1 then v * 0x1_0000 else 0
    ensures Bytes(v) == 0 <==> v == 0
  {
    hide Pow, Bytes;
    Pow256Small();
    BytesZero(v);
  }

  lemma BytesZero(v: nat)
    ensures Bytes(v) == 0 <==> v == 0
  {
  }

  /** The number is cut down to a whole number of units. */
  lemma RoundedUnits(v: nat)
    ensures Rounded(v) == v / Unit(v) * Unit(v) && (Unit(v) > 1 ==> v / Unit(v) == NormMantissa(v) >= 0x8000 && v > 0)
  {
    hide Pow, CompactOf, Head, Bytes;
    CompactFields(v, false);
    if NormSize(v) <= 3 {
      SmallExact(v);
    } else {
      MantissaInUnits(v);
      if v == 0 {
        BytesZero(v);
        HeadRange(v);
      }
    }
  }

  /** Encoding a number in compact form never gains and loses less than a 32768th part. */
  lemma RoundsDown(v: nat)
    requires v > 0
    ensures Rounded(v) <= v && (v - Rounded(v)) * 0x8000 < Rounded(v)
  {
    hide NormSize, NormMantissa, Rounded, Unit;
    var u := Unit(v);
    RoundedUnits(v);
    assert v == v / u * u + v % u;
    if u > 1 {
      MulMonotone(0x8000, v / u, u);
    }
  }

  lemma UnitBytes(v: nat)
    requires Unit(v) > 1
    ensures Bytes(Rounded(v)) == Bytes(v)
  {
    hide Rounded, Head, Bytes;
    var n, u := Bytes(v), Unit(v);
    RoundedUnits(v);
    CompactFields(v, false);
    HeadRange(v);
    RoundsDown(v);
    BytesRange(v);
    Pow256Small();
    if Head(v) >= SIGN {
      PowAdd(256, 1, n - 2);
      MulMonotone(256, NormMantissa(v), u);
    } else {
      PowAdd(256, 2, n - 3);
      MulMonotone(0x1_0000, NormMantissa(v), u);
    }
    BytesIs(Rounded(v), n);
  }

  lemma RoundedHead(v: nat)
    requires Unit(v) > 1
    ensures Head(Rounded(v)) == if Head(v) >= SIGN then NormMantissa(v) * 256 else Head(v)
  {
    hide Pow, Rounded, Bytes;
    var n := Bytes(v);
    UnitBytes(v);
    RoundedUnits(v);
    Pow256Small();
    if Head(v) >= SIGN {
      if n > 3 {
        PowAdd(256, 1, n - 3);
        MulAssociates(NormMantissa(v), 256, Pow(256, n - 3));
        MulDiv(NormMantissa(v) * 256, Pow(256, n - 3));
      }
    } else {
      MulDiv(NormMantissa(v), Pow(256, n - 3));
    }
  }

  /** What has been rounded once is represented exactly. */
  lemma RoundsOnce(v: nat, negative: bool)
    ensures CompactOf(Rounded(v), negative) == CompactOf(v, negative) && Rounded(Rounded(v)) == Rounded(v)
  {
    hide Pow, Head, Bytes, Target;
    RoundedUnits(v);
    if Unit(v) > 1 {
      CompactFields(v, false);
      UnitBytes(v);
      RoundedHead(v);
    } else {
      SmallExactUnit(v);
    }
  }

  lemma SmallExactUnit(v: nat)
    requires Unit(v) == 1
    ensures Rounded(v) == v
  {
    hide Pow, Rounded, NormMantissa;
    RoundedUnits(v);
  }

  /** A compact value made from a 256-bit number is never negative and never overflows. */
  lemma CompactOfFits(v: nat)
    requires v < Pow(256, 32)
    ensures Rounded(v) < Pow(256, 32) && !Negative(CompactOf(v, false))
  {
    hide Pow, Rounded;
    CompactFields(v, false);
    RoundedUnits(v);
    if v > 0 {
      RoundsDown(v);
    } else {
      RoundedZero();
      PowMonotone(256, 0, 32);
    }
  }

  lemma RoundedZero()
    ensures Rounded(0) == 0
  {
    hide Pow;
    HeadRange(0);
    SmallExact(0);
  }

  // ---------- work ----------

  /** The number of hashes a target is expected to take. */
  function Work(c: nat): nat {
    hide Pow, Target;
    if Negative(c) || Target(c) >= Pow(256, 32) || Target(c) == 0 then 0 else
      DivShrinks(Pow(256, 32), Target(c) + 1);
      Pow(256, 32) / (Target(c) + 1)
  }

  /** The quotient is taken without ever holding 2^256. */
  lemma WorkIdentity(t: nat, m: nat)
    requires 0 < t < m
    ensures (m - 1 - t) / (t + 1) + 1 == m / (t + 1) < m
  {
    DivAdd(m - 1 - t, t + 1, 1);
    var q := m / (t + 1);
    assert m == q * (t + 1) + m % (t + 1);
    DivShrinks(m, t + 1);
    MulMonotone(2, t + 1, q);
  }

  /** A target that fits ends in a zero byte or is small, so one more still fits. */
  lemma TargetPlusOne(c: nat)
    requires Target(c) < Pow(256, 32)
    ensures Target(c) + 1 < Pow(256, 32)
  {
    hide Pow;
    Pow256Small();
    if Size(c) <= 3 {
      TargetSmall(c);
      PowMonotone(256, 3, 32);
    } else {
      PowAdd(256, 1, Size(c) - 4);
      PowAdd(256, 1, 31);
      EvenTarget(Mantissa(c), Pow(256, Size(c) - 4));
    }
  }

  lemma EvenTarget(a: nat, p: nat)
    ensures a * (256 * p) == 256 * (a * p)
  {
  }

  /** ~target / (target + 1) + 1, on the limbs. */
  method Quotient(target: BaseUint) returns (work: BaseUint)
    requires target.Valid() && target.pn.Length == WIDTH && 0 < target.Value() && target.Value() + 1 < Top(WIDTH)
    modifies target.pn
    ensures work.Valid() && work.pn.Length == WIDTH && fresh(work) && fresh(work.pn)
    ensures work.Value() == Top(WIDTH) / (old(target.Value()) + 1)
  {
    hide Pow, Little, Top;
    WorkIdentity(target.Value(), Top(WIDTH));
    var one := new BaseUint(WIDTH);
    SetWord(one, 1);
    work := target.Not();
    ComplementValue(target.pn[..]);
    NoWrap(target.Value() + 1, Top(WIDTH));
    target.Add(one);
    var byZero, rest := Divide(work, target);
    NoWrap(work.Value() + 1, Top(WIDTH));
    work.Add(one);
  }

  method GetBlockProof(c: nat) returns (work: BaseUint)
    requires c < BASE
    ensures work.Valid() && work.pn.Length == WIDTH && fresh(work) && fresh(work.pn)
    ensures work.Value() == Work(c)
  {
    hide Pow, Little, Target, Negative, Top;
    var target := new BaseUint(WIDTH);
    var negative, overflow := SetCompact(target, c);
    work := new BaseUint(WIDTH);
    if negative || overflow {
      return;
    }
    NoWrap(Target(c), Pow(256, 32));
    var order := target.CompareTo(work);
    if order == 0 {
      return;
    }
    TargetPlusOne(c);
    WidthTop();
    work := Quotient(target);
  }
}
