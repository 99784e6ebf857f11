/** Shift-and-subtract division of arith_uint256.cpp. */
module ArithDivide {
  import opened Arithmetic
  import opened Radix
  import opened Limbs
  import opened ArithShift
  import opened ArithUint

  /** The divisor is aligned to bit `shift`; q has the quotient bits above it. */
  ghost predicate Dividing(n: int, d: int, q: int, num: int, div: int, shift: int) {
    && -1 <= shift && d > 0 && 0 <= num && n == q * d + num
    && (shift >= 0 ==> div == d * Two(shift)) && num < d * Two(shift + 1)
  }

  /** No quotient bit at or below `shift` is set yet. */
  ghost predicate BitsFree(s: seq<int>, shift: int) {
    shift >= 0 ==>
      && shift / 32 < |s| && (forall k :: 0 <= k < shift / 32 ==> s[k] == 0)
      && s[shift / 32] % Two(shift % 32 + 1) == 0
  }

  lemma DivideStep(n: int, d: int, q: int, num: int, div: int, shift: nat)
    requires Dividing(n, d, q, num, div, shift)
    ensures num >= div ==> Dividing(n, d, q + Two(shift), num - div, div / 2, shift - 1)
    ensures num < div ==> Dividing(n, d, q, num, div / 2, shift - 1)
  {
    hide Two;
    TwoOne();
    TwoAdd(1, shift);
    DoubleProduct(d, Two(shift), Two(shift + 1));
    Distribute(q, Two(shift), d);
    if shift > 0 {
      TwoAdd(1, shift - 1);
      DoubleProduct(d, Two(shift - 1), Two(shift));
    }
  }

  lemma DoubleProduct(d: int, x: int, y: int)
    requires y == 2 * x
    ensures d * y == 2 * (d * x)
  {
  }

  lemma DivideStart(n: int, d: int, shift: nat)
    requires 0 <= n < d * Two(shift + 1) && d > 0
    ensures Dividing(n, d, 0, n, d * Two(shift), shift)
  {
  }

  lemma DivideDone(n: int, d: int, q: int, num: int, div: int)
    requires Dividing(n, d, q, num, div, -1)
    ensures q == n / d && num == n % d
  {
    hide Two;
    TwoOne();
    DivModUnique(n, d, q, num);
  }

  lemma TwoMonotone(m: nat, n: nat)
    requires m <= n
    ensures Two(m) <= Two(n)
  {
    PowMonotone(2, m, n);
  }

  /** Alignment loses no bit of the divisor. */
  lemma Aligned(n: int, d: int, nb: nat, db: nat, m: nat, w: nat)
    requires IsBits(n, nb) && IsBits(d, db) && 0 <= n < m && 0 < d && m == Two(32 * w) && 0 < db <= nb
    ensures d * Two(nb - db) < m && n < d * Two(nb - db + 1) && nb - db < 32 * w
  {
    hide Two;
    var shift := nb - db;
    if 32 * w <= nb - 1 {
      TwoMonotone(32 * w, nb - 1);
    }
    TwoMonotone(nb, 32 * w);
    TwoAdd(db, shift);
    MulStrict(d, Two(db), Two(shift), Two(shift));
    TwoAdd(db - 1, shift + 1);
    MulMonotone(Two(db - 1), d, Two(shift + 1));
  }

  lemma SmallQuotient(n: int, d: int, nb: nat, db: nat)
    requires IsBits(n, nb) && IsBits(d, db) && 0 <= n && 0 < d && nb < db
    ensures n / d == 0 && n % d == n
  {
    hide Two;
    TwoMonotone(nb, db - 1);
    DivModUnique(n, d, 0, n);
  }

  lemma FreeStart(s: seq<int>, shift: nat)
    requires shift / 32 < |s| && ZeroFrom(s, 0)
    ensures BitsFree(s, shift)
  {
    hide Two;
    DivModUnique(0, Two(shift % 32 + 1), 0, 0);
  }

  /** Setting the bit adds it to the value and leaves the lower bits free. */
  lemma FreeStep(s: seq<int>, shift: nat, bit: bool)
    requires Digits(s, BASE) && BitsFree(s, shift)
    ensures var j, r := shift / 32, shift % 32;
            var x := s[j] + if bit then Two(r) else 0;
            && 0 <= x < BASE && BitsFree(s[j := x], shift - 1)
            && Little(s[j := x]) == Little(s) + if bit then Two(shift) else 0
  {
    hide Two, Pow, Little;
    var j, r := shift / 32, shift % 32;
    var x := s[j] + if bit then Two(r) else 0;
    LittleUpdate(s, j, x);
    TopIsTwo(j);
    TopPow(j);
    TwoAdd(r, 32 * j);
    FreeBit(s[j], r);
    if r == 0 && j > 0 {
      DivModUnique(0, Two(32), 0, 0);
    }
  }

  lemma FreeBit(a: nat, r: nat)
    requires a < BASE && r < 32 && a % Two(r + 1) == 0
    ensures a + Two(r) < BASE && (a + Two(r)) % Two(r) == 0 && a % Two(r) == 0
  {
    hide Two;
    TwoOne();
    TwoAdd(1, r);
    TwoAdd(r + 1, 31 - r);
    Two32();
    var p, k, q := Two(r + 1), a / Two(r + 1), Two(31 - r);
    assert a == k * p;
    if k >= q {
      MulMonotone(q, k, p);
    }
    MulMonotone(k + 1, q, p);
    Distribute(k, 1, p);
    HalfStep(k, Two(r));
    DivModUnique(a, Two(r), 2 * k, 0);
    DivModUnique(a + Two(r), Two(r), 2 * k + 1, 0);
  }

  lemma HalfStep(k: int, h: int)
    ensures k * (2 * h) == (2 * k) * h && (2 * k + 1) * h == k * (2 * h) + h
  {
  }

  method SetBit(a: BaseUint, shift: nat)
    requires a.Valid() && BitsFree(a.pn[..], shift)
    modifies a.pn
    ensures a.Valid() && a.Value() == old(a.Value()) + Two(shift) && BitsFree(a.pn[..], shift - 1)
  {
    hide Two, Pow, Little;
    FreeStep(a.pn[..], shift, true);
    BitBelow(shift % 32);
    a.pn[shift / 32] := Or(Two(shift % 32), a.pn[shift / 32], shift % 32 + 1);
  }

  lemma BitBelow(r: nat)
    ensures Two(r) < Two(r + 1)
  {
  }

  lemma NoWrap(x: int, m: nat)
    requires 0 <= x < m
    ensures x % m == x
  {
    DivModUnique(x, m, 0, x);
  }

  /** Subtracts the aligned divisor if it fits, records the bit, and moves the divisor down. */
  method DivideRound(a: BaseUint, num: BaseUint, div: BaseUint, shift: nat, ghost n: int, ghost d: int)
    requires a.pn != num.pn && a.pn != div.pn && num.pn != div.pn && a.pn.Length == num.pn.Length == div.pn.Length
    requires a.Valid() && num.Valid() && div.Valid() && BitsFree(a.pn[..], shift)
    requires Dividing(n, d, a.Value(), num.Value(), div.Value(), shift)
    modifies a.pn, num.pn, div.pn
    ensures a.Valid() && num.Valid() && div.Valid() && BitsFree(a.pn[..], shift - 1)
    ensures Dividing(n, d, a.Value(), num.Value(), div.Value(), shift - 1)
  {
    hide Two, Pow, Little, BitsFree, Dividing;
    DivideStep(n, d, a.Value(), num.Value(), div.Value(), shift);
    TwoOne();
    LittleRange(num.pn[..]);
    LittleRange(div.pn[..]);
    var order := num.CompareTo(div);
    if order >= 0 {
      NoWrap(num.Value() - div.Value(), Top(a.pn.Length));
      num.Subtract(div);
      SetBit(a, shift);
    } else {
      KeepFree(a.pn[..], shift);
    }
    div.ShiftRight(1);
  }

  /** a becomes the quotient and the copy `num` is left with the remainder; the object is zero
      when the divisor is. */
  method Divide(a: BaseUint, b: BaseUint) returns (byZero: bool, num: BaseUint)
    requires a.Valid() && b.Valid() && a.pn.Length == b.pn.Length
    modifies a.pn
    ensures a.Valid() && num.Valid() && fresh(num) && fresh(num.pn)
    ensures byZero <==> old(b.Value()) == 0
    ensures byZero ==> a.Value() == 0
    ensures !byZero ==> a.Value() == old(a.Value()) / old(b.Value()) && num.Value() == old(a.Value()) % old(b.Value())
  {
    hide Two, Pow, Little, BitsFree, Dividing;
    ghost var n, d, w := a.Value(), b.Value(), a.pn.Length;
    LittleRange(a.pn[..]);
    LittleRange(b.pn[..]);
    TopIsTwo(w);
    var div := new BaseUint.Copy(b);
    num := new BaseUint.Copy(a);
    a.Clear();
    var numBits := num.Bits();
    var divBits := div.Bits();
    if divBits == 0 {
      return true, num;
    }
    byZero := false;
    if divBits > numBits {
      SmallQuotient(n, d, numBits, divBits);
      return;
    }
    var shift: int := numBits - divBits;
    Aligned(n, d, numBits, divBits, Top(w), w);
    NoWrap(d * Two(shift), Top(w));
    div.ShiftLeft(shift);
    DivideStart(n, d, shift);
    FreeStart(a.pn[..], shift);
    while shift >= 0
      invariant fresh(div.pn) && fresh(num.pn) && num.pn != div.pn && a.pn.Length == num.pn.Length == div.pn.Length
      invariant a.Valid() && num.Valid() && div.Valid() && BitsFree(a.pn[..], shift)
      invariant -1 <= shift && Dividing(n, d, a.Value(), num.Value(), div.Value(), shift)
      decreases shift
    {
      DivideRound(a, num, div, shift, n, d);
      shift := shift - 1;
    }
    DivideDone(n, d, a.Value(), num.Value(), div.Value());
  }

  lemma KeepFree(s: seq<int>, shift: nat)
    requires Digits(s, BASE) && BitsFree(s, shift)
    ensures BitsFree(s, shift - 1)
  {
    hide Two, Little, Pow;
    FreeStep(s, shift, false);
    assert s[shift / 32 := s[shift / 32] + 0] == s;
  }
}
