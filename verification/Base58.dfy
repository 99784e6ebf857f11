/** Base58 of base58.cpp: the buffer sizes, the in-place conversion, both directions. */
module Base58 {
  import opened Arithmetic
  import opened Radix

  // ---------- the buffers are large enough ----------

  lemma Pow58()
    ensures Pow(58, 0) == 1
    ensures Pow(58, 1) == 58
    ensures Pow(58, 2) == 3364
    ensures Pow(58, 3) == 195112
    ensures Pow(58, 4) == 11316496
    ensures Pow(58, 5) == 656356768
    ensures Pow(58, 6) == 38068692544
    ensures Pow(58, 7) == 2207984167552
    ensures Pow(58, 8) == 128063081718016
    ensures Pow(58, 9) == 7427658739644928
    ensures Pow(58, 10) == 430804206899405824
    ensures Pow(58, 11) == 24986644000165537792
    ensures Pow(58, 12) == 1449225352009601191936
    ensures Pow(58, 13) == 84055070416556869132288
    ensures Pow(58, 14) == 4875194084160298409672704
    ensures Pow(58, 15) == 282761256881297307761016832
  {
    assert Pow(58, 1) == 58 * Pow(58, 0);
    assert Pow(58, 2) == 58 * Pow(58, 1);
    assert Pow(58, 3) == 58 * Pow(58, 2);
    assert Pow(58, 4) == 58 * Pow(58, 3);
    assert Pow(58, 5) == 58 * Pow(58, 4);
    assert Pow(58, 6) == 58 * Pow(58, 5);
    assert Pow(58, 7) == 58 * Pow(58, 6);
    assert Pow(58, 8) == 58 * Pow(58, 7);
    assert Pow(58, 9) == 58 * Pow(58, 8);
    assert Pow(58, 10) == 58 * Pow(58, 9);
    assert Pow(58, 11) == 58 * Pow(58, 10);
    assert Pow(58, 12) == 58 * Pow(58, 11);
    assert Pow(58, 13) == 58 * Pow(58, 12);
    assert Pow(58, 14) == 58 * Pow(58, 13);
    assert Pow(58, 15) == 58 * Pow(58, 14);
  }

  lemma Pow256()
    ensures Pow(256, 0) == 1
    ensures Pow(256, 1) == 256
    ensures Pow(256, 2) == 65536
    ensures Pow(256, 3) == 16777216
    ensures Pow(256, 4) == 4294967296
    ensures Pow(256, 5) == 1099511627776
    ensures Pow(256, 6) == 281474976710656
    ensures Pow(256, 7) == 72057594037927936
    ensures Pow(256, 8) == 18446744073709551616
    ensures Pow(256, 9) == 4722366482869645213696
    ensures Pow(256, 10) == 1208925819614629174706176
    ensures Pow(256, 11) == 309485009821345068724781056
  {
    assert Pow(256, 1) == 256 * Pow(256, 0);
    assert Pow(256, 2) == 256 * Pow(256, 1);
    assert Pow(256, 3) == 256 * Pow(256, 2);
    assert Pow(256, 4) == 256 * Pow(256, 3);
    assert Pow(256, 5) == 256 * Pow(256, 4);
    assert Pow(256, 6) == 256 * Pow(256, 5);
    assert Pow(256, 7) == 256 * Pow(256, 6);
    assert Pow(256, 8) == 256 * Pow(256, 7);
    assert Pow(256, 9) == 256 * Pow(256, 8);
    assert Pow(256, 10) == 256 * Pow(256, 9);
    assert Pow(256, 11) == 256 * Pow(256, 10);
  }

  function EncodeSize(n: nat): nat { n * 138 / 100 + 1 }
  function DecodeSize(n: nat): nat { n * 733 / 1000 + 1 }

  /** 138/100 is above log 256 / log 58, so n bytes fit. */
  lemma {:induction false} EncodeRoom(n: nat)
    ensures Pow(256, n) < Pow(58, EncodeSize(n))
  {
    hide Pow;
    Pow58();
    Pow256();
    if n >= 8 {
      EncodeRoom(n - 8);
      PowAdd(256, n - 8, 8);
      PowAdd(58, EncodeSize(n - 8), 11);
      MulStrict(Pow(256, n - 8), Pow(58, EncodeSize(n - 8)), Pow(256, 8), Pow(58, 11));
      PowMonotone(58, EncodeSize(n - 8) + 11, EncodeSize(n));
    }
  }

  lemma {:induction false} Blocks(q: nat)
    ensures Pow(58, 15 * q) <= Pow(256, 11 * q) && (q > 0 ==> Pow(58, 15 * q) < Pow(256, 11 * q))
  {
    hide Pow;
    Pow58();
    Pow256();
    if q > 0 {
      Blocks(q - 1);
      PowAdd(58, 15, 15 * (q - 1));
      PowAdd(256, 11, 11 * (q - 1));
      MulStrict(Pow(58, 15), Pow(256, 11), Pow(58, 15 * (q - 1)), Pow(256, 11 * (q - 1)));
    }
  }

  lemma SmallRest(r: nat)
    requires 0 < r < 15
    ensures Pow(58, r) < Pow(256, (3 * r + 3) / 4)
  {
    hide Pow;
    Pow58();
    Pow256();
  }

  lemma DecodeRoomSmall(n: nat)
    requires n < 71
    ensures Pow(58, n) < Pow(256, DecodeSize(n))
  {
    hide Pow;
    var q, r := n / 15, n % 15;
    Blocks(q);
    PowAdd(58, r, 15 * q);
    var g := (3 * r + 3) / 4;
    PowAdd(256, g, 11 * q);
    if r > 0 {
      SmallRest(r);
      MulStrict(Pow(58, r), Pow(256, g), Pow(58, 15 * q), Pow(256, 11 * q));
    } else {
      Pow58();
      Pow256();
    }
    PowMonotone(256, g + 11 * q, DecodeSize(n));
  }

  lemma BigStep()
    ensures Pow(58, 71) <= Pow(256, 52)
  {
    hide Pow;
    Pow58();
    Pow256();
    PowAdd(58, 15, 15);
    PowAdd(58, 30, 30);
    PowAdd(58, 60, 11);
    PowAdd(256, 11, 11);
    PowAdd(256, 22, 22);
    PowAdd(256, 44, 8);
    assert Pow(58, 30) == 79953928393091004080532279173738402825689466587316224;
    assert Pow(58, 60) ==
           6392630665487523829925705590507004456832030712891733088851577912861189652777515686114891080333114973618176;
    assert Pow(256, 22) == 95780971304118053647396689196894323976171195136475136;
    assert Pow(256, 44) ==
           9173994463960286046443283581208347763186259956673124494950355357547691504353939232280074212440502746218496;
  }

  /** 733/1000 is above log 58 / log 256, so n characters fit. */
  lemma {:induction false} DecodeRoom(n: nat)
    ensures Pow(58, n) < Pow(256, DecodeSize(n))
  {
    hide Pow;
    if n < 71 {
      DecodeRoomSmall(n);
    } else {
      BigStep();
      DecodeRoom(n - 71);
      PowAdd(58, n - 71, 71);
      PowAdd(256, DecodeSize(n - 71), 52);
      MulStrict(Pow(58, n - 71), Pow(256, DecodeSize(n - 71)), Pow(58, 71), Pow(256, 52));
      PowMonotone(256, DecodeSize(n - 71) + 52, DecodeSize(n));
    }
  }

  // ---------- multiply and add, in place ----------

  /** The last `length` cells hold a number without leading zeros, the others are zero. */
  predicate Canonical(s: seq<int>, b: nat, length: nat) {
    && Digits(s, b) && length <= |s|
    && (forall i :: 0 <= i < |s| - length ==> s[i] == 0)
    && (length > 0 ==> s[|s| - length] != 0)
  }

  lemma CanonicalVal(s: seq<int>, b: nat, length: nat)
    requires b > 1 && Canonical(s, b, length)
    ensures Val(s, b) == Val(s[|s| - length..], b) >= 0 && s[|s| - length..] == ToBase(Val(s, b), b)
  {
    hide Val, Pow;
    var hi, lo := s[..|s| - length], s[|s| - length..];
    assert s == hi + lo;
    ValAppend(hi, lo, b);
    ValZeros(hi, b);
    ToBaseUnique(lo, b);
  }

  /** The carry balances what has been written against what has been read. */
  ghost predicate Balanced(s0: seq<int>, s: seq<int>, b: nat, mul: nat, add: nat, i: nat, carry: int) {
    && |s| == |s0| && i <= |s| && carry >= 0
    && Digits(s, b) && s[..|s| - i] == s0[..|s| - i]
    && Val(s[|s| - i..], b) + carry * Pow(b, i) == Val(s0[|s| - i..], b) * mul + add
  }

  lemma ValHead(d: int, t: seq<int>, b: nat)
    ensures Val([d] + t, b) == d * Pow(b, |t|) + Val(t, b)
  {
    ValAppend([d], t, b);
    assert [d][..0] == [];
  }

  lemma BalanceStep(s0: seq<int>, s: seq<int>, b: nat, mul: nat, add: nat, i: nat, carry: int)
    requires b > 1 && Balanced(s0, s, b, mul, add, i, carry) && i < |s|
    ensures var k := |s| - 1 - i;
            var x := carry + mul * s[k];
            Balanced(s0, s[k := x % b], b, mul, add, i + 1, x / b)
  {
    hide Val;
    var k := |s| - 1 - i;
    var x := carry + mul * s[k];
    var s' := s[k := x % b];
    assert s[..|s| - i][k] == s0[..|s| - i][k];
    assert s'[..k] == s[..|s| - i][..k] == s0[..|s| - i][..k];
    assert s'[k..] == [x % b] + s[k + 1..] && s0[k..] == [s0[k]] + s0[k + 1..];
    ValHead(x % b, s[k + 1..], b);
    ValHead(s0[k], s0[k + 1..], b);
    StepBalance(Val(s[k + 1..], b), Val(s0[k + 1..], b), s0[k], carry, mul, add, b, Pow(b, i));
    MulNonneg(mul, s[k]);
    DivNonneg(x, b);
    assert Pow(b, i + 1) == b * Pow(b, i);
  }

  lemma MulNonneg(a: nat, c: nat)
    ensures a * c >= 0
  {
  }

  lemma DivNonneg(x: nat, b: nat)
    requires b > 0
    ensures x / b >= 0
  {
  }

  lemma StepBalance(v: int, v0: int, d: int, carry: int, mul: int, add: int, b: nat, p: int)
    requires b > 0 && v + carry * p == v0 * mul + add
    ensures var x := carry + mul * d;
            (x % b) * p + v + (x / b) * (b * p) == (d * p + v0) * mul + add
  {
    var x := carry + mul * d;
    calc {
      (x % b) * p + v + (x / b) * (b * p);
      (x / b * b + x % b) * p + v;
      x * p + v;
      carry * p + mul * d * p + v;
      (d * p + v0) * mul + add;
    }
  }

  lemma NoCarryLeft(v: int, carry: int, p: int, total: int)
    requires v >= 0 && carry >= 0 && p > 0 && v + carry * p == total < p
    ensures carry == 0
  {
    if carry > 0 {
      MulMonotone(1, carry, p);
    }
  }

  /** The number in the array becomes itself times mul plus add. */
  method MulAdd(a: array<int>, b: nat, mul: nat, add: nat, length: nat) returns (newLength: nat)
    requires b > 1 && mul > 0 && Canonical(a[..], b, length)
    requires Val(a[..], b) * mul + add < Pow(b, a.Length)
    modifies a
    ensures Canonical(a[..], b, newLength)
    ensures Val(a[..], b) == old(Val(a[..], b)) * mul + add
  {
    hide Pow, Val;
    ghost var s0 := a[..];
    var n := a.Length;
    var carry: int := add;
    var i := 0;
    BalanceStart(s0, b, mul, add);
    while (carry != 0 || i < length) && i < n
      invariant Balanced(s0, a[..], b, mul, add, i, carry)
      invariant i > length ==> carry != 0 || a[n - i] != 0
      decreases n - i
    {
      BalanceStep(s0, a[..], b, mul, add, i, carry);
      FreshDigit(s0, a[..], b, mul, add, i, carry, length);
      carry := carry + mul * a[n - 1 - i];
      a[n - 1 - i] := carry % b;
      carry := carry / b;
      i := i + 1;
    }
    BalanceEnd(s0, a[..], b, mul, add, i, carry, length);
    newLength := i;
  }

  lemma BalanceStart(s0: seq<int>, b: nat, mul: nat, add: nat)
    requires Digits(s0, b)
    ensures Balanced(s0, s0, b, mul, add, 0, add)
  {
    assert s0[|s0|..] == [];
  }

  /** Beyond the old length a cell was zero, so it now holds the carry's own digit. */
  lemma FreshDigit(s0: seq<int>, s: seq<int>, b: nat, mul: nat, add: nat, i: nat, carry: int, length: nat)
    requires b > 1 && Balanced(s0, s, b, mul, add, i, carry) && i < |s| && Canonical(s0, b, length)
    requires carry != 0 || i < length
    ensures i >= length ==> var x := carry + mul * s[|s| - 1 - i]; x / b != 0 || x % b != 0
  {
    hide Val, Pow;
    if i >= length {
      var k := |s| - 1 - i;
      assert s[..|s| - i][k] == s0[..|s| - i][k] == 0;
      assert mul * s[k] == 0;
    }
  }

  lemma BalanceEnd(s0: seq<int>, s: seq<int>, b: nat, mul: nat, add: nat, i: nat, carry: int, length: nat)
    requires b > 1 && mul > 0 && Canonical(s0, b, length) && Balanced(s0, s, b, mul, add, i, carry)
    requires i == |s| || (carry == 0 && i >= length)
    requires i > length ==> carry != 0 || s[|s| - i] != 0
    requires Val(s0, b) * mul + add < Pow(b, |s0|)
    ensures carry == 0 && Canonical(s, b, i) && Val(s, b) == Val(s0, b) * mul + add
  {
    hide Pow, Val;
    var lo, lo0 := s[|s| - i..], s0[|s| - i..];
    ValRange(lo, b);
    if i == |s| {
      assert lo == s && lo0 == s0;
      NoCarryLeft(Val(s, b), carry, Pow(b, i), Val(s0, b) * mul + add);
    }
    assert carry * Pow(b, i) == 0;
    HighZeros(s0, s, b, i, length);
    if i == length && length > 0 {
      StillLong(s0, lo, b, mul, add, length);
    }
  }

  lemma HighZeros(s0: seq<int>, s: seq<int>, b: nat, i: nat, length: nat)
    requires Canonical(s0, b, length) && |s| == |s0| && length <= i <= |s| && s[..|s| - i] == s0[..|s| - i]
    ensures forall k :: 0 <= k < |s| - i ==> s[k] == 0
    ensures Val(s, b) == Val(s[|s| - i..], b) && Val(s0, b) == Val(s0[|s| - i..], b)
  {
    hide Val, Pow;
    var hi := s[..|s| - i];
    forall k | 0 <= k < |s| - i ensures s[k] == 0 {
      assert hi[k] == s0[..|s| - i][k];
    }
    assert s == hi + s[|s| - i..] && s0 == hi + s0[|s| - i..];
    ValAppend(hi, s[|s| - i..], b);
    ValAppend(hi, s0[|s| - i..], b);
    ValZeros(hi, b);
  }

  /** A number that did not shrink keeps its leading digit. */
  lemma StillLong(s0: seq<int>, lo: seq<int>, b: nat, mul: nat, add: nat, length: nat)
    requires b > 1 && mul > 0 && Canonical(s0, b, length) && length > 0 && |lo| == length && Digits(lo, b)
    requires Val(lo, b) == Val(s0, b) * mul + add
    ensures lo[0] != 0
  {
    hide Val;
    CanonicalVal(s0, b, length);
    ValPositive(s0[|s0| - length..], b);
    MulMonotone(1, mul, Val(s0, b));
    assert lo == [lo[0]] + lo[1..];
    ValHead(lo[0], lo[1..], b);
    ValRange(lo[1..], b);
  }
}
