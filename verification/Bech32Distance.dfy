/** What the choice of the generator promises: any three wrong symbols are detected, up to a distance of 1023
    symbols. What the checksum does not notice is zero at three consecutive powers of e, and three terms cannot
    cancel at all three. */
module Bech32Distance {
  import opened Options
  import opened Bech32
  import opened Bech32Codec
  import opened Bech32Field
  import opened Bech32Roots

  // ---------- three terms ----------

  lemma {:induction false} IterCommutes(l: Map, m: Map, w: Elem, n: nat)
    requires Commute(l, m)
    ensures Iter(l, Apply(m, w), n) == Apply(m, Iter(l, w, n))
  {
    hide Apply;
    if n > 0 {
      IterCommutes(l, m, w, n - 1);
    }
  }

  /** Powers of a product of commuting maps. */
  lemma {:induction false} IterProduct(l: Map, m: Map, w: Elem, n: nat)
    requires Commute(l, m)
    ensures Iter(Compose(l, m), w, n) == Iter(l, Iter(m, w, n), n)
  {
    hide Apply, Compose;
    if n > 0 {
      IterProduct(l, m, w, n - 1);
      var v := Iter(m, w, n - 1);
      ComposeApplies(l, m, Iter(l, v, n - 1));
      IterCommutes(l, m, v, n - 1);
    }
  }

  /** e^998 and e^999 are e and e^2 times e^997, and so are their powers. */
  lemma RootPowers(w: Elem, n: nat)
    ensures var x := Iter(R997, w, n);
            Iter(R998, w, n) == Iter(E1, x, n) && Iter(R999, w, n) == Iter(E1, Iter(E1, x, n), n)
  {
    hide Apply, Compose, Iter, Commute;
    ProductER();
    ProductRE();
    Product999();
    SameProduct(E1, R997);
    SameProduct(E1, E1);
    CommuteProduct(E1, E1, R997);
    IterProduct(E1, R997, w, n);
    IterProduct(E1, R998, w, n);
  }

  lemma {:induction false} RootInjective(w: Elem, n: nat)
    requires Iter(R997, w, n) == NIL
    ensures w == NIL
  {
    hide Apply, Compose;
    if n > 0 {
      var v := Iter(R997, w, n - 1);
      Product0();
      ComposeApplies(R26, R997, v);
      IdApplies(v);
      ApplyNil(R26);
      RootInjective(w, n - 1);
    }
  }

  /** What e^a + 1 takes to zero is zero. */
  lemma MovedSum(x: Elem, a: nat)
    requires 0 < a < 1023 && Plus(Iter(E1, x, a), x) == NIL
    ensures x == NIL
  {
    hide Iter, Plus;
    PlusZero(Iter(E1, x, a), x);
    PowerMoves(x, a);
  }

  /** From two sums that vanish the common term drops out. */
  lemma DropCommon(a: Elem, b: Elem, c: Elem, d: Elem, z: Elem)
    requires Plus(Plus(a, b), z) == NIL && Plus(Plus(c, d), z) == NIL
    ensures Plus(a, c) == Plus(b, d)
  {
    hide Plus;
    PlusZero(Plus(a, b), z);
    PlusZero(Plus(c, d), z);
    PlusNil(z);
    PlusCross(a, b, c, d);
    PlusZero(Plus(a, c), Plus(b, d));
  }

  /** Three terms that cancel at three consecutive powers are all zero: a Vandermonde argument with the
      operators e^a and e^b in place of numbers. */
  lemma ThreeCancel(x: Elem, y: Elem, z: Elem, a: nat, b: nat)
    requires 0 < b < a < 1023
    requires Plus(Plus(x, y), z) == NIL
    requires Plus(Plus(Iter(E1, x, a), Iter(E1, y, b)), z) == NIL
    requires Plus(Plus(Iter(E1, Iter(E1, x, a), a), Iter(E1, Iter(E1, y, b), b)), z) == NIL
    ensures x == NIL && y == NIL && z == NIL
  {
    hide Iter, Plus;
    var xa, yb := Iter(E1, x, a), Iter(E1, y, b);
    var w := Plus(xa, x);
    DropCommon(xa, yb, x, y, z);
    DropCommon(Iter(E1, xa, a), Iter(E1, yb, b), xa, yb, z);
    IterPlus(E1, xa, x, a);
    IterPlus(E1, yb, y, b);
    assert Iter(E1, w, a) == Iter(E1, w, b);
    SameMove(w, a, b);
    MovedSum(x, a);
    MovedSum(y, b);
    PlusNil(z);
    PlusNil(NIL);
  }

  lemma SameMove(w: Elem, a: nat, b: nat)
    requires b < a < 1023 && Iter(E1, w, a) == Iter(E1, w, b)
    ensures w == NIL
  {
    hide Iter, Plus;
    var v := Iter(E1, w, a - b);
    IterAdd(E1, w, a - b, b);
    IterPlus(E1, v, w, b);
    PlusNil(Iter(E1, w, b));
    PowerInjective(Plus(v, w), b);
    MovedSum(w, a - b);
  }

  // ---------- three errors ----------

  /** Everything outside these three positions is zero. */
  predicate OnlyAt(v: seq<Symbol>, p: nat, q: nat, r: nat) {
    p < q < r < |v| && forall i :: 0 <= i < |v| && i != p && i != q && i != r ==> v[i] == ZERO
  }

  lemma ZerosBetween(v: seq<Symbol>, i: nat, j: nat)
    requires i <= j <= |v| && forall k :: i <= k < j ==> v[k] == ZERO
    ensures AllZero(v[i..j])
  {
  }

  /** Zeros after a prefix multiply its value. */
  lemma ValueShift(l: Map, v: seq<Symbol>, i: nat, j: nat)
    requires i <= j <= |v| && forall k :: i <= k < j ==> v[k] == ZERO
    ensures Value(l, v[..j]) == Iter(l, Value(l, v[..i]), j - i)
  {
    hide Value, Iter, Plus;
    assert v[..j] == v[..i] + v[i..j];
    ZerosBetween(v, i, j);
    ValueAppend(l, v[..i], v[i..j]);
    ValueZeros(l, v[i..j]);
    PlusNil(Iter(l, Value(l, v[..i]), j - i));
  }

  lemma ValueNext(l: Map, v: seq<Symbol>, i: nat)
    requires i < |v|
    ensures Value(l, v[..i + 1]) == Plus(Apply(l, Value(l, v[..i])), Embed(v[i]))
  {
    hide Apply, Plus, Embed;
    assert v[..i + 1][..i] == v[..i];
  }

  /** Up to the last of three positions the value is the sum of three terms. */
  lemma ThreeTerms(l: Map, v: seq<Symbol>, p: nat, q: nat, r: nat)
    requires OnlyAt(v, p, q, r)
    ensures Value(l, v[..r + 1]) ==
            Plus(Plus(Iter(l, Embed(v[p]), r - p), Iter(l, Embed(v[q]), r - q)), Embed(v[r]))
  {
    hide Value, Iter, Plus, Apply, Embed;
    assert v[..0] == [];
    ValueShift(l, v, 0, p);
    ValueZeros(l, []);
    IterNil(l, p);
    ApplyNil(l);
    ValueNext(l, v, p);
    PlusNil(Embed(v[p]));
    assert Value(l, v[..p + 1]) == Embed(v[p]);
    ValueShift(l, v, p + 1, q);
    ValueNext(l, v, q);
    IterNext(l, Embed(v[p]), q - p - 1);
    var two := Value(l, v[..q + 1]);
    assert two == Plus(Iter(l, Embed(v[p]), q - p), Embed(v[q]));
    ValueShift(l, v, q + 1, r);
    ValueNext(l, v, r);
    IterNext(l, two, r - q - 1);
    IterPlus(l, Iter(l, Embed(v[p]), q - p), Embed(v[q]), r - q);
    IterAdd(l, Embed(v[p]), q - p, r - q);
  }

  lemma IterNext(l: Map, w: Elem, n: nat)
    ensures Apply(l, Iter(l, w, n)) == Iter(l, w, n + 1)
  {
  }

  /** The value up to the last position is zero already when the whole value is. */
  lemma NilBefore(v: seq<Symbol>, r: nat, l: Map)
    requires IsRoot(l) && r < |v| && (forall i :: r < i < |v| ==> v[i] == ZERO) && Value(l, v) == NIL
    ensures Value(l, v[..r + 1]) == NIL
  {
    hide Value, Iter, Apply, IsRoot;
    assert v[..|v|] == v;
    ValueShift(l, v, r + 1, |v|);
    IsOneOf(l);
    RootPowers(Value(l, v[..r + 1]), |v| - (r + 1));
    AnyRootInjective(l, Value(l, v[..r + 1]), |v| - (r + 1));
  }

  lemma AnyRootInjective(l: Map, w: Elem, n: nat)
    requires IsRoot(l) && Iter(l, w, n) == NIL
    ensures w == NIL
  {
    hide Iter, Apply, IsRoot;
    IsOneOf(l);
    RootPowers(w, n);
    var x := Iter(R997, w, n);
    if l == R998 {
      PowerInjective(x, n);
    } else if l == R999 {
      PowerInjective(Iter(E1, x, n), n);
      PowerInjective(x, n);
    }
    RootInjective(w, n);
  }

  /** Three symbols less than 1023 apart never cancel out. */
  lemma ThreeSymbols(v: seq<Symbol>, p: nat, q: nat, r: nat)
    requires AllFiveBit(v) && OnlyAt(v, p, q, r) && r - p < 1023 && Poly(Word(0), v) == Word(0)
    ensures AllZero(v)
  {
    hide Value, Iter, Plus, Apply, Embed, Poly, AllFiveBit;
    forall l: Map | IsRoot(l)
      ensures Plus(Plus(Iter(l, Embed(v[p]), r - p), Iter(l, Embed(v[q]), r - q)), Embed(v[r])) == NIL
    {
      UnnoticedIsNil(l, v);
      NilBefore(v, r, l);
      ThreeTerms(l, v, p, q, r);
    }
    var a, b := r - p, r - q;
    RootPowers(Embed(v[p]), a);
    RootPowers(Embed(v[q]), b);
    assert IsRoot(R997) && IsRoot(R998) && IsRoot(R999);
    ThreeCancel(Iter(R997, Embed(v[p]), a), Iter(R997, Embed(v[q]), b), Embed(v[r]), a, b);
    RootInjective(Embed(v[p]), a);
    RootInjective(Embed(v[q]), b);
    EmbedNil(v[p]);
    EmbedNil(v[q]);
    EmbedNil(v[r]);
  }

  /** Two lists of symbols that differ in at most three places less than 1023 apart have different remainders. */
  lemma RemaindersDiffer(c: Word, x: seq<Symbol>, y: seq<Symbol>, p: nat, q: nat, r: nat)
    requires |x| == |y| && AllFiveBit(x) && AllFiveBit(y) && p < q < r < |x| && r - p < 1023
    requires forall i :: 0 <= i < |x| && i != p && i != q && i != r ==> x[i] == y[i]
    requires Poly(c, x) == Poly(c, y)
    ensures x == y
  {
    hide Poly, Xor, SymbolXor, FiveBit;
    PolyXor(c, c, x, y);
    XorSelf(c);
    XorSelf(Poly(c, x));
    var z := SymbolsXor(x, y);
    forall i | 0 <= i < |x| ensures FiveBit(z[i]) && (z[i] == ZERO <==> x[i] == y[i]) {
      SymbolXorZero(x[i], y[i]);
    }
    ThreeSymbols(z, p, q, r);
  }

  /** Main theorem. Two lists of values of one string that differ in at most three symbols less than 1023
      apart never both verify: any three wrong symbols are detected. */
  lemma ThreeErrorsDetected(e: Encoding, hrp: string, x: seq<Symbol>, y: seq<Symbol>, p: nat, q: nat, r: nat)
    requires |x| == |y| && AllFiveBit(x) && AllFiveBit(y) && p < q < r < |x| && r - p < 1023
    requires forall i :: 0 <= i < |x| && i != p && i != q && i != r ==> x[i] == y[i]
    requires Verifies(e, hrp, x) && Verifies(e, hrp, y)
    ensures x == y
  {
    hide Poly, FiveBit, Expanded;
    PolyAppend(Word(1), Expanded(hrp), x);
    PolyAppend(Word(1), Expanded(hrp), y);
    RemaindersDiffer(Poly(Word(1), Expanded(hrp)), x, y, p, q, r);
  }

  // ---------- errors in the prefix ----------

  lemma BackToInt(a: int)
    requires 0 <= a < 32
    ensures (a as bv8) as int == a
  {
    assert a == 0 || a == 1 || a == 2 || a == 3 || a == 4 || a == 5 || a == 6 || a == 7 || a == 8 || a == 9
           || a == 10 || a == 11 || a == 12 || a == 13 || a == 14 || a == 15 || a == 16 || a == 17 || a == 18
           || a == 19 || a == 20 || a == 21 || a == 22 || a == 23 || a == 24 || a == 25 || a == 26 || a == 27
           || a == 28 || a == 29 || a == 30 || a == 31;
  }

  lemma SameInt(a: int, b: int)
    requires 0 <= a < 32 && 0 <= b < 32 && a as bv8 == b as bv8
    ensures a == b
  {
    BackToInt(a);
    BackToInt(b);
  }

  lemma SmallSymbol(a: int)
    requires 0 <= a < 32
    ensures FiveBit(Symbol(a as bv8))
  {
    BackToInt(a);
  }

  /** A byte is its high and its low bits. */
  lemma HighLow(c: char, d: char)
    requires c < 256 as char && d < 256 as char && High(c) == High(d) && Low(c) == Low(d)
    ensures c == d
  {
    var a, b := c as int, d as int;
    SameInt(a % 256 / 32, b % 256 / 32);
    SameInt(a % 32, b % 32);
    FromParts(a, b);
  }

  lemma FromParts(a: int, b: int)
    requires 0 <= a < 256 && 0 <= b < 256 && a % 256 / 32 == b % 256 / 32 && a % 32 == b % 32
    ensures a == b
  {
  }

  predicate Bytes(s: string) { forall i :: 0 <= i < |s| ==> s[i] < 256 as char }

  lemma ExpandedFiveBit(hrp: string)
    ensures AllFiveBit(Expanded(hrp))
  {
    hide FiveBit;
    forall c: char ensures FiveBit(High(c)) && FiveBit(Low(c)) {
      SmallSymbol(c as int % 256 / 32);
      SmallSymbol(c as int % 32);
    }
    NoneFiveBit();
  }

  lemma NoneFiveBit()
    ensures FiveBit(ZERO)
  {
  }

  /** The expansion of the prefix tells the prefix. */
  lemma ExpandedInjective(a: string, b: string)
    requires Bytes(a) && Bytes(b) && Expanded(a) == Expanded(b)
    ensures a == b
  {
    hide High, Low;
    var u, v := Expanded(a), Expanded(b);
    assert |a| == |b|;
    forall i | 0 <= i < |a| ensures a[i] == b[i] {
      assert u[i] == High(a[i]) && v[i] == High(b[i]);
      assert u[i + |a| + 1] == Low(a[i]) && v[i + |a| + 1] == Low(b[i]);
      HighLow(a[i], b[i]);
    }
  }

  /** One wrong character of the prefix and one wrong symbol after it are detected: a character of the prefix is
      expanded to two symbols. */
  lemma PrefixErrorDetected(e: Encoding, hrp: string, other: string, x: seq<Symbol>, y: seq<Symbol>, i: nat, j: nat)
    requires Bytes(hrp) && Bytes(other) && i < |hrp| == |other|
    requires |x| == |y| && AllFiveBit(x) && AllFiveBit(y) && j < |x|
    requires forall k :: 0 <= k < |hrp| && k != i ==> hrp[k] == other[k]
    requires forall k :: 0 <= k < |x| && k != j ==> x[k] == y[k]
    requires 2 * |hrp| + 1 + |x| <= 1023 && Verifies(e, hrp, x) && Verifies(e, other, y)
    ensures hrp == other && x == y
  {
    hide Poly, FiveBit, High, Low;
    var n := |hrp|;
    var u, v := Expanded(hrp) + x, Expanded(other) + y;
    ExpandedFiveBit(hrp);
    ExpandedFiveBit(other);
    RemaindersDiffer(Word(1), u, v, i, n + 1 + i, 2 * n + 1 + j);
    assert Expanded(hrp) == u[..2 * n + 1] && Expanded(other) == v[..2 * n + 1];
    ExpandedInjective(hrp, other);
    assert x == u[2 * n + 1..] && y == v[2 * n + 1..];
  }

  /** Characters that differ only in case stand for one value. */
  lemma SameValue(a: string, b: string, i: nat)
    requires Readable(a) && Readable(b) && i < |a| == |b| && LowerCase(a[i]) == LowerCase(b[i])
    ensures Values(a)[i] == Values(b)[i]
  {
    hide Rev, Letter, LowerCase, FiveBit;
    ValuesFiveBit(a);
    ValuesFiveBit(b);
    var x, y := Values(a), Values(b);
    assert Letters(x)[i] == LowerCase(a[i]) && Letters(y)[i] == LowerCase(b[i]);
    RevLetter(x[i]);
    RevLetter(y[i]);
  }

  /** The same promise for what follows a common separator. */
  lemma DataFourApart(e: Encoding, hrp: string, a: string, b: string, p: nat, q: nat, r: nat)
    requires Readable(a) && Readable(b) && |a| == |b| && p < q < r < |a| && r - p < 1023
    requires Verifies(e, hrp, Values(a)) && Verifies(e, hrp, Values(b))
    requires forall i :: 0 <= i < |a| && i != p && i != q && i != r ==> LowerCase(a[i]) == LowerCase(b[i])
    ensures Lowered(a) == Lowered(b)
  {
    hide Verifies, Rev, LowerCase, FiveBit;
    ValuesFiveBit(a);
    ValuesFiveBit(b);
    var x, y := Values(a), Values(b);
    forall i | 0 <= i < |x| && i != p && i != q && i != r ensures x[i] == y[i] {
      SameValue(a, b, i);
    }
    ThreeErrorsDetected(e, hrp, x, y, p, q, r);
  }

  lemma SamePrefix(s: string, t: string, pos: nat)
    requires pos <= |s| == |t| && forall i :: 0 <= i < pos ==> LowerCase(s[i]) == LowerCase(t[i])
    ensures Lowered(s[..pos]) == Lowered(t[..pos])
  {
    hide LowerCase;
  }

  /** The same promise for strings, case aside: two strings that decode with one checksum constant and differ
      in at most three characters after a common separator are the same. */
  lemma StringsFourApart(s: string, t: string, p: nat, q: nat, r: nat)
    requires Decoded(s).Some? && Decoded(t).Some? && Decoded(s).value.encoding == Decoded(t).value.encoding
    requires |s| == |t| && 0 <= LastOne(s) == LastOne(t) < p < q < r < |s|
    requires forall i :: 0 <= i < |s| && i != p && i != q && i != r ==> LowerCase(s[i]) == LowerCase(t[i])
    ensures Lowered(s) == Lowered(t)
  {
    hide Decoded, LastOne, Verifies, LowerCase, Readable, Values, Lowered;
    var pos := LastOne(s);
    var first := pos + 1;
    DecodedParts(s);
    DecodedParts(t);
    ShortEnough(s);
    SamePrefix(s, t, pos);
    var d := Decoded(s).value;
    DataFourApart(d.encoding, d.hrp, s[first..], t[first..], p - first, q - first, r - first);
    LoweredParts(s, pos);
    LoweredParts(t, pos);
  }

  lemma ShortEnough(s: string)
    requires Decoded(s).Some?
    ensures |s| <= MAX_LENGTH
  {
    hide CharactersOk, LastOne, Verified;
  }
}
