/** The field GF(1024) as bech32.cpp uses it to choose its generator: elements a + b * e over GF(32), where
    e is a root of x^2 + {9}x + {23}. Multiplication by a fixed element is a linear map over GF(2), given by
    the images of the ten unit vectors. The one fact needed of e is its order, 1023. */
module Bech32Field {
  import opened Arithmetic

  /** a in the low five bits, b in the high five. */
  datatype Elem = Elem(bits: bv10)

  const NIL := Elem(0)

  function Plus(a: Elem, b: Elem): Elem { Elem(a.bits ^ b.bits) }

  lemma PlusCommutes(a: Elem, b: Elem)
    ensures Plus(a, b) == Plus(b, a)
  {
  }

  lemma PlusAssociates(a: Elem, b: Elem, c: Elem)
    ensures Plus(Plus(a, b), c) == Plus(a, Plus(b, c))
  {
  }

  lemma PlusNil(a: Elem)
    ensures Plus(a, NIL) == a && Plus(NIL, a) == a && Plus(a, a) == NIL
  {
  }

  /** Pairs may be added crosswise. */
  lemma PlusCross(a: Elem, b: Elem, c: Elem, d: Elem)
    ensures Plus(Plus(a, b), Plus(c, d)) == Plus(Plus(a, c), Plus(b, d))
  {
    hide Plus;
    PlusAssociates(a, b, Plus(c, d));
    PlusAssociates(b, c, d);
    PlusCommutes(b, c);
    PlusAssociates(c, b, d);
    PlusAssociates(a, c, Plus(b, d));
  }

  lemma PlusZero(a: Elem, b: Elem)
    ensures Plus(a, b) == NIL <==> a == b
  {
  }

  // ---------- linear maps ----------

  function Mask(i: nat): bv10
    requires i < 10
  {
    if i == 0 then 0x001 else if i == 1 then 0x002 else if i == 2 then 0x004 else if i == 3 then 0x008
    else if i == 4 then 0x010 else if i == 5 then 0x020 else if i == 6 then 0x040 else if i == 7 then 0x080
    else if i == 8 then 0x100 else 0x200
  }

  /** The images of the ten unit vectors. */
  datatype Map = Map(k0: bv10, k1: bv10, k2: bv10, k3: bv10, k4: bv10,
                     k5: bv10, k6: bv10, k7: bv10, k8: bv10, k9: bv10)

  function Column(l: Map, i: nat): bv10
    requires i < 10
  {
    if i == 0 then l.k0 else if i == 1 then l.k1 else if i == 2 then l.k2 else if i == 3 then l.k3
    else if i == 4 then l.k4 else if i == 5 then l.k5 else if i == 6 then l.k6 else if i == 7 then l.k7
    else if i == 8 then l.k8 else l.k9
  }

  /** The image k of a unit, where the vector has that unit. */
  function Pick(w: bv10, unit: bv10, k: bv10): bv10 { if w & unit != 0 then k else 0 }

  predicate IsUnit(m: bv10) {
    m == 0x001 || m == 0x002 || m == 0x004 || m == 0x008 || m == 0x010
    || m == 0x020 || m == 0x040 || m == 0x080 || m == 0x100 || m == 0x200
  }

  lemma MaskIsUnit(i: nat)
    requires i < 10
    ensures IsUnit(Mask(i))
  {
  }

  /** The vector has this unit. */
  predicate Has(w: bv10, m: bv10) { w & m != 0 }

  lemma HasXor(a: bv10, b: bv10, c: bv10, m: bv10)
    requires IsUnit(m) && c == a ^ b
    ensures Has(c, m) <==> (Has(a, m) != Has(b, m))
  {
  }

  lemma HasPlus(a: Elem, b: Elem, m: bv10)
    requires IsUnit(m)
    ensures Has(Plus(a, b).bits, m) <==> (Has(a.bits, m) != Has(b.bits, m))
  {
    hide IsUnit, Has;
    HasXor(a.bits, b.bits, Plus(a, b).bits, m);
  }

  lemma PickHas(w: bv10, m: bv10, k: bv10)
    ensures Elem(Pick(w, m, k)) == if Has(w, m) then Elem(k) else NIL
  {
  }

  lemma PickPlus(a: Elem, b: Elem, m: bv10, k: bv10)
    requires IsUnit(m)
    ensures Elem(Pick(Plus(a, b).bits, m, k)) == Plus(Elem(Pick(a.bits, m, k)), Elem(Pick(b.bits, m, k)))
  {
    hide IsUnit, Plus, Has, Pick;
    HasPlus(a, b, m);
    PickHas(a.bits, m, k);
    PickHas(b.bits, m, k);
    PickHas(Plus(a, b).bits, m, k);
    PlusNil(Elem(k));
    PlusNil(NIL);
  }

  // The image of a vector, from its low and from its high five units.
  function LowImage(l: Map, w: bv10): bv10 {
    Pick(w, 0x001, l.k0) ^ Pick(w, 0x002, l.k1) ^ Pick(w, 0x004, l.k2) ^ Pick(w, 0x008, l.k3) ^ Pick(w, 0x010, l.k4)
  }

  function HighImage(l: Map, w: bv10): bv10 {
    Pick(w, 0x020, l.k5) ^ Pick(w, 0x040, l.k6) ^ Pick(w, 0x080, l.k7) ^ Pick(w, 0x100, l.k8) ^ Pick(w, 0x200, l.k9)
  }

  function Image(l: Map, w: bv10): bv10 { LowImage(l, w) ^ HighImage(l, w) }

  function Apply(l: Map, w: Elem): Elem { Elem(Image(l, w.bits)) }

  function Term(l: Map, w: Elem, i: nat): Elem
    requires i < 10
  {
    Elem(Pick(w.bits, Mask(i), Column(l, i)))
  }

  /** The image of the i lowest units of a vector. */
  function Sum(l: Map, w: Elem, i: nat): Elem
    requires i <= 10
  {
    if i == 0 then NIL else Plus(Sum(l, w, i - 1), Term(l, w, i - 1))
  }

  function Five(a: Elem, b: Elem, c: Elem, d: Elem, e: Elem): Elem {
    Plus(Plus(Plus(Plus(a, b), c), d), e)
  }

  lemma PlusBits(a: bv10, b: bv10, c: bv10)
    requires c == a ^ b
    ensures Elem(c) == Plus(Elem(a), Elem(b))
  {
  }

  lemma XorChain(a: bv10, b: bv10, c: bv10, d: bv10, e: bv10, ab: bv10, abc: bv10, abcd: bv10, abcde: bv10)
    requires ab == a ^ b && abc == ab ^ c && abcd == abc ^ d && abcde == abcd ^ e
    ensures abcde == a ^ b ^ c ^ d ^ e
  {
  }

  lemma FiveXor(a: bv10, b: bv10, c: bv10, d: bv10, e: bv10, s: bv10)
    requires s == a ^ b ^ c ^ d ^ e
    ensures Elem(s) == Five(Elem(a), Elem(b), Elem(c), Elem(d), Elem(e))
  {
    hide Plus;
    var ab := a ^ b;
    var abc := ab ^ c;
    var abcd := abc ^ d;
    var abcde := abcd ^ e;
    XorChain(a, b, c, d, e, ab, abc, abcd, abcde);
    PlusBits(a, b, ab);
    PlusBits(ab, c, abc);
    PlusBits(abc, d, abcd);
    PlusBits(abcd, e, s);
  }

  lemma PlusFive(s: Elem, a: Elem, b: Elem, c: Elem, d: Elem, e: Elem)
    ensures Plus(s, Five(a, b, c, d, e)) == Plus(Five(s, a, b, c, d), e)
  {
    hide Plus;
    PlusAssociates(s, Plus(Plus(Plus(a, b), c), d), e);
    PlusAssociates(s, Plus(Plus(a, b), c), d);
    PlusAssociates(s, Plus(a, b), c);
    PlusAssociates(s, a, b);
  }

  lemma LowTerms(l: Map, w: Elem)
    ensures Elem(LowImage(l, w.bits)) ==
            Five(Term(l, w, 0), Term(l, w, 1), Term(l, w, 2), Term(l, w, 3), Term(l, w, 4))
  {
    hide Pick, Five;
    FiveXor(Pick(w.bits, 0x001, l.k0), Pick(w.bits, 0x002, l.k1), Pick(w.bits, 0x004, l.k2),
            Pick(w.bits, 0x008, l.k3), Pick(w.bits, 0x010, l.k4), LowImage(l, w.bits));
  }

  lemma HighTerms(l: Map, w: Elem)
    ensures Elem(HighImage(l, w.bits)) ==
            Five(Term(l, w, 5), Term(l, w, 6), Term(l, w, 7), Term(l, w, 8), Term(l, w, 9))
  {
    hide Pick, Five;
    FiveXor(Pick(w.bits, 0x020, l.k5), Pick(w.bits, 0x040, l.k6), Pick(w.bits, 0x080, l.k7),
            Pick(w.bits, 0x100, l.k8), Pick(w.bits, 0x200, l.k9), HighImage(l, w.bits));
  }

  lemma LowSum(l: Map, w: Elem)
    ensures Sum(l, w, 5) == Five(Term(l, w, 0), Term(l, w, 1), Term(l, w, 2), Term(l, w, 3), Term(l, w, 4))
  {
    PlusNil(Term(l, w, 0));
    hide Plus, Term;
    assert Sum(l, w, 1) == Term(l, w, 0);
    assert Sum(l, w, 2) == Plus(Sum(l, w, 1), Term(l, w, 1));
    assert Sum(l, w, 3) == Plus(Sum(l, w, 2), Term(l, w, 2));
    assert Sum(l, w, 4) == Plus(Sum(l, w, 3), Term(l, w, 3));
  }

  lemma HighSum(l: Map, w: Elem)
    ensures Sum(l, w, 10) ==
            Plus(Five(Sum(l, w, 5), Term(l, w, 5), Term(l, w, 6), Term(l, w, 7), Term(l, w, 8)), Term(l, w, 9))
  {
    hide Plus, Term;
    assert Sum(l, w, 6) == Plus(Sum(l, w, 5), Term(l, w, 5));
    assert Sum(l, w, 7) == Plus(Sum(l, w, 6), Term(l, w, 6));
    assert Sum(l, w, 8) == Plus(Sum(l, w, 7), Term(l, w, 7));
    assert Sum(l, w, 9) == Plus(Sum(l, w, 8), Term(l, w, 8));
  }

  /** The image of a vector is the sum of the images of its units. */
  lemma ApplyIsSum(l: Map, w: Elem)
    ensures Apply(l, w) == Sum(l, w, 10)
  {
    hide Term, Five, Sum, LowImage, HighImage;
    LowTerms(l, w);
    HighTerms(l, w);
    LowSum(l, w);
    HighSum(l, w);
    PlusFive(Sum(l, w, 5), Term(l, w, 5), Term(l, w, 6), Term(l, w, 7), Term(l, w, 8), Term(l, w, 9));
  }

  lemma TermPlus(l: Map, a: Elem, b: Elem, i: nat)
    requires i < 10
    ensures Term(l, Plus(a, b), i) == Plus(Term(l, a, i), Term(l, b, i))
  {
    hide Plus, Column, Mask, Pick, IsUnit;
    MaskIsUnit(i);
    PickPlus(a, b, Mask(i), Column(l, i));
  }

  lemma {:induction false} SumPlus(l: Map, a: Elem, b: Elem, i: nat)
    requires i <= 10
    ensures Sum(l, Plus(a, b), i) == Plus(Sum(l, a, i), Sum(l, b, i))
  {
    hide Plus, Term;
    if i == 0 {
      PlusNil(NIL);
    } else {
      SumPlus(l, a, b, i - 1);
      TermPlus(l, a, b, i - 1);
      PlusCross(Sum(l, a, i - 1), Sum(l, b, i - 1), Term(l, a, i - 1), Term(l, b, i - 1));
    }
  }

  lemma ApplyPlus(l: Map, a: Elem, b: Elem)
    ensures Apply(l, Plus(a, b)) == Plus(Apply(l, a), Apply(l, b))
  {
    hide Apply, Sum, Plus;
    SumPlus(l, a, b, 10);
    ApplyIsSum(l, a);
    ApplyIsSum(l, b);
    ApplyIsSum(l, Plus(a, b));
  }

  lemma ApplyNil(l: Map)
    ensures Apply(l, NIL) == NIL
  {
    hide Apply, Plus;
    ApplyPlus(l, NIL, NIL);
    PlusNil(NIL);
    PlusNil(Apply(l, NIL));
  }

  /** First m, then l. */
  function Compose(l: Map, m: Map): Map {
    Map(Image(l, m.k0), Image(l, m.k1), Image(l, m.k2), Image(l, m.k3), Image(l, m.k4),
        Image(l, m.k5), Image(l, m.k6), Image(l, m.k7), Image(l, m.k8), Image(l, m.k9))
  }

  lemma ComposeColumn(l: Map, m: Map, i: nat)
    requires i < 10
    ensures Column(Compose(l, m), i) == Image(l, Column(m, i))
  {
    hide Image;
  }

  lemma ComposeTerm(l: Map, m: Map, w: Elem, i: nat)
    requires i < 10
    ensures Term(Compose(l, m), w, i) == Apply(l, Term(m, w, i))
  {
    hide Image, Compose, Column, Mask;
    ComposeColumn(l, m, i);
    ApplyNil(l);
  }

  lemma {:induction false} ComposeSum(l: Map, m: Map, w: Elem, i: nat)
    requires i <= 10
    ensures Sum(Compose(l, m), w, i) == Apply(l, Sum(m, w, i))
  {
    hide Plus, Term, Apply, Compose;
    ApplyNil(l);
    if i > 0 {
      ComposeSum(l, m, w, i - 1);
      ComposeTerm(l, m, w, i - 1);
      ApplyPlus(l, Sum(m, w, i - 1), Term(m, w, i - 1));
    }
  }

  lemma ComposeApplies(l: Map, m: Map, w: Elem)
    ensures Apply(Compose(l, m), w) == Apply(l, Apply(m, w))
  {
    hide Apply, Compose, Sum;
    ComposeSum(l, m, w, 10);
    ApplyIsSum(m, w);
    ApplyIsSum(Compose(l, m), w);
  }

  function Added(a: bv10, b: bv10): bv10 { a ^ b }

  lemma AddedIs(a: bv10, b: bv10)
    ensures Elem(Added(a, b)) == Plus(Elem(a), Elem(b))
  {
  }

  /** The sum of two maps. */
  function Both(l: Map, m: Map): Map {
    Map(Added(l.k0, m.k0), Added(l.k1, m.k1), Added(l.k2, m.k2), Added(l.k3, m.k3), Added(l.k4, m.k4),
        Added(l.k5, m.k5), Added(l.k6, m.k6), Added(l.k7, m.k7), Added(l.k8, m.k8), Added(l.k9, m.k9))
  }

  lemma BothColumn(l: Map, m: Map, i: nat)
    requires i < 10
    ensures Column(Both(l, m), i) == Added(Column(l, i), Column(m, i))
  {
    hide Added;
  }

  lemma BothTerm(l: Map, m: Map, w: Elem, i: nat)
    requires i < 10
    ensures Term(Both(l, m), w, i) == Plus(Term(l, w, i), Term(m, w, i))
  {
    hide Mask, Column, Both, Pick, Has, Plus, Added;
    BothColumn(l, m, i);
    PickHas(w.bits, Mask(i), Column(l, i));
    PickHas(w.bits, Mask(i), Column(m, i));
    PickHas(w.bits, Mask(i), Column(Both(l, m), i));
    AddedIs(Column(l, i), Column(m, i));
    PlusNil(NIL);
  }

  lemma {:induction false} BothSum(l: Map, m: Map, w: Elem, i: nat)
    requires i <= 10
    ensures Sum(Both(l, m), w, i) == Plus(Sum(l, w, i), Sum(m, w, i))
  {
    hide Plus, Term, Both;
    PlusNil(NIL);
    if i > 0 {
      BothSum(l, m, w, i - 1);
      BothTerm(l, m, w, i - 1);
      PlusCross(Sum(l, w, i - 1), Sum(m, w, i - 1), Term(l, w, i - 1), Term(m, w, i - 1));
    }
  }

  lemma BothApplies(l: Map, m: Map, w: Elem)
    ensures Apply(Both(l, m), w) == Plus(Apply(l, w), Apply(m, w))
  {
    hide Apply, Both, Sum, Plus;
    BothSum(l, m, w, 10);
    ApplyIsSum(l, w);
    ApplyIsSum(m, w);
    ApplyIsSum(Both(l, m), w);
  }

  const ID := Map(0x001, 0x002, 0x004, 0x008, 0x010, 0x020, 0x040, 0x080, 0x100, 0x200)

  lemma PickSame(w: bv10, m: bv10)
    requires IsUnit(m)
    ensures Pick(w, m, m) == w & m
  {
  }

  lemma LowSame(w: bv10)
    ensures LowImage(ID, w) == w & 0x01f
  {
    PickSame(w, 0x001);
    PickSame(w, 0x002);
    PickSame(w, 0x004);
    PickSame(w, 0x008);
    PickSame(w, 0x010);
    hide Pick;
  }

  lemma HighSame(w: bv10)
    ensures HighImage(ID, w) == w & 0x3e0
  {
    PickSame(w, 0x020);
    PickSame(w, 0x040);
    PickSame(w, 0x080);
    PickSame(w, 0x100);
    PickSame(w, 0x200);
    hide Pick;
  }

  lemma IdApplies(w: Elem)
    ensures Apply(ID, w) == w
  {
    hide LowImage, HighImage;
    LowSame(w.bits);
    HighSame(w.bits);
  }

  // ---------- powers of e ----------

  // Multiplication by e and by some of its powers.
  const E1 := Map(0x020, 0x040, 0x080, 0x100, 0x200, 0x137, 0x247, 0x1ae, 0x35c, 0x3b1)
  const E2 := Map(0x137, 0x247, 0x1ae, 0x35c, 0x3b1, 0x08b, 0x116, 0x205, 0x12a, 0x254)
  const E3 := Map(0x08b, 0x116, 0x205, 0x12a, 0x254, 0x0ce, 0x19c, 0x311, 0x32b, 0x376)
  const E6 := Map(0x3a6, 0x26c, 0x1f8, 0x3d9, 0x2bb, 0x0b4, 0x141, 0x282, 0x024, 0x048)
  const E12 := Map(0x1ce, 0x39c, 0x231, 0x16b, 0x2d6, 0x175, 0x2c3, 0x0a6, 0x14c, 0x298)
  const E24 := Map(0x3ef, 0x2fe, 0x0f5, 0x1c3, 0x386, 0x3d3, 0x2af, 0x07e, 0x0d5, 0x183)
  const E30 := Map(0x0f0, 0x1c9, 0x392, 0x22d, 0x17a, 0x0de, 0x195, 0x303, 0x326, 0x36c)
  const E31 := Map(0x0de, 0x195, 0x303, 0x326, 0x36c, 0x029, 0x052, 0x08d, 0x11a, 0x21d)
  const E33 := Map(0x017, 0x007, 0x00e, 0x01c, 0x011, 0x2e0, 0x0e0, 0x1c0, 0x380, 0x220)
  const E62 := Map(0x203, 0x126, 0x24c, 0x1b8, 0x359, 0x3d1, 0x2ab, 0x076, 0x0c5, 0x18a)
  const E93 := Map(0x356, 0x3a5, 0x26a, 0x1f4, 0x3c1, 0x06a, 0x0d4, 0x181, 0x302, 0x324)
  const E124 := Map(0x2af, 0x07e, 0x0d5, 0x183, 0x306, 0x2c8, 0x0b0, 0x149, 0x292, 0x02d)
  const E248 := Map(0x02b, 0x056, 0x085, 0x10a, 0x214, 0x057, 0x087, 0x10e, 0x21c, 0x131)
  const E341 := Map(0x16d, 0x2da, 0x0bd, 0x153, 0x28f, 0x18c, 0x318, 0x339, 0x37b, 0x3ff)
  const E682 := Map(0x16c, 0x2d8, 0x0b9, 0x15b, 0x29f, 0x1ac, 0x358, 0x3b9, 0x27b, 0x1ff)

  // Multiplication by e^33 + 1, e^93 + 1 and e^341 + 1, and by their inverses.
  const SUM33 := Map(0x016, 0x005, 0x00a, 0x014, 0x001, 0x2c0, 0x0a0, 0x140, 0x280, 0x020)
  const UNDO33 := Map(0x010, 0x009, 0x012, 0x00d, 0x01a, 0x200, 0x120, 0x240, 0x1a0, 0x340)
  const SUM93 := Map(0x357, 0x3a7, 0x26e, 0x1fc, 0x3d1, 0x04a, 0x094, 0x101, 0x202, 0x124)
  const UNDO93 := Map(0x17b, 0x2df, 0x0b7, 0x147, 0x28e, 0x34c, 0x3b8, 0x279, 0x1fb, 0x3df)
  const SUM341 := Map(0x16c, 0x2d8, 0x0b9, 0x15b, 0x29f, 0x1ac, 0x358, 0x3b9, 0x27b, 0x1ff)
  const UNDO341 := Map(0x16d, 0x2da, 0x0bd, 0x153, 0x28f, 0x18c, 0x318, 0x339, 0x37b, 0x3ff)

  /** Multiplication by {2} in GF(32), whose modulus is b^5 + b^3 + 1. */
  function Twice(v: bv10): bv10 { if v & 0x10 != 0 then (v << 1) ^ 0x29 else v << 1 }

  function Nine(v: bv10): bv10 { Twice(Twice(Twice(v))) ^ v }

  function TwentyThree(v: bv10): bv10 { Twice(Twice(Twice(Twice(v)))) ^ Twice(Twice(v)) ^ Twice(v) ^ v }

  lemma TimesLow(w: bv10)
    ensures LowImage(E1, w) == (w & 0x1f) << 5
  {
  }

  lemma TimesHigh(w: bv10)
    ensures var b := w >> 5;
            HighImage(E1, w) == (Nine(b) << 5) | TwentyThree(b) && TwentyThree(b) < 0x20
  {
  }

  lemma Regrouped(a: bv10, b: bv10, c: bv10)
    requires c < 0x20
    ensures (a << 5) ^ ((b << 5) | c) == ((b ^ a) << 5) | c
  {
  }

  /** e times a + b * e is {23}b + (a + {9}b) * e, because e * e is {9}e + {23}. */
  lemma TimesE(w: bv10)
    ensures var a, b := w & 0x1f, w >> 5;
            Image(E1, w) == ((Nine(b) ^ a) << 5) | TwentyThree(b)
  {
    hide LowImage, HighImage, Nine, TwentyThree;
    TimesLow(w);
    TimesHigh(w);
    Regrouped(w & 0x1f, Nine(w >> 5), TwentyThree(w >> 5));
  }

  function Iter(l: Map, w: Elem, n: nat): Elem {
    if n == 0 then w else Apply(l, Iter(l, w, n - 1))
  }

  lemma {:induction false} IterAdd(l: Map, w: Elem, m: nat, n: nat)
    ensures Iter(l, w, m + n) == Iter(l, Iter(l, w, m), n)
  {
    hide Apply;
    if n > 0 {
      IterAdd(l, w, m, n - 1);
    }
  }

  lemma {:induction false} IterNil(l: Map, n: nat)
    ensures Iter(l, NIL, n) == NIL
  {
    hide Apply;
    if n > 0 {
      IterNil(l, n - 1);
      ApplyNil(l);
    }
  }

  lemma {:induction false} IterPlus(l: Map, a: Elem, b: Elem, n: nat)
    ensures Iter(l, Plus(a, b), n) == Plus(Iter(l, a, n), Iter(l, b, n))
  {
    hide Apply, Plus;
    if n > 0 {
      IterPlus(l, a, b, n - 1);
      ApplyPlus(l, Iter(l, a, n - 1), Iter(l, b, n - 1));
    }
  }

  /** The map multiplies by e^n. */
  ghost predicate IsPower(l: Map, n: nat) {
    forall w :: Apply(l, w) == Iter(E1, w, n)
  }

  lemma PowerOne()
    ensures IsPower(E1, 1)
  {
    hide Apply;
    forall w ensures Iter(E1, w, 1) == Apply(E1, w) {
      assert Iter(E1, w, 0) == w;
    }
  }

  lemma PowerNext(a: Map, m: nat, b: Map, n: nat, c: Map)
    requires IsPower(a, m) && IsPower(b, n) && Compose(a, b) == c
    ensures IsPower(c, m + n)
  {
    hide Apply, Iter, Compose;
    forall w ensures Apply(c, w) == Iter(E1, w, m + n) {
      ComposeApplies(a, b, w);
      IterAdd(E1, w, n, m);
    }
  }

  lemma Product2() ensures Compose(E1, E1) == E2 {}
  lemma Product3() ensures Compose(E2, E1) == E3 {}
  lemma Product6() ensures Compose(E3, E3) == E6 {}
  lemma Product12() ensures Compose(E6, E6) == E12 {}
  lemma Product24() ensures Compose(E12, E12) == E24 {}
  lemma Product30() ensures Compose(E24, E6) == E30 {}
  lemma Product31() ensures Compose(E30, E1) == E31 {}
  lemma Product33() ensures Compose(E31, E2) == E33 {}
  lemma Product62() ensures Compose(E31, E31) == E62 {}
  lemma Product93() ensures Compose(E62, E31) == E93 {}
  lemma Product124() ensures Compose(E62, E62) == E124 {}
  lemma Product248() ensures Compose(E124, E124) == E248 {}
  lemma Product341() ensures Compose(E248, E93) == E341 {}
  lemma Product682() ensures Compose(E341, E341) == E682 {}
  lemma Product1023() ensures Compose(E682, E341) == ID {}

  lemma Powers()
    ensures IsPower(E33, 33) && IsPower(E93, 93) && IsPower(E341, 341) && IsPower(ID, 1023)
  {
    hide IsPower, Compose;
    PowerOne();
    Product2();
    PowerNext(E1, 1, E1, 1, E2);
    Product3();
    PowerNext(E2, 2, E1, 1, E3);
    Product6();
    PowerNext(E3, 3, E3, 3, E6);
    Product12();
    PowerNext(E6, 6, E6, 6, E12);
    Product24();
    PowerNext(E12, 12, E12, 12, E24);
    Product30();
    PowerNext(E24, 24, E6, 6, E30);
    Product31();
    PowerNext(E30, 30, E1, 1, E31);
    Product33();
    PowerNext(E31, 31, E2, 2, E33);
    Product62();
    PowerNext(E31, 31, E31, 31, E62);
    Product93();
    PowerNext(E62, 62, E31, 31, E93);
    Product124();
    PowerNext(E62, 62, E62, 62, E124);
    Product248();
    PowerNext(E124, 124, E124, 124, E248);
    Product341();
    PowerNext(E248, 248, E93, 93, E341);
    Product682();
    PowerNext(E341, 341, E341, 341, E682);
    Product1023();
    PowerNext(E682, 682, E341, 341, ID);
  }

  lemma Sum33() ensures Both(E33, ID) == SUM33 && Compose(UNDO33, SUM33) == ID {}
  lemma Sum93() ensures Both(E93, ID) == SUM93 && Compose(UNDO93, SUM93) == ID {}
  lemma Sum341() ensures Both(E341, ID) == SUM341 && Compose(UNDO341, SUM341) == ID {}

  /** A map whose sum with the identity can be undone fixes nothing but zero. */
  lemma OnlyNilFixed(l: Map, undo: Map, w: Elem)
    requires Compose(undo, Both(l, ID)) == ID && Apply(l, w) == w
    ensures w == NIL
  {
    hide Compose, Both, Apply, Plus;
    ComposeApplies(undo, Both(l, ID), w);
    IdApplies(w);
    BothApplies(l, ID, w);
    PlusNil(w);
    ApplyNil(undo);
  }

  // ---------- the order of e ----------

  predicate Fixes(w: Elem, n: nat) { Iter(E1, w, n) == w }

  lemma FixesSum(w: Elem, m: nat, n: nat)
    requires Fixes(w, n)
    ensures Fixes(w, m + n) <==> Fixes(w, m)
  {
    hide Iter;
    IterAdd(E1, w, n, m);
  }

  lemma {:induction false} FixesMultiple(w: Elem, n: nat, k: nat)
    requires Fixes(w, n)
    ensures Fixes(w, k * n)
  {
    hide Fixes;
    if k == 0 {
      FixesNone(w);
    } else {
      FixesMultiple(w, n, k - 1);
      FixesSum(w, (k - 1) * n, n);
      assert (k - 1) * n + n == k * n;
    }
  }

  lemma FixesNone(w: Elem)
    ensures Fixes(w, 0)
  {
  }

  /** Euclid by subtraction, on multiples of a unit. */
  lemma {:induction false} FixesDivisor(w: Elem, unit: nat, a: nat, b: nat) returns (g: nat)
    requires a > 0 && b > 0 && Fixes(w, a * unit) && Fixes(w, b * unit)
    ensures 0 < g <= a && g <= b && Fixes(w, g * unit) && a % g == 0 && b % g == 0
    decreases a + b
  {
    hide Fixes;
    if a == b {
      g := a;
    } else if a < b {
      assert (b - a) * unit + a * unit == b * unit;
      FixesSum(w, (b - a) * unit, a * unit);
      g := FixesDivisor(w, unit, a, b - a);
      DividesSum(b - a, a, g);
    } else {
      assert (a - b) * unit + b * unit == a * unit;
      FixesSum(w, (a - b) * unit, b * unit);
      g := FixesDivisor(w, unit, a - b, b);
      DividesSum(a - b, b, g);
    }
  }

  lemma DividesSum(x: nat, y: nat, g: nat)
    requires g > 0 && x % g == 0 && y % g == 0
    ensures (x + y) % g == 0
  {
    DivAdd(x, g, y / g);
  }

  lemma NoDivisor(p: nat, g: nat)
    requires (p == 3 || p == 11 || p == 31) && 1 < g < p
    ensures p % g != 0
  {
    var q := p / g;
    assert p == q * g + p % g;
    if g <= 5 {
      assert g == 2 || g == 3 || g == 4 || g == 5;
    } else if q >= 6 {
      MulMonotone(6, q, g);
    } else {
      assert q == 0 || q == 1 || q == 2 || q == 3 || q == 4 || q == 5;
    }
  }

  /** What e^d fixes and a prime does not share with d, the prime's cofactor fixes. */
  lemma FixesCofactor(w: Elem, d: nat, p: nat, unit: nat)
    requires p == 3 || p == 11 || p == 31
    requires p * unit == 1023 && Fixes(w, 1023) && d > 0 && d % p != 0 && Fixes(w, d)
    ensures Fixes(w, unit)
  {
    hide Fixes;
    FixesMultiple(w, d, unit);
    assert unit * d == d * unit;
    var g := FixesDivisor(w, unit, d, p);
    if 1 < g < p {
      NoDivisor(p, g);
    }
  }

  lemma DividedByBoth(d: nat, a: int, b: int)
    requires d == 3 * a == 11 * b
    ensures d == 33 * (4 * b - a)
  {
  }

  lemma DividedByAll(d: nat, e: int, c: int)
    requires d == 33 * e == 31 * c
    ensures d == 1023 * (16 * c - 17 * e)
  {
  }

  lemma AllDivide(d: nat)
    requires d % 3 == 0 && d % 11 == 0 && d % 31 == 0
    ensures d % 1023 == 0
  {
    var a, b, c := d / 3, d / 11, d / 31;
    assert d == 3 * a == 11 * b == 31 * c;
    DividedByBoth(d, a, b);
    var e := 4 * b - a;
    DividedByAll(d, e, c);
    DivModUnique(d, 1023, 16 * c - 17 * e, 0);
  }

  lemma FixedByPower(l: Map, n: nat, w: Elem)
    requires IsPower(l, n)
    ensures Fixes(w, n) <==> Apply(l, w) == w
  {
    hide Apply, Iter;
  }

  /** The order of e is 1023, and a smaller power of it moves every element but zero. */
  lemma PowerMoves(w: Elem, d: nat)
    requires 0 < d < 1023 && Fixes(w, d)
    ensures w == NIL
  {
    hide Fixes, IsPower, Apply, Compose, Both;
    Powers();
    IdApplies(w);
    FixedByPower(ID, 1023, w);
    if d % 3 != 0 {
      FixesCofactor(w, d, 3, 341);
      FixedByPower(E341, 341, w);
      Sum341();
      OnlyNilFixed(E341, UNDO341, w);
    } else if d % 11 != 0 {
      FixesCofactor(w, d, 11, 93);
      FixedByPower(E93, 93, w);
      Sum93();
      OnlyNilFixed(E93, UNDO93, w);
    } else {
      if d % 31 == 0 {
        AllDivide(d);
      }
      FixesCofactor(w, d, 31, 33);
      FixedByPower(E33, 33, w);
      Sum33();
      OnlyNilFixed(E33, UNDO33, w);
    }
  }

  lemma OrderOfE(w: Elem)
    ensures Fixes(w, 1023)
  {
    hide Fixes, IsPower, Apply;
    Powers();
    IdApplies(w);
    FixedByPower(ID, 1023, w);
  }

  /** Multiplication by a power of e loses nothing. */
  lemma PowerInjective(w: Elem, n: nat)
    requires Iter(E1, w, n) == NIL
    ensures w == NIL
  {
    hide Apply, Iter;
    OrderOfE(w);
    FixesMultiple(w, 1023, n);
    IterAdd(E1, w, n, 1023 * n - n);
    IterNil(E1, 1023 * n - n);
  }
}
