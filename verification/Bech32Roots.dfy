/** PolyMod as evaluation. The Bech32 generator vanishes at e^997, e^998 and e^999, so the remainder that PolyMod
    computes has the value of the whole polynomial at these three points. */
module Bech32Roots {
  import opened Bech32
  import opened Bech32Field

  // Multiplication by e^997, e^998 and e^999, the roots of the generator, and by e^26, which undoes the first.
  const R997 := Map(0x1bd, 0x353, 0x3af, 0x27e, 0x1f5, 0x065, 0x0ca, 0x194, 0x301, 0x322)
  const R998 := Map(0x065, 0x0ca, 0x194, 0x301, 0x322, 0x3d0, 0x2a9, 0x072, 0x0cd, 0x19a)
  const R999 := Map(0x3d0, 0x2a9, 0x072, 0x0cd, 0x19a, 0x104, 0x208, 0x130, 0x249, 0x1b2)
  const R26 := Map(0x164, 0x2c8, 0x0b0, 0x149, 0x292, 0x0ac, 0x158, 0x299, 0x03b, 0x05f)

  // Multiplication by {2}, by {2}e and by {2}e^997.
  const TWICE := Map(0x002, 0x004, 0x008, 0x010, 0x009, 0x040, 0x080, 0x100, 0x200, 0x120)
  const TWICE_E := Map(0x040, 0x080, 0x100, 0x200, 0x120, 0x247, 0x1ae, 0x35c, 0x3b1, 0x26b)
  const TWICE_R := Map(0x353, 0x3af, 0x27e, 0x1f5, 0x3c3, 0x0ca, 0x194, 0x301, 0x322, 0x364)

  predicate IsRoot(l: Map) { l == R997 || l == R998 || l == R999 }

  // ---------- values of polynomials ----------

  function Embed(v: Symbol): Elem { Elem(v.bits as bv10) }

  lemma EmbedXor(x: Symbol, y: Symbol)
    ensures Embed(SymbolXor(x, y)) == Plus(Embed(x), Embed(y))
  {
  }

  lemma EmbedNil(x: Symbol)
    ensures Embed(x) == NIL <==> x == ZERO
  {
  }

  /** The polynomial with these coefficients, highest first, at the point whose multiplication is l. */
  function Value(l: Map, v: seq<Symbol>): Elem {
    if v == [] then NIL else Plus(Apply(l, Value(l, v[..|v| - 1])), Embed(v[|v| - 1]))
  }

  lemma {:induction false} ValueXor(l: Map, x: seq<Symbol>, y: seq<Symbol>)
    requires |x| == |y|
    ensures Value(l, SymbolsXor(x, y)) == Plus(Value(l, x), Value(l, y))
  {
    hide Apply, Plus, Embed, SymbolXor;
    if x == [] {
      PlusNil(NIL);
    } else {
      var n := |x| - 1;
      ValueXor(l, x[..n], y[..n]);
      assert SymbolsXor(x, y)[..n] == SymbolsXor(x[..n], y[..n]);
      ApplyPlus(l, Value(l, x[..n]), Value(l, y[..n]));
      EmbedXor(x[n], y[n]);
      PlusCross(Apply(l, Value(l, x[..n])), Apply(l, Value(l, y[..n])), Embed(x[n]), Embed(y[n]));
    }
  }

  lemma {:induction false} ValueAppend(l: Map, u: seq<Symbol>, v: seq<Symbol>)
    ensures Value(l, u + v) == Plus(Iter(l, Value(l, u), |v|), Value(l, v))
  {
    hide Apply, Plus, Embed;
    if v == [] {
      assert u + v == u;
      PlusNil(Value(l, u));
    } else {
      var n := |v| - 1;
      ValueAppend(l, u, v[..n]);
      assert (u + v)[..|u + v| - 1] == u + v[..n];
      ApplyPlus(l, Iter(l, Value(l, u), n), Value(l, v[..n]));
      PlusAssociates(Apply(l, Iter(l, Value(l, u), n)), Apply(l, Value(l, v[..n])), Embed(v[n]));
    }
  }

  predicate AllZero(v: seq<Symbol>) { forall i :: 0 <= i < |v| ==> v[i] == ZERO }

  lemma {:induction false} ValueZeros(l: Map, v: seq<Symbol>)
    requires AllZero(v)
    ensures Value(l, v) == NIL
  {
    hide Apply, Plus, Embed;
    if v != [] {
      ValueZeros(l, v[..|v| - 1]);
      ApplyNil(l);
      EmbedNil(ZERO);
      PlusNil(NIL);
    }
  }

  function Six(l: Map, a: Symbol, b: Symbol, c: Symbol, d: Symbol, e: Symbol, f: Symbol): Elem {
    var v := Embed(a);
    var v := Plus(Apply(l, v), Embed(b));
    var v := Plus(Apply(l, v), Embed(c));
    var v := Plus(Apply(l, v), Embed(d));
    var v := Plus(Apply(l, v), Embed(e));
    Plus(Apply(l, v), Embed(f))
  }

  lemma ValueSix(l: Map, v: seq<Symbol>)
    requires |v| == 6
    ensures Value(l, v) == Six(l, v[0], v[1], v[2], v[3], v[4], v[5])
  {
    hide Apply, Plus, Embed;
    assert v[..5][..4] == v[..4] && v[..4][..3] == v[..3] && v[..3][..2] == v[..2];
    assert v[..2][..1] == v[..1] && v[..1][..0] == [];
    ApplyNil(l);
    PlusNil(Embed(v[0]));
    assert Value(l, v[..1]) == Embed(v[0]);
    assert Value(l, v[..2]) == Plus(Apply(l, Embed(v[0])), Embed(v[1]));
    assert Value(l, v[..3]) == Plus(Apply(l, Value(l, v[..2])), Embed(v[2]));
    assert Value(l, v[..4]) == Plus(Apply(l, Value(l, v[..3])), Embed(v[3]));
    assert Value(l, v[..5]) == Plus(Apply(l, Value(l, v[..4])), Embed(v[4]));
  }

  // ---------- the generator vanishes at its roots ----------

  /** One round of PolyMod multiplies the value of the state and adds the symbol. */
  predicate Follows(l: Map, c: Word, x: Symbol) {
    Value(l, Groups(Step(c, x))) == Plus(Apply(l, Value(l, Groups(c))), Embed(x))
  }

  lemma FrontXor(a: Word, b: Word)
    ensures Front(Xor(a, b)) == Xor(Front(a), Front(b))
  {
  }

  lemma BackXor(a: Word, b: Word)
    ensures Back(Xor(a, b)) == SymbolXor(Back(a), Back(b))
  {
  }

  lemma {:induction false} LeadXor(a: Word, b: Word, i: nat)
    requires i <= 6
    ensures Lead(Xor(a, b), i) == Xor(Lead(a, i), Lead(b, i))
    decreases 6 - i
  {
    hide Front, Xor;
    if i < 6 {
      LeadXor(a, b, i + 1);
      FrontXor(Lead(a, i + 1), Lead(b, i + 1));
    }
  }

  lemma GroupsXor(a: Word, b: Word)
    ensures |Groups(a)| == |Groups(b)| == 6 && Groups(Xor(a, b)) == SymbolsXor(Groups(a), Groups(b))
  {
    hide Lead, Back, Xor, SymbolXor;
    forall i: nat | i < 6 ensures Group(Xor(a, b), i) == SymbolXor(Group(a, i), Group(b, i)) {
      LeadXor(a, b, i + 1);
      BackXor(Lead(a, i + 1), Lead(b, i + 1));
    }
  }

  lemma FollowsXor(l: Map, a: Word, b: Word, x: Symbol, y: Symbol)
    requires Follows(l, a, x) && Follows(l, b, y)
    ensures Follows(l, Xor(a, b), SymbolXor(x, y))
  {
    hide Step, Groups, Value, Apply, Plus, Embed, Xor, SymbolXor;
    StepXor(a, b, x, y);
    GroupsXor(a, b);
    GroupsXor(Step(a, x), Step(b, y));
    ValueXor(l, Groups(a), Groups(b));
    ValueXor(l, Groups(Step(a, x)), Groups(Step(b, y)));
    ApplyPlus(l, Value(l, Groups(a)), Value(l, Groups(b)));
    EmbedXor(x, y);
    PlusCross(Apply(l, Value(l, Groups(a))), Embed(x), Apply(l, Value(l, Groups(b))), Embed(y));
  }

  /** While nothing leaves the state, the symbols just move up. */
  lemma GroupsPack(c: Word, x: Symbol)
    requires Below(c, 5) && FiveBit(x)
    ensures Groups(Pack(c, x)) == Groups(c)[1..] + [x] && Group(c, 0) == ZERO
  {
    TopGroup(c);
    hide Front, Back, Pack, Below, FiveBit;
    PackFront(c, x);
    var p := Pack(c, x);
    assert Lead(p, 6) == p;
    assert Lead(p, 5) == Lead(c, 6);
    assert Lead(p, 4) == Lead(c, 5);
    assert Lead(p, 3) == Lead(c, 4);
    assert Lead(p, 2) == Lead(c, 3);
    assert Lead(p, 1) == Lead(c, 2);
  }

  lemma TopGroup(c: Word)
    requires Below(c, 5)
    ensures Group(c, 0) == ZERO
  {
    assert Lead(c, 5) == Front(c) && Lead(c, 4) == Front(Front(c)) && Lead(c, 3) == Front(Front(Front(c)));
    assert Lead(c, 2) == Front(Front(Front(Front(c)))) && Lead(c, 1) == Front(Front(Front(Front(Front(c)))));
  }

  lemma FollowsBelow(l: Map, c: Word, x: Symbol)
    requires Below(c, 5) && FiveBit(x)
    ensures Follows(l, c, x)
  {
    hide Step, Apply, Plus, Embed, Below, FiveBit, Pack, Group;
    StepPacks(c, x);
    GroupsPack(c, x);
    var rest := Groups(c)[1..];
    assert (rest + [x])[..5] == rest;
    assert Groups(c) == [ZERO] + rest;
    ValueAppend(l, [ZERO], rest);
    ValueZeros(l, [ZERO]);
    IterNil(l, 5);
    PlusNil(Value(l, rest));
  }

  lemma FollowsNone(l: Map)
    ensures Follows(l, Word(0), ZERO)
  {
    BelowNone();
    FollowsBelow(l, Word(0), ZERO);
  }

  lemma BelowNone()
    ensures Below(Word(0), 5) && FiveBit(ZERO)
  {
  }

  // The symbols of the constant that is added when this bit leaves the state: {1}, {2}, {4}, {8} and {16} times
  // the generator without its leading term.
  const G1: seq<Symbol> := [Symbol(29), Symbol(22), Symbol(20), Symbol(21), Symbol(29), Symbol(18)]
  const G2: seq<Symbol> := [Symbol(19), Symbol(5), Symbol(1), Symbol(3), Symbol(19), Symbol(13)]
  const G4: seq<Symbol> := [Symbol(15), Symbol(10), Symbol(2), Symbol(6), Symbol(15), Symbol(26)]
  const G8: seq<Symbol> := [Symbol(30), Symbol(20), Symbol(4), Symbol(12), Symbol(30), Symbol(29)]
  const G16: seq<Symbol> := [Symbol(21), Symbol(1), Symbol(8), Symbol(24), Symbol(21), Symbol(19)]

  // This bit of the leading symbol on its own.
  const U1: seq<Symbol> := [Symbol(1), ZERO, ZERO, ZERO, ZERO, ZERO]
  const U2: seq<Symbol> := [Symbol(2), ZERO, ZERO, ZERO, ZERO, ZERO]
  const U4: seq<Symbol> := [Symbol(4), ZERO, ZERO, ZERO, ZERO, ZERO]
  const U8: seq<Symbol> := [Symbol(8), ZERO, ZERO, ZERO, ZERO, ZERO]
  const U16: seq<Symbol> := [Symbol(16), ZERO, ZERO, ZERO, ZERO, ZERO]

  lemma Leaving1() ensures Groups(Step(Word(0x2000000), ZERO)) == G1 && Groups(Word(0x2000000)) == U1 {}
  lemma Leaving2() ensures Groups(Step(Word(0x4000000), ZERO)) == G2 && Groups(Word(0x4000000)) == U2 {}
  lemma Leaving4() ensures Groups(Step(Word(0x8000000), ZERO)) == G4 && Groups(Word(0x8000000)) == U4 {}
  lemma Leaving8() ensures Groups(Step(Word(0x10000000), ZERO)) == G8 && Groups(Word(0x10000000)) == U8 {}
  lemma Leaving16() ensures Groups(Step(Word(0x20000000), ZERO)) == G16 && Groups(Word(0x20000000)) == U16 {}

  // The generator at each root, term by term: first down its coefficients, then up the powers of the root.
  const WAY997 := Map(0x01d, 0x18f, 0x1be, 0x192, 0x02e, 0x1bd, 0x369, 0x34f, 0x3d6, 0x074)
  const NEXT997 := Map(0x199, 0x1aa, 0x187, 0x033, 0x2e7, 0x369, 0x34f, 0x3d6, 0x074, 0x2f5)
  const WAY998 := Map(0x01d, 0x1c4, 0x396, 0x34c, 0x176, 0x065, 0x088, 0x373, 0x3a3, 0x25a)
  const NEXT998 := Map(0x1d2, 0x382, 0x359, 0x16b, 0x3c8, 0x088, 0x373, 0x3a3, 0x25a, 0x3da)
  const WAY999 := Map(0x01d, 0x2e3, 0x2e3, 0x2e2, 0x13a, 0x3d0, 0x159, 0x2c6, 0x051, 0x042)
  const NEXT999 := Map(0x2f5, 0x2f7, 0x2f7, 0x127, 0x0b3, 0x159, 0x2c6, 0x051, 0x042, 0x0a1)

  lemma Way997() ensures Compose(R997, WAY997) == NEXT997 && Apply(R997, Elem(0x001)) == Elem(0x1bd) {}
  lemma Way998() ensures Compose(R998, WAY998) == NEXT998 && Apply(R998, Elem(0x001)) == Elem(0x065) {}
  lemma Way999() ensures Compose(R999, WAY999) == NEXT999 && Apply(R999, Elem(0x001)) == Elem(0x3d0) {}

  /** way and next lead from the leading coefficient down to the value of the generator without its leading
      term, and from 1 up to the sixth power of the root, and both ends meet. */
  predicate Meets(way: Map, next: Map) {
    && At(way, 0) == Embed(G1[0])
    && (forall i :: 1 <= i < 5 ==> At(way, i) == Plus(At(next, i - 1), Embed(G1[i])))
    && (forall i :: 6 <= i < 10 ==> At(way, i) == At(next, i - 1))
    && At(next, 9) == Plus(At(next, 4), Embed(G1[5]))
  }

  function At(l: Map, i: nat): Elem
    requires i < 10
  {
    Elem(Column(l, i))
  }

  lemma Vanishes(l: Map, way: Map, next: Map)
    requires Compose(l, way) == next && Apply(l, Embed(Symbol(1))) == At(way, 5) && Meets(way, next)
    ensures Value(l, G1) == Apply(l, Value(l, U1))
  {
    hide Apply, Compose, Embed, Plus, At;
    ValueSix(l, G1);
    ValueSix(l, U1);
    forall i: nat | i < 10 ensures Apply(l, At(way, i)) == At(next, i) {
      ComposeAt(l, way, i);
    }
    EmbedNil(ZERO);
    forall e ensures Plus(e, NIL) == e {
      PlusNil(e);
    }
  }

  lemma ComposeAt(l: Map, m: Map, i: nat)
    requires i < 10
    ensures At(Compose(l, m), i) == Apply(l, At(m, i))
  {
    hide Image, Compose, Column;
    ComposeColumn(l, m, i);
  }

  lemma Meets997() ensures Meets(WAY997, NEXT997) {}
  lemma Meets998() ensures Meets(WAY998, NEXT998) {}
  lemma Meets999() ensures Meets(WAY999, NEXT999) {}

  lemma EmbedOne()
    ensures Embed(Symbol(1)) == Elem(0x001)
  {
  }

  lemma AtFive()
    ensures At(WAY997, 5) == Elem(0x1bd) && At(WAY998, 5) == Elem(0x065) && At(WAY999, 5) == Elem(0x3d0)
  {
  }

  lemma RootsVanish(l: Map)
    requires IsRoot(l)
    ensures Value(l, G1) == Apply(l, Value(l, U1))
  {
    hide Apply, Compose, Value, IsRoot, Meets, At, Embed;
    Way997();
    Meets997();
    Way998();
    Meets998();
    Way999();
    Meets999();
    EmbedOne();
    AtFive();
    Vanishes(R997, WAY997, NEXT997);
    Vanishes(R998, WAY998, NEXT998);
    Vanishes(R999, WAY999, NEXT999);
    IsOneOf(l);
  }

  lemma IsOneOf(l: Map)
    requires IsRoot(l)
    ensures l == R997 || l == R998 || l == R999
  {
  }

  // ---------- multiples of the generator ----------

  lemma ProductER() ensures Compose(E1, R997) == R998 {}
  lemma ProductRE() ensures Compose(R997, E1) == R998 {}
  lemma Product999() ensures Compose(E1, R998) == R999 {}
  lemma Product0() ensures Compose(R26, R997) == ID {}
  lemma TwiceE() ensures Compose(TWICE, E1) == TWICE_E {}
  lemma ETwice() ensures Compose(E1, TWICE) == TWICE_E {}
  lemma TwiceR() ensures Compose(TWICE, R997) == TWICE_R {}
  lemma RTwice() ensures Compose(R997, TWICE) == TWICE_R {}

  ghost predicate Commute(l: Map, m: Map) {
    forall w :: Apply(l, Apply(m, w)) == Apply(m, Apply(l, w))
  }

  lemma SameProduct(l: Map, m: Map)
    requires Compose(l, m) == Compose(m, l)
    ensures Commute(l, m)
  {
    hide Apply, Compose;
    forall w ensures Apply(l, Apply(m, w)) == Apply(m, Apply(l, w)) {
      ComposeApplies(l, m, w);
      ComposeApplies(m, l, w);
    }
  }

  lemma CommuteProduct(l: Map, m: Map, n: Map)
    requires Commute(l, m) && Commute(l, n)
    ensures Commute(l, Compose(m, n))
  {
    hide Apply, Compose;
    forall w ensures Apply(l, Apply(Compose(m, n), w)) == Apply(Compose(m, n), Apply(l, w)) {
      ComposeApplies(m, n, w);
      ComposeApplies(m, n, Apply(l, w));
    }
  }

  lemma RootsCommute(l: Map)
    requires IsRoot(l)
    ensures Commute(TWICE, l)
  {
    hide Commute, Compose, IsRoot;
    TwiceE();
    ETwice();
    TwiceR();
    RTwice();
    ProductER();
    ProductRE();
    Product999();
    SameProduct(TWICE, E1);
    SameProduct(TWICE, R997);
    CommuteProduct(TWICE, E1, R997);
    CommuteProduct(TWICE, E1, R998);
    IsOneOf(l);
  }

  /** The second list is the first one multiplied by {2}. */
  ghost predicate Doubled(v: seq<Symbol>, w: seq<Symbol>) {
    |v| == |w| && forall i :: 0 <= i < |v| ==> Embed(w[i]) == Apply(TWICE, Embed(v[i]))
  }

  lemma {:induction false} ValueDoubled(l: Map, v: seq<Symbol>, w: seq<Symbol>)
    requires Doubled(v, w) && Commute(TWICE, l)
    ensures Value(l, w) == Apply(TWICE, Value(l, v))
  {
    hide Apply, Plus, Embed;
    if v == [] {
      ApplyNil(TWICE);
    } else {
      var n := |v| - 1;
      ValueDoubled(l, v[..n], w[..n]);
      ApplyPlus(TWICE, Apply(l, Value(l, v[..n])), Embed(v[n]));
    }
  }

  // The coefficients of a multiple of the generator, and the factor itself.
  const COEFFICIENTS1 := Map(0x01d, 0x016, 0x014, 0x015, 0x01d, 0x012, 0x001, 0x000, 0x000, 0x000)
  const COEFFICIENTS2 := Map(0x013, 0x005, 0x001, 0x003, 0x013, 0x00d, 0x002, 0x000, 0x000, 0x000)
  const COEFFICIENTS4 := Map(0x00f, 0x00a, 0x002, 0x006, 0x00f, 0x01a, 0x004, 0x000, 0x000, 0x000)
  const COEFFICIENTS8 := Map(0x01e, 0x014, 0x004, 0x00c, 0x01e, 0x01d, 0x008, 0x000, 0x000, 0x000)
  const COEFFICIENTS16 := Map(0x015, 0x001, 0x008, 0x018, 0x015, 0x013, 0x010, 0x000, 0x000, 0x000)

  lemma Coefficients2() ensures Compose(TWICE, COEFFICIENTS1) == COEFFICIENTS2 {}
  lemma Coefficients4() ensures Compose(TWICE, COEFFICIENTS2) == COEFFICIENTS4 {}
  lemma Coefficients8() ensures Compose(TWICE, COEFFICIENTS4) == COEFFICIENTS8 {}
  lemma Coefficients16() ensures Compose(TWICE, COEFFICIENTS8) == COEFFICIENTS16 {}

  ghost predicate Lists(k: Map, g: seq<Symbol>, u: seq<Symbol>) {
    && |g| == |u| == 6 && (forall i :: 0 <= i < 6 ==> At(k, i) == Embed(g[i]))
    && At(k, 6) == Embed(u[0]) && forall i :: 1 <= i < 6 ==> u[i] == ZERO
  }

  lemma ListsDoubled(k: Map, g: seq<Symbol>, u: seq<Symbol>, k': Map, g': seq<Symbol>, u': seq<Symbol>)
    requires Compose(TWICE, k) == k' && Lists(k, g, u) && Lists(k', g', u')
    ensures Doubled(g, g') && Doubled(u, u')
  {
    hide Apply, Embed, Compose, At;
    EmbedNil(ZERO);
    ApplyNil(TWICE);
    forall i: nat | i < 7 ensures At(k', i) == Apply(TWICE, At(k, i)) {
      ComposeAt(TWICE, k, i);
    }
  }

  /** A multiple of the generator vanishes where the generator does. */
  lemma TwiceVanishes(l: Map, k: Map, g: seq<Symbol>, u: seq<Symbol>, k': Map, g': seq<Symbol>, u': seq<Symbol>)
    requires Compose(TWICE, k) == k' && Lists(k, g, u) && Lists(k', g', u')
    requires Commute(TWICE, l) && Value(l, g) == Apply(l, Value(l, u))
    ensures Value(l, g') == Apply(l, Value(l, u'))
  {
    hide Apply, Value, Compose, Lists, Doubled;
    ListsDoubled(k, g, u, k', g', u');
    ValueDoubled(l, g, g');
    ValueDoubled(l, u, u');
  }

  lemma AllListed()
    ensures Lists(COEFFICIENTS1, G1, U1) && Lists(COEFFICIENTS2, G2, U2) && Lists(COEFFICIENTS4, G4, U4)
    ensures Lists(COEFFICIENTS8, G8, U8) && Lists(COEFFICIENTS16, G16, U16)
  {
  }

  lemma AllVanish(l: Map)
    requires IsRoot(l)
    ensures Value(l, G1) == Apply(l, Value(l, U1)) && Value(l, G2) == Apply(l, Value(l, U2))
    ensures Value(l, G4) == Apply(l, Value(l, U4)) && Value(l, G8) == Apply(l, Value(l, U8))
    ensures Value(l, G16) == Apply(l, Value(l, U16))
  {
    hide Apply, Value, Compose, Lists, Commute, IsRoot;
    RootsVanish(l);
    RootsCommute(l);
    AllListed();
    Coefficients2();
    TwiceVanishes(l, COEFFICIENTS1, G1, U1, COEFFICIENTS2, G2, U2);
    Coefficients4();
    TwiceVanishes(l, COEFFICIENTS2, G2, U2, COEFFICIENTS4, G4, U4);
    Coefficients8();
    TwiceVanishes(l, COEFFICIENTS4, G4, U4, COEFFICIENTS8, G8, U8);
    Coefficients16();
    TwiceVanishes(l, COEFFICIENTS8, G8, U8, COEFFICIENTS16, G16, U16);
  }

  lemma FollowsTop(l: Map, bit: Word, g: seq<Symbol>, u: seq<Symbol>)
    requires Groups(Step(bit, ZERO)) == g && Groups(bit) == u && Value(l, g) == Apply(l, Value(l, u))
    ensures Follows(l, bit, ZERO)
  {
    hide Apply, Value, Groups, Step, Plus;
    EmbedNil(ZERO);
    PlusNil(Value(l, g));
  }

  // ---------- PolyMod as evaluation ----------

  function Part(c: Word, bit: bv32): Word { Word(c.bits & bit) }

  lemma PartIs(c: Word, bit: bv32)
    requires bit == 0x2000000 || bit == 0x4000000 || bit == 0x8000000 || bit == 0x10000000 || bit == 0x20000000
    ensures Part(c, bit) == Word(0) || Part(c, bit) == Word(bit)
  {
  }

  lemma Parts(c: Word)
    requires Fits(c)
    ensures Below(Part(c, 0x1ffffff), 5)
    ensures c == Xor(Xor(Xor(Xor(Xor(Part(c, 0x1ffffff), Part(c, 0x2000000)), Part(c, 0x4000000)),
                             Part(c, 0x8000000)), Part(c, 0x10000000)), Part(c, 0x20000000))
  {
  }

  lemma AddTop(l: Map, a: Word, x: Symbol, c: Word, bit: bv32)
    requires Follows(l, a, x) && Follows(l, Word(bit), ZERO)
    requires Part(c, bit) == Word(0) || Part(c, bit) == Word(bit)
    ensures Follows(l, Xor(a, Part(c, bit)), x)
  {
    hide Follows, Xor, SymbolXor, Part;
    FollowsNone(l);
    FollowsXor(l, a, Part(c, bit), x, ZERO);
    SymbolXorNone(x);
  }

  lemma SymbolXorNone(x: Symbol)
    ensures SymbolXor(x, ZERO) == x
  {
  }

  lemma TopsFollow(l: Map)
    requires IsRoot(l)
    ensures Follows(l, Word(0x2000000), ZERO) && Follows(l, Word(0x4000000), ZERO) && Follows(l, Word(0x8000000), ZERO)
    ensures Follows(l, Word(0x10000000), ZERO) && Follows(l, Word(0x20000000), ZERO)
  {
    hide Follows, Value, Apply, Groups, Step, IsRoot;
    AllVanish(l);
    Leaving1();
    FollowsTop(l, Word(0x2000000), G1, U1);
    Leaving2();
    FollowsTop(l, Word(0x4000000), G2, U2);
    Leaving4();
    FollowsTop(l, Word(0x8000000), G4, U4);
    Leaving8();
    FollowsTop(l, Word(0x10000000), G8, U8);
    Leaving16();
    FollowsTop(l, Word(0x20000000), G16, U16);
  }

  /** At a root of the generator, one round of PolyMod multiplies and adds. */
  lemma StepFollows(l: Map, c: Word, x: Symbol)
    requires IsRoot(l) && Fits(c) && FiveBit(x)
    ensures Follows(l, c, x)
  {
    hide Follows, Xor, Part, Below, FiveBit, IsRoot;
    Parts(c);
    TopsFollow(l);
    var a0 := Part(c, 0x1ffffff);
    FollowsBelow(l, a0, x);
    PartIs(c, 0x2000000);
    AddTop(l, a0, x, c, 0x2000000);
    var a1 := Xor(a0, Part(c, 0x2000000));
    PartIs(c, 0x4000000);
    AddTop(l, a1, x, c, 0x4000000);
    var a2 := Xor(a1, Part(c, 0x4000000));
    PartIs(c, 0x8000000);
    AddTop(l, a2, x, c, 0x8000000);
    var a3 := Xor(a2, Part(c, 0x8000000));
    PartIs(c, 0x10000000);
    AddTop(l, a3, x, c, 0x10000000);
    var a4 := Xor(a3, Part(c, 0x10000000));
    PartIs(c, 0x20000000);
    AddTop(l, a4, x, c, 0x20000000);
  }

  /** PolyMod and evaluation at a root of the generator agree: the remainder has the value of the polynomial. */
  lemma {:induction false} RemainderValue(l: Map, v: seq<Symbol>)
    requires IsRoot(l) && AllFiveBit(v)
    ensures Value(l, Groups(Poly(Word(0), v))) == Value(l, v)
  {
    hide IsRoot, FiveBit, Groups, Step, Apply, Plus, Embed;
    if v == [] {
      GroupsNone();
      ValueZeros(l, Groups(Word(0)));
    } else {
      var n := |v| - 1;
      RemainderValue(l, v[..n]);
      NoneFits();
      PolyFits(Word(0), v[..n]);
      StepFollows(l, Poly(Word(0), v[..n]), v[n]);
    }
  }

  lemma GroupsNone()
    ensures AllZero(Groups(Word(0)))
  {
  }

  lemma NoneFits()
    ensures Fits(Word(0))
  {
  }

  /** What the checksum does not notice has the value zero at every root. */
  lemma UnnoticedIsNil(l: Map, v: seq<Symbol>)
    requires IsRoot(l) && AllFiveBit(v) && Poly(Word(0), v) == Word(0)
    ensures Value(l, v) == NIL
  {
    hide IsRoot, AllFiveBit, Groups, Poly, Value;
    RemainderValue(l, v);
    GroupsNone();
    ValueZeros(l, Groups(Word(0)));
  }
}
