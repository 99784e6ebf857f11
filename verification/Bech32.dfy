/** Bech32 and Bech32m of bech32.cpp: the linear checksum, the encoder and the decoder. */
module Bech32 {

  /** The checksum state and a data value; wrapping keeps bit-level reasoning local. */
  datatype Word = Word(bits: bv32)
  datatype Symbol = Symbol(bits: bv8)

  function Xor(a: Word, b: Word): Word { Word(a.bits ^ b.bits) }
  function SymbolXor(x: Symbol, y: Symbol): Symbol { Symbol(x.bits ^ y.bits) }

  // ---------- the checksum step ----------

  /** Whether a bit of the symbol that leaves the state is set. */
  predicate Leaves(c: Word, bit: bv32) {
    (c.bits >> 25) & bit != 0
  }

  function Shifted(c: Word, v: Symbol): Word {
    Word(((c.bits & 0x1ffffff) << 5) ^ (v.bits as bv32))
  }

  function AddIf(d: Word, isSet: bool, k: Word): Word {
    if isSet then Xor(d, k) else d
  }

  const K1 := Word(0x3b6a57b2)
  const K2 := Word(0x26508e6d)
  const K4 := Word(0x1ea119fa)
  const K8 := Word(0x3d4233dd)
  const K16 := Word(0x2a1462b3)

  /** One round of PolyMod: the state times x, plus v, modulo the generator. */
  function Step(c: Word, v: Symbol): Word {
    var d := Shifted(c, v);
    var d := AddIf(d, Leaves(c, 1), K1);
    var d := AddIf(d, Leaves(c, 2), K2);
    var d := AddIf(d, Leaves(c, 4), K4);
    var d := AddIf(d, Leaves(c, 8), K8);
    AddIf(d, Leaves(c, 16), K16)
  }

  /** States have 30 bits: six symbols. */
  predicate Fits(c: Word) { c.bits < 0x40000000 }

  lemma StepFits(c: Word, v: Symbol)
    ensures Fits(Step(c, v))
  {
  }

  lemma BitsLeaveXor(a: bv32, b: bv32, bit: bv32)
    requires bit == 1 || bit == 2 || bit == 4 || bit == 8 || bit == 16
    ensures ((a ^ b) >> 25) & bit != 0 <==> ((a >> 25) & bit != 0) != ((b >> 25) & bit != 0)
  {
  }

  lemma LeavesXor(a: Word, b: Word, bit: bv32)
    requires bit == 1 || bit == 2 || bit == 4 || bit == 8 || bit == 16
    ensures Leaves(Xor(a, b), bit) <==> (Leaves(a, bit) != Leaves(b, bit))
  {
    BitsLeaveXor(a.bits, b.bits, bit);
  }

  lemma BitsShiftedXor(a: bv32, b: bv32, x: bv8, y: bv8)
    ensures (((a ^ b) & 0x1ffffff) << 5) ^ ((x ^ y) as bv32) ==
            (((a & 0x1ffffff) << 5) ^ (x as bv32)) ^ (((b & 0x1ffffff) << 5) ^ (y as bv32))
  {
  }

  lemma ShiftedXor(a: Word, b: Word, x: Symbol, y: Symbol)
    ensures Shifted(Xor(a, b), SymbolXor(x, y)) == Xor(Shifted(a, x), Shifted(b, y))
  {
    BitsShiftedXor(a.bits, b.bits, x.bits, y.bits);
  }

  lemma XorTwice(d: Word, k: Word)
    ensures Xor(Xor(d, k), k) == d
  {
  }

  lemma XorCancels(d: Word, e: Word, k: Word)
    ensures Xor(Xor(d, k), Xor(e, k)) == Xor(d, e)
  {
    hide Xor;
    XorAssociates(Xor(d, k), e, k);
    XorMoves(d, e, k);
    XorTwice(Xor(d, e), k);
  }

  lemma XorMoves(d: Word, e: Word, k: Word)
    ensures Xor(Xor(d, k), e) == Xor(Xor(d, e), k)
  {
  }

  lemma XorAssociates(d: Word, e: Word, k: Word)
    ensures Xor(d, Xor(e, k)) == Xor(Xor(d, e), k)
  {
  }

  lemma AddIfXor(d: Word, e: Word, s: bool, t: bool, k: Word)
    ensures AddIf(Xor(d, e), s != t, k) == Xor(AddIf(d, s, k), AddIf(e, t, k))
  {
    hide Xor;
    XorCancels(d, e, k);
    XorMoves(d, e, k);
    XorAssociates(d, e, k);
  }

  /** The step is linear over XOR. */
  lemma StepXor(a: Word, b: Word, x: Symbol, y: Symbol)
    ensures Step(Xor(a, b), SymbolXor(x, y)) == Xor(Step(a, x), Step(b, y))
  {
    hide Leaves, Shifted, AddIf, Xor;
    ShiftedXor(a, b, x, y);
    var d0, e0 := Shifted(a, x), Shifted(b, y);
    LeavesXor(a, b, 1);
    AddIfXor(d0, e0, Leaves(a, 1), Leaves(b, 1), K1);
    var d1, e1 := AddIf(d0, Leaves(a, 1), K1), AddIf(e0, Leaves(b, 1), K1);
    LeavesXor(a, b, 2);
    AddIfXor(d1, e1, Leaves(a, 2), Leaves(b, 2), K2);
    var d2, e2 := AddIf(d1, Leaves(a, 2), K2), AddIf(e1, Leaves(b, 2), K2);
    LeavesXor(a, b, 4);
    AddIfXor(d2, e2, Leaves(a, 4), Leaves(b, 4), K4);
    var d3, e3 := AddIf(d2, Leaves(a, 4), K4), AddIf(e2, Leaves(b, 4), K4);
    LeavesXor(a, b, 8);
    AddIfXor(d3, e3, Leaves(a, 8), Leaves(b, 8), K8);
    var d4, e4 := AddIf(d3, Leaves(a, 8), K8), AddIf(e3, Leaves(b, 8), K8);
    LeavesXor(a, b, 16);
    AddIfXor(d4, e4, Leaves(a, 16), Leaves(b, 16), K16);
  }

  const ZERO := Symbol(0)

  lemma StepKernel(d: Word)
    requires Fits(d) && Step(d, ZERO) == Word(0)
    ensures d == Word(0)
  {
  }

  lemma XorZero(a: Word, b: Word)
    ensures Xor(a, b) == Word(0) <==> a == b
  {
  }

  lemma XorFits(a: Word, b: Word)
    requires Fits(a) && Fits(b)
    ensures Fits(Xor(a, b))
  {
  }

  lemma SymbolSelf(v: Symbol)
    ensures SymbolXor(v, v) == ZERO
  {
  }

  lemma StepInjective(a: Word, b: Word, v: Symbol)
    requires Fits(a) && Fits(b) && Step(a, v) == Step(b, v)
    ensures a == b
  {
    hide Step, Xor, Fits, SymbolXor;
    StepXor(a, b, v, v);
    SymbolSelf(v);
    XorZero(Step(a, v), Step(b, v));
    XorZero(a, b);
    XorFits(a, b);
    StepKernel(Xor(a, b));
  }

  // ---------- whole lists of symbols ----------

  function Poly(c: Word, v: seq<Symbol>): Word {
    if v == [] then c else Step(Poly(c, v[..|v| - 1]), v[|v| - 1])
  }

  method PolyMod(v: seq<Symbol>) returns (c: Word)
    ensures c == Poly(Word(1), v)
  {
    hide Step;
    c := Word(1);
    for i := 0 to |v|
      invariant c == Poly(Word(1), v[..i])
    {
      c := Step(c, v[i]);
      assert v[..i + 1][..i] == v[..i];
    }
    assert v[..|v|] == v;
  }

  lemma {:induction false} PolyAppend(c: Word, a: seq<Symbol>, b: seq<Symbol>)
    ensures Poly(c, a + b) == Poly(Poly(c, a), b)
  {
    hide Step;
    if b == [] {
      assert a + b == a;
    } else {
      PolyAppend(c, a, b[..|b| - 1]);
      assert (a + b)[..|a + b| - 1] == a + b[..|b| - 1];
    }
  }

  lemma {:induction false} PolyFits(c: Word, v: seq<Symbol>)
    requires Fits(c)
    ensures Fits(Poly(c, v))
  {
    hide Step, Fits;
    if v != [] {
      StepFits(Poly(c, v[..|v| - 1]), v[|v| - 1]);
    }
  }

  function SymbolsXor(x: seq<Symbol>, y: seq<Symbol>): (z: seq<Symbol>)
    requires |x| == |y|
    ensures |z| == |x| && forall i :: 0 <= i < |x| ==> z[i] == SymbolXor(x[i], y[i])
  {
    seq(|x|, i requires 0 <= i < |x| => SymbolXor(x[i], y[i]))
  }

  /** PolyMod is linear over XOR, symbol by symbol. */
  lemma {:induction false} PolyXor(a: Word, b: Word, x: seq<Symbol>, y: seq<Symbol>)
    requires |x| == |y|
    ensures Poly(Xor(a, b), SymbolsXor(x, y)) == Xor(Poly(a, x), Poly(b, y))
  {
    hide Step, Xor, SymbolXor;
    if x != [] {
      var n := |x| - 1;
      PolyXor(a, b, x[..n], y[..n]);
      assert SymbolsXor(x, y)[..n] == SymbolsXor(x[..n], y[..n]);
      StepXor(Poly(a, x[..n]), Poly(b, y[..n]), x[n], y[n]);
    }
  }

  lemma {:induction false} PolyInjective(a: Word, b: Word, v: seq<Symbol>)
    requires Fits(a) && Fits(b) && Poly(a, v) == Poly(b, v)
    ensures a == b
  {
    hide Step, Fits;
    if v != [] {
      var n := |v| - 1;
      PolyFits(a, v[..n]);
      PolyFits(b, v[..n]);
      StepInjective(Poly(a, v[..n]), Poly(b, v[..n]), v[n]);
      PolyInjective(a, b, v[..n]);
    }
  }

  // ---------- six symbols and a state are the same thing ----------

  predicate FiveBit(v: Symbol) { v.bits < 32 }

  predicate AllFiveBit(v: seq<Symbol>) { forall i :: 0 <= i < |v| ==> FiveBit(v[i]) }

  function Front(c: Word): Word { Word(c.bits >> 5) }

  function Back(c: Word): Symbol { Symbol((c.bits & 31) as bv8) }

  function Pack(c: Word, v: Symbol): Word { Word((c.bits << 5) | (v.bits as bv32)) }

  /** The state holds at most j symbols. */
  predicate Below(c: Word, j: nat)
    requires j <= 6
  {
    if j == 0 then c.bits == 0 else if j == 1 then c.bits < 0x20 else if j == 2 then c.bits < 0x400
    else if j == 3 then c.bits < 0x8000 else if j == 4 then c.bits < 0x100000 else if j == 5 then c.bits < 0x2000000
    else Fits(c)
  }

  lemma FrontBelow(c: Word, j: nat)
    requires j < 6 && Below(c, j + 1)
    ensures Below(Front(c), j)
  {
  }

  lemma PackBelow(c: Word, v: Symbol, j: nat)
    requires j < 6 && Below(c, j) && FiveBit(v)
    ensures Below(Pack(c, v), j + 1)
  {
  }

  lemma PackFront(c: Word, v: Symbol)
    requires Below(c, 5) && FiveBit(v)
    ensures Front(Pack(c, v)) == c && Back(Pack(c, v)) == v
  {
  }

  lemma BelowWiden(c: Word, j: nat)
    requires j < 6 && Below(c, j)
    ensures Below(c, 5)
  {
  }

  /** As long as nothing leaves the state, a step appends a symbol to it. */
  lemma StepAppends(d: Word)
    requires Below(d, 6)
    ensures Step(Front(d), Back(d)) == d
  {
  }

  lemma StepPacks(c: Word, v: Symbol)
    requires Below(c, 5) && FiveBit(v)
    ensures Step(c, v) == Pack(c, v)
  {
    hide Step, Front, Back, Pack, Below, FiveBit;
    PackFront(c, v);
    PackBelow(c, v, 5);
    StepAppends(Pack(c, v));
  }

  /** The leading i symbols of a state of six. */
  function Lead(c: Word, i: nat): Word
    requires i <= 6
    decreases 6 - i
  {
    if i == 6 then c else Front(Lead(c, i + 1))
  }

  /** The symbol 5 * (5 - i) bits up. */
  function Group(c: Word, i: nat): Symbol
    requires i < 6
  {
    Back(Lead(c, i + 1))
  }

  function Groups(c: Word): seq<Symbol> {
    [Group(c, 0), Group(c, 1), Group(c, 2), Group(c, 3), Group(c, 4), Group(c, 5)]
  }

  lemma {:induction false} LeadBelow(c: Word, i: nat)
    requires i <= 6 && Below(c, 6)
    ensures Below(Lead(c, i), i)
    decreases 6 - i
  {
    hide Front, Below;
    if i < 6 {
      LeadBelow(c, i + 1);
      FrontBelow(Lead(c, i + 1), i);
    }
  }

  lemma BelowTop(c: Word, j: nat)
    requires j <= 6 && Below(c, j)
    ensures Below(c, 6) && (j == 0 ==> c == Word(0))
  {
  }

  /** Fed into the zero state, the groups of a word give back the word. */
  lemma {:induction false} PolyOfGroups(c: Word, i: nat)
    requires Fits(c) && i <= 6
    ensures Poly(Word(0), Groups(c)[..i]) == Lead(c, i)
  {
    hide Step, Front, Back, Below, Fits;
    BelowFits(c);
    LeadBelow(c, i);
    BelowTop(Lead(c, i), i);
    if i > 0 {
      PolyOfGroups(c, i - 1);
      StepAppends(Lead(c, i));
      assert Groups(c)[..i][..i - 1] == Groups(c)[..i - 1];
      assert Groups(c)[i - 1] == Group(c, i - 1);
    }
  }

  lemma BelowFits(c: Word)
    ensures Below(c, 6) <==> Fits(c)
  {
  }

  lemma BackFiveBit(c: Word)
    ensures FiveBit(Back(c))
  {
  }

  lemma GroupsFiveBit(c: Word)
    ensures AllFiveBit(Groups(c))
  {
    hide Back, FiveBit, Lead;
    BackFiveBit(Lead(c, 1));
    BackFiveBit(Lead(c, 2));
    BackFiveBit(Lead(c, 3));
    BackFiveBit(Lead(c, 4));
    BackFiveBit(Lead(c, 5));
    BackFiveBit(Lead(c, 6));
  }

  // ---------- bursts ----------

  lemma PackZero(c: Word, v: Symbol)
    requires Below(c, 5) && FiveBit(v) && Pack(c, v) == Word(0)
    ensures c == Word(0) && v == ZERO
  {
    hide Pack, FiveBit, Below;
    PackFront(c, v);
  }

  /** At most six symbols of five bits cannot cancel out. */
  lemma {:induction false} PackedZero(z: seq<Symbol>)
    requires |z| <= 6 && AllFiveBit(z)
    ensures Below(Poly(Word(0), z), |z|)
    ensures Poly(Word(0), z) == Word(0) ==> forall i :: 0 <= i < |z| ==> z[i] == ZERO
  {
    if z == [] {
    } else {
      hide Step, FiveBit, Below, Pack;
      var n := |z| - 1;
      var c := Poly(Word(0), z[..n]);
      PackedZero(z[..n]);
      BelowWiden(c, n);
      StepPacks(c, z[n]);
      PackBelow(c, z[n], n);
      if Pack(c, z[n]) == Word(0) {
        PackZero(c, z[n]);
      }
    }
  }

  lemma SymbolXorZero(x: Symbol, y: Symbol)
    ensures SymbolXor(x, y) == ZERO <==> x == y
    ensures FiveBit(x) && FiveBit(y) ==> FiveBit(SymbolXor(x, y))
  {
  }

  lemma XorSelf(c: Word)
    ensures Xor(c, c) == Word(0)
  {
  }

  /** From one state, two windows of at most six symbols reach the same state only if they agree. */
  lemma WindowInjective(c: Word, x: seq<Symbol>, y: seq<Symbol>)
    requires |x| == |y| <= 6 && AllFiveBit(x) && AllFiveBit(y) && Poly(c, x) == Poly(c, y)
    ensures x == y
  {
    hide Poly, Xor, SymbolXor, FiveBit;
    PolyXor(c, c, x, y);
    XorSelf(c);
    XorSelf(Poly(c, x));
    forall i | 0 <= i < |x|
      ensures FiveBit(SymbolsXor(x, y)[i]) && (SymbolsXor(x, y)[i] == ZERO <==> x[i] == y[i])
    {
      SymbolXorZero(x[i], y[i]);
    }
    PackedZero(SymbolsXor(x, y));
    forall i | 0 <= i < |x| ensures x[i] == y[i] {
      assert SymbolsXor(x, y)[i] == ZERO;
    }
  }
}
