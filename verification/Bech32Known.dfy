/** The alphabet as one string, and one known string for each checksum constant. */
module Bech32Known {
  import opened Options
  import opened Bech32
  import opened Bech32Codec

  const CHARSET := "qpzry9x8gf2tvdw0s3jn54khce6mua7l"

  lemma CharsetLow(v: bv8)
    requires v < 16
    ensures Letter(Symbol(v)) == CHARSET[v as int]
  {
  }

  lemma CharsetHigh(v: bv8)
    requires 16 <= v < 32
    ensures Letter(Symbol(v)) == CHARSET[v as int]
  {
  }

  lemma CharsetIs(v: bv8)
    requires v < 32
    ensures Letter(Symbol(v)) == CHARSET[v as int]
  {
    hide Letter;
    if v < 16 {
      CharsetLow(v);
    } else {
      CharsetHigh(v);
    }
  }

  lemma PolyNext(c: Word, v: seq<Symbol>, x: Symbol)
    ensures Poly(c, v + [x]) == Step(Poly(c, v), x)
  {
    assert (v + [x])[..|v|] == v;
  }

  /** The checksum of "a1", symbol by symbol. */
  lemma Prefix()
    ensures Expanded("a") == [Symbol(3), ZERO, Symbol(1)]
    ensures Poly(Word(1), Expanded("a")) == Word(0x8c01)
  {
    hide Step;
    var v := [Symbol(3), ZERO, Symbol(1)];
    assert Expanded("a") == v;
    PolyNext(Word(1), [], Symbol(3));
    PolyNext(Word(1), [Symbol(3)], ZERO);
    PolyNext(Word(1), [Symbol(3), ZERO], Symbol(1));
    PrefixSteps();
  }

  lemma PrefixSteps()
    ensures Step(Word(1), Symbol(3)) == Word(0x23) && Step(Word(0x23), ZERO) == Word(0x460)
    ensures Step(Word(0x460), Symbol(1)) == Word(0x8c01)
  {
  }

  const BECH32_VALUES := [Symbol(10), Symbol(28), Symbol(25), Symbol(31), Symbol(20), Symbol(31)]

  lemma Bech32Steps()
    ensures Step(Word(0x8c01), Symbol(10)) == Word(0x11802a)
    ensures Step(Word(0x11802a), Symbol(28)) == Word(0x230055c)
    ensures Step(Word(0x230055c), Symbol(25)) == Word(0x3d6afc2b)
    ensures Step(Word(0x3d6afc2b), Symbol(31)) == Word(0x2f84386)
    ensures Step(Word(0x2f84386), Symbol(20)) == Word(0x24622766)
    ensures Step(Word(0x24622766), Symbol(31)) == Word(0x1)
  {
  }

  lemma Bech32Verifies()
    ensures Verifies(Bech32, "a", BECH32_VALUES)
  {
    hide Step, Poly;
    var v := BECH32_VALUES;
    Prefix();
    PolyAppend(Word(1), Expanded("a"), v);
    Bech32Steps();
    PolyNone(Word(0x8c01));
    PolyNext(Word(0x8c01), v[..0], v[0]);
    PolyNext(Word(0x8c01), v[..1], v[1]);
    PolyNext(Word(0x8c01), v[..2], v[2]);
    PolyNext(Word(0x8c01), v[..3], v[3]);
    PolyNext(Word(0x8c01), v[..4], v[4]);
    PolyNext(Word(0x8c01), v[..5], v[5]);
    assert v[..0] == [] && v[..0] + [v[0]] == v[..1] && v[..1] + [v[1]] == v[..2] && v[..2] + [v[2]] == v[..3];
    assert v[..3] + [v[3]] == v[..4] && v[..4] + [v[4]] == v[..5] && v[..5] + [v[5]] == v[..6] && v[..6] == v;
  }

  /** A string that decodes with this constant. */
  lemma KnownBech32()
    ensures Decoded("A12UEL5L") == Some(Decoding(Bech32, "a", []))
  {
    hide Poly, Verifies, CharactersOk;
    var s, v := "A12UEL5L", BECH32_VALUES;
    assert s[..1] == "A" && s[2..] == "2UEL5L";
    LastOneAt(s, 1);
    UpperBech32();
    Bech32Read();
    Bech32Verifies();
    VerifiesOnce(Bech32, "a", v);
    assert Lowered("A") == "a";
    assert v[..0] == [];
  }

  lemma UpperBech32()
    ensures CharactersOk("A12UEL5L")
  {
  }

  lemma Bech32Read()
    ensures Readable("2UEL5L") && Values("2UEL5L") == BECH32_VALUES
  {
  }

  lemma PolyNone(c: Word)
    ensures Poly(c, []) == c
  {
  }

  const BECH32M_VALUES := [Symbol(31), ZERO, Symbol(9), Symbol(19), Symbol(17), Symbol(29)]

  lemma Bech32mSteps()
    ensures Step(Word(0x8c01), Symbol(31)) == Word(0x11803f)
    ensures Step(Word(0x11803f), ZERO) == Word(0x23007e0)
    ensures Step(Word(0x23007e0), Symbol(9)) == Word(0x3d6aabbb)
    ensures Step(Word(0x3d6aabbb), Symbol(19)) == Word(0x2f2b18a)
    ensures Step(Word(0x2f2b18a), Symbol(17)) == Word(0x253c66e3)
    ensures Step(Word(0x253c66e3), Symbol(29)) == Word(0x2bc830a3)
  {
  }

  lemma Bech32mVerifies()
    ensures Verifies(Bech32m, "a", BECH32M_VALUES)
  {
    hide Step, Poly;
    var v := BECH32M_VALUES;
    Prefix();
    PolyAppend(Word(1), Expanded("a"), v);
    Bech32mSteps();
    PolyNone(Word(0x8c01));
    PolyNext(Word(0x8c01), v[..0], v[0]);
    PolyNext(Word(0x8c01), v[..1], v[1]);
    PolyNext(Word(0x8c01), v[..2], v[2]);
    PolyNext(Word(0x8c01), v[..3], v[3]);
    PolyNext(Word(0x8c01), v[..4], v[4]);
    PolyNext(Word(0x8c01), v[..5], v[5]);
    assert v[..0] == [] && v[..0] + [v[0]] == v[..1] && v[..1] + [v[1]] == v[..2] && v[..2] + [v[2]] == v[..3];
    assert v[..3] + [v[3]] == v[..4] && v[..4] + [v[4]] == v[..5] && v[..5] + [v[5]] == v[..6] && v[..6] == v;
  }

  /** A string that decodes with this constant. */
  lemma KnownBech32m()
    ensures Decoded("A1LQFN3A") == Some(Decoding(Bech32m, "a", []))
  {
    hide Poly, Verifies, CharactersOk;
    var s, v := "A1LQFN3A", BECH32M_VALUES;
    assert s[..1] == "A" && s[2..] == "LQFN3A";
    LastOneAt(s, 1);
    UpperBech32m();
    Bech32mRead();
    Bech32mVerifies();
    VerifiesOnce(Bech32m, "a", v);
    assert Lowered("A") == "a";
    assert v[..0] == [];
  }

  lemma UpperBech32m()
    ensures CharactersOk("A1LQFN3A")
  {
  }

  lemma Bech32mRead()
    ensures Readable("LQFN3A") && Values("LQFN3A") == BECH32M_VALUES
  {
  }
}
