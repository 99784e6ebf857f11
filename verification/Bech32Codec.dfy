/** Strings of Bech32 and Bech32m: encoding, decoding, and how they undo each other. */
module Bech32Codec {
  import opened Options
  import opened Bech32

  datatype Encoding = Bech32 | Bech32m

  const CHECKSUM_SIZE := 6
  const MAX_LENGTH := 90

  function EncodingConstant(e: Encoding): Word {
    if e == Bech32 then Word(1) else Word(0x2bc830a3)
  }

  lemma ConstantsFit(e: Encoding)
    ensures Fits(EncodingConstant(e)) && EncodingConstant(Bech32) != EncodingConstant(Bech32m)
  {
  }

  // ---------- characters ----------

  function Letters0(b: bv8): char {
    if b == 0 then 'q' else if b == 1 then 'p' else if b == 2 then 'z' else if b == 3 then 'r'
    else if b == 4 then 'y' else if b == 5 then '9' else if b == 6 then 'x' else '8'
  }

  function Letters1(b: bv8): char {
    if b == 8 then 'g' else if b == 9 then 'f' else if b == 10 then '2' else if b == 11 then 't'
    else if b == 12 then 'v' else if b == 13 then 'd' else if b == 14 then 'w' else '0'
  }

  function Letters2(b: bv8): char {
    if b == 16 then 's' else if b == 17 then '3' else if b == 18 then 'j' else if b == 19 then 'n'
    else if b == 20 then '5' else if b == 21 then '4' else if b == 22 then 'k' else 'h'
  }

  function Letters3(b: bv8): char {
    if b == 24 then 'c' else if b == 25 then 'e' else if b == 26 then '6' else if b == 27 then 'm'
    else if b == 28 then 'u' else if b == 29 then 'a' else if b == 30 then '7' else 'l'
  }

  /** CHARSET. */
  function Letter(v: Symbol): char {
    var b := v.bits;
    if b < 8 then Letters0(b) else if b < 16 then Letters1(b) else if b < 24 then Letters2(b) else Letters3(b)
  }

  function Rev0(c: char): Option<Symbol> {
    if c == 'q' then Some(Symbol(0)) else if c == 'p' then Some(Symbol(1))
    else if c == 'z' then Some(Symbol(2)) else if c == 'r' then Some(Symbol(3))
    else if c == 'y' then Some(Symbol(4)) else if c == '9' then Some(Symbol(5))
    else if c == 'x' then Some(Symbol(6)) else if c == '8' then Some(Symbol(7)) else None
  }

  function Rev1(c: char): Option<Symbol> {
    if c == 'g' then Some(Symbol(8)) else if c == 'f' then Some(Symbol(9))
    else if c == '2' then Some(Symbol(10)) else if c == 't' then Some(Symbol(11))
    else if c == 'v' then Some(Symbol(12)) else if c == 'd' then Some(Symbol(13))
    else if c == 'w' then Some(Symbol(14)) else if c == '0' then Some(Symbol(15)) else None
  }

  function Rev2(c: char): Option<Symbol> {
    if c == 's' then Some(Symbol(16)) else if c == '3' then Some(Symbol(17))
    else if c == 'j' then Some(Symbol(18)) else if c == 'n' then Some(Symbol(19))
    else if c == '5' then Some(Symbol(20)) else if c == '4' then Some(Symbol(21))
    else if c == 'k' then Some(Symbol(22)) else if c == 'h' then Some(Symbol(23)) else None
  }

  function Rev3(c: char): Option<Symbol> {
    if c == 'c' then Some(Symbol(24)) else if c == 'e' then Some(Symbol(25))
    else if c == '6' then Some(Symbol(26)) else if c == 'm' then Some(Symbol(27))
    else if c == 'u' then Some(Symbol(28)) else if c == 'a' then Some(Symbol(29))
    else if c == '7' then Some(Symbol(30)) else if c == 'l' then Some(Symbol(31)) else None
  }

  function LowerCase(c: char): char {
    if 'A' <= c <= 'Z' then ((c as int) - ('A' as int) + ('a' as int)) as char else c
  }

  function Or(a: Option<Symbol>, b: Option<Symbol>): Option<Symbol> {
    if a.Some? then a else b
  }

  /** CHARSET_REV: both cases of a letter mean the same value. */
  function Rev(c: char): Option<Symbol> {
    var l := LowerCase(c);
    Or(Rev0(l), Or(Rev1(l), Or(Rev2(l), Rev3(l))))
  }

  lemma RevLetters0(b: bv8)
    requires 0 <= b < 8
    ensures Rev0(Letters0(b)) == Some(Symbol(b))
  {
  }

  lemma RevLetters1(b: bv8)
    requires 8 <= b < 16
    ensures Rev1(Letters1(b)) == Some(Symbol(b))
    ensures Rev0(Letters1(b)) == None
  {
  }

  lemma RevLetters2(b: bv8)
    requires 16 <= b < 24
    ensures Rev2(Letters2(b)) == Some(Symbol(b))
    ensures Rev0(Letters2(b)) == None
    ensures Rev1(Letters2(b)) == None
  {
  }

  lemma RevLetters3(b: bv8)
    requires 24 <= b < 32
    ensures Rev3(Letters3(b)) == Some(Symbol(b))
    ensures Rev0(Letters3(b)) == None
    ensures Rev1(Letters3(b)) == None
    ensures Rev2(Letters3(b)) == None
  {
  }

  lemma LettersRev0(c: char)
    requires Rev0(c).Some?
    ensures var b := Rev0(c).value.bits; 0 <= b < 8 && Letters0(b) == c
  {
  }

  lemma LettersRev1(c: char)
    requires Rev1(c).Some?
    ensures var b := Rev1(c).value.bits; 8 <= b < 16 && Letters1(b) == c
  {
  }

  lemma LettersRev2(c: char)
    requires Rev2(c).Some?
    ensures var b := Rev2(c).value.bits; 16 <= b < 24 && Letters2(b) == c
  {
  }

  lemma LettersRev3(c: char)
    requires Rev3(c).Some?
    ensures var b := Rev3(c).value.bits; 24 <= b < 32 && Letters3(b) == c
  {
  }

  lemma RevLetter(v: Symbol)
    requires FiveBit(v)
    ensures Rev(Letter(v)) == Some(v)
  {
    LetterKind(v);
    hide Letters0, Letters1, Letters2, Letters3, Rev0, Rev1, Rev2, Rev3;
    var b := v.bits;
    if b < 8 {
      RevLetters0(b);
    } else if b < 16 {
      RevLetters1(b);
    } else if b < 24 {
      RevLetters2(b);
    } else {
      RevLetters3(b);
    }
  }

  lemma LetterRev(c: char)
    requires Rev(c).Some?
    ensures FiveBit(Rev(c).value) && Letter(Rev(c).value) == LowerCase(c)
  {
    hide Letters0, Letters1, Letters2, Letters3, Rev0, Rev1, Rev2, Rev3, LowerCase;
    var l := LowerCase(c);
    if Rev0(l).Some? {
      LettersRev0(l);
    } else if Rev1(l).Some? {
      LettersRev1(l);
    } else if Rev2(l).Some? {
      LettersRev2(l);
    } else {
      LettersRev3(l);
    }
  }

  predicate IsLower(c: char) { 'a' <= c <= 'z' }
  predicate IsUpper(c: char) { 'A' <= c <= 'Z' }
  predicate Printable(c: char) { 33 as char <= c <= 126 as char }

  /** A letter of the alphabet is printable, is not the separator and is not upper case. */
  lemma LetterKind(v: Symbol)
    ensures Printable(Letter(v)) && !IsUpper(Letter(v)) && Letter(v) != '1'
  {
  }

  // ---------- the checksum of a string ----------

  function High(c: char): Symbol { Symbol((c as int % 256 / 32) as bv8) }
  function Low(c: char): Symbol { Symbol((c as int % 32) as bv8) }

  function Expanded(hrp: string): (r: seq<Symbol>)
    ensures |r| == 2 * |hrp| + 1
  {
    seq(|hrp|, i requires 0 <= i < |hrp| => High(hrp[i])) + [ZERO]
    + seq(|hrp|, i requires 0 <= i < |hrp| => Low(hrp[i]))
  }

  method ExpandHRP(hrp: string) returns (r: seq<Symbol>)
    ensures r == Expanded(hrp)
  {
    hide High, Low;
    var a := new Symbol[2 * |hrp| + 1](_ => ZERO);
    for i := 0 to |hrp|
      invariant forall k :: 0 <= k < i ==> a[k] == High(hrp[k]) && a[k + |hrp| + 1] == Low(hrp[k])
      invariant a[|hrp|] == ZERO
    {
      a[i] := High(hrp[i]);
      a[i + |hrp| + 1] := Low(hrp[i]);
    }
    a[|hrp|] := ZERO;
    r := a[..];
  }

  /** The values of this string, checksum included, are a code word. */
  predicate Verifies(e: Encoding, hrp: string, values: seq<Symbol>) {
    Poly(Word(1), Expanded(hrp) + values) == EncodingConstant(e)
  }

  method VerifyChecksum(hrp: string, values: seq<Symbol>) returns (found: Option<Encoding>)
    ensures found == Verified(hrp, values)
    ensures forall e :: found == Some(e) <==> Verifies(e, hrp, values)
  {
    hide Poly;
    ConstantsFit(Bech32);
    var expanded := ExpandHRP(hrp);
    var check := PolyMod(expanded + values);
    if check == EncodingConstant(Bech32) {
      return Some(Bech32);
    }
    if check == EncodingConstant(Bech32m) {
      return Some(Bech32m);
    }
    return None;
  }

  function Verified(hrp: string, values: seq<Symbol>): Option<Encoding> {
    if Verifies(Bech32, hrp, values) then Some(Bech32)
    else if Verifies(Bech32m, hrp, values) then Some(Bech32m)
    else None
  }

  const ZEROES := [ZERO, ZERO, ZERO, ZERO, ZERO, ZERO]

  function Checksum(e: Encoding, hrp: string, values: seq<Symbol>): (r: seq<Symbol>)
    ensures |r| == CHECKSUM_SIZE
  {
    Groups(Xor(Poly(Word(1), Expanded(hrp) + values + ZEROES), EncodingConstant(e)))
  }

  method CreateChecksum(e: Encoding, hrp: string, values: seq<Symbol>) returns (r: seq<Symbol>)
    ensures r == Checksum(e, hrp, values)
    ensures Verifies(e, hrp, values + r)
  {
    hide Poly, Xor, Group, Expanded, EncodingConstant;
    var expanded := ExpandHRP(hrp);
    var poly := PolyMod(expanded + values + ZEROES);
    var m := Xor(poly, EncodingConstant(e));
    r := [];
    for i := 0 to 6
      invariant |r| == i && forall k :: 0 <= k < i ==> r[k] == Group(m, k)
    {
      r := r + [Group(m, i)];
    }
    assert r == Groups(m);
    ChecksumVerifies(e, hrp, values);
  }

  lemma XorTwice(a: Word, k: Word)
    ensures Xor(a, Xor(a, k)) == k && Xor(a, Word(0)) == a
  {
  }

  lemma ZeroesXor(v: seq<Symbol>)
    requires |v| == 6
    ensures SymbolsXor(ZEROES, v) == v
  {
    forall i | 0 <= i < 6 ensures SymbolsXor(ZEROES, v)[i] == v[i] {
      assert SymbolXor(ZERO, v[i]) == v[i];
    }
  }

  /** Six symbols act on the state by XOR, so the checksum steers it to the constant. */
  lemma SixAct(c: Word, v: seq<Symbol>)
    requires |v| == 6
    ensures Poly(c, v) == Xor(Poly(c, ZEROES), Poly(Word(0), v))
  {
    hide Poly, Xor;
    PolyXor(c, Word(0), ZEROES, v);
    ZeroesXor(v);
    XorTwice(c, c);
  }

  lemma ChecksumVerifies(e: Encoding, hrp: string, values: seq<Symbol>)
    ensures Verifies(e, hrp, values + Checksum(e, hrp, values))
  {
    hide Poly, Xor, Groups, Fits, Expanded, EncodingConstant;
    var start := Expanded(hrp) + values;
    var c := Poly(Word(1), start);
    var m := Xor(Poly(Word(1), start + ZEROES), EncodingConstant(e));
    PolyAppend(Word(1), start, ZEROES);
    PolyAppend(Word(1), start, Groups(m));
    assert start + Groups(m) == Expanded(hrp) + (values + Checksum(e, hrp, values));
    SixAct(c, Groups(m));
    OneFits();
    PolyFits(Word(1), start + ZEROES);
    ConstantsFit(e);
    XorFits(Poly(Word(1), start + ZEROES), EncodingConstant(e));
    PolyOfGroups(m, 6);
    assert Groups(m)[..6] == Groups(m);
    XorTwice(Poly(c, ZEROES), EncodingConstant(e));
  }

  lemma OneFits()
    ensures Fits(Word(1))
  {
  }

  /** Two lists of values of the same string that differ only inside a window of six symbols
      never both verify: in particular a single wrong symbol, or two neighbours swapped. */
  lemma BurstDetected(e: Encoding, hrp: string, before: seq<Symbol>, x: seq<Symbol>, y: seq<Symbol>, after: seq<Symbol>)
    requires |x| == |y| <= 6 && AllFiveBit(x) && AllFiveBit(y)
    requires Verifies(e, hrp, before + x + after) && Verifies(e, hrp, before + y + after)
    ensures x == y
  {
    hide Poly, Fits, Expanded;
    var c := Poly(Word(1), Expanded(hrp) + before);
    assert Expanded(hrp) + (before + x + after) == Expanded(hrp) + before + x + after;
    assert Expanded(hrp) + (before + y + after) == Expanded(hrp) + before + y + after;
    PolyAppend(Word(1), Expanded(hrp) + before, x);
    PolyAppend(Word(1), Expanded(hrp) + before, y);
    PolyAppend(Word(1), Expanded(hrp) + before + x, after);
    PolyAppend(Word(1), Expanded(hrp) + before + y, after);
    OneFits();
    PolyFits(Word(1), Expanded(hrp) + before + x);
    PolyFits(Word(1), Expanded(hrp) + before + y);
    PolyInjective(Poly(c, x), Poly(c, y), after);
    WindowInjective(c, x, y);
  }

  /** The error-detection promise for one symbol. */
  lemma SingleErrorDetected(e: Encoding, hrp: string, values: seq<Symbol>, i: nat, v: Symbol)
    requires AllFiveBit(values) && i < |values| && FiveBit(v) && v != values[i]
    requires Verifies(e, hrp, values)
    ensures !Verifies(e, hrp, values[i := v])
  {
    hide Verifies;
    if Verifies(e, hrp, values[i := v]) {
      assert values == values[..i] + [values[i]] + values[i + 1..];
      assert values[i := v] == values[..i] + [v] + values[i + 1..];
      BurstDetected(e, hrp, values[..i], [values[i]], [v], values[i + 1..]);
    }
  }

  // ---------- encoding ----------

  function Letters(values: seq<Symbol>): (r: string)
    ensures |r| == |values| && forall i :: 0 <= i < |r| ==> r[i] == Letter(values[i])
  {
    seq(|values|, i requires 0 <= i < |values| => Letter(values[i]))
  }

  function Encoded(e: Encoding, hrp: string, values: seq<Symbol>): string {
    hrp + "1" + Letters(values + Checksum(e, hrp, values))
  }

  predicate NoUpper(s: string) { forall i :: 0 <= i < |s| ==> !IsUpper(s[i]) }

  method Encode(e: Encoding, hrp: string, values: seq<Symbol>) returns (r: string)
    requires NoUpper(hrp) && AllFiveBit(values)
    ensures r == Encoded(e, hrp, values)
  {
    hide Verifies, Letter, Checksum;
    var checksum := CreateChecksum(e, hrp, values);
    var combined := values + checksum;
    r := hrp + "1";
    for i := 0 to |combined|
      invariant r == hrp + "1" + Letters(combined[..i])
    {
      r := r + [Letter(combined[i])];
      assert combined[..i + 1] == combined[..i] + [combined[i]];
      assert Letters(combined[..i + 1]) == Letters(combined[..i]) + [Letter(combined[i])];
    }
    assert combined[..|combined|] == combined;
  }

  // ---------- decoding ----------

  /** Printable characters only, and not both cases. */
  predicate CharactersOk(s: string) {
    && (forall i :: 0 <= i < |s| ==> Printable(s[i]))
    && !((exists i :: 0 <= i < |s| && IsLower(s[i])) && (exists i :: 0 <= i < |s| && IsUpper(s[i])))
  }

  datatype LetterCase = NoLetter | Lower | Upper

  /** The case of the first letter among the first i characters. */
  function FirstCase(s: string, i: nat): LetterCase
    requires i <= |s|
  {
    if i == 0 then NoLetter
    else if FirstCase(s, i - 1) != NoLetter then FirstCase(s, i - 1)
    else if IsLower(s[i - 1]) then Lower
    else if IsUpper(s[i - 1]) then Upper
    else NoLetter
  }

  /** Not printable, or a letter whose case differs from that of the first letter. */
  predicate BadCharacter(s: string, i: nat)
    requires i < |s|
  {
    !Printable(s[i]) || (IsLower(s[i]) && FirstCase(s, i) == Upper) || (IsUpper(s[i]) && FirstCase(s, i) == Lower)
  }

  /** The first letter has the case recorded, and no case is recorded only when there is no letter. */
  lemma {:induction false} FirstCaseIs(s: string, i: nat)
    requires i <= |s|
    ensures FirstCase(s, i) == Lower ==> exists k :: 0 <= k < i && IsLower(s[k])
    ensures FirstCase(s, i) == Upper ==> exists k :: 0 <= k < i && IsUpper(s[k])
    ensures FirstCase(s, i) == NoLetter ==> forall k :: 0 <= k < i ==> !IsLower(s[k]) && !IsUpper(s[k])
  {
    if i > 0 {
      FirstCaseIs(s, i - 1);
    }
  }

  lemma {:induction false} FirstCaseStays(s: string, i: nat, j: nat)
    requires i <= j <= |s| && FirstCase(s, i) != NoLetter
    ensures FirstCase(s, j) == FirstCase(s, i)
    decreases j
  {
    if i < j {
      FirstCaseStays(s, i, j - 1);
    }
  }

  /** Letters of both cases: one whose case differs from that of the first letter is bad. */
  lemma MixedIsBad(s: string, i: nat, j: nat)
    requires i < |s| && j < |s| && IsLower(s[i]) && IsUpper(s[j])
    ensures exists k: nat :: k < |s| && BadCharacter(s, k)
  {
    var first := FirstCase(s, |s|);
    FirstCaseIs(s, |s|);
    var k := if first == Upper then i else j;
    FirstCaseIs(s, k);
    FirstCaseIs(s, k + 1);
    if FirstCase(s, k) != NoLetter {
      FirstCaseStays(s, k, |s|);
    } else {
      FirstCaseStays(s, k + 1, |s|);
    }
    assert BadCharacter(s, k);
  }

  /** A string is in order exactly when no character is bad. */
  lemma NoBadCharacter(s: string)
    ensures CharactersOk(s) <==> forall i :: 0 <= i < |s| ==> !BadCharacter(s, i)
  {
    hide FirstCase;
    if CharactersOk(s) {
      forall i | 0 <= i < |s| ensures !BadCharacter(s, i) {
        FirstCaseIs(s, i);
      }
    } else if forall i :: 0 <= i < |s| ==> !BadCharacter(s, i) {
      forall i | 0 <= i < |s| ensures Printable(s[i]) {
        assert !BadCharacter(s, i);
      }
      var i :| 0 <= i < |s| && IsLower(s[i]);
      var j :| 0 <= j < |s| && IsUpper(s[j]);
      MixedIsBad(s, i, j);
    }
  }

  /** Lists exactly the bad characters, in order. */
  method CheckCharacters(s: string) returns (errors: seq<nat>)
    ensures errors == [] <==> CharactersOk(s)
    ensures forall k :: 0 <= k < |errors| ==> errors[k] < |s| && BadCharacter(s, errors[k])
    ensures forall j, k :: 0 <= j < k < |errors| ==> errors[j] < errors[k]
    ensures forall i :: 0 <= i < |s| && BadCharacter(s, i) ==> i in errors
  {
    hide CharactersOk;
    var lower, upper := false, false;
    errors := [];
    for i := 0 to |s|
      invariant forall k :: 0 <= k < |errors| ==> errors[k] < i && BadCharacter(s, errors[k])
      invariant forall j, k :: 0 <= j < k < |errors| ==> errors[j] < errors[k]
      invariant forall k :: 0 <= k < i && BadCharacter(s, k) ==> k in errors
      invariant (lower <==> FirstCase(s, i) == Lower) && (upper <==> FirstCase(s, i) == Upper)
    {
      var c := s[i];
      if IsLower(c) {
        if upper {
          errors := errors + [i];
        } else {
          lower := true;
        }
      } else if IsUpper(c) {
        if lower {
          errors := errors + [i];
        } else {
          upper := true;
        }
      } else if c < 33 as char || c > 126 as char {
        errors := errors + [i];
      }
    }
    NoBadCharacter(s);
    if errors == [] {
      assert forall i :: 0 <= i < |s| ==> !BadCharacter(s, i);
    } else {
      assert BadCharacter(s, errors[0]);
    }
  }

  /** The position of the last separator, or -1. */
  function LastOne(s: string): (pos: int)
    ensures -1 <= pos < |s| && (pos >= 0 ==> s[pos] == '1')
    ensures forall i :: pos < i < |s| ==> s[i] != '1'
  {
    if s == "" then -1 else if s[|s| - 1] == '1' then |s| - 1 else LastOne(s[..|s| - 1])
  }

  lemma LastOneAt(s: string, pos: nat)
    requires pos < |s| && s[pos] == '1' && forall i :: pos < i < |s| ==> s[i] != '1'
    ensures LastOne(s) == pos
  {
  }

  method FindLastOne(s: string) returns (pos: int)
    ensures pos == LastOne(s)
  {
    pos := |s| - 1;
    while pos >= 0 && s[pos] != '1'
      invariant -1 <= pos < |s| && forall i :: pos < i < |s| ==> s[i] != '1'
    {
      pos := pos - 1;
    }
    if pos >= 0 {
      LastOneAt(s, pos);
    }
  }

  function Lowered(s: string): (r: string)
    ensures |r| == |s| && forall i :: 0 <= i < |s| ==> r[i] == LowerCase(s[i])
  {
    seq(|s|, i requires 0 <= i < |s| => LowerCase(s[i]))
  }

  predicate Readable(s: string) { forall i :: 0 <= i < |s| ==> Rev(s[i]).Some? }

  function Values(s: string): (r: seq<Symbol>)
    requires Readable(s)
    ensures |r| == |s| && forall i :: 0 <= i < |s| ==> r[i] == Rev(s[i]).value
  {
    seq(|s|, i requires 0 <= i < |s| => Rev(s[i]).value)
  }

  datatype Decoding = Decoding(encoding: Encoding, hrp: string, values: seq<Symbol>)

  /** Length, separator and alphabet are right. */
  predicate Framed(s: string) {
    && CharactersOk(s) && |s| <= MAX_LENGTH
    && LastOne(s) > 0 && LastOne(s) + 7 <= |s|
    && Readable(s[LastOne(s) + 1..])
  }

  function Decoded(s: string): Option<Decoding> {
    if !Framed(s) then None else
      var pos := LastOne(s);
      var hrp, values := Lowered(s[..pos]), Values(s[pos + 1..]);
      match Verified(hrp, values)
      case None => None
      case Some(e) => Some(Decoding(e, hrp, values[..|values| - CHECKSUM_SIZE]))
  }

  method Decode(s: string) returns (r: Option<Decoding>)
    ensures r == Decoded(s)
  {
    hide CharactersOk, Rev, LowerCase, Verified, Verifies, LastOne;
    var errors := CheckCharacters(s);
    if errors != [] {
      return None;
    }
    var pos := FindLastOne(s);
    if |s| > MAX_LENGTH || pos <= 0 || pos + 7 > |s| {
      return None;
    }
    var rest := s[pos + 1..];
    var values := [];
    for i := 0 to |rest|
      invariant Readable(rest[..i]) && values == Values(rest[..i])
    {
      var rev := Rev(rest[i]);
      if rev == None {
        return None;
      }
      values := values + [rev.value];
    }
    assert rest[..|rest|] == rest;
    var hrp := "";
    for i := 0 to pos
      invariant hrp == Lowered(s[..i])
    {
      hrp := hrp + [LowerCase(s[i])];
    }
    var found := VerifyChecksum(hrp, values);
    if found == None {
      return None;
    }
    return Some(Decoding(found.value, hrp, values[..|values| - CHECKSUM_SIZE]));
  }

  // ---------- round trips ----------

  /** What the format asks of a human-readable part and a payload. */
  predicate Encodable(hrp: string, values: seq<Symbol>) {
    && hrp != "" && (forall i :: 0 <= i < |hrp| ==> Printable(hrp[i]))
    && |hrp| + 7 + |values| <= 90
  }

  lemma EncodedShape(e: Encoding, hrp: string, values: seq<Symbol>)
    requires NoUpper(hrp)
    ensures var s := Encoded(e, hrp, values);
            && |s| == |hrp| + 1 + |values| + CHECKSUM_SIZE && LastOne(s) == |hrp|
            && s[..|hrp|] == hrp && s[|hrp| + 1..] == Letters(values + Checksum(e, hrp, values))
            && (CharactersOk(s) <==> forall i :: 0 <= i < |hrp| ==> Printable(hrp[i]))
  {
    hide Letter, Checksum, LastOne, Printable, IsUpper, IsLower;
    var s := Encoded(e, hrp, values);
    forall v: Symbol ensures Printable(Letter(v)) && !IsUpper(Letter(v)) && Letter(v) != '1' {
      LetterKind(v);
    }
    LastOneAt(s, |hrp|);
    SeparatorKind();
    assert forall i :: 0 <= i < |hrp| ==> s[i] == hrp[i];
    assert NoUpper(s);
  }

  lemma SeparatorKind()
    ensures Printable('1') && !IsUpper('1') && LowerCase('1') == '1'
  {
  }

  lemma ValuesOfLetters(v: seq<Symbol>)
    requires AllFiveBit(v)
    ensures Readable(Letters(v)) && Values(Letters(v)) == v
  {
    hide Rev, Letter, FiveBit;
    forall i | 0 <= i < |v| ensures Rev(Letters(v)[i]) == Some(v[i]) {
      RevLetter(v[i]);
    }
  }

  lemma LoweredSame(s: string)
    requires NoUpper(s)
    ensures Lowered(s) == s
  {
  }

  lemma AppendFiveBit(a: seq<Symbol>, b: seq<Symbol>)
    requires AllFiveBit(a) && AllFiveBit(b)
    ensures AllFiveBit(a + b)
  {
  }

  lemma ChecksumFiveBit(e: Encoding, hrp: string, values: seq<Symbol>)
    ensures AllFiveBit(Checksum(e, hrp, values))
  {
    hide Groups, Poly, FiveBit;
    GroupsFiveBit(Xor(Poly(Word(1), Expanded(hrp) + values + ZEROES), EncodingConstant(e)));
  }

  /** Decoding an encoding gives back exactly what was encoded, if and only if the
      human-readable part is non-empty and printable and the string is not too long. */
  lemma DecodeEncode(e: Encoding, hrp: string, values: seq<Symbol>)
    requires NoUpper(hrp) && AllFiveBit(values)
    ensures Decoded(Encoded(e, hrp, values)) == if Encodable(hrp, values) then Some(Decoding(e, hrp, values)) else None
  {
    hide CharactersOk, LastOne, Encoded, Checksum, Verifies, FiveBit, Letter, Rev, IsUpper, Printable;
    var combined := values + Checksum(e, hrp, values);
    EncodedShape(e, hrp, values);
    ChecksumFiveBit(e, hrp, values);
    AppendFiveBit(values, Checksum(e, hrp, values));
    ValuesOfLetters(combined);
    LoweredSame(hrp);
    ChecksumVerifies(e, hrp, values);
    VerifiesOnce(e, hrp, combined);
    assert combined[..|combined| - CHECKSUM_SIZE] == values;
  }

  lemma VerifiesOnce(e: Encoding, hrp: string, values: seq<Symbol>)
    requires Verifies(e, hrp, values)
    ensures Verified(hrp, values) == Some(e)
  {
    ConstantsFit(e);
  }

  lemma ValuesFiveBit(s: string)
    requires Readable(s)
    ensures AllFiveBit(Values(s)) && Letters(Values(s)) == Lowered(s)
  {
    hide Rev, Letter, FiveBit, LowerCase;
    forall i | 0 <= i < |s| ensures FiveBit(Values(s)[i]) && Letter(Values(s)[i]) == LowerCase(s[i]) {
      LetterRev(s[i]);
    }
  }

  /** The last six values of a string that verifies are the only possible checksum. */
  lemma ChecksumUnique(e: Encoding, hrp: string, values: seq<Symbol>, checksum: seq<Symbol>)
    requires |checksum| == CHECKSUM_SIZE && AllFiveBit(checksum) && Verifies(e, hrp, values + checksum)
    ensures checksum == Checksum(e, hrp, values)
  {
    hide Verifies, FiveBit, Checksum;
    ChecksumFiveBit(e, hrp, values);
    ChecksumVerifies(e, hrp, values);
    assert values + checksum + [] == values + checksum;
    assert values + Checksum(e, hrp, values) + [] == values + Checksum(e, hrp, values);
    BurstDetected(e, hrp, values, checksum, Checksum(e, hrp, values), []);
  }

  /** What a decoded string consists of. */
  lemma DecodedParts(s: string)
    requires Decoded(s).Some?
    ensures var d, pos := Decoded(s).value, LastOne(s);
            && 0 < pos && pos + 7 <= |s| && Readable(s[pos + 1..]) && d.hrp == Lowered(s[..pos])
            && var values := Values(s[pos + 1..]);
               d.values == values[..|values| - CHECKSUM_SIZE] && Verifies(d.encoding, d.hrp, values)
  {
    hide CharactersOk, LastOne, Verifies, Rev, LowerCase;
  }

  lemma LoweredParts(s: string, pos: nat)
    requires pos < |s| && s[pos] == '1'
    ensures Lowered(s) == Lowered(s[..pos]) + "1" + Lowered(s[pos + 1..])
  {
    hide LowerCase;
    SeparatorKind();
  }

  /** Encoding what a string decodes to gives the string back, in lower case. */
  lemma EncodeDecode(s: string)
    requires Decoded(s).Some?
    ensures var d := Decoded(s).value; Encoded(d.encoding, d.hrp, d.values) == Lowered(s)
  {
    hide Decoded, Framed, LastOne, Checksum, Verifies, Letters, FiveBit, Lowered, Readable;
    var d := Decoded(s).value;
    var pos := LastOne(s);
    DecodedParts(s);
    var values := Values(s[pos + 1..]);
    ValuesFiveBit(s[pos + 1..]);
    var checksum := values[|values| - CHECKSUM_SIZE..];
    assert values == d.values + checksum;
    ChecksumUnique(d.encoding, d.hrp, d.values, checksum);
    LoweredParts(s, pos);
  }

  // ---------- exactly what is decoded ----------

  lemma LowerKind(c: char)
    ensures !IsUpper(LowerCase(c)) && LowerCase(LowerCase(c)) == LowerCase(c) && (LowerCase(c) == '1' <==> c == '1')
    ensures Printable(LowerCase(c)) <==> Printable(c)
  {
  }

  lemma LoweredKind(s: string)
    ensures NoUpper(Lowered(s)) && Lowered(Lowered(s)) == Lowered(s)
    ensures (forall i :: 0 <= i < |s| ==> Printable(Lowered(s)[i])) <==> forall i :: 0 <= i < |s| ==> Printable(s[i])
  {
    hide LowerCase, IsUpper, Printable;
    forall i | 0 <= i < |s|
      ensures !IsUpper(Lowered(s)[i]) && LowerCase(Lowered(s)[i]) == Lowered(s)[i]
      ensures Printable(Lowered(s)[i]) <==> Printable(s[i])
    {
      LowerKind(s[i]);
    }
  }

  lemma RevLower(c: char)
    ensures Rev(LowerCase(c)) == Rev(c)
  {
    LowerKind(c);
    hide LowerCase;
  }

  lemma LowCharacters(s: string)
    requires CharactersOk(s)
    ensures CharactersOk(Lowered(s))
  {
    hide LowerCase, Printable;
    LoweredKind(s);
  }

  lemma LastOneLower(s: string)
    ensures LastOne(Lowered(s)) == LastOne(s)
  {
    hide LowerCase, LastOne;
    forall i | 0 <= i < |s| ensures Lowered(s)[i] == '1' <==> s[i] == '1' {
      LowerKind(s[i]);
    }
  }

  lemma ReadableLower(s: string)
    ensures Readable(Lowered(s)) <==> Readable(s)
    ensures Readable(s) ==> Values(Lowered(s)) == Values(s)
  {
    hide LowerCase, Rev;
    forall i | 0 <= i < |s| ensures Rev(Lowered(s)[i]) == Rev(s[i]) {
      RevLower(s[i]);
    }
  }

  lemma LoweredSlices(s: string, pos: nat)
    requires pos <= |s|
    ensures Lowered(s)[..pos] == Lowered(s[..pos]) && Lowered(s)[pos..] == Lowered(s[pos..])
  {
    hide LowerCase;
  }

  /** Decoding does not depend on the case, unless both cases occur. */
  lemma CaseIgnored(s: string)
    requires CharactersOk(s)
    ensures Decoded(Lowered(s)) == Decoded(s)
  {
    hide LastOne, Rev, LowerCase, Verified, CharactersOk, Lowered, Readable;
    LowCharacters(s);
    LastOneLower(s);
    var pos := LastOne(s);
    if pos > 0 && pos + 7 <= |s| {
      LoweredSlices(s, pos);
      LoweredSlices(s, pos + 1);
      ReadableLower(s[pos + 1..]);
      LoweredKind(s[..pos]);
    }
  }

  lemma DecodedKind(s: string)
    requires Decoded(s).Some?
    ensures var d := Decoded(s).value;
            CharactersOk(s) && NoUpper(d.hrp) && AllFiveBit(d.values) && Encodable(d.hrp, d.values)
  {
    hide LastOne, Rev, LowerCase, Verified, IsUpper, FiveBit, Printable;
    DecodedParts(s);
    var d, pos := Decoded(s).value, LastOne(s);
    ValuesFiveBit(s[pos + 1..]);
    LoweredKind(s[..pos]);
    forall i | 0 <= i < pos ensures Printable(s[..pos][i]) {
      assert s[..pos][i] == s[i];
    }
  }

  /** Main theorem. A string decodes to this prefix and these values exactly if it is, but for the case, their
      encoding, does not mix the cases and is within the limits of the format. */
  lemma DecodedExactly(s: string, e: Encoding, hrp: string, values: seq<Symbol>)
    ensures Decoded(s) == Some(Decoding(e, hrp, values)) <==>
            && CharactersOk(s) && NoUpper(hrp) && AllFiveBit(values) && Encodable(hrp, values)
            && Lowered(s) == Encoded(e, hrp, values)
  {
    hide Decoded, CharactersOk, Encoded, Lowered, FiveBit, IsUpper, Encodable;
    if Decoded(s) == Some(Decoding(e, hrp, values)) {
      DecodedKind(s);
      EncodeDecode(s);
    }
    if CharactersOk(s) && NoUpper(hrp) && AllFiveBit(values) && Encodable(hrp, values)
       && Lowered(s) == Encoded(e, hrp, values)
    {
      DecodeEncode(e, hrp, values);
      CaseIgnored(s);
    }
  }
}
