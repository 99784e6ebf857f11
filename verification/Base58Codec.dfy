/** Base58 strings of base58.cpp, and how encoding and decoding undo each other. */
module Base58Codec {
  import opened Options
  import opened Arithmetic
  import opened Radix
  import opened Base58

  // ---------- the alphabet ----------

  function Nth(first: char, k: nat): char
    requires k < 26 && first < 'n'
  {
    (first as int + k) as char
  }

  /** pszBase58: the alphanumeric characters except 0, I, O and l. */
  function Letter(d: int): char
    requires 0 <= d < 58
  {
    if d < 9 then Nth('1', d) else if d < 17 then Nth('A', d - 9) else if d < 22 then Nth('J', d - 17)
    else if d < 33 then Nth('P', d - 22) else if d < 44 then Nth('a', d - 33) else Nth('m', d - 44)
  }

  function From(c: char, first: char, d: int): int { c as int - first as int + d }

  /** mapBase58: the value of a character, or -1. */
  function Digit(c: char): int {
    if '1' <= c <= '9' then From(c, '1', 0) else if 'A' <= c <= 'H' then From(c, 'A', 9)
    else if 'J' <= c <= 'N' then From(c, 'J', 17) else if 'P' <= c <= 'Z' then From(c, 'P', 22)
    else if 'a' <= c <= 'k' then From(c, 'a', 33) else if 'm' <= c <= 'z' then From(c, 'm', 44) else -1
  }

  predicate IsSpace(c: char) {
    c == ' ' || c == 12 as char || c == '\n' || c == '\r' || c == '\t' || c == 11 as char
  }

  /** The space and the characters 9 to 13. */
  lemma SpacesAre(c: char)
    ensures IsSpace(c) <==> c as int == 32 || 9 <= c as int <= 13
  {
  }

  lemma DigitLetter(d: int)
    requires 0 <= d < 58
    ensures Digit(Letter(d)) == d && !IsSpace(Letter(d)) && Letter(d) != 0 as char && (Letter(d) == '1' <==> d == 0)
  {
  }

  lemma LetterDigit(c: char)
    requires Digit(c) != -1
    ensures 0 <= Digit(c) < 58 && Letter(Digit(c)) == c && !IsSpace(c) && (c == '1' <==> Digit(c) == 0)
  {
  }

  const ALPHABET := "123456789" + "ABCDEFGH" + "JKLMN" + "PQRSTUVWXYZ" + "abcdefghijk" + "mnopqrstuvwxyz"

  lemma AlphabetIs(d: int)
    requires 0 <= d < 58
    ensures |ALPHABET| == 58 && Letter(d) == ALPHABET[d]
  {
    if d < 17 {
      AlphabetStart(d);
    } else if d < 33 {
      AlphabetMiddle(d);
    } else {
      AlphabetEnd(d);
    }
  }

  lemma AlphabetStart(d: int)
    requires 0 <= d < 17
    ensures Letter(d) == ALPHABET[d]
  {
    assert d == 0 || d == 1 || d == 2 || d == 3 || d == 4 || d == 5 || d == 6 || d == 7 || d == 8 || d == 9
           || d == 10 || d == 11 || d == 12 || d == 13 || d == 14 || d == 15 || d == 16;
  }

  lemma AlphabetMiddle(d: int)
    requires 17 <= d < 33
    ensures Letter(d) == ALPHABET[d]
  {
    assert d == 17 || d == 18 || d == 19 || d == 20 || d == 21 || d == 22 || d == 23 || d == 24 || d == 25
           || d == 26 || d == 27 || d == 28 || d == 29 || d == 30 || d == 31 || d == 32;
  }

  lemma AlphabetEnd(d: int)
    requires 33 <= d < 58
    ensures Letter(d) == ALPHABET[d]
  {
    assert d == 33 || d == 34 || d == 35 || d == 36 || d == 37 || d == 38 || d == 39 || d == 40 || d == 41
           || d == 42 || d == 43 || d == 44 || d == 45 || d == 46 || d == 47 || d == 48 || d == 49 || d == 50
           || d == 51 || d == 52 || d == 53 || d == 54 || d == 55 || d == 56 || d == 57;
  }

  predicate IsOne(c: char) { c == '1' }
  predicate IsZero(x: int) { x == 0 }
  predicate NotSpace(c: char) { !IsSpace(c) }

  /** How many leading elements satisfy p. */
  function Lead<T>(s: seq<T>, p: T -> bool): (k: nat)
    ensures k <= |s| && (forall i :: 0 <= i < k ==> p(s[i])) && (k < |s| ==> !p(s[k]))
  {
    if s == [] || !p(s[0]) then 0 else 1 + Lead(s[1..], p)
  }

  lemma LeadIs<T>(s: seq<T>, p: T -> bool, k: nat)
    requires k <= |s| && (forall i :: 0 <= i < k ==> p(s[i])) && (k < |s| ==> !p(s[k]))
    ensures Lead(s, p) == k
  {
  }

  method CountLead<T>(s: seq<T>, p: T -> bool) returns (k: nat)
    ensures k == Lead(s, p)
  {
    k := 0;
    while k < |s| && p(s[k])
      invariant k <= |s| && forall i :: 0 <= i < k ==> p(s[i])
    {
      k := k + 1;
    }
    LeadIs(s, p, k);
  }

  // ---------- encoding ----------

  function Letters(d: seq<int>): (r: string)
    requires Digits(d, 58)
    ensures |r| == |d| && forall i :: 0 <= i < |d| ==> r[i] == Letter(d[i])
  {
    seq(|d|, i requires 0 <= i < |d| => Letter(d[i]))
  }

  function Repeat<T>(x: T, n: nat): (r: seq<T>)
    ensures |r| == n && forall i :: 0 <= i < n ==> r[i] == x
  {
    seq(n, i => x)
  }

  /** Leading zero bytes become ones; the rest is written in base 58. */
  function Encoded(b: seq<int>): string
    requires Digits(b, 256)
  {
    var z := Lead(b, IsZero);
    ValRange(b[z..], 256);
    Repeat('1', z) + Letters(ToBase(Val(b[z..], 256), 58))
  }

  lemma ValPrefixRoom(t: seq<int>, b: nat, k: nat)
    requires b > 0 && Digits(t, b) && k < |t|
    ensures t[..k + 1][..k] == t[..k] && 0 <= Val(t[..k], b)
    ensures Val(t[..k], b) * b + t[k] == Val(t[..k + 1], b) < Pow(b, |t|)
  {
    assert t[..k + 1][..k] == t[..k];
    ValRange(t[..k], b);
    ValRange(t[..k + 1], b);
    PowMonotone(b, k + 1, |t|);
  }

  method Convert(t: seq<int>, source: nat, target: nat, size: nat) returns (r: seq<int>)
    requires source > 1 && target > 1 && Digits(t, source) && Pow(source, |t|) < Pow(target, size)
    ensures 0 <= Val(t, source) && r == ToBase(Val(t, source), target)
  {
    hide Pow, Val;
    var a := new int[size](_ => 0);
    var length := 0;
    EmptyVal(a[..], source, target);
    for k := 0 to |t|
      invariant Canonical(a[..], target, length) && Val(a[..], target) == Val(t[..k], source)
    {
      ValPrefixRoom(t, source, k);
      length := MulAdd(a, target, source, t[k], length);
    }
    assert t[..|t|] == t;
    CanonicalVal(a[..], target, length);
    r := a[size - length..];
    assert r == a[..][size - length..];
  }

  lemma EmptyVal(s: seq<int>, source: nat, target: nat)
    requires forall i :: 0 <= i < |s| ==> s[i] == 0
    ensures Val(s, target) == 0 == Val([], source)
  {
    ValZeros(s, target);
  }

  method Translate(z: nat, digits: seq<int>) returns (r: string)
    requires Digits(digits, 58)
    ensures r == Repeat('1', z) + Letters(digits)
  {
    hide Letter;
    r := Repeat('1', z);
    for i := 0 to |digits|
      invariant r == Repeat('1', z) + Letters(digits[..i])
    {
      r := r + [Letter(digits[i])];
    }
    assert digits[..|digits|] == digits;
  }

  method Encode(b: seq<int>) returns (r: string)
    requires Digits(b, 256)
    ensures r == Encoded(b)
  {
    hide Pow, Val, Letters, ToBase, Lead;
    var z := CountLead(b, IsZero);
    var input := b[z..];
    EncodeRoom(|input|);
    var digits := Convert(input, 256, 58, EncodeSize(|input|));
    var skip := CountLead(digits, IsZero);
    r := Translate(z, digits[skip..]);
  }

  // ---------- decoding ----------

  predicate AllDigits(s: string) { forall i :: 0 <= i < |s| ==> Digit(s[i]) != -1 }

  predicate AllSpaces(s: string) { forall i :: 0 <= i < |s| ==> IsSpace(s[i]) }

  function DigitsOf(s: string): (r: seq<int>)
    requires AllDigits(s)
    ensures |r| == |s| && Digits(r, 58) && forall i :: 0 <= i < |s| ==> r[i] == Digit(s[i])
  {
    seq(|s|, i requires 0 <= i < |s| => Digit(s[i]))
  }

  /** A number of ones, then a word of digits, then spaces. */
  function DecodedBody(z: nat, word: string, rest: string, max: nat): Option<seq<int>> {
    if !AllDigits(word) || !AllSpaces(rest) then None else
      ValRange(DigitsOf(word), 58);
      var r := Repeat(0, z) + ToBase(Val(DigitsOf(word), 58), 256);
      if |r| <= max then Some(r) else None
  }

  function Decoded(s: string, max: nat): Option<seq<int>> {
    if 0 as char in s then None else
      var t := s[Lead(s, IsSpace)..];
      var z := Lead(t, IsOne);
      var n := Lead(t[z..], NotSpace);
      DecodedBody(z, t[z..][..n], t[z..][n..], max)
  }

  lemma {:induction false} LengthMonotone(v: nat, w: nat, b: nat)
    requires b > 1 && v <= w
    ensures |ToBase(v, b)| <= |ToBase(w, b)|
    decreases w
  {
    if v > 0 {
      DivMonotone(v, w, b);
      DivSmaller(w, b);
      DivSmaller(v, b);
      LengthMonotone(v / b, w / b, b);
    }
  }

  lemma {:induction false} PrefixBelow(t: seq<int>, b: nat, k: nat)
    requires b > 0 && Digits(t, b) && k <= |t|
    ensures 0 <= Val(t[..k], b) <= Val(t, b)
    decreases |t| - k
  {
    if k == |t| {
      assert t[..k] == t;
      ValRange(t, b);
    } else {
      ValPrefixRoom(t, b, k);
      PrefixBelow(t, b, k + 1);
      MulMonotone(1, b, Val(t[..k], b));
    }
  }

  /** A prefix that is already too long stays too long. */
  lemma TooLong(z: nat, word: string, rest: string, max: nat, k: nat)
    requires k <= |word| && AllDigits(word[..k])
    requires 0 <= Val(DigitsOf(word[..k]), 58) && z + |ToBase(Val(DigitsOf(word[..k]), 58), 256)| > max
    ensures DecodedBody(z, word, rest, max) == None
  {
    hide Val, ToBase, Digit;
    if AllDigits(word) {
      assert DigitsOf(word[..k]) == DigitsOf(word)[..k];
      PrefixBelow(DigitsOf(word), 58, k);
      LengthMonotone(Val(DigitsOf(word[..k]), 58), Val(DigitsOf(word), 58), 256);
    }
  }

  lemma WordRoom(word: string, k: nat, size: nat)
    requires k < |word| && AllDigits(word[..k]) && Digit(word[k]) != -1 && size >= DecodeSize(|word|)
    ensures AllDigits(word[..k + 1]) && 0 <= Val(DigitsOf(word[..k]), 58)
    ensures Val(DigitsOf(word[..k]), 58) * 58 + Digit(word[k]) == Val(DigitsOf(word[..k + 1]), 58) < Pow(256, size)
  {
    hide Val, Pow, Digit;
    var t := DigitsOf(word[..k + 1]);
    ValPrefixRoom(t, 58, k);
    assert t[..k] == DigitsOf(word[..k]) && t[..k + 1] == t;
    DecodeRoom(|word|);
    PowMonotone(58, k + 1, |word|);
    PowMonotone(256, DecodeSize(|word|), size);
  }

  /** The loop over the characters; it stops as soon as the result is too long. */
  method DecodeWord(z: nat, word: string, ghost rest: string, size: nat, max: nat) returns (r: Option<seq<int>>)
    requires z <= max && size >= DecodeSize(|word|)
    ensures r.Some?
            ==> AllDigits(word) && 0 <= Val(DigitsOf(word), 58) && r.value == ToBase(Val(DigitsOf(word), 58), 256)
    ensures r.Some? ==> z + |r.value| <= max
    ensures r.None? ==> DecodedBody(z, word, rest, max) == None
  {
    hide Pow, Val, Digit, DecodedBody, ToBase;
    var a := new int[size](_ => 0);
    var length: nat := 0;
    EmptyVal(a[..], 58, 256);
    assert DigitsOf(word[..0]) == [];
    for k := 0 to |word|
      invariant AllDigits(word[..k]) && Canonical(a[..], 256, length) && z + length <= max
      invariant Val(a[..], 256) == Val(DigitsOf(word[..k]), 58)
    {
      if Digit(word[k]) == -1 {
        NotADigit(z, word, rest, max, k);
        return None;
      }
      WordRoom(word, k, size);
      LetterDigit(word[k]);
      length := MulAdd(a, 256, 58, Digit(word[k]), length);
      CanonicalVal(a[..], 256, length);
      if length + z > max {
        TooLong(z, word, rest, max, k + 1);
        return None;
      }
    }
    assert word[..|word|] == word;
    CanonicalVal(a[..], 256, length);
    assert a[size - length..] == a[..][size - length..];
    return Some(a[size - length..]);
  }

  lemma NotADigit(z: nat, word: string, rest: string, max: nat, k: nat)
    requires k < |word| && Digit(word[k]) == -1
    ensures DecodedBody(z, word, rest, max) == None
  {
  }

  method Decode(s: string, max: nat) returns (r: Option<seq<int>>)
    ensures r == Decoded(s, max)
  {
    hide Pow, Val, Digit, ToBase, Lead;
    if 0 as char in s {
      return None;
    }
    var spaces := CountLead(s, IsSpace);
    var t := s[spaces..];
    var z := CountLead(t, IsOne);
    if z > max {
      return None;
    }
    var body := t[z..];
    var n := CountLead(body, NotSpace);
    var rest := body[n..];
    var bytes := DecodeWord(z, body[..n], rest, DecodeSize(|body|), max);
    if bytes.None? {
      return None;
    }
    var trailing := CountLead(rest, IsSpace);
    if trailing != |rest| {
      return None;
    }
    return Some(Repeat(0, z) + bytes.value);
  }

  // ---------- round trips ----------

  lemma DigitsOfLetters(d: seq<int>)
    requires Digits(d, 58)
    ensures AllDigits(Letters(d)) && DigitsOf(Letters(d)) == d
    ensures forall i :: 0 <= i < |d| ==>
              NotSpace(Letters(d)[i]) && Letters(d)[i] != 0 as char && (IsOne(Letters(d)[i]) <==> d[i] == 0)
  {
    hide Letter, Digit, IsSpace;
    forall i | 0 <= i < |d|
      ensures Digit(Letters(d)[i]) == d[i] && !IsSpace(Letters(d)[i])
      ensures Letters(d)[i] != 0 as char && (Letters(d)[i] == '1' <==> d[i] == 0)
    {
      DigitLetter(d[i]);
    }
  }

  /** The digits of an encoding: a zero for every leading zero byte, then the numeral. */
  lemma EncodedDigits(b: seq<int>)
    requires Digits(b, 256)
    ensures var z := Lead(b, IsZero);
            Val(b[z..], 256) >= 0 && Encoded(b) == Letters(Repeat(0, z) + ToBase(Val(b[z..], 256), 58))
  {
    hide Letter, Lead, Val, ToBase;
    var z := Lead(b, IsZero);
    ValRange(b[z..], 256);
    LetterOfZero();
  }

  lemma LeadingNothing(b: seq<int>, z: nat, base: nat)
    requires z <= |b| && forall i :: 0 <= i < z ==> b[i] == 0
    ensures Val(b, base) == Val(b[z..], base)
  {
    hide Val;
    assert b == b[..z] + b[z..];
    ValAppend(b[..z], b[z..], base);
    ValZeros(b[..z], base);
  }

  /** Read as numerals, a byte string and its encoding have the same value, and as many leading zeros. */
  lemma EncodedValue(b: seq<int>)
    requires Digits(b, 256)
    ensures AllDigits(Encoded(b)) && Val(DigitsOf(Encoded(b)), 58) == Val(b, 256)
    ensures Lead(Encoded(b), IsOne) == Lead(b, IsZero)
  {
    hide Letter, Digit, Lead, Val, ToBase, Encoded, IsSpace;
    var z := Lead(b, IsZero);
    ValRange(b[z..], 256);
    var t := ToBase(Val(b[z..], 256), 58);
    var d := Repeat(0, z) + t;
    EncodedDigits(b);
    DigitsOfLetters(d);
    LeadingNothing(b, z, 256);
    LeadingNothing(d, z, 58);
    assert d[z..] == t;
    LeadIs(Letters(d), IsOne, z);
  }

  lemma LetterOfZero()
    ensures Letter(0) == '1'
  {
  }

  lemma LettersOfDigits(s: string)
    requires AllDigits(s)
    ensures Letters(DigitsOf(s)) == s
  {
    hide Letter, Digit, IsSpace;
    forall i | 0 <= i < |s| ensures Letters(DigitsOf(s))[i] == s[i] {
      LetterDigit(s[i]);
    }
  }

  lemma OneKind()
    ensures !IsSpace('1') && Digit('1') == 0 && '1' != 0 as char
  {
  }

  /** How an encoding is taken apart again. */
  lemma EncodedParts(z: nat, d: seq<int>)
    requires Digits(d, 58) && (d != [] ==> d[0] != 0)
    ensures var s := Repeat('1', z) + Letters(d);
            && 0 as char !in s && Lead(s, IsSpace) == 0 && Lead(s, IsOne) == z
            && s[z..] == Letters(d) && Lead(Letters(d), NotSpace) == |d|
  {
    hide Letter, Digit, IsSpace, Lead;
    var s := Repeat('1', z) + Letters(d);
    DigitsOfLetters(d);
    OneKind();
    LeadIs(s, IsSpace, 0);
    LeadIs(s, IsOne, z);
    LeadIs(Letters(d), NotSpace, |d|);
  }

  /** Decoding an encoding gives back every byte string, leading zeros included, unless it is
      longer than the caller allows. */
  lemma DecodeEncode(b: seq<int>, max: nat)
    requires Digits(b, 256)
    ensures Decoded(Encoded(b), max) == if |b| <= max then Some(b) else None
  {
    hide Letter, Digit, Lead, Val, ToBase, IsSpace;
    var z := Lead(b, IsZero);
    ValRange(b[z..], 256);
    var d := ToBase(Val(b[z..], 256), 58);
    EncodedParts(z, d);
    DigitsOfLetters(d);
    var s := Encoded(b);
    assert s[0..] == s && Letters(d)[..|d|] == Letters(d);
    ToBaseUnique(b[z..], 256);
    assert Repeat(0, z) + b[z..] == b;
  }

  /** A string without the spaces around it. */
  function Trimmed(s: string): string {
    var t := s[Lead(s, IsSpace)..];
    t[..Lead(t, NotSpace)]
  }

  lemma TrimmedParts(s: string)
    ensures var t := s[Lead(s, IsSpace)..];
            var z := Lead(t, IsOne);
            Trimmed(s) == Repeat('1', z) + t[z..][..Lead(t[z..], NotSpace)]
  {
    hide IsSpace, Lead;
    OneKind();
    var t := s[Lead(s, IsSpace)..];
    var z := Lead(t, IsOne);
    var n := Lead(t[z..], NotSpace);
    forall i | 0 <= i < z + n ensures NotSpace(t[i]) {
      if i >= z {
        assert t[i] == t[z..][i - z];
      }
    }
    assert z + n < |t| ==> t[z + n] == t[z..][n];
    LeadIs(t, NotSpace, z + n);
    assert t[..z + n] == Repeat('1', z) + t[z..][..n];
  }

  /** Encoding what a string decodes to gives the string back, without the spaces around it. */
  lemma EncodeDecode(s: string, max: nat)
    requires Decoded(s, max).Some?
    ensures Digits(Decoded(s, max).value, 256) && Encoded(Decoded(s, max).value) == Trimmed(s)
  {
    hide Letter, Digit, Lead, Val, ToBase, IsSpace, Trimmed;
    var t := s[Lead(s, IsSpace)..];
    var z := Lead(t, IsOne);
    var word := t[z..][..Lead(t[z..], NotSpace)];
    var b := Decoded(s, max).value;
    TrimmedParts(s);
    LeadIs(b, IsZero, z);
    ValRange(DigitsOf(word), 58);
    assert b[z..] == ToBase(Val(DigitsOf(word), 58), 256);
    if word != "" {
      LetterDigit(word[0]);
    }
    ToBaseUnique(DigitsOf(word), 58);
    LettersOfDigits(word);
  }

  // ---------- exactly what is decoded ----------

  /** An encoding with spaces around it. */
  ghost predicate Padded(s: string, t: string) {
    exists pre: string, post: string :: Surrounds(s, pre, t, post)
  }

  predicate Surrounds(s: string, pre: string, t: string, post: string) {
    s == pre + t + post && AllSpaces(pre) && AllSpaces(post)
  }

  predicate NoSpaces(t: string) { forall i :: 0 <= i < |t| ==> NotSpace(t[i]) }

  lemma SpaceKind()
    ensures !IsSpace(0 as char) && !IsSpace('1')
  {
  }

  /** Where the parts of a padded word are found. */
  lemma PaddedParts(s: string, pre: string, t: string, post: string)
    requires Surrounds(s, pre, t, post) && NoSpaces(t) && t != ""
    ensures Lead(s, IsSpace) == |pre| && s[|pre|..] == t + post
  {
    hide IsSpace, Lead;
    assert s[|pre|] == t[0];
    LeadIs(s, IsSpace, |pre|);
  }

  lemma OnesBefore(t: string, post: string)
    requires AllSpaces(post)
    ensures Lead(t + post, IsOne) == Lead(t, IsOne)
  {
    SpaceKind();
    hide IsSpace, Lead;
    var z := Lead(t, IsOne);
    LeadIs(t + post, IsOne, z);
  }

  lemma WordBefore(w: string, post: string)
    requires NoSpaces(w) && AllSpaces(post)
    ensures Lead(w + post, NotSpace) == |w|
  {
    hide IsSpace, Lead;
    LeadIs(w + post, NotSpace, |w|);
  }

  lemma WordParts(t: string, post: string)
    requires NoSpaces(t) && AllSpaces(post)
    ensures var z := Lead(t, IsOne);
            && Lead(t + post, IsOne) == z && (t + post)[z..] == t[z..] + post
            && Lead(t[z..] + post, NotSpace) == |t| - z
  {
    hide IsSpace, Lead, AllSpaces, NotSpace;
    OnesBefore(t, post);
    WordBefore(t[Lead(t, IsOne)..], post);
  }

  lemma NoNul(s: string, pre: string, t: string, post: string)
    requires Surrounds(s, pre, t, post) && 0 as char !in t
    ensures 0 as char !in s
  {
    SpaceKind();
    hide IsSpace;
    forall i | 0 <= i < |s| ensures s[i] != 0 as char {
      if i < |pre| {
        assert s[i] == pre[i];
      } else if i < |pre| + |t| {
        assert s[i] == t[i - |pre|];
      } else {
        assert s[i] == post[i - |pre| - |t|];
      }
    }
  }

  /** Spaces around a word change nothing. */
  lemma DecodedTrims(s: string, pre: string, t: string, post: string, max: nat)
    requires Surrounds(s, pre, t, post) && NoSpaces(t) && t != "" && 0 as char !in t
    ensures Decoded(s, max) == Decoded(t, max)
  {
    hide IsSpace, Lead, DecodedBody, NotSpace;
    NoNul(s, pre, t, post);
    PaddedParts(s, pre, t, post);
    assert t == "" + t + "";
    PaddedParts(t, "", t, "");
    assert t[0..] == t && t + "" == t;
    WordParts(t, post);
    WordParts(t, "");
    var z := Lead(t, IsOne);
    assert t[z..] + "" == t[z..];
    var n := |t| - z;
    assert (t[z..] + post)[..n] == t[z..] && (t[z..] + post)[n..] == post;
    assert t[z..][..n] == t[z..] && t[z..][n..] == "";
    SameBody(z, t[z..], post, max);
  }

  lemma SameBody(z: nat, word: string, post: string, max: nat)
    requires AllSpaces(post)
    ensures DecodedBody(z, word, post, max) == DecodedBody(z, word, "", max)
  {
  }

  /** Only spaces: nothing, of length zero. */
  lemma DecodedBlank(s: string, max: nat)
    requires AllSpaces(s)
    ensures Decoded(s, max) == Some([])
  {
    SpaceKind();
    hide IsSpace;
    LeadIs(s, IsSpace, |s|);
    assert s[|s|..] == "";
    assert Val([], 58) == 0 && ToBase(0, 256) == [];
    var word := "";
    assert DigitsOf(word) == [];
  }

  lemma EncodedPlain(b: seq<int>)
    requires Digits(b, 256)
    ensures NoSpaces(Encoded(b)) && 0 as char !in Encoded(b) && (Encoded(b) == "" <==> b == [])
  {
    hide Letter, Digit, IsSpace, Lead, Val, ToBase;
    var z := Lead(b, IsZero);
    ValRange(b[z..], 256);
    EncodedDigits(b);
    DigitsOfLetters(Repeat(0, z) + ToBase(Val(b[z..], 256), 58));
    DecodeEncode(b, |b|);
    DecodedBlank("", |b|);
    EncodedNothing();
  }

  lemma EncodedNothing()
    ensures Encoded([]) == ""
  {
  }

  /** Main theorem. A string decodes to these bytes exactly if it is their encoding with spaces around it and there
      are not more of them than the caller allows. */
  lemma DecodedExactly(s: string, b: seq<int>, max: nat)
    ensures Decoded(s, max) == Some(b) <==> Digits(b, 256) && |b| <= max && Padded(s, Encoded(b))
  {
    hide IsSpace, Lead, DecodedBody, Encoded, Decoded, AllSpaces;
    if Decoded(s, max) == Some(b) {
      EncodeDecode(s, max);
      TrimmedPads(s, max);
      DecodeEncode(b, max);
      EncodedFits(s, b, max);
    }
    if Digits(b, 256) && |b| <= max && Padded(s, Encoded(b)) {
      var pre: string, post: string :| Surrounds(s, pre, Encoded(b), post);
      EncodedPlain(b);
      DecodeEncode(b, max);
      if b == [] {
        SpacesJoin(pre, post);
        assert s == pre + post;
        DecodedBlank(s, max);
      } else {
        DecodedTrims(s, pre, Encoded(b), post, max);
      }
    }
  }

  lemma SpacesJoin(a: string, b: string)
    requires AllSpaces(a) && AllSpaces(b)
    ensures AllSpaces(a + b)
  {
  }

  lemma EncodedFits(s: string, b: seq<int>, max: nat)
    requires Decoded(s, max) == Some(b)
    ensures |b| <= max
  {
    hide Lead, IsSpace, Val, ToBase, Digit;
  }

  lemma RestIsSpaces(s: string, max: nat)
    requires Decoded(s, max).Some?
    ensures var t := s[Lead(s, IsSpace)..];
            var z := Lead(t, IsOne);
            AllSpaces(t[z..][Lead(t[z..], NotSpace)..]) && AllSpaces(s[..Lead(s, IsSpace)])
  {
    hide IsSpace, Lead, Digit, Val, ToBase;
  }

  lemma Cut(s: string, k: nat, z: nat, n: nat)
    requires k <= |s| && z <= |s[k..]| && n <= |s[k..][z..]| && forall i :: 0 <= i < z ==> s[k..][i] == '1'
    ensures s == s[..k] + (Repeat('1', z) + s[k..][z..][..n]) + s[k..][z..][n..]
  {
    var t := s[k..];
    assert t == Repeat('1', z) + t[z..][..n] + t[z..][n..];
  }

  /** What is decoded is the trimmed string, and around it there are only spaces. */
  lemma TrimmedPads(s: string, max: nat)
    requires Decoded(s, max).Some?
    ensures Padded(s, Trimmed(s))
  {
    hide IsSpace, Lead, Trimmed, Decoded, AllSpaces;
    RestIsSpaces(s, max);
    TrimmedParts(s);
    var k := Lead(s, IsSpace);
    var z := Lead(s[k..], IsOne);
    var n := Lead(s[k..][z..], NotSpace);
    Cut(s, k, z, n);
    assert Surrounds(s, s[..k], Trimmed(s), s[k..][z..][n..]);
  }
}
