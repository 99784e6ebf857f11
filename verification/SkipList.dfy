/** The skip heights of chain.cpp, and how many steps a walk along them takes. */
module SkipList {
  import opened Arithmetic
  import opened Radix
  import opened Limbs

  // ---------- skip heights ----------

  /** n & (n - 1), written out over the binary digits. */
  function InvertLowestOne(n: nat): (r: nat)
    ensures n > 0 ==> r < n
    ensures n == 0 ==> r == 0
  {
    if n == 0 then 0 else if n % 2 == 1 then n - 1 else 2 * InvertLowestOne(n / 2)
  }

  /** The lowest one becomes a zero and nothing else changes. */
  lemma {:induction false} InvertsLowestOne(n: nat)
    requires n > 0
    ensures exists k: nat :: n % Two(k + 1) == Two(k) && InvertLowestOne(n) == n - Two(k)
  {
    if n % 2 == 1 {
      assert Two(0) == 1 && Two(1) == 2;
      assert n % Two(0 + 1) == Two(0) && InvertLowestOne(n) == n - Two(0);
    } else {
      InvertsLowestOne(n / 2);
      var k: nat :| (n / 2) % Two(k + 1) == Two(k) && InvertLowestOne(n / 2) == n / 2 - Two(k);
      ShiftedOne(n / 2, k);
      assert n % Two((k + 1) + 1) == Two(k + 1) && InvertLowestOne(n) == n - Two(k + 1);
    }
  }

  lemma ShiftedOne(m: nat, k: nat)
    requires m % Two(k + 1) == Two(k)
    ensures 2 * m % Two(k + 2) == Two(k + 1) == 2 * Two(k)
  {
    hide Pow, Two;
    TwoStep(k);
    TwoStep(k + 1);
    var p, q := Two(k + 1), m / Two(k + 1);
    assert m == q * p + Two(k);
    MulDouble(q, p);
    DivModUnique(2 * m, Two(k + 2), q, Two(k + 1));
  }

  lemma TwoStep(k: nat)
    ensures Two(k + 1) == 2 * Two(k)
  {
  }

  lemma MulDouble(q: int, p: int)
    ensures q * (2 * p) == 2 * (q * p)
  {
  }

  function GetSkipHeight(height: nat): (r: nat)
    ensures height > 0 ==> r < height
    ensures height == 0 ==> r == 0
  {
    if height < 2 then 0
    else if height % 2 == 1 then InvertLowestOne(InvertLowestOne(height - 1)) + 1
    else InvertLowestOne(height)
  }

  // ---------- the walk ----------

  /** Whether the walk from height h to height t follows the skip pointer. */
  predicate TakesSkip(h: nat, t: nat)
    requires t < h
  {
    var skip, skipPrev := GetSkipHeight(h), GetSkipHeight(h - 1);
    skip == t || (skip > t && !(skipPrev < skip - 2 && skipPrev >= t))
  }

  function NextHeight(h: nat, t: nat): (r: nat)
    requires t < h
    ensures t <= r < h
  {
    if TakesSkip(h, t) then GetSkipHeight(h) else h - 1
  }

  function WalkSteps(h: nat, t: nat): nat
    requires t <= h
  {
    if h == t then 0 else 1 + WalkSteps(NextHeight(h, t), t)
  }

  // ---------- binary digits ----------

  function Ones(n: nat): nat {
    if n == 0 then 0 else n % 2 + Ones(n / 2)
  }

  lemma {:induction false} OnesInverted(n: nat)
    requires n > 0
    ensures Ones(InvertLowestOne(n)) == Ones(n) - 1
  {
    if n % 2 == 1 {
      assert (n - 1) / 2 == n / 2;
    } else {
      OnesInverted(n / 2);
      assert 2 * InvertLowestOne(n / 2) / 2 == InvertLowestOne(n / 2);
    }
  }

  lemma {:induction false} OnesFew(n: nat, b: nat)
    requires n < Two(b)
    ensures Ones(n) <= b
  {
    if n > 0 {
      assert Two(0) == 1;
      TwoStep(b - 1);
      OnesFew(n / 2, b - 1);
    }
  }

  /** How many low digits must be dropped before h and t agree. */
  function Level(h: nat, t: nat): nat
    decreases h + t
  {
    if h == t then 0 else 1 + Level(h / 2, t / 2)
  }

  lemma {:induction false} LevelMonotone(h: nat, r: nat, t: nat)
    requires t <= r <= h
    ensures Level(r, t) <= Level(h, t)
    decreases h
  {
    if r != t {
      LevelMonotone(h / 2, r / 2, t / 2);
    }
  }

  lemma {:induction false} LevelFew(h: nat, t: nat, b: nat)
    requires t <= h < Two(b)
    ensures Level(h, t) <= b
  {
    if h != t {
      assert Two(0) == 1;
      TwoStep(b - 1);
      LevelFew(h / 2, t / 2, b - 1);
    }
  }

  /** Stepping back from a height whose skip would overshoot makes more digits agree. */
  lemma {:induction false} LevelDrops(h: nat, t: nat)
    requires InvertLowestOne(h) <= t < h
    ensures Level(h - 1, t) < Level(h, t)
  {
    if h % 2 == 0 {
      assert (h - 1) / 2 == h / 2 - 1;
      LevelDrops(h / 2, t / 2);
    }
  }

  // ---------- the bound ----------

  /** Steps that may still come before more digits agree. */
  function Patience(h: nat, t: nat): nat
    requires t <= h
  {
    if h == t then 0
    else if h % 2 == 0 then 2 * Ones(h) + 2
    else if GetSkipHeight(h) < t then 2 * Ones(h - 1) + 3
    else if h == 1 then 1
    else 2 * Ones(h - 1)
  }

  lemma OnesDoubled(n: nat)
    ensures Ones(2 * n) == Ones(n) && Ones(2 * n + 1) == Ones(n) + 1
    ensures InvertLowestOne(2 * n) == 2 * InvertLowestOne(n) && InvertLowestOne(2 * n + 1) == 2 * n
  {
    assert 2 * n / 2 == n && (2 * n + 1) / 2 == n;
  }

  lemma OnesOfTwice(c: nat)
    ensures Ones(4 * c) == Ones(c) && Ones(4 * c + 2) == Ones(c) + 1
    ensures Ones(8 * c + 2) == Ones(c) + 1 && Ones(8 * c + 4) == Ones(c) + 1
  {
    hide Ones, InvertLowestOne;
    OnesDoubled(c);
    OnesDoubled(2 * c);
    OnesDoubled(2 * c + 1);
    OnesDoubled(4 * c + 1);
    OnesDoubled(4 * c + 2);
  }

  lemma SkipsOfEight(c: nat)
    requires c > 0
    ensures GetSkipHeight(8 * c - 1) == 8 * c - 7 && GetSkipHeight(8 * c) <= 8 * c - 8
  {
    hide InvertLowestOne, Ones;
    OnesDoubled(c);
    OnesDoubled(2 * c);
    OnesDoubled(4 * c);
    OnesDoubled(2 * (c - 1) + 1);
    OnesDoubled(4 * (c - 1) + 3);
    OnesDoubled(4 * (c - 1) + 2);
    OnesDoubled(c - 1);
    OnesDoubled(2 * (c - 1));
    assert InvertLowestOne(8 * c - 2) == 8 * c - 4;
  }

  lemma Eighths(h: nat) returns (c: nat, r: nat)
    requires h % 2 == 0
    ensures h == 8 * c + r && (r == 0 || r == 2 || r == 4 || r == 6)
  {
    c, r := h / 8, h % 8;
  }

  /** The shortcut past an even height is only taken when it adds no ones. */
  lemma ShortcutOnes(h: nat)
    requires h >= 2 && h % 2 == 0 && GetSkipHeight(h - 1) < GetSkipHeight(h) - 2
    ensures Ones(h - 2) <= Ones(h)
  {
    hide Ones, GetSkipHeight;
    var c, r := Eighths(h);
    if r == 0 {
      SkipsOfEight(c);
    } else if r == 2 {
      OnesOfTwice(2 * c);
    } else if r == 4 {
      OnesOfTwice(c);
    } else {
      OnesOfTwice(2 * c + 1);
    }
  }

  lemma EvenStep(h: nat, t: nat)
    requires t < h && h % 2 == 0
    ensures var r := NextHeight(h, t); Level(r, t) < Level(h, t) || Patience(r, t) < Patience(h, t)
  {
    var skip := GetSkipHeight(h);
    hide Ones, InvertLowestOne;
    if skip < t {
      LevelDrops(h, t);
    } else if skip > t {
      if TakesSkip(h, t) {
        OnesInverted(h);
        InvertedEven(h);
      } else {
        ShortcutOnes(h);
      }
    }
  }

  /** From an odd height the skip pointer is followed whenever it does not overshoot. */
  lemma OddJump(h: nat, t: nat)
    requires t < h && h % 2 == 1 && h > 1
    ensures TakesSkip(h, t) <==> GetSkipHeight(h) >= t
    ensures GetSkipHeight(h) % 2 == 1 && Ones(h - 1) > 0
    ensures GetSkipHeight(h) == 1 || Ones(GetSkipHeight(h) - 1) == Ones(h - 1) - 2
  {
    hide Ones, InvertLowestOne;
    var x := h - 1;
    var y := InvertLowestOne(x);
    OnesInverted(x);
    assert GetSkipHeight(x) == y;
    InvertedEven(x);
    if y > 0 {
      OnesInverted(y);
      InvertedEven(y);
    }
  }

  lemma InvertedEven(n: nat)
    ensures InvertLowestOne(n) % 2 == 0
  {
  }

  lemma OddStep(h: nat, t: nat)
    requires t < h && h % 2 == 1
    ensures var r := NextHeight(h, t); Patience(r, t) < Patience(h, t)
  {
    hide Ones;
    if h > 1 {
      hide InvertLowestOne, TakesSkip;
      OddJump(h, t);
    }
  }

  lemma PatienceFew(h: nat, t: nat, b: nat)
    requires t <= h < Two(b)
    ensures Patience(h, t) <= 2 * b + 3
  {
    OnesFew(h, b);
    if h > 0 {
      OnesFew(h - 1, b);
    }
  }

  lemma {:induction false} WalkBound(h: nat, t: nat, b: nat)
    requires t <= h < Two(b)
    ensures WalkSteps(h, t) <= Level(h, t) * (2 * b + 4) + Patience(h, t)
    decreases h
  {
    hide Ones, Level, Patience, NextHeight, Two;
    if h != t {
      var r := NextHeight(h, t);
      WalkBound(r, t, b);
      LevelMonotone(h, r, t);
      PatienceFew(r, t, b);
      if h % 2 == 0 {
        EvenStep(h, t);
      } else {
        OddStep(h, t);
      }
      if Level(r, t) < Level(h, t) {
        MulMonotone(Level(r, t) + 1, Level(h, t), 2 * b + 4);
      }
    }
  }

  lemma Quadratic(level: nat, patience: nat, b: nat)
    requires level <= b && patience <= 2 * b + 3
    ensures level * (2 * b + 4) + patience <= 2 * (b + 1) * (b + 2)
  {
    MulMonotone(level, b, 2 * b + 4);
    assert b * (2 * b + 4) == 2 * b * b + 4 * b;
    assert 2 * (b + 1) * (b + 2) == 2 * b * b + 6 * b + 4;
  }

  /** Main theorem. A walk from below 2^b to any lower height takes a number of steps that is
      quadratic in b, however long the chain is. */
  lemma WalkShort(h: nat, t: nat, b: nat)
    requires t <= h < Two(b)
    ensures WalkSteps(h, t) <= 2 * (b + 1) * (b + 2)
  {
    hide Two, Level, Patience, WalkSteps;
    WalkBound(h, t, b);
    LevelFew(h, t, b);
    PatienceFew(h, t, b);
    Quadratic(Level(h, t), Patience(h, t), b);
  }
}
