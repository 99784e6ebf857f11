/** The cuckoo cache of cuckoocache.h: a table with eight possible slots per element, flags for
    slots that may be overwritten, and epoch bits. The hash functions are arbitrary. */
module CuckooCache {
  import opened Arithmetic

  /** Elements; 0 is the value a fresh slot holds. */
  type Element = nat
  const DEFAULT: Element := 0

  const LOCATIONS: nat := 8
  const WORD: nat := 0x1_0000_0000

  type Entry = (Element, bool)   // an element and its epoch bit

  /** Maps a 32-bit hash onto [0, n). */
  function FastRange(x: nat, n: nat): (r: nat)
    requires x < WORD && n > 0
    ensures r < n
  {
    MulMonotone(x, WORD - 1, n);
    MulMonotone(0, x, n);
    x * n / WORD
  }

  ghost predicate HashOk(hash: (Element, nat) -> nat) {
    forall e: Element, k: nat :: hash(e, k) < WORD
  }

  function Locs(hash: (Element, nat) -> nat, size: nat, e: Element): (r: seq<nat>)
    requires HashOk(hash) && size > 0
    ensures |r| == LOCATIONS && forall k :: 0 <= k < LOCATIONS ==> r[k] < size
  {
    seq(LOCATIONS, k requires 0 <= k < LOCATIONS => FastRange(hash(e, k), size))
  }

  // ---------- the table as a collection ----------

  ghost predicate WellPlaced(hash: (Element, nat) -> nat, t: seq<Element>)
    requires HashOk(hash) && |t| > 0
  {
    forall i :: 0 <= i < |t| && t[i] != DEFAULT ==> i in Locs(hash, |t|, t[i])
  }

  predicate Distinct(t: seq<Element>) {
    forall i, j :: 0 <= i < j < |t| && t[i] != DEFAULT ==> t[i] != t[j]
  }

  function Entries(t: seq<Element>, epoch: seq<bool>): (r: seq<Entry>)
    requires |t| == |epoch|
    ensures |r| == |t| && forall i :: 0 <= i < |t| ==> r[i] == (t[i], epoch[i])
  {
    seq(|t|, i requires 0 <= i < |t| => (t[i], epoch[i]))
  }

  /** Putting an entry in a slot takes the old one out. */
  lemma SwapEntry(t: seq<Element>, epoch: seq<bool>, i: nat, e: Element, b: bool)
    requires |t| == |epoch| && i < |t|
    ensures multiset(Entries(t[i := e], epoch[i := b])) + multiset{(t[i], epoch[i])} ==
            multiset(Entries(t, epoch)) + multiset{(e, b)}
  {
    var s := Entries(t, epoch);
    EntriesUpdate(t, epoch, i, e, b);
    assert s == s[..i] + [s[i]] + s[i + 1..];
    assert s[i := (e, b)] == s[..i] + [(e, b)] + s[i + 1..];
  }

  lemma SwapKeepsTable(hash: (Element, nat) -> nat, t: seq<Element>, i: nat, e: Element)
    requires HashOk(hash) && i < |t| && WellPlaced(hash, t) && Distinct(t) && e !in t && i in Locs(hash, |t|, e)
    ensures WellPlaced(hash, t[i := e]) && Distinct(t[i := e]) && (t[i] != DEFAULT ==> t[i] !in t[i := e])
  {
    hide Locs;
  }

  /** A well placed element is found by looking in its eight slots. */
  lemma FoundIffPresent(hash: (Element, nat) -> nat, t: seq<Element>, e: Element)
    requires HashOk(hash) && |t| > 0 && WellPlaced(hash, t) && e != DEFAULT
    ensures e in t <==> exists k :: 0 <= k < LOCATIONS && t[Locs(hash, |t|, e)[k]] == e
  {
    hide Locs;
    if e in t {
      var i :| 0 <= i < |t| && t[i] == e;
      assert i in Locs(hash, |t|, e);
    }
  }

  /** The first index of x, or the length. */
  function IndexOf(s: seq<nat>, x: int): (k: nat)
    ensures k <= |s| && (k < |s| ==> s[k] == x)
  {
    if s == [] then 0 else if s[0] == x then 0 else 1 + IndexOf(s[1..], x)
  }

  /** How many entries of the newest epoch are not discardable. */
  function Living(epoch: seq<bool>, discard: seq<bool>): nat
    requires |epoch| == |discard|
  {
    if epoch == [] then 0 else
      var n := |epoch| - 1;
      Living(epoch[..n], discard[..n]) + if epoch[n] && !discard[n] then 1 else 0
  }

  /** 45 percent of the slots, in 32-bit arithmetic: the product wraps for very large tables. */
  function EpochSize(size: nat): nat { Max(1, 45 * size % WORD / 100) }

  // ---------- aging ----------

  /** Whether the newest epoch is full when the counter has run out. */
  predicate Ages(counter: nat, epochSize: nat, epoch: seq<bool>, discard: seq<bool>)
    requires |epoch| == |discard|
  {
    counter == 0 && Living(epoch, discard) >= epochSize
  }

  /** Entries of the old epoch may be overwritten, ... */
  function AgedDiscard(counter: nat, epochSize: nat, epoch: seq<bool>, discard: seq<bool>): (r: seq<bool>)
    requires |epoch| == |discard|
    ensures |r| == |discard|
  {
    if Ages(counter, epochSize, epoch, discard)
    then seq(|discard|, i requires 0 <= i < |discard| => discard[i] || !epoch[i]) else discard
  }

  /** ... those of the newest epoch become old, ... */
  function AgedEpoch(counter: nat, epochSize: nat, epoch: seq<bool>, discard: seq<bool>): (r: seq<bool>)
    requires |epoch| == |discard|
    ensures |r| == |epoch|
  {
    if Ages(counter, epochSize, epoch, discard) then seq(|epoch|, i => false) else epoch
  }

  /** ... and the counter says when to look again. */
  function AgedCounter(counter: nat, epochSize: nat, epoch: seq<bool>, discard: seq<bool>): nat
    requires |epoch| == |discard|
  {
    if counter != 0 then counter - 1
    else if Living(epoch, discard) >= epochSize then epochSize
    else Max(1, Max(epochSize / 16, epochSize - Living(epoch, discard)))
  }

  /** An entry that may be overwritten is dead, one of the newest epoch is young, and the others are old. */
  datatype Stage = Young | Old | Dead

  function StageOf(epoch: bool, discard: bool): Stage {
    if discard then Dead else if epoch then Young else Old
  }

  /** Aging moves every entry one stage on, exactly when the counter has run out and there are enough living ones. An
      entry that was just inserted survives one aging and may be overwritten after the second. */
  lemma AgingMovesOn(counter: nat, epochSize: nat, epoch: seq<bool>, discard: seq<bool>, i: nat)
    requires |epoch| == |discard| && i < |epoch|
    ensures var e, d := AgedEpoch(counter, epochSize, epoch, discard), AgedDiscard(counter, epochSize, epoch, discard);
            StageOf(e[i], d[i]) ==
            if counter > 0 || Living(epoch, discard) < epochSize then StageOf(epoch[i], discard[i])
            else match StageOf(epoch[i], discard[i]) case Young => Old case _ => Dead
  {
  }

  lemma {:induction false} LivingUpdate(epoch: seq<bool>, discard: seq<bool>, i: nat, e: bool, d: bool)
    requires |epoch| == |discard| && i < |epoch|
    ensures Living(epoch[i := e], discard[i := d]) ==
            Living(epoch, discard) - One(epoch[i] && !discard[i]) + One(e && !d)
  {
    var n := |epoch| - 1;
    if i == n {
      assert epoch[i := e][..n] == epoch[..n] && discard[i := d][..n] == discard[..n];
    } else {
      LivingUpdate(epoch[..n], discard[..n], i, e, d);
      assert epoch[i := e][..n] == epoch[..n][i := e] && discard[i := d][..n] == discard[..n][i := d];
    }
  }

  lemma {:induction false} LivingFewer(epoch: seq<bool>, discard: seq<bool>, more: seq<bool>)
    requires |epoch| == |discard| == |more| && forall i :: 0 <= i < |discard| && discard[i] ==> more[i]
    ensures Living(epoch, more) <= Living(epoch, discard)
  {
    if epoch != [] {
      var n := |epoch| - 1;
      LivingFewer(epoch[..n], discard[..n], more[..n]);
    }
  }

  lemma {:induction false} NoneLiving(epoch: seq<bool>, discard: seq<bool>)
    requires |epoch| == |discard| && forall i :: 0 <= i < |epoch| ==> !epoch[i]
    ensures Living(epoch, discard) == 0
  {
    if epoch != [] {
      NoneLiving(epoch[..|epoch| - 1], discard[..|epoch| - 1]);
    }
  }

  /** The number of living entries and of insertions until the next count stay within this sum. */
  function EpochLimit(epochSize: nat): nat { epochSize + Max(1, epochSize / 16) }

  /** The counter is set so that there is room for the insertions until it runs out. */
  lemma AgedRoom(counter: nat, epochSize: nat, epoch: seq<bool>, discard: seq<bool>)
    requires |epoch| == |discard| && Living(epoch, discard) + counter <= EpochLimit(epochSize)
    ensures var e, d := AgedEpoch(counter, epochSize, epoch, discard), AgedDiscard(counter, epochSize, epoch, discard);
            Living(e, d) + AgedCounter(counter, epochSize, epoch, discard) + 1 <= EpochLimit(epochSize)
  {
    hide Living;
    if Ages(counter, epochSize, epoch, discard) {
      NoneLiving(AgedEpoch(counter, epochSize, epoch, discard), AgedDiscard(counter, epochSize, epoch, discard));
    }
  }

  // ---------- the search for a slot ----------

  /** The first of these locations that may be overwritten, or the number of locations. */
  function FirstOpen(locs: seq<nat>, discard: seq<bool>): (k: nat)
    requires forall i :: 0 <= i < |locs| ==> locs[i] < |discard|
    ensures k <= |locs| && (k < |locs| ==> discard[locs[k]]) && forall i :: 0 <= i < k ==> !discard[locs[i]]
  {
    if locs == [] then 0 else if discard[locs[0]] then 0 else 1 + FirstOpen(locs[1..], discard)
  }

  /** The table, the entry that has no slot at the moment, and the slot it was taken from. */
  datatype Search = Search(entries: seq<Entry>, carried: Entry, last: int)

  ghost predicate Searchable(hash: (Element, nat) -> nat, discard: seq<bool>, s: Search) {
    HashOk(hash) && |s.entries| == |discard| && |discard| > 0
  }

  /** No location of the carried element may be overwritten. */
  predicate Blocked(hash: (Element, nat) -> nat, discard: seq<bool>, s: Search)
    requires Searchable(hash, discard, s)
  {
    FirstOpen(Locs(hash, |discard|, s.carried.0), discard) == LOCATIONS
  }

  /** The first open location, or the one after the location the element was taken from. */
  function NextSlot(hash: (Element, nat) -> nat, discard: seq<bool>, s: Search): (i: nat)
    requires Searchable(hash, discard, s)
    ensures i < |discard| && (discard[i] <==> !Blocked(hash, discard, s))
  {
    var locs := Locs(hash, |discard|, s.carried.0);
    if Blocked(hash, discard, s) then locs[(1 + IndexOf(locs, s.last)) % LOCATIONS] else locs[FirstOpen(locs, discard)]
  }

  lemma {:induction false} IndexOfNone(s: seq<nat>)
    ensures IndexOf(s, -1) == |s|
  {
    if s != [] {
      IndexOfNone(s[1..]);
    }
  }

  /** The first displacement goes to location 1. It goes to location 0, as the code's comment says,
      exactly when these two locations coincide. */
  lemma FirstDisplacement(hash: (Element, nat) -> nat, discard: seq<bool>, s: Search)
    requires Searchable(hash, discard, s) && s.last == -1 && Blocked(hash, discard, s)
    ensures var locs := Locs(hash, |discard|, s.carried.0);
            && NextSlot(hash, discard, s) == locs[1]
            && (NextSlot(hash, discard, s) == locs[0] <==> locs[0] == locs[1])
  {
    hide Locs, FirstOpen;
    IndexOfNone(Locs(hash, |discard|, s.carried.0));
  }

  /** A displaced element does not go back where it came from: the next location differs from the last one, unless
      two neighbouring locations of the element coincide there. */
  lemma DisplacementMovesOn(hash: (Element, nat) -> nat, discard: seq<bool>, s: Search, k: nat)
    requires Searchable(hash, discard, s) && Blocked(hash, discard, s) && k < LOCATIONS
    requires var locs := Locs(hash, |discard|, s.carried.0);
             locs[k] == s.last && forall j :: 0 <= j < k ==> locs[j] != s.last
    ensures var locs := Locs(hash, |discard|, s.carried.0);
            var next := if k + 1 == LOCATIONS then locs[0] else locs[k + 1];
            NextSlot(hash, discard, s) == next && (NextSlot(hash, discard, s) != s.last <==> next != locs[k])
  {
    hide Locs, FirstOpen;
    IndexOfFirst(Locs(hash, |discard|, s.carried.0), s.last, k);
  }

  lemma {:induction false} IndexOfFirst(s: seq<nat>, x: int, k: nat)
    requires k < |s| && s[k] == x && forall j :: 0 <= j < k ==> s[j] != x
    ensures IndexOf(s, x) == k
  {
    if k > 0 {
      IndexOfFirst(s[1..], x, k - 1);
    }
  }

  /** The carried entry takes a slot, and the entry found there is carried on. */
  function Push(hash: (Element, nat) -> nat, discard: seq<bool>, s: Search): (r: Search)
    requires Searchable(hash, discard, s)
    ensures Searchable(hash, discard, r)
  {
    var i := NextSlot(hash, discard, s);
    Search(s.entries[i := s.carried], s.entries[i], i)
  }

  function Pushes(hash: (Element, nat) -> nat, discard: seq<bool>, s: Search, n: nat): (r: Search)
    requires Searchable(hash, discard, s)
    ensures Searchable(hash, discard, r)
  {
    if n == 0 then s else Push(hash, discard, Pushes(hash, discard, s, n - 1))
  }

  /** The first n elements carried had no open location. */
  predicate BlockedFor(hash: (Element, nat) -> nat, discard: seq<bool>, s: Search, n: nat)
    requires Searchable(hash, discard, s)
  {
    forall j :: 0 <= j < n ==> Blocked(hash, discard, Pushes(hash, discard, s, j))
  }

  /** What became of an insertion: the element was there, after some displacements an element
      overwrote a discardable slot, or the depth limit left one without a slot. */
  datatype Fate = Present(loc: nat) | Overwrote(moves: nat, loc: nat, dropped: Entry) | Displaced(dropped: Entry)

  /** An insertion into the table t0 with epoch bits epoch0 and flags discard0: which slots are
      written, in which order, and what is lost in the end. */
  ghost predicate Outcome(hash: (Element, nat) -> nat, depthLimit: nat, t0: seq<Element>, epoch0: seq<bool>,
                          discard0: seq<bool>, x: Element, fate: Fate, t: seq<Element>, epoch: seq<bool>,
                          discard: seq<bool>)
    requires HashOk(hash) && |t0| == |epoch0| == |discard0| == |t| == |epoch| && |t0| > 0
  {
    var start := Search(Entries(t0, epoch0), (x, true), -1);
    match fate
    case Present(loc) =>
      && loc < |t0| && t0[loc] == x && t == t0
      && discard == discard0[loc := false] && epoch == epoch0[loc := true]
    case Overwrote(moves, loc, dropped) =>
      && x !in t0 && moves < depthLimit && BlockedFor(hash, discard0, start, moves)
      && Pushes(hash, discard0, start, moves + 1) == Search(Entries(t, epoch), dropped, loc)
      && loc < |t0| && discard0[loc] && dropped == (t0[loc], epoch0[loc]) && discard == discard0[loc := false]
    case Displaced(dropped) =>
      var end := Pushes(hash, discard0, start, depthLimit);
      && x !in t0 && BlockedFor(hash, discard0, start, depthLimit)
      && end.entries == Entries(t, epoch) && end.carried == dropped && dropped.0 != DEFAULT
      && discard == discard0
  }

  // ---------- how many are living ----------

  function BitsOf(s: seq<Entry>): (r: seq<bool>)
    ensures |r| == |s| && forall i :: 0 <= i < |s| ==> r[i] == s[i].1
  {
    seq(|s|, i requires 0 <= i < |s| => s[i].1)
  }

  /** The living entries in the table, and the carried one if it is of the newest epoch. */
  function LivingWith(discard: seq<bool>, s: Search): int
    requires |s.entries| == |discard|
  {
    Living(BitsOf(s.entries), discard) + One(s.carried.1)
  }

  lemma PushLiving(hash: (Element, nat) -> nat, discard: seq<bool>, s: Search)
    requires Searchable(hash, discard, s) && Blocked(hash, discard, s)
    ensures LivingWith(discard, Push(hash, discard, s)) == LivingWith(discard, s)
  {
    hide Blocked, Living;
    var i := NextSlot(hash, discard, s);
    assert BitsOf(s.entries[i := s.carried]) == BitsOf(s.entries)[i := s.carried.1];
    assert discard[i := false] == discard;
    LivingUpdate(BitsOf(s.entries), discard, i, s.carried.1, false);
  }

  lemma {:induction false} PushesLiving(hash: (Element, nat) -> nat, discard: seq<bool>, s: Search, n: nat)
    requires Searchable(hash, discard, s) && BlockedFor(hash, discard, s, n)
    ensures LivingWith(discard, Pushes(hash, discard, s, n)) == LivingWith(discard, s)
  {
    hide Blocked, LivingWith, Push;
    if n > 0 {
      assert Blocked(hash, discard, Pushes(hash, discard, s, n - 1));
      PushesLiving(hash, discard, s, n - 1);
      PushLiving(hash, discard, Pushes(hash, discard, s, n - 1));
    }
  }

  /** The carried entry takes a slot that may be overwritten. */
  lemma FillLiving(hash: (Element, nat) -> nat, discard: seq<bool>, s: Search)
    requires Searchable(hash, discard, s) && discard[NextSlot(hash, discard, s)]
    ensures var r := Push(hash, discard, s);
            0 <= r.last < |discard| && Living(BitsOf(r.entries), discard[r.last := false]) == LivingWith(discard, s)
  {
    hide Blocked, Living;
    var i := NextSlot(hash, discard, s);
    assert BitsOf(s.entries[i := s.carried]) == BitsOf(s.entries)[i := s.carried.1];
    LivingUpdate(BitsOf(s.entries), discard, i, s.carried.1, false);
  }

  lemma PushTakes(hash: (Element, nat) -> nat, discard: seq<bool>, s: Search)
    requires Searchable(hash, discard, s)
    ensures Push(hash, discard, s).last == NextSlot(hash, discard, s)
  {
  }

  /** An insertion makes at most one entry more living. */
  lemma InsertLiving(hash: (Element, nat) -> nat, depthLimit: nat, t0: seq<Element>, epoch0: seq<bool>,
                     discard0: seq<bool>, x: Element, fate: Fate, t: seq<Element>, epoch: seq<bool>, discard: seq<bool>)
    requires HashOk(hash) && |t0| == |epoch0| == |discard0| == |t| == |epoch| && |t0| > 0
    requires Outcome(hash, depthLimit, t0, epoch0, discard0, x, fate, t, epoch, discard)
    ensures |discard| == |epoch| && Living(epoch, discard) <= Living(epoch0, discard0) + 1
  {
    hide HashOk, Blocked, Living, BlockedFor, Pushes, Entries;
    var start := Search(Entries(t0, epoch0), (x, true), -1);
    match fate
    case Present(loc) => LivingUpdate(epoch0, discard0, loc, true, false);
    case Overwrote(moves, loc, dropped) => OverwroteFate(hash, t0, epoch0, discard0, x, moves, t, epoch, dropped, loc);
    case Displaced(dropped) => DisplacedFate(hash, t0, epoch0, discard0, x, depthLimit, t, epoch);
  }

  lemma OverwroteFate(hash: (Element, nat) -> nat, t0: seq<Element>, epoch0: seq<bool>, discard0: seq<bool>,
                      x: Element, moves: nat, t: seq<Element>, epoch: seq<bool>, dropped: Entry, loc: nat)
    requires HashOk(hash) && |t0| == |epoch0| == |discard0| == |t| == |epoch| && loc < |t0| && discard0[loc]
    requires var start := Search(Entries(t0, epoch0), (x, true), -1);
             && BlockedFor(hash, discard0, start, moves)
             && Pushes(hash, discard0, start, moves + 1) == Search(Entries(t, epoch), dropped, loc)
    ensures Living(epoch, discard0[loc := false]) <= Living(epoch0, discard0) + 1
  {
    hide HashOk, Blocked, Living, BlockedFor, Pushes, Entries, LivingWith;
    StartLiving(t0, epoch0, discard0, x);
    BitsOfEntries(t, epoch);
    OverwroteLiving(hash, discard0, Search(Entries(t0, epoch0), (x, true), -1), moves);
  }

  lemma DisplacedFate(hash: (Element, nat) -> nat, t0: seq<Element>, epoch0: seq<bool>, discard0: seq<bool>,
                      x: Element, n: nat, t: seq<Element>, epoch: seq<bool>)
    requires HashOk(hash) && |t0| == |epoch0| == |discard0| == |t| == |epoch| && |t0| > 0
    requires var start := Search(Entries(t0, epoch0), (x, true), -1);
             && BlockedFor(hash, discard0, start, n)
             && Pushes(hash, discard0, start, n).entries == Entries(t, epoch)
    ensures Living(epoch, discard0) <= Living(epoch0, discard0) + 1
  {
    hide HashOk, Blocked, Living, BlockedFor, Pushes, Entries, LivingWith;
    var start := Search(Entries(t0, epoch0), (x, true), -1);
    StartLiving(t0, epoch0, discard0, x);
    BitsOfEntries(t, epoch);
    PushesLiving(hash, discard0, start, n);
    CarriedApart(discard0, Pushes(hash, discard0, start, n));
  }

  lemma StartLiving(t: seq<Element>, epoch: seq<bool>, discard: seq<bool>, x: Element)
    requires |t| == |epoch| == |discard|
    ensures LivingWith(discard, Search(Entries(t, epoch), (x, true), -1)) == Living(epoch, discard) + 1
  {
    BitsOfEntries(t, epoch);
  }

  lemma CarriedApart(discard: seq<bool>, s: Search)
    requires |s.entries| == |discard|
    ensures Living(BitsOf(s.entries), discard) <= LivingWith(discard, s)
  {
  }

  lemma OverwroteLiving(hash: (Element, nat) -> nat, discard: seq<bool>, s: Search, n: nat)
    requires Searchable(hash, discard, s) && BlockedFor(hash, discard, s, n)
    requires var r := Pushes(hash, discard, s, n + 1); 0 <= r.last < |discard| && discard[r.last]
    ensures var r := Pushes(hash, discard, s, n + 1);
            Living(BitsOf(r.entries), discard[r.last := false]) == LivingWith(discard, s)
  {
    hide HashOk, Blocked, Living, BlockedFor, Pushes, Push, LivingWith;
    PushesNext(hash, discard, s, n);
    PushesLiving(hash, discard, s, n);
    PushTakes(hash, discard, Pushes(hash, discard, s, n));
    FillLiving(hash, discard, Pushes(hash, discard, s, n));
  }

  lemma BitsOfEntries(t: seq<Element>, epoch: seq<bool>)
    requires |t| == |epoch|
    ensures BitsOf(Entries(t, epoch)) == epoch
  {
  }

  lemma PushesNext(hash: (Element, nat) -> nat, discard: seq<bool>, s: Search, n: nat)
    requires Searchable(hash, discard, s)
    ensures Pushes(hash, discard, s, n + 1) == Push(hash, discard, Pushes(hash, discard, s, n))
  {
  }

  lemma EntriesUpdate(t: seq<Element>, epoch: seq<bool>, i: nat, e: Element, b: bool)
    requires |t| == |epoch| && i < |t|
    ensures Entries(t[i := e], epoch[i := b]) == Entries(t, epoch)[i := (e, b)]
  {
  }

  /** The table while the element e is carried around looking for a slot: nothing is lost. */
  ghost predicate Carrying(hash: (Element, nat) -> nat, t: seq<Element>, epoch: seq<bool>, e: Element, bit: bool,
                           all: multiset<Entry>)
    requires HashOk(hash) && |t| == |epoch| && |t| > 0
  {
    && WellPlaced(hash, t) && Distinct(t) && e != DEFAULT && e !in t
    && multiset(Entries(t, epoch)) + multiset{(e, bit)} == all
  }

  lemma StartCarrying(hash: (Element, nat) -> nat, t: seq<Element>, epoch: seq<bool>, x: Element)
    requires HashOk(hash) && |t| == |epoch| && |t| > 0 && WellPlaced(hash, t) && Distinct(t) && x != DEFAULT && x !in t
    ensures Carrying(hash, t, epoch, x, true, multiset(Entries(t, epoch)) + multiset{(x, true)})
  {
  }

  lemma CarryingFacts(hash: (Element, nat) -> nat, t: seq<Element>, epoch: seq<bool>, e: Element, bit: bool,
                      all: multiset<Entry>)
    requires HashOk(hash) && |t| == |epoch| && |t| > 0 && Carrying(hash, t, epoch, e, bit, all)
    ensures e != DEFAULT && WellPlaced(hash, t) && Distinct(t)
            && multiset(Entries(t, epoch)) + multiset{(e, bit)} == all
  {
  }

  lemma CarryStep(hash: (Element, nat) -> nat, t: seq<Element>, epoch: seq<bool>, e: Element, bit: bool,
                  all: multiset<Entry>, i: nat)
    requires HashOk(hash) && |t| == |epoch| && i < |t| && Carrying(hash, t, epoch, e, bit, all)
             && i in Locs(hash, |t|, e)
    ensures WellPlaced(hash, t[i := e]) && Distinct(t[i := e])
    ensures multiset(Entries(t[i := e], epoch[i := bit])) + multiset{(t[i], epoch[i])} == all
    ensures t[i] != DEFAULT ==> Carrying(hash, t[i := e], epoch[i := bit], t[i], epoch[i], all)
  {
    hide Locs, WellPlaced, Distinct;
    SwapKeepsTable(hash, t, i, e);
    SwapEntry(t, epoch, i, e, bit);
  }

  /** The search as seen from its start: discardable slots have not been touched. */
  ghost predicate Searching(hash: (Element, nat) -> nat, t0: seq<Element>, epoch0: seq<bool>, discard: seq<bool>,
                            t: seq<Element>, epoch: seq<bool>, e: Element, bit: bool, all: multiset<Entry>)
    requires HashOk(hash)
  {
    && |t| == |epoch| == |t0| == |epoch0| == |discard| && |t| > 0
    && Carrying(hash, t, epoch, e, bit, all)
    && (forall i :: 0 <= i < |t| && !discard[i] ==> t[i] != DEFAULT)
    && (forall i :: 0 <= i < |t| && discard[i] ==> t[i] == t0[i] && epoch[i] == epoch0[i])
  }

  lemma SearchOn(hash: (Element, nat) -> nat, t0: seq<Element>, epoch0: seq<bool>, discard: seq<bool>,
                 t: seq<Element>, epoch: seq<bool>, e: Element, bit: bool, all: multiset<Entry>, i: nat)
    requires HashOk(hash) && Searching(hash, t0, epoch0, discard, t, epoch, e, bit, all)
    requires i < |t| && i in Locs(hash, |t|, e) && !discard[i]
    ensures Searching(hash, t0, epoch0, discard, t[i := e], epoch[i := bit], t[i], epoch[i], all)
  {
    hide Locs, Carrying;
    CarryStep(hash, t, epoch, e, bit, all, i);
    CarryingFacts(hash, t, epoch, e, bit, all);
  }

  lemma SearchEnds(hash: (Element, nat) -> nat, t0: seq<Element>, epoch0: seq<bool>, discard: seq<bool>,
                   t: seq<Element>, epoch: seq<bool>, e: Element, bit: bool, all: multiset<Entry>, i: nat)
    requires HashOk(hash) && Searching(hash, t0, epoch0, discard, t, epoch, e, bit, all)
    requires i < |t| && i in Locs(hash, |t|, e) && discard[i]
    ensures t[i] == t0[i] && epoch[i] == epoch0[i]
    ensures WellPlaced(hash, t[i := e]) && Distinct(t[i := e])
    ensures var d, u := discard[i := false], t[i := e]; forall k :: 0 <= k < |t| && !d[k] ==> u[k] != DEFAULT
    ensures multiset(Entries(t[i := e], epoch[i := bit])) + multiset{(t[i], epoch[i])} == all
  {
    hide Locs, Carrying, WellPlaced, Distinct;
    CarryStep(hash, t, epoch, e, bit, all, i);
    CarryingFacts(hash, t, epoch, e, bit, all);
  }

  lemma SearchFacts(hash: (Element, nat) -> nat, t0: seq<Element>, epoch0: seq<bool>, discard: seq<bool>,
                    t: seq<Element>, epoch: seq<bool>, e: Element, bit: bool, all: multiset<Entry>)
    requires HashOk(hash) && Searching(hash, t0, epoch0, discard, t, epoch, e, bit, all)
    ensures e != DEFAULT && WellPlaced(hash, t) && Distinct(t)
    ensures |t| == |epoch| == |discard| && multiset(Entries(t, epoch)) + multiset{(e, bit)} == all
    ensures forall i :: 0 <= i < |t| && !discard[i] ==> t[i] != DEFAULT
  {
    hide Carrying, WellPlaced, Distinct;
    CarryingFacts(hash, t, epoch, e, bit, all);
  }

  lemma StartSearch(hash: (Element, nat) -> nat, t: seq<Element>, epoch: seq<bool>, discard: seq<bool>, x: Element)
    requires HashOk(hash) && |t| == |epoch| == |discard| && |t| > 0 && WellPlaced(hash, t) && Distinct(t)
             && x != DEFAULT && x !in t
    requires forall i :: 0 <= i < |t| && !discard[i] ==> t[i] != DEFAULT
    ensures Searching(hash, t, epoch, discard, t, epoch, x, true, multiset(Entries(t, epoch)) + multiset{(x, true)})
  {
    hide WellPlaced, Distinct;
    StartCarrying(hash, t, epoch, x);
  }

  /** Forgetting the epoch bits of a list of entries. */
  function Elements(s: seq<Entry>): (r: seq<Element>)
    ensures |r| == |s| && forall i :: 0 <= i < |s| ==> r[i] == s[i].0
  {
    seq(|s|, i requires 0 <= i < |s| => s[i].0)
  }

  function Without<T>(s: seq<T>, k: nat): (r: seq<T>)
    requires k < |s|
    ensures |r| == |s| - 1
  {
    s[..k] + s[k + 1..]
  }

  lemma TakeOut<T>(s: seq<T>, k: nat)
    requires k < |s|
    ensures multiset(s) == multiset(Without(s, k)) + multiset{s[k]}
  {
    assert s == s[..k] + [s[k]] + s[k + 1..];
  }

  lemma ElementsWithout(s: seq<Entry>, k: nat)
    requires k < |s|
    ensures multiset(Elements(s)) == multiset(Elements(Without(s, k))) + multiset{s[k].0}
  {
    TakeOut(Elements(s), k);
    assert Elements(Without(s, k)) == Without(Elements(s), k);
  }

  lemma Cancel<T>(a: multiset<T>, b: multiset<T>, x: T)
    requires a + multiset{x} == b + multiset{x}
    ensures a == b
  {
    assert a + multiset{x} - multiset{x} == a;
    assert b + multiset{x} - multiset{x} == b;
  }

  lemma {:induction false} SameElements(s: seq<Entry>, r: seq<Entry>)
    requires multiset(s) == multiset(r)
    ensures multiset(Elements(s)) == multiset(Elements(r))
    decreases |s|
  {
    hide Without, Elements;
    if s == [] {
      assert |multiset(r)| == 0;
      assert r == [];
    } else {
      assert s[0] in multiset(s);
      var k :| 0 <= k < |r| && r[k] == s[0];
      TakeOut(s, 0);
      TakeOut(r, k);
      Cancel(multiset(Without(s, 0)), multiset(Without(r, k)), s[0]);
      SameElements(Without(s, 0), Without(r, k));
      ElementsWithout(s, 0);
      ElementsWithout(r, k);
    }
  }

  lemma EntriesConserved(t: seq<Element>, epoch: seq<bool>, x: Entry, t': seq<Element>, epoch': seq<bool>, x': Entry)
    requires |t| == |epoch| && |t'| == |epoch'|
    requires multiset(Entries(t, epoch)) + multiset{x} == multiset(Entries(t', epoch')) + multiset{x'}
    ensures multiset(t) + multiset{x.0} == multiset(t') + multiset{x'.0}
  {
    SameElements(Entries(t, epoch) + [x], Entries(t', epoch') + [x']);
    assert Elements(Entries(t, epoch) + [x]) == t + [x.0];
    assert Elements(Entries(t', epoch') + [x']) == t' + [x'.0];
  }

  lemma NextSlotIs(hash: (Element, nat) -> nat, discard: seq<bool>, s: Search)
    requires Searchable(hash, discard, s)
    ensures var locs := Locs(hash, |discard|, s.carried.0);
            var k := FirstOpen(locs, discard);
            && (Blocked(hash, discard, s) <==> k == LOCATIONS)
            && NextSlot(hash, discard, s) ==
               if k == LOCATIONS then locs[(1 + IndexOf(locs, s.last)) % LOCATIONS] else locs[k]
  {
    hide Locs;
  }

  /** The search after `depth` displacements: the table in between and what is carried. */
  ghost predicate Reached(hash: (Element, nat) -> nat, discard: seq<bool>, start: Search, depth: nat,
                          t: seq<Element>, epoch: seq<bool>, e: Element, bit: bool, last: int)
  {
    && Searchable(hash, discard, start) && |t| == |epoch| == |discard|
    && BlockedFor(hash, discard, start, depth)
    && Pushes(hash, discard, start, depth) == Search(Entries(t, epoch), (e, bit), last)
  }

  lemma ReachedNext(hash: (Element, nat) -> nat, discard: seq<bool>, start: Search, depth: nat,
                    t: seq<Element>, epoch: seq<bool>, e: Element, bit: bool, last: int, i: nat)
    requires Reached(hash, discard, start, depth, t, epoch, e, bit, last)
    requires var locs := Locs(hash, |discard|, e);
             FirstOpen(locs, discard) == LOCATIONS && i == locs[(1 + IndexOf(locs, last)) % LOCATIONS]
    ensures i < |t| && Reached(hash, discard, start, depth + 1, t[i := e], epoch[i := bit], t[i], epoch[i], i)
  {
    hide Locs, Entries, Blocked, NextSlot, BlockedFor, FirstOpen, IndexOf;
    NextSlotIs(hash, discard, Pushes(hash, discard, start, depth));
    BlockedNext(hash, discard, start, depth);
    EntriesUpdate(t, epoch, i, e, bit);
    EntriesAt(t, epoch, i);
  }

  lemma BlockedNext(hash: (Element, nat) -> nat, discard: seq<bool>, s: Search, n: nat)
    requires Searchable(hash, discard, s) && BlockedFor(hash, discard, s, n)
             && Blocked(hash, discard, Pushes(hash, discard, s, n))
    ensures BlockedFor(hash, discard, s, n + 1)
  {
    hide Blocked, Pushes;
  }

  lemma ReachedStart(hash: (Element, nat) -> nat, discard: seq<bool>, t: seq<Element>, epoch: seq<bool>, x: Element)
    requires HashOk(hash) && |t| == |epoch| == |discard| && |t| > 0
    ensures Reached(hash, discard, Search(Entries(t, epoch), (x, true), -1), 0, t, epoch, x, true, -1)
  {
  }

  lemma PresentOutcome(hash: (Element, nat) -> nat, depthLimit: nat, t: seq<Element>, epoch: seq<bool>,
                       discard: seq<bool>, x: Element, loc: nat)
    requires HashOk(hash) && |t| == |epoch| == |discard| && loc < |t| && t[loc] == x
    ensures Outcome(hash, depthLimit, t, epoch, discard, x, Present(loc), t, epoch[loc := true], discard[loc := false])
  {
  }

  lemma EntriesAt(t: seq<Element>, epoch: seq<bool>, i: nat)
    requires |t| == |epoch| && i < |t|
    ensures Entries(t, epoch)[i] == (t[i], epoch[i])
  {
  }

  lemma ReachedOpen(hash: (Element, nat) -> nat, depthLimit: nat, t0: seq<Element>, epoch0: seq<bool>,
                    discard: seq<bool>, depth: nat, x: Element, t: seq<Element>, epoch: seq<bool>, e: Element,
                    bit: bool, last: int, i: nat)
    requires HashOk(hash) && |t0| == |epoch0| == |discard| && |t0| > 0 && x !in t0 && depth < depthLimit
    requires Reached(hash, discard, Search(Entries(t0, epoch0), (x, true), -1), depth, t, epoch, e, bit, last)
    requires var locs := Locs(hash, |discard|, e);
             FirstOpen(locs, discard) < LOCATIONS && i == locs[FirstOpen(locs, discard)] && i < |t| && discard[i]
    requires t[i] == t0[i] && epoch[i] == epoch0[i]
    ensures Outcome(hash, depthLimit, t0, epoch0, discard, x, Overwrote(depth, i, (t0[i], epoch0[i])),
                    t[i := e], epoch[i := bit], discard[i := false])
  {
    hide Locs, Entries, Blocked, NextSlot, BlockedFor, FirstOpen, IndexOf;
    var start := Search(Entries(t0, epoch0), (x, true), -1);
    NextSlotIs(hash, discard, Pushes(hash, discard, start, depth));
    EntriesUpdate(t, epoch, i, e, bit);
    EntriesAt(t, epoch, i);
  }

  lemma ReachedLimit(hash: (Element, nat) -> nat, depthLimit: nat, t0: seq<Element>, epoch0: seq<bool>,
                     discard: seq<bool>, x: Element, t: seq<Element>, epoch: seq<bool>, e: Element, bit: bool,
                     last: int)
    requires HashOk(hash) && |t0| == |epoch0| == |discard| && |t0| > 0 && x !in t0 && e != DEFAULT
    requires Reached(hash, discard, Search(Entries(t0, epoch0), (x, true), -1), depthLimit, t, epoch, e, bit, last)
    ensures Outcome(hash, depthLimit, t0, epoch0, discard, x, Displaced((e, bit)), t, epoch, discard)
  {
    hide Entries, Blocked, Pushes;
  }

  class Cache {
    const hash: (Element, nat) -> nat
    const depthLimit: nat
    const epochSize: nat
    const table: array<Element>
    const discard: array<bool>
    const epoch: array<bool>
    var counter: nat

    ghost predicate Shape() {
      && HashOk(hash) && table.Length > 0 && discard != epoch
      && table.Length == discard.Length == epoch.Length
    }

    /** Every element is in one of its slots and only there, and only a discardable slot can
        hold the default element. */
    ghost predicate Valid()
      reads table, discard
    {
      && Shape() && WellPlaced(hash, table[..]) && Distinct(table[..])
      && (forall i :: 0 <= i < table.Length && !discard[i] ==> table[i] != DEFAULT)
    }

    /** The counter runs out before the newest epoch grows far beyond its size. */
    ghost predicate Bounded()
      requires Shape()
      reads this`counter, discard, epoch
    {
      Living(epoch[..], discard[..]) + counter <= EpochLimit(epochSize)
    }

    constructor (hash: (Element, nat) -> nat, newSize: nat, depthLimit: nat)
      requires HashOk(hash) && newSize < WORD
      ensures Valid() && fresh(table) && fresh(discard) && fresh(epoch) && this.hash == hash
              && this.depthLimit == depthLimit
      ensures table.Length == Max(2, newSize)
      ensures forall i :: 0 <= i < table.Length ==> table[i] == DEFAULT && discard[i] && !epoch[i]
      ensures counter == epochSize == EpochSize(table.Length) >= 1 && Bounded()
    {
      var size := Max(2, newSize);
      this.hash := hash;
      this.depthLimit := depthLimit;
      epochSize := EpochSize(size);
      counter := EpochSize(size);
      table := new Element[size](_ => DEFAULT);
      discard := new bool[size](_ => true);
      epoch := new bool[size](_ => false);
      new;
      NoneLiving(epoch[..], discard[..]);
    }

    /** Looks the element up; with `erase` its slot may be overwritten from now on. */
    method Contains(e: Element, erase: bool) returns (found: bool)
      requires Valid() && e != DEFAULT
      modifies discard
      ensures Valid() && (found <==> e in table[..])
      ensures forall i :: 0 <= i < discard.Length ==> discard[i] == (old(discard[i]) || (erase && table[i] == e))
      ensures old(Bounded()) ==> Bounded()
    {
      hide Locs, Living;
      var locs := Locs(hash, table.Length, e);
      FoundIffPresent(hash, table[..], e);
      for k := 0 to LOCATIONS
        invariant forall j :: 0 <= j < k ==> table[locs[j]] != e
        invariant discard[..] == old(discard[..])
      {
        if table[locs[k]] == e {
          if erase {
            discard[locs[k]] := true;
          }
          LivingFewer(epoch[..], old(discard[..]), discard[..]);
          return true;
        }
      }
      return false;
    }

    /** Ages the epochs when the newest one is full. */
    method EpochCheck()
      requires Valid()
      modifies this`counter, discard, epoch
      ensures Valid()
      ensures counter == AgedCounter(old(counter), epochSize, old(epoch[..]), old(discard[..]))
      ensures discard[..] == AgedDiscard(old(counter), epochSize, old(epoch[..]), old(discard[..]))
      ensures epoch[..] == AgedEpoch(old(counter), epochSize, old(epoch[..]), old(discard[..]))
    {
      hide WellPlaced, Distinct;
      if counter != 0 {
        counter := counter - 1;
        return;
      }
      var unused := 0;
      for i := 0 to table.Length
        invariant unused == Living(epoch[..i], discard[..i])
      {
        assert epoch[..i + 1][..i] == epoch[..i] && discard[..i + 1][..i] == discard[..i];
        unused := unused + if epoch[i] && !discard[i] then 1 else 0;
      }
      assert epoch[..table.Length] == epoch[..] && discard[..table.Length] == discard[..];
      if unused >= epochSize {
        Age();
        counter := epochSize;
      } else {
        counter := Max(1, Max(epochSize / 16, epochSize - unused));
      }
    }

    method Age()
      requires Shape()
      modifies discard, epoch
      ensures forall i :: 0 <= i < table.Length ==> !epoch[i] && discard[i] == (old(discard[i]) || !old(epoch[i]))
    {
      for i := 0 to table.Length
        invariant forall j :: 0 <= j < i ==> !epoch[j] && discard[j] == (old(discard[j]) || !old(epoch[j]))
        invariant forall j :: i <= j < table.Length ==> epoch[j] == old(epoch[j]) && discard[j] == old(discard[j])
      {
        if epoch[i] {
          epoch[i] := false;
        } else {
          discard[i] := true;
        }
      }
    }

    /** Insertion once the epochs are up to date. */
    method InsertNow(x: Element) returns (ghost fate: Fate)
      requires Valid() && x != DEFAULT
      modifies table, discard, epoch
      ensures Valid()
      ensures Outcome(hash, depthLimit, old(table[..]), old(epoch[..]), old(discard[..]), x, fate, table[..],
                      epoch[..], discard[..])
      ensures !fate.Present? ==>
                multiset(Entries(table[..], epoch[..])) + multiset{fate.dropped} ==
                multiset(Entries(old(table[..]), old(epoch[..]))) + multiset{(x, true)}
    {
      hide Locs, WellPlaced, Distinct, Searching, Entries, Outcome, Reached;
      ghost var t0, epoch0, discard0 := table[..], epoch[..], discard[..];
      var present, loc := FindSlot(x);
      if present {
        PresentOutcome(hash, depthLimit, t0, epoch0, discard0, x, loc);
        discard[loc] := false;
        epoch[loc] := true;
        return Present(loc);
      }
      var e, lastLoc: int, lastEpoch := x, -1, true;
      ghost var start := Search(Entries(t0, epoch0), (x, true), -1);
      ghost var all := multiset(Entries(t0, epoch0)) + multiset{(x, true)};
      StartSearch(hash, t0, epoch0, discard0, x);
      ReachedStart(hash, discard0, t0, epoch0, x);
      for depth := 0 to depthLimit
        invariant Searching(hash, t0, epoch0, discard0, table[..], epoch[..], e, lastEpoch, all)
                  && discard[..] == discard0
        invariant Reached(hash, discard0, start, depth, table[..], epoch[..], e, lastEpoch, lastLoc)
      {
        var open;
        open, loc := FindOpen(e);
        if open {
          SearchEnds(hash, t0, epoch0, discard0, table[..], epoch[..], e, lastEpoch, all, loc);
          ReachedOpen(hash, depthLimit, t0, epoch0, discard0, depth, x, table[..], epoch[..], e, lastEpoch, lastLoc,
                      loc);
          Fill(loc, e, lastEpoch);
          return Overwrote(depth, loc, (t0[loc], epoch0[loc]));
        }
        var locs := Locs(hash, table.Length, e);
        var next := locs[(1 + IndexOf(locs, lastLoc)) % LOCATIONS];
        ReachedNext(hash, discard0, start, depth, table[..], epoch[..], e, lastEpoch, lastLoc, next);
        lastLoc := next;
        SearchOn(hash, t0, epoch0, discard0, table[..], epoch[..], e, lastEpoch, all, next);
        e, lastEpoch := Exchange(next, e, lastEpoch);
      }
      SearchFacts(hash, t0, epoch0, discard0, table[..], epoch[..], e, lastEpoch, all);
      ReachedLimit(hash, depthLimit, t0, epoch0, discard0, x, table[..], epoch[..], e, lastEpoch, lastLoc);
      return Displaced((e, lastEpoch));
    }

    method Fill(loc: nat, e: Element, bit: bool)
      requires Shape() && loc < table.Length
      modifies table, discard, epoch
      ensures table[..] == old(table[..])[loc := e] && discard[..] == old(discard[..])[loc := false]
      ensures epoch[..] == old(epoch[..])[loc := bit]
    {
      table[loc] := e;
      discard[loc] := false;
      epoch[loc] := bit;
    }

    method Exchange(loc: nat, e: Element, bit: bool) returns (e': Element, bit': bool)
      requires Shape() && loc < table.Length
      modifies table, epoch
      ensures e' == old(table[loc]) && bit' == old(epoch[loc])
      ensures table[..] == old(table[..])[loc := e] && epoch[..] == old(epoch[..])[loc := bit]
              && discard[..] == old(discard[..])
    {
      e', bit' := table[loc], epoch[loc];
      table[loc] := e;
      epoch[loc] := bit;
    }

    /** The epochs age, and then the search runs. The table afterwards holds what it held before
        and the new element, less exactly one. */
    method Insert(x: Element) returns (ghost fate: Fate)
      requires Valid() && x != DEFAULT
      modifies this`counter, table, discard, epoch
      ensures Valid() && counter == AgedCounter(old(counter), epochSize, old(epoch[..]), old(discard[..]))
      ensures Outcome(hash, depthLimit, old(table[..]),
                      AgedEpoch(old(counter), epochSize, old(epoch[..]), old(discard[..])),
                      AgedDiscard(old(counter), epochSize, old(epoch[..]), old(discard[..])),
                      x, fate, table[..], epoch[..], discard[..])
      ensures !fate.Present?
              ==> multiset(table[..]) + multiset{fate.dropped.0} == multiset(old(table[..])) + multiset{x}
      ensures old(Bounded()) ==> Bounded()
    {
      hide WellPlaced, Distinct, Living, Outcome, AgedDiscard, AgedEpoch, AgedCounter;
      if Bounded() {
        AgedRoom(counter, epochSize, epoch[..], discard[..]);
      }
      EpochCheck();
      ghost var mid, flags := epoch[..], discard[..];
      fate := InsertNow(x);
      InsertLiving(hash, depthLimit, old(table[..]), mid, flags, x, fate, table[..], epoch[..], discard[..]);
      if !fate.Present? {
        EntriesConserved(table[..], epoch[..], fate.dropped, old(table[..]), mid, (x, true));
      }
    }

    method FindSlot(x: Element) returns (present: bool, loc: nat)
      requires Valid() && x != DEFAULT
      ensures present <==> x in table[..]
      ensures present ==> loc < table.Length && table[loc] == x
    {
      hide Locs;
      FoundIffPresent(hash, table[..], x);
      var locs := Locs(hash, table.Length, x);
      for k := 0 to LOCATIONS
        invariant forall j :: 0 <= j < k ==> table[locs[j]] != x
      {
        if table[locs[k]] == x {
          return true, locs[k];
        }
      }
      return false, 0;
    }

    method FindOpen(e: Element) returns (open: bool, loc: nat)
      requires Shape()
      ensures var k := FirstOpen(Locs(hash, table.Length, e), discard[..]);
              (open <==> k < LOCATIONS) && (open ==> loc == Locs(hash, table.Length, e)[k])
      ensures open ==> loc < table.Length && discard[loc] && loc in Locs(hash, table.Length, e)
      ensures !open ==> forall i :: i in Locs(hash, table.Length, e) ==> !discard[i]
    {
      hide Locs;
      var locs := Locs(hash, table.Length, e);
      for k := 0 to LOCATIONS
        invariant forall j :: 0 <= j < k ==> !discard[locs[j]]
      {
        if discard[locs[k]] {
          return true, locs[k];
        }
      }
      return false, 0;
    }
  }
}
