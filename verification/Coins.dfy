/** The layered UTXO cache of coins.cpp, as functions on values.

    A stack is a bottom store with any number of caches on top. Every cache entry
    carries the DIRTY and FRESH flags; the functions below do to those entries what
    the methods of CCoinsViewCache do, and the lemmas show that the flags never lie:
    the stack always denotes a plain outpoint-to-coin map per level. The class in
    CoinsView.dfy is proved equal to these functions. */
module Coins {
  import opened Options

  newtype Byte = x: int | 0 <= x < 256
  type Script = seq<Byte>
  type Hash = nat

  const NULL_HASH: Hash := 0
  const MAX_SCRIPT_SIZE := 10000
  const OP_RETURN: Byte := 0x6a

  predicate IsUnspendable(script: Script) {
    (|script| > 0 && script[0] == OP_RETURN) || |script| > MAX_SCRIPT_SIZE
  }

  /** Heap bytes of a script held in a prevector<28>: none while it fits inline. */
  function ScriptUsage(script: Script): nat {
    if |script| <= 28 then 0 else (|script| + 31) / 16 * 16
  }

  datatype OutPoint = OutPoint(hash: Hash, n: nat)

  datatype TxOut = TxOut(value: int, script: Script)

  datatype Coin = Coin(out: TxOut, coinbase: bool, height: nat) {
    predicate IsSpent() {
      out.value == -1
    }

    function Usage(): nat {
      ScriptUsage(out.script)
    }
  }

  /** What Coin::Clear leaves behind, and what a default-constructed Coin is. */
  const CLEARED := Coin(TxOut(-1, []), false, 0)

  datatype Entry = Entry(coin: Coin, isDirty: bool, isFresh: bool) {
    /** The five flag states that SanityCheck tolerates. */
    predicate Legal() {
      && !(isFresh && !isDirty && !coin.IsSpent())
      && !(coin.IsSpent() && !isDirty && !isFresh)
      && !(isDirty && isFresh && coin.IsSpent())
    }
  }

  type EntryMap = map<OutPoint, Entry>

  /** A coin set: the plain map that a level is meant to denote. */
  type CoinMap = map<OutPoint, Coin>

  datatype Layer = Layer(coins: EntryMap, usage: int, best: Hash)

  datatype Stack =
    | Bottom(store: CoinMap, best: Hash)
    | Cache(layer: Layer, base: Stack)

  // ---------- meaning and invariant ----------

  function ViewAt(m: CoinMap, op: OutPoint): Option<Coin> {
    if op in m then Some(m[op]) else None
  }

  /** What a cache with these entries shows at one outpoint when its base shows `base`. */
  function ShownAt(entries: EntryMap, base: CoinMap, op: OutPoint): Option<Coin> {
    if op !in entries then ViewAt(base, op)
    else if entries[op].coin.IsSpent() then None
    else Some(entries[op].coin)
  }

  function Overlay(entries: EntryMap, base: CoinMap): CoinMap {
    map op | op in entries.Keys + base.Keys && ShownAt(entries, base, op).Some? :: ShownAt(entries, base, op).value
  }

  lemma OverlayAt(entries: EntryMap, base: CoinMap, op: OutPoint)
    ensures ViewAt(Overlay(entries, base), op) == ShownAt(entries, base, op)
  {
  }

  lemma SameOverlay(entries: EntryMap, base: CoinMap, view: CoinMap)
    requires forall op :: ShownAt(entries, base, op) == ViewAt(view, op)
    ensures Overlay(entries, base) == view
  {
    forall op ensures ViewAt(Overlay(entries, base), op) == ViewAt(view, op) {
      OverlayAt(entries, base, op);
    }
    SameView(Overlay(entries, base), view);
  }

  lemma SameView(m: CoinMap, m': CoinMap)
    requires forall op :: ViewAt(m, op) == ViewAt(m', op)
    ensures m == m'
  {
    forall op ensures op in m <==> op in m' {
      assert ViewAt(m, op) == ViewAt(m', op);
    }
    forall op | op in m ensures m[op] == m'[op] {
      assert ViewAt(m, op) == ViewAt(m', op);
    }
  }

  function View(s: Stack): CoinMap {
    match s
    case Bottom(store, _) => store
    case Cache(layer, base) => Overlay(layer.coins, View(base))
  }

  /** The views of all levels, top first, the bottom store last. */
  function Views(s: Stack): seq<CoinMap> {
    match s
    case Bottom(store, _) => [store]
    case Cache(_, base) => [View(s)] + Views(base)
  }

  function Depth(s: Stack): nat {
    match s
    case Bottom(_, _) => 0
    case Cache(_, base) => 1 + Depth(base)
  }

  predicate EntryOk(op: OutPoint, e: Entry, base: CoinMap) {
    && e.Legal()
    && (e.isFresh ==> op !in base)
    && (!e.isDirty ==> if e.coin.IsSpent() then op !in base else op in base && base[op] == e.coin)
  }

  predicate EntriesOk(entries: EntryMap, base: CoinMap) {
    forall op :: op in entries ==> EntryOk(op, entries[op], base)
  }

  ghost function SumUsage(m: EntryMap): nat {
    if m == map[] then 0 else
      var op :| op in m;
      m[op].coin.Usage() + SumUsage(m - {op})
  }

  ghost predicate Inv(s: Stack) {
    match s
    case Bottom(store, _) => forall op :: op in store ==> !store[op].IsSpent()
    case Cache(layer, base) =>
      && Inv(base)
      && EntriesOk(layer.coins, View(base))
      && layer.usage == SumUsage(layer.coins)
  }

  lemma {:induction false} SumUsageRemove(m: EntryMap, op: OutPoint)
    requires op in m
    ensures SumUsage(m) == m[op].coin.Usage() + SumUsage(m - {op})
  {
    var k :| k in m && SumUsage(m) == m[k].coin.Usage() + SumUsage(m - {k});
    if k != op {
      SumUsageRemove(m - {k}, op);
      SumUsageRemove(m - {op}, k);
      assert m - {k} - {op} == m - {op} - {k};
    }
  }

  lemma SumUsageUpdate(m: EntryMap, op: OutPoint, e: Entry)
    ensures SumUsage(m[op := e]) ==
            SumUsage(m) + e.coin.Usage() - (if op in m then m[op].coin.Usage() else 0)
  {
    SumUsageRemove(m[op := e], op);
    if op in m {
      SumUsageRemove(m, op);
      assert m[op := e] - {op} == m - {op};
    } else {
      assert m[op := e] - {op} == m;
    }
  }

  // ---------- FetchCoin, GetCoin ----------

  function Put(layer: Layer, op: OutPoint, e: Entry): Layer {
    layer.(coins := layer.coins[op := e],
           usage := layer.usage - (if op in layer.coins then layer.coins[op].coin.Usage() else 0) + e.coin.Usage())
  }

  function Drop(layer: Layer, op: OutPoint): Layer
    requires op in layer.coins
  {
    layer.(coins := layer.coins - {op}, usage := layer.usage - layer.coins[op].coin.Usage())
  }

  /** The entry coin found at or pulled into this cache. A base view may answer an
      absent outpoint with an empty coin instead of with nothing; `empty` is its choice. */
  function FetchCoin(s: Stack, op: OutPoint, empty: bool): (Stack, Option<Coin>)
    requires s.Cache?
    decreases s, 0
  {
    if op in s.layer.coins then (s, Some(s.layer.coins[op].coin)) else
      var (base', answer) := GetCoin(s.base, op, empty);
      match answer
      case None => (Cache(s.layer, base'), None)
      case Some(coin) => (Cache(Put(s.layer, op, Entry(coin, false, coin.IsSpent())), base'), Some(coin))
  }

  function GetCoin(s: Stack, op: OutPoint, empty: bool): (Stack, Option<Coin>)
    decreases s, 1
  {
    match s
    case Bottom(store, _) =>
      (s, if op in store then Some(store[op]) else if empty then Some(CLEARED) else None)
    case Cache(_, _) =>
      var (s', answer) := FetchCoin(s, op, empty);
      (s', if answer.Some? && !answer.value.IsSpent() then answer else None)
  }

  /** Reading fills every cache on the way down, and still no level changes what it shows. */
  lemma {:induction false} GetCoinCorrect(s: Stack, op: OutPoint, empty: bool)
    requires Inv(s)
    ensures var (s', answer) := GetCoin(s, op, empty);
            && Inv(s') && Views(s') == Views(s) && View(s') == View(s) && Depth(s') == Depth(s)
            && (s.Cache? ==> s'.Cache? && answer == ViewAt(View(s), op))
            && (s.Bottom? ==> s' == s && (answer == ViewAt(View(s), op) || (op !in View(s) && answer == Some(CLEARED))))
    decreases s, 1
  {
    if s.Cache? {
      FetchCoinCorrect(s, op, empty);
    }
  }

  lemma {:induction false} FetchCoinCorrect(s: Stack, op: OutPoint, empty: bool)
    requires Inv(s) && s.Cache?
    ensures var (s', answer) := FetchCoin(s, op, empty);
            && s'.Cache? && Inv(s') && Views(s') == Views(s) && View(s') == View(s) && Depth(s') == Depth(s)
            && s'.layer.best == s.layer.best
            && (answer.Some? <==> op in s'.layer.coins)
            && (answer.Some? ==> s'.layer.coins[op].coin == answer.value)
            && (op in View(s) ==> answer == Some(View(s)[op]))
            && (op !in View(s) && answer.Some? ==> answer.value.IsSpent())
    decreases s, 0
  {
    if op !in s.layer.coins {
      GetCoinCorrect(s.base, op, empty);
      ViewHoldsUnspent(s.base);
      var (base', answer) := GetCoin(s.base, op, empty);
      if answer.Some? {
        FilledLayer(s.layer, View(s.base), op, answer.value);
      }
    }
  }

  /** Pulling the base's answer into a cache keeps the cache's invariant and view. */
  lemma FilledLayer(layer: Layer, base: CoinMap, op: OutPoint, coin: Coin)
    requires op !in layer.coins && EntriesOk(layer.coins, base) && layer.usage == SumUsage(layer.coins)
    requires forall o :: o in base ==> !base[o].IsSpent()
    requires if op in base then coin == base[op] else coin.IsSpent()
    ensures var filled := Put(layer, op, Entry(coin, false, coin.IsSpent()));
            && EntriesOk(filled.coins, base) && filled.usage == SumUsage(filled.coins)
            && Overlay(filled.coins, base) == Overlay(layer.coins, base)
  {
    SumUsageUpdate(layer.coins, op, Entry(coin, false, coin.IsSpent()));
    var filled := Put(layer, op, Entry(coin, false, coin.IsSpent())).coins;
    forall o ensures ShownAt(filled, base, o) == ViewAt(Overlay(layer.coins, base), o) {
      OverlayAt(layer.coins, base, o);
    }
    SameOverlay(filled, base, Overlay(layer.coins, base));
  }

  lemma {:induction false} ViewHoldsUnspent(s: Stack)
    requires Inv(s)
    ensures forall op :: op in View(s) ==> !View(s)[op].IsSpent()
  {
    if s.Cache? {
      ViewHoldsUnspent(s.base);
    }
  }

  // ---------- AddCoin, SpendCoin, Uncache ----------

  datatype Outcome = Done(stack: Stack) | Thrown(stack: Stack)

  function AddCoin(s: Stack, op: OutPoint, coin: Coin, possibleOverwrite: bool): Outcome
    requires s.Cache? && !coin.IsSpent()
  {
    if IsUnspendable(coin.out.script) then Done(s) else
      var was := if op in s.layer.coins then s.layer.coins[op] else Entry(CLEARED, false, false);
      if !possibleOverwrite && !was.coin.IsSpent() then
        // "Attempted to overwrite an unspent coin": the usage was already reduced
        Thrown(Cache(s.layer.(usage := s.layer.usage - was.coin.Usage()), s.base))
      else
        var isFresh := !possibleOverwrite && !was.isDirty;
        Done(Cache(Put(s.layer, op, Entry(coin, true, was.isFresh || isFresh)), s.base))
  }

  lemma OverlayPut(layer: Layer, base: CoinMap, op: OutPoint, e: Entry)
    requires EntriesOk(layer.coins, base) && layer.usage == SumUsage(layer.coins)
    ensures var put := Put(layer, op, e);
            && put.usage == SumUsage(put.coins)
            && (EntriesOk(put.coins, base) <==> EntryOk(op, e, base))
            && Overlay(put.coins, base) ==
               if e.coin.IsSpent() then Overlay(layer.coins, base) - {op} else Overlay(layer.coins, base)[op := e.coin]
  {
    SumUsageUpdate(layer.coins, op, e);
    var put := Put(layer, op, e).coins;
    var was := Overlay(layer.coins, base);
    var view := if e.coin.IsSpent() then was - {op} else was[op := e.coin];
    forall o ensures ShownAt(put, base, o) == ViewAt(view, o) {
      OverlayAt(layer.coins, base, o);
    }
    SameOverlay(put, base, view);
    assert put[op] == e;
  }

  lemma OverlayDrop(layer: Layer, base: CoinMap, op: OutPoint)
    requires EntriesOk(layer.coins, base) && layer.usage == SumUsage(layer.coins)
    requires op in layer.coins && (op in base ==> !layer.coins[op].isDirty)
    ensures var dropped := Drop(layer, op);
            && dropped.usage == SumUsage(dropped.coins)
            && EntriesOk(dropped.coins, base)
            && Overlay(dropped.coins, base) ==
               if op in base then Overlay(layer.coins, base) else Overlay(layer.coins, base) - {op}
  {
    SumUsageRemove(layer.coins, op);
    var dropped := Drop(layer, op).coins;
    var was := Overlay(layer.coins, base);
    var view := if op in base then was else was - {op};
    forall o ensures ShownAt(dropped, base, o) == ViewAt(view, o) {
      OverlayAt(layer.coins, base, o);
      assert op in layer.coins && EntryOk(op, layer.coins[op], base);
    }
    SameOverlay(dropped, base, view);
  }

  /** AddCoin shows the new coin whatever the caller promised, but the cache stays sound
      exactly when a caller that rules out an overwrite is right about it. */
  lemma AddCoinCorrect(s: Stack, op: OutPoint, coin: Coin, possibleOverwrite: bool)
    requires Inv(s) && s.Cache? && !coin.IsSpent() && !IsUnspendable(coin.out.script)
    ensures var r := AddCoin(s, op, coin, possibleOverwrite);
            && (r.Thrown? <==> !possibleOverwrite && op in s.layer.coins && !s.layer.coins[op].coin.IsSpent())
            && (r.Done? ==>
                  && r.stack.Cache? && r.stack.base == s.base && r.stack.layer.best == s.layer.best
                  && View(r.stack) == View(s)[op := coin]
                  && (Inv(r.stack) <==> possibleOverwrite || op !in View(s)))
  {
    var r := AddCoin(s, op, coin, possibleOverwrite);
    OverlayAt(s.layer.coins, View(s.base), op);
    if r.Done? {
      OverlayPut(s.layer, View(s.base), op, r.stack.layer.coins[op]);
    }
  }

  /** Adding an output that begins with OP_RETURN or is longer than 10000 bytes does nothing, and any other coin is
      shown unless AddCoin throws. */
  lemma UnspendableIgnored(s: Stack, op: OutPoint, coin: Coin, possibleOverwrite: bool)
    requires Inv(s) && s.Cache? && !coin.IsSpent()
    ensures var r, script := AddCoin(s, op, coin, possibleOverwrite), coin.out.script;
            if (script != [] && script[0] == 0x6a) || |script| > 10000 then r == Done(s)
            else r.Done? ==> op in View(r.stack) && View(r.stack)[op] == coin
  {
    hide Inv, View;
    if !IsUnspendable(coin.out.script) {
      AddCoinCorrect(s, op, coin, possibleOverwrite);
    }
  }

  /** A script that does not fit inline takes the allocator's 16 bytes more, rounded up to a multiple of 16. */
  lemma UsageRounds(script: Script)
    ensures var u := ScriptUsage(script);
            if |script| <= 28 then u == 0 else u % 16 == 0 && |script| + 16 <= u < |script| + 32
  {
  }

  function SpendCoin(s: Stack, op: OutPoint, empty: bool): (Stack, Option<Coin>)
    requires s.Cache?
  {
    var (s', answer) := FetchCoin(s, op, empty);
    if answer.None? || op !in s'.layer.coins then (s', None)
    else if s'.layer.coins[op].isFresh then (Cache(Drop(s'.layer, op), s'.base), answer)
    else (Cache(Put(s'.layer, op, Entry(CLEARED, true, false)), s'.base), answer)
  }

  lemma FetchedBase(s: Stack, op: OutPoint, empty: bool)
    requires Inv(s) && s.Cache?
    ensures FetchCoin(s, op, empty).0.Cache? && Views(FetchCoin(s, op, empty).0.base) == Views(s.base)
  {
    FetchCoinCorrect(s, op, empty);
    var f := FetchCoin(s, op, empty).0;
    assert Views(s) == [View(s)] + Views(s.base) && Views(f) == [View(f)] + Views(f.base);
    assert Views(f.base) == Views(f)[1..] == Views(s)[1..] == Views(s.base);
  }

  /** Spending the entry that FetchCoin left in the cache. */
  lemma SpendFetched(layer: Layer, base: CoinMap, op: OutPoint)
    requires EntriesOk(layer.coins, base) && layer.usage == SumUsage(layer.coins) && op in layer.coins
    ensures var spent :=
              if layer.coins[op].isFresh then Drop(layer, op) else Put(layer, op, Entry(CLEARED, true, false));
            && EntriesOk(spent.coins, base) && spent.usage == SumUsage(spent.coins)
            && Overlay(spent.coins, base) == Overlay(layer.coins, base) - {op}
  {
    assert EntryOk(op, layer.coins[op], base);
    if layer.coins[op].isFresh {
      OverlayDrop(layer, base, op);
    } else {
      OverlayPut(layer, base, op, Entry(CLEARED, true, false));
    }
  }

  /** SpendCoin removes exactly this outpoint from the view. It succeeds exactly when the view holds
      the coin, and also where SpendsNothing says so, with a spent coin as its answer. */
  lemma SpendCoinCorrect(s: Stack, op: OutPoint, empty: bool)
    requires Inv(s) && s.Cache?
    ensures var (s', answer) := SpendCoin(s, op, empty);
            && s'.Cache? && Inv(s') && Depth(s') == Depth(s) && Views(s'.base) == Views(s.base)
            && View(s') == View(s) - {op}
            && (op in View(s) ==> answer == Some(View(s)[op]))
            && (answer.Some? <==> op in View(s) || SpendsNothing(s, op, empty))
            && (op !in View(s) && answer.Some? ==> answer.value.IsSpent())
  {
    hide Overlay, EntriesOk, FetchCoin, Put, Drop, SumUsage;
    SpendAnswer(s, op, empty);
    FetchCoinCorrect(s, op, empty);
    FetchedBase(s, op, empty);
    var (f, answer) := FetchCoin(s, op, empty);
    if answer.Some? {
      SpendFetched(f.layer, View(f.base), op);
    } else {
      assert op !in View(s);
      assert View(s) - {op} == View(s);
    }
  }

  /** SpendCoin reports success on a coin the view does not hold: the entry is cached as spent, or
      the store below answers with an empty coin. */
  predicate SpendsNothing(s: Stack, op: OutPoint, empty: bool)
    requires s.Cache?
  {
    op !in View(s) && (op in s.layer.coins || (s.base.Bottom? && empty))
  }

  /** Exactly when SpendCoin answers true, and exactly when that answer is the one a plain map gives. */
  lemma SpendAnswer(s: Stack, op: OutPoint, empty: bool)
    requires Inv(s) && s.Cache?
    ensures var answer := SpendCoin(s, op, empty).1;
            && (answer.Some? <==> op in View(s) || op in s.layer.coins || (s.base.Bottom? && empty))
            && (answer == ViewAt(View(s), op) <==> !SpendsNothing(s, op, empty))
            && (SpendsNothing(s, op, empty) ==> answer.Some? && answer.value.IsSpent())
  {
    hide Overlay, EntriesOk, SumUsage;
    FetchCoinCorrect(s, op, empty);
    if op !in s.layer.coins {
      GetCoinCorrect(s.base, op, empty);
      OverlayAt(s.layer.coins, View(s.base), op);
      assert op in View(s) <==> op in View(s.base);
    }
  }

  /** The failing input: spending a cached coin that is not FRESH twice. The second call finds the
      entry it has just cleared and succeeds again, although the view no longer holds the coin. */
  lemma SpendsTwice(s: Stack, op: OutPoint, empty: bool)
    requires Inv(s) && s.Cache? && op in View(s) && op in s.layer.coins && !s.layer.coins[op].isFresh
    ensures var (once, first) := SpendCoin(s, op, empty);
            && first == Some(View(s)[op])
            && Inv(once) && once.Cache? && op !in View(once)
            && SpendCoin(once, op, empty).1.Some?
  {
    SpendCoinCorrect(s, op, empty);
  }

  function Uncache(s: Stack, op: OutPoint): Stack
    requires s.Cache?
  {
    if op in s.layer.coins && !s.layer.coins[op].isDirty && !s.layer.coins[op].isFresh
    then Cache(Drop(s.layer, op), s.base)
    else s
  }

  lemma UncacheCorrect(s: Stack, op: OutPoint)
    requires Inv(s) && s.Cache?
    ensures var s' := Uncache(s, op);
            && s'.Cache? && Inv(s') && s'.base == s.base && View(s') == View(s)
            && s'.layer.coins == if op in s.layer.coins && (s.layer.coins[op].isDirty || s.layer.coins[op].isFresh)
                                 then s.layer.coins else s.layer.coins - {op}
  {
    if Uncache(s, op) != s {
      assert EntryOk(op, s.layer.coins[op], View(s.base));
      OverlayDrop(s.layer, View(s.base), op);
    }
  }

  /** Why the promise matters: adding over a coin that only the base holds marks the entry
      FRESH, and spending it then uncovers the old coin instead of removing it. */
  lemma WrongAddLosesSpend(s: Stack, op: OutPoint, coin: Coin, empty: bool)
    requires Inv(s) && s.Cache? && !coin.IsSpent() && !IsUnspendable(coin.out.script)
    requires op !in s.layer.coins && op in View(s)
    ensures var r := AddCoin(s, op, coin, false);
            && r.Done?
            && op in View(SpendCoin(r.stack, op, empty).0)
            && View(SpendCoin(r.stack, op, empty).0)[op] == View(s)[op]
  {
    var r := AddCoin(s, op, coin, false);
    var spent := SpendCoin(r.stack, op, empty).0;
    assert spent.layer.coins == s.layer.coins;
    assert spent.base == s.base;
  }

  // ---------- BatchWrite, Flush, Sync ----------

  function EntryAt(m: EntryMap, op: OutPoint): Option<Entry> {
    if op in m then Some(m[op]) else None
  }

  /** What the parent holds for an outpoint after taking over a DIRTY child entry. */
  function MergeEntry(us: Option<Entry>, it: Entry): Option<Entry> {
    match us
    case None =>
      if it.isFresh && it.coin.IsSpent() then None else Some(Entry(it.coin, true, it.isFresh))
    case Some(u) =>
      if u.isFresh && it.coin.IsSpent() then None else Some(Entry(it.coin, true, u.isFresh))
  }

  function MergedAt(m: EntryMap, child: EntryMap, op: OutPoint): Option<Entry> {
    if op in child && child[op].isDirty then MergeEntry(EntryAt(m, op), child[op]) else EntryAt(m, op)
  }

  function Merged(m: EntryMap, child: EntryMap): EntryMap {
    map op | op in m.Keys + child.Keys && MergedAt(m, child, op).Some? :: MergedAt(m, child, op).value
  }

  /** "FRESH flag misapplied to coin that exists in parent cache". */
  predicate MisappliedAt(m: EntryMap, child: EntryMap, op: OutPoint) {
    op in child && child[op].isDirty && child[op].isFresh && op in m && !m[op].coin.IsSpent()
  }

  predicate Misapplied(m: EntryMap, child: EntryMap) {
    exists op :: op in child && MisappliedAt(m, child, op)
  }

  /** The bottom store after the same bulk write: it keeps unspent coins only. */
  function Written(store: CoinMap, child: EntryMap): CoinMap {
    map op | op in store.Keys + child.Keys && WrittenAt(store, child, op).Some? :: WrittenAt(store, child, op).value
  }

  function WrittenAt(store: CoinMap, child: EntryMap, op: OutPoint): Option<Coin> {
    if op in child && child[op].isDirty then
      if child[op].coin.IsSpent() then None else Some(child[op].coin)
    else ViewAt(store, op)
  }

  /** None where the code throws. */
  ghost function BatchWrite(s: Stack, child: EntryMap, best: Hash): Option<Stack> {
    match s
    case Bottom(store, _) => Some(Bottom(Written(store, child), best))
    case Cache(layer, base) =>
      if Misapplied(layer.coins, child) then None else
        var coins := Merged(layer.coins, child);
        Some(Cache(Layer(coins, layer.usage + SumUsage(coins) - SumUsage(layer.coins), best), base))
  }

  lemma WrittenIsOverlay(store: CoinMap, child: EntryMap)
    requires EntriesOk(child, store)
    ensures Written(store, child) == Overlay(child, store)
  {
    forall op ensures ViewAt(Written(store, child), op) == ViewAt(Overlay(child, store), op) {
      OverlayAt(child, store, op);
      assert op in child ==> EntryOk(op, child[op], store);
    }
    SameView(Written(store, child), Overlay(child, store));
  }

  lemma MergedEntryOk(m: EntryMap, child: EntryMap, base: CoinMap, op: OutPoint)
    requires EntriesOk(m, base) && EntriesOk(child, Overlay(m, base))
    ensures !MisappliedAt(m, child, op)
    ensures MergedAt(m, child, op).Some? ==> EntryOk(op, MergedAt(m, child, op).value, base)
    ensures (match MergedAt(m, child, op)
             case None => ViewAt(base, op)
             case Some(e) => if e.coin.IsSpent() then None else Some(e.coin))
            == ShownAt(child, Overlay(m, base), op)
  {
    OverlayAt(m, base, op);
    assert op in m ==> EntryOk(op, m[op], base);
    assert op in child ==> EntryOk(op, child[op], Overlay(m, base));
  }

  lemma MergedIsOverlay(m: EntryMap, child: EntryMap, base: CoinMap)
    requires EntriesOk(m, base) && EntriesOk(child, Overlay(m, base))
    ensures !Misapplied(m, child)
    ensures EntriesOk(Merged(m, child), base)
    ensures Overlay(Merged(m, child), base) == Overlay(child, Overlay(m, base))
  {
    var merged := Merged(m, child);
    forall op
      ensures !MisappliedAt(m, child, op)
      ensures op in merged ==> EntryOk(op, merged[op], base)
      ensures ShownAt(merged, base, op) == ViewAt(Overlay(child, Overlay(m, base)), op)
    {
      MergedEntryOk(m, child, base, op);
      OverlayAt(child, Overlay(m, base), op);
    }
    SameOverlay(merged, base, Overlay(child, Overlay(m, base)));
  }

  /** A bulk write from a sound child never throws, leaves the written level sound against
      its own base, and makes it show exactly what the child shows. */
  lemma BatchWriteCorrect(s: Stack, child: EntryMap, best: Hash)
    requires Inv(s) && EntriesOk(child, View(s))
    ensures var r := BatchWrite(s, child, best);
            && r.Some? && Inv(r.value)
            && View(r.value) == Overlay(child, View(s))
            && Depth(r.value) == Depth(s) && r.value.Cache? == s.Cache?
            && (s.Cache? ==> r.value.base == s.base)
  {
    match s
    case Bottom(store, _) =>
      WrittenIsOverlay(store, child);
      forall op | op in Written(store, child) ensures !Written(store, child)[op].IsSpent() {
        assert WrittenAt(store, child, op) == Some(Written(store, child)[op]);
      }
    case Cache(layer, base) =>
      MergedIsOverlay(layer.coins, child, View(base));
  }

  ghost function Flush(s: Stack): Option<Stack>
    requires s.Cache?
  {
    match BatchWrite(s.base, s.layer.coins, s.layer.best)
    case None => None
    case Some(base') => Some(Cache(Layer(map[], 0, s.layer.best), base'))
  }

  function Synced(coins: EntryMap): EntryMap {
    map op | op in coins && !coins[op].coin.IsSpent() :: Entry(coins[op].coin, false, false)
  }

  ghost function Sync(s: Stack): Option<Stack>
    requires s.Cache?
  {
    match BatchWrite(s.base, s.layer.coins, s.layer.best)
    case None => None
    case Some(base') =>
      var coins := Synced(s.layer.coins);
      Some(Cache(Layer(coins, s.layer.usage + SumUsage(coins) - SumUsage(s.layer.coins), s.layer.best), base'))
  }

  ghost predicate PushedDown(s: Stack, r: Option<Stack>) {
    && s.Cache? && r.Some? && r.value.Cache? && Inv(r.value)
    && View(r.value) == View(s) == View(r.value.base)
    && Depth(r.value) == Depth(s) && r.value.base.Cache? == s.base.Cache?
    && (s.base.Cache? ==> r.value.base.base == s.base.base)
  }

  /** Flush succeeds, keeps the view and hands it to the parent; nothing below the parent moves. */
  lemma FlushCorrect(s: Stack)
    requires Inv(s) && s.Cache?
    ensures PushedDown(s, Flush(s)) && Flush(s).value.layer.coins == map[]
  {
    BatchWriteCorrect(s.base, s.layer.coins, s.layer.best);
    var view := View(s);
    forall op ensures ShownAt(map[], view, op) == ViewAt(view, op) {
    }
    SameOverlay(map[], view, view);
  }

  lemma SyncCorrect(s: Stack)
    requires Inv(s) && s.Cache?
    ensures PushedDown(s, Sync(s))
    ensures forall op :: EntryAt(Sync(s).value.layer.coins, op) ==
                         if op in s.layer.coins && !s.layer.coins[op].coin.IsSpent()
                         then Some(Entry(s.layer.coins[op].coin, false, false)) else None
  {
    BatchWriteCorrect(s.base, s.layer.coins, s.layer.best);
    var view, coins := View(s), Synced(s.layer.coins);
    forall op
      ensures op in coins ==> EntryOk(op, coins[op], view)
      ensures ShownAt(coins, view, op) == ViewAt(view, op)
    {
      OverlayAt(s.layer.coins, View(s.base), op);
    }
    SameOverlay(coins, view, view);
  }

  // ---------- what FRESH is for ----------

  /** A coin that is added to a cache and spent in it leaves no trace there. */
  lemma SpentLeavesNoTrace(s: Stack, op: OutPoint, coin: Coin, empty: bool)
    requires s.Cache? && !coin.IsSpent() && !IsUnspendable(coin.out.script) && op !in s.layer.coins
    ensures var r := AddCoin(s, op, coin, false); r.Done? && SpendCoin(r.stack, op, empty) == (s, Some(coin))
  {
    var r := AddCoin(s, op, coin, false);
    assert r.stack.layer.coins - {op} == s.layer.coins;
  }

  /** Nor in the parent, if the cache was flushed before the coin was spent there. */
  lemma FlushedLeavesNoTrace(s: Stack, op: OutPoint, coin: Coin, empty: bool)
    requires Inv(s) && s.Cache? && s.base.Cache? && s.layer.coins == map[]
    requires !coin.IsSpent() && !IsUnspendable(coin.out.script) && op !in View(s) && op !in s.base.layer.coins
    ensures var r := AddCoin(s, op, coin, false);
            && r.Done? && Flush(r.stack).Some? && Flush(r.stack).value.base.Cache?
            && var (spent, answer) := SpendCoin(Flush(r.stack).value.base, op, empty);
               answer == Some(coin) && spent.layer.coins == s.base.layer.coins
  {
    hide Inv, View, Merged, SumUsage, SpendCoin, EntriesOk;
    var r := AddCoin(s, op, coin, false);
    AddCoinCorrect(s, op, coin, false);
    FlushCorrect(r.stack);
    var parent, child := s.base.layer.coins, r.stack.layer.coins;
    assert child == map[op := Entry(coin, true, true)];
    MergedOne(parent, op, coin);
    SpendFresh(Flush(r.stack).value.base, op, empty);
    assert parent[op := Entry(coin, true, true)] - {op} == parent;
  }

  lemma MergedOne(m: EntryMap, op: OutPoint, coin: Coin)
    requires op !in m && !coin.IsSpent()
    ensures Merged(m, map[op := Entry(coin, true, true)]) == m[op := Entry(coin, true, true)]
  {
  }

  lemma SpendFresh(s: Stack, op: OutPoint, empty: bool)
    requires s.Cache? && op in s.layer.coins && s.layer.coins[op].isFresh
    ensures var (s', answer) := SpendCoin(s, op, empty);
            s'.Cache? && s'.layer.coins == s.layer.coins - {op} && answer == Some(s.layer.coins[op].coin)
  {
  }

  /** A cache that spends a coin its parent holds FRESH makes the parent forget it when it is flushed. */
  lemma FlushedSpendForgets(s: Stack, op: OutPoint)
    requires Inv(s) && s.Cache? && s.base.Cache? && op in s.base.layer.coins && s.base.layer.coins[op].isFresh
    requires op in s.layer.coins && s.layer.coins[op].isDirty && s.layer.coins[op].coin.IsSpent()
    ensures Flush(s).Some? && Flush(s).value.base.Cache? && op !in Flush(s).value.base.layer.coins
  {
    FlushCorrect(s);
    assert MergedAt(s.base.layer.coins, s.layer.coins, op) == None;
  }

  // ---------- best block ----------

  function Best(s: Stack): Hash {
    match s
    case Bottom(_, best) => best
    case Cache(layer, base) => if layer.best == NULL_HASH then Best(base) else layer.best
  }

  /** GetBestBlock records what it finds in every cache that had nothing recorded on the way. */
  function Resolved(s: Stack): Stack {
    match s
    case Bottom(_, _) => s
    case Cache(layer, base) =>
      if layer.best == NULL_HASH then Cache(layer.(best := Best(base)), Resolved(base)) else s
  }

  lemma {:induction false} ResolvedSame(s: Stack)
    requires Inv(s)
    ensures Inv(Resolved(s)) && Best(Resolved(s)) == Best(s)
    ensures Resolved(s).Cache? == s.Cache? && (s.Cache? ==> Resolved(s).layer.best == Best(s))
    ensures View(Resolved(s)) == View(s) && Views(Resolved(s)) == Views(s)
  {
    if s.Cache? && s.layer.best == NULL_HASH {
      ResolvedSame(s.base);
    }
  }

  /** The best block a level would show if its own record were forgotten. */
  function BestBelow(s: Stack): Hash {
    match s
    case Bottom(_, _) => NULL_HASH
    case Cache(_, base) => Best(base)
  }

  /** Flush hands its best block down even when it never looked one up, and then erases the
      parent's record: the best block survives a flush exactly when the cache holds one, or the
      parent's own record adds nothing to what is below it. */
  lemma FlushKeepsBest(s: Stack)
    requires Inv(s) && s.Cache?
    ensures Flush(s).Some?
    ensures Best(Flush(s).value) == Best(s) <==>
            s.layer.best != NULL_HASH || BestBelow(s.base) == Best(s.base)
  {
    FlushCorrect(s);
  }

  /** A stack on which a flush loses the best block: a cache that looked nothing up, over a parent
      that recorded `parent`, over a store at `store`. */
  lemma FlushLosesBest(parent: Hash, store: Hash)
    requires parent != NULL_HASH && parent != store
    ensures var s := Cache(Layer(map[], 0, NULL_HASH), Cache(Layer(map[], 0, parent), Bottom(map[], store)));
            Inv(s) && Best(s) == parent && Flush(s).Some? && Best(Flush(s).value) == store
  {
    var bottom := Bottom(map[], store);
    EmptyCacheOk(bottom, parent);
    EmptyCacheOk(Cache(Layer(map[], 0, parent), bottom), NULL_HASH);
    FlushKeepsBest(Cache(Layer(map[], 0, NULL_HASH), Cache(Layer(map[], 0, parent), bottom)));
  }

  lemma EmptyCacheOk(s: Stack, best: Hash)
    requires Inv(s)
    ensures Inv(Cache(Layer(map[], 0, best), s))
  {
    assert SumUsage(map[]) == 0;
  }
}
