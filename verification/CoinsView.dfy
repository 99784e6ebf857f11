/** CCoinsViewCache and the store under it, as objects updated in place.

    Every method is proved equal to the function of the same name in module Coins, on
    the stack of caches reached through the base pointers. Where the source uses a
    virtual call on `base`, the cache asks its parent cache if it has one and the
    store otherwise. */
module CoinsView {
  import opened Options
  import opened Coins

  /** The view at the bottom. It may answer an absent outpoint with an empty coin. */
  class CoinsStore {
    var coins: CoinMap
    var best: Hash

    constructor (coins: CoinMap, best: Hash)
      ensures this.coins == coins && this.best == best
    {
      this.coins, this.best := coins, best;
    }

    ghost function Abs(): Stack
      reads this
    {
      Bottom(coins, best)
    }

    method GetCoin(op: OutPoint) returns (answer: Option<Coin>, ghost empty: bool)
      ensures (Abs(), answer) == Coins.GetCoin(Abs(), op, empty)
      ensures if op in coins then answer == Some(coins[op]) else answer.Some? ==> answer.value == CLEARED
    {
      if op in coins {
        return Some(coins[op]), false;
      }
      var pick: bool := *;
      return if pick then Some(CLEARED) else None, pick;
    }

    method WriteOne(op: OutPoint, it: Entry)
      modifies `coins
      ensures coins == Rewritten(old(coins), op, it)
    {
      if it.isDirty {
        if it.coin.IsSpent() {
          coins := coins - {op};
        } else {
          coins := coins[op := it.coin];
        }
      }
    }

    method BatchWrite(mapCoins: EntryMap, hashBlock: Hash, erase: bool) returns (rest: EntryMap)
      modifies this
      ensures Coins.BatchWrite(old(Abs()), mapCoins, hashBlock) == Some(Abs())
      ensures rest == if erase then map[] else mapCoins
    {
      ghost var was, done := coins, map[];
      var todo := mapCoins;
      WrittenNothing(was);
      while todo != map[]
        invariant Split(mapCoins, done, todo)
        invariant coins == Written(was, done)
        decreases todo.Keys
      {
        var op :| op in todo;
        WrittenStep(was, done, op, todo[op]);
        SplitStep(mapCoins, done, todo, op);
        WriteOne(op, todo[op]);
        done, todo := done[op := todo[op]], todo - {op};
      }
      assert done == mapCoins;
      rest := if erase then todo else mapCoins;
      best := hashBlock;
    }
  }

  /** A walk over a map: what has been visited and what has not. */
  ghost predicate Split(whole: EntryMap, done: EntryMap, todo: EntryMap) {
    && (forall op :: op in whole <==> op in done || op in todo)
    && (forall op :: op in done ==> op !in todo && whole[op] == done[op])
    && (forall op :: op in todo ==> whole[op] == todo[op])
  }

  lemma SplitStep(whole: EntryMap, done: EntryMap, todo: EntryMap, op: OutPoint)
    requires Split(whole, done, todo) && op in todo
    ensures whole[op] == todo[op] && Split(whole, done[op := todo[op]], todo - {op})
  {
  }

  function Rewritten(store: CoinMap, op: OutPoint, e: Entry): CoinMap {
    if !e.isDirty then store else if e.coin.IsSpent() then store - {op} else store[op := e.coin]
  }

  lemma WrittenNothing(store: CoinMap)
    ensures Written(store, map[]) == store
  {
    forall op ensures WrittenAt(store, map[], op) == ViewAt(store, op) {
    }
  }

  lemma WrittenStep(store: CoinMap, done: EntryMap, op: OutPoint, e: Entry)
    requires op !in done
    ensures Written(store, done[op := e]) ==
            Rewritten(Written(store, done), op, e)
  {
    var next, now := Written(store, done[op := e]), Written(store, done);
    var want := Rewritten(now, op, e);
    forall o ensures ViewAt(next, o) == ViewAt(want, o) {
      assert ViewAt(next, o) == WrittenAt(store, done[op := e], o);
      assert ViewAt(now, o) == WrittenAt(store, done, o);
    }
    SameView(next, want);
  }

  /** The flags are cleared and spent entries dropped, except at the outpoints still to do. */
  ghost predicate Clearing(was: EntryMap, todo: set<OutPoint>, now: EntryMap) {
    && todo <= was.Keys
    && (forall op :: op in now <==> op in was && (op in todo || !was[op].coin.IsSpent()))
    && (forall op :: op in now ==> now[op] == if op in todo then was[op] else Entry(was[op].coin, false, false))
  }

  lemma ClearingNext(was: EntryMap, todo: set<OutPoint>, now: EntryMap, op: OutPoint)
    requires Clearing(was, todo, now) && op in todo
    ensures op in now
    ensures now[op].coin.IsSpent() ==> Clearing(was, todo - {op}, now - {op})
    ensures !now[op].coin.IsSpent() ==> Clearing(was, todo - {op}, now[op := Entry(now[op].coin, false, false)])
  {
  }

  lemma ClearingEnds(was: EntryMap, now: EntryMap)
    ensures Clearing(was, was.Keys, was)
    ensures Clearing(was, {}, now) ==> now == Synced(was)
  {
  }

  class CoinsViewCache {
    var cacheCoins: EntryMap
    var cachedCoinsUsage: int
    var hashBlock: Hash

    const parent: CoinsViewCache?
    const store: CoinsStore

    ghost const below: nat
    ghost const Repr: set<object>

    /** The base pointers form a finite chain down to the store. */
    ghost predicate Linked()
      decreases below
    {
      && this in Repr && store in Repr
      && (parent == null ==> Repr == {this, store})
      && (parent != null ==>
            && parent.below < below && parent.store == store && parent.Linked()
            && this !in parent.Repr && Repr == parent.Repr + {this})
    }

    ghost function BaseAbs(): Stack
      requires Linked()
      reads Repr
      decreases below, 0
    {
      if parent == null then store.Abs() else parent.Abs()
    }

    ghost function Abs(): Stack
      requires Linked()
      reads Repr
      decreases below, 1
    {
      Cache(Layer(cacheCoins, cachedCoinsUsage, hashBlock), BaseAbs())
    }

    constructor OnStore(store: CoinsStore)
      ensures Linked() && Repr == {this, store}
      ensures Abs() == Cache(Layer(map[], 0, NULL_HASH), store.Abs())
    {
      parent, this.store := null, store;
      cacheCoins, cachedCoinsUsage, hashBlock := map[], 0, NULL_HASH;
      below, Repr := 0, {this, store};
    }

    constructor OnCache(base: CoinsViewCache)
      requires base.Linked()
      ensures Linked() && Repr == base.Repr + {this}
      ensures Abs() == Cache(Layer(map[], 0, NULL_HASH), base.Abs())
    {
      parent, store := base, base.store;
      cacheCoins, cachedCoinsUsage, hashBlock := map[], 0, NULL_HASH;
      below, Repr := base.below + 1, base.Repr + {this};
    }

    method FetchCoin(op: OutPoint) returns (found: bool, ghost empty: bool)
      requires Linked()
      modifies Repr
      ensures Abs() == Coins.FetchCoin(old(Abs()), op, empty).0
      ensures found == Coins.FetchCoin(old(Abs()), op, empty).1.Some?
      ensures found ==> op in cacheCoins && Coins.FetchCoin(old(Abs()), op, empty).1 == Some(cacheCoins[op].coin)
      decreases below, 0
    {
      if op in cacheCoins {
        return true, false;
      }
      var answer: Option<Coin>;
      if parent == null {
        answer, empty := store.GetCoin(op);
      } else {
        answer, empty := parent.GetCoin(op);
      }
      if answer.None? {
        return false, empty;
      }
      var coin := answer.value;
      cacheCoins := cacheCoins[op := Entry(coin, false, coin.IsSpent())];
      cachedCoinsUsage := cachedCoinsUsage + coin.Usage();
      return true, empty;
    }

    method GetCoin(op: OutPoint) returns (answer: Option<Coin>, ghost empty: bool)
      requires Linked()
      modifies Repr
      ensures (Abs(), answer) == Coins.GetCoin(old(Abs()), op, empty)
      decreases below, 1
    {
      var found;
      found, empty := FetchCoin(op);
      if found && !cacheCoins[op].coin.IsSpent() {
        return Some(cacheCoins[op].coin), empty;
      }
      return None, empty;
    }

    method HaveCoin(op: OutPoint) returns (have: bool, ghost empty: bool)
      requires Linked()
      modifies Repr
      ensures Abs() == Coins.GetCoin(old(Abs()), op, empty).0
      ensures have == Coins.GetCoin(old(Abs()), op, empty).1.Some?
    {
      var found;
      found, empty := FetchCoin(op);
      have := found && !cacheCoins[op].coin.IsSpent();
    }

    method AddCoin(op: OutPoint, coin: Coin, possibleOverwrite: bool) returns (ok: bool)
      requires Linked() && !coin.IsSpent()
      modifies this
      ensures (if ok then Done(Abs()) else Thrown(Abs())) == Coins.AddCoin(old(Abs()), op, coin, possibleOverwrite)
    {
      if IsUnspendable(coin.out.script) {
        return true;
      }
      var inserted := op !in cacheCoins;
      var entry := if inserted then Entry(CLEARED, false, false) else cacheCoins[op];
      if !inserted {
        cachedCoinsUsage := cachedCoinsUsage - entry.coin.Usage();
      }
      var isFresh := false;
      if !possibleOverwrite {
        if !entry.coin.IsSpent() {
          return false;
        }
        isFresh := !entry.isDirty;
      }
      cacheCoins := cacheCoins[op := Entry(coin, true, entry.isFresh || isFresh)];
      cachedCoinsUsage := cachedCoinsUsage + coin.Usage();
      return true;
    }

    method SpendCoin(op: OutPoint) returns (moved: Option<Coin>, ghost empty: bool)
      requires Linked()
      modifies Repr
      ensures (Abs(), moved) == Coins.SpendCoin(old(Abs()), op, empty)
    {
      var found;
      found, empty := FetchCoin(op);
      if !found {
        return None, empty;
      }
      moved := Some(cacheCoins[op].coin);
      cachedCoinsUsage := cachedCoinsUsage - cacheCoins[op].coin.Usage();
      if cacheCoins[op].isFresh {
        cacheCoins := cacheCoins - {op};
      } else {
        cacheCoins := cacheCoins[op := Entry(CLEARED, true, false)];
      }
    }

    method Uncache(op: OutPoint)
      requires Linked()
      modifies this
      ensures Abs() == Coins.Uncache(old(Abs()), op)
    {
      if op in cacheCoins && !cacheCoins[op].isDirty && !cacheCoins[op].isFresh {
        cachedCoinsUsage := cachedCoinsUsage - cacheCoins[op].coin.Usage();
        cacheCoins := cacheCoins - {op};
      }
    }

    method GetBestBlock() returns (best: Hash)
      requires Linked()
      modifies Repr
      ensures best == Best(old(Abs())) && Abs() == Resolved(old(Abs()))
      ensures Inv(old(Abs())) ==> Inv(Abs()) && Best(Abs()) == best && Views(Abs()) == Views(old(Abs()))
      decreases below
    {
      hide Inv, Views;
      ghost var was := Abs();
      if Inv(was) {
        ResolvedSame(was);
      }
      if hashBlock == NULL_HASH {
        if parent == null {
          hashBlock := store.best;
        } else {
          var h := parent.GetBestBlock();
          hashBlock := h;
        }
      }
      best := hashBlock;
    }

    method SetBestBlock(best: Hash)
      requires Linked()
      modifies this
      ensures Abs() == Cache(old(Abs()).layer.(best := best), old(BaseAbs()))
    {
      hashBlock := best;
    }

    /** One DIRTY child entry; false where the code throws. */
    method WriteEntry(op: OutPoint, it: Entry) returns (ok: bool)
      modifies `cacheCoins, `cachedCoinsUsage
      ensures ok <==> !(it.isFresh && op in old(cacheCoins) && !old(cacheCoins)[op].coin.IsSpent())
      ensures ok ==> var merged := MergeEntry(EntryAt(old(cacheCoins), op), it);
                     cacheCoins == if merged.None? then old(cacheCoins) - {op} else old(cacheCoins)[op := merged.value]
      ensures ok ==> cachedCoinsUsage == old(cachedCoinsUsage) + SumUsage(cacheCoins) - SumUsage(old(cacheCoins))
    {
      ghost var was := cacheCoins;
      if op !in cacheCoins {
        if !(it.isFresh && it.coin.IsSpent()) {
          cacheCoins := cacheCoins[op := Entry(it.coin, true, it.isFresh)];
          cachedCoinsUsage := cachedCoinsUsage + it.coin.Usage();
          SumUsageUpdate(was, op, cacheCoins[op]);
        } else {
          assert was - {op} == was;
        }
        return true;
      }
      var us := cacheCoins[op];
      if it.isFresh && !us.coin.IsSpent() {
        return false;
      }
      cachedCoinsUsage := cachedCoinsUsage - us.coin.Usage();
      if us.isFresh && it.coin.IsSpent() {
        cacheCoins := cacheCoins - {op};
        SumUsageRemove(was, op);
      } else {
        cacheCoins := cacheCoins[op := Entry(it.coin, true, us.isFresh)];
        cachedCoinsUsage := cachedCoinsUsage + it.coin.Usage();
        SumUsageUpdate(was, op, cacheCoins[op]);
      }
      return true;
    }

    /** The walk of BatchWrite over the child's entries, in any order. */
    method WriteAll(mapCoins: EntryMap) returns (ok: bool, todo: EntryMap)
      modifies `cacheCoins, `cachedCoinsUsage
      ensures ok <==> !Misapplied(old(cacheCoins), mapCoins)
      ensures ok ==> todo == map[] && cacheCoins == Merged(old(cacheCoins), mapCoins)
      ensures ok ==> cachedCoinsUsage == old(cachedCoinsUsage) + SumUsage(cacheCoins) - SumUsage(old(cacheCoins))
    {
      ghost var was, done := cacheCoins, map[];
      todo := mapCoins;
      MergedNothing(was);
      while todo != map[]
        invariant Split(mapCoins, done, todo)
        invariant cacheCoins == Merged(was, done) && !Misapplied(was, done)
        invariant cachedCoinsUsage == old(cachedCoinsUsage) + SumUsage(cacheCoins) - SumUsage(was)
        decreases todo.Keys
      {
        var op :| op in todo;
        MergedStep(was, done, op, todo[op]);
        MisappliedStep(was, done, op, todo[op]);
        SplitStep(mapCoins, done, todo, op);
        if todo[op].isDirty {
          var fine := WriteEntry(op, todo[op]);
          if !fine {
            assert MisappliedAt(was, mapCoins, op);
            return false, todo;
          }
        }
        done, todo := done[op := todo[op]], todo - {op};
      }
      assert done == mapCoins;
      return true, todo;
    }

    method BatchWrite(mapCoins: EntryMap, hashBlockIn: Hash, erase: bool) returns (ok: bool, rest: EntryMap)
      requires Linked()
      modifies this
      ensures ok <==> Coins.BatchWrite(old(Abs()), mapCoins, hashBlockIn).Some?
      ensures ok ==> Coins.BatchWrite(old(Abs()), mapCoins, hashBlockIn) == Some(Abs())
      ensures ok ==> rest == if erase then map[] else mapCoins
    {
      ok, rest := WriteAll(mapCoins);
      if ok {
        hashBlock := hashBlockIn;
        rest := if erase then rest else mapCoins;
      }
    }

    method BaseBatchWrite(erase: bool) returns (ok: bool, rest: EntryMap)
      requires Linked()
      modifies Repr - {this}
      ensures var r := Coins.BatchWrite(old(BaseAbs()), cacheCoins, hashBlock);
              ok == r.Some? && (ok ==> r == Some(BaseAbs()))
      ensures ok ==> rest == if erase then map[] else cacheCoins
    {
      if parent == null {
        rest := store.BatchWrite(cacheCoins, hashBlock, erase);
        ok := true;
      } else {
        ok, rest := parent.BatchWrite(cacheCoins, hashBlock, erase);
      }
    }

    method Flush() returns (ok: bool)
      requires Linked()
      modifies Repr
      ensures ok <==> Coins.Flush(old(Abs())).Some?
      ensures ok ==> Coins.Flush(old(Abs())) == Some(Abs())
    {
      var rest;
      ok, rest := BaseBatchWrite(true);
      if ok {
        cacheCoins := rest;
        assert cacheCoins == map[];  // "Not all cached coins were erased" is never thrown
        cachedCoinsUsage := 0;
      }
    }

    method Sync() returns (ok: bool)
      requires Linked()
      modifies Repr
      ensures ok <==> Coins.Sync(old(Abs())).Some?
      ensures ok ==> Coins.Sync(old(Abs())) == Some(Abs())
    {
      hide SumUsage, Synced;
      var rest;
      ok, rest := BaseBatchWrite(false);
      if ok {
        ClearFlags();
      }
    }

    /** The second half of Sync: forget spent entries, clear the flags of the others. */
    method ClearFlags()
      modifies `cacheCoins, `cachedCoinsUsage
      ensures cacheCoins == Synced(old(cacheCoins))
      ensures cachedCoinsUsage == old(cachedCoinsUsage) + SumUsage(cacheCoins) - SumUsage(old(cacheCoins))
    {
      hide Clearing, SumUsage, Synced;
      ghost var was := cacheCoins;
      var todo := cacheCoins.Keys;
      ClearingEnds(was, was);
      while todo != {}
        invariant Clearing(was, todo, cacheCoins)
        invariant cachedCoinsUsage == old(cachedCoinsUsage) + SumUsage(cacheCoins) - SumUsage(was)
        decreases todo
      {
        var op :| op in todo;
        ClearingNext(was, todo, cacheCoins, op);
        ghost var now := cacheCoins;
        if cacheCoins[op].coin.IsSpent() {
          cachedCoinsUsage := cachedCoinsUsage - cacheCoins[op].coin.Usage();
          cacheCoins := cacheCoins - {op};
          SumUsageRemove(now, op);
        } else {
          cacheCoins := cacheCoins[op := Entry(cacheCoins[op].coin, false, false)];
          SumUsageUpdate(now, op, cacheCoins[op]);
        }
        todo := todo - {op};
      }
      ClearingEnds(was, cacheCoins);
    }

    /** Whether every assertion of SanityCheck would hold. */
    method SanityCheck() returns (ok: bool)
      ensures ok <==> (forall op :: op in cacheCoins ==> cacheCoins[op].Legal())
                      && cachedCoinsUsage == SumUsage(cacheCoins)
    {
      var recomputed := 0;
      var todo := cacheCoins;
      while todo != map[]
        invariant todo.Keys <= cacheCoins.Keys && forall op :: op in todo ==> todo[op] == cacheCoins[op]
        invariant forall op :: op in cacheCoins && op !in todo ==> cacheCoins[op].Legal()
        invariant recomputed + SumUsage(todo) == SumUsage(cacheCoins)
        decreases todo.Keys
      {
        var op :| op in todo;
        var entry := todo[op];
        var attr := (if entry.isDirty then 1 else 0) + (if entry.isFresh then 2 else 0)
                    + (if entry.coin.IsSpent() then 4 else 0);
        if attr == 2 || attr == 4 || attr == 7 {
          assert !cacheCoins[op].Legal();
          return false;
        }
        recomputed := recomputed + entry.coin.Usage();
        SumUsageRemove(todo, op);
        todo := todo - {op};
      }
      ok := recomputed == cachedCoinsUsage;
    }
  }

  lemma MergedNothing(m: EntryMap)
    ensures Merged(m, map[]) == m
  {
    forall op ensures MergedAt(m, map[], op) == EntryAt(m, op) {
    }
  }

  lemma MergedStep(m: EntryMap, done: EntryMap, op: OutPoint, e: Entry)
    requires op !in done
    ensures EntryAt(Merged(m, done), op) == EntryAt(m, op)
    ensures var now, entry := Merged(m, done), MergeEntry(EntryAt(m, op), e);
            Merged(m, done[op := e]) ==
            if !e.isDirty then now else if entry.None? then now - {op} else now[op := entry.value]
  {
    var now, next := Merged(m, done), Merged(m, done[op := e]);
    var entry := MergeEntry(EntryAt(m, op), e);
    var want := if !e.isDirty then now else if entry.None? then now - {op} else now[op := entry.value];
    forall o ensures EntryAt(next, o) == EntryAt(want, o) {
      assert EntryAt(next, o) == MergedAt(m, done[op := e], o);
      assert EntryAt(now, o) == MergedAt(m, done, o);
    }
    SameEntries(next, want);
  }

  lemma MisappliedStep(m: EntryMap, done: EntryMap, op: OutPoint, e: Entry)
    requires op !in done && !Misapplied(m, done)
    ensures Misapplied(m, done[op := e]) <==> e.isDirty && e.isFresh && op in m && !m[op].coin.IsSpent()
  {
    var next := done[op := e];
    forall o | o in next && o != op ensures !MisappliedAt(m, next, o) {
      assert o in done && !MisappliedAt(m, done, o);
    }
    assert op in next && MisappliedAt(m, next, op) <==> e.isDirty && e.isFresh && op in m && !m[op].coin.IsSpent();
  }

  lemma SameEntries(m: EntryMap, m': EntryMap)
    requires forall op :: EntryAt(m, op) == EntryAt(m', op)
    ensures m == m'
  {
    forall op ensures op in m <==> op in m' {
      assert EntryAt(m, op) == EntryAt(m', op);
    }
    forall op | op in m ensures m[op] == m'[op] {
      assert EntryAt(m, op) == EntryAt(m', op);
    }
  }

  // ---------- adding all outputs of a transaction ----------

  datatype Transaction = Transaction(txid: Hash, outputs: seq<TxOut>, isCoinbase: bool)

  function CoinOf(tx: Transaction, i: nat, height: nat): Coin
    requires i < |tx.outputs|
  {
    Coin(tx.outputs[i], tx.isCoinbase, height)
  }

  /** The plain coin set after the first n outputs: unspendable ones leave no trace. */
  function WithOutputs(m: CoinMap, tx: Transaction, height: nat, n: nat): CoinMap
    requires n <= |tx.outputs|
  {
    if n == 0 then m else
      var m' := WithOutputs(m, tx, height, n - 1);
      if IsUnspendable(tx.outputs[n - 1].script) then m'
      else m'[OutPoint(tx.txid, n - 1) := CoinOf(tx, n - 1, height)]
  }

  lemma {:induction false} OutputsAhead(m: CoinMap, tx: Transaction, height: nat, n: nat, k: nat)
    requires n <= k <= |tx.outputs|
    ensures OutPoint(tx.txid, k) in WithOutputs(m, tx, height, n) <==> OutPoint(tx.txid, k) in m
    decreases n
  {
    if n > 0 {
      OutputsAhead(m, tx, height, n - 1, k);
    }
  }

  /** Output by output: a spendable one is there with the height and whether it is from a coinbase, and every other
      outpoint is as it was. */
  lemma {:induction false} OutputAt(m: CoinMap, tx: Transaction, height: nat, n: nat, op: OutPoint)
    requires n <= |tx.outputs|
    ensures ViewAt(WithOutputs(m, tx, height, n), op) == OutputOr(m, tx, height, n, op)
  {
    if n > 0 {
      OutputAt(m, tx, height, n - 1, op);
    }
  }

  function OutputOr(m: CoinMap, tx: Transaction, height: nat, n: nat, op: OutPoint): Option<Coin>
    requires n <= |tx.outputs|
  {
    if op.hash == tx.txid && op.n < n && !IsUnspendable(tx.outputs[op.n].script)
    then Some(Coin(tx.outputs[op.n], tx.isCoinbase, height)) else ViewAt(m, op)
  }

  /** AddCoins. With `check`, or for a coinbase, or when no output would overwrite a coin,
      nothing throws and the view gains exactly the spendable outputs. */
  method AddCoins(cache: CoinsViewCache, tx: Transaction, height: nat, check: bool) returns (ok: bool)
    requires cache.Linked() && Inv(cache.Abs())
    requires forall i :: 0 <= i < |tx.outputs| ==> tx.outputs[i].value != -1
    modifies cache.Repr
    ensures check || tx.isCoinbase
            || (forall i :: 0 <= i < |tx.outputs| ==> OutPoint(tx.txid, i) !in View(old(cache.Abs())))
            ==> && ok && Inv(cache.Abs())
                && forall op :: ViewAt(View(cache.Abs()), op) ==
                                OutputOr(View(old(cache.Abs())), tx, height, |tx.outputs|, op)
  {
    ghost var before := View(cache.Abs());
    ghost var legal := check || tx.isCoinbase
                       || (forall i :: 0 <= i < |tx.outputs| ==> OutPoint(tx.txid, i) !in before);
    for i := 0 to |tx.outputs|
      invariant legal ==> Inv(cache.Abs()) && View(cache.Abs()) == WithOutputs(before, tx, height, i)
    {
      var op := OutPoint(tx.txid, i);
      var overwrite := tx.isCoinbase;
      ghost var s := cache.Abs();
      if check {
        ghost var empty;
        overwrite, empty := cache.HaveCoin(op);
        if legal {
          GetCoinCorrect(s, op, empty);
        }
      }
      if legal {
        OutputsAhead(before, tx, height, i, i);
        AddOutput(cache.Abs(), op, CoinOf(tx, i, height), overwrite);
      }
      ok := cache.AddCoin(op, CoinOf(tx, i, height), overwrite);
      if !ok {
        return;
      }
    }
    ok := true;
    forall op ensures ViewAt(WithOutputs(before, tx, height, |tx.outputs|), op) ==
                      OutputOr(before, tx, height, |tx.outputs|, op)
    {
      OutputAt(before, tx, height, |tx.outputs|, op);
    }
  }

  lemma AddOutput(s: Stack, op: OutPoint, coin: Coin, overwrite: bool)
    requires Inv(s) && s.Cache? && !coin.IsSpent() && (op in View(s) ==> overwrite)
    ensures var r := AddCoin(s, op, coin, overwrite);
            && r.Done? && Inv(r.stack)
            && View(r.stack) == if IsUnspendable(coin.out.script) then View(s) else View(s)[op := coin]
  {
    if !IsUnspendable(coin.out.script) {
      AddCoinCorrect(s, op, coin, overwrite);
      OverlayAt(s.layer.coins, View(s.base), op);
    }
  }
}
