/** Compact blocks of blockencodings.cpp (BIP 152): a block announced as short transaction ids
    and a few whole transactions, put together again from the mempool. Hashes and the block
    check are arbitrary. */
module CompactBlock {
  import opened Options
  import opened Arithmetic

  type Tx = nat          // a transaction, named by its witness hash
  type Slots = seq<Option<Tx>>

  const MAX_TXS: nat := 100_000      // MAX_BLOCK_WEIGHT / MIN_SERIALIZABLE_TRANSACTION_WEIGHT
  const MAX_INDEX: nat := 0xffff

  datatype Prefilled = Prefilled(index: nat, tx: Tx, isNull: bool)

  datatype Message = Message(headerNull: bool, shortIds: seq<nat>, prefilled: seq<Prefilled>)
  {
    function Count(): nat { |shortIds| + |prefilled| }
  }

  // ---------- slots ----------

  /** The empty slots, in order. */
  function Free(a: Slots): seq<nat> {
    if a == [] then [] else Free(a[..|a| - 1]) + if a[|a| - 1].None? then [|a| - 1] else []
  }

  function Taken(a: Slots): nat {
    if a == [] then 0 else Taken(a[..|a| - 1]) + if a[|a| - 1].Some? then 1 else 0
  }

  lemma {:induction false} FreeAndTaken(a: Slots)
    ensures |Free(a)| + Taken(a) == |a|
  {
    if a != [] {
      FreeAndTaken(a[..|a| - 1]);
    }
  }

  /** free lists exactly the empty slots of a, ascending. */
  predicate ListsFree(a: Slots, free: seq<nat>) {
    && (forall i :: 0 <= i < |free| ==> free[i] < |a| && a[free[i]].None?)
    && (forall i, j :: 0 <= i < j < |free| ==> free[i] < free[j])
    && (forall s :: 0 <= s < |a| && a[s].None? ==> s in free)
  }

  lemma ListsFreeSnoc(a: Slots, free: seq<nat>)
    requires a != [] && ListsFree(a[..|a| - 1], free)
    ensures ListsFree(a, free + if a[|a| - 1].None? then [|a| - 1] else [])
  {
    var n := |a| - 1;
    var all := free + if a[n].None? then [n] else [];
    forall i | 0 <= i < |free| ensures all[i] == free[i] < n && a[free[i]].None? {
      assert a[..n][free[i]] == a[free[i]];
    }
    forall s | 0 <= s < |a| && a[s].None? ensures s in all {
      if s < n {
        assert a[..n][s] == a[s];
      } else {
        assert all[|free|] == n;
      }
    }
  }

  lemma {:induction false} FreeIs(a: Slots)
    ensures ListsFree(a, Free(a))
  {
    hide ListsFree;
    if a == [] {
      ListsFreeNone(a);
    } else {
      FreeIs(a[..|a| - 1]);
      ListsFreeSnoc(a, Free(a[..|a| - 1]));
    }
  }

  lemma ListsFreeNone(a: Slots)
    requires a == []
    ensures ListsFree(a, [])
  {
  }

  lemma FreePush(a: Slots, n: nat)
    requires n < |a|
    ensures Free(a[..n + 1]) == Free(a[..n]) + if a[n].None? then [n] else []
    ensures Taken(a[..n + 1]) == Taken(a[..n]) + if a[n].Some? then 1 else 0
  {
    assert a[..n + 1][..n] == a[..n];
  }

  lemma {:induction false} FreePrefix(a: Slots, n: nat)
    requires n <= |a|
    ensures Free(a[..n]) <= Free(a)
    decreases |a| - n
  {
    if n == |a| {
      assert a[..n] == a;
    } else {
      FreePush(a, n);
      FreePrefix(a, n + 1);
    }
  }

  lemma {:induction false} TakenUpdate(a: Slots, s: nat, x: Option<Tx>)
    requires s < |a|
    ensures Taken(a[s := x]) == Taken(a) - (if a[s].Some? then 1 else 0) + (if x.Some? then 1 else 0)
  {
    var n := |a| - 1;
    if s == n {
      assert a[s := x][..n] == a[..n];
    } else {
      assert a[s := x][..n] == a[..n][s := x];
      TakenUpdate(a[..n], s, x);
    }
  }

  lemma {:induction false} TakenNone(n: nat)
    ensures Taken(seq(n, i => None)) == 0
  {
    if n > 0 {
      var a: Slots := seq(n, i => None);
      var b: Slots := seq(n - 1, i => None);
      assert a[..n - 1] == b;
      TakenNone(n - 1);
    }
  }

  // ---------- prefilled transactions ----------

  /** The position of prefilled transaction k: indexes are offsets from the one before. */
  function Position(p: seq<Prefilled>, k: nat): nat
    requires k < |p|
  {
    (if k == 0 then 0 else Position(p, k - 1) + 1) + p[k].index
  }

  /** The first n prefilled transactions are whole and lie where a slot can be. */
  predicate PrefilledUpTo(m: Message, n: nat) {
    n <= |m.prefilled| && forall k :: 0 <= k < n ==>
      !m.prefilled[k].isNull && Position(m.prefilled, k) <= MAX_INDEX && Position(m.prefilled, k) <= |m.shortIds| + k
  }

  predicate PrefilledOk(m: Message) { PrefilledUpTo(m, |m.prefilled|) }

  predicate MessageOk(m: Message) {
    && !m.headerNull && m.Count() > 0 && m.Count() <= MAX_TXS && PrefilledOk(m)
  }

  lemma InRange(m: Message, n: nat, k: nat)
    requires PrefilledUpTo(m, n) && k < n
    ensures n <= |m.prefilled| && Position(m.prefilled, k) < m.Count() && PrefilledUpTo(m, k)
  {
    hide Position;
  }

  /** The slots after the first n prefilled transactions are in place. */
  function Placed(m: Message, n: nat): (a: Slots)
    requires PrefilledUpTo(m, n)
    ensures |a| == m.Count()
  {
    hide Position, PrefilledUpTo;
    if n == 0 then seq(m.Count(), i => None) else
      InRange(m, n, n - 1);
      Placed(m, n - 1)[Position(m.prefilled, n - 1) := Some(m.prefilled[n - 1].tx)]
  }

  lemma {:induction false} PositionsAscend(p: seq<Prefilled>, i: nat, j: nat)
    requires i < j < |p|
    ensures Position(p, i) < Position(p, j)
  {
    if i < j - 1 {
      PositionsAscend(p, i, j - 1);
    }
  }

  lemma {:induction false} PlacedAt(m: Message, n: nat, k: nat)
    requires PrefilledUpTo(m, n) && k < n && n <= |m.prefilled|
    ensures Position(m.prefilled, k) < m.Count() && Placed(m, n)[Position(m.prefilled, k)] == Some(m.prefilled[k].tx)
  {
    hide Position, PrefilledUpTo;
    InRange(m, n, k);
    InRange(m, n, n - 1);
    if k < n - 1 {
      PlacedAt(m, n - 1, k);
      PositionsAscend(m.prefilled, k, n - 1);
    }
  }

  /** Only prefilled transactions are in place. */
  lemma {:induction false} PlacedOnly(m: Message, n: nat, s: nat) returns (k: nat)
    requires PrefilledUpTo(m, n) && n <= |m.prefilled| && s < m.Count() && Placed(m, n)[s].Some?
    ensures k < n && s == Position(m.prefilled, k)
  {
    hide Position, PrefilledUpTo;
    InRange(m, n, n - 1);
    if s == Position(m.prefilled, n - 1) {
      k := n - 1;
    } else {
      k := PlacedOnly(m, n - 1, s);
    }
  }

  lemma NotYet(m: Message, n: nat)
    requires n < |m.prefilled| && PrefilledUpTo(m, n + 1) && PrefilledUpTo(m, n) && Position(m.prefilled, n) < m.Count()
    ensures Placed(m, n)[Position(m.prefilled, n)].None?
  {
    hide Position, PrefilledUpTo, Placed;
    if Placed(m, n)[Position(m.prefilled, n)].Some? {
      var k := PlacedOnly(m, n, Position(m.prefilled, n));
      PositionsAscend(m.prefilled, k, n);
    }
  }

  lemma {:induction false} PlacedTaken(m: Message, n: nat)
    requires PrefilledUpTo(m, n) && n <= |m.prefilled|
    ensures Taken(Placed(m, n)) == n
  {
    hide Position, PrefilledUpTo;
    if n == 0 {
      TakenNone(m.Count());
    } else {
      InRange(m, n, n - 1);
      PlacedTaken(m, n - 1);
      NotYet(m, n - 1);
      TakenUpdate(Placed(m, n - 1), Position(m.prefilled, n - 1), Some(m.prefilled[n - 1].tx));
    }
  }

  /** There is exactly one empty slot for each short id. */
  lemma SlotPerShortId(m: Message)
    requires PrefilledOk(m)
    ensures |Free(Placed(m, |m.prefilled|))| == |m.shortIds|
  {
    PlacedTaken(m, |m.prefilled|);
    FreeAndTaken(Placed(m, |m.prefilled|));
  }

  // ---------- short ids ----------

  predicate Distinct(ids: seq<nat>) { forall i, j :: 0 <= i < j < |ids| ==> ids[i] != ids[j] }

  /** slots maps the first i short ids to the first i empty slots. */
  ghost predicate Mapping(ids: seq<nat>, free: seq<nat>, i: nat, slots: map<nat, nat>) {
    && i <= |ids| && i <= |free|
    && (forall id :: id in slots <==> id in ids[..i])
    && |slots.Keys| <= i && (|slots.Keys| == i <==> Distinct(ids[..i]))
    && (Distinct(ids[..i]) ==> forall k :: 0 <= k < i ==> slots[ids[k]] == free[k])
  }

  lemma DistinctPush(ids: seq<nat>, i: nat)
    requires i < |ids|
    ensures Distinct(ids[..i + 1]) <==> Distinct(ids[..i]) && ids[i] !in ids[..i]
  {
    var was, now := ids[..i], ids[..i + 1];
    assert now == was + [ids[i]];
    if Distinct(now) {
      forall k | 0 <= k < i ensures was[k] != ids[i] && forall j :: k < j < i ==> was[k] != was[j] {
        assert now[k] == was[k] && now[i] == ids[i];
      }
    }
  }

  lemma MappingStep(ids: seq<nat>, free: seq<nat>, i: nat, slots: map<nat, nat>)
    requires Mapping(ids, free, i, slots) && i < |ids| && i < |free|
    ensures Mapping(ids, free, i + 1, slots[ids[i] := free[i]])
  {
    hide Distinct;
    var id := ids[i];
    DistinctPush(ids, i);
    KeysPush(slots, id, free[i]);
    InPush(ids, i);
  }

  lemma KeysPush(slots: map<nat, nat>, id: nat, slot: nat)
    ensures |slots[id := slot].Keys| == |slots.Keys| + if id in slots then 0 else 1
  {
    if id in slots {
      assert slots[id := slot].Keys == slots.Keys;
    } else {
      assert slots[id := slot].Keys == slots.Keys + {id};
    }
  }

  lemma InPush(ids: seq<nat>, i: nat)
    requires i < |ids|
    ensures forall id :: id in ids[..i + 1] <==> id in ids[..i] || id == ids[i]
    ensures forall k :: 0 <= k < i ==> ids[k] in ids[..i]
  {
    assert ids[..i + 1] == ids[..i] + [ids[i]];
    forall k | 0 <= k < i ensures ids[k] in ids[..i] {
      assert ids[..i][k] == ids[k];
    }
  }

  lemma NextFree(a: Slots, i: nat, n: nat)
    requires n <= |a| && |Free(a[..n])| == i < |Free(a)|
    ensures n < |a|
    ensures a[n].Some? ==> |Free(a[..n + 1])| == i
    ensures a[n].None? ==> Free(a)[i] == n && |Free(a[..n + 1])| == i + 1
  {
    assert a[..|a|] == a;
    if n < |a| {
      FreePush(a, n);
      FreePrefix(a, n + 1);
    }
  }

  ghost predicate SomeCrowded(crowded: nat -> bool, n: nat) {
    exists i: nat :: i < n && crowded(i)
  }

  /** The slot search: it never leaves the block, and it fails exactly on a crowded hash bucket or
      when two short ids are equal. */
  method MapShortIds(a: Slots, ids: seq<nat>, crowded: nat -> bool) returns (failed: bool, slots: map<nat, nat>)
    requires |Free(a)| == |ids|
    ensures failed <==> !Distinct(ids) || SomeCrowded(crowded, |ids|)
    ensures !failed ==> Mapping(ids, Free(a), |ids|, slots)
  {
    hide Free, Mapping;
    var offset := 0;
    slots := map[];
    MappingStart(ids, Free(a), a);
    for i := 0 to |ids|
      invariant i + offset <= |a| && |Free(a[..i + offset])| == i
      invariant Mapping(ids, Free(a), i, slots) && !SomeCrowded(crowded, i)
    {
      NextFree(a, i, i + offset);
      while a[i + offset].Some?
        invariant i + offset < |a| && |Free(a[..i + offset])| == i
        decreases |a| - offset
      {
        NextFree(a, i, i + offset);
        NextFree(a, i, i + offset + 1);
        offset := offset + 1;
      }
      NextFree(a, i, i + offset);
      MappingStep(ids, Free(a), i, slots);
      slots := slots[ids[i] := i + offset];
      if crowded(i) {
        return true, slots;
      }
    }
    MappingEnd(ids, Free(a), slots);
    failed := |slots| != |ids|;
  }

  lemma MappingStart(ids: seq<nat>, free: seq<nat>, a: Slots)
    ensures Mapping(ids, free, 0, map[]) && |Free(a[..0])| == 0
  {
    assert a[..0] == [];
  }

  lemma MappingEnd(ids: seq<nat>, free: seq<nat>, slots: map<nat, nat>)
    requires Mapping(ids, free, |ids|, slots)
    ensures |slots| == |ids| <==> Distinct(ids)
  {
    assert ids[..|ids|] == ids;
    assert |slots| == |slots.Keys|;
  }

  // ---------- filling from the pool ----------

  datatype Filling = Filling(available: Slots, have: seq<bool>, mempool: int, extra: int)

  /** A mempool transaction whose short id is wanted: the first one is taken, a second one
      makes the slot ambiguous and empties it again. */
  function PoolStep(slots: map<nat, nat>, id: nat, tx: Tx, f: Filling): Filling
    requires id in slots ==> slots[id] < |f.available| && slots[id] < |f.have|
  {
    if id !in slots then f else
      var s := slots[id];
      if !f.have[s] then
        f.(available := f.available[s := Some(tx)], have := f.have[s := true], mempool := f.mempool + 1)
      else if f.available[s].Some? then f.(available := f.available[s := None], mempool := f.mempool - 1)
      else f
  }

  /** An extra transaction; the same transaction seen again does no harm. */
  function ExtraStep(slots: map<nat, nat>, id: nat, tx: Tx, f: Filling): Filling
    requires id in slots ==> slots[id] < |f.available| && slots[id] < |f.have|
  {
    if id !in slots then f else
      var s := slots[id];
      if !f.have[s] then
        f.(available := f.available[s := Some(tx)], have := f.have[s := true], mempool := f.mempool + 1,
           extra := f.extra + 1)
      else if f.available[s].Some? && f.available[s].value != tx then
        f.(available := f.available[s := None], mempool := f.mempool - 1, extra := f.extra - 1)
      else f
  }

  /** Slots are only filled with transactions on offer that have the slot's short id; all other
      slots are as they were, and the counter tells how many were filled. */
  ghost predicate Sound(base: Slots, slots: map<nat, nat>, shortId: Tx -> nat, offer: seq<Tx>, f: Filling, count: int) {
    && |f.available| == |f.have| == |base|
    && (forall id :: id in slots ==> slots[id] < |base| && base[slots[id]].None?)
    && (forall a, b :: a in slots && b in slots && slots[a] == slots[b] ==> a == b)
    && (forall s :: 0 <= s < |base| && base[s].Some? ==> f.available[s] == base[s])
    && (forall s :: 0 <= s < |base| && base[s].None? && !f.have[s] ==> f.available[s].None?)
    && (forall id :: id in slots && f.available[slots[id]].Some? ==>
          shortId(f.available[slots[id]].value) == id && f.available[slots[id]].value in offer)
    && f.mempool - count == Taken(f.available) - Taken(base)
  }

  lemma SoundStep(base: Slots, slots: map<nat, nat>, shortId: Tx -> nat, offer: seq<Tx>, f: Filling, count: int, tx: Tx)
    requires Sound(base, slots, shortId, offer, f, count) && tx in offer
    ensures Sound(base, slots, shortId, offer, PoolStep(slots, shortId(tx), tx, f), count)
    ensures Sound(base, slots, shortId, offer, ExtraStep(slots, shortId(tx), tx, f), count)
  {
    var id := shortId(tx);
    if id in slots {
      TakenUpdate(f.available, slots[id], Some(tx));
      TakenUpdate(f.available, slots[id], None);
    }
  }

  predicate Fits(slots: map<nat, nat>, f: Filling) {
    forall id :: id in slots ==> slots[id] < |f.available| && slots[id] < |f.have|
  }

  /** The mempool in order, until every wanted slot is filled. */
  function FillFromPool(slots: map<nat, nat>, shortId: Tx -> nat, pool: seq<Tx>, f: Filling): Filling
    requires Fits(slots, f)
  {
    if pool == [] then f else
      var f' := PoolStep(slots, shortId(pool[0]), pool[0], f);
      if f'.mempool == |slots| then f' else FillFromPool(slots, shortId, pool[1..], f')
  }

  function FillFromExtra(slots: map<nat, nat>, shortId: Tx -> nat, extra: seq<Tx>, f: Filling): Filling
    requires Fits(slots, f)
  {
    if extra == [] then f else
      var f' := ExtraStep(slots, shortId(extra[0]), extra[0], f);
      if f'.mempool == |slots| then f' else FillFromExtra(slots, shortId, extra[1..], f')
  }

  lemma {:induction false} PoolSound(base: Slots, slots: map<nat, nat>, shortId: Tx -> nat, offer: seq<Tx>, f: Filling,
                                     count: int, pool: seq<Tx>)
    requires Sound(base, slots, shortId, offer, f, count) && forall i :: 0 <= i < |pool| ==> pool[i] in offer
    ensures Fits(slots, f) && Sound(base, slots, shortId, offer, FillFromPool(slots, shortId, pool, f), count)
    decreases |pool|
  {
    hide Sound, PoolStep, ExtraStep;
    SoundRange(base, slots, shortId, offer, f, count);
    if pool != [] {
      SoundStep(base, slots, shortId, offer, f, count, pool[0]);
      PoolSound(base, slots, shortId, offer, PoolStep(slots, shortId(pool[0]), pool[0], f), count, pool[1..]);
    }
  }

  lemma {:induction false} ExtraSound(base: Slots, slots: map<nat, nat>, shortId: Tx -> nat, offer: seq<Tx>,
                                      f: Filling, count: int, extra: seq<Tx>)
    requires Sound(base, slots, shortId, offer, f, count) && forall i :: 0 <= i < |extra| ==> extra[i] in offer
    ensures Fits(slots, f) && Sound(base, slots, shortId, offer, FillFromExtra(slots, shortId, extra, f), count)
    decreases |extra|
  {
    hide Sound, PoolStep, ExtraStep;
    SoundRange(base, slots, shortId, offer, f, count);
    if extra != [] {
      SoundStep(base, slots, shortId, offer, f, count, extra[0]);
      ExtraSound(base, slots, shortId, offer, ExtraStep(slots, shortId(extra[0]), extra[0], f), count, extra[1..]);
    }
  }

  method TakeFromPool(slots: map<nat, nat>, shortId: Tx -> nat, pool: seq<Tx>, start: Filling) returns (f: Filling)
    requires Fits(slots, start)
    ensures f == FillFromPool(slots, shortId, pool, start)
  {
    f := start;
    for i := 0 to |pool|
      invariant Fits(slots, f)
                && FillFromPool(slots, shortId, pool[i..], f) == FillFromPool(slots, shortId, pool, start)
    {
      f := PoolStep(slots, shortId(pool[i]), pool[i], f);
      if f.mempool == |slots| {
        return;
      }
      assert pool[i..][1..] == pool[i + 1..];
    }
  }

  method TakeFromExtra(slots: map<nat, nat>, shortId: Tx -> nat, extra: seq<Tx>, start: Filling) returns (f: Filling)
    requires Fits(slots, start)
    ensures f == FillFromExtra(slots, shortId, extra, start)
  {
    f := start;
    for i := 0 to |extra|
      invariant Fits(slots, f)
                && FillFromExtra(slots, shortId, extra[i..], f) == FillFromExtra(slots, shortId, extra, start)
    {
      f := ExtraStep(slots, shortId(extra[i]), extra[i], f);
      if f.mempool == |slots| {
        return;
      }
      assert extra[i..][1..] == extra[i + 1..];
    }
  }

  lemma SoundRange(base: Slots, slots: map<nat, nat>, shortId: Tx -> nat, offer: seq<Tx>, f: Filling, count: int)
    requires Sound(base, slots, shortId, offer, f, count)
    ensures Fits(slots, f)
  {
  }

  lemma MappedSlot(ids: seq<nat>, free: seq<nat>, slots: map<nat, nat>, id: nat) returns (k: nat)
    requires Distinct(ids) && Mapping(ids, free, |ids|, slots) && id in slots
    ensures k < |ids| && k < |free| && ids[k] == id && slots[id] == free[k]
  {
    assert ids[..|ids|] == ids;
    k :| 0 <= k < |ids| && ids[k] == id;
  }

  lemma SlotOfId(ids: seq<nat>, free: seq<nat>, slots: map<nat, nat>, k: nat)
    requires Distinct(ids) && Mapping(ids, free, |ids|, slots) && k < |ids|
    ensures k < |free| && ids[k] in slots && slots[ids[k]] == free[k]
  {
    assert ids[..|ids|] == ids;
  }

  lemma SoundStart(base: Slots, ids: seq<nat>, slots: map<nat, nat>, shortId: Tx -> nat, offer: seq<Tx>, mempool: int,
                   extra: int)
    requires Distinct(ids) && Mapping(ids, Free(base), |ids|, slots)
    ensures Sound(base, slots, shortId, offer, Filling(base, seq(|base|, i => false), mempool, extra), mempool)
  {
    hide Distinct, Mapping, Free;
    FreeIs(base);
    forall id | id in slots ensures slots[id] < |base| && base[slots[id]].None? {
      var k := MappedSlot(ids, Free(base), slots, id);
    }
    forall a, b | a in slots && b in slots && slots[a] == slots[b] ensures a == b {
      var i := MappedSlot(ids, Free(base), slots, a);
      var j := MappedSlot(ids, Free(base), slots, b);
    }
  }

  // ---------- exactly what is filled in ----------

  /** The transactions with this short id, in order. */
  function Matching(shortId: Tx -> nat, txs: seq<Tx>, id: nat): seq<Tx> {
    if txs == [] then [] else
      Matching(shortId, txs[..|txs| - 1], id) + if shortId(txs[|txs| - 1]) == id then [txs[|txs| - 1]] else []
  }

  predicate AllSame(txs: seq<Tx>) { forall i :: 0 <= i < |txs| ==> txs[i] == txs[0] }

  /** What becomes of a slot when these transactions of the mempool and these extra ones have its short id: the one
      transaction they all are, unless the mempool lists two. */
  function Settled(pool: seq<Tx>, extra: seq<Tx>): Option<Tx> {
    if |pool| <= 1 && pool + extra != [] && AllSame(pool + extra) then Some((pool + extra)[0]) else None
  }

  lemma MatchingPush(shortId: Tx -> nat, txs: seq<Tx>, tx: Tx, id: nat)
    ensures Matching(shortId, txs + [tx], id) ==
            if shortId(tx) == id then Matching(shortId, txs, id) + [tx] else Matching(shortId, txs, id)
  {
    assert (txs + [tx])[..|txs|] == txs;
  }

  lemma {:induction false} MatchingIs(shortId: Tx -> nat, txs: seq<Tx>, id: nat, tx: Tx)
    ensures tx in Matching(shortId, txs, id) <==> tx in txs && shortId(tx) == id
  {
    if txs != [] {
      MatchingIs(shortId, txs[..|txs| - 1], id, tx);
    }
  }

  lemma SettledSecond(pool: seq<Tx>, tx: Tx)
    ensures Settled(pool + [tx], []) == if pool == [] then Some(tx) else None
  {
    assert pool + [tx] + [] == pool + [tx];
  }

  lemma SettledExtra(pool: seq<Tx>, extra: seq<Tx>, tx: Tx)
    ensures Settled(pool, extra + [tx]) ==
            if pool + extra == [] then Some(tx)
            else if Settled(pool, extra) == Some(tx) then Some(tx) else None
  {
    var all := pool + extra;
    assert pool + (extra + [tx]) == all + [tx];
    if all != [] {
      assert (all + [tx])[|all|] == tx;
      assert forall i :: 0 <= i < |all| ==> (all + [tx])[i] == all[i];
    }
  }

  /** Every wanted slot is settled by the transactions scanned so far. */
  ghost predicate Exact(slots: map<nat, nat>, shortId: Tx -> nat, pool: seq<Tx>, extra: seq<Tx>, f: Filling) {
    && Fits(slots, f)
    && forall id :: id in slots ==> ExactAt(slots, shortId, pool, extra, f, id)
  }

  ghost predicate ExactAt(slots: map<nat, nat>, shortId: Tx -> nat, pool: seq<Tx>, extra: seq<Tx>, f: Filling, id: nat)
    requires Fits(slots, f) && id in slots
  {
    var a, b := Matching(shortId, pool, id), Matching(shortId, extra, id);
    (f.have[slots[id]] <==> a + b != []) && f.available[slots[id]] == Settled(a, b)
  }

  /** No two short ids share a slot. */
  predicate Apart(slots: map<nat, nat>) {
    forall a, b :: a in slots && b in slots && slots[a] == slots[b] ==> a == b
  }

  lemma PoolExact(slots: map<nat, nat>, shortId: Tx -> nat, pool: seq<Tx>, f: Filling, tx: Tx)
    requires Exact(slots, shortId, pool, [], f) && Apart(slots)
    ensures Exact(slots, shortId, pool + [tx], [], PoolStep(slots, shortId(tx), tx, f))
  {
    hide Settled, Matching;
    var f' := PoolStep(slots, shortId(tx), tx, f);
    forall id | id in slots ensures ExactAt(slots, shortId, pool + [tx], [], f', id) {
      assert ExactAt(slots, shortId, pool, [], f, id);
      MatchingPush(shortId, pool, tx, id);
      MatchingNone(shortId, id);
      SettledSecond(Matching(shortId, pool, id), tx);
      if Matching(shortId, pool, id) != [] {
        SettledEarlier(Matching(shortId, pool, id));
      }
    }
  }

  lemma MatchingNone(shortId: Tx -> nat, id: nat)
    ensures Matching(shortId, [], id) == []
  {
  }

  lemma SettledEarlier(pool: seq<Tx>)
    ensures Settled(pool, []).Some? <==> |pool| == 1
  {
    assert pool + [] == pool;
  }

  lemma ExtraExact(slots: map<nat, nat>, shortId: Tx -> nat, pool: seq<Tx>, extra: seq<Tx>, f: Filling, tx: Tx)
    requires Exact(slots, shortId, pool, extra, f) && Apart(slots)
    ensures Exact(slots, shortId, pool, extra + [tx], ExtraStep(slots, shortId(tx), tx, f))
  {
    hide Settled, Matching;
    var f' := ExtraStep(slots, shortId(tx), tx, f);
    forall id | id in slots ensures ExactAt(slots, shortId, pool, extra + [tx], f', id) {
      assert ExactAt(slots, shortId, pool, extra, f, id);
      MatchingPush(shortId, extra, tx, id);
      SettledExtra(Matching(shortId, pool, id), Matching(shortId, extra, id), tx);
    }
  }

  /** How many mempool transactions are looked at. */
  function PoolScanned(slots: map<nat, nat>, shortId: Tx -> nat, pool: seq<Tx>, f: Filling): nat
    requires Fits(slots, f)
  {
    if pool == [] then 0 else
      var f' := PoolStep(slots, shortId(pool[0]), pool[0], f);
      if f'.mempool == |slots| then 1 else 1 + PoolScanned(slots, shortId, pool[1..], f')
  }

  function ExtraScanned(slots: map<nat, nat>, shortId: Tx -> nat, extra: seq<Tx>, f: Filling): nat
    requires Fits(slots, f)
  {
    if extra == [] then 0 else
      var f' := ExtraStep(slots, shortId(extra[0]), extra[0], f);
      if f'.mempool == |slots| then 1 else 1 + ExtraScanned(slots, shortId, extra[1..], f')
  }

  /** The scan of the mempool settles the slots by what it has looked at, and it looks at everything unless the
      counter reaches the number of short ids. */
  lemma {:induction false} PoolSettles(slots: map<nat, nat>, shortId: Tx -> nat, done: seq<Tx>, pool: seq<Tx>,
                                       f: Filling)
    requires Exact(slots, shortId, done, [], f) && Apart(slots)
    ensures var k, f' := PoolScanned(slots, shortId, pool, f), FillFromPool(slots, shortId, pool, f);
            && k <= |pool| && Exact(slots, shortId, done + pool[..k], [], f') && f'.extra == f.extra
            && (k < |pool| ==> f'.mempool == |slots|)
    decreases |pool|
  {
    hide PoolStep, ExactAt;
    if pool == [] {
      assert done + [] == done;
    } else {
      var tx := pool[0];
      var f1 := PoolStep(slots, shortId(tx), tx, f);
      PoolExact(slots, shortId, done, f, tx);
      PoolKeepsExtra(slots, shortId(tx), tx, f);
      if f1.mempool == |slots| {
        assert pool[..1] == [tx];
      } else {
        PoolSettles(slots, shortId, done + [tx], pool[1..], f1);
        var k := PoolScanned(slots, shortId, pool[1..], f1);
        assert done + [tx] + pool[1..][..k] == done + pool[..k + 1];
      }
    }
  }

  lemma PoolKeepsExtra(slots: map<nat, nat>, id: nat, tx: Tx, f: Filling)
    requires Fits(slots, f)
    ensures PoolStep(slots, id, tx, f).extra == f.extra
  {
  }

  /** An extra transaction filled the slot. */
  predicate ExtraFills(pool: seq<Tx>, extra: seq<Tx>) { pool == [] && Settled(pool, extra).Some? }

  /** An extra transaction emptied the slot that the mempool had filled. */
  predicate ExtraEmpties(pool: seq<Tx>, extra: seq<Tx>) { |pool| == 1 && Settled(pool, extra).None? }

  function FromExtra(ids: set<nat>, shortId: Tx -> nat, pool: seq<Tx>, extra: seq<Tx>): set<nat> {
    set id | id in ids && ExtraFills(Matching(shortId, pool, id), Matching(shortId, extra, id))
  }

  function Emptied(ids: set<nat>, shortId: Tx -> nat, pool: seq<Tx>, extra: seq<Tx>): set<nat> {
    set id | id in ids && ExtraEmpties(Matching(shortId, pool, id), Matching(shortId, extra, id))
  }

  /** The counter of extra transactions is the difference of the two. */
  predicate ExtraCounted(ids: set<nat>, shortId: Tx -> nat, pool: seq<Tx>, extra: seq<Tx>, count: int) {
    count == |FromExtra(ids, shortId, pool, extra)| - |Emptied(ids, shortId, pool, extra)|
  }

  lemma ExtraCountsNone(ids: set<nat>, shortId: Tx -> nat, pool: seq<Tx>)
    ensures ExtraCounted(ids, shortId, pool, [], 0)
  {
    hide Settled;
    forall id ensures id !in FromExtra(ids, shortId, pool, []) && id !in Emptied(ids, shortId, pool, []) {
      SettledEarlier(Matching(shortId, pool, id));
      SettledEarlier([]);
    }
    assert FromExtra(ids, shortId, pool, []) == {} && Emptied(ids, shortId, pool, []) == {};
  }

  lemma CountStep(pool: seq<Tx>, extra: seq<Tx>, tx: Tx)
    ensures One(ExtraFills(pool, extra + [tx])) - One(ExtraFills(pool, extra))
            - One(ExtraEmpties(pool, extra + [tx])) + One(ExtraEmpties(pool, extra)) ==
            if pool + extra == [] then 1
            else if Settled(pool, extra).Some? && Settled(pool, extra) != Some(tx) then -1 else 0
  {
    SettledExtra(pool, extra, tx);
    hide AllSame;
  }

  /** Only the slot with this short id changes. */
  lemma SetsStep(ids: set<nat>, shortId: Tx -> nat, pool: seq<Tx>, extra: seq<Tx>, tx: Tx)
    ensures var id := shortId(tx);
            var a, b := Matching(shortId, pool, id), Matching(shortId, extra, id);
            && |FromExtra(ids, shortId, pool, extra + [tx])| == |FromExtra(ids, shortId, pool, extra)|
               + One(id in ids && ExtraFills(a, b + [tx])) - One(id in ids && ExtraFills(a, b))
            && |Emptied(ids, shortId, pool, extra + [tx])| == |Emptied(ids, shortId, pool, extra)|
               + One(id in ids && ExtraEmpties(a, b + [tx])) - One(id in ids && ExtraEmpties(a, b))
  {
    hide Matching, ExtraFills, ExtraEmpties;
    var id := shortId(tx);
    forall other
      ensures Matching(shortId, extra + [tx], other) ==
              if other == id then Matching(shortId, extra, other) + [tx] else Matching(shortId, extra, other)
    {
      MatchingPush(shortId, extra, tx, other);
    }
    SizeChange(FromExtra(ids, shortId, pool, extra), FromExtra(ids, shortId, pool, extra + [tx]), id);
    SizeChange(Emptied(ids, shortId, pool, extra), Emptied(ids, shortId, pool, extra + [tx]), id);
  }

  lemma ExtraCounts(slots: map<nat, nat>, shortId: Tx -> nat, pool: seq<Tx>, extra: seq<Tx>, f: Filling, tx: Tx,
                    count: int)
    requires Exact(slots, shortId, pool, extra, f) && ExtraCounted(slots.Keys, shortId, pool, extra, f.extra - count)
    ensures var f' := ExtraStep(slots, shortId(tx), tx, f);
            ExtraCounted(slots.Keys, shortId, pool, extra + [tx], f'.extra - count)
  {
    hide Settled, Matching, ExtraFills, ExtraEmpties, FromExtra, Emptied;
    var id := shortId(tx);
    SetsStep(slots.Keys, shortId, pool, extra, tx);
    if id in slots {
      assert ExactAt(slots, shortId, pool, extra, f, id);
      CountStep(Matching(shortId, pool, id), Matching(shortId, extra, id), tx);
    }
  }

  lemma {:induction false} ExtraSettles(slots: map<nat, nat>, shortId: Tx -> nat, pool: seq<Tx>, done: seq<Tx>,
                                        extra: seq<Tx>, f: Filling, count: int)
    requires Exact(slots, shortId, pool, done, f) && Apart(slots)
    requires ExtraCounted(slots.Keys, shortId, pool, done, f.extra - count)
    ensures var k, f' := ExtraScanned(slots, shortId, extra, f), FillFromExtra(slots, shortId, extra, f);
            && k <= |extra| && Exact(slots, shortId, pool, done + extra[..k], f')
            && ExtraCounted(slots.Keys, shortId, pool, done + extra[..k], f'.extra - count)
            && (k < |extra| ==> f'.mempool == |slots|)
    decreases |extra|
  {
    hide ExtraStep, ExactAt, ExtraCounted;
    if extra == [] {
      assert done + [] == done;
    } else {
      var tx := extra[0];
      var f1 := ExtraStep(slots, shortId(tx), tx, f);
      ExtraExact(slots, shortId, pool, done, f, tx);
      ExtraCounts(slots, shortId, pool, done, f, tx, count);
      if f1.mempool == |slots| {
        assert extra[..1] == [tx];
      } else {
        ExtraSettles(slots, shortId, pool, done + [tx], extra[1..], f1, count);
        var k := ExtraScanned(slots, shortId, extra[1..], f1);
        assert done + [tx] + extra[1..][..k] == done + extra[..k + 1];
      }
    }
  }

  // ---------- the object ----------

  datatype Status = Ok | Invalid | Failed | CheckBlockFailed

  datatype Verdict = Accepted | Mutated | Rejected

  /** A message put into slots: prefilled transactions where they belong, and in the slot of each
      short id nothing, or a transaction on offer with that short id. */
  ghost predicate Prepared(m: Message, shortId: Tx -> nat, offer: seq<Tx>, a: Slots)
    requires PrefilledOk(m)
  {
    var base := Placed(m, |m.prefilled|);
    && |a| == m.Count() && Distinct(m.shortIds) && |Free(base)| == |m.shortIds|
    && (forall s :: 0 <= s < |a| && base[s].Some? ==> a[s] == base[s])
    && (forall i :: 0 <= i < |m.shortIds| ==> Free(base)[i] < |a|)
    && (forall i :: 0 <= i < |m.shortIds| && a[Free(base)[i]].Some? ==>
          shortId(a[Free(base)[i]].value) == m.shortIds[i] && a[Free(base)[i]].value in offer)
  }

  /** The slot of every short id is settled by these transactions of the mempool and these extra ones. */
  ghost predicate FilledBy(m: Message, shortId: Tx -> nat, pool: seq<Tx>, extra: seq<Tx>, a: Slots)
    requires PrefilledOk(m)
  {
    var free := Free(Placed(m, |m.prefilled|));
    && |free| == |m.shortIds|
    && forall i :: 0 <= i < |free| ==>
         && free[i] < |a|
         && a[free[i]] == Settled(Matching(shortId, pool, m.shortIds[i]), Matching(shortId, extra, m.shortIds[i]))
  }

  /** These transactions fill the slot of every short id. */
  ghost predicate FillAll(m: Message, shortId: Tx -> nat, pool: seq<Tx>, extra: seq<Tx>) {
    forall i :: 0 <= i < |m.shortIds| ==>
      Settled(Matching(shortId, pool, m.shortIds[i]), Matching(shortId, extra, m.shortIds[i])).Some?
  }

  /** The scans stop before the end only when every slot is filled. */
  ghost predicate Scans(m: Message, shortId: Tx -> nat, pool: seq<Tx>, extra: seq<Tx>, p: nat, e: nat) {
    && p <= |pool| && e <= |extra|
    && (p < |pool| ==> FillAll(m, shortId, pool[..p], []))
    && (e < |extra| ==> FillAll(m, shortId, pool[..p], extra[..e]))
  }

  function IdsOf(m: Message): set<nat> { set id | id in m.shortIds }

  lemma ExactIsFilled(m: Message, slots: map<nat, nat>, shortId: Tx -> nat, pool: seq<Tx>, extra: seq<Tx>, f: Filling)
    requires PrefilledOk(m) && Distinct(m.shortIds)
    requires Mapping(m.shortIds, Free(Placed(m, |m.prefilled|)), |m.shortIds|, slots)
    requires Exact(slots, shortId, pool, extra, f)
    ensures FilledBy(m, shortId, pool, extra, f.available)
  {
    hide Placed, PrefilledUpTo, Distinct, Mapping, Free, Settled, Matching;
    SlotPerShortId(m);
    var free := Free(Placed(m, |m.prefilled|));
    forall i | 0 <= i < |free|
      ensures free[i] < |f.available|
      ensures f.available[free[i]] ==
              Settled(Matching(shortId, pool, m.shortIds[i]), Matching(shortId, extra, m.shortIds[i]))
    {
      SlotOfId(m.shortIds, free, slots, i);
      assert ExactAt(slots, shortId, pool, extra, f, m.shortIds[i]);
    }
  }

  lemma {:induction false} AllTaken(a: Slots, s: nat)
    requires Taken(a) == |a| && s < |a|
    ensures a[s].Some?
  {
    TakenAtMost(a[..|a| - 1]);
    if s < |a| - 1 {
      AllTaken(a[..|a| - 1], s);
    }
  }

  lemma {:induction false} TakenAtMost(a: Slots)
    ensures Taken(a) <= |a|
  {
    if a != [] {
      TakenAtMost(a[..|a| - 1]);
    }
  }

  /** When the counter, from zero, has reached the number of short ids, every slot is filled. */
  lemma CountedIsFull(m: Message, slots: map<nat, nat>, shortId: Tx -> nat, offer: seq<Tx>, f: Filling,
                      pool: seq<Tx>, extra: seq<Tx>)
    requires PrefilledOk(m) && Sound(Placed(m, |m.prefilled|), slots, shortId, offer, f, 0)
    requires f.mempool == |m.shortIds| && FilledBy(m, shortId, pool, extra, f.available)
    ensures FillAll(m, shortId, pool, extra)
  {
    hide Placed, PrefilledUpTo, Free, Settled, Matching, Taken;
    PlacedTaken(m, |m.prefilled|);
    PlacedSize(m);
    var free := Free(Placed(m, |m.prefilled|));
    forall i | 0 <= i < |m.shortIds|
      ensures Settled(Matching(shortId, pool, m.shortIds[i]), Matching(shortId, extra, m.shortIds[i])).Some?
    {
      AllTaken(f.available, free[i]);
    }
  }

  lemma PlacedSize(m: Message)
    requires PrefilledOk(m)
    ensures |Placed(m, |m.prefilled|)| == m.Count()
  {
  }

  lemma MappedKeys(m: Message, free: seq<nat>, slots: map<nat, nat>)
    requires Distinct(m.shortIds) && Mapping(m.shortIds, free, |m.shortIds|, slots)
    ensures slots.Keys == IdsOf(m) && |slots| == |m.shortIds|
  {
    assert m.shortIds[..|m.shortIds|] == m.shortIds;
    assert |slots| == |slots.Keys|;
  }

  lemma ExactStart(base: Slots, slots: map<nat, nat>, shortId: Tx -> nat, mempool: int, extra: int)
    requires Sound(base, slots, shortId, [], Filling(base, seq(|base|, i => false), mempool, extra), mempool)
    ensures Apart(slots)
    ensures Exact(slots, shortId, [], [], Filling(base, seq(|base|, i => false), mempool, extra))
  {
    var f := Filling(base, seq(|base|, i => false), mempool, extra);
    forall id | id in slots ensures ExactAt(slots, shortId, [], [], f, id) {
      MatchingNone(shortId, id);
    }
  }

  lemma SoundIsPrepared(m: Message, slots: map<nat, nat>, shortId: Tx -> nat, offer: seq<Tx>, f: Filling, count: int)
    requires PrefilledOk(m)
    requires var base := Placed(m, |m.prefilled|);
             Distinct(m.shortIds) && Mapping(m.shortIds, Free(base), |m.shortIds|, slots)
             && Sound(base, slots, shortId, offer, f, count)
    ensures Prepared(m, shortId, offer, f.available)
    ensures f.mempool - count == Taken(f.available) - |m.prefilled|
  {
    hide Placed, PrefilledUpTo, Distinct, Mapping, Free, Taken;
    SlotPerShortId(m);
    PlacedTaken(m, |m.prefilled|);
    var base := Placed(m, |m.prefilled|);
    FreeIs(base);
    var ids := m.shortIds;
    forall i | 0 <= i < |ids| && f.available[Free(base)[i]].Some?
      ensures shortId(f.available[Free(base)[i]].value) == ids[i] && f.available[Free(base)[i]].value in offer
    {
      SlotOfId(ids, Free(base), slots, i);
    }
  }

  /** Both scans, from the slots with the prefilled transactions on. */
  lemma ScansSettle(m: Message, slots: map<nat, nat>, shortId: Tx -> nat, pool: seq<Tx>, extra: seq<Tx>, count: int,
                    extraCount: int) returns (p: nat, e: nat)
    requires PrefilledOk(m) && Distinct(m.shortIds)
    requires Mapping(m.shortIds, Free(Placed(m, |m.prefilled|)), |m.shortIds|, slots)
    ensures var base := Placed(m, |m.prefilled|);
            var start := Filling(base, seq(|base|, i => false), count, extraCount);
            && Fits(slots, start) && Fits(slots, FillFromPool(slots, shortId, pool, start))
            && var f := FillFromExtra(slots, shortId, extra, FillFromPool(slots, shortId, pool, start));
               && p <= |pool| && e <= |extra| && FilledBy(m, shortId, pool[..p], extra[..e], f.available)
               && ExtraCounted(IdsOf(m), shortId, pool[..p], extra[..e], f.extra - extraCount)
               && (count == 0 ==> Scans(m, shortId, pool, extra, p, e))
  {
    hide Placed, PrefilledUpTo, Mapping, Distinct, Sound, FillFromPool, FillFromExtra, Free;
    hide FilledBy, ExtraCounted, FillAll, PoolScanned, ExtraScanned, IdsOf, ExactAt;
    var base, offer := Placed(m, |m.prefilled|), pool + extra;
    var start := Filling(base, seq(|base|, i => false), count, extraCount);
    SoundStart(base, m.shortIds, slots, shortId, [], count, extraCount);
    SoundStart(base, m.shortIds, slots, shortId, offer, count, extraCount);
    ExactStart(base, slots, shortId, count, extraCount);
    MappedKeys(m, Free(base), slots);
    PoolSettles(slots, shortId, [], pool, start);
    PoolSound(base, slots, shortId, offer, start, count, pool);
    p := PoolScanned(slots, shortId, pool, start);
    assert [] + pool[..p] == pool[..p];
    var f1 := FillFromPool(slots, shortId, pool, start);
    ExactIsFilled(m, slots, shortId, pool[..p], [], f1);
    ExtraCountsNone(slots.Keys, shortId, pool[..p]);
    ExtraSettles(slots, shortId, pool[..p], [], extra, f1, extraCount);
    ExtraSound(base, slots, shortId, offer, f1, count, extra);
    e := ExtraScanned(slots, shortId, extra, f1);
    assert [] + extra[..e] == extra[..e];
    var f2 := FillFromExtra(slots, shortId, extra, f1);
    ExactIsFilled(m, slots, shortId, pool[..p], extra[..e], f2);
    if count == 0 && p < |pool| {
      CountedIsFull(m, slots, shortId, offer, f1, pool[..p], []);
    }
    if count == 0 && e < |extra| {
      CountedIsFull(m, slots, shortId, offer, f2, pool[..p], extra[..e]);
    }
  }

  class PartialBlock {
    var headerNull: bool
    var available: Slots
    var prefilledCount: nat
    var mempoolCount: int
    var extraCount: int

    constructor ()
      ensures headerNull && available == [] && mempoolCount == extraCount == 0
    {
      headerNull, available, prefilledCount, mempoolCount, extraCount := true, [], 0, 0, 0;
    }

    /** The message was read from the wire, which bounds its transaction count to 16 bits. `p` and `e` say how many
        transactions of the mempool and how many extra ones were looked at. */
    method InitData(m: Message, pool: seq<Tx>, extra: seq<Tx>, shortId: Tx -> nat, crowded: nat -> bool)
      returns (status: Status, ghost p: nat, ghost e: nat)
      requires m.Count() <= MAX_INDEX
      modifies this
      ensures status == Invalid <==> !MessageOk(m) || !old(headerNull) || old(available) != []
      ensures status == Failed <==>
                && MessageOk(m) && old(headerNull) && old(available) == []
                && (!Distinct(m.shortIds) || SomeCrowded(crowded, |m.shortIds|))
      ensures status == Ok ==> !headerNull && Prepared(m, shortId, pool + extra, available)
      ensures status == Ok ==> mempoolCount - old(mempoolCount) == Taken(available) - |m.prefilled|
      ensures status == Ok ==>
                && p <= |pool| && e <= |extra| && FilledBy(m, shortId, pool[..p], extra[..e], available)
                && ExtraCounted(IdsOf(m), shortId, pool[..p], extra[..e], extraCount - old(extraCount))
                && (old(mempoolCount) == 0 ==> Scans(m, shortId, pool, extra, p, e))
      ensures status != CheckBlockFailed
    {
      hide Placed, PrefilledUpTo, Mapping, Distinct, Sound, FillFromPool, FillFromExtra, Prepared, Free, Taken;
      hide Exact, FilledBy, ExtraCounted, FillAll, PoolScanned, ExtraScanned, IdsOf;
      p, e := 0, 0;
      if m.headerNull || m.Count() == 0 || m.Count() > MAX_TXS || !headerNull || available != [] {
        return Invalid, p, e;
      }
      headerNull := false;
      var ok := PlacePrefilled(m);
      if !ok {
        return Invalid, p, e;
      }
      prefilledCount := |m.prefilled|;
      ghost var base, offer := available, pool + extra;
      SlotPerShortId(m);
      var failed, slots := MapShortIds(available, m.shortIds, crowded);
      if failed {
        return Failed, p, e;
      }
      var start := Filling(available, seq(|available|, i => false), mempoolCount, extraCount);
      SoundStart(base, m.shortIds, slots, shortId, offer, mempoolCount, extraCount);
      PoolSound(base, slots, shortId, offer, start, mempoolCount, pool);
      var f := TakeFromPool(slots, shortId, pool, start);
      ExtraSound(base, slots, shortId, offer, f, mempoolCount, extra);
      var f' := TakeFromExtra(slots, shortId, extra, f);
      SoundIsPrepared(m, slots, shortId, offer, f', mempoolCount);
      p, e := ScansSettle(m, slots, shortId, pool, extra, mempoolCount, extraCount);
      available, mempoolCount, extraCount := f'.available, f'.mempool, f'.extra;
      return Ok, p, e;
    }

    method PlacePrefilled(m: Message) returns (ok: bool)
      requires m.Count() <= MAX_INDEX
      modifies this`available
      ensures ok <==> PrefilledOk(m)
      ensures ok ==> available == Placed(m, |m.prefilled|)
    {
      available := seq(m.Count(), i => None);
      var last := -1;
      for i := 0 to |m.prefilled|
        invariant PrefilledUpTo(m, i) && available == Placed(m, i)
        invariant last == if i == 0 then -1 else Position(m.prefilled, i - 1)
      {
        if m.prefilled[i].isNull {
          return false;
        }
        last := last + m.prefilled[i].index + 1;
        if last > MAX_INDEX || last > |m.shortIds| + i {
          return false;
        }
        available := available[last := Some(m.prefilled[i].tx)];
      }
      return true;
    }

    /** Puts the missing transactions, in order, into the empty slots. */
    method FillBlock(missing: seq<Tx>, check: seq<Tx> -> Verdict) returns (status: Status, block: seq<Tx>)
      modifies this
      ensures status == Invalid <==> old(headerNull) || |missing| != |Free(old(available))|
      ensures status != Invalid ==>
                && headerNull && available == [] && block == Filled(old(available), missing)
                && status == match check(block)
                             case Accepted => Ok case Mutated => Failed case Rejected => CheckBlockFailed
    {
      hide Free;
      block := [];
      if headerNull {
        return Invalid, block;
      }
      ghost var a := available;
      var offset := 0;
      assert Free(a[..0]) == [] by { FreeNothing(a); }
      for i := 0 to |available|
        invariant |available| == |a| && (forall k :: i <= k < |a| ==> available[k] == a[k])
                  && offset == |Free(a[..i])| <= |missing|
        invariant |block| == i
        invariant forall k :: 0 <= k < i ==> |Free(a[..k])| <= |missing| && (a[k].None? ==> |Free(a[..k])| < |missing|)
        invariant forall k :: 0 <= k < i ==> block[k] == if a[k].Some? then a[k].value else missing[|Free(a[..k])|]
      {
        FreePush(a, i);
        FreePrefix(a, i + 1);
        if available[i].None? {
          if |missing| <= offset {
            return Invalid, block;
          }
          block := block + [missing[offset]];
          offset := offset + 1;
        } else {
          block := block + [available[i].value];
          available := available[i := None];
        }
      }
      assert a[..|a|] == a;
      headerNull := true;
      available := [];
      if |missing| != offset {
        return Invalid, block;
      }
      FilledIs(a, missing, block);
      match check(block) {
        case Accepted => return Ok, block;
        case Mutated => return Failed, block;
        case Rejected => return CheckBlockFailed, block;
      }
    }
  }

  lemma FreeNothing(a: Slots)
    ensures Free(a[..0]) == []
  {
    assert a[..0] == [];
  }

  lemma FreeRank(a: Slots, i: nat)
    requires i < |a|
    ensures |Free(a[..i])| <= |Free(a)| && (a[i].None? ==> |Free(a[..i])| < |Free(a)| && Free(a)[|Free(a[..i])|] == i)
  {
    hide Free;
    FreePush(a, i);
    FreePrefix(a, i);
    FreePrefix(a, i + 1);
  }

  /** The block: what is available, and the missing transactions in the order of their slots. */
  function Filled(a: Slots, missing: seq<Tx>): (r: seq<Tx>)
    requires |missing| == |Free(a)|
    ensures |r| == |a|
  {
    seq(|a|, i requires 0 <= i < |a| => FreeRank(a, i); if a[i].Some? then a[i].value else missing[|Free(a[..i])|])
  }

  lemma FilledIs(a: Slots, missing: seq<Tx>, block: seq<Tx>)
    requires |missing| == |Free(a)| && |block| == |a|
    requires forall k :: 0 <= k < |a| ==> |Free(a[..k])| <= |missing| && (a[k].None? ==> |Free(a[..k])| < |missing|)
    requires forall k :: 0 <= k < |a| ==> block[k] == if a[k].Some? then a[k].value else missing[|Free(a[..k])|]
    ensures block == Filled(a, missing)
  {
    hide Free;
  }

  // ---------- honest messages ----------

  /** The message announces this block: prefilled transactions are the block's own, and the short
      ids are those of its other transactions, in order. */
  ghost predicate Honest(m: Message, block: seq<Tx>, shortId: Tx -> nat) {
    && MessageOk(m) && m.Count() == |block|
    && (forall k :: 0 <= k < |m.prefilled| ==>
          Position(m.prefilled, k) < |block| && m.prefilled[k].tx == block[Position(m.prefilled, k)])
    && var free := Free(Placed(m, |m.prefilled|));
       |free| == |m.shortIds|
       && forall i :: 0 <= i < |free| ==> free[i] < |block| && m.shortIds[i] == shortId(block[free[i]])
  }

  /** The message the sender builds: the coinbase in full, everything else as short ids. */
  function Announce(block: seq<Tx>, shortId: Tx -> nat): Message
    requires block != []
  {
    Message(false, seq(|block| - 1, i requires 0 <= i < |block| - 1 => shortId(block[i + 1])),
            [Prefilled(0, block[0], false)])
  }

  lemma {:induction false} FreeAfterFirst(a: Slots, n: nat)
    requires 1 <= n <= |a| && a[0].Some? && forall s :: 1 <= s < |a| ==> a[s].None?
    ensures Free(a[..n]) == seq(n - 1, i => i + 1)
  {
    if n == 1 {
      FreeNothing(a);
      FreePush(a, 0);
    } else {
      FreeAfterFirst(a, n - 1);
      FreePush(a, n - 1);
    }
  }

  lemma AnnounceHonest(block: seq<Tx>, shortId: Tx -> nat)
    requires 0 < |block| <= MAX_INDEX
    ensures Honest(Announce(block, shortId), block, shortId)
  {
    var m := Announce(block, shortId);
    assert Position(m.prefilled, 0) == 0;
    var a := Placed(m, 1);
    assert Placed(m, 0) == seq(m.Count(), i => None);
    FreeAfterFirst(a, |a|);
    assert a[..|a|] == a;
  }

  /** Every transaction that was filled in is the block's own, when nothing on offer has the
      short id of one of the block's transactions without being it. */
  lemma HonestSlots(m: Message, block: seq<Tx>, shortId: Tx -> nat, offer: seq<Tx>, a: Slots)
    requires Honest(m, block, shortId) && Prepared(m, shortId, offer, a)
    requires forall x, y :: x in offer && y in block && shortId(x) == shortId(y) ==> x == y
    ensures |a| == |block| && forall s :: 0 <= s < |a| && a[s].Some? ==> a[s].value == block[s]
  {
    hide Placed, PrefilledUpTo, Free, Position, Distinct;
    var base := Placed(m, |m.prefilled|);
    FreeIs(base);
    forall s | 0 <= s < |a| && a[s].Some? ensures a[s].value == block[s] {
      if base[s].Some? {
        var k := PlacedOnly(m, |m.prefilled|, s);
        PlacedAt(m, |m.prefilled|, k);
      } else {
        var i :| 0 <= i < |Free(base)| && Free(base)[i] == s;
        assert block[s] in block;
      }
    }
  }

  /** The transactions to ask for. */
  function MissingOf(a: Slots, block: seq<Tx>): (r: seq<Tx>)
    requires |a| == |block|
    ensures |r| == |Free(a)|
  {
    FreeIs(a);
    seq(|Free(a)|, j requires 0 <= j < |Free(a)| => block[Free(a)[j]])
  }

  lemma Rebuilt(a: Slots, block: seq<Tx>)
    requires |a| == |block| && forall s :: 0 <= s < |a| && a[s].Some? ==> a[s].value == block[s]
    ensures Filled(a, MissingOf(a, block)) == block
  {
    hide Free;
    forall s | 0 <= s < |a| ensures Filled(a, MissingOf(a, block))[s] == block[s] {
      FreeRank(a, s);
    }
  }

  /** Main theorem. Whatever the mempool holds, the slots of an honest message together with the
      transactions asked for give exactly the block. */
  lemma HonestRebuilt(m: Message, block: seq<Tx>, shortId: Tx -> nat, offer: seq<Tx>, a: Slots)
    requires Honest(m, block, shortId) && Prepared(m, shortId, offer, a)
    requires forall x, y :: x in offer && y in block && shortId(x) == shortId(y) ==> x == y
    ensures |a| == |block| && Filled(a, MissingOf(a, block)) == block
  {
    hide Honest, Prepared, Free;
    HonestSlots(m, block, shortId, offer, a);
    Rebuilt(a, block);
  }

  // ---------- what the mempool is good for ----------

  lemma {:induction false} MatchingOnce(shortId: Tx -> nat, txs: seq<Tx>, id: nat, tx: Tx)
    requires Distinct(txs) && forall x :: x in txs && shortId(x) == id ==> x == tx
    ensures |Matching(shortId, txs, id)| <= 1
  {
    if txs != [] {
      var front, last := txs[..|txs| - 1], txs[|txs| - 1];
      MatchingOnce(shortId, front, id, tx);
      if shortId(last) == id {
        assert last == tx && tx !in front;
        MatchingNowhere(shortId, front, id);
      }
    }
  }

  lemma {:induction false} MatchingNowhere(shortId: Tx -> nat, txs: seq<Tx>, id: nat)
    requires forall x :: x in txs ==> shortId(x) != id
    ensures Matching(shortId, txs, id) == []
  {
    if txs != [] {
      MatchingNowhere(shortId, txs[..|txs| - 1], id);
    }
  }

  lemma PrefixDistinct(txs: seq<Tx>, n: nat)
    requires Distinct(txs) && n <= |txs|
    ensures Distinct(txs[..n]) && forall x :: x in txs[..n] ==> x in txs
  {
  }

  /** A transaction of the mempool, or an extra one, fills the slot of its short id if no other transaction has it. */
  lemma OnlyOneFills(m: Message, shortId: Tx -> nat, pool: seq<Tx>, extra: seq<Tx>, p: nat, e: nat, a: Slots, i: nat,
                     tx: Tx)
    requires PrefilledOk(m) && Scans(m, shortId, pool, extra, p, e) && Distinct(pool)
    requires FilledBy(m, shortId, pool[..p], extra[..e], a)
    requires i < |m.shortIds| && shortId(tx) == m.shortIds[i] && (tx in pool || tx in extra)
    requires forall x :: (x in pool || x in extra) && shortId(x) == m.shortIds[i] ==> x == tx
    ensures var free := Free(Placed(m, |m.prefilled|));
            i < |free| && free[i] < |a| && a[free[i]] == Some(tx)
  {
    hide Placed, PrefilledUpTo, Free, Matching;
    var id := m.shortIds[i];
    var s, t := Matching(shortId, pool[..p], id), Matching(shortId, extra[..e], id);
    PrefixDistinct(pool, p);
    MatchingOnce(shortId, pool[..p], id, tx);
    forall x | x in s + t ensures x == tx {
      MatchingIs(shortId, pool[..p], id, x);
      MatchingIs(shortId, extra[..e], id, x);
    }
    MatchingIs(shortId, pool[..p], id, tx);
    MatchingIs(shortId, extra[..e], id, tx);
    assert p == |pool| ==> pool[..p] == pool;
    assert e == |extra| ==> extra[..e] == extra;
    MatchingNone(shortId, id);
    assert s + t != [];
    assert forall k :: 0 <= k < |s + t| ==> (s + t)[k] in s + t;
  }

  lemma NotSame(txs: seq<Tx>, x: Tx, y: Tx)
    requires x in txs && y in txs && x != y
    ensures !AllSame(txs)
  {
  }

  /** Two different transactions with one short id, both looked at, leave the slot empty. */
  lemma TwoLeaveEmpty(m: Message, shortId: Tx -> nat, pool: seq<Tx>, extra: seq<Tx>, a: Slots, i: nat, x: Tx, y: Tx)
    requires PrefilledOk(m) && FilledBy(m, shortId, pool, extra, a) && i < |m.shortIds|
    requires x != y && (x in pool || x in extra) && (y in pool || y in extra)
    requires shortId(x) == shortId(y) == m.shortIds[i]
    ensures var free := Free(Placed(m, |m.prefilled|));
            i < |free| && free[i] < |a| && a[free[i]] == None
  {
    hide Placed, PrefilledUpTo, Free, Matching;
    var id := m.shortIds[i];
    MatchingIs(shortId, pool, id, x);
    MatchingIs(shortId, extra, id, x);
    MatchingIs(shortId, pool, id, y);
    MatchingIs(shortId, extra, id, y);
    var all := Matching(shortId, pool, id) + Matching(shortId, extra, id);
    NotSame(all, x, y);
  }

  lemma {:induction false} NoneFree(a: Slots)
    requires forall s :: 0 <= s < |a| ==> a[s].Some?
    ensures Free(a) == []
  {
    if a != [] {
      NoneFree(a[..|a| - 1]);
    }
  }

  /** Main theorem. If the mempool, without repeats, and the extra transactions have everything the honest message
      leaves out, and nothing else has one of its short ids, no transaction is missing and the slots are the block. */
  lemma NothingMissing(m: Message, block: seq<Tx>, shortId: Tx -> nat, pool: seq<Tx>, extra: seq<Tx>, p: nat, e: nat,
                       a: Slots)
    requires Honest(m, block, shortId) && Prepared(m, shortId, pool + extra, a)
    requires Scans(m, shortId, pool, extra, p, e) && FilledBy(m, shortId, pool[..p], extra[..e], a) && Distinct(pool)
    requires forall x, y :: x in pool + extra && y in block && shortId(x) == shortId(y) ==> x == y
    requires forall i :: 0 <= i < |m.shortIds| ==>
               var tx := block[Free(Placed(m, |m.prefilled|))[i]]; tx in pool || tx in extra
    ensures Free(a) == [] && Filled(a, []) == block
  {
    hide Placed, PrefilledUpTo, Free, Position, Distinct, FilledBy, Scans;
    var base := Placed(m, |m.prefilled|);
    FreeIs(base);
    forall s | 0 <= s < |a| ensures a[s].Some? {
      if base[s].None? {
        var i :| 0 <= i < |Free(base)| && Free(base)[i] == s;
        var tx := block[s];
        assert tx in block;
        OnlyOneFills(m, shortId, pool, extra, p, e, a, i, tx);
      }
    }
    NoneFree(a);
    HonestRebuilt(m, block, shortId, pool + extra, a);
    assert MissingOf(a, block) == [];
  }

  /** The counter of extra transactions can fall below zero: one transaction of the mempool and another, extra one
      have the short id of a slot. */
  lemma ExtraBelowZero(shortId: Tx -> nat, id: nat, x: Tx, y: Tx)
    requires x != y && shortId(x) == shortId(y) == id
    ensures ExtraCounted({id}, shortId, [x], [y], -1)
  {
    assert Matching(shortId, [x], id) == [x] && Matching(shortId, [y], id) == [y];
    assert ([x] + [y])[1] == y;
    assert FromExtra({id}, shortId, [x], [y]) == {} && Emptied({id}, shortId, [x], [y]) == {id};
  }
}
