/** The address manager of addrman.cpp, as functions on values.

    Six indexes describe the same addresses: the id table, the address lookup, the random
    order, the two bucket tables and the counters. Bucket and position hashes, address
    validity and networks are arbitrary functions; bucket counts and sizes are parameters.
    The class in AddrManObject.dfy is proved equal to these functions. */
module AddrMan {
  import opened Options
  import opened Arithmetic

  type Service = nat        // an address with its port
  type Source = nat         // the address of the peer that told us
  type Network = nat
  type Id = nat

  const NEW_BUCKETS_PER_ADDRESS: int := 8
  const TRIED_COLLISION_SIZE: nat := 10

  const MINUTE: int := 60
  const HOUR: int := 3600
  const DAY: int := 86400

  /** A bucket and a position inside it. */
  datatype Slot = Slot(bucket: nat, pos: nat)

  /** The slots a scan of a table has passed when it stands at bucket b, position i. */
  predicate Before(slot: Slot, b: nat, i: nat) {
    slot.bucket < b || (slot.bucket == b && slot.pos < i)
  }

  datatype Info = Info(
    addr: Service, source: Source, time: int, services: bv64,
    lastTry: int, lastCountAttempt: int, lastSuccess: int, attempts: nat,
    refCount: int, inTried: bool, randomPos: int)

  datatype Params = Params(
    triedBucket: Service -> nat,
    newBucket: (Service, Source) -> nat,
    position: (Service, bool, nat) -> nat,
    network: Service -> Network,
    routable: Service -> bool, valid: Service -> bool,
    selfAnnounced: (Service, Source) -> bool,
    triedBuckets: nat, newBuckets: nat, bucketSize: nat, keyIsNull: bool)
  {
    function TriedSlot(a: Service): Slot {
      Slot(triedBucket(a), position(a, false, triedBucket(a)))
    }

    function NewSlotIn(a: Service, bucket: nat): Slot {
      Slot(bucket, position(a, true, bucket))
    }

    function NewSlot(a: Service, source: Source): Slot {
      NewSlotIn(a, newBucket(a, source))
    }

    /** Hashes are reduced modulo the bucket counts and the bucket size. */
    ghost predicate Valid() {
      && (forall a :: triedBucket(a) < triedBuckets)
      && (forall a, src :: newBucket(a, src) < newBuckets)
      && (forall a, isNew, b :: position(a, isNew, b) < bucketSize)
      && (forall a :: routable(a) ==> valid(a))
    }
  }

  datatype Count = Count(isNew: int, tried: int)

  type InfoMap = map<Id, Info>
  type Table = map<Slot, Id>      // the occupied slots
  type Counts = map<Network, Count>

  datatype State = State(
    nIdCount: nat, mapInfo: InfoMap, mapAddr: map<Service, Id>, vRandom: seq<Id>,
    vvNew: Table, vvTried: Table, nNew: int, nTried: int, counts: Counts,
    collisions: set<Id>, lastGood: int)

  function Init(): State {
    State(0, map[], map[], [], map[], map[], 0, 0, map[], {}, 1)
  }

  // ---------- the invariant ----------

  predicate AddrOk(m: InfoMap, mapAddr: map<Service, Id>) {
    && (forall id :: id in m ==> m[id].addr in mapAddr && mapAddr[m[id].addr] == id)
    && (forall a :: a in mapAddr ==> mapAddr[a] in m && m[mapAddr[a]].addr == a)
  }

  predicate RandomOk(m: InfoMap, vRandom: seq<Id>) {
    && (forall id :: id in m ==> 0 <= m[id].randomPos < |vRandom| && vRandom[m[id].randomPos] == id)
    && (forall i :: 0 <= i < |vRandom| ==> vRandom[i] in m && m[vRandom[i]].randomPos == i)
  }

  predicate TriedOk(p: Params, m: InfoMap, vvTried: Table) {
    && (forall slot :: slot in vvTried ==>
          vvTried[slot] in m && m[vvTried[slot]].inTried && slot == p.TriedSlot(m[vvTried[slot]].addr))
    && (forall id :: id in m && m[id].inTried ==>
          p.TriedSlot(m[id].addr) in vvTried && vvTried[p.TriedSlot(m[id].addr)] == id)
  }

  predicate NewOk(p: Params, m: InfoMap, vvNew: Table) {
    forall slot :: slot in vvNew ==>
      && vvNew[slot] in m && !m[vvNew[slot]].inTried
      && slot.bucket < p.newBuckets && slot == p.NewSlotIn(m[vvNew[slot]].addr, slot.bucket)
  }

  /** The slots of the new table that hold this id. */
  function Refs(vvNew: Table, id: Id): set<Slot> {
    set slot | slot in vvNew && vvNew[slot] == id
  }

  predicate RefsOk(m: InfoMap, vvNew: Table) {
    forall id :: id in m ==> m[id].refCount == |Refs(vvNew, id)|
  }

  /** Entries in `floating` are for the moment in neither table. */
  predicate EntryPlaced(info: Info, floats: bool) {
    && (floats ==> !info.inTried && info.refCount == 0)
    && (info.inTried ==> info.refCount == 0)
    && (!floats && !info.inTried ==> 1 <= info.refCount <= NEW_BUCKETS_PER_ADDRESS)
  }

  predicate TimesOk(info: Info) {
    info.lastTry >= 0 && info.lastSuccess >= 0 && (info.inTried ==> info.lastSuccess != 0)
  }

  predicate EntryOk(info: Info, floats: bool) {
    EntryPlaced(info, floats) && TimesOk(info)
  }

  predicate EntriesPlaced(m: InfoMap, floating: set<Id>) {
    && floating <= m.Keys
    && forall id :: id in m ==> EntryPlaced(m[id], id in floating)
  }

  predicate EntriesTimed(m: InfoMap) {
    forall id :: id in m ==> TimesOk(m[id])
  }

  /** The ids of one network in one of the two tables. */
  function IdsOf(p: Params, m: InfoMap, net: Network, tried: bool): set<Id> {
    set id | id in m && m[id].inTried == tried && p.network(m[id].addr) == net
  }

  function IdsIn(m: InfoMap, tried: bool): set<Id> {
    set id | id in m && m[id].inTried == tried
  }

  function CountAt(counts: Counts, net: Network): Count {
    if net in counts then counts[net] else Count(0, 0)
  }

  predicate CountOk(p: Params, m: InfoMap, counts: Counts, net: Network) {
    CountAt(counts, net) == Count(|IdsOf(p, m, net, false)|, |IdsOf(p, m, net, true)|)
  }

  ghost predicate CountsOk(p: Params, m: InfoMap, nNew: int, nTried: int, counts: Counts) {
    && nNew == |IdsIn(m, false)| && nTried == |IdsIn(m, true)|
    && (forall net :: CountOk(p, m, counts, net))
  }

  predicate IdsOk(m: InfoMap, nIdCount: nat) {
    forall id :: id in m ==> id < nIdCount
  }

  /** Everything except the address lookup and the times of the entries. */
  ghost predicate InvCore(p: Params, s: State, floating: set<Id>) {
    && RandomOk(s.mapInfo, s.vRandom)
    && TriedOk(p, s.mapInfo, s.vvTried) && NewOk(p, s.mapInfo, s.vvNew)
    && RefsOk(s.mapInfo, s.vvNew) && EntriesPlaced(s.mapInfo, floating)
    && CountsOk(p, s.mapInfo, s.nNew, s.nTried, s.counts)
    && IdsOk(s.mapInfo, s.nIdCount)
  }

  ghost predicate InvFloating(p: Params, s: State, floating: set<Id>) {
    InvCore(p, s, floating) && AddrOk(s.mapInfo, s.mapAddr) && EntriesTimed(s.mapInfo)
  }

  lemma CoreOf(p: Params, s: State, floating: set<Id>)
    requires InvFloating(p, s, floating)
    ensures InvCore(p, s, floating)
  {
  }

  /** A pending collision waits for a tried slot that is taken. */
  predicate CollisionsOk(p: Params, s: State) {
    forall id :: id in s.collisions ==>
      id < s.nIdCount && (id in s.mapInfo ==> p.TriedSlot(s.mapInfo[id].addr) in s.vvTried)
  }

  ghost predicate Inv(p: Params, s: State) {
    InvFloating(p, s, {}) && CollisionsOk(p, s)
  }

  lemma EmptyOk(p: Params)
    ensures InvFloating(p, Init(), {})
  {
    var m: InfoMap := map[];
    assert IdsIn(m, false) == {} && IdsIn(m, true) == {};
    forall net ensures CountOk(p, m, map[], net) {
      assert IdsOf(p, m, net, false) == {} && IdsOf(p, m, net, true) == {};
    }
  }

  // ---------- counting ----------

  lemma {:induction false} SubsetSize<T>(a: set<T>, b: set<T>)
    requires a <= b
    ensures |a| <= |b|
    decreases |a|
  {
    if a != {} {
      var x :| x in a;
      SubsetSize(a - {x}, b - {x});
      Without(a, x);
      Without(b, x);
    }
  }

  lemma CountsUpdate(p: Params, m: InfoMap, id: Id, info: Info, net: Network, tried: bool)
    ensures |IdsOf(p, m[id := info], net, tried)| ==
            |IdsOf(p, m, net, tried)|
            - (if id in m && m[id].inTried == tried && p.network(m[id].addr) == net then 1 else 0)
            + (if info.inTried == tried && p.network(info.addr) == net then 1 else 0)
  {
    SizeChange(IdsOf(p, m, net, tried), IdsOf(p, m[id := info], net, tried), id);
  }

  lemma CountsRemove(p: Params, m: InfoMap, id: Id, net: Network, tried: bool)
    requires id in m
    ensures |IdsOf(p, m - {id}, net, tried)| ==
            |IdsOf(p, m, net, tried)| - (if m[id].inTried == tried && p.network(m[id].addr) == net then 1 else 0)
  {
    SizeChange(IdsOf(p, m, net, tried), IdsOf(p, m - {id}, net, tried), id);
  }

  lemma TotalsUpdate(m: InfoMap, id: Id, info: Info, tried: bool)
    ensures |IdsIn(m[id := info], tried)| ==
            |IdsIn(m, tried)| - (if id in m && m[id].inTried == tried then 1 else 0)
            + (if info.inTried == tried then 1 else 0)
  {
    SizeChange(IdsIn(m, tried), IdsIn(m[id := info], tried), id);
  }

  lemma TotalsRemove(m: InfoMap, id: Id, tried: bool)
    requires id in m
    ensures |IdsIn(m - {id}, tried)| == |IdsIn(m, tried)| - (if m[id].inTried == tried then 1 else 0)
  {
    SizeChange(IdsIn(m, tried), IdsIn(m - {id}, tried), id);
  }

  function Bump(counts: Counts, net: Network, isNew: int, tried: int): Counts {
    var c := CountAt(counts, net);
    counts[net := Count(c.isNew + isNew, c.tried + tried)]
  }

  /** The counters follow when one entry changes its table. */
  lemma CountsAfterUpdate(p: Params, s: State, id: Id, info: Info, nNew: int, nTried: int, counts: Counts)
    requires CountsOk(p, s.mapInfo, s.nNew, s.nTried, s.counts)
    requires id in s.mapInfo ==> info.addr == s.mapInfo[id].addr
    requires var dn := (if info.inTried then 0 else 1) - (if id in s.mapInfo && !s.mapInfo[id].inTried then 1 else 0);
             var dt := (if info.inTried then 1 else 0) - (if id in s.mapInfo && s.mapInfo[id].inTried then 1 else 0);
             && nNew == s.nNew + dn && nTried == s.nTried + dt
             && (counts == Bump(s.counts, p.network(info.addr), dn, dt) || (dn == 0 && dt == 0 && counts == s.counts))
    ensures CountsOk(p, s.mapInfo[id := info], nNew, nTried, counts)
  {
    TotalsUpdate(s.mapInfo, id, info, false);
    TotalsUpdate(s.mapInfo, id, info, true);
    var m := s.mapInfo[id := info];
    forall net ensures CountOk(p, m, counts, net) {
      assert CountOk(p, s.mapInfo, s.counts, net);
      CountsUpdate(p, s.mapInfo, id, info, net, false);
      CountsUpdate(p, s.mapInfo, id, info, net, true);
    }
  }

  lemma CountsAfterRemove(p: Params, s: State, id: Id)
    requires CountsOk(p, s.mapInfo, s.nNew, s.nTried, s.counts) && id in s.mapInfo && !s.mapInfo[id].inTried
    ensures CountsOk(p, s.mapInfo - {id}, s.nNew - 1, s.nTried, Bump(s.counts, p.network(s.mapInfo[id].addr), -1, 0))
  {
    TotalsRemove(s.mapInfo, id, false);
    TotalsRemove(s.mapInfo, id, true);
    forall net ensures CountOk(p, s.mapInfo - {id}, Bump(s.counts, p.network(s.mapInfo[id].addr), -1, 0), net) {
      assert CountOk(p, s.mapInfo, s.counts, net);
      CountsRemove(p, s.mapInfo, id, net, false);
      CountsRemove(p, s.mapInfo, id, net, true);
    }
  }

  // ---------- Find, Create, SwapRandom, Delete ----------

  function Find(s: State, a: Service): Option<Id> {
    if a in s.mapAddr && s.mapAddr[a] in s.mapInfo then Some(s.mapAddr[a]) else None
  }

  datatype Address = Address(service: Service, time: int, services: bv64)

  function NewInfo(a: Address, source: Source, pos: int): Info {
    Info(a.service, source, a.time, a.services, 0, 0, 0, 0, 0, false, pos)
  }

  /** A fresh entry; its id is s.nIdCount. */
  function Create(p: Params, s: State, a: Address, source: Source): State {
    var id := s.nIdCount;
    s.(nIdCount := id + 1,
       mapInfo := s.mapInfo[id := NewInfo(a, source, |s.vRandom|)],
       mapAddr := s.mapAddr[a.service := id],
       vRandom := s.vRandom + [id],
       nNew := s.nNew + 1,
       counts := Bump(s.counts, p.network(a.service), 1, 0))
  }

  lemma NoRefs(p: Params, m: InfoMap, vvNew: Table, id: Id)
    requires NewOk(p, m, vvNew) && id !in m
    ensures Refs(vvNew, id) == {}
  {
  }

  lemma CreateAddr(p: Params, s: State, a: Address, source: Source)
    requires AddrOk(s.mapInfo, s.mapAddr) && IdsOk(s.mapInfo, s.nIdCount) && a.service !in s.mapAddr
    ensures var s' := Create(p, s, a, source); AddrOk(s'.mapInfo, s'.mapAddr) && IdsOk(s'.mapInfo, s'.nIdCount)
  {
  }

  lemma CreateRandom(p: Params, s: State, a: Address, source: Source)
    requires RandomOk(s.mapInfo, s.vRandom) && s.nIdCount !in s.mapInfo
    ensures var s' := Create(p, s, a, source); RandomOk(s'.mapInfo, s'.vRandom)
  {
  }

  lemma CreateSlots(p: Params, s: State, a: Address, source: Source)
    requires TriedOk(p, s.mapInfo, s.vvTried) && NewOk(p, s.mapInfo, s.vvNew) && s.nIdCount !in s.mapInfo
    ensures var s' := Create(p, s, a, source); TriedOk(p, s'.mapInfo, s'.vvTried) && NewOk(p, s'.mapInfo, s'.vvNew)
  {
  }

  lemma CreateEntries(p: Params, s: State, floating: set<Id>, a: Address, source: Source)
    requires NewOk(p, s.mapInfo, s.vvNew) && RefsOk(s.mapInfo, s.vvNew)
    requires EntriesPlaced(s.mapInfo, floating) && s.nIdCount !in s.mapInfo
    ensures var s' := Create(p, s, a, source);
            RefsOk(s'.mapInfo, s'.vvNew) && EntriesPlaced(s'.mapInfo, floating + {s.nIdCount})
  {
    NoRefs(p, s.mapInfo, s.vvNew, s.nIdCount);
    hide NewOk, Refs;
  }

  lemma CreateCore(p: Params, s: State, floating: set<Id>, a: Address, source: Source)
    requires InvCore(p, s, floating)
    ensures InvCore(p, Create(p, s, a, source), floating + {s.nIdCount})
  {
    CreateRandom(p, s, a, source);
    CreateSlots(p, s, a, source);
    CreateEntries(p, s, floating, a, source);
    var s' := Create(p, s, a, source);
    CountsAfterUpdate(p, s, s.nIdCount, s'.mapInfo[s.nIdCount], s'.nNew, s'.nTried, s'.counts);
  }

  lemma CreateKeeps(p: Params, s: State, floating: set<Id>, a: Address, source: Source)
    requires InvFloating(p, s, floating) && a.service !in s.mapAddr
    ensures InvFloating(p, Create(p, s, a, source), floating + {s.nIdCount})
  {
    hide RandomOk, TriedOk, NewOk, RefsOk, EntriesPlaced, CountsOk;
    CreateAddr(p, s, a, source);
    CreateCore(p, s, floating, a, source);
  }

  // ---------- changing one entry ----------

  function WithInfo(s: State, id: Id, info: Info): State {
    s.(mapInfo := s.mapInfo[id := info])
  }

  lemma TouchAddr(m: InfoMap, mapAddr: map<Service, Id>, id: Id, info: Info)
    requires AddrOk(m, mapAddr) && id in m && info.addr == m[id].addr
    ensures AddrOk(m[id := info], mapAddr)
  {
  }

  lemma TouchRandom(m: InfoMap, vRandom: seq<Id>, id: Id, info: Info)
    requires RandomOk(m, vRandom) && id in m && info.randomPos == m[id].randomPos
    ensures RandomOk(m[id := info], vRandom)
  {
  }

  lemma TouchTables(p: Params, m: InfoMap, vvNew: Table, vvTried: Table, id: Id, info: Info)
    requires TriedOk(p, m, vvTried) && NewOk(p, m, vvNew)
    requires id in m && info.addr == m[id].addr && info.inTried == m[id].inTried
    ensures TriedOk(p, m[id := info], vvTried) && NewOk(p, m[id := info], vvNew)
  {
  }

  lemma TouchEntries(m: InfoMap, vvNew: Table, floating: set<Id>, id: Id, info: Info)
    requires RefsOk(m, vvNew) && EntriesPlaced(m, floating)
    requires id in m && info.refCount == m[id].refCount && EntryPlaced(info, id in floating)
    ensures RefsOk(m[id := info], vvNew) && EntriesPlaced(m[id := info], floating)
  {
  }

  lemma TimedUpdate(m: InfoMap, id: Id, info: Info)
    requires EntriesTimed(m) && TimesOk(info)
    ensures EntriesTimed(m[id := info])
  {
  }

  /** An entry may change everything except what ties it to the indexes. */
  lemma TouchedCore(p: Params, s: State, floating: set<Id>, id: Id, info: Info)
    requires InvCore(p, s, floating) && id in s.mapInfo
    requires var was := s.mapInfo[id];
             && info.addr == was.addr && info.randomPos == was.randomPos
             && info.inTried == was.inTried && info.refCount == was.refCount
    ensures InvCore(p, WithInfo(s, id, info), floating)
  {
    TouchRandom(s.mapInfo, s.vRandom, id, info);
    TouchTables(p, s.mapInfo, s.vvNew, s.vvTried, id, info);
    TouchEntries(s.mapInfo, s.vvNew, floating, id, info);
    CountsAfterUpdate(p, s, id, info, s.nNew, s.nTried, s.counts);
  }

  lemma Touched(p: Params, s: State, floating: set<Id>, id: Id, info: Info)
    requires InvFloating(p, s, floating) && id in s.mapInfo
    requires var was := s.mapInfo[id];
             && info.addr == was.addr && info.randomPos == was.randomPos
             && info.inTried == was.inTried && info.refCount == was.refCount
    requires TimesOk(info)
    ensures InvFloating(p, WithInfo(s, id, info), floating)
  {
    hide InvCore, EntriesTimed, TimesOk;
    TouchedCore(p, s, floating, id, info);
    TouchAddr(s.mapInfo, s.mapAddr, id, info);
    TimedUpdate(s.mapInfo, id, info);
  }

  // ---------- SwapRandom, Delete ----------

  /** Two entries of the random order trade places. */
  function SwapRandom(s: State, i: nat, j: nat): State
    requires i < |s.vRandom| && j < |s.vRandom| && s.vRandom[i] in s.mapInfo && s.vRandom[j] in s.mapInfo
  {
    if i == j then s else
      var a, b := s.vRandom[i], s.vRandom[j];
      var s1 := WithInfo(s, a, s.mapInfo[a].(randomPos := j));
      WithInfo(s1, b, s1.mapInfo[b].(randomPos := i)).(vRandom := s.vRandom[i := b][j := a])
  }

  /** The same state with this entry's position in the random order rewritten. */
  ghost predicate CoreButRandom(p: Params, s: State, floating: set<Id>) {
    && TriedOk(p, s.mapInfo, s.vvTried) && NewOk(p, s.mapInfo, s.vvNew)
    && RefsOk(s.mapInfo, s.vvNew) && EntriesPlaced(s.mapInfo, floating)
    && CountsOk(p, s.mapInfo, s.nNew, s.nTried, s.counts)
    && IdsOk(s.mapInfo, s.nIdCount)
  }

  lemma Moved(p: Params, s: State, floating: set<Id>, id: Id, pos: int)
    requires CoreButRandom(p, s, floating) && id in s.mapInfo
    ensures CoreButRandom(p, WithInfo(s, id, s.mapInfo[id].(randomPos := pos)), floating)
  {
    var info := s.mapInfo[id].(randomPos := pos);
    TouchTables(p, s.mapInfo, s.vvNew, s.vvTried, id, info);
    TouchEntries(s.mapInfo, s.vvNew, floating, id, info);
    CountsAfterUpdate(p, s, id, info, s.nNew, s.nTried, s.counts);
  }

  lemma SwapRandomOrder(s: State, i: nat, j: nat)
    requires RandomOk(s.mapInfo, s.vRandom) && i < |s.vRandom| && j < |s.vRandom|
    ensures RandomOk(SwapRandom(s, i, j).mapInfo, SwapRandom(s, i, j).vRandom)
  {
    if i != j {
      var a, b := s.vRandom[i], s.vRandom[j];
      assert s.mapInfo[a].randomPos == i && s.mapInfo[b].randomPos == j;
    }
  }

  lemma SwapRandomCore(p: Params, s: State, floating: set<Id>, i: nat, j: nat)
    requires InvCore(p, s, floating) && i < |s.vRandom| && j < |s.vRandom|
    ensures InvCore(p, SwapRandom(s, i, j), floating)
  {
    SwapRandomOrder(s, i, j);
    if i != j {
      var a, b := s.vRandom[i], s.vRandom[j];
      Moved(p, s, floating, a, j);
      Moved(p, WithInfo(s, a, s.mapInfo[a].(randomPos := j)), floating, b, i);
    }
  }

  lemma SwapRandomRest(s: State, i: nat, j: nat)
    requires i < |s.vRandom| && j < |s.vRandom| && s.vRandom[i] in s.mapInfo && s.vRandom[j] in s.mapInfo
    requires AddrOk(s.mapInfo, s.mapAddr) && EntriesTimed(s.mapInfo)
    ensures var s' := SwapRandom(s, i, j); AddrOk(s'.mapInfo, s'.mapAddr) && EntriesTimed(s'.mapInfo)
  {
    if i != j {
      var a, b := s.vRandom[i], s.vRandom[j];
      var m := s.mapInfo[a := s.mapInfo[a].(randomPos := j)];
      TouchAddr(s.mapInfo, s.mapAddr, a, m[a]);
      TouchAddr(m, s.mapAddr, b, m[b].(randomPos := i));
    }
  }

  lemma SwapRandomKeeps(p: Params, s: State, floating: set<Id>, i: nat, j: nat)
    requires InvFloating(p, s, floating) && i < |s.vRandom| && j < |s.vRandom|
    ensures InvFloating(p, SwapRandom(s, i, j), floating)
  {
    hide TriedOk, NewOk, RefsOk, EntriesPlaced, CountsOk, EntriesTimed, AddrOk;
    SwapRandomCore(p, s, floating, i, j);
    SwapRandomRest(s, i, j);
  }

  /** Removing the entry that is last in the random order. */
  function Dropped(p: Params, s: State, id: Id): State
    requires id in s.mapInfo && s.vRandom != []
  {
    s.(counts := Bump(s.counts, p.network(s.mapInfo[id].addr), -1, 0), vRandom := s.vRandom[..|s.vRandom| - 1],
       mapAddr := s.mapAddr - {s.mapInfo[id].addr}, mapInfo := s.mapInfo - {id}, nNew := s.nNew - 1)
  }

  /** The entry must not be in tried and have no references. */
  function Delete(p: Params, s: State, id: Id): State
    requires Deletable(s, id)
  {
    Dropped(p, SwapRandom(s, s.mapInfo[id].randomPos, |s.vRandom| - 1), id)
  }

  predicate Deletable(s: State, id: Id) {
    && id in s.mapInfo && !s.mapInfo[id].inTried && s.mapInfo[id].refCount == 0
    && 0 <= s.mapInfo[id].randomPos < |s.vRandom| && s.vRandom[s.mapInfo[id].randomPos] == id
    && s.vRandom[|s.vRandom| - 1] in s.mapInfo
  }

  lemma DroppedAddr(p: Params, s: State, id: Id)
    requires AddrOk(s.mapInfo, s.mapAddr) && id in s.mapInfo && s.vRandom != []
    ensures var s' := Dropped(p, s, id); AddrOk(s'.mapInfo, s'.mapAddr)
  {
  }

  lemma DroppedRandom(p: Params, s: State, id: Id)
    requires RandomOk(s.mapInfo, s.vRandom) && id in s.mapInfo && s.vRandom != [] && s.vRandom[|s.vRandom| - 1] == id
    ensures var s' := Dropped(p, s, id); RandomOk(s'.mapInfo, s'.vRandom)
  {
  }

  lemma DroppedSlots(p: Params, s: State, floating: set<Id>, id: Id)
    requires TriedOk(p, s.mapInfo, s.vvTried) && NewOk(p, s.mapInfo, s.vvNew)
    requires RefsOk(s.mapInfo, s.vvNew) && EntriesPlaced(s.mapInfo, floating) && id in floating && s.vRandom != []
    ensures var s' := Dropped(p, s, id); TriedOk(p, s'.mapInfo, s'.vvTried) && NewOk(p, s'.mapInfo, s'.vvNew)
  {
    hide TriedOk, NewOk, RefsOk;
    NoSlotOfFloating(s, floating, id);
    TriedWithout(p, s.mapInfo, s.vvTried, id);
    NewWithout(p, s.mapInfo, s.vvNew, id);
  }

  lemma TriedWithout(p: Params, m: InfoMap, vvTried: Table, id: Id)
    requires TriedOk(p, m, vvTried) && id in m && !m[id].inTried
    ensures TriedOk(p, m - {id}, vvTried)
  {
  }

  lemma NewWithout(p: Params, m: InfoMap, vvNew: Table, id: Id)
    requires NewOk(p, m, vvNew) && forall slot :: slot in vvNew ==> vvNew[slot] != id
    ensures NewOk(p, m - {id}, vvNew)
  {
  }

  lemma DroppedEntries(p: Params, s: State, floating: set<Id>, id: Id)
    requires RefsOk(s.mapInfo, s.vvNew) && EntriesPlaced(s.mapInfo, floating) && id in floating && s.vRandom != []
    ensures var s' := Dropped(p, s, id); RefsOk(s'.mapInfo, s'.vvNew) && EntriesPlaced(s'.mapInfo, floating - {id})
  {
    hide Refs;
  }

  lemma DroppedCore(p: Params, s: State, floating: set<Id>, id: Id)
    requires InvCore(p, s, floating) && id in floating && s.vRandom != [] && s.vRandom[|s.vRandom| - 1] == id
    ensures InvCore(p, Dropped(p, s, id), floating - {id})
  {
    DroppedRandom(p, s, id);
    DroppedSlots(p, s, floating, id);
    DroppedEntries(p, s, floating, id);
    CountsAfterRemove(p, s, id);
  }

  lemma DeletableFrom(s: State, floating: set<Id>, id: Id)
    requires RandomOk(s.mapInfo, s.vRandom) && EntriesPlaced(s.mapInfo, floating) && id in floating
    ensures Deletable(s, id)
    ensures var swapped := SwapRandom(s, s.mapInfo[id].randomPos, |s.vRandom| - 1);
            id in swapped.mapInfo && |swapped.vRandom| == |s.vRandom| && swapped.vRandom[|s.vRandom| - 1] == id
  {
  }

  lemma DeleteCore(p: Params, s: State, floating: set<Id>, id: Id)
    requires InvCore(p, s, floating) && id in floating
    ensures Deletable(s, id) && InvCore(p, Delete(p, s, id), floating - {id})
  {
    hide TriedOk, NewOk, RefsOk, CountsOk, IdsOk, SwapRandom, Dropped;
    DeletableFrom(s, floating, id);
    var last := |s.vRandom| - 1;
    var pos := s.mapInfo[id].randomPos;
    SwapRandomCore(p, s, floating, pos, last);
    DroppedCore(p, SwapRandom(s, pos, last), floating, id);
  }

  /** Delete forgets exactly this floating entry; no assertion of Delete or SwapRandom fails. */
  lemma DeleteKeeps(p: Params, s: State, floating: set<Id>, id: Id)
    requires InvFloating(p, s, floating) && id in floating
    ensures Deletable(s, id) && InvFloating(p, Delete(p, s, id), floating - {id})
  {
    hide TriedOk, NewOk, RefsOk, CountsOk, IdsOk, AddrOk, SwapRandom;
    DeleteCore(p, s, floating, id);
    DeletableFrom(s, floating, id);
    var last := |s.vRandom| - 1;
    var pos := s.mapInfo[id].randomPos;
    SwapRandomRest(s, pos, last);
    DroppedAddr(p, SwapRandom(s, pos, last), id);
  }

  // ---------- references from the new table ----------

  function DropRef(s: State, slot: Slot): State
    requires slot in s.vvNew && s.vvNew[slot] in s.mapInfo
  {
    var id := s.vvNew[slot];
    WithInfo(s, id, s.mapInfo[id].(refCount := s.mapInfo[id].refCount - 1)).(vvNew := s.vvNew - {slot})
  }

  lemma RefsDrop(vvNew: Table, slot: Slot, id: Id)
    requires slot in vvNew
    ensures |Refs(vvNew - {slot}, id)| == |Refs(vvNew, id)| - (if vvNew[slot] == id then 1 else 0)
  {
    SizeChange(Refs(vvNew, id), Refs(vvNew - {slot}, id), slot);
  }

  lemma RefsPut(vvNew: Table, slot: Slot, owner: Id, id: Id)
    requires slot !in vvNew
    ensures |Refs(vvNew[slot := owner], id)| == |Refs(vvNew, id)| + (if owner == id then 1 else 0)
  {
    SizeChange(Refs(vvNew, id), Refs(vvNew[slot := owner], id), slot);
  }

  /** The references change by one for one entry, in the table and in its count. */
  lemma RefsChanged(p: Params, m: InfoMap, vvNew: Table, vvTried: Table, floating: set<Id>,
                    id: Id, info: Info, vvNew': Table, floating': set<Id>)
    requires TriedOk(p, m, vvTried) && NewOk(p, m, vvNew) && RefsOk(m, vvNew) && EntriesPlaced(m, floating)
    requires id in m && !info.inTried && !m[id].inTried && info.addr == m[id].addr
    requires info.refCount == |Refs(vvNew', id)| && EntryPlaced(info, id in floating')
    requires forall other :: other in m && other != id ==> |Refs(vvNew', other)| == |Refs(vvNew, other)|
    requires forall slot :: slot in vvNew' ==>
               (slot in vvNew && vvNew'[slot] == vvNew[slot]) ||
               (vvNew'[slot] == id && slot.bucket < p.newBuckets && slot == p.NewSlotIn(info.addr, slot.bucket))
    requires floating' <= m.Keys && floating' - {id} == floating - {id}
    ensures TriedOk(p, m[id := info], vvTried) && NewOk(p, m[id := info], vvNew')
    ensures RefsOk(m[id := info], vvNew') && EntriesPlaced(m[id := info], floating')
  {
    hide TriedOk, RefsOk, EntriesPlaced, Refs, EntryPlaced;
    TouchTables(p, m, vvNew, vvTried, id, info);
    RefCountsChanged(m, vvNew, id, info, vvNew');
    PlacedChanged(m, floating, id, info, floating');
  }

  lemma RefCountsChanged(m: InfoMap, vvNew: Table, id: Id, info: Info, vvNew': Table)
    requires RefsOk(m, vvNew) && id in m && info.refCount == |Refs(vvNew', id)|
    requires forall other :: other in m && other != id ==> |Refs(vvNew', other)| == |Refs(vvNew, other)|
    ensures RefsOk(m[id := info], vvNew')
  {
    hide Refs;
  }

  lemma PlacedChanged(m: InfoMap, floating: set<Id>, id: Id, info: Info, floating': set<Id>)
    requires EntriesPlaced(m, floating) && id in m && EntryPlaced(info, id in floating')
    requires floating' <= m.Keys && floating' - {id} == floating - {id}
    ensures EntriesPlaced(m[id := info], floating')
  {
    hide EntryPlaced;
    forall other | other in m && other != id ensures other in floating' <==> other in floating {
      assert other in floating' <==> other in floating' - {id};
      assert other in floating <==> other in floating - {id};
    }
  }

  /** The floating entries after a reference to id went away. */
  function FloatingAfterDrop(s: State, floating: set<Id>, id: Id): set<Id>
    requires id in s.mapInfo
  {
    if s.mapInfo[id].refCount == 1 then floating + {id} else floating
  }

  lemma RefHolder(p: Params, s: State, floating: set<Id>, slot: Slot)
    requires NewOk(p, s.mapInfo, s.vvNew) && RefsOk(s.mapInfo, s.vvNew) && EntriesPlaced(s.mapInfo, floating)
             && slot in s.vvNew
    ensures var id := s.vvNew[slot];
            && id in s.mapInfo && !s.mapInfo[id].inTried && id !in floating
            && 0 < s.mapInfo[id].refCount == |Refs(s.vvNew, id)| <= NEW_BUCKETS_PER_ADDRESS
            && slot.bucket < p.newBuckets && slot == p.NewSlotIn(s.mapInfo[id].addr, slot.bucket)
            && EntryPlaced(s.mapInfo[id], false) && floating <= s.mapInfo.Keys
  {
    assert slot in Refs(s.vvNew, s.vvNew[slot]);
  }

  lemma DropRefTables(p: Params, s: State, floating: set<Id>, slot: Slot)
    requires TriedOk(p, s.mapInfo, s.vvTried) && NewOk(p, s.mapInfo, s.vvNew)
    requires RefsOk(s.mapInfo, s.vvNew) && EntriesPlaced(s.mapInfo, floating) && slot in s.vvNew
             && s.vvNew[slot] in s.mapInfo
    ensures var s' := DropRef(s, slot);
            && TriedOk(p, s'.mapInfo, s'.vvTried) && NewOk(p, s'.mapInfo, s'.vvNew)
            && RefsOk(s'.mapInfo, s'.vvNew) && EntriesPlaced(s'.mapInfo, FloatingAfterDrop(s, floating, s.vvNew[slot]))
  {
    hide TriedOk, NewOk, RefsOk, EntriesPlaced, Refs;
    RefHolder(p, s, floating, slot);
    var id := s.vvNew[slot];
    var info := s.mapInfo[id].(refCount := s.mapInfo[id].refCount - 1);
    var vvNew' := s.vvNew - {slot};
    forall other ensures |Refs(vvNew', other)| == |Refs(s.vvNew, other)| - (if id == other then 1 else 0) {
      RefsDrop(s.vvNew, slot, other);
    }
    RefsChanged(p, s.mapInfo, s.vvNew, s.vvTried, floating, id, info, vvNew', FloatingAfterDrop(s, floating, id));
  }

  lemma DropRefKeeps(p: Params, s: State, floating: set<Id>, slot: Slot)
    requires InvFloating(p, s, floating) && slot in s.vvNew
    ensures s.vvNew[slot] in s.mapInfo && s.mapInfo[s.vvNew[slot]].refCount > 0 && s.vvNew[slot] !in floating
    ensures InvFloating(p, DropRef(s, slot), FloatingAfterDrop(s, floating, s.vvNew[slot]))
  {
    hide AddrOk, RandomOk, TriedOk, NewOk, RefsOk, EntriesPlaced, CountsOk;
    RefHolder(p, s, floating, slot);
    DropRefTables(p, s, floating, slot);
    var id := s.vvNew[slot];
    var info := s.mapInfo[id].(refCount := s.mapInfo[id].refCount - 1);
    TouchAddr(s.mapInfo, s.mapAddr, id, info);
    TouchRandom(s.mapInfo, s.vRandom, id, info);
    CountsAfterUpdate(p, s, id, info, s.nNew, s.nTried, s.counts);
  }

  /** ClearNew: free a slot; an entry that loses its last reference is deleted. */
  function ClearNew(p: Params, s: State, slot: Slot): State
    requires Clearable(s, slot)
  {
    if slot !in s.vvNew then s else
      var id := s.vvNew[slot];
      var s' := DropRef(s, slot);
      if s'.mapInfo[id].refCount == 0 then Delete(p, s', id) else s'
  }

  predicate Clearable(s: State, slot: Slot) {
    slot in s.vvNew ==>
      && s.vvNew[slot] in s.mapInfo && s.mapInfo[s.vvNew[slot]].refCount > 0
      && (s.mapInfo[s.vvNew[slot]].refCount == 1 ==> Deletable(DropRef(s, slot), s.vvNew[slot]))
  }

  lemma ClearNewKeeps(p: Params, s: State, floating: set<Id>, slot: Slot)
    requires InvFloating(p, s, floating)
    ensures Clearable(s, slot) && InvFloating(p, ClearNew(p, s, slot), floating)
  {
    hide InvFloating, Delete, Deletable, DropRef;
    if slot in s.vvNew {
      DropRefKeeps(p, s, floating, slot);
      var id := s.vvNew[slot];
      DropRefCount(s, slot);
      if s.mapInfo[id].refCount == 1 {
        DeleteKeeps(p, DropRef(s, slot), floating + {id}, id);
        assert floating + {id} - {id} == floating;
      }
    }
  }

  lemma DropRefCount(s: State, slot: Slot)
    requires slot in s.vvNew && s.vvNew[slot] in s.mapInfo
    ensures s.vvNew[slot] in DropRef(s, slot).mapInfo
    ensures DropRef(s, slot).mapInfo[s.vvNew[slot]].refCount == s.mapInfo[s.vvNew[slot]].refCount - 1
  {
  }

  function AddRef(s: State, id: Id, slot: Slot): State
    requires id in s.mapInfo
  {
    WithInfo(s, id, s.mapInfo[id].(refCount := s.mapInfo[id].refCount + 1)).(vvNew := s.vvNew[slot := id])
  }

  lemma RefCountIs(m: InfoMap, vvNew: Table, floating: set<Id>, id: Id)
    requires RefsOk(m, vvNew) && EntriesPlaced(m, floating) && id in m
    ensures m[id].refCount == |Refs(vvNew, id)| >= 0 && floating <= m.Keys
  {
  }

  lemma AddRefTables(p: Params, s: State, floating: set<Id>, id: Id, slot: Slot)
    requires TriedOk(p, s.mapInfo, s.vvTried) && NewOk(p, s.mapInfo, s.vvNew)
    requires RefsOk(s.mapInfo, s.vvNew) && EntriesPlaced(s.mapInfo, floating)
    requires id in s.mapInfo && !s.mapInfo[id].inTried && s.mapInfo[id].refCount < NEW_BUCKETS_PER_ADDRESS
    requires slot !in s.vvNew && slot.bucket < p.newBuckets && slot == p.NewSlotIn(s.mapInfo[id].addr, slot.bucket)
    ensures var s' := AddRef(s, id, slot);
            && TriedOk(p, s'.mapInfo, s'.vvTried) && NewOk(p, s'.mapInfo, s'.vvNew)
            && RefsOk(s'.mapInfo, s'.vvNew) && EntriesPlaced(s'.mapInfo, floating - {id})
  {
    hide TriedOk, NewOk, RefsOk, EntriesPlaced, Refs;
    RefCountIs(s.mapInfo, s.vvNew, floating, id);
    var info := s.mapInfo[id].(refCount := s.mapInfo[id].refCount + 1);
    var vvNew' := s.vvNew[slot := id];
    forall other ensures |Refs(vvNew', other)| == |Refs(s.vvNew, other)| + (if id == other then 1 else 0) {
      RefsPut(s.vvNew, slot, id, other);
    }
    RefsChanged(p, s.mapInfo, s.vvNew, s.vvTried, floating, id, info, vvNew', floating - {id});
  }

  lemma AddRefCore(p: Params, s: State, floating: set<Id>, id: Id, slot: Slot)
    requires InvCore(p, s, floating)
    requires id in s.mapInfo && !s.mapInfo[id].inTried && s.mapInfo[id].refCount < NEW_BUCKETS_PER_ADDRESS
    requires slot !in s.vvNew && slot.bucket < p.newBuckets && slot == p.NewSlotIn(s.mapInfo[id].addr, slot.bucket)
    ensures InvCore(p, AddRef(s, id, slot), floating - {id})
  {
    hide RandomOk, TriedOk, NewOk, RefsOk, EntriesPlaced, CountsOk;
    AddRefTables(p, s, floating, id, slot);
    var info := s.mapInfo[id].(refCount := s.mapInfo[id].refCount + 1);
    TouchRandom(s.mapInfo, s.vRandom, id, info);
    CountsAfterUpdate(p, s, id, info, s.nNew, s.nTried, s.counts);
  }

  lemma AddRefKeeps(p: Params, s: State, floating: set<Id>, id: Id, slot: Slot)
    requires InvFloating(p, s, floating)
    requires id in s.mapInfo && !s.mapInfo[id].inTried && s.mapInfo[id].refCount < NEW_BUCKETS_PER_ADDRESS
    requires slot !in s.vvNew && slot.bucket < p.newBuckets && slot == p.NewSlotIn(s.mapInfo[id].addr, slot.bucket)
    ensures InvFloating(p, AddRef(s, id, slot), floating - {id})
  {
    hide InvCore, AddrOk;
    AddRefCore(p, s, floating, id, slot);
    TouchAddr(s.mapInfo, s.mapAddr, id, s.mapInfo[id].(refCount := s.mapInfo[id].refCount + 1));
  }

  /** All references to this entry are gone. */
  function ClearRefs(s: State, id: Id): State
    requires id in s.mapInfo
  {
    var kept := map slot | slot in s.vvNew && s.vvNew[slot] != id :: s.vvNew[slot];
    WithInfo(s, id, s.mapInfo[id].(refCount := 0)).(vvNew := kept)
  }

  lemma RefsCleared(vvNew: Table, vvNew': Table, id: Id, other: Id)
    requires vvNew' == map slot | slot in vvNew && vvNew[slot] != id :: vvNew[slot]
    ensures Refs(vvNew', other) == if other == id then {} else Refs(vvNew, other)
  {
  }

  lemma ClearRefsTables(p: Params, s: State, floating: set<Id>, id: Id)
    requires TriedOk(p, s.mapInfo, s.vvTried) && NewOk(p, s.mapInfo, s.vvNew)
    requires RefsOk(s.mapInfo, s.vvNew) && EntriesPlaced(s.mapInfo, floating)
    requires id in s.mapInfo && !s.mapInfo[id].inTried
    ensures var s' := ClearRefs(s, id);
            && TriedOk(p, s'.mapInfo, s'.vvTried) && NewOk(p, s'.mapInfo, s'.vvNew)
            && RefsOk(s'.mapInfo, s'.vvNew) && EntriesPlaced(s'.mapInfo, floating + {id})
  {
    hide TriedOk, NewOk, Refs;
    var info := s.mapInfo[id].(refCount := 0);
    var vvNew' := ClearRefs(s, id).vvNew;
    forall other ensures Refs(vvNew', other) == if other == id then {} else Refs(s.vvNew, other) {
      RefsCleared(s.vvNew, vvNew', id, other);
    }
    RefsChanged(p, s.mapInfo, s.vvNew, s.vvTried, floating, id, info, vvNew', floating + {id});
  }

  lemma ClearRefsKeeps(p: Params, s: State, floating: set<Id>, id: Id)
    requires InvFloating(p, s, floating) && id in s.mapInfo && !s.mapInfo[id].inTried
    ensures InvFloating(p, ClearRefs(s, id), floating + {id})
  {
    hide AddrOk, RandomOk, TriedOk, NewOk, RefsOk, EntriesPlaced, CountsOk;
    ClearRefsTables(p, s, floating, id);
    var info := s.mapInfo[id].(refCount := 0);
    TouchAddr(s.mapInfo, s.mapAddr, id, info);
    TouchRandom(s.mapInfo, s.vRandom, id, info);
    CountsAfterUpdate(p, s, id, info, s.nNew, s.nTried, s.counts);
  }

  // ---------- moving between the tables ----------

  function ToTried(p: Params, s: State, id: Id): State
    requires id in s.mapInfo
  {
    var info := s.mapInfo[id];
    WithInfo(s, id, info.(inTried := true)).(
      vvTried := s.vvTried[p.TriedSlot(info.addr) := id],
      nTried := s.nTried + 1, nNew := s.nNew - 1,
      counts := Bump(s.counts, p.network(info.addr), -1, 1))
  }

  lemma EntryMoved(m: InfoMap, vvNew: Table, floating: set<Id>, id: Id, info: Info, floating': set<Id>)
    requires RefsOk(m, vvNew) && EntriesPlaced(m, floating)
    requires id in m && info.refCount == m[id].refCount && EntryPlaced(info, id in floating')
    requires floating' <= m.Keys && floating' - {id} == floating - {id}
    ensures RefsOk(m[id := info], vvNew) && EntriesPlaced(m[id := info], floating')
  {
    hide Refs, EntryPlaced;
    PlacedChanged(m, floating, id, info, floating');
    hide EntriesPlaced;
  }

  lemma ToTriedTables(p: Params, s: State, id: Id)
    requires TriedOk(p, s.mapInfo, s.vvTried) && NewOk(p, s.mapInfo, s.vvNew)
    requires id in s.mapInfo && !s.mapInfo[id].inTried && p.TriedSlot(s.mapInfo[id].addr) !in s.vvTried
    requires forall slot :: slot in s.vvNew ==> s.vvNew[slot] != id
    ensures var s' := ToTried(p, s, id); TriedOk(p, s'.mapInfo, s'.vvTried) && NewOk(p, s'.mapInfo, s'.vvNew)
  {
  }

  lemma NoSlotOfFloating(s: State, floating: set<Id>, id: Id)
    requires RefsOk(s.mapInfo, s.vvNew) && EntriesPlaced(s.mapInfo, floating) && id in floating
    ensures forall slot :: slot in s.vvNew ==> s.vvNew[slot] != id
  {
    assert s.mapInfo[id].refCount == 0;
    assert Refs(s.vvNew, id) == {};
    forall slot | slot in s.vvNew ensures s.vvNew[slot] != id {
      assert slot !in Refs(s.vvNew, id);
    }
  }

  lemma ToTriedCore(p: Params, s: State, floating: set<Id>, id: Id)
    requires InvCore(p, s, floating) && id in floating && p.TriedSlot(s.mapInfo[id].addr) !in s.vvTried
    ensures InvCore(p, ToTried(p, s, id), floating - {id})
  {
    hide RandomOk, TriedOk, NewOk, RefsOk, CountsOk;
    NoSlotOfFloating(s, floating, id);
    ToTriedTables(p, s, id);
    var info := s.mapInfo[id].(inTried := true);
    EntryMoved(s.mapInfo, s.vvNew, floating, id, info, floating - {id});
    TouchRandom(s.mapInfo, s.vRandom, id, info);
    CountsAfterUpdate(p, s, id, info, s.nNew - 1, s.nTried + 1, Bump(s.counts, p.network(info.addr), -1, 1));
  }

  lemma ToTriedKeeps(p: Params, s: State, floating: set<Id>, id: Id)
    requires InvFloating(p, s, floating)
    requires id in floating && p.TriedSlot(s.mapInfo[id].addr) !in s.vvTried && s.mapInfo[id].lastSuccess != 0
    ensures InvFloating(p, ToTried(p, s, id), floating - {id})
  {
    hide RandomOk, TriedOk, NewOk, RefsOk, CountsOk, AddrOk;
    ToTriedCore(p, s, floating, id);
    TouchAddr(s.mapInfo, s.mapAddr, id, s.mapInfo[id].(inTried := true));
  }

  function FromTried(p: Params, s: State, id: Id): State
    requires id in s.mapInfo
  {
    var info := s.mapInfo[id];
    WithInfo(s, id, info.(inTried := false)).(
      vvTried := s.vvTried - {p.TriedSlot(info.addr)},
      nTried := s.nTried - 1, nNew := s.nNew + 1,
      counts := Bump(s.counts, p.network(info.addr), 1, -1))
  }

  lemma FromTriedTables(p: Params, s: State, id: Id)
    requires TriedOk(p, s.mapInfo, s.vvTried) && NewOk(p, s.mapInfo, s.vvNew)
    requires id in s.mapInfo && s.mapInfo[id].inTried
    ensures var s' := FromTried(p, s, id); TriedOk(p, s'.mapInfo, s'.vvTried) && NewOk(p, s'.mapInfo, s'.vvNew)
  {
  }

  lemma FromTriedKeeps(p: Params, s: State, floating: set<Id>, id: Id)
    requires InvFloating(p, s, floating) && id in s.mapInfo && s.mapInfo[id].inTried
    ensures InvFloating(p, FromTried(p, s, id), floating + {id})
  {
    hide AddrOk, RandomOk, TriedOk, NewOk, RefsOk, CountsOk;
    FromTriedTables(p, s, id);
    var info := s.mapInfo[id].(inTried := false);
    EntryMoved(s.mapInfo, s.vvNew, floating, id, info, floating + {id});
    TouchAddr(s.mapInfo, s.mapAddr, id, info);
    TouchRandom(s.mapInfo, s.vRandom, id, info);
    CountsAfterUpdate(p, s, id, info, s.nNew + 1, s.nTried - 1, Bump(s.counts, p.network(info.addr), 1, -1));
  }

  // ---------- frames ----------

  /** The same entry, up to its place in the random order. */
  predicate SameEntry(s: State, s': State, id: Id) {
    && id in s.mapInfo && id in s'.mapInfo
    && s'.mapInfo[id] == s.mapInfo[id].(randomPos := s'.mapInfo[id].randomPos)
  }

  /** Nothing outside the new table and the random order moved; no entry appeared or changed its address. */
  predicate NewTableOnly(s: State, s': State) {
    && s'.vvTried == s.vvTried && s'.collisions == s.collisions && s'.lastGood == s.lastGood
    && s'.nIdCount == s.nIdCount
    && forall id :: id in s'.mapInfo ==> id in s.mapInfo && s'.mapInfo[id].addr == s.mapInfo[id].addr
  }

  lemma MovedFrame(s: State, id: Id, pos: int)
    requires id in s.mapInfo
    ensures var s' := WithInfo(s, id, s.mapInfo[id].(randomPos := pos));
            s'.mapInfo.Keys == s.mapInfo.Keys && forall other :: other in s.mapInfo ==> SameEntry(s, s', other)
  {
  }

  lemma SwapFrame(s: State, i: nat, j: nat)
    requires i < |s.vRandom| && j < |s.vRandom| && s.vRandom[i] in s.mapInfo && s.vRandom[j] in s.mapInfo
    ensures var s' := SwapRandom(s, i, j);
            s'.mapInfo.Keys == s.mapInfo.Keys && forall id :: id in s.mapInfo ==> SameEntry(s, s', id)
  {
    if i != j {
      var a, b := s.vRandom[i], s.vRandom[j];
      MovedFrame(s, a, j);
      var s1 := WithInfo(s, a, s.mapInfo[a].(randomPos := j));
      MovedFrame(s1, b, i);
      forall id | id in s.mapInfo ensures SameEntry(s, SwapRandom(s, i, j), id) {
        assert SameEntry(s, s1, id) && SameEntry(s1, WithInfo(s1, b, s1.mapInfo[b].(randomPos := i)), id);
      }
    }
  }

  lemma SwapFields(s: State, i: nat, j: nat)
    requires i < |s.vRandom| && j < |s.vRandom| && s.vRandom[i] in s.mapInfo && s.vRandom[j] in s.mapInfo
    ensures var s' := SwapRandom(s, i, j);
            s' == s.(mapInfo := s'.mapInfo, vRandom := s'.vRandom) && |s'.vRandom| == |s.vRandom|
  {
  }

  lemma DeleteFrame(p: Params, s: State, id: Id)
    requires Deletable(s, id)
    ensures var s' := Delete(p, s, id);
            && NewTableOnly(s, s') && s'.vvNew == s.vvNew && s'.mapInfo.Keys == s.mapInfo.Keys - {id}
            && (forall other :: other in s.mapInfo && other != id ==> SameEntry(s, s', other))
            && s'.mapAddr == s.mapAddr - {s.mapInfo[id].addr}
  {
    hide SwapRandom;
    var i, j := s.mapInfo[id].randomPos, |s.vRandom| - 1;
    SwapFrame(s, i, j);
    SwapFields(s, i, j);
    var swapped := SwapRandom(s, i, j);
    var s' := Delete(p, s, id);
    assert s'.mapInfo == swapped.mapInfo - {id};
    forall other | other in s.mapInfo && other != id ensures SameEntry(s, s', other) {
      assert SameEntry(s, swapped, other);
    }
    forall other | other in s'.mapInfo ensures other in s.mapInfo && s'.mapInfo[other].addr == s.mapInfo[other].addr {
      assert SameEntry(s, s', other);
    }
  }

  lemma ClearNewFrame(p: Params, s: State, slot: Slot)
    requires Clearable(s, slot)
    ensures var s' := ClearNew(p, s, slot);
            && NewTableOnly(s, s') && s'.vvNew == s.vvNew - {slot}
            && (forall id :: id in s.mapInfo && (slot in s.vvNew ==> s.vvNew[slot] != id) ==> SameEntry(s, s', id))
  {
    hide Delete, Deletable;
    if slot in s.vvNew {
      var id := s.vvNew[slot];
      var d := DropRef(s, slot);
      if d.mapInfo[id].refCount == 0 {
        DeleteFrame(p, d, id);
        forall other | other in s.mapInfo && other != id ensures SameEntry(s, ClearNew(p, s, slot), other) {
          assert SameEntry(d, ClearNew(p, s, slot), other);
        }
      }
    }
  }

  // ---------- MakeTried ----------

  /** The tried entry at this slot goes back to the new table, pushing out whatever is there. */
  function Evict(p: Params, s: State, slot: Slot): State
    requires Evictable(p, s, slot)
  {
    var id := s.vvTried[slot];
    var s1 := FromTried(p, s, id);
    var to := p.NewSlot(s.mapInfo[id].addr, s.mapInfo[id].source);
    AddRef(ClearNew(p, s1, to), id, to)
  }

  predicate Evictable(p: Params, s: State, slot: Slot) {
    && slot in s.vvTried && s.vvTried[slot] in s.mapInfo
    && var id := s.vvTried[slot];
       var to := p.NewSlot(s.mapInfo[id].addr, s.mapInfo[id].source);
       Clearable(FromTried(p, s, id), to) && id in ClearNew(p, FromTried(p, s, id), to).mapInfo
  }

  /** Just before the evicted entry gets its slot: it floats, and the slot is free. */
  lemma EvictPrepared(p: Params, s: State, floating: set<Id>, slot: Slot)
    requires p.Valid() && InvFloating(p, s, floating) && slot in s.vvTried
    ensures Evictable(p, s, slot) && s.vvTried[slot] !in floating
    ensures var id := s.vvTried[slot];
            var to := p.NewSlot(s.mapInfo[id].addr, s.mapInfo[id].source);
            var s1, s2 := FromTried(p, s, id), ClearNew(p, FromTried(p, s, id), to);
            && InvFloating(p, s2, floating + {id}) && NewTableOnly(s1, s2) && to !in s2.vvNew
            && (forall other :: other in floating + {id} ==> SameEntry(s1, s2, other))
  {
    hide AddrOk, RandomOk, NewOk, RefsOk, CountsOk, IdsOk, ClearNew, Clearable;
    var id := s.vvTried[slot];
    FromTriedKeeps(p, s, floating, id);
    var s1 := FromTried(p, s, id);
    var to := p.NewSlot(s.mapInfo[id].addr, s.mapInfo[id].source);
    ClearNewKeeps(p, s1, floating + {id}, to);
    ClearNewFrame(p, s1, to);
    forall other | other in floating + {id} ensures SameEntry(s1, ClearNew(p, s1, to), other) {
      NoSlotOfFloating(s1, floating + {id}, other);
    }
  }

  lemma EvictKeeps(p: Params, s: State, floating: set<Id>, slot: Slot)
    requires p.Valid() && InvFloating(p, s, floating) && slot in s.vvTried
    ensures Evictable(p, s, slot) && InvFloating(p, Evict(p, s, slot), floating)
  {
    hide InvFloating, ClearNew, Clearable, AddRef;
    EvictPrepared(p, s, floating, slot);
    var id := s.vvTried[slot];
    var to := p.NewSlot(s.mapInfo[id].addr, s.mapInfo[id].source);
    var s2 := ClearNew(p, FromTried(p, s, id), to);
    assert SameEntry(FromTried(p, s, id), s2, id);
    FloatingEntry(p, s2, floating + {id}, id);
    AddRefKeeps(p, s2, floating + {id}, id, to);
    assert floating + {id} - {id} == floating;
  }

  lemma FloatingEntry(p: Params, s: State, floating: set<Id>, id: Id)
    requires InvFloating(p, s, floating) && id in floating
    ensures id in s.mapInfo && !s.mapInfo[id].inTried && s.mapInfo[id].refCount == 0
  {
  }

  lemma TriedEntry(p: Params, s: State, floating: set<Id>, slot: Slot)
    requires InvFloating(p, s, floating) && slot in s.vvTried
    ensures var id := s.vvTried[slot];
            id in s.mapInfo && s.mapInfo[id].inTried && id !in floating && slot == p.TriedSlot(s.mapInfo[id].addr)
  {
  }

  lemma EvictFrame(p: Params, s: State, floating: set<Id>, slot: Slot)
    requires p.Valid() && InvFloating(p, s, floating) && slot in s.vvTried
    ensures Evictable(p, s, slot)
    ensures var s' := Evict(p, s, slot);
            && NewTableOnly(s.(vvTried := s.vvTried - {slot}), s')
            && (forall id :: id in floating ==> SameEntry(s, s', id))
  {
    hide InvFloating, ClearNew, Clearable;
    EvictPrepared(p, s, floating, slot);
    TriedEntry(p, s, floating, slot);
    var id := s.vvTried[slot];
    var s1 := FromTried(p, s, id);
    var s' := Evict(p, s, slot);
    forall other | other in floating ensures SameEntry(s, s', other) {
      assert other in floating + {id};
      FloatingEntry(p, s, floating, other);
    }
  }

  function MakeTried(p: Params, s: State, id: Id): State
    requires Movable(p, s, id)
  {
    var s1 := ClearRefs(s, id);
    var slot := p.TriedSlot(s.mapInfo[id].addr);
    ToTried(p, if slot in s1.vvTried then Evict(p, s1, slot) else s1, id)
  }

  /** None of the assertions of MakeTried fails. */
  predicate Movable(p: Params, s: State, id: Id) {
    && id in s.mapInfo
    && var s1 := ClearRefs(s, id);
       var slot := p.TriedSlot(s.mapInfo[id].addr);
       slot in s1.vvTried ==> Evictable(p, s1, slot) && id in Evict(p, s1, slot).mapInfo
  }

  lemma MakeTriedKeeps(p: Params, s: State, id: Id)
    requires p.Valid() && InvFloating(p, s, {}) && id in s.mapInfo && !s.mapInfo[id].inTried
             && s.mapInfo[id].lastSuccess != 0
    ensures Movable(p, s, id) && InvFloating(p, MakeTried(p, s, id), {})
  {
    hide InvFloating, Evictable, Evict, ToTried;
    ClearRefsKeeps(p, s, {}, id);
    var s1 := ClearRefs(s, id);
    var slot := p.TriedSlot(s.mapInfo[id].addr);
    assert {} + {id} == {id} && {id} - {id} == {};
    if slot in s1.vvTried {
      EvictKeeps(p, s1, {id}, slot);
      EvictFrame(p, s1, {id}, slot);
      assert SameEntry(s1, Evict(p, s1, slot), id);
      ToTriedKeeps(p, Evict(p, s1, slot), {id}, id);
    } else {
      ToTriedKeeps(p, s1, {id}, id);
    }
  }

  lemma ToTriedFrame(p: Params, s: State, s0: State, id: Id)
    requires id in s.mapInfo && NewTableOnly(s0, s)
    ensures var slot, s' := p.TriedSlot(s.mapInfo[id].addr), ToTried(p, s, id);
            s'.vvTried == s.vvTried[slot := id] && NewTableOnly(s0.(vvTried := s'.vvTried), s')
  {
  }

  /** MakeTried fills the entry's tried slot and empties no other. */
  lemma MakeTriedFrame(p: Params, s: State, id: Id)
    requires p.Valid() && InvFloating(p, s, {}) && id in s.mapInfo && !s.mapInfo[id].inTried
             && s.mapInfo[id].lastSuccess != 0
    ensures Movable(p, s, id)
    ensures var s' := MakeTried(p, s, id);
            && s'.vvTried == s.vvTried[p.TriedSlot(s.mapInfo[id].addr) := id]
            && NewTableOnly(s.(vvTried := s'.vvTried), s')
  {
    hide InvFloating, Evictable, Evict, ToTried, NewTableOnly;
    ClearRefsKeeps(p, s, {}, id);
    MakeTriedKeeps(p, s, id);
    var s1 := ClearRefs(s, id);
    ClearRefsFrame(s, id);
    var slot := p.TriedSlot(s.mapInfo[id].addr);
    assert {} + {id} == {id};
    if slot in s1.vvTried {
      EvictFrame(p, s1, {id}, slot);
      var s2 := Evict(p, s1, slot);
      assert SameEntry(s1, s2, id);
      NewTableOnlyTwice(s.(vvTried := s1.vvTried - {slot}), s1.(vvTried := s1.vvTried - {slot}), s2);
      ToTriedFrame(p, s2, s.(vvTried := s1.vvTried - {slot}), id);
      assert s2.vvTried == s1.vvTried - {slot};
    } else {
      ToTriedFrame(p, s1, s, id);
    }
  }

  lemma ClearRefsFrame(s: State, id: Id)
    requires id in s.mapInfo
    ensures NewTableOnly(s, ClearRefs(s, id))
    ensures forall vvTried :: NewTableOnly(s.(vvTried := vvTried), ClearRefs(s, id).(vvTried := vvTried))
  {
  }

  lemma NewTableOnlyTwice(a: State, b: State, c: State)
    requires NewTableOnly(a, b) && NewTableOnly(b, c)
    ensures NewTableOnly(a, c) && c.vvTried == a.vvTried
  {
  }
}
