/** The operations of the address manager and whole runs of them. Clock readings and
    random choices are parameters of the operations. */
module AddrManOps {
  import opened Options
  import opened Arithmetic
  import opened AddrMan
  import opened Limbs

  // ---------- what an operation may do to the tables ----------

  /** Ids are handed out upwards and never again, an id never changes its address,
      and an occupied tried slot stays occupied. */
  predicate Evolves(s: State, s': State) {
    && s.nIdCount <= s'.nIdCount
    && (forall id :: id in s'.mapInfo && id < s.nIdCount ==>
          id in s.mapInfo && s'.mapInfo[id].addr == s.mapInfo[id].addr)
    && (forall slot :: slot in s.vvTried ==> slot in s'.vvTried)
  }

  lemma EvolvesTwice(a: State, b: State, c: State)
    requires Evolves(a, b) && Evolves(b, c)
    ensures Evolves(a, c)
  {
  }

  lemma NewTableOnlyEvolves(s: State, s': State)
    requires NewTableOnly(s, s')
    ensures Evolves(s, s')
  {
  }

  /** Collisions stay justified because tried slots never empty out. */
  lemma CollisionsFollow(p: Params, s: State, s': State)
    requires CollisionsOk(p, s) && Evolves(s, s') && s'.collisions <= s.collisions
    ensures CollisionsOk(p, s')
  {
  }

  // ---------- AddSingle ----------

  predicate IsTerrible(info: Info, now: int) {
    && now - info.lastTry > MINUTE
    && (|| info.time > now + 10 * MINUTE
        || now - info.time > 30 * DAY
        || (info.lastSuccess == 0 && info.attempts >= 3)
        || (now - info.lastSuccess > 7 * DAY && info.attempts >= 10))
  }

  function AllServices(x: bv64, y: bv64): bv64 { x | y }

  /** A known address is heard of again. */
  function Refreshed(info: Info, a: Address, penalty: int, now: int): Info {
    var interval := if now - a.time < 24 * HOUR then HOUR else 24 * HOUR;
    var time := if info.time < a.time - interval - penalty then Max(0, a.time - penalty) else info.time;
    info.(time := time, services := AllServices(info.services, a.services))
  }

  predicate Overwrites(s: State, id: Id, slot: Slot, now: int)
    requires id in s.mapInfo
  {
    slot in s.vvNew && s.vvNew[slot] in s.mapInfo &&
    var existing := s.mapInfo[s.vvNew[slot]];
    IsTerrible(existing, now) || (existing.refCount > 1 && s.mapInfo[id].refCount == 0)
  }

  /** Give the entry one more slot, or drop it if it ends up without any. */
  function Place(p: Params, s: State, id: Id, slot: Slot, now: int): (State, bool)
    requires Placeable(p, s, id, slot)
  {
    if slot in s.vvNew && s.vvNew[slot] == id then (s, false)
    else if slot !in s.vvNew || Overwrites(s, id, slot, now) then (AddRef(ClearNew(p, s, slot), id, slot), true)
    else if s.mapInfo[id].refCount == 0 then (Delete(p, s, id), false)
    else (s, false)
  }

  predicate Placeable(p: Params, s: State, id: Id, slot: Slot) {
    && id in s.mapInfo && Clearable(s, slot) && (s.mapInfo[id].refCount == 0 ==> Deletable(s, id))
    && (id in ClearNew(p, s, slot).mapInfo || (slot in s.vvNew && s.vvNew[slot] == id))
  }

  lemma CanPlace(p: Params, s: State, floating: set<Id>, id: Id, slot: Slot)
    requires InvFloating(p, s, floating) && id in s.mapInfo && !s.mapInfo[id].inTried && floating <= {id}
    ensures Placeable(p, s, id, slot) && (s.mapInfo[id].refCount == 0 <==> id in floating)
    ensures !(slot in s.vvNew && s.vvNew[slot] == id) ==> SameEntry(s, ClearNew(p, s, slot), id)
  {
    hide AddrOk, RandomOk, TriedOk, NewOk, RefsOk, CountsOk, IdsOk, ClearNew, Clearable, Deletable;
    ClearNewKeeps(p, s, floating, slot);
    ClearNewFrame(p, s, slot);
    if id in floating {
      DeleteKeeps(p, s, floating, id);
    }
  }

  lemma InsertKeeps(p: Params, s: State, floating: set<Id>, id: Id, slot: Slot)
    requires InvFloating(p, s, floating) && id in s.mapInfo && !s.mapInfo[id].inTried && floating <= {id}
    requires s.mapInfo[id].refCount < NEW_BUCKETS_PER_ADDRESS
    requires slot.bucket < p.newBuckets && slot == p.NewSlotIn(s.mapInfo[id].addr, slot.bucket)
    requires !(slot in s.vvNew && s.vvNew[slot] == id)
    ensures Clearable(s, slot) && id in ClearNew(p, s, slot).mapInfo
    ensures var s' := AddRef(ClearNew(p, s, slot), id, slot); InvFloating(p, s', {}) && NewTableOnly(s, s')
  {
    hide InvFloating, ClearNew, Clearable;
    ClearNewKeeps(p, s, floating, slot);
    ClearNewFrame(p, s, slot);
    assert SameEntry(s, ClearNew(p, s, slot), id);
    AddRefKeeps(p, ClearNew(p, s, slot), floating, id, slot);
    assert floating - {id} == {};
  }

  lemma PlaceKeeps(p: Params, s: State, floating: set<Id>, id: Id, slot: Slot, now: int)
    requires InvFloating(p, s, floating) && id in s.mapInfo && !s.mapInfo[id].inTried && floating <= {id}
    requires s.mapInfo[id].refCount < NEW_BUCKETS_PER_ADDRESS
    requires slot.bucket < p.newBuckets && slot == p.NewSlotIn(s.mapInfo[id].addr, slot.bucket)
    requires slot in s.vvNew && s.vvNew[slot] == id ==> floating == {}
    ensures Placeable(p, s, id, slot) && InvFloating(p, Place(p, s, id, slot, now).0, {})
            && NewTableOnly(s, Place(p, s, id, slot, now).0)
  {
    hide InvFloating, ClearNew, Clearable, Deletable, Delete, Overwrites;
    CanPlace(p, s, floating, id, slot);
    if !(slot in s.vvNew && s.vvNew[slot] == id) {
      if slot !in s.vvNew || Overwrites(s, id, slot, now) {
        InsertKeeps(p, s, floating, id, slot);
      } else if s.mapInfo[id].refCount == 0 {
        DeleteKeeps(p, s, floating, id);
        DeleteFrame(p, s, id);
        assert floating - {id} == {};
      } else {
        assert floating == {};
      }
    }
  }

  /** The entry of a known address after the news, and its state of indexes. */
  lemma KnownKeeps(p: Params, s: State, id: Id, a: Address, penalty: int, now: int)
    requires InvFloating(p, s, {}) && id in s.mapInfo
    ensures InvFloating(p, WithInfo(s, id, Refreshed(s.mapInfo[id], a, penalty, now)), {})
    ensures NewTableOnly(s, WithInfo(s, id, Refreshed(s.mapInfo[id], a, penalty, now)))
  {
    hide AddrOk, RandomOk, TriedOk, NewOk, RefsOk, CountsOk, IdsOk;
    Touched(p, s, {}, id, Refreshed(s.mapInfo[id], a, penalty, now));
  }

  function Created(p: Params, s: State, a: Address, source: Source, penalty: int): State {
    var s1 := Create(p, s, a, source);
    WithInfo(s1, s.nIdCount, s1.mapInfo[s.nIdCount].(time := Max(0, a.time - penalty)))
  }

  lemma CreatedKeeps(p: Params, s: State, a: Address, source: Source, penalty: int)
    requires InvFloating(p, s, {}) && a.service !in s.mapAddr
    ensures var s' := Created(p, s, a, source, penalty);
            && InvFloating(p, s', {s.nIdCount}) && Evolves(s, s') && s'.collisions == s.collisions
            && s'.vvNew == s.vvNew && s'.vvTried == s.vvTried
            && s.nIdCount in s'.mapInfo && s'.mapInfo[s.nIdCount].addr == a.service
            && !s'.mapInfo[s.nIdCount].inTried && s'.mapInfo[s.nIdCount].refCount == 0
  {
    hide AddrOk, RandomOk, TriedOk, NewOk, RefsOk, CountsOk, IdsOk;
    CreateKeeps(p, s, {}, a, source);
    assert {} + {s.nIdCount} == {s.nIdCount};
    var s1 := Create(p, s, a, source);
    Touched(p, s1, {s.nIdCount}, s.nIdCount, s1.mapInfo[s.nIdCount].(time := Max(0, a.time - penalty)));
  }

  /** The clock readings of one AddSingle: when the news came in, and when the entry in the way
      was judged. */
  datatype Times = Times(heard: int, judged: int)

  /** The draw fails with a chance that doubles with every slot the entry already has. */
  predicate Unlucky(refCount: int, draw: nat) {
    refCount > 0 && draw % Two(refCount) != 0
  }

  ghost function AddKnown(p: Params, s: State, id: Id, a: Address, source: Source, penalty: int, t: Times,
                          draw: nat): (State, bool)
    requires p.Valid() && InvFloating(p, s, {}) && id in s.mapInfo && s.mapInfo[id].addr == a.service
  {
    var info := Refreshed(s.mapInfo[id], a, penalty, t.heard);
    var s1 := WithInfo(s, id, info);
    if a.time <= info.time || info.inTried || info.refCount == NEW_BUCKETS_PER_ADDRESS || Unlucky(info.refCount, draw)
    then (s1, false)
    else
      var slot := p.NewSlot(a.service, source);
      KnownKeeps(p, s, id, a, penalty, t.heard);
      CanPlace(p, s1, {}, id, slot);
      Place(p, s1, id, slot, t.judged)
  }

  ghost function AddUnknown(p: Params, s: State, a: Address, source: Source, penalty: int, now: int): (State, bool)
    requires p.Valid() && InvFloating(p, s, {}) && a.service !in s.mapAddr
  {
    var slot := p.NewSlot(a.service, source);
    var s1 := Created(p, s, a, source, penalty);
    CreatedKeeps(p, s, a, source, penalty);
    CanPlace(p, s1, {s.nIdCount}, s.nIdCount, slot);
    Place(p, s1, s.nIdCount, slot, now)
  }

  lemma FindKnown(p: Params, s: State, a: Service)
    requires InvFloating(p, s, {})
    ensures Find(s, a).None? ==> a !in s.mapAddr
    ensures Find(s, a).Some? ==> Find(s, a).value in s.mapInfo && s.mapInfo[Find(s, a).value].addr == a
  {
    hide RandomOk, TriedOk, NewOk, RefsOk, CountsOk, EntriesPlaced, IdsOk;
  }

  /** `draw` is the random number of the test that makes further references rarer. */
  ghost function AddSingle(p: Params, s: State, a: Address, source: Source, penalty: int, t: Times,
                           draw: nat): (State, bool)
    requires p.Valid() && InvFloating(p, s, {})
  {
    if !p.routable(a.service) then (s, false) else
      var effective := if p.selfAnnounced(a.service, source) then 0 else penalty;
      FindKnown(p, s, a.service);
      match Find(s, a.service)
      case Some(id) => AddKnown(p, s, id, a, source, effective, t, draw)
      case None => AddUnknown(p, s, a, source, effective, t.judged)
  }

  lemma AddKnownKeeps(p: Params, s: State, id: Id, a: Address, source: Source, penalty: int, t: Times, draw: nat)
    requires p.Valid() && InvFloating(p, s, {}) && id in s.mapInfo && s.mapInfo[id].addr == a.service
    ensures var s' := AddKnown(p, s, id, a, source, penalty, t, draw).0; InvFloating(p, s', {}) && NewTableOnly(s, s')
  {
    hide InvFloating, Place, Placeable;
    KnownKeeps(p, s, id, a, penalty, t.heard);
    var s1 := WithInfo(s, id, Refreshed(s.mapInfo[id], a, penalty, t.heard));
    RefCountRange(p, s1, id);
    var slot := p.NewSlot(a.service, source);
    if !s1.mapInfo[id].inTried && s1.mapInfo[id].refCount < NEW_BUCKETS_PER_ADDRESS {
      PlaceKeeps(p, s1, {}, id, slot, t.judged);
    }
  }

  lemma RefCountRange(p: Params, s: State, id: Id)
    requires InvFloating(p, s, {}) && id in s.mapInfo
    ensures s.mapInfo[id].refCount <= NEW_BUCKETS_PER_ADDRESS
  {
  }

  lemma AddUnknownKeeps(p: Params, s: State, a: Address, source: Source, penalty: int, now: int)
    requires p.Valid() && InvFloating(p, s, {}) && a.service !in s.mapAddr
    ensures var s' := AddUnknown(p, s, a, source, penalty, now).0;
            InvFloating(p, s', {}) && Evolves(s, s') && s'.collisions == s.collisions
  {
    hide InvFloating, Place, Placeable, Evolves, Created;
    CreatedKeeps(p, s, a, source, penalty);
    var s1 := Created(p, s, a, source, penalty);
    var slot := p.NewSlot(a.service, source);
    NewIdUnreferenced(p, s, slot);
    PlaceKeeps(p, s1, {s.nIdCount}, s.nIdCount, slot, now);
    var s' := AddUnknown(p, s, a, source, penalty, now).0;
    NewTableOnlyEvolves(s1, s');
    EvolvesTwice(s, s1, s');
  }

  lemma NewIdUnreferenced(p: Params, s: State, slot: Slot)
    requires InvFloating(p, s, {})
    ensures slot in s.vvNew ==> s.vvNew[slot] != s.nIdCount
  {
  }

  lemma AddSingleKeeps(p: Params, s: State, a: Address, source: Source, penalty: int, t: Times, draw: nat)
    requires p.Valid() && Inv(p, s)
    ensures var s' := AddSingle(p, s, a, source, penalty, t, draw).0; Inv(p, s') && Evolves(s, s')
  {
    hide InvFloating, AddKnown, AddUnknown, Evolves;
    var effective := if p.selfAnnounced(a.service, source) then 0 else penalty;
    var s' := AddSingle(p, s, a, source, penalty, t, draw).0;
    FindKnown(p, s, a.service);
    if !p.routable(a.service) {
      SameEvolves(s);
    } else if Find(s, a.service).Some? {
      AddKnownKeeps(p, s, Find(s, a.service).value, a, source, effective, t, draw);
      NewTableOnlyEvolves(s, s');
    } else {
      AddUnknownKeeps(p, s, a, source, effective, t.judged);
    }
    CollisionsFollow(p, s, s');
  }

  lemma PlacedTable(p: Params, s: State, id: Id, slot: Slot, now: int)
    requires Placeable(p, s, id, slot)
    ensures var (s', inserted) := Place(p, s, id, slot, now);
            s'.vvNew == if inserted then s.vvNew[slot := id] else s.vvNew
  {
    hide ClearNew, Clearable, Delete, Deletable, IsTerrible;
    ClearNewFrame(p, s, slot);
    if s.mapInfo[id].refCount == 0 {
      DeleteFrame(p, s, id);
    }
  }

  lemma AddKnownInserts(p: Params, s: State, id: Id, a: Address, source: Source, penalty: int, t: Times, draw: nat)
    requires p.Valid() && InvFloating(p, s, {}) && id in s.mapInfo && s.mapInfo[id].addr == a.service
    ensures var (s', inserted) := AddKnown(p, s, id, a, source, penalty, t, draw);
            s'.vvNew == if inserted then s.vvNew[p.NewSlot(a.service, source) := id] else s.vvNew
  {
    hide InvFloating, Place, Placeable;
    var slot := p.NewSlot(a.service, source);
    KnownKeeps(p, s, id, a, penalty, t.heard);
    var s1 := WithInfo(s, id, Refreshed(s.mapInfo[id], a, penalty, t.heard));
    if !s1.mapInfo[id].inTried {
      CanPlace(p, s1, {}, id, slot);
      PlacedTable(p, s1, id, slot, t.judged);
    }
  }

  lemma AddUnknownInserts(p: Params, s: State, a: Address, source: Source, penalty: int, now: int)
    requires p.Valid() && InvFloating(p, s, {}) && a.service !in s.mapAddr
    ensures var (s', inserted) := AddUnknown(p, s, a, source, penalty, now);
            s'.vvNew == if inserted then s.vvNew[p.NewSlot(a.service, source) := s.nIdCount] else s.vvNew
  {
    hide InvFloating, Place, Placeable, Created;
    CreatedKeeps(p, s, a, source, penalty);
    var s1 := Created(p, s, a, source, penalty);
    CanPlace(p, s1, {s.nIdCount}, s.nIdCount, p.NewSlot(a.service, source));
    PlacedTable(p, s1, s.nIdCount, p.NewSlot(a.service, source), now);
  }

  /** What AddSingle does to the new table: the address takes one slot, or nothing moves. */
  lemma AddSingleInserts(p: Params, s: State, a: Address, source: Source, penalty: int, t: Times, draw: nat)
    requires p.Valid() && InvFloating(p, s, {})
    ensures var (s', inserted) := AddSingle(p, s, a, source, penalty, t, draw);
            var id := if Find(s, a.service).Some? then Find(s, a.service).value else s.nIdCount;
            s'.vvNew == if inserted then s.vvNew[p.NewSlot(a.service, source) := id] else s.vvNew
  {
    hide InvFloating, AddKnown, AddUnknown;
    FindKnown(p, s, a.service);
    var effective := if p.selfAnnounced(a.service, source) then 0 else penalty;
    if Find(s, a.service).Some? {
      AddKnownInserts(p, s, Find(s, a.service).value, a, source, effective, t, draw);
    } else {
      AddUnknownInserts(p, s, a, source, effective, t.judged);
    }
  }

  lemma SameEvolves(s: State)
    ensures Evolves(s, s)
  {
  }

  // ---------- Good ----------

  function Confirmed(info: Info, time: int): Info {
    info.(lastSuccess := time, lastTry := time, attempts := 0)
  }

  /** The state after Good has recorded the success, before any move. */
  function Recorded(s: State, id: Id, time: int): State
    requires id in s.mapInfo
  {
    WithInfo(s.(lastGood := time), id, Confirmed(s.mapInfo[id], time))
  }

  lemma RecordedKeeps(p: Params, s: State, id: Id, time: int)
    requires InvFloating(p, s, {}) && id in s.mapInfo && time > 0
    ensures InvFloating(p, Recorded(s, id, time), {}) && Evolves(s, Recorded(s, id, time))
  {
    hide AddrOk, RandomOk, TriedOk, NewOk, RefsOk, CountsOk, IdsOk;
    Touched(p, s.(lastGood := time), {}, id, Confirmed(s.mapInfo[id], time));
  }

  function Collided(s: State, id: Id): State {
    if |s.collisions| < TRIED_COLLISION_SIZE then s.(collisions := s.collisions + {id}) else s
  }

  ghost function Good(p: Params, s: State, a: Service, testBeforeEvict: bool, time: int): (State, bool)
    requires p.Valid() && InvFloating(p, s, {}) && time > 0
  {
    FindKnown(p, s, a);
    match Find(s, a)
    case None => (s.(lastGood := time), false)
    case Some(id) =>
      var s1 := Recorded(s, id, time);
      RecordedKeeps(p, s, id, time);
      if s1.mapInfo[id].inTried || s1.mapInfo[id].refCount <= 0 then (s1, false)
      else if testBeforeEvict && p.TriedSlot(a) in s1.vvTried then (Collided(s1, id), false)
      else
        MakeTriedKeeps(p, s1, id);
        (MakeTried(p, s1, id), true)
  }

  lemma MoveKeeps(p: Params, s: State, id: Id)
    requires p.Valid() && InvFloating(p, s, {}) && id in s.mapInfo && !s.mapInfo[id].inTried
             && s.mapInfo[id].lastSuccess != 0
    ensures Movable(p, s, id)
    ensures var s' := MakeTried(p, s, id); InvFloating(p, s', {}) && Evolves(s, s') && s'.collisions == s.collisions
  {
    hide InvFloating, MakeTried, Movable;
    MakeTriedKeeps(p, s, id);
    MakeTriedFrame(p, s, id);
  }

  lemma RecordedCollisions(p: Params, s: State, id: Id, time: int)
    requires CollisionsOk(p, s) && id in s.mapInfo
    ensures CollisionsOk(p, Recorded(s, id, time))
  {
  }

  lemma CollidedKeeps(p: Params, s: State, id: Id)
    requires Inv(p, s) && id in s.mapInfo && p.TriedSlot(s.mapInfo[id].addr) in s.vvTried
    ensures Inv(p, Collided(s, id)) && Evolves(s, Collided(s, id))
  {
    hide AddrOk, RandomOk, TriedOk, NewOk, RefsOk, CountsOk, EntriesPlaced;
  }

  lemma GoodKeeps(p: Params, s: State, a: Service, testBeforeEvict: bool, time: int)
    requires p.Valid() && Inv(p, s) && time > 0
    ensures var s' := Good(p, s, a, testBeforeEvict, time).0;
            Inv(p, s') && Evolves(s, s') && (!testBeforeEvict ==> s'.collisions == s.collisions)
  {
    hide InvFloating, MakeTried, Movable, Evolves, CollisionsOk;
    FindKnown(p, s, a);
    var s' := Good(p, s, a, testBeforeEvict, time).0;
    if Find(s, a).None? {
      LastGoodKeeps(p, s, time);
    } else {
      var id := Find(s, a).value;
      var s1 := Recorded(s, id, time);
      RecordedKeeps(p, s, id, time);
      RecordedCollisions(p, s, id, time);
      if s1.mapInfo[id].inTried || s1.mapInfo[id].refCount <= 0 {
      } else if testBeforeEvict && p.TriedSlot(a) in s1.vvTried {
        CollidedKeeps(p, s1, id);
        EvolvesTwice(s, s1, s');
      } else {
        MoveKeeps(p, s1, id);
        CollisionsFollow(p, s1, s');
        EvolvesTwice(s, s1, s');
      }
    }
  }

  /** What Good does to the tried table: an entry of the new table takes its slot, unless it was to be tested
      against an occupant; otherwise nothing moves. */
  lemma GoodMoves(p: Params, s: State, a: Service, testBeforeEvict: bool, time: int)
    requires p.Valid() && InvFloating(p, s, {}) && time > 0
    ensures var (s', moved) := Good(p, s, a, testBeforeEvict, time);
            && (moved <==> a in s.mapAddr && s.mapAddr[a] in s.mapInfo && !s.mapInfo[s.mapAddr[a]].inTried
                           && (!testBeforeEvict || p.TriedSlot(a) !in s.vvTried))
            && s'.vvTried == (if moved then s.vvTried[p.TriedSlot(a) := s.mapAddr[a]] else s.vvTried)
  {
    hide InvFloating, MakeTried, Movable, NewTableOnly;
    FindKnown(p, s, a);
    if Find(s, a).Some? {
      var id := Find(s, a).value;
      RecordedKeeps(p, s, id, time);
      var s1 := Recorded(s, id, time);
      if !s1.mapInfo[id].inTried {
        InNewTable(p, s1, id);
        MakeTriedFrame(p, s1, id);
      }
    }
  }

  lemma InNewTable(p: Params, s: State, id: Id)
    requires InvFloating(p, s, {}) && id in s.mapInfo && !s.mapInfo[id].inTried
    ensures s.mapInfo[id].refCount > 0
  {
  }

  lemma LastGoodKeeps(p: Params, s: State, time: int)
    requires Inv(p, s)
    ensures Inv(p, s.(lastGood := time)) && Evolves(s, s.(lastGood := time))
  {
    hide AddrOk, RandomOk, TriedOk, NewOk, RefsOk, CountsOk, EntriesPlaced, IdsOk;
  }

  // ---------- Attempt, Connected, SetServices ----------

  function Attempted(info: Info, countFailure: bool, time: int, lastGood: int): Info {
    var tried := info.(lastTry := time);
    if countFailure && info.lastCountAttempt < lastGood
    then tried.(lastCountAttempt := time, attempts := info.attempts + 1)
    else tried
  }

  function Attempt(s: State, a: Service, countFailure: bool, time: int): State {
    match Find(s, a)
    case None => s
    case Some(id) => WithInfo(s, id, Attempted(s.mapInfo[id], countFailure, time, s.lastGood))
  }

  function Connected(s: State, a: Service, time: int): State {
    match Find(s, a)
    case None => s
    case Some(id) =>
      if time - s.mapInfo[id].time > 20 * MINUTE then WithInfo(s, id, s.mapInfo[id].(time := time)) else s
  }

  function SetServices(s: State, a: Service, services: bv64): State {
    match Find(s, a)
    case None => s
    case Some(id) => WithInfo(s, id, s.mapInfo[id].(services := services))
  }

  lemma UpdateKeeps(p: Params, s: State, id: Id, info: Info)
    requires Inv(p, s) && id in s.mapInfo
    requires var was := s.mapInfo[id];
             && info.addr == was.addr && info.randomPos == was.randomPos
             && info.inTried == was.inTried && info.refCount == was.refCount
             && info.lastSuccess == was.lastSuccess && info.lastTry >= 0
    ensures Inv(p, WithInfo(s, id, info)) && Evolves(s, WithInfo(s, id, info))
  {
    hide AddrOk, RandomOk, TriedOk, NewOk, RefsOk, CountsOk, IdsOk;
    Touched(p, s, {}, id, info);
  }

  lemma SmallUpdatesKeep(p: Params, s: State, a: Service, countFailure: bool, time: int, services: bv64)
    requires Inv(p, s) && time >= 0
    ensures Inv(p, Attempt(s, a, countFailure, time)) && Evolves(s, Attempt(s, a, countFailure, time))
    ensures Inv(p, Connected(s, a, time)) && Evolves(s, Connected(s, a, time))
    ensures Inv(p, SetServices(s, a, services)) && Evolves(s, SetServices(s, a, services))
  {
    hide InvFloating, CollisionsOk, Evolves;
    FindKnown(p, s, a);
    SameEvolves(s);
    if Find(s, a).Some? {
      var id := Find(s, a).value;
      LastTryRange(p, s, id);
      UpdateKeeps(p, s, id, Attempted(s.mapInfo[id], countFailure, time, s.lastGood));
      UpdateKeeps(p, s, id, s.mapInfo[id].(time := time));
      UpdateKeeps(p, s, id, s.mapInfo[id].(services := services));
    }
  }

  lemma LastTryRange(p: Params, s: State, id: Id)
    requires InvFloating(p, s, {}) && id in s.mapInfo
    ensures s.mapInfo[id].lastTry >= 0
  {
  }

  // ---------- tried-table collisions ----------

  /** Whether a pending collision is settled now, and whether the newcomer then moves in. */
  datatype Decision = Keep | Forget | Replace

  function Decide(p: Params, s: State, id: Id, now: int): Decision {
    if id !in s.mapInfo || !p.valid(s.mapInfo[id].addr) then Forget else
      var slot := p.TriedSlot(s.mapInfo[id].addr);
      if slot !in s.vvTried || s.vvTried[slot] !in s.mapInfo then Replace else
        var occupant := s.mapInfo[s.vvTried[slot]];
        if now - occupant.lastSuccess < 4 * HOUR then Forget
        else if now - occupant.lastTry < 4 * HOUR then
          if now - occupant.lastTry > 60 then Replace else Keep
        else if now - s.mapInfo[id].lastSuccess > 40 * MINUTE then Replace
        else Keep
  }

  ghost function ResolveOne(p: Params, s: State, id: Id, now: int): State
    requires p.Valid() && InvFloating(p, s, {}) && now > 0
  {
    match Decide(p, s, id, now)
    case Keep => s
    case Forget => s.(collisions := s.collisions - {id})
    case Replace =>
      if id !in s.mapInfo then s else
        var s' := Good(p, s, s.mapInfo[id].addr, false, now).0;
        s'.(collisions := s'.collisions - {id})
  }

  lemma ForgetKeeps(p: Params, s: State, id: Id)
    requires Inv(p, s)
    ensures var s' := s.(collisions := s.collisions - {id}); Inv(p, s') && Evolves(s, s')
  {
    hide AddrOk, RandomOk, TriedOk, NewOk, RefsOk, CountsOk, EntriesPlaced, IdsOk;
  }

  lemma ResolveOneKeeps(p: Params, s: State, id: Id, now: int)
    requires p.Valid() && Inv(p, s) && now > 0
    ensures var s' := ResolveOne(p, s, id, now); Inv(p, s') && Evolves(s, s')
  {
    hide InvFloating, CollisionsOk, Good, Evolves;
    SameEvolves(s);
    match Decide(p, s, id, now)
    case Keep =>
    case Forget => ForgetKeeps(p, s, id);
    case Replace =>
      if id in s.mapInfo {
        var a := s.mapInfo[id].addr;
        GoodKeeps(p, s, a, false, now);
        var s' := Good(p, s, a, false, now).0;
        ForgetKeeps(p, s', id);
        EvolvesTwice(s, s', s'.(collisions := s'.collisions - {id}));
      }
  }

  lemma {:induction false} HasLeast(ids: set<Id>, k: Id)
    requires k in ids
    ensures exists m :: m in ids && forall x :: x in ids ==> m <= x
    decreases k
  {
    if x :| x in ids && x < k {
      HasLeast(ids, x);
    }
  }

  /** std::set iteration visits the ids in ascending order. */
  ghost function Least(ids: set<Id>): (m: Id)
    requires ids != {}
    ensures m in ids && forall x :: x in ids ==> m <= x
  {
    var k :| k in ids;
    HasLeast(ids, k);
    var m :| m in ids && forall x :: x in ids ==> m <= x;
    m
  }

  /** The clock is read once for every collision. */
  ghost predicate Running(clock: Id -> int) {
    forall id :: clock(id) > 0
  }

  ghost function ResolveAll(p: Params, s: State, todo: set<Id>, clock: Id -> int): State
    requires p.Valid() && Inv(p, s) && Running(clock)
    decreases |todo|
  {
    hide InvFloating, CollisionsOk, ResolveOne, Evolves;
    if todo == {} then s else
      var id := Least(todo);
      ResolveOneKeeps(p, s, id, clock(id));
      ResolveAll(p, ResolveOne(p, s, id, clock(id)), todo - {id}, clock)
  }

  ghost function ResolveCollisions(p: Params, s: State, clock: Id -> int): State
    requires p.Valid() && Inv(p, s) && Running(clock)
  {
    ResolveAll(p, s, s.collisions, clock)
  }

  /** One round of the loop over the collisions. */
  lemma ResolveNext(p: Params, s: State, todo: set<Id>, clock: Id -> int, id: Id)
    requires p.Valid() && Inv(p, s) && Running(clock) && id in todo && forall x :: x in todo ==> id <= x
    ensures var s' := ResolveOne(p, s, id, clock(id));
            Inv(p, s') && ResolveAll(p, s, todo, clock) == ResolveAll(p, s', todo - {id}, clock)
  {
    hide InvFloating, CollisionsOk, ResolveOne, Evolves;
    ResolveOneKeeps(p, s, id, clock(id));
    assert id == Least(todo);
  }

  lemma {:induction false} ResolveAllKeeps(p: Params, s: State, todo: set<Id>, clock: Id -> int)
    requires p.Valid() && Inv(p, s) && Running(clock)
    ensures var s' := ResolveAll(p, s, todo, clock); Inv(p, s') && Evolves(s, s')
    decreases |todo|
  {
    hide InvFloating, CollisionsOk, Evolves, ResolveOne;
    if todo == {} {
      SameEvolves(s);
    } else {
      var id := Least(todo);
      ResolveOneKeeps(p, s, id, clock(id));
      var s1 := ResolveOne(p, s, id, clock(id));
      ResolveAllKeeps(p, s1, todo - {id}, clock);
      EvolvesTwice(s, s1, ResolveAll(p, s1, todo - {id}, clock));
    }
  }

  /** The tried entry that stands in the way of the collision `pick`. */
  function SelectTriedCollision(p: Params, s: State, pick: Id): (State, Option<Info>)
    requires pick in s.collisions && pick in s.mapInfo ==> HasOccupant(p, s, pick)
  {
    if pick !in s.collisions then (s, None)
    else if pick !in s.mapInfo then (s.(collisions := s.collisions - {pick}), None)
    else (s, Some(s.mapInfo[s.vvTried[p.TriedSlot(s.mapInfo[pick].addr)]]))
  }

  predicate HasOccupant(p: Params, s: State, id: Id)
    requires id in s.mapInfo
  {
    var slot := p.TriedSlot(s.mapInfo[id].addr);
    slot in s.vvTried && s.vvTried[slot] in s.mapInfo
  }

  /** A pending collision whose id still exists always finds a real tried entry at its slot:
      the table lookup never reads an empty slot and mapInfo[-1] is never created. */
  lemma CollisionFindsOccupant(p: Params, s: State, pick: Id)
    requires Inv(p, s)
    ensures pick in s.collisions && pick in s.mapInfo ==> HasOccupant(p, s, pick)
    ensures var (s', found) := SelectTriedCollision(p, s, pick);
            && Inv(p, s') && Evolves(s, s')
            && (found.Some? ==>
                  found.value.inTried && p.TriedSlot(found.value.addr) == p.TriedSlot(s.mapInfo[pick].addr))
  {
    hide AddrOk, RandomOk, NewOk, RefsOk, CountsOk, EntriesPlaced;
    if pick in s.collisions {
      ForgetKeeps(p, s, pick);
    }
  }

  // ---------- GetAddr ----------

  function NodeLimit(size: nat, maxAddresses: nat, maxPct: nat): nat {
    var byPct := if maxPct != 0 then maxPct * size / 100 else size;
    if maxAddresses != 0 && maxAddresses < byPct then maxAddresses else byPct
  }

  /** A random position from n on. */
  function Draw(size: nat, n: nat, pick: nat): (j: nat)
    requires n < size
    ensures n <= j < size
  {
    pick % (size - n) + n
  }

  function Collect(s: State, n: nat, found: seq<Id>, wanted: Service -> bool, now: int): seq<Id>
    requires n < |s.vRandom|
  {
    var id := s.vRandom[n];
    if id in s.mapInfo && wanted(s.mapInfo[id].addr) && !IsTerrible(s.mapInfo[id], now) then found + [id] else found
  }

  /** Shuffles the random order from position n on and collects the entries of good quality;
      `picks` are the random draws and `wanted` is the optional network filter. */
  ghost function GetAddrFrom(p: Params, s: State, n: nat, found: seq<Id>, limit: nat, wanted: Service -> bool,
                             now: int, picks: nat -> nat): (State, seq<Id>)
    requires InvFloating(p, s, {})
    decreases |s.vRandom| - n
  {
    hide InvFloating, SwapRandom, Draw, Collect;
    if n >= |s.vRandom| || |found| >= limit then (s, found) else
      var j := Draw(|s.vRandom|, n, picks(n));
      RandomOrder(p, s);
      SwapRandomKeeps(p, s, {}, n, j);
      SwapFields(s, n, j);
      var s' := SwapRandom(s, n, j);
      GetAddrFrom(p, s', n + 1, Collect(s', n, found, wanted, now), limit, wanted, now, picks)
  }

  /** Distinct entries, at most `limit` of them, none terrible and all wanted. */
  predicate Selection(s: State, ids: seq<Id>, limit: nat, wanted: Service -> bool, now: int) {
    && |ids| <= limit
    && (forall i, j :: 0 <= i < j < |ids| ==> ids[i] != ids[j])
    && (forall i :: 0 <= i < |ids| ==>
          ids[i] in s.mapInfo && wanted(s.mapInfo[ids[i]].addr) && !IsTerrible(s.mapInfo[ids[i]], now))
  }

  /** The ids chosen so far come from the settled part of the order. */
  predicate Chosen(s: State, n: nat, found: seq<Id>, limit: nat, wanted: Service -> bool, now: int) {
    && Selection(s, found, limit, wanted, now)
    && (forall i :: 0 <= i < |found| ==> s.mapInfo[found[i]].randomPos < n)
  }

  lemma ChosenStep(s: State, n: nat, j: nat, found: seq<Id>, limit: nat, wanted: Service -> bool, now: int)
    requires RandomOk(s.mapInfo, s.vRandom) && n <= j < |s.vRandom| && |found| < limit
    requires Chosen(s, n, found, limit, wanted, now)
    ensures |SwapRandom(s, n, j).vRandom| == |s.vRandom|
    ensures Chosen(SwapRandom(s, n, j), n + 1, Collect(SwapRandom(s, n, j), n, found, wanted, now), limit, wanted, now)
  {
    hide SwapRandom, IsTerrible, Collect, Chosen;
    SwapRandomOrder(s, n, j);
    SwapSettled(s, n, j);
    ChosenSwap(s, n, j, found, limit, wanted, now);
    ChosenCollect(SwapRandom(s, n, j), n, found, limit, wanted, now);
  }

  /** What is chosen stays chosen when later places are swapped. */
  lemma ChosenSwap(s: State, n: nat, j: nat, found: seq<Id>, limit: nat, wanted: Service -> bool, now: int)
    requires RandomOk(s.mapInfo, s.vRandom) && n <= j < |s.vRandom| && Chosen(s, n, found, limit, wanted, now)
    ensures Chosen(SwapRandom(s, n, j), n, found, limit, wanted, now)
  {
    hide SwapRandom, IsTerrible;
    SwapSettled(s, n, j);
    var s' := SwapRandom(s, n, j);
    forall i | 0 <= i < |found|
      ensures found[i] in s'.mapInfo && s'.mapInfo[found[i]].randomPos < n
      ensures wanted(s'.mapInfo[found[i]].addr) && !IsTerrible(s'.mapInfo[found[i]], now)
    {
      SwapQuality(s, n, j, found[i], now);
    }
  }

  lemma ChosenCollect(s: State, n: nat, found: seq<Id>, limit: nat, wanted: Service -> bool, now: int)
    requires RandomOk(s.mapInfo, s.vRandom) && n < |s.vRandom| && |found| < limit
             && Chosen(s, n, found, limit, wanted, now)
    ensures Chosen(s, n + 1, Collect(s, n, found, wanted, now), limit, wanted, now)
  {
    hide IsTerrible;
    assert s.mapInfo[s.vRandom[n]].randomPos == n;
    hide RandomOk;
  }

  lemma SwapQuality(s: State, n: nat, j: nat, id: Id, now: int)
    requires RandomOk(s.mapInfo, s.vRandom) && n < |s.vRandom| && j < |s.vRandom| && id in s.mapInfo
    ensures var s' := SwapRandom(s, n, j);
            id in s'.mapInfo && s'.mapInfo[id].addr == s.mapInfo[id].addr
            && (IsTerrible(s'.mapInfo[id], now) <==> IsTerrible(s.mapInfo[id], now))
  {
    hide SwapRandom;
    SwapFrame(s, n, j);
    assert SameEntry(s, SwapRandom(s, n, j), id);
  }

  lemma SwapSettled(s: State, n: nat, j: nat)
    requires RandomOk(s.mapInfo, s.vRandom) && n <= j < |s.vRandom|
    ensures var s' := SwapRandom(s, n, j);
            && |s'.vRandom| == |s.vRandom|
            && forall id :: id in s.mapInfo && s.mapInfo[id].randomPos < n ==>
                 id in s'.mapInfo && s'.mapInfo[id].randomPos == s.mapInfo[id].randomPos
  {
    if n != j {
      var a, b := s.vRandom[n], s.vRandom[j];
      assert s.mapInfo[a].randomPos == n && s.mapInfo[b].randomPos == j;
      hide RandomOk;
    }
  }

  /** GetAddr keeps every index in step and returns at most `limit` distinct entries, none of
      them terrible and all of the wanted network. */
  lemma {:induction false} GetAddrKeeps(p: Params, s: State, n: nat, found: seq<Id>, limit: nat,
                                        wanted: Service -> bool, now: int, picks: nat -> nat)
    requires InvFloating(p, s, {}) && Chosen(s, n, found, limit, wanted, now)
    ensures var (s', ids) := GetAddrFrom(p, s, n, found, limit, wanted, now, picks);
            && InvFloating(p, s', {}) && NewTableOnly(s, s')
            && Selection(s', ids, limit, wanted, now)
    decreases |s.vRandom| - n
  {
    hide InvFloating, SwapRandom, Chosen, Selection, Collect, Draw;
    if n >= |s.vRandom| || |found| >= limit {
      ChosenSelected(s, n, found, limit, wanted, now);
    } else {
      var j := Draw(|s.vRandom|, n, picks(n));
      RandomOrder(p, s);
      SwapRandomKeeps(p, s, {}, n, j);
      SwapFields(s, n, j);
      ChosenStep(s, n, j, found, limit, wanted, now);
      var s' := SwapRandom(s, n, j);
      var found' := Collect(s', n, found, wanted, now);
      GetAddrKeeps(p, s', n + 1, found', limit, wanted, now, picks);
      SwapNewTableOnly(s, n, j);
      var (end, ids) := GetAddrFrom(p, s', n + 1, found', limit, wanted, now, picks);
      NewTableOnlyTwice(s, s', end);
    }
  }

  lemma ChosenSelected(s: State, n: nat, found: seq<Id>, limit: nat, wanted: Service -> bool, now: int)
    requires Chosen(s, n, found, limit, wanted, now)
    ensures Selection(s, found, limit, wanted, now)
  {
  }

  lemma RandomOrder(p: Params, s: State)
    requires InvFloating(p, s, {})
    ensures RandomOk(s.mapInfo, s.vRandom)
  {
  }

  lemma SwapNewTableOnly(s: State, i: nat, j: nat)
    requires i < |s.vRandom| && j < |s.vRandom| && s.vRandom[i] in s.mapInfo && s.vRandom[j] in s.mapInfo
    ensures NewTableOnly(s, SwapRandom(s, i, j))
  {
    hide SwapRandom;
    SwapFrame(s, i, j);
    SwapFields(s, i, j);
    var s' := SwapRandom(s, i, j);
    forall id | id in s'.mapInfo ensures id in s.mapInfo && s'.mapInfo[id].addr == s.mapInfo[id].addr {
      assert SameEntry(s, s', id);
    }
  }

  predicate Fit(s: State, id: Id, wanted: Service -> bool, now: int) {
    id in s.mapInfo && wanted(s.mapInfo[id].addr) && !IsTerrible(s.mapInfo[id], now)
  }

  /** Every fit entry among the first n of the random order was found. */
  predicate FoundAll(s: State, n: nat, found: seq<Id>, wanted: Service -> bool, now: int) {
    forall i :: 0 <= i < n && i < |s.vRandom| && Fit(s, s.vRandom[i], wanted, now) ==> s.vRandom[i] in found
  }

  lemma FoundStep(s: State, n: nat, j: nat, found: seq<Id>, wanted: Service -> bool, now: int)
    requires RandomOk(s.mapInfo, s.vRandom) && n <= j < |s.vRandom| && FoundAll(s, n, found, wanted, now)
    ensures |SwapRandom(s, n, j).vRandom| == |s.vRandom|
    ensures FoundAll(SwapRandom(s, n, j), n + 1, Collect(SwapRandom(s, n, j), n, found, wanted, now), wanted, now)
  {
    hide IsTerrible;
    var s' := SwapRandom(s, n, j);
    forall i | 0 <= i < n && Fit(s', s'.vRandom[i], wanted, now) ensures s'.vRandom[i] in found {
      assert s'.vRandom[i] == s.vRandom[i];
      SwapQuality(s, n, j, s.vRandom[i], now);
    }
  }

  /** GetAddr stops short of `limit` only when it has returned every fit entry. */
  lemma {:induction false} GetAddrComplete(p: Params, s: State, n: nat, found: seq<Id>, limit: nat,
                                           wanted: Service -> bool, now: int, picks: nat -> nat)
    requires InvFloating(p, s, {}) && FoundAll(s, n, found, wanted, now)
    ensures var (s', ids) := GetAddrFrom(p, s, n, found, limit, wanted, now, picks);
            |ids| >= limit || forall id :: Fit(s', id, wanted, now) ==> id in ids
    decreases |s.vRandom| - n
  {
    hide InvFloating, SwapRandom, FoundAll, Collect, Draw, IsTerrible;
    RandomOrder(p, s);
    if n >= |s.vRandom| {
      FoundEverything(s, n, found, wanted, now);
    } else if |found| < limit {
      var j := Draw(|s.vRandom|, n, picks(n));
      SwapRandomKeeps(p, s, {}, n, j);
      SwapFields(s, n, j);
      FoundStep(s, n, j, found, wanted, now);
      var s' := SwapRandom(s, n, j);
      GetAddrComplete(p, s', n + 1, Collect(s', n, found, wanted, now), limit, wanted, now, picks);
    }
  }

  lemma FoundEverything(s: State, n: nat, found: seq<Id>, wanted: Service -> bool, now: int)
    requires RandomOk(s.mapInfo, s.vRandom) && n >= |s.vRandom| && FoundAll(s, n, found, wanted, now)
    ensures forall id :: Fit(s, id, wanted, now) ==> id in found
  {
    hide IsTerrible;
    forall id | Fit(s, id, wanted, now) ensures id in found {
      assert s.vRandom[s.mapInfo[id].randomPos] == id;
    }
  }

  // ---------- runs ----------

  datatype Op =
    | Add(addrs: seq<Address>, source: Source, penalty: int, times: nat -> Times, draws: nat -> nat)
    | MarkGood(service: Service, time: int)
    | MarkAttempt(service: Service, countFailure: bool, time: int)
    | MarkConnected(service: Service, time: int)
    | MarkServices(service: Service, services: bv64)
    | Resolve(clock: Id -> int)
    | SelectCollision(pick: Id)
    | GetAddr(maxAddresses: nat, maxPct: nat, wanted: Service -> bool, now: int, picks: nat -> nat)

  /** Clocks show positive times. */
  ghost predicate Timely(o: Op) {
    match o
    case MarkGood(_, time) => time > 0
    case MarkAttempt(_, _, time) => time >= 0
    case MarkConnected(_, time) => time >= 0
    case Resolve(clock) => Running(clock)
    case _ => true
  }

  ghost predicate AllTimely(ops: seq<Op>) {
    ops != [] ==> Timely(ops[0]) && AllTimely(ops[1..])
  }

  /** Add_ after its first n addresses. */
  ghost function AddAll(p: Params, s: State, addrs: seq<Address>, n: nat, source: Source, penalty: int,
                        times: nat -> Times, draws: nat -> nat): (s': State)
    requires p.Valid() && Inv(p, s) && n <= |addrs|
    ensures Inv(p, s') && Evolves(s, s')
  {
    if n == 0 then SameEvolves(s); s else
      var s1 := AddAll(p, s, addrs, n - 1, source, penalty, times, draws);
      AddSingleKeeps(p, s1, addrs[n - 1], source, penalty, times(n - 1), draws(n - 1));
      var s2 := AddSingle(p, s1, addrs[n - 1], source, penalty, times(n - 1), draws(n - 1)).0;
      EvolvesTwice(s, s1, s2);
      s2
  }

  /** How many of the first n addresses Add_ inserts. */
  ghost function AddCount(p: Params, s: State, addrs: seq<Address>, n: nat, source: Source, penalty: int,
                          times: nat -> Times, draws: nat -> nat): nat
    requires p.Valid() && Inv(p, s) && n <= |addrs|
  {
    if n == 0 then 0 else
      var s1 := AddAll(p, s, addrs, n - 1, source, penalty, times, draws);
      var last := AddSingle(p, s1, addrs[n - 1], source, penalty, times(n - 1), draws(n - 1)).1;
      AddCount(p, s, addrs, n - 1, source, penalty, times, draws) + (if last then 1 else 0)
  }

  ghost function Step(p: Params, s: State, o: Op): State
    requires p.Valid() && Inv(p, s) && Timely(o)
  {
    hide InvFloating, CollisionsOk;
    match o
    case Add(addrs, source, penalty, times, draws) => AddAll(p, s, addrs, |addrs|, source, penalty, times, draws)
    case MarkGood(a, time) => Good(p, s, a, true, time).0
    case MarkAttempt(a, countFailure, time) => Attempt(s, a, countFailure, time)
    case MarkConnected(a, time) => Connected(s, a, time)
    case MarkServices(a, services) => SetServices(s, a, services)
    case Resolve(clock) => ResolveCollisions(p, s, clock)
    case SelectCollision(pick) => CollisionFindsOccupant(p, s, pick); SelectTriedCollision(p, s, pick).0
    case GetAddr(maxAddresses, maxPct, wanted, now, picks) =>
      GetAddrFrom(p, s, 0, [], NodeLimit(|s.vRandom|, maxAddresses, maxPct), wanted, now, picks).0
  }

  lemma StepKeeps(p: Params, s: State, o: Op)
    requires p.Valid() && Inv(p, s) && Timely(o)
    ensures Inv(p, Step(p, s, o)) && Evolves(s, Step(p, s, o))
  {
    hide InvFloating, CollisionsOk, Evolves, Good, Attempt, Connected, SetServices, ResolveAll, SelectTriedCollision,
         GetAddrFrom, AddAll;
    match o
    case Add(addrs, source, penalty, times, draws) =>
    case MarkGood(a, time) => GoodKeeps(p, s, a, true, time);
    case MarkAttempt(a, countFailure, time) => SmallUpdatesKeep(p, s, a, countFailure, time, 0);
    case MarkConnected(a, time) => SmallUpdatesKeep(p, s, a, false, time, 0);
    case MarkServices(a, services) => SmallUpdatesKeep(p, s, a, false, 0, services);
    case Resolve(clock) => ResolveAllKeeps(p, s, s.collisions, clock);
    case SelectCollision(pick) => CollisionFindsOccupant(p, s, pick);
    case GetAddr(maxAddresses, maxPct, wanted, now, picks) =>
      var limit := NodeLimit(|s.vRandom|, maxAddresses, maxPct);
      GetAddrKeeps(p, s, 0, [], limit, wanted, now, picks);
      var s' := GetAddrFrom(p, s, 0, [], limit, wanted, now, picks).0;
      NewTableOnlyEvolves(s, s');
      CollisionsFollow(p, s, s');
  }

  ghost function Run(p: Params, s: State, ops: seq<Op>): State
    requires p.Valid() && Inv(p, s) && AllTimely(ops)
    decreases |ops|
  {
    hide InvFloating, CollisionsOk, Step, Evolves, Timely;
    if ops == [] then s else
      StepKeeps(p, s, ops[0]);
      Run(p, Step(p, s, ops[0]), ops[1..])
  }

  lemma InitOk(p: Params)
    ensures Inv(p, Init())
  {
    hide InvFloating;
    EmptyOk(p);
  }

  /** Main theorem. Over every run the six indexes and all counters agree, ids are never reused,
      an id keeps its address, and a tried slot once occupied stays occupied. */
  lemma {:induction false} RunKeeps(p: Params, s: State, ops: seq<Op>)
    requires p.Valid() && Inv(p, s) && AllTimely(ops)
    ensures Inv(p, Run(p, s, ops)) && Evolves(s, Run(p, s, ops))
    decreases |ops|
  {
    hide InvFloating, CollisionsOk, Evolves, Step, Timely;
    if ops == [] {
      SameEvolves(s);
    } else {
      StepKeeps(p, s, ops[0]);
      var s1 := Step(p, s, ops[0]);
      RunKeeps(p, s1, ops[1..]);
      EvolvesTwice(s, s1, Run(p, s1, ops[1..]));
    }
  }
}
