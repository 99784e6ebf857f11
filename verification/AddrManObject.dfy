/** The address manager as the object it is in addrman.cpp: maps, a vector, counters and two
    bucket tables of fixed size that its methods update in place. Every method is proved to do
    what the function of the same name in AddrMan.dfy or AddrManOps.dfy says. */
module AddrManObject {
  import opened Options
  import opened AddrMan
  import opened AddrManOps
  import opened Arithmetic
  import opened Limbs

  /** A bucket cell: an id, or -1 when it is empty. */
  type Cell = x: int | -1 <= x

  ghost function TableOf(cells: array2<Cell>): Table
    reads cells
  {
    map b: nat, i: nat | b < cells.Length0 && i < cells.Length1 && cells[b, i] != -1 :: Slot(b, i) := cells[b, i]
  }

  predicate InTable(cells: array2<Cell>, slot: Slot) {
    slot.bucket < cells.Length0 && slot.pos < cells.Length1
  }

  method Put(cells: array2<Cell>, slot: Slot, id: Id)
    requires InTable(cells, slot)
    modifies cells
    ensures TableOf(cells) == old(TableOf(cells))[slot := id]
  {
    cells[slot.bucket, slot.pos] := id;
  }

  method Remove(cells: array2<Cell>, slot: Slot)
    requires InTable(cells, slot)
    modifies cells
    ensures TableOf(cells) == old(TableOf(cells)) - {slot}
  {
    cells[slot.bucket, slot.pos] := -1;
  }

  method CellAt(cells: array2<Cell>, slot: Slot) returns (cell: Cell)
    requires InTable(cells, slot)
    ensures cell == -1 <==> slot !in TableOf(cells)
    ensures slot in TableOf(cells) ==> cell == TableOf(cells)[slot]
  {
    cell := cells[slot.bucket, slot.pos];
  }

  /** The counters, moved by an amount that does not depend on the entries. */
  function Shift(s: State, net: Network, isNew: int, tried: int): State {
    s.(nNew := s.nNew + isNew, nTried := s.nTried + tried, counts := Bump(s.counts, net, isNew, tried))
  }

  lemma BumpCommutes(counts: Counts, net: Network, isNew: int, tried: int, net': Network, isNew': int, tried': int)
    ensures Bump(Bump(counts, net, isNew, tried), net', isNew', tried') ==
            Bump(Bump(counts, net', isNew', tried'), net, isNew, tried)
  {
  }

  lemma ShiftTwice(s: State, net: Network, isNew: int, tried: int, isNew': int, tried': int)
    ensures Shift(Shift(s, net, isNew, tried), net, isNew', tried') == Shift(s, net, isNew + isNew', tried + tried')
  {
  }

  lemma SwapShift(s: State, i: nat, j: nat, net: Network, isNew: int, tried: int)
    requires i < |s.vRandom| && j < |s.vRandom| && s.vRandom[i] in s.mapInfo && s.vRandom[j] in s.mapInfo
    ensures SwapRandom(Shift(s, net, isNew, tried), i, j) == Shift(SwapRandom(s, i, j), net, isNew, tried)
  {
    hide Bump;
  }

  lemma DeleteShift(p: Params, s: State, id: Id, net: Network, isNew: int, tried: int)
    requires Deletable(s, id)
    ensures Deletable(Shift(s, net, isNew, tried), id)
    ensures Delete(p, Shift(s, net, isNew, tried), id) == Shift(Delete(p, s, id), net, isNew, tried)
  {
    hide Bump, SwapRandom;
    var last := |s.vRandom| - 1;
    SwapShift(s, s.mapInfo[id].randomPos, last, net, isNew, tried);
    SwapFields(s, s.mapInfo[id].randomPos, last);
    SwapFrame(s, s.mapInfo[id].randomPos, last);
    BumpCommutes(s.counts, net, isNew, tried, p.network(s.mapInfo[id].addr), -1, 0);
  }

  lemma ClearNewShift(p: Params, s: State, slot: Slot, net: Network, isNew: int, tried: int)
    requires Clearable(s, slot)
    ensures Clearable(Shift(s, net, isNew, tried), slot)
    ensures ClearNew(p, Shift(s, net, isNew, tried), slot) == Shift(ClearNew(p, s, slot), net, isNew, tried)
  {
    hide Delete, Bump;
    if slot in s.vvNew {
      var id := s.vvNew[slot];
      var s1 := DropRef(s, slot);
      assert DropRef(Shift(s, net, isNew, tried), slot) == Shift(s1, net, isNew, tried);
      if s1.mapInfo[id].refCount == 0 {
        DeleteShift(p, s1, id, net, isNew, tried);
      }
    }
  }

  lemma FromTriedShift(p: Params, s: State, id: Id, net: Network, isNew: int, tried: int)
    requires id in s.mapInfo
    ensures FromTried(p, Shift(s, net, isNew, tried), id) == Shift(FromTried(p, s, id), net, isNew, tried)
  {
    hide Bump;
    BumpCommutes(s.counts, net, isNew, tried, p.network(s.mapInfo[id].addr), 1, -1);
  }

  function HomeSlot(p: Params, s: State, id: Id): Slot
    requires id in s.mapInfo
  {
    p.NewSlot(s.mapInfo[id].addr, s.mapInfo[id].source)
  }

  /** The occupant of a tried slot can go back to the new table, where it holds no slot yet. */
  predicate EvictReady(p: Params, s: State, slot: Slot) {
    && Evictable(p, s, slot)
    && slot == p.TriedSlot(s.mapInfo[s.vvTried[slot]].addr)
    && var id := s.vvTried[slot];
       var info := ClearNew(p, FromTried(p, s, id), HomeSlot(p, s, id)).mapInfo[id];
       info.refCount == 0 && info.addr == s.mapInfo[id].addr
  }

  lemma CanEvict(p: Params, s: State, floating: set<Id>, slot: Slot)
    requires p.Valid() && InvFloating(p, s, floating) && slot in s.vvTried
    ensures EvictReady(p, s, slot)
  {
    hide InvFloating, ClearNew, Clearable;
    EvictPrepared(p, s, floating, slot);
    TriedEntry(p, s, floating, slot);
    var id := s.vvTried[slot];
    FloatingEntry(p, ClearNew(p, FromTried(p, s, id), HomeSlot(p, s, id)), floating + {id}, id);
  }

  lemma EvictShift(p: Params, s: State, slot: Slot, net: Network, isNew: int, tried: int)
    requires EvictReady(p, s, slot)
    ensures EvictReady(p, Shift(s, net, isNew, tried), slot)
    ensures Evict(p, Shift(s, net, isNew, tried), slot) == Shift(Evict(p, s, slot), net, isNew, tried)
  {
    hide ClearNew, Clearable, FromTried, Bump;
    var id := s.vvTried[slot];
    FromTriedShift(p, s, id, net, isNew, tried);
    ClearNewShift(p, FromTried(p, s, id), HomeSlot(p, s, id), net, isNew, tried);
  }

  /** An entry out of the tried table whose new-table counters are still to come. */
  function HalfOut(p: Params, s: State, id: Id): State
    requires id in s.mapInfo
  {
    var info := s.mapInfo[id];
    WithInfo(s, id, info.(inTried := false)).(
      vvTried := s.vvTried - {p.TriedSlot(info.addr)},
      nTried := s.nTried - 1, counts := Bump(s.counts, p.network(info.addr), 0, -1))
  }

  lemma HalfOutShift(p: Params, s: State, id: Id, to: Slot)
    requires id in s.mapInfo && Clearable(FromTried(p, s, id), to)
    ensures Clearable(HalfOut(p, s, id), to)
    ensures ClearNew(p, FromTried(p, s, id), to) ==
            Shift(ClearNew(p, HalfOut(p, s, id), to), p.network(s.mapInfo[id].addr), 1, 0)
  {
    hide ClearNew, Clearable;
    var net := p.network(s.mapInfo[id].addr);
    ShiftTwice(s, net, 0, -1, 1, 0);
    assert FromTried(p, s, id) == Shift(HalfOut(p, s, id), net, 1, 0);
    ShiftBack(HalfOut(p, s, id), net);
    ClearNewShift(p, FromTried(p, s, id), to, net, -1, 0);
    ClearNewShift(p, HalfOut(p, s, id), to, net, 1, 0);
  }

  lemma ShiftBack(s: State, net: Network)
    requires net in s.counts
    ensures Shift(Shift(s, net, 1, 0), net, -1, 0) == s
  {
  }

  lemma EvictSteps(p: Params, s: State, slot: Slot)
    requires EvictReady(p, s, slot)
    ensures slot in s.vvTried && s.vvTried[slot] in s.mapInfo
    ensures var id := s.vvTried[slot];
            var net, to := p.network(s.mapInfo[id].addr), HomeSlot(p, s, id);
            && slot == p.TriedSlot(s.mapInfo[id].addr) && Clearable(HalfOut(p, s, id), to)
            && var s1 := ClearNew(p, HalfOut(p, s, id), to);
               && id in s1.mapInfo && s1.mapInfo[id].refCount == 0 && p.network(s1.mapInfo[id].addr) == net
               && Evict(p, s, slot) == Shift(AddRef(s1, id, to), net, 1, 0)
  {
    hide ClearNew, Clearable, FromTried, HalfOut, Bump;
    var id := s.vvTried[slot];
    HalfOutShift(p, s, id, HomeSlot(p, s, id));
  }

  // ---------- the bucket scan of MakeTried ----------

  /** Where the scan from bucket `start` looks in its step k. */
  function Visit(p: Params, a: Service, start: nat, k: nat): Slot
    requires p.newBuckets > 0
  {
    p.NewSlotIn(a, (start + k) % p.newBuckets)
  }

  /** The first n visits are done: only slots of this entry were emptied, and its count follows. */
  ghost predicate Scanning(p: Params, s0: State, id: Id, start: nat, n: nat, s: State)
    requires p.newBuckets > 0
  {
    && id in s0.mapInfo && id in s.mapInfo
    && s == WithInfo(s0, id, s0.mapInfo[id].(refCount := s.mapInfo[id].refCount)).(vvNew := s.vvNew)
    && (forall slot :: slot in s.vvNew ==> slot in s0.vvNew && s.vvNew[slot] == s0.vvNew[slot])
    && (forall slot :: slot in s0.vvNew && s0.vvNew[slot] != id ==> slot in s.vvNew)
    && s.mapInfo[id].refCount == |Refs(s.vvNew, id)|
    && (forall k :: 0 <= k < n ==> Visit(p, s0.mapInfo[id].addr, start, k) !in Refs(s.vvNew, id))
  }

  lemma VisitInTable(p: Params, a: Service, start: nat, k: nat)
    requires p.Valid() && p.newBuckets > 0
    ensures Visit(p, a, start, k).bucket < p.newBuckets && Visit(p, a, start, k).pos < p.bucketSize
  {
  }

  lemma ScanStart(p: Params, s: State, id: Id, start: nat)
    requires p.newBuckets > 0 && id in s.mapInfo && RefsOk(s.mapInfo, s.vvNew)
    ensures Scanning(p, s, id, start, 0, s)
  {
    assert s.mapInfo[id := s.mapInfo[id]] == s.mapInfo;
  }

  lemma ScanFacts(p: Params, s0: State, id: Id, start: nat, n: nat, s: State)
    requires p.newBuckets > 0 && Scanning(p, s0, id, start, n, s)
    ensures id in s0.mapInfo && id in s.mapInfo && s.mapInfo[id].addr == s0.mapInfo[id].addr
  {
  }

  lemma ScanMiss(p: Params, s0: State, id: Id, start: nat, n: nat, s: State)
    requires p.newBuckets > 0 && Scanning(p, s0, id, start, n, s)
    requires var slot := Visit(p, s0.mapInfo[id].addr, start, n); slot in s.vvNew ==> s.vvNew[slot] != id
    ensures Scanning(p, s0, id, start, n + 1, s)
  {
    hide Visit;
  }

  lemma ScanHit(p: Params, s0: State, id: Id, start: nat, n: nat, s: State)
    requires p.newBuckets > 0 && Scanning(p, s0, id, start, n, s)
    requires var slot := Visit(p, s0.mapInfo[id].addr, start, n); slot in s.vvNew && s.vvNew[slot] == id
    ensures Scanning(p, s0, id, start, n + 1, DropRef(s, Visit(p, s0.mapInfo[id].addr, start, n)))
  {
    hide Visit;
    var slot := Visit(p, s0.mapInfo[id].addr, start, n);
    var s' := DropRef(s, slot);
    SizeChange(Refs(s.vvNew, id), Refs(s'.vvNew, id), slot);
  }

  lemma VisitsAll(p: Params, a: Service, start: nat, bucket: nat) returns (k: nat)
    requires bucket < p.newBuckets && start < p.newBuckets
    ensures k < p.newBuckets && Visit(p, a, start, k) == p.NewSlotIn(a, bucket)
  {
    k := if start <= bucket then bucket - start else bucket + p.newBuckets - start;
    DivModUnique(start + k, p.newBuckets, if start <= bucket then 0 else 1, bucket);
  }

  /** The scan may stop as soon as the count is zero. */
  lemma ScanDone(p: Params, s0: State, id: Id, start: nat, n: nat, s: State)
    requires start < p.newBuckets && Scanning(p, s0, id, start, n, s)
    requires NewOk(p, s0.mapInfo, s0.vvNew)
    requires n == p.newBuckets || s.mapInfo[id].refCount == 0
    ensures s == ClearRefs(s0, id)
  {
    hide Visit;
    assert Refs(s.vvNew, id) == {} by {
      if slot :| slot in Refs(s.vvNew, id) {
        var k := VisitsAll(p, s0.mapInfo[id].addr, start, slot.bucket);
      }
    }
    forall slot | slot in s.vvNew ensures s.vvNew[slot] != id {
      assert slot !in Refs(s.vvNew, id);
    }
    assert s.vvNew == ClearRefs(s0, id).vvNew;
  }

  lemma TablesConsistent(p: Params, s: State, floating: set<Id>)
    requires InvFloating(p, s, floating)
    ensures NewOk(p, s.mapInfo, s.vvNew) && RefsOk(s.mapInfo, s.vvNew) && TriedOk(p, s.mapInfo, s.vvTried)
  {
  }

  /** An entry put into the tried table whose new-table counters are already gone. */
  function HalfIn(p: Params, s: State, id: Id): State
    requires id in s.mapInfo
  {
    var info := s.mapInfo[id];
    WithInfo(s, id, info.(inTried := true)).(
      vvTried := s.vvTried[p.TriedSlot(info.addr) := id],
      nTried := s.nTried + 1, counts := Bump(s.counts, p.network(info.addr), 0, 1))
  }

  lemma HalfInShift(p: Params, s: State, id: Id)
    requires id in s.mapInfo
    ensures ToTried(p, s, id) == HalfIn(p, Shift(s, p.network(s.mapInfo[id].addr), -1, 0), id)
  {
    hide Bump;
    ShiftTwice(s, p.network(s.mapInfo[id].addr), -1, 0, 0, 1);
  }

  /** MakeTried in the order of the source: the new-table counters go first. */
  lemma MakeTriedSteps(p: Params, s: State, id: Id)
    requires p.Valid() && InvFloating(p, s, {}) && id in s.mapInfo && !s.mapInfo[id].inTried && Movable(p, s, id)
    ensures var s1 := ClearRefs(s, id);
            var net, slot := p.network(s.mapInfo[id].addr), p.TriedSlot(s.mapInfo[id].addr);
            && s1.vvTried == s.vvTried && id in s1.mapInfo && s1.mapInfo[id].addr == s.mapInfo[id].addr
            && (slot in s1.vvTried ==>
                  && EvictReady(p, Shift(s1, net, -1, 0), slot)
                  && var s2 := Evict(p, Shift(s1, net, -1, 0), slot);
                     id in s2.mapInfo && s2.mapInfo[id].addr == s.mapInfo[id].addr
                     && MakeTried(p, s, id) == HalfIn(p, s2, id))
            && (slot !in s1.vvTried ==> MakeTried(p, s, id) == HalfIn(p, Shift(s1, net, -1, 0), id))
  {
    hide InvFloating, Evict, EvictReady, Evictable, HalfIn, ToTried, Bump;
    var s1 := ClearRefs(s, id);
    var net, slot := p.network(s.mapInfo[id].addr), p.TriedSlot(s.mapInfo[id].addr);
    ClearRefsKeeps(p, s, {}, id);
    if slot in s1.vvTried {
      CanEvict(p, s1, {} + {id}, slot);
      EvictShift(p, s1, slot, net, -1, 0);
      EvictFrame(p, s1, {} + {id}, slot);
      assert SameEntry(s1, Evict(p, s1, slot), id);
      HalfInShift(p, Evict(p, s1, slot), id);
    } else {
      HalfInShift(p, s1, id);
    }
  }

  // ---------- the stochastic test of AddSingle ----------

  method Double(n: nat) returns (factor: nat)
    ensures factor == Two(n) && (factor > 1 <==> n > 0)
  {
    factor := 1;
    for i := 0 to n
      invariant factor == Two(i) && (factor > 1 <==> i > 0)
    {
      factor := factor * 2;
    }
  }

  lemma RefCountKnown(p: Params, s: State, id: Id)
    requires InvFloating(p, s, {}) && id in s.mapInfo
    ensures s.mapInfo[id].refCount >= 0
  {
  }

  lemma RecordedEntry(s: State, id: Id, time: int)
    requires id in s.mapInfo
    ensures var s' := Recorded(s, id, time); id in s'.mapInfo && s'.mapInfo[id] == Confirmed(s.mapInfo[id], time)
  {
  }

  lemma CreatedTime(p: Params, s: State, a: Address, source: Source)
    ensures var s' := Create(p, s, a, source); s.nIdCount in s'.mapInfo && s'.mapInfo[s.nIdCount].time == a.time
  {
  }

  lemma DrawStep(p: Params, s: State, n: nat, found: seq<Id>, limit: nat, wanted: Service -> bool, now: int,
                 picks: nat -> nat)
    requires InvFloating(p, s, {}) && n < |s.vRandom| && |found| < limit
    ensures var j := Draw(|s.vRandom|, n, picks(n));
            && s.vRandom[n] in s.mapInfo && s.vRandom[j] in s.mapInfo
            && var s' := SwapRandom(s, n, j);
               && InvFloating(p, s', {}) && |s'.vRandom| == |s.vRandom|
               && GetAddrFrom(p, s, n, found, limit, wanted, now, picks) ==
                  GetAddrFrom(p, s', n + 1, Collect(s', n, found, wanted, now), limit, wanted, now, picks)
  {
    hide InvFloating, SwapRandom, Draw, Collect;
    RandomOrder(p, s);
    SwapRandomKeeps(p, s, {}, n, Draw(|s.vRandom|, n, picks(n)));
    SwapFields(s, n, Draw(|s.vRandom|, n, picks(n)));
  }

  lemma DrawsDone(p: Params, s: State, n: nat, found: seq<Id>, limit: nat, wanted: Service -> bool, now: int,
                  picks: nat -> nat)
    requires InvFloating(p, s, {}) && (n >= |s.vRandom| || |found| >= limit)
    ensures GetAddrFrom(p, s, n, found, limit, wanted, now, picks) == (s, found)
  {
  }

  lemma EmptyTable(cells: array2<Cell>)
    requires forall i, j :: 0 <= i < cells.Length0 && 0 <= j < cells.Length1 ==> cells[i, j] == -1
    ensures TableOf(cells) == map[]
  {
  }

  function AddressOf(info: Info): Address { Address(info.addr, info.time, info.services) }

  /** These are the addresses of these entries. */
  ghost predicate Listed(m: InfoMap, ids: seq<Id>, addresses: seq<Address>) {
    |ids| == |addresses| && forall i :: 0 <= i < |ids| ==> ids[i] in m && addresses[i] == AddressOf(m[ids[i]])
  }

  lemma ListedNone(m: InfoMap)
    ensures Listed(m, [], [])
  {
  }

  lemma ListedSwap(s: State, n: nat, j: nat, ids: seq<Id>, addresses: seq<Address>)
    requires n < |s.vRandom| && j < |s.vRandom| && s.vRandom[n] in s.mapInfo && s.vRandom[j] in s.mapInfo
    requires Listed(s.mapInfo, ids, addresses)
    ensures Listed(AddrMan.SwapRandom(s, n, j).mapInfo, ids, addresses)
  {
    hide AddrMan.SwapRandom;
    SwapFrame(s, n, j);
    forall i | 0 <= i < |ids| ensures SameEntry(s, AddrMan.SwapRandom(s, n, j), ids[i]) {
    }
  }

  class AddrManager {
    const p: Params
    const newCells: array2<Cell>
    const triedCells: array2<Cell>
    var nIdCount: nat
    var mapInfo: InfoMap
    var mapAddr: map<Service, Id>
    var vRandom: seq<Id>
    var nNew: int
    var nTried: int
    var counts: Counts
    var collisions: set<Id>
    var lastGood: int

    ghost predicate Valid() {
      && p.Valid() && newCells != triedCells
      && newCells.Length0 == p.newBuckets && triedCells.Length0 == p.triedBuckets
      && newCells.Length1 == triedCells.Length1 == p.bucketSize
    }

    ghost function Abs(): State
      reads this, newCells, triedCells
    {
      State(nIdCount, mapInfo, mapAddr, vRandom, TableOf(newCells), TableOf(triedCells),
            nNew, nTried, counts, collisions, lastGood)
    }

    constructor (p: Params)
      requires p.Valid()
      ensures Valid() && fresh(newCells) && fresh(triedCells) && this.p == p
      ensures Abs() == Init()
    {
      this.p := p;
      newCells := new Cell[p.newBuckets, p.bucketSize]((i, j) => -1);
      triedCells := new Cell[p.triedBuckets, p.bucketSize]((i, j) => -1);
      nIdCount, mapInfo, mapAddr, vRandom := 0, map[], map[], [];
      nNew, nTried, counts, collisions, lastGood := 0, 0, map[], {}, 1;
      new;
      EmptyTable(newCells);
      EmptyTable(triedCells);
      hide TableOf;
    }

    method Find(a: Service) returns (found: Option<Id>)
      ensures found == AddrMan.Find(Abs(), a)
    {
      if a !in mapAddr {
        return None;
      }
      found := if mapAddr[a] in mapInfo then Some(mapAddr[a]) else None;
    }

    method Count(net: Network, isNew: int, tried: int)
      modifies this`counts
      ensures counts == Bump(old(counts), net, isNew, tried)
    {
      var c := CountAt(counts, net);
      counts := counts[net := AddrMan.Count(c.isNew + isNew, c.tried + tried)];
    }

    method Create(a: Address, source: Source) returns (id: Id)
      requires Valid()
      modifies this
      ensures id == old(nIdCount) && Abs() == AddrMan.Create(p, old(Abs()), a, source)
    {
      hide TableOf, Bump, NewInfo;
      id := nIdCount;
      nIdCount := nIdCount + 1;
      mapInfo := mapInfo[id := NewInfo(a, source, |vRandom|)];
      mapAddr := mapAddr[a.service := id];
      vRandom := vRandom + [id];
      nNew := nNew + 1;
      Count(p.network(a.service), 1, 0);
    }

    method SwapRandom(i: nat, j: nat)
      requires Valid() && i < |vRandom| && j < |vRandom| && vRandom[i] in mapInfo && vRandom[j] in mapInfo
      modifies this
      ensures Abs() == AddrMan.SwapRandom(old(Abs()), i, j)
    {
      hide TableOf;
      if i == j {
        return;
      }
      var id1, id2 := vRandom[i], vRandom[j];
      mapInfo := mapInfo[id1 := mapInfo[id1].(randomPos := j)];
      mapInfo := mapInfo[id2 := mapInfo[id2].(randomPos := i)];
      vRandom := vRandom[i := id2];
      vRandom := vRandom[j := id1];
    }

    method Delete(id: Id)
      requires Valid() && Deletable(Abs(), id)
      modifies this
      ensures Abs() == AddrMan.Delete(p, old(Abs()), id)
    {
      hide TableOf, Bump, AddrMan.SwapRandom;
      SwapFields(Abs(), mapInfo[id].randomPos, |vRandom| - 1);
      SwapFrame(Abs(), mapInfo[id].randomPos, |vRandom| - 1);
      SwapRandom(mapInfo[id].randomPos, |vRandom| - 1);
      DropLast(id);
    }

    method DropLast(id: Id)
      requires Valid() && id in mapInfo && vRandom != []
      modifies this
      ensures Abs() == Dropped(p, old(Abs()), id)
    {
      hide TableOf, Bump;
      var info := mapInfo[id];
      Count(p.network(info.addr), -1, 0);
      vRandom := vRandom[..|vRandom| - 1];
      mapAddr := mapAddr - {info.addr};
      mapInfo := mapInfo - {id};
      nNew := nNew - 1;
    }

    method ClearNew(slot: Slot)
      requires Valid() && InTable(newCells, slot) && Clearable(Abs(), slot)
      modifies this, newCells
      ensures Abs() == AddrMan.ClearNew(p, old(Abs()), slot)
    {
      hide TableOf, AddrMan.Delete;
      var id: int := CellAt(newCells, slot);
      if id != -1 {
        mapInfo := mapInfo[id := mapInfo[id].(refCount := mapInfo[id].refCount - 1)];
        Remove(newCells, slot);
        assert Abs() == DropRef(old(Abs()), slot);
        if mapInfo[id].refCount == 0 {
          Delete(id);
        }
      }
    }

    method TakeOut(id: Id, slot: Slot)
      requires Valid() && id in mapInfo && slot == p.TriedSlot(mapInfo[id].addr)
      modifies this, triedCells
      ensures Abs() == HalfOut(p, old(Abs()), id)
    {
      hide TableOf, Bump;
      mapInfo := mapInfo[id := mapInfo[id].(inTried := false)];
      Remove(triedCells, slot);
      nTried := nTried - 1;
      Count(p.network(mapInfo[id].addr), 0, -1);
    }

    method Reenter(id: Id, slot: Slot)
      requires Valid() && id in mapInfo && mapInfo[id].refCount == 0 && InTable(newCells, slot)
      modifies this, newCells
      ensures Abs() == Shift(AddrMan.AddRef(old(Abs()), id, slot), p.network(old(mapInfo)[id].addr), 1, 0)
    {
      hide TableOf, Bump;
      mapInfo := mapInfo[id := mapInfo[id].(refCount := 1)];
      Put(newCells, slot, id);
      nNew := nNew + 1;
      Count(p.network(mapInfo[id].addr), 1, 0);
    }

    /** The occupant of a tried slot goes back to the new table, over whatever is there. */
    method Evict(slot: Slot)
      requires Valid() && EvictReady(p, Abs(), slot)
      modifies this, newCells, triedCells
      ensures Abs() == AddrMan.Evict(p, old(Abs()), slot)
    {
      hide TableOf, AddrMan.ClearNew, Clearable, AddrMan.Evict, EvictReady, HalfOut, AddrMan.AddRef, Shift;
      EvictSteps(p, Abs(), slot);
      var id := CellAt(triedCells, slot);
      var to := p.NewSlot(mapInfo[id].addr, mapInfo[id].source);
      TakeOut(id, slot);
      ClearNew(to);
      Reenter(id, to);
    }

    method Unref(id: Id, slot: Slot)
      requires Valid() && id in mapInfo && InTable(newCells, slot) && slot in Abs().vvNew && Abs().vvNew[slot] == id
      modifies this, newCells
      ensures Abs() == DropRef(old(Abs()), slot)
    {
      hide TableOf;
      mapInfo := mapInfo[id := mapInfo[id].(refCount := mapInfo[id].refCount - 1)];
      Remove(newCells, slot);
    }

    /** Empties every new-table slot of an entry, scanning the buckets from its home bucket on. */
    method RemoveRefs(id: Id)
      requires Valid() && InvFloating(p, Abs(), {}) && id in mapInfo && !mapInfo[id].inTried
      modifies this, newCells
      ensures Abs() == ClearRefs(old(Abs()), id)
    {
      hide TableOf, InvFloating, ClearRefs, Visit, Scanning, DropRef;
      ghost var s0 := Abs();
      TablesConsistent(p, s0, {});
      var info := mapInfo[id];
      var start := p.newBucket(info.addr, info.source);
      ScanStart(p, s0, id, start);
      for n := 0 to p.newBuckets
        invariant Scanning(p, s0, id, start, n, Abs())
      {
        var slot := Visit(p, info.addr, start, n);
        VisitInTable(p, info.addr, start, n);
        var cell := CellAt(newCells, slot);
        ScanFacts(p, s0, id, start, n, Abs());
        if cell == id {
          ScanHit(p, s0, id, start, n, Abs());
          Unref(id, slot);
          ScanFacts(p, s0, id, start, n + 1, Abs());
          if mapInfo[id].refCount == 0 {
            ScanDone(p, s0, id, start, n + 1, Abs());
            return;
          }
        } else {
          ScanMiss(p, s0, id, start, n, Abs());
        }
      }
      ScanDone(p, s0, id, start, p.newBuckets, Abs());
    }

    method MakeTried(id: Id)
      requires Valid() && InvFloating(p, Abs(), {}) && id in mapInfo && !mapInfo[id].inTried
               && mapInfo[id].lastSuccess != 0
      modifies this, newCells, triedCells
      ensures Movable(p, old(Abs()), id) && Abs() == AddrMan.MakeTried(p, old(Abs()), id)
    {
      hide TableOf, InvFloating, ClearRefs, Movable, AddrMan.Evict, EvictReady, Bump, ToTried;
      ghost var s0 := Abs();
      MakeTriedKeeps(p, s0, id);
      MakeTriedSteps(p, s0, id);
      var info := mapInfo[id];
      RemoveRefs(id);
      nNew := nNew - 1;
      Count(p.network(info.addr), -1, 0);
      var slot := p.TriedSlot(info.addr);
      var occupied := CellAt(triedCells, slot);
      if occupied != -1 {
        Evict(slot);
      }
      Enter(id, slot);
    }

    method Enter(id: Id, slot: Slot)
      requires Valid() && id in mapInfo && slot == p.TriedSlot(mapInfo[id].addr)
      modifies this, triedCells
      ensures Abs() == HalfIn(p, old(Abs()), id)
    {
      hide TableOf, Bump;
      Put(triedCells, slot, id);
      nTried := nTried + 1;
      mapInfo := mapInfo[id := mapInfo[id].(inTried := true)];
      Count(p.network(mapInfo[id].addr), 0, 1);
    }

    method AddRef(id: Id, slot: Slot)
      requires Valid() && id in mapInfo && InTable(newCells, slot)
      modifies this, newCells
      ensures Abs() == AddrMan.AddRef(old(Abs()), id, slot)
    {
      hide TableOf;
      mapInfo := mapInfo[id := mapInfo[id].(refCount := mapInfo[id].refCount + 1)];
      Put(newCells, slot, id);
    }

    method Place(id: Id, slot: Slot, now: int) returns (inserted: bool)
      requires Valid() && InTable(newCells, slot) && Placeable(p, Abs(), id, slot)
      modifies this, newCells
      ensures (Abs(), inserted) == AddrManOps.Place(p, old(Abs()), id, slot, now)
    {
      hide TableOf, AddrMan.ClearNew, AddrMan.Delete, AddrMan.AddRef, Deletable, IsTerrible;
      var cell: int := CellAt(newCells, slot);
      inserted := cell == -1;
      if cell != id {
        if !inserted {
          var existing := mapInfo[cell];
          if IsTerrible(existing, now) || (existing.refCount > 1 && mapInfo[id].refCount == 0) {
            inserted := true;
          }
        }
        if inserted {
          ClearNew(slot);
          AddRef(id, slot);
        } else if mapInfo[id].refCount == 0 {
          Delete(id);
        }
      }
    }

    method Refresh(id: Id, a: Address, penalty: int, now: int) returns (info: Info)
      requires Valid() && id in mapInfo
      modifies this
      ensures info == Refreshed(old(mapInfo)[id], a, penalty, now) && Abs() == WithInfo(old(Abs()), id, info)
    {
      hide TableOf, AllServices;
      info := mapInfo[id];
      var time := info.time;
      var interval := if now - a.time < 24 * HOUR then HOUR else 24 * HOUR;
      if time < a.time - interval - penalty {
        time := Max(0, a.time - penalty);
      }
      info := info.(time := time, services := AllServices(info.services, a.services));
      mapInfo := mapInfo[id := info];
    }

    method AddKnown(id: Id, a: Address, source: Source, penalty: int, t: Times, draw: nat) returns (inserted: bool)
      requires Valid() && InvFloating(p, Abs(), {}) && id in mapInfo && mapInfo[id].addr == a.service
               && mapInfo[id].refCount >= 0
      modifies this, newCells
      ensures (Abs(), inserted) == AddrManOps.AddKnown(p, old(Abs()), id, a, source, penalty, t, draw)
    {
      hide TableOf, InvFloating, AddrManOps.Place, Placeable, Two;
      KnownKeeps(p, Abs(), id, a, penalty, t.heard);
      var info := Refresh(id, a, penalty, t.heard);
      if a.time <= info.time || info.inTried || info.refCount == NEW_BUCKETS_PER_ADDRESS {
        return false;
      }
      var factor := Double(info.refCount);
      if factor > 1 && draw % factor != 0 {
        return false;
      }
      var slot := p.NewSlot(a.service, source);
      CanPlace(p, Abs(), {}, id, slot);
      inserted := Place(id, slot, t.judged);
    }

    method AddUnknown(a: Address, source: Source, penalty: int, now: int) returns (inserted: bool)
      requires Valid() && InvFloating(p, Abs(), {}) && a.service !in mapAddr
      modifies this, newCells
      ensures (Abs(), inserted) == AddrManOps.AddUnknown(p, old(Abs()), a, source, penalty, now)
    {
      hide TableOf, InvFloating, AddrMan.Create, AddrManOps.Place, Placeable;
      CreatedKeeps(p, Abs(), a, source, penalty);
      CreatedTime(p, Abs(), a, source);
      ghost var created := Created(p, Abs(), a, source, penalty);
      var id := Create(a, source);
      mapInfo := mapInfo[id := mapInfo[id].(time := Max(0, mapInfo[id].time - penalty))];
      assert Abs() == created;
      var slot := p.NewSlot(a.service, source);
      CanPlace(p, Abs(), {id}, id, slot);
      inserted := Place(id, slot, now);
    }

    method AddSingle(a: Address, source: Source, penalty: int, t: Times, draw: nat) returns (inserted: bool)
      requires Valid() && InvFloating(p, Abs(), {})
      modifies this, newCells
      ensures (Abs(), inserted) == AddrManOps.AddSingle(p, old(Abs()), a, source, penalty, t, draw)
    {
      hide TableOf, InvFloating, AddrManOps.AddKnown, AddrManOps.AddUnknown;
      if !p.routable(a.service) {
        return false;
      }
      FindKnown(p, Abs(), a.service);
      var found := Find(a.service);
      var effective := if p.selfAnnounced(a.service, source) then 0 else penalty;
      if found.Some? {
        RefCountKnown(p, Abs(), found.value);
        inserted := AddKnown(found.value, a, source, effective, t, draw);
      } else {
        inserted := AddUnknown(a, source, effective, t.judged);
      }
    }

    method Record(id: Id, time: int)
      requires Valid() && id in mapInfo
      modifies this
      ensures Abs() == Recorded(old(Abs()), id, time)
    {
      hide TableOf;
      lastGood := time;
      mapInfo := mapInfo[id := mapInfo[id].(lastSuccess := time, lastTry := time, attempts := 0)];
    }

    method Good(a: Service, testBeforeEvict: bool, time: int) returns (moved: bool)
      requires Valid() && InvFloating(p, Abs(), {}) && time > 0
      modifies this, newCells, triedCells
      ensures (Abs(), moved) == AddrManOps.Good(p, old(Abs()), a, testBeforeEvict, time)
    {
      hide TableOf, InvFloating, AddrMan.MakeTried, Movable, Recorded;
      FindKnown(p, Abs(), a);
      var found := Find(a);
      if found.None? {
        lastGood := time;
        return false;
      }
      var id := found.value;
      RecordedKeeps(p, Abs(), id, time);
      RecordedEntry(Abs(), id, time);
      Record(id, time);
      if mapInfo[id].inTried || mapInfo[id].refCount <= 0 {
        return false;
      }
      var occupied: int := CellAt(triedCells, p.TriedSlot(mapInfo[id].addr));
      if testBeforeEvict && occupied != -1 {
        if |collisions| < TRIED_COLLISION_SIZE {
          collisions := collisions + {id};
        }
        return false;
      }
      MakeTriedKeeps(p, Abs(), id);
      MakeTried(id);
      return true;
    }

    method Attempt(a: Service, countFailure: bool, time: int)
      requires Valid()
      modifies this
      ensures Abs() == AddrManOps.Attempt(old(Abs()), a, countFailure, time)
    {
      hide TableOf;
      var found := Find(a);
      if found.Some? {
        var info := mapInfo[found.value].(lastTry := time);
        if countFailure && info.lastCountAttempt < lastGood {
          info := info.(lastCountAttempt := time, attempts := info.attempts + 1);
        }
        mapInfo := mapInfo[found.value := info];
      }
    }

    method Connected(a: Service, time: int)
      requires Valid()
      modifies this
      ensures Abs() == AddrManOps.Connected(old(Abs()), a, time)
    {
      hide TableOf;
      var found := Find(a);
      if found.Some? && time - mapInfo[found.value].time > 20 * MINUTE {
        mapInfo := mapInfo[found.value := mapInfo[found.value].(time := time)];
      }
    }

    method SetServices(a: Service, services: bv64)
      requires Valid()
      modifies this
      ensures Abs() == AddrManOps.SetServices(old(Abs()), a, services)
    {
      hide TableOf;
      var found := Find(a);
      if found.Some? {
        mapInfo := mapInfo[found.value := mapInfo[found.value].(services := services)];
      }
    }

    method Add(addrs: seq<Address>, source: Source, penalty: int, times: nat -> Times, draws: nat -> nat)
      returns (any: bool)
      requires Valid() && Inv(p, Abs())
      modifies this, newCells
      ensures Abs() == AddAll(p, old(Abs()), addrs, |addrs|, source, penalty, times, draws)
      ensures any == (AddCount(p, old(Abs()), addrs, |addrs|, source, penalty, times, draws) > 0)
    {
      hide TableOf, InvFloating, CollisionsOk, AddrManOps.AddSingle, Evolves;
      var added := 0;
      for n := 0 to |addrs|
        invariant Inv(p, Abs()) && added == AddCount(p, old(Abs()), addrs, n, source, penalty, times, draws)
        invariant Abs() == AddAll(p, old(Abs()), addrs, n, source, penalty, times, draws)
      {
        AddSingleKeeps(p, Abs(), addrs[n], source, penalty, times(n), draws(n));
        var inserted := AddSingle(addrs[n], source, penalty, times(n), draws(n));
        if inserted {
          added := added + 1;
        }
      }
      any := added > 0;
    }

    method ResolveOne(id: Id, now: int)
      requires Valid() && Inv(p, Abs()) && now > 0
      modifies this, newCells, triedCells
      ensures Abs() == AddrManOps.ResolveOne(p, old(Abs()), id, now)
    {
      hide TableOf, AddrManOps.Good, AddrOk, RandomOk, NewOk, RefsOk, CountsOk, EntriesPlaced;
      var settled, replace := false, false;
      if id !in mapInfo {
        settled := true;
      } else {
        var info := mapInfo[id];
        var cell: int := CellAt(triedCells, p.TriedSlot(info.addr));
        if !p.valid(info.addr) {
          settled := true;
        } else if cell != -1 {
          var occupant := mapInfo[cell];
          if now - occupant.lastSuccess < 4 * HOUR {
            settled := true;
          } else if now - occupant.lastTry < 4 * HOUR {
            if now - occupant.lastTry > 60 {
              replace, settled := true, true;
            }
          } else if now - info.lastSuccess > 40 * MINUTE {
            replace, settled := true, true;
          }
        } else {
          replace, settled := true, true;
        }
        if replace {
          var moved := Good(info.addr, false, now);
        }
      }
      if settled {
        collisions := collisions - {id};
      }
    }

    method ResolveCollisions(clock: Id -> int)
      requires Valid() && Inv(p, Abs()) && Running(clock)
      modifies this, newCells, triedCells
      ensures Abs() == AddrManOps.ResolveCollisions(p, old(Abs()), clock)
    {
      hide TableOf, Inv, AddrManOps.ResolveOne;
      var todo := collisions;
      while todo != {}
        invariant Inv(p, Abs())
        invariant ResolveAll(p, Abs(), todo, clock) == AddrManOps.ResolveCollisions(p, old(Abs()), clock)
        decreases |todo|
      {
        ghost var least := Least(todo);
        assert least in todo;
        var id :| id in todo && forall x :: x in todo ==> id <= x;
        ResolveNext(p, Abs(), todo, clock, id);
        ResolveOne(id, clock(id));
        todo := todo - {id};
      }
    }

    method SelectTriedCollision(pick: Id) returns (found: Option<Info>)
      requires Valid() && Inv(p, Abs()) && (collisions != {} ==> pick in collisions)
      modifies this
      ensures pick in old(collisions) && pick in old(mapInfo) ==> HasOccupant(p, old(Abs()), pick)
      ensures (Abs(), found) == AddrManOps.SelectTriedCollision(p, old(Abs()), pick)
    {
      hide TableOf, InvFloating;
      CollisionFindsOccupant(p, Abs(), pick);
      if |collisions| == 0 {
        return None;
      }
      if pick !in mapInfo {
        collisions := collisions - {pick};
        return None;
      }
      var cell := CellAt(triedCells, p.TriedSlot(mapInfo[pick].addr));
      return Some(mapInfo[cell]);
    }

    /** The addresses handed out are those of the entries the shuffle selects, in order. */
    method GetAddr(maxAddresses: nat, maxPct: nat, wanted: Service -> bool, now: int, picks: nat -> nat)
      returns (addresses: seq<Address>, ghost ids: seq<Id>)
      requires Valid() && InvFloating(p, Abs(), {})
      modifies this
      ensures (Abs(), ids) ==
              GetAddrFrom(p, old(Abs()), 0, [], NodeLimit(|old(vRandom)|, maxAddresses, maxPct), wanted, now, picks)
      ensures Listed(mapInfo, ids, addresses)
    {
      hide TableOf, InvFloating, AddrMan.SwapRandom, Draw, Collect, GetAddrFrom, Listed;
      var limit := NodeLimit(|vRandom|, maxAddresses, maxPct);
      addresses, ids := [], [];
      ListedNone(mapInfo);
      var n := 0;
      while n < |vRandom| && |addresses| < limit
        invariant InvFloating(p, Abs(), {}) && |vRandom| == |old(vRandom)|
        invariant Listed(mapInfo, ids, addresses) && |ids| == |addresses|
        invariant GetAddrFrom(p, Abs(), n, ids, limit, wanted, now, picks) ==
                  GetAddrFrom(p, old(Abs()), 0, [], limit, wanted, now, picks)
      {
        addresses, ids := DrawOne(n, addresses, ids, limit, wanted, now, picks);
        n := n + 1;
      }
      DrawsDone(p, Abs(), n, ids, limit, wanted, now, picks);
    }

    /** One round of the loop: a random later place is swapped in and looked at. */
    method DrawOne(n: nat, addresses: seq<Address>, ghost ids: seq<Id>, limit: nat, wanted: Service -> bool, now: int,
                   picks: nat -> nat)
      returns (addresses': seq<Address>, ghost ids': seq<Id>)
      requires Valid() && InvFloating(p, Abs(), {}) && n < |vRandom| && Listed(mapInfo, ids, addresses) && |ids| < limit
      modifies this
      ensures InvFloating(p, Abs(), {}) && |vRandom| == |old(vRandom)|
      ensures Listed(mapInfo, ids', addresses') && |ids'| == |addresses'|
      ensures GetAddrFrom(p, Abs(), n + 1, ids', limit, wanted, now, picks) ==
              GetAddrFrom(p, old(Abs()), n, ids, limit, wanted, now, picks)
    {
      hide TableOf, InvFloating, AddrMan.SwapRandom, Draw, Collect, GetAddrFrom, Listed;
      var j := Draw(|vRandom|, n, picks(n));
      DrawStep(p, Abs(), n, ids, limit, wanted, now, picks);
      ListedSwap(Abs(), n, j, ids, addresses);
      SwapRandom(n, j);
      addresses', ids' := Collected(addresses, ids, n, wanted, now);
    }

    method Collected(addresses: seq<Address>, ghost found: seq<Id>, n: nat, wanted: Service -> bool, now: int)
      returns (addresses': seq<Address>, ghost ids: seq<Id>)
      requires n < |vRandom| && Listed(mapInfo, found, addresses)
      ensures ids == Collect(Abs(), n, found, wanted, now) && Listed(mapInfo, ids, addresses') && |ids| == |addresses'|
    {
      addresses', ids := addresses, found;
      var id := vRandom[n];
      if id in mapInfo && wanted(mapInfo[id].addr) && !IsTerrible(mapInfo[id], now) {
        ids := ids + [id];
        addresses' := addresses' + [AddressOf(mapInfo[id])];
      }
    }
  }
}
