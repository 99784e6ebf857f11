/** CheckAddrman: the consistency check the address manager runs on itself. The method is
    proved to answer 0 exactly in the states described by Consistent, and every reachable
    state is one of those. */
module AddrManCheck {
  import opened Arithmetic
  import opened AddrMan
  import opened AddrManOps
  import opened AddrManObject

  // ---------- what the check decides ----------

  predicate EntryChecked(s: State, id: Id)
    requires id in s.mapInfo
  {
    var info := s.mapInfo[id];
    && EntryOk(info, false)
    && info.addr in s.mapAddr && s.mapAddr[info.addr] == id
    && 0 <= info.randomPos < |s.vRandom| && s.vRandom[info.randomPos] == id
  }

  predicate EntriesChecked(s: State) {
    forall id :: id in s.mapInfo ==> EntryChecked(s, id)
  }

  /** The networks that have an entry. */
  function Nets(p: Params, m: InfoMap): set<Network> {
    set id | id in m :: p.network(m[id].addr)
  }

  ghost predicate Consistent(p: Params, s: State) {
    && |s.vRandom| == s.nTried + s.nNew
    && EntriesChecked(s)
    && |IdsIn(s.mapInfo, true)| == s.nTried && |IdsIn(s.mapInfo, false)| == s.nNew
    && TriedOk(p, s.mapInfo, s.vvTried)
    && NewOk(p, s.mapInfo, s.vvNew) && RefsOk(s.mapInfo, s.vvNew)
    && !p.keyIsNull
    && |s.counts| >= |Nets(p, s.mapInfo)|
    && (forall net :: net in s.counts ==> CountOk(p, s.mapInfo, s.counts, net))
  }

  // ---------- the loop over the entries ----------

  method CheckEntry(m: AddrManager, id: Id) returns (err: int)
    requires id in m.mapInfo
    ensures err == 0 <==> EntryChecked(m.Abs(), id)
  {
    var info := m.mapInfo[id];
    if info.inTried {
      if info.lastSuccess == 0 { return -1; }
      if info.refCount != 0 { return -2; }
    } else {
      if info.refCount < 0 || info.refCount > NEW_BUCKETS_PER_ADDRESS { return -3; }
      if info.refCount == 0 { return -4; }
    }
    if info.addr !in m.mapAddr || m.mapAddr[info.addr] != id { return -5; }
    if info.randomPos < 0 || info.randomPos >= |m.vRandom| || m.vRandom[info.randomPos] != id { return -14; }
    if info.lastTry < 0 { return -6; }
    if info.lastSuccess < 0 { return -8; }
    return 0;
  }

  /** What the loop over the entries has gathered from the entries `done`. */
  ghost predicate Gathered(p: Params, done: InfoMap, setTried: set<Id>, mapNew: map<Id, int>, local: Counts) {
    && setTried == IdsIn(done, true)
    && mapNew.Keys == IdsIn(done, false) && (forall id :: id in mapNew ==> mapNew[id] == done[id].refCount)
    && local.Keys == Nets(p, done) && (forall net :: CountOk(p, done, local, net))
  }

  lemma GatherNothing(p: Params)
    ensures Gathered(p, map[], {}, map[], map[])
  {
    var m: InfoMap := map[];
    forall net ensures CountOk(p, m, map[], net) {
      assert IdsOf(p, m, net, false) == {} && IdsOf(p, m, net, true) == {};
    }
  }

  lemma GatherCounts(p: Params, done: InfoMap, local: Counts, id: Id, info: Info)
    requires id !in done && forall net :: CountOk(p, done, local, net)
    ensures var done' := done[id := info];
            var local' := Bump(local, p.network(info.addr), if info.inTried then 0 else 1,
                               if info.inTried then 1 else 0);
            forall net :: CountOk(p, done', local', net)
  {
    var done' := done[id := info];
    var local' := Bump(local, p.network(info.addr), if info.inTried then 0 else 1, if info.inTried then 1 else 0);
    forall net ensures CountOk(p, done', local', net) {
      assert CountOk(p, done, local, net);
      CountsUpdate(p, done, id, info, net, false);
      CountsUpdate(p, done, id, info, net, true);
    }
  }

  lemma NetsUpdate(p: Params, done: InfoMap, id: Id, info: Info)
    requires id !in done
    ensures Nets(p, done[id := info]) == Nets(p, done) + {p.network(info.addr)}
  {
    var done' := done[id := info];
    forall net | net in Nets(p, done) ensures net in Nets(p, done') {
      var x :| x in done && p.network(done[x].addr) == net;
      assert x in done' && done'[x] == done[x];
    }
    assert id in done' && done'[id] == info;
  }

  lemma GatherStep(p: Params, done: InfoMap, setTried: set<Id>, mapNew: map<Id, int>, local: Counts, id: Id, info: Info)
    requires Gathered(p, done, setTried, mapNew, local) && id !in done
    ensures info.inTried ==>
              Gathered(p, done[id := info], setTried + {id}, mapNew, Bump(local, p.network(info.addr), 0, 1))
    ensures !info.inTried ==>
              Gathered(p, done[id := info], setTried, mapNew[id := info.refCount],
                       Bump(local, p.network(info.addr), 1, 0))
  {
    hide Nets, CountOk;
    GatherCounts(p, done, local, id, info);
    NetsUpdate(p, done, id, info);
  }

  /** The entries split into those still to check and those checked. */
  ghost predicate Walked(s: State, todo: set<Id>, done: InfoMap) {
    && (forall id :: id in s.mapInfo <==> id in todo || id in done)
    && (forall id :: id in done ==> id !in todo && done[id] == s.mapInfo[id] && EntryChecked(s, id))
  }

  lemma WalkStep(s: State, todo: set<Id>, done: InfoMap, id: Id)
    requires Walked(s, todo, done) && id in todo && EntryChecked(s, id)
    ensures Walked(s, todo - {id}, done[id := s.mapInfo[id]])
  {
    hide EntryChecked;
  }

  lemma WalkDone(s: State, done: InfoMap)
    requires Walked(s, {}, done)
    ensures done == s.mapInfo && EntriesChecked(s)
  {
    hide EntryChecked;
  }

  method CheckEntries(m: AddrManager) returns (err: int, setTried: set<Id>, mapNew: map<Id, int>, local: Counts)
    ensures err == 0 <==> EntriesChecked(m.Abs())
    ensures err == 0 ==> Gathered(m.p, m.mapInfo, setTried, mapNew, local)
  {
    hide TableOf, Gathered, EntryChecked, Bump;
    var todo := m.mapInfo.Keys;
    ghost var done: InfoMap := map[];
    err, setTried, mapNew, local := 0, {}, map[], map[];
    GatherNothing(m.p);
    while todo != {}
      invariant Walked(m.Abs(), todo, done)
      invariant err == 0 && Gathered(m.p, done, setTried, mapNew, local)
      decreases |todo|
    {
      var id :| id in todo;
      err := CheckEntry(m, id);
      if err != 0 {
        return;
      }
      var info := m.mapInfo[id];
      GatherStep(m.p, done, setTried, mapNew, local, id, info);
      WalkStep(m.Abs(), todo, done, id);
      if info.inTried {
        setTried := setTried + {id};
        local := Bump(local, m.p.network(info.addr), 0, 1);
      } else {
        mapNew := mapNew[id := info.refCount];
        local := Bump(local, m.p.network(info.addr), 1, 0);
      }
      done := done[id := info];
      todo := todo - {id};
    }
    WalkDone(m.Abs(), done);
  }

  // ---------- the loops over the bucket tables ----------

  predicate TriedCell(p: Params, m: InfoMap, slot: Slot, id: Id) {
    id in m && m[id].inTried && slot == p.TriedSlot(m[id].addr)
  }

  /** `rest` are the tried entries whose slot has not been met yet. */
  ghost predicate TriedSeen(p: Params, m: InfoMap, table: Table, n: nat, i: nat, rest: set<Id>) {
    && rest <= IdsIn(m, true)
    && (forall slot :: slot in table && Before(slot, n, i) ==>
          TriedCell(p, m, slot, table[slot]) && table[slot] !in rest)
    && (forall id :: id in m && m[id].inTried && id !in rest ==>
          var slot := p.TriedSlot(m[id].addr); slot in table && table[slot] == id && Before(slot, n, i))
  }

  lemma TriedStep(p: Params, m: InfoMap, table: Table, n: nat, i: nat, rest: set<Id>)
    requires TriedSeen(p, m, table, n, i, rest)
    ensures Slot(n, i) !in table ==> TriedSeen(p, m, table, n, i + 1, rest)
    ensures Slot(n, i) in table ==>
              var id := table[Slot(n, i)];
              if TriedCell(p, m, Slot(n, i), id) && id in rest then TriedSeen(p, m, table, n, i + 1, rest - {id})
              else !TriedOk(p, m, table)
  {
  }

  lemma TriedRow(p: Params, m: InfoMap, table: Table, n: nat, size: nat, rest: set<Id>)
    requires TriedSeen(p, m, table, n, size, rest) && forall slot :: slot in table ==> slot.pos < size
    ensures TriedSeen(p, m, table, n + 1, 0, rest)
  {
  }

  lemma TriedDone(p: Params, m: InfoMap, table: Table, n: nat, rest: set<Id>)
    requires TriedSeen(p, m, table, n, 0, rest) && forall slot :: slot in table ==> slot.bucket < n
    ensures rest == {} <==> TriedOk(p, m, table)
  {
    if TriedOk(p, m, table) {
      forall id | id in IdsIn(m, true) ensures id !in rest {
        assert p.TriedSlot(m[id].addr) in table;
      }
    }
  }

  lemma InBounds(cells: array2<Cell>, size: nat)
    requires cells.Length1 == size
    ensures forall slot :: slot in TableOf(cells) ==> slot.bucket < cells.Length0 && slot.pos < size
  {
  }

  method CheckTried(m: AddrManager, setTried: set<Id>) returns (err: int, rest: set<Id>)
    requires m.Valid() && setTried == IdsIn(m.mapInfo, true)
    ensures err != 0 ==> !TriedOk(m.p, m.mapInfo, m.Abs().vvTried)
    ensures err == 0 ==> (rest == {} <==> TriedOk(m.p, m.mapInfo, m.Abs().vvTried))
  {
    hide TableOf, TriedOk, TriedSeen;
    ghost var table := m.Abs().vvTried;
    InBounds(m.triedCells, m.p.bucketSize);
    err, rest := 0, setTried;
    TriedStart(m.p, m.mapInfo, table);
    for n := 0 to m.p.triedBuckets
      invariant err == 0 && TriedSeen(m.p, m.mapInfo, table, n, 0, rest)
    {
      for i := 0 to m.p.bucketSize
        invariant err == 0 && TriedSeen(m.p, m.mapInfo, table, n, i, rest)
      {
        TriedStep(m.p, m.mapInfo, table, n, i, rest);
        RestKnown(m.p, m.mapInfo, table, n, i, rest);
        var cell: int := CellAt(m.triedCells, Slot(n, i));
        if cell != -1 {
          if cell !in rest { return -11, rest; }
          var a := m.mapInfo[cell].addr;
          if m.p.triedBucket(a) != n { return -17, rest; }
          if m.p.position(a, false, n) != i { return -18, rest; }
          rest := rest - {cell};
        }
      }
      TriedRow(m.p, m.mapInfo, table, n, m.p.bucketSize, rest);
    }
    TriedDone(m.p, m.mapInfo, table, m.p.triedBuckets, rest);
  }

  lemma TriedStart(p: Params, m: InfoMap, table: Table)
    ensures TriedSeen(p, m, table, 0, 0, IdsIn(m, true))
  {
  }

  lemma RestKnown(p: Params, m: InfoMap, table: Table, n: nat, i: nat, rest: set<Id>)
    requires TriedSeen(p, m, table, n, i, rest)
    ensures forall id :: id in rest ==> id in m && m[id].inTried
  {
  }

  predicate NewCell(p: Params, m: InfoMap, slot: Slot, id: Id) {
    id in m && !m[id].inTried && slot.bucket < p.newBuckets && slot == p.NewSlotIn(m[id].addr, slot.bucket)
  }

  function SeenRefs(table: Table, id: Id, n: nat, i: nat): set<Slot> {
    set slot | slot in table && table[slot] == id && Before(slot, n, i)
  }

  /** `left` says how many slots each new-table entry is still owed. */
  predicate Owed(m: InfoMap, table: Table, n: nat, i: nat, left: map<Id, int>, id: Id) {
    && (id in left <==> id in m && !m[id].inTried && |SeenRefs(table, id, n, i)| < m[id].refCount)
    && (id in left ==> left[id] == m[id].refCount - |SeenRefs(table, id, n, i)|)
    && (id in m && !m[id].inTried ==> |SeenRefs(table, id, n, i)| <= m[id].refCount)
  }

  ghost predicate NewSeen(p: Params, m: InfoMap, table: Table, n: nat, i: nat, left: map<Id, int>) {
    && (forall slot :: slot in table && Before(slot, n, i) ==> NewCell(p, m, slot, table[slot]))
    && (forall id :: Owed(m, table, n, i, left, id))
  }

  function Pay(left: map<Id, int>, id: Id): map<Id, int>
    requires id in left
  {
    if left[id] == 1 then left - {id} else left[id := left[id] - 1]
  }

  lemma SeenRefsStep(table: Table, id: Id, n: nat, i: nat)
    ensures |SeenRefs(table, id, n, i + 1)| ==
            |SeenRefs(table, id, n, i)| + (if Slot(n, i) in table && table[Slot(n, i)] == id then 1 else 0)
  {
    SizeChange(SeenRefs(table, id, n, i), SeenRefs(table, id, n, i + 1), Slot(n, i));
  }

  /** What is owed after the cell at (n, i). */
  function AfterCell(table: Table, n: nat, i: nat, left: map<Id, int>): map<Id, int> {
    if Slot(n, i) in table && table[Slot(n, i)] in left then Pay(left, table[Slot(n, i)]) else left
  }

  lemma NewStep(p: Params, m: InfoMap, table: Table, n: nat, i: nat, left: map<Id, int>)
    requires NewSeen(p, m, table, n, i, left)
    requires Slot(n, i) in table ==> table[Slot(n, i)] in left && NewCell(p, m, Slot(n, i), table[Slot(n, i)])
    ensures NewSeen(p, m, table, n, i + 1, AfterCell(table, n, i, left))
  {
    hide SeenRefs;
    var next, left' := i + 1, AfterCell(table, n, i, left);
    forall id ensures Owed(m, table, n, next, left', id) {
      assert Owed(m, table, n, i, left, id);
      SeenRefsStep(table, id, n, i);
    }
  }

  lemma NewUnowed(p: Params, m: InfoMap, table: Table, n: nat, i: nat, left: map<Id, int>)
    requires NewSeen(p, m, table, n, i, left) && Slot(n, i) in table
    requires table[Slot(n, i)] !in left || !NewCell(p, m, Slot(n, i), table[Slot(n, i)])
    ensures !NewOk(p, m, table) || !RefsOk(m, table)
  {
    var slot := Slot(n, i);
    var id := table[slot];
    assert Owed(m, table, n, i, left, id);
    if NewOk(p, m, table) {
      SeenRefsStep(table, id, n, i);
      SubsetSize(SeenRefs(table, id, n, i + 1), Refs(table, id));
    }
  }

  lemma NewRow(p: Params, m: InfoMap, table: Table, n: nat, size: nat, left: map<Id, int>)
    requires NewSeen(p, m, table, n, size, left) && forall slot :: slot in table ==> slot.pos < size
    ensures NewSeen(p, m, table, n + 1, 0, left)
  {
    var next := n + 1;
    forall id ensures Owed(m, table, next, 0, left, id) {
      assert Owed(m, table, n, size, left, id);
      assert SeenRefs(table, id, next, 0) == SeenRefs(table, id, n, size);
    }
  }

  lemma NewDone(p: Params, m: InfoMap, table: Table, n: nat, left: map<Id, int>)
    requires NewSeen(p, m, table, n, 0, left) && forall slot :: slot in table ==> slot.bucket < n
    requires forall id :: id in m ==> EntryOk(m[id], false)
    ensures left == map[] <==> NewOk(p, m, table) && RefsOk(m, table)
  {
    forall id ensures SeenRefs(table, id, n, 0) == Refs(table, id) && Owed(m, table, n, 0, left, id) {}
    if left == map[] {
      forall id | id in m ensures m[id].refCount == |Refs(table, id)| {
        assert Owed(m, table, n, 0, left, id);
        if m[id].inTried {
          assert Refs(table, id) == {};
        }
      }
    } else {
      var id :| id in left;
      assert Owed(m, table, n, 0, left, id);
    }
  }

  lemma NewStart(p: Params, m: InfoMap, table: Table, left: map<Id, int>)
    requires left.Keys == IdsIn(m, false) && forall id :: id in left ==> left[id] == m[id].refCount
    requires forall id :: id in m ==> EntryOk(m[id], false)
    ensures NewSeen(p, m, table, 0, 0, left)
  {
    forall id ensures Owed(m, table, 0, 0, left, id) {
      assert SeenRefs(table, id, 0, 0) == {};
    }
  }

  lemma LeftKnown(p: Params, m: InfoMap, table: Table, n: nat, i: nat, left: map<Id, int>, id: Id)
    requires NewSeen(p, m, table, n, i, left) && id in left
    ensures id in m && !m[id].inTried
  {
    assert Owed(m, table, n, i, left, id);
  }

  method CheckNew(m: AddrManager, mapNew: map<Id, int>) returns (err: int, left: map<Id, int>)
    requires m.Valid() && EntriesChecked(m.Abs())
    requires mapNew.Keys == IdsIn(m.mapInfo, false)
    requires forall id :: id in mapNew ==> mapNew[id] == m.mapInfo[id].refCount
    ensures err != 0 ==> !NewOk(m.p, m.mapInfo, m.Abs().vvNew) || !RefsOk(m.mapInfo, m.Abs().vvNew)
    ensures err == 0 ==> (left == map[] <==> NewOk(m.p, m.mapInfo, m.Abs().vvNew) && RefsOk(m.mapInfo, m.Abs().vvNew))
  {
    hide TableOf, NewOk, RefsOk, NewSeen, EntryOk;
    ghost var table := m.Abs().vvNew;
    InBounds(m.newCells, m.p.bucketSize);
    err, left := 0, mapNew;
    assert forall id :: id in m.mapInfo ==> EntryChecked(m.Abs(), id);
    NewStart(m.p, m.mapInfo, table, left);
    hide EntriesChecked, EntryChecked, IdsIn;
    for n := 0 to m.p.newBuckets
      invariant err == 0 && NewSeen(m.p, m.mapInfo, table, n, 0, left)
    {
      for i := 0 to m.p.bucketSize
        invariant err == 0 && NewSeen(m.p, m.mapInfo, table, n, i, left)
      {
        var cell: int := CellAt(m.newCells, Slot(n, i));
        if cell != -1 {
          if cell !in left {
            NewUnowed(m.p, m.mapInfo, table, n, i, left);
            return -12, left;
          }
          LeftKnown(m.p, m.mapInfo, table, n, i, left, cell);
          if m.p.position(m.mapInfo[cell].addr, true, n) != i {
            NewUnowed(m.p, m.mapInfo, table, n, i, left);
            return -19, left;
          }
          NewStep(m.p, m.mapInfo, table, n, i, left);
          left := if left[cell] == 1 then left - {cell} else left[cell := left[cell] - 1];
        } else {
          NewStep(m.p, m.mapInfo, table, n, i, left);
        }
      }
      NewRow(m.p, m.mapInfo, table, n, m.p.bucketSize, left);
    }
    NewDone(m.p, m.mapInfo, table, m.p.newBuckets, left);
  }

  // ---------- the whole check ----------

  method CheckCounts(m: AddrManager, local: Counts) returns (err: int)
    requires local.Keys == Nets(m.p, m.mapInfo) && forall net :: CountOk(m.p, m.mapInfo, local, net)
    ensures err == 0 <==>
            |m.counts| >= |Nets(m.p, m.mapInfo)|
            && forall net :: net in m.counts ==> CountOk(m.p, m.mapInfo, m.counts, net)
  {
    assert |local| == |local.Keys|;
    if |m.counts| < |local| {
      return -20;
    }
    var todo := m.counts.Keys;
    while todo != {}
      invariant todo <= m.counts.Keys
      invariant forall net :: net in m.counts && net !in todo ==> CountOk(m.p, m.mapInfo, m.counts, net)
      decreases |todo|
    {
      var net :| net in todo;
      assert CountOk(m.p, m.mapInfo, local, net);
      if CountAt(local, net) != m.counts[net] {
        return -21;
      }
      todo := todo - {net};
    }
    return 0;
  }

  method CheckAddrman(m: AddrManager) returns (err: int)
    requires m.Valid()
    ensures err == 0 <==> Consistent(m.p, m.Abs())
  {
    hide TableOf, TriedOk, NewOk, RefsOk, EntriesChecked, CountOk, Nets;
    if |m.vRandom| != m.nTried + m.nNew {
      return -7;
    }
    var setTried, mapNew, local;
    err, setTried, mapNew, local := CheckEntries(m);
    if err != 0 { return; }
    if |setTried| != m.nTried { return -9; }
    assert |mapNew| == |mapNew.Keys|;
    if |mapNew| != m.nNew { return -10; }
    var rest, left;
    err, rest := CheckTried(m, setTried);
    if err != 0 { return; }
    err, left := CheckNew(m, mapNew);
    if err != 0 { return; }
    if |rest| != 0 { return -13; }
    if |left| != 0 {
      return -15;
    }
    if m.p.keyIsNull { return -16; }
    err := CheckCounts(m, local);
  }

  // ---------- reachable states pass ----------

  /** A sequence without repetitions that lists exactly the elements of a set has its size. */
  lemma {:induction false} ListSize(order: seq<Id>, ids: set<Id>)
    requires forall i, j :: 0 <= i < j < |order| ==> order[i] != order[j]
    requires forall id :: id in ids <==> id in order
    ensures |order| == |ids|
  {
    if order == [] {
      assert ids == {};
    } else {
      ListSize(order[1..], ids - {order[0]});
      Without(ids, order[0]);
    }
  }

  lemma RandomSize(m: InfoMap, vRandom: seq<Id>)
    requires RandomOk(m, vRandom)
    ensures |vRandom| == |IdsIn(m, true)| + |IdsIn(m, false)|
  {
    ListSize(vRandom, m.Keys);
    KeysSplit(m);
  }

  lemma KeysSplit(m: InfoMap)
    ensures |m.Keys| == |IdsIn(m, true)| + |IdsIn(m, false)|
  {
    assert m.Keys == IdsIn(m, true) + IdsIn(m, false);
    assert IdsIn(m, true) !! IdsIn(m, false);
  }

  lemma NetsCounted(p: Params, m: InfoMap, counts: Counts)
    requires forall net :: CountOk(p, m, counts, net)
    ensures |Nets(p, m)| <= |counts|
  {
    forall net | net in Nets(p, m) ensures net in counts.Keys {
      assert CountOk(p, m, counts, net);
      var id :| id in m && p.network(m[id].addr) == net;
      assert id in IdsOf(p, m, net, m[id].inTried);
    }
    SubsetSize(Nets(p, m), counts.Keys);
    assert |counts| == |counts.Keys|;
  }

  lemma InvConsistent(p: Params, s: State)
    requires InvFloating(p, s, {}) && !p.keyIsNull
    ensures Consistent(p, s)
  {
    hide TriedOk, NewOk, RefsOk, CountOk, Nets;
    RandomSize(s.mapInfo, s.vRandom);
    NetsCounted(p, s.mapInfo, s.counts);
  }

  /** Main theorem. In every state reached from the empty manager the check answers 0. */
  lemma RunConsistent(p: Params, ops: seq<Op>)
    requires p.Valid() && !p.keyIsNull && AllTimely(ops)
    ensures Inv(p, Init()) && Consistent(p, Run(p, Init(), ops))
  {
    hide InvFloating, CollisionsOk, Run, Consistent;
    InitOk(p);
    RunKeeps(p, Init(), ops);
    InvConsistent(p, Run(p, Init(), ops));
  }

  lemma CheckedRandom(s: State)
    requires EntriesChecked(s) && |s.vRandom| == |IdsIn(s.mapInfo, true)| + |IdsIn(s.mapInfo, false)|
    ensures RandomOk(s.mapInfo, s.vRandom)
  {
    hide EntryOk, IdsIn;
    var m := s.mapInfo;
    forall id | id in m ensures 0 <= m[id].randomPos < |s.vRandom| && s.vRandom[m[id].randomPos] == id {
      assert EntryChecked(s, id);
    }
    KeysSplit(m);
    Pigeonhole(m, s.vRandom, m.Keys, |s.vRandom|);
  }

  lemma CheckedEntries(s: State)
    requires EntriesChecked(s)
    ensures EntriesPlaced(s.mapInfo, {}) && EntriesTimed(s.mapInfo)
  {
    forall id | id in s.mapInfo ensures EntryOk(s.mapInfo[id], id in {}) {
      assert EntryChecked(s, id);
    }
  }

  /** Conversely a state that passes has a sound random order and sound tables. */
  lemma ConsistentTables(p: Params, s: State)
    requires Consistent(p, s)
    ensures RandomOk(s.mapInfo, s.vRandom) && EntriesPlaced(s.mapInfo, {}) && EntriesTimed(s.mapInfo)
    ensures TriedOk(p, s.mapInfo, s.vvTried) && NewOk(p, s.mapInfo, s.vvNew) && RefsOk(s.mapInfo, s.vvNew)
  {
    hide TriedOk, NewOk, RefsOk, CountOk, Nets, EntriesChecked, RandomOk, EntriesPlaced, EntriesTimed;
    CheckedRandom(s);
    CheckedEntries(s);
  }

  /** Entries with different positions below n are at most n, and if they are n they fill all. */
  lemma {:induction false} Pigeonhole(m: InfoMap, vRandom: seq<Id>, ids: set<Id>, n: nat)
    requires n <= |vRandom|
    requires forall id :: id in ids ==> id in m && 0 <= m[id].randomPos < n && vRandom[m[id].randomPos] == id
    ensures |ids| <= n
    ensures |ids| == n ==> forall i :: 0 <= i < n ==> vRandom[i] in ids && m[vRandom[i]].randomPos == i
    decreases n
  {
    if n == 0 {
      assert ids == {};
    } else {
      var last := vRandom[n - 1];
      var others := set id | id in ids && m[id].randomPos < n - 1;
      Pigeonhole(m, vRandom, others, n - 1);
      SizeChange(ids, others, last);
    }
  }
}
