/** The address manager as a plain book: what is known of each address, and which address lies in which slot
    of the two tables. No random order, no lookup, no counters and no reference counts; an entry is in the
    book as long as some slot holds it. Every operation on the six indexes acts on the book as the plain
    operation below does. */
module AddrManBook {
  import opened Options
  import opened AddrMan
  import opened AddrManOps
  import opened Limbs

  datatype Record = Record(
    addr: Service, source: Source, time: int, services: bv64,
    lastTry: int, lastCountAttempt: int, lastSuccess: int, attempts: nat)

  datatype Book = Book(
    records: map<Id, Record>, newTable: Table, triedTable: Table, pending: set<Id>, lastGood: int, nextId: nat)

  function RecordOf(info: Info): Record {
    Record(info.addr, info.source, info.time, info.services,
           info.lastTry, info.lastCountAttempt, info.lastSuccess, info.attempts)
  }

  function BookOf(s: State): Book {
    Book(map id | id in s.mapInfo :: RecordOf(s.mapInfo[id]), s.vvNew, s.vvTried, s.collisions, s.lastGood, s.nIdCount)
  }

  // ---------- the plain operations ----------

  predicate Shelved(b: Book, id: Id) {
    id in b.newTable.Values || id in b.triedTable.Values
  }

  /** Whoever has lost the last slot is forgotten. */
  function Trim(b: Book): Book {
    b.(records := map id | id in b.records && Shelved(b, id) :: b.records[id])
  }

  ghost function Lookup(b: Book, a: Service): Option<Id> {
    if id :| id in b.records && b.records[id].addr == a then Some(id) else None
  }

  /** Tried in the last minute: never. Otherwise from the future, not seen for a month, three failures and never
      a success, or ten failures and no success for a week. */
  predicate Worthless(r: Record, now: int) {
    && r.lastTry < now - 60
    && (|| r.time > now + 600 || r.time < now - 2592000
        || (r.attempts >= 3 && r.lastSuccess == 0)
        || (r.attempts >= 10 && r.lastSuccess < now - 604800))
  }

  /** The new table after the entry has taken its tried slot: whoever was there goes back to the new slot of its
      first source, over whoever is there. */
  function Shelf(p: Params, b: Book, id: Id): Table
    requires id in b.records
    requires var slot := p.TriedSlot(b.records[id].addr); slot in b.triedTable ==> b.triedTable[slot] in b.records
  {
    var slot := p.TriedSlot(b.records[id].addr);
    var others := map x | x in b.newTable && b.newTable[x] != id :: b.newTable[x];
    if slot !in b.triedTable then others else
      var was := b.triedTable[slot];
      others[p.NewSlot(b.records[was].addr, b.records[was].source) := was]
  }

  function Promote(p: Params, b: Book, id: Id): Book
    requires id in b.records
    requires var slot := p.TriedSlot(b.records[id].addr); slot in b.triedTable ==> b.triedTable[slot] in b.records
  {
    var slot := p.TriedSlot(b.records[id].addr);
    Trim(b.(newTable := Shelf(p, b, id), triedTable := b.triedTable[slot := id]))
  }

  /** Both tables hold only known entries. */
  predicate Stocked(b: Book) {
    && (forall slot :: slot in b.newTable ==> b.newTable[slot] in b.records)
    && (forall slot :: slot in b.triedTable ==> b.triedTable[slot] in b.records)
  }

  ghost function PlainGood(p: Params, b: Book, a: Service, testBeforeEvict: bool, time: int): (Book, bool)
    requires Stocked(b)
  {
    var b1 := b.(lastGood := time);
    match Lookup(b, a)
    case None => (b1, false)
    case Some(id) =>
      var r := b.records[id].(lastSuccess := time, lastTry := time, attempts := 0);
      var b2 := b1.(records := b1.records[id := r]);
      if id in b.triedTable.Values then (b2, false)
      else if p.TriedSlot(a) !in b.triedTable || !testBeforeEvict then (Promote(p, b2, id), true)
      else (if |b.pending| < 10 then b2.(pending := b.pending + {id}) else b2, false)
  }

  /** One slot of the new table for this entry. */
  function Put(b: Book, slot: Slot, id: Id): Book {
    Trim(b.(newTable := b.newTable[slot := id]))
  }

  /** An address heard of for the first time gets its slot if that is free, or held by a worthless entry, or
      by one with another slot. */
  function PlainAddUnknown(p: Params, b: Book, a: Address, source: Source, penalty: int, now: int): (Book, bool)
    requires Stocked(b)
  {
    var time := if a.time < penalty then 0 else a.time - penalty;
    var r := Record(a.service, source, time, a.services, 0, 0, 0, 0);
    var slot := p.NewSlot(a.service, source);
    var b1 := b.(nextId := b.nextId + 1);
    if slot !in b.newTable || Worthless(b.records[b.newTable[slot]], now) || |Refs(b.newTable, b.newTable[slot])| > 1
    then (Put(b1.(records := b.records[b.nextId := r]), slot, b.nextId), true)
    else (b1, false)
  }

  /** News of a known address: its services add up, and its time moves when it is an hour behind, or a day
      behind if the address is not online now. */
  function Renewed(r: Record, a: Address, penalty: int, now: int): Record {
    var late := if now - a.time < 86400 then 3600 else 86400;
    var r1 := r.(services := AllServices(r.services, a.services));
    if r.time + late + penalty < a.time then r1.(time := if a.time < penalty then 0 else a.time - penalty) else r1
  }

  /** A known address gets one more slot if the news is newer than what is known, the entry is not tried, has
      fewer than eight slots and is lucky, and the slot is free or held by another, worthless entry. */
  function PlainAddKnown(p: Params, b: Book, id: Id, a: Address, source: Source, penalty: int, t: Times,
                         draw: nat): (Book, bool)
    requires Stocked(b) && id in b.records
  {
    var r := Renewed(b.records[id], a, penalty, t.heard);
    var b1 := b.(records := b.records[id := r]);
    var slot, held := p.NewSlot(a.service, source), |Refs(b.newTable, id)|;
    if && r.time < a.time && id !in b.triedTable.Values && held < 8 && draw % Two(held) == 0
       && (slot !in b.newTable || (b.newTable[slot] != id && Worthless(b.records[b.newTable[slot]], t.judged)))
    then (Put(b1, slot, id), true)
    else (b1, false)
  }

  ghost function PlainAdd(p: Params, b: Book, a: Address, source: Source, penalty: int, t: Times,
                          draw: nat): (Book, bool)
    requires Stocked(b)
  {
    var late := if p.selfAnnounced(a.service, source) then 0 else penalty;
    if !p.routable(a.service) then (b, false) else
      match Lookup(b, a.service)
      case None => PlainAddUnknown(p, b, a, source, late, t.judged)
      case Some(id) => PlainAddKnown(p, b, id, a, source, late, t, draw)
  }

  ghost function PlainAttempt(b: Book, a: Service, countFailure: bool, time: int): Book {
    match Lookup(b, a)
    case None => b
    case Some(id) =>
      var r := b.records[id];
      var counted := countFailure && r.lastCountAttempt < b.lastGood;
      var r' := if counted then r.(attempts := r.attempts + 1, lastCountAttempt := time) else r;
      b.(records := b.records[id := r'.(lastTry := time)])
  }

  ghost function PlainConnected(b: Book, a: Service, time: int): Book {
    match Lookup(b, a)
    case None => b
    case Some(id) =>
      var r := b.records[id];
      if r.time + 1200 < time then b.(records := b.records[id := r.(time := time)]) else b
  }

  ghost function PlainSetServices(b: Book, a: Service, services: bv64): Book {
    match Lookup(b, a)
    case None => b
    case Some(id) => b.(records := b.records[id := b.records[id].(services := services)])
  }

  /** The occupant of the slot failed a test: tried in the last four hours, more than a minute ago. */
  predicate TestFailed(was: Record, now: int) {
    now - 14400 < was.lastTry < now - 60
  }

  /** There was no test in the last four hours, and the newcomer has waited for more than forty minutes. */
  predicate Untested(was: Record, r: Record, now: int) {
    was.lastTry <= now - 14400 && r.lastSuccess < now - 2400
  }

  /** A pending newcomer is dropped if it is gone or the occupant was reached in the last four hours, moves in
      if the occupant failed its test or could not be tested, and else goes on waiting. */
  ghost function PlainResolve(p: Params, b: Book, id: Id, now: int): Book
    requires Stocked(b)
  {
    var dropped := b.(pending := b.pending - {id});
    if id !in b.records || !p.valid(b.records[id].addr) then dropped else
      var r := b.records[id];
      var good := PlainGood(p, b, r.addr, false, now).0;
      var entered := good.(pending := good.pending - {id});
      var slot := p.TriedSlot(r.addr);
      if slot !in b.triedTable then entered else
        var was := b.records[b.triedTable[slot]];
        if was.lastSuccess > now - 14400 then dropped
        else if TestFailed(was, now) || Untested(was, r, now) then entered
        else b
  }

  ghost function PlainSelect(p: Params, b: Book, pick: Id): (Book, Option<Record>)
    requires Stocked(b)
  {
    if pick !in b.pending then (b, None)
    else if pick !in b.records then (b.(pending := b.pending - {pick}), None)
    else
      var slot := p.TriedSlot(b.records[pick].addr);
      (b, if slot in b.triedTable then Some(b.records[b.triedTable[slot]]) else None)
  }

  // ---------- what the indexes show ----------

  lemma BookFields(s: State)
    ensures var b := BookOf(s);
            && b.newTable == s.vvNew && b.triedTable == s.vvTried && b.pending == s.collisions
            && b.lastGood == s.lastGood && b.nextId == s.nIdCount
  {
  }

  lemma BookUpdates(s: State)
    ensures forall time :: BookOf(s.(lastGood := time)) == BookOf(s).(lastGood := time)
    ensures forall ids :: BookOf(s.(collisions := ids)) == BookOf(s).(pending := ids)
  {
  }

  lemma BookRecord(s: State, id: Id)
    ensures BookOf(s).lastGood == s.lastGood && (id in BookOf(s).records <==> id in s.mapInfo)
    ensures id in s.mapInfo ==> BookOf(s).records[id] == RecordOf(s.mapInfo[id])
  {
  }

  lemma BookStocked(p: Params, s: State, floating: set<Id>)
    requires InvFloating(p, s, floating)
    ensures Stocked(BookOf(s))
  {
    hide AddrOk, RandomOk, RefsOk, CountsOk, EntriesPlaced;
  }

  lemma LookupFinds(p: Params, s: State, floating: set<Id>, a: Service)
    requires InvFloating(p, s, floating)
    ensures Lookup(BookOf(s), a) == Find(s, a)
  {
    hide RandomOk, TriedOk, NewOk, RefsOk, CountsOk, EntriesPlaced;
    var b := BookOf(s);
    if a in s.mapAddr {
      assert s.mapAddr[a] in b.records;
    }
  }

  lemma SameQuality(info: Info, now: int)
    ensures IsTerrible(info, now) <==> Worthless(RecordOf(info), now)
  {
  }

  /** In a sound state an entry is known exactly if it holds a slot. */
  lemma KnownIsShelved(p: Params, s: State, id: Id)
    requires InvFloating(p, s, {})
    ensures id in s.mapInfo <==> Shelved(BookOf(s), id)
    ensures id in s.mapInfo ==> (s.mapInfo[id].inTried <==> id in s.vvTried.Values)
    ensures id in s.mapInfo ==> s.mapInfo[id].refCount == |Refs(s.vvNew, id)|
  {
    hide AddrOk, RandomOk, CountsOk, EntriesTimed;
    if id in s.mapInfo && !s.mapInfo[id].inTried {
      assert EntryPlaced(s.mapInfo[id], false);
      assert Refs(s.vvNew, id) != {};
      var slot :| slot in Refs(s.vvNew, id);
      assert s.vvNew[slot] == id;
    }
  }

  /** The entries that are left are as they were. */
  predicate KeepsRecords(s: State, s': State) {
    forall id :: id in s'.mapInfo ==> id in s.mapInfo && RecordOf(s'.mapInfo[id]) == RecordOf(s.mapInfo[id])
  }

  lemma KeepsTwice(a: State, b: State, c: State)
    requires KeepsRecords(a, b) && KeepsRecords(b, c)
    ensures KeepsRecords(a, c)
  {
  }

  lemma KeepsTouched(s: State, s': State, id: Id)
    requires id in s.mapInfo && id in s'.mapInfo && s'.mapInfo == s.mapInfo[id := s'.mapInfo[id]]
    requires RecordOf(s'.mapInfo[id]) == RecordOf(s.mapInfo[id])
    ensures KeepsRecords(s, s')
  {
  }

  /** A sound state with these tables and these records is the trimmed book. */
  lemma Trimmed(p: Params, b: Book, s': State)
    requires InvFloating(p, s', {})
    requires b == BookOf(s').(records := b.records)
    requires forall id :: id in s'.mapInfo ==> id in b.records && b.records[id] == RecordOf(s'.mapInfo[id])
    ensures BookOf(s') == Trim(b)
  {
    hide InvFloating, Shelved;
    var b' := BookOf(s');
    forall id ensures id in s'.mapInfo <==> Shelved(b, id) {
      KnownIsShelved(p, s', id);
      SameShelves(b, b', id);
    }
    assert b'.records == Trim(b).records;
  }

  lemma SameShelves(b: Book, b': Book, id: Id)
    requires b.newTable == b'.newTable && b.triedTable == b'.triedTable
    ensures Shelved(b, id) <==> Shelved(b', id)
  {
  }

  // ---------- Good ----------

  lemma ClearNewRecords(p: Params, s: State, slot: Slot)
    requires Clearable(s, slot)
    ensures KeepsRecords(s, ClearNew(p, s, slot)) && ClearNew(p, s, slot).vvNew == s.vvNew - {slot}
  {
    hide Delete, Deletable;
    ClearNewFrame(p, s, slot);
    if slot in s.vvNew && s.mapInfo[s.vvNew[slot]].refCount == 1 {
      DeleteFrame(p, DropRef(s, slot), s.vvNew[slot]);
    }
    var s' := ClearNew(p, s, slot);
    forall id | id in s'.mapInfo ensures id in s.mapInfo && RecordOf(s'.mapInfo[id]) == RecordOf(s.mapInfo[id]) {
      assert slot !in s.vvNew || s.vvNew[slot] != id ==> SameEntry(s, s', id);
    }
  }

  lemma EvictRecords(p: Params, s: State, floating: set<Id>, slot: Slot)
    requires p.Valid() && InvFloating(p, s, floating) && slot in s.vvTried
    ensures Evictable(p, s, slot) && s.vvTried[slot] in s.mapInfo
    ensures var s', id := Evict(p, s, slot), s.vvTried[slot];
            && KeepsRecords(s, s') && s'.vvTried == s.vvTried - {slot}
            && s'.vvNew == s.vvNew[p.NewSlot(s.mapInfo[id].addr, s.mapInfo[id].source) := id]
  {
    hide InvFloating, ClearNew, Clearable, NewTableOnly, KeepsRecords;
    EvictPrepared(p, s, floating, slot);
    TriedEntry(p, s, floating, slot);
    EvictTried(p, s, floating, slot);
    var id := s.vvTried[slot];
    var s1, to := FromTried(p, s, id), p.NewSlot(s.mapInfo[id].addr, s.mapInfo[id].source);
    var s2, s' := ClearNew(p, s1, to), Evict(p, s, slot);
    KeepsTouched(s, s1, id);
    ClearNewRecords(p, s1, to);
    KeepsTwice(s, s1, s2);
    KeepsTouched(s2, s', id);
    KeepsTwice(s, s2, s');
  }

  lemma EvictTried(p: Params, s: State, floating: set<Id>, slot: Slot)
    requires p.Valid() && InvFloating(p, s, floating) && slot in s.vvTried && Evictable(p, s, slot)
    ensures Evict(p, s, slot).vvTried == s.vvTried - {slot}
  {
    hide InvFloating, Evict, Evictable;
    EvictFrame(p, s, floating, slot);
  }

  lemma MakeTriedTables(p: Params, s: State, id: Id)
    requires p.Valid() && InvFloating(p, s, {}) && id in s.mapInfo && !s.mapInfo[id].inTried
             && s.mapInfo[id].lastSuccess != 0
    ensures Movable(p, s, id) && Stocked(BookOf(s))
    ensures var s' := MakeTried(p, s, id); KeepsRecords(s, s') && s'.vvNew == Shelf(p, BookOf(s), id)
  {
    hide InvFloating, Evictable, Evict, KeepsRecords, Stocked;
    BookStocked(p, s, {});
    BookStockedIs(BookOf(s), p.TriedSlot(s.mapInfo[id].addr));
    MakeTriedKeeps(p, s, id);
    ClearRefsKeeps(p, s, {}, id);
    assert {} + {id} == {id};
    var s1, s', slot := ClearRefs(s, id), MakeTried(p, s, id), p.TriedSlot(s.mapInfo[id].addr);
    KeepsTouched(s, s1, id);
    if slot in s1.vvTried {
      EvictRecords(p, s1, {id}, slot);
      TriedEntry(p, s1, {id}, slot);
      var s2 := Evict(p, s1, slot);
      KeepsTwice(s, s1, s2);
      KeepsTouched(s2, s', id);
      KeepsTwice(s, s2, s');
    } else {
      KeepsTouched(s1, s', id);
      KeepsTwice(s, s1, s');
    }
  }

  lemma BookStockedIs(b: Book, slot: Slot)
    requires Stocked(b)
    ensures slot in b.newTable ==> b.newTable[slot] in b.records
    ensures slot in b.triedTable ==> b.triedTable[slot] in b.records
  {
  }

  /** Moving an entry to the tried table is the plain promotion. */
  lemma MakeTriedIsPromote(p: Params, s: State, id: Id)
    requires p.Valid() && InvFloating(p, s, {}) && id in s.mapInfo && !s.mapInfo[id].inTried
             && s.mapInfo[id].lastSuccess != 0
    ensures Movable(p, s, id) && Stocked(BookOf(s))
    ensures BookOf(MakeTried(p, s, id)) == Promote(p, BookOf(s), id)
  {
    hide InvFloating, Trim, MakeTried, Movable, Shelf;
    MakeTriedTables(p, s, id);
    MakeTriedKeeps(p, s, id);
    MakeTriedRest(p, s, id);
    var s', b := MakeTried(p, s, id), BookOf(s);
    Trimmed(p, b.(newTable := s'.vvNew, triedTable := s'.vvTried), s');
  }

  lemma MakeTriedRest(p: Params, s: State, id: Id)
    requires p.Valid() && InvFloating(p, s, {}) && id in s.mapInfo && !s.mapInfo[id].inTried
             && s.mapInfo[id].lastSuccess != 0
    ensures Movable(p, s, id)
    ensures var s' := MakeTried(p, s, id);
            && s'.vvTried == s.vvTried[p.TriedSlot(s.mapInfo[id].addr) := id]
            && s'.collisions == s.collisions && s'.lastGood == s.lastGood && s'.nIdCount == s.nIdCount
  {
    hide InvFloating, MakeTried, Movable;
    MakeTriedFrame(p, s, id);
  }

  lemma RecordedBook(s: State, id: Id, time: int)
    requires id in s.mapInfo
    ensures var b := BookOf(s);
            var r := b.records[id].(lastSuccess := time, lastTry := time, attempts := 0);
            BookOf(Recorded(s, id, time)) == b.(lastGood := time, records := b.records[id := r])
  {
  }

  /** Good acts on the book as the plain operation does, and answers the same. */
  lemma GoodRefines(p: Params, s: State, a: Service, testBeforeEvict: bool, time: int)
    requires p.Valid() && InvFloating(p, s, {}) && time > 0
    ensures Stocked(BookOf(s))
    ensures var (s', moved) := Good(p, s, a, testBeforeEvict, time);
            (BookOf(s'), moved) == PlainGood(p, BookOf(s), a, testBeforeEvict, time)
  {
    hide InvFloating, MakeTried, Movable, Promote, Recorded, BookOf, RecordOf, Stocked;
    BookFields(s);
    BookUpdates(s);
    BookStocked(p, s, {});
    LookupFinds(p, s, {}, a);
    FindKnown(p, s, a);
    if Find(s, a).Some? {
      var id := Find(s, a).value;
      RecordedKeeps(p, s, id, time);
      RecordedBook(s, id, time);
      RecordedIs(s, id, time);
      BookRecord(s, id);
      var s1 := Recorded(s, id, time);
      BookFields(s1);
      BookUpdates(s1);
      KnownIsShelved(p, s1, id);
      if !s1.mapInfo[id].inTried {
        InNewTable(p, s1, id);
        MakeTriedIsPromote(p, s1, id);
      }
    }
  }

  lemma RecordedIs(s: State, id: Id, time: int)
    requires id in s.mapInfo
    ensures var s' := Recorded(s, id, time);
            && s' == s.(lastGood := time, mapInfo := s'.mapInfo) && id in s'.mapInfo
            && s'.mapInfo[id] == s.mapInfo[id].(lastSuccess := time, lastTry := time, attempts := 0)
  {
  }

  // ---------- Add ----------

  lemma InsertBook(p: Params, s: State, floating: set<Id>, id: Id, slot: Slot)
    requires InvFloating(p, s, floating) && id in s.mapInfo && !s.mapInfo[id].inTried && floating <= {id}
    requires s.mapInfo[id].refCount < NEW_BUCKETS_PER_ADDRESS
    requires slot.bucket < p.newBuckets && slot == p.NewSlotIn(s.mapInfo[id].addr, slot.bucket)
    requires !(slot in s.vvNew && s.vvNew[slot] == id)
    ensures Clearable(s, slot) && id in ClearNew(p, s, slot).mapInfo
    ensures BookOf(AddRef(ClearNew(p, s, slot), id, slot)) == Put(BookOf(s), slot, id)
  {
    hide InvFloating, ClearNew, Clearable, KeepsRecords, Trim;
    InsertKeeps(p, s, floating, id, slot);
    ClearNewRecords(p, s, slot);
    var s1 := ClearNew(p, s, slot);
    var s' := AddRef(s1, id, slot);
    KeepsTouched(s1, s', id);
    KeepsTwice(s, s1, s');
    var b := BookOf(s).(newTable := s.vvNew[slot := id]);
    assert s'.vvNew == s.vvNew[slot := id];
    KeptIn(s, s', b);
    Trimmed(p, b, s');
  }

  lemma KeptIn(s: State, s': State, b: Book)
    requires KeepsRecords(s, s') && b.records == BookOf(s).records
    ensures forall id :: id in s'.mapInfo ==> id in b.records && b.records[id] == RecordOf(s'.mapInfo[id])
  {
  }

  /** A book of a sound state holds nobody without a slot. */
  lemma NothingToTrim(p: Params, s: State)
    requires InvFloating(p, s, {})
    ensures Trim(BookOf(s)) == BookOf(s)
  {
    hide InvFloating;
    Trimmed(p, BookOf(s), s);
  }

  lemma AddUnknownRefines(p: Params, s: State, a: Address, source: Source, penalty: int, now: int)
    requires p.Valid() && InvFloating(p, s, {}) && a.service !in s.mapAddr
    ensures Stocked(BookOf(s))
    ensures var (s', inserted) := AddUnknown(p, s, a, source, penalty, now);
            (BookOf(s'), inserted) == PlainAddUnknown(p, BookOf(s), a, source, penalty, now)
  {
    hide InvFloating, ClearNew, Clearable, Deletable, Delete, Placeable, Put, Trim, IsTerrible, Worthless, Created;
    hide BookOf, RecordOf, Stocked, Refs;
    BookFields(s);
    BookStocked(p, s, {});
    CreatedKeeps(p, s, a, source, penalty);
    CreatedBook(p, s, a, source, penalty);
    var slot, id := p.NewSlot(a.service, source), s.nIdCount;
    var s1 := Created(p, s, a, source, penalty);
    CanPlace(p, s1, {id}, id, slot);
    NewIdUnreferenced(p, s, slot);
    if slot in s.vvNew {
      var h := s.vvNew[slot];
      CreatedOther(p, s, a, source, penalty, h);
      BookRecord(s, h);
      SameQuality(s.mapInfo[h], now);
      KnownIsShelved(p, s, h);
    }
    if slot !in s1.vvNew || Overwrites(s1, id, slot, now) {
      InsertBook(p, s1, {id}, id, slot);
    } else {
      DeletedBook(p, s, a, source, penalty);
    }
  }

  lemma CreatedBook(p: Params, s: State, a: Address, source: Source, penalty: int)
    ensures var b := BookOf(s);
            var time := if a.time < penalty then 0 else a.time - penalty;
            var r := Record(a.service, source, time, a.services, 0, 0, 0, 0);
            BookOf(Created(p, s, a, source, penalty)) ==
            b.(nextId := b.nextId + 1, records := b.records[b.nextId := r])
  {
    hide Bump;
  }

  lemma CreatedOther(p: Params, s: State, a: Address, source: Source, penalty: int, id: Id)
    requires InvFloating(p, s, {}) && id in s.vvNew.Values
    ensures id in s.mapInfo && id != s.nIdCount
    ensures var s' := Created(p, s, a, source, penalty); id in s'.mapInfo && s'.mapInfo[id] == s.mapInfo[id]
  {
    hide AddrOk, RandomOk, TriedOk, RefsOk, CountsOk, EntriesPlaced, EntriesTimed, Bump;
  }

  /** Creating an entry and deleting it again leaves nothing but a used id. */
  lemma DeletedBook(p: Params, s: State, a: Address, source: Source, penalty: int)
    requires p.Valid() && InvFloating(p, s, {}) && a.service !in s.mapAddr
    ensures var s1 := Created(p, s, a, source, penalty);
            Deletable(s1, s.nIdCount) && BookOf(Delete(p, s1, s.nIdCount)) == BookOf(s).(nextId := s.nIdCount + 1)
  {
    hide InvFloating, Delete, Deletable, Created, Trim;
    CreatedKeeps(p, s, a, source, penalty);
    CreatedBook(p, s, a, source, penalty);
    var id, s1 := s.nIdCount, Created(p, s, a, source, penalty);
    DeleteKeeps(p, s1, {id}, id);
    DeleteFrame(p, s1, id);
    assert {id} - {id} == {};
    var s', b := Delete(p, s1, id), BookOf(s).(nextId := id + 1);
    forall x | x in s'.mapInfo ensures x in b.records && b.records[x] == RecordOf(s'.mapInfo[x]) {
      assert SameEntry(s1, s', x);
      assert BookOf(s1).records[x] == b.records[x];
    }
    Trimmed(p, b, s');
    NothingToTrim(p, s);
    TrimNext(BookOf(s), id + 1);
  }

  lemma TrimNext(b: Book, n: nat)
    ensures Trim(b.(nextId := n)) == Trim(b).(nextId := n)
  {
  }

  /** Services add up: a service is offered if either side offers it. */
  lemma ServicesAddUp(x: bv64, y: bv64, bit: bv64)
    ensures AllServices(x, y) & bit == (x & bit) | (y & bit)
  {
  }

  lemma RenewedRecord(info: Info, a: Address, penalty: int, now: int)
    ensures RecordOf(Refreshed(info, a, penalty, now)) == Renewed(RecordOf(info), a, penalty, now)
  {
    hide AllServices;
  }

  lemma AddKnownRefines(p: Params, s: State, id: Id, a: Address, source: Source, penalty: int, t: Times, draw: nat)
    requires p.Valid() && InvFloating(p, s, {}) && id in s.mapInfo && s.mapInfo[id].addr == a.service
    ensures Stocked(BookOf(s))
    ensures var (s', inserted) := AddKnown(p, s, id, a, source, penalty, t, draw);
            (BookOf(s'), inserted) == PlainAddKnown(p, BookOf(s), id, a, source, penalty, t, draw)
  {
    hide InvFloating, ClearNew, Clearable, Deletable, Delete, Placeable, Put, IsTerrible, Worthless, Refreshed, Renewed;
    hide BookOf, Stocked, Refs;
    BookFields(s);
    BookRecord(s, id);
    BookStocked(p, s, {});
    KnownKeeps(p, s, id, a, penalty, t.heard);
    RenewedRecord(s.mapInfo[id], a, penalty, t.heard);
    var slot := p.NewSlot(a.service, source);
    var info := Refreshed(s.mapInfo[id], a, penalty, t.heard);
    RefreshedIs(s.mapInfo[id], a, penalty, t.heard);
    var s1 := WithInfo(s, id, info);
    TouchedBook(s, id, info);
    KnownIsShelved(p, s, id);
    RefCountRange(p, s, id);
    if !info.inTried && info.refCount < 8 {
      InNewTable(p, s, id);
      CanPlace(p, s1, {}, id, slot);
      if slot in s.vvNew && s.vvNew[slot] != id {
        BookStockedIs(BookOf(s), slot);
        BookRecord(s, s.vvNew[slot]);
        SameQuality(s.mapInfo[s.vvNew[slot]], t.judged);
      }
      if slot !in s1.vvNew || (s1.vvNew[slot] != id && Overwrites(s1, id, slot, t.judged)) {
        InsertBook(p, s1, {}, id, slot);
      }
    }
  }

  lemma RefreshedIs(info: Info, a: Address, penalty: int, now: int)
    ensures var info' := Refreshed(info, a, penalty, now);
            info' == info.(time := info'.time, services := info'.services)
  {
  }

  lemma TouchedBook(s: State, id: Id, info: Info)
    requires id in s.mapInfo
    ensures var b := BookOf(s); BookOf(WithInfo(s, id, info)) == b.(records := b.records[id := RecordOf(info)])
  {
  }

  lemma AddRefines(p: Params, s: State, a: Address, source: Source, penalty: int, t: Times, draw: nat)
    requires p.Valid() && InvFloating(p, s, {})
    ensures Stocked(BookOf(s))
    ensures var (s', inserted) := AddSingle(p, s, a, source, penalty, t, draw);
            (BookOf(s'), inserted) == PlainAdd(p, BookOf(s), a, source, penalty, t, draw)
  {
    hide InvFloating, AddKnown, AddUnknown, PlainAddKnown, PlainAddUnknown;
    BookStocked(p, s, {});
    LookupFinds(p, s, {}, a.service);
    FindKnown(p, s, a.service);
    var late := if p.selfAnnounced(a.service, source) then 0 else penalty;
    if Find(s, a.service).Some? {
      AddKnownRefines(p, s, Find(s, a.service).value, a, source, late, t, draw);
    } else {
      AddUnknownRefines(p, s, a, source, late, t.judged);
    }
  }

  // ---------- the other operations ----------

  lemma SmallUpdatesRefine(p: Params, s: State, a: Service, countFailure: bool, time: int, services: bv64)
    requires InvFloating(p, s, {})
    ensures BookOf(Attempt(s, a, countFailure, time)) == PlainAttempt(BookOf(s), a, countFailure, time)
    ensures BookOf(Connected(s, a, time)) == PlainConnected(BookOf(s), a, time)
    ensures BookOf(SetServices(s, a, services)) == PlainSetServices(BookOf(s), a, services)
  {
    hide InvFloating, Lookup, BookOf;
    LookupFinds(p, s, {}, a);
    if Find(s, a).Some? {
      var id := Find(s, a).value;
      BookRecord(s, id);
      TouchedBook(s, id, Attempted(s.mapInfo[id], countFailure, time, s.lastGood));
      TouchedBook(s, id, s.mapInfo[id].(time := time));
      TouchedBook(s, id, s.mapInfo[id].(services := services));
    }
  }

  lemma ResolveOneRefines(p: Params, s: State, id: Id, now: int)
    requires p.Valid() && InvFloating(p, s, {}) && now > 0
    ensures Stocked(BookOf(s)) && BookOf(ResolveOne(p, s, id, now)) == PlainResolve(p, BookOf(s), id, now)
  {
    hide InvFloating, Good, PlainGood, BookOf, Stocked;
    BookFields(s);
    BookStocked(p, s, {});
    BookRecord(s, id);
    if id in s.mapInfo {
      var a := s.mapInfo[id].addr;
      var slot := p.TriedSlot(a);
      if slot in s.vvTried {
        BookStockedIs(BookOf(s), slot);
        BookRecord(s, s.vvTried[slot]);
      }
      GoodRefines(p, s, a, false, now);
      BookUpdates(Good(p, s, a, false, now).0);
      BookFields(Good(p, s, a, false, now).0);
    }
    BookUpdates(s);
  }

  lemma SelectRefines(p: Params, s: State, pick: Id)
    requires Inv(p, s)
    ensures Stocked(BookOf(s)) && (pick in s.collisions && pick in s.mapInfo ==> HasOccupant(p, s, pick))
    ensures var (s', found) := SelectTriedCollision(p, s, pick);
            (BookOf(s'), if found.Some? then Some(RecordOf(found.value)) else None) == PlainSelect(p, BookOf(s), pick)
  {
    hide InvFloating, CollisionsOk;
    BookStocked(p, s, {});
    CollisionFindsOccupant(p, s, pick);
  }

  lemma SwapBook(s: State, i: nat, j: nat)
    requires i < |s.vRandom| && j < |s.vRandom| && s.vRandom[i] in s.mapInfo && s.vRandom[j] in s.mapInfo
    ensures BookOf(SwapRandom(s, i, j)) == BookOf(s)
  {
    hide SwapRandom;
    SwapFrame(s, i, j);
    SwapFields(s, i, j);
    var s' := SwapRandom(s, i, j);
    forall id | id in s.mapInfo ensures RecordOf(s'.mapInfo[id]) == RecordOf(s.mapInfo[id]) {
      assert SameEntry(s, s', id);
    }
  }

  /** Handing out addresses leaves the book alone. */
  lemma {:induction false} GetAddrBook(p: Params, s: State, n: nat, found: seq<Id>, limit: nat,
                                       wanted: Service -> bool, now: int, picks: nat -> nat)
    requires InvFloating(p, s, {})
    ensures BookOf(GetAddrFrom(p, s, n, found, limit, wanted, now, picks).0) == BookOf(s)
    decreases |s.vRandom| - n
  {
    hide InvFloating, SwapRandom, Collect, Draw, BookOf;
    if n < |s.vRandom| && |found| < limit {
      var j := Draw(|s.vRandom|, n, picks(n));
      RandomOrder(p, s);
      SwapRandomKeeps(p, s, {}, n, j);
      SwapFields(s, n, j);
      SwapBook(s, n, j);
      var s' := SwapRandom(s, n, j);
      GetAddrBook(p, s', n + 1, Collect(s', n, found, wanted, now), limit, wanted, now, picks);
    }
  }
}
