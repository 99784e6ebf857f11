/** Writing the address manager to disk and reading it back.

    The file holds the entries of both tables and, for every bucket of the new table, which
    entries it contains. Positions inside buckets, the tried table, the address lookup and
    the random order are left out and rebuilt. The file is modelled as its parsed content:
    each list comes with its length, so the entry counts of the header are the lengths. What
    is read need not come from this program: addresses may repeat and times may be odd. */
module AddrManFile {
  import opened AddrMan

  /** What is written of an entry. */
  datatype Stored = Stored(addr: Service, source: Source, time: int, services: bv64, lastSuccess: int, attempts: nat)

  /** Entry number `index` of the new list sits in this bucket. */
  datatype BucketEntry = BucketEntry(bucket: nat, index: int)

  datatype Content = Content(
    newBuckets: nat, newInfos: seq<Stored>, triedInfos: seq<Stored>, entries: seq<BucketEntry>, asmapChecksum: nat)

  /** Bucket entries are listed bucket by bucket. */
  type File = c: Content | forall j :: 0 <= j < |c.entries| ==> c.entries[j].bucket < c.newBuckets
    witness Content(0, [], [], [], 0)

  function Store(info: Info): Stored {
    Stored(info.addr, info.source, info.time, info.services, info.lastSuccess, info.attempts)
  }

  // ---------- writing ----------

  /** The ids with references, in the iteration order of the id table. */
  function NewIds(s: State, order: seq<Id>): seq<Id> {
    if order == [] then [] else
      var id := order[|order| - 1];
      NewIds(s, order[..|order| - 1]) + (if id in s.mapInfo && s.mapInfo[id].refCount != 0 then [id] else [])
  }

  function TriedIds(s: State, order: seq<Id>): seq<Id> {
    if order == [] then [] else
      var id := order[|order| - 1];
      TriedIds(s, order[..|order| - 1]) + (if id in s.mapInfo && s.mapInfo[id].inTried then [id] else [])
  }

  /** The occupied slots in the buckets before b, and in bucket b before position i. */
  function SlotsBefore(vvNew: Table, b: nat, i: nat, size: nat): seq<Slot>
    decreases b, i
  {
    if i > 0 then SlotsBefore(vvNew, b, i - 1, size) + (if Slot(b, i - 1) in vvNew then [Slot(b, i - 1)] else [])
    else if b > 0 then SlotsBefore(vvNew, b - 1, size, size)
    else []
  }

  /** Where an id stands in a list of ids. */
  function IndexOf(ids: seq<Id>, id: Id): (k: nat)
    ensures id in ids ==> k < |ids| && ids[k] == id
  {
    if ids == [] || ids[0] == id then 0 else 1 + IndexOf(ids[1..], id)
  }

  function Stores(s: State, ids: seq<Id>): (r: seq<Stored>)
    requires forall k :: 0 <= k < |ids| ==> ids[k] in s.mapInfo
    ensures |r| == |ids| && forall k :: 0 <= k < |ids| ==> r[k] == Store(s.mapInfo[ids[k]])
  {
    seq(|ids|, k requires 0 <= k < |ids| => Store(s.mapInfo[ids[k]]))
  }

  function EntriesOf(s: State, newIds: seq<Id>, slots: seq<Slot>): (r: seq<BucketEntry>)
    requires forall j :: 0 <= j < |slots| ==> slots[j] in s.vvNew
    ensures |r| == |slots|
    ensures forall j :: 0 <= j < |slots| ==> r[j] == BucketEntry(slots[j].bucket, IndexOf(newIds, s.vvNew[slots[j]]))
  {
    seq(|slots|, j requires 0 <= j < |slots| => BucketEntry(slots[j].bucket, IndexOf(newIds, s.vvNew[slots[j]])))
  }

  /** Every id once. */
  ghost predicate IsOrder(s: State, order: seq<Id>) {
    && Distinct(order)
    && (forall id :: id in s.mapInfo <==> id in order)
  }

  function Serialize(p: Params, s: State, order: seq<Id>, asmapChecksum: nat): File {
    var newIds, triedIds := NewIds(s, order), TriedIds(s, order);
    var slots := SlotsBefore(s.vvNew, p.newBuckets, 0, p.bucketSize);
    NewIdsKnown(s, order);
    TriedIdsKnown(s, order);
    SlotsSound(s.vvNew, p.newBuckets, 0, p.bucketSize);
    Content(p.newBuckets, Stores(s, newIds), Stores(s, triedIds), EntriesOf(s, newIds, slots), asmapChecksum)
  }

  lemma {:induction false} NewIdsKnown(s: State, order: seq<Id>)
    ensures forall k :: 0 <= k < |NewIds(s, order)| ==>
              var id := NewIds(s, order)[k]; id in order && id in s.mapInfo && s.mapInfo[id].refCount != 0
    ensures forall id :: id in order && id in s.mapInfo && s.mapInfo[id].refCount != 0 ==> id in NewIds(s, order)
  {
    if order != [] {
      NewIdsKnown(s, order[..|order| - 1]);
    }
  }

  lemma {:induction false} TriedIdsKnown(s: State, order: seq<Id>)
    ensures forall k :: 0 <= k < |TriedIds(s, order)| ==>
              var id := TriedIds(s, order)[k]; id in order && id in s.mapInfo && s.mapInfo[id].inTried
    ensures forall id :: id in order && id in s.mapInfo && s.mapInfo[id].inTried ==> id in TriedIds(s, order)
  {
    if order != [] {
      TriedIdsKnown(s, order[..|order| - 1]);
    }
  }

  ghost predicate Distinct<T>(xs: seq<T>) {
    forall i, j :: 0 <= i < j < |xs| ==> xs[i] != xs[j]
  }

  lemma {:induction false} NewIdsDistinct(s: State, order: seq<Id>)
    requires Distinct(order)
    ensures Distinct(NewIds(s, order))
  {
    if order != [] {
      NewIdsDistinct(s, order[..|order| - 1]);
      NewIdsKnown(s, order[..|order| - 1]);
    }
  }

  lemma {:induction false} TriedIdsDistinct(s: State, order: seq<Id>)
    requires Distinct(order)
    ensures Distinct(TriedIds(s, order))
  {
    if order != [] {
      TriedIdsDistinct(s, order[..|order| - 1]);
      TriedIdsKnown(s, order[..|order| - 1]);
    }
  }

  lemma {:induction false} SlotsSound(vvNew: Table, b: nat, i: nat, size: nat)
    ensures forall j :: 0 <= j < |SlotsBefore(vvNew, b, i, size)| ==>
              SlotsBefore(vvNew, b, i, size)[j] in vvNew && Before(SlotsBefore(vvNew, b, i, size)[j], b, i)
    decreases b, i
  {
    if i > 0 {
      SlotsSound(vvNew, b, i - 1, size);
    } else if b > 0 {
      SlotsSound(vvNew, b - 1, size, size);
    }
  }

  lemma {:induction false} SlotsDistinct(vvNew: Table, b: nat, i: nat, size: nat)
    ensures Distinct(SlotsBefore(vvNew, b, i, size))
    decreases b, i
  {
    if i > 0 {
      SlotsDistinct(vvNew, b, i - 1, size);
      SlotsSound(vvNew, b, i - 1, size);
    } else if b > 0 {
      SlotsDistinct(vvNew, b - 1, size, size);
    }
  }

  lemma {:induction false} SlotsComplete(vvNew: Table, b: nat, i: nat, size: nat, slot: Slot)
    requires slot in vvNew && Before(slot, b, i) && slot.pos < size
    ensures slot in SlotsBefore(vvNew, b, i, size)
    decreases b, i
  {
    if i > 0 {
      if slot != Slot(b, i - 1) {
        SlotsComplete(vvNew, b, i - 1, size, slot);
      }
    } else {
      SlotsComplete(vvNew, b - 1, size, size, slot);
    }
  }

  // ---------- reading ----------

  /** An entry as it comes from the file; its id is s.nIdCount and it is in no table yet. */
  function ReadEntry(p: Params, s: State, st: Stored): State {
    var s1 := Create(p, s, Address(st.addr, st.time, st.services), st.source);
    WithInfo(s1, s.nIdCount, s1.mapInfo[s.nIdCount].(lastSuccess := st.lastSuccess, attempts := st.attempts))
  }

  function ReadNew(p: Params, infos: seq<Stored>, n: nat): State
    requires n <= |infos|
  {
    if n == 0 then Init() else ReadEntry(p, ReadNew(p, infos, n - 1), infos[n - 1])
  }

  /** A tried entry gets the slot its address hashes to, or is lost. */
  function ReadTriedEntry(p: Params, s: State, st: Stored): State {
    if p.valid(st.addr) && p.TriedSlot(st.addr) !in s.vvTried
    then ToTried(p, ReadEntry(p, s, st), s.nIdCount)
    else s
  }

  function ReadTried(p: Params, s: State, infos: seq<Stored>, n: nat): State
    requires n <= |infos|
  {
    if n == 0 then s else ReadTriedEntry(p, ReadTried(p, s, infos, n - 1), infos[n - 1])
  }

  /** A new entry goes to the slot its address has in that bucket, or to its primary slot. */
  function RestoreEntry(p: Params, s: State, e: BucketEntry, count: nat, restore: bool): State {
    if e.index < 0 || e.index >= count || e.index !in s.mapInfo then s else
      var info := s.mapInfo[e.index];
      if !p.valid(info.addr) || info.refCount >= NEW_BUCKETS_PER_ADDRESS then s else
        var slot, primary := p.NewSlotIn(info.addr, e.bucket), p.NewSlot(info.addr, info.source);
        if restore && slot !in s.vvNew then AddRef(s, e.index, slot)
        else if primary !in s.vvNew then AddRef(s, e.index, primary)
        else s
  }

  function RestoreAll(p: Params, s: State, entries: seq<BucketEntry>, n: nat, count: nat, restore: bool): State
    requires n <= |entries|
  {
    if n == 0 then s
    else RestoreEntry(p, RestoreAll(p, s, entries, n - 1, count, restore), entries[n - 1], count, restore)
  }

  // ---------- what every file leads to ----------

  /** The address of an entry leads to an entry with that address, not necessarily to this one. */
  predicate LookupOk(m: InfoMap, mapAddr: map<Service, Id>) {
    && (forall a :: a in mapAddr ==> mapAddr[a] in m && m[mapAddr[a]].addr == a)
    && (forall id :: id in m ==> m[id].addr in mapAddr)
  }

  ghost predicate Reading(p: Params, s: State, floating: set<Id>) {
    InvCore(p, s, floating) && LookupOk(s.mapInfo, s.mapAddr)
  }

  function Reborn(st: Stored, pos: int): Info {
    Info(st.addr, st.source, st.time, st.services, 0, 0, st.lastSuccess, st.attempts, 0, false, pos)
  }

  lemma CreateLookup(p: Params, s: State, a: Address, source: Source)
    requires LookupOk(s.mapInfo, s.mapAddr) && IdsOk(s.mapInfo, s.nIdCount)
    ensures var s' := Create(p, s, a, source); LookupOk(s'.mapInfo, s'.mapAddr)
  {
  }

  lemma TouchLookup(m: InfoMap, mapAddr: map<Service, Id>, id: Id, info: Info)
    requires LookupOk(m, mapAddr) && id in m && info.addr == m[id].addr
    ensures LookupOk(m[id := info], mapAddr)
  {
  }

  lemma ReadEntryKeeps(p: Params, s: State, floating: set<Id>, st: Stored)
    requires Reading(p, s, floating)
    ensures var s' := ReadEntry(p, s, st);
            && Reading(p, s', floating + {s.nIdCount})
            && s' == s.(nIdCount := s.nIdCount + 1, mapInfo := s.mapInfo[s.nIdCount := Reborn(st, |s.vRandom|)],
                        mapAddr := s.mapAddr[st.addr := s.nIdCount], vRandom := s.vRandom + [s.nIdCount],
                        nNew := s.nNew + 1, counts := Bump(s.counts, p.network(st.addr), 1, 0))
  {
    hide RandomOk, TriedOk, NewOk, RefsOk, CountsOk, EntriesPlaced, LookupOk;
    var a := Address(st.addr, st.time, st.services);
    CreateCore(p, s, floating, a, st.source);
    CreateLookup(p, s, a, st.source);
    var s1 := Create(p, s, a, st.source);
    var info := s1.mapInfo[s.nIdCount].(lastSuccess := st.lastSuccess, attempts := st.attempts);
    TouchedCore(p, s1, floating + {s.nIdCount}, s.nIdCount, info);
    TouchLookup(s1.mapInfo, s1.mapAddr, s.nIdCount, info);
  }

  /** The ids below n. */
  function Below(n: nat): (r: set<Id>)
    ensures forall k: Id :: k in r <==> k < n
  {
    if n == 0 then {} else Below(n - 1) + {n - 1}
  }

  lemma BelowNext(n: nat)
    ensures Below(n) + {n} == Below(n + 1) && n !in Below(n)
  {
  }

  /** After n new entries: ids 0 to n - 1, all floating. */
  ghost predicate NewRead(p: Params, infos: seq<Stored>, n: nat, s: State)
    requires n <= |infos|
  {
    && Reading(p, s, Below(n)) && s.nIdCount == n && s.mapInfo.Keys == Below(n) && |s.vRandom| == n
    && (forall k :: 0 <= k < n ==> s.mapInfo[k] == Reborn(infos[k], k))
    && s.vvNew == map[] && s.vvTried == map[] && s.collisions == {}
  }

  lemma {:induction false} NewIsRead(p: Params, infos: seq<Stored>, n: nat)
    requires n <= |infos|
    ensures NewRead(p, infos, n, ReadNew(p, infos, n))
  {
    if n == 0 {
      EmptyOk(p);
      assert Below(0) == {};
    } else {
      hide Reading;
      NewIsRead(p, infos, n - 1);
      var s := ReadNew(p, infos, n - 1);
      ReadEntryKeeps(p, s, Below(n - 1), infos[n - 1]);
      BelowNext(n - 1);
      NewReadNext(p, infos, n - 1, s);
    }
  }

  lemma NewReadNext(p: Params, infos: seq<Stored>, n: nat, s: State)
    requires n < |infos| && NewRead(p, infos, n, s)
    requires var s' := ReadEntry(p, s, infos[n]);
             && Reading(p, s', Below(n + 1))
             && s'.mapInfo == s.mapInfo[n := Reborn(infos[n], n)] && s'.vRandom == s.vRandom + [n]
    ensures NewRead(p, infos, n + 1, ReadEntry(p, s, infos[n]))
  {
    hide Reading;
    BelowNext(n);
    var s' := ReadEntry(p, s, infos[n]);
    assert s'.mapInfo.Keys == s.mapInfo.Keys + {n};
  }

  /** After n tried entries, whether or not some were lost. */
  ghost predicate TriedRead(p: Params, f: File, n: nat, s: State)
    requires n <= |f.triedInfos|
  {
    && Reading(p, s, Below(|f.newInfos|))
    && (forall k :: 0 <= k < |f.newInfos| ==> k in s.mapInfo && s.mapInfo[k] == Reborn(f.newInfos[k], k))
    && s.vvNew == map[] && s.collisions == {}
  }

  /** Reading one tried entry: either lost, or a new id in the tried table. */
  lemma ReadTriedEntryKeeps(p: Params, s: State, floating: set<Id>, st: Stored)
    requires Reading(p, s, floating)
    ensures var s' := ReadTriedEntry(p, s, st);
            && Reading(p, s', floating)
            && (!p.valid(st.addr) || p.TriedSlot(st.addr) in s.vvTried ==> s' == s)
            && (p.valid(st.addr) && p.TriedSlot(st.addr) !in s.vvTried ==>
                  && s'.mapInfo == s.mapInfo[s.nIdCount := Reborn(st, |s.vRandom|).(inTried := true)]
                  && s'.vvTried == s.vvTried[p.TriedSlot(st.addr) := s.nIdCount]
                  && s'.mapAddr == s.mapAddr[st.addr := s.nIdCount] && s'.vRandom == s.vRandom + [s.nIdCount]
                  && s'.vvNew == s.vvNew && s'.collisions == s.collisions && s'.nIdCount == s.nIdCount + 1)
  {
    hide RandomOk, TriedOk, NewOk, RefsOk, CountsOk, EntriesPlaced, LookupOk;
    if p.valid(st.addr) && p.TriedSlot(st.addr) !in s.vvTried {
      ReadEntryKeeps(p, s, floating, st);
      var s1 := ReadEntry(p, s, st);
      ToTriedCore(p, s1, floating + {s.nIdCount}, s.nIdCount);
      TouchLookup(s1.mapInfo, s1.mapAddr, s.nIdCount, s1.mapInfo[s.nIdCount].(inTried := true));
      NewIdOutside(p, s, floating);
      assert floating + {s.nIdCount} - {s.nIdCount} == floating;
      TwiceUpdated(s.mapInfo, s.nIdCount, Reborn(st, |s.vRandom|), Reborn(st, |s.vRandom|).(inTried := true));
    }
  }

  lemma TwiceUpdated(m: InfoMap, id: Id, first: Info, second: Info)
    ensures m[id := first][id := second] == m[id := second]
  {
  }

  lemma NewIdOutside(p: Params, s: State, floating: set<Id>)
    requires InvCore(p, s, floating)
    ensures s.nIdCount !in floating && s.nIdCount !in s.mapInfo
  {
  }

  lemma TriedReadNext(p: Params, f: File, n: nat, s: State)
    requires n < |f.triedInfos| && TriedRead(p, f, n, s)
    ensures TriedRead(p, f, n + 1, ReadTriedEntry(p, s, f.triedInfos[n]))
  {
    hide InvCore, LookupOk, ReadTriedEntry;
    ReadTriedEntryKeeps(p, s, Below(|f.newInfos|), f.triedInfos[n]);
    NewIdOutside(p, s, Below(|f.newInfos|));
  }

  lemma {:induction false} TriedIsRead(p: Params, f: File, n: nat)
    requires n <= |f.triedInfos|
    ensures TriedRead(p, f, n, ReadTried(p, ReadNew(p, f.newInfos, |f.newInfos|), f.triedInfos, n))
  {
    hide Reading, ReadTriedEntry, ReadNew;
    if n == 0 {
      NewIsRead(p, f.newInfos, |f.newInfos|);
    } else {
      TriedIsRead(p, f, n - 1);
      TriedReadNext(p, f, n - 1, ReadTried(p, ReadNew(p, f.newInfos, |f.newInfos|), f.triedInfos, n - 1));
    }
  }

  /** Among the first `count` ids, those without a reference. */
  function Unplaced(s: State, count: nat): (r: set<Id>)
    ensures forall k :: k in r <==> k < count && k in s.mapInfo && s.mapInfo[k].refCount == 0
  {
    set k | k in Below(count) && k in s.mapInfo && s.mapInfo[k].refCount == 0
  }

  /** While the new table is being filled. */
  ghost predicate Restoring(p: Params, count: nat, s: State) {
    && Reading(p, s, Unplaced(s, count)) && s.collisions == {}
    && (forall k: Id :: k < count ==> k in s.mapInfo && !s.mapInfo[k].inTried)
  }

  lemma PlacedKeeps(p: Params, count: nat, s: State, k: Id, slot: Slot)
    requires Restoring(p, count, s) && k < count && s.mapInfo[k].refCount < NEW_BUCKETS_PER_ADDRESS
    requires slot !in s.vvNew && slot.bucket < p.newBuckets && slot == p.NewSlotIn(s.mapInfo[k].addr, slot.bucket)
    ensures Restoring(p, count, AddRef(s, k, slot))
  {
    hide InvCore, LookupOk;
    AddRefCore(p, s, Unplaced(s, count), k, slot);
    TouchLookup(s.mapInfo, s.mapAddr, k, s.mapInfo[k].(refCount := s.mapInfo[k].refCount + 1));
    RefsCounted(p, s, count, k);
    assert Unplaced(AddRef(s, k, slot), count) == Unplaced(s, count) - {k};
  }

  lemma RefsCounted(p: Params, s: State, count: nat, k: Id)
    requires InvCore(p, s, Unplaced(s, count)) && k in s.mapInfo
    ensures s.mapInfo[k].refCount == |Refs(s.vvNew, k)| >= 0
  {
  }

  lemma RestoreEntryKeeps(p: Params, count: nat, s: State, e: BucketEntry, restore: bool)
    requires p.Valid() && Restoring(p, count, s) && (restore ==> e.bucket < p.newBuckets)
    ensures Restoring(p, count, RestoreEntry(p, s, e, count, restore))
  {
    hide Reading, AddRef;
    if 0 <= e.index < count && s.mapInfo[e.index].refCount < NEW_BUCKETS_PER_ADDRESS {
      var info := s.mapInfo[e.index];
      var slot, primary := p.NewSlotIn(info.addr, e.bucket), p.NewSlot(info.addr, info.source);
      if restore && slot !in s.vvNew {
        PlacedKeeps(p, count, s, e.index, slot);
      } else if primary !in s.vvNew {
        PlacedKeeps(p, count, s, e.index, primary);
      }
    }
  }

  lemma {:induction false} RestoreAllKeeps(p: Params, count: nat, s: State, entries: seq<BucketEntry>, n: nat,
                                           restore: bool)
    requires p.Valid() && Restoring(p, count, s) && n <= |entries|
    requires restore ==> forall j :: 0 <= j < |entries| ==> entries[j].bucket < p.newBuckets
    ensures Restoring(p, count, RestoreAll(p, s, entries, n, count, restore))
  {
    hide Restoring, RestoreEntry;
    if n > 0 {
      RestoreAllKeeps(p, count, s, entries, n - 1, restore);
      RestoreEntryKeeps(p, count, RestoreAll(p, s, entries, n - 1, count, restore), entries[n - 1], restore);
    }
  }

  /** The tables after all lists are read, before pruning. */
  function Loaded(p: Params, f: File, restore: bool): State {
    var read := ReadTried(p, ReadNew(p, f.newInfos, |f.newInfos|), f.triedInfos, |f.triedInfos|);
    RestoreAll(p, read, f.entries, |f.entries|, |f.newInfos|, restore)
  }

  predicate CanRestore(p: Params, f: File, asmapChecksum: nat) {
    f.newBuckets == p.newBuckets && f.asmapChecksum == asmapChecksum
  }

  lemma ReadRestoring(p: Params, f: File, s: State)
    requires TriedRead(p, f, |f.triedInfos|, s)
    ensures Restoring(p, |f.newInfos|, s)
  {
    hide Reading;
    assert Unplaced(s, |f.newInfos|) == Below(|f.newInfos|);
  }

  /** From every file, with or without the same bucketing as when it was written, the tables come
      out sound but for repeated addresses and odd times. */
  lemma LoadedKeeps(p: Params, f: File, asmapChecksum: nat)
    requires p.Valid()
    ensures Restoring(p, |f.newInfos|, Loaded(p, f, CanRestore(p, f, asmapChecksum)))
  {
    hide TriedRead, Restoring, ReadTried, ReadNew, RestoreAll;
    TriedIsRead(p, f, |f.triedInfos|);
    var read := ReadTried(p, ReadNew(p, f.newInfos, |f.newInfos|), f.triedInfos, |f.triedInfos|);
    ReadRestoring(p, f, read);
    RestoreAllKeeps(p, |f.newInfos|, read, f.entries, |f.entries|, CanRestore(p, f, asmapChecksum));
  }

  // ---------- pruning ----------

  /** An address of one of these entries. */
  ghost predicate AddressIn(m: InfoMap, ids: set<Id>, a: Service) {
    exists id :: id in ids && id in m && m[id].addr == a
  }

  /** These entries and their addresses are gone, and nothing else changed. */
  ghost predicate PrunedTo(s: State, floating: set<Id>, s': State) {
    && s'.mapInfo.Keys == s.mapInfo.Keys - floating && s'.collisions == s.collisions
    && s'.vvNew == s.vvNew && s'.vvTried == s.vvTried
    && (forall id :: id in s'.mapInfo ==> SameEntry(s, s', id))
    && (forall a :: a in s'.mapAddr <==> a in s.mapAddr && !AddressIn(s.mapInfo, floating, a))
    && (forall a :: a in s'.mapAddr ==> s'.mapAddr[a] == s.mapAddr[a])
  }

  lemma PruneNothing(s: State)
    ensures PrunedTo(s, {}, s)
  {
    forall id | id in s.mapInfo ensures SameEntry(s, s, id) {}
  }

  lemma PruneNext(s: State, floating: set<Id>, id: Id, s1: State, s2: State)
    requires id in floating && floating <= s.mapInfo.Keys && PrunedTo(s1, floating - {id}, s2)
    requires s1.mapInfo.Keys == s.mapInfo.Keys - {id} && s1.collisions == s.collisions
    requires s1.vvNew == s.vvNew && s1.vvTried == s.vvTried
    requires forall other :: other in s.mapInfo && other != id ==> SameEntry(s, s1, other)
    requires s1.mapAddr == s.mapAddr - {s.mapInfo[id].addr}
    ensures PrunedTo(s, floating, s2)
  {
    forall a
      ensures AddressIn(s.mapInfo, floating, a)
              <==> a == s.mapInfo[id].addr || AddressIn(s1.mapInfo, floating - {id}, a)
    {
      if AddressIn(s.mapInfo, floating, a) {
        var x :| x in floating && x in s.mapInfo && s.mapInfo[x].addr == a;
        if x != id {
          assert SameEntry(s, s1, x);
          assert x in floating - {id} && x in s1.mapInfo && s1.mapInfo[x].addr == a;
        }
      }
      if AddressIn(s1.mapInfo, floating - {id}, a) {
        var x :| x in floating - {id} && x in s1.mapInfo && s1.mapInfo[x].addr == a;
        assert SameEntry(s, s1, x);
      }
    }
    forall x | x in s2.mapInfo ensures SameEntry(s, s2, x) {
      assert SameEntry(s1, s2, x);
      assert SameEntry(s, s1, x);
    }
  }

  /** New entries without a reference are deleted. */
  ghost function Prune(p: Params, s: State, floating: set<Id>): (s': State)
    requires InvCore(p, s, floating)
    ensures InvCore(p, s', {}) && PrunedTo(s, floating, s') && (floating == {} ==> s' == s)
    decreases |floating|
  {
    hide RandomOk, TriedOk, NewOk, RefsOk, CountsOk, IdsOk, Delete, Deletable, PrunedTo;
    if floating == {} then PruneNothing(s); s else
      var id :| id in floating;
      DeleteCore(p, s, floating, id);
      DeleteFrame(p, s, id);
      var s1 := Delete(p, s, id);
      var s2 := Prune(p, s1, floating - {id});
      PruneNext(s, floating, id, s1, s2);
      s2
  }
}
