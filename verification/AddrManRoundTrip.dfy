/** Reading back what was written loses nothing. */
module AddrManRoundTrip {
  import opened Options
  import opened Arithmetic
  import opened AddrMan
  import opened AddrManFile
  import opened AddrManCheck
  import opened AddrManLoad

  /** The situation of one save: a consistent manager and an iteration order of its ids. */
  ghost predicate Saving(p: Params, s: State, order: seq<Id>) {
    && p.Valid() && InvFloating(p, s, {}) && IsOrder(s, order)
    && (forall id :: id in s.mapInfo ==> p.valid(s.mapInfo[id].addr))
  }

  // ---------- facts about the id lists ----------

  lemma EntryKinds(p: Params, s: State, id: Id)
    requires InvFloating(p, s, {}) && id in s.mapInfo
    ensures s.mapInfo[id].inTried <==> s.mapInfo[id].refCount == 0
    ensures s.mapInfo[id].inTried ==> s.mapInfo[id].lastSuccess > 0
    ensures s.mapInfo[id].lastSuccess >= 0 && s.mapInfo[id].refCount <= NEW_BUCKETS_PER_ADDRESS
    ensures s.mapInfo[id].refCount == |Refs(s.vvNew, id)|
  {
  }

  /** The new list holds the ids in the new table, the tried list those in the tried table. */
  lemma ListsPartition(p: Params, s: State, order: seq<Id>)
    requires Saving(p, s, order)
    ensures Distinct(NewIds(s, order)) && Distinct(TriedIds(s, order))
    ensures forall k :: 0 <= k < |NewIds(s, order)| ==>
              NewIds(s, order)[k] in s.mapInfo && !s.mapInfo[NewIds(s, order)[k]].inTried
    ensures forall k :: 0 <= k < |TriedIds(s, order)| ==>
              TriedIds(s, order)[k] in s.mapInfo && s.mapInfo[TriedIds(s, order)[k]].inTried
    ensures forall id :: id in s.mapInfo && !s.mapInfo[id].inTried ==> id in NewIds(s, order)
    ensures forall id :: id in s.mapInfo && s.mapInfo[id].inTried ==> id in TriedIds(s, order)
  {
    hide InvCore, LookupOk, InvFloating;
    NewIdsKnown(s, order);
    TriedIdsKnown(s, order);
    NewIdsDistinct(s, order);
    TriedIdsDistinct(s, order);
    forall id | id in s.mapInfo ensures s.mapInfo[id].inTried <==> s.mapInfo[id].refCount == 0 {
      EntryKinds(p, s, id);
    }
  }

  lemma SameAddress(p: Params, s: State, a: Id, b: Id)
    requires InvFloating(p, s, {}) && a in s.mapInfo && b in s.mapInfo && s.mapInfo[a].addr == s.mapInfo[b].addr
    ensures a == b
  {
  }

  /** The entry saved at position i of the two lists together. */
  function InfoAt(f: File, i: nat): Stored
    requires i < |f.newInfos| + |f.triedInfos|
  {
    if i < |f.newInfos| then f.newInfos[i] else f.triedInfos[i - |f.newInfos|]
  }

  /** The id that is saved there. */
  function SavedId(s: State, order: seq<Id>, i: nat): Id
    requires i < |NewIds(s, order)| + |TriedIds(s, order)|
  {
    if i < |NewIds(s, order)| then NewIds(s, order)[i] else TriedIds(s, order)[i - |NewIds(s, order)|]
  }

  lemma SavedIds(p: Params, s: State, order: seq<Id>, asmap: nat, i: nat)
    requires Saving(p, s, order) && i < |NewIds(s, order)| + |TriedIds(s, order)|
    ensures SavedId(s, order, i) in s.mapInfo
    ensures s.mapInfo[SavedId(s, order, i)].inTried <==> i >= |NewIds(s, order)|
    ensures var f := Serialize(p, s, order, asmap);
            && |f.newInfos| == |NewIds(s, order)| && |f.triedInfos| == |TriedIds(s, order)|
            && InfoAt(f, i) == Store(s.mapInfo[SavedId(s, order, i)])
  {
    hide InvCore, LookupOk, InvFloating, NewIds, TriedIds, SlotsBefore, IndexOf, IsOrder;
    ListsPartition(p, s, order);
  }

  lemma SavedLengths(p: Params, s: State, order: seq<Id>, asmap: nat)
    ensures var f := Serialize(p, s, order, asmap);
            |f.newInfos| == |NewIds(s, order)| && |f.triedInfos| == |TriedIds(s, order)|
  {
    hide NewIds, TriedIds, SlotsBefore, IndexOf;
  }

  lemma SavedIdsDiffer(p: Params, s: State, order: seq<Id>, i: nat, j: nat)
    requires Saving(p, s, order) && i < j < |NewIds(s, order)| + |TriedIds(s, order)|
    ensures SavedId(s, order, i) != SavedId(s, order, j)
  {
    hide InvCore, LookupOk, InvFloating;
    ListsPartition(p, s, order);
    SavedIds(p, s, order, 0, i);
    SavedIds(p, s, order, 0, j);
  }

  /** The occupied slots of the new table in the order they are written. */
  function Slots(p: Params, s: State): seq<Slot> {
    SlotsBefore(s.vvNew, p.newBuckets, 0, p.bucketSize)
  }

  lemma SlotsKnown(p: Params, s: State)
    requires p.Valid() && InvFloating(p, s, {})
    ensures var slots := Slots(p, s);
            && Distinct(slots)
            && (forall j :: 0 <= j < |slots| ==> slots[j] in s.vvNew && slots[j].bucket < p.newBuckets)
            && (forall slot :: slot in s.vvNew ==> slot in slots)
  {
    hide AddrOk, RandomOk, TriedOk, RefsOk, CountsOk, EntriesPlaced, IdsOk, SlotsBefore;
    SlotsSound(s.vvNew, p.newBuckets, 0, p.bucketSize);
    SlotsDistinct(s.vvNew, p.newBuckets, 0, p.bucketSize);
    forall slot | slot in s.vvNew ensures slot in Slots(p, s) {
      SlotsComplete(s.vvNew, p.newBuckets, 0, p.bucketSize, slot);
    }
  }

  // ---------- the tried table comes back ----------

  /** After n tried entries of a saved file: none was lost. */
  ghost predicate TriedBack(f: File, n: nat, t: State)
    requires n <= |f.triedInfos|
  {
    && t.nIdCount == |f.newInfos| + n && |t.vRandom| == |f.newInfos| + n
    && t.mapInfo.Keys == Below(|f.newInfos| + n)
    && (forall j :: 0 <= j < n ==>
          t.mapInfo[|f.newInfos| + j] == Reborn(f.triedInfos[j], |f.newInfos| + j).(inTried := true))
  }

  lemma OneTriedSlot(p: Params, s: State, a: Id, b: Id)
    requires InvFloating(p, s, {}) && a in s.mapInfo && b in s.mapInfo && s.mapInfo[a].inTried && s.mapInfo[b].inTried
    requires p.TriedSlot(s.mapInfo[a].addr) == p.TriedSlot(s.mapInfo[b].addr)
    ensures a == b
  {
  }

  lemma TriedHolder(p: Params, t: State, floating: set<Id>, slot: Slot)
    requires InvCore(p, t, floating) && slot in t.vvTried
    ensures t.vvTried[slot] in t.mapInfo && t.mapInfo[t.vvTried[slot]].inTried
            && slot == p.TriedSlot(t.mapInfo[t.vvTried[slot]].addr)
  {
  }

  /** The slot of the next tried entry is still free. */
  lemma NextSlotFree(p: Params, s: State, order: seq<Id>, asmap: nat, n: nat, t: State)
    requires Saving(p, s, order)
    requires var f := Serialize(p, s, order, asmap);
             n < |f.triedInfos| && TriedRead(p, f, n, t) && TriedBack(f, n, t)
    ensures var f := Serialize(p, s, order, asmap);
            p.valid(f.triedInfos[n].addr) && p.TriedSlot(f.triedInfos[n].addr) !in t.vvTried
  {
    hide InvCore, LookupOk, InvFloating, NewIds, TriedIds, IsOrder, Serialize;
    var f := Serialize(p, s, order, asmap);
    var count := |f.newInfos|;
    SavedLengths(p, s, order, asmap);
    SavedIds(p, s, order, asmap, count + n);
    assert InfoAt(f, count + n) == f.triedInfos[n];
    var slot := p.TriedSlot(f.triedInfos[n].addr);
    if slot in t.vvTried {
      TriedHolder(p, t, Below(count), slot);
      var id := t.vvTried[slot];
      assert id in Below(count + n);
      var j := id - count;
      SavedIds(p, s, order, asmap, id);
      assert InfoAt(f, id) == f.triedInfos[j];
      OneTriedSlot(p, s, SavedId(s, order, id), SavedId(s, order, count + n));
      SavedIdsDiffer(p, s, order, id, count + n);
    }
  }

  lemma TriedBackNext(f: File, n: nat, t: State, t': State)
    requires n < |f.triedInfos| && TriedBack(f, n, t)
    requires t'.mapInfo == t.mapInfo[t.nIdCount := Reborn(f.triedInfos[n], |t.vRandom|).(inTried := true)]
    requires t'.vRandom == t.vRandom + [t.nIdCount] && t'.nIdCount == t.nIdCount + 1
    ensures TriedBack(f, n + 1, t')
  {
    hide Reborn;
    BelowNext(|f.newInfos| + n);
    assert t'.mapInfo.Keys == t.mapInfo.Keys + {t.nIdCount};
  }

  lemma TriedBackStep(p: Params, s: State, order: seq<Id>, asmap: nat, n: nat, t: State)
    requires Saving(p, s, order)
    requires var f := Serialize(p, s, order, asmap);
             n < |f.triedInfos| && TriedRead(p, f, n, t) && TriedBack(f, n, t)
    ensures var f := Serialize(p, s, order, asmap);
            TriedBack(f, n + 1, ReadTriedEntry(p, t, f.triedInfos[n]))
  {
    hide InvCore, LookupOk, InvFloating, Serialize, ReadTriedEntry, Saving, TriedBack;
    var f := Serialize(p, s, order, asmap);
    NextSlotFree(p, s, order, asmap, n, t);
    ReadTriedEntryKeeps(p, t, Below(|f.newInfos|), f.triedInfos[n]);
    TriedBackNext(f, n, t, ReadTriedEntry(p, t, f.triedInfos[n]));
  }

  lemma TriedBackStart(p: Params, f: File, t: State)
    requires NewRead(p, f.newInfos, |f.newInfos|, t)
    ensures TriedBack(f, 0, t)
  {
    hide InvCore, LookupOk, InvFloating;
  }

  lemma {:induction false} TriedComesBack(p: Params, s: State, order: seq<Id>, asmap: nat, n: nat)
    requires Saving(p, s, order) && n <= |Serialize(p, s, order, asmap).triedInfos|
    ensures var f := Serialize(p, s, order, asmap);
            TriedBack(f, n, ReadTried(p, ReadNew(p, f.newInfos, |f.newInfos|), f.triedInfos, n))
  {
    hide Serialize, ReadNew, ReadTriedEntry, Saving, NewRead, TriedRead, TriedBack;
    var f := Serialize(p, s, order, asmap);
    if n == 0 {
      NewIsRead(p, f.newInfos, |f.newInfos|);
      TriedBackStart(p, f, ReadNew(p, f.newInfos, |f.newInfos|));
    } else {
      TriedComesBack(p, s, order, asmap, n - 1);
      TriedIsRead(p, f, n - 1);
      TriedBackStep(p, s, order, asmap, n - 1, ReadTried(p, ReadNew(p, f.newInfos, |f.newInfos|), f.triedInfos, n - 1));
    }
  }

  // ---------- the new table comes back ----------

  /** Entries differ from those read at most in their reference counts. */
  ghost predicate EntriesKept(read: InfoMap, m: InfoMap) {
    && (forall id :: id in m <==> id in read)
    && forall id :: id in read ==> m[id] == read[id].(refCount := m[id].refCount)
  }

  /** Slots hold the saved owner under its new name. */
  ghost predicate Renamed(saved: Table, newIds: seq<Id>, table: Table) {
    forall slot :: slot in table ==>
      slot in saved && saved[slot] in newIds && table[slot] == IndexOf(newIds, saved[slot])
  }

  ghost predicate Holds(table: Table, slots: seq<Slot>) {
    forall slot :: slot in table <==> slot in slots
  }

  /** The state after the first n bucket entries of a saved file, starting from `read`. */
  ghost predicate NewBack(p: Params, s: State, order: seq<Id>, n: nat, read: State, t: State) {
    && n <= |Slots(p, s)| && Restoring(p, |NewIds(s, order)|, t) && t.vvTried == read.vvTried
    && EntriesKept(read.mapInfo, t.mapInfo)
    && Renamed(s.vvNew, NewIds(s, order), t.vvNew)
    && Holds(t.vvNew, Slots(p, s)[..n])
  }

  /** The n-th entry: its slot, the entry it belongs to, and why it finds the slot again. */
  lemma NextEntry(p: Params, s: State, order: seq<Id>, asmap: nat, n: nat) returns (slot: Slot, k: nat)
    requires Saving(p, s, order) && n < |Slots(p, s)|
    ensures slot == Slots(p, s)[n] && slot in s.vvNew && slot !in Slots(p, s)[..n]
    ensures k == IndexOf(NewIds(s, order), s.vvNew[slot]) < |NewIds(s, order)| && NewIds(s, order)[k] == s.vvNew[slot]
            && s.vvNew[slot] in s.mapInfo
    ensures var f := Serialize(p, s, order, asmap);
            && |f.entries| == |Slots(p, s)| && |f.newInfos| == |NewIds(s, order)|
            && f.entries[n] == BucketEntry(slot.bucket, k)
            && f.newInfos[k] == Store(s.mapInfo[s.vvNew[slot]]) && p.valid(f.newInfos[k].addr)
            && slot == p.NewSlotIn(f.newInfos[k].addr, slot.bucket) && slot.bucket < p.newBuckets
  {
    hide InvCore, LookupOk, InvFloating, NewIds, TriedIds, SlotsBefore, IndexOf;
    SlotsKnown(p, s);
    ListsPartition(p, s, order);
    slot := Slots(p, s)[n];
    NewHolder(p, s, slot);
    k := IndexOf(NewIds(s, order), s.vvNew[slot]);
  }

  lemma NewHolder(p: Params, s: State, slot: Slot)
    requires InvFloating(p, s, {}) && slot in s.vvNew
    ensures var id := s.vvNew[slot];
            && id in s.mapInfo && !s.mapInfo[id].inTried
            && slot.bucket < p.newBuckets && slot == p.NewSlotIn(s.mapInfo[id].addr, slot.bucket)
  {
  }

  /** There is room: the entry has fewer references so far than it had when it was saved. */
  lemma RoomForEntry(p: Params, s: State, order: seq<Id>, n: nat, read: State, t: State, slot: Slot, k: nat)
    requires Saving(p, s, order) && NewBack(p, s, order, n, read, t)
    requires slot in s.vvNew && slot !in Slots(p, s)[..n]
    requires k == IndexOf(NewIds(s, order), s.vvNew[slot]) < |NewIds(s, order)|
             && NewIds(s, order)[k] == s.vvNew[slot] && s.vvNew[slot] in s.mapInfo
    ensures slot !in t.vvNew && k in t.mapInfo && t.mapInfo[k].refCount < NEW_BUCKETS_PER_ADDRESS
  {
    hide InvCore, LookupOk, InvFloating, NewIds, Slots, IndexOf, Unplaced;
    var newIds := NewIds(s, order);
    RefsCounted(p, t, |newIds|, k);
    EntryKinds(p, s, newIds[k]);
    forall r | r in Refs(t.vvNew, k) ensures r in Refs(s.vvNew, newIds[k]) {
      IndexIsInverse(newIds, s.vvNew[r], k);
    }
    SmallerSet(Refs(t.vvNew, k), Refs(s.vvNew, newIds[k]), slot);
  }

  lemma EntriesKeptNext(read: InfoMap, t: State, k: Id, slot: Slot)
    requires EntriesKept(read, t.mapInfo) && k in t.mapInfo
    ensures EntriesKept(read, AddRef(t, k, slot).mapInfo)
  {
  }

  lemma TableNext(saved: Table, newIds: seq<Id>, table: Table, slots: seq<Slot>, n: nat, k: Id)
    requires Renamed(saved, newIds, table) && n < |slots| && Holds(table, slots[..n])
    requires slots[n] in saved && saved[slots[n]] in newIds && k == IndexOf(newIds, saved[slots[n]])
    ensures Renamed(saved, newIds, table[slots[n] := k]) && Holds(table[slots[n] := k], slots[..n + 1])
  {
    hide IndexOf;
    assert slots[..n + 1] == slots[..n] + [slots[n]];
  }

  lemma NewBackNext(p: Params, s: State, order: seq<Id>, n: nat, read: State, t: State, slot: Slot, k: nat)
    requires NewBack(p, s, order, n, read, t) && n < |Slots(p, s)| && slot == Slots(p, s)[n] && slot in s.vvNew
    requires k == IndexOf(NewIds(s, order), s.vvNew[slot]) && s.vvNew[slot] in NewIds(s, order)
    requires k in t.mapInfo && Restoring(p, |NewIds(s, order)|, AddRef(t, k, slot))
    ensures NewBack(p, s, order, n + 1, read, AddRef(t, k, slot))
  {
    hide Restoring, NewIds, Slots, IndexOf, EntriesKept, Renamed, Holds;
    EntriesKeptNext(read.mapInfo, t, k, slot);
    TableNext(s.vvNew, NewIds(s, order), t.vvNew, Slots(p, s), n, k);
  }

  lemma NewBackStep(p: Params, s: State, order: seq<Id>, asmap: nat, n: nat, read: State, t: State)
    requires Saving(p, s, order) && n < |Slots(p, s)| && NewBack(p, s, order, n, read, t)
    requires var f := Serialize(p, s, order, asmap);
             |f.entries| == |Slots(p, s)| && |f.newInfos| == |NewIds(s, order)| && TriedRead(p, f, |f.triedInfos|, read)
    ensures var f := Serialize(p, s, order, asmap);
            NewBack(p, s, order, n + 1, read, RestoreEntry(p, t, f.entries[n], |f.newInfos|, true))
  {
    hide InvCore, LookupOk, InvFloating, Serialize, NewIds, Slots, IndexOf, AddRef, Unplaced;
    var slot, k := NextEntry(p, s, order, asmap, n);
    RoomForEntry(p, s, order, n, read, t, slot, k);
    var f := Serialize(p, s, order, asmap);
    assert t.mapInfo[k].addr == f.newInfos[k].addr;
    PlacedKeeps(p, |f.newInfos|, t, k, slot);
    NewBackNext(p, s, order, n, read, t, slot, k);
  }

  lemma IndexIsInverse(ids: seq<Id>, id: Id, k: nat)
    requires id in ids && IndexOf(ids, id) == k
    ensures k < |ids| && ids[k] == id
  {
  }

  lemma SmallerSet<T>(a: set<T>, b: set<T>, x: T)
    requires a <= b && x in b && x !in a
    ensures |a| < |b|
  {
    SubsetSize(a, b - {x});
    Without(b, x);
  }

  function ReadLists(p: Params, f: File): State {
    ReadTried(p, ReadNew(p, f.newInfos, |f.newInfos|), f.triedInfos, |f.triedInfos|)
  }

  lemma NewBackStart(p: Params, s: State, order: seq<Id>, read: State)
    requires Restoring(p, |NewIds(s, order)|, read) && read.vvNew == map[]
    ensures NewBack(p, s, order, 0, read, read)
  {
    hide Restoring, NewIds, Slots, IndexOf;
  }

  lemma {:induction false} NewComesBack(p: Params, s: State, order: seq<Id>, asmap: nat, n: nat)
    requires Saving(p, s, order) && n <= |Slots(p, s)|
    ensures var f := Serialize(p, s, order, asmap);
            && |f.entries| == |Slots(p, s)| && |f.newInfos| == |NewIds(s, order)|
            && NewBack(p, s, order, n, ReadLists(p, f),
                       RestoreAll(p, ReadLists(p, f), f.entries, n, |f.newInfos|, true))
  {
    hide NewIds, TriedIds, SlotsBefore, IndexOf, Saving, NewBack, TriedRead, ReadTried, ReadNew, RestoreEntry;
    var f := Serialize(p, s, order, asmap);
    TriedIsRead(p, f, |f.triedInfos|);
    if n == 0 {
      ReadRestoring(p, f, ReadLists(p, f));
      ReadNothingNew(p, f, ReadLists(p, f));
      NewBackStart(p, s, order, ReadLists(p, f));
    } else {
      NewComesBack(p, s, order, asmap, n - 1);
      NewBackStep(p, s, order, asmap, n - 1, ReadLists(p, f),
                  RestoreAll(p, ReadLists(p, f), f.entries, n - 1, |f.newInfos|, true));
    }
  }

  lemma ReadNothingNew(p: Params, f: File, read: State)
    requires TriedRead(p, f, |f.triedInfos|, read)
    ensures read.vvNew == map[]
  {
    hide InvCore, LookupOk, InvFloating;
  }

  // ---------- the theorem ----------

  /** An entry after the round trip: only what is kept in memory is forgotten. */
  function Carried(info: Info, randomPos: int): Info {
    info.(lastTry := 0, lastCountAttempt := 0, randomPos := randomPos)
  }

  ghost predicate EntryCarried(s: State, ids: seq<Id>, t: State, first: nat, k: nat)
    requires k < |ids|
  {
    ids[k] in s.mapInfo && first + k in t.mapInfo && t.mapInfo[first + k] == Carried(s.mapInfo[ids[k]], first + k)
  }

  /** The entries named by ids came back as first, first + 1, ... */
  ghost predicate EntriesCarried(s: State, ids: seq<Id>, t: State, first: nat) {
    forall k :: 0 <= k < |ids| ==> EntryCarried(s, ids, t, first, k)
  }

  /** A table filled with the entries named by ids came back slot by slot. */
  ghost predicate TableCarried(saved: Table, ids: seq<Id>, table: Table, first: nat) {
    && (forall slot :: slot in table <==> slot in saved)
    && (forall slot :: slot in saved ==>
          first <= table[slot] < first + |ids| && ids[table[slot] - first] == saved[slot])
  }

  /** t is s up to the renaming that sends newIds[k] to k and triedIds[j] to |newIds| + j. */
  ghost predicate SameManager(s: State, newIds: seq<Id>, triedIds: seq<Id>, t: State) {
    && (forall k: nat :: k in t.mapInfo <==> k < |newIds| + |triedIds|)
    && EntriesCarried(s, newIds, t, 0)
    && EntriesCarried(s, triedIds, t, |newIds|)
    && TableCarried(s.vvNew, newIds, t.vvNew, 0)
    && TableCarried(s.vvTried, triedIds, t.vvTried, |newIds|)
  }

  lemma SameRefs(saved: Table, newIds: seq<Id>, table: Table, k: nat)
    requires Renamed(saved, newIds, table) && (forall slot :: slot in saved ==> slot in table)
    requires Distinct(newIds) && k < |newIds|
    ensures Refs(table, k) == Refs(saved, newIds[k])
  {
    hide IndexOf;
    forall slot ensures slot in Refs(table, k) <==> slot in Refs(saved, newIds[k]) {
      if slot in table {
        IndexIsInverse(newIds, saved[slot], table[slot]);
      }
    }
  }

  lemma RefCountBack(p: Params, s: State, order: seq<Id>, read: State, t: State, k: nat)
    requires Saving(p, s, order) && NewBack(p, s, order, |Slots(p, s)|, read, t) && k < |NewIds(s, order)|
    ensures k in t.mapInfo && NewIds(s, order)[k] in s.mapInfo
    ensures t.mapInfo[k].refCount == s.mapInfo[NewIds(s, order)[k]].refCount >= 1
  {
    hide InvCore, LookupOk, InvFloating, NewIds, Slots, IndexOf, Unplaced, Renamed, Refs, IsOrder, Distinct;
    ListsPartition(p, s, order);
    SlotsKnown(p, s);
    RefsCounted(p, t, |NewIds(s, order)|, k);
    EntryKinds(p, s, NewIds(s, order)[k]);
    assert Slots(p, s)[..|Slots(p, s)|] == Slots(p, s);
    SameRefs(s.vvNew, NewIds(s, order), t.vvNew, k);
  }

  lemma NewEntryBack(p: Params, s: State, order: seq<Id>, asmap: nat, read: State, t: State, k: nat)
    requires Saving(p, s, order) && NewBack(p, s, order, |Slots(p, s)|, read, t) && k < |NewIds(s, order)|
    requires var f := Serialize(p, s, order, asmap);
             |f.newInfos| == |NewIds(s, order)| && TriedRead(p, f, |f.triedInfos|, read)
    ensures k in t.mapInfo && NewIds(s, order)[k] in s.mapInfo
    ensures t.mapInfo[k] == Carried(s.mapInfo[NewIds(s, order)[k]], k)
  {
    hide InvCore, LookupOk, InvFloating, NewIds, TriedIds, Slots, IndexOf, Restoring, Renamed, Holds;
    RefCountBack(p, s, order, read, t, k);
    SavedIds(p, s, order, asmap, k);
    var f := Serialize(p, s, order, asmap);
    assert InfoAt(f, k) == f.newInfos[k];
    assert k in read.mapInfo;
  }

  lemma TriedSaved(p: Params, s: State, order: seq<Id>, f: File, asmap: nat, j: nat)
    requires f == Serialize(p, s, order, asmap) && j < |TriedIds(s, order)| && Saving(p, s, order)
    ensures |f.newInfos| == |NewIds(s, order)| && |f.triedInfos| == |TriedIds(s, order)|
    ensures var id := TriedIds(s, order)[j];
            id in s.mapInfo && f.triedInfos[j] == Store(s.mapInfo[id]) && s.mapInfo[id].inTried
            && s.mapInfo[id].refCount == 0
  {
    hide InvCore, LookupOk, InvFloating, NewIds, TriedIds, IsOrder, Serialize;
    SavedIds(p, s, order, asmap, |NewIds(s, order)| + j);
    assert InfoAt(f, |NewIds(s, order)| + j) == f.triedInfos[j];
    EntryKinds(p, s, TriedIds(s, order)[j]);
  }

  lemma TriedEntryBack(p: Params, s: State, order: seq<Id>, f: File, asmap: nat, read: State, t: State, j: nat)
    requires f == Serialize(p, s, order, asmap) && j < |f.triedInfos| && j < |TriedIds(s, order)|
    requires TriedBack(f, |f.triedInfos|, read)
    requires Saving(p, s, order) && NewBack(p, s, order, |Slots(p, s)|, read, t)
    ensures var at := |NewIds(s, order)| + j;
            && at in t.mapInfo && TriedIds(s, order)[j] in s.mapInfo
            && t.mapInfo[at] == Carried(s.mapInfo[TriedIds(s, order)[j]], at)
  {
    hide InvCore, LookupOk, InvFloating, NewIds, TriedIds, Slots, Unplaced, Renamed, Holds, Saving, Serialize;
    TriedSaved(p, s, order, f, asmap, j);
    var at := |NewIds(s, order)| + j;
    assert at in read.mapInfo && read.mapInfo[at] == Reborn(f.triedInfos[j], at).(inTried := true);
    assert t.mapInfo[at] == read.mapInfo[at].(refCount := t.mapInfo[at].refCount);
    TriedHasNoRefs(p, t, Unplaced(t, |NewIds(s, order)|), at);
  }

  lemma TriedHasNoRefs(p: Params, t: State, floating: set<Id>, id: Id)
    requires InvCore(p, t, floating) && id in t.mapInfo && t.mapInfo[id].inTried
    ensures t.mapInfo[id].refCount == 0
    ensures p.TriedSlot(t.mapInfo[id].addr) in t.vvTried && t.vvTried[p.TriedSlot(t.mapInfo[id].addr)] == id
  {
  }

  lemma TablesBack(p: Params, s: State, order: seq<Id>, read: State, t: State)
    requires Saving(p, s, order) && NewBack(p, s, order, |Slots(p, s)|, read, t)
    ensures TableCarried(s.vvNew, NewIds(s, order), t.vvNew, 0)
  {
    hide InvCore, LookupOk, InvFloating, NewIds, Slots, IndexOf, Restoring, EntriesKept, IsOrder;
    SlotsKnown(p, s);
    assert Slots(p, s)[..|Slots(p, s)|] == Slots(p, s);
    forall slot | slot in s.vvNew
      ensures t.vvNew[slot] < |NewIds(s, order)| && NewIds(s, order)[t.vvNew[slot]] == s.vvNew[slot]
    {
      IndexIsInverse(NewIds(s, order), s.vvNew[slot], t.vvNew[slot]);
    }
  }

  lemma NothingToPrune(p: Params, s: State, order: seq<Id>, read: State, t: State)
    requires Saving(p, s, order) && NewBack(p, s, order, |Slots(p, s)|, read, t)
    ensures Unplaced(t, |NewIds(s, order)|) == {}
  {
    hide InvCore, LookupOk, InvFloating, NewIds, Slots, IndexOf, NewBack, Saving;
    forall k | k in Unplaced(t, |NewIds(s, order)|) ensures false {
      RefCountBack(p, s, order, read, t, k);
    }
  }

  lemma KeysBack(p: Params, s: State, order: seq<Id>, f: File, read: State, t: State)
    requires |f.newInfos| == |NewIds(s, order)| && |f.triedInfos| == |TriedIds(s, order)|
    requires TriedBack(f, |f.triedInfos|, read) && NewBack(p, s, order, |Slots(p, s)|, read, t)
    ensures forall k: nat :: k in t.mapInfo <==> k < |NewIds(s, order)| + |TriedIds(s, order)|
  {
    hide NewIds, TriedIds, Slots, Restoring, Renamed, Holds;
  }

  /** Both tried tables are determined by their entries, and the entries agree. */
  lemma TriedTableBack(p: Params, s: State, newIds: seq<Id>, triedIds: seq<Id>, t: State, floating: set<Id>)
    requires InvCore(p, s, {}) && InvCore(p, t, floating)
    requires forall k: nat :: k in t.mapInfo <==> k < |newIds| + |triedIds|
    requires EntriesCarried(s, newIds, t, 0) && EntriesCarried(s, triedIds, t, |newIds|)
    requires forall k :: 0 <= k < |newIds| ==> newIds[k] in s.mapInfo && !s.mapInfo[newIds[k]].inTried
    requires forall id :: id in s.mapInfo && s.mapInfo[id].inTried ==> id in triedIds
    requires forall j :: 0 <= j < |triedIds| ==> triedIds[j] in s.mapInfo && s.mapInfo[triedIds[j]].inTried
    ensures TableCarried(s.vvTried, triedIds, t.vvTried, |newIds|)
  {
    hide InvCore, LookupOk, InvFloating;
    var first := |newIds|;
    forall slot | slot in t.vvTried
      ensures slot in s.vvTried && first <= t.vvTried[slot] < first + |triedIds|
              && triedIds[t.vvTried[slot] - first] == s.vvTried[slot]
    {
      TriedHolder(p, t, floating, slot);
      var k := t.vvTried[slot];
      assert k < first ==> EntryCarried(s, newIds, t, 0, k);
      if first <= k {
        assert EntryCarried(s, triedIds, t, first, k - first);
        TriedHasNoRefs(p, s, {}, triedIds[k - first]);
      }
    }
    forall slot | slot in s.vvTried ensures slot in t.vvTried {
      TriedHolder(p, s, {}, slot);
      var j :| 0 <= j < |triedIds| && triedIds[j] == s.vvTried[slot];
      assert EntryCarried(s, triedIds, t, first, j);
      TriedHasNoRefs(p, t, floating, first + j);
    }
  }

  /** Saved entries have different addresses and fitting times, so the self-check lets them pass. */
  lemma CarriedAcceptable(p: Params, s: State, order: seq<Id>, t: State, k: Id)
    requires Saving(p, s, order) && SameManager(s, NewIds(s, order), TriedIds(s, order), t) && k in t.mapInfo
    ensures Acceptable(t.mapInfo, k)
  {
    hide InvCore, LookupOk, InvFloating, NewIds, TriedIds, IsOrder, TableCarried;
    CarriedFrom(p, s, order, t, k);
    TimesCarried(p, s, SavedId(s, order, k), k);
    forall other | other in t.mapInfo && t.mapInfo[other].addr == t.mapInfo[k].addr ensures other == k {
      CarriedFrom(p, s, order, t, other);
      SameAddress(p, s, SavedId(s, order, k), SavedId(s, order, other));
      if k < other {
        SavedIdsDiffer(p, s, order, k, other);
      } else if other < k {
        SavedIdsDiffer(p, s, order, other, k);
      }
    }
  }

  lemma CarriedFrom(p: Params, s: State, order: seq<Id>, t: State, k: Id)
    requires Saving(p, s, order) && SameManager(s, NewIds(s, order), TriedIds(s, order), t) && k in t.mapInfo
    ensures k < |NewIds(s, order)| + |TriedIds(s, order)| && SavedId(s, order, k) in s.mapInfo
    ensures t.mapInfo[k] == Carried(s.mapInfo[SavedId(s, order, k)], k)
  {
    hide Saving, NewIds, TriedIds, TableCarried;
    var first := |NewIds(s, order)|;
    if k < first {
      assert EntryCarried(s, NewIds(s, order), t, 0, k);
    } else {
      assert EntryCarried(s, TriedIds(s, order), t, first, k - first);
    }
  }

  lemma TimesCarried(p: Params, s: State, id: Id, pos: int)
    requires InvFloating(p, s, {}) && id in s.mapInfo
    ensures TimesOk(Carried(s.mapInfo[id], pos))
  {
    hide InvCore, AddrOk;
    assert TimesOk(s.mapInfo[id]);
  }

  /** Main theorem. A saved file is accepted, unless the key is null, and reading it with the same
      bucketing gives the same manager up to the names of the ids: every slot of both tables holds
      the same address, with the same reference count, although no position, no tried slot and no
      lookup was written. The two lists have the lengths that the counters in the header say. */
  lemma RoundTrip(p: Params, s: State, order: seq<Id>, asmap: nat)
    requires Saving(p, s, order)
    ensures |NewIds(s, order)| == s.nNew && |TriedIds(s, order)| == s.nTried
    ensures Distinct(NewIds(s, order)) && Distinct(TriedIds(s, order))
    ensures forall id :: id in s.mapInfo ==> id in NewIds(s, order) || id in TriedIds(s, order)
    ensures var r := Unserialize(p, Serialize(p, s, order, asmap), asmap);
            && (r.Some? <==> !p.keyIsNull)
            && (r.Some? ==> SameManager(s, NewIds(s, order), TriedIds(s, order), r.value))
  {
    hide InvCore, LookupOk, InvFloating, NewIds, TriedIds, SlotsBefore, IndexOf, NewBack, TriedBack, ReadTried,
         ReadNew, RestoreAll, Unplaced, IsOrder;
    hide SameManager, Acceptable, Restoring, TriedRead;
    var f := Serialize(p, s, order, asmap);
    SavedCounts(p, s, order);
    ListsPartition(p, s, order);
    var t := LoadedBack(p, s, order, asmap);
    forall k | k in t.mapInfo ensures Acceptable(t.mapInfo, k) {
      CarriedAcceptable(p, s, order, t, k);
    }
    AcceptedExactly(p, f, asmap);
  }

  lemma LoadedBack(p: Params, s: State, order: seq<Id>, asmap: nat) returns (t: State)
    requires Saving(p, s, order)
    ensures var f := Serialize(p, s, order, asmap);
            CanRestore(p, f, asmap) && t == Loaded(p, f, true) && t == Rebuilt(p, f, asmap)
    ensures SameManager(s, NewIds(s, order), TriedIds(s, order), t)
  {
    hide InvCore, LookupOk, InvFloating, NewIds, TriedIds, SlotsBefore, IndexOf, NewBack, TriedBack, ReadTried,
         ReadNew, RestoreAll, Unplaced, IsOrder;
    var f := Serialize(p, s, order, asmap);
    var read := ReadLists(p, f);
    TriedIsRead(p, f, |f.triedInfos|);
    TriedComesBack(p, s, order, asmap, |f.triedInfos|);
    NewComesBack(p, s, order, asmap, |Slots(p, s)|);
    LoadedKeeps(p, f, asmap);
    t := Loaded(p, f, true);
    NothingToPrune(p, s, order, read, t);
    LoadedIsSame(p, s, order, f, asmap, read, t);
  }

  lemma NewEntriesBack(p: Params, s: State, order: seq<Id>, asmap: nat, read: State, t: State)
    requires Saving(p, s, order) && NewBack(p, s, order, |Slots(p, s)|, read, t)
    requires var f := Serialize(p, s, order, asmap);
             |f.newInfos| == |NewIds(s, order)| && TriedRead(p, f, |f.triedInfos|, read)
    ensures EntriesCarried(s, NewIds(s, order), t, 0)
  {
    hide NewIds, TriedIds, Slots, NewBack, TriedRead, Serialize, Saving;
    var ids := NewIds(s, order);
    forall k | 0 <= k < |ids| ensures EntryCarried(s, ids, t, 0, k) {
      NewEntryBack(p, s, order, asmap, read, t, k);
    }
  }

  lemma TriedEntriesBack(p: Params, s: State, order: seq<Id>, f: File, asmap: nat, read: State, t: State)
    requires f == Serialize(p, s, order, asmap) && |f.triedInfos| == |TriedIds(s, order)|
    requires TriedBack(f, |f.triedInfos|, read)
    requires Saving(p, s, order) && NewBack(p, s, order, |Slots(p, s)|, read, t)
    ensures EntriesCarried(s, TriedIds(s, order), t, |NewIds(s, order)|)
  {
    hide NewIds, TriedIds, Slots, NewBack, TriedBack, Serialize, Saving;
    var ids := TriedIds(s, order);
    forall j | 0 <= j < |ids| ensures EntryCarried(s, ids, t, |NewIds(s, order)|, j) {
      TriedEntryBack(p, s, order, f, asmap, read, t, j);
    }
  }

  lemma LoadedIsSame(p: Params, s: State, order: seq<Id>, f: File, asmap: nat, read: State, t: State)
    requires f == Serialize(p, s, order, asmap) && Saving(p, s, order)
    requires |f.newInfos| == |NewIds(s, order)| && |f.triedInfos| == |TriedIds(s, order)|
    requires TriedRead(p, f, |f.triedInfos|, read) && TriedBack(f, |f.triedInfos|, read)
    requires NewBack(p, s, order, |Slots(p, s)|, read, t) && InvCore(p, t, Unplaced(t, |f.newInfos|))
    ensures SameManager(s, NewIds(s, order), TriedIds(s, order), t)
  {
    hide InvCore, LookupOk, InvFloating, NewIds, TriedIds, Slots, NewBack, TriedBack, TriedRead, Unplaced, Serialize,
         IsOrder;
    hide EntriesCarried, TableCarried;
    CoreOf(p, s, {});
    ListsPartition(p, s, order);
    KeysBack(p, s, order, f, read, t);
    NewEntriesBack(p, s, order, asmap, read, t);
    TriedEntriesBack(p, s, order, f, asmap, read, t);
    TablesBack(p, s, order, read, t);
    TriedTableBack(p, s, NewIds(s, order), TriedIds(s, order), t, Unplaced(t, |f.newInfos|));
  }

  // ---------- the header passes the reader's range checks ----------

  lemma {:induction false} SlotsFew(table: Table, b: nat, i: nat, size: nat)
    requires i <= size
    ensures |SlotsBefore(table, b, i, size)| <= b * size + i
    decreases b, i
  {
    if i > 0 {
      SlotsFew(table, b, i - 1, size);
    } else if b > 0 {
      SlotsFew(table, b - 1, size, size);
    }
  }

  /** Different ids that all occur in a list are at most as many as the list is long. */
  lemma {:induction false} DistinctFits(ids: seq<Id>, list: seq<Id>)
    requires Distinct(ids) && forall k :: 0 <= k < |ids| ==> ids[k] in list
    ensures |ids| <= |list|
  {
    if ids != [] {
      var j :| 0 <= j < |list| && list[j] == ids[0];
      var rest := list[..j] + list[j + 1..];
      forall k | 0 <= k < |ids[1..]| ensures ids[1..][k] in rest {
        assert ids[1..][k] == ids[k + 1] && ids[k + 1] != ids[0];
        var i :| 0 <= i < |list| && list[i] == ids[k + 1];
        assert rest[if i < j then i else i - 1] == ids[k + 1];
      }
      DistinctFits(ids[1..], rest);
    }
  }

  predicate Seated(table: Table, id: Id, buckets: nat, size: nat, slot: Slot) {
    slot in table && table[slot] == id && slot.bucket < buckets && slot.pos < size
  }

  ghost predicate HasSeat(table: Table, id: Id, buckets: nat, size: nat) {
    exists slot :: Seated(table, id, buckets, size, slot)
  }

  /** Entries that each hold a slot of a table are at most as many as its slots. */
  lemma TableHolds(table: Table, ids: seq<Id>, buckets: nat, size: nat)
    requires Distinct(ids)
    requires forall k :: 0 <= k < |ids| ==> HasSeat(table, ids[k], buckets, size)
    ensures |ids| <= buckets * size
  {
    hide SlotsBefore;
    var slots := SlotsBefore(table, buckets, 0, size);
    SlotsSound(table, buckets, 0, size);
    SlotsFew(table, buckets, 0, size);
    var list := seq(|slots|, j requires 0 <= j < |slots| => table[slots[j]]);
    forall k | 0 <= k < |ids| ensures ids[k] in list {
      assert HasSeat(table, ids[k], buckets, size);
      var slot :| Seated(table, ids[k], buckets, size, slot);
      SlotsComplete(table, buckets, 0, size, slot);
      var j :| 0 <= j < |slots| && slots[j] == slot;
      assert list[j] == ids[k];
    }
    DistinctFits(ids, list);
  }

  lemma NewSlotOf(p: Params, s: State, id: Id) returns (slot: Slot)
    requires p.Valid() && InvFloating(p, s, {}) && id in s.mapInfo && !s.mapInfo[id].inTried
    ensures slot in s.vvNew && s.vvNew[slot] == id && slot.bucket < p.newBuckets && slot.pos < p.bucketSize
  {
    hide AddrOk, RandomOk, TriedOk, CountsOk, IdsOk;
    EntryKinds(p, s, id);
    slot :| slot in Refs(s.vvNew, id);
  }

  lemma FitsTables(p: Params, s: State, order: seq<Id>)
    requires Saving(p, s, order)
    ensures |NewIds(s, order)| <= p.newBuckets * p.bucketSize && |TriedIds(s, order)| <= p.triedBuckets * p.bucketSize
  {
    hide InvCore, LookupOk, InvFloating, NewIds, TriedIds, IsOrder;
    ListsPartition(p, s, order);
    var newIds, triedIds := NewIds(s, order), TriedIds(s, order);
    forall k | 0 <= k < |newIds|
      ensures HasSeat(s.vvNew, newIds[k], p.newBuckets, p.bucketSize)
    {
      var slot := NewSlotOf(p, s, newIds[k]);
      assert Seated(s.vvNew, newIds[k], p.newBuckets, p.bucketSize, slot);
    }
    TableHolds(s.vvNew, newIds, p.newBuckets, p.bucketSize);
    CoreOf(p, s, {});
    forall k | 0 <= k < |triedIds|
      ensures HasSeat(s.vvTried, triedIds[k], p.triedBuckets, p.bucketSize)
    {
      TriedHasNoRefs(p, s, {}, triedIds[k]);
      assert Seated(s.vvTried, triedIds[k], p.triedBuckets, p.bucketSize, p.TriedSlot(s.mapInfo[triedIds[k]].addr));
    }
    TableHolds(s.vvTried, triedIds, p.triedBuckets, p.bucketSize);
  }

  /** The lists have the lengths that the counters say, so no assertion of the serializer fails and
      the header passes the reader's range checks. */
  lemma SavedCounts(p: Params, s: State, order: seq<Id>)
    requires Saving(p, s, order)
    ensures |NewIds(s, order)| == s.nNew <= p.newBuckets * p.bucketSize
    ensures |TriedIds(s, order)| == s.nTried <= p.triedBuckets * p.bucketSize
  {
    hide InvCore, LookupOk, InvFloating, NewIds, TriedIds, IsOrder;
    FitsTables(p, s, order);
    ListsPartition(p, s, order);
    Totals(p, s);
    ListSize(NewIds(s, order), IdsIn(s.mapInfo, false));
    ListSize(TriedIds(s, order), IdsIn(s.mapInfo, true));
  }

  lemma Totals(p: Params, s: State)
    requires InvFloating(p, s, {})
    ensures s.nNew == |IdsIn(s.mapInfo, false)| && s.nTried == |IdsIn(s.mapInfo, true)|
  {
    hide RandomOk, TriedOk, NewOk, RefsOk, EntriesPlaced, AddrOk;
  }
}
