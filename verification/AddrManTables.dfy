/** Which entries of a file end up in which slots. */
module AddrManTables {
  import opened Options
  import opened AddrMan
  import opened AddrManFile
  import opened AddrManLoad

  // ---------- the tried table ----------

  /** The entry asks for this slot of the tried table. */
  predicate AsksTried(p: Params, st: Stored, slot: Slot) {
    p.valid(st.addr) && p.TriedSlot(st.addr) == slot
  }

  /** The first of n entries that asks for the slot. */
  function FirstTried(p: Params, infos: seq<Stored>, n: nat, slot: Slot): (r: Option<nat>)
    requires n <= |infos|
    ensures r.Some? ==> r.value < n && AsksTried(p, infos[r.value], slot)
    ensures forall j :: 0 <= j < (if r.Some? then r.value else n) ==> !AsksTried(p, infos[j], slot)
  {
    if n == 0 then None else
      var first := FirstTried(p, infos, n - 1, slot);
      if first.Some? then first else if AsksTried(p, infos[n - 1], slot) then Some(n - 1) else None
  }

  /** The tried table holds in every slot the first entry that asks for it, as stored. */
  ghost predicate TriedTable(p: Params, infos: seq<Stored>, n: nat, s: State)
    requires n <= |infos|
  {
    forall slot :: TriedAt(p, infos, n, s, slot)
  }

  predicate TriedAt(p: Params, infos: seq<Stored>, n: nat, s: State, slot: Slot)
    requires n <= |infos|
  {
    var first := FirstTried(p, infos, n, slot);
    && (slot in s.vvTried <==> first.Some?)
    && (slot in s.vvTried ==> s.vvTried[slot] in s.mapInfo && Store(s.mapInfo[s.vvTried[slot]]) == infos[first.value])
  }

  lemma TriedNext(p: Params, infos: seq<Stored>, n: nat, s: State, floating: set<Id>)
    requires n < |infos| && Reading(p, s, floating) && TriedTable(p, infos, n, s)
    ensures TriedTable(p, infos, n + 1, ReadTriedEntry(p, s, infos[n]))
  {
    hide Reading, ReadTriedEntry, FirstTried;
    var m, st, s' := n + 1, infos[n], ReadTriedEntry(p, s, infos[n]);
    ReadTriedEntryKeeps(p, s, floating, st);
    NewIdFresh(p, s, floating);
    forall slot ensures TriedAt(p, infos, m, s', slot) {
      assert TriedAt(p, infos, n, s, slot);
      FirstNext(p, infos, n, slot);
    }
  }

  lemma NewIdFresh(p: Params, s: State, floating: set<Id>)
    requires Reading(p, s, floating)
    ensures s.nIdCount !in s.mapInfo
  {
    NewIdOutside(p, s, floating);
  }

  lemma FirstNext(p: Params, infos: seq<Stored>, n: nat, slot: Slot)
    requires n < |infos|
    ensures FirstTried(p, infos, n + 1, slot) ==
            var first := FirstTried(p, infos, n, slot);
            if first.Some? then first else if AsksTried(p, infos[n], slot) then Some(n) else None
  {
  }

  lemma {:induction false} TriedIsFirst(p: Params, f: File, n: nat)
    requires n <= |f.triedInfos|
    ensures TriedTable(p, f.triedInfos, n, ReadTried(p, ReadNew(p, f.newInfos, |f.newInfos|), f.triedInfos, n))
  {
    hide Reading, ReadTriedEntry, ReadNew, TriedAt;
    var start := ReadNew(p, f.newInfos, |f.newInfos|);
    if n == 0 {
      NewIsRead(p, f.newInfos, |f.newInfos|);
      forall slot ensures TriedAt(p, f.triedInfos, 0, start, slot) {
        NothingTried(p, f.triedInfos, start, slot);
      }
    } else {
      TriedIsFirst(p, f, n - 1);
      TriedIsRead(p, f, n - 1);
      TriedNext(p, f.triedInfos, n - 1, ReadTried(p, start, f.triedInfos, n - 1), Below(|f.newInfos|));
    }
  }

  lemma NothingTried(p: Params, infos: seq<Stored>, s: State, slot: Slot)
    requires s.vvTried == map[]
    ensures TriedAt(p, infos, 0, s, slot)
  {
  }

  // ---------- the new table ----------

  /** What an entry stores does not change, nor does the tried table, and slots of the new table are only added. */
  ghost predicate Adds(s: State, s': State) {
    && s'.vvTried == s.vvTried && s'.mapInfo.Keys == s.mapInfo.Keys
    && (forall id :: id in s.mapInfo ==> Store(s'.mapInfo[id]) == Store(s.mapInfo[id])
                                         && s.mapInfo[id].refCount <= s'.mapInfo[id].refCount)
    && (forall slot :: slot in s.vvNew ==> slot in s'.vvNew && s'.vvNew[slot] == s.vvNew[slot])
  }

  lemma AddRefAdds(s: State, id: Id, slot: Slot)
    requires id in s.mapInfo && slot !in s.vvNew
    ensures Adds(s, AddRef(s, id, slot))
  {
  }

  lemma NothingAdds(s: State)
    ensures Adds(s, s)
  {
  }

  lemma RestoreEntryAdds(p: Params, s: State, e: BucketEntry, count: nat, restore: bool)
    ensures Adds(s, RestoreEntry(p, s, e, count, restore))
  {
    hide Adds, AddRef;
    NothingAdds(s);
    if 0 <= e.index < count && e.index in s.mapInfo {
      var info := s.mapInfo[e.index];
      var slot, primary := p.NewSlotIn(info.addr, e.bucket), p.NewSlot(info.addr, info.source);
      if slot !in s.vvNew {
        AddRefAdds(s, e.index, slot);
      }
      if primary !in s.vvNew {
        AddRefAdds(s, e.index, primary);
      }
    }
  }

  lemma AddsTwice(a: State, b: State, c: State)
    requires Adds(a, b) && Adds(b, c)
    ensures Adds(a, c)
  {
  }

  lemma {:induction false} RestoreAllAdds(p: Params, s: State, entries: seq<BucketEntry>, n: nat, count: nat,
                                          restore: bool)
    requires n <= |entries|
    ensures Adds(s, RestoreAll(p, s, entries, n, count, restore))
  {
    hide RestoreEntry, Adds;
    if n == 0 {
      NothingAdds(s);
    } else {
      RestoreAllAdds(p, s, entries, n - 1, count, restore);
      var s1 := RestoreAll(p, s, entries, n - 1, count, restore);
      RestoreEntryAdds(p, s1, entries[n - 1], count, restore);
      AddsTwice(s, s1, RestoreEntry(p, s1, entries[n - 1], count, restore));
    }
  }

  /** The bucket entry names a new entry with a valid address. */
  predicate Usable(p: Params, f: File, j: nat)
    requires j < |f.entries|
  {
    0 <= f.entries[j].index < |f.newInfos| && p.valid(f.newInfos[f.entries[j].index].addr)
  }

  function PrimarySlot(p: Params, st: Stored): Slot { p.NewSlot(st.addr, st.source) }

  /** The entry named has a slot, or its primary slot is taken. */
  predicate Served(p: Params, f: File, s: State, j: nat)
    requires j < |f.entries| && Usable(p, f, j)
  {
    var k := f.entries[j].index;
    k in s.mapInfo && (s.mapInfo[k].refCount > 0 || PrimarySlot(p, f.newInfos[k]) in s.vvNew)
  }

  ghost predicate AllServed(p: Params, f: File, n: nat, s: State)
    requires n <= |f.entries|
  {
    forall j :: 0 <= j < n && Usable(p, f, j) ==> Served(p, f, s, j)
  }

  /** The first entries are still as they were read. */
  ghost predicate StillStored(f: File, s: State) {
    forall k :: 0 <= k < |f.newInfos| ==> k in s.mapInfo && Store(s.mapInfo[k]) == f.newInfos[k]
  }

  lemma ServedNow(p: Params, f: File, s: State, j: nat, restore: bool)
    requires j < |f.entries| && Usable(p, f, j) && StillStored(f, s)
    requires s.mapInfo[f.entries[j].index].refCount >= 0
    ensures Served(p, f, RestoreEntry(p, s, f.entries[j], |f.newInfos|, restore), j)
  {
    assert Store(s.mapInfo[f.entries[j].index]) == f.newInfos[f.entries[j].index];
  }

  lemma ServedStays(p: Params, f: File, s: State, s': State, j: nat)
    requires j < |f.entries| && Usable(p, f, j) && Served(p, f, s, j) && Adds(s, s')
    ensures Served(p, f, s', j)
  {
  }

  lemma ServedNext(p: Params, f: File, n: nat, s: State, restore: bool)
    requires n < |f.entries| && Restoring(p, |f.newInfos|, s) && StillStored(f, s) && AllServed(p, f, n, s)
    ensures AllServed(p, f, n + 1, RestoreEntry(p, s, f.entries[n], |f.newInfos|, restore))
  {
    hide Restoring, RestoreEntry, Adds, Served, StillStored;
    var s' := RestoreEntry(p, s, f.entries[n], |f.newInfos|, restore);
    RestoreEntryAdds(p, s, f.entries[n], |f.newInfos|, restore);
    forall j | 0 <= j <= n && Usable(p, f, j) ensures Served(p, f, s', j) {
      if j == n {
        CountKnown(p, f, s, f.entries[n].index);
        ServedNow(p, f, s, n, restore);
      } else {
        ServedStays(p, f, s, s', j);
      }
    }
  }

  lemma CountKnown(p: Params, f: File, s: State, k: Id)
    requires Restoring(p, |f.newInfos|, s) && k < |f.newInfos|
    ensures k in s.mapInfo && s.mapInfo[k].refCount >= 0
  {
    hide InvCore, LookupOk;
    RefsCounted(p, s, |f.newInfos|, k);
  }

  lemma StoredAfter(f: File, s: State, s': State)
    requires StillStored(f, s) && Adds(s, s')
    ensures StillStored(f, s')
  {
  }

  lemma {:induction false} EntriesServed(p: Params, f: File, s: State, n: nat, restore: bool)
    requires p.Valid() && n <= |f.entries| && Restoring(p, |f.newInfos|, s) && StillStored(f, s)
    requires restore ==> f.newBuckets == p.newBuckets
    ensures AllServed(p, f, n, RestoreAll(p, s, f.entries, n, |f.newInfos|, restore))
  {
    hide Restoring, RestoreEntry, AllServed, StillStored, Adds;
    if n == 0 {
      NoneServed(p, f, s);
    } else {
      EntriesServed(p, f, s, n - 1, restore);
      RestoreAllKeeps(p, |f.newInfos|, s, f.entries, n - 1, restore);
      RestoreAllAdds(p, s, f.entries, n - 1, |f.newInfos|, restore);
      var s1 := RestoreAll(p, s, f.entries, n - 1, |f.newInfos|, restore);
      StoredAfter(f, s, s1);
      ServedNext(p, f, n - 1, s1, restore);
    }
  }

  lemma NoneServed(p: Params, f: File, s: State)
    ensures AllServed(p, f, 0, s)
  {
  }

  // ---------- other bucketing ----------

  /** Without the old buckets, the bucket entry asks for the primary slot of the entry it names. */
  predicate AsksNew(p: Params, f: File, j: nat, slot: Slot)
    requires j < |f.entries|
  {
    Usable(p, f, j) && PrimarySlot(p, f.newInfos[f.entries[j].index]) == slot
  }

  function FirstNew(p: Params, f: File, n: nat, slot: Slot): (r: Option<nat>)
    requires n <= |f.entries|
    ensures r.Some? ==> r.value < n && AsksNew(p, f, r.value, slot)
    ensures forall j :: 0 <= j < (if r.Some? then r.value else n) ==> !AsksNew(p, f, j, slot)
  {
    if n == 0 then None else
      var first := FirstNew(p, f, n - 1, slot);
      if first.Some? then first else if AsksNew(p, f, n - 1, slot) then Some(n - 1) else None
  }

  lemma FirstNewNext(p: Params, f: File, n: nat, slot: Slot)
    requires n < |f.entries|
    ensures FirstNew(p, f, n + 1, slot) ==
            var first := FirstNew(p, f, n, slot);
            if first.Some? then first else if AsksNew(p, f, n, slot) then Some(n) else None
  {
  }

  predicate NewAt(p: Params, f: File, n: nat, s: State, slot: Slot)
    requires n <= |f.entries|
  {
    var first := FirstNew(p, f, n, slot);
    && (slot in s.vvNew <==> first.Some?)
    && (slot in s.vvNew ==> s.vvNew[slot] == f.entries[first.value].index)
  }

  /** The new table holds in every slot the first entry that asks for it. */
  ghost predicate NewTable(p: Params, f: File, n: nat, s: State)
    requires n <= |f.entries|
  {
    forall slot :: NewAt(p, f, n, s, slot)
  }

  /** An entry has at most its primary slot. */
  lemma OnePrimary(p: Params, f: File, n: nat, s: State, k: Id)
    requires n <= |f.entries| && k < |f.newInfos|
    requires Restoring(p, |f.newInfos|, s) && StillStored(f, s) && NewTable(p, f, n, s)
    ensures k in s.mapInfo && s.mapInfo[k].refCount <= 1
  {
    hide InvCore, LookupOk, FirstNew;
    RefsCounted(p, s, |f.newInfos|, k);
    var primary := PrimarySlot(p, f.newInfos[k]);
    forall slot | slot in Refs(s.vvNew, k) ensures slot == primary {
      assert NewAt(p, f, n, s, slot);
    }
    SubsetSize(Refs(s.vvNew, k), {primary});
  }

  lemma NewNext(p: Params, f: File, n: nat, s: State)
    requires n < |f.entries| && Restoring(p, |f.newInfos|, s) && StillStored(f, s) && NewTable(p, f, n, s)
    ensures NewTable(p, f, n + 1, RestoreEntry(p, s, f.entries[n], |f.newInfos|, false))
  {
    hide Restoring, FirstNew;
    var m, s' := n + 1, RestoreEntry(p, s, f.entries[n], |f.newInfos|, false);
    if Usable(p, f, n) {
      OnePrimary(p, f, n, s, f.entries[n].index);
    }
    forall slot ensures NewAt(p, f, m, s', slot) {
      assert NewAt(p, f, n, s, slot);
      FirstNewNext(p, f, n, slot);
      if 0 <= f.entries[n].index < |f.newInfos| {
        assert Store(s.mapInfo[f.entries[n].index]) == f.newInfos[f.entries[n].index];
      }
    }
  }

  lemma {:induction false} EntriesFirst(p: Params, f: File, s: State, n: nat)
    requires p.Valid() && n <= |f.entries| && Restoring(p, |f.newInfos|, s) && StillStored(f, s) && s.vvNew == map[]
    ensures NewTable(p, f, n, RestoreAll(p, s, f.entries, n, |f.newInfos|, false))
  {
    hide Restoring, RestoreEntry, NewTable, StillStored, Adds;
    if n == 0 {
      NothingNew(p, f, s);
    } else {
      EntriesFirst(p, f, s, n - 1);
      RestoreAllKeeps(p, |f.newInfos|, s, f.entries, n - 1, false);
      RestoreAllAdds(p, s, f.entries, n - 1, |f.newInfos|, false);
      var s1 := RestoreAll(p, s, f.entries, n - 1, |f.newInfos|, false);
      StoredAfter(f, s, s1);
      NewNext(p, f, n - 1, s1);
    }
  }

  lemma NothingNew(p: Params, f: File, s: State)
    requires s.vvNew == map[]
    ensures NewTable(p, f, 0, s)
  {
    forall slot ensures NewAt(p, f, 0, s, slot) {
    }
  }

  // ---------- the manager that is read ----------

  lemma LoadedTables(p: Params, f: File, asmapChecksum: nat)
    requires p.Valid()
    ensures var l := Loaded(p, f, CanRestore(p, f, asmapChecksum));
            && TriedTable(p, f.triedInfos, |f.triedInfos|, l) && StillStored(f, l)
            && AllServed(p, f, |f.entries|, l)
            && (!CanRestore(p, f, asmapChecksum) ==> NewTable(p, f, |f.entries|, l))
  {
    hide TriedRead, Restoring, ReadTried, ReadNew, RestoreAll, TriedTable, StillStored, AllServed, NewTable, Adds;
    var restore := CanRestore(p, f, asmapChecksum);
    TriedIsRead(p, f, |f.triedInfos|);
    TriedIsFirst(p, f, |f.triedInfos|);
    var read := ReadTried(p, ReadNew(p, f.newInfos, |f.newInfos|), f.triedInfos, |f.triedInfos|);
    ReadRestoring(p, f, read);
    ReadStored(p, f, read);
    EntriesServed(p, f, read, |f.entries|, restore);
    RestoreAllAdds(p, read, f.entries, |f.entries|, |f.newInfos|, restore);
    var l := RestoreAll(p, read, f.entries, |f.entries|, |f.newInfos|, restore);
    StoredAfter(f, read, l);
    TriedStays(p, f.triedInfos, read, l);
    if !restore {
      EntriesFirst(p, f, read, |f.entries|);
    }
  }

  lemma ReadStored(p: Params, f: File, s: State)
    requires TriedRead(p, f, |f.triedInfos|, s)
    ensures StillStored(f, s) && s.vvNew == map[]
  {
    hide Reading;
  }

  lemma TriedStays(p: Params, infos: seq<Stored>, s: State, s': State)
    requires TriedTable(p, infos, |infos|, s) && Adds(s, s')
    ensures TriedTable(p, infos, |infos|, s')
  {
    hide FirstTried;
    var n := |infos|;
    forall slot ensures TriedAt(p, infos, n, s', slot) {
      assert TriedAt(p, infos, n, s, slot);
    }
  }

  /** Main theorem. Every slot of the tried table holds the first tried entry of the file that asks for it, and
      without the old buckets every slot of the new table holds the first new entry that does. With or without
      them, a valid new entry that is listed in a bucket is lost only if its primary slot is taken. */
  lemma FileTables(p: Params, f: File, asmapChecksum: nat)
    requires p.Valid()
    ensures var s := Rebuilt(p, f, asmapChecksum);
            && TriedTable(p, f.triedInfos, |f.triedInfos|, s)
            && (f.newBuckets != p.newBuckets || f.asmapChecksum != asmapChecksum ==> NewTable(p, f, |f.entries|, s))
            && forall j :: 0 <= j < |f.entries| && Usable(p, f, j) ==>
                 var k := f.entries[j].index;
                 if k in s.mapInfo then Store(s.mapInfo[k]) == f.newInfos[k]
                 else PrimarySlot(p, f.newInfos[k]) in s.vvNew
  {
    hide InvCore, Loaded, FirstTried, FirstNew, Restoring, Adds;
    LoadedTables(p, f, asmapChecksum);
    LoadedKeeps(p, f, asmapChecksum);
    var l, s := Loaded(p, f, CanRestore(p, f, asmapChecksum)), Rebuilt(p, f, asmapChecksum);
    PrunedTables(p, f, l, s);
    forall j | 0 <= j < |f.entries| && Usable(p, f, j)
      ensures var k := f.entries[j].index;
              if k in s.mapInfo then Store(s.mapInfo[k]) == f.newInfos[k]
              else PrimarySlot(p, f.newInfos[k]) in s.vvNew
    {
      PrunedEntry(p, f, l, s, j);
    }
  }

  lemma PrunedEntry(p: Params, f: File, l: State, s: State, j: nat)
    requires PrunedTo(l, Unplaced(l, |f.newInfos|), s) && StillStored(f, l)
    requires j < |f.entries| && Usable(p, f, j) && Served(p, f, l, j)
    ensures var k := f.entries[j].index;
            if k in s.mapInfo then Store(s.mapInfo[k]) == f.newInfos[k]
            else PrimarySlot(p, f.newInfos[k]) in s.vvNew
  {
    var k := f.entries[j].index;
    assert k in s.mapInfo ==> SameEntry(l, s, k);
  }

  lemma PrunedTables(p: Params, f: File, l: State, s: State)
    requires PrunedTo(l, Unplaced(l, |f.newInfos|), s) && TriedTable(p, f.triedInfos, |f.triedInfos|, l)
    requires Restoring(p, |f.newInfos|, l)
    ensures TriedTable(p, f.triedInfos, |f.triedInfos|, s)
    ensures NewTable(p, f, |f.entries|, l) ==> NewTable(p, f, |f.entries|, s)
  {
    hide FirstTried, FirstNew, Restoring;
    var n, m := |f.triedInfos|, |f.entries|;
    forall slot ensures TriedAt(p, f.triedInfos, n, s, slot) {
      assert TriedAt(p, f.triedInfos, n, l, slot);
      if slot in l.vvTried {
        TriedKept(p, f, l, slot);
        assert SameEntry(l, s, l.vvTried[slot]);
      }
    }
    if NewTable(p, f, m, l) {
      forall slot ensures NewAt(p, f, m, s, slot) {
        assert NewAt(p, f, m, l, slot);
      }
    }
  }

  lemma TriedKept(p: Params, f: File, l: State, slot: Slot)
    requires Restoring(p, |f.newInfos|, l) && slot in l.vvTried
    ensures l.vvTried[slot] in l.mapInfo && l.vvTried[slot] !in Unplaced(l, |f.newInfos|)
  {
    hide LookupOk, RandomOk, NewOk, RefsOk, CountsOk;
  }
}
