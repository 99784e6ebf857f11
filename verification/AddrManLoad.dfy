/** Unserialize: what a file is read into, the self-check at the end, and exactly which files
    pass it. Files need not come from this program. */
module AddrManLoad {
  import opened Options
  import opened AddrMan
  import opened AddrManOps
  import opened AddrManFile
  import opened AddrManCheck

  /** The entry counts of the header are in range. */
  predicate HeaderOk(p: Params, f: File) {
    |f.newInfos| <= p.newBuckets * p.bucketSize && |f.triedInfos| <= p.triedBuckets * p.bucketSize
  }

  /** The tables after pruning, before the self-check. */
  ghost function Rebuilt(p: Params, f: File, asmapChecksum: nat): (s: State)
    requires p.Valid()
    ensures InvCore(p, s, {}) && s.collisions == {}
    ensures var l := Loaded(p, f, CanRestore(p, f, asmapChecksum)); PrunedTo(l, Unplaced(l, |f.newInfos|), s)
    ensures var l := Loaded(p, f, CanRestore(p, f, asmapChecksum)); Unplaced(l, |f.newInfos|) == {} ==> s == l
  {
    hide InvCore, Loaded;
    LoadedKeeps(p, f, asmapChecksum);
    var l := Loaded(p, f, CanRestore(p, f, asmapChecksum));
    Prune(p, l, Unplaced(l, |f.newInfos|))
  }

  /** Every file that is accepted, whatever it contains, gives a manager whose indexes all agree. */
  ghost function Unserialize(p: Params, f: File, asmapChecksum: nat): (r: Option<State>)
    requires p.Valid()
    ensures r.Some? ==> InvFloating(p, r.value, {}) && r.value.collisions == {}
  {
    hide InvCore, Consistent;
    if !HeaderOk(p, f) then None else
      var s := Rebuilt(p, f, asmapChecksum);
      if Consistent(p, s) then CheckedIsSound(p, f, asmapChecksum); Some(s) else None
  }

  /** The lookup of this entry's address finds it. */
  predicate Found(s: State, id: Id)
    requires id in s.mapInfo
  {
    s.mapInfo[id].addr in s.mapAddr && s.mapAddr[s.mapInfo[id].addr] == id
  }

  /** Among sound tables the self-check decides about lookups, times and the key. */
  lemma CheckDecides(p: Params, s: State)
    requires InvCore(p, s, {})
    ensures Consistent(p, s)
            <==> !p.keyIsNull && EntriesTimed(s.mapInfo) && forall id :: id in s.mapInfo ==> Found(s, id)
  {
    hide TriedOk, NewOk, RefsOk, CountOk, Nets, TimesOk, EntryPlaced;
    RandomSize(s.mapInfo, s.vRandom);
    NetsCounted(p, s.mapInfo, s.counts);
    forall id | id in s.mapInfo ensures EntryChecked(s, id) <==> TimesOk(s.mapInfo[id]) && Found(s, id) {
      assert EntryPlaced(s.mapInfo[id], id in {});
    }
  }

  /** No address leads nowhere: pruning takes an address away together with its entry. */
  lemma PrunedLookup(s: State, floating: set<Id>, s': State)
    requires LookupOk(s.mapInfo, s.mapAddr) && PrunedTo(s, floating, s')
    ensures forall a :: a in s'.mapAddr ==> s'.mapAddr[a] in s'.mapInfo && s'.mapInfo[s'.mapAddr[a]].addr == a
  {
    forall a | a in s'.mapAddr ensures s'.mapAddr[a] in s'.mapInfo && s'.mapInfo[s'.mapAddr[a]].addr == a {
      var id := s.mapAddr[a];
      assert id !in floating;
      assert SameEntry(s, s', id);
    }
  }

  lemma CheckedIsSound(p: Params, f: File, asmapChecksum: nat)
    requires p.Valid() && Consistent(p, Rebuilt(p, f, asmapChecksum))
    ensures InvFloating(p, Rebuilt(p, f, asmapChecksum), {})
  {
    hide *;
    var l, s := Loaded(p, f, CanRestore(p, f, asmapChecksum)), Rebuilt(p, f, asmapChecksum);
    LoadedLookup(p, f, asmapChecksum);
    CheckDecides(p, s);
    PrunedLookup(l, Unplaced(l, |f.newInfos|), s);
    FoundIsSound(p, s);
  }

  lemma LoadedLookup(p: Params, f: File, asmapChecksum: nat)
    requires p.Valid()
    ensures var l := Loaded(p, f, CanRestore(p, f, asmapChecksum));
            Reading(p, l, Unplaced(l, |f.newInfos|)) && LookupOk(l.mapInfo, l.mapAddr)
  {
    hide InvCore, LookupOk, Loaded, Unplaced;
    LoadedKeeps(p, f, asmapChecksum);
  }

  lemma FoundIsSound(p: Params, s: State)
    requires InvCore(p, s, {}) && EntriesTimed(s.mapInfo) && forall id :: id in s.mapInfo ==> Found(s, id)
    requires forall a :: a in s.mapAddr ==> s.mapAddr[a] in s.mapInfo && s.mapInfo[s.mapAddr[a]].addr == a
    ensures InvFloating(p, s, {})
  {
    hide InvCore, EntriesTimed;
    forall id | id in s.mapInfo ensures s.mapInfo[id].addr in s.mapAddr && s.mapAddr[s.mapInfo[id].addr] == id {
      assert Found(s, id);
    }
  }

  // ---------- which files are accepted ----------

  predicate HasSlot(info: Info) { info.inTried || info.refCount > 0 }

  /** No other entry has this address. */
  predicate Alone(m: InfoMap, id: Id)
    requires id in m
  {
    forall other :: other in m && m[other].addr == m[id].addr ==> other == id
  }

  lemma PlacedAreKept(p: Params, s: State, floating: set<Id>, s': State)
    requires InvCore(p, s, floating) && PrunedTo(s, floating, s')
    ensures forall id :: id in s'.mapInfo <==> id in s.mapInfo && HasSlot(s.mapInfo[id])
  {
    hide RandomOk, TriedOk, NewOk, RefsOk, CountsOk, IdsOk;
    forall id | id in s.mapInfo ensures HasSlot(s.mapInfo[id]) <==> id !in floating {
      assert EntryPlaced(s.mapInfo[id], id in floating);
    }
  }

  /** An entry that is alone is found after pruning. */
  lemma AloneFound(s: State, floating: set<Id>, s': State, id: Id)
    requires LookupOk(s.mapInfo, s.mapAddr) && PrunedTo(s, floating, s') && id in s'.mapInfo && id in s.mapInfo
             && Alone(s.mapInfo, id)
    ensures Found(s', id)
  {
    assert SameEntry(s, s', id);
    var a := s.mapInfo[id].addr;
    assert s.mapAddr[a] == id;
    assert !AddressIn(s.mapInfo, floating, a);
  }

  /** Conversely, if all that is left is found, each of them was alone. */
  lemma FoundAlone(s: State, floating: set<Id>, s': State, id: Id)
    requires PrunedTo(s, floating, s') && id in s'.mapInfo && id in s.mapInfo
    requires forall x :: x in s'.mapInfo ==> Found(s', x)
    ensures Alone(s.mapInfo, id)
  {
    var a := s.mapInfo[id].addr;
    assert SameEntry(s, s', id) && Found(s', id);
    forall other | other in s.mapInfo && s.mapInfo[other].addr == a ensures other == id {
      if other in floating {
        assert AddressIn(s.mapInfo, floating, a);
      } else {
        assert SameEntry(s, s', other) && Found(s', other);
      }
    }
  }

  lemma PrunedTimes(s: State, floating: set<Id>, s': State)
    requires PrunedTo(s, floating, s')
    ensures EntriesTimed(s'.mapInfo) <==> forall id :: id in s'.mapInfo ==> id in s.mapInfo && TimesOk(s.mapInfo[id])
  {
    hide TimesOk;
    forall id | id in s'.mapInfo ensures id in s.mapInfo && TimesOk(s'.mapInfo[id]) == TimesOk(s.mapInfo[id]) {
      assert SameEntry(s, s', id);
      SameTimes(s.mapInfo[id], s'.mapInfo[id].randomPos);
    }
  }

  lemma SameTimes(info: Info, pos: int)
    ensures TimesOk(info.(randomPos := pos)) == TimesOk(info)
  {
  }

  /** What the self-check asks of an entry that found a slot. */
  predicate Acceptable(m: InfoMap, id: Id)
    requires id in m
  {
    m[id].inTried || m[id].refCount > 0 ==>
      && Alone(m, id) && m[id].lastTry >= 0 && m[id].lastSuccess >= 0 && (m[id].inTried ==> m[id].lastSuccess > 0)
  }

  lemma AcceptableIs(m: InfoMap, id: Id)
    requires id in m
    ensures Acceptable(m, id) <==> (HasSlot(m[id]) ==> Alone(m, id) && TimesOk(m[id]))
  {
    hide Alone;
  }

  lemma PrunedAccepted(p: Params, s: State, floating: set<Id>, s': State)
    requires Reading(p, s, floating) && PrunedTo(s, floating, s') && InvCore(p, s', {})
    ensures Consistent(p, s') <==> !p.keyIsNull && forall id :: id in s.mapInfo ==> Acceptable(s.mapInfo, id)
  {
    hide InvCore, Consistent, LookupOk, PrunedTo, Found, Alone, TimesOk, EntriesTimed, HasSlot, Acceptable;
    CheckDecides(p, s');
    PlacedAreKept(p, s, floating, s');
    forall id | id in s.mapInfo
      ensures Acceptable(s.mapInfo, id) <==> (HasSlot(s.mapInfo[id]) ==> Alone(s.mapInfo, id) && TimesOk(s.mapInfo[id]))
    {
      AcceptableIs(s.mapInfo, id);
    }
    PrunedTimes(s, floating, s');
    forall id | id in s'.mapInfo && Alone(s.mapInfo, id) ensures Found(s', id) {
      AloneFound(s, floating, s', id);
    }
    if forall x :: x in s'.mapInfo ==> Found(s', x) {
      forall id | id in s'.mapInfo ensures Alone(s.mapInfo, id) {
        FoundAlone(s, floating, s', id);
      }
    }
  }

  /** Main theorem. A file is accepted exactly when its header is in range, the key is not null, and
      every entry that found a slot has an address no other entry has and times that fit its table. */
  lemma AcceptedExactly(p: Params, f: File, asmapChecksum: nat)
    requires p.Valid()
    ensures var m := Loaded(p, f, CanRestore(p, f, asmapChecksum)).mapInfo;
            Unserialize(p, f, asmapChecksum).Some? <==>
            && |f.newInfos| <= p.newBuckets * p.bucketSize && |f.triedInfos| <= p.triedBuckets * p.bucketSize
            && !p.keyIsNull && forall id :: id in m ==> Acceptable(m, id)
  {
    hide InvCore, Consistent, LookupOk, Reading, PrunedTo, Acceptable, Loaded, Rebuilt;
    LoadedLookup(p, f, asmapChecksum);
    var l := Loaded(p, f, CanRestore(p, f, asmapChecksum));
    PrunedAccepted(p, l, Unplaced(l, |f.newInfos|), Rebuilt(p, f, asmapChecksum));
  }

  /** Whatever file was accepted, the self-check passes in every state reached from it. */
  lemma RunFromFile(p: Params, f: File, asmapChecksum: nat, ops: seq<Op>)
    requires p.Valid() && Unserialize(p, f, asmapChecksum).Some? && AllTimely(ops)
    ensures var s := Unserialize(p, f, asmapChecksum).value; Inv(p, s) && Consistent(p, Run(p, s, ops))
  {
    hide InvFloating, Run, Consistent, Unserialize;
    AcceptedExactly(p, f, asmapChecksum);
    var s := Unserialize(p, f, asmapChecksum).value;
    RunKeeps(p, s, ops);
    InvConsistent(p, Run(p, s, ops));
  }
}
