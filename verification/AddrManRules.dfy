/** Whole runs of the address manager against runs of the plain book, and what the book's rules come to. */
module AddrManRules {
  import opened Options
  import opened AddrMan
  import opened AddrManOps
  import opened AddrManBook

  // ---------- the plain operations keep the tables stocked ----------

  lemma TrimStocked(b: Book)
    requires Stocked(b)
    ensures Stocked(Trim(b))
  {
  }

  lemma PromoteStocked(p: Params, b: Book, id: Id)
    requires Stocked(b) && id in b.records
    ensures Stocked(Promote(p, b, id))
  {
    hide Trim;
    var slot := p.TriedSlot(b.records[id].addr);
    TrimStocked(b.(newTable := Shelf(p, b, id), triedTable := b.triedTable[slot := id]));
  }

  lemma TouchStocked(b: Book, id: Id, r: Record)
    requires Stocked(b)
    ensures Stocked(b.(records := b.records[id := r]))
  {
  }

  lemma PutStocked(b: Book, slot: Slot, id: Id)
    requires Stocked(b) && id in b.records
    ensures Stocked(Put(b, slot, id))
  {
    hide Trim;
    TrimStocked(b.(newTable := b.newTable[slot := id]));
  }

  lemma PlainGoodStocked(p: Params, b: Book, a: Service, testBeforeEvict: bool, time: int)
    requires Stocked(b)
    ensures Stocked(PlainGood(p, b, a, testBeforeEvict, time).0)
  {
    hide Promote, Stocked;
    StockedElse(b);
    if Lookup(b, a).Some? {
      var id := Lookup(b, a).value;
      var b1 := b.(lastGood := time);
      StockedElse(b1);
      var r := b.records[id].(lastSuccess := time, lastTry := time, attempts := 0);
      TouchStocked(b1, id, r);
      var b2 := b1.(records := b1.records[id := r]);
      StockedElse(b2);
      if p.TriedSlot(a) !in b.triedTable || !testBeforeEvict {
        PromoteStocked(p, b2, id);
      }
    }
  }

  lemma StockedElse(b: Book)
    requires Stocked(b)
    ensures forall lastGood :: Stocked(b.(lastGood := lastGood))
    ensures forall pending :: Stocked(b.(pending := pending))
    ensures forall n :: Stocked(b.(nextId := n))
  {
  }

  lemma PlainAddStocked(p: Params, b: Book, a: Address, source: Source, penalty: int, t: Times, draw: nat)
    requires Stocked(b)
    ensures Stocked(PlainAdd(p, b, a, source, penalty, t, draw).0)
  {
    hide Put, Worthless, Refs, Renewed;
    var late := if p.selfAnnounced(a.service, source) then 0 else penalty;
    if Lookup(b, a.service).Some? {
      var id := Lookup(b, a.service).value;
      var b1 := b.(records := b.records[id := Renewed(b.records[id], a, late, t.heard)]);
      PutStocked(b1, p.NewSlot(a.service, source), id);
    } else {
      var time := if a.time < late then 0 else a.time - late;
      var r := Record(a.service, source, time, a.services, 0, 0, 0, 0);
      var b1 := b.(nextId := b.nextId + 1, records := b.records[b.nextId := r]);
      PutStocked(b1, p.NewSlot(a.service, source), b.nextId);
    }
  }

  lemma PlainResolveStocked(p: Params, b: Book, id: Id, now: int)
    requires Stocked(b)
    ensures Stocked(PlainResolve(p, b, id, now))
  {
    hide PlainGood;
    if id in b.records {
      PlainGoodStocked(p, b, b.records[id].addr, false, now);
    }
  }

  // ---------- runs ----------

  ghost function PlainAddAll(p: Params, b: Book, addrs: seq<Address>, n: nat, source: Source, penalty: int,
                             times: nat -> Times, draws: nat -> nat): (b': Book)
    requires Stocked(b) && n <= |addrs|
    ensures Stocked(b')
  {
    if n == 0 then b else
      var b1 := PlainAddAll(p, b, addrs, n - 1, source, penalty, times, draws);
      PlainAddStocked(p, b1, addrs[n - 1], source, penalty, times(n - 1), draws(n - 1));
      PlainAdd(p, b1, addrs[n - 1], source, penalty, times(n - 1), draws(n - 1)).0
  }

  ghost function PlainResolveAll(p: Params, b: Book, todo: set<Id>, clock: Id -> int): (b': Book)
    requires Stocked(b)
    ensures Stocked(b')
    decreases |todo|
  {
    if todo == {} then b else
      var id := Least(todo);
      PlainResolveStocked(p, b, id, clock(id));
      PlainResolveAll(p, PlainResolve(p, b, id, clock(id)), todo - {id}, clock)
  }

  ghost function PlainStep(p: Params, b: Book, o: Op): (b': Book)
    requires Stocked(b)
    ensures Stocked(b')
  {
    match o
    case Add(addrs, source, penalty, times, draws) => PlainAddAll(p, b, addrs, |addrs|, source, penalty, times, draws)
    case MarkGood(a, time) => PlainGoodStocked(p, b, a, true, time); PlainGood(p, b, a, true, time).0
    case MarkAttempt(a, countFailure, time) => PlainAttempt(b, a, countFailure, time)
    case MarkConnected(a, time) => PlainConnected(b, a, time)
    case MarkServices(a, services) => PlainSetServices(b, a, services)
    case Resolve(clock) => PlainResolveAll(p, b, b.pending, clock)
    case SelectCollision(pick) => PlainSelect(p, b, pick).0
    case GetAddr(maxAddresses, maxPct, wanted, now, picks) => b
  }

  ghost function PlainRun(p: Params, b: Book, ops: seq<Op>): Book
    requires Stocked(b)
    decreases |ops|
  {
    if ops == [] then b else PlainRun(p, PlainStep(p, b, ops[0]), ops[1..])
  }

  lemma {:induction false} AddAllRefines(p: Params, s: State, addrs: seq<Address>, n: nat, source: Source,
                                         penalty: int, times: nat -> Times, draws: nat -> nat)
    requires p.Valid() && Inv(p, s) && n <= |addrs|
    ensures Stocked(BookOf(s))
    ensures BookOf(AddAll(p, s, addrs, n, source, penalty, times, draws)) ==
            PlainAddAll(p, BookOf(s), addrs, n, source, penalty, times, draws)
  {
    hide InvFloating, CollisionsOk, Evolves, AddSingle, PlainAdd, Stocked;
    BookStocked(p, s, {});
    if n > 0 {
      AddAllRefines(p, s, addrs, n - 1, source, penalty, times, draws);
      var s1 := AddAll(p, s, addrs, n - 1, source, penalty, times, draws);
      AddRefines(p, s1, addrs[n - 1], source, penalty, times(n - 1), draws(n - 1));
    }
  }

  lemma {:induction false} ResolveAllRefines(p: Params, s: State, todo: set<Id>, clock: Id -> int)
    requires p.Valid() && Inv(p, s) && Running(clock)
    ensures Stocked(BookOf(s)) && BookOf(ResolveAll(p, s, todo, clock)) == PlainResolveAll(p, BookOf(s), todo, clock)
    decreases |todo|
  {
    hide InvFloating, CollisionsOk, Evolves, ResolveOne, PlainResolve, Stocked;
    BookStocked(p, s, {});
    if todo != {} {
      var id := Least(todo);
      ResolveOneKeeps(p, s, id, clock(id));
      ResolveOneRefines(p, s, id, clock(id));
      ResolveAllRefines(p, ResolveOne(p, s, id, clock(id)), todo - {id}, clock);
    }
  }

  lemma StepRefines(p: Params, s: State, o: Op)
    requires p.Valid() && Inv(p, s) && Timely(o)
    ensures Stocked(BookOf(s)) && BookOf(Step(p, s, o)) == PlainStep(p, BookOf(s), o)
  {
    hide InvFloating, CollisionsOk, Good, Attempt, Connected, SetServices, ResolveAll, GetAddrFrom, AddAll,
         PlainGood, PlainAttempt, PlainConnected, PlainSetServices, PlainResolveAll, PlainAddAll, Stocked,
         PlainSelect, SelectTriedCollision;
    BookStocked(p, s, {});
    match o
    case Add(addrs, source, penalty, times, draws) =>
      AddAllRefines(p, s, addrs, |addrs|, source, penalty, times, draws);
    case MarkGood(a, time) => GoodRefines(p, s, a, true, time);
    case MarkAttempt(a, countFailure, time) => SmallUpdatesRefine(p, s, a, countFailure, time, 0);
    case MarkConnected(a, time) => SmallUpdatesRefine(p, s, a, false, time, 0);
    case MarkServices(a, services) => SmallUpdatesRefine(p, s, a, false, 0, services);
    case Resolve(clock) => ResolveAllRefines(p, s, s.collisions, clock);
    case SelectCollision(pick) => SelectRefines(p, s, pick);
    case GetAddr(maxAddresses, maxPct, wanted, now, picks) =>
      GetAddrBook(p, s, 0, [], NodeLimit(|s.vRandom|, maxAddresses, maxPct), wanted, now, picks);
  }

  /** Main theorem. Over every run the six indexes show exactly what the plain book shows. */
  lemma {:induction false} RunRefines(p: Params, s: State, ops: seq<Op>)
    requires p.Valid() && Inv(p, s) && AllTimely(ops)
    ensures Stocked(BookOf(s)) && BookOf(Run(p, s, ops)) == PlainRun(p, BookOf(s), ops)
    decreases |ops|
  {
    hide InvFloating, CollisionsOk, Evolves, Step, Timely, PlainStep, Stocked;
    BookStocked(p, s, {});
    if ops != [] {
      StepKeeps(p, s, ops[0]);
      StepRefines(p, s, ops[0]);
      RunRefines(p, Step(p, s, ops[0]), ops[1..]);
    }
  }

  // ---------- promotion ----------

  /** Promotion forgets at most one entry: the one whose only slot the displaced occupant takes. Every record
      that stays is as it was, and the displaced occupant stays. */
  lemma PromoteForgets(p: Params, s: State, id: Id)
    requires p.Valid() && InvFloating(p, s, {}) && id in s.mapInfo && !s.mapInfo[id].inTried
    ensures Stocked(BookOf(s))
    ensures var b, slot := BookOf(s), p.TriedSlot(s.mapInfo[id].addr);
            var b' := Promote(p, b, id);
            && (forall x :: x in b'.records ==> x in b.records && b'.records[x] == b.records[x])
            && (slot !in b.triedTable ==> b'.records == b.records)
            && (slot in b.triedTable ==>
                  var was := b.triedTable[slot];
                  var home := p.NewSlot(b.records[was].addr, b.records[was].source);
                  && home in b'.newTable && b'.newTable[home] == was && was in b'.records
                  && forall x :: x in b.records && x !in b'.records ==>
                       home in b.newTable && b.newTable[home] == x && x != id && |Refs(b.newTable, x)| == 1)
  {
    hide InvFloating;
    BookStocked(p, s, {});
    var b, slot := BookOf(s), p.TriedSlot(s.mapInfo[id].addr);
    var b' := Promote(p, b, id);
    forall x | x in b.records ensures x in b'.records || Displaced(p, b, id, x) {
      KnownIsShelved(p, s, x);
      StaysOrDisplaced(p, b, id, x);
    }
  }

  /** The entry's only slot is the one the displaced occupant takes. */
  predicate Displaced(p: Params, b: Book, id: Id, x: Id)
    requires Stocked(b) && id in b.records
  {
    var slot := p.TriedSlot(b.records[id].addr);
    && slot in b.triedTable && x != id
    && var was := b.triedTable[slot];
       var home := p.NewSlot(b.records[was].addr, b.records[was].source);
       home in b.newTable && b.newTable[home] == x && Refs(b.newTable, x) == {home}
  }

  lemma StaysOrDisplaced(p: Params, b: Book, id: Id, x: Id)
    requires Stocked(b) && id in b.records && x in b.records && Shelved(b, x)
    ensures x in Promote(p, b, id).records || Displaced(p, b, id, x)
  {
    var slot, b' := p.TriedSlot(b.records[id].addr), Promote(p, b, id);
    if x == id {
      assert b'.triedTable[slot] == x;
    } else if slot in b.triedTable && b.triedTable[slot] == x {
      assert b'.newTable[p.NewSlot(b.records[x].addr, b.records[x].source)] == x;
    } else if at :| at in b.triedTable && b.triedTable[at] == x {
      assert b'.triedTable[at] == x;
    } else {
      var at :| at in b.newTable && b.newTable[at] == x;
      if x !in b'.records {
        OnlyHome(p, b, id, x, at);
      }
    }
  }

  lemma OnlyHome(p: Params, b: Book, id: Id, x: Id, at: Slot)
    requires Stocked(b) && id in b.records && x in b.records && x != id && at in b.newTable && b.newTable[at] == x
    requires x !in Promote(p, b, id).records
    ensures Displaced(p, b, id, x)
  {
    var slot, b' := p.TriedSlot(b.records[id].addr), Promote(p, b, id);
    assert !Shelved(b', x);
    forall other | other in b.newTable && b.newTable[other] == x
      ensures slot in b.triedTable
      ensures var was := b.triedTable[slot]; other == p.NewSlot(b.records[was].addr, b.records[was].source)
    {
      assert !(other in b'.newTable && b'.newTable[other] == x);
    }
    assert Refs(b.newTable, x) == {at};
  }

  /** What Good records: the success in the entry, and the clash in the pending collisions if the entry may not
      move and fewer than ten are pending. No other entry that is left has changed. */
  lemma GoodRecords(p: Params, s: State, a: Service, testBeforeEvict: bool, time: int)
    requires p.Valid() && InvFloating(p, s, {}) && time > 0 && Find(s, a).Some?
    ensures var (s', moved) := Good(p, s, a, testBeforeEvict, time);
            var id := Find(s, a).value;
            && id in s.mapInfo && id in s'.mapInfo && s'.lastGood == time
            && RecordOf(s'.mapInfo[id]) ==
               RecordOf(s.mapInfo[id]).(lastSuccess := time, lastTry := time, attempts := 0)
            && (forall x :: x in s'.mapInfo && x != id ==>
                  x in s.mapInfo && RecordOf(s'.mapInfo[x]) == RecordOf(s.mapInfo[x]))
            && s'.collisions == if !s.mapInfo[id].inTried && !moved && |s.collisions| < 10
                                then s.collisions + {id} else s.collisions
  {
    hide InvFloating, Good, PlainGood, BookOf, RecordOf, Stocked;
    GoodRefines(p, s, a, testBeforeEvict, time);
    LookupFinds(p, s, {}, a);
    var id := Find(s, a).value;
    BookRecord(s, id);
    KnownIsShelved(p, s, id);
    PlainGoodRecords(p, BookOf(s), a, testBeforeEvict, time);
    var s' := Good(p, s, a, testBeforeEvict, time).0;
    BookFields(s);
    BookFields(s');
    forall x ensures x in BookOf(s).records <==> x in s.mapInfo
      ensures x in s.mapInfo ==> BookOf(s).records[x] == RecordOf(s.mapInfo[x])
      ensures x in BookOf(s').records <==> x in s'.mapInfo
      ensures x in s'.mapInfo ==> BookOf(s').records[x] == RecordOf(s'.mapInfo[x])
    {
      BookRecord(s, x);
      BookRecord(s', x);
    }
  }

  lemma PromoteKeepsRecords(p: Params, b: Book, id: Id)
    requires Stocked(b) && id in b.records
    ensures var b' := Promote(p, b, id);
            && id in b'.records && b'.pending == b.pending && b'.lastGood == b.lastGood
            && forall x :: x in b'.records ==> x in b.records && b'.records[x] == b.records[x]
  {
    assert Promote(p, b, id).triedTable[p.TriedSlot(b.records[id].addr)] == id;
  }

  lemma PlainGoodRecords(p: Params, b: Book, a: Service, testBeforeEvict: bool, time: int)
    requires Stocked(b) && Lookup(b, a).Some?
    ensures var (b', moved) := PlainGood(p, b, a, testBeforeEvict, time);
            var id := Lookup(b, a).value;
            && id in b'.records && b'.lastGood == time
            && b'.records[id] == b.records[id].(lastSuccess := time, lastTry := time, attempts := 0)
            && (forall x :: x in b'.records && x != id ==> x in b.records && b'.records[x] == b.records[x])
            && b'.pending == if id !in b.triedTable.Values && !moved && |b.pending| < 10
                             then b.pending + {id} else b.pending
  {
    hide Promote;
    var id := Lookup(b, a).value;
    var r := b.records[id].(lastSuccess := time, lastTry := time, attempts := 0);
    PromoteKeepsRecords(p, b.(lastGood := time, records := b.records[id := r]), id);
  }

  // ---------- collisions ----------

  /** A pending collision, rule by rule. The newcomer is gone or no longer valid: dropped. The occupant was reached
      in the last four hours: dropped, and nothing else changes. The occupant was tried in the last four hours, more
      than a minute ago, or it was not and the newcomer has waited for more than forty minutes: the newcomer has
      the slot. Otherwise nothing changes. */
  lemma ResolveSettles(p: Params, s: State, id: Id, now: int)
    requires p.Valid() && Inv(p, s) && now > 0 && id in s.collisions
    ensures var s' := ResolveOne(p, s, id, now);
            if id !in s.mapInfo || !p.valid(s.mapInfo[id].addr) then s' == s.(collisions := s.collisions - {id})
            else
              var slot := p.TriedSlot(s.mapInfo[id].addr);
              && slot in s.vvTried && s.vvTried[slot] in s.mapInfo
              && var was := s.mapInfo[s.vvTried[slot]];
                 if now - was.lastSuccess < 14400 then s' == s.(collisions := s.collisions - {id})
                 else if if now - was.lastTry < 14400 then now - was.lastTry > 60
                         else now - s.mapInfo[id].lastSuccess > 2400
                 then s'.vvTried == s.vvTried[slot := id] && s'.collisions == s.collisions - {id}
                 else s' == s
  {
    hide InvFloating, Good;
    CollisionFindsOccupant(p, s, id);
    if id in s.mapInfo {
      var a := s.mapInfo[id].addr;
      KnownAddress(p, s, id);
      GoodMoves(p, s, a, false, now);
      GoodKeeps(p, s, a, false, now);
      if s.mapInfo[id].inTried {
        InOwnSlot(p, s, id);
      }
    }
  }

  lemma KnownAddress(p: Params, s: State, id: Id)
    requires InvFloating(p, s, {}) && id in s.mapInfo
    ensures Find(s, s.mapInfo[id].addr) == Some(id)
  {
  }

  lemma InOwnSlot(p: Params, s: State, id: Id)
    requires InvFloating(p, s, {}) && id in s.mapInfo && s.mapInfo[id].inTried
    ensures var slot := p.TriedSlot(s.mapInfo[id].addr); slot in s.vvTried && s.vvTried[slot] == id
  {
  }

  lemma GoodOthers(p: Params, s: State, a: Service, time: int, x: Id)
    requires p.Valid() && InvFloating(p, s, {}) && time > 0 && Find(s, a).Some? && x != Find(s, a).value
    ensures var s' := Good(p, s, a, false, time).0;
            x in s'.mapInfo ==> x in s.mapInfo && s'.mapInfo[x].lastSuccess == s.mapInfo[x].lastSuccess
  {
    hide InvFloating, Good;
    GoodRecords(p, s, a, false, time);
  }

  /** Settling one collision leaves an occupant alone that was reached less than four hours ago. */
  lemma FreshStaysOnce(p: Params, s: State, id: Id, now: int, slot: Slot)
    requires p.Valid() && Inv(p, s) && now > 0 && slot in s.vvTried && s.vvTried[slot] in s.mapInfo
    requires now - s.mapInfo[s.vvTried[slot]].lastSuccess < 14400
    ensures var s', was := ResolveOne(p, s, id, now), s.vvTried[slot];
            && slot in s'.vvTried && s'.vvTried[slot] == was && was in s'.mapInfo
            && s'.mapInfo[was].lastSuccess == s.mapInfo[was].lastSuccess
  {
    hide InvFloating, Good;
    TriedEntry(p, s, {}, slot);
    if id in s.mapInfo {
      var a := s.mapInfo[id].addr;
      KnownAddress(p, s, id);
      GoodMoves(p, s, a, false, now);
      GoodKeeps(p, s, a, false, now);
      if p.TriedSlot(a) != slot {
        GoodOthers(p, s, a, now, s.vvTried[slot]);
        TriedEntry(p, Good(p, s, a, false, now).0, {}, slot);
      }
    }
  }

  /** Main theorem. Settling the collisions never costs an entry its tried slot that was reached less than four
      hours before every reading of the clock. */
  lemma {:induction false} FreshStays(p: Params, s: State, todo: set<Id>, clock: Id -> int, slot: Slot)
    requires p.Valid() && Inv(p, s) && Running(clock) && slot in s.vvTried && s.vvTried[slot] in s.mapInfo
    requires forall id :: id in todo ==> clock(id) - s.mapInfo[s.vvTried[slot]].lastSuccess < 14400
    ensures var s' := ResolveAll(p, s, todo, clock); slot in s'.vvTried && s'.vvTried[slot] == s.vvTried[slot]
    decreases |todo|
  {
    hide InvFloating, CollisionsOk, Evolves, ResolveOne;
    if todo != {} {
      var id := Least(todo);
      ResolveOneKeeps(p, s, id, clock(id));
      FreshStaysOnce(p, s, id, clock(id), slot);
      FreshStays(p, ResolveOne(p, s, id, clock(id)), todo - {id}, clock, slot);
    }
  }

  /** SelectTriedCollision answers the occupant of the newcomer's slot exactly for a pending newcomer that is still
      known, and forgets one that is not. */
  lemma SelectAnswers(p: Params, s: State, pick: Id)
    requires Inv(p, s)
    ensures pick in s.collisions && pick in s.mapInfo ==> HasOccupant(p, s, pick)
    ensures var (s', found) := SelectTriedCollision(p, s, pick);
            && (found.Some? <==> pick in s.collisions && pick in s.mapInfo)
            && (found.Some? ==>
                  var slot := p.TriedSlot(s.mapInfo[pick].addr);
                  slot in s.vvTried && s.vvTried[slot] in s.mapInfo && found.value == s.mapInfo[s.vvTried[slot]])
            && s' == s.(collisions := if pick in s.mapInfo then s.collisions else s.collisions - {pick})
  {
    hide InvFloating, CollisionsOk;
    CollisionFindsOccupant(p, s, pick);
  }

  // ---------- failures and quality ----------

  /** Between two successes of any peer a failure counts once: after a counted attempt not before the last success,
      another one changes the time of the last try only. After the next success it counts again. */
  lemma FailuresCountOnce(s: State, a: Service, first: int, second: int)
    requires Find(s, a).Some? && s.lastGood <= first
    ensures var id := Find(s, a).value;
            var s1 := Attempt(s, a, true, first);
            var s2 := Attempt(s1, a, true, second);
            && id in s1.mapInfo && id in s2.mapInfo && s1.lastGood == s.lastGood
            && s2.mapInfo[id] == s1.mapInfo[id].(lastTry := second)
            && s1.mapInfo[id].lastTry == first
            && s1.mapInfo[id].attempts ==
               s.mapInfo[id].attempts + (if s.mapInfo[id].lastCountAttempt < s.lastGood then 1 else 0)
  {
  }

  /** A confirmed entry can be worthless only through the time it was last heard of. */
  lemma ConfirmedQuality(info: Info, time: int, now: int)
    requires time > 0
    ensures IsTerrible(Confirmed(info, time), now) <==>
            now - time > 60 && (info.time > now + 600 || now - info.time > 30 * 24 * 3600)
  {
  }

  /** Failures make an entry that was heard of lately worthless, unless it was tried in the last minute: three if
      there never was a success, ten if there was none for a week. */
  lemma FailedQuality(info: Info, now: int)
    requires now - 30 * 24 * 3600 <= info.time <= now + 600
    ensures IsTerrible(info, now) <==>
            now - info.lastTry > 60 &&
            info.attempts >= if info.lastSuccess == 0 then 3 else if now - info.lastSuccess > 7 * 24 * 3600 then 10
                             else info.attempts + 1
  {
  }

  /** The number of addresses GetAddr may hand out is the greatest that respects all three bounds; zero means
      that a bound is not set. */
  lemma LimitIsGreatest(size: nat, maxAddresses: nat, maxPct: nat, n: nat)
    ensures n <= NodeLimit(size, maxAddresses, maxPct) <==>
            && (maxAddresses != 0 ==> n <= maxAddresses)
            && (if maxPct != 0 then 100 * n <= maxPct * size else n <= size)
  {
  }

  /** The shuffle can bring every later entry to position n. */
  lemma DrawReaches(size: nat, n: nat, j: nat)
    requires n <= j < size
    ensures Draw(size, n, j - n) == j
  {
  }
}
