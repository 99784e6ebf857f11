/** The parallel check queue of checkqueue.h, as atomic steps between lock acquisitions.

    Thread 0 is the master, the others are workers. A critical section of Loop is one
    step; running a check is a step outside the lock; the notification of Add is a step
    of its own, because Add releases the lock first. Any thread may take any enabled
    step next, and a condition variable may wake without being notified. */
module CheckQueue {
  import opened Options
  import opened Arithmetic

  /** A queued check and the answer its operator() gives. */
  datatype Check = Check(id: nat, passes: bool)

  datatype Thread =
    | Outside                                             // the master, not in Add or Wait
    | Notifying(everyone: bool)                           // the master, past the lock of Add
    | Starting                                            // at the lock with nNow == 0
    | Asleep(signalled: bool)                             // inside cond.wait
    | Working(todo: seq<Check>, nNow: nat, fOk: bool)     // off the lock with a batch of nNow checks

  /** What one Wait call was asked to check and what it returned. */
  datatype Round = Round(checks: seq<Check>, result: bool)

  datatype State = State(
    queue: seq<Check>, nTodo: nat, nTotal: nat, nIdle: nat, fAllOk: bool, nBatchSize: nat,
    threads: seq<Thread>,
    round: seq<Check>,        // history: added since Wait last returned
    returned: seq<Round>)     // history: the finished rounds

  function Init(workers: nat, nBatchSize: nat): State {
    State([], 0, 0, 0, true, nBatchSize, [Outside] + seq(workers, _ => Starting), [], [])
  }

  datatype Action =
    | Add(checks: seq<Check>)        // the master hands over a batch
    | NotifyOne(worker: nat)         // m_worker_cv.notify_one picks this thread
    | NotifyNobody                   // ... or finds nobody asleep
    | NotifyAll                      // m_worker_cv.notify_all
    | CallWait                       // the master calls Wait
    | Lock(thread: nat)              // the critical section at the top of Loop
    | Wake(thread: nat)              // cond.wait returns
    | RunCheck(thread: nat)          // one check of the thread's batch

  predicate IsAsleepWorker(s: State, t: nat) {
    0 < t < |s.threads| && s.threads[t].Asleep?
  }

  predicate Enabled(s: State, a: Action) {
    && |s.threads| >= 1
    && match a
       case Add(_) => s.threads[0].Outside?
       case NotifyOne(t) => s.threads[0] == Notifying(false) && IsAsleepWorker(s, t)
       case NotifyNobody => s.threads[0] == Notifying(false)
                            && forall t :: 0 < t < |s.threads| ==> !s.threads[t].Asleep?
       case NotifyAll => s.threads[0] == Notifying(true)
       case CallWait => s.threads[0].Outside?
       case Lock(t) => t < |s.threads| && (s.threads[t].Starting? || (s.threads[t].Working? && s.threads[t].todo == []))
       case Wake(t) => t < |s.threads| && s.threads[t].Asleep?
       case RunCheck(t) => t < |s.threads| && s.threads[t].Working? && s.threads[t].todo != []
  }

  // ---------- the steps ----------

  function Min(a: nat, b: nat): nat { if a < b then a else b }

  /** How many checks to take from a queue of this length. */
  function BatchCount(s: State): nat {
    Max(1, Min(s.nBatchSize, |s.queue| / (s.nTotal + s.nIdle + 1)))
  }

  function SetThread(s: State, t: nat, thread: Thread): State
    requires t < |s.threads|
  {
    s.(threads := s.threads[t := thread])
  }

  /** The while loop inside the lock: take a batch, return, or go to sleep. None is a
      counter running below zero or a batch larger than the queue. */
  function Decide(s: State, t: nat): Option<State>
    requires t < |s.threads|
  {
    if s.queue != [] then
      var n := BatchCount(s);
      if n > |s.queue| then None else
        var rest := |s.queue| - n;
        Some(SetThread(s.(queue := s.queue[..rest]), t, Working(s.queue[rest..], n, s.fAllOk)))
    else if t == 0 && s.nTodo == 0 then
      if s.nTotal == 0 then None else
        Some(SetThread(s.(nTotal := s.nTotal - 1, fAllOk := true, round := [],
                          returned := s.returned + [Round(s.round, s.fAllOk)]), 0, Outside))
    else
      Some(SetThread(s.(nIdle := s.nIdle + 1), t, Asleep(false)))
  }

  function SignalMaster(s: State): State
    requires |s.threads| >= 1
  {
    if s.threads[0].Asleep? then SetThread(s, 0, Asleep(true)) else s
  }

  /** The clean-up of the previous batch, or the first entry of this thread. */
  function CleanUp(s: State, t: nat): Option<State>
    requires t < |s.threads|
  {
    match s.threads[t]
    case Working(_, nNow, fOk) =>
      if s.nTodo < nNow then None else
        var s' := SetThread(s.(fAllOk := s.fAllOk && fOk, nTodo := s.nTodo - nNow), t, Starting);
        Some(if s'.nTodo == 0 && t != 0 then SignalMaster(s') else s')
    case _ => Some(s)
  }

  function LockStep(s: State, t: nat): Option<State>
    requires t < |s.threads|
  {
    var first := s.threads[t].Starting?;
    match CleanUp(s, t)
    case None => None
    case Some(s') => Decide(if first then s'.(nTotal := s'.nTotal + 1) else s', t)
  }

  function WakeStep(s: State, t: nat): Option<State>
    requires t < |s.threads|
  {
    if s.nIdle == 0 then None else Decide(SetThread(s.(nIdle := s.nIdle - 1), t, Starting), t)
  }

  function Signalled(thread: Thread): Thread {
    if thread.Asleep? then Asleep(true) else thread
  }

  /** The master leaves Add and every sleeping worker has been signalled. */
  function SignalAll(ts: seq<Thread>): (r: seq<Thread>)
    ensures |r| == |ts| && forall i :: 0 <= i < |ts| ==> r[i] == if i == 0 then Outside else Signalled(ts[i])
  {
    seq(|ts|, i requires 0 <= i < |ts| => if i == 0 then Outside else Signalled(ts[i]))
  }

  function Step(s: State, a: Action): Option<State>
    requires Enabled(s, a)
  {
    match a
    case Add(checks) =>
      if checks == [] then Some(s) else
        Some(SetThread(s.(queue := s.queue + checks, nTodo := s.nTodo + |checks|, round := s.round + checks),
                       0, Notifying(|checks| != 1)))
    case NotifyOne(t) => Some(SetThread(SetThread(s, t, Asleep(true)), 0, Outside))
    case NotifyNobody => Some(SetThread(s, 0, Outside))
    case NotifyAll =>
      Some(s.(threads := SignalAll(s.threads)))
    case CallWait => Some(SetThread(s, 0, Starting))
    case Lock(t) => LockStep(s, t)
    case Wake(t) => WakeStep(s, t)
    case RunCheck(t) =>
      var Working(todo, nNow, fOk) := s.threads[t];
      Some(SetThread(s, t, Working(todo[1..], nNow, if fOk then todo[0].passes else fOk)))
  }

  // ---------- sums over threads ----------

  function InFlight(t: Thread): nat { if t.Working? then t.nNow else 0 }
  function Entered(t: Thread): nat { if t.Working? || t.Asleep? then 1 else 0 }
  function Idle(t: Thread): nat { if t.Asleep? then 1 else 0 }

  function Sum(ts: seq<Thread>, weight: Thread -> nat): nat {
    if ts == [] then 0 else weight(ts[0]) + Sum(ts[1..], weight)
  }

  lemma {:induction false} SumSet(ts: seq<Thread>, i: nat, t: Thread, weight: Thread -> nat)
    requires i < |ts|
    ensures Sum(ts[i := t], weight) == Sum(ts, weight) - weight(ts[i]) + weight(t)
  {
    if i == 0 {
      assert ts[0 := t][1..] == ts[1..];
    } else {
      SumSet(ts[1..], i - 1, t, weight);
      assert ts[i := t][1..] == ts[1..][i - 1 := t];
    }
  }

  lemma {:induction false} SumSame(ts: seq<Thread>, ts': seq<Thread>, weight: Thread -> nat)
    requires |ts| == |ts'| && forall i :: 0 <= i < |ts| ==> weight(ts[i]) == weight(ts'[i])
    ensures Sum(ts, weight) == Sum(ts', weight)
  {
    if ts != [] {
      SumSame(ts[1..], ts'[1..], weight);
    }
  }

  lemma {:induction false} SumZero(ts: seq<Thread>, weight: Thread -> nat)
    requires forall i :: 0 <= i < |ts| ==> weight(ts[i]) == 0
    ensures Sum(ts, weight) == 0
  {
    if ts != [] {
      SumZero(ts[1..], weight);
    }
  }

  lemma {:induction false} SumAtLeast(ts: seq<Thread>, i: nat, weight: Thread -> nat)
    requires i < |ts|
    ensures Sum(ts, weight) >= weight(ts[i])
  {
    if i > 0 {
      SumAtLeast(ts[1..], i - 1, weight);
    }
  }

  // ---------- the invariant ----------

  predicate AllPass(checks: seq<Check>) {
    forall i :: 0 <= i < |checks| ==> checks[i].passes
  }

  /** The part of the verdict a thread still carries. */
  predicate WillPass(t: Thread) {
    t.Working? ==> t.fOk && AllPass(t.todo)
  }

  predicate AllWillPass(ts: seq<Thread>) {
    forall i :: 0 <= i < |ts| ==> WillPass(ts[i])
  }

  predicate Counted(s: State) {
    && s.nTodo == |s.queue| + Sum(s.threads, InFlight)
    && s.nTotal == Sum(s.threads, Entered)
    && s.nIdle == Sum(s.threads, Idle)
  }

  predicate WellFormed(s: State) {
    && |s.threads| >= 1
    && (forall i :: 0 < i < |s.threads| ==> !s.threads[i].Outside? && !s.threads[i].Notifying?)
    && (forall i :: 0 <= i < |s.threads| && s.threads[i].Working? ==> 1 <= s.threads[i].nNow)
  }

  /** A sleeping master is never forgotten: it is owed a batch that a worker holds, or
      its wake-up is already on the way. */
  predicate MasterSafe(s: State)
    requires |s.threads| >= 1
  {
    s.threads[0].Asleep? ==> s.queue == [] && (s.nTodo > 0 || s.threads[0].signalled)
  }

  predicate Verdict(s: State) {
    AllPass(s.round) <==> s.fAllOk && AllPass(s.queue) && AllWillPass(s.threads)
  }

  predicate RoundsRight(s: State) {
    forall i :: 0 <= i < |s.returned| ==> (s.returned[i].result <==> AllPass(s.returned[i].checks))
  }

  predicate Inv(s: State) {
    WellFormed(s) && Counted(s) && MasterSafe(s) && Verdict(s) && RoundsRight(s)
  }

  // ---------- every step keeps the invariant ----------

  /** Inside the lock, with thread t (recorded as Starting) already counted in nTotal. */
  predicate Mid(s: State, t: nat) {
    Untold(s, t) && MasterSafe(s)
  }

  /** The same, when the master may still have to be told that nothing is left. */
  predicate Untold(s: State, t: nat) {
    && WellFormed(s) && t < |s.threads| && s.threads[t].Starting?
    && s.nTodo == |s.queue| + Sum(s.threads, InFlight)
    && s.nTotal == Sum(s.threads, Entered) + 1
    && s.nIdle == Sum(s.threads, Idle)
    && (s.threads[0].Asleep? ==> s.queue == [])
    && Verdict(s) && RoundsRight(s)
  }

  lemma SumsSet(ts: seq<Thread>, i: nat, t: Thread)
    requires i < |ts|
    ensures Sum(ts[i := t], InFlight) == Sum(ts, InFlight) - InFlight(ts[i]) + InFlight(t)
    ensures Sum(ts[i := t], Entered) == Sum(ts, Entered) - Entered(ts[i]) + Entered(t)
    ensures Sum(ts[i := t], Idle) == Sum(ts, Idle) - Idle(ts[i]) + Idle(t)
  {
    SumSet(ts, i, t, InFlight);
    SumSet(ts, i, t, Entered);
    SumSet(ts, i, t, Idle);
  }

  /** Replacing a thread changes the joint verdict only through that thread. */
  lemma WillPassSet(ts: seq<Thread>, i: nat, t: Thread)
    requires i < |ts|
    ensures WillPass(ts[i]) ==> (AllWillPass(ts[i := t]) <==> AllWillPass(ts) && WillPass(t))
    ensures WillPass(t) ==> (AllWillPass(ts) <==> AllWillPass(ts[i := t]) && WillPass(ts[i]))
  {
    var ts' := ts[i := t];
    assert ts'[i] == t;
    assert forall j :: 0 <= j < |ts| && j != i ==> ts'[j] == ts[j];
  }

  lemma AllPassConcat(a: seq<Check>, b: seq<Check>)
    ensures AllPass(a + b) <==> AllPass(a) && AllPass(b)
  {
    var c := a + b;
    if AllPass(c) {
      forall i | 0 <= i < |a| ensures a[i].passes { assert c[i] == a[i]; }
      forall i | 0 <= i < |b| ensures b[i].passes { assert c[|a| + i] == b[i]; }
    }
  }

  lemma WakeMid(s: State, t: nat)
    requires Inv(s) && t < |s.threads| && s.threads[t].Asleep?
    ensures s.nIdle > 0 && Mid(SetThread(s.(nIdle := s.nIdle - 1), t, Starting), t)
  {
    SumAtLeast(s.threads, t, Idle);
    SumsSet(s.threads, t, Starting);
    WillPassSet(s.threads, t, Starting);
  }

  lemma SignalSums(s: State)
    requires |s.threads| >= 1
    ensures var s' := SignalMaster(s);
            && Sum(s'.threads, InFlight) == Sum(s.threads, InFlight)
            && Sum(s'.threads, Entered) == Sum(s.threads, Entered)
            && Sum(s'.threads, Idle) == Sum(s.threads, Idle)
            && (AllWillPass(s'.threads) <==> AllWillPass(s.threads))
  {
    SumsSet(s.threads, 0, Asleep(true));
    WillPassSet(s.threads, 0, Asleep(true));
  }

  lemma FirstLockMid(s: State, t: nat)
    requires Inv(s) && t < |s.threads| && s.threads[t].Starting?
    ensures CleanUp(s, t) == Some(s) && Mid(s.(nTotal := s.nTotal + 1), t)
  {
  }

  /** fAllOk and nTodo after thread t's batch, before anyone is told. */
  function Settled(s: State, t: nat): State
    requires t < |s.threads| && s.threads[t].Working? && s.threads[t].nNow <= s.nTodo
  {
    SetThread(s.(fAllOk := s.fAllOk && s.threads[t].fOk, nTodo := s.nTodo - s.threads[t].nNow), t, Starting)
  }

  lemma SettledUntold(s: State, t: nat)
    requires Inv(s) && t < |s.threads| && s.threads[t].Working? && s.threads[t].todo == []
    ensures s.threads[t].nNow <= s.nTodo && Untold(Settled(s, t), t)
  {
    SumAtLeast(s.threads, t, InFlight);
    SumsSet(s.threads, t, Starting);
    WillPassSet(s.threads, t, Starting);
  }

  lemma CleanUpMid(s: State, t: nat)
    requires Inv(s) && t < |s.threads| && s.threads[t].Working? && s.threads[t].todo == []
    ensures CleanUp(s, t).Some? && Mid(CleanUp(s, t).value, t)
  {
    SettledUntold(s, t);
    SignalSums(Settled(s, t));
  }

  lemma BatchFits(s: State)
    requires s.queue != []
    ensures 1 <= BatchCount(s) <= |s.queue|
  {
    var length, sharers := |s.queue|, s.nTotal + s.nIdle + 1;
    assert length / sharers <= length;
  }

  lemma TakeInv(s: State, t: nat)
    requires Mid(s, t) && s.queue != []
    ensures Decide(s, t).Some? && Inv(Decide(s, t).value)
  {
    BatchFits(s);
    var n := BatchCount(s);
    var rest := |s.queue| - n;
    var batch := s.queue[rest..];
    SumsSet(s.threads, t, Working(batch, n, s.fAllOk));
    WillPassSet(s.threads, t, Working(batch, n, s.fAllOk));
    AllPassConcat(s.queue[..rest], batch);
    assert s.queue == s.queue[..rest] + batch;
  }

  lemma ReturnInv(s: State)
    requires Mid(s, 0) && s.queue == [] && s.nTodo == 0
    ensures Decide(s, 0).Some? && Inv(Decide(s, 0).value)
    ensures s.fAllOk <==> AllPass(s.round)
  {
    SumsSet(s.threads, 0, Outside);
    forall i | 0 <= i < |s.threads| ensures !s.threads[i].Working? {
      SumAtLeast(s.threads, i, InFlight);
    }
  }

  lemma SleepInv(s: State, t: nat)
    requires Mid(s, t) && s.queue == [] && !(t == 0 && s.nTodo == 0)
    ensures Decide(s, t).Some? && Inv(Decide(s, t).value)
  {
    SumsSet(s.threads, t, Asleep(false));
    WillPassSet(s.threads, t, Asleep(false));
  }

  lemma DecideInv(s: State, t: nat)
    requires Mid(s, t)
    ensures Decide(s, t).Some? && Inv(Decide(s, t).value)
  {
    if s.queue != [] {
      TakeInv(s, t);
    } else if t == 0 && s.nTodo == 0 {
      ReturnInv(s);
    } else {
      SleepInv(s, t);
    }
  }

  lemma AddInv(s: State, checks: seq<Check>)
    requires Inv(s) && Enabled(s, Add(checks))
    ensures Step(s, Add(checks)).Some? && Inv(Step(s, Add(checks)).value)
  {
    SumsSet(s.threads, 0, Notifying(|checks| != 1));
    WillPassSet(s.threads, 0, Notifying(|checks| != 1));
    AllPassConcat(s.queue, checks);
    AllPassConcat(s.round, checks);
  }

  lemma SignalAllSums(ts: seq<Thread>)
    requires |ts| >= 1 && ts[0].Notifying?
    ensures Sum(SignalAll(ts), InFlight) == Sum(ts, InFlight)
    ensures Sum(SignalAll(ts), Entered) == Sum(ts, Entered)
    ensures Sum(SignalAll(ts), Idle) == Sum(ts, Idle)
    ensures AllWillPass(SignalAll(ts)) <==> AllWillPass(ts)
  {
    var ts' := SignalAll(ts);
    SumSame(ts, ts', InFlight);
    SumSame(ts, ts', Entered);
    SumSame(ts, ts', Idle);
    assert forall i :: 0 <= i < |ts| ==> (WillPass(ts[i]) <==> WillPass(ts'[i]));
  }

  lemma NotifyAllInv(s: State)
    requires Inv(s) && Enabled(s, NotifyAll)
    ensures Step(s, NotifyAll).Some? && Inv(Step(s, NotifyAll).value)
  {
    SignalAllSums(s.threads);
  }

  lemma SetInv(s: State, t: nat, thread: Thread)
    requires Inv(s) && t < |s.threads|
    requires !s.threads[t].Working? && !thread.Working? && Entered(thread) == Entered(s.threads[t])
             && Idle(thread) == Idle(s.threads[t])
    requires thread.Asleep? ==> thread.signalled
    requires t > 0 ==> !thread.Outside? && !thread.Notifying?
    ensures Inv(SetThread(s, t, thread))
  {
    SumsSet(s.threads, t, thread);
    WillPassSet(s.threads, t, thread);
  }

  lemma RunCheckInv(s: State, t: nat)
    requires Inv(s) && Enabled(s, RunCheck(t))
    ensures Step(s, RunCheck(t)).Some? && Inv(Step(s, RunCheck(t)).value)
  {
    var Working(todo, nNow, fOk) := s.threads[t];
    var thread := Working(todo[1..], nNow, if fOk then todo[0].passes else fOk);
    assert [todo[0]] + todo[1..] == todo;
    AllPassConcat([todo[0]], todo[1..]);
    SumsSet(s.threads, t, thread);
    var off := s.threads[t := Starting];
    WillPassSet(s.threads, t, Starting);
    WillPassSet(s.threads[t := thread], t, Starting);
    assert s.threads[t := thread][t := Starting] == off;
  }

  lemma LockInv(s: State, t: nat)
    requires Inv(s) && Enabled(s, Lock(t))
    ensures LockStep(s, t).Some? && Inv(LockStep(s, t).value)
  {
    if s.threads[t].Starting? {
      FirstLockMid(s, t);
      DecideInv(s.(nTotal := s.nTotal + 1), t);
    } else {
      CleanUpMid(s, t);
      DecideInv(CleanUp(s, t).value, t);
    }
  }

  lemma WakeInv(s: State, t: nat)
    requires Inv(s) && Enabled(s, Wake(t))
    ensures WakeStep(s, t).Some? && Inv(WakeStep(s, t).value)
  {
    WakeMid(s, t);
    DecideInv(SetThread(s.(nIdle := s.nIdle - 1), t, Starting), t);
  }

  lemma NotifyOneInv(s: State, t: nat)
    requires Inv(s) && Enabled(s, NotifyOne(t))
    ensures Step(s, NotifyOne(t)).Some? && Inv(Step(s, NotifyOne(t)).value)
  {
    SetInv(s, t, Asleep(true));
    SetInv(SetThread(s, t, Asleep(true)), 0, Outside);
  }

  lemma StepInv(s: State, a: Action)
    requires Inv(s) && Enabled(s, a)
    ensures Step(s, a).Some? && Inv(Step(s, a).value)
  {
    match a
    case Add(checks) => AddInv(s, checks);
    case NotifyOne(t) => NotifyOneInv(s, t);
    case NotifyNobody => SetInv(s, 0, Outside);
    case NotifyAll => NotifyAllInv(s);
    case CallWait => SetInv(s, 0, Starting);
    case Lock(t) => LockInv(s, t);
    case Wake(t) => WakeInv(s, t);
    case RunCheck(t) => RunCheckInv(s, t);
  }

  lemma InitInv(workers: nat, nBatchSize: nat)
    ensures Inv(Init(workers, nBatchSize))
  {
    var s := Init(workers, nBatchSize);
    SumZero(s.threads, InFlight);
    SumZero(s.threads, Entered);
    SumZero(s.threads, Idle);
  }

  // ---------- runs ----------

  predicate AllEnabled(s: State, actions: seq<Action>)
    decreases |actions|
  {
    actions == [] ||
    (Enabled(s, actions[0]) && (Step(s, actions[0]).Some? ==> AllEnabled(Step(s, actions[0]).value, actions[1..])))
  }

  function Run(s: State, actions: seq<Action>): Option<State>
    requires AllEnabled(s, actions)
    decreases |actions|
  {
    if actions == [] then Some(s) else
      match Step(s, actions[0])
      case None => None
      case Some(s') => Run(s', actions[1..])
  }

  /** Everything the master handed to Add, in order. */
  function Added(actions: seq<Action>): seq<Check> {
    if actions == [] then [] else (if actions[0].Add? then actions[0].checks else []) + Added(actions[1..])
  }

  /** Everything the finished rounds were about, in order. */
  function Settlement(rounds: seq<Round>): seq<Check> {
    if rounds == [] then [] else Settlement(rounds[..|rounds| - 1]) + rounds[|rounds| - 1].checks
  }

  function History(s: State): seq<Check> {
    Settlement(s.returned) + s.round
  }

  lemma DecideHistory(s: State, t: nat)
    requires t < |s.threads| && Decide(s, t).Some?
    ensures History(Decide(s, t).value) == History(s)
  {
    var s' := Decide(s, t).value;
    if s'.returned != s.returned {
      assert s'.returned[..|s'.returned| - 1] == s.returned;
    }
  }

  lemma LockHistory(s: State, t: nat)
    requires t < |s.threads| && LockStep(s, t).Some?
    ensures History(LockStep(s, t).value) == History(s)
  {
    hide Decide;
    var s' := CleanUp(s, t).value;
    DecideHistory(if s.threads[t].Starting? then s'.(nTotal := s'.nTotal + 1) else s', t);
  }

  lemma StepHistory(s: State, a: Action)
    requires Enabled(s, a) && Step(s, a).Some?
    ensures History(Step(s, a).value) == History(s) + (if a.Add? then a.checks else [])
  {
    hide Decide, CleanUp, SignalAll;
    match a
    case Add(checks) =>
      if checks != [] {
        assert Settlement(s.returned) + (s.round + checks) == History(s) + checks;
      }
    case Lock(t) =>
      LockHistory(s, t);
    case Wake(t) =>
      DecideHistory(SetThread(s.(nIdle := s.nIdle - 1), t, Starting), t);
    case _ =>
  }

  /** Main theorem. For any number of workers, any batch size and any interleaving, no
      counter ever goes wrong, every finished Wait returned true exactly when all checks
      of its round pass, and no check is dropped, repeated or moved to another round. */
  lemma RunCorrect(workers: nat, nBatchSize: nat, actions: seq<Action>)
    requires AllEnabled(Init(workers, nBatchSize), actions)
    ensures var r := Run(Init(workers, nBatchSize), actions);
            && r.Some? && Inv(r.value)
            && (forall i :: 0 <= i < |r.value.returned| ==>
                  (r.value.returned[i].result <==> AllPass(r.value.returned[i].checks)))
            && Settlement(r.value.returned) + r.value.round == Added(actions)
  {
    hide Enabled, Step;
    InitInv(workers, nBatchSize);
    RunFrom(Init(workers, nBatchSize), actions);
  }

  lemma {:induction false} RunFrom(s: State, actions: seq<Action>)
    requires Inv(s) && AllEnabled(s, actions)
    ensures var r := Run(s, actions);
            r.Some? && Inv(r.value) && History(r.value) == History(s) + Added(actions)
    decreases |actions|
  {
    hide Inv, Step, Enabled, Settlement;
    if actions != [] {
      StepInv(s, actions[0]);
      StepHistory(s, actions[0]);
      RunFrom(Step(s, actions[0]).value, actions[1..]);
    }
  }

  // ---------- Wait comes back ----------

  predicate InWait(s: State) {
    |s.threads| >= 1 && !s.threads[0].Outside? && !s.threads[0].Notifying?
  }

  /** Not a wake-up out of nowhere. */
  predicate Genuine(s: State, a: Action)
    requires Enabled(s, a)
  {
    a.Wake? ==> s.threads[a.thread].signalled
  }

  function Effort(t: Thread): nat {
    match t
    case Starting => 1
    case Asleep(signalled) => if signalled then 1 else 0
    case Working(todo, _, _) => 2 + |todo|
    case _ => 0
  }

  /** A bound on the steps that are left while the master waits. */
  function Rank(s: State): nat {
    4 * |s.queue| + Sum(s.threads, Effort)
  }

  lemma {:induction false} SomeoneWorks(ts: seq<Thread>) returns (i: nat)
    requires Sum(ts, InFlight) > 0
    ensures i < |ts| && ts[i].Working?
  {
    if ts[0].Working? {
      i := 0;
    } else {
      var j := SomeoneWorks(ts[1..]);
      i := j + 1;
    }
  }

  /** While the master is inside Wait, somebody can always take a genuine step. */
  lemma NoDeadlock(s: State) returns (a: Action)
    requires Inv(s) && InWait(s)
    ensures Enabled(s, a) && Genuine(s, a)
  {
    var t := 0;
    if s.threads[0] == Asleep(false) {
      t := SomeoneWorks(s.threads);
    }
    a := if s.threads[t].Asleep? then Wake(t)
         else if s.threads[t].Working? && s.threads[t].todo != [] then RunCheck(t)
         else Lock(t);
  }

  lemma DecideRank(s: State, t: nat)
    requires Mid(s, t)
    ensures Decide(s, t).Some?
    ensures InWait(Decide(s, t).value) ==> Rank(Decide(s, t).value) < Rank(s)
  {
    var s' := Decide(s, t).value;
    DecideInv(s, t);
    SumSet(s.threads, t, s'.threads[t], Effort);
    if s.queue != [] {
      BatchFits(s);
    }
  }

  lemma SettledRank(s: State, t: nat)
    requires Inv(s) && InWait(s) && Enabled(s, Lock(t)) && s.threads[t].Working?
    ensures CleanUp(s, t).Some? && Rank(CleanUp(s, t).value) <= Rank(s)
  {
    SettledUntold(s, t);
    SumSet(s.threads, t, Starting, Effort);
    var s' := Settled(s, t);
    SumSet(s'.threads, 0, Asleep(true), Effort);
  }

  lemma LockRank(s: State, t: nat)
    requires Inv(s) && InWait(s) && Enabled(s, Lock(t))
    ensures LockStep(s, t).Some?
    ensures InWait(LockStep(s, t).value) ==> Rank(LockStep(s, t).value) < Rank(s)
  {
    if s.threads[t].Starting? {
      FirstLockMid(s, t);
      DecideRank(s.(nTotal := s.nTotal + 1), t);
    } else {
      CleanUpMid(s, t);
      SettledRank(s, t);
      DecideRank(CleanUp(s, t).value, t);
    }
  }

  lemma StepRank(s: State, a: Action)
    requires Inv(s) && InWait(s) && Enabled(s, a) && Genuine(s, a)
    ensures Step(s, a).Some?
    ensures InWait(Step(s, a).value) ==> Rank(Step(s, a).value) < Rank(s)
  {
    match a
    case Lock(t) => LockRank(s, t);
    case Wake(t) => WakeRank(s, t);
    case RunCheck(t) => RunCheckRank(s, t);
  }

  lemma WakeRank(s: State, t: nat)
    requires Inv(s) && InWait(s) && Enabled(s, Wake(t)) && Genuine(s, Wake(t))
    ensures Step(s, Wake(t)).Some?
    ensures InWait(Step(s, Wake(t)).value) ==> Rank(Step(s, Wake(t)).value) < Rank(s)
  {
    WakeMid(s, t);
    SumSet(s.threads, t, Starting, Effort);
    DecideRank(SetThread(s.(nIdle := s.nIdle - 1), t, Starting), t);
  }

  lemma RunCheckRank(s: State, t: nat)
    requires Inv(s) && InWait(s) && Enabled(s, RunCheck(t)) && Genuine(s, RunCheck(t))
    ensures Step(s, RunCheck(t)).Some?
    ensures InWait(Step(s, RunCheck(t)).value) ==> Rank(Step(s, RunCheck(t)).value) < Rank(s)
  {
    SumSet(s.threads, t, Step(s, RunCheck(t)).value.threads[t], Effort);
  }

  /** A run of genuine steps during which the master stays inside Wait. */
  predicate StaysWaiting(s: State, actions: seq<Action>)
    decreases |actions|
  {
    InWait(s) &&
    (actions == [] ||
     (Enabled(s, actions[0]) && Genuine(s, actions[0]) && Step(s, actions[0]).Some? &&
      StaysWaiting(Step(s, actions[0]).value, actions[1..])))
  }

  /** Wait returns: no schedule can keep the master inside it for more than Rank(s) genuine
      steps, and by NoDeadlock there is always a next one to take. */
  lemma {:induction false} WaitReturns(s: State, actions: seq<Action>)
    requires Inv(s) && StaysWaiting(s, actions)
    ensures |actions| <= Rank(s)
    decreases |actions|
  {
    hide Inv, Step, Enabled, Rank;
    if actions != [] {
      StepRank(s, actions[0]);
      StepInv(s, actions[0]);
      WaitReturns(Step(s, actions[0]).value, actions[1..]);
    }
  }

  // ---------- queued work does not lie idle ----------

  /** A batch is as large as the batch size and a fair share for every thread allow, but at least one check. */
  lemma BatchIsGreatest(s: State, k: nat)
    ensures k <= BatchCount(s) <==>
            k <= 1 || (k <= s.nBatchSize && k * (s.nTotal + s.nIdle + 1) <= |s.queue|)
  {
    ShareIsGreatest(|s.queue|, s.nTotal + s.nIdle + 1, k);
  }

  lemma ShareIsGreatest(n: nat, m: nat, k: nat)
    requires m > 0
    ensures k <= n / m <==> k * m <= n
  {
    if k <= n / m {
      MulMonotone(k, n / m, m);
    } else {
      MulMonotone(n / m + 1, k, m);
    }
  }

  predicate AwakeWorker(s: State, t: nat) {
    0 < t < |s.threads| && s.threads[t] != Asleep(false)
  }

  /** While checks are queued some worker is awake or has been signalled, unless the master is just about to
      notify or there are no workers. */
  ghost predicate Attended(s: State) {
    |s.threads| > 1 && s.queue != [] && !s.threads[0].Notifying? ==> exists t :: AwakeWorker(s, t)
  }

  /** A thread leaves checks in the queue only by taking a batch itself. */
  lemma DecideLeaves(s: State, t: nat)
    requires t < |s.threads| && Decide(s, t).Some?
    ensures var s' := Decide(s, t).value;
            && |s'.threads| == |s.threads|
            && (forall i :: 0 <= i < |s.threads| && i != t ==> s'.threads[i] == s.threads[i])
            && (s'.queue != [] ==> s.queue != [] && s'.threads[t].Working?) && !s'.threads[t].Notifying?
  {
  }

  lemma CleanUpLeaves(s: State, t: nat)
    requires t < |s.threads| && CleanUp(s, t).Some?
    ensures var s' := CleanUp(s, t).value;
            && |s'.threads| == |s.threads| && s'.queue == s.queue
            && (forall i :: 0 < i < |s.threads| && i != t ==> s'.threads[i] == s.threads[i])
            && (s'.threads[0].Notifying? ==> s.threads[0].Notifying?)
  {
  }

  /** What is left to show after a critical section of thread t. */
  lemma TakenOrKept(s: State, s': State, t: nat)
    requires WellFormed(s) && Attended(s) && t < |s.threads| == |s'.threads| && !s.threads[t].Notifying?
    requires s'.queue != [] ==> s.queue != [] && s'.threads[t].Working?
    requires forall i :: 0 < i < |s.threads| && i != t ==> s'.threads[i] == s.threads[i]
    requires s'.threads[0].Notifying? <==> s.threads[0].Notifying?
    ensures Attended(s')
  {
    if |s.threads| > 1 && s'.queue != [] && !s'.threads[0].Notifying? {
      if t > 0 {
        assert AwakeWorker(s', t);
      } else {
        var i :| AwakeWorker(s, i);
        assert AwakeWorker(s', i);
      }
    }
  }

  lemma LockAttended(s: State, t: nat)
    requires WellFormed(s) && Attended(s) && Enabled(s, Lock(t)) && LockStep(s, t).Some?
    ensures Attended(LockStep(s, t).value)
  {
    hide Decide, CleanUp, Attended;
    CleanUpLeaves(s, t);
    var s1 := CleanUp(s, t).value;
    var s2 := if s.threads[t].Starting? then s1.(nTotal := s1.nTotal + 1) else s1;
    DecideLeaves(s2, t);
    CleanUpNotifies(s, t);
    TakenOrKept(s, Decide(s2, t).value, t);
  }

  lemma CleanUpNotifies(s: State, t: nat)
    requires t < |s.threads| && CleanUp(s, t).Some?
    ensures t != 0 && s.threads[0].Notifying? ==> CleanUp(s, t).value.threads[0].Notifying?
  {
  }

  lemma WakeAttended(s: State, t: nat)
    requires WellFormed(s) && Attended(s) && Enabled(s, Wake(t)) && WakeStep(s, t).Some?
    ensures Attended(WakeStep(s, t).value)
  {
    hide Decide, Attended;
    DecideLeaves(SetThread(s.(nIdle := s.nIdle - 1), t, Starting), t);
    TakenOrKept(s, WakeStep(s, t).value, t);
  }

  /** Every step keeps some worker awake while checks are queued. */
  lemma StepAttended(s: State, a: Action)
    requires WellFormed(s) && Attended(s) && Enabled(s, a) && Step(s, a).Some?
    ensures Attended(Step(s, a).value)
  {
    hide Decide, CleanUp;
    var s' := Step(s, a).value;
    match a
    case NotifyOne(t) => assert AwakeWorker(s', t);
    case NotifyNobody => assert |s.threads| > 1 ==> AwakeWorker(s', 1);
    case NotifyAll => assert |s.threads| > 1 ==> AwakeWorker(s', 1);
    case Lock(t) => LockAttended(s, t);
    case Wake(t) => WakeAttended(s, t);
    case Add(checks) =>
    case CallWait => StillAttended(s, s', 0);
    case RunCheck(t) => StillAttended(s, s', t);
  }

  lemma StillAttended(s: State, s': State, t: nat)
    requires Attended(s) && t < |s.threads| == |s'.threads| && s'.queue == s.queue
    requires forall i :: 0 < i < |s.threads| && i != t ==> s'.threads[i] == s.threads[i]
    requires !s'.threads[t].Asleep? && (s.threads[0].Notifying? ==> s'.threads[0].Notifying?)
    ensures Attended(s')
  {
    if |s.threads| > 1 && s.queue != [] && !s.threads[0].Notifying? {
      var i :| AwakeWorker(s, i);
      assert AwakeWorker(s', i);
    }
  }

  lemma {:induction false} RunAttended(s: State, actions: seq<Action>)
    requires Inv(s) && Attended(s) && AllEnabled(s, actions)
    ensures Run(s, actions).Some? && Attended(Run(s, actions).value)
    decreases |actions|
  {
    hide Inv, Step, Enabled, Attended;
    if actions != [] {
      StepInv(s, actions[0]);
      ShapeOf(s);
      StepAttended(s, actions[0]);
      RunAttended(Step(s, actions[0]).value, actions[1..]);
    }
  }

  lemma ShapeOf(s: State)
    requires Inv(s)
    ensures WellFormed(s)
  {
  }

  /** Main theorem. Over every run, whenever checks are queued and the master is not about to notify, some worker is
      awake or has been signalled: a wake-up is never lost. */
  lemma WorkIsAttended(workers: nat, nBatchSize: nat, actions: seq<Action>)
    requires workers > 0 && AllEnabled(Init(workers, nBatchSize), actions)
    ensures var r := Run(Init(workers, nBatchSize), actions);
            && r.Some? && |r.value.threads| == workers + 1
            && (r.value.queue != [] && !r.value.threads[0].Notifying? ==> exists t :: AwakeWorker(r.value, t))
  {
    hide Enabled, Step;
    InitInv(workers, nBatchSize);
    RunAttended(Init(workers, nBatchSize), actions);
    RunCorrect(workers, nBatchSize, actions);
    RunThreads(Init(workers, nBatchSize), actions);
  }

  lemma {:induction false} RunThreads(s: State, actions: seq<Action>)
    requires AllEnabled(s, actions) && Run(s, actions).Some?
    ensures |Run(s, actions).value.threads| == |s.threads|
    decreases |actions|
  {
    hide Enabled, Step;
    if actions != [] {
      StepThreads(s, actions[0]);
      RunThreads(Step(s, actions[0]).value, actions[1..]);
    }
  }

  lemma StepThreads(s: State, a: Action)
    requires Enabled(s, a) && Step(s, a).Some?
    ensures |Step(s, a).value.threads| == |s.threads|
  {
    hide Decide, CleanUp, SignalAll;
    match a
    case Lock(t) =>
      CleanUpLeaves(s, t);
      var s1 := CleanUp(s, t).value;
      DecideLeaves(if s.threads[t].Starting? then s1.(nTotal := s1.nTotal + 1) else s1, t);
    case Wake(t) => DecideLeaves(SetThread(s.(nIdle := s.nIdle - 1), t, Starting), t);
    case _ =>
  }
}
