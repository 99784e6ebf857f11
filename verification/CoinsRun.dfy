/** Runs of a stack of coin caches, against a stack of plain maps.

    An operation names the level it works on, counted from the top. Reads, Uncache,
    Flush and Sync may hit any cache; only the topmost cache takes AddCoin and
    SpendCoin, as a cache must not change under its child. Caches may also be put on
    top and thrown away, the way block validation does. */
module CoinsRun {
  import opened Options
  import opened Coins

  datatype LocalOp =
    | Get(op: OutPoint, empty: bool)
    | Forget(op: OutPoint)
    | FlushDown
    | SyncDown

  datatype Op =
    | At(level: nat, local: LocalOp)
    | Add(op: OutPoint, coin: Coin, possibleOverwrite: bool)
    | Spend(op: OutPoint, empty: bool)
    | Push
    | Pop

  /** The stack after an operation, and what the operation handed back. */
  datatype Effect = Effect(stack: Stack, answer: Option<Coin>) | Failed

  /** An answer with the coins that are already spent left out. */
  function Unspent(answer: Option<Coin>): Option<Coin> {
    if answer.Some? && answer.value.IsSpent() then None else answer
  }

  ghost function LocalStep(s: Stack, o: LocalOp): Effect
    requires s.Cache?
  {
    match o
    case Get(op, empty) => var (s', answer) := GetCoin(s, op, empty); Effect(s', answer)
    case Forget(op) => Effect(Uncache(s, op), None)
    case FlushDown => Pushed(Flush(s))
    case SyncDown => Pushed(Sync(s))
  }

  ghost function StepAt(s: Stack, level: nat, o: LocalOp): Effect {
    match s
    case Bottom(_, _) => Failed
    case Cache(layer, base) =>
      if level == 0 then LocalStep(s, o) else
        match StepAt(base, level - 1, o)
        case Failed => Failed
        case Effect(base', answer) => Effect(Cache(layer, base'), answer)
  }

  function Pushed(r: Option<Stack>): Effect {
    if r.Some? then Effect(r.value, None) else Failed
  }

  ghost function Step(s: Stack, o: Op): Effect {
    match o
    case At(level, local) => StepAt(s, level, local)
    case Add(op, coin, possibleOverwrite) =>
      if s.Bottom? || coin.IsSpent() then Failed else
        var r := AddCoin(s, op, coin, possibleOverwrite);
        if r.Thrown? then Failed else Effect(r.stack, None)
    case Spend(op, empty) =>
      if s.Bottom? then Failed else
        var (s', answer) := SpendCoin(s, op, empty); Effect(s', answer)
    case Push => Effect(Cache(Layer(map[], 0, NULL_HASH), s), None)
    case Pop => if s.Bottom? then Failed else Effect(s.base, None)
  }

  /** A run: the final stack and the answers in order, or Failed as soon as anything throws. */
  datatype Trace = Trace(stack: Stack, answers: seq<Option<Coin>>) | Broken

  ghost function Run(s: Stack, ops: seq<Op>): Trace
    decreases |ops|
  {
    if ops == [] then Trace(s, []) else
      match Step(s, ops[0])
      case Failed => Broken
      case Effect(s', answer) =>
        match Run(s', ops[1..])
        case Broken => Broken
        case Trace(end, answers) => Trace(end, [answer] + answers)
  }

  // ---------- the plain machine ----------

  /** What callers owe: levels that exist, unspent coins, and AddCoin without
      possible_overwrite only where nothing would be overwritten. */
  predicate Allowed(vs: seq<CoinMap>, o: Op) {
    && |vs| >= 1
    && match o
       case At(level, _) => level + 1 < |vs|
       case Add(op, coin, possibleOverwrite) =>
         && 2 <= |vs| && !coin.IsSpent()
         && (possibleOverwrite || op !in vs[0] || IsUnspendable(coin.out.script))
       case Spend(_, _) => 2 <= |vs|
       case Push => true
       case Pop => 2 <= |vs|
  }

  function PlainStepAt(vs: seq<CoinMap>, level: nat, o: LocalOp): (seq<CoinMap>, Option<Coin>)
    requires level + 1 < |vs|
  {
    match o
    case Get(op, _) => (vs, ViewAt(vs[level], op))
    case Forget(_) => (vs, None)
    case FlushDown => (vs[level + 1 := vs[level]], None)
    case SyncDown => (vs[level + 1 := vs[level]], None)
  }

  /** The same operation on plain maps, one per level: no flags, no filling, no merging. */
  function PlainStep(vs: seq<CoinMap>, o: Op): (seq<CoinMap>, Option<Coin>)
    requires Allowed(vs, o)
  {
    match o
    case At(level, local) => PlainStepAt(vs, level, local)
    case Add(op, coin, _) => (if IsUnspendable(coin.out.script) then vs else vs[0 := vs[0][op := coin]], None)
    case Spend(op, _) => (vs[0 := vs[0] - {op}], ViewAt(vs[0], op))
    case Push => ([vs[0]] + vs, None)
    case Pop => (vs[1..], None)
  }

  predicate AllAllowed(vs: seq<CoinMap>, ops: seq<Op>)
    decreases |ops|
  {
    ops == [] || (Allowed(vs, ops[0]) && AllAllowed(PlainStep(vs, ops[0]).0, ops[1..]))
  }

  function PlainRun(vs: seq<CoinMap>, ops: seq<Op>): (seq<CoinMap>, seq<Option<Coin>>)
    requires AllAllowed(vs, ops)
    decreases |ops|
  {
    if ops == [] then (vs, []) else
      var (vs', answer) := PlainStep(vs, ops[0]);
      var (end, answers) := PlainRun(vs', ops[1..]);
      (end, [answer] + answers)
  }

  // ---------- refinement ----------

  lemma {:induction false} ViewsTop(s: Stack)
    ensures |Views(s)| == Depth(s) + 1 && Views(s)[0] == View(s)
    ensures s.Cache? ==> Views(s)[1..] == Views(s.base)
  {
    if s.Cache? {
      ViewsTop(s.base);
    }
  }

  /** The effect is the plain one: no failure, a sound stack, the plain views, the plain answer. */
  ghost predicate Refines(e: Effect, plain: (seq<CoinMap>, Option<Coin>)) {
    e.Effect? && Inv(e.stack) && Views(e.stack) == plain.0 && e.answer == plain.1
  }

  /** The same but for the answer, which may be an already spent coin where the plain one is none;
      `departs` says whether it is. */
  ghost predicate RefinesBut(e: Effect, plain: (seq<CoinMap>, Option<Coin>), departs: bool) {
    && e.Effect? && Inv(e.stack) && Views(e.stack) == plain.0
    && Unspent(e.answer) == plain.1 && (e.answer == plain.1 <==> !departs)
  }

  /** The step is a SpendCoin that succeeds without a coin to spend. */
  predicate Departs(s: Stack, o: Op) {
    o.Spend? && s.Cache? && SpendsNothing(s, o.op, o.empty)
  }

  lemma PushedViews(s: Stack, r: Option<Stack>)
    requires s.Cache? && PushedDown(s, r)
    ensures |Views(s)| >= 2 && Views(r.value) == Views(s)[1 := Views(s)[0]]
  {
    ViewsTop(s);
    ViewsTop(s.base);
    ViewsTop(r.value);
    ViewsTop(r.value.base);
    var a, b := Views(r.value), Views(s)[1 := Views(s)[0]];
    assert a[0] == View(r.value) && a[1] == View(r.value.base);
    assert a[2..] == Views(r.value)[1..][1..] && b[2..] == Views(s)[1..][1..];
    assert a == [a[0], a[1]] + a[2..] && b == [b[0], b[1]] + b[2..];
  }

  lemma LocalStepRefines(s: Stack, o: LocalOp)
    requires Inv(s) && s.Cache?
    ensures |Views(s)| >= 2
    ensures Refines(LocalStep(s, o), PlainStepAt(Views(s), 0, o))
    ensures LocalStep(s, o).stack.Cache? && View(LocalStep(s, o).stack) == View(s)
  {
    ViewsTop(s);
    match o
    case Get(op, empty) => GetCoinCorrect(s, op, empty);
    case Forget(op) => UncacheCorrect(s, op);
    case FlushDown => FlushCorrect(s); PushedViews(s, Flush(s));
    case SyncDown => SyncCorrect(s); PushedViews(s, Sync(s));
  }

  lemma PlainBelow(vs: seq<CoinMap>, level: nat, o: LocalOp)
    requires 0 < level && level + 1 < |vs|
    ensures var (below, answer) := PlainStepAt(vs[1..], level - 1, o);
            PlainStepAt(vs, level, o) == ([vs[0]] + below, answer)
  {
    var (below, answer) := PlainStepAt(vs[1..], level - 1, o);
    assert PlainStepAt(vs, level, o).0 == [vs[0]] + below;
  }

  /** A cache over a base that shows the same shows the same. */
  lemma OtherBase(layer: Layer, base: Stack, base': Stack)
    requires Inv(Cache(layer, base)) && Inv(base') && View(base') == View(base)
    ensures var s' := Cache(layer, base');
            Inv(s') && View(s') == View(Cache(layer, base)) && Views(s') == [View(s')] + Views(base')
  {
    hide EntriesOk, SumUsage, Overlay;
  }

  /** The induction down the stack: whatever a lower cache does, the caches above it
      keep showing the same, because the level they sit on keeps its view. */
  lemma {:induction false} StepAtRefines(s: Stack, level: nat, o: LocalOp)
    requires Inv(s) && level < Depth(s)
    ensures |Views(s)| == Depth(s) + 1
    ensures Refines(StepAt(s, level, o), PlainStepAt(Views(s), level, o))
    ensures StepAt(s, level, o).stack.Cache? && View(StepAt(s, level, o).stack) == View(s)
    decreases level
  {
    hide LocalStep, PlainStepAt, EntriesOk, SumUsage, View;
    ViewsTop(s);
    if level == 0 {
      LocalStepRefines(s, o);
    } else {
      StepAtRefines(s.base, level - 1, o);
      PlainBelow(Views(s), level, o);
      OtherBase(s.layer, s.base, StepAt(s.base, level - 1, o).stack);
    }
  }

  lemma AddRefines(s: Stack, op: OutPoint, coin: Coin, possibleOverwrite: bool)
    requires Inv(s) && Allowed(Views(s), Add(op, coin, possibleOverwrite))
    ensures Refines(Step(s, Add(op, coin, possibleOverwrite)), PlainStep(Views(s), Add(op, coin, possibleOverwrite)))
  {
    ViewsTop(s);
    if !IsUnspendable(coin.out.script) {
      AddCoinCorrect(s, op, coin, possibleOverwrite);
      OverlayAt(s.layer.coins, View(s.base), op);
      ViewsTop(AddCoin(s, op, coin, possibleOverwrite).stack);
    }
  }

  lemma SpendRefines(s: Stack, op: OutPoint, empty: bool)
    requires Inv(s) && s.Cache?
    ensures |Views(s)| >= 2
    ensures RefinesBut(Step(s, Spend(op, empty)), PlainStep(Views(s), Spend(op, empty)), SpendsNothing(s, op, empty))
  {
    hide Inv, View, SpendCoin;
    ViewsTop(s);
    SpendCoinCorrect(s, op, empty);
    SpendAnswer(s, op, empty);
    ViewHoldsUnspent(s);
    ViewsTop(SpendCoin(s, op, empty).0);
  }

  /** Plain answers are never spent coins. */
  lemma PlainEffect(s: Stack, o: Op)
    requires Inv(s) && Allowed(Views(s), o) && !o.Spend? && Refines(Step(s, o), PlainStep(Views(s), o))
    ensures RefinesBut(Step(s, o), PlainStep(Views(s), o), false)
  {
    if o.At? && o.local.Get? {
      ViewUnspentAt(s, o.level);
    }
  }

  lemma {:induction false} ViewUnspentAt(s: Stack, level: nat)
    requires Inv(s) && level < |Views(s)|
    ensures forall op :: op in Views(s)[level] ==> !Views(s)[level][op].IsSpent()
  {
    ViewsTop(s);
    ViewHoldsUnspent(s);
    if level > 0 {
      ViewUnspentAt(s.base, level - 1);
      assert Views(s)[level] == Views(s.base)[level - 1];
    }
  }

  lemma StepRefines(s: Stack, o: Op)
    requires Inv(s) && Allowed(Views(s), o)
    ensures RefinesBut(Step(s, o), PlainStep(Views(s), o), Departs(s, o))
  {
    hide Refines, RefinesBut, Step, Inv, SpendsNothing;
    ViewsTop(s);
    match o
    case At(level, local) => AtRefines(s, level, local); PlainEffect(s, o);
    case Add(op, coin, possibleOverwrite) => AddRefines(s, op, coin, possibleOverwrite); PlainEffect(s, o);
    case Spend(op, empty) => SpendRefines(s, op, empty);
    case Push => PushRefines(s); PlainEffect(s, o);
    case Pop => PopRefines(s); PlainEffect(s, o);
  }

  lemma AtRefines(s: Stack, level: nat, o: LocalOp)
    requires Inv(s) && Allowed(Views(s), At(level, o))
    ensures Refines(Step(s, At(level, o)), PlainStep(Views(s), At(level, o)))
  {
    hide StepAt, PlainStepAt;
    ViewsTop(s);
    StepAtRefines(s, level, o);
  }

  lemma PopRefines(s: Stack)
    requires Inv(s) && Allowed(Views(s), Pop)
    ensures Refines(Step(s, Pop), PlainStep(Views(s), Pop))
  {
    ViewsTop(s);
  }

  lemma PushRefines(s: Stack)
    requires Inv(s)
    ensures |Views(s)| >= 1 && Refines(Step(s, Push), PlainStep(Views(s), Push))
  {
    ViewsTop(s);
    var view := View(s);
    forall op ensures ShownAt(map[], view, op) == ViewAt(view, op) {
    }
    SameOverlay(map[], view, view);
    ViewsTop(Step(s, Push).stack);
  }

  /** Some step of the run departs from the plain machine in its answer. */
  ghost predicate SomeDeparts(s: Stack, ops: seq<Op>)
    decreases |ops|
  {
    ops != [] && (Departs(s, ops[0]) || (Step(s, ops[0]).Effect? && SomeDeparts(Step(s, ops[0]).stack, ops[1..])))
  }

  function AllUnspent(answers: seq<Option<Coin>>): (r: seq<Option<Coin>>)
    ensures |r| == |answers| && forall i :: 0 <= i < |answers| ==> r[i] == Unspent(answers[i])
  {
    seq(|answers|, i requires 0 <= i < |answers| => Unspent(answers[i]))
  }

  /** Main theorem. Over every run whose AddCoin calls keep their promise, nothing throws, every
      level stays sound and shows exactly what plain maps would, and every answer handed back, with
      already spent coins left out, is the plain one. The answers as they are returned are the plain
      ones if and only if no SpendCoin succeeded without a coin to spend. */
  lemma {:induction false} RunRefines(s: Stack, ops: seq<Op>)
    requires Inv(s) && AllAllowed(Views(s), ops)
    ensures var r := Run(s, ops);
            var (plainViews, plainAnswers) := PlainRun(Views(s), ops);
            && r.Trace? && Inv(r.stack) && Views(r.stack) == plainViews
            && AllUnspent(r.answers) == plainAnswers
            && (r.answers == plainAnswers <==> !SomeDeparts(s, ops))
    decreases |ops|
  {
    hide Inv, Step, Views, Departs, Allowed, PlainStep;
    if ops != [] {
      StepRefines(s, ops[0]);
      var e := Step(s, ops[0]);
      RunRefines(e.stack, ops[1..]);
      var (vs, plain) := PlainStep(Views(s), ops[0]);
      var rest, plains := Run(e.stack, ops[1..]).answers, PlainRun(vs, ops[1..]).1;
      FirstAnswer(e.answer, rest, plain, plains);
    }
  }

  lemma FirstAnswer(a: Option<Coin>, rest: seq<Option<Coin>>, b: Option<Coin>, plains: seq<Option<Coin>>)
    ensures [a] + rest == [b] + plains <==> a == b && rest == plains
    ensures AllUnspent([a] + rest) == [Unspent(a)] + AllUnspent(rest)
  {
    hide Unspent;
    if [a] + rest == [b] + plains {
      assert ([a] + rest)[0] == ([b] + plains)[0] && ([a] + rest)[1..] == ([b] + plains)[1..];
      assert ([a] + rest)[1..] == rest && ([b] + plains)[1..] == plains;
    }
  }

  /** Every SpendCoin of the run names a coin that the plain map on top holds. */
  predicate SpendsOnlyCoins(vs: seq<CoinMap>, ops: seq<Op>)
    requires AllAllowed(vs, ops)
    decreases |ops|
  {
    ops != [] ==>
      && (ops[0].Spend? ==> ops[0].op in vs[0])
      && SpendsOnlyCoins(PlainStep(vs, ops[0]).0, ops[1..])
  }

  /** A caller that looks before it spends gets exactly the plain answers. */
  lemma {:induction false} CarefulRunExact(s: Stack, ops: seq<Op>)
    requires Inv(s) && AllAllowed(Views(s), ops) && SpendsOnlyCoins(Views(s), ops)
    ensures !SomeDeparts(s, ops) && Run(s, ops).Trace? && Run(s, ops).answers == PlainRun(Views(s), ops).1
    decreases |ops|
  {
    hide Inv, Step, Allowed, PlainStep, Run, PlainRun;
    RunRefines(s, ops);
    if ops != [] {
      ViewsTop(s);
      StepRefines(s, ops[0]);
      CarefulRunExact(Step(s, ops[0]).stack, ops[1..]);
    }
  }
}
