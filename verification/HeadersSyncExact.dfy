/** Exactly which messages the headers sync accepts, what it releases and when it asks for more, said about the
    headers received so far and not about the state that remembers them. */
module HeadersSyncExact {
  import opened Arithmetic
  import opened HeadersSync
  import opened HeadersSyncRun

  /** Each header follows the one before; the caller has checked this of every message. */
  predicate Continuous(p: Params, hs: seq<Header>) {
    forall i :: 1 <= i < |hs| ==> hs[i].prev == p.hash(hs[i - 1])
  }

  lemma JoinedAt(p: Params, hs: seq<Header>, xs: seq<Header>, i: nat)
    requires i < |xs|
    ensures LinkedAt(p, hs + xs, |hs| + i) <==>
            xs[i].prev == p.hash(if i == 0 then Before(p, hs, |hs|) else xs[i - 1])
  {
    assert (hs + xs)[|hs| + i] == xs[i];
  }

  /** A continuous message extends a linked chain exactly if its first header connects. */
  lemma Joined(p: Params, hs: seq<Header>, xs: seq<Header>)
    requires Linked(p, hs) && xs != [] && Continuous(p, xs)
    ensures Linked(p, hs + xs) <==> xs[0].prev == p.hash(Before(p, hs, |hs|))
  {
    hide LinkedAt;
    JoinedAt(p, hs, xs, 0);
    if xs[0].prev == p.hash(Before(p, hs, |hs|)) {
      forall i | 0 <= i < |hs + xs| ensures LinkedAt(p, hs + xs, i) {
        if i < |hs| {
          SameAt(p, hs, hs + xs, i);
        } else {
          JoinedAt(p, hs, xs, i - |hs|);
        }
      }
    }
  }

  // ---------- the first phase ----------

  lemma {:induction false} SingleHeadersExact(p: Params, s: State, h: History, xs: seq<Header>)
    requires p.Valid() && InPresync(p, s, h)
    ensures SingleHeaders(p, s, xs).1 <==>
            Permitted(p, h.seen + xs) && |Bits(p, h.seen + xs)| <= p.maxCommitments
  {
    hide Permitted, Bits, SingleHeader;
    if xs == [] {
      assert h.seen + xs == h.seen;
    } else {
      var front, x := xs[..|xs| - 1], xs[|xs| - 1];
      var seen := h.seen + front;
      assert seen + [x] == h.seen + xs;
      SingleHeadersExact(p, s, h, front);
      SingleHeadersKeep(p, s, h, front);
      Snoc(p, seen, x);
      ChainSnoc(p, seen, x);
      if SingleHeaders(p, s, front).1 {
        SingleHeaderExact(p, SingleHeaders(p, s, front).0, h.(seen := seen), x);
      }
    }
  }

  lemma SingleHeaderExact(p: Params, s: State, h: History, x: Header)
    requires p.Valid() && InPresync(p, s, h)
    ensures SingleHeader(p, s, x).1 <==>
            Permitted(p, h.seen + [x]) && |Bits(p, h.seen + [x])| <= p.maxCommitments
  {
    hide Permitted, Bits;
    Snoc(p, h.seen, x);
    ChainSnoc(p, h.seen, x);
  }

  /** A message of the first phase: accepted exactly if it connects to the last header seen, every difficulty step
      is permitted and the commitments stay within their maximum. The second phase starts exactly when the work is
      enough; a message that is not full ends the sync otherwise. Nothing is released. */
  lemma PresyncExactly(p: Params, s: State, h: History, m: Message)
    requires p.Valid() && InPresync(p, s, h) && m.headers != []
    ensures var (s', r) := Process(p, s, m.headers, m.full);
            var all := h.seen + m.headers;
            && (r.success <==> m.headers[0].prev == p.hash(Before(p, h.seen, |h.seen|))
                               && Permitted(p, all) && |Bits(p, all)| <= p.maxCommitments)
            && (r.requestMore <==> r.success && (m.full || Work(p, all) >= p.minWork))
            && r.headers == []
            && s'.phase == if !r.requestMore then Final else if Work(p, all) >= p.minWork then Redownload else Presync
  {
    hide Permitted, Bits, SingleHeaders, Work;
    SingleHeadersExact(p, s, h, m.headers);
    SingleHeadersKeep(p, s, h, m.headers);
  }

  // ---------- the second phase ----------

  /** This header needed no commitment, or matches the one of the first phase. */
  predicate Kept(p: Params, h: History, i: nat)
    requires p.Valid() && i < |h.got|
  {
    Reached(p, h.got[..i + 1]) || !p.IsCommitHeight(p.startHeight + i + 1) || Matches(p, h, i)
  }

  lemma KeptSame(p: Params, h: History, got: seq<Header>, i: nat)
    requires p.Valid() && i < |h.got| && h.got <= got
    ensures Kept(p, h.(got := got), i) == Kept(p, h, i)
  {
    assert got[..i + 1] == h.got[..i + 1];
  }

  /** A recorded commitment for the next height is left exactly if the first phase saw that height. */
  lemma CommitmentLeft(p: Params, s: State, h: History)
    requires p.Valid() && Bits(p, h.got) + s.commitments == Bits(p, h.seen)
    requires p.IsCommitHeight(p.startHeight + |h.got| + 1)
    ensures s.commitments != [] <==> |h.got| < |h.seen|
    ensures s.commitments != [] ==> s.commitments[0] == p.Bit(h.seen[|h.got|])
  {
    hide Bits;
    BitsLength(p, h.got);
    BitsLength(p, h.seen);
    if |h.got| < |h.seen| {
      BitAt(p, h.seen, |h.got|);
    } else {
      CommitCountMonotone(p, |h.seen|, |h.got|);
    }
  }

  lemma RedownloadHeaderExact(p: Params, s: State, h: History, x: Header)
    requires p.Valid() && InRedownload(p, s, h)
    ensures RedownloadHeader(p, s, x).1 <==>
            var all := h.got + [x]; Linked(p, all) && Permitted(p, all) && Kept(p, h.(got := all), |h.got|)
  {
    hide Linked, Permitted, Bits, Work, Reached, Buffered;
    var all := h.got + [x];
    Snoc(p, h.got, x);
    ChainSnoc(p, h.got, x);
    PreviousBitsRight(p, s, h);
    assert all[..|h.got| + 1] == all;
    if !s.processAll && p.IsCommitHeight(p.startHeight + |h.got| + 1) {
      CommitmentLeft(p, s, h);
    }
  }

  lemma {:induction false} RedownloadHeadersExact(p: Params, s: State, h: History, xs: seq<Header>)
    requires p.Valid() && InRedownload(p, s, h)
    ensures RedownloadHeaders(p, s, xs).1 <==>
            var all := h.got + xs;
            && Linked(p, all) && Permitted(p, all)
            && forall i :: |h.got| <= i < |all| ==> Kept(p, h.(got := all), i)
  {
    hide Linked, Permitted, InRedownload, RedownloadHeader, Kept;
    if xs == [] {
      assert h.got + xs == h.got;
      ChainedOf(p, s, h);
    } else {
      var front, x := xs[..|xs| - 1], xs[|xs| - 1];
      var got := h.got + front;
      var all := h.got + xs;
      assert got + [x] == all;
      RedownloadHeadersExact(p, s, h, front);
      RedownloadHeadersKeep(p, s, h, front);
      ChainSnoc(p, got, x);
      forall i: nat | |h.got| <= i < |got| ensures Kept(p, h.(got := all), i) == Kept(p, h.(got := got), i) {
        KeptSame(p, h.(got := got), all, i);
      }
      if RedownloadHeaders(p, s, front).1 {
        RedownloadHeaderExact(p, RedownloadHeaders(p, s, front).0, h.(got := got), x);
      }
    }
  }

  lemma ChainedOf(p: Params, s: State, h: History)
    requires p.Valid() && InRedownload(p, s, h)
    ensures Linked(p, h.got) && Permitted(p, h.got) && Buffered(s, h)
  {
  }

  /** A message of the second phase: accepted exactly if the headers continue the chain with permitted steps and,
      until the work is enough again, match the commitments of the first phase at their heights. Once the work is
      enough everything is released and the sync is over; until then all but the last bufferSize headers are. */
  lemma RedownloadExactly(p: Params, s: State, h: History, m: Message)
    requires p.Valid() && s.phase == Redownload && Inv(p, s, h) && m.headers != []
    ensures var (s', r) := Process(p, s, m.headers, m.full);
            var all := h.got + m.headers;
            && (r.success <==> && Linked(p, all) && Permitted(p, all)
                               && forall i :: |h.got| <= i < |all| ==> Kept(p, h.(got := all), i))
            && (r.requestMore <==> r.success && m.full && !Reached(p, all))
            && s'.phase == (if r.requestMore then Redownload else Final)
            && h.released + r.headers == if !r.success then h.released else if Reached(p, all) then all
                                         else all[..Max(|h.released|, |all| - p.bufferSize)]
  {
    hide Linked, Permitted, RedownloadHeaders, Reached, Kept, HistoryOk, InRedownload, PopReady;
    RedownloadHeadersExact(p, s, h, m.headers);
    RedownloadHeadersKeep(p, s, h, m.headers);
    if RedownloadHeaders(p, s, m.headers).1 {
      Releases(p, RedownloadHeaders(p, s, m.headers).0, h.(got := h.got + m.headers));
    } else {
      assert h.released + [] == h.released;
    }
  }

  /** What is released after the headers of a message were accepted. */
  lemma Releases(p: Params, s: State, h: History)
    requires p.Valid() && InRedownload(p, s, h)
    ensures var (s', out) := PopReady(p, s);
            && s'.phase == Redownload && (s'.buffer == [] && s'.processAll <==> Reached(p, h.got))
            && h.released + out ==
               if Reached(p, h.got) then h.got else h.got[..Max(|h.released|, |h.got| - p.bufferSize)]
  {
    hide Linked, Permitted, Reached, Bits, Work;
    PopReadyOut(p, s, h);
    PopReadyPhase(p, s);
    ReleasedCount(p, s, h);
  }

  lemma ReleasedCount(p: Params, s: State, h: History)
    requires p.Valid() && s.phase == Redownload && Buffered(s, h)
    ensures |h.released| + ReadyCount(p, s) ==
            if s.processAll then |h.got| else Max(|h.released|, |h.got| - p.bufferSize)
    ensures |h.got[..|h.got|]| == |h.got| && h.got[..|h.got|] == h.got
    ensures s.processAll <==> PopReady(p, s).0.buffer == [] && s.processAll
  {
  }

  // ---------- whole runs ----------

  /** The first phase saw a linked chain, and the second one starts only on enough work. */
  predicate SeenOk(p: Params, s: State, h: History) {
    && Linked(p, h.seen) && Permitted(p, h.seen)
    && (h.got != [] || h.released != [] || s.phase == Redownload ==> Work(p, h.seen) >= p.minWork)
  }

  predicate AllContinuous(p: Params, ms: seq<Message>) {
    forall i :: 0 <= i < |ms| ==> Continuous(p, ms[i].headers)
  }

  lemma SeenStep(p: Params, s: State, h: History, m: Message)
    requires p.Valid() && Inv(p, s, h) && SeenOk(p, s, h) && Continuous(p, m.headers)
    ensures SeenOk(p, Process(p, s, m.headers, m.full).0, NextHistory(p, s, h, m))
  {
    hide Linked, Permitted, Work, Process, Continuous, InRedownload, HistoryOk, Bits;
    if m.headers == [] || s.phase == Final {
      IdleStep(p, s, m);
    } else if s.phase == Presync {
      PresyncExactly(p, s, h, m);
      Joined(p, h.seen, m.headers);
    } else {
      RedownloadExactly(p, s, h, m);
    }
  }

  lemma IdleStep(p: Params, s: State, m: Message)
    requires p.Valid() && (m.headers == [] || s.phase == Final)
    ensures Process(p, s, m.headers, m.full).0 == s
  {
  }

  lemma {:induction false} SeenFrom(p: Params, s: State, h: History, ms: seq<Message>)
    requires p.Valid() && Inv(p, s, h) && SeenOk(p, s, h) && AllContinuous(p, ms)
    ensures var (s', h') := Run(p, s, h, ms); SeenOk(p, s', h')
    decreases |ms|
  {
    hide Inv, SeenOk, Process, NextHistory, Continuous;
    if ms != [] {
      ProcessKeeps(p, s, h, ms[0]);
      SeenStep(p, s, h, ms[0]);
      SeenFrom(p, Process(p, s, ms[0].headers, ms[0].full).0, NextHistory(p, s, h, ms[0]), ms[1..]);
    }
  }

  /** Main theorem. Over every run of continuous messages the headers of the first phase form one chain, linked by
      hash from the starting block with permitted steps, and no header is taken again or released before this chain
      has the minimum work. */
  lemma RunSeen(p: Params, ms: seq<Message>)
    requires p.Valid() && AllContinuous(p, ms)
    ensures var (s, h) := Run(p, Init(p), NOTHING, ms);
            && Linked(p, h.seen) && Permitted(p, h.seen)
            && (h.got != [] || h.released != [] || s.phase == Redownload ==> Work(p, h.seen) >= p.minWork)
  {
    hide Run;
    StartsInPresync(p);
    SeenFrom(p, Init(p), NOTHING, ms);
  }
}
