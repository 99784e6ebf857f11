/** Whole runs of the headers sync: what is released, how well it is backed by the
    commitments of the first phase, and that an honest peer always gets through. */
module HeadersSyncRun {
  import opened HeadersSync
  import Arithmetic

  // ---------- chains of headers on top of the starting block ----------

  function Work(p: Params, hs: seq<Header>): nat {
    if hs == [] then p.startWork else (Work(p, hs[..|hs| - 1]) + p.proof(hs[|hs| - 1].bits)) % WORK_LIMIT
  }

  /** The commitments for these headers, in order of height. */
  function Bits(p: Params, hs: seq<Header>): seq<bool>
    requires p.Valid()
  {
    if hs == [] then [] else
      Bits(p, hs[..|hs| - 1]) + (if p.IsCommitHeight(p.startHeight + |hs|) then [p.Bit(hs[|hs| - 1])] else [])
  }

  /** Some non-empty prefix has enough work. */
  predicate Reached(p: Params, hs: seq<Header>) {
    hs != [] && (Reached(p, hs[..|hs| - 1]) || Work(p, hs) >= p.minWork)
  }

  function Before(p: Params, hs: seq<Header>, i: nat): Header
    requires i <= |hs|
  {
    if i == 0 then p.start else hs[i - 1]
  }

  predicate LinkedAt(p: Params, hs: seq<Header>, i: nat)
    requires i < |hs|
  {
    hs[i].prev == p.hash(Before(p, hs, i))
  }

  predicate PermittedAt(p: Params, hs: seq<Header>, i: nat)
    requires i < |hs|
  {
    p.permitted(p.startHeight + i + 1, Before(p, hs, i).bits, hs[i].bits)
  }

  predicate Linked(p: Params, hs: seq<Header>) {
    forall i :: 0 <= i < |hs| ==> LinkedAt(p, hs, i)
  }

  predicate Permitted(p: Params, hs: seq<Header>) {
    forall i :: 0 <= i < |hs| ==> PermittedAt(p, hs, i)
  }

  /** What a longer chain says about the headers of a prefix. */
  lemma SameAt(p: Params, hs: seq<Header>, all: seq<Header>, i: nat)
    requires hs <= all && i < |hs|
    ensures LinkedAt(p, hs, i) == LinkedAt(p, all, i) && PermittedAt(p, hs, i) == PermittedAt(p, all, i)
  {
  }

  lemma Snoc(p: Params, hs: seq<Header>, h: Header)
    requires p.Valid()
    ensures (hs + [h])[..|hs|] == hs && (hs + [h])[|hs|] == h && |hs + [h]| == |hs| + 1
    ensures Work(p, hs + [h]) == (Work(p, hs) + p.proof(h.bits)) % WORK_LIMIT
    ensures Bits(p, hs + [h]) == Bits(p, hs) + (if p.IsCommitHeight(p.startHeight + |hs| + 1) then [p.Bit(h)] else [])
    ensures Reached(p, hs + [h]) <==> Reached(p, hs) || Work(p, hs + [h]) >= p.minWork
    ensures Before(p, hs + [h], |hs|) == Before(p, hs, |hs|)
  {
    assert (hs + [h])[..|hs|] == hs;
  }

  lemma ChainSnoc(p: Params, hs: seq<Header>, h: Header)
    ensures Linked(p, hs + [h]) <==> Linked(p, hs) && h.prev == p.hash(Before(p, hs, |hs|))
    ensures Permitted(p, hs + [h]) <==>
            Permitted(p, hs) && p.permitted(p.startHeight + |hs| + 1, Before(p, hs, |hs|).bits, h.bits)
  {
    hide LinkedAt, PermittedAt;
    var all := hs + [h];
    forall i | 0 <= i < |hs|
      ensures LinkedAt(p, hs, i) == LinkedAt(p, all, i) && PermittedAt(p, hs, i) == PermittedAt(p, all, i)
    {
      SameAt(p, hs, all, i);
    }
    ChainEnd(p, hs, h);
  }

  lemma ChainEnd(p: Params, hs: seq<Header>, h: Header)
    ensures LinkedAt(p, hs + [h], |hs|) == (h.prev == p.hash(Before(p, hs, |hs|)))
    ensures PermittedAt(p, hs + [h], |hs|) == p.permitted(p.startHeight + |hs| + 1, Before(p, hs, |hs|).bits, h.bits)
  {
    assert Before(p, hs + [h], |hs|) == Before(p, hs, |hs|);
  }

  // ---------- what a sync has seen ----------

  /** Headers accepted in the first phase, in the second phase, and handed to the caller. */
  datatype History = History(seen: seq<Header>, got: seq<Header>, released: seq<Header>)

  predicate InPresync(p: Params, s: State, h: History)
    requires p.Valid()
  {
    && s.phase == Presync && h.got == [] && h.released == []
    && s.height == p.startHeight + |h.seen| && s.work == Work(p, h.seen)
    && s.last == Before(p, h.seen, |h.seen|)
    && s.commitments == Bits(p, h.seen) && |s.commitments| <= p.maxCommitments
    && Permitted(p, h.seen)
    && !s.processAll && s.buffer == []
  }

  /** The buffer holds exactly the accepted headers that were not released. */
  predicate Buffered(s: State, h: History) {
    && |h.released| + |s.buffer| == |h.got| && h.released == h.got[..|h.released|]
    && forall i :: 0 <= i < |s.buffer| ==> s.buffer[i] == Compress(h.got[|h.released| + i])
  }

  /** The accepted headers form a chain from the starting block, and the state tracks it. */
  predicate Chained(p: Params, s: State, h: History) {
    && Buffered(s, h) && (h.released != [] ==> |s.buffer| >= p.bufferSize)
    && Linked(p, h.got) && Permitted(p, h.got)
    && s.bufferHeight == p.startHeight + |h.got|
    && s.bufferLastHash == p.hash(Before(p, h.got, |h.got|))
    && s.bufferFirstPrev == p.hash(Before(p, h.got, |h.released|))
  }

  /** Until enough work was seen again, the checked and the unchecked commitments together
      are those of the first phase. */
  predicate Committed(p: Params, s: State, h: History)
    requires p.Valid()
  {
    && s.bufferWork == Work(p, h.got)
    && (s.processAll <==> Reached(p, h.got))
    && |s.commitments| <= p.maxCommitments
    && (!s.processAll ==> Bits(p, h.got) + s.commitments == Bits(p, h.seen))
  }

  /** The second phase, also between two headers of a message. */
  predicate InRedownload(p: Params, s: State, h: History)
    requires p.Valid()
  {
    && s.phase == Redownload && Permitted(p, h.seen) && Work(p, h.seen) >= p.minWork && h.seen != []
    && Chained(p, s, h) && Committed(p, s, h)
  }

  /** Between messages the lookahead is full as soon as anything was released. */
  predicate Settled(p: Params, s: State, h: History) {
    && !s.processAll && |s.buffer| <= p.bufferSize
    && (h.released != [] ==> |s.buffer| == p.bufferSize)
  }

  /** The second-phase header at this position matches the first-phase commitment for its height. */
  predicate Matches(p: Params, h: History, i: nat)
    requires p.Valid() && i < |h.got|
  {
    p.IsCommitHeight(p.startHeight + i + 1) && i < |h.seen| && p.Bit(h.got[i]) == p.Bit(h.seen[i])
  }

  function CountMatches(p: Params, h: History, lo: nat, hi: nat): nat
    requires p.Valid() && hi <= |h.got|
  {
    if hi <= lo then 0 else CountMatches(p, h, lo, hi - 1) + (if Matches(p, h, hi - 1) then 1 else 0)
  }

  /** Enough later headers kept the promises made in the first phase. */
  predicate Backed(p: Params, h: History, i: nat)
    requires p.Valid()
  {
    CountMatches(p, h, i + 1, |h.got|) >= p.bufferSize / p.period
  }

  predicate HistoryOk(p: Params, h: History)
    requires p.Valid()
  {
    && h.released <= h.got && Linked(p, h.got) && Permitted(p, h.got)
    && (!Reached(p, h.got) ==> forall i :: 0 <= i < |h.released| ==> Backed(p, h, i))
  }

  predicate Inv(p: Params, s: State, h: History)
    requires p.Valid()
  {
    match s.phase
    case Presync => InPresync(p, s, h)
    case Redownload => InRedownload(p, s, h) && Settled(p, s, h) && HistoryOk(p, h)
    case Final => HistoryOk(p, h) && s.commitments == [] && s.buffer == []
  }

  // ---------- one header ----------

  lemma SingleHeaderKeeps(p: Params, s: State, h: History, x: Header)
    requires p.Valid() && InPresync(p, s, h)
    ensures var (s', ok) := SingleHeader(p, s, x); ok ==> InPresync(p, s', h.(seen := h.seen + [x]))
  {
    Snoc(p, h.seen, x);
    ChainSnoc(p, h.seen, x);
  }

  lemma {:induction false} SingleHeadersKeep(p: Params, s: State, h: History, xs: seq<Header>)
    requires p.Valid() && InPresync(p, s, h)
    ensures var (s', ok) := SingleHeaders(p, s, xs); ok ==> InPresync(p, s', h.(seen := h.seen + xs))
  {
    if xs == [] {
      assert h.seen + xs == h.seen;
    } else {
      var front, x := xs[..|xs| - 1], xs[|xs| - 1];
      SingleHeadersKeep(p, s, h, front);
      var (s', ok) := SingleHeaders(p, s, front);
      if ok {
        SingleHeaderKeeps(p, s', h.(seen := h.seen + front), x);
        assert h.seen + front + [x] == h.seen + xs;
      }
    }
  }

  lemma StoreCommitmentsKeeps(p: Params, s: State, h: History, xs: seq<Header>)
    requires p.Valid() && InPresync(p, s, h) && xs != []
    ensures var (s', ok) := StoreCommitments(p, s, xs);
            ok ==> && Inv(p, s', h.(seen := h.seen + xs)) && s'.phase != Final
                   && xs[0].prev == p.hash(Before(p, h.seen, |h.seen|))
  {
    SingleHeadersKeep(p, s, h, xs);
  }

  lemma PreviousBitsRight(p: Params, s: State, h: History)
    requires p.Valid() && Chained(p, s, h)
    ensures PreviousBits(p, s) == Before(p, h.got, |h.got|).bits
  {
    if s.buffer != [] {
      assert s.buffer[|s.buffer| - 1] == Compress(h.got[|h.got| - 1]);
    }
  }

  lemma BufferedSnoc(s: State, h: History, x: Header)
    requires Buffered(s, h)
    ensures Buffered(s.(buffer := s.buffer + [Compress(x)]), h.(got := h.got + [x]))
  {
    assert (h.got + [x])[..|h.released|] == h.got[..|h.released|];
  }

  lemma ChainedSnoc(p: Params, s: State, h: History, x: Header)
    requires p.Valid() && Chained(p, s, h) && RedownloadHeader(p, s, x).1
    ensures Chained(p, RedownloadHeader(p, s, x).0, h.(got := h.got + [x]))
  {
    PreviousBitsRight(p, s, h);
    ChainSnoc(p, h.got, x);
    BufferedSnoc(s, h, x);
    var all := h.got + [x];
    assert Before(p, all, |h.released|) == Before(p, h.got, |h.released|) && Before(p, all, |all|) == x;
  }

  lemma CommittedSnoc(p: Params, s: State, h: History, x: Header)
    requires p.Valid() && Committed(p, s, h) && s.bufferHeight == p.startHeight + |h.got|
    requires RedownloadHeader(p, s, x).1
    ensures Committed(p, RedownloadHeader(p, s, x).0, h.(got := h.got + [x]))
  {
    Snoc(p, h.got, x);
    var s' := RedownloadHeader(p, s, x).0;
    if !s'.processAll && p.IsCommitHeight(p.startHeight + |h.got| + 1) {
      assert Bits(p, h.got) + [p.Bit(x)] + s.commitments[1..] == Bits(p, h.got) + s.commitments;
    }
  }

  lemma RedownloadHeaderKeeps(p: Params, s: State, h: History, x: Header)
    requires p.Valid() && InRedownload(p, s, h)
    ensures var (s', ok) := RedownloadHeader(p, s, x); ok ==> InRedownload(p, s', h.(got := h.got + [x]))
  {
    if RedownloadHeader(p, s, x).1 {
      ChainedSnoc(p, s, h, x);
      CommittedSnoc(p, s, h, x);
    }
  }

  lemma {:induction false} RedownloadHeadersKeep(p: Params, s: State, h: History, xs: seq<Header>)
    requires p.Valid() && InRedownload(p, s, h)
    ensures var (s', ok) := RedownloadHeaders(p, s, xs); ok ==> InRedownload(p, s', h.(got := h.got + xs))
  {
    if xs == [] {
      assert h.got + xs == h.got;
    } else {
      var front, x := xs[..|xs| - 1], xs[|xs| - 1];
      RedownloadHeadersKeep(p, s, h, front);
      var (s', ok) := RedownloadHeaders(p, s, front);
      if ok {
        RedownloadHeaderKeeps(p, s', h.(got := h.got + front), x);
        assert h.got + front + [x] == h.got + xs;
      }
    }
  }

  // ---------- releasing ----------

  /** Putting predecessor hashes back by walking the hashes gives the received headers,
      auxiliary payload included. */
  lemma {:induction false} RebuildRight(p: Params, cs: seq<CompressedHeader>, prev: Hash, hs: seq<Header>)
    requires |cs| == |hs| && forall i :: 0 <= i < |cs| ==> cs[i] == Compress(hs[i])
    requires hs != [] ==> hs[0].prev == prev
    requires forall i :: 1 <= i < |hs| ==> hs[i].prev == p.hash(hs[i - 1])
    ensures Rebuild(p, cs, prev) == hs
  {
    if cs != [] {
      var h := GetFullHeader(cs[0], prev);
      assert h == hs[0];
      forall i | 1 <= i < |hs[1..]| ensures hs[1..][i].prev == p.hash(hs[1..][i - 1]) {
        assert hs[1..][i] == hs[i + 1] && hs[1..][i - 1] == hs[i];
      }
      RebuildRight(p, cs[1..], p.hash(h), hs[1..]);
      assert hs == [hs[0]] + hs[1..];
    }
  }

  lemma ReadyHeaders(p: Params, s: State, h: History, n: nat)
    requires p.Valid() && Chained(p, s, h) && n <= |s.buffer|
    ensures Rebuild(p, s.buffer[..n], s.bufferFirstPrev) == h.got[|h.released|..|h.released| + n]
  {
    var r := |h.released|;
    var hs := h.got[r..r + n];
    forall i | 1 <= i < n ensures hs[i].prev == p.hash(hs[i - 1]) {
      assert LinkedAt(p, h.got, r + i);
    }
    assert n > 0 ==> LinkedAt(p, h.got, r);
    RebuildRight(p, s.buffer[..n], s.bufferFirstPrev, hs);
  }

  lemma PopReadyOut(p: Params, s: State, h: History)
    requires p.Valid() && s.phase == Redownload && Chained(p, s, h)
    ensures var (s', out) := PopReady(p, s);
            var k := |h.released| + ReadyCount(p, s);
            && |h.got| == k + |s'.buffer| && h.released + out == h.got[..k]
            && s'.bufferFirstPrev == p.hash(Before(p, h.got, k))
  {
    hide Linked, Permitted, Rebuild, ReadyCount;
    var n, r := ReadyCount(p, s), |h.released|;
    ReadyHeaders(p, s, h, n);
    Slices(h.got, r, n);
  }

  lemma Slices(hs: seq<Header>, r: nat, n: nat)
    requires r + n <= |hs|
    ensures hs[..r] + hs[r..r + n] == hs[..r + n] && |hs[r..r + n]| == n
    ensures n > 0 ==> hs[r..r + n][n - 1] == hs[r + n - 1]
  {
  }

  lemma PopReadyBuffer(p: Params, s: State, h: History)
    requires p.Valid() && s.phase == Redownload && Chained(p, s, h)
    ensures var (s', out) := PopReady(p, s); Buffered(s', h.(released := h.released + out))
  {
    PopReadyOut(p, s, h);
  }

  /** PopHeadersReadyForAcceptance hands out the next accepted headers unchanged, keeps the
      lookahead, and empties the buffer once there was enough work. */
  lemma PopReadyKeeps(p: Params, s: State, h: History)
    requires p.Valid() && s.phase == Redownload && Chained(p, s, h)
    ensures var (s', out) := PopReady(p, s);
            var h' := h.(released := h.released + out);
            && Buffered(s', h') && s'.bufferFirstPrev == p.hash(Before(p, h.got, |h'.released|))
            && (s.processAll ==> s'.buffer == [] && h'.released == h.got)
            && (!s.processAll ==> Settled(p, s', h') && Chained(p, s', h'))
  {
    PopReadyOut(p, s, h);
    PopReadyBuffer(p, s, h);
  }

  // ---------- commitments at equal heights ----------

  /** How many of the first n heights carry a commitment. */
  function CommitCount(p: Params, n: nat): nat
    requires p.Valid()
  {
    if n == 0 then 0 else CommitCount(p, n - 1) + (if p.IsCommitHeight(p.startHeight + n) then 1 else 0)
  }

  lemma {:induction false} CommitCountMonotone(p: Params, m: nat, n: nat)
    requires p.Valid() && m <= n
    ensures CommitCount(p, m) <= CommitCount(p, n)
  {
    if m < n {
      CommitCountMonotone(p, m, n - 1);
    }
  }

  lemma {:induction false} BitsLength(p: Params, hs: seq<Header>)
    requires p.Valid()
    ensures |Bits(p, hs)| == CommitCount(p, |hs|)
  {
    if hs != [] {
      BitsLength(p, hs[..|hs| - 1]);
    }
  }

  lemma {:induction false} BitAt(p: Params, hs: seq<Header>, i: nat)
    requires p.Valid() && i < |hs| && p.IsCommitHeight(p.startHeight + i + 1)
    ensures CommitCount(p, i) < |Bits(p, hs)| && Bits(p, hs)[CommitCount(p, i)] == p.Bit(hs[i])
  {
    var front := hs[..|hs| - 1];
    if i == |front| {
      BitsLength(p, front);
    } else {
      BitAt(p, front, i);
    }
  }

  /** If the second phase used up a prefix of the recorded commitments, every commitment was
      compared with the one recorded for the same height. */
  lemma SameHeight(p: Params, h: History, i: nat)
    requires p.Valid() && i < |h.got| && Bits(p, h.got) <= Bits(p, h.seen)
    ensures p.IsCommitHeight(p.startHeight + i + 1) ==> Matches(p, h, i)
  {
    if p.IsCommitHeight(p.startHeight + i + 1) {
      BitAt(p, h.got, i);
      BitsLength(p, h.seen);
      if |h.seen| <= i {
        CommitCountMonotone(p, |h.seen|, i);
      } else {
        BitAt(p, h.seen, i);
      }
    }
  }

  lemma {:induction false} MatchesAreCommits(p: Params, h: History, lo: nat, hi: nat)
    requires p.Valid() && lo <= hi <= |h.got| && Bits(p, h.got) <= Bits(p, h.seen)
    ensures CountMatches(p, h, lo, hi) == CommitCount(p, hi) - CommitCount(p, lo)
    decreases hi
  {
    if lo < hi {
      MatchesAreCommits(p, h, lo, hi - 1);
      SameHeight(p, h, hi - 1);
    }
  }

  /** Any period of consecutive heights contains a commitment height. */
  lemma PeriodHasCommit(p: Params, n: nat) returns (k: nat)
    requires p.Valid()
    ensures n < k <= n + p.period && p.IsCommitHeight(p.startHeight + k)
  {
    var a := p.startHeight + n + 1;
    var q, r := a / p.period, a % p.period;
    var d := if p.offset >= r then p.offset - r else p.offset + p.period - r;
    k := n + 1 + d;
    Arithmetic.DivModUnique(a + d, p.period, if p.offset >= r then q else q + 1, p.offset);
  }

  lemma PeriodCount(p: Params, n: nat)
    requires p.Valid()
    ensures CommitCount(p, n) + 1 <= CommitCount(p, n + p.period)
  {
    var k := PeriodHasCommit(p, n);
    CommitCountMonotone(p, n, k - 1);
    CommitCountMonotone(p, k, n + p.period);
  }

  lemma {:induction false} CommitsInWindow(p: Params, n: nat, length: nat)
    requires p.Valid()
    ensures CommitCount(p, n + length) - CommitCount(p, n) >= length / p.period
    decreases length
  {
    Arithmetic.DivStep(length, p.period);
    if length < p.period {
      CommitCountMonotone(p, n, n + length);
    } else {
      PeriodCount(p, n);
      CommitsInWindow(p, n + p.period, length - p.period);
      assert n + p.period + (length - p.period) == n + length;
    }
  }

  /** A header that left the buffer before there was enough work has a whole lookahead of
      later headers above it, all of which kept to the commitments. */
  lemma ReleasedAreBacked(p: Params, s: State, h: History, i: nat)
    requires p.Valid() && Buffered(s, h) && Committed(p, s, h) && !s.processAll
    requires i < |h.released| && |s.buffer| >= p.bufferSize
    ensures Backed(p, h, i)
  {
    assert Bits(p, h.got) <= Bits(p, h.seen);
    MatchesAreCommits(p, h, i + 1, |h.got|);
    CommitsInWindow(p, i + 1, |h.got| - (i + 1));
    Arithmetic.DivMonotone(p.bufferSize, |h.got| - (i + 1), p.period);
  }

  // ---------- messages and runs ----------

  datatype Message = Message(headers: seq<Header>, full: bool)

  function NextHistory(p: Params, s: State, h: History, m: Message): History
    requires p.Valid()
  {
    var r := Process(p, s, m.headers, m.full).1;
    if m.headers == [] || s.phase == Final || !r.success then h
    else if s.phase == Presync then h.(seen := h.seen + m.headers)
    else h.(got := h.got + m.headers, released := h.released + r.headers)
  }

  lemma PresyncMessage(p: Params, s: State, h: History, m: Message)
    requires p.Valid() && InPresync(p, s, h) && m.headers != []
    ensures Inv(p, Process(p, s, m.headers, m.full).0, NextHistory(p, s, h, m))
  {
    StoreCommitmentsKeeps(p, s, h, m.headers);
  }

  lemma RedownloadMessage(p: Params, s: State, h: History, m: Message)
    requires p.Valid() && InRedownload(p, s, h) && HistoryOk(p, h) && m.headers != []
    ensures Inv(p, Process(p, s, m.headers, m.full).0, NextHistory(p, s, h, m))
  {
    var (s1, ok) := RedownloadHeaders(p, s, m.headers);
    if ok {
      RedownloadHeadersKeep(p, s, h, m.headers);
      AcceptedMessage(p, s, s1, h, m);
    }
  }

  lemma AcceptedMessage(p: Params, s: State, s1: State, h: History, m: Message)
    requires p.Valid() && s.phase == Redownload && m.headers != [] && RedownloadHeaders(p, s, m.headers) == (s1, true)
    requires InRedownload(p, s1, h.(got := h.got + m.headers))
    ensures Inv(p, Process(p, s, m.headers, m.full).0, NextHistory(p, s, h, m))
  {
    AfterPop(p, s1, h.(got := h.got + m.headers));
  }

  lemma AfterPop(p: Params, s: State, h: History)
    requires p.Valid() && InRedownload(p, s, h)
    ensures var (s', out) := PopReady(p, s);
            var h' := h.(released := h.released + out);
            && HistoryOk(p, h')
            && (s.processAll ==> s'.buffer == [] && h'.released == h.got)
            && (!s.processAll ==> Inv(p, s', h'))
  {
    PopReadyKeeps(p, s, h);
    var (s', out) := PopReady(p, s);
    var h' := h.(released := h.released + out);
    if !s.processAll {
      assert Committed(p, s', h');
      forall i | 0 <= i < |h'.released| ensures Backed(p, h', i) {
        ReleasedAreBacked(p, s', h', i);
      }
    }
  }

  lemma ProcessKeeps(p: Params, s: State, h: History, m: Message)
    requires p.Valid() && Inv(p, s, h)
    ensures Inv(p, Process(p, s, m.headers, m.full).0, NextHistory(p, s, h, m))
  {
    if m.headers != [] && s.phase == Presync {
      PresyncMessage(p, s, h, m);
    } else if m.headers != [] && s.phase == Redownload {
      RedownloadMessage(p, s, h, m);
    }
  }

  function Run(p: Params, s: State, h: History, ms: seq<Message>): (State, History)
    requires p.Valid()
    decreases |ms|
  {
    if ms == [] then (s, h) else
      Run(p, Process(p, s, ms[0].headers, ms[0].full).0, NextHistory(p, s, h, ms[0]), ms[1..])
  }

  const NOTHING := History([], [], [])

  lemma {:induction false} RunFrom(p: Params, s: State, h: History, ms: seq<Message>)
    requires p.Valid() && Inv(p, s, h)
    ensures var (s', h') := Run(p, s, h, ms); Inv(p, s', h')
    decreases |ms|
  {
    if ms != [] {
      ProcessKeeps(p, s, h, ms[0]);
      RunFrom(p, Process(p, s, ms[0].headers, ms[0].full).0, NextHistory(p, s, h, ms[0]), ms[1..]);
    }
  }

  /** Main theorem on safety. Whatever the peer sends, the released headers are a prefix of
      the headers received again, these are linked by hash from the starting block, every
      difficulty step was permitted, and while their work is below the minimum each released
      header is followed by at least bufferSize / period headers that match commitments of
      the first phase at the same heights. Between messages memory stays bounded. */
  lemma RunSafe(p: Params, ms: seq<Message>)
    requires p.Valid()
    ensures var (s, h) := Run(p, Init(p), NOTHING, ms);
            && Inv(p, s, h)
            && h.released <= h.got && Linked(p, h.got) && Permitted(p, h.got)
            && (!Reached(p, h.got) ==> forall i :: 0 <= i < |h.released| ==> Backed(p, h, i))
            && |s.commitments| <= p.maxCommitments && |s.buffer| <= p.bufferSize
  {
    RunFrom(p, Init(p), NOTHING, ms);
  }

  // ---------- an honest peer gets through ----------

  /** The peer is sending `all`: the chain of the first phase, by now perhaps with more on top. */
  predicate Replaying(p: Params, s: State, h: History, all: seq<Header>)
    requires p.Valid()
  {
    InRedownload(p, s, h) && h.got <= all && h.seen <= all && Linked(p, all) && Permitted(p, all)
  }

  lemma {:induction false} ReachedGrows(p: Params, hs: seq<Header>, all: seq<Header>)
    requires hs <= all && Reached(p, hs)
    ensures Reached(p, all)
    decreases |all|
  {
    if |hs| < |all| {
      ReachedGrows(p, hs, all[..|all| - 1]);
    } else {
      assert hs == all;
    }
  }

  /** As long as commitments are compared, the first phase has seen the next header. */
  lemma StillSeen(p: Params, s: State, h: History, all: seq<Header>)
    requires p.Valid() && Replaying(p, s, h, all) && !s.processAll
    ensures h.got < h.seen
  {
    if |h.seen| <= |h.got| {
      assert h.seen <= h.got;
      ReachedGrows(p, h.seen, h.got);
    }
  }

  /** The recorded commitment that is next in line is the one for the next header. */
  lemma NextCommitment(p: Params, s: State, h: History)
    requires p.Valid() && h.got < h.seen && Bits(p, h.got) + s.commitments == Bits(p, h.seen)
    requires p.IsCommitHeight(p.startHeight + |h.got| + 1)
    ensures s.commitments != [] && s.commitments[0] == p.Bit(h.seen[|h.got|])
  {
    BitsLength(p, h.got);
    BitAt(p, h.seen, |h.got|);
  }

  lemma Accepted(p: Params, s: State, x: Header)
    requires p.Valid() && s.phase == Redownload && x.prev == s.bufferLastHash
    requires p.permitted(s.bufferHeight + 1, PreviousBits(p, s), x.bits)
    requires s.processAll || !p.IsCommitHeight(s.bufferHeight + 1)
             || (s.commitments != [] && s.commitments[0] == p.Bit(x))
    ensures RedownloadHeader(p, s, x).1
  {
  }

  lemma ReplayAccepted(p: Params, s: State, h: History, all: seq<Header>)
    requires p.Valid() && Replaying(p, s, h, all) && h.got < all
    ensures RedownloadHeader(p, s, all[|h.got|]).1
  {
    hide RedownloadHeader, Linked, Permitted, Committed;
    var i := |h.got|;
    NextAllowed(p, h.got, all);
    PreviousBitsRight(p, s, h);
    if !s.processAll && p.IsCommitHeight(p.startHeight + i + 1) {
      StillSeen(p, s, h, all);
      CommitmentsLeft(p, s, h);
      NextCommitment(p, s, h);
    }
    Accepted(p, s, all[i]);
  }

  lemma NextAllowed(p: Params, hs: seq<Header>, all: seq<Header>)
    requires hs < all && Linked(p, all) && Permitted(p, all)
    ensures all[|hs|].prev == p.hash(Before(p, hs, |hs|))
    ensures p.permitted(p.startHeight + |hs| + 1, Before(p, hs, |hs|).bits, all[|hs|].bits)
  {
    assert LinkedAt(p, all, |hs|) && PermittedAt(p, all, |hs|);
    assert Before(p, all, |hs|) == Before(p, hs, |hs|);
  }

  lemma CommitmentsLeft(p: Params, s: State, h: History)
    requires p.Valid() && Committed(p, s, h) && !s.processAll
    ensures Bits(p, h.got) + s.commitments == Bits(p, h.seen)
  {
  }

  lemma ReplayedHeader(p: Params, s: State, h: History, all: seq<Header>)
    requires p.Valid() && Replaying(p, s, h, all) && h.got < all
    ensures var (s', ok) := RedownloadHeader(p, s, all[|h.got|]);
            ok && Replaying(p, s', h.(got := all[..|h.got| + 1]), all)
  {
    hide RedownloadHeader, InRedownload, Linked, Permitted;
    ReplayAccepted(p, s, h, all);
    RedownloadHeaderKeeps(p, s, h, all[|h.got|]);
    assert h.got + [all[|h.got|]] == all[..|h.got| + 1];
  }

  lemma {:induction false} ReplayedHeaders(p: Params, s: State, h: History, all: seq<Header>, xs: seq<Header>)
    requires p.Valid() && Replaying(p, s, h, all) && h.got + xs <= all
    ensures var (s', ok) := RedownloadHeaders(p, s, xs);
            ok && Replaying(p, s', h.(got := h.got + xs), all)
  {
    hide RedownloadHeader, Replaying;
    if xs == [] {
      assert h.got + xs == h.got;
    } else {
      var front, x := xs[..|xs| - 1], xs[|xs| - 1];
      assert h.got + front + [x] == h.got + xs;
      ReplayedHeaders(p, s, h, all, front);
      var (s', _) := RedownloadHeaders(p, s, front);
      var h' := h.(got := h.got + front);
      assert all[|h'.got|] == (h.got + xs)[|h'.got|] == x;
      ReplayedHeader(p, s', h', all);
      assert all[..|h'.got| + 1] == h.got + xs;
    }
  }

  /** One message of a replay succeeds; it ends the sync with everything released once there
      was enough work, and otherwise asks for more. */
  lemma ReplayedMessage(p: Params, s: State, h: History, all: seq<Header>, m: Message)
    requires p.Valid() && Replaying(p, s, h, all) && m.headers != [] && h.got + m.headers <= all
    ensures var (s', r) := Process(p, s, m.headers, m.full);
            var h' := NextHistory(p, s, h, m);
            && r.success && h'.seen == h.seen && h'.got == h.got + m.headers && h'.released == h.released + r.headers
            && (Reached(p, h'.got) ==> s'.phase == Final && h'.released == h'.got)
            && (!Reached(p, h'.got) && m.full ==> Replaying(p, s', h', all))
  {
    hide RedownloadHeaders, PopReady, Chained, Linked, Permitted, HistoryOk, Settled;
    ReplayedHeaders(p, s, h, all, m.headers);
    var s1 := RedownloadHeaders(p, s, m.headers).0;
    AfterPop(p, s1, h.(got := h.got + m.headers));
    PopReadyPhase(p, s1);
  }

  lemma PopReadyPhase(p: Params, s: State)
    ensures var s' := PopReady(p, s).0; s'.phase == s.phase && s'.processAll == s.processAll
  {
  }

  function Headers(ms: seq<Message>): seq<Header> {
    if ms == [] then [] else ms[0].headers + Headers(ms[1..])
  }

  /** What the caller sees while feeding messages until the sync is over. */
  datatype Outcome = Outcome(released: seq<Header>, allSucceeded: bool, phase: Phase)

  function Drive(p: Params, s: State, ms: seq<Message>): Outcome
    requires p.Valid()
    decreases |ms|
  {
    if ms == [] || s.phase == Final then Outcome([], true, s.phase) else
      var (s', r) := Process(p, s, ms[0].headers, ms[0].full);
      var rest := Drive(p, s', ms[1..]);
      Outcome(r.headers + rest.released, r.success && rest.allSucceeded, rest.phase)
  }

  predicate WellBatched(ms: seq<Message>) {
    && (forall i :: 0 <= i < |ms| ==> ms[i].headers != [])
    && (forall i :: 0 <= i < |ms| - 1 ==> ms[i].full)
  }

  lemma {:induction false} ReplayFrom(p: Params, s: State, h: History, all: seq<Header>, ms: seq<Message>)
    requires p.Valid() && Replaying(p, s, h, all) && ms != [] && WellBatched(ms)
    requires h.got + Headers(ms) == all
    ensures var o := Drive(p, s, ms);
            && o.allSucceeded && o.phase == Final
            && h.released + o.released <= all && Reached(p, h.released + o.released)
    decreases |ms|
  {
    hide Process, NextHistory, Reached, Work;
    var m, rest := ms[0], ms[1..];
    Regroup(h.got, m.headers, Headers(rest));
    ReplayedMessage(p, s, h, all, m);
    var (s', r) := Process(p, s, m.headers, m.full);
    var h' := NextHistory(p, s, h, m);
    assert rest == [] ==> h'.got == all;
    EndReached(p, h.seen, all);
    if Reached(p, h'.got) {
      Regroup(h.released, r.headers, []);
    } else {
      ReplayFrom(p, s', h', all, rest);
      Regroup(h.released, r.headers, Drive(p, s', rest).released);
    }
  }

  lemma EndReached(p: Params, seen: seq<Header>, all: seq<Header>)
    requires seen != [] && seen <= all && Work(p, seen) >= p.minWork
    ensures Reached(p, all)
  {
    ReachedGrows(p, seen, all);
  }

  lemma Regroup(a: seq<Header>, b: seq<Header>, c: seq<Header>)
    ensures a + (b + c) == a + b + c && a + b <= a + (b + c) && a + b + [] == a + b
  {
  }

  /** The work of a chain as a plain sum, without wrap-around. */
  function TotalWork(p: Params, hs: seq<Header>): nat {
    if hs == [] then p.startWork else TotalWork(p, hs[..|hs| - 1]) + p.proof(hs[|hs| - 1].bits)
  }

  lemma {:induction false} WorkAtMostTotal(p: Params, hs: seq<Header>)
    ensures Work(p, hs) <= TotalWork(p, hs)
  {
    if hs != [] {
      WorkAtMostTotal(p, hs[..|hs| - 1]);
    }
  }

  lemma {:induction false} ReachedIsEnough(p: Params, hs: seq<Header>)
    requires Reached(p, hs)
    ensures TotalWork(p, hs) >= p.minWork
  {
    WorkAtMostTotal(p, hs);
    if Reached(p, hs[..|hs| - 1]) {
      ReachedIsEnough(p, hs[..|hs| - 1]);
    }
  }

  /** Main theorem on progress. If the first phase accepted a continuous chain and asked for it
      again, a peer that sends it again, possibly with more headers on top by now, in any batching
      whose messages are full except the last, never fails, and the sync ends having released a
      chain with the minimum work. */
  lemma HonestPeerCompletes(p: Params, first: seq<Message>, again: seq<Message>)
    requires p.Valid()
    requires var (s, h) := Run(p, Init(p), NOTHING, first);
             s.phase == Redownload && h.got == [] && h.seen <= Headers(again)
    requires Linked(p, Headers(again)) && Permitted(p, Headers(again)) && again != [] && WellBatched(again)
    ensures var s := Run(p, Init(p), NOTHING, first).0;
            var o := Drive(p, s, again);
            o.allSucceeded && o.phase == Final && o.released <= Headers(again) && TotalWork(p, o.released) >= p.minWork
  {
    hide Drive, Linked, Permitted;
    RunFrom(p, Init(p), NOTHING, first);
    var (s, h) := Run(p, Init(p), NOTHING, first);
    ReplayFrom(p, s, h, Headers(again), again);
    assert h.released + Drive(p, s, again).released == Drive(p, s, again).released;
    ReachedIsEnough(p, Drive(p, s, again).released);
  }

  // ---------- the first phase ----------

  lemma PrefixBits(p: Params, hs: seq<Header>, all: seq<Header>)
    requires p.Valid() && hs <= all
    ensures |Bits(p, hs)| <= |Bits(p, all)|
  {
    BitsLength(p, hs);
    BitsLength(p, all);
    CommitCountMonotone(p, |hs|, |all|);
  }

  lemma PresyncAccepts(p: Params, s: State, h: History, all: seq<Header>)
    requires p.Valid() && InPresync(p, s, h) && h.seen < all && Linked(p, all) && Permitted(p, all)
    requires |Bits(p, all)| <= p.maxCommitments
    ensures SingleHeader(p, s, all[|h.seen|]).1 && all[|h.seen|].prev == p.hash(s.last)
  {
    hide Linked, Permitted, Bits;
    var x := all[|h.seen|];
    NextAllowed(p, h.seen, all);
    Snoc(p, h.seen, x);
    assert h.seen + [x] == all[..|h.seen| + 1];
    PrefixBits(p, h.seen + [x], all);
  }

  lemma {:induction false} PresyncAcceptsAll(p: Params, s: State, h: History, all: seq<Header>, xs: seq<Header>)
    requires p.Valid() && InPresync(p, s, h) && h.seen + xs <= all && Linked(p, all) && Permitted(p, all)
    requires |Bits(p, all)| <= p.maxCommitments
    ensures SingleHeaders(p, s, xs).1
  {
    hide SingleHeader, Linked, Permitted, Bits, InPresync;
    if xs != [] {
      var front, x := xs[..|xs| - 1], xs[|xs| - 1];
      PresyncAcceptsAll(p, s, h, all, front);
      SingleHeadersKeep(p, s, h, front);
      var h' := h.(seen := h.seen + front);
      assert all[|h'.seen|] == (h.seen + xs)[|h'.seen|] == x;
      PresyncAccepts(p, SingleHeaders(p, s, front).0, h', all);
    }
  }

  /** One message of an honest first phase: it succeeds, and asks for the chain again as soon as the
      work is enough. */
  lemma HonestMessage(p: Params, s: State, h: History, all: seq<Header>, m: Message)
    requires p.Valid() && InPresync(p, s, h) && m.headers != [] && h.seen + m.headers <= all
    requires Linked(p, all) && Permitted(p, all) && |Bits(p, all)| <= p.maxCommitments
    ensures var s' := Process(p, s, m.headers, m.full).0;
            var h' := NextHistory(p, s, h, m);
            && h' == h.(seen := h.seen + m.headers)
            && (Work(p, h'.seen) >= p.minWork ==> s'.phase == Redownload)
            && (Work(p, h'.seen) < p.minWork && m.full ==> InPresync(p, s', h'))
  {
    hide SingleHeaders, Linked, Permitted, Bits, Work;
    PresyncAcceptsAll(p, s, h, all, m.headers);
    SingleHeadersKeep(p, s, h, m.headers);
    assert all[|h.seen|] == (h.seen + m.headers)[|h.seen|] == m.headers[0];
    PresyncAccepts(p, s, h, all);
  }

  /** The first phase of an honest peer: some message completes the work, and then the node asks for
      the chain again. */
  lemma {:induction false} FirstPhase(p: Params, s: State, h: History, all: seq<Header>, ms: seq<Message>)
    returns (k: nat)
    requires p.Valid() && InPresync(p, s, h) && ms != [] && WellBatched(ms) && h.seen + Headers(ms) == all
    requires Linked(p, all) && Permitted(p, all) && |Bits(p, all)| <= p.maxCommitments && Work(p, all) >= p.minWork
    ensures 0 < k <= |ms|
    ensures var (s', h') := Run(p, s, h, ms[..k]);
            s'.phase == Redownload && h'.got == [] && h'.seen <= all
    decreases |ms|
  {
    hide Process, NextHistory, Linked, Permitted, Bits, Work;
    var m, rest := ms[0], ms[1..];
    Regroup(h.seen, m.headers, Headers(rest));
    HonestMessage(p, s, h, all, m);
    var s', h' := Process(p, s, m.headers, m.full).0, NextHistory(p, s, h, m);
    assert rest == [] ==> h'.seen == all;
    if Work(p, h'.seen) >= p.minWork {
      k := 1;
      assert ms[..1] == [m];
    } else {
      var j := FirstPhase(p, s', h', all, rest);
      k := j + 1;
      assert ms[..k][0] == m && ms[..k][1..] == rest[..j];
    }
  }

  /** Main theorem, end to end. A peer with a linked chain of permitted headers that has enough work
      and stays within the commitment maximum sends it twice, the second time possibly with more on
      top, each time in messages that are full except the last. Some message of the first sending
      makes the node ask again, nothing fails, and a chain with the minimum work is released. */
  lemma HonestPeerSyncs(p: Params, first: seq<Message>, again: seq<Message>) returns (k: nat)
    requires p.Valid() && first != [] && WellBatched(first) && again != [] && WellBatched(again)
    requires Headers(first) <= Headers(again) && Linked(p, Headers(again)) && Permitted(p, Headers(again))
    requires Work(p, Headers(first)) >= p.minWork && |Bits(p, Headers(first))| <= p.maxCommitments
    ensures 0 < k <= |first|
    ensures var s := Run(p, Init(p), NOTHING, first[..k]).0;
            var o := Drive(p, s, again);
            && s.phase == Redownload && o.allSucceeded && o.phase == Final
            && o.released <= Headers(again) && TotalWork(p, o.released) >= p.minWork
  {
    hide Linked, Permitted, Bits, Work, Run, Drive;
    ShorterChain(p, Headers(first), Headers(again));
    StartsInPresync(p);
    assert NOTHING.seen + Headers(first) == Headers(first);
    k := FirstPhase(p, Init(p), NOTHING, Headers(first), first);
    HonestPeerCompletes(p, first[..k], again);
  }

  lemma ShorterChain(p: Params, hs: seq<Header>, all: seq<Header>)
    requires hs <= all && Linked(p, all) && Permitted(p, all)
    ensures Linked(p, hs) && Permitted(p, hs)
  {
    hide LinkedAt, PermittedAt;
    forall i | 0 <= i < |hs| ensures LinkedAt(p, hs, i) && PermittedAt(p, hs, i) {
      SameAt(p, hs, all, i);
    }
  }

  lemma StartsInPresync(p: Params)
    requires p.Valid()
    ensures InPresync(p, Init(p), NOTHING)
  {
  }
}
