/** The two-phase headers sync of headerssync.cpp, as functions on values.

    Hashing, the salted commitment bit, the difficulty rule and the work of a header are
    arbitrary functions, so every result holds for all of them. The commitment period,
    the offset and the buffer size are parameters too. The class in HeadersSyncObject.dfy
    is proved equal to these functions. */
module HeadersSync {

  type Hash = nat
  const NULL_HASH: Hash := 0

  /** Chain work is a 256-bit number; adding to it wraps. */
  const WORK_LIMIT: nat := 0x1_0000000000000000_0000000000000000_0000000000000000_0000000000000000

  datatype Header = Header(version: int, prev: Hash, merkleRoot: Hash, time: nat, bits: nat, nonce: nat, auxpow: nat)

  const NULL_HEADER := Header(16, NULL_HASH, NULL_HASH, 0, 0, 0, 0)

  /** A header without the hash of its predecessor. */
  datatype CompressedHeader = CompressedHeader(version: int, merkleRoot: Hash, time: nat, bits: nat, nonce: nat,
                                               auxpow: nat)

  function Compress(h: Header): CompressedHeader {
    CompressedHeader(h.version, h.merkleRoot, h.time, h.bits, h.nonce, h.auxpow)
  }

  function GetFullHeader(c: CompressedHeader, prev: Hash): Header {
    Header(c.version, prev, c.merkleRoot, c.time, c.bits, c.nonce, c.auxpow)
  }

  datatype Params = Params(
    hash: Header -> Hash,
    commit: Hash -> bool,                    // the salted one-bit commitment
    permitted: (nat, nat, nat) -> bool,      // PermittedDifficultyTransition(height, old bits, new bits)
    proof: nat -> nat,                       // GetBlockProof of a header with these bits
    period: nat, offset: nat, bufferSize: nat,
    minWork: nat, maxCommitments: nat,
    start: Header, startHeight: nat, startWork: nat)
  {
    predicate Valid() {
      offset < period && 1 <= bufferSize
    }

    predicate IsCommitHeight(height: nat)
      requires Valid()
    {
      height % period == offset
    }

    function Bit(h: Header): bool {
      commit(hash(h))
    }
  }

  datatype Phase = Presync | Redownload | Final

  datatype State = State(
    phase: Phase,
    work: nat, commitments: seq<bool>, last: Header, height: nat,
    buffer: seq<CompressedHeader>, bufferHeight: nat, bufferLastHash: Hash, bufferFirstPrev: Hash,
    bufferWork: nat, processAll: bool)

  datatype Result = Result(headers: seq<Header>, success: bool, requestMore: bool)

  function Init(p: Params): State {
    State(Presync, p.startWork, [], p.start, p.startHeight, [], 0, NULL_HASH, NULL_HASH, 0, false)
  }

  function Finalize(s: State): State {
    s.(commitments := [], last := NULL_HEADER, buffer := [], bufferLastHash := NULL_HASH,
       bufferFirstPrev := NULL_HASH, processAll := false, height := 0, phase := Final)
  }

  // ---------- first phase ----------

  function SingleHeader(p: Params, s: State, h: Header): (State, bool)
    requires p.Valid()
  {
    var next := s.height + 1;
    if s.phase != Presync || !p.permitted(next, s.last.bits, h.bits) then (s, false) else
      var s1 := if p.IsCommitHeight(next) then s.(commitments := s.commitments + [p.Bit(h)]) else s;
      if p.IsCommitHeight(next) && |s1.commitments| > p.maxCommitments then (s1, false) else
        (s1.(work := (s1.work + p.proof(h.bits)) % WORK_LIMIT, last := h, height := next), true)
  }

  /** The loop over a message; it stops at the first bad header. */
  function SingleHeaders(p: Params, s: State, hs: seq<Header>): (State, bool)
    requires p.Valid()
  {
    if hs == [] then (s, true) else
      var (s', ok) := SingleHeaders(p, s, hs[..|hs| - 1]);
      if ok then SingleHeader(p, s', hs[|hs| - 1]) else (s', false)
  }

  function StartRedownload(p: Params, s: State): State {
    s.(buffer := [], bufferHeight := p.startHeight, bufferFirstPrev := p.hash(p.start),
       bufferLastHash := p.hash(p.start), bufferWork := p.startWork, phase := Redownload)
  }

  function StoreCommitments(p: Params, s: State, hs: seq<Header>): (State, bool)
    requires p.Valid()
  {
    if hs == [] then (s, true)
    else if s.phase != Presync || hs[0].prev != p.hash(s.last) then (s, false)
    else
      var (s', ok) := SingleHeaders(p, s, hs);
      if !ok then (s', false)
      else (if s'.work >= p.minWork then StartRedownload(p, s') else s', true)
  }

  // ---------- second phase ----------

  function PreviousBits(p: Params, s: State): nat {
    if s.buffer != [] then s.buffer[|s.buffer| - 1].bits else p.start.bits
  }

  function RedownloadHeader(p: Params, s: State, h: Header): (State, bool)
    requires p.Valid()
  {
    var next := s.bufferHeight + 1;
    if s.phase != Redownload || h.prev != s.bufferLastHash || !p.permitted(next, PreviousBits(p, s), h.bits)
    then (s, false)
    else
      var work := (s.bufferWork + p.proof(h.bits)) % WORK_LIMIT;
      var s1 := s.(bufferWork := work, processAll := s.processAll || work >= p.minWork);
      var check := !s1.processAll && p.IsCommitHeight(next);
      if check && s1.commitments == [] then (s1, false) else
        var s2 := if check then s1.(commitments := s1.commitments[1..]) else s1;
        if check && p.Bit(h) != s1.commitments[0] then (s2, false)
        else (s2.(buffer := s2.buffer + [Compress(h)], bufferHeight := next, bufferLastHash := p.hash(h)), true)
  }

  function RedownloadHeaders(p: Params, s: State, hs: seq<Header>): (State, bool)
    requires p.Valid()
  {
    if hs == [] then (s, true) else
      var (s', ok) := RedownloadHeaders(p, s, hs[..|hs| - 1]);
      if ok then RedownloadHeader(p, s', hs[|hs| - 1]) else (s', false)
  }

  /** How many buffered headers PopHeadersReadyForAcceptance releases. */
  function ReadyCount(p: Params, s: State): (n: nat)
    ensures n <= |s.buffer|
  {
    if s.phase != Redownload then 0
    else if s.processAll then |s.buffer|
    else if |s.buffer| > p.bufferSize then |s.buffer| - p.bufferSize
    else 0
  }

  /** Compressed headers with their predecessor hashes put back, walking from `prev`. */
  function Rebuild(p: Params, cs: seq<CompressedHeader>, prev: Hash): seq<Header> {
    if cs == [] then [] else
      var h := GetFullHeader(cs[0], prev);
      [h] + Rebuild(p, cs[1..], p.hash(h))
  }

  function TipHash(p: Params, prev: Hash, hs: seq<Header>): Hash {
    if hs == [] then prev else p.hash(hs[|hs| - 1])
  }

  function PopReady(p: Params, s: State): (State, seq<Header>) {
    var n := ReadyCount(p, s);
    var out := Rebuild(p, s.buffer[..n], s.bufferFirstPrev);
    (s.(buffer := s.buffer[n..], bufferFirstPrev := TipHash(p, s.bufferFirstPrev, out)), out)
  }

  // ---------- a message ----------

  function Process(p: Params, s: State, hs: seq<Header>, full: bool): (State, Result)
    requires p.Valid()
  {
    if hs == [] || s.phase == Final then (s, Result([], false, false))
    else if s.phase == Presync then
      var (s', ok) := StoreCommitments(p, s, hs);
      var more := ok && (full || s'.phase == Redownload);
      (if more then s' else Finalize(s'), Result([], ok, more))
    else
      var (s1, ok) := RedownloadHeaders(p, s, hs);
      if !ok then (Finalize(s1), Result([], false, false)) else
        var (s2, out) := PopReady(p, s1);
        var more := !(s2.buffer == [] && s2.processAll) && full;
        (if more then s2 else Finalize(s2), Result(out, true, more))
  }
}
