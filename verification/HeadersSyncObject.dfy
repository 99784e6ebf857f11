/** HeadersSyncState as an object updated in place; each method is proved equal to its
    function in module HeadersSync. */
module HeadersSyncObject {
  import opened HeadersSync

  class HeadersSyncState {
    const params: Params

    var downloadState: Phase
    var currentChainWork: nat
    var headerCommitments: seq<bool>
    var lastHeaderReceived: Header
    var currentHeight: nat
    var redownloadedHeaders: seq<CompressedHeader>
    var redownloadBufferLastHeight: nat
    var redownloadBufferLastHash: Hash
    var redownloadBufferFirstPrevHash: Hash
    var redownloadChainWork: nat
    var processAllRemainingHeaders: bool

    ghost function Abs(): State
      reads this
    {
      State(downloadState, currentChainWork, headerCommitments, lastHeaderReceived, currentHeight,
            redownloadedHeaders, redownloadBufferLastHeight, redownloadBufferLastHash,
            redownloadBufferFirstPrevHash, redownloadChainWork, processAllRemainingHeaders)
    }

    constructor (params: Params)
      ensures this.params == params && Abs() == Init(params)
    {
      this.params := params;
      downloadState := Presync;
      currentChainWork, headerCommitments := params.startWork, [];
      lastHeaderReceived, currentHeight := params.start, params.startHeight;
      redownloadedHeaders, redownloadBufferLastHeight, redownloadBufferLastHash := [], 0, NULL_HASH;
      redownloadBufferFirstPrevHash, redownloadChainWork, processAllRemainingHeaders := NULL_HASH, 0, false;
    }

    method Finalize()
      modifies this
      ensures Abs() == HeadersSync.Finalize(old(Abs()))
    {
      headerCommitments := [];
      lastHeaderReceived := NULL_HEADER;
      redownloadedHeaders := [];
      redownloadBufferLastHash := NULL_HASH;
      redownloadBufferFirstPrevHash := NULL_HASH;
      processAllRemainingHeaders := false;
      currentHeight := 0;
      downloadState := Final;
    }

    method ProcessNextHeaders(received: seq<Header>, full: bool) returns (r: Result)
      requires params.Valid()
      modifies this
      ensures (Abs(), r) == Process(params, old(Abs()), received, full)
    {
      r := Result([], false, false);
      if received == [] || downloadState == Final {
        return;
      }
      if downloadState == Presync {
        var ok := ValidateAndStoreHeadersCommitments(received);
        r := Result([], ok, ok && (full || downloadState == Redownload));
      } else {
        var ok := RedownloadAll(received);
        if ok {
          var out := PopHeadersReadyForAcceptance();
          r := Result(out, true, !(redownloadedHeaders == [] && processAllRemainingHeaders) && full);
        }
      }
      if !(r.success && r.requestMore) {
        Finalize();
      }
    }

    method ValidateAndStoreHeadersCommitments(headers: seq<Header>) returns (ok: bool)
      requires params.Valid()
      modifies this
      ensures (Abs(), ok) == StoreCommitments(params, old(Abs()), headers)
    {
      if headers == [] {
        return true;
      }
      if downloadState != Presync || headers[0].prev != params.hash(lastHeaderReceived) {
        return false;
      }
      ok := ProcessSingleHeaders(headers);
      if ok && currentChainWork >= params.minWork {
        BeginRedownload();
      }
    }

    method BeginRedownload()
      modifies this
      ensures Abs() == StartRedownload(params, old(Abs()))
    {
      redownloadedHeaders := [];
      redownloadBufferLastHeight := params.startHeight;
      redownloadBufferFirstPrevHash := params.hash(params.start);
      redownloadBufferLastHash := params.hash(params.start);
      redownloadChainWork := params.startWork;
      downloadState := Redownload;
    }

    /** The loop of ValidateAndStoreHeadersCommitments. */
    method ProcessSingleHeaders(headers: seq<Header>) returns (ok: bool)
      requires params.Valid()
      modifies this
      ensures (Abs(), ok) == SingleHeaders(params, old(Abs()), headers)
    {
      for i := 0 to |headers|
        invariant SingleHeaders(params, old(Abs()), headers[..i]) == (Abs(), true)
      {
        assert headers[..i + 1][..i] == headers[..i];
        ok := ValidateAndProcessSingleHeader(headers[i]);
        if !ok {
          FailsOn(params, old(Abs()), headers, i + 1, Abs());
          return;
        }
      }
      assert headers[..|headers|] == headers;
      return true;
    }

    method ValidateAndProcessSingleHeader(current: Header) returns (ok: bool)
      requires params.Valid()
      modifies this
      ensures (Abs(), ok) == SingleHeader(params, old(Abs()), current)
    {
      if downloadState != Presync {
        return false;
      }
      var nextHeight := currentHeight + 1;
      if !params.permitted(nextHeight, lastHeaderReceived.bits, current.bits) {
        return false;
      }
      if params.IsCommitHeight(nextHeight) {
        headerCommitments := headerCommitments + [params.Bit(current)];
        if |headerCommitments| > params.maxCommitments {
          return false;
        }
      }
      currentChainWork := (currentChainWork + params.proof(current.bits)) % WORK_LIMIT;
      lastHeaderReceived := current;
      currentHeight := nextHeight;
      return true;
    }

    /** The loop of ProcessNextHeaders in the second phase. */
    method RedownloadAll(headers: seq<Header>) returns (ok: bool)
      requires params.Valid()
      modifies this
      ensures (Abs(), ok) == RedownloadHeaders(params, old(Abs()), headers)
    {
      for i := 0 to |headers|
        invariant RedownloadHeaders(params, old(Abs()), headers[..i]) == (Abs(), true)
      {
        assert headers[..i + 1][..i] == headers[..i];
        ok := ValidateAndStoreRedownloadedHeader(headers[i]);
        if !ok {
          RedownloadFailsOn(params, old(Abs()), headers, i + 1, Abs());
          return;
        }
      }
      assert headers[..|headers|] == headers;
      return true;
    }

    method ValidateAndStoreRedownloadedHeader(header: Header) returns (ok: bool)
      requires params.Valid()
      modifies this
      ensures (Abs(), ok) == RedownloadHeader(params, old(Abs()), header)
    {
      if downloadState != Redownload {
        return false;
      }
      var nextHeight := redownloadBufferLastHeight + 1;
      if header.prev != redownloadBufferLastHash {
        return false;
      }
      var previousBits := params.start.bits;
      if redownloadedHeaders != [] {
        previousBits := redownloadedHeaders[|redownloadedHeaders| - 1].bits;
      }
      if !params.permitted(nextHeight, previousBits, header.bits) {
        return false;
      }
      redownloadChainWork := (redownloadChainWork + params.proof(header.bits)) % WORK_LIMIT;
      if redownloadChainWork >= params.minWork {
        processAllRemainingHeaders := true;
      }
      if !processAllRemainingHeaders && params.IsCommitHeight(nextHeight) {
        if |headerCommitments| == 0 {
          return false;
        }
        var expected := headerCommitments[0];
        headerCommitments := headerCommitments[1..];
        if params.Bit(header) != expected {
          return false;
        }
      }
      StoreInBuffer(header, nextHeight);
      return true;
    }

    method StoreInBuffer(header: Header, height: nat)
      modifies this
      ensures Abs() == old(Abs()).(buffer := old(redownloadedHeaders) + [Compress(header)], bufferHeight := height,
                                   bufferLastHash := params.hash(header))
    {
      redownloadedHeaders := redownloadedHeaders + [Compress(header)];
      redownloadBufferLastHeight := height;
      redownloadBufferLastHash := params.hash(header);
    }

    method PopHeadersReadyForAcceptance() returns (out: seq<Header>)
      modifies this
      ensures (Abs(), out) == PopReady(params, old(Abs()))
    {
      out := [];
      if downloadState != Redownload {
        return;
      }
      ghost var was := redownloadedHeaders;
      ghost var prev := redownloadBufferFirstPrevHash;
      ghost var n := 0;
      while |redownloadedHeaders| > params.bufferSize || (|redownloadedHeaders| > 0 && processAllRemainingHeaders)
        invariant 0 <= n <= ReadyCount(params, old(Abs())) && redownloadedHeaders == was[n..]
        invariant out == Rebuild(params, was[..n], prev) && redownloadBufferFirstPrevHash == TipHash(params, prev, out)
        invariant Abs() == old(Abs()).(buffer := redownloadedHeaders, bufferFirstPrev := redownloadBufferFirstPrevHash)
        decreases |redownloadedHeaders|
      {
        RebuildNext(params, was, prev, n);
        var h := GetFullHeader(redownloadedHeaders[0], redownloadBufferFirstPrevHash);
        out := out + [h];
        redownloadedHeaders := redownloadedHeaders[1..];
        redownloadBufferFirstPrevHash := params.hash(h);
        n := n + 1;
      }
    }
  }

  /** A message fails as soon as one of its headers does. */
  lemma {:induction false} FailsOn(p: Params, s: State, hs: seq<Header>, n: nat, end: State)
    requires p.Valid() && n <= |hs| && SingleHeaders(p, s, hs[..n]) == (end, false)
    ensures SingleHeaders(p, s, hs) == (end, false)
    decreases |hs| - n
  {
    if n == |hs| {
      assert hs[..n] == hs;
    } else {
      assert hs[..n + 1][..n] == hs[..n];
      FailsOn(p, s, hs, n + 1, end);
    }
  }

  lemma {:induction false} RedownloadFailsOn(p: Params, s: State, hs: seq<Header>, n: nat, end: State)
    requires p.Valid() && n <= |hs| && RedownloadHeaders(p, s, hs[..n]) == (end, false)
    ensures RedownloadHeaders(p, s, hs) == (end, false)
    decreases |hs| - n
  {
    if n == |hs| {
      assert hs[..n] == hs;
    } else {
      assert hs[..n + 1][..n] == hs[..n];
      RedownloadFailsOn(p, s, hs, n + 1, end);
    }
  }

  /** Rebuilding one header more appends one header. */
  lemma {:induction false} RebuildNext(p: Params, cs: seq<CompressedHeader>, prev: Hash, n: nat)
    requires n < |cs|
    ensures var out := Rebuild(p, cs[..n], prev);
            Rebuild(p, cs[..n + 1], prev) == out + [GetFullHeader(cs[n], TipHash(p, prev, out))]
    decreases n
  {
    if n > 0 {
      var h := GetFullHeader(cs[0], prev);
      RebuildNext(p, cs[1..], p.hash(h), n - 1);
      assert cs[..n][1..] == cs[1..][..n - 1] && cs[..n + 1][1..] == cs[1..][..n];
    }
  }
}
