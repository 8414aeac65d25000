/**
 Block transfer: fetching one block with failover over its providers
 (internal/replication/recovery.go) and reading a whole file (GetFile in
 internal/coordinator/node.go). Remote nodes are a function of the call: they may answer
 anything, and answer differently each time.
 */
module Transfer {
  import opened Wrappers
  import opened Content
  import opened Providers

  type Store = map<Cid, Bytes>

  /** The store invariant: every block is stored under its own hash. */
  ghost predicate Verified(e: Env, store: Store) {
    forall c | c in store :: e.hash(store[c]) == c
  }

  function Put(e: Env, store: Store, data: Bytes): Store {
    if e.hash(data) in store then store else store[e.hash(data) := data]
  }

  /** One GetBlock call: the turn is 0 for the root block and i + 1 for chunk i. */
  datatype Call = Call(turn: nat, attempt: nat, addr: string, cid: Cid)

  /** None is a failed call or an error message; the handler's "no data" is an empty answer. */
  type Net = Call -> Option<Bytes>

  datatype FetchError = NoProviders | CallFailed | EmptyBlock | HashMismatch
  datatype FetchResult = Fetched(data: Bytes) | Failed(error: FetchError)

  function Attempt(e: Env, net: Net, call: Call): FetchResult {
    match net(call)
    case None => Failed(CallFailed)
    case Some(data) =>
      if data == "" then Failed(EmptyBlock)
      else if e.hash(data) != call.cid then Failed(HashMismatch)
      else Fetched(data)
  }

  /** The outcome after the first n providers: the first good block, or the last error. */
  function FetchUpTo(e: Env, net: Net, turn: nat, cid: Cid, provs: seq<Endpoint>, n: nat): FetchResult
    requires n <= |provs|
  {
    if n == 0 then Failed(NoProviders)
    else
      var before := FetchUpTo(e, net, turn, cid, provs, n - 1);
      if before.Fetched? || provs[n - 1].grpc == "" then before
      else Attempt(e, net, Call(turn, n - 1, provs[n - 1].grpc, cid))
  }

  function Fetch(e: Env, net: Net, turn: nat, cid: Cid, provs: seq<Endpoint>): FetchResult {
    FetchUpTo(e, net, turn, cid, provs, |provs|)
  }

  lemma {:induction false} FetchedStays(e: Env, net: Net, turn: nat, cid: Cid, provs: seq<Endpoint>,
                                        m: nat, n: nat)
    requires m <= n <= |provs| && FetchUpTo(e, net, turn, cid, provs, m).Fetched?
    ensures FetchUpTo(e, net, turn, cid, provs, n) == FetchUpTo(e, net, turn, cid, provs, m)
  {
    if m < n {
      FetchedStays(e, net, turn, cid, provs, m, n - 1);
    }
  }

  /** Tries each provider with an address until one answers with the block. */
  method FetchBlock(e: Env, net: Net, turn: nat, cid: Cid, provs: seq<Endpoint>)
    returns (r: FetchResult)
    ensures r == Fetch(e, net, turn, cid, provs)
  {
    r := Failed(NoProviders);
    for i := 0 to |provs|
      invariant r == FetchUpTo(e, net, turn, cid, provs, i) && r.Failed?
    {
      if provs[i].grpc == "" {
        continue;
      }
      r := Attempt(e, net, Call(turn, i, provs[i].grpc, cid));
      if r.Fetched? {
        FetchedStays(e, net, turn, cid, provs, i + 1, |provs|);
        return;
      }
    }
  }

  /** Provider i has an address, and answers this call with data that is not empty and hashes to the CID. */
  ghost predicate Serves(e: Env, net: Net, turn: nat, cid: Cid, provs: seq<Endpoint>, i: nat) {
    && i < |provs| && provs[i].grpc != ""
    && var answer := net(Call(turn, i, provs[i].grpc, cid));
       answer.Some? && answer.value != "" && e.hash(answer.value) == cid
  }

  /** data is the answer of provider i, and none before it serves the block. */
  ghost predicate FirstToServe(e: Env, net: Net, turn: nat, cid: Cid, provs: seq<Endpoint>, i: nat, data: Bytes) {
    && Serves(e, net, turn, cid, provs, i)
    && net(Call(turn, i, provs[i].grpc, cid)) == Some(data)
    && forall j: nat | j < i :: !Serves(e, net, turn, cid, provs, j)
  }

  /**
   Failover is exact: a fetch succeeds if and only if some provider serves the block, returns the
   answer of the first that does, and blames missing providers only when none has an address.
   */
  lemma {:induction false} FetchIsExact(e: Env, net: Net, turn: nat, cid: Cid, provs: seq<Endpoint>, n: nat)
    requires n <= |provs|
    ensures var r := FetchUpTo(e, net, turn, cid, provs, n);
            && (r.Fetched? <==> exists i: nat :: i < n && Serves(e, net, turn, cid, provs, i))
            && (r.Fetched? ==> r.data != "" && e.hash(r.data) == cid)
            && (r.Fetched? ==> exists i: nat :: i < n && FirstToServe(e, net, turn, cid, provs, i, r.data))
            && (r == Failed(NoProviders) <==> forall i | 0 <= i < n :: provs[i].grpc == "")
  {
    if n > 0 {
      FetchIsExact(e, net, turn, cid, provs, n - 1);
      if FetchUpTo(e, net, turn, cid, provs, n - 1).Failed? {
        assert forall j: nat | j < n - 1 :: !Serves(e, net, turn, cid, provs, j);
        var r := FetchUpTo(e, net, turn, cid, provs, n);
        assert r.Fetched? ==> FirstToServe(e, net, turn, cid, provs, n - 1, r.data);
      }
    }
  }

  /** Provider i is the last with an address, and this is what its answer lacks. */
  ghost predicate LastFailure(e: Env, net: Net, turn: nat, cid: Cid, provs: seq<Endpoint>, n: nat, i: nat,
                              error: FetchError)
    requires n <= |provs|
  {
    && i < n && provs[i].grpc != "" && (forall j | i < j < n :: provs[j].grpc == "")
    && var answer := net(Call(turn, i, provs[i].grpc, cid));
       match error
       case NoProviders => false
       case CallFailed => answer == None
       case EmptyBlock => answer == Some("")
       case HashMismatch => answer.Some? && answer.value != "" && e.hash(answer.value) != cid
  }

  /** A fetch that fails blames the last provider it could ask. */
  lemma {:induction false} FailureIsTheLast(e: Env, net: Net, turn: nat, cid: Cid, provs: seq<Endpoint>, n: nat)
    requires n <= |provs| && FetchUpTo(e, net, turn, cid, provs, n).Failed?
    ensures
      var error := FetchUpTo(e, net, turn, cid, provs, n).error;
      error == NoProviders || exists i: nat :: LastFailure(e, net, turn, cid, provs, n, i, error)
  {
    if n > 0 {
      var error := FetchUpTo(e, net, turn, cid, provs, n).error;
      if provs[n - 1].grpc != "" {
        assert LastFailure(e, net, turn, cid, provs, n, n - 1, error);
      } else {
        FailureIsTheLast(e, net, turn, cid, provs, n - 1);
        if error != NoProviders {
          var i: nat :| LastFailure(e, net, turn, cid, provs, n - 1, i, error);
          assert LastFailure(e, net, turn, cid, provs, n, i, error);
        }
      }
    }
  }

  datatype Outcome = Outcome(written: Bytes, ok: bool, store: Store)

  /** A block from the local store, or else from its providers. */
  function Resolve(e: Env, net: Net, turn: nat, store: Store, cid: Cid, provs: seq<Endpoint>): FetchResult {
    if cid in store then Fetched(store[cid]) else Fetch(e, net, turn, cid, provs)
  }

  /** The store after resolving: a fetched block is cached. */
  function Cached(e: Env, store: Store, cid: Cid, data: Bytes): Store {
    if cid in store then store else Put(e, store, data)
  }

  function ProvidersAt(lookups: seq<seq<Endpoint>>, i: nat): seq<Endpoint> {
    if i < |lookups| then lookups[i] else []
  }

  /** One chunk: resolved, cached and written, unless an earlier one failed. */
  function CopyOne(e: Env, net: Net, o: Outcome, turn: nat, cid: Cid, provs: seq<Endpoint>): Outcome {
    if !o.ok then o
    else match Resolve(e, net, turn, o.store, cid, provs)
      case Failed(_) => o.(ok := false)
      case Fetched(data) => Outcome(o.written + data, true, Cached(e, o.store, cid, data))
  }

  /** After the first n chunks; lookups[i] are the providers found for chunk i. */
  function CopyUpTo(e: Env, net: Net, lookups: seq<seq<Endpoint>>, store: Store, chunks: seq<Cid>, n: nat): Outcome
    requires n <= |chunks|
  {
    if n == 0 then Outcome("", true, store)
    else CopyOne(e, net, CopyUpTo(e, net, lookups, store, chunks, n - 1), n, chunks[n - 1],
                 ProvidersAt(lookups, n - 1))
  }

  /** GetFile: resolve the root block, decode it, then resolve and write each chunk in order. */
  function GetFile(e: Env, net: Net, rootProvs: seq<Endpoint>, lookups: seq<seq<Endpoint>>,
                   store: Store, root: Cid): Outcome
  {
    match Resolve(e, net, 0, store, root, rootProvs)
    case Failed(_) => Outcome("", false, store)
    case Fetched(block) =>
      var st := Cached(e, store, root, block);
      match e.unmarshal(block)
      case None => Outcome("", false, st)
      case Some(chunks) => CopyUpTo(e, net, lookups, st, chunks, |chunks|)
  }

  lemma ResolveIsVerified(e: Env, net: Net, turn: nat, store: Store, cid: Cid, provs: seq<Endpoint>)
    requires Verified(e, store)
    ensures var r := Resolve(e, net, turn, store, cid, provs);
            r.Fetched? ==>
              && e.hash(r.data) == cid
              && Verified(e, Cached(e, store, cid, r.data))
              && Cached(e, store, cid, r.data).Keys == store.Keys + {cid}
              && forall c | c in store :: Cached(e, store, cid, r.data)[c] == store[c]
  {
    FetchIsExact(e, net, turn, cid, provs, |provs|);
  }

  /** Lookups made later do not matter for the chunks already copied. */
  lemma {:induction false} CopyIgnoresLaterLookups(e: Env, net: Net, lookups: seq<seq<Endpoint>>,
                                                   more: seq<seq<Endpoint>>, store: Store,
                                                   chunks: seq<Cid>, n: nat)
    requires n <= |chunks| && n <= |lookups|
    ensures CopyUpTo(e, net, lookups + more, store, chunks, n) == CopyUpTo(e, net, lookups, store, chunks, n)
  {
    if n > 0 {
      CopyIgnoresLaterLookups(e, net, lookups, more, store, chunks, n - 1);
    }
  }

  /** The first chunk that cannot be resolved ends the download. */
  lemma {:induction false} FailureIsFinal(e: Env, net: Net, lookups: seq<seq<Endpoint>>, store: Store,
                                          chunks: seq<Cid>, m: nat, n: nat)
    requires m <= n <= |chunks| && !CopyUpTo(e, net, lookups, store, chunks, m).ok
    ensures CopyUpTo(e, net, lookups, store, chunks, n) == CopyUpTo(e, net, lookups, store, chunks, m)
  {
    if m < n {
      FailureIsFinal(e, net, lookups, store, chunks, m, n - 1);
    }
  }

  /** The later store is honest and still has every block of the earlier one. */
  ghost predicate Extends(e: Env, store: Store, store': Store) {
    Verified(e, store') && forall c | c in store :: c in store' && store'[c] == store[c]
  }

  lemma CopyOneContract(e: Env, net: Net, o: Outcome, turn: nat, cid: Cid, provs: seq<Endpoint>)
    requires Verified(e, o.store)
    ensures var o' := CopyOne(e, net, o, turn, cid, provs);
            && Extends(e, o.store, o'.store)
            && (o'.ok <==> o.ok && Obtainable(e, net, turn, o.store.Keys, cid, provs))
            && (!o'.ok ==> o'.written == o.written)
            && (o'.ok ==> o'.store.Keys == o.store.Keys + {cid}
                          && exists data :: e.hash(data) == cid && o'.written == o.written + data)
  {
    ResolveIsVerified(e, net, turn, o.store, cid, provs);
    ResolveSucceedsIff(e, net, turn, o.store, cid, provs);
  }

  /** Whatever the answers, what is written is blocks with the first CIDs of the list, in order. */
  lemma {:induction false} CopyWritesListed(e: Env, net: Net, lookups: seq<seq<Endpoint>>, store: Store,
                                            cids: seq<Cid>, n: nat)
    returns (pieces: seq<Bytes>)
    requires Verified(e, store) && n <= |cids|
    ensures
      var o := CopyUpTo(e, net, lookups, store, cids, n);
      && Extends(e, store, o.store)
      && |pieces| <= n && Hashes(e, pieces) == cids[..|pieces|]
      && o.written == Join(pieces) && (o.ok <==> |pieces| == n)
  {
    if n == 0 {
      pieces := [];
    } else {
      pieces := CopyWritesListed(e, net, lookups, store, cids, n - 1);
      var before := CopyUpTo(e, net, lookups, store, cids, n - 1);
      var after := CopyOne(e, net, before, n, cids[n - 1], ProvidersAt(lookups, n - 1));
      CopyOneContract(e, net, before, n, cids[n - 1], ProvidersAt(lookups, n - 1));
      if after.ok {
        var data :| e.hash(data) == cids[n - 1] && after.written == before.written + data;
        JoinLast(pieces, data);
        OneMoreListed(e, pieces, data, cids);
        pieces := pieces + [data];
      }
    }
  }

  lemma OneMoreListed(e: Env, pieces: seq<Bytes>, data: Bytes, cids: seq<Cid>)
    requires |pieces| < |cids| && Hashes(e, pieces) == cids[..|pieces|] && e.hash(data) == cids[|pieces|]
    ensures Hashes(e, pieces + [data]) == cids[..|pieces + [data]|]
  {
    assert Hashes(e, pieces + [data]) == Hashes(e, pieces) + [e.hash(data)];
  }

  lemma JoinOneMore(pieces: seq<Bytes>, n: nat)
    requires n < |pieces|
    ensures Join(pieces[..n + 1]) == Join(pieces[..n]) + pieces[n]
  {
    assert pieces[..n + 1][..n] == pieces[..n];
  }

  lemma {:induction false} JoinPrefix(pieces: seq<Bytes>, m: nat)
    requires m <= |pieces|
    ensures Join(pieces[..m]) <= Join(pieces)
  {
    if m < |pieces| {
      var front := pieces[..|pieces| - 1];
      JoinPrefix(front, m);
      assert front[..m] == pieces[..m];
    } else {
      assert pieces[..m] == pieces;
    }
  }

  /** The bytes written are blocks whose hashes are the first CIDs that the root block lists. */
  ghost predicate WritesListed(e: Env, root: Cid, o: Outcome, block: Bytes, pieces: seq<Bytes>) {
    && e.hash(block) == root && e.unmarshal(block).Some?
    && |pieces| <= |e.unmarshal(block).value|
    && Hashes(e, pieces) == e.unmarshal(block).value[..|pieces|]
    && o.written == Join(pieces) && (o.ok <==> |pieces| == |e.unmarshal(block).value|)
  }

  /**
   Integrity for any root, under no assumption on the hash: whatever the providers are and whatever
   they answer, GetFile writes nothing and fails, or it writes blocks whose hashes are the first
   CIDs listed by a block that hashes to the root, all of them exactly when it reports no error.
   */
  lemma GetFileWritesListed(e: Env, net: Net, rootProvs: seq<Endpoint>, lookups: seq<seq<Endpoint>>,
                            store: Store, root: Cid)
    returns (block: Bytes, pieces: seq<Bytes>)
    requires Verified(e, store)
    ensures
      var o := GetFile(e, net, rootProvs, lookups, store, root);
      && Extends(e, store, o.store)
      && ((o.written == "" && !o.ok) || WritesListed(e, root, o, block, pieces))
  {
    block, pieces := "", [];
    ResolveIsVerified(e, net, 0, store, root, rootProvs);
    var r := Resolve(e, net, 0, store, root, rootProvs);
    if r.Fetched? {
      block := r.data;
      if e.unmarshal(block).Some? {
        var cids := e.unmarshal(block).value;
        pieces := CopyWritesListed(e, net, lookups, Cached(e, store, root, block), cids, |cids|);
      }
    }
  }

  /**
   Integrity: when nothing else hashes to the root block or to the blocks it lists, what is written
   is a prefix of those blocks put together, all of it when no error is reported, however the root
   block was made and whoever put it there.
   */
  lemma GetFileIsFixedByRoot(e: Env, net: Net, rootProvs: seq<Endpoint>, lookups: seq<seq<Endpoint>>,
                             store: Store, block: Bytes, pieces: seq<Bytes>)
    requires Verified(e, store) && e.unmarshal(block) == Some(Hashes(e, pieces))
    requires NoSecondPreimage(e, {block}) && NoSecondPreimage(e, set b | b in pieces)
    ensures
      var o := GetFile(e, net, rootProvs, lookups, store, e.hash(block));
      && o.written <= Join(pieces) && (o.ok ==> o.written == Join(pieces))
      && Extends(e, store, o.store)
  {
    var o := GetFile(e, net, rootProvs, lookups, store, e.hash(block));
    var found, written := GetFileWritesListed(e, net, rootProvs, lookups, store, e.hash(block));
    if WritesListed(e, e.hash(block), o, found, written) {
      assert found == block;
      FirstPieces(e, pieces, written);
      JoinPrefix(pieces, |written|);
      assert o.ok ==> pieces[..|written|] == pieces;
    }
  }

  lemma FirstPieces(e: Env, pieces: seq<Bytes>, some: seq<Bytes>)
    requires NoSecondPreimage(e, set b | b in pieces) && |some| <= |pieces|
    requires Hashes(e, some) == Hashes(e, pieces)[..|some|]
    ensures some == pieces[..|some|]
  {
    forall i | 0 <= i < |some| ensures some[i] == pieces[i] {
      assert e.hash(some[i]) == Hashes(e, some)[i] == Hashes(e, pieces)[i] == e.hash(pieces[i]);
      assert pieces[i] in pieces;
    }
  }

  /** In particular a file that AddFile cut and listed is written as it was, or a prefix of it. */
  lemma GetFileIntegrity(e: Env, net: Net, rootProvs: seq<Endpoint>, lookups: seq<seq<Endpoint>>,
                         store: Store, file: Bytes)
    requires e.Valid() && NoSecondPreimage(e, BlockSet(e, file)) && Verified(e, store)
    ensures
      var o := GetFile(e, net, rootProvs, lookups, store, RootCid(e, file));
      && o.written <= file && (o.ok ==> o.written == file)
      && Extends(e, store, o.store)
  {
    RootBlockIsFixed(e, file, RootBlock(e, file));
    SplitLossless(file, CHUNK_SIZE);
    RootBlockIsOnly(e, file);
    GetFileIsFixedByRoot(e, net, rootProvs, lookups, store, RootBlock(e, file), Chunks(file));
  }

  lemma RootBlockIsOnly(e: Env, file: Bytes)
    requires NoSecondPreimage(e, BlockSet(e, file))
    ensures NoSecondPreimage(e, {RootBlock(e, file)})
  {
    assert RootBlock(e, file) in BlocksOf(e, file);
  }

  /** The block behind a root CID can only be the file's own root block. */
  lemma RootBlockIsFixed(e: Env, file: Bytes, block: Bytes)
    requires e.Valid() && NoSecondPreimage(e, BlockSet(e, file)) && e.hash(block) == RootCid(e, file)
    ensures block == RootBlock(e, file) && e.unmarshal(block) == Some(Hashes(e, Chunks(file)))
    ensures NoSecondPreimage(e, set b | b in Chunks(file))
  {
    assert RootBlock(e, file) in BlocksOf(e, file);
    assert forall b | b in Chunks(file) :: b in BlocksOf(e, file);
    assert AreCids(Hashes(e, Chunks(file)));
  }

  /** A block that is at hand locally, or that one of the providers found for it serves. */
  ghost predicate Obtainable(e: Env, net: Net, turn: nat, local: set<Cid>, cid: Cid, provs: seq<Endpoint>) {
    cid in local || exists i: nat :: Serves(e, net, turn, cid, provs, i)
  }

  /** Chunk i is local, repeats an earlier chunk, or is served. */
  ghost predicate ChunkObtainable(e: Env, net: Net, lookups: seq<seq<Endpoint>>, local: set<Cid>,
                                  cids: seq<Cid>, i: nat)
    requires i < |cids|
  {
    Obtainable(e, net, i + 1, AtHand(local, cids, i), cids[i], ProvidersAt(lookups, i))
  }

  ghost predicate ChunksObtainable(e: Env, net: Net, lookups: seq<seq<Endpoint>>, local: set<Cid>,
                                   cids: seq<Cid>, n: nat)
    requires n <= |cids|
  {
    forall i: nat | i < n :: ChunkObtainable(e, net, lookups, local, cids, i)
  }

  /** The CIDs at hand after the first n chunks were copied. */
  ghost function AtHand(local: set<Cid>, cids: seq<Cid>, n: nat): set<Cid>
    requires n <= |cids|
  {
    local + set c | c in cids[..n]
  }

  lemma AtHandStep(local: set<Cid>, cids: seq<Cid>, n: nat)
    requires n < |cids|
    ensures AtHand(local, cids, n + 1) == AtHand(local, cids, n) + {cids[n]}
  {
    assert cids[..n + 1] == cids[..n] + [cids[n]];
  }

  /** Where a copy is: it went well exactly while every chunk was obtainable. */
  ghost predicate CopiedSoFar(e: Env, net: Net, lookups: seq<seq<Endpoint>>, store: Store, cids: seq<Cid>,
                              n: nat, o: Outcome)
    requires n <= |cids|
  {
    && Extends(e, store, o.store)
    && (o.ok <==> ChunksObtainable(e, net, lookups, store.Keys, cids, n))
    && (o.ok ==> o.store.Keys == AtHand(store.Keys, cids, n))
  }

  lemma OneMoreObtainable(e: Env, net: Net, lookups: seq<seq<Endpoint>>, local: set<Cid>, cids: seq<Cid>, n: nat)
    requires n < |cids|
    ensures ChunksObtainable(e, net, lookups, local, cids, n + 1) <==>
            ChunksObtainable(e, net, lookups, local, cids, n) && ChunkObtainable(e, net, lookups, local, cids, n)
  {}

  lemma CopiedOneMore(e: Env, net: Net, lookups: seq<seq<Endpoint>>, store: Store, cids: seq<Cid>, n: nat, o: Outcome)
    requires n < |cids| && CopiedSoFar(e, net, lookups, store, cids, n, o)
    ensures CopiedSoFar(e, net, lookups, store, cids, n + 1,
                        CopyOne(e, net, o, n + 1, cids[n], ProvidersAt(lookups, n)))
  {
    CopyOneContract(e, net, o, n + 1, cids[n], ProvidersAt(lookups, n));
    AtHandStep(store.Keys, cids, n);
    OneMoreObtainable(e, net, lookups, store.Keys, cids, n);
  }

  lemma NothingCopied(e: Env, net: Net, lookups: seq<seq<Endpoint>>, store: Store, cids: seq<Cid>)
    requires Verified(e, store)
    ensures CopiedSoFar(e, net, lookups, store, cids, 0, Outcome("", true, store))
  {
    assert AtHand(store.Keys, cids, 0) == store.Keys;
  }

  lemma {:induction false} CopySucceedsIff(e: Env, net: Net, lookups: seq<seq<Endpoint>>, store: Store,
                                           cids: seq<Cid>, n: nat)
    requires Verified(e, store) && n <= |cids|
    ensures CopiedSoFar(e, net, lookups, store, cids, n, CopyUpTo(e, net, lookups, store, cids, n))
  {
    if n == 0 {
      NothingCopied(e, net, lookups, store, cids);
    } else {
      CopySucceedsIff(e, net, lookups, store, cids, n - 1);
      CopiedOneMore(e, net, lookups, store, cids, n - 1, CopyUpTo(e, net, lookups, store, cids, n - 1));
    }
  }

  lemma ResolveSucceedsIff(e: Env, net: Net, turn: nat, store: Store, cid: Cid, provs: seq<Endpoint>)
    ensures Resolve(e, net, turn, store, cid, provs).Fetched? <==>
            Obtainable(e, net, turn, store.Keys, cid, provs)
  {
    FetchIsExact(e, net, turn, cid, provs, |provs|);
  }

  /**
   Availability: for any root whose block nothing else hashes to, GetFile succeeds exactly when the
   block is a file node and every block that GetFile comes to is at hand or served.
   */
  lemma GetFileSucceedsIff(e: Env, net: Net, rootProvs: seq<Endpoint>, lookups: seq<seq<Endpoint>>,
                           store: Store, block: Bytes)
    requires Verified(e, store) && NoSecondPreimage(e, {block})
    ensures
      var root, cids := e.hash(block), e.unmarshal(block);
      GetFile(e, net, rootProvs, lookups, store, root).ok <==>
        && Obtainable(e, net, 0, store.Keys, root, rootProvs)
        && cids.Some? && ChunksObtainable(e, net, lookups, store.Keys + {root}, cids.value, |cids.value|)
  {
    var root := e.hash(block);
    ResolveIsVerified(e, net, 0, store, root, rootProvs);
    ResolveSucceedsIff(e, net, 0, store, root, rootProvs);
    var r := Resolve(e, net, 0, store, root, rootProvs);
    if r.Fetched? && e.unmarshal(block).Some? {
      var cids := e.unmarshal(block).value;
      CopySucceedsIff(e, net, lookups, Cached(e, store, root, r.data), cids, |cids|);
    }
  }

  lemma FileSucceedsIff(e: Env, net: Net, rootProvs: seq<Endpoint>, lookups: seq<seq<Endpoint>>,
                        store: Store, file: Bytes)
    requires e.Valid() && NoSecondPreimage(e, BlockSet(e, file)) && Verified(e, store)
    ensures
      var root, cids := RootCid(e, file), Hashes(e, Chunks(file));
      GetFile(e, net, rootProvs, lookups, store, root).ok <==>
        && Obtainable(e, net, 0, store.Keys, root, rootProvs)
        && ChunksObtainable(e, net, lookups, store.Keys + {root}, cids, |cids|)
  {
    RootBlockIsFixed(e, file, RootBlock(e, file));
    RootBlockIsOnly(e, file);
    GetFileSucceedsIff(e, net, rootProvs, lookups, store, RootBlock(e, file));
  }

  /** The store holds every block of the file, unaltered. */
  ghost predicate Holds(e: Env, store: Store, file: Bytes) {
    forall b | b in BlocksOf(e, file) :: e.hash(b) in store && store[e.hash(b)] == b
  }

  lemma HoldsExtends(e: Env, store: Store, store': Store, file: Bytes)
    requires Holds(e, store, file) && Extends(e, store, store')
    ensures Holds(e, store', file)
  {}

  /** Puts a list of blocks in order. */
  function PutAll(e: Env, store: Store, blocks: seq<Bytes>): Store {
    if blocks == [] then store
    else Put(e, PutAll(e, store, blocks[..|blocks| - 1]), blocks[|blocks| - 1])
  }

  lemma {:induction false} PutAllStores(e: Env, store: Store, blocks: seq<Bytes>)
    requires Verified(e, store)
    ensures Extends(e, store, PutAll(e, store, blocks))
    ensures forall b | b in blocks :: e.hash(b) in PutAll(e, store, blocks)
  {
    if blocks != [] {
      PutAllStores(e, store, blocks[..|blocks| - 1]);
      assert blocks == blocks[..|blocks| - 1] + [blocks[|blocks| - 1]];
    }
  }

  /** Storing a file's blocks into an honest store makes it hold the file. */
  lemma PutAllHolds(e: Env, store: Store, file: Bytes)
    requires Verified(e, store) && NoSecondPreimage(e, BlockSet(e, file))
    ensures Holds(e, PutAll(e, store, Chunks(file) + [RootBlock(e, file)]), file)
  {
    PutAllStores(e, store, Chunks(file) + [RootBlock(e, file)]);
    forall b | b in BlocksOf(e, file)
      ensures b in Chunks(file) + [RootBlock(e, file)] && b in BlockSet(e, file)
    {}
  }

  lemma {:induction false} HeldChunksRead(e: Env, net: Net, lookups: seq<seq<Endpoint>>, store: Store,
                                          pieces: seq<Bytes>, n: nat)
    requires n <= |pieces|
    requires forall b | b in pieces :: e.hash(b) in store && store[e.hash(b)] == b
    ensures CopyUpTo(e, net, lookups, store, Hashes(e, pieces), n) == Outcome(Join(pieces[..n]), true, store)
  {
    if n == 0 {
      assert pieces[..0] == [];
    } else {
      HeldChunksRead(e, net, lookups, store, pieces, n - 1);
      JoinOneMore(pieces, n - 1);
      assert pieces[n - 1] in pieces;
    }
  }

  /** A file held locally is read back exactly, without asking anyone. */
  lemma HeldFileReads(e: Env, net: Net, rootProvs: seq<Endpoint>, lookups: seq<seq<Endpoint>>,
                      store: Store, file: Bytes)
    requires e.Valid() && Holds(e, store, file)
    ensures GetFile(e, net, rootProvs, lookups, store, RootCid(e, file)) == Outcome(file, true, store)
  {
    var pieces, root, block := Chunks(file), RootCid(e, file), RootBlock(e, file);
    assert root in store && store[root] == block by {
      assert block in BlocksOf(e, file);
    }
    assert e.unmarshal(block) == Some(Hashes(e, pieces)) by {
      assert AreCids(Hashes(e, pieces));
    }
    assert CopyUpTo(e, net, lookups, store, Hashes(e, pieces), |pieces|) == Outcome(file, true, store) by {
      assert forall b | b in pieces :: b in BlocksOf(e, file);
      HeldChunksRead(e, net, lookups, store, pieces, |pieces|);
      SplitLossless(file, CHUNK_SIZE);
      assert pieces[..|pieces|] == pieces;
    }
  }

  /** Round trip: what AddFile stores, GetFile returns, whoever else is on the network. */
  lemma AddThenGet(e: Env, net: Net, rootProvs: seq<Endpoint>, lookups: seq<seq<Endpoint>>,
                   store: Store, file: Bytes)
    requires e.Valid() && Verified(e, store) && NoSecondPreimage(e, BlockSet(e, file))
    ensures var st := PutAll(e, store, Chunks(file) + [RootBlock(e, file)]);
            GetFile(e, net, rootProvs, lookups, st, RootCid(e, file)) == Outcome(file, true, st)
  {
    PutAllHolds(e, store, file);
    HeldFileReads(e, net, rootProvs, lookups, PutAll(e, store, Chunks(file) + [RootBlock(e, file)]), file);
  }
}
