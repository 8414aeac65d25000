/**
 A storage node (internal/coordinator/node.go and grpc_service.go): the local block store, the
 registry, the provider records and the catalog pointer, with the upload and download pipelines
 and the handlers that change them.
 */
module Host {
  import opened Wrappers
  import opened CatalogLine
  import opened Content
  import opened PeerRegistry
  import opened Providers
  import opened Routing
  import opened FailureDetector
  import opened Transfer

  /** A StoreBlock request on its way to an address. */
  datatype Message = Message(addr: string, cid: Cid, data: Bytes)

  /**
   The rest of the network as one node sees it: the reply of a peer to FindProvider in a turn,
   None when that call fails, and the replies to GetBlock calls.
   */
  datatype Remote = Remote(find: (nat, string) -> Option<seq<Endpoint>>, get: Net)

  /** The error of a StoreBlock call for a block to an address, None when it is stored there. */
  type Stored = (Cid, string) -> Option<string>

  /** What ReplicateToAddrs returns: the error of the last call that failed. */
  function LastError(stored: Stored, cid: Cid, addrs: seq<string>): (err: Option<string>)
    ensures err.None? <==> forall a | a in addrs :: stored(cid, a).None?
    ensures err.Some? ==> exists i :: 0 <= i < |addrs| && stored(cid, addrs[i]) == err
                                      && forall j | i < j < |addrs| :: stored(cid, addrs[j]).None?
  {
    if addrs == [] then None
    else
      var last := stored(cid, addrs[|addrs| - 1]);
      assert addrs[..|addrs| - 1] + [addrs[|addrs| - 1]] == addrs;
      if last.Some? then last else LastError(stored, cid, addrs[..|addrs| - 1])
  }

  function AnswersOf(remote: Remote, turn: nat, snap: seq<Peer>): Answers {
    seq(|snap|, i requires 0 <= i < |snap| => remote.find(turn, snap[i].id))
  }

  /** Providers a lookup may return: for some snapshot order and some arrival order. */
  ghost predicate Found(remote: Remote, turn: nat, v: View, t: Table, selfGrpc: string, cid: Cid,
                        provs: seq<Endpoint>)
  {
    exists snap :: IsSnapshot(snap, v)
      && IsLookup(RecordsOf(t, cid), selfGrpc, snap, AnswersOf(remote, turn, snap), provs)
  }

  /** lookups[i] are providers found for cids[i], for the first n of them. */
  ghost predicate AllFound(remote: Remote, v: View, t: Table, selfGrpc: string, cids: seq<Cid>,
                           lookups: seq<seq<Endpoint>>, n: nat)
    requires n <= |cids|
  {
    && n <= |lookups|
    && forall i: nat | i < n :: Found(remote, i + 1, v, t, selfGrpc, cids[i], lookups[i])
  }

  /** The chunk list GetFile works through; empty when it stops before the first chunk. */
  function ChunkList(e: Env, net: Net, rootProvs: seq<Endpoint>, store: Store, root: Cid): seq<Cid> {
    match Resolve(e, net, 0, store, root, rootProvs)
    case Failed(_) => []
    case Fetched(block) => if e.unmarshal(block).Some? then e.unmarshal(block).value else []
  }

  /** An outcome GetFile may have on a node with this registry, these records and this store. */
  ghost predicate IsGetFile(e: Env, remote: Remote, v: View, t: Table, selfGrpc: string, store: Store,
                            root: Cid, o: Outcome)
  {
    exists rootProvs, lookups :: IsReading(e, remote, v, t, selfGrpc, store, root, o, rootProvs, lookups)
  }

  ghost predicate IsReading(e: Env, remote: Remote, v: View, t: Table, selfGrpc: string, store: Store,
                            root: Cid, o: Outcome, rootProvs: seq<Endpoint>, lookups: seq<seq<Endpoint>>)
  {
    var cids := ChunkList(e, remote.get, rootProvs, store, root);
    && (root !in store ==> Found(remote, 0, v, t, selfGrpc, root, rootProvs))
    && AllFound(remote, v, t, selfGrpc, cids, lookups, |cids|)
    && o == GetFile(e, remote.get, rootProvs, lookups, store, root)
  }

  function AnnounceAll(t: Table, cids: seq<Cid>, ep: Endpoint): Table {
    if cids == [] then t
    else Announced(AnnounceAll(t, cids[..|cids| - 1], ep), cids[|cids| - 1], ep)
  }

  lemma {:induction false} AnnounceAllWellFormed(t: Table, cids: seq<Cid>, ep: Endpoint)
    requires WellFormed(t)
    ensures WellFormed(AnnounceAll(t, cids, ep))
  {
    if cids != [] {
      AnnounceAllWellFormed(t, cids[..|cids| - 1], ep);
      assert ep.peerId != "" ==> ep.peerId in AnnounceAll(t, cids, ep)[cids[|cids| - 1]];
    }
  }

  /** Every block of the list is recorded under that endpoint, and no other record changes. */
  lemma {:induction false} AllAnnouncedAt(t: Table, cids: seq<Cid>, ep: Endpoint, c: Cid, id: string)
    ensures EndpointAt(AnnounceAll(t, cids, ep), c, id) ==
            if ep.peerId != "" && id == ep.peerId && c in cids then Some(ep) else EndpointAt(t, c, id)
  {
    if cids != [] {
      var n := |cids| - 1;
      AllAnnouncedAt(t, cids[..n], ep, c, id);
      AnnouncedAt(AnnounceAll(t, cids[..n], ep), cids[n], ep, c, id);
      assert cids == cids[..n] + [cids[n]];
    }
  }

  lemma AnnouncedFor(t: Table, cids: seq<Cid>, selfID: string, grpc: string, http: string)
    ensures forall c, id :: EndpointAt(AnnounceAll(t, cids, Endpoint(selfID, grpc, http)), c, id) ==
              if selfID != "" && id == selfID && c in cids then Some(Endpoint(selfID, grpc, http))
              else EndpointAt(t, c, id)
  {
    forall c, id
      ensures EndpointAt(AnnounceAll(t, cids, Endpoint(selfID, grpc, http)), c, id) ==
                if selfID != "" && id == selfID && c in cids then Some(Endpoint(selfID, grpc, http))
                else EndpointAt(t, c, id)
    {
      AllAnnouncedAt(t, cids, Endpoint(selfID, grpc, http), c, id);
    }
  }

  /** The addresses of the selected peers that have one. */
  function Addresses(v: View, ids: seq<string>): seq<string> {
    if ids == [] then []
    else
      var id := ids[|ids| - 1];
      Addresses(v, ids[..|ids| - 1]) + if id in v && v[id].grpc != "" then [v[id].grpc] else []
  }

  function MessagesTo(addrs: seq<string>, cid: Cid, data: Bytes): seq<Message> {
    seq(|addrs|, i requires 0 <= i < |addrs| => Message(addrs[i], cid, data))
  }

  /** The requests for the first n blocks, block by block; plans[i] are the peers chosen for cids[i]. */
  function Dispatch(v: View, store: Store, cids: seq<Cid>, plans: seq<seq<string>>, n: nat): seq<Message>
    requires n <= |cids| && n <= |plans| && forall c | c in cids :: c in store
  {
    if n == 0 then []
    else Dispatch(v, store, cids, plans, n - 1)
         + MessagesTo(Addresses(v, plans[n - 1]), cids[n - 1], store[cids[n - 1]])
  }

  /** Requests AddFile may send for these blocks. */
  ghost predicate IsReplication(v: View, store: Store, cids: seq<Cid>, k: int, selfID: string,
                                sent: seq<Message>)
    requires forall c | c in cids :: c in store
  {
    exists plans: seq<seq<string>> ::
      && |plans| == |cids| && AllSelected(v, cids, k, selfID, plans)
      && sent == Dispatch(v, store, cids, plans, |cids|)
  }

  function BlockCids(e: Env, file: Bytes): seq<Cid> {
    [RootCid(e, file)] + Hashes(e, Chunks(file))
  }

  // ----- Some lookup always exists: maps can be listed and sets ordered -----

  lemma ListRecords(m: map<string, Endpoint>, keys: set<string>) returns (eps: seq<Endpoint>)
    requires KeyedByPeer(m) && keys <= m.Keys
    ensures DistinctPeers(eps) && PeerIds(eps) == keys
    ensures forall ep | ep in eps :: ep.peerId in m && m[ep.peerId] == ep
    decreases keys
  {
    if keys == {} {
      eps := [];
    } else {
      var id :| id in keys;
      var rest := ListRecords(m, keys - {id});
      eps := rest + [m[id]];
      LastIsNew(rest, m[id]);
      PeerIdsConcat(rest, [m[id]]);
      assert PeerIds([m[id]]) == {id};
    }
  }

  lemma ListPositions(s: set<nat>) returns (order: seq<nat>)
    ensures IsArrival(order, s)
  {
    if s == {} {
      order := [];
    } else {
      var i :| i in s;
      order := ListPositions(s - {i});
      ArrivalStep(order, s - {i}, i);
      order := order + [i];
      assert s - {i} + {i} == s;
    }
  }

  lemma SomeLookup(remote: Remote, turn: nat, v: View, t: Table, selfGrpc: string, cid: Cid, snap: seq<Peer>)
    returns (provs: seq<Endpoint>)
    requires WellFormed(t) && IsSnapshot(snap, v)
    ensures Found(remote, turn, v, t, selfGrpc, cid, provs)
  {
    var listing := ListRecords(RecordsOf(t, cid), RecordsOf(t, cid).Keys);
    var answers := AnswersOf(remote, turn, snap);
    var order := ListPositions(Responders(snap, selfGrpc, answers));
    provs := Dedup(listing + Flatten(answers, order));
    assert IsListing(listing, RecordsOf(t, cid));
    assert IsLookup(RecordsOf(t, cid), selfGrpc, snap, answers, provs);
  }

  class PeerHost {
    const env: Env
    const selfID: string
    const grpcAddr: string
    const httpAddr: string
    const replFactor: int
    const registry: Registry
    const providers: ProviderRecords
    const routes: RoutingTable
    const manager: Manager
    var store: Store
    /** The local catalog pointer; empty when there is no catalog yet. */
    var localCatalogCid: Cid
    /** The entries of all successful local catalog updates, in lock order. */
    ghost var entries: seq<Bytes>

    ghost predicate Valid()
      reads this, registry, providers
    {
      Wired() && CatalogIs(env, entries, localCatalogCid, store)
    }

    /** All of Valid but what it says about the catalog. */
    ghost predicate Wired()
      reads this, registry, providers
    {
      && env.Valid() && registry.Valid() && providers.Valid()
      && registry.self == selfID && routes.reg == registry && manager.registry == registry
      && Verified(env, store)
    }

    constructor (env: Env, selfID: string, grpcAddr: string, httpAddr: string, replFactor: int, now: int)
      requires env.Valid() && selfID != ""
      ensures Valid() && store == map[] && providers.m == map[] && entries == []
      ensures fresh(registry) && fresh(providers)
      ensures this.env == env && this.selfID == selfID
      ensures this.grpcAddr == grpcAddr && this.httpAddr == httpAddr
      ensures this.replFactor == if replFactor < 1 then 3 else replFactor
      ensures registry.peers == map[selfID := Peer(selfID, grpcAddr, httpAddr, Active, now, now)]
    {
      this.env, this.selfID := env, selfID;
      this.grpcAddr, this.httpAddr := grpcAddr, httpAddr;
      this.replFactor := if replFactor < 1 then 3 else replFactor;
      store, localCatalogCid, entries := map[], "", [];
      var reg := new Registry(selfID);
      var ok := reg.Upsert(Peer(selfID, grpcAddr, httpAddr, Active, now, 0), now);
      registry := reg;
      var provs := new ProviderRecords();
      providers := provs;
      var rt := new RoutingTable(reg);
      routes := rt;
      var mgr := new Manager(reg);
      manager := mgr;
    }

    function SelfEndpoint(): Endpoint {
      Endpoint(selfID, grpcAddr, httpAddr)
    }

    /** Writes a block under its hash. */
    method PutBlock(data: Bytes)
      requires Verified(env, store)
      modifies this`store
      ensures store == Put(env, old(store), data) && Verified(env, store)
    {
      if env.hash(data) !in store {
        store := store[env.hash(data) := data];
      }
    }

    /** The providers of a block, by local records and a fan-out to the active peers. */
    method Lookup(remote: Remote, turn: nat, cid: Cid) returns (provs: seq<Endpoint>)
      requires registry.Valid() && providers.Valid()
      ensures Found(remote, turn, registry.peers, providers.m, grpcAddr, cid, provs)
    {
      var snap := registry.Snapshot();
      provs := LookupProviders(providers, grpcAddr, snap, cid, AnswersOf(remote, turn, snap));
    }

    /** The local copy of a block, or one fetched from its providers and then cached. */
    method ResolveBlock(remote: Remote, turn: nat, cid: Cid) returns (r: FetchResult, ghost provs: seq<Endpoint>)
      requires registry.Valid() && providers.Valid() && Verified(env, store)
      modifies this`store
      ensures Found(remote, turn, registry.peers, providers.m, grpcAddr, cid, provs)
      ensures r == Resolve(env, remote.get, turn, old(store), cid, provs)
      ensures store == if r.Fetched? then Cached(env, old(store), cid, r.data) else old(store)
      ensures Verified(env, store)
    {
      if cid in store {
        r := Fetched(store[cid]);
        ghost var snap := AnySnapshot(registry.peers, registry.peers.Keys);
        provs := SomeLookup(remote, turn, registry.peers, providers.m, grpcAddr, cid, snap);
      } else {
        var found := Lookup(remote, turn, cid);
        provs := found;
        r := FetchBlock(env, remote.get, turn, cid, found);
        if r.Fetched? {
          PutBlock(r.data);
        }
      }
    }

    /** The chunk loop of a download; it stops at the first chunk that cannot be resolved. */
    method CopyChunks(remote: Remote, chunks: seq<Cid>)
      returns (written: Bytes, ok: bool, ghost lookups: seq<seq<Endpoint>>)
      requires registry.Valid() && providers.Valid() && Verified(env, store)
      modifies this`store
      ensures ok ==> |lookups| == |chunks|
      ensures CopyState(env, remote, registry.peers, providers.m, grpcAddr, old(store), chunks, lookups,
                        Outcome(written, ok, store))
    {
      written, ok, lookups := "", true, [];
      ghost var v, t, st := registry.peers, providers.m, store;
      CopyStateStart(env, remote, v, t, grpcAddr, st, chunks);
      for i := 0 to |chunks|
        invariant ok && |lookups| == i
        invariant CopyState(env, remote, v, t, grpcAddr, st, chunks, lookups, Outcome(written, ok, store))
      {
        ghost var before, provs := Outcome(written, ok, store), [];
        written, ok, provs := CopyChunk(remote, i + 1, chunks[i], written);
        CopyStateStep(env, remote, v, t, grpcAddr, st, chunks, lookups, before, provs);
        assert Outcome(written, ok, store) == CopyOne(env, remote.get, before, i + 1, chunks[i], provs);
        lookups := lookups + [provs];
        if !ok {
          return;
        }
      }
    }

    /** One chunk is resolved, cached and written. */
    method CopyChunk(remote: Remote, turn: nat, cid: Cid, before: Bytes)
      returns (written: Bytes, ok: bool, ghost provs: seq<Endpoint>)
      requires registry.Valid() && providers.Valid() && Verified(env, store)
      modifies this`store
      ensures Found(remote, turn, registry.peers, providers.m, grpcAddr, cid, provs)
      ensures Outcome(written, ok, store)
           == CopyOne(env, remote.get, Outcome(before, true, old(store)), turn, cid, provs)
      ensures Verified(env, store)
    {
      var r;
      r, provs := ResolveBlock(remote, turn, cid);
      written, ok := if r.Fetched? then before + r.data else before, r.Fetched?;
    }

    /** Streams the file behind root: what was written, and whether it all was. */
    method GetFile(remote: Remote, root: Cid) returns (written: Bytes, ok: bool)
      requires Valid()
      modifies this`store
      ensures Valid() && Extends(env, old(store), store)
      ensures IsGetFile(env, remote, registry.peers, providers.m, grpcAddr, old(store), root,
                        Outcome(written, ok, store))
    {
      ghost var rootProvs;
      written, ok, rootProvs := ReadFile(remote, root);
      ghost var o := Outcome(written, ok, store);
      ReadingExtends(env, remote, registry.peers, providers.m, grpcAddr, old(store), root, o);
      CatalogKept(env, entries, localCatalogCid, old(store), store);
    }

    method ReadFile(remote: Remote, root: Cid)
      returns (written: Bytes, ok: bool, ghost rootProvs: seq<Endpoint>)
      requires registry.Valid() && providers.Valid() && Verified(env, store)
      modifies this`store
      ensures IsGetFile(env, remote, registry.peers, providers.m, grpcAddr, old(store), root,
                        Outcome(written, ok, store))
    {
      var r;
      r, rootProvs := ResolveBlock(remote, 0, root);
      written, ok := "", false;
      ghost var lookups: seq<seq<Endpoint>> := [];
      if r.Fetched? && env.unmarshal(r.data).Some? {
        ghost var cached := store;
        var chunks := env.unmarshal(r.data).value;
        written, ok, lookups := CopyChunks(remote, chunks);
        lookups := PadLookups(env, remote, registry.peers, providers.m, grpcAddr, cached, chunks, lookups,
                              Outcome(written, ok, store));
      }
      assert IsReading(env, remote, registry.peers, providers.m, grpcAddr, old(store), root,
                       Outcome(written, ok, store), rootProvs, lookups);
    }

    /** The chunker: reads the file piece by piece and stores each piece. */
    method PutFile(file: Bytes) returns (chunks: seq<Cid>)
      requires Verified(env, store)
      modifies this`store
      ensures chunks == Hashes(env, Chunks(file))
      ensures store == PutAll(env, old(store), Chunks(file)) && Verified(env, store)
    {
      chunks := [];
      ghost var pieces: seq<Bytes> := [];
      var rest := file;
      while rest != ""
        invariant PutSoFar(env, old(store), file, pieces, rest, chunks, store)
        decreases |rest|
      {
        var piece := if |rest| <= CHUNK_SIZE then rest else rest[..CHUNK_SIZE];
        PutOneMore(env, old(store), file, pieces, rest, chunks, store, piece);
        PutBlock(piece);
        chunks := chunks + [env.hash(piece)];
        pieces := pieces + [piece];
        rest := rest[|piece|..];
      }
      assert pieces + Chunks("") == pieces;
    }

    /** Stores the chunks and the root block; returns their CIDs, the root first. */
    method StoreFile(file: Bytes) returns (cids: seq<Cid>)
      requires env.Valid() && Verified(env, store)
      modifies this`store
      ensures cids == BlockCids(env, file)
      ensures store == PutAll(env, old(store), Chunks(file) + [RootBlock(env, file)])
      ensures Extends(env, old(store), store) && AllStored(env, store, file)
    {
      var chunks := PutFile(file);
      var nodeBytes := EncodeFileNode(chunks);
      AddedFile(env, old(store), file);
      PutBlock(nodeBytes);
      cids := [env.hash(nodeBytes)] + chunks;
    }

    method Announce(cids: seq<Cid>)
      requires providers.Valid()
      modifies providers
      ensures providers.Valid()
      ensures providers.m == AnnounceAll(old(providers.m), cids, SelfEndpoint())
    {
      for i := 0 to |cids|
        invariant providers.Valid()
        invariant providers.m == AnnounceAll(old(providers.m), cids[..i], SelfEndpoint())
      {
        assert cids[..i + 1][..i] == cids[..i];
        providers.Add(cids[i], SelfEndpoint());
      }
      assert cids[..|cids|] == cids;
    }

    /** One StoreBlock request to each address; errors are collected and do not stop the loop. */
    static method ReplicateToAddrs(addrs: seq<string>, cid: Cid, data: Bytes, stored: Stored)
      returns (sent: seq<Message>, lastErr: Option<string>)
      ensures sent == MessagesTo(addrs, cid, data) && lastErr == LastError(stored, cid, addrs)
    {
      sent, lastErr := [], None;
      for i := 0 to |addrs|
        invariant sent == MessagesTo(addrs[..i], cid, data) && lastErr == LastError(stored, cid, addrs[..i])
      {
        assert addrs[..i + 1][..i] == addrs[..i];
        sent := sent + [Message(addrs[i], cid, data)];
        var err := stored(cid, addrs[i]);
        if err.Some? {
          lastErr := err;
        }
      }
      assert addrs[..|addrs|] == addrs;
    }

    /** The requests that push one block to the peers closest to it. */
    method Replicate(cid: Cid, data: Bytes, stored: Stored)
      returns (sent: seq<Message>, lastErr: Option<string>, ghost plan: seq<string>)
      requires registry.Valid() && routes.reg == registry && IsCid(cid)
      ensures IsSelection(registry.peers, cid, replFactor, selfID, plan)
      ensures sent == MessagesTo(Addresses(registry.peers, plan), cid, data)
      ensures lastErr == LastError(stored, cid, Addresses(registry.peers, plan))
    {
      var ids := routes.SelectReplicaPeerIDs(cid, replFactor, selfID);
      plan := ids.value;
      var addrs: seq<string> := [];
      for i := 0 to |ids.value|
        invariant addrs == Addresses(registry.peers, ids.value[..i])
      {
        assert ids.value[..i + 1][..i] == ids.value[..i];
        var rec := registry.Get(ids.value[i]);
        if rec.Some? && rec.value.grpc != "" {
          addrs := addrs + [rec.value.grpc];
        }
      }
      assert ids.value[..|ids.value|] == ids.value;
      sent, lastErr := ReplicateToAddrs(addrs, cid, data, stored);
    }

    /** The replication loop over the root and the chunks; what fails is logged and forgotten. */
    method ReplicateAll(cids: seq<Cid>, stored: Stored) returns (sent: seq<Message>)
      requires registry.Valid() && routes.reg == registry
      requires forall c | c in cids :: IsCid(c) && c in store
      ensures IsReplication(registry.peers, store, cids, replFactor, selfID, sent)
    {
      sent := [];
      ghost var plans: seq<seq<string>> := [];
      for i := 0 to |cids|
        invariant |plans| == i && Planned(registry.peers, store, cids, replFactor, selfID, plans, sent)
      {
        var msgs, _, plan := Replicate(cids[i], store[cids[i]], stored);
        PlanOneMore(registry.peers, store, cids, replFactor, selfID, plans, plan, sent);
        plans := plans + [plan];
        sent := sent + msgs;
      }
    }

    /**
     Uploads a file: chunks and root block into the local store, all of them announced, and one
     replication request per block and selected peer. Failed requests are ignored.
     */
    method AddFile(file: Bytes, stored: Stored) returns (root: Cid, sent: seq<Message>)
      requires Valid()
      modifies this`store, providers
      ensures Valid() && root == RootCid(env, file)
      ensures store == PutAll(env, old(store), Chunks(file) + [RootBlock(env, file)])
      ensures Extends(env, old(store), store)
      ensures providers.m == AnnounceAll(old(providers.m), BlockCids(env, file), SelfEndpoint())
      ensures forall c, id :: EndpointAt(providers.m, c, id) ==
                if selfID != "" && id == selfID && c in BlockCids(env, file)
                then Some(Endpoint(selfID, grpcAddr, httpAddr)) else EndpointAt(old(providers.m), c, id)
      ensures AllStored(env, store, file)
      ensures IsReplication(registry.peers, store, BlockCids(env, file), replFactor, selfID, sent)
    {
      AnnouncedFor(providers.m, BlockCids(env, file), selfID, grpcAddr, httpAddr);
      root, sent := Upload(file, stored);
      CatalogKept(env, entries, localCatalogCid, old(store), store);
    }

    method Upload(file: Bytes, stored: Stored) returns (root: Cid, sent: seq<Message>)
      requires Wired()
      modifies this`store, providers
      ensures Wired() && root == RootCid(env, file)
      ensures store == PutAll(env, old(store), Chunks(file) + [RootBlock(env, file)])
      ensures Extends(env, old(store), store)
      ensures providers.m == AnnounceAll(old(providers.m), BlockCids(env, file), SelfEndpoint())
      ensures AllStored(env, store, file)
      ensures IsReplication(registry.peers, store, BlockCids(env, file), replFactor, selfID, sent)
    {
      var cids := StoreFile(file);
      root := cids[0];
      Announce(cids);
      sent := ReplicateAll(cids, stored);
    }

    /** The StoreBlock handler: stores the data under its hash and announces the CID it was sent as. */
    method StoreBlock(cid: Cid, data: Bytes) returns (ok: bool)
      requires Valid()
      modifies this`store, providers
      ensures Valid() && (ok <==> IsCid(cid))
      ensures ok ==> store == Put(env, old(store), data)
                     && providers.m == Announced(old(providers.m), cid, SelfEndpoint())
      ensures !ok ==> store == old(store) && providers.m == old(providers.m)
    {
      if cid == "" {
        return false;
      }
      if !IsCid(cid) {
        return false;
      }
      Accept(cid, data);
      CatalogKept(env, entries, localCatalogCid, old(store), store);
      return true;
    }

    method Accept(cid: Cid, data: Bytes)
      requires Wired()
      modifies this`store, providers
      ensures Wired() && Extends(env, old(store), store)
      ensures store == Put(env, old(store), data)
      ensures providers.m == Announced(old(providers.m), cid, SelfEndpoint())
    {
      PutBlock(data);
      providers.Add(cid, SelfEndpoint());
    }

    /** The GetBlock handler; an empty answer carries an error message. */
    method GetBlock(cid: Cid) returns (data: Option<Bytes>)
      ensures data == if cid == "" then None else if cid in store then Some(store[cid]) else Some("")
    {
      if cid == "" {
        return None;
      }
      data := Some(if cid in store then store[cid] else "");
    }

    /** The FindProvider handler. */
    method FindProvider(cid: Cid) returns (provs: seq<Endpoint>)
      requires providers.Valid()
      ensures if cid == "" then provs == [] else IsListing(provs, RecordsOf(providers.m, cid))
    {
      if cid == "" {
        return [];
      }
      provs := providers.Get(cid);
    }

    /** The AddProvider handler: whatever endpoint the caller names is recorded. */
    method AddProvider(cid: Cid, provider: Option<Endpoint>) returns (ok: bool)
      requires Valid()
      modifies providers
      ensures Valid() && (ok <==> cid != "" && provider.Some?)
      ensures providers.m == if ok then Announced(old(providers.m), cid, provider.value) else old(providers.m)
    {
      if cid == "" || provider.None? {
        return false;
      }
      providers.Add(cid, provider.value);
      return true;
    }

    /** The Ping and Heartbeat handlers. */
    method Ping(peerId: string, now: int)
      requires Valid()
      modifies registry
      ensures Valid()
      ensures registry.peers ==
              if peerId == "" then old(registry.peers) else Touched(old(registry.peers), peerId, now)
    {
      if peerId != "" {
        registry.Touch(peerId, now);
      }
    }

    /** The LeaveNetwork handler. */
    method LeaveNetwork(peerId: string) returns (ok: bool)
      requires Valid()
      modifies registry
      ensures Valid() && (ok <==> peerId != "")
      ensures registry.peers == if ok then old(registry.peers) - {peerId} else old(registry.peers)
    {
      if peerId == "" {
        return false;
      }
      manager.Leave(peerId);
      return true;
    }

    /**
     The JoinNetwork handler: the caller is upserted as Active and told of every known peer. The
     record is stamped before the registry is locked.
     */
    method JoinNetwork(caller: Endpoint, stamp: int, now: int) returns (accepted: bool, known: seq<Endpoint>)
      requires Valid()
      modifies registry
      ensures Valid()
      ensures UpsertStep(old(registry.peers), Joining(caller, stamp), now, accepted, registry.peers)
      ensures accepted ==> caller.peerId in registry.peers && IsJoined(registry.peers[caller.peerId], caller, stamp)
      ensures !accepted ==> known == [] && registry.peers == old(registry.peers)
      ensures accepted ==> ListsAll(known, registry.peers)
    {
      known := [];
      accepted := registry.Upsert(Joining(caller, stamp), now);
      if accepted {
        var snap := registry.Snapshot();
        known := KnownPeers(snap);
        EndpointsListAll(snap, registry.peers);
      }
    }

    static method KnownPeers(snap: seq<Peer>) returns (known: seq<Endpoint>)
      ensures known == EndpointsOf(snap)
    {
      known := [];
      for i := 0 to |snap|
        invariant known == EndpointsOf(snap[..i])
      {
        known := known + [Endpoint(snap[i].id, snap[i].grpc, snap[i].http)];
      }
      assert snap[..|snap|] == snap;
    }

    /**
     UpdateGlobalCatalog without Redis: under the node's own lock, reads the current catalog,
     appends one entry and uploads the result. tempFileOk is whether the temporary file is
     created and written.
     */
    method UpdateLocalCatalog(remote: Remote, stored: Stored, name: string, cid: Cid, size: int, ext: string,
                              tempFileOk: bool)
      returns (newCid: Option<Cid>, sent: seq<Message>)
      requires Valid()
      requires NoSecondPreimage(env, BlockSet(env, Join(entries + [Entry(name, cid, size, ext)])))
      modifies this, providers
      ensures Valid()
      ensures tempFileOk ==> newCid == Some(localCatalogCid) && entries == old(entries) + [Entry(name, cid, size, ext)]
      ensures !tempFileOk ==> newCid.None? && localCatalogCid == old(localCatalogCid) && entries == old(entries)
    {
      var current := ReadCatalog(remote);
      var entry := Entry(name, cid, size, ext);
      var newCatalog := current + entry;
      if !tempFileOk {
        return None, [];
      }
      var root;
      root, sent := PublishCatalog(newCatalog, entry, stored);
      newCid := Some(root);
    }

    /** Uploads the grown catalog and moves the pointer to it. */
    method PublishCatalog(newCatalog: Bytes, ghost entry: Bytes, stored: Stored)
      returns (root: Cid, sent: seq<Message>)
      requires Wired() && newCatalog == Join(entries) + entry
      requires NoSecondPreimage(env, BlockSet(env, newCatalog))
      modifies this, providers
      ensures Valid() && entries == old(entries) + [entry] && root == localCatalogCid
    {
      root, sent := UploadCatalog(newCatalog, entries, entry, stored);
      localCatalogCid, entries := root, entries + [entry];
    }

    method UploadCatalog(newCatalog: Bytes, ghost before: seq<Bytes>, ghost entry: Bytes, stored: Stored)
      returns (root: Cid, sent: seq<Message>)
      requires Wired() && newCatalog == Join(before) + entry
      requires NoSecondPreimage(env, BlockSet(env, newCatalog))
      modifies this`store, providers
      ensures Wired() && CatalogIs(env, before + [entry], root, store)
    {
      CatalogPublished(env, before, entry, store);
      root, sent := Upload(newCatalog, stored);
    }

    /** The current catalog; a fetch that fails would start a new one. */
    method ReadCatalog(remote: Remote) returns (current: Bytes)
      requires Valid()
      modifies this`store
      ensures Valid() && current == Join(entries)
    {
      current := "";
      if localCatalogCid != "" {
        var written, ok := GetFile(remote, localCatalogCid);
        CatalogReadsBack(remote, old(store), Outcome(written, ok, store));
        if ok {
          current := written;
        }
      }
    }

    lemma CatalogReadsBack(remote: Remote, st: Store, o: Outcome)
      requires env.Valid() && entries != [] && Holds(env, st, Join(entries))
      requires IsGetFile(env, remote, registry.peers, providers.m, grpcAddr, st,
                         RootCid(env, Join(entries)), o)
      ensures o == Outcome(Join(entries), true, st)
    {
      var rootProvs, lookups :| IsReading(env, remote, registry.peers, providers.m, grpcAddr, st,
                                          RootCid(env, Join(entries)), o, rootProvs, lookups);
      HeldFileReads(env, remote.get, rootProvs, lookups, st, Join(entries));
    }
  }

  /** The record a JoinNetwork call or a gossiped endpoint is upserted as. */
  function Joining(ep: Endpoint, stamp: int): Peer {
    Peer(ep.peerId, ep.grpc, ep.http, Active, stamp, 0)
  }

  function EndpointsOf(snap: seq<Peer>): seq<Endpoint> {
    seq(|snap|, i requires 0 <= i < |snap| => Endpoint(snap[i].id, snap[i].grpc, snap[i].http))
  }

  /** The entry of a peer that has just joined: Active, where it says it is, and just seen. */
  predicate IsJoined(p: Peer, ep: Endpoint, stamp: int) {
    && p.id == ep.peerId && p.grpc == ep.grpc && p.http == ep.http
    && p.state == Active && p.lastSeen == stamp
  }

  /** Every peer of the registry is listed once, with its addresses, and nobody else. */
  ghost predicate ListsAll(known: seq<Endpoint>, v: View) {
    && |known| == |v| && DistinctPeers(known)
    && forall ep :: ep in known <==> ep.peerId in v && ep.grpc == v[ep.peerId].grpc && ep.http == v[ep.peerId].http
  }

  lemma SnapshotSize(snap: seq<Peer>, v: View)
    requires IsSnapshot(snap, v)
    ensures |snap| == |v|
  {
    DistinctCount(EndpointsOf(snap));
    assert PeerIds(EndpointsOf(snap)) == Ids(snap) by {
      forall id | id in Ids(snap) ensures id in PeerIds(EndpointsOf(snap)) {
        var i :| 0 <= i < |snap| && snap[i].id == id;
        assert EndpointsOf(snap)[i].peerId == id;
      }
    }
    assert |v.Keys| == |v|;
  }

  lemma EndpointsListAll(snap: seq<Peer>, v: View)
    requires IsSnapshot(snap, v) && WellKeyed(v)
    ensures ListsAll(EndpointsOf(snap), v)
  {
    SnapshotSize(snap, v);
    forall ep: Endpoint | ep.peerId in v && ep.grpc == v[ep.peerId].grpc && ep.http == v[ep.peerId].http
      ensures ep in EndpointsOf(snap)
    {
      SnapshotMembers(snap, v, ep.peerId);
      var i :| 0 <= i < |snap| && snap[i] == v[ep.peerId];
      assert EndpointsOf(snap)[i] == ep;
    }
  }

  /** The catalog pointer is the root of a locally held file: the entries one after the other. */
  ghost predicate CatalogIs(e: Env, entries: seq<Bytes>, pointer: Cid, store: Store) {
    if entries == [] then pointer == ""
    else pointer == RootCid(e, Join(entries)) && Holds(e, store, Join(entries))
  }

  lemma CatalogKept(e: Env, entries: seq<Bytes>, pointer: Cid, store: Store, store': Store)
    requires CatalogIs(e, entries, pointer, store) && Extends(e, store, store')
    ensures CatalogIs(e, entries, pointer, store')
  {
    if entries != [] {
      HoldsExtends(e, store, store', Join(entries));
    }
  }

  lemma CatalogPublished(e: Env, entries: seq<Bytes>, entry: Bytes, store: Store)
    requires Verified(e, store) && NoSecondPreimage(e, BlockSet(e, Join(entries) + entry))
    ensures
      var file := Join(entries) + entry;
      CatalogIs(e, entries + [entry], RootCid(e, file),
                PutAll(e, store, Chunks(file) + [RootBlock(e, file)]))
  {
    JoinLast(entries, entry);
    PutAllHolds(e, store, Join(entries) + entry);
  }

  /** The chunker after some pieces: they are stored, and the rest of the file is still to be cut. */
  ghost predicate PutSoFar(e: Env, st0: Store, file: Bytes, pieces: seq<Bytes>, rest: Bytes,
                           chunks: seq<Cid>, st: Store)
  {
    && Chunks(file) == pieces + Chunks(rest) && chunks == Hashes(e, pieces)
    && st == PutAll(e, st0, pieces) && Verified(e, st)
  }

  lemma PutOneMore(e: Env, st0: Store, file: Bytes, pieces: seq<Bytes>, rest: Bytes,
                   chunks: seq<Cid>, st: Store, piece: Bytes)
    requires PutSoFar(e, st0, file, pieces, rest, chunks, st) && rest != ""
    requires piece == if |rest| <= CHUNK_SIZE then rest else rest[..CHUNK_SIZE]
    ensures PutSoFar(e, st0, file, pieces + [piece], rest[|piece|..], chunks + [e.hash(piece)],
                     Put(e, st, piece))
  {
    CutOneMore(rest, piece);
    assert pieces + Chunks(rest) == pieces + [piece] + Chunks(rest[|piece|..]);
    PutLast(e, st0, pieces, piece);
    assert Hashes(e, pieces + [piece]) == Hashes(e, pieces) + [e.hash(piece)];
  }

  lemma CutOneMore(rest: Bytes, piece: Bytes)
    requires rest != "" && piece == if |rest| <= CHUNK_SIZE then rest else rest[..CHUNK_SIZE]
    ensures Chunks(rest) == [piece] + Chunks(rest[|piece|..])
  {}

  lemma PutLast(e: Env, st0: Store, pieces: seq<Bytes>, piece: Bytes)
    ensures PutAll(e, st0, pieces + [piece]) == Put(e, PutAll(e, st0, pieces), piece)
  {
    assert (pieces + [piece])[..|pieces|] == pieces;
  }

  /** Where the replication loop is: a selection for each block so far, and their requests. */
  ghost predicate Planned(v: View, store: Store, cids: seq<Cid>, k: int, selfID: string,
                          plans: seq<seq<string>>, sent: seq<Message>)
    requires forall c | c in cids :: c in store
  {
    && |plans| <= |cids| && AllSelected(v, cids, k, selfID, plans)
    && sent == Dispatch(v, store, cids, plans, |plans|)
  }

  ghost predicate AllSelected(v: View, cids: seq<Cid>, k: int, selfID: string, plans: seq<seq<string>>)
    requires |plans| <= |cids|
  {
    forall i | 0 <= i < |plans| :: IsSelection(v, cids[i], k, selfID, plans[i])
  }

  lemma SelectOneMore(v: View, cids: seq<Cid>, k: int, selfID: string, plans: seq<seq<string>>,
                      plan: seq<string>)
    requires |plans| < |cids| && AllSelected(v, cids, k, selfID, plans)
    requires IsSelection(v, cids[|plans|], k, selfID, plan)
    ensures AllSelected(v, cids, k, selfID, plans + [plan])
  {
    var all := plans + [plan];
    forall i | 0 <= i < |all| ensures IsSelection(v, cids[i], k, selfID, all[i]) {
      assert i < |plans| ==> all[i] == plans[i];
    }
  }

  lemma PlanOneMore(v: View, store: Store, cids: seq<Cid>, k: int, selfID: string,
                    plans: seq<seq<string>>, plan: seq<string>, sent: seq<Message>)
    requires forall c | c in cids :: c in store
    requires Planned(v, store, cids, k, selfID, plans, sent) && |plans| < |cids|
    requires IsSelection(v, cids[|plans|], k, selfID, plan)
    ensures Planned(v, store, cids, k, selfID, plans + [plan],
                    sent + MessagesTo(Addresses(v, plan), cids[|plans|], store[cids[|plans|]]))
  {
    DispatchOneMore(v, store, cids, plans, plan);
    SelectOneMore(v, cids, k, selfID, plans, plan);
  }

  lemma DispatchOneMore(v: View, store: Store, cids: seq<Cid>, plans: seq<seq<string>>, plan: seq<string>)
    requires |plans| < |cids| && forall c | c in cids :: c in store
    ensures Dispatch(v, store, cids, plans + [plan], |plans + [plan]|)
         == Dispatch(v, store, cids, plans, |plans|)
            + MessagesTo(Addresses(v, plan), cids[|plans|], store[cids[|plans|]])
  {
    DispatchIgnoresLater(v, store, cids, plans, plan, |plans|);
  }

  ghost predicate AllStored(e: Env, store: Store, file: Bytes) {
    forall c | c in BlockCids(e, file) :: IsCid(c) && c in store
  }

  lemma {:induction false} DispatchIgnoresLater(v: View, store: Store, cids: seq<Cid>,
                                                plans: seq<seq<string>>, plan: seq<string>, n: nat)
    requires n <= |cids| && n <= |plans| && forall c | c in cids :: c in store
    ensures Dispatch(v, store, cids, plans + [plan], n) == Dispatch(v, store, cids, plans, n)
  {
    if n > 0 {
      DispatchIgnoresLater(v, store, cids, plans, plan, n - 1);
    }
  }

  lemma AddedFile(e: Env, store: Store, file: Bytes)
    requires e.Valid() && Verified(e, store)
    ensures
      var st := PutAll(e, store, Chunks(file) + [RootBlock(e, file)]);
      && Extends(e, store, st) && AllStored(e, st, file)
      && st == Put(e, PutAll(e, store, Chunks(file)), RootBlock(e, file))
  {
    var blocks := Chunks(file) + [RootBlock(e, file)];
    assert blocks[..|blocks| - 1] == Chunks(file);
    PutAllStores(e, store, blocks);
    forall c | c in BlockCids(e, file) ensures IsCid(c) && c in PutAll(e, store, blocks) {
      var b := BlockOfCid(e, file, c);
      assert b in blocks;
    }
  }

  lemma BlockOfCid(e: Env, file: Bytes, c: Cid) returns (b: Bytes)
    requires c in BlockCids(e, file)
    ensures b in BlocksOf(e, file) && e.hash(b) == c
  {
    var i :| 0 <= i < |BlockCids(e, file)| && BlockCids(e, file)[i] == c;
    b := BlocksOf(e, file)[i];
  }

  /** Where a download is after one lookup per chunk so far. */
  ghost predicate CopyState(e: Env, remote: Remote, v: View, t: Table, selfGrpc: string, store: Store,
                            chunks: seq<Cid>, lookups: seq<seq<Endpoint>>, o: Outcome)
  {
    && |lookups| <= |chunks| && Verified(e, o.store)
    && AllFound(remote, v, t, selfGrpc, chunks, lookups, |lookups|)
    && o == CopyUpTo(e, remote.get, lookups, store, chunks, |lookups|)
  }

  lemma CopyStateStart(e: Env, remote: Remote, v: View, t: Table, selfGrpc: string, store: Store,
                       chunks: seq<Cid>)
    requires Verified(e, store)
    ensures CopyState(e, remote, v, t, selfGrpc, store, chunks, [], Outcome("", true, store))
  {}

  lemma CopyStateStep(e: Env, remote: Remote, v: View, t: Table, selfGrpc: string, store: Store,
                      chunks: seq<Cid>, lookups: seq<seq<Endpoint>>, o: Outcome, provs: seq<Endpoint>)
    requires CopyState(e, remote, v, t, selfGrpc, store, chunks, lookups, o) && |lookups| < |chunks|
    requires Found(remote, |lookups| + 1, v, t, selfGrpc, chunks[|lookups|], provs)
    ensures CopyState(e, remote, v, t, selfGrpc, store, chunks, lookups + [provs],
                      CopyOne(e, remote.get, o, |lookups| + 1, chunks[|lookups|], provs))
  {
    CopyOneMore(e, remote.get, lookups, provs, store, chunks);
    CopyOneContract(e, remote.get, o, |lookups| + 1, chunks[|lookups|], provs);
    FoundAppend(remote, v, t, selfGrpc, chunks, lookups, provs);
  }

  lemma CopyOneMore(e: Env, net: Net, lookups: seq<seq<Endpoint>>, provs: seq<Endpoint>, store: Store,
                    chunks: seq<Cid>)
    requires |lookups| < |chunks|
    ensures CopyUpTo(e, net, lookups + [provs], store, chunks, |lookups + [provs]|)
         == CopyOne(e, net, CopyUpTo(e, net, lookups, store, chunks, |lookups|), |lookups| + 1,
                    chunks[|lookups|], provs)
  {
    CopyIgnoresLaterLookups(e, net, lookups, [provs], store, chunks, |lookups|);
  }

  lemma FoundAppend(remote: Remote, v: View, t: Table, selfGrpc: string, cids: seq<Cid>,
                    lookups: seq<seq<Endpoint>>, provs: seq<Endpoint>)
    requires |lookups| < |cids| && AllFound(remote, v, t, selfGrpc, cids, lookups, |lookups|)
    requires Found(remote, |lookups| + 1, v, t, selfGrpc, cids[|lookups|], provs)
    ensures AllFound(remote, v, t, selfGrpc, cids, lookups + [provs], |lookups| + 1)
  {
    var all := lookups + [provs];
    forall i: nat | i < |all| ensures Found(remote, i + 1, v, t, selfGrpc, cids[i], all[i]) {
      assert i < |lookups| ==> all[i] == lookups[i];
    }
  }

  /** Some lookups for the chunks a failed download never came to; they change nothing. */
  lemma PadLookups(e: Env, remote: Remote, v: View, t: Table, selfGrpc: string, store: Store,
                   chunks: seq<Cid>, lookups: seq<seq<Endpoint>>, o: Outcome)
    returns (full: seq<seq<Endpoint>>)
    requires WellKeyed(v) && WellFormed(t)
    requires CopyState(e, remote, v, t, selfGrpc, store, chunks, lookups, o)
    requires |lookups| < |chunks| ==> !o.ok
    ensures |full| == |chunks| && CopyState(e, remote, v, t, selfGrpc, store, chunks, full, o)
    decreases |chunks| - |lookups|
  {
    if |lookups| == |chunks| {
      full := lookups;
    } else {
      var n := |lookups|;
      var snap := AnySnapshot(v, v.Keys);
      var provs := SomeLookup(remote, n + 1, v, t, selfGrpc, chunks[n], snap);
      CopyStateStep(e, remote, v, t, selfGrpc, store, chunks, lookups, o, provs);
      full := PadLookups(e, remote, v, t, selfGrpc, store, chunks, lookups + [provs], o);
    }
  }

  /** A download only adds honest blocks to the store. */
  lemma ReadingExtends(e: Env, remote: Remote, v: View, t: Table, selfGrpc: string, store: Store,
                       root: Cid, o: Outcome)
    requires Verified(e, store) && IsGetFile(e, remote, v, t, selfGrpc, store, root, o)
    ensures Extends(e, store, o.store)
  {
    var rootProvs, lookups :| IsReading(e, remote, v, t, selfGrpc, store, root, o, rootProvs, lookups);
    ResolveIsVerified(e, remote.get, 0, store, root, rootProvs);
    var r := Resolve(e, remote.get, 0, store, root, rootProvs);
    if r.Fetched? && e.unmarshal(r.data).Some? {
      var chunks := e.unmarshal(r.data).value;
      CopySucceedsIff(e, remote.get, lookups, Cached(e, store, root, r.data), chunks, |chunks|);
    }
  }
}
