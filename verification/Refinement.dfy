/**
 The steps of the runs are what the methods do: each action is performed by the methods of the
 program's own objects, and a node that has just started is a state from which runs may start.
 */
module Refinement {
  import opened Wrappers
  import opened Content
  import opened PeerRegistry
  import opened Providers
  import opened FailureDetector
  import opened Transfer
  import opened Host
  import A = Availability
  import L = Lifecycle
  import N = Network

  function NodeOf(registry: Registry, provs: ProviderRecords, now: int): L.Node
    reads registry, provs
  {
    L.Node(registry.self, registry.peers, provs.m, now)
  }

  /** When an action can be taken at all. */
  predicate Enabled(a: L.Action, now: int) {
    && (a.Tick? ==> a.to >= now)
    && (a.DoUpsert? ==> a.rec.state.Active? && a.rec.lastSeen <= now)
  }

  /** Every action on one node's registry and records. */
  method Perform(manager: Manager, provs: ProviderRecords, now: int, a: L.Action) returns (later: int)
    requires manager.registry.Valid() && provs.Valid() && Enabled(a, now)
    modifies manager.registry, provs
    ensures manager.registry.Valid() && provs.Valid()
    ensures L.Next(old(NodeOf(manager.registry, provs, now)), a, NodeOf(manager.registry, provs, later))
  {
    later := now;
    match a {
      case Tick(to) => later := to;
      case DoUpsert(rec) => var _ := manager.registry.Upsert(rec, now);
      case DoTouch(id) => manager.registry.Touch(id, now);
      case DoLeave(id) =>
        L.LeaveOnlyRemoves(manager.registry.peers, id);
        manager.Leave(id);
      case DoSweep => manager.Sweep(now);
      case DoCleanup => CleanupPass(manager.registry, provs, now);
      case Announce(cid, ep) => provs.Add(cid, ep);
    }
  }

  function MemberOf(h: PeerHost): N.Member
    reads h, h.registry, h.providers
  {
    N.Member(h.selfID, h.grpcAddr, h.httpAddr, h.replFactor, h.store, h.providers.m, h.registry.peers, true)
  }

  ghost predicate Runs(w: N.World, h: PeerHost)
    reads h, h.registry, h.providers
  {
    h.Valid() && h.selfID in w.nodes && w.nodes[h.selfID] == MemberOf(h)
  }

  /** A node that has just started, alone: both kinds of run may start from it. */
  method Start(env: Env, selfID: string, grpcAddr: string, httpAddr: string, replFactor: int, now: int)
    returns (h: PeerHost)
    requires env.Valid() && selfID != ""
    ensures fresh(h) && h.Valid()
    ensures L.Inv(NodeOf(h.registry, h.providers, now))
    ensures N.Inv(env, N.World(map[selfID := MemberOf(h)], {}))
  {
    h := new PeerHost(env, selfID, grpcAddr, httpAddr, replFactor, now);
  }

  method Upload(h: PeerHost, ghost w: N.World, file: Bytes, stored: Stored)
    returns (root: Cid, sent: seq<Message>, ghost w': N.World)
    requires Runs(w, h)
    modifies h`store, h.providers
    ensures Runs(w', h) && N.Next(h.env, w, N.Upload(h.selfID, file, sent), w')
  {
    ghost var n := MemberOf(h);
    root, sent := h.AddFile(file, stored);
    assert MemberOf(h) == N.Uploaded(h.env, n, file);
    assert N.IsUpload(h.env, n, file, sent);
    w' := AfterUpload(h.env, w, h.selfID, file, sent);
  }

  lemma AfterUpload(e: Env, w: N.World, at: string, file: Bytes, sent: seq<Message>) returns (w': N.World)
    requires N.Runs(w, at) && N.IsUpload(e, w.nodes[at], file, sent)
    ensures N.Next(e, w, N.Upload(at, file, sent), w')
    ensures at in w'.nodes && w'.nodes[at] == N.Uploaded(e, w.nodes[at], file)
  {
    w' := N.With(w, at, N.Uploaded(e, w.nodes[at], file)).(inflight := w.inflight + set m | m in sent);
  }

  method Deliver(h: PeerHost, ghost w: N.World, msg: Message) returns (ok: bool, ghost w': N.World)
    requires Runs(w, h) && msg in w.inflight && msg.addr == h.grpcAddr
    modifies h`store, h.providers
    ensures Runs(w', h) && N.Next(h.env, w, N.Deliver(h.selfID, msg), w')
  {
    ok := h.StoreBlock(msg.cid, msg.data);
    w' := N.With(w, h.selfID, MemberOf(h));
  }

  method Download(h: PeerHost, ghost w: N.World, remote: Remote, root: Cid)
    returns (written: Bytes, ok: bool, ghost w': N.World)
    requires Runs(w, h)
    modifies h`store
    ensures Runs(w', h)
    ensures N.Next(h.env, w, N.Download(h.selfID, remote, root, Outcome(written, ok, h.store)), w')
  {
    written, ok := h.GetFile(remote, root);
    w' := N.With(w, h.selfID, MemberOf(h));
  }

  /** One turn of a download: the root block, or one chunk. */
  method ReadBlock(h: PeerHost, ghost w: N.World, remote: Remote, turn: nat, cid: Cid)
    returns (r: FetchResult, ghost provs: seq<Endpoint>, ghost w': N.World)
    requires Runs(w, h)
    modifies h`store
    ensures Runs(w', h) && N.Next(h.env, w, N.ReadBlock(h.selfID, remote, turn, cid, provs), w')
    ensures r == N.ResultOf(h.env, w.nodes[h.selfID], remote, turn, cid, provs)
  {
    r, provs := h.ResolveBlock(remote, turn, cid);
    assert h.Valid() by {
      ghost var store := w.nodes[h.selfID].store;
      CachedExtends(h.env, store, cid, r);
      CatalogKept(h.env, h.entries, h.localCatalogCid, store, h.store);
    }
    w' := AfterTurn(h.env, w, h.selfID, remote, turn, cid, provs);
  }

  lemma CachedExtends(e: Env, store: Store, cid: Cid, r: FetchResult)
    requires Verified(e, store)
    ensures Extends(e, store, if r.Fetched? then Cached(e, store, cid, r.data) else store)
  {}

  lemma AfterTurn(e: Env, w: N.World, at: string, remote: Remote, turn: nat, cid: Cid, provs: seq<Endpoint>)
    returns (w': N.World)
    requires N.Runs(w, at) && N.Asks(w.nodes[at], remote, turn, cid, provs)
    ensures N.Next(e, w, N.ReadBlock(at, remote, turn, cid, provs), w') && at in w'.nodes
    ensures w'.nodes[at]
         == N.AfterRead(e, w.nodes[at], cid, N.ResultOf(e, w.nodes[at], remote, turn, cid, provs))
  {
    w' := N.With(w, at, N.AfterRead(e, w.nodes[at], cid, N.ResultOf(e, w.nodes[at], remote, turn, cid, provs)));
  }

  method Cleanup(h: PeerHost, ghost w: N.World, now: int) returns (ghost w': N.World)
    requires Runs(w, h)
    modifies h.registry, h.providers
    ensures Runs(w', h) && N.Next(h.env, w, N.Cleanup(h.selfID, now), w')
  {
    CleanupPass(h.registry, h.providers, now);
    w' := N.With(w, h.selfID, MemberOf(h));
  }

  /** A join, for one, is a change of the registry that the runs of the network allow. */
  method Join(h: PeerHost, ghost w: N.World, caller: Endpoint, stamp: int, now: int)
    returns (accepted: bool, known: seq<Endpoint>, ghost w': N.World)
    requires Runs(w, h)
    modifies h.registry
    ensures Runs(w', h) && N.Next(h.env, w, N.SetPeers(h.selfID, h.registry.peers), w')
  {
    accepted, known := h.JoinNetwork(caller, stamp, now);
    w' := N.With(w, h.selfID, MemberOf(h));
  }

  /** And it is the Upsert, as Active, of the runs of one node. */
  method JoinOne(h: PeerHost, caller: Endpoint, stamp: int, now: int) returns (accepted: bool, known: seq<Endpoint>)
    requires h.Valid() && stamp <= now
    modifies h.registry
    ensures h.Valid()
    ensures var rec := Peer(caller.peerId, caller.grpc, caller.http, Active, stamp, 0);
            L.Next(old(NodeOf(h.registry, h.providers, now)), L.DoUpsert(rec), NodeOf(h.registry, h.providers, now))
  {
    accepted, known := h.JoinNetwork(caller, stamp, now);
  }

  /** What the GetBlock handler answers is a genuine reply. */
  method AnswerGetBlock(h: PeerHost, ghost w: N.World, cid: Cid) returns (data: Option<Bytes>)
    requires Runs(w, h) && cid != ""
    ensures data.Some? && A.GetReply(w, h.grpcAddr, cid, data.value)
  {
    data := h.GetBlock(cid);
    assert N.Runs(w, h.selfID);
  }

  /** What the FindProvider handler answers is a genuine reply. */
  method AnswerFindProvider(h: PeerHost, ghost w: N.World, cid: Cid) returns (provs: seq<Endpoint>)
    requires Runs(w, h) && cid != ""
    ensures A.FindReply(w, h.grpcAddr, cid, provs)
  {
    provs := h.FindProvider(cid);
    assert N.Runs(w, h.selfID);
  }
}
