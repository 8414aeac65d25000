/**
 A network of nodes that run the code: uploads, StoreBlock requests in flight, downloads,
 registry changes, cleanups and crashes, in any order. A crashed node never comes back. Requests
 may be lost, overtake each other, or arrive twice.
 */
module Network {
  import opened Content
  import opened PeerRegistry
  import opened Providers
  import opened FailureDetector
  import opened Transfer
  import opened Host

  datatype Member = Member(id: string, grpc: string, http: string, replFactor: int, store: Store,
                           table: Table, peers: View, up: bool)

  datatype World = World(nodes: map<string, Member>, inflight: set<Message>)

  /**
   SetPeers is any change of one registry. Download is a GetFile call whatever the others answer,
   with what it wrote and the store it left; ReadBlock one turn of such a call, so that other steps
   may come between its turns.
   */
  datatype Action =
    | Upload(at: string, file: Bytes, sent: seq<Message>)
    | Deliver(at: string, msg: Message)
    | Lose(msg: Message)
    | Crash(at: string)
    | Download(at: string, remote: Remote, root: Cid, outcome: Outcome)
    | ReadBlock(at: string, remote: Remote, turn: nat, cid: Cid, provs: seq<Endpoint>)
    | SetPeers(at: string, peers: View)
    | Cleanup(at: string, now: int)

  function EndpointOf(n: Member): Endpoint {
    Endpoint(n.id, n.grpc, n.http)
  }

  /** A node after AddFile. */
  function Uploaded(e: Env, n: Member, file: Bytes): Member {
    n.(store := PutAll(e, n.store, Chunks(file) + [RootBlock(e, file)]),
       table := AnnounceAll(n.table, BlockCids(e, file), EndpointOf(n)))
  }

  /** A node after a StoreBlock request. */
  function Accepted(e: Env, n: Member, msg: Message): Member {
    if !IsCid(msg.cid) then n
    else n.(store := Put(e, n.store, msg.data), table := Announced(n.table, msg.cid, EndpointOf(n)))
  }

  /** A node after a cleanup pass. */
  ghost function CleanedUp(n: Member, now: int): Member {
    var stale := StaleIds(n.peers, n.id, now);
    n.(peers := MarkAll(n.peers, stale, Left), table := WithoutPeers(n.table, stale))
  }

  /** What a node gets when it reads a block, and the node after that. */
  function ResultOf(e: Env, n: Member, remote: Remote, turn: nat, cid: Cid, provs: seq<Endpoint>): FetchResult {
    Resolve(e, remote.get, turn, n.store, cid, provs)
  }

  function AfterRead(e: Env, n: Member, cid: Cid, r: FetchResult): Member {
    if r.Fetched? then n.(store := Cached(e, n.store, cid, r.data)) else n
  }

  predicate Runs(w: World, at: string) {
    at in w.nodes && w.nodes[at].up
  }

  function With(w: World, at: string, n: Member): World {
    w.(nodes := w.nodes[at := n])
  }

  ghost predicate Next(e: Env, w: World, a: Action, w': World) {
    match a
    case Upload(at, file, sent) =>
      && Runs(w, at) && IsUpload(e, w.nodes[at], file, sent)
      && w' == With(w, at, Uploaded(e, w.nodes[at], file)).(inflight := w.inflight + set m | m in sent)
    case Deliver(at, msg) =>
      && Runs(w, at) && msg in w.inflight && msg.addr == w.nodes[at].grpc
      && w' == With(w, at, Accepted(e, w.nodes[at], msg))
    case Lose(msg) => w' == w.(inflight := w.inflight - {msg})
    case Crash(at) => Runs(w, at) && w' == With(w, at, w.nodes[at].(up := false))
    case Download(at, remote, root, o) =>
      && Runs(w, at) && Reads(e, w.nodes[at], remote, root, o)
      && w' == With(w, at, w.nodes[at].(store := o.store))
    case ReadBlock(at, remote, turn, cid, provs) =>
      && Runs(w, at) && Asks(w.nodes[at], remote, turn, cid, provs)
      && w' == With(w, at, AfterRead(e, w.nodes[at], cid, ResultOf(e, w.nodes[at], remote, turn, cid, provs)))
    case SetPeers(at, peers) =>
      Runs(w, at) && WellKeyed(peers) && w' == With(w, at, w.nodes[at].(peers := peers))
    case Cleanup(at, now) => Runs(w, at) && w' == With(w, at, CleanedUp(w.nodes[at], now))
  }

  /** The requests AddFile may send. */
  ghost predicate IsUpload(e: Env, n: Member, file: Bytes, sent: seq<Message>) {
    var st := Uploaded(e, n, file).store;
    && AllStored(e, st, file)
    && IsReplication(n.peers, st, BlockCids(e, file), n.replFactor, n.id, sent)
  }

  ghost predicate Reads(e: Env, n: Member, remote: Remote, root: Cid, o: Outcome) {
    IsGetFile(e, remote, n.peers, n.table, n.grpc, n.store, root, o)
  }

  /** The providers are looked up only for a block that the node lacks. */
  ghost predicate Asks(n: Member, remote: Remote, turn: nat, cid: Cid, provs: seq<Endpoint>) {
    cid in n.store || Found(remote, turn, n.peers, n.table, n.grpc, cid, provs)
  }

  ghost predicate StepAt(e: Env, states: seq<World>, acts: seq<Action>, i: nat) {
    i < |acts| && i + 1 < |states| && Next(e, states[i], acts[i], states[i + 1])
  }

  ghost predicate IsRun(e: Env, states: seq<World>, acts: seq<Action>) {
    |states| == |acts| + 1 && forall i: nat | i < |acts| :: StepAt(e, states, acts, i)
  }

  // ----- Honesty -----

  /** Every record is the node's own endpoint, for a block it holds. */
  ghost predicate HonestTable(n: Member) {
    forall c | c in n.table :: c in n.store && n.table[c] == map[n.id := EndpointOf(n)]
  }

  ghost predicate HonestMember(e: Env, n: Member) {
    n.id != "" && WellKeyed(n.peers) && Verified(e, n.store) && HonestTable(n)
  }

  ghost predicate HonestMessage(e: Env, msg: Message) {
    e.hash(msg.data) == msg.cid
  }

  ghost predicate Inv(e: Env, w: World) {
    && (forall k | k in w.nodes :: w.nodes[k].id == k && HonestMember(e, w.nodes[k]))
    && (forall j, k | j in w.nodes && k in w.nodes && w.nodes[j].grpc == w.nodes[k].grpc :: j == k)
    && (forall m | m in w.inflight :: HonestMessage(e, m))
  }

  /** What a node keeps for good: its identity, its blocks, its announcements, and being down. */
  ghost predicate Keeps(e: Env, n: Member, n': Member) {
    && n'.id == n.id && n'.grpc == n.grpc && n'.http == n.http
    && Extends(e, n.store, n'.store) && n.table.Keys <= n'.table.Keys
    && (n'.up ==> n.up)
  }

  /**
   StoreBlock files the data under its hash but announces the CID in the request: the node stays
   honest exactly when it refuses the CID, when the two agree, or when it had the announced block.
   */
  lemma StoreBlockIsHonestIff(e: Env, n: Member, msg: Message)
    requires HonestMember(e, n)
    ensures HonestMember(e, Accepted(e, n, msg)) <==>
            !IsCid(msg.cid) || e.hash(msg.data) == msg.cid || msg.cid in n.store
  {
    if IsCid(msg.cid) {
      var n' := Accepted(e, n, msg);
      AnnouncedRecords(n.table, msg.cid, EndpointOf(n));
      assert msg.cid in n'.table;
      if e.hash(msg.data) == msg.cid || msg.cid in n.store {
        assert HonestTable(n');
      }
    }
  }

  /** Announcing one's own endpoint in a table of own endpoints. */
  lemma AnnouncedRecords(t: Table, cid: Cid, ep: Endpoint)
    requires ep.peerId != "" && forall c | c in t :: t[c] == map[ep.peerId := ep]
    ensures Announced(t, cid, ep).Keys == t.Keys + {cid}
    ensures forall c | c in Announced(t, cid, ep) :: Announced(t, cid, ep)[c] == map[ep.peerId := ep]
  {}

  /**
   AddProvider records any endpoint for any CID: the node stays honest exactly when the caller names
   nobody, or the node itself for a block that it holds.
   */
  lemma AddProviderIsHonestIff(e: Env, n: Member, cid: Cid, ep: Endpoint)
    requires HonestMember(e, n)
    ensures HonestMember(e, n.(table := Announced(n.table, cid, ep))) <==>
            ep.peerId == "" || (ep == EndpointOf(n) && cid in n.store)
  {
    var n' := n.(table := Announced(n.table, cid, ep));
    if ep.peerId != "" {
      assert cid in n'.table && n'.table[cid][ep.peerId] == ep;
      if ep == EndpointOf(n) {
        AnnouncedRecords(n.table, cid, ep);
      }
    }
  }

  lemma {:induction false} AnnounceAllRecords(t: Table, cids: seq<Cid>, ep: Endpoint)
    requires ep.peerId != "" && forall c | c in t :: t[c] == map[ep.peerId := ep]
    ensures AnnounceAll(t, cids, ep).Keys == t.Keys + set c | c in cids
    ensures forall c | c in AnnounceAll(t, cids, ep) :: AnnounceAll(t, cids, ep)[c] == map[ep.peerId := ep]
  {
    if cids != [] {
      var n := |cids| - 1;
      AnnounceAllRecords(t, cids[..n], ep);
      AnnouncedRecords(AnnounceAll(t, cids[..n], ep), cids[n], ep);
      assert cids == cids[..n] + [cids[n]];
    }
  }

  lemma UploadIsHonest(e: Env, n: Member, file: Bytes)
    requires e.Valid() && HonestMember(e, n)
    ensures HonestMember(e, Uploaded(e, n, file)) && Keeps(e, n, Uploaded(e, n, file))
    ensures forall c | c in BlockCids(e, file) :: c in Uploaded(e, n, file).table
  {
    AddedFile(e, n.store, file);
    AnnounceAllRecords(n.table, BlockCids(e, file), EndpointOf(n));
  }

  lemma DeliveryIsHonest(e: Env, n: Member, msg: Message)
    requires e.Valid() && HonestMember(e, n) && HonestMessage(e, msg)
    ensures HonestMember(e, Accepted(e, n, msg)) && Keeps(e, n, Accepted(e, n, msg))
    ensures msg.cid in Accepted(e, n, msg).table
  {
    assert IsCid(msg.cid);
    StoreBlockIsHonestIff(e, n, msg);
    AnnouncedRecords(n.table, msg.cid, EndpointOf(n));
  }

  /** A cleanup never takes out an honest node's records: it never expires the node itself. */
  lemma CleanupKeepsRecords(e: Env, n: Member, now: int)
    requires HonestMember(e, n)
    ensures CleanedUp(n, now).table == n.table
    ensures HonestMember(e, CleanedUp(n, now)) && Keeps(e, n, CleanedUp(n, now))
  {
    var stale := StaleIds(n.peers, n.id, now);
    forall c | c in n.table ensures n.table[c] - stale == n.table[c] != map[] {
      assert n.id in n.table[c] && n.id !in stale;
    }
    var v := MarkAll(n.peers, stale, Left);
    assert v.Keys == n.peers.Keys && |v.Keys| == |v| && |n.peers.Keys| == |n.peers|;
  }

  lemma DownloadIsHonest(e: Env, n: Member, remote: Remote, root: Cid, o: Outcome)
    requires HonestMember(e, n) && Reads(e, n, remote, root, o)
    ensures HonestMember(e, n.(store := o.store)) && Keeps(e, n, n.(store := o.store))
  {
    ReadingExtends(e, remote, n.peers, n.table, n.grpc, n.store, root, o);
  }

  lemma ReadIsHonest(e: Env, n: Member, remote: Remote, turn: nat, cid: Cid, provs: seq<Endpoint>)
    requires HonestMember(e, n)
    ensures var n' := AfterRead(e, n, cid, ResultOf(e, n, remote, turn, cid, provs));
            HonestMember(e, n') && Keeps(e, n, n')
  {
    ResolveIsVerified(e, remote.get, turn, n.store, cid, provs);
  }

  /** Every request carries the block it names. */
  lemma {:induction false} DispatchIsHonest(e: Env, v: View, store: Store, cids: seq<Cid>,
                                            plans: seq<seq<string>>, n: nat)
    requires Verified(e, store) && n <= |cids| && n <= |plans| && forall c | c in cids :: c in store
    ensures forall m | m in Dispatch(v, store, cids, plans, n) :: HonestMessage(e, m)
  {
    if n > 0 {
      DispatchIsHonest(e, v, store, cids, plans, n - 1);
    }
  }

  lemma UploadSendsHonestly(e: Env, n: Member, file: Bytes, sent: seq<Message>)
    requires e.Valid() && HonestMember(e, n) && IsUpload(e, n, file, sent)
    ensures forall m | m in sent :: HonestMessage(e, m)
  {
    UploadIsHonest(e, n, file);
    var st, cids := Uploaded(e, n, file).store, BlockCids(e, file);
    var plans :| |plans| == |cids| && AllSelected(n.peers, cids, n.replFactor, n.id, plans)
      && sent == Dispatch(n.peers, st, cids, plans, |cids|);
    DispatchIsHonest(e, n.peers, st, cids, plans, |cids|);
  }

  lemma MemberStep(e: Env, w: World, at: string, n: Member)
    requires Inv(e, w) && at in w.nodes && HonestMember(e, n) && Keeps(e, w.nodes[at], n)
    ensures Inv(e, With(w, at, n)) && AllKeep(e, w, With(w, at, n))
  {
    KeepsItself(e, w);
    MemberReplaced(e, w, at, n);
  }

  lemma KeepsItself(e: Env, w: World)
    requires forall k | k in w.nodes :: Verified(e, w.nodes[k].store)
    ensures AllKeep(e, w, w)
  {}

  lemma MemberReplaced(e: Env, w: World, at: string, n: Member)
    requires AllKeep(e, w, w) && at in w.nodes && Keeps(e, w.nodes[at], n)
    ensures AllKeep(e, w, With(w, at, n))
  {}

  ghost predicate AllKeep(e: Env, w: World, w': World) {
    && w'.nodes.Keys == w.nodes.Keys
    && forall k | k in w.nodes :: Keeps(e, w.nodes[k], w'.nodes[k])
  }

  lemma NextKeepsInv(e: Env, w: World, a: Action, w': World)
    requires e.Valid() && Inv(e, w) && Next(e, w, a, w')
    ensures Inv(e, w') && AllKeep(e, w, w')
  {
    match a {
      case Upload(at, file, sent) =>
        UploadIsHonest(e, w.nodes[at], file);
        UploadSendsHonestly(e, w.nodes[at], file, sent);
        MemberStep(e, w, at, Uploaded(e, w.nodes[at], file));
      case Deliver(at, msg) =>
        DeliveryIsHonest(e, w.nodes[at], msg);
        MemberStep(e, w, at, Accepted(e, w.nodes[at], msg));
      case Lose(msg) =>
      case Crash(at) => MemberStep(e, w, at, w.nodes[at].(up := false));
      case Download(at, remote, root, o) =>
        DownloadIsHonest(e, w.nodes[at], remote, root, o);
        MemberStep(e, w, at, w.nodes[at].(store := o.store));
      case ReadBlock(at, remote, turn, cid, provs) =>
        ReadIsHonest(e, w.nodes[at], remote, turn, cid, provs);
        MemberStep(e, w, at, AfterRead(e, w.nodes[at], cid, ResultOf(e, w.nodes[at], remote, turn, cid, provs)));
      case SetPeers(at, peers) => MemberStep(e, w, at, w.nodes[at].(peers := peers));
      case Cleanup(at, now) =>
        CleanupKeepsRecords(e, w.nodes[at], now);
        MemberStep(e, w, at, CleanedUp(w.nodes[at], now));
    }
  }

  /**
   Provider honesty: in every run each record is the node's own endpoint for a block it holds, and
   each request in flight carries the block it names.
   */
  lemma {:induction false} RunIsHonest(e: Env, states: seq<World>, acts: seq<Action>, j: nat)
    requires e.Valid() && IsRun(e, states, acts) && Inv(e, states[0]) && j < |states|
    ensures Inv(e, states[j])
  {
    if j > 0 {
      RunIsHonest(e, states, acts, j - 1);
      assert StepAt(e, states, acts, j - 1);
      NextKeepsInv(e, states[j - 1], acts[j - 1], states[j]);
    }
  }

  lemma KeepTwice(e: Env, a: World, b: World, c: World)
    requires AllKeep(e, a, b) && AllKeep(e, b, c)
    ensures AllKeep(e, a, c)
  {
    forall k | k in a.nodes ensures Keeps(e, a.nodes[k], c.nodes[k]) {
      assert Keeps(e, a.nodes[k], b.nodes[k]) && Keeps(e, b.nodes[k], c.nodes[k]);
    }
  }

  lemma StepKeepsAll(e: Env, states: seq<World>, acts: seq<Action>, j: nat)
    requires e.Valid() && IsRun(e, states, acts) && Inv(e, states[0]) && 0 < j < |states|
    ensures AllKeep(e, states[j - 1], states[j])
  {
    RunIsHonest(e, states, acts, j - 1);
    assert StepAt(e, states, acts, j - 1);
    NextKeepsInv(e, states[j - 1], acts[j - 1], states[j]);
  }

  lemma RunStartsKept(e: Env, states: seq<World>, acts: seq<Action>, i: nat)
    requires e.Valid() && IsRun(e, states, acts) && Inv(e, states[0]) && i < |states|
    ensures AllKeep(e, states[i], states[i])
  {
    RunIsHonest(e, states, acts, i);
    KeepsItself(e, states[i]);
  }

  /** Nothing stored or announced is ever lost, and no address changes. */
  lemma {:induction false} RunKeepsAll(e: Env, states: seq<World>, acts: seq<Action>, i: nat, j: nat)
    requires e.Valid() && IsRun(e, states, acts) && Inv(e, states[0]) && i <= j < |states|
    ensures AllKeep(e, states[i], states[j])
  {
    if i < j {
      RunKeepsAll(e, states, acts, i, j - 1);
      StepKeepsAll(e, states, acts, j);
      KeepTwice(e, states[i], states[j - 1], states[j]);
    } else {
      RunStartsKept(e, states, acts, i);
    }
  }

  /** In this step node s uploads the block, or accepts it from another node. */
  ghost predicate Gained(e: Env, a: Action, s: string, c: Cid) {
    || (a.Upload? && a.at == s && c in BlockCids(e, a.file))
    || (a.Deliver? && a.at == s && a.msg.cid == c)
  }

  /** The node has the block and tells those who ask. */
  ghost predicate Announces(w: World, s: string, c: Cid) {
    s in w.nodes && c in w.nodes[s].table && c in w.nodes[s].store
  }

  lemma GainAnnounces(e: Env, w: World, a: Action, w': World, s: string, c: Cid)
    requires e.Valid() && Inv(e, w) && Next(e, w, a, w') && Gained(e, a, s, c)
    ensures Announces(w', s, c)
  {
    if a.Upload? {
      UploadIsHonest(e, w.nodes[s], a.file);
    } else {
      DeliveryIsHonest(e, w.nodes[s], a.msg);
    }
  }

  /** Every uploaded or accepted block stays announced and held. */
  lemma GainedStaysAnnounced(e: Env, states: seq<World>, acts: seq<Action>, i: nat, j: nat, s: string, c: Cid)
    requires e.Valid() && IsRun(e, states, acts) && Inv(e, states[0]) && i < j < |states|
    requires Gained(e, acts[i], s, c)
    ensures Announces(states[j], s, c)
  {
    GainInRun(e, states, acts, i, s, c);
    RunKeepsAll(e, states, acts, i + 1, j);
    AnnouncementKept(e, states[i + 1], states[j], s, c);
  }

  lemma GainInRun(e: Env, states: seq<World>, acts: seq<Action>, i: nat, s: string, c: Cid)
    requires e.Valid() && IsRun(e, states, acts) && Inv(e, states[0]) && i < |acts|
    requires Gained(e, acts[i], s, c)
    ensures Announces(states[i + 1], s, c)
  {
    RunIsHonest(e, states, acts, i);
    assert StepAt(e, states, acts, i);
    GainAnnounces(e, states[i], acts[i], states[i + 1], s, c);
  }

  lemma AnnouncementKept(e: Env, w: World, w': World, s: string, c: Cid)
    requires AllKeep(e, w, w') && Announces(w, s, c)
    ensures Announces(w', s, c)
  {
    assert Keeps(e, w.nodes[s], w'.nodes[s]);
  }
}
