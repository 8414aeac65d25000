/**
 When a download succeeds among honest nodes: fault tolerance over every run of the network.
 */
module Availability {
  import opened Wrappers
  import opened Content
  import opened PeerRegistry
  import opened Providers
  import opened FailureDetector
  import opened Transfer
  import opened Host
  import opened Network

  // ----- What a lookup finds -----

  /** The peer listed under this ID is asked, and its answer has this endpoint. */
  ghost predicate AnsweredBy(remote: Remote, turn: nat, v: View, selfGrpc: string, id: string, ep: Endpoint) {
    && id in v && v[id].state == Active && v[id].grpc != "" && v[id].grpc != selfGrpc
    && remote.find(turn, id).Some? && ep in remote.find(turn, id).value
  }

  ghost predicate Recorded(t: Table, cid: Cid, ep: Endpoint) {
    ep.peerId in RecordsOf(t, cid) && RecordsOf(t, cid)[ep.peerId] == ep
  }

  lemma {:induction false} FlattenMember(answers: Answers, order: seq<nat>, ep: Endpoint) returns (k: nat)
    requires Answered(answers, order) && ep in Flatten(answers, order)
    ensures k < |order| && ep in answers[order[k]].value
  {
    var n := |order| - 1;
    if ep in answers[order[n]].value {
      k := n;
    } else {
      k := FlattenMember(answers, order[..n], ep);
    }
  }

  lemma LookupOrigin(local: map<string, Endpoint>, selfGrpc: string, snap: seq<Peer>, answers: Answers,
                     out: seq<Endpoint>, ep: Endpoint)
    requires |answers| == |snap| && IsLookup(local, selfGrpc, snap, answers, out) && ep in out
    ensures (ep.peerId in local && local[ep.peerId] == ep)
      || exists i :: i in Responders(snap, selfGrpc, answers) && ep in answers[i].value
  {
    var listing, order :| IsListing(listing, local)
      && IsArrival(order, Responders(snap, selfGrpc, answers))
      && out == Dedup(listing + Flatten(answers, order));
    DedupKeepsFirst(listing + Flatten(answers, order), ep);
    if ep in listing {
      assert ep.peerId in PeerIds(listing);
    } else {
      var k := FlattenMember(answers, order, ep);
      assert order[k] in Responders(snap, selfGrpc, answers);
    }
  }

  /** Every provider found was recorded locally or named by a peer that was asked. */
  lemma ProviderOrigin(remote: Remote, turn: nat, v: View, t: Table, selfGrpc: string, cid: Cid,
                       provs: seq<Endpoint>, ep: Endpoint)
    requires Found(remote, turn, v, t, selfGrpc, cid, provs) && ep in provs
    ensures Recorded(t, cid, ep) || exists id :: AnsweredBy(remote, turn, v, selfGrpc, id, ep)
  {
    var snap: seq<Peer> :| IsSnapshot(snap, v)
      && IsLookup(RecordsOf(t, cid), selfGrpc, snap, AnswersOf(remote, turn, snap), provs);
    var answers := AnswersOf(remote, turn, snap);
    LookupOrigin(RecordsOf(t, cid), selfGrpc, snap, answers, provs, ep);
    if i :| i in Responders(snap, selfGrpc, answers) && ep in answers[i].value {
      assert AnsweredBy(remote, turn, v, selfGrpc, snap[i].id, ep);
    }
  }

  /** Every peer named by a peer that was asked is found. */
  lemma AnswerIsUsed(remote: Remote, turn: nat, v: View, t: Table, selfGrpc: string, cid: Cid,
                     provs: seq<Endpoint>, id: string, ep: Endpoint)
    requires WellKeyed(v) && WellFormed(t) && Found(remote, turn, v, t, selfGrpc, cid, provs)
    requires AnsweredBy(remote, turn, v, selfGrpc, id, ep) && ep.peerId != ""
    ensures ep.peerId in PeerIds(provs)
  {
    var snap: seq<Peer> :| IsSnapshot(snap, v)
      && IsLookup(RecordsOf(t, cid), selfGrpc, snap, AnswersOf(remote, turn, snap), provs);
    var answers := AnswersOf(remote, turn, snap);
    SnapshotMembers(snap, v, id);
    var i :| 0 <= i < |snap| && snap[i] == v[id];
    assert NamedBy(snap, selfGrpc, answers, i, ep.peerId);
    LookupConfluence(RecordsOf(t, cid), selfGrpc, snap, answers, provs);
  }

  // ----- Honest answers -----

  /** What FindProvider answers at a running node with this address. */
  ghost predicate FindReply(w: World, addr: string, cid: Cid, eps: seq<Endpoint>) {
    exists s :: Runs(w, s) && w.nodes[s].grpc == addr && IsListing(eps, RecordsOf(w.nodes[s].table, cid))
  }

  /** What GetBlock answers at a running node with this address. */
  ghost predicate GetReply(w: World, addr: string, cid: Cid, data: Bytes) {
    exists s :: Runs(w, s) && w.nodes[s].grpc == addr
      && data == if cid in w.nodes[s].store then w.nodes[s].store[cid] else ""
  }

  /** Any call in this turn may fail, but an answer comes from a running node at the address called. */
  ghost predicate Genuine(w: World, n: Member, remote: Remote, turn: nat, cid: Cid) {
    && (forall id | id in n.peers && remote.find(turn, id).Some? ::
          FindReply(w, n.peers[id].grpc, cid, remote.find(turn, id).value))
    && (forall k: nat, addr | remote.get(Call(turn, k, addr, cid)).Some? ::
          GetReply(w, addr, cid, remote.get(Call(turn, k, addr, cid)).value))
  }

  /** Node s runs at a foreign address that n's registry lists as Active, under the given ID. */
  ghost predicate Listed(w: World, n: Member, id: string, s: string) {
    && id in n.peers && n.peers[id].state == Active && n.peers[id].grpc != "" && n.peers[id].grpc != n.grpc
    && Runs(w, s) && w.nodes[s].grpc == n.peers[id].grpc
  }

  /** None of the calls to node s fails in this turn. */
  ghost predicate Responds(w: World, remote: Remote, turn: nat, cid: Cid, id: string, s: string)
    requires s in w.nodes
  {
    && remote.find(turn, id).Some?
    && forall k: nat :: remote.get(Call(turn, k, w.nodes[s].grpc, cid)).Some?
  }

  /** A listed node announces the block. */
  ghost predicate Reachable(w: World, n: Member, cid: Cid) {
    exists id, s :: Listed(w, n, id, s) && Announces(w, s, cid)
  }

  /** A listed node announces the block, and answers. */
  ghost predicate Offered(w: World, n: Member, remote: Remote, turn: nat, cid: Cid) {
    exists id, s :: Listed(w, n, id, s) && Announces(w, s, cid) && Responds(w, remote, turn, cid, id, s)
  }

  lemma OwnListing(eps: seq<Endpoint>, id: string, own: Endpoint)
    requires IsListing(eps, map[id := own]) && own.peerId == id
    ensures forall ep | ep in eps :: ep == own
    ensures own in eps
  {
    forall ep | ep in eps ensures ep == own {
      assert ep.peerId in PeerIds(eps);
    }
    assert id in PeerIds(eps);
  }

  /** A provider named in a genuine answer is the listed node that answered, and it has the block. */
  lemma AnswerIsHolder(e: Env, w: World, n: Member, remote: Remote, turn: nat, cid: Cid, id: string, ep: Endpoint)
    returns (s: string)
    requires Inv(e, w) && Genuine(w, n, remote, turn, cid) && AnsweredBy(remote, turn, n.peers, n.grpc, id, ep)
    ensures Listed(w, n, id, s) && Announces(w, s, cid) && ep == EndpointOf(w.nodes[s])
  {
    var eps := remote.find(turn, id).value;
    assert FindReply(w, n.peers[id].grpc, cid, eps);
    s :| Runs(w, s) && w.nodes[s].grpc == n.peers[id].grpc && IsListing(eps, RecordsOf(w.nodes[s].table, cid));
    assert ep.peerId in PeerIds(eps);
    assert HonestMember(e, w.nodes[s]);
    OwnListing(eps, w.nodes[s].id, EndpointOf(w.nodes[s]));
  }

  /** What is found for a block the node lacks leads to listed nodes that announce it. */
  lemma ProviderIsHolder(e: Env, w: World, n: Member, remote: Remote, turn: nat, cid: Cid,
                         provs: seq<Endpoint>, ep: Endpoint)
    returns (id: string, s: string)
    requires Inv(e, w) && HonestMember(e, n) && Genuine(w, n, remote, turn, cid)
    requires Found(remote, turn, n.peers, n.table, n.grpc, cid, provs) && ep in provs && cid !in n.store
    ensures Listed(w, n, id, s) && Announces(w, s, cid) && ep == EndpointOf(w.nodes[s])
  {
    ProviderOrigin(remote, turn, n.peers, n.table, n.grpc, cid, provs, ep);
    id :| AnsweredBy(remote, turn, n.peers, n.grpc, id, ep);
    s := AnswerIsHolder(e, w, n, remote, turn, cid, id, ep);
  }

  /** block is the only block with this CID, and not empty. */
  ghost predicate OnlyBlock(e: Env, cid: Cid, block: Bytes) {
    block != "" && e.hash(block) == cid && forall x: Bytes | e.hash(x) == cid :: x == block
  }

  lemma HolderAnswers(e: Env, w: World, n: Member, remote: Remote, turn: nat, cid: Cid, id: string, s: string)
    requires Inv(e, w) && Genuine(w, n, remote, turn, cid)
    requires Listed(w, n, id, s) && Announces(w, s, cid) && remote.find(turn, id).Some?
    ensures AnsweredBy(remote, turn, n.peers, n.grpc, id, EndpointOf(w.nodes[s]))
    ensures w.nodes[s].id == s != ""
  {
    assert HonestMember(e, w.nodes[s]);
    var eps := remote.find(turn, id).value;
    assert FindReply(w, n.peers[id].grpc, cid, eps);
    OwnListing(eps, s, EndpointOf(w.nodes[s]));
  }

  /** A listed node that announces the block and answers is among the providers found. */
  lemma HolderIsFound(e: Env, w: World, n: Member, remote: Remote, turn: nat, cid: Cid,
                      provs: seq<Endpoint>, id: string, s: string)
    requires Inv(e, w) && HonestMember(e, n) && Genuine(w, n, remote, turn, cid)
    requires Found(remote, turn, n.peers, n.table, n.grpc, cid, provs) && cid !in n.store
    requires Listed(w, n, id, s) && Announces(w, s, cid) && remote.find(turn, id).Some?
    ensures EndpointOf(w.nodes[s]) in provs
  {
    HolderAnswers(e, w, n, remote, turn, cid, id, s);
    assert s in PeerIds(provs) by {
      HonestTableIsWellFormed(e, n);
      AnswerIsUsed(remote, turn, n.peers, n.table, n.grpc, cid, provs, id, EndpointOf(w.nodes[s]));
    }
    var ep :| ep in provs && ep.peerId == s;
    var _, x := ProviderIsHolder(e, w, n, remote, turn, cid, provs, ep);
    assert w.nodes[x].id == x;
  }

  lemma HonestTableIsWellFormed(e: Env, n: Member)
    requires HonestMember(e, n)
    ensures WellFormed(n.table)
  {
    assert forall c | c in n.table :: n.id in n.table[c];
  }

  lemma HolderReplies(e: Env, w: World, n: Member, remote: Remote, turn: nat, k: nat, cid: Cid, s: string,
                      block: Bytes)
    requires Inv(e, w) && Genuine(w, n, remote, turn, cid) && Announces(w, s, cid) && Runs(w, s)
    requires OnlyBlock(e, cid, block) && remote.get(Call(turn, k, w.nodes[s].grpc, cid)).Some?
    ensures remote.get(Call(turn, k, w.nodes[s].grpc, cid)) == Some(block)
  {
    assert HonestMember(e, w.nodes[s]);
    assert GetReply(w, w.nodes[s].grpc, cid, remote.get(Call(turn, k, w.nodes[s].grpc, cid)).value);
  }

  lemma ReplyServes(e: Env, net: Net, turn: nat, local: set<Cid>, cid: Cid, provs: seq<Endpoint>, i: nat,
                    block: Bytes)
    requires i < |provs| && provs[i].grpc != "" && OnlyBlock(e, cid, block)
    requires net(Call(turn, i, provs[i].grpc, cid)) == Some(block)
    ensures Obtainable(e, net, turn, local, cid, provs)
  {
    assert Serves(e, net, turn, cid, provs, i);
  }

  /** A block that some listed node offers is obtained. */
  lemma HolderServes(e: Env, w: World, n: Member, remote: Remote, turn: nat, cid: Cid,
                     provs: seq<Endpoint>, block: Bytes)
    requires Inv(e, w) && HonestMember(e, n) && Genuine(w, n, remote, turn, cid)
    requires Found(remote, turn, n.peers, n.table, n.grpc, cid, provs) && cid !in n.store
    requires Offered(w, n, remote, turn, cid) && OnlyBlock(e, cid, block)
    ensures Obtainable(e, remote.get, turn, n.store.Keys, cid, provs)
  {
    var id, s :| Listed(w, n, id, s) && Announces(w, s, cid) && Responds(w, remote, turn, cid, id, s);
    HolderIsFound(e, w, n, remote, turn, cid, provs, id, s);
    var i :| 0 <= i < |provs| && provs[i] == EndpointOf(w.nodes[s]);
    HolderReplies(e, w, n, remote, turn, i, cid, s, block);
    ReplyServes(e, remote.get, turn, n.store.Keys, cid, provs, i, block);
  }

  // ----- Downloads -----

  /** This block of the file is local, or offered in the turn in which GetFile comes to it. */
  ghost predicate BlockOffered(e: Env, w: World, n: Member, remote: Remote, file: Bytes, turn: nat)
    requires turn < |BlockCids(e, file)|
  {
    var cid := BlockCids(e, file)[turn];
    cid in n.store || Offered(w, n, remote, turn, cid)
  }

  ghost predicate AllOffered(e: Env, w: World, n: Member, remote: Remote, file: Bytes) {
    forall turn: nat | turn < |BlockCids(e, file)| :: BlockOffered(e, w, n, remote, file, turn)
  }

  /** Genuine answers in every turn of the download of this file. */
  ghost predicate AllGenuine(e: Env, w: World, n: Member, remote: Remote, file: Bytes) {
    forall turn: nat | turn < |BlockCids(e, file)| :: Genuine(w, n, remote, turn, BlockCids(e, file)[turn])
  }

  lemma BlocksAreOnly(e: Env, file: Bytes, turn: nat)
    requires e.Valid() && NoSecondPreimage(e, BlockSet(e, file)) && turn < |BlockCids(e, file)|
    ensures OnlyBlock(e, BlockCids(e, file)[turn], BlocksOf(e, file)[turn])
  {
    var b := BlocksOf(e, file)[turn];
    assert b in BlockSet(e, file);
    if turn > 0 {
      assert b in Chunks(file);
    }
  }

  lemma BlockObtainable(e: Env, w: World, n: Member, remote: Remote, file: Bytes, turn: nat, provs: seq<Endpoint>)
    requires e.Valid() && NoSecondPreimage(e, BlockSet(e, file)) && turn < |BlockCids(e, file)|
    requires Inv(e, w) && HonestMember(e, n)
    requires Genuine(w, n, remote, turn, BlockCids(e, file)[turn]) && BlockOffered(e, w, n, remote, file, turn)
    requires BlockCids(e, file)[turn] in n.store
      || Found(remote, turn, n.peers, n.table, n.grpc, BlockCids(e, file)[turn], provs)
    ensures Obtainable(e, remote.get, turn, n.store.Keys, BlockCids(e, file)[turn], provs)
  {
    var cid := BlockCids(e, file)[turn];
    if cid !in n.store {
      BlocksAreOnly(e, file, turn);
      HolderServes(e, w, n, remote, turn, cid, provs, BlocksOf(e, file)[turn]);
    }
  }

  lemma ChunkListIsFixed(e: Env, net: Net, rootProvs: seq<Endpoint>, store: Store, file: Bytes)
    requires e.Valid() && NoSecondPreimage(e, BlockSet(e, file)) && Verified(e, store)
    requires Obtainable(e, net, 0, store.Keys, RootCid(e, file), rootProvs)
    ensures ChunkList(e, net, rootProvs, store, RootCid(e, file)) == Hashes(e, Chunks(file))
  {
    var root := RootCid(e, file);
    ResolveSucceedsIff(e, net, 0, store, root, rootProvs);
    ResolveIsVerified(e, net, 0, store, root, rootProvs);
    RootBlockIsFixed(e, file, Resolve(e, net, 0, store, root, rootProvs).data);
  }

  lemma LocalIsAtHand(e: Env, net: Net, lookups: seq<seq<Endpoint>>, local: set<Cid>, more: set<Cid>,
                      cids: seq<Cid>, i: nat)
    requires i < |cids| && i < |lookups| && local <= more
    ensures Obtainable(e, net, i + 1, local, cids[i], lookups[i]) ==>
              ChunkObtainable(e, net, lookups, more, cids, i)
  {}

  lemma TurnIsServed(e: Env, w: World, n: Member, remote: Remote, file: Bytes, turn: nat, i: nat)
    requires AllGenuine(e, w, n, remote, file) && AllOffered(e, w, n, remote, file)
    requires i < |Chunks(file)| && turn == i + 1
    ensures turn < |BlockCids(e, file)| && BlockCids(e, file)[turn] == Hashes(e, Chunks(file))[i]
    ensures BlockOffered(e, w, n, remote, file, turn) && Genuine(w, n, remote, turn, BlockCids(e, file)[turn])
  {}

  lemma ChunkOffered(e: Env, w: World, n: Member, remote: Remote, file: Bytes, turn: nat, i: nat,
                     provs: seq<Endpoint>)
    requires e.Valid() && NoSecondPreimage(e, BlockSet(e, file)) && i < |Chunks(file)| && turn == i + 1
    requires Inv(e, w) && HonestMember(e, n) && AllGenuine(e, w, n, remote, file)
    requires AllOffered(e, w, n, remote, file)
    requires Found(remote, turn, n.peers, n.table, n.grpc, Hashes(e, Chunks(file))[i], provs)
    ensures Obtainable(e, remote.get, turn, n.store.Keys, Hashes(e, Chunks(file))[i], provs)
  {
    TurnIsServed(e, w, n, remote, file, turn, i);
    BlockObtainable(e, w, n, remote, file, turn, provs);
  }

  lemma ChunkIsObtained(e: Env, w: World, n: Member, remote: Remote, file: Bytes, lookups: seq<seq<Endpoint>>,
                        i: nat)
    requires e.Valid() && NoSecondPreimage(e, BlockSet(e, file)) && i < |Chunks(file)|
    requires Inv(e, w) && HonestMember(e, n) && AllGenuine(e, w, n, remote, file)
    requires AllOffered(e, w, n, remote, file) && i < |lookups|
    requires Found(remote, i + 1, n.peers, n.table, n.grpc, Hashes(e, Chunks(file))[i], lookups[i])
    ensures ChunkObtainable(e, remote.get, lookups, n.store.Keys + {RootCid(e, file)}, Hashes(e, Chunks(file)), i)
  {
    var cids := Hashes(e, Chunks(file));
    ChunkOffered(e, w, n, remote, file, i + 1, i, lookups[i]);
    LocalIsAtHand(e, remote.get, lookups, n.store.Keys, n.store.Keys + {RootCid(e, file)}, cids, i);
  }

  lemma ChunksOffered(e: Env, w: World, n: Member, remote: Remote, file: Bytes, lookups: seq<seq<Endpoint>>)
    requires e.Valid() && NoSecondPreimage(e, BlockSet(e, file))
    requires Inv(e, w) && HonestMember(e, n) && AllGenuine(e, w, n, remote, file)
    requires AllOffered(e, w, n, remote, file)
    requires AllFound(remote, n.peers, n.table, n.grpc, Hashes(e, Chunks(file)), lookups, |Chunks(file)|)
    ensures ChunksObtainable(e, remote.get, lookups, n.store.Keys + {RootCid(e, file)},
                             Hashes(e, Chunks(file)), |Chunks(file)|)
  {
    var cids, local := Hashes(e, Chunks(file)), n.store.Keys + {RootCid(e, file)};
    forall i: nat | i < |cids| ensures ChunkObtainable(e, remote.get, lookups, local, cids, i) {
      ChunkIsObtained(e, w, n, remote, file, lookups, i);
    }
  }

  /** When every block is local or offered, the download writes exactly the file. */
  lemma OfferedFileIsRead(e: Env, w: World, n: Member, remote: Remote, file: Bytes, o: Outcome)
    requires e.Valid() && NoSecondPreimage(e, BlockSet(e, file))
    requires Inv(e, w) && HonestMember(e, n) && AllGenuine(e, w, n, remote, file)
    requires AllOffered(e, w, n, remote, file)
    requires Reads(e, n, remote, RootCid(e, file), o)
    ensures o.ok && o.written == file
  {
    var root := RootCid(e, file);
    var rootProvs, lookups :| IsReading(e, remote, n.peers, n.table, n.grpc, n.store, root, o, rootProvs, lookups);
    assert BlockCids(e, file)[0] == root;
    BlockObtainable(e, w, n, remote, file, 0, rootProvs);
    ChunkListIsFixed(e, remote.get, rootProvs, n.store, file);
    ChunksOffered(e, w, n, remote, file, lookups);
    FileSucceedsIff(e, remote.get, rootProvs, lookups, n.store, file);
    GetFileIntegrity(e, remote.get, rootProvs, lookups, n.store, file);
  }

  // ----- The converse -----

  ghost predicate AtHandOrReachable(w: World, n: Member, cid: Cid) {
    cid in n.store || Reachable(w, n, cid)
  }

  lemma ObtainedWasReachable(e: Env, w: World, n: Member, remote: Remote, turn: nat, cid: Cid, provs: seq<Endpoint>)
    requires Inv(e, w) && HonestMember(e, n) && Genuine(w, n, remote, turn, cid)
    requires cid in n.store || Found(remote, turn, n.peers, n.table, n.grpc, cid, provs)
    requires Obtainable(e, remote.get, turn, n.store.Keys, cid, provs)
    ensures AtHandOrReachable(w, n, cid)
  {
    if cid !in n.store {
      var i: nat :| Serves(e, remote.get, turn, cid, provs, i);
      var id, s := ProviderIsHolder(e, w, n, remote, turn, cid, provs, provs[i]);
    }
  }

  /** Lookups through which every block was obtained. */
  ghost predicate Obtained(e: Env, n: Member, remote: Remote, file: Bytes, rootProvs: seq<Endpoint>,
                           lookups: seq<seq<Endpoint>>)
  {
    var root, cids := RootCid(e, file), Hashes(e, Chunks(file));
    && (root in n.store || Found(remote, 0, n.peers, n.table, n.grpc, root, rootProvs))
    && Obtainable(e, remote.get, 0, n.store.Keys, root, rootProvs)
    && AllFound(remote, n.peers, n.table, n.grpc, cids, lookups, |cids|)
    && ChunksObtainable(e, remote.get, lookups, n.store.Keys + {root}, cids, |cids|)
  }

  lemma ReadingObtains(e: Env, n: Member, remote: Remote, file: Bytes, o: Outcome)
    returns (rootProvs: seq<Endpoint>, lookups: seq<seq<Endpoint>>)
    requires e.Valid() && NoSecondPreimage(e, BlockSet(e, file)) && Verified(e, n.store)
    requires Reads(e, n, remote, RootCid(e, file), o) && o.ok
    ensures Obtained(e, n, remote, file, rootProvs, lookups)
  {
    var root := RootCid(e, file);
    rootProvs, lookups :| IsReading(e, remote, n.peers, n.table, n.grpc, n.store, root, o, rootProvs, lookups);
    FileSucceedsIff(e, remote.get, rootProvs, lookups, n.store, file);
    ChunkListIsFixed(e, remote.get, rootProvs, n.store, file);
  }

  lemma {:induction false} FirstOccurrence(cids: seq<Cid>, i: nat) returns (first: nat)
    requires i < |cids|
    ensures first <= i && cids[first] == cids[i] && cids[first] !in cids[..first]
  {
    if cids[i] in cids[..i] {
      var j :| 0 <= j < i && cids[..i][j] == cids[i];
      first := FirstOccurrence(cids, j);
    } else {
      first := i;
    }
  }

  lemma RootWasReachable(e: Env, w: World, n: Member, remote: Remote, file: Bytes, rootProvs: seq<Endpoint>,
                         lookups: seq<seq<Endpoint>>)
    requires Inv(e, w) && HonestMember(e, n) && AllGenuine(e, w, n, remote, file)
    requires Obtained(e, n, remote, file, rootProvs, lookups)
    ensures AtHandOrReachable(w, n, RootCid(e, file))
  {
    assert BlockCids(e, file)[0] == RootCid(e, file) && Genuine(w, n, remote, 0, BlockCids(e, file)[0]);
    ObtainedWasReachable(e, w, n, remote, 0, RootCid(e, file), rootProvs);
  }

  lemma FirstChunkIsNew(e: Env, file: Bytes, turn: nat, i: nat)
    requires turn < |BlockCids(e, file)| && turn == i + 1
    requires BlockCids(e, file)[turn] !in BlockCids(e, file)[..turn]
    ensures i < |Chunks(file)| && Hashes(e, Chunks(file))[i] == BlockCids(e, file)[turn]
    ensures BlockCids(e, file)[turn] != RootCid(e, file)
    ensures BlockCids(e, file)[turn] !in Hashes(e, Chunks(file))[..i]
  {
    assert BlockCids(e, file)[..turn] == [RootCid(e, file)] + Hashes(e, Chunks(file))[..i];
  }

  /** A chunk that is not at hand by then was served by the providers found for it. */
  lemma NewChunkIsServed(e: Env, net: Net, lookups: seq<seq<Endpoint>>, local: set<Cid>, root: Cid,
                         cids: seq<Cid>, i: nat)
    requires ChunksObtainable(e, net, lookups, local + {root}, cids, |cids|) && i < |cids| && i < |lookups|
    requires cids[i] != root && cids[i] !in cids[..i]
    ensures Obtainable(e, net, i + 1, local, cids[i], lookups[i])
  {
    assert ChunkObtainable(e, net, lookups, local + {root}, cids, i);
  }

  lemma FirstChunkWasReachable(e: Env, w: World, n: Member, remote: Remote, file: Bytes,
                               rootProvs: seq<Endpoint>, lookups: seq<seq<Endpoint>>, turn: nat, i: nat)
    requires Inv(e, w) && HonestMember(e, n) && AllGenuine(e, w, n, remote, file)
    requires Obtained(e, n, remote, file, rootProvs, lookups)
    requires turn < |BlockCids(e, file)| && turn == i + 1
    requires BlockCids(e, file)[turn] !in BlockCids(e, file)[..turn]
    ensures AtHandOrReachable(w, n, BlockCids(e, file)[turn])
  {
    FirstChunkIsNew(e, file, turn, i);
    NewChunkIsServed(e, remote.get, lookups, n.store.Keys, RootCid(e, file), Hashes(e, Chunks(file)), i);
    assert Genuine(w, n, remote, turn, BlockCids(e, file)[turn]);
    ObtainedWasReachable(e, w, n, remote, turn, BlockCids(e, file)[turn], lookups[i]);
  }

  lemma FirstBlockWasReachable(e: Env, w: World, n: Member, remote: Remote, file: Bytes,
                               rootProvs: seq<Endpoint>, lookups: seq<seq<Endpoint>>, first: nat)
    requires Inv(e, w) && HonestMember(e, n) && AllGenuine(e, w, n, remote, file)
    requires Obtained(e, n, remote, file, rootProvs, lookups) && first < |BlockCids(e, file)|
    requires BlockCids(e, file)[first] !in BlockCids(e, file)[..first]
    ensures AtHandOrReachable(w, n, BlockCids(e, file)[first])
  {
    if first == 0 {
      RootWasReachable(e, w, n, remote, file, rootProvs, lookups);
    } else {
      FirstChunkWasReachable(e, w, n, remote, file, rootProvs, lookups, first, first - 1);
    }
  }

  /** A download that succeeds found every block locally or at a listed node that announces it. */
  lemma ReadFileWasReachable(e: Env, w: World, n: Member, remote: Remote, file: Bytes, o: Outcome)
    requires e.Valid() && NoSecondPreimage(e, BlockSet(e, file))
    requires Inv(e, w) && HonestMember(e, n) && AllGenuine(e, w, n, remote, file)
    requires Reads(e, n, remote, RootCid(e, file), o) && o.ok
    ensures forall c | c in BlockCids(e, file) :: AtHandOrReachable(w, n, c)
  {
    var rootProvs, lookups := ReadingObtains(e, n, remote, file, o);
    forall c | c in BlockCids(e, file) ensures AtHandOrReachable(w, n, c) {
      var turn: nat :| turn < |BlockCids(e, file)| && BlockCids(e, file)[turn] == c;
      var first := FirstOccurrence(BlockCids(e, file), turn);
      FirstBlockWasReachable(e, w, n, remote, file, rootProvs, lookups, first);
    }
  }

  /** No call to a running listed node fails during this download. */
  ghost predicate AllRespond(e: Env, w: World, n: Member, remote: Remote, file: Bytes) {
    forall turn: nat, id, s | turn < |BlockCids(e, file)| && Listed(w, n, id, s) ::
      Responds(w, remote, turn, BlockCids(e, file)[turn], id, s)
  }

  /**
   Availability is exact: when the running nodes respond, a download succeeds if and only if every
   block is local or announced by a running node whose address the reader lists as active.
   */
  lemma DownloadSucceedsIff(e: Env, w: World, n: Member, remote: Remote, file: Bytes, o: Outcome)
    requires e.Valid() && NoSecondPreimage(e, BlockSet(e, file))
    requires Inv(e, w) && HonestMember(e, n) && AllGenuine(e, w, n, remote, file)
    requires AllRespond(e, w, n, remote, file)
    requires Reads(e, n, remote, RootCid(e, file), o)
    ensures o.ok <==> forall c | c in BlockCids(e, file) :: AtHandOrReachable(w, n, c)
  {
    if o.ok {
      ReadFileWasReachable(e, w, n, remote, file, o);
    } else if forall c | c in BlockCids(e, file) :: AtHandOrReachable(w, n, c) {
      forall turn: nat | turn < |BlockCids(e, file)| ensures BlockOffered(e, w, n, remote, file, turn) {
        ReachableIsOffered(e, w, n, remote, file, turn);
      }
      OfferedFileIsRead(e, w, n, remote, file, o);
    }
  }

  lemma ReachableIsOffered(e: Env, w: World, n: Member, remote: Remote, file: Bytes, turn: nat)
    requires AllRespond(e, w, n, remote, file) && turn < |BlockCids(e, file)|
    requires AtHandOrReachable(w, n, BlockCids(e, file)[turn])
    ensures BlockOffered(e, w, n, remote, file, turn)
  {
    var cid := BlockCids(e, file)[turn];
    if cid !in n.store {
      var id, s :| Listed(w, n, id, s) && Announces(w, s, cid);
      assert Responds(w, remote, turn, cid, id, s);
    }
  }

  // ----- A network in which no call fails -----

  ghost predicate ServesAt(w: World, addr: string, s: string) {
    Runs(w, s) && w.nodes[s].grpc == addr
  }

  /** The FindProvider reply of the running node at this address; None when there is none. */
  ghost function PerfectFind(w: World, addr: string, cid: Cid): Option<seq<Endpoint>> {
    if s :| ServesAt(w, addr, s) then Some(if cid in w.nodes[s].table then [EndpointOf(w.nodes[s])] else [])
    else None
  }

  ghost function PerfectGet(w: World, addr: string, cid: Cid): Option<Bytes> {
    if s :| ServesAt(w, addr, s) then Some(if cid in w.nodes[s].store then w.nodes[s].store[cid] else "")
    else None
  }

  ghost function PerfectRemote(w: World, n: Member, cids: seq<Cid>): Remote {
    Remote((turn: nat, id: string) =>
             if turn < |cids| && id in n.peers then PerfectFind(w, n.peers[id].grpc, cids[turn]) else None,
           (call: Call) => PerfectGet(w, call.addr, call.cid))
  }

  lemma PerfectFindIsGenuine(e: Env, w: World, addr: string, cid: Cid)
    requires Inv(e, w)
    ensures PerfectFind(w, addr, cid).Some? ==> FindReply(w, addr, cid, PerfectFind(w, addr, cid).value)
  {
    if s0 :| ServesAt(w, addr, s0) {
      var s :| ServesAt(w, addr, s)
        && PerfectFind(w, addr, cid) == Some(if cid in w.nodes[s].table then [EndpointOf(w.nodes[s])] else []);
      assert HonestMember(e, w.nodes[s]);
      OwnRecords(e, w.nodes[s], cid);
    }
  }

  lemma PerfectGetIsGenuine(w: World, addr: string, cid: Cid)
    ensures PerfectGet(w, addr, cid).Some? ==> GetReply(w, addr, cid, PerfectGet(w, addr, cid).value)
  {
    if s0 :| ServesAt(w, addr, s0) {
      var s :| ServesAt(w, addr, s)
        && PerfectGet(w, addr, cid) == Some(if cid in w.nodes[s].store then w.nodes[s].store[cid] else "");
    }
  }

  lemma PerfectAnswers(w: World, addr: string, cid: Cid, s: string)
    requires ServesAt(w, addr, s)
    ensures PerfectFind(w, addr, cid).Some? && PerfectGet(w, addr, cid).Some?
  {}

  lemma OwnRecords(e: Env, n: Member, cid: Cid)
    requires HonestMember(e, n)
    ensures IsListing(if cid in n.table then [EndpointOf(n)] else [], RecordsOf(n.table, cid))
  {
    assert PeerIds([EndpointOf(n)]) == {n.id};
  }

  /** The assumptions on answers can always be met: by a network in which no call fails. */
  lemma SomeNetworkIsPerfect(e: Env, w: World, n: Member, file: Bytes) returns (remote: Remote)
    requires Inv(e, w)
    ensures AllGenuine(e, w, n, remote, file) && AllRespond(e, w, n, remote, file)
  {
    var cids := BlockCids(e, file);
    remote := PerfectRemote(w, n, cids);
    forall turn: nat | turn < |cids| ensures Genuine(w, n, remote, turn, cids[turn]) {
      forall id | id in n.peers && remote.find(turn, id).Some?
        ensures FindReply(w, n.peers[id].grpc, cids[turn], remote.find(turn, id).value)
      {
        PerfectFindIsGenuine(e, w, n.peers[id].grpc, cids[turn]);
      }
      forall k: nat, addr | remote.get(Call(turn, k, addr, cids[turn])).Some?
        ensures GetReply(w, addr, cids[turn], remote.get(Call(turn, k, addr, cids[turn])).value)
      {
        PerfectGetIsGenuine(w, addr, cids[turn]);
      }
    }
    forall turn: nat, id, s | turn < |cids| && Listed(w, n, id, s)
      ensures Responds(w, remote, turn, cids[turn], id, s)
    {
      PerfectAnswers(w, n.peers[id].grpc, cids[turn], s);
    }
  }

  // ----- Runs -----

  /**
   Step j is a download of this file, its calls reach genuine nodes, and each block is either
   local or held by a listed node that has survived since it uploaded or accepted the block, and
   that responds.
   */
  ghost predicate SurvivingCopies(e: Env, states: seq<World>, acts: seq<Action>, j: nat, file: Bytes)
    requires j < |acts| < |states| && acts[j].Download? && acts[j].at in states[j].nodes
  {
    var n := states[j].nodes[acts[j].at];
    && AllGenuine(e, states[j], n, acts[j].remote, file)
    && forall turn: nat | turn < |BlockCids(e, file)| ::
         Survives(e, states, acts, j, n, acts[j].remote, turn, BlockCids(e, file)[turn])
  }

  /** Before step j some node got this block that n now lists and that responds in this turn. */
  ghost predicate Survives(e: Env, states: seq<World>, acts: seq<Action>, j: nat, n: Member, remote: Remote,
                           turn: nat, cid: Cid)
    requires j < |acts| < |states|
  {
    || cid in n.store
    || exists i: nat, id, s :: i < j && Gained(e, acts[i], s, cid) && Listed(states[j], n, id, s)
                               && Responds(states[j], remote, turn, cid, id, s)
  }

  /**
   Fault tolerance: in every run from an honest start, whatever was lost or crashed, such a
   download writes exactly the bytes of the file and reports no error.
   */
  lemma FaultTolerance(e: Env, states: seq<World>, acts: seq<Action>, j: nat, file: Bytes)
    requires e.Valid() && NoSecondPreimage(e, BlockSet(e, file))
    requires IsRun(e, states, acts) && Inv(e, states[0]) && j < |acts|
    requires acts[j].Download? && acts[j].root == RootCid(e, file) && Runs(states[j], acts[j].at)
    requires SurvivingCopies(e, states, acts, j, file)
    ensures acts[j].outcome.ok && acts[j].outcome.written == file
  {
    var w, n := states[j], states[j].nodes[acts[j].at];
    RunIsHonest(e, states, acts, j);
    assert HonestMember(e, n);
    forall turn: nat | turn < |BlockCids(e, file)|
      ensures BlockOffered(e, w, n, acts[j].remote, file, turn)
    {
      SurvivorOffers(e, states, acts, j, n, acts[j].remote, turn, BlockCids(e, file)[turn]);
    }
    assert Reads(e, n, acts[j].remote, acts[j].root, acts[j].outcome) by {
      assert StepAt(e, states, acts, j);
    }
    OfferedFileIsRead(e, w, n, acts[j].remote, file, acts[j].outcome);
  }

  lemma SurvivorOffers(e: Env, states: seq<World>, acts: seq<Action>, j: nat, n: Member, remote: Remote,
                       turn: nat, cid: Cid)
    requires e.Valid() && IsRun(e, states, acts) && Inv(e, states[0]) && j < |acts|
    requires Survives(e, states, acts, j, n, remote, turn, cid)
    ensures cid in n.store || Offered(states[j], n, remote, turn, cid)
  {
    if cid !in n.store {
      var i: nat, id, s :| i < j && Gained(e, acts[i], s, cid) && Listed(states[j], n, id, s)
                           && Responds(states[j], remote, turn, cid, id, s);
      GainedStaysAnnounced(e, states, acts, i, j, s, cid);
    }
  }

  /** None of the calls to node s fails during the download of this file. */
  ghost predicate RespondsToAll(e: Env, w: World, remote: Remote, file: Bytes, id: string, s: string)
    requires s in w.nodes
  {
    forall turn: nat | turn < |BlockCids(e, file)| :: Responds(w, remote, turn, BlockCids(e, file)[turn], id, s)
  }

  /** The uploader alone suffices: while it runs and responds, whatever became of the replicas. */
  lemma UploaderSuffices(e: Env, states: seq<World>, acts: seq<Action>, i: nat, j: nat, id: string)
    requires IsRun(e, states, acts) && Inv(e, states[0]) && e.Valid() && i < j < |acts|
    requires acts[i].Upload? && NoSecondPreimage(e, BlockSet(e, acts[i].file))
    requires acts[j].Download? && acts[j].root == RootCid(e, acts[i].file) && Runs(states[j], acts[j].at)
    requires
      var w, n := states[j], states[j].nodes[acts[j].at];
      && AllGenuine(e, w, n, acts[j].remote, acts[i].file)
      && (acts[i].at == acts[j].at
          || (Listed(w, n, id, acts[i].at) && RespondsToAll(e, w, acts[j].remote, acts[i].file, id, acts[i].at)))
    ensures acts[j].outcome.ok && acts[j].outcome.written == acts[i].file
  {
    var w, n, file, u := states[j], states[j].nodes[acts[j].at], acts[i].file, acts[i].at;
    forall turn: nat | turn < |BlockCids(e, file)|
      ensures Survives(e, states, acts, j, n, acts[j].remote, turn, BlockCids(e, file)[turn])
    {
      assert Gained(e, acts[i], u, BlockCids(e, file)[turn]);
      if u == acts[j].at {
        GainedStaysAnnounced(e, states, acts, i, j, u, BlockCids(e, file)[turn]);
      }
    }
    FaultTolerance(e, states, acts, j, file);
  }
}
