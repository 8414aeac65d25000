/**
 How many copies an upload leaves behind, and how many crashes they outlast: the replicas chosen by
 XOR distance, the requests that reach them, and the downloads that find them.
 */
module Replication {
  import opened Wrappers
  import opened XorDistance
  import opened Content
  import opened PeerRegistry
  import opened Routing
  import opened Transfer
  import opened Host
  import opened Network
  import opened Availability

  ghost function ReplicaCandidates(n: Member): set<string> {
    set id | id in n.peers && MayReplicate(n.peers, n.id, id)
  }

  /** The uploader's registry lists each possible replica at its address. */
  ghost predicate Accurate(w: World, n: Member) {
    forall id | id in ReplicaCandidates(n) ::
      id in w.nodes && n.peers[id].grpc == w.nodes[id].grpc && w.nodes[id].grpc != ""
  }

  /** How many replicas of a block an upload makes: as many as asked for, if there are that many peers. */
  ghost function Degree(n: Member): nat {
    var eligible := |ReplicaCandidates(n)|;
    if n.replFactor <= 0 then 0 else if eligible > n.replFactor then n.replFactor else eligible
  }

  lemma {:induction false} AddressesHave(v: View, ids: seq<string>, id: string)
    requires id in ids && id in v && v[id].grpc != ""
    ensures v[id].grpc in Addresses(v, ids)
  {
    var front, last := ids[..|ids| - 1], ids[|ids| - 1];
    if id != last {
      assert ids == front + [last];
      AddressesHave(v, front, id);
    }
  }

  /** A request goes to every selected peer that has an address. */
  lemma {:induction false} DispatchReaches(v: View, store: Store, cids: seq<Cid>, plans: seq<seq<string>>,
                                           n: nat, b: nat, id: string)
    requires n <= |cids| && n <= |plans| && forall c | c in cids :: c in store
    requires b < n && id in plans[b] && id in v && v[id].grpc != ""
    ensures Message(v[id].grpc, cids[b], store[cids[b]]) in Dispatch(v, store, cids, plans, n)
  {
    if b == n - 1 {
      AddressesHave(v, plans[b], id);
      var addrs := Addresses(v, plans[b]);
      var i :| 0 <= i < |addrs| && addrs[i] == v[id].grpc;
      assert MessagesTo(addrs, cids[b], store[cids[b]])[i] == Message(v[id].grpc, cids[b], store[cids[b]]);
    } else {
      DispatchReaches(v, store, cids, plans, n - 1, b, id);
    }
  }

  lemma {:induction false} AddressesComeFrom(v: View, ids: seq<string>, addr: string) returns (id: string)
    requires addr in Addresses(v, ids)
    ensures id in ids && id in v && v[id].grpc == addr && addr != ""
  {
    var front, last := ids[..|ids| - 1], ids[|ids| - 1];
    if addr in Addresses(v, front) {
      id := AddressesComeFrom(v, front, addr);
    } else {
      id := last;
    }
  }

  /** A request that a selected peer with an address is due. */
  ghost predicate IsDue(v: View, store: Store, cids: seq<Cid>, plans: seq<seq<string>>, b: nat, id: string,
                        m: Message)
  {
    && b < |cids| && b < |plans| && id in plans[b] && id in v && v[id].grpc != ""
    && cids[b] in store && m == Message(v[id].grpc, cids[b], store[cids[b]])
  }

  lemma {:induction false} DispatchOnlyReaches(v: View, store: Store, cids: seq<Cid>, plans: seq<seq<string>>,
                                               n: nat, m: Message)
    returns (b: nat, id: string)
    requires n <= |cids| && n <= |plans| && forall c | c in cids :: c in store
    requires m in Dispatch(v, store, cids, plans, n)
    ensures b < n && IsDue(v, store, cids, plans, b, id, m)
  {
    if m in Dispatch(v, store, cids, plans, n - 1) {
      b, id := DispatchOnlyReaches(v, store, cids, plans, n - 1, m);
    } else {
      b := n - 1;
      id := AddressesComeFrom(v, plans[b], m.addr);
    }
  }

  ghost function WithAddress(v: View, ids: seq<string>): set<string> {
    set id | id in ids && id in v && v[id].grpc != ""
  }

  /** How many requests are due for the first n blocks: one for each selected peer with an address. */
  ghost function DueCount(v: View, plans: seq<seq<string>>, n: nat): nat
    requires n <= |plans|
  {
    if n == 0 then 0
    else DueCount(v, plans, n - 1) + |WithAddress(v, plans[n - 1])|
  }

  lemma OneMoreAddress(v: View, front: seq<string>, last: string)
    requires last !in front
    ensures WithAddress(v, front + [last])
         == WithAddress(v, front) + if last in v && v[last].grpc != "" then {last} else {}
    ensures last !in WithAddress(v, front)
  {}

  lemma {:induction false} AddressCount(v: View, ids: seq<string>)
    requires NoDuplicates(ids)
    ensures |Addresses(v, ids)| == |WithAddress(v, ids)|
  {
    if ids != [] {
      var front, last := ids[..|ids| - 1], ids[|ids| - 1];
      AddressCount(v, front);
      OneMoreAddress(v, front, last);
      assert ids == front + [last];
    }
  }

  lemma {:induction false} DispatchCount(v: View, store: Store, cids: seq<Cid>, plans: seq<seq<string>>, n: nat)
    requires n <= |cids| && n <= |plans| && forall c | c in cids :: c in store
    requires forall plan | plan in plans :: NoDuplicates(plan)
    ensures |Dispatch(v, store, cids, plans, n)| == DueCount(v, plans, n)
  {
    if n > 0 {
      DispatchCount(v, store, cids, plans, n - 1);
      assert plans[n - 1] in plans;
      AddressCount(v, plans[n - 1]);
    }
  }

  ghost predicate AreChoices(v: View, cids: seq<Cid>, k: int, selfID: string, plans: seq<seq<string>>) {
    |plans| == |cids| && forall b: nat | b < |cids| :: IsChoiceFor(v, cids[b], k, selfID, plans[b])
  }

  ghost predicate IsChoiceFor(v: View, cid: Cid, k: int, selfID: string, plan: seq<string>) {
    KeyFromHex(cid).Some? && IsReplicaChoice(v, KeyFromHex(cid).value, k, selfID, plan)
  }

  lemma PlansAreChoices(v: View, cids: seq<Cid>, k: int, selfID: string, plans: seq<seq<string>>)
    requires WellKeyed(v) && |plans| == |cids| && AllSelected(v, cids, k, selfID, plans)
    ensures AreChoices(v, cids, k, selfID, plans) && forall plan | plan in plans :: NoDuplicates(plan)
  {
    forall b: nat | b < |cids| ensures IsChoiceFor(v, cids[b], k, selfID, plans[b]) {
      assert IsSelection(v, cids[b], k, selfID, plans[b]);
      SelectionIsReplicaChoice(v, cids[b], k, selfID, plans[b]);
    }
  }

  lemma DispatchIsDue(v: View, store: Store, cids: seq<Cid>, plans: seq<seq<string>>, m: Message)
    requires |plans| == |cids| && forall c | c in cids :: c in store
    ensures m in Dispatch(v, store, cids, plans, |cids|) <==>
            exists b: nat, id :: IsDue(v, store, cids, plans, b, id, m)
  {
    if m in Dispatch(v, store, cids, plans, |cids|) {
      var b, id := DispatchOnlyReaches(v, store, cids, plans, |cids|, m);
    }
    if b: nat, id :| IsDue(v, store, cids, plans, b, id, m) {
      DispatchReaches(v, store, cids, plans, |cids|, b, id);
    }
  }

  /**
   Who gets which blocks: for each block some choice of the closest Active others, as many as the
   replication factor asks for, and one request with that block to each of them that has an address,
   and to nobody else.
   */
  lemma RequestsGoToReplicas(v: View, store: Store, cids: seq<Cid>, k: int, selfID: string, sent: seq<Message>)
    returns (plans: seq<seq<string>>)
    requires WellKeyed(v) && (forall c | c in cids :: c in store) && IsReplication(v, store, cids, k, selfID, sent)
    ensures AreChoices(v, cids, k, selfID, plans)
    ensures forall m :: m in sent <==> exists b: nat, id :: IsDue(v, store, cids, plans, b, id, m)
    ensures |sent| == DueCount(v, plans, |plans|)
  {
    plans :| |plans| == |cids| && AllSelected(v, cids, k, selfID, plans)
      && sent == Dispatch(v, store, cids, plans, |cids|);
    PlansAreChoices(v, cids, k, selfID, plans);
    DispatchCount(v, store, cids, plans, |cids|);
    forall m ensures m in sent <==> exists b: nat, id :: IsDue(v, store, cids, plans, b, id, m) {
      DispatchIsDue(v, store, cids, plans, m);
    }
  }

  lemma SelectionIsFull(n: Member, cid: Cid, plan: seq<string>)
    requires WellKeyed(n.peers) && IsSelection(n.peers, cid, n.replFactor, n.id, plan)
    ensures Elements(plan) <= ReplicaCandidates(n) && |Elements(plan)| == Degree(n)
  {
    SelectionIsReplicaChoice(n.peers, cid, n.replFactor, n.id, plan);
    ElementCount(plan);
  }

  ghost predicate IsSent(sent: seq<Message>, addr: string, cid: Cid) {
    exists m :: m in sent && m.addr == addr && m.cid == cid
  }

  /** The replicas of one block: as many other nodes as the degree says, and a request to each. */
  ghost predicate AreReplicas(w: World, n: Member, cid: Cid, sent: seq<Message>, replicas: set<string>) {
    && |replicas| == Degree(n) && n.id !in replicas && replicas <= w.nodes.Keys
    && forall id | id in replicas :: IsSent(sent, w.nodes[id].grpc, cid)
  }

  lemma PlanIsReplicas(w: World, n: Member, store: Store, cids: seq<Cid>, plans: seq<seq<string>>, b: nat)
    requires WellKeyed(n.peers) && Accurate(w, n)
    requires |plans| == |cids| && AllSelected(n.peers, cids, n.replFactor, n.id, plans)
    requires b < |cids| && forall c | c in cids :: c in store
    ensures AreReplicas(w, n, cids[b], Dispatch(n.peers, store, cids, plans, |cids|), Elements(plans[b]))
  {
    SelectionIsFull(n, cids[b], plans[b]);
    var sent := Dispatch(n.peers, store, cids, plans, |cids|);
    forall id | id in Elements(plans[b]) ensures IsSent(sent, w.nodes[id].grpc, cids[b]) {
      assert id in ReplicaCandidates(n);
      DispatchReaches(n.peers, store, cids, plans, |cids|, b, id);
    }
  }

  lemma UploadChoosesReplicas(e: Env, w: World, n: Member, file: Bytes, sent: seq<Message>, turn: nat)
    returns (replicas: set<string>)
    requires WellKeyed(n.peers) && Accurate(w, n) && IsUpload(e, n, file, sent) && turn < |BlockCids(e, file)|
    ensures AreReplicas(w, n, BlockCids(e, file)[turn], sent, replicas)
  {
    var st, cids := Uploaded(e, n, file).store, BlockCids(e, file);
    var plans :| |plans| == |cids| && AllSelected(n.peers, cids, n.replFactor, n.id, plans)
      && sent == Dispatch(n.peers, st, cids, plans, |cids|);
    PlanIsReplicas(w, n, st, cids, plans, turn);
    replicas := Elements(plans[turn]);
  }

  /** Every request of the upload in step i has been delivered, at least once, before step j. */
  ghost predicate AllDelivered(acts: seq<Action>, sent: seq<Message>, i: nat, j: nat)
    requires j <= |acts|
  {
    forall m | m in sent :: exists k :: DeliveredAt(acts, m, i, j, k)
  }

  ghost predicate DeliveredAt(acts: seq<Action>, m: Message, i: nat, j: nat, k: nat)
    requires j <= |acts|
  {
    i < k < j && acts[k].Deliver? && acts[k].msg == m
  }

  /** A request is delivered to the one node with its address. */
  lemma DeliveredTo(e: Env, states: seq<World>, acts: seq<Action>, i: nat, j: nat, k: nat, m: Message, id: string)
    requires e.Valid() && IsRun(e, states, acts) && Inv(e, states[0]) && j <= |acts|
    requires DeliveredAt(acts, m, i, j, k) && id in states[i].nodes && m.addr == states[i].nodes[id].grpc
    ensures acts[k].at == id
  {
    RunKeepsAll(e, states, acts, i, k);
    RunIsHonest(e, states, acts, k);
    assert StepAt(e, states, acts, k);
    assert Keeps(e, states[i].nodes[id], states[k].nodes[id]);
  }

  lemma ReplicaAnnounces(e: Env, states: seq<World>, acts: seq<Action>, sent: seq<Message>, i: nat, j: nat,
                         cid: Cid, id: string)
    requires e.Valid() && IsRun(e, states, acts) && Inv(e, states[0]) && i < j <= |acts|
    requires AllDelivered(acts, sent, i, j) && id in states[i].nodes
    requires IsSent(sent, states[i].nodes[id].grpc, cid)
    ensures Announces(states[j], id, cid)
  {
    var m :| m in sent && m.addr == states[i].nodes[id].grpc && m.cid == cid;
    var k :| DeliveredAt(acts, m, i, j, k);
    DeliveredTo(e, states, acts, i, j, k, m, id);
    GainedStaysAnnounced(e, states, acts, k, j, id, cid);
  }

  /** The nodes that hold and announce one block of the uploaded file. */
  ghost predicate AreHolders(w: World, cid: Cid, holders: set<string>) {
    forall id | id in holders :: Announces(w, id, cid)
  }

  /**
   Replication degree: once all requests of an upload are delivered, every block is held and
   announced for good by the uploader and by as many more nodes as the replication factor asks for,
   or by all that were eligible, if they are fewer.
   */
  lemma ReplicationDegree(e: Env, states: seq<World>, acts: seq<Action>, i: nat, j: nat, turn: nat)
    returns (holders: set<string>)
    requires e.Valid() && IsRun(e, states, acts) && Inv(e, states[0]) && i < j <= |acts|
    requires acts[i].Upload? && acts[i].at in states[i].nodes && Accurate(states[i], states[i].nodes[acts[i].at])
    requires AllDelivered(acts, acts[i].sent, i, j) && turn < |BlockCids(e, acts[i].file)|
    ensures acts[i].at in holders && |holders| == Degree(states[i].nodes[acts[i].at]) + 1
    ensures AreHolders(states[j], BlockCids(e, acts[i].file)[turn], holders)
  {
    var u, cid := acts[i].at, BlockCids(e, acts[i].file)[turn];
    var replicas := ReplicasOfUpload(e, states, acts, i, turn);
    holders := replicas + {u};
    GainedStaysAnnounced(e, states, acts, i, j, u, cid);
    forall id | id in replicas ensures Announces(states[j], id, cid) {
      ReplicaAnnounces(e, states, acts, acts[i].sent, i, j, cid, id);
    }
  }

  lemma ReplicasOfUpload(e: Env, states: seq<World>, acts: seq<Action>, i: nat, turn: nat)
    returns (replicas: set<string>)
    requires e.Valid() && IsRun(e, states, acts) && Inv(e, states[0]) && i < |acts|
    requires acts[i].Upload? && acts[i].at in states[i].nodes && Accurate(states[i], states[i].nodes[acts[i].at])
    requires turn < |BlockCids(e, acts[i].file)|
    ensures acts[i].at !in replicas
    ensures AreReplicas(states[i], states[i].nodes[acts[i].at], BlockCids(e, acts[i].file)[turn], acts[i].sent,
                        replicas)
  {
    RunIsHonest(e, states, acts, i);
    assert StepAt(e, states, acts, i);
    assert states[i].nodes[acts[i].at].id == acts[i].at;
    replicas := UploadChoosesReplicas(e, states[i], states[i].nodes[acts[i].at], acts[i].file, acts[i].sent, turn);
  }

  ghost function Down(w: World): set<string> {
    set k | k in w.nodes && !w.nodes[k].up
  }

  /** Fewer crashes than holders leave a holder that runs. */
  lemma SomeHolderRuns(w: World, cid: Cid, holders: set<string>) returns (id: string)
    requires AreHolders(w, cid, holders) && |Down(w)| < |holders|
    ensures id in holders && Network.Runs(w, id)
  {
    if forall h | h in holders :: h in Down(w) {
      SubsetSize(holders, Down(w));
      assert false;
    }
    id :| id in holders && id !in Down(w);
  }

  /** The reader's registry lists every other running node as active at its address. */
  ghost predicate ListsAllRunning(w: World, n: Member) {
    forall s | Runs(w, s) && s != n.id :: exists id :: Listed(w, n, id, s)
  }

  lemma RunningHolderIsReachable(e: Env, w: World, r: string, s: string, cid: Cid)
    requires Inv(e, w) && r in w.nodes && ListsAllRunning(w, w.nodes[r])
    requires Runs(w, s) && Announces(w, s, cid)
    ensures AtHandOrReachable(w, w.nodes[r], cid)
  {
    assert w.nodes[r].id == r;
    if s != r {
      var id :| Listed(w, w.nodes[r], id, s);
    }
  }

  lemma BlockSurvives(e: Env, states: seq<World>, acts: seq<Action>, i: nat, j: nat, turn: nat, r: string)
    requires e.Valid() && IsRun(e, states, acts) && Inv(e, states[0]) && i < j <= |acts|
    requires acts[i].Upload? && acts[i].at in states[i].nodes && Accurate(states[i], states[i].nodes[acts[i].at])
    requires AllDelivered(acts, acts[i].sent, i, j) && turn < |BlockCids(e, acts[i].file)|
    requires |Down(states[j])| <= Degree(states[i].nodes[acts[i].at])
    requires r in states[j].nodes && ListsAllRunning(states[j], states[j].nodes[r])
    ensures AtHandOrReachable(states[j], states[j].nodes[r], BlockCids(e, acts[i].file)[turn])
  {
    var cid := BlockCids(e, acts[i].file)[turn];
    var holders := ReplicationDegree(e, states, acts, i, j, turn);
    var s := SomeHolderRuns(states[j], cid, holders);
    RunIsHonest(e, states, acts, j);
    assert Announces(states[j], s, cid);
    RunningHolderIsReachable(e, states[j], r, s, cid);
  }

  /**
   Crashes tolerated: once all requests of an upload are delivered, as many nodes as the replication
   degree may crash, any of them and in any order, and every running node that lists the others as
   active still downloads exactly the file.
   */
  lemma ToleratesCrashes(e: Env, states: seq<World>, acts: seq<Action>, i: nat, j: nat)
    requires e.Valid() && IsRun(e, states, acts) && Inv(e, states[0]) && i < j < |acts|
    requires acts[i].Upload? && NoSecondPreimage(e, BlockSet(e, acts[i].file))
    requires acts[i].at in states[i].nodes && Accurate(states[i], states[i].nodes[acts[i].at])
    requires AllDelivered(acts, acts[i].sent, i, j)
    requires |Down(states[j])| <= Degree(states[i].nodes[acts[i].at])
    requires acts[j].Download? && acts[j].root == RootCid(e, acts[i].file) && Runs(states[j], acts[j].at)
    requires
      var w, n := states[j], states[j].nodes[acts[j].at];
      ListsAllRunning(w, n) && AllGenuine(e, w, n, acts[j].remote, acts[i].file)
      && AllRespond(e, w, n, acts[j].remote, acts[i].file)
    ensures acts[j].outcome.ok && acts[j].outcome.written == acts[i].file
  {
    var w, n, file := states[j], states[j].nodes[acts[j].at], acts[i].file;
    RunIsHonest(e, states, acts, j);
    assert HonestMember(e, n);
    forall turn: nat | turn < |BlockCids(e, file)| ensures BlockOffered(e, w, n, acts[j].remote, file, turn) {
      BlockSurvives(e, states, acts, i, j, turn, acts[j].at);
      ReachableIsOffered(e, w, n, acts[j].remote, file, turn);
    }
    assert Reads(e, n, acts[j].remote, acts[j].root, acts[j].outcome) by {
      assert StepAt(e, states, acts, j);
    }
    OfferedFileIsRead(e, w, n, acts[j].remote, file, acts[j].outcome);
  }
}
