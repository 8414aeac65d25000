/**
 Provider records and their lookup (internal/dht/provider_records.go, internal/dht/lookup.go):
 which peers announce a block, and the fan-out that asks every active peer and merges the
 answers under a lock, in whatever order they arrive.
 */
module Providers {
  import opened Wrappers
  import opened Content
  import opened PeerRegistry

  datatype Endpoint = Endpoint(peerId: string, grpc: string, http: string)

  /** Block CID, then peer ID, to the peer's endpoint. */
  type Table = map<Cid, map<string, Endpoint>>

  function RecordsOf(t: Table, cid: Cid): map<string, Endpoint> {
    if cid in t then t[cid] else map[]
  }

  function Announced(t: Table, cid: Cid, ep: Endpoint): Table {
    if ep.peerId == "" then t else t[cid := RecordsOf(t, cid)[ep.peerId := ep]]
  }

  function WithoutPeer(t: Table, id: string): Table {
    if id == "" then t else map c | c in t && t[c] - {id} != map[] :: t[c] - {id}
  }

  /** The endpoint recorded for a peer and a block. */
  function EndpointAt(t: Table, cid: Cid, id: string): Option<Endpoint> {
    if cid in t && id in t[cid] then Some(t[cid][id]) else None
  }

  /** An announcement records that endpoint for that peer and block, and changes no other record. */
  lemma AnnouncedAt(t: Table, cid: Cid, ep: Endpoint, c: Cid, id: string)
    ensures EndpointAt(Announced(t, cid, ep), c, id) ==
            if ep.peerId != "" && c == cid && id == ep.peerId then Some(ep) else EndpointAt(t, c, id)
  {}

  /** A removal takes out that peer everywhere, and changes no other record. */
  lemma RemovedAt(t: Table, gone: string, c: Cid, id: string)
    ensures EndpointAt(WithoutPeer(t, gone), c, id) ==
            if gone != "" && id == gone then None else EndpointAt(t, c, id)
  {
    if c in t && id in t[c] && id != gone {
      assert id in t[c] - {gone};
    }
  }

  /** Inner maps are never empty, and each endpoint is stored under its own non-empty peer ID. */
  ghost predicate WellFormed(t: Table) {
    forall c | c in t :: t[c] != map[] && KeyedByPeer(t[c])
  }

  ghost predicate KeyedByPeer(m: map<string, Endpoint>) {
    forall id | id in m :: m[id].peerId == id != ""
  }

  function PeerIds(eps: seq<Endpoint>): set<string> {
    set ep | ep in eps :: ep.peerId
  }

  lemma PeerIdsConcat(a: seq<Endpoint>, b: seq<Endpoint>)
    ensures PeerIds(a + b) == PeerIds(a) + PeerIds(b)
  {
    assert forall ep :: ep in a + b <==> ep in a || ep in b;
  }

  ghost predicate DistinctPeers(eps: seq<Endpoint>) {
    forall i, j | 0 <= i < j < |eps| :: eps[i].peerId != eps[j].peerId
  }

  /** The endpoints of a record map in some order. */
  ghost predicate IsListing(eps: seq<Endpoint>, m: map<string, Endpoint>) {
    && DistinctPeers(eps)
    && PeerIds(eps) == m.Keys
    && forall ep | ep in eps :: m[ep.peerId] == ep
  }

  class ProviderRecords {
    var m: Table

    ghost predicate Valid()
      reads this
    {
      WellFormed(m)
    }

    constructor ()
      ensures Valid() && m == map[]
    {
      m := map[];
    }

    method Add(cid: Cid, ep: Endpoint)
      requires Valid()
      modifies this
      ensures Valid() && m == Announced(old(m), cid, ep)
    {
      if ep.peerId == "" {
        return;
      }
      if cid !in m {
        m := m[cid := map[]];
      }
      m := m[cid := m[cid][ep.peerId := ep]];
      assert ep.peerId in m[cid];
    }

    /** The endpoints recorded for a block, in the order in which the inner map is iterated. */
    method Get(cid: Cid) returns (out: seq<Endpoint>)
      requires Valid()
      ensures IsListing(out, RecordsOf(m, cid))
    {
      out := [];
      if cid !in m {
        return;
      }
      var mp := m[cid];
      var rest := mp.Keys;
      while rest != {}
        invariant rest <= mp.Keys
        invariant DistinctPeers(out) && PeerIds(out) == mp.Keys - rest
        invariant forall ep | ep in out :: ep.peerId in mp && mp[ep.peerId] == ep
      {
        var id :| id in rest;
        rest := rest - {id};
        PeerIdsConcat(out, [mp[id]]);
        assert forall i | 0 <= i < |out| :: out[i].peerId in PeerIds(out);
        out := out + [mp[id]];
      }
    }

    method RemovePeer(id: string)
      requires Valid()
      modifies this
      ensures Valid() && m == WithoutPeer(old(m), id)
    {
      if id == "" {
        return;
      }
      var rest := m.Keys;
      assert PurgedBut(m, m, id, rest);
      while rest != {}
        invariant PurgedBut(old(m), m, id, rest)
      {
        var c :| c in rest;
        PurgeOne(old(m), m, id, rest, c);
        rest := rest - {c};
        m := m[c := m[c] - {id}];
        if m[c] == map[] {
          m := m - {c};
        }
      }
    }
  }

  /** The peer is gone from every block but those in rest, which are as they were. */
  ghost predicate PurgedBut(t: Table, t': Table, id: string, rest: set<Cid>) {
    && rest <= t.Keys && t'.Keys <= t.Keys
    && forall c | c in t :: PurgedAt(t, t', id, rest, c)
  }

  ghost predicate PurgedAt(t: Table, t': Table, id: string, rest: set<Cid>, c: Cid)
    requires c in t
  {
    if c in rest then c in t' && t'[c] == t[c]
    else if t[c] - {id} == map[] then c !in t'
    else c in t' && t'[c] == t[c] - {id}
  }

  lemma PurgeOne(t: Table, t': Table, id: string, rest: set<Cid>, c: Cid)
    requires PurgedBut(t, t', id, rest) && c in rest
    ensures c in t'
    ensures
      var u := t'[c := t'[c] - {id}];
      PurgedBut(t, if u[c] == map[] then u - {c} else u, id, rest - {c})
  {
    assert PurgedAt(t, t', id, rest, c);
    var u := t'[c := t'[c] - {id}];
    var w := if u[c] == map[] then u - {c} else u;
    forall d | d in t ensures PurgedAt(t, w, id, rest - {c}, d) {
      assert PurgedAt(t, t', id, rest, d);
    }
  }

  /** The merge step: keeps the first endpoint of each peer, drops nameless ones. */
  function Merge(out: seq<Endpoint>, ep: Endpoint): seq<Endpoint> {
    if ep.peerId == "" || ep.peerId in PeerIds(out) then out else out + [ep]
  }

  /** The merge of a whole stream of endpoints, in arrival order. */
  function Dedup(eps: seq<Endpoint>): seq<Endpoint> {
    if eps == [] then [] else Merge(Dedup(eps[..|eps| - 1]), eps[|eps| - 1])
  }

  type Answers = seq<Option<seq<Endpoint>>>

  ghost predicate Answered(answers: Answers, order: seq<nat>) {
    forall k | 0 <= k < |order| :: order[k] < |answers| && answers[order[k]].Some?
  }

  /** The answers of the peers in this order, one after the other. */
  ghost function Flatten(answers: Answers, order: seq<nat>): seq<Endpoint>
    requires Answered(answers, order)
  {
    if order == [] then []
    else Flatten(answers, order[..|order| - 1]) + answers[order[|order| - 1]].value
  }

  predicate Askable(p: Peer, selfGrpc: string) {
    p.state.Active? && p.grpc != "" && p.grpc != selfGrpc
  }

  /** The positions of the peers that were asked and answered. */
  ghost function Responders(peers: seq<Peer>, selfGrpc: string, answers: Answers): set<nat>
    requires |answers| == |peers|
  {
    set i: nat | i < |peers| && Askable(peers[i], selfGrpc) && answers[i].Some?
  }

  /** An order in which the answers of these peers may take the lock. */
  ghost predicate IsArrival(order: seq<nat>, responders: set<nat>) {
    && (forall j, k | 0 <= j < k < |order| :: order[j] != order[k])
    && (forall k | 0 <= k < |order| :: order[k] in responders)
    && (forall i | i in responders :: exists k :: 0 <= k < |order| && order[k] == i)
  }

  /** A result LookupProviders may return. */
  ghost predicate IsLookup(local: map<string, Endpoint>, selfGrpc: string, peers: seq<Peer>,
                           answers: Answers, out: seq<Endpoint>)
    requires |answers| == |peers|
  {
    exists listing: seq<Endpoint>, order: seq<nat> ::
      && IsListing(listing, local) && IsArrival(order, Responders(peers, selfGrpc, answers))
      && out == Dedup(listing + Flatten(answers, order))
  }

  lemma ArrivalStep(order: seq<nat>, done: set<nat>, i: nat)
    requires IsArrival(order, done) && i !in done
    ensures IsArrival(order + [i], done + {i})
  {
    var next := order + [i];
    forall x | x in done + {i} ensures exists k :: 0 <= k < |next| && next[k] == x {
      if x == i {
        assert next[|order|] == x;
      } else {
        var k :| 0 <= k < |order| && order[k] == x;
        assert next[k] == x;
      }
    }
  }

  lemma DedupAppend(eps: seq<Endpoint>, ep: Endpoint)
    ensures Dedup(eps + [ep]) == Merge(Dedup(eps), ep)
  {
    assert (eps + [ep])[..|eps|] == eps;
  }

  /**
   The local records, then the answer of every active peer that replies. answers[i] is what
   peers[i] replies to FindProvider, None if that call fails; the picks from pending stand for
   the order in which the goroutines take the lock.
   */
  method LookupProviders(local: ProviderRecords, selfGrpc: string, peers: seq<Peer>, cid: Cid,
                         answers: Answers)
    returns (out: seq<Endpoint>)
    requires local.Valid() && |answers| == |peers|
    ensures IsLookup(RecordsOf(local.m, cid), selfGrpc, peers, answers, out)
    ensures forall id :: id in PeerIds(out) <==>
              EndpointAt(local.m, cid, id).Some? || exists i: nat :: NamedBy(peers, selfGrpc, answers, i, id)
  {
    var eps := local.Get(cid);
    out := MergeAnswer([], [], eps);
    assert [] + eps == eps;
    var asked := Asked(peers, selfGrpc);
    ghost var order;
    out, order := Gather(out, eps, asked, answers);
    assert Successful(answers, asked) == Responders(peers, selfGrpc, answers);
    LookupConfluence(RecordsOf(local.m, cid), selfGrpc, peers, answers, out);
  }

  /** The goroutines of the fan-out: each successful answer is merged in its turn at the lock. */
  method Gather(seen: seq<Endpoint>, ghost before: seq<Endpoint>, asked: set<nat>, answers: Answers)
    returns (out: seq<Endpoint>, ghost order: seq<nat>)
    requires seen == Dedup(before) && forall i | i in asked :: i < |answers|
    ensures IsArrival(order, Successful(answers, asked)) && Answered(answers, order)
    ensures out == Dedup(before + Flatten(answers, order))
  {
    out, order := seen, [];
    var pending := asked;
    assert before + Flatten(answers, order) == before;
    while pending != {}
      invariant pending <= asked
      invariant IsArrival(order, Successful(answers, asked - pending)) && Answered(answers, order)
      invariant out == Dedup(before + Flatten(answers, order))
    {
      var i :| i in pending;
      SuccessfulStep(answers, asked - pending, i);
      assert asked - (pending - {i}) == asked - pending + {i};
      if answers[i].Some? {
        out := MergeAnswer(out, before + Flatten(answers, order), answers[i].value);
        ArrivalStep(order, Successful(answers, asked - pending), i);
        FlattenStep(answers, order, i, before);
        order := order + [i];
      }
      pending := pending - {i};
    }
    assert asked - pending == asked;
  }

  ghost function Successful(answers: Answers, asked: set<nat>): set<nat> {
    set i | i in asked && i < |answers| && answers[i].Some?
  }

  lemma SuccessfulStep(answers: Answers, done: set<nat>, i: nat)
    requires i !in done && i < |answers|
    ensures i !in Successful(answers, done)
    ensures Successful(answers, done + {i})
         == Successful(answers, done) + if answers[i].Some? then {i} else {}
  {}

  lemma FlattenStep(answers: Answers, order: seq<nat>, i: nat, before: seq<Endpoint>)
    requires Answered(answers, order) && i < |answers| && answers[i].Some?
    ensures Answered(answers, order + [i])
    ensures before + Flatten(answers, order + [i])
         == before + Flatten(answers, order) + answers[i].value
  {
    assert (order + [i])[..|order|] == order;
  }

  /** The peers the fan-out asks. */
  method Asked(peers: seq<Peer>, selfGrpc: string) returns (asked: set<nat>)
    ensures forall i :: i in asked <==>
              && 0 <= i < |peers|
              && peers[i].state == Active && peers[i].grpc != "" && peers[i].grpc != selfGrpc
  {
    asked := {};
    for i := 0 to |peers|
      invariant forall j :: j in asked <==> 0 <= j < i && Askable(peers[j], selfGrpc)
    {
      if peers[i].state != Active || peers[i].grpc == "" || peers[i].grpc == selfGrpc {
        continue;
      }
      asked := asked + {i};
    }
  }

  /** The critical section of one answer. */
  method MergeAnswer(seen: seq<Endpoint>, ghost before: seq<Endpoint>, answer: seq<Endpoint>)
    returns (out: seq<Endpoint>)
    requires seen == Dedup(before)
    ensures out == Dedup(before + answer)
  {
    out := seen;
    assert before + answer[..0] == before;
    for j := 0 to |answer|
      invariant out == Dedup(before + answer[..j])
    {
      assert before + answer[..j + 1] == before + answer[..j] + [answer[j]];
      DedupAppend(before + answer[..j], answer[j]);
      out := Merge(out, answer[j]);
    }
    assert answer[..|answer|] == answer;
  }

  lemma LastIsNew(eps: seq<Endpoint>, ep: Endpoint)
    ensures DistinctPeers(eps + [ep]) <==> DistinctPeers(eps) && ep.peerId !in PeerIds(eps)
  {
    var all := eps + [ep];
    if DistinctPeers(all) {
      forall i, j | 0 <= i < j < |eps| ensures eps[i].peerId != eps[j].peerId {
        assert all[i] == eps[i] && all[j] == eps[j];
      }
      forall i | 0 <= i < |eps| ensures eps[i].peerId != ep.peerId {
        assert all[i] == eps[i] && all[|eps|] == ep;
      }
    }
    if DistinctPeers(eps) && ep.peerId !in PeerIds(eps) {
      assert forall i | 0 <= i < |eps| :: eps[i].peerId in PeerIds(eps);
    }
  }

  /** Every peer of the stream appears once, and no named peer is lost. */
  lemma {:induction false} DedupIsComplete(eps: seq<Endpoint>)
    ensures DistinctPeers(Dedup(eps))
    ensures PeerIds(Dedup(eps)) == PeerIds(eps) - {""}
  {
    if eps != [] {
      var n := |eps| - 1;
      var front, last := eps[..n], eps[n];
      DedupIsComplete(front);
      assert eps == front + [last];
      PeerIdsConcat(front, [last]);
      PeerIdsConcat(Dedup(front), [last]);
      LastIsNew(Dedup(front), last);
      assert PeerIds([last]) == {last.peerId};
    }
  }

  /** ep is in the stream, and no earlier endpoint of the stream names the same peer. */
  ghost predicate IsFirst(eps: seq<Endpoint>, ep: Endpoint) {
    exists i :: 0 <= i < |eps| && eps[i] == ep && ep.peerId !in PeerIds(eps[..i])
  }

  /** The endpoint kept for a peer is the first that arrived. */
  lemma {:induction false} DedupKeepsFirst(eps: seq<Endpoint>, ep: Endpoint)
    requires ep in Dedup(eps)
    ensures IsFirst(eps, ep)
  {
    var n := |eps| - 1;
    if ep in Dedup(eps[..n]) {
      DedupKeepsFirst(eps[..n], ep);
      var i :| 0 <= i < n && eps[..n][i] == ep && ep.peerId !in PeerIds(eps[..n][..i]);
      assert eps[..n][..i] == eps[..i];
    } else {
      DedupIsComplete(eps[..n]);
      NamelessOrDropped(eps[..n], ep);
    }
  }

  lemma NamelessOrDropped(eps: seq<Endpoint>, ep: Endpoint)
    requires ep.peerId != "" && ep.peerId !in PeerIds(Dedup(eps))
    ensures ep.peerId !in PeerIds(eps)
  {
    DedupIsComplete(eps);
  }

  lemma {:induction false} DedupGrows(a: seq<Endpoint>, b: seq<Endpoint>)
    ensures Dedup(a) <= Dedup(a + b)
  {
    if b == [] {
      assert a + b == a;
    } else {
      var n := |b| - 1;
      DedupGrows(a, b[..n]);
      assert a + b == a + b[..n] + [b[n]];
      DedupAppend(a + b[..n], b[n]);
    }
  }

  lemma {:induction false} DedupOfDistinct(eps: seq<Endpoint>)
    requires DistinctPeers(eps) && "" !in PeerIds(eps)
    ensures Dedup(eps) == eps
  {
    if eps != [] {
      var n := |eps| - 1;
      assert eps == eps[..n] + [eps[n]];
      PeerIdsConcat(eps[..n], [eps[n]]);
      LastIsNew(eps[..n], eps[n]);
      DedupOfDistinct(eps[..n]);
    }
  }

  /** Some answer at these positions names the peer. */
  ghost predicate Named(answers: Answers, responders: set<nat>, id: string) {
    exists i :: i in responders && i < |answers| && answers[i].Some? && id in PeerIds(answers[i].value)
  }

  /** Peer i is Active, has an address other than the caller's own, and its answer names this peer. */
  ghost predicate NamedBy(peers: seq<Peer>, selfGrpc: string, answers: Answers, i: nat, id: string) {
    && i < |peers| && i < |answers| && answers[i].Some?
    && peers[i].state == Active && peers[i].grpc != "" && peers[i].grpc != selfGrpc
    && id != "" && id in PeerIds(answers[i].value)
  }

  lemma NamedByResponders(peers: seq<Peer>, selfGrpc: string, answers: Answers, id: string)
    requires |answers| == |peers|
    ensures (exists i: nat :: NamedBy(peers, selfGrpc, answers, i, id)) <==>
            id != "" && Named(answers, Responders(peers, selfGrpc, answers), id)
  {
    if i: nat :| NamedBy(peers, selfGrpc, answers, i, id) {
      assert i in Responders(peers, selfGrpc, answers);
    }
    if id != "" && Named(answers, Responders(peers, selfGrpc, answers), id) {
      var i :| i in Responders(peers, selfGrpc, answers) && id in PeerIds(answers[i].value);
      assert NamedBy(peers, selfGrpc, answers, i, id);
    }
  }

  lemma {:induction false} FlattenNames(answers: Answers, order: seq<nat>, id: string)
    requires Answered(answers, order)
    ensures id in PeerIds(Flatten(answers, order)) <==>
            exists k :: 0 <= k < |order| && id in PeerIds(answers[order[k]].value)
  {
    if order != [] {
      var n := |order| - 1;
      FlattenNames(answers, order[..n], id);
      PeerIdsConcat(Flatten(answers, order[..n]), answers[order[n]].value);
      if k :| 0 <= k < |order| && id in PeerIds(answers[order[k]].value) {
        assert k < n ==> order[..n][k] == order[k];
      }
    }
  }

  /**
   Lookup confluence: in every arrival order each peer is returned once, and the peers returned
   are those recorded locally and those named in the answers.
   */
  lemma LookupConfluence(local: map<string, Endpoint>, selfGrpc: string, peers: seq<Peer>,
                         answers: Answers, out: seq<Endpoint>)
    requires |answers| == |peers| && KeyedByPeer(local)
    requires IsLookup(local, selfGrpc, peers, answers, out)
    ensures DistinctPeers(out)
    ensures forall id :: id in PeerIds(out) <==>
              id in local || exists i: nat :: NamedBy(peers, selfGrpc, answers, i, id)
  {
    var responders := Responders(peers, selfGrpc, answers);
    var listing, order :| IsListing(listing, local) && IsArrival(order, responders)
      && out == Dedup(listing + Flatten(answers, order));
    DedupIsComplete(listing + Flatten(answers, order));
    forall id ensures id in PeerIds(out) <==>
                        id in local || exists i: nat :: NamedBy(peers, selfGrpc, answers, i, id) {
      StreamNames(listing, answers, order, responders, id);
      NamedByResponders(peers, selfGrpc, answers, id);
    }
  }

  /** The local records come first, so they win over what other peers answer. */
  lemma LocalRecordsWin(local: map<string, Endpoint>, selfGrpc: string, peers: seq<Peer>,
                        answers: Answers, out: seq<Endpoint>)
    requires |answers| == |peers| && KeyedByPeer(local)
    requires IsLookup(local, selfGrpc, peers, answers, out)
    ensures |out| >= |local| && IsListing(out[..|local|], local)
  {
    var listing, order :| IsListing(listing, local)
      && IsArrival(order, Responders(peers, selfGrpc, answers))
      && out == Dedup(listing + Flatten(answers, order));
    DistinctStartKept(listing, Flatten(answers, order));
    ListingSize(listing, local);
    assert out[..|local|] == listing;
  }

  lemma StreamNames(listing: seq<Endpoint>, answers: Answers, order: seq<nat>, responders: set<nat>,
                    id: string)
    requires IsArrival(order, responders) && Answered(answers, order)
    ensures id in PeerIds(Dedup(listing + Flatten(answers, order))) <==>
            id != "" && (id in PeerIds(listing) || Named(answers, responders, id))
  {
    DedupIsComplete(listing + Flatten(answers, order));
    PeerIdsConcat(listing, Flatten(answers, order));
    FlattenNames(answers, order, id);
    ArrivalNames(answers, order, responders, id);
  }

  lemma ArrivalNames(answers: Answers, order: seq<nat>, responders: set<nat>, id: string)
    requires IsArrival(order, responders) && Answered(answers, order)
    ensures Named(answers, responders, id) <==>
            exists k :: 0 <= k < |order| && id in PeerIds(answers[order[k]].value)
  {
    if Named(answers, responders, id) {
      var i :| i in responders && i < |answers| && answers[i].Some? && id in PeerIds(answers[i].value);
      var k :| 0 <= k < |order| && order[k] == i;
    }
  }

  lemma DistinctStartKept(listing: seq<Endpoint>, rest: seq<Endpoint>)
    requires DistinctPeers(listing) && "" !in PeerIds(listing)
    ensures listing <= Dedup(listing + rest)
  {
    DedupOfDistinct(listing);
    DedupGrows(listing, rest);
  }

  lemma ListingSize(listing: seq<Endpoint>, m: map<string, Endpoint>)
    requires IsListing(listing, m)
    ensures |listing| == |m|
  {
    DistinctCount(listing);
    assert |m.Keys| == |m|;
  }

  lemma {:induction false} DistinctCount(eps: seq<Endpoint>)
    requires DistinctPeers(eps)
    ensures |PeerIds(eps)| == |eps|
  {
    if eps != [] {
      var n := |eps| - 1;
      assert eps == eps[..n] + [eps[n]];
      LastIsNew(eps[..n], eps[n]);
      DistinctCount(eps[..n]);
      PeerIdsConcat(eps[..n], [eps[n]]);
      assert PeerIds(eps) == PeerIds(eps[..n]) + {eps[n].peerId};
    }
  }
}
