/**
 Learning peers from the bootstrap list and from the peers joined through it
 (mergeBootstrapPeers in internal/coordinator/bootstrap_sync.go).
 */
module Gossip {
  import opened Wrappers
  import opened PeerRegistry
  import opened RegistryLaws
  import opened Providers
  import opened Host

  /**
   One entry of the bootstrap list, and what its JoinNetwork call would return: the known peers,
   or None when the call fails or is not accepted.
   */
  datatype Offer = Offer(ep: Endpoint, join: Option<seq<Endpoint>>)

  predicate Skipped(self: string, o: Offer) {
    o.ep.peerId == "" || o.ep.peerId == self
  }

  /** When a record is stamped, and when the registry is locked to insert it. */
  datatype Times = Times(stamp: int, now: int)

  /** The endpoints upserted, one after the other, at any times and with any outcomes. */
  ghost predicate UpsertedAll(v: View, eps: seq<Endpoint>, v': View)
    decreases |eps|, 1
  {
    if eps == [] then v' == v else exists w :: UpsertedVia(v, eps, w, v')
  }

  ghost predicate UpsertedVia(v: View, eps: seq<Endpoint>, w: View, v': View)
    requires eps != []
    decreases |eps|, 0
  {
    UpsertedAll(v, eps[..|eps| - 1], w) && Upserted(w, eps[|eps| - 1], v')
  }

  ghost predicate Upserted(v: View, ep: Endpoint, v': View) {
    if ep.peerId == "" then v' == v
    else exists at: Times, ok :: UpsertStep(v, Joining(ep, at.stamp), at.now, ok, v')
  }

  /** One turn of the merge loop. */
  ghost predicate MergedOffer(v: View, self: string, o: Offer, v': View) {
    if Skipped(self, o) then v' == v
    else exists at, ok, w :: AcceptedOffer(v, o, at, ok, w, v')
  }

  ghost predicate AcceptedOffer(v: View, o: Offer, at: Times, ok: bool, w: View, v': View) {
    && UpsertStep(v, Joining(o.ep, at.stamp), at.now, ok, w)
    && if ok && o.ep.grpc != "" && o.join.Some? then UpsertedAll(w, o.join.value, v') else v' == w
  }

  ghost predicate MergedAt(views: seq<View>, self: string, offers: seq<Offer>, i: nat) {
    i < |offers| && i + 1 < |views| && MergedOffer(views[i], self, offers[i], views[i + 1])
  }

  /** The registry before each turn of the merge loop, and after the last one. */
  ghost predicate IsMerge(views: seq<View>, self: string, offers: seq<Offer>) {
    |views| == |offers| + 1 && forall i: nat | i < |offers| :: MergedAt(views, self, offers, i)
  }

  /**
   The whole merge. Without a bootstrap service there is nothing to do; list is None when the service
   cannot be read, which is an error. Either way nothing happens.
   */
  method MergeBootstrapPeers(registry: Registry, configured: bool, list: Option<seq<Offer>>, clock: (nat, nat) -> Times)
    returns (ok: bool, ghost views: seq<View>)
    requires registry.Valid()
    modifies registry
    ensures registry.Valid() && (ok <==> !configured || list.Some?)
    ensures views != [] && views[0] == old(registry.peers) && registry.peers == views[|views| - 1]
    ensures if configured && ok then IsMerge(views, registry.self, list.value) else |views| == 1
  {
    views := [registry.peers];
    if !configured {
      return true, views;
    }
    if list.None? {
      return false, views;
    }
    ok := true;
    for i := 0 to |list.value|
      invariant registry.Valid() && |views| == i + 1
      invariant IsMerge(views, registry.self, list.value[..i])
      invariant views[0] == old(registry.peers) && registry.peers == views[i]
    {
      MergeOffer(registry, list.value[i], (j: nat) => clock(i, j));
      MergeLonger(views, registry.self, list.value[..i], list.value[i], registry.peers);
      assert list.value[..i + 1] == list.value[..i] + [list.value[i]];
      views := views + [registry.peers];
    }
    assert list.value[..|list.value|] == list.value;
  }

  lemma MergeLonger(views: seq<View>, self: string, offers: seq<Offer>, o: Offer, v': View)
    requires IsMerge(views, self, offers)
    ensures MergedOffer(views[|offers|], self, o, v') ==> IsMerge(views + [v'], self, offers + [o])
  {
    if MergedOffer(views[|offers|], self, o, v') {
      forall i: nat | i < |offers + [o]| ensures MergedAt(views + [v'], self, offers + [o], i) {
        assert i < |offers| ==> MergedAt(views, self, offers, i);
      }
    }
  }

  method MergeOffer(registry: Registry, o: Offer, clock: nat -> Times)
    requires registry.Valid()
    modifies registry
    ensures registry.Valid() && MergedOffer(old(registry.peers), registry.self, o, registry.peers)
  {
    if o.ep.peerId == "" || o.ep.peerId == registry.self {
      return;
    }
    var ok := registry.Upsert(Joining(o.ep, clock(0).stamp), clock(0).now);
    ghost var w := registry.peers;
    if ok && o.ep.grpc != "" && o.join.Some? {
      UpsertKnown(registry, o.join.value, (j: nat) => clock(j + 1));
    }
    assert AcceptedOffer(old(registry.peers), o, clock(0), ok, w, registry.peers);
  }

  /** The inner loop, over the known peers of an accepted join. */
  method UpsertKnown(registry: Registry, known: seq<Endpoint>, clock: nat -> Times)
    requires registry.Valid()
    modifies registry
    ensures registry.Valid() && UpsertedAll(old(registry.peers), known, registry.peers)
  {
    for j := 0 to |known|
      invariant registry.Valid() && UpsertedAll(old(registry.peers), known[..j], registry.peers)
    {
      assert known[..j + 1][..j] == known[..j];
      ghost var before := registry.peers;
      if known[j].peerId != "" {
        var ok := registry.Upsert(Joining(known[j], clock(j).stamp), clock(j).now);
        assert UpsertStep(before, Joining(known[j], clock(j).stamp), clock(j).now, ok, registry.peers);
      }
      assert UpsertedVia(old(registry.peers), known[..j + 1], before, registry.peers);
    }
    assert known[..|known|] == known;
  }

  // ----- Convergence -----

  /** Peer IDs with their gRPC and HTTP addresses. */
  type Book = map<string, (string, string)>

  /** Room for every peer, and no address shared. */
  ghost predicate Coherent(book: Book) {
    && |book| <= MAX_PEERS
    && forall a, b | a in book && b in book && a != b ::
         book[a].0 != book[b].0 && (book[a].1 == "" || book[a].1 != book[b].1)
  }

  ghost predicate InBook(book: Book, ep: Endpoint) {
    ep.peerId in book && book[ep.peerId] == (ep.grpc, ep.http)
  }

  ghost predicate Agrees(v: View, book: Book) {
    WellKeyed(v) && forall id | id in v :: id in book && book[id] == (v[id].grpc, v[id].http)
  }

  lemma MissingMeansRoom(v: View, book: Book, id: string)
    requires Coherent(book) && v.Keys <= book.Keys && id in book && id !in v
    ensures |v| < MAX_PEERS
  {
    SubsetSize(v.Keys + {id}, book.Keys);
    assert |v.Keys| == |v| && |book.Keys| == |book|;
  }

  /** The registry gained these peers, all Active now, changed nobody else, and still agrees with the book. */
  ghost predicate Grown(v: View, book: Book, ids: set<string>, v': View) {
    && Agrees(v', book) && v'.Keys == v.Keys + ids
    && forall id | id in v'.Keys :: GrownAt(v, ids, v', id)
  }

  predicate GrownAt(v: View, ids: set<string>, v': View, id: string) {
    id in v' && if id in ids then v'[id].state == Active else id in v && v'[id] == v[id]
  }

  lemma GrownTwice(v: View, book: Book, a: set<string>, w: View, b: set<string>, v': View)
    requires Grown(v, book, a, w) && Grown(w, book, b, v')
    ensures Grown(v, book, a + b, v')
  {
    assert v.Keys + a + b == v.Keys + (a + b);
    forall id | id in v'.Keys ensures GrownAt(v, a + b, v', id) {
      assert GrownAt(w, b, v', id);
      assert id !in b ==> GrownAt(v, a, w, id);
    }
  }

  lemma NobodyDropped(v: View, book: Book, rec: Peer, victim: Option<string>)
    requires Coherent(book) && Agrees(v, book) && rec.id in book && book[rec.id] == (rec.grpc, rec.http)
    requires MayDrop(v, rec, victim)
    ensures victim.None?
  {
    assert NoneConflicts(v, rec);
    if rec.id !in v {
      MissingMeansRoom(v, book, rec.id);
    }
  }

  lemma NeverRejected(v: View, book: Book, rec: Peer)
    requires Coherent(book) && Agrees(v, book) && rec.id in book && rec.id != ""
    ensures !MayReject(v, rec)
  {
    if rec.id !in v {
      MissingMeansRoom(v, book, rec.id);
    }
  }

  /** A peer from the book is always accepted, and nobody has to go. */
  lemma BookPeerIsAccepted(v: View, book: Book, ep: Endpoint, at: Times, ok: bool, v': View)
    requires Coherent(book) && Agrees(v, book) && InBook(book, ep) && ep.peerId != ""
    requires UpsertStep(v, Joining(ep, at.stamp), at.now, ok, v')
    ensures ok && Grown(v, book, {ep.peerId}, v')
  {
    var rec, now := Joining(ep, at.stamp), at.now;
    NeverRejected(v, book, rec);
    AcceptedStaysInBook(v, book, rec, now, v');
    assert v'.Keys == v.Keys + {rec.id} by {
      var victim := UpsertEffect(v, rec, now, v');
      NobodyDropped(v, book, rec, victim);
    }
    UpsertGrowsAt(v, rec, now, v');
  }

  lemma UpsertGrowsAt(v: View, rec: Peer, now: int, v': View)
    requires WellKeyed(v) && UpsertStep(v, rec, now, true, v') && rec.state == Active
    ensures forall id | id in v'.Keys :: GrownAt(v, {rec.id}, v', id)
  {
    UpsertContract(v, rec, now, true, v');
  }

  lemma AcceptedStaysInBook(v: View, book: Book, rec: Peer, now: int, v': View)
    requires Agrees(v, book) && rec.id in book && book[rec.id] == (rec.grpc, rec.http)
    requires UpsertStep(v, rec, now, true, v')
    ensures Agrees(v', book)
  {
    UpsertContract(v, rec, now, true, v');
  }

  lemma UpsertedConverges(v: View, book: Book, ep: Endpoint, v': View)
    requires Coherent(book) && Agrees(v, book) && Upserted(v, ep, v') && (ep.peerId != "" ==> InBook(book, ep))
    ensures Grown(v, book, {ep.peerId} - {""}, v')
  {
    if ep.peerId != "" {
      var at: Times, ok :| UpsertStep(v, Joining(ep, at.stamp), at.now, ok, v');
      BookPeerIsAccepted(v, book, ep, at, ok, v');
      assert {ep.peerId} - {""} == {ep.peerId};
    } else {
      NothingGrows(v, book);
      assert {ep.peerId} - {""} == {};
    }
  }

  lemma NothingGrows(v: View, book: Book)
    requires Agrees(v, book)
    ensures Grown(v, book, {}, v)
  {
    assert v.Keys + {} == v.Keys;
  }

  ghost predicate AllInBook(book: Book, eps: seq<Endpoint>) {
    forall ep | ep in eps && ep.peerId != "" :: InBook(book, ep)
  }

  lemma NamesOfLast(eps: seq<Endpoint>)
    requires eps != []
    ensures PeerIds(eps) - {""}
         == (PeerIds(eps[..|eps| - 1]) - {""}) + ({eps[|eps| - 1].peerId} - {""})
  {
    var n := |eps| - 1;
    PeerIdsConcat(eps[..n], [eps[n]]);
    assert eps == eps[..n] + [eps[n]] && PeerIds([eps[n]]) == {eps[n].peerId};
  }

  lemma {:induction false} KnownConverge(v: View, book: Book, eps: seq<Endpoint>, v': View)
    requires Coherent(book) && Agrees(v, book) && UpsertedAll(v, eps, v') && AllInBook(book, eps)
    ensures Grown(v, book, PeerIds(eps) - {""}, v')
  {
    if eps == [] {
      NothingGrows(v, book);
      assert PeerIds(eps) - {""} == {};
    } else {
      var n := |eps| - 1;
      var w :| UpsertedVia(v, eps, w, v');
      KnownConverge(v, book, eps[..n], w);
      UpsertedConverges(w, book, eps[n], v');
      GrownTwice(v, book, PeerIds(eps[..n]) - {""}, w, {eps[n].peerId} - {""}, v');
      NamesOfLast(eps);
    }
  }

  /** The peers an entry of the list brings in. */
  ghost function Brings(self: string, o: Offer): set<string> {
    if Skipped(self, o) then {}
    else {o.ep.peerId} + if o.ep.grpc != "" && o.join.Some? then PeerIds(o.join.value) - {""} else {}
  }

  ghost predicate OfferInBook(book: Book, self: string, o: Offer) {
    !Skipped(self, o) ==> InBook(book, o.ep) && (o.join.Some? ==> AllInBook(book, o.join.value))
  }

  lemma OfferConverges(v: View, book: Book, self: string, o: Offer, v': View)
    requires Coherent(book) && Agrees(v, book) && OfferInBook(book, self, o) && MergedOffer(v, self, o, v')
    ensures Grown(v, book, Brings(self, o), v')
  {
    if !Skipped(self, o) {
      var at, ok, w :| AcceptedOffer(v, o, at, ok, w, v');
      BookPeerIsAccepted(v, book, o.ep, at, ok, w);
      JoinConverges(v, book, o, w, v');
    } else {
      NothingGrows(v, book);
    }
  }

  lemma JoinConverges(v: View, book: Book, o: Offer, w: View, v': View)
    requires Coherent(book) && Grown(v, book, {o.ep.peerId}, w)
    requires o.join.Some? ==> AllInBook(book, o.join.value)
    requires if o.ep.grpc != "" && o.join.Some? then UpsertedAll(w, o.join.value, v') else v' == w
    ensures Grown(v, book,
                  {o.ep.peerId} + if o.ep.grpc != "" && o.join.Some? then PeerIds(o.join.value) - {""} else {}, v')
  {
    if o.ep.grpc != "" && o.join.Some? {
      KnownConverge(w, book, o.join.value, v');
      GrownTwice(v, book, {o.ep.peerId}, w, PeerIds(o.join.value) - {""}, v');
    } else {
      assert {o.ep.peerId} + {} == {o.ep.peerId};
    }
  }

  ghost function Learned(self: string, offers: seq<Offer>): set<string> {
    set o, id | o in offers && id in Brings(self, o) :: id
  }

  /** This entry is neither nameless nor self, and it is that peer, or its accepted join knows that peer. */
  ghost predicate Teaches(self: string, o: Offer, id: string) {
    && id != "" && o.ep.peerId != "" && o.ep.peerId != self
    && (|| id == o.ep.peerId
        || (o.ep.grpc != "" && o.join.Some? && exists ep :: ep in o.join.value && ep.peerId == id))
  }

  lemma LearnedInFields(self: string, offers: seq<Offer>, id: string)
    ensures id in Learned(self, offers) <==> exists o :: o in offers && Teaches(self, o, id)
  {
    forall o ensures id in Brings(self, o) <==> Teaches(self, o, id) {}
  }

  /** Whatever the registry and the addresses: an entry that is accepted is Active, where the list says. */
  lemma AcceptedOfferIsActive(v: View, self: string, o: Offer, at: Times, w: View, v': View)
    requires WellKeyed(v) && AcceptedOffer(v, o, at, true, w, v')
    ensures o.ep.peerId in w && IsJoined(w[o.ep.peerId], o.ep, at.stamp)
  {
    UpsertContract(v, Joining(o.ep, at.stamp), at.now, true, w);
  }

  /** So is a known peer that is accepted. */
  lemma AcceptedKnownIsActive(v: View, ep: Endpoint, v': View) returns (ok: bool, stamp: int)
    requires WellKeyed(v) && Upserted(v, ep, v') && ep.peerId != ""
    ensures if ok then ep.peerId in v' && IsJoined(v'[ep.peerId], ep, stamp) else v' == v
  {
    var at: Times;
    at, ok :| UpsertStep(v, Joining(ep, at.stamp), at.now, ok, v');
    stamp := at.stamp;
    UpsertContract(v, Joining(ep, stamp), at.now, ok, v');
  }

  ghost function LearnedUpTo(self: string, offers: seq<Offer>, n: nat): set<string>
    requires n <= |offers|
  {
    if n == 0 then {} else LearnedUpTo(self, offers, n - 1) + Brings(self, offers[n - 1])
  }

  lemma {:induction false} LearnedIsUnion(self: string, offers: seq<Offer>, n: nat)
    requires n <= |offers|
    ensures LearnedUpTo(self, offers, n) == Learned(self, offers[..n])
  {
    if n > 0 {
      LearnedIsUnion(self, offers, n - 1);
      assert offers[..n] == offers[..n - 1] + [offers[n - 1]];
    }
  }

  ghost predicate OffersInBook(book: Book, self: string, offers: seq<Offer>) {
    forall o | o in offers :: OfferInBook(book, self, o)
  }

  /** A turn that starts in agreement with the book adds what its entry brings. */
  ghost predicate TurnAdds(book: Book, self: string, offers: seq<Offer>, views: seq<View>, i: nat) {
    && i < |offers| && i + 1 < |views|
    && (Agrees(views[i], book) ==> Grown(views[i], book, Brings(self, offers[i]), views[i + 1]))
  }

  ghost predicate EveryTurnAdds(book: Book, self: string, offers: seq<Offer>, views: seq<View>) {
    |views| == |offers| + 1 && forall i: nat | i < |offers| :: TurnAdds(book, self, offers, views, i)
  }

  lemma TurnsConverge(book: Book, self: string, offers: seq<Offer>, views: seq<View>)
    requires Coherent(book) && OffersInBook(book, self, offers) && IsMerge(views, self, offers)
    ensures EveryTurnAdds(book, self, offers, views)
  {
    forall i: nat | i < |offers| ensures TurnAdds(book, self, offers, views, i) {
      assert MergedAt(views, self, offers, i);
      if Agrees(views[i], book) {
        OfferConverges(views[i], book, self, offers[i], views[i + 1]);
      }
    }
  }

  lemma {:induction false} TurnsAddUp(book: Book, self: string, offers: seq<Offer>, views: seq<View>, n: nat)
    requires EveryTurnAdds(book, self, offers, views) && Agrees(views[0], book) && n <= |offers|
    ensures Grown(views[0], book, LearnedUpTo(self, offers, n), views[n])
  {
    if n == 0 {
      NothingGrows(views[0], book);
    } else {
      TurnsAddUp(book, self, offers, views, n - 1);
      assert TurnAdds(book, self, offers, views, n - 1);
      var before, more := LearnedUpTo(self, offers, n - 1), Brings(self, offers[n - 1]);
      GrownTwice(views[0], book, before, views[n - 1], more, views[n]);
    }
  }

  /**
   Convergence: when all peers have coherent addresses and fit, the merge adds exactly the peers of
   the list and the known peers of the accepted joins, all of them Active then, and neither loses
   nor changes anybody else, whatever the map orders and the times.
   */
  lemma MergeConverges(book: Book, self: string, offers: seq<Offer>, views: seq<View>)
    requires Coherent(book) && OffersInBook(book, self, offers)
    requires IsMerge(views, self, offers) && Agrees(views[0], book)
    ensures
      var v, v' := views[0], views[|offers|];
      && v'.Keys == v.Keys + Learned(self, offers) && Agrees(v', book)
      && (forall id | id in Learned(self, offers) :: v'[id].state == Active)
      && (forall id | id in v && id !in Learned(self, offers) :: v'[id] == v[id])
  {
    TurnsConverge(book, self, offers, views);
    TurnsAddUp(book, self, offers, views, |offers|);
    LearnedIsUnion(self, offers, |offers|);
    assert offers[..|offers|] == offers;
    forall id | id in views[|offers|].Keys
      ensures GrownAt(views[0], Learned(self, offers), views[|offers|], id)
    {}
  }

  /** The order of the list changes neither who is known nor any address, nor do repetitions. */
  lemma OrderDoesNotMatter(book: Book, self: string, one: seq<Offer>, other: seq<Offer>, views1: seq<View>,
                           views2: seq<View>)
    requires Coherent(book) && OffersInBook(book, self, one) && forall o :: o in one <==> o in other
    requires IsMerge(views1, self, one) && IsMerge(views2, self, other)
    requires Agrees(views1[0], book) && views2[0] == views1[0]
    ensures
      var v1, v2 := views1[|one|], views2[|other|];
      && v1.Keys == v2.Keys
      && forall id | id in v1 :: v1[id].grpc == v2[id].grpc && v1[id].http == v2[id].http
  {
    SameOffers(book, self, one, other);
    MergeConverges(book, self, one, views1);
    MergeConverges(book, self, other, views2);
  }

  lemma SameOffers(book: Book, self: string, one: seq<Offer>, other: seq<Offer>)
    requires OffersInBook(book, self, one) && forall o :: o in one <==> o in other
    ensures OffersInBook(book, self, other) && Learned(self, one) == Learned(self, other)
  {}
}
