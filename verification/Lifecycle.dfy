/**
 Runs of one node's registry and provider records: every handler, timer and clock advance is a
 step, each pass of the sweep and of the cleanup is one step, and the clock never goes back.
 */
module Lifecycle {
  import opened Wrappers
  import opened Content
  import opened PeerRegistry
  import opened RegistryLaws
  import opened Providers
  import opened FailureDetector

  datatype Node = Node(self: string, peers: View, table: Table, now: int)

  /**
   DoUpsert is a join, a gossip merge or the node's own registration, stamped at some time before
   it takes the lock; DoTouch, which is stamped under the lock, a ping or heartbeat
   in either direction; DoLeave a LeaveNetwork call; Announce any new provider record.
   */
  datatype Action =
    | Tick(to: int)
    | DoUpsert(rec: Peer)
    | DoTouch(id: string)
    | DoLeave(id: string)
    | DoSweep
    | DoCleanup
    | Announce(cid: Cid, ep: Endpoint)

  ghost predicate Next(s: Node, a: Action, s': Node) {
    match a
    case Tick(to) => to >= s.now && s' == s.(now := to)
    case DoUpsert(rec) =>
      && rec.state.Active? && rec.lastSeen <= s.now
      && s' == s.(peers := s'.peers)
      && exists ok :: UpsertStep(s.peers, rec, s.now, ok, s'.peers)
    case DoTouch(id) => s' == s.(peers := Touched(s.peers, id, s.now))
    case DoLeave(id) => s' == s.(peers := Marked(s.peers, id, Left) - {id})
    case DoSweep => s' == s.(peers := MarkAll(s.peers, SilentIds(s.peers, s.self, s.now), Inactive))
    case DoCleanup =>
      var stale := StaleIds(s.peers, s.self, s.now);
      s' == s.(peers := MarkAll(s.peers, stale, Left), table := WithoutPeers(s.table, stale))
    case Announce(cid, ep) => s' == s.(table := Announced(s.table, cid, ep))
  }

  ghost predicate StepAt(states: seq<Node>, acts: seq<Action>, i: nat) {
    i < |acts| && i + 1 < |states| && Next(states[i], acts[i], states[i + 1])
  }

  /** Every two consecutive states are related by the action between them. */
  ghost predicate IsRun(states: seq<Node>, acts: seq<Action>) {
    |states| == |acts| + 1 && forall i: nat | i < |acts| :: StepAt(states, acts, i)
  }

  /** What every node keeps from its start, where its registry is empty or holds itself as Active. */
  ghost predicate Inv(s: Node) {
    && WellKeyed(s.peers) && WellFormed(s.table)
    && forall id | id in s.peers ::
         id != "" && s.peers[id].lastSeen <= s.now && (id == s.self ==> s.peers[id].state.Active?)
  }

  lemma NextKeepsInv(s: Node, a: Action, s': Node)
    requires Inv(s) && Next(s, a, s')
    ensures Inv(s') && s'.self == s.self && s'.now >= s.now
  {
    match a {
      case DoUpsert(rec) => UpsertKeepsInv(s, rec, s');
      case DoLeave(id) => LeaveOnlyRemoves(s.peers, id);
      case DoTouch(id) => TouchKeepsInv(s, id, s');
      case DoSweep => SweepKeepsInv(s, s');
      case DoCleanup => CleanupKeepsInv(s, s');
      case Announce(cid, ep) => AnnouncedWellFormed(s.table, cid, ep);
      case Tick(_) =>
    }
  }

  lemma TouchKeepsInv(s: Node, id: string, s': Node)
    requires Inv(s) && Next(s, DoTouch(id), s')
    ensures Inv(s')
  {
    SameSize(s'.peers, s.peers);
  }

  lemma SweepKeepsInv(s: Node, s': Node)
    requires Inv(s) && Next(s, DoSweep, s')
    ensures Inv(s')
  {
    SameSize(s'.peers, s.peers);
  }

  lemma CleanupKeepsInv(s: Node, s': Node)
    requires Inv(s) && Next(s, DoCleanup, s')
    ensures Inv(s')
  {
    SameSize(s'.peers, s.peers);
    StaysWellFormed(s.table, StaleIds(s.peers, s.self, s.now));
  }

  lemma UpsertKeepsInv(s: Node, rec: Peer, s': Node)
    requires Inv(s) && Next(s, DoUpsert(rec), s')
    ensures Inv(s')
  {
    var ok :| UpsertStep(s.peers, rec, s.now, ok, s'.peers);
    UpsertContract(s.peers, rec, s.now, ok, s'.peers);
  }

  lemma AnnouncedWellFormed(t: Table, cid: Cid, ep: Endpoint)
    requires WellFormed(t)
    ensures WellFormed(Announced(t, cid, ep))
  {
    assert ep.peerId != "" ==> ep.peerId in Announced(t, cid, ep)[cid];
  }

  lemma SameSize(v: View, w: View)
    requires v.Keys == w.Keys
    ensures |v| == |w|
  {
    assert |v.Keys| == |w.Keys|;
  }

  lemma LeaveOnlyRemoves(v: View, id: string)
    requires WellKeyed(v)
    ensures Marked(v, id, Left) - {id} == v - {id}
    ensures WellKeyed(v - {id})
  {
    var w := v - {id};
    assert w.Keys == v.Keys - {id};
    RemovalIsSmaller(v.Keys, id);
    assert |w.Keys| == |w| && |v.Keys| == |v|;
  }

  lemma RemovalIsSmaller(keys: set<string>, id: string)
    ensures |keys - {id}| <= |keys|
  {
    if id !in keys {
      assert keys - {id} == keys;
    }
  }

  /** In every run from such a start: the bound, the keys, and self never Inactive or Left. */
  lemma {:induction false} RunKeepsInv(states: seq<Node>, acts: seq<Action>, j: nat)
    requires IsRun(states, acts) && Inv(states[0]) && j < |states|
    ensures Inv(states[j]) && states[j].self == states[0].self
  {
    if j > 0 {
      RunKeepsInv(states, acts, j - 1);
      assert StepAt(states, acts, j - 1);
      NextKeepsInv(states[j - 1], acts[j - 1], states[j]);
    }
  }

  predicate Upserts(a: Action, id: string) {
    a.DoUpsert? && a.rec.id == id
  }

  /** A step in which a peer is heard from. */
  predicate Refreshes(a: Action, id: string) {
    Upserts(a, id) || (a.DoTouch? && a.id == id)
  }

  /** An Upsert of the peer whose stamp is older than what has been seen of the peer meanwhile. */
  predicate StaleUpsert(s: Node, a: Action, id: string) {
    Upserts(a, id) && id in s.peers && a.rec.lastSeen < s.peers[id].lastSeen
  }

  /** The record of a peer that a step leaves in the registry. */
  function RecordAfter(s: Node, a: Action, id: string): Peer
    requires id in s.peers
  {
    var p := s.peers[id];
    match a
    case DoUpsert(rec) => if rec.id == id then Updated(p, rec) else p
    case DoTouch(touched) => Touched(s.peers, touched, s.now)[id]
    case DoSweep => if Silent(p, s.self, s.now) then p.(state := Inactive) else p
    case DoCleanup => if Stale(p, s.self, s.now) then p.(state := Left) else p
    case _ => p
  }

  lemma StepRecord(s: Node, a: Action, s': Node, id: string)
    requires Inv(s) && Next(s, a, s') && id in s.peers && id in s'.peers
    ensures s'.peers[id] == RecordAfter(s, a, id) && s.peers[id].id == id
  {
    if a.DoUpsert? {
      var ok :| UpsertStep(s.peers, a.rec, s.now, ok, s'.peers);
      UpsertContract(s.peers, a.rec, s.now, ok, s'.peers);
    }
  }

  /** How one step moves the record of a peer that it leaves in the registry. */
  lemma StepLifecycle(s: Node, a: Action, s': Node, id: string)
    requires Inv(s) && Next(s, a, s') && id in s.peers && id in s'.peers
    ensures s'.peers[id].lastSeen < s.peers[id].lastSeen <==> StaleUpsert(s, a, id)
    ensures s'.peers[id].state.Left? && !s.peers[id].state.Left? ==>
              && a.DoCleanup? && id != s.self && s.peers[id].state.Inactive?
              && s.now - s.peers[id].lastSeen > STALE_TIMEOUT
    ensures s'.peers[id].state.Inactive? && !s.peers[id].state.Inactive? ==>
              a.DoSweep? && id != s.self && s.now - s.peers[id].lastSeen > INACTIVE_AFTER
    ensures s.peers[id].state.Active? && !s'.peers[id].state.Active? ==>
              a.DoSweep? && s.now - s.peers[id].lastSeen > INACTIVE_AFTER
    ensures s.peers[id].state.Left? && !Upserts(a, id) ==> s'.peers[id].state.Left?
    ensures !Refreshes(a, id) ==>
              && s'.peers[id].lastSeen == s.peers[id].lastSeen
              && (s'.peers[id].state.Active? ==> s.peers[id].state.Active?)
  {
    StepRecord(s, a, s', id);
  }

  ghost predicate PresentThroughout(states: seq<Node>, id: string, i: nat, j: nat) {
    forall k | i <= k <= j && k < |states| :: id in states[k].peers
  }

  /** Left persists until an Upsert of that peer or its removal. */
  lemma {:induction false} LeftPersists(states: seq<Node>, acts: seq<Action>, id: string, i: nat, j: nat)
    requires IsRun(states, acts) && Inv(states[0]) && i <= j < |states|
    requires PresentThroughout(states, id, i, j) && states[i].peers[id].state.Left?
    requires forall k | i <= k < j :: !Upserts(acts[k], id)
    ensures states[j].peers[id].state.Left?
  {
    if i < j {
      LeftPersists(states, acts, id, i, j - 1);
      RunKeepsInv(states, acts, j - 1);
      assert StepAt(states, acts, j - 1);
      StepLifecycle(states[j - 1], acts[j - 1], states[j], id);
    }
  }

  /** Step k does not move the sighting of the peer back. */
  predicate SightingHolds(states: seq<Node>, id: string, k: nat) {
    k + 1 < |states| && id in states[k].peers && id in states[k + 1].peers
    && states[k].peers[id].lastSeen <= states[k + 1].peers[id].lastSeen
  }

  predicate StaleUpsertAt(states: seq<Node>, acts: seq<Action>, id: string, k: nat) {
    k < |acts| && k < |states| && StaleUpsert(states[k], acts[k], id)
  }

  ghost predicate NoStaleUpsert(states: seq<Node>, acts: seq<Action>, id: string, i: nat, j: nat) {
    forall k: nat | i <= k < j :: !StaleUpsertAt(states, acts, id, k)
  }

  /**
   Over a run the last sighting of a peer that stays in the registry never goes back if and only if
   no Upsert of it carries an older stamp than its entry has by then.
   */
  lemma SightingsAdvanceIff(states: seq<Node>, acts: seq<Action>, id: string, i: nat, j: nat)
    requires IsRun(states, acts) && Inv(states[0]) && i <= j < |states|
    requires PresentThroughout(states, id, i, j)
    ensures (forall k: nat | i <= k < j :: SightingHolds(states, id, k)) <==>
            NoStaleUpsert(states, acts, id, i, j)
  {
    forall k: nat | i <= k < j ensures SightingHolds(states, id, k) <==> !StaleUpsertAt(states, acts, id, k) {
      SightingAt(states, acts, id, k);
    }
  }

  lemma SightingAt(states: seq<Node>, acts: seq<Action>, id: string, k: nat)
    requires IsRun(states, acts) && Inv(states[0]) && k < |acts|
    requires id in states[k].peers && id in states[k + 1].peers
    ensures SightingHolds(states, id, k) <==> !StaleUpsertAt(states, acts, id, k)
  {
    RunKeepsInv(states, acts, k);
    assert StepAt(states, acts, k);
    StepLifecycle(states[k], acts[k], states[k + 1], id);
  }

  /** Then the last sighting at the end is no older than at the start. */
  lemma {:induction false} LastSeenNeverDecreases(states: seq<Node>, acts: seq<Action>, id: string,
                                                  i: nat, j: nat)
    requires IsRun(states, acts) && Inv(states[0]) && i <= j < |states|
    requires PresentThroughout(states, id, i, j) && NoStaleUpsert(states, acts, id, i, j)
    ensures states[j].peers[id].lastSeen >= states[i].peers[id].lastSeen
  {
    if i < j {
      LastSeenNeverDecreases(states, acts, id, i, j - 1);
      SightingAt(states, acts, id, j - 1);
    }
  }

  /** A run in which a sighting goes back: a ping arrives between the stamp of a join and the lock. */
  lemma SightingGoesBack(self: string, p: Peer) returns (states: seq<Node>, acts: seq<Action>)
    requires p.id != "" && p.id != self && p.state.Active?
    ensures IsRun(states, acts) && Inv(states[0]) && |acts| == 2
    ensures p.id in states[1].peers && p.id in states[2].peers && !SightingHolds(states, p.id, 1)
  {
    var before, after := p.(lastSeen := 0), p.(lastSeen := 5);
    var s0 := Node(self, map[p.id := before], map[], 5);
    var s1 := s0.(peers := Touched(s0.peers, p.id, 5));
    var join := before.(lastSeen := 3);
    assert NoneConflicts(s1.peers, join) && MayDrop(s1.peers, join, None);
    var s2 := s1.(peers := AfterUpsert(s1.peers, join, 5, None));
    assert UpsertStep(s1.peers, join, 5, true, s2.peers);
    states, acts := [s0, s1, s2], [DoTouch(p.id), DoUpsert(join)];
    assert StepAt(states, acts, 0) && StepAt(states, acts, 1);
  }

  /**
   Left is reached only through a cleanup, from Inactive, more than 60 s after the last sighting,
   and never for the node itself; a peer that turned Left was marked Inactive by a sweep before.
   */
  lemma LeftOnlyAfterSilence(states: seq<Node>, acts: seq<Action>, id: string, i: nat, j: nat)
    returns (sweep: nat, cleanup: nat)
    requires IsRun(states, acts) && Inv(states[0]) && i <= j < |states|
    requires PresentThroughout(states, id, i, j)
    requires states[i].peers[id].state.Active? && states[j].peers[id].state.Left?
    ensures i <= sweep < cleanup < j && acts[sweep].DoSweep? && acts[cleanup].DoCleanup?
    ensures id != states[0].self
    ensures states[sweep].now - states[sweep].peers[id].lastSeen > INACTIVE_AFTER
    ensures states[cleanup].peers[id].state.Inactive?
    ensures states[cleanup].now - states[cleanup].peers[id].lastSeen > STALE_TIMEOUT
  {
    cleanup := MarkedLeftBy(states, acts, id, i, j);
    sweep := MarkedInactiveBy(states, acts, id, i, cleanup);
  }

  lemma {:induction false} MarkedLeftBy(states: seq<Node>, acts: seq<Action>, id: string, i: nat, j: nat)
    returns (cleanup: nat)
    requires IsRun(states, acts) && Inv(states[0]) && i <= j < |states|
    requires PresentThroughout(states, id, i, j)
    requires !states[i].peers[id].state.Left? && states[j].peers[id].state.Left?
    ensures i <= cleanup < j && acts[cleanup].DoCleanup? && id != states[0].self
    ensures states[cleanup].peers[id].state.Inactive?
    ensures states[cleanup].now - states[cleanup].peers[id].lastSeen > STALE_TIMEOUT
  {
    RunKeepsInv(states, acts, j - 1);
    assert StepAt(states, acts, j - 1);
    StepLifecycle(states[j - 1], acts[j - 1], states[j], id);
    if states[j - 1].peers[id].state.Left? {
      cleanup := MarkedLeftBy(states, acts, id, i, j - 1);
    } else {
      cleanup := j - 1;
    }
  }

  lemma {:induction false} MarkedInactiveBy(states: seq<Node>, acts: seq<Action>, id: string,
                                            i: nat, j: nat)
    returns (sweep: nat)
    requires IsRun(states, acts) && Inv(states[0]) && i <= j < |states|
    requires PresentThroughout(states, id, i, j)
    requires !states[i].peers[id].state.Inactive? && states[j].peers[id].state.Inactive?
    ensures i <= sweep < j && acts[sweep].DoSweep?
    ensures states[sweep].now - states[sweep].peers[id].lastSeen > INACTIVE_AFTER
  {
    RunKeepsInv(states, acts, j - 1);
    assert StepAt(states, acts, j - 1);
    StepLifecycle(states[j - 1], acts[j - 1], states[j], id);
    if states[j - 1].peers[id].state.Inactive? {
      sweep := MarkedInactiveBy(states, acts, id, i, j - 1);
    } else {
      sweep := j - 1;
    }
  }

  lemma ActiveStep(s: Node, a: Action, s': Node, id: string)
    requires Inv(s) && Next(s, a, s') && id in s.peers && id in s'.peers && s.peers[id].state.Active?
    requires a.DoSweep? ==> s.now - s.peers[id].lastSeen <= INACTIVE_AFTER
    ensures s'.peers[id].state.Active?
  {
    StepLifecycle(s, a, s', id);
  }

  /** Accuracy: a peer seen within 9 s of every sweep is never marked Inactive or Left. */
  lemma {:induction false} DetectorIsAccurate(states: seq<Node>, acts: seq<Action>, id: string,
                                              i: nat, j: nat)
    requires IsRun(states, acts) && Inv(states[0]) && i <= j < |states|
    requires PresentThroughout(states, id, i, j) && states[i].peers[id].state.Active?
    requires forall k | i <= k < j && acts[k].DoSweep? ::
               states[k].now - states[k].peers[id].lastSeen <= INACTIVE_AFTER
    ensures states[j].peers[id].state.Active?
  {
    if i < j {
      DetectorIsAccurate(states, acts, id, i, j - 1);
      RunKeepsInv(states, acts, j - 1);
      assert StepAt(states, acts, j - 1);
      ActiveStep(states[j - 1], acts[j - 1], states[j], id);
    }
  }

  /** In step k the peer is heard from, at time t: a Touch of it, or an accepted Upsert stamped then. */
  predicate HeardAt(states: seq<Node>, acts: seq<Action>, id: string, k: nat, t: int) {
    && k < |acts| && k + 1 < |states| && id in states[k + 1].peers
    && (|| (acts[k].DoTouch? && acts[k].id == id && id in states[k].peers && t == states[k].now)
        || (Upserts(acts[k], id) && t == acts[k].rec.lastSeen))
  }

  /** And not again before states[m]. */
  ghost predicate LastHeardAt(states: seq<Node>, acts: seq<Action>, id: string, k: nat, t: int, m: nat) {
    && HeardAt(states, acts, id, k, t) && k < m
    && forall l | k < l < m && l < |acts| :: !Refreshes(acts[l], id)
  }

  lemma HeardIsSeen(states: seq<Node>, acts: seq<Action>, id: string, k: nat, t: int)
    requires IsRun(states, acts) && Inv(states[0]) && HeardAt(states, acts, id, k, t)
    ensures states[k + 1].peers[id].lastSeen == t
    ensures Upserts(acts[k], id) ==> states[k + 1].peers[id].state == Active
  {
    RunKeepsInv(states, acts, k);
    assert StepAt(states, acts, k);
    if acts[k].DoUpsert? {
      UpsertInFields(states[k], acts[k].rec, states[k + 1]);
    }
  }

  /** A peer that is there after an Upsert of it has the record's addresses and stamp, and is Active. */
  lemma UpsertInFields(s: Node, rec: Peer, s': Node)
    requires Inv(s) && Next(s, DoUpsert(rec), s') && rec.id in s'.peers
    ensures var p := s'.peers[rec.id];
            p.state == Active && p.lastSeen == rec.lastSeen && p.grpc == rec.grpc && p.http == rec.http
  {
    var ok :| UpsertStep(s.peers, rec, s.now, ok, s'.peers);
    UpsertContract(s.peers, rec, s.now, ok, s'.peers);
  }

  /** The sighting of a peer is the time when it was last heard from. */
  lemma {:induction false} SightingIsLastHeard(states: seq<Node>, acts: seq<Action>, id: string, k: nat, t: int,
                                               m: nat)
    requires IsRun(states, acts) && Inv(states[0]) && m < |states| && LastHeardAt(states, acts, id, k, t, m)
    requires PresentThroughout(states, id, k + 1, m)
    ensures states[m].peers[id].lastSeen == t
  {
    if m == k + 1 {
      HeardIsSeen(states, acts, id, k, t);
    } else {
      SightingIsLastHeard(states, acts, id, k, t, m - 1);
      RunKeepsInv(states, acts, m - 1);
      assert StepAt(states, acts, m - 1);
      StepLifecycle(states[m - 1], acts[m - 1], states[m], id);
    }
  }

  /** Step m is no sweep, or the peer was last heard from, in this stretch, no more than 9 s before. */
  ghost predicate HeardInTime(states: seq<Node>, acts: seq<Action>, id: string, i: nat, m: nat)
    requires m < |states| && m < |acts|
  {
    acts[m].DoSweep? ==> exists k: nat, t ::
      i <= k && LastHeardAt(states, acts, id, k, t, m) && states[m].now <= t + 9_000_000_000
  }

  /**
   Accuracy by events: a peer that joins, or that is Active, stays Active while each sweep comes no
   more than 9 s after the last join or ping of it.
   */
  lemma {:induction false} HeardPeerStaysActive(states: seq<Node>, acts: seq<Action>, id: string, i: nat, j: nat)
    requires IsRun(states, acts) && Inv(states[0]) && i < j < |states|
    requires PresentThroughout(states, id, i + 1, j)
    requires Upserts(acts[i], id) || (id in states[i].peers && states[i].peers[id].state == Active)
    requires forall m | i <= m < j :: HeardInTime(states, acts, id, i, m)
    ensures states[j].peers[id].state == Active
  {
    RunKeepsInv(states, acts, j - 1);
    assert StepAt(states, acts, j - 1);
    if i + 1 == j {
      assert HeardInTime(states, acts, id, i, i);
      if Upserts(acts[i], id) {
        HeardIsSeen(states, acts, id, i, acts[i].rec.lastSeen);
      } else {
        ActiveStep(states[i], acts[i], states[j], id);
      }
    } else {
      HeardPeerStaysActive(states, acts, id, i, j - 1);
      assert HeardInTime(states, acts, id, i, j - 1);
      if acts[j - 1].DoSweep? {
        var k: nat, t :| i <= k && LastHeardAt(states, acts, id, k, t, j - 1)
          && states[j - 1].now <= t + 9_000_000_000;
        SightingIsLastHeard(states, acts, id, k, t, j - 1);
      }
      ActiveStep(states[j - 1], acts[j - 1], states[j], id);
    }
  }

  /** With a Left entry a new peer is accepted even when the registry is full. */
  lemma LeftMakesRoom(s: Node, id: string, rec: Peer, ok: bool, v': View)
    requires Inv(s) && id in s.peers && s.peers[id].state.Left?
    requires rec.id != "" && UpsertStep(s.peers, rec, s.now, ok, v')
    ensures ok && rec.id in v'
  {
    assert Evictable(s.peers, id);
    UpsertContract(s.peers, rec, s.now, ok, v');
  }

  /** Steps other than an Upsert keep every address they keep. */
  lemma AddressesUnchanged(s: Node, a: Action, s': Node)
    requires Inv(s) && Next(s, a, s') && !a.DoUpsert?
    ensures forall id | id in s'.peers :: id in s.peers && s'.peers[id].id == s.peers[id].id
              && s'.peers[id].grpc == s.peers[id].grpc && s'.peers[id].http == s.peers[id].http
  {}

  /** No two entries share an address, and all addresses come from the book. */
  ghost predicate UniqueFrom(v: View, book: set<(string, string)>) {
    AddressesUnique(v) && Listed(v, book)
  }

  /**
   Conditional address uniqueness: in every run in which equal non-empty HTTP addresses come with
   equal gRPC addresses, no two entries ever share an address.
   */
  lemma {:induction false} AddressesStayUnique(states: seq<Node>, acts: seq<Action>,
                                               book: set<(string, string)>, j: nat)
    requires IsRun(states, acts) && Inv(states[0]) && j < |states| && HttpDeterminesGrpc(book)
    requires UniqueFrom(states[0].peers, book)
    requires forall k | 0 <= k < |acts| && acts[k].DoUpsert? :: (acts[k].rec.grpc, acts[k].rec.http) in book
    ensures UniqueFrom(states[j].peers, book)
  {
    if j > 0 {
      AddressesStayUnique(states, acts, book, j - 1);
      UniqueInRun(states, acts, book, j - 1, j);
    }
  }

  lemma UniqueInRun(states: seq<Node>, acts: seq<Action>, book: set<(string, string)>, k: nat, j: nat)
    requires IsRun(states, acts) && Inv(states[0]) && k + 1 == j < |states| && HttpDeterminesGrpc(book)
    requires acts[k].DoUpsert? ==> (acts[k].rec.grpc, acts[k].rec.http) in book
    ensures UniqueFrom(states[k].peers, book) ==> UniqueFrom(states[j].peers, book)
  {
    RunKeepsInv(states, acts, k);
    assert StepAt(states, acts, k);
    if UniqueFrom(states[k].peers, book) {
      UniqueStep(states[k], acts[k], states[j], book);
    }
  }

  lemma UniqueStep(s: Node, a: Action, s': Node, book: set<(string, string)>)
    requires Inv(s) && Next(s, a, s') && HttpDeterminesGrpc(book)
    requires a.DoUpsert? ==> (a.rec.grpc, a.rec.http) in book
    requires AddressesUnique(s.peers) && Listed(s.peers, book)
    ensures AddressesUnique(s'.peers) && Listed(s'.peers, book)
  {
    if a.DoUpsert? {
      var ok :| UpsertStep(s.peers, a.rec, s.now, ok, s'.peers);
      UpsertKeepsUnique(s.peers, a.rec, s.now, ok, s'.peers, book);
    } else {
      AddressesUnchanged(s, a, s');
    }
  }
}
