/**
 What becomes of a silent peer and of its provider records over the runs of one node: when it ends
 up Left, and exactly which records of it are left then.
 */
module Completeness {
  import opened Content
  import opened PeerRegistry
  import opened Providers
  import opened FailureDetector
  import opened Lifecycle

  // ----- Left -----

  /** How far a silent peer has come: its last sighting, and where the two passes have put it. */
  ghost predicate Decay(s: Node, id: string, seen: int, swept: bool, cleaned: bool) {
    && id in s.peers && s.peers[id].lastSeen == seen
    && (swept ==> s.peers[id].state.Inactive? || s.peers[id].state.Left?)
    && (cleaned ==> s.peers[id].state.Left?)
  }

  lemma DecayStep(s: Node, a: Action, s': Node, id: string, seen: int, swept: bool, cleaned: bool)
    requires Inv(s) && Next(s, a, s') && id in s'.peers && id != s.self && !Refreshes(a, id)
    requires Decay(s, id, seen, swept, cleaned)
    ensures Decay(s', id, seen, swept || (a.DoSweep? && s.now - seen > INACTIVE_AFTER),
                  cleaned || (swept && a.DoCleanup? && s.now - seen > STALE_TIMEOUT))
  {
    StepLifecycle(s, a, s', id);
  }

  /** From states[i] to states[j] a peer other than self stays in the registry and is not heard from. */
  ghost predicate SilentThroughout(states: seq<Node>, acts: seq<Action>, id: string, i: nat, j: nat) {
    && i <= j < |states| && |states| == |acts| + 1
    && PresentThroughout(states, id, i, j) && id != states[0].self
    && forall k | i <= k < j :: !Refreshes(acts[k], id)
  }

  /** And there is a sweep more than 9 s and a later cleanup more than 60 s after its last sighting. */
  ghost predicate SilentWindow(states: seq<Node>, acts: seq<Action>, id: string, i: nat, sweep: nat,
                               cleanup: nat, j: nat)
  {
    && SilentThroughout(states, acts, id, i, j) && i <= sweep < cleanup < j
    && acts[sweep].DoSweep? && states[sweep].now - states[i].peers[id].lastSeen > INACTIVE_AFTER
    && acts[cleanup].DoCleanup? && states[cleanup].now - states[i].peers[id].lastSeen > STALE_TIMEOUT
  }

  lemma {:induction false} DecayOverRun(states: seq<Node>, acts: seq<Action>, id: string, i: nat,
                                        sweep: nat, cleanup: nat, j: nat, k: nat)
    requires IsRun(states, acts) && Inv(states[0]) && i <= k <= j
    requires SilentWindow(states, acts, id, i, sweep, cleanup, j)
    ensures Decay(states[k], id, states[i].peers[id].lastSeen, k > sweep, k > cleanup)
  {
    if i < k {
      DecayOverRun(states, acts, id, i, sweep, cleanup, j, k - 1);
      RunKeepsInv(states, acts, k - 1);
      assert StepAt(states, acts, k - 1);
      var seen := states[i].peers[id].lastSeen;
      DecayStep(states[k - 1], acts[k - 1], states[k], id, seen, k - 1 > sweep, k - 1 > cleanup);
    }
  }

  // ----- Records -----

  predicate HasRecord(t: Table, c: Cid, id: string) {
    c in t && id in t[c]
  }

  predicate Announces(a: Action, c: Cid, id: string) {
    a.Announce? && a.cid == c && a.ep.peerId == id
  }

  /** Only the cleanup that makes a peer Left takes out its records, and it takes out all of them. */
  lemma RecordStep(s: Node, a: Action, s': Node, c: Cid, id: string)
    requires Inv(s) && Next(s, a, s') && id != ""
    ensures HasRecord(s'.table, c, id) <==>
              (HasRecord(s.table, c, id) || Announces(a, c, id))
              && !(a.DoCleanup? && id in StaleIds(s.peers, s.self, s.now))
  {
    var stale := StaleIds(s.peers, s.self, s.now);
    assert HasRecord(s.table, c, id) && id !in stale ==> id in s.table[c] - stale;
  }

  /** The peer is announced, to this node, in step k, although it is Left there. */
  predicate AnnouncedLeftAt(states: seq<Node>, acts: seq<Action>, id: string, k: nat) {
    && k < |acts| && k < |states| && acts[k].Announce? && acts[k].ep.peerId == id
    && id in states[k].peers && states[k].peers[id].state.Left?
  }

  ghost predicate AnnouncedLeft(states: seq<Node>, acts: seq<Action>, id: string, i: nat, j: nat) {
    exists k: nat :: i <= k < j && AnnouncedLeftAt(states, acts, id, k)
  }

  lemma NoRecordsStep(s: Node, a: Action, s': Node, id: string)
    requires Inv(s) && Next(s, a, s') && id in s.peers && id in s'.peers && !Refreshes(a, id)
    ensures s.peers[id].state.Left? ==>
              && s'.peers[id].state.Left?
              && (HasNoRecords(s'.table, id) <==>
                  HasNoRecords(s.table, id) && !(a.Announce? && a.ep.peerId == id))
    ensures !s.peers[id].state.Left? && s'.peers[id].state.Left? ==> HasNoRecords(s'.table, id)
  {
    StepLifecycle(s, a, s', id);
    forall c ensures HasRecord(s'.table, c, id) <==>
        (HasRecord(s.table, c, id) || Announces(a, c, id))
        && !(a.DoCleanup? && id in StaleIds(s.peers, s.self, s.now))
    {
      RecordStep(s, a, s', c, id);
    }
    NoRecordsIff(s.table, id);
    NoRecordsIff(s'.table, id);
    if c :| HasRecord(s.table, c, id) {
      assert s.peers[id].state.Left? ==> HasRecord(s'.table, c, id);
    }
    if a.Announce? && a.ep.peerId == id {
      assert HasRecord(s'.table, a.cid, id);
    }
  }

  lemma NoRecordsIff(t: Table, id: string)
    ensures HasNoRecords(t, id) <==> forall c :: !HasRecord(t, c, id)
  {
    if HasNoRecords(t, id) {
      assert forall c :: !HasRecord(t, c, id);
    } else {
      var c :| c in t && id in t[c];
      assert HasRecord(t, c, id);
    }
  }

  /** What is known of the records of a silent peer: clean is whether it was not Left without records. */
  ghost predicate RecordsKnown(states: seq<Node>, acts: seq<Action>, id: string, i: nat, k: nat)
    requires i < |states| && k < |states| && id in states[i].peers && id in states[k].peers
  {
    && (AnnouncedLeft(states, acts, id, i, k) ==> states[k].peers[id].state.Left?)
    && (states[i].peers[id].state.Left? ==> states[k].peers[id].state.Left?)
    && (states[k].peers[id].state.Left? ==>
          (HasNoRecords(states[k].table, id) <==>
             (states[i].peers[id].state.Left? ==> HasNoRecords(states[i].table, id))
             && !AnnouncedLeft(states, acts, id, i, k)))
  }

  lemma AnnouncedOneMore(states: seq<Node>, acts: seq<Action>, id: string, i: nat, k: nat)
    requires i < k
    ensures AnnouncedLeft(states, acts, id, i, k) <==>
            AnnouncedLeft(states, acts, id, i, k - 1) || AnnouncedLeftAt(states, acts, id, k - 1)
  {
    if AnnouncedLeftAt(states, acts, id, k - 1) {
      assert i <= k - 1 < k;
    }
  }

  lemma {:induction false} RecordsOverRun(states: seq<Node>, acts: seq<Action>, id: string, i: nat, j: nat, k: nat)
    requires IsRun(states, acts) && Inv(states[0]) && i <= k <= j
    requires SilentThroughout(states, acts, id, i, j)
    ensures RecordsKnown(states, acts, id, i, k)
  {
    if i < k {
      RecordsOverRun(states, acts, id, i, j, k - 1);
      AnnouncedOneMore(states, acts, id, i, k);
      RunKeepsInv(states, acts, k - 1);
      assert StepAt(states, acts, k - 1);
      NoRecordsStep(states[k - 1], acts[k - 1], states[k], id);
    }
  }

  /**
   Completeness: a silent peer ends up Left, and then it is in no provider record if and only if it
   was in none if it was Left before, and nobody named it as a provider while it was Left.
   */
  lemma DetectorIsComplete(states: seq<Node>, acts: seq<Action>, id: string, i: nat, sweep: nat,
                           cleanup: nat, j: nat)
    requires IsRun(states, acts) && Inv(states[0])
    requires SilentWindow(states, acts, id, i, sweep, cleanup, j)
    ensures states[j].peers[id].state.Left?
    ensures HasNoRecords(states[j].table, id) <==>
              (states[i].peers[id].state.Left? ==> HasNoRecords(states[i].table, id))
              && !AnnouncedLeft(states, acts, id, i, j)
  {
    DecayOverRun(states, acts, id, i, sweep, cleanup, j, j);
    RecordsOverRun(states, acts, id, i, j, j);
  }

  /** In no state of this stretch is the peer an Inactive entry of the registry. */
  ghost predicate NeverInactive(states: seq<Node>, id: string, i: nat, j: nat) {
    forall k: nat | i <= k < j && k < |states| :: id in states[k].peers ==> !states[k].peers[id].state.Inactive?
  }

  /**
   Records outlive their peer: those of a peer that is not in the registry, because it left, was
   pruned for its address or evicted, and those of a peer that is Left, are never taken out.
   */
  lemma {:induction false} RecordOutlivesPeer(states: seq<Node>, acts: seq<Action>, c: Cid, id: string,
                                              i: nat, j: nat)
    requires IsRun(states, acts) && Inv(states[0]) && i <= j < |states| && id != ""
    requires NeverInactive(states, id, i, j) && HasRecord(states[i].table, c, id)
    ensures HasRecord(states[j].table, c, id)
  {
    if i < j {
      RecordOutlivesPeer(states, acts, c, id, i, j - 1);
      RunKeepsInv(states, acts, j - 1);
      assert StepAt(states, acts, j - 1);
      RecordStep(states[j - 1], acts[j - 1], states[j], c, id);
    }
  }

  // ----- Witnesses -----

  /** One entry in the registry, and no records. */
  function Alone(self: string, p: Peer, now: int): Node {
    Node(self, map[p.id := p], map[], now)
  }

  /**
   A peer is silent, swept and cleaned up; then it is named as a provider, and the record stays
   although the cleanup passes again.
   */
  lemma RecordOfLeftPeerStays(self: string, p: Peer, c: Cid) returns (states: seq<Node>, acts: seq<Action>)
    requires p.id != "" && p.id != self && p.state.Active? && p.lastSeen == 0
    ensures IsRun(states, acts) && Inv(states[0])
    ensures SilentWindow(states, acts, p.id, 0, 0, 1, 4) && !states[0].peers[p.id].state.Left?
    ensures HasNoRecords(states[2].table, p.id) && HasRecord(states[4].table, c, p.id)
  {
    var ep := Endpoint(p.id, p.grpc, p.http);
    var s0 := Alone(self, p, STALE_TIMEOUT + 1);
    var s1 := s0.(peers := map[p.id := p.(state := Inactive)]);
    var s2 := s0.(peers := map[p.id := p.(state := Left)]);
    var s3 := s2.(table := map[c := map[p.id := ep]]);
    states, acts := [s0, s1, s2, s3, s3], [DoSweep, DoCleanup, Announce(c, ep), DoCleanup];
    assert Next(s0, DoSweep, s1);
    assert Next(s1, DoCleanup, s2);
    assert Announced(s2.table, c, ep) == s3.table;
    StaysAsItIs(s3, p.id);
    assert StepAt(states, acts, 0) && StepAt(states, acts, 1) && StepAt(states, acts, 2) && StepAt(states, acts, 3);
  }

  lemma StaysAsItIs(s: Node, id: string)
    requires s.peers.Keys == {id} && s.peers[id].state.Left? && WellFormed(s.table)
    ensures Next(s, DoCleanup, s)
  {
    assert StaleIds(s.peers, s.self, s.now) == {};
    assert MarkAll(s.peers, {}, Left) == s.peers;
    RemoveNone(s.table);
  }

  /** A peer that leaves by LeaveNetwork keeps its records, whatever cleanups follow. */
  lemma RecordOfGonePeerStays(self: string, p: Peer, c: Cid, now: int) returns (states: seq<Node>, acts: seq<Action>)
    requires p.id != "" && p.id != self && p.lastSeen <= now
    ensures IsRun(states, acts) && Inv(states[0]) && acts == [DoLeave(p.id), DoCleanup]
    ensures p.id !in states[2].peers && HasRecord(states[2].table, c, p.id)
  {
    var ep := Endpoint(p.id, p.grpc, p.http);
    var s0 := Alone(self, p, now).(table := map[c := map[p.id := ep]]);
    var s1 := s0.(peers := map[]);
    assert Marked(s0.peers, p.id, Left) - {p.id} == map[];
    assert StaleIds(s1.peers, self, now) == {} && MarkAll(s1.peers, {}, Left) == s1.peers;
    RemoveNone(s1.table);
    states, acts := [s0, s1, s1], [DoLeave(p.id), DoCleanup];
    assert StepAt(states, acts, 0) && StepAt(states, acts, 1);
  }
}
