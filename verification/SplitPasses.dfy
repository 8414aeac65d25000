/**
 Runs of one node in which the sweep and the cleanup are not one step each: a pass reads the clock
 and copies the registry, then goes through the copy entry by entry, and anything may happen in
 between. One pass of each kind is under way at a time.
 */
module SplitPasses {
  import opened Wrappers
  import opened Content
  import opened PeerRegistry
  import opened Providers
  import opened FailureDetector
  import C = Completeness
  import L = Lifecycle

  /** What a pass still has to go through, and its reading of the clock; no rest when it is over. */
  datatype Pass = Pass(rest: seq<Peer>, now: int)

  /** purge is the peer that the cleanup has just marked, and whose records it takes out next. */
  datatype State = State(node: L.Node, sweep: Pass, cleanup: Pass, purge: Option<string>)

  /** Other is any step but a whole pass. */
  datatype Action =
    | Other(step: L.Action)
    | BeginSweep(stamp: int, snap: seq<Peer>)
    | SweepNext
    | BeginCleanup(stamp: int, snap: seq<Peer>)
    | CleanupNext
    | PurgeNext

  predicate Over(p: Pass) {
    p.rest == []
  }

  function Advanced(p: Pass): Pass
    requires !Over(p)
  {
    p.(rest := p.rest[1..])
  }

  function WithPeers(s: State, v: View): State {
    s.(node := s.node.(peers := v))
  }

  /** In this step the sweep marks this peer. */
  predicate SweepHits(s: State, a: Action, id: string) {
    && a.SweepNext? && !Over(s.sweep) && s.sweep.rest[0].id == id
    && Silent(s.sweep.rest[0], s.node.self, s.sweep.now)
  }

  predicate CleanupHits(s: State, a: Action, id: string) {
    && a.CleanupNext? && !Over(s.cleanup) && s.cleanup.rest[0].id == id
    && Stale(s.cleanup.rest[0], s.node.self, s.cleanup.now)
  }

  function AfterSweepNext(s: State): State
    requires !Over(s.sweep)
  {
    var p := s.sweep.rest[0];
    (if Silent(p, s.node.self, s.sweep.now) then WithPeers(s, Marked(s.node.peers, p.id, Inactive)) else s)
      .(sweep := Advanced(s.sweep))
  }

  function AfterCleanupNext(s: State): State
    requires !Over(s.cleanup)
  {
    var p := s.cleanup.rest[0];
    (if Stale(p, s.node.self, s.cleanup.now) then
       WithPeers(s, Marked(s.node.peers, p.id, Left)).(purge := Some(p.id))
     else s)
      .(cleanup := Advanced(s.cleanup))
  }

  function AfterPurgeNext(s: State): State
    requires s.purge.Some?
  {
    s.(purge := None, node := s.node.(table := WithoutPeer(s.node.table, s.purge.value)))
  }

  ghost predicate Next(s: State, a: Action, s': State) {
    match a
    case Other(step) =>
      && !step.DoSweep? && !step.DoCleanup?
      && L.Next(s.node, step, s'.node) && s' == s.(node := s'.node)
    case BeginSweep(stamp, snap) =>
      && Over(s.sweep) && stamp <= s.node.now && IsSnapshot(snap, s.node.peers)
      && s' == s.(sweep := Pass(snap, stamp))
    case SweepNext => !Over(s.sweep) && s' == AfterSweepNext(s)
    case BeginCleanup(stamp, snap) =>
      && Over(s.cleanup) && s.purge.None? && stamp <= s.node.now && IsSnapshot(snap, s.node.peers)
      && s' == s.(cleanup := Pass(snap, stamp))
    case CleanupNext => !Over(s.cleanup) && s.purge.None? && s' == AfterCleanupNext(s)
    case PurgeNext => s.purge.Some? && s' == AfterPurgeNext(s)
  }

  ghost predicate StepAt(states: seq<State>, acts: seq<Action>, i: nat) {
    i < |acts| && i + 1 < |states| && Next(states[i], acts[i], states[i + 1])
  }

  ghost predicate IsRun(states: seq<State>, acts: seq<Action>) {
    |states| == |acts| + 1 && forall i: nat | i < |acts| :: StepAt(states, acts, i)
  }

  // ----- What splitting the passes leaves intact -----

  lemma MarkKeepsInv(n: L.Node, id: string, s: PeerState)
    requires L.Inv(n) && id != n.self
    ensures L.Inv(n.(peers := Marked(n.peers, id, s)))
  {
    L.SameSize(Marked(n.peers, id, s), n.peers);
  }

  lemma PurgeKeepsInv(n: L.Node, id: string)
    requires L.Inv(n)
    ensures L.Inv(n.(table := WithoutPeer(n.table, id)))
  {}

  lemma NextKeepsInv(s: State, a: Action, s': State)
    requires L.Inv(s.node) && Next(s, a, s')
    ensures L.Inv(s'.node) && s'.node.self == s.node.self && s'.node.now >= s.node.now
  {
    match a {
      case Other(step) => L.NextKeepsInv(s.node, step, s'.node);
      case SweepNext =>
        if s.sweep.rest[0].id != s.node.self {
          MarkKeepsInv(s.node, s.sweep.rest[0].id, Inactive);
        }
      case CleanupNext =>
        if s.cleanup.rest[0].id != s.node.self {
          MarkKeepsInv(s.node, s.cleanup.rest[0].id, Left);
        }
      case PurgeNext => PurgeKeepsInv(s.node, s.purge.value);
      case _ =>
    }
  }

  /** However the passes are interleaved: the bound and the keys hold, and self is never marked. */
  lemma {:induction false} RunKeepsInv(states: seq<State>, acts: seq<Action>, j: nat)
    requires IsRun(states, acts) && L.Inv(states[0].node) && j < |states|
    ensures L.Inv(states[j].node) && states[j].node.self == states[0].node.self
  {
    if j > 0 {
      RunKeepsInv(states, acts, j - 1);
      assert StepAt(states, acts, j - 1);
      NextKeepsInv(states[j - 1], acts[j - 1], states[j]);
    }
  }

  predicate Upserts(a: Action, id: string) {
    a.Other? && L.Upserts(a.step, id)
  }

  predicate Refreshes(a: Action, id: string) {
    a.Other? && L.Refreshes(a.step, id)
  }

  function StateOf(s: State, id: string): PeerState
    requires id in s.node.peers
  {
    s.node.peers[id].state
  }

  /** Which steps move a peer that stays in the registry from state to state. */
  lemma StepLifecycle(s: State, a: Action, s': State, id: string)
    requires L.Inv(s.node) && Next(s, a, s') && id in s.node.peers && id in s'.node.peers
    ensures StateOf(s, id).Left? && !StateOf(s', id).Left? <==>
            StateOf(s, id).Left? && (Upserts(a, id) || SweepHits(s, a, id))
    ensures !StateOf(s, id).Left? && StateOf(s', id).Left? <==>
            !StateOf(s, id).Left? && CleanupHits(s, a, id)
    ensures !StateOf(s, id).Inactive? && StateOf(s', id).Inactive? <==>
            !StateOf(s, id).Inactive? && SweepHits(s, a, id)
    ensures !Refreshes(a, id) ==>
              && s'.node.peers[id].lastSeen == s.node.peers[id].lastSeen
              && (StateOf(s', id) == StateOf(s, id) || StateOf(s', id).Inactive? || StateOf(s', id).Left?)
    ensures StateOf(s, id).Active? && !SweepHits(s, a, id) && !CleanupHits(s, a, id) ==> StateOf(s', id).Active?
  {
    if a.Other? {
      L.StepRecord(s.node, a.step, s'.node, id);
    }
  }

  // ----- Left -----

  /** The peers that the sweep under way is still going to mark, whatever becomes of them meanwhile. */
  function ToMark(s: State): set<string> {
    SilentIn(s.sweep.rest, s.node.self, s.sweep.now)
  }

  function ToExpire(s: State): set<string> {
    StaleIn(s.cleanup.rest, s.node.self, s.cleanup.now)
  }

  lemma HeadOrRest(snap: seq<Peer>, self: string, now: int)
    requires snap != []
    ensures SilentIn(snap, self, now)
         == SilentIn(snap[1..], self, now) + if Silent(snap[0], self, now) then {snap[0].id} else {}
    ensures StaleIn(snap, self, now)
         == StaleIn(snap[1..], self, now) + if Stale(snap[0], self, now) then {snap[0].id} else {}
  {
    assert forall p :: p in snap <==> p in snap[1..] || p == snap[0];
  }

  /** What a pass is going to mark changes only as it goes on, and when a new one begins. */
  lemma ToMarkStep(s: State, a: Action, s': State)
    requires L.Inv(s.node) && Next(s, a, s')
    ensures
      ToMark(s') ==
      if a.BeginSweep? then SilentIds(s.node.peers, s.node.self, a.stamp)
      else if a.SweepNext? then SilentIn(s.sweep.rest[1..], s.node.self, s.sweep.now)
      else ToMark(s)
    ensures a.BeginSweep? ==> ToMark(s) == {}
  {
    if a.BeginSweep? {
      SnapshotSilent(a.snap, s.node.peers, s.node.self, a.stamp);
    } else if a.Other? {
      L.NextKeepsInv(s.node, a.step, s'.node);
    }
  }

  lemma ToExpireStep(s: State, a: Action, s': State)
    requires L.Inv(s.node) && Next(s, a, s')
    ensures
      ToExpire(s') ==
      if a.BeginCleanup? then StaleIds(s.node.peers, s.node.self, a.stamp)
      else if a.CleanupNext? then StaleIn(s.cleanup.rest[1..], s.node.self, s.cleanup.now)
      else ToExpire(s)
    ensures a.BeginCleanup? ==> ToExpire(s) == {}
  {
    if a.BeginCleanup? {
      SnapshotSilent(a.snap, s.node.peers, s.node.self, a.stamp);
    } else if a.Other? {
      L.NextKeepsInv(s.node, a.step, s'.node);
    }
  }

  lemma MarkOrLater(s: State, a: Action, s': State, id: string)
    requires L.Inv(s.node) && Next(s, a, s')
    ensures SweepHits(s, a, id) ==> id in ToMark(s)
    ensures id in ToMark(s) && !SweepHits(s, a, id) ==> id in ToMark(s') && !a.BeginSweep?
    ensures id in ToMark(s') && id !in ToMark(s) ==>
              a.BeginSweep? && id in SilentIds(s.node.peers, s.node.self, a.stamp)
  {
    ToMarkStep(s, a, s');
    if a.SweepNext? {
      HeadOrRest(s.sweep.rest, s.node.self, s.sweep.now);
    }
  }

  lemma ExpireOrLater(s: State, a: Action, s': State, id: string)
    requires L.Inv(s.node) && Next(s, a, s')
    ensures CleanupHits(s, a, id) ==> id in ToExpire(s)
    ensures id in ToExpire(s) && !CleanupHits(s, a, id) ==> id in ToExpire(s') && !a.BeginCleanup?
    ensures id in ToExpire(s') && id !in ToExpire(s) ==>
              a.BeginCleanup? && id in StaleIds(s.node.peers, s.node.self, a.stamp)
  {
    ToExpireStep(s, a, s');
    if a.CleanupNext? {
      HeadOrRest(s.cleanup.rest, s.node.self, s.cleanup.now);
    }
  }

  /** From states[i] to states[j] the peer stays in the registry. */
  ghost predicate Present(states: seq<State>, id: string, i: nat, j: nat) {
    forall k | i <= k <= j && k < |states| :: id in states[k].node.peers
  }

  ghost predicate LeftThroughout(states: seq<State>, id: string, i: nat, j: nat)
    requires Present(states, id, i, j)
  {
    forall k | i <= k <= j && k < |states| :: StateOf(states[k], id).Left?
  }

  ghost predicate NoUpsert(acts: seq<Action>, id: string, i: nat, j: nat) {
    forall k | i <= k < j && k < |acts| :: !Upserts(acts[k], id)
  }

  /** The sweep that was under way at states[i], if any, is over by states[j]. */
  ghost predicate SweepOver(states: seq<State>, acts: seq<Action>, i: nat, j: nat)
    requires j < |states| && j <= |acts|
  {
    Over(states[j].sweep) || exists k :: i <= k < j && acts[k].BeginSweep?
  }

  lemma {:induction false} UnmarkedStaysLeft(states: seq<State>, acts: seq<Action>, id: string, i: nat, j: nat)
    requires IsRun(states, acts) && L.Inv(states[0].node) && i <= j < |states|
    requires Present(states, id, i, j) && NoUpsert(acts, id, i, j)
    requires StateOf(states[i], id).Left? && id !in ToMark(states[i])
    ensures LeftThroughout(states, id, i, j) && id !in ToMark(states[j])
  {
    if i < j {
      UnmarkedStaysLeft(states, acts, id, i, j - 1);
      RunKeepsInv(states, acts, j - 1);
      assert StepAt(states, acts, j - 1);
      StepLifecycle(states[j - 1], acts[j - 1], states[j], id);
      MarkOrLater(states[j - 1], acts[j - 1], states[j], id);
    }
  }

  lemma {:induction false} LeftMeansNotYetMarked(states: seq<State>, acts: seq<Action>, id: string, i: nat, j: nat)
    requires IsRun(states, acts) && L.Inv(states[0].node) && i <= j < |states|
    requires Present(states, id, i, j) && LeftThroughout(states, id, i, j) && id in ToMark(states[i])
    ensures id in ToMark(states[j]) && forall k | i <= k < j :: !acts[k].BeginSweep?
  {
    if i < j {
      LeftMeansNotYetMarked(states, acts, id, i, j - 1);
      RunKeepsInv(states, acts, j - 1);
      assert StepAt(states, acts, j - 1);
      StepLifecycle(states[j - 1], acts[j - 1], states[j], id);
      MarkOrLater(states[j - 1], acts[j - 1], states[j], id);
    }
  }

  /**
   When Left is undone: without an Upsert of it a Left peer that stays in the registry stays Left if
   and only if the sweep under way was not still going to mark it. Sweeps that begin later never do.
   */
  lemma LeftIsFinalIff(states: seq<State>, acts: seq<Action>, id: string, i: nat, j: nat)
    requires IsRun(states, acts) && L.Inv(states[0].node) && i <= j < |states|
    requires Present(states, id, i, j) && NoUpsert(acts, id, i, j)
    requires StateOf(states[i], id).Left? && SweepOver(states, acts, i, j)
    ensures LeftThroughout(states, id, i, j) <==> id !in ToMark(states[i])
  {
    if id !in ToMark(states[i]) {
      UnmarkedStaysLeft(states, acts, id, i, j);
    } else if LeftThroughout(states, id, i, j) {
      LeftMeansNotYetMarked(states, acts, id, i, j);
    }
  }

  // ----- Accuracy -----

  /** Every sweep that begins here reads the clock no more than 9 s after the last sighting it sees. */
  ghost predicate SeenInTime(states: seq<State>, acts: seq<Action>, id: string, i: nat, j: nat)
    requires Present(states, id, i, j)
  {
    forall k | i <= k < j && k < |acts| && k < |states| && acts[k].BeginSweep? ::
      acts[k].stamp - states[k].node.peers[id].lastSeen <= INACTIVE_AFTER
  }

  /** The peer is Active, and no pass under way is going to mark it. */
  ghost predicate Safe(s: State, id: string) {
    id in s.node.peers && StateOf(s, id).Active? && id !in ToMark(s) && id !in ToExpire(s)
  }

  lemma SafeStep(s: State, a: Action, s': State, id: string)
    requires L.Inv(s.node) && Next(s, a, s') && Safe(s, id) && id in s'.node.peers
    requires a.BeginSweep? ==> a.stamp - s.node.peers[id].lastSeen <= INACTIVE_AFTER
    ensures Safe(s', id)
  {
    StepLifecycle(s, a, s', id);
    MarkOrLater(s, a, s', id);
    ExpireOrLater(s, a, s', id);
  }

  /**
   Accuracy survives the splitting when it is measured at the copies: a peer that each sweep's copy
   shows as seen within 9 s stays Active, and no cleanup marks it.
   */
  lemma {:induction false} SplitDetectorIsAccurate(states: seq<State>, acts: seq<Action>, id: string, i: nat, j: nat)
    requires IsRun(states, acts) && L.Inv(states[0].node) && i <= j < |states|
    requires Present(states, id, i, j) && SeenInTime(states, acts, id, i, j) && Safe(states[i], id)
    ensures Safe(states[j], id)
  {
    if i < j {
      SplitDetectorIsAccurate(states, acts, id, i, j - 1);
      RunKeepsInv(states, acts, j - 1);
      assert StepAt(states, acts, j - 1);
      SafeStep(states[j - 1], acts[j - 1], states[j], id);
    }
  }

  // ----- Completeness -----

  /** From states[i] to states[j] a peer other than self stays in the registry and is not heard from. */
  ghost predicate SilentThroughout(states: seq<State>, acts: seq<Action>, id: string, i: nat, j: nat) {
    && i <= j < |states| && |states| == |acts| + 1
    && Present(states, id, i, j) && id != states[0].node.self
    && forall k | i <= k < j :: !Refreshes(acts[k], id)
  }

  predicate PastActive(s: State, id: string) {
    id in s.node.peers && (StateOf(s, id).Inactive? || StateOf(s, id).Left?)
  }

  /** The peer is Inactive or Left, or else the sweep under way is going to mark it. */
  ghost predicate Demoted(s: State, id: string) {
    PastActive(s, id) || (id in s.node.peers && id in ToMark(s))
  }

  /** No sweep has begun here. */
  ghost predicate SameSweep(acts: seq<Action>, i: nat, j: nat) {
    forall k | i <= k < j && k < |acts| :: !acts[k].BeginSweep?
  }

  lemma DemotedStep(s: State, a: Action, s': State, id: string)
    requires L.Inv(s.node) && Next(s, a, s') && id in s'.node.peers && !Refreshes(a, id) && Demoted(s, id)
    ensures PastActive(s', id) || (id in ToMark(s') && !a.BeginSweep?)
    ensures PastActive(s, id) ==> PastActive(s', id)
  {
    StepLifecycle(s, a, s', id);
    MarkOrLater(s, a, s', id);
  }

  lemma DemotedInRun(states: seq<State>, acts: seq<Action>, id: string, k: nat, j: nat)
    requires IsRun(states, acts) && L.Inv(states[0].node) && k + 1 == j < |states|
    requires id in states[j].node.peers && !Refreshes(acts[k], id) && Demoted(states[k], id)
    ensures PastActive(states[j], id) || (id in ToMark(states[j]) && !acts[k].BeginSweep?)
    ensures PastActive(states[k], id) ==> PastActive(states[j], id)
  {
    RunKeepsInv(states, acts, k);
    assert StepAt(states, acts, k);
    DemotedStep(states[k], acts[k], states[j], id);
  }

  lemma {:induction false} StaysDemoted(states: seq<State>, acts: seq<Action>, id: string, i: nat, j: nat)
    requires IsRun(states, acts) && L.Inv(states[0].node) && SilentThroughout(states, acts, id, i, j)
    requires Demoted(states[i], id)
    ensures PastActive(states[j], id) || (id in ToMark(states[j]) && SameSweep(acts, i, j))
    ensures PastActive(states[i], id) ==> PastActive(states[j], id)
  {
    if i < j {
      StaysDemoted(states, acts, id, i, j - 1);
      DemotedInRun(states, acts, id, j - 1, j);
    }
  }

  lemma {:induction false} SightingStays(states: seq<State>, acts: seq<Action>, id: string, i: nat, j: nat)
    requires IsRun(states, acts) && L.Inv(states[0].node) && SilentThroughout(states, acts, id, i, j)
    ensures states[j].node.peers[id].lastSeen == states[i].node.peers[id].lastSeen
  {
    if i < j {
      SightingStays(states, acts, id, i, j - 1);
      RunKeepsInv(states, acts, j - 1);
      assert StepAt(states, acts, j - 1);
      StepLifecycle(states[j - 1], acts[j - 1], states[j], id);
    }
  }

  /** The cleanup that was under way at states[i], if any, is over by states[j]. */
  ghost predicate CleanupOver(states: seq<State>, acts: seq<Action>, i: nat, j: nat)
    requires j < |states| && j <= |acts|
  {
    Over(states[j].cleanup) || exists k :: i <= k < j && acts[k].BeginCleanup?
  }

  ghost predicate SameCleanup(acts: seq<Action>, i: nat, j: nat) {
    forall k | i <= k < j && k < |acts| :: !acts[k].BeginCleanup?
  }

  ghost predicate LeftSometime(states: seq<State>, id: string, i: nat, j: nat)
    requires Present(states, id, i, j)
  {
    exists m: nat :: i <= m <= j && m < |states| && StateOf(states[m], id).Left?
  }

  /** A peer that a cleanup is going to mark is Left sooner or later. */
  lemma {:induction false} ExpiredInTime(states: seq<State>, acts: seq<Action>, id: string, i: nat, j: nat)
    requires IsRun(states, acts) && L.Inv(states[0].node) && SilentThroughout(states, acts, id, i, j)
    requires id in ToExpire(states[i])
    ensures LeftSometime(states, id, i, j) || (id in ToExpire(states[j]) && SameCleanup(acts, i, j))
  {
    if i < j {
      ExpiredInTime(states, acts, id, i, j - 1);
      if LeftSometime(states, id, i, j - 1) {
        assert LeftSometime(states, id, i, j);
      } else {
        RunKeepsInv(states, acts, j - 1);
        assert StepAt(states, acts, j - 1);
        StepLifecycle(states[j - 1], acts[j - 1], states[j], id);
        ExpireOrLater(states[j - 1], acts[j - 1], states[j], id);
        assert !StateOf(states[j - 1], id).Left?;
      }
    }
  }

  lemma SilentPart(states: seq<State>, acts: seq<Action>, id: string, i: nat, j: nat, k: nat, l: nat)
    requires SilentThroughout(states, acts, id, i, j) && i <= k <= l <= j
    ensures SilentThroughout(states, acts, id, k, l)
  {}

  /** A sweep that begins in time, and is over, has put a silent peer past Active. */
  lemma SweptInTime(states: seq<State>, acts: seq<Action>, id: string, i: nat, sweep: nat, j: nat)
    requires IsRun(states, acts) && L.Inv(states[0].node) && SilentThroughout(states, acts, id, i, j)
    requires i <= sweep < j && acts[sweep].BeginSweep?
    requires acts[sweep].stamp - states[i].node.peers[id].lastSeen > INACTIVE_AFTER
    requires SweepOver(states, acts, sweep + 1, j)
    ensures PastActive(states[j], id)
  {
    SilentPart(states, acts, id, i, j, i, sweep);
    SightingStays(states, acts, id, i, sweep);
    RunKeepsInv(states, acts, sweep);
    assert StepAt(states, acts, sweep);
    ToMarkStep(states[sweep], acts[sweep], states[sweep + 1]);
    assert Demoted(states[sweep + 1], id);
    SilentPart(states, acts, id, i, j, sweep + 1, j);
    StaysDemoted(states, acts, id, sweep + 1, j);
  }

  lemma CleanedInTime(states: seq<State>, acts: seq<Action>, id: string, i: nat, cleanup: nat, j: nat)
    requires IsRun(states, acts) && L.Inv(states[0].node) && SilentThroughout(states, acts, id, i, j)
    requires i <= cleanup < j && acts[cleanup].BeginCleanup?
    requires acts[cleanup].stamp - states[i].node.peers[id].lastSeen > STALE_TIMEOUT
    requires PastActive(states[cleanup], id)
    requires CleanupOver(states, acts, cleanup + 1, j)
    ensures LeftSometime(states, id, cleanup, j)
  {
    SilentPart(states, acts, id, i, j, i, cleanup);
    SightingStays(states, acts, id, i, cleanup);
    RunKeepsInv(states, acts, cleanup);
    assert StepAt(states, acts, cleanup);
    ToExpireStep(states[cleanup], acts[cleanup], states[cleanup + 1]);
    if StateOf(states[cleanup], id).Inactive? {
      SilentPart(states, acts, id, i, j, cleanup + 1, j);
      ExpiredInTime(states, acts, id, cleanup + 1, j);
    }
  }

  /**
   Completeness survives the splitting too, but for the end: a silent peer is Left at some moment after
   a sweep and then a cleanup have copied it too late and are over. Whether it stays Left from there
   on is LeftIsFinalIff.
   */
  lemma SplitDetectorIsComplete(states: seq<State>, acts: seq<Action>, id: string, i: nat, sweep: nat,
                                cleanup: nat, j: nat)
    requires IsRun(states, acts) && L.Inv(states[0].node) && SilentThroughout(states, acts, id, i, j)
    requires i <= sweep < cleanup < j
    requires acts[sweep].BeginSweep? && acts[cleanup].BeginCleanup?
    requires acts[sweep].stamp - states[i].node.peers[id].lastSeen > INACTIVE_AFTER
    requires acts[cleanup].stamp - states[i].node.peers[id].lastSeen > STALE_TIMEOUT
    requires SweepOver(states, acts, sweep + 1, cleanup) && CleanupOver(states, acts, cleanup + 1, j)
    ensures LeftSometime(states, id, cleanup, j)
    ensures PastActive(states[j], id)
  {
    SilentPart(states, acts, id, i, j, i, cleanup);
    SweptInTime(states, acts, id, i, sweep, cleanup);
    CleanedInTime(states, acts, id, i, cleanup, j);
    SilentPart(states, acts, id, i, j, cleanup, j);
    StaysDemoted(states, acts, id, cleanup, j);
  }

  // ----- Passes that nothing disturbs -----

  function SweepOut(s: State): State
    decreases |s.sweep.rest|
  {
    if Over(s.sweep) then s else SweepOut(AfterSweepNext(s))
  }

  /** The cleanup takes out the records of a peer that it has marked before it goes on. */
  function CleanupOut(s: State): State
    decreases |s.cleanup.rest|, if s.purge.Some? then 1 else 0
  {
    if s.purge.Some? then CleanupOut(AfterPurgeNext(s))
    else if Over(s.cleanup) then s
    else CleanupOut(AfterCleanupNext(s))
  }

  lemma MarkedThenMarkAll(v: View, id: string, ids: set<string>, s: PeerState)
    ensures MarkAll(Marked(v, id, s), ids, s) == MarkAll(v, ids + {id}, s)
  {}

  lemma {:induction false} SweepOutMarks(s: State)
    ensures SweepOut(s) == WithPeers(s, MarkAll(s.node.peers, ToMark(s), Inactive)).(sweep := Pass([], s.sweep.now))
    decreases |s.sweep.rest|
  {
    if Over(s.sweep) {
      assert MarkAll(s.node.peers, {}, Inactive) == s.node.peers;
    } else {
      var p, rest := s.sweep.rest[0], SilentIn(s.sweep.rest[1..], s.node.self, s.sweep.now);
      HeadOrRest(s.sweep.rest, s.node.self, s.sweep.now);
      MarkedThenMarkAll(s.node.peers, p.id, rest, Inactive);
      SweepOutMarks(AfterSweepNext(s));
    }
  }

  /** A pass that begins on time and that nothing disturbs is the one step of the coarser runs. */
  lemma UndisturbedSweep(s: State, snap: seq<Peer>, s': State)
    requires L.Inv(s.node) && Next(s, BeginSweep(s.node.now, snap), s')
    ensures L.Next(s.node, L.DoSweep, SweepOut(s').node)
  {
    SweepOutMarks(s');
    SnapshotSilent(snap, s.node.peers, s.node.self, s.node.now);
  }

  lemma WithoutOneThenAll(t: Table, id: string, ids: set<string>)
    requires WellFormed(t)
    ensures WithoutPeers(WithoutPeer(t, id), ids) == WithoutPeers(t, ids + {id})
  {
    forall c | c in t ensures t[c] - ids - {id} == t[c] - (ids + {id}) == t[c] - {id} - ids {}
    if id == "" {
      NamelessHasNoRecords(t, ids);
    }
  }

  function CleanedOut(s: State): L.Node {
    s.node.(peers := MarkAll(s.node.peers, ToExpire(s), Left), table := WithoutPeers(s.node.table, ToExpire(s)))
  }

  lemma {:induction false} CleanupOutMarks(s: State)
    requires WellFormed(s.node.table) && s.purge.None?
    ensures CleanupOut(s).node == CleanedOut(s)
    decreases |s.cleanup.rest|
  {
    if Over(s.cleanup) {
      assert ToExpire(s) == {} && MarkAll(s.node.peers, {}, Left) == s.node.peers;
      RemoveNone(s.node.table);
    } else {
      var p, rest := s.cleanup.rest[0], StaleIn(s.cleanup.rest[1..], s.node.self, s.cleanup.now);
      HeadOrRest(s.cleanup.rest, s.node.self, s.cleanup.now);
      var next := AfterCleanupNext(s);
      if Stale(p, s.node.self, s.cleanup.now) {
        MarkedThenMarkAll(s.node.peers, p.id, rest, Left);
        WithoutOneThenAll(s.node.table, p.id, rest);
        CleanupOutMarks(AfterPurgeNext(next));
        assert CleanupOut(s) == CleanupOut(next) == CleanupOut(AfterPurgeNext(next));
        assert {p.id} + rest == ToExpire(s);
      } else {
        CleanupOutMarks(next);
        assert CleanupOut(s) == CleanupOut(next) && rest == ToExpire(s);
      }
    }
  }

  lemma UndisturbedCleanup(s: State, snap: seq<Peer>, s': State)
    requires L.Inv(s.node) && Next(s, BeginCleanup(s.node.now, snap), s')
    ensures L.Next(s.node, L.DoCleanup, CleanupOut(s').node)
  {
    CleanupOutMarks(s');
    SnapshotSilent(snap, s.node.peers, s.node.self, s.node.now);
  }

  /** A peer's records go only when the cleanup, having marked it, takes them out. */
  lemma SplitRecordStep(s: State, a: Action, s': State, c: Cid, id: string)
    requires L.Inv(s.node) && Next(s, a, s') && id != ""
    ensures C.HasRecord(s'.node.table, c, id) <==>
              (C.HasRecord(s.node.table, c, id) || (a.Other? && C.Announces(a.step, c, id)))
              && !(a.PurgeNext? && s.purge == Some(id))
  {
    if a.Other? {
      C.RecordStep(s.node, a.step, s'.node, c, id);
    } else if a.PurgeNext? && C.HasRecord(s.node.table, c, id) && s.purge != Some(id) {
      assert id in s.node.table[c] - {s.purge.value};
    }
  }

  /** A run in which a cleanup marks a peer Left while a sweep is under way, and the sweep undoes it. */
  lemma LeftUndoneInRun(self: string, p: Peer) returns (states: seq<State>, acts: seq<Action>)
    requires p.id != "" && p.id != self && p.state.Inactive? && p.lastSeen == 0
    ensures IsRun(states, acts) && L.Inv(states[0].node) && |acts| == 5
    ensures Present(states, p.id, 0, 5) && NoUpsert(acts, p.id, 0, 5)
    ensures StateOf(states[3], p.id).Left? && p.id in ToMark(states[3]) && SweepOver(states, acts, 3, 5)
    ensures StateOf(states[5], p.id).Inactive? && states[5].purge.None?
  {
    var now := STALE_TIMEOUT + 1;
    var idle := Pass([], now);
    var s0 := State(C.Alone(self, p, now), idle, idle, None);
    var s1 := s0.(sweep := Pass([p], now));
    var s2 := s1.(cleanup := Pass([p], now));
    var s3, s4 := AfterCleanupNext(s2), AfterPurgeNext(AfterCleanupNext(s2));
    states, acts := [s0, s1, s2, s3, s4, AfterSweepNext(s4)],
      [BeginSweep(now, [p]), BeginCleanup(now, [p]), CleanupNext, PurgeNext, SweepNext];
    OneEntry(p);
    assert StepAt(states, acts, 0) && StepAt(states, acts, 1) && StepAt(states, acts, 2);
    assert StepAt(states, acts, 3) && StepAt(states, acts, 4);
    assert p in s3.sweep.rest;
  }

  lemma OneEntry(p: Peer)
    ensures IsSnapshot([p], map[p.id := p])
  {
    assert p in [p];
  }
}
