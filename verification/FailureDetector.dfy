/**
 The failure detector: the heartbeat sweep (internal/peer/peer_manager.go) and the cleanup pass
 (internal/scheduler/cleanup.go), which move silent peers from Active to Inactive to Left.
 */
module FailureDetector {
  import opened Wrappers
  import opened Content
  import opened PeerRegistry
  import opened Providers

  const SECOND := 1_000_000_000
  const HEARTBEAT_SEC := 3
  const INACTIVE_AFTER := HEARTBEAT_SEC * 3 * SECOND
  const STALE_TIMEOUT := 60 * SECOND

  /** What the sweep marks Inactive. */
  predicate Silent(p: Peer, self: string, now: int) {
    p.id != self && !p.state.Left? && now - p.lastSeen > INACTIVE_AFTER
  }

  /** What the cleanup marks Left. */
  predicate Stale(p: Peer, self: string, now: int) {
    p.id != self && p.state.Inactive? && now - p.lastSeen > STALE_TIMEOUT
  }

  function SilentIn(snap: seq<Peer>, self: string, now: int): set<string> {
    set p | p in snap && Silent(p, self, now) :: p.id
  }

  function StaleIn(snap: seq<Peer>, self: string, now: int): set<string> {
    set p | p in snap && Stale(p, self, now) :: p.id
  }

  ghost function SilentIds(v: View, self: string, now: int): set<string> {
    set id | id in v && Silent(v[id], self, now)
  }

  ghost function StaleIds(v: View, self: string, now: int): set<string> {
    set id | id in v && Stale(v[id], self, now)
  }

  function MarkAll(v: View, ids: set<string>, s: PeerState): View {
    map id | id in v :: if id in ids then v[id].(state := s) else v[id]
  }

  /** The table without any record of these peers. */
  function WithoutPeers(t: Table, ids: set<string>): Table {
    map c | c in t && t[c] - ids != map[] :: t[c] - ids
  }

  lemma SnapshotMembers(snap: seq<Peer>, v: View, id: string)
    requires IsSnapshot(snap, v) && WellKeyed(v) && id in v
    ensures v[id] in snap
  {
    assert id in Ids(snap);
    var p :| p in snap && p.id == id;
  }

  lemma SnapshotSilent(snap: seq<Peer>, v: View, self: string, now: int)
    requires IsSnapshot(snap, v) && WellKeyed(v)
    ensures SilentIn(snap, self, now) == SilentIds(v, self, now)
    ensures StaleIn(snap, self, now) == StaleIds(v, self, now)
  {
    forall id | id in v ensures v[id] in snap {
      SnapshotMembers(snap, v, id);
    }
  }

  class Manager {
    const registry: Registry

    constructor (registry: Registry)
      ensures this.registry == registry
    {
      this.registry := registry;
    }

    /** Marks the peers that have not been seen; never self. */
    method Sweep(now: int)
      requires registry.Valid()
      modifies registry
      ensures registry.Valid()
      ensures registry.peers ==
              MarkAll(old(registry.peers), SilentIds(old(registry.peers), registry.self, now), Inactive)
    {
      var snap := registry.Snapshot();
      SnapshotSilent(snap, registry.peers, registry.self, now);
      MarkSilent(snap, now);
    }

    /** The loop of the sweep, over a snapshot that other steps may have made out of date. */
    method MarkSilent(snap: seq<Peer>, now: int)
      requires registry.Valid()
      modifies registry
      ensures registry.Valid()
      ensures registry.peers == MarkAll(old(registry.peers), SilentIn(snap, registry.self, now), Inactive)
    {
      ghost var v, marked := registry.peers, SilentIn(snap[..0], registry.self, now);
      assert MarkAll(v, marked, Inactive) == v;
      for i := 0 to |snap|
        invariant registry.Valid()
        invariant marked == SilentIn(snap[..i], registry.self, now)
        invariant registry.peers == MarkAll(v, marked, Inactive)
      {
        var p := snap[i];
        StepSets(snap, i, registry.self, now);
        if p.id == registry.self {
          continue;
        }
        if p.state == Left {
          continue;
        }
        if now - p.lastSeen > INACTIVE_AFTER {
          registry.MarkState(p.id, Inactive);
          MarkOneMore(v, marked, p.id, Inactive);
          marked := marked + {p.id};
        }
      }
      assert snap[..|snap|] == snap;
    }

    method Leave(id: string)
      requires registry.Valid()
      modifies registry
      ensures registry.Valid() && registry.peers == old(registry.peers) - {id}
    {
      registry.MarkState(id, Left);
      registry.Remove(id);
    }
  }

  lemma MarkOneMore(v: View, ids: set<string>, id: string, s: PeerState)
    ensures Marked(MarkAll(v, ids, s), id, s) == MarkAll(v, ids + {id}, s)
  {}

  lemma StepSets(snap: seq<Peer>, i: nat, self: string, now: int)
    requires i < |snap|
    ensures SilentIn(snap[..i + 1], self, now)
         == SilentIn(snap[..i], self, now) + if Silent(snap[i], self, now) then {snap[i].id} else {}
    ensures StaleIn(snap[..i + 1], self, now)
         == StaleIn(snap[..i], self, now) + if Stale(snap[i], self, now) then {snap[i].id} else {}
  {
    assert snap[..i + 1] == snap[..i] + [snap[i]];
    assert forall p :: p in snap[..i + 1] <==> p in snap[..i] || p == snap[i];
  }

  lemma RemoveNone(t: Table)
    requires WellFormed(t)
    ensures WithoutPeers(t, {}) == t
  {
    assert forall c | c in t :: t[c] - {} == t[c];
  }

  lemma RemoveOneMore(t: Table, ids: set<string>, id: string)
    requires WellFormed(t)
    ensures WithoutPeer(WithoutPeers(t, ids), id) == WithoutPeers(t, ids + {id})
  {
    forall c | c in t ensures (t[c] - ids) - {id} == t[c] - (ids + {id}) {}
    if id == "" {
      NamelessHasNoRecords(t, ids);
    }
  }

  lemma NamelessHasNoRecords(t: Table, ids: set<string>)
    requires WellFormed(t)
    ensures forall c | c in t :: t[c] - (ids + {""}) == t[c] - ids
  {
    forall c | c in t ensures t[c] - (ids + {""}) == t[c] - ids {
      assert "" !in t[c];
    }
  }

  lemma StaysWellFormed(t: Table, ids: set<string>)
    requires WellFormed(t)
    ensures WellFormed(WithoutPeers(t, ids))
  {}

  ghost predicate HasNoRecords(t: Table, id: string) {
    forall c | c in t :: id !in t[c]
  }

  /** One tick of the cleanup loop: long-silent peers are Left and their records purged. */
  method CleanupPass(registry: Registry, provs: ProviderRecords, now: int)
    requires registry.Valid() && provs.Valid()
    modifies registry, provs
    ensures registry.Valid() && provs.Valid()
    ensures var stale := StaleIds(old(registry.peers), registry.self, now);
            && registry.peers == MarkAll(old(registry.peers), stale, Left)
            && provs.m == WithoutPeers(old(provs.m), stale)
  {
    var snap := registry.Snapshot();
    SnapshotSilent(snap, registry.peers, registry.self, now);
    ExpireStale(registry, provs, snap, now);
  }

  /** The loop of the cleanup, over a snapshot that other steps may have made out of date. */
  method ExpireStale(registry: Registry, provs: ProviderRecords, snap: seq<Peer>, now: int)
    requires registry.Valid() && provs.Valid()
    modifies registry, provs
    ensures registry.Valid() && provs.Valid()
    ensures registry.peers == MarkAll(old(registry.peers), StaleIn(snap, registry.self, now), Left)
    ensures provs.m == WithoutPeers(old(provs.m), StaleIn(snap, registry.self, now))
  {
    ghost var v, t, marked := registry.peers, provs.m, StaleIn(snap[..0], registry.self, now);
    assert marked == {} && MarkAll(v, marked, Left) == v;
    RemoveNone(t);
    for i := 0 to |snap|
      invariant registry.Valid() && provs.Valid()
      invariant marked == StaleIn(snap[..i], registry.self, now)
      invariant registry.peers == MarkAll(v, marked, Left)
      invariant provs.m == WithoutPeers(t, marked)
    {
      var p := snap[i];
      StepSets(snap, i, registry.self, now);
      if p.id == registry.self {
        continue;
      }
      if p.state == Inactive && now - p.lastSeen > STALE_TIMEOUT {
        Expire(registry, provs, p.id, v, t, marked);
        marked := marked + {p.id};
      }
    }
    assert snap[..|snap|] == snap;
  }

  method Expire(registry: Registry, provs: ProviderRecords, id: string,
                ghost v: View, ghost t: Table, ghost marked: set<string>)
    requires registry.Valid() && provs.Valid() && WellFormed(t)
    requires registry.peers == MarkAll(v, marked, Left) && provs.m == WithoutPeers(t, marked)
    modifies registry, provs
    ensures registry.Valid() && provs.Valid()
    ensures registry.peers == MarkAll(v, marked + {id}, Left)
    ensures provs.m == WithoutPeers(t, marked + {id})
  {
    registry.MarkState(id, Left);
    provs.RemovePeer(id);
    MarkOneMore(v, marked, id, Left);
    RemoveOneMore(t, marked, id);
  }

  /** What a sweep does, in the fields of the records: 9 s are 9 000 000 000 ns. */
  lemma SweepInFields(v: View, self: string, now: int, id: string)
    requires WellKeyed(v) && id in v
    ensures
      var v' := MarkAll(v, SilentIds(v, self, now), Inactive);
      && v'.Keys == v.Keys
      && v'[id] == v[id].(state := if id != self && v[id].state != Left && now - v[id].lastSeen > 9_000_000_000
                                   then Inactive else v[id].state)
  {}

  /** What a cleanup does, in the fields of the records: 60 s are 60 000 000 000 ns. */
  lemma CleanupInFields(v: View, t: Table, self: string, now: int, id: string, c: Cid)
    requires WellKeyed(v)
    ensures
      var stale := StaleIds(v, self, now);
      var v', t' := MarkAll(v, stale, Left), WithoutPeers(t, stale);
      var expires := id in v && id != self && v[id].state == Inactive && now - v[id].lastSeen > 60_000_000_000;
      && v'.Keys == v.Keys
      && (id in v ==> v'[id] == v[id].(state := if expires then Left else v[id].state))
      && EndpointAt(t', c, id) == if expires then None else EndpointAt(t, c, id)
  {
    RecordWithout(t, StaleIds(v, self, now), id, c);
  }

  lemma RecordWithout(t: Table, gone: set<string>, id: string, c: Cid)
    ensures EndpointAt(WithoutPeers(t, gone), c, id) == if id in gone then None else EndpointAt(t, c, id)
  {
    if c in t && id in t[c] && id !in gone {
      assert id in t[c] - gone;
    }
  }

  /**
   A sweep that works on an out-of-date snapshot brings a Left peer back exactly when the
   snapshot still shows that peer silent and not Left.
   */
  lemma StaleSweepRevivesIff(v: View, snap: seq<Peer>, self: string, now: int)
    ensures (exists id :: id in v && v[id].state.Left?
                          && !MarkAll(v, SilentIn(snap, self, now), Inactive)[id].state.Left?)
       <==> (exists p :: p in snap && Silent(p, self, now) && p.id in v && v[p.id].state.Left?)
  {
    if p :| p in snap && Silent(p, self, now) && p.id in v && v[p.id].state.Left? {
      assert p.id in v && !MarkAll(v, SilentIn(snap, self, now), Inactive)[p.id].state.Left?;
    }
  }

  /** Every cleanup that falls between a sweep's snapshot and its marking is undone. */
  lemma CleanupDuringSweepIsUndone(v: View, snap: seq<Peer>, self: string, now: int, id: string)
    requires WellKeyed(v) && IsSnapshot(snap, v) && id in StaleIds(v, self, now)
    ensures
      var cleaned := MarkAll(v, StaleIds(v, self, now), Left);
      cleaned[id].state.Left? && MarkAll(cleaned, SilentIn(snap, self, now), Inactive)[id].state.Inactive?
  {
    SnapshotMembers(snap, v, id);
    assert Silent(v[id], self, now);
  }

  /** The peer counts as alive: Active, and seen within the sweep's time. */
  predicate Fresh(p: Peer, now: int) {
    p.state.Active? && now - p.lastSeen <= INACTIVE_AFTER
  }

  /** A sweep on an out-of-date snapshot makes some live peer Inactive exactly when it shows one as silent. */
  lemma StaleSweepHitsLivePeersIff(v: View, snap: seq<Peer>, self: string, now: int)
    ensures (exists id :: id in v && Fresh(v[id], now)
                          && MarkAll(v, SilentIn(snap, self, now), Inactive)[id].state.Inactive?)
       <==> (exists p :: p in snap && Silent(p, self, now) && p.id in v && Fresh(v[p.id], now))
  {
    if p :| p in snap && Silent(p, self, now) && p.id in v && Fresh(v[p.id], now) {
      assert p.id in v && MarkAll(v, SilentIn(snap, self, now), Inactive)[p.id].state.Inactive?;
    }
  }

  /** A cleanup on an out-of-date snapshot makes some live peer Left exactly when it shows one as stale. */
  lemma StaleCleanupHitsLivePeersIff(v: View, snap: seq<Peer>, self: string, now: int)
    ensures (exists id :: id in v && Fresh(v[id], now)
                          && MarkAll(v, StaleIn(snap, self, now), Left)[id].state.Left?)
       <==> (exists p :: p in snap && Stale(p, self, now) && p.id in v && Fresh(v[p.id], now))
  {
    if p :| p in snap && Stale(p, self, now) && p.id in v && Fresh(v[p.id], now) {
      assert p.id in v && MarkAll(v, StaleIn(snap, self, now), Left)[p.id].state.Left?;
    }
  }

  /**
   A ping between the snapshot of a sweep and its marking is lost: the peer has just been seen, and
   is Inactive all the same.
   */
  lemma TouchDuringSweepIsLost(v: View, snap: seq<Peer>, self: string, now: int, id: string)
    requires WellKeyed(v) && IsSnapshot(snap, v) && id in SilentIds(v, self, now) && !v[id].state.Unset?
    ensures
      var seen := Touched(v, id, now);
      Fresh(seen[id], now) && MarkAll(seen, SilentIn(snap, self, now), Inactive)[id].state.Inactive?
  {
    SnapshotMembers(snap, v, id);
  }

  /** A ping between the snapshot of a cleanup and its marking is lost too, and the peer's records with it. */
  lemma TouchDuringCleanupIsLost(v: View, t: Table, snap: seq<Peer>, self: string, now: int, id: string)
    requires WellKeyed(v) && IsSnapshot(snap, v) && id in StaleIds(v, self, now)
    ensures
      var seen := Touched(v, id, now);
      && Fresh(seen[id], now)
      && MarkAll(seen, StaleIn(snap, self, now), Left)[id].state.Left?
      && HasNoRecords(WithoutPeers(t, StaleIn(snap, self, now)), id)
  {
    SnapshotMembers(snap, v, id);
  }
}
