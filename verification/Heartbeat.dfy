/**
 One tick of the heartbeat loop (heartbeatLoop in internal/coordinator/node.go): the node refreshes
 itself, sweeps, and pings its active peers.
 */
module Heartbeat {
  import opened PeerRegistry
  import opened FailureDetector

  /** Whether a peer is pinged, going by its record after the sweep. */
  predicate Pinged(p: Peer, self: string) {
    p.id != self && p.state.Active? && p.grpc != ""
  }

  /** The peers pinged that answer. */
  function Reached(snap: seq<Peer>, self: string, replies: string -> bool): set<string> {
    set p | p in snap && Pinged(p, self) && replies(p.id) :: p.id
  }

  ghost function ReachedIds(v: View, self: string, replies: string -> bool): set<string> {
    set id | id in v && Pinged(v[id], self) && replies(id)
  }

  ghost function SeenAll(v: View, ids: set<string>, clock: string -> int): View {
    map id | id in v :: if id in ids then v[id].(lastSeen := clock(id)) else v[id]
  }

  /** The registry between the sweep and the pings. */
  ghost function Swept(v: View, self: string, now: int): View {
    MarkAll(Touched(v, self, now), SilentIds(Touched(v, self, now), self, now), Inactive)
  }

  /** The registry after the tick. */
  ghost function Ticked(v: View, self: string, now: int, replies: string -> bool, clock: string -> int): View {
    SeenAll(Swept(v, self, now), ReachedIds(Swept(v, self, now), self, replies), clock)
  }

  /**
   replies tells which peers answer their ping, clock when. Peers that are not Active are not
   pinged: only their own pings and joins bring them back.
   */
  method Tick(manager: Manager, now: int, replies: string -> bool, clock: string -> int)
    requires manager.registry.Valid()
    modifies manager.registry
    ensures manager.registry.Valid()
    ensures manager.registry.peers
         == Ticked(old(manager.registry.peers), manager.registry.self, now, replies, clock)
  {
    manager.registry.Touch(manager.registry.self, now);
    manager.Sweep(now);
    PingAll(manager.registry, replies, clock);
  }

  method PingAll(registry: Registry, replies: string -> bool, clock: string -> int)
    requires registry.Valid()
    modifies registry
    ensures registry.Valid()
    ensures registry.peers == SeenAll(old(registry.peers),
                                      ReachedIds(old(registry.peers), registry.self, replies), clock)
  {
    var snap := registry.Snapshot();
    ghost var v, seen := registry.peers, Reached(snap[..0], registry.self, replies);
    assert SeenAll(v, seen, clock) == v;
    for i := 0 to |snap|
      invariant registry.Valid() && seen == Reached(snap[..i], registry.self, replies)
      invariant registry.peers == SeenAll(v, seen, clock)
    {
      var rec := snap[i];
      ReachedStep(snap, i, registry.self, replies);
      if rec.id == registry.self || rec.state != Active {
        continue;
      }
      if rec.grpc == "" {
        continue;
      }
      if replies(rec.id) {
        SeenStep(v, seen, rec.id, clock);
        registry.Touch(rec.id, clock(rec.id));
        seen := seen + {rec.id};
      }
    }
    assert snap[..|snap|] == snap;
    SnapshotReached(snap, v, registry.self, replies);
  }

  lemma ReachedStep(snap: seq<Peer>, i: nat, self: string, replies: string -> bool)
    requires i < |snap|
    ensures Reached(snap[..i + 1], self, replies)
         == Reached(snap[..i], self, replies)
            + if Pinged(snap[i], self) && replies(snap[i].id) then {snap[i].id} else {}
  {
    assert snap[..i + 1] == snap[..i] + [snap[i]];
  }

  lemma SeenStep(v: View, seen: set<string>, id: string, clock: string -> int)
    requires id in v && v[id].state.Active?
    ensures Touched(SeenAll(v, seen, clock), id, clock(id)) == SeenAll(v, seen + {id}, clock)
  {}

  lemma SnapshotReached(snap: seq<Peer>, v: View, self: string, replies: string -> bool)
    requires IsSnapshot(snap, v) && WellKeyed(v)
    ensures Reached(snap, self, replies) == ReachedIds(v, self, replies)
  {
    forall id | id in v ensures v[id] in snap {
      SnapshotMembers(snap, v, id);
    }
  }

  /**
   A peer stays Active through a tick exactly when it was Active and seen within 9 s of it; then an
   answered ping, and nothing else, counts as a sighting. The node itself always stays Active.
   */
  lemma TickOutcome(v: View, self: string, now: int, replies: string -> bool, clock: string -> int, id: string)
    requires WellKeyed(v) && id in v
    ensures
      var v' := Ticked(v, self, now, replies, clock);
      && id in v'
      && (id != self ==>
            && (v'[id].state.Active? <==> v[id].state.Active? && now - v[id].lastSeen <= INACTIVE_AFTER)
            && (v'[id].lastSeen == if v'[id].state.Active? && v[id].grpc != "" && replies(id)
                                   then clock(id) else v[id].lastSeen))
      && (id == self ==> v'[id].lastSeen == now && (!v[id].state.Left? && !v[id].state.Unset? ==> v'[id].state.Active?))
      && (v'[id].state.Left? <==> v[id].state.Left?)
  {
    var w := Swept(v, self, now);
    assert w[id].id == v[id].id == id;
  }
}
