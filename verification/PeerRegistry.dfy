/**
 The peer registry (internal/peer/peer_registry.go): a bounded map from peer IDs to records
 that are updated in place. The abstract value of a registry is its View; what one operation
 may do to it is a relation on views, because Go iterates over a map in any order.
 */
module PeerRegistry {
  import opened Wrappers

  /** Unset is the empty state string. */
  datatype PeerState = Unset | Active | Inactive | Left

  /** Times are in nanoseconds. */
  datatype Peer = Peer(id: string, grpc: string, http: string, state: PeerState,
                       lastSeen: int, joinedAt: int)

  type View = map<string, Peer>

  const MAX_PEERS := 20

  /** What every run keeps, Redis merges included: the bound, and keys that name their records. */
  ghost predicate WellKeyed(v: View) {
    |v| <= MAX_PEERS && forall id | id in v :: v[id].id == id
  }

  /** Two records of different peers that share an address. */
  predicate Conflicts(existing: Peer, rec: Peer) {
    && existing.id != rec.id
    && (existing.grpc == rec.grpc || (existing.http != "" && existing.http == rec.http))
  }

  ghost predicate NoneConflicts(v: View, rec: Peer) {
    forall id | id in v :: !Conflicts(v[id], rec)
  }

  /** The entries an eviction may choose; an entry stored under the empty ID is not one. */
  ghost predicate Evictable(v: View, id: string) {
    id in v && v[id].state.Left? && id != ""
  }

  function Updated(existing: Peer, rec: Peer): Peer {
    existing.(grpc := rec.grpc, http := rec.http, lastSeen := rec.lastSeen,
              state := if rec.state.Unset? then existing.state else rec.state)
  }

  /** The entry an accepted Upsert takes out besides the one it writes, if any. */
  ghost predicate MayDrop(v: View, rec: Peer, victim: Option<string>) {
    match victim
    case None => NoneConflicts(v, rec) && (rec.id in v || |v| < MAX_PEERS)
    case Some(x) =>
      && x in v
      && (|| Conflicts(v[x], rec)
          || (NoneConflicts(v, rec) && rec.id !in v && |v| >= MAX_PEERS && Evictable(v, x)))
  }

  function AfterUpsert(v: View, rec: Peer, now: int, victim: Option<string>): View {
    (if victim.Some? then v - {victim.value} else v)
      [rec.id := if rec.id in v then Updated(v[rec.id], rec) else rec.(joinedAt := now)]
  }

  /** Looking for a Left entry stops at the first one, and an empty ID there reads as none found. */
  ghost predicate MayReject(v: View, rec: Peer) {
    || rec.id == ""
    || (&& rec.id !in v && |v| >= MAX_PEERS && NoneConflicts(v, rec)
        && ((forall id :: !Evictable(v, id)) || ("" in v && v[""].state.Left?)))
  }

  /** One call of Upsert. */
  ghost predicate UpsertStep(v: View, rec: Peer, now: int, ok: bool, v': View) {
    if ok then
      rec.id != "" && exists victim :: MayDrop(v, rec, victim) && v' == AfterUpsert(v, rec, now, victim)
    else
      MayReject(v, rec) && v' == v
  }

  function Marked(v: View, id: string, s: PeerState): View {
    if id in v then v[id := v[id].(state := s)] else v
  }

  function Touched(v: View, id: string, now: int): View {
    if id in v then
      v[id := v[id].(lastSeen := now, state := if v[id].state.Inactive? then Active else v[id].state)]
    else v
  }

  /** One record read back from Redis: the newer sighting wins, a new peer needs a free slot. */
  function Merged(v: View, rec: Peer): View {
    if rec.id in v then
      if rec.lastSeen > v[rec.id].lastSeen then
        v[rec.id := v[rec.id].(grpc := rec.grpc, http := rec.http, state := rec.state,
                               lastSeen := rec.lastSeen)]
      else v
    else if |v| < MAX_PEERS then v[rec.id := rec]
    else v
  }

  ghost function Ids(peers: seq<Peer>): set<string> {
    set p | p in peers :: p.id
  }

  lemma IdsAppend(peers: seq<Peer>, p: Peer)
    ensures Ids(peers + [p]) == Ids(peers) + {p.id}
  {
    assert forall q :: q in peers + [p] <==> q in peers || q == p;
  }

  /** Some order always exists. */
  lemma AnySnapshot(v: View, keys: set<string>) returns (snap: seq<Peer>)
    requires WellKeyed(v) && keys <= v.Keys
    ensures forall i, j | 0 <= i < j < |snap| :: snap[i].id != snap[j].id
    ensures forall i | 0 <= i < |snap| :: snap[i].id in keys && v[snap[i].id] == snap[i]
    ensures Ids(snap) == keys
    decreases keys
  {
    if keys == {} {
      snap := [];
    } else {
      var id :| id in keys;
      snap := AnySnapshot(v, keys - {id});
      IdsAppend(snap, v[id]);
      snap := snap + [v[id]];
    }
  }

  /** A listing of the view in some order. */
  ghost predicate IsSnapshot(snap: seq<Peer>, v: View) {
    && (forall i, j | 0 <= i < j < |snap| :: snap[i].id != snap[j].id)
    && (forall i | 0 <= i < |snap| :: snap[i].id in v && v[snap[i].id] == snap[i])
    && Ids(snap) == v.Keys
  }

  class Registry {
    const self: string
    var peers: View

    ghost predicate Valid()
      reads this
    {
      WellKeyed(peers)
    }

    constructor (selfID: string)
      ensures Valid() && peers == map[] && self == selfID
    {
      self, peers := selfID, map[];
    }

    /** Inserts or updates a peer; false when the registry is full and has no room to make. */
    method Upsert(rec: Peer, now: int) returns (ok: bool)
      requires Valid()
      modifies this`peers
      ensures Valid() && UpsertStep(old(peers), rec, now, ok, peers)
      ensures ok ==> IsUpToDate(peers, rec)
    {
      if rec.id == "" {
        return false;
      }
      ghost var victim := PruneAddress(rec);
      ghost var pruned := peers;
      if rec.id in peers {
        peers := peers[rec.id := Updated(peers[rec.id], rec)];
        UpdateAfterPrune(old(peers), rec, now, victim, pruned);
        AcceptedIsUpToDate(old(peers), rec, now, peers);
        return true;
      }
      ghost var evicted;
      ok, evicted := MakeRoom();
      if ok {
        peers := peers[rec.id := rec.(joinedAt := now)];
      }
      AdmitAfterPrune(old(peers), rec, now, victim, pruned, evicted, ok, peers);
      AcceptedIsUpToDate(old(peers), rec, now, peers);
    }

    /** Takes out the first entry met, if any, that shares an address with rec under another ID. */
    method PruneAddress(rec: Peer) returns (ghost victim: Option<string>)
      requires Valid()
      modifies this`peers
      ensures Valid() && PruneStep(old(peers), rec, victim, peers)
    {
      var rest := peers.Keys;
      while rest != {}
        invariant rest <= peers.Keys && peers == old(peers)
        invariant forall id | id in peers.Keys - rest :: !Conflicts(peers[id], rec)
      {
        var id :| id in rest;
        rest := rest - {id};
        if Conflicts(peers[id], rec) {
          Remove(id);
          return Some(id);
        }
      }
      return None;
    }

    /** Frees a slot if need be, by evicting a Left entry. */
    method MakeRoom() returns (ok: bool, ghost evicted: Option<string>)
      requires Valid()
      modifies this`peers
      ensures Valid() && RoomStep(old(peers), evicted, ok, peers)
    {
      if |peers| < MAX_PEERS {
        return true, None;
      }
      var evictID := FindLeft();
      if evictID == "" {
        return false, None;
      }
      Remove(evictID);
      return true, Some(evictID);
    }

    /** The ID of the first Left entry met; the empty string when there is none. */
    method FindLeft() returns (evictID: string)
      requires Valid()
      ensures evictID != "" ==> Evictable(peers, evictID)
      ensures evictID == "" ==>
                || (forall id :: !Evictable(peers, id))
                || ("" in peers && peers[""].state.Left?)
    {
      var rest := peers.Keys;
      while rest != {}
        invariant rest <= peers.Keys
        invariant forall id | id in peers.Keys - rest :: !peers[id].state.Left?
      {
        var id :| id in rest;
        rest := rest - {id};
        if peers[id].state == Left {
          return id;
        }
      }
      return "";
    }

    method Get(id: string) returns (rec: Option<Peer>)
      ensures rec == if id in peers then Some(peers[id]) else None
    {
      rec := if id in peers then Some(peers[id]) else None;
    }

    method MarkState(id: string, s: PeerState)
      requires Valid()
      modifies this`peers
      ensures Valid() && peers == Marked(old(peers), id, s)
    {
      if id in peers {
        peers := peers[id := peers[id].(state := s)];
      }
    }

    method Touch(id: string, now: int)
      requires Valid()
      modifies this`peers
      ensures Valid() && peers == Touched(old(peers), id, now)
    {
      if id in peers {
        var p := peers[id].(lastSeen := now);
        if p.state == Inactive {
          p := p.(state := Active);
        }
        peers := peers[id := p];
      }
    }

    method Remove(id: string)
      requires Valid()
      modifies this`peers
      ensures Valid() && peers == old(peers) - {id}
      ensures id in old(peers) ==> |peers| == |old(peers)| - 1
    {
      peers := peers - {id};
      assert peers.Keys == old(peers).Keys - {id};
    }

    /** Copies of all records, in the order in which the map is iterated. */
    method Snapshot() returns (out: seq<Peer>)
      requires Valid()
      ensures IsSnapshot(out, peers)
    {
      out := [];
      var rest := peers.Keys;
      while rest != {}
        invariant rest <= peers.Keys
        invariant forall i, j | 0 <= i < j < |out| :: out[i].id != out[j].id
        invariant forall i | 0 <= i < |out| ::
                    out[i].id in peers.Keys - rest && out[i] == peers[out[i].id]
        invariant Ids(out) == peers.Keys - rest
      {
        var id :| id in rest;
        rest := rest - {id};
        IdsAppend(out, peers[id]);
        out := out + [peers[id]];
      }
    }

    /** One record of the Redis sync loop. */
    method MergeRemote(rec: Peer)
      requires Valid()
      modifies this`peers
      ensures Valid() && peers == Merged(old(peers), rec)
    {
      if rec.id in peers {
        var existing := peers[rec.id];
        if rec.lastSeen > existing.lastSeen {
          existing := existing.(grpc := rec.grpc, http := rec.http);
          existing := existing.(state := rec.state, lastSeen := rec.lastSeen);
          peers := peers[rec.id := existing];
        }
      } else if |peers| < MAX_PEERS {
        peers := peers[rec.id := rec];
      }
    }
  }

  /** The entry of the peer says what the record says. */
  predicate IsUpToDate(v: View, rec: Peer) {
    && rec.id in v && v[rec.id].lastSeen == rec.lastSeen
    && v[rec.id].grpc == rec.grpc && v[rec.id].http == rec.http
    && (rec.state != Unset ==> v[rec.id].state == rec.state)
  }

  lemma AcceptedIsUpToDate(v: View, rec: Peer, now: int, v': View)
    ensures UpsertStep(v, rec, now, true, v') ==> IsUpToDate(v', rec)
  {}

  /** The address check: at most one conflicting entry goes. */
  ghost predicate PruneStep(v: View, p: Peer, victim: Option<string>, v': View) {
    match victim
    case None => v' == v && NoneConflicts(v, p)
    case Some(x) => x in v && Conflicts(v[x], p) && v' == v - {x}
  }

  ghost predicate RoomStep(v: View, evicted: Option<string>, ok: bool, v': View) {
    match evicted
    case None =>
      v' == v && if ok then |v| < MAX_PEERS else
                 |v| >= MAX_PEERS
                 && ((forall id :: !Evictable(v, id)) || ("" in v && v[""].state.Left?))
    case Some(x) => ok && |v| >= MAX_PEERS && Evictable(v, x) && v' == v - {x} && |v'| < MAX_PEERS
  }

  ghost predicate AdmitStep(v: View, p: Peer, now: int, evicted: Option<string>, ok: bool, v': View) {
    if ok then exists w :: RoomStep(v, evicted, ok, w) && v' == w[p.id := p.(joinedAt := now)]
    else RoomStep(v, evicted, ok, v')
  }

  lemma UpdateAfterPrune(v: View, p: Peer, now: int, victim: Option<string>, v1: View)
    requires p.id != "" && PruneStep(v, p, victim, v1) && p.id in v1
    ensures UpsertStep(v, p, now, true, v1[p.id := Updated(v1[p.id], p)])
  {
    assert MayDrop(v, p, victim);
    assert v1[p.id := Updated(v1[p.id], p)] == AfterUpsert(v, p, now, victim);
  }

  /** A pruned registry is never full, so one Upsert takes out at most one other entry. */
  lemma AdmitAfterPrune(v: View, p: Peer, now: int, victim: Option<string>, v1: View,
                        evicted: Option<string>, ok: bool, v': View)
    requires WellKeyed(v) && p.id !in v1 && p.id != ""
    requires PruneStep(v, p, victim, v1) && AdmitStep(v1, p, now, evicted, ok, v')
    ensures UpsertStep(v, p, now, ok, v')
  {
    if victim.Some? {
      assert v1.Keys == v.Keys - {victim.value};
    }
    var gone := if evicted.Some? then evicted else victim;
    assert ok ==> MayDrop(v, p, gone) && v' == AfterUpsert(v, p, now, gone);
  }
}
