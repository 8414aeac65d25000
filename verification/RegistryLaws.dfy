/**
 What the registry promises about one Upsert: the capacity bound, what may be lost, when a
 peer is refused, and when two entries may share an address.
 */
module RegistryLaws {
  import opened Wrappers
  import opened PeerRegistry

  /** The refusals the network-full rule describes. */
  ghost predicate Refused(v: View, rec: Peer) {
    || rec.id == ""
    || (&& rec.id !in v && |v| >= MAX_PEERS && NoneConflicts(v, rec)
        && forall id | id in v :: !v[id].state.Left?)
  }

  /** A full registry in which an entry stored under the empty ID is Left. */
  ghost predicate EvictionBlocked(v: View, rec: Peer) {
    && rec.id != "" && rec.id !in v && |v| >= MAX_PEERS && NoneConflicts(v, rec)
    && "" in v && v[""].state.Left?
  }

  /** What one accepted Upsert writes and what it takes out. */
  lemma UpsertEffect(v: View, rec: Peer, now: int, v': View) returns (victim: Option<string>)
    requires WellKeyed(v) && UpsertStep(v, rec, now, true, v')
    ensures rec.id != "" && MayDrop(v, rec, victim)
    ensures victim.Some? ==> victim.value in v && victim.value != rec.id
    ensures v'.Keys == v.Keys - (if victim.Some? then {victim.value} else {}) + {rec.id}
    ensures v'[rec.id] == if rec.id in v then Updated(v[rec.id], rec) else rec.(joinedAt := now)
    ensures forall id | id in v' && id != rec.id :: id in v && v'[id] == v[id]
  {
    victim :| MayDrop(v, rec, victim) && v' == AfterUpsert(v, rec, now, victim);
    var gone: set<string> := if victim.Some? then {victim.value} else {};
    assert v'.Keys == v.Keys - gone + {rec.id};
  }

  lemma KeysAfterUpsert(v: View, rec: Peer, victim: Option<string>, keys: set<string>)
    requires WellKeyed(v) && MayDrop(v, rec, victim) && (victim.Some? ==> victim.value != rec.id)
    requires keys == v.Keys - (if victim.Some? then {victim.value} else {}) + {rec.id}
    ensures |keys| <= MAX_PEERS
    ensures |v.Keys - keys| <= 1
  {
    assert |v.Keys| == |v|;
    if victim.Some? {
      assert v.Keys - keys == {victim.value};
      assert |v.Keys - {victim.value}| == |v| - 1;
    } else {
      assert v.Keys - keys == {};
    }
  }

  /** The record's own state, or the old one if it has none. */
  function StateAfter(v: View, rec: Peer): PeerState {
    if rec.state == Unset && rec.id in v then v[rec.id].state else rec.state
  }

  /** One Upsert: the bound stays, a refusal changes nothing, success loses at most one entry. */
  lemma UpsertContract(v: View, rec: Peer, now: int, ok: bool, v': View)
    requires WellKeyed(v) && UpsertStep(v, rec, now, ok, v')
    ensures WellKeyed(v')
    ensures !ok ==> v' == v
    ensures ok ==> rec.id in v' && v'[rec.id] == Peer(rec.id, rec.grpc, rec.http, StateAfter(v, rec),
                                                      rec.lastSeen, if rec.id in v then v[rec.id].joinedAt else now)
    ensures forall id | id in v' && id != rec.id :: id in v && v'[id] == v[id]
    ensures forall id | id in v && id !in v' ::
              v[id].grpc == rec.grpc || (v[id].http != "" && v[id].http == rec.http) || v[id].state == Left
    ensures |v.Keys - v'.Keys| <= 1
  {
    if ok {
      var victim := UpsertEffect(v, rec, now, v');
      KeysAfterUpsert(v, rec, victim, v'.Keys);
      assert |v'.Keys| == |v'|;
    } else {
      assert v.Keys - v'.Keys == {};
    }
  }

  /**
   A Redis merge keeps the bound, the keys and every other record, and never moves a sighting back:
   a known peer has all but its joining time from the newer of the two records, and a new one
   enters as it is exactly when there is room.
   */
  lemma MergeContract(v: View, rec: Peer)
    requires WellKeyed(v)
    ensures WellKeyed(Merged(v, rec)) && v.Keys <= Merged(v, rec).Keys
    ensures forall id | id in v :: v[id].lastSeen <= Merged(v, rec)[id].lastSeen
    ensures forall id | id in v && id != rec.id :: Merged(v, rec)[id] == v[id]
    ensures rec.id in v ==>
              var newer := if v[rec.id].lastSeen < rec.lastSeen then rec else v[rec.id];
              Merged(v, rec)[rec.id] == newer.(joinedAt := v[rec.id].joinedAt)
    ensures rec.id !in v ==> Merged(v, rec) == if |v| < MAX_PEERS then v[rec.id := rec] else v
  {
    var w := Merged(v, rec);
    assert w.Keys == v.Keys || w.Keys == v.Keys + {rec.id};
    assert |w.Keys| == |w| && |v.Keys| == |v|;
  }

  /**
   Upsert refuses exactly the calls the network-full rule describes, whatever order the map is
   iterated in, unless an entry stored under the empty ID is Left in a full registry.
   */
  lemma RefusalIsExact(v: View, rec: Peer, now: int)
    requires WellKeyed(v)
    ensures (forall ok, v' | UpsertStep(v, rec, now, ok, v') :: !ok <==> Refused(v, rec))
       <==> !EvictionBlocked(v, rec)
  {
    if EvictionBlocked(v, rec) {
      assert UpsertStep(v, rec, now, false, v);
      assert !Refused(v, rec);
    } else {
      forall ok, v' | UpsertStep(v, rec, now, ok, v') ensures !ok <==> Refused(v, rec) {
        if !ok && rec.id != "" {
          forall id | id in v ensures !v[id].state.Left? {
            assert !Evictable(v, id);
          }
        }
      }
    }
  }

  /** No two entries share a gRPC address or a non-empty HTTP address. */
  ghost predicate AddressesUnique(v: View) {
    forall a, b | a in v && b in v && a != b :: v[a].grpc != v[b].grpc && (v[a].http == "" || v[a].http != v[b].http)
  }

  /**
   The network-full rule: a new peer that shares no address is refused exactly when 20 others are
   there, none of them Left.
   */
  lemma NewcomerEntersIff(v: View, rec: Peer, now: int, ok: bool, v': View)
    requires WellKeyed(v) && "" !in v && UpsertStep(v, rec, now, ok, v') && rec.id != "" && rec.id !in v
    requires forall id | id in v :: v[id].grpc != rec.grpc && (v[id].http == "" || v[id].http != rec.http)
    ensures ok <==> |v| < 20 || exists id :: id in v && v[id].state == Left
  {
    RefusalIsExact(v, rec, now);
  }

  /** A known peer is always accepted. */
  lemma KnownPeerIsAccepted(v: View, rec: Peer, now: int, ok: bool, v': View)
    requires UpsertStep(v, rec, now, ok, v') && rec.id in v
    ensures ok <==> rec.id != ""
  {}

  /** The entries that share an address with a record under another ID. */
  ghost predicate Rival(v: View, rec: Peer, id: string) {
    id in v && Conflicts(v[id], rec)
  }

  /** In a conflict-free registry one rival shares the gRPC address and one the HTTP address. */
  lemma AtMostTwoRivals(v: View, rec: Peer, a: string, b: string, c: string)
    requires AddressesUnique(v) && Rival(v, rec, a) && Rival(v, rec, b) && Rival(v, rec, c)
    requires WellKeyed(v)
    ensures a == b || a == c || b == c
  {}

  lemma RivalsAfterUpsert(v: View, rec: Peer, now: int, v': View) returns (victim: Option<string>)
    requires WellKeyed(v) && UpsertStep(v, rec, now, true, v')
    ensures forall id :: Rival(v', v'[rec.id], id) <==> Rival(v, rec, id) && Some(id) != victim
    ensures victim.Some? ==> Rival(v, rec, victim.value) || forall id :: !Rival(v, rec, id)
    ensures victim.None? ==> forall id :: !Rival(v, rec, id)
  {
    victim := UpsertEffect(v, rec, now, v');
  }

  /** When all other entries are old ones, only the one just written can conflict with anything. */
  lemma ConflictsInvolveTheNewRecord(v: View, v': View, r: string)
    requires WellKeyed(v) && AddressesUnique(v) && WellKeyed(v') && r in v'
    requires forall id | id in v' && id != r :: id in v && v'[id] == v[id]
    ensures forall a, b | a in v' && b in v' && Conflicts(v'[a], v'[b]) :: a == r || b == r
    ensures AddressesUnique(v') <==> forall id :: !Rival(v', v'[r], id)
  {
    if AddressesUnique(v') {
      forall id ensures !Rival(v', v'[r], id) {
        assert id in v' && id != r ==> !Conflicts(v'[id], v'[r]);
      }
    }
    forall a, b | a in v' && b in v' && Conflicts(v'[a], v'[b]) ensures a == r || b == r {
      assert a != b && (a in v && b in v ==> !Conflicts(v[a], v[b]));
    }
    if a, b :| a in v' && b in v' && a != b && Conflicts(v'[a], v'[b]) {
      assert Rival(v', v'[r], if a == r then b else a);
    }
  }

  /**
   A successful Upsert into a conflict-free registry leaves it conflict-free exactly when at
   most one entry shared an address with the new record: only one of them is pruned.
   */
  lemma UpsertKeepsUniqueIff(v: View, rec: Peer, now: int, v': View)
    requires WellKeyed(v) && AddressesUnique(v) && UpsertStep(v, rec, now, true, v')
    ensures AddressesUnique(v') <==>
            (forall a, b | Rival(v, rec, a) && Rival(v, rec, b) :: a == b)
  {
    UpsertContract(v, rec, now, true, v');
    ConflictsInvolveTheNewRecord(v, v', rec.id);
    var victim := RivalsAfterUpsert(v, rec, now, v');
    if a, b :| Rival(v, rec, a) && Rival(v, rec, b) && a != b {
      assert Rival(v', v'[rec.id], if victim == Some(a) then b else a);
    }
  }

  /** Whatever the addresses, at most one conflicting pair is left, and the new record is in it. */
  lemma AtMostOneConflictRemains(v: View, rec: Peer, now: int, v': View)
    requires WellKeyed(v) && AddressesUnique(v) && UpsertStep(v, rec, now, true, v')
    ensures forall a, b | a in v' && b in v' && Conflicts(v'[a], v'[b]) :: a == rec.id || b == rec.id
    ensures forall a, b | Rival(v', v'[rec.id], a) && Rival(v', v'[rec.id], b) :: a == b
  {
    UpsertContract(v, rec, now, true, v');
    ConflictsInvolveTheNewRecord(v, v', rec.id);
    var victim := RivalsAfterUpsert(v, rec, now, v');
    forall a, b | Rival(v', v'[rec.id], a) && Rival(v', v'[rec.id], b) ensures a == b {
      AtMostTwoRivals(v, rec, a, b, victim.value);
    }
  }

  /** Every two of these addresses that agree on a non-empty HTTP part agree on the gRPC part. */
  ghost predicate HttpDeterminesGrpc(book: set<(string, string)>) {
    forall a, b | a in book && b in book && a.1 != "" && a.1 == b.1 :: a.0 == b.0
  }

  ghost predicate Listed(v: View, book: set<(string, string)>) {
    forall id | id in v :: (v[id].grpc, v[id].http) in book
  }

  lemma RivalSharesGrpc(v: View, rec: Peer, book: set<(string, string)>, id: string)
    requires HttpDeterminesGrpc(book) && Listed(v, book) && (rec.grpc, rec.http) in book
    requires Rival(v, rec, id)
    ensures v[id].grpc == rec.grpc
  {}

  /** With coherent addresses uniqueness is kept, by refused calls too. */
  lemma UpsertKeepsUnique(v: View, rec: Peer, now: int, ok: bool, v': View, book: set<(string, string)>)
    requires WellKeyed(v) && AddressesUnique(v) && UpsertStep(v, rec, now, ok, v')
    requires HttpDeterminesGrpc(book) && Listed(v, book) && (rec.grpc, rec.http) in book
    ensures AddressesUnique(v') && Listed(v', book)
  {
    if ok {
      OneRival(v, rec, book);
      UpsertKeepsUniqueIff(v, rec, now, v');
    }
    StaysListed(v, rec, now, ok, v', book);
  }

  lemma OneRival(v: View, rec: Peer, book: set<(string, string)>)
    requires WellKeyed(v) && AddressesUnique(v)
    requires HttpDeterminesGrpc(book) && Listed(v, book) && (rec.grpc, rec.http) in book
    ensures forall a, b | Rival(v, rec, a) && Rival(v, rec, b) :: a == b
  {
    forall a, b | Rival(v, rec, a) && Rival(v, rec, b) ensures a == b {
      RivalSharesGrpc(v, rec, book, a);
      RivalSharesGrpc(v, rec, book, b);
    }
  }

  lemma StaysListed(v: View, rec: Peer, now: int, ok: bool, v': View, book: set<(string, string)>)
    requires WellKeyed(v) && Listed(v, book) && (rec.grpc, rec.http) in book
    requires UpsertStep(v, rec, now, ok, v')
    ensures Listed(v', book)
  {
    UpsertContract(v, rec, now, ok, v');
  }

  /** The sync loop: records read back from Redis, merged one after the other. */
  function MergedAll(v: View, recs: seq<Peer>): View {
    if recs == [] then v else Merged(MergedAll(v, recs[..|recs| - 1]), recs[|recs| - 1])
  }

  /** p is what the newest of a peer's own entry and these records make of it. */
  ghost predicate IsNewest(before: Peer, recs: seq<Peer>, id: string, p: Peer) {
    && before.lastSeen <= p.lastSeen
    && (forall r | r in recs && r.id == id :: r.lastSeen <= p.lastSeen)
    && (|| p == before
        || exists r :: r in recs && r.id == id && before.lastSeen < r.lastSeen
                       && p == r.(joinedAt := before.joinedAt))
  }

  lemma {:induction false} MergedAllKeys(v: View, recs: seq<Peer>)
    requires WellKeyed(v) && forall r | r in recs :: r.id in v
    ensures MergedAll(v, recs).Keys == v.Keys && WellKeyed(MergedAll(v, recs))
  {
    if recs != [] {
      assert recs[|recs| - 1] in recs;
      assert forall r | r in recs[..|recs| - 1] :: r in recs;
      MergedAllKeys(v, recs[..|recs| - 1]);
      MergeContract(MergedAll(v, recs[..|recs| - 1]), recs[|recs| - 1]);
      assert MergedAll(v, recs).Keys == MergedAll(v, recs[..|recs| - 1]).Keys;
    }
  }

  lemma {:induction false} MergedAllIsNewest(v: View, recs: seq<Peer>, id: string)
    requires WellKeyed(v) && (forall r | r in recs :: r.id in v) && id in v
    ensures id in MergedAll(v, recs) && IsNewest(v[id], recs, id, MergedAll(v, recs)[id])
  {
    MergedAllKeys(v, recs);
    if recs != [] {
      var front, last := recs[..|recs| - 1], recs[|recs| - 1];
      assert recs == front + [last];
      assert forall r | r in front :: r in recs;
      MergedAllKeys(v, front);
      MergedAllIsNewest(v, front, id);
      MergeContract(MergedAll(v, front), last);
      NewestOneMore(v[id], front, id, MergedAll(v, front)[id], last, MergedAll(v, recs)[id]);
    }
  }

  lemma NewestOneMore(before: Peer, front: seq<Peer>, id: string, p: Peer, last: Peer, p': Peer)
    requires IsNewest(before, front, id, p)
    requires p' == if last.id == id && p.lastSeen < last.lastSeen then last.(joinedAt := p.joinedAt) else p
    ensures IsNewest(before, front + [last], id, p')
  {
    var recs := front + [last];
    forall r | r in recs && r.id == id ensures r.lastSeen <= p'.lastSeen {
      assert r in front || r == last;
    }
    if p' != before {
      if last.id == id && p.lastSeen < last.lastSeen {
        assert last in recs;
      } else {
        var r :| r in front && r.id == id && before.lastSeen < r.lastSeen && p == r.(joinedAt := before.joinedAt);
        assert r in recs;
      }
    }
  }

  /** Two different records of one peer carry different stamps. */
  ghost predicate DistinctStamps(recs: seq<Peer>) {
    forall a, b | a in recs && b in recs && a.id == b.id && a.lastSeen == b.lastSeen :: a == b
  }

  lemma NewestIsUnique(before: Peer, one: seq<Peer>, other: seq<Peer>, id: string, p: Peer, q: Peer)
    requires DistinctStamps(one) && forall r :: r in one <==> r in other
    requires IsNewest(before, one, id, p) && IsNewest(before, other, id, q)
    ensures p == q
  {}

  /**
   Records of known peers may be merged in any order, and more than once, unless two different ones
   of one peer carry the same stamp.
   */
  lemma MergeOrderDoesNotMatter(v: View, one: seq<Peer>, other: seq<Peer>)
    requires WellKeyed(v) && (forall r | r in one :: r.id in v) && forall r :: r in one <==> r in other
    requires DistinctStamps(one)
    ensures MergedAll(v, one) == MergedAll(v, other)
  {
    MergedAllKeys(v, one);
    MergedAllKeys(v, other);
    forall id | id in v.Keys ensures SameAt(MergedAll(v, one), MergedAll(v, other), id) {
      SameNewest(v, one, other, id);
    }
    SameView(MergedAll(v, one), MergedAll(v, other));
  }

  predicate SameAt(a: View, b: View, id: string) {
    id in a && id in b && a[id] == b[id]
  }

  lemma SameView(a: View, b: View)
    requires a.Keys == b.Keys && forall id | id in a.Keys :: SameAt(a, b, id)
    ensures a == b
  {
    forall id | id in a ensures id in b && a[id] == b[id] {
      assert SameAt(a, b, id);
    }
  }

  lemma SameNewest(v: View, one: seq<Peer>, other: seq<Peer>, id: string)
    requires WellKeyed(v) && (forall r | r in one :: r.id in v) && forall r :: r in one <==> r in other
    requires DistinctStamps(one) && id in v
    ensures SameAt(MergedAll(v, one), MergedAll(v, other), id)
  {
    MergedAllIsNewest(v, one, id);
    MergedAllIsNewest(v, other, id);
    NewestIsUnique(v[id], one, other, id, MergedAll(v, one)[id], MergedAll(v, other)[id]);
  }

  /** Every change the registry's methods make, Redis merges included. */
  datatype Change =
    | Upsert(rec: Peer, now: int, ok: bool)
    | Mark(id: string, s: PeerState)
    | Touch(id: string, now: int)
    | Remove(id: string)
    | MergeRemote(rec: Peer)

  ghost predicate Changes(v: View, c: Change, v': View) {
    match c
    case Upsert(rec, now, ok) => UpsertStep(v, rec, now, ok, v')
    case Mark(id, s) => v' == Marked(v, id, s)
    case Touch(id, now) => v' == Touched(v, id, now)
    case Remove(id) => v' == v - {id}
    case MergeRemote(rec) => v' == Merged(v, rec)
  }

  ghost predicate ChangeAt(views: seq<View>, changes: seq<Change>, i: nat) {
    i < |changes| && i + 1 < |views| && Changes(views[i], changes[i], views[i + 1])
  }

  ghost predicate IsRun(views: seq<View>, changes: seq<Change>) {
    |views| == |changes| + 1 && forall i: nat | i < |changes| :: ChangeAt(views, changes, i)
  }

  lemma ChangeStaysBounded(v: View, c: Change, v': View)
    requires WellKeyed(v) && Changes(v, c, v')
    ensures WellKeyed(v')
  {
    match c {
      case Upsert(rec, now, ok) => UpsertContract(v, rec, now, ok, v');
      case MergeRemote(rec) => MergeContract(v, rec);
      case Remove(id) =>
        assert v'.Keys == v.Keys - {id} && |v'.Keys| == |v'| && |v.Keys| == |v|;
      case _ =>
        assert v'.Keys == v.Keys && |v'.Keys| == |v'| && |v.Keys| == |v|;
    }
  }

  /** In every run of all operations the registry holds at most 20 peers, each under its own ID. */
  lemma {:induction false} RegistryStaysBounded(views: seq<View>, changes: seq<Change>, j: nat)
    requires IsRun(views, changes) && WellKeyed(views[0]) && j < |views|
    ensures WellKeyed(views[j]) && |views[j]| <= 20
  {
    if j > 0 {
      RegistryStaysBounded(views, changes, j - 1);
      assert ChangeAt(views, changes, j - 1);
      ChangeStaysBounded(views[j - 1], changes[j - 1], views[j]);
    }
  }
}
