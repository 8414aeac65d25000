/**
 Replica selection (internal/dht/routing_table.go, internal/replication/replica_selection.go):
 the k eligible peers whose keys are XOR-closest to a target key.
 */
module Routing {
  import opened Wrappers
  import opened XorDistance
  import opened PeerRegistry

  predicate AreKeys(ids: seq<string>) {
    forall id | id in ids :: KeyFromHex(id).Some?
  }

  /** One insertion. Every comparison is of two keys as long as the target, so XOR cannot panic. */
  function InsertCloser(target: Key, id: string, sorted: seq<string>): (r: seq<string>)
    requires |target| == KEY_BYTES && KeyFromHex(id).Some? && AreKeys(sorted)
    ensures AreKeys(r) && |r| == |sorted| + 1
  {
    if sorted == [] then [id]
    else if Closer(target, KeyFromHex(sorted[0]).value, KeyFromHex(id).value) then
      [sorted[0]] + InsertCloser(target, id, sorted[1..])
    else [id] + sorted
  }

  /** What sort.SliceStable leaves; fewer than two candidates are never compared. */
  function SortByDistance(target: Key, ids: seq<string>): (r: seq<string>)
    requires AreKeys(ids) && (|ids| > 1 ==> |target| == KEY_BYTES)
    ensures AreKeys(r) && |r| == |ids|
  {
    if |ids| <= 1 then ids else InsertCloser(target, ids[0], SortByDistance(target, ids[1..]))
  }

  /** The distance by which the laws below rank IDs; of no meaning where nothing can be compared. */
  ghost function RankTo(target: Key): string -> nat {
    id => var key := KeyFromHex(id);
          if key.Some? && |target| == KEY_BYTES then Distance(target, key.value) else 0
  }

  function Insert(rank: string -> nat, id: string, sorted: seq<string>): seq<string> {
    if sorted == [] then [id]
    else if rank(sorted[0]) < rank(id) then [sorted[0]] + Insert(rank, id, sorted[1..])
    else [id] + sorted
  }

  /** Sorted by rank, equal ranks in their original order. */
  function StableSort(rank: string -> nat, ids: seq<string>): seq<string> {
    if ids == [] then [] else Insert(rank, ids[0], StableSort(rank, ids[1..]))
  }

  function Take(ids: seq<string>, k: int): seq<string> {
    if k <= 0 then [] else if |ids| > k then ids[..k] else ids
  }

  /** allowed is None for any state. */
  predicate Eligible(p: Peer, exclude: string, allowed: Option<set<PeerState>>) {
    && p.id != exclude
    && (allowed.Some? ==> p.state in allowed.value)
    && KeyFromHex(p.id).Some?
  }

  /** The IDs of the eligible peers, in snapshot order. */
  function Candidates(snap: seq<Peer>, exclude: string, allowed: Option<set<PeerState>>): (ids: seq<string>)
    ensures AreKeys(ids)
  {
    if snap == [] then []
    else
      Candidates(snap[..|snap| - 1], exclude, allowed)
      + if Eligible(snap[|snap| - 1], exclude, allowed) then [snap[|snap| - 1].id] else []
  }

  /** The calls that compare keys only with a target of their length: all others panic. */
  predicate NoPanic(target: Key, k: int, snap: seq<Peer>, exclude: string, allowed: Option<set<PeerState>>) {
    k <= 0 || |target| == KEY_BYTES || |Candidates(snap, exclude, allowed)| <= 1
  }

  function Closest(target: Key, k: int, snap: seq<Peer>, exclude: string,
                   allowed: Option<set<PeerState>>): seq<string>
    requires NoPanic(target, k, snap, exclude, allowed)
  {
    if k <= 0 then [] else Take(SortByDistance(target, Candidates(snap, exclude, allowed)), k)
  }

  /** The eligible peers of a registry. */
  ghost function EligibleIds(v: View, exclude: string, allowed: Option<set<PeerState>>): set<string> {
    set id | id in v && Eligible(v[id], exclude, allowed)
  }

  class RoutingTable {
    const reg: Registry

    constructor (reg: Registry)
      ensures this.reg == reg
    {
      this.reg := reg;
    }

    /** With two candidates or more, a target of another length than a key panics when they are compared. */
    method ClosestPeerIDs(target: Key, k: int, exclude: string, allowed: Option<set<PeerState>>)
      returns (ids: seq<string>)
      requires reg.Valid()
      requires k <= 0 || |target| == KEY_BYTES || |EligibleIds(reg.peers, exclude, allowed)| <= 1
      ensures exists snap :: IsSnapshot(snap, reg.peers) && NoPanic(target, k, snap, exclude, allowed)
                             && ids == Closest(target, k, snap, exclude, allowed)
      ensures forall id | id in ids ::
                && id in reg.peers && id != exclude && KeyFromHex(id).Some?
                && (allowed.Some? ==> reg.peers[id].state in allowed.value)
    {
      var snap := reg.Snapshot();
      if k <= 0 {
        assert Closest(target, k, snap, exclude, allowed) == [];
        return [];
      }
      CandidateCount(snap, reg.peers, exclude, allowed);
      SelectedAreThere(target, k, snap, reg.peers, exclude, allowed);
      var candidates := ListCandidates(snap, exclude, allowed);
      candidates := SortByDistance(target, candidates);
      if |candidates| > k {
        candidates := candidates[..k];
      }
      return candidates;
    }

    static method ListCandidates(snap: seq<Peer>, exclude: string, allowed: Option<set<PeerState>>)
      returns (candidates: seq<string>)
      ensures candidates == Candidates(snap, exclude, allowed)
    {
      candidates := [];
      for i := 0 to |snap|
        invariant candidates == Candidates(snap[..i], exclude, allowed)
      {
        var rec := snap[i];
        assert snap[..i + 1][..i] == snap[..i];
        if rec.id == exclude {
          continue;
        }
        if allowed.Some? && rec.state !in allowed.value {
          continue;
        }
        if KeyFromHex(rec.id).None? {
          continue;
        }
        candidates := candidates + [rec.id];
      }
      assert snap[..|snap|] == snap;
    }

    /** The k active peers closest to a block, self excluded; None for a malformed CID. */
    method SelectReplicaPeerIDs(cid: string, k: int, selfID: string) returns (ids: Option<seq<string>>)
      requires reg.Valid()
      ensures ids.None? <==> KeyFromHex(cid).None?
      ensures ids.Some? ==> IsSelection(reg.peers, cid, k, selfID, ids.value)
      ensures ids.Some? ==> IsReplicaChoice(reg.peers, KeyFromHex(cid).value, k, selfID, ids.value)
    {
      var key := KeyFromHex(cid);
      if key.None? {
        return None;
      }
      var closest := ClosestPeerIDs(key.value, k, selfID, Some({Active}));
      SelectionIsReplicaChoice(reg.peers, cid, k, selfID, closest);
      ids := Some(closest);
    }
  }

  ghost predicate IsSelection(v: View, cid: string, k: int, selfID: string, ids: seq<string>) {
    && KeyFromHex(cid).Some?
    && (exists snap ::
          IsSnapshot(snap, v) && ids == Closest(KeyFromHex(cid).value, k, snap, selfID, Some({Active})))
  }

  /** A peer that blocks may be replicated to: Active, another one, and with an ID that is a key. */
  ghost predicate MayReplicate(v: View, selfID: string, id: string) {
    && id in v && v[id].state == Active && id != selfID
    && |id| == 64 && forall c | c in id :: c in "0123456789abcdefABCDEF"
  }

  /** How many peers that are. */
  ghost function ReplicaCount(v: View, selfID: string): nat {
    |set id | id in v && MayReplicate(v, selfID, id)|
  }

  /** The k closest of those peers, or all of them if they are fewer. */
  ghost predicate IsReplicaChoice(v: View, target: Key, k: int, selfID: string, ids: seq<string>)
    requires |target| == KEY_BYTES
  {
    && NoDuplicates(ids) && (forall id | id in ids :: MayReplicate(v, selfID, id))
    && (var n := ReplicaCount(v, selfID); |ids| == if k <= 0 then 0 else if n > k then k else n)
    && (forall a, b | a in ids && MayReplicate(v, selfID, b) && b !in ids :: NoFarther(target, a, b))
  }

  ghost predicate NoFarther(target: Key, a: string, b: string)
    requires |target| == KEY_BYTES
  {
    && KeyFromHex(a).Some? && KeyFromHex(b).Some?
    && Distance(target, KeyFromHex(a).value) <= Distance(target, KeyFromHex(b).value)
  }

  // ----- Sorting -----

  ghost predicate Sorted(rank: string -> nat, ids: seq<string>) {
    forall i, j | 0 <= i < j < |ids| :: rank(ids[i]) <= rank(ids[j])
  }

  ghost predicate StrictlySorted(rank: string -> nat, ids: seq<string>) {
    forall i, j | 0 <= i < j < |ids| :: rank(ids[i]) < rank(ids[j])
  }

  ghost predicate NoDuplicates(ids: seq<string>) {
    forall i, j | 0 <= i < j < |ids| :: ids[i] != ids[j]
  }

  ghost function Elements(ids: seq<string>): set<string> {
    set id | id in ids
  }

  lemma {:induction false} ElementCount(ids: seq<string>)
    requires NoDuplicates(ids)
    ensures |Elements(ids)| == |ids|
  {
    if ids != [] {
      var n := |ids| - 1;
      ElementCount(ids[..n]);
      assert Elements(ids) == Elements(ids[..n]) + {ids[n]};
    }
  }

  lemma {:induction false} InsertAt(rank: string -> nat, id: string, sorted: seq<string>) returns (i: nat)
    requires Sorted(rank, sorted)
    ensures i <= |sorted| && Insert(rank, id, sorted) == sorted[..i] + [id] + sorted[i..]
    ensures forall j | 0 <= j < i :: rank(sorted[j]) < rank(id)
    ensures forall j | i <= j < |sorted| :: rank(id) <= rank(sorted[j])
  {
    if sorted == [] || rank(sorted[0]) >= rank(id) {
      i := 0;
    } else {
      var k := InsertAt(rank, id, sorted[1..]);
      i := k + 1;
      assert sorted[..i] == [sorted[0]] + sorted[1..][..k] && sorted[i..] == sorted[1..][k..];
    }
  }

  lemma {:induction false} StableSortSorts(rank: string -> nat, ids: seq<string>)
    ensures Sorted(rank, StableSort(rank, ids))
    ensures |StableSort(rank, ids)| == |ids|
  {
    if ids != [] {
      StableSortSorts(rank, ids[1..]);
      var i := InsertAt(rank, ids[0], StableSort(rank, ids[1..]));
    }
  }

  lemma {:induction false} StableSortKeeps(rank: string -> nat, ids: seq<string>)
    ensures forall id :: id in StableSort(rank, ids) <==> id in ids
    ensures NoDuplicates(ids) ==> NoDuplicates(StableSort(rank, ids))
  {
    if ids != [] {
      var rest := StableSort(rank, ids[1..]);
      StableSortKeeps(rank, ids[1..]);
      StableSortSorts(rank, ids[1..]);
      InsertKeeps(rank, ids[0], rest);
      assert ids == [ids[0]] + ids[1..];
      assert NoDuplicates(ids) ==> ids[0] !in ids[1..];
    }
  }

  lemma InsertKeeps(rank: string -> nat, id: string, rest: seq<string>)
    requires Sorted(rank, rest)
    ensures forall x :: x in Insert(rank, id, rest) <==> x == id || x in rest
    ensures NoDuplicates(rest) && id !in rest ==> NoDuplicates(Insert(rank, id, rest))
  {
    var i := InsertAt(rank, id, rest);
    PutInMembers(id, rest, i);
    PutInDistinct(id, rest, i);
  }

  lemma PutInMembers(id: string, rest: seq<string>, i: nat)
    requires i <= |rest|
    ensures forall x :: x in rest[..i] + [id] + rest[i..] <==> x == id || x in rest
  {
    assert rest == rest[..i] + rest[i..];
  }

  lemma PutInDistinct(id: string, rest: seq<string>, i: nat)
    requires i <= |rest|
    ensures NoDuplicates(rest) && id !in rest ==> NoDuplicates(rest[..i] + [id] + rest[i..])
  {}

  /** IDs of the given rank, in order. */
  function OfRank(rank: string -> nat, r: nat, ids: seq<string>): seq<string> {
    if ids == [] then []
    else (if rank(ids[0]) == r then [ids[0]] else []) + OfRank(rank, r, ids[1..])
  }

  /** Stability: IDs that decode to keys at one distance keep their snapshot order. */
  lemma {:induction false} StableSortIsStable(rank: string -> nat, r: nat, ids: seq<string>)
    ensures OfRank(rank, r, StableSort(rank, ids)) == OfRank(rank, r, ids)
  {
    if ids != [] {
      StableSortIsStable(rank, r, ids[1..]);
      InsertIsStable(rank, r, ids[0], StableSort(rank, ids[1..]));
    }
  }

  lemma {:induction false} InsertIsStable(rank: string -> nat, r: nat, id: string, sorted: seq<string>)
    ensures OfRank(rank, r, Insert(rank, id, sorted)) == OfRank(rank, r, [id] + sorted)
  {
    assert ([id] + sorted)[1..] == sorted;
    if sorted != [] && rank(sorted[0]) < rank(id) {
      InsertIsStable(rank, r, id, sorted[1..]);
      assert ([id] + sorted[1..])[1..] == sorted[1..];
      assert Insert(rank, id, sorted)[1..] == Insert(rank, id, sorted[1..]);
    }
  }

  /** A strictly sorted list is determined by its elements. */
  lemma {:induction false} StrictlySortedUnique(rank: string -> nat, s: seq<string>, t: seq<string>)
    requires StrictlySorted(rank, s) && StrictlySorted(rank, t)
    requires forall id :: id in s <==> id in t
    ensures s == t
  {
    assert (s == [] || s[0] in s) && (t == [] || t[0] in t);
    if s != [] {
      var i :| 0 <= i < |t| && t[i] == s[0];
      var j :| 0 <= j < |s| && s[j] == t[0];
      assert s[0] == t[0];
      forall id ensures id in s[1..] <==> id in t[1..] {
        TailElements(rank, s, id);
        TailElements(rank, t, id);
      }
      StrictlySortedUnique(rank, s[1..], t[1..]);
      assert s == [s[0]] + s[1..] && t == [t[0]] + t[1..];
    }
  }

  lemma TailElements(rank: string -> nat, s: seq<string>, id: string)
    requires s != [] && StrictlySorted(rank, s)
    ensures id in s[1..] <==> id in s && id != s[0]
  {
    if id in s[1..] {
      var k :| 0 <= k < |s[1..]| && s[1..][k] == id;
      assert s[k + 1] == id && rank(s[0]) < rank(s[k + 1]);
    }
    assert s == [s[0]] + s[1..];
  }

  // ----- The selection -----

  lemma {:induction false} CandidatesFrom(snap: seq<Peer>, exclude: string, allowed: Option<set<PeerState>>)
    requires forall i, j | 0 <= i < j < |snap| :: snap[i].id != snap[j].id
    ensures NoDuplicates(Candidates(snap, exclude, allowed))
    ensures forall id :: id in Candidates(snap, exclude, allowed) <==>
              exists i :: 0 <= i < |snap| && snap[i].id == id && Eligible(snap[i], exclude, allowed)
  {
    if snap != [] {
      var n := |snap| - 1;
      var front := Candidates(snap[..n], exclude, allowed);
      CandidatesFrom(snap[..n], exclude, allowed);
      assert snap[n].id !in front;
      forall id ensures id in Candidates(snap, exclude, allowed) <==>
          exists i :: 0 <= i < |snap| && snap[i].id == id && Eligible(snap[i], exclude, allowed)
      {
        if id in front {
          var i :| 0 <= i < n && snap[..n][i].id == id && Eligible(snap[..n][i], exclude, allowed);
          assert snap[i].id == id;
        }
        if i :| 0 <= i < |snap| && snap[i].id == id && Eligible(snap[i], exclude, allowed) {
          assert i < n ==> snap[..n][i] == snap[i];
        }
      }
    }
  }

  lemma CandidatesAreEligible(snap: seq<Peer>, v: View, exclude: string, allowed: Option<set<PeerState>>)
    requires IsSnapshot(snap, v)
    ensures NoDuplicates(Candidates(snap, exclude, allowed))
    ensures Elements(Candidates(snap, exclude, allowed)) == EligibleIds(v, exclude, allowed)
  {
    CandidatesFrom(snap, exclude, allowed);
    forall id ensures id in Candidates(snap, exclude, allowed) <==> id in EligibleIds(v, exclude, allowed) {
      if id in EligibleIds(v, exclude, allowed) {
        assert id in Ids(snap);
        var p :| p in snap && p.id == id;
        var i :| 0 <= i < |snap| && snap[i] == p;
      }
    }
  }

  lemma CandidateCount(snap: seq<Peer>, v: View, exclude: string, allowed: Option<set<PeerState>>)
    requires IsSnapshot(snap, v)
    ensures |Candidates(snap, exclude, allowed)| == |EligibleIds(v, exclude, allowed)|
  {
    CandidatesAreEligible(snap, v, exclude, allowed);
    ElementCount(Candidates(snap, exclude, allowed));
  }

  lemma {:induction false} InsertIsByRank(target: Key, id: string, sorted: seq<string>)
    requires |target| == KEY_BYTES && KeyFromHex(id).Some? && AreKeys(sorted)
    ensures InsertCloser(target, id, sorted) == Insert(RankTo(target), id, sorted)
  {
    if sorted != [] {
      InsertIsByRank(target, id, sorted[1..]);
    }
  }

  /** Sorting with the comparator is sorting by rank. */
  lemma {:induction false} SortIsByRank(target: Key, ids: seq<string>)
    requires AreKeys(ids) && (|ids| > 1 ==> |target| == KEY_BYTES)
    ensures SortByDistance(target, ids) == StableSort(RankTo(target), ids)
  {
    if |ids| > 1 {
      SortIsByRank(target, ids[1..]);
      InsertIsByRank(target, ids[0], SortByDistance(target, ids[1..]));
    }
  }

  /** All eligible peers in selection order; ClosestPeerIDs returns the first k of them. */
  ghost predicate IsRanking(target: Key, v: View, exclude: string, allowed: Option<set<PeerState>>,
                            full: seq<string>)
  {
    && Sorted(RankTo(target), full) && NoDuplicates(full)
    && Elements(full) == EligibleIds(v, exclude, allowed)
  }

  lemma ClosestIsTaken(target: Key, k: int, snap: seq<Peer>, v: View, exclude: string,
                       allowed: Option<set<PeerState>>)
    returns (full: seq<string>)
    requires IsSnapshot(snap, v) && (|target| == KEY_BYTES || NoPanic(target, k, snap, exclude, allowed))
    requires k > 0
    ensures IsRanking(target, v, exclude, allowed, full)
    ensures Closest(target, k, snap, exclude, allowed) == Take(full, k)
  {
    var ids := Candidates(snap, exclude, allowed);
    SortIsByRank(target, ids);
    full := StableSort(RankTo(target), ids);
    CandidatesAreEligible(snap, v, exclude, allowed);
    StableSortSorts(RankTo(target), ids);
    StableSortKeeps(RankTo(target), ids);
    assert Elements(full) == Elements(ids);
  }

  lemma SelectionSize(target: Key, k: int, snap: seq<Peer>, v: View, exclude: string,
                      allowed: Option<set<PeerState>>, out: seq<string>)
    requires IsSnapshot(snap, v) && NoPanic(target, k, snap, exclude, allowed)
    requires out == Closest(target, k, snap, exclude, allowed)
    ensures NoDuplicates(out) && Sorted(RankTo(target), out)
    ensures Elements(out) <= EligibleIds(v, exclude, allowed)
    ensures var n := |EligibleIds(v, exclude, allowed)|;
            |out| == if k <= 0 then 0 else if n > k then k else n
  {
    if k > 0 {
      var full := ClosestIsTaken(target, k, snap, v, exclude, allowed);
      ElementCount(full);
      assert forall i | 0 <= i < |out| :: out[i] in Elements(full);
    }
  }

  /** The selection: no duplicates, only eligible peers, nearest first, as many as there are up to k. */
  lemma ClosestIsFull(target: Key, k: int, snap: seq<Peer>, v: View, exclude: string,
                      allowed: Option<set<PeerState>>, out: seq<string>)
    requires IsSnapshot(snap, v) && NoPanic(target, k, snap, exclude, allowed)
    requires out == Closest(target, k, snap, exclude, allowed)
    ensures NoDuplicates(out) && Sorted(RankTo(target), out)
    ensures
      var eligible := set id | && id in v && v[id].id != exclude && KeyFromHex(v[id].id).Some?
                               && (allowed.Some? ==> v[id].state in allowed.value);
      && Elements(out) <= eligible
      && |out| == if k <= 0 then 0 else if |eligible| > k then k else |eligible|
  {
    SelectionSize(target, k, snap, v, exclude, allowed, out);
    assert EligibleIds(v, exclude, allowed)
        == set id | && id in v && v[id].id != exclude && KeyFromHex(v[id].id).Some?
                    && (allowed.Some? ==> v[id].state in allowed.value);
  }

  /** No eligible peer left out is closer to the target than one returned. */
  lemma ClosestIsNearest(target: Key, k: int, snap: seq<Peer>, v: View, exclude: string,
                         allowed: Option<set<PeerState>>, a: string, b: string)
    requires IsSnapshot(snap, v) && |target| == KEY_BYTES && WellKeyed(v)
    requires a in Closest(target, k, snap, exclude, allowed)
    requires b in v && b != exclude && KeyFromHex(b).Some? && (allowed.Some? ==> v[b].state in allowed.value)
    requires b !in Closest(target, k, snap, exclude, allowed)
    ensures KeyFromHex(a).Some? && !Closer(target, KeyFromHex(b).value, KeyFromHex(a).value)
  {
    var full := ClosestIsTaken(target, k, snap, v, exclude, allowed);
    assert a in Elements(full) && b in Elements(full);
    TakenAreNearest(RankTo(target), full, k, a, b);
  }

  /** Every peer selected is in the registry, and eligible. */
  lemma SelectedAreThere(target: Key, k: int, snap: seq<Peer>, v: View, exclude: string,
                         allowed: Option<set<PeerState>>)
    requires WellKeyed(v) && IsSnapshot(snap, v) && NoPanic(target, k, snap, exclude, allowed)
    ensures forall id | id in Closest(target, k, snap, exclude, allowed) ::
              && id in v && id != exclude && KeyFromHex(id).Some?
              && (allowed.Some? ==> v[id].state in allowed.value)
  {
    ClosestIsFull(target, k, snap, v, exclude, allowed, Closest(target, k, snap, exclude, allowed));
    forall id | id in Closest(target, k, snap, exclude, allowed)
      ensures id in Elements(Closest(target, k, snap, exclude, allowed))
    {}
  }

  lemma KeyDigits(id: string)
    ensures KeyFromHex(id).Some? <==> |id| == 64 && forall c | c in id :: c in "0123456789abcdefABCDEF"
  {
    KeyIsItsDigits(id);
  }

  lemma ActiveOthersAreEligible(v: View, selfID: string)
    requires WellKeyed(v)
    ensures forall id :: id in EligibleIds(v, selfID, Some({Active})) <==> MayReplicate(v, selfID, id)
    ensures |EligibleIds(v, selfID, Some({Active}))| == ReplicaCount(v, selfID)
  {
    forall id ensures id in EligibleIds(v, selfID, Some({Active})) <==> MayReplicate(v, selfID, id) {
      KeyDigits(id);
    }
    assert EligibleIds(v, selfID, Some({Active})) == set id | id in v && MayReplicate(v, selfID, id);
  }

  lemma NearestOfActive(v: View, target: Key, k: int, snap: seq<Peer>, selfID: string, a: string, b: string)
    requires WellKeyed(v) && IsSnapshot(snap, v) && |target| == KEY_BYTES
    requires a in Closest(target, k, snap, selfID, Some({Active})) && MayReplicate(v, selfID, b)
    requires b !in Closest(target, k, snap, selfID, Some({Active}))
    ensures NoFarther(target, a, b)
  {
    KeyDigits(b);
    ClosestIsNearest(target, k, snap, v, selfID, Some({Active}), a, b);
  }

  /** What is selected for a block is the k closest Active others, whatever the map order. */
  lemma SelectionIsReplicaChoice(v: View, cid: string, k: int, selfID: string, ids: seq<string>)
    requires WellKeyed(v) && IsSelection(v, cid, k, selfID, ids)
    ensures IsReplicaChoice(v, KeyFromHex(cid).value, k, selfID, ids)
  {
    var target := KeyFromHex(cid).value;
    var snap :| IsSnapshot(snap, v) && ids == Closest(target, k, snap, selfID, Some({Active}));
    SelectionSize(target, k, snap, v, selfID, Some({Active}), ids);
    ActiveOthersAreEligible(v, selfID);
    forall a, b | a in ids && MayReplicate(v, selfID, b) && b !in ids ensures NoFarther(target, a, b) {
      NearestOfActive(v, target, k, snap, selfID, a, b);
    }
    forall id | id in ids ensures MayReplicate(v, selfID, id) {
      assert id in Elements(ids);
    }
  }

  lemma TakenAreNearest(rank: string -> nat, full: seq<string>, k: int, a: string, b: string)
    requires Sorted(rank, full) && a in Take(full, k) && b in full && b !in Take(full, k)
    ensures rank(a) <= rank(b)
  {
    var i :| 0 <= i < |Take(full, k)| && Take(full, k)[i] == a;
    var j :| 0 <= j < |full| && full[j] == b;
    assert forall m | 0 <= m < |Take(full, k)| :: full[m] == Take(full, k)[m];
  }

  /** No two eligible IDs are spellings of one key. */
  ghost predicate DistinctKeys(v: View, exclude: string, allowed: Option<set<PeerState>>) {
    forall a, b | a in EligibleIds(v, exclude, allowed) && b in EligibleIds(v, exclude, allowed)
      && KeyFromHex(a) == KeyFromHex(b) :: a == b
  }

  lemma RankingIsStrict(target: Key, v: View, exclude: string, allowed: Option<set<PeerState>>,
                        full: seq<string>)
    requires WellKeyed(v) && |target| == KEY_BYTES && DistinctKeys(v, exclude, allowed)
    requires IsRanking(target, v, exclude, allowed, full)
    ensures StrictlySorted(RankTo(target), full)
  {
    forall i, j | 0 <= i < j < |full| ensures RankTo(target)(full[i]) < RankTo(target)(full[j]) {
      var a, b := full[i], full[j];
      assert a in Elements(full) && b in Elements(full);
      if RankTo(target)(a) == RankTo(target)(b) {
        DistanceDeterminesPoint(target, KeyFromHex(a).value, KeyFromHex(b).value);
      }
    }
  }

  /** With distinct keys there is one ranking, so the selection does not depend on map order. */
  lemma SelectionIgnoresMapOrder(target: Key, k: int, snap1: seq<Peer>, snap2: seq<Peer>, v: View,
                                 exclude: string, allowed: Option<set<PeerState>>)
    requires IsSnapshot(snap1, v) && IsSnapshot(snap2, v) && |target| == KEY_BYTES
    requires WellKeyed(v) && DistinctKeys(v, exclude, allowed)
    ensures Closest(target, k, snap1, exclude, allowed) == Closest(target, k, snap2, exclude, allowed)
  {
    if k > 0 {
      var full1 := ClosestIsTaken(target, k, snap1, v, exclude, allowed);
      var full2 := ClosestIsTaken(target, k, snap2, v, exclude, allowed);
      SameRanking(target, v, exclude, allowed, full1, full2);
    }
  }

  lemma SameRanking(target: Key, v: View, exclude: string, allowed: Option<set<PeerState>>,
                    full1: seq<string>, full2: seq<string>)
    requires WellKeyed(v) && |target| == KEY_BYTES && DistinctKeys(v, exclude, allowed)
    requires IsRanking(target, v, exclude, allowed, full1)
    requires IsRanking(target, v, exclude, allowed, full2)
    ensures full1 == full2
  {
    RankingIsStrict(target, v, exclude, allowed, full1);
    RankingIsStrict(target, v, exclude, allowed, full2);
    assert forall id :: id in full1 <==> id in Elements(full1);
    assert forall id :: id in full2 <==> id in Elements(full2);
    StrictlySortedUnique(RankTo(target), full1, full2);
  }

  /** The selection for k is a prefix of the selection for any larger k. */
  lemma SmallerSelectionIsPrefix(target: Key, k: int, m: int, snap1: seq<Peer>, snap2: seq<Peer>,
                                 v: View, exclude: string, allowed: Option<set<PeerState>>)
    requires k <= m
    requires IsSnapshot(snap1, v) && IsSnapshot(snap2, v) && |target| == KEY_BYTES
    requires WellKeyed(v) && DistinctKeys(v, exclude, allowed)
    ensures Closest(target, k, snap1, exclude, allowed) <= Closest(target, m, snap2, exclude, allowed)
  {
    SelectionIgnoresMapOrder(target, m, snap1, snap2, v, exclude, allowed);
  }

  /** The list with p put at its place, and what falls off the end past k. */
  ghost predicate InsertedInOrder(rank: string -> nat, old_: seq<string>, p: string, k: int, new_: seq<string>) {
    exists i: nat :: i <= |old_|
      && new_ == Take(old_[..i] + [p] + old_[i..], k)
      && (forall j | 0 <= j < i :: rank(old_[j]) < rank(p))
      && (forall j | i <= j < |old_| :: rank(p) < rank(old_[j]))
  }

  /**
   Churn: one more eligible peer leaves the selection alone or enters it at its place and pushes
   out at most the farthest; it enters exactly when there was room or it beats the farthest.
   */
  lemma AddingAPeer(target: Key, k: int, v: View, p: Peer, snap1: seq<Peer>, snap2: seq<Peer>,
                    exclude: string, allowed: Option<set<PeerState>>)
    requires k > 0 && |target| == KEY_BYTES && p.id !in v && Eligible(p, exclude, allowed)
    requires WellKeyed(v[p.id := p]) && DistinctKeys(v[p.id := p], exclude, allowed)
    requires IsSnapshot(snap1, v) && IsSnapshot(snap2, v[p.id := p])
    ensures
      var before := Closest(target, k, snap1, exclude, allowed);
      var after := Closest(target, k, snap2, exclude, allowed);
      && InsertedInOrder(RankTo(target), before, p.id, k, after)
      && (p.id !in after ==> after == before)
      && (p.id in after <==>
          |before| < k || RankTo(target)(p.id) < RankTo(target)(before[k - 1]))
  {
    var v' := v[p.id := p];
    var rank := RankTo(target);
    var full := ClosestIsTaken(target, k, snap1, v, exclude, allowed);
    var full' := ClosestIsTaken(target, k, snap2, v', exclude, allowed);
    RankingAfterInsert(target, v, p, exclude, allowed, full);
    SameRanking(target, v', exclude, allowed, Insert(rank, p.id, full), full');
    RankingIsStrict(target, v', exclude, allowed, full');
    NewcomerIsNotRanked(v, p, exclude, allowed, full);
    var i := InsertAt(rank, p.id, full);
    InsertThenTake(rank, full, p.id, i, k);
  }

  lemma NewcomerIsNotRanked(v: View, p: Peer, exclude: string, allowed: Option<set<PeerState>>,
                            full: seq<string>)
    requires p.id !in v && Elements(full) == EligibleIds(v, exclude, allowed)
    ensures p.id !in full
  {
    assert p.id !in Elements(full);
  }

  lemma RankingAfterInsert(target: Key, v: View, p: Peer, exclude: string,
                           allowed: Option<set<PeerState>>, full: seq<string>)
    requires p.id !in v && Eligible(p, exclude, allowed)
    requires IsRanking(target, v, exclude, allowed, full)
    ensures IsRanking(target, v[p.id := p], exclude, allowed, Insert(RankTo(target), p.id, full))
  {
    NewcomerIsNotRanked(v, p, exclude, allowed, full);
    InsertKeeps(RankTo(target), p.id, full);
    InsertSorts(RankTo(target), p.id, full);
    assert EligibleIds(v[p.id := p], exclude, allowed) == EligibleIds(v, exclude, allowed) + {p.id};
    assert Elements(Insert(RankTo(target), p.id, full)) == Elements(full) + {p.id};
  }

  lemma InsertSorts(rank: string -> nat, id: string, sorted: seq<string>)
    requires Sorted(rank, sorted)
    ensures Sorted(rank, Insert(rank, id, sorted))
  {
    var i := InsertAt(rank, id, sorted);
  }

  lemma InsertThenTake(rank: string -> nat, full: seq<string>, p: string, i: nat, k: int)
    requires k > 0 && p !in full && i <= |full|
    requires StrictlySorted(rank, full[..i] + [p] + full[i..])
    ensures
      var before, after := Take(full, k), Take(full[..i] + [p] + full[i..], k);
      && InsertedInOrder(rank, before, p, k, after)
      && (p !in after ==> after == before)
      && (p in after <==> |before| < k || rank(p) < rank(before[k - 1]))
  {
    var all := full[..i] + [p] + full[i..];
    var before, after := Take(full, k), Take(all, k);
    forall j | 0 <= j < |full| ensures if j < i then rank(full[j]) < rank(p) else rank(p) < rank(full[j]) {
      assert if j < i then all[j] == full[j] else all[j + 1] == full[j];
      assert all[i] == p;
    }
    if i < k {
      assert after[i] == p;
      assert after == Take(before[..i] + [p] + before[i..], k);
    } else {
      assert |before| == k && before == full[..k] == after;
      assert before[..k] + [p] + before[k..] == before + [p];
      assert (before + [p])[..k] == before;
    }
  }

  /** Churn: removing a peer that was not selected changes nothing. */
  lemma RemovingAnUnselectedPeer(target: Key, k: int, v: View, x: string, snap1: seq<Peer>,
                                 snap2: seq<Peer>, exclude: string, allowed: Option<set<PeerState>>)
    requires |target| == KEY_BYTES && WellKeyed(v) && DistinctKeys(v, exclude, allowed)
    requires IsSnapshot(snap1, v) && IsSnapshot(snap2, v - {x})
    requires x !in Closest(target, k, snap1, exclude, allowed)
    ensures Closest(target, k, snap2, exclude, allowed) == Closest(target, k, snap1, exclude, allowed)
  {
    if k > 0 {
      if x in v && Eligible(v[x], exclude, allowed) {
        RemovingEligible(target, k, v, x, snap1, snap2, exclude, allowed);
      } else {
        RemovingIneligible(target, k, v, x, snap1, snap2, exclude, allowed);
      }
    }
  }

  lemma RemovingEligible(target: Key, k: int, v: View, x: string, snap1: seq<Peer>, snap2: seq<Peer>,
                         exclude: string, allowed: Option<set<PeerState>>)
    requires k > 0 && |target| == KEY_BYTES && WellKeyed(v) && DistinctKeys(v, exclude, allowed)
    requires x in v && Eligible(v[x], exclude, allowed)
    requires IsSnapshot(snap1, v) && IsSnapshot(snap2, v - {x})
    requires x !in Closest(target, k, snap1, exclude, allowed)
    ensures Closest(target, k, snap2, exclude, allowed) == Closest(target, k, snap1, exclude, allowed)
  {
    assert (v - {x})[x := v[x]] == v;
    AddingAPeer(target, k, v - {x}, v[x], snap2, snap1, exclude, allowed);
  }

  lemma RemovingIneligible(target: Key, k: int, v: View, x: string, snap1: seq<Peer>, snap2: seq<Peer>,
                           exclude: string, allowed: Option<set<PeerState>>)
    requires |target| == KEY_BYTES && WellKeyed(v) && DistinctKeys(v, exclude, allowed)
    requires x in v ==> !Eligible(v[x], exclude, allowed)
    requires IsSnapshot(snap1, v) && IsSnapshot(snap2, v - {x})
    ensures Closest(target, k, snap2, exclude, allowed) == Closest(target, k, snap1, exclude, allowed)
  {
    assert EligibleIds(v - {x}, exclude, allowed) == EligibleIds(v, exclude, allowed);
    if k > 0 {
      var full := ClosestIsTaken(target, k, snap1, v, exclude, allowed);
      var full' := ClosestIsTaken(target, k, snap2, v - {x}, exclude, allowed);
      SameRanking(target, v, exclude, allowed, full, full');
    }
  }
}
