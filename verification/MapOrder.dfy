/**
 When a selection depends on the order in which Go iterates over the registry: two IDs may be two
 spellings of one key, and then the stable sort leaves them in that order.
 */
module MapOrder {
  import opened Wrappers
  import opened XorDistance
  import opened PeerRegistry
  import opened Routing

  /** The eligible peers strictly closer to the target than this one. */
  ghost function CloserTo(target: Key, v: View, exclude: string, allowed: Option<set<PeerState>>,
                          id: string): set<string>
  {
    set c | c in EligibleIds(v, exclude, allowed) && RankTo(target)(c) < RankTo(target)(id)
  }

  /** Every iteration order gives the same selection. */
  ghost predicate OrderFree(target: Key, k: int, v: View, exclude: string, allowed: Option<set<PeerState>>)
    requires |target| == KEY_BYTES
  {
    forall snap1, snap2 | IsSnapshot(snap1, v) && IsSnapshot(snap2, v) ::
      Closest(target, k, snap1, exclude, allowed) == Closest(target, k, snap2, exclude, allowed)
  }

  /** Two eligible IDs of one key, with fewer than k peers closer. */
  ghost predicate NearTwins(target: Key, k: int, v: View, exclude: string, allowed: Option<set<PeerState>>,
                            a: string, b: string)
  {
    && a != b && a in EligibleIds(v, exclude, allowed) && b in EligibleIds(v, exclude, allowed)
    && KeyFromHex(a) == KeyFromHex(b)
    && |CloserTo(target, v, exclude, allowed, a)| < k
  }

  // ----- Without near twins the order does not matter -----

  lemma CloserComeBefore(target: Key, v: View, exclude: string, allowed: Option<set<PeerState>>,
                         full: seq<string>, p: nat)
    requires IsRanking(target, v, exclude, allowed, full) && p < |full|
    ensures CloserTo(target, v, exclude, allowed, full[p]) <= Elements(full[..p])
  {
    forall c | c in CloserTo(target, v, exclude, allowed, full[p]) ensures c in Elements(full[..p]) {
      assert c in Elements(full);
      var q :| 0 <= q < |full| && full[q] == c;
      assert q < p && full[..p][q] == c;
    }
  }

  lemma PlaceInRanking(target: Key, v: View, exclude: string, allowed: Option<set<PeerState>>,
                       full: seq<string>, p: nat)
    requires IsRanking(target, v, exclude, allowed, full) && p < |full|
    requires forall q | 0 <= q < p :: RankTo(target)(full[q]) < RankTo(target)(full[p])
    ensures |CloserTo(target, v, exclude, allowed, full[p])| == p
  {
    var closer, before := CloserTo(target, v, exclude, allowed, full[p]), Elements(full[..p]);
    ElementCount(full[..p]);
    CloserComeBefore(target, v, exclude, allowed, full, p);
    forall c | c in before ensures c in closer {
      var q :| 0 <= q < p && full[..p][q] == c;
      assert full[q] in Elements(full);
    }
    assert closer == before;
  }

  /** At most p peers are closer than the one at place p. */
  lemma FewAreCloser(target: Key, v: View, exclude: string, allowed: Option<set<PeerState>>, full: seq<string>, p: nat)
    requires IsRanking(target, v, exclude, allowed, full) && p < |full|
    ensures |CloserTo(target, v, exclude, allowed, full[p])| <= p
  {
    ElementCount(full[..p]);
    CloserComeBefore(target, v, exclude, allowed, full, p);
    SubsetSize(CloserTo(target, v, exclude, allowed, full[p]), Elements(full[..p]));
  }

  /** A peer selected at place p has no twin, and exactly p peers are closer. */
  lemma NoTwinInSelection(target: Key, k: int, v: View, exclude: string, allowed: Option<set<PeerState>>,
                          full: seq<string>, p: nat)
    requires WellKeyed(v) && |target| == KEY_BYTES && IsRanking(target, v, exclude, allowed, full)
    requires p < |full| && p < k && forall a, b :: !NearTwins(target, k, v, exclude, allowed, a, b)
    ensures forall b | b in EligibleIds(v, exclude, allowed) && RankTo(target)(b) == RankTo(target)(full[p]) ::
              b == full[p]
    ensures |CloserTo(target, v, exclude, allowed, full[p])| == p
  {
    var a := full[p];
    assert a in Elements(full);
    FewAreCloser(target, v, exclude, allowed, full, p);
    forall b | b in EligibleIds(v, exclude, allowed) && RankTo(target)(b) == RankTo(target)(a) ensures b == a {
      DistanceDeterminesPoint(target, KeyFromHex(a).value, KeyFromHex(b).value);
      assert !NearTwins(target, k, v, exclude, allowed, a, b);
    }
    forall q | 0 <= q < p ensures RankTo(target)(full[q]) < RankTo(target)(full[p]) {
      assert full[q] in Elements(full);
    }
    PlaceInRanking(target, v, exclude, allowed, full, p);
  }

  /** Of two peers with equally many closer ones, neither is closer than the other. */
  lemma SameCountSameRank(target: Key, v: View, exclude: string, allowed: Option<set<PeerState>>, a: string, b: string)
    requires a in EligibleIds(v, exclude, allowed) && RankTo(target)(a) < RankTo(target)(b)
    ensures |CloserTo(target, v, exclude, allowed, a)| < |CloserTo(target, v, exclude, allowed, b)|
  {
    var x, y := CloserTo(target, v, exclude, allowed, a), CloserTo(target, v, exclude, allowed, b);
    SubsetSize(x + {a}, y);
    assert a !in x;
  }

  lemma SamePlace(target: Key, k: int, v: View, exclude: string, allowed: Option<set<PeerState>>,
                  full1: seq<string>, full2: seq<string>, p: nat)
    requires WellKeyed(v) && |target| == KEY_BYTES
    requires IsRanking(target, v, exclude, allowed, full1) && IsRanking(target, v, exclude, allowed, full2)
    requires p < |full1| && p < |full2| && p < k
    requires forall a, b :: !NearTwins(target, k, v, exclude, allowed, a, b)
    ensures full1[p] == full2[p]
  {
    NoTwinInSelection(target, k, v, exclude, allowed, full1, p);
    NoTwinInSelection(target, k, v, exclude, allowed, full2, p);
    var a, b := full1[p], full2[p];
    assert a in Elements(full1) && b in Elements(full2);
    if RankTo(target)(a) < RankTo(target)(b) {
      SameCountSameRank(target, v, exclude, allowed, a, b);
    } else if RankTo(target)(b) < RankTo(target)(a) {
      SameCountSameRank(target, v, exclude, allowed, b, a);
    }
  }

  lemma FarTwinsAreOrderFree(target: Key, k: int, v: View, exclude: string, allowed: Option<set<PeerState>>)
    requires WellKeyed(v) && |target| == KEY_BYTES
    requires forall a, b :: !NearTwins(target, k, v, exclude, allowed, a, b)
    ensures OrderFree(target, k, v, exclude, allowed)
  {
    forall snap1, snap2 | IsSnapshot(snap1, v) && IsSnapshot(snap2, v)
      ensures Closest(target, k, snap1, exclude, allowed) == Closest(target, k, snap2, exclude, allowed)
    {
      if k > 0 {
        FarTwinsSelectTheSame(target, k, v, snap1, snap2, exclude, allowed);
      }
    }
  }

  lemma FarTwinsSelectTheSame(target: Key, k: int, v: View, snap1: seq<Peer>, snap2: seq<Peer>, exclude: string,
                              allowed: Option<set<PeerState>>)
    requires WellKeyed(v) && |target| == KEY_BYTES && k > 0 && IsSnapshot(snap1, v) && IsSnapshot(snap2, v)
    requires forall a, b :: !NearTwins(target, k, v, exclude, allowed, a, b)
    ensures Closest(target, k, snap1, exclude, allowed) == Closest(target, k, snap2, exclude, allowed)
  {
    var full1 := ClosestIsTaken(target, k, snap1, v, exclude, allowed);
    var full2 := ClosestIsTaken(target, k, snap2, v, exclude, allowed);
    ElementCount(full1);
    ElementCount(full2);
    forall p: nat | p < |full1| && p < k ensures full1[p] == full2[p] {
      SamePlace(target, k, v, exclude, allowed, full1, full2, p);
    }
    SameTake(full1, full2, k);
  }

  lemma SameTake(full1: seq<string>, full2: seq<string>, k: int)
    requires |full1| == |full2| && forall p: nat | p < |full1| && p < k :: full1[p] == full2[p]
    ensures Take(full1, k) == Take(full2, k)
  {}

  // ----- Near twins come out in map order -----

  lemma CandidatesPlus(snap: seq<Peer>, p: Peer, exclude: string, allowed: Option<set<PeerState>>)
    ensures Candidates(snap + [p], exclude, allowed)
         == Candidates(snap, exclude, allowed) + if Eligible(p, exclude, allowed) then [p.id] else []
  {
    assert (snap + [p])[..|snap|] == snap;
  }

  lemma FirstAndLast(p: Peer, front: seq<Peer>, last: Peer, exclude: string, allowed: Option<set<PeerState>>)
    requires Candidates([p] + front, exclude, allowed) == [p.id] + Candidates(front, exclude, allowed)
    ensures Candidates([p] + (front + [last]), exclude, allowed)
         == [p.id] + Candidates(front + [last], exclude, allowed)
  {
    CandidatesPlus(front, last, exclude, allowed);
    CandidatesPlus([p] + front, last, exclude, allowed);
    assert [p] + (front + [last]) == [p] + front + [last];
  }

  lemma {:induction false} CandidatesFromFirst(p: Peer, rest: seq<Peer>, exclude: string,
                                               allowed: Option<set<PeerState>>)
    requires Eligible(p, exclude, allowed)
    ensures Candidates([p] + rest, exclude, allowed) == [p.id] + Candidates(rest, exclude, allowed)
  {
    if rest == [] {
      CandidatesPlus(rest, p, exclude, allowed);
      assert [p] + rest == rest + [p];
    } else {
      var front, last := rest[..|rest| - 1], rest[|rest| - 1];
      CandidatesFromFirst(p, front, exclude, allowed);
      FirstAndLast(p, front, last, exclude, allowed);
      assert rest == front + [last];
    }
  }

  /** Some iteration starts with this entry. */
  lemma SnapshotFrom(v: View, id: string) returns (rest: seq<Peer>)
    requires WellKeyed(v) && id in v
    ensures IsSnapshot([v[id]] + rest, v)
  {
    rest := AnySnapshot(v, v.Keys - {id});
    var snap := [v[id]] + rest;
    forall i | 0 <= i < |rest| ensures rest[i].id != id {
      assert rest[i].id in v.Keys - {id};
    }
    forall i | 0 <= i < |snap| ensures snap[i].id in v && v[snap[i].id] == snap[i] {}
    IdsPrepend(v[id], rest);
    assert {id} + (v.Keys - {id}) == v.Keys;
  }

  lemma IdsPrepend(p: Peer, rest: seq<Peer>)
    ensures Ids([p] + rest) == {p.id} + Ids(rest)
  {
    assert forall q :: q in [p] + rest <==> q == p || q in rest;
  }

  /** In that iteration the entry takes the first place among its twins. */
  lemma FirstComesFirst(target: Key, k: int, v: View, exclude: string, allowed: Option<set<PeerState>>, id: string)
    returns (snap: seq<Peer>)
    requires WellKeyed(v) && |target| == KEY_BYTES && id in EligibleIds(v, exclude, allowed)
    requires |CloserTo(target, v, exclude, allowed, id)| < k
    ensures IsSnapshot(snap, v)
    ensures
      var place, out := |CloserTo(target, v, exclude, allowed, id)|, Closest(target, k, snap, exclude, allowed);
      place < |out| && out[place] == id
  {
    var rest := SnapshotFrom(v, id);
    snap := [v[id]] + rest;
    CandidatesFromFirst(v[id], rest, exclude, allowed);
    FirstOfRank(target, k, v, snap, exclude, allowed, id, Candidates(rest, exclude, allowed));
  }

  /** An ID sorted in last comes before all others of its rank. */
  lemma RankedFirst(rank: string -> nat, id: string, ids: seq<string>) returns (i: nat)
    ensures i < |StableSort(rank, [id] + ids)| && StableSort(rank, [id] + ids)[i] == id
    ensures forall j | 0 <= j < i :: rank(StableSort(rank, [id] + ids)[j]) < rank(id)
  {
    assert ([id] + ids)[1..] == ids;
    StableSortSorts(rank, ids);
    i := InsertAt(rank, id, StableSort(rank, ids));
  }

  lemma FirstOfRank(target: Key, k: int, v: View, snap: seq<Peer>, exclude: string, allowed: Option<set<PeerState>>,
                    id: string, ids: seq<string>)
    requires WellKeyed(v) && |target| == KEY_BYTES && IsSnapshot(snap, v)
    requires Candidates(snap, exclude, allowed) == [id] + ids
    requires |CloserTo(target, v, exclude, allowed, id)| < k
    ensures
      var place, out := |CloserTo(target, v, exclude, allowed, id)|, Closest(target, k, snap, exclude, allowed);
      place < |out| && out[place] == id
  {
    var sorted := SortByDistance(target, [id] + ids);
    SortIsByRank(target, [id] + ids);
    SortedIsRanking(target, v, snap, exclude, allowed);
    var i := RankedFirst(RankTo(target), id, ids);
    PlaceInRanking(target, v, exclude, allowed, sorted, i);
    TakenAt(sorted, k, i);
  }

  lemma TakenAt(full: seq<string>, k: int, i: nat)
    requires i < |full| && i < k
    ensures i < |Take(full, k)| && Take(full, k)[i] == full[i]
  {}

  lemma SortedIsRanking(target: Key, v: View, snap: seq<Peer>, exclude: string, allowed: Option<set<PeerState>>)
    requires |target| == KEY_BYTES && IsSnapshot(snap, v)
    ensures IsRanking(target, v, exclude, allowed, SortByDistance(target, Candidates(snap, exclude, allowed)))
  {
    var ids := Candidates(snap, exclude, allowed);
    SortIsByRank(target, ids);
    CandidatesAreEligible(snap, v, exclude, allowed);
    StableSortSorts(RankTo(target), ids);
    StableSortKeeps(RankTo(target), ids);
    assert Elements(StableSort(RankTo(target), ids)) == Elements(ids);
  }

  lemma TwinsHaveOneRank(target: Key, k: int, v: View, exclude: string, allowed: Option<set<PeerState>>,
                         a: string, b: string)
    requires NearTwins(target, k, v, exclude, allowed, a, b)
    ensures CloserTo(target, v, exclude, allowed, a) == CloserTo(target, v, exclude, allowed, b)
  {}

  lemma NearTwinsFollowTheOrder(target: Key, k: int, v: View, exclude: string, allowed: Option<set<PeerState>>,
                                a: string, b: string)
    requires WellKeyed(v) && |target| == KEY_BYTES && NearTwins(target, k, v, exclude, allowed, a, b)
    ensures !OrderFree(target, k, v, exclude, allowed)
  {
    TwinsHaveOneRank(target, k, v, exclude, allowed, a, b);
    var snap1 := FirstComesFirst(target, k, v, exclude, allowed, a);
    var snap2 := FirstComesFirst(target, k, v, exclude, allowed, b);
    assert Closest(target, k, snap1, exclude, allowed) != Closest(target, k, snap2, exclude, allowed);
  }

  /**
   Exactly when the map order shows: the selection of k peers is the same in every iteration order if
   and only if no two eligible IDs are spellings of one key with fewer than k eligible peers closer.
   */
  lemma OrderFreeIff(target: Key, k: int, v: View, exclude: string, allowed: Option<set<PeerState>>)
    requires WellKeyed(v) && |target| == KEY_BYTES
    ensures OrderFree(target, k, v, exclude, allowed) <==>
            !exists a, b :: NearTwins(target, k, v, exclude, allowed, a, b)
  {
    if a, b :| NearTwins(target, k, v, exclude, allowed, a, b) {
      NearTwinsFollowTheOrder(target, k, v, exclude, allowed, a, b);
    } else {
      FarTwinsAreOrderFree(target, k, v, exclude, allowed);
    }
  }

  lemma TwoEntries(target: Key, a: string, b: string) returns (v: View)
    requires |target| == KEY_BYTES && a != b && KeyFromHex(a).Some? && KeyFromHex(a) == KeyFromHex(b)
    ensures WellKeyed(v) && !OrderFree(target, 1, v, "", None)
  {
    v := map[a := Peer(a, "g1", "h1", Active, 0, 0), b := Peer(b, "g2", "h2", Active, 0, 0)];
    assert v.Keys == {a, b} && |v.Keys| == |v|;
    TwinsAlone(target, v, a, b);
    NearTwinsFollowTheOrder(target, 1, v, "", None, a, b);
  }

  /** Two spellings of one key in one registry: which of them is selected depends on the map order. */
  lemma TwoSpellings(target: Key) returns (v: View)
    requires |target| == KEY_BYTES
    ensures WellKeyed(v) && !OrderFree(target, 1, v, "", None)
  {
    TwoCases();
    v := TwoEntries(target, Spelled('a'), Spelled('A'));
  }

  lemma TwinsAlone(target: Key, v: View, a: string, b: string)
    requires v.Keys == {a, b} && a != b && v[a].id == a && v[b].id == b
    requires KeyFromHex(a).Some? && KeyFromHex(a) == KeyFromHex(b)
    ensures NearTwins(target, 1, v, "", None, a, b)
  {
    forall id | id in v ensures RankTo(target)(id) == RankTo(target)(a) {}
    assert CloserTo(target, v, "", None, a) == {};
  }

  function Spelled(digit: char): string {
    seq(2 * KEY_BYTES, _ => digit)
  }

  lemma TwoCases()
    ensures Spelled('a') != Spelled('A') && KeyFromHex(Spelled('a')).Some?
    ensures KeyFromHex(Spelled('a')) == KeyFromHex(Spelled('A'))
  {
    var lower, upper := Spelled('a'), Spelled('A');
    assert lower[0] != upper[0];
    assert Lower(lower) == Lower(upper);
    SameKeyIff(lower, upper);
  }
}
