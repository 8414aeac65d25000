/**
 Runs of the registry in which it does not do what one would expect: a full network that refuses a
 newcomer although a peer has left, and two entries that come to share an address.
 */
module RegistryWitnesses {
  import opened Wrappers
  import opened PeerRegistry
  import opened RegistryLaws

  lemma Longer(views: seq<View>, changes: seq<Change>, c: Change, v': View)
    requires IsRun(views, changes) && Changes(views[|changes|], c, v')
    ensures IsRun(views + [v'], changes + [c])
  {
    forall i: nat | i < |changes + [c]| ensures ChangeAt(views + [v'], changes + [c], i) {
      assert i < |changes| ==> ChangeAt(views, changes, i);
    }
  }

  // ----- An entry under the empty ID -----

  function Name(i: nat): string {
    seq(i + 1, _ => 'x')
  }

  /** The peer with this name, which is also its address. */
  function Named(i: nat): Peer {
    Peer(Name(i), Name(i), "", Active, 0, 0)
  }

  const NAMELESS := Peer("", "", "", Left, 0, 0)

  /** A Left record without ID, read back from Redis, and n peers. */
  function Filled(n: nat): View {
    if n == 0 then map["" := NAMELESS] else Filled(n - 1)[Name(n - 1) := Named(n - 1)]
  }

  lemma {:induction false} FilledHolds(n: nat)
    ensures |Filled(n)| == n + 1
    ensures "" in Filled(n) && Filled(n)[""] == NAMELESS
    ensures forall id | id in Filled(n) :: |id| <= n && Filled(n)[id].id == id == Filled(n)[id].grpc
    ensures forall id | id in Filled(n) :: Filled(n)[id].http == ""
  {
    if n > 0 {
      FilledHolds(n - 1);
      var v, id := Filled(n - 1), Name(n - 1);
      assert id !in v && |id| == n;
      assert Filled(n).Keys == v.Keys + {id};
      assert |Filled(n).Keys| == |Filled(n)| && |v.Keys| == |v|;
    }
  }

  lemma NewcomerEnters(n: nat)
    requires n + 1 < MAX_PEERS
    ensures UpsertStep(Filled(n), Named(n), 0, true, Filled(n + 1))
  {
    FilledHolds(n);
    assert |Name(n)| == n + 1;
    assert MayDrop(Filled(n), Named(n), None);
    assert Filled(n + 1) == AfterUpsert(Filled(n), Named(n), 0, None);
  }

  lemma {:induction false} FillUp(n: nat) returns (views: seq<View>, changes: seq<Change>)
    requires n < MAX_PEERS
    ensures IsRun(views, changes) && views[0] == map[] && views[|changes|] == Filled(n)
  {
    if n == 0 {
      views, changes := [map[], Filled(0)], [MergeRemote(NAMELESS)];
      assert ChangeAt(views, changes, 0);
    } else {
      views, changes := FillUp(n - 1);
      NewcomerEnters(n - 1);
      Longer(views, changes, Upsert(Named(n - 1), 0, true), Filled(n));
      views, changes := views + [Filled(n)], changes + [Upsert(Named(n - 1), 0, true)];
    }
  }

  /**
   From an empty registry, one record without ID that is read back from Redis, and 19 ordinary
   peers, lead to a full registry that refuses a newcomer although one entry is Left.
   */
  lemma NamelessEntryBlocksEviction() returns (views: seq<View>, changes: seq<Change>, newcomer: Peer)
    ensures IsRun(views, changes) && views[0] == map[]
    ensures EvictionBlocked(views[|changes|], newcomer)
    ensures UpsertStep(views[|changes|], newcomer, 0, false, views[|changes|])
  {
    views, changes := FillUp(MAX_PEERS - 1);
    newcomer := Named(MAX_PEERS - 1);
    FilledHolds(MAX_PEERS - 1);
    assert |Name(MAX_PEERS - 1)| == MAX_PEERS;
  }

  ghost predicate AllNamed(v: View) {
    WellKeyed(v) && "" !in v
  }

  /** Only a Redis merge can do that: without one no entry ever comes to lie under the empty ID. */
  lemma {:induction false} NamedWithoutMerges(views: seq<View>, changes: seq<Change>, j: nat)
    requires IsRun(views, changes) && AllNamed(views[0]) && j < |views|
    requires forall i | 0 <= i < j :: !changes[i].MergeRemote?
    ensures AllNamed(views[j])
  {
    if j > 0 {
      NamedWithoutMerges(views, changes, j - 1);
      NamedStep(views, changes, j);
    }
  }

  lemma NamedStep(views: seq<View>, changes: seq<Change>, j: nat)
    requires IsRun(views, changes) && 0 < j < |views| && !changes[j - 1].MergeRemote?
    ensures AllNamed(views[j - 1]) ==> AllNamed(views[j])
  {
    assert ChangeAt(views, changes, j - 1);
    if AllNamed(views[j - 1]) {
      ChangeStaysNamed(views[j - 1], changes[j - 1], views[j]);
    }
  }

  lemma ChangeStaysNamed(v: View, c: Change, v': View)
    requires AllNamed(v) && Changes(v, c, v') && !c.MergeRemote?
    ensures AllNamed(v')
  {
    ChangeStaysBounded(v, c, v');
    if c.Upsert? {
      UpsertContract(v, c.rec, c.now, c.ok, v');
    }
  }

  /** Without merges, then, Upsert refuses exactly as the network-full rule says. */
  lemma RefusalIsExactWithoutMerges(views: seq<View>, changes: seq<Change>, j: nat, rec: Peer, now: int,
                                    ok: bool, v': View)
    requires IsRun(views, changes) && AllNamed(views[0]) && j < |views|
    requires forall i | 0 <= i < j :: !changes[i].MergeRemote?
    requires UpsertStep(views[j], rec, now, ok, v')
    ensures !ok <==> Refused(views[j], rec)
  {
    NamedWithoutMerges(views, changes, j);
    RefusalIsExact(views[j], rec, now);
  }

  // ----- Two rivals, one pruned -----

  /** A record with the gRPC address of one peer and the HTTP address of another takes out only one. */
  lemma TwoRivalsLeaveAConflict() returns (v: View, rec: Peer, v': View)
    ensures WellKeyed(v) && AddressesUnique(v)
    ensures UpsertStep(v, rec, 0, true, v') && !AddressesUnique(v')
  {
    var a := Peer("a", "g1", "h1", Active, 0, 0);
    var b := Peer("b", "g2", "h2", Active, 0, 0);
    v, rec := map["a" := a, "b" := b], Peer("c", "g1", "h2", Active, 0, 0);
    assert v.Keys == {"a", "b"} && |v.Keys| == |v|;
    assert a.grpc != b.grpc && a.http != b.http;
    v' := AfterUpsert(v, rec, 0, Some("a"));
    assert MayDrop(v, rec, Some("a"));
    assert Conflicts(v'["b"], v'["c"]);
  }
}
