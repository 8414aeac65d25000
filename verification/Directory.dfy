/**
 The bootstrap directory (cmd/bootstrap/main.go): the list of registered peers behind the register,
 list and delete handlers.
 */
module Directory {
  import opened Wrappers
  import opened PeerRegistry
  import opened Providers

  datatype Status = Ok | NoContent | BadRequest | NetworkFull | NotFound

  predicate Complete(p: Endpoint) {
    p.peerId != "" && p.grpc != ""
  }

  /** The record that a registration replaces shares any one of the three fields, an empty one too. */
  predicate Matches(q: Endpoint, p: Endpoint) {
    q.peerId == p.peerId || q.grpc == p.grpc || q.http == p.http
  }

  /** Two records that have no field in common. */
  ghost predicate Apart(q: Endpoint, p: Endpoint) {
    q.peerId != p.peerId && q.grpc != p.grpc && q.http != p.http
  }

  /** The position of the first record that p matches; the length of the list if there is none. */
  function FirstMatch(peers: seq<Endpoint>, p: Endpoint): (i: nat)
    ensures i <= |peers|
    ensures forall j | 0 <= j < i :: !Matches(peers[j], p)
    ensures i < |peers| ==> Matches(peers[i], p)
  {
    if peers == [] || Matches(peers[0], p) then 0 else 1 + FirstMatch(peers[1..], p)
  }

  function Registered(peers: seq<Endpoint>, p: Endpoint): seq<Endpoint> {
    var i := FirstMatch(peers, p);
    if !Complete(p) then peers
    else if i < |peers| then peers[i := p]
    else if |peers| < MAX_PEERS then peers + [p]
    else peers
  }

  /** The position of the first record with this ID; the length of the list if there is none. */
  function FirstNamed(peers: seq<Endpoint>, id: string): (i: nat)
    ensures i <= |peers|
    ensures forall j | 0 <= j < i :: peers[j].peerId != id
    ensures i < |peers| ==> peers[i].peerId == id
  {
    if peers == [] || peers[0].peerId == id then 0 else 1 + FirstNamed(peers[1..], id)
  }

  function Deleted(peers: seq<Endpoint>, id: string): seq<Endpoint> {
    var i := FirstNamed(peers, id);
    if id != "" && i < |peers| then peers[..i] + peers[i + 1..] else peers
  }

  lemma {:induction false} FirstMatchIs(peers: seq<Endpoint>, p: Endpoint, i: nat)
    requires i < |peers| && Matches(peers[i], p) && forall j | 0 <= j < i :: !Matches(peers[j], p)
    ensures FirstMatch(peers, p) == i
  {}

  lemma {:induction false} FirstNamedIs(peers: seq<Endpoint>, id: string, i: nat)
    requires i < |peers| && peers[i].peerId == id && forall j | 0 <= j < i :: peers[j].peerId != id
    ensures FirstNamed(peers, id) == i
  {}

  class Directory {
    var peers: seq<Endpoint>

    ghost predicate Valid()
      reads this
    {
      |peers| <= MAX_PEERS
    }

    constructor ()
      ensures Valid() && peers == []
    {
      peers := [];
    }

    /** The register handler; None is a body that is not a peer record. */
    method Register(body: Option<Endpoint>) returns (status: Status)
      requires Valid()
      modifies this
      ensures Valid()
      ensures peers == if body.Some? then Registered(old(peers), body.value) else old(peers)
      ensures status.BadRequest? <==> body.None? || body.value.peerId == "" || body.value.grpc == ""
      ensures status.NetworkFull? <==>
                && !status.BadRequest? && |old(peers)| == 20
                && forall q | q in old(peers) :: Apart(q, body.value)
      ensures status.Ok? <==> !status.BadRequest? && !status.NetworkFull?
    {
      if body.None? {
        return BadRequest;
      }
      var p := body.value;
      if p.peerId == "" || p.grpc == "" {
        return BadRequest;
      }
      for i := 0 to |peers|
        invariant peers == old(peers) && forall j | 0 <= j < i :: !Matches(peers[j], p)
      {
        if peers[i].peerId == p.peerId || peers[i].grpc == p.grpc || peers[i].http == p.http {
          FirstMatchIs(peers, p, i);
          assert peers[i] in peers;
          peers := peers[i := p];
          return Ok;
        }
      }
      assert FirstMatch(peers, p) == |peers|;
      if |peers| >= MAX_PEERS {
        return NetworkFull;
      }
      peers := peers + [p];
      return Ok;
    }

    /** The delete handler. */
    method Delete(id: string) returns (status: Status)
      requires Valid()
      modifies this
      ensures Valid() && peers == Deleted(old(peers), id)
      ensures status == if id == "" then BadRequest
                        else if exists q :: q in old(peers) && q.peerId == id then NoContent
                        else NotFound
    {
      if id == "" {
        return BadRequest;
      }
      for i := 0 to |peers|
        invariant peers == old(peers) && forall j | 0 <= j < i :: peers[j].peerId != id
      {
        if peers[i].peerId == id {
          FirstNamedIs(peers, id, i);
          assert peers[i] in peers;
          peers := peers[..i] + peers[i + 1..];
          return NoContent;
        }
      }
      return NotFound;
    }
  }

  // ----- Laws -----

  /**
   A registration in the fields of the records: nothing without ID and gRPC address; otherwise it goes
   to the place of the first record that shares a field, or to the end while there are fewer than 20.
   i is that place, or the length of the list.
   */
  lemma RegisterInFields(peers: seq<Endpoint>, p: Endpoint, i: nat)
    requires i <= |peers| && (forall j | 0 <= j < i :: Apart(peers[j], p)) && (i < |peers| ==> !Apart(peers[i], p))
    ensures Registered(peers, p) ==
            if p.peerId == "" || p.grpc == "" then peers
            else if i < |peers| then peers[i := p]
            else if |peers| < 20 then peers + [p]
            else peers
  {
    if i < |peers| {
      FirstMatchIs(peers, p, i);
    }
  }

  /** Registering a record again changes nothing. */
  lemma RegisterTwice(peers: seq<Endpoint>, p: Endpoint)
    ensures Registered(Registered(peers, p), p) == Registered(peers, p)
  {
    var i := FirstMatch(peers, p);
    if Complete(p) && i < |peers| {
      FirstMatchIs(peers[i := p], p, i);
    } else if Complete(p) && |peers| < MAX_PEERS {
      FirstMatchIs(peers + [p], p, |peers|);
    }
  }

  /** Deleting a peer that was new undoes its registration. */
  lemma DeleteUndoesRegister(peers: seq<Endpoint>, p: Endpoint)
    requires Complete(p) && |peers| < MAX_PEERS && forall q | q in peers :: !Matches(q, p)
    ensures Deleted(Registered(peers, p), p.peerId) == peers
  {
    assert FirstMatch(peers, p) == |peers|;
    FirstNamedIs(peers + [p], p.peerId, |peers|);
    assert (peers + [p])[..|peers|] + (peers + [p])[|peers| + 1..] == peers;
  }

  /** No two records share an ID, a gRPC address or an HTTP address. */
  ghost predicate Distinct(peers: seq<Endpoint>) {
    forall i, j | 0 <= i < j < |peers| :: Apart(peers[i], peers[j])
  }

  ghost predicate OnlyFirstMatches(peers: seq<Endpoint>, p: Endpoint) {
    forall j | 0 <= j < |peers| && Matches(peers[j], p) :: j == FirstMatch(peers, p)
  }

  lemma ReplacedStaysDistinct(peers: seq<Endpoint>, p: Endpoint, i: nat)
    requires Distinct(peers) && i < |peers|
    ensures Distinct(peers[i := p]) <==> forall j | 0 <= j < |peers| && j != i :: !Matches(peers[j], p)
  {
    var after := peers[i := p];
    if Distinct(after) {
      forall j | 0 <= j < |peers| && j != i ensures !Matches(peers[j], p) {
        assert after[j] == peers[j] && after[i] == p;
        assert if j < i then !Matches(after[j], after[i]) else !Matches(after[i], after[j]);
      }
    }
  }

  /**
   A registration keeps all three fields distinct exactly when the record matches at most one
   entry: only the first match is replaced.
   */
  lemma RegisterKeepsDistinctIff(peers: seq<Endpoint>, p: Endpoint)
    requires Distinct(peers) && Complete(p)
    ensures Distinct(Registered(peers, p)) <==> OnlyFirstMatches(peers, p)
  {
    var i := FirstMatch(peers, p);
    if i < |peers| {
      ReplacedStaysDistinct(peers, p, i);
    }
  }

  /** One address pair per ID, and each address of a pair determines the other. */
  ghost predicate Coherent(book: set<Endpoint>) {
    forall a, b | a in book && b in book ::
      && (a.peerId == b.peerId ==> a.grpc == b.grpc)
      && (a.grpc == b.grpc <==> a.http == b.http)
  }

  ghost predicate AllFrom(peers: seq<Endpoint>, book: set<Endpoint>) {
    forall q | q in peers :: q in book
  }

  lemma MatchSharesGrpc(q: Endpoint, p: Endpoint, book: set<Endpoint>)
    requires Coherent(book) && q in book && p in book && Matches(q, p)
    ensures q.grpc == p.grpc
  {}

  /** In a coherent book a match is a shared gRPC address, so there is at most one. */
  lemma CoherentMatchesOnce(peers: seq<Endpoint>, p: Endpoint, book: set<Endpoint>)
    requires Distinct(peers) && Coherent(book) && AllFrom(peers, book) && p in book
    ensures OnlyFirstMatches(peers, p)
  {
    var i := FirstMatch(peers, p);
    forall j | 0 <= j < |peers| && Matches(peers[j], p) ensures j == i {
      MatchSharesGrpc(peers[i], p, book);
      MatchSharesGrpc(peers[j], p, book);
    }
  }

  /** A deletion takes out the peer of that ID, and nobody else. */
  lemma DeleteRemovesOnlyThat(peers: seq<Endpoint>, id: string, q: Endpoint)
    requires Distinct(peers) && id != ""
    ensures q in Deleted(peers, id) <==> q in peers && q.peerId != id
  {
    var i := FirstNamed(peers, id);
    if i < |peers| {
      var after := peers[..i] + peers[i + 1..];
      if q in peers && q.peerId != id {
        var j :| 0 <= j < |peers| && peers[j] == q;
        assert after[if j < i then j else j - 1] == q;
      }
      if q in after {
        var j :| 0 <= j < |after| && after[j] == q;
        OthersHaveOtherIds(peers, i, if j < i then j else j + 1);
      }
    }
  }

  lemma OthersHaveOtherIds(peers: seq<Endpoint>, i: nat, k: nat)
    requires Distinct(peers) && i < |peers| && k < |peers| && i != k
    ensures peers[i].peerId != peers[k].peerId
  {
    assert if k < i then !Matches(peers[k], peers[i]) else !Matches(peers[i], peers[k]);
  }

  lemma DeleteKeepsDistinct(peers: seq<Endpoint>, id: string)
    requires Distinct(peers)
    ensures Distinct(Deleted(peers, id)) && forall q | q in Deleted(peers, id) :: q in peers
  {
    var i := FirstNamed(peers, id);
    if id != "" && i < |peers| {
      var after := peers[..i] + peers[i + 1..];
      forall j, k | 0 <= j < k < |after| ensures !Matches(after[j], after[k]) {
        assert after[j] == peers[if j < i then j else j + 1];
        assert after[k] == peers[if k < i then k else k + 1];
      }
    }
  }

  datatype Request = Register(p: Endpoint) | Delete(id: string)

  function Served(peers: seq<Endpoint>, r: Request): seq<Endpoint> {
    match r
    case Register(p) => Registered(peers, p)
    case Delete(id) => Deleted(peers, id)
  }

  /** The list after these requests, from an empty one. */
  function AfterAll(requests: seq<Request>): seq<Endpoint> {
    if requests == [] then [] else Served(AfterAll(requests[..|requests| - 1]), requests[|requests| - 1])
  }

  ghost predicate RequestFrom(r: Request, book: set<Endpoint>) {
    r.Register? ==> r.p in book
  }

  lemma ServedKeepsDistinct(peers: seq<Endpoint>, r: Request, book: set<Endpoint>)
    requires Distinct(peers) && AllFrom(peers, book) && Coherent(book) && RequestFrom(r, book)
    ensures Distinct(Served(peers, r)) && AllFrom(Served(peers, r), book)
  {
    match r {
      case Register(p) =>
        if Complete(p) {
          CoherentMatchesOnce(peers, p, book);
          RegisterKeepsDistinctIff(peers, p);
        }
      case Delete(id) => DeleteKeepsDistinct(peers, id);
    }
  }

  /**
   Over every run of register and delete the list holds at most 20 records, and when all records
   come from a coherent book, all three fields stay pairwise distinct.
   */
  lemma {:induction false} RunsStayDistinct(requests: seq<Request>, book: set<Endpoint>)
    ensures |AfterAll(requests)| <= 20
    ensures Coherent(book) && (forall r | r in requests :: RequestFrom(r, book)) ==>
              Distinct(AfterAll(requests)) && AllFrom(AfterAll(requests), book)
  {
    if requests != [] {
      var n := |requests| - 1;
      RunsStayDistinct(requests[..n], book);
      if Coherent(book) && forall r | r in requests :: RequestFrom(r, book) {
        ServedKeepsDistinct(AfterAll(requests[..n]), requests[n], book);
      }
    }
  }

  /** Two peers without an HTTP address overwrite each other, though they share nothing else. */
  lemma EmptyHttpOverwrites(a: Endpoint, b: Endpoint)
    requires Complete(a) && Complete(b) && a.peerId != b.peerId && a.grpc != b.grpc
    ensures Registered(Registered([], a), b) == (if a.http == b.http then [b] else [a, b])
  {
    assert Registered([], a) == [a];
    if a.http == b.http {
      FirstMatchIs([a], b, 0);
    }
  }
}
