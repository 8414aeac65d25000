/**
 Downloads spread over a run: between the turns of a GetFile call any other steps may happen, at the
 reader and elsewhere. Each turn reads one block, and only the state in which it happens matters.
 */
module Interleaving {
  import opened Wrappers
  import opened Content
  import opened Providers
  import opened Transfer
  import opened Host
  import opened Network
  import opened Availability

  /** A GetFile call at one node: step when[t] of the run is its turn t. */
  datatype Reading = Reading(at: string, remote: Remote, root: Cid, when: seq<nat>)

  ghost predicate Timed(states: seq<World>, acts: seq<Action>, d: Reading) {
    && |states| == |acts| + 1 && d.when != []
    && (forall t | 0 <= t < |d.when| :: d.when[t] < |acts| && ReadsAt(states, acts, d, t))
    && (forall t, u | 0 <= t < u < |d.when| :: d.when[t] < d.when[u])
  }

  ghost predicate ReadsAt(states: seq<World>, acts: seq<Action>, d: Reading, t: nat)
    requires t < |d.when| && d.when[t] < |acts| < |states|
  {
    var a := acts[d.when[t]];
    a.ReadBlock? && a.at == d.at && a.remote == d.remote && a.turn == t && d.at in states[d.when[t]].nodes
  }

  /** The reader, and what it gets, in this turn. */
  ghost function ReaderAt(states: seq<World>, acts: seq<Action>, d: Reading, t: nat): Member
    requires Timed(states, acts, d) && t < |d.when|
  {
    assert ReadsAt(states, acts, d, t);
    states[d.when[t]].nodes[d.at]
  }

  ghost function CidAt(states: seq<World>, acts: seq<Action>, d: Reading, t: nat): Cid
    requires Timed(states, acts, d) && t < |d.when|
  {
    assert ReadsAt(states, acts, d, t);
    acts[d.when[t]].cid
  }

  ghost function ResultAt(e: Env, states: seq<World>, acts: seq<Action>, d: Reading, t: nat): FetchResult
    requires Timed(states, acts, d) && t < |d.when|
  {
    assert ReadsAt(states, acts, d, t);
    ResultOf(e, ReaderAt(states, acts, d, t), d.remote, t, CidAt(states, acts, d, t), acts[d.when[t]].provs)
  }

  /** The chunk list that the root block turned out to hold; None when it could not be had or read. */
  ghost function ListOf(e: Env, states: seq<World>, acts: seq<Action>, d: Reading): Option<seq<Cid>>
    requires Timed(states, acts, d)
  {
    match ResultAt(e, states, acts, d, 0)
    case Failed(_) => None
    case Fetched(block) => e.unmarshal(block)
  }

  /** All that the call has to read, as far as it can know. */
  ghost function CidsOf(e: Env, states: seq<World>, acts: seq<Action>, d: Reading): seq<Cid>
    requires Timed(states, acts, d)
  {
    match ListOf(e, states, acts, d)
    case None => [d.root]
    case Some(chunks) => [d.root] + chunks
  }

  /** Turn t reads the t-th block, after all the turns before it went well. */
  ghost predicate IsTurn(e: Env, states: seq<World>, acts: seq<Action>, d: Reading, t: nat)
    requires Timed(states, acts, d) && t < |d.when|
  {
    && t < |CidsOf(e, states, acts, d)| && CidAt(states, acts, d, t) == CidsOf(e, states, acts, d)[t]
    && (t > 0 ==> ResultAt(e, states, acts, d, t - 1).Fetched?)
  }

  /** The turns so far of a GetFile call. */
  ghost predicate IsReadingOver(e: Env, states: seq<World>, acts: seq<Action>, d: Reading) {
    Timed(states, acts, d) && forall t: nat | t < |d.when| :: IsTurn(e, states, acts, d, t)
  }

  ghost function LastResult(e: Env, states: seq<World>, acts: seq<Action>, d: Reading): FetchResult
    requires Timed(states, acts, d)
  {
    ResultAt(e, states, acts, d, |d.when| - 1)
  }

  /** The call has returned: a turn failed, or there is nothing more to read. */
  ghost predicate Ended(e: Env, states: seq<World>, acts: seq<Action>, d: Reading)
    requires Timed(states, acts, d)
  {
    LastResult(e, states, acts, d).Failed? || |d.when| == |CidsOf(e, states, acts, d)|
  }

  /** The call has returned without an error. */
  ghost predicate Succeeded(e: Env, states: seq<World>, acts: seq<Action>, d: Reading)
    requires Timed(states, acts, d)
  {
    && LastResult(e, states, acts, d).Fetched? && ListOf(e, states, acts, d).Some?
    && |d.when| == |CidsOf(e, states, acts, d)|
  }

  /** What has been written before turn n: the chunks, not the root block. */
  ghost function WrittenBefore(e: Env, states: seq<World>, acts: seq<Action>, d: Reading, n: nat): Bytes
    requires Timed(states, acts, d) && n <= |d.when|
  {
    if n <= 1 then ""
    else
      WrittenBefore(e, states, acts, d, n - 1)
      + match ResultAt(e, states, acts, d, n - 1) case Failed(_) => "" case Fetched(data) => data
  }

  ghost function Written(e: Env, states: seq<World>, acts: seq<Action>, d: Reading): Bytes
    requires Timed(states, acts, d)
  {
    WrittenBefore(e, states, acts, d, |d.when|)
  }

  // ----- One turn -----

  lemma ReaderIsHonest(e: Env, states: seq<World>, acts: seq<Action>, d: Reading, t: nat)
    requires e.Valid() && IsRun(e, states, acts) && Inv(e, states[0])
    requires Timed(states, acts, d) && t < |d.when|
    ensures Inv(e, states[d.when[t]]) && HonestMember(e, ReaderAt(states, acts, d, t))
    ensures Asks(ReaderAt(states, acts, d, t), d.remote, t, CidAt(states, acts, d, t), acts[d.when[t]].provs)
  {
    RunIsHonest(e, states, acts, d.when[t]);
    assert ReadsAt(states, acts, d, t);
    assert StepAt(e, states, acts, d.when[t]);
  }

  lemma TurnIsVerified(e: Env, states: seq<World>, acts: seq<Action>, d: Reading, t: nat)
    requires e.Valid() && IsRun(e, states, acts) && Inv(e, states[0])
    requires Timed(states, acts, d) && t < |d.when|
    ensures var r := ResultAt(e, states, acts, d, t);
            r.Fetched? ==> e.hash(r.data) == CidAt(states, acts, d, t)
  {
    ReaderIsHonest(e, states, acts, d, t);
    ResolveIsVerified(e, d.remote.get, t, ReaderAt(states, acts, d, t).store, CidAt(states, acts, d, t),
                      acts[d.when[t]].provs);
  }

  /** A turn goes well when its block is local or offered by then. */
  lemma OfferedTurn(e: Env, w: World, n: Member, remote: Remote, turn: nat, cid: Cid, provs: seq<Endpoint>,
                    block: Bytes)
    requires Inv(e, w) && HonestMember(e, n) && Genuine(w, n, remote, turn, cid)
    requires Asks(n, remote, turn, cid, provs) && OnlyBlock(e, cid, block)
    requires cid in n.store || Offered(w, n, remote, turn, cid)
    ensures ResultOf(e, n, remote, turn, cid, provs).Fetched?
  {
    if cid !in n.store {
      HolderServes(e, w, n, remote, turn, cid, provs, block);
      ResolveSucceedsIff(e, remote.get, turn, n.store, cid, provs);
    }
  }

  lemma FetchedTurnWasReachable(e: Env, w: World, n: Member, remote: Remote, turn: nat, cid: Cid,
                                provs: seq<Endpoint>)
    requires Inv(e, w) && HonestMember(e, n) && Genuine(w, n, remote, turn, cid)
    requires Asks(n, remote, turn, cid, provs) && ResultOf(e, n, remote, turn, cid, provs).Fetched?
    ensures AtHandOrReachable(w, n, cid)
  {
    ResolveSucceedsIff(e, remote.get, turn, n.store, cid, provs);
    ObtainedWasReachable(e, w, n, remote, turn, cid, provs);
  }

  // ----- Integrity -----

  lemma RootTurn(e: Env, states: seq<World>, acts: seq<Action>, d: Reading, file: Bytes)
    requires e.Valid() && NoSecondPreimage(e, BlockSet(e, file)) && d.root == RootCid(e, file)
    requires IsRun(e, states, acts) && Inv(e, states[0]) && IsReadingOver(e, states, acts, d)
    ensures ResultAt(e, states, acts, d, 0).Fetched? ==>
              && ListOf(e, states, acts, d) == Some(Hashes(e, Chunks(file)))
              && CidsOf(e, states, acts, d) == BlockCids(e, file)
  {
    TurnIsVerified(e, states, acts, d, 0);
    assert IsTurn(e, states, acts, d, 0);
    var r := ResultAt(e, states, acts, d, 0);
    if r.Fetched? {
      RootBlockIsFixed(e, file, r.data);
    }
  }

  lemma TurnReadsBlock(e: Env, states: seq<World>, acts: seq<Action>, d: Reading, file: Bytes, t: nat)
    requires e.Valid() && NoSecondPreimage(e, BlockSet(e, file)) && d.root == RootCid(e, file)
    requires IsRun(e, states, acts) && Inv(e, states[0]) && IsReadingOver(e, states, acts, d)
    requires t < |d.when|
    ensures t < |BlockCids(e, file)| && CidAt(states, acts, d, t) == BlockCids(e, file)[t]
    ensures ResultAt(e, states, acts, d, t).Fetched? ==>
              ResultAt(e, states, acts, d, t) == Fetched(BlocksOf(e, file)[t])
  {
    assert IsTurn(e, states, acts, d, t);
    RootTurn(e, states, acts, d, file);
    if t > 0 {
      FirstTurnWentWell(e, states, acts, d, t);
    }
    BlocksAreOnly(e, file, t);
    TurnIsVerified(e, states, acts, d, t);
  }

  lemma FirstTurnWentWell(e: Env, states: seq<World>, acts: seq<Action>, d: Reading, t: nat)
    requires IsReadingOver(e, states, acts, d) && 0 < t < |d.when|
    ensures ResultAt(e, states, acts, d, 0).Fetched?
  {
    assert IsTurn(e, states, acts, d, 1);
  }

  lemma {:induction false} WrittenIsPrefix(e: Env, states: seq<World>, acts: seq<Action>, d: Reading,
                                           file: Bytes, n: nat)
    requires e.Valid() && NoSecondPreimage(e, BlockSet(e, file)) && d.root == RootCid(e, file)
    requires IsRun(e, states, acts) && Inv(e, states[0]) && IsReadingOver(e, states, acts, d)
    requires 0 < n <= |d.when| && ResultAt(e, states, acts, d, n - 1).Fetched?
    ensures n - 1 <= |Chunks(file)| && WrittenBefore(e, states, acts, d, n) == Join(Chunks(file)[..n - 1])
  {
    TurnReadsBlock(e, states, acts, d, file, n - 1);
    if n > 1 {
      assert IsTurn(e, states, acts, d, n - 1);
      WrittenIsPrefix(e, states, acts, d, file, n - 1);
      JoinOneMore(Chunks(file), n - 2);
    }
  }

  lemma SuccessReadsAll(e: Env, states: seq<World>, acts: seq<Action>, d: Reading, file: Bytes)
    requires e.Valid() && NoSecondPreimage(e, BlockSet(e, file)) && d.root == RootCid(e, file)
    requires IsRun(e, states, acts) && Inv(e, states[0]) && IsReadingOver(e, states, acts, d)
    ensures Succeeded(e, states, acts, d) ==> |d.when| - 1 == |Chunks(file)|
  {
    RootTurn(e, states, acts, d, file);
  }

  lemma FailureWritesNothing(e: Env, states: seq<World>, acts: seq<Action>, d: Reading)
    requires Timed(states, acts, d) && LastResult(e, states, acts, d).Failed?
    ensures Written(e, states, acts, d) == WrittenBefore(e, states, acts, d, |d.when| - 1)
  {}

  lemma LastChunkFailed(e: Env, states: seq<World>, acts: seq<Action>, d: Reading, file: Bytes, last: nat)
    requires e.Valid() && NoSecondPreimage(e, BlockSet(e, file)) && d.root == RootCid(e, file)
    requires IsRun(e, states, acts) && Inv(e, states[0]) && IsReadingOver(e, states, acts, d)
    requires LastResult(e, states, acts, d).Failed? && 0 < last == |d.when| - 1
    ensures last - 1 <= |Chunks(file)| && Written(e, states, acts, d) == Join(Chunks(file)[..last - 1])
  {
    assert IsTurn(e, states, acts, d, last);
    WrittenIsPrefix(e, states, acts, d, file, last);
    FailureWritesNothing(e, states, acts, d);
  }

  /** How many chunks were written. */
  lemma WrittenPieces(e: Env, states: seq<World>, acts: seq<Action>, d: Reading, file: Bytes) returns (n: nat)
    requires e.Valid() && NoSecondPreimage(e, BlockSet(e, file)) && d.root == RootCid(e, file)
    requires IsRun(e, states, acts) && Inv(e, states[0]) && IsReadingOver(e, states, acts, d)
    ensures n <= |Chunks(file)| && Written(e, states, acts, d) == Join(Chunks(file)[..n])
    ensures Succeeded(e, states, acts, d) ==> n == |Chunks(file)|
  {
    var last := |d.when| - 1;
    if LastResult(e, states, acts, d).Fetched? {
      WrittenIsPrefix(e, states, acts, d, file, last + 1);
      SuccessReadsAll(e, states, acts, d, file);
      n := last;
    } else if last > 0 {
      LastChunkFailed(e, states, acts, d, file, last);
      n := last - 1;
    } else {
      n := 0;
      assert Chunks(file)[..0] == [];
    }
  }

  /**
   Integrity: whatever happens between the turns, and whatever the others answer, what is written is
   a prefix of the file, and all of it when no error is reported.
   */
  lemma ReadingIsIntact(e: Env, states: seq<World>, acts: seq<Action>, d: Reading, file: Bytes)
    requires e.Valid() && NoSecondPreimage(e, BlockSet(e, file)) && d.root == RootCid(e, file)
    requires IsRun(e, states, acts) && Inv(e, states[0]) && IsReadingOver(e, states, acts, d)
    ensures Written(e, states, acts, d) <= file
    ensures Succeeded(e, states, acts, d) ==> Written(e, states, acts, d) == file
  {
    var n := WrittenPieces(e, states, acts, d, file);
    JoinPrefix(Chunks(file), n);
    SplitLossless(file, CHUNK_SIZE);
    assert n == |Chunks(file)| ==> Chunks(file)[..n] == Chunks(file);
  }

  // ----- Availability -----

  lemma EndedWell(e: Env, states: seq<World>, acts: seq<Action>, d: Reading, file: Bytes)
    requires e.Valid() && NoSecondPreimage(e, BlockSet(e, file)) && d.root == RootCid(e, file)
    requires IsRun(e, states, acts) && Inv(e, states[0]) && IsReadingOver(e, states, acts, d)
    requires Ended(e, states, acts, d)
    ensures Succeeded(e, states, acts, d) <==>
            forall t: nat | t < |d.when| :: ResultAt(e, states, acts, d, t).Fetched?
  {
    RootTurn(e, states, acts, d, file);
    if Succeeded(e, states, acts, d) {
      forall t: nat | t < |d.when| ensures ResultAt(e, states, acts, d, t).Fetched? {
        assert t + 1 < |d.when| ==> IsTurn(e, states, acts, d, t + 1);
      }
    }
  }

  /** The answers in this turn are genuine, and the running nodes that the reader lists respond. */
  ghost predicate Answering(states: seq<World>, acts: seq<Action>, d: Reading, t: nat)
    requires Timed(states, acts, d) && t < |d.when|
  {
    var w, n, cid := states[d.when[t]], ReaderAt(states, acts, d, t), CidAt(states, acts, d, t);
    && Genuine(w, n, d.remote, t, cid)
    && forall id, s | Listed(w, n, id, s) :: Responds(w, d.remote, t, cid, id, s)
  }

  ghost predicate InReach(states: seq<World>, acts: seq<Action>, d: Reading, t: nat)
    requires Timed(states, acts, d) && t < |d.when|
  {
    AtHandOrReachable(states[d.when[t]], ReaderAt(states, acts, d, t), CidAt(states, acts, d, t))
  }

  lemma ReachableTurn(e: Env, states: seq<World>, acts: seq<Action>, d: Reading, file: Bytes, t: nat)
    requires e.Valid() && NoSecondPreimage(e, BlockSet(e, file)) && d.root == RootCid(e, file)
    requires IsRun(e, states, acts) && Inv(e, states[0]) && IsReadingOver(e, states, acts, d)
    requires t < |d.when| && Answering(states, acts, d, t)
    ensures ResultAt(e, states, acts, d, t).Fetched? <==> InReach(states, acts, d, t)
  {
    var w, n, cid := states[d.when[t]], ReaderAt(states, acts, d, t), CidAt(states, acts, d, t);
    var provs := acts[d.when[t]].provs;
    ReaderIsHonest(e, states, acts, d, t);
    if InReach(states, acts, d, t) {
      TurnReadsBlock(e, states, acts, d, file, t);
      BlocksAreOnly(e, file, t);
      ReachableResponds(w, n, d.remote, t, cid);
      OfferedTurn(e, w, n, d.remote, t, cid, provs, BlocksOf(e, file)[t]);
    } else if ResultAt(e, states, acts, d, t).Fetched? {
      FetchedTurnWasReachable(e, w, n, d.remote, t, cid, provs);
    }
  }

  lemma ReachableResponds(w: World, n: Member, remote: Remote, turn: nat, cid: Cid)
    requires forall id, s | Listed(w, n, id, s) :: Responds(w, remote, turn, cid, id, s)
    ensures Reachable(w, n, cid) ==> Offered(w, n, remote, turn, cid)
  {}

  /**
   Availability is exact turn by turn: a call that has returned reports no error if and only if each
   block was, when its turn came, at hand or announced by a running node that the reader listed.
   */
  lemma ReadingSucceedsIff(e: Env, states: seq<World>, acts: seq<Action>, d: Reading, file: Bytes)
    requires e.Valid() && NoSecondPreimage(e, BlockSet(e, file)) && d.root == RootCid(e, file)
    requires IsRun(e, states, acts) && Inv(e, states[0]) && IsReadingOver(e, states, acts, d)
    requires Ended(e, states, acts, d)
    requires forall t: nat | t < |d.when| :: Answering(states, acts, d, t)
    ensures Succeeded(e, states, acts, d) <==> forall t: nat | t < |d.when| :: InReach(states, acts, d, t)
  {
    EndedWell(e, states, acts, d, file);
    forall t: nat | t < |d.when|
      ensures ResultAt(e, states, acts, d, t).Fetched? <==> InReach(states, acts, d, t)
    {
      ReachableTurn(e, states, acts, d, file, t);
    }
  }

  /**
   In this turn the answers are genuine, and the block is at hand or some node that got it earlier in
   the run is up, listed, and responds.
   */
  ghost predicate SurvivesAt(e: Env, states: seq<World>, acts: seq<Action>, d: Reading, t: nat)
    requires Timed(states, acts, d) && t < |d.when|
  {
    var n, cid := ReaderAt(states, acts, d, t), CidAt(states, acts, d, t);
    && Genuine(states[d.when[t]], n, d.remote, t, cid)
    && Survives(e, states, acts, d.when[t], n, d.remote, t, cid)
  }

  lemma SurvivingTurn(e: Env, states: seq<World>, acts: seq<Action>, d: Reading, file: Bytes, t: nat)
    requires e.Valid() && NoSecondPreimage(e, BlockSet(e, file)) && d.root == RootCid(e, file)
    requires IsRun(e, states, acts) && Inv(e, states[0]) && IsReadingOver(e, states, acts, d)
    requires t < |d.when| && SurvivesAt(e, states, acts, d, t)
    ensures ResultAt(e, states, acts, d, t).Fetched?
  {
    var w, n, cid := states[d.when[t]], ReaderAt(states, acts, d, t), CidAt(states, acts, d, t);
    ReaderIsHonest(e, states, acts, d, t);
    TurnReadsBlock(e, states, acts, d, file, t);
    BlocksAreOnly(e, file, t);
    SurvivorOffers(e, states, acts, d.when[t], n, d.remote, t, cid);
    OfferedTurn(e, w, n, d.remote, t, cid, acts[d.when[t]].provs, BlocksOf(e, file)[t]);
  }

  /**
   Fault tolerance with other steps between the turns: nodes may crash, join, upload and be cleaned
   up while the file is read; the bytes are those of the file as long as each turn finds one
   surviving holder of its own block.
   */
  lemma ReadingToleratesFaults(e: Env, states: seq<World>, acts: seq<Action>, d: Reading, file: Bytes)
    requires e.Valid() && NoSecondPreimage(e, BlockSet(e, file)) && d.root == RootCid(e, file)
    requires IsRun(e, states, acts) && Inv(e, states[0]) && IsReadingOver(e, states, acts, d)
    requires Ended(e, states, acts, d)
    requires forall t: nat | t < |d.when| :: SurvivesAt(e, states, acts, d, t)
    ensures Succeeded(e, states, acts, d) && Written(e, states, acts, d) == file
  {
    forall t: nat | t < |d.when| ensures ResultAt(e, states, acts, d, t).Fetched? {
      SurvivingTurn(e, states, acts, d, file, t);
    }
    EndedWell(e, states, acts, d, file);
    ReadingIsIntact(e, states, acts, d, file);
  }
}
