/**
 The catalog on top of the network: its files are uploaded and downloaded by the nodes on which its
 callers run, while everything else goes on there.
 */
module CatalogNetwork {
  import opened Content
  import opened Transfer
  import opened Host
  import opened Catalog
  import opened CatalogLock
  import A = Availability
  import N = Network

  // ----- Where the file behind the pointer comes from -----

  /** In this step a caller uploads this file as the new catalog. */
  predicate Uploads(states: seq<State>, acts: seq<Action>, u: nat, file: Bytes) {
    && u < |acts| && u < |states| && acts[u].AddFile?
    && At(states[u], acts[u].caller) && states[u].sections[acts[u].caller].stage.HasContent?
    && file == states[u].sections[acts[u].caller].stage.content + states[u].sections[acts[u].caller].entry
  }

  /** There is no such catalog, or somebody uploaded it before. */
  ghost predicate WasUploaded(states: seq<State>, acts: seq<Action>, j: nat, log: seq<Bytes>) {
    log == [] || exists u: nat :: u < j && Uploads(states, acts, u, Join(log))
  }

  lemma UploadedLater(states: seq<State>, acts: seq<Action>, j: nat, k: nat, log: seq<Bytes>)
    requires WasUploaded(states, acts, j, log) && j <= k
    ensures WasUploaded(states, acts, k, log)
  {}

  ghost predicate SectionTraced(states: seq<State>, acts: seq<Action>, j: nat, section: Section) {
    match section.stage
    case HasPointer(_, d) => WasUploaded(states, acts, j, d.base)
    case HasUploaded(_, d) => WasUploaded(states, acts, j, d.base + [section.entry])
    case _ => true
  }

  ghost predicate Traced(states: seq<State>, acts: seq<Action>, j: nat, s: State) {
    && WasUploaded(states, acts, j, s.log)
    && forall c | At(s, c) :: SectionTraced(states, acts, j, s.sections[c])
  }

  lemma TracedLater(states: seq<State>, acts: seq<Action>, j: nat, k: nat, s: State)
    requires Traced(states, acts, j, s) && j <= k
    ensures Traced(states, acts, k, s)
  {
    UploadedLater(states, acts, j, k, s.log);
    forall c | At(s, c) ensures SectionTraced(states, acts, k, s.sections[c]) {
      assert SectionTraced(states, acts, j, s.sections[c]);
    }
  }

  lemma MoveIsTraced(states: seq<State>, acts: seq<Action>, j: nat, s: State, c: string, stage: Stage)
    requires Traced(states, acts, j, s) && At(s, c)
    requires SectionTraced(states, acts, j, s.sections[c].(stage := stage))
    ensures Traced(states, acts, j, Moved(s, c, stage))
  {
    var s' := Moved(s, c, stage);
    forall d | At(s', d) ensures SectionTraced(states, acts, j, s'.sections[d]) {
      assert At(s, d) && SectionTraced(states, acts, j, s.sections[d]);
    }
  }

  lemma AddIsTraced(e: Env, states: seq<State>, acts: seq<Action>, k: nat, j: nat)
    requires NextAt(e, states, acts, k) && acts[k].AddFile? && j == k + 1
    requires Consistent(e, states[k]) && Traced(states, acts, j, states[k])
    ensures Traced(states, acts, j, states[j])
  {
    var s, c := states[k], acts[k].caller;
    var d, entry := DraftOf(s, c), s.sections[c].entry;
    assert Builds(e, s.sections[c]);
    JoinLast(d.base, entry);
    assert Uploads(states, acts, k, Join(d.base + [entry]));
    MoveIsTraced(states, acts, j, s, c, states[j].sections[c].stage);
  }

  lemma PublishedIsTraced(states: seq<State>, acts: seq<Action>, j: nat, s: State, c: string)
    requires Traced(states, acts, j, s) && At(s, c) && s.sections[c].stage.HasUploaded?
    ensures Traced(states, acts, j, Published(s, c))
  {
    assert SectionTraced(states, acts, j, s.sections[c]);
    MoveIsTraced(states, acts, j, s, c, Finished);
    var s', moved := Published(s, c), Moved(s, c, Finished);
    forall d | At(s', d) ensures SectionTraced(states, acts, j, s'.sections[d]) {
      assert At(moved, d) && SectionTraced(states, acts, j, moved.sections[d]);
    }
  }

  /** The catalog stays, and calls only end or begin. */
  ghost predicate OnlyEndsOrBegins(s: State, s': State) {
    && s'.log == s.log
    && forall c | At(s', c) :: (At(s, c) && s'.sections[c] == s.sections[c]) || s'.sections[c].stage.Locked?
  }

  lemma OthersOnlyEndOrBegin(e: Env, s: State, a: Action, s': State)
    requires Next(e, s, a, s')
    requires a.Tick? || a.Acquire? || a.Release? || a.Drop? || a.GrabUnseen? || a.LateDel?
    ensures OnlyEndsOrBegins(s, s')
  {}

  lemma OthersAreTraced(states: seq<State>, acts: seq<Action>, j: nat, s: State, s': State)
    requires Traced(states, acts, j, s) && OnlyEndsOrBegins(s, s')
    ensures Traced(states, acts, j, s')
  {
    forall c | At(s', c) ensures SectionTraced(states, acts, j, s'.sections[c]) {
      assert At(s, c) ==> SectionTraced(states, acts, j, s.sections[c]);
    }
  }

  lemma ReadIsTraced(states: seq<State>, acts: seq<Action>, j: nat, s: State, c: string, ok: bool)
    requires Traced(states, acts, j, s) && At(s, c)
    ensures Traced(states, acts, j, Moved(s, c, AfterRead(s, ok)))
  {
    MoveIsTraced(states, acts, j, s, c, AfterRead(s, ok));
  }

  lemma FetchIsTraced(e: Env, states: seq<State>, acts: seq<Action>, j: nat, s: State, a: Action, s': State)
    requires Traced(states, acts, j, s) && a.Fetch? && Next(e, s, a, s')
    ensures Traced(states, acts, j, s')
  {
    MoveIsTraced(states, acts, j, s, a.caller, s'.sections[a.caller].stage);
  }

  lemma EndIsTraced(e: Env, states: seq<State>, acts: seq<Action>, j: nat, s: State, a: Action, s': State)
    requires Traced(states, acts, j, s) && Next(e, s, a, s') && (a.Abort? || (a.SetPointer? && !a.ok))
    ensures Traced(states, acts, j, s')
  {
    MoveIsTraced(states, acts, j, s, a.caller, Finished);
  }

  lemma NextIsTraced(e: Env, states: seq<State>, acts: seq<Action>, j: nat, s: State, a: Action, s': State)
    requires Traced(states, acts, j, s) && Next(e, s, a, s') && !a.AddFile?
    ensures Traced(states, acts, j, s')
  {
    match a {
      case ReadPointer(c, ok) => ReadIsTraced(states, acts, j, s, c, ok);
      case Fetch(_, _, _, _, _) => FetchIsTraced(e, states, acts, j, s, a, s');
      case Abort(_) => EndIsTraced(e, states, acts, j, s, a, s');
      case SetPointer(c, ok) =>
        if ok {
          PublishedIsTraced(states, acts, j, s, c);
        } else {
          EndIsTraced(e, states, acts, j, s, a, s');
        }
      case _ =>
        OthersOnlyEndOrBegin(e, s, a, s');
        OthersAreTraced(states, acts, j, s, s');
    }
  }

  lemma TracedStep(e: Env, states: seq<State>, acts: seq<Action>, k: nat, j: nat)
    requires NextAt(e, states, acts, k) && j == k + 1
    requires Consistent(e, states[k]) && Traced(states, acts, k, states[k])
    ensures Traced(states, acts, j, states[j])
  {
    TracedLater(states, acts, k, j, states[k]);
    if acts[k].AddFile? {
      AddIsTraced(e, states, acts, k, j);
    } else {
      NextIsTraced(e, states, acts, j, states[k], acts[k], states[j]);
    }
  }

  lemma TracedInRun(e: Env, states: seq<State>, acts: seq<Action>, k: nat, j: nat)
    requires IsHashedRun(e, states, acts) && k + 1 == j < |states|
    ensures Consistent(e, states[k]) && Traced(states, acts, k, states[k]) ==> Traced(states, acts, j, states[j])
  {
    assert NextAt(e, states, acts, k);
    if Consistent(e, states[k]) && Traced(states, acts, k, states[k]) {
      TracedStep(e, states, acts, k, j);
    }
  }

  lemma {:induction false} RunIsTraced(e: Env, states: seq<State>, acts: seq<Action>, j: nat)
    requires IsHashedRun(e, states, acts) && states[0] == EMPTY && j < |states|
    ensures Traced(states, acts, j, states[j])
  {
    if j > 0 {
      RunIsTraced(e, states, acts, j - 1);
      PointerIsRootOfLog(e, states, acts, j - 1);
      TracedInRun(e, states, acts, j - 1, j);
    }
  }

  /** A caller goes to download the catalog whose pointer it has read. */
  predicate Downloads(states: seq<State>, acts: seq<Action>, k: nat) {
    && k < |acts| && k < |states| && acts[k].Fetch?
    && At(states[k], acts[k].caller) && states[k].sections[acts[k].caller].stage.HasPointer?
    && states[k].sections[acts[k].caller].stage.pointer != ""
  }

  /** The file that it is after. */
  function Sought(states: seq<State>, acts: seq<Action>, k: nat): Bytes
    requires Downloads(states, acts, k)
  {
    Join(states[k].sections[acts[k].caller].stage.draft.base)
  }

  lemma SoughtIsRoot(e: Env, states: seq<State>, acts: seq<Action>, k: nat)
    requires IsHashedRun(e, states, acts) && states[0] == EMPTY && Downloads(states, acts, k)
    ensures e.Valid() && NoSecondPreimage(e, BlockSet(e, Sought(states, acts, k)))
    ensures states[k].sections[acts[k].caller].stage.pointer == RootCid(e, Sought(states, acts, k))
    ensures states[k].sections[acts[k].caller].stage.draft.base != []
  {
    PointerIsRootOfLog(e, states, acts, k);
    assert Builds(e, states[k].sections[acts[k].caller]);
    assert HashedAt(e, states, k);
  }

  /** Whatever the speed and whatever fails: every catalog that a caller goes to download was uploaded before. */
  lemma SoughtWasUploaded(e: Env, states: seq<State>, acts: seq<Action>, k: nat) returns (u: nat)
    requires IsHashedRun(e, states, acts) && states[0] == EMPTY && Downloads(states, acts, k)
    ensures u < k && Uploads(states, acts, u, Sought(states, acts, k))
  {
    RunIsTraced(e, states, acts, k);
    SoughtIsRoot(e, states, acts, k);
    assert SectionTraced(states, acts, k, states[k].sections[acts[k].caller]);
    u :| u < k && Uploads(states, acts, u, Sought(states, acts, k));
  }

  // ----- Both runs together -----

  /**
   A run of the catalog and a run of the network. home gives the node on which a caller runs, and
   when[k] the network step in which step k of the catalog does its upload or its download.
   */
  datatype System = System(states: seq<State>, acts: seq<Action>, worlds: seq<N.World>, moves: seq<N.Action>,
                           home: string -> string, when: seq<nat>)

  /** The new catalog is what the caller's node uploads. */
  ghost predicate UploadLinked(y: System, k: nat) {
    && k < |y.acts| && k < |y.states| && k < |y.when| && y.acts[k].AddFile? && y.when[k] < |y.moves|
    && y.moves[y.when[k]].Upload? && y.moves[y.when[k]].at == y.home(y.acts[k].caller)
    && Uploads(y.states, y.acts, k, y.moves[y.when[k]].file)
  }

  /** The old one is what it downloads. */
  ghost predicate DownloadLinked(e: Env, y: System, k: nat) {
    && Downloads(y.states, y.acts, k) && k < |y.when| && y.when[k] < |y.moves| && y.when[k] < |y.worlds|
    && y.moves[y.when[k]].Download? && y.moves[y.when[k]].at == y.home(y.acts[k].caller)
    && N.Runs(y.worlds[y.when[k]], y.home(y.acts[k].caller))
    && IsSameReading(e, y.worlds[y.when[k]].nodes[y.home(y.acts[k].caller)], y.acts[k], y.moves[y.when[k]])
    && y.moves[y.when[k]].root == y.states[k].sections[y.acts[k].caller].stage.pointer
  }

  ghost predicate IsSameReading(e: Env, n: N.Member, a: Action, m: N.Action)
    requires a.Fetch? && m.Download?
  {
    && a.net == m.remote.get && a.store == n.store
    && IsReading(e, m.remote, n.peers, n.table, n.grpc, n.store, m.root, m.outcome, a.rootProvs, a.lookups)
  }

  ghost predicate Linked(e: Env, y: System, k: nat) {
    && (k < |y.acts| && y.acts[k].AddFile? ==> UploadLinked(y, k))
    && (Downloads(y.states, y.acts, k) ==> DownloadLinked(e, y, k))
  }

  ghost predicate IsSystem(e: Env, y: System) {
    && IsHashedRun(e, y.states, y.acts) && y.states[0] == EMPTY
    && N.IsRun(e, y.worlds, y.moves) && N.Inv(e, y.worlds[0])
    && |y.when| == |y.acts| && InOrder(y)
    && forall k: nat | k < |y.acts| :: Linked(e, y, k)
  }

  ghost predicate InOrder(y: System) {
    forall k, l | 0 <= k < l < |y.when| :: y.when[k] <= y.when[l]
  }

  /**
   The node that uploaded the catalog in step u is the one that downloads it in step k, or it is up,
   listed and responds; other nodes may be down, and calls to them may fail.
   */
  ghost predicate Supports(e: Env, y: System, u: nat, k: nat) {
    && UploadLinked(y, u) && DownloadLinked(e, y, k)
    && Uploads(y.states, y.acts, u, Sought(y.states, y.acts, k))
    && Reaches(e, y.worlds[y.when[k]], y.home(y.acts[k].caller), y.home(y.acts[u].caller),
               y.moves[y.when[k]].remote, Sought(y.states, y.acts, k))
  }

  ghost predicate Reaches(e: Env, w: N.World, reader: string, holder: string, remote: Remote, file: Bytes)
    requires reader in w.nodes
  {
    && A.AllGenuine(e, w, w.nodes[reader], remote, file)
    && (reader == holder
        || exists id :: A.Listed(w, w.nodes[reader], id, holder) && A.RespondsToAll(e, w, remote, file, id, holder))
  }

  /** What a node uploads is read exactly by whoever reaches that node. */
  lemma UploadIsRead(e: Env, worlds: seq<N.World>, moves: seq<N.Action>, i: nat, j: nat)
    requires e.Valid() && N.IsRun(e, worlds, moves) && N.Inv(e, worlds[0]) && i < j < |moves|
    requires moves[i].Upload? && NoSecondPreimage(e, BlockSet(e, moves[i].file))
    requires moves[j].Download? && moves[j].root == RootCid(e, moves[i].file) && N.Runs(worlds[j], moves[j].at)
    requires Reaches(e, worlds[j], moves[j].at, moves[i].at, moves[j].remote, moves[i].file)
    ensures moves[j].outcome.ok && moves[j].outcome.written == moves[i].file
  {
    var w, n, file := worlds[j], worlds[j].nodes[moves[j].at], moves[i].file;
    if moves[i].at == moves[j].at {
      A.UploaderSuffices(e, worlds, moves, i, j, "");
    } else {
      var id :| A.Listed(w, n, id, moves[i].at) && A.RespondsToAll(e, w, moves[j].remote, file, id, moves[i].at);
      A.UploaderSuffices(e, worlds, moves, i, j, id);
    }
  }

  lemma UploadComesFirst(y: System, u: nat, k: nat)
    requires InOrder(y) && u < k < |y.when| && y.when[u] < |y.moves| && y.when[k] < |y.moves|
    requires y.moves[y.when[u]].Upload? && y.moves[y.when[k]].Download?
    ensures y.when[u] < y.when[k]
  {
    assert y.when[u] <= y.when[k];
  }

  lemma UploadedIsRead(e: Env, y: System, u: nat, k: nat)
    requires IsSystem(e, y) && u < k && Supports(e, y, u, k)
    ensures
      var m := y.moves[y.when[k]];
      m.Download? && m.outcome.ok && m.outcome.written == Sought(y.states, y.acts, k)
  {
    SoughtIsRoot(e, y.states, y.acts, k);
    UploadComesFirst(y, u, k);
    UploadIsRead(e, y.worlds, y.moves, y.when[u], y.when[k]);
  }

  /** No such download fails: the caller goes on with exactly the catalog whose pointer it has read. */
  lemma SupportedFetchSucceeds(e: Env, y: System, u: nat, k: nat)
    requires IsSystem(e, y) && u < k && Supports(e, y, u, k)
    ensures
      var s, c := y.states[k], y.acts[k].caller;
      y.states[k + 1] == Moved(s, c, HasContent(Sought(y.states, y.acts, k), s.sections[c].stage.draft))
  {
    UploadedIsRead(e, y, u, k);
    assert NextAt(e, y.states, y.acts, k);
  }

  // ----- Nothing is lost -----

  ghost predicate Supported(e: Env, y: System, k: nat) {
    exists u: nat :: u < k && Supports(e, y, u, k)
  }

  /** The pointer is always read, and every catalog is downloaded while a node that uploaded it is at hand. */
  ghost predicate AllSupported(e: Env, y: System) {
    && (forall k: nat | Downloads(y.states, y.acts, k) :: Supported(e, y, k))
    && (forall k | 0 <= k < |y.acts| && y.acts[k].ReadPointer? :: y.acts[k].ok)
  }

  /** No caller has started over. */
  ghost predicate NoneAnew(s: State) {
    forall c | Drafting(s, c) :: !DraftOf(s, c).anew
  }

  lemma MoveKeepsNoneAnew(s: State, c: string, stage: Stage)
    requires NoneAnew(s) && At(s, c) && (HasDraft(stage) ==> !stage.draft.anew)
    ensures NoneAnew(Moved(s, c, stage))
  {
    var s' := Moved(s, c, stage);
    forall d | Drafting(s', d) ensures !DraftOf(s', d).anew {
      assert d != c ==> Drafting(s, d);
    }
  }

  lemma OthersKeepNoneAnew(e: Env, s: State, a: Action, s': State)
    requires NoneAnew(s) && Next(e, s, a, s') && !a.Fetch? && (a.ReadPointer? ==> a.ok)
    ensures NoneAnew(s')
  {
    forall d | Drafting(s', d) ensures !DraftOf(s', d).anew {
      if !a.ReadPointer? || a.caller != d {
        assert Drafting(s, d) && DraftOf(s, d) == DraftOf(s', d);
      }
    }
  }

  lemma FetchKeepsNoneAnew(e: Env, y: System, k: nat)
    requires IsSystem(e, y) && AllSupported(e, y) && k < |y.acts| && y.acts[k].Fetch?
    requires NoneAnew(y.states[k])
    ensures NoneAnew(y.states[k + 1])
  {
    var s, c := y.states[k], y.acts[k].caller;
    assert NextAt(e, y.states, y.acts, k);
    assert Drafting(s, c);
    if Downloads(y.states, y.acts, k) {
      assert Supported(e, y, k);
      var u: nat :| u < k && Supports(e, y, u, k);
      SupportedFetchSucceeds(e, y, u, k);
    }
    MoveKeepsNoneAnew(s, c, y.states[k + 1].sections[c].stage);
  }

  lemma {:induction false} NobodyStartsOver(e: Env, y: System, j: nat)
    requires IsSystem(e, y) && AllSupported(e, y) && j <= |y.acts|
    ensures NoneAnew(y.states[j])
  {
    if j > 0 {
      NobodyStartsOver(e, y, j - 1);
      if y.acts[j - 1].Fetch? {
        FetchKeepsNoneAnew(e, y, j - 1);
      } else {
        assert NextAt(e, y.states, y.acts, j - 1);
        OthersKeepNoneAnew(e, y.states[j - 1], y.acts[j - 1], y.states[j]);
      }
    }
  }

  /** A call that ends without its entry in the catalog: it gives up or dies, or cannot move the pointer. */
  predicate GivesUp(s: State, a: Action) {
    || a.Abort? || (a.SetPointer? && !a.ok)
    || (a.Drop? && At(s, a.caller) && !s.sections[a.caller].stage.Finished?)
  }

  lemma LossIsGivingUp(e: Env, y: System, i: nat)
    requires IsSystem(e, y) && AllSupported(e, y) && IsTimelyRun(e, y.states, y.acts) && i < |y.acts|
    ensures Loses(y.states[i], y.acts[i]) <==> GivesUp(y.states[i], y.acts[i])
  {
    EmptyKeepsInv(y.states[0]);
    RunIsExclusive(e, y.states, y.acts, i);
    NobodyStartsOver(e, y, i);
  }

  /**
   The catalog is as available as its uploaders: when sections end in time, and each catalog is
   downloaded while a node that uploaded it runs, responds and is listed by the caller, the catalog
   with the entry under way is the list of all entries whose callers got the lock, if and only if no
   call gave up.
   */
  lemma NothingIsLostIff(e: Env, y: System, j: nat)
    requires IsSystem(e, y) && AllSupported(e, y) && IsTimelyRun(e, y.states, y.acts) && j <= |y.acts|
    ensures y.states[j].log + Pending(y.states[j]) == Opened(y.acts[..j]) <==>
            forall i | 0 <= i < j :: !GivesUp(y.states[i], y.acts[i])
  {
    CatalogIsCompleteIff(e, y.states, y.acts, j);
    forall i | 0 <= i < j ensures Loses(y.states[i], y.acts[i]) <==> GivesUp(y.states[i], y.acts[i]) {
      LossIsGivingUp(e, y, i);
    }
  }
}
