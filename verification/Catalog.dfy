/**
 The global catalog with Redis (UpdateGlobalCatalog in internal/coordinator/node.go): a
 read-modify-write of a shared pointer to an immutable file, under a lock that expires after 10 s
 and that every caller deletes when done, whoever holds it by then.
 */
module Catalog {
  import opened Wrappers
  import opened Content
  import opened FailureDetector
  import opened Providers
  import opened Transfer

  const LOCK_TTL := 10 * SECOND

  datatype Lease = Lease(holder: string, expiry: int)

  /**
   What a caller builds on: the entries of the catalog it read, and how often the pointer had been
   moved by then. anew: it could not read the previous catalog and starts a new one.
   */
  datatype Draft = Draft(base: seq<Bytes>, version: nat, anew: bool)

  /** How far a caller is. */
  datatype Stage =
    | Locked
    | HasPointer(pointer: Cid, draft: Draft)
    | HasContent(content: Bytes, draft: Draft)
    | HasUploaded(cid: Cid, draft: Draft)
    | Finished

  datatype Section = Section(entry: Bytes, since: int, stage: Stage)

  /**
   sections are the calls between SetNX and Del. Two histories: log is the entries the catalog is
   made of, published all entries ever put into it, in the order in which the pointer moved.
   */
  datatype State = State(now: int, lock: Option<Lease>, pointer: Cid, sections: map<string, Section>,
                         log: seq<Bytes>, published: seq<Bytes>)

  /**
   The flag of a Redis call is whether it takes effect. Drop is a caller that dies inside, or whose
   Del fails; GrabUnseen a SetNX that takes effect while the caller sees an error; LateDel a Del that
   takes effect when its caller has returned already.
   */
  datatype Action =
    | Tick(to: int)
    | Acquire(caller: string, entry: Bytes)
    | ReadPointer(caller: string, ok: bool)
    | Fetch(caller: string, net: Net, rootProvs: seq<Endpoint>, lookups: seq<seq<Endpoint>>, store: Store)
    | AddFile(caller: string)
    | Abort(caller: string)
    | SetPointer(caller: string, ok: bool)
    | Release(caller: string)
    | Drop(caller: string)
    | GrabUnseen(caller: string)
    | LateDel

  predicate Expired(s: State) {
    s.lock.None? || s.now >= s.lock.value.expiry
  }

  predicate At(s: State, caller: string) {
    caller in s.sections
  }

  predicate HasDraft(stage: Stage) {
    stage.HasPointer? || stage.HasContent? || stage.HasUploaded?
  }

  predicate Drafting(s: State, caller: string) {
    At(s, caller) && HasDraft(s.sections[caller].stage)
  }

  function DraftOf(s: State, caller: string): Draft
    requires Drafting(s, caller)
  {
    s.sections[caller].stage.draft
  }

  function Moved(s: State, caller: string, stage: Stage): State
    requires At(s, caller)
  {
    s.(sections := s.sections[caller := s.sections[caller].(stage := stage)])
  }

  /** The state after SetNX. An entry is a formatted line, so it is never empty. */
  function Entered(s: State, c: string, entry: Bytes): State {
    s.(lock := Some(Lease(c, s.now + LOCK_TTL)),
       sections := s.sections[c := Section(entry, s.now, Locked)])
  }

  function AfterRead(s: State, ok: bool): Stage {
    HasPointer(if ok then s.pointer else "", Draft(if ok then s.log else [], |s.published|, !ok))
  }

  /** What a caller has after trying to download the catalog behind the pointer it read. */
  function AfterFetch(e: Env, stage: Stage, net: Net, rootProvs: seq<Endpoint>, lookups: seq<seq<Endpoint>>,
                      store: Store): Stage
    requires stage.HasPointer?
  {
    if stage.pointer == "" then HasContent("", stage.draft)
    else
      var o := GetFile(e, net, rootProvs, lookups, store, stage.pointer);
      if o.ok then HasContent(o.written, stage.draft)
      else HasContent("", stage.draft.(base := [], anew := true))
  }

  /** The state after the pointer has moved to what the caller uploaded. */
  function Published(s: State, c: string): State
    requires At(s, c) && s.sections[c].stage.HasUploaded?
  {
    var section := s.sections[c];
    Moved(s, c, Finished).(pointer := section.stage.cid,
                           log := section.stage.draft.base + [section.entry],
                           published := s.published + [section.entry])
  }

  ghost predicate Next(e: Env, s: State, a: Action, s': State) {
    match a
    case Tick(to) => to >= s.now && s' == s.(now := to)
    case Acquire(c, entry) => !At(s, c) && Expired(s) && entry != "" && s' == Entered(s, c, entry)
    case ReadPointer(c, ok) => At(s, c) && s.sections[c].stage.Locked? && s' == Moved(s, c, AfterRead(s, ok))
    case Fetch(c, net, rootProvs, lookups, store) =>
      && At(s, c) && s.sections[c].stage.HasPointer? && Verified(e, store)
      && s' == Moved(s, c, AfterFetch(e, s.sections[c].stage, net, rootProvs, lookups, store))
    case AddFile(c) =>
      && At(s, c) && s.sections[c].stage.HasContent?
      && s' == Moved(s, c, HasUploaded(RootCid(e, s.sections[c].stage.content + s.sections[c].entry),
                                       s.sections[c].stage.draft))
    case Abort(c) => At(s, c) && s.sections[c].stage.HasContent? && s' == Moved(s, c, Finished)
    case SetPointer(c, ok) =>
      && At(s, c) && s.sections[c].stage.HasUploaded?
      && s' == if ok then Published(s, c) else Moved(s, c, Finished)
    case Release(c) =>
      && At(s, c) && s.sections[c].stage.Finished?
      && s' == s.(lock := None, sections := s.sections - {c})
    case Drop(c) => At(s, c) && s' == s.(sections := s.sections - {c})
    case GrabUnseen(c) => Expired(s) && s' == s.(lock := Some(Lease(c, s.now + LOCK_TTL)))
    case LateDel => s' == s.(lock := None)
  }

  ghost predicate NextAt(e: Env, states: seq<State>, acts: seq<Action>, i: nat) {
    i < |acts| && i + 1 < |states| && Next(e, states[i], acts[i], states[i + 1])
  }

  /** A run under no assumption on time. */
  ghost predicate IsRun(e: Env, states: seq<State>, acts: seq<Action>) {
    |states| == |acts| + 1 && forall i: nat | i < |acts| :: NextAt(e, states, acts, i)
  }

  /** Nobody is inside, and there is no catalog. */
  const EMPTY := State(0, None, "", map[], [], [])

  function Size(log: seq<Bytes>): nat {
    |Join(log)|
  }

  lemma SizeOfOneMore(log: seq<Bytes>, entry: Bytes)
    ensures Size(log + [entry]) == Size(log) + |entry|
  {
    JoinLast(log, entry);
  }

  ghost predicate NoneEmpty(log: seq<Bytes>) {
    forall b | b in log :: b != ""
  }

  lemma {:induction false} PrefixIsSmaller(log: seq<Bytes>, n: nat)
    requires n < |log| && NoneEmpty(log)
    ensures Size(log[..n]) < Size(log)
  {
    var front, last := log[..|log| - 1], log[|log| - 1];
    assert log == front + [last] && last in log;
    SizeOfOneMore(front, last);
    if n < |front| {
      assert forall b | b in front :: b in log;
      PrefixIsSmaller(front, n);
      assert front[..n] == log[..n];
    } else {
      assert log[..n] == front;
    }
  }

  // ----- When the catalog is all that was published, at any speed -----

  /** A caller moves the pointer although it was moved since it read it, or drops a catalog it could not read. */
  predicate Overwrites(s: State, a: Action) {
    && a.SetPointer? && a.ok && Drafting(s, a.caller)
    && (|| DraftOf(s, a.caller).version != |s.published|
        || (DraftOf(s, a.caller).anew && s.log != []))
  }

  predicate OverwritesSoFar(states: seq<State>, acts: seq<Action>, j: nat)
    requires j <= |acts| < |states|
  {
    exists i | 0 <= i < j :: Overwrites(states[i], acts[i])
  }

  lemma OverwritesOneMore(states: seq<State>, acts: seq<Action>, i: nat)
    requires i < |acts| < |states|
    ensures OverwritesSoFar(states, acts, i + 1) <==>
            OverwritesSoFar(states, acts, i) || Overwrites(states[i], acts[i])
  {}

  /** A draft holds no more than was published when it was read, and exactly the log if nothing has been since. */
  ghost predicate DraftFits(s: State, d: Draft) {
    && d.version <= |s.published|
    && Size(d.base) <= Size(s.published[..d.version])
    && (d.anew ==> d.base == [])
    && (d.version == |s.published| && !d.anew ==> d.base == s.log)
  }

  ghost predicate DraftsFit(s: State) {
    && (forall c | Drafting(s, c) :: DraftFits(s, DraftOf(s, c)))
    && (forall c | At(s, c) :: s.sections[c].entry != "")
  }

  /** clean: nothing has been overwritten so far. */
  ghost predicate Tally(s: State, clean: bool) {
    && NoneEmpty(s.published) && (s.log != [] ==> Size(s.log) > 0)
    && (if clean then s.log == s.published else Size(s.log) < Size(s.published))
    && DraftsFit(s)
  }

  lemma MoveKeepsDrafts(s: State, c: string, stage: Stage)
    requires DraftsFit(s) && At(s, c) && (HasDraft(stage) ==> DraftFits(s, stage.draft))
    ensures DraftsFit(Moved(s, c, stage))
  {
    var s' := Moved(s, c, stage);
    forall d | Drafting(s', d) ensures DraftFits(s', DraftOf(s', d)) {
      assert d != c ==> Drafting(s, d) && DraftFits(s, DraftOf(s, d));
    }
    forall d | At(s', d) ensures s'.sections[d].entry != "" {
      assert At(s, d);
    }
  }

  lemma ReadFits(s: State, ok: bool, clean: bool)
    requires Tally(s, clean)
    ensures DraftFits(s, AfterRead(s, ok).draft)
  {
    assert s.published[..|s.published|] == s.published;
  }

  /** Drafts read before a publication are out of date after it. */
  lemma PublicationAgesDrafts(s: State, d: Draft, entry: Bytes, log: seq<Bytes>)
    requires DraftFits(s, d)
    ensures DraftFits(s.(log := log, published := s.published + [entry]), d)
  {
    assert (s.published + [entry])[..d.version] == s.published[..d.version];
  }

  lemma PublicationKeepsDrafts(s: State, c: string)
    requires DraftsFit(s) && At(s, c) && s.sections[c].stage.HasUploaded?
    ensures DraftsFit(Published(s, c))
  {
    var s', entry := Published(s, c), s.sections[c].entry;
    forall d | Drafting(s', d) ensures DraftFits(s', DraftOf(s', d)) {
      assert Drafting(s, d) && DraftOf(s', d) == DraftOf(s, d);
      PublicationAgesDrafts(s, DraftOf(s, d), entry, s'.log);
    }
    forall d | At(s', d) ensures s'.sections[d].entry != "" {
      assert At(s, d);
    }
  }

  /** A draft that is out of date, or that drops a catalog, is smaller than what has been published. */
  lemma OverwritingIsSmaller(s: State, d: Draft, clean: bool)
    requires Tally(s, clean) && DraftFits(s, d)
    requires d.version != |s.published| || (d.anew && s.log != [])
    ensures Size(d.base) < Size(s.published)
  {
    if d.version != |s.published| {
      PrefixIsSmaller(s.published, d.version);
    }
  }

  lemma PublicationTallies(s: State, c: string, clean: bool)
    requires Tally(s, clean) && At(s, c) && s.sections[c].stage.HasUploaded?
    ensures Tally(Published(s, c), clean && !Overwrites(s, SetPointer(c, true)))
  {
    var d, entry := DraftOf(s, c), s.sections[c].entry;
    assert DraftFits(s, d) && entry != "" by {
      assert Drafting(s, c);
    }
    SizeOfOneMore(d.base, entry);
    SizeOfOneMore(s.published, entry);
    PublicationKeepsDrafts(s, c);
    if Overwrites(s, SetPointer(c, true)) {
      OverwritingIsSmaller(s, d, clean);
    } else {
      assert d.base == s.log;
    }
  }

  lemma DropKeepsDrafts(s: State, s': State)
    requires DraftsFit(s) && s'.log == s.log && s'.published == s.published
    requires forall c | At(s', c) :: At(s, c) && s'.sections[c] == s.sections[c]
    ensures DraftsFit(s')
  {
    forall c | Drafting(s', c) ensures DraftFits(s', DraftOf(s', c)) {
      assert At(s', c) && Drafting(s, c) && DraftFits(s, DraftOf(s, c));
    }
  }

  lemma EnterKeepsDrafts(s: State, c: string, entry: Bytes)
    requires DraftsFit(s) && entry != ""
    ensures DraftsFit(Entered(s, c, entry))
  {
    var s' := Entered(s, c, entry);
    forall d | Drafting(s', d) ensures DraftFits(s', DraftOf(s', d)) {
      assert d != c && Drafting(s, d) && DraftFits(s, DraftOf(s, d));
    }
    forall d | At(s', d) ensures s'.sections[d].entry != "" {
      assert d != c ==> At(s, d);
    }
  }

  lemma StageTallies(e: Env, s: State, a: Action, s': State, clean: bool)
    requires a.ReadPointer? || a.Fetch? || a.AddFile? || a.Abort?
    requires Next(e, s, a, s') && Tally(s, clean)
    ensures Tally(s', clean)
  {
    var c := a.caller;
    if a.ReadPointer? {
      ReadFits(s, a.ok, clean);
    } else {
      assert Drafting(s, c) && DraftFits(s, DraftOf(s, c));
    }
    MoveKeepsDrafts(s, c, s'.sections[c].stage);
  }

  lemma NextTallies(e: Env, s: State, a: Action, s': State, clean: bool)
    requires Next(e, s, a, s') && Tally(s, clean)
    ensures Tally(s', clean && !Overwrites(s, a))
  {
    match a {
      case SetPointer(c, ok) =>
        if ok {
          PublicationTallies(s, c, clean);
        } else {
          MoveKeepsDrafts(s, c, Finished);
        }
      case Acquire(c, entry) => EnterKeepsDrafts(s, c, entry);
      case Tick(_) => DropKeepsDrafts(s, s');
      case Release(_) => DropKeepsDrafts(s, s');
      case Drop(_) => DropKeepsDrafts(s, s');
      case GrabUnseen(_) => DropKeepsDrafts(s, s');
      case LateDel => DropKeepsDrafts(s, s');
      case _ => StageTallies(e, s, a, s', clean);
    }
  }

  lemma TallyStep(e: Env, states: seq<State>, acts: seq<Action>, j: nat, clean: bool)
    requires IsRun(e, states, acts) && 0 < j <= |acts|
    ensures Tally(states[j - 1], clean) ==> Tally(states[j], clean && !Overwrites(states[j - 1], acts[j - 1]))
  {
    assert NextAt(e, states, acts, j - 1);
    if Tally(states[j - 1], clean) {
      NextTallies(e, states[j - 1], acts[j - 1], states[j], clean);
    }
  }

  lemma {:induction false} RunTallies(e: Env, states: seq<State>, acts: seq<Action>, j: nat)
    requires IsRun(e, states, acts) && states[0] == EMPTY && j <= |acts|
    ensures Tally(states[j], !OverwritesSoFar(states, acts, j))
  {
    if j > 0 {
      RunTallies(e, states, acts, j - 1);
      TallyStep(e, states, acts, j, !OverwritesSoFar(states, acts, j - 1));
      OverwritesOneMore(states, acts, j - 1);
    }
  }

  function PointerOf(e: Env, log: seq<Bytes>): Cid {
    if log == [] then "" else RootCid(e, Join(log))
  }

  /** What a caller has is what its draft says. */
  ghost predicate Builds(e: Env, section: Section) {
    match section.stage
    case HasPointer(p, d) => p == PointerOf(e, d.base)
    case HasContent(content, d) => content == Join(d.base)
    case HasUploaded(cid, d) => cid == RootCid(e, Join(d.base) + section.entry)
    case _ => true
  }

  ghost predicate Consistent(e: Env, s: State) {
    && s.pointer == PointerOf(e, s.log)
    && forall c | At(s, c) :: Builds(e, s.sections[c])
  }

  /** Nothing but its own blocks hashes to the blocks of a catalog that a caller is about to read. */
  ghost predicate Hashed(e: Env, s: State) {
    && e.Valid()
    && forall c | At(s, c) && s.sections[c].stage.HasPointer? ::
         NoSecondPreimage(e, BlockSet(e, Join(s.sections[c].stage.draft.base)))
  }

  ghost predicate HashedAt(e: Env, states: seq<State>, i: nat) {
    i < |states| && Hashed(e, states[i])
  }

  ghost predicate IsHashedRun(e: Env, states: seq<State>, acts: seq<Action>) {
    IsRun(e, states, acts) && forall i: nat | i < |acts| :: HashedAt(e, states, i)
  }

  /** A successful download of the catalog is exact, whatever the providers answer. */
  lemma FetchIsExact(e: Env, section: Section, net: Net, rootProvs: seq<Endpoint>, lookups: seq<seq<Endpoint>>,
                     store: Store)
    requires e.Valid() && Builds(e, section) && section.stage.HasPointer? && Verified(e, store)
    requires NoSecondPreimage(e, BlockSet(e, Join(section.stage.draft.base)))
    ensures
      var got := AfterFetch(e, section.stage, net, rootProvs, lookups, store);
      && got.content == Join(got.draft.base)
      && (got.draft == section.stage.draft || (got.draft.base == [] && got.draft.anew))
  {
    var base := section.stage.draft.base;
    assert IsCid(RootCid(e, Join(base)));
    if section.stage.pointer != "" {
      GetFileIntegrity(e, net, rootProvs, lookups, store, Join(base));
    }
  }

  lemma MoveIsConsistent(e: Env, s: State, c: string, stage: Stage)
    requires Consistent(e, s) && At(s, c)
    ensures Builds(e, s.sections[c].(stage := stage)) ==> Consistent(e, Moved(s, c, stage))
  {
    if Builds(e, s.sections[c].(stage := stage)) {
      var s' := Moved(s, c, stage);
      forall d | At(s', d) ensures Builds(e, s'.sections[d]) {
        assert At(s, d) && Builds(e, s.sections[d]);
      }
    }
  }

  lemma ReadIsConsistent(e: Env, s: State, c: string, ok: bool)
    requires Consistent(e, s) && At(s, c)
    ensures Consistent(e, Moved(s, c, AfterRead(s, ok)))
  {
    MoveIsConsistent(e, s, c, AfterRead(s, ok));
  }

  lemma FetchedIsConsistent(e: Env, s: State, a: Action, s': State)
    requires Consistent(e, s) && Hashed(e, s) && a.Fetch? && Next(e, s, a, s')
    ensures Consistent(e, s')
  {
    assert Builds(e, s.sections[a.caller]);
    FetchIsExact(e, s.sections[a.caller], a.net, a.rootProvs, a.lookups, a.store);
    MoveIsConsistent(e, s, a.caller, s'.sections[a.caller].stage);
  }

  lemma AddedIsConsistent(e: Env, s: State, c: string, s': State)
    requires Consistent(e, s) && Next(e, s, AddFile(c), s')
    ensures Consistent(e, s')
  {
    assert Builds(e, s.sections[c]);
    MoveIsConsistent(e, s, c, s'.sections[c].stage);
  }

  lemma PublishedIsConsistent(e: Env, s: State, c: string)
    requires Consistent(e, s) && At(s, c) && s.sections[c].stage.HasUploaded?
    ensures Consistent(e, Published(s, c))
  {
    assert Builds(e, s.sections[c]);
    JoinLast(s.sections[c].stage.draft.base, s.sections[c].entry);
    MoveIsConsistent(e, s, c, Finished);
    var s', moved := Published(s, c), Moved(s, c, Finished);
    forall d | At(s', d) ensures Builds(e, s'.sections[d]) {
      assert At(moved, d) && Builds(e, moved.sections[d]);
    }
  }

  lemma SmallerIsConsistent(e: Env, s: State, s': State)
    requires Consistent(e, s) && s'.log == s.log && s'.pointer == s.pointer
    requires forall c | At(s', c) :: (At(s, c) && s'.sections[c] == s.sections[c]) || s'.sections[c].stage.Locked?
    ensures Consistent(e, s')
  {
    forall c | At(s', c) ensures Builds(e, s'.sections[c]) {
      assert At(s, c) ==> Builds(e, s.sections[c]);
    }
  }

  lemma NextIsConsistent(e: Env, s: State, a: Action, s': State)
    requires Consistent(e, s) && Hashed(e, s) && Next(e, s, a, s')
    ensures Consistent(e, s')
  {
    match a {
      case ReadPointer(c, ok) => ReadIsConsistent(e, s, c, ok);
      case Fetch(_, _, _, _, _) => FetchedIsConsistent(e, s, a, s');
      case AddFile(c) => AddedIsConsistent(e, s, c, s');
      case Abort(c) => MoveIsConsistent(e, s, c, Finished);
      case SetPointer(c, ok) =>
        if ok {
          PublishedIsConsistent(e, s, c);
        } else {
          MoveIsConsistent(e, s, c, Finished);
        }
      case _ => SmallerIsConsistent(e, s, s');
    }
  }

  lemma ConsistentStep(e: Env, states: seq<State>, acts: seq<Action>, j: nat)
    requires IsHashedRun(e, states, acts) && 0 < j < |states|
    ensures Consistent(e, states[j - 1]) ==> Consistent(e, states[j])
  {
    assert NextAt(e, states, acts, j - 1) && HashedAt(e, states, j - 1);
    if Consistent(e, states[j - 1]) {
      NextIsConsistent(e, states[j - 1], acts[j - 1], states[j]);
    }
  }

  /** In every run, however slow, the pointer is the root of the logged entries. */
  lemma {:induction false} PointerIsRootOfLog(e: Env, states: seq<State>, acts: seq<Action>, j: nat)
    requires IsHashedRun(e, states, acts) && states[0] == EMPTY && j < |states|
    ensures Consistent(e, states[j])
  {
    if j > 0 {
      PointerIsRootOfLog(e, states, acts, j - 1);
      ConsistentStep(e, states, acts, j);
    }
  }

  lemma PointersDiffer(e: Env, log: seq<Bytes>, longer: seq<Bytes>)
    requires e.Valid() && NoSecondPreimage(e, BlockSet(e, Join(log))) && Size(log) < Size(longer)
    ensures PointerOf(e, log) != PointerOf(e, longer)
  {
    assert longer != [];
    assert IsCid(RootCid(e, Join(longer)));
    RootCommitment(e, Join(log), Join(longer));
  }

  /**
   No entry is ever lost, in every run at any speed and with any failed calls: the pointer is the
   root of all published entries, in the order of publication, if and only if no caller moved a
   pointer that had been moved since it read it, or started over on a catalog that had entries.
   */
  lemma CatalogIsAllPublishedIff(e: Env, states: seq<State>, acts: seq<Action>, j: nat)
    requires IsHashedRun(e, states, acts) && states[0] == EMPTY && j <= |acts|
    requires e.Valid() && NoSecondPreimage(e, BlockSet(e, Join(states[j].log)))
    ensures states[j].pointer == PointerOf(e, states[j].published) <==> !OverwritesSoFar(states, acts, j)
  {
    RunTallies(e, states, acts, j);
    PointerIsRootOfLog(e, states, acts, j);
    if OverwritesSoFar(states, acts, j) {
      PointersDiffer(e, states[j].log, states[j].published);
    }
  }
}
