/**
 The lock of the catalog: mutual exclusion when sections end in time, and then every entry of
 every caller exactly once.
 */
module CatalogLock {
  import opened Wrappers
  import opened Content
  import opened Catalog

  /** Every section under way is younger than its lock. */
  ghost predicate Timely(s: State) {
    forall c | At(s, c) :: s.now < s.sections[c].since + LOCK_TTL
  }

  ghost predicate TimelyAt(states: seq<State>, i: nat) {
    i < |states| && Timely(states[i])
  }

  /** Sections end in time, and no Del takes effect late. */
  ghost predicate IsTimelyRun(e: Env, states: seq<State>, acts: seq<Action>) {
    && IsRun(e, states, acts)
    && (forall i: nat | i < |acts| :: TimelyAt(states, i))
    && (forall i | 0 <= i < |acts| :: !acts[i].LateDel?)
  }

  ghost predicate AtMostOneInside(s: State) {
    forall c, d | At(s, c) && At(s, d) :: c == d
  }

  /** The caller inside holds the lock; a lock may be held for nobody until it expires. */
  ghost predicate LockIsHeld(s: State) {
    forall c | At(s, c) :: s.lock == Some(Lease(c, s.sections[c].since + LOCK_TTL))
  }

  /** What the caller inside builds on is the catalog as it is. */
  ghost predicate DraftsCurrent(s: State) {
    forall c | Drafting(s, c) :: IsCurrent(s, DraftOf(s, c))
  }

  predicate IsCurrent(s: State, d: Draft) {
    d.version == |s.published| && d.base == if d.anew then [] else s.log
  }

  ghost predicate Inv(s: State) {
    AtMostOneInside(s) && LockIsHeld(s) && DraftsCurrent(s)
  }

  /** A timely state grants the lock only when nobody is inside. */
  lemma ExpiredMeansEmpty(s: State)
    requires LockIsHeld(s) && Timely(s) && Expired(s)
    ensures forall d :: !At(s, d)
  {}

  lemma MoveKeepsInv(s: State, c: string, stage: Stage)
    requires Inv(s) && At(s, c) && (HasDraft(stage) ==> IsCurrent(s, stage.draft))
    ensures Inv(Moved(s, c, stage))
  {
    var s' := Moved(s, c, stage);
    forall d | At(s', d) ensures d == c {
      assert At(s, d);
    }
  }

  lemma EmptyKeepsInv(s: State)
    requires forall d :: !At(s, d)
    ensures Inv(s)
  {
    assert forall d :: !Drafting(s, d);
  }

  lemma AcquireKeepsInv(s: State, c: string, entry: Bytes)
    requires Inv(s) && Timely(s) && Expired(s)
    ensures Inv(Entered(s, c, entry))
  {
    ExpiredMeansEmpty(s);
    var s' := Entered(s, c, entry);
    forall d | At(s', d) ensures d == c && !Drafting(s', d) {
      assert !At(s, d);
    }
  }

  lemma LeaveKeepsInv(s: State, c: string, s': State)
    requires Inv(s) && At(s, c) && s'.sections == s.sections - {c}
    ensures Inv(s')
  {
    forall d ensures !At(s', d) {
      assert At(s', d) ==> At(s, d) && d != c;
    }
    EmptyKeepsInv(s');
  }

  lemma PublishKeepsInv(s: State, c: string)
    requires Inv(s) && At(s, c) && s.sections[c].stage.HasUploaded?
    ensures Inv(Published(s, c))
  {
    var s' := Published(s, c);
    forall d | At(s', d) ensures d == c && !Drafting(s', d) {
      assert At(s, d);
    }
  }

  lemma StageKeepsInv(e: Env, s: State, a: Action, s': State)
    requires a.ReadPointer? || a.Fetch? || a.AddFile? || a.Abort?
    requires Inv(s) && Next(e, s, a, s')
    ensures Inv(s')
  {
    assert a.ReadPointer? || Drafting(s, a.caller);
    MoveKeepsInv(s, a.caller, s'.sections[a.caller].stage);
  }

  lemma NextKeepsInv(e: Env, s: State, a: Action, s': State)
    requires Inv(s) && Timely(s) && !a.LateDel? && Next(e, s, a, s')
    ensures Inv(s')
  {
    match a {
      case Tick(to) => TickKeepsInv(s, to);
      case Acquire(c, entry) => AcquireKeepsInv(s, c, entry);
      case SetPointer(c, ok) =>
        if ok {
          PublishKeepsInv(s, c);
        } else {
          MoveKeepsInv(s, c, Finished);
        }
      case Release(c) => LeaveKeepsInv(s, c, s');
      case Drop(c) => LeaveKeepsInv(s, c, s');
      case GrabUnseen(c) =>
        ExpiredMeansEmpty(s);
        assert forall d :: At(s', d) ==> At(s, d);
        EmptyKeepsInv(s');
      case _ => StageKeepsInv(e, s, a, s');
    }
  }

  lemma TickKeepsInv(s: State, to: int)
    requires Inv(s)
    ensures Inv(s.(now := to))
  {
    var s' := s.(now := to);
    forall c | At(s', c) ensures At(s, c) && s'.sections[c] == s.sections[c] {}
    forall c | Drafting(s', c) ensures IsCurrent(s', DraftOf(s', c)) {
      assert Drafting(s, c);
    }
  }

  lemma InvStep(e: Env, states: seq<State>, acts: seq<Action>, j: nat)
    requires IsTimelyRun(e, states, acts) && 0 < j < |states|
    ensures Inv(states[j - 1]) ==> Inv(states[j])
  {
    assert NextAt(e, states, acts, j - 1) && TimelyAt(states, j - 1);
    if Inv(states[j - 1]) {
      NextKeepsInv(e, states[j - 1], acts[j - 1], states[j]);
    }
  }

  lemma {:induction false} RunKeepsInv(e: Env, states: seq<State>, acts: seq<Action>, j: nat)
    requires IsTimelyRun(e, states, acts) && Inv(states[0]) && j < |states|
    ensures Inv(states[j])
  {
    if j > 0 {
      RunKeepsInv(e, states, acts, j - 1);
      InvStep(e, states, acts, j);
    }
  }

  /**
   When every section ends before its lock expires and no Del takes effect late, at most one caller is
   ever inside, and it builds on the catalog as it is: callers may die, and locks may be left behind
   or never released.
   */
  lemma RunIsExclusive(e: Env, states: seq<State>, acts: seq<Action>, j: nat)
    requires IsTimelyRun(e, states, acts) && Inv(states[0]) && j < |states|
    ensures AtMostOneInside(states[j]) && DraftsCurrent(states[j])
  {
    RunKeepsInv(e, states, acts, j);
  }

  // ----- Every entry exactly once -----

  /** The entries of all calls that got the lock, in lock order. */
  function Opened(acts: seq<Action>): seq<Bytes> {
    if acts == [] then []
    else
      var a := acts[|acts| - 1];
      Opened(acts[..|acts| - 1]) + if a.Acquire? then [a.entry] else []
  }

  ghost predicate Unfinished(s: State, c: string) {
    At(s, c) && !s.sections[c].stage.Finished?
  }

  /** The entry under way, if any. */
  ghost function Pending(s: State): seq<Bytes> {
    if c :| Unfinished(s, c) then [s.sections[c].entry] else []
  }

  /** The steps that lose entries: a section that gives up or dies, or overwrites what others published. */
  predicate Loses(s: State, a: Action) {
    || a.Abort? || (a.SetPointer? && !a.ok) || Overwrites(s, a)
    || (a.Drop? && At(s, a.caller) && !s.sections[a.caller].stage.Finished?)
  }

  /** How many entries the catalog and the open section fall short of the entries opened. */
  ghost predicate Accounts(s: State, acts: seq<Action>, lossless: bool) {
    if lossless then Opened(acts) == s.log + Pending(s)
    else |s.log| + |Pending(s)| < |Opened(acts)|
  }

  lemma PendingIs(s: State, c: string)
    requires AtMostOneInside(s) && At(s, c)
    ensures Pending(s) == if s.sections[c].stage.Finished? then [] else [s.sections[c].entry]
  {
    assert forall d | Unfinished(s, d) :: d == c;
    if !s.sections[c].stage.Finished? {
      assert Unfinished(s, c);
    }
  }

  lemma NothingPending(s: State)
    requires forall c :: !At(s, c)
    ensures Pending(s) == []
  {}

  ghost predicate OneCurrent(s: State) {
    AtMostOneInside(s) && DraftsCurrent(s)
  }

  lemma LeaveAccounts(s: State, c: string, s': State)
    requires AtMostOneInside(s) && At(s, c) && s'.sections == s.sections - {c}
    ensures Pending(s') == [] && Pending(s) == if Unfinished(s, c) then [s.sections[c].entry] else []
  {
    PendingIs(s, c);
    forall d ensures !At(s', d) {
      assert At(s', d) ==> At(s, d) && d != c;
    }
    NothingPending(s');
  }

  lemma SameSectionsSamePending(s: State, s': State)
    requires AtMostOneInside(s) && s'.sections == s.sections
    ensures Pending(s') == Pending(s)
  {
    forall d ensures At(s', d) <==> At(s, d) {}
    if c :| At(s, c) {
      assert At(s', c);
      PendingIs(s, c);
      PendingIs(s', c);
    } else {
      NothingPending(s);
      NothingPending(s');
    }
  }

  lemma PublishAccounts(s: State, c: string, s': State, acts: seq<Action>, lossless: bool)
    requires OneCurrent(s) && AtMostOneInside(s') && Accounts(s, acts, lossless)
    requires At(s, c) && s.sections[c].stage.HasUploaded? && s' == Published(s, c)
    ensures Accounts(s', acts, lossless && !Overwrites(s, SetPointer(c, true)))
  {
    assert Drafting(s, c);
    PendingIs(s, c);
    PendingIs(s', c);
  }

  lemma AccountStep(e: Env, s: State, a: Action, s': State, acts: seq<Action>, lossless: bool)
    requires OneCurrent(s) && OneCurrent(s') && Next(e, s, a, s') && Accounts(s, acts, lossless)
    ensures Accounts(s', acts + [a], lossless && !Loses(s, a))
  {
    OpenedPlus(acts, a);
    match a {
      case Tick(_) => SameSectionsSamePending(s, s');
      case GrabUnseen(_) => SameSectionsSamePending(s, s');
      case LateDel => SameSectionsSamePending(s, s');
      case Acquire(c, _) =>
        PendingIs(s', c);
        forall d ensures !At(s, d) {
          assert At(s, d) ==> At(s', d) && At(s', c);
        }
        NothingPending(s);
      case Release(c) => LeaveAccounts(s, c, s');
      case Drop(c) => LeaveAccounts(s, c, s');
      case SetPointer(c, ok) =>
        if ok {
          PublishAccounts(s, c, s', acts, lossless);
        } else {
          PendingIs(s, c);
          PendingIs(s', c);
        }
      case _ =>
        PendingIs(s, a.caller);
        PendingIs(s', a.caller);
    }
  }

  lemma OpenedPlus(acts: seq<Action>, a: Action)
    ensures Opened(acts + [a]) == Opened(acts) + if a.Acquire? then [a.entry] else []
  {
    assert (acts + [a])[..|acts|] == acts;
  }

  predicate LosesSoFar(states: seq<State>, acts: seq<Action>, j: nat)
    requires j <= |acts| < |states|
  {
    exists i | 0 <= i < j :: Loses(states[i], acts[i])
  }

  lemma LosesOneMore(states: seq<State>, acts: seq<Action>, i: nat)
    requires i < |acts| < |states|
    ensures LosesSoFar(states, acts, i + 1) <==> LosesSoFar(states, acts, i) || Loses(states[i], acts[i])
  {}

  lemma AccountInRun(e: Env, states: seq<State>, acts: seq<Action>, i: nat)
    requires IsTimelyRun(e, states, acts) && Inv(states[0]) && i < |acts|
    requires Accounts(states[i], acts[..i], !LosesSoFar(states, acts, i))
    ensures Accounts(states[i + 1], acts[..i + 1], !LosesSoFar(states, acts, i + 1))
  {
    RunIsExclusive(e, states, acts, i);
    RunIsExclusive(e, states, acts, i + 1);
    LosesOneMore(states, acts, i);
    assert acts[..i + 1] == acts[..i] + [acts[i]];
    assert Next(e, states[i], acts[i], states[i + 1]) by {
      assert NextAt(e, states, acts, i);
    }
    AccountStep(e, states[i], acts[i], states[i + 1], acts[..i], !LosesSoFar(states, acts, i));
  }

  lemma {:induction false} RunAccounts(e: Env, states: seq<State>, acts: seq<Action>, j: nat)
    requires IsTimelyRun(e, states, acts) && states[0] == EMPTY && j <= |acts|
    ensures Accounts(states[j], acts[..j], !LosesSoFar(states, acts, j))
  {
    EmptyKeepsInv(states[0]);
    if j > 0 {
      RunAccounts(e, states, acts, j - 1);
      AccountInRun(e, states, acts, j - 1);
    } else {
      NothingPending(states[0]);
    }
  }

  /**
   Every entry exactly once, in lock order, when sections end in time: the catalog, with the entry
   under way, is the list of all entries whose callers got the lock, if and only if no section gave
   up or died, failed to move the pointer, or started over on a catalog that had entries.
   */
  lemma CatalogIsCompleteIff(e: Env, states: seq<State>, acts: seq<Action>, j: nat)
    requires IsTimelyRun(e, states, acts) && states[0] == EMPTY && j <= |acts|
    ensures states[j].log + Pending(states[j]) == Opened(acts[..j]) <==> !LosesSoFar(states, acts, j)
  {
    RunAccounts(e, states, acts, j);
  }

  /** Between sections of such a run the pointer is the root of the concatenation of all entries. */
  lemma CatalogIsConcatenation(e: Env, states: seq<State>, acts: seq<Action>, j: nat)
    requires IsTimelyRun(e, states, acts) && IsHashedRun(e, states, acts) && states[0] == EMPTY && j <= |acts|
    requires states[j].sections == map[] && !LosesSoFar(states, acts, j)
    ensures states[j].pointer == PointerOf(e, Opened(acts[..j]))
  {
    CatalogIsCompleteIff(e, states, acts, j);
    NothingPending(states[j]);
    assert states[j].log + [] == states[j].log;
    PointerIsRootOfLog(e, states, acts, j);
  }

  /** A second caller can get in beside the one inside exactly when that one has been there for 10 s (in ns). */
  lemma SecondCallerEntersIff(e: Env, s: State, holder: string, second: string, entry: Bytes)
    requires Inv(s) && At(s, holder) && second != holder && entry != ""
    ensures (exists s' :: Next(e, s, Acquire(second, entry), s') && At(s', holder) && At(s', second))
       <==> s.now >= s.sections[holder].since + 10_000_000_000
  {
    if s.now >= s.sections[holder].since + LOCK_TTL {
      var s' := Entered(s, second, entry);
      assert Next(e, s, Acquire(second, entry), s') && At(s', holder) && At(s', second);
    }
  }

  /**
   The slow caller's Del frees the lock of the caller that is inside by now, and any third caller can
   get in beside that one.
   */
  lemma SlowReleaseFreesOthersLock(e: Env, s: State, slow: string, s': State, third: string, entry: Bytes)
    returns (s2: State)
    requires Next(e, s, Release(slow), s') && s.lock.Some? && s.lock.value.holder != slow
    requires At(s, s.lock.value.holder) && !At(s', third) && entry != ""
    ensures At(s', s.lock.value.holder) && Expired(s')
    ensures Next(e, s', Acquire(third, entry), s2) && At(s2, s.lock.value.holder) && At(s2, third)
  {
    s2 := Entered(s', third, entry);
  }

  /** A late Del does the same to whoever is inside, however quick everyone is. */
  lemma LateDelFreesTheLock(e: Env, s: State, holder: string, s': State, second: string, entry: Bytes)
    returns (s2: State)
    requires Next(e, s, LateDel, s') && At(s, holder) && !At(s, second) && entry != ""
    ensures Next(e, s', Acquire(second, entry), s2) && At(s2, holder) && At(s2, second)
  {
    s2 := Entered(s', second, entry);
  }
}
