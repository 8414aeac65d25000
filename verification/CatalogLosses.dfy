/** Runs of the catalog that lose an entry, one for each way in which that can happen. */
module CatalogLosses {
  import opened Wrappers
  import opened Content
  import opened Transfer
  import opened Catalog
  import opened CatalogLock

  /** A step in which nobody gives up or dies, and every call to Redis takes effect once and in time. */
  predicate GoesWell(a: Action) {
    && !a.Abort? && !a.Drop? && !a.GrabUnseen? && !a.LateDel?
    && (a.ReadPointer? ==> a.ok) && (a.SetPointer? ==> a.ok)
  }

  /** A caller cannot download the catalog whose pointer it has read. */
  predicate FetchFails(e: Env, s: State, a: Action) {
    && a.Fetch? && At(s, a.caller) && s.sections[a.caller].stage.HasPointer?
    && s.sections[a.caller].stage.pointer != ""
    && !GetFile(e, a.net, a.rootProvs, a.lookups, a.store, s.sections[a.caller].stage.pointer).ok
  }

  /** Everything goes well in this step but, if i is in failed, a download. */
  predicate WellAt(e: Env, states: seq<State>, acts: seq<Action>, failed: set<nat>, i: nat) {
    i < |acts| && i < |states| && GoesWell(acts[i]) && (FetchFails(e, states[i], acts[i]) <==> i in failed)
  }

  /** A run in which everything goes well but the downloads in these steps. */
  ghost predicate IsGoodRun(e: Env, states: seq<State>, acts: seq<Action>, failed: set<nat>) {
    && IsRun(e, states, acts) && states[0] == EMPTY
    && forall i: nat | i < |acts| :: WellAt(e, states, acts, failed, i)
  }

  datatype Trail = Trail(states: seq<State>, acts: seq<Action>, failed: set<nat>) {
    function Last(): State
      requires |states| == |acts| + 1
    {
      states[|acts|]
    }
  }

  /** A good run so far; timely says whether all of it has been. */
  ghost predicate IsTrail(e: Env, t: Trail, timely: bool) {
    && IsGoodRun(e, t.states, t.acts, t.failed) && (forall i | i in t.failed :: i < |t.acts|)
    && (timely ==> forall i: nat | i < |t.states| :: TimelyAt(t.states, i))
  }

  function Then(e: Env, t: Trail, a: Action, s': State): Trail
    requires |t.states| == |t.acts| + 1
  {
    Trail(t.states + [s'], t.acts + [a], t.failed + if FetchFails(e, t.Last(), a) then {|t.acts|} else {})
  }

  lemma Extend(e: Env, t: Trail, a: Action, s': State, timely: bool)
    requires IsTrail(e, t, timely) && Next(e, t.Last(), a, s') && GoesWell(a) && (timely ==> Timely(s'))
    ensures IsTrail(e, Then(e, t, a, s'), timely)
  {
    var u := Then(e, t, a, s');
    forall i: nat | i < |u.acts| ensures NextAt(e, u.states, u.acts, i) {
      assert i < |t.acts| ==> NextAt(e, t.states, t.acts, i);
    }
    forall i: nat | i < |u.acts| ensures WellAt(e, u.states, u.acts, u.failed, i) {
      assert i < |t.acts| ==> WellAt(e, t.states, t.acts, t.failed, i);
    }
    if timely {
      forall i: nat | i < |u.states| ensures TimelyAt(u.states, i) {
        assert i < |t.states| ==> TimelyAt(t.states, i);
      }
    }
  }

  lemma LastIsTimely(e: Env, t: Trail, timely: bool)
    requires IsTrail(e, t, timely)
    ensures timely ==> Timely(t.Last())
  {
    assert timely ==> TimelyAt(t.states, |t.acts|);
  }

  /** A caller gets the lock and reads the pointer. */
  lemma Enter(e: Env, t: Trail, c: string, entry: Bytes, timely: bool) returns (u: Trail)
    requires IsTrail(e, t, timely) && Expired(t.Last()) && !At(t.Last(), c) && entry != ""
    ensures IsTrail(e, u, timely) && u.failed == t.failed
    ensures u.Last() == Moved(Entered(t.Last(), c, entry), c, AfterRead(t.Last(), true))
  {
    var s := t.Last();
    LastIsTimely(e, t, timely);
    Extend(e, t, Acquire(c, entry), Entered(s, c, entry), timely);
    u := Then(e, t, Acquire(c, entry), Entered(s, c, entry));
    var s' := Moved(Entered(s, c, entry), c, AfterRead(s, true));
    Extend(e, u, ReadPointer(c, true), s', timely);
    u := Then(e, u, ReadPointer(c, true), s');
  }

  /** A download from a network in which nobody answers. */
  function Unanswered(c: string): Action {
    Fetch(c, _ => None, [], [], map[])
  }

  /** The same caller cannot download anything, so it has no content. */
  lemma FetchNothing(e: Env, t: Trail, c: string, timely: bool) returns (u: Trail, d: Draft)
    requires IsTrail(e, t, timely) && At(t.Last(), c) && t.Last().sections[c].stage.HasPointer?
    requires t.Last().sections[c].stage.pointer == "" ==> t.Last().sections[c].stage.draft.base == []
    ensures IsTrail(e, u, timely) && d.base == [] && u.Last() == Moved(t.Last(), c, HasContent("", d))
    ensures u.failed == if t.Last().sections[c].stage.pointer == "" then t.failed else t.failed + {|t.acts|}
  {
    var s, a := t.Last(), Unanswered(c);
    var content := AfterFetch(e, s.sections[c].stage, a.net, [], [], map[]);
    d := content.draft;
    LastIsTimely(e, t, timely);
    Extend(e, t, a, Moved(s, c, content), timely);
    u := Then(e, t, a, Moved(s, c, content));
  }

  lemma AddAlone(e: Env, t: Trail, c: string, d: Draft, timely: bool) returns (u: Trail)
    requires IsTrail(e, t, timely) && At(t.Last(), c) && t.Last().sections[c].stage == HasContent("", d)
    ensures IsTrail(e, u, timely) && u.failed == t.failed
    ensures u.Last() == Moved(t.Last(), c, HasUploaded(RootCid(e, t.Last().sections[c].entry), d))
  {
    var s := t.Last();
    assert "" + s.sections[c].entry == s.sections[c].entry;
    var s' := Moved(s, c, HasUploaded(RootCid(e, s.sections[c].entry), d));
    LastIsTimely(e, t, timely);
    Extend(e, t, AddFile(c), s', timely);
    u := Then(e, t, AddFile(c), s');
  }

  lemma MovePointer(e: Env, t: Trail, c: string, timely: bool) returns (u: Trail)
    requires IsTrail(e, t, timely) && At(t.Last(), c) && t.Last().sections[c].stage.HasUploaded?
    ensures IsTrail(e, u, timely) && u.failed == t.failed && u.Last() == Published(t.Last(), c)
  {
    LastIsTimely(e, t, timely);
    Extend(e, t, SetPointer(c, true), Published(t.Last(), c), timely);
    u := Then(e, t, SetPointer(c, true), Published(t.Last(), c));
  }

  /** The state after a caller has published nothing but its own entry. */
  function PublishedAlone(e: Env, s: State, c: string): State
    requires At(s, c)
  {
    Moved(s, c, Finished).(pointer := RootCid(e, s.sections[c].entry), log := [s.sections[c].entry],
                           published := s.published + [s.sections[c].entry])
  }

  lemma AloneIsPublished(e: Env, s: State, c: string, d: Draft)
    requires At(s, c) && d.base == []
    ensures
      var uploaded := HasUploaded(RootCid(e, s.sections[c].entry), d);
      Published(Moved(Moved(s, c, HasContent("", d)), c, uploaded), c) == PublishedAlone(e, s, c)
  {
    assert [] + [s.sections[c].entry] == [s.sections[c].entry];
  }

  /** The caller uploads its entry alone and moves the pointer to it. */
  lemma PublishAlone(e: Env, t: Trail, c: string, timely: bool) returns (u: Trail)
    requires IsTrail(e, t, timely) && At(t.Last(), c) && t.Last().sections[c].stage.HasPointer?
    requires t.Last().sections[c].stage.pointer == "" ==> t.Last().sections[c].stage.draft.base == []
    ensures IsTrail(e, u, timely) && u.Last() == PublishedAlone(e, t.Last(), c)
    ensures u.failed == if t.Last().sections[c].stage.pointer == "" then t.failed else t.failed + {|t.acts|}
  {
    var d;
    u, d := FetchNothing(e, t, c, timely);
    u := AddAlone(e, u, c, d, timely);
    u := MovePointer(e, u, c, timely);
    AloneIsPublished(e, t.Last(), c, d);
  }

  lemma Leave(e: Env, t: Trail, c: string, timely: bool) returns (u: Trail)
    requires IsTrail(e, t, timely) && At(t.Last(), c) && t.Last().sections[c].stage.Finished?
    ensures IsTrail(e, u, timely) && u.failed == t.failed
    ensures u.Last() == t.Last().(lock := None, sections := t.Last().sections - {c})
  {
    var s := t.Last();
    var s' := s.(lock := None, sections := s.sections - {c});
    LastIsTimely(e, t, timely);
    assert forall d | At(s', d) :: At(s, d);
    Extend(e, t, Release(c), s', timely);
    u := Then(e, t, Release(c), s');
  }

  lemma WaitForExpiry(e: Env, t: Trail) returns (u: Trail)
    requires IsTrail(e, t, false) && t.Last().now == 0
    ensures IsTrail(e, u, false) && u.failed == t.failed && u.Last() == t.Last().(now := LOCK_TTL)
  {
    Extend(e, t, Tick(LOCK_TTL), t.Last().(now := LOCK_TTL), false);
    u := Then(e, t, Tick(LOCK_TTL), t.Last().(now := LOCK_TTL));
  }

  lemma Begin(e: Env) returns (t: Trail)
    ensures IsTrail(e, t, true) && IsTrail(e, t, false) && t.Last() == EMPTY && t.failed == {}
  {
    t := Trail([EMPTY], [], {});
    assert Timely(EMPTY);
  }

  /** The second caller enters when the first one's lock expires, and the first one finishes last. */
  lemma OverlappingRun(e: Env, first: Bytes, second: Bytes) returns (t: Trail)
    requires first != "" && second != ""
    ensures IsTrail(e, t, false) && t.failed == {} && !Timely(t.Last())
    ensures t.Last().published == [second, first] && t.Last().pointer == RootCid(e, first)
  {
    t := Begin(e);
    t := Enter(e, t, "first", first, false);
    t := WaitForExpiry(e, t);
    t := Enter(e, t, "second", second, false);
    t := PublishAlone(e, t, "second", false);
    t := PublishAlone(e, t, "first", false);
    assert At(t.Last(), "first");
  }

  lemma OneOfTwoIsNotBoth(e: Env, kept: Bytes, all: seq<Bytes>)
    requires e.Valid() && NoSecondPreimage(e, BlockSet(e, kept)) && |kept| < Size(all)
    ensures RootCid(e, kept) != PointerOf(e, all)
  {
    assert Join([kept]) == kept by {
      JoinLast([], kept);
      assert [] + [kept] == [kept];
    }
    PointersDiffer(e, [kept], all);
  }

  lemma SizeOfTwo(a: Bytes, b: Bytes)
    ensures Size([a, b]) == |a| + |b|
  {
    SizeOfOneMore([], a);
    SizeOfOneMore([a], b);
    assert [] + [a] == [a] && [a] + [b] == [a, b];
  }

  /**
   A lost update in a run in which every call and every download succeeds: the first caller is inside
   for 10 s, so that its section outlives its lock, the second one enters and publishes its entry,
   and then the first one overwrites it.
   */
  lemma ExpiryLosesAnUpdate(e: Env, first: Bytes, second: Bytes) returns (states: seq<State>, acts: seq<Action>)
    requires e.Valid() && NoSecondPreimage(e, BlockSet(e, first)) && first != "" && second != ""
    ensures IsGoodRun(e, states, acts, {}) && !Timely(states[|acts|])
    ensures states[|acts|].published == [second, first]
    ensures states[|acts|].pointer != PointerOf(e, [second, first])
    ensures states[|acts|].pointer != PointerOf(e, [first, second])
  {
    SizeOfTwo(first, second);
    SizeOfTwo(second, first);
    OneOfTwoIsNotBoth(e, first, [second, first]);
    OneOfTwoIsNotBoth(e, first, [first, second]);
    var t := OverlappingRun(e, first, second);
    states, acts := t.states, t.acts;
  }

  lemma OneCallerRun(e: Env, first: Bytes) returns (t: Trail)
    requires first != ""
    ensures IsTrail(e, t, true) && t.failed == {}
    ensures t.Last() == EMPTY.(pointer := RootCid(e, first), log := [first], published := [first])
  {
    t := Begin(e);
    t := Enter(e, t, "first", first, true);
    t := PublishAlone(e, t, "first", true);
    t := Leave(e, t, "first", true);
    assert t.Last().sections == map[];
  }

  /** The second caller cannot download the catalog of the first one, and starts over. */
  lemma StartingOverRun(e: Env, first: Bytes, second: Bytes) returns (t: Trail, fetch: nat)
    requires e.Valid() && first != "" && second != ""
    ensures IsTrail(e, t, true) && t.failed == {fetch}
    ensures t.Last().published == [first, second] && t.Last().pointer == RootCid(e, second)
  {
    assert IsCid(RootCid(e, first));
    t := OneCallerRun(e, first);
    t := Enter(e, t, "second", second, true);
    fetch := |t.acts|;
    t := PublishAlone(e, t, "second", true);
  }

  lemma TrailIsTimely(e: Env, t: Trail)
    requires IsTrail(e, t, true)
    ensures IsTimelyRun(e, t.states, t.acts)
  {
    forall i | 0 <= i < |t.acts| ensures !t.acts[i].LateDel? {
      assert WellAt(e, t.states, t.acts, t.failed, i);
    }
  }

  /**
   A lost entry in a run in which every section ends at once and every call takes effect, because one
   download fails: that of the second caller, which starts over.
   */
  lemma FailedFetchLosesAnEntry(e: Env, first: Bytes, second: Bytes)
    returns (states: seq<State>, acts: seq<Action>, fetch: nat)
    requires e.Valid() && NoSecondPreimage(e, BlockSet(e, second)) && first != "" && second != ""
    ensures IsTimelyRun(e, states, acts) && IsGoodRun(e, states, acts, {fetch})
    ensures fetch < |acts| && FetchFails(e, states[fetch], acts[fetch])
    ensures states[|acts|].published == [first, second]
    ensures states[|acts|].pointer != PointerOf(e, [first, second])
  {
    SizeOfTwo(first, second);
    OneOfTwoIsNotBoth(e, second, [first, second]);
    var t;
    t, fetch := StartingOverRun(e, first, second);
    TrailIsTimely(e, t);
    states, acts := t.states, t.acts;
    assert fetch in t.failed && WellAt(e, states, acts, t.failed, fetch);
  }
}
