/** The registry snapshot cache (`getSnapshot` and `invalidate` of
    src/registry/registry-index.service.ts), driven by calls and by loads that end later. */
module Registry {
  import opened Wrappers
  import opened Sequences

  /** One `loadAll`; a finished one keeps its snapshot and the time it finished. */
  datatype Load<T> = Running | Loaded(snapshot: T, at: int) | Failed

  /** `loading` is the load whose promise is kept; `since` counts the loads begun before the
      last invalidation. */
  datatype State<T> = State(
    cached: Option<T>, cachedAt: int, loading: Option<nat>, loads: seq<Load<T>>, since: nat)

  datatype Answer<T> = Cached(snapshot: T) | Joined(id: nat) | Started(id: nat)

  datatype Event<T> =
    | Get(now: int)
    | Complete(id: nat, snapshot: T, now: int)
    | Fail(id: nat)
    | Invalidate

  function Initial<T>(): State<T> {
    State(None, 0, None, [], 0)
  }

  function GetSnapshot<T>(s: State<T>, ttl: int, now: int): (State<T>, Answer<T>) {
    if s.cached.Some? && ttl > 0 && now - s.cachedAt < ttl then (s, Cached(s.cached.value))
    else if s.loading.Some? then (s, Joined(s.loading.value))
    else (s.(loading := Some(|s.loads|), loads := s.loads + [Running]), Started(|s.loads|))
  }

  function OnComplete<T>(s: State<T>, id: nat, snapshot: T, now: int): State<T>
    requires id < |s.loads|
  {
    s.(cached := Some(snapshot), cachedAt := now, loading := None,
       loads := s.loads[id := Loaded(snapshot, now)])
  }

  function OnFail<T>(s: State<T>, id: nat): State<T>
    requires id < |s.loads|
  {
    s.(loading := None, loads := s.loads[id := Failed])
  }

  function OnInvalidate<T>(s: State<T>): State<T> {
    s.(cached := None, cachedAt := 0, loading := None, since := |s.loads|)
  }

  predicate IsRunning<T>(s: State<T>, i: int) {
    0 <= i < |s.loads| && s.loads[i].Running?
  }

  ghost predicate Busy<T>(s: State<T>) {
    exists i :: IsRunning(s, i)
  }

  predicate Enabled<T>(s: State<T>, e: Event<T>) {
    (e.Complete? || e.Fail?) ==> IsRunning(s, e.id)
  }

  function Step<T>(s: State<T>, ttl: int, e: Event<T>): State<T>
    requires Enabled(s, e)
  {
    match e
    case Get(now) => GetSnapshot(s, ttl, now).0
    case Complete(id, snapshot, now) => OnComplete(s, id, snapshot, now)
    case Fail(id) => OnFail(s, id)
    case Invalidate => OnInvalidate(s)
  }

  /** An invalidation is quiet when no load is running. */
  ghost predicate QuietStep<T>(s: State<T>, ttl: int, e: Event<T>, t: State<T>) {
    Enabled(s, e) && (e.Invalidate? ==> !Busy(s)) && t == Step(s, ttl, e)
  }

  /** `s` is reached by `es`, every invalidation among them quiet. */
  ghost predicate Reaches<T(!new)>(es: seq<Event<T>>, ttl: int, s: State<T>) {
    if es == [] then s == Initial()
    else exists before :: Reaches(Earlier(es), ttl, before) && QuietStep(before, ttl, Last(es), s)
  }

  predicate FilledBy<T(==)>(s: State<T>, i: int)
    requires 0 <= i < |s.loads|
  {
    s.cached.Some? && s.loads[i] == Loaded(s.cached.value, s.cachedAt)
  }

  /** The kept promise is the one running load, and the cache holds a load begun after the
      last invalidation. */
  ghost predicate Inv<T>(s: State<T>) {
    && (forall i :: IsRunning(s, i) <==> s.loading == Some(i))
    && (s.cached.Some? ==> exists i :: s.since <= i < |s.loads| && FilledBy(s, i))
    && (forall i | IsRunning(s, i) :: s.since <= i)
    && s.since <= |s.loads|
    && (s.loading.Some? ==> IsRunning(s, s.loading.value))
  }

  lemma StepKeeps<T>(s: State<T>, ttl: int, e: Event<T>, t: State<T>)
    requires Inv(s) && QuietStep(s, ttl, e, t)
    ensures Inv(t)
  {
    forall i | 0 <= i < |s.loads| ensures !IsRunning(s, i) ==> t.loads[i] == s.loads[i] {}
    match e
    case Get(now) =>
      if s.cached.Some? {
        var i :| s.since <= i < |s.loads| && FilledBy(s, i);
        assert FilledBy(t, i);
      }
      if GetSnapshot(s, ttl, now).1.Started? { assert IsRunning(t, |s.loads|); }
    case Complete(id, _, _) => assert FilledBy(t, id);
    case Fail(id) =>
      if s.cached.Some? {
        var i :| s.since <= i < |s.loads| && FilledBy(s, i);
        assert FilledBy(t, i);
      }
    case Invalidate =>
  }

  lemma {:induction false} RunKeeps<T(!new)>(es: seq<Event<T>>, ttl: int, s: State<T>)
    requires Reaches(es, ttl, s)
    ensures Inv(s)
  {
    if es != [] {
      var before :| Reaches(Earlier(es), ttl, before) && QuietStep(before, ttl, Last(es), s);
      RunKeeps(Earlier(es), ttl, before);
      StepKeeps(before, ttl, Last(es), s);
    }
  }

  /** At most one load runs, and the kept promise is set exactly while it does. */
  lemma SingleLoad<T(!new)>(es: seq<Event<T>>, ttl: int, s: State<T>)
    requires Reaches(es, ttl, s)
    ensures forall i, j | IsRunning(s, i) && IsRunning(s, j) :: i == j
    ensures s.loading.Some? <==> Busy(s)
  {
    RunKeeps(es, ttl, s);
  }

  /** What a caller gets: a snapshot loaded since the last invalidation and less than the
      time to live ago, or the one running load, or a new one when none runs. With a time
      to live of zero nothing is ever served from the cache. */
  lemma Serves<T(!new)>(es: seq<Event<T>>, ttl: int, s: State<T>, now: int)
    requires Reaches(es, ttl, s)
    ensures match GetSnapshot(s, ttl, now).1
      case Cached(snapshot) =>
        ttl > 0 && (exists i, at ::
          s.since <= i < |s.loads| && s.loads[i] == Loaded(snapshot, at) && now - at < ttl)
      case Joined(id) => IsRunning(s, id) && s.since <= id
      case Started(id) => !Busy(s) && id == |s.loads|
  {
    RunKeeps(es, ttl, s);
    if GetSnapshot(s, ttl, now).1.Cached? {
      var i :| s.since <= i < |s.loads| && FilledBy(s, i);
      assert s.loads[i] == Loaded(s.cached.value, s.cachedAt);
    }
  }

  /** The cache holds load `i` or a later one. */
  ghost predicate CachedFrom<T>(s: State<T>, i: int) {
    exists j :: 0 <= i <= j < |s.loads| && FilledBy(s, j)
  }

  /** Loads come one after the other, and the cache holds the latest one since the last
      invalidation. */
  ghost predicate LatestCached<T>(s: State<T>) {
    && (forall i | IsRunning(s, i) :: i == |s.loads| - 1)
    && (forall i | s.since <= i < |s.loads| && s.loads[i].Loaded? :: CachedFrom(s, i))
  }

  /** The cache is untouched and the finished loads are the same. */
  ghost predicate SameCache<T>(s: State<T>, t: State<T>) {
    && t.cached == s.cached && t.cachedAt == s.cachedAt && t.since == s.since && |s.loads| <= |t.loads|
    && (forall i | 0 <= i < |s.loads| && (s.loads[i].Loaded? || t.loads[i].Loaded?) :: t.loads[i] == s.loads[i])
    && (forall i | |s.loads| <= i < |t.loads| :: !t.loads[i].Loaded?)
  }

  lemma CachedStill<T>(s: State<T>, t: State<T>, i: int)
    requires SameCache(s, t) && CachedFrom(s, i)
    ensures CachedFrom(t, i)
  {
    var j :| 0 <= i <= j < |s.loads| && FilledBy(s, j);
    assert FilledBy(t, j);
  }

  lemma AllCachedStill<T>(s: State<T>, t: State<T>)
    requires LatestCached(s) && SameCache(s, t)
    ensures forall i | t.since <= i < |t.loads| && t.loads[i].Loaded? :: CachedFrom(t, i)
  {
    forall i | t.since <= i < |t.loads| && t.loads[i].Loaded? ensures CachedFrom(t, i) {
      CachedStill(s, t, i);
    }
  }

  lemma RanBefore<T>(s: State<T>, ttl: int, e: Event<T>, t: State<T>, i: int)
    requires QuietStep(s, ttl, e, t) && IsRunning(t, i)
    ensures |s.loads| <= |t.loads| <= |s.loads| + 1
    ensures i < |s.loads| ==> IsRunning(s, i)
  {
  }

  lemma NoneBeside<T>(s: State<T>, ttl: int, e: Event<T>, t: State<T>, i: int)
    requires QuietStep(s, ttl, e, t) && s.loading == Some(i)
    ensures |t.loads| == |s.loads|
  {
  }

  lemma RunningIsLast<T>(s: State<T>, ttl: int, e: Event<T>, t: State<T>, i: int)
    requires Inv(s) && LatestCached(s) && QuietStep(s, ttl, e, t) && IsRunning(t, i)
    ensures i == |t.loads| - 1
  {
    RanBefore(s, ttl, e, t, i);
    if i < |s.loads| { NoneBeside(s, ttl, e, t, i); }
  }

  lemma LatestStays<T>(s: State<T>, ttl: int, e: Event<T>, t: State<T>)
    requires Inv(s) && LatestCached(s) && QuietStep(s, ttl, e, t)
    ensures LatestCached(t)
  {
    forall i | IsRunning(t, i) ensures i == |t.loads| - 1 { RunningIsLast(s, ttl, e, t, i); }
    match e
    case Get(_) => AllCachedStill(s, t);
    case Complete(id, _, _) =>
      assert FilledBy(t, id) && id == |t.loads| - 1;
      assert forall i | 0 <= i < |t.loads| :: CachedFrom(t, i);
    case Fail(_) => AllCachedStill(s, t);
    case Invalidate =>
  }

  lemma {:induction false} RunKeepsLatest<T(!new)>(es: seq<Event<T>>, ttl: int, s: State<T>)
    requires Reaches(es, ttl, s)
    ensures LatestCached(s)
  {
    if es != [] {
      var before :| Reaches(Earlier(es), ttl, before) && QuietStep(before, ttl, Last(es), s);
      RunKeepsLatest(Earlier(es), ttl, before);
      RunKeeps(Earlier(es), ttl, before);
      LatestStays(before, ttl, Last(es), s);
    }
  }

  /** The latest snapshot since the last invalidation is served as long as it is younger than the
      time to live, and then no load starts. */
  lemma FreshIsServed<T(!new)>(es: seq<Event<T>>, ttl: int, s: State<T>, i: nat, now: int)
    requires Reaches(es, ttl, s) && s.since <= i < |s.loads| && s.loads[i].Loaded?
    requires forall j | i < j < |s.loads| :: !s.loads[j].Loaded?
    requires now - s.loads[i].at < ttl && ttl > 0
    ensures GetSnapshot(s, ttl, now) == (s, Cached(s.loads[i].snapshot))
  {
    RunKeepsLatest(es, ttl, s);
    assert CachedFrom(s, i);
    var j :| i <= j < |s.loads| && FilledBy(s, j);
    assert j == i;
  }

  /** Invalidating while a load runs breaks it, and only then: the next call starts a second
      load beside the first exactly when one was running. */
  lemma InvalidateOverlaps<T(!new)>(es: seq<Event<T>>, ttl: int, s: State<T>, now: int)
    requires Reaches(es, ttl, s)
    ensures var t := GetSnapshot(OnInvalidate(s), ttl, now).0;
      (exists i, j :: i != j && IsRunning(t, i) && IsRunning(t, j)) <==> Busy(s)
  {
    RunKeeps(es, ttl, s);
    var t := GetSnapshot(OnInvalidate(s), ttl, now).0;
    assert forall i | 0 <= i < |s.loads| :: t.loads[i] == s.loads[i];
    assert IsRunning(t, |s.loads|);
    if Busy(s) {
      var i :| IsRunning(s, i);
      assert IsRunning(t, i);
    }
    if i, j :| i != j && IsRunning(t, i) && IsRunning(t, j) {
      assert IsRunning(s, i) || IsRunning(s, j);
    }
  }

  /** After such an overlap the first load, when it ends, fills the cache with a snapshot from
      before the invalidation and forgets the second load although it still runs. */
  lemma {:induction false} OverlapServesStale<T(!new)>(
    es: seq<Event<T>>, ttl: int, s: State<T>, id: nat, old_: T, now: int)
    requires Reaches(es, ttl, s) && IsRunning(s, id) && ttl > 0
    ensures var t := GetSnapshot(OnInvalidate(s), ttl, now).0;
      var u := OnComplete(t, id, old_, now);
      && id < u.since && IsRunning(u, |s.loads|) && u.loading.None?
      && GetSnapshot(u, ttl, now).1 == Cached(old_)
  {
    RunKeeps(es, ttl, s);
  }

  // ---- The service object ----

  class RegistryIndex<T> {
    var cachedSnapshot: Option<T>
    var cachedAt: int
    var loadingPromise: Option<nat>
    var loads: seq<Load<T>>
    ghost var since: nat
    const cacheTtl: int

    constructor (ttl: int)
      ensures View() == Initial() && cacheTtl == ttl
    {
      cachedSnapshot, cachedAt, loadingPromise, loads, since, cacheTtl := None, 0, None, [], 0, ttl;
    }

    ghost function View(): State<T> reads this {
      State(cachedSnapshot, cachedAt, loadingPromise, loads, since)
    }

    method Snapshot(now: int) returns (answer: Answer<T>)
      modifies this
      ensures (View(), answer) == GetSnapshot(old(View()), cacheTtl, now)
    {
      if cachedSnapshot.Some? && cacheTtl > 0 && now - cachedAt < cacheTtl {
        return Cached(cachedSnapshot.value);
      }
      if loadingPromise.Some? { return Joined(loadingPromise.value); }
      loadingPromise := Some(|loads|);
      loads := loads + [Running];
      return Started(|loads| - 1);
    }

    method LoadDone(id: nat, snapshot: T, now: int)
      requires id < |loads|
      modifies this
      ensures View() == OnComplete(old(View()), id, snapshot, now)
    {
      loads := loads[id := Loaded(snapshot, now)];
      cachedSnapshot := Some(snapshot);
      cachedAt := now;
      loadingPromise := None;
    }

    method LoadFailed(id: nat)
      requires id < |loads|
      modifies this
      ensures View() == OnFail(old(View()), id)
    {
      loads := loads[id := Failed];
      loadingPromise := None;
    }

    method InvalidateCache()
      modifies this
      ensures View() == OnInvalidate(old(View()))
    {
      cachedSnapshot := None;
      cachedAt := 0;
      loadingPromise := None;
      since := |loads|;
    }
  }
}
