/** The token minter (src/auth/auth-token-minter.service.ts): a cache and a table of
    requests in flight, driven by calls, answers and promise settlements in any order. */
module Minter {
  import opened Wrappers
  import opened Sequences
  import opened CacheKey
  import opened KeyLaws

  /** Milliseconds kept as a margin for clock drift. */
  const SKEW: int := 10000

  datatype Entry = Entry(token: string, expiresAt: int, expiresIn: int)

  datatype Phase =
    | Waiting
    | Failed
    | Succeeded(token: string, answeredAt: int, ttl: int)

  /** One request to the auth service; `settled` once its `finally` callback has run. */
  datatype Request = Request(
    sender: string, scopes: Option<Scopes>, startedAt: int, phase: Phase, settled: bool)

  datatype State = State(
    cache: map<string, Entry>, inflight: map<string, nat>, requests: seq<Request>)

  datatype Response =
    | NetworkError
    | HttpError(status: int)
    | BadJson
    | Body(token: Option<string>, expiresIn: Option<real>)

  datatype Served =
    | Rejected
    | Hit(entry: Entry)
    | Joined(id: nat)
    | Started(id: nat)

  datatype Event =
    | Call(sender: string, scopes: Option<Scopes>, now: int)
    | Answer(id: nat, response: Response, now: int)
    | Finally(id: nat)

  const INITIAL := State(map[], map[], [])

  function KeyOf(r: Request): string {
    Key(r.sender, r.scopes)
  }

  function ExpiresAt(p: Phase): int
    requires p.Succeeded?
  {
    p.answeredAt + p.ttl * 1000
  }

  function EntryOf(p: Phase): Entry
    requires p.Succeeded?
  {
    Entry(p.token, ExpiresAt(p), p.ttl)
  }

  // ---- Steps ----

  /** Drops a stale entry; what is left under `key` is a hit. */
  function ReadCache(cache: map<string, Entry>, key: string, now: int): map<string, Entry> {
    if key in cache && now >= cache[key].expiresAt - SKEW then cache - {key} else cache
  }

  function Mint(s: State, sender: string, scopes: Option<Scopes>, now: int): (State, Served) {
    if sender == "" then (s, Rejected)
    else
      var key := Key(sender, scopes);
      var cache := ReadCache(s.cache, key, now);
      var s' := s.(cache := cache);
      if key in cache then (s', Hit(cache[key]))
      else if key in s.inflight then (s', Joined(s.inflight[key]))
      else
        var id := |s.requests|;
        (s'.(inflight := s.inflight[key := id],
             requests := s.requests + [Request(sender, scopes, now, Waiting, false)]),
         Started(id))
  }

  function Ttl(expiresIn: Option<real>, configured: int): int {
    match expiresIn
    case None => configured
    case Some(x) => if x.Floor < 1 then 1 else x.Floor
  }

  function PhaseOf(response: Response, configured: int, now: int): (p: Phase)
    ensures !p.Waiting?
  {
    match response
    case Body(Some(token), expiresIn) =>
      if token == "" then Failed else Succeeded(token, now, Ttl(expiresIn, configured))
    case _ => Failed
  }

  function OnAnswer(s: State, id: nat, response: Response, configured: int, now: int): State
    requires id < |s.requests|
  {
    var r := s.requests[id].(phase := PhaseOf(response, configured, now));
    s.(requests := s.requests[id := r],
       cache := if r.phase.Succeeded? then s.cache[KeyOf(r) := EntryOf(r.phase)] else s.cache)
  }

  function OnFinally(s: State, id: nat): State
    requires id < |s.requests|
  {
    s.(requests := s.requests[id := s.requests[id].(settled := true)],
       inflight := s.inflight - {KeyOf(s.requests[id])})
  }

  ghost predicate Enabled(s: State, e: Event) {
    match e
    case Call(_, scopes, _) => ValidScopes(scopes)
    case Answer(id, _, _) => id < |s.requests| && s.requests[id].phase.Waiting?
    case Finally(id) => id < |s.requests| && !s.requests[id].phase.Waiting? && !s.requests[id].settled
  }

  function Step(s: State, e: Event, configured: int): State
    requires e.Answer? ==> e.id < |s.requests|
    requires e.Finally? ==> e.id < |s.requests|
  {
    match e
    case Call(sender, scopes, now) => Mint(s, sender, scopes, now).0
    case Answer(id, response, now) => OnAnswer(s, id, response, configured, now)
    case Finally(id) => OnFinally(s, id)
  }

  ghost predicate StepsTo(s: State, e: Event, t: State, configured: int) {
    Enabled(s, e) && t == Step(s, e, configured)
  }

  /** `s` is reached by the events `es`, with the configured lifetime `configured`. */
  ghost predicate Reaches(es: seq<Event>, s: State, configured: int) {
    if es == [] then s == INITIAL
    else exists before ::
      Reaches(Earlier(es), before, configured) && StepsTo(before, Last(es), s, configured)
  }

  // ---- Single flight, for any clock ----

  predicate SameKey(s: State, i: int, j: int)
    requires 0 <= i < |s.requests| && 0 <= j < |s.requests|
  {
    KeyOf(s.requests[i]) == KeyOf(s.requests[j])
  }

  ghost predicate OneAtATime(s: State) {
    forall i, j | 0 <= i < j < |s.requests| && SameKey(s, i, j) :: s.requests[i].settled
  }

  ghost predicate InflightExact(s: State) {
    && (forall k | k in s.inflight ::
          s.inflight[k] < |s.requests| && KeyOf(s.requests[s.inflight[k]]) == k)
    && (forall i | 0 <= i < |s.requests| ::
          !s.requests[i].settled <==>
          KeyOf(s.requests[i]) in s.inflight && s.inflight[KeyOf(s.requests[i])] == i)
  }

  predicate MintedBy(s: State, k: string, i: int)
    requires 0 <= i < |s.requests|
  {
    k in s.cache && KeyOf(s.requests[i]) == k && s.requests[i].phase.Succeeded? &&
    s.cache[k] == EntryOf(s.requests[i].phase)
  }

  ghost predicate CacheSourced(s: State) {
    forall k | k in s.cache :: exists i :: 0 <= i < |s.requests| && MintedBy(s, k, i)
  }

  ghost predicate WellFormed(s: State) {
    forall i | 0 <= i < |s.requests| ::
      ValidScopes(s.requests[i].scopes) && (s.requests[i].settled ==> !s.requests[i].phase.Waiting?)
  }

  ghost predicate Inv(s: State) {
    OneAtATime(s) && InflightExact(s) && CacheSourced(s) && WellFormed(s)
  }

  /** The requests only gain members and the ones there change neither key nor outcome. */
  ghost predicate Extends(s: State, t: State) {
    |s.requests| <= |t.requests| &&
    forall i | 0 <= i < |s.requests| ::
      KeyOf(t.requests[i]) == KeyOf(s.requests[i]) && t.requests[i].phase == s.requests[i].phase
  }

  lemma SourcedStill(s: State, t: State)
    requires CacheSourced(s) && Extends(s, t)
    requires forall k | k in t.cache :: k in s.cache && t.cache[k] == s.cache[k]
    ensures CacheSourced(t)
  {
    forall k | k in t.cache ensures exists i :: 0 <= i < |t.requests| && MintedBy(t, k, i) {
      var i :| 0 <= i < |s.requests| && MintedBy(s, k, i);
      assert MintedBy(t, k, i);
    }
  }

  /** A new request whose key has none in flight. */
  lemma StartKeeps(s: State, r: Request, t: State)
    requires OneAtATime(s) && InflightExact(s) && WellFormed(s)
    requires KeyOf(r) !in s.inflight && r.phase.Waiting? && !r.settled && ValidScopes(r.scopes)
    requires t.requests == s.requests + [r] && t.inflight == s.inflight[KeyOf(r) := |s.requests|]
    ensures OneAtATime(t) && InflightExact(t) && WellFormed(t)
  {
    assert forall i | 0 <= i < |s.requests| :: t.requests[i] == s.requests[i];
    assert t.requests[|s.requests|] == r;
    StartIsAlone(s, r, t);
  }

  lemma StartIsAlone(s: State, r: Request, t: State)
    requires OneAtATime(s) && InflightExact(s) && KeyOf(r) !in s.inflight && t.requests == s.requests + [r]
    ensures OneAtATime(t)
  {
    var n := |s.requests|;
    assert forall i | 0 <= i < n :: t.requests[i] == s.requests[i];
    forall i, j | 0 <= i < j < |t.requests| && SameKey(t, i, j) ensures t.requests[i].settled {
      if j < n { assert SameKey(s, i, j); }
    }
  }

  /** What a call does: it drops stale entries, and may start the request `r`. */
  ghost predicate Calls(s: State, r: Request, t: State, started: bool) {
    && (forall k | k in t.cache :: k in s.cache && t.cache[k] == s.cache[k])
    && (forall k | k in s.cache :: k in t.cache || r.startedAt >= s.cache[k].expiresAt - SKEW)
    && (started ==>
          KeyOf(r) !in s.inflight && KeyOf(r) !in t.cache && r.phase.Waiting? && !r.settled &&
          t.requests == s.requests + [r] && t.inflight == s.inflight[KeyOf(r) := |s.requests|])
    && (!started ==> t.requests == s.requests && t.inflight == s.inflight)
  }

  lemma MintCalls(s: State, sender: string, scopes: Option<Scopes>, now: int)
    ensures var (t, served) := Mint(s, sender, scopes, now);
      Calls(s, Request(sender, scopes, now, Waiting, false), t, served.Started?)
  {
  }

  lemma CallKeeps(s: State, r: Request, t: State, started: bool)
    requires Inv(s) && ValidScopes(r.scopes) && Calls(s, r, t, started)
    ensures Inv(t)
  {
    SourcedStill(s, t);
    if started {
      StartKeeps(s, r, t);
    } else {
      assert forall i, j | 0 <= i < j < |t.requests| && SameKey(t, i, j) :: SameKey(s, i, j);
    }
  }

  /** What an answer does: request `id` gets its outcome, a success goes to the cache. */
  ghost predicate Answers(s: State, id: nat, p: Phase, t: State) {
    && id < |s.requests| && s.requests[id].phase.Waiting? && !p.Waiting?
    && t.requests == s.requests[id := s.requests[id].(phase := p)]
    && t.inflight == s.inflight
    && t.cache == if p.Succeeded? then s.cache[KeyOf(s.requests[id]) := EntryOf(p)] else s.cache
  }

  lemma OnAnswerAnswers(s: State, id: nat, response: Response, configured: int, now: int)
    requires Enabled(s, Answer(id, response, now))
    ensures Answers(s, id, PhaseOf(response, configured, now), OnAnswer(s, id, response, configured, now))
  {
  }

  lemma SameRequests(s: State, id: nat, p: Phase, t: State)
    requires Answers(s, id, p, t)
    ensures |t.requests| == |s.requests|
    ensures forall i | 0 <= i < |s.requests| ::
      KeyOf(t.requests[i]) == KeyOf(s.requests[i]) && t.requests[i].settled == s.requests[i].settled
    ensures forall i, j | 0 <= i < |s.requests| && 0 <= j < |s.requests| ::
      SameKey(t, i, j) == SameKey(s, i, j)
  {
  }

  lemma AnswerSourced(s: State, id: nat, p: Phase, t: State)
    requires CacheSourced(s) && Answers(s, id, p, t)
    ensures CacheSourced(t)
  {
    SameRequests(s, id, p, t);
    forall k | k in t.cache ensures exists i :: 0 <= i < |t.requests| && MintedBy(t, k, i) {
      if p.Succeeded? && k == KeyOf(s.requests[id]) {
        assert MintedBy(t, k, id);
      } else {
        var i :| 0 <= i < |s.requests| && MintedBy(s, k, i);
        assert MintedBy(t, k, i);
      }
    }
  }

  lemma AnswerKeeps(s: State, id: nat, p: Phase, t: State)
    requires Inv(s) && Answers(s, id, p, t)
    ensures Inv(t)
  {
    SameRequests(s, id, p, t);
    AnswerSourced(s, id, p, t);
  }

  lemma SettleExact(s: State, id: nat)
    requires OneAtATime(s) && InflightExact(s) && id < |s.requests| && !s.requests[id].settled
    ensures InflightExact(OnFinally(s, id))
  {
    var t := OnFinally(s, id);
    forall i | 0 <= i < |t.requests|
      ensures !t.requests[i].settled <==>
        KeyOf(t.requests[i]) in t.inflight && t.inflight[KeyOf(t.requests[i])] == i
    {
      assert KeyOf(t.requests[i]) == KeyOf(s.requests[i]);
    }
  }

  lemma FinallyKeeps(s: State, id: nat)
    requires Inv(s) && Enabled(s, Finally(id))
    ensures Inv(OnFinally(s, id))
  {
    var t := OnFinally(s, id);
    FinallyExtends(s, id);
    SettleExact(s, id);
    SourcedStill(s, t);
    SettlesStay(s, t);
  }

  lemma FinallyExtends(s: State, id: nat)
    requires WellFormed(s) && Enabled(s, Finally(id))
    ensures var t := OnFinally(s, id);
      && Extends(s, t) && |t.requests| == |s.requests| && t.cache == s.cache && WellFormed(t)
      && forall i | 0 <= i < |s.requests| && s.requests[i].settled :: t.requests[i].settled
  {
  }

  lemma SettlesStay(s: State, t: State)
    requires OneAtATime(s) && Extends(s, t) && |t.requests| == |s.requests|
    requires forall i | 0 <= i < |s.requests| && s.requests[i].settled :: t.requests[i].settled
    ensures OneAtATime(t)
  {
    assert forall i, j | 0 <= i < j < |t.requests| && SameKey(t, i, j) :: SameKey(s, i, j);
  }

  /** Every reachable state has at most one unsettled request per key, an in-flight
      table naming exactly the unsettled ones, and a cache filled by requests of its keys. */
  lemma {:induction false} SingleFlight(es: seq<Event>, s: State, configured: int)
    requires Reaches(es, s, configured)
    ensures Inv(s)
  {
    if es != [] {
      var e := Last(es);
      var before :| Reaches(Earlier(es), before, configured) && StepsTo(before, e, s, configured);
      SingleFlight(Earlier(es), before, configured);
      match e
      case Call(sender, scopes, now) =>
        MintCalls(before, sender, scopes, now);
        CallKeeps(before, Request(sender, scopes, now, Waiting, false), s,
          Mint(before, sender, scopes, now).1.Started?);
      case Answer(id, response, now) =>
        OnAnswerAnswers(before, id, response, configured, now);
        AnswerKeeps(before, id, PhaseOf(response, configured, now), s);
      case Finally(id) => FinallyKeeps(before, id);
    }
  }

  /** Whoever is served gets a token of its own sender and scopes: a hit has more than the
      margin left, a joined request is the one in flight, and a new request starts only
      when none is in flight and no usable token is cached. */
  lemma ServedOwnRequest(
    es: seq<Event>, s: State, configured: int, sender: string, scopes: Option<Scopes>, now: int)
    requires Reaches(es, s, configured) && ValidScopes(scopes)
    ensures match Mint(s, sender, scopes, now).1
      case Rejected => sender == ""
      case Hit(entry) =>
        now + SKEW < entry.expiresAt &&
        exists r :: r in s.requests && r.sender == sender && SameScopes(r.scopes, scopes) &&
          r.phase.Succeeded? && entry == EntryOf(r.phase)
      case Joined(id) =>
        id < |s.requests| && !s.requests[id].settled &&
        s.requests[id].sender == sender && SameScopes(s.requests[id].scopes, scopes)
      case Started(id) =>
        forall r | r in s.requests && r.sender == sender && SameScopes(r.scopes, scopes) :: r.settled
  {
    SingleFlight(es, s, configured);
    var key := Key(sender, scopes);
    match Mint(s, sender, scopes, now).1
    case Rejected =>
    case Hit(entry) =>
      var i :| 0 <= i < |s.requests| && MintedBy(s, key, i);
      var r := s.requests[i];
      assert r in s.requests;
      KeyIdentifiesRequest(r.sender, r.scopes, sender, scopes);
    case Joined(id) =>
      var r := s.requests[id];
      KeyIdentifiesRequest(r.sender, r.scopes, sender, scopes);
    case Started(id) =>
      forall r | r in s.requests && r.sender == sender && SameScopes(r.scopes, scopes)
        ensures r.settled
      {
        KeyIdentifiesRequest(r.sender, r.scopes, sender, scopes);
      }
  }

  /** A settling request takes only its own entry out of the in-flight table. */
  lemma {:induction false} FinallyRemovesOwn(es: seq<Event>, s: State, configured: int, id: nat)
    requires Reaches(es, s, configured) && Enabled(s, Finally(id))
    ensures var key := KeyOf(s.requests[id]);
      key in s.inflight && s.inflight[key] == id &&
      OnFinally(s, id).inflight == map k | k in s.inflight && s.inflight[k] != id :: s.inflight[k]
  {
    SingleFlight(es, s, configured);
  }

  // ---- What the auth service answered ----

  /** The lifetime that an answer gives: its own in whole seconds, at least one; if it gives
      none, the configured one. */
  ghost predicate Lifetime(expiresIn: Option<real>, configured: int, seconds: int) {
    match expiresIn
    case None => seconds == configured
    case Some(x) => if x >= 1.0 then seconds as real <= x < (seconds + 1) as real else seconds == 1
  }

  lemma TtlIsLifetime(expiresIn: Option<real>, configured: int)
    ensures Lifetime(expiresIn, configured, Ttl(expiresIn, configured))
  {
  }

  /** An answer with a token fills the cache under its request's key, and no other. */
  lemma AnswerFills(s: State, id: nat, token: string, expiresIn: Option<real>, configured: int, now: int)
    requires id < |s.requests| && token != ""
    ensures var key, t := KeyOf(s.requests[id]), OnAnswer(s, id, Body(Some(token), expiresIn), configured, now);
      && key in t.cache && t.cache[key].token == token
      && Lifetime(expiresIn, configured, t.cache[key].expiresIn)
      && t.cache[key].expiresAt == now + 1000 * t.cache[key].expiresIn
      && t.cache - {key} == s.cache - {key} && t.inflight == s.inflight
  {
    TtlIsLifetime(expiresIn, configured);
  }

  /** Every other answer fails the request and leaves the cache alone. */
  lemma FailureFillsNothing(s: State, id: nat, response: Response, configured: int, now: int)
    requires id < |s.requests| && (response.Body? ==> response.token in {None, Some("")})
    ensures var t := OnAnswer(s, id, response, configured, now);
      t.cache == s.cache && t.inflight == s.inflight && t.requests[id].phase == Failed
  {
  }

  /** `e` is the answer that gave request `id` its token and lifetime. */
  ghost predicate Gives(e: Event, id: int, p: Phase, configured: int) {
    && e.Answer? && e.id == id && p.Succeeded? && e.now == p.answeredAt
    && e.response.Body? && e.response.token == Some(p.token)
    && Lifetime(e.response.expiresIn, configured, p.ttl)
  }

  ghost predicate Given(es: seq<Event>, id: int, p: Phase, configured: int) {
    exists j :: 0 <= j < |es| && Gives(es[j], id, p, configured)
  }

  lemma GivenLater(es: seq<Event>, id: int, p: Phase, configured: int)
    requires es != [] && Given(Earlier(es), id, p, configured)
    ensures Given(es, id, p, configured)
  {
    var j :| 0 <= j < |Earlier(es)| && Gives(Earlier(es)[j], id, p, configured);
    assert Gives(es[j], id, p, configured);
  }

  /** A step changes an outcome only by the answer that gives it. */
  lemma StepGives(s: State, e: Event, t: State, configured: int, i: nat)
    requires StepsTo(s, e, t, configured) && i < |t.requests| && t.requests[i].phase.Succeeded?
    ensures Gives(e, i, t.requests[i].phase, configured) ||
            (i < |s.requests| && t.requests[i].phase == s.requests[i].phase)
  {
    if e.Answer? && e.id == i && e.response.Body? { TtlIsLifetime(e.response.expiresIn, configured); }
    if e.Call? { MintCalls(s, e.sender, e.scopes, e.now); }
  }

  /** Every token in a run was given, with its time and lifetime, by an answer of that run. */
  lemma {:induction false} TokensAreGiven(es: seq<Event>, s: State, configured: int, i: nat)
    requires Reaches(es, s, configured) && i < |s.requests| && s.requests[i].phase.Succeeded?
    ensures Given(es, i, s.requests[i].phase, configured)
    decreases |es|
  {
    var e, p := Last(es), s.requests[i].phase;
    var before :| Reaches(Earlier(es), before, configured) && StepsTo(before, e, s, configured);
    StepGives(before, e, s, configured, i);
    if Gives(e, i, p, configured) {
      assert Gives(es[|es| - 1], i, p, configured);
    } else {
      TokensAreGiven(Earlier(es), before, configured, i);
      GivenLater(es, i, p, configured);
    }
  }

  /** The answer behind a hit, for any clock: it was for a request of the caller's own sender and
      scopes, and the token is read more than the margin before the lifetime it gave is over. */
  lemma {:induction false} HitWasAnswered(
    es: seq<Event>, s: State, configured: int, sender: string, scopes: Option<Scopes>, now: int)
    returns (j: nat)
    requires Reaches(es, s, configured) && ValidScopes(scopes) && Mint(s, sender, scopes, now).1.Hit?
    ensures j < |es| && es[j].Answer? && es[j].id < |s.requests|
    ensures s.requests[es[j].id].sender == sender && SameScopes(s.requests[es[j].id].scopes, scopes)
    ensures var entry := Mint(s, sender, scopes, now).1.entry;
      && es[j].response.Body? && es[j].response.token == Some(entry.token)
      && Lifetime(es[j].response.expiresIn, configured, entry.expiresIn)
      && now < es[j].now + 1000 * entry.expiresIn - SKEW
      && (es[j].response.expiresIn.Some? && es[j].response.expiresIn.value >= 1.0 ==>
            now as real < es[j].now as real + 1000.0 * es[j].response.expiresIn.value - 10000.0)
  {
    var i := HitRequest(es, s, configured, sender, scopes, now);
    var p, entry := s.requests[i].phase, Mint(s, sender, scopes, now).1.entry;
    TokensAreGiven(es, s, configured, i);
    j :| 0 <= j < |es| && Gives(es[j], i, p, configured);
    assert entry == EntryOf(p) && now < entry.expiresAt - SKEW;
  }

  // ---- With a clock that does not go back ----

  function TimeOf(e: Event, clock: int): int {
    if e.Finally? then clock else e.now
  }

  /** As `Reaches`, with times that never decrease; `clock` is the last one. */
  ghost predicate ReachesAt(es: seq<Event>, s: State, configured: int, clock: int) {
    if es == [] then s == INITIAL
    else exists before, then_ ::
      ReachesAt(Earlier(es), before, configured, then_) &&
      then_ <= TimeOf(Last(es), then_) == clock && StepsTo(before, Last(es), s, configured)
  }

  lemma {:induction false} ReachesAtReaches(es: seq<Event>, s: State, configured: int, clock: int)
    requires ReachesAt(es, s, configured, clock)
    ensures Reaches(es, s, configured)
  {
    if es != [] {
      var before, then_ :|
        ReachesAt(Earlier(es), before, configured, then_) &&
        then_ <= TimeOf(Last(es), then_) == clock && StepsTo(before, Last(es), s, configured);
      ReachesAtReaches(Earlier(es), before, configured, then_);
    }
  }

  predicate Stale(r: Request, clock: int)
    requires r.phase.Succeeded?
  {
    clock >= ExpiresAt(r.phase) - SKEW
  }

  ghost predicate InThePast(s: State, clock: int) {
    forall i | 0 <= i < |s.requests| ::
      s.requests[i].startedAt <= clock &&
      (s.requests[i].phase.Succeeded? ==> s.requests[i].phase.answeredAt <= clock)
  }

  ghost predicate CachedOrStale(s: State, clock: int) {
    forall i | 0 <= i < |s.requests| && s.requests[i].phase.Succeeded? ::
      MintedBy(s, KeyOf(s.requests[i]), i) || Stale(s.requests[i], clock)
  }

  /** A later request of the same key starts only once the earlier token is stale. */
  ghost predicate NoEarlyRenewal(s: State) {
    forall i, j | 0 <= i < j < |s.requests| && SameKey(s, i, j) && s.requests[i].phase.Succeeded? ::
      Stale(s.requests[i], s.requests[j].startedAt)
  }

  ghost predicate ClockInv(s: State, clock: int) {
    Inv(s) && InThePast(s, clock) && CachedOrStale(s, clock) && NoEarlyRenewal(s)
  }

  lemma StillCachedOrStale(s: State, t: State, then_: int, now: int)
    requires CachedOrStale(s, then_) && Extends(s, t) && then_ <= now
    requires forall i | |s.requests| <= i < |t.requests| :: !t.requests[i].phase.Succeeded?
    requires forall k | k in s.cache ::
      (k in t.cache && t.cache[k] == s.cache[k]) || now >= s.cache[k].expiresAt - SKEW
    ensures CachedOrStale(t, now)
  {
    forall i | 0 <= i < |t.requests| && t.requests[i].phase.Succeeded?
      ensures MintedBy(t, KeyOf(t.requests[i]), i) || Stale(t.requests[i], now)
    {
      assert MintedBy(s, KeyOf(s.requests[i]), i) || Stale(s.requests[i], then_);
    }
  }

  lemma RenewalsStay(s: State, t: State)
    requires NoEarlyRenewal(s) && Extends(s, t) && |t.requests| == |s.requests|
    requires forall i | 0 <= i < |s.requests| :: t.requests[i].startedAt == s.requests[i].startedAt
    ensures NoEarlyRenewal(t)
  {
    assert forall i, j | 0 <= i < j < |t.requests| && SameKey(t, i, j) :: SameKey(s, i, j);
  }

  /** Nothing usable is cached under the new request's key, so earlier tokens are stale. */
  lemma StartRenews(s: State, r: Request, t: State)
    requires NoEarlyRenewal(s) && CachedOrStale(t, r.startedAt) && KeyOf(r) !in t.cache
    requires t.requests == s.requests + [r]
    ensures NoEarlyRenewal(t)
  {
    var n := |s.requests|;
    assert forall i | 0 <= i < n :: t.requests[i] == s.requests[i];
    assert t.requests[n] == r;
    forall i, j | 0 <= i < j < |t.requests| && SameKey(t, i, j) && t.requests[i].phase.Succeeded?
      ensures Stale(t.requests[i], t.requests[j].startedAt)
    {
      if j < n {
        assert SameKey(s, i, j);
      } else {
        assert !MintedBy(t, KeyOf(t.requests[i]), i);
      }
    }
  }

  lemma CallKeepsClock(s: State, then_: int, r: Request, t: State, started: bool)
    requires ClockInv(s, then_) && ValidScopes(r.scopes) && then_ <= r.startedAt
    requires Calls(s, r, t, started)
    ensures ClockInv(t, r.startedAt)
  {
    CallKeeps(s, r, t, started);
    assert Extends(s, t);
    StillCachedOrStale(s, t, then_, r.startedAt);
    if started { StartRenews(s, r, t); } else { RenewalsStay(s, t); }
  }

  lemma AnswerCachedOrStale(s: State, then_: int, id: nat, p: Phase, t: State, now: int)
    requires ClockInv(s, then_) && Answers(s, id, p, t) && then_ <= now
    ensures CachedOrStale(t, now)
  {
    SameRequests(s, id, p, t);
    forall i | 0 <= i < |t.requests| && t.requests[i].phase.Succeeded?
      ensures MintedBy(t, KeyOf(t.requests[i]), i) || Stale(t.requests[i], now)
    {
      if i != id {
        assert MintedBy(s, KeyOf(s.requests[i]), i) || Stale(s.requests[i], then_);
        assert SameKey(s, i, id) ==> SameKey(s, id, i) && i < id;
      }
    }
  }

  lemma AnswerKeepsClock(s: State, then_: int, id: nat, p: Phase, t: State, now: int)
    requires ClockInv(s, then_) && Answers(s, id, p, t) && then_ <= now
    requires p.Succeeded? ==> p.answeredAt == now
    ensures ClockInv(t, now)
  {
    AnswerKeeps(s, id, p, t);
    AnswerCachedOrStale(s, then_, id, p, t, now);
    SameRequests(s, id, p, t);
    assert forall i | 0 <= i < |s.requests| :: t.requests[i].startedAt == s.requests[i].startedAt;
    assert forall i, j | 0 <= i < j < |s.requests| && SameKey(t, i, j) :: SameKey(s, i, j) && i != id;
  }

  lemma FinallyKeepsClock(s: State, clock: int, id: nat)
    requires ClockInv(s, clock) && Enabled(s, Finally(id))
    ensures ClockInv(OnFinally(s, id), clock)
  {
    FinallyKeeps(s, id);
    var t := OnFinally(s, id);
    assert Extends(s, t);
    StillCachedOrStale(s, t, clock, clock);
    RenewalsStay(s, t);
  }

  lemma {:induction false} ClockRuns(es: seq<Event>, s: State, configured: int, clock: int)
    requires ReachesAt(es, s, configured, clock)
    ensures ClockInv(s, clock)
  {
    if es != [] {
      var e := Last(es);
      var before, then_ :|
        ReachesAt(Earlier(es), before, configured, then_) &&
        then_ <= TimeOf(e, then_) == clock && StepsTo(before, e, s, configured);
      ClockRuns(Earlier(es), before, configured, then_);
      match e
      case Call(sender, scopes, now) =>
        MintCalls(before, sender, scopes, now);
        CallKeepsClock(before, then_, Request(sender, scopes, now, Waiting, false), s,
          Mint(before, sender, scopes, now).1.Started?);
      case Answer(id, response, now) =>
        OnAnswerAnswers(before, id, response, configured, now);
        AnswerKeepsClock(before, then_, id, PhaseOf(response, configured, now), s, now);
      case Finally(id) => FinallyKeepsClock(before, then_, id);
    }
  }

  ghost predicate SameRequest(r: Request, q: Request) {
    r.sender == q.sender && SameScopes(r.scopes, q.scopes)
  }

  /** At any time, one sender and scope set has at most one token with more than the
      margin left, and it is the one in the cache. */
  lemma OneUsableToken(es: seq<Event>, s: State, configured: int, clock: int, i: nat, j: nat)
    requires ReachesAt(es, s, configured, clock) && i < |s.requests| && j < |s.requests|
    requires s.requests[i].phase.Succeeded? && !Stale(s.requests[i], clock)
    requires SameRequest(s.requests[i], s.requests[j])
    ensures j <= i
    ensures MintedBy(s, KeyOf(s.requests[i]), i)
    ensures j < i && s.requests[j].phase.Succeeded? ==> Stale(s.requests[j], s.requests[i].startedAt)
  {
    ClockRuns(es, s, configured, clock);
    KeyIdentifiesRequest(s.requests[i].sender, s.requests[i].scopes, s.requests[j].sender, s.requests[j].scopes);
    assert SameKey(s, i, j) && SameKey(s, j, i);
  }

  /** The request behind a hit. */
  lemma {:induction false} HitRequest(
    es: seq<Event>, s: State, configured: int, sender: string, scopes: Option<Scopes>, now: int)
    returns (i: nat)
    requires Reaches(es, s, configured) && ValidScopes(scopes) && Mint(s, sender, scopes, now).1.Hit?
    ensures i < |s.requests| && s.requests[i].sender == sender && SameScopes(s.requests[i].scopes, scopes)
    ensures s.requests[i].phase.Succeeded? && Mint(s, sender, scopes, now).1.entry == EntryOf(s.requests[i].phase)
  {
    SingleFlight(es, s, configured);
    i :| 0 <= i < |s.requests| && MintedBy(s, Key(sender, scopes), i);
    KeyIdentifiesRequest(s.requests[i].sender, s.requests[i].scopes, sender, scopes);
  }

  ghost predicate FreshAt(r: Request, clock: int, now: int) {
    && r.phase.Succeeded? && r.phase.ttl > 10
    && r.startedAt <= clock && r.phase.answeredAt <= clock
    && r.phase.answeredAt <= now < ExpiresAt(r.phase) - SKEW
  }

  /** With such a clock a hit is the token of a request of one's own sender and scopes,
      answered earlier and still inside its lifetime by more than the margin, so a lifetime of
      ten seconds or less is never reused. */
  lemma {:induction false} HitIsFresh(
    es: seq<Event>, s: State, configured: int, clock: int,
    sender: string, scopes: Option<Scopes>, now: int) returns (i: nat)
    requires ReachesAt(es, s, configured, clock) && clock <= now && ValidScopes(scopes)
    requires Mint(s, sender, scopes, now).1.Hit?
    ensures i < |s.requests| && s.requests[i].sender == sender && SameScopes(s.requests[i].scopes, scopes)
    ensures FreshAt(s.requests[i], clock, now)
    ensures Mint(s, sender, scopes, now).1.entry == EntryOf(s.requests[i].phase)
  {
    ReachesAtReaches(es, s, configured, clock);
    i := HitRequest(es, s, configured, sender, scopes, now);
    ClockRuns(es, s, configured, clock);
    assert now < Mint(s, sender, scopes, now).1.entry.expiresAt - SKEW;
  }

  // ---- The service object ----

  class AuthTokenMinter {
    var cache: map<string, Entry>
    var inflight: map<string, nat>
    var requests: seq<Request>
    const configuredTtl: int

    constructor (ttl: int)
      ensures View() == INITIAL && configuredTtl == ttl
    {
      cache, inflight, requests, configuredTtl := map[], map[], [], ttl;
    }

    ghost function View(): State reads this {
      State(cache, inflight, requests)
    }

    method ReadCacheEntry(key: string, now: int) returns (entry: Option<Entry>)
      modifies this`cache
      ensures cache == ReadCache(old(cache), key, now)
      ensures entry == if key in cache then Some(cache[key]) else None
    {
      if key !in cache { return None; }
      if now >= cache[key].expiresAt - SKEW {
        cache := cache - {key};
        return None;
      }
      return Some(cache[key]);
    }

    method MintToken(sender: string, scopes: Option<Scopes>, now: int) returns (served: Served)
      modifies this
      ensures (View(), served) == Mint(old(View()), sender, scopes, now)
    {
      if sender == "" { return Rejected; }
      var hash := StableScopeHash(scopes);
      var key := sender + "::" + hash;
      var cached := ReadCacheEntry(key, now);
      if cached.Some? { return Hit(cached.value); }
      if key in inflight { return Joined(inflight[key]); }
      var id := |requests|;
      requests := requests + [Request(sender, scopes, now, Waiting, false)];
      inflight := inflight[key := id];
      return Started(id);
    }

    method Receive(id: nat, response: Response, now: int)
      requires id < |requests|
      modifies this
      ensures View() == OnAnswer(old(View()), id, response, configuredTtl, now)
    {
      var r := requests[id];
      if response.Body? && response.token.Some? && response.token.value != "" {
        var ttl := configuredTtl;
        if response.expiresIn.Some? {
          ttl := if response.expiresIn.value.Floor < 1 then 1 else response.expiresIn.value.Floor;
        }
        var hash := StableScopeHash(r.scopes);
        cache := cache[r.sender + "::" + hash := Entry(response.token.value, now + ttl * 1000, ttl)];
        requests := requests[id := r.(phase := Succeeded(response.token.value, now, ttl))];
      } else {
        requests := requests[id := r.(phase := Failed)];
      }
    }

    method Settle(id: nat)
      requires id < |requests|
      modifies this
      ensures View() == OnFinally(old(View()), id)
    {
      var r := requests[id];
      inflight := inflight - {Key(r.sender, r.scopes)};
      requests := requests[id := r.(settled := true)];
    }
  }
}
