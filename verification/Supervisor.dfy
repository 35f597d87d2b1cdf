/** The table of agent processes (src/hosting/launch-supervisor.ts), changed by calls, by
    exits of children and by timers, in any order. */
module Supervisor {
  import opened Wrappers
  import opened Sequences
  import JsMap

  datatype Health = Starting | Healthy | Stopped

  /** One launched child; `live` until its exit event has been handled. */
  datatype Record = Record(run: string, participant: string, health: Health, live: bool)

  /** Where a `stop` call on record `id` stands: waiting for exit or timer, resumed, done. */
  datatype StopPhase = Pending | Resumed | Returned

  datatype StopCall = StopCall(id: nat, phase: StopPhase)

  type Table = seq<(string, nat)>

  datatype State = State(processes: Table, records: seq<Record>, stops: seq<StopCall>)

  datatype Event =
    | Launch(run: string, participant: string)
    | Stop(run: string, participant: string)
    | Exit(id: nat)
    | StopTimeout(call: nat)
    | StopReturns(call: nat)
    | StartupTimeout(run: string, participant: string)

  const INITIAL := State([], [], [])

  function MakeKey(run: string, participant: string): string {
    run + ":" + participant
  }

  function KeyOf(r: Record): string {
    MakeKey(r.run, r.participant)
  }

  function Lookup(s: State, key: string): (r: Option<nat>)
    ensures r.Some? ==> r.value < |s.records|
  {
    var view := JsMap.View<string, nat>(s.processes);
    if key in view && view[key] < |s.records| then Some(view[key]) else None
  }

  // ---- Steps ----

  /** The record a launch returns without spawning: tracked and not stopped. */
  function Running(s: State, run: string, participant: string): Option<nat> {
    var id := Lookup(s, MakeKey(run, participant));
    if id.Some? && s.records[id.value].health != Stopped then id else None
  }

  function OnLaunch(s: State, run: string, participant: string): (State, nat) {
    var existing := Running(s, run, participant);
    if existing.Some? then (s, existing.value)
    else
      var id := |s.records|;
      (s.(processes := JsMap.Put<string, nat>(s.processes, MakeKey(run, participant), id),
          records := s.records + [Record(run, participant, Starting, true)]),
       id)
  }

  function OnStop(s: State, run: string, participant: string): State {
    match Lookup(s, MakeKey(run, participant))
    case None => s
    case Some(id) =>
      s.(records := s.records[id := s.records[id].(health := Stopped)],
         stops := s.stops + [StopCall(id, Pending)])
  }

  /** The exit event resumes every `stop` that waits for this child. */
  function Resume(stops: seq<StopCall>, id: nat): seq<StopCall> {
    seq(|stops|, j requires 0 <= j < |stops| =>
      if stops[j] == StopCall(id, Pending) then StopCall(id, Resumed) else stops[j])
  }

  function OnExit(s: State, id: nat): State
    requires id < |s.records|
  {
    var r := s.records[id];
    State(JsMap.Remove<string, nat>(s.processes, KeyOf(r)), s.records[id := r.(health := Stopped, live := false)],
          Resume(s.stops, id))
  }

  function OnStopTimeout(s: State, call: nat): State
    requires call < |s.stops|
  {
    s.(stops := s.stops[call := s.stops[call].(phase := Resumed)])
  }

  function OnStopReturns(s: State, call: nat): State
    requires call < |s.stops| && s.stops[call].id < |s.records|
  {
    s.(processes := JsMap.Remove<string, nat>(s.processes, KeyOf(s.records[s.stops[call].id])),
       stops := s.stops[call := s.stops[call].(phase := Returned)])
  }

  function OnStartupTimeout(s: State, run: string, participant: string): State {
    match Lookup(s, MakeKey(run, participant))
    case Some(id) =>
      if s.records[id].health == Starting
      then s.(records := s.records[id := s.records[id].(health := Healthy)]) else s
    case None => s
  }

  predicate Enabled(s: State, e: Event) {
    match e
    case Exit(id) => id < |s.records| && s.records[id].live
    case StopTimeout(j) => j < |s.stops| && s.stops[j].phase == Pending
    case StopReturns(j) => j < |s.stops| && s.stops[j].phase == Resumed && s.stops[j].id < |s.records|
    case _ => true
  }

  function Step(s: State, e: Event): State
    requires Enabled(s, e)
  {
    match e
    case Launch(run, participant) => OnLaunch(s, run, participant).0
    case Stop(run, participant) => OnStop(s, run, participant)
    case Exit(id) => OnExit(s, id)
    case StopTimeout(j) => OnStopTimeout(s, j)
    case StopReturns(j) => OnStopReturns(s, j)
    case StartupTimeout(run, participant) => OnStartupTimeout(s, run, participant)
  }

  /** Something is still to come for record `i`: its exit event, or the end of a `stop`. */
  ghost predicate Open(s: State, i: int) {
    0 <= i < |s.records| &&
    (s.records[i].live || exists j :: 0 <= j < |s.stops| && s.stops[j].id == i && !s.stops[j].phase.Returned?)
  }

  predicate HasKey(s: State, i: int, key: string) {
    0 <= i < |s.records| && KeyOf(s.records[i]) == key
  }

  ghost predicate StopCalled(s: State, i: int) {
    exists j :: 0 <= j < |s.stops| && s.stops[j].id == i
  }

  /** What a caller of `launch` can see to: once `stop` was called on a child, its key is not
      launched again before that child has exited and the call has returned. */
  ghost predicate Orderly(s: State, e: Event) {
    e.Launch? ==>
      forall j | 0 <= j < |s.stops| && HasKey(s, s.stops[j].id, MakeKey(e.run, e.participant)) ::
        s.stops[j].phase.Returned? && !s.records[s.stops[j].id].live
  }

  ghost predicate StepsTo(s: State, e: Event, t: State) {
    Enabled(s, e) && Orderly(s, e) && t == Step(s, e)
  }

  ghost predicate Reaches(es: seq<Event>, s: State) {
    if es == [] then s == INITIAL
    else exists before :: Reaches(Earlier(es), before) && StepsTo(before, Last(es), s)
  }

  // ---- Who owns an entry ----

  ghost predicate StopsValid(s: State) {
    forall j | 0 <= j < |s.stops| :: s.stops[j].id < |s.records|
  }

  /** An entry leads to a live child of its own key. */
  ghost predicate EntriesLive(s: State) {
    JsMap.Distinct<string, nat>(s.processes) &&
    forall key | key in JsMap.View<string, nat>(s.processes) ::
      HasKey(s, JsMap.View<string, nat>(s.processes)[key], key) &&
      s.records[JsMap.View<string, nat>(s.processes)[key]].live
  }

  ghost predicate OneOpen(s: State) {
    forall i, j | 0 <= i < j < |s.records| && KeyOf(s.records[i]) == KeyOf(s.records[j]) :: !Open(s, i)
  }

  predicate Tracked(s: State, i: int)
    requires 0 <= i < |s.records|
  {
    var view := JsMap.View<string, nat>(s.processes);
    KeyOf(s.records[i]) in view && view[KeyOf(s.records[i])] == i
  }

  ghost predicate GivenUp(s: State, i: int) {
    exists j :: 0 <= j < |s.stops| && s.stops[j].id == i && s.stops[j].phase.Returned?
  }

  ghost predicate LiveTracked(s: State) {
    forall i | 0 <= i < |s.records| && s.records[i].live :: Tracked(s, i) || GivenUp(s, i)
  }

  ghost predicate Inv(s: State) {
    StopsValid(s) && EntriesLive(s) && OneOpen(s) && LiveTracked(s)
  }

  /** Only a `stop` marks a live record as stopped, and one that still waits has a live child. */
  ghost predicate HealthInv(s: State) {
    && (forall i | 0 <= i < |s.records| && s.records[i].live ::
          s.records[i].health == Stopped <==> StopCalled(s, i))
    && (forall j | 0 <= j < |s.stops| && s.stops[j].phase.Pending? ::
          s.stops[j].id < |s.records| && s.records[s.stops[j].id].live)
  }

  // ---- The guard of `launch` ----

  /** The entry of an open record's key is its own, or missing. */
  lemma EntryIsOwn(s: State, id: nat)
    requires Inv(s) && Open(s, id)
    ensures var view, key := JsMap.View<string, nat>(s.processes), KeyOf(s.records[id]);
      key in view ==> view[key] == id
  {
    var view, key := JsMap.View<string, nat>(s.processes), KeyOf(s.records[id]);
    assert key in view ==> Open(s, view[key]) && HasKey(s, view[key], key);
  }

  /** Beside a live child, `launch` spawns again exactly if that child's `stop` was called. */
  lemma GuardIff(s: State, run: string, participant: string, i: nat)
    requires Inv(s) && HealthInv(s) && HasKey(s, i, MakeKey(run, participant)) && s.records[i].live
    ensures Running(s, run, participant).None? <==> StopCalled(s, i)
  {
    EntryIsOwn(s, i);
    assert Tracked(s, i) || GivenUp(s, i);
    assert GivenUp(s, i) ==> StopCalled(s, i);
  }

  ghost predicate AllOver(s: State, key: string) {
    forall i | HasKey(s, i, key) :: !Open(s, i)
  }

  /** So an orderly launch spawns only when every earlier launch of its key is over. */
  lemma SpawnsWhenOver(s: State, run: string, participant: string)
    requires Inv(s) && HealthInv(s) && Orderly(s, Launch(run, participant))
    requires Running(s, run, participant).None?
    ensures AllOver(s, MakeKey(run, participant))
  {
    forall i | HasKey(s, i, MakeKey(run, participant)) ensures !Open(s, i) {
      if s.records[i].live { GuardIff(s, run, participant, i); }
    }
  }

  // ---- Every step keeps the invariants ----

  /** Nothing about identities, life or the stops of any record changed. */
  ghost predicate SameLives(s: State, t: State) {
    && t.processes == s.processes && t.stops == s.stops && |t.records| == |s.records|
    && forall i | 0 <= i < |s.records| ::
         KeyOf(t.records[i]) == KeyOf(s.records[i]) && t.records[i].live == s.records[i].live
  }

  lemma SameLivesKeep(s: State, t: State)
    requires Inv(s) && SameLives(s, t)
    ensures Inv(t)
  {
    assert forall i | Open(t, i) :: Open(s, i);
    assert forall i | 0 <= i < |s.records| :: Tracked(t, i) == Tracked(s, i);
    assert forall i | GivenUp(s, i) :: GivenUp(t, i);
  }

  lemma LaunchKeeps(s: State, run: string, participant: string)
    requires Inv(s)
    requires Running(s, run, participant).None? ==> AllOver(s, MakeKey(run, participant))
    ensures Inv(OnLaunch(s, run, participant).0)
  {
    if Running(s, run, participant).None? {
      var t, n, key := OnLaunch(s, run, participant).0, |s.records|, MakeKey(run, participant);
      assert forall i | 0 <= i < n :: t.records[i] == s.records[i];
      JsMap.PutView<string, nat>(s.processes, key, n);
      JsMap.PutDistinct<string, nat>(s.processes, key, n);
      forall i | 0 <= i < n ensures Open(t, i) == Open(s, i) {}
      LaunchTracks(s, t, key);
      forall i, j | 0 <= i < j < |t.records| && KeyOf(t.records[i]) == KeyOf(t.records[j])
        ensures !Open(t, i)
      {
        if j == n { assert HasKey(s, i, key); }
      }
    }
  }

  lemma LaunchTracks(s: State, t: State, key: string)
    requires LiveTracked(s) && t.stops == s.stops
    requires exists r :: t.records == s.records + [r] && KeyOf(r) == key
    requires JsMap.View<string, nat>(t.processes) == JsMap.View<string, nat>(s.processes)[key := |s.records|]
    requires AllOver(s, key)
    ensures LiveTracked(t)
  {
    forall i | 0 <= i < |t.records| && t.records[i].live ensures Tracked(t, i) || GivenUp(t, i) {
      if i < |s.records| {
        assert t.records[i] == s.records[i];
        assert Open(s, i) && !HasKey(s, i, key);
        assert GivenUp(s, i) ==> GivenUp(t, i);
        assert Tracked(s, i) ==> Tracked(t, i);
      }
    }
  }

  /** A new `stop` call on a live record. */
  lemma StopKeeps(s: State, id: nat, t: State)
    requires Inv(s) && id < |s.records| && s.records[id].live
    requires t == s.(records := s.records[id := s.records[id].(health := Stopped)],
                     stops := s.stops + [StopCall(id, Pending)])
    ensures Inv(t)
  {
    var n := |s.stops|;
    assert forall j | 0 <= j < n :: t.stops[j] == s.stops[j];
    forall i | Open(t, i) ensures Open(s, i) {
      assert t.records[i].live == s.records[i].live;
    }
    forall i | 0 <= i < |t.records| && t.records[i].live ensures Tracked(t, i) || GivenUp(t, i) {
      assert Tracked(s, i) || GivenUp(s, i);
      if GivenUp(s, i) {
        var j :| 0 <= j < n && s.stops[j].id == i && s.stops[j].phase.Returned?;
        assert t.stops[j].id == i && t.stops[j].phase.Returned?;
      }
    }
  }

  /** An exit or a finished `stop` of record `id` takes the entry of its key away. */
  ghost predicate Closes(s: State, id: nat, t: State) {
    && id < |s.records| && |t.records| == |s.records| && |t.stops| == |s.stops|
    && t.processes == JsMap.Remove<string, nat>(s.processes, KeyOf(s.records[id]))
    && (forall i | 0 <= i < |s.records| ::
          KeyOf(t.records[i]) == KeyOf(s.records[i]) &&
          (i != id ==> t.records[i] == s.records[i]) && (t.records[i].live ==> s.records[i].live))
    && (forall j | 0 <= j < |s.stops| ::
          t.stops[j].id == s.stops[j].id && (s.stops[j].phase.Returned? ==> t.stops[j].phase.Returned?))
    && (t.records[id].live ==> GivenUp(t, id))
  }

  lemma ClosesKeeps(s: State, id: nat, t: State)
    requires Inv(s) && Open(s, id) && Closes(s, id, t)
    ensures Inv(t)
  {
    var key := KeyOf(s.records[id]);
    JsMap.RemoveView<string, nat>(s.processes, key);
    EntryIsOwn(s, id);
    forall i | Open(t, i) ensures Open(s, i) {
      if !s.records[i].live {
        var j :| 0 <= j < |t.stops| && t.stops[j].id == i && !t.stops[j].phase.Returned?;
        assert s.stops[j].id == i && !s.stops[j].phase.Returned?;
      }
    }
    forall i | 0 <= i < |t.records| && t.records[i].live ensures Tracked(t, i) || GivenUp(t, i) {
      if i != id { StillAccounted(s, id, t, i); }
    }
  }

  lemma StillAccounted(s: State, id: nat, t: State, i: int)
    requires Inv(s) && Open(s, id) && Closes(s, id, t)
    requires 0 <= i < |s.records| && i != id && s.records[i].live
    ensures Tracked(t, i) || GivenUp(t, i)
  {
    JsMap.RemoveView<string, nat>(s.processes, KeyOf(s.records[id]));
    assert KeyOf(s.records[i]) != KeyOf(s.records[id]) by { assert Open(s, i); }
    assert Tracked(s, i) || GivenUp(s, i);
    if GivenUp(s, i) {
      var j :| 0 <= j < |s.stops| && s.stops[j].id == i && s.stops[j].phase.Returned?;
      assert t.stops[j].id == i && t.stops[j].phase.Returned?;
    }
  }

  lemma ExitCloses(s: State, id: nat)
    requires Enabled(s, Exit(id))
    ensures Closes(s, id, OnExit(s, id)) && Open(s, id)
  {
  }

  lemma StopReturnsCloses(s: State, call: nat)
    requires Enabled(s, StopReturns(call))
    ensures var id := s.stops[call].id; Closes(s, id, OnStopReturns(s, call)) && Open(s, id)
  {
    var t := OnStopReturns(s, call);
    assert t.stops[call].id == s.stops[call].id && t.stops[call].phase.Returned?;
  }

  lemma TimeoutKeeps(s: State, call: nat)
    requires Inv(s) && Enabled(s, StopTimeout(call))
    ensures Inv(OnStopTimeout(s, call))
  {
    var t := OnStopTimeout(s, call);
    assert forall j | 0 <= j < |s.stops| ::
      t.stops[j].id == s.stops[j].id && t.stops[j].phase.Returned? == s.stops[j].phase.Returned?;
    forall i | Open(t, i) ensures Open(s, i) {
      if !s.records[i].live {
        var j :| 0 <= j < |t.stops| && t.stops[j].id == i && !t.stops[j].phase.Returned?;
        assert s.stops[j].id == i && !s.stops[j].phase.Returned?;
      }
    }
    forall i | GivenUp(s, i) ensures GivenUp(t, i) {
      var j :| 0 <= j < |s.stops| && s.stops[j].id == i && s.stops[j].phase.Returned?;
      assert t.stops[j].id == i && t.stops[j].phase.Returned?;
    }
    assert forall i | 0 <= i < |s.records| :: Tracked(t, i) == Tracked(s, i);
  }

  lemma StepKeeps(s: State, e: Event)
    requires Inv(s) && HealthInv(s) && Enabled(s, e) && Orderly(s, e)
    ensures Inv(Step(s, e))
  {
    match e
    case Launch(run, participant) =>
      if Running(s, run, participant).None? { SpawnsWhenOver(s, run, participant); }
      LaunchKeeps(s, run, participant);
    case Stop(run, participant) =>
      var id := Lookup(s, MakeKey(run, participant));
      if id.Some? { StopKeeps(s, id.value, OnStop(s, run, participant)); }
    case Exit(id) =>
      ExitCloses(s, id);
      ClosesKeeps(s, id, OnExit(s, id));
    case StopTimeout(j) => TimeoutKeeps(s, j);
    case StopReturns(j) =>
      StopReturnsCloses(s, j);
      ClosesKeeps(s, s.stops[j].id, OnStopReturns(s, j));
    case StartupTimeout(run, participant) =>
      SameLivesKeep(s, OnStartupTimeout(s, run, participant));
  }

  /** Neither the life nor the health of a live record, nor whether it was stopped, changes. */
  ghost predicate SameHealth(s: State, t: State, i: int) {
    0 <= i < |s.records| && i < |t.records| &&
    (t.records[i].live ==>
       s.records[i].live && (t.records[i].health == Stopped <==> s.records[i].health == Stopped)) &&
    (StopCalled(t, i) <==> StopCalled(s, i))
  }

  lemma HealthCarries(s: State, t: State)
    requires HealthInv(s) && forall i | 0 <= i < |t.records| && t.records[i].live :: SameHealth(s, t, i)
    requires forall j | 0 <= j < |t.stops| && t.stops[j].phase.Pending? ::
      t.stops[j].id < |t.records| && t.records[t.stops[j].id].live
    ensures HealthInv(t)
  {
  }

  /** The same `stop` calls, on the same records. */
  lemma SameStops(s: State, t: State)
    requires |t.stops| == |s.stops| && forall j | 0 <= j < |s.stops| :: t.stops[j].id == s.stops[j].id
    ensures forall i :: StopCalled(t, i) <==> StopCalled(s, i)
  {
    forall i ensures StopCalled(t, i) <==> StopCalled(s, i) {
      if StopCalled(s, i) {
        var j :| 0 <= j < |s.stops| && s.stops[j].id == i;
        assert t.stops[j].id == i;
      }
    }
  }

  lemma StopHealth(s: State, id: nat, t: State)
    requires HealthInv(s) && id < |s.records| && s.records[id].live
    requires t == s.(records := s.records[id := s.records[id].(health := Stopped)],
                     stops := s.stops + [StopCall(id, Pending)])
    ensures HealthInv(t)
  {
    assert t.stops[|s.stops|].id == id;
    forall i | 0 <= i < |t.records| && i != id ensures StopCalled(t, i) <==> StopCalled(s, i) {
      if StopCalled(s, i) {
        var j :| 0 <= j < |s.stops| && s.stops[j].id == i;
        assert t.stops[j].id == i;
      }
    }
  }

  lemma LaunchHealth(s: State, run: string, participant: string)
    requires Inv(s) && HealthInv(s)
    ensures HealthInv(OnLaunch(s, run, participant).0)
  {
    var t := OnLaunch(s, run, participant).0;
    SameStops(s, t);
    assert forall i | 0 <= i < |s.records| :: t.records[i] == s.records[i];
    assert !StopCalled(s, |s.records|);
  }

  lemma StepHealth(s: State, e: Event)
    requires Inv(s) && HealthInv(s) && Enabled(s, e)
    ensures HealthInv(Step(s, e))
  {
    var t := Step(s, e);
    match e
    case Launch(run, participant) => LaunchHealth(s, run, participant);
    case Stop(run, participant) =>
      var id := Lookup(s, MakeKey(run, participant));
      if id.Some? { StopHealth(s, id.value, t); }
    case _ =>
      SameStops(s, t);
      HealthCarries(s, t);
  }

  lemma {:induction false} RunKeeps(es: seq<Event>, s: State)
    requires Reaches(es, s)
    ensures Inv(s) && HealthInv(s)
  {
    if es != [] {
      var before :| Reaches(Earlier(es), before) && StepsTo(before, Last(es), s);
      RunKeeps(Earlier(es), before);
      StepKeeps(before, Last(es));
      StepHealth(before, Last(es));
    }
  }

  // ---- Main results ----

  /** Each key has at most one live child, and a live child is in the table unless a `stop`
      of it gave up waiting. */
  lemma OneChildPerKey(es: seq<Event>, s: State, i: nat, j: nat)
    requires Reaches(es, s) && i < |s.records| && j < |s.records|
    requires s.records[i].live && s.records[j].live
    ensures KeyOf(s.records[i]) == KeyOf(s.records[j]) ==> i == j
    ensures Tracked(s, i) || GivenUp(s, i)
  {
    RunKeeps(es, s);
    assert Open(s, i) && Open(s, j);
  }

  lemma ClosingRemovesOwn(s: State, id: nat, t: State)
    requires Inv(s) && Open(s, id) && Closes(s, id, t)
    ensures var view := JsMap.View<string, nat>(s.processes);
      JsMap.View<string, nat>(t.processes) == map k | k in view && view[k] != id :: view[k]
  {
    EntryIsOwn(s, id);
    JsMap.RemoveView<string, nat>(s.processes, KeyOf(s.records[id]));
  }

  /** The exit handler and a finishing `stop` never remove another launch's record. */
  lemma RemovesOwnOnly(es: seq<Event>, s: State, e: Event)
    requires Reaches(es, s) && Enabled(s, e) && (e.Exit? || e.StopReturns?)
    ensures var id := if e.Exit? then e.id else s.stops[e.call].id;
      var view := JsMap.View<string, nat>(s.processes);
      JsMap.View<string, nat>(Step(s, e).processes) == map k | k in view && view[k] != id :: view[k]
  {
    RunKeeps(es, s);
    var id := if e.Exit? then e.id else s.stops[e.call].id;
    if e.Exit? { ExitCloses(s, id); } else { StopReturnsCloses(s, e.call); }
    ClosingRemovesOwn(s, id, Step(s, e));
  }

  /** When `launch` spawns beside a live child of its key: exactly if `stop` was called on it. */
  lemma SpawnsBesideIff(es: seq<Event>, s: State, run: string, participant: string, i: nat)
    requires Reaches(es, s) && HasKey(s, i, MakeKey(run, participant)) && s.records[i].live
    ensures OnLaunch(s, run, participant) != (s, i) <==> StopCalled(s, i)
    ensures Running(s, run, participant).None? <==> StopCalled(s, i)
  {
    RunKeeps(es, s);
    GuardIff(s, run, participant, i);
    EntryIsOwn(s, i);
  }

  /** The startup timer of a key makes its tracked, still starting child healthy, and changes
      nothing else. */
  lemma StartupMarks(es: seq<Event>, s: State, i: nat)
    requires Reaches(es, s) && i < |s.records| && s.records[i].live && !GivenUp(s, i)
    ensures var t := OnStartupTimeout(s, s.records[i].run, s.records[i].participant);
      && t.records[i].health == (if s.records[i].health == Starting then Healthy else s.records[i].health)
      && |t.records| == |s.records| && (forall j | 0 <= j < |s.records| && j != i :: t.records[j] == s.records[j])
      && t.processes == s.processes && t.stops == s.stops
  {
    RunKeeps(es, s);
    assert Tracked(s, i);
  }

  predicate Ends(e: Event) {
    e.Exit? || e.StopReturns?
  }

  /** The record whose exit or finished `stop` the event is. */
  function Owner(s: State, e: Event): nat
    requires Ends(e) && Enabled(s, e)
  {
    if e.Exit? then e.id else s.stops[e.call].id
  }

  lemma SpawnIsTracked(s: State, run: string, participant: string)
    requires Inv(s) && Running(s, run, participant).None?
    ensures var (t, n) := OnLaunch(s, run, participant);
      && JsMap.Distinct<string, nat>(t.processes) && n == |s.records| && Tracked(t, n) && t.stops == s.stops
      && t.records == s.records + [Record(run, participant, Starting, true)]
  {
    var key, n := MakeKey(run, participant), |s.records|;
    JsMap.PutView<string, nat>(s.processes, key, n);
    JsMap.PutDistinct<string, nat>(s.processes, key, n);
  }

  lemma EndingUntracksIff(s: State, e: Event, n: nat)
    requires JsMap.Distinct<string, nat>(s.processes) && Ends(e) && Enabled(s, e)
    requires n < |s.records| && n != Owner(s, e) && Tracked(s, n)
    ensures var t := Step(s, e);
      && n < |t.records| && t.records[n] == s.records[n]
      && (!Tracked(t, n) <==> KeyOf(s.records[Owner(s, e)]) == KeyOf(s.records[n]))
  {
    JsMap.RemoveView<string, nat>(s.processes, KeyOf(s.records[Owner(s, e)]));
  }

  /** An exit or a finishing `stop` of an earlier child takes a new child's entry away exactly
      when the two share a key; the new child lives on. */
  lemma RelaunchUntracks(es: seq<Event>, s: State, run: string, participant: string, e: Event)
    requires Reaches(es, s) && Running(s, run, participant).None? && Ends(e) && Enabled(s, e)
    ensures var (t, n) := OnLaunch(s, run, participant);
      && Enabled(t, e) && n < |Step(t, e).records| && Step(t, e).records[n].live
      && (!Tracked(Step(t, e), n) <==> HasKey(s, Owner(s, e), MakeKey(run, participant)))
  {
    RunKeeps(es, s);
    SpawnIsTracked(s, run, participant);
    var (t, n) := OnLaunch(s, run, participant);
    EndingUntracksIff(t, e, n);
  }

  /** The event `e`, already due, takes away the entry of the child that a launch spawns. */
  ghost predicate Loses(s: State, run: string, participant: string, e: Event) {
    && Ends(e) && Enabled(s, e)
    && var (t, n) := OnLaunch(s, run, participant);
       Enabled(t, e) && n < |Step(t, e).records| && Step(t, e).records[n].live && !Tracked(Step(t, e), n)
  }

  /** The table loses a new child to an earlier one exactly when the launch was not orderly. */
  lemma LaunchIsLostIff(es: seq<Event>, s: State, run: string, participant: string)
    requires Reaches(es, s)
    ensures !Orderly(s, Launch(run, participant)) <==>
      Running(s, run, participant).None? && exists e :: Loses(s, run, participant, e)
  {
    RunKeeps(es, s);
    var key := MakeKey(run, participant);
    if !Orderly(s, Launch(run, participant)) {
      var j :| 0 <= j < |s.stops| && HasKey(s, s.stops[j].id, key) &&
        !(s.stops[j].phase.Returned? && !s.records[s.stops[j].id].live);
      var i := s.stops[j].id;
      assert StopCalled(s, i) && Open(s, i);
      OpenStoppedSpawns(s, run, participant, i);
      var e := if s.records[i].live then Exit(i) else StopReturns(j);
      RelaunchUntracks(es, s, run, participant, e);
      assert Loses(s, run, participant, e);
    }
    if Running(s, run, participant).None? {
      forall e | Loses(s, run, participant, e) ensures !Orderly(s, Launch(run, participant)) {
        RelaunchUntracks(es, s, run, participant, e);
        if e.Exit? { GuardIff(s, run, participant, e.id); }
      }
    }
  }

  lemma OpenStoppedSpawns(s: State, run: string, participant: string, i: nat)
    requires Inv(s) && HealthInv(s) && HasKey(s, i, MakeKey(run, participant))
    requires StopCalled(s, i) && Open(s, i)
    ensures Running(s, run, participant).None?
  {
    EntryIsOwn(s, i);
  }

  // ---- The prefix scan ----

  /** The entries whose key starts with `prefix`, in table order. */
  function WithPrefix(table: Table, prefix: string): seq<nat> {
    if table == [] then []
    else if prefix <= table[0].0 then [table[0].1] + WithPrefix(table[1..], prefix)
    else WithPrefix(table[1..], prefix)
  }

  /** The entries whose record belongs to `run`, in table order. */
  function OfRun(s: State, table: Table, run: string): seq<nat> {
    if table == [] then []
    else
      var rest := OfRun(s, table[1..], run);
      if table[0].1 < |s.records| && s.records[table[0].1].run == run then [table[0].1] + rest else rest
  }

  /** One run id is the other followed by a colon and more. */
  predicate Confusable(run: string, other: string) {
    run + ":" <= other || other + ":" <= run
  }

  /** Which keys the scan for `run` matches, whatever characters the ids hold. */
  lemma PrefixIff(run: string, other: string, participant: string)
    ensures run + ":" <= MakeKey(other, participant) <==>
      run == other || run + ":" <= other ||
      (other + ":" <= run && run[|other| + 1..] + ":" <= participant)
  {
    var p, key := run + ":", MakeKey(other, participant);
    if |run| < |other| {
      assert key[..|p|] == other[..|p|];
    } else if |run| == |other| {
      assert key[..|p|] == other + ":";
      assert run == p[..|run|] && other == (other + ":")[..|run|];
    } else {
      var rest := run[|other| + 1..] + ":";
      assert key == (other + ":") + participant;
      if other + ":" <= run { assert p == (other + ":") + rest; }
      if p <= key { assert run[..|other| + 1] == p[..|other| + 1] == key[..|other| + 1] == other + ":"; }
      if other + ":" <= run { PrefixCancels(other + ":", rest, participant); }
    }
  }

  /** Two different runs are ever mixed up exactly if one id extends the other by a colon. */
  lemma MixedUpIff(run: string, other: string)
    requires run != other
    ensures (exists participant: string :: run + ":" <= MakeKey(other, participant)) <==> Confusable(run, other)
  {
    forall participant: string
      ensures run + ":" <= MakeKey(other, participant) ==> Confusable(run, other)
    {
      PrefixIff(run, other, participant);
    }
    if Confusable(run, other) {
      var participant := if run + ":" <= other then "" else run[|other| + 1..] + ":";
      PrefixIff(run, other, participant);
      assert run + ":" <= MakeKey(other, participant);
    }
  }

  /** No entry of another run has a key that the scan for `run` matches. */
  ghost predicate NoStranger(s: State, table: Table, run: string) {
    forall i | 0 <= i < |table| && run + ":" <= table[i].0 ::
      0 <= table[i].1 < |s.records| && s.records[table[i].1].run == run
  }

  lemma {:induction false} ScanNeverMisses(s: State, table: Table, run: string)
    requires forall i | 0 <= i < |table| :: HasKey(s, table[i].1, table[i].0)
    ensures |OfRun(s, table, run)| <= |WithPrefix(table, run + ":")|
  {
    if table != [] {
      var tail := table[1..];
      assert forall i | 0 <= i < |tail| :: tail[i] == table[i + 1];
      var r := s.records[table[0].1];
      PrefixIff(run, r.run, r.participant);
      ScanNeverMisses(s, tail, run);
    }
  }

  lemma {:induction false} ScanIsOfRunIff(s: State, table: Table, run: string)
    requires forall i | 0 <= i < |table| :: HasKey(s, table[i].1, table[i].0)
    ensures WithPrefix(table, run + ":") == OfRun(s, table, run) <==> NoStranger(s, table, run)
  {
    if table != [] {
      var tail := table[1..];
      assert forall i | 0 <= i < |tail| :: tail[i] == table[i + 1];
      var r := s.records[table[0].1];
      PrefixIff(run, r.run, r.participant);
      ScanIsOfRunIff(s, tail, run);
      ScanNeverMisses(s, tail, run);
      var p, w, o := run + ":", WithPrefix(tail, run + ":"), OfRun(s, tail, run);
      assert ([table[0].1] + w)[1..] == w && ([table[0].1] + o)[1..] == o;
      assert NoStranger(s, table, run) <==> NoStranger(s, tail, run) && (p <= table[0].0 ==> r.run == run) by {
        assert forall i | 1 <= i < |table| :: table[i] == tail[i - 1];
      }
    }
  }

  lemma {:induction false} EntriesHaveKeys(s: State, table: Table)
    requires JsMap.Distinct<string, nat>(table)
    requires forall key | key in JsMap.View<string, nat>(table) :: HasKey(s, JsMap.View<string, nat>(table)[key], key)
    ensures forall i | 0 <= i < |table| :: HasKey(s, table[i].1, table[i].0)
  {
    forall i | 0 <= i < |table| ensures HasKey(s, table[i].1, table[i].0) {
      JsMap.ViewCut<string, nat>(table, i);
    }
  }

  /** The scan finds exactly the run's records, in order, if and only if it meets no stranger;
      and it meets none if no recorded run id is confusable with this one. */
  lemma ScanFindsRun(es: seq<Event>, s: State, run: string)
    requires Reaches(es, s)
    ensures WithPrefix(s.processes, run + ":") == OfRun(s, s.processes, run) <==>
            NoStranger(s, s.processes, run)
    ensures (forall i | 0 <= i < |s.records| :: !Confusable(run, s.records[i].run)) ==>
            WithPrefix(s.processes, run + ":") == OfRun(s, s.processes, run)
  {
    RunKeeps(es, s);
    EntriesHaveKeys(s, s.processes);
    ScanIsOfRunIff(s, s.processes, run);
    if forall i | 0 <= i < |s.records| :: !Confusable(run, s.records[i].run) {
      forall i | 0 <= i < |s.processes| && run + ":" <= s.processes[i].0
        ensures 0 <= s.processes[i].1 < |s.records| && s.records[s.processes[i].1].run == run
      {
        assert HasKey(s, s.processes[i].1, s.processes[i].0);
        var r := s.records[s.processes[i].1];
        PrefixIff(run, r.run, r.participant);
      }
    }
  }

  /** An instance: a run id extended by a colon is a stranger with every participant. */
  lemma ColonMisleads(run: string, suffix: string, participant: string)
    ensures run + ":" <= MakeKey(run + ":" + suffix, participant)
  {
    PrefixIff(run, run + ":" + suffix, participant);
  }

  // ---- The service object ----

  class LaunchSupervisor {
    var processes: Table
    var records: seq<Record>
    var stops: seq<StopCall>

    constructor ()
      ensures View() == INITIAL
    {
      processes, records, stops := [], [], [];
    }

    ghost function View(): State reads this {
      State(processes, records, stops)
    }

    method Get(key: string) returns (id: Option<nat>)
      ensures id == Lookup(View(), key)
    {
      var view := JsMap.View<string, nat>(processes);
      if key in view && view[key] < |records| { return Some(view[key]); }
      return None;
    }

    method LaunchProcess(run: string, participant: string) returns (id: nat)
      modifies this
      ensures (View(), id) == OnLaunch(old(View()), run, participant)
    {
      var key := MakeKey(run, participant);
      var existing := Get(key);
      if existing.Some? && records[existing.value].health != Stopped { return existing.value; }
      id := |records|;
      records := records + [Record(run, participant, Starting, true)];
      processes := JsMap.Put<string, nat>(processes, key, id);
    }

    method StopProcess(run: string, participant: string)
      modifies this
      ensures View() == OnStop(old(View()), run, participant)
    {
      var id := Get(MakeKey(run, participant));
      if id.None? { return; }
      records := records[id.value := records[id.value].(health := Stopped)];
      stops := stops + [StopCall(id.value, Pending)];
    }

    method HandleExit(id: nat)
      requires id < |records|
      modifies this
      ensures View() == OnExit(old(View()), id)
    {
      var key := KeyOf(records[id]);
      records := records[id := records[id].(health := Stopped, live := false)];
      processes := JsMap.Remove<string, nat>(processes, key);
      var j := 0;
      while j < |stops|
        invariant 0 <= j <= |stops| == |old(stops)|
        invariant forall i | 0 <= i < j :: stops[i] == Resume(old(stops), id)[i]
        invariant forall i | j <= i < |stops| :: stops[i] == old(stops)[i]
        invariant processes == JsMap.Remove<string, nat>(old(processes), key)
        invariant records == OnExit(old(View()), id).records
      {
        if stops[j] == StopCall(id, Pending) { stops := stops[j := StopCall(id, Resumed)]; }
        j := j + 1;
      }
      assert stops == Resume(old(stops), id);
    }

    method FinishStop(call: nat)
      requires call < |stops| && stops[call].id < |records|
      modifies this
      ensures View() == OnStopReturns(old(View()), call)
    {
      processes := JsMap.Remove<string, nat>(processes, KeyOf(records[stops[call].id]));
      stops := stops[call := stops[call].(phase := Returned)];
    }

    method AssumeHealthy(run: string, participant: string)
      modifies this
      ensures View() == OnStartupTimeout(old(View()), run, participant)
    {
      var id := Get(MakeKey(run, participant));
      if id.Some? && records[id.value].health == Starting {
        records := records[id.value := records[id.value].(health := Healthy)];
      }
    }

    method GetProcessesForRun(run: string) returns (result: seq<nat>)
      ensures result == WithPrefix(processes, run + ":")
    {
      result := [];
      var i := 0;
      assert processes[0..] == processes;
      while i < |processes|
        invariant 0 <= i <= |processes|
        invariant WithPrefix(processes, run + ":") == result + WithPrefix(processes[i..], run + ":")
      {
        assert processes[i..][0] == processes[i] && processes[i..][1..] == processes[i + 1..];
        if run + ":" <= processes[i].0 { result := result + [processes[i].1]; }
        i := i + 1;
      }
    }
  }
}
