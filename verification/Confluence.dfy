/** What the coordinator decides on, under in-order delivery: one signal per specialist, its
    Evaluation if the runtime accepted it and its Vote otherwise, in every interleaving. */
module Confluence {
  import opened Wrappers
  import opened Messages
  import opened Policy
  import opened PolicyLaws
  import opened Session
  import opened Ordered
  import JsMap
  import C = Coordinator
  import W = Worker

  predicate Suspends(c: C.Config) {
    c.suspendDemo && c.hasSession
  }

  /** The signal that specialist `k` contributes, given what the runtime accepted. */
  ghost function Contribution(x: Inputs, log: seq<Envelope>, k: nat): Signal
    requires k < |x.analyses| == |Specialists(x.c)|
  {
    if EvaluatedIn(log, Specialists(x.c)[k]) then
      var e := W.EvaluationOf(x.id, x.analyses[k]);
      C.EvaluationSignal(e.recommendation, e.confidence)
    else C.VoteSignal(VoteOf(x, k).vote)
  }

  ghost predicate Contributions(x: Inputs, log: seq<Envelope>, m: map<Id, Signal>)
    requires |x.analyses| == |Specialists(x.c)|
  {
    && m.Keys == SetOf(Specialists(x.c))
    && forall k | 0 <= k < |x.analyses| ::
         Specialists(x.c)[k] in m.Keys && m[Specialists(x.c)[k]] == Contribution(x, log, k)
  }

  /** Every slot of the Map, complete or not, is its sender's contribution, and no later
      Evaluation can change that. */
  ghost predicate Slots(x: Inputs, log: seq<Envelope>, m: map<Id, Signal>)
    requires |x.analyses| == |Specialists(x.c)|
  {
    && m.Keys <= SetOf(Specialists(x.c))
    && forall k | 0 <= k < |x.analyses| && Specialists(x.c)[k] in m.Keys ::
         m[Specialists(x.c)[k]] == Contribution(x, log, k) &&
         (EvaluatedIn(log, Specialists(x.c)[k]) || VotingOpen(log))
  }

  ghost predicate OrderedDecision(x: Inputs, s: Sys)
    requires |x.analyses| == |Specialists(x.c)|
  {
    !Suspends(x.c) ==>
      && (s.coord.committed ==> s.coord.decided.Some?)
      && (s.coord.decided.Some? ==> Slots(x, s.log, JsMap.View(s.coord.decided.value)))
  }

  ghost predicate OrderedInv(x: Inputs, o: OrderedSys)
    requires |x.analyses| == |Specialists(x.c)|
  {
    && Inv(x.c, x.id, o.sys)
    && OrderedNodes(x, o)
    && OrderedLog(x, o.sys.log)
    && OrderedCoordinator(x, o.sys.log, o.sys.coord, o.coordRead)
    && OrderedDecision(x, o.sys)
  }

  // ---- At the moment of the commit ----

  lemma EvaluationIsRecorded(x: Inputs, log: seq<Envelope>, i: nat, q: Id)
    requires i <= |log| && EvaluatedIn(log[..i], q) && q != x.c.self && x.id != ""
    requires forall j | 0 <= j < |log| :: Authentic(x.c, x.id, log[j])
    ensures q in SignalMap(x.c, log[..i])
  {
    var l := log[..i];
    var j :| 0 <= j < |l| && l[j].sender == q && l[j].msg.EvaluationMsg?;
    assert Authentic(x.c, x.id, log[j]) && l[j] == log[j];
    assert C.SignalOf(x.c, l[j]).Some?;
    SignalMapFrom(x.c, l, q);
  }

  lemma {:induction false} SignalMapGrows(c: C.Config, log: seq<Envelope>, i: nat, j: nat)
    requires i <= j <= |log|
    ensures SignalMap(c, log[..i]).Keys <= SignalMap(c, log[..j]).Keys
    decreases j - i
  {
    if i < j {
      SignalMapGrows(c, log, i, j - 1);
      SignalMapStep(c, log, j - 1);
    }
  }

  /** If a specialist with an accepted Evaluation has a Vote in the log, everyone had
      reported before that Vote. */
  lemma VoteComesAfterEveryone(x: Inputs, log: seq<Envelope>, i: nat, k: nat)
    requires Admissible(x) && LogInv(x.c, x.id, log) && OrderedLog(x, log) && i < |log| && k < |x.analyses|
    requires log[i].sender == Specialists(x.c)[k] && log[i].msg.VoteMsg?
    requires EvaluatedIn(log, Specialists(x.c)[k])
    ensures SetOf(Specialists(x.c)) <= SignalMap(x.c, log[..i]).Keys
  {
    var p := Specialists(x.c)[k];
    SpecialistsAre(x.c);
    assert p in Specialists(x.c);
    forall q | q in SetOf(Specialists(x.c)) ensures q in SignalMap(x.c, log[..i]) {
      if q == p {
        var j :| 0 <= j < |log| && log[j].sender == p && log[j].msg.EvaluationMsg?;
        assert log[..i][j] == log[j];
      } else {
        assert OthersEvaluated(x.c, log[..i], p);
      }
      EvaluationIsRecorded(x, log, i, q);
    }
  }

  /** A specialist's entries carry its own Evaluation or Vote. */
  lemma EntrySays(x: Inputs, log: seq<Envelope>, k: nat, i: nat)
    requires LogInv(x.c, x.id, log) && i < |log| && k < |x.analyses| == |Specialists(x.c)| && OrderedLog(x, log)
    requires log[i].sender == Specialists(x.c)[k] && C.SignalOf(x.c, log[i]).Some?
    ensures log[i].msg.EvaluationMsg? || log[i].msg.VoteMsg?
    ensures log[i].msg.EvaluationMsg? ==> log[i].msg == W.EvaluationOf(x.id, x.analyses[k])
    ensures log[i].msg.VoteMsg? ==> log[i].msg == VoteOf(x, k)
  {
    assert Authentic(x.c, x.id, log[i]);
  }

  ghost predicate Full(x: Inputs, log: seq<Envelope>, read: nat)
    requires read <= |log|
  {
    SetOf(Specialists(x.c)) <= SignalMap(x.c, log[..read]).Keys
  }

  /** An entry that the coordinator reads before everyone had reported says what its
      sender contributes. */
  lemma EntryContributes(x: Inputs, log: seq<Envelope>, read: nat, k: nat, i: nat)
    requires Admissible(x) && LogInv(x.c, x.id, log) && OrderedLog(x, log) && k < |x.analyses|
    requires i <= read <= |log| && i < |log| && !Full(x, log, read)
    requires log[i].sender == Specialists(x.c)[k] && C.SignalOf(x.c, log[i]).Some?
    ensures C.SignalOf(x.c, log[i]) == Some(Contribution(x, log, k))
    ensures EvaluatedIn(log, Specialists(x.c)[k]) || VotingOpen(log)
  {
    EntrySays(x, log, k, i);
    var e, p := log[i], Specialists(x.c)[k];
    if e.msg.VoteMsg? {
      if EvaluatedIn(log, p) {
        VoteComesAfterEveryone(x, log, i, k);
        SignalMapGrows(x.c, log, i, read);
      }
      assert C.SignalOf(x.c, e) == Some(C.VoteSignal(e.msg.vote));
    } else {
      assert EvaluatedIn(log, p);
      assert C.SignalOf(x.c, e) == Some(C.EvaluationSignal(e.msg.recommendation, e.msg.confidence));
    }
  }

  /** The slots up to the entry at which the Map becomes complete. */
  lemma SlotsAt(x: Inputs, log: seq<Envelope>, read: nat, j: nat)
    requires Admissible(x) && LogInv(x.c, x.id, log) && OrderedLog(x, log)
    requires read <= j <= read + 1 && j <= |log| && !Full(x, log, read)
    requires SignalMap(x.c, log[..j]).Keys <= SetOf(Specialists(x.c))
    ensures Slots(x, log, SignalMap(x.c, log[..j]))
  {
    var l := log[..j];
    forall k | 0 <= k < |x.analyses| && Specialists(x.c)[k] in SignalMap(x.c, l)
      ensures SignalMap(x.c, l)[Specialists(x.c)[k]] == Contribution(x, log, k)
      ensures EvaluatedIn(log, Specialists(x.c)[k]) || VotingOpen(log)
    {
      var p := Specialists(x.c)[k];
      SignalMapFrom(x.c, l, p);
      var i :| 0 <= i < |l| && l[i].sender == p && C.SignalOf(x.c, l[i]) == Some(SignalMap(x.c, l)[p]);
      EntryContributes(x, log, read, k, i);
    }
  }

  lemma TooFew(x: Inputs, s: Sys, read: nat)
    requires Admissible(x) && Inv(x.c, x.id, s) && OrderedCoordinator(x, s.log, s.coord, read)
    requires |s.coord.signals| < |Specialists(x.c)|
    ensures !Full(x, s.log, read)
  {
    JsMap.ViewSize(s.coord.signals);
    SpecialistsAre(x.c);
    DistinctSize(Specialists(x.c));
    assert |JsMap.View(s.coord.signals).Keys| == |JsMap.View(s.coord.signals)| < |SetOf(Specialists(x.c))|;
    if Full(x, s.log, read) { SmallerSet(SetOf(Specialists(x.c)), JsMap.View(s.coord.signals).Keys); }
  }

  lemma RecordedMap(x: Inputs, s: Sys, read: nat)
    requires Admissible(x) && Inv(x.c, x.id, s) && read < |s.log|
    requires OrderedCoordinator(x, s.log, s.coord, read) && C.SignalOf(x.c, s.log[read]).Some?
    ensures var e := s.log[read]; var r := C.Recorded(s.coord, e.sender, C.SignalOf(x.c, e).value);
      && |r.signals| <= |Specialists(x.c)|
      && JsMap.View(r.signals) == SignalMap(x.c, s.log[..read + 1])
      && JsMap.View(r.signals).Keys <= SetOf(Specialists(x.c))
  {
    assert Authentic(x.c, x.id, s.log[read]);
    RecordedWithin(x, s, s.log[read]);
    SignalMapStep(x.c, s.log, read);
  }

  /** A Map that commits without force is full, so the one before it was not. */
  lemma QuorumWasOpen(x: Inputs, s: Sys, r: C.State, read: nat)
    requires OrderedCoordinator(x, s.log, s.coord, read) && !s.coord.committed
    requires |r.signals| <= |Specialists(x.c)| && C.MayCommit(x.c, r, false)
    ensures |s.coord.signals| < |Specialists(x.c)|
  {
    assert FullQuorum(x.c);
  }

  lemma CommitSlots(x: Inputs, s: Sys, read: nat)
    requires Admissible(x) && Inv(x.c, x.id, s) && OrderedLog(x, s.log) && read < |s.log|
    requires OrderedCoordinator(x, s.log, s.coord, read) && !s.coord.committed
    requires C.SignalOf(x.c, s.log[read]).Some?
    requires C.MayCommit(x.c, C.Recorded(s.coord, s.log[read].sender, C.SignalOf(x.c, s.log[read]).value), false)
    ensures Slots(x, s.log, SignalMap(x.c, s.log[..read + 1]))
  {
    RecordedMap(x, s, read);
    QuorumWasOpen(x, s, C.Recorded(s.coord, s.log[read].sender, C.SignalOf(x.c, s.log[read]).value), read);
    TooFew(x, s, read);
    SlotsAt(x, s.log, read, read + 1);
  }

  /** Had the Map been full, it would have committed before the deadline. */
  lemma DeadlineIsEarly(x: Inputs, s: Sys, read: nat)
    requires Admissible(x) && Inv(x.c, x.id, s) && OrderedCoordinator(x, s.log, s.coord, read) && !s.coord.committed
    requires x.c.strategy.isQuorumMet(|s.coord.signals|, |Specialists(x.c)|)
    ensures |s.coord.signals| < |Specialists(x.c)|
    ensures JsMap.View(s.coord.signals).Keys <= SetOf(Specialists(x.c))
  {
    FullMapIsEveryone(x.c, s.coord.signals);
  }

  /** What the deadline commits with: a Map that still lacks someone. */
  lemma ForcedSlots(x: Inputs, s: Sys, read: nat)
    requires Admissible(x) && Inv(x.c, x.id, s) && OrderedLog(x, s.log)
    requires OrderedCoordinator(x, s.log, s.coord, read) && !s.coord.committed
    requires x.c.strategy.isQuorumMet(|s.coord.signals|, |Specialists(x.c)|)
    ensures Slots(x, s.log, JsMap.View(s.coord.signals))
  {
    DeadlineIsEarly(x, s, read);
    TooFew(x, s, read);
    SlotsAt(x, s.log, read, read);
  }

  lemma SmallerSet<T>(a: set<T>, b: set<T>)
    requires a <= b
    ensures |a| <= |b|
  {
    assert b == a + (b - a);
    assert |b| == |a| + |b - a|;
  }

  // ---- Afterwards ----

  lemma WorkerKeepsSlots(x: Inputs, o: OrderedSys, e: Event, m: map<Id, Signal>)
    requires Admissible(x) && OrderedInv(x, o) && OrderedEnabled(x, o, e) && e.WorkerSettles? && Slots(x, o.sys.log, m)
    ensures Slots(x, OrderedStep(x, o, e).sys.log, m)
  {
    var log, n := o.sys.log, o.sys.nodes[e.k];
    SettleShape(x, o, e);
    assert NodeInv(x.c, x.id, log, Specialists(x.c)[e.k], n);
    if e.ok {
      AppendKeepsSlots(x, log, Envelope(Specialists(x.c)[e.k], Submission(n.busy)), m);
    }
  }

  lemma CoordinatorAppends(x: Inputs, o: OrderedSys, e: Event)
    requires |o.read| == |o.sys.nodes| == |x.analyses| == |Specialists(x.c)|
    requires OrderedEnabled(x, o, e) && e.CoordinatorSettles?
    ensures var log, sent := o.sys.log, CoordinatorSubmission(x.c, o.sys.coord);
      && OrderedStep(x, o, e).sys.log == (if e.ok && sent != [] then log + [sent[0]] else log)
      && (sent != [] ==> !sent[0].msg.EvaluationMsg?)
  {
    var log, sent := o.sys.log, CoordinatorSubmission(x.c, o.sys.coord);
    if sent == [] { assert log + [] == log; } else { assert sent == [sent[0]]; }
  }

  lemma CoordinatorKeepsSlots(x: Inputs, o: OrderedSys, e: Event, m: map<Id, Signal>)
    requires Admissible(x) && OrderedInv(x, o) && OrderedEnabled(x, o, e)
    requires e.CoordinatorSettles? && Slots(x, o.sys.log, m)
    ensures Slots(x, OrderedStep(x, o, e).sys.log, m)
  {
    CoordinatorAppends(x, o, e);
    var sent := CoordinatorSubmission(x.c, o.sys.coord);
    if e.ok && sent != [] { AppendKeepsSlots(x, o.sys.log, sent[0], m); }
  }

  /** No step changes the contribution of a recorded slot. */
  lemma SlotsStay(x: Inputs, o: OrderedSys, e: Event, m: map<Id, Signal>)
    requires Admissible(x) && OrderedInv(x, o) && OrderedEnabled(x, o, e) && Slots(x, o.sys.log, m)
    ensures Slots(x, OrderedStep(x, o, e).sys.log, m)
  {
    match e
    case WorkerSettles(_, _) => WorkerKeepsSlots(x, o, e, m);
    case CoordinatorSettles(_) => CoordinatorKeepsSlots(x, o, e, m);
    case _ =>
  }

  lemma AppendKeepsSlots(x: Inputs, log: seq<Envelope>, e: Envelope, m: map<Id, Signal>)
    requires |x.analyses| == |Specialists(x.c)| && Slots(x, log, m)
    requires e.msg.EvaluationMsg? ==> !VotingOpen(log)
    ensures Slots(x, log + [e], m)
  {
    Appended(log, e);
  }

  /** Reading an entry decides only when it commits, and then on the Map just recorded. */
  lemma ReadingDecides(c: C.Config, s: C.State, e: Envelope)
    requires !Suspends(c)
    ensures var s' := C.Deliver(c, s, e); var signal := C.SignalOf(c, e);
      if signal.Some? && C.MayCommit(c, C.Recorded(s, e.sender, signal.value), false)
      then s'.decided == Some(C.Recorded(s, e.sender, signal.value).signals)
      else s'.decided == s.decided && s'.committed == s.committed
  {
    C.DeliverIs(c, s, e);
  }

  lemma CoordinatorReadsDecided(x: Inputs, o: OrderedSys, e: Event)
    requires Admissible(x) && OrderedInv(x, o) && OrderedEnabled(x, o, e) && e.ToCoordinator?
    ensures OrderedDecision(x, OrderedStep(x, o, e).sys)
  {
    var s, m := o.sys.coord, o.sys.log[o.coordRead];
    var signal := C.SignalOf(x.c, m);
    if !Suspends(x.c) {
      ReadingDecides(x.c, s, m);
      if signal.Some? && C.MayCommit(x.c, C.Recorded(s, m.sender, signal.value), false) {
        ReadingCommits(x, o.sys, o.coordRead);
      }
    }
  }

  lemma ReadingCommits(x: Inputs, s: Sys, read: nat)
    requires Admissible(x) && Inv(x.c, x.id, s) && OrderedLog(x, s.log) && read < |s.log|
    requires OrderedCoordinator(x, s.log, s.coord, read) && C.SignalOf(x.c, s.log[read]).Some?
    requires C.MayCommit(x.c, C.Recorded(s.coord, s.log[read].sender, C.SignalOf(x.c, s.log[read]).value), false)
    ensures var r := C.Recorded(s.coord, s.log[read].sender, C.SignalOf(x.c, s.log[read]).value);
            Slots(x, s.log, JsMap.View(r.signals))
  {
    RecordedMap(x, s, read);
    CommitSlots(x, s, read);
  }

  lemma DeadlineDecided(x: Inputs, o: OrderedSys, e: Event)
    requires Admissible(x) && OrderedInv(x, o) && OrderedEnabled(x, o, e) && e.DeadlineFires?
    ensures OrderedDecision(x, OrderedStep(x, o, e).sys)
  {
    if !o.sys.coord.committed && OrderedStep(x, o, e).sys.coord.committed {
      ForcedSlots(x, o.sys, o.coordRead);
    }
  }

  lemma StepDecided(x: Inputs, o: OrderedSys, e: Event)
    requires Admissible(x) && OrderedInv(x, o) && OrderedEnabled(x, o, e)
    ensures OrderedDecision(x, OrderedStep(x, o, e).sys)
  {
    if o.sys.coord.decided.Some? && !Suspends(x.c) {
      SlotsStay(x, o, e, JsMap.View(o.sys.coord.decided.value));
    }
    match e
    case ToCoordinator(_) => CoordinatorReadsDecided(x, o, e);
    case DeadlineFires(_) => DeadlineDecided(x, o, e);
    case CoordinatorSettles(ok) => C.SettleKeeps(x.c, o.sys.coord, ok);
    case _ =>
  }

  lemma CoordinatorAfterSettling(x: Inputs, o: OrderedSys, e: Event)
    requires Admissible(x) && OrderedInv(x, o) && OrderedEnabled(x, o, e) && e.CoordinatorSettles?
    ensures var o' := OrderedStep(x, o, e); OrderedCoordinator(x, o'.sys.log, o'.sys.coord, o'.coordRead)
  {
    var o' := OrderedStep(x, o, e);
    StepKeepsOrdered(x, o, e);
    C.SettleKeeps(x.c, o.sys.coord, e.ok);
    OrderedCoordinatorExtend(x, o.sys.log, o.sys.coord, o'.sys.coord, o.coordRead, o'.sys.log);
  }

  lemma CoordinatorAfterReading(x: Inputs, o: OrderedSys, e: Event)
    requires Admissible(x) && OrderedInv(x, o) && OrderedEnabled(x, o, e) && e.ToCoordinator?
    ensures var o' := OrderedStep(x, o, e); OrderedCoordinator(x, o'.sys.log, o'.sys.coord, o'.coordRead)
  {
    OrderedCoordinatorDeliver(x, o.sys, o.coordRead);
  }

  lemma CoordinatorAfterDeadline(x: Inputs, o: OrderedSys, e: Event)
    requires Admissible(x) && OrderedInv(x, o) && OrderedEnabled(x, o, e) && e.DeadlineFires?
    ensures var o' := OrderedStep(x, o, e); OrderedCoordinator(x, o'.sys.log, o'.sys.coord, o'.coordRead)
  {
    OrderedCoordinatorExtend(x, o.sys.log, o.sys.coord, OrderedStep(x, o, e).sys.coord, o.coordRead, o.sys.log);
  }

  lemma CoordinatorDuringWorker(x: Inputs, o: OrderedSys, e: Event)
    requires Admissible(x) && OrderedInv(x, o) && OrderedEnabled(x, o, e) && (e.ToWorker? || e.WorkerSettles?)
    ensures var o' := OrderedStep(x, o, e); OrderedCoordinator(x, o'.sys.log, o'.sys.coord, o'.coordRead)
  {
    StepKeepsOrdered(x, o, e);
    OrderedCoordinatorExtend(x, o.sys.log, o.sys.coord, o.sys.coord, o.coordRead, OrderedStep(x, o, e).sys.log);
  }

  lemma CoordinatorAfterStep(x: Inputs, o: OrderedSys, e: Event)
    requires Admissible(x) && OrderedInv(x, o) && OrderedEnabled(x, o, e)
    ensures var o' := OrderedStep(x, o, e); OrderedCoordinator(x, o'.sys.log, o'.sys.coord, o'.coordRead)
  {
    match e
    case ToCoordinator(_) => CoordinatorAfterReading(x, o, e);
    case CoordinatorSettles(_) => CoordinatorAfterSettling(x, o, e);
    case DeadlineFires(_) => CoordinatorAfterDeadline(x, o, e);
    case _ => CoordinatorDuringWorker(x, o, e);
  }

  lemma OrderedInvStep(x: Inputs, o: OrderedSys, e: Event)
    requires Admissible(x) && OrderedInv(x, o) && OrderedEnabled(x, o, e)
    ensures OrderedInv(x, OrderedStep(x, o, e))
  {
    InvStep(x.c, x.id, o.sys, e);
    StepKeepsOrdered(x, o, e);
    CoordinatorAfterStep(x, o, e);
    StepDecided(x, o, e);
  }

  lemma {:induction false} OrderedInvRun(x: Inputs, es: seq<Event>)
    requires Admissible(x) && OrderedRun(x, es).Some?
    ensures OrderedInv(x, OrderedRun(x, es).value)
  {
    if es == [] {
      InvRun(x.c, x.id, []);
      OrderedStartInv(x);
    } else {
      OrderedInvRun(x, es[..|es| - 1]);
      OrderedInvStep(x, OrderedRun(x, es[..|es| - 1]).value, es[|es| - 1]);
    }
  }

  lemma OrderedStartInv(x: Inputs)
    requires Admissible(x) && Inv(x.c, x.id, Start(x.c, x.id))
    ensures OrderedInv(x, OrderedStart(x))
  {
    var o := OrderedStart(x);
    assert o.sys.log[..0] == [];
    forall k | 0 <= k < |x.analyses| ensures OrderedNode(x, o.sys.log, k, o.sys.nodes[k], 0) {
      assert !EvaluatedIn(o.sys.log[..0], "");
    }
  }

  // ---- Main results ----

  /** The coordinator of a run without the suspend demo, once it has decided. */
  ghost predicate Decided(x: Inputs, es: seq<Event>)
    requires |x.analyses| == |Specialists(x.c)|
  {
    OrderedRun(x, es).Some? && !Suspends(x.c) && OrderedRun(x, es).value.sys.coord.decided.Some?
  }

  /** The same, where the deadline did not force the commit. */
  ghost predicate Decides(x: Inputs, es: seq<Event>)
    requires |x.analyses| == |Specialists(x.c)|
  {
    Decided(x, es) && !OrderedRun(x, es).value.sys.forced
  }

  ghost function DecidedMap(x: Inputs, es: seq<Event>): map<Id, Signal>
    requires |x.analyses| == |Specialists(x.c)| && Decided(x, es)
  {
    JsMap.View(OrderedRun(x, es).value.sys.coord.decided.value)
  }

  /** Without the suspend demo, forced or not, each slot of the Map given to `decide` is its
      specialist's contribution: its Evaluation if the runtime accepted it, else its Vote. */
  lemma DecidesOnSlots(x: Inputs, es: seq<Event>)
    requires Admissible(x) && Decided(x, es)
    ensures Slots(x, OrderedRun(x, es).value.sys.log, DecidedMap(x, es))
  {
    OrderedInvRun(x, es);
  }

  lemma UnforcedIsFull(x: Inputs, es: seq<Event>)
    requires Admissible(x) && OrderedRun(x, es).Some? && OrderedRun(x, es).value.sys.coord.decided.Some?
    requires !OrderedRun(x, es).value.sys.forced
    ensures JsMap.View(OrderedRun(x, es).value.sys.coord.decided.value).Keys == SetOf(Specialists(x.c))
  {
    OrderedInvRun(x, es);
    OrderedRunIsRun(x, es);
    RunKeepsFull(x.c, x.id, es);
    DecidedSenders(x, es);
    FullMapIsEveryone(x.c, OrderedRun(x, es).value.sys.coord.decided.value);
  }

  /** Whoever is in the decided Map is a specialist. */
  lemma {:induction false} DecidedSenders(x: Inputs, es: seq<Event>)
    requires Admissible(x) && OrderedRun(x, es).Some? && OrderedRun(x, es).value.sys.coord.decided.Some?
    ensures forall p | p in JsMap.View(OrderedRun(x, es).value.sys.coord.decided.value) :: p in Specialists(x.c)
  {
    OrderedInvRun(x, es);
    if es != [] {
      var before := es[..|es| - 1];
      var o, e := OrderedRun(x, before).value, es[|es| - 1];
      OrderedInvRun(x, before);
      if o.sys.coord.decided.Some? {
        DecidedSenders(x, before);
        DecidedStays(x, o, e);
      } else {
        NewlyDecided(x, o, e);
      }
    }
  }

  lemma DecidedStays(x: Inputs, o: OrderedSys, e: Event)
    requires Admissible(x) && OrderedInv(x, o) && OrderedEnabled(x, o, e) && o.sys.coord.decided.Some?
    ensures OrderedStep(x, o, e).sys.coord.decided == o.sys.coord.decided
  {
    match e
    case ToCoordinator(i) => C.StepKeeps(x.c, o.sys.coord, C.Message(o.sys.log[i]));
    case DeadlineFires(t) => C.StepKeeps(x.c, o.sys.coord, C.Event.DeadlineFires(t));
    case CoordinatorSettles(ok) => C.SettleKeeps(x.c, o.sys.coord, ok);
    case _ =>
  }

  /** `decide` reads the Map of its moment. */
  lemma NewlyDecided(x: Inputs, o: OrderedSys, e: Event)
    requires Admissible(x) && OrderedInv(x, o) && OrderedEnabled(x, o, e) && o.sys.coord.decided.None?
    ensures var s := OrderedStep(x, o, e).sys.coord; s.decided.Some? ==> s.decided.value == s.signals
  {
    if e.ToCoordinator? { C.DeliverIs(x.c, o.sys.coord, o.sys.log[e.i]); }
  }

  /** Unless the deadline forced the commit, there is a slot for every specialist. */
  lemma DecidesOnContributions(x: Inputs, es: seq<Event>)
    requires Admissible(x) && Decides(x, es)
    ensures Contributions(x, OrderedRun(x, es).value.sys.log, DecidedMap(x, es))
  {
    DecidesOnSlots(x, es);
    UnforcedIsFull(x, es);
    assert forall k | 0 <= k < |x.analyses| :: Specialists(x.c)[k] in SetOf(Specialists(x.c));
  }

  /** How a recorded Vote counts: an ABSTAIN becomes a REVIEW, which stays in the denominator
      that a genuine ABSTAIN evaluation leaves, and any word but APPROVE and ABSTAIN counts as a
      rejection. A Vote's confidence is one, so under a floor above one every Vote is dropped to
      an unqualified evaluation. */
  lemma RecordedVoteCounts(vote: Option<string>, minimum: real)
    ensures var word := ToUpper(vote.GetOr(""));
      Rank(C.VoteSignal(vote), minimum) ==
      if minimum > 1.0 || word == "ABSTAIN" then 3 else if word == "APPROVE" then 5 else 2
  {
    var signal := C.VoteSignal(vote);
    var word := signal.recommendation.value;
    assert ToUpper(word) == word;
    assert Qualifies(signal, minimum) <==> minimum <= 1.0;
  }

  /** How a recorded Evaluation counts: a missing confidence as zero, a missing recommendation
      as none of the words. */
  lemma RecordedEvaluationCounts(recommendation: Option<string>, confidence: Option<Number>, minimum: real)
    ensures var word := ToUpper(if recommendation.Some? then recommendation.value else "");
      var reaches := if confidence.Some? then Reaches(confidence, minimum) else minimum <= 0.0;
      Rank(C.EvaluationSignal(recommendation, confidence), minimum) ==
      if !reaches then 3
      else if word == "APPROVE" then 5
      else if word == "ABSTAIN" then 4
      else if word == "BLOCK" || word == "REJECT" then 2
      else 3
  {
    var signal := C.EvaluationSignal(recommendation, confidence);
    RankOfEvaluation(signal.recommendation, signal.confidence, minimum);
  }

  /** How a recorded Objection counts: critical only if it says so. */
  lemma RecordedObjectionCounts(severity: Option<string>, minimum: real)
    ensures Rank(C.ObjectionSignal(severity), minimum) == if severity == Some("critical") then 0 else 1
    ensures C.ObjectionSignal(severity).severity == if severity.Some? then severity else Some("high")
  {
    RankOfObjection(C.ObjectionSignal(severity).severity, minimum);
  }

  lemma StrategyIgnoresOrder(hints: Option<Hints>, m: C.Signals, n: C.Signals)
    requires JsMap.Distinct(m) && JsMap.Distinct(n) && JsMap.View(m) == JsMap.View(n)
    ensures CreatePolicyStrategy(hints).decide(JsMap.Values(m)) == CreatePolicyStrategy(hints).decide(JsMap.Values(n))
  {
    DecideIgnoresInsertionOrder(RulesOf(hints), m, n);
  }

  ghost predicate SameAcceptances(senders: set<Id>, a: seq<Envelope>, b: seq<Envelope>) {
    forall p | p in senders :: EvaluatedIn(a, p) <==> EvaluatedIn(b, p)
  }

  lemma SameSlots(x: Inputs, a: seq<Envelope>, b: seq<Envelope>, m: map<Id, Signal>, n: map<Id, Signal>)
    requires |x.analyses| == |Specialists(x.c)| && m.Keys == n.Keys && SameAcceptances(m.Keys, a, b)
    requires Slots(x, a, m) && Slots(x, b, n)
    ensures m == n
  {
    forall p | p in m ensures m[p] == n[p] {
      assert p in SetOf(Specialists(x.c));
      var k :| 0 <= k < |x.analyses| && Specialists(x.c)[k] == p;
      assert Contribution(x, a, k) == Contribution(x, b, k);
    }
  }

  /** Two runs decide the same Map, and vote and commit the same. */
  ghost predicate DecideAlike(x: Inputs, es: seq<Event>, fs: seq<Event>)
    requires |x.analyses| == |Specialists(x.c)| && Decided(x, es) && Decided(x, fs)
  {
    var s, t := OrderedRun(x, es).value.sys.coord, OrderedRun(x, fs).value.sys.coord;
    var d := x.c.strategy.decide(JsMap.Values(s.decided.value));
    && DecidedMap(x, es) == DecidedMap(x, fs)
    && (forall i | 0 <= i < |s.calls| :: C.Says(s.calls[i], d))
    && (forall i | 0 <= i < |t.calls| :: C.Says(t.calls[i], d))
  }

  /** Confluence, forced runs included: two runs in which the same specialists reported in
      time, and the runtime accepted the Evaluations of the same ones among them, decide
      alike, however they interleave. */
  lemma ConfluentReports(x: Inputs, hints: Option<Hints>, es: seq<Event>, fs: seq<Event>)
    requires Admissible(x) && x.c.strategy == CreatePolicyStrategy(hints)
    requires Decided(x, es) && Decided(x, fs) && DecidedMap(x, es).Keys == DecidedMap(x, fs).Keys
    requires SameAcceptances(DecidedMap(x, es).Keys, OrderedRun(x, es).value.sys.log, OrderedRun(x, fs).value.sys.log)
    ensures DecideAlike(x, es, fs)
  {
    OrderedInvRun(x, es);
    OrderedInvRun(x, fs);
    var a, b := OrderedRun(x, es).value.sys, OrderedRun(x, fs).value.sys;
    SameSlots(x, a.log, b.log, DecidedMap(x, es), DecidedMap(x, fs));
    assert C.DecisionStands(x.c, a.coord) && C.DecisionStands(x.c, b.coord);
    StrategyIgnoresOrder(hints, a.coord.decided.value, b.coord.decided.value);
  }

  /** So unforced runs decide alike if the same Evaluations were accepted. */
  lemma Confluent(x: Inputs, hints: Option<Hints>, es: seq<Event>, fs: seq<Event>)
    requires Admissible(x) && x.c.strategy == CreatePolicyStrategy(hints)
    requires Decides(x, es) && Decides(x, fs)
    requires SameAcceptances(SetOf(Specialists(x.c)), OrderedRun(x, es).value.sys.log, OrderedRun(x, fs).value.sys.log)
    ensures DecideAlike(x, es, fs)
  {
    UnforcedIsFull(x, es);
    UnforcedIsFull(x, fs);
    ConfluentReports(x, hints, es, fs);
  }

  /** With every Evaluation accepted, no Vote ever reaches `decide`. */
  lemma AllAcceptedMeansEvaluations(x: Inputs, es: seq<Event>, k: nat)
    requires Admissible(x) && Decides(x, es) && k < |x.analyses|
    requires forall p | p in Specialists(x.c) :: EvaluatedIn(OrderedRun(x, es).value.sys.log, p)
    ensures var m := JsMap.View(OrderedRun(x, es).value.sys.coord.decided.value);
            var e := W.EvaluationOf(x.id, x.analyses[k]);
            && m.Keys == SetOf(Specialists(x.c))
            && Specialists(x.c)[k] in m
            && m[Specialists(x.c)[k]] == C.EvaluationSignal(e.recommendation, e.confidence)
  {
    DecidesOnContributions(x, es);
    assert Specialists(x.c)[k] in Specialists(x.c);
  }
}
