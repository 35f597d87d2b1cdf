/** Under in-order delivery every run is finite, and a run that can go no further has
    committed and, unless the deadline forced it, every specialist has cast its Vote. */
module Termination {
  import opened Wrappers
  import opened Messages
  import opened Policy
  import opened PolicyLaws
  import opened Session
  import opened Ordered
  import opened Confluence
  import JsMap
  import C = Coordinator
  import W = Worker

  function Sum(xs: seq<int>): int {
    if xs == [] then 0 else xs[0] + Sum(xs[1..])
  }

  lemma {:induction false} SumUpdate(xs: seq<int>, k: nat, v: int)
    requires k < |xs|
    ensures Sum(xs[k := v]) == Sum(xs) - xs[k] + v
  {
    var ys := xs[k := v];
    if k == 0 {
      assert ys[1..] == xs[1..];
    } else {
      assert ys[1..] == xs[1..][k - 1 := v];
      SumUpdate(xs[1..], k - 1, v);
    }
  }

  lemma {:induction false} SumOfEqual(xs: seq<int>, v: int)
    requires forall i | 0 <= i < |xs| :: xs[i] == v
    ensures Sum(xs) == |xs| * v
  {
    if xs != [] {
      SumOfEqual(xs[1..], v);
    }
  }

  lemma {:induction false} SumNonNegative(xs: seq<int>)
    requires forall i | 0 <= i < |xs| :: xs[i] >= 0
    ensures Sum(xs) >= 0
  {
    if xs != [] {
      SumNonNegative(xs[1..]);
    }
  }

  // ---- The measure ----

  /** The calls a worker still has to make or to get answered. */
  function Owed(n: Node): nat {
    (if n.started == 0 then 2 else if n.busy.Evaluating? then 1 else 0)
    + (if !n.w.voted then 2 else if n.busy.CastingVote? then 1 else 0)
  }

  function PhaseRank(p: C.Phase): nat {
    match p
    case Waiting => 7
    case Suspending => 6
    case Holding => 5
    case Resuming => 4
    case Voting(_) => 3
    case Committing(_) => 2
    case Cancelling => 1
    case Finished => 0
  }

  function OwedBy(nodes: seq<Node>): seq<int> {
    seq(|nodes|, k requires 0 <= k < |nodes| => Owed(nodes[k]))
  }

  function Unread(read: seq<nat>, bound: int): seq<int> {
    seq(|read|, k requires 0 <= k < |read| => bound - read[k])
  }

  /** No log grows longer than this: the Proposal, two envelopes a worker, the coordinator's. */
  function Bound(x: Inputs): nat {
    8 + 4 * |x.analyses|
  }

  ghost function Potential(s: Sys): int {
    Sum(OwedBy(s.nodes)) + PhaseRank(s.coord.phase)
  }

  ghost function Measure(x: Inputs, o: OrderedSys): int {
    Potential(o.sys) + Sum(Unread(o.read, Bound(x))) + 2 * (Bound(x) - o.coordRead) + |o.sys.coord.timers|
  }

  ghost predicate Bounded(x: Inputs, o: OrderedSys) {
    |o.sys.log| + Potential(o.sys) <= Bound(x)
  }

  lemma PotentialNonNegative(s: Sys)
    ensures Potential(s) >= 0
  {
    SumNonNegative(OwedBy(s.nodes));
  }

  lemma MeasureNonNegative(x: Inputs, o: OrderedSys)
    requires |x.analyses| == |Specialists(x.c)| && OrderedInv(x, o) && Bounded(x, o)
    ensures Measure(x, o) >= 0
  {
    PotentialNonNegative(o.sys);
    forall k | 0 <= k < |o.read| ensures Unread(o.read, Bound(x))[k] >= 0 {
      assert OrderedNode(x, o.sys.log, k, o.sys.nodes[k], o.read[k]);
    }
    SumNonNegative(Unread(o.read, Bound(x)));
  }

  lemma OwedByUpdate(nodes: seq<Node>, k: nat, n: Node)
    requires k < |nodes|
    ensures Sum(OwedBy(nodes[k := n])) == Sum(OwedBy(nodes)) - Owed(nodes[k]) + Owed(n)
  {
    assert OwedBy(nodes[k := n]) == OwedBy(nodes)[k := Owed(n)];
    SumUpdate(OwedBy(nodes), k, Owed(n));
  }

  lemma UnreadUpdate(read: seq<nat>, k: nat, bound: int)
    requires k < |read|
    ensures Sum(Unread(read[k := read[k] + 1], bound)) == Sum(Unread(read, bound)) - 1
  {
    assert Unread(read[k := read[k] + 1], bound) == Unread(read, bound)[k := bound - read[k] - 1];
    SumUpdate(Unread(read, bound), k, bound - read[k] - 1);
  }

  // ---- Every step drops the measure ----

  ghost predicate Drops(x: Inputs, o: OrderedSys, o': OrderedSys) {
    Measure(x, o') < Measure(x, o) && Bounded(x, o')
  }

  lemma ReadingRank(x: Inputs, log: seq<Envelope>, k: nat, n: Node, read: nat, a: W.Analysis)
    requires k < |x.analyses| == |Specialists(x.c)| && read < |log| && n.busy.Idle?
    requires OrderedLog(x, log) && OrderedNode(x, log, k, n, read)
    ensures Owed(DeliverTo(x.c, k, n, log[read], a)) <= Owed(n)
  {
  }

  lemma ReadDrops(x: Inputs, o: OrderedSys, o': OrderedSys, k: nat, n: Node)
    requires k < |o.read| == |o.sys.nodes| && Bounded(x, o) && Owed(n) <= Owed(o.sys.nodes[k])
    requires o'.sys.nodes == o.sys.nodes[k := n] && o'.read == o.read[k := o.read[k] + 1]
    requires o'.sys.log == o.sys.log && o'.sys.coord == o.sys.coord && o'.coordRead == o.coordRead
    ensures Drops(x, o, o')
  {
    OwedByUpdate(o.sys.nodes, k, n);
    UnreadUpdate(o.read, k, Bound(x));
  }

  lemma DropsWorkerReads(x: Inputs, o: OrderedSys, e: Event)
    requires Admissible(x) && OrderedInv(x, o) && Bounded(x, o) && OrderedEnabled(x, o, e) && e.ToWorker?
    ensures Drops(x, o, OrderedStep(x, o, e))
  {
    var n, log := o.sys.nodes[e.k], o.sys.log;
    var n' := DeliverTo(x.c, e.k, n, log[e.i], e.analysis);
    assert OrderedNode(x, log, e.k, n, o.read[e.k]);
    ReadingRank(x, log, e.k, n, o.read[e.k], e.analysis);
    ReadShape(x, o, e);
    ReadDrops(x, o, OrderedStep(x, o, e), e.k, n');
  }

  lemma DropsWorkerSettles(x: Inputs, o: OrderedSys, e: Event)
    requires Admissible(x) && OrderedInv(x, o) && Bounded(x, o) && OrderedEnabled(x, o, e) && e.WorkerSettles?
    ensures Drops(x, o, OrderedStep(x, o, e))
  {
    var n := o.sys.nodes[e.k];
    var n' := SettleNode(x.c, e.k, n);
    assert OrderedNode(x, o.sys.log, e.k, n, o.read[e.k]);
    assert NodeInv(x.c, x.id, o.sys.log, Specialists(x.c)[e.k], n);
    assert Owed(n') < Owed(n);
    OwedByUpdate(o.sys.nodes, e.k, n');
  }

  lemma TryCommitDrops(c: C.Config, s: C.State, force: bool)
    requires C.Inv(c, s)
    ensures var s' := C.TryCommit(c, s, force);
            PhaseRank(s'.phase) <= PhaseRank(s.phase) && |s'.timers| <= |s.timers|
  {
    if s.waitTimer.Some? {
      SmallerSet(s.timers - {s.waitTimer.value}, s.timers);
    }
  }

  lemma DropsCoordinatorReads(x: Inputs, o: OrderedSys, e: Event)
    requires Admissible(x) && OrderedInv(x, o) && Bounded(x, o) && OrderedEnabled(x, o, e) && e.ToCoordinator?
    ensures Drops(x, o, OrderedStep(x, o, e))
  {
    var m, s := o.sys.log[o.coordRead], o.sys.coord;
    assert Authentic(x.c, x.id, m);
    C.DeliverIs(x.c, s, m);
    var signal := C.SignalOf(x.c, m);
    if signal.Some? {
      RecordedWithin(x, o.sys, m);
      TryCommitDrops(x.c, C.Recorded(s, m.sender, signal.value), false);
    }
  }

  lemma DropsDeadline(x: Inputs, o: OrderedSys, e: Event)
    requires Admissible(x) && OrderedInv(x, o) && Bounded(x, o) && OrderedEnabled(x, o, e) && e.DeadlineFires?
    ensures Drops(x, o, OrderedStep(x, o, e))
  {
    var s := o.sys.coord;
    var s1 := s.(timers := s.timers - {e.timer});
    assert |s1.timers| < |s.timers|;
    assert C.Inv(x.c, s1);
    TryCommitDrops(x.c, s1, true);
  }

  lemma SettlingRank(c: C.Config, s: C.State, ok: bool)
    requires C.Awaiting(s)
    ensures var s' := C.Settle(c, s, ok);
            PhaseRank(s'.phase) < PhaseRank(s.phase) && s'.timers == s.timers
    ensures |CoordinatorSubmission(c, s)| <= 1
  {
  }

  lemma DropsCoordinatorSettles(x: Inputs, o: OrderedSys, e: Event)
    requires Admissible(x) && OrderedInv(x, o) && Bounded(x, o) && OrderedEnabled(x, o, e) && e.CoordinatorSettles?
    ensures Drops(x, o, OrderedStep(x, o, e))
  {
    var s := o.sys.coord;
    SettlingRank(x.c, s, e.ok);
    assert OrderedStep(x, o, e).sys.nodes == o.sys.nodes && OrderedStep(x, o, e).read == o.read;
  }

  lemma StepDrops(x: Inputs, o: OrderedSys, e: Event)
    requires Admissible(x) && OrderedInv(x, o) && Bounded(x, o) && OrderedEnabled(x, o, e)
    ensures Drops(x, o, OrderedStep(x, o, e))
  {
    match e
    case ToWorker(_, _, _) => DropsWorkerReads(x, o, e);
    case WorkerSettles(_, _) => DropsWorkerSettles(x, o, e);
    case ToCoordinator(_) => DropsCoordinatorReads(x, o, e);
    case DeadlineFires(_) => DropsDeadline(x, o, e);
    case CoordinatorSettles(_) => DropsCoordinatorSettles(x, o, e);
  }

  lemma StartMeasure(x: Inputs)
    requires Admissible(x)
    ensures Bounded(x, OrderedStart(x))
    ensures Measure(x, OrderedStart(x)) == 7 + 4 * |x.analyses| + (|x.analyses| + 2) * Bound(x)
  {
    var o := OrderedStart(x);
    SumOfEqual(OwedBy(o.sys.nodes), 4);
    SumOfEqual(Unread(o.read, Bound(x)), Bound(x));
  }

  lemma {:induction false} RunDrops(x: Inputs, es: seq<Event>)
    requires Admissible(x) && OrderedRun(x, es).Some?
    ensures OrderedInv(x, OrderedRun(x, es).value) && Bounded(x, OrderedRun(x, es).value)
    ensures |es| + Measure(x, OrderedRun(x, es).value) <= Measure(x, OrderedStart(x))
  {
    OrderedInvRun(x, es);
    if es == [] {
      StartMeasure(x);
    } else {
      var before := es[..|es| - 1];
      RunDrops(x, before);
      StepDrops(x, OrderedRun(x, before).value, es[|es| - 1]);
    }
  }

  /** Every in-order run ends: its length is at most quadratic in the number of specialists. */
  lemma RunsAreFinite(x: Inputs, es: seq<Event>)
    requires Admissible(x) && OrderedRun(x, es).Some?
    ensures |es| <= 7 + 4 * |x.analyses| + (|x.analyses| + 2) * Bound(x)
  {
    RunDrops(x, es);
    StartMeasure(x);
    MeasureNonNegative(x, OrderedRun(x, es).value);
  }

  // ---- Where a fair run can stop ----

  ghost predicate Accepted(x: Inputs, s: Sys) {
    && (Closed(s.log) ==> s.coord.committed)
    && (!s.forced ==> forall k | 0 <= k < |s.nodes| && k < |Specialists(x.c)| ::
          s.nodes[k].settled >= 1 ==> EvaluatedIn(s.log, Specialists(x.c)[k]))
  }

  lemma ClosedAppend(log: seq<Envelope>, e: Envelope)
    ensures Closed(log + [e]) <==> Closed(log) || e.msg.Commitment?
  {
    var l := log + [e];
    assert l[|log|] == e;
    assert forall i | 0 <= i < |log| :: l[i] == log[i];
  }

  /** A first Evaluation is never refused, as long as the deadline has not forced a commit. */
  lemma FirstEvaluationAccepted(x: Inputs, o: OrderedSys, e: Event)
    requires Admissible(x) && OrderedInv(x, o) && Accepted(x, o.sys) && OrderedEnabled(x, o, e) && Fair(o, e)
    requires e.WorkerSettles? && o.sys.nodes[e.k].busy.Evaluating? && !o.sys.forced
    ensures e.ok
  {
    var n := o.sys.nodes[e.k];
    assert NodeInv(x.c, x.id, o.sys.log, Specialists(x.c)[e.k], n);
    OrderedSubmission(x, o.sys.log, e.k, n, o.read[e.k]);
    if VotingOpen(o.sys.log) { OpenMeansSettled(x.c, x.id, o.sys); }
  }

  lemma WorkerAccepted(x: Inputs, o: OrderedSys, e: Event)
    requires Admissible(x) && OrderedInv(x, o) && Accepted(x, o.sys) && OrderedEnabled(x, o, e) && Fair(o, e)
    requires e.WorkerSettles?
    ensures Accepted(x, OrderedStep(x, o, e).sys)
  {
    var s := o.sys;
    var sent := Envelope(Specialists(x.c)[e.k], Submission(s.nodes[e.k].busy));
    assert NodeInv(x.c, x.id, s.log, Specialists(x.c)[e.k], s.nodes[e.k]);
    if e.ok {
      Appended(s.log, sent);
      ClosedAppend(s.log, sent);
    }
    if !s.forced && s.nodes[e.k].busy.Evaluating? { FirstEvaluationAccepted(x, o, e); }
  }

  lemma CoordinatorAccepted(x: Inputs, o: OrderedSys, e: Event)
    requires Admissible(x) && OrderedInv(x, o) && Accepted(x, o.sys) && OrderedEnabled(x, o, e)
    requires e.CoordinatorSettles?
    ensures Accepted(x, OrderedStep(x, o, e).sys)
  {
    var s, sent := o.sys, CoordinatorSubmission(x.c, o.sys.coord);
    if e.ok && sent != [] {
      assert sent == [sent[0]];
      Appended(s.log, sent[0]);
      ClosedAppend(s.log, sent[0]);
    } else {
      assert s.log + [] == s.log;
    }
  }

  lemma StepAccepted(x: Inputs, o: OrderedSys, e: Event)
    requires Admissible(x) && OrderedInv(x, o) && Accepted(x, o.sys) && OrderedEnabled(x, o, e) && Fair(o, e)
    ensures Accepted(x, OrderedStep(x, o, e).sys)
  {
    match e
    case WorkerSettles(_, _) => WorkerAccepted(x, o, e);
    case CoordinatorSettles(_) => CoordinatorAccepted(x, o, e);
    case ToCoordinator(i) => C.StepInv(x.c, o.sys.coord, C.Message(o.sys.log[i]));
    case _ =>
  }

  lemma {:induction false} AcceptedRun(x: Inputs, es: seq<Event>)
    requires Admissible(x) && OrderedRun(x, es).Some? && FairRun(x, es)
    ensures OrderedInv(x, OrderedRun(x, es).value) && Accepted(x, OrderedRun(x, es).value.sys)
  {
    OrderedInvRun(x, es);
    if es != [] {
      var before := es[..|es| - 1];
      AcceptedRun(x, before);
      StepAccepted(x, OrderedRun(x, before).value, es[|es| - 1]);
    }
  }

  // ---- What fairness gives the decision ----

  /** Once a fair run has committed without being forced, every Evaluation was accepted. */
  lemma CommittedMeansAccepted(x: Inputs, es: seq<Event>)
    requires Admissible(x) && OrderedRun(x, es).Some? && FairRun(x, es)
    requires OrderedRun(x, es).value.sys.coord.committed && !OrderedRun(x, es).value.sys.forced
    ensures forall q | q in Specialists(x.c) :: EvaluatedIn(OrderedRun(x, es).value.sys.log, q)
  {
    AcceptedRun(x, es);
    var s := OrderedRun(x, es).value.sys;
    forall q | q in Specialists(x.c) ensures EvaluatedIn(s.log, q) {
      var k :| 0 <= k < |Specialists(x.c)| && Specialists(x.c)[k] == q;
      assert s.nodes[k].settled >= 1;
    }
  }

  /** The fair, unforced runs without the suspend demo, once they have decided. */
  ghost predicate FairDecision(x: Inputs, es: seq<Event>)
    requires |x.analyses| == |Specialists(x.c)|
  {
    Decides(x, es) && FairRun(x, es)
  }

  /** Confluence: any two of them, however they interleave, decide on the same Map, and vote
      and commit the same. */
  lemma FairRunsDecideAlike(x: Inputs, hints: Option<Hints>, es: seq<Event>, fs: seq<Event>)
    requires Admissible(x) && x.c.strategy == CreatePolicyStrategy(hints)
    requires FairDecision(x, es) && FairDecision(x, fs)
    ensures DecideAlike(x, es, fs)
  {
    OrderedInvRun(x, es);
    OrderedInvRun(x, fs);
    CommittedMeansAccepted(x, es);
    CommittedMeansAccepted(x, fs);
    Confluent(x, hints, es, fs);
  }

  /** And that Map is exactly each specialist's Evaluation, never a Vote. */
  lemma FairRunsDecideOnEvaluations(x: Inputs, es: seq<Event>, k: nat)
    requires Admissible(x) && FairDecision(x, es) && k < |x.analyses|
    ensures var m := DecidedMap(x, es); var e := W.EvaluationOf(x.id, x.analyses[k]);
            && m.Keys == SetOf(Specialists(x.c)) && Specialists(x.c)[k] in m
            && m[Specialists(x.c)[k]] == C.EvaluationSignal(e.recommendation, e.confidence)
  {
    OrderedInvRun(x, es);
    CommittedMeansAccepted(x, es);
    AllAcceptedMeansEvaluations(x, es, k);
  }

  // ---- Where nothing is left to happen ----

  /** No event is possible that the runtime's phase rule would allow. */
  ghost predicate Quiet(x: Inputs, o: OrderedSys)
    requires |o.read| == |o.sys.nodes| == |x.analyses|
  {
    forall e: Event :: !(OrderedEnabled(x, o, e) && Fair(o, e))
  }

  lemma QuietMeansIdle(x: Inputs, o: OrderedSys, k: nat)
    requires Admissible(x) && OrderedInv(x, o) && Quiet(x, o) && k < |x.analyses|
    ensures o.sys.nodes[k].busy.Idle? && o.read[k] == |o.sys.log|
  {
    var n := o.sys.nodes[k];
    assert OrderedNode(x, o.sys.log, k, n, o.read[k]);
    if !n.busy.Idle? {
      var e := WorkerSettles(k, n.busy.CastingVote? || !VotingOpen(o.sys.log));
      assert OrderedEnabled(x, o, e) && Fair(o, e);
    } else if o.read[k] < |o.sys.log| {
      var e := ToWorker(k, o.read[k], x.analyses[k]);
      assert OrderedEnabled(x, o, e) && Fair(o, e);
    }
  }

  lemma QuietMeansRead(x: Inputs, o: OrderedSys)
    requires Admissible(x) && OrderedInv(x, o) && Quiet(x, o)
    ensures o.coordRead == |o.sys.log| && !C.Awaiting(o.sys.coord)
  {
    var e, f := ToCoordinator(o.coordRead), CoordinatorSettles(true);
    if o.coordRead < |o.sys.log| { assert OrderedEnabled(x, o, e) && Fair(o, e); }
    if C.Awaiting(o.sys.coord) { assert OrderedEnabled(x, o, f) && Fair(o, f); }
  }

  lemma QuietMeansEvaluated(x: Inputs, o: OrderedSys)
    requires Admissible(x) && OrderedInv(x, o) && Accepted(x, o.sys) && Quiet(x, o) && !o.sys.forced
    ensures forall q | q in Specialists(x.c) :: EvaluatedIn(o.sys.log, q)
  {
    forall q | q in Specialists(x.c) ensures EvaluatedIn(o.sys.log, q) {
      var k :| 0 <= k < |x.analyses| && Specialists(x.c)[k] == q;
      QuietMeansIdle(x, o, k);
      assert OrderedNode(x, o.sys.log, k, o.sys.nodes[k], o.read[k]);
      assert NodeInv(x.c, x.id, o.sys.log, q, o.sys.nodes[k]);
    }
  }

  /** Every other specialist's Evaluation was accepted, and its id is not the empty string,
      whose Evaluations a worker ignores. */
  ghost predicate PeersHeard(c: C.Config, log: seq<Envelope>, k: nat)
    requires k < |Specialists(c)|
  {
    forall q | q in Specialists(c) && q != Specialists(c)[k] :: q != "" && EvaluatedIn(log, q)
  }

  lemma QuietMeansVoted(x: Inputs, o: OrderedSys, k: nat)
    requires Admissible(x) && OrderedInv(x, o) && Quiet(x, o) && k < |x.analyses|
    ensures o.sys.nodes[k].w.voted <==> PeersHeard(x.c, o.sys.log, k)
  {
    var p, n, log := Specialists(x.c)[k], o.sys.nodes[k], o.sys.log;
    QuietMeansIdle(x, o, k);
    assert OrderedNode(x, log, k, n, o.read[k]) && NodeInv(x.c, x.id, log, p, n);
    assert log[..o.read[k]] == log;
    assert p in Specialists(x.c);
    forall q ensures q in n.w.peers <==> q in Specialists(x.c) && q != p {
      PeersAreTheOthers(x.c, p, q);
    }
    forall q | q in n.w.peers ensures q in n.w.seen <==> q != "" && EvaluatedIn(log, q) {
    }
  }

  lemma QuietMapIsFull(x: Inputs, o: OrderedSys)
    requires Admissible(x) && OrderedInv(x, o) && Accepted(x, o.sys) && Quiet(x, o) && !o.sys.forced
    ensures |o.sys.coord.signals| == |Specialists(x.c)|
  {
    var log, s := o.sys.log, o.sys.coord;
    QuietMeansRead(x, o);
    QuietMeansEvaluated(x, o);
    FullMapIsEveryone(x.c, s.signals);
    assert log[..|log|] == log;
    SpecialistsAre(x.c);
    forall q | q in SetOf(Specialists(x.c)) ensures q in JsMap.View(s.signals) {
      EvaluationIsRecorded(x, log, |log|, q);
    }
    JsMap.ViewSize(s.signals);
    DistinctSize(Specialists(x.c));
    SmallerSet(SetOf(Specialists(x.c)), JsMap.View(s.signals).Keys);
    assert |JsMap.View(s.signals).Keys| == |JsMap.View(s.signals)|;
  }

  /** Deadlock freedom, for every run with no step left, forced or not: a forced run has
      committed, a committed coordinator has finished, and a specialist has cast its Vote
      exactly when every other one's Evaluation was accepted. If the refusals of Evaluations
      were fair, the run has committed exactly when the deadline forced it or a full turnout
      is a quorum; and if the deadline did not force it every Evaluation was accepted. */
  lemma QuietRunIsComplete(x: Inputs, es: seq<Event>)
    requires Admissible(x) && OrderedRun(x, es).Some? && Quiet(x, OrderedRun(x, es).value)
    ensures var s := OrderedRun(x, es).value.sys;
            && (s.forced ==> s.coord.committed)
            && (s.coord.committed ==> s.coord.phase.Finished?)
            && (forall k | 0 <= k < |s.nodes| :: s.nodes[k].w.voted <==> PeersHeard(x.c, s.log, k))
            && (FairRun(x, es) ==> (s.coord.committed <==> s.forced || FullQuorum(x.c)))
            && (FairRun(x, es) && !s.forced ==> forall q | q in Specialists(x.c) :: EvaluatedIn(s.log, q))
  {
    OrderedInvRun(x, es);
    OrderedRunIsRun(x, es);
    ForcedMeansCommitted(x.c, x.id, es);
    var o := OrderedRun(x, es).value;
    QuietMeansRead(x, o);
    forall k | 0 <= k < |x.analyses| { QuietMeansVoted(x, o, k); }
    if FairRun(x, es) && !o.sys.forced {
      AcceptedRun(x, es);
      QuietMapIsFull(x, o);
      QuietMeansEvaluated(x, o);
    }
  }

  /** Every fair run can be carried on, fairly, until nothing is left to happen. */
  lemma {:induction false} RunCompletes(x: Inputs, es: seq<Event>) returns (r: seq<Event>)
    requires Admissible(x) && OrderedRun(x, es).Some? && FairRun(x, es)
    ensures es <= r && OrderedRun(x, r).Some? && FairRun(x, r) && Quiet(x, OrderedRun(x, r).value)
    decreases Measure(x, OrderedRun(x, es).value)
  {
    var o := OrderedRun(x, es).value;
    RunDrops(x, es);
    MeasureNonNegative(x, o);
    r := es;
    if !Quiet(x, o) {
      var e: Event :| OrderedEnabled(x, o, e) && Fair(o, e);
      Extend(x, es, e);
      StepDrops(x, o, e);
      RunDrops(x, es + [e]);
      MeasureNonNegative(x, OrderedRun(x, es + [e]).value);
      r := RunCompletes(x, es + [e]);
    }
  }

  /** So without a forced commit everyone has voted, but for the peers of a specialist whose
      id is the empty string. */
  lemma UnforcedRunVotes(x: Inputs, es: seq<Event>, k: nat)
    requires Admissible(x) && OrderedRun(x, es).Some? && FairRun(x, es) && Quiet(x, OrderedRun(x, es).value)
    requires !OrderedRun(x, es).value.sys.forced && k < |x.analyses|
    ensures OrderedRun(x, es).value.sys.nodes[k].w.voted <==> ("" in Specialists(x.c) ==> Specialists(x.c)[k] == "")
  {
    QuietRunIsComplete(x, es);
  }

  /** With the repository's strategies: full turnout is a quorum exactly for `none`,
      `unanimous`, or a threshold of at most one. */
  lemma CommitsWhenThresholdAllows(x: Inputs, hints: Option<Hints>, es: seq<Event>)
    requires Admissible(x) && x.c.strategy == CreatePolicyStrategy(hints)
    requires OrderedRun(x, es).Some? && FairRun(x, es) && Quiet(x, OrderedRun(x, es).value)
    ensures OrderedRun(x, es).value.sys.coord.committed <==>
            OrderedRun(x, es).value.sys.forced || !CountsByThreshold(RulesOf(hints)) || RulesOf(hints).threshold <= 1.0
  {
    QuietRunIsComplete(x, es);
    FullTurnout(RulesOf(hints), |Specialists(x.c)|);
  }
}
