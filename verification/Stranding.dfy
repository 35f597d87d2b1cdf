/** What the deadline can break: its early Vote opens Voting, Evaluations still to come are
    refused, and their peers wait for them for ever. */
module Stranding {
  import opened Wrappers
  import opened Messages
  import opened Policy
  import opened PolicyLaws
  import opened Session
  import opened Ordered
  import opened Termination
  import JsMap
  import C = Coordinator
  import W = Worker

  /** Voting has opened without the Evaluation of specialist `q`. */
  ghost predicate Late(c: C.Config, s: Sys, q: Id) {
    q in Specialists(c) && VotingOpen(s.log) && !EvaluatedIn(s.log, q)
  }

  // ---- Nothing repairs it ----

  lemma LateStays(c: C.Config, id: string, s: Sys, e: Event, q: Id)
    requires WellFormed(c, id) && Inv(c, id, s) && Enabled(s, e) && Late(c, s, q)
    ensures Late(c, Step(c, s, e), q)
  {
    match e
    case WorkerSettles(k, ok) =>
      assert NodeInv(c, id, s.log, Specialists(c)[k], s.nodes[k]);
      if ok { Appended(s.log, Envelope(Specialists(c)[k], Submission(s.nodes[k].busy))); }
    case CoordinatorSettles(ok) =>
      var sent := CoordinatorSubmission(c, s.coord);
      if ok && sent != [] {
        assert sent == [sent[0]];
        Appended(s.log, sent[0]);
      } else {
        assert s.log + [] == s.log;
      }
    case _ =>
  }

  lemma {:induction false} LateForEver(c: C.Config, id: string, es: seq<Event>, fs: seq<Event>, q: Id)
    requires WellFormed(c, id) && Run(c, id, es).Some? && Run(c, id, es + fs).Some?
    requires Late(c, Run(c, id, es).value, q)
    ensures Late(c, Run(c, id, es + fs).value, q)
    decreases |fs|
  {
    if fs == [] {
      assert es + fs == es;
    } else {
      var before := fs[..|fs| - 1];
      assert (es + fs)[..|es + fs| - 1] == es + before;
      LateForEver(c, id, es, before, q);
      InvRun(c, id, es + before);
      LateStays(c, id, Run(c, id, es + before).value, fs[|fs| - 1], q);
    }
  }

  /** However such a run goes on, with any deliveries, no specialist but the late one ever
      casts its Vote. */
  lemma Stranded(c: C.Config, id: string, es: seq<Event>, fs: seq<Event>, q: Id, k: nat)
    requires WellFormed(c, id) && Run(c, id, es).Some? && Run(c, id, es + fs).Some?
    requires Late(c, Run(c, id, es).value, q) && k < |Specialists(c)| && Specialists(c)[k] != q
    ensures !Run(c, id, es + fs).value.nodes[k].w.voted
  {
    LateForEver(c, id, es, fs, q);
    BarrierSafety(c, id, es + fs, k);
  }

  // ---- It takes a partial quorum ----

  /** All specialists but one are enough for a quorum. */
  ghost predicate PartialQuorum(c: C.Config) {
    |Specialists(c)| >= 2 && c.strategy.isQuorumMet(|Specialists(c)| - 1, |Specialists(c)|)
  }

  lemma {:induction false} QuorumGrows(p: PolicyStrategy, size: nat, more: nat, total: nat)
    requires C.GrowsWith(p) && size <= more && p.isQuorumMet(size, total)
    ensures p.isQuorumMet(more, total)
    decreases more - size
  {
    if size < more { QuorumGrows(p, size + 1, more, total); }
  }

  lemma ForcingNeedsPartialQuorum(c: C.Config, s: C.State, t: nat)
    requires C.GrowsWith(c.strategy) && C.Inv(c, s) && ForcesEarly(c, s, C.Deadline(c, s, t))
    ensures PartialQuorum(c)
  {
    QuorumGrows(c.strategy, |s.signals|, |Specialists(c)| - 1, |Specialists(c)|);
  }

  lemma {:induction false} ForcedNeedsPartialQuorum(c: C.Config, id: string, es: seq<Event>)
    requires WellFormed(c, id) && Run(c, id, es).Some? && Run(c, id, es).value.forced
    ensures PartialQuorum(c)
  {
    if es != [] {
      var before, e := es[..|es| - 1], es[|es| - 1];
      InvRun(c, id, before);
      if Run(c, id, before).value.forced {
        ForcedNeedsPartialQuorum(c, id, before);
      } else {
        ForcingNeedsPartialQuorum(c, Run(c, id, before).value.coord, e.timer);
      }
    }
  }

  lemma LateMeansForced(x: Inputs, es: seq<Event>, q: Id)
    requires Admissible(x) && OrderedRun(x, es).Some? && FairRun(x, es) && Late(x.c, OrderedRun(x, es).value.sys, q)
    ensures OrderedRun(x, es).value.sys.forced
  {
    AcceptedRun(x, es);
    var s := OrderedRun(x, es).value.sys;
    if !s.forced { OpenMeansSettled(x.c, x.id, s); }
  }

  // ---- With one, it happens ----

  /** The Proposal and the first `m` specialists' Evaluations, in their order. */
  ghost predicate LogIs(x: Inputs, log: seq<Envelope>, m: nat)
    requires m <= |x.analyses| == |Specialists(x.c)|
  {
    && |log| == m + 1
    && log[0] == Envelope(x.c.self, Proposal(Some(x.id)))
    && forall i | 0 <= i < m :: log[i + 1] == Envelope(Specialists(x.c)[i], W.EvaluationOf(x.id, x.analyses[i]))
  }

  /** A worker that has evaluated and read no further; it votes at once if it has no peers. */
  ghost predicate Staged(n: Node, read: nat) {
    read == 1 && !n.busy.Evaluating? && (n.w.voted ==> n.busy.CastingVote?)
  }

  ghost predicate Evaluated(x: Inputs, o: OrderedSys, m: nat)
    requires m <= |x.analyses| == |Specialists(x.c)|
  {
    && |o.read| == |o.sys.nodes| == |x.analyses| && LogIs(x, o.sys.log, m)
    && (forall j | 0 <= j < m :: Staged(o.sys.nodes[j], o.read[j]))
    && (forall j | m <= j < |x.analyses| :: o.sys.nodes[j] == Node(W.INITIAL, Idle, 0, 0) && o.read[j] == 0)
    && o.sys.coord == C.INITIAL && o.coordRead == 0 && !o.sys.forced
  }

  ghost predicate EvaluatingNext(x: Inputs, o: OrderedSys, m: nat)
    requires m < |x.analyses| == |Specialists(x.c)|
  {
    && |o.read| == |o.sys.nodes| == |x.analyses| && LogIs(x, o.sys.log, m)
    && (forall j | 0 <= j < m :: Staged(o.sys.nodes[j], o.read[j]))
    && o.sys.nodes[m] == Node(W.INITIAL, Evaluating(x.c.self, x.id, x.analyses[m]), 1, 0) && o.read[m] == 1
    && (forall j | m < j < |x.analyses| :: o.sys.nodes[j] == Node(W.INITIAL, Idle, 0, 0) && o.read[j] == 0)
    && o.sys.coord == C.INITIAL && o.coordRead == 0 && !o.sys.forced
  }

  lemma ReadsProposal(x: Inputs, es: seq<Event>, m: nat) returns (fs: seq<Event>)
    requires m < |x.analyses| == |Specialists(x.c)|
    requires OrderedRun(x, es).Some? && FairRun(x, es) && Evaluated(x, OrderedRun(x, es).value, m)
    ensures OrderedRun(x, fs).Some? && FairRun(x, fs) && EvaluatingNext(x, OrderedRun(x, fs).value, m)
  {
    var o, e := OrderedRun(x, es).value, ToWorker(m, 0, x.analyses[m]);
    ReadShape(x, o, e);
    Extend(x, es, e);
    fs := es + [e];
  }

  lemma NotOpenYet(x: Inputs, log: seq<Envelope>, m: nat)
    requires m <= |x.analyses| == |Specialists(x.c)| && LogIs(x, log, m)
    ensures !VotingOpen(log)
  {
    forall i | 0 <= i < |log| ensures !log[i].msg.VoteMsg? {
      if i > 0 { assert log[i].sender == Specialists(x.c)[i - 1]; }
    }
  }

  lemma LogGrows(x: Inputs, log: seq<Envelope>, m: nat)
    requires m < |x.analyses| == |Specialists(x.c)| && LogIs(x, log, m)
    ensures LogIs(x, log + [Envelope(Specialists(x.c)[m], W.EvaluationOf(x.id, x.analyses[m]))], m + 1)
  {
  }

  lemma Evaluates(x: Inputs, es: seq<Event>, m: nat) returns (fs: seq<Event>)
    requires m < |x.analyses| == |Specialists(x.c)|
    requires OrderedRun(x, es).Some? && FairRun(x, es) && EvaluatingNext(x, OrderedRun(x, es).value, m)
    ensures OrderedRun(x, fs).Some? && FairRun(x, fs) && Evaluated(x, OrderedRun(x, fs).value, m + 1)
  {
    var log := OrderedRun(x, es).value.sys.log;
    NotOpenYet(x, log, m);
    LogGrows(x, log, m);
    Extend(x, es, WorkerSettles(m, true));
    fs := es + [WorkerSettles(m, true)];
    assert OrderedRun(x, fs).value.sys.log ==
      log + [Envelope(Specialists(x.c)[m], W.EvaluationOf(x.id, x.analyses[m]))];
  }

  lemma {:induction false} EvaluateSome(x: Inputs, m: nat) returns (es: seq<Event>)
    requires m <= |x.analyses| == |Specialists(x.c)|
    ensures OrderedRun(x, es).Some? && FairRun(x, es) && Evaluated(x, OrderedRun(x, es).value, m)
  {
    es := [];
    if m > 0 {
      es := EvaluateSome(x, m - 1);
      es := ReadsProposal(x, es, m - 1);
      es := Evaluates(x, es, m - 1);
    }
  }

  /** The coordinator waits, its deadline armed, with the first `i` specialists' signals. */
  ghost predicate Armed(x: Inputs, s: C.State, i: nat)
    requires i <= |x.analyses| == |Specialists(x.c)|
  {
    && JsMap.Distinct(s.signals) && |s.signals| == i
    && (forall p | p in JsMap.View(s.signals) :: p in Specialists(x.c)[..i])
    && s.proposalId == Some(x.id) && !s.committed && s.hasContext == (i > 0)
    && s.timers == {0} && s.waitTimer == Some(0) && s.phase.Waiting?
  }

  ghost predicate Waits(x: Inputs, o: OrderedSys, m: nat, i: nat)
    requires i <= m <= |x.analyses| == |Specialists(x.c)|
  {
    && |o.read| == |o.sys.nodes| == |x.analyses| && LogIs(x, o.sys.log, m)
    && (forall j | 0 <= j < m :: Staged(o.sys.nodes[j], o.read[j]))
    && Armed(x, o.sys.coord, i) && o.coordRead == i + 1 && !o.sys.forced
  }

  lemma RecordNext(x: Inputs, s: C.State, i: nat)
    requires Admissible(x) && i + 1 < |x.analyses| && Armed(x, s, i)
    ensures var e := Envelope(Specialists(x.c)[i], W.EvaluationOf(x.id, x.analyses[i]));
            Armed(x, C.Deliver(x.c, s, e), i + 1)
  {
    var p := Specialists(x.c)[i];
    var signal := C.SignalOf(x.c, Envelope(p, W.EvaluationOf(x.id, x.analyses[i])));
    SpecialistsAre(x.c);
    assert p in Specialists(x.c) && p !in Specialists(x.c)[..i];
    assert Specialists(x.c)[..i + 1] == Specialists(x.c)[..i] + [p];
    C.DeliverIs(x.c, s, Envelope(p, W.EvaluationOf(x.id, x.analyses[i])));
    JsMap.PutView(s.signals, p, signal.value);
    JsMap.PutNew(s.signals, p, signal.value);
    assert !C.MayCommit(x.c, C.Recorded(s, p, signal.value), false);
  }

  /** The coordinator reads the Proposal and the first `i` Evaluations. */
  lemma {:induction false} ReadSome(x: Inputs, m: nat, i: nat) returns (es: seq<Event>)
    requires Admissible(x) && i <= m <= |x.analyses| && i < |x.analyses|
    ensures OrderedRun(x, es).Some? && FairRun(x, es) && Waits(x, OrderedRun(x, es).value, m, i)
  {
    if i == 0 {
      var before := EvaluateSome(x, m);
      Extend(x, before, ToCoordinator(0));
      es := before + [ToCoordinator(0)];
    } else {
      var before := ReadSome(x, m, i - 1);
      Extend(x, before, ToCoordinator(i));
      RecordNext(x, OrderedRun(x, before).value.sys.coord, i - 1);
      es := before + [ToCoordinator(i)];
    }
  }

  ghost predicate ForcedTo(x: Inputs, o: OrderedSys, m: nat, p: C.Phase)
    requires m <= |x.analyses| == |Specialists(x.c)|
  {
    && |o.read| == |o.sys.nodes| == |x.analyses|
    && LogIs(x, o.sys.log, m) && o.sys.forced && o.sys.coord.phase == p
  }

  lemma SuspendFails(x: Inputs, es: seq<Event>, m: nat) returns (fs: seq<Event>)
    requires m <= |x.analyses| == |Specialists(x.c)| && OrderedRun(x, es).Some? && FairRun(x, es)
    requires ForcedTo(x, OrderedRun(x, es).value, m, C.Suspending)
    ensures OrderedRun(x, fs).Some? && FairRun(x, fs) && OrderedRun(x, fs).value.sys.coord.phase.Voting?
    ensures ForcedTo(x, OrderedRun(x, fs).value, m, OrderedRun(x, fs).value.sys.coord.phase)
  {
    Extend(x, es, CoordinatorSettles(false));
    fs := es + [CoordinatorSettles(false)];
    assert OrderedRun(x, fs).value.sys.log == OrderedRun(x, es).value.sys.log;
  }

  lemma DeadlineForces(x: Inputs, s: C.State)
    requires Admissible(x) && PartialQuorum(x.c) && Armed(x, s, |x.analyses| - 1)
    ensures var s' := C.Deadline(x.c, s, 0); ForcesEarly(x.c, s, s') && (s'.phase.Suspending? || s'.phase.Voting?)
  {
    assert C.MayCommit(x.c, s.(timers := s.timers - {0}), true);
  }

  /** The deadline fires before the last specialist has evaluated. */
  lemma ForceEarly(x: Inputs) returns (es: seq<Event>, d: Decision)
    requires Admissible(x) && PartialQuorum(x.c)
    ensures OrderedRun(x, es).Some? && FairRun(x, es)
    ensures ForcedTo(x, OrderedRun(x, es).value, |x.analyses| - 1, C.Voting(d))
  {
    var m := |x.analyses| - 1;
    var before := ReadSome(x, m, m);
    DeadlineForces(x, OrderedRun(x, before).value.sys.coord);
    Extend(x, before, DeadlineFires(0));
    es := before + [DeadlineFires(0)];
    if OrderedRun(x, es).value.sys.coord.phase.Suspending? { es := SuspendFails(x, es, m); }
    d := OrderedRun(x, es).value.sys.coord.phase.decision;
  }

  lemma LastNotEvaluated(x: Inputs, log: seq<Envelope>)
    requires Admissible(x) && LogIs(x, log, |x.analyses| - 1)
    ensures !EvaluatedIn(log, Specialists(x.c)[|x.analyses| - 1])
  {
    SpecialistsAre(x.c);
    var q := Specialists(x.c)[|x.analyses| - 1];
    forall i | 0 <= i < |log| && log[i].msg.EvaluationMsg? ensures log[i].sender != q {
      assert i > 0 && log[i].sender == Specialists(x.c)[i - 1];
    }
  }

  lemma StrandLast(x: Inputs) returns (es: seq<Event>)
    requires Admissible(x) && PartialQuorum(x.c)
    ensures OrderedRun(x, es).Some? && FairRun(x, es)
    ensures Late(x.c, OrderedRun(x, es).value.sys, Specialists(x.c)[|x.analyses| - 1])
  {
    var before, d := ForceEarly(x);
    var o := OrderedRun(x, before).value;
    LastNotEvaluated(x, o.sys.log);
    Appended(o.sys.log, CoordinatorSubmission(x.c, o.sys.coord)[0]);
    Extend(x, before, CoordinatorSettles(true));
    es := before + [CoordinatorSettles(true)];
    assert OrderedRun(x, es).value.sys.log == o.sys.log + [CoordinatorSubmission(x.c, o.sys.coord)[0]];
  }

  // ---- Main results ----

  /** Some fair in-order run leaves a specialist late, and so strands the others, exactly when
      all specialists but one are enough for a quorum. */
  lemma CanStrandIff(x: Inputs)
    requires Admissible(x)
    ensures (exists es: seq<Event>, q ::
              OrderedRun(x, es).Some? && FairRun(x, es) && Late(x.c, OrderedRun(x, es).value.sys, q))
       <==> PartialQuorum(x.c)
  {
    if PartialQuorum(x.c) {
      var es := StrandLast(x);
    }
    if es: seq<Event>, q :| OrderedRun(x, es).Some? && FairRun(x, es) && Late(x.c, OrderedRun(x, es).value.sys, q) {
      LateMeansForced(x, es, q);
      OrderedRunIsRun(x, es);
      ForcedNeedsPartialQuorum(x.c, x.id, es);
    }
  }

  /** With the repository's strategies: two specialists or more, and a threshold policy that
      leaves room for a missing one. */
  lemma HintsThatStrand(x: Inputs, hints: Option<Hints>)
    requires Admissible(x) && x.c.strategy == CreatePolicyStrategy(hints)
    ensures var n, p := |Specialists(x.c)|, RulesOf(hints);
            PartialQuorum(x.c) <==> n >= 2 && CountsByThreshold(p) && n as real * p.threshold <= (n - 1) as real
  {
    var n := |Specialists(x.c)|;
    if n >= 2 { DeadlineCanForce(RulesOf(hints), n - 1, n); }
  }
}
