/** The session under in-order delivery: each participant reads the log once, entry by entry.
    Here every run ends, every quiet run has committed, and what is decided does not depend
    on the interleaving. */
module Ordered {
  import opened Wrappers
  import opened Sequences
  import opened Messages
  import opened Policy
  import opened Session
  import JsMap
  import C = Coordinator
  import W = Worker

  /** How far each worker, and the coordinator, has read the log. */
  datatype OrderedSys = OrderedSys(sys: Sys, read: seq<nat>, coordRead: nat)

  /** The session's fixed inputs: the specialists' analyses, in their order. */
  datatype Inputs = Inputs(c: C.Config, id: string, analyses: seq<W.Analysis>)

  ghost predicate Admissible(x: Inputs) {
    && WellFormed(x.c, x.id)
    && |x.analyses| == |Specialists(x.c)|
  }

  ghost function OrderedStart(x: Inputs): OrderedSys {
    OrderedSys(Start(x.c, x.id), seq(|Specialists(x.c)|, _ => 0), 0)
  }

  ghost predicate OrderedEnabled(x: Inputs, o: OrderedSys, e: Event)
    requires |o.read| == |o.sys.nodes| == |x.analyses|
  {
    && Enabled(o.sys, e)
    && (e.ToWorker? ==> e.i == o.read[e.k] && e.analysis == x.analyses[e.k])
    && (e.ToCoordinator? ==> e.i == o.coordRead)
  }

  ghost predicate Closed(log: seq<Envelope>) {
    exists i :: 0 <= i < |log| && log[i].msg.Commitment?
  }

  /** The runtime refuses an Evaluation only once Voting is open or the session is closed. */
  ghost predicate Fair(o: OrderedSys, e: Event) {
    e.WorkerSettles? && !e.ok && e.k < |o.sys.nodes| && o.sys.nodes[e.k].busy.Evaluating? ==>
      VotingOpen(o.sys.log) || Closed(o.sys.log)
  }

  ghost function OrderedStep(x: Inputs, o: OrderedSys, e: Event): OrderedSys
    requires |o.read| == |o.sys.nodes| == |x.analyses| == |Specialists(x.c)|
    requires OrderedEnabled(x, o, e)
  {
    var sys := Step(x.c, o.sys, e);
    match e
    case ToWorker(k, _, _) => OrderedSys(sys, o.read[k := o.read[k] + 1], o.coordRead)
    case ToCoordinator(_) => OrderedSys(sys, o.read, o.coordRead + 1)
    case _ => OrderedSys(sys, o.read, o.coordRead)
  }

  ghost function OrderedRun(x: Inputs, es: seq<Event>): (r: Option<OrderedSys>)
    requires |x.analyses| == |Specialists(x.c)|
    ensures r.Some? ==> |r.value.read| == |r.value.sys.nodes| == |x.analyses|
  {
    if es == [] then Some(OrderedStart(x))
    else
      var before := OrderedRun(x, es[..|es| - 1]);
      if before.Some? && OrderedEnabled(x, before.value, es[|es| - 1])
      then Some(OrderedStep(x, before.value, es[|es| - 1])) else None
  }

  /** An in-order run is a run. */
  lemma {:induction false} OrderedRunIsRun(x: Inputs, es: seq<Event>)
    requires |x.analyses| == |Specialists(x.c)| && OrderedRun(x, es).Some?
    ensures Run(x.c, x.id, es) == Some(OrderedRun(x, es).value.sys)
  {
    if es != [] {
      OrderedRunIsRun(x, es[..|es| - 1]);
    }
  }

  /** Every refusal of an Evaluation along the run obeyed the phase rule. */
  ghost predicate FairRun(x: Inputs, es: seq<Event>)
    requires |x.analyses| == |Specialists(x.c)|
  {
    es == [] ||
    (FairRun(x, es[..|es| - 1]) &&
     (OrderedRun(x, es[..|es| - 1]).Some? ==> Fair(OrderedRun(x, es[..|es| - 1]).value, es[|es| - 1])))
  }

  lemma Extend(x: Inputs, es: seq<Event>, e: Event)
    requires |x.analyses| == |Specialists(x.c)| && OrderedRun(x, es).Some? && FairRun(x, es)
    requires OrderedEnabled(x, OrderedRun(x, es).value, e) && Fair(OrderedRun(x, es).value, e)
    ensures OrderedRun(x, es + [e]) == Some(OrderedStep(x, OrderedRun(x, es).value, e)) && FairRun(x, es + [e])
  {
    assert (es + [e])[..|es|] == es;
  }

  // ---- What the log and the workers hold ----

  ghost predicate OrderedLog(x: Inputs, log: seq<Envelope>)
    requires |x.analyses| == |Specialists(x.c)|
  {
    && (forall i | 0 <= i < |log| :: log[i].msg.Proposal? ==> i == 0)
    && (forall i, k | 0 <= i < |log| && 0 <= k < |x.analyses| && log[i].sender == Specialists(x.c)[k] ::
          (log[i].msg.EvaluationMsg? ==> log[i].msg == W.EvaluationOf(x.id, x.analyses[k])) &&
          (log[i].msg.VoteMsg? ==> log[i].msg == VoteOf(x, k)))
    && EvaluatesFirst(x.c, log)
  }

  /** A specialist's own Evaluation comes before its Vote. */
  ghost predicate EvaluatesFirst(c: C.Config, log: seq<Envelope>) {
    forall i, j | 0 <= i < |log| && 0 <= j < |log| && log[i].sender == log[j].sender ::
      log[i].msg.EvaluationMsg? && log[j].msg.VoteMsg? && log[j].sender != c.self ==> i < j
  }

  lemma EvaluatesFirstAppend(c: C.Config, log: seq<Envelope>, e: Envelope)
    requires EvaluatesFirst(c, log) && (e.msg.EvaluationMsg? ==> !VotedIn(log, e.sender))
    ensures EvaluatesFirst(c, log + [e])
  {
    var l := log + [e];
    assert e.msg.EvaluationMsg? ==>
      forall j | 0 <= j < |log| && log[j].sender == e.sender :: !log[j].msg.VoteMsg?;
    assert l[|log|] == e && forall j | 0 <= j < |log| :: l[j] == log[j];
  }

  function VoteOf(x: Inputs, k: nat): Message
    requires k < |x.analyses|
  {
    VoteMsg(Some(x.id), Some(W.VoteOf(x.analyses[k])))
  }

  ghost predicate OrderedNode(x: Inputs, log: seq<Envelope>, k: nat, n: Node, read: nat)
    requires k < |x.analyses| == |Specialists(x.c)|
  {
    var p, a := Specialists(x.c)[k], x.analyses[k];
    && read <= |log|
    && n.started == (if read >= 1 then 1 else 0)
    && (n.busy.Evaluating? ==> n.busy.analysis == a)
    && (n.w.pending.Some? ==> n.w.pending.value == W.Pending(x.id, W.VoteOf(a), a.recommendation))
    && (n.busy.CastingVote? ==> n.busy.vote == VoteOf(x, k))
    && (n.busy.Idle? ==> !W.Released(n.w))
    && (forall q | EvaluatedIn(log[..read], q) && q != p && q != "" :: q in n.w.seen)
    // A sender without a name is not recorded.
    && "" !in n.w.seen
  }

  ghost predicate OrderedNodes(x: Inputs, o: OrderedSys)
    requires |x.analyses| == |Specialists(x.c)|
  {
    && |o.read| == |o.sys.nodes| == |x.analyses|
    && forall k | 0 <= k < |o.read| :: OrderedNode(x, o.sys.log, k, o.sys.nodes[k], o.read[k])
  }

  lemma ReadOne(log: seq<Envelope>, i: nat)
    requires i < |log|
    ensures forall q :: EvaluatedIn(log[..i + 1], q) <==>
              EvaluatedIn(log[..i], q) || (log[i].sender == q && log[i].msg.EvaluationMsg?)
  {
    assert log[..i + 1] == log[..i] + [log[i]];
    Appended(log[..i], log[i]);
  }

  lemma OrderedNodeDeliver(x: Inputs, log: seq<Envelope>, k: nat, n: Node, read: nat)
    requires k < |x.analyses| == |Specialists(x.c)| && read < |log| && n.busy.Idle?
    requires LogInv(x.c, x.id, log) && OrderedLog(x, log) && OrderedNode(x, log, k, n, read)
    requires NodeInv(x.c, x.id, log, Specialists(x.c)[k], n)
    ensures OrderedNode(x, log, k, DeliverTo(x.c, k, n, log[read], x.analyses[k]), read + 1)
  {
    ReadOne(log, read);
    assert log[read].msg.Proposal? <==> read == 0;
  }

  lemma OrderedNodeSettle(x: Inputs, log: seq<Envelope>, k: nat, n: Node, read: nat, log': seq<Envelope>)
    requires k < |x.analyses| == |Specialists(x.c)| && !n.busy.Idle?
    requires OrderedNode(x, log, k, n, read) && log <= log'
    requires NodeInv(x.c, x.id, log, Specialists(x.c)[k], n)
    ensures OrderedNode(x, log', k, SettleNode(x.c, k, n), read)
  {
    assert log'[..read] == log[..read];
  }

  lemma OrderedNodeExtend(x: Inputs, log: seq<Envelope>, k: nat, n: Node, read: nat, log': seq<Envelope>)
    requires k < |x.analyses| == |Specialists(x.c)| && log <= log'
    requires OrderedNode(x, log, k, n, read)
    ensures OrderedNode(x, log', k, n, read)
  {
    assert log'[..read] == log[..read];
  }

  lemma OrderedLogAppend(x: Inputs, log: seq<Envelope>, e: Envelope)
    requires |x.analyses| == |Specialists(x.c)| && OrderedLog(x, log) && NoDuplicates(Specialists(x.c))
    requires !e.msg.Proposal?
    requires forall k | 0 <= k < |x.analyses| && e.sender == Specialists(x.c)[k] ::
               (e.msg.EvaluationMsg? ==> e.msg == W.EvaluationOf(x.id, x.analyses[k])) &&
               (e.msg.VoteMsg? ==> e.msg == VoteOf(x, k))
    requires e.msg.EvaluationMsg? ==> !VotedIn(log, e.sender)
    requires |log| >= 1
    ensures OrderedLog(x, log + [e])
  {
    EvaluatesFirstAppend(x.c, log, e);
    assert (log + [e])[|log|] == e && forall j | 0 <= j < |log| :: (log + [e])[j] == log[j];
  }

  /** What a settling worker submits, and that an Evaluation is its first word. */
  lemma OrderedSubmission(x: Inputs, log: seq<Envelope>, k: nat, n: Node, read: nat)
    requires k < |x.analyses| == |Specialists(x.c)| && !n.busy.Idle?
    requires OrderedNode(x, log, k, n, read) && NodeInv(x.c, x.id, log, Specialists(x.c)[k], n)
    ensures n.busy.Evaluating? ==>
              Submission(n.busy) == W.EvaluationOf(x.id, x.analyses[k]) && n.settled == 0
              && !VotedIn(log, Specialists(x.c)[k]) && !EvaluatedIn(log, Specialists(x.c)[k])
    ensures n.busy.CastingVote? ==> Submission(n.busy) == VoteOf(x, k)
  {
  }

  lemma OrderedNodesExtend(x: Inputs, log: seq<Envelope>, nodes: seq<Node>, read: seq<nat>, log': seq<Envelope>)
    requires |read| == |nodes| == |x.analyses| == |Specialists(x.c)| && log <= log'
    requires forall j | 0 <= j < |read| :: OrderedNode(x, log, j, nodes[j], read[j])
    ensures forall j | 0 <= j < |read| :: OrderedNode(x, log', j, nodes[j], read[j])
  {
    forall j | 0 <= j < |read| ensures OrderedNode(x, log', j, nodes[j], read[j]) {
      OrderedNodeExtend(x, log, j, nodes[j], read[j], log');
    }
  }

  ghost predicate KeepsOrdered(x: Inputs, o: OrderedSys, o': OrderedSys)
    requires |x.analyses| == |Specialists(x.c)|
  {
    OrderedNodes(x, o') && OrderedLog(x, o'.sys.log) && o.sys.log <= o'.sys.log
  }

  lemma ReadShape(x: Inputs, o: OrderedSys, e: Event)
    requires |o.read| == |o.sys.nodes| == |x.analyses| == |Specialists(x.c)|
    requires OrderedEnabled(x, o, e) && e.ToWorker?
    ensures var o' := OrderedStep(x, o, e);
      && o'.sys.nodes == o.sys.nodes[e.k := DeliverTo(x.c, e.k, o.sys.nodes[e.k], o.sys.log[e.i], e.analysis)]
      && o'.read == o.read[e.k := o.read[e.k] + 1]
      && o'.sys.log == o.sys.log && o'.sys.coord == o.sys.coord && o'.coordRead == o.coordRead
  {
  }

  lemma NodeReads(x: Inputs, o: OrderedSys, e: Event)
    requires Admissible(x) && Inv(x.c, x.id, o.sys) && OrderedNodes(x, o) && OrderedLog(x, o.sys.log)
    requires OrderedEnabled(x, o, e) && e.ToWorker?
    ensures var n := DeliverTo(x.c, e.k, o.sys.nodes[e.k], o.sys.log[e.i], e.analysis);
            OrderedNode(x, o.sys.log, e.k, n, o.read[e.k] + 1)
  {
    var log, k, n, read := o.sys.log, e.k, o.sys.nodes[e.k], o.read[e.k];
    assert NodeInv(x.c, x.id, log, Specialists(x.c)[k], n);
    OrderedNodeDeliver(x, log, k, n, read);
  }

  lemma NodeAfterRead(x: Inputs, o: OrderedSys, e: Event, j: nat)
    requires Admissible(x) && Inv(x.c, x.id, o.sys) && OrderedNodes(x, o) && OrderedLog(x, o.sys.log)
    requires OrderedEnabled(x, o, e) && e.ToWorker? && j < |x.analyses|
    ensures var o' := OrderedStep(x, o, e); OrderedNode(x, o.sys.log, j, o'.sys.nodes[j], o'.read[j])
  {
    ReadShape(x, o, e);
    if j == e.k { NodeReads(x, o, e); } else { assert OrderedNode(x, o.sys.log, j, o.sys.nodes[j], o.read[j]); }
  }

  lemma WorkerReadsOrdered(x: Inputs, o: OrderedSys, e: Event)
    requires Admissible(x) && Inv(x.c, x.id, o.sys) && OrderedNodes(x, o) && OrderedLog(x, o.sys.log)
    requires OrderedEnabled(x, o, e) && e.ToWorker?
    ensures KeepsOrdered(x, o, OrderedStep(x, o, e))
  {
    forall j: nat | j < |x.analyses| { NodeAfterRead(x, o, e, j); }
  }

  lemma SettleShape(x: Inputs, o: OrderedSys, e: Event)
    requires |o.read| == |o.sys.nodes| == |x.analyses| == |Specialists(x.c)|
    requires OrderedEnabled(x, o, e) && e.WorkerSettles?
    ensures var n := o.sys.nodes[e.k];
      OrderedStep(x, o, e).sys.log ==
      if e.ok then o.sys.log + [Envelope(Specialists(x.c)[e.k], Submission(n.busy))] else o.sys.log
  {
  }

  /** A worker's submission is its own and keeps its Evaluation before its Vote. */
  lemma SubmissionFits(x: Inputs, o: OrderedSys, k: nat)
    requires Admissible(x) && Inv(x.c, x.id, o.sys) && OrderedNodes(x, o) && OrderedLog(x, o.sys.log)
    requires k < |o.sys.nodes| && !o.sys.nodes[k].busy.Idle?
    ensures OrderedLog(x, o.sys.log + [Envelope(Specialists(x.c)[k], Submission(o.sys.nodes[k].busy))])
  {
    var log, n := o.sys.log, o.sys.nodes[k];
    SpecialistsAre(x.c);
    assert NodeInv(x.c, x.id, log, Specialists(x.c)[k], n);
    OrderedSubmission(x, log, k, n, o.read[k]);
    OrderedLogAppend(x, log, Envelope(Specialists(x.c)[k], Submission(n.busy)));
  }

  lemma SettledLogOrdered(x: Inputs, o: OrderedSys, e: Event)
    requires Admissible(x) && Inv(x.c, x.id, o.sys) && OrderedNodes(x, o) && OrderedLog(x, o.sys.log)
    requires OrderedEnabled(x, o, e) && e.WorkerSettles?
    ensures var log' := OrderedStep(x, o, e).sys.log; OrderedLog(x, log') && o.sys.log <= log'
  {
    SettleShape(x, o, e);
    SubmissionFits(x, o, e.k);
  }

  lemma WorkerSettlesOrdered(x: Inputs, o: OrderedSys, e: Event)
    requires Admissible(x) && Inv(x.c, x.id, o.sys) && OrderedNodes(x, o) && OrderedLog(x, o.sys.log)
    requires OrderedEnabled(x, o, e) && e.WorkerSettles?
    ensures KeepsOrdered(x, o, OrderedStep(x, o, e))
  {
    var log, log', k := o.sys.log, OrderedStep(x, o, e).sys.log, e.k;
    SettledLogOrdered(x, o, e);
    assert NodeInv(x.c, x.id, log, Specialists(x.c)[k], o.sys.nodes[k]);
    OrderedNodeSettle(x, log, k, o.sys.nodes[k], o.read[k], log');
    OrderedNodesExtend(x, log, o.sys.nodes, o.read, log');
  }

  lemma CoordinatorSettlesOrdered(x: Inputs, o: OrderedSys, e: Event)
    requires Admissible(x) && Inv(x.c, x.id, o.sys) && OrderedNodes(x, o) && OrderedLog(x, o.sys.log)
    requires OrderedEnabled(x, o, e) && e.CoordinatorSettles?
    ensures KeepsOrdered(x, o, OrderedStep(x, o, e))
  {
    var log, log' := o.sys.log, OrderedStep(x, o, e).sys.log;
    SpecialistsAre(x.c);
    var sent := CoordinatorSubmission(x.c, o.sys.coord);
    if e.ok && sent != [] {
      assert sent == [sent[0]] && x.c.self !in Specialists(x.c);
      OrderedLogAppend(x, log, sent[0]);
    } else {
      assert log + [] == log;
    }
    OrderedNodesExtend(x, log, o.sys.nodes, o.read, log');
  }

  lemma StepKeepsOrdered(x: Inputs, o: OrderedSys, e: Event)
    requires Admissible(x) && Inv(x.c, x.id, o.sys) && OrderedNodes(x, o) && OrderedLog(x, o.sys.log)
    requires OrderedEnabled(x, o, e)
    ensures KeepsOrdered(x, o, OrderedStep(x, o, e))
  {
    match e
    case ToWorker(_, _, _) => WorkerReadsOrdered(x, o, e);
    case WorkerSettles(_, _) => WorkerSettlesOrdered(x, o, e);
    case CoordinatorSettles(_) => CoordinatorSettlesOrdered(x, o, e);
    case _ =>
  }

  // ---- What the coordinator holds ----

  /** The signal map that reading a stretch of the log amounts to. */
  function SignalMap(c: C.Config, log: seq<Envelope>): map<Id, Signal> {
    if log == [] then map[]
    else
      var e := log[|log| - 1];
      var before := SignalMap(c, log[..|log| - 1]);
      match C.SignalOf(c, e)
      case Some(signal) => before[e.sender := signal]
      case None => before
  }

  ghost predicate SignalsFrom(c: C.Config, log: seq<Envelope>, p: Id, signal: Signal) {
    exists i :: 0 <= i < |log| && log[i].sender == p && C.SignalOf(c, log[i]) == Some(signal)
  }

  lemma {:induction false} SignalMapFrom(c: C.Config, log: seq<Envelope>, p: Id)
    ensures p in SignalMap(c, log) ==> SignalsFrom(c, log, p, SignalMap(c, log)[p])
    ensures (exists i :: 0 <= i < |log| && log[i].sender == p && C.SignalOf(c, log[i]).Some?) ==> p in SignalMap(c, log)
  {
    if log != [] {
      var init, e := log[..|log| - 1], log[|log| - 1];
      SignalMapFrom(c, init, p);
      assert forall i | 0 <= i < |init| :: init[i] == log[i];
      if p in SignalMap(c, log) && !(C.SignalOf(c, e).Some? && e.sender == p) {
        var i :| 0 <= i < |init| && init[i].sender == p && C.SignalOf(c, init[i]) == Some(SignalMap(c, init)[p]);
        assert log[i].sender == p && C.SignalOf(c, log[i]) == Some(SignalMap(c, log)[p]);
      }
      if exists i :: 0 <= i < |log| && log[i].sender == p && C.SignalOf(c, log[i]).Some? {
        var i :| 0 <= i < |log| && log[i].sender == p && C.SignalOf(c, log[i]).Some?;
        if i < |init| { assert init[i].sender == p && C.SignalOf(c, init[i]).Some?; }
      }
    }
  }

  ghost predicate FullQuorum(c: C.Config) {
    c.strategy.isQuorumMet(|Specialists(c)|, |Specialists(c)|)
  }

  ghost predicate OrderedCoordinator(x: Inputs, log: seq<Envelope>, s: C.State, read: nat) {
    && read <= |log|
    && JsMap.View(s.signals) == SignalMap(x.c, log[..read])
    && s.proposalId == (if read >= 1 then Some(x.id) else None)
    && (!s.committed ==> |s.signals| < |Specialists(x.c)| || !FullQuorum(x.c))
  }

  lemma OrderedCoordinatorExtend(x: Inputs, log: seq<Envelope>, s: C.State, s': C.State, read: nat, log': seq<Envelope>)
    requires OrderedCoordinator(x, log, s, read) && log <= log'
    requires s'.signals == s.signals && s'.proposalId == s.proposalId && (s.committed ==> s'.committed)
    ensures OrderedCoordinator(x, log', s', read)
  {
    assert log'[..read] == log[..read];
  }

  /** A recorded signal comes from a specialist, so the Map never outgrows them. */
  lemma RecordedWithin(x: Inputs, s: Sys, e: Envelope)
    requires Admissible(x) && Inv(x.c, x.id, s) && Authentic(x.c, x.id, e) && C.SignalOf(x.c, e).Some?
    ensures var r := C.Recorded(s.coord, e.sender, C.SignalOf(x.c, e).value);
            && C.Inv(x.c, r) && |r.signals| <= |Specialists(x.c)|
            && JsMap.View(r.signals) == JsMap.View(s.coord.signals)[e.sender := C.SignalOf(x.c, e).value]
            && (forall p | p in JsMap.View(r.signals) :: p in Specialists(x.c))
  {
    var signal := C.SignalOf(x.c, e).value;
    JsMap.PutView(s.coord.signals, e.sender, signal);
    C.PutSignal(x.c, s.coord, e.sender, signal);
    FullMapIsEveryone(x.c, C.Recorded(s.coord, e.sender, signal).signals);
  }

  lemma SignalMapStep(c: C.Config, log: seq<Envelope>, read: nat)
    requires read < |log|
    ensures SignalMap(c, log[..read + 1]) ==
            match C.SignalOf(c, log[read])
            case Some(signal) => SignalMap(c, log[..read])[log[read].sender := signal]
            case None => SignalMap(c, log[..read])
  {
    assert log[..read + 1][..read] == log[..read];
  }

  /** After a recorded signal, an uncommitted coordinator still lacks someone or a quorum. */
  lemma TryCommitDecides(c: C.Config, r: C.State)
    requires Truthy(r.proposalId) && |r.signals| <= |Specialists(c)|
    ensures var s' := C.TryCommit(c, r, false);
            && s'.signals == r.signals && s'.proposalId == r.proposalId
            && (!s'.committed ==> |s'.signals| < |Specialists(c)| || !FullQuorum(c))
  {
  }

  /** Reading the next entry: the coordinator records its signal, if it is one, and commits
      in the same turn once everyone has reported and the quorum allows. */
  lemma OrderedCoordinatorDeliver(x: Inputs, s: Sys, read: nat)
    requires Admissible(x) && Inv(x.c, x.id, s) && OrderedLog(x, s.log) && read < |s.log|
    requires OrderedCoordinator(x, s.log, s.coord, read)
    ensures OrderedCoordinator(x, s.log, C.Deliver(x.c, s.coord, s.log[read]), read + 1)
  {
    var e := s.log[read];
    assert Authentic(x.c, x.id, e);
    assert e.msg.Proposal? <==> read == 0;
    var signal := C.SignalOf(x.c, e);
    C.DeliverIs(x.c, s.coord, e);
    SignalMapStep(x.c, s.log, read);
    if signal.Some? {
      RecordedWithin(x, s, e);
      TryCommitDecides(x.c, C.Recorded(s.coord, e.sender, signal.value));
    }
  }
}
