/** The whole session as a step system: any number of specialists, one coordinator, and the
    runtime's append-only log of accepted envelopes. Deliveries may be delayed, reordered,
    repeated or never happen; every call a worker makes is a submission that the runtime
    later accepts or refuses, and other participants act in between. */
module Session {
  import opened Wrappers
  import opened Sequences
  import opened Messages
  import opened Policy
  import JsMap
  import C = Coordinator
  import W = Worker

  /** What a worker is doing: waiting for the next message, or blocked in a call. */
  datatype Busy =
    | Idle
    | Evaluating(coordinator: Id, proposalId: string, analysis: W.Analysis)
    | CastingVote(vote: Message)

  /** A worker process, with how many Evaluations it has submitted and how many of those
      the runtime has answered. */
  datatype Node = Node(w: W.State, busy: Busy, started: nat, settled: nat)

  /** `forced` records that the deadline committed before every recipient had reported. */
  datatype Sys = Sys(log: seq<Envelope>, nodes: seq<Node>, coord: C.State, forced: bool)

  function Specialists(c: C.Config): seq<Id> {
    C.Recipients(c)
  }

  function Start(c: C.Config, proposalId: string): Sys {
    Sys([Envelope(c.self, Proposal(Some(proposalId)))],
        seq(|Specialists(c)|, _ => Node(W.INITIAL, Idle, 0, 0)), C.INITIAL, false)
  }

  datatype Event =
    | ToWorker(k: nat, i: nat, analysis: W.Analysis)
    | WorkerSettles(k: nat, ok: bool)
    | ToCoordinator(i: nat)
    | DeadlineFires(timer: nat)
    | CoordinatorSettles(ok: bool)

  ghost predicate VotingOpen(log: seq<Envelope>) {
    exists i :: 0 <= i < |log| && log[i].msg.VoteMsg?
  }

  /** The phase rule of the runtime: no Evaluation is accepted once a Vote has been. */
  ghost predicate Enabled(s: Sys, e: Event) {
    match e
    case ToWorker(k, i, _) => k < |s.nodes| && i < |s.log| && s.nodes[k].busy.Idle?
    case WorkerSettles(k, ok) =>
      && k < |s.nodes| && !s.nodes[k].busy.Idle?
      && (s.nodes[k].busy.Evaluating? && ok ==> !VotingOpen(s.log))
    case ToCoordinator(i) => i < |s.log|
    case DeadlineFires(t) => t in s.coord.timers
    case CoordinatorSettles(_) => C.Awaiting(s.coord)
  }

  function BusyWith(vote: Option<Message>): Busy {
    if vote.Some? then CastingVote(vote.value) else Idle
  }

  function DeliverTo(c: C.Config, k: nat, n: Node, e: Envelope, a: W.Analysis): Node
    requires k < |Specialists(c)|
  {
    match e.msg
    case Proposal(id) => n.(busy := Evaluating(e.sender, id.GetOr(""), a), started := n.started + 1)
    case EvaluationMsg(_, _, _) =>
      var (w, vote) := W.HandleEvaluation(Specialists(c)[k], n.w, e.sender);
      n.(w := w, busy := BusyWith(vote))
    case _ => n
  }

  function SettleNode(c: C.Config, k: nat, n: Node): Node
    requires k < |Specialists(c)|
  {
    match n.busy
    case Evaluating(coordinator, id, a) =>
      var (w, vote) := W.Stage(c.participants, Specialists(c)[k], n.w, coordinator, id, a);
      n.(w := w, busy := BusyWith(vote), settled := n.settled + 1)
    case _ => n.(busy := Idle)
  }

  function Submission(busy: Busy): Message
    requires !busy.Idle?
  {
    if busy.Evaluating? then W.EvaluationOf(busy.proposalId, busy.analysis) else busy.vote
  }

  /** What the runtime appends when it accepts the coordinator's awaited call. */
  function CoordinatorSubmission(c: C.Config, s: C.State): seq<Envelope> {
    match s.phase
    case Voting(d) =>
      [Envelope(c.self, VoteMsg(s.proposalId, Some(if d.approveVote then "APPROVE" else "REJECT")))]
    case Committing(d) => [Envelope(c.self, Commitment(d.action, d.action != Decline))]
    case _ => []
  }

  predicate ForcesEarly(c: C.Config, before: C.State, after: C.State) {
    !before.committed && after.committed && |before.signals| < |C.Recipients(c)|
  }

  ghost function Step(c: C.Config, s: Sys, e: Event): Sys
    requires Enabled(s, e) && |s.nodes| == |Specialists(c)|
  {
    match e
    case ToWorker(k, i, a) => s.(nodes := s.nodes[k := DeliverTo(c, k, s.nodes[k], s.log[i], a)])
    case WorkerSettles(k, ok) =>
      var n := s.nodes[k];
      s.(nodes := s.nodes[k := SettleNode(c, k, n)],
         log := if ok then s.log + [Envelope(Specialists(c)[k], Submission(n.busy))] else s.log)
    case ToCoordinator(i) => s.(coord := C.Deliver(c, s.coord, s.log[i]))
    case DeadlineFires(t) =>
      var coord := C.Deadline(c, s.coord, t);
      s.(coord := coord, forced := s.forced || ForcesEarly(c, s.coord, coord))
    case CoordinatorSettles(ok) =>
      s.(coord := C.Settle(c, s.coord, ok),
         log := if ok then s.log + CoordinatorSubmission(c, s.coord) else s.log)
  }

  /** The state after a run, if every event of it was enabled. */
  ghost function Run(c: C.Config, id: string, es: seq<Event>): (r: Option<Sys>)
    ensures r.Some? ==> |r.value.nodes| == |Specialists(c)|
  {
    if es == [] then Some(Start(c, id))
    else
      var before := Run(c, id, es[..|es| - 1]);
      if before.Some? && Enabled(before.value, es[|es| - 1])
      then Some(Step(c, before.value, es[|es| - 1])) else None
  }

  // ---- The invariant ----

  /** The declared ids are distinct, and there is at least one specialist. */
  ghost predicate WellFormed(c: C.Config, id: string) {
    NoDuplicates(c.participants) && id != "" && |Specialists(c)| >= 1 && C.GrowsWith(c.strategy)
  }

  ghost predicate EvaluatedIn(log: seq<Envelope>, p: Id) {
    exists i :: 0 <= i < |log| && log[i].sender == p && log[i].msg.EvaluationMsg?
  }

  ghost predicate VotedIn(log: seq<Envelope>, p: Id) {
    exists i :: 0 <= i < |log| && log[i].sender == p && log[i].msg.VoteMsg?
  }

  ghost predicate OthersEvaluated(c: C.Config, log: seq<Envelope>, p: Id) {
    forall q | q in Specialists(c) && q != p :: EvaluatedIn(log, q)
  }

  /** Who may have sent what. */
  ghost predicate Authentic(c: C.Config, id: string, e: Envelope) {
    match e.msg
    case Proposal(pid) => e.sender == c.self && pid == Some(id)
    case EvaluationMsg(pid, _, _) => e.sender in Specialists(c) && pid == Some(id)
    case VoteMsg(pid, _) => e.sender == c.self || (e.sender in Specialists(c) && pid == Some(id))
    case ObjectionMsg(_, _) => false
    case Commitment(_, _) => e.sender == c.self
  }

  ghost predicate LogInv(c: C.Config, id: string, log: seq<Envelope>) {
    && |log| >= 1
    && log[0] == Envelope(c.self, Proposal(Some(id)))
    && (forall i | 0 <= i < |log| :: Authentic(c, id, log[i]))
    // Every specialist's Vote stands after the Evaluations of all the others.
    && (forall i | 0 <= i < |log| ::
          log[i].msg.VoteMsg? && log[i].sender != c.self ==> OthersEvaluated(c, log[..i], log[i].sender))
  }

  ghost predicate NodeInv(c: C.Config, id: string, log: seq<Envelope>, p: Id, n: Node) {
    && n.started == n.settled + (if n.busy.Evaluating? then 1 else 0)
    && (n.busy.Evaluating? ==> n.busy.coordinator == c.self && n.busy.proposalId == id)
    && (n.busy.CastingVote? ==> n.w.voted && n.busy.vote.VoteMsg? && n.busy.vote.proposalId == Some(id))
    && (n.w.pending.Some? <==> n.settled >= 1)
    && (n.w.pending.Some? ==> n.w.peers == W.PeersOf(c.participants, p, c.self))
    && (n.w.pending.Some? ==> n.w.pending.value.proposalId == id)
    && (n.w.voted ==> n.settled >= 1 && n.w.peers <= n.w.seen)
    && (forall q | q in n.w.seen :: EvaluatedIn(log, q))
    && (EvaluatedIn(log, p) ==> n.settled >= 1)
    && (VotedIn(log, p) ==> n.w.voted)
  }

  ghost predicate AllSettled(s: Sys) {
    forall k | 0 <= k < |s.nodes| :: s.nodes[k].settled >= 1
  }

  ghost predicate CoordInv(c: C.Config, s: Sys) {
    && C.Inv(c, s.coord)
    && (forall p | p in JsMap.View(s.coord.signals) ::
          p in Specialists(c) && (EvaluatedIn(s.log, p) || VotedIn(s.log, p)))
    && (s.coord.committed && !s.forced ==> AllSettled(s))
    && (VotedIn(s.log, c.self) ==> s.coord.committed)
  }

  ghost predicate Inv(c: C.Config, id: string, s: Sys) {
    && |s.nodes| == |Specialists(c)|
    && LogInv(c, id, s.log)
    && (forall k | 0 <= k < |s.nodes| :: NodeInv(c, id, s.log, Specialists(c)[k], s.nodes[k]))
    && CoordInv(c, s)
  }

  // ---- The log only grows ----

  lemma Appended(log: seq<Envelope>, e: Envelope)
    ensures forall p :: EvaluatedIn(log + [e], p) <==> EvaluatedIn(log, p) || (e.sender == p && e.msg.EvaluationMsg?)
    ensures forall p :: VotedIn(log + [e], p) <==> VotedIn(log, p) || (e.sender == p && e.msg.VoteMsg?)
    ensures VotingOpen(log + [e]) <==> VotingOpen(log) || e.msg.VoteMsg?
  {
    var l := log + [e];
    assert forall i | 0 <= i < |log| :: l[i] == log[i];
    assert l[|log|] == e;
  }

  lemma LogAppended(c: C.Config, id: string, log: seq<Envelope>, e: Envelope)
    requires LogInv(c, id, log) && Authentic(c, id, e)
    requires e.msg.VoteMsg? && e.sender != c.self ==> OthersEvaluated(c, log, e.sender)
    ensures LogInv(c, id, log + [e])
  {
    var l := log + [e];
    forall i | 0 <= i < |l| && l[i].msg.VoteMsg? && l[i].sender != c.self
      ensures OthersEvaluated(c, l[..i], l[i].sender)
    {
      assert l[..i] == log[..i];
      if i == |log| { assert l[..i] == log; }
    }
  }

  lemma SpecialistsAre(c: C.Config)
    ensures forall p :: p in Specialists(c) <==> p in c.participants && p != c.self
    ensures NoDuplicates(c.participants) ==> NoDuplicates(Specialists(c))
  {
    OthersAre(c.participants, c.self);
  }

  /** A worker's peers are the specialists other than itself. */
  lemma PeersAreTheOthers(c: C.Config, p: Id, q: Id)
    requires p in Specialists(c)
    ensures q in W.PeersOf(c.participants, p, c.self) <==> q in Specialists(c) && q != p
  {
    SpecialistsAre(c);
  }

  ghost predicate NodesInv(c: C.Config, id: string, log: seq<Envelope>, nodes: seq<Node>) {
    && |nodes| == |Specialists(c)|
    && forall k | 0 <= k < |nodes| :: NodeInv(c, id, log, Specialists(c)[k], nodes[k])
  }

  /** The coordinator's envelopes concern no node. */
  lemma NodesKeepOnCoordinator(c: C.Config, id: string, log: seq<Envelope>, nodes: seq<Node>, e: Envelope)
    requires NodesInv(c, id, log, nodes) && e.sender == c.self
    ensures NodesInv(c, id, log + [e], nodes)
  {
    Appended(log, e);
    SpecialistsAre(c);
    forall k | 0 <= k < |nodes| ensures NodeInv(c, id, log + [e], Specialists(c)[k], nodes[k]) {
      assert Specialists(c)[k] in Specialists(c);
    }
  }

  lemma DeliverToInv(c: C.Config, id: string, log: seq<Envelope>, k: nat, n: Node, i: nat, a: W.Analysis)
    requires LogInv(c, id, log) && i < |log| && k < |Specialists(c)|
    requires NodeInv(c, id, log, Specialists(c)[k], n) && n.busy.Idle?
    ensures NodeInv(c, id, log, Specialists(c)[k], DeliverTo(c, k, n, log[i], a))
    ensures DeliverTo(c, k, n, log[i], a).settled == n.settled
  {
    assert Authentic(c, id, log[i]);
  }

  lemma SettleNodeInv(c: C.Config, id: string, log: seq<Envelope>, k: nat, n: Node, ok: bool)
    requires k < |Specialists(c)| && NodeInv(c, id, log, Specialists(c)[k], n) && !n.busy.Idle?
    ensures var p := Specialists(c)[k]; var e := Envelope(p, Submission(n.busy));
            NodeInv(c, id, if ok then log + [e] else log, p, SettleNode(c, k, n))
    ensures SettleNode(c, k, n).settled >= n.settled
  {
    var p := Specialists(c)[k];
    var e := Envelope(p, Submission(n.busy));
    Appended(log, e);
  }

  lemma VoteStandsAfterEvaluations(c: C.Config, id: string, log: seq<Envelope>, p: Id, n: Node)
    requires p in Specialists(c) && NodeInv(c, id, log, p, n) && n.w.voted
    ensures OthersEvaluated(c, log, p)
  {
    forall q | q in Specialists(c) && q != p ensures EvaluatedIn(log, q) {
      PeersAreTheOthers(c, p, q);
    }
  }

  lemma OtherNodesInv(c: C.Config, id: string, log: seq<Envelope>, nodes: seq<Node>, k: nat, e: Envelope)
    requires NoDuplicates(c.participants) && NodesInv(c, id, log, nodes) && k < |nodes|
    requires e.sender == Specialists(c)[k]
    ensures forall j | 0 <= j < |nodes| && j != k :: NodeInv(c, id, log + [e], Specialists(c)[j], nodes[j])
  {
    Appended(log, e);
    SpecialistsAre(c);
  }

  // ---- When every recipient has reported ----

  function SetOf(ids: seq<Id>): set<Id> {
    set p | p in ids
  }

  lemma {:induction false} DistinctSize(ids: seq<Id>)
    requires NoDuplicates(ids)
    ensures |SetOf(ids)| == |ids|
  {
    if ids != [] {
      var rest := ids[1..];
      assert forall i | 0 <= i < |rest| :: rest[i] == ids[i + 1];
      assert NoDuplicates(rest);
      DistinctSize(rest);
      assert SetOf(ids) == SetOf(rest) + {ids[0]};
      assert ids[0] !in rest;
    }
  }

  lemma SubsetOfFullSize<T>(a: set<T>, b: set<T>)
    requires a <= b && |a| >= |b|
    ensures a == b
  {
    assert b == a + (b - a);
    assert |b| == |a| + |b - a|;
    assert b - a == {};
  }

  /** As many distinct senders as recipients: every recipient has reported. */
  lemma FullMapIsEveryone(c: C.Config, signals: C.Signals)
    requires NoDuplicates(c.participants) && JsMap.Distinct(signals)
    requires forall p | p in JsMap.View(signals) :: p in Specialists(c)
    ensures |signals| <= |Specialists(c)|
    ensures |signals| >= |Specialists(c)| ==> JsMap.View(signals).Keys == SetOf(Specialists(c))
  {
    var keys, all := JsMap.View(signals).Keys, SetOf(Specialists(c));
    JsMap.ViewSize(signals);
    assert |keys| == |JsMap.View(signals)|;
    SpecialistsAre(c);
    DistinctSize(Specialists(c));
    assert keys <= all;
    assert |all - keys| == |all| - |keys| by { assert all == keys + (all - keys); }
    if |keys| >= |all| { SubsetOfFullSize(keys, all); }
  }

  lemma ReportedNodeSettled(c: C.Config, id: string, log: seq<Envelope>, nodes: seq<Node>, reported: set<Id>, k: nat)
    requires NodesInv(c, id, log, nodes) && k < |nodes| && reported == SetOf(Specialists(c))
    requires forall p | p in reported :: EvaluatedIn(log, p) || VotedIn(log, p)
    ensures nodes[k].settled >= 1
  {
    assert Specialists(c)[k] in reported;
    assert NodeInv(c, id, log, Specialists(c)[k], nodes[k]);
  }

  lemma ReportedMeansSettled(c: C.Config, id: string, s: Sys, signals: C.Signals)
    requires WellFormed(c, id) && NodesInv(c, id, s.log, s.nodes) && JsMap.Distinct(signals)
    requires forall p | p in JsMap.View(signals) ::
               p in Specialists(c) && (EvaluatedIn(s.log, p) || VotedIn(s.log, p))
    requires |signals| >= |Specialists(c)|
    ensures AllSettled(s)
  {
    FullMapIsEveryone(c, signals);
    var reported := JsMap.View(signals).Keys;
    forall k: nat | k < |s.nodes| {
      ReportedNodeSettled(c, id, s.log, s.nodes, reported, k);
    }
  }

  // ---- Every step keeps the invariant ----

  lemma InvToWorker(c: C.Config, id: string, s: Sys, e: Event)
    requires WellFormed(c, id) && Inv(c, id, s) && Enabled(s, e) && e.ToWorker?
    ensures Inv(c, id, Step(c, s, e))
  {
    DeliverToInv(c, id, s.log, e.k, s.nodes[e.k], e.i, e.analysis);
  }

  lemma InvWorkerSettles(c: C.Config, id: string, s: Sys, e: Event)
    requires WellFormed(c, id) && Inv(c, id, s) && Enabled(s, e) && e.WorkerSettles?
    ensures Inv(c, id, Step(c, s, e))
  {
    var s' := Step(c, s, e);
    var n, p := s.nodes[e.k], Specialists(c)[e.k];
    var sent := Envelope(p, Submission(n.busy));
    assert NodeInv(c, id, s.log, p, n);
    assert p in Specialists(c);
    SpecialistsAre(c);
    SettleNodeInv(c, id, s.log, e.k, n, e.ok);
    if e.ok {
      OtherNodesInv(c, id, s.log, s.nodes, e.k, sent);
      if n.busy.CastingVote? { VoteStandsAfterEvaluations(c, id, s.log, p, n); }
      LogAppended(c, id, s.log, sent);
      Appended(s.log, sent);
    }
    assert forall k | 0 <= k < |s.nodes| :: s'.nodes[k].settled >= s.nodes[k].settled;
  }

  lemma CommitInv(c: C.Config, id: string, s: Sys, before: C.State, after: C.State, forced: bool)
    requires WellFormed(c, id) && Inv(c, id, s)
    requires C.Inv(c, before) && C.Inv(c, after) && after.signals == before.signals
    requires forall p | p in JsMap.View(before.signals) ::
               p in Specialists(c) && (EvaluatedIn(s.log, p) || VotedIn(s.log, p))
    requires before.committed == s.coord.committed && (before.committed ==> after.committed)
    requires forced <==> s.forced || ForcesEarly(c, before, after)
    ensures Inv(c, id, s.(coord := after, forced := forced))
  {
    if !before.committed && after.committed && !forced {
      ReportedMeansSettled(c, id, s, before.signals);
    }
  }

  lemma InvToCoordinator(c: C.Config, id: string, s: Sys, e: Event)
    requires WellFormed(c, id) && Inv(c, id, s) && Enabled(s, e) && e.ToCoordinator?
    ensures Inv(c, id, Step(c, s, e))
  {
    var m := s.log[e.i];
    assert Authentic(c, id, m);
    var signal := C.SignalOf(c, m);
    C.DeliverIs(c, s.coord, m);
    C.StepInv(c, s.coord, C.Message(m));
    if signal.Some? {
      var recorded := C.Recorded(s.coord, m.sender, signal.value);
      JsMap.PutView(s.coord.signals, m.sender, signal.value);
      C.PutSignal(c, s.coord, m.sender, signal.value);
      CommitInv(c, id, s, recorded, C.TryCommit(c, recorded, false), s.forced);
    }
  }

  lemma InvDeadline(c: C.Config, id: string, s: Sys, e: Event)
    requires WellFormed(c, id) && Inv(c, id, s) && Enabled(s, e) && e.DeadlineFires?
    ensures Inv(c, id, Step(c, s, e))
  {
    C.StepInv(c, s.coord, C.Event.DeadlineFires(e.timer));
    var after := C.Deadline(c, s.coord, e.timer);
    CommitInv(c, id, s, s.coord, after, s.forced || ForcesEarly(c, s.coord, after));
  }

  lemma InvCoordinatorSettles(c: C.Config, id: string, s: Sys, e: Event)
    requires WellFormed(c, id) && Inv(c, id, s) && Enabled(s, e) && e.CoordinatorSettles?
    ensures Inv(c, id, Step(c, s, e))
  {
    var s' := Step(c, s, e);
    C.SettleInv(c, s.coord, e.ok);
    SpecialistsAre(c);
    var sent := CoordinatorSubmission(c, s.coord);
    if e.ok && sent != [] {
      assert sent == [sent[0]];
      Appended(s.log, sent[0]);
      LogAppended(c, id, s.log, sent[0]);
      NodesKeepOnCoordinator(c, id, s.log, s.nodes, sent[0]);
    } else {
      assert s.log + [] == s.log;
      assert s'.log == s.log;
    }
  }

  lemma InvStep(c: C.Config, id: string, s: Sys, e: Event)
    requires WellFormed(c, id) && Inv(c, id, s) && Enabled(s, e)
    ensures Inv(c, id, Step(c, s, e))
  {
    match e
    case ToWorker(_, _, _) => InvToWorker(c, id, s, e);
    case WorkerSettles(_, _) => InvWorkerSettles(c, id, s, e);
    case ToCoordinator(_) => InvToCoordinator(c, id, s, e);
    case DeadlineFires(_) => InvDeadline(c, id, s, e);
    case CoordinatorSettles(_) => InvCoordinatorSettles(c, id, s, e);
  }

  lemma {:induction false} InvRun(c: C.Config, id: string, es: seq<Event>)
    requires WellFormed(c, id) && Run(c, id, es).Some?
    ensures Inv(c, id, Run(c, id, es).value)
  {
    if es == [] {
      SpecialistsAre(c);
    } else {
      InvRun(c, id, es[..|es| - 1]);
      InvStep(c, id, Run(c, id, es[..|es| - 1]).value, es[|es| - 1]);
    }
  }

  /** What the deadline forces is a commit. */
  lemma {:induction false} ForcedMeansCommitted(c: C.Config, id: string, es: seq<Event>)
    requires WellFormed(c, id) && Run(c, id, es).Some?
    ensures var s := Run(c, id, es).value; s.forced ==> s.coord.committed
  {
    if es != [] {
      var before, e := es[..|es| - 1], es[|es| - 1];
      ForcedMeansCommitted(c, id, before);
      InvRun(c, id, before);
      CommitStays(c, id, Run(c, id, before).value, e);
    }
  }

  lemma CommitStays(c: C.Config, id: string, s: Sys, e: Event)
    requires WellFormed(c, id) && Inv(c, id, s) && Enabled(s, e)
    ensures s.coord.committed ==> Step(c, s, e).coord.committed
  {
    match e
    case ToCoordinator(i) => C.StepKeeps(c, s.coord, C.Message(s.log[i]));
    case DeadlineFires(t) => C.StepKeeps(c, s.coord, C.Event.DeadlineFires(t));
    case CoordinatorSettles(ok) => C.SettleKeeps(c, s.coord, ok);
    case _ =>
  }

  /** The Maps of a commit that was not forced hold every specialist. */
  ghost predicate FullUnlessForced(c: C.Config, s: Sys) {
    s.coord.committed && !s.forced ==>
      |s.coord.signals| >= |Specialists(c)| &&
      (s.coord.decided.Some? ==> |s.coord.decided.value| >= |Specialists(c)|)
  }

  lemma DeliverKeepsFull(c: C.Config, s: C.State, e: Envelope)
    requires C.Inv(c, s) && C.GrowsWith(c.strategy)
    ensures var s' := C.Deliver(c, s, e);
      && |s'.signals| >= |s.signals|
      && (s.committed ==> s'.committed && s'.decided == s.decided)
      && (!s.committed && s'.committed ==> |s'.signals| >= |Specialists(c)|)
      && (!s.committed && s'.decided.Some? ==> s'.decided.value == s'.signals)
  {
    C.DeliverIs(c, s, e);
    var signal := C.SignalOf(c, e);
    if signal.Some? { JsMap.PutDistinct(s.signals, e.sender, signal.value); }
  }

  lemma StepKeepsFull(c: C.Config, id: string, s: Sys, e: Event)
    requires WellFormed(c, id) && Inv(c, id, s) && Enabled(s, e) && FullUnlessForced(c, s)
    ensures FullUnlessForced(c, Step(c, s, e))
  {
    match e
    case ToCoordinator(i) => DeliverKeepsFull(c, s.coord, s.log[i]);
    case _ =>
  }

  lemma {:induction false} RunKeepsFull(c: C.Config, id: string, es: seq<Event>)
    requires WellFormed(c, id) && Run(c, id, es).Some?
    ensures FullUnlessForced(c, Run(c, id, es).value)
  {
    if es != [] {
      var before := es[..|es| - 1];
      RunKeepsFull(c, id, before);
      InvRun(c, id, before);
      StepKeepsFull(c, id, Run(c, id, before).value, es[|es| - 1]);
    }
  }

  /** What the session's log has from the coordinator is its decision. */
  ghost predicate SelfSpeaks(c: C.Config, s: Sys) {
    forall i | 0 <= i < |s.log| && s.log[i].sender == c.self && (s.log[i].msg.VoteMsg? || s.log[i].msg.Commitment?) ::
      s.coord.decided.Some? && SaysDecision(c, s.coord, s.log[i].msg)
  }

  ghost predicate SaysDecision(c: C.Config, s: C.State, m: Message)
    requires s.decided.Some?
  {
    var d := c.strategy.decide(JsMap.Values(s.decided.value));
    && (m.VoteMsg? ==> m == VoteMsg(s.proposalId, Some(if d.approveVote then "APPROVE" else "REJECT")))
    && (m.Commitment? ==> m == Commitment(d.action, d.action != Decline))
  }

  /** No step takes back a decision or the proposal it is about. */
  lemma DecisionStays(c: C.Config, id: string, s: Sys, e: Event)
    requires WellFormed(c, id) && Inv(c, id, s) && Enabled(s, e) && C.TimerInv(s.coord)
    ensures var s' := Step(c, s, e); C.TimerInv(s'.coord)
    ensures var s' := Step(c, s, e);
      s.coord.decided.Some? ==> s'.coord.decided == s.coord.decided && s'.coord.proposalId == s.coord.proposalId
  {
    match e
    case ToCoordinator(i) =>
      C.StepTimers(c, s.coord, C.Message(s.log[i]));
      C.StepKeeps(c, s.coord, C.Message(s.log[i]));
    case DeadlineFires(t) =>
      C.StepTimers(c, s.coord, C.Event.DeadlineFires(t));
      C.StepKeeps(c, s.coord, C.Event.DeadlineFires(t));
    case CoordinatorSettles(ok) =>
      C.StepTimers(c, s.coord, C.CallSettles(ok));
      C.SettleKeeps(c, s.coord, ok);
    case _ =>
  }

  lemma SubmissionSaysDecision(c: C.Config, s: C.State)
    requires C.Inv(c, s)
    ensures var sent := CoordinatorSubmission(c, s);
      |sent| <= 1 && (sent != [] ==> s.decided.Some? && sent[0].sender == c.self && SaysDecision(c, s, sent[0].msg))
  {
  }

  lemma SpeechAppended(c: C.Config, s: Sys, s': Sys, sent: seq<Envelope>)
    requires SelfSpeaks(c, s) && s'.log == s.log + sent && |sent| <= 1
    requires s.coord.decided.Some? ==>
      s'.coord.decided == s.coord.decided && s'.coord.proposalId == s.coord.proposalId
    requires sent != [] && sent[0].sender == c.self ==> s.coord.decided.Some? && SaysDecision(c, s.coord, sent[0].msg)
    ensures SelfSpeaks(c, s')
  {
    forall i | 0 <= i < |s'.log| && s'.log[i].sender == c.self && (s'.log[i].msg.VoteMsg? || s'.log[i].msg.Commitment?)
      ensures s'.coord.decided.Some? && SaysDecision(c, s'.coord, s'.log[i].msg)
    {
      if i < |s.log| { assert s'.log[i] == s.log[i]; } else { assert s'.log[i] == sent[0]; }
    }
  }

  lemma StepSpeaks(c: C.Config, id: string, s: Sys, e: Event)
    requires WellFormed(c, id) && Inv(c, id, s) && Enabled(s, e) && C.TimerInv(s.coord) && SelfSpeaks(c, s)
    ensures SelfSpeaks(c, Step(c, s, e))
  {
    var s' := Step(c, s, e);
    DecisionStays(c, id, s, e);
    var sent: seq<Envelope> := [];
    if e.WorkerSettles? && e.ok {
      SpecialistsAre(c);
      assert Specialists(c)[e.k] in Specialists(c);
      sent := [Envelope(Specialists(c)[e.k], Submission(s.nodes[e.k].busy))];
    } else if e.CoordinatorSettles? && e.ok {
      SubmissionSaysDecision(c, s.coord);
      sent := CoordinatorSubmission(c, s.coord);
    }
    assert s'.log == s.log + sent;
    SpeechAppended(c, s, s', sent);
  }

  /** In every run, whatever the coordinator's Vote and Commitment in the log say is its one
      decision on the Map it decided on, for the proposal it follows. */
  lemma {:induction false} LogSaysDecision(c: C.Config, id: string, es: seq<Event>)
    requires WellFormed(c, id) && Run(c, id, es).Some?
    ensures SelfSpeaks(c, Run(c, id, es).value) && C.TimerInv(Run(c, id, es).value.coord)
  {
    if es != [] {
      var before, e := es[..|es| - 1], es[|es| - 1];
      LogSaysDecision(c, id, before);
      InvRun(c, id, before);
      DecisionStays(c, id, Run(c, id, before).value, e);
      StepSpeaks(c, id, Run(c, id, before).value, e);
    }
  }

  // ---- Main results ----

  /** Barrier safety, for any number of specialists and any run: a specialist that has
      voted has its own Evaluation answered, and every other specialist's Evaluation was
      accepted before; in the log, no specialist's Vote precedes another's Evaluation. */
  lemma BarrierSafety(c: C.Config, id: string, es: seq<Event>, k: nat)
    requires WellFormed(c, id) && Run(c, id, es).Some? && k < |Specialists(c)|
    ensures var s := Run(c, id, es).value;
            s.nodes[k].w.voted ==> s.nodes[k].settled >= 1 && OthersEvaluated(c, s.log, Specialists(c)[k])
    ensures var s := Run(c, id, es).value;
            forall i | 0 <= i < |s.log| && s.log[i].msg.VoteMsg? && s.log[i].sender in Specialists(c) ::
              OthersEvaluated(c, s.log[..i], s.log[i].sender)
  {
    InvRun(c, id, es);
    SpecialistsAre(c);
    var s := Run(c, id, es).value;
    assert NodeInv(c, id, s.log, Specialists(c)[k], s.nodes[k]);
    if s.nodes[k].w.voted {
      assert Specialists(c)[k] in Specialists(c);
      VoteStandsAfterEvaluations(c, id, s.log, Specialists(c)[k], s.nodes[k]);
    }
  }

  /** Once any Vote is accepted, the coordinator's included, every specialist's Evaluation
      has been answered, unless the deadline forced the commit. So an Evaluation that the
      phase rule can still refuse is a second one: that worker was given the Proposal twice. */
  lemma EvaluationsPrecedeVoting(c: C.Config, id: string, es: seq<Event>)
    requires WellFormed(c, id) && Run(c, id, es).Some?
    requires VotingOpen(Run(c, id, es).value.log) && !Run(c, id, es).value.forced
    ensures var s := Run(c, id, es).value;
            forall k | 0 <= k < |s.nodes| ::
              s.nodes[k].settled >= 1 && (s.nodes[k].busy.Evaluating? ==> s.nodes[k].started >= 2)
  {
    InvRun(c, id, es);
    SpecialistsAre(c);
    var s := Run(c, id, es).value;
    OpenMeansSettled(c, id, s);
    assert forall k | 0 <= k < |s.nodes| :: NodeInv(c, id, s.log, Specialists(c)[k], s.nodes[k]);
  }

  lemma OpenMeansSettled(c: C.Config, id: string, s: Sys)
    requires WellFormed(c, id) && Inv(c, id, s) && VotingOpen(s.log) && !s.forced
    ensures AllSettled(s)
  {
    SpecialistsAre(c);
    var i :| 0 <= i < |s.log| && s.log[i].msg.VoteMsg?;
    var p := s.log[i].sender;
    assert VotedIn(s.log, p);
    assert Authentic(c, id, s.log[i]);
    if p != c.self {
      forall k | 0 <= k < |s.nodes| ensures s.nodes[k].settled >= 1 {
        var q := Specialists(c)[k];
        assert NodeInv(c, id, s.log, q, s.nodes[k]);
        if q != p {
          assert EvaluatedIn(s.log[..i], q);
          EvaluatedPrefix(s.log, i, q);
        }
      }
    }
  }

  lemma EvaluatedPrefix(log: seq<Envelope>, i: nat, q: Id)
    requires i <= |log| && EvaluatedIn(log[..i], q)
    ensures EvaluatedIn(log, q)
  {
    var j :| 0 <= j < |log[..i]| && log[..i][j].sender == q && log[..i][j].msg.EvaluationMsg?;
    assert log[j] == log[..i][j];
  }
}
