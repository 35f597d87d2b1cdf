/** The risk coordinator (src/example-agents/runtime/risk-decider.worker.ts): it records one
    signal per sender, and commits once when every recipient has reported or the deadline
    forces it. Each SDK call it awaits is a phase, so that handlers can run in between. */
module Coordinator {
  import opened Wrappers
  import opened Messages
  import opened Policy
  import JsMap

  type Signals = seq<(Id, Signal)>

  datatype Config = Config(
    self: Id, participants: seq<Id>, strategy: PolicyStrategy, hasSession: bool, suspendDemo: bool)

  function Recipients(c: Config): seq<Id> {
    Others(c.participants, c.self)
  }

  /** The SDK calls the coordinator makes, in order. */
  datatype Call =
    | SuspendCall
    | ResumeCall
    | VoteCall(approve: bool)
    | CommitCall(action: Action, outcomePositive: bool)
    | CancelCall

  /** Where `tryCommit` is suspended: which call it is awaiting. */
  datatype Phase =
    | Waiting
    | Suspending
    | Holding
    | Resuming
    | Voting(decision: Decision)
    | Committing(decision: Decision)
    | Cancelling
    | Finished

  /** The worker's variables, its pending timers, and two records of its history:
      the calls made and the signals given to `decide`. */
  datatype State = State(
    signals: Signals,
    proposalId: Option<string>,
    committed: bool,
    hasContext: bool,
    timers: set<nat>,
    waitTimer: Option<nat>,
    nextTimer: nat,
    phase: Phase,
    calls: seq<Call>,
    decided: Option<Signals>)

  const INITIAL := State([], None, false, false, {}, None, 0, Waiting, [], None)

  // ---- Handlers ----

  function OnProposal(s: State, proposalId: Option<string>): State {
    if Truthy(s.proposalId) then s
    else s.(proposalId := proposalId, timers := s.timers + {s.nextTimer},
            waitTimer := Some(s.nextTimer), nextTimer := s.nextTimer + 1)
  }

  function SendVote(c: Config, s: State): State {
    var d := c.strategy.decide(JsMap.Values(s.signals));
    s.(phase := Voting(d), calls := s.calls + [VoteCall(d.approveVote)], decided := Some(s.signals))
  }

  predicate MayCommit(c: Config, s: State, force: bool) {
    && !s.committed && Truthy(s.proposalId)
    && (force || |s.signals| >= |Recipients(c)|)
    && c.strategy.isQuorumMet(|s.signals|, |Recipients(c)|)
  }

  function TryCommit(c: Config, s: State, force: bool): State {
    if !MayCommit(c, s, force) then s
    else
      var cleared := if s.waitTimer.Some? then s.timers - {s.waitTimer.value} else s.timers;
      var s1 := s.(timers := cleared, waitTimer := None, committed := true);
      if c.suspendDemo && c.hasSession then s1.(phase := Suspending, calls := s1.calls + [SuspendCall])
      else SendVote(c, s1)
  }

  function Recorded(s: State, sender: Id, signal: Signal): State {
    s.(signals := JsMap.Put(s.signals, sender, signal), hasContext := true)
  }

  function Record(c: Config, s: State, sender: Id, proposalId: Option<string>, signal: Signal): State {
    if !Truthy(proposalId) || sender == c.self then s
    else TryCommit(c, Recorded(s, sender, signal), false)
  }

  function EvaluationSignal(recommendation: Option<string>, confidence: Option<Number>): Signal {
    Evaluation(Some(recommendation.GetOr("")), Some(confidence.GetOr(Real(0.0))))
  }

  /** A Vote is recorded as an evaluation; an ABSTAIN becomes REVIEW. */
  function VoteSignal(vote: Option<string>): Signal {
    var value := ToUpper(vote.GetOr(""));
    Evaluation(
      Some(if value == "APPROVE" then "APPROVE" else if value == "ABSTAIN" then "REVIEW" else "BLOCK"),
      Some(Real(1.0)))
  }

  function ObjectionSignal(severity: Option<string>): Signal {
    Objection(Some(severity.GetOr("high")))
  }

  /** The signal an envelope's message amounts to, if the coordinator records it. */
  function SignalOf(c: Config, e: Envelope): Option<Signal> {
    match e.msg
    case EvaluationMsg(pid, rec, conf) =>
      if Truthy(pid) && e.sender != c.self then Some(EvaluationSignal(rec, conf)) else None
    case VoteMsg(pid, vote) =>
      if Truthy(pid) && e.sender != c.self then Some(VoteSignal(vote)) else None
    case ObjectionMsg(pid, severity) =>
      if Truthy(pid) && e.sender != c.self then Some(ObjectionSignal(severity)) else None
    case _ => None
  }

  function Deliver(c: Config, s: State, e: Envelope): State {
    match e.msg
    case Proposal(pid) => OnProposal(s, pid)
    case EvaluationMsg(pid, rec, conf) => Record(c, s, e.sender, pid, EvaluationSignal(rec, conf))
    case VoteMsg(pid, vote) => Record(c, s, e.sender, pid, VoteSignal(vote))
    case ObjectionMsg(pid, severity) => Record(c, s, e.sender, pid, ObjectionSignal(severity))
    case Commitment(_, _) => s
  }

  lemma DeliverIs(c: Config, s: State, e: Envelope)
    ensures SignalOf(c, e).Some? ==>
              Deliver(c, s, e) == TryCommit(c, Recorded(s, e.sender, SignalOf(c, e).value), false)
    ensures SignalOf(c, e).None? && !e.msg.Proposal? ==> Deliver(c, s, e) == s
  {
  }

  /** A deadline timer fires; it is then no longer pending. */
  function Deadline(c: Config, s: State, timer: nat): State {
    var s1 := s.(timers := s.timers - {timer});
    if !s1.committed && s1.hasContext then TryCommit(c, s1, true) else s1
  }

  predicate Awaiting(s: State) {
    !s.phase.Waiting? && !s.phase.Finished?
  }

  /** The awaited call (or the hold) completes, or fails. */
  function Settle(c: Config, s: State, ok: bool): State
    requires Awaiting(s)
  {
    match s.phase
    case Suspending => if ok then s.(phase := Holding) else SendVote(c, s)
    case Holding => s.(phase := Resuming, calls := s.calls + [ResumeCall])
    case Resuming => SendVote(c, s)
    case Voting(d) =>
      s.(phase := Committing(d), calls := s.calls + [CommitCall(d.action, d.action != Decline)])
    case Committing(_) =>
      if ok || !c.hasSession then s.(phase := Finished)
      else s.(phase := Cancelling, calls := s.calls + [CancelCall])
    case _ => s.(phase := Finished)
  }

  // ---- Runs ----

  datatype Event = Message(envelope: Envelope) | DeadlineFires(timer: nat) | CallSettles(ok: bool)

  predicate Enabled(s: State, e: Event) {
    match e
    case Message(_) => true
    case DeadlineFires(t) => t in s.timers
    case CallSettles(_) => Awaiting(s)
  }

  function Step(c: Config, s: State, e: Event): State
    requires Enabled(s, e)
  {
    match e
    case Message(m) => Deliver(c, s, m)
    case DeadlineFires(t) => Deadline(c, s, t)
    case CallSettles(ok) => Settle(c, s, ok)
  }

  /** The state after a run, if every event of it was enabled. */
  function Run(c: Config, es: seq<Event>): Option<State> {
    if es == [] then Some(INITIAL)
    else
      var before := Run(c, es[..|es| - 1]);
      if before.Some? && Enabled(before.value, es[|es| - 1])
      then Some(Step(c, before.value, es[|es| - 1])) else None
  }

  // ---- What every step keeps ----

  /** How far a list of calls has come in the one order the coordinator may make them:
      an optional suspend (and resume), one vote, one commit, an optional cancel. */
  datatype Progress = NoCall | Suspended | Resumed | Voted | CommitTried | Cancelled | OutOfOrder

  function Advance(p: Progress, k: Call): Progress {
    match k
    case SuspendCall => if p.NoCall? then Suspended else OutOfOrder
    case ResumeCall => if p.Suspended? then Resumed else OutOfOrder
    case VoteCall(_) => if p.NoCall? || p.Suspended? || p.Resumed? then Voted else OutOfOrder
    case CommitCall(_, _) => if p.Voted? then CommitTried else OutOfOrder
    case CancelCall => if p.CommitTried? then Cancelled else OutOfOrder
  }

  function ProgressOf(calls: seq<Call>): Progress {
    if calls == [] then NoCall else Advance(ProgressOf(calls[..|calls| - 1]), calls[|calls| - 1])
  }

  lemma ProgressAppend(calls: seq<Call>, k: Call)
    ensures ProgressOf(calls + [k]) == Advance(ProgressOf(calls), k)
  {
    assert (calls + [k])[..|calls|] == calls;
  }

  predicate PhaseMatches(phase: Phase, p: Progress) {
    match phase
    case Waiting => p.NoCall?
    case Suspending => p.Suspended?
    case Holding => p.Suspended?
    case Resuming => p.Resumed?
    case Voting(_) => p.Voted?
    case Committing(_) => p.CommitTried?
    case Cancelling => p.Cancelled?
    case Finished => p.CommitTried? || p.Cancelled?
  }

  predicate BeforeVote(phase: Phase) {
    phase.Waiting? || phase.Suspending? || phase.Holding? || phase.Resuming?
  }

  ghost predicate QuorumHolds(c: Config, m: Signals) {
    m != [] && JsMap.Distinct(m) && c.strategy.isQuorumMet(|m|, |Recipients(c)|)
  }

  /** A call says what the decision says. */
  predicate Says(k: Call, d: Decision) {
    match k
    case VoteCall(approve) => approve == d.approveVote
    case CommitCall(action, positive) => action == d.action && positive == (d.action != Decline)
    case _ => true
  }

  ghost predicate DecisionStands(c: Config, s: State)
    requires s.decided.Some?
  {
    var d := c.strategy.decide(JsMap.Values(s.decided.value));
    && QuorumHolds(c, s.decided.value)
    && (forall i | 0 <= i < |s.calls| :: Says(s.calls[i], d))
    && (s.phase.Voting? || s.phase.Committing? ==> s.phase.decision == d)
  }

  ghost predicate Inv(c: Config, s: State) {
    && JsMap.Distinct(s.signals)
    && (s.hasContext ==> s.signals != [])
    && (s.committed <==> !s.phase.Waiting?)
    && (s.committed ==> QuorumHolds(c, s.signals) && Truthy(s.proposalId))
    && PhaseMatches(s.phase, ProgressOf(s.calls))
    && (s.decided.None? <==> BeforeVote(s.phase))
    && (s.decided.None? ==> forall i | 0 <= i < |s.calls| :: s.calls[i].SuspendCall? || s.calls[i].ResumeCall?)
    && (s.decided.Some? ==> DecisionStands(c, s))
  }

  lemma SendVoteInv(c: Config, s: State)
    requires s.committed && QuorumHolds(c, s.signals) && Truthy(s.proposalId)
    requires ProgressOf(s.calls).NoCall? || ProgressOf(s.calls).Suspended? || ProgressOf(s.calls).Resumed?
    requires forall i | 0 <= i < |s.calls| :: s.calls[i].SuspendCall? || s.calls[i].ResumeCall?
    ensures Inv(c, SendVote(c, s))
  {
    var d := c.strategy.decide(JsMap.Values(s.signals));
    ProgressAppend(s.calls, VoteCall(d.approveVote));
  }

  lemma SuspendInv(c: Config, s: State)
    requires s.committed && QuorumHolds(c, s.signals) && Truthy(s.proposalId)
    requires s.calls == [] && s.decided.None?
    ensures Inv(c, s.(phase := Suspending, calls := s.calls + [SuspendCall]))
  {
    ProgressAppend(s.calls, SuspendCall);
  }

  lemma {:induction false} NoProgress(calls: seq<Call>)
    requires ProgressOf(calls).NoCall?
    ensures calls == []
  {
  }

  lemma {:induction false} TryCommitInv(c: Config, s: State, force: bool)
    requires Inv(c, s) && s.signals != []
    ensures Inv(c, TryCommit(c, s, force))
  {
    if MayCommit(c, s, force) {
      NoProgress(s.calls);
      var cleared := if s.waitTimer.Some? then s.timers - {s.waitTimer.value} else s.timers;
      var s1 := s.(timers := cleared, waitTimer := None, committed := true);
      assert QuorumHolds(c, s1.signals);
      if c.suspendDemo && c.hasSession { SuspendInv(c, s1); } else { SendVoteInv(c, s1); }
    }
  }

  /** Recording a signal keeps the invariant: the quorum of a committed Map is checked
      against its size, which its keys can only raise when the sender is new. */
  lemma PutSignal(c: Config, s: State, sender: Id, signal: Signal)
    requires Inv(c, s)
    requires GrowsWith(c.strategy)
    ensures Inv(c, Recorded(s, sender, signal)) && Recorded(s, sender, signal).signals != []
  {
    JsMap.PutDistinct(s.signals, sender, signal);
  }

  /** A quorum stays met when more signals arrive. */
  ghost predicate GrowsWith(p: PolicyStrategy) {
    forall size: nat, total: nat :: p.isQuorumMet(size, total) ==> p.isQuorumMet(size + 1, total)
  }

  lemma ContinueInv(c: Config, s: State, k: Call, phase: Phase)
    requires Inv(c, s) && !phase.Waiting? && s.committed
    requires PhaseMatches(phase, Advance(ProgressOf(s.calls), k))
    requires s.decided.None? ==> BeforeVote(phase) && k.ResumeCall?
    requires s.decided.Some? ==>
               var d := c.strategy.decide(JsMap.Values(s.decided.value));
               !BeforeVote(phase) && Says(k, d) && (phase.Voting? || phase.Committing? ==> phase.decision == d)
    ensures Inv(c, s.(phase := phase, calls := s.calls + [k]))
  {
    ProgressAppend(s.calls, k);
  }

  lemma SettleInv(c: Config, s: State, ok: bool)
    requires Inv(c, s) && Awaiting(s)
    ensures Inv(c, Settle(c, s, ok))
  {
    match s.phase
    case Suspending => if !ok { SendVoteInv(c, s); }
    case Holding => ContinueInv(c, s, ResumeCall, Resuming);
    case Resuming => SendVoteInv(c, s);
    case Voting(d) => ContinueInv(c, s, CommitCall(d.action, d.action != Decline), Committing(d));
    case Committing(_) => if !ok && c.hasSession { ContinueInv(c, s, CancelCall, Cancelling); }
    case Cancelling =>
  }

  lemma StepInv(c: Config, s: State, e: Event)
    requires Inv(c, s) && Enabled(s, e) && GrowsWith(c.strategy)
    ensures Inv(c, Step(c, s, e))
  {
    match e
    case Message(m) =>
      var signal := SignalOf(c, m);
      if signal.Some? {
        PutSignal(c, s, m.sender, signal.value);
        TryCommitInv(c, Recorded(s, m.sender, signal.value), false);
      }
      DeliverIs(c, s, m);
    case DeadlineFires(t) =>
      var s1 := s.(timers := s.timers - {t});
      assert Inv(c, s1);
      if !s1.committed && s1.hasContext { TryCommitInv(c, s1, true); }
    case CallSettles(ok) => SettleInv(c, s, ok);
  }

  lemma {:induction false} RunInv(c: Config, es: seq<Event>)
    requires Run(c, es).Some? && GrowsWith(c.strategy)
    ensures Inv(c, Run(c, es).value)
  {
    if es != [] {
      RunInv(c, es[..|es| - 1]);
      StepInv(c, Run(c, es[..|es| - 1]).value, es[|es| - 1]);
    }
  }

  // ---- Which messages count ----

  predicate CarriesSignal(m: Message) {
    m.EvaluationMsg? || m.VoteMsg? || m.ObjectionMsg?
  }

  /** The coordinator's own messages, and those without a proposal id, change nothing. */
  lemma IgnoresForeign(c: Config, s: State, e: Envelope)
    requires CarriesSignal(e.msg) && (e.sender == c.self || e.msg.proposalId in {None, Some("")})
    ensures Deliver(c, s, e) == s
  {
  }

  /** Any other takes its sender's slot in the Map, and no other slot. */
  lemma RecordsSender(c: Config, s: State, e: Envelope)
    requires CarriesSignal(e.msg) && e.sender != c.self && e.msg.proposalId !in {None, Some("")}
    ensures var signal :=
        match e.msg
        case EvaluationMsg(_, rec, conf) => EvaluationSignal(rec, conf)
        case VoteMsg(_, vote) => VoteSignal(vote)
        case ObjectionMsg(_, severity) => ObjectionSignal(severity);
      JsMap.View(Deliver(c, s, e).signals) == JsMap.View(s.signals)[e.sender := signal]
  {
    DeliverIs(c, s, e);
    JsMap.PutView(s.signals, e.sender, SignalOf(c, e).value);
  }

  // ---- The proposal and its deadline ----

  /** Until the commit the last armed timer is the one to clear; after it, that timer is gone. */
  ghost predicate TimerInv(s: State) {
    && (forall t | t in s.timers :: t < s.nextTimer)
    && (s.committed ==> Truthy(s.proposalId) && s.waitTimer.None? && s.nextTimer - 1 !in s.timers)
    && (!s.committed ==> s.waitTimer == if s.nextTimer == 0 then None else Some(s.nextTimer - 1))
  }

  lemma StepTimers(c: Config, s: State, e: Event)
    requires TimerInv(s) && Enabled(s, e)
    ensures TimerInv(Step(c, s, e))
    ensures Truthy(s.proposalId) ==> Step(c, s, e).proposalId == s.proposalId
  {
    match e
    case Message(m) => DeliverIs(c, s, m);
    case DeadlineFires(_) =>
    case CallSettles(_) =>
  }

  /** A commit clears the deadline, and the first proposal id is kept for good. */
  lemma {:induction false} CommitClearsDeadline(c: Config, es: seq<Event>)
    requires Run(c, es).Some?
    ensures TimerInv(Run(c, es).value)
  {
    if es != [] {
      CommitClearsDeadline(c, es[..|es| - 1]);
      StepTimers(c, Run(c, es[..|es| - 1]).value, es[|es| - 1]);
    }
  }

  /** The hold follows a suspend that succeeded, and only that; a failed one goes straight to
      the decision, and so does the resume, failed or not. */
  lemma SuspendSteps(c: Config, s: State, ok: bool)
    requires Awaiting(s)
    ensures Settle(c, s, ok).phase == Holding <==> s.phase == Suspending && ok
    ensures Settle(c, s, ok).phase == Resuming <==> s.phase == Holding
    ensures Settle(c, s, ok).phase.Voting? <==> s.phase == Resuming || (s.phase == Suspending && !ok)
    ensures Settle(c, s, ok).phase.Voting? ==> Settle(c, s, ok).decided == Some(s.signals)
  {
  }

  // ---- Main results ----

  /** How many calls of each kind: suspends, votes, commits, cancels. */
  function Tally(calls: seq<Call>): (nat, nat, nat, nat) {
    if calls == [] then (0, 0, 0, 0)
    else
      var (s, v, m, x) := Tally(calls[..|calls| - 1]);
      match calls[|calls| - 1]
      case SuspendCall => (s + 1, v, m, x)
      case ResumeCall => (s, v, m, x)
      case VoteCall(_) => (s, v + 1, m, x)
      case CommitCall(_, _) => (s, v, m + 1, x)
      case CancelCall => (s, v, m, x + 1)
  }

  lemma {:induction false} TallyByProgress(calls: seq<Call>)
    requires !ProgressOf(calls).OutOfOrder?
    ensures var p := ProgressOf(calls); var (s, v, m, x) := Tally(calls);
            && s <= 1 && (p.NoCall? ==> s == 0)
            && v == (if p.Voted? || p.CommitTried? || p.Cancelled? then 1 else 0)
            && m == (if p.CommitTried? || p.Cancelled? then 1 else 0)
            && x == (if p.Cancelled? then 1 else 0)
  {
    if calls != [] {
      TallyByProgress(calls[..|calls| - 1]);
    }
  }

  /** In every run, whatever handlers, deadlines and call completions interleave, the
      coordinator suspends, votes, commits and cancels at most once each; it commits only
      after voting, and cancels only after trying to commit. */
  lemma CommitsAtMostOnce(c: Config, es: seq<Event>)
    requires Run(c, es).Some? && GrowsWith(c.strategy)
    ensures var s := Run(c, es).value; var (suspends, votes, commits, cancels) := Tally(s.calls);
            && suspends <= 1 && cancels <= commits <= votes <= 1
            && !ProgressOf(s.calls).OutOfOrder?
            && (s.committed <==> s.calls != [])
  {
    RunInv(c, es);
    var s := Run(c, es).value;
    TallyByProgress(s.calls);
  }

  /** When `decide` runs, the Map it reads is non-empty and still meets the quorum (also
      after the suspend demo's hold), and what is voted and committed is its decision. */
  lemma DecidesWithQuorum(c: Config, es: seq<Event>)
    requires Run(c, es).Some? && Run(c, es).value.decided.Some? && GrowsWith(c.strategy)
    ensures var s := Run(c, es).value; var m := s.decided.value;
            && QuorumHolds(c, m)
            && forall i | 0 <= i < |s.calls| :: Says(s.calls[i], c.strategy.decide(JsMap.Values(m)))
  {
    RunInv(c, es);
  }

  ghost predicate Keeps(s: State, s': State) {
    && JsMap.View(s.signals).Keys <= JsMap.View(s'.signals).Keys
    && (s.committed ==> s'.committed)
    && (s.decided.Some? ==> s'.decided == s.decided)
    && s.calls <= s'.calls
  }

  lemma TryCommitKeeps(c: Config, s: State, force: bool)
    requires Inv(c, s)
    ensures Keeps(s, TryCommit(c, s, force))
    ensures CancelCall !in TryCommit(c, s, force).calls[|s.calls|..]
  {
  }

  lemma SettleKeeps(c: Config, s: State, ok: bool)
    requires Inv(c, s) && Awaiting(s)
    ensures Keeps(s, Settle(c, s, ok))
    ensures CancelCall in Settle(c, s, ok).calls[|s.calls|..] <==> s.phase.Committing? && !ok && c.hasSession
  {
    match s.phase
    case Suspending =>
    case Holding =>
    case Resuming =>
    case Voting(_) =>
    case Committing(_) =>
      if !ok && c.hasSession { assert Settle(c, s, ok).calls[|s.calls|] == CancelCall; }
    case Cancelling =>
  }

  /** Recorded senders are never forgotten, a decided Map never changes, calls are only
      added, and a cancel is sent only in answer to a commit that the runtime refused. */
  lemma StepKeeps(c: Config, s: State, e: Event)
    requires Inv(c, s) && Enabled(s, e) && GrowsWith(c.strategy)
    ensures Keeps(s, Step(c, s, e))
    ensures CancelCall in Step(c, s, e).calls[|s.calls|..] <==>
              s.phase.Committing? && e == CallSettles(false) && c.hasSession
  {
    match e
    case Message(m) =>
      var signal := SignalOf(c, m);
      if signal.Some? {
        JsMap.PutView(s.signals, m.sender, signal.value);
        PutSignal(c, s, m.sender, signal.value);
        TryCommitKeeps(c, Recorded(s, m.sender, signal.value), false);
      }
      DeliverIs(c, s, m);
    case DeadlineFires(t) =>
      var s1 := s.(timers := s.timers - {t});
      assert Inv(c, s1);
      if !s1.committed && s1.hasContext { TryCommitKeeps(c, s1, true); }
    case CallSettles(ok) => SettleKeeps(c, s, ok);
  }

  /** The repository's own strategies keep a met quorum. */
  lemma StrategyGrows(hints: Option<Hints>)
    ensures GrowsWith(CreatePolicyStrategy(hints))
  {
  }

  // ---- The worker itself ----

  /** The worker with the variables of `main`; every handler is its function above. */
  class RiskDecider {
    const config: Config
    var signals: Signals
    var proposalId: Option<string>
    var committed: bool
    var hasContext: bool
    var timers: set<nat>
    var waitTimer: Option<nat>
    var nextTimer: nat
    var phase: Phase
    var calls: seq<Call>
    var decided: Option<Signals>

    ghost function Current(): State
      reads this
    {
      State(signals, proposalId, committed, hasContext, timers, waitTimer, nextTimer, phase, calls, decided)
    }

    constructor (config: Config)
      ensures this.config == config && Current() == INITIAL
    {
      this.config := config;
      signals, proposalId, committed, hasContext := [], None, false, false;
      timers, waitTimer, nextTimer := {}, None, 0;
      phase, calls, decided := Waiting, [], None;
    }

    method HandleProposal(id: Option<string>)
      modifies this
      ensures Current() == OnProposal(old(Current()), id)
    {
      if !Truthy(proposalId) {
        proposalId := id;
        timers := timers + {nextTimer};
        waitTimer := Some(nextTimer);
        nextTimer := nextTimer + 1;
      }
    }

    method HandleEvaluation(sender: Id, id: Option<string>, recommendation: Option<string>, confidence: Option<Number>)
      modifies this
      ensures Current() ==
              Deliver(config, old(Current()), Envelope(sender, EvaluationMsg(id, recommendation, confidence)))
    {
      if !Truthy(id) || sender == config.self { return; }
      signals := JsMap.Put(signals, sender, EvaluationSignal(recommendation, confidence));
      hasContext := true;
      AttemptCommit(false);
    }

    method HandleVote(sender: Id, id: Option<string>, vote: Option<string>)
      modifies this
      ensures Current() == Deliver(config, old(Current()), Envelope(sender, VoteMsg(id, vote)))
    {
      if !Truthy(id) || sender == config.self { return; }
      var voteValue := ToUpper(vote.GetOr(""));
      var recommendation :=
        if voteValue == "APPROVE" then "APPROVE" else if voteValue == "ABSTAIN" then "REVIEW" else "BLOCK";
      signals := JsMap.Put(signals, sender, Evaluation(Some(recommendation), Some(Real(1.0))));
      hasContext := true;
      AttemptCommit(false);
    }

    method HandleObjection(sender: Id, id: Option<string>, severity: Option<string>)
      modifies this
      ensures Current() == Deliver(config, old(Current()), Envelope(sender, ObjectionMsg(id, severity)))
    {
      if !Truthy(id) || sender == config.self { return; }
      signals := JsMap.Put(signals, sender, ObjectionSignal(severity));
      hasContext := true;
      AttemptCommit(false);
    }

    method HandleDeadline(timer: nat)
      requires timer in timers
      modifies this
      ensures Current() == Deadline(config, old(Current()), timer)
    {
      timers := timers - {timer};
      if !committed && hasContext {
        AttemptCommit(true);
      }
    }

    method AttemptCommit(force: bool)
      modifies this
      ensures Current() == TryCommit(config, old(Current()), force)
    {
      if committed || !Truthy(proposalId) { return; }
      if !force && |signals| < |Recipients(config)| { return; }
      if !config.strategy.isQuorumMet(|signals|, |Recipients(config)|) { return; }
      if waitTimer.Some? {
        timers := timers - {waitTimer.value};
        waitTimer := None;
      }
      committed := true;
      if config.suspendDemo && config.hasSession {
        phase, calls := Suspending, calls + [SuspendCall];
      } else {
        DecideAndVote();
      }
    }

    method DecideAndVote()
      modifies this
      ensures Current() == SendVote(config, old(Current()))
    {
      var decision := config.strategy.decide(JsMap.Values(signals));
      decided := Some(signals);
      calls := calls + [VoteCall(decision.approveVote)];
      phase := Voting(decision);
    }

    /** The continuation of `tryCommit` after the awaited call. */
    method Continue(ok: bool)
      requires Awaiting(Current())
      modifies this
      ensures Current() == Settle(config, old(Current()), ok)
    {
      match phase
      case Suspending => if ok { phase := Holding; } else { DecideAndVote(); }
      case Holding => phase, calls := Resuming, calls + [ResumeCall];
      case Resuming => DecideAndVote();
      case Voting(decision) =>
        calls := calls + [CommitCall(decision.action, decision.action != Decline)];
        phase := Committing(decision);
      case Committing(_) =>
        if ok || !config.hasSession {
          phase := Finished;
        } else {
          phase, calls := Cancelling, calls + [CancelCall];
        }
      case Cancelling => phase := Finished;
    }
  }
}
