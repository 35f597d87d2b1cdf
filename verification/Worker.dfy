/** A specialist worker (agents/langgraph_worker/main.py and its langchain and crewai twins):
    it evaluates on the Proposal and holds its Vote until every peer has evaluated. */
module Worker {
  import opened Wrappers
  import opened Messages
  import opened Policy

  /** The outcome of the graph, chain or crew, taken as given: whether the crew answered with
      an Objection, the upper-cased recommendation, the confidence. */
  datatype Analysis = Analysis(objection: bool, recommendation: string, confidence: real)

  datatype Pending = Pending(proposalId: string, vote: string, recommendation: string)

  /** The `state` dict. */
  datatype State = State(pending: Option<Pending>, peers: set<Id>, seen: set<Id>, voted: bool)

  const INITIAL := State(None, {}, {}, false)

  function EvalRecommendation(recommendation: string): string {
    var rec := ToUpper(recommendation);
    if rec in {"APPROVE", "ALLOW", "ACCEPT", "PASS"} then "APPROVE"
    else if rec in {"REJECT", "DENY", "DECLINE", "FAIL"} then "REJECT"
    else if rec in {"BLOCK", "VETO"} then "BLOCK"
    else "REVIEW"
  }

  function Clamp(x: real): real {
    if x < 0.0 then 0.0 else if x > 1.0 then 1.0 else x
  }

  function VoteOf(a: Analysis): string {
    if a.objection then "REJECT"
    else if a.recommendation in {"APPROVE", "ALLOW", "REVIEW"} then "APPROVE"
    else "REJECT"
  }

  /** The Evaluation that the worker submits. */
  function EvaluationOf(proposalId: string, a: Analysis): Message {
    EvaluationMsg(
      Some(proposalId),
      Some(if a.objection then "BLOCK" else EvalRecommendation(a.recommendation)),
      Some(Real(Clamp(a.confidence))))
  }

  /** The Vote that the worker submits once it is released. */
  function VoteMessage(p: Pending): Message {
    VoteMsg(Some(p.proposalId), Some(p.vote))
  }

  predicate Released(w: State) {
    !w.voted && w.pending.Some? && w.peers <= w.seen
  }

  /** `_maybe_vote`: the new state, and the vote to submit if the barrier is open. */
  function MaybeVote(w: State): (State, Option<Message>) {
    if Released(w) then (w.(voted := true), Some(VoteMessage(w.pending.value))) else (w, None)
  }

  function PeersOf(participants: seq<Id>, self: Id, coordinator: Id): set<Id> {
    set p | p in participants && p !in {self, coordinator}
  }

  /** The part of `handle_proposal` after the Evaluation was submitted. */
  function Stage(participants: seq<Id>, self: Id, w: State, coordinator: Id, proposalId: string, a: Analysis)
    : (State, Option<Message>)
  {
    MaybeVote(w.(peers := PeersOf(participants, self, coordinator),
                 pending := Some(Pending(proposalId, VoteOf(a), a.recommendation))))
  }

  function HandleEvaluation(self: Id, w: State, sender: Id): (State, Option<Message>) {
    MaybeVote(if sender != "" && sender != self then w.(seen := w.seen + {sender}) else w)
  }

  /** What the recommendation words amount to, Evaluation against Vote: a worker that
      evaluates BLOCK or REJECT always votes REJECT, one that evaluates REVIEW without the
      word REVIEW votes REJECT too, and only ACCEPT and PASS evaluate APPROVE yet vote REJECT. */
  lemma EvaluationAgainstVote(id: string, a: Analysis)
    requires a.recommendation == ToUpper(a.recommendation)
    ensures EvaluationOf(id, a).recommendation == Some("APPROVE") && VoteOf(a) == "REJECT"
       <==> !a.objection && a.recommendation in {"ACCEPT", "PASS"}
    ensures EvaluationOf(id, a).recommendation in {Some("BLOCK"), Some("REJECT")} ==> VoteOf(a) == "REJECT"
    ensures EvaluationOf(id, a).recommendation == Some("REVIEW") ==>
              (VoteOf(a) == "APPROVE" <==> a.recommendation == "REVIEW")
    ensures EvaluationOf(id, a).recommendation.value in {"APPROVE", "REVIEW", "BLOCK", "REJECT"}
    ensures VoteOf(a) in {"APPROVE", "REJECT"}
    ensures 0.0 <= EvaluationOf(id, a).confidence.value.r <= 1.0
  {
  }

  /** What is submitted: the analysis' own confidence, cut off at zero and one, and for each
      word of refusal or consent, in any case, the evaluation it stands for. */
  lemma EvaluationSubmits(id: string, a: Analysis)
    ensures var e := EvaluationOf(id, a); var word := ToUpper(a.recommendation);
      && e.proposalId == Some(id)
      && (0.0 <= a.confidence <= 1.0 ==> e.confidence == Some(Real(a.confidence)))
      && (a.confidence < 0.0 ==> e.confidence == Some(Real(0.0)))
      && (a.confidence > 1.0 ==> e.confidence == Some(Real(1.0)))
      && (a.objection ==> e.recommendation == Some("BLOCK"))
      && (!a.objection ==>
            e.recommendation ==
            Some(if word in {"APPROVE", "ALLOW", "ACCEPT", "PASS"} then "APPROVE"
                 else if word in {"REJECT", "DENY", "DECLINE", "FAIL"} then "REJECT"
                 else if word in {"BLOCK", "VETO"} then "BLOCK"
                 else "REVIEW"))
  {
  }

  /** And the Vote: APPROVE exactly for APPROVE, ALLOW and REVIEW without an Objection. */
  lemma VoteSubmits(participants: seq<Id>, self: Id, w: State, coordinator: Id, id: string, a: Analysis)
    ensures var p := Stage(participants, self, w, coordinator, id, a).0.pending.value;
      && VoteMessage(p).proposalId == Some(id)
      && (VoteMessage(p).vote == Some("APPROVE") <==>
            !a.objection && a.recommendation in {"APPROVE", "ALLOW", "REVIEW"})
      && (VoteMessage(p).vote == Some("REJECT") <==>
            a.objection || a.recommendation !in {"APPROVE", "ALLOW", "REVIEW"})
  {
  }

  /** The worker process: the `state` dict and the messages it submits. */
  class Specialist {
    const participants: seq<Id>
    const selfId: Id
    var pending: Option<Pending>
    var peers: set<Id>
    var seen: set<Id>
    var voted: bool
    var submitted: seq<Message>

    ghost function Current(): State
      reads this
    {
      State(pending, peers, seen, voted)
    }

    constructor (participants: seq<Id>, selfId: Id)
      ensures this.participants == participants && this.selfId == selfId
      ensures Current() == INITIAL && submitted == []
    {
      this.participants, this.selfId := participants, selfId;
      pending, peers, seen, voted, submitted := None, {}, {}, false, [];
    }

    method MaybeVoteNow()
      modifies this
      ensures (Current(), submitted) ==
              (var (w, vote) := MaybeVote(old(Current()));
               (w, old(submitted) + if vote.Some? then [vote.value] else []))
    {
      assert submitted + [] == submitted;
      if voted || pending.None? { return; }
      if !(peers <= seen) { return; }
      voted := true;
      submitted := submitted + [VoteMessage(pending.value)];
    }

    method HandleProposal(sender: Id, proposalId: Option<string>, a: Analysis)
      modifies this
      ensures var id := proposalId.GetOr("");
              (Current(), submitted) ==
              (var (w, vote) := Stage(participants, selfId, old(Current()), sender, id, a);
               (w, old(submitted) + [EvaluationOf(id, a)] + if vote.Some? then [vote.value] else []))
    {
      var id := proposalId.GetOr("");
      submitted := submitted + [EvaluationOf(id, a)];
      var vote := if a.objection then "REJECT"
                  else if a.recommendation in {"APPROVE", "ALLOW", "REVIEW"} then "APPROVE" else "REJECT";
      peers := set p | p in participants && p !in {selfId, sender};
      pending := Some(Pending(id, vote, a.recommendation));
      MaybeVoteNow();
    }

    method HandlePeerEvaluation(sender: Id)
      modifies this
      ensures (Current(), submitted) ==
              (var (w, vote) := HandleEvaluation(selfId, old(Current()), sender);
               (w, old(submitted) + if vote.Some? then [vote.value] else []))
    {
      if sender != "" && sender != selfId {
        seen := seen + {sender};
      }
      MaybeVoteNow();
    }
  }
}
