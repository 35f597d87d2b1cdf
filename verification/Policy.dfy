/** The coordinator's policy strategy: quorum arithmetic and the decision over the
    collected specialist signals (src/example-agents/runtime/policy-strategy.ts). */
module Policy {
  import opened Wrappers

  /** A JavaScript number: an exact real, or the NaN that `Number(...)` gives for text. */
  datatype Number = Real(r: real) | NaN

  datatype Signal =
    | Evaluation(recommendation: Option<string>, confidence: Option<Number>)
    | Objection(severity: Option<string>)

  datatype Hints = Hints(
    ptype: Option<string>,
    threshold: Option<real>,
    vetoEnabled: Option<bool>,
    criticalSeverityVetoes: Option<bool>,
    vetoThreshold: Option<real>,
    minimumConfidence: Option<real>)

  /** The hints with their defaults filled in. */
  datatype Rules = Rules(
    ptype: string, threshold: real, vetoEnabled: bool, vetoThreshold: real, minimumConfidence: real)

  datatype Action = Decline | StepUp | Approve

  /** What each branch reports; the counts are the ones its message quotes. */
  datatype Reason =
    | VetoMet(critical: nat)
    | RejectedOrObjected(rejections: nat, objections: nat)
    | BelowConfidence(disqualified: nat)
    | AllApproved
    | MixedSignals
    | RateMeetsThreshold(rate: real)
    | MajorityAgainst
    | RateBelowThreshold
    | BlockingObserved
    | NothingBlocking

  datatype Decision = Decision(action: Action, approveVote: bool, reason: Reason, policyApplied: string)

  function RulesOf(hints: Option<Hints>): Rules {
    match hints
    case None => Rules("none", 0.5, false, 1.0, 0.0)
    case Some(h) =>
      Rules(
        h.ptype.GetOr("none"),
        h.threshold.GetOr(0.5),
        h.vetoEnabled.GetOr(h.criticalSeverityVetoes.GetOr(false)),
        h.vetoThreshold.GetOr(1.0),
        h.minimumConfidence.GetOr(0.0))
  }

  // ---- Quorum ----

  function Ceil(x: real): int {
    -((-x).Floor)
  }

  function RequiredCount(p: Rules, total: nat): int {
    if p.ptype == "unanimous" || p.ptype == "none" then total
    else
      var c := Ceil(total as real * p.threshold);
      if c > 1 then c else 1
  }

  predicate IsQuorumMet(p: Rules, size: nat, total: nat) {
    size >= RequiredCount(p, total)
  }

  // ---- Decision ----

  function ToUpperChar(c: char): char {
    if 'a' <= c <= 'z' then c - 'a' + 'A' else c
  }

  function ToUpper(s: string): string {
    seq(|s|, i requires 0 <= i < |s| => ToUpperChar(s[i]))
  }

  function Filter<T>(f: T -> bool, xs: seq<T>): seq<T> {
    if xs == [] then []
    else if f(xs[0]) then [xs[0]] + Filter(f, xs[1..])
    else Filter(f, xs[1..])
  }

  function Count<T>(f: T -> bool, xs: seq<T>): nat {
    |Filter(f, xs)|
  }

  predicate IsCritical(s: Signal) {
    s.Objection? && s.severity == Some("critical")
  }

  predicate Qualifies(s: Signal, minimum: real) {
    s.Evaluation? && var c := s.confidence.GetOr(Real(1.0)); c.Real? && c.r >= minimum
  }

  predicate Disqualified(s: Signal, minimum: real) {
    s.Evaluation? && var c := s.confidence.GetOr(Real(1.0)); c.Real? && c.r < minimum
  }

  predicate IsObjection(s: Signal) {
    s.Objection?
  }

  predicate Recommends(s: Signal, words: set<string>) {
    s.Evaluation? && ToUpper(s.recommendation.GetOr("")) in words
  }

  function Qualifying(minimum: real): Signal -> bool {
    s => Qualifies(s, minimum)
  }

  function Disqualifying(minimum: real): Signal -> bool {
    s => Disqualified(s, minimum)
  }

  function Recommending(words: set<string>): Signal -> bool {
    s => Recommends(s, words)
  }

  /** `decide`, with the counts it reads and its early returns in the source's order. */
  function Decide(p: Rules, all: seq<Signal>): Decision {
    var critical := Count(IsCritical, all);
    if p.vetoEnabled && critical as real >= p.vetoThreshold then
      Decision(Decline, false, VetoMet(critical), p.ptype)
    else
      var qualified := Filter(Qualifying(p.minimumConfidence), all);
      var disqualified := Count(Disqualifying(p.minimumConfidence), all);
      var approvals := Count(Recommending({"APPROVE"}), qualified);
      var rejections := Count(Recommending({"BLOCK", "REJECT"}), qualified);
      var objections := Count(IsObjection, all);
      var abstentions := Count(Recommending({"ABSTAIN"}), qualified);
      var total := |all|;
      var effectiveTotal := total - abstentions;
      if p.ptype == "unanimous" then
        if rejections > 0 || objections > 0 then
          Decision(Decline, false, RejectedOrObjected(rejections, objections), "unanimous")
        else if disqualified > 0 then
          Decision(StepUp, true, BelowConfidence(disqualified), "unanimous")
        else if approvals == total then
          Decision(Approve, true, AllApproved, "unanimous")
        else
          Decision(StepUp, true, MixedSignals, "unanimous")
      else
        var approvalRate := if effectiveTotal > 0 then approvals as real / effectiveTotal as real else 0.0;
        if p.ptype == "supermajority" || p.ptype == "majority" then
          if approvalRate >= p.threshold then
            Decision(Approve, true, RateMeetsThreshold(approvalRate), p.ptype)
          else if rejections + objections > approvals then
            Decision(Decline, false, MajorityAgainst, p.ptype)
          else
            Decision(StepUp, true, RateBelowThreshold, p.ptype)
        else if rejections > 0 || objections > 0 then
          Decision(Decline, false, BlockingObserved, "none")
        else
          Decision(Approve, true, NothingBlocking, "none")
  }

  /** The strategy object handed to the coordinator: two methods closed over the rules. */
  datatype PolicyStrategy = PolicyStrategy(
    isQuorumMet: (nat, nat) -> bool, decide: seq<Signal> -> Decision)

  function CreatePolicyStrategy(hints: Option<Hints>): PolicyStrategy {
    var p := RulesOf(hints);
    PolicyStrategy((size: nat, total: nat) => IsQuorumMet(p, size, total), (all: seq<Signal>) => Decide(p, all))
  }
}
