/** What the policy decision promises: it depends only on which signals were collected,
    it never rewards a worse signal, and quorum arithmetic is what its callers assume. */
module PolicyLaws {
  import opened Wrappers
  import opened Policy
  import JsMap

  // ---- Insertion order never matters ----

  lemma {:induction false} FilterMultiplicity(f: Signal -> bool, xs: seq<Signal>, x: Signal)
    ensures multiset(Filter(f, xs))[x] == if f(x) then multiset(xs)[x] else 0
  {
    if xs != [] {
      FilterMultiplicity(f, xs[1..], x);
      assert multiset(xs) == multiset{xs[0]} + multiset(xs[1..]) by {
        assert xs == [xs[0]] + xs[1..];
      }
    }
  }

  lemma FilterPermutes(f: Signal -> bool, a: seq<Signal>, b: seq<Signal>)
    requires multiset(a) == multiset(b)
    ensures multiset(Filter(f, a)) == multiset(Filter(f, b))
    ensures Count(f, a) == Count(f, b)
  {
    forall x: Signal ensures multiset(Filter(f, a))[x] == multiset(Filter(f, b))[x] {
      FilterMultiplicity(f, a, x);
      FilterMultiplicity(f, b, x);
    }
    var fa, fb := Filter(f, a), Filter(f, b);
    assert |fa| == |multiset(fa)| && |fb| == |multiset(fb)| && multiset(fa) == multiset(fb);
  }

  /** The whole decision, reason included, is a function of the multiset of signals. */
  lemma DecideIgnoresOrder(p: Rules, a: seq<Signal>, b: seq<Signal>)
    requires multiset(a) == multiset(b)
    ensures Decide(p, a) == Decide(p, b)
  {
    assert |multiset(a)| == |multiset(b)|;
    FilterPermutes(IsCritical, a, b);
    FilterPermutes(IsObjection, a, b);
    FilterPermutes(Disqualifying(p.minimumConfidence), a, b);
    var f := Qualifying(p.minimumConfidence);
    FilterPermutes(f, a, b);
    FilterPermutes(Recommending({"APPROVE"}), Filter(f, a), Filter(f, b));
    FilterPermutes(Recommending({"BLOCK", "REJECT"}), Filter(f, a), Filter(f, b));
    FilterPermutes(Recommending({"ABSTAIN"}), Filter(f, a), Filter(f, b));
  }

  /** Two signal Maps with equal content are decided alike. */
  lemma DecideIgnoresInsertionOrder<K>(p: Rules, a: seq<(K, Signal)>, b: seq<(K, Signal)>)
    requires JsMap.Distinct(a) && JsMap.Distinct(b) && JsMap.View(a) == JsMap.View(b)
    ensures Decide(p, JsMap.Values(a)) == Decide(p, JsMap.Values(b))
  {
    JsMap.SameViewSameValues(a, b);
    DecideIgnoresOrder(p, JsMap.Values(a), JsMap.Values(b));
  }

  // ---- Signals from worst to best ----

  /** 0 critical objection, 1 other objection, 2 qualified BLOCK or REJECT, 3 any other
      evaluation (including one below the confidence floor), 4 qualified ABSTAIN,
      5 qualified APPROVE. */
  function Rank(s: Signal, minimum: real): nat {
    if s.Objection? then
      if IsCritical(s) then 0 else 1
    else if !Qualifies(s, minimum) then 3
    else if Recommends(s, {"APPROVE"}) then 5
    else if Recommends(s, {"ABSTAIN"}) then 4
    else if Recommends(s, {"BLOCK", "REJECT"}) then 2
    else 3
  }

  function AtLeast(r: nat, minimum: real, all: seq<Signal>): nat {
    if all == [] then 0
    else (if Rank(all[0], minimum) >= r then 1 else 0) + AtLeast(r, minimum, all[1..])
  }

  lemma {:induction false} ClassesPartition(minimum: real, all: seq<Signal>)
    ensures Count(IsCritical, all) == |all| - AtLeast(1, minimum, all)
    ensures Count(IsObjection, all) == |all| - AtLeast(2, minimum, all)
    ensures Count(Recommending({"BLOCK", "REJECT"}), Filter(Qualifying(minimum), all))
         == AtLeast(2, minimum, all) - AtLeast(3, minimum, all)
    ensures Count(Disqualifying(minimum), all) <= AtLeast(3, minimum, all) - AtLeast(4, minimum, all)
    ensures Count(Recommending({"ABSTAIN"}), Filter(Qualifying(minimum), all))
         == AtLeast(4, minimum, all) - AtLeast(5, minimum, all)
    ensures Count(Recommending({"APPROVE"}), Filter(Qualifying(minimum), all)) == AtLeast(5, minimum, all)
  {
    if all != [] {
      ClassesPartition(minimum, all[1..]);
      if Qualifies(all[0], minimum) {
        var q := Filter(Qualifying(minimum), all);
        assert q[0] == all[0] && q[1..] == Filter(Qualifying(minimum), all[1..]);
      }
    }
  }

  /** The counts an evaluation can fall into make up the Map's size exactly when no
      confidence is NaN: a NaN is neither at least nor below the floor. */
  lemma {:induction false} FloorSplitsEvaluations(minimum: real, all: seq<Signal>)
    ensures Count(Qualifying(minimum), all) + Count(Disqualifying(minimum), all) + Count(IsObjection, all) <= |all|
    ensures Count(Qualifying(minimum), all) + Count(Disqualifying(minimum), all) + Count(IsObjection, all) == |all|
       <==> forall i | 0 <= i < |all| :: all[i].Evaluation? ==> all[i].confidence != Some(NaN)
  {
    if all != [] {
      FloorSplitsEvaluations(minimum, all[1..]);
      var rest := all[1..];
      assert (forall i | 0 <= i < |all| :: all[i].Evaluation? ==> all[i].confidence != Some(NaN))
        <==> ((all[0].Evaluation? ==> all[0].confidence != Some(NaN))
              && (forall i | 0 <= i < |rest| :: rest[i].Evaluation? ==> rest[i].confidence != Some(NaN))) by {
        if (forall i | 0 <= i < |rest| :: rest[i].Evaluation? ==> rest[i].confidence != Some(NaN)) {
          assert forall i | 1 <= i < |all| :: all[i] == rest[i - 1];
        }
        assert forall i | 0 <= i < |rest| :: rest[i] == all[i + 1];
      }
    }
  }

  datatype Kind = Unanimous | Share | Blocking

  function KindOf(ptype: string): Kind {
    if ptype == "unanimous" then Unanimous
    else if ptype == "supermajority" || ptype == "majority" then Share
    else Blocking
  }

  /** How many of `total` signals are at least non-critical, better than a rejection,
      better than an unqualified evaluation, approvals. */
  datatype Tally = Tally(total: nat, notCritical: nat, notAgainst: nat, votes: nat, approvals: nat)

  ghost predicate Ordered(t: Tally) {
    t.approvals <= t.votes <= t.notAgainst <= t.notCritical <= t.total
  }

  ghost function TallyOf(minimum: real, all: seq<Signal>): Tally {
    Tally(|all|, AtLeast(1, minimum, all), AtLeast(3, minimum, all), AtLeast(4, minimum, all),
          AtLeast(5, minimum, all))
  }

  function ApprovalRate(approvals: nat, others: nat): real {
    if approvals + others > 0 then approvals as real / (approvals + others) as real else 0.0
  }

  /** The action read off the tally alone: an independent definition of `decide`'s outcome. */
  function Outcome(k: Kind, p: Rules, t: Tally): Action
    requires Ordered(t)
  {
    var against := t.total - t.notAgainst;
    if p.vetoEnabled && (t.total - t.notCritical) as real >= p.vetoThreshold then Decline
    else match k
      case Unanimous => if against > 0 then Decline else if t.approvals == t.total then Approve else StepUp
      case Share =>
        if ApprovalRate(t.approvals, t.total - t.votes) >= p.threshold then Approve
        else if against > t.approvals then Decline
        else StepUp
      case Blocking => if against > 0 then Decline else Approve
  }

  lemma {:induction false} AtLeastSteps(r: nat, minimum: real, all: seq<Signal>)
    ensures AtLeast(r + 1, minimum, all) <= AtLeast(r, minimum, all) <= |all|
  {
    if all != [] {
      AtLeastSteps(r, minimum, all[1..]);
    }
  }

  lemma TallyOrdered(minimum: real, all: seq<Signal>)
    ensures Ordered(TallyOf(minimum, all))
  {
    AtLeastSteps(0, minimum, all);
    AtLeastSteps(1, minimum, all);
    AtLeastSteps(2, minimum, all);
    AtLeastSteps(3, minimum, all);
    AtLeastSteps(4, minimum, all);
  }

  /** `decide` is the outcome of the tally, and votes to approve unless it declines. */
  lemma DecideByRank(p: Rules, all: seq<Signal>)
    ensures Ordered(TallyOf(p.minimumConfidence, all))
    ensures Decide(p, all).action == Outcome(KindOf(p.ptype), p, TallyOf(p.minimumConfidence, all))
    ensures Decide(p, all).approveVote <==> Decide(p, all).action != Decline
  {
    TallyOrdered(p.minimumConfidence, all);
    ClassesPartition(p.minimumConfidence, all);
  }

  /** What a decision reports is true of the Map it was given: the quoted counts, the rate,
      and the policy it names (an unknown type is applied, and named, as `none`). */
  lemma DecisionExplains(p: Rules, all: seq<Signal>)
    ensures Ordered(TallyOf(p.minimumConfidence, all))
    ensures var d, t := Decide(p, all), TallyOf(p.minimumConfidence, all);
      && (match d.reason
          case VetoMet(n) => p.vetoEnabled && n == t.total - t.notCritical && n as real >= p.vetoThreshold
          case RejectedOrObjected(r, o) => r + o == t.total - t.notAgainst && r + o > 0
          case BelowConfidence(n) => 0 < n <= t.notAgainst - t.votes
          case AllApproved => t.approvals == t.total
          case RateMeetsThreshold(rate) => rate == ApprovalRate(t.approvals, t.total - t.votes) && rate >= p.threshold
          case MajorityAgainst => t.total - t.notAgainst > t.approvals
          case NothingBlocking => t.notAgainst == t.total
          case _ => true)
      && d.policyApplied == if d.reason.VetoMet? || KindOf(p.ptype) != Blocking then p.ptype else "none"
  {
    TallyOrdered(p.minimumConfidence, all);
    ClassesPartition(p.minimumConfidence, all);
  }

  // ---- The strategy of given hints ----

  /** The hints' own words, or what stands for a missing one. */
  function TypeOf(hints: Option<Hints>): string {
    if hints.Some? && hints.value.ptype.Some? then hints.value.ptype.value else "none"
  }

  function ThresholdOf(hints: Option<Hints>): real {
    if hints.Some? && hints.value.threshold.Some? then hints.value.threshold.value else 0.5
  }

  function VetoOf(hints: Option<Hints>): bool {
    hints.Some? &&
    if hints.value.vetoEnabled.Some? then hints.value.vetoEnabled.value
    else hints.value.criticalSeverityVetoes.Some? && hints.value.criticalSeverityVetoes.value
  }

  function VetoThresholdOf(hints: Option<Hints>): real {
    if hints.Some? && hints.value.vetoThreshold.Some? then hints.value.vetoThreshold.value else 1.0
  }

  function FloorOf(hints: Option<Hints>): real {
    if hints.Some? && hints.value.minimumConfidence.Some? then hints.value.minimumConfidence.value else 0.0
  }

  /** The quorum of the hinted type and threshold. */
  lemma StrategyQuorum(hints: Option<Hints>, size: nat, total: nat)
    ensures CreatePolicyStrategy(hints).isQuorumMet(size, total) <==>
            if TypeOf(hints) in {"unanimous", "none"} then size >= total
            else size >= 1 && size as real >= total as real * ThresholdOf(hints)
  {
    CeilIsLeast(total as real * ThresholdOf(hints), size);
  }

  /** The decision in the hints' own words: the veto fires exactly if it is enabled and the
      critical objections reach its threshold; otherwise the hinted type and threshold decide
      over the evaluations that reach the hinted confidence. */
  lemma StrategyDecides(hints: Option<Hints>, all: seq<Signal>)
    ensures Ordered(TallyOf(FloorOf(hints), all))
    ensures var d, t := CreatePolicyStrategy(hints).decide(all), TallyOf(FloorOf(hints), all);
      var against := t.total - t.notAgainst;
      && (d.reason.VetoMet? <==> VetoOf(hints) && (t.total - t.notCritical) as real >= VetoThresholdOf(hints))
      && (d.reason.VetoMet? ==> d.action == Decline)
      && (!d.reason.VetoMet? && TypeOf(hints) == "unanimous" ==>
            d.action == if against > 0 then Decline else if t.approvals == t.total then Approve else StepUp)
      && (!d.reason.VetoMet? && TypeOf(hints) in {"majority", "supermajority"} ==>
            d.action ==
            if ApprovalRate(t.approvals, t.total - t.votes) >= ThresholdOf(hints) then Approve
            else if against > t.approvals then Decline else StepUp)
      && (!d.reason.VetoMet? && TypeOf(hints) !in {"unanimous", "majority", "supermajority"} ==>
            d.action == if against > 0 then Decline else Approve)
      && (d.approveVote <==> d.action != Decline)
  {
    var p := Rules(TypeOf(hints), ThresholdOf(hints), VetoOf(hints), VetoThresholdOf(hints), FloorOf(hints));
    assert RulesOf(hints) == p;
    DecideByRank(p, all);
    ClassesPartition(p.minimumConfidence, all);
    VetoIff(p, all);
  }

  lemma {:induction false} VetoIff(p: Rules, all: seq<Signal>)
    ensures Decide(p, all).reason.VetoMet? <==>
            p.vetoEnabled && Count(IsCritical, all) as real >= p.vetoThreshold
  {
  }

  /** Whether an evaluation reaches the floor; a missing confidence counts as one. */
  predicate Reaches(confidence: Option<Number>, minimum: real) {
    match confidence
    case None => minimum <= 1.0
    case Some(Real(r)) => r >= minimum
    case Some(NaN) => false
  }

  /** How a signal ranks, read off its own fields; the recommendation in any case. */
  lemma RankOfEvaluation(recommendation: Option<string>, confidence: Option<Number>, minimum: real)
    ensures var word := ToUpper(if recommendation.Some? then recommendation.value else "");
      Rank(Evaluation(recommendation, confidence), minimum) ==
      if !Reaches(confidence, minimum) then 3
      else if word == "APPROVE" then 5
      else if word == "ABSTAIN" then 4
      else if word == "BLOCK" || word == "REJECT" then 2
      else 3
  {
  }

  lemma RankOfObjection(severity: Option<string>, minimum: real)
    ensures Rank(Objection(severity), minimum) == if severity == Some("critical") then 0 else 1
  {
  }

  /** Upper-casing moves the letters from `a` to `z` and nothing else. */
  lemma ToUpperIs(s: string, i: nat)
    requires i < |s|
    ensures |ToUpper(s)| == |s|
    ensures 'a' <= s[i] <= 'z' ==> ToUpper(s)[i] as int == s[i] as int - 32
    ensures !('a' <= s[i] <= 'z') ==> ToUpper(s)[i] == s[i]
  {
  }

  // ---- Monotonicity ----

  function Level(a: Action): nat {
    match a case Decline => 0 case StepUp => 1 case Approve => 2
  }

  ghost predicate NoBetter(minimum: real, worse: seq<Signal>, better: seq<Signal>) {
    |worse| == |better| && forall i | 0 <= i < |worse| :: Rank(worse[i], minimum) <= Rank(better[i], minimum)
  }

  lemma {:induction false} FewerAtLeast(r: nat, minimum: real, worse: seq<Signal>, better: seq<Signal>)
    requires NoBetter(minimum, worse, better)
    ensures AtLeast(r, minimum, worse) <= AtLeast(r, minimum, better)
  {
    if worse != [] {
      var w, b := worse[1..], better[1..];
      assert NoBetter(minimum, w, b) by {
        assert forall i | 0 <= i < |w| :: w[i] == worse[i + 1] && b[i] == better[i + 1];
      }
      FewerAtLeast(r, minimum, w, b);
    }
  }

  lemma CrossMultiply(x: real, y: real, u: real, v: real)
    requires y > 0.0 && v > 0.0 && x * v <= u * y
    ensures x / y <= u / v
  {
    var q, w := x / y, u / v;
    assert x == q * y && u == w * v;
    Cancel(q, w, y * v);
  }

  lemma Cancel(q: real, w: real, s: real)
    requires s > 0.0 && q * s <= w * s
    ensures q <= w
  {
  }

  /** a / (a + k) grows with a and shrinks with k. */
  lemma ShareMonotone(a: nat, k: nat, a': nat, k': nat)
    requires a' <= a && k <= k' && a' + k' > 0
    ensures a + k > 0 ==> a' as real / (a' + k') as real <= a as real / (a + k) as real
    ensures a + k == 0 ==> a' == 0
  {
    if a + k > 0 {
      Products(a', k, a, k');
      var x, y, u, v := a' as real, (a' + k') as real, a as real, (a + k) as real;
      assert x * v == (a' * (a + k)) as real;
      assert u * y == (a * (a' + k')) as real;
      CrossMultiply(x, y, u, v);
    }
  }

  lemma Products(a': nat, k: nat, a: nat, k': nat)
    requires a' <= a && k <= k'
    ensures a' * (a + k) <= a * (a' + k')
  {
    assert a' * k <= a * k <= a * k';
  }

  lemma OutcomeMonotone(k: Kind, p: Rules, worse: Tally, better: Tally)
    requires Ordered(worse) && Ordered(better) && worse.total == better.total
    requires worse.notCritical <= better.notCritical && worse.notAgainst <= better.notAgainst
    requires worse.votes <= better.votes && worse.approvals <= better.approvals
    ensures Level(Outcome(k, p, worse)) <= Level(Outcome(k, p, better))
  {
    var a, o := better.approvals, better.total - better.votes;
    var a', o' := worse.approvals, worse.total - worse.votes;
    assert ApprovalRate(a', o') <= ApprovalRate(a, o) by {
      if a' + o' > 0 {
        ShareMonotone(a, o, a', o');
      }
    }
  }

  /** Replacing signals by worse ones never raises the outcome, for every policy type,
      threshold, veto setting and confidence floor. */
  lemma DecideMonotone(p: Rules, worse: seq<Signal>, better: seq<Signal>)
    requires NoBetter(p.minimumConfidence, worse, better)
    ensures Level(Decide(p, worse).action) <= Level(Decide(p, better).action)
  {
    var m := p.minimumConfidence;
    DecideByRank(p, worse);
    DecideByRank(p, better);
    FewerAtLeast(1, m, worse, better);
    FewerAtLeast(3, m, worse, better);
    FewerAtLeast(4, m, worse, better);
    FewerAtLeast(5, m, worse, better);
    OutcomeMonotone(KindOf(p.ptype), p, TallyOf(m, worse), TallyOf(m, better));
  }

  /** `m`'s senders in `m`'s order, with the signals that `v` gives them. */
  ghost function Retarget<K(!new)>(m: seq<(K, Signal)>, v: map<K, Signal>): seq<(K, Signal)>
    requires JsMap.View(m).Keys <= v.Keys
  {
    if m == [] then []
    else
      assert JsMap.View(m).Keys == JsMap.View(m[1..]).Keys + {m[0].0};
      [(m[0].0, v[m[0].0])] + Retarget(m[1..], v)
  }

  lemma {:induction false} Retargeted<K(!new)>(m: seq<(K, Signal)>, v: map<K, Signal>)
    requires JsMap.Distinct(m) && JsMap.View(m).Keys <= v.Keys
    ensures |Retarget(m, v)| == |m| && forall i | 0 <= i < |m| :: Retarget(m, v)[i].0 == m[i].0
    ensures JsMap.View(Retarget(m, v)) == map k | k in JsMap.View(m) :: v[k]
  {
    if m != [] {
      var tail := m[1..];
      JsMap.ViewCut(m, 0);
      assert m[..0] + m[1..] == tail;
      Retargeted(tail, v);
      assert Retarget(m, v)[1..] == Retarget(tail, v);
      assert JsMap.View(m).Keys == JsMap.View(tail).Keys + {m[0].0};
    }
  }

  lemma {:induction false} RetargetNoBetter<K(!new)>(m: seq<(K, Signal)>, v: map<K, Signal>, minimum: real)
    requires JsMap.Distinct(m) && JsMap.View(m).Keys <= v.Keys
    requires forall k | k in JsMap.View(m) :: Rank(JsMap.View(m)[k], minimum) <= Rank(v[k], minimum)
    ensures NoBetter(minimum, JsMap.Values(m), JsMap.Values(Retarget(m, v)))
  {
    if m != [] {
      var tail := m[1..];
      JsMap.ViewCut(m, 0);
      assert m[..0] + m[1..] == tail;
      RetargetNoBetter(tail, v, minimum);
      var r := Retarget(m, v);
      assert r[1..] == Retarget(tail, v);
      var w, b := JsMap.Values(tail), JsMap.Values(r[1..]);
      assert JsMap.Values(m) == [m[0].1] + w && JsMap.Values(r) == [v[m[0].0]] + b;
      assert Rank(m[0].1, minimum) <= Rank(v[m[0].0], minimum);
    }
  }

  /** The same for the Maps the coordinator holds: same senders, each signal no better. */
  lemma DecideMonotoneOnMaps<K(!new)>(p: Rules, worse: seq<(K, Signal)>, better: seq<(K, Signal)>)
    requires JsMap.Distinct(worse) && JsMap.Distinct(better)
    requires JsMap.View(worse).Keys == JsMap.View(better).Keys
    requires forall k | k in JsMap.View(worse) ::
               Rank(JsMap.View(worse)[k], p.minimumConfidence) <= Rank(JsMap.View(better)[k], p.minimumConfidence)
    ensures Level(Decide(p, JsMap.Values(worse)).action) <= Level(Decide(p, JsMap.Values(better)).action)
  {
    var v := JsMap.View(better);
    Retargeted(worse, v);
    RetargetNoBetter(worse, v, p.minimumConfidence);
    DecideMonotone(p, JsMap.Values(worse), JsMap.Values(Retarget(worse, v)));
    DecideIgnoresInsertionOrder(p, Retarget(worse, v), better);
  }

  lemma {:induction false} DecideAntitoneInThreshold(p: Rules, higher: real, all: seq<Signal>)
    requires higher >= p.threshold
    ensures Level(Decide(p.(threshold := higher), all).action) <= Level(Decide(p, all).action)
  {
    DecideByRank(p, all);
    DecideByRank(p.(threshold := higher), all);
  }

  lemma AboveHalf(a: nat, others: nat)
    requires ApprovalRate(a, others) > 0.5
    ensures a > others
  {
    var y := (a + others) as real;
    var q := a as real / y;
    assert q * y == a as real;
    assert (q - 0.5) * y > 0.0;
    assert a as real > 0.5 * y;
  }

  /** Approval under a threshold above one half: approvals outnumber every other
      signal that did not abstain. */
  lemma MajorityMeansMore(p: Rules, all: seq<Signal>)
    requires p.ptype == "majority" || p.ptype == "supermajority"
    requires p.threshold > 0.5 && Decide(p, all).action == Approve
    ensures var t := TallyOf(p.minimumConfidence, all); t.approvals > t.total - t.votes
  {
    var t := TallyOf(p.minimumConfidence, all);
    DecideByRank(p, all);
    AboveHalf(t.approvals, t.total - t.votes);
  }

  /** One qualified APPROVE and one qualified REVIEW. */
  function Tie(minimum: real): seq<Signal> {
    [Evaluation(Some("APPROVE"), Some(Real(minimum))), Evaluation(Some("REVIEW"), Some(Real(minimum)))]
  }

  lemma TallyOfTie(minimum: real)
    ensures TallyOf(minimum, Tie(minimum)) == Tally(2, 2, 2, 1, 1)
  {
    var a, b := Tie(minimum)[0], Tie(minimum)[1];
    assert ToUpper("APPROVE") == "APPROVE" && ToUpper("REVIEW") == "REVIEW";
    assert Rank(a, minimum) == 5 && Rank(b, minimum) == 3;
    assert Tie(minimum)[1..] == [b];
    TallyOfOne(minimum, b);
  }

  ghost predicate ApprovedWithoutMajority(p: Rules, all: seq<Signal>) {
    Decide(p, all).action == Approve &&
    var t := TallyOf(p.minimumConfidence, all); t.approvals <= t.total - t.votes
  }

  /** Some Map is approved without a strict majority exactly under a threshold of at most one
      half (a tie meets one half), unless the veto declines every Map. */
  lemma TieApprovedIff(p: Rules)
    requires KindOf(p.ptype) == Share
    ensures (exists all :: ApprovedWithoutMajority(p, all)) <==>
            p.threshold <= 0.5 && !(p.vetoEnabled && p.vetoThreshold <= 0.0)
  {
    var tie := Tie(p.minimumConfidence);
    TallyOfTie(p.minimumConfidence);
    DecideByRank(p, tie);
    assert ApprovalRate(1, 1) == 0.5;
    if p.threshold <= 0.5 && !(p.vetoEnabled && p.vetoThreshold <= 0.0) {
      assert ApprovedWithoutMajority(p, tie);
    }
    forall all | ApprovedWithoutMajority(p, all)
      ensures p.threshold <= 0.5 && !(p.vetoEnabled && p.vetoThreshold <= 0.0)
    {
      DecideByRank(p, all);
      if p.threshold > 0.5 { MajorityMeansMore(p, all); }
    }
  }

  lemma OutcomeStrongest(p: Rules, k: Kind, t: Tally)
    requires Ordered(t) && t.total > 0 && p.threshold <= 1.0
    requires Outcome(Unanimous, p, t) == Approve
    ensures Outcome(k, p, t) == Approve
  {
    var n := t.total as real;
    assert n / n == 1.0;
  }

  /** Unanimous approval of a non-empty Map is approval under every policy type whose
      threshold is at most one. */
  lemma UnanimousIsStrongest(p: Rules, ptype: string, all: seq<Signal>)
    requires p.threshold <= 1.0 && all != []
    requires Decide(p.(ptype := "unanimous"), all).action == Approve
    ensures Decide(p.(ptype := ptype), all).action == Approve
  {
    DecideByRank(p.(ptype := "unanimous"), all);
    DecideByRank(p.(ptype := ptype), all);
    OutcomeStrongest(p, KindOf(ptype), TallyOf(p.minimumConfidence, all));
  }

  // ---- The confidence floor ----

  /** A higher floor turns qualified evaluations into plain ones, better or worse. */
  lemma {:induction false} FloorMoves(low: real, high: real, all: seq<Signal>)
    requires low <= high
    ensures AtLeast(1, high, all) == AtLeast(1, low, all)
    ensures AtLeast(3, high, all) >= AtLeast(3, low, all)
    ensures AtLeast(4, high, all) <= AtLeast(4, low, all)
    ensures AtLeast(5, high, all) <= AtLeast(5, low, all)
  {
    if all != [] {
      FloorMoves(low, high, all[1..]);
    }
  }

  ghost predicate Vetoed(p: Rules, t: Tally)
    requires Ordered(t)
  {
    p.vetoEnabled && (t.total - t.notCritical) as real >= p.vetoThreshold
  }

  /** The floor drops enough rejections: what was declined under tally `t` no longer is
      under `u`. */
  ghost predicate DropsRejections(p: Rules, t: Tally, u: Tally)
    requires Ordered(t) && Ordered(u)
  {
    var against, left := t.total - t.notAgainst, u.total - u.notAgainst;
    !Vetoed(p, t) &&
    if KindOf(p.ptype) == Share then
      ApprovalRate(t.approvals, t.total - t.votes) < p.threshold && against > t.approvals && left <= u.approvals
    else against > 0 && left == 0
  }

  lemma OutcomeRisesIff(k: Kind, p: Rules, t: Tally, u: Tally)
    requires k == KindOf(p.ptype) && Ordered(t) && Ordered(u) && u.total == t.total
    requires u.notCritical == t.notCritical && u.notAgainst >= t.notAgainst
    requires u.votes <= t.votes && u.approvals <= t.approvals
    ensures Level(Outcome(k, p, u)) > Level(Outcome(k, p, t)) <==> DropsRejections(p, t, u)
  {
    var a, o, a', o' := t.approvals, t.total - t.votes, u.approvals, u.total - u.votes;
    assert ApprovalRate(a', o') <= ApprovalRate(a, o) by {
      if a' + o' > 0 { ShareMonotone(a, o, a', o'); }
    }
  }

  /** When raising the confidence floor raises the outcome: exactly when it drops the
      rejections that alone kept the decision at a decline. */
  lemma FloorRaisesIff(p: Rules, floor: real, all: seq<Signal>)
    requires p.minimumConfidence <= floor
    ensures Ordered(TallyOf(p.minimumConfidence, all)) && Ordered(TallyOf(floor, all))
    ensures Level(Decide(p.(minimumConfidence := floor), all).action) > Level(Decide(p, all).action)
       <==> DropsRejections(p, TallyOf(p.minimumConfidence, all), TallyOf(floor, all))
  {
    DecideByRank(p, all);
    DecideByRank(p.(minimumConfidence := floor), all);
    FloorMoves(p.minimumConfidence, floor, all);
    OutcomeRisesIff(KindOf(p.ptype), p, TallyOf(p.minimumConfidence, all), TallyOf(floor, all));
  }

  /** The rules under which no Map can gain from a higher floor: the veto fires without any
      objection, or a majority needs no approval at all. */
  predicate FloorIsHarmless(p: Rules) {
    (p.vetoEnabled && p.vetoThreshold <= 0.0) || (KindOf(p.ptype) == Share && p.threshold <= 0.0)
  }

  lemma TallyOfOne(minimum: real, s: Signal)
    ensures var r := Rank(s, minimum);
      TallyOf(minimum, [s]) ==
      Tally(1, if r >= 1 then 1 else 0, if r >= 3 then 1 else 0, if r >= 4 then 1 else 0, if r >= 5 then 1 else 0)
  {
    assert [s][1..] == [];
    assert AtLeast(1, minimum, []) == AtLeast(3, minimum, []) == 0;
    assert AtLeast(4, minimum, []) == AtLeast(5, minimum, []) == 0;
  }

  /** One BLOCK at the old floor, dropped by the new one. */
  lemma DroppedBlock(p: Rules, floor: real)
    requires p.minimumConfidence < floor && !FloorIsHarmless(p)
    ensures var all := [Evaluation(Some("BLOCK"), Some(Real(p.minimumConfidence)))];
      Level(Decide(p.(minimumConfidence := floor), all).action) > Level(Decide(p, all).action)
  {
    var signal := Evaluation(Some("BLOCK"), Some(Real(p.minimumConfidence)));
    assert ToUpper("BLOCK") == "BLOCK";
    assert Rank(signal, p.minimumConfidence) == 2 && Rank(signal, floor) == 3;
    FloorRaisesIff(p, floor, [signal]);
    TallyOfOne(p.minimumConfidence, signal);
    TallyOfOne(floor, signal);
    assert TallyOf(p.minimumConfidence, [signal]) == Tally(1, 1, 0, 0, 0);
    assert TallyOf(floor, [signal]) == Tally(1, 1, 1, 0, 0);
  }

  /** Known before any Map exists: raising the floor can raise some outcome exactly unless
      the rules make it harmless. */
  lemma FloorCanRaiseIff(p: Rules, floor: real)
    requires p.minimumConfidence < floor
    ensures (exists all: seq<Signal> ::
              Level(Decide(p.(minimumConfidence := floor), all).action) > Level(Decide(p, all).action))
       <==> !FloorIsHarmless(p)
  {
    if FloorIsHarmless(p) {
      forall all: seq<Signal>
        ensures Level(Decide(p.(minimumConfidence := floor), all).action) <= Level(Decide(p, all).action)
      {
        FloorRaisesIff(p, floor, all);
      }
    } else {
      DroppedBlock(p, floor);
    }
  }

  /** An instance under the default policy. */
  lemma FloorIsNotMonotone()
    ensures exists p: Rules, floor: real, all: seq<Signal> ::
              floor > p.minimumConfidence
              && Level(Decide(p.(minimumConfidence := floor), all).action) > Level(Decide(p, all).action)
  {
    var p, floor := RulesOf(None), 0.7;
    FloorCanRaiseIff(p, floor);
    var all :| Level(Decide(p.(minimumConfidence := floor), all).action) > Level(Decide(p, all).action);
  }

  // ---- Quorum arithmetic ----

  ghost predicate CountsByThreshold(p: Rules) {
    p.ptype != "unanimous" && p.ptype != "none"
  }

  lemma CeilIsLeast(x: real, k: int)
    ensures Ceil(x) <= k <==> x <= k as real
  {
  }

  lemma Scale(t: real, n: nat)
    requires n >= 1
    ensures n as real * t <= n as real <==> t <= 1.0
  {
    var m := n as real;
    if t > 1.0 {
      assert m * (t - 1.0) > 0.0;
    } else {
      assert m * (1.0 - t) >= 0.0;
    }
  }

  /** Full turnout passes exactly when the policy ignores the threshold or the threshold
      is at most one; otherwise no reachable number of signals passes at all. */
  lemma FullTurnout(p: Rules, n: nat)
    requires n >= 1
    ensures IsQuorumMet(p, n, n) <==> !CountsByThreshold(p) || p.threshold <= 1.0
    ensures IsQuorumMet(p, n, n) ==> 1 <= RequiredCount(p, n) <= n
    ensures forall size: nat | size <= n :: IsQuorumMet(p, size, n) ==> size >= 1 && IsQuorumMet(p, n, n)
  {
    CeilIsLeast(n as real * p.threshold, n);
    Scale(p.threshold, n);
  }

  /** The deadline's early commit is possible (fewer signals than recipients) exactly for
      the threshold policies with room below full turnout: never under `none` or
      `unanimous`, whatever the deadline's own comment says. */
  lemma DeadlineCanForce(p: Rules, size: nat, n: nat)
    requires size < n
    ensures IsQuorumMet(p, size, n) <==>
            CountsByThreshold(p) && size >= 1 && n as real * p.threshold <= size as real
  {
    CeilIsLeast(n as real * p.threshold, size);
  }
}
