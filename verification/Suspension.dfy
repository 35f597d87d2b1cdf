/** The suspend demo: while the session is held, Votes still arrive and overwrite Evaluations
    in the Map that `decide` will read. What that can do to the decision. */
module Suspension {
  import opened Wrappers
  import opened Messages
  import opened Policy
  import opened PolicyLaws
  import opened Session
  import opened Ordered
  import opened Confluence
  import JsMap
  import C = Coordinator
  import W = Worker

  ghost function EvaluationSlot(x: Inputs, k: nat): Signal
    requires k < |x.analyses|
  {
    var e := W.EvaluationOf(x.id, x.analyses[k]);
    C.EvaluationSignal(e.recommendation, e.confidence)
  }

  ghost function VoteSlot(x: Inputs, k: nat): Signal
    requires k < |x.analyses|
  {
    C.VoteSignal(VoteOf(x, k).vote)
  }

  // ---- What a slot may hold ----

  /** Each slot holds its specialist's accepted Evaluation or its accepted Vote. */
  ghost predicate OwnSlots(x: Inputs, log: seq<Envelope>, m: map<Id, Signal>)
    requires |x.analyses| == |Specialists(x.c)|
  {
    forall k | 0 <= k < |x.analyses| && Specialists(x.c)[k] in m ::
      || (m[Specialists(x.c)[k]] == EvaluationSlot(x, k) && EvaluatedIn(log, Specialists(x.c)[k]))
      || (m[Specialists(x.c)[k]] == VoteSlot(x, k) && VotedIn(log, Specialists(x.c)[k]))
  }

  lemma ReadSlots(x: Inputs, log: seq<Envelope>, read: nat)
    requires Admissible(x) && LogInv(x.c, x.id, log) && OrderedLog(x, log) && read <= |log|
    ensures OwnSlots(x, log, SignalMap(x.c, log[..read]))
  {
    var l := log[..read];
    forall k | 0 <= k < |x.analyses| && Specialists(x.c)[k] in SignalMap(x.c, l)
      ensures
        || (SignalMap(x.c, l)[Specialists(x.c)[k]] == EvaluationSlot(x, k) && EvaluatedIn(log, Specialists(x.c)[k]))
        || (SignalMap(x.c, l)[Specialists(x.c)[k]] == VoteSlot(x, k) && VotedIn(log, Specialists(x.c)[k]))
    {
      var p := Specialists(x.c)[k];
      SignalMapFrom(x.c, l, p);
      var i :| 0 <= i < |l| && l[i].sender == p && C.SignalOf(x.c, l[i]) == Some(SignalMap(x.c, l)[p]);
      assert log[i] == l[i];
      EntrySays(x, log, k, i);
    }
  }

  lemma SlotsGrow(x: Inputs, log: seq<Envelope>, log': seq<Envelope>, m: map<Id, Signal>)
    requires |x.analyses| == |Specialists(x.c)| && OwnSlots(x, log, m) && log <= log'
    ensures OwnSlots(x, log', m)
  {
    assert forall i | 0 <= i < |log| :: log'[i] == log[i];
    assert forall p | EvaluatedIn(log, p) :: EvaluatedIn(log', p);
    assert forall p | VotedIn(log, p) :: VotedIn(log', p);
  }

  /** In every in-order run, held or not and forced or not. */
  lemma {:induction false} DecidesOnOwnSlots(x: Inputs, es: seq<Event>)
    requires Admissible(x) && OrderedRun(x, es).Some? && OrderedRun(x, es).value.sys.coord.decided.Some?
    ensures OwnSlots(x, OrderedRun(x, es).value.sys.log, JsMap.View(OrderedRun(x, es).value.sys.coord.decided.value))
  {
    OrderedInvRun(x, es);
    if es != [] {
      var before := es[..|es| - 1];
      var o, e, o' := OrderedRun(x, before).value, es[|es| - 1], OrderedRun(x, es).value;
      OrderedInvRun(x, before);
      if o.sys.coord.decided.Some? {
        DecidesOnOwnSlots(x, before);
        DecidedStays(x, o, e);
        StepKeepsOrdered(x, o, e);
        SlotsGrow(x, o.sys.log, o'.sys.log, JsMap.View(o.sys.coord.decided.value));
      } else {
        NewlyDecided(x, o, e);
        ReadSlots(x, o'.sys.log, o'.coordRead);
      }
    }
  }

  // ---- Between the worst and the best ----

  ghost function Entries(x: Inputs, signals: seq<Signal>): seq<(Id, Signal)>
    requires |x.analyses| == |Specialists(x.c)| == |signals|
  {
    seq(|signals|, k requires 0 <= k < |signals| => (Specialists(x.c)[k], signals[k]))
  }

  lemma EntriesView(x: Inputs, signals: seq<Signal>)
    requires Admissible(x) && |x.analyses| == |signals|
    ensures var m := Entries(x, signals);
      && JsMap.Distinct(m) && JsMap.View(m).Keys == SetOf(Specialists(x.c))
      && forall k | 0 <= k < |signals| :: JsMap.View(m)[Specialists(x.c)[k]] == signals[k]
  {
    var m := Entries(x, signals);
    SpecialistsAre(x.c);
    forall k | 0 <= k < |signals|
      ensures Specialists(x.c)[k] in JsMap.View(m) && JsMap.View(m)[Specialists(x.c)[k]] == signals[k]
    {
      JsMap.ViewCut(m, k);
      assert m[k] == (Specialists(x.c)[k], signals[k]);
    }
    forall p | p in JsMap.View(m) ensures p in SetOf(Specialists(x.c)) {
      JsMap.ViewKeys(m, p);
      var i :| 0 <= i < |m| && m[i].0 == p;
      assert p == Specialists(x.c)[i];
    }
  }

  lemma {:induction false} EntriesValues(m: seq<(Id, Signal)>, signals: seq<Signal>)
    requires |m| == |signals| && forall k | 0 <= k < |m| :: m[k].1 == signals[k]
    ensures JsMap.Values(m) == signals
  {
    if m != [] {
      EntriesValues(m[1..], signals[1..]);
      assert signals == [signals[0]] + signals[1..];
    }
  }

  /** A specialist can be released: no other one's id is the empty string, whose Evaluations a
      worker ignores. */
  predicate MayVote(c: C.Config, k: nat)
    requires k < |Specialists(c)|
  {
    "" in Specialists(c) ==> Specialists(c)[k] == ""
  }

  lemma VotersMayVote(x: Inputs, o: OrderedSys, k: nat)
    requires Admissible(x) && OrderedInv(x, o) && k < |x.analyses| && VotedIn(o.sys.log, Specialists(x.c)[k])
    ensures MayVote(x.c, k)
  {
    var p, n := Specialists(x.c)[k], o.sys.nodes[k];
    assert OrderedNode(x, o.sys.log, k, n, o.read[k]) && NodeInv(x.c, x.id, o.sys.log, p, n);
    assert p in Specialists(x.c);
    PeersAreTheOthers(x.c, p, "");
  }

  /** No better, and no worse, than either thing a specialist may have in its slot. */
  ghost predicate Below(x: Inputs, minimum: real, low: seq<Signal>)
    requires |x.analyses| == |Specialists(x.c)|
  {
    |low| == |x.analyses| && forall k | 0 <= k < |low| ::
      Rank(low[k], minimum) <= Rank(EvaluationSlot(x, k), minimum) &&
      (MayVote(x.c, k) ==> Rank(low[k], minimum) <= Rank(VoteSlot(x, k), minimum))
  }

  ghost predicate Above(x: Inputs, minimum: real, high: seq<Signal>)
    requires |x.analyses| == |Specialists(x.c)|
  {
    |high| == |x.analyses| && forall k | 0 <= k < |high| ::
      Rank(high[k], minimum) >= Rank(EvaluationSlot(x, k), minimum) &&
      (MayVote(x.c, k) ==> Rank(high[k], minimum) >= Rank(VoteSlot(x, k), minimum))
  }

  /** An unforced decision, held or not. */
  ghost predicate Unforced(x: Inputs, hints: Option<Hints>, es: seq<Event>) {
    && Admissible(x) && x.c.strategy == CreatePolicyStrategy(hints)
    && OrderedRun(x, es).Some? && OrderedRun(x, es).value.sys.coord.decided.Some? && !OrderedRun(x, es).value.sys.forced
  }

  ghost function ActionOf(x: Inputs, hints: Option<Hints>, es: seq<Event>): Action
    requires Unforced(x, hints, es)
  {
    Decide(RulesOf(hints), JsMap.Values(OrderedRun(x, es).value.sys.coord.decided.value)).action
  }

  lemma SlotsAreEither(x: Inputs, hints: Option<Hints>, es: seq<Event>, k: nat)
    requires Unforced(x, hints, es) && k < |x.analyses|
    ensures var m := JsMap.View(OrderedRun(x, es).value.sys.coord.decided.value);
      && m.Keys == SetOf(Specialists(x.c)) && Specialists(x.c)[k] in m
      && (m[Specialists(x.c)[k]] == EvaluationSlot(x, k) ||
          (MayVote(x.c, k) && m[Specialists(x.c)[k]] == VoteSlot(x, k)))
  {
    var o := OrderedRun(x, es).value;
    OrderedInvRun(x, es);
    if VotedIn(o.sys.log, Specialists(x.c)[k]) { VotersMayVote(x, o, k); }
    DecidesOnOwnSlots(x, es);
    UnforcedIsFull(x, es);
    assert Specialists(x.c)[k] in SetOf(Specialists(x.c));
  }

  ghost predicate RanksFrom(x: Inputs, minimum: real, low: seq<Signal>, m: map<Id, Signal>)
    requires |low| == |x.analyses| == |Specialists(x.c)|
  {
    forall k | 0 <= k < |low| && Specialists(x.c)[k] in m ::
      Rank(low[k], minimum) <= Rank(m[Specialists(x.c)[k]], minimum)
  }

  ghost predicate RanksUpTo(x: Inputs, minimum: real, m: map<Id, Signal>, high: seq<Signal>)
    requires |high| == |x.analyses| == |Specialists(x.c)|
  {
    forall k | 0 <= k < |high| && Specialists(x.c)[k] in m ::
      Rank(m[Specialists(x.c)[k]], minimum) <= Rank(high[k], minimum)
  }

  lemma SlotsBetween(x: Inputs, hints: Option<Hints>, es: seq<Event>, low: seq<Signal>, high: seq<Signal>)
    requires Unforced(x, hints, es)
    requires Below(x, RulesOf(hints).minimumConfidence, low) && Above(x, RulesOf(hints).minimumConfidence, high)
    ensures var m := JsMap.View(OrderedRun(x, es).value.sys.coord.decided.value);
      && m.Keys == SetOf(Specialists(x.c))
      && RanksFrom(x, RulesOf(hints).minimumConfidence, low, m)
      && RanksUpTo(x, RulesOf(hints).minimumConfidence, m, high)
  {
    UnforcedIsFull(x, es);
    forall k: nat | k < |x.analyses| { SlotsAreEither(x, hints, es, k); }
  }

  /** A full Map whose slots all rank at least as `low` decides at least as high. */
  lemma AtLeastLow(x: Inputs, p: Rules, m: seq<(Id, Signal)>, low: seq<Signal>)
    requires Admissible(x) && |low| == |x.analyses|
    requires JsMap.Distinct(m) && JsMap.View(m).Keys == SetOf(Specialists(x.c))
    requires RanksFrom(x, p.minimumConfidence, low, JsMap.View(m))
    ensures Level(Decide(p, low).action) <= Level(Decide(p, JsMap.Values(m)).action)
  {
    EntriesView(x, low);
    EntriesValues(Entries(x, low), low);
    forall q | q in JsMap.View(Entries(x, low))
      ensures Rank(JsMap.View(Entries(x, low))[q], p.minimumConfidence) <= Rank(JsMap.View(m)[q], p.minimumConfidence)
    {
      var k :| 0 <= k < |x.analyses| && Specialists(x.c)[k] == q;
    }
    DecideMonotoneOnMaps(p, Entries(x, low), m);
  }

  lemma AtMostHigh(x: Inputs, p: Rules, m: seq<(Id, Signal)>, high: seq<Signal>)
    requires Admissible(x) && |high| == |x.analyses|
    requires JsMap.Distinct(m) && JsMap.View(m).Keys == SetOf(Specialists(x.c))
    requires RanksUpTo(x, p.minimumConfidence, JsMap.View(m), high)
    ensures Level(Decide(p, JsMap.Values(m)).action) <= Level(Decide(p, high).action)
  {
    EntriesView(x, high);
    EntriesValues(Entries(x, high), high);
    forall q | q in JsMap.View(m)
      ensures Rank(JsMap.View(m)[q], p.minimumConfidence) <= Rank(JsMap.View(Entries(x, high))[q], p.minimumConfidence)
    {
      var k :| 0 <= k < |x.analyses| && Specialists(x.c)[k] == q;
    }
    DecideMonotoneOnMaps(p, m, Entries(x, high));
  }

  /** Whatever the hold lets in, the decision lies between those on any worse and any better
      choice of slots. */
  lemma DecisionIsBetween(x: Inputs, hints: Option<Hints>, es: seq<Event>, low: seq<Signal>, high: seq<Signal>)
    requires Unforced(x, hints, es)
    requires Below(x, RulesOf(hints).minimumConfidence, low) && Above(x, RulesOf(hints).minimumConfidence, high)
    ensures Level(Decide(RulesOf(hints), low).action) <= Level(ActionOf(x, hints, es))
         <= Level(Decide(RulesOf(hints), high).action)
  {
    OrderedInvRun(x, es);
    SlotsBetween(x, hints, es, low, high);
    AtLeastLow(x, RulesOf(hints), OrderedRun(x, es).value.sys.coord.decided.value, low);
    AtMostHigh(x, RulesOf(hints), OrderedRun(x, es).value.sys.coord.decided.value, high);
  }

  /** Only a quorum of full turnout lets a run decide unforced. */
  lemma UnforcedNeedsQuorum(x: Inputs, hints: Option<Hints>, es: seq<Event>)
    requires Unforced(x, hints, es)
    ensures FullQuorum(x.c)
  {
    var s := OrderedRun(x, es).value.sys.coord;
    OrderedInvRun(x, es);
    UnforcedIsFull(x, es);
    assert C.DecisionStands(x.c, s);
    SpecialistsAre(x.c);
    DistinctSize(Specialists(x.c));
    JsMap.ViewSize(s.decided.value);
    assert |JsMap.View(s.decided.value).Keys| == |JsMap.View(s.decided.value)|;
  }

  // ---- When it makes no difference ----

  /** The analyses whose Vote counts as their Evaluation does. */
  predicate Steady(a: W.Analysis, minimum: real) {
    minimum > 1.0 ||
    ((minimum <= 0.0 || a.confidence >= minimum) &&
     (a.objection || a.recommendation in {"APPROVE", "ALLOW", "REJECT", "DENY", "DECLINE", "FAIL", "BLOCK", "VETO"}))
  }

  /** An Evaluation and the Vote that overwrites it rank alike exactly for a steady analysis. */
  lemma SteadyIff(x: Inputs, k: nat, minimum: real)
    requires k < |x.analyses| && x.analyses[k].recommendation == ToUpper(x.analyses[k].recommendation)
    ensures Rank(EvaluationSlot(x, k), minimum) == Rank(VoteSlot(x, k), minimum) <==> Steady(x.analyses[k], minimum)
  {
    var a := x.analyses[k];
    RecordedVoteCounts(Some(W.VoteOf(a)), minimum);
    assert ToUpper("APPROVE") == "APPROVE" && ToUpper("REJECT") == "REJECT";
    assert ToUpper("BLOCK") == "BLOCK" && ToUpper("REVIEW") == "REVIEW";
    W.EvaluationSubmits(x.id, a);
    assert Qualifies(EvaluationSlot(x, k), minimum) <==>
           minimum <= 0.0 || (minimum <= 1.0 && a.confidence >= minimum);
  }

  ghost function Evaluations(x: Inputs): seq<Signal> {
    seq(|x.analyses|, k requires 0 <= k < |x.analyses| => EvaluationSlot(x, k))
  }

  /** If every analysis is steady, an unforced run decides the action that the Evaluations
      alone decide, whatever the hold lets in and however the run interleaves. */
  lemma SteadyRunsAgree(x: Inputs, hints: Option<Hints>, es: seq<Event>)
    requires Unforced(x, hints, es)
    requires forall k | 0 <= k < |x.analyses| ::
      x.analyses[k].recommendation == ToUpper(x.analyses[k].recommendation) &&
      Steady(x.analyses[k], RulesOf(hints).minimumConfidence)
    ensures ActionOf(x, hints, es) == Decide(RulesOf(hints), Evaluations(x)).action
  {
    forall k | 0 <= k < |x.analyses|
      ensures Rank(EvaluationSlot(x, k), RulesOf(hints).minimumConfidence) ==
              Rank(VoteSlot(x, k), RulesOf(hints).minimumConfidence)
    {
      SteadyIff(x, k, RulesOf(hints).minimumConfidence);
    }
    DecisionIsBetween(x, hints, es, Evaluations(x), Evaluations(x));
  }
}
