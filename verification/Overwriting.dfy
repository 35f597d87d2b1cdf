/** The suspend demo taken to its limits: any choice of specialists can have their Votes read
    during the hold, so the decision is settled exactly if the worst and the best choice agree. */
module Overwriting {
  import opened Wrappers
  import opened Messages
  import opened Policy
  import opened PolicyLaws
  import opened Session
  import opened Ordered
  import opened Confluence
  import opened Stranding
  import opened Suspension
  import JsMap
  import C = Coordinator
  import W = Worker

  // ---- The last word of a specialist ----

  lemma OneMore(log: seq<Envelope>, i: nat, p: Id)
    requires i < |log|
    ensures VotedIn(log[..i + 1], p) <==> VotedIn(log[..i], p) || (log[i].sender == p && log[i].msg.VoteMsg?)
  {
    assert log[..i + 1] == log[..i] + [log[i]];
    Appended(log[..i], log[i]);
  }

  /** Reading an entry that carries a signal of specialist `k`. */
  lemma Speaks(x: Inputs, log: seq<Envelope>, i: nat, k: nat)
    requires Admissible(x) && LogInv(x.c, x.id, log) && OrderedLog(x, log) && i < |log| && k < |x.analyses|
    requires log[i].sender == Specialists(x.c)[k] && C.SignalOf(x.c, log[i]).Some?
    ensures C.SignalOf(x.c, log[i]).value ==
            if VotedIn(log[..i + 1], Specialists(x.c)[k]) then VoteSlot(x, k) else EvaluationSlot(x, k)
  {
    var p := Specialists(x.c)[k];
    EntrySays(x, log, k, i);
    SpecialistsAre(x.c);
    assert p in Specialists(x.c);
    OneMore(log, i, p);
    if log[i].msg.EvaluationMsg? { NotYetVoted(x.c, log, i); }
  }

  lemma NotYetVoted(c: C.Config, log: seq<Envelope>, i: nat)
    requires EvaluatesFirst(c, log) && i < |log| && log[i].msg.EvaluationMsg? && log[i].sender != c.self
    ensures !VotedIn(log[..i], log[i].sender)
  {
    assert forall j | 0 <= j < i :: log[..i][j] == log[j];
  }

  /** Reading any other entry. */
  lemma SaysNothing(x: Inputs, log: seq<Envelope>, i: nat, k: nat)
    requires Admissible(x) && LogInv(x.c, x.id, log) && i < |log| && k < |x.analyses|
    requires !(log[i].sender == Specialists(x.c)[k] && C.SignalOf(x.c, log[i]).Some?)
    ensures VotedIn(log[..i + 1], Specialists(x.c)[k]) <==> VotedIn(log[..i], Specialists(x.c)[k])
  {
    SpecialistsAre(x.c);
    assert Specialists(x.c)[k] in Specialists(x.c) && Authentic(x.c, x.id, log[i]);
    OneMore(log, i, Specialists(x.c)[k]);
  }

  lemma SlotTaken(c: C.Config, log: seq<Envelope>, i: nat, p: Id)
    requires i < |log|
    ensures var before, after := SignalMap(c, log[..i]), SignalMap(c, log[..i + 1]);
      if log[i].sender == p && C.SignalOf(c, log[i]).Some?
      then p in after && after[p] == C.SignalOf(c, log[i]).value
      else (p in after <==> p in before) && (p in before ==> after[p] == before[p])
  {
    SignalMapStep(c, log, i);
  }

  /** What the coordinator holds of a specialist after reading: its Vote if it has cast one. */
  lemma {:induction false} LastWord(x: Inputs, log: seq<Envelope>, i: nat, k: nat)
    requires Admissible(x) && LogInv(x.c, x.id, log) && OrderedLog(x, log) && i <= |log| && k < |x.analyses|
    requires Specialists(x.c)[k] in SignalMap(x.c, log[..i])
    ensures var p := Specialists(x.c)[k];
      SignalMap(x.c, log[..i])[p] == if VotedIn(log[..i], p) then VoteSlot(x, k) else EvaluationSlot(x, k)
  {
    if i > 0 {
      var p, j := Specialists(x.c)[k], i - 1;
      SlotTaken(x.c, log, j, p);
      if log[j].sender == p && C.SignalOf(x.c, log[j]).Some? {
        Speaks(x, log, j, k);
      } else {
        SaysNothing(x, log, j, k);
        LastWord(x, log, j, k);
      }
    }
  }

  // ---- Into the hold ----

  /** A run that the runtime would allow. */
  ghost predicate Allowed(x: Inputs, es: seq<Event>)
    requires |x.analyses| == |Specialists(x.c)|
  {
    OrderedRun(x, es).Some? && FairRun(x, es)
  }

  /** Nobody speaks but the specialists in `votes`, by index. */
  ghost predicate Spoken(x: Inputs, s: Sys, read: seq<nat>, votes: set<nat>)
    requires |x.analyses| == |Specialists(x.c)|
  {
    && |s.nodes| == |read| == |x.analyses|
    && (forall k: nat | k < |x.analyses| ::
          EvaluatedIn(s.log, Specialists(x.c)[k]) && (VotedIn(s.log, Specialists(x.c)[k]) <==> k in votes))
    && (forall k: nat | k < |x.analyses| :: Quietly(s.nodes[k], read[k], k in votes))
  }

  /** The worker has evaluated, and has submitted a Vote only if it has spoken. */
  ghost predicate Quietly(n: Node, read: nat, spoken: bool) {
    read >= 1 && !n.busy.Evaluating? && (n.w.voted ==> spoken || n.busy.CastingVote?)
  }

  /** The coordinator is in the hold. */
  ghost predicate Held(x: Inputs, o: OrderedSys, votes: set<nat>)
    requires |x.analyses| == |Specialists(x.c)|
  {
    && Spoken(x, o.sys, o.read, votes) && !o.sys.forced && o.coordRead >= 1
    && o.sys.coord.phase == C.Holding && o.sys.coord.committed && o.sys.coord.decided.None?
  }

  lemma LastReportSuspends(x: Inputs, s: C.State)
    requires Admissible(x) && Suspends(x.c) && FullQuorum(x.c) && Armed(x, s, |x.analyses| - 1)
    ensures var i := |x.analyses| - 1;
      var s' := C.Deliver(x.c, s, Envelope(Specialists(x.c)[i], W.EvaluationOf(x.id, x.analyses[i])));
      s'.phase == C.Suspending && s'.committed && s'.decided == s.decided
  {
    var i := |x.analyses| - 1;
    var p := Specialists(x.c)[i];
    var e := Envelope(p, W.EvaluationOf(x.id, x.analyses[i]));
    SpecialistsAre(x.c);
    assert p in Specialists(x.c) && p !in Specialists(x.c)[..i];
    C.DeliverIs(x.c, s, e);
    JsMap.PutNew(s.signals, p, C.SignalOf(x.c, e).value);
    assert C.MayCommit(x.c, C.Recorded(s, p, C.SignalOf(x.c, e).value), false);
  }

  lemma AllEvaluated(x: Inputs, log: seq<Envelope>, k: nat)
    requires |x.analyses| == |Specialists(x.c)| && k < |x.analyses| && LogIs(x, log, |x.analyses|)
    ensures EvaluatedIn(log, Specialists(x.c)[k])
    ensures forall p :: !VotedIn(log, p)
  {
    assert log[k + 1] == Envelope(Specialists(x.c)[k], W.EvaluationOf(x.id, x.analyses[k]));
    NotOpenYet(x, log, |x.analyses|);
  }

  ghost predicate Reported(x: Inputs, o: OrderedSys)
    requires |x.analyses| == |Specialists(x.c)|
  {
    && |o.read| == |o.sys.nodes| == |x.analyses| && LogIs(x, o.sys.log, |x.analyses|)
    && (forall j | 0 <= j < |x.analyses| :: Staged(o.sys.nodes[j], o.read[j]))
    && !o.sys.forced && o.coordRead >= 1
  }

  lemma ReportedIsSpoken(x: Inputs, o: OrderedSys)
    requires |x.analyses| == |Specialists(x.c)| && Reported(x, o)
    ensures Spoken(x, o.sys, o.read, {})
  {
    forall k: nat | k < |x.analyses| { AllEvaluated(x, o.sys.log, k); }
  }

  /** The last report makes the coordinator suspend the session. */
  lemma ReportAll(x: Inputs) returns (es: seq<Event>)
    requires Admissible(x) && Suspends(x.c) && FullQuorum(x.c)
    ensures Allowed(x, es) && Reported(x, OrderedRun(x, es).value)
    ensures var s := OrderedRun(x, es).value.sys.coord; s.phase == C.Suspending && s.committed && s.decided.None?
  {
    var n := |x.analyses|;
    var before := ReadSome(x, n, n - 1);
    var o := OrderedRun(x, before).value;
    assert o.sys.log[n].sender == Specialists(x.c)[n - 1];
    assert o.sys.log[n] == Envelope(Specialists(x.c)[n - 1], W.EvaluationOf(x.id, x.analyses[n - 1]));
    LastReportSuspends(x, o.sys.coord);
    OrderedInvRun(x, before);
    Extend(x, before, ToCoordinator(n));
    es := before + [ToCoordinator(n)];
  }

  lemma Hold(x: Inputs) returns (es: seq<Event>)
    requires Admissible(x) && Suspends(x.c) && FullQuorum(x.c)
    ensures Allowed(x, es) && Held(x, OrderedRun(x, es).value, {})
  {
    var before := ReportAll(x);
    var o := OrderedRun(x, before).value;
    ReportedIsSpoken(x, o);
    Extend(x, before, CoordinatorSettles(true));
    es := before + [CoordinatorSettles(true)];
    assert OrderedRun(x, es).value.sys.log == o.sys.log;
  }

  // ---- Votes during the hold ----

  /** A worker without anything left to read has voted. */
  lemma ReadsThenVotes(x: Inputs, o: OrderedSys, votes: set<nat>, k: nat)
    requires Admissible(x) && OrderedInv(x, o) && Held(x, o, votes)
    requires k < |x.analyses| && MayVote(x.c, k) && o.sys.nodes[k].busy.Idle? && o.read[k] == |o.sys.log|
    ensures o.sys.nodes[k].w.voted
  {
    var p, n, log := Specialists(x.c)[k], o.sys.nodes[k], o.sys.log;
    assert OrderedNode(x, log, k, n, o.read[k]) && NodeInv(x.c, x.id, log, p, n);
    assert log[..o.read[k]] == log && p in Specialists(x.c);
    forall q | q in n.w.peers ensures q in n.w.seen {
      PeersAreTheOthers(x.c, p, q);
      var j :| 0 <= j < |Specialists(x.c)| && Specialists(x.c)[j] == q;
    }
  }

  /** Reading anything but the Proposal starts no Evaluation, and a Vote only by submitting it. */
  lemma ReadIsQuiet(c: C.Config, k: nat, n: Node, read: nat, e: Envelope, a: W.Analysis, spoken: bool)
    requires k < |Specialists(c)| && Quietly(n, read, spoken) && n.busy.Idle? && !e.msg.Proposal?
    ensures Quietly(DeliverTo(c, k, n, e, a), read + 1, spoken)
  {
  }

  lemma ReadIsSpoken(x: Inputs, s: Sys, t: Sys, read: seq<nat>, votes: set<nat>, k: nat, n: Node)
    requires |x.analyses| == |Specialists(x.c)| && Spoken(x, s, read, votes) && k < |x.analyses|
    requires t.log == s.log && t.nodes == s.nodes[k := n] && Quietly(n, read[k] + 1, k in votes)
    ensures Spoken(x, t, read[k := read[k] + 1], votes)
  {
    var read' := read[k := read[k] + 1];
    forall j: nat | j < |x.analyses| ensures Quietly(t.nodes[j], read'[j], j in votes) {
      assert Quietly(s.nodes[j], read[j], j in votes);
    }
  }

  lemma ReadKeepsHeld(x: Inputs, o: OrderedSys, votes: set<nat>, k: nat)
    requires Admissible(x) && OrderedInv(x, o) && Held(x, o, votes)
    requires k < |x.analyses| && o.sys.nodes[k].busy.Idle? && o.read[k] < |o.sys.log|
    ensures Held(x, OrderedStep(x, o, ToWorker(k, o.read[k], x.analyses[k])), votes)
  {
    var read, n, a := o.read[k], o.sys.nodes[k], x.analyses[k];
    var entry, e := o.sys.log[read], ToWorker(k, read, a);
    assert Quietly(n, read, k in votes) && !entry.msg.Proposal?;
    ReadIsQuiet(x.c, k, n, read, entry, a, k in votes);
    ReadShape(x, o, e);
    var o', n' := OrderedStep(x, o, e), DeliverTo(x.c, k, n, entry, a);
    ReadIsSpoken(x, o.sys, o'.sys, o.read, votes, k, n');
  }

  /** Worker `k` reads on until it has its Vote to cast. */
  lemma {:induction false} ReadOn(x: Inputs, es: seq<Event>, votes: set<nat>, k: nat) returns (fs: seq<Event>)
    requires Admissible(x) && k < |x.analyses| && MayVote(x.c, k) && k !in votes
    requires Allowed(x, es) && Held(x, OrderedRun(x, es).value, votes)
    ensures Allowed(x, fs) && Held(x, OrderedRun(x, fs).value, votes)
    ensures OrderedRun(x, fs).value.sys.nodes[k].busy.CastingVote?
    decreases |OrderedRun(x, es).value.sys.log| - OrderedRun(x, es).value.read[k]
  {
    var o := OrderedRun(x, es).value;
    OrderedInvRun(x, es);
    fs := es;
    if o.sys.nodes[k].busy.Idle? {
      assert OrderedNode(x, o.sys.log, k, o.sys.nodes[k], o.read[k]);
      if o.read[k] == |o.sys.log| {
        ReadsThenVotes(x, o, votes, k);
      } else {
        var e := ToWorker(k, o.read[k], x.analyses[k]);
        ReadKeepsHeld(x, o, votes, k);
        Extend(x, es, e);
        ReadShape(x, o, e);
        fs := ReadOn(x, es + [e], votes, k);
      }
    }
  }

  lemma CastShape(x: Inputs, o: OrderedSys, k: nat)
    requires |o.read| == |o.sys.nodes| == |x.analyses| == |Specialists(x.c)|
    requires k < |x.analyses| && o.sys.nodes[k].busy.CastingVote?
    ensures var o' := OrderedStep(x, o, WorkerSettles(k, true)); var n := o.sys.nodes[k];
      && o'.sys.log == o.sys.log + [Envelope(Specialists(x.c)[k], n.busy.vote)]
      && o'.sys.nodes == o.sys.nodes[k := n.(busy := Idle)] && o'.read == o.read
      && o'.sys.coord == o.sys.coord && o'.coordRead == o.coordRead && o'.sys.forced == o.sys.forced
  {
  }

  lemma VoteIsHeard(x: Inputs, log: seq<Envelope>, votes: set<nat>, k: nat, vote: Message, j: nat)
    requires Admissible(x) && k < |x.analyses| && j < |x.analyses| && vote.VoteMsg?
    requires EvaluatedIn(log, Specialists(x.c)[j]) && (VotedIn(log, Specialists(x.c)[j]) <==> j in votes)
    ensures var log' := log + [Envelope(Specialists(x.c)[k], vote)];
      EvaluatedIn(log', Specialists(x.c)[j]) && (VotedIn(log', Specialists(x.c)[j]) <==> j in votes + {k})
  {
    SpecialistsAre(x.c);
    Appended(log, Envelope(Specialists(x.c)[k], vote));
  }

  lemma CastKeepsHeld(x: Inputs, o: OrderedSys, votes: set<nat>, k: nat)
    requires Admissible(x) && OrderedInv(x, o) && Held(x, o, votes)
    requires k < |x.analyses| && o.sys.nodes[k].busy.CastingVote?
    ensures Held(x, OrderedStep(x, o, WorkerSettles(k, true)), votes + {k})
  {
    var vote := o.sys.nodes[k].busy.vote;
    assert NodeInv(x.c, x.id, o.sys.log, Specialists(x.c)[k], o.sys.nodes[k]);
    var o' := OrderedStep(x, o, WorkerSettles(k, true));
    CastShape(x, o, k);
    CastIsSpoken(x, o.sys, o'.sys, o.read, votes, k, vote);
  }

  lemma CastIsSpoken(x: Inputs, s: Sys, t: Sys, read: seq<nat>, votes: set<nat>, k: nat, vote: Message)
    requires Admissible(x) && k < |x.analyses| && vote.VoteMsg? && Spoken(x, s, read, votes)
    requires t.log == s.log + [Envelope(Specialists(x.c)[k], vote)]
    requires t.nodes == s.nodes[k := s.nodes[k].(busy := Idle)]
    ensures Spoken(x, t, read, votes + {k})
  {
    forall j: nat | j < |x.analyses| { VoteIsHeard(x, s.log, votes, k, vote, j); }
    forall j: nat | j < |x.analyses| ensures Quietly(t.nodes[j], read[j], j in votes + {k}) {
      assert Quietly(s.nodes[j], read[j], j in votes);
    }
  }

  lemma Cast(x: Inputs, es: seq<Event>, votes: set<nat>, k: nat) returns (fs: seq<Event>)
    requires Admissible(x) && k < |x.analyses| && MayVote(x.c, k) && k !in votes
    requires Allowed(x, es) && Held(x, OrderedRun(x, es).value, votes)
    ensures Allowed(x, fs) && Held(x, OrderedRun(x, fs).value, votes + {k})
  {
    var read := ReadOn(x, es, votes, k);
    var o := OrderedRun(x, read).value;
    OrderedInvRun(x, read);
    CastKeepsHeld(x, o, votes, k);
    Extend(x, read, WorkerSettles(k, true));
    fs := read + [WorkerSettles(k, true)];
  }

  function Upto(votes: set<nat>, m: nat): set<nat> {
    set k | k in votes && k < m
  }

  lemma UptoStep(votes: set<nat>, m: nat)
    ensures Upto(votes, 0) == {} && m !in Upto(votes, m)
    ensures Upto(votes, m + 1) == Upto(votes, m) + if m in votes then {m} else {}
  {
  }

  ghost predicate MayAllVote(x: Inputs, votes: set<nat>)
    requires |x.analyses| == |Specialists(x.c)|
  {
    forall k | k in votes && k < |x.analyses| :: MayVote(x.c, k)
  }

  /** The specialists of `votes` below `m` cast their Votes. */
  lemma {:induction false} CastAll(x: Inputs, votes: set<nat>, m: nat) returns (es: seq<Event>)
    requires Admissible(x) && Suspends(x.c) && FullQuorum(x.c) && m <= |x.analyses| && MayAllVote(x, votes)
    ensures Allowed(x, es) && Held(x, OrderedRun(x, es).value, Upto(votes, m))
  {
    if m == 0 {
      UptoStep(votes, 0);
      es := Hold(x);
    } else {
      var k := m - 1;
      UptoStep(votes, k);
      es := CastAll(x, votes, k);
      if k in votes {
        var cast := Upto(votes, k);
        es := Cast(x, es, cast, k);
      }
    }
  }

  // ---- Out of the hold ----

  lemma HeldReads(x: Inputs, o: OrderedSys, votes: set<nat>)
    requires Admissible(x) && OrderedInv(x, o) && Held(x, o, votes) && o.coordRead < |o.sys.log|
    ensures var o' := OrderedStep(x, o, ToCoordinator(o.coordRead)); Held(x, o', votes) && o'.sys.log == o.sys.log
  {
    C.DeliverIs(x.c, o.sys.coord, o.sys.log[o.coordRead]);
    assert !o.sys.log[o.coordRead].msg.Proposal?;
  }

  /** The coordinator reads whatever is left, still held. */
  lemma {:induction false} CatchUp(x: Inputs, es: seq<Event>, votes: set<nat>) returns (fs: seq<Event>)
    requires Admissible(x) && Allowed(x, es) && Held(x, OrderedRun(x, es).value, votes)
    ensures Allowed(x, fs) && Held(x, OrderedRun(x, fs).value, votes)
    ensures OrderedRun(x, fs).value.coordRead == |OrderedRun(x, fs).value.sys.log|
    decreases |OrderedRun(x, es).value.sys.log| - OrderedRun(x, es).value.coordRead
  {
    var o := OrderedRun(x, es).value;
    OrderedInvRun(x, es);
    fs := es;
    if o.coordRead < |o.sys.log| {
      HeldReads(x, o, votes);
      Extend(x, es, ToCoordinator(o.coordRead));
      fs := CatchUp(x, es + [ToCoordinator(o.coordRead)], votes);
    }
  }

  /** After the hold, `decide` reads the Map as it has become. */
  lemma Resume(x: Inputs, es: seq<Event>, votes: set<nat>) returns (fs: seq<Event>)
    requires Admissible(x) && Allowed(x, es) && Held(x, OrderedRun(x, es).value, votes)
    ensures Allowed(x, fs) && !OrderedRun(x, fs).value.sys.forced
    ensures OrderedRun(x, fs).value.sys.coord.decided == Some(OrderedRun(x, es).value.sys.coord.signals)
  {
    Extend(x, es, CoordinatorSettles(true));
    var resuming := es + [CoordinatorSettles(true)];
    Extend(x, resuming, CoordinatorSettles(true));
    fs := resuming + [CoordinatorSettles(true)];
  }

  /** The choice of slots in which the specialists in `votes` count by their Votes. */
  ghost function Choice(x: Inputs, votes: set<nat>): seq<Signal> {
    seq(|x.analyses|, k requires 0 <= k < |x.analyses| => if k in votes then VoteSlot(x, k) else EvaluationSlot(x, k))
  }

  lemma HeldSlot(x: Inputs, o: OrderedSys, votes: set<nat>, k: nat)
    requires Admissible(x) && OrderedInv(x, o) && Held(x, o, votes) && o.coordRead == |o.sys.log|
    requires k < |x.analyses|
    ensures var m := JsMap.View(o.sys.coord.signals);
      Specialists(x.c)[k] in m && m[Specialists(x.c)[k]] == Choice(x, votes)[k]
  {
    var log, p := o.sys.log, Specialists(x.c)[k];
    SpecialistsAre(x.c);
    assert p in Specialists(x.c) && log[..|log|] == log;
    EvaluationIsRecorded(x, log, |log|, p);
    LastWord(x, log, |log|, k);
  }

  /** A Map of the specialists is known by its slots. */
  lemma KnownBySlots(x: Inputs, m: map<Id, Signal>, choice: seq<Signal>)
    requires Admissible(x) && |choice| == |x.analyses| && forall p | p in m :: p in Specialists(x.c)
    requires forall k: nat | k < |choice| :: Specialists(x.c)[k] in m && m[Specialists(x.c)[k]] == choice[k]
    ensures m == JsMap.View(Entries(x, choice))
  {
    var chosen := JsMap.View(Entries(x, choice));
    EntriesView(x, choice);
    forall p | p in Specialists(x.c) ensures p in m && p in chosen && m[p] == chosen[p] {
      var k :| 0 <= k < |Specialists(x.c)| && Specialists(x.c)[k] == p;
      assert p in SetOf(Specialists(x.c));
    }
    assert m.Keys == chosen.Keys;
  }

  lemma HeldMap(x: Inputs, o: OrderedSys, votes: set<nat>)
    requires Admissible(x) && OrderedInv(x, o) && Held(x, o, votes) && o.coordRead == |o.sys.log|
    ensures JsMap.Distinct(o.sys.coord.signals)
    ensures JsMap.View(o.sys.coord.signals) == JsMap.View(Entries(x, Choice(x, votes)))
  {
    var m, choice := JsMap.View(o.sys.coord.signals), Choice(x, votes);
    forall k: nat | k < |x.analyses| { HeldSlot(x, o, votes, k); }
    KnownBySlots(x, m, choice);
  }

  // ---- Main results ----

  lemma ChoiceUpto(x: Inputs, votes: set<nat>)
    ensures Choice(x, Upto(votes, |x.analyses|)) == Choice(x, votes)
  {
  }

  /** The hold ends with the chosen slots in the coordinator's Map. */
  lemma HeldChoice(x: Inputs, votes: set<nat>) returns (es: seq<Event>)
    requires Admissible(x) && Suspends(x.c) && FullQuorum(x.c) && MayAllVote(x, votes)
    ensures Allowed(x, es) && Held(x, OrderedRun(x, es).value, Upto(votes, |x.analyses|))
    ensures var signals := OrderedRun(x, es).value.sys.coord.signals;
      JsMap.Distinct(signals) && JsMap.View(signals) == JsMap.View(Entries(x, Choice(x, votes)))
  {
    var some := Upto(votes, |x.analyses|);
    var cast := CastAll(x, votes, |x.analyses|);
    es := CatchUp(x, cast, some);
    OrderedInvRun(x, es);
    var o := OrderedRun(x, es).value;
    HeldMap(x, o, some);
    ChoiceUpto(x, votes);
  }

  lemma DecideChoice(x: Inputs, p: Rules, m: C.Signals, choice: seq<Signal>)
    requires Admissible(x) && |choice| == |x.analyses| && JsMap.Distinct(m)
    requires JsMap.View(m) == JsMap.View(Entries(x, choice))
    ensures Decide(p, JsMap.Values(m)) == Decide(p, choice)
  {
    EntriesView(x, choice);
    EntriesValues(Entries(x, choice), choice);
    DecideIgnoresInsertionOrder(p, m, Entries(x, choice));
  }

  /** Every choice of specialists that may vote is realised: some allowed run of the suspend demo
      decides on their Votes and on the Evaluations of the others. */
  lemma AnyChoiceDecides(x: Inputs, hints: Option<Hints>, votes: set<nat>) returns (es: seq<Event>)
    requires Admissible(x) && x.c.strategy == CreatePolicyStrategy(hints)
    requires Suspends(x.c) && FullQuorum(x.c) && MayAllVote(x, votes)
    ensures Unforced(x, hints, es) && FairRun(x, es)
    ensures JsMap.View(OrderedRun(x, es).value.sys.coord.decided.value) == JsMap.View(Entries(x, Choice(x, votes)))
    ensures ActionOf(x, hints, es) == Decide(RulesOf(hints), Choice(x, votes)).action
  {
    var held := HeldChoice(x, votes);
    var m, choice := OrderedRun(x, held).value.sys.coord.signals, Choice(x, votes);
    es := Resume(x, held, Upto(votes, |x.analyses|));
    DecideChoice(x, RulesOf(hints), m, choice);
  }

  /** The choices that rank lowest and highest, specialist by specialist. */
  ghost function Lowering(x: Inputs, minimum: real): set<nat>
    requires |x.analyses| == |Specialists(x.c)|
  {
    set k: nat | k < |x.analyses| && MayVote(x.c, k) &&
      Rank(VoteSlot(x, k), minimum) < Rank(EvaluationSlot(x, k), minimum)
  }

  ghost function Raising(x: Inputs, minimum: real): set<nat>
    requires |x.analyses| == |Specialists(x.c)|
  {
    set k: nat | k < |x.analyses| && MayVote(x.c, k) &&
      Rank(VoteSlot(x, k), minimum) > Rank(EvaluationSlot(x, k), minimum)
  }

  ghost function Worst(x: Inputs, minimum: real): seq<Signal>
    requires |x.analyses| == |Specialists(x.c)|
  {
    Choice(x, Lowering(x, minimum))
  }

  ghost function Best(x: Inputs, minimum: real): seq<Signal>
    requires |x.analyses| == |Specialists(x.c)|
  {
    Choice(x, Raising(x, minimum))
  }

  ghost predicate Agree(x: Inputs, hints: Option<Hints>)
    requires |x.analyses| == |Specialists(x.c)|
  {
    forall es, fs | Unforced(x, hints, es) && Unforced(x, hints, fs) ::
      ActionOf(x, hints, es) == ActionOf(x, hints, fs)
  }

  lemma HeldBetween(x: Inputs, hints: Option<Hints>, es: seq<Event>)
    requires Unforced(x, hints, es)
    ensures var p := RulesOf(hints); var m := p.minimumConfidence;
      && FullQuorum(x.c)
      && Level(Decide(p, Worst(x, m)).action) <= Level(ActionOf(x, hints, es)) <= Level(Decide(p, Best(x, m)).action)
  {
    var m := RulesOf(hints).minimumConfidence;
    var low, high := Worst(x, m), Best(x, m);
    UnforcedNeedsQuorum(x, hints, es);
    assert Below(x, m, low) && Above(x, m, high);
    DecisionIsBetween(x, hints, es, low, high);
  }

  /** Both extremes are decided by some run. */
  lemma Extremes(x: Inputs, hints: Option<Hints>) returns (worst: seq<Event>, best: seq<Event>)
    requires Admissible(x) && x.c.strategy == CreatePolicyStrategy(hints) && Suspends(x.c) && FullQuorum(x.c)
    ensures Unforced(x, hints, worst) && FairRun(x, worst) && Unforced(x, hints, best) && FairRun(x, best)
    ensures var p := RulesOf(hints);
      && ActionOf(x, hints, worst) == Decide(p, Worst(x, p.minimumConfidence)).action
      && ActionOf(x, hints, best) == Decide(p, Best(x, p.minimumConfidence)).action
  {
    var m := RulesOf(hints).minimumConfidence;
    worst := AnyChoiceDecides(x, hints, Lowering(x, m));
    best := AnyChoiceDecides(x, hints, Raising(x, m));
  }

  /** The worst and the best choice of slots are decided alike. */
  ghost predicate Settled(x: Inputs, hints: Option<Hints>)
    requires |x.analyses| == |Specialists(x.c)|
  {
    var p := RulesOf(hints);
    Decide(p, Worst(x, p.minimumConfidence)).action == Decide(p, Best(x, p.minimumConfidence)).action
  }

  lemma SettledAgree(x: Inputs, hints: Option<Hints>, es: seq<Event>, fs: seq<Event>)
    requires Unforced(x, hints, es) && Unforced(x, hints, fs) && Settled(x, hints)
    ensures ActionOf(x, hints, es) == ActionOf(x, hints, fs)
  {
    HeldBetween(x, hints, es);
    HeldBetween(x, hints, fs);
  }

  lemma AgreeSettled(x: Inputs, hints: Option<Hints>)
    requires Admissible(x) && x.c.strategy == CreatePolicyStrategy(hints) && Suspends(x.c) && FullQuorum(x.c)
    requires Agree(x, hints)
    ensures Settled(x, hints)
  {
    var worst, best := Extremes(x, hints);
  }

  /** Unforced runs of the suspend demo decide one action, whatever the hold lets in, exactly if
      none can decide (no quorum at full turnout) or the worst and the best choice of slots are
      decided alike. */
  lemma HeldRunsAgreeIff(x: Inputs, hints: Option<Hints>)
    requires Admissible(x) && x.c.strategy == CreatePolicyStrategy(hints) && Suspends(x.c)
    ensures Agree(x, hints) <==> !FullQuorum(x.c) || Settled(x, hints)
  {
    if Agree(x, hints) && FullQuorum(x.c) { AgreeSettled(x, hints); }
    forall es, fs | Unforced(x, hints, es) && Unforced(x, hints, fs)
      ensures FullQuorum(x.c) && (Settled(x, hints) ==> ActionOf(x, hints, es) == ActionOf(x, hints, fs))
    {
      UnforcedNeedsQuorum(x, hints, es);
      if Settled(x, hints) { SettledAgree(x, hints, es, fs); }
    }
  }
}
