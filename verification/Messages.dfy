/** What travels over the session: envelopes with an authentic sender. */
module Messages {
  import opened Wrappers
  import opened Sequences
  import opened Policy

  type Id = string

  datatype Message =
    | Proposal(proposalId: Option<string>)
    | EvaluationMsg(proposalId: Option<string>, recommendation: Option<string>, confidence: Option<Number>)
    | VoteMsg(proposalId: Option<string>, vote: Option<string>)
    | ObjectionMsg(proposalId: Option<string>, severity: Option<string>)
    | Commitment(action: Action, outcomePositive: bool)

  datatype Envelope = Envelope(sender: Id, msg: Message)

  /** JavaScript truthiness of an optional string. */
  predicate Truthy(s: Option<string>) {
    s.Some? && s.value != ""
  }

  /** The declared participants other than `self`, in order. */
  function Others(participants: seq<Id>, self: Id): seq<Id> {
    if participants == [] then []
    else (if participants[0] == self then [] else [participants[0]]) + Others(participants[1..], self)
  }

  lemma {:induction false} OthersAre(participants: seq<Id>, self: Id)
    ensures forall p :: p in Others(participants, self) <==> p in participants && p != self
    ensures NoDuplicates(participants) ==> NoDuplicates(Others(participants, self))
  {
    if participants != [] {
      var rest := participants[1..];
      OthersAre(rest, self);
      assert participants == [participants[0]] + rest;
      if NoDuplicates(participants) {
        assert NoDuplicates(rest) by {
          assert forall i | 0 <= i < |rest| :: rest[i] == participants[i + 1];
        }
        assert participants[0] !in rest by {
          assert forall i | 0 <= i < |rest| :: rest[i] == participants[i + 1];
        }
      }
    }
  }
}
