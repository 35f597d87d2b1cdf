# Verified model of the MACP playground

A Dafny model of the parts of the MACP playground whose correctness is hard to see from one
function: the two-phase deliberation between specialist workers and the risk coordinator, the
policy decision, the scenario template compiler with its static checker, `!include` expansion,
the token minter with its cache key, the registry cache, the process table and the callback port.

State that the source updates in place is held in classes whose methods are proved equal to a
transition function on the old state; runs are sequences of such transitions, and the results are
lemmas about every run. Expressions and recursive traversals are functions with lemmas.

| module | models |
|---|---|
| `Sequences`, `JsMap`, `StringOrder`, `Json`, `Wrappers`, `Messages` | sequences, JavaScript's ordered Map and default sort, JSON values, options, envelopes |
| `Policy`, `PolicyLaws` | the policy strategy and what it promises |
| `Coordinator`, `Worker` | the two kinds of participant, as transition functions and as classes |
| `Session` | any number of specialists, the coordinator and the log; deliveries delayed, reordered, repeated or lost |
| `Ordered`, `Confluence`, `Termination`, `Stranding`, `Suspension`, `Overwriting` | the same with in-order delivery: what is decided, that it ends, where it can stop, what a deadline and the suspend demo can change |
| `DeepMerge`, `Placeholders`, `Templates` | template merging, the stateful regular expression, substitution and its static check |
| `Includes`, `IncludeLaws` | include expansion against unrestricted inlining and against the include graph |
| `CacheKey`, `KeyLaws`, `Minter` | the cache key's text, its injectivity, and the minter's runs |
| `Registry`, `Supervisor`, `PortHash` | the registry cache, the process table, the callback port |

The runtime is an environment: it appends accepted envelopes to a log, with authentic senders, and
accepts or refuses every submission as it likes, except that it accepts no Evaluation once a Vote
is in the log (agents/langgraph_worker/main.py:132-137). The deadline may fire at any time after it
is armed. A clock value, a model's answer, a service's response and whether a call succeeds are
parameters of the event.

## Where the code differs from its comments or the natural guess

The model follows the code.

- The deadline's comment says it commits with whatever has arrived
  (src/example-agents/runtime/risk-decider.worker.ts:99-101). Under `none` and `unanimous` the quorum
  is the full turnout, so it cannot; `PolicyLaws.DeadlineCanForce` says exactly when it can.
- The coordinator waits for one signal per recipient, not for votes, and normally commits on the last
  Evaluation (risk-decider.worker.ts:118-127, 168).
- If the runtime refused a specialist's Evaluation, the coordinator decides on that specialist's Vote
  (`Confluence.DecidesOnSlots`). Under the phase rule that needs a forced commit: fair, unforced runs decide
  on Evaluations alone, and all alike (`Termination.FairRunsDecideAlike`).
- During the suspend demo's hold, Votes still overwrite Evaluations in the Map that `decide` reads
  afterwards (risk-decider.worker.ts:130-146, 193-214); `Suspension.SteadyIff` and
  `Suspension.SteadyRunsAgree` say for which analyses that changes nothing, and
  `Overwriting.HeldRunsAgreeIff` exactly when all such runs decide alike.
- A worker that is given the Proposal twice evaluates twice; only such a second Evaluation can meet the
  phase rule (`Session.EvaluationsPrecedeVoting`).
- Two things keep a specialist from voting for ever (`Termination.QuietRunIsComplete`): a peer whose id is
  the empty string, because a worker ignores an Evaluation without a sender, and a peer whose Evaluation
  was refused. Without a forced commit only the first can happen; a forced commit opens Voting early, and
  `Stranding.CanStrandIff` and `Stranding.HintsThatStrand` say exactly when it can strand specialists.
- An ABSTAIN Vote is recorded as REVIEW and stays in the denominator (`Confluence.RecordedVoteCounts`).
- A worker whose analysis says ACCEPT or PASS evaluates APPROVE and votes REJECT
  (`Worker.EvaluationAgainstVote`).
- A tie at a threshold of one half approves (`PolicyLaws.TieApprovedIff`).
- Raising the confidence floor can raise the outcome (`PolicyLaws.FloorRaisesIff`,
  `PolicyLaws.FloorCanRaiseIff`), and the signal classes make up the Map only if no confidence is NaN (`PolicyLaws.FloorSplitsEvaluations`).
- `deepMerge` is associative on exactly the inputs of `DeepMerge.AssociativeIff`: an object, a non-object
  and an object may meet at a path only if the last absorbs the first.
- An entry file named `.json` is parsed as YAML at the top but as JSON when included
  (`IncludeLaws.JsonEntryDiffersIff` says when that matters).
- Invalidating the registry during a load starts a second one and lets the first fill the cache
  (`Registry.InvalidateOverlaps`, `Registry.OverlapServesStale`).
- Launching a key again before a `stop` of it is over spawns a child whose entry the old child's exit, or the
  returning `stop`, takes away (`Supervisor.LaunchIsLostIff`); a run id that extends another with a colon
  makes the prefix scan return a stranger's records (`Supervisor.MixedUpIff`).

## Model

| member | source | states |
|---|---|---|
| Session.BarrierSafety | agents/langgraph_worker/main.py:140-163 | in every run, for any number of specialists and any delay, reordering or duplication: a specialist that has voted has its own Evaluation answered and every other specialist's accepted, and in the log no specialist's Vote precedes another's Evaluation |
| Session.EvaluationsPrecedeVoting | agents/langgraph_worker/main.py:132-137 | once any Vote is accepted, the coordinator's included, every specialist's Evaluation has been answered unless the deadline forced the commit; one still under way is a repeat |
| Session.FullMapIsEveryone | src/example-agents/runtime/risk-decider.worker.ts:61-61 | a Map of distinct senders as large as the recipient list holds exactly the recipients, and none is larger |
| Session.RunKeepsFull | src/example-agents/runtime/risk-decider.worker.ts:168-168 | in every run, with any deliveries, a commit that was not forced and the Map it decided on have a signal from every recipient |
| Session.InvRun | src/example-agents/runtime/risk-decider.worker.ts:162-171 | the invariant linking barrier state, signal Map and log holds in every reachable state |
| Session.LogSaysDecision | src/example-agents/runtime/risk-decider.worker.ts:214-242 | in every run, what the log has from the coordinator is its one decision on the Map it decided on: the Vote it stands for, the action, and whether the outcome is positive |
| Termination.FairRunsDecideAlike | src/example-agents/runtime/risk-decider.worker.ts:162-242 | confluence: any two in-order runs with fair refusals, without a forced commit or the suspend demo, decide on the same Map and vote and commit the same, however they interleave |
| Termination.FairRunsDecideOnEvaluations | src/example-agents/runtime/risk-decider.worker.ts:115-128 | and that Map is exactly each specialist's Evaluation, never a Vote |
| Termination.CommittedMeansAccepted | agents/langgraph_worker/main.py:132-137 | a fair run that committed without being forced had accepted every specialist's Evaluation |
| Confluence.DecidesOnSlots | src/example-agents/runtime/risk-decider.worker.ts:115-146 | with in-order delivery and without the suspend demo, forced or not, each slot of the Map given to `decide` is its specialist's Evaluation if accepted, else its Vote |
| Confluence.ConfluentReports | src/example-agents/runtime/risk-decider.worker.ts:99-110 | forced runs included: two runs whose decided Maps have the same senders, with the same of them accepted Evaluations, decide alike |
| Confluence.DecidesOnContributions | src/example-agents/runtime/risk-decider.worker.ts:162-171 | without a forced commit there is such a slot for every specialist |
| Confluence.AllAcceptedMeansEvaluations | src/example-agents/runtime/risk-decider.worker.ts:162-214 | with every Evaluation accepted the Map is exactly each specialist's Evaluation, never a Vote |
| Confluence.Confluent | src/example-agents/runtime/risk-decider.worker.ts:214-242 | any two runs accepting the same specialists' Evaluations decide on the same Map, and vote and commit the same action |
| Confluence.EntryContributes | src/example-agents/runtime/risk-decider.worker.ts:115-146 | what the coordinator reads before everyone has reported is what its sender contributes: a Vote of a specialist whose Evaluation was accepted comes too late to replace it |
| Confluence.RecordedVoteCounts | src/example-agents/runtime/risk-decider.worker.ts:133-142 | how a recorded Vote ranks under any confidence floor: APPROVE on top, ABSTAIN as an unqualified evaluation, anything else as a rejection, and all unqualified under a floor above one |
| Confluence.RecordedEvaluationCounts | src/example-agents/runtime/risk-decider.worker.ts:118-124 | how a recorded Evaluation ranks under any floor, a missing confidence counting as zero |
| Confluence.RecordedObjectionCounts | src/example-agents/runtime/risk-decider.worker.ts:151-156 | how a recorded Objection ranks: critical only if it says so, `high` when it says nothing |
| Termination.StepDrops | agents/langgraph_worker/main.py:249-253 | every in-order step of the whole session lowers one global measure |
| Termination.RunsAreFinite | agents/langgraph_worker/main.py:140-163 | every in-order run has at most quadratically many steps in the number of specialists |
| Termination.RunCompletes | src/example-agents/runtime/risk-decider.worker.ts:162-176 | every fair in-order run can be carried on, fairly, until no step is left |
| Termination.QuietRunIsComplete | src/example-agents/runtime/risk-decider.worker.ts:162-176 | of every in-order run with no step left, forced or not: a forced run has committed, a committed coordinator has finished, and a specialist has voted exactly when every other one has a non-empty id and an accepted Evaluation; with fair refusals it has committed exactly when forced or when full turnout is a quorum, and unless forced every Evaluation was accepted |
| Termination.UnforcedRunVotes | agents/langgraph_worker/main.py:140-163 | without a forced commit every specialist has voted, but for the peers of one whose id is empty |
| Session.ForcedMeansCommitted | src/example-agents/runtime/risk-decider.worker.ts:102-110 | in every run, a deadline that forced its way has committed |
| Stranding.Stranded | agents/langgraph_worker/main.py:140-147 | once Voting opened without a specialist's Evaluation, no continuation of the run, with any deliveries, makes another specialist vote |
| Stranding.CanStrandIff | src/example-agents/runtime/risk-decider.worker.ts:99-110 | some fair in-order run gets there exactly when all specialists but one are enough for a quorum |
| Stranding.HintsThatStrand | src/example-agents/runtime/policy-strategy.ts:44-48 | for the repository's strategies: exactly with two specialists or more and a threshold policy whose threshold a turnout of all but one meets |
| Suspension.DecidesOnOwnSlots | src/example-agents/runtime/risk-decider.worker.ts:193-214 | in every in-order run, suspended or not and forced or not, a slot of the decided Map holds its specialist's accepted Evaluation or its accepted Vote |
| Suspension.SteadyIff | src/example-agents/runtime/risk-decider.worker.ts:133-142 | an Evaluation and the Vote that overwrites it rank alike exactly for an analysis that qualifies and is an Objection or says APPROVE, ALLOW or a word of refusal, or under a floor above one |
| Suspension.DecisionIsBetween | src/example-agents/runtime/risk-decider.worker.ts:200-214 | whatever the hold lets in, an unforced decision lies between those on any worse and any better choice of slots |
| Suspension.SteadyRunsAgree | src/example-agents/runtime/risk-decider.worker.ts:200-214 | if every analysis is of that kind, an unforced run decides the action that the Evaluations alone decide, suspended or not |
| Suspension.UnforcedNeedsQuorum | src/example-agents/runtime/risk-decider.worker.ts:168-169 | an unforced decision needs a policy under which full turnout is a quorum |
| Overwriting.LastWord | src/example-agents/runtime/risk-decider.worker.ts:130-146 | what the coordinator holds of a specialist after reading a stretch of the log is its Vote if that stretch has one, else its Evaluation |
| Overwriting.AnyChoiceDecides | src/example-agents/runtime/risk-decider.worker.ts:193-214 | every choice of specialists that may vote is realised: some fair run of the suspend demo decides on their Votes and on the others' Evaluations |
| Overwriting.HeldRunsAgreeIff | src/example-agents/runtime/risk-decider.worker.ts:189-214 | the unforced runs of the suspend demo decide one action exactly if full turnout is no quorum or the worst and the best choice of slots are decided alike |
| Termination.CommitsWhenThresholdAllows | src/example-agents/runtime/policy-strategy.ts:44-48 | for the repository's strategies such a run has committed exactly when forced, or for `none`, `unanimous` or a threshold of at most one |
| Coordinator.CommitsAtMostOnce | src/example-agents/runtime/risk-decider.worker.ts:162-270 | over every interleaving of handlers, deadlines and completions: at most one suspend, vote, commit and cancel, in that order, and `committed` is set exactly when a call was made |
| Coordinator.DecidesWithQuorum | src/example-agents/runtime/risk-decider.worker.ts:169-214 | when `decide` runs its Map is non-empty and still meets the quorum, after the suspend hold too, and vote and commit say what it decided |
| Coordinator.StepKeeps | src/example-agents/runtime/risk-decider.worker.ts:118-160 | senders are never forgotten, a decided Map never changes, calls are only added, and a cancel answers exactly a refused commit |
| Coordinator.StrategyGrows | src/example-agents/runtime/policy-strategy.ts:44-48 | a quorum that is met stays met when signals arrive |
| Coordinator.IgnoresForeign | src/example-agents/runtime/risk-decider.worker.ts:116-116 | its own messages and those without a proposal id change nothing |
| Coordinator.RecordsSender | src/example-agents/runtime/risk-decider.worker.ts:118-157 | every other Evaluation, Vote or Objection takes its sender's slot and no other |
| Coordinator.CommitClearsDeadline | src/example-agents/runtime/risk-decider.worker.ts:87-112 | in every run the commit clears the last armed deadline, and the first proposal id is kept |
| Coordinator.SuspendSteps | src/example-agents/runtime/risk-decider.worker.ts:189-212 | the hold follows exactly a suspend that succeeded; a failed suspend and every resume lead to the decision |
| Coordinator.RiskDecider.HandleProposal | src/example-agents/runtime/risk-decider.worker.ts:87-113 | the whole new state: the first truthy proposal id is kept and arms one deadline |
| Coordinator.RiskDecider.HandleEvaluation | src/example-agents/runtime/risk-decider.worker.ts:115-128 | the whole new state of an Evaluation, ignored from itself or without a proposal id |
| Coordinator.RiskDecider.HandleVote | src/example-agents/runtime/risk-decider.worker.ts:130-146 | the whole new state of a Vote, recorded as an evaluation of confidence one |
| Coordinator.RiskDecider.HandleObjection | src/example-agents/runtime/risk-decider.worker.ts:148-160 | the whole new state of an Objection, severity `high` when missing |
| Coordinator.RiskDecider.HandleDeadline | src/example-agents/runtime/risk-decider.worker.ts:102-110 | the deadline forces a commit only if none happened and some signal was recorded |
| Coordinator.RiskDecider.AttemptCommit | src/example-agents/runtime/risk-decider.worker.ts:162-212 | the whole new state of `tryCommit` up to its first awaited call |
| Coordinator.RiskDecider.DecideAndVote | src/example-agents/runtime/risk-decider.worker.ts:214-230 | the decision is made on the Map of that moment and its vote is sent |
| Coordinator.RiskDecider.Continue | src/example-agents/runtime/risk-decider.worker.ts:193-269 | the whole new state after each awaited call completes or fails |
| Worker.EvaluationAgainstVote | agents/langgraph_worker/main.py:31-44 | which recommendation words make Evaluation and Vote agree or disagree, the four evaluation words, the clamped confidence |
| Worker.EvaluationSubmits | agents/langgraph_worker/main.py:229-232 | the submitted Evaluation: the analysis' own confidence cut off at zero and one, and which recommendation each word stands for, in any case |
| Worker.VoteSubmits | agents/crewai_worker/main.py:260-273 | the staged Vote: APPROVE exactly for APPROVE, ALLOW and REVIEW without an Objection |
| Worker.Specialist.MaybeVoteNow | agents/langgraph_worker/main.py:140-163 | the barrier: the vote is submitted, once, exactly when staged and every peer was seen |
| Worker.Specialist.HandleProposal | agents/crewai_worker/main.py:252-274 | the Evaluation submitted, the staged vote (an Objection is BLOCK and REJECT), the peers, and the vote if the barrier is already open |
| Worker.Specialist.HandlePeerEvaluation | agents/langchain_worker/main.py:242-246 | a peer's Evaluation is recorded and may release the vote |
| PolicyLaws.DecideByRank | src/example-agents/runtime/policy-strategy.ts:50-163 | the action is an independent function of how many signals reach each rank, and the vote approves unless it declines |
| PolicyLaws.DecisionExplains | src/example-agents/runtime/policy-strategy.ts:57-162 | the counts, the rate and the policy name that a decision reports are true of the Map |
| PolicyLaws.StrategyDecides | src/example-agents/runtime/policy-strategy.ts:36-163 | the decision of the strategy made from given hints, in the hints' own fields: when the veto fires, and what the type and threshold make of the evaluations that reach the hinted confidence |
| PolicyLaws.StrategyQuorum | src/example-agents/runtime/policy-strategy.ts:36-48 | the quorum of the strategy made from given hints, in the hints' own fields |
| PolicyLaws.RankOfEvaluation | src/example-agents/runtime/policy-strategy.ts:66-84 | how an evaluation ranks, read off its own confidence and word: at the floor it qualifies, a missing confidence counts as one |
| PolicyLaws.RankOfObjection | src/example-agents/runtime/policy-strategy.ts:54-55 | only an objection of critical severity counts towards the veto |
| PolicyLaws.ToUpperIs | src/example-agents/runtime/policy-strategy.ts:74-77 | words are compared in upper case, letter by letter |
| PolicyLaws.DecideMonotone | src/example-agents/runtime/policy-strategy.ts:50-163 | replacing signals by worse ones never raises the outcome, for every type, threshold, veto setting and floor |
| PolicyLaws.DecideMonotoneOnMaps | src/example-agents/runtime/policy-strategy.ts:50-79 | the same for two Maps with the same senders, whatever their insertion orders |
| PolicyLaws.DecideIgnoresInsertionOrder | src/example-agents/runtime/policy-strategy.ts:51-79 | Maps with equal content are decided alike, reason included |
| PolicyLaws.DecideIgnoresOrder | src/example-agents/runtime/policy-strategy.ts:51-85 | the whole decision depends only on how often each signal occurs |
| PolicyLaws.DecideAntitoneInThreshold | src/example-agents/runtime/policy-strategy.ts:123-146 | a higher threshold never raises the outcome |
| PolicyLaws.MajorityMeansMore | src/example-agents/runtime/policy-strategy.ts:121-131 | approval under a threshold above one half: approvals outnumber all other signals that did not abstain |
| PolicyLaws.TieApprovedIff | src/example-agents/runtime/policy-strategy.ts:121-131 | some Map is approved without a strict majority exactly under a threshold of at most one half, where a tie approves, unless the veto declines every Map |
| PolicyLaws.UnanimousIsStrongest | src/example-agents/runtime/policy-strategy.ts:88-112 | unanimous approval of a non-empty Map is approval under every type with threshold at most one |
| PolicyLaws.ClassesPartition | src/example-agents/runtime/policy-strategy.ts:66-85 | each count of `decide` is a difference of rank counts, so the classes are disjoint |
| PolicyLaws.FloorSplitsEvaluations | src/example-agents/runtime/policy-strategy.ts:67-78 | qualified, disqualified and objections make up the Map exactly when no confidence is NaN |
| PolicyLaws.FloorRaisesIff | src/example-agents/runtime/policy-strategy.ts:66-78 | for every Map and type: a higher floor raises the outcome exactly when no veto fires and it drops the rejections that kept the decision at a decline |
| PolicyLaws.FloorCanRaiseIff | src/example-agents/runtime/policy-strategy.ts:53-72 | known before any Map exists: raising the floor can raise some outcome exactly unless the veto needs no objection or a majority needs no approval |
| PolicyLaws.FloorIsNotMonotone | src/example-agents/runtime/policy-strategy.ts:66-72 | an instance under the default policy: a Map whose outcome rises with the confidence floor |
| PolicyLaws.FullTurnout | src/example-agents/runtime/policy-strategy.ts:44-48 | full turnout passes exactly when the threshold is ignored or at most one; the required count then lies in 1..n, and no smaller turnout passes otherwise |
| PolicyLaws.DeadlineCanForce | src/example-agents/runtime/policy-strategy.ts:44-48 | a partial turnout passes exactly for threshold policies with at least one signal and enough for the threshold |
| DeepMerge.DeepMerge | src/compiler/template-resolver.ts:64-88 | the loop computes the key-by-key merge |
| DeepMerge.MergeByPath | src/compiler/template-resolver.ts:64-88 | at every path the result is what the two sides combine to there, unless the override put a non-object on the way |
| DeepMerge.MergeEmpty | src/compiler/template-resolver.ts:64-67 | merging in an empty override changes nothing |
| DeepMerge.MergeSelf | src/compiler/template-resolver.ts:67-88 | merging an object into itself changes nothing |
| DeepMerge.MergeTwice | src/compiler/template-resolver.ts:67-88 | merging the same override twice is merging it once |
| DeepMerge.AbsorbsIff | src/compiler/template-resolver.ts:71-84 | exactly which overrides swallow a base whole |
| DeepMerge.AssociativeIff | src/compiler/template-resolver.ts:73-84 | three layers merge alike in both groupings exactly when no path meets object, non-object, object that does not absorb the first |
| Placeholders.MatchAtIff | src/compiler/template-resolver.ts:5-5 | the greedy matcher succeeds exactly on the substrings that the pattern's grammar admits |
| Placeholders.MatchesAreAll | src/compiler/template-resolver.ts:123-135 | the left-to-right scan finds exactly the positions where the pattern matches: none is skipped |
| Placeholders.ExactIsOnlyMatch | src/compiler/template-resolver.ts:6-6 | an exact placeholder is the string's only match |
| Placeholders.ExactIff | src/compiler/template-resolver.ts:6-6 | a string is an exact placeholder just if the pattern's grammar says so |
| Placeholders.PathChars | src/compiler/template-resolver.ts:5-5 | the characters of a placeholder's path, one by one |
| Placeholders.SpaceChars | src/compiler/template-resolver.ts:5-5 | the white space allowed around it, one by one |
| Placeholders.ReassemblesBack | src/compiler/template-resolver.ts:125-135 | literals and placeholders concatenate back to the template |
| Placeholders.SpliceThrowsIff | src/compiler/template-resolver.ts:125-133 | a replacement throws exactly when some match's own path has none; inserted text is never matched |
| Placeholders.SpliceAt | src/compiler/template-resolver.ts:125-135 | of a replacement that does not throw: the length of the text, and where every literal and the value of every match's own path stand in it |
| Placeholders.GlobalRegExp.Exec | src/compiler/template-resolver.ts:5-5 | the next match from `lastIndex`, which moves behind it or resets |
| Placeholders.GlobalRegExp.Test | src/compiler/template-resolver.ts:123-123 | whether a match follows `lastIndex`, which it moves |
| Placeholders.GlobalRegExp.CollectMatches | src/compiler/template-resolver.ts:124-125 | all matches are collected before any replacement runs, and `lastIndex` ends at zero |
| Placeholders.GlobalRegExp.Assemble | src/compiler/template-resolver.ts:125-135 | the loop over the collected matches yields the spliced text or throws |
| Placeholders.GlobalRegExp.Replace | src/compiler/template-resolver.ts:124-135 | every match is replaced once, and `lastIndex` is zero afterwards, also when a replacement throws |
| Templates.ResolvePath | src/compiler/template-resolver.ts:90-102 | the loop finds what walking the split path finds |
| Templates.PathExists | scripts/scenario/validate.ts:49-58 | the loop answers whether the split path reaches a value |
| Templates.ReachesIff | scripts/scenario/validate.ts:49-58 | the checker's answer is yes exactly when the resolver's is not `undefined` |
| Sequences.SplitJoins | src/compiler/template-resolver.ts:91-91 | splitting a path loses nothing: its parts, none with a dot, join back to it |
| Templates.PropertyReads | src/compiler/template-resolver.ts:98-98 | what one step of a path reads: an element by its numeral or the length of an array, a field of an object |
| Templates.ArrayIndexIff | src/compiler/template-resolver.ts:98-98 | a name selects element n just if it is the decimal numeral of n |
| Templates.ResolveIff | src/compiler/template-resolver.ts:90-102 | reading a path gives a value just if the split path leads to it property by property |
| Templates.StringFailsIff | src/compiler/template-resolver.ts:109-139 | a string fails exactly when one of its placeholders does not exist, in the exact and in the embedded form |
| Templates.StringCompiles | src/compiler/template-resolver.ts:109-139 | what a string compiles to: an exact placeholder to the value itself, a plain string to itself, any other to its literals with every placeholder's text in place |
| Templates.LookupShows | src/compiler/template-resolver.ts:126-134 | the text put in for a placeholder is that of the value its path reads |
| Templates.CompiledAt | src/compiler/template-resolver.ts:141-153 | at every place of the template the compiled value has what is compiled from there |
| Templates.ShapeIsKept | src/compiler/template-resolver.ts:141-153 | arrays keep their length, objects their keys, and what is no string stays as it is |
| Templates.CheckerEqualsCompiler | src/compiler/template-resolver.ts:104-154 | for every template and variables, `substitute` throws exactly when some collected placeholder fails `pathExists` |
| Templates.TemplateResolver.SubstituteAll | src/compiler/template-resolver.ts:104-154 | with one shared regular expression the traversal computes the specified value, and `lastIndex` is zero on every entry and exit, throwing or not |
| Templates.TemplateResolver.SubstituteText | src/compiler/template-resolver.ts:109-139 | the same for one string |
| Templates.TemplateResolver.SubstituteItems | src/compiler/template-resolver.ts:141-143 | the same for an array |
| Templates.TemplateResolver.SubstituteFields | src/compiler/template-resolver.ts:145-151 | the same for an object |
| Templates.PlaceholderCollector.Collect | scripts/scenario/validate.ts:30-47 | exactly the template's placeholders join the shared Set, whatever `lastIndex` was |
| Templates.PlaceholderCollector.CollectText | scripts/scenario/validate.ts:32-38 | the `exec` loop adds exactly the paths of the string's matches |
| Templates.InputComesFrom | src/compiler/compiler.service.ts:42-63 | which layer an input comes from: the request, else the template, else the schema property's default |
| Templates.DefaultedInputResolves | src/compiler/compiler.service.ts:42-63 | a one-level `inputs.k` placeholder with a schema default is undefined exactly when a template or request sets `k` to `undefined` explicitly |
| Templates.DefaultedTemplateCompiles | src/compiler/compiler.service.ts:56-74 | a template whose placeholders all have such defaults compiles for every request, if neither template nor request sets such a key to `undefined` |
| Includes.InsideRootIff | src/registry/include-resolver.ts:29-36 | the string boundary test is "packsRoot or below it", by path segments |
| Includes.RelativeLeads | src/registry/include-resolver.ts:29-30 | where a relative include leads: up from the including file's directory, never above the root, and down by the names |
| Includes.AbsoluteLeads | src/registry/include-resolver.ts:30-30 | an absolute include leads to the path it renders, from every file |
| Includes.DotsVanish | src/registry/include-resolver.ts:30-30 | after a slash, `./` and further slashes change nothing |
| Includes.LeadingDotVanishes | src/registry/include-resolver.ts:30-30 | nor does a leading `./` |
| Includes.ExtensionIs | src/registry/include-resolver.ts:38-38 | the extension is what follows the last dot of a name, in lower case |
| Includes.TargetIff | src/registry/include-resolver.ts:25-45 | exactly when an include has a target, and the first of its faults otherwise |
| Includes.TargetStaysInside | src/registry/include-resolver.ts:24-51 | an include that resolves lies inside packsRoot, whatever its argument and wherever its parent lies |
| IncludeLaws.WalksStayInside | src/registry/include-resolver.ts:74-87 | every file that includes reach, however deep, lies inside packsRoot |
| IncludeLaws.LoadIsInlining | src/registry/include-resolver.ts:54-109 | for every entry, a result without a cycle error, value or other error, is that of unrestricted inlining, shared fragments included; for an entry not named `.json` a cycle is reported exactly when inlining never ends |
| IncludeLaws.DocAgrees | src/registry/include-resolver.ts:74-87 | without a cycle error the visited set makes no difference: inlining to a depth of the files left gives the same result |
| IncludeLaws.LoadFileReads | src/registry/include-resolver.ts:54-72 | how a file is read: by its extension, an empty one as blank, an invalid one as an error |
| IncludeLaws.ExpandedAt | src/registry/include-resolver.ts:74-87 | at every place of a document the loaded one has what is loaded from there |
| IncludeLaws.NodeLoads | src/registry/include-resolver.ts:77-83 | scalars load as they are, lists and mappings with as many members and the same keys, an include as the file it leads to |
| IncludeLaws.FailsExactlyOnCycles | src/registry/include-resolver.ts:47-82 | for every entry, if all reachable files and includes resolve, loading fails exactly when a walk of includes from the entry repeats a file, and then with a cycle error |
| IncludeLaws.NeverEndsExactlyOnCycles | src/registry/include-resolver.ts:54-82 | under the same condition, inlining never ends exactly when such a walk repeats a file other than a `.json` entry |
| IncludeLaws.ExpansionIsInlining | src/registry/include-resolver.ts:104-108 | for every entry: with a `.json` entry left out of the visited set, a cycle would be reported exactly when inlining never ends |
| IncludeLaws.JsonEntryDiffersIff | src/registry/include-resolver.ts:54-72 | loading a `.json` entry differs from inlining exactly when a walk of includes returns to it and none repeats any other file |
| IncludeLaws.LoadedWalksAreSimple | src/registry/include-resolver.ts:74-87 | from a file that loads, no walk of includes repeats an included file or meets a visited one |
| IncludeLaws.CycleWalk | src/registry/include-resolver.ts:47-49 | a cycle error is backed by a real walk that repeats a file |
| IncludeLaws.JsonEntryIsDifferent | src/registry/include-resolver.ts:104-109 | an instance: a `.json` entry that is one include of itself is called a cycle although inlining ends |
| CacheKey.StableScopeHash | src/auth/auth-token-minter.service.ts:186-199 | the loop yields the text of the sorted, set fields with sorted arrays |
| CacheKey.ObjectTextInjective | src/auth/auth-token-minter.service.ts:198-198 | the JSON text determines the entries, for arbitrary key and mode strings |
| KeyLaws.QuoteParity | src/auth/auth-token-minter.service.ts:182-184 | two scans of a text that disagree on being inside a string cannot both end outside |
| KeyLaws.KeySplits | src/auth/auth-token-minter.service.ts:182-184 | a key splits into sender and scope text in one way only, whatever the sender holds |
| KeyLaws.CanonicalIsMeaning | src/auth/auth-token-minter.service.ts:188-198 | the canonical form forgets exactly key order, array order and unset fields |
| KeyLaws.KeyIdentifiesRequest | src/auth/auth-token-minter.service.ts:182-199 | two requests share a key exactly when senders are equal and scopes are both absent or equal up to those orders |
| StringOrder.SortSorts | src/auth/auth-token-minter.service.ts:188-188 | the default sort orders its input and loses nothing |
| StringOrder.SortedUnique | src/auth/auth-token-minter.service.ts:193-193 | there is one sorted arrangement of a multiset of strings |
| Minter.SingleFlight | src/auth/auth-token-minter.service.ts:50-64 | in every run with any clock: at most one unsettled request per key, the in-flight table names exactly the unsettled ones, every cached token came from a request of its key |
| Minter.ServedOwnRequest | src/auth/auth-token-minter.service.ts:41-64 | whoever is served gets a token of its own sender and scopes; a hit has more than 10 s left; a request starts only when none of that kind is in flight |
| Minter.FinallyRemovesOwn | src/auth/auth-token-minter.service.ts:59-61 | a settling request takes exactly its own in-flight entry away |
| Minter.ClockRuns | src/auth/auth-token-minter.service.ts:85-93 | with a clock that does not go back, an answered token is cached or within 10 s of expiry, and no request of its key starts before that |
| Minter.OneUsableToken | src/auth/auth-token-minter.service.ts:163-169 | such a clock allows one usable token per sender and scopes, the cached and latest one |
| Minter.HitIsFresh | src/auth/auth-token-minter.service.ts:85-93 | with such a clock a hit is the token of an own request, answered before, read between answer time and expiry less the margin, so a lifetime of ten seconds or less is never reused |
| Minter.AnswerFills | src/auth/auth-token-minter.service.ts:163-169 | an answer with a token fills the cache under its request's key alone, with the lifetime it gives in whole seconds, at least one, or the configured one |
| Minter.FailureFillsNothing | src/auth/auth-token-minter.service.ts:120-161 | every other answer fails the request and leaves the cache alone |
| Minter.TokensAreGiven | src/auth/auth-token-minter.service.ts:163-169 | every token in a run was given, with its time and lifetime, by an answer of that run |
| Minter.HitWasAnswered | src/auth/auth-token-minter.service.ts:85-93 | behind every hit, for any clock, is an answer to an own request, and the hit is read more than the margin before the lifetime that answer gave is over |
| Minter.AuthTokenMinter.MintToken | src/auth/auth-token-minter.service.ts:41-64 | the new cache, in-flight table and requests, and what is served |
| Minter.AuthTokenMinter.ReadCacheEntry | src/auth/auth-token-minter.service.ts:85-93 | a stale entry is deleted, a usable one returned |
| Minter.AuthTokenMinter.Receive | src/auth/auth-token-minter.service.ts:112-180 | every failing answer leaves the cache alone; a success stores the token with its floored lifetime |
| Minter.AuthTokenMinter.Settle | src/auth/auth-token-minter.service.ts:59-61 | the `finally` callback's new state |
| Registry.SingleLoad | src/registry/registry-index.service.ts:24-48 | where invalidations never overlap a load, at most one load runs and the kept promise is set exactly while it does |
| Registry.Serves | src/registry/registry-index.service.ts:24-32 | a cached snapshot was loaded since the last invalidation and less than the TTL ago; TTL zero never serves from cache; a load starts only when none runs |
| Registry.FreshIsServed | src/registry/registry-index.service.ts:25-28 | the latest snapshot since the last invalidation is served while it is younger than the TTL, and then no load starts |
| Registry.InvalidateOverlaps | src/registry/registry-index.service.ts:114-119 | after an invalidation the next call leaves two loads running exactly when one was running |
| Registry.OverlapServesStale | src/registry/registry-index.service.ts:36-39 | the overlapped load then fills the cache with older data and forgets the newer load |
| Registry.RegistryIndex.Snapshot | src/registry/registry-index.service.ts:24-48 | the new fields and what the caller gets |
| Registry.RegistryIndex.LoadDone | src/registry/registry-index.service.ts:36-41 | the new fields when a load succeeds |
| Registry.RegistryIndex.LoadFailed | src/registry/registry-index.service.ts:42-45 | the new fields when a load fails: only the promise is dropped |
| Registry.RegistryIndex.InvalidateCache | src/registry/registry-index.service.ts:114-119 | the new fields after an invalidation |
| Supervisor.OneChildPerKey | src/hosting/launch-supervisor.ts:54-97 | if no key is launched while a child of it that `stop` was called on has not exited or the call has not returned, each key has at most one live child, and a live child is in the table unless a `stop` of it gave up |
| Supervisor.SpawnsBesideIff | src/hosting/launch-supervisor.ts:54-58 | the guard of `launch`: beside a live child of the key it spawns exactly if `stop` was called on that child, and else returns it |
| Supervisor.RemovesOwnOnly | src/hosting/launch-supervisor.ts:202-210 | an exit handler or finishing `stop` never removes another launch's record |
| Supervisor.StartupMarks | src/hosting/launch-supervisor.ts:219-230 | the startup timer makes a tracked, still starting child healthy and changes nothing else |
| Supervisor.RelaunchUntracks | src/hosting/launch-supervisor.ts:154-156 | the exit, or the finishing `stop`, of an earlier child takes the entry of a new one exactly when the two share a key |
| Supervisor.LaunchIsLostIff | src/hosting/launch-supervisor.ts:121-156 | a launch spawns a child whose entry some event already due takes away, exactly when a `stop` called on a child of the key is not over |
| Supervisor.ScanFindsRun | src/hosting/launch-supervisor.ts:106-114 | the prefix scan returns exactly the run's records, in table order, if and only if it meets no key of another run; it meets none if no recorded run id extends, or is extended by, this one with a colon |
| Supervisor.PrefixIff | src/hosting/launch-supervisor.ts:109-109 | for any ids, exactly which keys start with `run:` |
| Supervisor.MixedUpIff | src/hosting/launch-supervisor.ts:106-114 | two different runs can be mixed up exactly if one id extends the other with a colon |
| Supervisor.ColonMisleads | src/hosting/launch-supervisor.ts:28-30 | an instance: a run id extended by a colon is found whatever the participant |
| Supervisor.LaunchSupervisor.LaunchProcess | src/hosting/launch-supervisor.ts:44-100 | the whole new state, or the running record unchanged |
| Supervisor.LaunchSupervisor.StopProcess | src/hosting/launch-supervisor.ts:121-152 | the whole new state of a `stop` until it waits |
| Supervisor.LaunchSupervisor.HandleExit | src/hosting/launch-supervisor.ts:202-210 | the whole new state: record, table, and every `stop` waiting for this child |
| Supervisor.LaunchSupervisor.FinishStop | src/hosting/launch-supervisor.ts:154-156 | the whole new state when a `stop` resumes |
| Supervisor.LaunchSupervisor.AssumeHealthy | src/hosting/launch-supervisor.ts:219-230 | the startup timer marks only a starting record of its key |
| Supervisor.LaunchSupervisor.GetProcessesForRun | src/hosting/launch-supervisor.ts:106-114 | the loop returns the entries under the prefix, in order |
| PortHash.NextCancelCallbackPort | src/hosting/process-example-agent-host.provider.ts:291-302 | the loop is the base-31 polynomial modulo 2^32 in signed form, no intermediate leaves the exact range, and the port lies in base..base+1023 |
| PortHash.SameHashIff | src/hosting/process-example-agent-host.provider.ts:296-300 | equally long participant ids hash alike exactly when their own polynomials agree modulo 2^32, in every run |
| PortHash.SamePortIff | src/hosting/process-example-agent-host.provider.ts:295-301 | two launches of any runs and ids share a port exactly if their polynomials agree modulo 1024, or cancel when the hashes differ in sign |

## Left out

- Floating point: thresholds, confidences, rates and lifetimes are exact reals, with NaN as the only special confidence.
- Text that only explains: the wording of reasons and log lines (decisions carry the branch and its counts), Signal and Progress telemetry, `session.context`.
- Case folding outside ASCII, surrogate pairs in strings other than the port's, and UTF-16 order for characters outside the basic plane.
- Several Proposals: the log holds one; its delivery may be repeated in `Session`, and is read once under in-order delivery.
- Worker shutdown after its vote, and a worker crashing on an unexpected refusal: a worker that no longer acts is a run in which its events stop.
- The order between the deadline and the wall clock: the timer may fire at any moment after it is armed.
- `createPolicyStrategy`'s session-context argument, which `decide` ignores.
- Histories in state: `calls`, `decided`, `forced`, `started`, `settled`, the finished requests and loads are records for stating properties; the source keeps no such fields.
- Key order of plain objects: they are maps, so which of several undefined placeholders is named in the error is not modelled.
- Prototype properties: reading a property of an object or array that it does not own gives `undefined`.
- `extractSchemaDefaults` on a malformed schema: a property description that is no object is skipped, where the source's `in` test may throw.
- `compile` beyond the substitution variables: input validation, launch merging and descriptor assembly.
- YAML and JSON parsing: a file is empty, invalid or a document for each parser, so anchors, duplicate keys, include tags in mapping keys and a syntax error after an include are not modelled; neither are symbolic links or files that change during loading.
- Windows paths: the separator is a slash.
- Scope values other than flags, numbers and lists of strings, and integer-like scope field names, which JSON.stringify would move to the front.
- `mergeScopes`: a single pass over the override.
- Service configuration errors in the minter: a missing base URL is one more failed answer.
- Spawn failures, `error` events, signals, bootstrap files, `stopRun` and shutdown in the supervisor: a launched child has a process id and ends with an exit event.
- Process records as heap objects: a record is found by its number in the list of launches, so aliasing between handlers is by that number.
- gRPC and SDK internals, the analyses themselves, the runtime's policy engine, HTTP controllers, configuration and catalogue listings.
