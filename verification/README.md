# A model of the agent engine

`steps` runs agent conversations as pipeline steps. This project models the part of it that is hardest
to get right and proves what it promises:

- **The conversation engine.** A turn loop over a checkpoint (history, satisfied tools, call counts, trajectory,
  message index, verdict, turns, nudges, summary), driven by an adversarial model: `Conversation.dfy` is the machine,
  one turn at a time, over arbitrary replies and failed requests; `Engine.dfy` is the imperative loop over mutable
  fields, proved to take exactly those steps; `Obligations.dfy` is what every run keeps, `Traces.dfy` a run as an
  onlooker sees it, against which the conversation's own books are proved exact, `Turns.dfy` what one turn leaves
  behind, told from what it met, `Outcomes.dfy` what it comes to, `Windows.dfy` when and where a history is
  compacted, `Progress.dfy` how long talk and repetition can go on. `Failover.dfy` is the cascade that carries one
  conversation from source to source, `Cascade.dfy` what holds of every cascade, and `CascadeCases.dfy` two that do
  less than promised. `History.dfy`, `Compaction.dfy`, `LoopDetect.dfy`, `Dispatch.dfy` and `StepAssert.dfy` are the
  pieces it is built of.
- **Token accounting over a delegation tree.** `Usage.dfy` is one invocation's counters and the chain above it,
  `Bills.dfy` reads what a run costs off the responses it consumed, `Delegation.dfy` proves the meter shows that and
  bounds what a whole tree can spend, and `Accounting.dfy` is the concurrent bookkeeping.
- **The edit matching engine.** `EditDistance.dfy` is the two-row Levenshtein loop against edit scripts,
  `Whitespace.dfy` trimming, `EditFile.dfy` the chain of three matchers and the replacement.
- **CLI-backed steps.** `CliRounds.dfy`: the pooled budget of starts, the ceilings, the merged trajectory.
- **Shared state and small exact algorithms.** `Pins.dfy` (fallback pins with two clocks), `Credentials.dfy` (a cache
  validated by a save counter, under every interleaving), `ReadFile.dfy` and `Lines.dfy` (line paging), `Utf8.dfy`
  (cuts and the binary test, against sections 3 and 4 of RFC 3629), `ShellArg.dfy` (quoting, against sections 2.2.1
  and 2.2.2 of XCU in IEEE 1003.1).

Code that changes fields or loops is a class or a method with a loop, proved equal to a specification function
(`Run`, `Serial`, `Dist`, `Split`, `Replaced`, `Rounds`, ...). What the source promises is then proved of that
function by lemmas.

What lies outside is arbitrary: model replies, tool behaviour, request failures, clocks, token estimates and file
contents are parameters, quantified over.

## Where the code does less than it says

Each of these is proved as stated here, with a concrete case where one fits.

- **A wrap-up request per source, not per step.** A step out of turns makes its one tool-less wrap-up request again on
  every further source a cascade reaches. A cascade makes at most one if and only if no conversation of it has that
  request fail transiently with a usable entry and time left (`Cascades.OneWrapUpUnlessItFailsOver`);
  `CascadeCases.TwoWrapUpRequests` is a cascade that makes two. Turns themselves are bounded across the whole cascade.
- **A verdict nobody looked at.** A turn whose tree is lost leaves before its results are looked at. When the loss is a
  network error it reads as the provider's, the cascade resumes elsewhere, and the step can finish reporting an earlier
  verdict than the last one successfully given (`CascadeCases.VerdictOverlooked`). From then on the step's latch stays
  set, so no later turn of tools counts either (`Cascades.LossIsFinal`). The reported verdict is that of the
  last successful verdict call if and only if that call was not made in such a turn and overlooked
  (`Cascades.VerdictUnlessOverlooked`).
- **An unpaired history handed on.** The same turn's calls are never answered. Every history handed to a source is well
  paired if and only if no conversation resumed from had lost its tree (`Cascades.PairedUnlessLost`).
- **Tools past the token ceiling.** A response received past an invocation's ceiling has its tools run if and only if
  it reports no usage (`Delegation.NoToolsPastTheCeiling`, and a run from the start in
  `Delegation.UnreportedResponseRunsTools`): what is not reported is not counted, so nothing is breached. The spend
  bound therefore asks that every reply reports its usage.
- **The verdict gate and a verdict that is not the turn's last call.** The gate judges the recorded calls with the
  verdict appended again when it is not the last one recorded. Its judgement differs from the record's exactly when the
  contract lacks only its own last entry and this verdict matches it (`StepAssert.GateAgainstTheRecord`,
  `StepAssert.GateCanAcceptAnUnmetRecord`).
- **A compaction that cuts further back.** The comment at `internal/agent/compaction.go:232-236` has the backward walk
  stop at a turn of plain text or at the start of an exchange of tools. The walk steps over the start of an exchange
  too. In a paired history the cut is where the comment has it if and only if the candidate stands in no exchange or
  is the answer to the first turn (`Compaction.CutsAsDescribedExactly`; `Compaction.StepsOverAnExchange` is a history
  where it is not). Either cut is clean.
- **The pool of CLI starts.** The comment in `internal/agent/cli.go:380-393` promises at most `attempts + maxNudges`
  starts. The floor of one start a round lets a message take `attempts + 2 * maxNudges - 1`, and does so from
  `attempts == maxNudges` on; `CliRounds.BoundIsExact` gives the exact most for every number of attempts, and the
  promise holds for every pattern if and only if
  `attempts == 1` (`CliRounds.PromiseHoldsOnlyForOneAttempt`).

## Model

| member | source | states |
|---|---|---|
| `Engine.Engine.RunConversationLoop` | internal/agent/conversation.go:461-601 | the imperative loop ends as the machine does: same exit, same checkpoint, same meter, for every sequence of replies |
| `Engine.Engine.OneTurn` | internal/agent/conversation.go:545-592 | one pass of the loop is one step of the machine, or the exit the machine takes |
| `Engine.Engine.TakeReply` | internal/agent/conversation.go:546-554 | a failed or refused request ends the attempt with nothing appended; a kept one is appended and counted as a turn |
| `Engine.Engine.HandleKept` | internal/agent/conversation.go:556-592 | a reply without calls is an attempt to stop, one with calls a tool turn |
| `Engine.Engine.HandleStopAttempt` | internal/agent/conversation.go:642-680 | order of precedence when the model stops: nudge while something is owed, then the next message, then force a required tool, then finish |
| `Engine.Engine.FinishToolTurn` | internal/agent/conversation.go:614-633 | answers are tracked and appended (each call's own, see `Turns.AnswersFollow`), then the detector reacts; an aborted or lost tool turn leaves before its results are looked at |
| `Engine.Engine.ExecuteCalls` | internal/agent/conversation.go:572-585 | calls are recorded in call order with their success, admitted ones counted, and delegated spend added |
| `Engine.Engine.TrackToolResults` | internal/agent/conversation.go:851-868 | exactly the required tools that succeeded this turn become satisfied, and the turn's last verdict replaces the one held |
| `Engine.Engine.NudgeOwed` | internal/agent/conversation.go:1129-1143 | a nudge is given exactly when something is owed and fewer than five were given, and costs one |
| `Engine.Engine.AdvanceToNext` | internal/agent/conversation.go:1030-1065 | the next message is asked exactly when one is left, and satisfaction is reset to what is carried |
| `Engine.Engine.CarriedSatisfaction` | internal/agent/conversation.go:1079-1090 | only tools already out of calls stay satisfied across a message boundary |
| `Engine.Engine.UnsatisfiedRequiredTools` | internal/agent/conversation.go:914-926 | the required tools not yet satisfied, in order |
| `Engine.Engine.AnswerOutOfTurns` | internal/agent/conversation.go:683-734 | out of turns: failure while a required tool is owed, else one tool-less request whose text is the answer |
| `Engine.Engine.KeepWithinBudget` | internal/agent/conversation.go:949-973 | a response past a ceiling is kept exactly when it holds no calls and the job's own ceiling stands |
| `Engine.Engine.RecordUsage` | internal/agent/usage.go:65-131 | reported tokens are added once; an unreported response counts and breaches nothing |
| `Engine.Engine.MaybeCompact` | internal/agent/compaction.go:102-173 | what compaction does to history, summary, stall flag, reported size and spend, and when it does nothing |
| `Engine.Engine.MaybeWarnWrapUp` | internal/agent/conversation.go:803-816 | the wrap-up warning is appended once |
| `Engine.Engine.constructor` | internal/agent/conversation.go:419-434 | a resumed run starts from the checkpoint and the meter, with no force, no ignored force and a fresh detector |
| `Obligations.StartIsSound` | internal/agent/conversation.go:239-315 | a fresh conversation meets the invariant: first message asked, nothing satisfied, history paired |
| `Obligations.CompactKeeps` | internal/agent/compaction.go:102-173 | compaction keeps the invariant, the pairing and the verdict |
| `Obligations.NudgeKeeps` | internal/agent/conversation.go:1129-1143 | a nudge keeps them and is counted, never past five |
| `Obligations.AdvanceKeeps` | internal/agent/conversation.go:1050-1090 | at a message boundary the only satisfaction carried over was earned before it by a tool whose max_calls is spent |
| `Obligations.StopAttemptKeeps` | internal/agent/conversation.go:642-664 | a finish here means every message asked and every required tool earned; anything else keeps the invariant |
| `Obligations.SatisfyingCallsRan` | internal/agent/conversation.go:851-907 | a call that satisfied a required tool was admitted, ran and succeeded |
| `Obligations.ExecuteKeeps` | internal/agent/tooldispatch.go:29-113 | call counts stay the number of calls that ran, never past a cap |
| `Obligations.TurnVerdictIsLast` | internal/agent/conversation.go:851-868 | the verdict held after a turn is that of the last successful verdict call on record |
| `Obligations.ToolTurnKeeps` | internal/agent/conversation.go:614-633 | a tool turn keeps the invariant; cut short, it leaves exactly its own calls unanswered |
| `Obligations.TakeTurnKeeps` | internal/agent/conversation.go:545-592 | every turn, however it ends, keeps the invariant; every normal finish has met the obligations |
| `Obligations.RunKeeps` | internal/agent/conversation.go:461-601 | over every response sequence from any sound point: turns, nudges and calls on record match the books and stay within their limits, a finish has met its obligations, the verdict is the last one given and the history paired unless the last turn was cut short |
| `Obligations.FreshRunKeeps` | internal/agent/conversation.go:362-378 | the same from the start; the history left is well paired if and only if the last turn was not cut short |
| `Obligations.ResumeKeeps` | internal/agent/conversation.go:419-434 | changing source changes nothing of the checkpoint but the images of its history, so turns, nudges, counts, satisfaction, message index and verdict all carry on, and the invariant with them |
| `Traces.EnteredIffKept` | internal/agent/conversation.go:546-554 | a reply enters the history exactly when its request was made, answered and not refused over a ceiling |
| `Traces.TurnsAreCounted` | internal/agent/conversation.go:488-499 | the turns on the books are the replies that entered the history, turn by turn, and neither charging tokens nor changing source moves them |
| `Traces.CallsAreCounted` | internal/agent/tooldispatch.go:105-113 | the call counts on the books are the calls that were let run, likewise |
| `Traces.NudgesAreCounted` | internal/agent/conversation.go:1129-1143 | the nudges on the books are the nudges put to the model, likewise |
| `Traces.BooksAreExact` | internal/agent/conversation.go:461-601 | over every run such books say what an onlooker counts |
| `Traces.StepDelivers` | internal/agent/conversation.go:1050-1065 | each time the message index moves on, the turn puts the next message to the model and nothing beside it |
| `Traces.MessagesAreDelivered` | internal/agent/conversation.go:1030-1065 | over every run the messages put to the model are the step's own, each once and in order, up to the one reached |
| `Traces.StepVerdicts` | internal/agent/conversation.go:851-868 | a turn's verdict becomes the one held exactly when its results are looked at |
| `Traces.VerdictsOfRun` | internal/agent/conversation.go:461-633 | over every run the verdict held is the last noticed, and the last successful verdict call's is the last given |
| `Traces.SatisfiedOfRun` | internal/agent/conversation.go:851-907 | over every run a tool is satisfied if and only if it succeeded in a turn whose results were looked at (or was satisfied before) and at every message boundary since, the calls to it that had run had used up its max_calls |
| `Traces.DetectorSeesTheAttempt` | internal/agent/conversation.go:501-504 | over every run the detector has seen exactly the attempt's tool turns, and the attempt fails as stuck if and only if the last of them is a second detection, no earlier one being |
| `Traces.GivesUpOnFiveInARow` | internal/agent/conversation.go:449-456 | an attempt gives up on ignored forces if and only if five forces were ignored with no turn of tools between or after them |
| `Turns.OpensWithBlocks` | internal/agent/conversation.go:211-315 | a conversation opens with its first message and then each context block, as a call and the block as its answer |
| `Turns.CallsInOrder` | internal/agent/conversation.go:1147-1160 | the calls of a reply are those of its parts, in their order, each with what running it comes to |
| `Turns.AnswersFollow` | internal/agent/conversation.go:614-633 | behind a reply whose tool results are looked at stands a user turn answering each call under its own id and name: with that call's own result where admission let it run, else with the refusal |
| `Turns.CallsAreRecorded` | internal/agent/conversation.go:1167-1179 | a turn of calls adds to the trajectory each call's own name, arguments and success, in call order, and no other turn adds any |
| `History.SuccessExactly` | internal/agent/conversation.go:890-911 | a call succeeds if and only if it ran to exit code 0, or ran nothing and reports no error |
| `Turns.InteractionsAreTheCalls` | internal/agent/loopdetect.go:80-111 | the detector is shown each call's own name, arguments and answer |
| `Turns.VerdictIsTheLast` | internal/agent/conversation.go:851-868 | a turn's verdict is the choice and note of the last of its verdict calls that gave one |
| `Turns.TextByPart` | internal/agent/conversation.go:1147-1160 | the text of a reply is what it says in parts that are no thoughts, in order |
| `Turns.ReplyStands` | internal/agent/conversation.go:545-556 | a kept reply stands in the history as it came: texts, thoughts and calls in their places |
| `Outcomes.StopsInOrder` | internal/agent/conversation.go:642-664 | what a reply without calls comes to, each outcome if and only if: nudge (last message, contract not met, nudges left), else force (a required tool lacking), else finish (last message), else the next message |
| `Outcomes.ForcedTool` | internal/agent/conversation.go:874-888 | after a force the next request is forced to the first required tool lacking, after calls or a new message to none, after a nudge to what it was |
| `Outcomes.OverBudgetExactly` | internal/agent/conversation.go:949-973 | a turn ends over a ceiling if and only if its reply reports tokens passing one and asks for tools or passes the job's; what the reply reports is counted once, kept or not |
| `Windows.SizeIsReportedAndEstimated` | internal/agent/compaction.go:595-613 | the size compared with the limit is what the last reporting response reported, prompt and completion, and the estimate of everything appended since |
| `Windows.CompactsExactly` | internal/agent/compaction.go:102-173 | the history is rewritten if and only if it is past its limit and not stalled, something lies in front of the recent window and a summary comes within the ceilings; into what, and stalled if and only if the window alone is past the limit |
| `Windows.WindowIsOne` | internal/agent/compaction.go:194-276 | the recent window so described is unique |
| `Windows.StalledIsFinal` | internal/agent/compaction.go:102-110 | over every run, a stalled history is compacted no more |
| `Outcomes.WarnedOnce` | internal/agent/conversation.go:803-816 | over every run, the wrap-up warning is put on the first request due one and on no other |
| `Outcomes.WrapsUpExactly` | internal/agent/conversation.go:683-734 | what the tool-less request comes to, by the tools lacking, the failure, the ceilings and the text |
| `Outcomes.RunEnds` | internal/agent/conversation.go:461-601 | over every run, a finish reports the text of its last turn's reply, and a wrap-up is asked for when exactly max_turns turns are spent |
| `Progress.TalkIsBounded` | internal/agent/conversation.go:642-680 | with no cap on turns: at most (5 - nudges) + (M - 1 - sent) + (5 - ignored) consecutive turns pass without a tool call |
| `Progress.TalkingCosts` | internal/agent/conversation.go:642-680 | every turn without a call that does not end the attempt uses up exactly one of those |
| `Progress.TalkBoundIsTight` | internal/agent/conversation.go:1096-1143 | a stubborn model takes every one of those turns |
| `Progress.StuckExactlyOnTheSeventh` | internal/agent/loopdetect.go:80-139 | an attempt whose tool turns are all one identical interaction has at most seven, and fails as stuck if and only if it has seven |
| `Progress.SevenIdenticalRounds` | internal/agent/loopdetect.go:80-139 | with turns enough and no token ceiling, seven identical rounds end the run as stuck, on the seventh |
| `History.UnansweredIsNotPaired` | internal/agent/conversation.go:545-592 | a history ending in unanswered calls is not well paired |
| `History.AppendExchange` | internal/agent/conversation.go:614-633 | a turn of calls with the turn answering it keeps a history paired |
| `History.CleanSplitIffNoAnswerBehind` | internal/agent/compaction.go:237-276 | cutting a paired history leaves both halves paired if and only if the cut is not in front of an answer |
| `History.WithImageParts` | internal/agent/readimage.go:334-361 | images a turn's results carry follow them, behind one label, and nothing else changes |
| `History.ImagePartsKeepKeys` | internal/agent/readimage.go:334-361 | adding images adds and drops no call or answer |
| `History.ImagesByPart` | internal/agent/readimage.go:334-361 | the images shown are those the answers hold, in the answers' order |
| `History.ShownIsAnswersThenImages` | internal/agent/readimage.go:334-361 | the answers stand first as they were; a label and the images follow if and only if some answer holds one |
| `History.WithoutImages` | internal/agent/readimage.go:366-390 | the copy made for a source that sees no images is the history with exactly the inline parts gone |
| `History.StripsExactlyImages` | internal/agent/readimage.go:366-390 | the placeholder stands where each image stood and every other part where it was |
| `History.StrippingKeepsPairs` | internal/agent/readimage.go:366-390 | image stripping leaves no image, and a history paired if and only if it was |
| `Compaction.WalkBackToPairBoundary` | internal/agent/compaction.go:282-305 | the walk back ends where its specification does |
| `Compaction.WalkForwardToPairBoundary` | internal/agent/compaction.go:311-334 | the walk forward too, up to the end of the history |
| `Compaction.SafeSplitIndex` | internal/agent/compaction.go:237-276 | a candidate inside the history is cut in front of the last turn up to it that stands in no exchange; where only the first does, behind the exchange the candidate stands in |
| `Compaction.FindSplitIndex` | internal/agent/compaction.go:194-212 | one walk from the end finds the last turn from which the rest reaches the budget; the cut is the one for it, and unless it lies behind that turn the window kept reaches the budget |
| `Compaction.SplitKeepsWindow` | internal/agent/compaction.go:194-212 | so for the specification, on every history |
| `Compaction.PairedSplitFalls` | internal/agent/compaction.go:237-334 | in a paired history the cut is in front of the last turn up to the candidate holding neither call nor answer; where only the first does, just behind the candidate's answer |
| `Compaction.CutsAsDescribedExactly` | internal/agent/compaction.go:232-236 | the cut is where the comment has it if and only if the candidate stands in no exchange or is the answer to the first turn |
| `Compaction.StepsOverAnExchange` | internal/agent/compaction.go:232-236 | a history on which it is not |
| `Compaction.TokensAddUp` | internal/agent/compaction.go:616-633 | a history's estimate is the sum of its turns' |
| `Compaction.SafeSplitIsClean` | internal/agent/compaction.go:237-334 | whatever turn the size walk lands on, the cut falls between complete exchanges, and a candidate past the first turn never collapses to 0 |
| `Compaction.CompactionKeepsPairs` | internal/agent/compaction.go:509-539 | summary, recent window and continuation together are paired, the recent window kept verbatim |
| `Dispatch.AdmitTool` | internal/agent/tooldispatch.go:105-113 | a call is refused exactly when its tool is capped and its cap spent; a refusal counts nothing |
| `Dispatch.AdmittedExactly` | internal/agent/tooldispatch.go:44-60 | a call of a turn is admitted if and only if those counted before it, in earlier turns and in its own, leave its cap unspent |
| `Dispatch.AdmissionKeepsBudgets` | internal/agent/tooldispatch.go:105-113 | a turn's counts grow by its admissions and never carry a capped tool past its cap |
| `Dispatch.RunConcurrently` | internal/agent/tooldispatch.go:69-102 | in every interleaving of a group of reads: never more than four in flight, answers in call order, the world untouched |
| `Dispatch.RunGroup` | internal/agent/tooldispatch.go:69-102 | a group of one runs inline with its effect; a larger one answers as if each call ran alone |
| `Dispatch.AdmitGroup` | internal/agent/tooldispatch.go:44-60 | a group is admitted serially, in call order, before any of it runs |
| `Dispatch.SerialReads` | internal/agent/tooldispatch.go:29-66 | run one by one, a group of reads answers as if each had run in the first world |
| `Dispatch.SerialAdmits` | internal/agent/tooldispatch.go:105-144 | the calls refused one by one are those admission refuses, answered without running |
| `Dispatch.GroupIsSerial` | internal/agent/tooldispatch.go:29-66 | a group is a stretch of the serial loop |
| `Dispatch.RunGroups` | internal/agent/tooldispatch.go:29-66 | grouped dispatch of a whole turn refines the serial loop: same answers in order, same counts, same world |
| `Dispatch.ToolResponseParts` | internal/agent/tooldispatch.go:29-66 | the parts returned carry those answers under the calls' own ids and names |
| `LoopDetect.LoopDetector.Record` | internal/agent/loopdetect.go:80-111 | the window after a turn is the last ten tool turns, and detection is a total over the window past five |
| `LoopDetect.LoopDetector.AddUp` | internal/agent/loopdetect.go:80-111 | the running totals find an interaction over the threshold exactly when the window's total has one |
| `LoopDetect.LoopDetector.Respond` | internal/agent/loopdetect.go:120-139 | first detection warns, second fails |
| `LoopDetect.WindowIsRecent` | internal/agent/loopdetect.go:80-111 | over any run the window is the most recent ten tool turns |
| `LoopDetect.ReactsExactly` | internal/agent/loopdetect.go:80-139 | over any run: the first turn whose last ten hold an interaction more than five times is warned about, every later such turn fails, and no other turn does either |
| `LoopDetect.SameCallFailsOnTheSeventh` | internal/agent/loopdetect.go:80-139 | one identical interaction every turn is warned on the sixth and failed on the seventh |
| `Failover.NextHostedFallback` | internal/agent/failover.go:237-252 | the first entry after `index` that resolves, unless it is CLI-backed |
| `Failover.NextViableFallback` | internal/agent/failover.go:211-225 | the first hosted entry with a credential, unless a CLI entry stands before it; none only if there is none |
| `Failover.ResumedContents` | internal/agent/conversation.go:245-252 | a source that cannot be shown images resumes without them, any other with the history as it is |
| `Failover.RunOneConversation` | internal/agent/failover.go:92-120 | one source's attempt is the machine's run from the checkpoint: same exit, checkpoint and spend |
| `Failover.RunPreparedWithFailover` | internal/agent/failover.go:44-161 | the loop runs exactly the legs of the cascade its specification lists, in order, and returns the last one's exit, checkpoint, spend and decision on the pin |
| `Failover.SettlePin` | internal/agent/failover.go:188-199 | the pins after a cascade: the served fallback selected at its position, nothing for the primary, the scope cleared on a drop |
| `Cascades.PositionsMoveOn` | internal/agent/failover.go:211-252 | a cascade's positions strictly increase, each a usable hosted entry, so at most one conversation runs for each entry from the first on |
| `Cascades.ClassifiedExactly` | internal/agent/llmclient/cascade.go:106-150 | which ends say a source is unwell and which that it served |
| `Cascades.MovesOnExactly` | internal/agent/failover.go:92-160 | a cascade goes on from a conversation if and only if that failed transiently on its provider, uncanceled, with time left and a usable entry ahead; and it goes on as that conversation on the first such entry, with that entry's dials |
| `Cascades.BooksCarryOn` | internal/agent/failover.go:92-160 | what the last leg's books say is what an onlooker counted over all the legs |
| `Cascades.BudgetsSurviveFailover` | internal/agent/failover.go:92-160 | over the whole cascade: replies entering the history never exceed a positive max_turns, nudges never exceed 5, calls that ran to a capped tool never exceed its max_calls |
| `Cascades.EveryMessageIsAsked` | internal/agent/conversation.go:1020-1065 | over the whole cascade the messages put to the model are the step's own, each once and in order; at a finish all of them, with every required tool earned |
| `Cascades.RequiredToolsSucceeded` | internal/agent/conversation.go:1079-1105 | when a cascade finishes or wraps up, every required tool succeeded in a turn whose results were looked at, every message boundary since coming only once its max_calls were spent |
| `Cascades.VerdictUnlessOverlooked` | internal/agent/conversation.go:586-633 | the verdict reported at the end of a cascade is the last successful verdict call's if and only if that call was not made in a turn cut off behind it, saying something else than the verdict noticed before; always when no cut-off turn gave one |
| `CascadeCases.VerdictOverlooked` | internal/agent/conversation.go:586-592 | a step that declares verdicts, run from its start: it finishes reporting "a" after "b" was given beside a command whose machine was lost, on an unpaired history it handed on |
| `Cascades.LossIsFinal` | internal/agent/tree/lost.go:14-42 | the lost-tree latch being the step's and never cleared: after the turn that trips it every turn of tools is cut off, the verdict reported is the one noticed before it, and a cascade that still finishes does so by talk alone on its last source |
| `Cascades.PairedUnlessLost` | internal/agent/failover.go:92-160 | every history handed to a source is well paired if and only if no conversation resumed from had lost its tree; then the last one is paired unless cut short |
| `Cascades.OneWrapUpUnlessItFailsOver` | internal/agent/conversation.go:683-734 | a cascade makes at most one wrap-up request if and only if none of its conversations has that request fail transiently with a usable entry and time left |
| `Cascades.AskedAgain` | internal/agent/conversation.go:683-734 | a conversation whose wrap-up fails over is followed by one that makes its own |
| `CascadeCases.TwoWrapUpRequests` | internal/agent/failover.go:92-160 | a cascade over two sources, from its start, that makes two |
| `Cascades.PinsFollowTheEnd` | internal/agent/failover.go:188-199 | after a cascade, a fallback that answered, or failed on something else than its provider, is the source pinned, at its own position; a primary that did leaves the pins alone, and a cascade that moved and still failed transiently on its provider leaves none for the scope |
| `Usage.StepUsage.CountLocked` | internal/agent/usage.go:116-131 | tokens are counted once, and a breach is reported exactly when the step's or the job's ceiling is passed |
| `Usage.StepUsage.Remaining` | internal/agent/usage.go:210-219 | what is left of the ceiling, never negative, or no ceiling |
| `Usage.StepUsage.DelegatedBudget` | internal/agent/usage.go:290-307 | what the child is offered is its share of what is left (see `Delegation.ShareIsTheFraction`), or its own declaration under no ceiling |
| `Delegation.ShareIsTheFraction` | internal/agent/usage.go:290-307 | the share is the whole tokens in the fraction of what is left, or what the child declares where that is less |
| `Delegation.AllowanceIsTheShare` | internal/agent/subagent.go:138-150 | a child is funded with its share, a call refused if and only if that is no token; with no ceiling or no fraction it is funded with what it declares |
| `Usage.StepUsage.AllowanceFor` | internal/agent/subagent.go:138-150 | a parent that cannot fund a call refuses it; one without a ceiling leaves the child its own |
| `Usage.StepUsage.ChargeDelegated` | internal/agent/usage.go:261-267 | a spend is booked on this step and every one above it, each exactly once, and nowhere else |
| `Usage.StepUsage.Finish` | internal/agent/usage.go:359-372 | an invocation's own tokens go to the job and up the chain that delegated, once |
| `Delegation.AllowanceIsWithinLeft` | internal/agent/usage.go:277-307 | for a fraction of at most one, a funded ceiling is within what the parent had left |
| `Delegation.TreeCosts` | internal/agent/usage.go:65-131 | an invocation's meter ends at what the replies, summaries and wrap-ups consumed by it and by everything it delegated reported, each once |
| `Delegation.NoToolsPastTheCeiling` | internal/agent/conversation.go:949-973 | past the ceiling, a response that reports usage never has its tools run; when one does is an if and only if |
| `Delegation.UnreportedResponseRunsTools` | internal/agent/usage.go:65-96 | a run from the start in which a kept text passes the ceiling and an unreported response then has its call run |
| `Delegation.TalkPastTheCeiling` | internal/agent/conversation.go:642-680 | past the ceiling only talk remains, each turn of it counted in the bound |
| `Delegation.ExecsSpend` | internal/agent/subagent.go:138-150 | a turn's delegations pass the ceiling by at most one sub-agent's own excess |
| `Delegation.TurnSpends` | internal/agent/conversation.go:545-592 | a turn started under the ceiling passes it by at most one response or one sub-agent's excess |
| `Delegation.RunSpends` | internal/agent/conversation.go:461-601 | the same over a whole run of one invocation |
| `Delegation.SubtreeSpendIsBounded` | internal/agent/usage.go:290-307 | a delegation tree of height h under a positive budget B, at most M messages a conversation and r tokens a response: what all its consumed responses reported is at most B + (h+1)(M+9)r, and its meter shows exactly that |
| `Accounting.StepBalances` | internal/agent/usage.go:261-267 | every step of concurrent spawning, spending, finishing and charging up keeps the books balanced |
| `Accounting.ReachableIsBalanced` | internal/agent/usage.go:359-372 | so does every execution |
| `Accounting.BooksClose` | internal/agent/usage.go:359-396 | once all have finished: delegated is the sum of all strict descendants' own totals (so the persisted total, own plus delegated, is the whole subtree's), and the job counts every token once |
| `Accounting.RootRecordsTheJob` | internal/agent/usage.go:387-396 | when a job is one tree, the root's persisted total is all the job was charged |
| `EditDistance.Levenshtein` | internal/agent/editfile.go:370-393 | the two-row loop returns the recurrence's value for all byte strings |
| `EditDistance.FillRow` | internal/agent/editfile.go:378-390 | the inner loop fills one row of it from the one above |
| `EditDistance.DistIsMinimumScriptCost` | internal/agent/editfile.go:370-393 | that value is the least cost of any edit script turning one string into the other |
| `EditDistance.ZeroIffEqual` | internal/agent/editfile.go:370-393 | zero if and only if equal |
| `EditDistance.Symmetric` | internal/agent/editfile.go:370-393 | symmetric |
| `EditDistance.TriangleInequality` | internal/agent/editfile.go:370-393 | the triangle inequality, by composing scripts |
| `EditDistance.BoundedByLonger` | internal/agent/editfile.go:370-393 | at most the longer length |
| `EditDistance.SimilarityIsAScore` | internal/agent/editfile.go:352-367 | line similarity lies in [0, 1] and is 1 exactly for equal lines |
| `EditDistance.SimilarityIsByScript` | internal/agent/editfile.go:352-367 | unequal lines score one less the cost of the cheapest script between them as a share of the longer line, and nothing where the lines are too long to compare |
| `Whitespace.TrimIsTheMiddle` | internal/agent/editfile.go:201-224 | trimming takes white space, and all of it, off both ends and nothing else |
| `EditFile.SearchLinesAreLines` | internal/agent/editfile.go:337-346 | one newline at the end of old_string is not searched for; no other line is dropped |
| `EditFile.TrailingNewlineIsNothing` | internal/agent/editfile.go:201-272 | both fuzzy strategies find the same with that newline and without it |
| `EditFile.LineTrimmedSpans` | internal/agent/editfile.go:201-224 | the loop lists the spans its specification does; which those are is `EditFile.SpansInOrder`, and what is searched for `EditFile.SearchLinesAreLines` |
| `EditFile.BlockAnchorCandidates` | internal/agent/editfile.go:284-311 | the candidates are those its specification lists: anchors match, first closing anchor taken, length within bounds |
| `EditFile.CandidatesAreCandidates` | internal/agent/editfile.go:284-311 | a block is listed if and only if it opens with the search block's first line, closes with its last at the first such line two or more below, and is within a quarter, or one line, of its length |
| `EditFile.CandidatesInOrder` | internal/agent/editfile.go:284-311 | in the order they open |
| `EditFile.SimilarityIsTheAverage` | internal/agent/editfile.go:317-335 | a candidate's similarity is the average of its inner lines' scores, over as many as both blocks have |
| `EditFile.BlockAnchorSpans` | internal/agent/editfile.go:231-272 | the single best candidate, when it is similar enough |
| `EditFile.BestIsMostSimilar` | internal/agent/editfile.go:231-272 | the candidate chosen is no less similar than any other and comes before any as similar |
| `EditFile.BestIsBest` | internal/agent/editfile.go:231-272 | the best of those listed is the best of all blocks that qualify |
| `EditFile.AnchorFoundExactly` | internal/agent/editfile.go:231-272 | a span is found if and only if some block qualifies and is similar enough |
| `EditFile.SpansAreBlocks` | internal/agent/editfile.go:201-224 | a span is found if and only if it is a matching block |
| `EditFile.SpansInOrder` | internal/agent/editfile.go:201-224 | the spans are exactly the blocks that match line by line, each once, in order |
| `EditFile.DisproportionateExactly` | internal/agent/editfile.go:400-416 | a span is too large if and only if it has three lines more than old_string and twice as many, or, against several lines, 500 bytes more and four times as many |
| `EditFile.PresentInOrder` | internal/agent/editfile.go:152-172 | the spans kept stand in the order they were first found |
| `EditFile.DistinctSpans` | internal/agent/editfile.go:152-172 | the spans that occur, each once, or an error exactly when one is disproportionate |
| `EditFile.ReplaceEverySpan` | internal/agent/editfile.go:175-191 | one replacer pass, with the count and first index reported |
| `EditFile.ReplaceEditSpan` | internal/agent/editfile.go:113-149 | the chain of strategies: only one that finds nothing gives way to the next |
| `EditFile.FirstToFindDecides` | internal/agent/editfile.go:113-149 | the first strategy to find anything settles the edit: too large, every span, its one span at its one offset, or ambiguous with every occurrence counted, each exactly when it applies |
| `EditFile.EditIsLocal` | internal/agent/editfile.go:113-172 | a successful single edit replaces one span, the only one its strategy found, at the only offset it occurs at (overlaps counted), and leaves every other byte alone |
| `EditFile.ExactDecides` | internal/agent/editfile.go:113-149 | an old_string occurring once is always edited there; one occurring more often is always ambiguous |
| `EditFile.FuzzyOnlyWithoutExact` | internal/agent/editfile.go:113-149 | an edit is exact if and only if old_string occurs |
| `EditFile.LineTrimmedEdit` | internal/agent/editfile.go:201-224 | a line-trimmed edit lands on whole lines: the one block matching line by line after trimming |
| `EditFile.BlockAnchorEdit` | internal/agent/editfile.go:231-335 | a block-anchor edit is made only where no block matches line by line, on whole lines, of the candidate that no other exceeds in similarity, the first of those as similar |
| `EditFile.NotFoundExactly` | internal/agent/editfile.go:113-149 | not found is reported if and only if old_string does not occur, no block matches line by line and no candidate block is similar enough |
| `EditFile.PassTouchesOnlySpans` | internal/agent/editfile.go:175-191 | a replacer pass rewrites only spans it was given: put back, they give the original text |
| `EditFile.PassMissesNothing` | internal/agent/editfile.go:175-191 | a byte is kept only where no span stands, and a span is swapped only where no earlier one does |
| `EditFile.RewritingIsByPiece` | internal/agent/editfile.go:175-191 | the result is the kept bytes as they were and new_string for each span swapped, counted once each |
| `EditFile.CountIsMostApart` | internal/agent/editfile.go:175-191 | an occurrence count is the most occurrences there are without overlaps |
| `EditFile.RunesAreCharacters` | internal/agent/editfile.go:175-191 | for an empty span it is one more than the characters of the text |
| `EditFile.ExactReplaceAll` | internal/agent/editfile.go:175-191 | replace_all of an occurring string reports its first offset and exactly the replacements made |
| `StepAssert.MatchToolCallPrefix` | internal/agent/stepassert.go:99-120 | one cursor through the record computes the greedy match |
| `StepAssert.MatchesByItems` | internal/agent/stepassert.go:127-140 | a recorded call matches if and only if it has the name expected and all the arguments expected, each with its value |
| `StepAssert.GreedyIsOptimal` | internal/agent/stepassert.go:99-120 | the greedy match is the longest prefix of the contract embedding in order in the record |
| `StepAssert.AppendingIsMonotone` | internal/agent/stepassert.go:99-120 | calls appended never lower it |
| `StepAssert.OwedCallsComplete` | internal/agent/stepassert.go:216-244 | calls matching what is owed complete the contract from any trajectory |
| `StepAssert.OwedIffMismatch` | internal/agent/stepassert.go:216-266 | owed is empty if and only if there is no mismatch |
| `StepAssert.OwedIsTheRest` | internal/agent/stepassert.go:216-266 | what is owed is each unmet file and then, by name and in order, each call behind the longest prefix of the contract that embeds; the mismatch named is the first of these |
| `StepAssert.CollectOwed` | internal/agent/stepassert.go:216-244 | the loop collects the files' reasons, then one name for each call still to match |
| `StepAssert.GateAcceptsOnlyMet` | internal/agent/verdict.go:36-76 | a verdict is accepted if and only if it is from the vocabulary and the judged trajectory, which ends in a verdict call, meets the contract; it is then the choice and note given, and else the answer says what is owed |
| `StepAssert.GateAgainstTheRecord` | internal/agent/verdict.go:87-95 | when judged and recorded trajectory are judged apart: an exact condition |
| `StepAssert.GateCanAcceptAnUnmetRecord` | internal/agent/verdict.go:55-95 | a concrete turn where they are |
| `CliRounds.RetryDo` | internal/retry/retry.go:72-104 | stops at the first success or final failure, after at most n calls |
| `CliRounds.TriesGoOn` | internal/retry/retry.go:72-104 | every call but the last failed and could be retried, and the last decides |
| `CliRounds.RunCLIRounds` | internal/agent/cli.go:287-302 | the loop of rounds makes the starts its specification counts |
| `CliRounds.RoundsGoOnWhileOwed` | internal/agent/cli.go:287-302 | a message takes one round, and one more for each success of the last message that still owes, up to five |
| `CliRounds.RunCLIMessages` | internal/agent/cli.go:248-273 | a message is started only when every one before it ended well, the step ends well if and only if its last message was started and ended well, every message but the last takes at most `attempts` starts and the last at most `attempts + 2 * maxNudges - 1` |
| `CliRounds.RoundsAreBounded` | internal/agent/cli.go:287-302 | that bound over every pattern of failures and owed rounds |
| `CliRounds.BoundIsExact` | internal/agent/cli.go:394-396 | the most starts a last message can take, exactly, for every number of attempts: no smaller bound holds |
| `CliRounds.PromiseHoldsOnlyForOneAttempt` | internal/agent/cli.go:380-396 | `attempts + maxNudges` bounds every pattern if and only if `attempts == 1` |
| `CliRounds.DeclaredCeilingsHold` | internal/agent/cli.go:507-533 | a declared turn or dollar ceiling never reads as unlimited, stops the next start exactly when spent, and else leaves it the rest |
| `CliRounds.MergeTrajectory` | internal/agent/cli.go:966-989 | the stream as it was, then in their order the bridged calls behind the first as many of their name as the stream has; so each tool appears as often as the fuller of the two records has it |
| `Pins.SelectedSources.SelectSource` | internal/agent/pins.go:132-166 | a first pin starts both clocks, a move restarts the lifetime alone, the same source again restarts neither |
| `Pins.SelectedSources.RenewPinIf` | internal/agent/pins.go:186-199 | renews the lifetime, and says so, exactly when the selection is the expected one |
| `Pins.SelectedSources.ClearSource` | internal/agent/pins.go:205-210 | drops the scope's pin and no other |
| `Pins.SelectedSources.ClearSourceIf` | internal/agent/pins.go:228-244 | three outcomes, each exactly when it applies; only a pin on the expected selection is dropped |
| `Pins.SelectedSources.SelectedSourceAt` | internal/agent/pins.go:312-339 | a pin is returned while its lifetime lasts at the given instant, else dropped |
| `Pins.SinceNeverMoves` | internal/agent/pins.go:132-166 | over every trace in which the pin stands, since never moves |
| `Pins.EveryPinWasDecided` | internal/agent/pins.go:132-199 | every pin's lifetime runs from the last install, move or renewal, and no other event |
| `Pins.ReadsEndWithTheLifetime` | internal/agent/pins.go:312-339 | over every trace, a read returns a pin if and only if the last such event is less than a lifetime before its instant |
| `Pins.ServingAgainExtendsNothing` | internal/agent/pins.go:150-163 | re-serving the same source any number of times leaves the pin as it was |
| `Pins.OtherScopesTouchNothing` | internal/agent/pins.go:46-61 | over every trace, what is done about other scopes leaves a scope's pin as it was |
| `Pins.PinsEndOnlySo` | internal/agent/pins.go:205-244 | over every trace, a pin that is gone was ended by the cascade's release, a guarded release that evaluated the selection it then held, or a read at or past its lifetime |
| `Pins.RenewalsDoNotDefeatARelease` | internal/agent/pins.go:212-244 | clocks moved by others never defeat a guarded release |
| `Pins.AMoveSurvivesReleases` | internal/agent/pins.go:212-244 | a source another job moved to survives every release and renewal decided about the one before it, its lifetime untouched |
| `Credentials.StepKeeps` | internal/cli/daemon_mcp_creds.go:61-102 | every atomic step of every thread keeps each entry and each pending answer no older than the counter it names |
| `Credentials.AnswersAreNeverOlderThanTheLastSave` | internal/cli/daemon_mcp_creds.go:61-85 | in every interleaving an answer is what the vault was worth at some moment no earlier than the last save or drop counted when its lookup read the counter |
| `Credentials.CountedChangesShowAtOnce` | internal/cli/logins.go:165-179 | once a change is counted, every lookup starting afterwards answers from it until the key changes again |
| `Credentials.OldEntriesAreReadAgain` | internal/cli/daemon_mcp_creds.go:24-34 | an entry in the cache for the maximum age is served no more, whatever the counter says |
| `Credentials.EntriesAreServedExactly` | internal/cli/daemon_mcp_creds.go:61-85 | an undisturbed lookup answers from the cache if and only if it holds the key for the same endpoint, read at the same counter, and less than the maximum age ago |
| `Credentials.PublishedIsServed` | internal/cli/daemon_mcp_creds.go:61-85 | what one lookup read is served to the next without reading the vault |
| `Credentials.ForgetsExactly` | internal/cli/daemon_mcp_creds.go:90-102 | a drop forgets the entries under its prefix and no other |
| `Credentials.Daemon.Of` | internal/cli/daemon_mcp_creds.go:61-85 | the lookup, with anything at all done by others between its sections, takes exactly the steps of the machine and answers with what the vault was worth no earlier than the last save or drop counted when it read the counter |
| `Credentials.Daemon.Seal` | internal/cli/logins.go:165-179 | a save is the vault write and then the count, with anything between |
| `Credentials.Daemon.Drop` | internal/cli/daemon_mcp_creds.go:90-102 | a drop is the count and then the forgetting, with anything between, and leaves no entry under the prefix |
| `Credentials.Daemon.ForgetEntries` | internal/cli/daemon_mcp_creds.go:97-101 | the loop forgets exactly the entries whose keys have the prefix |
| `ReadFile.AppendRangeLine` | internal/agent/readfile.go:240-261 | a line goes in whole while the budget lasts; only a first line longer than the budget is cut |
| `ReadFile.ReadFileRange` | internal/agent/readfile.go:142-230 | the scan returns the page its specification describes: at most the byte budget, exactly lines start to end |
| `ReadFile.PageIsItsLines` | internal/agent/readfile.go:198-261 | a page is the newline-join of its lines, over-long ones cut; it advances past at least one, never goes past the end asked for, and stops short of it only as truncated or at the end of the file |
| `ReadFile.PagingReconstructs` | internal/agent/readfile.go:142-261 | reading on from each end_line + 1 gives back every line in order, only a line longer than the budget losing its own tail |
| `ReadFile.PagingEnds` | internal/agent/readfile.go:142-261 | paging ends after at most one page a line |
| `Utf8.TruncateToolOutputLimit` | internal/agent/tooloutput.go:65-76 | for valid text the cut is the longest valid prefix within the limit, at most 3 bytes short of it |
| `Utf8.CutIsCleanAtStarts` | internal/agent/tooloutput.go:65-76 | a cut leaves valid text if and only if a character starts there |
| `Utf8.LooksBinary` | internal/agent/readimage.go:133-150 | true if and only if the bytes hold a NUL and begin no well-formed text, so false on every prefix of every well-formed text, wherever cut |
| `Utf8.CutText` | internal/agent/readimage.go:133-150 | a text cut anywhere is whole characters and at most three bytes of one more |
| `Utf8.TrimDecides` | internal/agent/readimage.go:133-150 | trimming up to three bytes decides it exactly |
| `ShellArg.ShellReadsOneWord` | internal/cli/db.go:120-126 | read by the shell's quoting rules, the printed form is one word, equal to the value, bare or quoted |
| `ShellArg.BareWhereItCanBe` | internal/cli/db.go:120-126 | a value is printed bare if and only if it is not empty and all its characters are plain |
| `ShellArg.ShellArgIsInjective` | internal/cli/db.go:120-126 | no two values are printed alike |

## Left out

- I/O of every kind: HTTP, provider calls, subprocesses, MCP transport, the store, telemetry and log lines.
- Wording: messages, prompts and tool descriptions are arbitrary constants; message rendering, redaction of secrets and the rewriting of an error to name unmet expectations are not part of this model.
- `usage.Run`, `retry.Do` and `DecideCascade` are modelled from their own files as far as the core reads them; scoped job runs with parents are not.
- Floating point: delegation fractions, similarities and dollar amounts are reals, so rounding is not captured.
- Machine integers: counters are unbounded.
- `loopSignature` is taken to be injective, and token estimates are arbitrary non-negative numbers.
- Which turn warrants a wrap-up warning (clocks, deadlines) is arbitrary, so every schedule is covered and none is described.
- Tools that panic: a panicking read's slot is not modelled.
- The forced-tool dial of providers that take only a string, and thinking settings.
- The CLI child itself: its prompts, transcripts, attestation and session handling. The turn check before a nudge is part of what is arbitrarily owed, and a start refused at a spent ceiling counts as a start.
- CLI entries inside a cascade, credential resolution and the preflight probe's decisions on pins.
- cliReason: one line cut at a character start, a smaller case of the cut in `Utf8.TruncateToolOutputLimit`.
- Usage.StepUsage.Finish: the mutex is not modelled there; interleavings are `Accounting.dfy`'s subject.
- Delegation.SubtreeSpendIsBounded: assumes one hosted source, calls run one at a time and every reply reporting its usage; with concurrent sub-agents each is funded from the same remainder.
- EditFile.ReplaceEverySpan: in the fuzzy modes the reported count is a sum over spans and can differ from the replacements made when spans overlap; only the exact mode's count is claimed.
- EditFile.ReplaceEditSpan: reading the target, line-ending handling and advice on failures are not modelled; trimming is that of Unicode white space in UTF-8.
- ReadFile.ReadFileRange: works on lines already split; the scanner's own buffer limit and non-text files are not modelled.
- ShellArg.ShellReadsOneWord: NUL and text that is not valid UTF-8 cannot stand in a shell argument and are not covered.
- Credentials.AnswersAreNeverOlderThanTheLastSave: a token expiring by itself is bounded only by the entry's maximum age; the vault read is one instant, and a write the store reports as failed is taken not to have happened.
- Pins.SelectedSources.SelectSource: clocks are integers given by the caller; the mutex makes each operation atomic. That one job sees a settled source while others run is not claimed, since another run's expiring read may drop the pin.
- ask_user, web_fetch, heading slugs in docs, shell tools, image codecs and glob or regular-expression matching.
