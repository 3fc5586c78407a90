/** The conversation engine as a machine over one turn after another
    (internal/agent/conversation.go, with compaction.go's maybeCompact and usage.go's record).

    The model and everything else outside is adversarial: a Round says how one turn's requests
    were answered, and any sequence of rounds is a run.  Engine.Engine, in Engine.dfy, is
    the imperative loop, proved to take exactly these steps. */
module Conversation {
  import opened Basics
  import opened Limits
  import Unicode
  import opened History
  import opened StepAssert
  import opened Compaction
  import opened Dispatch
  import opened LoopDetect

  const MAX_IGNORED_FORCES: nat := 5
  const COMPACTION_RECENT_RATIO: nat := 30

  // ---- What a step declares ----

  /** A context block, delivered as the answer to a call nobody made. */
  datatype Block = Block(callId: string, tool: string, args: map<string, string>, result: ToolResult)

  datatype Conf = Conf(
    messages: seq<string>,
    blocks: seq<Block>,
    required: seq<string>,       // in sorted order
    caps: Counts,                // max_calls, by tool
    verdictTool: string,         // "" when the step declares no verdicts
    maxTurns: nat,               // 0 is no cap
    contract: Expectation,
    compactAfter: nat,           // 0 is off
    estimate: Estimate,
    budget: nat,                 // 0 is unbounded
    delegateFraction: real)

  /** What is said to the model in turn; a conversation with nothing to say opens with "". */
  function Messages(conf: Conf): (messages: seq<string>)
    ensures messages != []
  {
    if conf.messages == [] then [""] else conf.messages
  }

  // ---- What happens to it ----

  datatype Usage = Usage(prompt: nat, completion: nat, total: nat)

  /** One tool call as it would run if admitted: its answer, what the sub-agent it started spent
      with all of its own, and, for a sub-agent call that was funded, that invocation. */
  datatype ToolExec = ToolExec(result: ToolResult, spent: nat, child: Option<Delegation>)

  /** A sub-agent's run and the budget its agent declares for itself (0 for none). */
  datatype Delegation = Delegation(declared: nat, run: Invocation)

  datatype ReplyPart = Say(text: string, thought: bool) | Ask(request: Request, exec: ToolExec)

  datatype RequestError = Transient | Rejected | DeadlineSpent | Unusable

  /** How the turn's request was answered.  `jobOver` is the job's own ceiling, `unmetFiles` the
      declared files missing when the turn ends, and the last two the latches a tool call trips. */
  datatype Reply =
    | Failed(error: RequestError)
    | Replied(parts: seq<ReplyPart>, usage: Option<Usage>, jobOver: bool,
              unmetFiles: seq<string>, aborted: bool, lost: Option<RequestError>)

  datatype SummaryReply = NoSummary | Summary(text: string, usage: Option<Usage>, jobOver: bool)

  datatype Round = Round(summary: SummaryReply, warn: bool, reply: Reply)

  /** A whole run's input: what its turns meet, and what its last, tool-less request meets. */
  datatype Invocation = Invocation(conf: Conf, rounds: seq<Round>, wrapUp: Reply)

  // ---- What it keeps ----

  datatype Counters = Counters(total: nat, delegated: nat)

  /** resumeCheckpoint: what travels to the next source. */
  datatype Checkpoint = Checkpoint(
    contents: seq<Content>,
    satisfied: set<string>,
    callCounts: Counts,
    trajectory: seq<RecordedCall>,
    sent: nat,
    verdict: string,
    note: string,
    turnsSpent: nat,
    nudges: nat,
    summary: string,
    stalled: bool,
    compactions: nat)

  datatype ReportedSize = ReportedSize(tokens: nat, upTo: nat)

  const UNREPORTED := ReportedSize(0, 0)

  /** What the specification counts in: the messages asked, and every turn taken, every call that
      ran and every nudge given, before and since the last of them. */
  datatype Event = Took | Ran(name: string, result: ToolResult) | Nudged

  datatype Record = Record(asked: seq<string>, past: seq<Event>, now: seq<Event>)

  datatype Live = Live(
    cp: Checkpoint,
    forced: Option<string>,
    ignored: nat,
    detector: Detector,
    spent: Counters,
    size: ReportedSize,
    warned: bool,
    record: Record)

  datatype Failure = IgnoredForces | StuckInLoop | TurnsExhausted | NoFinalAnswer

  datatype Cause = RequestFailed(error: RequestError) | BudgetExceeded | Aborted
                 | LostTree(error: RequestError) | WrapUpFailed(error: RequestError) | WrapUpOverBudget

  datatype Exit = Finished(text: string) | WrappedUp(text: string) | GaveUp(why: Failure) | Errored(cause: Cause)

  datatype Next = On(live: Live) | Over(exit: Exit, at: Live)

  // ---- Reading a reply ----

  function Requests(parts: seq<ReplyPart>): seq<Request> {
    if parts == [] then []
    else (if parts[0].Ask? then [parts[0].request] else []) + Requests(parts[1..])
  }

  function Execs(parts: seq<ReplyPart>): (execs: seq<ToolExec>)
    ensures |execs| == |Requests(parts)|
  {
    if parts == [] then []
    else (if parts[0].Ask? then [parts[0].exec] else []) + Execs(parts[1..])
  }

  /** collectParts' text: everything said that is not a thought. */
  function TextOf(parts: seq<ReplyPart>): string {
    if parts == [] then ""
    else (if parts[0].Say? && !parts[0].thought then parts[0].text else "") + TextOf(parts[1..])
  }

  function PartOf(part: ReplyPart): Part {
    match part
    case Say(text, thought) => Text(text, thought)
    case Ask(request, _) => Call(request.id, request.name, request.args)
  }

  function ModelTurn(parts: seq<ReplyPart>): Content {
    Turn(Model, seq(|parts|, i requires 0 <= i < |parts| => PartOf(parts[i])))
  }

  // ---- Starting, and starting again on another source ----

  /** syntheticToolExchange, for each block in order. */
  function Synthetic(blocks: seq<Block>): seq<Content> {
    if blocks == [] then []
    else
      var b := blocks[0];
      [Turn(Model, [Call(b.callId, b.tool, b.args)]),
       Turn(User, ImageParts([Response(b.callId, b.tool, b.result)]))] + Synthetic(blocks[1..])
  }

  function Start(conf: Conf): Live {
    var opening := Messages(conf)[0];
    Live(Checkpoint([UserText(opening)] + Synthetic(conf.blocks), {}, map[], [], 0, "", "", 0, 0, "", false, 0),
         None, 0, FRESH, Counters(0, 0), UNREPORTED, false, Record([opening], [], []))
  }

  /** buildAgentRequest's resume branch and seedResumeState: the checkpoint travels, and so does
      the step's spend; the forcing, the detector, the size and the warning start afresh. */
  function Resume(at: Live, sighted: bool): Live {
    var contents := if sighted then at.cp.contents else StripImages(at.cp.contents);
    Live(at.cp.(contents := contents), None, 0, FRESH, at.spent, UNREPORTED, false, at.record)
  }

  // ---- Spending (usage.go) ----

  predicate OverOwn(conf: Conf, spent: Counters) {
    conf.budget > 0 && spent.total + spent.delegated > conf.budget
  }

  /** record and recordSummary: nothing reported counts nothing and breaches nothing. */
  function Count(conf: Conf, spent: Counters, usage: Option<Usage>, jobOver: bool): (r: (Counters, bool)) {
    match usage
    case None => (spent, false)
    case Some(u) =>
      var counted := spent.(total := spent.total + u.total);
      (counted, OverOwn(conf, counted) || jobOver)
  }

  // ---- Compaction ----

  function SizeOf(size: ReportedSize, contents: seq<Content>, estimate: Estimate): nat {
    if size.tokens == 0 || size.upTo > |contents| then TokensOfAll(contents, estimate)
    else size.tokens + TokensOfAll(contents[size.upTo..], estimate)
  }

  predicate CompactionDue(conf: Conf, s: Live) {
    !s.cp.stalled && conf.compactAfter > 0 && SizeOf(s.size, s.cp.contents, conf.estimate) > conf.compactAfter
  }

  function RecentStart(conf: Conf, contents: seq<Content>): (k: nat)
    ensures k <= |contents|
  {
    Split(contents, conf.compactAfter * COMPACTION_RECENT_RATIO / 100, conf.estimate)
  }

  /** maybeCompact; the flag is the one error it returns, a summary that crossed a ceiling. */
  function Compact(conf: Conf, s: Live, reply: SummaryReply): (r: (Live, bool)) {
    if !CompactionDue(conf, s) then (s, false)
    else
      var k := RecentStart(conf, s.cp.contents);
      if k == 0 || reply.NoSummary? then (s, false)
      else
        var (spent, over) := Count(conf, s.spent, reply.usage, reply.jobOver);
        if over then (s.(spent := spent), true)
        else
          var stalled := TokensOfAll(s.cp.contents[k..], conf.estimate) > conf.compactAfter;
          (s.(spent := spent, size := UNREPORTED,
              cp := s.cp.(contents := Compacted(s.cp.contents, k, reply.text), summary := reply.text,
                          compactions := s.cp.compactions + 1, stalled := stalled)), false)
  }

  // ---- A turn that asks for no tools ----

  function Missing(required: seq<string>, satisfied: set<string>): seq<string> {
    if required == [] then []
    else (if required[0] in satisfied then [] else [required[0]]) + Missing(required[1..], satisfied)
  }

  function Tell(s: Live, text: string): Live {
    s.(cp := s.cp.(contents := s.cp.contents + [UserText(text)]))
  }

  const NUDGE := "You are trying to finish, but this step still owes what it declared."
  const WARNING := "Wrap up."
  const LOOP_NUDGE := "You are stuck in a loop."

  predicate LastMessage(conf: Conf, s: Live) {
    s.cp.sent + 1 >= |conf.messages|
  }

  predicate NudgeDue(conf: Conf, s: Live, unmetFiles: seq<string>) {
    LastMessage(conf, s) && Owed(conf.contract, unmetFiles, s.cp.trajectory) != [] && s.cp.nudges < MAX_NUDGES
  }

  function Nudge(s: Live): Live {
    var told := Tell(s, NUDGE);
    told.(cp := told.cp.(nudges := s.cp.nudges + 1), record := s.record.(now := s.record.now + [Nudged]))
  }

  /** carriedSatisfaction: only a tool whose max_calls is spent stays satisfied. */
  function Carried(conf: Conf, cp: Checkpoint): set<string> {
    set name | name in cp.satisfied && Exhausted(name, conf.caps, cp.callCounts)
  }

  /** advance: the next message, with the question of what the step decided reopened. */
  function Advance(conf: Conf, s: Live): Live
    requires s.cp.sent + 1 < |conf.messages|
  {
    var message := conf.messages[s.cp.sent + 1];
    var told := Tell(s, message);
    told.(cp := told.cp.(sent := s.cp.sent + 1, satisfied := Carried(conf, s.cp)), forced := None,
          record := Record(s.record.asked + [message], s.record.past + s.record.now, []))
  }

  /** handleStopAttempt: nudge, finish, go on to the next message, force, or give up. */
  function StopAttempt(conf: Conf, s: Live, text: string, unmetFiles: seq<string>): Next {
    var missing := Missing(conf.required, s.cp.satisfied);
    if NudgeDue(conf, s, unmetFiles) then On(Nudge(s))
    else if missing == [] then
      if LastMessage(conf, s) then Over(Finished(text), s) else On(Advance(conf, s))
    else
      var forcing := s.(forced := Some(missing[0]), ignored := s.ignored + 1);
      if forcing.ignored < MAX_IGNORED_FORCES then On(forcing) else Over(GaveUp(IgnoredForces), forcing)
  }

  // ---- A turn that asks for tools ----

  function Results(requests: seq<Request>, execs: seq<ToolExec>, admitted: seq<bool>): (results: seq<ToolResult>)
    requires |requests| == |execs| == |admitted|
    ensures |results| == |requests|
  {
    seq(|requests|, i requires 0 <= i < |requests| => if admitted[i] then execs[i].result else BUDGET_EXHAUSTED)
  }

  function SpentBy(execs: seq<ToolExec>, admitted: seq<bool>): nat
    requires |execs| == |admitted|
  {
    if execs == [] then 0 else (if admitted[0] then execs[0].spent else 0) + SpentBy(execs[1..], admitted[1..])
  }

  function Recorded(requests: seq<Request>, results: seq<ToolResult>): (calls: seq<RecordedCall>)
    requires |requests| == |results|
    ensures |calls| == |requests|
  {
    seq(|requests|, i requires 0 <= i < |requests| =>
      RecordedCall(requests[i].name, requests[i].args, Succeeded(results[i])))
  }

  function ResponseParts(requests: seq<Request>, results: seq<ToolResult>): (parts: seq<Part>)
    requires |requests| == |results|
    ensures |parts| == |requests|
  {
    seq(|requests|, i requires 0 <= i < |requests| => Response(requests[i].id, requests[i].name, results[i]))
  }

  function Interactions(requests: seq<Request>, results: seq<ToolResult>): seq<Interaction>
    requires |requests| == |results|
  {
    seq(|requests|, i requires 0 <= i < |requests| => Interaction(requests[i].name, requests[i].args, results[i]))
  }

  /** The calls that ran, in order; one refused by its budget did not. */
  function RanEvents(requests: seq<Request>, results: seq<ToolResult>, admitted: seq<bool>): seq<Event>
    requires |requests| == |results| == |admitted|
  {
    if requests == [] then []
    else (if admitted[0] then [Ran(requests[0].name, results[0])] else [])
         + RanEvents(requests[1..], results[1..], admitted[1..])
  }

  function NewlySatisfied(conf: Conf, requests: seq<Request>, results: seq<ToolResult>): set<string>
    requires |requests| == |results|
  {
    if requests == [] then {}
    else (if requests[0].name in conf.required && Succeeded(results[0]) then {requests[0].name} else {})
         + NewlySatisfied(conf, requests[1..], results[1..])
  }

  predicate GivesVerdict(conf: Conf, name: string, result: ToolResult) {
    conf.verdictTool != "" && name == conf.verdictTool && result.verdict.Some? && result.verdict.value != ""
  }

  function NoteOf(result: ToolResult): string {
    if result.note.Some? then result.note.value else ""
  }

  /** trackToolResults' verdict: the turn's last one. */
  function TurnVerdict(conf: Conf, requests: seq<Request>, results: seq<ToolResult>): Option<(string, string)>
    requires |requests| == |results|
    decreases |requests|
  {
    if requests == [] then None
    else
      var n := |requests| - 1;
      if GivesVerdict(conf, requests[n].name, results[n]) then Some((results[n].verdict.value, NoteOf(results[n])))
      else TurnVerdict(conf, requests[..n], results[..n])
  }

  /** The turn's calls recorded and run, before anything is made of their results. */
  function Execute(conf: Conf, s: Live, parts: seq<ReplyPart>): (r: (Live, seq<ToolResult>))
    ensures |r.1| == |Requests(parts)|
  {
    var requests, execs := Requests(parts), Execs(parts);
    var (admitted, counts) := AdmitAll(requests, conf.caps, s.cp.callCounts);
    var results := Results(requests, execs, admitted);
    var ran := s.(
      ignored := 0, forced := None,
      cp := s.cp.(callCounts := counts, trajectory := s.cp.trajectory + Recorded(requests, results)),
      spent := s.spent.(delegated := s.spent.delegated + SpentBy(execs, admitted)),
      record := s.record.(now := s.record.now + RanEvents(requests, results, admitted)));
    (ran, results)
  }

  /** What the turn's results settle, and the answer turn that carries them. */
  function Track(conf: Conf, s: Live, requests: seq<Request>, results: seq<ToolResult>): Live
    requires |requests| == |results|
  {
    var verdict := TurnVerdict(conf, requests, results);
    s.(cp := s.cp.(
         satisfied := s.cp.satisfied + NewlySatisfied(conf, requests, results),
         verdict := if verdict.Some? then verdict.value.0 else s.cp.verdict,
         note := if verdict.Some? then verdict.value.1 else s.cp.note,
         contents := s.cp.contents + [Turn(User, ImageParts(ResponseParts(requests, results)))]))
  }

  /** finishToolTurn, after the tree and abort latches. */
  function ToolTurn(conf: Conf, s: Live, reply: Reply): Next
    requires reply.Replied?
  {
    var requests := Requests(reply.parts);
    var (ran, results) := Execute(conf, s, reply.parts);
    if reply.lost.Some? then Over(Errored(LostTree(reply.lost.value)), ran)
    else if reply.aborted then Over(Errored(Aborted), ran)
    else Respond(conf, ran, requests, results)
  }

  /** What is made of the results, and of the turn as one more interaction. */
  function Respond(conf: Conf, s: Live, requests: seq<Request>, results: seq<ToolResult>): Next
    requires |requests| == |results|
  {
    Settle(Track(conf, s, requests, results), Observe(s.detector, multiset(Interactions(requests, results))))
  }

  /** respond's two strikes, as the conversation feels them. */
  function Settle(s: Live, detection: (Detector, Reaction)): Next {
    var seen := s.(detector := detection.0);
    match detection.1
    case Fine => On(seen)
    case Warned => On(Tell(seen, LOOP_NUDGE))
    case Stuck => Over(GaveUp(StuckInLoop), seen)
  }

  // ---- A turn ----

  function Observed(size: ReportedSize, usage: Option<Usage>, contents: nat): ReportedSize {
    if usage.None? || usage.value.prompt == 0 then size
    else ReportedSize(usage.value.prompt + usage.value.completion, contents)
  }

  function Warn(s: Live, warn: bool): Live {
    if warn && !s.warned then Tell(s, WARNING).(warned := true) else s
  }

  /** generateWithinBudget: a breach is kept only when the reply asks for nothing and the job's own
      ceiling stands. */
  predicate Refused(conf: Conf, s: Live, reply: Reply)
    requires reply.Replied?
  {
    var (_, over) := Count(conf, s.spent, reply.usage, reply.jobOver);
    over && (Requests(reply.parts) != [] || reply.jobOver)
  }

  /** The reply as the next turn of the history. */
  function Receive(conf: Conf, s: Live, reply: Reply): Live
    requires reply.Replied?
  {
    var contents := s.cp.contents + [ModelTurn(reply.parts)];
    s.(spent := Count(conf, s.spent, reply.usage, reply.jobOver).0,
       size := Observed(s.size, reply.usage, |contents|),
       cp := s.cp.(contents := contents, turnsSpent := s.cp.turnsSpent + 1),
       record := s.record.(now := s.record.now + [Took]))
  }

  /** A reply that is kept, as the next turn: an attempt to stop, or calls to run. */
  function HandleReply(conf: Conf, s: Live, reply: Reply): Next
    requires reply.Replied?
  {
    if Requests(reply.parts) == [] then StopAttempt(conf, s, TextOf(reply.parts), reply.unmetFiles)
    else ToolTurn(conf, s, reply)
  }

  /** The turn's request, and the reply that meets it. */
  function Generate(conf: Conf, s: Live, reply: Reply): Next {
    if reply.Failed? then Over(Errored(RequestFailed(reply.error)), s)
    else if Refused(conf, s, reply) then
      Over(Errored(BudgetExceeded), s.(spent := Count(conf, s.spent, reply.usage, reply.jobOver).0))
    else HandleReply(conf, Receive(conf, s, reply), reply)
  }

  /** The turn loop's body. */
  function TakeTurn(conf: Conf, s: Live, round: Round): Next {
    var (compacted, over) := Compact(conf, s, round.summary);
    if over then Over(Errored(BudgetExceeded), compacted)
    else Generate(conf, Warn(compacted, round.warn), round.reply)
  }

  // ---- Whole runs ----

  predicate OutOfTurns(conf: Conf, s: Live) {
    conf.maxTurns > 0 && s.cp.turnsSpent >= conf.maxTurns
  }

  /** strings.TrimSpace leaves nothing. */
  predicate Blank(text: string) {
    forall i | 0 <= i < |text| :: Unicode.IsSpace(text[i] as int)
  }

  /** outOfTurns: one more request with the tools taken away.  Its prompt is not part of what a
      next source would resume from. */
  function WrapUp(conf: Conf, s: Live, reply: Reply): (Exit, Live) {
    if Missing(conf.required, s.cp.satisfied) != [] then (GaveUp(TurnsExhausted), s)
    else
      match reply
      case Failed(error) => (Errored(WrapUpFailed(error)), s)
      case Replied(parts, usage, jobOver, _, _, _) =>
        var counted := s.(spent := Count(conf, s.spent, usage, jobOver).0);
        if Refused(conf, s, reply) then (Errored(WrapUpOverBudget), counted)
        else if Blank(TextOf(parts)) then (GaveUp(NoFinalAnswer), counted)
        else (WrappedUp(TextOf(parts)), counted)
  }

  /** runConversationLoop.  When the rounds run out before the conversation does, its next request
      fails: every finite run is some sequence of rounds. */
  function Run(conf: Conf, s: Live, rounds: seq<Round>, wrapUp: Reply): (r: (Exit, Live))
    decreases |rounds|
  {
    if OutOfTurns(conf, s) then WrapUp(conf, s, wrapUp)
    else if rounds == [] then (Errored(RequestFailed(DeadlineSpent)), s)
    else
      match TakeTurn(conf, s, rounds[0])
      case Over(exit, at) => (exit, at)
      case On(live) => Run(conf, live, rounds[1..], wrapUp)
  }
}
