/** Where a compaction may cut a history (internal/agent/compaction.go). */
module Compaction {
  import opened History

  /** estimatePartTokens, which only has to be some count for each part. */
  type Estimate = Part -> nat

  function TokensOfParts(parts: seq<Part>, estimate: Estimate): nat {
    if parts == [] then 0 else estimate(parts[0]) + TokensOfParts(parts[1..], estimate)
  }

  function TokensOf(c: Content, estimate: Estimate): nat {
    if c.NilContent? then 0 else TokensOfParts(c.parts, estimate)
  }

  /** estimateContentTokens */
  function TokensOfAll(h: seq<Content>, estimate: Estimate): nat {
    if h == [] then 0 else TokensOf(h[0], estimate) + TokensOfAll(h[1..], estimate)
  }

  /** The estimate of a history is the sum of its turns', and a turn's that of its parts'. */
  lemma {:induction false} TokensAddUp(h: seq<Content>, more: seq<Content>, estimate: Estimate)
    ensures TokensOfAll(h + more, estimate) == TokensOfAll(h, estimate) + TokensOfAll(more, estimate)
    ensures forall c :: TokensOfAll([c], estimate) == TokensOf(c, estimate)
  {
    if h == [] {
      assert h + more == more;
    } else {
      TokensAddUp(h[1..], more, estimate);
      assert (h + more)[1..] == h[1..] + more;
    }
    forall c
      ensures TokensOfAll([c], estimate) == TokensOf(c, estimate)
    {
      assert [c][1..] == [];
    }
  }

  lemma {:induction false} PartsAddUp(parts: seq<Part>, part: Part, more: seq<Part>, estimate: Estimate)
    ensures TokensOfParts(parts + [part] + more, estimate) ==
            TokensOfParts(parts, estimate) + estimate(part) + TokensOfParts(more, estimate)
  {
    if parts == [] {
      assert ([part] + more)[1..] == more && parts + [part] + more == [part] + more;
    } else {
      PartsAddUp(parts[1..], part, more, estimate);
      assert (parts + [part] + more)[1..] == parts[1..] + [part] + more;
    }
  }

  // ---- The walks to a pair boundary ----

  predicate AsksTools(c: Content) {
    c.Turn? && c.role.Model? && HasCall(c)
  }

  predicate AnswersTools(c: Content) {
    c.Turn? && c.role.User? && HasResponse(c)
  }

  /** Inside a pair as walkBackToPairBoundary sees it: an answer, or the call it belongs to. */
  predicate InPair(c: Content) {
    AnswersTools(c) || AsksTools(c)
  }

  function BackTo(h: seq<Content>, idx: nat): (k: nat)
    requires idx < |h|
    ensures k <= idx
  {
    if idx == 0 || !InPair(h[idx]) then idx else BackTo(h, idx - 1)
  }

  function ForwardTo(h: seq<Content>, idx: nat): (k: nat)
    requires idx <= |h|
    ensures idx <= k <= |h|
    decreases |h| - idx
  {
    if idx == |h| then idx
    else if AsksTools(h[idx]) then ForwardTo(h, idx + 1)
    else if AnswersTools(h[idx]) then idx + 1
    else idx
  }

  method WalkBackToPairBoundary(h: seq<Content>, start: nat) returns (idx: nat)
    requires start < |h|
    ensures idx == BackTo(h, start)
  {
    idx := start;
    while idx > 0
      invariant idx <= start && BackTo(h, idx) == BackTo(h, start)
    {
      var c := h[idx];
      if c.NilContent? {
        break;
      }
      if c.role.User? && HasResponse(c) {
        idx := idx - 1;
        continue;
      }
      if c.role.Model? && HasCall(c) {
        idx := idx - 1;
        continue;
      }
      break;
    }
  }

  method WalkForwardToPairBoundary(h: seq<Content>, start: nat) returns (idx: nat)
    requires start <= |h|
    ensures idx == ForwardTo(h, start)
  {
    idx := start;
    while idx < |h|
      invariant start <= idx <= |h| && ForwardTo(h, idx) == ForwardTo(h, start)
    {
      var c := h[idx];
      if c.NilContent? {
        break;
      }
      if c.role.Model? && HasCall(c) {
        idx := idx + 1;
        continue;
      }
      if c.role.User? && HasResponse(c) {
        idx := idx + 1;
        return;
      }
      break;
    }
  }

  function SafeSplit(h: seq<Content>, idx: int): (k: nat)
    ensures k <= |h|
  {
    if idx <= 0 then 0
    else if idx >= |h| then |h|
    else
      var back := BackTo(h, idx);
      if back == 0 then ForwardTo(h, idx) else back
  }

  // ---- Where the cut falls ----

  /** `k` is the last turn up to `idx` that stands in no exchange, the first turn aside. */
  ghost predicate LastOutside(h: seq<Content>, idx: int, k: int) {
    1 <= k <= idx < |h| && !InPair(h[k]) && forall j | k < j <= idx :: InPair(h[j])
  }

  /** From `idx` up to `end` every turn asks for tools, and no further. */
  predicate AsksUpTo(h: seq<Content>, idx: int, end: int) {
    0 <= idx <= end <= |h| && (forall j | idx <= j < end :: AsksTools(h[j])) && (end < |h| ==> !AsksTools(h[end]))
  }

  /** `k` lies behind the turns that ask for tools from `idx` on, and their answer. */
  ghost predicate BehindExchange(h: seq<Content>, idx: int, k: int) {
    exists end :: BehindStretch(h, idx, end, k)
  }

  predicate BehindStretch(h: seq<Content>, idx: int, end: int, k: int) {
    AsksUpTo(h, idx, end) && k == if end < |h| && AnswersTools(h[end]) then end + 1 else end
  }

  /** The cut for a candidate: in front of the last turn up to it that stands in no exchange; where
      there is none but the first, behind the exchange the candidate stands in. */
  ghost predicate CutFor(h: seq<Content>, idx: int, k: int) {
    if idx <= 0 then k == 0
    else if idx >= |h| then k == |h|
    else if exists j | 1 <= j <= idx :: !InPair(h[j]) then LastOutside(h, idx, k)
    else BehindExchange(h, idx, k)
  }

  lemma {:induction false} BackFalls(h: seq<Content>, idx: nat)
    requires idx < |h|
    ensures var k := BackTo(h, idx);
            if exists j | 1 <= j <= idx :: !InPair(h[j]) then LastOutside(h, idx, k) else k == 0
  {
    hide InPair;
    if idx > 0 && InPair(h[idx]) {
      BackFalls(h, idx - 1);
    }
  }

  lemma {:induction false} ForwardFalls(h: seq<Content>, idx: nat)
    requires idx <= |h|
    ensures BehindExchange(h, idx, ForwardTo(h, idx))
    decreases |h| - idx
  {
    hide AsksTools, AnswersTools;
    if idx < |h| && AsksTools(h[idx]) {
      ForwardFalls(h, idx + 1);
      var end :| BehindStretch(h, idx + 1, end, ForwardTo(h, idx + 1));
      assert BehindStretch(h, idx, end, ForwardTo(h, idx));
    } else {
      assert BehindStretch(h, idx, idx, ForwardTo(h, idx));
    }
  }

  lemma SplitFalls(h: seq<Content>, idx: int)
    ensures CutFor(h, idx, SafeSplit(h, idx))
  {
    hide InPair, BehindExchange;
    if 0 < idx < |h| {
      BackFalls(h, idx);
      ForwardFalls(h, idx);
    }
  }

  /** In a paired history that is: in front of the last turn up to the candidate that holds neither a
      call nor an answer; where there is none but the first, just behind the candidate's answer. */
  lemma PairedSplitFalls(h: seq<Content>, idx: nat)
    requires WellPaired(h) && 0 < idx < |h|
    ensures var k := SafeSplit(h, idx);
            if exists j | 1 <= j <= idx :: !HasCall(h[j]) && !HasResponse(h[j]) then
              && 1 <= k <= idx && !HasCall(h[k]) && !HasResponse(h[k])
              && forall j | k < j <= idx :: HasCall(h[j]) || HasResponse(h[j])
            else if HasCall(h[idx]) then k == idx + 2
            else k == idx + 1
  {
    var k := SafeSplit(h, idx);
    SplitFalls(h, idx);
    forall j | 0 <= j < |h|
      ensures InPair(h[j]) <==> HasCall(h[j]) || HasResponse(h[j])
      ensures AsksTools(h[j]) <==> HasCall(h[j])
      ensures AnswersTools(h[j]) <==> HasResponse(h[j])
      ensures !(HasCall(h[j]) && HasResponse(h[j]))
    {
      assert PairedAt(h, j);
    }
    assert PairedAt(h, idx);
    if HasCall(h[idx]) {
      AnswersAgree(h[idx], h[idx + 1]);
    }
    hide HasCall, HasResponse, InPair, AsksTools, AnswersTools, Answers;
  }

  /** The cut the comment above safeSplitIndex describes, in a paired history: back to a turn in no
      exchange or to the start of an exchange, and past the exchange where that would be 0. */
  function Described(h: seq<Content>, idx: nat): nat
    requires 0 < idx < |h|
  {
    if !HasResponse(h[idx]) then idx else if idx > 1 then idx - 1 else idx + 1
  }

  /** The code steps over the start of an exchange too.  It cuts where the comment says exactly for a
      candidate in no exchange, and for the answer to the first turn. */
  lemma CutsAsDescribedExactly(h: seq<Content>, idx: nat)
    requires WellPaired(h) && 0 < idx < |h|
    ensures SafeSplit(h, idx) == Described(h, idx) <==>
            (!HasCall(h[idx]) && !HasResponse(h[idx])) || (idx == 1 && HasResponse(h[1]))
  {
    PairedSplitFalls(h, idx);
    assert PairedAt(h, idx);
    if HasResponse(h[idx]) {
      AnswersAgree(h[idx - 1], h[idx]);
    }
    hide HasCall, HasResponse, SafeSplit;
  }

  /** A candidate that opens an exchange: the comment has the cut there, the code one turn further back. */
  lemma StepsOverAnExchange(request: Part, answer: Part, closing: Content)
    requires request.Call? && answer.Response? && request.id == answer.id && request.name == answer.name
    requires !HasCall(closing) && !HasResponse(closing)
    ensures var h := [UserText("a"), UserText("b"), Turn(Model, [request]), Turn(User, [answer]), closing];
            WellPaired(h) && Described(h, 2) == 2 && SafeSplit(h, 2) == 1
  {
    var m, u := Turn(Model, [request]), Turn(User, [answer]);
    var h := [UserText("a"), UserText("b"), m, u, closing];
    assert [request][1..] == [] && [answer][1..] == [];
    assert CallKeys([request]) == KeyOfCall(request) + CallKeys([]);
    assert ResponseKeys([answer]) == KeyOfResponse(answer) + ResponseKeys([]);
    AppendPlain([], UserText("a"));
    AppendPlain([] + [UserText("a")], UserText("b"));
    AppendExchange([] + [UserText("a")] + [UserText("b")], m, u);
    AppendPlain([] + [UserText("a")] + [UserText("b")] + [m] + [u], closing);
    assert [] + [UserText("a")] + [UserText("b")] + [m] + [u] + [closing] == h;
    assert request in m.parts;
    CutsAsDescribedExactly(h, 2);
    PairedSplitFalls(h, 2);
    assert !HasCall(h[1]) && !HasResponse(h[1]);
  }

  /** safeSplitIndex */
  method SafeSplitIndex(h: seq<Content>, candidate: int) returns (idx: int)
    ensures idx == SafeSplit(h, candidate)
    ensures CutFor(h, candidate, idx)
  {
    SplitFalls(h, candidate);
    hide CutFor;
    idx := candidate;
    if idx < 0 {
      idx := 0;
    }
    if idx > |h| {
      idx := |h|;
    }
    if idx <= 0 || idx >= |h| {
      return;
    }
    var origIdx := idx;
    idx := WalkBackToPairBoundary(h, idx);
    if idx <= 0 {
      idx := WalkForwardToPairBoundary(h, origIdx);
    }
    if idx < 0 {
      idx := 0;
    }
    if idx > |h| {
      idx := |h|;
    }
  }

  /** The start of the recent window: the last turn from which the rest reaches the budget. */
  function Candidate(h: seq<Content>, budget: int, estimate: Estimate, i: nat): (c: nat)
    requires i <= |h|
    ensures c <= i
  {
    if i == 0 then 0
    else if h[i - 1].Turn? && TokensOfAll(h[i - 1..], estimate) >= budget then i - 1
    else Candidate(h, budget, estimate, i - 1)
  }

  function Split(h: seq<Content>, budget: int, estimate: Estimate): (k: nat)
    ensures k <= |h|
  {
    SafeSplit(h, Candidate(h, budget, estimate, |h|))
  }

  // ---- The recent window reaches its budget ----

  /** From turn `c` to the end the history reaches the budget. */
  predicate Reaches(h: seq<Content>, budget: int, estimate: Estimate, c: nat) {
    c < |h| && h[c].Turn? && TokensOfAll(h[c..], estimate) >= budget
  }

  /** `c` is the last turn to reach the budget, or 0 where none behind the first does. */
  predicate LastReaching(h: seq<Content>, budget: int, estimate: Estimate, c: nat) {
    && (c == 0 || Reaches(h, budget, estimate, c))
    && forall j: nat | c < j < |h| :: !Reaches(h, budget, estimate, j)
  }

  lemma {:induction false} CandidateIsLast(h: seq<Content>, budget: int, estimate: Estimate, i: nat)
    requires i <= |h| && forall j: nat | i <= j < |h| :: !Reaches(h, budget, estimate, j)
    ensures LastReaching(h, budget, estimate, Candidate(h, budget, estimate, i))
  {
    if i > 0 && !Reaches(h, budget, estimate, i - 1) {
      CandidateIsLast(h, budget, estimate, i - 1);
    }
  }

  lemma {:induction false} LaterWindowsAreSmaller(h: seq<Content>, estimate: Estimate, i: nat, j: nat)
    requires i <= j <= |h|
    ensures TokensOfAll(h[j..], estimate) <= TokensOfAll(h[i..], estimate)
    decreases j - i
  {
    if i < j {
      LaterWindowsAreSmaller(h, estimate, i + 1, j);
      assert h[i..][1..] == h[i + 1..];
    }
  }

  /** The cut is the one for the last turn from which the history reaches the budget, and a cut not
      behind that turn keeps a window that reaches it. */
  ghost predicate WindowFrom(h: seq<Content>, budget: int, estimate: Estimate, k: int) {
    exists c: nat ::
      && LastReaching(h, budget, estimate, c) && CutFor(h, c, k)
      && (0 < k <= c ==> TokensOfAll(h[k..], estimate) >= budget)
  }

  lemma SplitKeepsWindow(h: seq<Content>, budget: int, estimate: Estimate)
    ensures WindowFrom(h, budget, estimate, Split(h, budget, estimate))
  {
    hide CutFor, TokensOfAll;
    var c, k := Candidate(h, budget, estimate, |h|), Split(h, budget, estimate);
    CandidateIsLast(h, budget, estimate, |h|);
    SplitFalls(h, c);
    if 0 < k <= c {
      LaterWindowsAreSmaller(h, estimate, k, c);
    }
    assert LastReaching(h, budget, estimate, c) && CutFor(h, c, k);
  }

  /** findSplitIndex: one walk from the end, adding each turn's parts up. */
  method FindSplitIndex(h: seq<Content>, budget: int, estimate: Estimate) returns (idx: int)
    ensures idx == Split(h, budget, estimate)
    ensures WindowFrom(h, budget, estimate, idx)
  {
    SplitKeepsWindow(h, budget, estimate);
    hide WindowFrom, CutFor;
    var tokens := 0;
    var i := |h| - 1;
    while i >= 0
      invariant -1 <= i < |h|
      invariant tokens == TokensOfAll(h[i + 1..], estimate)
      invariant Candidate(h, budget, estimate, |h|) == Candidate(h, budget, estimate, i + 1)
    {
      assert h[i..][1..] == h[i + 1..];
      if h[i].NilContent? {
        i := i - 1;
        continue;
      }
      var parts := h[i].parts;
      for j := 0 to |parts|
        invariant tokens + TokensOfParts(parts[j..], estimate) == TokensOfAll(h[i..], estimate)
      {
        assert parts[j..][1..] == parts[j + 1..];
        tokens := tokens + estimate(parts[j]);
      }
      if tokens >= budget {
        idx := SafeSplitIndex(h, i);
        return;
      }
      i := i - 1;
    }
    idx := SafeSplitIndex(h, 0);
  }

  // ---- Every cut is between pairs ----

  lemma {:induction false} BackIsClean(h: seq<Content>, idx: nat)
    requires WellPaired(h) && idx < |h|
    ensures BackTo(h, idx) == 0 || !HasResponse(h[BackTo(h, idx)])
  {
    if idx > 0 && InPair(h[idx]) {
      BackIsClean(h, idx - 1);
    } else {
      assert PairedAt(h, idx);
    }
  }

  lemma {:induction false} ForwardIsClean(h: seq<Content>, idx: nat)
    requires WellPaired(h) && idx < |h|
    ensures var k := ForwardTo(h, idx); idx < k || !HasResponse(h[k])
    ensures var k := ForwardTo(h, idx); k == |h| || !HasResponse(h[k])
    decreases |h| - idx
  {
    assert PairedAt(h, idx);
    if InPair(h[idx]) {
      if h[idx].role.Model? {
        ForwardIsClean(h, idx + 1);
      } else if idx + 1 < |h| {
        assert PairedAt(h, idx + 1);
      }
    }
  }

  /** Whatever candidate the size walk lands on, the cut falls between complete exchanges; and a
      candidate past the first turn never collapses to an empty summary, even when the whole
      history is calls and answers. */
  lemma SafeSplitIsClean(h: seq<Content>, idx: int)
    requires WellPaired(h)
    ensures CleanSplit(h, SafeSplit(h, idx))
    ensures SafeSplit(h, idx) == 0 <==> idx <= 0 || h == []
  {
    var k := SafeSplit(h, idx);
    if 0 < idx < |h| {
      BackIsClean(h, idx);
      ForwardIsClean(h, idx);
    }
    CleanSplitIffNoAnswerBehind(h, k);
  }

  // ---- The rewritten history ----

  const SUMMARY_OPENING := "[Previous conversation summary]\n"
  const SUMMARY_CLOSING := "\n[End of summary - conversation continues below]"
  const CONTINUATION := "[System: the conversation was compacted because it exceeded the context budget.]"

  /** replaceSummary, then injectContinuation. */
  function Compacted(h: seq<Content>, k: nat, summary: string): seq<Content>
    requires k <= |h|
  {
    [UserText(SUMMARY_OPENING + summary + SUMMARY_CLOSING)] + h[k..] + [UserText(CONTINUATION)]
  }

  /** A compaction keeps the recent turns verbatim and the pairing intact. */
  lemma CompactionKeepsPairs(h: seq<Content>, idx: int, summary: string)
    requires WellPaired(h)
    ensures WellPaired(Compacted(h, SafeSplit(h, idx), summary))
  {
    var k := SafeSplit(h, idx);
    SafeSplitIsClean(h, idx);
    var head := UserText(SUMMARY_OPENING + summary + SUMMARY_CLOSING);
    AppendPlain([], head);
    assert [] + [head] == [head];
    ConcatPaired([head], h[k..]);
    AppendPlain([head] + h[k..], UserText(CONTINUATION));
  }
}
