/** edit_file's matching engine (internal/agent/editfile.go): find the span the model meant, then
    replace it. */
module EditFile {
  import opened Basics
  import opened Bytes
  import opened Lines
  import opened EditDistance
  import opened Whitespace
  import Utf8

  // ---- The standard library's string searches ----

  predicate OccursAt(content: bytes, span: bytes, i: int) {
    0 <= i && i + |span| <= |content| && content[i..i + |span|] == span
  }

  /** strings.Index from `i` on; -1 when there is no occurrence. */
  function IndexFrom(content: bytes, span: bytes, i: nat): (r: int)
    requires i <= |content| + 1
    ensures r == -1 || (i <= r && OccursAt(content, span, r))
    ensures forall j | i <= j < (if r == -1 then |content| + 1 else r) :: !OccursAt(content, span, j)
    decreases |content| + 1 - i
  {
    if i > |content| then -1
    else if OccursAt(content, span, i) then i
    else IndexFrom(content, span, i + 1)
  }

  function Index(content: bytes, span: bytes): (r: int)
    ensures r == -1 || 0 <= r <= |content| - |span|
    ensures r == -1 || OccursAt(content, span, r)
    ensures forall j | OccursAt(content, span, j) :: 0 <= r <= j
  {
    IndexFrom(content, span, 0)
  }

  function LastIndexTo(content: bytes, span: bytes, i: int): (r: int)
    requires -1 <= i <= |content|
    ensures r == -1 || (r <= i && OccursAt(content, span, r))
    ensures forall j | r < j <= i :: !OccursAt(content, span, j)
    decreases i + 1
  {
    if i < 0 then -1 else if OccursAt(content, span, i) then i else LastIndexTo(content, span, i - 1)
  }

  function LastIndex(content: bytes, span: bytes): (r: int)
    ensures r == -1 || OccursAt(content, span, r)
    ensures forall j | OccursAt(content, span, j) :: j <= r
  {
    LastIndexTo(content, span, |content|)
  }

  predicate Contains(content: bytes, span: bytes) {
    Index(content, span) >= 0
  }

  /** utf8.RuneCount: a byte that begins no well-formed character counts as one. */
  function RuneCount(s: bytes): nat
    decreases |s|
  {
    if s == [] then 0
    else
      var n := Utf8.CharLength(s[0]);
      if 0 < n <= |s| && Utf8.IsChar(s[..n]) then 1 + RuneCount(s[n..]) else 1 + RuneCount(s[1..])
  }

  /** strings.Count: occurrences that do not overlap, leftmost first. */
  function CountFrom(content: bytes, span: bytes, i: nat): nat
    requires span != [] && i <= |content|
    decreases |content| - i
  {
    if i == |content| then 0
    else if OccursAt(content, span, i) then 1 + CountFrom(content, span, i + |span|)
    else CountFrom(content, span, i + 1)
  }

  function Count(content: bytes, span: bytes): nat {
    if span == [] then RuneCount(content) + 1 else CountFrom(content, span, 0)
  }

  /** Occurrences from `i` on, none overlapping the next. */
  ghost predicate Apart(content: bytes, span: bytes, i: nat, at: seq<nat>) {
    && (forall k | 0 <= k < |at| :: i <= at[k] && OccursAt(content, span, at[k]))
    && forall j, k | 0 <= j < k < |at| :: at[j] + |span| <= at[k]
  }

  lemma {:induction false} CountIsReached(content: bytes, span: bytes, i: nat) returns (at: seq<nat>)
    requires span != [] && i <= |content|
    ensures Apart(content, span, i, at) && |at| == CountFrom(content, span, i)
    decreases |content| - i
  {
    hide OccursAt;
    if i == |content| {
      at := [];
    } else if OccursAt(content, span, i) {
      OccursWithin(content, span, i);
      var rest := CountIsReached(content, span, i + |span|);
      at := [i] + rest;
    } else {
      at := CountIsReached(content, span, i + 1);
    }
  }

  lemma {:induction false} CountIsMost(content: bytes, span: bytes, i: nat, at: seq<nat>)
    requires span != [] && i <= |content| && Apart(content, span, i, at)
    ensures |at| <= CountFrom(content, span, i)
    decreases |content| - i
  {
    hide OccursAt;
    if at == [] {
      return;
    }
    OccursWithin(content, span, at[0]);
    if OccursAt(content, span, i) {
      OccursWithin(content, span, i);
      CountIsMost(content, span, i + |span|, at[1..]);
    } else {
      CountIsMost(content, span, i + 1, at);
    }
  }

  /** Counting leftmost first counts as many occurrences as can be had without overlaps. */
  lemma CountIsMostApart(content: bytes, span: bytes, n: nat)
    requires span != []
    ensures n <= Count(content, span) <==> exists at :: Apart(content, span, 0, at) && |at| == n
  {
    var most := CountIsReached(content, span, 0);
    if n <= |most| {
      assert Apart(content, span, 0, most[..n]);
    }
    if at :| Apart(content, span, 0, at) && |at| == n {
      CountIsMost(content, span, 0, at);
    }
  }

  lemma OccursWithin(content: bytes, span: bytes, i: int)
    requires OccursAt(content, span, i)
    ensures 0 <= i && i + |span| <= |content|
  {
  }

  ghost predicate AllChars(chars: seq<bytes>) {
    forall i | 0 <= i < |chars| :: Utf8.IsChar(chars[i])
  }

  /** Text has as many runes as characters. */
  lemma {:induction false} RunesAreCharacters(chars: seq<bytes>)
    requires AllChars(chars)
    ensures RuneCount(Concat(chars)) == |chars|
  {
    if chars != [] {
      var c, rest := chars[0], chars[1..];
      RunesAreCharacters(rest);
      var text := c + Concat(rest);
      assert text[..|c|] == c && text[|c|..] == Concat(rest);
    }
  }

  /** A byte that is no character and begins none in the text counts as a rune of its own. */
  lemma StrayByte(b: byte, rest: bytes)
    requires forall n | 1 <= n <= |rest| + 1 :: !Utf8.IsChar(([b] + rest)[..n])
    ensures RuneCount([b] + rest) == 1 + RuneCount(rest)
  {
    assert ([b] + rest)[1..] == rest;
  }

  // ---- Strategies ----

  datatype Mode = Exact | LineTrimmed | BlockAnchor

  /** dropTrailingEmptyLine over a split old_string. */
  function SearchLines(find: bytes): seq<bytes> {
    var lines := Split(find);
    if lines[|lines| - 1] == [] then lines[..|lines| - 1] else lines
  }

  /** One newline at the end of old_string is not part of what is searched for; no other line is
      dropped. */
  lemma SearchLinesAreLines(find: bytes)
    ensures SearchLines(find + [NEWLINE]) == Split(find)
    ensures find != [] && find[|find| - 1] != NEWLINE ==> SearchLines(find) == Split(find)
    ensures SearchLines([]) == []
  {
    SplitSnoc(find);
    LastLine(find);
  }

  /** The `|search|` lines from line `i` match the search block line by line, trimmed. */
  predicate BlockMatches(lines: seq<bytes>, search: seq<bytes>, i: nat) {
    i + |search| <= |lines| && forall j | 0 <= j < |search| :: Trim(lines[i + j]) == Trim(search[j])
  }

  function LineSpans(lines: seq<bytes>, search: seq<bytes>, i: nat): seq<bytes>
    decreases |lines| + 1 - i
  {
    if i + |search| > |lines| then []
    else (if BlockMatches(lines, search, i) then [Join(lines[i..i + |search|])] else []) +
         LineSpans(lines, search, i + 1)
  }

  /** lineTrimmedSpans */
  method LineTrimmedSpans(content: bytes, find: bytes) returns (spans: seq<bytes>)
    ensures spans == LineSpans(Split(content), SearchLines(find), 0)
  {
    hide Trim, Join, Split, SearchLines;
    var originalLines, searchLines := Split(content), SearchLines(find);
    spans := [];
    var i := 0;
    while i + |searchLines| <= |originalLines|
      invariant 0 <= i <= |originalLines| + 1
      invariant LineSpans(originalLines, searchLines, 0) == spans + LineSpans(originalLines, searchLines, i)
      decreases |originalLines| + 1 - i
    {
      var matches := true;
      var j := 0;
      while j < |searchLines| && matches
        invariant 0 <= j <= |searchLines|
        invariant matches ==> forall k | 0 <= k < j :: Trim(originalLines[i + k]) == Trim(searchLines[k])
        invariant !matches ==> !BlockMatches(originalLines, searchLines, i)
      {
        if Trim(originalLines[i + j]) != Trim(searchLines[j]) {
          matches := false;
        }
        j := j + 1;
      }
      ghost var rest := LineSpans(originalLines, searchLines, i + 1);
      if matches {
        var block := Join(originalLines[i..i + |searchLines|]);
        assert spans + ([block] + rest) == spans + [block] + rest;
        spans := spans + [block];
      } else {
        assert spans + ([] + rest) == spans + rest;
      }
      i := i + 1;
    }
    assert spans + [] == spans;
  }

  ghost predicate Increasing(at: seq<nat>) {
    forall j, k | 0 <= j < k < |at| :: at[j] < at[k]
  }

  /** `at` lists the lines from `i` on where the block matches: all of them, in order. */
  ghost predicate MatchesAt(lines: seq<bytes>, search: seq<bytes>, i: nat, at: seq<nat>) {
    Increasing(at) && forall p: nat :: p in at <==> i <= p && BlockMatches(lines, search, p)
  }

  /** The blocks of so many lines that stand at the lines listed. */
  function BlocksAt(lines: seq<bytes>, size: nat, at: seq<nat>): seq<bytes> {
    if at == [] then []
    else (if at[0] + size <= |lines| then [Join(lines[at[0]..at[0] + size])] else []) + BlocksAt(lines, size, at[1..])
  }

  lemma MatchesCons(lines: seq<bytes>, search: seq<bytes>, i: nat, rest: seq<nat>)
    requires MatchesAt(lines, search, i + 1, rest)
    ensures MatchesAt(lines, search, i, if BlockMatches(lines, search, i) then [i] + rest else rest)
  {
    hide BlockMatches;
    forall p: nat
      ensures p in [i] + rest <==> p == i || p in rest
    {
    }
    assert forall k | 0 <= k < |rest| :: rest[k] in rest;
  }

  lemma BlocksCons(lines: seq<bytes>, size: nat, i: nat, rest: seq<nat>)
    requires i + size <= |lines|
    ensures BlocksAt(lines, size, [i] + rest) == [Join(lines[i..i + size])] + BlocksAt(lines, size, rest)
  {
    hide Join;
    assert ([i] + rest)[1..] == rest;
  }

  lemma NoneMatch(lines: seq<bytes>, search: seq<bytes>, i: nat)
    requires i + |search| > |lines|
    ensures MatchesAt(lines, search, i, []) && BlocksAt(lines, |search|, []) == []
  {
  }

  /** The spans are the blocks that match, each once, in order. */
  lemma {:induction false} SpansInOrder(lines: seq<bytes>, search: seq<bytes>, i: nat) returns (at: seq<nat>)
    ensures MatchesAt(lines, search, i, at) && LineSpans(lines, search, i) == BlocksAt(lines, |search|, at)
    decreases |lines| + 1 - i
  {
    hide Join, BlockMatches, MatchesAt, BlocksAt;
    if i + |search| > |lines| {
      at := [];
      NoneMatch(lines, search, i);
    } else {
      at := SpansInOrder(lines, search, i + 1);
      MatchesCons(lines, search, i, at);
      if BlockMatches(lines, search, i) {
        BlocksCons(lines, |search|, i, at);
        at := [i] + at;
      }
    }
  }

  /** A block of lines from `start` to `end`, both included. */
  datatype Anchor = Anchor(start: nat, end: nat)

  /** The first closing anchor at or after line `j`; the number of lines when there is none. */
  function Closing(lines: seq<bytes>, last: bytes, j: nat): (k: nat)
    requires j <= |lines|
    ensures j <= k <= |lines|
    ensures k < |lines| ==> Trim(lines[k]) == last
    ensures forall i | j <= i < k :: Trim(lines[i]) != last
    decreases |lines| - j
  {
    if j == |lines| || Trim(lines[j]) == last then j else Closing(lines, last, j + 1)
  }

  function MaxLineDelta(size: nat): nat {
    Max(1, size / 4)
  }

  /** A candidate block: it opens with the search block's first line, closes with its last (the
      first such line two or more below), and is about as long. */
  ghost predicate IsCandidate(lines: seq<bytes>, search: seq<bytes>, c: Anchor)
    requires |search| >= 3
  {
    var delta, actual := Max(1, |search| / 4), c.end - c.start + 1;
    && c.start + 2 <= c.end < |lines|
    && Trim(lines[c.start]) == Trim(search[0]) && Trim(lines[c.end]) == Trim(search[|search| - 1])
    && (forall k | c.start + 2 <= k < c.end :: Trim(lines[k]) != Trim(search[|search| - 1]))
    && actual - |search| <= delta && |search| - actual <= delta
  }

  /** The candidate opening at line `i`, if it is one. */
  function CandidateAt(lines: seq<bytes>, search: seq<bytes>, i: nat): seq<Anchor>
    requires |search| >= 3 && i < |lines|
  {
    if Trim(lines[i]) != Trim(search[0]) || i + 2 > |lines| then []
    else
      var j := Closing(lines, Trim(search[|search| - 1]), i + 2);
      var delta, actual := MaxLineDelta(|search|), j - i + 1;
      if j < |lines| && actual - |search| <= delta && |search| - actual <= delta then [Anchor(i, j)] else []
  }

  function Candidates(lines: seq<bytes>, search: seq<bytes>, i: nat): seq<Anchor>
    requires |search| >= 3 && i <= |lines|
    decreases |lines| - i
  {
    if i == |lines| then [] else CandidateAt(lines, search, i) + Candidates(lines, search, i + 1)
  }

  /** The inner loop of blockAnchorCandidates: the first closing anchor decides. */
  method CloseCandidate(lines: seq<bytes>, search: seq<bytes>, i: nat) returns (found: seq<Anchor>)
    requires |search| >= 3 && i < |lines|
    ensures found == CandidateAt(lines, search, i)
  {
    hide Trim;
    var lastAnchor := Trim(search[|search| - 1]);
    var maxLineDelta := MaxLineDelta(|search|);
    if Trim(lines[i]) != Trim(search[0]) {
      return [];
    }
    var j := i + 2;
    while j < |lines|
      invariant i + 2 <= j
      invariant i + 2 <= |lines| ==> j <= |lines| && Closing(lines, lastAnchor, i + 2) == Closing(lines, lastAnchor, j)
    {
      if Trim(lines[j]) == lastAnchor {
        var actual := j - i + 1;
        if actual - |search| <= maxLineDelta && |search| - actual <= maxLineDelta {
          return [Anchor(i, j)];
        }
        return [];
      }
      j := j + 1;
    }
    return [];
  }

  /** blockAnchorCandidates */
  method BlockAnchorCandidates(lines: seq<bytes>, search: seq<bytes>) returns (candidates: seq<Anchor>)
    requires |search| >= 3
    ensures candidates == Candidates(lines, search, 0)
  {
    hide CandidateAt;
    candidates := [];
    for i := 0 to |lines|
      invariant Candidates(lines, search, 0) == candidates + Candidates(lines, search, i)
    {
      ghost var rest := Candidates(lines, search, i + 1);
      var found := CloseCandidate(lines, search, i);
      assert candidates + (found + rest) == candidates + found + rest;
      candidates := candidates + found;
    }
    assert candidates + [] == candidates;
  }

  const SIMILARITY_THRESHOLD: real := 0.65

  /** Lines 1 to `j` of the block against the search block, each weighing one `of`-th. */
  function SimilarityTo(lines: seq<bytes>, search: seq<bytes>, start: nat, j: nat, of: nat): real
    requires 0 < of && start + j < |lines| && j < |search|
  {
    if j == 0 then 0.0
    else SimilarityTo(lines, search, start, j - 1, of) + LineSimilarity(Trim(lines[start + j]),
        Trim(search[j])) / of as real
  }

  /** anchorSimilarity */
  function Similarity(lines: seq<bytes>, search: seq<bytes>, c: Anchor): real {
    var linesToCheck := Min(|search| - 2, c.end - c.start + 1 - 2);
    if linesToCheck <= 0 || c.end >= |lines| then 1.0
    else SimilarityTo(lines, search, c.start, linesToCheck, linesToCheck)
  }

  lemma CandidateAtLine(lines: seq<bytes>, search: seq<bytes>, i: nat, c: Anchor)
    requires |search| >= 3 && i < |lines|
    ensures c in CandidateAt(lines, search, i) <==> IsCandidate(lines, search, c) && c.start == i
    ensures |CandidateAt(lines, search, i)| <= 1
  {
    hide Trim;
    if IsCandidate(lines, search, c) && c.start == i {
      var j := Closing(lines, Trim(search[|search| - 1]), i + 2);
      assert j == c.end;
    }
  }

  /** The candidates listed are those there are. */
  lemma {:induction false} CandidatesAreCandidates(lines: seq<bytes>, search: seq<bytes>, i: nat)
    requires |search| >= 3 && i <= |lines|
    ensures forall c :: c in Candidates(lines, search, i) <==> IsCandidate(lines, search, c) && i <= c.start
    decreases |lines| - i
  {
    hide IsCandidate, CandidateAt;
    CandidatesFit(lines, search);
    if i < |lines| {
      CandidatesAreCandidates(lines, search, i + 1);
      forall c
        ensures c in Candidates(lines, search, i) <==> IsCandidate(lines, search, c) && i <= c.start
      {
        CandidateAtLine(lines, search, i, c);
      }
    }
  }

  ghost predicate InOrder(all: seq<Anchor>) {
    forall j, k | 0 <= j < k < |all| :: all[j].start < all[k].start
  }

  lemma OrderCons(here: seq<Anchor>, later: seq<Anchor>, i: nat)
    requires |here| <= 1 && InOrder(later)
    requires (forall c | c in here :: c.start == i) && forall c | c in later :: i < c.start
    ensures InOrder(here + later)
  {
    assert forall k | 0 <= k < |later| :: later[k] in later;
  }

  /** And in the order they open. */
  lemma {:induction false} CandidatesInOrder(lines: seq<bytes>, search: seq<bytes>, i: nat)
    requires |search| >= 3 && i <= |lines|
    ensures InOrder(Candidates(lines, search, i))
    decreases |lines| - i
  {
    hide IsCandidate, CandidateAt, InOrder;
    if i < |lines| {
      var here := CandidateAt(lines, search, i);
      CandidatesInOrder(lines, search, i + 1);
      CandidatesAreCandidates(lines, search, i + 1);
      forall c | c in here
        ensures c.start == i
      {
        CandidateAtLine(lines, search, i, c);
      }
      CandidateAtLine(lines, search, i, Anchor(i, i));
      OrderCons(here, Candidates(lines, search, i + 1), i);
    } else {
      NoneInOrder();
    }
  }

  lemma NoneInOrder()
    ensures InOrder([])
  {
  }

  lemma CandidatesFit(lines: seq<bytes>, search: seq<bytes>)
    requires |search| >= 3
    ensures forall c | IsCandidate(lines, search, c) :: c.start + 2 <= c.end < |lines|
  {
  }

  lemma CandidatesAreInRange(lines: seq<bytes>, search: seq<bytes>)
    requires |search| >= 3
    ensures forall c | c in Candidates(lines, search, 0) :: c.start <= c.end < |lines|
  {
    CandidatesAreCandidates(lines, search, 0);
  }

  /** The most similar of the first `n` candidates, the earliest of equals. */
  function BestOf(lines: seq<bytes>, search: seq<bytes>, candidates: seq<Anchor>, n: nat): (best: Anchor)
    requires 1 <= n <= |candidates|
    ensures best in candidates
  {
    if n == 1 then candidates[0]
    else
      var best := BestOf(lines, search, candidates, n - 1);
      if Similarity(lines, search, candidates[n - 1]) > Similarity(lines, search, best) then candidates[n - 1] else best
  }

  /** Candidate `b` is the most similar of the first `n`, and the earliest of those as similar. */
  ghost predicate FirstOfBest(lines: seq<bytes>, search: seq<bytes>, candidates: seq<Anchor>, n: nat, b: nat)
    requires b < n <= |candidates|
  {
    && (forall i | 0 <= i < n ::
          Similarity(lines, search, candidates[i]) <= Similarity(lines, search, candidates[b]))
    && forall i | 0 <= i < b ::
         Similarity(lines, search, candidates[i]) < Similarity(lines, search, candidates[b])
  }

  lemma {:induction false} BestIsMostSimilar(lines: seq<bytes>, search: seq<bytes>, candidates: seq<Anchor>, n: nat)
    returns (b: nat)
    requires 1 <= n <= |candidates|
    ensures b < n && candidates[b] == BestOf(lines, search, candidates, n)
    ensures FirstOfBest(lines, search, candidates, n, b)
  {
    hide Similarity;
    b := 0;
    if n > 1 {
      b := BestIsMostSimilar(lines, search, candidates, n - 1);
      if Similarity(lines, search, candidates[n - 1]) > Similarity(lines, search, candidates[b]) {
        b := n - 1;
      }
    }
  }

  /** A candidate similar enough, no less so than any other, and before any other as similar. */
  ghost predicate BestAnchor(lines: seq<bytes>, search: seq<bytes>, c: Anchor)
    requires |search| >= 3
  {
    && IsCandidate(lines, search, c) && Similarity(lines, search, c) >= SIMILARITY_THRESHOLD
    && forall d | IsCandidate(lines, search, d) ::
         && Similarity(lines, search, d) <= Similarity(lines, search, c)
         && (Similarity(lines, search, d) == Similarity(lines, search, c) ==> c.start <= d.start)
  }

  /** The best of the candidates listed is the best there is. */
  lemma BestIsBest(lines: seq<bytes>, search: seq<bytes>)
    requires |search| >= 3 && Candidates(lines, search, 0) != []
    ensures var candidates := Candidates(lines, search, 0);
            var best := BestOf(lines, search, candidates, |candidates|);
            && (BestAnchor(lines, search, best) <==> Similarity(lines, search, best) >= SIMILARITY_THRESHOLD)
            && forall d | IsCandidate(lines, search, d) ::
                 Similarity(lines, search, d) <= Similarity(lines, search, best)
  {
    hide Similarity, IsCandidate, Candidates, BestOf;
    var candidates := Candidates(lines, search, 0);
    CandidatesAreCandidates(lines, search, 0);
    CandidatesInOrder(lines, search, 0);
    var b := BestIsMostSimilar(lines, search, candidates, |candidates|);
    var best := candidates[b];
    forall d | IsCandidate(lines, search, d)
      ensures Similarity(lines, search, d) <= Similarity(lines, search, best)
      ensures Similarity(lines, search, d) == Similarity(lines, search, best) ==> best.start <= d.start
    {
      assert d in candidates;
    }
  }

  function AnchorSpans(content: bytes, find: bytes): seq<bytes> {
    var lines, search := Split(content), SearchLines(find);
    if |search| < 3 then []
    else
      var candidates := Candidates(lines, search, 0);
      CandidatesAreInRange(lines, search);
      if candidates == [] then []
      else
        var best := BestOf(lines, search, candidates, |candidates|);
        if Similarity(lines, search, best) >= SIMILARITY_THRESHOLD then [Join(lines[best.start..best.end + 1])] else []
  }

  /** blockAnchorSpans: at most one span, the best candidate's, when it is similar enough.  Every
      similarity is at least 0, so the source's start from -1 takes the first candidate. */
  method BlockAnchorSpans(content: bytes, find: bytes) returns (spans: seq<bytes>)
    ensures spans == AnchorSpans(content, find)
  {
    hide Similarity, Join, Split, SearchLines, Candidates, IsCandidate;
    var searchLines := SearchLines(find);
    if |searchLines| < 3 {
      return [];
    }
    var originalLines := Split(content);
    var candidates := BlockAnchorCandidates(originalLines, searchLines);
    CandidatesAreInRange(originalLines, searchLines);
    if candidates == [] {
      return [];
    }
    assert candidates[0] in candidates;
    if |candidates| == 1 {
      if Similarity(originalLines, searchLines, candidates[0]) >= SIMILARITY_THRESHOLD {
        return [Join(originalLines[candidates[0].start..candidates[0].end + 1])];
      }
      return [];
    }
    var best := -1.0;
    var bestCandidate := candidates[0];
    for i := 0 to |candidates|
      invariant i == 0 ==> best == -1.0
      invariant i > 0 ==> bestCandidate == BestOf(originalLines, searchLines, candidates, i)
                          && best == Similarity(originalLines, searchLines, bestCandidate)
    {
      var sim := Similarity(originalLines, searchLines, candidates[i]);
      SimilarityIsNotNegative(originalLines, searchLines, candidates[i]);
      if sim > best {
        best := sim;
        bestCandidate := candidates[i];
      }
    }
    if best >= SIMILARITY_THRESHOLD {
      return [Join(originalLines[bestCandidate.start..bestCandidate.end + 1])];
    }
    return [];
  }

  /** What the inner lines score together. */
  function Scores(lines: seq<bytes>, search: seq<bytes>, start: nat, n: nat): real
    requires start + n < |lines| && n < |search|
  {
    if n == 0 then 0.0
    else Scores(lines, search, start, n - 1) + LineSimilarity(Trim(lines[start + n]), Trim(search[n]))
  }

  lemma {:induction false} SimilarityAddsUp(lines: seq<bytes>, search: seq<bytes>, start: nat, n: nat, of: nat)
    requires 0 < of && start + n < |lines| && n < |search|
    ensures SimilarityTo(lines, search, start, n, of) == Scores(lines, search, start, n) / of as real
  {
    hide Trim, LineSimilarity;
    if n > 0 {
      SimilarityAddsUp(lines, search, start, n - 1, of);
      Quotients(Scores(lines, search, start, n - 1), LineSimilarity(Trim(lines[start + n]), Trim(search[n])), of);
    }
  }

  lemma Quotients(a: real, b: real, of: nat)
    requires 0 < of
    ensures a / of as real + b / of as real == (a + b) / of as real
  {
  }

  /** A candidate's similarity is the average of its inner lines' scores, over as many of them as both
      blocks have. */
  lemma SimilarityIsTheAverage(lines: seq<bytes>, search: seq<bytes>, c: Anchor)
    requires |search| >= 3 && c.start + 2 <= c.end < |lines|
    ensures var n := if |search| - 2 < c.end - c.start - 1 then |search| - 2 else c.end - c.start - 1;
            Similarity(lines, search, c) == Scores(lines, search, c.start, n) / n as real
  {
    hide SimilarityTo, Scores;
    var n := Min(|search| - 2, c.end - c.start - 1);
    SimilarityAddsUp(lines, search, c.start, n, n);
  }

  lemma {:induction false} PartialSimilarity(lines: seq<bytes>, search: seq<bytes>, start: nat, j: nat, of: nat)
    requires 0 < of && start + j < |lines| && j < |search|
    ensures 0.0 <= SimilarityTo(lines, search, start, j, of) <= j as real / of as real
  {
    if j > 0 {
      PartialSimilarity(lines, search, start, j - 1, of);
      SimilarityIsAScore(Trim(lines[start + j]), Trim(search[j]));
      Weighed(LineSimilarity(Trim(lines[start + j]), Trim(search[j])), j, of);
    }
  }

  lemma Weighed(score: real, j: nat, of: nat)
    requires 0.0 <= score <= 1.0 && 0 < of && 0 < j
    ensures 0.0 <= score / of as real <= 1.0 / of as real
    ensures (j - 1) as real / of as real + 1.0 / of as real == j as real / of as real
  {
  }

  lemma SimilarityIsNotNegative(lines: seq<bytes>, search: seq<bytes>, c: Anchor)
    ensures 0.0 <= Similarity(lines, search, c) <= 1.0
  {
    hide SimilarityTo;
    var n := Min(|search| - 2, c.end - c.start + 1 - 2);
    if n > 0 && c.end < |lines| {
      PartialSimilarity(lines, search, c.start, n, n);
      assert n as real / n as real == 1.0;
    }
  }

  // ---- Vetting a strategy's spans ----

  function Newlines(s: bytes): nat {
    if s == [] then 0 else (if s[0] == NEWLINE then 1 else 0) + Newlines(s[1..])
  }

  /** isDisproportionateMatch */
  predicate Disproportionate(span: bytes, find: bytes) {
    var oldLines, spanLines := Newlines(find) + 1, Newlines(span) + 1;
    || spanLines >= Max(oldLines + 3, oldLines * 2)
    || (oldLines != 1 && |Trim(span)| > Max(|Trim(find)| + 500, |Trim(find)| * 4))
  }

  lemma {:induction false} LinesAreNewlines(s: bytes)
    ensures |Split(s)| == Newlines(s) + 1
  {
    if s != [] {
      LinesAreNewlines(s[1..]);
    }
  }

  /** Too much: three lines more than old_string and twice as many, or, where old_string has several
      lines, 500 bytes more than it and four times as many. */
  lemma DisproportionateExactly(span: bytes, find: bytes)
    ensures var (m, n) := (|Split(span)|, |Split(find)|);
            var (size, asked) := (|Trim(span)|, |Trim(find)|);
            Disproportionate(span, find) <==>
            (m >= n + 3 && m >= 2 * n) || (n > 1 && size > asked + 500 && size > 4 * asked)
  {
    LinesAreNewlines(span);
    LinesAreNewlines(find);
    hide Trim;
  }

  function Candidate(mode: Mode, content: bytes, find: bytes): seq<bytes> {
    match mode
    case Exact => [find]
    case LineTrimmed => LineSpans(Split(content), SearchLines(find), 0)
    case BlockAnchor => AnchorSpans(content, find)
  }

  /** So the fuzzy strategies find the same with that newline and without it. */
  lemma TrailingNewlineIsNothing(mode: Mode, content: bytes, find: bytes)
    requires !mode.Exact? && find != [] && find[|find| - 1] != NEWLINE
    ensures Candidate(mode, content, find + [NEWLINE]) == Candidate(mode, content, find)
  {
    SearchLinesAreLines(find);
    hide SearchLines, LineSpans, Candidates;
  }

  /** The spans that occur, each once, in order. */
  function Present(content: bytes, spans: seq<bytes>): (present: seq<bytes>)
    ensures forall span | span in present :: span in spans && Contains(content, span)
    ensures forall span | span in spans && Contains(content, span) :: span in present
    ensures forall i, j | 0 <= i < j < |present| :: present[i] != present[j]
  {
    if spans == [] then []
    else
      var n := |spans| - 1;
      var before := Present(content, spans[..n]);
      assert forall span | span in spans :: span in spans[..n] || span == spans[n];
      if spans[n] in before || !Contains(content, spans[n]) then before else before + [spans[n]]
  }

  /** Those kept stand in the order they were first found. */
  lemma {:induction false} PresentInOrder(content: bytes, spans: seq<bytes>, i: nat, j: nat)
    requires i < j < |Present(content, spans)|
    ensures exists p: nat :: p < |spans| && spans[p] == Present(content, spans)[i]
                             && Present(content, spans)[j] !in spans[..p + 1]
  {
    hide Contains;
    var present := Present(content, spans);
    var n := |spans| - 1;
    var before := Present(content, spans[..n]);
    if j < |before| {
      PresentInOrder(content, spans[..n], i, j);
      var p: nat :| p < n && spans[..n][p] == before[i] && before[j] !in spans[..n][..p + 1];
      assert spans[..n][..p + 1] == spans[..p + 1];
    } else {
      assert before[i] in spans[..n];
      var p: nat :| p < n && spans[..n][p] == before[i];
      assert present[j] == spans[n];
      forall q | 0 <= q <= p
        ensures spans[q] != spans[n]
      {
        assert spans[..n][q] == spans[q] && spans[q] in spans[..n];
      }
      assert spans[..p + 1][p] == spans[p];
    }
  }

  /** distinctSpans; None is its one error, a disproportionate span. */
  method DistinctSpans(mode: Mode, content: bytes, oldString: bytes) returns (spans: Option<seq<bytes>>)
    ensures var present := Present(content, Candidate(mode, content, oldString));
            if exists span | span in present :: Disproportionate(span, oldString) then spans == None
            else spans == Some(present)
  {
    hide Disproportionate, Trim, LineSpans, AnchorSpans;
    var found;
    match mode {
      case Exact => found := [oldString];
      case LineTrimmed => found := LineTrimmedSpans(content, oldString);
      case BlockAnchor => found := BlockAnchorSpans(content, oldString);
    }
    var distinct: seq<bytes> := [];
    for i := 0 to |found|
      invariant distinct == Present(content, found[..i])
      invariant forall span | span in distinct :: !Disproportionate(span, oldString)
    {
      assert found[..i + 1][..i] == found[..i];
      var span := found[i];
      if span in distinct || !Contains(content, span) {
        continue;
      }
      if Disproportionate(span, oldString) {
        assert span in found;
        return None;
      }
      distinct := distinct + [span];
    }
    assert found[..|found|] == found;
    return Some(distinct);
  }

  // ---- Replacing ----

  datatype EditResult =
    | Edited(updated: bytes, matchIndex: nat, replacements: nat, mode: Mode)
    | NotFound
    | Ambiguous(count: nat)
    | TooLarge

  function TotalCount(content: bytes, spans: seq<bytes>): nat {
    if spans == [] then 0 else TotalCount(content, spans[..|spans| - 1]) + Count(content, spans[|spans| - 1])
  }

  function EarliestIndex(content: bytes, spans: seq<bytes>): (first: int)
    requires forall span | span in spans :: Contains(content, span)
    ensures 0 <= first <= |content|
    ensures forall span, i | span in spans && OccursAt(content, span, i) :: first <= i
    ensures spans != [] ==> exists span | span in spans :: OccursAt(content, span, first)
  {
    if spans == [] then |content|
    else
      var n := |spans| - 1;
      assert Contains(content, spans[n]);
      Min(EarliestIndex(content, spans[..n]), Index(content, spans[n]))
  }

  /** What one pass of a strings.Replacer does to the text: bytes kept, and spans swapped.  At each
      position the first pattern in argument order wins, and an empty match is not taken twice. */
  datatype Piece = Kept(b: byte) | Swapped(span: bytes)

  function FirstMatch(content: bytes, spans: seq<bytes>, i: nat, skipEmpty: bool): (m: Option<bytes>)
    ensures m.Some? ==> m.value in spans && OccursAt(content, m.value, i) && (skipEmpty ==> m.value != [])
    ensures m.None? ==> forall span | span in spans :: OccursAt(content, span, i) ==> skipEmpty && span == []
  {
    if spans == [] then None
    else if OccursAt(content, spans[0], i) && !(skipEmpty && spans[0] == []) then Some(spans[0])
    else FirstMatch(content, spans[1..], i, skipEmpty)
  }

  function Pieces(content: bytes, spans: seq<bytes>, i: nat, afterEmpty: bool): seq<Piece>
    requires i <= |content|
    decreases |content| - i, !afterEmpty
  {
    var m := FirstMatch(content, spans, i, afterEmpty);
    if m.Some? then [Swapped(m.value)] + Pieces(content, spans, i + |m.value|, m.value == [])
    else if i < |content| then [Kept(content[i])] + Pieces(content, spans, i + 1, false)
    else []
  }

  function TextOf(piece: Piece): bytes {
    match piece case Kept(b) => [b] case Swapped(span) => span
  }

  function Original(pieces: seq<Piece>): bytes {
    if pieces == [] then []
    else TextOf(pieces[0]) + Original(pieces[1..])
  }

  function Rewritten(pieces: seq<Piece>, newString: bytes): bytes {
    if pieces == [] then []
    else (match pieces[0] case Kept(b) => [b] case Swapped(_) => newString) + Rewritten(pieces[1..], newString)
  }

  function Swaps(pieces: seq<Piece>): nat {
    if pieces == [] then 0 else (if pieces[0].Swapped? then 1 else 0) + Swaps(pieces[1..])
  }

  /** replaceEverySpan */
  method ReplaceEverySpan(content: bytes, newString: bytes, mode: Mode, spans: seq<bytes>) returns (r: EditResult)
    requires forall span | span in spans :: Contains(content, span)
    ensures r == Edited(Rewritten(Pieces(content, spans, 0, false), newString), EarliestIndex(content, spans),
                        TotalCount(content, spans), mode)
  {
    hide Pieces, Count;
    var count, first := 0, |content|;
    for i := 0 to |spans|
      invariant count == TotalCount(content, spans[..i])
      invariant first == EarliestIndex(content, spans[..i])
    {
      assert spans[..i + 1][..i] == spans[..i] && spans[i] in spans;
      count := count + Count(content, spans[i]);
      first := Min(first, Index(content, spans[i]));
    }
    assert spans[..|spans|] == spans;
    r := Edited(Rewritten(Pieces(content, spans, 0, false), newString), first, count, mode);
  }

  /** What a strategy that found something makes of the edit. */
  function Settle(content: bytes, newString: bytes, replaceAll: bool, mode: Mode, present: seq<bytes>): EditResult
    requires present != [] && forall span | span in present :: Contains(content, span)
  {
    if replaceAll then
      Edited(Rewritten(Pieces(content, present, 0, false), newString), EarliestIndex(content, present),
             TotalCount(content, present), mode)
    else
      var span := present[0];
      assert Contains(content, span);
      var index := Index(content, span);
      if |present| > 1 || index != LastIndex(content, span) then Ambiguous(TotalCount(content, present))
      else Edited(content[..index] + newString + content[index + |span|..], index, 1, mode)
  }

  ghost function Try(mode: Mode, content: bytes, oldString: bytes, newString: bytes, replaceAll: bool): EditResult {
    var present := Present(content, Candidate(mode, content, oldString));
    if exists span | span in present :: Disproportionate(span, oldString) then TooLarge
    else if present == [] then NotFound
    else Settle(content, newString, replaceAll, mode, present)
  }

  /** Only a strategy that finds nothing at all gives way to the next. */
  ghost function Replaced(content: bytes, oldString: bytes, newString: bytes, replaceAll: bool): EditResult {
    var exact := Try(Exact, content, oldString, newString, replaceAll);
    if !exact.NotFound? then exact
    else
      var trimmed := Try(LineTrimmed, content, oldString, newString, replaceAll);
      if !trimmed.NotFound? then trimmed
      else Try(BlockAnchor, content, oldString, newString, replaceAll)
  }

  /** replaceEditSpan */
  method ReplaceEditSpan(content: bytes, oldString: bytes, newString: bytes, replaceAll: bool) returns (r: EditResult)
    ensures r == Replaced(content, oldString, newString, replaceAll)
  {
    hide Disproportionate, Candidate, Pieces, TotalCount, EarliestIndex, Count, Present, LastIndex, Index;
    var modes := [Exact, LineTrimmed, BlockAnchor];
    for m := 0 to |modes|
      invariant m > 0 ==> Try(Exact, content, oldString, newString, replaceAll) == NotFound
      invariant m > 1 ==> Try(LineTrimmed, content, oldString, newString, replaceAll) == NotFound
      invariant m > 2 ==> Try(BlockAnchor, content, oldString, newString, replaceAll) == NotFound
    {
      var mode := modes[m];
      var vetted := DistinctSpans(mode, content, oldString);
      if vetted.None? {
        return TooLarge;
      }
      var spans := vetted.value;
      if spans == [] {
        continue;
      }
      if replaceAll {
        r := ReplaceEverySpan(content, newString, mode, spans);
        return;
      }
      var span := spans[0];
      assert Contains(content, span);
      var index := Index(content, span);
      if |spans| > 1 || index != LastIndex(content, span) {
        var count := CountAll(content, spans);
        return Ambiguous(count);
      }
      return Edited(content[..index] + newString + content[index + |span|..], index, 1, mode);
    }
    return NotFound;
  }

  method CountAll(content: bytes, spans: seq<bytes>) returns (count: nat)
    ensures count == TotalCount(content, spans)
  {
    hide Count;
    count := 0;
    for i := 0 to |spans|
      invariant count == TotalCount(content, spans[..i])
    {
      assert spans[..i + 1][..i] == spans[..i];
      count := count + Count(content, spans[i]);
    }
    assert spans[..|spans|] == spans;
  }

  // ---- An edit is local ----

  /** `span` stands at `index` and nowhere else, overlaps counted. */
  ghost predicate OnlyAt(content: bytes, span: bytes, index: nat) {
    forall i :: OccursAt(content, span, i) <==> i == index
  }

  /** The edit replaces the one occurrence of `span` and leaves every other byte alone. */
  ghost predicate ReplacesOnly(r: EditResult, content: bytes, span: bytes, newString: bytes) {
    && r.Edited? && r.replacements == 1
    && OnlyAt(content, span, r.matchIndex)
    && r.matchIndex + |span| <= |content|
    && r.updated == content[..r.matchIndex] + newString + content[r.matchIndex + |span|..]
  }

  /** Whatever strategy matched: one span changed, of the single offset it occurs at, and it was
      the only span that strategy found. */
  lemma EditIsLocal(content: bytes, oldString: bytes, newString: bytes)
    ensures var r := Replaced(content, oldString, newString, false);
            r.Edited? ==>
              exists span ::
                && ReplacesOnly(r, content, span, newString)
                && Present(content, Candidate(r.mode, content, oldString)) == [span]
                && !Disproportionate(span, oldString)
  {
    hide Disproportionate, Candidate, TotalCount;
    var r := Replaced(content, oldString, newString, false);
    if r.Edited? {
      var present := Present(content, Candidate(r.mode, content, oldString));
      assert r == Try(r.mode, content, oldString, newString, false);
      var span := present[0];
      assert span in present;
      assert present == [span];
      forall i
        ensures OccursAt(content, span, i) <==> i == r.matchIndex
      {
      }
      assert ReplacesOnly(r, content, span, newString);
    }
  }

  // ---- Exact comes first, and is final ----

  lemma ExactIsNeverTooLarge(find: bytes)
    ensures !Disproportionate(find, find)
  {
  }

  lemma ExactCandidate(content: bytes, oldString: bytes)
    ensures Present(content, Candidate(Exact, content, oldString)) ==
            if Contains(content, oldString) then [oldString] else []
  {
    assert [oldString][..0] == [];
    assert Present(content, []) == [];
  }

  lemma TotalOfOne(content: bytes, span: bytes)
    ensures TotalCount(content, [span]) == Count(content, span)
  {
    hide Count;
    assert [span][..0] == [];
    assert TotalCount(content, [span]) == TotalCount(content, [span][..0]) + Count(content, span);
  }

  lemma {:induction false} TotalsAddUp(content: bytes, a: seq<bytes>, b: seq<bytes>)
    ensures TotalCount(content, a + b) == TotalCount(content, a) + TotalCount(content, b)
    ensures TotalCount(content, []) == 0
  {
    hide Count;
    if b == [] {
      assert a + b == a;
    } else {
      var n := |b| - 1;
      TotalsAddUp(content, a, b[..n]);
      assert (a + b)[..|a + b| - 1] == a + b[..n];
    }
  }

  lemma ExactIsTried(content: bytes, oldString: bytes, newString: bytes, replaceAll: bool)
    requires Contains(content, oldString)
    ensures Replaced(content, oldString, newString, replaceAll) ==
            Settle(content, newString, replaceAll, Exact, [oldString])
  {
    ExactIsNeverTooLarge(oldString);
    ExactCandidate(content, oldString);
    hide Disproportionate, Candidate, Count, Pieces, EarliestIndex, TotalCount, Present;
  }

  lemma FirstIsLast(content: bytes, span: bytes, i: nat)
    requires OccursAt(content, span, i)
    ensures Index(content, span) == LastIndex(content, span) ==> OnlyAt(content, span, i) && Index(content, span) == i
    ensures Index(content, span) != LastIndex(content, span) ==> !OnlyAt(content, span, i)
  {
    var first, last := Index(content, span), LastIndex(content, span);
    assert first <= i <= last;
    if first == last {
      forall j
        ensures OccursAt(content, span, j) <==> j == i
      {
      }
    } else {
      assert OccursAt(content, span, first) && OccursAt(content, span, last);
    }
  }

  /** An old_string that occurs exactly once is always edited there; one that occurs more than once
      is always ambiguous, and no fuzzy strategy rescues it. */
  lemma ExactDecides(content: bytes, oldString: bytes, newString: bytes, i: nat)
    requires OccursAt(content, oldString, i)
    ensures var r := Replaced(content, oldString, newString, false);
            if OnlyAt(content, oldString, i) then
              ReplacesOnly(r, content, oldString, newString) && r.mode == Exact && r.matchIndex == i
            else r == Ambiguous(Count(content, oldString))
  {
    ExactIsTried(content, oldString, newString, false);
    TotalOfOne(content, oldString);
    FirstIsLast(content, oldString, i);
    hide Replaced, Count, TotalCount, Index, LastIndex;
  }

  lemma TriedInVain(mode: Mode, content: bytes, oldString: bytes, newString: bytes, replaceAll: bool)
    ensures Try(mode, content, oldString, newString, replaceAll) == NotFound <==>
            Present(content, Candidate(mode, content, oldString)) == []
  {
    hide Candidate, Disproportionate, Pieces, TotalCount, EarliestIndex, Present;
  }

  lemma ModeOfTry(mode: Mode, content: bytes, oldString: bytes, newString: bytes, replaceAll: bool)
    ensures var r := Try(mode, content, oldString, newString, replaceAll);
            r.Edited? ==> r.mode == mode
  {
    hide Candidate, Disproportionate, Pieces, TotalCount, EarliestIndex, Present;
  }

  /** The fuzzy strategies are reached exactly when old_string does not occur. */
  lemma FuzzyOnlyWithoutExact(content: bytes, oldString: bytes, newString: bytes, replaceAll: bool)
    ensures var r := Replaced(content, oldString, newString, replaceAll);
            r.Edited? ==> (r.mode == Exact <==> Contains(content, oldString))
  {
    ExactCandidate(content, oldString);
    TriedInVain(Exact, content, oldString, newString, replaceAll);
    ModeOfTry(Exact, content, oldString, newString, replaceAll);
    ModeOfTry(LineTrimmed, content, oldString, newString, replaceAll);
    ModeOfTry(BlockAnchor, content, oldString, newString, replaceAll);
    hide Try, Contains, Present, Candidate;
  }

  // ---- The fuzzy strategies edit whole lines ----

  /** Where line `i` starts. */
  function Offset(lines: seq<bytes>, i: nat): nat
    requires i <= |lines|
  {
    if i == 0 then 0 else |Join(lines[..i])| + 1
  }

  predicate LineAligned(content: bytes, index: nat, length: nat)
    requires index + length <= |content|
  {
    && (index == 0 || content[index - 1] == NEWLINE)
    && (index + length == |content| || content[index + length] == NEWLINE)
  }

  lemma TextAround(before: bytes, span: bytes, after: bytes)
    ensures OccursAt(before + span + after, span, |before|)
  {
    assert (before + span + after)[|before|..|before| + |span|] == span;
  }

  lemma BlockOccurs(lines: seq<bytes>, i: nat, j: nat)
    requires i < j <= |lines|
    ensures var content, span := Join(lines), Join(lines[i..j]);
            OccursAt(content, span, Offset(lines, i)) && LineAligned(content, Offset(lines, i), |span|)
  {
    hide Join, OccursAt;
    var head := if i == 0 then [] else Join(lines[..i]) + [NEWLINE];
    var span := Join(lines[i..j]);
    var tail := if j == |lines| then [] else [NEWLINE] + Join(lines[j..]);
    if i > 0 {
      JoinConcat(lines[..i], lines[i..j]);
      assert lines[..i] + lines[i..j] == lines[..j];
    } else {
      assert lines[i..j] == lines[..j];
    }
    assert Join(lines[..j]) == head + span;
    if j < |lines| {
      JoinConcat(lines[..j], lines[j..]);
      assert lines[..j] + lines[j..] == lines;
      assert head + span + [NEWLINE] + Join(lines[j..]) == head + span + tail;
    } else {
      assert lines[..j] == lines;
      assert head + span + [] == head + span;
    }
    TextAround(head, span, tail);
    assert Join(lines) == head + span + tail;
  }

  lemma OffsetsDiffer(lines: seq<bytes>, i: nat, j: nat)
    requires i < j <= |lines|
    ensures Offset(lines, i) < Offset(lines, j)
  {
    if i > 0 {
      JoinConcat(lines[..i], lines[i..j]);
      assert lines[..i] + lines[i..j] == lines[..j];
    }
  }

  predicate BlockIs(lines: seq<bytes>, search: seq<bytes>, k: nat, span: bytes) {
    BlockMatches(lines, search, k) && span == Join(lines[k..k + |search|])
  }

  lemma {:induction false} SpansAreBlocks(lines: seq<bytes>, search: seq<bytes>, i: nat, span: bytes)
    ensures span in LineSpans(lines, search, i) <==> exists k :: i <= k && BlockIs(lines, search, k, span)
    decreases |lines| + 1 - i
  {
    hide Join, Trim;
    if i + |search| <= |lines| {
      SpansAreBlocks(lines, search, i + 1, span);
      hide BlockMatches;
      var head := if BlockMatches(lines, search, i) then [Join(lines[i..i + |search|])] else [];
      assert LineSpans(lines, search, i) == head + LineSpans(lines, search, i + 1);
      assert span in head <==> BlockIs(lines, search, i, span);
    }
  }

  lemma {:induction false} SearchHasLines(find: bytes)
    requires find != []
    ensures SearchLines(find) != []
  {
    JoinOfSplit(find);
  }

  lemma EmptyOccurs(content: bytes)
    ensures Contains(content, [])
  {
    assert OccursAt(content, [], 0);
  }

  lemma FuzzyHasLines(content: bytes, oldString: bytes)
    requires !Contains(content, oldString)
    ensures SearchLines(oldString) != []
  {
    EmptyOccurs(content);
    SearchHasLines(oldString);
  }

  /** Every matching block is a candidate the strategy keeps. */
  lemma BlockIsPresent(content: bytes, oldString: bytes, k: nat)
    requires var lines, search := Split(content), SearchLines(oldString);
             search != [] && BlockMatches(lines, search, k)
    ensures var lines, search := Split(content), SearchLines(oldString);
            var span := Join(lines[k..k + |search|]);
            && OccursAt(content, span, Offset(lines, k)) && LineAligned(content, Offset(lines, k), |span|)
            && span in Present(content, Candidate(LineTrimmed, content, oldString))
  {
    hide Trim, LineSpans, Join, Split, SearchLines;
    var lines, search := Split(content), SearchLines(oldString);
    JoinOfSplit(content);
    BlockOccurs(lines, k, k + |search|);
    SpansAreBlocks(lines, search, 0, Join(lines[k..k + |search|]));
    assert BlockIs(lines, search, k, Join(lines[k..k + |search|]));
  }

  /** The edit is of the block at line `i`, the only one that matches line by line. */
  ghost predicate EditsBlock(r: EditResult, content: bytes, oldString: bytes, newString: bytes, i: nat)
    requires r.Edited?
  {
    var lines, search := Split(content), SearchLines(oldString);
    && BlockMatches(lines, search, i)
    && (forall k: nat :: BlockMatches(lines, search, k) ==> k == i)
    && r.matchIndex == Offset(lines, i)
    && var span := Join(lines[i..i + |search|]);
       ReplacesOnly(r, content, span, newString) && LineAligned(content, r.matchIndex, |span|)
  }

  /** A line-trimmed edit lands on the one block of whole lines that matches old_string line by
      line, whitespace at the ends of lines aside. */
  lemma LineTrimmedEdit(content: bytes, oldString: bytes, newString: bytes)
    ensures var r := Replaced(content, oldString, newString, false);
            r.Edited? && r.mode == LineTrimmed ==> exists i: nat :: EditsBlock(r, content, oldString, newString, i)
  {
    var r := Replaced(content, oldString, newString, false);
    if r.Edited? && r.mode == LineTrimmed {
      EditIsLocal(content, oldString, newString);
      FuzzyOnlyWithoutExact(content, oldString, newString, false);
      FuzzyHasLines(content, oldString);
      LineTrimmedBlock(content, oldString, newString, r);
    }
  }

  lemma LineTrimmedBlock(content: bytes, oldString: bytes, newString: bytes, r: EditResult)
    requires r.Edited? && SearchLines(oldString) != []
    requires exists span ::
               && ReplacesOnly(r, content, span, newString)
               && Present(content, Candidate(LineTrimmed, content, oldString)) == [span]
    ensures exists i: nat :: EditsBlock(r, content, oldString, newString, i)
  {
    hide Join, LineSpans, Trim, Split, SearchLines, Disproportionate;
    var lines, search := Split(content), SearchLines(oldString);
    var span :| ReplacesOnly(r, content, span, newString) &&
                Present(content, Candidate(LineTrimmed, content, oldString)) == [span];
    assert span in [span];
    assert span in Candidate(LineTrimmed, content, oldString);
    SpansAreBlocks(lines, search, 0, span);
    var i: nat :| BlockIs(lines, search, i, span);
    BlockIsPresent(content, oldString, i);
    forall k: nat | BlockMatches(lines, search, k)
      ensures k == i
    {
      BlockIsPresent(content, oldString, k);
      assert Join(lines[k..k + |search|]) == span;
      if k < i {
        OffsetsDiffer(lines, k, i);
      } else if i < k {
        OffsetsDiffer(lines, i, k);
      }
    }
    assert EditsBlock(r, content, oldString, newString, i);
  }

  /** The edit is of candidate `c`, similar enough, no less so than any other, and before any other as
      similar. */
  ghost predicate EditsCandidate(r: EditResult, content: bytes, oldString: bytes, newString: bytes, c: Anchor)
    requires r.Edited?
  {
    var lines, search := Split(content), SearchLines(oldString);
    && |search| >= 3 && BestAnchor(lines, search, c)
    && r.matchIndex == Offset(lines, c.start)
    && var span := Join(lines[c.start..c.end + 1]);
       ReplacesOnly(r, content, span, newString) && LineAligned(content, r.matchIndex, |span|)
  }

  /** A block-anchor edit is made only where no block matches even loosely line by line, and lands
      on the most similar of the blocks old_string's first and last lines bound: whole lines,
      about as many of them, similar enough in between. */
  lemma BlockAnchorEdit(content: bytes, oldString: bytes, newString: bytes)
    ensures var r := Replaced(content, oldString, newString, false);
            r.Edited? && r.mode == BlockAnchor ==>
              && (forall k: nat :: !BlockMatches(Split(content), SearchLines(oldString), k))
              && exists c :: EditsCandidate(r, content, oldString, newString, c)
  {
    hide Present, Candidate, Join, OnlyAt, BlockMatches, Similarity, SearchLines;
    var r := Replaced(content, oldString, newString, false);
    if r.Edited? && r.mode == BlockAnchor {
      EditIsLocal(content, oldString, newString);
      FuzzyOnlyWithoutExact(content, oldString, newString, false);
      FuzzyHasLines(content, oldString);
      NoBlockMatches(content, oldString, newString);
      BlockAnchorBlock(content, oldString, newString, r);
    }
  }

  lemma NoBlockMatches(content: bytes, oldString: bytes, newString: bytes)
    requires SearchLines(oldString) != []
    requires Try(LineTrimmed, content, oldString, newString, false).NotFound?
    ensures forall k: nat :: !BlockMatches(Split(content), SearchLines(oldString), k)
  {
    hide Join, LineSpans, Trim, Split, SearchLines, Disproportionate, Candidate;
    forall k: nat | BlockMatches(Split(content), SearchLines(oldString), k)
      ensures false
    {
      BlockIsPresent(content, oldString, k);
    }
  }

  lemma BlockAnchorBlock(content: bytes, oldString: bytes, newString: bytes, r: EditResult)
    requires r.Edited?
    requires exists span ::
               && ReplacesOnly(r, content, span, newString)
               && Present(content, Candidate(BlockAnchor, content, oldString)) == [span]
    ensures exists c :: EditsCandidate(r, content, oldString, newString, c)
  {
    hide Join, Similarity, Candidates, Trim, Split, SearchLines, Disproportionate, BestOf;
    var lines, search := Split(content), SearchLines(oldString);
    var span :| ReplacesOnly(r, content, span, newString) &&
                Present(content, Candidate(BlockAnchor, content, oldString)) == [span];
    assert span in [span];
    assert span in AnchorSpans(content, oldString);
    var candidates := Candidates(lines, search, 0);
    var c := BestOf(lines, search, candidates, |candidates|);
    CandidatesAreInRange(lines, search);
    BestIsBest(lines, search);
    JoinOfSplit(content);
    BlockOccurs(lines, c.start, c.end + 1);
    assert EditsCandidate(r, content, oldString, newString, c);
  }

  lemma AnchorSpanOccurs(content: bytes, oldString: bytes)
    ensures forall span | span in AnchorSpans(content, oldString) :: Contains(content, span)
  {
    hide Join, Similarity, Candidates, Trim, Split, SearchLines, BestOf;
    var lines, search := Split(content), SearchLines(oldString);
    if AnchorSpans(content, oldString) != [] {
      var candidates := Candidates(lines, search, 0);
      CandidatesAreInRange(lines, search);
      var c := BestOf(lines, search, candidates, |candidates|);
      JoinOfSplit(content);
      BlockOccurs(lines, c.start, c.end + 1);
    }
  }

  ghost predicate SomeBlockAnchors(content: bytes, oldString: bytes) {
    var lines, search := Split(content), SearchLines(oldString);
    |search| >= 3 && exists c :: IsCandidate(lines, search, c) && Similarity(lines, search, c) >= SIMILARITY_THRESHOLD
  }

  lemma AnchorFoundExactly(content: bytes, oldString: bytes)
    ensures AnchorSpans(content, oldString) == [] <==> !SomeBlockAnchors(content, oldString)
  {
    hide Join, Similarity, Candidates, IsCandidate, Split, SearchLines, BestOf;
    var lines, search := Split(content), SearchLines(oldString);
    if |search| >= 3 {
      CandidatesAreCandidates(lines, search, 0);
      if Candidates(lines, search, 0) != [] {
        BestIsBest(lines, search);
      }
    }
  }

  ghost predicate SomeBlockMatches(content: bytes, oldString: bytes) {
    exists k: nat :: BlockMatches(Split(content), SearchLines(oldString), k)
  }

  lemma NoSpansNoBlocks(content: bytes, oldString: bytes)
    requires SearchLines(oldString) != []
    ensures Present(content, Candidate(LineTrimmed, content, oldString)) == [] <==>
            !SomeBlockMatches(content, oldString)
  {
    hide Join, LineSpans, Trim, SearchLines;
    var lines, search := Split(content), SearchLines(oldString);
    var present := Present(content, Candidate(LineTrimmed, content, oldString));
    if present != [] {
      var span := present[0];
      assert span in present;
      assert span in LineSpans(lines, search, 0);
      SpansAreBlocks(lines, search, 0, span);
      var k: nat :| BlockIs(lines, search, k, span);
    } else if k: nat :| BlockMatches(lines, search, k) {
      BlockIsPresent(content, oldString, k);
    }
  }

  lemma NoSpansNoAnchor(content: bytes, oldString: bytes)
    ensures Present(content, Candidate(BlockAnchor, content, oldString)) == [] <==>
            AnchorSpans(content, oldString) == []
  {
    AnchorSpanOccurs(content, oldString);
    hide AnchorSpans, Contains;
    var anchored := AnchorSpans(content, oldString);
    if anchored != [] {
      assert anchored[0] in Present(content, anchored);
    }
  }

  /** An edit is reported not found exactly when no strategy has anything to offer. */
  lemma NotFoundExactly(content: bytes, oldString: bytes, newString: bytes, replaceAll: bool)
    ensures Replaced(content, oldString, newString, replaceAll) == NotFound <==>
            && !Contains(content, oldString)
            && !SomeBlockMatches(content, oldString)
            && !SomeBlockAnchors(content, oldString)
  {
    AnchorFoundExactly(content, oldString);
    TriedInVain(Exact, content, oldString, newString, replaceAll);
    TriedInVain(LineTrimmed, content, oldString, newString, replaceAll);
    TriedInVain(BlockAnchor, content, oldString, newString, replaceAll);
    ExactCandidate(content, oldString);
    if !Contains(content, oldString) {
      FuzzyHasLines(content, oldString);
      NoSpansNoBlocks(content, oldString);
      NoSpansNoAnchor(content, oldString);
    }
    hide Try, Candidate, Present, AnchorSpans, SomeBlockMatches, SomeBlockAnchors, Contains;
  }

  /** The strategy before this one, and the one before that, found nothing. */
  ghost predicate ComesTo(mode: Mode, content: bytes, oldString: bytes) {
    && (mode != Exact ==> !Contains(content, oldString))
    && (mode == BlockAnchor ==> !SomeBlockMatches(content, oldString))
  }

  lemma StrategyIsTried(mode: Mode, content: bytes, oldString: bytes, newString: bytes, replaceAll: bool)
    requires ComesTo(mode, content, oldString) && Present(content, Candidate(mode, content, oldString)) != []
    ensures Replaced(content, oldString, newString, replaceAll) == Try(mode, content, oldString, newString, replaceAll)
  {
    TriedInVain(Exact, content, oldString, newString, replaceAll);
    TriedInVain(LineTrimmed, content, oldString, newString, replaceAll);
    TriedInVain(BlockAnchor, content, oldString, newString, replaceAll);
    ExactCandidate(content, oldString);
    if !Contains(content, oldString) {
      FuzzyHasLines(content, oldString);
      NoSpansNoBlocks(content, oldString);
    }
    hide Try, Candidate, Present, SomeBlockMatches, Contains;
  }

  lemma SettlesOne(content: bytes, newString: bytes, mode: Mode, present: seq<bytes>)
    requires present != [] && forall span | span in present :: Contains(content, span)
    ensures var r := Settle(content, newString, false, mode, present);
            if |present| == 1 && exists i: nat :: OnlyAt(content, present[0], i) then
              r.Edited? && r.mode == mode && ReplacesOnly(r, content, present[0], newString)
            else r == Ambiguous(TotalCount(content, present))
  {
    hide Pieces, Rewritten, TotalCount, EarliestIndex, Index, LastIndex, OnlyAt;
    var span := present[0];
    assert Contains(content, span);
    var first := Index(content, span);
    FirstIsLast(content, span, first);
    if i: nat :| OnlyAt(content, span, i) {
      OnlyOne(content, span, i, first);
    }
  }

  lemma OnlyOne(content: bytes, span: bytes, i: nat, j: nat)
    requires OnlyAt(content, span, i) && OccursAt(content, span, j)
    ensures i == j
  {
  }

  /** The first strategy to find anything settles the edit: too large where one of its spans is, else
      every span with replace_all, else its one span where that stands at one offset, else
      ambiguous, with every occurrence counted. */
  lemma FirstToFindDecides(mode: Mode, content: bytes, oldString: bytes, newString: bytes, replaceAll: bool)
    requires ComesTo(mode, content, oldString) && Present(content, Candidate(mode, content, oldString)) != []
    ensures var present := Present(content, Candidate(mode, content, oldString));
            var r := Replaced(content, oldString, newString, replaceAll);
            if exists span | span in present :: Disproportionate(span, oldString) then r == TooLarge
            else if replaceAll then
              r == Edited(Rewritten(Pieces(content, present, 0, false), newString), EarliestIndex(content, present),
                          TotalCount(content, present), mode)
            else if |present| == 1 && exists i: nat :: OnlyAt(content, present[0], i) then
              r.Edited? && r.mode == mode && ReplacesOnly(r, content, present[0], newString)
            else r == Ambiguous(TotalCount(content, present))
  {
    StrategyIsTried(mode, content, oldString, newString, replaceAll);
    if !replaceAll {
      SettlesOne(content, newString, mode, Present(content, Candidate(mode, content, oldString)));
    }
    hide Replaced, Candidate, Disproportionate, Pieces, Rewritten, TotalCount, EarliestIndex, Present, OnlyAt, Contains,
      ReplacesOnly;
  }

  // ---- replace_all ----

  /** At `pos` a byte is kept only where no pattern stands, and a span swapped only where no pattern
      before it does, empty ones aside. */
  ghost predicate PieceFits(content: bytes, spans: seq<bytes>, pos: nat, piece: Piece) {
    match piece
    case Kept(_) => forall span | span in spans && span != [] :: !OccursAt(content, span, pos)
    case Swapped(span) =>
      && OccursAt(content, span, pos)
      && exists k :: 0 <= k < |spans| && spans[k] == span &&
           forall j | 0 <= j < k :: spans[j] != [] ==> !OccursAt(content, spans[j], pos)
  }

  lemma {:induction false} MatchFits(content: bytes, spans: seq<bytes>, i: nat, skipEmpty: bool)
    ensures var m := FirstMatch(content, spans, i, skipEmpty);
            if m.Some? then PieceFits(content, spans, i, Swapped(m.value))
            else forall b :: PieceFits(content, spans, i, Kept(b))
  {
    hide OccursAt;
    var m := FirstMatch(content, spans, i, skipEmpty);
    if m.Some? {
      if OccursAt(content, spans[0], i) && !(skipEmpty && spans[0] == []) {
        assert spans[0] == m.value;
      } else {
        MatchFits(content, spans[1..], i, skipEmpty);
        var k :| 0 <= k < |spans[1..]| && spans[1..][k] == m.value &&
                 forall j | 0 <= j < k :: spans[1..][j] != [] ==> !OccursAt(content, spans[1..][j], i);
        forall j | 0 <= j < k + 1 && spans[j] != []
          ensures !OccursAt(content, spans[j], i)
        {
          assert j > 0 ==> spans[1..][j - 1] == spans[j];
        }
        assert spans[k + 1] == m.value;
      }
    }
  }

  /** A pass misses nothing: each of its pieces fits where it stands in the text. */
  lemma {:induction false} PassMissesNothing(content: bytes, spans: seq<bytes>, i: nat, afterEmpty: bool, q: nat)
    requires i <= |content| && q < |Pieces(content, spans, i, afterEmpty)|
    ensures var pieces := Pieces(content, spans, i, afterEmpty);
            PieceFits(content, spans, i + |Original(pieces[..q])|, pieces[q])
    decreases |content| - i, !afterEmpty
  {
    hide PieceFits, OccursAt, FirstMatch, Original;
    var pieces := Pieces(content, spans, i, afterEmpty);
    var m := FirstMatch(content, spans, i, afterEmpty);
    MatchFits(content, spans, i, afterEmpty);
    NothingYet(pieces);
    if q > 0 {
      if m.Some? {
        OccursWithin(content, m.value, i);
        PassMissesNothing(content, spans, i + |m.value|, m.value == [], q - 1);
      } else {
        PassMissesNothing(content, spans, i + 1, false, q - 1);
      }
      OriginalCons(pieces[0], pieces[1..][..q - 1]);
      assert pieces[..q] == [pieces[0]] + pieces[1..][..q - 1];
    }
  }

  lemma NothingYet(pieces: seq<Piece>)
    ensures Original(pieces[..0]) == []
  {
  }

  /** What a pass makes of the text: kept bytes as they were, the new string for every span swapped. */
  lemma {:induction false} RewritingIsByPiece(before: seq<Piece>, piece: Piece, after: seq<Piece>, newString: bytes)
    ensures Rewritten(before + [piece] + after, newString) ==
            Rewritten(before, newString) + (if piece.Kept? then [piece.b] else newString) + Rewritten(after, newString)
    ensures Rewritten([], newString) == [] && Swaps([]) == 0
    ensures Swaps(before + [piece] + after) == Swaps(before) + (if piece.Kept? then 0 else 1) + Swaps(after)
  {
    if before == [] {
      assert before + [piece] + after == [piece] + after && ([piece] + after)[1..] == after;
    } else {
      RewritingIsByPiece(before[1..], piece, after, newString);
      assert (before + [piece] + after)[1..] == before[1..] + [piece] + after;
      Regroup(match before[0] case Kept(b) => [b] case Swapped(_) => newString, Rewritten(before[1..], newString),
              if piece.Kept? then [piece.b] else newString, Rewritten(after, newString));
    }
  }

  lemma Regroup(a: bytes, b: bytes, c: bytes, d: bytes)
    ensures a + (b + c + d) == a + b + c + d
  {
  }

  lemma OriginalCons(piece: Piece, rest: seq<Piece>)
    ensures Original([piece] + rest) == TextOf(piece) + Original(rest)
  {
    assert ([piece] + rest)[1..] == rest;
  }

  lemma SwappedStep(content: bytes, span: bytes, i: nat, rest: seq<Piece>)
    requires OccursAt(content, span, i) && Original(rest) == content[i + |span|..]
    ensures Original([Swapped(span)] + rest) == content[i..]
  {
    OriginalCons(Swapped(span), rest);
    assert content[i..] == span + content[i + |span|..];
  }

  lemma KeptStep(content: bytes, i: nat, rest: seq<Piece>)
    requires i < |content| && Original(rest) == content[i + 1..]
    ensures Original([Kept(content[i])] + rest) == content[i..]
  {
    OriginalCons(Kept(content[i]), rest);
    assert content[i..] == [content[i]] + content[i + 1..];
  }

  lemma {:induction false} PassKeepsText(content: bytes, spans: seq<bytes>, i: nat, afterEmpty: bool)
    requires i <= |content|
    ensures Original(Pieces(content, spans, i, afterEmpty)) == content[i..]
    decreases |content| - i, !afterEmpty
  {
    hide OccursAt, FirstMatch, Original;
    var m := FirstMatch(content, spans, i, afterEmpty);
    if m.Some? {
      OccursWithin(content, m.value, i);
      PassKeepsText(content, spans, i + |m.value|, m.value == []);
      SwappedStep(content, m.value, i, Pieces(content, spans, i + |m.value|, m.value == []));
    } else if i < |content| {
      PassKeepsText(content, spans, i + 1, false);
      KeptStep(content, i, Pieces(content, spans, i + 1, false));
    } else {
      NothingYet([]);
    }
  }

  ghost predicate SwapsOnly(pieces: seq<Piece>, spans: seq<bytes>) {
    forall piece | piece in pieces :: piece.Swapped? ==> piece.span in spans
  }

  lemma {:induction false} PassSwapsOnly(content: bytes, spans: seq<bytes>, i: nat, afterEmpty: bool)
    requires i <= |content|
    ensures SwapsOnly(Pieces(content, spans, i, afterEmpty), spans)
    decreases |content| - i, !afterEmpty
  {
    var m := FirstMatch(content, spans, i, afterEmpty);
    if m.Some? {
      PassSwapsOnly(content, spans, i + |m.value|, m.value == []);
    } else if i < |content| {
      PassSwapsOnly(content, spans, i + 1, false);
    }
  }

  /** A replacer's pass rewrites only spans it was given: put the spans back and the text is the
      one it started from. */
  lemma PassTouchesOnlySpans(content: bytes, spans: seq<bytes>)
    ensures var pieces := Pieces(content, spans, 0, false);
            Original(pieces) == content && SwapsOnly(pieces, spans)
  {
    PassKeepsText(content, spans, 0, false);
    PassSwapsOnly(content, spans, 0, false);
  }

  /** In exact mode the reported count is the number of replacements made. */
  lemma {:induction false} ExactCountIsSwaps(content: bytes, find: bytes, i: nat)
    requires find != [] && i <= |content|
    ensures Swaps(Pieces(content, [find], i, false)) == CountFrom(content, find, i)
    decreases |content| - i
  {
    assert [find][1..] == [];
    assert FirstMatch(content, [], i, false) == None;
    if OccursAt(content, find, i) {
      var rest := Pieces(content, [find], i + |find|, false);
      ExactCountIsSwaps(content, find, i + |find|);
      assert ([Swapped(find)] + rest)[1..] == rest;
    } else if i < |content| {
      var rest := Pieces(content, [find], i + 1, false);
      ExactCountIsSwaps(content, find, i + 1);
      assert ([Kept(content[i])] + rest)[1..] == rest;
    }
  }

  /** replace_all of a string that occurs: exact mode, its first occurrence reported, as many
      replacements reported as made, and everything between them left alone. */
  lemma ExactReplaceAll(content: bytes, oldString: bytes, newString: bytes)
    requires oldString != [] && Contains(content, oldString)
    ensures var r := Replaced(content, oldString, newString, true);
            var pieces := Pieces(content, [oldString], 0, false);
            && r.Edited? && r.mode == Exact && r.matchIndex == Index(content, oldString)
            && r.updated == Rewritten(pieces, newString) && Original(pieces) == content
            && r.replacements == Swaps(pieces)
            && SwapsOnly(pieces, [oldString])
  {
    ExactIsTried(content, oldString, newString, true);
    PassTouchesOnlySpans(content, [oldString]);
    ExactCountIsSwaps(content, oldString, 0);
    TotalOfOne(content, oldString);
    hide Replaced, Pieces, Original, CountFrom, TotalCount;
    assert [oldString][..0] == [];
    assert EarliestIndex(content, [oldString]) == Min(|content|, Index(content, oldString));
  }
}
