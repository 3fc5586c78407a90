/** The request's message history (genai contents, as internal/agent builds them) and the
    pairing every tool call keeps with its answer. */
module History {
  import opened Basics

  datatype Image = Image(path: string, mime: string, data: string)

  /** The keys of a tool's response map that the conversation reads; `body` is the rest. */
  datatype ToolResult = ToolResult(
    exitCode: Option<int>, error: Option<string>,
    verdict: Option<string>, note: Option<string>,
    image: Option<Image>, body: string)

  function ErrorResult(message: string): ToolResult {
    ToolResult(None, Some(message), None, None, None, "")
  }

  /** requiredCallSucceeded: a zero exit code, or no error where there is no exit code. */
  predicate Succeeded(result: ToolResult) {
    match result.exitCode
    case Some(code) => code == 0
    case None => result.error.None?
  }

  /** A tool succeeds that ran a command to exit code 0, or ran none and reports no error. */
  lemma SuccessExactly(result: ToolResult)
    ensures Succeeded(result) <==> result.exitCode == Some(0) || (result.exitCode == None && result.error == None)
    ensures forall message :: !Succeeded(ErrorResult(message))
  {
  }

  datatype Part =
    | NilPart
    | Text(text: string, thought: bool)
    | Call(id: string, name: string, args: map<string, string>)
    | Response(id: string, name: string, result: ToolResult)
    | Inline(image: Image)

  datatype Role = User | Model

  datatype Content = NilContent | Turn(role: Role, parts: seq<Part>)

  function UserText(text: string): Content {
    Turn(User, [Text(text, false)])
  }

  // ---- Calls and answers ----

  datatype Key = Key(id: string, name: string)

  function KeyOfCall(part: Part): seq<Key> {
    if part.Call? then [Key(part.id, part.name)] else []
  }

  function KeyOfResponse(part: Part): seq<Key> {
    if part.Response? then [Key(part.id, part.name)] else []
  }

  function CallKeys(parts: seq<Part>): seq<Key> {
    if parts == [] then []
    else KeyOfCall(parts[0]) + CallKeys(parts[1..])
  }

  function ResponseKeys(parts: seq<Part>): seq<Key> {
    if parts == [] then []
    else KeyOfResponse(parts[0]) + ResponseKeys(parts[1..])
  }

  /** contentHasFunctionCall */
  predicate HasCall(c: Content) {
    c.Turn? && exists part | part in c.parts :: part.Call?
  }

  /** contentHasFunctionResponse */
  predicate HasResponse(c: Content) {
    c.Turn? && exists part | part in c.parts :: part.Response?
  }

  /** `u` answers exactly the calls `m` made, one response a call, in call order. */
  predicate Answers(m: Content, u: Content) {
    m.Turn? && m.role.Model? && u.Turn? && u.role.User? && CallKeys(m.parts) == ResponseKeys(u.parts)
  }

  ghost predicate PairedAt(h: seq<Content>, i: nat)
    requires i < |h|
  {
    && (HasCall(h[i]) ==> i + 1 < |h| && Answers(h[i], h[i + 1]))
    && (HasResponse(h[i]) ==> 0 < i && Answers(h[i - 1], h[i]))
  }

  /** Every turn holding calls is followed by the turn answering it, and no answer stands alone. */
  ghost predicate WellPaired(h: seq<Content>) {
    forall i | 0 <= i < |h| :: PairedAt(h, i)
  }

  lemma {:induction false} KeysWhereCalls(parts: seq<Part>)
    ensures CallKeys(parts) != [] <==> exists part | part in parts :: part.Call?
    ensures ResponseKeys(parts) != [] <==> exists part | part in parts :: part.Response?
  {
    if parts != [] {
      KeysWhereCalls(parts[1..]);
      assert forall part | part in parts :: part == parts[0] || part in parts[1..];
    }
  }

  lemma AnswersAgree(m: Content, u: Content)
    requires Answers(m, u)
    ensures HasCall(m) <==> HasResponse(u)
  {
    KeysWhereCalls(m.parts);
    KeysWhereCalls(u.parts);
  }

  /** A history ending in an unanswered call: what only an aborted or lost turn leaves behind. */
  ghost predicate EndsUnanswered(h: seq<Content>) {
    h != [] && HasCall(h[|h| - 1]) && WellPaired(h[..|h| - 1])
  }

  lemma UnansweredIsNotPaired(h: seq<Content>)
    requires EndsUnanswered(h)
    ensures !WellPaired(h)
  {
    assert !PairedAt(h, |h| - 1);
  }

  // ---- What keeps histories paired ----

  lemma AppendPlain(h: seq<Content>, c: Content)
    requires WellPaired(h) && !HasCall(c) && !HasResponse(c)
    ensures WellPaired(h + [c])
  {
    forall i | 0 <= i < |h + [c]|
      ensures PairedAt(h + [c], i)
    {
      if i < |h| {
        assert PairedAt(h, i);
      }
    }
  }

  lemma AppendExchange(h: seq<Content>, m: Content, u: Content)
    requires WellPaired(h) && Answers(m, u) && !HasResponse(m) && !HasCall(u)
    ensures WellPaired(h + [m] + [u])
  {
    AnswersAgree(m, u);
    var whole := h + [m] + [u];
    forall i | 0 <= i < |whole|
      ensures PairedAt(whole, i)
    {
      if i < |h| {
        assert PairedAt(h, i);
      }
    }
  }

  lemma ConcatPaired(a: seq<Content>, b: seq<Content>)
    requires WellPaired(a) && WellPaired(b)
    ensures WellPaired(a + b)
  {
    forall i | 0 <= i < |a + b|
      ensures PairedAt(a + b, i)
    {
      if i < |a| {
        assert PairedAt(a, i);
      } else {
        assert PairedAt(b, i - |a|);
      }
    }
  }

  ghost predicate CleanSplit(h: seq<Content>, k: int) {
    0 <= k <= |h| && WellPaired(h[..k]) && WellPaired(h[k..])
  }

  /** A split is clean exactly where it does not stand in front of an answer. */
  lemma CleanSplitIffNoAnswerBehind(h: seq<Content>, k: nat)
    requires WellPaired(h) && k <= |h|
    ensures CleanSplit(h, k) <==> k == 0 || k == |h| || !HasResponse(h[k])
  {
    if k == 0 || k == |h| {
      assert h[..|h|] == h && h[0..] == h;
    } else if HasResponse(h[k]) {
      assert PairedAt(h, k);
      assert h[k..][0] == h[k] && !PairedAt(h[k..], 0);
    } else {
      forall i | 0 <= i < k
        ensures PairedAt(h[..k], i)
      {
        assert PairedAt(h, i);
        if i + 1 == k && HasCall(h[i]) {
          AnswersAgree(h[i], h[k]);
        }
      }
      forall i | 0 <= i < |h| - k
        ensures PairedAt(h[k..], i)
      {
        assert PairedAt(h, k + i);
      }
    }
  }

  // ---- Images (internal/agent/readimage.go) ----

  lemma {:induction false} KeysConcat(a: seq<Part>, b: seq<Part>)
    ensures CallKeys(a + b) == CallKeys(a) + CallKeys(b)
    ensures ResponseKeys(a + b) == ResponseKeys(a) + ResponseKeys(b)
  {
    if a == [] {
      assert a + b == b;
    } else {
      assert (a + b)[0] == a[0] && (a + b)[1..] == a[1..] + b;
      KeysConcat(a[1..], b);
      assert KeyOfCall(a[0]) + (CallKeys(a[1..]) + CallKeys(b)) == KeyOfCall(a[0]) + CallKeys(a[1..]) + CallKeys(b);
      assert KeyOfResponse(a[0]) + (ResponseKeys(a[1..]) + ResponseKeys(b)) ==
          KeyOfResponse(a[0]) + ResponseKeys(a[1..]) + ResponseKeys(b);
    }
  }

  function ImageOf(part: Part): seq<Part> {
    if part.Response? && part.result.image.Some? then [Inline(part.result.image.value)] else []
  }

  function ImagesOf(parts: seq<Part>): seq<Part> {
    if parts == [] then []
    else ImageOf(parts[0]) + ImagesOf(parts[1..])
  }

  lemma {:induction false} ImagesAreInline(parts: seq<Part>)
    ensures forall part | part in ImagesOf(parts) :: part.Inline?
  {
    if parts != [] {
      ImagesAreInline(parts[1..]);
    }
  }

  const IMAGES_LABEL := "The images read_file returned, in the order it was called"

  function ImageParts(parts: seq<Part>): seq<Part> {
    if ImagesOf(parts) == [] then parts
    else parts + [Text(IMAGES_LABEL, false)] + ImagesOf(parts)
  }

  /** withImageParts: the images a turn's results carry follow them, behind one label. */
  method WithImageParts(parts: seq<Part>) returns (shown: seq<Part>)
    ensures shown == ImageParts(parts)
  {
    var images := [];
    for i := 0 to |parts|
      invariant ImagesOf(parts) == images + ImagesOf(parts[i..])
    {
      assert parts[i..][1..] == parts[i + 1..];
      if parts[i].Response? && parts[i].result.image.Some? {
        images := images + [Inline(parts[i].result.image.value)];
      }
    }
    if images == [] {
      return parts;
    }
    shown := parts + [Text(IMAGES_LABEL, false)] + images;
  }

  lemma ImagePartsKeepKeys(parts: seq<Part>)
    ensures ResponseKeys(ImageParts(parts)) == ResponseKeys(parts)
    ensures CallKeys(ImageParts(parts)) == CallKeys(parts)
  {
    var caption, images := [Text(IMAGES_LABEL, false)], ImagesOf(parts);
    ImagesAreInline(parts);
    KeysWhereCalls(images);
    KeysConcat(parts, caption);
    KeysConcat(parts + caption, images);
  }

  lemma ImagesOfOne(part: Part)
    ensures ImagesOf([part]) == ImageOf(part)
  {
    assert [part][1..] == [];
  }

  lemma {:induction false} ImagesConcat(a: seq<Part>, b: seq<Part>)
    ensures ImagesOf(a + b) == ImagesOf(a) + ImagesOf(b)
  {
    if a == [] {
      assert a + b == b;
    } else {
      ImagesConcat(a[1..], b);
      assert (a + b)[1..] == a[1..] + b && (a + b)[0] == a[0];
      hide ImageOf;
      assert ImageOf(a[0]) + (ImagesOf(a[1..]) + ImagesOf(b)) == ImageOf(a[0]) + ImagesOf(a[1..]) + ImagesOf(b);
    }
  }

  /** The images are those the parts hold, in the parts' order. */
  lemma ImagesByPart(before: seq<Part>, part: Part, after: seq<Part>)
    ensures ImagesOf(before + [part] + after) ==
            ImagesOf(before)
            + (if part.Response? && part.result.image.Some? then [Inline(part.result.image.value)] else [])
            + ImagesOf(after)
    ensures ImagesOf([]) == []
  {
    ImagesConcat(before + [part], after);
    ImagesConcat(before, [part]);
    ImagesOfOne(part);
  }

  /** What is shown of a turn's answers: the answers as they were and, where any carries an image, the
      label and the images in the answers' order. */
  lemma ShownIsAnswersThenImages(parts: seq<Part>)
    ensures parts <= ImageParts(parts)
    ensures ImageParts(parts) == parts <==> forall part | part in parts :: part.Response? ==> part.result.image.None?
    ensures ImageParts(parts) != parts ==> ImageParts(parts) == parts + ([Text(IMAGES_LABEL, false)] + ImagesOf(parts))
  {
    hide ImagesOf;
    ImagesWhereHeld(parts);
    assert parts + [Text(IMAGES_LABEL, false)] + ImagesOf(parts) ==
           parts + ([Text(IMAGES_LABEL, false)] + ImagesOf(parts));
  }

  lemma {:induction false} ImagesWhereHeld(parts: seq<Part>)
    ensures ImagesOf(parts) == [] <==> forall part | part in parts :: part.Response? ==> part.result.image.None?
  {
    if parts != [] {
      ImagesWhereHeld(parts[1..]);
      assert forall part | part in parts :: part == parts[0] || part in parts[1..];
    }
  }

  const IMAGE_OMITTED := "[image omitted: this model can't be shown images]"

  function WithoutImage(part: Part): Part {
    if part.Inline? then Text(IMAGE_OMITTED, false) else part
  }

  function StripParts(parts: seq<Part>): (stripped: seq<Part>)
    ensures |stripped| == |parts|
  {
    seq(|parts|, i requires 0 <= i < |parts| => WithoutImage(parts[i]))
  }

  function StripContent(c: Content): Content {
    if c.NilContent? then c else Turn(c.role, StripParts(c.parts))
  }

  function StripImages(h: seq<Content>): (stripped: seq<Content>)
    ensures |stripped| == |h|
  {
    seq(|h|, i requires 0 <= i < |h| => StripContent(h[i]))
  }

  /** withoutImages: what a source that cannot be shown images resumes with. */
  method WithoutImages(contents: seq<Content>) returns (out: seq<Content>)
    ensures out == StripImages(contents)
  {
    out := [];
    for i := 0 to |contents|
      invariant out == StripImages(contents)[..i]
    {
      var content := contents[i];
      if content.NilContent? || !exists part | part in content.parts :: part.Inline? {
        assert StripContent(content) == content by {
          if content.Turn? {
            assert StripParts(content.parts) == content.parts;
          }
        }
        out := out + [content];
      } else {
        var parts := [];
        for j := 0 to |content.parts|
          invariant parts == StripParts(content.parts)[..j]
        {
          parts := parts + [if content.parts[j].Inline? then Text(IMAGE_OMITTED, false) else content.parts[j]];
        }
        assert parts == StripParts(content.parts);
        out := out + [Turn(content.role, parts)];
      }
      assert out[i] == StripContent(content);
    }
  }

  /** Stripping puts the placeholder where an image stood, and leaves every other part where it was. */
  lemma StripsExactlyImages(h: seq<Content>, i: nat)
    requires i < |h|
    ensures var stripped := StripImages(h)[i];
            && (h[i].NilContent? <==> stripped.NilContent?)
            && (h[i].Turn? ==>
                  && stripped.role == h[i].role && |stripped.parts| == |h[i].parts|
                  && forall p | 0 <= p < |h[i].parts| ::
                       stripped.parts[p] ==
                       if h[i].parts[p].Inline? then Text(IMAGE_OMITTED, false) else h[i].parts[p])
  {
  }

  lemma {:induction false} StripKeepsKeys(parts: seq<Part>)
    ensures CallKeys(StripParts(parts)) == CallKeys(parts)
    ensures ResponseKeys(StripParts(parts)) == ResponseKeys(parts)
  {
    if parts != [] {
      StripKeepsKeys(parts[1..]);
      assert StripParts(parts)[1..] == StripParts(parts[1..]);
    }
  }

  lemma StripKeepsCalls(c: Content)
    ensures HasCall(StripContent(c)) <==> HasCall(c)
    ensures HasResponse(StripContent(c)) <==> HasResponse(c)
  {
    if c.Turn? {
      StripKeepsKeys(c.parts);
      KeysWhereCalls(c.parts);
      KeysWhereCalls(StripParts(c.parts));
    }
  }

  lemma StripKeepsAnswers(m: Content, u: Content)
    ensures Answers(StripContent(m), StripContent(u)) <==> Answers(m, u)
  {
    if m.Turn? && u.Turn? {
      StripKeepsKeys(m.parts);
      StripKeepsKeys(u.parts);
    }
  }

  lemma StripKeepsPairedAt(h: seq<Content>, i: nat)
    requires i < |h|
    ensures PairedAt(StripImages(h), i) <==> PairedAt(h, i)
  {
    StripKeepsCalls(h[i]);
    if i + 1 < |h| {
      StripKeepsAnswers(h[i], h[i + 1]);
    }
    if i > 0 {
      StripKeepsAnswers(h[i - 1], h[i]);
    }
    hide HasCall, HasResponse, Answers, StripContent;
  }

  /** Handing a history to a blind source drops every image; it is paired exactly when the history
      was. */
  lemma StrippingKeepsPairs(h: seq<Content>)
    ensures WellPaired(StripImages(h)) <==> WellPaired(h)
    ensures forall i, part | 0 <= i < |h| && StripImages(h)[i].Turn? && part in StripImages(h)[i].parts :: !part.Inline?
  {
    forall i | 0 <= i < |h|
      ensures PairedAt(StripImages(h), i) <==> PairedAt(h, i)
    {
      StripKeepsPairedAt(h, i);
    }
  }
}
