/** Cuts that never split a character: internal/agent/tooloutput.go and the text test in
    internal/agent/readimage.go.  Well-formedness is the ABNF of RFC 3629, section 4. */
module Utf8 {
  import opened Basics
  import opened Bytes

  // ---- RFC 3629, section 4 ----

  predicate Tail(b: byte) {
    0x80 <= b <= 0xBF
  }

  /** The bytes allowed second, for each first byte of a longer character. */
  predicate Second(b0: byte, b1: byte) {
    (if b0 == 0xE0 then 0xA0 else if b0 == 0xF0 then 0x90 else 0x80)
    <= b1 <=
    (if b0 == 0xED then 0x9F else if b0 == 0xF4 then 0x8F else 0xBF)
  }

  /** How many bytes a character beginning with `b` has; 0 when none begins so. */
  function CharLength(b: byte): (n: nat)
    ensures n <= 4
  {
    if b <= 0x7F then 1
    else if 0xC2 <= b <= 0xDF then 2
    else if 0xE0 <= b <= 0xEF then 3
    else if 0xF0 <= b <= 0xF4 then 4
    else 0
  }

  /** UTF8-char: one well-formed character and nothing else. */
  predicate IsChar(c: bytes) {
    && c != []
    && |c| == CharLength(c[0])
    && (|c| > 1 ==> Second(c[0], c[1]))
    && forall k | 2 <= k < |c| :: Tail(c[k])
  }

  /** UTF8-octets: a sequence of well-formed characters. */
  predicate Valid(s: bytes)
    decreases |s|
  {
    s == [] ||
    var n := CharLength(s[0]);
    0 < n <= |s| && IsChar(s[..n]) && Valid(s[n..])
  }

  // ---- The two tests the standard library supplies ----

  predicate RuneStart(b: byte) {
    !Tail(b)
  }

  /** utf8.FullRune: false only for a proper prefix of some character. */
  predicate FullRune(p: bytes) {
    if p == [] then false
    else if CharLength(p[0]) <= |p| then true
    else if |p| > 1 && !Second(p[0], p[1]) then true
    else |p| > 2 && !Tail(p[2])
  }

  // ---- Character boundaries ----

  lemma {:induction false} ValidConcat(s: bytes, t: bytes)
    requires Valid(s) && Valid(t)
    ensures Valid(s + t)
    decreases |s|
  {
    if s == [] {
      assert s + t == t;
    } else {
      var n := CharLength(s[0]);
      ValidConcat(s[n..], t);
      assert (s + t)[..n] == s[..n] && (s + t)[n..] == s[n..] + t;
    }
  }

  lemma CharIsValid(c: bytes)
    requires IsChar(c)
    ensures Valid(c)
  {
    assert c[..|c|] == c && c[|c|..] == [];
  }

  /** Position `i` starts the character holding byte `k`, with whole characters before it. */
  ghost predicate Holds(s: bytes, i: nat, k: nat)
    requires k < |s|
  {
    && i <= k < i + CharLength(s[i]) <= |s|
    && IsChar(s[i..i + CharLength(s[i])])
    && Valid(s[..i])
  }

  lemma SliceOfDrop(s: bytes, n: nat, i: nat, j: nat)
    requires i <= j && n + j <= |s|
    ensures s[n..][i..j] == s[n + i..n + j]
  {
  }

  lemma PrefixPastDrop(s: bytes, n: nat, i: nat)
    requires n + i <= |s|
    ensures s[..n + i] == s[..n] + s[n..][..i]
  {
  }

  lemma ShiftHold(s: bytes, n: nat, i: nat, k: nat)
    requires n <= |s| && IsChar(s[..n]) && k < |s| - n && Holds(s[n..], i, k)
    ensures Holds(s, n + i, n + k)
  {
    var m := CharLength(s[n + i]);
    CharIsValid(s[..n]);
    ValidConcat(s[..n], s[n..][..i]);
    SliceOfDrop(s, n, i, i + m);
    PrefixPastDrop(s, n, i);
  }

  lemma {:induction false} CharAt(s: bytes, k: nat) returns (i: nat)
    requires Valid(s) && k < |s|
    ensures Holds(s, i, k)
    ensures RuneStart(s[i]) && forall j | i < j <= k :: !RuneStart(s[j])
    decreases |s|
  {
    var n := CharLength(s[0]);
    if k < n {
      i := 0;
    } else {
      var i' := CharAt(s[n..], k - n);
      i := n + i';
      ShiftHold(s, n, i', k - n);
    }
    InsideChar(s, i, k);
  }

  lemma InsideChar(s: bytes, i: nat, k: nat)
    requires k < |s| && Holds(s, i, k)
    ensures RuneStart(s[i]) && forall j | i < j <= k :: !RuneStart(s[j])
  {
    var c := s[i..i + CharLength(s[i])];
    assert c[0] == s[i];
    assert forall j | i < j <= k :: s[j] == c[j - i];
  }

  /** A cut is clean exactly where a character starts. */
  lemma {:induction false} CutIsCleanAtStarts(s: bytes, k: nat)
    requires Valid(s) && k < |s|
    ensures Valid(s[..k]) <==> RuneStart(s[k])
  {
    var i := CharAt(s, k);
    if i < k && Valid(s[..k]) {
      var j := CharAt(s[..k], k - 1);
      assert false;
    }
  }

  // ---- truncateToolOutputLimit ----

  /** What is kept of an over-long output; the marker naming the dropped count follows it. */
  method TruncateToolOutputLimit(s: bytes, limit: nat) returns (kept: bytes, dropped: nat)
    ensures kept <= s && |kept| + dropped == |s|
    ensures |s| <= limit ==> dropped == 0
    ensures |s| > limit ==> |kept| <= limit
    ensures |s| > limit && Valid(s) ==> Valid(kept) && limit - |kept| <= 3
    ensures |s| > limit && Valid(s) ==> forall k | |kept| < k <= limit :: !Valid(s[..k])
  {
    if |s| <= limit {
      return s, 0;
    }
    var cut := limit;
    while cut > 0 && !RuneStart(s[cut])
      invariant 0 <= cut <= limit
      invariant forall j | cut < j <= limit :: !RuneStart(s[j])
    {
      cut := cut - 1;
    }
    if Valid(s) {
      ghost var i := CharAt(s, limit);
      assert cut == i;
      forall k | cut < k <= limit
        ensures !Valid(s[..k])
      {
        CutIsCleanAtStarts(s, k);
      }
    }
    return s[..cut], |s| - cut;
  }

  // ---- looksBinary ----

  /** Some well-formed text begins with these bytes: they are text, wherever they were cut. */
  ghost predicate BeginsText(head: bytes) {
    exists text :: Valid(text) && head <= text
  }

  /** A character finishing an incomplete one. */
  function Finish(p: bytes): (c: bytes)
    requires p != [] && !FullRune(p)
    ensures IsChar(c) && p <= c
  {
    var b1: byte := if |p| > 1 then p[1] else if p[0] == 0xE0 then 0xA0 else if p[0] == 0xF0 then 0x90 else 0x80;
    var b2: byte := if |p| > 2 then p[2] else 0x80;
    match CharLength(p[0])
    case 2 => [p[0], b1]
    case 3 => [p[0], b1, b2]
    case _ => [p[0], b1, b2, 0x80]
  }

  lemma CutCharIsNotFull(c: bytes, m: nat)
    requires IsChar(c) && 0 < m < |c|
    ensures !FullRune(c[..m])
  {
  }

  /** Cutting a text anywhere leaves whole characters and at most three bytes of one more. */
  lemma {:induction false} CutText(text: bytes, k: nat) returns (i: nat)
    requires Valid(text) && k <= |text|
    ensures i <= k <= i + 3 && Valid(text[..i])
    ensures i < k ==> RuneStart(text[i]) && !FullRune(text[i..k])
    ensures forall j | i < j < k :: !RuneStart(text[j])
  {
    i := k;
    if k == |text| {
      assert text[..k] == text;
    } else {
      i := CharAt(text, k);
      var c := text[i..i + CharLength(text[i])];
      assert RuneStart(c[0]);
      if i < k {
        CutCharIsNotFull(c, k - i);
        assert c[..k - i] == text[i..k];
      }
    }
  }

  lemma WholeCharIsFull(s: bytes) returns (i: nat)
    requires Valid(s) && s != []
    ensures i < |s| <= i + 4 && RuneStart(s[i]) && FullRune(s[i..])
    ensures forall j | i < j < |s| :: !RuneStart(s[j])
  {
    i := CharAt(s, |s| - 1);
    assert s[i..i + CharLength(s[i])][0] == s[i];
  }

  /** looksBinary: a NUL, and bytes that begin no well-formed text. */
  method LooksBinary(head: bytes) returns (binary: bool)
    ensures binary <==> 0 in head && !BeginsText(head)
  {
    if 0 !in head {
      return false;
    }
    var text := head;
    var i := |head| - 1;
    while i >= Max(0, |head| - 4)
      invariant Max(0, |head| - 4) - 1 <= i < |head|
      invariant text == head
      invariant forall j | i < j < |head| :: !RuneStart(head[j])
    {
      if RuneStart(head[i]) {
        if !FullRune(head[i..]) {
          text := head[..i];
        }
        break;
      }
      i := i - 1;
    }
    binary := !Valid(text);
    TrimDecides(head, text, i);
  }

  ghost predicate Trimmed(head: bytes, text: bytes, i: int) {
    && -1 <= i < |head| && Max(0, |head| - 4) - 1 <= i
    && (forall j | i < j < |head| :: !RuneStart(head[j]))
    && (i >= Max(0, |head| - 4) ==> RuneStart(head[i]))
    && text == if i >= Max(0, |head| - 4) && !FullRune(head[i..]) then head[..i] else head
  }

  lemma TrimmedTextIsValid(head: bytes, text: bytes, i: int, whole: bytes)
    requires Trimmed(head, text, i) && Valid(whole) && head <= whole
    ensures Valid(text)
  {
    var k := CutText(whole, |head|);
    assert whole[..|head|] == head;
    assert whole[k..|head|] == head[k..];
    assert whole[..k] == head[..k];
    if k == |head| && head != [] {
      var l := WholeCharIsFull(head);
      assert i == l;
    }
  }

  lemma TrimDecides(head: bytes, text: bytes, i: int)
    requires Trimmed(head, text, i)
    ensures Valid(text) <==> BeginsText(head)
  {
    if Valid(text) && text != head {
      var c := Finish(head[i..]);
      CharIsValid(c);
      ValidConcat(text, c);
      assert head == text + head[i..];
    }
    forall whole | Valid(whole) && head <= whole
      ensures Valid(text)
    {
      TrimmedTextIsValid(head, text, i, whole);
    }
  }
}
