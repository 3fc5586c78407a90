/** strings.TrimSpace, on bytes that need not be text. */
module Whitespace {
  import opened Basics
  import opened Bytes
  import Utf8
  import Unicode

  /** A white space character of Unicode, in UTF-8. */
  predicate IsSpace(c: bytes) {
    || (|c| == 1 && (9 <= c[0] <= 13 || c[0] == 32))
    || (|c| == 2 && c[0] == 0xC2 && (c[1] == 0x85 || c[1] == 0xA0))
    || (|c| == 3 && c[0] == 0xE1 && c[1] == 0x9A && c[2] == 0x80)
    || (|c| == 3 && c[0] == 0xE2 && c[1] == 0x80 && (0x80 <= c[2] <= 0x8A || c[2] in {0xA8, 0xA9, 0xAF}))
    || (|c| == 3 && c[0] == 0xE2 && c[1] == 0x81 && c[2] == 0x9F)
    || (|c| == 3 && c[0] == 0xE3 && c[1] == 0x80 && c[2] == 0x80)
  }

  /** The code point a character of up to three bytes encodes. */
  function CodePoint(c: bytes): int
    requires 1 <= |c| <= 3
  {
    if |c| == 1 then c[0] as int
    else if |c| == 2 then (c[0] as int - 0xC0) * 64 + (c[1] as int - 0x80)
    else (c[0] as int - 0xE0) * 4096 + (c[1] as int - 0x80) * 64 + (c[2] as int - 0x80)
  }

  /** The bytes listed are the encodings of the code points white space has up to three bytes. */
  lemma SpacesAreUnicodes(c: bytes)
    requires 1 <= |c| <= 3 && Utf8.IsChar(c)
    ensures IsSpace(c) <==> Unicode.IsSpace(CodePoint(c))
  {
  }

  /** `n` bytes from `i` on are one white space character. */
  predicate SpaceAt(s: bytes, i: int, n: nat) {
    1 <= n && 0 <= i && i + n <= |s| && IsSpace(s[i..i + n])
  }

  function TrimLeft(s: bytes): (t: bytes)
    ensures |t| <= |s|
  {
    if SpaceAt(s, 0, 1) then TrimLeft(s[1..])
    else if SpaceAt(s, 0, 2) then TrimLeft(s[2..])
    else if SpaceAt(s, 0, 3) then TrimLeft(s[3..])
    else s
  }

  function TrimRight(s: bytes): (t: bytes)
    ensures |t| <= |s|
  {
    var n := |s|;
    if SpaceAt(s, n - 1, 1) then TrimRight(s[..n - 1])
    else if SpaceAt(s, n - 2, 2) then TrimRight(s[..n - 2])
    else if SpaceAt(s, n - 3, 3) then TrimRight(s[..n - 3])
    else s
  }

  /** strings.TrimSpace */
  function Trim(s: bytes): bytes {
    TrimRight(TrimLeft(s))
  }

  // ---- What trimming takes, and that it takes all of it ----

  function Concat(chars: seq<bytes>): bytes {
    if chars == [] then [] else chars[0] + Concat(chars[1..])
  }

  lemma {:induction false} ConcatSnoc(chars: seq<bytes>, c: bytes)
    ensures Concat(chars + [c]) == Concat(chars) + c
    ensures Concat([c] + chars) == c + Concat(chars)
  {
    assert ([c] + chars)[1..] == chars;
    if chars == [] {
      assert chars + [c] == [c] && [c][1..] == [];
    } else {
      ConcatSnoc(chars[1..], c);
      assert (chars + [c])[1..] == chars[1..] + [c];
    }
  }

  ghost predicate AllSpaces(chars: seq<bytes>) {
    forall i | 0 <= i < |chars| :: IsSpace(chars[i])
  }

  ghost predicate BeginsWithSpace(s: bytes) {
    exists n: nat :: SpaceAt(s, 0, n)
  }

  ghost predicate EndsWithSpace(s: bytes) {
    exists i, n: nat :: SpaceAt(s, i, n) && i + n == |s|
  }

  lemma SpaceIsShort(s: bytes, i: int, n: nat)
    ensures SpaceAt(s, i, n) ==> n in {1, 2, 3}
  {
  }

  lemma NothingLeft(s: bytes)
    requires !SpaceAt(s, 0, 1) && !SpaceAt(s, 0, 2) && !SpaceAt(s, 0, 3)
    ensures !BeginsWithSpace(s)
  {
    if n :| SpaceAt(s, 0, n) {
      SpaceIsShort(s, 0, n);
    }
  }

  lemma NothingRight(s: bytes)
    requires !SpaceAt(s, |s| - 1, 1) && !SpaceAt(s, |s| - 2, 2) && !SpaceAt(s, |s| - 3, 3)
    ensures !EndsWithSpace(s)
  {
    hide SpaceAt;
    if i, n: nat :| SpaceAt(s, i, n) && i + n == |s| {
      SpaceIsShort(s, i, n);
    }
  }

  lemma {:induction false} TrimLeftTakesSpaces(s: bytes) returns (left: seq<bytes>)
    ensures s == Concat(left) + TrimLeft(s) && AllSpaces(left) && !BeginsWithSpace(TrimLeft(s))
    decreases |s|
  {
    hide IsSpace, Concat, BeginsWithSpace;
    if n: nat :| 1 <= n <= 3 && SpaceAt(s, 0, n) && TrimLeft(s) == TrimLeft(s[n..]) {
      left := TrimLeftTakesSpaces(s[n..]);
      ConcatSnoc(left, s[..n]);
      assert s[0..n] == s[..n] && s == s[..n] + s[n..];
      left := [s[..n]] + left;
    } else {
      left := [];
      NothingLeft(s);
      NoChars(s);
    }
  }

  lemma NoChars(s: bytes)
    ensures Concat([]) + s == s && s + Concat([]) == s
  {
  }

  lemma {:induction false} TrimRightTakesSpaces(s: bytes) returns (right: seq<bytes>)
    ensures s == TrimRight(s) + Concat(right) && AllSpaces(right) && !EndsWithSpace(TrimRight(s))
    decreases |s|
  {
    hide IsSpace, Concat, EndsWithSpace;
    if i: nat, n: nat :| i < |s| && SpaceAt(s, i, n) && i + n == |s| && TrimRight(s) == TrimRight(s[..i]) {
      right := TrimRightTakesSpaces(s[..i]);
      ConcatSnoc(right, s[i..]);
      assert s[i..i + n] == s[i..] && s == s[..i] + s[i..];
      right := right + [s[i..]];
    } else {
      right := [];
      NothingRight(s);
      NoChars(s);
    }
  }

  /** Trimming takes white space off both ends, and all of it. */
  lemma TrimIsTheMiddle(s: bytes) returns (left: seq<bytes>, right: seq<bytes>)
    ensures s == Concat(left) + Trim(s) + Concat(right) && AllSpaces(left) && AllSpaces(right)
    ensures !BeginsWithSpace(Trim(s)) && !EndsWithSpace(Trim(s))
  {
    hide IsSpace, Concat, TrimLeft, TrimRight, EndsWithSpace, AllSpaces;
    left := TrimLeftTakesSpaces(s);
    right := TrimRightTakesSpaces(TrimLeft(s));
    var t, trimmed := TrimLeft(s), Trim(s);
    assert t == trimmed + Concat(right);
    assert Concat(left) + (trimmed + Concat(right)) == Concat(left) + trimmed + Concat(right);
    forall n: nat | SpaceAt(trimmed, 0, n)
      ensures SpaceAt(t, 0, n)
    {
      assert trimmed[0..n] == t[0..n];
    }
  }
}
