/** Text as lines: strings.Split and strings.Join on a newline. */
module Lines {
  import opened Bytes

  function Join(lines: seq<bytes>): bytes {
    if |lines| == 0 then []
    else if |lines| == 1 then lines[0]
    else lines[0] + [NEWLINE] + Join(lines[1..])
  }

  function Split(s: bytes): (lines: seq<bytes>)
    ensures lines != []
  {
    if s == [] then [[]]
    else
      var rest := Split(s[1..]);
      if s[0] == NEWLINE then [[]] + rest else [[s[0]] + rest[0]] + rest[1..]
  }

  lemma JoinCons(line: bytes, rest: seq<bytes>)
    requires rest != []
    ensures Join([line] + rest) == line + [NEWLINE] + Join(rest)
  {
    assert ([line] + rest)[1..] == rest;
  }

  lemma Reassociate(a: bytes, b: bytes, c: bytes, d: bytes)
    ensures a + b + c + d == a + (b + c + d)
  {
  }

  lemma JoinPrepend(b: byte, lines: seq<bytes>)
    requires lines != []
    ensures Join([[b] + lines[0]] + lines[1..]) == [b] + Join(lines)
  {
    if |lines| == 1 {
      assert lines[1..] == [];
    } else {
      var line, rest := lines[0], lines[1..];
      assert lines == [line] + rest;
      JoinCons(line, rest);
      JoinCons([b] + line, rest);
      Reassociate([b], line, [NEWLINE], Join(rest));
    }
  }

  lemma {:induction false} JoinOfSplit(s: bytes)
    ensures Join(Split(s)) == s
  {
    if s != [] {
      var rest := Split(s[1..]);
      JoinOfSplit(s[1..]);
      if s[0] == NEWLINE {
        JoinCons([], rest);
      } else {
        JoinPrepend(s[0], rest);
      }
      assert s == [s[0]] + s[1..];
    }
  }

  lemma {:induction false} SplitHasNoNewline(s: bytes)
    ensures forall i | 0 <= i < |Split(s)| :: NEWLINE !in Split(s)[i]
  {
    if s != [] {
      SplitHasNoNewline(s[1..]);
    }
  }

  lemma {:induction false} JoinConcat(a: seq<bytes>, b: seq<bytes>)
    requires a != [] && b != []
    ensures Join(a + b) == Join(a) + [NEWLINE] + Join(b)
  {
    if |a| == 1 {
      assert (a + b)[1..] == b;
    } else {
      JoinConcat(a[1..], b);
      assert (a + b)[1..] == a[1..] + b;
    }
  }

  lemma JoinSnoc(a: seq<bytes>, line: bytes)
    requires a != []
    ensures Join(a + [line]) == Join(a) + [NEWLINE] + line
  {
    JoinConcat(a, [line]);
  }

  /** A newline at the end of a text opens one more line, an empty one. */
  lemma {:induction false} SplitSnoc(s: bytes)
    ensures Split(s + [NEWLINE]) == Split(s) + [[]]
  {
    if s == [] {
      assert s + [NEWLINE] == [NEWLINE] && [NEWLINE][1..] == [];
      assert Split([NEWLINE]) == [[]] + Split([]);
    } else {
      SplitSnoc(s[1..]);
      assert (s + [NEWLINE])[1..] == s[1..] + [NEWLINE];
    }
  }

  /** The last line of a text is empty exactly when the text is, or ends in a newline. */
  lemma {:induction false} LastLine(s: bytes)
    ensures Split(s)[|Split(s)| - 1] == [] <==> s == [] || s[|s| - 1] == NEWLINE
  {
    if s != [] {
      LastLine(s[1..]);
      SplitEmpty(s[1..]);
    }
  }

  lemma SplitEmpty(s: bytes)
    ensures |Split(s)| == 1 && Split(s)[0] == [] ==> s == []
  {
    JoinOfSplit(s);
  }
}
