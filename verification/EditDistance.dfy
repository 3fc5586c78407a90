/** The edit distance behind edit_file's fuzzy matching (internal/agent/editfile.go).

    The independent notion is an edit script: a list of operations with an
    interpreter.  `Dist` is the recurrence the two-row loop tabulates; the loop is
    proved to compute it, and it is proved to be the cheapest script's cost. */
module EditDistance {
  import opened Basics
  import opened Bytes

  // ---- Edit scripts ----

  datatype Edit = Keep | Put(b: byte) | Subst(b: byte) | Drop

  /** What a script makes of `a`, the script's last operation handling the last bytes.
      None when it does not fit: it keeps, replaces or drops a byte that is not
      there, or leaves part of `a` unread. */
  function Apply(script: seq<Edit>, a: bytes): Option<bytes> {
    if script == [] then
      if a == [] then Some([]) else None
    else
      var rest, op := script[..|script| - 1], script[|script| - 1];
      if op.Put? then
        match Apply(rest, a)
        case None => None
        case Some(b) => Some(b + [op.b])
      else if a == [] then
        None
      else
        match Apply(rest, a[..|a| - 1])
        case None => None
        case Some(b) =>
          match op
          case Keep => Some(b + [a[|a| - 1]])
          case Subst(c) => Some(b + [c])
          case _ => Some(b)
  }

  /** Keeping a byte is free, every other operation costs one. */
  function Cost(script: seq<Edit>): nat {
    if script == [] then 0
    else Cost(script[..|script| - 1]) + if script[|script| - 1].Keep? then 0 else 1
  }

  ghost predicate Edits(script: seq<Edit>, a: bytes, b: bytes) {
    Apply(script, a) == Some(b)
  }

  // ---- The recurrence ----

  function Min3(x: nat, y: nat, z: nat): nat {
    Min(Min(x, y), z)
  }

  function Dist(a: bytes, b: bytes): nat
    decreases |a| + |b|
  {
    if a == [] then |b|
    else if b == [] then |a|
    else
      var a', b' := a[..|a| - 1], b[..|b| - 1];
      var cost := if a[|a| - 1] == b[|b| - 1] then 0 else 1;
      Min3(Dist(a, b') + 1, Dist(a', b) + 1, Dist(a', b') + cost)
  }

  /** A script of exactly the recurrence's cost. */
  function Cheapest(a: bytes, b: bytes): (script: seq<Edit>)
    decreases |a| + |b|
  {
    if a == [] && b == [] then []
    else if a == [] then Cheapest(a, b[..|b| - 1]) + [Put(b[|b| - 1])]
    else if b == [] then Cheapest(a[..|a| - 1], b) + [Drop]
    else
      var a', b', c := a[..|a| - 1], b[..|b| - 1], b[|b| - 1];
      if Dist(a, b) == Dist(a, b') + 1 then Cheapest(a, b') + [Put(c)]
      else if Dist(a, b) == Dist(a', b) + 1 then Cheapest(a', b) + [Drop]
      else if a[|a| - 1] == c then Cheapest(a', b') + [Keep]
      else Cheapest(a', b') + [Subst(c)]
  }

  lemma Snoc(script: seq<Edit>, op: Edit)
    ensures (script + [op])[..|script|] == script
    ensures Cost(script + [op]) == Cost(script) + if op.Keep? then 0 else 1
  {
    assert (script + [op])[..|script|] == script;
  }

  lemma {:induction false} CheapestEdits(a: bytes, b: bytes)
    ensures Edits(Cheapest(a, b), a, b)
    ensures Cost(Cheapest(a, b)) == Dist(a, b)
    decreases |a| + |b|, 1
  {
    if a == [] && b == [] {
    } else if a == [] {
      assert b == b[..|b| - 1] + [b[|b| - 1]];
      CheapestEdits(a, b[..|b| - 1]);
      Snoc(Cheapest(a, b[..|b| - 1]), Put(b[|b| - 1]));
    } else if b == [] {
      CheapestEdits(a[..|a| - 1], b);
      Snoc(Cheapest(a[..|a| - 1], b), Drop);
    } else {
      CheapestEditsBoth(a, b, a[..|a| - 1], b[..|b| - 1], b[|b| - 1]);
    }
  }

  lemma {:induction false} CheapestEditsBoth(a: bytes, b: bytes, a': bytes, b': bytes, c: byte)
    requires a != [] && b != [] && a' == a[..|a| - 1] && b' == b[..|b| - 1] && c == b[|b| - 1]
    ensures Edits(Cheapest(a, b), a, b)
    ensures Cost(Cheapest(a, b)) == Dist(a, b)
    decreases |a| + |b|, 0
  {
    assert b == b' + [c];
    if Dist(a, b) == Dist(a, b') + 1 {
      CheapestEdits(a, b');
      Snoc(Cheapest(a, b'), Put(c));
    } else if Dist(a, b) == Dist(a', b) + 1 {
      CheapestEdits(a', b);
      Snoc(Cheapest(a', b), Drop);
    } else {
      CheapestEdits(a', b');
      Snoc(Cheapest(a', b'), if a[|a| - 1] == c then Keep else Subst(c));
    }
  }

  lemma {:induction false} NoScriptIsCheaper(script: seq<Edit>, a: bytes, b: bytes)
    requires Edits(script, a, b)
    ensures Dist(a, b) <= Cost(script)
    decreases |script|
  {
    if script != [] {
      var rest, op := script[..|script| - 1], script[|script| - 1];
      if op.Put? {
        NoScriptIsCheaper(rest, a, b[..|b| - 1]);
      } else {
        var a' := a[..|a| - 1];
        if op.Drop? {
          NoScriptIsCheaper(rest, a', b);
          DropOneMore(a', b, a[|a| - 1]);
        } else {
          NoScriptIsCheaper(rest, a', b[..|b| - 1]);
        }
      }
    }
  }

  lemma DropOneMore(a: bytes, b: bytes, x: byte)
    ensures Dist(a + [x], b) <= Dist(a, b) + 1
  {
    assert (a + [x])[..|a|] == a;
  }

  /** The recurrence is the cost of the cheapest edit script: one of that cost exists and
      no script turning `a` into `b` costs less. */
  lemma DistIsMinimumScriptCost(a: bytes, b: bytes)
    ensures exists script :: Edits(script, a, b) && Cost(script) == Dist(a, b)
    ensures forall script :: Edits(script, a, b) ==> Dist(a, b) <= Cost(script)
  {
    CheapestEdits(a, b);
    forall script | Edits(script, a, b)
      ensures Dist(a, b) <= Cost(script)
    {
      NoScriptIsCheaper(script, a, b);
    }
  }

  // ---- A metric ----

  lemma {:induction false} ZeroIffEqual(a: bytes, b: bytes)
    ensures Dist(a, b) == 0 <==> a == b
    decreases |a| + |b|
  {
    if a != [] && b != [] {
      var a', b' := a[..|a| - 1], b[..|b| - 1];
      ZeroIffEqual(a', b');
      assert a == a' + [a[|a| - 1]] && b == b' + [b[|b| - 1]];
    }
  }

  lemma {:induction false} Symmetric(a: bytes, b: bytes)
    ensures Dist(a, b) == Dist(b, a)
    decreases |a| + |b|
  {
    if a != [] && b != [] {
      var a', b' := a[..|a| - 1], b[..|b| - 1];
      Symmetric(a, b');
      Symmetric(a', b);
      Symmetric(a', b');
    }
  }

  /** One script doing the work of two in sequence. */
  function Compose(s: seq<Edit>, t: seq<Edit>): seq<Edit>
    decreases |s| + |t|
  {
    if s == [] then t
    else if t == [] then s
    else
      var s', t', p, q := s[..|s| - 1], t[..|t| - 1], s[|s| - 1], t[|t| - 1];
      if p.Drop? then Compose(s', t) + [Drop]
      else if q.Put? then Compose(s, t') + [q]
      else if p.Put? && q.Drop? then Compose(s', t')
      else if p.Put? then Compose(s', t') + [if q.Keep? then p else Put(q.b)]
      else if q.Drop? then Compose(s', t') + [Drop]
      else if q.Keep? then Compose(s', t') + [p]
      else Compose(s', t') + [q]
  }

  lemma {:induction false} ComposeEdits(s: seq<Edit>, t: seq<Edit>, a: bytes, b: bytes, c: bytes)
    requires Edits(s, a, b) && Edits(t, b, c)
    ensures Edits(Compose(s, t), a, c)
    ensures Cost(Compose(s, t)) <= Cost(s) + Cost(t)
    decreases |s| + |t|
  {
    if s != [] && t != [] {
      var s', t', p, q := s[..|s| - 1], t[..|t| - 1], s[|s| - 1], t[|t| - 1];
      var u := Compose(s, t);
      if p.Drop? {
        ComposeEdits(s', t, a[..|a| - 1], b, c);
        assert u[..|u| - 1] == Compose(s', t);
      } else if q.Put? {
        ComposeEdits(s, t', a, b, c[..|c| - 1]);
        assert u[..|u| - 1] == Compose(s, t');
      } else {
        var b' := b[..|b| - 1];
        var a' := if p.Put? then a else a[..|a| - 1];
        var c' := if q.Drop? then c else c[..|c| - 1];
        ComposeEdits(s', t', a', b', c');
        if !(p.Put? && q.Drop?) {
          assert u[..|u| - 1] == Compose(s', t');
        }
      }
    }
  }

  lemma {:induction false} TriangleInequality(a: bytes, b: bytes, c: bytes)
    ensures Dist(a, c) <= Dist(a, b) + Dist(b, c)
  {
    CheapestEdits(a, b);
    CheapestEdits(b, c);
    var s, t := Cheapest(a, b), Cheapest(b, c);
    ComposeEdits(s, t, a, b, c);
    NoScriptIsCheaper(Compose(s, t), a, c);
  }

  lemma {:induction false} BoundedByLonger(a: bytes, b: bytes)
    ensures Dist(a, b) <= Max(|a|, |b|)
    decreases |a| + |b|
  {
    if a != [] && b != [] {
      BoundedByLonger(a[..|a| - 1], b[..|b| - 1]);
    }
  }

  // ---- The two-row loop ----

  ghost function Row(a: bytes, b: bytes): (row: seq<nat>)
    ensures |row| == |b| + 1 && forall j | 0 <= j <= |b| :: row[j] == Dist(a, b[..j])
  {
    seq(|b| + 1, j requires 0 <= j <= |b| => Dist(a, b[..j]))
  }

  ghost predicate Follows(row: seq<nat>, above: seq<nat>, x: byte, b: bytes, j: nat)
    requires |row| == |above| == |b| + 1 && 1 <= j <= |b|
  {
    row[j] == Min3(row[j - 1] + 1, above[j] + 1, above[j - 1] + if x != b[j - 1] then 1 else 0)
  }

  ghost predicate FollowsThroughout(row: seq<nat>, above: seq<nat>, x: byte, b: bytes) {
    |row| == |above| == |b| + 1 && forall j | 1 <= j <= |b| :: Follows(row, above, x, b, j)
  }

  /** What the loop needs of two neighbouring rows. */
  lemma RowFollows(a: bytes, x: byte, b: bytes)
    ensures Row(a + [x], b)[0] == |a| + 1
    ensures FollowsThroughout(Row(a + [x], b), Row(a, b), x, b)
  {
    forall j | 1 <= j <= |b|
      ensures Follows(Row(a + [x], b), Row(a, b), x, b, j)
    {
      assert (a + [x])[..|a|] == a && b[..j][..j - 1] == b[..j - 1];
    }
  }

  /** levenshtein: two rows, one pass over `a`, each row one pass over `b`. */
  method Levenshtein(a: bytes, b: bytes) returns (distance: nat)
    ensures distance == Dist(a, b)
  {
    var previous := new nat[|b| + 1](j => j);
    ghost var above := Row([], b);
    assert previous[..] == above;
    assert a[..0] == [];
    var i := 1;
    while i <= |a|
      invariant 1 <= i <= |a| + 1
      invariant above == Row(a[..i - 1], b) && previous[..] == above
    {
      var current := new nat[|b| + 1];
      current[0] := i;
      RowFollows(a[..i - 1], a[i - 1], b);
      ghost var row := Row(a[..i - 1] + [a[i - 1]], b);
      FillRow(a, b, i, previous, current, above, row);
      assert a[..i] == a[..i - 1] + [a[i - 1]];
      previous, above := current, row;
      i := i + 1;
    }
    assert a[..|a|] == a && b[..|b|] == b;
    distance := previous[|b|];
  }

  /** The inner loop: one row from the one above it. */
  method FillRow(a: bytes, b: bytes, i: nat, previous: array<nat>, current: array<nat>,
                 ghost above: seq<nat>, ghost row: seq<nat>)
    requires 1 <= i <= |a| && previous != current
    requires FollowsThroughout(row, above, a[i - 1], b)
    requires current.Length == |b| + 1
    requires previous[..] == above && current[0] == row[0]
    modifies current
    ensures current[..] == row
  {
    var j := 1;
    while j <= |b|
      invariant 1 <= j <= |b| + 1
      invariant current[..j] == row[..j]
    {
      var cost := 0;
      if a[i - 1] != b[j - 1] {
        cost := 1;
      }
      assert Follows(row, above, a[i - 1], b, j);
      assert current[j - 1] == current[..j][j - 1] == row[j - 1];
      current[j] := Min3(current[j - 1] + 1, previous[j] + 1, previous[j - 1] + cost);
      j := j + 1;
    }
  }

  // ---- Line similarity ----

  const MAX_LEVENSHTEIN_PRODUCT: nat := 0x10_0000

  predicate TooLong(a: bytes, b: bytes) {
    |a| * |b| > MAX_LEVENSHTEIN_PRODUCT
  }

  /** lineSimilarity, over the reals. */
  function LineSimilarity(a: bytes, b: bytes): (score: real) {
    var longest := Max(|a|, |b|);
    if a == b then 1.0
    else if longest == 0 then 1.0
    else if TooLong(a, b) then 0.0
    else 1.0 - Dist(a, b) as real / longest as real
  }

  lemma QuotientWithin(d: nat, n: nat)
    requires 0 < d <= n
    ensures 0.0 < d as real / n as real <= 1.0
  {
  }

  lemma UnequalLines(a: bytes, b: bytes)
    requires a != b
    ensures 0.0 <= LineSimilarity(a, b) < 1.0
  {
    var longest := Max(|a|, |b|);
    ZeroIffEqual(a, b);
    BoundedByLonger(a, b);
    assert 0 < Dist(a, b) <= longest;
    QuotientWithin(Dist(a, b), longest);
  }

  /** A score lies in [0, 1] and is 1 exactly for equal lines. */
  lemma SimilarityIsAScore(a: bytes, b: bytes)
    ensures 0.0 <= LineSimilarity(a, b) <= 1.0
    ensures LineSimilarity(a, b) == 1.0 <==> a == b
  {
    if a != b {
      UnequalLines(a, b);
    }
  }

  ghost predicate IsCheapest(script: seq<Edit>, a: bytes, b: bytes) {
    Edits(script, a, b) && forall other :: Edits(other, a, b) ==> Cost(script) <= Cost(other)
  }

  /** Lines score by the cheapest script between them, as a share of the longer line; unequal lines too
      long to compare score nothing. */
  lemma SimilarityIsByScript(a: bytes, b: bytes, script: seq<Edit>)
    requires IsCheapest(script, a, b)
    ensures LineSimilarity(a, b) ==
            if a == b then 1.0
            else if |a| * |b| > MAX_LEVENSHTEIN_PRODUCT then 0.0
            else 1.0 - Cost(script) as real / Max(|a|, |b|) as real
  {
    hide Edits, Cost, Dist;
    DistIsMinimumScriptCost(a, b);
    assert Cost(script) == Dist(a, b);
    assert a != b ==> Max(|a|, |b|) > 0;
  }
}
