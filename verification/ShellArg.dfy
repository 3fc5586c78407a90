/** shellArg (internal/cli/db.go) against the quoting rules of the POSIX Shell Command
    Language, IEEE 1003.1 XCU sections 2.2.1 (escape character) and 2.2.2 (single quotes). */
module ShellArg {

  // ---- The shell's reading ----

  /** Characters the shell leaves alone in an unquoted word, wherever they stand in it. */
  predicate Plain(c: char) {
    || 'a' <= c <= 'z' || 'A' <= c <= 'Z' || '0' <= c <= '9'
    || c in "_./:@%+=,-"
  }

  datatype Reading = Unreadable | Words(words: seq<string>)

  function Prepend(word: string, r: Reading): Reading {
    if r.Words? then Words([word] + r.words) else Unreadable
  }

  /** Reads a line from outside quotes.  `word` is the word under way and `begun` says one is,
      since quotes can begin an empty word.  Anything but a plain character, a blank, an
      escape or a quoted run is outside these two sections and reads as Unreadable. */
  function ReadWords(line: string, word: string, begun: bool): Reading
    decreases |line|, 1
  {
    if line == "" then
      if begun then Words([word]) else Words([])
    else if line[0] == ' ' || line[0] == '\t' then
      if begun then Prepend(word, ReadWords(line[1..], "", false)) else ReadWords(line[1..], "", false)
    else if line[0] == '\\' then
      // 2.2.1: the next character keeps its literal value; a newline is removed with it.
      if |line| == 1 then Unreadable
      else if line[1] == '\n' then ReadWords(line[2..], word, begun)
      else ReadWords(line[2..], word + [line[1]], true)
    else if line[0] == '\'' then
      ReadQuoted(line[1..], word)
    else if Plain(line[0]) then
      ReadWords(line[1..], word + [line[0]], true)
    else
      Unreadable
  }

  /** 2.2.2: every character up to the closing quote keeps its literal value. */
  function ReadQuoted(line: string, word: string): Reading
    decreases |line|, 0
  {
    if line == "" then Unreadable
    else if line[0] == '\'' then ReadWords(line[1..], word, true)
    else ReadQuoted(line[1..], word + [line[0]])
  }

  // ---- shellArg ----

  /** strings.ReplaceAll(value, "'", `'\''`) */
  function EscapeQuotes(value: string): string {
    if value == "" then ""
    else (if value[0] == '\'' then "'\\''" else [value[0]]) + EscapeQuotes(value[1..])
  }

  /** strings.Trim by the plain set leaves nothing exactly when every character is in it. */
  predicate AllPlain(value: string) {
    forall i | 0 <= i < |value| :: Plain(value[i])
  }

  function ShellArg(value: string): string {
    if value != "" && AllPlain(value) then value
    else "'" + EscapeQuotes(value) + "'"
  }

  // ---- Round trip ----

  lemma {:induction false} PlainReadsAsItself(value: string, word: string)
    requires AllPlain(value) && (value != "" || word != "")
    ensures ReadWords(value, word, word != "") == Words([word + value])
    decreases |value|
  {
    if value == "" {
      assert word + value == word;
    } else {
      PlainReadsAsItself(value[1..], word + [value[0]]);
      assert word + [value[0]] + value[1..] == word + value;
    }
  }

  lemma {:induction false} QuotedReadsAsValue(value: string, word: string)
    ensures ReadQuoted(EscapeQuotes(value) + "'", word) == Words([word + value])
    decreases |value|
  {
    var line := EscapeQuotes(value) + "'";
    if value == "" {
      assert word + value == word;
      assert line[1..] == "";
    } else {
      var rest := EscapeQuotes(value[1..]) + "'";
      QuotedReadsAsValue(value[1..], word + [value[0]]);
      assert word + [value[0]] + value[1..] == word + value;
      if value[0] == '\'' {
        var escape := line[1..];
        var reopened := escape[2..];
        assert escape[0] == '\\' && escape[1] == '\'' && reopened[0] == '\'';
        assert reopened[1..] == rest;
        assert ReadWords(escape, word, true) == ReadWords(reopened, word + ['\''], true);
      } else {
        assert line[1..] == rest;
      }
    }
  }

  /** Quotes are put only where they may be needed: a value is printed bare exactly when it is not empty
      and all its characters are plain. */
  lemma BareWhereItCanBe(value: string)
    ensures ShellArg(value) == value <==> value != "" && AllPlain(value)
    ensures ShellArg(value) != value ==> |ShellArg(value)| >= |value| + 2
  {
    EscapingGrows(value);
  }

  lemma {:induction false} EscapingGrows(value: string)
    ensures |EscapeQuotes(value)| >= |value|
  {
    if value != "" {
      EscapingGrows(value[1..]);
    }
  }

  /** What a hint prints, pasted into a shell, is one word: the value itself. */
  lemma ShellReadsOneWord(value: string)
    ensures ReadWords(ShellArg(value), "", false) == Words([value])
  {
    if value != "" && AllPlain(value) {
      PlainReadsAsItself(value, "");
      assert "" + value == value;
    } else {
      QuotedReadsAsValue(value, "");
      var line := ShellArg(value);
      assert line[1..] == EscapeQuotes(value) + "'";
      assert "" + value == value;
    }
  }

  /** So no two values are printed alike. */
  lemma ShellArgIsInjective(a: string, b: string)
    ensures ShellArg(a) == ShellArg(b) ==> a == b
  {
    ShellReadsOneWord(a);
    ShellReadsOneWord(b);
  }
}
