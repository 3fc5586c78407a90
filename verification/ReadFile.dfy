/** read_file's paging by line range (internal/agent/readfile.go). */
module ReadFile {
  import opened Bytes
  import opened Lines

  const MAX_READ_FILE_BYTES: nat := 100_000

  /** What a bufio.Scanner yields: whole lines, and whether it then met one over its buffer. */
  datatype Scan = Scan(lines: seq<bytes>, tooLong: bool)

  datatype Page = Page(content: bytes, startLine: nat, endLine: nat, truncated: bool)

  /** appendRangeLine: one more line under the byte budget. */
  method AppendRangeLine(buf: bytes, text: bytes, first: bool)
    returns (grown: bytes, included: bool, stop: bool, cut: bool)
    ensures first && |text| > MAX_READ_FILE_BYTES ==>
              grown == buf + text[..MAX_READ_FILE_BYTES] && included && stop && cut
    ensures first && |text| <= MAX_READ_FILE_BYTES ==> grown == buf + text && included && !stop && !cut
    ensures !first && |buf| + |text| + 1 > MAX_READ_FILE_BYTES ==> grown == buf && !included && stop && cut
    ensures !first && |buf| + |text| + 1 <= MAX_READ_FILE_BYTES ==>
              grown == buf + [NEWLINE] + text && included && !stop && !cut
  {
    if first {
      if |text| > MAX_READ_FILE_BYTES {
        return buf + text[..MAX_READ_FILE_BYTES], true, true, true;
      }
      return buf + text, true, false, false;
    }
    if |buf| + |text| + 1 > MAX_READ_FILE_BYTES {
      return buf, false, true, true;
    }
    return buf + [NEWLINE] + text, true, false, false;
  }

  /** The last line the caller could be given: the end asked for, or the end of the file. */
  function Limit(scan: Scan, endLine: nat, hasEnd: bool): nat {
    if hasEnd && endLine < |scan.lines| then endLine else |scan.lines|
  }

  /** The first line of a page, cut to a prefix: the one way a page is not whole lines. */
  predicate CutFirst(scan: Scan, start: nat)
    requires start >= 1
  {
    start <= |scan.lines| && |scan.lines[start - 1]| > MAX_READ_FILE_BYTES
  }

  /** What a page says about the file it came from. */
  ghost predicate IsPage(page: Page, scan: Scan, start: nat, endLine: nat, hasEnd: bool)
    requires start >= 1 && (hasEnd ==> endLine >= start)
  {
    var limit := Limit(scan, endLine, hasEnd);
    && page.startLine == start && |page.content| <= MAX_READ_FILE_BYTES
    && if start > limit then
         page.endLine == start - 1 && page.content == [] && page.truncated == scan.tooLong
       else if CutFirst(scan, start) then
         page.endLine == start && page.truncated &&
         page.content == scan.lines[start - 1][..MAX_READ_FILE_BYTES]
       else
         && start <= page.endLine <= limit
         && page.content == Join(scan.lines[start - 1..page.endLine])
         && (page.endLine < limit ==>
               page.truncated && |page.content| + 1 + |scan.lines[page.endLine]| > MAX_READ_FILE_BYTES)
         && (page.endLine == limit ==>
               (page.truncated <==> scan.tooLong && limit == |scan.lines|))
  }

  /** readFileRange over scanLineRange and accumulateLineRange, from an already opened file. */
  method ReadFileRange(scan: Scan, start: nat, endLine: nat, hasEnd: bool) returns (page: Page)
    requires start >= 1 && (hasEnd ==> endLine >= start)
    ensures IsPage(page, scan, start, endLine, hasEnd)
  {
    var buf, lastLine, truncated := [], 0, false;
    var line, stopped := 0, false;
    ghost var limit := Limit(scan, endLine, hasEnd);
    while line < |scan.lines| && !stopped
      invariant 0 <= line <= |scan.lines|
      invariant !stopped ==> line <= limit
      invariant line < start ==> lastLine == 0 && buf == [] && !truncated && !stopped
      invariant start <= line && !stopped ==> lastLine == line && !truncated && !CutFirst(scan, start)
      invariant start <= line && lastLine == line && !truncated ==>
                  buf == Join(scan.lines[start - 1..line]) && |buf| <= MAX_READ_FILE_BYTES
      invariant stopped && !truncated ==>
                  lastLine == line == limit < |scan.lines| && start <= line && !CutFirst(scan, start)
      invariant stopped && truncated ==> start <= lastLine <= limit
      invariant stopped && truncated && CutFirst(scan, start) ==>
                  lastLine == start && buf == scan.lines[start - 1][..MAX_READ_FILE_BYTES]
      invariant stopped && truncated && !CutFirst(scan, start) ==>
                  && lastLine < limit && buf == Join(scan.lines[start - 1..lastLine])
                  && |buf| <= MAX_READ_FILE_BYTES < |buf| + 1 + |scan.lines[lastLine]|
      decreases |scan.lines| - line, !stopped
    {
      if hasEnd && line + 1 > endLine {
        // The scanner has read the line past the end; the loop leaves it.
        stopped := true;
      } else {
        line := line + 1;
        if line >= start {
          var text := scan.lines[line - 1];
          var included, stop, cut;
          if lastLine != 0 {
            assert start < line;
            assert scan.lines[start - 1..line] == scan.lines[start - 1..line - 1] + [text];
            JoinSnoc(scan.lines[start - 1..line - 1], text);
          } else {
            assert scan.lines[start - 1..line] == [text];
          }
          buf, included, stop, cut := AppendRangeLine(buf, text, lastLine == 0);
          if cut {
            truncated := true;
          }
          if included {
            lastLine := line;
          }
          stopped := stop;
        }
      }
    }
    // The scanner's own error, seen only by a loop that drained it.
    if !stopped && scan.tooLong {
      truncated := true;
    }
    if lastLine == 0 {
      lastLine := start - 1;
    }
    page := Page(buf, start, lastLine, truncated);
  }

  // ---- Paging through a file ----

  /** A chain of open-ended reads, each continuing at the line after the last one's end. */
  ghost predicate IsPaging(pages: seq<Page>, scan: Scan, start: nat)
    requires start >= 1
    decreases |pages|
  {
    if start > |scan.lines| then pages == []
    else
      && pages != []
      && IsPage(pages[0], scan, start, 0, false)
      && IsPaging(pages[1..], scan, pages[0].endLine + 1)
  }

  function CutLine(line: bytes): bytes {
    if |line| > MAX_READ_FILE_BYTES then line[..MAX_READ_FILE_BYTES] else line
  }

  function CutLines(lines: seq<bytes>): (cut: seq<bytes>)
    ensures |cut| == |lines|
  {
    seq(|lines|, i requires 0 <= i < |lines| => CutLine(lines[i]))
  }

  function Contents(pages: seq<Page>): (contents: seq<bytes>)
    ensures |contents| == |pages|
  {
    seq(|pages|, i requires 0 <= i < |pages| => pages[i].content)
  }

  lemma {:induction false} LongLineBreaksBudget(lines: seq<bytes>, i: nat)
    requires i < |lines|
    ensures |lines[i]| <= |Join(lines)|
  {
    if i > 0 {
      LongLineBreaksBudget(lines[1..], i - 1);
    }
  }

  /** A page is its lines with the over-long ones cut, it advances past at least one, it never goes past
      the end asked for, and it stops short of that and of the file's own end only as truncated. */
  lemma PageIsItsLines(page: Page, scan: Scan, start: nat, endLine: nat, hasEnd: bool)
    requires 1 <= start <= |scan.lines| && (hasEnd ==> endLine >= start)
    requires IsPage(page, scan, start, endLine, hasEnd)
    ensures start <= page.endLine <= |scan.lines| && (hasEnd ==> page.endLine <= endLine)
    ensures page.endLine < |scan.lines| && !(hasEnd && page.endLine == endLine) ==> page.truncated
    ensures page.content == Join(CutLines(scan.lines[start - 1..page.endLine]))
  {
    var lines := scan.lines[start - 1..page.endLine];
    if CutFirst(scan, start) {
      assert CutLines(lines) == [page.content];
    } else {
      forall i | 0 <= i < |lines|
        ensures CutLine(lines[i]) == lines[i]
      {
        LongLineBreaksBudget(lines, i);
      }
      assert CutLines(lines) == lines;
    }
  }

  /** The pages, put back together, are every line of the file in order; only a line longer
      than the whole budget lost anything, and then only its own tail. */
  lemma {:induction false} PagingReconstructs(pages: seq<Page>, scan: Scan, start: nat)
    requires 1 <= start <= |scan.lines| && IsPaging(pages, scan, start)
    ensures Join(Contents(pages)) == Join(CutLines(scan.lines[start - 1..]))
    decreases |pages|
  {
    var page, next := pages[0], pages[0].endLine + 1;
    PageIsItsLines(page, scan, start, 0, false);
    var here, rest := scan.lines[start - 1..page.endLine], scan.lines[page.endLine..];
    if next > |scan.lines| {
      assert Contents(pages) == [page.content];
      assert scan.lines[start - 1..] == here;
    } else {
      PagingReconstructs(pages[1..], scan, next);
      assert Contents(pages) == [page.content] + Contents(pages[1..]);
      JoinConcat([page.content], Contents(pages[1..]));
      assert scan.lines[start - 1..] == here + rest;
      assert CutLines(scan.lines[start - 1..]) == CutLines(here) + CutLines(rest);
      JoinConcat(CutLines(here), CutLines(rest));
    }
  }

  /** Paging from line 1 ends after at most one page a line. */
  lemma {:induction false} PagingEnds(pages: seq<Page>, scan: Scan, start: nat)
    requires 1 <= start && IsPaging(pages, scan, start)
    ensures |pages| <= if start > |scan.lines| then 0 else |scan.lines| - start + 1
    decreases |pages|
  {
    if start <= |scan.lines| {
      PageIsItsLines(pages[0], scan, start, 0, false);
      PagingEnds(pages[1..], scan, pages[0].endLine + 1);
    }
  }
}
