/** What one operation does to the buffer it finds, said by the slices of that buffer. */
module HashlineSplices {
  import opened Wrappers
  import opened Text
  import opened HashlineText
  import opened HashlinePatterns
  import opened HashlineRender

  lemma SpliceIs(buffer: seq<string>, from: nat, count: nat, text: seq<string>)
    requires from + count <= |buffer|
    ensures Splice(buffer, from, count, text) == buffer[..from] + text + buffer[from + count..]
  {
    assert buffer[0..from] == buffer[..from];
    assert buffer[from + count..|buffer|] == buffer[from + count..];
  }

  // ----- insertions

  /** Text inserted after a line comes out without its first line exactly if that repeats the line up to white space,
      and otherwise whole; it is refused exactly if nothing of it is left. */
  lemma InsertionAfterLosesItsFirstLineIff(fix: Autocorrect, buffer: seq<string>, at: nat, text: seq<string>)
    requires 0 < at <= |buffer|
    ensures var added := if text != [] && SameInk(text[0], buffer[at - 1]) then text[1..] else text;
            ApplyOp(fix, buffer, After(at, text))
            == if added == [] then None else Some(buffer[..at] + added + buffer[at..])
  {
    hide EqualsIgnoringWhitespace, SameInk, Splice;
    SpliceIs(buffer, at, 0, StripInsertAnchorEcho(buffer[at - 1], text));
    if text != [] { EqualIff(text[0], buffer[at - 1]); }
  }

  /** Text inserted before a line comes out without its last line exactly if it has more and that repeats the line up to
      white space, and otherwise whole; it is refused exactly if it is empty. */
  lemma InsertionBeforeLosesItsLastLineIff(fix: Autocorrect, buffer: seq<string>, at: nat, text: seq<string>)
    requires 0 < at <= |buffer|
    ensures var added := if |text| > 1 && SameInk(text[|text| - 1], buffer[at - 1]) then text[..|text| - 1] else text;
            ApplyOp(fix, buffer, Before(at, text))
            == if text == [] then None else Some(buffer[..at - 1] + added + buffer[at - 1..])
  {
    hide EqualsIgnoringWhitespace, SameInk, Splice;
    SpliceIs(buffer, at - 1, 0, StripInsertBeforeEcho(buffer[at - 1], text));
    if |text| > 1 { EqualIff(text[|text| - 1], buffer[at - 1]); }
  }

  /** Text without an anchor goes to the end or to the start, and takes the place of a buffer of one empty line; it is
      refused exactly if it is empty. */
  lemma UnanchoredInsertion(fix: Autocorrect, buffer: seq<string>, text: seq<string>)
    ensures ApplyOp(fix, buffer, AtEnd(text))
            == if text == [] then None else Some(if buffer == [""] then text else buffer + text)
    ensures ApplyOp(fix, buffer, AtStart(text))
            == if text == [] then None else Some(if buffer == [""] then text else text + buffer)
  {
  }

  // ----- replacements

  /** A replacing line as it comes out: with the white space the replaced line starts with in front, exactly if it is
      not empty, starts with none of its own, and is not the replaced line itself up to white space around it. */
  ghost predicate IsIndented(replaced: string, line: string, r: string)
  {
    exists n ::
      && 0 <= n <= |replaced| && (forall k :: 0 <= k < n ==> IsSpace(replaced[k]))
      && (n < |replaced| ==> !IsSpace(replaced[n]))
      && r == (if line == "" || IsSpace(line[0]) || SameCore(replaced, line) then line else replaced[..n] + line)
  }

  ghost predicate SameCore(a: string, b: string) { exists core :: IsCore(a, core) && IsCore(b, core) }

  lemma IndentIff(replaced: string, line: string)
    ensures forall r :: IsIndented(replaced, line, r) <==> r == RestoreLeadingIndent(replaced, line)
  {
    hide IsSpace, LeadingWhitespace, IsCore, Trim;
    LeadingIs(replaced);
    LeadingIs(line);
    TrimIsCore(replaced);
    TrimIsCore(line);
    assert IsCore(line, Trim(line)) && IsCore(replaced, Trim(replaced));
    var n := |LeadingWhitespace(replaced)|;
    assert replaced[..0] + line == line;
    assert IsIndented(replaced, line, RestoreLeadingIndent(replaced, line));
    forall r | IsIndented(replaced, line, r) ensures r == RestoreLeadingIndent(replaced, line) {
      var m :|
        && 0 <= m <= |replaced| && (forall k :: 0 <= k < m ==> IsSpace(replaced[k]))
        && (m < |replaced| ==> !IsSpace(replaced[m]))
        && r == (if line == "" || IsSpace(line[0]) || SameCore(replaced, line) then line else replaced[..m] + line);
      assert m == n;
    }
  }

  /** The replacing lines: the first indented, the others as they are. */
  ghost predicate AreIndented(replaced: string, lines: seq<string>, r: seq<string>)
  {
    |r| == |lines| && (lines != [] ==> IsIndented(replaced, lines[0], r[0]) && r[1..] == lines[1..])
  }

  /** The result is what was above and below, with these lines, indented, in between. */
  ghost predicate Becomes(above: seq<string>, replaced: string, lines: seq<string>, below: seq<string>,
                          result: Option<seq<string>>)
  {
    exists r :: AreIndented(replaced, lines, r) && result == Some(above + r + below)
  }

  lemma FirstIsIndented(replaced: string, lines: seq<string>)
    ensures AreIndented(replaced, lines, RestoreFirst(replaced, lines))
  {
    hide IsIndented, RestoreLeadingIndent;
    if lines != [] { IndentIff(replaced, lines[0]); }
  }

  /** A position in the buffer, or its end where the buffer is shorter. */
  function Within(n: nat, buffer: seq<string>): (k: nat)
    ensures k <= |buffer|
  {
    if n <= |buffer| then n else |buffer|
  }

  /** The line with this number, or nothing where the buffer is shorter. */
  function LineNumbered(buffer: seq<string>, at: nat): string
    requires at > 0
  {
    if at <= |buffer| then buffer[at - 1] else ""
  }

  /** One line is replaced by what the autocorrection makes of the text. */
  lemma LineReplaced(fix: Autocorrect, buffer: seq<string>, at: nat, text: seq<string>)
    requires 0 < at
    ensures var replaced := LineNumbered(buffer, at);
            Becomes(buffer[..Within(at - 1, buffer)], replaced, fix([replaced], text), buffer[Within(at, buffer)..],
                    ApplyOp(fix, buffer, Line(at, text)))
  {
    hide AreIndented, RestoreFirst;
    var replaced := LineNumbered(buffer, at);
    var corrected := fix([replaced], text);
    FirstIsIndented(replaced, corrected);
    CutsOut(buffer, at - 1, at, RestoreFirst(replaced, corrected));
  }

  lemma CutsOut(buffer: seq<string>, from: nat, to: nat, text: seq<string>)
    requires from <= to
    ensures Splice(buffer, from, to - from, text)
            == buffer[..Within(from, buffer)] + text + buffer[Within(to, buffer)..]
    ensures Slice(buffer, from, to) == buffer[Within(from, buffer)..Within(to, buffer)]
  {
    assert Slice(buffer, 0, from) == buffer[..Within(from, buffer)];
    assert Slice(buffer, Within(from, buffer) + (to - from), |buffer|) == buffer[Within(to, buffer)..];
  }

  /** The text without the neighbours it repeats: where it is longer than the range it replaces, and than one line, a
      first line that is the line above, and then a last line that is the line below. */
  ghost predicate IsWithoutNeighbours(buffer: seq<string>, first: nat, last: nat, text: seq<string>, kept: seq<string>)
    requires 0 < first <= last
  {
    var longer := |text| > 1 && |text| > last - first + 1;
    var rest := if longer && 1 < first <= |buffer| + 1 && text[0] == buffer[first - 2] then text[1..] else text;
    kept == if longer && last < |buffer| && rest != [] && rest[|rest| - 1] == buffer[last]
            then rest[..|rest| - 1] else rest
  }

  /** A range is replaced by what the autocorrection makes of the text without the neighbours it repeats; a range that
      is upside down is refused. */
  lemma RangeReplaced(fix: Autocorrect, buffer: seq<string>, first: nat, last: nat, text: seq<string>)
    requires 0 < first
    ensures first > last ==> ApplyOp(fix, buffer, Span(first, last, text)) == None
    ensures first <= last ==> forall kept :: IsWithoutNeighbours(buffer, first, last, text, kept) ==>
              var from, to := Within(first - 1, buffer), Within(last, buffer);
              Becomes(buffer[..from], LineNumbered(buffer, first), fix(buffer[from..to], kept), buffer[to..],
                      ApplyOp(fix, buffer, Span(first, last, text)))
  {
    hide AreIndented, RestoreFirst, Splice, Slice, StripRangeBoundaryEcho, IsWithoutNeighbours;
    if first <= last {
      var from, to, replaced := Within(first - 1, buffer), Within(last, buffer), LineNumbered(buffer, first);
      forall kept | IsWithoutNeighbours(buffer, first, last, text, kept)
        ensures Becomes(buffer[..from], replaced, fix(buffer[from..to], kept), buffer[to..],
                        ApplyOp(fix, buffer, Span(first, last, text)))
      {
        NeighboursStripped(buffer, first, last, text, kept);
        var corrected := fix(buffer[from..to], kept);
        FirstIsIndented(replaced, corrected);
        CutsOut(buffer, first - 1, last, RestoreFirst(replaced, corrected));
      }
    }
  }

  lemma NeighboursStripped(buffer: seq<string>, first: nat, last: nat, text: seq<string>, kept: seq<string>)
    requires 0 < first <= last && IsWithoutNeighbours(buffer, first, last, text, kept)
    ensures kept == StripRangeBoundaryEcho(LineAt(buffer, first - 2), LineAt(buffer, last), last - first + 1, text)
  {
  }
}
