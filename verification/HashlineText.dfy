/** The text of an edit: prefixes stripped from pasted lines, echoed neighbours dropped, indentation restored. */
module HashlineText {
  import opened Wrappers
  import opened Text
  import opened Sorting
  import opened HashlineRefs

  // ----- prefixes

  /** What follows a printed `n#HH|` at the start of a line, a `>>>` or `>>` marker and white space allowed before
      it. */
  function AfterHashPrefix(line: string): Option<string>
  {
    var a := TrimStart(line);
    var b := TrimStart(if ">>>" <= a then a[3..] else if ">>" <= a then a[2..] else a);
    var n := DigitRun(b);
    var c := TrimStart(b[n..]);
    if n == 0 || c == "" || c[0] != '#' then None
    else
      var d := TrimStart(c[1..]);
      if |d| >= 3 && IsHash(d[..2]) && d[2] == '|' then Some(d[3..]) else None
  }

  /** What follows a single `+`. */
  function AfterDiffPlus(line: string): Option<string>
  {
    if "+" <= line && !("++" <= line) then Some(line[1..]) else None
  }

  function OrElse(o: Option<string>, line: string): string
  {
    if o.Some? then o.value else line
  }

  function Count(lines: seq<string>, p: string -> bool): nat
  {
    if lines == [] then 0
    else Count(lines[..|lines| - 1], p) + if p(lines[|lines| - 1]) then 1 else 0
  }

  predicate NonEmpty(line: string) { line != "" }
  predicate HasHashPrefix(line: string) { line != "" && AfterHashPrefix(line).Some? }
  predicate HasDiffPlus(line: string) { line != "" && AfterDiffPlus(line).Some? }

  /** At least one line has the prefix, and at least half of the non-empty ones do. */
  predicate Prevails(count: nat, nonEmpty: nat) { count > 0 && 2 * count >= nonEmpty }

  /** The lines without the prefix that prevails among them, if one does; a hash prefix before a diff one. */
  function Stripped(lines: seq<string>): seq<string>
  {
    if Prevails(Count(lines, HasHashPrefix), Count(lines, NonEmpty)) then
      Map(lines, line => OrElse(AfterHashPrefix(line), line))
    else if Prevails(Count(lines, HasDiffPlus), Count(lines, NonEmpty)) then
      Map(lines, line => OrElse(AfterDiffPlus(line), line))
    else lines
  }

  method StripLinePrefixes(lines: seq<string>) returns (r: seq<string>)
    ensures r == Stripped(lines)
  {
    var hashPrefixCount, diffPlusCount, nonEmpty := 0, 0, 0;
    for i := 0 to |lines|
      invariant hashPrefixCount == Count(lines[..i], HasHashPrefix)
      invariant diffPlusCount == Count(lines[..i], HasDiffPlus)
      invariant nonEmpty == Count(lines[..i], NonEmpty)
    {
      assert lines[..i + 1][..i] == lines[..i];
      if lines[i] != "" {
        nonEmpty := nonEmpty + 1;
        if AfterHashPrefix(lines[i]).Some? { hashPrefixCount := hashPrefixCount + 1; }
        if AfterDiffPlus(lines[i]).Some? { diffPlusCount := diffPlusCount + 1; }
      }
    }
    assert lines[..|lines|] == lines;
    CountWithin(lines, HasHashPrefix);
    CountWithin(lines, HasDiffPlus);
    if nonEmpty == 0 { return lines; }
    var stripHash := Prevails(hashPrefixCount, nonEmpty);
    var stripPlus := !stripHash && Prevails(diffPlusCount, nonEmpty);
    if stripHash {
      r := Map(lines, line => OrElse(AfterHashPrefix(line), line));
    } else if stripPlus {
      r := Map(lines, line => OrElse(AfterDiffPlus(line), line));
    } else {
      r := lines;
    }
  }

  lemma {:induction false} CountWithin(lines: seq<string>, p: string -> bool)
    requires forall line :: p(line) ==> line != ""
    ensures Count(lines, p) <= Count(lines, NonEmpty)
  {
    if lines != [] { CountWithin(lines[..|lines| - 1], p); }
  }

  /** The payload of an edit: one text, or lines. */
  datatype Payload = Whole(text: string) | Lines(lines: seq<string>)

  /** `toNewLines` */
  function NewLines(payload: Payload): seq<string>
  {
    match payload
    case Whole(text) => Stripped(Split(text, '\n'))
    case Lines(lines) => Stripped(lines)
  }

  // ----- printing a file with its hashes, and stripping them again

  function FormatLines(hash: LineHash, lines: seq<string>): (r: seq<string>)
    ensures |r| == |lines| && forall i :: 0 <= i < |lines| ==> r[i] == FormatHashLine(hash, i + 1, lines[i])
  {
    FormatNumbered(hash, 1, lines)
  }

  /** `toHashlineContent`: a last, empty line is not printed. */
  function ToHashlineContent(hash: LineHash, content: string): string
  {
    if content == "" then content
    else
      var lines := Split(content, '\n');
      var last := |lines| - 1;
      if lines[last] == "" then Join(FormatLines(hash, lines[..last]), '\n') + "\n"
      else Join(FormatLines(hash, lines), '\n')
  }

  lemma PrefixComesOff(d: string, h: string, line: string)
    requires d != "" && AllDigits(d) && IsHash(h)
    ensures AfterHashPrefix(d + "#" + h + "|" + line) == Some(line)
  {
    hide DigitRun;
    var e := h + "|" + line;
    var rest := "#" + e;
    var s := d + rest;
    assert d + "#" + h + "|" + line == s;
    assert IsDigit(d[0]) && s[0] == d[0];
    NotSpace(s);
    DigitRunOfDigits(d, rest);
    assert s[|d|..] == rest && rest[0] == '#' && rest[1..] == e;
    NotSpace(rest);
    assert e[0] == h[0];
    NotSpace(e);
    assert e[..2] == h && e[2] == '|' && e[3..] == line;
    assert !(">>>" <= s) && !(">>" <= s) by { assert s[0] != '>'; }
  }

  lemma NotSpace(s: string)
    requires s != "" && !IsSpace(s[0])
    ensures TrimStart(s) == s
  {
  }

  lemma {:induction false} CountAll(lines: seq<string>, p: string -> bool, q: string -> bool)
    requires forall line :: line in lines ==> p(line) == q(line)
    ensures Count(lines, p) == Count(lines, q)
  {
    if lines != [] { CountAll(lines[..|lines| - 1], p, q); }
  }

  lemma {:induction false} CountSome(lines: seq<string>, p: string -> bool, i: nat)
    requires i < |lines| && p(lines[i])
    ensures Count(lines, p) > 0
  {
    if i < |lines| - 1 { CountSome(lines[..|lines| - 1], p, i); }
  }

  /** The lines of a printed file: each content line with its number and hash, the last empty one left empty. */
  function PrintedLines(hash: LineHash, lines: seq<string>): (r: seq<string>)
    requires lines != []
    ensures |r| == |lines|
    ensures forall i :: 0 <= i < |lines| ==>
              r[i] == if i == |lines| - 1 && lines[i] == "" then "" else FormatHashLine(hash, i + 1, lines[i])
  {
    var last := |lines| - 1;
    if lines[last] == "" then FormatLines(hash, lines[..last]) + [""] else FormatLines(hash, lines)
  }

  lemma PrintedJoin(hash: LineHash, content: string)
    requires content != ""
    ensures ToHashlineContent(hash, content) == Join(PrintedLines(hash, Split(content, '\n')), '\n')
    ensures Split(content, '\n')[0] != "" || |Split(content, '\n')| > 1
  {
    hide FormatHashLine, FormatLines, Split;
    var lines := Split(content, '\n');
    var last := |lines| - 1;
    assert Join(lines, '\n') == content;
    if lines[last] == "" && last > 0 {
      JoinEnded(FormatLines(hash, lines[..last]), '\n');
    }
  }

  lemma FormattedLine(hash: LineHash, number: nat, line: string)
    requires '\n' !in line
    ensures AfterHashPrefix(FormatHashLine(hash, number, line)) == Some(line)
    ensures FormatHashLine(hash, number, line) != "" && '\n' !in FormatHashLine(hash, number, line)
    ensures exists head ::
              && FormatHashLine(hash, number, line) == head + "|" + line
              && head == Decimal(number) + "#" + HashText(hash, number, line)
  {
    hide AfterHashPrefix, Decimal;
    assert Decimal(number) + "#" + HashText(hash, number, line) + "|" + line
        == (Decimal(number) + "#" + HashText(hash, number, line)) + "|" + line;
    PrefixComesOff(Decimal(number), HashText(hash, number, line), line);
  }

  /** Printing then stripping is the identity: every line comes back, whatever it looks like, and the last empty one
      too. */
  lemma StripOfPrinted(hash: LineHash, content: string)
    ensures NewLines(Whole(ToHashlineContent(hash, content))) == Split(content, '\n')
  {
    hide Stripped, FormatHashLine, FormatLines, Split, Join, AfterHashPrefix, ToHashlineContent;
    if content == "" {
      NothingToStrip(hash);
    } else {
      var lines := Split(content, '\n');
      PrintedJoin(hash, content);
      var printed := PrintedLines(hash, lines);
      forall i | 0 <= i < |lines| ensures PrintsAs(lines[i], printed[i], i == |lines| - 1) && '\n' !in printed[i] {
        assert lines[i] in lines;
        FormattedLine(hash, i + 1, lines[i]);
      }
      SplitOfJoin(printed, '\n');
      PrintedStrips(lines, printed);
    }
  }

  lemma NothingToStrip(hash: LineHash)
    ensures Stripped([""]) == [""] && Split("", '\n') == [""] && ToHashlineContent(hash, "") == ""
  {
  }

  /** The printed line gives the line back, or is the last, empty one. */
  predicate PrintsAs(line: string, printed: string, last: bool)
  {
    if last && line == "" then printed == "" else printed != "" && AfterHashPrefix(printed) == Some(line)
  }

  lemma PrintedStrips(lines: seq<string>, printed: seq<string>)
    requires |printed| == |lines| > 0 && (lines[0] != "" || |lines| > 1)
    requires forall i :: 0 <= i < |lines| ==> PrintsAs(lines[i], printed[i], i == |lines| - 1)
    ensures Stripped(printed) == lines
  {
    EmptyHasNone();
    hide AfterHashPrefix;
    CountAll(printed, HasHashPrefix, NonEmpty);
    CountSome(printed, HasHashPrefix, 0);
    assert Map(printed, line => OrElse(AfterHashPrefix(line), line)) == lines;
  }

  lemma EmptyHasNone()
    ensures AfterHashPrefix("").None?
  {
  }

  // ----- echoes and indentation

  function WithoutSpace(s: string): string
  {
    if s == "" then ""
    else (if IsSpace(s[0]) then "" else [s[0]]) + WithoutSpace(s[1..])
  }

  predicate EqualsIgnoringWhitespace(a: string, b: string) { a == b || WithoutSpace(a) == WithoutSpace(b) }

  /** The two hold the same characters in the same order, white space left out. */
  ghost predicate SameInk(a: string, b: string)
  {
    exists ink: string, p, q ::
      && Picks(a, ink, p) && (forall k: nat :: k < |a| ==> (k in p <==> !IsSpace(a[k])))
      && Picks(b, ink, q) && (forall k: nat :: k < |b| ==> (k in q <==> !IsSpace(b[k])))
  }

  lemma {:induction false} InkLeft(s: string) returns (at: seq<nat>)
    ensures Picks(s, WithoutSpace(s), at) && forall k: nat :: k < |s| ==> (k in at <==> !IsSpace(s[k]))
  {
    if s == "" {
      at := [];
    } else {
      var front, c := s[..|s| - 1], s[|s| - 1];
      at := InkLeft(front);
      WithoutSpaceSnoc(s);
      PicksSnoc(front, WithoutSpace(front), at, c);
      assert s == front + [c];
      if IsSpace(c) { assert WithoutSpace(front) + "" == WithoutSpace(front); } else { at := at + [|front|]; }
    }
  }

  lemma {:induction false} WithoutSpaceSnoc(s: string)
    requires s != ""
    ensures WithoutSpace(s) == WithoutSpace(s[..|s| - 1]) + if IsSpace(s[|s| - 1]) then "" else [s[|s| - 1]]
  {
    hide IsSpace;
    if |s| == 1 {
      assert s[..0] == "" && s[1..] == "";
    } else {
      WithoutSpaceSnoc(s[1..]);
      assert s[..|s| - 1][1..] == s[1..][..|s| - 2];
    }
  }

  lemma EqualIff(a: string, b: string)
    ensures EqualsIgnoringWhitespace(a, b) <==> SameInk(a, b)
  {
    hide WithoutSpace, Picks, IsSpace;
    var p := InkLeft(a);
    var q := InkLeft(b);
    if SameInk(a, b) {
      var ink: string, x, y :|
        && Picks(a, ink, x) && (forall k: nat :: k < |a| ==> (k in x <==> !IsSpace(a[k])))
        && Picks(b, ink, y) && (forall k: nat :: k < |b| ==> (k in y <==> !IsSpace(b[k])));
      PicksIsOne(a, ink, x, WithoutSpace(a), p);
      PicksIsOne(b, ink, y, WithoutSpace(b), q);
    }
  }

  function LeadingWhitespace(s: string): string
  {
    if s != "" && IsSpace(s[0]) then [s[0]] + LeadingWhitespace(s[1..]) else ""
  }

  /** The white space a text starts with, as far as it goes. */
  lemma {:induction false} LeadingIs(s: string)
    ensures var r := LeadingWhitespace(s);
            && |r| <= |s| && r == s[..|r|] && (forall i :: 0 <= i < |r| ==> IsSpace(s[i]))
            && (|r| < |s| ==> !IsSpace(s[|r|]))
  {
    hide IsSpace;
    if s != "" && IsSpace(s[0]) {
      LeadingIs(s[1..]);
      assert s == [s[0]] + s[1..];
    }
  }

  function RestoreLeadingIndent(template: string, line: string): string
  {
    var indent := LeadingWhitespace(template);
    if line == "" || indent == "" || LeadingWhitespace(line) != "" || Trim(template) == Trim(line) then line
    else indent + line
  }

  /** A first line that repeats the line it is to follow. */
  function StripInsertAnchorEcho(anchor: string, lines: seq<string>): seq<string>
  {
    if lines != [] && EqualsIgnoringWhitespace(lines[0], anchor) then lines[1..] else lines
  }

  /** A last line that repeats the line it is to precede, unless it is all there is. */
  function StripInsertBeforeEcho(anchor: string, lines: seq<string>): seq<string>
  {
    if |lines| > 1 && EqualsIgnoringWhitespace(lines[|lines| - 1], anchor) then lines[..|lines| - 1] else lines
  }

  /** The lines just before and just after a replaced range, dropped from a longer replacement that repeats them. */
  function StripRangeBoundaryEcho(before: Option<string>, after: Option<string>, replaced: nat,
      lines: seq<string>): seq<string>
  {
    if |lines| <= 1 || |lines| <= replaced then lines
    else
      var tail := if before.Some? && lines[0] == before.value then lines[1..] else lines;
      if after.Some? && tail != [] && tail[|tail| - 1] == after.value then tail[..|tail| - 1] else tail
  }

  function RestoreFirst(template: string, lines: seq<string>): seq<string>
  {
    if lines == [] then [] else [RestoreLeadingIndent(template, lines[0])] + lines[1..]
  }
}
