/** The unified diff of two texts: one hunk around everything that changed. */
module HashlineDiff {
  import opened Wrappers
  import opened Text

  const CONTEXT_LINES := 3

  /** The lines of a text, without the empty one after a last line end. */
  function ContentLines(content: string): seq<string>
  {
    var lines := Split(content, '\n');
    if lines[|lines| - 1] == "" then lines[..|lines| - 1] else lines
  }

  /** The lines end the text each, or all but the last one, which is then not empty; none of them holds a line end. */
  lemma ContentLinesIff(content: string, lines: seq<string>)
    ensures ContentLines(content) == lines
            <==> && OneLineEach(lines)
                 && (|| content == Join(lines + [""], '\n')
                     || (lines != [] && lines[|lines| - 1] != "" && content == Join(lines, '\n')))
  {
    hide Split, Join;
    var pieces := Split(content, '\n');
    if pieces[|pieces| - 1] == "" { assert pieces == pieces[..|pieces| - 1] + [""]; }
    if OneLineEach(lines) && content == Join(lines + [""], '\n') {
      SplitOfJoin(lines + [""], '\n');
      assert pieces[..|pieces| - 1] == lines;
    }
    if OneLineEach(lines) && lines != [] && lines[|lines| - 1] != "" && content == Join(lines, '\n') {
      SplitOfJoin(lines, '\n');
    }
  }

  /** A hunk as its header and its lines say it: positions are counted from one, every line starts with its mark. */
  datatype Hunk = Hunk(oldStart: nat, oldCount: nat, newStart: nat, newCount: nat, lines: seq<string>)

  function Marked(mark: char, lines: seq<string>): (r: seq<string>)
    ensures |r| == |lines| && forall i :: 0 <= i < |lines| ==> r[i] == [mark] + lines[i]
  {
    if lines == [] then [] else Marked(mark, lines[..|lines| - 1]) + [[mark] + lines[|lines| - 1]]
  }

  /** The lines a hunk says one side has: those with either of two marks. */
  function Side(lines: seq<string>, mark: char): seq<string>
  {
    if lines == [] then []
    else
      var last := lines[|lines| - 1];
      Side(lines[..|lines| - 1], mark) + if last != "" && (last[0] == ' ' || last[0] == mark) then [last[1..]] else []
  }

  /** Applying a hunk to the lines from its start on: context and deletions must be there. */
  function Walk(rest: seq<string>, lines: seq<string>): Option<seq<string>>
  {
    if lines == [] then Some(rest)
    else if lines[0] == "" then None
    else
      var mark, text := lines[0][0], lines[0][1..];
      if mark == '+' then
        match Walk(rest, lines[1..])
        case Some(r) => Some([text] + r)
        case None => None
      else if rest == [] || rest[0] != text then None
      else if mark == '-' then Walk(rest[1..], lines[1..])
      else if mark == ' ' then
        match Walk(rest[1..], lines[1..])
        case Some(r) => Some([text] + r)
        case None => None
      else None
  }

  function ApplyHunk(was: seq<string>, h: Hunk): Option<seq<string>>
  {
    if h.oldStart == 0 || h.oldStart - 1 > |was| then None
    else
      match Walk(was[h.oldStart - 1..], h.lines)
      case Some(r) => Some(was[..h.oldStart - 1] + r)
      case None => None
  }

  method FirstChangedLine(was: seq<string>, now: seq<string>) returns (start: nat)
    ensures start <= |was| && start <= |now| && was[..start] == now[..start]
    ensures was == now ==> start == 0
    ensures was != now ==> start == |was| || start == |now| || was[start] != now[start]
  {
    var max := if |was| >= |now| then |was| else |now|;
    for index := 0 to max
      invariant index <= |was| && index <= |now| && was[..index] == now[..index]
    {
      var here, there := index < |was|, index < |now|;
      if here != there || (here && was[index] != now[index]) { return index; }
      assert was[..index + 1] == was[..index] + [was[index]] && now[..index + 1] == now[..index] + [now[index]];
    }
    assert was[..max] == was && now[..max] == now;
    return 0;
  }

  method LastChangedLine(was: seq<string>, now: seq<string>, start: nat) returns (endOld: int, endNew: int)
    requires start <= |was| && start <= |now|
    ensures start - 1 <= endOld < |was| && start - 1 <= endNew < |now|
    ensures was[endOld + 1..] == now[endNew + 1..]
    ensures endOld >= start && endNew >= start ==> was[endOld] != now[endNew]
  {
    endOld, endNew := |was| - 1, |now| - 1;
    while endOld >= start && endNew >= start && was[endOld] == now[endNew]
      invariant start - 1 <= endOld < |was| && start - 1 <= endNew < |now|
      invariant was[endOld + 1..] == now[endNew + 1..]
      decreases endOld
    {
      assert was[endOld..] == [was[endOld]] + was[endOld + 1..] && now[endNew..] == [now[endNew]] + now[endNew + 1..];
      endOld, endNew := endOld - 1, endNew - 1;
    }
  }

  /** The hunk is exact: its header names where its two sides stand and how long they are, and applying it to the old
      lines gives the new ones. */
  ghost predicate Exact(was: seq<string>, now: seq<string>, h: Hunk)
  {
    && h.oldStart >= 1 && h.newStart >= 1
    && h.oldStart - 1 + h.oldCount <= |was| && h.newStart - 1 + h.newCount <= |now|
    && Side(h.lines, '-') == was[h.oldStart - 1..h.oldStart - 1 + h.oldCount]
    && Side(h.lines, '+') == now[h.newStart - 1..h.newStart - 1 + h.newCount]
    && ApplyHunk(was, h) == Some(now)
  }

  /** What changed lies between the lines the texts begin with alike, as far as that goes, and those they then end with
      alike; without a changed line it is nothing, at the beginning. */
  ghost predicate Changed(was: seq<string>, now: seq<string>, start: nat, endOld: nat, endNew: nat)
  {
    && start <= endOld <= |was| && start <= endNew <= |now|
    && was[..start] == now[..start] && was[endOld..] == now[endNew..]
    && (if was == now then start == 0 else start == |was| || start == |now| || was[start] != now[start])
    && (endOld == start || endNew == start || was[endOld - 1] != now[endNew - 1])
  }

  /** The hunk holds the change, three lines before and after it where there are as many: what was in front of the new
      lines. */
  ghost predicate AroundTheChange(was: seq<string>, now: seq<string>, h: Hunk)
  {
    exists start: nat, endOld: nat, endNew: nat :: Changed(was, now, start, endOld, endNew)
                                                   && Frames(was, now, h, start, endOld, endNew)
  }

  ghost predicate Frames(was: seq<string>, now: seq<string>, h: Hunk, start: nat, endOld: nat, endNew: nat)
    requires start <= endOld <= |was| && start <= endNew <= |now|
  {
    var from := if start >= 3 then start - 3 else 0;
    var oldTo := if endOld + 3 <= |was| then endOld + 3 else |was|;
    var newTo := if endNew + 3 <= |now| then endNew + 3 else |now|;
    && h.oldStart == h.newStart == from + 1 && h.oldCount == oldTo - from && h.newCount == newTo - from
    && h.lines == Marked(' ', was[from..start]) + Marked('-', was[start..endOld]) + Marked('+', now[start..endNew])
                  + Marked(' ', was[endOld..oldTo])
  }

  lemma OneStart(was: seq<string>, now: seq<string>, a: nat, b: nat)
    requires a <= |was| && a <= |now| && b <= |was| && b <= |now|
    requires was[..a] == now[..a] && was[..b] == now[..b] && was != now
    requires a == |was| || a == |now| || was[a] != now[a]
    ensures b <= a
  {
    forall k | 0 <= k < b ensures was[k] == now[k] { assert was[..b][k] == now[..b][k]; }
  }

  lemma OneEnd(was: seq<string>, now: seq<string>, start: nat, x: nat, y: nat, z: nat, w: nat)
    requires start <= x <= |was| && start <= y <= |now| && start <= z <= |was| && start <= w <= |now|
    requires was[x..] == now[y..] && was[z..] == now[w..]
    requires x == start || y == start || was[x - 1] != now[y - 1]
    ensures x <= z && |was| - x == |now| - y
  {
    SameTails(was, now, x, y);
    SameTails(was, now, z, w);
    forall k | z <= k < |was| ensures was[k] == now[k - z + w] { assert was[z..][k - z] == now[w..][k - z]; }
  }

  /** There is only one such hunk. */
  lemma OneHunk(was: seq<string>, now: seq<string>, h: Hunk, g: Hunk)
    requires AroundTheChange(was, now, h) && AroundTheChange(was, now, g)
    ensures h == g
  {
    hide Marked, Frames;
    var a: nat, x: nat, y: nat :| Changed(was, now, a, x, y) && Frames(was, now, h, a, x, y);
    var b: nat, z: nat, w: nat :| Changed(was, now, b, z, w) && Frames(was, now, g, b, z, w);
    if was != now {
      OneStart(was, now, a, b);
      OneStart(was, now, b, a);
    }
    OneEnd(was, now, a, x, y, z, w);
    OneEnd(was, now, a, z, w, x, y);
    OneFrame(was, now, h, g, a, x, y);
  }

  lemma OneFrame(was: seq<string>, now: seq<string>, h: Hunk, g: Hunk, start: nat, endOld: nat, endNew: nat)
    requires start <= endOld <= |was| && start <= endNew <= |now|
    requires Frames(was, now, h, start, endOld, endNew) && Frames(was, now, g, start, endOld, endNew)
    ensures h == g
  {
    hide Marked;
  }

  function Min(a: int, b: int): int { if a <= b then a else b }

  function Max(a: int, b: int): int { if a >= b then a else b }

  // ----- the diff as it is printed

  function SideText(mark: char, start: nat, count: nat): string { [mark] + Decimal(start) + "," + Decimal(count) }

  function HeaderText(h: Hunk): string
  {
    "@@ " + SideText('-', h.oldStart, h.oldCount) + " " + SideText('+', h.newStart, h.newCount) + " @@"
  }

  function DiffLines(filePath: string, h: Hunk): (r: seq<string>)
    ensures |r| == 3 + |h.lines| && r[3..] == h.lines
  {
    ["--- " + filePath, "+++ " + filePath, HeaderText(h)] + h.lines
  }

  function DiffText(filePath: string, h: Option<Hunk>): string
  {
    match h
    case None => "--- " + filePath + "\n+++ " + filePath + "\n"
    case Some(hunk) => Join(DiffLines(filePath, hunk), '\n')
  }

  ghost predicate OneLineEach(lines: seq<string>) { forall line :: line in lines ==> '\n' !in line }

  lemma JoinIsUnique(a: seq<string>, b: seq<string>, sep: char)
    requires a != [] && b != [] && (forall x :: x in a ==> sep !in x) && (forall x :: x in b ==> sep !in x)
    requires Join(a, sep) == Join(b, sep)
    ensures a == b
  {
    SplitOfJoin(a, sep);
    SplitOfJoin(b, sep);
  }

  /** The header says the four numbers and nothing else. */
  lemma HeaderIsUnambiguous(a: Hunk, b: Hunk)
    requires HeaderText(a) == HeaderText(b)
    ensures a.oldStart == b.oldStart && a.oldCount == b.oldCount && a.newStart == b.newStart && a.newCount == b.newCount
  {
    hide Join, Decimal;
    HeaderIsJoined(a);
    HeaderIsJoined(b);
    JoinIsUnique(HeaderParts(a), HeaderParts(b), ' ');
    SideIsUnambiguous('-', a.oldStart, a.oldCount, b.oldStart, b.oldCount);
    SideIsUnambiguous('+', a.newStart, a.newCount, b.newStart, b.newCount);
  }

  function HeaderParts(h: Hunk): (r: seq<string>)
    ensures |r| == 4
  {
    ["@@", SideText('-', h.oldStart, h.oldCount), SideText('+', h.newStart, h.newCount), "@@"]
  }

  lemma HeaderIsJoined(h: Hunk)
    ensures HeaderText(h) == Join(HeaderParts(h), ' ')
    ensures forall part :: part in HeaderParts(h) ==> ' ' !in part
  {
    SideHasNoBlank('-', h.oldStart, h.oldCount);
    SideHasNoBlank('+', h.newStart, h.newCount);
    JoinFour(SideText('-', h.oldStart, h.oldCount), SideText('+', h.newStart, h.newCount));
  }

  lemma SideHasNoBlank(mark: char, start: nat, count: nat)
    requires mark in {'-', '+'}
    ensures ' ' !in SideText(mark, start, count)
  {
    hide Decimal;
  }

  lemma JoinTwo(x: string, y: string, sep: char)
    ensures Join([x, y], sep) == x + [sep] + y
  {
  }

  lemma JoinFour(x: string, y: string)
    ensures Join(["@@", x, y, "@@"], ' ') == "@@ " + x + " " + y + " @@"
  {
    hide Join;
    JoinTwo("@@", x, ' ');
    JoinTwo(y, "@@", ' ');
    JoinOfConcat(["@@", x], [y, "@@"], ' ');
    assert ["@@", x] + [y, "@@"] == ["@@", x, y, "@@"];
    assert "@@" + [' '] == "@@ ";
  }

  lemma SideIsUnambiguous(mark: char, start: nat, count: nat, otherStart: nat, otherCount: nat)
    requires mark in {'-', '+'} && SideText(mark, start, count) == SideText(mark, otherStart, otherCount)
    ensures start == otherStart && count == otherCount
  {
    hide Decimal, Join;
    var a, b := [[mark] + Decimal(start), Decimal(count)], [[mark] + Decimal(otherStart), Decimal(otherCount)];
    JoinTwo(a[0], a[1], ',');
    JoinTwo(b[0], b[1], ',');
    JoinIsUnique(a, b, ',');
    assert a[0][1..] == Decimal(start) && b[0][1..] == Decimal(otherStart);
  }

  /** The text that shows a hunk for a path, or none. */
  ghost predicate Prints(filePath: string, h: Option<Hunk>, diff: string)
  {
    match h
    case None => diff == "--- " + filePath + "\n+++ " + filePath + "\n"
    case Some(hunk) =>
      exists header, pieces: seq<string> ::
        && header == "@@ -" + Decimal(hunk.oldStart) + "," + Decimal(hunk.oldCount)
                     + " +" + Decimal(hunk.newStart) + "," + Decimal(hunk.newCount) + " @@"
        && pieces == ["--- " + filePath, "+++ " + filePath, header] + hunk.lines && diff == Join(pieces, '\n')
  }

  lemma PrintsIff(filePath: string, h: Option<Hunk>, diff: string)
    ensures Prints(filePath, h, diff) <==> diff == DiffText(filePath, h)
  {
    hide Decimal, Join;
    if h.Some? {
      HeaderIs(h.value);
      assert DiffLines(filePath, h.value)
          == ["--- " + filePath, "+++ " + filePath, HeaderText(h.value)] + h.value.lines;
    }
  }

  lemma HeaderIs(h: Hunk)
    ensures HeaderText(h) == "@@ -" + Decimal(h.oldStart) + "," + Decimal(h.oldCount) + " +" + Decimal(h.newStart) + ","
                             + Decimal(h.newCount) + " @@"
  {
    hide Decimal;
    var a, b, c, d := Decimal(h.oldStart), Decimal(h.oldCount), Decimal(h.newStart), Decimal(h.newCount);
    assert "@@ " + (['-'] + a + "," + b) + " " + (['+'] + c + "," + d) + " @@"
        == "@@ -" + a + "," + b + " +" + c + "," + d + " @@";
  }

  /** A printed diff can be read in one way only: the path, the four numbers and the lines of its hunk. */
  lemma DiffIsUnambiguous(a: string, b: string, h: Hunk, g: Hunk, diff: string)
    requires '\n' !in a && '\n' !in b && OneLineEach(h.lines) && OneLineEach(g.lines)
    requires Prints(a, Some(h), diff) && Prints(b, Some(g), diff)
    ensures a == b && h == g
  {
    hide Join, HeaderText, Prints;
    PrintsIff(a, Some(h), diff);
    PrintsIff(b, Some(g), diff);
    var x, y := DiffLines(a, h), DiffLines(b, g);
    HeaderIsOneLine(h);
    HeaderIsOneLine(g);
    JoinIsUnique(x, y, '\n');
    assert x[0] == "--- " + a && y[0] == "--- " + b;
    assert x[0][4..] == a && y[0][4..] == b;
    assert x[2] == y[2];
    HeaderIsUnambiguous(h, g);
    assert x[3..] == y[3..];
  }

  lemma HeaderIsOneLine(h: Hunk)
    ensures '\n' !in HeaderText(h)
  {
    hide Decimal;
  }

  /** The text shows a hunk that is exact and reaches just around the change, or none if there is no change. */
  ghost predicate IsUnifiedDiff(oldContent: string, newContent: string, filePath: string, diff: string)
  {
    exists h: Option<Hunk> :: Prints(filePath, h, diff) && Shows(oldContent, newContent, h)
  }

  ghost predicate Shows(oldContent: string, newContent: string, h: Option<Hunk>)
  {
    && (h.None? <==> oldContent == newContent)
    && (h.Some? ==>
          && Exact(ContentLines(oldContent), ContentLines(newContent), h.value)
          && AroundTheChange(ContentLines(oldContent), ContentLines(newContent), h.value)
          && OneLineEach(h.value.lines))
  }

  lemma HunkIsDiff(oldContent: string, newContent: string, filePath: string, h: Option<Hunk>)
    requires h.None? <==> oldContent == newContent
    requires h.Some? ==>
               && Exact(ContentLines(oldContent), ContentLines(newContent), h.value)
               && AroundTheChange(ContentLines(oldContent), ContentLines(newContent), h.value)
               && OneLineEach(h.value.lines)
    ensures IsUnifiedDiff(oldContent, newContent, filePath, DiffText(filePath, h))
  {
    hide Exact, AroundTheChange, OneLineEach, ContentLines, DiffText, Prints;
    PrintsIff(filePath, h, DiffText(filePath, h));
    assert Shows(oldContent, newContent, h);
  }

  /** `generateUnifiedDiff`; no hunk for two texts that are the same. */
  method GenerateUnifiedDiff(oldContent: string, newContent: string, filePath: string)
    returns (diff: string)
    ensures IsUnifiedDiff(oldContent, newContent, filePath, diff)
  {
    hide *;
    if oldContent == newContent {
      NoHunkText(filePath);
      diff := "--- " + filePath + "\n+++ " + filePath + "\n";
      HunkIsDiff(oldContent, newContent, filePath, None);
      return;
    }
    var was, now := ContentLines(oldContent), ContentLines(newContent);
    ContentIsOneLineEach(oldContent);
    ContentIsOneLineEach(newContent);
    var hunk := MakeHunk(was, now);
    HunkText(filePath, hunk);
    diff := Join(["--- " + filePath, "+++ " + filePath, HeaderText(hunk)] + hunk.lines, '\n');
    HunkIsDiff(oldContent, newContent, filePath, Some(hunk));
  }

  lemma NoHunkText(filePath: string)
    ensures DiffText(filePath, None) == "--- " + filePath + "\n+++ " + filePath + "\n"
  {
  }

  lemma HunkText(filePath: string, h: Hunk)
    ensures DiffText(filePath, Some(h)) == Join(["--- " + filePath, "+++ " + filePath, HeaderText(h)] + h.lines, '\n')
  {
  }

  lemma ContentIsOneLineEach(content: string)
    ensures OneLineEach(ContentLines(content))
  {
  }

  lemma MarkedIsOneLineEach(mark: char, lines: seq<string>)
    requires mark != '\n' && OneLineEach(lines)
    ensures OneLineEach(Marked(mark, lines))
  {
    hide Marked;
    forall line | line in Marked(mark, lines) ensures '\n' !in line {
      var i :| 0 <= i < |lines| && line == [mark] + lines[i];
    }
  }

  lemma HunkIsOneLineEach(was: seq<string>, now: seq<string>, from: nat, start: nat, a: nat, b: nat, oldTo: nat)
    requires OneLineEach(was) && OneLineEach(now) && from <= start <= a <= oldTo <= |was| && start <= b <= |now|
    ensures OneLineEach(Marked(' ', was[from..start]) + Marked('-', was[start..a]) + Marked('+', now[start..b])
                        + Marked(' ', was[a..oldTo]))
  {
    hide Marked;
    MarkedIsOneLineEach(' ', was[from..start]);
    MarkedIsOneLineEach('-', was[start..a]);
    MarkedIsOneLineEach('+', now[start..b]);
    MarkedIsOneLineEach(' ', was[a..oldTo]);
  }

  method MakeHunk(was: seq<string>, now: seq<string>) returns (h: Hunk)
    requires OneLineEach(was) && OneLineEach(now)
    ensures Exact(was, now, h)
    ensures AroundTheChange(was, now, h)
    ensures OneLineEach(h.lines)
  {
    hide *;
    var start := FirstChangedLine(was, now);
    var endOld, endNew := LastChangedLine(was, now, start);
    IsChanged(was, now, start, endOld + 1, endNew + 1);
    h := HunkAround(was, now, start, endOld, endNew);
  }

  method HunkAround(was: seq<string>, now: seq<string>, start: nat, endOld: int, endNew: int) returns (h: Hunk)
    requires OneLineEach(was) && OneLineEach(now)
    requires start - 1 <= endOld && start - 1 <= endNew && Changed(was, now, start, endOld + 1, endNew + 1)
    ensures Exact(was, now, h)
    ensures AroundTheChange(was, now, h)
    ensures OneLineEach(h.lines)
  {
    hide Exact, Marked, Side, Walk, ApplyHunk, AroundTheChange, OneLineEach, Changed;
    ChangeIsInside(was, now, start, endOld + 1, endNew + 1);
    var from := Max(0, start - CONTEXT_LINES);
    var oldEnd, newEnd := Min(|was| - 1, endOld + CONTEXT_LINES), Min(|now| - 1, endNew + CONTEXT_LINES);
    var lines := PushAll(was, now, from, start, endOld + 1, endNew + 1, oldEnd + 1);
    var oldCount := if oldEnd >= from then oldEnd - from + 1 else 0;
    var newCount := if newEnd >= from then newEnd - from + 1 else 0;
    h := Hunk(from + 1, oldCount, from + 1, newCount, lines);
    assert oldCount == oldEnd + 1 - from && newCount == newEnd + 1 - from;
    ReachesAround(was, now, from, start, endOld + 1, endNew + 1, oldEnd + 1, newEnd + 1, h);
  }

  lemma ChangeIsInside(was: seq<string>, now: seq<string>, start: nat, endOld: nat, endNew: nat)
    requires Changed(was, now, start, endOld, endNew)
    ensures start <= endOld <= |was| && start <= endNew <= |now| && |was| - endOld == |now| - endNew
  {
    SameTails(was, now, endOld, endNew);
  }

  lemma IsChanged(was: seq<string>, now: seq<string>, start: nat, endOld: nat, endNew: nat)
    requires start <= endOld <= |was| && start <= endNew <= |now|
    requires was[..start] == now[..start] && was[endOld..] == now[endNew..]
    requires was == now ==> start == 0
    requires was != now ==> start == |was| || start == |now| || was[start] != now[start]
    requires endOld == start || endNew == start || was[endOld - 1] != now[endNew - 1]
    ensures Changed(was, now, start, endOld, endNew)
  {
  }

  lemma ReachesAround(was: seq<string>, now: seq<string>, from: nat, start: nat, endOld: nat, endNew: nat, oldTo: nat,
                      newTo: nat, h: Hunk)
    requires Changed(was, now, start, endOld, endNew)
    requires from == Max(0, start - CONTEXT_LINES)
    requires oldTo == Min(|was|, endOld + CONTEXT_LINES) && newTo == Min(|now|, endNew + CONTEXT_LINES)
    requires h == Hunk(from + 1, oldTo - from, from + 1, newTo - from,
                       Marked(' ', was[from..start]) + Marked('-', was[start..endOld]) + Marked('+', now[start..endNew])
                           + Marked(' ', was[endOld..oldTo]))
    ensures AroundTheChange(was, now, h) && Exact(was, now, h)
  {
    hide Marked, Exact;
    assert Frames(was, now, h, start, endOld, endNew);
    ChangeIsInside(was, now, start, endOld, endNew);
    HunkIsExact(was, now, from, start, endOld, endNew, oldTo, newTo, h);
  }

  /** No other text is such a diff. */
  lemma OneDiff(oldContent: string, newContent: string, filePath: string, a: string, b: string)
    requires IsUnifiedDiff(oldContent, newContent, filePath, a) && IsUnifiedDiff(oldContent, newContent, filePath, b)
    ensures a == b
  {
    hide Exact, AroundTheChange, OneLineEach, ContentLines, DiffText, Prints;
    var h: Option<Hunk> :| Prints(filePath, h, a) && Shows(oldContent, newContent, h);
    var g: Option<Hunk> :| Prints(filePath, g, b) && Shows(oldContent, newContent, g);
    PrintsIff(filePath, h, a);
    PrintsIff(filePath, g, b);
    if h.Some? { OneHunk(ContentLines(oldContent), ContentLines(newContent), h.value, g.value); }
  }

  method PushAll(was: seq<string>, now: seq<string>, from: nat, start: nat, a: nat, b: nat, end: nat)
    returns (lines: seq<string>)
    requires from <= start <= a <= end <= |was| && start <= b <= |now| && OneLineEach(was) && OneLineEach(now)
    ensures lines == Marked(' ', was[from..start]) + Marked('-', was[start..a]) + Marked('+', now[start..b])
                     + Marked(' ', was[a..end])
    ensures OneLineEach(lines)
  {
    hide Marked, OneLineEach;
    HunkIsOneLineEach(was, now, from, start, a, b, end);
    lines := PushMarked([], ' ', was, from, start);
    lines := PushMarked(lines, '-', was, start, a);
    lines := PushMarked(lines, '+', now, start, b);
    lines := PushMarked(lines, ' ', was, a, end);
  }

  /** One of the four loops that fill the hunk. */
  method PushMarked(hunk: seq<string>, mark: char, lines: seq<string>, from: nat, end: nat) returns (r: seq<string>)
    requires from <= end <= |lines|
    ensures r == hunk + Marked(mark, lines[from..end])
  {
    hide Marked;
    r := hunk;
    assert lines[from..from] == [];
    for index := from to end
      invariant r == hunk + Marked(mark, lines[from..index])
    {
      MarkedSnoc(mark, lines, from, index);
      r := r + [[mark] + lines[index]];
    }
  }

  lemma SameTails(was: seq<string>, now: seq<string>, a: nat, b: nat)
    requires a <= |was| && b <= |now| && was[a..] == now[b..]
    ensures |was| - a == |now| - b
  {
  }

  lemma MarkedSnoc(mark: char, lines: seq<string>, from: nat, i: nat)
    requires from <= i < |lines|
    ensures Marked(mark, lines[from..i + 1]) == Marked(mark, lines[from..i]) + [[mark] + lines[i]]
  {
  }

  lemma {:induction false} SideOfConcat(a: seq<string>, b: seq<string>, mark: char)
    ensures Side(a + b, mark) == Side(a, mark) + Side(b, mark)
  {
    if b == [] {
      assert a + b == a;
    } else {
      assert (a + b)[..|a + b| - 1] == a + b[..|b| - 1];
      SideOfConcat(a, b[..|b| - 1], mark);
    }
  }

  lemma {:induction false} SideOfMarked(lines: seq<string>, m: char, mark: char)
    ensures Side(Marked(m, lines), mark) == if m == ' ' || m == mark then lines else []
  {
    if lines != [] {
      var front := lines[..|lines| - 1];
      SideOfMarked(front, m, mark);
      assert Marked(m, lines)[..|lines| - 1] == Marked(m, front);
    }
  }

  /** What is left of the old lines after lines with this mark. */
  function Past(rest: seq<string>, m: char, n: nat): seq<string>
    requires m == '+' || n <= |rest|
  {
    if m == '+' then rest else rest[n..]
  }

  /** Lines with this mark, in front of a result. */
  function Kept(m: char, text: seq<string>, r: Option<seq<string>>): Option<seq<string>>
  {
    match r
    case Some(s) => Some((if m == '-' then [] else text) + s)
    case None => None
  }

  lemma WalkOne(rest: seq<string>, text: string, m: char, lines: seq<string>)
    requires m in {' ', '-', '+'} && (m != '+' ==> |rest| > 0 && rest[0] == text)
    ensures Walk(rest, [[m] + text] + lines) == Kept(m, [text], Walk(Past(rest, m, 1), lines))
  {
    var all := [[m] + text] + lines;
    assert all[0][0] == m && all[0][1..] == text && all[1..] == lines;
    match Walk(Past(rest, m, 1), lines) {
      case Some(r) => assert [] + r == r;
      case None =>
    }
  }

  lemma KeptConcat(m: char, a: seq<string>, b: seq<string>, r: Option<seq<string>>)
    ensures Kept(m, a, Kept(m, b, r)) == Kept(m, a + b, r)
  {
    match r {
      case Some(s) => assert a + (b + s) == a + b + s && [] + ([] + s) == [] + s;
      case None =>
    }
  }

  lemma {:induction false} WalkMarked(rest: seq<string>, text: seq<string>, m: char, lines: seq<string>)
    requires m in {' ', '-', '+'} && (m != '+' ==> text <= rest)
    ensures Walk(rest, Marked(m, text) + lines) == Kept(m, text, Walk(Past(rest, m, |text|), lines))
  {
    hide Walk;
    if text == [] {
      assert Marked(m, text) + lines == lines;
      match Walk(rest, lines) {
        case Some(r) => assert [] + r == r;
        case None =>
      }
    } else {
      hide Marked, Kept;
      var front, last := text[..|text| - 1], text[|text| - 1];
      MarkedSnoc(m, text, 0, |front|);
      assert text[0..|front| + 1] == text && text[0..|front|] == front;
      assert Marked(m, text) + lines == Marked(m, front) + ([[m] + last] + lines);
      WalkMarked(rest, front, m, [[m] + last] + lines);
      WalkOne(Past(rest, m, |front|), last, m, lines);
      assert Past(Past(rest, m, |front|), m, 1) == Past(rest, m, |text|);
      KeptConcat(m, front, [last], Walk(Past(rest, m, |text|), lines));
      assert front + [last] == text;
    }
  }

  lemma HunkIsExact(was: seq<string>, now: seq<string>, from: nat, start: nat, a: nat, b: nat, oldTo: nat, newTo: nat,
      h: Hunk)
    requires from <= start <= a <= |was| && start <= b <= |now|
    requires was[..start] == now[..start] && was[a..] == now[b..]
    requires a <= oldTo <= |was| && b <= newTo <= |now| && oldTo - a == newTo - b
    requires h == Hunk(from + 1, oldTo - from, from + 1, newTo - from,
                       Marked(' ', was[from..start]) + Marked('-', was[start..a]) + Marked('+', now[start..b])
                           + Marked(' ', was[a..oldTo]))
    ensures Exact(was, now, h)
  {
    hide Side, Walk, Marked;
    var before, gone, added, after := was[from..start], was[start..a], now[start..b], was[a..oldTo];
    SideIs(before, gone, added, after, '-');
    SideIs(before, gone, added, after, '+');
    InThree(was, from, start, a, oldTo);
    InThree(now, from, start, b, newTo);
    SamePart(was[..start], now[..start], was, now, from, start);
    SameTail(was, now, a, b, oldTo, newTo);
    assert before + gone + after <= was[from..];
    WalkIs(was[from..], before, gone, added, after);
    assert was[from..][oldTo - from..] == was[oldTo..];
    assert was[..from] == now[..from] by {
      assert was[..from] == was[..start][..from] && now[..from] == now[..start][..from];
    }
    assert was[..from] + (before + added + after + was[oldTo..]) == now;
  }

  lemma InThree(lines: seq<string>, from: nat, start: nat, end: nat, to: nat)
    requires from <= start <= end <= to <= |lines|
    ensures lines[from..to] == lines[from..start] + lines[start..end] + lines[end..to]
  {
  }

  lemma SamePart(a: seq<string>, b: seq<string>, was: seq<string>, now: seq<string>, from: nat, start: nat)
    requires from <= start <= |was| && start <= |now| && a == was[..start] == now[..start] == b
    ensures was[from..start] == now[from..start]
  {
  }

  lemma SameTail(was: seq<string>, now: seq<string>, a: nat, b: nat, oldTo: nat, newTo: nat)
    requires a <= oldTo <= |was| && b <= newTo <= |now| && oldTo - a == newTo - b && was[a..] == now[b..]
    ensures was[a..oldTo] == now[b..newTo] && was[oldTo..] == now[newTo..]
  {
  }

  lemma SideIs(before: seq<string>, gone: seq<string>, added: seq<string>, after: seq<string>, mark: char)
    requires mark in {'-', '+'}
    ensures Side(Marked(' ', before) + Marked('-', gone) + Marked('+', added) + Marked(' ', after), mark)
            == before + (if mark == '-' then gone else added) + after
  {
    hide Side, Marked;
    SideOfConcat(Marked(' ', before) + Marked('-', gone) + Marked('+', added), Marked(' ', after), mark);
    SideOfConcat(Marked(' ', before) + Marked('-', gone), Marked('+', added), mark);
    SideOfConcat(Marked(' ', before), Marked('-', gone), mark);
    SideOfMarked(before, ' ', mark);
    SideOfMarked(gone, '-', mark);
    SideOfMarked(added, '+', mark);
    SideOfMarked(after, ' ', mark);
    assert before + gone + [] == before + gone && before + [] == before;
  }

  lemma WalkIs(rest: seq<string>, before: seq<string>, gone: seq<string>, added: seq<string>, after: seq<string>)
    requires before + gone + after <= rest
    ensures Walk(rest, Marked(' ', before) + Marked('-', gone) + Marked('+', added) + Marked(' ', after))
            == Some(before + added + after + rest[|before| + |gone| + |after|..])
  {
    hide Walk, Marked;
    var n, k := |before|, |before| + |gone|;
    assert before <= rest && gone <= rest[n..] && after <= rest[k..] by {
      assert rest[..k + |after|] == before + gone + after;
    }
    var left := rest[k + |after|..];
    var tail := Marked(' ', after);
    WalkMarked(rest[k..], after, ' ', []);
    assert tail + [] == tail;
    WalkEnds(left);
    assert rest[k..][|after|..] == left;
    WalkMarked(rest[k..], added, '+', tail);
    WalkMarked(rest[n..], gone, '-', Marked('+', added) + tail);
    assert rest[n..][|gone|..] == rest[k..];
    WalkMarked(rest, before, ' ', Marked('-', gone) + (Marked('+', added) + tail));
    FourInARow(Marked(' ', before), Marked('-', gone), Marked('+', added), tail);
    FourInARow(before, added, after, left);
    assert [] + (added + (after + left)) == added + (after + left);
  }

  lemma FourInARow(a: seq<string>, b: seq<string>, c: seq<string>, d: seq<string>)
    ensures a + (b + (c + d)) == a + b + c + d
  {
  }

  lemma WalkEnds(rest: seq<string>)
    ensures Walk(rest, []) == Some(rest)
  {
  }

  /** How often each line occurs. */
  method LineCounts(lines: seq<string>) returns (counts: map<string, nat>)
    ensures forall line :: (if line in counts then counts[line] else 0) == multiset(lines)[line]
  {
    counts := map[];
    for i := 0 to |lines|
      invariant forall line :: (if line in counts then counts[line] else 0) == multiset(lines[..i])[line]
    {
      var line := lines[i];
      assert lines[..i + 1] == lines[..i] + [line];
      counts := counts[line := (if line in counts then counts[line] else 0) + 1];
    }
    assert lines[..|lines|] == lines;
  }

  /** What one side's lines occur more often than the other's, in all. */
  method CountSurplus(counts: map<string, nat>, others: map<string, nat>, ghost lines: seq<string>,
      ghost against: seq<string>)
    returns (n: nat)
    requires forall line :: (if line in counts then counts[line] else 0) == multiset(lines)[line]
    requires forall line :: (if line in others then others[line] else 0) == multiset(against)[line]
    ensures n == |multiset(lines) - multiset(against)|
  {
    n := 0;
    var left := counts.Keys;
    ghost var surplus := multiset(lines) - multiset(against);
    ghost var counted: multiset<string> := multiset{};
    while left != {}
      invariant left <= counts.Keys
      invariant forall line :: counted[line] == if line in counts && line !in left then surplus[line] else 0
      invariant n == |counted|
      decreases |left|
    {
      var line :| line in left;
      left := left - {line};
      var other := if line in others then others[line] else 0;
      if counts[line] > other { n := n + counts[line] - other; }
      counted := counted[line := surplus[line]];
    }
    assert counted == surplus;
  }

  /** `countLineDiffs`: lines moved about are not counted, and the two numbers account for the difference in length. */
  method CountLineDiffs(oldContent: string, newContent: string) returns (additions: nat, deletions: nat)
    ensures additions == |multiset(ContentLines(newContent)) - multiset(ContentLines(oldContent))|
    ensures deletions == |multiset(ContentLines(oldContent)) - multiset(ContentLines(newContent))|
    ensures |ContentLines(oldContent)| + additions == |ContentLines(newContent)| + deletions
    ensures additions == deletions == 0 <==> multiset(ContentLines(oldContent)) == multiset(ContentLines(newContent))
  {
    hide *;
    var was, now := ContentLines(oldContent), ContentLines(newContent);
    var oldCounts := LineCounts(was);
    var newCounts := LineCounts(now);
    deletions := CountSurplus(oldCounts, newCounts, was, now);
    additions := CountSurplus(newCounts, oldCounts, now, was);
    SurplusBalance(multiset(was), multiset(now));
  }

  lemma SurplusBalance(a: multiset<string>, b: multiset<string>)
    ensures |a| + |b - a| == |b| + |a - b|
    ensures |b - a| == |a - b| == 0 <==> a == b
  {
  }
}
