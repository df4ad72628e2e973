/** The order edits are requested in does not matter beyond what it says at one line, and references checked once
    stay good. */
module HashlineOrder {
  import opened Wrappers
  import opened Sorting
  import opened HashlineText
  import opened HashlineRender

  lemma RankIsAnOrder()
    ensures TotalPreorder(RankedBefore)
  {
  }

  // ----- separation does not depend on the order

  lemma SeparatedSnoc(ops: seq<Op>, op: Op)
    requires Separated(ops) && forall x :: x in ops ==> Apart(x, op)
    ensures Separated(ops + [op])
  {
  }

  lemma {:induction false} InsertKeepsSeparated(ops: seq<Op>, op: Op)
    requires Separated(ops) && forall x :: x in ops ==> Apart(x, op)
    ensures Separated(Insert(ops, op, RankedBefore))
  {
    hide RankedBefore;
    if ops == [] || RankedBefore(ops[|ops| - 1], op) {
      SeparatedSnoc(ops, op);
    } else {
      var front, last := ops[..|ops| - 1], ops[|ops| - 1];
      InsertKeepsSeparated(front, op);
      InsertHasOnly(front, op, RankedBefore);
      forall x | x in Insert(front, op, RankedBefore) ensures Apart(x, last) {
        if x in front {
          var k :| 0 <= k < |front| && front[k] == x;
          assert ops[k] == x;
        } else {
          assert Apart(last, op);
        }
      }
      SeparatedSnoc(Insert(front, op, RankedBefore), last);
    }
  }

  lemma {:induction false} SortKeepsSeparated(ops: seq<Op>)
    requires Separated(ops)
    ensures Separated(Sort(ops, RankedBefore))
  {
    hide RankedBefore, Apart;
    if ops != [] {
      var front, last := ops[..|ops| - 1], ops[|ops| - 1];
      assert ops == front + [last];
      SeparatedFront(front, last);
      SortKeepsSeparated(front);
      SortHasOnly(front, RankedBefore);
      forall x | x in Sort(front, RankedBefore) ensures Apart(x, last) {
        var k :| 0 <= k < |front| && front[k] == x;
        assert Apart(ops[k], ops[|ops| - 1]);
      }
      InsertKeepsSeparated(Sort(front, RankedBefore), last);
    }
  }

  // ----- which operation replaces a line does not depend on the order

  predicate Covers(op: Op, i: nat) { Replaces(op) && Lo(op) <= i < Hi(op) }

  lemma {:induction false} CoveringIsMember(ops: seq<Op>, i: nat)
    ensures match Covering(ops, i)
            case Some(op) => op in ops && Covers(op, i)
            case None => forall op :: op in ops ==> !Covers(op, i)
  {
    if ops != [] {
      CoveringIsMember(ops[..|ops| - 1], i);
      assert ops == ops[..|ops| - 1] + [ops[|ops| - 1]];
    }
  }

  lemma CoveringOfSorted(ops: seq<Op>, i: nat)
    requires Separated(ops)
    ensures Covering(Sort(ops, RankedBefore), i) == Covering(ops, i)
  {
    hide RankedBefore, Apart, Separated, Covers, Sorted;
    var sorted := Sort(ops, RankedBefore);
    RankIsAnOrder();
    SortSorts(ops, RankedBefore);
    forall op ensures op in sorted <==> op in ops {
      assert op in multiset(sorted) <==> op in multiset(ops);
    }
    CoveringIsMember(ops, i);
    CoveringIsMember(sorted, i);
    if Covering(ops, i).Some? && Covering(sorted, i).Some? {
      OneCovers(ops, i, Covering(ops, i).value, Covering(sorted, i).value);
    }
  }

  lemma OneCovers(ops: seq<Op>, i: nat, x: Op, y: Op)
    requires Separated(ops) && x in ops && y in ops && Covers(x, i) && Covers(y, i)
    ensures x == y
  {
  }

  // ----- what is inserted at a line depends only on the order among the insertions there

  function BeforeAt(i: nat): Op -> bool { (op: Op) => op.Before? && op.at == i + 1 }

  function AfterAt(i: nat): Op -> bool { (op: Op) => op.After? && op.at == i + 1 }

  lemma LineSnoc(ops: seq<Op>, op: Op, i: nat, line: string)
    ensures Block(ops + [op], i, line)
            == if BeforeAt(i)(op) then StripInsertBeforeEcho(Block(ops, i, line)[0], op.text) + Block(ops, i, line)
               else Block(ops, i, line)
    ensures Trailer(ops + [op], i, line)
            == if AfterAt(i)(op) then StripInsertAnchorEcho(line, op.text) + Trailer(ops, i, line)
                else Trailer(ops, i, line)
  {
  }

  lemma EndsSnoc(lines: seq<string>, ops: seq<Op>, op: Op)
    ensures WithEnds(lines, ops + [op])
            == if IsAtEnd(op) then AddEnd(WithEnds(lines, ops), op.text) else WithEnds(lines, ops)
    ensures WithStarts(lines, ops + [op])
            == if IsAtStart(op) then AddStart(WithStarts(lines, ops), op.text) else WithStarts(lines, ops)
  {
  }

  lemma {:induction false} LineOfFilter(ops: seq<Op>, i: nat, line: string)
    ensures Block(Filter(ops, BeforeAt(i)), i, line) == Block(ops, i, line)
    ensures Trailer(Filter(ops, AfterAt(i)), i, line) == Trailer(ops, i, line)
  {
    if ops != [] {
      var front, op := ops[..|ops| - 1], ops[|ops| - 1];
      assert ops == front + [op];
      LineOfFilter(front, i, line);
      LineSnoc(front, op, i, line);
      LineSnoc(Filter(front, BeforeAt(i)), op, i, line);
      LineSnoc(Filter(front, AfterAt(i)), op, i, line);
      assert Filter(front, BeforeAt(i)) + [] == Filter(front, BeforeAt(i));
      assert Filter(front, AfterAt(i)) + [] == Filter(front, AfterAt(i));
    }
  }

  predicate IsAtEnd(op: Op) { op.AtEnd? }

  predicate IsAtStart(op: Op) { op.AtStart? }

  lemma NothingFiltered(lines: seq<string>)
    ensures WithEnds(lines, Filter([], IsAtEnd)) == WithEnds(lines, [])
            && WithStarts(lines, Filter([], IsAtStart)) == WithStarts(lines, [])
  {
  }

  lemma {:induction false} EndsOfFilter(lines: seq<string>, ops: seq<Op>)
    ensures WithEnds(lines, Filter(ops, IsAtEnd)) == WithEnds(lines, ops)
    ensures WithStarts(lines, Filter(ops, IsAtStart)) == WithStarts(lines, ops)
  {
    hide WithEnds, WithStarts, Filter;
    if ops != [] {
      var front, op := ops[..|ops| - 1], ops[|ops| - 1];
      assert ops == front + [op];
      EndsOfFilter(lines, front);
      EndsSnoc(lines, front, op);
      EndsSnoc(lines, Filter(front, IsAtEnd), op);
      EndsSnoc(lines, Filter(front, IsAtStart), op);
      FilterSnoc(front, op, IsAtEnd);
      FilterSnoc(front, op, IsAtStart);
      assert Filter(front, IsAtEnd) + [] == Filter(front, IsAtEnd);
      assert Filter(front, IsAtStart) + [] == Filter(front, IsAtStart);
    } else {
      NothingFiltered(lines);
    }
  }

  lemma LineOfSorted(ops: seq<Op>, i: nat, line: string)
    ensures Block(Sort(ops, RankedBefore), i, line) == Block(ops, i, line)
    ensures Trailer(Sort(ops, RankedBefore), i, line) == Trailer(ops, i, line)
  {
    hide Block, Trailer;
    var sorted := Sort(ops, RankedBefore);
    LineOfFilter(ops, i, line);
    LineOfFilter(sorted, i, line);
    SortIsStable(ops, BeforeAt(i), RankedBefore);
    SortIsStable(ops, AfterAt(i), RankedBefore);
  }

  lemma {:induction false} RenderOfSorted(fix: Autocorrect, orig: seq<string>, ops: seq<Op>, i: nat)
    requires Separated(ops)
    ensures Render(fix, orig, Sort(ops, RankedBefore), i) == Render(fix, orig, ops, i)
    decreases |orig| - i
  {
    hide Covering, Block, Trailer, RankedBefore, Apart;
    if i < |orig| {
      RenderOfSorted(fix, orig, ops, i + 1);
      CoveringOfSorted(ops, i);
      LineOfSorted(ops, i, orig[i]);
    }
  }

  /** Sorting the edits changes nothing of what they mean together. */
  lemma SimultaneousOfSorted(fix: Autocorrect, orig: seq<string>, ops: seq<Op>)
    requires Separated(ops)
    ensures Simultaneous(fix, orig, Sort(ops, RankedBefore)) == Simultaneous(fix, orig, ops)
  {
    hide Render, WithEnds, WithStarts, Separated;
    var sorted := Sort(ops, RankedBefore);
    RenderOfSorted(fix, orig, ops, 0);
    var body := Render(fix, orig, ops, 0);
    EndsOfFilter(body, ops);
    EndsOfFilter(body, sorted);
    SortIsStable(ops, IsAtEnd, RankedBefore);
    var ended := WithEnds(body, ops);
    EndsOfFilter(ended, ops);
    EndsOfFilter(ended, sorted);
    SortIsStable(ops, IsAtStart, RankedBefore);
  }

  lemma ApplicableOfSorted(orig: seq<string>, ops: seq<Op>)
    ensures AllApplicable(orig, Sort(ops, RankedBefore)) <==> AllApplicable(orig, ops)
  {
    hide Applicable, RankedBefore;
    var sorted := Sort(ops, RankedBefore);
    RankIsAnOrder();
    SortSorts(ops, RankedBefore);
    forall k | 0 <= k < |ops| ensures ops[k] in sorted { assert ops[k] in multiset(sorted); }
    forall k | 0 <= k < |sorted| ensures sorted[k] in ops { assert sorted[k] in multiset(ops); }
  }

  /** Sorted bottom up and spliced one by one, edits do what they mean together, in whatever order they are given. */
  lemma BottomUpIsSimultaneous(fix: Autocorrect, orig: seq<string>, ops: seq<Op>)
    requires Separated(ops) && forall k :: 0 <= k < |ops| ==> InFile(orig, ops[k])
    ensures ApplyAll(fix, orig, Sort(ops, RankedBefore))
            == if AllApplicable(orig, ops) then Some(Simultaneous(fix, orig, ops)) else None
  {
    hide ApplyAll, AllApplicable, Simultaneous, Separated, InFile, RankedBefore;
    var sorted := Sort(ops, RankedBefore);
    RankIsAnOrder();
    SortSorts(ops, RankedBefore);
    forall k | 0 <= k < |sorted| ensures InFile(orig, sorted[k]) { assert sorted[k] in multiset(ops); }
    SortKeepsSeparated(ops);
    SortedIsSimultaneous(fix, orig, sorted);
    SimultaneousOfSorted(fix, orig, ops);
    ApplicableOfSorted(orig, ops);
  }

  // ----- references checked once stay good

  predicate InsertsBefore(op: Op, j: int) { op.Before? && Touches(op, j) }

  /** The text requested last of those inserted before line `j`. */
  function LastInsertedBefore(ops: seq<Op>, j: int): Option<seq<string>>
  {
    if ops == [] then None
    else
      var op := ops[|ops| - 1];
      if InsertsBefore(op, j) then Some(op.text) else LastInsertedBefore(ops[..|ops| - 1], j)
  }

  /** The line that stands where line `j` stood: itself, or the first one of the text inserted last. */
  function TopLine(ops: seq<Op>, j: int, line: string): string
  {
    match LastInsertedBefore(ops, j)
    case None => line
    case Some(text) => if text == [] then line else text[0]
  }

  /** Edits that can be applied leave a line alone unless one was inserted before it; then there is more above it, the
      text inserted last on top. */
  lemma {:induction false} BlockTop(orig: seq<string>, ops: seq<Op>, j: nat, line: string)
    requires AllApplicable(orig, ops)
    ensures Block(ops, j, line)[0] == TopLine(ops, j, line)
    ensures |Block(ops, j, line)| == 1 <==> LastInsertedBefore(ops, j).None?
    ensures LastInsertedBefore(ops, j).None? <==> forall k :: 0 <= k < |ops| ==> !InsertsBefore(ops[k], j)
  {
    hide StripInsertAnchorEcho;
    if ops != [] {
      var front, op := ops[..|ops| - 1], ops[|ops| - 1];
      assert ops == front + [op];
      assert Applicable(orig, op);
      BlockTop(orig, front, j, line);
      if op.Before? { BeforeKeepsText(Block(front, j, line)[0], op.text); }
    }
  }

  /** The line from which on an operation changes a buffer, counted from zero. */
  function Start(op: Op): int { if op.After? then op.at else Lo(op) }

  lemma SpliceKeepsPrefix(s: seq<string>, from: int, count: nat, text: seq<string>, c: nat)
    requires c <= from && c <= |s|
    ensures c <= |Splice(s, from, count, text)| && Splice(s, from, count, text)[..c] == s[..c]
  {
    assert Slice(s, 0, from)[..c] == s[..c];
  }

  /** In every batch, overlapping or not: what is above everything edited so far stands as it stood. */
  lemma {:induction false} PrefixStays(fix: Autocorrect, orig: seq<string>, ops: seq<Op>, c: nat)
    requires c <= |orig| && ApplyAll(fix, orig, ops).Some?
    requires forall k :: 0 <= k < |ops| ==> Anchored(ops[k]) && c <= Start(ops[k])
    ensures var buffer := ApplyAll(fix, orig, ops).value; c <= |buffer| && buffer[..c] == orig[..c]
  {
    hide Splice, SpanText, LineText, StripInsertAnchorEcho, StripInsertBeforeEcho;
    if ops != [] {
      var front, op := ops[..|ops| - 1], ops[|ops| - 1];
      PrefixStays(fix, orig, front, c);
      var buffer := ApplyAll(fix, orig, front).value;
      forall from: int, count: nat, text | c <= from
        ensures c <= |Splice(buffer, from, count, text)| && Splice(buffer, from, count, text)[..c] == orig[..c]
      {
        SpliceKeepsPrefix(buffer, from, count, text, c);
      }
    }
  }

  /** In every batch a reference finds its line, unless an earlier edit was inserted before that line or replaced it. */
  lemma ReferenceFindsItsLine(fix: Autocorrect, orig: seq<string>, ops: seq<Op>, op: Op, j: nat)
    requires Sorted(ops + [op], RankedBefore) && Anchored(op) && j < Hi(op) && j < |orig|
    requires ApplyAll(fix, orig, ops).Some?
    requires forall k :: 0 <= k < |ops| ==> !(Touches(ops[k], j) && (Replaces(ops[k]) || ops[k].Before?))
    ensures LineAt(ApplyAll(fix, orig, ops).value, j) == Some(orig[j])
  {
    hide ApplyAll, RankedBefore;
    assert (ops + [op])[|ops|] == op;
    forall k | 0 <= k < |ops| ensures Anchored(ops[k]) && j + 1 <= Start(ops[k]) {
      assert (ops + [op])[k] == ops[k];
      assert RankedBefore(ops[k], op);
      RanksHigher(ops[k], op);
    }
    PrefixStays(fix, orig, ops, j + 1);
    assert ApplyAll(fix, orig, ops).value[..j + 1][j] == orig[..j + 1][j];
  }

  lemma RanksHigher(a: Op, b: Op)
    requires RankedBefore(a, b) && Anchored(b) && Hi(b) > 0
    ensures Anchored(a) && Hi(a) >= Hi(b)
  {
  }

  /** An edit inserted at a line the buffer no longer has, as when a range around it was replaced by less: after it
      nothing can be inserted; before it exactly one line can, and it ends up at the end. */
  lemma InsertionAtALineThatIsGone(fix: Autocorrect, orig: seq<string>, ops: seq<Op>, at: nat, text: seq<string>)
    requires ApplyAll(fix, orig, ops).Some? && |ApplyAll(fix, orig, ops).value| < at
    ensures ApplyAll(fix, orig, ops + [After(at, text)]) == None
    ensures ApplyAll(fix, orig, ops + [Before(at, text)])
            == if |text| == 1 then Some(ApplyAll(fix, orig, ops).value + text) else None
  {
    hide StripInsertAnchorEcho, StripInsertBeforeEcho;
    var buffer := ApplyAll(fix, orig, ops).value;
    assert (ops + [After(at, text)])[..|ops|] == ops && (ops + [Before(at, text)])[..|ops|] == ops;
    assert buffer + text + [] == buffer + text && buffer[..|buffer|] == buffer;
  }

  /** The smallest such batch: both lines of a file are replaced by one, and a line is put before the second; it comes
      out behind. */
  lemma PrependEndsUpBehind(fix: Autocorrect)
    requires forall was :: fix(was, ["x"]) == ["x"]
    ensures var orig, ops := ["a", "b"], [Span(1, 2, ["x"]), Before(2, ["y"])];
            Sorted(ops, RankedBefore) && !Separated(ops) && ApplyAll(fix, orig, ops) == Some(["x", "y"])
  {
    var orig, ops := ["a", "b"], [Span(1, 2, ["x"]), Before(2, ["y"])];
    assert !Apart(ops[0], ops[1]);
    assert ops[..1] == [ops[0]] && ops[..1][..0] == [];
    assert SpanText(fix, None, orig, None, ["x"], 2, "a") == ["x"];
    assert orig[0..2] == orig && orig[..0] + ["x"] + orig[2..] == ["x"];
    assert ApplyAll(fix, orig, ops[..1]) == Some(["x"]);
    InsertionAtALineThatIsGone(fix, orig, ops[..1], 2, ["y"]);
    assert ops[..1] + [ops[1]] == ops && ["x"] + ["y"] == ["x", "y"];
  }

  /** What a reference finds when its edit is applied, in the buffer of all edits before it: from the place it names on,
      what was inserted before its line and then the line. So it finds its line exactly if nothing was inserted there,
      or the text inserted there last starts with a copy of the line. */
  lemma ReferencesStayIff(fix: Autocorrect, orig: seq<string>, ops: seq<Op>, op: Op, j: nat)
    requires Sorted(ops + [op], RankedBefore) && Separated(ops + [op]) && AllInFile(orig, ops + [op])
    requires AllApplicable(orig, ops) && Touches(op, j) && j < |orig|
    ensures var buffer, b := Render(fix, orig, ops, 0), Block(ops, j, orig[j]);
            && ApplyAll(fix, orig, ops) == Some(buffer)
            && j + |b| <= |buffer| && buffer[j..j + |b|] == b && buffer[j + |b| - 1] == orig[j]
            && (|b| == 1 <==> forall k :: 0 <= k < |ops| ==> !InsertsBefore(ops[k], j))
            && buffer[j] == TopLine(ops, j, orig[j])
  {
    hide Render, RankedBefore, Apart, Applicable, ApplyAll, Block, Trailer;
    ReferencesAreBelow(orig, ops, op);
    SortedFront(ops, op, RankedBefore);
    SeparatedFront(ops, op);
    AnchoredIsSimultaneous(fix, orig, ops);
    BlockTop(orig, ops, j, orig[j]);
    var tail := BlockStandsThere(fix, orig, ops, op, j);
    var buffer, b := Render(fix, orig, ops, 0), Block(ops, j, orig[j]);
    assert buffer[j..j + |b|] == b;
    assert buffer[j..j + |b|][0] == buffer[j] && buffer[j..j + |b|][|b| - 1] == buffer[j + |b| - 1];
  }

  lemma BlockStandsThere(fix: Autocorrect, orig: seq<string>, ops: seq<Op>, op: Op, j: nat)
    returns (tail: seq<string>)
    requires Below(ops, op) && InFile(orig, op) && Touches(op, j) && j < |orig|
    ensures Render(fix, orig, ops, 0) == orig[..j] + (Block(ops, j, orig[j]) + tail)
  {
    hide Render, Block, Trailer;
    if Replaces(op) {
      UntouchedPrefix(fix, orig, ops, 0, Hi(op));
      OnlyAfters(ops, j, orig[j]);
      tail := orig[j + 1..Hi(op)] + Render(fix, orig, ops, Hi(op));
      assert orig[..Hi(op)] == orig[..j] + [orig[j]] + orig[j + 1..Hi(op)];
      assert orig[0..Hi(op)] == orig[..Hi(op)];
    } else {
      InsertedAt(fix, orig, ops, op);
      tail := Trailer(ops, j, orig[j]) + Render(fix, orig, ops, j + 1);
      assert Block(ops, j, orig[j]) + Trailer(ops, j, orig[j]) + Render(fix, orig, ops, j + 1)
             == Block(ops, j, orig[j]) + tail;
    }
  }

  lemma ReferencesAreBelow(orig: seq<string>, ops: seq<Op>, op: Op)
    requires Sorted(ops + [op], RankedBefore) && Separated(ops + [op]) && AllInFile(orig, ops + [op])
    requires AllApplicable(orig, ops) && Lo(op) < Hi(op)
    ensures Below(ops, op) && AllInFile(orig, ops) && Anchored(op) && InFile(orig, op)
  {
    hide RankedBefore, Apart, Applicable;
    assert (ops + [op])[|ops|] == op;
    assert forall k :: 0 <= k < |ops| ==> (ops + [op])[k] == ops[k];
    forall k | 0 <= k < |ops| ensures !Inverted(ops[k]) {
      InvertedNotApplicable(orig, ops[k]);
      assert Applicable(orig, ops[k]);
    }
    SortedIsBelow(ops, op);
  }

  /** An insertion before a line goes on top of what was inserted there before; and it loses its own last line exactly
      if it has more and that one repeats the first line standing there, be it the line itself or inserted text. */
  lemma InsertionLosesItsLastLineIff(fix: Autocorrect, orig: seq<string>, ops: seq<Op>, j: nat, text: seq<string>)
    requires j < |orig|
    requires Sorted(ops + [Before(j + 1, text)], RankedBefore) && Separated(ops + [Before(j + 1, text)])
    requires AllInFile(orig, ops + [Before(j + 1, text)]) && AllApplicable(orig, ops + [Before(j + 1, text)])
    ensures var buffer, top := Render(fix, orig, ops, 0), TopLine(ops, j, orig[j]);
            var loses := |text| > 1 && EqualsIgnoringWhitespace(text[|text| - 1], top);
            && ApplyAll(fix, orig, ops) == Some(buffer) && j < |buffer| && buffer[j] == top
            && ApplyAll(fix, orig, ops + [Before(j + 1, text)])
               == Some(buffer[..j] + (if loses then text[..|text| - 1] else text) + buffer[j..])
  {
    hide Render, RankedBefore, Apart, Applicable, ApplyAll, Block, Trailer, EqualsIgnoringWhitespace;
    var op := Before(j + 1, text);
    assert (ops + [op])[|ops|] == op;
    ApplicableSnoc(orig, ops, op);
    AnchoredIsSimultaneous(fix, orig, ops + [op]);
    ReferencesStayIff(fix, orig, ops, op, j);
    ReferencesAreBelow(orig, ops, op);
    BlockTop(orig, ops, j, orig[j]);
    OnTop(fix, orig, ops, j, text);
  }

  lemma OnTop(fix: Autocorrect, orig: seq<string>, ops: seq<Op>, j: nat, text: seq<string>)
    requires j < |orig| && Below(ops, Before(j + 1, text))
    ensures var buffer, b := Render(fix, orig, ops, 0), Block(ops, j, orig[j]);
            && j < |buffer|
            && Render(fix, orig, ops + [Before(j + 1, text)], 0)
               == buffer[..j] + StripInsertBeforeEcho(b[0], text) + buffer[j..]
  {
    hide Render, Block, Trailer, StripInsertBeforeEcho;
    var op := Before(j + 1, text);
    InsertedAt(fix, orig, ops, op);
    AddBefore(ops, text, j, orig[j]);
    var b := Block(ops, j, orig[j]);
    var added := StripInsertBeforeEcho(b[0], text);
    Between(orig[..j], added, b, Trailer(ops, j, orig[j]), Render(fix, orig, ops, j + 1));
  }

  lemma Between(a: seq<string>, added: seq<string>, b: seq<string>, c: seq<string>, d: seq<string>)
    ensures var whole := a + (b + c + d);
            a + ((added + b) + c + d) == whole[..|a|] + added + whole[|a|..]
  {
    var whole := a + (b + c + d);
    assert whole[..|a|] == a && whole[|a|..] == b + c + d;
  }

  lemma InvertedNotApplicable(orig: seq<string>, op: Op)
    ensures Inverted(op) ==> !Applicable(orig, op)
  {
  }

  /** The smallest such loss: a second edit inserted before one line reads the first one's text as its anchor, and
      drops its own last line as an echo of it; without the first one it keeps it. */
  lemma SecondBeforeReadsTheFirst(fix: Autocorrect)
    ensures var orig, ops := ["x"], [Before(1, ["a", "b"]), Before(1, ["c", "a"])];
            && Separated(ops) && AllApplicable(orig, ops)
            && ApplyAll(fix, orig, ops) == Some(["c", "a", "b", "x"])
            && ApplyAll(fix, orig, [ops[1]]) == Some(["c", "a", "x"])
  {
    hide ApplyOp, EqualsIgnoringWhitespace;
    var orig, ops := ["x"], [Before(1, ["a", "b"]), Before(1, ["c", "a"])];
    Unequal();
    BeforeOn(fix, [], orig, ["a", "b"]);
    BeforeOn(fix, [], orig, ["c", "a"]);
    BeforeOn(fix, [], ["a", "b", "x"], ["c", "a"]);
    assert [] + orig == orig && [] + ["a", "b", "x"] == ["a", "b", "x"];
    assert [] + ["a", "b"] + orig == ["a", "b", "x"] && [] + ["c", "a"] + orig == ["c", "a", "x"];
    assert ["c", "a"][..1] == ["c"] && [] + ["c"] + ["a", "b", "x"] == ["c", "a", "b", "x"];
    assert ops[..2] == ops && ops[..1] == [Before(1, ["a", "b"])] && ops[..1][..0] == [] && [ops[1]][..0] == [];
    assert ApplyAll(fix, orig, ops[..1]) == Some(["a", "b", "x"]);
  }

  lemma Unequal()
    ensures !EqualsIgnoringWhitespace("b", "x") && !EqualsIgnoringWhitespace("a", "x")
            && EqualsIgnoringWhitespace("a", "a")
  {
    assert WithoutSpace("x") == "x" && WithoutSpace("b") == "b" && WithoutSpace("a") == "a";
  }
}
