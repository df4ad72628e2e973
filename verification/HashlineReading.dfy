/** How the edits of a batch are read: their references, their order, their repetitions. */
module HashlineReading {
  import opened Wrappers
  import opened Text
  import opened Sorting
  import opened HashlineRefs
  import opened HashlineText
  import opened HashlinePatterns
  import opened HashlineRender
  import opened HashlineEdits

  // ----- references

  /** The text refers to this line, and to the hash the line has, by the current function or by the older one. */
  ghost predicate RefersTo(env: Env, lines: seq<string>, ref: string, n: nat)
  {
    && 1 <= n <= |lines|
    && (|| ReadsAs(ref, Some(LineRef(n, HashText(env.current, n, lines[n - 1]))))
        || ReadsAs(ref, Some(LineRef(n, HashText(env.legacy, n, lines[n - 1])))))
  }

  lemma RefHoldsIff(env: Env, lines: seq<string>, ref: string)
    ensures RefHolds(env, lines, ref) <==> Refers(env, lines, ref)
  {
    hide RefersTo, RefHolds;
    forall n ensures RefersTo(env, lines, ref, n) <==> RefHolds(env, lines, ref) && LineOf(ref) == n {
      RefersToIff(env, lines, ref, n);
    }
    if RefHolds(env, lines, ref) { assert RefersTo(env, lines, ref, LineOf(ref)); }
  }

  lemma RefersToIff(env: Env, lines: seq<string>, ref: string, n: nat)
    ensures RefersTo(env, lines, ref, n) <==> RefHolds(env, lines, ref) && LineOf(ref) == n
  {
    hide ParseLineRef, ReadsAs, HashText;
    var r := ParseLineRef(ref);
    ParseIff(ref, r);
    if 1 <= n <= |lines| {
      ParseIff(ref, Some(LineRef(n, HashText(env.current, n, lines[n - 1]))));
      ParseIff(ref, Some(LineRef(n, HashText(env.legacy, n, lines[n - 1]))));
    }
  }

  /** The reference is there: absent and empty ones are not. */
  ghost predicate Names(ref: Option<string>, name: string) { ref == Some(name) && name != "" }

  ghost predicate NamesNone(ref: Option<string>) { ref == None || ref == Some("") }

  ghost predicate Refers(env: Env, lines: seq<string>, ref: string) { exists n :: RefersTo(env, lines, ref, n) }

  /** The references of an edit hold: both of a range, the only one of any other edit. */
  lemma EditHoldsIff(env: Env, lines: seq<string>, pos: string, end: Option<string>, anchor: Option<string>,
                     payload: Payload)
    ensures EditHolds(env, lines, Replace(pos, end, payload))
            <==> Refers(env, lines, pos) && (NamesNone(end) || Refers(env, lines, end.value))
    ensures EditHolds(env, lines, Append(anchor, payload)) <==> NamesNone(anchor) || Refers(env, lines, anchor.value)
    ensures EditHolds(env, lines, Prepend(anchor, payload)) <==> NamesNone(anchor) || Refers(env, lines, anchor.value)
  {
    hide RefHolds, Refers;
    forall ref ensures RefHolds(env, lines, ref) <==> Refers(env, lines, ref) { RefHoldsIff(env, lines, ref); }
    var whole := LineRefs(Replace(pos, end, payload));
    assert whole[0] == pos && (|whole| > 1 ==> whole[1] == end.value);
    assert RefsHold(env, lines, whole) <==>
        RefHolds(env, lines, whole[0]) && (|whole| > 1 ==> RefHolds(env, lines, whole[1]));
    OneRef(env, lines, anchor);
  }

  lemma OneRef(env: Env, lines: seq<string>, anchor: Option<string>)
    ensures anchor.Some? ==> (RefsHold(env, lines, [anchor.value]) <==> RefHolds(env, lines, anchor.value))
    ensures RefsHold(env, lines, [])
  {
    hide RefHolds;
    if anchor.Some? { assert [anchor.value][0] == anchor.value; }
  }

  /** What an edit does, by the lines its references name: a range from one to the other, one line, after or before a
      line, or at an end of the file. */
  lemma ResolvedIs(env: Env, lines: seq<string>, pos: string, end: string, payload: Payload, n: nat, m: nat)
    requires RefersTo(env, lines, pos, n) && RefersTo(env, lines, end, m) && pos != "" && end != ""
    ensures var text := NewLines(payload);
            && Resolve(Replace(pos, Some(end), payload)) == Span(n, m, text)
            && Resolve(Replace(pos, None, payload)) == Line(n, text) == Resolve(Replace(pos, Some(""), payload))
            && Resolve(Append(Some(pos), payload)) == After(n, text)
            && Resolve(Prepend(Some(pos), payload)) == Before(n, text)
            && Resolve(Append(None, payload)) == AtEnd(text) == Resolve(Append(Some(""), payload))
            && Resolve(Prepend(None, payload)) == AtStart(text) == Resolve(Prepend(Some(""), payload))
  {
    hide LineOf, NewLines, RefersTo, RefHolds;
    RefersToIff(env, lines, pos, n);
    RefersToIff(env, lines, end, m);
  }

  /** The text of an edit: its lines, or its one text cut at its line ends, without the prefixes that prevail. */
  lemma TextIs(payload: Payload, pieces: seq<string>)
    requires pieces != [] || payload.Lines?
    requires payload.Lines? ==> pieces == payload.lines
    requires payload.Whole? ==> Join(pieces, '\n') == payload.text && forall p :: p in pieces ==> '\n' !in p
    ensures NewLines(payload) == Stripped(pieces)
  {
    hide Stripped, Split;
    if payload.Whole? { SplitOfJoin(pieces, '\n'); }
  }

  // ----- order

  /** The line an edit is ordered by: the end of a range, or the only one; none without an anchor. */
  ghost predicate OrderedBy(e: Edit, n: Option<nat>)
  {
    match e
    case Replace(pos, end, _) => n.Some? && Stands(if end.Some? then end.value else pos, n.value)
    case Append(anchor, _) => if NamesNone(anchor) then n == None else n.Some? && Stands(anchor.value, n.value)
    case Prepend(anchor, _) => if NamesNone(anchor) then n == None else n.Some? && Stands(anchor.value, n.value)
  }

  ghost predicate Stands(ref: string, n: nat) { exists hash :: ReadsAs(ref, Some(LineRef(n, hash))) }

  lemma StandsIff(ref: string, n: nat)
    ensures Stands(ref, n) <==> ParseLineRef(ref).Some? && ParseLineRef(ref).value.line == n
  {
    hide ParseLineRef, ReadsAs;
    forall r ensures ParseLineRef(ref) == r <==> ReadsAs(ref, r) { ParseIff(ref, r); }
    if ParseLineRef(ref).Some? && ParseLineRef(ref).value.line == n {
      assert ReadsAs(ref, Some(LineRef(n, ParseLineRef(ref).value.hash)));
    }
  }

  /** Further down first, those without a line last; on one line replacements, then what comes after it, then what comes
      before it. */
  ghost predicate InOrder(a: Edit, n: Option<nat>, b: Edit, m: Option<nat>)
  {
    if n == m then a.Replace? || b.Prepend? || (a.Append? && b.Append?)
    else m.None? || (n.Some? && n.value > m.value)
  }

  lemma OrderIff(a: Edit, n: Option<nat>, b: Edit, m: Option<nat>)
    requires OrderedBy(a, n) && OrderedBy(b, m)
    ensures EditBefore(a, b) <==> InOrder(a, n, b, m)
  {
    hide ParseLineRef, Stands;
    RankIs(a, n);
    RankIs(b, m);
  }

  lemma RankIs(e: Edit, n: Option<nat>)
    requires OrderedBy(e, n)
    ensures EditRank(e) == -3 * (if n.Some? then n.value as int else -1)
                           + (if e.Replace? then 0 else if e.Append? then 1 else 2)
  {
    hide ParseLineRef, Stands;
    if OrderRef(e).Some? { StandsIff(OrderRef(e).value, if n.Some? then n.value else 0); }
  }

  /** An edit can be ordered exactly if there is such a line, or none is asked for. */
  lemma OrderableIff(e: Edit)
    ensures Orderable(e) <==> exists n :: OrderedBy(e, n)
  {
    hide ParseLineRef, Stands;
    forall n | OrderedBy(e, n) ensures Orderable(e) {
      if OrderRef(e).Some? { StandsIff(OrderRef(e).value, n.value); }
    }
    if Orderable(e) {
      if OrderRef(e).Some? {
        var n := ParseLineRef(OrderRef(e).value).value.line;
        StandsIff(OrderRef(e).value, n);
        assert OrderedBy(e, Some(n));
      } else {
        assert OrderedBy(e, None);
      }
    }
  }

  // ----- repetitions

  /** A reference as it is compared: nothing, or what is left of it, its digits and its hash. */
  ghost predicate SameAnchor(a: Option<string>, b: Option<string>)
  {
    if NamesNone(a) || NamesNone(b) then NamesNone(a) && NamesNone(b)
    else NormalizeLineRef(a.value) == NormalizeLineRef(b.value)
  }

  /** Two edits that say the same: of one kind, at the same references, with the same text. */
  ghost predicate SaySame(a: Edit, b: Edit)
  {
    && Join(NewLines(a.lines), '\n') == Join(NewLines(b.lines), '\n')
    && match (a, b)
       case (Replace(pos, end, _), Replace(pos', end', _)) => SameAnchor(Some(pos), Some(pos')) && SameAnchor(end, end')
       case (Append(anchor, _), Append(anchor', _)) => SameAnchor(anchor, anchor')
       case (Prepend(anchor, _), Prepend(anchor', _)) => SameAnchor(anchor, anchor')
       case _ => false
  }

  /** Every reference that is given can be read. */
  ghost predicate Readable(ref: Option<string>) { NamesNone(ref) || ParseLineRef(ref.value).Some? }

  ghost predicate AllReadable(e: Edit)
  {
    match e
    case Replace(pos, end, _) => ParseLineRef(pos).Some? && Readable(end)
    case Append(anchor, _) => Readable(anchor)
    case Prepend(anchor, _) => Readable(anchor)
  }

  lemma AnchorHasNoBar(ref: Option<string>)
    requires Readable(ref)
    ensures '|' !in CanonicalAnchor(ref) && (CanonicalAnchor(ref) == "" <==> NamesNone(ref))
  {
    hide MatchRef, NormalizeLineRef;
    if !NamesNone(ref) {
      var s := NormalizeLineRef(ref.value);
      assert MatchRef(s).Some?;
      MatchHasNoBar(s);
    }
  }

  lemma MatchHasNoBar(s: string)
    requires MatchRef(s).Some?
    ensures '|' !in s && s != ""
  {
    assert '|' !in NIBBLES;
    assert s[|s| - 2..] == [s[|s| - 2], s[|s| - 1]];
    forall k | 0 <= k < |s| ensures s[k] != '|' {
      assert k < |s| - 3 ==> s[k] == s[..|s| - 3][k] && IsDigit(s[..|s| - 3][k]);
    }
  }

  lemma AnchorsIff(a: Option<string>, b: Option<string>)
    requires Readable(a) && Readable(b)
    ensures CanonicalAnchor(a) == CanonicalAnchor(b) <==> SameAnchor(a, b)
  {
    hide NormalizeLineRef, ParseLineRef;
    AnchorHasNoBar(a);
    AnchorHasNoBar(b);
  }

  /** What stands before a bar, and what follows it. */
  lemma BarCuts(a: string, x: string, b: string, y: string)
    requires '|' !in a && '|' !in b
    ensures a + "|" + x == b + "|" + y <==> a == b && x == y
  {
    if a + "|" + x == b + "|" + y {
      var s := a + "|" + x;
      FirstBar(s, a, x);
      FirstBar(s, b, y);
    }
  }

  lemma FirstBar(s: string, before: string, after: string)
    requires s == before + "|" + after && '|' !in before
    ensures var i := IndexOf(s, '|'); i >= 0 && s[..i] == before && s[i + 1..] == after
  {
    assert s[|before|] == '|';
    forall k | 0 <= k < |before| ensures s[k] != '|' { assert s[k] == before[k]; }
    IndexIs(s, '|', |before|);
  }

  ghost function KindWord(e: Edit): string {
    match e case Replace(_, _, _) => "replace" case Append(_, _) => "append" case Prepend(_, _) => "prepend"
  }

  /** The key after the kind. */
  ghost function KeyRest(e: Edit): string
  {
    var payload := Join(NewLines(e.lines), '\n');
    match e
    case Replace(pos, end, _) => CanonicalAnchor(Some(pos)) + "|" + (CanonicalAnchor(end) + "|" + payload)
    case Append(anchor, _) => CanonicalAnchor(anchor) + "|" + payload
    case Prepend(anchor, _) => CanonicalAnchor(anchor) + "|" + payload
  }

  lemma KeyIs(e: Edit)
    ensures DedupeKey(e) == KindWord(e) + "|" + KeyRest(e)
  {
    hide CanonicalAnchor, NewLines, Join;
    var payload := Join(NewLines(e.lines), '\n');
    match e
    case Replace(pos, end, _) =>
      var a, b := CanonicalAnchor(Some(pos)), CanonicalAnchor(end);
      assert "replace|" + a + "|" + b + "|" + payload == "replace" + "|" + (a + "|" + (b + "|" + payload));
    case Append(anchor, _) =>
      var a := CanonicalAnchor(anchor);
      assert "append|" + a + "|" + payload == "append" + "|" + (a + "|" + payload);
    case Prepend(anchor, _) =>
      var a := CanonicalAnchor(anchor);
      assert "prepend|" + a + "|" + payload == "prepend" + "|" + (a + "|" + payload);
  }

  lemma KindWords(a: Edit, b: Edit)
    ensures '|' !in KindWord(a) && (KindWord(a) == KindWord(b) <==> SameKind(a, b))
  {
    assert |"replace"| == 7 && |"append"| == 6 && |"prepend"| == 7 && "replace"[0] == 'r' && "prepend"[0] == 'p';
  }

  ghost predicate SameKind(a: Edit, b: Edit) { a.Replace? == b.Replace? && a.Append? == b.Append? }

  /** Two edits whose references can be read count as one exactly if they say the same. */
  lemma KeyIff(a: Edit, b: Edit)
    requires AllReadable(a) && AllReadable(b)
    ensures DedupeKey(a) == DedupeKey(b) <==> SaySame(a, b)
  {
    hide DedupeKey, KindWord, KeyRest, ParseLineRef, CanonicalAnchor, SameAnchor, NewLines, Join;
    KeyIs(a);
    KeyIs(b);
    KindWords(a, b);
    KindWords(b, a);
    BarCuts(KindWord(a), KeyRest(a), KindWord(b), KeyRest(b));
    if SameKind(a, b) { RestsIff(a, b); }
  }

  lemma RestsIff(a: Edit, b: Edit)
    requires AllReadable(a) && AllReadable(b) && SameKind(a, b)
    ensures KeyRest(a) == KeyRest(b) <==> SaySame(a, b)
  {
    hide CanonicalAnchor, NewLines, Join, ParseLineRef, SameAnchor, NormalizeLineRef;
    var x, y := Join(NewLines(a.lines), '\n'), Join(NewLines(b.lines), '\n');
    match (a, b)
    case (Replace(pos, end, _), Replace(pos', end', _)) =>
      GivenPos(a);
      GivenPos(b);
      OneAnchor(end, end', x, y);
      OneAnchor(Some(pos), Some(pos'), CanonicalAnchor(end) + "|" + x, CanonicalAnchor(end') + "|" + y);
    case (Append(anchor, _), Append(anchor', _)) => OneAnchor(anchor, anchor', x, y);
    case (Prepend(anchor, _), Prepend(anchor', _)) => OneAnchor(anchor, anchor', x, y);
  }

  lemma GivenPos(e: Edit)
    requires AllReadable(e) && e.Replace?
    ensures Readable(Some(e.pos))
  {
  }

  lemma OneAnchor(a: Option<string>, b: Option<string>, x: string, y: string)
    requires Readable(a) && Readable(b)
    ensures CanonicalAnchor(a) + "|" + x == CanonicalAnchor(b) + "|" + y <==> SameAnchor(a, b) && x == y
  {
    hide CanonicalAnchor, Readable, SameAnchor;
    AnchorHasNoBar(a);
    AnchorHasNoBar(b);
    AnchorsIff(a, b);
    BarCuts(CanonicalAnchor(a), x, CanonicalAnchor(b), y);
  }

  /** No earlier edit has the key of this one. */
  ghost predicate NoneBefore(edits: seq<Edit>, i: nat)
    requires i < |edits|
  {
    forall j :: 0 <= j < i ==> DedupeKey(edits[j]) != DedupeKey(edits[i])
  }

  lemma NothingPicked()
    ensures Picks([], FirstOfEachKey([]), [])
  {
  }

  /** What is kept: the edits that no earlier one has the key of, in their order. */
  lemma {:induction false} KeptAre(edits: seq<Edit>) returns (at: seq<nat>)
    ensures Picks(edits, FirstOfEachKey(edits), at)
    ensures forall i: nat :: i < |edits| ==> (i in at <==> NoneBefore(edits, i))
  {
    hide DedupeKey, Picks;
    if edits == [] {
      at := [];
      NothingPicked();
    } else {
      var front, last := edits[..|edits| - 1], edits[|edits| - 1];
      at := KeptAre(front);
      PicksSnoc(front, FirstOfEachKey(front), at, last);
      assert edits == front + [last];
      forall i: nat | i < |edits| ensures NoneBefore(edits, i) <==>
          if i < |front| then NoneBefore(front, i) else !HasKey(front, DedupeKey(last)) {}
      if HasKey(front, DedupeKey(last)) {
        assert FirstOfEachKey(front) + [] == FirstOfEachKey(front);
      } else {
        at := at + [|front|];
      }
    }
  }

  /** The ranges: of every edit that replaces one, from its first to its last line, in the order of the edits. */
  lemma {:induction false} RangesAre(edits: seq<Edit>) returns (of: seq<Edit>, at: seq<nat>)
    ensures Picks(edits, of, at) && |of| == |Ranges(edits)|
    ensures forall i: nat :: i < |edits| ==>
              (i in at <==> edits[i].Replace? && edits[i].end.Some? && edits[i].end != Some(""))
    ensures forall k :: 0 <= k < |of| ==> IsRangeOf(Ranges(edits)[k], of[k])
  {
    hide ParseLineRef;
    if edits == [] {
      of, at := [], [];
    } else {
      var front, last := edits[..|edits| - 1], edits[|edits| - 1];
      of, at := RangesAre(front);
      PicksSnoc(front, of, at, last);
      assert edits == front + [last];
      if last.Replace? && Given(last.end).Some? {
        RangeRead(last);
        of, at := of + [last], at + [|front|];
      } else {
        assert Ranges(front) + [] == Ranges(front);
      }
    }
  }

  /** A range is from the line the first reference stands for to that of the second, as far as they can be read. */
  ghost predicate IsRangeOf(r: Range, e: Edit)
  {
    && e.Replace? && e.end.Some?
    && (forall n :: Stands(e.pos, n) ==> r.start == n) && (forall n :: Stands(e.end.value, n) ==> r.end == n)
  }

  lemma RangeRead(e: Edit)
    requires e.Replace? && e.end.Some?
    ensures IsRangeOf(Range(LineOf(e.pos), LineOf(e.end.value)), e)
  {
    hide ParseLineRef, Stands;
    forall n ensures Stands(e.pos, n) ==> LineOf(e.pos) == n { StandsIff(e.pos, n); }
    forall n ensures Stands(e.end.value, n) ==> LineOf(e.end.value) == n { StandsIff(e.end.value, n); }
  }

  // ----- edits without effect

  /** The operations that leave the buffer as they find it. */
  ghost function WithoutEffect(fix: Autocorrect, lines: seq<string>, ops: seq<Op>): set<nat>
  {
    set i: nat | i < |ops| && Unchanged(fix, lines, ops, i)
  }

  ghost predicate Unchanged(fix: Autocorrect, lines: seq<string>, ops: seq<Op>, i: nat)
    requires i < |ops|
  {
    ApplyAll(fix, lines, ops[..i + 1]) == ApplyAll(fix, lines, ops[..i])
  }

  lemma {:induction false} NoopsAre(fix: Autocorrect, lines: seq<string>, ops: seq<Op>)
    ensures Noops(fix, lines, ops) == |WithoutEffect(fix, lines, ops)|
  {
    hide ApplyAll;
    if ops == [] {
      assert WithoutEffect(fix, lines, ops) == {};
    } else {
      var n := |ops| - 1;
      var front := ops[..n];
      NoopsAre(fix, lines, front);
      forall i: nat | i < n ensures Unchanged(fix, lines, front, i) <==> Unchanged(fix, lines, ops, i) {
        assert front[..i + 1] == ops[..i + 1] && front[..i] == ops[..i];
      }
      assert ops[..n + 1] == ops;
      assert WithoutEffect(fix, lines, ops)
          == WithoutEffect(fix, lines, front) + if Unchanged(fix, lines, ops, n) then {n} else {};
    }
  }

  // ----- ranges that meet, and the lines of a file

  /** In order of where they start, and then of where they end. */
  ghost predicate RangesInOrder(ranges: seq<Range>)
  {
    forall i, j :: 0 <= i < j < |ranges| ==>
      || ranges[i].start < ranges[j].start
      || (ranges[i].start == ranges[j].start && ranges[i].end <= ranges[j].end)
  }

  lemma LastIsGreatest(ranges: seq<Range>, r: Range)
    requires RangesInOrder(ranges) && r in ranges
    ensures var last := ranges[|ranges| - 1]; r.start < last.start || (r.start == last.start && r.end <= last.end)
  {
  }

  lemma {:induction false} OneOrder(a: seq<Range>, b: seq<Range>)
    requires multiset(a) == multiset(b) && RangesInOrder(a) && RangesInOrder(b)
    ensures a == b
  {
    hide RangesInOrder;
    if a == [] {
      assert |multiset(b)| == |b|;
    } else {
      assert a[|a| - 1] in multiset(b);
      var front, last := a[..|a| - 1], a[|a| - 1];
      var others, other := b[..|b| - 1], b[|b| - 1];
      assert other in multiset(a) && last in multiset(b);
      LastIsGreatest(a, other);
      LastIsGreatest(b, last);
      assert last == other;
      assert a == front + [last] && b == others + [last];
      assert multiset(front) == multiset(a) - multiset{last} && multiset(others) == multiset(b) - multiset{last};
      FrontInOrder(a);
      FrontInOrder(b);
      OneOrder(front, others);
    }
  }

  lemma FrontInOrder(ranges: seq<Range>)
    requires ranges != [] && RangesInOrder(ranges)
    ensures RangesInOrder(ranges[..|ranges| - 1])
  {
  }

  /** Ranges meet exactly if, put in order, one starts no further down than the one before it ends. */
  lemma MeetIff(ranges: seq<Range>, sorted: seq<Range>)
    requires multiset(sorted) == multiset(ranges) && RangesInOrder(sorted)
    ensures NeighboursMeet(ranges) <==> exists k :: 0 < k < |sorted| && sorted[k].start <= sorted[k - 1].end
  {
    SortSorts(ranges, StartsBefore);
    OneOrder(sorted, Sort(ranges, StartsBefore));
    if NeighboursMeet(ranges) {
      var k :| 0 < k < |sorted| && Meets(sorted, k);
      assert sorted[k].start <= sorted[k - 1].end;
    }
    if k :| 0 < k < |sorted| && sorted[k].start <= sorted[k - 1].end { assert Meets(sorted, k); }
  }

  /** The lines of a file: those that joined by line ends are its content, and none for an empty one. */
  lemma FileLinesIff(content: string, lines: seq<string>)
    ensures HashlineEdits.ContentLines(content) == lines
            <==> if content == "" then lines == []
                 else lines != [] && Join(lines, '\n') == content && forall line :: line in lines ==> '\n' !in line
  {
    hide Split, Join;
    if lines != [] && forall line :: line in lines ==> '\n' !in line { SplitOfJoin(lines, '\n'); }
  }
}
