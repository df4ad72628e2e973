/** Applying a batch of edits to a file: deduplicated, sorted bottom up, validated once, checked for overlapping
    ranges, then applied one after another. */
module HashlineEdits {
  import opened Wrappers
  import opened Text
  import opened Sorting
  import opened HashlineRefs
  import opened HashlineText
  import opened HashlineRender
  import opened HashlineOrder

  datatype Edit =
    | Replace(pos: string, end: Option<string>, lines: Payload)
    | Append(anchor: Option<string>, lines: Payload)
    | Prepend(anchor: Option<string>, lines: Payload)

  /** What the tool calls but this model does not define: the two line hashes and the autocorrection. */
  datatype Env = Env(current: LineHash, legacy: LineHash, fix: Autocorrect)

  datatype EditError = BadReference | OutOfBounds | LineChanged | OverlappingRanges | CannotApply

  datatype Report = Report(content: string, noopEdits: nat, deduplicatedEdits: nat)

  /** An optional reference as a condition sees it: the empty string is none. */
  function Given(ref: Option<string>): Option<string>
  {
    if ref.Some? && ref.value != "" then ref else None
  }

  // ----- deduplication

  function CanonicalAnchor(ref: Option<string>): string
  {
    if Given(ref).Some? then NormalizeLineRef(ref.value) else ""
  }

  function DedupeKey(e: Edit): string
  {
    var payload := Join(NewLines(e.lines), '\n');
    match e
    case Replace(pos, end, _) => "replace|" + CanonicalAnchor(Some(pos)) + "|" + CanonicalAnchor(end) + "|" + payload
    case Append(anchor, _) => "append|" + CanonicalAnchor(anchor) + "|" + payload
    case Prepend(anchor, _) => "prepend|" + CanonicalAnchor(anchor) + "|" + payload
  }

  predicate HasKey(edits: seq<Edit>, key: string) { exists i :: 0 <= i < |edits| && DedupeKey(edits[i]) == key }

  /** The first edit of every key, in the order given. */
  function FirstOfEachKey(edits: seq<Edit>): (r: seq<Edit>)
    ensures |r| <= |edits|
  {
    if edits == [] then []
    else
      var front, last := edits[..|edits| - 1], edits[|edits| - 1];
      FirstOfEachKey(front) + if HasKey(front, DedupeKey(last)) then [] else [last]
  }

  method DedupeEdits(edits: seq<Edit>) returns (deduped: seq<Edit>, dropped: nat)
    ensures deduped == FirstOfEachKey(edits) && dropped == |edits| - |deduped|
  {
    hide DedupeKey;
    var seen: set<string> := {};
    deduped, dropped := [], 0;
    for i := 0 to |edits|
      invariant forall key :: key in seen <==> HasKey(edits[..i], key)
      invariant deduped == FirstOfEachKey(edits[..i]) && dropped == i - |deduped|
    {
      var key := DedupeKey(edits[i]);
      assert edits[..i + 1][..i] == edits[..i];
      forall k ensures HasKey(edits[..i + 1], k) <==> HasKey(edits[..i], k) || k == key {
        HasKeySnoc(edits[..i], edits[i], k);
        assert edits[..i + 1] == edits[..i] + [edits[i]];
      }
      if key in seen {
        dropped := dropped + 1;
      } else {
        seen := seen + {key};
        deduped := deduped + [edits[i]];
      }
    }
    assert edits[..|edits|] == edits;
  }

  lemma HasKeySnoc(edits: seq<Edit>, e: Edit, key: string)
    ensures HasKey(edits + [e], key) <==> HasKey(edits, key) || key == DedupeKey(e)
  {
    hide DedupeKey;
    var all := edits + [e];
    if HasKey(edits, key) {
      var i :| 0 <= i < |edits| && DedupeKey(edits[i]) == key;
      assert all[i] == edits[i];
    }
    assert all[|edits|] == e;
  }

  /** Deduplication drops repetitions only: no two kept edits share a key, and every edit's key is kept. */
  lemma {:induction false} DedupeKeepsKeys(edits: seq<Edit>, key: string)
    ensures HasKey(FirstOfEachKey(edits), key) <==> HasKey(edits, key)
    ensures forall i, j :: 0 <= i < j < |FirstOfEachKey(edits)| ==>
              DedupeKey(FirstOfEachKey(edits)[i]) != DedupeKey(FirstOfEachKey(edits)[j])
  {
    hide DedupeKey;
    if edits != [] {
      var front, last := edits[..|edits| - 1], edits[|edits| - 1];
      DedupeKeepsKeys(front, key);
      DedupeKeepsKeys(front, DedupeKey(last));
      assert edits == front + [last];
      HasKeySnoc(front, last, key);
      HasKeySnoc(FirstOfEachKey(front), last, key);
      assert FirstOfEachKey(front) + [] == FirstOfEachKey(front);
    }
  }

  // ----- reading the references

  /** The references an edit names. */
  function LineRefs(e: Edit): seq<string>
  {
    match e
    case Replace(pos, end, _) => if Given(end).Some? then [pos, end.value] else [pos]
    case Append(anchor, _) => if Given(anchor).Some? then [anchor.value] else []
    case Prepend(anchor, _) => if Given(anchor).Some? then [anchor.value] else []
  }

  /** The reference an edit is ordered by; a range by its end, even an empty one. */
  function OrderRef(e: Edit): Option<string>
  {
    match e
    case Replace(pos, end, _) => if end.Some? then end else Some(pos)
    case Append(anchor, _) => Given(anchor)
    case Prepend(anchor, _) => Given(anchor)
  }

  predicate Orderable(e: Edit) { OrderRef(e).Some? ==> ParseLineRef(OrderRef(e).value).Some? }

  function LineOf(ref: string): nat
  {
    match ParseLineRef(ref)
    case Some(r) => r.line
    case None => 0
  }

  /** The place of an edit in the order: the line it is ordered by, further down first, then its kind. */
  function EditRank(e: Edit): int
  {
    var line := if OrderRef(e).Some? then LineOf(OrderRef(e).value) else -1;
    -3 * line + (match e case Replace(_, _, _) => 0 case Append(_, _) => 1 case Prepend(_, _) => 2)
  }

  predicate EditBefore(a: Edit, b: Edit) { EditRank(a) <= EditRank(b) }

  /** The edit with its references and its payload read. */
  function Resolve(e: Edit): Op
  {
    var text := NewLines(e.lines);
    match e
    case Replace(pos, end, _) =>
      if Given(end).Some? then Span(LineOf(pos), LineOf(end.value), text) else Line(LineOf(pos), text)
    case Append(anchor, _) => if Given(anchor).Some? then After(LineOf(anchor.value), text) else AtEnd(text)
    case Prepend(anchor, _) => if Given(anchor).Some? then Before(LineOf(anchor.value), text) else AtStart(text)
  }

  lemma RanksAgree(e: Edit)
    requires e.Replace? && e.end.Some? ==> e.end.value != ""
    ensures Rank(Resolve(e)) == EditRank(e)
  {
    hide NewLines, ParseLineRef;
  }

  // ----- validation

  predicate Compatible(env: Env, line: nat, content: string, hash: string)
  {
    HashText(env.current, line, content) == hash || HashText(env.legacy, line, content) == hash
  }

  /** The reference names a line of the file, and the hash that line had when it was read. */
  predicate RefHolds(env: Env, lines: seq<string>, ref: string)
  {
    match ParseLineRef(ref)
    case None => false
    case Some(r) => 1 <= r.line <= |lines| && Compatible(env, r.line, lines[r.line - 1], r.hash)
  }

  /** What keeps a reference from being looked up at all. */
  function RefFault(lines: seq<string>, ref: string): Option<EditError>
  {
    match ParseLineRef(ref)
    case None => Some(BadReference)
    case Some(r) => if 1 <= r.line <= |lines| then None else Some(OutOfBounds)
  }

  method ValidateLineRefs(env: Env, lines: seq<string>, refs: seq<string>) returns (error: Option<EditError>)
    ensures error.None? <==> RefsHold(env, lines, refs)
    ensures error.Some? && error.value != LineChanged ==>
              exists i :: 0 <= i < |refs| && RefFault(lines, refs[i]) == error
                          && forall k :: 0 <= k < i ==> RefFault(lines, refs[k]).None?
    ensures error == Some(LineChanged) ==> forall i :: 0 <= i < |refs| ==> RefFault(lines, refs[i]).None?
    ensures error.Some? ==> error.value in {BadReference, OutOfBounds, LineChanged}
  {
    hide Compatible, ParseLineRef;
    var mismatches := 0;
    for i := 0 to |refs|
      invariant mismatches >= 0 && forall k :: 0 <= k < i ==> RefFault(lines, refs[k]).None?
      invariant mismatches == 0 <==> forall k :: 0 <= k < i ==> RefHolds(env, lines, refs[k])
    {
      var ref := ParseLineRef(refs[i]);
      if ref.None? { return Some(BadReference); }
      if ref.value.line < 1 || ref.value.line > |lines| { return Some(OutOfBounds); }
      if !Compatible(env, ref.value.line, lines[ref.value.line - 1], ref.value.hash) {
        mismatches := mismatches + 1;
      }
    }
    return if mismatches > 0 then Some(LineChanged) else None;
  }

  ghost predicate EditHolds(env: Env, lines: seq<string>, e: Edit) { RefsHold(env, lines, LineRefs(e)) }

  function CollectLineRefs(edits: seq<Edit>): seq<string>
  {
    if edits == [] then [] else LineRefs(edits[0]) + CollectLineRefs(edits[1..])
  }

  ghost predicate RefsHold(env: Env, lines: seq<string>, refs: seq<string>)
  {
    forall i :: 0 <= i < |refs| ==> RefHolds(env, lines, refs[i])
  }

  lemma RefsConcat(env: Env, lines: seq<string>, a: seq<string>, b: seq<string>)
    ensures RefsHold(env, lines, a + b) <==> RefsHold(env, lines, a) && RefsHold(env, lines, b)
  {
    hide RefHolds;
    var all := a + b;
    assert forall i :: 0 <= i < |a| ==> all[i] == a[i];
    assert forall i :: 0 <= i < |b| ==> all[|a| + i] == b[i];
    if RefsHold(env, lines, all) {
      forall i | 0 <= i < |b| ensures RefHolds(env, lines, b[i]) { assert RefHolds(env, lines, all[|a| + i]); }
      forall i | 0 <= i < |a| ensures RefHolds(env, lines, a[i]) { assert RefHolds(env, lines, all[i]); }
    }
  }

  lemma {:induction false} CollectedHold(env: Env, lines: seq<string>, edits: seq<Edit>)
    ensures RefsHold(env, lines, CollectLineRefs(edits)) <==> forall e :: e in edits ==> EditHolds(env, lines, e)
  {
    hide RefsHold, LineRefs;
    if edits == [] {
      NoRefsHold(env, lines);
    } else {
      CollectedHold(env, lines, edits[1..]);
      RefsConcat(env, lines, LineRefs(edits[0]), CollectLineRefs(edits[1..]));
      assert edits == [edits[0]] + edits[1..];
      if forall e :: e in edits ==> EditHolds(env, lines, e) {
        forall e | e in edits[1..] ensures EditHolds(env, lines, e) { assert e in edits; }
        assert EditHolds(env, lines, edits[0]);
      } else {
        var e :| e in edits && !EditHolds(env, lines, e);
        assert e == edits[0] || e in edits[1..];
      }
    }
  }

  lemma NoRefsHold(env: Env, lines: seq<string>)
    ensures RefsHold(env, lines, [])
  {
  }

  /** A reference that holds is a line of the file, so the resolved edit is inside it. */
  lemma HoldingIsInFile(env: Env, lines: seq<string>, e: Edit)
    requires EditHolds(env, lines, e)
    ensures InFile(lines, Resolve(e))
  {
    hide NewLines, Compatible, ParseLineRef;
    forall i | 0 <= i < |LineRefs(e)| ensures 1 <= LineOf(LineRefs(e)[i]) <= |lines| {
      assert RefHolds(env, lines, LineRefs(e)[i]);
    }
    if LineRefs(e) != [] {
      assert 1 <= LineOf(LineRefs(e)[0]) <= |lines|;
      assert 1 <= LineOf(LineRefs(e)[|LineRefs(e)| - 1]) <= |lines|;
    }
  }

  // ----- overlapping ranges

  datatype Range = Range(start: nat, end: nat)

  function Ranges(edits: seq<Edit>): seq<Range>
  {
    if edits == [] then []
    else
      var last := edits[|edits| - 1];
      Ranges(edits[..|edits| - 1])
      + if last.Replace? && Given(last.end).Some? then [Range(LineOf(last.pos), LineOf(last.end.value))] else []
  }

  predicate StartsBefore(a: Range, b: Range) { a.start < b.start || (a.start == b.start && a.end <= b.end) }

  predicate Disjoint(a: Range, b: Range) { a.end < b.start || b.end < a.start }

  ghost predicate PairwiseDisjoint(ranges: seq<Range>)
  {
    forall i, j :: 0 <= i < j < |ranges| ==> Disjoint(ranges[i], ranges[j])
  }

  ghost predicate Upright(ranges: seq<Range>) { forall r :: r in ranges ==> r.start <= r.end }

  lemma {:induction false} NeighboursApart(ranges: seq<Range>, i: nat, j: nat)
    requires i < j < |ranges| && Upright(ranges)
    requires forall k :: 0 < k < |ranges| ==> ranges[k - 1].end < ranges[k].start
    ensures ranges[i].end < ranges[j].start
  {
    if i < j - 1 {
      NeighboursApart(ranges, i, j - 1);
      assert ranges[j - 1] in ranges;
      assert ranges[j - 1].end < ranges[j].start;
    }
  }

  /** Some range, sorted by where they start, starts no further down than the one before it ends. */
  ghost predicate NeighboursMeet(ranges: seq<Range>)
  {
    var sorted := Sort(ranges, StartsBefore);
    exists k :: 0 < k < |sorted| && Meets(sorted, k)
  }

  predicate Meets(sorted: seq<Range>, k: int)
    requires 0 < k < |sorted|
  {
    sorted[k].start <= sorted[k - 1].end
  }

  /** Looking at neighbours only, after sorting by start, finds an overlap exactly when there is one, provided no
      range is upside down; what it finds otherwise is still a pair of neighbours. */
  method DetectOverlappingRanges(edits: seq<Edit>) returns (overlapping: bool)
    ensures overlapping <==> NeighboursMeet(Ranges(edits))
    ensures Upright(Ranges(edits)) ==> (overlapping <==> !PairwiseDisjoint(Ranges(edits)))
  {
    hide ParseLineRef;
    var ranges := CollectRanges(edits);
    if |ranges| < 2 {
      FewNeverMeet(ranges);
      return false;
    }
    var sorted := Sort(ranges, StartsBefore);
    SortSorts(ranges, StartsBefore);
    DisjointOfSorted(ranges);
    UprightOfSorted(ranges);
    for i := 1 to |sorted|
      invariant forall k :: 0 < k < i ==> sorted[k - 1].end < sorted[k].start
    {
      if sorted[i].start <= sorted[i - 1].end {
        assert Meets(sorted, i);
        NeighboursOverlap(sorted, i);
        return true;
      }
    }
    if Upright(ranges) {
      forall i, j | 0 <= i < j < |sorted| ensures Disjoint(sorted[i], sorted[j]) { NeighboursApart(sorted, i, j); }
    }
    return false;
  }

  lemma FewNeverMeet(ranges: seq<Range>)
    requires |ranges| < 2
    ensures !NeighboursMeet(ranges) && PairwiseDisjoint(ranges)
  {
    SortSorts(ranges, StartsBefore);
    assert |Sort(ranges, StartsBefore)| == |multiset(ranges)|;
  }

  lemma NeighboursOverlap(sorted: seq<Range>, i: nat)
    requires 0 < i < |sorted| && StartsBefore(sorted[i - 1], sorted[i]) && sorted[i].start <= sorted[i - 1].end
    ensures Upright(sorted) ==> !PairwiseDisjoint(sorted)
  {
  }

  method CollectRanges(edits: seq<Edit>) returns (ranges: seq<Range>)
    ensures ranges == Ranges(edits)
  {
    hide ParseLineRef;
    ranges := [];
    for i := 0 to |edits|
      invariant ranges == Ranges(edits[..i])
    {
      assert edits[..i + 1][..i] == edits[..i];
      var e := edits[i];
      if e.Replace? && Given(e.end).Some? {
        ranges := ranges + [Range(LineOf(e.pos), LineOf(e.end.value))];
      }
    }
    assert edits[..|edits|] == edits;
  }

  lemma UprightOfSorted(ranges: seq<Range>)
    ensures Upright(Sort(ranges, StartsBefore)) <==> Upright(ranges)
  {
    SortSorts(ranges, StartsBefore);
    forall r ensures r in Sort(ranges, StartsBefore) <==> r in ranges {
      assert r in multiset(Sort(ranges, StartsBefore)) <==> r in multiset(ranges);
    }
  }

  /** Being pairwise disjoint does not depend on the order. */
  lemma DisjointOfSorted(ranges: seq<Range>)
    ensures PairwiseDisjoint(Sort(ranges, StartsBefore)) <==> PairwiseDisjoint(ranges)
  {
    hide Disjoint;
    SortSorts(ranges, StartsBefore);
    DisjointCounts(ranges);
    DisjointCounts(Sort(ranges, StartsBefore));
  }

  /** Pairwise disjoint, said of a multiset: different members are disjoint, and one that occurs twice is so of
      itself. */
  ghost predicate DisjointMembers(ranges: multiset<Range>)
  {
    && (forall a, b :: a in ranges && b in ranges && a != b ==> Disjoint(a, b))
    && (forall a :: a in ranges && ranges[a] > 1 ==> Disjoint(a, a))
  }

  lemma DisjointSnoc(ranges: seq<Range>, r: Range)
    ensures PairwiseDisjoint(ranges + [r]) <==> PairwiseDisjoint(ranges) && forall x :: x in ranges ==> Disjoint(x, r)
  {
    hide Disjoint;
    var all := ranges + [r];
    assert all[|ranges|] == r;
    assert forall i :: 0 <= i < |ranges| ==> all[i] == ranges[i];
    if PairwiseDisjoint(all) {
      forall x | x in ranges ensures Disjoint(x, r) {
        var i :| 0 <= i < |ranges| && ranges[i] == x;
        assert Disjoint(all[i], all[|ranges|]);
      }
      forall i, j | 0 <= i < j < |ranges| ensures Disjoint(ranges[i], ranges[j]) {
        assert Disjoint(all[i], all[j]);
      }
    }
  }

  lemma MembersPlus(m: multiset<Range>, r: Range)
    ensures DisjointMembers(m + multiset{r}) <==> DisjointMembers(m) && forall x :: x in m ==> Disjoint(x, r)
  {
  }

  lemma {:induction false} DisjointCounts(ranges: seq<Range>)
    ensures PairwiseDisjoint(ranges) <==> DisjointMembers(multiset(ranges))
  {
    hide Disjoint, PairwiseDisjoint, DisjointMembers;
    if ranges == [] {
      NoneAreDisjoint();
    } else {
      var front, last := ranges[..|ranges| - 1], ranges[|ranges| - 1];
      assert ranges == front + [last];
      DisjointCounts(front);
      DisjointSnoc(front, last);
      MembersPlus(multiset(front), last);
      assert multiset(ranges) == multiset(front) + multiset{last};
    }
  }

  lemma NoneAreDisjoint()
    ensures PairwiseDisjoint([]) && DisjointMembers(multiset([]))
  {
  }

  // ----- the whole batch

  function Resolved(edits: seq<Edit>): seq<Op> { Map(edits, Resolve) }

  function ContentLines(content: string): seq<string> { if content == "" then [] else Split(content, '\n') }

  /** Every reference holds in the file, and every edit can be put in order if there is more than one. */
  ghost predicate References(env: Env, lines: seq<string>, edits: seq<Edit>)
  {
    && (forall e :: e in edits ==> EditHolds(env, lines, e))
    && (|edits| > 1 ==> forall e :: e in edits ==> Orderable(e))
  }

  /** How many of the operations leave the buffer as they find it. */
  function Noops(fix: Autocorrect, lines: seq<string>, ops: seq<Op>): nat
  {
    if ops == [] then 0
    else
      var n := |ops| - 1;
      Noops(fix, lines, ops[..n]) + if ApplyAll(fix, lines, ops) == ApplyAll(fix, lines, ops[..n]) then 1 else 0
  }

  predicate AllOrderable(edits: seq<Edit>) { forall i :: 0 <= i < |edits| ==> Orderable(edits[i]) }

  /** `applyHashlineEditsWithReport`. With no replaced line replaced, anchored at or enclosed twice, the batch succeeds
      exactly when every reference holds and every edit can be applied to the file as it was; and what it then gives is
      the file with all edits taken at once, in the coordinates they were written in. Any other batch is spliced bottom
      up, in the order of its edits' references, unless two ranges meet. */
  method ApplyHashlineEdits(env: Env, content: string, edits: seq<Edit>) returns (r: Result<Report, EditError>)
    ensures edits == [] ==> r == Success(Report(content, 0, 0))
    ensures var kept := FirstOfEachKey(edits); var lines := ContentLines(content); var ops := Resolved(kept);
            var sorted := Sort(kept, EditBefore); var buffer := ApplyAll(env.fix, lines, Resolved(sorted));
            && (edits != [] ==>
                  (r.Success? <==> References(env, lines, kept) && !NeighboursMeet(Ranges(sorted)) && buffer.Some?))
            && (edits != [] && r.Success? ==>
                  && r.value.deduplicatedEdits == |edits| - |kept|
                  && r.value.noopEdits == Noops(env.fix, lines, Resolved(sorted))
                  && r.value.content == Join(buffer.value, '\n'))
            && (r.Failure? ==>
                  && (r.error.OverlappingRanges? <==> References(env, lines, kept) && NeighboursMeet(Ranges(sorted)))
                  && (r.error.CannotApply? <==>
                        References(env, lines, kept) && !NeighboursMeet(Ranges(sorted)) && buffer.None?))
            && (edits != [] && Separated(ops) ==>
                  && (r.Success? <==> References(env, lines, kept) && AllApplicable(lines, ops))
                  && (r.Success? ==> r.value.content == Join(Simultaneous(env.fix, lines, ops), '\n')))
  {
    hide *;
    if edits == [] {
      EmptyBatch(env, content);
      return Success(Report(content, 0, 0));
    }
    var kept, dropped := DedupeEdits(edits);
    if |kept| > 1 && !AllOrderable(kept) {
      NotOrderable(env, ContentLines(content), kept);
      return Failure(BadReference);
    }
    var sorted := Sort(kept, EditBefore);
    var lines := ContentLines(content);
    var error := ValidateLineRefs(env, lines, CollectLineRefs(sorted));
    SortedReferences(env, lines, kept);
    if error.Some? { return Failure(error.value); }
    SortedOps(env, lines, kept);
    var ops := Resolved(kept);
    var overlapping := DetectOverlappingRanges(sorted);
    SortedRanges(env, lines, kept);
    if overlapping { return Failure(OverlappingRanges); }
    var buffer, noopEdits := ApplyInTurn(env.fix, lines, Resolved(sorted));
    if Separated(ops) { BottomUpIsSimultaneous(env.fix, lines, ops); }
    if buffer.None? { return Failure(CannotApply); }
    return Success(Report(Join(buffer.value, '\n'), noopEdits, dropped));
  }

  method ApplyInTurn(fix: Autocorrect, lines: seq<string>, ops: seq<Op>)
    returns (buffer: Option<seq<string>>, noopEdits: nat)
    ensures buffer == ApplyAll(fix, lines, ops)
    ensures buffer.Some? ==> noopEdits == Noops(fix, lines, ops)
  {
    hide ApplyOp;
    var current := lines;
    noopEdits := 0;
    for i := 0 to |ops|
      invariant ApplyAll(fix, lines, ops[..i]) == Some(current)
      invariant noopEdits == Noops(fix, lines, ops[..i])
    {
      assert ops[..i + 1][..i] == ops[..i];
      var next := ApplyOp(fix, current, ops[i]);
      if next.None? {
        ThrowingStaysThrown(fix, lines, ops, i + 1);
        return None, noopEdits;
      }
      if next.value == current {
        noopEdits := noopEdits + 1;
      } else {
        current := next.value;
      }
    }
    assert ops[..|ops|] == ops;
    return Some(current), noopEdits;
  }

  lemma EmptyBatch(env: Env, content: string)
    ensures FirstOfEachKey([]) == [] && References(env, ContentLines(content), [])
  {
  }

  lemma NotOrderable(env: Env, lines: seq<string>, edits: seq<Edit>)
    requires |edits| > 1 && !AllOrderable(edits)
    ensures !References(env, lines, edits)
  {
    hide Orderable;
  }

  lemma SameEdits(edits: seq<Edit>)
    ensures forall e :: e in Sort(edits, EditBefore) <==> e in edits
  {
    hide EditRank;
    SortSorts(edits, EditBefore);
    forall e ensures e in Sort(edits, EditBefore) <==> e in edits {
      assert e in multiset(Sort(edits, EditBefore)) <==> e in multiset(edits);
    }
  }

  lemma SortedReferences(env: Env, lines: seq<string>, edits: seq<Edit>)
    requires |edits| > 1 ==> AllOrderable(edits)
    ensures RefsHold(env, lines, CollectLineRefs(Sort(edits, EditBefore))) <==> References(env, lines, edits)
  {
    hide RefHolds, Orderable, EditHolds, EditBefore, CollectLineRefs;
    CollectedHold(env, lines, Sort(edits, EditBefore));
    SameEdits(edits);
  }

  /** Sorting the edits is sorting what they resolve to. */
  lemma SortedOps(env: Env, lines: seq<string>, edits: seq<Edit>)
    requires References(env, lines, edits)
    ensures Resolved(Sort(edits, EditBefore)) == Sort(Resolved(edits), RankedBefore)
    ensures forall k :: 0 <= k < |Resolved(edits)| ==> InFile(lines, Resolved(edits)[k])
  {
    hide Resolve, Rank, EditRank, EditHolds, InFile;
    forall k | 0 <= k < |edits| ensures InFile(lines, Resolve(edits[k])) { HoldingIsInFile(env, lines, edits[k]); }
    if |edits| > 1 {
      forall e | e in edits ensures Rank(Resolve(e)) == EditRank(e) {
        OrderableEndsAreGiven(e);
        RanksAgree(e);
      }
    }
    if |edits| == 1 {
      forall a, b | a in edits && b in edits ensures a == b { }
    }
    MapOfSort(edits, Resolve, EditBefore, RankedBefore);
  }

  lemma OrderableEndsAreGiven(e: Edit)
    requires Orderable(e)
    ensures e.Replace? && e.end.Some? ==> e.end.value != ""
  {
  }

  /** A range comes from an edit that replaces it. */
  lemma {:induction false} RangeComesFrom(edits: seq<Edit>, r: Range)
    requires r in Ranges(edits)
    ensures exists k :: 0 <= k < |edits| && Resolve(edits[k]).Span?
                        && Resolve(edits[k]).first == r.start && Resolve(edits[k]).last == r.end
  {
    hide NewLines, ParseLineRef;
    var n := |edits| - 1;
    if r in Ranges(edits[..n]) {
      RangeComesFrom(edits[..n], r);
      var k :| 0 <= k < n && Resolve(edits[..n][k]).Span?
               && Resolve(edits[..n][k]).first == r.start && Resolve(edits[..n][k]).last == r.end;
      assert edits[k] == edits[..n][k];
    } else {
      assert Resolve(edits[n]).Span? && Resolve(edits[n]).first == r.start;
    }
  }

  /** Edits that are apart and can be applied replace ranges that do not overlap. */
  lemma {:induction false} RangesApart(lines: seq<string>, edits: seq<Edit>)
    requires Separated(Resolved(edits)) && AllApplicable(lines, Resolved(edits))
    ensures PairwiseDisjoint(Ranges(edits)) && Upright(Ranges(edits))
  {
    hide Resolve, Disjoint, Applicable, Apart;
    if edits != [] {
      var n := |edits| - 1;
      var front, e := edits[..n], edits[n];
      assert Resolved(edits) == Resolved(front) + [Resolve(e)];
      SeparatedFront(Resolved(front), Resolve(e));
      ApplicableSnoc(lines, Resolved(front), Resolve(e));
      RangesApart(lines, front);
      if e.Replace? && Given(e.end).Some? {
        var r := Range(LineOf(e.pos), LineOf(e.end.value));
        forall x | x in Ranges(front) ensures Disjoint(x, r) {
          RangeComesFrom(front, x);
          var k :| 0 <= k < n && Resolve(front[k]).Span? && Resolve(front[k]).first == x.start
              && Resolve(front[k]).last == x.end;
          assert Resolved(edits)[k] == Resolve(front[k]) && Resolved(edits)[n] == Resolve(e);
          SpansApart(lines, Resolve(front[k]), e, x, r);
        }
        UprightRange(lines, e);
        DisjointSnoc(Ranges(front), r);
      }
    }
  }

  lemma UprightRange(lines: seq<string>, e: Edit)
    requires e.Replace? && Given(e.end).Some? && Applicable(lines, Resolve(e))
    ensures LineOf(e.pos) <= LineOf(e.end.value)
  {
  }

  lemma SpansApart(lines: seq<string>, a: Op, e: Edit, x: Range, r: Range)
    requires a.Span? && a.first == x.start && a.last == x.end
    requires e.Replace? && Given(e.end).Some? && r == Range(LineOf(e.pos), LineOf(e.end.value))
    requires Apart(a, Resolve(e))
    ensures Disjoint(x, r)
  {
    hide NewLines, ParseLineRef;
  }

  lemma SortedRanges(env: Env, lines: seq<string>, edits: seq<Edit>)
    requires References(env, lines, edits)
    ensures Separated(Resolved(edits)) && AllApplicable(lines, Resolved(edits)) ==>
              Upright(Ranges(Sort(edits, EditBefore))) && PairwiseDisjoint(Ranges(Sort(edits, EditBefore)))
  {
    hide *;
    if Separated(Resolved(edits)) && AllApplicable(lines, Resolved(edits)) {
      SortedOps(env, lines, edits);
      SortKeepsSeparated(Resolved(edits));
      ApplicableOfSorted(lines, Resolved(edits));
      RangesApart(lines, Sort(edits, EditBefore));
    }
  }
}
