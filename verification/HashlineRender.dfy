/** Editing in one go and editing bottom up: each operation read in original coordinates, and the same operations
    spliced one after another into a changing buffer. */
module HashlineRender {
  import opened Wrappers
  import opened Sorting
  import opened HashlineText

  /** An edit with its references read: lines are numbered from one. `Line` replaces one line, `Span` a range. */
  datatype Op =
    | Line(at: nat, text: seq<string>)
    | Span(first: nat, last: nat, text: seq<string>)
    | After(at: nat, text: seq<string>)
    | Before(at: nat, text: seq<string>)
    | AtEnd(text: seq<string>)
    | AtStart(text: seq<string>)

  predicate Replaces(op: Op) { op.Line? || op.Span? }

  predicate Anchored(op: Op) { !op.AtEnd? && !op.AtStart? }

  /** The lines an operation replaces or is anchored at, from `Lo` up to but not including `Hi`, counted from zero. */
  function Lo(op: Op): int
  {
    match op
    case Span(first, _, _) => first - 1
    case Line(at, _) => at - 1
    case After(at, _) => at - 1
    case Before(at, _) => at - 1
    case _ => -1
  }

  function Hi(op: Op): int
  {
    match op
    case Span(_, last, _) => last
    case Line(at, _) => at
    case After(at, _) => at
    case Before(at, _) => at
    case _ => -1
  }

  /** The autocorrection of replacement lines is not modelled: any function of old and new lines will do. */
  type Autocorrect = (seq<string>, seq<string>) -> seq<string>

  // ----- one operation spliced into a buffer

  /** `slice` with both bounds clamped, as JavaScript does with bounds that are not negative; lines are numbered from
      one. */
  function Clamp(n: int, length: nat): nat { if n < 0 then 0 else if n > length then length else n }

  function Slice(s: seq<string>, from: int, to: int): seq<string>
  {
    var a, b := Clamp(from, |s|), Clamp(to, |s|);
    if a <= b then s[a..b] else []
  }

  function Splice(s: seq<string>, from: int, count: int, text: seq<string>): seq<string>
  {
    Slice(s, 0, from) + text + Slice(s, Clamp(from, |s|) + count, |s|)
  }

  function LineAt(s: seq<string>, i: int): Option<string>
  {
    if 0 <= i < |s| then Some(s[i]) else None
  }

  function OrEmpty(o: Option<string>): string { if o.Some? then o.value else "" }

  /** The text a replaced range becomes; `before` and `after` are its neighbours. */
  function SpanText(fix: Autocorrect, before: Option<string>, was: seq<string>, after: Option<string>,
      text: seq<string>,
                    replaced: nat, template: string): seq<string>
  {
    RestoreFirst(template, fix(was, StripRangeBoundaryEcho(before, after, replaced, text)))
  }

  function LineText(fix: Autocorrect, was: string, text: seq<string>): seq<string>
  {
    RestoreFirst(was, fix([was], text))
  }

  /** One operation on the buffer as it stands; `None` where it throws. */
  function ApplyOp(fix: Autocorrect, lines: seq<string>, op: Op): Option<seq<string>>
  {
    match op
    case Line(at, text) =>
      Some(Splice(lines, at - 1, 1, LineText(fix, OrEmpty(LineAt(lines, at - 1)), text)))
    case Span(first, last, text) =>
      if first > last then None
      else
        var added := SpanText(fix, LineAt(lines, first - 2), Slice(lines, first - 1, last), LineAt(lines, last), text,
                            last - first + 1, OrEmpty(LineAt(lines, first - 1)));
        Some(Splice(lines, first - 1, last - first + 1, added))
    case After(at, text) =>
      if LineAt(lines, at - 1).None? then None
      else
        var added := StripInsertAnchorEcho(lines[at - 1], text);
        if added == [] then None else Some(Splice(lines, at, 0, added))
    case Before(at, text) =>
      if LineAt(lines, at - 1).None? then
        // a list of one line is inserted without a look at the line that is gone
        if |text| == 1 then Some(Splice(lines, at - 1, 0, text)) else None
      else
        var added := StripInsertBeforeEcho(lines[at - 1], text);
        if added == [] then None else Some(Splice(lines, at - 1, 0, added))
    case AtEnd(text) => if text == [] then None else Some(AddEnd(lines, text))
    case AtStart(text) => if text == [] then None else Some(AddStart(lines, text))
  }

  function AddEnd(lines: seq<string>, text: seq<string>): seq<string> { if lines == [""] then text else lines + text }

  function AddStart(lines: seq<string>, text: seq<string>): seq<string> { if lines == [""] then text else text + lines }

  /** The operations one after another; `None` as soon as one throws. */
  function ApplyAll(fix: Autocorrect, lines: seq<string>, ops: seq<Op>): Option<seq<string>>
  {
    if ops == [] then Some(lines)
    else
      match ApplyAll(fix, lines, ops[..|ops| - 1])
      case None => None
      case Some(buffer) => ApplyOp(fix, buffer, ops[|ops| - 1])
  }

  // ----- all operations at once, in the coordinates of the original

  /** The replacement that covers line `i`, if one does. */
  function Covering(ops: seq<Op>, i: nat): (r: Option<Op>)
    ensures r.Some? ==> Replaces(r.value) && Lo(r.value) <= i < Hi(r.value)
  {
    if ops == [] then None
    else
      var op := ops[|ops| - 1];
      if Replaces(op) && Lo(op) <= i < Hi(op) then Some(op) else Covering(ops[..|ops| - 1], i)
  }

  /** Line `i` with what is inserted before it: each insertion goes on top of those requested earlier. */
  function Block(ops: seq<Op>, i: nat, line: string): (r: seq<string>)
    ensures |r| >= 1 && r[|r| - 1] == line
  {
    if ops == [] then [line]
    else
      var block := Block(ops[..|ops| - 1], i, line);
      match ops[|ops| - 1]
      case Before(at, text) => if at == i + 1 then StripInsertBeforeEcho(block[0], text) + block else block
      case _ => block
  }

  /** What is inserted after line `i`: each insertion goes next to the line, above those requested earlier. */
  function Trailer(ops: seq<Op>, i: nat, line: string): seq<string>
  {
    if ops == [] then []
    else
      var trailer := Trailer(ops[..|ops| - 1], i, line);
      match ops[|ops| - 1]
      case After(at, text) => if at == i + 1 then StripInsertAnchorEcho(line, text) + trailer else trailer
      case _ => trailer
  }

  /** What line `i` of the original becomes, given what everything below it becomes: a replacement stands where its
      first line stood, and reads the line below its range as edited. */
  function Piece(fix: Autocorrect, orig: seq<string>, ops: seq<Op>, i: nat, below: seq<string>): seq<string>
    requires i < |orig|
  {
    match Covering(ops, i)
    case None => Block(ops, i, orig[i]) + Trailer(ops, i, orig[i])
    case Some(op) =>
      if i != Lo(op) then []
      else if op.Line? then LineText(fix, orig[i], op.text)
      else SpanText(fix, LineAt(orig, i - 1), Slice(orig, i, Hi(op)), LineAt(below, 0), op.text, Hi(op) - i, orig[i])
  }

  /** What the lines from `i` on become. */
  function Render(fix: Autocorrect, orig: seq<string>, ops: seq<Op>, i: nat): seq<string>
    decreases |orig| - i
  {
    if i >= |orig| then []
    else
      var below := Render(fix, orig, ops, i + 1);
      Piece(fix, orig, ops, i, below) + below
  }

  /** The unanchored texts go around everything else: those for the end below, then those for the start above. */
  function WithEnds(lines: seq<string>, ops: seq<Op>): seq<string>
  {
    if ops == [] then lines
    else
      var before := WithEnds(lines, ops[..|ops| - 1]);
      match ops[|ops| - 1]
      case AtEnd(text) => AddEnd(before, text)
      case _ => before
  }

  function WithStarts(lines: seq<string>, ops: seq<Op>): seq<string>
  {
    if ops == [] then lines
    else
      var before := WithStarts(lines, ops[..|ops| - 1]);
      match ops[|ops| - 1]
      case AtStart(text) => AddStart(before, text)
      case _ => before
  }

  /** The edited file: every operation taken in the coordinates of the original, all at once. */
  function Simultaneous(fix: Autocorrect, orig: seq<string>, ops: seq<Op>): seq<string>
  {
    WithStarts(WithEnds(Render(fix, orig, ops, 0), ops), ops)
  }

  // ----- conditions a caller can check on the original

  /** The operation throws on no buffer that still holds its lines. */
  predicate Applicable(orig: seq<string>, op: Op)
  {
    match op
    case Span(first, last, _) => first <= last
    case After(at, text) => 0 < at <= |orig| && StripInsertAnchorEcho(orig[at - 1], text) != []
    case Line(_, _) => true
    case _ => op.text != []
  }

  predicate AllApplicable(orig: seq<string>, ops: seq<Op>)
  {
    forall k :: 0 <= k < |ops| ==> Applicable(orig, ops[k])
  }

  lemma ApplicableSnoc(orig: seq<string>, ops: seq<Op>, op: Op)
    ensures AllApplicable(orig, ops + [op]) <==> AllApplicable(orig, ops) && Applicable(orig, op)
  {
    hide Applicable;
    var all := ops + [op];
    assert all[|ops|] == op;
    assert forall k :: 0 <= k < |ops| ==> all[k] == ops[k];
  }

  lemma {:induction false} ApplicableConcat(orig: seq<string>, a: seq<Op>, b: seq<Op>)
    ensures AllApplicable(orig, a + b) <==> AllApplicable(orig, a) && AllApplicable(orig, b)
  {
    hide Applicable;
    if b == [] {
      assert a + b == a;
    } else {
      var front, last := b[..|b| - 1], b[|b| - 1];
      ApplicableConcat(orig, a, front);
      ApplicableSnoc(orig, a + front, last);
      ApplicableSnoc(orig, front, last);
      assert a + b == (a + front) + [last] && b == front + [last];
    }
  }

  predicate InFile(orig: seq<string>, op: Op)
  {
    Anchored(op) ==> 0 <= Lo(op) < |orig| && 0 < Hi(op) <= |orig|
  }

  predicate Apart(a: Op, b: Op)
  {
    Anchored(a) && Anchored(b) && (Replaces(a) || Replaces(b)) ==> Hi(a) <= Lo(b) || Hi(b) <= Lo(a)
  }

  /** No replaced line is replaced, anchored at, or inside the range of another operation. */
  ghost predicate Separated(ops: seq<Op>)
  {
    forall p, q :: 0 <= p < q < |ops| ==> Apart(ops[p], ops[q])
  }

  /** Bottom up: operations further down first, unanchored ones last; at one line replacements, then what goes
      after it, then what goes before it. */
  function Rank(op: Op): int
  {
    var line := if Anchored(op) then Hi(op) else -1;
    -3 * line + (if Replaces(op) then 0 else if op.After? || op.AtEnd? then 1 else 2)
  }

  predicate RankedBefore(a: Op, b: Op) { Rank(a) <= Rank(b) }

  // ----- where an operation is not, nothing changes

  predicate Touches(op: Op, i: int) { Anchored(op) && Lo(op) <= i < Hi(op) }

  lemma {:induction false} UntouchedLine(ops: seq<Op>, i: nat, line: string)
    requires forall k :: 0 <= k < |ops| ==> !Touches(ops[k], i)
    ensures Covering(ops, i) == None && Block(ops, i, line) == [line] && Trailer(ops, i, line) == []
  {
    if ops != [] { UntouchedLine(ops[..|ops| - 1], i, line); }
  }

  lemma UntouchedPiece(fix: Autocorrect, orig: seq<string>, ops: seq<Op>, i: nat, below: seq<string>)
    requires i < |orig| && forall k :: 0 <= k < |ops| ==> !Touches(ops[k], i)
    ensures Piece(fix, orig, ops, i, below) == [orig[i]]
  {
    UntouchedLine(ops, i, orig[i]);
  }

  lemma RenderStep(fix: Autocorrect, orig: seq<string>, ops: seq<Op>, i: nat)
    requires i < |orig|
    ensures Render(fix, orig, ops, i)
              == Piece(fix, orig, ops, i, Render(fix, orig, ops, i + 1)) + Render(fix, orig, ops, i + 1)
  {
  }

  /** Lines no operation touches stay. */
  lemma {:induction false} UntouchedPrefix(fix: Autocorrect, orig: seq<string>, ops: seq<Op>, i: nat, c: nat)
    requires i <= c <= |orig|
    requires forall k, j :: 0 <= k < |ops| && i <= j < c ==> !Touches(ops[k], j)
    ensures Render(fix, orig, ops, i) == orig[i..c] + Render(fix, orig, ops, c)
    decreases c - i
  {
    hide Piece, Render;
    if i < c {
      RenderStep(fix, orig, ops, i);
      UntouchedPrefix(fix, orig, ops, i + 1, c);
      UntouchedPiece(fix, orig, ops, i, Render(fix, orig, ops, i + 1));
      assert orig[i..c] == [orig[i]] + orig[i + 1..c];
    } else {
      assert orig[i..c] == [];
    }
  }

  /** An operation that touches nothing from `i` on does not show there. */
  lemma {:induction false} OperationAbove(fix: Autocorrect, orig: seq<string>, ops: seq<Op>, op: Op, i: nat)
    requires forall j :: i <= j < |orig| ==> !Touches(op, j)
    ensures Render(fix, orig, ops + [op], i) == Render(fix, orig, ops, i)
    decreases |orig| - i
  {
    if i < |orig| {
      OperationAbove(fix, orig, ops, op, i + 1);
      assert (ops + [op])[..|ops|] == ops;
      assert !Touches(op, i);
    }
  }

  lemma InsidePiece(fix: Autocorrect, orig: seq<string>, ops: seq<Op>, op: Op, i: nat, below: seq<string>)
    requires Replaces(op) && Lo(op) < i < Hi(op) && i < |orig|
    ensures Piece(fix, orig, ops + [op], i, below) == []
  {
  }

  /** The lines of a replacement but its first leave nothing of their own. */
  lemma {:induction false} InsideReplacement(fix: Autocorrect, orig: seq<string>, ops: seq<Op>, op: Op, i: nat)
    requires Replaces(op) && 0 <= Lo(op) < i <= Hi(op) <= |orig|
    ensures Render(fix, orig, ops + [op], i) == Render(fix, orig, ops, Hi(op))
    decreases Hi(op) - i
  {
    hide Piece;
    if i < Hi(op) {
      InsidePiece(fix, orig, ops, op, i, Render(fix, orig, ops + [op], i + 1));
      InsideReplacement(fix, orig, ops, op, i + 1);
    } else {
      OperationAbove(fix, orig, ops, op, i);
    }
  }

  // ----- one step: splicing into the buffer is adding one more simultaneous operation

  /** The operations so far are all below this one, or inserted at its own line. */
  ghost predicate Below(ops: seq<Op>, op: Op)
  {
    forall k :: 0 <= k < |ops| ==>
      && Anchored(ops[k])
      && (Lo(ops[k]) >= Hi(op)
         || (!Replaces(ops[k]) && !Replaces(op) && Lo(ops[k]) == Lo(op) && (op.After? ==> ops[k].After?)))
  }

  lemma SpliceBetween(a: seq<string>, b: seq<string>, c: seq<string>, added: seq<string>)
    ensures Splice(a + b + c, |a|, |b|, added) == a + added + c
  {
  }

  /** What a replacement of the lines `b` becomes between `a` and `c`. */
  function ReplacementText(fix: Autocorrect, a: seq<string>, b: seq<string>, c: seq<string>, op: Op): seq<string>
    requires Replaces(op) && b != []
  {
    if op.Line? then LineText(fix, b[0], op.text)
    else SpanText(fix, LineAt(a, |a| - 1), b, LineAt(c, 0), op.text, |b|, b[0])
  }

  lemma ReplacementOn(fix: Autocorrect, a: seq<string>, b: seq<string>, c: seq<string>, op: Op)
    requires Replaces(op) && b != [] && Lo(op) == |a| && Hi(op) == |a| + |b|
    ensures ApplyOp(fix, a + b + c, op) == Some(a + ReplacementText(fix, a, b, c, op) + c)
  {
    hide Splice, SpanText, LineText;
    var s := a + b + c;
    assert s[|a|] == b[0] && s[|a|..|a| + |b|] == b;
    assert Slice(s, |a|, |a| + |b|) == b;
    assert LineAt(s, |a| - 1) == LineAt(a, |a| - 1) && LineAt(s, |a| + |b|) == LineAt(c, 0);
    SpliceBetween(a, b, c, ReplacementText(fix, a, b, c, op));
  }

  lemma AfterOn(fix: Autocorrect, a: seq<string>, x: string, c: seq<string>, text: seq<string>)
    ensures ApplyOp(fix, a + [x] + c, After(|a| + 1, text))
            == var added := StripInsertAnchorEcho(x, text); if added == [] then None else Some(a + [x] + added + c)
  {
    hide Splice, StripInsertAnchorEcho;
    var s := a + [x] + c;
    assert s[|a|] == x;
    SpliceBetween(a + [x], [], c, StripInsertAnchorEcho(x, text));
    assert (a + [x]) + [] + c == s;
  }

  lemma BeforeOn(fix: Autocorrect, a: seq<string>, c: seq<string>, text: seq<string>)
    requires c != []
    ensures ApplyOp(fix, a + c, Before(|a| + 1, text))
            == var added := StripInsertBeforeEcho(c[0], text); if added == [] then None else Some(a + added + c)
  {
    hide Splice, StripInsertBeforeEcho;
    var s := a + c;
    assert s[|a|] == c[0];
    SpliceBetween(a, [], c, StripInsertBeforeEcho(c[0], text));
    assert a + [] + c == s;
  }

  lemma ReplacementStep(fix: Autocorrect, orig: seq<string>, ops: seq<Op>, op: Op)
    requires Below(ops, op) && InFile(orig, op) && Replaces(op) && Lo(op) < Hi(op)
    ensures ApplyOp(fix, Render(fix, orig, ops, 0), op) == Some(Render(fix, orig, ops + [op], 0))
  {
    hide ApplyOp, SpanText, LineText, Render, ReplacementText;
    var s, e := Lo(op), Hi(op);
    var rest := Render(fix, orig, ops, e);
    UntouchedPrefix(fix, orig, ops, 0, e);
    assert orig[0..e] + rest == orig[..s] + orig[s..e] + rest;
    ReplacementOn(fix, orig[..s], orig[s..e], rest, op);
    AddReplacement(fix, orig, ops, op);
  }

  lemma AddReplacement(fix: Autocorrect, orig: seq<string>, ops: seq<Op>, op: Op)
    requires Below(ops, op) && InFile(orig, op) && Replaces(op) && Lo(op) < Hi(op)
    ensures var s, e := Lo(op), Hi(op); var rest := Render(fix, orig, ops, e);
            Render(fix, orig, ops + [op], 0) == orig[..s] + ReplacementText(fix, orig[..s], orig[s..e], rest, op) + rest
  {
    hide Render, ReplacementText;
    var s, e := Lo(op), Hi(op);
    var rest, text := Render(fix, orig, ops, e),
        ReplacementText(fix, orig[..s], orig[s..e], Render(fix, orig, ops, e), op);
    UntouchedPrefix(fix, orig, ops + [op], 0, s);
    ReplacedLine(fix, orig, ops, op);
    assert orig[0..s] == orig[..s];
    assert orig[..s] + (text + rest) == orig[..s] + text + rest;
  }

  /** From the first line of a replacement on: its text, and what follows its range. */
  lemma ReplacedLine(fix: Autocorrect, orig: seq<string>, ops: seq<Op>, op: Op)
    requires InFile(orig, op) && Replaces(op) && Lo(op) < Hi(op)
    ensures var s, e := Lo(op), Hi(op); var rest := Render(fix, orig, ops, e);
            Render(fix, orig, ops + [op], s) == ReplacementText(fix, orig[..s], orig[s..e], rest, op) + rest
  {
    hide SpanText, LineText, Block, Trailer;
    var s, e := Lo(op), Hi(op);
    InsideReplacement(fix, orig, ops, op, s + 1);
    assert Covering(ops + [op], s) == Some(op);
    assert LineAt(orig[..s], s - 1) == LineAt(orig, s - 1) && Slice(orig, s, e) == orig[s..e];
  }

  lemma AfterStep(fix: Autocorrect, orig: seq<string>, ops: seq<Op>, op: Op)
    requires Below(ops, op) && InFile(orig, op) && op.After?
    ensures ApplyOp(fix, Render(fix, orig, ops, 0), op)
            == if Applicable(orig, op) then Some(Render(fix, orig, ops + [op], 0)) else None
  {
    hide ApplyOp, StripInsertAnchorEcho, Render, Block, Trailer;
    var i := Lo(op);
    var rest, trailer := Render(fix, orig, ops, i + 1), Trailer(ops, i, orig[i]);
    InsertedAt(fix, orig, ops, op);
    OnlyAfters(ops, i, orig[i]);
    AddAfter(ops, op.text, i, orig[i]);
    AfterOn(fix, orig[..i], orig[i], trailer + rest, op.text);
    var added := StripInsertAnchorEcho(orig[i], op.text);
    assert orig[..i] + ([orig[i]] + trailer + rest) == orig[..i] + [orig[i]] + (trailer + rest);
    Regroup(orig[..i], [orig[i]], added, trailer, rest);
  }

  lemma Regroup(a: seq<string>, b: seq<string>, c: seq<string>, d: seq<string>, e: seq<string>)
    ensures a + (b + (c + d) + e) == a + b + c + (d + e)
  {
  }

  lemma AddAfter(ops: seq<Op>, text: seq<string>, i: nat, line: string)
    ensures Block(ops + [After(i + 1, text)], i, line) == Block(ops, i, line)
    ensures Trailer(ops + [After(i + 1, text)], i, line) == StripInsertAnchorEcho(line, text) + Trailer(ops, i, line)
  {
  }

  lemma AddBefore(ops: seq<Op>, text: seq<string>, i: nat, line: string)
    ensures Block(ops + [Before(i + 1, text)], i, line)
            == StripInsertBeforeEcho(Block(ops, i, line)[0], text) + Block(ops, i, line)
    ensures Trailer(ops + [Before(i + 1, text)], i, line) == Trailer(ops, i, line)
  {
  }

  lemma BeforeStep(fix: Autocorrect, orig: seq<string>, ops: seq<Op>, op: Op)
    requires Below(ops, op) && InFile(orig, op) && op.Before?
    ensures ApplyOp(fix, Render(fix, orig, ops, 0), op)
            == if Applicable(orig, op) then Some(Render(fix, orig, ops + [op], 0)) else None
  {
    hide ApplyOp, StripInsertBeforeEcho, Render, Block, Trailer;
    var i := Lo(op);
    var rest, block, trailer := Render(fix, orig, ops, i + 1), Block(ops, i, orig[i]), Trailer(ops, i, orig[i]);
    InsertedAt(fix, orig, ops, op);
    AddBefore(ops, op.text, i, orig[i]);
    BeforeOn(fix, orig[..i], block + trailer + rest, op.text);
    var added := StripInsertBeforeEcho(block[0], op.text);
    assert (block + trailer + rest)[0] == block[0];
    BeforeKeepsText(block[0], op.text);
    assert orig[..i] + ((added + block) + trailer + rest) == orig[..i] + added + (block + trailer + rest);
  }

  lemma BeforeKeepsText(anchor: string, text: seq<string>)
    ensures StripInsertBeforeEcho(anchor, text) == [] <==> text == []
  {
  }

  /** Before and after an insertion at a line, everything but what is at that line is the same. */
  lemma InsertedAt(fix: Autocorrect, orig: seq<string>, ops: seq<Op>, op: Op)
    requires Below(ops, op) && InFile(orig, op) && (op.After? || op.Before?)
    ensures var i := Lo(op); var rest := Render(fix, orig, ops, i + 1);
            && Render(fix, orig, ops, 0) == orig[..i] + (Block(ops, i, orig[i]) + Trailer(ops, i, orig[i]) + rest)
            && Render(fix, orig, ops + [op], 0)
               == orig[..i] + (Block(ops + [op], i, orig[i]) + Trailer(ops + [op], i, orig[i]) + rest)
  {
    hide Block, Trailer, Render, Covering;
    var i := Lo(op);
    UntouchedPrefix(fix, orig, ops, 0, i);
    UntouchedPrefix(fix, orig, ops + [op], 0, i);
    RenderStep(fix, orig, ops, i);
    RenderStep(fix, orig, ops + [op], i);
    OperationAbove(fix, orig, ops, op, i + 1);
    NoReplacementHere(ops, op);
    assert orig[0..i] == orig[..i];
  }

  lemma {:induction false} NoReplacementHere(ops: seq<Op>, op: Op)
    requires Below(ops, op) && Anchored(op) && !Replaces(op) && Lo(op) >= 0
    ensures Covering(ops, Lo(op)) == None && Covering(ops + [op], Lo(op)) == None
  {
    assert (ops + [op])[..|ops|] == ops;
    if ops != [] {
      NoReplacementHere(ops[..|ops| - 1], op);
    }
  }

  lemma {:induction false} OnlyAfters(ops: seq<Op>, i: nat, line: string)
    requires forall k :: 0 <= k < |ops| ==> ops[k].After? || !Touches(ops[k], i)
    ensures Block(ops, i, line) == [line]
  {
    if ops != [] { OnlyAfters(ops[..|ops| - 1], i, line); }
  }

  // ----- all steps

  lemma {:induction false} ThrowingStaysThrown(fix: Autocorrect, lines: seq<string>, ops: seq<Op>, k: nat)
    requires k <= |ops| && ApplyAll(fix, lines, ops[..k]) == None
    ensures ApplyAll(fix, lines, ops) == None
  {
    if k < |ops| {
      assert ops[..|ops| - 1][..k] == ops[..k];
      ThrowingStaysThrown(fix, lines, ops[..|ops| - 1], k);
    } else {
      assert ops[..k] == ops;
    }
  }

  /** A range whose end comes before its start. */
  predicate Inverted(op: Op) { op.Span? && op.first > op.last }

  /** Operations bottom up and apart: each next one is above those so far, or inserted at their line. */
  lemma SortedIsBelow(ops: seq<Op>, op: Op)
    requires Sorted(ops + [op], RankedBefore) && Separated(ops + [op]) && Anchored(op) && Lo(op) >= 0 && !Inverted(op)
    requires forall k :: 0 <= k < |ops| ==> Anchored(ops[k]) && !Inverted(ops[k])
    ensures Below(ops, op)
  {
    var all := ops + [op];
    forall k | 0 <= k < |ops|
      ensures Lo(ops[k]) >= Hi(op)
              || (!Replaces(ops[k]) && !Replaces(op) && Lo(ops[k]) == Lo(op) && (op.After? ==> ops[k].After?))
    {
      assert all[k] == ops[k] && all[|ops|] == op;
      assert RankedBefore(ops[k], op) && Apart(ops[k], op);
    }
  }

  lemma SortedFront<T>(s: seq<T>, x: T, le: (T, T) -> bool)
    requires Sorted(s + [x], le)
    ensures Sorted(s, le)
  {
    assert forall k :: 0 <= k < |s| ==> (s + [x])[k] == s[k];
  }

  lemma SeparatedFront(ops: seq<Op>, op: Op)
    requires Separated(ops + [op])
    ensures Separated(ops)
  {
    hide Apart;
    assert forall k :: 0 <= k < |ops| ==> (ops + [op])[k] == ops[k];
  }

  ghost predicate AllInFile(orig: seq<string>, ops: seq<Op>)
  {
    forall k :: 0 <= k < |ops| ==> Anchored(ops[k]) && InFile(orig, ops[k])
  }

  /** Bottom-up application of anchored operations is simultaneous editing, and throws exactly when one of them
      cannot be applied to the original. */
  lemma {:induction false} AnchoredIsSimultaneous(fix: Autocorrect, orig: seq<string>, ops: seq<Op>)
    requires Sorted(ops, RankedBefore) && Separated(ops) && AllInFile(orig, ops)
    ensures ApplyAll(fix, orig, ops) == if AllApplicable(orig, ops) then Some(Render(fix, orig, ops, 0)) else None
  {
    hide Render, ApplyOp, RankedBefore, Apart, Applicable;
    if ops == [] {
      NothingToDo(fix, orig);
    } else {
      var front, op := ops[..|ops| - 1], ops[|ops| - 1];
      assert ops == front + [op];
      SortedFront(front, op, RankedBefore);
      SeparatedFront(front, op);
      AnchoredIsSimultaneous(fix, orig, front);
      ApplicableSnoc(orig, front, op);
      if AllApplicable(orig, front) {
        NextStep(fix, orig, front, op);
      }
    }
  }

  lemma NothingToDo(fix: Autocorrect, orig: seq<string>)
    ensures Render(fix, orig, [], 0) == orig && ApplyAll(fix, orig, []) == Some(orig)
  {
    UntouchedPrefix(fix, orig, [], 0, |orig|);
  }

  lemma NextStep(fix: Autocorrect, orig: seq<string>, ops: seq<Op>, op: Op)
    requires Sorted(ops + [op], RankedBefore) && Separated(ops + [op]) && AllInFile(orig, ops + [op])
    requires AllApplicable(orig, ops)
    ensures ApplyOp(fix, Render(fix, orig, ops, 0), op)
            == if Applicable(orig, op) then Some(Render(fix, orig, ops + [op], 0)) else None
  {
    hide Render, RankedBefore, Apart, StripInsertAnchorEcho, StripInsertBeforeEcho;
    assert (ops + [op])[|ops|] == op;
    assert forall k :: 0 <= k < |ops| ==> (ops + [op])[k] == ops[k];
    assert forall k :: 0 <= k < |ops| ==> Applicable(orig, ops[k]);
    if !Inverted(op) {
      SortedIsBelow(ops, op);
      StepOnto(fix, orig, ops, op);
    }
  }

  lemma StepOnto(fix: Autocorrect, orig: seq<string>, ops: seq<Op>, op: Op)
    requires Below(ops, op) && InFile(orig, op) && Anchored(op) && !Inverted(op)
    ensures ApplyOp(fix, Render(fix, orig, ops, 0), op)
            == if Applicable(orig, op) then Some(Render(fix, orig, ops + [op], 0)) else None
  {
    hide Render, ApplyOp;
    if op.After? {
      AfterStep(fix, orig, ops, op);
    } else if op.Before? {
      BeforeStep(fix, orig, ops, op);
    } else {
      ReplacementStep(fix, orig, ops, op);
    }
  }

  // ----- unanchored operations, which come last

  lemma {:induction false} UnanchoredNotRendered(fix: Autocorrect, orig: seq<string>, ops: seq<Op>, more: seq<Op>)
    requires forall k :: 0 <= k < |more| ==> !Anchored(more[k])
    ensures Render(fix, orig, ops + more, 0) == Render(fix, orig, ops, 0)
  {
    if more == [] {
      assert ops + more == ops;
    } else {
      var n := |more| - 1;
      UnanchoredNotRendered(fix, orig, ops, more[..n]);
      OperationAbove(fix, orig, ops + more[..n], more[n], 0);
      assert ops + more == (ops + more[..n]) + [more[n]];
    }
  }

  lemma {:induction false} AnchoredHaveNoEnds(lines: seq<string>, ops: seq<Op>)
    requires forall k :: 0 <= k < |ops| ==> Anchored(ops[k])
    ensures WithEnds(lines, ops) == lines && WithStarts(lines, ops) == lines
  {
    if ops != [] { AnchoredHaveNoEnds(lines, ops[..|ops| - 1]); }
  }

  lemma {:induction false} NoStartsYet(lines: seq<string>, ops: seq<Op>)
    requires forall k :: 0 <= k < |ops| ==> !ops[k].AtStart?
    ensures WithStarts(lines, ops) == lines
  {
    if ops != [] { NoStartsYet(lines, ops[..|ops| - 1]); }
  }

  /** Where the unanchored operations begin. */
  function FirstUnanchored(ops: seq<Op>): (m: nat)
    ensures m <= |ops| && (forall k :: 0 <= k < m ==> Anchored(ops[k])) && (m < |ops| ==> !Anchored(ops[m]))
  {
    if ops == [] || !Anchored(ops[0]) then 0 else 1 + FirstUnanchored(ops[1..])
  }

  lemma ApplyAllSnoc(fix: Autocorrect, lines: seq<string>, ops: seq<Op>, op: Op)
    ensures ApplyAll(fix, lines, ops + [op])
            == match ApplyAll(fix, lines, ops) case None => None case Some(buffer) => ApplyOp(fix, buffer, op)
  {
    hide ApplyOp;
    assert (ops + [op])[..|ops|] == ops;
  }

  lemma UnanchoredOn(fix: Autocorrect, orig: seq<string>, buffer: seq<string>, op: Op)
    requires !Anchored(op)
    ensures ApplyOp(fix, buffer, op) == if !Applicable(orig, op) then None
                                        else if op.AtEnd? then Some(AddEnd(buffer, op.text))
                                            else Some(AddStart(buffer, op.text))
  {
  }

  lemma {:induction false} UnanchoredLast(fix: Autocorrect, orig: seq<string>, buffer: seq<string>, ops: seq<Op>,
      more: seq<Op>)
    requires Sorted(ops + more, RankedBefore)
    requires forall k :: 0 <= k < |ops| ==> Anchored(ops[k])
    requires forall k :: 0 <= k < |more| ==> !Anchored(more[k])
    requires ApplyAll(fix, orig, ops) == Some(buffer)
    ensures ApplyAll(fix, orig, ops + more)
            == if AllApplicable(orig, more) then Some(WithStarts(WithEnds(buffer, ops + more), ops + more)) else None
  {
    hide WithEnds, WithStarts, AllApplicable, Applicable, RankedBefore, ApplyAll, ApplyOp, AddEnd, AddStart;
    if more == [] {
      assert ops + more == ops;
      AnchoredHaveNoEnds(buffer, ops);
      NoneApplicable(orig);
    } else {
      var front, op := more[..|more| - 1], more[|more| - 1];
      var all := ops + front;
      assert more == front + [op] && ops + more == all + [op];
      SortedFront(all, op, RankedBefore);
      UnanchoredLast(fix, orig, buffer, ops, front);
      ApplicableSnoc(orig, front, op);
      ApplyAllSnoc(fix, orig, all, op);
      UnanchoredOn(fix, orig, WithStarts(WithEnds(buffer, all), all), op);
      OneMoreEnd(buffer, all, op);
    }
  }

  lemma NoneApplicable(orig: seq<string>)
    ensures AllApplicable(orig, [])
  {
  }

  lemma OneMoreEnd(buffer: seq<string>, ops: seq<Op>, op: Op)
    requires Sorted(ops + [op], RankedBefore) && !Anchored(op)
    requires forall k :: 0 <= k < |ops| ==> Anchored(ops[k]) ==> Hi(ops[k]) >= 0
    ensures WithStarts(WithEnds(buffer, ops + [op]), ops + [op])
            == if op.AtEnd? then AddEnd(WithStarts(WithEnds(buffer, ops), ops), op.text)
               else AddStart(WithStarts(WithEnds(buffer, ops), ops), op.text)
  {
    var all := ops + [op];
    assert all[..|ops|] == ops;
    if op.AtEnd? {
      forall k | 0 <= k < |ops| ensures !ops[k].AtStart? {
        assert all[k] == ops[k] && all[|ops|] == op;
        assert RankedBefore(ops[k], op);
      }
      NoStartsYet(WithEnds(buffer, ops), ops);
      NoStartsYet(WithEnds(buffer, all), all);
    }
  }

  /** Once an unanchored operation comes, only unanchored ones follow. */
  lemma UnanchoredToTheEnd(ops: seq<Op>, m: nat, k: nat)
    requires Sorted(ops, RankedBefore) && m <= k < |ops| && !Anchored(ops[m])
    requires Anchored(ops[k]) ==> Hi(ops[k]) > 0
    ensures !Anchored(ops[k])
  {
    assert k == m || RankedBefore(ops[m], ops[k]);
  }

  lemma SortedParts<T>(a: seq<T>, b: seq<T>, le: (T, T) -> bool)
    requires Sorted(a + b, le)
    ensures Sorted(a, le)
  {
    assert forall k :: 0 <= k < |a| ==> (a + b)[k] == a[k];
  }

  lemma SeparatedParts(a: seq<Op>, b: seq<Op>)
    requires Separated(a + b)
    ensures Separated(a)
  {
    hide Apart;
    assert forall k :: 0 <= k < |a| ==> (a + b)[k] == a[k];
  }

  lemma PartsAreSimultaneous(fix: Autocorrect, orig: seq<string>, anchored: seq<Op>, rest: seq<Op>)
    requires Sorted(anchored + rest, RankedBefore) && Separated(anchored + rest)
    requires AllInFile(orig, anchored) && forall k :: 0 <= k < |rest| ==> !Anchored(rest[k])
    ensures ApplyAll(fix, orig, anchored + rest)
            == if AllApplicable(orig, anchored + rest) then Some(Simultaneous(fix, orig, anchored + rest)) else None
  {
    hide Render, ApplyAll, AllApplicable, WithEnds, WithStarts, RankedBefore, Separated, Sorted;
    SortedParts(anchored, rest, RankedBefore);
    SeparatedParts(anchored, rest);
    AnchoredIsSimultaneous(fix, orig, anchored);
    ApplicableConcat(orig, anchored, rest);
    if AllApplicable(orig, anchored) {
      UnanchoredLast(fix, orig, Render(fix, orig, anchored, 0), anchored, rest);
      UnanchoredNotRendered(fix, orig, anchored, rest);
    } else {
      assert (anchored + rest)[..|anchored|] == anchored;
      ThrowingStaysThrown(fix, orig, anchored + rest, |anchored|);
    }
  }

  /** Bottom-up application equals simultaneous editing: operations sorted bottom up and applied one at a time to the
      changing buffer give the original with every operation applied at its original coordinates, and throw exactly
      when one of them cannot be applied to the original. */
  lemma SortedIsSimultaneous(fix: Autocorrect, orig: seq<string>, ops: seq<Op>)
    requires Sorted(ops, RankedBefore) && Separated(ops)
    requires forall k :: 0 <= k < |ops| ==> InFile(orig, ops[k])
    ensures ApplyAll(fix, orig, ops) == if AllApplicable(orig, ops) then Some(Simultaneous(fix, orig, ops)) else None
  {
    hide ApplyAll, AllApplicable, Simultaneous, RankedBefore, Separated, Sorted;
    var m := FirstUnanchored(ops);
    forall k | m <= k < |ops| ensures !Anchored(ops[k]) {
      UnanchoredToTheEnd(ops, m, k);
    }
    assert ops == ops[..m] + ops[m..];
    PartsAreSimultaneous(fix, orig, ops[..m], ops[m..]);
  }
}
