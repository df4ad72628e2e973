/** Line references: how a line is printed with its number and hash, and how a pasted reference is read back. */
module HashlineRefs {
  import opened Wrappers
  import opened Text

  /** The hash is not modelled: any function of line number and content will do. */
  type LineHash = (nat, string) -> nat

  const NIBBLES := ['Z', 'P', 'M', 'Q', 'V', 'R', 'W', 'S', 'N', 'K', 'T', 'X', 'J', 'B', 'Y', 'H']

  predicate IsHashChar(c: char) { c in NIBBLES }

  predicate IsHash(h: string) { |h| == 2 && IsHashChar(h[0]) && IsHashChar(h[1]) }

  /** The dictionary entry of a hash value. */
  function HashText(hash: LineHash, number: nat, content: string): (h: string)
    ensures IsHash(h)
  {
    var index := hash(number, content) % 256;
    [NIBBLES[index / 16], NIBBLES[index % 16]]
  }

  /** `formatHashLine` */
  function FormatHashLine(hash: LineHash, number: nat, content: string): string
  {
    Decimal(number) + "#" + HashText(hash, number, content) + "|" + content
  }

  /** Consecutive lines, the first of them with this number. */
  function FormatNumbered(hash: LineHash, start: nat, lines: seq<string>): (r: seq<string>)
    ensures |r| == |lines| && forall i :: 0 <= i < |lines| ==> r[i] == FormatHashLine(hash, start + i, lines[i])
  {
    seq(|lines|, i requires 0 <= i < |lines| => FormatHashLine(hash, start + i, lines[i]))
  }

  datatype LineRef = LineRef(line: nat, hash: string)

  predicate AllDigits(s: string) { forall i :: 0 <= i < |s| ==> IsDigit(s[i]) }

  /** The reference pattern, anchored at both ends. */
  function MatchRef(s: string): Option<LineRef>
  {
    if |s| >= 4 && s[|s| - 3] == '#' && IsHash(s[|s| - 2..]) && AllDigits(s[..|s| - 3]) then
      Some(LineRef(DecimalValue(s[..|s| - 3]), s[|s| - 2..]))
    else None
  }

  function DigitRun(s: string): (n: nat)
    ensures n <= |s| && AllDigits(s[..n])
    ensures n < |s| ==> !IsDigit(s[n])
  {
    if s != [] && IsDigit(s[0]) then
      assert s == [s[0]] + s[1..];
      1 + DigitRun(s[1..])
    else 0
  }

  /** The reference pattern at the start of a string, unanchored at its end. */
  function RefAtStart(s: string): Option<string>
  {
    var n := DigitRun(s);
    if n > 0 && n + 3 <= |s| && s[n] == '#' && IsHash(s[n + 1..n + 3]) then Some(s[..n + 3]) else None
  }

  /** The leftmost reference inside a string. */
  function ExtractRef(s: string): Option<string>
  {
    if RefAtStart(s).Some? then RefAtStart(s)
    else if s == [] then None
    else ExtractRef(s[1..])
  }

  /** `>>>`, `+` or `-` and the space after it, removed from the start. */
  function DropMarker(s: string): string
  {
    if ">>>" <= s then TrimStart(s[3..])
    else if "+" <= s || "-" <= s then TrimStart(s[1..])
    else s
  }

  lemma {:induction false} IndexIs(s: string, c: char, i: nat)
    requires i < |s| && s[i] == c && forall k :: 0 <= k < i ==> s[k] != c
    ensures IndexOf(s, c) == i
  {
  }

  /** White space around the first `#` removed. */
  function CloseHash(s: string): string
  {
    var i := IndexOf(s, '#');
    if i < 0 then s else TrimEnd(s[..i]) + "#" + TrimStart(s[i + 1..])
  }

  predicate IsLineEnd(c: char) { c == '\n' || c == '\r' || c == '\U{2028}' || c == '\U{2029}' }

  /** The last line, from its first `|` on, removed. */
  function DropContent(s: string): string
  {
    var from := AfterLastLineEnd(s);
    var i := IndexOf(s[from..], '|');
    if i < 0 then s else s[..from + i]
  }

  function AfterLastLineEnd(s: string): (n: nat)
    ensures n <= |s|
  {
    if s == [] then 0
    else if IsLineEnd(s[|s| - 1]) then |s|
    else AfterLastLineEnd(s[..|s| - 1])
  }

  function NormalizeLineRef(ref: string): string
  {
    var trimmed := Trim(DropContent(CloseHash(DropMarker(Trim(ref)))));
    if MatchRef(trimmed).Some? then trimmed
    else
      match ExtractRef(trimmed)
      case Some(found) => found
      case None => Trim(ref)
  }

  /** `parseLineRef`; `None` where it throws. */
  function ParseLineRef(ref: string): Option<LineRef> { MatchRef(NormalizeLineRef(ref)) }

  // ----- reading back what was printed

  lemma MatchOfPrinted(number: nat, hash: string)
    requires IsHash(hash)
    ensures MatchRef(Decimal(number) + "#" + hash) == Some(LineRef(number, hash))
  {
    var d := Decimal(number);
    var s := d + "#" + hash;
    assert s[..|s| - 3] == d && s[|s| - 2..] == hash;
  }

  lemma {:induction false} DigitRunOfDigits(d: string, rest: string)
    requires AllDigits(d) && (rest == "" || !IsDigit(rest[0]))
    ensures DigitRun(d + rest) == |d|
  {
    if d == [] {
      assert d + rest == rest;
    } else {
      assert (d + rest)[1..] == d[1..] + rest;
      DigitRunOfDigits(d[1..], rest);
    }
  }

  lemma {:induction false} TrimEndStops(s: string, rest: string)
    requires s != "" && !IsSpace(s[|s| - 1])
    ensures TrimEnd(s + rest) == s + TrimEnd(rest)
  {
    if rest == "" {
      assert s + rest == s;
    } else if IsSpace(rest[|rest| - 1]) {
      assert (s + rest)[..|s + rest| - 1] == s + rest[..|rest| - 1];
      TrimEndStops(s, rest[..|rest| - 1]);
    }
  }

  /** Trimming a string that starts with a printed reference leaves the reference alone. */
  lemma TrimKeepsHead(head: string, kept: string)
    requires head != "" && !IsSpace(head[0]) && !IsSpace(head[|head| - 1])
    ensures Trim(head + kept) == head + TrimEnd(kept)
  {
    assert (head + kept)[0] == head[0];
    assert TrimStart(head + kept) == head + kept;
    TrimEndStops(head, kept);
  }

  /** Normalizing a string that starts with a printed reference leaves just the reference. */
  lemma NormalizeFromStart(number: nat, hash: string, rest: string)
    requires IsHash(hash) && (rest == "" || rest[0] == '|')
    ensures var t := Trim(DropContent(CloseHash(Decimal(number) + "#" + hash + rest)));
            t == Decimal(number) + "#" + hash
                || (MatchRef(t).None? && ExtractRef(t) == Some(Decimal(number) + "#" + hash))
  {
    hide CloseHash, DropContent, TrimEnd, TrimStart, MatchRef, ExtractRef, Trim;
    var d := Decimal(number);
    var head := d + "#" + hash;
    var s := head + rest;
    HashClosedAlready(s, d, hash, rest);
    var kept := CutKeepsHead(s, head, rest);
    TrimKeepsHead(head, kept);
    TrimEndKeepsFirst(kept);
    if TrimEnd(kept) != "" {
      LongerIsNoRef(d, hash, TrimEnd(kept));
    } else {
      assert head + TrimEnd(kept) == head;
    }
  }

  lemma HashClosedAlready(s: string, d: string, hash: string, rest: string)
    requires |d| >= 1 && AllDigits(d) && IsHash(hash) && s == d + "#" + hash + rest
    ensures CloseHash(s) == s
  {
    assert s[|d|] == '#';
    forall i | 0 <= i < |d| ensures s[i] != '#' { assert s[i] == d[i]; }
    IndexIs(s, '#', |d|);
    assert s[..|d|] == d && s[|d| + 1..] == hash + rest;
    assert TrimEnd(d) == d;
    assert (hash + rest)[0] == hash[0];
    assert TrimStart(hash + rest) == hash + rest;
  }

  /** Dropping the content never reaches into the reference, and leaves nothing or something that starts with `|`. */
  lemma CutKeepsHead(s: string, head: string, rest: string) returns (kept: string)
    requires s == head + rest && (rest == "" || rest[0] == '|')
    requires forall c :: c in head ==> c != '|' && !IsLineEnd(c)
    ensures DropContent(s) == head + kept && (kept == "" || kept[0] == '|')
  {
    var from := AfterLastLineEnd(s);
    LineEndInRest(head, rest);
    var i := IndexOf(s[from..], '|');
    if i < 0 {
      kept := rest;
    } else {
      assert s[from + i] == '|';
      forall k | 0 <= k < |head| ensures s[k] != '|' { assert head[k] in head; }
      kept := s[|head|..from + i];
      assert s[..from + i] == head + kept;
      if kept != "" { assert kept[0] == rest[0]; }
    }
  }

  lemma {:induction false} LineEndInRest(head: string, rest: string)
    requires forall c :: c in head ==> !IsLineEnd(c)
    ensures AfterLastLineEnd(head + rest) == 0 || AfterLastLineEnd(head + rest) > |head|
  {
    var s := head + rest;
    if rest != "" {
      if !IsLineEnd(rest[|rest| - 1]) {
        assert s[..|s| - 1] == head + rest[..|rest| - 1];
        LineEndInRest(head, rest[..|rest| - 1]);
      }
    } else if head != "" {
      assert s == head;
      assert head[|head| - 1] in head;
      assert s[..|s| - 1] == head[..|head| - 1] + "";
      LineEndInRest(head[..|head| - 1], "");
      assert head[..|head| - 1] + "" == head[..|head| - 1];
      LineEndInRest'(head);
    }
  }

  lemma {:induction false} LineEndInRest'(s: string)
    requires forall c :: c in s ==> !IsLineEnd(c)
    ensures AfterLastLineEnd(s) == 0
  {
    if s != "" {
      assert s[|s| - 1] in s;
      LineEndInRest'(s[..|s| - 1]);
    }
  }

  lemma LongerIsNoRef(d: string, hash: string, more: string)
    requires |d| >= 1 && AllDigits(d) && IsHash(hash) && more != "" && more[0] == '|'
    ensures MatchRef(d + "#" + hash + more).None? && ExtractRef(d + "#" + hash + more) == Some(d + "#" + hash)
  {
    hide MatchRef, RefAtStart;
    HashInside(d + "#" + hash + more, |d|);
    RefStands(d, hash, more);
  }

  lemma HashInside(t: string, i: nat)
    requires i < |t| - 3 && t[i] == '#'
    ensures MatchRef(t).None?
  {
  }

  lemma RefStands(d: string, hash: string, more: string)
    requires |d| >= 1 && AllDigits(d) && IsHash(hash)
    ensures RefAtStart(d + "#" + hash + more) == Some(d + "#" + hash)
  {
    var rest := "#" + hash + more;
    var t := d + rest;
    assert d + "#" + hash + more == t;
    DigitRunOfDigits(d, rest);
    assert t[..|d| + 3] == d + "#" + hash;
    assert t[|d| + 1..|d| + 3] == hash;
  }

  /** Printing, then pasting: a printed reference, alone or with its whole line, as it stands or with one of the
      markers the tool prints before a line, parses back to its number and hash, whatever the line holds. */
  lemma ParseOfPrinted(number: nat, hash: string, tail: string, marker: string)
    requires IsHash(hash) && (tail == "" || tail[0] == '|')
    requires marker in {"", "    ", ">>> ", "+", "-"}
    ensures ParseLineRef(marker + (Decimal(number) + "#" + hash + tail)) == Some(LineRef(number, hash))
  {
    hide CloseHash, DropContent, TrimEnd, TrimStart, MatchRef, ExtractRef, DropMarker, Trim;
    var head := Decimal(number) + "#" + hash;
    MarkerDropped(marker, head, tail);
    TrimEndKeepsFirst(tail);
    NormalizeFromStart(number, hash, TrimEnd(tail));
    MatchOfPrinted(number, hash);
  }

  lemma {:induction false} TrimEndKeepsFirst(s: string)
    ensures TrimEnd(s) != "" ==> s != "" && TrimEnd(s)[0] == s[0]
  {
    if s != "" && IsSpace(s[|s| - 1]) {
      TrimEndKeepsFirst(s[..|s| - 1]);
    }
  }

  lemma MarkerDropped(marker: string, head: string, tail: string)
    requires marker in {"", "    ", ">>> ", "+", "-"}
    requires |head| >= 1 && IsDigit(head[0]) && !IsSpace(head[|head| - 1])
    ensures DropMarker(Trim(marker + (head + tail))) == head + TrimEnd(tail)
  {
    hide TrimEnd;
    TrimKeepsHead(head, tail);
    var done := head + TrimEnd(tail);
    assert done[0] == head[0];
    if marker == "" {
      assert marker + (head + tail) == head + tail;
    } else if marker == "    " {
      SpacesTrimmed(head + tail);
    } else {
      MarkerStripped(marker, head, tail);
    }
  }

  lemma MarkerStripped(marker: string, head: string, tail: string)
    requires marker in {">>> ", "+", "-"}
    requires |head| >= 1 && IsDigit(head[0]) && !IsSpace(head[|head| - 1])
    ensures DropMarker(Trim(marker + (head + tail))) == head + TrimEnd(tail)
  {
    hide TrimEnd, TrimStart, DropMarker, Trim;
    var done := head + TrimEnd(tail);
    assert marker + (head + tail) == (marker + head) + tail;
    TrimKeepsHead(marker + head, tail);
    assert (marker + head) + TrimEnd(tail) == marker + done;
    MarkerGoes(marker, done);
  }

  lemma MarkerGoes(marker: string, done: string)
    requires marker in {">>> ", "+", "-"} && done != "" && IsDigit(done[0])
    ensures DropMarker(marker + done) == done
  {
    var t := marker + done;
    assert TrimStart(done) == done;
    if marker == ">>> " {
      assert t[3..] == " " + done;
      assert (" " + done)[1..] == done;
    } else {
      assert t[1..] == done;
      assert t[0] != '>';
    }
  }

  lemma SpacesTrimmed(body: string)
    ensures Trim("    " + body) == Trim(body)
  {
    assert ("    " + body)[1..] == "   " + body;
    assert ("   " + body)[1..] == "  " + body;
    assert ("  " + body)[1..] == " " + body;
    assert (" " + body)[1..] == body;
    assert TrimStart(" " + body) == TrimStart(body);
    assert TrimStart("  " + body) == TrimStart(" " + body);
    assert TrimStart("   " + body) == TrimStart("  " + body);
    assert TrimStart("    " + body) == TrimStart("   " + body);
  }
}
