/** What the patterns for pasted text match: white space, printed prefixes, and references to lines. */
module HashlinePatterns {
  import opened Wrappers
  import opened Text
  import opened Sorting
  import opened HashlineRefs
  import opened HashlineText

  // ----- white space

  /** The characters of the class, one by one. */
  lemma SpaceIff(c: char)
    ensures IsSpace(c)
            <==> c in {'\t', '\n', '\U{b}', '\U{c}', '\r', ' ', '\U{A0}', '\U{1680}', '\U{2000}', '\U{2001}',
                       '\U{2002}', '\U{2003}', '\U{2004}', '\U{2005}', '\U{2006}', '\U{2007}', '\U{2008}',
                       '\U{2009}', '\U{200A}', '\U{2028}', '\U{2029}', '\U{202F}', '\U{205F}', '\U{3000}',
                       '\U{FEFF}'}
  {
  }

  ghost predicate White(s: string) { forall i :: 0 <= i < |s| ==> IsSpace(s[i]) }

  /** What is left of a text when the white space around it is taken away. */
  ghost predicate IsCore(s: string, core: string)
  {
    exists i, j ::
      && 0 <= i <= j <= |s| && core == s[i..j]
      && (forall k :: 0 <= k < i || j <= k < |s| ==> IsSpace(s[k]))
      && (i < j ==> !IsSpace(s[i]) && !IsSpace(s[j - 1]))
  }

  lemma {:induction false} TrimStartIs(s: string)
    ensures var r := TrimStart(s);
            && |r| <= |s| && r == s[|s| - |r|..] && (r != "" ==> !IsSpace(r[0]))
            && forall i :: 0 <= i < |s| - |r| ==> IsSpace(s[i])
  {
    hide IsSpace;
    if s != [] && IsSpace(s[0]) { TrimStartIs(s[1..]); }
  }

  lemma {:induction false} TrimEndIs(s: string)
    ensures var r := TrimEnd(s);
            && |r| <= |s| && r == s[..|r|] && (r != "" ==> !IsSpace(r[|r| - 1]))
            && forall i :: |r| <= i < |s| ==> IsSpace(s[i])
  {
    hide IsSpace;
    if s != [] && IsSpace(s[|s| - 1]) { TrimEndIs(s[..|s| - 1]); }
  }

  lemma TrimIsCore(s: string)
    ensures forall core :: IsCore(s, core) <==> core == Trim(s)
  {
    hide IsSpace, TrimStart, TrimEnd;
    TrimStartIs(s);
    TrimEndIs(TrimStart(s));
    var t := TrimStart(s);
    var i := |s| - |t|;
    var j := i + |TrimEnd(t)|;
    assert Trim(s) == s[i..j];
    forall k | j <= k < |s| ensures IsSpace(s[k]) { assert s[k] == t[k - i]; }
    if i < j { assert s[i] == t[0] == TrimEnd(t)[0] && s[j - 1] == TrimEnd(t)[j - 1 - i]; }
    forall core | IsCore(s, core) ensures core == s[i..j] {
      var a, b :|
        && 0 <= a <= b <= |s| && core == s[a..b]
        && (forall k :: 0 <= k < a || b <= k < |s| ==> IsSpace(s[k]))
        && (a < b ==> !IsSpace(s[a]) && !IsSpace(s[b - 1]));
    }
  }

  lemma {:induction false} WhiteGone(w: string, s: string)
    requires White(w)
    ensures TrimStart(w + s) == TrimStart(s)
  {
    hide IsSpace;
    if w == "" {
      assert w + s == s;
    } else {
      assert (w + s)[1..] == w[1..] + s && (w + s)[0] == w[0];
      WhiteGone(w[1..], s);
    }
  }

  /** The text is white space and then what is left when that is taken from its start. */
  lemma StartTrimmed(s: string) returns (w: string)
    ensures White(w) && s == w + TrimStart(s) && (TrimStart(s) != "" ==> !IsSpace(TrimStart(s)[0]))
  {
    hide IsSpace, TrimStart;
    TrimStartIs(s);
    w := s[..|s| - |TrimStart(s)|];
  }

  // ----- prefixes of pasted lines

  ghost predicate IsHashText(h: string) { |h| == 2 && h[0] in "ZPMQVRWSNKTXJBYH" && h[1] in "ZPMQVRWSNKTXJBYH" }

  lemma HashIff(h: string)
    ensures IsHash(h) <==> IsHashText(h)
  {
    assert forall c :: c in NIBBLES <==> c in "ZPMQVRWSNKTXJBYH" by { assert NIBBLES == "ZPMQVRWSNKTXJBYH"; }
  }

  /** The hash of a line is the two digits of its value in base 16, written with the letters of the dictionary. */
  lemma HashTextIs(hash: LineHash, number: nat, content: string)
    ensures exists high, low ::
              && 0 <= high < 16 && 0 <= low < 16 && hash(number, content) % 256 == 16 * high + low
              && HashText(hash, number, content) == ["ZPMQVRWSNKTXJBYH"[high], "ZPMQVRWSNKTXJBYH"[low]]
  {
    var index, dictionary := hash(number, content) % 256, "ZPMQVRWSNKTXJBYH";
    assert NIBBLES == dictionary;
    assert HashText(hash, number, content) == [dictionary[index / 16], dictionary[index % 16]];
  }

  ghost predicate IsNumber(d: string) { d != "" && forall i :: 0 <= i < |d| ==> '0' <= d[i] <= '9' }

  /** The pieces of a line that starts like one that was printed with its number and hash. */
  ghost predicate HashPieces(line: string, a: string, mark: string, b: string, number: string, c: string, d: string,
                             h: string, rest: string)
  {
    && line == a + mark + b + number + c + "#" + d + h + "|" + rest
    && White(a) && White(b) && White(c) && White(d)
    && mark in {"", ">>", ">>>"} && IsNumber(number) && IsHashText(h)
  }

  ghost predicate HashPrefixed(line: string, rest: string)
  {
    exists a, mark, b, number, c, d, h :: HashPieces(line, a, mark, b, number, c, d, h, rest)
  }

  /** What follows the number and the hash at the start of a text. */
  ghost function AfterHash(u: string): Option<string>
  {
    var n := DigitRun(u);
    var c := TrimStart(u[n..]);
    if n == 0 || c == "" || c[0] != '#' then None
    else
      var d := TrimStart(c[1..]);
      if |d| >= 3 && IsHash(d[..2]) && d[2] == '|' then Some(d[3..]) else None
  }

  ghost function Unmarked(t: string): string { if ">>>" <= t then t[3..] else if ">>" <= t then t[2..] else t }

  lemma InTwoSteps(line: string)
    ensures AfterHashPrefix(line) == AfterHash(TrimStart(Unmarked(TrimStart(line))))
  {
    hide TrimStart, DigitRun, IsHash;
  }

  lemma MarkOf(t: string) returns (mark: string)
    ensures mark in {"", ">>", ">>>"} && t == mark + Unmarked(t)
  {
    mark := if ">>>" <= t then ">>>" else if ">>" <= t then ">>" else "";
  }

  ghost predicate NumberPieces(u: string, number: string, c: string, d: string, h: string, rest: string)
  {
    && u == number + (c + ("#" + (d + (h + "|" + rest))))
    && White(c) && White(d) && IsNumber(number) && IsHashText(h)
  }

  lemma NumberFound(u: string, rest: string) returns (number: string, c: string, d: string, h: string)
    requires AfterHash(u) == Some(rest)
    ensures NumberPieces(u, number, c, d, h, rest)
  {
    hide TrimStart, IsHash, DigitRun, IsSpace, IsHashText;
    var n := DigitRun(u);
    number := u[..n];
    c := StartTrimmed(u[n..]);
    var v := TrimStart(u[n..]);
    d := StartTrimmed(v[1..]);
    var w := TrimStart(v[1..]);
    h := w[..2];
    HashIff(h);
    assert w == h + "|" + rest;
    assert v == "#" + v[1..];
    assert u == number + u[n..];
  }

  lemma NumberMatches(u: string, number: string, c: string, d: string, h: string, rest: string)
    requires NumberPieces(u, number, c, d, h, rest)
    ensures AfterHash(u) == Some(rest)
  {
    hide TrimStart, IsHash, DigitRun, IsHashText;
    var w := h + "|" + rest;
    var v := "#" + (d + w);
    WhiteGone(c, v);
    NotWhite(v);
    assert v[1..] == d + w;
    HashIff(h);
    HashHead(h, rest);
    WhiteGone(d, w);
    NotWhite(w);
    NoDigitNext(c, v);
    DigitRunOfDigits(number, c + v);
    assert u == number + (c + v) && u[|number|..] == c + v;
  }

  lemma NoDigitNext(c: string, v: string)
    requires White(c) && v != "" && v[0] == '#'
    ensures c + v != "" && !IsDigit((c + v)[0])
  {
    assert (c + v)[0] == if c == "" then v[0] else c[0];
  }

  lemma Regrouped(a: string, mark: string, b: string, u: string, number: string, c: string, d: string, h: string,
                  rest: string)
    requires u == number + (c + ("#" + (d + (h + "|" + rest))))
    ensures a + mark + b + number + c + "#" + d + h + "|" + rest == a + (mark + (b + u))
  {
    var w := h + "|" + rest;
    assert d + h + "|" + rest == d + w;
    assert a + mark + b + number + c + "#" + d + h + "|" + rest == a + mark + b + number + c + "#" + (d + w);
    assert a + mark + b + number + c + "#" + (d + w) == a + mark + b + (number + (c + ("#" + (d + w))));
  }

  lemma PiecesFound(line: string, rest: string)
    requires AfterHashPrefix(line) == Some(rest)
    ensures HashPrefixed(line, rest)
  {
    hide TrimStart, AfterHashPrefix, AfterHash, Unmarked, IsHashText, IsNumber, White;
    InTwoSteps(line);
    var a := StartTrimmed(line);
    var t := TrimStart(line);
    var mark := MarkOf(t);
    var b := StartTrimmed(Unmarked(t));
    var u := TrimStart(Unmarked(t));
    var number, c, d, h := NumberFound(u, rest);
    Regrouped(a, mark, b, u, number, c, d, h, rest);
    assert HashPieces(line, a, mark, b, number, c, d, h, rest);
  }

  lemma NotWhite(s: string)
    requires s != "" && !IsSpace(s[0])
    ensures TrimStart(s) == s
  {
  }

  lemma PiecesMatch(line: string, a: string, mark: string, b: string, number: string, c: string, d: string, h: string,
                    rest: string)
    requires HashPieces(line, a, mark, b, number, c, d, h, rest)
    ensures AfterHashPrefix(line) == Some(rest)
  {
    hide TrimStart, AfterHashPrefix, AfterHash, Unmarked, IsHashText, White;
    var u := number + (c + ("#" + (d + (h + "|" + rest))));
    Regrouped(a, mark, b, u, number, c, d, h, rest);
    NumberMatches(u, number, c, d, h, rest);
    AfterMark(a, mark, b, u);
    InTwoSteps(line);
  }

  lemma HashHead(h: string, rest: string)
    requires IsHash(h)
    ensures var w := h + "|" + rest; |w| >= 3 && w[..2] == h && w[2] == '|' && w[3..] == rest && !IsSpace(w[0])
  {
    assert (h + "|" + rest)[0] == h[0];
  }

  /** Past white space and a marker. */
  lemma AfterMark(a: string, mark: string, b: string, u: string)
    requires White(a) && White(b) && mark in {"", ">>", ">>>"} && u != "" && IsDigit(u[0])
    ensures TrimStart(Unmarked(TrimStart(a + (mark + (b + u))))) == u
  {
    hide TrimStart;
    var t := mark + (b + u);
    WhiteGone(a, t);
    WhiteGone(b, u);
    NotWhite(u);
    if mark != "" {
      NotWhite(t);
      assert t[|mark|..] == b + u;
      if mark == ">>" { assert t[2] == (b + u)[0] != '>'; }
    } else {
      assert t == b + u;
    }
  }

  /** A line has the prefix, with this after it, exactly if it is: white space, perhaps a marker, white space, a number,
      white space, `#`, white space, a hash and `|`; and then this. */
  lemma HashPrefixIff(line: string, rest: string)
    ensures AfterHashPrefix(line) == Some(rest) <==> HashPrefixed(line, rest)
  {
    hide AfterHashPrefix, HashPieces;
    if AfterHashPrefix(line) == Some(rest) { PiecesFound(line, rest); }
    if HashPrefixed(line, rest) {
      var a, mark, b, number, c, d, h :| HashPieces(line, a, mark, b, number, c, d, h, rest);
      PiecesMatch(line, a, mark, b, number, c, d, h, rest);
    }
  }

  // ----- which prefix is stripped

  ghost predicate HasHash(line: string) { exists rest :: HashPrefixed(line, rest) }

  ghost predicate HasPlus(line: string) { line != "" && line[0] == '+' && (|line| > 1 ==> line[1] != '+') }

  ghost function Hashed(lines: seq<string>): set<nat> { set i: nat | i < |lines| && HasHash(lines[i]) }

  ghost function Plussed(lines: seq<string>): set<nat> { set i: nat | i < |lines| && HasPlus(lines[i]) }

  ghost function Filled(lines: seq<string>): set<nat> { set i: nat | i < |lines| && lines[i] != "" }

  /** One of them at least, and half of all lines that are not empty. */
  ghost predicate AreMost(some: set<nat>, filled: set<nat>) { some != {} && 2 * |some| >= |filled| }

  ghost predicate WithoutHash(line: string, r: string)
  {
    if HasHash(line) then HashPrefixed(line, r) else r == line
  }

  ghost predicate WithoutPlus(line: string, r: string) { if HasPlus(line) then line == "+" + r else r == line }

  lemma HashOfLine(line: string)
    ensures HasHash(line) <==> HasHashPrefix(line)
    ensures WithoutHash(line, OrElse(AfterHashPrefix(line), line))
  {
    hide AfterHashPrefix, HashPrefixed;
    var found := AfterHashPrefix(line);
    if found.Some? { HashPrefixIff(line, found.value); }
    EmptyHasNone();
    forall rest ensures HashPrefixed(line, rest) ==> found == Some(rest) { HashPrefixIff(line, rest); }
  }

  lemma PlusOfLine(line: string)
    ensures HasPlus(line) <==> HasDiffPlus(line)
    ensures WithoutPlus(line, OrElse(AfterDiffPlus(line), line))
  {
    if HasPlus(line) { assert line == "+" + line[1..]; }
  }

  lemma {:induction false} CountIs(lines: seq<string>, p: string -> bool, members: set<nat>)
    requires forall i: nat :: i in members <==> i < |lines| && p(lines[i])
    ensures Count(lines, p) == |members|
  {
    if lines == [] {
      assert members == {};
    } else {
      var last := |lines| - 1;
      CountIs(lines[..last], p, members - {last});
    }
  }

  /** The prefix that prevails is taken from every line that has it, the printed one before a `+`; if neither does, the
      lines stay as they are. */
  lemma StrippedIff(lines: seq<string>)
    ensures var r := Stripped(lines);
            && |r| == |lines|
            && if AreMost(Hashed(lines), Filled(lines)) then forall i :: 0 <= i < |r| ==> WithoutHash(lines[i], r[i])
               else if AreMost(Plussed(lines), Filled(lines)) then
                 forall i :: 0 <= i < |r| ==> WithoutPlus(lines[i], r[i])
               else r == lines
  {
    hide AfterHashPrefix, AfterDiffPlus, HasHashPrefix, HasDiffPlus, HasHash, HasPlus, WithoutHash, WithoutPlus, Map;
    forall i | 0 <= i < |lines|
      ensures HasHash(lines[i]) <==> HasHashPrefix(lines[i])
      ensures HasPlus(lines[i]) <==> HasDiffPlus(lines[i])
      ensures WithoutHash(lines[i], OrElse(AfterHashPrefix(lines[i]), lines[i]))
      ensures WithoutPlus(lines[i], OrElse(AfterDiffPlus(lines[i]), lines[i]))
    {
      HashOfLine(lines[i]);
      PlusOfLine(lines[i]);
    }
    CountIs(lines, HasHashPrefix, Hashed(lines));
    CountIs(lines, HasDiffPlus, Plussed(lines));
    CountIs(lines, NonEmpty, Filled(lines));
  }

  // ----- references to lines

  /** `>>>`, `+` or `-` and the white space after it are gone. */
  ghost predicate MarkerGone(s: string, t: string) { exists mark, w :: MarkerPieces(s, mark, w, t) }

  ghost predicate MarkerPieces(s: string, mark: string, w: string, t: string)
  {
    && s == mark + w + t && White(w)
    && if mark == "" then w == "" && !(">>>" <= s) && !("+" <= s) && !("-" <= s)
       else mark in {">>>", "+", "-"} && (t == "" || !IsSpace(t[0]))
  }

  /** The white space on both sides of the first `#` is gone. */
  ghost predicate HashClosed(s: string, t: string)
  {
    if '#' !in s then t == s else exists x, a, b, y :: AroundHash(s, x, a, b, y) && t == x + "#" + y
  }

  ghost predicate AroundHash(s: string, x: string, a: string, b: string, y: string)
  {
    && s == (x + a) + "#" + (b + y) && '#' !in x + a && White(a) && White(b)
    && (x == "" || !IsSpace(x[|x| - 1])) && (y == "" || !IsSpace(y[0]))
  }

  /** A bar with no line end after it. */
  ghost predicate Bar(s: string, k: int)
  {
    0 <= k < |s| && s[k] == '|' && forall i :: k < i < |s| ==> s[i] !in {'\n', '\r', '\U{2028}', '\U{2029}'}
  }

  /** What the first such bar starts is gone. */
  ghost predicate ContentGone(s: string, t: string)
  {
    if exists k :: Bar(s, k) then exists k :: Bar(s, k) && t == s[..k] && forall j :: j < k ==> !Bar(s, j)
    else t == s
  }

  /** A reference stands there: digits, `#` and a hash. */
  ghost predicate Refers(s: string, i: int, j: int)
  {
    0 <= i < j && j + 3 <= |s| && IsNumber(s[i..j]) && s[j] == '#' && IsHashText(s[j + 1..j + 3])
  }

  /** The reference is the first one that stands in the text, if one does. */
  ghost predicate FirstReference(s: string, r: Option<LineRef>)
  {
    if exists i, j :: Refers(s, i, j)
    then exists i, j :: Refers(s, i, j) && (forall k, l :: k < i ==> !Refers(s, k, l)) && IsRef(s, i, j, r)
    else r == None
  }

  ghost predicate IsRef(s: string, i: int, j: int, r: Option<LineRef>)
    requires Refers(s, i, j)
  {
    r == Some(LineRef(DecimalValue(s[i..j]), s[j + 1..j + 3]))
  }

  function MarkerOf(s: string): string
  {
    if ">>>" <= s then ">>>" else if "+" <= s then "+" else if "-" <= s then "-" else ""
  }

  lemma MarkerIff(s: string, t: string)
    ensures t == DropMarker(s) <==> MarkerGone(s, t)
  {
    hide MarkerPieces, DropMarker, MarkerOf;
    var w := MarkerDrops(s);
    if MarkerGone(s, t) {
      var m, v :| MarkerPieces(s, m, v, t);
      OneMarker(s, m, v, t);
    }
  }

  lemma MarkerDrops(s: string) returns (w: string)
    ensures MarkerPieces(s, MarkerOf(s), w, DropMarker(s))
  {
    hide TrimStart, IsSpace;
    var mark := MarkerOf(s);
    if mark == "" {
      w := "";
    } else {
      w := StartTrimmed(s[|mark|..]);
      assert s == mark + (w + TrimStart(s[|mark|..]));
      assert mark + (w + TrimStart(s[|mark|..])) == mark + w + TrimStart(s[|mark|..]);
    }
  }

  lemma OneMarker(s: string, m: string, w: string, t: string)
    requires MarkerPieces(s, m, w, t)
    ensures DropMarker(s) == t
  {
    hide TrimStart, IsSpace;
    if m != "" {
      assert s == m + (w + t);
      assert s[|m|..] == w + t && s[0] == m[0];
      if m == ">>>" { assert s[1] == '>' && s[2] == '>'; }
      WhiteGone(w, t);
      NothingOrNotWhite(t);
    } else {
      assert s == t;
    }
  }

  lemma NothingOrNotWhite(t: string)
    requires t == "" || !IsSpace(t[0])
    ensures TrimStart(t) == t
  {
  }

  /** The end of a text may be cut off where its white space starts. */
  lemma EndTrimmed(x: string, a: string)
    requires White(a) && (x == "" || !IsSpace(x[|x| - 1]))
    ensures TrimEnd(x + a) == x
  {
    hide IsSpace, TrimEnd;
    TrimEndIs(x + a);
    var r := TrimEnd(x + a);
    forall k | |x| <= k < |x + a| ensures IsSpace((x + a)[k]) { assert (x + a)[k] == a[k - |x|]; }
    forall k | 0 <= k < |x| ensures (x + a)[k] == x[k] {}
  }

  lemma HashClosedIff(s: string, t: string)
    ensures t == CloseHash(s) <==> HashClosed(s, t)
  {
    hide AroundHash, CloseHash;
    NoHash(s);
    if '#' in s {
      var x, a, b, y := HashCloses(s);
      if HashClosed(s, t) {
        var x', a', b', y' :| AroundHash(s, x', a', b', y') && t == x' + "#" + y';
        OneHash(s, x', a', b', y');
      }
    }
  }

  lemma NoHash(s: string)
    ensures '#' !in s ==> CloseHash(s) == s
  {
    hide TrimStart, TrimEnd;
  }

  lemma HashCloses(s: string) returns (x: string, a: string, b: string, y: string)
    requires '#' in s
    ensures AroundHash(s, x, a, b, y) && CloseHash(s) == x + "#" + y
  {
    hide TrimStart, TrimEnd, IsSpace;
    var i := IndexOf(s, '#');
    TrimEndIs(s[..i]);
    x := TrimEnd(s[..i]);
    a := s[..i][|x|..];
    b := StartTrimmed(s[i + 1..]);
    y := TrimStart(s[i + 1..]);
    assert s[..i] == x + a && s == s[..i] + "#" + s[i + 1..];
  }

  lemma OneHash(s: string, x: string, a: string, b: string, y: string)
    requires AroundHash(s, x, a, b, y)
    ensures CloseHash(s) == x + "#" + y
  {
    hide TrimStart, TrimEnd, IsSpace;
    FirstHash(s, x + a, b + y);
    EndTrimmed(x, a);
    WhiteGone(b, y);
    NothingOrNotWhite(y);
  }

  lemma FirstHash(s: string, before: string, after: string)
    requires s == before + "#" + after && '#' !in before
    ensures var i := IndexOf(s, '#'); i >= 0 && s[..i] == before && s[i + 1..] == after
  {
    assert s[|before|] == '#';
    forall k | 0 <= k < |before| ensures s[k] != '#' { assert s[k] == before[k]; }
    IndexIs(s, '#', |before|);
  }

  lemma {:induction false} LastLineEnd(s: string)
    ensures var n := AfterLastLineEnd(s);
            (n > 0 ==> IsLineEnd(s[n - 1])) && forall i :: n <= i < |s| ==> !IsLineEnd(s[i])
  {
    if s != [] && !IsLineEnd(s[|s| - 1]) { LastLineEnd(s[..|s| - 1]); }
  }

  lemma BarIff(s: string, k: int)
    ensures Bar(s, k) <==> AfterLastLineEnd(s) <= k < |s| && s[k] == '|'
  {
    hide AfterLastLineEnd;
    LastLineEnd(s);
    var from := AfterLastLineEnd(s);
    if 0 <= k < from && k < |s| && s[k] == '|' { assert IsLineEnd(s[from - 1]) && k != from - 1; }
  }

  lemma ContentIff(s: string, t: string)
    ensures t == DropContent(s) <==> ContentGone(s, t)
  {
    hide AfterLastLineEnd, Bar;
    var from := AfterLastLineEnd(s);
    var i := IndexOf(s[from..], '|');
    forall k ensures Bar(s, k) <==> from <= k < |s| && s[from..][k - from] == '|' { BarIff(s, k); }
    if i >= 0 {
      assert Bar(s, from + i);
      forall j | j < from + i ensures !Bar(s, j) {
        if from <= j { assert s[from..][..i][j - from] == s[from..][j - from]; }
      }
    } else {
      forall k ensures !Bar(s, k) {}
    }
  }

  lemma TrimIff(s: string, t: string)
    ensures t == Trim(s) <==> IsCore(s, t)
  {
    TrimIsCore(s);
  }

  /** A reference starts at a position if the pattern matches there. */
  lemma StartsIff(s: string, i: nat)
    requires i <= |s|
    ensures var f, j := RefAtStart(s[i..]), i + DigitRun(s[i..]);
            && (f.None? ==> forall l :: !Refers(s, i, l))
            && (f.Some? ==> Refers(s, i, j) && f.value == s[i..j + 3])
            && forall l :: Refers(s, i, l) ==> l == j
  {
    hide DigitRun, IsHash, IsHashText;
    var t := s[i..];
    forall l | Refers(s, i, l) ensures l == i + DigitRun(t) && RefAtStart(t).Some? {
      assert t == s[i..l] + s[l..];
      DigitRunOfDigits(s[i..l], s[l..]);
      assert t[l - i + 1..l - i + 3] == s[l + 1..l + 3];
      HashIff(s[l + 1..l + 3]);
    }
    if RefAtStart(t).Some? {
      var j := i + DigitRun(t);
      assert t[..j - i] == s[i..j] && t[j - i + 1..j - i + 3] == s[j + 1..j + 3];
      HashIff(s[j + 1..j + 3]);
      assert t[..j - i + 3] == s[i..j + 3];
    }
  }

  lemma {:induction false} ExtractIs(s: string, i: nat) returns (k: nat)
    requires i <= |s|
    ensures ExtractRef(s[i..]).None? ==> forall k, l :: i <= k ==> !Refers(s, k, l)
    ensures ExtractRef(s[i..]).Some? ==>
              && i <= k <= |s| && RefAtStart(s[k..]) == ExtractRef(s[i..])
              && forall m, l :: i <= m < k ==> !Refers(s, m, l)
    decreases |s| - i
  {
    hide RefAtStart;
    StartsIff(s, i);
    k := i;
    if RefAtStart(s[i..]).None? && i < |s| {
      assert s[i..][1..] == s[i + 1..];
      k := ExtractIs(s, i + 1);
    }
  }

  /** What a normalized text refers to. */
  ghost function Reference(s: string): Option<LineRef>
  {
    if MatchRef(s).Some? then MatchRef(s)
    else match ExtractRef(s) case Some(f) => MatchRef(f) case None => None
  }

  lemma OneReference(s: string, r: Option<LineRef>, i: int, j: int, o: Option<LineRef>, k: int, l: int)
    requires Refers(s, i, j) && IsRef(s, i, j, r) && Refers(s, k, l) && IsRef(s, k, l, o)
    requires (forall m, n :: m < i ==> !Refers(s, m, n)) && (forall m, n :: m < k ==> !Refers(s, m, n))
    ensures r == o
  {
    hide Refers;
    assert i == k;
    RefersWithin(s, i, j);
    StartsIff(s, i);
  }

  lemma RefersWithin(s: string, i: int, j: int)
    requires Refers(s, i, j)
    ensures 0 <= i <= |s|
  {
  }

  lemma ReferenceIs(s: string)
    ensures FirstReference(s, Reference(s))
  {
    hide RefAtStart, Refers, IsRef, ExtractRef, MatchRef;
    if MatchRef(s).Some? {
      WholeRefers(s);
    } else {
      assert s[0..] == s;
      var k := ExtractIs(s, 0);
      NoneBelow(s);
      if ExtractRef(s).Some? {
        var j := k + DigitRun(s[k..]);
        StartsIff(s, k);
        ReferenceMatches(s, k, j);
      }
    }
  }

  lemma NoneBelow(s: string)
    ensures forall k, l :: k < 0 ==> !Refers(s, k, l)
  {
  }

  lemma WholeRefers(s: string)
    requires MatchRef(s).Some?
    ensures Refers(s, 0, |s| - 3) && IsRef(s, 0, |s| - 3, MatchRef(s))
    ensures forall k, l :: k < 0 ==> !Refers(s, k, l)
  {
    hide IsHash, IsHashText, DecimalValue;
    assert s[0..|s| - 3] == s[..|s| - 3] && s[|s| - 3 + 1..|s| - 3 + 3] == s[|s| - 2..];
    HashIff(s[|s| - 2..]);
  }

  lemma ReferenceMatches(s: string, i: nat, j: nat)
    requires Refers(s, i, j)
    ensures IsRef(s, i, j, MatchRef(s[i..j + 3]))
  {
    hide IsHashText, IsHash, DecimalValue;
    var f := s[i..j + 3];
    assert f[..|f| - 3] == s[i..j] && f[|f| - 2..] == s[j + 1..j + 3] && f[|f| - 3] == s[j];
    HashIff(s[j + 1..j + 3]);
    assert |f| >= 4;
    assert AllDigits(f[..|f| - 3]);
    assert MatchRef(f).Some?;
  }

  lemma ReferenceIff(s: string, r: Option<LineRef>)
    ensures r == Reference(s) <==> FirstReference(s, r)
  {
    hide Refers, Reference, IsRef;
    ReferenceIs(s);
    if FirstReference(s, r) && exists i, j :: Refers(s, i, j) {
      var i, j :| Refers(s, i, j) && (forall k, l :: k < i ==> !Refers(s, k, l)) && IsRef(s, i, j, r);
      var k, l :|
        Refers(s, k, l) && (forall m, n :: m < k ==> !Refers(s, m, n)) && IsRef(s, k, l, Reference(s));
      OneReference(s, r, i, j, Reference(s), k, l);
    }
  }

  /** What a pasted reference is read as: white space around it, a marker, white space around its first `#`, the content
      from the first bar on its last line and white space around what is left are taken away; then the first reference
      that stands there counts. */
  ghost predicate ReadsAs(ref: string, r: Option<LineRef>)
  {
    exists a, b, c, d, e ::
      && IsCore(ref, a) && MarkerGone(a, b) && HashClosed(b, c) && ContentGone(c, d) && IsCore(d, e)
      && FirstReference(e, r)
  }

  lemma ParseIff(ref: string, r: Option<LineRef>)
    ensures ParseLineRef(ref) == r <==> ReadsAs(ref, r)
  {
    hide IsCore, MarkerGone, HashClosed, ContentGone, FirstReference, Trim, DropMarker, CloseHash, DropContent,
         Reference, ParseLineRef;
    var a := Trim(ref);
    var b := DropMarker(a);
    var c := CloseHash(b);
    var d := DropContent(c);
    var e := Trim(d);
    ParsedReference(ref);
    forall t ensures IsCore(ref, t) <==> t == a { TrimIff(ref, t); }
    forall t ensures MarkerGone(a, t) <==> t == b { MarkerIff(a, t); }
    forall t ensures HashClosed(b, t) <==> t == c { HashClosedIff(b, t); }
    forall t ensures ContentGone(c, t) <==> t == d { ContentIff(c, t); }
    forall t ensures IsCore(d, t) <==> t == e { TrimIff(d, t); }
    ReferenceIff(e, r);
    if ParseLineRef(ref) == r {
      assert IsCore(ref, a) && MarkerGone(a, b) && HashClosed(b, c) && ContentGone(c, d) && IsCore(d, e)
             && FirstReference(e, r);
    }
  }

  /** Where nothing stands in what is left, the text itself is no reference either. */
  lemma ParsedReference(ref: string)
    ensures ParseLineRef(ref) == Reference(Trim(DropContent(CloseHash(DropMarker(Trim(ref))))))
  {
    hide MatchRef, ExtractRef, Trim, DropMarker, CloseHash, DropContent;
    var a := Trim(ref);
    if MatchRef(a).Some? { PlainStays(a); }
  }

  lemma PlainStays(a: string)
    requires MatchRef(a).Some?
    ensures Trim(DropContent(CloseHash(DropMarker(a)))) == a
  {
    hide Trim, DropMarker, CloseHash, DropContent, MatchRef;
    NoMarker(a);
    HashStays(a);
    NoBar(a);
    NoWhite(a);
  }

  lemma NoMarker(a: string)
    requires MatchRef(a).Some?
    ensures DropMarker(a) == a
  {
    assert a[..|a| - 3][0] == a[0] && IsDigit(a[0]);
  }

  lemma HashStays(a: string)
    requires MatchRef(a).Some?
    ensures CloseHash(a) == a
  {
    hide CloseHash;
    var d, h := a[..|a| - 3], a[|a| - 2..];
    assert a == d + "#" + h + "";
    HashClosedAlready(a, d, h, "");
  }

  lemma NoWhite(a: string)
    requires MatchRef(a).Some?
    ensures Trim(a) == a
  {
    hide Trim, TrimEnd, MatchRef;
    EndsAreBlack(a);
    TrimKeepsHead(a, "");
    assert a + "" == a;
    NothingToTrim();
  }

  lemma EndsAreBlack(a: string)
    requires MatchRef(a).Some?
    ensures a != "" && !IsSpace(a[0]) && !IsSpace(a[|a| - 1])
  {
    hide DecimalValue, IsHash;
    assert a[..|a| - 3][0] == a[0] && IsDigit(a[0]);
    HashIff(a[|a| - 2..]);
    LastIsLetter(a[|a| - 2..]);
    assert a[|a| - 2..][1] == a[|a| - 1];
  }

  lemma LastIsLetter(h: string)
    requires IsHashText(h)
    ensures !IsSpace(h[1])
  {
  }

  lemma NothingToTrim()
    ensures TrimEnd("") == ""
  {
  }

  lemma NoBar(a: string)
    requires MatchRef(a).Some?
    ensures DropContent(a) == a
  {
    hide AfterLastLineEnd;
    assert '|' !in NIBBLES;
    assert a[|a| - 2..] == [a[|a| - 2], a[|a| - 1]];
    forall k | 0 <= k < |a| ensures a[k] != '|' {
      assert k < |a| - 3 ==> a[k] == a[..|a| - 3][k] && IsDigit(a[..|a| - 3][k]);
    }
    var rest := a[AfterLastLineEnd(a)..];
    assert forall k :: 0 <= k < |rest| ==> rest[k] == a[AfterLastLineEnd(a) + k];
  }
}
