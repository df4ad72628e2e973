/** Patching one top-level scalar of a JSONC text in place, comments and all. */
module JsoncPatch {
  import opened Wrappers
  import opened Text

  // ----- tokens

  predicate IsQuote(c: char) { c == '"' || c == '\'' }

  predicate IsBlank(c: char) { c == ' ' || c == '\t' }

  predicate IsComment(s: string) { "//" <= s || "/*" <= s }

  /** How much of a text is still inside a string that this quote closes: a backslash takes the next character with
      it. */
  function StringRest(s: string, quote: char): (n: nat)
    ensures n <= |s| && (s != "" ==> n > 0)
  {
    if s == "" then 0
    else if s[0] == '\\' && |s| > 1 then 2 + StringRest(s[2..], quote)
    else if s[0] == quote then 1
    else 1 + StringRest(s[1..], quote)
  }

  /** Where a block comment ends. */
  function BlockRest(s: string): (n: nat)
    ensures n <= |s| && (|s| >= 1 ==> n >= 1) && (|s| >= 2 ==> n >= 2)
  {
    if s == "" then 0 else if "*/" <= s then 2 else 1 + BlockRest(s[1..])
  }

  function LineRest(s: string): (n: nat)
    ensures n <= |s|
  {
    var nl := IndexOf(s, '\n');
    if nl < 0 then |s| else nl
  }

  /** The length of what a text outside strings and comments starts with: a comment without its line end, a string,
      or one character. */
  function TokenLength(s: string): (n: nat)
    requires s != ""
    ensures 0 < n <= |s|
  {
    if "//" <= s then 2 + LineRest(s[2..])
    else if "/*" <= s then 2 + BlockRest(s[2..])
    else if IsQuote(s[0]) then 1 + StringRest(s[1..], s[0])
    else 1
  }

  // ----- stripping comments

  /** The text without its comments; strings are kept whole. */
  function Strip(s: string): string
  {
    if s == "" then ""
    else (if IsComment(s) then "" else s[..TokenLength(s)]) + Strip(s[TokenLength(s)..])
  }

  function WithoutBom(s: string): string { if s != "" && s[0] == '\U{FEFF}' then s[1..] else s }

  /** What is left to come, inside a string or not. */
  function StripRest(s: string, inStr: Option<char>): string
  {
    if inStr.None? then Strip(s)
    else s[..StringRest(s, inStr.value)] + Strip(s[StringRest(s, inStr.value)..])
  }

  /** Taking a text in two steps. */
  lemma TakenInTwo(s: string, k: nat, n: nat, rest: string)
    requires k + n <= |s|
    ensures s[..k + n] + rest == s[..k] + (s[k..][..n] + rest)
    ensures s[k + n..] == s[k..][n..]
  {
  }

  lemma StringStep(s: string, quote: char)
    requires s != ""
    ensures s[0] == '\\' && |s| > 1 ==> StripRest(s, Some(quote)) == s[..2] + StripRest(s[2..], Some(quote))
    ensures !(s[0] == '\\' && |s| > 1) && s[0] == quote ==>
              StripRest(s, Some(quote)) == s[..1] + StripRest(s[1..], None)
    ensures !(s[0] == '\\' && |s| > 1) && s[0] != quote ==>
              StripRest(s, Some(quote)) == s[..1] + StripRest(s[1..], Some(quote))
  {
    hide Strip;
    var n := StringRest(s, quote);
    var k := if s[0] == '\\' && |s| > 1 then 2 else 1;
    TakenInTwo(s, k, n - k, Strip(s[n..]));
  }

  lemma CodeStep(s: string)
    requires s != ""
    ensures IsComment(s) ==> Strip(s) == Strip(s[TokenLength(s)..])
    ensures IsQuote(s[0]) ==> Strip(s) == s[..1] + StripRest(s[1..], Some(s[0]))
    ensures !IsComment(s) && !IsQuote(s[0]) ==> Strip(s) == s[..1] + Strip(s[1..])
  {
    hide StringRest, Strip, BlockRest, LineRest;
    StripStep(s);
    var n := TokenLength(s);
    if IsQuote(s[0]) {
      assert s[0] == '"' || s[0] == '\'';
      TakenInTwo(s, 1, n - 1, Strip(s[n..]));
    }
  }

  lemma StripStep(s: string)
    requires s != ""
    ensures Strip(s) == (if IsComment(s) then "" else s[..TokenLength(s)]) + Strip(s[TokenLength(s)..])
  {
    hide StringRest, TokenLength, IsComment;
  }

  /** Where the comment at a position ends, if there is one. */
  lemma CommentAt(src: string, i: nat)
    requires i < |src|
    ensures IsComment(src[i..]) <==> i + 1 < |src| && src[i] == '/' && (src[i + 1] == '/' || src[i + 1] == '*')
    ensures i + 1 < |src| && src[i] == '/' && src[i + 1] == '/' ==>
              var nl := IndexFrom(src, '\n', i + 2); i + TokenLength(src[i..]) == if nl < 0 then |src| else nl
    ensures i + 1 < |src| && src[i] == '/' && src[i + 1] == '*' ==> TokenLength(src[i..]) == 2 + BlockRest(src[i + 2..])
    ensures src[i + TokenLength(src[i..])..] == src[i..][TokenLength(src[i..])..]
  {
  }

  /** What was put out so far, and what is left to come, are the stripped text. */
  ghost predicate Halfway(out: string, input: string, i: nat, inStr: Option<char>)
  {
    i <= |input| && out + StripRest(input[i..], inStr) == Strip(input)
  }

  lemma StringStepAt(out: string, input: string, i: nat, quote: char)
    requires Halfway(out, input, i, Some(quote)) && i < |input|
    ensures input[i] == '\\' && i + 1 < |input| ==>
              Halfway(out + [input[i]] + [input[i + 1]], input, i + 2, Some(quote))
    ensures !(input[i] == '\\' && i + 1 < |input|) ==>
              Halfway(out + [input[i]], input, i + 1, if input[i] == quote then None else Some(quote))
  {
    hide StripRest, Strip;
    var rest := input[i..];
    StringStep(rest, quote);
    assert rest[..1] == [input[i]] && rest[1..] == input[i + 1..];
    assert i + 1 < |input| ==> rest[..2] == [input[i]] + [input[i + 1]] && rest[2..] == input[i + 2..];
  }

  lemma CodeIsRest(s: string)
    ensures StripRest(s, None) == Strip(s)
  {
  }

  lemma CodeStepAt(out: string, input: string, i: nat)
    requires Halfway(out, input, i, None) && i < |input|
    ensures IsQuote(input[i]) ==> Halfway(out + [input[i]], input, i + 1, Some(input[i]))
    ensures IsComment(input[i..]) ==> Halfway(out, input, i + TokenLength(input[i..]), None)
    ensures !IsQuote(input[i]) && !IsComment(input[i..]) ==> Halfway(out + [input[i]], input, i + 1, None)
  {
    hide Strip, StripRest, TokenLength, IsComment, IsQuote;
    var rest := input[i..];
    CodeStep(rest);
    CodeIsRest(rest);
    CodeIsRest(rest[1..]);
    CodeIsRest(rest[TokenLength(rest)..]);
    assert rest[0] == input[i] && rest[..1] == [input[i]] && rest[1..] == input[i + 1..];
    assert rest[TokenLength(rest)..] == input[i + TokenLength(rest)..];
  }

  lemma HalfwayEnds(out: string, input: string, inStr: Option<char>)
    ensures Halfway(out, input, |input|, inStr) ==> out == Strip(input)
    ensures Halfway("", input, 0, None)
  {
  }

  /** The comment phase of `stripJsonc`. */
  method StripComments(text: string) returns (out: string)
    ensures out == Strip(WithoutBom(text))
  {
    hide Halfway, Strip, TokenLength, BlockRest, IndexFrom, IsComment;
    var input := WithoutBom(text);
    out := "";
    var i := 0;
    var inStr: Option<char> := None;
    HalfwayEnds(out, input, inStr);
    while i < |input|
      invariant i <= |input| && Halfway(out, input, i, inStr)
      decreases |input| - i
    {
      var c := input[i];
      if inStr.Some? {
        StringStepAt(out, input, i, inStr.value);
        out := out + [c];
        if c == '\\' && i + 1 < |input| {
          out := out + [input[i + 1]];
          i := i + 2;
          continue;
        }
        if c == inStr.value { inStr := None; }
        i := i + 1;
        continue;
      }
      CodeStepAt(out, input, i);
      CommentAt(input, i);
      if IsQuote(c) {
        inStr := Some(c);
        out := out + [c];
        i := i + 1;
        continue;
      }
      if c == '/' && i + 1 < |input| && input[i + 1] == '/' {
        var nl := IndexFrom(input, '\n', i + 2);
        i := if nl < 0 then |input| else nl;
        continue;
      }
      if c == '/' && i + 1 < |input| && input[i + 1] == '*' {
        i := i + 2 + BlockRest(input[i + 2..]);
        continue;
      }
      out := out + [c];
      i := i + 1;
    }
    HalfwayEnds(out, input, inStr);
  }

  // ----- finding a top-level key

  function Blanks(s: string): (n: nat)
    ensures n <= |s|
    ensures forall i :: 0 <= i < n ==> IsBlank(s[i])
    ensures n < |s| ==> !IsBlank(s[n])
  {
    if s == "" || !IsBlank(s[0]) then 0 else 1 + Blanks(s[1..])
  }

  function Quoted(key: string): string { ['"'] + key + ['"'] }

  /** How far the value is from where the key starts, if a text starts with the key and a colon. */
  function ValueOffset(s: string, key: string): Option<nat>
  {
    var n := |key| + 2;
    if !(Quoted(key) <= s) then None
    else
      var j := n + Blanks(s[n..]);
      if j < |s| && s[j] == ':' then Some(j + 1 + Blanks(s[j + 1..])) else None
  }

  function DepthAfter(s: string, depth: int): int
    requires s != ""
  {
    if s[0] == '{' || s[0] == '[' then depth + 1 else if s[0] == '}' || s[0] == ']' then depth - 1 else depth
  }

  /** Where the first key at depth one starts: token by token. */
  function FindKey(s: string, key: string, depth: int): (r: Option<nat>)
    ensures r.Some? ==> r.value < |s|
  {
    if s == "" then None
    else if depth == 1 && ValueOffset(s, key).Some? then Some(0)
    else
      match FindKey(s[TokenLength(s)..], key, DepthAfter(s, depth))
      case Some(i) => Some(TokenLength(s) + i)
      case None => None
  }

  /** The length of an unquoted value. */
  function PlainLength(s: string): (n: nat)
    ensures n <= |s|
  {
    if s == "" || s[0] in {',', '\n', '\r', '}'} || IsComment(s) then 0 else 1 + PlainLength(s[1..])
  }

  function ScalarLength(s: string): (n: nat)
    ensures n <= |s|
  {
    if s == "" then 0 else if IsQuote(s[0]) then TokenLength(s) else PlainLength(s)
  }

  datatype Location = Location(keyStart: nat, valueStart: nat, valueEnd: nat)

  function Locate(src: string, key: string): (r: Option<Location>)
    ensures r.Some? ==> r.value.keyStart < r.value.valueStart <= r.value.valueEnd <= |src|
  {
    match FindKey(src, key, 0)
    case None => None
    case Some(i) =>
      match ValueOffset(src[i..], key)
      case None => None
      case Some(offset) => Some(Location(i, i + offset, i + offset + ScalarLength(src[i + offset..])))
  }

  method SkipBlanks(src: string, start: nat) returns (i: nat)
    requires start <= |src|
    ensures i == start + Blanks(src[start..])
  {
    i := start;
    while i < |src| && IsBlank(src[i])
      invariant start <= i <= |src| && i + Blanks(src[i..]) == start + Blanks(src[start..])
    {
      assert src[i..][1..] == src[i + 1..];
      i := i + 1;
    }
  }

  /** From inside a string to just past its closing quote, or to the end. */
  method SkipString(src: string, start: nat, quote: char) returns (i: nat)
    requires start <= |src|
    ensures i == start + StringRest(src[start..], quote)
  {
    i := start;
    while i < |src|
      invariant start <= i <= |src| && i + StringRest(src[i..], quote) == start + StringRest(src[start..], quote)
    {
      var ch := src[i];
      assert src[i..][1..] == src[i + 1..] && (i + 1 < |src| ==> src[i..][2..] == src[i + 2..]);
      if ch == '\\' && i + 1 < |src| {
        i := i + 2;
        continue;
      }
      i := i + 1;
      if ch == quote { return; }
    }
  }

  method ScanScalarEnd(src: string, start: nat) returns (i: nat)
    requires start <= |src|
    ensures i == start + ScalarLength(src[start..])
  {
    hide StringRest;
    i := start;
    if i >= |src| { return; }
    var c := src[i];
    if IsQuote(c) {
      assert src[i..][1..] == src[i + 1..];
      CommentAt(src, i);
      i := SkipString(src, i + 1, c);
      return;
    }
    while i < |src|
      invariant start <= i <= |src| && i + PlainLength(src[i..]) == start + PlainLength(src[start..])
    {
      var ch := src[i];
      CommentAt(src, i);
      if ch == ',' || ch == '\n' || ch == '\r' || ch == '}' { return; }
      if ch == '/' && i + 1 < |src| && (src[i + 1] == '/' || src[i + 1] == '*') { return; }
      assert src[i..][1..] == src[i + 1..];
      i := i + 1;
    }
  }

  /** The first key from a position on, counted from the start of the text. */
  function FindFrom(src: string, i: nat, key: string, depth: int): Option<nat>
    requires i <= |src|
  {
    match FindKey(src[i..], key, depth)
    case Some(k) => Some(i + k)
    case None => None
  }

  lemma FindStep(src: string, i: nat, key: string, depth: int)
    requires i < |src|
    ensures var s := src[i..];
            FindFrom(src, i, key, depth)
            == if depth == 1 && ValueOffset(s, key).Some? then Some(i)
                else FindFrom(src, i + TokenLength(s), key, DepthAfter(s, depth))
  {
  }

  /** A text that starts with neither key nor comment, but with a line end, finds the same after it. */
  lemma LineEndStep(src: string, i: nat, key: string, depth: int)
    requires i < |src| && src[i] == '\n'
    ensures FindFrom(src, i, key, depth) == FindFrom(src, i + 1, key, depth)
  {
    hide FindFrom;
    FindStep(src, i, key, depth);
    CommentAt(src, i);
    assert src[i..][0] == '\n';
    assert ValueOffset(src[i..], key).None? by { assert Quoted(key)[0] == '"'; }
  }

  method FindTopLevelKey(src: string, key: string) returns (r: Option<Location>)
    ensures r == Locate(src, key)
  {
    hide TokenLength, FindKey, FindFrom, ScalarLength, IndexFrom, BlockRest, StringRest, ValueOffset, Locate, Blanks;
    var i, depth := 0, 0;
    assert src[0..] == src;
    while i < |src|
      invariant i <= |src|
      invariant FindFrom(src, i, key, depth) == FindFrom(src, 0, key, 0)
      decreases |src| - i
    {
      var c := src[i];
      FindStep(src, i, key, depth);
      CommentAt(src, i);
      assert src[i..][0] == c;
      if c != '"' { OffsetMissing(src, i, key); }
      if c == '/' && i + 1 < |src| && src[i + 1] == '/' {
        var nl := IndexFrom(src, '\n', i + 2);
        if nl >= 0 { LineEndStep(src, nl, key, depth); }
        i := if nl < 0 then |src| else nl + 1;
        continue;
      }
      if c == '/' && i + 1 < |src| && src[i + 1] == '*' {
        i := i + 2 + BlockRest(src[i + 2..]);
        continue;
      }
      if c == '{' || c == '[' {
        depth := depth + 1;
        TokenIsOne(src, i);
        i := i + 1;
        continue;
      }
      if c == '}' || c == ']' {
        depth := depth - 1;
        TokenIsOne(src, i);
        i := i + 1;
        continue;
      }
      if depth == 1 && c == '"' && Quoted(key) <= src[i..] {
        var j := SkipBlanks(src, i + |key| + 2);
        if j < |src| && src[j] == ':' {
          var valueStart := SkipBlanks(src, j + 1);
          OffsetFound(src, i, j, valueStart, key);
          LocateFound(src, key, i);
          var valueEnd := ScanScalarEnd(src, valueStart);
          return Some(Location(i, valueStart, valueEnd));
        }
      }
      if depth == 1 { OffsetMissing(src, i, key); }
      if IsQuote(c) {
        TokenIsString(src, i);
        i := SkipString(src, i + 1, c);
        continue;
      }
      TokenIsOne(src, i);
      i := i + 1;
    }
    NothingFound(src, key, depth);
    return None;
  }

  lemma TokenIsOne(src: string, i: nat)
    requires i < |src| && !IsComment(src[i..]) && !IsQuote(src[i])
    ensures TokenLength(src[i..]) == 1
  {
  }

  lemma TokenIsString(src: string, i: nat)
    requires i < |src| && IsQuote(src[i])
    ensures TokenLength(src[i..]) == 1 + StringRest(src[i + 1..], src[i])
  {
  }

  lemma OffsetFound(src: string, i: nat, j: nat, valueStart: nat, key: string)
    requires i < |src| && Quoted(key) <= src[i..]
    requires i + |key| + 2 <= |src| && j == i + |key| + 2 + Blanks(src[i + |key| + 2..])
    requires j < |src| && src[j] == ':' && valueStart == j + 1 + Blanks(src[j + 1..])
    ensures ValueOffset(src[i..], key) == Some(valueStart - i)
  {
    hide Blanks, Quoted;
    var s := src[i..];
    assert s[|key| + 2..] == src[i + |key| + 2..] && s[j - i + 1..] == src[j + 1..] && s[j - i] == src[j];
  }

  lemma OffsetMissing(src: string, i: nat, key: string)
    requires i < |src|
    requires src[i] == '"' && Quoted(key) <= src[i..] ==>
               var j := i + |key| + 2 + Blanks(src[i + |key| + 2..]); j >= |src| || src[j] != ':'
    ensures ValueOffset(src[i..], key).None?
  {
  }

  lemma LocateFound(src: string, key: string, i: nat)
    requires i < |src| && FindFrom(src, i, key, 1) == FindFrom(src, 0, key, 0) && ValueOffset(src[i..], key).Some?
    ensures var offset := ValueOffset(src[i..], key).value;
            Locate(src, key) == Some(Location(i, i + offset, i + offset + ScalarLength(src[i + offset..])))
  {
    hide ValueOffset, ScalarLength, TokenLength;
    assert src[0..] == src;
    FindStep(src, i, key, 1);
  }

  lemma NothingFound(src: string, key: string, depth: int)
    requires FindFrom(src, |src|, key, depth) == FindFrom(src, 0, key, 0)
    ensures Locate(src, key) == None
  {
  }

  // ----- values

  /** A number is known by its printed form. */
  datatype Value = Text(s: string) | Number(printed: string) | Flag(b: bool)

  const HEX := ['0', '1', '2', '3', '4', '5', '6', '7', '8', '9', 'a', 'b', 'c', 'd', 'e', 'f']

  /** One character of a JSON string, as section 7 of RFC 8259 lets it be written. */
  function EscapeChar(c: char): string
  {
    if c == '"' then ['\\', '"']
    else if c == '\\' then ['\\', '\\']
    else if c == '\U{8}' then "\\b"
    else if c == '\t' then "\\t"
    else if c == '\n' then "\\n"
    else if c == '\U{c}' then "\\f"
    else if c == '\r' then "\\r"
    else if c < ' ' then "\\u00" + [HEX[c as int / 16], HEX[c as int % 16]]
    else [c]
  }

  function Escaped(s: string): string
  {
    if s == "" then "" else EscapeChar(s[0]) + Escaped(s[1..])
  }

  /** `JSON.stringify` for strings, `String` for numbers and booleans */
  function Serialize(v: Value): string
  {
    match v
    case Text(s) => Quoted(Escaped(s))
    case Number(printed) => printed
    case Flag(b) => if b then "true" else "false"
  }

  // ----- reading a JSON string

  function HexDigit(c: char): Option<nat>
  {
    if '0' <= c <= '9' then Some((c - '0') as nat)
    else if 'a' <= c <= 'f' then Some((c - 'a') as nat + 10)
    else if 'A' <= c <= 'F' then Some((c - 'A') as nat + 10)
    else None
  }

  function HexNumber(s: string): Option<nat>
  {
    if s == "" then Some(0)
    else
      match (HexNumber(s[..|s| - 1]), HexDigit(s[|s| - 1]))
      case (Some(n), Some(d)) => Some(16 * n + d)
      case _ => None
  }

  /** What an escape stands for and how long it is; surrogates are left out. */
  function ReadEscape(s: string): Option<(char, nat)>
    requires s != "" && s[0] == '\\'
  {
    if |s| < 2 then None
    else if s[1] in {'"', '\\', '/'} then Some((s[1], 2))
    else if s[1] == 'b' then Some(('\U{8}', 2))
    else if s[1] == 't' then Some(('\t', 2))
    else if s[1] == 'n' then Some(('\n', 2))
    else if s[1] == 'f' then Some(('\U{c}', 2))
    else if s[1] == 'r' then Some(('\r', 2))
    else if s[1] == 'u' && |s| >= 6 then
      match HexNumber(s[2..6])
      case Some(n) => if n < 0xD800 then Some((n as char, 6)) else None
      case None => None
    else None
  }

  /** The text of a JSON string's inside. */
  function Unescape(s: string): Option<string>
  {
    if s == "" then Some("")
    else if s[0] == '\\' then
      match ReadEscape(s)
      case None => None
      case Some((c, n)) =>
        if n > |s| || n == 0 then None
        else
          match Unescape(s[n..])
          case Some(rest) => Some([c] + rest)
          case None => None
    else if s[0] == '"' || s[0] < ' ' then None
    else
      match Unescape(s[1..])
      case Some(rest) => Some([s[0]] + rest)
      case None => None
  }

  lemma ControlIsRead(c: char, rest: string)
    requires c < ' '
    ensures HexNumber((HexPair(c) + rest)[..4]) == Some(c as nat)
  {
    var a, b := HEX[c as int / 16], HEX[c as int % 16];
    var s := (HexPair(c) + rest)[..4];
    assert s == ['0', '0', a, b];
    assert s[..3] == ['0', '0', a] && s[..3][..2] == ['0', '0'] && s[..3][..2][..1] == ['0'];
    assert HexNumber(['0']) == Some(0) by { assert ['0'][..0] == ""; }
    assert HexNumber(['0', '0']) == Some(0);
    assert HexDigit(a) == Some(c as nat / 16) && HexDigit(b) == Some(c as nat % 16);
    assert HexNumber(['0', '0', a]) == Some(c as nat / 16);
  }

  function HexPair(c: char): string
    requires c < ' '
  {
    "00" + [HEX[c as int / 16], HEX[c as int % 16]]
  }

  lemma EscapeIsRead(c: char, rest: string)
    ensures Unescape(EscapeChar(c) + rest) == match Unescape(rest) case Some(r) => Some([c] + r) case None => None
  {
    hide HexNumber;
    var e := EscapeChar(c);
    var s := e + rest;
    assert s[|e|..] == rest && s[0] == e[0];
    if e[0] == '\\' {
      assert s[1] == e[1];
      if c < ' ' && |e| == 6 {
        assert s[2..6] == (HexPair(c) + rest)[..4];
        ControlIsRead(c, rest);
      }
      assert ReadEscape(s) == Some((c, |e|));
    }
  }

  /** Reading back what was written gives the string, whatever characters it has. */
  lemma {:induction false} UnescapeOfEscaped(s: string)
    ensures Unescape(Escaped(s)) == Some(s)
  {
    hide Unescape, EscapeChar;
    if s != "" {
      EscapeIsRead(s[0], Escaped(s[1..]));
      UnescapeOfEscaped(s[1..]);
      assert s == [s[0]] + s[1..];
    } else {
      NothingToRead();
    }
  }

  lemma NothingToRead()
    ensures Unescape("") == Some("")
  {
  }

  // ----- a serialized string is one token

  lemma EscapeIsInert(c: char, rest: string)
    requires rest != ""
    ensures StringRest(EscapeChar(c) + rest, '"') == |EscapeChar(c)| + StringRest(rest, '"')
  {
    var e := EscapeChar(c);
    var s := e + rest;
    assert s[0] == e[0] && s[|e|..] == rest;
    if |e| >= 2 {
      assert s[1] == e[1] && s[2..] == e[2..] + rest;
      if |e| == 6 { PlainIsInert(e[2..], rest, '"'); }
    }
  }

  /** Characters that neither close a string nor escape. */
  lemma {:induction false} PlainIsInert(plain: string, rest: string, quote: char)
    requires forall i :: 0 <= i < |plain| ==> plain[i] != quote && plain[i] != '\\'
    ensures StringRest(plain + rest, quote) == |plain| + StringRest(rest, quote)
  {
    if plain == "" {
      assert plain + rest == rest;
    } else {
      assert (plain + rest)[0] == plain[0] && (plain + rest)[1..] == plain[1..] + rest;
      PlainIsInert(plain[1..], rest, quote);
    }
  }

  lemma {:induction false} EscapedIsInert(s: string, rest: string)
    requires rest != ""
    ensures StringRest(Escaped(s) + rest, '"') == |Escaped(s)| + StringRest(rest, '"')
  {
    hide StringRest, EscapeChar;
    if s == "" {
      assert Escaped(s) + rest == rest;
    } else {
      EscapedIsInert(s[1..], rest);
      EscapeIsInert(s[0], Escaped(s[1..]) + rest);
      assert Escaped(s) + rest == EscapeChar(s[0]) + (Escaped(s[1..]) + rest);
    }
  }

  lemma QuotedToken(body: string, after: string)
    requires StringRest(body + (['"'] + after), '"') == |body| + StringRest(['"'] + after, '"')
    ensures TokenLength(Quoted(body) + after) == |Quoted(body)| && !IsComment(Quoted(body) + after)
  {
    var s := Quoted(body) + after;
    assert s[0] == '"' && s[1..] == body + (['"'] + after);
    assert (['"'] + after)[0] == '"';
  }

  /** A serialized string is one token, whatever follows it. */
  lemma TextIsToken(s: string, after: string)
    ensures TokenLength(Quoted(Escaped(s)) + after) == |Quoted(Escaped(s))| && !IsComment(Quoted(Escaped(s)) + after)
  {
    hide StringRest, TokenLength, Escaped, Quoted;
    EscapedIsInert(s, ['"'] + after);
    QuotedToken(Escaped(s), after);
  }

  // ----- tokens depend on nothing past them

  lemma {:induction false} StringRestLocal(s: string, t: string, quote: char)
    requires var n := StringRest(s, quote); n < |s| && n <= |t| && s[..n] == t[..n]
    ensures StringRest(t, quote) == StringRest(s, quote)
  {
    var n := StringRest(s, quote);
    if s != "" {
      assert forall i :: 0 <= i < n ==> s[i] == s[..n][i] == t[i];
      if s[0] == '\\' && |s| > 1 {
        assert s[2..][..n - 2] == s[..n][2..] && t[2..][..n - 2] == t[..n][2..];
        StringRestLocal(s[2..], t[2..], quote);
      } else if s[0] != quote {
        assert s[1..][..n - 1] == s[..n][1..] && t[1..][..n - 1] == t[..n][1..];
        StringRestLocal(s[1..], t[1..], quote);
      }
    }
  }

  lemma {:induction false} BlockRestLocal(s: string, t: string)
    requires var n := BlockRest(s); n < |s| && n <= |t| && s[..n] == t[..n]
    ensures BlockRest(t) == BlockRest(s)
  {
    var n := BlockRest(s);
    if s != "" {
      assert forall i :: 0 <= i < n ==> s[i] == s[..n][i] == t[i];
      if !("*/" <= s) {
        assert s[1..][..n - 1] == s[..n][1..] && t[1..][..n - 1] == t[..n][1..];
        BlockRestLocal(s[1..], t[1..]);
      }
    }
  }

  lemma LineRestLocal(s: string, t: string)
    requires var n := LineRest(s); n < |s| && n < |t| && s[..n + 1] == t[..n + 1]
    ensures LineRest(t) == LineRest(s)
  {
  }

  /** A token that does not end the text is the same in any text that agrees with it up to one character past it. */
  lemma TokenLocal(s: string, t: string)
    requires s != "" && t != ""
    requires var n := TokenLength(s); n < |s| && n < |t| && s[..n + 1] == t[..n + 1]
    ensures TokenLength(t) == TokenLength(s) && IsComment(t) == IsComment(s)
  {
    hide StringRest, BlockRest, LineRest;
    var n := TokenLength(s);
    assert forall i :: 0 <= i <= n ==> s[i] == s[..n + 1][i] == t[i];
    assert |s| > 1 && |t| > 1 && s[0] == t[0] && s[1] == t[1];
    TokenKinds(s);
    TokenKinds(t);
    if "//" <= s {
      assert s[2..][..n - 1] == s[..n + 1][2..] && t[2..][..n - 1] == t[..n + 1][2..];
      LineRestLocal(s[2..], t[2..]);
    } else if "/*" <= s {
      assert s[2..][..n - 2] == s[..n + 1][2..n] && t[2..][..n - 2] == t[..n + 1][2..n];
      BlockRestLocal(s[2..], t[2..]);
    } else if IsQuote(s[0]) {
      assert s[1..][..n - 1] == s[..n + 1][1..n] && t[1..][..n - 1] == t[..n + 1][1..n];
      StringRestLocal(s[1..], t[1..], s[0]);
    }
  }

  lemma TokenKinds(s: string)
    requires |s| > 1
    ensures "//" <= s <==> s[0] == '/' && s[1] == '/'
    ensures "/*" <= s <==> s[0] == '/' && s[1] == '*'
  {
  }

  // ----- finding is stable

  /** A colon that only blanks keep from the quoted key. */
  predicate ColonAt(s: string, key: string, c: nat)
  {
    Quoted(key) <= s && |key| + 2 <= c < |s| && s[c] == ':' && forall i :: |key| + 2 <= i < c ==> IsBlank(s[i])
  }

  lemma BlanksAre(s: string, n: nat)
    requires n < |s| && !IsBlank(s[n]) && forall i :: 0 <= i < n ==> IsBlank(s[i])
    ensures Blanks(s) == n
  {
    hide Blanks;
  }

  lemma OffsetOfColon(s: string, key: string, c: nat)
    requires ColonAt(s, key, c)
    ensures ValueOffset(s, key) == Some(c + 1 + Blanks(s[c + 1..]))
  {
  }

  lemma ColonOfOffset(s: string, key: string) returns (c: nat)
    requires ValueOffset(s, key).Some?
    ensures ColonAt(s, key, c) && c < ValueOffset(s, key).value <= |s|
    ensures forall i :: c < i < ValueOffset(s, key).value ==> IsBlank(s[i])
  {
    hide Blanks;
    var n := |key| + 2;
    c := n + Blanks(s[n..]);
    assert forall i :: n <= i < c ==> s[i] == s[n..][i - n];
    assert forall i :: c < i < ValueOffset(s, key).value ==> s[i] == s[c + 1..][i - (c + 1)];
  }

  lemma ColonShared(s: string, t: string, key: string, c: nat, m: nat)
    requires ColonAt(s, key, c) && c < m <= |s| && m <= |t| && s[..m] == t[..m]
    ensures ColonAt(t, key, c)
  {
  }

  /** A key that is not there cannot appear before one that is, when only what follows the latter's colon changes. */
  lemma NoEarlierKey(s: string, t: string, key: string, i: nat, c: nat, m: nat)
    requires i + c < m <= |s| && m <= |t| && s[..m] == t[..m]
    requires 0 < i && ColonAt(s[i..], key, c) && ValueOffset(s, key).None?
    ensures ValueOffset(t, key).None?
  {
    hide ValueOffset;
    if ValueOffset(t, key).Some? {
      var d := ColonOfOffset(t, key);
      assert s[i..][c] == s[i + c] == s[..m][i + c] == t[i + c];
      if d < m {
        ColonShared(t, s, key, d, m);
        OffsetOfColon(s, key, d);
      }
    }
  }

  /** The first key is found at the same place as long as the text up to its value is the same. */
  lemma {:induction false} FindLocal(s: string, t: string, key: string, depth: int, i: nat, c: nat, m: nat)
    requires FindKey(s, key, depth) == Some(i) && ColonAt(s[i..], key, c)
    requires i + c < m <= |s| && m <= |t| && s[..m] == t[..m]
    ensures FindKey(t, key, depth) == Some(i)
    decreases |s|
  {
    hide ValueOffset, TokenLength, Blanks, ColonAt, IsComment;
    if depth == 1 && ValueOffset(s, key).Some? {
      assert s[0..] == s;
      ColonShared(s, t, key, c, m);
      OffsetOfColon(t, key, c);
    } else {
      var n := TokenLength(s);
      PartsAgree(s, t, m, n + 1);
      PartsAgree(s, t, m, n);
      TokenLocal(s, t);
      if depth == 1 { NoEarlierKey(s, t, key, i, c, m); }
      assert s[n..][i - n..] == s[i..];
      FindLocal(s[n..], t[n..], key, DepthAfter(s, depth), i - n, c, m - n);
    }
  }

  lemma PartsAgree(s: string, t: string, m: nat, n: nat)
    requires n <= m <= |s| && m <= |t| && s[..m] == t[..m]
    ensures s[..n] == t[..n] && s[n..][..m - n] == t[n..][..m - n]
    ensures m > 0 ==> s[0] == t[0]
  {
    assert s[..n] == s[..m][..n] && t[..n] == t[..m][..n];
    assert s[n..][..m - n] == s[..m][n..] && t[n..][..m - n] == t[..m][n..];
    assert m > 0 ==> s[..m][0] == s[0] && t[..m][0] == t[0];
  }

  // ----- the patch

  /** The text with its value region replaced. */
  function Replaced(src: string, loc: Location, value: string): string
    requires loc.valueStart <= loc.valueEnd <= |src|
  {
    src[..loc.valueStart] + value + src[loc.valueEnd..]
  }

  /** The replacing branch of `patchTopLevelScalar`; `None` where the key is missing and a field is inserted instead.
      Whether the result is valid JSON once stripped is any predicate. */
  method ReplaceTopLevelScalar(source: string, key: string, value: Value, parses: string -> bool)
    returns (r: Result<Option<string>, string>)
    ensures r == match Locate(source, key)
                 case None => Success(None)
                 case Some(loc) =>
                   if parses(Strip(WithoutBom(Replaced(source, loc, Serialize(value))))) then
                       Success(Some(Replaced(source, loc, Serialize(value))))
                   else Failure(key)
  {
    hide Locate, Strip, WithoutBom;
    var found := FindTopLevelKey(source, key);
    if found.None? { return Success(None); }
    var before, after := source[..found.value.valueStart], source[found.value.valueEnd..];
    var result := before + Serialize(value) + after;
    var stripped := StripComments(result);
    if !parses(stripped) { return Failure(key); }
    return Success(Some(result));
  }

  /** What a located key comes with: the colon, and blanks up to the value. */
  lemma Located(src: string, key: string) returns (c: nat)
    requires Locate(src, key).Some?
    ensures var loc := Locate(src, key).value;
            && FindKey(src, key, 0) == Some(loc.keyStart) && ColonAt(src[loc.keyStart..], key, c)
            && loc.keyStart + c < loc.valueStart
               && (forall i :: loc.keyStart + c < i < loc.valueStart ==> IsBlank(src[i]))
            && (loc.valueStart < |src| ==> !IsBlank(src[loc.valueStart]))
            && loc.valueEnd == loc.valueStart + ScalarLength(src[loc.valueStart..])
  {
    hide FindKey, ColonAt, ScalarLength, Blanks;
    var loc := Locate(src, key).value;
    var s := src[loc.keyStart..];
    c := ColonOfOffset(s, key);
    OffsetOfColon(s, key, c);
    assert forall i :: loc.keyStart + c < i < loc.valueStart ==> src[i] == s[i - loc.keyStart];
    assert loc.valueStart < |src| ==> s[c + 1..][Blanks(s[c + 1..])] == src[loc.valueStart];
  }

  /** Any text that is the same up to the value, and has a value that does not start with a blank, has the key in the
      same place. */
  lemma LocateAgain(src: string, now: string, key: string)
    requires Locate(src, key).Some?
    requires var loc := Locate(src, key).value;
             loc.valueStart < |now| && src[..loc.valueStart] == now[..loc.valueStart] && !IsBlank(now[loc.valueStart])
    ensures var loc := Locate(src, key).value;
            Locate(now, key)
                == Some(Location(loc.keyStart, loc.valueStart, loc.valueStart + ScalarLength(now[loc.valueStart..])))
  {
    hide FindKey, ColonAt, ScalarLength, Blanks, ValueOffset;
    var loc := Locate(src, key).value;
    var k, m := loc.keyStart, loc.valueStart;
    var c := Located(src, key);
    FindLocal(src, now, key, 0, k, c, m);
    PartsAgree(src, now, m, k);
    ColonShared(src[k..], now[k..], key, c, m - k);
    OffsetOfColon(now[k..], key, c);
    forall i | k + c < i < m ensures IsBlank(now[i]) { assert now[i] == now[..m][i] == src[..m][i] == src[i]; }
    var rest := now[k..][c + 1..];
    assert forall i :: 0 <= i < m - k - c - 1 ==> rest[i] == now[k + c + 1 + i];
    assert rest[m - k - c - 1] == now[m];
    BlanksAre(rest, m - k - c - 1);
    assert now[k..][m - k..] == now[m..];
  }

  /** Put, then get: after a string was put, the key is found where it was, its region is exactly the serialized
      string, and that reads back as the string; nothing outside the region changed. This holds for every key. */
  lemma PutGet(src: string, key: string, value: string)
    requires Locate(src, key).Some?
    ensures var loc, text := Locate(src, key).value, Serialize(Text(value));
            var result := Replaced(src, loc, text);
            && Locate(result, key) == Some(Location(loc.keyStart, loc.valueStart, loc.valueStart + |text|))
            && result[loc.valueStart..loc.valueStart + |text|] == text
            && Unescape(text[1..|text| - 1]) == Some(value)
            && result[..loc.valueStart] == src[..loc.valueStart]
               && result[loc.valueStart + |text|..] == src[loc.valueEnd..]
  {
    hide Locate, Unescape, Escaped, TokenLength;
    var loc, text := Locate(src, key).value, Quoted(Escaped(value));
    var after := src[loc.valueEnd..];
    var result := Replaced(src, loc, text);
    assert result[loc.valueStart..] == text + after;
    assert result[..loc.valueStart] == src[..loc.valueStart];
    assert result[loc.valueStart] == text[0] == '"' == (text + after)[0];
    LocateAgain(src, result, key);
    TextIsToken(value, after);
    UnescapeOfEscaped(value);
    assert text[1..|text| - 1] == Escaped(value);
  }

  /** A second put erases the first. */
  lemma PutPut(src: string, key: string, first: string, second: Value)
    requires Locate(src, key).Some?
    ensures var loc := Locate(src, key).value;
            var once := Replaced(src, loc, Serialize(Text(first)));
            && Locate(once, key).Some?
            && Replaced(once, Locate(once, key).value, Serialize(second)) == Replaced(src, loc, Serialize(second))
  {
    hide Locate, Serialize;
    PutGet(src, key, first);
  }

  // ----- numbers and booleans

  /** What ends an unquoted value. */
  predicate EndsPlain(s: string) { s == "" || s[0] in {',', '\n', '\r', '}'} || IsComment(s) }

  /** The characters of a printed number or a boolean. */
  predicate IsPlainText(s: string)
  {
    s != "" && forall i :: 0 <= i < |s| ==> s[i] !in {',', '\n', '\r', '}', '/', '"', '\'', ' ', '\t'}
  }

  lemma {:induction false} PlainThrough(text: string, after: string)
    requires forall i :: 0 <= i < |text| ==> text[i] !in {',', '\n', '\r', '}', '/'}
    ensures PlainLength(text + after) == |text| + PlainLength(after)
  {
    if text == "" {
      assert text + after == after;
    } else {
      assert (text + after)[0] == text[0] && (text + after)[1..] == text[1..] + after;
      PlainThrough(text[1..], after);
    }
  }

  /** Where a number or boolean is found after it was put: in its place, and from there up to what ends an unquoted
      value. What stands between the old region and that end, if only blanks, is then taken for part of it. */
  lemma PlainIsFound(src: string, key: string, text: string)
    requires Locate(src, key).Some? && IsPlainText(text)
    ensures var loc := Locate(src, key).value;
            var end := loc.valueStart + |text| + PlainLength(src[loc.valueEnd..]);
            Locate(Replaced(src, loc, text), key) == Some(Location(loc.keyStart, loc.valueStart, end))
  {
    hide Locate, TokenLength;
    var loc := Locate(src, key).value;
    var after := src[loc.valueEnd..];
    var result := Replaced(src, loc, text);
    assert result[loc.valueStart..] == text + after;
    assert result[..loc.valueStart] == src[..loc.valueStart];
    assert result[loc.valueStart] == text[0] == (text + after)[0];
    LocateAgain(src, result, key);
    PlainThrough(text, after);
  }

  lemma NothingRunsOnIff(s: string)
    ensures PlainLength(s) == 0 <==> EndsPlain(s)
  {
  }

  /** So it is found again as it is exactly when what follows the old region ends an unquoted value: that is always
      so after an unquoted value, but not after a string with as much as a blank between its closing quote and the
      end. */
  lemma PutGetPlainIff(src: string, key: string, text: string)
    requires Locate(src, key).Some? && IsPlainText(text)
    ensures var loc := Locate(src, key).value;
            Locate(Replaced(src, loc, text), key)
            == Some(Location(loc.keyStart, loc.valueStart, loc.valueStart + |text|))
            <==> EndsPlain(src[loc.valueEnd..])
  {
    hide Locate, PlainLength;
    PlainIsFound(src, key, text);
    NothingRunsOnIff(src[Locate(src, key).value.valueEnd..]);
  }

  /** A boolean is put as the word for it, and found again as that word under the same condition. */
  lemma PutGetFlagIff(src: string, key: string, b: bool)
    requires Locate(src, key).Some?
    ensures var loc, word := Locate(src, key).value, if b then "true" else "false";
            var result := Replaced(src, loc, Serialize(Flag(b)));
            (&& Locate(result, key) == Some(Location(loc.keyStart, loc.valueStart, loc.valueStart + |word|))
             && result[loc.valueStart..loc.valueStart + |word|] == word)
            <==> EndsPlain(src[loc.valueEnd..])
  {
    hide Locate, EndsPlain;
    PutGetPlainIff(src, key, if b then "true" else "false");
  }

  /** A second put erases a number or boolean exactly under the same condition; otherwise it takes with it all that
      stood between the old region and the end. */
  lemma PutPutPlainIff(src: string, key: string, first: string, second: string)
    requires Locate(src, key).Some? && IsPlainText(first)
    ensures var loc := Locate(src, key).value;
            var once, after := Replaced(src, loc, first), src[loc.valueEnd..];
            && Locate(once, key).Some?
            && Replaced(once, Locate(once, key).value, second)
               == src[..loc.valueStart] + second + after[PlainLength(after)..]
            && (Replaced(once, Locate(once, key).value, second) == Replaced(src, loc, second) <==> EndsPlain(after))
  {
    hide Locate, PlainLength;
    PlainIsFound(src, key, first);
    var loc := Locate(src, key).value;
    var once, after := Replaced(src, loc, first), src[loc.valueEnd..];
    NothingRunsOnIff(after);
    assert once[..loc.valueStart] == src[..loc.valueStart];
    assert once[loc.valueStart + |first| + PlainLength(after)..] == after[PlainLength(after)..];
    if PlainLength(after) != 0 {
      assert |src[..loc.valueStart] + second + after[PlainLength(after)..]| < |Replaced(src, loc, second)|;
    } else {
      assert after[0..] == after;
    }
  }

  /** A blank after a string is enough: the number put for it is found with the blank. */
  lemma BlankRunsOn()
    ensures var src := "{\"k\":\"x\" }";
            && Locate(src, "k") == Some(Location(1, 5, 8)) && Replaced(src, Location(1, 5, 8), "5") == "{\"k\":5 }"
            && Locate("{\"k\":5 }", "k") == Some(Location(1, 5, 7))
  {
    hide Locate, ScalarLength, PlainLength;
    var src := "{\"k\":\"x\" }";
    OneField(src);
    ShortLengths();
    assert src[5..] == "\"x\" }" && src[..5] == "{\"k\":" && src[8..] == " }";
    assert Replaced(src, Location(1, 5, 8), "5") == "{\"k\":5 }";
    PlainIsFound(src, "k", "5");
  }

  lemma ShortLengths()
    ensures ScalarLength("\"x\" }") == 3 && PlainLength(" }") == 1
  {
    assert "\"x\" }"[1..] == "x\" }" && "x\" }"[1..] == "\" }" && " }"[1..] == "}";
    assert StringRest("\" }", '"') == 1;
  }

  lemma OneField(src: string)
    requires "{\"k\":" <= src && |src| > 5 && !IsBlank(src[5])
    ensures Locate(src, "k") == Some(Location(1, 5, 5 + ScalarLength(src[5..])))
  {
    hide ScalarLength;
    assert src[0] == '{' && TokenLength(src) == 1;
    var rest := src[1..];
    assert Quoted("k") <= rest && rest[3] == ':' && rest[4] == src[5];
    assert rest[3..][0] == ':' && rest[4..][0] == src[5];
    assert ValueOffset(rest, "k") == Some(4);
    assert ValueOffset(src, "k").None?;
    assert FindKey(rest, "k", 1) == Some(0);
    assert FindKey(src, "k", 0) == Some(1);
  }

  lemma {:induction false} PlainEnds(s: string)
    ensures EndsPlain(s[PlainLength(s)..])
  {
    if PlainLength(s) > 0 {
      assert s[1..][PlainLength(s[1..])..] == s[PlainLength(s)..];
      PlainEnds(s[1..]);
    }
  }

  /** After an unquoted value, a number or boolean can be put and found again. */
  lemma PlainCanBeReplaced(src: string, key: string)
    requires Locate(src, key).Some?
    requires var loc := Locate(src, key).value; loc.valueStart == |src| || !IsQuote(src[loc.valueStart])
    ensures EndsPlain(src[Locate(src, key).value.valueEnd..])
  {
    hide Locate, TokenLength, PlainLength, EndsPlain, FindKey, ColonAt, ValueOffset, Blanks;
    var loc := Locate(src, key).value;
    var c := Located(src, key);
    var rest := src[loc.valueStart..];
    PlainEnds(rest);
    assert rest != "" ==> rest[0] == src[loc.valueStart];
    assert rest[loc.valueEnd - loc.valueStart..] == src[loc.valueEnd..];
    PlainOfNothing();
  }

  lemma PlainOfNothing()
    ensures PlainLength("") == 0
  {
  }

  // ----- the two scanners agree

  lemma {:induction false} StringRestTruncated(s: string, quote: char, m: nat)
    requires StringRest(s, quote) <= m <= |s|
    ensures StringRest(s[..m], quote) == StringRest(s, quote)
  {
    if s != "" && m > 0 {
      assert s[..m][0] == s[0];
      if s[0] == '\\' && |s| > 1 {
        assert s[..m][2..] == s[2..][..m - 2];
        StringRestTruncated(s[2..], quote, m - 2);
      } else if s[0] != quote {
        assert s[..m][1..] == s[1..][..m - 1];
        StringRestTruncated(s[1..], quote, m - 1);
      }
    }
  }

  lemma {:induction false} BlockRestTruncated(s: string, m: nat)
    requires BlockRest(s) <= m <= |s|
    ensures BlockRest(s[..m]) == BlockRest(s)
  {
    if s != "" && m > 0 {
      assert s[..m][0] == s[0] && (m > 1 ==> s[..m][1] == s[1]);
      if !("*/" <= s) {
        assert s[..m][1..] == s[1..][..m - 1];
        BlockRestTruncated(s[1..], m - 1);
      }
    }
  }

  lemma LineRestTruncated(s: string, m: nat)
    requires LineRest(s) <= m <= |s|
    ensures LineRest(s[..m]) == LineRest(s)
  {
  }

  /** A token is the same when the text ends anywhere past it. */
  lemma TokenTruncated(s: string, m: nat)
    requires s != "" && TokenLength(s) <= m <= |s|
    ensures TokenLength(s[..m]) == TokenLength(s) && IsComment(s[..m]) == IsComment(s)
  {
    hide StringRest, BlockRest, LineRest;
    var t := s[..m];
    assert t[0] == s[0] && (m > 1 ==> t[1] == s[1]);
    if "//" <= s {
      assert t[2..] == s[2..][..m - 2];
      LineRestTruncated(s[2..], m - 2);
    } else if "/*" <= s {
      assert t[2..] == s[2..][..m - 2];
      BlockRestTruncated(s[2..], m - 2);
    } else if IsQuote(s[0]) {
      assert t[1..] == s[1..][..m - 1];
      StringRestTruncated(s[1..], s[0], m - 1);
    }
  }

  /** A position between two tokens. */
  predicate Boundary(s: string, k: nat)
    decreases |s|
  {
    k == 0 || (s != "" && TokenLength(s) <= k && Boundary(s[TokenLength(s)..], k - TokenLength(s)))
  }

  /** Comments are stripped before a boundary as if the text ended there, and after it as if it began there. */
  lemma {:induction false} StripAtBoundary(s: string, k: nat)
    requires Boundary(s, k) && k <= |s|
    ensures Strip(s) == Strip(s[..k]) + Strip(s[k..])
    decreases |s|
  {
    hide TokenLength, IsComment, Strip;
    if k == 0 {
      StripOfNothing(s);
    } else {
      var n := TokenLength(s);
      TokenTruncated(s, k);
      StripAtBoundary(s[n..], k - n);
      SliceTwice(s, n, k);
      StripStep(s);
      StripStep(s[..k]);
      Grouped(if IsComment(s) then "" else s[..n], Strip(s[..k][n..]), Strip(s[k..]));
    }
  }

  lemma StripOfNothing(s: string)
    ensures Strip(s) == Strip(s[..0]) + Strip(s[0..])
  {
  }

  lemma SliceTwice(s: string, n: nat, k: nat)
    requires n <= k <= |s|
    ensures s[n..][..k - n] == s[..k][n..] && s[n..][k - n..] == s[k..] && s[..k][..n] == s[..n]
  {
  }

  lemma Grouped(a: string, b: string, c: string)
    ensures a + (b + c) == a + b + c
  {
  }

  lemma {:induction false} BoundaryExtends(s: string, k: nat, n: nat)
    requires k < |s| && Boundary(s, k) && n == TokenLength(s[k..])
    ensures Boundary(s, k + n)
    decreases |s|
  {
    hide TokenLength;
    if k == 0 {
      assert s[0..] == s;
    } else {
      var m := TokenLength(s);
      assert s[m..][k - m..] == s[k..];
      BoundaryExtends(s[m..], k - m, n);
    }
  }

  /** The key scan only ever stops between tokens, where the comment stripper is outside strings and comments too. */
  lemma {:induction false} KeyIsBoundary(s: string, key: string, depth: int)
    requires FindKey(s, key, depth).Some?
    ensures Boundary(s, FindKey(s, key, depth).value)
    decreases |s|
  {
    hide TokenLength, ValueOffset;
    if !(depth == 1 && ValueOffset(s, key).Some?) {
      KeyIsBoundary(s[TokenLength(s)..], key, DepthAfter(s, depth));
    }
  }

  /** A key whose quoted form is one token. */
  predicate IsPlainKey(key: string) { forall i :: 0 <= i < |key| ==> key[i] != '"' && key[i] != '\\' }

  lemma KeyIsToken(s: string, key: string)
    requires IsPlainKey(key) && Quoted(key) <= s
    ensures TokenLength(s) == |key| + 2
  {
    var after := s[|key| + 2..];
    assert s == Quoted(key) + after;
    PlainIsInert(key, ['"'] + after, '"');
    QuotedToken(key, after);
  }

  lemma {:induction false} SeparatorsExtend(s: string, k: nat, end: nat)
    requires k <= end <= |s| && Boundary(s, k) && forall i :: k <= i < end ==> IsBlank(s[i]) || s[i] == ':'
    ensures Boundary(s, end)
    decreases end - k
  {
    hide Boundary;
    if k < end {
      var rest := s[k..];
      assert rest[0] == s[k];
      BoundaryExtends(s, k, 1) by { assert TokenLength(rest) == 1; }
      SeparatorsExtend(s, k + 1, end);
    }
  }

  lemma ValueIsBoundary(src: string, key: string)
    requires Locate(src, key).Some? && IsPlainKey(key)
    ensures Boundary(src, Locate(src, key).value.valueStart)
  {
    hide Boundary, FindKey, Blanks, TokenLength, ScalarLength;
    var loc := Locate(src, key).value;
    var c := Located(src, key);
    var s := src[loc.keyStart..];
    KeyIsBoundary(src, key, 0);
    KeyIsToken(s, key);
    BoundaryExtends(src, loc.keyStart, |key| + 2);
    forall i | loc.keyStart + |key| + 2 <= i < loc.valueStart ensures IsBlank(src[i]) || src[i] == ':' {
      assert i - loc.keyStart < |s| ==> src[i] == s[i - loc.keyStart];
    }
    SeparatorsExtend(src, loc.keyStart + |key| + 2, loc.valueStart);
  }

  /** `stripJsonc`'s comment phase: a byte order mark is dropped at the start of the text only. */
  function StripJsonc(src: string): string { Strip(WithoutBom(src)) }

  lemma BomAtBoundary(s: string, k: nat)
    requires Boundary(s, k) && 0 < k <= |s|
    ensures StripJsonc(s) == StripJsonc(s[..k]) + Strip(s[k..])
  {
    hide TokenLength, Strip;
    assert s[..k][0] == s[0];
    if s[0] == '\U{FEFF}' {
      BomIsToken(s);
      StripAtBoundary(s[1..], k - 1);
      assert s[1..][..k - 1] == s[..k][1..] && s[1..][k - 1..] == s[k..];
    } else {
      StripAtBoundary(s, k);
    }
  }

  lemma BomIsToken(s: string)
    requires s != "" && s[0] == '\U{FEFF}'
    ensures TokenLength(s) == 1
  {
  }

  /** Stripping the comments of the patched text gives what comes before the value, stripped, the value, and what
      comes after it, stripped. */
  lemma StripOfPatched(src: string, key: string, value: string)
    requires Locate(src, key).Some? && IsPlainKey(key)
    ensures var loc, text := Locate(src, key).value, Serialize(Text(value));
            StripJsonc(Replaced(src, loc, text))
                == StripJsonc(src[..loc.valueStart]) + text + Strip(src[loc.valueEnd..])
  {
    hide Locate, Strip, StripJsonc, Boundary, TokenLength, Escaped, IsComment;
    var loc, text := Locate(src, key).value, Quoted(Escaped(value));
    var result, after := Replaced(src, loc, text), src[loc.valueEnd..];
    PutGet(src, key, value);
    ValueIsBoundary(result, key);
    BomAtBoundary(result, loc.valueStart);
    assert result[loc.valueStart..] == text + after && result[..loc.valueStart] == src[..loc.valueStart];
    TextIsToken(value, after);
    StripStep(text + after);
    assert (text + after)[..|text|] == text && (text + after)[|text|..] == after;
    assert StripJsonc(src[..loc.valueStart]) + (text + Strip(after))
        == StripJsonc(src[..loc.valueStart]) + text + Strip(after);
  }

  /** A value as JSON has them: one string, or no quote in it. */
  predicate IsScalarText(region: string) {
    region == "" || IsQuote(region[0]) || forall i :: 0 <= i < |region| ==> !IsQuote(region[i])
  }

  lemma {:induction false} StripPlain(s: string)
    requires forall i :: 0 <= i < PlainLength(s) ==> !IsQuote(s[i])
    ensures Strip(s) == s[..PlainLength(s)] + Strip(s[PlainLength(s)..])
  {
    hide Strip;
    var n := PlainLength(s);
    if n == 0 {
      assert s[..0] == "" && s[0..] == s && "" + Strip(s) == Strip(s);
    } else {
      CodeStep(s);
      assert forall i :: 0 <= i < n - 1 ==> s[1..][i] == s[i + 1];
      StripPlain(s[1..]);
      TakenInTwo(s, 1, n - 1, Strip(s[n..]));
    }
  }

  /** The text before the patch strips to the same with its own value in the middle: the patch changes only the
      value. */
  lemma StripOfSource(src: string, key: string)
    requires Locate(src, key).Some? && IsPlainKey(key)
    requires var loc := Locate(src, key).value; IsScalarText(src[loc.valueStart..loc.valueEnd])
    ensures var loc := Locate(src, key).value;
            StripJsonc(src)
                == StripJsonc(src[..loc.valueStart]) + src[loc.valueStart..loc.valueEnd] + Strip(src[loc.valueEnd..])
  {
    hide Locate, Strip, StripJsonc, Boundary, TokenLength, PlainLength;
    var loc := Locate(src, key).value;
    var c := Located(src, key);
    var rest, n := src[loc.valueStart..], loc.valueEnd - loc.valueStart;
    var region := src[loc.valueStart..loc.valueEnd];
    ValueIsBoundary(src, key);
    BomAtBoundary(src, loc.valueStart);
    assert rest[..n] == region && rest[n..] == src[loc.valueEnd..];
    if rest != "" && IsQuote(rest[0]) {
      StripStep(rest);
    } else {
      assert forall i :: 0 <= i < n ==> rest[i] == region[i];
      PlainOfNothing();
      StripPlain(rest);
    }
    assert StripJsonc(src[..loc.valueStart]) + (region + Strip(rest[n..]))
        == StripJsonc(src[..loc.valueStart]) + region + Strip(rest[n..]);
  }
}
