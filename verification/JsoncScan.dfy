/** What the patcher finds in a JSONC text, and what is left without its comments, said of the positions in the text. */
module JsoncScan {
  import opened Wrappers
  import opened Sorting
  import opened JsoncPatch

  // ----- tokens, by where they end

  /** These two characters stand there. */
  ghost predicate Pair(src: string, i: int, a: char, b: char) { 0 <= i < |src| - 1 && src[i] == a && src[i + 1] == b }

  /** How many backslashes stand right before a position. */
  ghost function Backslashes(src: string, from: nat, k: nat): nat
    requires k <= |src|
  {
    if from < k && src[k - 1] == '\\' then 1 + Backslashes(src, from, k - 1) else 0
  }

  /** The quote that opened a string stands there again, after an even number of backslashes. */
  ghost predicate Closes(src: string, i: nat, k: nat)
  {
    i < k < |src| && src[k] == src[i] && Backslashes(src, i + 1, k) % 2 == 0
  }

  ghost predicate OpensComment(src: string, i: nat) { Pair(src, i, '/', '/') || Pair(src, i, '/', '*') }

  /** What starts at a position outside strings and comments ends there: a line comment before its line end, a block
      comment after the first end mark, a string after its closing quote, all at the end of the text if that is missing;
      anything else after one character. */
  ghost predicate TokenEnds(src: string, i: nat, e: nat)
  {
    && i < e <= |src|
    && if Pair(src, i, '/', '/') then LineEnds(src, i, e)
       else if Pair(src, i, '/', '*') then BlockEnds(src, i, e)
       else if src[i] == '"' || src[i] == '\'' then StringEnds(src, i, e)
       else e == i + 1
  }

  ghost predicate LineEnds(src: string, i: nat, e: nat)
  {
    e <= |src| && (e == |src| || src[e] == '\n') && forall k :: i <= k < e ==> src[k] != '\n'
  }

  ghost predicate BlockEnds(src: string, i: nat, e: nat)
  {
    if exists k :: i + 2 <= k && Pair(src, k, '*', '/')
    then i + 4 <= e && Pair(src, e - 2, '*', '/') && forall k :: i + 2 <= k < e - 2 ==> !Pair(src, k, '*', '/')
    else e == |src|
  }

  ghost predicate StringEnds(src: string, i: nat, e: nat)
  {
    if exists k: nat :: Closes(src, i, k)
    then e > 0 && Closes(src, i, e - 1) && forall k: nat :: Closes(src, i, k) ==> e <= k + 1
    else e == |src|
  }

  lemma OneMoreBackslash(src: string, from: nat, k: nat)
    requires from <= k < |src|
    ensures Backslashes(src, from, k + 1) == if src[k] == '\\' then 1 + Backslashes(src, from, k) else 0
  {
  }

  lemma StringClosed(src: string, i: nat, k: nat)
    requires Closes(src, i, k) && forall j: nat :: i < j < k ==> !Closes(src, i, j)
    ensures StringEnds(src, i, k + 1)
  {
    hide Backslashes;
  }

  lemma StringOpen(src: string, i: nat)
    requires forall j: nat :: i < j < |src| ==> !Closes(src, i, j)
    ensures StringEnds(src, i, |src|)
  {
    hide Backslashes;
  }

  lemma {:induction false} StringRestEnds(src: string, i: nat, k: nat)
    requires i < k <= |src| && src[i] != '\\' && Backslashes(src, i + 1, k) % 2 == 0
    requires forall j: nat :: i < j < k ==> !Closes(src, i, j)
    ensures StringEnds(src, i, k + StringRest(src[k..], src[i]))
    decreases |src| - k
  {
    hide Backslashes, StringEnds;
    var s := src[k..];
    if k == |src| {
      StringOpen(src, i);
    } else {
      OneMoreBackslash(src, i + 1, k);
      if s[0] == '\\' && |s| > 1 {
        assert s[2..] == src[k + 2..];
        OneMoreBackslash(src, i + 1, k + 1);
        StringRestEnds(src, i, k + 2);
      } else if s[0] == src[i] {
        StringClosed(src, i, k);
      } else {
        assert s[1..] == src[k + 1..];
        if s[0] == '\\' { StringOpen(src, i); } else { StringRestEnds(src, i, k + 1); }
      }
    }
  }

  lemma {:induction false} BlockRestEnds(src: string, i: nat, k: nat)
    requires i + 2 <= k <= |src|
    requires forall j :: i + 2 <= j < k ==> !Pair(src, j, '*', '/')
    ensures BlockEnds(src, i, k + BlockRest(src[k..]))
    decreases |src| - k
  {
    var s := src[k..];
    if k < |src| {
      assert "*/" <= s <==> Pair(src, k, '*', '/');
      if !("*/" <= s) {
        assert s[1..] == src[k + 1..];
        BlockRestEnds(src, i, k + 1);
      }
    }
  }

  lemma LineRestEnds(src: string, i: nat)
    requires Pair(src, i, '/', '/')
    ensures LineEnds(src, i, i + 2 + LineRest(src[i + 2..]))
  {
    var s, n := src[i + 2..], LineRest(src[i + 2..]);
    assert forall k :: i + 2 <= k < i + 2 + n ==> src[k] == s[k - i - 2] == s[..n][k - i - 2];
  }

  /** Every token ends in one place. */
  lemma OneTokenEnd(src: string, i: nat, a: nat, b: nat)
    requires TokenEnds(src, i, a) && TokenEnds(src, i, b)
    ensures a == b
  {
  }

  lemma TokenIff(src: string, i: nat, e: nat)
    requires i < |src|
    ensures TokenEnds(src, i, e) <==> e == i + TokenLength(src[i..])
    ensures OpensComment(src, i) <==> IsComment(src[i..])
  {
    hide BlockRest, StringRest, LineRest, BlockEnds, StringEnds, LineEnds;
    var s := src[i..];
    assert s[0] == src[i] && (|s| > 1 ==> s[1] == src[i + 1]);
    assert "//" <= s <==> Pair(src, i, '/', '/');
    assert "/*" <= s <==> Pair(src, i, '/', '*');
    var end := i + TokenLength(s);
    if "//" <= s {
      assert s[2..] == src[i + 2..];
      LineRestEnds(src, i);
    } else if "/*" <= s {
      assert s[2..] == src[i + 2..];
      BlockRestEnds(src, i, i + 2);
    } else if IsQuote(s[0]) {
      assert s[1..] == src[i + 1..];
      StringRestEnds(src, i, i + 1);
    }
    assert TokenEnds(src, i, end);
    if TokenEnds(src, i, e) { OneTokenEnd(src, i, e, end); }
  }

  /** A text cut into its tokens. */
  ghost predicate AreCuts(src: string, cuts: seq<nat>)
  {
    && cuts != [] && cuts[0] == 0 && cuts[|cuts| - 1] == |src|
    && forall m :: 0 <= m < |cuts| - 1 ==> TokenEnds(src, cuts[m], cuts[m + 1])
  }

  lemma {:induction false} CutsFrom(src: string, i: nat) returns (cuts: seq<nat>)
    requires i <= |src|
    ensures cuts != [] && cuts[0] == i && cuts[|cuts| - 1] == |src|
    ensures forall m :: 0 <= m < |cuts| - 1 ==> TokenEnds(src, cuts[m], cuts[m + 1])
    decreases |src| - i
  {
    hide TokenEnds, TokenLength;
    cuts := [i];
    if i < |src| {
      var e := i + TokenLength(src[i..]);
      TokenIff(src, i, e);
      var rest := CutsFrom(src, e);
      cuts := cuts + rest;
    }
  }

  /** Every text can be cut into its tokens, in one way. */
  lemma CutsExist(src: string) returns (cuts: seq<nat>)
    ensures AreCuts(src, cuts)
    ensures forall others :: AreCuts(src, others) ==> others == cuts
  {
    hide TokenEnds;
    cuts := CutsFrom(src, 0);
    forall others | AreCuts(src, others) ensures others == cuts { CutsAreOne(src, cuts, others, 0); }
  }

  lemma {:induction false} CutsAreOne(src: string, a: seq<nat>, b: seq<nat>, m: nat)
    requires AreCuts(src, a) && AreCuts(src, b) && m < |a| && m < |b| && a[..m + 1] == b[..m + 1]
    ensures a == b
    decreases |a| - m
  {
    hide TokenEnds;
    assert a[m] == a[..m + 1][m] == b[..m + 1][m] == b[m];
    if m < |a| - 1 { StartsInside(src, a[m], a[m + 1]); }
    if m < |b| - 1 { StartsInside(src, b[m], b[m + 1]); }
    if m < |a| - 1 && m < |b| - 1 {
      OneTokenEnd(src, a[m], a[m + 1], b[m + 1]);
      assert a[..m + 2] == a[..m + 1] + [a[m + 1]] && b[..m + 2] == b[..m + 1] + [b[m + 1]];
      CutsAreOne(src, a, b, m + 1);
    } else {
      assert a == a[..m + 1] && b == b[..m + 1];
    }
  }

  lemma StartsInside(src: string, i: nat, e: nat)
    requires TokenEnds(src, i, e)
    ensures i < e <= |src|
  {
  }

  // ----- what is found

  /** The brackets among the first tokens. */
  ghost function Opening(src: string, cuts: seq<nat>, m: nat): set<nat>
    requires AreCuts(src, cuts) && m < |cuts|
  {
    set l: nat | l < m && Bracket(src, cuts[l], '{', '[')
  }

  ghost function Closing(src: string, cuts: seq<nat>, m: nat): set<nat>
    requires AreCuts(src, cuts) && m < |cuts|
  {
    set l: nat | l < m && Bracket(src, cuts[l], '}', ']')
  }

  ghost predicate Bracket(src: string, i: nat, a: char, b: char) { i < |src| && (src[i] == a || src[i] == b) }

  /** How deep a token is nested. */
  ghost function Depth(src: string, cuts: seq<nat>, m: nat): int
    requires AreCuts(src, cuts) && m < |cuts|
  {
    |Opening(src, cuts, m)| - |Closing(src, cuts, m)|
  }

  ghost predicate AreBlanks(src: string, i: nat, j: nat)
  {
    i <= j <= |src| && forall k :: i <= k < j ==> src[k] == ' ' || src[k] == '\t'
  }

  /** The quoted key stands there, then a colon, with nothing but blanks between and up to the value. */
  ghost predicate KeyStands(src: string, i: nat, key: string, value: nat)
  {
    var after := i + 1 + |key| + 1;
    && after <= |src| && src[i] == '"' && src[i + 1..after - 1] == key && src[after - 1] == '"'
    && exists colon :: ColonStands(src, after, colon, value)
  }

  ghost predicate ColonStands(src: string, after: nat, colon: nat, value: nat)
  {
    && AreBlanks(src, after, colon) && colon < |src| && src[colon] == ':' && AreBlanks(src, colon + 1, value)
    && (value == |src| || (src[value] != ' ' && src[value] != '\t'))
  }

  /** Something else must follow a value without quotes here. */
  ghost predicate Stops(src: string, e: nat)
  {
    e >= |src| || src[e] == ',' || src[e] == '\n' || src[e] == '\r' || src[e] == '}' || OpensComment(src, e)
  }

  /** The value ends there: a string as a token, any other one at the first character that cannot be part of it. */
  ghost predicate ValueEnds(src: string, v: nat, e: nat)
  {
    if v < |src| && (src[v] == '"' || src[v] == '\'') then TokenEnds(src, v, e)
    else v <= e <= |src| && Stops(src, e) && forall k :: v <= k < e ==> !Stops(src, k)
  }

  ghost predicate IsEnd(src: string, loc: Location) { ValueEnds(src, loc.valueStart, loc.valueEnd) }

  /** The key stands at this token, which is at depth one, and at no earlier one. */
  ghost predicate FirstKey(src: string, cuts: seq<nat>, key: string, m: nat, value: nat)
    requires AreCuts(src, cuts)
  {
    && m < |cuts| - 1 && Depth(src, cuts, m) == 1 && KeyStands(src, cuts[m], key, value)
    && forall l: nat :: l < m && Depth(src, cuts, l) == 1 ==> !SomewhereStands(src, cuts[l], key)
  }

  ghost predicate SomewhereStands(src: string, i: nat, key: string) { exists value :: KeyStands(src, i, key, value) }

  lemma BlanksEnd(src: string, i: nat, j: nat)
    requires i <= |src|
    ensures AreBlanks(src, i, j) && (j == |src| || (src[j] != ' ' && src[j] != '\t')) <==> j == i + Blanks(src[i..])
  {
    hide Blanks;
    var s, n := src[i..], Blanks(src[i..]);
    assert forall k :: i <= k < |src| ==> src[k] == s[k - i];
    if AreBlanks(src, i, j) && j < i + n { assert IsBlank(s[j - i]); }
    assert forall k :: i <= k < i + n ==> src[k] == s[k - i] && IsBlank(src[k]);
    if n < |s| { assert !IsBlank(s[n]) && s[n] == src[i + n]; }
  }

  lemma ColonIff(src: string, after: nat, value: nat)
    requires after <= |src|
    ensures (exists colon :: ColonStands(src, after, colon, value))
            <==> var c := after + Blanks(src[after..]);
                 c < |src| && src[c] == ':' && value == c + 1 + Blanks(src[c + 1..])
  {
    hide AreBlanks, Blanks;
    var c := after + Blanks(src[after..]);
    BlanksEnd(src, after, c);
    forall colon: nat | AreBlanks(src, after, colon) && colon < |src| && src[colon] == ':' ensures colon == c {
      BlanksEnd(src, after, colon);
    }
    if c < |src| {
      BlanksEnd(src, c + 1, value);
      if src[c] == ':' && value == c + 1 + Blanks(src[c + 1..]) { assert ColonStands(src, after, c, value); }
    }
  }

  lemma StandsIff(src: string, i: nat, key: string, value: nat)
    requires i <= |src|
    ensures KeyStands(src, i, key, value) <==> i < value && ValueOffset(src[i..], key) == Some(value - i)
  {
    hide ColonStands, Blanks, Quoted;
    var s, after := src[i..], i + 1 + |key| + 1;
    QuotedIff(src, i, key);
    if after <= |src| {
      assert s[|key| + 2..] == src[after..];
      var colon := after + Blanks(src[after..]);
      ColonIff(src, after, value);
      if colon < |src| { assert s[colon + 1 - i..] == src[colon + 1..]; }
    }
  }

  lemma QuotedIff(src: string, i: nat, key: string)
    requires i <= |src|
    ensures var after := i + 1 + |key| + 1;
            Quoted(key) <= src[i..]
            <==> after <= |src| && src[i] == '"' && src[i + 1..after - 1] == key && src[after - 1] == '"'
  {
    var after, q := i + 1 + |key| + 1, Quoted(key);
    assert |q| == |key| + 2 && q[1..|key| + 1] == key;
    if after <= |src| {
      assert src[i..][..|q|] == src[i..after];
      if src[i] == '"' && src[i + 1..after - 1] == key && src[after - 1] == '"' {
        assert src[i..after] == [src[i]] + src[i + 1..after - 1] + [src[after - 1]];
      }
      if q <= src[i..] {
        assert q == src[i..after];
        assert src[i + 1..after - 1] == q[1..|key| + 1];
      }
    }
  }

  lemma {:induction false} PlainEndsAt(src: string, v: nat)
    requires v <= |src|
    ensures var e := v + PlainLength(src[v..]); Stops(src, e) && forall k :: v <= k < e ==> !Stops(src, k)
    decreases |src| - v
  {
    hide IsComment, OpensComment, TokenEnds, TokenLength;
    var s := src[v..];
    if v < |src| {
      TokenIff(src, v, |src|);
      if !Stops(src, v) {
        assert s[1..] == src[v + 1..];
        PlainEndsAt(src, v + 1);
      }
    }
  }

  lemma ValueEndIff(src: string, v: nat, e: nat)
    requires v <= |src|
    ensures ValueEnds(src, v, e) <==> e == v + ScalarLength(src[v..])
  {
    hide TokenEnds, TokenLength, PlainLength, Stops;
    if v < |src| && (src[v] == '"' || src[v] == '\'') {
      TokenIff(src, v, e);
    } else {
      PlainEndsAt(src, v);
      NoMorePlain(src);
      if ValueEnds(src, v, e) {
        var end := v + PlainLength(src[v..]);
        assert !(end < e) && !(e < end);
      }
    }
  }

  lemma NoMorePlain(src: string)
    ensures PlainLength("") == 0 && src[|src|..] == "" && Stops(src, |src|)
  {
  }

  lemma DepthStep(src: string, cuts: seq<nat>, m: nat)
    requires AreCuts(src, cuts) && m < |cuts| - 1
    ensures cuts[m] < |src| && Depth(src, cuts, m + 1) == DepthAfter(src[cuts[m]..], Depth(src, cuts, m))
  {
    hide TokenEnds;
    StartsInside(src, cuts[m], cuts[m + 1]);
    var opens, closes := Bracket(src, cuts[m], '{', '['), Bracket(src, cuts[m], '}', ']');
    OneMore(Opening(src, cuts, m), Opening(src, cuts, m + 1), m, opens);
    OneMore(Closing(src, cuts, m), Closing(src, cuts, m + 1), m, closes);
  }

  lemma OneMore(a: set<nat>, b: set<nat>, m: nat, more: bool)
    requires m !in a && forall l :: l in b <==> l in a || (more && l == m)
    ensures |b| == |a| + if more then 1 else 0
  {
    assert b == a + if more then {m} else {};
  }

  /** The key is not at any earlier token. */
  ghost predicate NotBefore(src: string, cuts: seq<nat>, key: string, m: nat)
    requires AreCuts(src, cuts) && m < |cuts|
  {
    forall l: nat :: l < m && Depth(src, cuts, l) == 1 ==> !SomewhereStands(src, cuts[l], key)
  }

  lemma {:induction false} FoundFrom(src: string, cuts: seq<nat>, key: string, m: nat)
    returns (at: Option<nat>)
    requires AreCuts(src, cuts) && m < |cuts| && NotBefore(src, cuts, key, m)
    ensures cuts[m] <= |src|
    ensures at.None? ==> FindFrom(src, cuts[m], key, Depth(src, cuts, m)) == None
                         && NotBefore(src, cuts, key, |cuts| - 1)
    ensures at.Some? ==> at.value < |cuts| - 1
                         && FindFrom(src, cuts[m], key, Depth(src, cuts, m)) == Some(cuts[at.value])
                         && Depth(src, cuts, at.value) == 1 && SomewhereStands(src, cuts[at.value], key)
                         && NotBefore(src, cuts, key, at.value)
    decreases |cuts| - m
  {
    hide Depth, TokenEnds, TokenLength, ValueOffset, KeyStands, FindFrom, DepthAfter, FindKey;
    if m == |cuts| - 1 {
      at := None;
      NothingToFind(src, key, Depth(src, cuts, m));
    } else {
      StartsInside(src, cuts[m], cuts[m + 1]);
      TokenIff(src, cuts[m], cuts[m + 1]);
      FindStep(src, cuts[m], key, Depth(src, cuts, m));
      DepthStep(src, cuts, m);
      SomewhereIff(src, cuts[m], key);
      if Depth(src, cuts, m) == 1 && SomewhereStands(src, cuts[m], key) {
        at := Some(m);
      } else {
        at := FoundFrom(src, cuts, key, m + 1);
      }
    }
  }

  lemma NothingToFind(src: string, key: string, depth: int)
    ensures FindFrom(src, |src|, key, depth) == None
  {
  }

  lemma SomewhereIff(src: string, i: nat, key: string)
    requires i < |src|
    ensures SomewhereStands(src, i, key) <==> ValueOffset(src[i..], key).Some?
  {
    hide KeyStands;
    var offset := ValueOffset(src[i..], key);
    if offset.Some? {
      OffsetIsPositive(src[i..], key);
      StandsIff(src, i, key, i + offset.value);
      assert KeyStands(src, i, key, i + offset.value);
    }
    if value :| KeyStands(src, i, key, value) { StandsIff(src, i, key, value); }
  }

  lemma OffsetIsPositive(s: string, key: string)
    ensures ValueOffset(s, key).Some? ==> 0 < ValueOffset(s, key).value
  {
  }

  /** The location of a top-level key: the first token at depth one at which the key stands, with where its value starts
      and ends. There is none exactly if there is no such token. */
  lemma LocateIff(src: string, key: string, cuts: seq<nat>, loc: Location)
    requires AreCuts(src, cuts)
    ensures Locate(src, key) == Some(loc)
            <==> exists m: nat :: FirstKey(src, cuts, key, m, loc.valueStart) && cuts[m] == loc.keyStart
                                  && IsEnd(src, loc)
    ensures Locate(src, key) == None
            <==> forall m: nat :: m < |cuts| - 1 && Depth(src, cuts, m) == 1 ==> !SomewhereStands(src, cuts[m], key)
  {
    hide Depth, TokenEnds, KeyStands, ValueOffset, FindKey, ScalarLength;
    NoDepth(src, cuts);
    assert src[0..] == src;
    var at := FoundFrom(src, cuts, key, 0);
    if at.Some? {
      assert Locate(src, key).Some? by { SomewhereIff(src, cuts[at.value], key); }
      LocatedIff(src, key, cuts, at.value, loc);
    }
  }

  lemma NoDepth(src: string, cuts: seq<nat>)
    requires AreCuts(src, cuts)
    ensures Depth(src, cuts, 0) == 0
  {
    hide TokenEnds;
    assert Opening(src, cuts, 0) == {} && Closing(src, cuts, 0) == {};
  }

  lemma LocatedIff(src: string, key: string, cuts: seq<nat>, m: nat, loc: Location)
    requires AreCuts(src, cuts) && m < |cuts| - 1 && cuts[m] < |src| && FindKey(src, key, 0) == Some(cuts[m])
    requires Depth(src, cuts, m) == 1 && SomewhereStands(src, cuts[m], key) && NotBefore(src, cuts, key, m)
    ensures Locate(src, key) == Some(loc)
            <==> exists m: nat :: FirstKey(src, cuts, key, m, loc.valueStart) && cuts[m] == loc.keyStart
                                  && IsEnd(src, loc)
  {
    hide Depth, TokenEnds, KeyStands, ValueOffset, FindKey, ScalarLength, ValueEnds;
    SomewhereIff(src, cuts[m], key);
    var offset := ValueOffset(src[cuts[m]..], key).value;
    OffsetIsPositive(src[cuts[m]..], key);
    OffsetInside(src[cuts[m]..], key);
    var v := cuts[m] + offset;
    StandsIff(src, cuts[m], key, v);
    ValueEndIff(src, v, loc.valueEnd);
    if loc.valueStart == v && loc.keyStart == cuts[m] && IsEnd(src, loc) {
      assert FirstKey(src, cuts, key, m, loc.valueStart);
    }
    if l: nat :| FirstKey(src, cuts, key, l, loc.valueStart) && cuts[l] == loc.keyStart && IsEnd(src, loc) {
      assert SomewhereStands(src, cuts[l], key);
      assert l == m;
      StandsIff(src, cuts[m], key, loc.valueStart);
    }
  }

  lemma OffsetInside(s: string, key: string)
    ensures ValueOffset(s, key).Some? ==> ValueOffset(s, key).value <= |s|
  {
  }

  // ----- what is left without comments

  /** The position belongs to a comment. */
  ghost predicate InComment(src: string, cuts: seq<nat>, i: nat)
  {
    exists m :: 0 <= m < |cuts| - 1 && cuts[m] <= i < cuts[m + 1] && OpensComment(src, cuts[m])
  }

  lemma {:induction false} StripFrom(src: string, cuts: seq<nat>, m: nat) returns (at: seq<nat>)
    requires AreCuts(src, cuts) && m < |cuts|
    ensures cuts[m] <= |src| && Picks(src, Strip(src[cuts[m]..]), at)
    ensures forall i: nat :: i in at <==> cuts[m] <= i < |src| && !InComment(src, cuts, i)
    decreases |cuts| - m
  {
    hide TokenEnds, TokenLength, Strip, IsComment, OpensComment;
    if m == |cuts| - 1 {
      at := [];
      StripOfEmpty();
      assert src[cuts[m]..] == "";
    } else {
      var i, e := cuts[m], cuts[m + 1];
      StartsInside(src, i, e);
      TokenIff(src, i, e);
      StripStep(src[i..]);
      var s := src[i..];
      assert s[e - i..] == src[e..] && s[..e - i] == src[i..e];
      var rest := StripFrom(src, cuts, m + 1);
      CommentHere(src, cuts, m);
      if OpensComment(src, i) {
        at := rest;
        assert "" + Strip(src[e..]) == Strip(src[e..]);
      } else {
        at := PickedWhole(src, i, e, Strip(src[e..]), rest);
      }
    }
  }

  /** All positions of a piece, then those of the rest. */
  lemma PickedWhole(src: string, i: nat, e: nat, r: string, rest: seq<nat>) returns (at: seq<nat>)
    requires i <= e <= |src| && Picks(src, r, rest) && forall k :: k in rest ==> e <= k
    ensures Picks(src, src[i..e] + r, at) && forall k: nat :: k in at <==> i <= k < e || k in rest
  {
    var piece := seq(e - i, k requires 0 <= k < e - i => i + k);
    at := piece + rest;
    assert forall k :: 0 <= k < |rest| ==> rest[k] in rest;
    forall k: nat ensures k in piece <==> i <= k < e { if i <= k < e { assert piece[k - i] == k; } }
  }

  lemma StripOfEmpty()
    ensures Strip("") == ""
  {
  }

  /** A position in a token belongs to a comment if the token is one. */
  lemma CommentHere(src: string, cuts: seq<nat>, m: nat)
    requires AreCuts(src, cuts) && m < |cuts| - 1
    ensures forall i: nat :: cuts[m] <= i < cuts[m + 1] ==> (InComment(src, cuts, i) <==> OpensComment(src, cuts[m]))
  {
    hide TokenEnds, OpensComment;
    forall l: nat | l < |cuts| - 1 && l != m ensures cuts[l + 1] <= cuts[m] || cuts[m + 1] <= cuts[l] {
      if l < m { CutsIncrease(src, cuts, l + 1, m); }
      if m < l { CutsIncrease(src, cuts, m + 1, l); }
    }
  }

  lemma {:induction false} CutsIncrease(src: string, cuts: seq<nat>, l: nat, m: nat)
    requires AreCuts(src, cuts) && l <= m < |cuts|
    ensures cuts[l] <= cuts[m]
    decreases m
  {
    hide TokenEnds;
    if l < m {
      StartsInside(src, cuts[m - 1], cuts[m]);
      CutsIncrease(src, cuts, l, m - 1);
    }
  }

  /** Stripping leaves exactly the characters that belong to no comment, in their order. */
  lemma StripPicks(src: string, cuts: seq<nat>) returns (at: seq<nat>)
    requires AreCuts(src, cuts)
    ensures Picks(src, Strip(src), at)
    ensures forall i: nat :: i in at <==> i < |src| && !InComment(src, cuts, i)
  {
    hide TokenEnds, Strip, InComment;
    at := StripFrom(src, cuts, 0);
    assert src[0..] == src;
  }
}
