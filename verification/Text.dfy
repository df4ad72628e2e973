/** Splitting, joining, decimal printing and white space: the string vocabulary the models share. */
module Text {

  function Join(parts: seq<string>, sep: char): string
  {
    if |parts| == 0 then ""
    else if |parts| == 1 then parts[0]
    else parts[0] + [sep] + Join(parts[1..], sep)
  }

  /** Splitting loses nothing, and no piece holds the separator. */
  function Split(s: string, sep: char): (parts: seq<string>)
    ensures |parts| >= 1
    ensures Join(parts, sep) == s
    ensures forall p :: p in parts ==> sep !in p
  {
    if s == [] then [[]]
    else
      var rest := Split(s[1..], sep);
      assert s == [s[0]] + s[1..];
      if s[0] == sep then
        assert ([[]] + rest)[1..] == rest;
        [[]] + rest
      else
        assert ([[s[0]] + rest[0]] + rest[1..])[1..] == rest[1..];
        [[s[0]] + rest[0]] + rest[1..]
  }

  /** Splitting is the inverse of joining: the pieces are unique. */
  lemma {:induction false} SplitOfJoin(parts: seq<string>, sep: char)
    requires |parts| >= 1
    requires forall p :: p in parts ==> sep !in p
    ensures Split(Join(parts, sep), sep) == parts
  {
    SplitOfPrepended(parts[0], parts[1..], sep);
    assert parts == [parts[0]] + parts[1..];
  }

  lemma {:induction false} SplitOfPrepended(head: string, rest: seq<string>, sep: char)
    requires sep !in head
    requires forall p :: p in rest ==> sep !in p
    ensures Split(Join([head] + rest, sep), sep) == [head] + rest
    decreases |rest|, |head|
  {
    var whole := Join([head] + rest, sep);
    assert ([head] + rest)[1..] == rest;
    if head != [] {
      var shorter := head[1..];
      assert ([shorter] + rest)[1..] == rest;
      assert head == [head[0]] + shorter;
      assert whole == [head[0]] + Join([shorter] + rest, sep);
      SplitOfPrepended(shorter, rest, sep);
    } else if rest != [] {
      assert whole == [sep] + Join(rest, sep);
      assert rest == [rest[0]] + rest[1..];
      SplitOfPrepended(rest[0], rest[1..], sep);
    }
  }

  lemma {:induction false} JoinOfConcat(a: seq<string>, b: seq<string>, sep: char)
    requires |a| >= 1 && |b| >= 1
    ensures Join(a + b, sep) == Join(a, sep) + [sep] + Join(b, sep)
  {
    if |a| == 1 {
      assert (a + b)[1..] == b;
    } else {
      assert (a + b)[1..] == a[1..] + b;
      JoinOfConcat(a[1..], b, sep);
    }
  }

  /** Ending the last line is joining one more, empty one. */
  lemma JoinEnded(a: seq<string>, sep: char)
    requires |a| >= 1
    ensures Join(a + [""], sep) == Join(a, sep) + [sep]
  {
    JoinOfConcat(a, [""], sep);
  }

  // ----- comparing strings by their characters

  predicate OrdinalLe(a: string, b: string)
  {
    a == "" || (b != "" && (a[0] < b[0] || (a[0] == b[0] && OrdinalLe(a[1..], b[1..]))))
  }

  lemma {:induction false} OrdinalIsTotal(a: string, b: string)
    ensures OrdinalLe(a, b) || OrdinalLe(b, a)
    ensures OrdinalLe(a, b) && OrdinalLe(b, a) ==> a == b
  {
    if a != "" && b != "" && a[0] == b[0] {
      OrdinalIsTotal(a[1..], b[1..]);
      assert a == [a[0]] + a[1..] && b == [b[0]] + b[1..];
    }
  }

  lemma {:induction false} OrdinalIsTransitive(a: string, b: string, c: string)
    requires OrdinalLe(a, b) && OrdinalLe(b, c)
    ensures OrdinalLe(a, c)
  {
    if a != "" && a[0] == b[0] && b[0] == c[0] { OrdinalIsTransitive(a[1..], b[1..], c[1..]); }
  }

  lemma SameFirst(a: string, b: string, k: nat)
    requires k <= |a| && k <= |b| && a[..k] == b[..k]
    ensures k > 0 ==> a[0] == b[0]
  {
    if k > 0 { assert a[..k][0] == b[..k][0]; }
  }

  /** One string is before another, or is that one, exactly if it begins the other, or has the lesser character where
      they first differ. */
  lemma {:induction false} OrdinalIff(a: string, b: string)
    ensures OrdinalLe(a, b)
            <==> a <= b || exists k :: 0 <= k < |a| && k < |b| && a[..k] == b[..k] && a[k] < b[k]
  {
    if a != "" && b != "" && a[0] == b[0] {
      OrdinalIff(a[1..], b[1..]);
      assert a == [a[0]] + a[1..] && b == [b[0]] + b[1..];
      assert a <= b <==> a[1..] <= b[1..];
      if k :| 0 <= k < |a| && k < |b| && a[..k] == b[..k] && a[k] < b[k] {
        assert a[1..][..k - 1] == a[..k][1..] && b[1..][..k - 1] == b[..k][1..];
      }
      if k :| 0 <= k < |a| - 1 && k < |b| - 1 && a[1..][..k] == b[1..][..k] && a[1..][k] < b[1..][k] {
        assert a[..k + 1] == [a[0]] + a[1..][..k] && b[..k + 1] == [b[0]] + b[1..][..k];
        assert a[k + 1] < b[k + 1];
      }
    } else if a != "" && b != "" {
      if k :| 0 <= k < |a| && k < |b| && a[..k] == b[..k] && a[k] < b[k] { SameFirst(a, b, k); }
      if a[0] < b[0] { assert a[..0] == b[..0]; }
    }
  }

  // ----- decimal numbers

  predicate IsDigit(c: char) { '0' <= c <= '9' }

  /** The value `Number.parseInt(s, 10)` gives a string of digits. */
  function DecimalValue(s: string): nat
    requires forall c :: c in s ==> IsDigit(c)
  {
    if s == [] then 0
    else
      assert IsDigit(s[|s| - 1]);
      10 * DecimalValue(s[..|s| - 1]) + (s[|s| - 1] - '0') as nat
  }

  /** The decimal text of a natural number: digits only, and reading it back gives the number. */
  function Decimal(n: nat): (s: string)
    ensures |s| >= 1 && forall c :: c in s ==> IsDigit(c)
    ensures DecimalValue(s) == n
  {
    var last := '0' + (n % 10) as char;
    if n < 10 then [last]
    else
      var s := Decimal(n / 10) + [last];
      assert s[..|s| - 1] == Decimal(n / 10);
      s
  }

  /** No digit is in front that could be left out. */
  lemma {:induction false} NoLeadingZero(n: nat)
    ensures Decimal(n)[0] == '0' ==> Decimal(n) == "0"
  {
    if n >= 10 { NoLeadingZero(n / 10); } else { assert Decimal(n) == ['0' + n as char]; }
  }

  // ----- white space as the `\s` class and `trim` see it

  predicate IsSpace(c: char)
  {
    || c == ' ' || '\t' <= c <= '\r'
    || c == '\U{00A0}' || c == '\U{1680}' || '\U{2000}' <= c <= '\U{200A}'
    || c == '\U{2028}' || c == '\U{2029}' || c == '\U{202F}' || c == '\U{205F}'
    || c == '\U{3000}' || c == '\U{FEFF}'
  }

  function TrimStart(s: string): string
  {
    if s != [] && IsSpace(s[0]) then TrimStart(s[1..]) else s
  }

  function TrimEnd(s: string): string
  {
    if s != [] && IsSpace(s[|s| - 1]) then TrimEnd(s[..|s| - 1]) else s
  }

  function Trim(s: string): string { TrimEnd(TrimStart(s)) }

  /** `s.indexOf(c)` */
  function IndexOf(s: string, c: char): (i: int)
    ensures -1 <= i < |s|
    ensures i >= 0 ==> s[i] == c && c !in s[..i]
    ensures i < 0 ==> c !in s
  {
    if s == [] then -1
    else if s[0] == c then 0
    else
      var i := IndexOf(s[1..], c);
      assert s == [s[0]] + s[1..];
      if i < 0 then -1
      else
        assert s[..i + 1] == [s[0]] + s[1..][..i];
        i + 1
  }

  /** `s.indexOf(c, from)` */
  function IndexFrom(s: string, c: char, from: nat): (i: int)
    requires from <= |s|
    ensures i == -1 || from <= i < |s|
    ensures i >= 0 ==> s[i] == c && c !in s[from..i]
    ensures i < 0 ==> c !in s[from..]
  {
    var k := IndexOf(s[from..], c);
    assert k >= 0 ==> s[from..from + k] == s[from..][..k];
    if k < 0 then -1 else from + k
  }
}
