/** Streaming a file with its hashes, in chunks of lines, agrees with printing it in one go. */
module HashlineStream {
  import opened Wrappers
  import opened Text
  import opened HashlineRefs
  import HashlineText

  // ----- sizes

  /** `Buffer.byteLength(s, "utf-8")` */
  function Utf8Length(s: string): nat
  {
    if s == "" then 0
    else Utf8Length(s[..|s| - 1]) + CharBytes(s[|s| - 1])
  }

  function CharBytes(c: char): nat
  {
    if c < '\U{80}' then 1 else if c < '\U{800}' then 2 else if c < '\U{10000}' then 3 else 4
  }

  /** The bytes of a character in UTF-8, as section 3 of RFC 3629 lays them out. */
  ghost function Encoded(c: char): seq<nat>
  {
    var n := c as int;
    if n < 128 then [n]
    else if n < 2048 then [192 + n / 64, 128 + n % 64]
    else if n < 65536 then [224 + n / 4096, 128 + n / 64 % 64, 128 + n % 64]
    else [240 + n / 262144, 128 + n / 4096 % 64, 128 + n / 64 % 64, 128 + n % 64]
  }

  /** The number that bytes stand for: the first one tells how many there are, the others hold six bits each. */
  ghost function Decoded(bytes: seq<nat>): nat
  {
    match |bytes|
    case 1 => bytes[0]
    case 2 => bytes[0] % 32 * 64 + bytes[1] % 64
    case 3 => (bytes[0] % 16 * 64 + bytes[1] % 64) * 64 + bytes[2] % 64
    case 4 => ((bytes[0] % 8 * 64 + bytes[1] % 64) * 64 + bytes[2] % 64) * 64 + bytes[3] % 64
    case _ => 0
  }

  ghost function Utf8(s: string): seq<nat> { if s == "" then [] else Utf8(s[..|s| - 1]) + Encoded(s[|s| - 1]) }

  lemma EncodedIsRead(c: char)
    ensures Decoded(Encoded(c)) == c as nat && |Encoded(c)| == CharBytes(c)
    ensures forall i :: 0 <= i < |Encoded(c)| ==> Encoded(c)[i] < 256
  {
    SixBits(c as nat);
  }

  lemma SixBits(n: nat)
    ensures n / 64 == n / 4096 * 64 + n / 64 % 64 && n / 4096 == n / 262144 * 64 + n / 4096 % 64
    ensures (128 + n % 64) % 64 == n % 64 && (128 + n / 64 % 64) % 64 == n / 64 % 64
    ensures (128 + n / 4096 % 64) % 64 == n / 4096 % 64
    ensures n < 2048 ==> (192 + n / 64) % 32 == n / 64
    ensures n < 65536 ==> (224 + n / 4096) % 16 == n / 4096
    ensures n < 1114112 ==> (240 + n / 262144) % 8 == n / 262144
  {
  }

  /** The length of a text is how many bytes it is encoded in. */
  lemma {:induction false} LengthIsOfBytes(s: string)
    ensures Utf8Length(s) == |Utf8(s)|
  {
    if s != "" {
      LengthIsOfBytes(s[..|s| - 1]);
      EncodedIsRead(s[|s| - 1]);
    }
  }

  lemma {:induction false} Utf8OfConcat(a: string, b: string)
    ensures Utf8Length(a + b) == Utf8Length(a) + Utf8Length(b)
  {
    if b == "" {
      assert a + b == a;
    } else {
      assert (a + b)[..|a + b| - 1] == a + b[..|b| - 1];
      Utf8OfConcat(a, b[..|b| - 1]);
    }
  }

  /** The size of lines joined by line ends. */
  function Size(lines: seq<string>): nat { Utf8Length(Join(lines, '\n')) }

  lemma SizeSnoc(lines: seq<string>, line: string)
    ensures Size(lines + [line]) == Size(lines) + (if lines == [] then 0 else 1) + Utf8Length(line)
  {
    if lines == [] {
      assert lines + [line] == [line];
    } else {
      JoinOfConcat(lines, [line], '\n');
      Utf8OfConcat(Join(lines, '\n'), ['\n']);
      Utf8OfConcat(Join(lines, '\n') + ['\n'], line);
      assert ['\n'][..0] == "";
    }
  }

  lemma {:induction false} SizeOfPrefix(lines: seq<string>, n: nat)
    requires n <= |lines|
    ensures Size(lines[..n]) <= Size(lines)
    decreases |lines| - n
  {
    if n < |lines| {
      SizeOfPrefix(lines, n + 1);
      assert lines[..n + 1] == lines[..n] + [lines[n]];
      SizeSnoc(lines[..n], lines[n]);
    } else {
      assert lines[..n] == lines;
    }
  }

  // ----- what a good chunking is

  datatype Limits = Limits(maxLines: int, maxBytes: int)

  function Flat(groups: seq<seq<string>>): seq<string>
  {
    if groups == [] then [] else Flat(groups[..|groups| - 1]) + groups[|groups| - 1]
  }

  /** The lines of a chunk keep both limits, except that a chunk may always hold one line. */
  predicate Fits(g: seq<string>, lim: Limits)
  {
    |g| >= 1 && (|g| > 1 ==> |g| <= lim.maxLines && Size(g) <= lim.maxBytes)
  }

  predicate Full(g: seq<string>, lim: Limits)
  {
    |g| >= lim.maxLines || Size(g) >= lim.maxBytes
  }

  /** One more line would not have kept the limits. */
  predicate CannotTake(g: seq<string>, line: string, lim: Limits)
  {
    |g| >= lim.maxLines || Size(g + [line]) > lim.maxBytes
  }

  /** Every chunk fits, and none could have taken the line after it. */
  ghost predicate Greedy(groups: seq<seq<string>>, lim: Limits)
  {
    && (forall i :: 0 <= i < |groups| ==> Fits(groups[i], lim))
    && (forall i :: 0 <= i < |groups| - 1 ==> CannotTake(groups[i], groups[i + 1][0], lim))
  }

  /** The texts of groups of lines; an empty text is not handed out. */
  function Texts(groups: seq<seq<string>>): seq<string>
  {
    if groups == [] then []
    else
      var text := Join(groups[|groups| - 1], '\n');
      Texts(groups[..|groups| - 1]) + if text != "" then [text] else []
  }

  /** The chunks hold these lines, cut greedily. */
  ghost predicate GreedyChunks(chunks: seq<string>, lines: seq<string>, lim: Limits)
  {
    exists groups :: chunks == Texts(groups) && Flat(groups) == lines && Greedy(groups, lim)
  }

  lemma TextsSnoc(groups: seq<seq<string>>, g: seq<string>)
    ensures Texts(groups + [g]) == Texts(groups) + if Join(g, '\n') != "" then [Join(g, '\n')] else []
  {
  }

  lemma {:induction false} FlatConcat(a: seq<seq<string>>, b: seq<seq<string>>)
    ensures Flat(a + b) == Flat(a) + Flat(b)
  {
    if b == [] {
      assert a + b == a;
    } else {
      var front := b[..|b| - 1];
      assert (a + b)[..|a + b| - 1] == a + front;
      FlatConcat(a, front);
    }
  }

  /** One group is extended by a line it can take, or a new one is begun. */
  lemma GreedyGrows(groups: seq<seq<string>>, g: seq<string>, line: string, lim: Limits)
    requires Greedy(if g == [] then groups else groups + [g], lim)
    requires g == [] && groups != [] ==> CannotTake(groups[|groups| - 1], line, lim)
    requires g != [] ==> |g| < lim.maxLines && Size(g + [line]) <= lim.maxBytes
    ensures Greedy(groups + [g + [line]], lim)
  {
    hide Size;
    var before, after := if g == [] then groups else groups + [g], groups + [g + [line]];
    forall i | 0 <= i < |after| ensures Fits(after[i], lim) { assert i < |groups| ==> after[i] == before[i]; }
    forall i | 0 <= i < |after| - 1 ensures CannotTake(after[i], after[i + 1][0], lim) {
      assert after[i] == groups[i] == before[i];
      if i + 1 < |groups| { assert after[i + 1] == before[i + 1]; }
      if i + 1 == |groups| && g != [] { assert before[i + 1] == g && after[i + 1][0] == g[0]; }
    }
  }

  lemma GreedyBegins(groups: seq<seq<string>>, line: string, lim: Limits)
    requires Greedy(groups, lim)
    requires groups != [] ==> CannotTake(groups[|groups| - 1], line, lim)
    ensures Greedy(groups + [[line]], lim)
  {
  }

  lemma FullCannotTake(g: seq<string>, line: string, lim: Limits)
    requires g != [] && Full(g, lim)
    ensures CannotTake(g, line, lim)
  {
    SizeSnoc(g, line);
  }

  // ----- the formatter

  class ChunkFormatter {
    const lim: Limits
    var outputLines: seq<string>
    var outputBytes: nat
    /** The lines of the chunks flushed so far. */
    ghost var flushed: seq<seq<string>>

    constructor (lim: Limits)
      ensures this.lim == lim && Ready() && flushed == [] && Groups() == []
    {
      this.lim := lim;
      outputLines, outputBytes, flushed := [], 0, [];
    }

    /** The chunks so far and the one being filled. */
    ghost function Groups(): seq<seq<string>>
      reads this
    {
      if outputLines == [] then flushed else flushed + [outputLines]
    }

    ghost predicate Ready()
      reads this
    {
      && outputBytes == Size(outputLines)
      && Greedy(Groups(), lim)
      && (outputLines != [] ==> !Full(outputLines, lim))
      && (outputLines == [] && flushed != [] ==> Full(flushed[|flushed| - 1], lim))
    }

    method Flush() returns (chunk: Option<string>)
      modifies this
      ensures outputLines == [] && outputBytes == 0
      ensures flushed == old(Groups())
      ensures chunk == if old(outputLines) == [] then None else Some(Join(old(outputLines), '\n'))
    {
      if |outputLines| == 0 {
        outputBytes := 0;
        return None;
      }
      chunk := Some(Join(outputLines, '\n'));
      flushed := flushed + [outputLines];
      outputLines, outputBytes := [], 0;
    }

    /** The line goes to the end of what was pushed before, and all chunks stay greedy. */
    method Push(formattedLine: string) returns (chunksToYield: seq<string>)
      requires Ready()
      modifies this
      ensures Ready()
      ensures Flat(Groups()) == old(Flat(Groups())) + [formattedLine]
      ensures Texts(flushed) == old(Texts(flushed)) + chunksToYield
    {
      hide Greedy, Texts, Flat, Size;
      ghost var was, lines := flushed, outputLines;
      chunksToYield := [];
      var separatorBytes := if |outputLines| == 0 then 0 else 1;
      var lineBytes := Utf8Length(formattedLine);
      SizeSnoc(outputLines, formattedLine);
      GrowthIsGreedy(flushed, outputLines, formattedLine, lim);
      if |outputLines| > 0
          && (|outputLines| >= lim.maxLines || outputBytes + separatorBytes + lineBytes > lim.maxBytes) {
        var chunk := Flush();
        TextsSnoc(was, lines);
        if chunk != None && chunk.value != "" { chunksToYield := chunksToYield + [chunk.value]; }
        SizeSnoc([], formattedLine);
      }
      EmptySize();
      assert outputLines != [] ==> outputLines == lines && flushed == was;
      GroupsGrow(was, lines, flushed, outputLines, formattedLine);
      assert [] + [formattedLine] == [formattedLine];
      outputLines := outputLines + [formattedLine];
      assert Greedy(Groups(), lim);
      outputBytes := outputBytes + (if |outputLines| == 1 then 0 else 1) + lineBytes;
      if |outputLines| >= lim.maxLines || outputBytes >= lim.maxBytes {
        ghost var was', lines' := flushed, outputLines;
        var chunk := Flush();
        TextsSnoc(was', lines');
        assert flushed[|flushed| - 1] == lines';
        if chunk != None && chunk.value != "" { chunksToYield := chunksToYield + [chunk.value]; }
        EmptySize();
      }
    }
  }

  lemma EmptySize()
    ensures Size([]) == 0
  {
  }

  lemma GrowthIsGreedy(flushed: seq<seq<string>>, lines: seq<string>, line: string, lim: Limits)
    requires Greedy(if lines == [] then flushed else flushed + [lines], lim)
    requires lines == [] && flushed != [] ==> Full(flushed[|flushed| - 1], lim)
    ensures lines != [] && (|lines| >= lim.maxLines || Size(lines + [line]) > lim.maxBytes) ==>
              Greedy(flushed + [lines] + [[line]], lim)
    ensures lines == [] || (|lines| < lim.maxLines && Size(lines + [line]) <= lim.maxBytes) ==>
              Greedy(flushed + [lines + [line]], lim)
  {
    if lines == [] && flushed != [] {
      assert Fits(flushed[|flushed| - 1], lim);
      FullCannotTake(flushed[|flushed| - 1], line, lim);
    }
    if lines != [] && (|lines| >= lim.maxLines || Size(lines + [line]) > lim.maxBytes) {
      GreedyBegins(flushed + [lines], line, lim);
    } else {
      GreedyGrows(flushed, lines, line, lim);
    }
  }

  /** Before and after a flush, one more line is at the end of the same lines. */
  lemma GroupsGrow(was: seq<seq<string>>, lines: seq<string>, flushed: seq<seq<string>>, left: seq<string>,
      line: string)
    requires (flushed == was && left == lines) || (lines != [] && flushed == was + [lines] && left == [])
    ensures Flat(flushed + [left + [line]]) == Flat(if lines == [] then was else was + [lines]) + [line]
  {
  }

  // ----- streaming

  class LineStream {
    const hash: LineHash
    const startLine: nat
    const chunkFormatter: ChunkFormatter
    var lineNumber: nat
    var pending: string
    var sawAnyText: bool
    var endedWithNewline: bool
    /** The lines pushed so far, and all the text consumed. */
    ghost var lines: seq<string>
    ghost var text: string

    constructor (hash: LineHash, startLine: nat, lim: Limits)
      ensures Valid() && fresh(this) && fresh(chunkFormatter) && this.hash == hash && this.startLine == startLine
      ensures text == "" && chunkFormatter.flushed == [] && chunkFormatter.lim == lim
    {
      var formatter := new ChunkFormatter(lim);
      this.hash, this.startLine, this.chunkFormatter := hash, startLine, formatter;
      lineNumber, pending, sawAnyText, endedWithNewline := startLine, "", false, false;
      lines, text := [], "";
    }

    /** What was pushed are the lines up to this point, formatted and numbered in order. */
    ghost predicate Pushed()
      reads this, chunkFormatter
    {
      && chunkFormatter.Ready()
      && lineNumber == startLine + |lines|
      && Flat(chunkFormatter.Groups()) == FormatNumbered(hash, startLine, lines)
      && forall line :: line in lines ==> '\n' !in line
    }

    ghost predicate Valid()
      reads this, chunkFormatter
    {
      && Pushed()
      && text == Join(lines + [pending], '\n') && '\n' !in pending
      && sawAnyText == (text != "")
      && endedWithNewline == (text != "" && pending == "")
    }

    method PushLine(line: string) returns (chunks: seq<string>)
      requires Pushed() && '\n' !in line
      modifies this`lineNumber, this`lines, chunkFormatter
      ensures Pushed() && lines == old(lines) + [line]
      ensures Texts(chunkFormatter.flushed) == old(Texts(chunkFormatter.flushed)) + chunks
    {
      hide Greedy, Texts, Flat, Join, FormatHashLine;
      var formatted := FormatHashLine(hash, lineNumber, line);
      lineNumber := lineNumber + 1;
      lines := lines + [line];
      chunks := chunkFormatter.Push(formatted);
      assert FormatNumbered(hash, startLine, lines) == FormatNumbered(hash, startLine, old(lines)) + [formatted];
    }

    method ConsumeText(piece: string) returns (chunksToYield: seq<string>)
      requires Valid()
      modifies this, chunkFormatter
      ensures Valid() && text == old(text) + piece
      ensures Texts(chunkFormatter.flushed) == old(Texts(chunkFormatter.flushed)) + chunksToYield
    {
      hide Greedy, Texts, Flat, Join, FormatHashLine, FormatNumbered, IndexFrom, ChunkFormatter.Groups,
           ChunkFormatter.Ready;
      chunksToYield := [];
      if |piece| == 0 {
        assert text + piece == text;
        return;
      }
      sawAnyText := true;
      JoinExtended(lines, pending, piece);
      pending := pending + piece;
      text := text + piece;
      var lastIdx := 0;
      assert pending[0..] == pending;
      var idx := IndexFrom(pending, '\n', lastIdx);
      while idx != -1
        invariant 0 <= lastIdx <= |pending| && pending == old(pending) + piece
        invariant Pushed()
        invariant text == old(text) + piece == Join(lines + [pending[lastIdx..]], '\n')
        invariant idx == IndexFrom(pending, '\n', lastIdx) && sawAnyText
        invariant lastIdx > 0 ==> endedWithNewline
        invariant Texts(chunkFormatter.flushed) == old(Texts(chunkFormatter.flushed)) + chunksToYield
        decreases |pending| - lastIdx
      {
        var line := pending[lastIdx..idx];
        LineTaken(lines, pending, lastIdx, idx);
        lastIdx := idx + 1;
        endedWithNewline := true;
        var chunks := PushLine(line);
        chunksToYield := chunksToYield + chunks;
        idx := IndexFrom(pending, '\n', lastIdx);
      }
      pending := pending[lastIdx..];
      if |pending| > 0 { endedWithNewline := false; }
    }
  }

  lemma JoinExtended(lines: seq<string>, a: string, b: string)
    ensures Join(lines + [a + b], '\n') == Join(lines + [a], '\n') + b
  {
    if lines == [] {
      assert lines + [a + b] == [a + b] && lines + [a] == [a];
    } else {
      JoinOfConcat(lines, [a + b], '\n');
      JoinOfConcat(lines, [a], '\n');
    }
  }

  lemma JoinBroken(lines: seq<string>, a: string, b: string)
    ensures Join(lines + [a + ['\n'] + b], '\n') == Join(lines + [a] + [b], '\n')
  {
    JoinExtended(lines, a, ['\n'] + b);
    assert a + (['\n'] + b) == a + ['\n'] + b;
    JoinOfConcat(lines + [a], [b], '\n');
  }

  lemma LineTaken(lines: seq<string>, pending: string, from: nat, idx: nat)
    requires from <= idx < |pending| && pending[idx] == '\n'
    ensures Join(lines + [pending[from..]], '\n') == Join(lines + [pending[from..idx]] + [pending[idx + 1..]], '\n')
  {
    assert pending[from..] == pending[from..idx] + ['\n'] + pending[idx + 1..];
    JoinBroken(lines, pending[from..idx], pending[idx + 1..]);
  }

  function Concat(pieces: seq<string>): string
  {
    if pieces == [] then "" else Concat(pieces[..|pieces| - 1]) + pieces[|pieces| - 1]
  }

  /** The lines a text is streamed as: none for the empty text. */
  function StreamedLines(hash: LineHash, startLine: nat, text: string): seq<string>
  {
    if text == "" then [] else FormatNumbered(hash, startLine, Split(text, '\n'))
  }

  /** `streamHashLinesFromUtf8` on the decoder's pieces: however the text is cut, its lines are yielded in greedy
      chunks. */
  method StreamHashLinesFromUtf8(hash: LineHash, pieces: seq<string>, startLine: nat, lim: Limits)
    returns (yielded: seq<string>)
    ensures GreedyChunks(yielded, StreamedLines(hash, startLine, Concat(pieces)), lim)
  {
    hide Greedy, Texts, Flat, Join, Split, FormatNumbered;
    var stream := new LineStream(hash, startLine, lim);
    EmptyTexts();
    yielded := [];
    for i := 0 to |pieces|
      invariant fresh(stream) && fresh(stream.chunkFormatter)
      invariant stream.Valid() && stream.text == Concat(pieces[..i])
      invariant Texts(stream.chunkFormatter.flushed) == yielded
    {
      assert pieces[..i + 1][..i] == pieces[..i];
      var chunks := stream.ConsumeText(pieces[i]);
      yielded := yielded + chunks;
    }
    assert pieces[..|pieces|] == pieces;
    if stream.sawAnyText && (|stream.pending| > 0 || stream.endedWithNewline) {
      assert forall line :: line in stream.lines + [stream.pending] ==> '\n' !in line;
      SplitOfJoin(stream.lines + [stream.pending], '\n');
      var chunks := stream.PushLine(stream.pending);
      yielded := yielded + chunks;
    } else {
      NothingPushed(stream.lines, stream.pending);
    }
    yielded := FlushLast(stream.chunkFormatter, yielded);
  }

  /** The last chunk, at the end of both streams. */
  method FlushLast(formatter: ChunkFormatter, yielded: seq<string>) returns (all: seq<string>)
    requires formatter.Ready() && Texts(formatter.flushed) == yielded
    modifies formatter
    ensures GreedyChunks(all, old(Flat(formatter.Groups())), formatter.lim)
  {
    hide Greedy, Texts, Flat, Join;
    ghost var was, lines := formatter.flushed, formatter.outputLines;
    var finalChunk := formatter.Flush();
    TextsSnoc(was, lines);
    all := if finalChunk != None && finalChunk.value != "" then yielded + [finalChunk.value] else yielded;
    assert all == Texts(formatter.flushed);
  }

  /** `streamHashLinesFromLines` */
  method StreamHashLinesFromLines(hash: LineHash, lines: seq<string>, startLine: nat, lim: Limits)
    returns (yielded: seq<string>)
    ensures GreedyChunks(yielded, FormatNumbered(hash, startLine, lines), lim)
  {
    hide Greedy, Texts, Flat, Join, FormatHashLine, FormatNumbered;
    var formatter := new ChunkFormatter(lim);
    EmptyTexts();
    yielded := [];
    var lineNumber := startLine;
    for i := 0 to |lines|
      invariant fresh(formatter) && formatter.Ready() && lineNumber == startLine + i
      invariant Flat(formatter.Groups()) == FormatNumbered(hash, startLine, lines[..i])
      invariant Texts(formatter.flushed) == yielded
    {
      var formatted := FormatHashLine(hash, lineNumber, lines[i]);
      lineNumber := lineNumber + 1;
      var chunks := formatter.Push(formatted);
      yielded := yielded + chunks;
      NumberedSnoc(hash, startLine, lines, i);
    }
    assert lines[..|lines|] == lines;
    yielded := FlushLast(formatter, yielded);
  }

  lemma NumberedSnoc(hash: LineHash, start: nat, lines: seq<string>, i: nat)
    requires i < |lines|
    ensures FormatNumbered(hash, start, lines[..i + 1])
              == FormatNumbered(hash, start, lines[..i]) + [FormatHashLine(hash, start + i, lines[i])]
  {
    hide FormatHashLine;
  }

  lemma EmptyTexts()
    ensures Texts([]) == [] && Flat([]) == []
  {
  }

  lemma NothingPushed(lines: seq<string>, pending: string)
    ensures Join(lines + [pending], '\n') == "" ==> lines == []
  {
  }

  // ----- streaming agrees with printing in one go

  /** `formatHashLines` */
  function FormatHashLines(hash: LineHash, content: string): string
  {
    if content == "" then "" else Join(FormatNumbered(hash, 1, Split(content, '\n')), '\n')
  }

  lemma FlatFront(groups: seq<seq<string>>)
    requires groups != []
    ensures Flat(groups) == groups[0] + Flat(groups[1..])
  {
    assert groups == [groups[0]] + groups[1..];
    FlatConcat([groups[0]], groups[1..]);
    assert [] + groups[0] == groups[0];
  }

  lemma FlatOfSome(groups: seq<seq<string>>, lim: Limits)
    requires Greedy(groups, lim)
    ensures groups != [] <==> Flat(groups) != []
  {
  }

  /** Of two first groups that can hold the same lines, the shorter one could have taken the next. */
  lemma FirstGroupIsNotShorter(a: seq<seq<string>>, b: seq<seq<string>>, lim: Limits)
    requires a != [] && b != [] && Greedy(a, lim) && Greedy(b, lim) && Flat(a) == Flat(b)
    ensures |a[0]| >= |b[0]|
  {
    hide Flat, Size, Full;
    var n := |a[0]|;
    if n < |b[0]| {
      FlatFront(a);
      FlatFront(b);
      FlatOfOne(a);
      if |a| > 1 {
        var line := a[1][0];
        FlatFront(a[1..]);
        assert Fits(a[1], lim) && Fits(b[0], lim);
        PrefixTakes(Flat(a), a[0], line, b[0]);
        assert Size(b[0][..n + 1]) > lim.maxBytes;
        SizeOfPrefix(b[0], n + 1);
      }
    }
  }

  lemma FlatOfOne(groups: seq<seq<string>>)
    ensures |groups| == 1 ==> Flat(groups) == groups[0]
  {
  }

  lemma PrefixTakes(lines: seq<string>, a: seq<string>, line: string, b: seq<string>)
    requires a + [line] <= lines && b <= lines && |a| < |b|
    ensures b[..|a| + 1] == a + [line]
  {
  }

  /** The limits leave one way to cut lines into greedy groups. */
  lemma {:induction false} GreedyIsUnique(a: seq<seq<string>>, b: seq<seq<string>>, lim: Limits)
    requires Greedy(a, lim) && Greedy(b, lim) && Flat(a) == Flat(b)
    ensures a == b
  {
    if a == [] || b == [] {
      FlatOfSome(a, lim);
      FlatOfSome(b, lim);
    } else {
      FirstGroupIsNotShorter(a, b, lim);
      FirstGroupIsNotShorter(b, a, lim);
      FlatFront(a);
      FlatFront(b);
      assert a[0] == Flat(a)[..|a[0]|] == b[0];
      assert Flat(a[1..]) == Flat(a)[|a[0]|..] == Flat(b[1..]);
      GreedyIsUnique(a[1..], b[1..], lim);
      assert a == [a[0]] + a[1..] && b == [b[0]] + b[1..];
    }
  }

  /** However a text is cut into pieces, the same chunks are yielded. */
  lemma ChunksAreUnique(a: seq<string>, b: seq<string>, lines: seq<string>, lim: Limits)
    requires GreedyChunks(a, lines, lim) && GreedyChunks(b, lines, lim)
    ensures a == b
  {
    var groupsA :| a == Texts(groupsA) && Flat(groupsA) == lines && Greedy(groupsA, lim);
    var groupsB :| b == Texts(groupsB) && Flat(groupsB) == lines && Greedy(groupsB, lim);
    GreedyIsUnique(groupsA, groupsB, lim);
  }

  predicate IsLine(line: string) { line != "" && '\n' !in line }

  predicate AreLines(lines: seq<string>) { forall i :: 0 <= i < |lines| ==> IsLine(lines[i]) }

  predicate HoldsLines(groups: seq<seq<string>>)
  {
    forall i :: 0 <= i < |groups| ==> groups[i] != [] && AreLines(groups[i])
  }

  lemma {:induction false} LinesOfFlat(groups: seq<seq<string>>, lim: Limits)
    requires Greedy(groups, lim) && AreLines(Flat(groups))
    ensures HoldsLines(groups)
  {
    hide IsLine, CannotTake, Size;
    if groups != [] {
      var front, last := groups[..|groups| - 1], groups[|groups| - 1];
      assert Flat(groups) == Flat(front) + last;
      AreLinesParts(Flat(front), last);
      LinesOfFlat(front, lim);
      assert Fits(last, lim);
    }
  }

  lemma AreLinesParts(a: seq<string>, b: seq<string>)
    requires AreLines(a + b)
    ensures AreLines(a) && AreLines(b)
  {
    hide IsLine;
    assert forall i :: 0 <= i < |a| ==> (a + b)[i] == a[i];
    assert forall i :: 0 <= i < |b| ==> (a + b)[|a| + i] == b[i];
  }

  /** The texts of groups of lines: one for each group, which splitting gives back, and together the text of all
      lines. */
  lemma {:induction false} TextsOfLines(groups: seq<seq<string>>)
    requires HoldsLines(groups)
    ensures |Texts(groups)| == |groups| && (groups != [] ==> Flat(groups) != [])
    ensures forall i :: 0 <= i < |groups| ==> Texts(groups)[i] != "" && Split(Texts(groups)[i], '\n') == groups[i]
    ensures Join(Texts(groups), '\n') == Join(Flat(groups), '\n')
  {
    hide Split;
    if groups != [] {
      var front, g := groups[..|groups| - 1], groups[|groups| - 1];
      TextsOfLines(front);
      SplitOfJoin(g, '\n');
      assert IsLine(g[0]) && Join(g, '\n')[0] == g[0][0];
      assert Texts(groups) == Texts(front) + [Join(g, '\n')];
      if front == [] {
        assert Flat(groups) == g && Texts(groups) == [Join(g, '\n')];
      } else {
        JoinOfConcat(Flat(front), g, '\n');
        JoinOfConcat(Texts(front), [Join(g, '\n')], '\n');
      }
    }
  }

  /** The yielded chunks joined by line ends are what printing in one go gives; none is empty, each keeps the limits
      unless it is a single line, and none could have taken the line that starts the next. */
  lemma StreamAgrees(hash: LineHash, text: string, chunks: seq<string>, lim: Limits)
    requires GreedyChunks(chunks, StreamedLines(hash, 1, text), lim)
    ensures Join(chunks, '\n') == FormatHashLines(hash, text)
    ensures forall i :: 0 <= i < |chunks| ==> chunks[i] != "" && Fits(Split(chunks[i], '\n'), lim)
    ensures forall i :: 0 <= i < |chunks| - 1 ==> CannotTake(Split(chunks[i], '\n'), Split(chunks[i + 1], '\n')[0], lim)
  {
    hide Texts, Flat, Join, Split, FormatNumbered, FormatHashLine, IsLine, Size, AreLines;
    var groups :| chunks == Texts(groups) && Flat(groups) == StreamedLines(hash, 1, text) && Greedy(groups, lim);
    StreamedAreLines(hash, text);
    LinesOfFlat(groups, lim);
    TextsOfLines(groups);
    NoLines();
  }

  lemma FormattedIsLine(hash: LineHash, number: nat, line: string)
    requires '\n' !in line
    ensures IsLine(FormatHashLine(hash, number, line))
  {
  }

  lemma StreamedAreLines(hash: LineHash, text: string)
    ensures AreLines(StreamedLines(hash, 1, text))
  {
    hide Split, FormatHashLine, IsLine;
    var lines := Split(text, '\n');
    forall i | 0 <= i < |lines| ensures IsLine(FormatHashLine(hash, 1 + i, lines[i])) {
      assert lines[i] in lines;
      FormattedIsLine(hash, 1 + i, lines[i]);
    }
  }

  lemma NoLines()
    ensures Join([], '\n') == ""
  {
  }
}
