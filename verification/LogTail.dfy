/** server/internal/repository/workflow.go: `TailLogs`, the backward chunked reader, against
    `ListLogs`, which reads the whole file. */
module LogTail {
  import opened Codecs
  import opened Options

  const NL: Byte := 10
  const CR: Byte := 13
  /** The longest token `ListLogs` lets its scanner buffer. */
  const SCAN_LIMIT: nat := 10 * 1024 * 1024

  /** A line without its newline; `Line([])` is the blank line. */
  datatype Line = Line(text: Bytes)

  const BLANK: Line := Line([])

  function Prefixed(pre: Bytes, l: Line): Line {
    Line(pre + l.text)
  }

  /** `strings.Split(s, "\n")`. */
  function Split(s: Bytes): (parts: seq<Line>)
    ensures |parts| > 0
  {
    if s == [] then [BLANK]
    else
      var rest := Split(s[1..]);
      if s[0] == NL then [BLANK] + rest else [Prefixed([s[0]], rest[0])] + rest[1..]
  }

  /** Gluing two line lists: the last line of the first runs on into the second. */
  function Glue(p: seq<Line>, q: seq<Line>): seq<Line>
    requires |p| > 0 && |q| > 0
  {
    if |p| == 1 then [Prefixed(p[0].text, q[0])] + q[1..] else [p[0]] + Glue(p[1..], q)
  }

  lemma {:induction false} SplitJoin(a: Bytes, b: Bytes)
    ensures Split(a + b) == Glue(Split(a), Split(b))
  {
    var q := Split(b);
    if a == [] {
      assert a + b == b;
      assert [] + q[0].text == q[0].text;
      assert q == [q[0]] + q[1..];
    } else {
      SplitJoin(a[1..], b);
      assert (a + b)[1..] == a[1..] + b;
      var p := Split(a[1..]);
      if a[0] == NL {
        assert ([BLANK] + p)[1..] == p;
      } else {
        GlueHead([a[0]], p, q);
      }
    }
  }

  lemma GlueHead(pre: Bytes, p: seq<Line>, q: seq<Line>)
    requires |p| > 0 && |q| > 0
    ensures [Prefixed(pre, Glue(p, q)[0])] + Glue(p, q)[1..] == Glue([Prefixed(pre, p[0])] + p[1..], q)
  {
    assert ([Prefixed(pre, p[0])] + p[1..])[1..] == p[1..];
    if |p| == 1 {
      assert pre + (p[0].text + q[0].text) == (pre + p[0].text) + q[0].text;
      assert Glue(p, q)[1..] == q[1..];
    } else {
      assert Glue(p, q)[1..] == Glue(p[1..], q);
    }
  }

  /** What follows the first line of the second list is untouched. */
  lemma {:induction false} GlueTail(p: seq<Line>, q: seq<Line>)
    requires |p| > 0 && |q| > 0
    ensures Glue(p, q) == Glue(p, [q[0]]) + q[1..]
  {
    if |p| > 1 { GlueTail(p[1..], q); }
  }

  lemma {:induction false} SplitPlain(s: Bytes)
    requires NL !in s
    ensures Split(s) == [Line(s)]
  {
    if s != [] {
      SplitPlain(s[1..]);
      assert [s[0]] + s[1..] == s;
    }
  }

  lemma {:induction false} FirstLinePlain(s: Bytes)
    ensures NL !in Split(s)[0].text
  {
    if s != [] && s[0] != NL {
      FirstLinePlain(s[1..]);
    }
  }

  function Kept(line: Line, trim: Line -> Line): seq<Line> {
    if trim(line) != BLANK then [trim(line)] else []
  }

  /** The lines that are not blank, trimmed, in order. */
  function NonBlank(parts: seq<Line>, trim: Line -> Line): seq<Line> {
    if parts == [] then []
    else NonBlank(parts[..|parts| - 1], trim) + Kept(parts[|parts| - 1], trim)
  }

  lemma NonBlankSnoc(init: seq<Line>, last: Line, trim: Line -> Line)
    ensures NonBlank(init + [last], trim) == NonBlank(init, trim) + Kept(last, trim)
    ensures NonBlank([last], trim) == Kept(last, trim)
  {
    assert (init + [last])[..|init|] == init;
    assert [last][..0] == [];
    assert NonBlank([last][..0], trim) == [];
  }

  lemma NonBlankJoinStep(a: seq<Line>, init: seq<Line>, last: Line, trim: Line -> Line)
    requires NonBlank(a + init, trim) == NonBlank(a, trim) + NonBlank(init, trim)
    ensures NonBlank(a + (init + [last]), trim) == NonBlank(a, trim) + NonBlank(init + [last], trim)
  {
    hide NonBlank, Kept;
    assert a + (init + [last]) == (a + init) + [last];
    NonBlankSnoc(a + init, last, trim);
    NonBlankSnoc(init, last, trim);
  }

  lemma {:induction false} NonBlankJoin(a: seq<Line>, b: seq<Line>, trim: Line -> Line)
    ensures NonBlank(a + b, trim) == NonBlank(a, trim) + NonBlank(b, trim)
  {
    assert NonBlank([], trim) == [];
    hide NonBlank;
    if b == [] {
      assert a + b == a;
    } else {
      var init, last := b[..|b| - 1], b[|b| - 1];
      NonBlankJoin(a, init, trim);
      NonBlankJoinStep(a, init, last, trim);
      assert b == init + [last];
    }
  }

  function Read<L>(line: Line, parse: Line -> Option<L>): seq<L> {
    if parse(line).Some? then [parse(line).value] else []
  }

  /** The parseable lines, in order. */
  function Parsed<L>(lines: seq<Line>, parse: Line -> Option<L>): seq<L> {
    if lines == [] then []
    else Parsed(lines[..|lines| - 1], parse) + Read(lines[|lines| - 1], parse)
  }

  lemma ParsedSnoc<L>(init: seq<Line>, last: Line, parse: Line -> Option<L>)
    ensures Parsed(init + [last], parse) == Parsed(init, parse) + Read(last, parse)
    ensures Parsed([last], parse) == Read(last, parse)
  {
    assert (init + [last])[..|init|] == init;
    assert [last][..0] == [];
    assert Parsed([last][..0], parse) == [];
  }

  lemma ParsedJoinStep<L>(a: seq<Line>, init: seq<Line>, last: Line, parse: Line -> Option<L>)
    requires Parsed(a + init, parse) == Parsed(a, parse) + Parsed(init, parse)
    ensures Parsed(a + (init + [last]), parse) == Parsed(a, parse) + Parsed(init + [last], parse)
  {
    hide Parsed, Read;
    assert a + (init + [last]) == (a + init) + [last];
    ParsedSnoc(a + init, last, parse);
    ParsedSnoc(init, last, parse);
  }

  lemma {:induction false} ParsedJoin<L>(a: seq<Line>, b: seq<Line>, parse: Line -> Option<L>)
    ensures Parsed(a + b, parse) == Parsed(a, parse) + Parsed(b, parse)
  {
    assert Parsed([], parse) == [];
    hide Parsed;
    if b == [] {
      assert a + b == a;
    } else {
      var init, last := b[..|b| - 1], b[|b| - 1];
      ParsedJoin(a, init, parse);
      ParsedJoinStep(a, init, last, parse);
      assert b == init + [last];
    }
  }

  function LastN<T>(s: seq<T>, n: int): seq<T> {
    if n <= 0 then [] else if |s| <= n then s else s[|s| - n..]
  }

  function Reversed<T>(s: seq<T>): seq<T> {
    seq(|s|, i requires 0 <= i < |s| => s[|s| - 1 - i])
  }

  lemma ReversedSnoc<T>(s: seq<T>, x: T)
    ensures Reversed(s + [x]) == [x] + Reversed(s)
  {
  }

  /** What `TailLogs` is for: the parseable ones among the last `n` non-blank lines, in file order. */
  function TailOf<L>(file: Bytes, n: int, trim: Line -> Line, parse: Line -> Option<L>): seq<L> {
    Parsed(LastN(NonBlank(Split(file), trim), n), parse)
  }

  /** The invariant between chunks: the unread-line prefix of what has been read is in
      `leftover`, and every complete line after it has been dealt with. */
  ghost predicate Caught(file: Bytes, offset: nat, leftover: Bytes, lines: seq<Line>, n: int, trim: Line -> Line) {
    && offset <= |file|
    && leftover == Split(file[offset..])[0].text
    && |lines| <= n
    && Reversed(lines) == LastN(NonBlank(Split(file[offset..])[1..], trim), n)
  }

  /** A chunk glued to the leftover splits into exactly the new first line and the new lines. */
  lemma ChunkSplit(file: Bytes, from: nat, offset: nat)
    requires from <= offset <= |file|
    ensures var rest := Split(file[offset..]);
            Split(file[from..]) == Split(file[from..offset] + rest[0].text) + rest[1..]
  {
    var chunk, tail := file[from..offset], file[offset..];
    var rest := Split(tail);
    FirstLinePlain(tail);
    SplitPlain(rest[0].text);
    SplitJoin(chunk, rest[0].text);
    SplitJoin(chunk, tail);
    GlueTail(Split(chunk), rest);
    assert chunk + tail == file[from..];
    assert Line(rest[0].text) == rest[0];
  }

  /** The lines so far are those of the parts from `i` on, in front of the earlier ones. */
  ghost predicate Taken(parts: seq<Line>, i: nat, lines: seq<Line>, lines0: seq<Line>, trim: Line -> Line) {
    i <= |parts| && Reversed(lines) == NonBlank(parts[i..], trim) + Reversed(lines0)
  }

  function Extended(lines: seq<Line>, line: Line): seq<Line> {
    if line != BLANK then lines + [line] else lines
  }

  lemma TakenStart(parts: seq<Line>, lines: seq<Line>, trim: Line -> Line)
    ensures Taken(parts, |parts|, lines, lines, trim)
  {
    assert [] + Reversed(lines) == Reversed(lines);
  }

  lemma TakenStep(parts: seq<Line>, i: nat, lines: seq<Line>, lines0: seq<Line>, trim: Line -> Line)
    requires i < |parts| && Taken(parts, i + 1, lines, lines0, trim)
    ensures Taken(parts, i, Extended(lines, trim(parts[i])), lines0, trim)
  {
    hide NonBlank, Reversed;
    TakeOne(parts, i, trim);
    AddLine(trim(parts[i]), lines, NonBlank(parts[i + 1..], trim), Reversed(lines0));
  }

  lemma TakenLast(parts: seq<Line>, i: nat, lines: seq<Line>, lines0: seq<Line>, n: int, trim: Line -> Line)
    requires 1 <= i && Taken(parts, i, lines, lines0, trim) && |lines| <= n
    requires i == 1 || |lines| == n
    ensures Reversed(lines) == LastN(NonBlank(parts[1..], trim) + Reversed(lines0), n)
  {
    if |lines| == n { StopAt(parts, i, n, trim, Reversed(lines0)); }
  }

  /** The inner loop: complete lines of a chunk, last first, until `n` lines are there. */
  method TakeLines(parts: seq<Line>, lines0: seq<Line>, n: int, trim: Line -> Line) returns (lines: seq<Line>)
    requires |parts| > 0 && |lines0| < n
    ensures |lines| <= n
    ensures Reversed(lines) == LastN(NonBlank(parts[1..], trim) + Reversed(lines0), n)
  {
    hide Taken, NonBlank, Reversed, LastN;
    lines := lines0;
    var i := |parts| - 1;
    TakenStart(parts, lines0, trim);
    while i >= 1
      invariant 0 <= i < |parts| && |lines| < n && Taken(parts, i + 1, lines, lines0, trim)
    {
      var line := trim(parts[i]);
      TakenStep(parts, i, lines, lines0, trim);
      if line != BLANK {
        lines := lines + [line];
        if |lines| == n {
          TakenLast(parts, i, lines, lines0, n, trim);
          return;
        }
      }
      i := i - 1;
    }
    TakenLast(parts, 1, lines, lines0, n, trim);
  }

  lemma AddLine(line: Line, lines: seq<Line>, late: seq<Line>, prev: seq<Line>)
    requires Reversed(lines) == late + prev
    ensures Reversed(lines + [line]) == ([line] + late) + prev
    ensures [] + late == late
  {
    ReversedSnoc(lines, line);
  }

  lemma TakeOne(parts: seq<Line>, i: nat, trim: Line -> Line)
    requires i < |parts|
    ensures NonBlank(parts[i..], trim) == Kept(parts[i], trim) + NonBlank(parts[i + 1..], trim)
  {
    hide NonBlank;
    NonBlankJoin([parts[i]], parts[i + 1..], trim);
    NonBlankSnoc([], parts[i], trim);
    assert [parts[i]] + parts[i + 1..] == parts[i..];
  }

  lemma StopAt(parts: seq<Line>, i: nat, n: int, trim: Line -> Line, prev: seq<Line>)
    requires 1 <= i <= |parts| && |NonBlank(parts[i..], trim) + prev| == n
    ensures LastN(NonBlank(parts[1..], trim) + prev, n) == NonBlank(parts[i..], trim) + prev
  {
    hide NonBlank;
    NonBlankJoin(parts[1..i], parts[i..], trim);
    assert parts[1..i] + parts[i..] == parts[1..];
    var early, late := NonBlank(parts[1..i], trim), NonBlank(parts[i..], trim) + prev;
    assert NonBlank(parts[1..], trim) + prev == early + late;
    LastOfJoin(early, late, n);
  }

  lemma LastOfJoin<T>(a: seq<T>, b: seq<T>, n: int)
    requires |b| == n
    ensures LastN(a + b, n) == b
  {
  }

  /** `TailLogs` on an existing file: a loop over chunks from the end, then the first line. */
  method TailLines(file: Bytes, n: int, chunkSize: nat, trim: Line -> Line) returns (lines: seq<Line>)
    requires chunkSize >= 1
    ensures Reversed(lines) == LastN(NonBlank(Split(file), trim), n)
  {
    lines := [];
    var offset: nat := |file|;
    var leftover: Bytes := [];
    assert file[|file|..] == [];
    while offset > 0 && |lines| < n
      invariant n > 0 ==> Caught(file, offset, leftover, lines, n, trim)
      invariant n <= 0 ==> lines == []
      decreases offset
    {
      var readSize := if offset < chunkSize then offset else chunkSize;
      ghost var before := offset;
      offset := offset - readSize;
      var buf := file[offset..offset + readSize];
      if |leftover| > 0 {
        buf := buf + leftover;
      }
      assert buf == file[offset..before] + leftover;
      var parts := Split(buf);
      leftover := parts[0].text;
      lines := TakeLines(parts, lines, n, trim);
      ChunkCaught(file, offset, before, n, trim, lines);
    }
    if offset == 0 && |lines| < n {
      assert file[0..] == file;
      FirstLine(Split(file)[0], Split(file)[1..], trim);
      assert Split(file) == [Split(file)[0]] + Split(file)[1..];
      var line := trim(Line(leftover));
      if line != BLANK {
        ReversedSnoc(lines, line);
        lines := lines + [line];
      }
    } else if n > 0 {
      EarlyStop(file, offset, n, trim);
    }
  }

  lemma ChunkCaught(file: Bytes, from: nat, offset: nat, n: int, trim: Line -> Line, lines: seq<Line>)
    requires from <= offset <= |file| && n > 0
    requires Reversed(lines) == LastN(NonBlank(Split(file[from..offset] + Split(file[offset..])[0].text)[1..], trim)
                                      + NonBlank(Split(file[offset..])[1..], trim), n)
    ensures Split(file[from..])[0] == Split(file[from..offset] + Split(file[offset..])[0].text)[0]
    ensures Reversed(lines) == LastN(NonBlank(Split(file[from..])[1..], trim), n)
  {
    hide NonBlank, Split;
    ChunkSplit(file, from, offset);
    var parts, rest := Split(file[from..offset] + Split(file[offset..])[0].text), Split(file[offset..]);
    NonBlankJoin(parts[1..], rest[1..], trim);
    assert (parts + rest[1..])[1..] == parts[1..] + rest[1..];
  }

  lemma FirstLine(first: Line, rest: seq<Line>, trim: Line -> Line)
    ensures NonBlank([first] + rest, trim) == Kept(first, trim) + NonBlank(rest, trim)
  {
    hide NonBlank;
    NonBlankJoin([first], rest, trim);
    NonBlankSnoc([], first, trim);
  }

  /** Once `n` lines are there, what stands before them in the file does not matter. */
  lemma EarlyStop(file: Bytes, offset: nat, n: int, trim: Line -> Line)
    requires offset <= |file| && n > 0
    requires |LastN(NonBlank(Split(file[offset..])[1..], trim), n)| == n
    ensures LastN(NonBlank(Split(file), trim), n) == LastN(NonBlank(Split(file[offset..])[1..], trim), n)
  {
    hide NonBlank, Split;
    ChunkSplit(file, 0, offset);
    assert file[0..] == file;
    var head, late := Split(file[0..offset] + Split(file[offset..])[0].text), Split(file[offset..])[1..];
    NonBlankJoin(head, late, trim);
  }

  /** The final in-place reversal. */
  method ReverseLogs<L>(logs0: seq<L>) returns (logs: seq<L>)
    ensures logs == Reversed(logs0)
  {
    logs := logs0;
    var i, j := 0, |logs| - 1;
    while i < j
      invariant 0 <= i <= j + 1 && i + j == |logs0| - 1 && |logs| == |logs0|
      invariant forall k :: i <= k <= j ==> logs[k] == logs0[k]
      invariant forall k :: 0 <= k < i || j < k < |logs| ==> logs[k] == logs0[|logs0| - 1 - k]
    {
      logs := logs[i := logs[j]][j := logs[i]];
      i, j := i + 1, j - 1;
    }
  }

  /** `TailLogs`: for every file, every `n` and every chunk size of at least one, the parseable
      ones among the last `n` non-blank lines, in file order. */
  method TailLogs<L>(file: Bytes, n: int, chunkSize: nat, trim: Line -> Line, parse: Line -> Option<L>)
      returns (logs: seq<L>)
    requires chunkSize >= 1
    ensures logs == TailOf(file, n, trim, parse)
  {
    var lines := TailLines(file, n, chunkSize, trim);
    logs := [];
    assert Parsed(Reversed(lines[..0]), parse) == [];
    hide Parsed;
    for i := 0 to |lines|
      invariant Reversed(logs) == Parsed(Reversed(lines[..i]), parse)
    {
      ReversedSnoc(lines[..i], lines[i]);
      assert lines[..i + 1] == lines[..i] + [lines[i]];
      ParsedJoin([lines[i]], Reversed(lines[..i]), parse);
      ParsedSnoc([], lines[i], parse);
      var log := parse(lines[i]);
      if log.Some? {
        ReversedSnoc(logs, log.value);
        logs := logs + [log.value];
      }
    }
    assert lines[..|lines|] == lines;
    logs := ReverseLogs(logs);
  }

  /** `bufio.ScanLines` drops one carriage return at the end of a line. */
  function DropCR(line: Line): Line {
    var n := |line.text|;
    if n > 0 && line.text[n - 1] == CR then Line(line.text[..n - 1]) else line
  }

  function DropCRs(parts: seq<Line>): seq<Line> {
    if parts == [] then [] else DropCRs(parts[..|parts| - 1]) + [DropCR(parts[|parts| - 1])]
  }

  /** The scanner's tokens: the lines, without an empty last one. */
  function Tokens(file: Bytes): seq<Line> {
    var parts := Split(file);
    DropCRs(if parts[|parts| - 1] == BLANK then parts[..|parts| - 1] else parts)
  }

  /** Every line, with its newline, fits the scanner's buffer. */
  predicate Scannable(file: Bytes) {
    forall i :: 0 <= i < |Split(file)| ==> |Split(file)[i].text| < SCAN_LIMIT
  }

  /** `ListLogs`: a line that overflows the scanner fails the whole call. */
  method ListLogs<L>(file: Bytes, parse: Line -> Option<L>) returns (r: Option<seq<L>>)
    ensures r == if Scannable(file) then Some(Parsed(Tokens(file), parse)) else None
  {
    hide Scannable, Tokens;
    if !Scannable(file) {
      return None;
    }
    var tokens := Tokens(file);
    var logs: seq<L> := [];
    for i := 0 to |tokens|
      invariant logs == Parsed(tokens[..i], parse)
    {
      ParsedSnoc(tokens[..i], tokens[i], parse);
      assert tokens[..i + 1] == tokens[..i] + [tokens[i]];
      if parse(tokens[i]).Some? {
        logs := logs + [parse(tokens[i]).value];
      }
    }
    assert tokens[..|tokens|] == tokens;
    r := Some(logs);
  }

  /** What the reader's pair of trimming and JSON parsing meets: a blank line does not parse, and a
      line that parses as the scanner hands it out parses to the same log when trimmed instead. */
  ghost predicate TrimSafe<L>(trim: Line -> Line, parse: Line -> Option<L>) {
    && parse(BLANK).None?
    && (forall x :: parse(DropCR(x)).Some? ==> parse(trim(x)) == parse(DropCR(x)))
  }

  /** Every line that parses trimmed also parses as the scanner hands it out. */
  ghost predicate PlainlyPadded<L>(parts: seq<Line>, trim: Line -> Line, parse: Line -> Option<L>) {
    forall i :: 0 <= i < |parts| ==> Plain(parts[i], trim, parse)
  }

  predicate Plain<L>(line: Line, trim: Line -> Line, parse: Line -> Option<L>) {
    parse(trim(line)).Some? ==> parse(DropCR(line)).Some?
  }

  /** One line reads the same raw or trimmed exactly when it is plainly padded; else only trimmed. */
  lemma TokenRead<L>(line: Line, trim: Line -> Line, parse: Line -> Option<L>)
    requires TrimSafe(trim, parse)
    ensures Plain(line, trim, parse) ==> Parsed(Kept(line, trim), parse) == Read(DropCR(line), parse)
    ensures !Plain(line, trim, parse) ==> |Parsed(Kept(line, trim), parse)| == 1 && Read(DropCR(line), parse) == []
  {
    ParsedSnoc([], trim(line), parse);
    assert Parsed([], parse) == [];
  }

  /** The listing reads what the tail reads exactly when all lines are plainly padded, and otherwise less. */
  lemma {:induction false} TokensParse<L>(parts: seq<Line>, trim: Line -> Line, parse: Line -> Option<L>)
    requires TrimSafe(trim, parse)
    ensures PlainlyPadded(parts, trim, parse) ==> Parsed(DropCRs(parts), parse) == Parsed(NonBlank(parts, trim), parse)
    ensures |Parsed(DropCRs(parts), parse)| <= |Parsed(NonBlank(parts, trim), parse)|
    ensures !PlainlyPadded(parts, trim, parse) ==>
              |Parsed(DropCRs(parts), parse)| < |Parsed(NonBlank(parts, trim), parse)|
  {
    hide TrimSafe, Plain, Parsed, Kept;
    if parts != [] {
      var n := |parts| - 1;
      TokensParse(parts[..n], trim, parse);
      ParsedSnoc(DropCRs(parts[..n]), DropCR(parts[n]), parse);
      TokenRead(parts[n], trim, parse);
      ParsedJoin(NonBlank(parts[..n], trim), Kept(parts[n], trim), parse);
      PaddedSnoc(parts, trim, parse);
    } else {
      assert DropCRs(parts) == NonBlank(parts, trim);
    }
  }

  lemma PaddedSnoc<L>(parts: seq<Line>, trim: Line -> Line, parse: Line -> Option<L>)
    requires parts != []
    ensures PlainlyPadded(parts, trim, parse)
            <==> PlainlyPadded(parts[..|parts| - 1], trim, parse) && Plain(parts[|parts| - 1], trim, parse)
  {
    hide Plain;
    var n := |parts| - 1;
    forall i | 0 <= i < n ensures parts[..n][i] == parts[i] {}
    if PlainlyPadded(parts[..n], trim, parse) && Plain(parts[n], trim, parse) {
      forall i | 0 <= i < |parts| ensures Plain(parts[i], trim, parse) {
        if i < n { assert Plain(parts[..n][i], trim, parse); }
      }
    }
  }

  ghost predicate SuffixOf<T>(tail: seq<T>, s: seq<T>) {
    |tail| <= |s| && s[|s| - |tail|..] == tail
  }

  /** For every file: all tails are suffixes of the full listing exactly when every line that parses
      trimmed also parses raw. */
  lemma TailIsSuffixExactly<L>(file: Bytes, trim: Line -> Line, parse: Line -> Option<L>)
    requires TrimSafe(trim, parse)
    ensures (forall n :: SuffixOf(TailOf(file, n, trim, parse), Parsed(Tokens(file), parse)))
            <==> PlainlyPadded(Split(file), trim, parse)
  {
    hide Parsed, NonBlank, Split, DropCRs, TrimSafe, PlainlyPadded, Tokens;
    TokensListed(file, trim, parse);
    if PlainlyPadded(Split(file), trim, parse) {
      forall n ensures SuffixOf(TailOf(file, n, trim, parse), Parsed(Tokens(file), parse)) {
        LastReadLast(NonBlank(Split(file), trim), n, parse);
      }
    } else {
      var all := NonBlank(Split(file), trim);
      assert LastN(all, |all|) == all;
      assert !SuffixOf(TailOf(file, |all|, trim, parse), Parsed(Tokens(file), parse));
    }
  }

  lemma LastReadLast<L>(all: seq<Line>, n: int, parse: Line -> Option<L>)
    ensures SuffixOf(Parsed(LastN(all, n), parse), Parsed(all, parse))
  {
    hide Parsed;
    var kept := LastN(all, n);
    var cut := |all| - |kept|;
    assert all == all[..cut] + kept;
    ParsedJoin(all[..cut], kept, parse);
  }

  /** Dropping an empty last line drops nothing that reads. */
  lemma TokensListed<L>(file: Bytes, trim: Line -> Line, parse: Line -> Option<L>)
    requires TrimSafe(trim, parse)
    ensures PlainlyPadded(Split(file), trim, parse) ==>
              Parsed(Tokens(file), parse) == Parsed(NonBlank(Split(file), trim), parse)
    ensures !PlainlyPadded(Split(file), trim, parse) ==>
              |Parsed(Tokens(file), parse)| < |Parsed(NonBlank(Split(file), trim), parse)|
  {
    hide NonBlank, Split, DropCRs, PlainlyPadded, TrimSafe, Parsed, Tokens;
    TokensParse(Split(file), trim, parse);
    TokensRead(file, trim, parse);
  }

  lemma TokensRead<L>(file: Bytes, trim: Line -> Line, parse: Line -> Option<L>)
    requires TrimSafe(trim, parse)
    ensures Parsed(Tokens(file), parse) == Parsed(DropCRs(Split(file)), parse)
  {
    hide Split, DropCRs, TrimSafe, Parsed;
    var parts := Split(file);
    var n := |parts| - 1;
    if parts[n] == BLANK {
      BlankUnread(parts[..n], trim, parse);
      assert parts == parts[..n] + [BLANK];
    }
  }

  lemma BlankUnread<L>(init: seq<Line>, trim: Line -> Line, parse: Line -> Option<L>)
    requires TrimSafe(trim, parse)
    ensures Parsed(DropCRs(init + [BLANK]), parse) == Parsed(DropCRs(init), parse)
  {
    assert (init + [BLANK])[..|init|] == init;
    ParsedSnoc(DropCRs(init), BLANK, parse);
  }

  function Strip(s: Bytes, space: set<Byte>): Bytes
    decreases |s|
  {
    if s == [] then []
    else if s[0] in space then Strip(s[1..], space)
    else if s[|s| - 1] in space then Strip(s[..|s| - 1], space)
    else s
  }

  /** The white space of `strings.TrimSpace` (its one-byte part) and of JSON. */
  const TRIM_SPACE: set<Byte> := {9, 10, 11, 12, 13, 32}
  const JSON_SPACE: set<Byte> := {9, 10, 13, 32}

  function TrimSpace(l: Line): Line {
    Line(Strip(l.text, TRIM_SPACE))
  }

  /** Enough of a JSON parser: it accepts the empty object and white space around it. */
  function ParseEmptyObject(l: Line): Option<int> {
    if Strip(l.text, JSON_SPACE) == [123, 125] then Some(0) else None
  }

  lemma {:induction false} StripPlain(s: Bytes, less: set<Byte>)
    requires s != [] && s[0] !in less
    ensures Strip(s, less) != [] && Strip(s, less)[0] == s[0]
    decreases |s|
  {
    if s[|s| - 1] in less { StripPlain(s[..|s| - 1], less); }
  }

  /** What is left after stripping less is left after stripping more, if the more leaves its ends alone. */
  lemma {:induction false} StripMore(s: Bytes, more: set<Byte>, less: set<Byte>, core: Bytes)
    requires less <= more && Strip(s, less) == core && core != [] && core[0] !in more && core[|core| - 1] !in more
    ensures Strip(s, more) == core
    decreases |s|
  {
    if s[0] in less {
      StripMore(s[1..], more, less, core);
    } else {
      StripPlain(s, less);
      if s[|s| - 1] in less {
        StripMore(s[..|s| - 1], more, less, core);
      }
    }
  }

  lemma {:induction false} StripLast(s: Bytes, space: set<Byte>, b: Byte)
    requires b in space
    ensures Strip(s + [b], space) == Strip(s, space)
    decreases |s|
  {
    var t := s + [b];
    if s != [] && s[0] in space {
      StripLast(s[1..], space, b);
      assert t[1..] == s[1..] + [b];
    } else {
      assert t[..|s|] == s;
      if s == [] { assert t[1..] == []; }
    }
  }

  /** That pair meets the premise. */
  lemma EmptyObjectTrimSafe()
    ensures TrimSafe(TrimSpace, ParseEmptyObject)
  {
    forall x | ParseEmptyObject(DropCR(x)).Some? ensures ParseEmptyObject(TrimSpace(x)) == ParseEmptyObject(DropCR(x)) {
      var core: Bytes := [123, 125];
      StripMore(DropCR(x).text, TRIM_SPACE, JSON_SPACE, core);
      if DropCR(x) != x {
        StripLast(DropCR(x).text, TRIM_SPACE, CR);
        assert x.text == DropCR(x).text + [CR];
      }
      assert TrimSpace(x).text == core;
      assert Strip(core, JSON_SPACE) == core;
    }
  }

  /** The condition on the file is needed: trimming removes a vertical tab, JSON does not, so a line that the
      listing skips can come back from the tail. */
  lemma VerticalTabBreaksSuffix()
    ensures var file: Bytes := [11, 123, 125];
            !SuffixOf(TailOf(file, 1, TrimSpace, ParseEmptyObject), Parsed(Tokens(file), ParseEmptyObject))
  {
    hide Split, Strip, Parsed, DropCRs, NonBlank;
    var file: Bytes := [11, 123, 125];
    var line, braces := Line(file), Line([123, 125]);
    SplitPlain(file);
    StripTab();
    OneLine(line, TrimSpace, ParseEmptyObject);
    assert LastN([braces], 1) == [braces];
    ParsedSnoc([], braces, ParseEmptyObject);
    ParsedSnoc([], line, ParseEmptyObject);
  }

  lemma StripTab()
    ensures Strip([11, 123, 125], TRIM_SPACE) == [123, 125] && Strip([11, 123, 125], JSON_SPACE) == [11, 123, 125]
    ensures Strip([123, 125], JSON_SPACE) == [123, 125]
  {
    var file: Bytes := [11, 123, 125];
    assert file[1..] == [123, 125];
  }

  lemma OneLine<L>(line: Line, trim: Line -> Line, parse: Line -> Option<L>)
    requires DropCR(line) == line && trim(line) != BLANK
    ensures DropCRs([line]) == [line] && NonBlank([line], trim) == [trim(line)] && Parsed([], parse) == []
  {
    assert [line][..0] == [];
    NonBlankSnoc([], line, trim);
  }
}
