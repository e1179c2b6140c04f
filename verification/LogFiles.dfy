/** server/internal/repository/workflow.go: what the scanner of `ListLogs` makes of a file, told from
    the bytes of the file. */
module LogFiles {
  import opened Codecs
  import opened Options
  import opened LogTail

  /** The lines one after the other, each ended by a newline or by a carriage return and a newline. */
  function Written(lines: seq<Line>, crlf: seq<bool>): Bytes
    requires |crlf| == |lines|
  {
    if lines == [] then []
    else Ended(lines[0], crlf[0]) + ([NL] + Written(lines[1..], crlf[1..]))
  }

  function Ended(line: Line, crlf: bool): Bytes {
    line.text + if crlf then [CR] else []
  }

  /** The text holds no newline and does not end in a carriage return. */
  predicate Clean(text: Bytes) {
    NL !in text && (text != [] ==> text[|text| - 1] != CR)
  }

  lemma SplitLine(text: Bytes, rest: Bytes)
    requires NL !in text
    ensures Split(text + ([NL] + rest)) == [Line(text)] + Split(rest)
  {
    SplitJoin(text, [NL] + rest);
    SplitPlain(text);
    assert ([NL] + rest)[1..] == rest;
    assert text + [] == text;
  }

  lemma {:induction false} DropCRsFront(x: Line, parts: seq<Line>)
    ensures DropCRs([x] + parts) == [DropCR(x)] + DropCRs(parts)
  {
    if parts == [] {
      OneToken(x);
      assert [x] + parts == [x];
    } else {
      var n := |parts| - 1;
      DropCRsFront(x, parts[..n]);
      assert ([x] + parts)[..n + 1] == [x] + parts[..n];
    }
  }

  /** A file written line by line, whichever way the lines end and with or without a last newline, is
      scanned back line by line. */
  lemma {:induction false} ScansBack(lines: seq<Line>, crlf: seq<bool>, last: Bytes)
    requires |crlf| == |lines| && Clean(last) && forall i :: 0 <= i < |lines| ==> Clean(lines[i].text)
    ensures Tokens(Written(lines, crlf) + last) == lines + if last == [] then [] else [Line(last)]
  {
    hide DropCRs, Tokens, DropCR, Split, Ended;
    if lines == [] {
      assert Written(lines, crlf) + last == last;
      SplitPlain(last);
      LastToken(last);
    } else {
      var rest := Written(lines[1..], crlf[1..]) + last;
      var first := Ended(lines[0], crlf[0]);
      ScansBack(lines[1..], crlf[1..], last);
      assert Written(lines, crlf) + last == first + ([NL] + rest);
      EndedPlain(lines[0], crlf[0]);
      SplitLine(first, rest);
      FirstToken(first, rest);
      assert DropCR(Line(first)) == lines[0] by { Undone(lines[0], crlf[0]); }
      assert [lines[0]] + lines[1..] == lines;
    }
  }

  lemma EndedPlain(line: Line, crlf: bool)
    requires Clean(line.text)
    ensures NL !in Ended(line, crlf)
  {
  }

  lemma Undone(line: Line, crlf: bool)
    requires Clean(line.text)
    ensures DropCR(Line(Ended(line, crlf))) == line
  {
    if crlf { assert (line.text + [CR])[..|line.text|] == line.text; }
  }

  lemma OneToken(x: Line)
    ensures DropCRs([]) == [] && DropCRs([x]) == [DropCR(x)]
  {
    hide DropCR;
    assert [x][..0] == [];
    assert DropCRs([x]) == DropCRs([x][..0]) + [DropCR(x)];
  }

  lemma LastToken(last: Bytes)
    requires Split(last) == [Line(last)] && Clean(last)
    ensures Tokens(last) == if last == [] then [] else [Line(last)]
  {
    hide DropCRs, Split;
    OneToken(Line(last));
    assert [Line(last)][..0] == [];
  }

  lemma FirstToken(first: Bytes, rest: Bytes)
    requires Split(first + ([NL] + rest)) == [Line(first)] + Split(rest)
    ensures Tokens(first + ([NL] + rest)) == [DropCR(Line(first))] + Tokens(rest)
  {
    hide DropCRs, Split;
    var parts := Split(rest);
    var all := [Line(first)] + parts;
    assert all[|all| - 1] == parts[|parts| - 1] && all[..|all| - 1] == [Line(first)] + parts[..|parts| - 1];
    DropCRsFront(Line(first), parts);
    DropCRsFront(Line(first), parts[..|parts| - 1]);
  }

  /** The parts that the tail reads from the back are those same lines, with what they ended in. */
  lemma {:induction false} SplitsBack(lines: seq<Line>, crlf: seq<bool>, last: Bytes)
    requires |crlf| == |lines| && NL !in last && forall i :: 0 <= i < |lines| ==> Clean(lines[i].text)
    ensures var parts := Split(Written(lines, crlf) + last);
            && |parts| == |lines| + 1 && parts[|lines|] == Line(last)
            && forall i :: 0 <= i < |lines| ==> parts[i] == Line(Ended(lines[i], crlf[i]))
  {
    hide Split, Ended;
    if lines == [] {
      assert Written(lines, crlf) + last == last;
      SplitPlain(last);
    } else {
      var rest := Written(lines[1..], crlf[1..]) + last;
      var first := Ended(lines[0], crlf[0]);
      SplitsBack(lines[1..], crlf[1..], last);
      assert Written(lines, crlf) + last == first + ([NL] + rest);
      EndedPlain(lines[0], crlf[0]);
      SplitLine(first, rest);
    }
  }

  lemma {:induction false} FirstLineLength(s: Bytes, m: nat)
    ensures |Split(s)[0].text| >= m <==> m <= |s| && NL !in s[..m]
  {
    if s != [] && m > 0 {
      FirstLineLength(s[1..], m - 1);
      if m <= |s| { assert s[..m] == [s[0]] + s[1..][..m - 1]; }
    }
  }

  /** Somewhere `n` bytes stand together without a newline. */
  ghost predicate LongRun(s: Bytes, n: nat) {
    exists i :: PlainAt(s, i, n)
  }

  predicate PlainAt(s: Bytes, i: int, n: nat) {
    0 <= i && i + n <= |s| && NL !in s[i..i + n]
  }

  ghost predicate LongLine(s: Bytes, n: nat) {
    exists i :: 0 <= i < |Split(s)| && |Split(s)[i].text| >= n
  }

  lemma {:induction false} LongLineIsLongRun(s: Bytes, n: nat)
    requires n >= 1
    ensures LongLine(s, n) <==> LongRun(s, n)
  {
    if s != [] {
      LongLineIsLongRun(s[1..], n);
      FirstLineLength(s, n);
      RunStep(s, n);
      LineStep(s, n);
    }
  }

  lemma RunStep(s: Bytes, n: nat)
    requires n >= 1 && s != []
    ensures LongRun(s, n) <==> LongRun(s[1..], n) || (n <= |s| && NL !in s[..n])
  {
    if i :| PlainAt(s, i, n) {
      if i > 0 { ShiftPlain(s, i, n); } else { assert s[0..n] == s[..n]; }
    }
    if i :| PlainAt(s[1..], i, n) { ShiftPlain(s, i + 1, n); }
    if n <= |s| && NL !in s[..n] {
      assert s[0..0 + n] == s[..n];
      assert PlainAt(s, 0, n);
    }
  }

  lemma ShiftPlain(s: Bytes, i: int, n: nat)
    requires s != [] && i >= 1
    ensures PlainAt(s, i, n) <==> PlainAt(s[1..], i - 1, n)
  {
    if i + n <= |s| { assert s[1..][i - 1..i - 1 + n] == s[i..i + n]; }
  }

  lemma LineStep(s: Bytes, n: nat)
    requires n >= 1 && s != []
    ensures LongLine(s, n) <==> LongLine(s[1..], n) || |Split(s)[0].text| >= n
  {
    var rest, parts := Split(s[1..]), Split(s);
    if i :| 0 <= i < |parts| && |parts[i].text| >= n {
      if i > 0 { assert parts[i] == if s[0] == NL then rest[i - 1] else rest[i]; }
    }
    if i :| 0 <= i < |rest| && |rest[i].text| >= n {
      if s[0] == NL {
        assert parts[i + 1] == rest[i];
      } else if i > 0 {
        assert parts[i] == rest[i];
      }
    }
  }

  /** A listing fails exactly when the file holds as many bytes in a row without a newline as the
      scanner may buffer. */
  lemma ScannableExactly(file: Bytes)
    ensures Scannable(file) <==> !LongRun(file, SCAN_LIMIT)
  {
    hide Split;
    LongLineIsLongRun(file, SCAN_LIMIT);
  }
}
