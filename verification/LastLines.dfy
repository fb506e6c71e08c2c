/** Reading the last lines of a file backwards, block by block (readLastLines in internal/api/server.go). */
module LastLines {

  newtype Byte = x: int | 0 <= x < 256

  type Line = seq<Byte>

  const NEWLINE: Byte := 10

  const BLOCK: nat := 32 * 1024

  const DEFAULT_MAX_BYTES := 1024 * 1024

  // ---------- The simple form

  /** The pieces between newlines; always at least one. */
  function Split(s: seq<Byte>): (lines: seq<Line>)
    ensures |lines| > 0
  {
    if s == [] then [[]]
    else
      var rest := Split(s[1..]);
      if s[0] == NEWLINE then [[]] + rest else [[s[0]] + rest[0]] + rest[1..]
  }

  /** The text that the lines make up with newlines between them. */
  function Join(lines: seq<Line>): (s: seq<Byte>) {
    if lines == [] then [] else if |lines| == 1 then lines[0] else lines[0] + [10] + Join(lines[1..])
  }

  /** Splitting loses nothing: joined with newlines the lines are the text again, and no line holds a newline. */
  lemma {:induction false} SplitJoins(s: seq<Byte>)
    ensures Join(Split(s)) == s
    ensures forall i :: 0 <= i < |Split(s)| ==> 10 !in Split(s)[i]
  {
    if s != [] {
      SplitJoins(s[1..]);
      JoinsOneMore(s[0], Split(s[1..]));
      assert s == [s[0]] + s[1..];
    }
  }

  lemma JoinsOneMore(c: Byte, rest: seq<Line>)
    requires rest != []
    ensures c == NEWLINE ==> Join([[]] + rest) == [c] + Join(rest)
    ensures Join([[c] + rest[0]] + rest[1..]) == [c] + Join(rest)
  {
    assert ([[]] + rest)[1..] == rest;
    assert [] + [NEWLINE] + Join(rest) == [NEWLINE] + Join(rest);
    LongerFirst(c, rest[0], rest[1..]);
    assert [rest[0]] + rest[1..] == rest;
  }

  lemma LongerFirst(c: Byte, first: Line, more: seq<Line>)
    ensures Join([[c] + first] + more) == [c] + Join([first] + more)
  {
    assert ([[c] + first] + more)[1..] == more && ([first] + more)[1..] == more;
    if more != [] {
      Assoc([c], first, [NEWLINE], Join(more));
    }
  }

  lemma Assoc(a: seq<Byte>, b: seq<Byte>, c: seq<Byte>, d: seq<Byte>)
    ensures (a + b) + c + d == a + (b + c + d)
  {}

  function Newlines(s: seq<Byte>): nat {
    if s == [] then 0 else (if s[0] == NEWLINE then 1 else 0) + Newlines(s[1..])
  }

  function TrimBlank(lines: seq<Line>, blank: Line -> bool): (r: seq<Line>)
    ensures r <= lines
    ensures r != [] ==> !blank(r[|r| - 1])
    ensures forall i :: |r| <= i < |lines| ==> blank(lines[i])
  {
    if lines != [] && blank(lines[|lines| - 1]) then TrimBlank(lines[..|lines| - 1], blank) else lines
  }

  function Tail(lines: seq<Line>, max: nat): seq<Line> {
    if |lines| <= max then lines else lines[|lines| - max..]
  }

  /** The answer is made of the last lines, as many as asked for or all of them. */
  lemma TailIsLast(lines: seq<Line>, max: nat, i: nat)
    requires i < |Tail(lines, max)|
    ensures |Tail(lines, max)| == (if |lines| < max then |lines| else max)
    ensures Tail(lines, max)[i] == lines[|lines| - |Tail(lines, max)| + i]
  {}

  function TrimmedLines(s: seq<Byte>, blank: Line -> bool): seq<Line> {
    TrimBlank(Split(s), blank)
  }

  /** The last `max` lines of the text, trailing blank lines not counted. */
  function LastLinesOf(s: seq<Byte>, max: nat, blank: Line -> bool): seq<Line> {
    Tail(TrimmedLines(s, blank), max)
  }

  // ---------- The backwards reader

  /** Where the reader stops when it has read everything from `offset` on. */
  function StopOffset(file: seq<Byte>, maxLines: nat, maxBytes: nat, offset: nat): (stop: nat)
    requires offset <= |file|
    ensures stop <= offset
    ensures stop == 0 || |file| - stop >= maxBytes || Newlines(file[stop..]) > maxLines
  {
    if offset > 0 && |file| - offset < maxBytes && Newlines(file[offset..]) <= maxLines
    then StopOffset(file, maxLines, maxBytes, if offset < BLOCK then 0 else offset - BLOCK)
    else offset
  }

  function EffectiveMaxBytes(maxBytes: int): nat {
    if maxBytes <= 0 then DEFAULT_MAX_BYTES else maxBytes
  }

  /** The part of the file the reader looks at. */
  function Window(file: seq<Byte>, maxLines: nat, maxBytes: int): seq<Byte> {
    file[StopOffset(file, maxLines, EffectiveMaxBytes(maxBytes), |file|)..]
  }

  /** Before the last block was read, reading had to go on: the cap was not reached and there were not more newlines
      than lines asked for. */
  lemma {:induction false} StopsAtFirst(file: seq<Byte>, maxLines: nat, maxBytes: nat, offset: nat) returns (before: nat)
    requires offset <= |file| && StopOffset(file, maxLines, maxBytes, offset) < offset
    ensures StopOffset(file, maxLines, maxBytes, offset) < before <= offset
    ensures before <= StopOffset(file, maxLines, maxBytes, offset) + BLOCK
    ensures |file| - before < maxBytes && Newlines(file[before..]) <= maxLines
    decreases offset
  {
    var next := if offset < BLOCK then 0 else offset - BLOCK;
    if StopOffset(file, maxLines, maxBytes, next) == next {
      before := offset;
    } else {
      before := StopsAtFirst(file, maxLines, maxBytes, next);
    }
  }

  /** No more is read than the byte cap and a block of 32 KiB; without a cap it is 1 MiB. */
  lemma ReadIsBounded(file: seq<Byte>, maxLines: nat, maxBytes: int)
    ensures |Window(file, maxLines, maxBytes)| < (if maxBytes <= 0 then 1_048_576 else maxBytes) + 32_768
    ensures |Window(file, maxLines, maxBytes)| >= (if maxBytes <= 0 then 1_048_576 else maxBytes)
            || Window(file, maxLines, maxBytes) == file || Newlines(Window(file, maxLines, maxBytes)) > maxLines
  {
    var cap := EffectiveMaxBytes(maxBytes);
    if StopOffset(file, maxLines, cap, |file|) < |file| {
      var before := StopsAtFirst(file, maxLines, cap, |file|);
    }
    assert file[0..] == file;
  }

  /** What has been read when the reader stands at `offset`. */
  ghost predicate ReadSoFar(file: seq<Byte>, maxLines: nat, cap: nat, offset: nat, readBytes: nat, newlines: nat, chunks: seq<seq<Byte>>) {
    && offset <= |file| && readBytes == |file| - offset
    && newlines == Newlines(file[offset..])
    && Glued(chunks) == file[offset..]
    && StopOffset(file, maxLines, cap, offset) == StopOffset(file, maxLines, cap, |file|)
  }

  lemma BlockRead(file: seq<Byte>, maxLines: nat, cap: nat, offset: nat, newlines: nat, chunks: seq<seq<Byte>>, step: nat)
    requires offset <= |file| && ReadSoFar(file, maxLines, cap, offset, |file| - offset, newlines, chunks)
    requires offset > 0 && |file| - offset < cap && newlines <= maxLines
    requires step == if offset < BLOCK then offset else BLOCK
    ensures var b := file[offset - step..offset];
            ReadSoFar(file, maxLines, cap, offset - step, |file| - offset + step, newlines + Newlines(b), chunks + [b])
  {
    var b := file[offset - step..offset];
    NewlinesOfConcat(b, file[offset..]);
    assert b + file[offset..] == file[offset - step..];
  }

  /** The file's blocks from the last one back, until the start, the byte cap or enough newlines. */
  method ReadBlocks(file: seq<Byte>, maxLines: nat, cap: nat) returns (chunks: seq<seq<Byte>>)
    ensures Glued(chunks) == file[StopOffset(file, maxLines, cap, |file|)..]
  {
    var offset: nat, readBytes: nat, newlines: nat := |file|, 0, 0;
    chunks := [];
    while offset > 0 && readBytes < cap && newlines <= maxLines
      invariant ReadSoFar(file, maxLines, cap, offset, readBytes, newlines, chunks)
      decreases offset
    {
      var step := BLOCK;
      if offset < step {
        step := offset;
      }
      var b := file[offset - step..offset];
      BlockRead(file, maxLines, cap, offset, newlines, chunks, step);
      offset := offset - step;
      chunks := chunks + [b];
      readBytes := readBytes + |b|;
      newlines := newlines + Newlines(b);
    }
  }

  /** The chunks written from the last one to the first. */
  method Assemble(chunks: seq<seq<Byte>>) returns (buf: seq<Byte>)
    ensures buf == Glued(chunks)
  {
    buf := [];
    assert chunks[..|chunks|] == chunks;
    for i := |chunks| downto 0
      invariant buf + Glued(chunks[..i]) == Glued(chunks)
    {
      assert chunks[..i + 1][..i] == chunks[..i];
      buf := buf + chunks[i];
    }
  }

  /** Drop trailing blank lines and keep the last maxLines of the others. */
  method CutLines(lines: seq<Line>, maxLines: nat, blank: Line -> bool) returns (r: seq<Line>)
    ensures r == Tail(TrimBlank(lines, blank), maxLines)
  {
    var all := lines;
    while |all| > 0 && blank(all[|all| - 1])
      invariant TrimBlank(all, blank) == TrimBlank(lines, blank)
    {
      all := all[..|all| - 1];
    }
    if |all| <= maxLines {
      return all;
    }
    return all[|all| - maxLines..];
  }

  /** The whole function. */
  method ReadLastLines(file: seq<Byte>, maxLines: int, maxBytes: int, blank: Line -> bool) returns (lines: seq<Line>)
    ensures lines == if maxLines <= 0 || file == [] then [] else LastLinesOf(Window(file, maxLines, maxBytes), maxLines, blank)
  {
    if maxLines <= 0 || |file| <= 0 {
      return [];
    }
    var chunks := ReadBlocks(file, maxLines, EffectiveMaxBytes(maxBytes));
    var buf := Assemble(chunks);
    lines := CutLines(Split(buf), maxLines, blank);
  }

  /** What writing the chunks from the last to the first yields. */
  function Glued(chunks: seq<seq<Byte>>): seq<Byte> {
    if chunks == [] then [] else chunks[|chunks| - 1] + Glued(chunks[..|chunks| - 1])
  }

  // ---------- Splitting a concatenation

  lemma {:induction false} NewlinesOfConcat(a: seq<Byte>, b: seq<Byte>)
    ensures Newlines(a + b) == Newlines(a) + Newlines(b)
  {
    if a == [] {
      assert a + b == b;
    } else {
      NewlinesOfConcat(a[1..], b);
      assert (a + b)[1..] == a[1..] + b;
    }
  }

  lemma {:induction false} SplitLength(s: seq<Byte>)
    ensures |Split(s)| == Newlines(s) + 1
  {
    if s != [] {
      SplitLength(s[1..]);
    }
  }

  function Last(lines: seq<Line>): Line
    requires lines != []
  {
    lines[|lines| - 1]
  }

  function Front(lines: seq<Line>): seq<Line>
    requires lines != []
  {
    lines[..|lines| - 1]
  }

  /** The lines of two adjoining texts: the line across the seam is glued, all others stay. */
  function Joined(a: seq<Line>, b: seq<Line>): seq<Line>
    requires a != [] && b != []
  {
    Front(a) + [Last(a) + b[0]] + b[1..]
  }

  lemma {:induction false} SplitOfConcat(a: seq<Byte>, b: seq<Byte>)
    ensures Split(a + b) == Joined(Split(a), Split(b))
  {
    if a == [] {
      assert a + b == b;
      assert Last(Split(a)) + Split(b)[0] == Split(b)[0] && Front(Split(a)) == [];
    } else {
      SplitOfConcat(a[1..], b);
      assert (a + b)[1..] == a[1..] + b;
      JoinedStep(Split(a[1..]), Split(b), a[0]);
    }
  }

  lemma JoinedStep(r: seq<Line>, b: seq<Line>, c: Byte)
    requires r != [] && b != []
    ensures [[]] + Joined(r, b) == Joined([[]] + r, b)
    ensures [[c] + Joined(r, b)[0]] + Joined(r, b)[1..] == Joined([[c] + r[0]] + r[1..], b)
  {
    assert Front([[]] + r) == [[]] + Front(r);
    if |r| == 1 {
      assert Front([[c] + r[0]] + r[1..]) == [];
      assert [c] + (r[0] + b[0]) == [c] + r[0] + b[0];
    } else {
      assert Front([[c] + r[0]] + r[1..]) == [[c] + r[0]] + Front(r)[1..];
    }
  }

  lemma {:induction false} LastPiece(s: seq<Byte>)
    requires s != []
    ensures Last(Split(s)) == [] <==> s[|s| - 1] == NEWLINE
    ensures s[|s| - 1] == NEWLINE ==> |Split(s)| > 1
  {
    if |s| > 1 {
      LastPiece(s[1..]);
    }
  }

  // ---------- Trimming

  lemma {:induction false} TrimOfConcat(a: seq<Line>, b: seq<Line>, blank: Line -> bool)
    ensures TrimBlank(a + b, blank) == if TrimBlank(b, blank) != [] then a + TrimBlank(b, blank) else TrimBlank(a, blank)
  {
    if b == [] {
      assert a + b == a;
    } else if blank(b[|b| - 1]) {
      TrimOfConcat(a, b[..|b| - 1], blank);
      assert (a + b)[..|a + b| - 1] == a + b[..|b| - 1];
    }
  }

  /** The lines of a suffix, from its second one on, are the last lines of the whole. */
  lemma SuffixLines(file: seq<Byte>, off: nat) returns (before: seq<Line>)
    requires 0 < off <= |file|
    ensures Split(file) == before + Split(file[off..])[1..]
    ensures |before| == |Split(file[..off])| && before == Front(Split(file[..off])) + [Last(Split(file[..off])) + Split(file[off..])[0]]
  {
    var a := Split(file[..off]);
    SplitOfConcat(file[..off], file[off..]);
    assert file[..off] + file[off..] == file;
    before := Front(a) + [Last(a) + Split(file[off..])[0]];
  }

  lemma TailOfConcat(a: seq<Line>, t: seq<Line>, max: nat)
    requires |t| >= max
    ensures Tail(a + t, max) == t[|t| - max..]
  {
  }

  /** When more lines than asked for remain in the window, its answer is the file's. */
  lemma ManyLinesSuffice(file: seq<Byte>, off: nat, max: nat, blank: Line -> bool)
    requires 0 < off <= |file| && 0 < max < |TrimmedLines(file[off..], blank)|
    ensures LastLinesOf(file[off..], max, blank) == LastLinesOf(file, max, blank)
  {
    var w := Split(file[off..]);
    var before := SuffixLines(file, off);
    assert w == [w[0]] + w[1..];
    var t := TrimBlank(w[1..], blank);
    TrimOfConcat([w[0]], w[1..], blank);
    TrimOfConcat(before, w[1..], blank);
    assert |TrimBlank([w[0]], blank)| <= 1;
    TailOfConcat(before, t, max);
    TailOfConcat([w[0]], t, max);
  }

  // ---------- Exactly when the window suffices

  /** The window starts at the start of a line. */
  ghost predicate AtLineStart(file: seq<Byte>, off: nat)
    requires off <= |file|
  {
    off == 0 || file[off - 1] == NEWLINE
  }

  /** Enough of the file was read: all of it; or, trailing blanks not counted, more lines than asked
      for; or exactly as many with the first of them whole; or the file is blank throughout. */
  ghost predicate WindowSuffices(file: seq<Byte>, off: nat, max: nat, blank: Line -> bool)
    requires off <= |file|
  {
    || off == 0
    || |TrimmedLines(file[off..], blank)| > max
    || (|TrimmedLines(file[off..], blank)| == max && AtLineStart(file, off))
    || TrimmedLines(file, blank) == []
  }

  /** The window starts inside a blank line whose remainder is not blank, with only blank lines behind it: it
      starts inside the bytes of a space such as C2 A0. */
  ghost predicate CutsSpace(file: seq<Byte>, off: nat, blank: Line -> bool)
    requires off <= |file|
  {
    && off > 0
    && var a, w := Split(file[..off]), Split(file[off..]);
    && blank(Last(a) + w[0]) && !blank(w[0]) && TrimBlank(w[1..], blank) == []
  }

  /** The last line before the cut happens to read like the remainder, and is all that is asked for or there. */
  ghost predicate RemainderMatches(file: seq<Byte>, off: nat, max: nat, blank: Line -> bool)
    requires off <= |file|
  {
    var before := TrimBlank(Front(Split(file[..off])), blank);
    before != [] && Last(before) == Split(file[off..])[0] && (max == 1 || |before| == 1)
  }

  /** The answer from the part read is that of the whole file if and only if enough was read; where the part starts
      inside a space, if and only if what is left of it is taken for the line before. */
  lemma WindowIsExact(file: seq<Byte>, off: nat, max: nat, blank: Line -> bool)
    requires off <= |file| && max > 0
    ensures LastLinesOf(file[off..], max, blank) == LastLinesOf(file, max, blank) <==>
            if CutsSpace(file, off, blank) then RemainderMatches(file, off, max, blank) else WindowSuffices(file, off, max, blank)
  {
    if off == 0 {
      assert file[0..] == file;
    } else if CutsSpace(file, off, blank) {
      CutSpaceDecides(file, off, max, blank);
    } else if |TrimmedLines(file[off..], blank)| > max {
      ManyLinesSuffice(file, off, max, blank);
    } else {
      LastPiece(file[..off]);
      FewLines(file, off, max, blank);
    }
  }

  /** The remainder of a cut space is shown as a line, which the file does not have. */
  lemma CutSpaceDecides(file: seq<Byte>, off: nat, max: nat, blank: Line -> bool)
    requires off <= |file| && max > 0 && CutsSpace(file, off, blank)
    ensures TrimmedLines(file[off..], blank) == [Split(file[off..])[0]]
    ensures TrimmedLines(file, blank) == TrimBlank(Front(Split(file[..off])), blank)
    ensures LastLinesOf(file[off..], max, blank) == LastLinesOf(file, max, blank) <==> RemainderMatches(file, off, max, blank)
  {
    var a, w := Split(file[..off]), Split(file[off..]);
    var joined := SuffixLines(file, off);
    assert w == [w[0]] + w[1..];
    TrimOfConcat([w[0]], w[1..], blank);
    TrimOfConcat(joined, w[1..], blank);
    assert joined[..|joined| - 1] == Front(a);
    LastIsAll(TrimBlank(Front(a), blank), w[0], max);
  }

  lemma LastIsAll(lines: seq<Line>, line: Line, max: nat)
    requires max > 0
    ensures Tail([line], max) == Tail(lines, max) <==> lines != [] && Last(lines) == line && (max == 1 || |lines| == 1)
  {
    var t := Tail(lines, max);
    if |t| == 1 {
      assert t[0] == Last(lines);
    }
  }

  /** Trimming two texts that differ in their first lines only, when something is left of the shorter. */
  lemma TrimFromSeam(front: seq<Line>, first: Line, part: Line, tail: seq<Line>, blank: Line -> bool) returns (rest: seq<Line>)
    requires TrimBlank([part] + tail, blank) != [] && (TrimBlank(tail, blank) != [] || !blank(first))
    ensures TrimBlank([part] + tail, blank) == [part] + rest
    ensures TrimBlank(front + [first] + tail, blank) == front + ([first] + rest)
  {
    rest := TrimBlank(tail, blank);
    TrimOfConcat([part], tail, blank);
    TrimOfConcat(front + [first], tail, blank);
    assert front + [first] + rest == front + ([first] + rest);
    if rest == [] {
      KeptOrNot(part, blank);
      assert [part] + rest == [part] && front + ([first] + rest) == front + [first];
    }
  }

  lemma KeptOrNot(line: Line, blank: Line -> bool)
    ensures TrimBlank([line], blank) == if blank(line) then [] else [line]
  {
    assert [line][..0] == [];
  }

  /** The trimmed lines of window and file when the window is not blank: they share all but the first. */
  lemma LinesFromWindow(file: seq<Byte>, off: nat, blank: Line -> bool) returns (rest: seq<Line>)
    requires 0 < off <= |file| && !CutsSpace(file, off, blank) && TrimmedLines(file[off..], blank) != []
    ensures TrimmedLines(file[off..], blank) == [Split(file[off..])[0]] + rest
    ensures TrimmedLines(file, blank) ==
            Front(Split(file[..off])) + ([Last(Split(file[..off])) + Split(file[off..])[0]] + rest)
  {
    var a, w := Split(file[..off]), Split(file[off..]);
    var before := SuffixLines(file, off);
    assert w == [w[0]] + w[1..];
    TrimOfConcat([w[0]], w[1..], blank);
    KeptOrNot(w[0], blank);
    rest := TrimFromSeam(Front(a), Last(a) + w[0], w[0], w[1..], blank);
  }

  lemma FewLines(file: seq<Byte>, off: nat, max: nat, blank: Line -> bool)
    requires 0 < off <= |file| && max > 0 && !CutsSpace(file, off, blank) && |TrimmedLines(file[off..], blank)| <= max
    requires Last(Split(file[..off])) == [] <==> file[off - 1] == NEWLINE
    requires file[off - 1] == NEWLINE ==> |Split(file[..off])| > 1
    ensures LastLinesOf(file[off..], max, blank) == LastLinesOf(file, max, blank) <==> WindowSuffices(file, off, max, blank)
  {
    if TrimmedLines(file[off..], blank) != [] {
      var rest := LinesFromWindow(file, off, blank);
      var front, missing, part := Front(Split(file[..off])), Last(Split(file[..off])), Split(file[off..])[0];
      SeamDecides(front, missing + part, part, rest, missing, max);
    }
  }

  /** Comparing the answers line by line: the line at the seam tells them apart unless it is whole. */
  lemma SeamDecides(front: seq<Line>, first: Line, part: Line, rest: seq<Line>, missing: Line, max: nat)
    requires first == missing + part && 1 + |rest| <= max
    ensures Tail([part] + rest, max) == Tail(front + ([first] + rest), max) <==>
            missing == [] && (1 + |rest| == max || front == [])
  {
    var x, y := [part] + rest, front + ([first] + rest);
    assert Tail(x, max) == x;
    var r := Tail(y, max);
    assert y[|front|..] == [first] + rest;
    if |r| == |x| {
      assert r == [first] + rest;
      assert r[0] == first && x[0] == part;
      if missing == [] {
        assert first == part;
      } else {
        assert |first| > |part|;
      }
    }
  }

  // ---------- A sufficient condition on the file itself

  /** The file ends in a line that is not blank, followed by at most one newline. */
  ghost predicate EndsInText(file: seq<Byte>, blank: Line -> bool) {
    exists text, line, end :: EndsWith(file, text, line, end) && !blank(line)
  }

  /** `line` is the last line of the file, complete, with `end` after it. */
  ghost predicate EndsWith(file: seq<Byte>, text: seq<Byte>, line: Line, end: seq<Byte>) {
    file == text + line + end && (end == [] || end == [NEWLINE]) && NEWLINE !in line && (text == [] || text[|text| - 1] == NEWLINE)
  }

  lemma {:induction false} NewlinesIn(s: seq<Byte>)
    ensures Newlines(s) <= |s| && (NEWLINE !in s <==> Newlines(s) == 0)
  {
    if s != [] {
      NewlinesIn(s[1..]);
      assert s == [s[0]] + s[1..];
    }
  }

  lemma {:induction false} OneLine(line: Line)
    requires NEWLINE !in line
    ensures Split(line) == [line]
  {
    if line != [] {
      OneLine(line[1..]);
      assert [line[0]] + line[1..] == line;
    }
  }

  /** Whole lines, and a line without its newline. */
  lemma SplitOfLastLine(text: seq<Byte>, line: Line)
    requires NEWLINE !in line && (text == [] || text[|text| - 1] == NEWLINE)
    ensures Split(text + line) == Front(Split(text)) + [line]
  {
    OneLine(line);
    SplitOfConcat(text, line);
    if text != [] {
      LastPiece(text);
    }
    assert Last(Split(text)) == [];
    JoinedOne(Split(text), line);
  }

  lemma JoinedOne(a: seq<Line>, line: Line)
    requires a != [] && Last(a) == []
    ensures Joined(a, [line]) == Front(a) + [line]
  {
    assert Last(a) + line == line;
  }

  /** A newline at the end adds an empty line. */
  lemma SplitOfNewline(s: seq<Byte>)
    ensures Split(s + [NEWLINE]) == Split(s) + [[]]
  {
    SplitOfConcat(s, [NEWLINE]);
    assert Split([NEWLINE]) == [[], []] by {
      assert [NEWLINE][1..] == [];
    }
    JoinedEmpty(Split(s));
  }

  lemma JoinedEmpty(a: seq<Line>)
    requires a != []
    ensures Joined(a, [[], []]) == a + [[]]
  {
    assert Last(a) + [] == Last(a);
    assert Front(a) + [Last(a)] == a;
  }

  /** Splitting a text made of whole lines, a last line and at most one newline. */
  lemma SplitOfEnding(text: seq<Byte>, line: Line, end: seq<Byte>)
    requires EndsWith(text + line + end, text, line, end)
    ensures Split(text + line + end) == Front(Split(text)) + [line] + (if end == [] then [] else [[]])
  {
    SplitOfLastLine(text, line);
    if end == [] {
      assert text + line + end == text + line;
      assert Front(Split(text)) + [line] + [] == Front(Split(text)) + [line];
    } else {
      SplitOfNewline(text + line);
    }
  }

  lemma SuffixNewlines(s: seq<Byte>, k: nat)
    requires k <= |s|
    ensures Newlines(s[k..]) <= Newlines(s)
  {
    NewlinesOfConcat(s[..k], s[k..]);
    assert s[..k] + s[k..] == s;
  }

  /** A window of such a file that holds more newlines than lines are asked for has enough lines. */
  lemma EnoughNewlines(file: seq<Byte>, off: nat, max: nat, blank: Line -> bool)
    requires off <= |file| && EndsInText(file, blank) && blank([]) && max > 0 && Newlines(file[off..]) > max
    ensures |TrimmedLines(file[off..], blank)| > max
  {
    var text, line, end :| EndsWith(file, text, line, end) && !blank(line);
    var w := file[off..];
    NewlinesIn(line);
    NewlinesIn(end);
    assert off < |text| by {
      if off >= |text| {
        var tail := line + end;
        NewlinesOfConcat(line, end);
        assert w == tail[off - |text|..];
        SuffixNewlines(tail, off - |text|);
      }
    }
    var rest := text[off..];
    assert w == rest + line + end;
    SplitOfEnding(rest, line, end);
    SplitLength(w);
    var lines := Front(Split(rest)) + [line];
    var after: seq<Line> := if end == [] then [] else [[]];
    assert Split(w) == lines + after;
    TrimOfConcat(lines, after, blank);
  }

  /** If the last line is not blank, at most one newline follows it, and it was not the byte cap that
      stopped the reading, the answer is the last maxLines lines of the whole file: for every length of
      the file and wherever the block borders fall. */
  lemma ReadIsExact(file: seq<Byte>, maxLines: nat, maxBytes: int, blank: Line -> bool)
    requires maxLines > 0 && blank([]) && EndsInText(file, blank)
    requires var stop := StopOffset(file, maxLines, EffectiveMaxBytes(maxBytes), |file|);
             stop == 0 || Newlines(file[stop..]) > maxLines
    ensures LastLinesOf(Window(file, maxLines, maxBytes), maxLines, blank) == LastLinesOf(file, maxLines, blank)
  {
    var stop := StopOffset(file, maxLines, EffectiveMaxBytes(maxBytes), |file|);
    if stop == 0 {
      assert file[0..] == file;
    } else {
      EnoughNewlines(file, stop, maxLines, blank);
      ManyLinesSuffice(file, stop, maxLines, blank);
    }
  }

  // ---------- A file on which the answer is wrong

  function EmptyLines(n: nat): seq<Byte> {
    seq(n, _ => NEWLINE)
  }

  lemma {:induction false} EmptyLinesSplit(n: nat)
    ensures Newlines(EmptyLines(n)) == n
    ensures forall i :: 0 <= i < |Split(EmptyLines(n))| ==> Split(EmptyLines(n))[i] == []
  {
    if n > 0 {
      assert EmptyLines(n)[1..] == EmptyLines(n - 1);
      EmptyLinesSplit(n - 1);
    }
  }

  lemma EmptyLinesAre(n: nat, lines: seq<Line>, blank: Line -> bool)
    requires blank([]) && lines == Split(EmptyLines(n))
    ensures TrimBlank(lines[1..], blank) == []
  {
    EmptyLinesSplit(n);
    AllBlank(lines[1..], blank);
  }

  lemma {:induction false} AllBlank(lines: seq<Line>, blank: Line -> bool)
    requires forall i :: 0 <= i < |lines| ==> blank(lines[i])
    ensures TrimBlank(lines, blank) == []
  {
    if lines != [] {
      AllBlank(lines[..|lines| - 1], blank);
    }
  }

  /** A block at the end of the file with more newlines than lines are asked for is all that is read. */
  lemma OneBlockRead(before: seq<Byte>, block: seq<Byte>)
    requires |block| == BLOCK && Newlines(block) > 1
    ensures Window(before + block, 1, 0) == block
  {
    var file := before + block;
    assert file[|before|..] == block;
    assert file[|file|..] == [];
    assert StopOffset(file, 1, DEFAULT_MAX_BYTES, |before|) == |before|;
    assert StopOffset(file, 1, DEFAULT_MAX_BYTES, |file|) == |before|;
  }

  lemma LineThenEmpty(line: Line, n: nat)
    requires NEWLINE !in line
    ensures Split(line + EmptyLines(n)) == [line] + Split(EmptyLines(n))[1..]
  {
    OneLine(line);
    SplitOfConcat(line, EmptyLines(n));
    EmptyLinesSplit(n);
    assert line + [] == line;
  }

  /** One line of text followed by a full block of newlines: the reader stops after the block and answers
      nothing, although the last line of the file is the text. */
  lemma TrailingNewlinesHideTheText(blank: Line -> bool)
    requires blank([]) && !blank([65])
    ensures var file := [65] + EmptyLines(BLOCK);
            && LastLinesOf(Window(file, 1, 0), 1, blank) == []
            && LastLinesOf(file, 1, blank) == [[65]]
  {
    EmptyLinesSplit(BLOCK);
    OneBlockRead([65], EmptyLines(BLOCK));
    AllBlank(Split(EmptyLines(BLOCK)), blank);
    LineThenEmpty([65], BLOCK);
    EmptyLinesAre(BLOCK, Split(EmptyLines(BLOCK)), blank);
    TrimOfConcat([[65]], Split(EmptyLines(BLOCK))[1..], blank);
    KeptOrNot([65], blank);
  }

  /** A no-break space (C2 A0) and newlines, of which the last block lacks the first byte: the reader shows the
      second byte, which alone is no space, although the file is blank. */
  lemma CutSpaceIsShown(blank: Line -> bool)
    requires blank([]) && blank([0xC2, 0xA0]) && !blank([0xA0])
    ensures var file := [0xC2] + ([0xA0] + EmptyLines(BLOCK - 1));
            && CutsSpace(file, 1, blank) && Window(file, 1, 0) == file[1..]
            && LastLinesOf(Window(file, 1, 0), 1, blank) == [[0xA0]]
            && LastLinesOf(file, 1, blank) == []
  {
    var n := BLOCK - 1;
    var block: seq<Byte> := [0xA0] + EmptyLines(n);
    var file: seq<Byte> := [0xC2] + block;
    EmptyLinesSplit(n);
    NewlinesOfConcat([0xA0], EmptyLines(n));
    OneBlockRead([0xC2], block);
    assert file[1..] == block && file[..1] == [0xC2];
    OneLine([0xC2]);
    LineThenEmpty([0xA0], n);
    EmptyLinesAre(n, Split(EmptyLines(n)), blank);
    assert Split(block)[1..] == Split(EmptyLines(n))[1..];
    assert [0xC2] + [0xA0] == [0xC2, 0xA0];
    CutSpaceDecides(file, 1, 1, blank);
    assert Front(Split(file[..1])) == [];
  }
}
