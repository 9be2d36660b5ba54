/** Reading a file page by page: a window of lines, cut at the line and byte limits, and where to continue. */
module ReadTool {
  import opened Bytes
  import opened Wrappers
  import Truncate

  const SAMPLE := 8192
  const MAX_LINES := Truncate.DEFAULT_MAX_LINES
  const MAX_BYTES := Truncate.DEFAULT_MAX_BYTES

  /** The note below a page.  Both offers name the offset to continue at. */
  datatype Note =
    | Nothing
    | EmptyFile
    | CutBy(reason: Truncate.Reason, totalLines: nat, next: nat)
    | MoreLines(remaining: nat, next: nat)

  /** `count` lines from line number `start` on, joined in `text`. */
  datatype Outcome =
    | Binary
    | PastEnd(totalLines: nat)
    | Page(start: nat, count: nat, text: seq<byte>, note: Note)

  function NextOffset(o: Outcome): Option<nat> {
    if o.Page? && (o.note.CutBy? || o.note.MoreLines?) then Some(o.note.next) else None
  }

  // ---------- the specification ----------

  function StripReturn(line: seq<byte>): seq<byte> {
    if line != [] && line[|line| - 1] == CARRIAGE_RETURN then line[..|line| - 1] else line
  }

  function Stripped(lines: seq<seq<byte>>): seq<seq<byte>> {
    seq(|lines|, i requires 0 <= i < |lines| => StripReturn(lines[i]))
  }

  /** The lines of a file: what splitting at newlines gives, without the carriage returns at line ends. */
  function FileLines(data: seq<byte>): (lines: seq<seq<byte>>)
    ensures |lines| >= 1
  {
    Stripped(Split(data))
  }

  function Start(offset: int): nat { if offset > 0 then offset else 1 }

  /** The requested lines: from line `start` on, at most `limit` of them if there is a limit. */
  function Window(lines: seq<seq<byte>>, start: nat, limit: int): seq<seq<byte>>
    requires 1 <= start <= |lines|
  {
    lines[start - 1..if limit > 0 && start - 1 + limit < |lines| then start - 1 + limit else |lines|]
  }

  /** The page shows the greatest number of requested lines within the limits. */
  ghost predicate PageOf(o: Outcome, lines: seq<seq<byte>>, offset: int, limit: int) {
    var start := Start(offset);
    if start > |lines| then o == PastEnd(|lines|)
    else
      var window := Window(lines, start, limit);
      && o.Page? && o.start == start
      && Truncate.Greatest(window, o.count, MAX_LINES, MAX_BYTES)
      && o.text == Join(window[..o.count])
      && o.note ==
         if o.count < |window| then
           CutBy(if o.count == MAX_LINES then Truncate.Lines else Truncate.TooManyBytes, |lines|,
                 if o.count == 0 then start + 1 else start + o.count)
         else if start - 1 + |window| < |lines| then
           MoreLines(|lines| - (start - 1 + |window|), start + |window|)
         else if o.text == [] then EmptyFile else Nothing
  }

  ghost predicate IsLikelyBinary(data: seq<byte>) {
    var sample := if |data| > SAMPLE then data[..SAMPLE] else data;
    !Valid(sample) || 0 in sample
  }

  // ---------- the tool ----------

  method LooksBinary(sample: seq<byte>) returns (yes: bool)
    ensures yes <==> !Valid(sample) || 0 in sample
  {
    if !Valid(sample) {
      return true;
    }
    for i := 0 to |sample|
      invariant 0 !in sample[..i]
    {
      if sample[i] == 0 {
        return true;
      }
    }
    return false;
  }

  /** The bytes up to and including the next newline, or all that is left. */
  method ReadString(data: seq<byte>, from: nat) returns (line: seq<byte>, eof: bool)
    requires from <= |data|
    ensures from + |line| <= |data| && line == data[from..from + |line|]
    ensures eof ==> NEWLINE !in line && from + |line| == |data|
    ensures !eof ==> line != [] && line[|line| - 1] == NEWLINE && NEWLINE !in line[..|line| - 1]
  {
    var at := from;
    while at < |data| && data[at] != NEWLINE
      invariant from <= at <= |data| && NEWLINE !in data[from..at]
    {
      at := at + 1;
    }
    eof := at == |data|;
    line := if eof then data[from..] else data[from..at + 1];
    assert !eof ==> line[..|line| - 1] == data[from..at];
  }

  /** The window being filled: which lines have been taken, and whether a limit has been met. */
  class Builder {
    const startLine: nat
    const limit: int
    var text: seq<byte>
    var includedLines: nat
    var includedBytes: nat
    var lastIncludedLine: nat
    var truncated: bool
    var reason: Truncate.Reason

    constructor (startLine: nat, limit: int)
      requires startLine >= 1
      ensures this.startLine == startLine && this.limit == limit && Has([])
    {
      this.startLine, this.limit := startLine, limit;
      text, includedLines, includedBytes, lastIncludedLine := [], 0, 0, startLine - 1;
      truncated, reason := false, Truncate.NotCut;
    }

    /** After the lines `lines` of the file. */
    ghost predicate Has(lines: seq<seq<byte>>)
      reads this
    {
      && startLine >= 1
      && Filled(Requested(lines, startLine, limit), text, includedLines, truncated, reason)
      && includedBytes == |text| && lastIncludedLine == startLine - 1 + includedLines
    }

    method AppendLine(line: seq<byte>, lineNo: nat, ghost before: seq<seq<byte>>)
      requires Has(before) && lineNo == |before| + 1
      modifies this
      ensures Has(before + [line])
    {
      hide Filled, Requested;
      WindowGrows(before, line, startLine, limit);
      ghost var window := Requested(before, startLine, limit);
      if lineNo < startLine {
        return;
      }
      if limit > 0 && lineNo - startLine + 1 > limit {
        return;
      }
      FilledGrows(window, line, text, includedLines, truncated, reason);
      WholeWindow(before, startLine, limit, text, includedLines, truncated, reason);
      if truncated {
        return;
      }
      if includedLines >= MAX_LINES {
        truncated, reason := true, Truncate.Lines;
        return;
      }
      var lineBytes := |line|;
      if includedLines > 0 {
        lineBytes := lineBytes + 1;
      }
      if includedBytes + lineBytes > MAX_BYTES {
        truncated, reason := true, Truncate.TooManyBytes;
        return;
      }
      if includedLines > 0 {
        text, includedBytes := text + [NEWLINE], includedBytes + 1;
      }
      text, includedBytes := text + line, includedBytes + |line|;
      includedLines, lastIncludedLine := includedLines + 1, lineNo;
    }
  }

  /** The requested lines that exist so far. */
  function Requested(lines: seq<seq<byte>>, start: nat, limit: int): seq<seq<byte>>
    requires start >= 1
  {
    if start > |lines| then [] else Window(lines, start, limit)
  }

  /** `text` holds the first `k` lines of the window; if that is not all of it, the next one would exceed a limit. */
  ghost predicate Filled(window: seq<seq<byte>>, text: seq<byte>, k: nat, truncated: bool, reason: Truncate.Reason) {
    && k <= |window| && text == Join(window[..k])
    && Truncate.Fits(window[..k], MAX_LINES, MAX_BYTES)
    && truncated == (k < |window|)
    && (truncated ==>
          && !Truncate.Fits(window[..k + 1], MAX_LINES, MAX_BYTES)
          && reason == if k == MAX_LINES then Truncate.Lines else Truncate.TooManyBytes)
  }

  /** One more requested line: once a limit is met nothing changes, otherwise the line is taken if it fits. */
  lemma FilledGrows(window: seq<seq<byte>>, line: seq<byte>, text: seq<byte>, k: nat, truncated: bool,
                    reason: Truncate.Reason)
    requires Filled(window, text, k, truncated, reason)
    ensures var (more, added) := (window + [line], |line| + if k > 0 then 1 else 0);
            if truncated then Filled(more, text, k, true, reason)
            else if k >= MAX_LINES then Filled(more, text, k, true, Truncate.Lines)
            else if |text| + added > MAX_BYTES then Filled(more, text, k, true, Truncate.TooManyBytes)
            else Filled(more, (if k > 0 then text + [NEWLINE] else text) + line, k + 1, false, reason)
  {
    var more := window + [line];
    assert more[..k] == window[..k];
    if truncated {
      assert more[..k + 1] == window[..k + 1];
    } else {
      assert more[..k + 1] == window[..k] + [line];
      JoinLast(window[..k], line);
    }
  }

  /** While nothing is cut, the lines taken are the lines read since the start. */
  lemma WholeWindow(lines: seq<seq<byte>>, start: nat, limit: int, text: seq<byte>, k: nat, truncated: bool,
                    reason: Truncate.Reason)
    requires start >= 1 && Filled(Requested(lines, start, limit), text, k, truncated, reason)
    requires start <= |lines| + 1 && (limit > 0 ==> |lines| + 2 - start <= limit)
    ensures !truncated ==> k == |lines| + 1 - start
  {
  }

  lemma JoinLast(lines: seq<seq<byte>>, line: seq<byte>)
    ensures Join(lines + [line]) == if lines == [] then line else Join(lines) + [NEWLINE] + line
  {
    if lines != [] {
      JoinConcat(lines, [line]);
    }
  }

  /** One more line of the file enlarges the requested window by it, if it is in the window. */
  lemma WindowGrows(lines: seq<seq<byte>>, line: seq<byte>, start: nat, limit: int)
    requires start >= 1
    ensures Requested(lines + [line], start, limit) ==
            if |lines| + 1 < start || (limit > 0 && |lines| + 2 - start > limit) then Requested(lines, start, limit)
            else Requested(lines, start, limit) + [line]
  {
  }

  lemma ReadsOneLine(data: seq<byte>, from: nat, line: seq<byte>, eof: bool)
    requires from + |line| <= |data| && line == data[from..from + |line|]
    requires eof ==> NEWLINE !in line && from + |line| == |data|
    requires !eof ==> line != [] && line[|line| - 1] == NEWLINE && NEWLINE !in line[..|line| - 1]
    ensures eof ==> FileLines(data[from..]) == [StripReturn(line)]
    ensures !eof ==>
              FileLines(data[from..]) == [StripReturn(line[..|line| - 1])] + FileLines(data[from + |line|..])
  {
    hide Split;
    if eof {
      assert data[from..] == line;
      SplitAtNewline(line, []);
    } else {
      var (body, rest) := (line[..|line| - 1], data[from + |line|..]);
      assert data[from..] == body + [NEWLINE] + rest;
      SplitAtNewline(body, rest);
    }
  }

  /** Read the whole file line by line into the builder, with the empty last line that splitting would give. */
  method ReadLines(data: seq<byte>, builder: Builder) returns (totalLines: nat)
    requires builder.Has([])
    modifies builder
    ensures totalLines == |FileLines(data)| && builder.Has(FileLines(data))
  {
    hide FileLines, StripReturn, Builder.Has;
    var (at, endedWithNewline, done) := (0, false, false);
    totalLines := 0;
    ghost var lines: seq<seq<byte>> := [];
    NothingRead(data);
    while !done
      invariant at <= |data| && totalLines == |lines| && builder.Has(lines)
      invariant !done ==> FileLines(data) == lines + FileLines(data[at..]) && (endedWithNewline <==> lines != [])
      invariant done ==> FileLines(data) == lines && lines != [] && !endedWithNewline
      decreases |data| - at, !done
    {
      var line, eof := ReadString(data, at);
      ReadsOneLine(data, at, line, eof);
      if eof && line == [] {
        break;
      }
      at := at + |line|;
      var hasNewline := line != [] && line[|line| - 1] == NEWLINE;
      if hasNewline {
        line := line[..|line| - 1];
      }
      line := StripReturn(line);
      totalLines := totalLines + 1;
      builder.AppendLine(line, totalLines, lines);
      lines := lines + [line];
      endedWithNewline := hasNewline;
      if eof {
        done := true;
      }
    }
    if totalLines == 0 || endedWithNewline {
      totalLines := totalLines + 1;
      builder.AppendLine([], totalLines, lines);
      lines := lines + [[]];
    }
    assert lines == FileLines(data);
  }

  method Execute(data: seq<byte>, offset: int, limit: int) returns (o: Outcome)
    ensures IsLikelyBinary(data) ==> o == Binary
    ensures !IsLikelyBinary(data) ==> PageOf(o, FileLines(data), offset, limit)
  {
    hide FileLines, PageOf, Builder.Has;
    var binary := LooksBinary(if |data| > SAMPLE then data[..SAMPLE] else data);
    if binary {
      return Binary;
    }
    var startLine := 1;
    if offset > 0 {
      startLine := offset;
    }
    var builder := new Builder(startLine, limit);
    var totalLines := ReadLines(data, builder);
    if startLine > totalLines {
      PastTheEnd(FileLines(data), offset, limit);
      return PastEnd(totalLines);
    }
    var note := Nothing;
    if builder.truncated {
      var next := builder.lastIncludedLine + 1;
      if builder.includedLines == 0 {
        next := startLine + 1;
      }
      note := CutBy(builder.reason, totalLines, next);
    } else if limit > 0 && startLine - 1 + limit < totalLines {
      note := MoreLines(totalLines - (startLine - 1 + limit), startLine + limit);
    } else if builder.text == [] {
      note := EmptyFile;
    }
    o := Page(startLine, builder.includedLines, builder.text, note);
    FilledPage(builder, FileLines(data), offset, o);
  }

  lemma PastTheEnd(lines: seq<seq<byte>>, offset: int, limit: int)
    requires Start(offset) > |lines|
    ensures PageOf(PastEnd(|lines|), lines, offset, limit)
  {
  }

  lemma NothingRead(data: seq<byte>)
    ensures data[0..] == data && StripReturn([]) == []
  {
  }

  lemma FilledPage(builder: Builder, lines: seq<seq<byte>>, offset: int, o: Outcome)
    requires builder.Has(lines) && builder.startLine == Start(offset) <= |lines|
    requires o.Page? && o.start == builder.startLine && o.count == builder.includedLines && o.text == builder.text
    requires o.note ==
             if builder.truncated then
               CutBy(builder.reason, |lines|,
                     if builder.includedLines == 0 then o.start + 1 else builder.lastIncludedLine + 1)
             else if builder.limit > 0 && o.start - 1 + builder.limit < |lines| then
               MoreLines(|lines| - (o.start - 1 + builder.limit), o.start + builder.limit)
             else if o.text == [] then EmptyFile else Nothing
    ensures PageOf(o, lines, offset, builder.limit)
  {
    var window := Window(lines, o.start, builder.limit);
    assert Truncate.First(window, o.count) == window[..o.count];
    Truncate.FirstStops(window, o.count, MAX_LINES, MAX_BYTES);
  }

  /** A text file is taken for binary exactly when there is a NUL byte among its first 8192 bytes, or they end inside a
      character. */
  lemma TextTakenForBinary(data: seq<byte>)
    requires Valid(data)
    ensures IsLikelyBinary(data) <==>
            || (exists i :: 0 <= i < |data| && i < 8192 && data[i] == 0)
            || (|data| > 8192 && Continuation(data[8192]))
  {
    hide Valid;
    assert forall i :: 0 <= i < |data| && i < 8192 ==> data[i] == (if |data| > 8192 then data[..8192] else data)[i];
    if |data| > SAMPLE {
      CutBetweenChars(data, SAMPLE);
    }
  }

  function AsciiText(n: nat): seq<byte> {
    seq(n, _ => 97)
  }

  lemma {:induction false} AsciiIsValid(n: nat)
    ensures Valid(AsciiText(n))
  {
    if n > 0 {
      AsciiIsValid(n - 1);
      assert AsciiText(n)[1..] == AsciiText(n - 1) && CharLength(AsciiText(n)) == 1;
    }
  }

  /** A letter that takes two bytes, across the end of the sample: a text file that is refused. */
  lemma SplitLetterLooksBinary()
    ensures var data := AsciiText(SAMPLE - 1) + [0xC3, 0xA9];
            Valid(data) && 0 !in data && IsLikelyBinary(data)
  {
    var (text, letter) := (AsciiText(SAMPLE - 1), [0xC3, 0xA9]);
    AsciiIsValid(SAMPLE - 1);
    ValidLetter();
    hide Valid, CharLength;
    ValidConcat(text, letter);
    assert (text + letter)[SAMPLE] == 0xA9;
    TextTakenForBinary(text + letter);
  }

  lemma ValidLetter()
    ensures Valid([0xC3, 0xA9])
  {
    assert [0xC3 as byte, 0xA9][2..] == [];
  }

  // ---------- what the lines of a file are ----------

  /** Without the carriage returns that stand right before a newline or at the very end. */
  function DropReturns(data: seq<byte>): seq<byte> {
    if data == [] then []
    else
      (if data[0] == CARRIAGE_RETURN && (|data| == 1 || data[1] == NEWLINE) then [] else [data[0]])
      + DropReturns(data[1..])
  }

  lemma FirstLineGrows(c: byte, first: seq<byte>, rest: seq<seq<byte>>)
    ensures Join([[c] + first] + rest) == [c] + Join([first] + rest)
  {
    assert ([[c] + first] + rest)[1..] == rest == ([first] + rest)[1..];
  }

  lemma StripLonger(c: byte, line: seq<byte>)
    ensures StripReturn([c] + line) ==
            if line != [] then [c] + StripReturn(line) else if c == CARRIAGE_RETURN then [] else [c]
  {
  }

  lemma StrippedFirst(line: seq<byte>, rest: seq<seq<byte>>)
    ensures Stripped([line] + rest) == [StripReturn(line)] + Stripped(rest)
  {
  }

  lemma SplitUnrolls(data: seq<byte>)
    requires data != []
    ensures var rest := Split(data[1..]);
            && Split(data) == (if data[0] == NEWLINE then [[]] + rest else [[data[0]] + rest[0]] + rest[1..])
            && (rest[0] == [] <==> |data| == 1 || data[1] == NEWLINE)
  {
  }

  /** One more byte in front: a line of its own, a line of nothing, or a longer first line. */
  lemma ByteInFront(data: seq<byte>)
    requires data != []
    ensures var (c, rest) := (data[0], FileLines(data[1..]));
            var atEnd := |data| == 1 || data[1] == NEWLINE;
            && (atEnd ==> rest[0] == [])
            && FileLines(data) ==
               if c == NEWLINE then [[]] + rest
               else if !atEnd then [[c] + rest[0]] + rest[1..]
               else if c == CARRIAGE_RETURN then [[]] + rest[1..] else [[c]] + rest[1..]
  {
    hide Split, Stripped, StripReturn;
    var lines := Split(data[1..]);
    SplitUnrolls(data);
    NothingRead([]);
    assert lines == [lines[0]] + lines[1..];
    StrippedFirst(lines[0], lines[1..]);
    assert FileLines(data[1..]) == [StripReturn(lines[0])] + Stripped(lines[1..]);
    assert FileLines(data[1..])[1..] == Stripped(lines[1..]);
    StripLonger(data[0], lines[0]);
    StrippedFirst([], lines);
    StrippedFirst([data[0]] + lines[0], lines[1..]);
  }

  lemma EmptyLineInFront(lines: seq<seq<byte>>)
    requires lines != []
    ensures Join([[]] + lines) == [NEWLINE] + Join(lines)
  {
    assert ([[]] + lines)[1..] == lines;
  }

  lemma DropUnrolls(data: seq<byte>)
    requires data != []
    ensures DropReturns(data) ==
            if data[0] == CARRIAGE_RETURN && (|data| == 1 || data[1] == NEWLINE) then DropReturns(data[1..])
            else [data[0]] + DropReturns(data[1..])
  {
  }

  /** Joining its lines gives the file back, but for one carriage return at the end of each line that has any. */
  lemma {:induction false} LinesJoinToTheFile(data: seq<byte>)
    ensures Join(FileLines(data)) == DropReturns(data)
  {
    if data == [] {
      NoBytesOneLine();
    } else {
      hide FileLines, Join, DropReturns;
      var (c, rest) := (data[0], FileLines(data[1..]));
      LinesJoinToTheFile(data[1..]);
      ByteInFront(data);
      DropUnrolls(data);
      assert rest == [rest[0]] + rest[1..];
      if c == NEWLINE {
        EmptyLineInFront(rest);
      } else {
        FirstLineGrows(c, rest[0], rest[1..]);
      }
    }
  }

  lemma NoBytesOneLine()
    ensures FileLines([]) == [[]]
  {
  }

  lemma {:induction false} NothingToDrop(data: seq<byte>)
    requires CARRIAGE_RETURN !in data
    ensures DropReturns(data) == data
  {
    if data != [] {
      NothingToDrop(data[1..]);
      assert data == [data[0]] + data[1..];
    }
  }

  /** Reading a file page by page from its first line on gives all of it, for any limits: exactly the file if it has no
      carriage returns, and otherwise the file without those at line ends. */
  lemma FileReadsBack(pages: seq<Outcome>, limits: seq<int>, data: seq<byte>)
    requires Follows(pages, limits, FileLines(data), 1) && Complete(pages)
    requires forall i :: 0 <= i < |FileLines(data)| ==> |FileLines(data)[i]| <= MAX_BYTES
    ensures forall i :: 0 <= i < |pages| ==> pages[i].Page?
    ensures Join(Texts(pages)) == DropReturns(data)
    ensures CARRIAGE_RETURN !in data ==> Join(Texts(pages)) == data
  {
    hide FileLines;
    PagesJoinToTheFile(pages, limits, FileLines(data), 1);
    assert FileLines(data)[0..] == FileLines(data);
    LinesJoinToTheFile(data);
    if CARRIAGE_RETURN !in data {
      NothingToDrop(data);
    }
  }

  // ---------- following the offsets ----------

  /** Pages read one after the other, each at the offset the one before it suggests, with any limits. */
  ghost predicate Follows(pages: seq<Outcome>, limits: seq<int>, lines: seq<seq<byte>>, from: nat)
    decreases |pages|
  {
    && pages != [] && |limits| == |pages|
    && PageOf(pages[0], lines, from, limits[0])
    && (|pages| > 1 ==>
          && NextOffset(pages[0]).Some?
          && Follows(pages[1..], limits[1..], lines, NextOffset(pages[0]).value))
  }

  /** No page suggests to go on after the last one. */
  predicate Complete(pages: seq<Outcome>) {
    pages != [] && NextOffset(pages[|pages| - 1]).None?
  }

  function Numbers(from: nat, count: nat): (r: seq<nat>)
    ensures |r| == count && forall i :: 0 <= i < count ==> r[i] == from + i
  {
    seq(count, i => from + i)
  }

  /** The line numbers shown, page by page. */
  function Shown(pages: seq<Outcome>): seq<nat> {
    if pages == [] then []
    else (if pages[0].Page? then Numbers(pages[0].start, pages[0].count) else []) + Shown(pages[1..])
  }

  /** The line numbers from `from` on, without the lines that alone exceed the byte limit. */
  function Wanted(lines: seq<seq<byte>>, from: nat): seq<nat>
    requires from >= 1
    decreases |lines| + 1 - from
  {
    if from > |lines| then []
    else (if |lines[from - 1]| <= MAX_BYTES then [from] else []) + Wanted(lines, from + 1)
  }

  lemma {:induction false} WantedRun(lines: seq<seq<byte>>, from: nat, k: nat)
    requires from >= 1 && from - 1 + k <= |lines|
    requires forall i :: from - 1 <= i < from - 1 + k ==> |lines[i]| <= MAX_BYTES
    ensures Wanted(lines, from) == Numbers(from, k) + Wanted(lines, from + k)
    decreases k
  {
    if k > 0 {
      WantedRun(lines, from + 1, k - 1);
      assert Numbers(from, k) == [from] + Numbers(from + 1, k - 1);
      assert Wanted(lines, from) == [from] + Wanted(lines, from + 1);
    } else {
      assert Numbers(from, 0) == [];
    }
  }

  lemma {:induction false} LineWithinJoin(lines: seq<seq<byte>>, i: nat)
    requires i < |lines|
    ensures |lines[i]| <= |Join(lines)|
  {
    if i > 0 {
      LineWithinJoin(lines[1..], i - 1);
    }
  }

  /** Where the reading goes on after a page, or one past the last line. */
  function After(o: Outcome, lines: seq<seq<byte>>): nat {
    if NextOffset(o).Some? then NextOffset(o).value else |lines| + 1
  }

  /** One page within the file shows the lines up to the next offset, skipping only a line that is too long. */
  lemma PageAdvances(o: Outcome, lines: seq<seq<byte>>, from: nat, limit: int)
    requires 1 <= from <= |lines| && PageOf(o, lines, from, limit)
    ensures o.Page? && from < After(o, lines) <= |lines| + 1
    ensures if |lines[from - 1]| > MAX_BYTES then o.count == 0 && After(o, lines) == from + 1
            else o.count > 0 && After(o, lines) == from + o.count
    ensures Wanted(lines, from) == Numbers(from, o.count) + Wanted(lines, After(o, lines))
    ensures NextOffset(o).None? ==> o.count > 0
  {
    hide Truncate.Fits;
    var window := Window(lines, from, limit);
    Truncated(window, o.count);
    forall i | from - 1 <= i < from - 1 + o.count ensures |lines[i]| <= MAX_BYTES {
      LineWithinJoin(window[..o.count], i - (from - 1));
    }
    WantedRun(lines, from, o.count);
  }

  lemma Truncated(window: seq<seq<byte>>, count: nat)
    requires window != [] && Truncate.Greatest(window, count, MAX_LINES, MAX_BYTES)
    ensures |Join(window[..count])| <= MAX_BYTES
    ensures count == 0 <==> |window[0]| > MAX_BYTES
  {
    assert Truncate.Fits(Truncate.First(window, count), MAX_LINES, MAX_BYTES);
    assert Truncate.First(window, 1) == [window[0]];
    assert Truncate.Fits(Truncate.First(window, 1), MAX_LINES, MAX_BYTES) <==> |window[0]| <= MAX_BYTES;
  }

  /** Following the offsets to the end shows every line once and in order, except lines that alone are too long.  It
      ends after at most one page per line, and with the past-the-end error exactly when the last line is too long. */
  lemma {:induction false} PagesCoverTheFile(pages: seq<Outcome>, limits: seq<int>, lines: seq<seq<byte>>, from: nat)
    requires 1 <= from <= |lines| + 1 && Follows(pages, limits, lines, from)
    ensures |pages| <= |lines| + 2 - from
    ensures Complete(pages) ==> Shown(pages) == Wanted(lines, from)
    ensures Complete(pages) && from <= |lines| ==>
              (pages[|pages| - 1].PastEnd? <==> |lines[|lines| - 1]| > MAX_BYTES)
    decreases |pages|
  {
    hide PageOf, Wanted;
    if from > |lines| {
      PastTheEndOnly(pages[0], lines, from, limits[0]);
      assert Shown(pages[1..]) == [];
    } else {
      PageAdvances(pages[0], lines, from, limits[0]);
      PageStart(pages[0], lines, from, limits[0]);
      var next := After(pages[0], lines);
      if |pages| > 1 {
        PagesCoverTheFile(pages[1..], limits[1..], lines, next);
        if next > |lines| {
          PastTheEndOnly(pages[1], lines, next, limits[1]);
        }
      } else {
        assert Shown(pages[1..]) == [];
        NothingWanted(lines);
      }
    }
  }

  lemma PastTheEndOnly(o: Outcome, lines: seq<seq<byte>>, from: nat, limit: int)
    requires from > |lines| && from >= 1 && PageOf(o, lines, from, limit)
    ensures o.PastEnd? && Wanted(lines, from) == []
  {
  }

  lemma PageStart(o: Outcome, lines: seq<seq<byte>>, from: nat, limit: int)
    requires 1 <= from <= |lines| && PageOf(o, lines, from, limit)
    ensures o.Page? && o.start == from
    ensures After(o, lines) > |lines| ==> (NextOffset(o).None? <==> |lines[|lines| - 1]| <= MAX_BYTES)
  {
    hide Truncate.Fits;
    var window := Window(lines, from, limit);
    Truncated(window, o.count);
    if NextOffset(o).None? {
      assert window[..o.count] == window;
      LineWithinJoin(window, |window| - 1);
    }
  }

  lemma NothingWanted(lines: seq<seq<byte>>)
    ensures Wanted(lines, |lines| + 1) == []
  {
  }

  /** What a page says about the rest of the file is so: the number of lines, or of those from the next offset on. */
  predicate CountsRight(o: Outcome, lines: seq<seq<byte>>) {
    o.Page? && match o.note
               case CutBy(_, totalLines, _) => totalLines == |lines|
               case MoreLines(remaining, next) => remaining > 0 && next - 1 + remaining == |lines|
               case _ => true
  }

  lemma PageCountsRight(o: Outcome, lines: seq<seq<byte>>, from: nat, limit: int)
    requires 1 <= from <= |lines| && PageOf(o, lines, from, limit)
    ensures CountsRight(o, lines)
  {
  }

  /** The offsets strictly increase, and each page counts the lines right. */
  lemma {:induction false} OffsetsIncrease(pages: seq<Outcome>, limits: seq<int>, lines: seq<seq<byte>>, from: nat,
                                           i: nat)
    requires 1 <= from <= |lines| + 1 && Follows(pages, limits, lines, from) && i < |pages| - 1
    ensures pages[i].Page? && NextOffset(pages[i]).Some? && pages[i].start < NextOffset(pages[i]).value
    ensures pages[i + 1].Page? ==> pages[i + 1].start == NextOffset(pages[i]).value
    ensures CountsRight(pages[i], lines)
    decreases |pages|
  {
    hide PageOf;
    if from > |lines| {
      PastTheEndOnly(pages[0], lines, from, limits[0]);
    } else {
      PageAdvances(pages[0], lines, from, limits[0]);
      PageStart(pages[0], lines, from, limits[0]);
      var next := After(pages[0], lines);
      PageCountsRight(pages[0], lines, from, limits[0]);
      if i > 0 {
        OffsetsIncrease(pages[1..], limits[1..], lines, next, i - 1);
      } else if next <= |lines| {
        PageStart(pages[1], lines, next, limits[1]);
      } else {
        PastTheEndOnly(pages[1], lines, next, limits[1]);
      }
    }
  }

  function Texts(pages: seq<Outcome>): seq<seq<byte>>
    requires forall i :: 0 <= i < |pages| ==> pages[i].Page?
  {
    seq(|pages|, i requires 0 <= i < |pages| => pages[i].text)
  }

  /** A file without a line that is too long can be put together again from the pages. */
  lemma {:induction false} PagesJoinToTheFile(pages: seq<Outcome>, limits: seq<int>, lines: seq<seq<byte>>, from: nat)
    requires 1 <= from <= |lines| && Follows(pages, limits, lines, from) && Complete(pages)
    requires forall i :: 0 <= i < |lines| ==> |lines[i]| <= MAX_BYTES
    ensures forall i :: 0 <= i < |pages| ==> pages[i].Page?
    ensures Join(Texts(pages)) == Join(lines[from - 1..])
    decreases |pages|
  {
    hide PageOf, Wanted;
    PageAdvances(pages[0], lines, from, limits[0]);
    var next := After(pages[0], lines);
    PageText(pages[0], lines, from, limits[0]);
    if |pages| > 1 {
      if next <= |lines| {
        PagesJoinToTheFile(pages[1..], limits[1..], lines, next);
        assert Texts(pages) == [pages[0].text] + Texts(pages[1..]);
        assert lines[from - 1..] == lines[from - 1..next - 1] + lines[next - 1..];
        JoinConcat(lines[from - 1..next - 1], lines[next - 1..]);
        JoinConcat([pages[0].text], Texts(pages[1..]));
      }
    } else {
      assert Texts(pages) == [pages[0].text] && lines[from - 1..next - 1] == lines[from - 1..];
    }
  }

  lemma PageText(o: Outcome, lines: seq<seq<byte>>, from: nat, limit: int)
    requires 1 <= from <= |lines| && PageOf(o, lines, from, limit) && |lines[from - 1]| <= MAX_BYTES
    ensures o.Page? && from + o.count <= |lines| + 1 && o.text == Join(lines[from - 1..from - 1 + o.count])
    ensures NextOffset(o).Some? ==> from + o.count <= |lines|
  {
    hide Truncate.Fits;
    var window := Window(lines, from, limit);
    Truncated(window, o.count);
    assert window[..o.count] == lines[from - 1..from - 1 + o.count];
  }
}
