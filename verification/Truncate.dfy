/** Cutting a text down to whole lines within a line limit and a byte limit, from either end. */
module Truncate {
  import opened Bytes

  const DEFAULT_MAX_LINES := 2000
  const DEFAULT_MAX_BYTES := 50 * 1024

  datatype Reason = NotCut | Lines | TooManyBytes

  datatype Truncation = Truncation(
    content: seq<byte>, truncated: bool, reason: Reason, totalLines: nat, totalBytes: nat)

  predicate Fits(lines: seq<seq<byte>>, maxLines: nat, maxBytes: nat) {
    |lines| <= maxLines && |Join(lines)| <= maxBytes
  }

  function LineLimit(maxLines: int): nat { if maxLines <= 0 then DEFAULT_MAX_LINES else maxLines }

  function ByteLimit(maxBytes: int): nat { if maxBytes <= 0 then DEFAULT_MAX_BYTES else maxBytes }

  /** The `k` first, and the `k` last lines. */
  function First(lines: seq<seq<byte>>, k: nat): seq<seq<byte>>
    requires k <= |lines|
  {
    lines[..k]
  }

  function Final(lines: seq<seq<byte>>, k: nat): seq<seq<byte>>
    requires k <= |lines|
  {
    lines[|lines| - k..]
  }

  lemma FirstGrows(lines: seq<seq<byte>>, k: nat)
    requires k < |lines|
    ensures |Join(First(lines, k + 1))| == |Join(First(lines, k))| + |lines[k]| + if k > 0 then 1 else 0
  {
    assert lines[..k + 1] == lines[..k] + [lines[k]];
    if k > 0 {
      JoinConcat(lines[..k], [lines[k]]);
    }
  }

  lemma FinalGrows(lines: seq<seq<byte>>, k: nat)
    requires k < |lines|
    ensures |Join(Final(lines, k + 1))| == |Join(Final(lines, k))| + |lines[|lines| - 1 - k]| + if k > 0 then 1 else 0
  {
  }

  /** Taking fewer lines keeps within the limits, so the lines that fit from one end are an initial run. */
  lemma {:induction false} FirstFits(lines: seq<seq<byte>>, j: nat, k: nat, maxLines: nat, maxBytes: nat)
    requires j <= k <= |lines| && Fits(First(lines, k), maxLines, maxBytes)
    ensures Fits(First(lines, j), maxLines, maxBytes)
    decreases k - j
  {
    if j < k {
      FirstFits(lines, j + 1, k, maxLines, maxBytes);
      FirstGrows(lines, j);
    }
  }

  lemma {:induction false} FinalFits(lines: seq<seq<byte>>, j: nat, k: nat, maxLines: nat, maxBytes: nat)
    requires j <= k <= |lines| && Fits(Final(lines, k), maxLines, maxBytes)
    ensures Fits(Final(lines, j), maxLines, maxBytes)
    decreases k - j
  {
    if j < k {
      FinalFits(lines, j + 1, k, maxLines, maxBytes);
      FinalGrows(lines, j);
    }
  }

  /** `kept` is the greatest number of first lines within the limits. */
  ghost predicate Greatest(lines: seq<seq<byte>>, kept: nat, maxLines: nat, maxBytes: nat) {
    && kept <= |lines|
    && forall j :: 0 <= j <= |lines| ==> (Fits(First(lines, j), maxLines, maxBytes) <==> j <= kept)
  }

  ghost predicate GreatestFinal(lines: seq<seq<byte>>, kept: nat, maxLines: nat, maxBytes: nat) {
    && kept <= |lines|
    && forall j :: 0 <= j <= |lines| ==> (Fits(Final(lines, j), maxLines, maxBytes) <==> j <= kept)
  }

  lemma FirstStops(lines: seq<seq<byte>>, k: nat, maxLines: nat, maxBytes: nat)
    requires k <= |lines| && Fits(First(lines, k), maxLines, maxBytes)
    requires k < |lines| ==> !Fits(First(lines, k + 1), maxLines, maxBytes)
    ensures Greatest(lines, k, maxLines, maxBytes)
  {
    forall j | 0 <= j <= |lines| ensures Fits(First(lines, j), maxLines, maxBytes) <==> j <= k {
      if j <= k {
        FirstFits(lines, j, k, maxLines, maxBytes);
      } else if Fits(First(lines, j), maxLines, maxBytes) {
        FirstFits(lines, k + 1, j, maxLines, maxBytes);
      }
    }
  }

  lemma FinalStops(lines: seq<seq<byte>>, k: nat, maxLines: nat, maxBytes: nat)
    requires k <= |lines| && Fits(Final(lines, k), maxLines, maxBytes)
    requires k < |lines| ==> !Fits(Final(lines, k + 1), maxLines, maxBytes)
    ensures GreatestFinal(lines, k, maxLines, maxBytes)
  {
    forall j | 0 <= j <= |lines| ensures Fits(Final(lines, j), maxLines, maxBytes) <==> j <= k {
      if j <= k {
        FinalFits(lines, j, k, maxLines, maxBytes);
      } else if Fits(Final(lines, j), maxLines, maxBytes) {
        FinalFits(lines, k + 1, j, maxLines, maxBytes);
      }
    }
  }

  /** The greatest number of first lines within the limits, and why no more were taken. */
  ghost predicate HeadOf(t: Truncation, content: seq<byte>, kept: nat, maxLines: nat, maxBytes: nat) {
    var lines := Split(content);
    && Greatest(lines, kept, maxLines, maxBytes)
    && t.content == Join(First(lines, kept))
    && t.truncated == (kept < |lines|)
    && t.reason == (if kept == |lines| then NotCut else if kept == maxLines then Lines else TooManyBytes)
    && t.totalLines == |lines| && t.totalBytes == |content|
  }

  method TruncateHead(content: seq<byte>, maxLines: int, maxBytes: int) returns (t: Truncation)
    ensures var lines: nat := if maxLines > 0 then maxLines else 2000;
            var bytes: nat := if maxBytes > 0 then maxBytes else 51_200;
            exists kept :: HeadOf(t, content, kept, lines, bytes)
  {
    var (lineLimit, byteLimit) := (LineLimit(maxLines), ByteLimit(maxBytes));
    var lines := Split(content);
    JoinAfterSplit(content);
    hide Split, Greatest;
    if |lines| <= lineLimit && |content| <= byteLimit {
      assert First(lines, |lines|) == lines;
      FirstStops(lines, |lines|, lineLimit, byteLimit);
      t := Truncation(content, false, NotCut, |lines|, |content|);
      assert HeadOf(t, content, |lines|, lineLimit, byteLimit);
      return;
    }
    var out: seq<seq<byte>> := [];
    var (bytesUsed, reason, i) := (0, Lines, 0);
    while i < |lines|
      invariant i <= |lines| && out == First(lines, i)
      invariant bytesUsed == |Join(out)| && Fits(out, lineLimit, byteLimit)
    {
      FirstGrows(lines, i);
      if i >= lineLimit {
        reason := Lines;
        break;
      }
      var lineBytes := |lines[i]|;
      if |out| > 0 {
        lineBytes := lineBytes + 1;
      }
      if bytesUsed + lineBytes > byteLimit {
        reason := TooManyBytes;
        break;
      }
      out := out + [lines[i]];
      bytesUsed := bytesUsed + lineBytes;
      i := i + 1;
    }
    assert First(lines, |lines|) == lines;
    FirstStops(lines, i, lineLimit, byteLimit);
    t := Truncation(Join(out), true, reason, |lines|, |content|);
    assert HeadOf(t, content, i, lineLimit, byteLimit);
  }

  // ---------- the longest valid suffix ----------

  /** The longest suffix of `s` that is valid UTF-8 and has at most `maxBytes` bytes; a short text is kept as it is. */
  ghost predicate LongestValidSuffix(r: seq<byte>, s: seq<byte>, maxBytes: nat) {
    if |s| <= maxBytes then r == s
    else
      && IsSuffix(r, s) && |r| <= maxBytes && Valid(r)
      && forall n :: |r| < n <= maxBytes ==> !Valid(Last(s, n))
  }

  method TrimToLastBytes(s: seq<byte>, maxBytes: nat) returns (r: seq<byte>)
    ensures LongestValidSuffix(r, s, maxBytes)
  {
    if |s| <= maxBytes {
      return s;
    }
    var start := |s| - maxBytes;
    while start < |s| && !Valid(s[start..])
      invariant |s| - maxBytes <= start <= |s|
      invariant forall k :: |s| - maxBytes <= k < start ==> !Valid(s[k..])
    {
      start := start + 1;
    }
    assert forall n :: |s| - start < n <= maxBytes ==> n <= |s| && Last(s, n) == s[|s| - n..];
    if start >= |s| {
      return [];
    }
    r := s[start..];
  }

  /** Of valid text at most three bytes more are lost than the limit demands. */
  lemma TrimLosesAtMostThree(r: seq<byte>, s: seq<byte>, maxBytes: nat)
    requires LongestValidSuffix(r, s, maxBytes) && Valid(s) && maxBytes < |s|
    ensures maxBytes - 3 <= |r| <= maxBytes
  {
    hide Valid;
    var skip := NextCharIsNear(s, |s| - maxBytes);
    var n := maxBytes - skip;
    if n >= 0 {
      assert n > 0 ==> Last(s, n) == s[|s| - n..];
    }
  }

  // ---------- the tail ----------

  /** The greatest number of last lines within the limits; if not even the last line fits, what can be kept of it. */
  ghost predicate TailOf(t: Truncation, content: seq<byte>, kept: nat, maxLines: nat, maxBytes: nat) {
    var lines := Split(content);
    && GreatestFinal(lines, kept, maxLines, maxBytes)
    && (kept > 0 ==> t.content == Join(Final(lines, kept)))
    && (kept == 0 ==> LongestValidSuffix(t.content, lines[|lines| - 1], maxBytes))
    && t.truncated == (kept < |lines|)
    && t.reason == (if kept == |lines| then NotCut else if kept == maxLines then Lines else TooManyBytes)
    && t.totalLines == |lines| && t.totalBytes == |content|
  }

  /** The lines taken so far, last one first. */
  ghost predicate Backwards(out: seq<seq<byte>>, lines: seq<seq<byte>>) {
    |out| <= |lines| && forall k :: 0 <= k < |out| ==> out[k] == lines[|lines| - 1 - k]
  }

  method Reverse(lines: seq<seq<byte>>) returns (out: seq<seq<byte>>)
    ensures |out| == |lines| && forall k :: 0 <= k < |lines| ==> out[k] == lines[|lines| - 1 - k]
  {
    out := lines;
    var (i, j) := (0, |out| - 1);
    while i < j
      invariant |out| == |lines| && 0 <= i <= j + 1 && i + j == |out| - 1
      invariant forall k :: 0 <= k < i || j < k < |out| ==> out[k] == lines[|out| - 1 - k]
      invariant forall k :: i <= k <= j ==> out[k] == lines[k]
    {
      out := out[i := out[j]][j := out[i]];
      i, j := i + 1, j - 1;
    }
  }

  /** The `kept` last lines, the last one first, or what can be kept of the last line if not even that fits. */
  ghost predicate Collected(out: seq<seq<byte>>, reason: Reason, lines: seq<seq<byte>>, kept: nat, maxLines: nat,
                            maxBytes: nat)
  {
    && GreatestFinal(lines, kept, maxLines, maxBytes) && kept < |lines|
    && (kept > 0 ==> |out| == kept && Backwards(out, lines))
    && (kept == 0 ==> |out| == 1 && LongestValidSuffix(out[0], lines[|lines| - 1], maxBytes))
    && reason == if kept == maxLines then Lines else TooManyBytes
  }

  /** Take lines from the end while they fit. */
  method CollectTail(lines: seq<seq<byte>>, maxLines: nat, maxBytes: nat)
    returns (out: seq<seq<byte>>, reason: Reason)
    requires lines != [] && maxLines > 0 && !Fits(lines, maxLines, maxBytes)
    ensures exists kept :: Collected(out, reason, lines, kept, maxLines, maxBytes)
  {
    assert Final(lines, |lines|) == lines && Final(lines, 0) == [] && Join(Final(lines, 0)) == [];
    hide Join, LongestValidSuffix, GreatestFinal;
    out, reason := [], Lines;
    ghost var kept := 0;
    var (bytesUsed, i) := (0, |lines| - 1);
    while i >= 0
      invariant -1 <= i < |lines| && kept == |out| == |lines| - 1 - i
      invariant Backwards(out, lines) && Fits(Final(lines, kept), maxLines, maxBytes)
      invariant bytesUsed == |Join(Final(lines, kept))|
    {
      FinalGrows(lines, kept);
      if |out| >= maxLines {
        reason := Lines;
        break;
      }
      var line := lines[i];
      var lineBytes := |line|;
      if |out| > 0 {
        lineBytes := lineBytes + 1;
      }
      if bytesUsed + lineBytes > maxBytes {
        reason := TooManyBytes;
        if |out| == 0 {
          var part := TrimToLastBytes(line, maxBytes);
          out := out + [part];
        }
        break;
      }
      out := out + [line];
      bytesUsed := bytesUsed + lineBytes;
      kept := kept + 1;
      i := i - 1;
    }
    FinalStops(lines, kept, maxLines, maxBytes);
    assert Collected(out, reason, lines, kept, maxLines, maxBytes);
  }

  lemma CollectedIsTail(content: seq<byte>, collected: seq<seq<byte>>, out: seq<seq<byte>>, reason: Reason, kept: nat,
                        maxLines: nat, maxBytes: nat)
    requires Collected(collected, reason, Split(content), kept, maxLines, maxBytes)
    requires |out| == |collected| && forall k :: 0 <= k < |out| ==> out[k] == collected[|out| - 1 - k]
    ensures TailOf(Truncation(Join(out), true, reason, |Split(content)|, |content|), content, kept, maxLines, maxBytes)
  {
    hide Split, LongestValidSuffix, GreatestFinal;
    var lines := Split(content);
    if kept > 0 {
      assert out == Final(lines, kept);
    } else {
      assert out == [collected[0]];
    }
  }

  method TruncateTail(content: seq<byte>, maxLines: int, maxBytes: int) returns (t: Truncation)
    ensures var lines: nat := if maxLines > 0 then maxLines else 2000;
            var bytes: nat := if maxBytes > 0 then maxBytes else 51_200;
            exists kept :: TailOf(t, content, kept, lines, bytes)
  {
    hide Split, LongestValidSuffix, GreatestFinal;
    var (lineLimit, byteLimit) := (LineLimit(maxLines), ByteLimit(maxBytes));
    var lines := Split(content);
    JoinAfterSplit(content);
    assert Final(lines, |lines|) == lines;
    if |lines| <= lineLimit && |content| <= byteLimit {
      FinalStops(lines, |lines|, lineLimit, byteLimit);
      t := Truncation(content, false, NotCut, |lines|, |content|);
      assert TailOf(t, content, |lines|, lineLimit, byteLimit);
      return;
    }
    hide Collected, Join, TailOf;
    var collected, reason := CollectTail(lines, lineLimit, byteLimit);
    ghost var kept :| Collected(collected, reason, lines, kept, lineLimit, byteLimit);
    var out := Reverse(collected);
    t := Truncation(Join(out), true, reason, |lines|, |content|);
    CollectedIsTail(content, collected, out, reason, kept, lineLimit, byteLimit);
  }

  // ---------- what the cut texts are ----------

  lemma HeadIsAPrefix(t: Truncation, content: seq<byte>, kept: nat, maxLines: nat, maxBytes: nat)
    requires HeadOf(t, content, kept, maxLines, maxBytes) && maxLines > 0
    ensures t.content <= content && |t.content| <= maxBytes
    ensures !t.truncated <==> t.content == content
  {
    hide Split;
    var lines := Split(content);
    JoinAfterSplit(content);
    assert First(lines, 1) == [lines[0]] && Fits(First(lines, kept), maxLines, maxBytes);
    if kept == |lines| {
      assert First(lines, kept) == lines;
    } else if kept > 0 {
      assert lines[..kept] + lines[kept..] == lines;
      JoinConcat(lines[..kept], lines[kept..]);
    } else {
      SplitAtNewline([], []);
      assert Fits([[]], maxLines, maxBytes);
    }
  }

  lemma TailIsASuffix(t: Truncation, content: seq<byte>, kept: nat, maxLines: nat, maxBytes: nat)
    requires TailOf(t, content, kept, maxLines, maxBytes) && maxLines > 0
    ensures IsSuffix(t.content, content) && |t.content| <= maxBytes
  {
    hide Split, LongestValidSuffix;
    var lines := Split(content);
    JoinAfterSplit(content);
    assert kept > 0 ==> Fits(Final(lines, kept), maxLines, maxBytes);
    var last := lines[|lines| - 1];
    assert Final(lines, 1) == [last] && Join([last]) == last;
    FinalIsASuffix(lines, if kept > 0 then kept else 1);
    if kept == 0 {
      assert !Fits(Final(lines, 1), maxLines, maxBytes) && |last| > maxBytes;
      PartOfLine(t.content, last, maxBytes);
      SuffixOfSuffix(t.content, last, content);
    }
  }

  lemma PartOfLine(r: seq<byte>, s: seq<byte>, maxBytes: nat)
    requires LongestValidSuffix(r, s, maxBytes) && |s| > maxBytes
    ensures IsSuffix(r, s) && |r| <= maxBytes && Valid(r)
  {
  }

  lemma SuffixOfSuffix(a: seq<byte>, b: seq<byte>, c: seq<byte>)
    requires IsSuffix(a, b) && IsSuffix(b, c)
    ensures IsSuffix(a, c)
  {
  }

  lemma FinalIsASuffix(lines: seq<seq<byte>>, k: nat)
    requires 0 < k <= |lines|
    ensures IsSuffix(Join(Final(lines, k)), Join(lines))
  {
    hide Join;
    var n := |lines| - k;
    assert lines[..n] + lines[n..] == lines;
    if n > 0 {
      JoinConcat(lines[..n], lines[n..]);
    } else {
      assert lines[n..] == lines;
    }
  }

  /** Valid UTF-8 stays valid, whichever end is cut. */
  lemma CutsStayValid(t: Truncation, content: seq<byte>, kept: nat, maxLines: nat, maxBytes: nat)
    requires HeadOf(t, content, kept, maxLines, maxBytes) || TailOf(t, content, kept, maxLines, maxBytes)
    requires maxLines > 0 && Valid(content)
    ensures Valid(t.content)
  {
    hide Split, CharLength;
    var lines := Split(content);
    JoinAfterSplit(content);
    ValidLines(lines);
    if kept > 0 {
      ValidLines(First(lines, kept));
      ValidLines(Final(lines, kept));
    }
  }

  /** When even the last line is too long, the tail still fills the limit but for three bytes. */
  lemma TailFillsTheLimit(t: Truncation, content: seq<byte>, maxLines: nat, maxBytes: nat)
    requires TailOf(t, content, 0, maxLines, maxBytes) && maxLines > 0 && Valid(content)
    ensures maxBytes - 3 <= |t.content| <= maxBytes
  {
    hide Split, Valid, LongestValidSuffix;
    var lines := Split(content);
    JoinAfterSplit(content);
    ValidLines(lines);
    var last := lines[|lines| - 1];
    assert Final(lines, 1) == [last] && Join([last]) == last;
    assert !Fits(Final(lines, 1), maxLines, maxBytes);
    TrimLosesAtMostThree(t.content, last, maxBytes);
  }

  // ---------- a bounded capture in front ----------

  /** The lines of a suffix are the last lines of the text, the first of them possibly cut. */
  ghost predicate CutLines(part: seq<seq<byte>>, lines: seq<seq<byte>>) {
    && 1 <= |part| <= |lines|
    && part[1..] == Final(lines, |part| - 1)
    && IsSuffix(part[0], lines[|lines| - |part|])
  }

  lemma {:induction false} LinesOfSuffix(s: seq<byte>, at: nat)
    requires at <= |s|
    ensures CutLines(Split(s[at..]), Split(s))
  {
    if at == 0 {
      assert s[0..] == s;
    } else {
      LinesOfSuffix(s[1..], at - 1);
      assert s[1..][at - 1..] == s[at..];
      OneMoreByte(Split(s[at..]), Split(s[1..]), s[0]);
    }
  }

  lemma OneMoreByte(part: seq<seq<byte>>, rest: seq<seq<byte>>, b: byte)
    requires CutLines(part, rest)
    ensures CutLines(part, [[]] + rest) && CutLines(part, [[b] + rest[0]] + rest[1..])
  {
  }

  lemma SameTailSameCut(r: seq<byte>, r': seq<byte>, s: seq<byte>, s': seq<byte>, maxBytes: nat)
    requires LongestValidSuffix(r, s, maxBytes) && LongestValidSuffix(r', s', maxBytes)
    requires s == s' || (IsSuffix(s', s) && |s'| > maxBytes)
    ensures r == r'
  {
    hide Valid;
    if |s'| > maxBytes {
      assert forall n :: 0 <= n <= maxBytes ==> Last(s, n) == Last(s', n);
      assert r == Last(s, |r|) && r' == Last(s', |r'|);
    }
  }

  /** The lines that fit are the same for the text and for a suffix of it that is itself too long to be shown. */
  lemma SameLinesFit(part: seq<seq<byte>>, lines: seq<seq<byte>>, kept: nat, kept': nat, maxLines: nat, maxBytes: nat)
    requires CutLines(part, lines) && !Fits(part, maxLines, maxBytes)
    requires GreatestFinal(lines, kept, maxLines, maxBytes) && GreatestFinal(part, kept', maxLines, maxBytes)
    ensures kept == kept' < |part| && Final(lines, kept) == Final(part, kept')
  {
    var n := |part| - 1;
    assert Final(part, n + 1) == part && Final(part, n) == Final(lines, n);
    FinalGrows(part, n);
    FinalGrows(lines, n);
    assert !Fits(Final(part, n + 1), maxLines, maxBytes) && !Fits(Final(lines, n + 1), maxLines, maxBytes);
    SameFinals(part, lines, n, kept);
    SameFinals(part, lines, n, kept');
    assert Fits(Final(lines, kept), maxLines, maxBytes) && Fits(Final(part, kept'), maxLines, maxBytes);
  }

  lemma SameFinals(part: seq<seq<byte>>, lines: seq<seq<byte>>, n: nat, j: nat)
    requires n <= |part| <= |lines| && Final(part, n) == Final(lines, n)
    ensures j <= n ==> Final(part, j) == Final(lines, j)
  {
  }

  /** The same text, cut for the same reason or shown whole. */
  predicate ShownAlike(t: Truncation, u: Truncation) {
    t.content == u.content && t.truncated == u.truncated && t.reason == u.reason
  }

  lemma WholeIsShown(t: Truncation, content: seq<byte>, kept: nat, maxLines: nat, maxBytes: nat)
    requires TailOf(t, content, kept, maxLines, maxBytes)
    ensures t.truncated <==> !Fits(Split(content), maxLines, maxBytes)
    ensures !t.truncated ==> t.content == content && t.reason == NotCut
  {
    hide Split, LongestValidSuffix, Join;
    var lines := Split(content);
    JoinAfterSplit(content);
    assert Final(lines, |lines|) == lines;
  }

  /** A suffix of a text is shown like the text itself exactly when it is the text, or is itself too long to be shown
      whole. */
  lemma SuffixShownAlike(t: Truncation, u: Truncation, whole: seq<byte>, part: seq<byte>, kept: nat, kept': nat,
                         maxLines: nat, maxBytes: nat)
    requires IsSuffix(part, whole) && maxLines > 0
    requires TailOf(t, whole, kept, maxLines, maxBytes) && TailOf(u, part, kept', maxLines, maxBytes)
    ensures ShownAlike(t, u) <==> whole == part || !Fits(Split(part), maxLines, maxBytes)
  {
    hide Split, LongestValidSuffix, TailOf, Fits;
    WholeIsShown(t, whole, kept, maxLines, maxBytes);
    WholeIsShown(u, part, kept', maxLines, maxBytes);
    if whole == part || !Fits(Split(part), maxLines, maxBytes) {
      TooLongShownAlike(t, u, whole, part, kept, kept', maxLines, maxBytes);
    }
  }

  lemma TooLongShownAlike(t: Truncation, u: Truncation, whole: seq<byte>, part: seq<byte>, kept: nat, kept': nat,
                          maxLines: nat, maxBytes: nat)
    requires IsSuffix(part, whole) && maxLines > 0 && (whole == part || !Fits(Split(part), maxLines, maxBytes))
    requires TailOf(t, whole, kept, maxLines, maxBytes) && TailOf(u, part, kept', maxLines, maxBytes)
    ensures ShownAlike(t, u)
  {
    hide Split, LongestValidSuffix, Valid, Join;
    var (lines, lines') := (Split(whole), Split(part));
    JoinAfterSplit(whole);
    JoinAfterSplit(part);
    if whole == part {
      assert Fits(Final(lines, kept), maxLines, maxBytes) && Fits(Final(lines', kept'), maxLines, maxBytes);
    } else {
      LinesOfSuffix(whole, |whole| - |part|);
      SameLinesFit(lines', lines, kept, kept', maxLines, maxBytes);
    }
    if kept == 0 {
      LastLines(lines', lines, maxLines, maxBytes);
      SameTailSameCut(t.content, u.content, lines[|lines| - 1], lines'[|lines'| - 1], maxBytes);
    }
  }

  lemma LastLines(part: seq<seq<byte>>, lines: seq<seq<byte>>, maxLines: nat, maxBytes: nat)
    requires part == lines || (CutLines(part, lines) && !Fits(part, maxLines, maxBytes))
    requires lines != [] && maxLines > 0
    ensures var (s, s') := (lines[|lines| - 1], part[|part| - 1]);
            s == s' || (IsSuffix(s', s) && |s'| > maxBytes)
  {
    if part != lines && |part| > 1 {
      assert part[1..][|part| - 2] == Final(lines, |part| - 1)[|part| - 2];
    }
  }
}
