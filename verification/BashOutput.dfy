/** What is shown of a command's output: captured up to a limit, trimmed, and cut from the end.

    Only the last two MiB are captured, and they are trimmed after that.  Whether the reader can tell is decided here
    for every output: exactly when the trimmed capture and the trimmed output differ and one of them fits. */
module BashOutput {
  import opened Bytes
  import opened Truncate
  import TailBuffer

  // ---------- white space in UTF-8 ----------

  predicate IsSpace(a: byte) {
    a == 32 || 9 <= a <= 13
  }

  /** U+0085 and U+00A0. */
  predicate IsTwoByteSpace(a: byte, b: byte) {
    a == 0xC2 && (b == 0x85 || b == 0xA0)
  }

  /** U+1680, U+2000 to U+200A, U+2028, U+2029, U+202F, U+205F and U+3000. */
  predicate IsWideSpace(a: byte, b: byte, c: byte) {
    || (a == 0xE1 && b == 0x9A && c == 0x80)
    || (a == 0xE2 && b == 0x80 && (0x80 <= c <= 0x8A || c == 0xA8 || c == 0xA9 || c == 0xAF))
    || (a == 0xE2 && b == 0x81 && c == 0x9F)
    || (a == 0xE3 && b == 0x80 && c == 0x80)
  }

  /** The length of the white space character that `s` starts with, or 0. */
  function SpaceAt(s: seq<byte>): (n: nat)
    ensures n <= 3 && n <= |s|
  {
    if |s| >= 1 && IsSpace(s[0]) then 1
    else if |s| >= 2 && IsTwoByteSpace(s[0], s[1]) then 2
    else if |s| >= 3 && IsWideSpace(s[0], s[1], s[2]) then 3
    else 0
  }

  /** The length of the white space character that `s` ends with, or 0. */
  function SpaceBefore(s: seq<byte>): (n: nat)
    ensures n <= 3 && n <= |s|
  {
    var n := |s|;
    if n >= 1 && IsSpace(s[n - 1]) then 1
    else if n >= 2 && IsTwoByteSpace(s[n - 2], s[n - 1]) then 2
    else if n >= 3 && IsWideSpace(s[n - 3], s[n - 2], s[n - 1]) then 3
    else 0
  }

  function TrimLeft(s: seq<byte>): (r: seq<byte>)
    ensures IsSuffix(r, s)
    decreases |s|
  {
    if SpaceAt(s) == 0 then s else TrimLeft(s[SpaceAt(s)..])
  }

  function TrimRight(s: seq<byte>): (r: seq<byte>)
    ensures r <= s
    decreases |s|
  {
    if SpaceBefore(s) == 0 then s else TrimRight(s[..|s| - SpaceBefore(s)])
  }

  function TrimSpace(s: seq<byte>): seq<byte> {
    TrimRight(TrimLeft(s))
  }

  // ---------- the tool ----------

  const MAX_LINES := DEFAULT_MAX_LINES
  const MAX_BYTES := DEFAULT_MAX_BYTES

  /** "(no output)" */
  const NO_OUTPUT: seq<byte> := [40, 110, 111, 32, 111, 117, 116, 112, 117, 116, 41]

  function Output(captured: seq<byte>): seq<byte> {
    if TrimSpace(captured) == [] then NO_OUTPUT else TrimSpace(captured)
  }

  /** `t` is what the tool shows of this text. */
  ghost predicate Shows(t: Truncation, text: seq<byte>) {
    exists kept :: TailOf(t, text, kept, MAX_LINES, MAX_BYTES)
  }

  predicate TooLong(text: seq<byte>) {
    !Fits(Split(text), MAX_LINES, MAX_BYTES)
  }

  /** The part of the tool that turns everything a command has written into what is shown, with the total size and the
      note that the capture limit was reached. */
  method ShowOutput(writes: seq<seq<byte>>) returns (t: Truncation, total: nat, limitReached: bool)
    ensures Shows(t, Output(Last(Flatten(writes), TailBuffer.MAX_CAPTURED_BYTES)))
    ensures total == |Flatten(writes)|
    ensures limitReached <==> total > TailBuffer.MAX_CAPTURED_BYTES
  {
    hide Split, TailOf, TrimSpace;
    var captured;
    captured, total, limitReached := TailBuffer.Capture(TailBuffer.MAX_CAPTURED_BYTES, writes);
    var output := TrimSpace(captured);
    if output == [] {
      output := NO_OUTPUT;
    }
    t := TruncateTail(output, MAX_LINES, MAX_BYTES);
  }

  // ---------- what trimming does ----------

  /** White space characters one after the other, and nothing else. */
  predicate AllSpace(s: seq<byte>)
    decreases |s|
  {
    s == [] || (SpaceAt(s) > 0 && AllSpace(s[SpaceAt(s)..]))
  }

  /** `r` is `s` without white space in front and behind, and neither starts nor ends with any. */
  ghost predicate IsTrimmed(r: seq<byte>, s: seq<byte>) {
    && SpaceAt(r) == 0 && SpaceBefore(r) == 0
    && exists a, b :: s == a + r + b && AllSpace(a) && AllSpace(b)
  }

  lemma AllSpaceUnrolls(s: seq<byte>)
    ensures AllSpace(s) <==> s == [] || (SpaceAt(s) > 0 && AllSpace(s[SpaceAt(s)..]))
  {
  }

  lemma LongerSpace(s: seq<byte>, t: seq<byte>)
    requires s <= t
    ensures SpaceAt(s) > 0 ==> SpaceAt(t) == SpaceAt(s)
  {
  }

  lemma LastSpace(s: seq<byte>)
    ensures SpaceAt(s[|s| - SpaceBefore(s)..]) == SpaceBefore(s)
  {
  }

  lemma {:induction false} SpacesJoin(a: seq<byte>, b: seq<byte>)
    requires AllSpace(a) && AllSpace(b)
    ensures AllSpace(a + b)
    decreases |a|
  {
    hide SpaceAt, AllSpace;
    AllSpaceUnrolls(a);
    AllSpaceUnrolls(a + b);
    if a == [] {
      assert a + b == b;
    } else {
      var n := SpaceAt(a);
      LongerSpace(a, a + b);
      assert (a + b)[n..] == a[n..] + b;
      SpacesJoin(a[n..], b);
    }
  }

  lemma {:induction false} TrimLeftDropsSpace(s: seq<byte>) returns (a: seq<byte>)
    ensures s == a + TrimLeft(s) && AllSpace(a) && SpaceAt(TrimLeft(s)) == 0
    decreases |s|
  {
    hide SpaceAt, TrimLeft, AllSpace;
    var n := SpaceAt(s);
    TrimLeftUnrolls(s);
    if n == 0 {
      a := [];
      AllSpaceUnrolls(a);
    } else {
      var rest := TrimLeftDropsSpace(s[n..]);
      a := s[..n] + rest;
      LongerSpaceBack(s, a);
      AllSpaceUnrolls(a);
      assert a[n..] == rest;
    }
  }

  lemma LongerSpaceBack(s: seq<byte>, t: seq<byte>)
    requires SpaceAt(s) <= |t| && s[..SpaceAt(s)] == t[..SpaceAt(s)]
    ensures SpaceAt(s) > 0 ==> SpaceAt(t) == SpaceAt(s)
  {
    assert forall i :: 0 <= i < SpaceAt(s) ==> t[i] == t[..SpaceAt(s)][i] == s[i];
  }

  lemma {:induction false} TrimRightDropsSpace(s: seq<byte>) returns (b: seq<byte>)
    ensures s == TrimRight(s) + b && AllSpace(b) && SpaceBefore(TrimRight(s)) == 0
    decreases |s|
  {
    hide SpaceAt, SpaceBefore, TrimRight, AllSpace;
    var n := SpaceBefore(s);
    TrimRightUnrolls(s);
    AllSpaceUnrolls([]);
    if n == 0 {
      b := [];
    } else {
      var rest := TrimRightDropsSpace(s[..|s| - n]);
      var last := s[|s| - n..];
      b := rest + last;
      LastSpace(s);
      assert last[n..] == [];
      AllSpaceUnrolls(last);
      SpacesJoin(rest, last);
      assert s == s[..|s| - n] + last;
    }
  }

  /** Trimming takes away white space and nothing else, and leaves none at either end. */
  lemma TrimSpaceTrims(s: seq<byte>)
    ensures IsTrimmed(TrimSpace(s), s)
  {
    hide SpaceAt, SpaceBefore, TrimLeft, TrimRight, AllSpace;
    var a := TrimLeftDropsSpace(s);
    var b := TrimRightDropsSpace(TrimLeft(s));
    LongerSpace(TrimSpace(s), TrimLeft(s));
    assert s == a + TrimSpace(s) + b;
  }

  lemma {:induction false} SpaceIsTrimmedAway(s: seq<byte>)
    requires AllSpace(s)
    ensures TrimLeft(s) == []
    decreases |s|
  {
    hide SpaceAt, TrimLeft, AllSpace;
    AllSpaceUnrolls(s);
    TrimLeftUnrolls(s);
    NothingIsNoSpace();
    if s != [] {
      SpaceIsTrimmedAway(s[SpaceAt(s)..]);
    }
  }

  lemma NothingIsNoSpace()
    ensures SpaceAt([]) == 0 && TrimSpace([]) == []
  {
  }

  /** What the tool has to show is never empty and never starts or ends with white space: the captured text without the
      white space around it, or that there was none, exactly when all of it was white space. */
  lemma OutputIsTrimmed(captured: seq<byte>)
    ensures Output(captured) != [] && SpaceAt(Output(captured)) == 0 && SpaceBefore(Output(captured)) == 0
    ensures if AllSpace(captured) then Output(captured) == NO_OUTPUT else IsTrimmed(Output(captured), captured)
  {
    hide TrimLeft, TrimRight, SpaceAt, SpaceBefore, AllSpace, IsTrimmed;
    TrimSpaceTrims(captured);
    TrimmedToNothing(TrimSpace(captured), captured);
    NoOutputIsNoSpace();
    if AllSpace(captured) {
      SpaceIsTrimmedAway(captured);
      NothingIsNoSpace();
    }
  }

  lemma TrimmedToNothing(r: seq<byte>, s: seq<byte>)
    requires IsTrimmed(r, s)
    ensures SpaceAt(r) == 0 && SpaceBefore(r) == 0
    ensures r == [] ==> AllSpace(s)
  {
    hide AllSpace, SpaceAt, SpaceBefore;
    var a, b :| s == a + r + b && AllSpace(a) && AllSpace(b);
    if r == [] {
      SpacesJoin(a, b);
      assert s == a + b;
    }
  }

  lemma NoOutputIsNoSpace()
    ensures SpaceAt(NO_OUTPUT) == 0 && SpaceBefore(NO_OUTPUT) == 0
  {
  }

  // ---------- trimming a cut text ----------

  /** The text is cut inside a white space character. */
  predicate CutsSpace(s: seq<byte>, at: nat)
    requires at <= |s|
  {
    || (at >= 1 && SpaceAt(s[at - 1..]) > 1)
    || (at >= 2 && SpaceAt(s[at - 2..]) > 2)
  }

  lemma TrimLeftUnrolls(s: seq<byte>)
    ensures TrimLeft(s) == if SpaceAt(s) == 0 then s else TrimLeft(s[SpaceAt(s)..])
  {
  }

  lemma DropIsSuffix(s: seq<byte>, at: nat)
    requires at <= |s|
    ensures IsSuffix(s[at..], s)
  {
  }

  lemma CutInsideSpace(s: seq<byte>, at: nat)
    requires 0 < at < SpaceAt(s)
    ensures CutsSpace(s, at) && SpaceAt(s[at..]) == 0
  {
    assert s[0..] == s && s[at..][0] == s[at];
  }

  /** From the left: trimming a cut text gives a suffix of the trimmed text, unless the cut is inside a white space
      character; then its last bytes stop the trimming at once. */
  lemma {:induction false} TrimLeftOfCut(s: seq<byte>, at: nat)
    requires at <= |s|
    ensures || IsSuffix(TrimLeft(s[at..]), TrimLeft(s))
            || (CutsSpace(s, at) && TrimLeft(s[at..]) == s[at..] && IsSuffix(TrimLeft(s), s[at..]))
    decreases |s|
  {
    hide SpaceAt, TrimLeft, IsSuffix, CutsSpace;
    var n := SpaceAt(s);
    TrimLeftUnrolls(s);
    if at == 0 {
      assert s[0..] == s;
      assert TrimLeft(s)[0..] == TrimLeft(s);
      DropIsSuffix(TrimLeft(s), 0);
    } else if n == 0 {
      DropIsSuffix(s, at);
      SuffixOfSuffix(TrimLeft(s[at..]), s[at..], s);
    } else if at >= n {
      TrimLeftOfCut(s[n..], at - n);
      assert s[n..][at - n..] == s[at..];
      CutsSpaceLater(s, n, at);
    } else {
      CutInsideSpace(s, at);
      TrimLeftUnrolls(s[at..]);
      assert s[at..][n - at..] == s[n..];
      DropIsSuffix(s[at..], n - at);
      SuffixOfSuffix(TrimLeft(s[n..]), s[n..], s[at..]);
    }
  }

  lemma CutsSpaceLater(s: seq<byte>, n: nat, at: nat)
    requires n <= at <= |s|
    ensures CutsSpace(s[n..], at - n) ==> CutsSpace(s, at)
  {
    hide SpaceAt;
    assert at - n >= 1 ==> s[n..][at - n - 1..] == s[at - 1..];
    assert at - n >= 2 ==> s[n..][at - n - 2..] == s[at - 2..];
  }

  /** One or two bytes left over from a character. */
  predicate Stray(s: seq<byte>) {
    1 <= |s| <= 2 && Continuation(s[0]) && (|s| == 2 ==> Continuation(s[1]))
  }

  lemma SpaceBeforeOfCut(s: seq<byte>, at: nat)
    requires at <= |s|
    ensures SpaceBefore(s[at..]) == if |s| - at >= SpaceBefore(s) then SpaceBefore(s) else 0
    ensures 0 < |s| - at < SpaceBefore(s) ==> Stray(s[at..])
  {
    var t := s[at..];
    assert forall i :: 0 <= i < |t| ==> t[i] == s[at + i];
  }

  lemma TrimRightUnrolls(s: seq<byte>)
    ensures TrimRight(s) == if SpaceBefore(s) == 0 then s else TrimRight(s[..|s| - SpaceBefore(s)])
  {
  }

  /** From the right the same, unless only a stray rest of a white space character is left of the text. */
  lemma {:induction false} TrimRightOfCut(s: seq<byte>, at: nat)
    requires at <= |s|
    ensures IsSuffix(TrimRight(s[at..]), TrimRight(s)) || Stray(TrimRight(s[at..]))
    decreases |s|
  {
    hide SpaceBefore, TrimRight, IsSuffix, Stray;
    var n := SpaceBefore(s);
    SpaceBeforeOfCut(s, at);
    TrimRightUnrolls(s);
    TrimRightUnrolls(s[at..]);
    if n == 0 {
      DropIsSuffix(s, at);
    } else if at <= |s| - n {
      TrimRightOfCut(s[..|s| - n], at);
      assert s[at..][..|s| - at - n] == s[..|s| - n][at..];
    } else if at == |s| {
      DropIsSuffix(TrimRight(s), |TrimRight(s)|);
      assert s[at..] == TrimRight(s)[|TrimRight(s)|..];
    }
  }

  lemma LastIsTail(s: seq<byte>, capture: nat)
    ensures Last(s, capture) == s[if |s| <= capture then 0 else |s| - capture..]
  {
  }

  /** Trimming a suffix on the right gives a suffix of the trimmed text, or a stray rest. */
  lemma TrimRightOfSuffix(b: seq<byte>, a: seq<byte>)
    requires IsSuffix(b, a)
    ensures IsSuffix(TrimRight(b), TrimRight(a)) || Stray(TrimRight(b))
  {
    hide TrimRight, Stray;
    TrimRightOfCut(a, |a| - |b|);
  }

  /** The trimmed capture and the trimmed output: one is a suffix of the other, or one of them is a stray rest. */
  lemma TrimmedCapture(s: seq<byte>, capture: nat)
    ensures var (part, whole) := (TrimSpace(Last(s, capture)), TrimSpace(s));
            IsSuffix(part, whole) || IsSuffix(whole, part) || Stray(part) || Stray(whole)
  {
    hide TrimRight, TrimLeft, Last, IsSuffix, Stray;
    var at := if |s| <= capture then 0 else |s| - capture;
    LastIsTail(s, capture);
    TrimLeftOfCut(s, at);
    var (a, b) := (TrimLeft(s), TrimLeft(s[at..]));
    if IsSuffix(b, a) {
      TrimRightOfSuffix(b, a);
    } else {
      TrimRightOfSuffix(a, b);
    }
  }

  /** The trimmed capture is a suffix of the trimmed output unless it starts inside a white space character, or is
      nothing but the stray rest of one. */
  lemma TrimmedCaptureIsASuffix(s: seq<byte>, capture: nat)
    requires |s| > capture && !CutsSpace(s, |s| - capture)
    ensures IsSuffix(TrimSpace(Last(s, capture)), TrimSpace(s)) || Stray(TrimSpace(Last(s, capture)))
  {
    hide TrimRight, TrimLeft, CutsSpace, Last, IsSuffix, Stray;
    LastIsTail(s, capture);
    TrimLeftOfCut(s, |s| - capture);
    TrimRightOfSuffix(TrimLeft(s[|s| - capture..]), TrimLeft(s));
  }

  // ---------- when the capture limit shows ----------

  lemma ShortTextsFit(text: seq<byte>)
    requires |text| <= MAX_BYTES && NEWLINE !in text
    ensures !TooLong(text)
  {
    SplitAtNewline(text, []);
    JoinAfterSplit(text);
  }

  lemma StrayFits(text: seq<byte>)
    requires Stray(text)
    ensures !TooLong(text)
  {
    hide Split;
    ShortTextsFit(text);
  }

  lemma NoOutputFits()
    ensures !TooLong(NO_OUTPUT)
  {
    hide Split;
    ShortTextsFit(NO_OUTPUT);
  }

  /** Two texts of which one is a suffix of the other, or which are not both too long. */
  lemma TextsShownAlike(t: Truncation, u: Truncation, whole: seq<byte>, part: seq<byte>)
    requires Shows(t, whole) && Shows(u, part)
    requires IsSuffix(part, whole) || IsSuffix(whole, part) || !TooLong(whole) || !TooLong(part)
    ensures ShownAlike(t, u) <==> whole == part || (TooLong(whole) && TooLong(part))
  {
    hide Split, TailOf, Fits;
    var kept :| TailOf(t, whole, kept, MAX_LINES, MAX_BYTES);
    var kept' :| TailOf(u, part, kept', MAX_LINES, MAX_BYTES);
    WholeIsShown(t, whole, kept, MAX_LINES, MAX_BYTES);
    WholeIsShown(u, part, kept', MAX_LINES, MAX_BYTES);
    if IsSuffix(part, whole) {
      SuffixShownAlike(t, u, whole, part, kept, kept', MAX_LINES, MAX_BYTES);
    } else if IsSuffix(whole, part) {
      SuffixShownAlike(u, t, part, whole, kept', kept, MAX_LINES, MAX_BYTES);
    }
  }

  /** Capturing only the last bytes of the output, and trimming them, shows the same as keeping everything exactly when
      what is left to show is the same text, or both texts are too long to be shown whole. */
  lemma CaptureShownAlike(t: Truncation, u: Truncation, output: seq<byte>, capture: nat)
    requires Shows(t, Output(output)) && Shows(u, Output(Last(output, capture)))
    ensures var (whole, part) := (Output(output), Output(Last(output, capture)));
            ShownAlike(t, u) <==> whole == part || (TooLong(whole) && TooLong(part))
  {
    hide TrimSpace, TooLong, Shows, IsSuffix, Last;
    var (part, whole) := (TrimSpace(Last(output, capture)), TrimSpace(output));
    TrimmedCapture(output, capture);
    NoOutputFits();
    if Stray(part) { StrayFits(part); }
    if Stray(whole) { StrayFits(whole); }
    TextsShownAlike(t, u, Output(output), Output(Last(output, capture)));
  }

  // ---------- two outputs that show it ----------

  function Spaces(n: nat): seq<byte> {
    seq(n, _ => 32)
  }

  lemma StartsWithSpace(s: seq<byte>)
    requires s != [] && s[0] == 32
    ensures SpaceAt(s) == 1
  {
  }

  lemma SpacesUnroll(n: nat, text: seq<byte>)
    ensures n == 0 ==> Spaces(n) + text == text
    ensures n > 0 ==> Spaces(n) + text != [] && (Spaces(n) + text)[0] == 32
    ensures n > 0 ==> (Spaces(n) + text)[1..] == Spaces(n - 1) + text
  {
  }

  lemma {:induction false} SpacesTrimAway(n: nat, text: seq<byte>)
    requires SpaceAt(text) == 0
    ensures TrimLeft(Spaces(n) + text) == text
  {
    hide SpaceAt, TrimLeft, Spaces, IsSuffix;
    SpacesUnroll(n, text);
    TrimLeftUnrolls(Spaces(n) + text);
    if n > 0 {
      StartsWithSpace(Spaces(n) + text);
      SpacesTrimAway(n - 1, text);
    }
  }

  lemma NothingToTrim(text: seq<byte>)
    requires text != [] && SpaceAt(text) == 0 && 33 <= text[|text| - 1] < 0x80
    ensures TrimSpace(text) == text
  {
  }

  const XYZ: seq<byte> := [120, 121, 122]

  lemma LastOfSpaces(before: seq<byte>, n: nat, capture: nat)
    requires 3 <= capture <= n + 3
    ensures Last(before + Spaces(n) + XYZ, capture) == Spaces(capture - 3) + XYZ
  {
  }

  /** "a", two MiB of spaces and "xyz": the capture no longer reaches back to the "a", the spaces are trimmed away, and
      "xyz" is shown as if it were all, while the whole output is too long. */
  lemma LongGapLooksShort(t: Truncation, u: Truncation)
    ensures var output := [97] + Spaces(TailBuffer.MAX_CAPTURED_BYTES) + XYZ;
            Shows(t, Output(output)) && Shows(u, Output(Last(output, TailBuffer.MAX_CAPTURED_BYTES)))
            ==> t.truncated && !u.truncated && u.content == XYZ && !ShownAlike(t, u)
  {
    hide Split, TailOf, TrimSpace, Last, Fits, Shows;
    var capture := TailBuffer.MAX_CAPTURED_BYTES;
    var output := [97] + Spaces(capture) + XYZ;
    LastOfSpaces([97], capture, capture);
    TrimmedGap(capture - 3);
    NothingToTrim(output);
    if Shows(t, output) && Shows(u, XYZ) {
      ShownWhole(u, XYZ);
      ShownCut(t, output);
    }
  }

  lemma TrimmedGap(n: nat)
    ensures TrimSpace(Spaces(n) + XYZ) == XYZ
  {
    SpacesTrimAway(n, XYZ);
    NothingToTrim(XYZ);
  }

  lemma ShownWhole(t: Truncation, text: seq<byte>)
    requires Shows(t, text) && |text| <= MAX_BYTES && NEWLINE !in text
    ensures !t.truncated && t.content == text
  {
    hide Split, TailOf;
    var kept :| TailOf(t, text, kept, MAX_LINES, MAX_BYTES);
    ShortTextsFit(text);
    WholeIsShown(t, text, kept, MAX_LINES, MAX_BYTES);
  }

  lemma ShownCut(t: Truncation, text: seq<byte>)
    requires Shows(t, text) && |text| > MAX_BYTES
    ensures t.truncated
  {
    hide Split, TailOf;
    var kept :| TailOf(t, text, kept, MAX_LINES, MAX_BYTES);
    JoinAfterSplit(text);
    WholeIsShown(t, text, kept, MAX_LINES, MAX_BYTES);
  }

  /** A wide space cut in two, more spaces and "xyz": the stray byte keeps the spaces from being trimmed, and a short
      output is shown as a truncated one. */
  lemma CutSpaceLooksLong(t: Truncation, u: Truncation)
    ensures var output := [0xE2, 0x80, 0x80] + Spaces(TailBuffer.MAX_CAPTURED_BYTES - 4) + XYZ;
            Shows(t, Output(output)) && Shows(u, Output(Last(output, TailBuffer.MAX_CAPTURED_BYTES)))
            ==> !t.truncated && t.content == XYZ && u.truncated && !ShownAlike(t, u)
  {
    hide Split, TailOf, TrimSpace, Fits, Shows;
    var n := TailBuffer.MAX_CAPTURED_BYTES - 4;
    var output := [0xE2, 0x80, 0x80] + Spaces(n) + XYZ;
    var captured := [0x80] + Spaces(n) + XYZ;
    assert Last(output, TailBuffer.MAX_CAPTURED_BYTES) == captured;
    hide Last;
    assert SpaceAt(output) == 3 && output[3..] == Spaces(n) + XYZ;
    TrimmedGap(n);
    assert TrimSpace(output) == XYZ by { WideSpaceTrims(output); }
    NothingToTrim(captured);
    if Shows(t, XYZ) && Shows(u, captured) {
      ShownWhole(t, XYZ);
      ShownCut(u, captured);
    }
  }

  lemma WideSpaceTrims(s: seq<byte>)
    requires SpaceAt(s) == 3
    ensures TrimSpace(s) == TrimSpace(s[3..])
  {
  }
}
