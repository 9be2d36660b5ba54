/** Byte strings: what a bounded capture keeps, lines, and UTF-8. */
module Bytes {
  newtype byte = x: int | 0 <= x < 256

  const NEWLINE: byte := 10
  const CARRIAGE_RETURN: byte := 13

  // ---------- tails ----------

  /** The last `n` bytes, or all of them if there are fewer. */
  function Last(s: seq<byte>, n: int): (r: seq<byte>)
  {
    if n <= 0 then [] else if |s| <= n then s else s[|s| - n..]
  }

  predicate IsSuffix(r: seq<byte>, s: seq<byte>) {
    |r| <= |s| && r == s[|s| - |r|..]
  }

  /** Nothing is lost by forgetting early: the tail of a longer input only needs the tail of what came before. */
  lemma LastOfAppend(s: seq<byte>, more: seq<byte>, n: int)
    ensures Last(Last(s, n) + more, n) == Last(s + more, n)
  {
  }

  lemma LastOfNothing(s: seq<byte>, n: int)
    requires n <= 0
    ensures Last(s, n) == []
  {
  }

  /** How the last `n` bytes change when more arrive. */
  lemma LastSlides(kept: seq<byte>, more: seq<byte>, n: nat)
    requires 0 < n && |kept| <= n
    ensures |more| >= n ==> Last(kept + more, n) == more[|more| - n..]
    ensures |more| < n < |kept| + |more| ==> Last(kept + more, n) == kept[|kept| + |more| - n..] + more
    ensures |kept| + |more| <= n ==> Last(kept + more, n) == kept + more
  {
  }

  function Flatten(writes: seq<seq<byte>>): seq<byte> {
    if writes == [] then [] else Flatten(writes[..|writes| - 1]) + writes[|writes| - 1]
  }

  // ---------- lines ----------

  /** Split at every newline; a text without one is a single line, and so is the empty text. */
  function Split(s: seq<byte>): (lines: seq<seq<byte>>)
    ensures |lines| >= 1
  {
    if s == [] then [[]]
    else if s[0] == NEWLINE then [[]] + Split(s[1..])
    else
      var rest := Split(s[1..]);
      [[s[0]] + rest[0]] + rest[1..]
  }

  function Join(lines: seq<seq<byte>>): seq<byte> {
    if lines == [] then []
    else if |lines| == 1 then lines[0]
    else lines[0] + [NEWLINE] + Join(lines[1..])
  }

  lemma {:induction false} JoinAfterSplit(s: seq<byte>)
    ensures Join(Split(s)) == s
  {
    if s != [] {
      JoinAfterSplit(s[1..]);
      var rest := Split(s[1..]);
      if s[0] == NEWLINE {
        assert ([[]] + rest)[1..] == rest;
      } else {
        var lines := [[s[0]] + rest[0]] + rest[1..];
        assert Split(s) == lines && lines[1..] == rest[1..];
        assert Join(lines) == [s[0]] + Join(rest);
      }
    }
  }

  lemma {:induction false} SplitLinesHaveNoNewline(s: seq<byte>)
    ensures forall i :: 0 <= i < |Split(s)| ==> NEWLINE !in Split(s)[i]
  {
    if s != [] {
      SplitLinesHaveNoNewline(s[1..]);
    }
  }

  /** Splitting at the first newline. */
  lemma {:induction false} SplitAtNewline(line: seq<byte>, rest: seq<byte>)
    requires NEWLINE !in line
    ensures Split(line + [NEWLINE] + rest) == [line] + Split(rest)
    ensures Split(line) == [line]
  {
    var s := line + [NEWLINE] + rest;
    if line == [] {
      assert s[1..] == rest;
    } else {
      SplitAtNewline(line[1..], rest);
      assert s[1..] == line[1..] + [NEWLINE] + rest;
      assert [line[0]] + line[1..] == line;
    }
  }

  /** Splitting undoes joining, so a text has exactly one list of lines. */
  lemma {:induction false} SplitAfterJoin(lines: seq<seq<byte>>)
    requires lines != [] && forall i :: 0 <= i < |lines| ==> NEWLINE !in lines[i]
    ensures Split(Join(lines)) == lines
  {
    hide Split;
    if |lines| == 1 {
      SplitAtNewline(lines[0], []);
    } else {
      SplitAfterJoin(lines[1..]);
      SplitAtNewline(lines[0], Join(lines[1..]));
    }
  }

  lemma {:induction false} JoinConcat(a: seq<seq<byte>>, b: seq<seq<byte>>)
    requires a != [] && b != []
    ensures Join(a + b) == Join(a) + [NEWLINE] + Join(b)
  {
    assert (a + b)[1..] == a[1..] + b;
    if |a| > 1 {
      JoinConcat(a[1..], b);
    }
  }

  // ---------- UTF-8, section 3 of RFC 3629 ----------

  predicate Continuation(b: byte) {
    0x80 <= b <= 0xBF
  }

  /** The length of the well-formed character that `s` starts with, or 0 if it starts with none. */
  function CharLength(s: seq<byte>): (n: nat)
    ensures n <= 4 && n <= |s|
    ensures n > 0 ==> !Continuation(s[0]) && forall i :: 0 < i < n ==> Continuation(s[i])
  {
    if |s| >= 1 && s[0] <= 0x7F then 1
    else if |s| >= 2 && 0xC2 <= s[0] <= 0xDF && Continuation(s[1]) then 2
    else if |s| >= 3 && 0xE0 <= s[0] <= 0xEF && SecondOfThree(s[0], s[1]) && Continuation(s[2]) then 3
    else if |s| >= 4 && 0xF0 <= s[0] <= 0xF4 && SecondOfFour(s[0], s[1])
            && Continuation(s[2]) && Continuation(s[3]) then 4
    else 0
  }

  predicate SecondOfThree(first: byte, second: byte) {
    if first == 0xE0 then 0xA0 <= second <= 0xBF
    else if first == 0xED then 0x80 <= second <= 0x9F
    else Continuation(second)
  }

  predicate SecondOfFour(first: byte, second: byte) {
    if first == 0xF0 then 0x90 <= second <= 0xBF
    else if first == 0xF4 then 0x80 <= second <= 0x8F
    else Continuation(second)
  }

  predicate Valid(s: seq<byte>)
    decreases |s|
  {
    s == [] || (CharLength(s) > 0 && Valid(s[CharLength(s)..]))
  }

  lemma ValidUnrolls(s: seq<byte>)
    ensures Valid(s) <==> s == [] || (CharLength(s) > 0 && Valid(s[CharLength(s)..]))
  {
    hide CharLength;
  }

  /** From any position of a valid text at most three bytes lead to the next character. */
  lemma {:induction false} NextCharIsNear(s: seq<byte>, at: nat) returns (skip: nat)
    requires Valid(s) && at <= |s|
    ensures skip <= 3 && at + skip <= |s| && Valid(s[at + skip..])
    decreases |s|
  {
    hide CharLength, Valid;
    ValidUnrolls(s);
    if at == 0 {
      assert s[0..] == s;
      skip := 0;
    } else {
      var n := CharLength(s);
      if at < n {
        skip := n - at;
      } else {
        skip := NextCharIsNear(s[n..], at - n);
        assert s[n..][at - n + skip..] == s[at + skip..];
      }
    }
  }

  /** A valid text cut in two: both parts are valid exactly when the cut is not inside a character, and then the second
      part does not start with a continuation byte. */
  lemma {:induction false} CutBetweenChars(s: seq<byte>, at: nat)
    requires Valid(s) && at <= |s|
    ensures Valid(s[..at]) <==> at == |s| || !Continuation(s[at])
    ensures Valid(s[at..]) <==> at == |s| || !Continuation(s[at])
    decreases |s|
  {
    if at == 0 {
      assert s[..at] == [] && s[at..] == s;
    } else {
      var n := CharLength(s);
      if at >= n {
        CutBetweenChars(s[n..], at - n);
        assert s[n..][..at - n] == s[..at][n..];
        assert s[n..][at - n..] == s[at..];
        SameFirstChar(s, s[..at]);
      } else {
        assert Continuation(s[at]);
        ShortFirstChar(s, at);
      }
    }
  }

  lemma SameFirstChar(s: seq<byte>, t: seq<byte>)
    requires CharLength(s) > 0 && CharLength(s) <= |t| && t <= s
    ensures CharLength(t) == CharLength(s)
  {
  }

  lemma ShortFirstChar(s: seq<byte>, at: nat)
    requires 0 < at < CharLength(s)
    ensures CharLength(s[..at]) == 0
  {
  }

  lemma {:induction false} ValidConcat(a: seq<byte>, b: seq<byte>)
    requires Valid(a) && Valid(b)
    ensures Valid(a + b)
    decreases |a|
  {
    hide CharLength;
    if a == [] {
      assert a + b == b;
    } else {
      var n := CharLength(a);
      ValidConcat(a[n..], b);
      assert (a + b)[n..] == a[n..] + b;
      SameFirstCharLonger(a, a + b);
    }
  }

  lemma SameFirstCharLonger(s: seq<byte>, t: seq<byte>)
    requires CharLength(s) > 0 && s <= t
    ensures CharLength(t) == CharLength(s)
  {
  }

  lemma ValidAroundNewline(before: seq<byte>, after: seq<byte>)
    ensures Valid(before + [NEWLINE] + after) <==> Valid(before) && Valid(after)
  {
    var (s, at, tail) := (before + [NEWLINE] + after, |before|, [NEWLINE] + after);
    assert tail[1..] == after && CharLength(tail) == 1;
    assert Valid(tail) <==> Valid(after);
    hide CharLength, Valid;
    assert s[..at] == before && s[at..] == tail && before + tail == s;
    if Valid(s) {
      CutBetweenChars(s, at);
    }
    if Valid(before) && Valid(after) {
      ValidConcat(before, tail);
    }
  }

  /** The text is valid exactly when each of its lines is: a newline byte is never part of a longer character. */
  lemma {:induction false} ValidLines(lines: seq<seq<byte>>)
    requires lines != []
    ensures Valid(Join(lines)) <==> forall i :: 0 <= i < |lines| ==> Valid(lines[i])
  {
    hide CharLength, Valid;
    if |lines| > 1 {
      var rest := lines[1..];
      ValidLines(rest);
      assert forall i :: 0 < i < |lines| ==> lines[i] == rest[i - 1];
      assert forall i :: 0 <= i < |rest| ==> rest[i] == lines[i + 1];
      ValidAroundNewline(lines[0], Join(rest));
    }
  }
}
