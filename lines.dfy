/** The line structure of a text snapshot. A snapshot is a flat string;
    its lines are the pieces between line breaks, and a line's text never
    includes the break. Positions are offsets into the flat string, as in
    the editor's `ITextSnapshot`. */
module Lines {

  predicate NoBreak(s: string) {
    '\n' !in s
  }

  /** A list of lines that can stand for a snapshot. */
  predicate WellFormed(L: seq<string>) {
    |L| >= 1 && forall i :: 0 <= i < |L| ==> NoBreak(L[i])
  }

  /** The lines of a snapshot (`ITextSnapshot.Lines`). */
  function Split(t: string): (L: seq<string>)
    ensures WellFormed(L)
    decreases |t|
  {
    if t == [] then [""]
    else
      var R := Split(t[1..]);
      if t[0] == '\n' then [""] + R
      else
        assert NoBreak([t[0]] + R[0]) by {
          assert forall k :: 1 <= k < |[t[0]] + R[0]| ==> ([t[0]] + R[0])[k] == R[0][k - 1];
        }
        [[t[0]] + R[0]] + R[1..]
  }

  /** The snapshot made of the given lines. */
  function Join(L: seq<string>): string
    requires |L| >= 1
    decreases |L|
  {
    if |L| == 1 then L[0] else L[0] + "\n" + Join(L[1..])
  }

  /** The offset at which line `i` starts, when the lines are joined. */
  function Offset(L: seq<string>, i: nat): nat
    requires i <= |L|
  {
    if i == 0 then 0 else Offset(L, i - 1) + |L[i - 1]| + 1
  }

  /** `IVsTextLines.GetLengthOfLine`: the length of line `i` without its
      line break. A line ended by "\r\n" keeps its '\r' in `Split`, so
      the '\r' is not counted. */
  function LineLength(t: string, i: nat): (n: nat)
    requires i < LineCount(t)
    ensures n <= |Split(t)[i]| <= n + 1
    ensures Split(t)[i][n..] == "" || Split(t)[i][n..] == "\r"
    ensures n == |Split(t)[i]| <==> Split(t)[i] == [] || Split(t)[i][|Split(t)[i]| - 1] != '\r'
  {
    var line := Split(t)[i];
    if line != [] && line[|line| - 1] == '\r' then |line| - 1 else |line|
  }

  /** Number of line breaks in a string. */
  function Breaks(t: string): nat
    decreases |t|
  {
    if t == [] then 0 else (if t[0] == '\n' then 1 else 0) + Breaks(t[1..])
  }

  function LineCount(t: string): nat {
    |Split(t)|
  }

  /** `snapshot.GetLineFromLineNumber(i).Start`. */
  function LineStart(t: string, i: nat): nat
    requires i < LineCount(t)
  {
    Offset(Split(t), i)
  }

  /** `snapshot.GetLineFromPosition(p).LineNumber`: the breaks before `p`. */
  function LineOf(t: string, p: nat): nat
    requires p <= |t|
  {
    Breaks(t[..p])
  }

  /** The end of the line holding position `p`: the next break at or after `p`, or the end. */
  function LineEndFrom(t: string, p: nat): (e: nat)
    requires p <= |t|
    ensures p <= e <= |t| && NoBreak(t[p..e])
    ensures e < |t| ==> t[e] == '\n'
    decreases |t| - p
  {
    if p == |t| || t[p] == '\n' then p
    else
      var e := LineEndFrom(t, p + 1);
      assert t[p..e] == [t[p]] + t[p + 1..e];
      e
  }

  /** `line.GetText().Substring(p - line.Start)` for the line holding `p`. */
  function RestOfLine(t: string, p: nat): (r: string)
    requires p <= |t|
    ensures NoBreak(r) && r <= t[p..]
    ensures p + |r| == |t| || t[p + |r|] == '\n'
  {
    t[p..LineEndFrom(t, p)]
  }

  // ---------------------------------------------------------------------
  // Facts relating the flat text and its lines

  lemma {:induction false} OffsetShift(L: seq<string>, i: nat)
    requires 1 <= |L| && i < |L|
    ensures Offset(L, i + 1) == |L[0]| + 1 + Offset(L[1..], i)
  {
    if i > 0 {
      OffsetShift(L, i - 1);
    }
  }

  /** Line starts strictly increase with the line number. */
  lemma {:induction false} OffsetMonotone(L: seq<string>, i: nat, j: nat)
    requires i <= j <= |L|
    ensures Offset(L, i) + (j - i) <= Offset(L, j)
    decreases j - i
  {
    if i < j {
      OffsetMonotone(L, i, j - 1);
    }
  }

  /** Line `i` sits in the joined text at `Offset(L, i)`, followed by a break
      unless it is the last line. */
  lemma {:induction false} JoinAt(L: seq<string>, i: nat)
    requires WellFormed(L) && i < |L|
    ensures Offset(L, i) + |L[i]| <= |Join(L)|
    ensures Join(L)[Offset(L, i)..Offset(L, i) + |L[i]|] == L[i]
    ensures i + 1 < |L| ==> Offset(L, i) + |L[i]| < |Join(L)| && Join(L)[Offset(L, i) + |L[i]|] == '\n'
    ensures i + 1 == |L| ==> Offset(L, i) + |L[i]| == |Join(L)|
    decreases i
  {
    if |L| == 1 {
    } else if i == 0 {
      assert Join(L) == L[0] + "\n" + Join(L[1..]);
    } else {
      var R := L[1..];
      WellFormedTail(L);
      JoinAt(R, i - 1);
      JoinAtStep(L, i);
    }
  }

  /** The lines after the first of well-formed lines are well formed. */
  lemma WellFormedTail(L: seq<string>)
    requires WellFormed(L) && |L| >= 2
    ensures WellFormed(L[1..])
  {
    forall k | 0 <= k < |L| - 1 ensures NoBreak(L[1..][k]) {
      assert L[1..][k] == L[k + 1];
    }
  }

  /** The inductive step of `JoinAt`: line `i` of `L` is line `i - 1` of its tail. */
  lemma JoinAtStep(L: seq<string>, i: nat)
    requires 1 < |L| && 0 < i < |L|
    requires var R := L[1..];
             Offset(R, i - 1) + |R[i - 1]| <= |Join(R)| &&
             Join(R)[Offset(R, i - 1)..Offset(R, i - 1) + |R[i - 1]|] == R[i - 1] &&
             (i < |R| ==> Offset(R, i - 1) + |R[i - 1]| < |Join(R)| && Join(R)[Offset(R, i - 1) + |R[i - 1]|] == '\n') &&
             (i == |R| ==> Offset(R, i - 1) + |R[i - 1]| == |Join(R)|)
    ensures Offset(L, i) + |L[i]| <= |Join(L)|
    ensures Join(L)[Offset(L, i)..Offset(L, i) + |L[i]|] == L[i]
    ensures i + 1 < |L| ==> Offset(L, i) + |L[i]| < |Join(L)| && Join(L)[Offset(L, i) + |L[i]|] == '\n'
    ensures i + 1 == |L| ==> Offset(L, i) + |L[i]| == |Join(L)|
  {
    OffsetShift(L, i - 1);
    JoinCons(L);
    ShiftedLine(L[0] + "\n", Join(L[1..]), Offset(L[1..], i - 1), L[i]);
  }

  /** `Join` unfolded once, with the first line and its break grouped.
      A separate step, so callers need not unfold the definitions in a larger context. */
  lemma JoinCons(L: seq<string>)
    requires |L| > 1
    ensures Join(L) == (L[0] + "\n") + Join(L[1..])
  {
  }

  /** A stretch of `y` seen in `x + y`. */
  lemma ShiftedLine(x: string, y: string, o: nat, line: string)
    requires o + |line| <= |y| && y[o..o + |line|] == line
    ensures |x| + o + |line| <= |x + y|
    ensures (x + y)[|x| + o..|x| + o + |line|] == line
    ensures o + |line| < |y| ==> (x + y)[|x| + o + |line|] == y[o + |line|]
  {
    SliceAfter(x, y, o, o + |line|);
  }

  /** A slice of the second part of a concatenation. */
  lemma SliceAfter(x: string, y: string, i: nat, j: nat)
    requires i <= j <= |y|
    ensures (x + y)[|x| + i..|x| + j] == y[i..j]
  {
    assert forall k :: 0 <= k < j - i ==> (x + y)[|x| + i..|x| + j][k] == y[i..j][k];
  }

  /** Joining the lines of a text gives the text back. */
  lemma {:induction false} JoinSplit(t: string)
    ensures Join(Split(t)) == t
    decreases |t|
  {
    if t != [] {
      JoinSplit(t[1..]);
      var R := Split(t[1..]);
      JoinHead(R);
      if t[0] == '\n' {
        assert Join(Split(t)) == "" + "\n" + Join(R);
      } else {
        var L := [[t[0]] + R[0]] + R[1..];
        JoinHead(L);
        assert L[1..] == R[1..];
        if |R| == 1 {
          assert Join(L) == [t[0]] + R[0];
        } else {
          assert Join(L) == [t[0]] + R[0] + "\n" + Join(R[1..]);
        }
      }
      assert t == [t[0]] + t[1..];
    }
  }

  /** `Join` unfolded once.
      A separate step, so callers need not unfold the definitions in a larger context. */
  lemma JoinHead(L: seq<string>)
    requires |L| >= 1
    ensures Join(L) == if |L| == 1 then L[0] else L[0] + "\n" + Join(L[1..])
  {
  }

  /** A line without breaks followed by a break starts the split. */
  lemma {:induction false} SplitLine(l: string, rest: string)
    requires NoBreak(l)
    ensures Split(l + "\n" + rest) == [l] + Split(rest)
    decreases |l|
  {
    if l == [] {
      assert l + "\n" + rest == ['\n'] + rest;
      assert (['\n'] + rest)[1..] == rest;
    } else {
      assert NoBreak(l[1..]) by {
        assert forall k :: 0 <= k < |l[1..]| ==> l[1..][k] == l[k + 1];
      }
      SplitLine(l[1..], rest);
      var t := l + "\n" + rest;
      assert t[0] == l[0] && t[1..] == l[1..] + "\n" + rest;
      assert l == [l[0]] + l[1..];
    }
  }

  /** A text without breaks is a single line. */
  lemma {:induction false} SplitSingle(l: string)
    requires NoBreak(l)
    ensures Split(l) == [l]
    decreases |l|
  {
    if l != [] {
      assert NoBreak(l[1..]) by {
        assert forall k :: 0 <= k < |l[1..]| ==> l[1..][k] == l[k + 1];
      }
      SplitSingle(l[1..]);
      assert l == [l[0]] + l[1..];
    }
  }

  /** Splitting joined lines gives the lines back. */
  lemma {:induction false} SplitJoin(L: seq<string>)
    requires WellFormed(L)
    ensures Split(Join(L)) == L
    decreases |L|
  {
    if |L| == 1 {
      SplitSingle(L[0]);
    } else {
      var R := L[1..];
      WellFormedTail(L);
      SplitJoin(R);
      SplitLine(L[0], Join(R));
      assert L == [L[0]] + R;
    }
  }

  /** Breaks add up over concatenation. */
  lemma {:induction false} BreaksAppend(a: string, b: string)
    ensures Breaks(a + b) == Breaks(a) + Breaks(b)
    decreases |a|
  {
    if a != [] {
      BreaksAppend(a[1..], b);
      assert (a + b)[0] == a[0] && (a + b)[1..] == a[1..] + b;
    } else {
      assert a + b == b;
    }
  }

  /** A text has one more line than it has breaks. */
  lemma {:induction false} LineCountBreaks(t: string)
    ensures LineCount(t) == Breaks(t) + 1
    decreases |t|
  {
    if t != [] {
      LineCountBreaks(t[1..]);
    }
  }

  /** Every position lies on an existing line. */
  lemma LineOfBound(t: string, p: nat)
    requires p <= |t|
    ensures LineOf(t, p) < LineCount(t)
  {
    assert t == t[..p] + t[p..];
    BreaksAppend(t[..p], t[p..]);
    LineCountBreaks(t);
  }

  /** Every line starts inside the text. */
  lemma LineStartBound(t: string, i: nat)
    requires i < LineCount(t)
    ensures LineStart(t, i) + |Split(t)[i]| <= |t|
  {
    JoinAt(Split(t), i);
    JoinSplit(t);
  }

  /** A text without breaks has none to count. */
  lemma {:induction false} BreaksNone(s: string)
    requires NoBreak(s)
    ensures Breaks(s) == 0
    decreases |s|
  {
    if s != [] {
      assert s[0] in s;
      assert NoBreak(s[1..]) by {
        assert forall k :: 0 <= k < |s[1..]| ==> s[1..][k] == s[k + 1];
      }
      BreaksNone(s[1..]);
    }
  }

  /** A prefix of a text without breaks has none either. */
  lemma NoBreakPrefix(s: string, p: nat)
    requires NoBreak(s) && p <= |s|
    ensures NoBreak(s[..p])
  {
    assert forall k :: 0 <= k < p ==> s[..p][k] == s[k];
  }

  /** Offset `p` of the joined lines lies on line `Breaks(Join(L)[..p])`,
      between that line's start and its end. */
  lemma {:induction false} LinePosition(L: seq<string>, p: nat)
    requires WellFormed(L) && p <= |Join(L)|
    ensures Breaks(Join(L)[..p]) < |L|
    ensures Offset(L, Breaks(Join(L)[..p])) <= p <= Offset(L, Breaks(Join(L)[..p])) + |L[Breaks(Join(L)[..p])]|
    decreases |L|
  {
    var J := Join(L);
    if |L| == 1 {
      NoBreakPrefix(L[0], p);
      BreaksNone(J[..p]);
    } else if p <= |L[0]| {
      JoinCons(L);
      assert J[..p] == L[0][..p];
      NoBreakPrefix(L[0], p);
      BreaksNone(J[..p]);
    } else {
      var R := L[1..];
      var p1 := p - |L[0]| - 1;
      WellFormedTail(L);
      JoinCons(L);
      LinePosition(R, p1);
      var i := Breaks(Join(R)[..p1]);
      LinePositionStep(L[0], Join(R), p1, i);
      assert J[..p] == (L[0] + "\n") + Join(R)[..p1];
      OffsetShift(L, i);
      assert R[i] == L[i + 1];
    }
  }

  /** The inductive step of `LinePosition`: past the first line and its
      break, one more break has been passed. */
  lemma LinePositionStep(first: string, rest: string, p1: nat, i: nat)
    requires NoBreak(first) && p1 <= |rest| && Breaks(rest[..p1]) == i
    ensures Breaks((first + "\n") + rest[..p1]) == i + 1
  {
    BreaksAppend(first + "\n", rest[..p1]);
    BreaksAppend(first, "\n");
    BreaksNone(first);
  }

  /** The line `GetLineFromPosition(p)` finds starts at or before `p` and
      ends at or after it. */
  lemma LineOfPosition(t: string, p: nat)
    requires p <= |t|
    ensures LineOf(t, p) < LineCount(t)
    ensures LineStart(t, LineOf(t, p)) <= p <= LineStart(t, LineOf(t, p)) + |Split(t)[LineOf(t, p)]|
  {
    JoinSplit(t);
    LinePosition(Split(t), p);
  }
}
