/** String operations the snippet handler borrows from .NET: the space/tab
    test of the indentation scans, `char.IsWhiteSpace`, `String.IndexOf`
    and `String.Replace`. Both searches compare characters ordinally, which
    is what .NET's `Replace` does; its `IndexOf(string)` compares with the
    current culture, which this model does not capture. */
module Strings {

  /** The two characters the indentation scans treat as indentation. */
  predicate IsIndentChar(c: char) {
    c == ' ' || c == '\t'
  }

  /** A run made only of spaces and tabs. */
  predicate IsIndent(s: string) {
    forall i :: 0 <= i < |s| ==> IsIndentChar(s[i])
  }

  /** `char.IsWhiteSpace`: the Unicode separators plus U+0009..U+000D and U+0085. */
  predicate IsWhiteSpace(c: char) {
    var n := c as int;
    (9 <= n <= 13) || n == 0x20 || n == 0x85 || n == 0xA0 || n == 0x1680
    || (0x2000 <= n <= 0x200A) || n == 0x2028 || n == 0x2029 || n == 0x202F
    || n == 0x205F || n == 0x3000
  }

  /** `String.IsNullOrWhiteSpace` on a non-null string (the buffer never hands out null). */
  predicate IsNullOrWhiteSpace(s: string) {
    forall i :: 0 <= i < |s| ==> IsWhiteSpace(s[i])
  }

  /** `p` occurs in `s` starting at index `i`. */
  predicate OccursAt(s: string, p: string, i: int) {
    0 <= i && i + |p| <= |s| && s[i..i + |p|] == p
  }

  /** `s.IndexOf(p)`: the first index at which `p` occurs, or -1. */
  function IndexOf(s: string, p: string): (r: int)
    ensures r == -1 <==> forall j :: 0 <= j <= |s| ==> !OccursAt(s, p, j)
    ensures r != -1 ==> 0 <= r && OccursAt(s, p, r)
    ensures r != -1 ==> forall j :: 0 <= j < r ==> !OccursAt(s, p, j)
  {
    IndexFrom(s, p, 0)
  }

  /** The first occurrence of `p` in `s` at or after `i`, or -1. */
  function IndexFrom(s: string, p: string, i: nat): (r: int)
    requires i <= |s|
    ensures r == -1 <==> forall j :: i <= j <= |s| ==> !OccursAt(s, p, j)
    ensures r != -1 ==> i <= r && OccursAt(s, p, r)
    ensures r != -1 ==> forall j :: i <= j < r ==> !OccursAt(s, p, j)
    decreases |s| - i
  {
    if OccursAt(s, p, i) then i
    else if i == |s| then -1
    else IndexFrom(s, p, i + 1)
  }

  /** Occurrences of `p` in `s[1..]` are the occurrences in `s` shifted by one. */
  lemma OccursShift(s: string, p: string, j: int)
    requires |s| > 0 && 0 <= j
    ensures OccursAt(s[1..], p, j) <==> OccursAt(s, p, j + 1)
  {
    if 0 <= j && j + |p| <= |s| - 1 {
      assert s[1..][j..j + |p|] == s[j + 1..j + 1 + |p|];
    }
  }

  /** `s.Replace(p, r)`: every occurrence of `p`, found left to right without
      overlap, is replaced by `r`. A string without `p` is returned as is. */
  function Replace(s: string, p: string, r: string): (res: string)
    requires |p| > 0
    ensures (forall j :: 0 <= j <= |s| ==> !OccursAt(s, p, j)) ==> res == s
    decreases |s|
  {
    if |s| < |p| then s
    else if s[..|p|] == p then
      assert OccursAt(s, p, 0);
      r + Replace(s[|p|..], p, r)
    else
      var rest := Replace(s[1..], p, r);
      assert (forall j :: 0 <= j <= |s| ==> !OccursAt(s, p, j)) ==> rest == s[1..] by {
        if forall j :: 0 <= j <= |s| ==> !OccursAt(s, p, j) {
          forall j | 0 <= j <= |s[1..]| ensures !OccursAt(s[1..], p, j) {
            OccursShift(s, p, j);
          }
        }
      }
      [s[0]] + rest
  }

  /** `Replace` at index `i`: the text before `i` is kept, the occurrence of
      `p` there becomes `r`, and the search resumes after it. */
  predicate ReplacedAt(s: string, p: string, r: string, i: nat)
    requires |p| > 0
  {
    i + |p| <= |s| && Replace(s, p, r) == s[..i] + r + Replace(s[i + |p|..], p, r)
  }

  /** Replacement happens at the first occurrence. With the contract of
      `Replace` for a text without `p`, this determines `Replace`. */
  lemma ReplaceFirst(s: string, p: string, r: string)
    requires |p| > 0
    ensures IndexOf(s, p) != -1 ==> ReplacedAt(s, p, r, IndexOf(s, p))
  {
    var i := IndexOf(s, p);
    if i != -1 {
      ReplaceAt(s, p, r, i, s[i + |p|..]);
    }
  }

  /** `Replace` at an occurrence with no earlier one, by induction on its
      index; `tail` is the text after the occurrence. */
  lemma {:induction false} ReplaceAt(s: string, p: string, r: string, i: nat, tail: string)
    requires |p| > 0 && OccursAt(s, p, i) && tail == s[i + |p|..]
    requires forall k :: 0 <= k < i ==> !OccursAt(s, p, k)
    ensures Replace(s, p, r) == s[..i] + r + Replace(tail, p, r)
    ensures ReplacedAt(s, p, r, i)
    decreases i
  {
    if i == 0 {
      assert s[..|p|] == p;
      ReplaceHere(s, p, r);
      assert s[..i] + r == r;
    } else {
      assert !OccursAt(s, p, 0);
      var s1 := s[1..];
      OccursShift(s, p, i - 1);
      forall k | 0 <= k < i - 1 ensures !OccursAt(s1, p, k) {
        OccursShift(s, p, k);
      }
      assert s1[i - 1 + |p|..] == tail;
      ReplaceAt(s1, p, r, i - 1, tail);
      ReplaceSkip(s, p, r);
      ReplaceFirstStep(s, i - 1, Replace(s, p, r), Replace(s1, p, r), r, Replace(tail, p, r));
    }
  }

  /** `Replace` on a text that starts with `p` replaces that occurrence.
      A separate step, so callers need not unfold the definitions in a larger context. */
  lemma ReplaceHere(s: string, p: string, r: string)
    requires |p| > 0 && |s| >= |p| && s[..|p|] == p
    ensures Replace(s, p, r) == r + Replace(s[|p|..], p, r)
  {
  }

  /** `Replace` on a text that does not start with `p` keeps its first character.
      A separate step, so callers need not unfold the definitions in a larger context. */
  lemma ReplaceSkip(s: string, p: string, r: string)
    requires |p| > 0 && |s| >= |p| && s[..|p|] != p
    ensures Replace(s, p, r) == [s[0]] + Replace(s[1..], p, r)
  {
  }

  /** The step of `ReplaceFirst` when the text does not start with `p`. */
  lemma ReplaceFirstStep(s: string, j: nat, rs: string, rest: string, r: string, tail: string)
    requires 0 < |s| && j + 1 <= |s|
    requires rs == [s[0]] + rest && rest == s[1..][..j] + r + tail
    ensures rs == s[..j + 1] + r + tail
  {
    assert s[..j + 1] == [s[0]] + s[1..][..j];
  }

  /** Replacing a pattern by itself changes nothing. */
  lemma {:induction false} ReplaceSelf(s: string, p: string)
    requires |p| > 0
    ensures Replace(s, p, p) == s
    decreases |s|
  {
    if |s| < |p| {
    } else if s[..|p|] == p {
      ReplaceSelf(s[|p|..], p);
      assert s == s[..|p|] + s[|p|..];
    } else {
      ReplaceSelf(s[1..], p);
      assert s == [s[0]] + s[1..];
    }
  }
}
