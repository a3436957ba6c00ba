/** The two indentation scans of the snippet handler: the base indentation
    of the line the snippet is inserted on, and the indentation that the
    template itself puts in front of its `$selected$` marker. */
module Indentation {
  import opened Strings

  /** The leading run of spaces and tabs of a line; the whole line when it
      holds nothing else. */
  function BaseIndentation(line: string): (r: string)
    ensures IsIndent(r) && r <= line
    ensures |r| < |line| ==> !IsIndentChar(line[|r|])
    decreases |line|
  {
    if line == [] || !IsIndentChar(line[0]) then ""
    else
      var r := [line[0]] + BaseIndentation(line[1..]);
      assert line == [line[0]] + line[1..];
      r
  }

  /** `GetBaseIndentation`: start from the whole line and cut it at the
      first character that is neither a space nor a tab. */
  method GetBaseIndentation(indentationLine: string) returns (baseIndentation: string)
    ensures baseIndentation == BaseIndentation(indentationLine)
  {
    baseIndentation := indentationLine;
    var i := 0;
    while i < |indentationLine|
      invariant 0 <= i <= |indentationLine|
      invariant IsIndent(indentationLine[..i])
      decreases |indentationLine| - i
    {
      if !IsIndentChar(indentationLine[i]) {
        baseIndentation := indentationLine[..i];
        break;
      }
      i := i + 1;
    }
    BaseIndentationUnique(indentationLine, baseIndentation);
  }

  /** The properties stated by `BaseIndentation`'s contract pin down its result. */
  lemma BaseIndentationUnique(line: string, r: string)
    requires IsIndent(r) && r <= line
    requires |r| < |line| ==> !IsIndentChar(line[|r|])
    ensures r == BaseIndentation(line)
  {
  }

  /** The index of the last non-space, non-tab character before `i`, or -1. */
  function LastNonIndent(t: string, i: nat): (j: int)
    requires i <= |t|
    ensures -1 <= j < i
    ensures j == -1 ==> forall k :: 0 <= k < i ==> IsIndentChar(t[k])
    ensures j >= 0 ==> !IsIndentChar(t[j]) && forall k :: j < k < i ==> IsIndentChar(t[k])
    decreases i
  {
    if i == 0 then -1
    else if !IsIndentChar(t[i - 1]) then i - 1
    else LastNonIndent(t, i - 1)
  }

  /** The template-selection indentation: the spaces and tabs that end
      exactly at `$selected$` (index `selectedIndex`). The character in front
      of them is neither a space nor a tab; a line break counts as such a
      character. When nothing but spaces and tabs precedes the marker, back to
      the start of the template, the result is empty rather than that run. */
  function SelectionIndentation(templateText: string, selectedIndex: nat): (r: string)
    requires selectedIndex <= |templateText|
    ensures IsIndent(r) && |r| <= selectedIndex
    ensures r == templateText[selectedIndex - |r|..selectedIndex]
    ensures (forall k :: 0 <= k < selectedIndex ==> IsIndentChar(templateText[k])) ==> r == ""
    ensures (exists k :: 0 <= k < selectedIndex && !IsIndentChar(templateText[k])) ==>
              |r| < selectedIndex && !IsIndentChar(templateText[selectedIndex - |r| - 1])
  {
    var j := LastNonIndent(templateText, selectedIndex);
    if j == -1 then "" else templateText[j + 1..selectedIndex]
  }

  /** `GetTemplateSelectionIndentation`: scan backwards from `selectedIndex`
      and stop at the first character that is neither a space nor a tab. */
  method GetTemplateSelectionIndentation(templateText: string, selectedIndex: nat) returns (indentation: string)
    requires selectedIndex <= |templateText|
    ensures indentation == SelectionIndentation(templateText, selectedIndex)
  {
    indentation := "";
    var i := selectedIndex - 1;
    while i >= 0
      invariant -1 <= i < selectedIndex
      invariant forall k :: i < k < selectedIndex ==> IsIndentChar(templateText[k])
      decreases i
    {
      if !IsIndentChar(templateText[i]) {
        indentation := templateText[i + 1..selectedIndex];
        break;
      }
      i := i - 1;
    }
  }
}
