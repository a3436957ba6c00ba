/** The post-insertion formatting pass (`FormatSpan`) as a function of the
    snapshot it runs against: the batch of edits it builds and the end span
    it designates. The handler's method is proved to apply exactly this
    batch; the lemmas below say what the batch does to the buffer's lines. */
module Formatting {
  import opened Wrappers
  import opened Strings
  import opened Lines
  import opened Edits
  import opened Indentation
  import opened Templates

  /** `TextSpan`: a line/column range in the buffer. */
  datatype TextSpan = TextSpan(iStartLine: nat, iStartIndex: nat, iEndLine: nat, iEndIndex: nat)

  /** The resolved positions of the two tracking points taken at session start. */
  datatype Selection = Selection(start: nat, end: nat)

  /** The batch of edits built by one formatting pass and, when it
      designates an end span, the offset of the snapshot before the batch at
      which that span begins; `PlanEndSpan` reads the span itself in the
      snapshot the batch produces. */
  datatype Plan = Plan(changes: seq<Change>, endAt: Option<nat>)

  const SelectedMarker: string := "$selected$"

  /** The statement put in place of an empty selection; it is four characters long. */
  const Placeholder: string := "pass"

  /** The inserted span handed to the formatting pass lies in the snapshot. */
  predicate ValidSpan(t: string, ts: TextSpan) {
    ts.iStartLine < LineCount(t) && ts.iEndLine < LineCount(t) &&
    ts.iStartIndex <= |Split(t)[ts.iStartLine]|
  }

  /** The resolved selection: if the end landed before the start, the end is
      moved to the start; otherwise both stay as they are. */
  function Clamp(sel: Selection): (r: Selection)
    ensures r.start == sel.start && r.start <= r.end
    ensures sel.start <= sel.end ==> r == sel
    ensures sel.end < sel.start ==> r.end == sel.start
  {
    if sel.end < sel.start then Selection(sel.start, sel.start) else sel
  }

  /** `IndentSpan`'s batch: one insert of `indentation` at the start of each
      line `startLine..endLine`, in line order, all read from snapshot `t`. */
  function IndentEdits(t: string, indentation: string, startLine: nat, endLine: nat): seq<Change>
    requires startLine <= endLine ==> endLine < LineCount(t)
  {
    LineIndentEdits(Split(t), indentation, startLine, endLine)
  }

  /** `IndentEdits` over the lines `L` of the snapshot. */
  function LineIndentEdits(L: seq<string>, indentation: string, startLine: nat, endLine: nat): seq<Change>
    requires startLine <= endLine ==> endLine < |L|
    decreases endLine + 1 - startLine
  {
    if startLine > endLine then []
    else [Change(Offset(L, startLine), 0, indentation)] + LineIndentEdits(L, indentation, startLine + 1, endLine)
  }

  /** Lines `a..b` of `L` with `indentation` in front, the others as they are. */
  function Indented(L: seq<string>, indentation: string, a: int, b: int): (r: seq<string>)
    ensures |r| == |L|
  {
    seq(|L|, j requires 0 <= j < |L| => (if a <= j <= b then indentation else "") + L[j])
  }

  /** The snippet carries a surround tag. */
  predicate IsSurround(snippet: Snippet) {
    HasType(snippet.snippetTypes, SurroundsWith) || HasType(snippet.snippetTypes, SurroundsWithStatement)
  }

  /** The template text as the pass rebuilds it from the session's fields. */
  function TemplateText(snippet: Snippet, newLine: string, values: map<string, string>): string {
    Reconstructed(snippet.code, newLine, snippet.declarations, values)
  }

  /** Where `$selected$` sits in the rebuilt template, or -1. */
  function SelectedIndex(snippet: Snippet, newLine: string, values: map<string, string>): int {
    IndexOf(TemplateText(snippet, newLine, values), SelectedMarker)
  }

  /** The base indentation: that of the line the snippet was inserted on. */
  function BaseOf(t: string, ts: TextSpan): string
    requires ValidSpan(t, ts)
  {
    BaseIndentation(Split(t)[ts.iStartLine])
  }

  /** The indentation the template puts in front of `$selected$`. */
  function SelectionIndentOf(snippet: Snippet, newLine: string, values: map<string, string>): string
    requires SelectedIndex(snippet, newLine, values) != -1
  {
    SelectionIndentation(TemplateText(snippet, newLine, values), SelectedIndex(snippet, newLine, values))
  }

  /** The indentation of the snippet's own lines after the first. */
  function BaseEdits(t: string, ts: TextSpan): seq<Change>
    requires ValidSpan(t, ts)
  {
    IndentEdits(t, BaseOf(t, ts), ts.iStartLine + 1, ts.iEndLine)
  }

  /** The indentation of the selection's lines after the first. */
  function SelectionEdits(t: string, indentation: string, sel: Selection): seq<Change>
    requires sel.start <= sel.end <= |t|
  {
    LineOfBound(t, sel.end);
    IndentEdits(t, indentation, LineOf(t, sel.start) + 1, LineOf(t, sel.end))
  }

  /** The formatting pass. `None` stands for the cases in which the source
      throws before applying anything: a tracking point already cleared, or a
      placeholder span reaching past the end of the snapshot. */
  function PlanFormat(t: string, ts: TextSpan, newLine: string, snippet: Snippet,
                      values: map<string, string>, tracked: Option<Selection>): (r: Option<Plan>)
    requires ValidSpan(t, ts)
    requires tracked.Some? ==> tracked.value.start <= |t| && tracked.value.end <= |t|
    ensures r.Some? && r.value.endAt.Some? ==> r.value.endAt.value <= |t|
  {
    if !IsSurround(snippet) || SelectedIndex(snippet, newLine, values) == -1 then Some(Plan(BaseEdits(t, ts), None))
    else if tracked.None? then None
    else
      var indentation := SelectionIndentOf(snippet, newLine, values);
      var sel := Clamp(tracked.value);
      if HasType(snippet.snippetTypes, SurroundsWithStatement) && IsNullOrWhiteSpace(t[sel.start..sel.end]) then
        StatementPlan(t, ts, newLine, SelectedIndex(snippet, newLine, values), indentation, sel)
      else Some(Plan(SelectionEdits(t, indentation, sel) + BaseEdits(t, ts), None))
  }

  /** The statement case of the pass: the blank selection, found in the
      buffer at `startPosition + selectedIndex`, becomes the placeholder,
      and the end span begins where that offset is after the batch. */
  function StatementPlan(t: string, ts: TextSpan, newLine: string, selectedIndex: nat,
                         indentation: string, sel: Selection): (r: Option<Plan>)
    requires ValidSpan(t, ts) && sel.start <= sel.end <= |t|
    ensures r.Some? ==> r.value.endAt.Some? && r.value.endAt.value <= |t|
    ensures r.Some? ==> r.value.endAt == Some(LineStart(t, ts.iStartLine) + ts.iStartIndex + selectedIndex)
    ensures r.Some? ==> |r.value.changes| > 0 && r.value.changes[0] == Change(r.value.endAt.value, sel.end - sel.start, Placeholder)
  {
    var p := LineStart(t, ts.iStartLine) + ts.iStartIndex + selectedIndex;
    if p + (sel.end - sel.start) > |t| then None
    else
      var breakEdit := if IsNullOrWhiteSpace(RestOfLine(t, sel.end)) then [] else [Change(sel.end, 0, newLine)];
      Some(Plan([Change(p, sel.end - sel.start, Placeholder)] + breakEdit + SelectionEdits(t, indentation, sel) + BaseEdits(t, ts),
                Some(p)))
  }

  /** The end span a plan designates, read in the snapshot its batch
      produces: a negative tracking point taken at the plan's end offset
      gives the placeholder's position there, and the span is that
      position's line and column, four characters wide. */
  function PlanEndSpan(t: string, plan: Plan): (r: Option<TextSpan>)
    requires plan.endAt.Some? ==> plan.endAt.value <= |t|
    ensures r.Some? <==> plan.endAt.Some?
  {
    if plan.endAt.None? then None
    else
      TrackWithin(t, plan.changes, plan.endAt.value, Negative);
      Some(PlaceholderSpan(Apply(t, plan.changes), Track(plan.changes, plan.endAt.value, Negative)))
  }

  /** The span of the placeholder starting at offset `q` of a snapshot, by
      line and column. */
  function PlaceholderSpan(after: string, q: nat): (span: TextSpan)
    requires q <= |after|
    ensures span.iStartLine < LineCount(after) && span.iEndLine == span.iStartLine
    ensures LineStart(after, span.iStartLine) + span.iStartIndex == q
    ensures span.iEndIndex == span.iStartIndex + |Placeholder|
  {
    LineOfPosition(after, q);
    var line := LineOf(after, q);
    var column := q - LineStart(after, line);
    TextSpan(line, column, line, column + |Placeholder|)
  }

  /** The end span as `FormatSpan` writes it: the line of the replaced
      span's start in the snapshot before the batch, and the column
      `|base| + |indentation|`. It ignores the text the template puts before
      `$selected$` on its line and the base indentation the batch inserts
      after the placeholder on the same offset; `WrittenEndSpanMisses`
      exhibits the second. */
  function WrittenEndSpan(t: string, ts: TextSpan, selectedIndex: nat, indentation: string): (span: TextSpan)
    requires ValidSpan(t, ts) && LineStart(t, ts.iStartLine) + ts.iStartIndex + selectedIndex <= |t|
    ensures var p := LineStart(t, ts.iStartLine) + ts.iStartIndex + selectedIndex;
            span.iStartLine < LineCount(t) &&
            LineStart(t, span.iStartLine) <= p <= LineStart(t, span.iStartLine) + |Split(t)[span.iStartLine]|
    ensures span.iEndLine == span.iStartLine && span.iEndIndex == span.iStartIndex + |Placeholder|
    ensures span.iStartIndex == |BaseIndentation(Split(t)[ts.iStartLine])| + |indentation|
  {
    var p := LineStart(t, ts.iStartLine) + ts.iStartIndex + selectedIndex;
    LineOfPosition(t, p);
    var column := |BaseOf(t, ts)| + |indentation|;
    TextSpan(LineOf(t, p), column, LineOf(t, p), column + |Placeholder|)
  }

  /** The span lies on one line of `after` and selects the placeholder there. */
  predicate SelectsPlaceholder(after: string, span: TextSpan) {
    span.iStartLine < LineCount(after) && span.iEndLine == span.iStartLine &&
    span.iEndIndex == span.iStartIndex + |Placeholder| &&
    var a := LineStart(after, span.iStartLine) + span.iStartIndex;
    a + |Placeholder| <= |after| && after[a..a + |Placeholder|] == Placeholder
  }

  // ---------------------------------------------------------------------
  // What the indentation batches do

  /** `IndentEdits` inserts `indentation` at the start of line `j` exactly
      when `j` is in range, once. */
  lemma IndentEditsAt(t: string, indentation: string, a: nat, b: nat, j: nat)
    requires (a <= b ==> b < LineCount(t)) && j < LineCount(t)
    ensures InsertsAt(IndentEdits(t, indentation, a, b), LineStart(t, j)) == if a <= j <= b then indentation else ""
  {
    LineIndentEditsAt(Split(t), indentation, a, b, j);
  }

  /** `IndentEditsAt` over the list of lines, by induction on the range. */
  lemma {:induction false} LineIndentEditsAt(L: seq<string>, indentation: string, a: nat, b: nat, j: nat)
    requires (a <= b ==> b < |L|) && j < |L|
    ensures InsertsAt(LineIndentEdits(L, indentation, a, b), Offset(L, j)) == if a <= j <= b then indentation else ""
    decreases b + 1 - a
  {
    if a <= b {
      LineIndentEditsAt(L, indentation, a + 1, b, j);
      LineIndentEditsAtStep(L, indentation, a, b, j);
    }
  }

  /** The inductive step of `LineIndentEditsAt`. */
  lemma LineIndentEditsAtStep(L: seq<string>, indentation: string, a: nat, b: nat, j: nat)
    requires a <= b < |L| && j < |L|
    requires InsertsAt(LineIndentEdits(L, indentation, a + 1, b), Offset(L, j)) == if a + 1 <= j <= b then indentation else ""
    ensures InsertsAt(LineIndentEdits(L, indentation, a, b), Offset(L, j)) == if a <= j <= b then indentation else ""
  {
    var cs := LineIndentEdits(L, indentation, a, b);
    var p := Offset(L, j);
    assert cs[0].pos == Offset(L, a) && cs[0].text == indentation;
    assert cs[1..] == LineIndentEdits(L, indentation, a + 1, b);
    OffsetInjective(L, a, j);
    assert InsertsAt(cs, p) == (if cs[0].pos == p then cs[0].text else "") + InsertsAt(cs[1..], p);
  }

  /** Distinct lines start at distinct offsets. */
  lemma OffsetInjective(L: seq<string>, i: nat, j: nat)
    requires i <= |L| && j <= |L|
    ensures Offset(L, i) == Offset(L, j) <==> i == j
  {
    if i < j {
      OffsetMonotone(L, i, j);
    } else if j < i {
      OffsetMonotone(L, j, i);
    }
  }

  /** Every change of an indentation pass is a break-free insert at a line start. */
  lemma {:induction false} IndentEditsAtLineStarts(t: string, indentation: string, a: nat, b: nat)
    requires (a <= b ==> b < LineCount(t)) && NoBreak(indentation)
    ensures LineStartInserts(Split(t), IndentEdits(t, indentation, a, b))
    decreases b + 1 - a
  {
    if a <= b {
      IndentEditsAtLineStarts(t, indentation, a + 1, b);
      var cs := IndentEdits(t, indentation, a, b);
      assert IsLineStartOf(Split(t), LineStart(t, a));
      assert forall k :: 1 <= k < |cs| ==> cs[k] == IndentEdits(t, indentation, a + 1, b)[k - 1];
    }
  }

  /** Spaces and tabs are not line breaks.
      A separate step, so callers need not unfold the definitions in a larger context. */
  lemma IndentRunNoBreak(s: string)
    requires IsIndent(s)
    ensures NoBreak(s)
  {
    assert forall k :: 0 <= k < |s| ==> s[k] != '\n';
  }

  /** Two indentation passes applied together in one batch: line `j` ends up
      as the first pass's text, then the second pass's text, then the line. */
  lemma TwoIndentPasses(t: string, first: string, a1: nat, b1: nat, second: string, a2: nat, b2: nat)
    requires (a1 <= b1 ==> b1 < LineCount(t)) && (a2 <= b2 ==> b2 < LineCount(t))
    requires NoBreak(first) && NoBreak(second)
    ensures Split(Apply(t, IndentEdits(t, first, a1, b1) + IndentEdits(t, second, a2, b2)))
            == Indented(Indented(Split(t), second, a2, b2), first, a1, b1)
  {
    var L := Split(t);
    var A: seq<Change> := IndentEdits(t, first, a1, b1);
    var B: seq<Change> := IndentEdits(t, second, a2, b2);
    IndentEditsAtLineStarts(t, first, a1, b1);
    IndentEditsAtLineStarts(t, second, a2, b2);
    LineStartInsertsAppend(L, A, B);
    JoinSplit(t);
    LineStartInsertsApply(L, A + B);
    var P := Prefixed(L, A + B);
    var R := Indented(Indented(L, second, a2, b2), first, a1, b1);
    forall j | 0 <= j < |L| ensures P[j] == R[j] {
      TwoIndentPassesAt(t, first, a1, b1, second, a2, b2, j);
    }
  }

  /** One line of `TwoIndentPasses`. */
  lemma TwoIndentPassesAt(t: string, first: string, a1: nat, b1: nat, second: string, a2: nat, b2: nat, j: nat)
    requires (a1 <= b1 ==> b1 < LineCount(t)) && (a2 <= b2 ==> b2 < LineCount(t)) && j < LineCount(t)
    ensures Prefixed(Split(t), IndentEdits(t, first, a1, b1) + IndentEdits(t, second, a2, b2))[j]
            == Indented(Indented(Split(t), second, a2, b2), first, a1, b1)[j]
  {
    var L := Split(t);
    var A := IndentEdits(t, first, a1, b1);
    var B := IndentEdits(t, second, a2, b2);
    var p := LineStart(t, j);
    var x := if a1 <= j <= b1 then first else "";
    var y := if a2 <= j <= b2 then second else "";
    InsertsAtAppend(A, B, p);
    IndentEditsAt(t, first, a1, b1, j);
    IndentEditsAt(t, second, a2, b2, j);
    assert InsertsAt(A + B, p) == x + y;
    assert Prefixed(L, A + B)[j] == (x + y) + L[j];
    assert Indented(L, second, a2, b2)[j] == y + L[j];
    assert Indented(Indented(L, second, a2, b2), first, a1, b1)[j] == x + (y + L[j]);
    ConcatAssoc(x, y, L[j]);
  }

  /** One indentation pass: the lines `a..b` get `indentation` in front. */
  lemma OneIndentPass(t: string, indentation: string, a: nat, b: nat)
    requires (a <= b ==> b < LineCount(t)) && NoBreak(indentation)
    ensures Split(Apply(t, IndentEdits(t, indentation, a, b))) == Indented(Split(t), indentation, a, b)
  {
    var L := Split(t);
    var A := IndentEdits(t, indentation, a, b);
    IndentEditsAtLineStarts(t, indentation, a, b);
    JoinSplit(t);
    LineStartInsertsApply(L, A);
    var P := Prefixed(L, A);
    var R := Indented(L, indentation, a, b);
    forall j | 0 <= j < |L| ensures P[j] == R[j] {
      IndentEditsAt(t, indentation, a, b, j);
    }
  }

  /** Two batches of break-free inserts at line starts make one.
      A separate step, so callers need not unfold the definitions in a larger context. */
  lemma LineStartInsertsAppend(L: seq<string>, A: seq<Change>, B: seq<Change>)
    requires LineStartInserts(L, A) && LineStartInserts(L, B)
    ensures LineStartInserts(L, A + B)
  {
    forall k | 0 <= k < |A + B|
      ensures (A + B)[k].len == 0 && NoBreak((A + B)[k].text) && IsLineStartOf(L, (A + B)[k].pos)
    {
      if k < |A| {
        assert (A + B)[k] == A[k];
      } else {
        assert (A + B)[k] == B[k - |A|];
      }
    }
  }

  // ---------------------------------------------------------------------
  // Properties of the formatting pass

  /** Without a surround tag, or without `$selected$` in the rebuilt
      template, the pass indents lines `iStartLine+1..iEndLine` by the base
      indentation (the first inserted line is left alone) and designates no
      end span. */
  lemma PlainExpansionIndentsBody(t: string, ts: TextSpan, newLine: string, snippet: Snippet,
                                  values: map<string, string>, tracked: Option<Selection>)
    requires ValidSpan(t, ts)
    requires tracked.Some? ==> tracked.value.start <= |t| && tracked.value.end <= |t|
    requires !IsSurround(snippet) || SelectedIndex(snippet, newLine, values) == -1
    ensures var plan := PlanFormat(t, ts, newLine, snippet, values, tracked);
            plan.Some? && plan.value.endAt.None? &&
            Split(Apply(t, plan.value.changes)) == Indented(Split(t), BaseOf(t, ts), ts.iStartLine + 1, ts.iEndLine)
  {
    PlanFormatPlain(t, ts, newLine, snippet, values, tracked);
    BaseEditsIndent(t, ts);
  }

  /** The base pass alone indents lines `iStartLine+1..iEndLine`. */
  lemma BaseEditsIndent(t: string, ts: TextSpan)
    requires ValidSpan(t, ts)
    ensures Split(Apply(t, BaseEdits(t, ts))) == Indented(Split(t), BaseOf(t, ts), ts.iStartLine + 1, ts.iEndLine)
  {
    IndentRunNoBreak(BaseOf(t, ts));
    OneIndentPass(t, BaseOf(t, ts), ts.iStartLine + 1, ts.iEndLine);
  }

  /** `PlanFormat` unfolded in the case without a selection.
      A separate step, so callers need not unfold the definitions in a larger context. */
  lemma PlanFormatPlain(t: string, ts: TextSpan, newLine: string, snippet: Snippet,
                        values: map<string, string>, tracked: Option<Selection>)
    requires ValidSpan(t, ts)
    requires tracked.Some? ==> tracked.value.start <= |t| && tracked.value.end <= |t|
    requires !IsSurround(snippet) || SelectedIndex(snippet, newLine, values) == -1
    ensures PlanFormat(t, ts, newLine, snippet, values, tracked) == Some(Plan(BaseEdits(t, ts), None))
  {
  }

  /** With an empty base indentation a plain expansion's pass leaves the text
      as it is, so running it again does not indent twice. */
  lemma EmptyBaseIndentationNoOp(t: string, ts: TextSpan, newLine: string, snippet: Snippet,
                                 values: map<string, string>, tracked: Option<Selection>)
    requires ValidSpan(t, ts)
    requires tracked.Some? ==> tracked.value.start <= |t| && tracked.value.end <= |t|
    requires !IsSurround(snippet) || SelectedIndex(snippet, newLine, values) == -1
    requires BaseOf(t, ts) == ""
    ensures var plan := PlanFormat(t, ts, newLine, snippet, values, tracked);
            plan.Some? && Apply(t, plan.value.changes) == t
  {
    PlainExpansionIndentsBody(t, ts, newLine, snippet, values, tracked);
    var plan := PlanFormat(t, ts, newLine, snippet, values, tracked);
    IndentedNothing(Split(t), ts.iStartLine + 1, ts.iEndLine);
    JoinSplit(Apply(t, plan.value.changes));
    JoinSplit(t);
  }

  /** Indenting by the empty string changes no line. */
  lemma IndentedNothing(L: seq<string>, a: int, b: int)
    ensures Indented(L, "", a, b) == L
  {
    assert forall j :: 0 <= j < |L| ==> Indented(L, "", a, b)[j] == L[j];
  }

  /** What the pass produces when the selection is kept: the continuation
      lines of the clamped selection, `line(start)+1..line(end)`, get the
      template-selection indentation, then every line
      `iStartLine+1..iEndLine` gets the base indentation; no end span. */
  predicate SelectionIndentedPlan(plan: Option<Plan>, t: string, ts: TextSpan, indentation: string, sel: Selection)
    requires ValidSpan(t, ts) && sel.start <= sel.end <= |t|
  {
    LineOf(t, sel.end) < LineCount(t) &&
    plan.Some? && plan.value.endAt.None? &&
    Split(Apply(t, plan.value.changes)) ==
      Indented(Indented(Split(t), BaseOf(t, ts), ts.iStartLine + 1, ts.iEndLine),
               indentation, LineOf(t, sel.start) + 1, LineOf(t, sel.end))
  }

  /** A surround template whose `$selected$` is found and whose selection is
      kept (not a statement template over a blank selection) gets the
      selection-indenting plan. */
  lemma SurroundIndentsSelection(t: string, ts: TextSpan, newLine: string, snippet: Snippet,
                                 values: map<string, string>, tracked: Selection)
    requires ValidSpan(t, ts) && tracked.start <= |t| && tracked.end <= |t|
    requires IsSurround(snippet) && SelectedIndex(snippet, newLine, values) != -1
    requires var sel := Clamp(tracked);
             !(HasType(snippet.snippetTypes, SurroundsWithStatement) && IsNullOrWhiteSpace(t[sel.start..sel.end]))
    ensures SelectionIndentedPlan(PlanFormat(t, ts, newLine, snippet, values, Some(tracked)), t, ts,
                                  SelectionIndentOf(snippet, newLine, values), Clamp(tracked))
  {
    PlanFormatKept(t, ts, newLine, snippet, values, tracked);
    KeptSelectionLines(t, ts, SelectionIndentOf(snippet, newLine, values), Clamp(tracked));
  }

  /** The two passes of a kept selection, on the lines of the snapshot. */
  lemma KeptSelectionLines(t: string, ts: TextSpan, indentation: string, sel: Selection)
    requires ValidSpan(t, ts) && sel.start <= sel.end <= |t| && IsIndent(indentation)
    ensures SelectionIndentedPlan(Some(Plan(SelectionEdits(t, indentation, sel) + BaseEdits(t, ts), None)), t, ts, indentation, sel)
  {
    IndentRunNoBreak(BaseOf(t, ts));
    IndentRunNoBreak(indentation);
    SelectionEditsUnfold(t, indentation, sel);
    TwoIndentPasses(t, indentation, LineOf(t, sel.start) + 1, LineOf(t, sel.end), BaseOf(t, ts), ts.iStartLine + 1, ts.iEndLine);
  }

  /** `PlanFormat` unfolded in the case of a kept selection.
      A separate step, so callers need not unfold the definitions in a larger context. */
  lemma PlanFormatKept(t: string, ts: TextSpan, newLine: string, snippet: Snippet,
                       values: map<string, string>, tracked: Selection)
    requires ValidSpan(t, ts) && tracked.start <= |t| && tracked.end <= |t|
    requires IsSurround(snippet) && SelectedIndex(snippet, newLine, values) != -1
    requires var sel := Clamp(tracked);
             !(HasType(snippet.snippetTypes, SurroundsWithStatement) && IsNullOrWhiteSpace(t[sel.start..sel.end]))
    ensures PlanFormat(t, ts, newLine, snippet, values, Some(tracked)) ==
            Some(Plan(SelectionEdits(t, SelectionIndentOf(snippet, newLine, values), Clamp(tracked)) + BaseEdits(t, ts), None))
  {
  }

  /** `SelectionEdits` unfolded, with the line bound its definition needs.
      A separate step, so callers need not unfold the definitions in a larger context. */
  lemma SelectionEditsUnfold(t: string, indentation: string, sel: Selection)
    requires sel.start <= sel.end <= |t|
    ensures LineOf(t, sel.end) < LineCount(t)
    ensures SelectionEdits(t, indentation, sel) == IndentEdits(t, indentation, LineOf(t, sel.start) + 1, LineOf(t, sel.end))
  {
    LineOfBound(t, sel.end);
  }

  /** `PlanFormat` unfolded in the statement case.
      A separate step, so callers need not unfold the definitions in a larger context. */
  lemma PlanFormatStatement(t: string, ts: TextSpan, newLine: string, snippet: Snippet,
                            values: map<string, string>, tracked: Selection)
    requires ValidSpan(t, ts) && tracked.start <= |t| && tracked.end <= |t|
    requires HasType(snippet.snippetTypes, SurroundsWithStatement) && SelectedIndex(snippet, newLine, values) != -1
    requires var sel := Clamp(tracked); IsNullOrWhiteSpace(t[sel.start..sel.end])
    ensures PlanFormat(t, ts, newLine, snippet, values, Some(tracked)) ==
            StatementPlan(t, ts, newLine, SelectedIndex(snippet, newLine, values),
                          SelectionIndentOf(snippet, newLine, values), Clamp(tracked))
  {
  }

  /** What the statement case of the pass produces, given the selected
      index, the template-selection indentation and the clamped selection:
      the blank span at `startPosition + selectedIndex` replaced by the
      placeholder; a line break inserted at the selection's end exactly when
      non-blank text remains on that line; the two indentation passes after
      them; the end span anchored at the replaced span's start
      (`StatementSpanSelects` says where it ends up). No plan
      exactly when the replaced span would reach past the end of the
      snapshot. */
  predicate PlaceholderPlan(plan: Option<Plan>, t: string, ts: TextSpan, newLine: string,
                            selectedIndex: nat, indentation: string, sel: Selection)
    requires ValidSpan(t, ts) && sel.start <= sel.end <= |t|
  {
    var p := LineStart(t, ts.iStartLine) + ts.iStartIndex + selectedIndex;
    var trailing := !IsNullOrWhiteSpace(RestOfLine(t, sel.end));
    var k := if trailing then 2 else 1;
    (plan.None? <==> p + (sel.end - sel.start) > |t|) &&
    (plan.Some? ==>
      |plan.value.changes| >= k &&
      plan.value.changes[0] == Change(p, sel.end - sel.start, Placeholder) &&
      (trailing ==> plan.value.changes[1] == Change(sel.end, 0, newLine)) &&
      plan.value.changes[k..] == SelectionEdits(t, indentation, sel) + BaseEdits(t, ts) &&
      plan.value.endAt == Some(p))
  }

  /** A statement template over a blank selection gets the placeholder plan. */
  lemma StatementPlaceholder(t: string, ts: TextSpan, newLine: string, snippet: Snippet,
                             values: map<string, string>, tracked: Selection)
    requires ValidSpan(t, ts) && tracked.start <= |t| && tracked.end <= |t|
    requires HasType(snippet.snippetTypes, SurroundsWithStatement) && SelectedIndex(snippet, newLine, values) != -1
    requires var sel := Clamp(tracked); IsNullOrWhiteSpace(t[sel.start..sel.end])
    ensures PlaceholderPlan(PlanFormat(t, ts, newLine, snippet, values, Some(tracked)), t, ts, newLine,
                            SelectedIndex(snippet, newLine, values), SelectionIndentOf(snippet, newLine, values), Clamp(tracked))
  {
    PlanFormatStatement(t, ts, newLine, snippet, values, tracked);
    StatementPlanShape(t, ts, newLine, SelectedIndex(snippet, newLine, values),
                       SelectionIndentOf(snippet, newLine, values), Clamp(tracked));
  }

  /** After a planned batch, the text at the tracked position of offset `p`
      is the placeholder. */
  predicate PlaceholderAt(plan: Option<Plan>, t: string, p: nat) {
    plan.Some? ==>
      var q := Track(plan.value.changes, p, Negative);
      var after := Apply(t, plan.value.changes);
      q + |Placeholder| <= |after| && after[q..q + |Placeholder|] == Placeholder
  }

  /** In the statement case the placeholder is in the new snapshot, where
      the start of the replaced span is tracked to. */
  lemma PlaceholderInserted(t: string, ts: TextSpan, newLine: string, snippet: Snippet,
                            values: map<string, string>, tracked: Selection, selectedIndex: nat)
    requires ValidSpan(t, ts) && tracked.start <= |t| && tracked.end <= |t|
    requires HasType(snippet.snippetTypes, SurroundsWithStatement) && selectedIndex == SelectedIndex(snippet, newLine, values)
    requires var sel := Clamp(tracked); IsNullOrWhiteSpace(t[sel.start..sel.end])
    ensures PlaceholderAt(PlanFormat(t, ts, newLine, snippet, values, Some(tracked)), t,
                          LineStart(t, ts.iStartLine) + ts.iStartIndex + selectedIndex)
  {
    PlanFormatStatement(t, ts, newLine, snippet, values, tracked);
    StatementPlaceholderLands(t, ts, newLine, selectedIndex, SelectionIndentOf(snippet, newLine, values), Clamp(tracked));
  }

  /** `PlaceholderInserted` for the statement batch itself. */
  lemma StatementPlaceholderLands(t: string, ts: TextSpan, newLine: string, selectedIndex: nat,
                                  indentation: string, sel: Selection)
    requires ValidSpan(t, ts) && sel.start <= sel.end <= |t|
    ensures PlaceholderAt(StatementPlan(t, ts, newLine, selectedIndex, indentation, sel), t,
                          LineStart(t, ts.iStartLine) + ts.iStartIndex + selectedIndex)
  {
    var plan := StatementPlan(t, ts, newLine, selectedIndex, indentation, sel);
    if plan.Some? {
      var p := LineStart(t, ts.iStartLine) + ts.iStartIndex + selectedIndex;
      assert plan.value.changes[0] == Change(p, sel.end - sel.start, Placeholder);
      FirstChangeLands(t, plan.value.changes);
    }
  }

  /** The statement batch has the shape `PlaceholderPlan` describes.
      A separate step, so callers need not unfold the definitions in a larger context. */
  lemma StatementPlanShape(t: string, ts: TextSpan, newLine: string, selectedIndex: nat,
                           indentation: string, sel: Selection)
    requires ValidSpan(t, ts) && sel.start <= sel.end <= |t|
    ensures PlaceholderPlan(StatementPlan(t, ts, newLine, selectedIndex, indentation, sel), t, ts, newLine,
                            selectedIndex, indentation, sel)
  {
    var plan := StatementPlan(t, ts, newLine, selectedIndex, indentation, sel);
    if plan.Some? {
      var p := LineStart(t, ts.iStartLine) + ts.iStartIndex + selectedIndex;
      var rest := SelectionEdits(t, indentation, sel) + BaseEdits(t, ts);
      var head := [Change(p, sel.end - sel.start, Placeholder)];
      var breakEdit := if IsNullOrWhiteSpace(RestOfLine(t, sel.end)) then [] else [Change(sel.end, 0, newLine)];
      assert plan.value.changes == head + breakEdit + SelectionEdits(t, indentation, sel) + BaseEdits(t, ts);
      assert plan.value.changes == head + breakEdit + rest;
    }
  }
  // ---------------------------------------------------------------------
  // Where the end span is

  /** The end span of the statement batch selects the placeholder in the
      snapshot the batch produces. */
  lemma StatementSpanSelects(t: string, ts: TextSpan, newLine: string, selectedIndex: nat,
                             indentation: string, sel: Selection)
    requires ValidSpan(t, ts) && sel.start <= sel.end <= |t|
    ensures var plan := StatementPlan(t, ts, newLine, selectedIndex, indentation, sel);
            plan.Some? ==> PlanEndSpan(t, plan.value).Some? &&
                           SelectsPlaceholder(Apply(t, plan.value.changes), PlanEndSpan(t, plan.value).value)
  {
    var plan := StatementPlan(t, ts, newLine, selectedIndex, indentation, sel);
    if plan.Some? {
      var p := LineStart(t, ts.iStartLine) + ts.iStartIndex + selectedIndex;
      StatementPlaceholderLands(t, ts, newLine, selectedIndex, indentation, sel);
      AnchorSelects(t, plan.value, p);
    }
  }

  /** A plan whose end anchor is where its placeholder lands designates an
      end span that selects the placeholder.
      A separate step, so callers need not unfold the definitions in a larger context. */
  lemma AnchorSelects(t: string, plan: Plan, p: nat)
    requires plan.endAt == Some(p) && p <= |t| && PlaceholderAt(Some(plan), t, p)
    ensures PlanEndSpan(t, plan).Some? && SelectsPlaceholder(Apply(t, plan.changes), PlanEndSpan(t, plan).value)
  {
    var after := Apply(t, plan.changes);
    var q := Track(plan.changes, p, Negative);
    assert PlanEndSpan(t, plan) == Some(PlaceholderSpan(after, q));
  }

  /** Every end span the formatting pass designates selects the placeholder
      in the snapshot its batch produces. */
  lemma PlanSpanSelects(t: string, ts: TextSpan, newLine: string, snippet: Snippet,
                        values: map<string, string>, tracked: Option<Selection>)
    requires ValidSpan(t, ts)
    requires tracked.Some? ==> tracked.value.start <= |t| && tracked.value.end <= |t|
    ensures var plan := PlanFormat(t, ts, newLine, snippet, values, tracked);
            plan.Some? && plan.value.endAt.Some? ==>
              SelectsPlaceholder(Apply(t, plan.value.changes), PlanEndSpan(t, plan.value).value)
  {
    var i := SelectedIndex(snippet, newLine, values);
    if IsSurround(snippet) && i != -1 && tracked.Some? {
      var sel := Clamp(tracked.value);
      if HasType(snippet.snippetTypes, SurroundsWithStatement) && IsNullOrWhiteSpace(t[sel.start..sel.end]) {
        PlanFormatStatement(t, ts, newLine, snippet, values, tracked.value);
        StatementSpanSelects(t, ts, newLine, i, SelectionIndentOf(snippet, newLine, values), sel);
      }
    }
  }

  /** The written end span misses the placeholder. Take any line `a` with
      indentation, and a statement snippet inserted at column `c` of it whose
      template ends the line there and continues with `$selected$` on the
      next one, with nothing selected. The batch puts the placeholder, then
      the base indentation, at the start of the second line, so the
      placeholder starts at column 0 of that line; the written span starts
      at the base indentation's width and does not select it. */
  lemma WrittenEndSpanMisses(a: string, c: nat, k: nat)
    requires NoBreak(a) && c <= |a| && BaseIndentation(a) != "" && k == |a| - c + 1
    ensures ValidSpan(a + "\n", TextSpan(0, c, 1, 0))
    ensures var plan := StatementPlan(a + "\n", TextSpan(0, c, 1, 0), "\n", k, "", Selection(|a| + 1, |a| + 1));
            plan.Some? && Apply(a + "\n", plan.value.changes) == a + "\n" + (Placeholder + BaseIndentation(a))
    ensures var plan := StatementPlan(a + "\n", TextSpan(0, c, 1, 0), "\n", k, "", Selection(|a| + 1, |a| + 1));
            plan.Some? && PlanEndSpan(a + "\n", plan.value) == Some(TextSpan(1, 0, 1, |Placeholder|))
    ensures var B := BaseIndentation(a);
            WrittenEndSpan(a + "\n", TextSpan(0, c, 1, 0), k, "") == TextSpan(1, |B|, 1, |B| + |Placeholder|) &&
            !SelectsPlaceholder(a + "\n" + (Placeholder + B), TextSpan(1, |B|, 1, |B| + |Placeholder|))
  {
    var B := BaseIndentation(a);
    assert |a + "\n"| == |a| + 1;
    ExampleFacts(a, c, k);
    MissesPlan(a + "\n", a + "\n" + (Placeholder + B), B, c, k);
    MissesWritten(a + "\n", a + "\n" + (Placeholder + B), B, c, k);
  }

  /** What `MissesPlan` and `MissesWritten` need to know about the text `t`
      of `WrittenEndSpanMisses` and the text `after` its batch produces. */
  predicate TwoLineExample(t: string, after: string, B: string, c: nat, k: nat) {
    LineCount(t) == 2 && ValidSpan(t, TextSpan(0, c, 1, 0)) && c + k == |t| &&
    LineStart(t, 0) == 0 && LineStart(t, 1) == |t| && LineOf(t, |t|) == 1 && RestOfLine(t, |t|) == "" &&
    BaseOf(t, TextSpan(0, c, 1, 0)) == B &&
    BaseEdits(t, TextSpan(0, c, 1, 0)) == [Change(|t|, 0, B)] &&
    SelectionEdits(t, "", Selection(|t|, |t|)) == [] &&
    Apply(t, [Change(|t|, 0, Placeholder), Change(|t|, 0, B)]) == after &&
    |after| == |t| + |Placeholder| + |B| && 1 < LineCount(after) &&
    LineStart(after, 1) == |t| && LineOf(after, |t|) == 1 && after[|t| + |B|] != Placeholder[0]
  }

  /** The example of `WrittenEndSpanMisses` has the facts it needs. */
  lemma ExampleFacts(a: string, c: nat, k: nat)
    requires NoBreak(a) && c <= |a| && BaseIndentation(a) != "" && k == |a| - c + 1
    ensures TwoLineExample(a + "\n", a + "\n" + (Placeholder + BaseIndentation(a)), BaseIndentation(a), c, k)
  {
    ExampleText(a, c);
    ExampleApply(a, BaseIndentation(a));
    ExampleAfter(a, BaseIndentation(a));
  }

  /** The text of `WrittenEndSpanMisses` before the batch: the line `a` and
      an empty one. */
  lemma ExampleText(a: string, c: nat)
    requires NoBreak(a) && c <= |a|
    ensures var t := a + "\n";
            var ts := TextSpan(0, c, 1, 0);
            LineCount(t) == 2 && LineStart(t, 0) == 0 && LineStart(t, 1) == |t| &&
            LineOf(t, |t|) == 1 && RestOfLine(t, |t|) == "" &&
            ValidSpan(t, ts) && BaseOf(t, ts) == BaseIndentation(a) &&
            BaseEdits(t, ts) == [Change(|t|, 0, BaseIndentation(a))] &&
            SelectionEdits(t, "", Selection(|t|, |t|)) == []
  {
    var t := a + "\n";
    var ts := TextSpan(0, c, 1, 0);
    TwoLines(a, "");
    assert t + "" == t;
    assert RestOfLine(t, |t|) == "";
    SelectionEditsUnfold(t, "", Selection(|t|, |t|));
    assert BaseEdits(t, ts) == [Change(|t|, 0, BaseIndentation(a))];
  }

  /** The text of `WrittenEndSpanMisses` after the batch: the line `a`, then
      the placeholder followed by the base indentation. */
  lemma ExampleAfter(a: string, B: string)
    requires NoBreak(a) && B == BaseIndentation(a) && B != ""
    ensures var after := a + "\n" + (Placeholder + B);
            1 < LineCount(after) && LineStart(after, 1) == |a| + 1 && LineOf(after, |a| + 1) == 1 &&
            |after| == |a| + 1 + |Placeholder| + |B| && after[|a| + 1 + |B|] != Placeholder[0]
  {
    var after := a + "\n" + (Placeholder + B);
    IndentRunNoBreak(B);
    assert NoBreak(Placeholder + B) by {
      assert forall i :: 0 <= i < |Placeholder + B| ==> (Placeholder + B)[i] == if i < 4 then Placeholder[i] else B[i - 4];
    }
    TwoLines(a, Placeholder + B);
    AfterPlaceholder(B);
    assert after[|a| + 1 + |B|] == (Placeholder + B)[|B|];
  }

  /** The batch and end span of `WrittenEndSpanMisses`, for a text `t` of
      two lines and the text `after` its batch produces. */
  lemma MissesPlan(t: string, after: string, B: string, c: nat, k: nat)
    requires TwoLineExample(t, after, B, c, k)
    ensures var plan := StatementPlan(t, TextSpan(0, c, 1, 0), "\n", k, "", Selection(|t|, |t|));
            plan.Some? && Apply(t, plan.value.changes) == after &&
            PlanEndSpan(t, plan.value) == Some(TextSpan(1, 0, 1, |Placeholder|))
  {
    var cs := [Change(|t|, 0, Placeholder), Change(|t|, 0, B)];
    EmptyStatementPlan(t, TextSpan(0, c, 1, 0), k, Selection(|t|, |t|), B);
    ExampleTrack(t, B, cs, after);
  }

  /** The written end span of `WrittenEndSpanMisses` and why it misses.
      A separate step, so callers need not unfold the definitions in a larger context. */
  lemma MissesWritten(t: string, after: string, B: string, c: nat, k: nat)
    requires TwoLineExample(t, after, B, c, k)
    ensures WrittenEndSpan(t, TextSpan(0, c, 1, 0), k, "") == TextSpan(1, |B|, 1, |B| + |Placeholder|)
    ensures !SelectsPlaceholder(after, TextSpan(1, |B|, 1, |B| + |Placeholder|))
  {
    NotSelects(after, TextSpan(1, |B|, 1, |B| + |Placeholder|), |t| + |B|);
    WrittenSpanValue(t, TextSpan(0, c, 1, 0), k, B);
  }

  /** The span `FormatSpan` writes when the replaced span's start is the
      end of a two-line text and nothing is put in front of `$selected$`.
      A separate step, so callers need not unfold the definitions in a larger context. */
  lemma WrittenSpanValue(t: string, ts: TextSpan, k: nat, B: string)
    requires ValidSpan(t, ts) && LineStart(t, ts.iStartLine) + ts.iStartIndex + k == |t|
    requires LineOf(t, |t|) == 1 && BaseOf(t, ts) == B
    ensures WrittenEndSpan(t, ts, k, "") == TextSpan(1, |B|, 1, |B| + |Placeholder|)
  {
  }

  /** A span whose first character is not the placeholder's does not
      select it.
      A separate step, so callers need not unfold the definitions in a larger context. */
  lemma NotSelects(after: string, span: TextSpan, q: nat)
    requires span.iStartLine < LineCount(after) && LineStart(after, span.iStartLine) + span.iStartIndex == q
    requires q + |Placeholder| <= |after| && after[q] != Placeholder[0]
    ensures !SelectsPlaceholder(after, span)
  {
    assert after[q..q + |Placeholder|][0] == after[q];
  }

  /** A text of two lines. */
  lemma TwoLines(a: string, b: string)
    requires NoBreak(a) && NoBreak(b)
    ensures Split(a + "\n" + b) == [a, b]
    ensures LineStart(a + "\n" + b, 0) == 0 && LineStart(a + "\n" + b, 1) == |a| + 1
    ensures LineOf(a + "\n" + b, |a| + 1) == 1
  {
    var t := a + "\n" + b;
    SplitLine(a, b);
    SplitSingle(b);
    assert t[..|a| + 1] == a + "\n";
    BreaksAppend(a, "\n");
    BreaksNone(a);
    assert Breaks("\n") == 1;
  }

  /** A statement plan for an empty selection at the end of its line, with
      no selection lines to indent and one base indentation insert at the
      same offset. */
  lemma EmptyStatementPlan(t: string, ts: TextSpan, k: nat, sel: Selection, B: string)
    requires ValidSpan(t, ts) && sel.start == sel.end <= |t|
    requires LineStart(t, ts.iStartLine) + ts.iStartIndex + k == sel.start
    requires RestOfLine(t, sel.end) == "" && SelectionEdits(t, "", sel) == []
    requires BaseEdits(t, ts) == [Change(sel.start, 0, B)]
    ensures StatementPlan(t, ts, "\n", k, "", sel) ==
            Some(Plan([Change(sel.start, 0, Placeholder), Change(sel.start, 0, B)], Some(sel.start)))
  {
    assert IsNullOrWhiteSpace(RestOfLine(t, sel.end));
    var head := [Change(sel.start, 0, Placeholder)];
    assert head + [] + SelectionEdits(t, "", sel) + BaseEdits(t, ts) == [Change(sel.start, 0, Placeholder), Change(sel.start, 0, B)];
  }

  /** The batch of `WrittenEndSpanMisses` appends the placeholder and the
      base indentation. */
  lemma ExampleApply(a: string, B: string)
    requires NoBreak(a) && B == BaseIndentation(a)
    ensures Apply(a + "\n", [Change(|a| + 1, 0, Placeholder), Change(|a| + 1, 0, B)]) == a + "\n" + (Placeholder + B)
  {
    TwoLines(a, "");
    assert a + "\n" + "" == a + "\n";
    IndentRunNoBreak(B);
    TwoLineApply(a + "\n", a, B);
  }

  /** `ExampleApply` for a text `t` whose lines are `a` and an empty one. */
  lemma TwoLineApply(t: string, a: string, B: string)
    requires Split(t) == [a, ""] && NoBreak(B)
    ensures Apply(t, [Change(|a| + 1, 0, Placeholder), Change(|a| + 1, 0, B)]) == a + "\n" + (Placeholder + B)
  {
    var cs := [Change(|a| + 1, 0, Placeholder), Change(|a| + 1, 0, B)];
    var L := Split(t);
    JoinSplit(t);
    TwoLineInserts(L, B, cs);
    var after := Apply(t, cs);
    JoinSplit(after);
    assert Split(after)[1..] == [Placeholder + B];
  }

  /** Two inserts at the start of the empty second line of `L`. */
  lemma TwoLineInserts(L: seq<string>, B: string, cs: seq<Change>)
    requires WellFormed(L) && |L| == 2 && L[1] == "" && NoBreak(B)
    requires cs == [Change(|L[0]| + 1, 0, Placeholder), Change(|L[0]| + 1, 0, B)]
    ensures Split(Apply(Join(L), cs)) == [L[0], Placeholder + B]
  {
    assert IsLineStartOf(L, |L[0]| + 1) by {
      assert Offset(L, 1) == |L[0]| + 1;
    }
    assert NoBreak(Placeholder);
    LineStartInsertsApply(L, cs);
    ExampleInserts(B, cs, |L[0]| + 1);
    InsertsAtNone(cs, 0);
    var P := Prefixed(L, cs);
    assert P[0] == L[0] && P[1] == Placeholder + B;
  }

  /** The two inserts of the example, at offset `p`. */
  lemma ExampleInserts(B: string, cs: seq<Change>, p: nat)
    requires cs == [Change(p, 0, Placeholder), Change(p, 0, B)]
    ensures InsertsAt(cs, p) == Placeholder + B
  {
    assert cs[1..][1..] == [];
    assert InsertsAt(cs[1..], p) == B + "";
  }

  /** In the example, the replaced span's start does not move. */
  lemma ExampleTrack(t: string, B: string, cs: seq<Change>, after: string)
    requires cs == [Change(|t|, 0, Placeholder), Change(|t|, 0, B)]
    requires Apply(t, cs) == after && |after| == |t| + |Placeholder| + |B|
    ensures Track(cs, |t|, Negative) == |t|
  {
    EmittedLength(t, cs, |t|);
    ExampleInserts(B, cs, |t|);
    assert ApplyFrom(t, cs, |t|) == Placeholder + B + "";
  }

  /** Past `|B|` characters of the placeholder followed by an indentation
      run `B`, the text does not start again with the placeholder's first
      letter.
      A separate step, so callers need not unfold the definitions in a larger context. */
  lemma AfterPlaceholder(B: string)
    requires IsIndent(B) && B != ""
    ensures (Placeholder + B)[|B|] != Placeholder[0]
  {
    if |B| >= 4 {
      assert (Placeholder + B)[|B|] == B[|B| - 4];
    } else {
      assert (Placeholder + B)[|B|] == Placeholder[|B|];
    }
  }
}
