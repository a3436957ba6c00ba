/** The snippet handler: the editor buffer it edits, the expansion session
    the host hands it, its own session state, and the command routing that
    decides which keys and menu commands it consumes. */
module Snippets {
  import opened Wrappers
  import opened Strings
  import opened Lines
  import opened Edits
  import opened Indentation
  import opened Templates
  import opened Formatting

  /** The HRESULT of an operation, or the exception it throws. */
  datatype Status = Ok | Failed | Faulted

  /** `ITrackingPoint`: a position in one snapshot, with its tracking mode. */
  datatype TrackingPoint = TrackingPoint(version: nat, position: nat, mode: TrackingMode)

  /** The text buffer: every snapshot so far and the batch that produced each
      next one. */
  class TextBuffer {
    var versions: seq<string>
    var batches: seq<seq<Change>>

    predicate Valid()
      reads this
    {
      History(versions, batches)
    }

    constructor (text: string)
      ensures Valid() && versions == [text] && batches == []
    {
      versions := [text];
      batches := [];
    }

    /** `CurrentSnapshot`. */
    function Current(): string
      reads this
      requires Valid()
    {
      versions[|versions| - 1]
    }

    /** The point refers to an existing snapshot and lies inside it. */
    predicate Holds(p: TrackingPoint)
      reads this
    {
      p.version < |versions| && p.position <= |versions[p.version]|
    }

    /** `ITrackingPoint.GetPosition(CurrentSnapshot)`. */
    function GetPosition(p: TrackingPoint): (r: nat)
      reads this
      requires Valid() && Holds(p)
      ensures r <= |Current()|
    {
      ResolveWithin(versions, batches, p.version, p.position, p.mode);
      Resolve(batches[p.version..], p.position, p.mode)
    }

    /** `CreateEdit`: an empty batch against the current snapshot. */
    method CreateEdit() returns (edit: TextEdit)
      requires Valid()
      ensures fresh(edit) && edit.buffer == this && edit.snapshot == Current() && edit.changes == []
    {
      edit := new TextEdit(this, Current());
    }

    /** A batch applied in one step: one new snapshot. */
    method ApplyBatch(cs: seq<Change>)
      requires Valid()
      modifies this
      ensures Valid()
      ensures versions == old(versions) + [Apply(old(Current()), cs)]
      ensures batches == old(batches) + [cs]
    {
      versions := versions + [Apply(Current(), cs)];
      batches := batches + [cs];
    }
  }

  /** `ITextEdit`: changes collected against one snapshot, applied together. */
  class TextEdit {
    const buffer: TextBuffer
    const snapshot: string
    var changes: seq<Change>

    constructor (buffer: TextBuffer, snapshot: string)
      ensures this.buffer == buffer && this.snapshot == snapshot && changes == []
    {
      this.buffer := buffer;
      this.snapshot := snapshot;
      changes := [];
    }

    /** `Insert(position, text)`: the position must lie in the snapshot. */
    method Insert(position: nat, text: string)
      requires position <= |snapshot|
      modifies this
      ensures changes == old(changes) + [Change(position, 0, text)]
    {
      changes := changes + [Change(position, 0, text)];
    }

    /** `Replace(span, text)`: the span must lie in the snapshot. */
    method Replace(start: nat, length: nat, text: string)
      requires start + length <= |snapshot|
      modifies this
      ensures changes == old(changes) + [Change(start, length, text)]
    {
      changes := changes + [Change(start, length, text)];
    }

    /** `Apply`: the whole batch becomes the buffer's next snapshot. */
    method Apply()
      requires buffer.Valid() && snapshot == buffer.Current()
      modifies buffer
      ensures buffer.Valid()
      ensures buffer.versions == old(buffer.versions) + [Edits.Apply(snapshot, changes)]
      ensures buffer.batches == old(buffer.batches) + [changes]
    {
      buffer.ApplyBatch(changes);
    }
  }

  /** `IVsExpansionSession`, as far as the handler uses it. The constants
      stand for what the host answers: the snippet's `Code` text and
      `SnippetTypes` children (`None` when the lookup fails), the IDs of its
      declarations, whether the `Imports` lookup succeeds, the current value
      of each field whose `GetFieldValue` succeeds, and whether ending the
      session succeeds. */
  class ExpansionSession {
    const code: Option<string>
    const snippetTypes: Option<seq<XmlNode>>
    const declarations: seq<string>
    const importsFound: bool
    const fieldValues: map<string, string>
    const endSucceeds: bool
    var endSpan: Option<TextSpan>
    /** The `fLeaveCaret` argument of `EndCurrentExpansion`, once called. */
    var endedWith: Option<int>

    constructor (code: Option<string>, snippetTypes: Option<seq<XmlNode>>, declarations: seq<string>,
                 importsFound: bool, fieldValues: map<string, string>, endSucceeds: bool)
      ensures this.code == code && this.snippetTypes == snippetTypes && this.declarations == declarations
      ensures this.importsFound == importsFound && this.fieldValues == fieldValues && this.endSucceeds == endSucceeds
      ensures endSpan.None? && endedWith.None?
    {
      this.code := code;
      this.snippetTypes := snippetTypes;
      this.declarations := declarations;
      this.importsFound := importsFound;
      this.fieldValues := fieldValues;
      this.endSucceeds := endSucceeds;
      endSpan := None;
      endedWith := None;
    }

    method SetEndSpan(span: TextSpan)
      modifies this
      ensures endSpan == Some(span) && endedWith == old(endedWith)
    {
      endSpan := Some(span);
    }

    method EndCurrentExpansion(leaveCaret: int) returns (ok: bool)
      modifies this
      ensures ok == endSucceeds && endedWith == Some(leaveCaret) && endSpan == old(endSpan)
    {
      endedWith := Some(leaveCaret);
      ok := endSucceeds;
    }
  }

  /** What the host does during `IVsExpansion.InsertNamedExpansion`: whether
      it succeeds, whether it calls back `EndExpansion` before returning, the
      batch of its raw insertion, and the session it hands out. */
  datatype HostInsertion = HostInsertion(succeeded: bool, endedDuringInsertion: bool,
                                         edits: seq<Change>, session: ExpansionSession?)

  /** How `EndCurrentExpansion` proceeds in the current state. */
  datatype EndCase =
    | SelectEndSpan(start: nat)  // the placeholder at `start` is selected; the session ends with 1
    | EndSpanFault               // the end span lies outside the buffer: the selection throws
    | PlainEnd                   // the session ends with the caller's flag

  /** The commands the handler inspects (all in the `VSStd2K` group). */
  datatype Command = Return | Tab | BackTab | SurroundWith | InsertSnippet | OtherCommand

  datatype ExecResult = Handled | Forwarded | ExecFaulted

  /** The insertion picker: its prompt and the snippet types it offers. */
  datatype Picker = Picker(prompt: string, snippetTypes: seq<string>)

  /** `QueryStatus`: passed on to the next handler, or answered with the
      `cmdf` flags of the first command. */
  datatype QueryResult = ForwardQuery | Enabled(cmdf: bv32)

  const MSOCMDF_SUPPORTED: bv32 := 1
  const MSOCMDF_ENABLED: bv32 := 2

  /** The picker `TriggerSnippet` opens, if the expansion manager is available:
      Surround With offers the two surround types, Insert Snippet the
      expansion and surround types. */
  function TriggerSnippet(managerAvailable: bool, cmd: Command): (p: Option<Picker>)
    ensures p.Some? <==> managerAvailable
    ensures p.Some? ==> |p.value.snippetTypes| == 2 && SurroundsWith in p.value.snippetTypes
    ensures p.Some? ==> (SurroundsWithStatement in p.value.snippetTypes <==> cmd == SurroundWith)
    ensures p.Some? ==> (Expansion in p.value.snippetTypes <==> cmd != SurroundWith)
    ensures p.Some? && cmd == SurroundWith ==> p.value.prompt == "Surround with:"
    ensures p.Some? && cmd != SurroundWith ==> p.value.prompt == "Insert snippet:"
  {
    if !managerAvailable then None
    else if cmd == SurroundWith then Some(Picker("Surround with:", [SurroundsWith, SurroundsWithStatement]))
    else Some(Picker("Insert snippet:", [Expansion, SurroundsWith]))
  }

  /** `QueryStatus`: only Insert Snippet, asked first in the `VSStd2K` group
      outside automation, is answered, as supported and enabled. */
  function QueryStatus(inAutomation: bool, isStd2K: bool, cCmds: nat, firstCmd: Command): (r: QueryResult)
    ensures r.Enabled? <==> !inAutomation && isStd2K && cCmds > 0 && firstCmd == InsertSnippet
    ensures r.Enabled? ==> r.cmdf & MSOCMDF_SUPPORTED != 0 && r.cmdf & MSOCMDF_ENABLED != 0
    ensures r.Enabled? ==> r.cmdf & !(MSOCMDF_SUPPORTED | MSOCMDF_ENABLED) == 0
  {
    if inAutomation || !isStd2K || cCmds == 0 || firstCmd != InsertSnippet then ForwardQuery
    else Enabled(MSOCMDF_ENABLED | MSOCMDF_SUPPORTED)
  }

  class SnippetHandler {
    const buffer: TextBuffer
    /** The view's newline string. */
    const newLine: string
    /** The buffer implements `IVsExpansion`. */
    const bufferSupportsExpansion: bool
    /** `_mExManager != null`. */
    var hasExpansionManager: bool
    var session: ExpansionSession?
    var sessionEnded: bool
    var selectEndSpan: bool
    var selectionStart: Option<TrackingPoint>
    var selectionEnd: Option<TrackingPoint>

    /** The buffer's history is consistent and both tracking points, when
        set, lie in snapshots of it. */
    predicate Valid()
      reads this, buffer
    {
      buffer.Valid() &&
      (selectionStart.Some? ==> buffer.Holds(selectionStart.value)) &&
      (selectionEnd.Some? ==> buffer.Holds(selectionEnd.value))
    }

    constructor (buffer: TextBuffer, newLine: string, bufferSupportsExpansion: bool, hasExpansionManager: bool)
      requires buffer.Valid()
      ensures Valid() && this.buffer == buffer && this.newLine == newLine
      ensures this.bufferSupportsExpansion == bufferSupportsExpansion && this.hasExpansionManager == hasExpansionManager
      ensures session == null && !sessionEnded && !selectEndSpan && selectionStart.None? && selectionEnd.None?
    {
      this.buffer := buffer;
      this.newLine := newLine;
      this.bufferSupportsExpansion := bufferSupportsExpansion;
      this.hasExpansionManager := hasExpansionManager;
      session := null;
      sessionEnded := false;
      selectEndSpan := false;
      selectionStart := None;
      selectionEnd := None;
    }

    /** `InSession`. */
    predicate InSession()
      reads this
    {
      session != null
    }

    /** The two tracking points resolved in the current snapshot, when both are set. */
    function Tracked(): (r: Option<Selection>)
      reads this, buffer
      requires Valid()
      ensures r.Some? <==> selectionStart.Some? && selectionEnd.Some?
      ensures r.Some? ==> r.value.start <= |buffer.Current()| && r.value.end <= |buffer.Current()|
    {
      if selectionStart.Some? && selectionEnd.Some? then
        Some(Selection(buffer.GetPosition(selectionStart.value), buffer.GetPosition(selectionEnd.value)))
      else None
    }

    /** `EndExpansion`, called back by the host when a session ends. */
    method EndExpansion()
      requires Valid()
      modifies this
      ensures Valid()
      ensures session == null && sessionEnded && selectionStart.None? && selectionEnd.None?
      ensures selectEndSpan == old(selectEndSpan) && hasExpansionManager == old(hasExpansionManager)
    {
      session := null;
      sessionEnded := true;
      selectionStart, selectionEnd := None, None;
    }

    /** `IndentSpan`: one insert of `indentation` at the start of each line
        `startLine..endLine` of the current snapshot. */
    method IndentSpan(edit: TextEdit, indentation: string, startLine: nat, endLine: nat)
      requires buffer.Valid() && edit.snapshot == buffer.Current()
      requires startLine <= endLine ==> endLine < LineCount(buffer.Current())
      modifies edit
      ensures edit.changes == old(edit.changes) + IndentEdits(edit.snapshot, indentation, startLine, endLine)
    {
      var snapshot := buffer.Current();
      var i := startLine;
      while i <= endLine
        invariant startLine <= i && (startLine <= endLine ==> i <= endLine + 1)
        invariant edit.changes + IndentEdits(snapshot, indentation, i, endLine) ==
                  old(edit.changes) + IndentEdits(snapshot, indentation, startLine, endLine)
        decreases endLine + 1 - i
      {
        LineStartBound(snapshot, i);
        ghost var before := edit.changes;
        edit.Insert(LineStart(snapshot, i), indentation);
        assert IndentEdits(snapshot, indentation, i, endLine) ==
               [Change(LineStart(snapshot, i), 0, indentation)] + IndentEdits(snapshot, indentation, i + 1, endLine);
        assert before + [Change(LineStart(snapshot, i), 0, indentation)] + IndentEdits(snapshot, indentation, i + 1, endLine) ==
               before + ([Change(LineStart(snapshot, i), 0, indentation)] + IndentEdits(snapshot, indentation, i + 1, endLine));
        i := i + 1;
      }
    }

    /** The snippet as the session describes it, when its `Code` and
        `SnippetTypes` lookups succeed. */
    function SessionSnippet(): Option<Snippet>
      reads this, session
      requires session != null
    {
      if session.code.Some? && session.snippetTypes.Some? then
        Some(Snippet(session.code.value, session.snippetTypes.value, session.declarations))
      else None
    }

    /** The statement case of `FormatSpan`: the blank selection, found at
        `selectedIndex` past the start of the inserted span, is replaced by
        the placeholder, and a line break is inserted after the selection
        when text follows it on its line. `ok` is false where the source
        throws because the replaced span reaches past the snapshot. The end
        span is not computed here: `CommitFormat` reads it once the batch is
        applied (see `Formatting.WrittenEndSpan` for the span the source
        computes at this point). */
    method PlaceholderEdits(edit: TextEdit, ts: TextSpan, selectedIndex: nat, indentation: string, sel: Selection)
      returns (ok: bool)
      requires ValidSpan(edit.snapshot, ts) && sel.start <= sel.end <= |edit.snapshot| && edit.changes == []
      modifies edit
      ensures var plan := StatementPlan(edit.snapshot, ts, newLine, selectedIndex, indentation, sel);
              ok == plan.Some? &&
              (!ok ==> edit.changes == []) &&
              (ok ==> plan.value.changes == edit.changes + SelectionEdits(edit.snapshot, indentation, sel) + BaseEdits(edit.snapshot, ts))
    {
      var t := edit.snapshot;
      var startPosition := LineStart(t, ts.iStartLine) + ts.iStartIndex;
      if startPosition + selectedIndex + (sel.end - sel.start) > |t| {
        return false;
      }
      edit.Replace(startPosition + selectedIndex, sel.end - sel.start, Placeholder);
      var endText := RestOfLine(t, sel.end);
      if !IsNullOrWhiteSpace(endText) {
        edit.Insert(sel.end, newLine);
      }
      ok := true;
    }

    /** The batch `FormatSpan` builds, and the end span it designates, as
        `PlanFormat` describes them; `None` where the source throws. */
    method FormatEdit(edit: TextEdit, ts: TextSpan, snippet: Snippet, values: map<string, string>,
                      tracked: Option<Selection>) returns (plan: Option<Plan>)
      requires buffer.Valid() && edit.snapshot == buffer.Current() && edit.changes == []
      requires ValidSpan(edit.snapshot, ts)
      requires tracked.Some? ==> tracked.value.start <= |edit.snapshot| && tracked.value.end <= |edit.snapshot|
      modifies edit
      ensures plan == PlanFormat(edit.snapshot, ts, newLine, snippet, values, tracked)
      ensures plan.Some? ==> edit.changes == plan.value.changes
    {
      var t := edit.snapshot;
      var surroundsWith, surroundsWithStatement := ClassifySnippetTypes(snippet.snippetTypes);
      var baseIndentation := GetBaseIndentation(Split(t)[ts.iStartLine]);
      if surroundsWith || surroundsWithStatement {
        var templateText := ReconstructTemplate(snippet.code, newLine, snippet.declarations, values);
        var selectedIndex := IndexOf(templateText, SelectedMarker);
        if selectedIndex != -1 {
          plan := SurroundEdit(edit, ts, snippet, values, tracked, templateText, selectedIndex,
                               baseIndentation, surroundsWithStatement);
          return;
        }
      }
      PlanFormatPlain(t, ts, newLine, snippet, values, tracked);
      IndentSpan(edit, baseIndentation, ts.iStartLine + 1, ts.iEndLine);
      assert edit.changes == [] + BaseEdits(t, ts) == BaseEdits(t, ts);
      plan := Some(Plan(edit.changes, None));
    }

    /** `FormatEdit` for a surround snippet whose template holds `$selected$`. */
    method SurroundEdit(edit: TextEdit, ts: TextSpan, snippet: Snippet, values: map<string, string>,
                        tracked: Option<Selection>, templateText: string, selectedIndex: nat,
                        baseIndentation: string, surroundsWithStatement: bool)
      returns (plan: Option<Plan>)
      requires buffer.Valid() && edit.snapshot == buffer.Current() && edit.changes == []
      requires ValidSpan(edit.snapshot, ts)
      requires tracked.Some? ==> tracked.value.start <= |edit.snapshot| && tracked.value.end <= |edit.snapshot|
      requires IsSurround(snippet) && templateText == TemplateText(snippet, newLine, values)
      requires selectedIndex == SelectedIndex(snippet, newLine, values)
      requires surroundsWithStatement == HasType(snippet.snippetTypes, SurroundsWithStatement)
      requires baseIndentation == BaseOf(edit.snapshot, ts)
      modifies edit
      ensures plan == PlanFormat(edit.snapshot, ts, newLine, snippet, values, tracked)
      ensures plan.Some? ==> edit.changes == plan.value.changes
    {
      var t := edit.snapshot;
      var indentation := GetTemplateSelectionIndentation(templateText, selectedIndex);
      if tracked.None? {
        return None;
      }
      var start := tracked.value.start;
      var end := tracked.value.end;
      if end < start {
        end := start;
      }
      var sel := Selection(start, end);
      assert sel == Clamp(tracked.value);
      if surroundsWithStatement && IsNullOrWhiteSpace(t[start..end]) {
        PlanFormatStatement(t, ts, newLine, snippet, values, tracked.value);
        plan := StatementEdit(edit, ts, selectedIndex, baseIndentation, indentation, sel);
      } else {
        PlanFormatKept(t, ts, newLine, snippet, values, tracked.value);
        KeptEdit(edit, ts, baseIndentation, indentation, sel);
        plan := Some(Plan(edit.changes, None));
      }
    }

    /** The other branch of `FormatEdit`: the selection's lines, then the
        snippet's lines, are indented. */
    method KeptEdit(edit: TextEdit, ts: TextSpan, baseIndentation: string, indentation: string, sel: Selection)
      requires buffer.Valid() && edit.snapshot == buffer.Current() && edit.changes == []
      requires ValidSpan(edit.snapshot, ts) && sel.start <= sel.end <= |edit.snapshot|
      requires baseIndentation == BaseOf(edit.snapshot, ts)
      modifies edit
      ensures edit.changes == SelectionEdits(edit.snapshot, indentation, sel) + BaseEdits(edit.snapshot, ts)
    {
      var t := edit.snapshot;
      SelectionEditsUnfold(t, indentation, sel);
      IndentSpan(edit, indentation, LineOf(t, sel.start) + 1, LineOf(t, sel.end));
      assert edit.changes == SelectionEdits(t, indentation, sel) by {
        assert [] + SelectionEdits(t, indentation, sel) == SelectionEdits(t, indentation, sel);
      }
      IndentSpan(edit, baseIndentation, ts.iStartLine + 1, ts.iEndLine);
    }

    /** The statement branch of `FormatEdit`: the placeholder edits, then
        the indentation of the selection and of the snippet's lines. */
    method StatementEdit(edit: TextEdit, ts: TextSpan, selectedIndex: nat, baseIndentation: string,
                         indentation: string, sel: Selection) returns (plan: Option<Plan>)
      requires buffer.Valid() && edit.snapshot == buffer.Current() && edit.changes == []
      requires ValidSpan(edit.snapshot, ts) && sel.start <= sel.end <= |edit.snapshot|
      requires baseIndentation == BaseOf(edit.snapshot, ts)
      modifies edit
      ensures plan == StatementPlan(edit.snapshot, ts, newLine, selectedIndex, indentation, sel)
      ensures plan.Some? ==> edit.changes == plan.value.changes
    {
      var t := edit.snapshot;
      SelectionEditsUnfold(t, indentation, sel);
      var ok := PlaceholderEdits(edit, ts, selectedIndex, indentation, sel);
      if !ok {
        return None;
      }
      IndentSpan(edit, indentation, LineOf(t, sel.start) + 1, LineOf(t, sel.end));
      IndentSpan(edit, baseIndentation, ts.iStartLine + 1, ts.iEndLine);
      plan := Some(Plan(edit.changes, Some(LineStart(t, ts.iStartLine) + ts.iStartIndex + selectedIndex)));
    }

    /** The end of `FormatSpan`: the batch built in `edit` is applied, and
        the end span, if the plan designates one, is marked for selection
        and handed to the session. The span is read in the snapshot the
        batch produced: the line and column to which a negative tracking
        point at the plan's end offset moved. */
    method CommitFormat(edit: TextEdit, plan: Plan)
      requires Valid() && session != null
      requires edit.buffer == buffer && edit.snapshot == buffer.Current() && edit.changes == plan.changes
      requires plan.endAt.Some? ==> plan.endAt.value <= |edit.snapshot|
      modifies this, buffer, session
      ensures Valid()
      ensures session == old(session) && sessionEnded == old(sessionEnded) && hasExpansionManager == old(hasExpansionManager)
      ensures selectionStart == old(selectionStart) && selectionEnd == old(selectionEnd)
      ensures buffer.versions == old(buffer.versions) + [Apply(old(buffer.Current()), plan.changes)]
      ensures buffer.batches == old(buffer.batches) + [plan.changes]
      ensures session.endedWith == old(session.endedWith)
      ensures plan.endAt.Some? ==> selectEndSpan && session.endSpan == PlanEndSpan(old(buffer.Current()), plan)
      ensures plan.endAt.None? ==> selectEndSpan == old(selectEndSpan) && session.endSpan == old(session.endSpan)
    {
      if plan.endAt.Some? {
        selectEndSpan := true;
      }
      var before := buffer.Current();
      edit.Apply();
      if plan.endAt.Some? {
        TrackWithin(before, plan.changes, plan.endAt.value, Negative);
        var q := Track(plan.changes, plan.endAt.value, Negative);
        session.SetEndSpan(PlaceholderSpan(buffer.Current(), q));
      }
    }

    /** `FormatSpan`, called by the host once the raw insertion of the span
        `ts` is complete. Without a session it throws; when a snippet lookup
        fails it returns that failure; otherwise it applies the batch
        `PlanFormat` describes in one step, records the end span it
        designates, and returns the result of the `Imports` lookup. */
    method FormatSpan(ts: TextSpan) returns (hr: Status)
      requires Valid()
      modifies this, buffer, session
      ensures Valid()
      ensures session == old(session) && sessionEnded == old(sessionEnded) && hasExpansionManager == old(hasExpansionManager)
      ensures selectionStart == old(selectionStart) && selectionEnd == old(selectionEnd)
      ensures session == null ==> hr == Faulted && unchanged(this, buffer)
      ensures session != null && SessionSnippet().None? ==> hr == Failed && unchanged(this, buffer, session)
      ensures session != null && SessionSnippet().Some? && !ValidSpan(old(buffer.Current()), ts) ==>
                hr == Faulted && unchanged(this, buffer, session)
      ensures session != null && SessionSnippet().Some? && ValidSpan(old(buffer.Current()), ts) ==>
                var plan := PlanFormat(old(buffer.Current()), ts, newLine, SessionSnippet().value,
                                       session.fieldValues, old(Tracked()));
                (plan.None? ==> hr == Faulted && unchanged(this, buffer, session)) &&
                (plan.Some? ==>
                  buffer.versions == old(buffer.versions) + [Apply(old(buffer.Current()), plan.value.changes)] &&
                  buffer.batches == old(buffer.batches) + [plan.value.changes] &&
                  session.endedWith == old(session.endedWith) &&
                  (plan.value.endAt.Some? ==>
                     selectEndSpan && session.endSpan == PlanEndSpan(old(buffer.Current()), plan.value)) &&
                  (plan.value.endAt.None? ==> selectEndSpan == old(selectEndSpan) && session.endSpan == old(session.endSpan)) &&
                  hr == (if session.importsFound then Ok else Failed))
    {
      if session == null {
        return Faulted;
      }
      if session.code.None? || session.snippetTypes.None? {
        return Failed;
      }
      if !ValidSpan(buffer.Current(), ts) {
        return Faulted;
      }
      var tracked := Tracked();
      var edit := buffer.CreateEdit();
      var plan := FormatEdit(edit, ts, SessionSnippet().value, session.fieldValues, tracked);
      if plan.None? {
        return Faulted;
      }
      CommitFormat(edit, plan.value);
      hr := if session.importsFound then Ok else Failed;
    }

    /** How `EndCurrentExpansion` proceeds: with `_selectEndSpan` set and an
        end span recorded in the session, the four characters at the span's
        start are selected, unless they do not fit in the snapshot, where the
        source throws; otherwise the session just ends. */
    function EndCaseOf(): (c: EndCase)
      reads this, buffer, session
      requires Valid() && session != null
      ensures c.SelectEndSpan? ==> selectEndSpan && session.endSpan.Some? && c.start + 4 <= |buffer.Current()|
      ensures c.SelectEndSpan? ==>
                var span := session.endSpan.value;
                span.iStartLine < LineCount(buffer.Current()) &&
                c.start == LineStart(buffer.Current(), span.iStartLine) + span.iStartIndex
      ensures c.PlainEnd? <==> !selectEndSpan || session.endSpan.None?
    {
      if selectEndSpan && session.endSpan.Some? then
        var span := session.endSpan.value;
        var t := buffer.Current();
        if span.iStartLine < LineCount(t) && LineStart(t, span.iStartLine) + span.iStartIndex + 4 <= |t| then
          SelectEndSpan(LineStart(t, span.iStartLine) + span.iStartIndex)
        else EndSpanFault
      else PlainEnd
    }

    /** `EndCurrentExpansion(leaveCaret)`. With an end span designated it
        selects the placeholder and ends the session with 1 whatever
        `leaveCaret` says; otherwise it passes `leaveCaret` on. When the host
        ends the session it calls back `EndExpansion`. `selected` is the span
        left selected in the view. */
    method EndCurrentExpansion(leaveCaret: bool) returns (hr: Status, selected: Option<Selection>)
      requires Valid()
      modifies this, session
      ensures Valid()
      ensures selectEndSpan == old(selectEndSpan) && hasExpansionManager == old(hasExpansionManager)
      ensures old(session) == null ==> hr == Faulted && selected.None? && unchanged(this)
      ensures old(session) != null && old(EndCaseOf()).EndSpanFault? ==>
                hr == Faulted && selected.None? && unchanged(this) && unchanged(old(session))
      ensures old(session) != null && old(EndCaseOf()).SelectEndSpan? ==>
                selected == Some(Selection(old(EndCaseOf()).start, old(EndCaseOf()).start + 4)) &&
                old(session).endedWith == Some(1)
      ensures old(session) != null && old(EndCaseOf()).PlainEnd? ==>
                selected.None? && old(session).endedWith == Some(if leaveCaret then 1 else 0)
      ensures old(session) != null && !old(EndCaseOf()).EndSpanFault? ==>
                hr == (if old(session).endSucceeds then Ok else Failed) &&
                old(session).endSpan == old(session.endSpan) &&
                (old(session).endSucceeds ==> session == null && sessionEnded && selectionStart.None? && selectionEnd.None?) &&
                (!old(session).endSucceeds ==> unchanged(this))
    {
      if session == null {
        return Faulted, None;
      }
      var endCase := EndCaseOf();
      var flag := if leaveCaret then 1 else 0;
      selected := None;
      if endCase.EndSpanFault? {
        return Faulted, None;
      } else if endCase.SelectEndSpan? {
        selected := Some(Selection(endCase.start, endCase.start + 4));
        flag := 1;
      }
      var s := session;
      var ok := s.EndCurrentExpansion(flag);
      if ok {
        EndExpansion();
      }
      hr := if ok then Ok else Failed;
    }

    /** The start of `InsertNamedExpansion`: a live session is ended with 1
        (the host calls back `EndExpansion` when that succeeds) and dropped. */
    method AbortSession()
      requires Valid()
      modifies this, session
      ensures Valid() && session == null
      ensures selectEndSpan == old(selectEndSpan) && hasExpansionManager == old(hasExpansionManager)
      ensures old(session) != null ==> old(session).endedWith == Some(1)
      ensures old(session) != null && old(session).endSucceeds ==>
                sessionEnded && selectionStart.None? && selectionEnd.None?
      ensures old(session) == null || !old(session).endSucceeds ==>
                sessionEnded == old(sessionEnded) && selectionStart == old(selectionStart) && selectionEnd == old(selectionEnd)
    {
      if session != null {
        var s := session;
        var ok := s.EndCurrentExpansion(1);
        if ok {
          EndExpansion();
        }
        session := null;
      }
    }

    /** The part of `InsertNamedExpansion` after any live session has been
        dropped, for a buffer with expansion support. */
    method StartExpansion(selection: Selection, host: HostInsertion)
      requires Valid() && selection.start <= selection.end <= |buffer.Current()|
      modifies this, buffer
      ensures Valid() && hasExpansionManager == old(hasExpansionManager)
      ensures buffer.versions == old(buffer.versions) + [Apply(old(buffer.Current()), host.edits)]
      ensures buffer.batches == old(buffer.batches) + [host.edits]
      ensures !selectEndSpan && sessionEnded == host.endedDuringInsertion
      ensures session == (if host.succeeded && host.endedDuringInsertion then null else host.session)
      ensures host.endedDuringInsertion ==> selectionStart.None? && selectionEnd.None?
      ensures !host.endedDuringInsertion ==>
                Tracked() == Some(Selection(Track(host.edits, selection.start, Positive),
                                            Track(host.edits, selection.end, Negative)))
    {
      var version := |buffer.versions| - 1;
      selectionStart := Some(TrackingPoint(version, selection.start, Positive));
      selectionEnd := Some(TrackingPoint(version, selection.end, Negative));
      selectEndSpan, sessionEnded := false, false;
      buffer.ApplyBatch(host.edits);
      assert buffer.batches[version..] == [host.edits];
      assert Resolve([host.edits], selection.start, Positive) == Track(host.edits, selection.start, Positive);
      assert Resolve([host.edits], selection.end, Negative) == Track(host.edits, selection.end, Negative);
      if host.endedDuringInsertion {
        EndExpansion();
      }
      session := host.session;
      if host.succeeded && sessionEnded {
        session := null;
      }
    }

    /** `InsertNamedExpansion`: a live session is ended with 1 and dropped;
        without expansion support in the buffer nothing else happens.
        Otherwise the selection is captured as tracking points (start
        `Positive`, end `Negative`), both flags are reset, the host inserts
        the snippet into `textSpan`, and the session it hands out is kept
        unless the host already ended it during a successful insertion.
        `requested` is the span the host is asked to insert into. */
    method InsertNamedExpansion(textSpan: TextSpan, selection: Selection, host: HostInsertion)
      returns (hr: Status, requested: Option<TextSpan>)
      requires Valid() && selection.start <= selection.end <= |buffer.Current()|
      modifies this, buffer, session
      ensures Valid() && hr == Ok && hasExpansionManager == old(hasExpansionManager)
      ensures requested == (if bufferSupportsExpansion then Some(textSpan) else None)
      ensures old(session) != null ==> old(session).endedWith == Some(1)
      ensures !bufferSupportsExpansion ==>
                session == null && selectEndSpan == old(selectEndSpan) &&
                buffer.versions == old(buffer.versions) && buffer.batches == old(buffer.batches) &&
                (old(session) != null && old(session).endSucceeds ==>
                   sessionEnded && selectionStart.None? && selectionEnd.None?) &&
                (old(session) == null || !old(session).endSucceeds ==>
                   sessionEnded == old(sessionEnded) && selectionStart == old(selectionStart) && selectionEnd == old(selectionEnd))
      ensures bufferSupportsExpansion ==>
                buffer.versions == old(buffer.versions) + [Apply(old(buffer.Current()), host.edits)] &&
                buffer.batches == old(buffer.batches) + [host.edits] &&
                !selectEndSpan && sessionEnded == host.endedDuringInsertion &&
                session == (if host.succeeded && host.endedDuringInsertion then null else host.session) &&
                (host.endedDuringInsertion ==> selectionStart.None? && selectionEnd.None?) &&
                (!host.endedDuringInsertion ==>
                   Tracked() == Some(Selection(Track(host.edits, selection.start, Positive),
                                               Track(host.edits, selection.end, Negative))))
    {
      AbortSession();
      if !bufferSupportsExpansion {
        return Ok, None;
      }
      StartExpansion(selection, host);
      hr, requested := Ok, Some(textSpan);
    }

    /** `GetCaretPosition`: the caret's line must exist in the buffer (the
        line-length lookup throws otherwise); a column in virtual space past
        the end of the line, or on the line break, is pulled back to the
        line's length. */
    method GetCaretPosition(caretLine: nat, caretColumn: nat) returns (ok: bool, line: nat, column: nat)
      requires Valid()
      ensures ok <==> caretLine < LineCount(buffer.Current())
      ensures ok ==> line == caretLine && ValidSpan(buffer.Current(), TextSpan(line, column, line, column))
      ensures ok ==> column <= caretColumn && column <= LineLength(buffer.Current(), line)
      ensures ok ==> (column == caretColumn || column == LineLength(buffer.Current(), line))
    {
      var t := buffer.Current();
      if caretLine >= LineCount(t) {
        return false, 0, 0;
      }
      var lineLength := LineLength(t, caretLine);
      line, column := caretLine, caretColumn;
      if column > lineLength {
        column := lineLength;
      }
      ok := true;
    }

    /** `OnItemChosen`: the snippet picked in the insertion UI is inserted
        at the caret, as an empty span; `requested` is the span the host is
        asked to insert into. */
    method OnItemChosen(caretLine: nat, caretColumn: nat, selection: Selection, host: HostInsertion)
      returns (hr: Status, requested: Option<TextSpan>)
      requires Valid() && selection.start <= selection.end <= |buffer.Current()|
      modifies this, buffer, session
      ensures Valid() && hasExpansionManager == old(hasExpansionManager)
      ensures caretLine >= LineCount(old(buffer.Current())) ==>
                hr == Faulted && requested.None? && unchanged(this, buffer)
      ensures caretLine < LineCount(old(buffer.Current())) ==>
                hr == Ok && (old(session) != null ==> old(session).endedWith == Some(1))
      ensures caretLine < LineCount(old(buffer.Current())) && !bufferSupportsExpansion ==>
                requested.None? && session == null && selectEndSpan == old(selectEndSpan) &&
                buffer.versions == old(buffer.versions) && buffer.batches == old(buffer.batches) &&
                (old(session) != null && old(session).endSucceeds ==>
                   sessionEnded && selectionStart.None? && selectionEnd.None?) &&
                (old(session) == null || !old(session).endSucceeds ==>
                   sessionEnded == old(sessionEnded) && selectionStart == old(selectionStart) && selectionEnd == old(selectionEnd))
      ensures caretLine < LineCount(old(buffer.Current())) && bufferSupportsExpansion ==>
                var n := LineLength(old(buffer.Current()), caretLine);
                var column := if caretColumn <= n then caretColumn else n;
                requested == Some(TextSpan(caretLine, column, caretLine, column)) &&
                buffer.versions == old(buffer.versions) + [Apply(old(buffer.Current()), host.edits)] &&
                buffer.batches == old(buffer.batches) + [host.edits] &&
                !selectEndSpan && sessionEnded == host.endedDuringInsertion &&
                session == (if host.succeeded && host.endedDuringInsertion then null else host.session) &&
                (host.endedDuringInsertion ==> selectionStart.None? && selectionEnd.None?) &&
                (!host.endedDuringInsertion ==>
                   Tracked() == Some(Selection(Track(host.edits, selection.start, Positive),
                                               Track(host.edits, selection.end, Negative))))
    {
      var ok, line, column := GetCaretPosition(caretLine, caretColumn);
      if !ok {
        return Faulted, None;
      }
      hr, requested := InsertNamedExpansion(TextSpan(line, column, line, column), selection, host);
    }

    /** `Exec`, for a command of the `VSStd2K` group outside automation:
        Return ends a live session, Tab and BackTab move between its fields
        (`fieldMoved` is the host's answer), and both consume the key only
        when that succeeds; Surround With and Insert Snippet refresh the
        expansion manager and open the picker. Everything else is passed on. */
    method Exec(inAutomation: bool, isStd2K: bool, cmd: Command, fieldMoved: bool, managerAvailable: bool)
      returns (r: ExecResult, picker: Option<Picker>, selected: Option<Selection>)
      requires Valid()
      modifies this, session
      ensures Valid()
      ensures inAutomation || !isStd2K || cmd == OtherCommand ==>
                r == Forwarded && picker.None? && selected.None? && unchanged(this)
      ensures inAutomation || !isStd2K || cmd != Return ==> old(session) != null ==> unchanged(old(session))
      ensures !inAutomation && isStd2K && (cmd == Tab || cmd == BackTab) ==>
                r == (if old(session) != null && fieldMoved then Handled else Forwarded) &&
                picker.None? && selected.None? && unchanged(this)
      ensures !inAutomation && isStd2K && (cmd == SurroundWith || cmd == InsertSnippet) ==>
                r == Handled && hasExpansionManager == managerAvailable &&
                picker == TriggerSnippet(managerAvailable, cmd) && selected.None? &&
                session == old(session) && sessionEnded == old(sessionEnded) && selectEndSpan == old(selectEndSpan) &&
                selectionStart == old(selectionStart) && selectionEnd == old(selectionEnd)
      ensures !inAutomation && isStd2K && cmd == Return && old(session) == null ==>
                r == Forwarded && picker.None? && selected.None? && unchanged(this)
      ensures !inAutomation && isStd2K && cmd == Return && old(session) != null ==>
                picker.None? &&
                (r == ExecFaulted <==> old(EndCaseOf()).EndSpanFault?) &&
                (r == Handled <==> !old(EndCaseOf()).EndSpanFault? && old(session).endSucceeds) &&
                (r == Handled ==> session == null && sessionEnded && selectionStart.None? && selectionEnd.None?) &&
                (r == ExecFaulted ==> unchanged(this) && unchanged(old(session))) &&
                (!old(EndCaseOf()).EndSpanFault? && !old(session).endSucceeds ==> r == Forwarded && unchanged(this)) &&
                (old(EndCaseOf()).SelectEndSpan? ==>
                   old(session).endedWith == Some(1) &&
                   selected == Some(Selection(old(EndCaseOf()).start, old(EndCaseOf()).start + 4))) &&
                (old(EndCaseOf()).PlainEnd? ==> old(session).endedWith == Some(0) && selected.None?)
    {
      picker, selected := None, None;
      if inAutomation || !isStd2K {
        return Forwarded, None, None;
      }
      match cmd {
        case Return =>
          if InSession() {
            var hr;
            hr, selected := EndCurrentExpansion(false);
            if hr == Faulted {
              return ExecFaulted, None, selected;
            } else if hr == Ok {
              return Handled, None, selected;
            }
          }
        case Tab =>
          if InSession() && fieldMoved {
            return Handled, None, None;
          }
        case BackTab =>
          if InSession() && fieldMoved {
            return Handled, None, None;
          }
        case SurroundWith =>
          hasExpansionManager := managerAvailable;
          return Handled, TriggerSnippet(hasExpansionManager, cmd), None;
        case InsertSnippet =>
          hasExpansionManager := managerAvailable;
          return Handled, TriggerSnippet(hasExpansionManager, cmd), None;
        case OtherCommand =>
      }
      r := Forwarded;
    }
  }
}
