# Snippet expansion handler — a Dafny model

PowerShell Tools for Visual Studio plugs a command filter into the editor
that drives code-snippet expansion (`SnippetHandler`). This project models
three parts of it.

**Command routing.** `Exec` decides whether it consumes each command.
- Return, Tab and BackTab are consumed only while an expansion session is live and the session operation succeeds.
- Surround With and Insert Snippet open the snippet picker (`TriggerSnippet`).
- `QueryStatus` enables Insert Snippet.

**Session state.** The handler keeps:
- the live session;
- the "session ended" and "select end span" flags;
- two tracking points for the selection that was active when the expansion started.

`InsertNamedExpansion` aborts a live session, captures the selection, resets the flags, and lets the host insert the snippet. `EndExpansion` is the host's callback when a session ends. `EndCurrentExpansion` selects the `pass` placeholder when one was designated.

**The formatting pass.** After the host has inserted a snippet, it calls `FormatSpan`, which builds one batch of edits against the current snapshot:
1. It rebuilds the template text: `\n` becomes the buffer's newline, field values are substituted in declaration order, `$end$` is removed, and `$selected$` is located.
2. For surround snippets, it indents the continuation lines of the selection by the indentation the template puts before `$selected$`.
3. For `SurroundsWithStatement` snippets over a blank selection, it replaces the selection by the statement `pass`, adds a line break when text follows on the line, and designates the four characters of `pass` as the end span. The source computes that span's line and column before the batch is applied, and they can miss `pass` (see Findings); the model designates the span where `pass` lands after the batch.
4. It indents the snippet's own lines after the first by the base indentation of the insertion line.
5. It applies the batch in one step.

## Structure

| file | module | contents |
|---|---|---|
| `strings.dfy` | `Strings` | whitespace classes, `IndexOf` and `Replace`, both comparing characters ordinally (.NET's `Replace` does; its `IndexOf(string)` does not, see below) |
| `lines.dfy` | `Lines` | a snapshot as text split at `'\n'`; line starts, line of a position, rest of a line |
| `edits.dfy` | `Edits` | `ITextEdit` batches (all changes against one snapshot, applied at once) and `ITrackingPoint` with Positive/Negative tracking |
| `indentation.dfy` | `Indentation` | the two whitespace scans, as loops proved against functions |
| `templates.dfy` | `Templates` | snippet type classification and template reconstruction |
| `formatting.dfy` | `Formatting` | `PlanFormat`, the batch and end anchor of `FormatSpan` as a function of the snapshot, with the lemmas on what it does to the lines and where the end span lands |
| `handler.dfy` | `Snippets` | the classes `TextBuffer`, `TextEdit`, `ExpansionSession`, `SnippetHandler`, and the routing functions |
| `wrappers.dfy` | `Wrappers` | `Option` |

`SnippetHandler` is a class whose methods update its fields as the C# class does. `FormatSpan` is proved to apply exactly the batch `PlanFormat` describes. The lemmas in `Formatting` then state what that batch does to each line of the buffer.

## Model

| member | source | states |
|---|---|---|
| Strings.IndexOf | PowerShellTools/Snippets/SnippetHandler.cs:287 | the result is -1 exactly when the pattern occurs nowhere; otherwise it is an occurrence with none before it |
| Strings.Replace | PowerShellTools/Snippets/SnippetHandler.cs:275-284 | a string without the pattern is returned unchanged |
| Strings.ReplaceFirst | PowerShellTools/Snippets/SnippetHandler.cs:275-284 | when the pattern occurs, the replacement happens at the first occurrence `IndexOf` finds: the text before it is kept, the occurrence becomes the replacement, and the search resumes after it; with the contract of `Replace` this determines every result |
| Strings.ReplaceSelf | PowerShellTools/Snippets/SnippetHandler.cs:275 | replacing a pattern by itself leaves the text unchanged |
| Lines.RestOfLine | PowerShellTools/Snippets/SnippetHandler.cs:317-318 | the text from a position to the end of its line: it holds no line break, is a prefix of the remaining text, and is followed by a line break or the end of the text |
| Lines.JoinSplit | PowerShellTools/Snippets/SnippetHandler.cs:376 | the lines of a snapshot, joined with breaks, give back the snapshot |
| Lines.SplitJoin | PowerShellTools/Snippets/SnippetHandler.cs:376 | splitting well-formed lines that were joined gives back those lines |
| Lines.LineOfBound | PowerShellTools/Snippets/SnippetHandler.cs:317 | every position of a snapshot lies on an existing line |
| Lines.LineStartBound | PowerShellTools/Snippets/SnippetHandler.cs:394-395 | every line, starting at its line start, lies inside the snapshot |
| Lines.LineOfPosition | PowerShellTools/Snippets/SnippetHandler.cs:326 | a position lies between the start and the end of the line `GetLineFromPosition` gives for it |
| Lines.LineLength | PowerShellTools/Snippets/SnippetHandler.cs:497 | the length `GetLengthOfLine` reports is the line's text without a trailing `'\r'`: it equals the length of the split line exactly when that line does not end in `'\r'`, and is one less otherwise |
| Edits.Apply | PowerShellTools/Snippets/SnippetHandler.cs:349 | an empty batch leaves the snapshot as it was |
| Edits.Track | PowerShellTools/Snippets/SnippetHandler.cs:457-458 | a tracked point lands after the new text of all offsets before it and before the new text of the next offset; without changes no point moves |
| Edits.TrackWithin | PowerShellTools/Snippets/SnippetHandler.cs:296-297 | a tracked point lies inside the snapshot the batch produces |
| Indentation.BaseIndentation | PowerShellTools/Snippets/SnippetHandler.cs:374-387 | the result is a prefix of the line made only of spaces and tabs; when shorter than the line, the next character is neither |
| Indentation.GetBaseIndentation | PowerShellTools/Snippets/SnippetHandler.cs:374-387 | the forward scan returns `BaseIndentation` of the line |
| Indentation.BaseIndentationUnique | PowerShellTools/Snippets/SnippetHandler.cs:374-387 | any string with those properties is the base indentation, so the line made only of blanks yields the whole line |
| Indentation.LastNonIndent | PowerShellTools/Snippets/SnippetHandler.cs:363-370 | the last index before `i` holding neither a space nor a tab, or -1 when there is none |
| Indentation.SelectionIndentation | PowerShellTools/Snippets/SnippetHandler.cs:360-372 | blanks only, ending exactly at `selectedIndex`; preceded by a non-blank character (a line break counts as one); empty when only blanks precede `$selected$` |
| Indentation.GetTemplateSelectionIndentation | PowerShellTools/Snippets/SnippetHandler.cs:360-372 | the backward scan returns `SelectionIndentation` |
| Templates.ClassifySnippetTypes | PowerShellTools/Snippets/SnippetHandler.cs:238-252 | each flag is set exactly when some `SnippetType` child carries its text |
| Templates.ReconstructTemplate | PowerShellTools/Snippets/SnippetHandler.cs:275-284 | the loop computes `Reconstructed`: newline conversion, substitution in declaration order, `$end$` removed |
| Templates.SubstituteFieldsAppend | PowerShellTools/Snippets/SnippetHandler.cs:276-283 | substitution of a list of declarations is the substitution of its first part followed by that of the rest |
| Templates.UnboundFieldsStayLiteral | PowerShellTools/Snippets/SnippetHandler.cs:276-283 | declarations whose value lookup fails change nothing, so their `$id$` stays literal |
| Templates.NewlineConversionIdentity | PowerShellTools/Snippets/SnippetHandler.cs:275 | with `"\n"` as the buffer newline the conversion step is the identity |
| Formatting.PlanFormat | PowerShellTools/Snippets/SnippetHandler.cs:260-349 | the batch and end anchor of the pass; `None` where the source throws before applying anything; a designated end anchor lies inside the snapshot |
| Formatting.StatementPlan | PowerShellTools/Snippets/SnippetHandler.cs:306-347 | the statement batch starts by replacing the blank selection at `startPosition+selectedIndex` by `pass`, and its end anchor is that offset, the start of the placeholder |
| Formatting.PlanEndSpan | PowerShellTools/Snippets/SnippetHandler.cs:324-334 | an end span exists exactly when the plan has an end anchor; it is read in the snapshot after the batch |
| Formatting.Clamp | PowerShellTools/Snippets/SnippetHandler.cs:296-304 | the start is kept and the end is no earlier than it; an ordered selection is unchanged; a reversed one collapses onto its start |
| Edits.TrackedSelectionReversed | PowerShellTools/Snippets/SnippetHandler.cs:457-458 | a Positive start and a Negative end come out reversed exactly when the selection was empty and text was inserted at it |
| Edits.TrackedApart | PowerShellTools/Snippets/SnippetHandler.cs:457-458 | points at distinct offsets keep their order after a batch |
| Edits.ResolveWithin | PowerShellTools/Snippets/SnippetHandler.cs:296-297 | a tracking point resolved through later snapshots lies inside the current snapshot |
| Edits.LineStartInsertsApply | PowerShellTools/Snippets/SnippetHandler.cs:349 | a batch of break-free inserts at line starts keeps the line count and puts each line's inserts in front of it |
| Edits.FirstChangeLands | PowerShellTools/Snippets/SnippetHandler.cs:313 | the text of the batch's first change appears in the new snapshot where its offset is tracked to |
| Formatting.IndentEditsAt | PowerShellTools/Snippets/SnippetHandler.cs:389-397 | the batch inserts `indentation` at the start of line `j` exactly when `j` is in `startLine..endLine`, and nothing otherwise |
| Formatting.IndentEditsAtLineStarts | PowerShellTools/Snippets/SnippetHandler.cs:389-397 | every change of `IndentSpan` is a break-free insert at a line start |
| Formatting.OneIndentPass | PowerShellTools/Snippets/SnippetHandler.cs:389-397 | after the batch, lines `startLine..endLine` have one copy of the indentation in front; all other lines are unchanged; none when `startLine > endLine` |
| Formatting.TwoIndentPasses | PowerShellTools/Snippets/SnippetHandler.cs:337-349 | two indentation passes in one batch, both read from the old snapshot: each line is prefixed by the first indentation if it is in the first range, followed by the second if it is in the second |
| Formatting.BaseEditsIndent | PowerShellTools/Snippets/SnippetHandler.cs:347 | the base pass indents lines `iStartLine+1..iEndLine` and leaves the first inserted line alone |
| Formatting.PlainExpansionIndentsBody | PowerShellTools/Snippets/SnippetHandler.cs:260-349 | without a surround tag or `$selected$`, the pass only indents the snippet's lines after the first and designates no end span |
| Formatting.EmptyBaseIndentationNoOp | PowerShellTools/Snippets/SnippetHandler.cs:347-349 | with an empty base indentation, that pass leaves the text unchanged |
| Formatting.SurroundIndentsSelection | PowerShellTools/Snippets/SnippetHandler.cs:260-343 | with a surround tag, `$selected$` found and the selection kept, the lines `line(start)+1..line(end)` get the selection indentation on top of the base pass, with no end span |
| Formatting.StatementPlaceholder | PowerShellTools/Snippets/SnippetHandler.cs:306-335 | a `SurroundsWithStatement` template over a blank selection replaces the selection at `startPosition+selectedIndex` by `pass`, inserts a newline at `end` exactly when non-blank text follows, and anchors the end span at the start of the replaced span; the pass throws exactly when the replaced span reaches past the snapshot |
| Formatting.PlaceholderInserted | PowerShellTools/Snippets/SnippetHandler.cs:313-334 | in that case the new snapshot holds `pass` at the tracked position of the replaced span |
| Formatting.StatementPlaceholderLands | PowerShellTools/Snippets/SnippetHandler.cs:313 | the same for the statement batch on its own |
| Formatting.StatementSpanSelects | PowerShellTools/Snippets/SnippetHandler.cs:324-334 | the end span of the statement batch lies on one line of the new snapshot and selects the four characters of `pass` there |
| Formatting.PlanSpanSelects | PowerShellTools/Snippets/SnippetHandler.cs:324-334 | every end span the pass designates selects `pass` in the snapshot its batch produces |
| Formatting.WrittenEndSpan | PowerShellTools/Snippets/SnippetHandler.cs:326-334 | the span as the source writes it: the line holding the replaced span's start in the snapshot before the batch, the column `|base|+|indent|`, four characters on one line |
| Formatting.WrittenEndSpanMisses | PowerShellTools/Snippets/SnippetHandler.cs:326-334 | for every indented line ending where a statement snippet puts `$selected$` at the start of the next line, the span as the source writes it starts at the base indentation's width while `pass` starts at column 0, so it does not select `pass` |
| Snippets.TriggerSnippet | PowerShellTools/Snippets/SnippetHandler.cs:132-162 | no picker without an expansion manager; Surround With offers the two surround types with "Surround with:", anything else offers Expansion and SurroundsWith with "Insert snippet:" |
| Snippets.QueryStatus | PowerShellTools/Snippets/SnippetHandler.cs:164-177 | answered exactly for Insert Snippet asked first in `VSStd2K` outside automation, with exactly the supported and enabled bits |
| Snippets.TextBuffer.GetPosition | PowerShellTools/Snippets/SnippetHandler.cs:296-297 | a tracking point resolves to a position inside the current snapshot |
| Snippets.TextBuffer.ApplyBatch | PowerShellTools/Snippets/SnippetHandler.cs:349 | one new snapshot, the old one with the whole batch applied |
| Snippets.TextEdit.Insert | PowerShellTools/Snippets/SnippetHandler.cs:321 | the insert is appended to the batch |
| Snippets.TextEdit.Replace | PowerShellTools/Snippets/SnippetHandler.cs:313 | the replacement is appended to the batch |
| Snippets.TextEdit.Apply | PowerShellTools/Snippets/SnippetHandler.cs:349 | the batch becomes the buffer's next snapshot |
| Snippets.ExpansionSession.SetEndSpan | PowerShellTools/Snippets/SnippetHandler.cs:354 | the session holds the given end span; how it was ended is untouched |
| Snippets.ExpansionSession.EndCurrentExpansion | PowerShellTools/Snippets/SnippetHandler.cs:517-520 | the session records the flag it was ended with, keeps its end span, and reports the host's success |
| Snippets.SnippetHandler.constructor | PowerShellTools/Snippets/SnippetHandler.cs:83 | no session, both flags clear, no tracking points |
| Snippets.SnippetHandler.Tracked | PowerShellTools/Snippets/SnippetHandler.cs:296-297 | present exactly when both tracking points are set, and inside the current snapshot |
| Snippets.SnippetHandler.EndExpansion | PowerShellTools/Snippets/SnippetHandler.cs:187-193 | no session, "session ended" set, both tracking points cleared, the end-span flag untouched |
| Snippets.SnippetHandler.IndentSpan | PowerShellTools/Snippets/SnippetHandler.cs:389-397 | the loop appends `IndentEdits` of the current snapshot to the batch |
| Snippets.SnippetHandler.PlaceholderEdits | PowerShellTools/Snippets/SnippetHandler.cs:311-322 | the replace and optional newline insert that start `StatementPlan`'s batch, and failure exactly where the replace would throw |
| Snippets.SnippetHandler.FormatEdit | PowerShellTools/Snippets/SnippetHandler.cs:238-347 | the batch built equals the one `PlanFormat` describes, and so does the end anchor |
| Snippets.SnippetHandler.SurroundEdit | PowerShellTools/Snippets/SnippetHandler.cs:288-343 | the same for a surround snippet whose template holds `$selected$` |
| Snippets.SnippetHandler.KeptEdit | PowerShellTools/Snippets/SnippetHandler.cs:337-347 | the selection's continuation lines, then the snippet's lines after the first, are indented |
| Snippets.SnippetHandler.StatementEdit | PowerShellTools/Snippets/SnippetHandler.cs:306-347 | the batch and end anchor are those of `StatementPlan` |
| Snippets.SnippetHandler.CommitFormat | PowerShellTools/Snippets/SnippetHandler.cs:349-355 | the batch is applied as one snapshot; with an end anchor the end-span flag is set and the session receives the corrected end span `PlanEndSpan`, read in the new snapshot (not the span the source computes, see Findings); without one the flag and the session are untouched |
| Snippets.SnippetHandler.FormatSpan | PowerShellTools/Snippets/SnippetHandler.cs:195-358 | a failed snippet lookup is returned with nothing changed; otherwise the buffer gains exactly the batch of `PlanFormat`, the corrected end span `PlanEndSpan` is recorded (see Findings), and the result is that of the `Imports` lookup |
| Snippets.SnippetHandler.EndCaseOf | PowerShellTools/Snippets/SnippetHandler.cs:507-519 | the placeholder is selected exactly when the end-span flag is set and the session holds an end span that fits in the buffer |
| Snippets.SnippetHandler.EndCurrentExpansion | PowerShellTools/Snippets/SnippetHandler.cs:505-521 | with an end span designated, the four characters at its start are selected and the session ends with 1 whatever `leaveCaret` says; otherwise it ends with `leaveCaret`; a successful end clears the session |
| Snippets.SnippetHandler.AbortSession | PowerShellTools/Snippets/SnippetHandler.cs:443-449 | a live session is ended with 1 and dropped |
| Snippets.SnippetHandler.StartExpansion | PowerShellTools/Snippets/SnippetHandler.cs:454-478 | the selection is tracked (start Positive, end Negative), both flags are reset, and the host's session is dropped if it was ended during a successful insertion |
| Snippets.SnippetHandler.InsertNamedExpansion | PowerShellTools/Snippets/SnippetHandler.cs:441-479 | always `S_OK`; a live session is ended with 1; without expansion support nothing else changes and the host is not asked; otherwise the host is asked to insert into exactly `textSpan` and the new state is that of `StartExpansion` |
| Snippets.SnippetHandler.GetCaretPosition | PowerShellTools/Snippets/SnippetHandler.cs:491-503 | fails exactly when the caret line does not exist; the column is kept when it lies within the line's length (without a trailing `'\r'`) and pulled back to that length otherwise |
| Snippets.SnippetHandler.OnItemChosen | PowerShellTools/Snippets/SnippetHandler.cs:432-439 | the host is asked to insert the chosen snippet into the empty span at the caret line and the clamped caret column, and the new state is that of `InsertNamedExpansion`: the host's batch, the reset flags, the tracked selection or the cleared points, the kept or dropped session; without expansion support no session and no new snapshot; a missing caret line faults with nothing changed |
| Snippets.SnippetHandler.Exec | PowerShellTools/Snippets/SnippetHandler.cs:91-130 | in automation or outside `VSStd2K` everything is forwarded; Return/Tab/BackTab are consumed only with a live session and a successful operation; a consumed Return leaves no session and clears the tracking points, a forwarded one changes nothing; only Return touches the session; Surround With and Insert Snippet are always consumed and open the picker |

## Left out

- MEF export, provider wiring and COM interop (`GetService`, `AddCommandFilter`, `InvokeInsertionUI`, the host's own `InsertNamedExpansion`): the host's answers become parameters (`managerAvailable`, `HostInsertion`, `fieldMoved`) and the picker is returned as a value.
- The MSXML navigation in `FormatSpan`: the snippet arrives as its code text, its `SnippetTypes` children and its declaration IDs. `GetSnippetNode`/`GetHeaderNode` failures are modelled as an absent value.
- The imports list (`SnippetHandler.cs:224-236`) is collected but never used. Only its lookup result is modelled, because it is what `FormatSpan` returns.
- The stub `IVsExpansionClient` callbacks (`SnippetHandler.cs:399-430`) and the uncalled `InsertAnyExpansion` (`SnippetHandler.cs:524-572`) have no logic of their own.
- `NextField`/`PreviousField` forward to the session. Their outcome is the `fieldMoved` parameter of `Exec`.
- The caret move and view selection in `EndCurrentExpansion` are returned as the `selected` span instead of being performed.
- Automation mode and the command group are booleans. Commands are an enumeration.
- Exceptions are the `Faulted` status, with no state change. This covers a missing session, a placeholder span past the end of the snapshot, an end span outside the buffer, and an invalid caret line.
- Snapshot lines are split at `'\n'` only. With a `"\r\n"` buffer the `'\r'` stays at the end of each split line; `GetLengthOfLine` leaves it out (`Lines.LineLength`), and the other scans do not treat it differently. A lone `'\r'` as a line break is not modelled.
- Strings.IndexOf: compares characters ordinally. .NET's `IndexOf(string)` compares with the current culture, where ignorable characters such as U+00AD (soft hyphen) inside the template can make `$selected$` match at an index the ordinal search does not give.
- Snippets.SnippetHandler.FormatSpan: a span `ts` whose lines are outside the snapshot, for which the editor's line lookups throw, is folded into the single `Faulted` outcome rather than modelling which lookup throws first. A start column past the end of its line is folded into `Faulted` as well, for every kind of snippet. The source reads that column only in the statement case, through `GetPositionOfLineIndex` (:312), whose failure it ignores.
- Snippets.SnippetHandler.CommitFormat: the session receives the corrected end span `PlanEndSpan`, not the span the source computes at `SnippetHandler.cs:326-334` (`Formatting.WrittenEndSpan`). Where the two differ (see Findings), `EndCurrentExpansion` selects `pass` in the model and other characters in the source.
- Snippets.SnippetHandler.FormatSpan: the end span it records is the corrected one of `CommitFormat`, not the source's.
- Edits.Apply: the model does not reproduce the editor's handling of overlapping replacements within one batch. It deletes the union of the replaced spans. The handler's own batches only ever combine one replacement with inserts.
- Edits.Apply: text inserted at one offset appears in the order the inserts were issued. This is an assumption about the editor, whose code is not part of this model. With the reverse order, the base indentation would precede `pass`, and the source's end span would select it; the Findings row rests on this assumption.
- Snippets.SnippetHandler.EndCurrentExpansion: the host's callback `EndExpansion` (`SnippetHandler.cs:187-193`) is assumed to happen exactly when the host's `EndCurrentExpansion` succeeds, and during insertion exactly when the host reports it. The cleared session after a successful end, in `EndCurrentExpansion`, `Exec`, `AbortSession`, `InsertNamedExpansion` and `StartExpansion`, rests on that.
- Snippets.SnippetHandler.EndCaseOf: `GetEndSpan` is modelled as the end span last recorded with `SetEndSpan`. A session that never received one fails the lookup.
- `PowerShellTools/Project/PowerShellProjectPackage.cs` (package registration) and `PowerShellTools.Test/VsxHostTest.cs` (a PowerShell runspace host) are not part of this model.

## Findings

| source | as written | input that shows it | evidently intended | confidence | as-written member | corrected member |
|---|---|---|---|---|---|---|
| PowerShellTools/Snippets/SnippetHandler.cs:324-334 | the end span takes the line of `startPosition + selectedIndex` in the snapshot before the batch, and the column `baseIndentation.Length + indentation.Length` | buffer line `"    while True:"` followed by a line break, a statement snippet `while True:\n$selected$` inserted at column 4 with nothing selected: `pass` ends up at column 0 of line 1 (the base indentation is inserted after it), while the span written is line 1, columns 4 to 8 | the span selects the `pass` just inserted | not executed; assumes inserts at one offset keep the order they were issued in (see Left out) | Formatting.WrittenEndSpanMisses | Formatting.PlanSpanSelects |
