# igniteui-angular core behaviours in Dafny

This project models six parts of the igniteui-angular component library and proves properties of the model.

- **The masked date/time editor** (`IgxDateTimeEditorDirective`): `editor_format.dfy` holds its expression-level logic and `date_time_editor.dfy` its stateful directive. The logic covers:
  - the mask derived from the input format;
  - the text written into each date part while editing, with the month shown 1-based, a two-digit year and the 12-hour clock;
  - the part the caret targets;
  - range checking and validation;
  - the caret jumps to literal boundaries.

  The directive is a class with the committed value, the previous value, the focus flag, the input text and the caret. Its methods are proved against `MaskText()` and the event-gating rules. `valueChange` and `validationFail` are kept as event logs, and so are the calls to the form-control change callback.
- **The tree expansion set** (`IgxTreeService`, `tree_service.dfy`): a set of node ids updated in place.
- **The tree component** (`IgxTreeComponent`, `tree.dfy`):
  - ids drawn from a shared counter;
  - a selection set registered under the tree's id and cleared when the tree is destroyed;
  - `findNodes` as a filter with a default comparer.

  `selection.dfy` stands in for the shared selection service, which is not part of this model.
- **The tree node** (`IgxTreeNodeComponent`, `tree_node.dfy`):
  - the edit flag;
  - template fallbacks and the header template;
  - `fullPath`;
  - the cancel-or-toggle rule;
  - `selected` and `expanded`, read from the two services.
- **The toggle animation sequencer** (`ToggleAnimationComponent`, `toggle_animation.dfy`). Both `playOpenAnimation` and `playCloseAnimation` are specified by one step function over (own player, other player). The open direction calls it with (open, close) and the close direction with (close, open), so the mirror is stated in their contracts. Each player is created on first use with the callback of that call. Later calls do not change that player's done handler.
- **The grid pipes** (`grid_pipes.dfy`):
  - `filterCondition` is modelled as `split` before capitals followed by `join(' ')`. It is proved equal to a character-by-character reference definition, with lemmas on its length, on removing spaces and on strings without capitals.
  - The sorting, paging and filtering pipes are modelled as their guards plus the state they record on the grid.

Helpers the directive calls whose code is not part of this model become function-typed parameters. These are the mask parser, the date utilities, Angular's `formatDate` and the data utilities. The model assumes nothing about them beyond their types, except that `RenderPartsLength` and the length clause of `UpdateMask` hold only for a splice that keeps the mask's length. The current time is a parameter (`now`) where the source calls `new Date()`. What the DOM reports becomes a field or a parameter: the active element, the caret, and where a toggle event's target is.

JavaScript semantics are modelled explicitly:

- `parseInt` may return NaN (`Decimal.Num`), and `n.toString()` is `Decimal.IntToString`.
- `slice(-k)` includes the case `slice(-0)`, which returns the whole string.
- `substring` clamps and swaps its bounds.
- `String.replace` with a string pattern replaces only the first occurrence.
- A string `split` on a zero-width lookahead never cuts at index 0.
- `DatePart` values are strings, so every part is truthy and `!targetDatePart` only catches a missing part.

Where the code and the library's documentation disagree, the model follows the code:

- **No bounds set.** `valueInRange` is false when no bound is set, and false for `null`. `updateValue` therefore emits `validationFail` on every commit when no bound is set, and on every commit of `null` (`Clear`, an emptied input on blur). This is the opposite of what the name suggests.
- **Wrong error key.** With both bounds set, `validate` reports a value above the maximum under the `minValue` key (`EditorFormat.ValidateReportsMinKeyAboveMax`).

## Model

| member | source | states |
|---|---|---|
| Decimal.NatToString | projects/igniteui-angular/src/lib/directives/date-time-editor/date-time-editor.directive.ts:480-482 | `toString` of a non-negative number is a non-empty run of digits with no leading zero, one digit exactly for values below 10 |
| Decimal.ParseIntToString | projects/igniteui-angular/src/lib/directives/date-time-editor/date-time-editor.directive.ts:363-370 | `parseInt(i.toString(), 10) == i` for every integer, so re-parsing a rendered field gives the field back |
| Decimal.NatToStringInjective | projects/igniteui-angular/src/lib/tree/tree.component.ts:110 | distinct counter values print as distinct decimal strings |
| EditorFormat.ZeroWordChars | projects/igniteui-angular/src/lib/directives/date-time-editor/date-time-editor.directive.ts:130 | the mask keeps the format's length, every `\w` character becomes '0' and every other character is kept |
| EditorFormat.IndexOfTT | projects/igniteui-angular/src/lib/directives/date-time-editor/date-time-editor.directive.ts:131 | finds the first occurrence of "tt", or reports that there is none |
| EditorFormat.MaskFromFormat | projects/igniteui-angular/src/lib/directives/date-time-editor/date-time-editor.directive.ts:126-132 | the mask as written: same length as the format; without "tt" the zeroed format; with "tt" anywhere, the zeroed format with its last two characters replaced by "LL" |
| EditorFormat.MaskFromFormatFixed | projects/igniteui-angular/src/lib/directives/date-time-editor/date-time-editor.directive.ts:126-132 | the corrected mask: same length as the format, "LL" exactly where the first "tt" is, the zeroed format elsewhere |
| EditorFormat.MasksAgreeWhenAmPmTrails | projects/igniteui-angular/src/lib/directives/date-time-editor/date-time-editor.directive.ts:126-132 | when "tt" ends the format, the written and the corrected masks are equal |
| EditorFormat.MaskMisplacesLeadingAmPm | projects/igniteui-angular/src/lib/directives/date-time-editor/date-time-editor.directive.ts:126-132 | for "tt hh:mm" the written mask is "00 00:LL", which puts the letter slots on the minutes |
| EditorFormat.MaskFixedPlacesLeadingAmPm | projects/igniteui-angular/src/lib/directives/date-time-editor/date-time-editor.directive.ts:126-132 | for "tt hh:mm" the corrected mask is "LL 00:00", the letter slots over the "tt" |
| EditorFormat.SliceFromEnd | projects/igniteui-angular/src/lib/directives/date-time-editor/date-time-editor.directive.ts:481 | `slice(-k)`: the result is a suffix of the string, of length the whole string for k = 0 or k at least its length, else k |
| EditorFormat.Substring | projects/igniteui-angular/src/lib/directives/date-time-editor/date-time-editor.directive.ts:419 | `substring(a, b)`: the slice between the ends clamped to [0, length], in either order: the slice itself for ends inside the string, a prefix or suffix when one end falls outside, the whole string when they fall outside on opposite sides, empty when both fall on the same side |
| EditorFormat.ReplaceAll | projects/igniteui-angular/src/lib/directives/date-time-editor/date-time-editor.directive.ts:364 | every prompt character reads as '0', all other characters are kept, the length is unchanged |
| EditorFormat.ReplaceFirstTT | projects/igniteui-angular/src/lib/directives/date-time-editor/date-time-editor.directive.ts:380 | `replace('tt', 'aa')` on the display format: the first "tt" becomes "aa", every other character is kept, and a format without "tt" is returned unchanged |
| EditorFormat.PrependValue | projects/igniteui-angular/src/lib/directives/date-time-editor/date-time-editor.directive.ts:480-482 | the padded value never exceeds a non-zero part width; its exact length is the width when the number is at least as long as the width, else one pad character plus the number (also for width 0) |
| EditorFormat.TwelveHour | projects/igniteui-angular/src/lib/directives/date-time-editor/date-time-editor.directive.ts:436-445 | for an hour in 0..23 the result is in 1..12, equal to the hour modulo 12, and unchanged exactly for 1..12; NaN stays NaN |
| EditorFormat.ToTwelveHourFormat | projects/igniteui-angular/src/lib/directives/date-time-editor/date-time-editor.directive.ts:436-445 | NaN for text that is no number; an hour text in 0..23 gives a value in 1..12 equal to the hour modulo 12 |
| EditorFormat.GetPartValue | projects/igniteui-angular/src/lib/directives/date-time-editor/date-time-editor.directive.ts:447-478 | the AM/PM part is "PM" exactly for hours from 12 and "AM" exactly below; any other part is at most the part width, and at width 2 the field's two zero-padded digits |
| EditorFormat.PrependTwoDigits | projects/igniteui-angular/src/lib/directives/date-time-editor/date-time-editor.directive.ts:480-482 | padding a value below 100 to width 2 gives its two zero-padded digits |
| EditorFormat.LastTwoDigits | projects/igniteui-angular/src/lib/directives/date-time-editor/date-time-editor.directive.ts:370 | the last two characters of '0' followed by a year are the two digits of the year modulo 100 |
| EditorFormat.RenderMonthOneBased | projects/igniteui-angular/src/lib/directives/date-time-editor/date-time-editor.directive.ts:362-365 | a two-wide month part shows the 0-based month plus one, as two digits |
| EditorFormat.RenderHoursTwelveHour | projects/igniteui-angular/src/lib/directives/date-time-editor/date-time-editor.directive.ts:366-368 | a two-wide hour part whose format has 'h' shows the 12-hour hour, in 1..12, as two digits |
| EditorFormat.RenderHoursTwentyFourHour | projects/igniteui-angular/src/lib/directives/date-time-editor/date-time-editor.directive.ts:366-368 | a two-wide hour part without 'h' shows the 24-hour hour as two digits |
| EditorFormat.RenderYearLastTwoDigits | projects/igniteui-angular/src/lib/directives/date-time-editor/date-time-editor.directive.ts:369-371 | a two-wide year part shows the year's last two digits |
| EditorFormat.RenderAmPm | projects/igniteui-angular/src/lib/directives/date-time-editor/date-time-editor.directive.ts:468-469 | the AM/PM part is "PM" exactly when the hour is 12 or more, else "AM" |
| EditorFormat.RenderTwoDigitField | projects/igniteui-angular/src/lib/directives/date-time-editor/date-time-editor.directive.ts:447-478 | a two-wide day, minute or second part shows its field as two digits |
| EditorFormat.RenderOneWideMonth | projects/igniteui-angular/src/lib/directives/date-time-editor/date-time-editor.directive.ts:362-365 | a one-wide month part shows a single digit: the last digit of (the month's last digit plus one), not the 1-based month, so December (11) shows "2" and October (9) shows "0" |
| EditorFormat.RenderOneWideTwelveHour | projects/igniteui-angular/src/lib/directives/date-time-editor/date-time-editor.directive.ts:366-368 | a one-wide `h` hour part converts only the last digit of the 24-hour value, so hour 15 shows "5" and hour 10 shows "2" |
| EditorFormat.RenderPart | projects/igniteui-angular/src/lib/directives/date-time-editor/date-time-editor.directive.ts:359-371 | the text of one part while focused: AM or PM for the AM/PM part, otherwise no wider than the part's format |
| EditorFormat.RenderParts | projects/igniteui-angular/src/lib/directives/date-time-editor/date-time-editor.directive.ts:356-374 | splicing every non-literal part into the empty mask in order; with only literal parts the empty mask itself |
| EditorFormat.RenderMask | projects/igniteui-angular/src/lib/directives/date-time-editor/date-time-editor.directive.ts:356-374 | the loop over the parts produces the fold `RenderParts`: every non-literal part's text spliced into the empty mask in order, literals skipped |
| EditorFormat.RenderPartsLength | projects/igniteui-angular/src/lib/directives/date-time-editor/date-time-editor.directive.ts:373 | with a length-preserving splice, the focused text is exactly as long as the empty mask |
| EditorFormat.InputIsComplete | projects/igniteui-angular/src/lib/directives/date-time-editor/date-time-editor.directive.ts:498-500 | true exactly when no character of the text is the prompt character |
| EditorFormat.IsValidDate | projects/igniteui-angular/src/lib/directives/date-time-editor/date-time-editor.directive.ts:502-504 | a present date whose time is a number (defined as such; no separate contract) |
| EditorFormat.JoinFormats | projects/igniteui-angular/src/lib/directives/date-time-editor/date-time-editor.directive.ts:218 | the parts' formats concatenated in order; empty exactly when every part's format is empty |
| EditorFormat.FindTargetPart | projects/igniteui-angular/src/lib/directives/date-time-editor/date-time-editor.directive.ts:193-194 | the index of the first non-literal part whose span holds the caret, or none exactly when no part does |
| EditorFormat.TargetDatePart | projects/igniteui-angular/src/lib/directives/date-time-editor/date-time-editor.directive.ts:191-202 | focused: the kind of the first non-literal part around the caret, none exactly when there is none; unfocused: Date if present, else Hours, else none; never Literal |
| EditorFormat.FirstOfKind | projects/igniteui-angular/src/lib/directives/date-time-editor/date-time-editor.directive.ts:418 | the index of the first part of the kind |
| EditorFormat.ValueInRange | projects/igniteui-angular/src/lib/directives/date-time-editor/date-time-editor.directive.ts:388-399 | false for null; with both bounds min <= v <= max; with one bound only that bound; false with no bound |
| EditorFormat.ValidateBounds | projects/igniteui-angular/src/lib/directives/date-time-editor/date-time-editor.directive.ts:270-279 | the `minValue` error exactly when a minimum is set and the value is out of range; the `maxValue` error exactly when only a maximum is set and the value is out of range; no error without bounds |
| EditorFormat.ValidateReportsMinKeyAboveMax | projects/igniteui-angular/src/lib/directives/date-time-editor/date-time-editor.directive.ts:270-279 | with both bounds set, a value above the maximum is reported as a `minValue` error |
| EditorFormat.NewPositionLeft | projects/igniteui-angular/src/lib/directives/date-time-editor/date-time-editor.directive.ts:541-545 | moving left gives a position in [0, caret], strictly smaller for a caret above 0, that is 0 or a literal's end, with no literal end strictly between |
| EditorFormat.NewPositionRight | projects/igniteui-angular/src/lib/directives/date-time-editor/date-time-editor.directive.ts:546-551 | moving right gives a position after the caret that is a literal's start or at least the text length, with no literal start strictly between |
| DateTimeEditor.DateTimeEditorDirective.constructor | projects/igniteui-angular/src/lib/directives/date-time-editor/date-time-editor.directive.ts:204-214 | a new editor spins in a loop, has no value and no format, and takes the injected locale |
| DateTimeEditor.DateTimeEditorDirective.ParseDate | projects/igniteui-angular/src/lib/directives/date-time-editor/date-time-editor.directive.ts:506-509 | the empty text parses to null |
| DateTimeEditor.DateTimeEditorDirective.BoundAsDate | projects/igniteui-angular/src/lib/directives/date-time-editor/date-time-editor.directive.ts:390-391 | a date bound is used as it is; an unset or empty bound gives null |
| DateTimeEditor.DateTimeEditorDirective.EmptyMask | projects/igniteui-angular/src/lib/directives/date-time-editor/date-time-editor.directive.ts:186-188 | the input format run through the mask parser with the current mask and prompt character (defined as such; the parser is not modelled) |
| DateTimeEditor.DateTimeEditorDirective.InRange | projects/igniteui-angular/src/lib/directives/date-time-editor/date-time-editor.directive.ts:388-399 | false for null and when neither bound is set; with two date bounds, min <= v <= max |
| DateTimeEditor.DateTimeEditorDirective.MaskText | projects/igniteui-angular/src/lib/directives/date-time-editor/date-time-editor.directive.ts:349-382 | the empty mask for an absent or invalid value, and also while focused when every part is a literal |
| DateTimeEditor.DateTimeEditorDirective.Validate | projects/igniteui-angular/src/lib/directives/date-time-editor/date-time-editor.directive.ts:270-279 | no error exactly when no bound is set or the value is in range; the `maxValue` key only when no minimum is set |
| DateTimeEditor.DateTimeEditorDirective.Target | projects/igniteui-angular/src/lib/directives/date-time-editor/date-time-editor.directive.ts:191-202 | the targeted part is never a literal, and an AM/PM target exists in the parts |
| DateTimeEditor.DateTimeEditorDirective.SpinValue | projects/igniteui-angular/src/lib/directives/date-time-editor/date-time-editor.directive.ts:401-422 | a spun date exists exactly when the value is a valid date and the part is not a literal |
| DateTimeEditor.DateTimeEditorDirective.SetInputFormat | projects/igniteui-angular/src/lib/directives/date-time-editor/date-time-editor.directive.ts:126-132 | a non-empty format replaces the old one; the mask is the as-written mask of the new format (or the zeroed old format for an empty one), as long as the format |
| DateTimeEditor.DateTimeEditorDirective.UpdateMask | projects/igniteui-angular/src/lib/directives/date-time-editor/date-time-editor.directive.ts:349-382 | the input shows the empty mask for a null or invalid value, the rendered parts while focused, the formatted value otherwise; while focused the caret collapses to the old selection end; redrawing text already up to date with a collapsed caret changes nothing |
| DateTimeEditor.DateTimeEditorDirective.SetValue | projects/igniteui-angular/src/lib/directives/date-time-editor/date-time-editor.directive.ts:146-149 | the value is stored and the input redrawn |
| DateTimeEditor.DateTimeEditorDirective.OnFormatChanged | projects/igniteui-angular/src/lib/directives/date-time-editor/date-time-editor.directive.ts:216-225 | the parts come from the old format, the format becomes the parts joined back and the mask its as-written mask, an empty placeholder becomes the format, the input is redrawn |
| DateTimeEditor.DateTimeEditorDirective.UpdateValue | projects/igniteui-angular/src/lib/directives/date-time-editor/date-time-editor.directive.ts:424-434 | stores the new value and the old one, passes it to the change callback, emits `validationFail` exactly when out of range and `valueChange` exactly when the text has no prompt character or is the empty mask |
| DateTimeEditor.DateTimeEditorDirective.Clear | projects/igniteui-angular/src/lib/directives/date-time-editor/date-time-editor.directive.ts:230-233 | commits null, shows the empty mask, and emits both `validationFail` and `valueChange` |
| DateTimeEditor.DateTimeEditorDirective.SpinAndCommit | projects/igniteui-angular/src/lib/directives/date-time-editor/date-time-editor.directive.ts:239-262 | nothing changes without a target, even with an explicit part; otherwise the spun value, or now when there is nothing to spin, is committed with the `updateValue` events |
| DateTimeEditor.DateTimeEditorDirective.Increment | projects/igniteui-angular/src/lib/directives/date-time-editor/date-time-editor.directive.ts:239-247 | spins the given or targeted part by +1 and commits it, or now; the change callback, `validationFail` when out of range and `valueChange` when complete or empty follow `updateValue`; no change without a target |
| DateTimeEditor.DateTimeEditorDirective.Decrement | projects/igniteui-angular/src/lib/directives/date-time-editor/date-time-editor.directive.ts:254-262 | spins the given or targeted part by -1 and commits it, or now; the change callback, `validationFail` when out of range and `valueChange` when complete or empty follow `updateValue`; no change without a target |
| DateTimeEditor.DateTimeEditorDirective.OnFocus | projects/igniteui-angular/src/lib/directives/date-time-editor/date-time-editor.directive.ts:312-317 | focused, the input shows the editing view and keeps the caret |
| DateTimeEditor.DateTimeEditorDirective.OnBlur | projects/igniteui-angular/src/lib/directives/date-time-editor/date-time-editor.directive.ts:320-346 | an untouched mask commits null, emits both events and leaves the text empty; a valid parse is committed; otherwise `validationFail` carries the old value, the failed parse and the text, and the listener's date is committed only when its time differs, else null; the commit then calls the change callback, emits a second `validationFail` when out of range and `valueChange` when the text is complete or empty |
| DateTimeEditor.DateTimeEditorDirective.CommitTypedText | projects/igniteui-angular/src/lib/directives/date-time-editor/date-time-editor.directive.ts:327-343 | a valid parse is committed; otherwise the failure event comes first and the listener's replacement is committed only when its time differs from the old value, else null; then the change callback, a second `validationFail` when the committed value is out of range, and `valueChange` when the text is complete or empty |
| DateTimeEditor.DateTimeEditorDirective.GetNewPosition | projects/igniteui-angular/src/lib/directives/date-time-editor/date-time-editor.directive.ts:538-552 | direction 0 jumps left to 0 or a literal's end, strictly left of a caret above 0; any other direction right to a literal's start or past the text, never beyond the text except one step past the caret |
| TreeService.IgxTreeService.constructor | projects/igniteui-angular/src/lib/tree/tree.service.ts:5 | a fresh service has no expanded id |
| TreeService.IgxTreeService.IsExpanded | projects/igniteui-angular/src/lib/tree/tree.service.ts:15-17 | membership of the id in the expanded set (defined as such; `Expand` and `Collapse` state their effect through it) |
| TreeService.IgxTreeService.Expand | projects/igniteui-angular/src/lib/tree/tree.service.ts:7-9 | afterwards the id is expanded, no other id changes, and expanding an expanded id changes nothing |
| TreeService.IgxTreeService.Collapse | projects/igniteui-angular/src/lib/tree/tree.service.ts:11-13 | afterwards the id is not expanded, no other id changes, and collapsing a collapsed id changes nothing |
| Tree.TreeIdsDistinct | projects/igniteui-angular/src/lib/tree/tree.component.ts:25 | different counter values give different tree ids |
| Tree.FilterNodes | projects/igniteui-angular/src/lib/tree/tree.component.ts:138 | the result is a subsequence of the nodes, every element matches, and every matching node is in it as often as in the nodes, a non-matching one never |
| Tree.Matches | projects/igniteui-angular/src/lib/tree/tree.component.ts:137-138 | the given comparer, else the default comparer: the node's data equals the search term, as `_comparer` at line 162 (defined as such) |
| Tree.IgxTreeComponent.constructor | projects/igniteui-angular/src/lib/tree/tree.component.ts:110 | the tree's id is "tree-" followed by the counter's value, and the counter goes up by one |
| Tree.IgxTreeComponent.IsNodeSelected | projects/igniteui-angular/src/lib/tree/tree.component.ts:131-133 | the node's id is in the selection registered under the tree's id (defined as such; `SelectedAgreesWithTree` relates it to the node) |
| Tree.IgxTreeComponent.FindNodes | projects/igniteui-angular/src/lib/tree/tree.component.ts:136-139 | exactly the nodes the comparer accepts (by default those whose data is the search term), in their order and with their multiplicity |
| Tree.IgxTreeComponent.NgOnInit | projects/igniteui-angular/src/lib/tree/tree.component.ts:141-143 | an empty selection is registered under the tree's id, so no node is selected |
| Tree.IgxTreeComponent.NgOnDestroy | projects/igniteui-angular/src/lib/tree/tree.component.ts:150-151 | the selection under the tree's id is cleared and other entries are kept |
| Tree.IgxTreeComponent.ExpandAll | projects/igniteui-angular/src/lib/tree/tree.component.ts:127 | changes nothing |
| Tree.IgxTreeComponent.CollapseAll | projects/igniteui-angular/src/lib/tree/tree.component.ts:128 | changes nothing |
| Tree.IgxTreeComponent.SelectAll | projects/igniteui-angular/src/lib/tree/tree.component.ts:129 | changes nothing |
| Tree.SelectedAgreesWithTree | projects/igniteui-angular/src/lib/tree/tree.component.ts:131-133 | a node's `selected` equals its tree's `isNodeSelected` for it |
| TreeNode.WithDefault | projects/igniteui-angular/src/lib/tree/tree-node/tree-node.component.ts:60-82 | a given template input is used, else the default |
| TreeNode.IgxTreeNodeComponent.constructor | projects/igniteui-angular/src/lib/tree/tree-node/tree-node.component.ts:27-28 | a new node is not in edit mode and has no template input |
| TreeNode.IgxTreeNodeComponent.NodeTemplateRef | projects/igniteui-angular/src/lib/tree/tree-node/tree-node.component.ts:60-62 | without an input, the default node template |
| TreeNode.IgxTreeNodeComponent.NodeEditTemplateRef | projects/igniteui-angular/src/lib/tree/tree-node/tree-node.component.ts:67-69 | without an input, the default edit template |
| TreeNode.IgxTreeNodeComponent.SelectMarkerTemplate | projects/igniteui-angular/src/lib/tree/tree-node/tree-node.component.ts:73-75 | without an input, the default select marker |
| TreeNode.IgxTreeNodeComponent.ExpandIndicatorTemplate | projects/igniteui-angular/src/lib/tree/tree-node/tree-node.component.ts:80-82 | without an input, the default expand indicator |
| TreeNode.IgxTreeNodeComponent.HeaderTemplate | projects/igniteui-angular/src/lib/tree/tree-node/tree-node.component.ts:84-86 | while editing always a template (the default edit template without an input); otherwise the node template input as given, with no default |
| TreeNode.IgxTreeNodeComponent.Selected | projects/igniteui-angular/src/lib/tree/tree-node/tree-node.component.ts:88-90 | the node's id is in the selection registered under its tree's id (defined as such) |
| TreeNode.IgxTreeNodeComponent.Expanded | projects/igniteui-angular/src/lib/tree/tree-node/tree-node.component.ts:119-121 | the tree service reports the node's id as expanded (defined as such) |
| TreeNode.IgxTreeNodeComponent.FullPath | projects/igniteui-angular/src/lib/tree/tree-node/tree-node.component.ts:148-150 | one entry per character of the parent path, then the node's value under `valueKey`; length is the parent path's plus one |
| TreeNode.IgxTreeNodeComponent.SetEditMode | projects/igniteui-angular/src/lib/tree/tree-node/tree-node.component.ts:99-102 | the node is in edit mode |
| TreeNode.IgxTreeNodeComponent.ExitEditMode | projects/igniteui-angular/src/lib/tree/tree-node/tree-node.component.ts:92-97 | the node is not in edit mode, and outside edit mode nothing changes |
| TreeNode.IgxTreeNodeComponent.Toggle | projects/igniteui-angular/src/lib/tree/tree-node/tree-node.component.ts:104-117 | an event targeting outside the icon container is canceled and toggles nothing; otherwise the tree is asked to toggle this id once; an Enter keydown leaves edit mode |
| ToggleAnimation.PlayStep | projects/igniteui-angular/src/lib/expansion-panel/toggle-animation-component.ts:28-65 | no target changes nothing; otherwise the own player exists and has started; it is created only if absent, with the call's callback; a started player is left alone; a started reverse player hands over `1 - position` and is dropped |
| ToggleAnimation.PlayStepConsistent | projects/igniteui-angular/src/lib/expansion-panel/toggle-animation-component.ts:49-64 | a step keeps at most one player started and both positions in [0, 1] |
| ToggleAnimation.PlayStepIdempotent | projects/igniteui-angular/src/lib/expansion-panel/toggle-animation-component.ts:48-51 | a second play in the same direction changes nothing |
| ToggleAnimation.ToggleAnimationComponent.constructor | projects/igniteui-angular/src/lib/expansion-panel/toggle-animation-component.ts:22-23 | both players start absent |
| ToggleAnimation.ToggleAnimationComponent.PlayOpenAnimation | projects/igniteui-angular/src/lib/expansion-panel/toggle-animation-component.ts:28-65 | the players become `PlayStep` of (open, close) and stay consistent |
| ToggleAnimation.ToggleAnimationComponent.PlayCloseAnimation | projects/igniteui-angular/src/lib/expansion-panel/toggle-animation-component.ts:67-104 | the players become `PlayStep` of (close, open), the mirror of opening, and stay consistent |
| ToggleAnimation.ToggleAnimationComponent.OpenDone | projects/igniteui-angular/src/lib/expansion-panel/toggle-animation-component.ts:42-45 | the callback installed at creation runs, then the open player is reset to not started |
| ToggleAnimation.ToggleAnimationComponent.CloseDone | projects/igniteui-angular/src/lib/expansion-panel/toggle-animation-component.ts:81-84 | the callback installed at creation runs, then the close player is reset to not started |
| GridPipes.SplitBeforeUpper | projects/igniteui-angular/src/lib/grid/grid.pipes.ts:88 | the split always has a piece, and no piece of a non-empty string is empty |
| GridPipes.SplitJoinInsertsSpaces | projects/igniteui-angular/src/lib/grid/grid.pipes.ts:88 | split before capitals then joined with ' ' equals the reference: a space before every capital after index 0 |
| GridPipes.FilterCondition | projects/igniteui-angular/src/lib/grid/grid.pipes.ts:87-89 | the pipe's output is the reference insertion of spaces |
| GridPipes.FilterConditionLength | projects/igniteui-angular/src/lib/grid/grid.pipes.ts:87-89 | the output length is the input length plus the number of capitals after index 0 |
| GridPipes.FilterConditionRoundTrip | projects/igniteui-angular/src/lib/grid/grid.pipes.ts:87-89 | deleting the spaces of the output gives the input with its spaces deleted |
| GridPipes.FilterConditionNoUpper | projects/igniteui-angular/src/lib/grid/grid.pipes.ts:87-89 | a string with no capital after index 0 is returned unchanged |
| GridPipes.SortingPipe | projects/igniteui-angular/src/lib/grid/grid.pipes.ts:17-28 | the collection itself when the grid has no sorting expressions, else the sort under the grid's expressions |
| GridPipes.PagingPipe | projects/igniteui-angular/src/lib/grid/grid.pipes.ts:39-53 | the collection itself and no recorded state when paging is off; otherwise the paged copy, with `{index, recordsPerPage}` (defaults 0 and 15) recorded on the grid |
| GridPipes.FilteringPipe | projects/igniteui-angular/src/lib/grid/grid.pipes.ts:64-78 | the collection itself when there is no tree, no operands or none at all; otherwise the filtered copy, also stored as the grid's filtered data |

## Left out

- The mask parser (`applyMask`, `replaceInMask`), the date utilities (`parseDateTimeFormat`, `parseDateFromMask`, the `spin*` helpers), Angular's `formatDate` and the grid's data utilities: these are unconstrained function parameters, and calendar carry rules are not modelled.
- The relation between a date's timestamp and its calendar fields is not modelled. A date carries both, and only `FieldsInRange` is assumed where a lemma needs it.
- `EditorFormat.ReplaceAll`: the source builds a regular expression from the prompt character. The model replaces that character literally, so a prompt character that is special in a regular expression (such as '.') is not modelled.
- `Decimal.ParseInt`: leading white space is not skipped. No string the editor parses has any.
- The key handling of the editor (`onKeyDown`, `spin`, `moveCursor`) is not modelled. It dispatches DOM key events to `Increment`, `Decrement`, `UpdateValue` with the current time, and `GetNewPosition`. The `super` calls into the mask directive, the touched and validator callbacks, and `registerOn*` are also left out.
- `DateTimeEditor.DateTimeEditorDirective.Options`: the mask directive's `maskOptions` getter is not part of this model. It is taken as the mask and the prompt character.
- `DateTimeEditor.DateTimeEditorDirective.SpinAndCommit` and `CommitTypedText`: the source calls `updateMask` once more after `updateValue`. The model leaves that second call out. `UpdateMask`'s contract shows that redrawing right after a commit changes nothing.
- `DateTimeEditor.DateTimeEditorDirective.OnBlur`: the path that reports a failed parse reads the current value's time, which throws when there is no value. The method therefore requires a value on that path.
- `DateTimeEditor.DateTimeEditorDirective.SpinValue`: spinning the AM/PM part reads that part's span in the format, which throws when the format has none. It therefore requires such a part.
- The selection service (core/selection) is not part of this model. Its `set`, `get` and `clear` are taken as writes and reads of a map from tree id to id set, and `clear` is taken to store an empty set. `get` of an id that was never registered yields `undefined` in the source, so `isNodeSelected` and a node's `selected` throw for a tree whose selection is not registered yet; `Tree.IgxTreeComponent.IsNodeSelected` and `TreeNode.IgxTreeNodeComponent.Selected` require the id to be registered and do not model that failure.
- The tree constructor calls `treeService.register(this)`, which `IgxTreeService` does not define. The call is left out.
- `TreeNode.IgxTreeNodeComponent.Toggle`: the event argument is optional in the source, and `toggle()` called without one throws when it reads `event.event`. The model takes a non-null argument, so that failure is not captured.
- `EditorFormat.*` and `GridPipes.*`: JavaScript string lengths, indices and `slice`/`substring` count UTF-16 code units, while a Dafny `char` here stands for one whole character. The two differ on characters outside the Basic Multilingual Plane: for the format "tt 😀" (five code units, four characters) the source's mask is "00 LL", the model's `MaskFromFormat` gives "00LL". Only formats and headers made of Basic Multilingual Plane characters are modelled faithfully.
- `tree.toggleNode` is not defined by the tree component. `Toggle` returns the id it would pass.
- `singleBranchExpand` and the cascading selection type are declared but no code implements them.
- Tree drag and drop, `markForCheck`, templates, `console.log` and the rxjs subscriptions are not modelled.
- `ToggleAnimation.ToggleAnimationComponent.PlayOpenAnimation` and `PlayCloseAnimation`: the optional `animationOwner` argument is not modelled, so the component is its own owner. The reverse player's position is a parameter, because it depends on elapsed time. Creating a player through the animation builder, and its `init`, `reset` and `play`, are abstracted to the player's started flag and position.
- `GridPipes.SortingPipe`, `PagingPipe`, `FilteringPipe`: the grid is passed in directly rather than looked up by id. Collections are values, so the difference between returning the input array and returning a copy is not modelled.

## Findings

| source | as written | input that shows it | evidently intended | confidence | as-written member | corrected member |
|---|---|---|---|---|---|---|
| projects/igniteui-angular/src/lib/directives/date-time-editor/date-time-editor.directive.ts:131 | when the format contains "tt" anywhere, the mask's last two characters become "LL" | input format "tt hh:mm" gives mask "00 00:LL", which puts the AM/PM slot over the minutes | "LL" where the "tt" is: "LL 00:00" | high (not executed) | EditorFormat.MaskFromFormat, EditorFormat.MaskMisplacesLeadingAmPm | EditorFormat.MaskFromFormatFixed, EditorFormat.MaskFixedPlacesLeadingAmPm |
