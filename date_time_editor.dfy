/**
 * IgxDateTimeEditorDirective: a masked text input that edits a date. The
 * directive keeps the committed value, the text of the input element and
 * the caret, and reports commits through `valueChange` and out-of-range
 * values through `validationFail`. The events are kept as logs; the
 * services it calls but that are not part of this model are parameters.
 */
module DateTimeEditor {
  import opened Base
  import opened Decimal
  import opened EditorFormat

  /** The payload of `valueChange` and `validationFail`. */
  datatype EditorEventArgs = EditorEventArgs(oldValue: Option<JsDate>, newValue: Option<JsDate>, userInput: string)

  /** The events one emission point adds to its log: `args` when the condition holds, else nothing. */
  function Emit(condition: bool, args: EditorEventArgs): (r: seq<EditorEventArgs>)
    ensures |r| <= 1
  {
    if condition then [args] else []
  }

  /**
   * The directive's emissions: the events of its `valueChange` and
   * `validationFail` outputs, and the values passed to the form-control
   * change callback, each in order.
   */
  class EditorOutputs {
    var valueChange: seq<EditorEventArgs>
    var validationFail: seq<EditorEventArgs>
    var changeCallback: seq<Option<JsDate>>

    constructor()
      ensures valueChange == [] && validationFail == [] && changeCallback == []
    {
      valueChange := [];
      validationFail := [];
      changeCallback := [];
    }

    /** One `updateValue` round: the change callback always, the two events as given. */
    method Record(committed: Option<JsDate>, fails: seq<EditorEventArgs>, changes: seq<EditorEventArgs>)
      modifies this
      ensures changeCallback == old(changeCallback) + [committed]
      ensures validationFail == old(validationFail) + fails
      ensures valueChange == old(valueChange) + changes
    {
      changeCallback, validationFail, valueChange := changeCallback + [committed], validationFail + fails, valueChange + changes;
    }
  }

  /**
   * The functions the directive calls whose code is not part of this model:
   * the mask parser (`applyMask`, `replaceInMask(...).value`), the date
   * utilities (`parseDateTimeFormat`, `parseDateFromMask`, the `spin*`
   * helpers) and Angular's `formatDate(value, format, locale)`.
   */
  datatype Collaborators = Collaborators(
    applyMask: (string, MaskOptions) -> string,
    replaceInMask: (string, string, MaskOptions, int, int) -> string,
    parseDateTimeFormat: string -> seq<DatePartInfo>,
    parseDateFromMask: (string, seq<DatePartInfo>) -> Option<JsDate>,
    formatDate: (JsDate, string, string) -> string,
    spinDate: (int, JsDate, bool) -> JsDate,
    spinMonth: (int, JsDate, bool) -> JsDate,
    spinYear: (int, JsDate) -> JsDate,
    spinHours: (int, JsDate, bool) -> JsDate,
    spinMinutes: (int, JsDate, bool) -> JsDate,
    spinSeconds: (int, JsDate, bool) -> JsDate,
    spinAmPm: (JsDate, JsDate, string) -> JsDate)

  class DateTimeEditorDirective {
    const services: Collaborators

    // Inputs of the directive.
    var locale: string
    var minValue: Bound
    var maxValue: Bound
    var isSpinLoop: bool
    /** The display format; "" when it is not set. */
    var displayFormat: string
    /** The input format (`_format`). */
    var format: string

    // State inherited from the mask directive and the input element.
    var mask: string
    var promptChar: char
    var placeholder: string
    var inputValue: string
    var selectionStart: nat
    var selectionEnd: nat
    /** Whether the document's active element is this input. */
    var isActiveElement: bool

    // The directive's own state.
    var value: Option<JsDate>
    var oldValue: Option<JsDate>
    var isFocused: bool
    var inputDateParts: seq<DatePartInfo>

    /** Where the directive's emissions are recorded. */
    const outputs: EditorOutputs

    /** A fresh directive: spin loop on, no value, no format, the injected locale. */
    constructor(services: Collaborators, injectedLocale: string, promptChar: char)
      ensures this.services == services && locale == injectedLocale && this.promptChar == promptChar
      ensures isSpinLoop && value.None? && oldValue.None? && !isFocused
      ensures format == "" && displayFormat == "" && mask == "" && inputDateParts == []
      ensures minValue.Unset? && maxValue.Unset?
      ensures inputValue == "" && placeholder == "" && selectionStart == 0 && selectionEnd == 0
      ensures fresh(outputs) && outputs.valueChange == [] && outputs.validationFail == [] && outputs.changeCallback == []
    {
      this.services := services;
      locale := injectedLocale;
      this.promptChar := promptChar;
      isSpinLoop := true;
      value := None;
      oldValue := None;
      isFocused := false;
      format := "";
      displayFormat := "";
      mask := "";
      inputDateParts := [];
      minValue := Unset;
      maxValue := Unset;
      inputValue := "";
      placeholder := "";
      selectionStart := 0;
      selectionEnd := 0;
      isActiveElement := false;
      outputs := new EditorOutputs();
    }

    // -------------------------------------------------------------------
    // Derived values
    // -------------------------------------------------------------------

    function Options(): MaskOptions
      reads this`mask, this`promptChar
    {
      MaskOptions(mask, promptChar)
    }

    /** `emptyMask`: the input format run through the mask parser. */
    function EmptyMask(): string
      reads this`format, this`mask, this`promptChar
    {
      services.applyMask(format, Options())
    }

    /** `parseDate(text)`: null for the empty string, else the mask parser's reading. */
    function ParseDate(text: string): (r: Option<JsDate>)
      reads this`inputDateParts
      ensures text == "" ==> r.None?
    {
      if text == "" then None else services.parseDateFromMask(text, inputDateParts)
    }

    /** A bound as a date: a `Date` as it is, a string parsed against the input format. */
    function BoundAsDate(b: Bound): (r: Option<JsDate>)
      reads this`inputDateParts
      ensures !BoundIsSet(b) ==> r.None?
      ensures b.DateBound? ==> r == Some(b.date)
    {
      match b
      case Unset => None
      case DateBound(d) => Some(d)
      case TextBound(t) => ParseDate(t)
    }

    /** `valueInRange(v)` against the current bounds. */
    function InRange(v: Option<JsDate>): (r: bool)
      reads this`minValue, this`maxValue, this`inputDateParts
      ensures v.None? ==> !r
      ensures !BoundIsSet(minValue) && !BoundIsSet(maxValue) ==> !r
      ensures v.Some? && minValue.DateBound? && maxValue.DateBound? ==>
        (r <==> TimeLe(minValue.date, v.value) && TimeLe(v.value, maxValue.date))
    {
      ValueInRange(v, BoundAsDate(minValue), BoundAsDate(maxValue))
    }

    /**
     * `validate(control)`: no error exactly when no bound is set or the
     * value is in range; the `maxValue` key only when no minimum is set.
     */
    function Validate(controlValue: Option<JsDate>): (r: Option<ValidationError>)
      reads this`minValue, this`maxValue, this`inputDateParts
      ensures r.None? <==> (!BoundIsSet(minValue) && !BoundIsSet(maxValue)) || InRange(controlValue)
      ensures r == Some(MaxValueError) ==> !BoundIsSet(minValue) && BoundIsSet(maxValue)
    {
      ValidateBounds(controlValue, minValue, maxValue, BoundAsDate(minValue), BoundAsDate(maxValue))
    }

    /**
     * The text `updateMask` puts in the input: the empty mask without a
     * valid value; while focused, every part of the value spliced into the
     * empty mask; otherwise the value formatted with the display format (or
     * the input format), its first "tt" read as "aa".
     */
    function MaskText(): (r: string)
      reads this`value, this`isFocused, this`format, this`mask, this`promptChar,
            this`inputDateParts, this`displayFormat, this`locale
      ensures !IsValidDate(value) ==> r == EmptyMask()
      ensures IsValidDate(value) && isFocused && (forall i :: 0 <= i < |inputDateParts| ==> inputDateParts[i].kind == Literal) ==>
        r == EmptyMask()
    {
      if !IsValidDate(value) then EmptyMask()
      else if isFocused then RenderParts(EmptyMask(), inputDateParts, value.value.fields, Options(), services.replaceInMask)
      else
        var shown := if displayFormat != "" then displayFormat else format;
        services.formatDate(value.value, ReplaceFirstTT(shown), locale)
    }

    /** `targetDatePart`. */
    function Target(): (r: Option<DatePart>)
      reads this`inputDateParts, this`isActiveElement, this`selectionStart
      ensures r != Some(Literal)
      ensures r == Some(AmPm) ==> HasKind(inputDateParts, AmPm)
    {
      var r := TargetDatePart(inputDateParts, isActiveElement, selectionStart);
      assert r == Some(AmPm) ==> HasKind(inputDateParts, AmPm);
      r
    }

    /**
     * `spinValue(datePart, delta)`: null without a valid value or for a
     * literal; otherwise the date helper for the part applied to a copy of
     * the value. The AM/PM helper reads the marker shown in the input and
     * ignores the delta.
     */
    function SpinValue(kind: DatePart, delta: int): (r: Option<JsDate>)
      reads this`value, this`inputDateParts, this`isSpinLoop, this`inputValue
      requires kind == AmPm && IsValidDate(value) ==> HasKind(inputDateParts, AmPm)
      ensures r.Some? <==> IsValidDate(value) && kind != Literal
    {
      if !IsValidDate(value) then None
      else
        var d := value.value;
        match kind
        case Date => Some(services.spinDate(delta, d, isSpinLoop))
        case Month => Some(services.spinMonth(delta, d, isSpinLoop))
        case Year => Some(services.spinYear(delta, d))
        case Hours => Some(services.spinHours(delta, d, isSpinLoop))
        case Minutes => Some(services.spinMinutes(delta, d, isSpinLoop))
        case Seconds => Some(services.spinSeconds(delta, d, isSpinLoop))
        case AmPm =>
          var part := inputDateParts[FirstOfKind(inputDateParts, AmPm)];
          Some(services.spinAmPm(d, value.value, Substring(inputValue, part.start, part.end)))
        case Literal => None
    }

    // -------------------------------------------------------------------
    // Operations
    // -------------------------------------------------------------------

    /**
     * The `inputFormat` setter: a non-empty format replaces the old one; the
     * mask is the format with word characters read as '0' and, when the
     * format holds "tt" anywhere, its last two characters read as "LL"
     * (`MaskFromFormat`, as the setter computes it).
     */
    method SetInputFormat(newFormat: string)
      modifies this`format, this`mask
      ensures format == if newFormat != "" then newFormat else old(format)
      ensures mask == if newFormat != "" then MaskFromFormat(newFormat) else ZeroWordChars(old(format))
      ensures |mask| == |format|
    {
      if newFormat != "" {
        format := newFormat;
      }
      mask := if newFormat != "" then MaskFromFormat(newFormat) else ZeroWordChars(format);
    }

    /**
     * `updateMask`: the input shows `MaskText()`; while focused the caret is
     * kept at the old selection end. Redrawing text that is already up to
     * date, with the caret collapsed, changes nothing.
     */
    method UpdateMask()
      modifies this`inputValue, this`selectionStart, this`selectionEnd
      ensures inputValue == MaskText()
      ensures selectionEnd == old(selectionEnd)
      ensures selectionStart == if IsValidDate(value) && isFocused then old(selectionEnd) else old(selectionStart)
      ensures IsValidDate(value) && isFocused && ReplaceKeepsLength(services.replaceInMask) ==>
        |inputValue| == |EmptyMask()|
      ensures old(inputValue) == old(MaskText()) &&
              (IsValidDate(value) && isFocused ==> old(selectionStart) == old(selectionEnd)) ==>
              unchanged(this)
    {
      if !IsValidDate(value) {
        inputValue := EmptyMask();
        return;
      }
      if isFocused {
        var cursor := selectionEnd;
        var text := RenderMask(EmptyMask(), inputDateParts, value.value.fields, Options(), services.replaceInMask);
        inputValue := text;
        selectionStart, selectionEnd := cursor, cursor;
        if ReplaceKeepsLength(services.replaceInMask) {
          RenderPartsLength(EmptyMask(), inputDateParts, value.value.fields, Options(), services.replaceInMask);
        }
      } else {
        var shown := if displayFormat != "" then displayFormat else format;
        inputValue := services.formatDate(value.value, ReplaceFirstTT(shown), locale);
      }
    }

    /** The `value` setter (and `writeValue`): store the value and redraw. */
    method SetValue(v: Option<JsDate>)
      modifies this`value, this`inputValue, this`selectionStart, this`selectionEnd
      ensures value == v && inputValue == MaskText()
      ensures selectionEnd == old(selectionEnd)
      ensures selectionStart == if IsValidDate(v) && isFocused then old(selectionEnd) else old(selectionStart)
    {
      value := v;
      UpdateMask();
    }

    /**
     * `ngOnChanges` for a new input format or locale: parse the format into
     * parts, set the input format to the parts joined back, default the
     * placeholder to it, redraw.
     */
    method OnFormatChanged()
      modifies this`inputDateParts, this`format, this`mask, this`placeholder,
               this`inputValue, this`selectionStart, this`selectionEnd
      ensures inputDateParts == services.parseDateTimeFormat(old(format))
      ensures format == (var joined := JoinFormats(inputDateParts); if joined != "" then joined else old(format))
      ensures mask == (var joined := JoinFormats(inputDateParts);
                       if joined != "" then MaskFromFormat(joined) else ZeroWordChars(old(format)))
      ensures |mask| == |format|
      ensures placeholder == if old(placeholder) == "" then format else old(placeholder)
      ensures inputValue == MaskText()
    {
      inputDateParts := services.parseDateTimeFormat(format);
      SetInputFormat(JoinFormats(inputDateParts));
      if placeholder == "" {
        placeholder := format;
      }
      UpdateMask();
    }

    /**
     * `updateValue(newDate)`: commit the value and redraw, pass it to the
     * change callback, report it through `validationFail` when out of range
     * and through `valueChange` when the text is complete or empty.
     */
    method UpdateValue(newDate: Option<JsDate>)
      modifies this`value, this`oldValue, this`inputValue, this`selectionStart, this`selectionEnd,
               outputs
      ensures value == newDate && oldValue == old(value)
      ensures inputValue == MaskText()
      ensures selectionEnd == old(selectionEnd)
      ensures selectionStart == if IsValidDate(newDate) && isFocused then old(selectionEnd) else old(selectionStart)
      ensures outputs.changeCallback == old(outputs.changeCallback) + [newDate]
      ensures outputs.validationFail == old(outputs.validationFail) +
        Emit(!InRange(newDate), EditorEventArgs(old(value), newDate, inputValue))
      ensures outputs.valueChange == old(outputs.valueChange) +
        Emit(InputIsComplete(inputValue, promptChar) || inputValue == EmptyMask(),
             EditorEventArgs(old(value), newDate, inputValue))
    {
      var previous := value;
      SetValue(newDate);
      var args := EditorEventArgs(previous, newDate, inputValue);
      var fails := Emit(!InRange(newDate), args);
      var changes := Emit(InputIsComplete(inputValue, promptChar) || inputValue == EmptyMask(), args);
      oldValue := previous;
      outputs.Record(newDate, fails, changes);
    }

    /**
     * `clear`: commit null. The input shows the empty mask, and since null
     * is never in range both `validationFail` and `valueChange` fire.
     */
    method Clear()
      modifies this`value, this`oldValue, this`inputValue, this`selectionStart, this`selectionEnd,
               outputs
      ensures value.None? && oldValue == old(value) && inputValue == EmptyMask()
      ensures outputs.changeCallback == old(outputs.changeCallback) + [None]
      ensures outputs.validationFail == old(outputs.validationFail) + [EditorEventArgs(old(value), None, EmptyMask())]
      ensures outputs.valueChange == old(outputs.valueChange) + [EditorEventArgs(old(value), None, EmptyMask())]
    {
      UpdateValue(None);
      UpdateMask();
    }

    /**
     * What `increment` and `decrement` share: nothing happens when no part
     * is targeted; otherwise the given part (or the targeted one) is spun
     * and the result committed, falling back to the current time `now`
     * when there is nothing to spin. The source calls `updateMask` once
     * more after committing; committing already leaves the text up to date
     * and the caret collapsed, so by `UpdateMask`'s last postcondition that
     * redraw changes nothing and is not repeated here.
     */
    method SpinAndCommit(datePart: Option<DatePart>, delta: int, now: JsDate)
      requires datePart == Some(AmPm) && IsValidDate(value) && Target().Some? ==> HasKind(inputDateParts, AmPm)
      modifies this`value, this`oldValue, this`inputValue, this`selectionStart, this`selectionEnd,
               outputs
      ensures old(Target()).None? ==> unchanged(this, outputs)
      ensures old(Target()).Some? ==>
        var kind := if datePart.Some? then datePart.value else old(Target()).value;
        var spun := old(SpinValue(kind, delta));
        value == (if spun.Some? then spun else Some(now))
      ensures old(Target()).Some? ==> oldValue == old(value) && inputValue == MaskText()
      ensures old(Target()).Some? ==> outputs.changeCallback == old(outputs.changeCallback) + [value]
      ensures old(Target()).Some? ==>
        outputs.validationFail == old(outputs.validationFail) +
          Emit(!InRange(value), EditorEventArgs(old(value), value, inputValue))
      ensures old(Target()).Some? ==>
        outputs.valueChange == old(outputs.valueChange) +
          Emit(InputIsComplete(inputValue, promptChar) || inputValue == EmptyMask(),
               EditorEventArgs(old(value), value, inputValue))
    {
      var target := Target();
      if target.None? {
        return;
      }
      var kind := if datePart.Some? then datePart.value else target.value;
      var spun := SpinValue(kind, delta);
      UpdateValue(if spun.Some? then spun else Some(now));
    }

    /** `increment(datePart)`: spin by +1. */
    method Increment(datePart: Option<DatePart>, now: JsDate)
      requires datePart == Some(AmPm) && IsValidDate(value) && Target().Some? ==> HasKind(inputDateParts, AmPm)
      modifies this`value, this`oldValue, this`inputValue, this`selectionStart, this`selectionEnd,
               outputs
      ensures old(Target()).None? ==> unchanged(this, outputs)
      ensures old(Target()).Some? ==>
        var kind := if datePart.Some? then datePart.value else old(Target()).value;
        var spun := old(SpinValue(kind, 1));
        value == (if spun.Some? then spun else Some(now))
      ensures old(Target()).Some? ==> oldValue == old(value) && inputValue == MaskText()
      ensures old(Target()).Some? ==> outputs.changeCallback == old(outputs.changeCallback) + [value]
      ensures old(Target()).Some? ==>
        outputs.validationFail == old(outputs.validationFail) +
          Emit(!InRange(value), EditorEventArgs(old(value), value, inputValue))
      ensures old(Target()).Some? ==>
        outputs.valueChange == old(outputs.valueChange) +
          Emit(InputIsComplete(inputValue, promptChar) || inputValue == EmptyMask(),
               EditorEventArgs(old(value), value, inputValue))
    {
      SpinAndCommit(datePart, 1, now);
    }

    /** `decrement(datePart)`: spin by -1. */
    method Decrement(datePart: Option<DatePart>, now: JsDate)
      requires datePart == Some(AmPm) && IsValidDate(value) && Target().Some? ==> HasKind(inputDateParts, AmPm)
      modifies this`value, this`oldValue, this`inputValue, this`selectionStart, this`selectionEnd,
               outputs
      ensures old(Target()).None? ==> unchanged(this, outputs)
      ensures old(Target()).Some? ==>
        var kind := if datePart.Some? then datePart.value else old(Target()).value;
        var spun := old(SpinValue(kind, -1));
        value == (if spun.Some? then spun else Some(now))
      ensures old(Target()).Some? ==> oldValue == old(value) && inputValue == MaskText()
      ensures old(Target()).Some? ==> outputs.changeCallback == old(outputs.changeCallback) + [value]
      ensures old(Target()).Some? ==>
        outputs.validationFail == old(outputs.validationFail) +
          Emit(!InRange(value), EditorEventArgs(old(value), value, inputValue))
      ensures old(Target()).Some? ==>
        outputs.valueChange == old(outputs.valueChange) +
          Emit(InputIsComplete(inputValue, promptChar) || inputValue == EmptyMask(),
               EditorEventArgs(old(value), value, inputValue))
    {
      SpinAndCommit(datePart, -1, now);
    }

    /** `onFocus`: the editing view of the value, caret kept. */
    method OnFocus()
      modifies this`isFocused, this`inputValue, this`selectionStart, this`selectionEnd
      ensures isFocused && inputValue == MaskText()
      ensures selectionEnd == old(selectionEnd)
      ensures selectionStart == if IsValidDate(value) then old(selectionEnd) else old(selectionStart)
    {
      isFocused := true;
      UpdateMask();
    }

    /**
     * `onBlur`: an untouched mask commits null and empties the input; any
     * other text is committed by `CommitTypedText`.
     */
    method OnBlur(listener: EditorEventArgs -> Option<JsDate>)
      requires inputValue == EmptyMask() || IsValidDate(ParseDate(inputValue)) || value.Some?
      modifies this`isFocused, this`value, this`oldValue, this`inputValue, this`selectionStart, this`selectionEnd,
               outputs
      ensures !isFocused && oldValue == old(value)
      ensures outputs.changeCallback == old(outputs.changeCallback) + [value]
      ensures old(inputValue) == EmptyMask() ==>
        value.None? && inputValue == "" &&
        outputs.validationFail == old(outputs.validationFail) + [EditorEventArgs(old(value), None, EmptyMask())] &&
        outputs.valueChange == old(outputs.valueChange) + [EditorEventArgs(old(value), None, EmptyMask())]
      ensures old(inputValue) != EmptyMask() ==> inputValue == MaskText()
      ensures old(inputValue) != EmptyMask() && IsValidDate(old(ParseDate(inputValue))) ==>
        value == old(ParseDate(inputValue))
      ensures old(inputValue) != EmptyMask() && !IsValidDate(old(ParseDate(inputValue))) ==>
        var replaced := listener(EditorEventArgs(old(value), old(ParseDate(inputValue)), old(inputValue)));
        value == (if replaced.Some? && TimeDiffers(replaced.value, old(value).value) then replaced else None)
      ensures old(inputValue) != EmptyMask() ==>
        outputs.validationFail == old(outputs.validationFail) +
          Emit(!IsValidDate(old(ParseDate(inputValue))),
               EditorEventArgs(old(value), old(ParseDate(inputValue)), old(inputValue))) +
          Emit(!InRange(value), EditorEventArgs(old(value), value, inputValue))
      ensures old(inputValue) != EmptyMask() ==>
        outputs.valueChange == old(outputs.valueChange) +
          Emit(InputIsComplete(inputValue, promptChar) || inputValue == EmptyMask(),
               EditorEventArgs(old(value), value, inputValue))
    {
      isFocused := false;
      if inputValue == EmptyMask() {
        UpdateValue(None);
        inputValue := "";
        return;
      }
      CommitTypedText(listener);
    }

    /**
     * The rest of `onBlur`: text that parses to a valid date commits it;
     * anything else is reported through `validationFail`, whose listeners
     * (`listener`) may replace the new value: a replacement whose time
     * differs from the old value is committed, otherwise null. The source
     * dereferences the current value on that last path, so it needs one.
     * The closing `updateMask` of the source is not repeated: the commit
     * has already redrawn, and `UpdateMask` shows a second redraw is a no-op.
     */
    method CommitTypedText(listener: EditorEventArgs -> Option<JsDate>)
      requires !isFocused && (IsValidDate(ParseDate(inputValue)) || value.Some?)
      modifies this`value, this`oldValue, this`inputValue, this`selectionStart, this`selectionEnd,
               outputs
      ensures oldValue == old(value) && inputValue == MaskText()
      ensures outputs.changeCallback == old(outputs.changeCallback) + [value]
      ensures IsValidDate(old(ParseDate(inputValue))) ==> value == old(ParseDate(inputValue))
      ensures !IsValidDate(old(ParseDate(inputValue))) ==>
        var replaced := listener(EditorEventArgs(old(value), old(ParseDate(inputValue)), old(inputValue)));
        value == (if replaced.Some? && TimeDiffers(replaced.value, old(value).value) then replaced else None)
      ensures outputs.validationFail == old(outputs.validationFail) +
        Emit(!IsValidDate(old(ParseDate(inputValue))),
             EditorEventArgs(old(value), old(ParseDate(inputValue)), old(inputValue))) +
        Emit(!InRange(value), EditorEventArgs(old(value), value, inputValue))
      ensures outputs.valueChange == old(outputs.valueChange) +
        Emit(InputIsComplete(inputValue, promptChar) || inputValue == EmptyMask(),
             EditorEventArgs(old(value), value, inputValue))
    {
      var parsed := ParseDate(inputValue);
      var commit := parsed;
      if !IsValidDate(parsed) {
        var previous := value.value;
        var args := EditorEventArgs(Some(previous), parsed, inputValue);
        outputs.validationFail := outputs.validationFail + [args];
        var replaced := listener(args);
        commit := if replaced.Some? && TimeDiffers(replaced.value, previous) then replaced else None;
      }
      UpdateValue(commit);
    }

    /**
     * `getNewPosition(text, direction)`: direction 0 moves the caret left to
     * the end of the previous literal (or 0), any other direction right to
     * the start of the next literal (or past the text's end).
     */
    method GetNewPosition(text: string, direction: int) returns (pos: nat)
      ensures direction == 0 ==>
        pos <= selectionStart && (selectionStart > 0 ==> pos < selectionStart) &&
        (pos == 0 || IsLiteralEnd(inputDateParts, pos)) &&
        forall p :: pos < p < selectionStart ==> !IsLiteralEnd(inputDateParts, p)
      ensures direction != 0 ==>
        pos > selectionStart && (IsLiteralStart(inputDateParts, pos) || pos >= |text|) &&
        (pos == selectionStart + 1 || pos <= |text|) &&
        forall p :: selectionStart < p < pos ==> !IsLiteralStart(inputDateParts, p)
    {
      if direction == 0 {
        pos := NewPositionLeft(inputDateParts, selectionStart);
      } else {
        pos := NewPositionRight(inputDateParts, selectionStart, |text|);
      }
    }
  }
}
