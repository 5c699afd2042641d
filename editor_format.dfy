/**
 * The expression-level logic of the masked date/time editor
 * (IgxDateTimeEditorDirective): the mask derived from the input format,
 * the text rendered into each date part, the part the caret targets,
 * range checking and the caret jumps to literal boundaries.
 */
module EditorFormat {
  import opened Base
  import opened Decimal

  /** Kind of one field of the input format. */
  datatype DatePart = Date | Month | Year | Hours | Minutes | Seconds | AmPm | Literal

  /** One field of the parsed input format: its kind, its span in the mask and its format text. */
  datatype DatePartInfo = DatePartInfo(kind: DatePart, start: int, end: int, format: string)

  /**
   * The calendar fields a JavaScript `Date` reports: `getFullYear()`,
   * `getMonth()` (0-based), `getDate()`, `getHours()`, `getMinutes()`, `getSeconds()`.
   */
  datatype DateFields = DateFields(year: int, month: int, date: int, hours: int, minutes: int, seconds: int)

  /** A JavaScript `Date` object: a timestamp with its fields, or an invalid date (`getTime()` is NaN). */
  datatype JsDate = ValidDate(time: int, fields: DateFields) | InvalidDate

  /** The ranges JavaScript guarantees for the fields of a valid date. */
  predicate FieldsInRange(f: DateFields) {
    0 <= f.month <= 11 && 1 <= f.date <= 31 && 0 <= f.hours <= 23 &&
    0 <= f.minutes <= 59 && 0 <= f.seconds <= 59
  }

  /** `isValidDate`: a date object whose `getTime()` is a number. */
  predicate IsValidDate(d: Option<JsDate>) {
    d.Some? && d.value.ValidDate?
  }

  /** The options the mask parser receives: the mask and the prompt character. */
  datatype MaskOptions = MaskOptions(format: string, promptChar: char)

  // ---------------------------------------------------------------------
  // The mask derived from the input format (the `inputFormat` setter)
  // ---------------------------------------------------------------------

  /** A character matched by the regular expression `\w`. */
  predicate IsWordChar(c: char) {
    'a' <= c <= 'z' || 'A' <= c <= 'Z' || '0' <= c <= '9' || c == '_'
  }

  /** `format.replace(/\w/g, '0')`. */
  function ZeroWordChars(format: string): (mask: string)
    ensures |mask| == |format|
    ensures forall i :: 0 <= i < |format| ==>
      mask[i] == if IsWordChar(format[i]) then '0' else format[i]
  {
    if format == [] then []
    else
      var last := format[|format| - 1];
      ZeroWordChars(format[..|format| - 1]) + [if IsWordChar(last) then '0' else last]
  }

  predicate HasTTAt(s: string, j: int) {
    0 <= j && j + 1 < |s| && s[j] == 't' && s[j + 1] == 't'
  }

  /** `s.indexOf('tt')`, with `None` for -1. */
  function IndexOfTT(s: string): (k: Option<nat>)
    ensures k.Some? ==> HasTTAt(s, k.value)
    ensures k.Some? ==> forall j :: 0 <= j < k.value ==> !HasTTAt(s, j)
    ensures k.None? ==> forall j :: 0 <= j < |s| ==> !HasTTAt(s, j)
  {
    if |s| < 2 then None
    else if s[0] == 't' && s[1] == 't' then Some(0)
    else
      assert forall j :: 1 <= j < |s| ==> (HasTTAt(s, j) <==> HasTTAt(s[1..], j - 1));
      match IndexOfTT(s[1..])
      case None => None
      case Some(j) => Some(j + 1)
  }

  /**
   * The mask the `inputFormat` setter derives, as written: every word
   * character becomes the digit slot '0', and when the format contains
   * "tt" anywhere the LAST two characters become the letter slots "LL".
   */
  function MaskFromFormat(format: string): (mask: string)
    ensures |mask| == |format|
    ensures IndexOfTT(format).None? ==> mask == ZeroWordChars(format)
    ensures IndexOfTT(format).Some? ==>
      mask[|format| - 2..] == "LL" &&
      forall i :: 0 <= i < |format| - 2 ==>
        mask[i] == if IsWordChar(format[i]) then '0' else format[i]
  {
    var zeroed := ZeroWordChars(format);
    if IndexOfTT(format).Some? then zeroed[..|zeroed| - 2] + "LL" else zeroed
  }

  /**
   * The mask the setter evidently intends: the letter slots "LL" stand
   * where the AM/PM run "tt" stands in the format.
   */
  function MaskFromFormatFixed(format: string): (mask: string)
    ensures |mask| == |format|
    ensures IndexOfTT(format).None? ==> mask == ZeroWordChars(format)
    ensures IndexOfTT(format).Some? ==>
      var k := IndexOfTT(format).value;
      mask[k..k + 2] == "LL" &&
      forall i :: 0 <= i < |format| && (i < k || k + 2 <= i) ==>
        mask[i] == if IsWordChar(format[i]) then '0' else format[i]
  {
    var zeroed := ZeroWordChars(format);
    match IndexOfTT(format)
    case None => zeroed
    case Some(k) => zeroed[..k] + "LL" + zeroed[k + 2..]
  }

  /** When "tt" occurs only as the format's last two characters, the two masks agree. */
  lemma MasksAgreeWhenAmPmTrails(format: string)
    requires IndexOfTT(format) == Some(|format| - 2)
    ensures MaskFromFormat(format) == MaskFromFormatFixed(format)
  {
    var a, b := MaskFromFormat(format), MaskFromFormatFixed(format);
    assert |a| == |b|;
    forall i | 0 <= i < |a| ensures a[i] == b[i] {
      if i >= |format| - 2 {
        assert a[i] == a[|format| - 2..][i - (|format| - 2)];
        assert b[i] == b[|format| - 2..|format|][i - (|format| - 2)];
      }
    }
  }

  /** A format whose AM/PM run comes first: the code puts the letter slots on the minutes. */
  lemma MaskMisplacesLeadingAmPm()
    ensures MaskFromFormat("tt hh:mm") == "00 00:LL"
  {
    SampleFormatZeroed();
    var z := ZeroWordChars("tt hh:mm");
    assert z[..6] == "00 00:";
  }

  /** For the same format the corrected mask puts the letter slots first. */
  lemma MaskFixedPlacesLeadingAmPm()
    ensures MaskFromFormatFixed("tt hh:mm") == "LL 00:00"
  {
    SampleFormatZeroed();
    var z := ZeroWordChars("tt hh:mm");
    assert z[2..] == " 00:00";
  }

  /** The sample format "tt hh:mm", zeroed; its first "tt" is at index 0. */
  lemma SampleFormatZeroed()
    ensures ZeroWordChars("tt hh:mm") == "00 00:00"
    ensures IndexOfTT("tt hh:mm") == Some(0)
  {
    var f := "tt hh:mm";
    var z := ZeroWordChars(f);
    assert IsWordChar(f[0]) && IsWordChar(f[1]) && !IsWordChar(f[2]) && IsWordChar(f[3]);
    assert IsWordChar(f[4]) && !IsWordChar(f[5]) && IsWordChar(f[6]) && IsWordChar(f[7]);
    assert HasTTAt(f, 0);
  }

  // ---------------------------------------------------------------------
  // JavaScript string operations used by the editor
  // ---------------------------------------------------------------------

  /** `s.slice(-k)` for `k >= 0`: the last `k` characters; `slice(-0)` is the whole string. */
  function SliceFromEnd(s: string, k: nat): (r: string)
    ensures |r| == if k == 0 || k >= |s| then |s| else k
    ensures s == s[..|s| - |r|] + r
  {
    if k == 0 || k >= |s| then s else s[|s| - k..]
  }

  /** For `k == 0` or `k >= |s|` the slice is the whole string. */
  lemma SliceFromEndWhole(s: string, k: nat)
    requires k == 0 || k >= |s|
    ensures SliceFromEnd(s, k) == s
  {
    var r := SliceFromEnd(s, k);
    assert s[..|s| - |r|] == [];
  }

  /** For `0 < k < |s|` the slice is the suffix of length `k`. */
  lemma SliceFromEndSuffix(s: string, k: nat)
    requires 0 < k < |s|
    ensures SliceFromEnd(s, k) == s[|s| - k..]
  {
    var r := SliceFromEnd(s, k);
    assert s[|s| - k..] == (s[..|s| - k] + r)[|s| - k..];
  }

  /** `s.substring(a, b)`: both ends clamped to the string and swapped when reversed. */
  function Substring(s: string, a: int, b: int): (r: string)
    ensures |r| <= |s|
    ensures 0 <= a <= b <= |s| ==> r == s[a..b]
    ensures 0 <= b <= a <= |s| ==> r == s[b..a]
    ensures (a <= 0 && b <= 0) || (a >= |s| && b >= |s|) ==> r == ""
    ensures 0 <= a <= |s| < b || 0 <= b <= |s| < a ==> r == s[if a < b then a else b..]
    ensures a < 0 <= b <= |s| ==> r == s[..b]
    ensures b < 0 <= a <= |s| ==> r == s[..a]
    ensures (a < 0 && b > |s|) || (b < 0 && a > |s|) ==> r == s
  {
    var lo := if a < 0 then 0 else if a > |s| then |s| else a;
    var hi := if b < 0 then 0 else if b > |s| then |s| else b;
    if lo <= hi then s[lo..hi] else s[hi..lo]
  }

  /** `s.replace(new RegExp(c, 'g'), d)` for a prompt character `c` read literally. */
  function ReplaceAll(s: string, c: char, d: char): (r: string)
    ensures |r| == |s|
    ensures forall i :: 0 <= i < |s| ==> r[i] == if s[i] == c then d else s[i]
  {
    if s == [] then [] else ReplaceAll(s[..|s| - 1], c, d) + [if s[|s| - 1] == c then d else s[|s| - 1]]
  }

  /** `s.replace("tt", "aa")`: only the first occurrence is replaced. */
  function ReplaceFirstTT(s: string): (r: string)
    ensures |r| == |s|
    ensures IndexOfTT(s).None? ==> r == s
    ensures IndexOfTT(s).Some? ==>
      var k := IndexOfTT(s).value;
      r[k..k + 2] == "aa" && forall i :: 0 <= i < |s| && (i < k || k + 2 <= i) ==> r[i] == s[i]
  {
    match IndexOfTT(s)
    case None => s
    case Some(k) => s[..k] + "aa" + s[k + 2..]
  }

  /** `inputIsComplete`: no prompt character is left in the text. */
  function InputIsComplete(text: string, promptChar: char): (r: bool)
    ensures r <==> forall i :: 0 <= i < |text| ==> text[i] != promptChar
  {
    promptChar !in text
  }

  // ---------------------------------------------------------------------
  // Rendering a value into the parts of the mask (`updateMask`)
  // ---------------------------------------------------------------------

  /**
   * `prependValue(value, partLength, prependChar)`: one copy of the pad
   * character in front of the number, then the last `partLength` characters.
   */
  function PrependValue(value: Num, partLength: nat, prependChar: char): (r: string)
    ensures partLength > 0 ==> |r| <= partLength
    ensures |r| == if partLength == 0 || partLength > |NumToString(value)| then 1 + |NumToString(value)| else partLength
  {
    SliceFromEnd([prependChar] + NumToString(value), partLength)
  }

  /** The 12-hour clock applied by `toTwelveHourFormat` to a parsed hour. */
  function TwelveHour(hour: Num): (r: Num)
    ensures hour.Num? && 0 <= hour.n <= 23 ==>
      r.Num? && 1 <= r.n <= 12 && r.n % 12 == hour.n % 12 && (r.n == hour.n <==> 1 <= hour.n <= 12)
    ensures hour.NaN? ==> r.NaN?
  {
    match hour
    case NaN => NaN
    case Num(h) => if h > 12 then Num(h - 12) else if h == 0 then Num(12) else Num(h)
  }

  /** `toTwelveHourFormat(value)`: prompt characters read as '0', then the 12-hour clock. */
  function ToTwelveHourFormat(value: string, promptChar: char): (r: Num)
    ensures var h := ParseInt(ReplaceAll(value, promptChar, '0'));
      (h.NaN? ==> r.NaN?) &&
      (h.Num? && 0 <= h.n <= 23 ==> r.Num? && 1 <= r.n <= 12 && r.n % 12 == h.n % 12)
  {
    TwelveHour(ParseInt(ReplaceAll(value, promptChar, '0')))
  }

  /** The field of a date a numeric part shows. */
  function FieldOf(kind: DatePart, f: DateFields): int {
    match kind
    case Date => f.date
    case Month => f.month
    case Year => f.year
    case Hours => f.hours
    case Minutes => f.minutes
    case Seconds => f.seconds
    case _ => 0
  }

  /**
   * `getPartValue(datePart, partLength)`; never asked for a literal. The
   * AM/PM part shows "PM" from noon on; a numeric part is its field padded,
   * never longer than the part, and exactly two digits in a 2-wide part.
   */
  function GetPartValue(kind: DatePart, partLength: nat, f: DateFields): (r: string)
    requires kind != Literal
    ensures kind == AmPm ==> (r == "PM" <==> f.hours >= 12) && (r == "AM" <==> f.hours < 12)
    ensures kind != AmPm && partLength > 0 ==> |r| <= partLength
    ensures kind != AmPm && partLength == 2 && 0 <= FieldOf(kind, f) < 100 ==> r == TwoDigits(FieldOf(kind, f))
  {
    var r := match kind
      case Date => PrependValue(Num(f.date), partLength, '0')
      case Month => PrependValue(Num(f.month), partLength, '0')
      case Year => PrependValue(Num(f.year), partLength, '0')
      case Hours => PrependValue(Num(f.hours), partLength, '0')
      case Minutes => PrependValue(Num(f.minutes), partLength, '0')
      case Seconds => PrependValue(Num(f.seconds), partLength, '0')
      case AmPm => if f.hours >= 12 then "PM" else "AM";
    assert kind != AmPm && partLength == 2 && 0 <= FieldOf(kind, f) < 100 ==> r == TwoDigits(FieldOf(kind, f)) by {
      if kind != AmPm && partLength == 2 && 0 <= FieldOf(kind, f) < 100 {
        PrependTwoDigits(FieldOf(kind, f));
      }
    }
    r
  }

  /** Whether a format run such as "hh" asks for the 12-hour clock. */
  predicate UsesTwelveHourClock(format: string) {
    'h' in format
  }

  /**
   * The text `updateMask` writes into one non-literal part while focused:
   * the month shown 1-based, the 12-hour clock for an `h` format, and the
   * last two digits for a 2-wide year.
   */
  function RenderPart(part: DatePartInfo, f: DateFields, promptChar: char): (r: string)
    requires part.kind != Literal
    ensures part.kind == AmPm ==> r == "AM" || r == "PM"
    ensures part.kind != AmPm && |part.format| > 0 ==> |r| <= |part.format|
  {
    var partLength := |part.format|;
    var target := GetPartValue(part.kind, partLength, f);
    match part.kind
    case Month => PrependValue(AddInt(ParseInt(ReplaceAll(target, promptChar, '0')), 1), partLength, '0')
    case Hours => if UsesTwelveHourClock(part.format) then PrependValue(ToTwelveHourFormat(target, promptChar), partLength, '0') else target
    case Year => if partLength == 2 then PrependValue(ParseInt(SliceFromEnd(target, 2)), partLength, '0') else target
    case _ => target
  }

  /** Two decimal digits, zero-padded. */
  function TwoDigits(v: nat): (s: string)
    requires v < 100
    ensures |s| == 2 && AllDigits(s)
  {
    [DigitChar(v / 10), DigitChar(v % 10)]
  }

  lemma TwoDigitsValue(v: nat)
    requires v < 100
    ensures DigitsValue(TwoDigits(v)) == v
  {
    var s := TwoDigits(v);
    assert s[..1] == [DigitChar(v / 10)];
    assert s[..1][..0] == [];
    assert DigitsValue(s[..1]) == v / 10;
    assert DigitsValue(s) == (v / 10) * 10 + v % 10;
  }

  /** `prependValue(v, 2, '0')` is the zero-padded two-digit form of a value below 100. */
  lemma PrependTwoDigits(v: nat)
    requires v < 100
    ensures PrependValue(Num(v), 2, '0') == TwoDigits(v)
  {
    var s := NatToString(v);
    assert NumToString(Num(v)) == s;
    if v >= 10 {
      assert NatToString(v / 10) == [DigitChar(v / 10)];
      assert s == [DigitChar(v / 10), DigitChar(v % 10)];
    }
  }

  /** Reading back a two-digit rendering with a non-digit prompt gives the value. */
  lemma ParseTwoDigits(v: nat, promptChar: char)
    requires v < 100 && !IsDigit(promptChar)
    ensures ReplaceAll(TwoDigits(v), promptChar, '0') == TwoDigits(v)
    ensures ParseInt(TwoDigits(v)) == Num(v)
  {
    var s := TwoDigits(v);
    assert ReplaceAll(s, promptChar, '0') == s;
    TwoDigitsValue(v);
    ParseDigits(s);
  }

  /** The last digit of `n` is `n % 10`. */
  lemma NatToStringLastDigit(n: nat)
    ensures NatToString(n)[|NatToString(n)| - 1] == DigitChar(n % 10)
  {
  }

  lemma LowDigits(y: nat)
    ensures (y % 100) / 10 == (y / 10) % 10 && (y % 100) % 10 == y % 10
  {
    var q, r := y / 100, y % 100;
    assert y == 100 * q + r;
    assert y / 10 == 10 * q + r / 10;
    assert y % 10 == r % 10;
  }

  /** The last two characters of "0" followed by the digits of `y` are the two low digits of `y`. */
  lemma LastTwoDigits(y: nat)
    ensures SliceFromEnd("0" + NatToString(y), 2) == TwoDigits(y % 100)
  {
    LowDigits(y);
    var s := NatToString(y);
    var t := "0" + s;
    if y < 10 {
      assert s == [DigitChar(y)];
      assert t == TwoDigits(y % 100);
      SliceFromEndWhole(t, 2);
    } else {
      LastTwoDigitsOfLong(y);
    }
  }

  lemma LastTwoDigitsOfLong(y: nat)
    requires y >= 10
    ensures SliceFromEnd("0" + NatToString(y), 2) == TwoDigits(y % 100)
  {
    LowDigits(y);
    var t := "0" + NatToString(y);
    var p := NatToString(y / 10);
    assert NatToString(y) == p + [DigitChar(y % 10)];
    NatToStringLastDigit(y / 10);
    assert t[|t| - 2..] == [p[|p| - 1], DigitChar(y % 10)];
    SliceFromEndSuffix(t, 2);
  }

  /** A 2-wide month is rendered 1-based: months 0..11 show as "01".."12". */
  lemma RenderMonthOneBased(part: DatePartInfo, f: DateFields, promptChar: char)
    requires part.kind == Month && |part.format| == 2
    requires 0 <= f.month <= 11 && !IsDigit(promptChar)
    ensures RenderPart(part, f, promptChar) == TwoDigits(f.month + 1)
  {
    PrependTwoDigits(f.month);
    ParseTwoDigits(f.month, promptChar);
    PrependTwoDigits(f.month + 1);
  }

  /** A 2-wide `h` hour shows the 12-hour clock value in 1..12. */
  lemma RenderHoursTwelveHour(part: DatePartInfo, f: DateFields, promptChar: char)
    requires part.kind == Hours && |part.format| == 2 && UsesTwelveHourClock(part.format)
    requires 0 <= f.hours <= 23 && !IsDigit(promptChar)
    ensures TwelveHour(Num(f.hours)).Num?
    ensures RenderPart(part, f, promptChar) == TwoDigits(TwelveHour(Num(f.hours)).n)
    ensures 1 <= TwelveHour(Num(f.hours)).n <= 12
  {
    var target := GetPartValue(Hours, 2, f);
    assert target == TwoDigits(f.hours) by { PrependTwoDigits(f.hours); }
    assert ToTwelveHourFormat(target, promptChar) == TwelveHour(Num(f.hours)) by {
      ParseTwoDigits(f.hours, promptChar);
    }
    var h := TwelveHour(Num(f.hours)).n;
    assert PrependValue(Num(h), 2, '0') == TwoDigits(h) by { PrependTwoDigits(h); }
    assert RenderPart(part, f, promptChar) == PrependValue(ToTwelveHourFormat(target, promptChar), 2, '0');
  }

  /** A 2-wide `H` hour shows the 24-hour clock value zero-padded. */
  lemma RenderHoursTwentyFourHour(part: DatePartInfo, f: DateFields, promptChar: char)
    requires part.kind == Hours && |part.format| == 2 && !UsesTwelveHourClock(part.format)
    requires 0 <= f.hours <= 23
    ensures RenderPart(part, f, promptChar) == TwoDigits(f.hours)
  {
    var target := GetPartValue(Hours, 2, f);
    assert target == TwoDigits(f.hours) by {
      assert FieldOf(Hours, f) == f.hours;
    }
    assert RenderPart(part, f, promptChar) == target;
  }

  /** A 2-wide year shows the last two digits of a non-negative year. */
  lemma RenderYearLastTwoDigits(part: DatePartInfo, f: DateFields, promptChar: char)
    requires part.kind == Year && |part.format| == 2 && f.year >= 0
    ensures RenderPart(part, f, promptChar) == TwoDigits(f.year % 100)
  {
    RenderPartShortYear(part, f, promptChar);
    YearTargetParsesBack(f);
    PrependTwoDigits(f.year % 100);
  }

  /** A 2-wide year part re-pads the number read from the last two characters of its value. */
  lemma RenderPartShortYear(part: DatePartInfo, f: DateFields, promptChar: char)
    requires part.kind == Year && |part.format| == 2
    ensures RenderPart(part, f, promptChar) == PrependValue(ParseInt(SliceFromEnd(GetPartValue(Year, 2, f), 2)), 2, '0')
  {
  }

  /** Reading back the last two characters of a 2-wide year part gives the year modulo 100. */
  lemma YearTargetParsesBack(f: DateFields)
    requires f.year >= 0
    ensures ParseInt(SliceFromEnd(GetPartValue(Year, 2, f), 2)) == Num(f.year % 100)
  {
    var target := GetPartValue(Year, 2, f);
    YearTargetLastTwoDigits(f);
    SliceFromEndWhole(target, 2);
    ParseTwoDigits(f.year % 100, '_');
  }

  /** The unsliced text of a 2-wide year part already ends in the year's last two digits. */
  lemma YearTargetLastTwoDigits(f: DateFields)
    requires f.year >= 0
    ensures GetPartValue(Year, 2, f) == TwoDigits(f.year % 100)
  {
    assert GetPartValue(Year, 2, f) == PrependValue(Num(f.year), 2, '0');
    assert NumToString(Num(f.year)) == NatToString(f.year);
    LastTwoDigits(f.year);
  }

  /** The AM/PM part shows "PM" exactly when the hour is 12 or later. */
  lemma RenderAmPm(part: DatePartInfo, f: DateFields, promptChar: char)
    requires part.kind == AmPm
    ensures RenderPart(part, f, promptChar) == if f.hours >= 12 then "PM" else "AM"
  {
  }

  /** Day, minutes and seconds in a 2-wide part show their value zero-padded. */
  lemma RenderTwoDigitField(part: DatePartInfo, f: DateFields, promptChar: char)
    requires part.kind in {Date, Minutes, Seconds} && |part.format| == 2
    requires FieldsInRange(f)
    ensures RenderPart(part, f, promptChar) ==
      TwoDigits(if part.kind == Date then f.date else if part.kind == Minutes then f.minutes else f.seconds)
  {
    PrependTwoDigits(if part.kind == Date then f.date else if part.kind == Minutes then f.minutes else f.seconds);
  }

  /** Padding to width 1 keeps only the number's last digit. */
  lemma PrependOneDigit(v: nat)
    ensures PrependValue(Num(v), 1, '0') == [DigitChar(v % 10)]
  {
    var t := "0" + NatToString(v);
    assert NumToString(Num(v)) == NatToString(v);
    SliceFromEndSuffix(t, 1);
    NatToStringLastDigit(v);
    assert t[|t| - 1..] == [t[|t| - 1]];
  }

  /** Reading back one digit with a non-digit prompt gives the digit. */
  lemma ParseOneDigit(d: nat, promptChar: char)
    requires d < 10 && !IsDigit(promptChar)
    ensures ParseInt(ReplaceAll([DigitChar(d)], promptChar, '0')) == Num(d)
  {
    var s := [DigitChar(d)];
    assert ReplaceAll(s, promptChar, '0') == s;
    assert s[..0] == [];
    ParseDigits(s);
  }

  /**
   * A 1-wide month part ("M") shows only one digit: the last digit of the
   * 0-based month is read back, one is added, and the last digit of that
   * is kept: December (11) shows "2", October (9) shows "0".
   */
  lemma RenderOneWideMonth(part: DatePartInfo, f: DateFields, promptChar: char)
    requires part.kind == Month && |part.format| == 1
    requires 0 <= f.month <= 11 && !IsDigit(promptChar)
    ensures RenderPart(part, f, promptChar) == [DigitChar((f.month % 10 + 1) % 10)]
  {
    PrependOneDigit(f.month);
    ParseOneDigit(f.month % 10, promptChar);
    PrependOneDigit(f.month % 10 + 1);
  }

  /**
   * A 1-wide `h` hour part keeps only the last digit of the 24-hour value
   * before the 12-hour conversion, so hour 15 shows "5" and hour 10 shows "2".
   */
  lemma RenderOneWideTwelveHour(part: DatePartInfo, f: DateFields, promptChar: char)
    requires part.kind == Hours && |part.format| == 1 && UsesTwelveHourClock(part.format)
    requires 0 <= f.hours <= 23 && !IsDigit(promptChar)
    ensures TwelveHour(Num(f.hours % 10)).Num?
    ensures RenderPart(part, f, promptChar) == [DigitChar(TwelveHour(Num(f.hours % 10)).n % 10)]
    ensures f.hours == 15 ==> RenderPart(part, f, promptChar) == "5"
    ensures f.hours == 10 ==> RenderPart(part, f, promptChar) == "2"
  {
    PrependOneDigit(f.hours);
    ParseOneDigit(f.hours % 10, promptChar);
    PrependOneDigit(TwelveHour(Num(f.hours % 10)).n);
  }

  /** The text of every part built from the value, spliced into the empty mask one part at a time. */
  function RenderParts(emptyMask: string, parts: seq<DatePartInfo>, f: DateFields, options: MaskOptions,
                       replaceInMask: (string, string, MaskOptions, int, int) -> string): (r: string)
    ensures (forall i :: 0 <= i < |parts| ==> parts[i].kind == Literal) ==> r == emptyMask
  {
    if parts == [] then emptyMask
    else
      assert forall i :: 0 <= i < |parts| - 1 ==> parts[..|parts| - 1][i] == parts[i];
      var mask := RenderParts(emptyMask, parts[..|parts| - 1], f, options, replaceInMask);
      var part := parts[|parts| - 1];
      if part.kind == Literal then mask
      else replaceInMask(mask, RenderPart(part, f, options.promptChar), options, part.start, part.end)
  }

  /** The loop of `updateMask` that fills the focused mask from the value. */
  method RenderMask(emptyMask: string, parts: seq<DatePartInfo>, f: DateFields, options: MaskOptions,
                    replaceInMask: (string, string, MaskOptions, int, int) -> string)
    returns (mask: string)
    ensures mask == RenderParts(emptyMask, parts, f, options, replaceInMask)
  {
    mask := emptyMask;
    for i := 0 to |parts|
      invariant mask == RenderParts(emptyMask, parts[..i], f, options, replaceInMask)
    {
      assert parts[..i + 1][..i] == parts[..i];
      var part := parts[i];
      if part.kind == Literal {
        continue;
      }
      var targetValue := RenderPart(part, f, options.promptChar);
      mask := replaceInMask(mask, targetValue, options, part.start, part.end);
    }
    assert parts[..|parts|] == parts;
  }

  /** What the editor needs of the mask parser's splice: it keeps the mask's length. */
  ghost predicate ReplaceKeepsLength(replaceInMask: (string, string, MaskOptions, int, int) -> string) {
    forall mask, value, options, start, end :: |replaceInMask(mask, value, options, start, end)| == |mask|
  }

  /** With a length-preserving splice, the focused text is exactly as long as the empty mask. */
  lemma {:induction false} RenderPartsLength(emptyMask: string, parts: seq<DatePartInfo>, f: DateFields,
                                             options: MaskOptions,
                                             replaceInMask: (string, string, MaskOptions, int, int) -> string)
    requires ReplaceKeepsLength(replaceInMask)
    ensures |RenderParts(emptyMask, parts, f, options, replaceInMask)| == |emptyMask|
  {
    if parts != [] {
      RenderPartsLength(emptyMask, parts[..|parts| - 1], f, options, replaceInMask);
    }
  }

  // ---------------------------------------------------------------------
  // The part the caret targets (`targetDatePart`)
  // ---------------------------------------------------------------------

  /** A non-literal part whose span holds the caret position (both ends included). */
  predicate Targets(part: DatePartInfo, pos: int) {
    part.start <= pos && pos <= part.end && part.kind != Literal
  }

  /** Index of the first part that `Targets` the position (`Array.prototype.find`). */
  function FindTargetPart(parts: seq<DatePartInfo>, pos: int): (r: Option<nat>)
    ensures r.Some? ==> r.value < |parts| && Targets(parts[r.value], pos)
    ensures r.Some? ==> forall j :: 0 <= j < r.value ==> !Targets(parts[j], pos)
    ensures r.None? ==> forall j :: 0 <= j < |parts| ==> !Targets(parts[j], pos)
  {
    if parts == [] then None
    else if Targets(parts[0], pos) then Some(0)
    else match FindTargetPart(parts[1..], pos)
      case None => None
      case Some(i) => Some(i + 1)
  }

  predicate HasKind(parts: seq<DatePartInfo>, kind: DatePart) {
    exists i :: 0 <= i < |parts| && parts[i].kind == kind
  }

  /**
   * `targetDatePart`: with the input focused, the kind of the first
   * non-literal part around the caret; otherwise Date when the format has
   * one, else Hours when it has one, else nothing.
   */
  function TargetDatePart(parts: seq<DatePartInfo>, inputIsActive: bool, selectionStart: int): (r: Option<DatePart>)
    ensures r != Some(Literal)
    ensures inputIsActive ==>
      (r.None? <==> forall j :: 0 <= j < |parts| ==> !Targets(parts[j], selectionStart))
    ensures inputIsActive && r.Some? ==>
      exists i :: 0 <= i < |parts| && parts[i].kind == r.value && Targets(parts[i], selectionStart) &&
        forall j :: 0 <= j < i ==> !Targets(parts[j], selectionStart)
    ensures !inputIsActive ==>
      r == if HasKind(parts, Date) then Some(Date) else if HasKind(parts, Hours) then Some(Hours) else None
  {
    if inputIsActive then
      match FindTargetPart(parts, selectionStart)
      case None => None
      case Some(i) => Some(parts[i].kind)
    else if HasKind(parts, Date) then Some(Date)
    else if HasKind(parts, Hours) then Some(Hours)
    else None
  }

  /** Index of the first part of the given kind (`Array.prototype.find`). */
  function FirstOfKind(parts: seq<DatePartInfo>, kind: DatePart): (i: nat)
    requires HasKind(parts, kind)
    ensures i < |parts| && parts[i].kind == kind
    ensures forall j :: 0 <= j < i ==> parts[j].kind != kind
  {
    if parts[0].kind == kind then 0
    else
      assert HasKind(parts[1..], kind) by {
        var i :| 0 <= i < |parts| && parts[i].kind == kind;
        assert parts[1..][i - 1].kind == kind;
      }
      1 + FirstOfKind(parts[1..], kind)
  }

  /** The input format rebuilt from the parsed parts: `parts.map(p => p.format).join('')`. */
  function JoinFormats(parts: seq<DatePartInfo>): (s: string)
    ensures s == "" <==> forall i :: 0 <= i < |parts| ==> parts[i].format == ""
  {
    if parts == [] then ""
    else
      assert forall i :: 0 <= i < |parts| - 1 ==> parts[..|parts| - 1][i] == parts[i];
      JoinFormats(parts[..|parts| - 1]) + parts[|parts| - 1].format
  }

  // ---------------------------------------------------------------------
  // Range checking (`valueInRange`, `validate`)
  // ---------------------------------------------------------------------

  /** `a.getTime() <= b.getTime()`; any comparison with NaN is false. */
  predicate TimeLe(a: JsDate, b: JsDate) {
    a.ValidDate? && b.ValidDate? && a.time <= b.time
  }

  /**
   * `valueInRange(value)` given the bounds already converted to dates:
   * false for null; both bounds are checked when both are present, a single
   * bound alone otherwise; false when there is no bound.
   */
  function ValueInRange(value: Option<JsDate>, minDate: Option<JsDate>, maxDate: Option<JsDate>): (r: bool)
    ensures value.None? ==> !r
    ensures value.Some? && minDate.Some? && maxDate.Some? ==>
      (r <==> TimeLe(minDate.value, value.value) && TimeLe(value.value, maxDate.value))
    ensures value.Some? && minDate.None? && maxDate.Some? ==> (r <==> TimeLe(value.value, maxDate.value))
    ensures value.Some? && minDate.Some? && maxDate.None? ==> (r <==> TimeLe(minDate.value, value.value))
    ensures minDate.None? && maxDate.None? ==> !r
  {
    if value.None? then false
    else if maxDate.Some? && minDate.Some? then
      TimeLe(value.value, maxDate.value) && TimeLe(minDate.value, value.value)
    else
      (maxDate.Some? && TimeLe(value.value, maxDate.value)) ||
      (minDate.Some? && TimeLe(minDate.value, value.value))
  }

  /** `a.getTime() !== b.getTime()`; NaN differs from everything, itself included. */
  predicate TimeDiffers(a: JsDate, b: JsDate) {
    !(a.ValidDate? && b.ValidDate? && a.time == b.time)
  }

  /** A `minValue` / `maxValue` input: unset, a `Date`, or a string to parse. */
  datatype Bound = Unset | DateBound(date: JsDate) | TextBound(text: string)

  /** JavaScript truthiness of a bound: a date object always, a string when non-empty. */
  predicate BoundIsSet(b: Bound) {
    b.DateBound? || (b.TextBound? && b.text != "")
  }

  /** The error keys `validate` reports. */
  datatype ValidationError = MinValueError | MaxValueError

  /**
   * `validate(control)`: the `minValue` error when a minimum is set and the
   * value is out of range, else the `maxValue` error when a maximum is set
   * and the value is out of range, else no error.
   */
  function ValidateBounds(value: Option<JsDate>, minValue: Bound, maxValue: Bound,
                    minDate: Option<JsDate>, maxDate: Option<JsDate>): (r: Option<ValidationError>)
    ensures r == Some(MinValueError) <==> BoundIsSet(minValue) && !ValueInRange(value, minDate, maxDate)
    ensures r == Some(MaxValueError) <==>
      !BoundIsSet(minValue) && BoundIsSet(maxValue) && !ValueInRange(value, minDate, maxDate)
    ensures !BoundIsSet(minValue) && !BoundIsSet(maxValue) ==> r.None?
  {
    if BoundIsSet(minValue) && !ValueInRange(value, minDate, maxDate) then Some(MinValueError)
    else if BoundIsSet(maxValue) && !ValueInRange(value, minDate, maxDate) then Some(MaxValueError)
    else None
  }

  /** With both bounds set, a value above the maximum is reported under the `minValue` key. */
  lemma ValidateReportsMinKeyAboveMax(v: JsDate, lo: JsDate, hi: JsDate)
    requires v.ValidDate? && lo.ValidDate? && hi.ValidDate? && lo.time <= hi.time < v.time
    ensures ValidateBounds(Some(v), DateBound(lo), DateBound(hi), Some(lo), Some(hi)) == Some(MinValueError)
  {
  }

  // ---------------------------------------------------------------------
  // Caret jumps to literal boundaries (`getNewPosition`)
  // ---------------------------------------------------------------------

  predicate IsLiteralEnd(parts: seq<DatePartInfo>, pos: int) {
    exists i :: 0 <= i < |parts| && parts[i].kind == Literal && parts[i].end == pos
  }

  predicate IsLiteralStart(parts: seq<DatePartInfo>, pos: int) {
    exists i :: 0 <= i < |parts| && parts[i].kind == Literal && parts[i].start == pos
  }

  /**
   * `getNewPosition(value, 0)`: step left at least once (not below 0)
   * until the caret sits at the end of a literal or at 0.
   */
  method NewPositionLeft(parts: seq<DatePartInfo>, selectionStart: nat) returns (pos: nat)
    ensures pos <= selectionStart && (selectionStart > 0 ==> pos < selectionStart)
    ensures pos == 0 || IsLiteralEnd(parts, pos)
    ensures forall p :: pos < p < selectionStart ==> !IsLiteralEnd(parts, p)
  {
    pos := if selectionStart > 0 then selectionStart - 1 else selectionStart;
    while !IsLiteralEnd(parts, pos) && pos > 0
      invariant pos <= selectionStart && (selectionStart > 0 ==> pos < selectionStart)
      invariant forall p :: pos < p < selectionStart ==> !IsLiteralEnd(parts, p)
    {
      pos := pos - 1;
    }
  }

  /**
   * `getNewPosition(value, 1)`: step right at least once until the caret
   * sits at the start of a literal or at the end of the text.
   */
  method NewPositionRight(parts: seq<DatePartInfo>, selectionStart: nat, valueLength: nat) returns (pos: nat)
    ensures pos > selectionStart
    ensures IsLiteralStart(parts, pos) || pos >= valueLength
    ensures forall p :: selectionStart < p < pos ==> !IsLiteralStart(parts, p)
    ensures pos == selectionStart + 1 || pos <= valueLength
  {
    pos := selectionStart + 1;
    while !IsLiteralStart(parts, pos) && pos < valueLength
      invariant pos > selectionStart
      invariant forall p :: selectionStart < p < pos ==> !IsLiteralStart(parts, p)
      invariant pos == selectionStart + 1 || pos <= valueLength
      decreases valueLength - pos
    {
      pos := pos + 1;
    }
  }
}
