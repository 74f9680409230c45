/**
 * The rules of the timestamp converter: reading a number as seconds or milliseconds,
 * trying the date formats in order, scaling to milliseconds, copying with a unit, and the
 * flag that pauses the clock display.  `float()`, `strptime`, `datetime.timestamp()`,
 * `fromtimestamp`/`strftime` and the clock are parameters.
 */
module TimestampConverter {
  import opened Wrappers
  import opened PyText

  /** An exception raised by a library call, with `str(e)`. */
  datatype Failure =
    | ValueError(text: string)
    | OSError(text: string)
    | OtherError(text: string)

  /** A library call's value, or the exception it raised. */
  datatype Outcome<T> = Ok(value: T) | Raised(failure: Failure)

  /** `show_message` with its three message types. */
  datatype Dialog =
    | Info(title: string, text: string)
    | Warning(title: string, text: string)
    | Error(title: string, text: string)

  /** What a conversion leaves: a text for its read-only result field, or a dialog instead. */
  datatype Reply = Shown(text: string) | Shows(dialog: Dialog)

  // ---------------------------------------------------------------------------------------
  // Timestamp to readable time

  /** Above this a number is read as milliseconds (it has more than ten digits). */
  const MillisThreshold: real := 10000000000.0

  /** The seconds `convert_timestamp` hands to `fromtimestamp`. */
  function Seconds(t: real): real {
    if t > MillisThreshold then t / 1000.0 else t
  }

  /**
   * A number is used unchanged exactly when it is at most the threshold; a larger one is
   * divided by 1000 and then stands for a moment after 10000000 seconds.
   */
  lemma SecondsMeaning(t: real)
    ensures Seconds(t) == t <==> t <= MillisThreshold
    ensures t > MillisThreshold ==> Seconds(t) * 1000.0 == t && Seconds(t) > 10000000.0
  {
  }

  /**
   * Between 10000000 and 10000000000 seconds a moment can be entered either way: as seconds,
   * or as milliseconds, and both read back as the same seconds.
   */
  lemma BothUnitsAgree(s: real)
    requires 10000000.0 < s <= MillisThreshold
    ensures Seconds(s) == s && Seconds(s * 1000.0) == s
  {
  }

  const EmptyTimestampWarning := Warning("警告", "请输入时间戳")
  const NotANumberError := Error("错误", "请输入有效的时间戳数字")
  const OutOfRangeError := Error("错误", "时间戳超出有效范围")

  /** The dialog of the generic handler: "转换失败: " followed by `str(e)`. */
  function FailedError(f: Failure): Dialog {
    Error("错误", "转换失败: " + f.text)
  }

  /**
   * What `convert_timestamp` makes of the entry text: blank input is refused before parsing;
   * a `ValueError` (from `float()` or from `fromtimestamp`) asks for a number; an `OSError`
   * reports the range; anything else goes to the generic handler.
   */
  function TimestampReply(entry: string, parseFloat: string -> Option<real>,
                          render: real -> Outcome<string>): Reply {
    var text := Strip(entry);
    if text == [] then Shows(EmptyTimestampWarning) else NumberReply(text, parseFloat, render)
  }

  /** The same for text that is not blank after `strip()`. */
  function NumberReply(text: string, parseFloat: string -> Option<real>, render: real -> Outcome<string>): (r: Reply)
    ensures r.Shows? ==> r.dialog.Error?
  {
    match parseFloat(text)
      case None => Shows(NotANumberError)
      case Some(t) =>
        match render(Seconds(t))
        case Ok(readable) => Shown(readable)
        case Raised(ValueError(_)) => Shows(NotANumberError)
        case Raised(OSError(_)) => Shows(OutOfRangeError)
        case Raised(OtherError(m)) => Shows(FailedError(OtherError(m)))
  }

  /** Blank input gives the warning whatever the parser and the renderer would have done. */
  lemma TimestampBlank(entry: string, parseFloat: string -> Option<real>, render: real -> Outcome<string>)
    ensures AllSpace(entry) <==> TimestampReply(entry, parseFloat, render) == Shows(EmptyTimestampWarning)
  {
    StripEmptyIff(entry);
  }

  /**
   * Past the blank check, a readable time is shown exactly when the text parses and the
   * renderer accepts the number after the threshold rule; that rendering is what is shown.
   */
  lemma NumberShown(text: string, parseFloat: string -> Option<real>, render: real -> Outcome<string>,
                    readable: string)
    ensures NumberReply(text, parseFloat, render) == Shown(readable) <==>
      (parseFloat(text).Some? && render(Seconds(parseFloat(text).value)) == Ok(readable))
  {
  }

  // ---------------------------------------------------------------------------------------
  // Readable time to timestamp

  /** The formats `convert_datetime` tries, in this order. */
  const Formats := [
    "%Y-%m-%d %H:%M:%S",
    "%Y-%m-%d %H:%M",
    "%Y-%m-%d",
    "%Y/%m/%d %H:%M:%S",
    "%Y/%m/%d %H:%M",
    "%Y/%m/%d"
  ]

  /**
   * `strptime` under the first of `formats` that accepts `text` (`None` stands for the
   * `ValueError` of a format that does not match).
   */
  function FirstParse<D>(formats: seq<string>, text: string, strptime: (string, string) -> Option<D>): (r: Option<D>)
    ensures r.None? <==> forall k :: 0 <= k < |formats| ==> strptime(text, formats[k]).None?
    ensures r.Some? ==> exists i :: (0 <= i < |formats| && r == strptime(text, formats[i]) &&
      forall k :: 0 <= k < i ==> strptime(text, formats[k]).None?)
  {
    if formats == [] then None
    else if strptime(text, formats[0]).Some? then strptime(text, formats[0])
    else
      var r := FirstParse(formats[1..], text, strptime);
      assert forall k :: 1 <= k < |formats| ==> formats[k] == formats[1..][k - 1];
      r
  }

  /** The first accepting format determines the result, whichever that is. */
  lemma FirstParseAt<D>(formats: seq<string>, text: string, strptime: (string, string) -> Option<D>, i: int)
    requires 0 <= i < |formats| && strptime(text, formats[i]).Some?
    requires forall k :: 0 <= k < i ==> strptime(text, formats[k]).None?
    ensures FirstParse(formats, text, strptime) == strptime(text, formats[i])
  {
    var r := FirstParse(formats, text, strptime);
    assert r.Some?;
    var j :| 0 <= j < |formats| && r == strptime(text, formats[j]) &&
      forall k :: 0 <= k < j ==> strptime(text, formats[k]).None?;
  }

  /** The format loop of `convert_datetime`: try each format in turn and stop at the first that parses. */
  method FindFormat<D>(text: string, strptime: (string, string) -> Option<D>) returns (dt: Option<D>)
    ensures dt == FirstParse(Formats, text, strptime)
  {
    dt := None;
    var i := 0;
    while i < |Formats|
      invariant 0 <= i <= |Formats|
      invariant dt.None?
      invariant forall k :: 0 <= k < i ==> strptime(text, Formats[k]).None?
    {
      dt := strptime(text, Formats[i]);
      if dt.Some? {
        FirstParseAt(Formats, text, strptime, i);
        return;
      }
      i := i + 1;
    }
  }

  /** `int()` of a float: the integer part, truncated toward zero. */
  function TruncToZero(x: real): (r: int)
    ensures x >= 0.0 ==> r >= 0 && r as real <= x < r as real + 1.0
    ensures x < 0.0 ==> r <= 0 && r as real - 1.0 < x <= r as real
  {
    if x >= 0.0 then x.Floor else -((-x).Floor)
  }

  /** The timestamp `convert_datetime` writes: whole seconds, times 1000 when milliseconds are selected. */
  function StampValue(stamp: real, millis: bool): int {
    var seconds := TruncToZero(stamp);
    if millis then seconds * 1000 else seconds
  }

  const EmptyDatetimeWarning := Warning("警告", "请输入时间")
  /** How the help spells a `strptime` directive: `%Y` as `YYYY`, `%m` as `MM`, and so on. */
  function Spelled(c: char): string {
    match c
    case 'Y' => "YYYY"
    case 'm' => "MM"
    case 'd' => "DD"
    case 'H' => "HH"
    case 'M' => "MM"
    case 'S' => "SS"
    case _ => ['%', c]
  }

  /** A format as the help shows it: each directive spelled out, other characters kept. */
  function Readable(f: string): string
    decreases |f|
  {
    if f == [] then []
    else if f[0] == '%' && |f| >= 2 then Spelled(f[1]) + Readable(f[2..])
    else [f[0]] + Readable(f[1..])
  }

  /** One bulleted line per format, each starting on a new line. */
  function Bullets(formats: seq<string>): string {
    if formats == [] then [] else "\n• " + Readable(formats[0]) + Bullets(formats[1..])
  }

  /** The format help: a heading, then the accepted formats in the order they are tried. */
  const FormatHelp := "无法解析时间格式\n支持格式:" + Bullets(Formats)

  /** A directive is spelled out, and the rest follows. */
  lemma ReadableDirective(c: char, rest: string)
    ensures Readable(['%', c] + rest) == Spelled(c) + Readable(rest)
  {
    assert (['%', c] + rest)[2..] == rest;
  }

  /** Any other character is kept, and the rest follows. */
  lemma ReadablePlain(c: char, rest: string)
    requires c != '%'
    ensures Readable([c] + rest) == [c] + Readable(rest)
  {
    assert ([c] + rest)[1..] == rest;
  }

  /** A directive followed by a separator. */
  lemma ReadableStep(c: char, d: char, rest: string)
    requires d != '%'
    ensures Readable(['%', c, d] + rest) == Spelled(c) + [d] + Readable(rest)
  {
    ReadableDirective(c, [d] + rest);
    ReadablePlain(d, rest);
    assert ['%', c] + ([d] + rest) == ['%', c, d] + rest;
  }

  /** A date `%Y<sep>%m<sep>%d` reads `YYYY<sep>MM<sep>DD`. */
  lemma ReadableDate(sep: char, rest: string)
    requires sep != '%'
    ensures Readable(['%', 'Y', sep, '%', 'm', sep, '%', 'd'] + rest) ==
      ['Y', 'Y', 'Y', 'Y', sep, 'M', 'M', sep, 'D', 'D'] + Readable(rest)
  {
    var r1 := ['%', 'd'] + rest;
    var r2 := ['%', 'm', sep] + r1;
    ReadableDirective('d', rest);
    ReadableStep('m', sep, r1);
    ReadableStep('Y', sep, r2);
    DateGroups(sep, rest, Readable(rest));
  }

  /** The date's three groups, joined. */
  lemma DateGroups(sep: char, rest: string, x: string)
    ensures ['%', 'Y', sep] + (['%', 'm', sep] + (['%', 'd'] + rest)) ==
      ['%', 'Y', sep, '%', 'm', sep, '%', 'd'] + rest
    ensures "YYYY" + [sep] + ("MM" + [sep] + ("DD" + x)) ==
      ['Y', 'Y', 'Y', 'Y', sep, 'M', 'M', sep, 'D', 'D'] + x
  {
  }

  /** A time ` %H:%M` reads ` HH:MM`. */
  lemma ReadableTime(rest: string)
    ensures Readable([' ', '%', 'H', ':', '%', 'M'] + rest) == [' ', 'H', 'H', ':', 'M', 'M'] + Readable(rest)
  {
    var r1 := ['%', 'M'] + rest;
    var r2 := ['%', 'H', ':'] + r1;
    ReadableDirective('M', rest);
    ReadableStep('H', ':', r1);
    ReadablePlain(' ', r2);
    TimeGroups(rest, Readable(rest));
  }

  /** The time's groups, joined. */
  lemma TimeGroups(rest: string, x: string)
    ensures [' '] + (['%', 'H', ':'] + (['%', 'M'] + rest)) == [' ', '%', 'H', ':', '%', 'M'] + rest
    ensures [' '] + ("HH" + [':'] + ("MM" + x)) == [' ', 'H', 'H', ':', 'M', 'M'] + x
  {
  }

  /** Seconds `:%S` read `:SS`. */
  lemma ReadableSeconds(rest: string)
    ensures Readable([':', '%', 'S'] + rest) == [':', 'S', 'S'] + Readable(rest)
  {
    ReadableDirective('S', rest);
    ReadablePlain(':', ['%', 'S'] + rest);
    assert [':'] + (['%', 'S'] + rest) == [':', '%', 'S'] + rest;
    assert [':'] + ("SS" + Readable(rest)) == [':', 'S', 'S'] + Readable(rest);
  }

  /** `%Y<sep>%m<sep>%d`, then ` %H:%M` when `minutes`, then `:%S` when also `seconds`. */
  function DateTimeFormat(sep: char, minutes: bool, seconds: bool): string {
    ['%', 'Y', sep, '%', 'm', sep, '%', 'd'] +
    (if minutes then [' ', '%', 'H', ':', '%', 'M'] + (if seconds then ":%S" else "") else "")
  }

  /** The same format as the help spells it: `YYYY<sep>MM<sep>DD`, ` HH:MM`, `:SS`. */
  function DateTimePattern(sep: char, minutes: bool, seconds: bool): string {
    ['Y', 'Y', 'Y', 'Y', sep, 'M', 'M', sep, 'D', 'D'] +
    (if minutes then " HH:MM" + (if seconds then ":SS" else "") else "")
  }

  /** Each such format reads as its pattern. */
  lemma ReadableDateTime(sep: char, minutes: bool, seconds: bool)
    requires sep != '%'
    ensures Readable(DateTimeFormat(sep, minutes, seconds)) == DateTimePattern(sep, minutes, seconds)
  {
    var none: string := [];
    var s: string := if seconds then [':', '%', 'S'] + none else none;
    var t: string := if minutes then [' ', '%', 'H', ':', '%', 'M'] + s else none;
    assert Readable(none) == [];
    if seconds {
      ReadableSeconds(none);
    }
    if minutes {
      ReadableTime(s);
    }
    ReadableDate(sep, t);
    assert DateTimeFormat(sep, minutes, seconds) == ['%', 'Y', sep, '%', 'm', sep, '%', 'd'] + t;
  }

  /** The formats are the dash dates, then the slash dates, each with seconds, minutes, date only. */
  lemma FormatsShape(i: nat)
    requires i < |Formats|
    ensures Formats[i] == DateTimeFormat(if i < 3 then '-' else '/', i != 2 && i != 5, i == 0 || i == 3)
  {
  }

  /** Each format reads as its pattern. */
  lemma FormatReadable(i: nat)
    requires i < |Formats|
    ensures Readable(Formats[i]) == DateTimePattern(if i < 3 then '-' else '/', i != 2 && i != 5, i == 0 || i == 3)
  {
    FormatsShape(i);
    ReadableDateTime(if i < 3 then '-' else '/', i != 2 && i != 5, i == 0 || i == 3);
  }

  /** Each pattern as its bullet line shows it. */
  lemma PatternLines()
    ensures "\n• " + DateTimePattern('-', true, true) == "\n• YYYY-MM-DD HH:MM:SS"
    ensures "\n• " + DateTimePattern('-', true, false) == "\n• YYYY-MM-DD HH:MM"
    ensures "\n• " + DateTimePattern('-', false, false) == "\n• YYYY-MM-DD"
    ensures "\n• " + DateTimePattern('/', true, true) == "\n• YYYY/MM/DD HH:MM:SS"
    ensures "\n• " + DateTimePattern('/', true, false) == "\n• YYYY/MM/DD HH:MM"
    ensures "\n• " + DateTimePattern('/', false, false) == "\n• YYYY/MM/DD"
  {
  }

  /** One bullet line ahead of the rest. */
  lemma BulletStep(fs: seq<string>, i: nat)
    requires i < |fs|
    ensures Bullets(fs[i..]) == "\n• " + Readable(fs[i]) + Bullets(fs[i + 1..])
  {
    assert fs[i..][0] == fs[i] && fs[i..][1..] == fs[i + 1..];
  }

  /** Three formats with one separator: with seconds, with minutes, date only. */
  lemma BulletsOfThree(fs: seq<string>, i: nat, sep: char)
    requires i + 3 <= |fs|
    requires Readable(fs[i]) == DateTimePattern(sep, true, true)
    requires Readable(fs[i + 1]) == DateTimePattern(sep, true, false)
    requires Readable(fs[i + 2]) == DateTimePattern(sep, false, false)
    ensures Bullets(fs[i..]) ==
      "\n• " + DateTimePattern(sep, true, true) + ("\n• " + DateTimePattern(sep, true, false) +
      ("\n• " + DateTimePattern(sep, false, false) + Bullets(fs[i + 3..])))
  {
    BulletStep(fs, i);
    BulletStep(fs, i + 1);
    BulletStep(fs, i + 2);
  }

  /** The bullets of six formats that read as the six patterns, in order. */
  lemma BulletsOfSix(fs: seq<string>)
    requires |fs| == 6
    requires forall i :: 0 <= i < 6 ==>
      Readable(fs[i]) == DateTimePattern(if i < 3 then '-' else '/', i != 2 && i != 5, i == 0 || i == 3)
    ensures Bullets(fs) ==
      "\n• YYYY-MM-DD HH:MM:SS" + "\n• YYYY-MM-DD HH:MM" + "\n• YYYY-MM-DD" +
      "\n• YYYY/MM/DD HH:MM:SS" + "\n• YYYY/MM/DD HH:MM" + "\n• YYYY/MM/DD"
  {
    assert Readable(fs[0]) == DateTimePattern('-', true, true);
    assert Readable(fs[1]) == DateTimePattern('-', true, false);
    assert Readable(fs[2]) == DateTimePattern('-', false, false);
    assert Readable(fs[3]) == DateTimePattern('/', true, true);
    assert Readable(fs[4]) == DateTimePattern('/', true, false);
    assert Readable(fs[5]) == DateTimePattern('/', false, false);
    BulletsOfThree(fs, 0, '-');
    BulletsOfThree(fs, 3, '/');
    assert fs[0..] == fs && fs[6..] == [];
    PatternLines();
    AppendSix("\n• YYYY-MM-DD HH:MM:SS", "\n• YYYY-MM-DD HH:MM", "\n• YYYY-MM-DD",
      "\n• YYYY/MM/DD HH:MM:SS", "\n• YYYY/MM/DD HH:MM", "\n• YYYY/MM/DD");
  }

  /**
   * Spelled out, the help is the tool's fixed message: the heading, then one bullet per
   * format in the readable spelling.
   */
  lemma FormatHelpText()
    ensures FormatHelp == "无法解析时间格式\n支持格式:" +
      ("\n• YYYY-MM-DD HH:MM:SS" + "\n• YYYY-MM-DD HH:MM" + "\n• YYYY-MM-DD" +
       "\n• YYYY/MM/DD HH:MM:SS" + "\n• YYYY/MM/DD HH:MM" + "\n• YYYY/MM/DD")
  {
    forall i | 0 <= i < 6
      ensures Readable(Formats[i]) == DateTimePattern(if i < 3 then '-' else '/', i != 2 && i != 5, i == 0 || i == 3)
    {
      FormatReadable(i);
    }
    BulletsOfSix(Formats);
  }

  /** Concatenation regrouped to the left. */
  lemma AppendSix(a: string, b: string, c: string, d: string, e: string, f: string)
    ensures a + (b + (c + (d + (e + (f + []))))) == a + b + c + d + e + f
  {
  }

  const NoFormatError := Error("错误", FormatHelp)

  /**
   * What `convert_datetime` makes of the entry text: blank input is refused; text no format
   * accepts gives the format help; a failing `timestamp()` goes to the generic handler;
   * otherwise `str` of the timestamp in the selected unit.
   */
  function DatetimeReply<D>(entry: string, millis: bool, strptime: (string, string) -> Option<D>,
                            stamp: D -> Outcome<real>): Reply {
    var text := Strip(entry);
    if text == [] then Shows(EmptyDatetimeWarning) else ParsedReply(text, millis, strptime, stamp)
  }

  /** The same for text that is not blank after `strip()`. */
  function ParsedReply<D>(text: string, millis: bool, strptime: (string, string) -> Option<D>,
                          stamp: D -> Outcome<real>): (r: Reply)
    ensures r.Shows? ==> r.dialog.Error?
  {
    match FirstParse(Formats, text, strptime)
      case None => Shows(NoFormatError)
      case Some(dt) =>
        match stamp(dt)
        case Raised(f) => Shows(FailedError(f))
        case Ok(t) => Shown(IntToString(StampValue(t, millis)))
  }

  /**
   * A shown result is the timestamp of the first accepting format, in the selected unit, and
   * reads back with `int()`; milliseconds are exactly 1000 times the seconds.
   */
  lemma DatetimeShown<D>(entry: string, millis: bool, strptime: (string, string) -> Option<D>,
                         stamp: D -> Outcome<real>)
    requires DatetimeReply(entry, millis, strptime, stamp).Shown?
    ensures var dt := FirstParse(Formats, Strip(entry), strptime);
      dt.Some? && stamp(dt.value).Ok? &&
      PyInt(DatetimeReply(entry, millis, strptime, stamp).text) == Some(StampValue(stamp(dt.value).value, millis))
  {
    var text := Strip(entry);
    var dt := FirstParse(Formats, text, strptime);
    assert text != [] && dt.Some? && stamp(dt.value).Ok?;
    IntRoundTrip(StampValue(stamp(dt.value).value, millis));
  }

  /** Whatever the entry, the millisecond result is the second result times 1000. */
  lemma DatetimeUnits<D>(entry: string, strptime: (string, string) -> Option<D>, stamp: D -> Outcome<real>, v: int)
    requires DatetimeReply(entry, false, strptime, stamp) == Shown(IntToString(v))
    ensures DatetimeReply(entry, true, strptime, stamp) == Shown(IntToString(v * 1000))
  {
    var text := Strip(entry);
    var dt := FirstParse(Formats, text, strptime);
    assert text != [] && dt.Some? && stamp(dt.value).Ok?;
    var seconds := StampValue(stamp(dt.value).value, false);
    IntRoundTrip(seconds);
    IntRoundTrip(v);
  }

  /** When no format accepts the text, the format help is shown whatever the unit. */
  lemma DatetimeNoFormat<D>(entry: string, millis: bool, strptime: (string, string) -> Option<D>,
                            stamp: D -> Outcome<real>)
    requires !AllSpace(entry)
    requires forall k :: 0 <= k < |Formats| ==> strptime(Strip(entry), Formats[k]).None?
    ensures DatetimeReply(entry, millis, strptime, stamp) == Shows(NoFormatError)
  {
    StripEmptyIff(entry);
  }

  // ---------------------------------------------------------------------------------------
  // Copying with a unit

  const NothingToCopyWarning := Warning("警告", "请先转换时间")
  const InvalidStampError := Error("错误", "无效的时间戳")

  /** The confirmation after copying, naming the selected unit. */
  function CopiedInfo(millis: bool): Dialog {
    Info("成功", "时间戳(" + (if millis then "毫秒" else "秒") + ")已复制到剪贴板")
  }

  /**
   * The text `copy_with_unit` copies from a non-empty result field: `str(int × 1000)` with
   * milliseconds selected, the field verbatim otherwise; `None` when `int()` rejects it.
   */
  function CopyText(shown: string, millis: bool): Option<string> {
    match PyInt(shown)
    case None => None
    case Some(v) => Some(if millis then IntToString(v * 1000) else shown)
  }

  /** A result `str(v)` is copied as `str(v)` in seconds and as `str(v × 1000)` in milliseconds. */
  lemma CopyOfStamp(v: int, millis: bool)
    ensures CopyText(IntToString(v), millis) == Some(IntToString(if millis then v * 1000 else v))
  {
    IntRoundTrip(v);
  }

  /**
   * A result converted with milliseconds selected is scaled a second time when it is copied
   * with milliseconds still selected.
   */
  lemma CopyScalesTwice(stamp: real)
    ensures CopyText(IntToString(StampValue(stamp, true)), true) ==
      Some(IntToString(TruncToZero(stamp) * 1000000))
  {
    CopyOfStamp(StampValue(stamp, true), true);
  }

  // ---------------------------------------------------------------------------------------
  // The tool

  const PauseLabel := "⏸️ 停止"
  const ResumeLabel := "▶️ 开始"

  /** The stop button's text for a state of the update flag. */
  function LabelFor(updating: bool): string {
    if updating then PauseLabel else ResumeLabel
  }

  /**
   * The converter's state: the update flag and its button, the clock label, the two read-only
   * result fields, the unit radio buttons, the clipboard, and the dialogs shown so far.
   */
  class TimestampConverterTool {
    var isUpdating: bool
    var stopLabel: string
    var clockLabel: string
    var timestampResult: string
    var datetimeResult: string
    var millis: bool
    var clipboard: string
    var dialogs: seq<Dialog>

    /**
     * The button always names the action that flips the flag, and the date result field,
     * which only `convert_datetime` writes, is empty or an integer `int()` reads back.
     */
    ghost predicate Valid()
      reads this`isUpdating, this`stopLabel, this`datetimeResult
    {
      stopLabel == LabelFor(isUpdating) && (datetimeResult == [] || PyInt(datetimeResult).Some?)
    }

    /** `setup_ui`: updating on, seconds selected, fields empty, then the first clock update. */
    constructor(now: int, clipboardText: string)
      ensures Valid()
      ensures isUpdating && clockLabel == IntToString(now) && !millis
      ensures timestampResult == [] && datetimeResult == [] && clipboard == clipboardText && dialogs == []
    {
      isUpdating := true;
      stopLabel := PauseLabel;
      clockLabel := "";
      timestampResult := "";
      datetimeResult := "";
      millis := false;
      clipboard := clipboardText;
      dialogs := [];
      new;
      assert Valid();
      UpdateCurrentTime(now);
    }

    /** `update_current_time`: the clock label follows the clock only while updating is on. */
    method UpdateCurrentTime(now: int)
      modifies this`clockLabel
      ensures clockLabel == if isUpdating then IntToString(now) else old(clockLabel)
    {
      if isUpdating {
        clockLabel := IntToString(now);
      }
    }

    /** `toggle_update`: flip the flag and relabel the button after the new state. */
    method ToggleUpdate()
      requires Valid()
      modifies this`isUpdating, this`stopLabel
      ensures Valid()
      ensures isUpdating == !old(isUpdating)
    {
      isUpdating := !isUpdating;
      if isUpdating {
        stopLabel := PauseLabel;
      } else {
        stopLabel := ResumeLabel;
      }
    }

    /** Toggling twice gives back the flag and the button text. */
    method ToggleTwice()
      requires Valid()
      modifies this`isUpdating, this`stopLabel
      ensures Valid()
      ensures isUpdating == old(isUpdating) && stopLabel == old(stopLabel)
    {
      ToggleUpdate();
      ToggleUpdate();
    }

    /** The unit radio buttons. */
    method SelectUnit(milliseconds: bool)
      modifies this`millis
      ensures millis == milliseconds
    {
      millis := milliseconds;
    }

    /**
     * `convert_timestamp` on the entry text: the result field is written only when a readable
     * time comes out; otherwise exactly one dialog is added and the field keeps its text.
     */
    method ConvertTimestamp(entry: string, parseFloat: string -> Option<real>, render: real -> Outcome<string>)
      modifies this`timestampResult, this`dialogs
      ensures var reply := TimestampReply(entry, parseFloat, render);
        timestampResult == (if reply.Shown? then reply.text else old(timestampResult)) &&
        dialogs == old(dialogs) + (if reply.Shows? then [reply.dialog] else [])
    {
      var text := Strip(entry);
      if text == [] {
        dialogs := dialogs + [EmptyTimestampWarning];
        return;
      }
      ConvertNumber(text, parseFloat, render);
    }

    /** The part of `convert_timestamp` after the blank check. */
    method ConvertNumber(text: string, parseFloat: string -> Option<real>, render: real -> Outcome<string>)
      modifies this`timestampResult, this`dialogs
      ensures var reply := NumberReply(text, parseFloat, render);
        timestampResult == (if reply.Shown? then reply.text else old(timestampResult)) &&
        dialogs == old(dialogs) + (if reply.Shows? then [reply.dialog] else [])
    {
      var parsed := parseFloat(text);
      if parsed.None? {
        dialogs := dialogs + [NotANumberError];
        return;
      }
      var timestamp := parsed.value;
      if timestamp > MillisThreshold {
        timestamp := timestamp / 1000.0;
      }
      match render(timestamp) {
        case Ok(readable) => timestampResult := readable;
        case Raised(ValueError(_)) => dialogs := dialogs + [NotANumberError];
        case Raised(OSError(_)) => dialogs := dialogs + [OutOfRangeError];
        case Raised(OtherError(m)) => dialogs := dialogs + [FailedError(OtherError(m))];
      }
    }

    /**
     * What a `convert_datetime` run leaves for `reply`: a shown text goes to the result field
     * and adds no dialog; a dialog is added and the field keeps its text.
     */
    twostate predicate DatetimeAnswered(reply: Reply)
      reads this
    {
      datetimeResult == (if reply.Shown? then reply.text else old(datetimeResult)) &&
      dialogs == old(dialogs) + (if reply.Shows? then [reply.dialog] else [])
    }

    /**
     * `convert_datetime` on the entry text: the result field is written only when a format
     * matched and the timestamp could be taken; otherwise exactly one dialog is added and the
     * field keeps its text.
     */
    method ConvertDatetime<D>(entry: string, strptime: (string, string) -> Option<D>, stamp: D -> Outcome<real>)
      requires Valid()
      modifies this`datetimeResult, this`dialogs
      ensures Valid()
      ensures DatetimeAnswered(DatetimeReply(entry, millis, strptime, stamp))
    {
      var text := Strip(entry);
      if text == [] {
        ShowDialog(EmptyDatetimeWarning);
        return;
      }
      ConvertParsed(text, strptime, stamp);
    }

    /** `show_message`: one more dialog, and nothing else changes. */
    method ShowDialog(d: Dialog)
      requires Valid()
      modifies this`dialogs
      ensures Valid()
      ensures dialogs == old(dialogs) + [d]
    {
      dialogs := dialogs + [d];
    }

    /** The part of `convert_datetime` after the blank check. */
    method ConvertParsed<D>(text: string, strptime: (string, string) -> Option<D>, stamp: D -> Outcome<real>)
      requires Valid()
      modifies this`datetimeResult, this`dialogs
      ensures Valid()
      ensures DatetimeAnswered(ParsedReply(text, millis, strptime, stamp))
    {
      var dt := FindFormat(text, strptime);
      if dt.None? {
        dialogs := dialogs + [NoFormatError];
        return;
      }
      match stamp(dt.value) {
        case Raised(f) =>
          dialogs := dialogs + [FailedError(f)];
        case Ok(t) =>
          ShowStamp(t);
      }
    }

    /** Write `str(int(t))`, times 1000 when milliseconds are selected, to the result field. */
    method ShowStamp(t: real)
      requires Valid()
      modifies this`datetimeResult
      ensures Valid()
      ensures datetimeResult == IntToString(StampValue(t, millis))
    {
      var timestamp := TruncToZero(t);
      if millis {
        timestamp := timestamp * 1000;
      }
      IntRoundTrip(timestamp);
      datetimeResult := IntToString(timestamp);
    }

    /**
     * `copy_with_unit`: an empty result field gives a warning; text `int()` rejects gives the
     * error; otherwise the text of `CopyText` goes to the clipboard, with a confirmation, when
     * the clipboard accepts it (`copy_to_clipboard` returns whether it did).
     */
    method CopyWithUnit(clipboardOk: bool)
      modifies this`clipboard, this`dialogs
      ensures datetimeResult == [] ==>
        clipboard == old(clipboard) && dialogs == old(dialogs) + [NothingToCopyWarning]
      ensures datetimeResult != [] ==>
        match CopyText(datetimeResult, millis)
        case None => clipboard == old(clipboard) && dialogs == old(dialogs) + [InvalidStampError]
        case Some(t) =>
          if clipboardOk then clipboard == t && dialogs == old(dialogs) + [CopiedInfo(millis)]
          else clipboard == old(clipboard) && dialogs == old(dialogs)
    {
      var shown := datetimeResult;
      if shown == [] {
        dialogs := dialogs + [NothingToCopyWarning];
        return;
      }
      var timestamp := PyInt(shown);
      if timestamp.None? {
        dialogs := dialogs + [InvalidStampError];
        return;
      }
      var result := if millis then IntToString(timestamp.value * 1000) else shown;
      if clipboardOk {
        clipboard := result;
        dialogs := dialogs + [CopiedInfo(millis)];
      }
    }
  }
}
