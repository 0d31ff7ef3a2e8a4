/**
 * The screen commands the assistant exposes to the language model: each one
 * forwards to the screen-vision helpers and turns the outcome into a reply
 * `{status, message, ...}`.
 *
 * What the helpers observe (whether a capture worked, what the analyser or
 * OCR reported, whether typing raised) is passed in as parameters; the GUI
 * calls the commands make are returned as an event list.
 */
module ScreenCommands {
  import opened Wrappers
  import opened Text
  import opened Actions
  import opened Ocr
  import opened ScreenVision

  datatype Status = Success | Error

  /** The reply dictionary; the optional keys are present only where the source sets them. */
  datatype Reply = Reply(
    status: Status,
    message: string,
    text: Option<string>,
    timestamp: Option<int>,
    resolution: Option<(int, int)>)

  function ErrorReply(message: string): Reply {
    Reply(Error, message, None, None, None)
  }

  function SuccessReply(message: string): Reply {
    Reply(Success, message, None, None, None)
  }

  const MSG_NO_SCREENSHOT := "Не удалось сделать скриншот."
  const MSG_SCREENSHOT_TAKEN := "Скриншот успешно сделан."
  const MSG_TEXT_READ := "Текст успешно считан."
  const MSG_TYPE_FAILED := "Не удалось ввести текст."

  /** What `extract_text_from_screenshot` returns without a GUI. */
  const STUB_OCR_TEXT := "Пример текста на экране (заглушка OCR)"

  // ---------------------------------------------------------------------------
  // the region argument "x,y,width,height"

  function BadRegionMessage(region: string): string {
    "Неверный формат области: " + region + ". Используйте формат 'x,y,width,height'."
  }

  /** The four pieces of `region.split(',')` all convert with `int`. */
  predicate IsRegionText(parts: seq<string>) {
    && |parts| == 4
    && ParseInt(parts[0]).Some? && ParseInt(parts[1]).Some?
    && ParseInt(parts[2]).Some? && ParseInt(parts[3]).Some?
  }

  /**
   * `x, y, w, h = map(int, region.split(','))` behind `if region:`. No region and
   * the empty string mean the whole screen; a wrong number of pieces or a piece
   * `int` refuses is the format error.
   */
  function ParseRegion(region: Option<string>): (r: Result<Option<Region>, string>)
    ensures r == Ok(None) <==> region.None? || region.value == ""
    ensures r.Ok? && r.value.Some? <==>
      region.Some? && region.value != "" && IsRegionText(Split(region.value, ','))
    ensures r.Ok? && r.value.Some? ==>
      var parts := Split(region.value, ',');
      r.value.value == Region(ParseInt(parts[0]).value, ParseInt(parts[1]).value,
                              ParseInt(parts[2]).value, ParseInt(parts[3]).value)
    ensures r.Err? ==> region.Some? && r.error == BadRegionMessage(region.value)
  {
    if region.None? || region.value == "" then Ok(None)
    else
      var parts := Split(region.value, ',');
      if IsRegionText(parts) then
        Ok(Some(Region(ParseInt(parts[0]).value, ParseInt(parts[1]).value,
                       ParseInt(parts[2]).value, ParseInt(parts[3]).value)))
      else Err(BadRegionMessage(region.value))
  }

  /** The text a caller writes for a region: `f"{x},{y},{w},{h}"`. */
  function FormatRegion(rg: Region): (s: string)
    ensures s != ""
  {
    Join(Coordinates(rg), ',')
  }

  lemma IntToStringHasNoComma(n: int)
    ensures ',' !in IntToString(n)
  {
    IntToStringChars(n);
  }

  /** The four coordinates of a region as `str` writes them. */
  function Coordinates(rg: Region): (parts: seq<string>)
    ensures |parts| == 4
  {
    [IntToString(rg.left), IntToString(rg.top), IntToString(rg.width), IntToString(rg.height)]
  }

  lemma SplitFormatRegion(rg: Region)
    ensures Split(FormatRegion(rg), ',') == Coordinates(rg)
  {
    IntToStringHasNoComma(rg.left);
    IntToStringHasNoComma(rg.top);
    IntToStringHasNoComma(rg.width);
    IntToStringHasNoComma(rg.height);
    SplitJoin(Coordinates(rg), ',');
  }

  /** Each coordinate reads back as itself. */
  lemma ParseCoordinates(rg: Region)
    ensures ParseInt(Coordinates(rg)[0]) == Some(rg.left)
    ensures ParseInt(Coordinates(rg)[1]) == Some(rg.top)
    ensures ParseInt(Coordinates(rg)[2]) == Some(rg.width)
    ensures ParseInt(Coordinates(rg)[3]) == Some(rg.height)
  {
    ParseIntRoundTrip(rg.left);
    ParseIntRoundTrip(rg.top);
    ParseIntRoundTrip(rg.width);
    ParseIntRoundTrip(rg.height);
  }

  /** Every region written as "x,y,width,height" is read back as itself. */
  lemma ParseFormatRegion(rg: Region)
    ensures ParseRegion(Some(FormatRegion(rg))) == Ok(Some(rg))
  {
    var s := FormatRegion(rg);
    var parts := Coordinates(rg);
    SplitFormatRegion(rg);
    ParseCoordinates(rg);
    assert IsRegionText(parts);
    var r := ParseRegion(Some(s));
    assert r.Ok? && r.value.Some?;
    assert r.value.value == Region(ParseInt(parts[0]).value, ParseInt(parts[1]).value,
                                   ParseInt(parts[2]).value, ParseInt(parts[3]).value);
  }

  /** A region with a missing coordinate is refused, naming the text it was given. */
  lemma ThreeCoordinatesAreRefused(a: int, b: int, c: int)
    ensures ParseRegion(Some(Join([IntToString(a), IntToString(b), IntToString(c)], ','))).Err?
  {
    var parts := [IntToString(a), IntToString(b), IntToString(c)];
    IntToStringHasNoComma(a);
    IntToStringHasNoComma(b);
    IntToStringHasNoComma(c);
    SplitJoin(parts, ',');
  }

  // ---------------------------------------------------------------------------
  // take_screenshot and read_screen_text

  /** The keys of `analyze_screen`'s dictionary the command reads; all are absent when it failed. */
  datatype Analysis = Analysis(text: Option<string>, timestamp: Option<int>, resolution: Option<(int, int)>)

  /**
   * `take_screenshot`. With a GUI, `captureOk` says whether `capture_screenshot` worked;
   * `analyze_screen` then captures again and reports `analysis`. Without a GUI the capture
   * is a stub that never fails. `now` is `int(time.time())`.
   */
  function TakeScreenshot(region: Option<string>, hasGui: bool, captureOk: bool, analysis: Analysis, now: int)
    : (out: (Reply, seq<Action>))
    ensures out.0.status == Success <==> ParseRegion(region).Ok? && (captureOk || !hasGui)
    ensures ParseRegion(region).Err? ==> out == (ErrorReply(ParseRegion(region).error), [])
    ensures ParseRegion(region).Ok? && hasGui && !captureOk ==>
      out == (ErrorReply(MSG_NO_SCREENSHOT), [Capture(ParseRegion(region).value)])
    ensures out.0.status == Success ==>
      && out.0.message == MSG_SCREENSHOT_TAKEN
      && out.0.text == Some(if analysis.text.Some? then analysis.text.value else "")
      && out.0.timestamp == Some(if analysis.timestamp.Some? then analysis.timestamp.value else now)
      && out.0.resolution == Some(if analysis.resolution.Some? then analysis.resolution.value else (0, 0))
    ensures out.0.status == Success && hasGui ==>
      out.1 == [Capture(ParseRegion(region).value), Capture(ParseRegion(region).value)]
    ensures !hasGui ==> out.1 == []
  {
    match ParseRegion(region)
    case Err(msg) => (ErrorReply(msg), [])
    case Ok(rg) =>
      if hasGui && !captureOk then (ErrorReply(MSG_NO_SCREENSHOT), [Capture(rg)])
      else
        var reply := Reply(Success, MSG_SCREENSHOT_TAKEN,
                           Some(analysis.text.GetOr("")),
                           Some(analysis.timestamp.GetOr(now)),
                           Some(analysis.resolution.GetOr((0, 0))));
        (reply, if hasGui then [Capture(rg), Capture(rg)] else [])
  }

  /**
   * `read_screen_text`. With a GUI, `extracted` is what OCR returned for the capture;
   * without one the stub text is reported.
   */
  function ReadScreenText(region: Option<string>, hasGui: bool, captureOk: bool, extracted: string)
    : (out: (Reply, seq<Action>))
    ensures out.0.status == Success <==> ParseRegion(region).Ok? && (captureOk || !hasGui)
    ensures ParseRegion(region).Err? ==> out == (ErrorReply(ParseRegion(region).error), [])
    ensures ParseRegion(region).Ok? && hasGui && !captureOk ==>
      out == (ErrorReply(MSG_NO_SCREENSHOT), [Capture(ParseRegion(region).value)])
    ensures out.0.status == Success ==>
      && out.0.message == MSG_TEXT_READ
      && out.0.text == Some(if hasGui then extracted else STUB_OCR_TEXT)
      && out.0.timestamp.None? && out.0.resolution.None?
    ensures out.0.status == Success ==> out.1 == if hasGui then [Capture(ParseRegion(region).value)] else []
  {
    match ParseRegion(region)
    case Err(msg) => (ErrorReply(msg), [])
    case Ok(rg) =>
      if hasGui && !captureOk then (ErrorReply(MSG_NO_SCREENSHOT), [Capture(rg)])
      else
        var text := if hasGui then extracted else STUB_OCR_TEXT;
        (Reply(Success, MSG_TEXT_READ, Some(text), None, None), if hasGui then [Capture(rg)] else [])
  }

  /** Reading text never captures more than once, and a refused region captures nothing. */
  lemma ReadScreenTextCapturesOnce(region: Option<string>, hasGui: bool, captureOk: bool, extracted: string)
    ensures |ReadScreenText(region, hasGui, captureOk, extracted).1| <= 1
    ensures ParseRegion(region).Err? ==> ReadScreenText(region, hasGui, captureOk, extracted).1 == []
  {
  }

  // ---------------------------------------------------------------------------
  // click_on_text, input_text, find_and_click_then_type

  function ClickedMessage(text: string, doubleClick: bool): string {
    (if doubleClick then "Двойной клик" else "Клик") + " по тексту '" + text + "' выполнен успешно."
  }

  function TextNotFoundMessage(text: string): string {
    "Не удалось найти текст '" + text + "' на экране."
  }

  function TypedMessage(text: string): string {
    "Текст '" + text + "' успешно введен."
  }

  function ClickedAndTypedMessage(text: string, input: string): string {
    "Клик по тексту '" + text + "' и ввод текста '" + input + "' выполнены успешно."
  }

  function ClickedButNotTypedMessage(text: string): string {
    "Клик по тексту '" + text + "' выполнен успешно, но не удалось ввести текст."
  }

  /** When `type_text` reports success. */
  predicate TypeSucceeds(hasGui: bool, writeOk: bool) {
    !hasGui || writeOk
  }

  /** `click_on_text`: the reply follows `click_element_by_text`'s boolean. */
  method ClickOnText(hasGui: bool, screen: Option<OcrData>, text: string, doubleClick: bool)
    returns (reply: Reply, events: seq<Action>)
    requires screen.Some? ==> WellFormed(screen.value)
    ensures reply.status == Success <==> ClickSucceeds(hasGui, screen, text)
    ensures reply == if ClickSucceeds(hasGui, screen, text) then SuccessReply(ClickedMessage(text, doubleClick))
                     else ErrorReply(TextNotFoundMessage(text))
    ensures events == ClickEvents(hasGui, screen, text, doubleClick)
    ensures ClickCount(events) == if hasGui && reply.status == Success then 1 else 0
  {
    var ok;
    ok, events := ClickElementByText(hasGui, screen, text, doubleClick);
    ClickEventsCount(hasGui, screen, text, doubleClick);
    if ok {
      reply := SuccessReply(ClickedMessage(text, doubleClick));
    } else {
      reply := ErrorReply(TextNotFoundMessage(text));
    }
  }

  /** `input_text`. */
  method InputText(hasGui: bool, writeOk: bool, text: string) returns (reply: Reply, events: seq<Action>)
    ensures reply.status == Success <==> TypeSucceeds(hasGui, writeOk)
    ensures reply == if TypeSucceeds(hasGui, writeOk) then SuccessReply(TypedMessage(text))
                     else ErrorReply(MSG_TYPE_FAILED)
    ensures events == if hasGui then [Write(text)] else []
  {
    var ok;
    ok, events := TypeText(hasGui, writeOk, text);
    reply := if ok then SuccessReply(TypedMessage(text)) else ErrorReply(MSG_TYPE_FAILED);
  }

  /**
   * `find_and_click_then_type`: a single click on `text`, then typing `input` only if the
   * click succeeded. The half-second pause between the two is not modelled.
   */
  method FindAndClickThenType(hasGui: bool, screen: Option<OcrData>, writeOk: bool, text: string, input: string)
    returns (reply: Reply, events: seq<Action>)
    requires screen.Some? ==> WellFormed(screen.value)
    ensures reply.status == Success <==> ClickSucceeds(hasGui, screen, text) && TypeSucceeds(hasGui, writeOk)
    ensures !ClickSucceeds(hasGui, screen, text) ==>
      reply == ErrorReply(TextNotFoundMessage(text)) && Write(input) !in events
    ensures ClickSucceeds(hasGui, screen, text) ==>
      reply == if TypeSucceeds(hasGui, writeOk) then SuccessReply(ClickedAndTypedMessage(text, input))
               else ErrorReply(ClickedButNotTypedMessage(text))
    ensures events == ClickEvents(hasGui, screen, text, false) +
      (if hasGui && ClickSucceeds(hasGui, screen, text) then [Write(input)] else [])
    ensures ClickCount(events) == if hasGui && ClickSucceeds(hasGui, screen, text) then 1 else 0
  {
    var clicked;
    clicked, events := ClickElementByText(hasGui, screen, text, false);
    ClickEventsCount(hasGui, screen, text, false);
    if !clicked {
      reply := ErrorReply(TextNotFoundMessage(text));
      return;
    }
    var typed, typing := TypeText(hasGui, writeOk, input);
    ClickCountAppend(events, typing);
    events := events + typing;
    if typed {
      reply := SuccessReply(ClickedAndTypedMessage(text, input));
    } else {
      reply := ErrorReply(ClickedButNotTypedMessage(text));
    }
  }

  /** Appending events that are not clicks does not change the click count. */
  lemma {:induction false} ClickCountAppend(events: seq<Action>, more: seq<Action>)
    requires forall k :: 0 <= k < |more| ==> !IsMouseClick(more[k])
    ensures ClickCount(events + more) == ClickCount(events)
    decreases |events|
  {
    if |events| > 0 {
      assert (events + more)[1..] == events[1..] + more;
      ClickCountAppend(events[1..], more);
    }
  }

  // ---------------------------------------------------------------------------
  // find_text_field

  /** The labels tried first, in order. */
  function FieldLabels(f: string): seq<string> {
    [f, f + ":", "Введите " + f, "Ваш " + f, "Enter " + f, "Your " + f]
  }

  /** The placeholders tried next, in order. */
  function Placeholders(f: string): seq<string> {
    [f, "Введите " + f, "Search", "Поиск", "Email", "Пароль", "Логин", "Username", "Password"]
  }

  /** A placeholder is tried only if one of the lower-cased names contains the other. */
  predicate Eligible(f: string, p: string) {
    IsSubstring(Lower(f), Lower(p)) || IsSubstring(Lower(p), Lower(f))
  }

  /** Whether a candidate is looked for: labels always, placeholders only when eligible. */
  predicate Tried(f: string, p: string, filtered: bool) {
    !filtered || Eligible(f, p)
  }

  /** `find_element_by_text(screenshot, label)` with the default threshold. */
  function Locator(hasGui: bool, d: OcrData, target: string): Option<Region>
    requires WellFormed(d)
  {
    if hasGui then Locate(d, target, DEFAULT_THRESHOLD) else Some(STUB_ELEMENT)
  }

  /** For one candidate: whether it is looked for, and what the locator answers for it. */
  type Probe = (bool, Option<Region>)

  /** The probes of a candidate list, in order. */
  function Probes(hasGui: bool, d: OcrData, f: string, cands: seq<string>, filtered: bool): (ps: seq<Probe>)
    requires WellFormed(d)
    ensures |ps| == |cands|
  {
    seq(|cands|, k requires 0 <= k < |cands| => (Tried(f, cands[k], filtered), Locator(hasGui, d, cands[k])))
  }

  lemma ProbeAt(hasGui: bool, d: OcrData, f: string, cands: seq<string>, filtered: bool, k: nat)
    requires WellFormed(d) && k < |cands|
    ensures Probes(hasGui, d, f, cands, filtered)[k] == (Tried(f, cands[k], filtered), Locator(hasGui, d, cands[k]))
  {
  }

  predicate IsHit(p: Probe) { p.0 && p.1.Some? }

  /** The first probe that is tried and answered: the loop's early `return`. */
  function FirstHit(ps: seq<Probe>): (r: Option<nat>)
    ensures r.Some? ==>
      r.value < |ps| && IsHit(ps[r.value]) && forall k :: 0 <= k < r.value ==> !IsHit(ps[k])
    ensures r.None? <==> forall k :: 0 <= k < |ps| ==> !IsHit(ps[k])
    decreases |ps|
  {
    if |ps| == 0 then None
    else if IsHit(ps[0]) then Some(0)
    else
      var rest := FirstHit(ps[1..]);
      assert forall k :: 1 <= k < |ps| ==> ps[k] == ps[1..][k - 1];
      if rest.Some? then Some(rest.value + 1) else None
  }

  /** A hit with no hit before it is the first one. */
  lemma FirstHitAt(ps: seq<Probe>, i: nat)
    requires i < |ps| && IsHit(ps[i])
    requires forall k :: 0 <= k < i ==> !IsHit(ps[k])
    ensures FirstHit(ps) == Some(i)
  {
    var r := FirstHit(ps);
    assert r.Some?;
    assert !(r.value < i) && !(i < r.value);
  }

  /** Where the field was found: by a label, by a placeholder, or not at all. */
  datatype FieldHit = LabelHit(caption: string, box: Region) | PlaceholderHit(placeholder: string, box: Region) | NoField

  /** The outcome of the two searches of `find_text_field` on one screenshot. */
  function FieldSearch(hasGui: bool, d: OcrData, f: string): FieldHit
    requires WellFormed(d)
  {
    var lp := Probes(hasGui, d, f, FieldLabels(f), false);
    match FirstHit(lp)
    case Some(i) => LabelHit(FieldLabels(f)[i], lp[i].1.value)
    case None =>
      var pp := Probes(hasGui, d, f, Placeholders(f), true);
      match FirstHit(pp)
      case Some(j) => PlaceholderHit(Placeholders(f)[j], pp[j].1.value)
      case None => NoField
  }

  /**
   * The placeholders `f` and "Введите f" repeat the first and third labels on the same
   * screenshot, so the placeholder search can only succeed with another text.
   */
  lemma RepeatedPlaceholdersNeverWin(hasGui: bool, d: OcrData, f: string)
    requires WellFormed(d)
    ensures FieldSearch(hasGui, d, f).PlaceholderHit? ==>
      && Locator(hasGui, d, f).None?
      && Locator(hasGui, d, "Введите " + f).None?
      && FieldSearch(hasGui, d, f).placeholder != f
      && FieldSearch(hasGui, d, f).placeholder != "Введите " + f
  {
    var pp := Probes(hasGui, d, f, Placeholders(f), true);
    if FirstHit(Probes(hasGui, d, f, FieldLabels(f), false)).None? && FirstHit(pp).Some? {
      LabelsMissed(hasGui, d, f);
      var j := FirstHit(pp).value;
      ProbeAt(hasGui, d, f, Placeholders(f), true, j);
    }
  }

  /** When no label is found, neither `f` nor "Введите f" is on the screen. */
  lemma LabelsMissed(hasGui: bool, d: OcrData, f: string)
    requires WellFormed(d)
    requires FirstHit(Probes(hasGui, d, f, FieldLabels(f), false)).None?
    ensures Locator(hasGui, d, f).None? && Locator(hasGui, d, "Введите " + f).None?
  {
    var lp := Probes(hasGui, d, f, FieldLabels(f), false);
    ProbeAt(hasGui, d, f, FieldLabels(f), false, 0);
    ProbeAt(hasGui, d, f, FieldLabels(f), false, 2);
    assert !IsHit(lp[0]) && !IsHit(lp[2]);
  }

  /** Without a GUI the stub locator answers the first label, the field name itself. */
  lemma NoGuiFindsFirstLabel(d: OcrData, f: string)
    requires WellFormed(d)
    ensures FieldSearch(false, d, f) == LabelHit(f, STUB_ELEMENT)
  {
    ProbeAt(false, d, f, FieldLabels(f), false, 0);
    FirstHitAt(Probes(false, d, f, FieldLabels(f), false), 0);
  }

  /** A label is clicked 20 pixels right of its box, half-way down; a placeholder at its centre. */
  function FieldClickPoint(hit: FieldHit): (p: Point)
    requires !hit.NoField?
    ensures hit.LabelHit? ==> p.x == hit.box.left + hit.box.width + 20
    ensures p.y == hit.box.top + hit.box.height / 2
    ensures hit.PlaceholderHit? ==> p == Centre(hit.box)
  {
    match hit
    case LabelHit(_, b) => Point(b.left + b.width + 20, b.top + b.height / 2)
    case PlaceholderHit(_, b) => Centre(b)
  }

  /** `find_text_field` as it is evidently meant to behave: click where the field was found. */
  function FieldReply(f: string, hit: FieldHit): (r: Reply)
    ensures r.status == Success <==> !hit.NoField?
  {
    match hit
    case LabelHit(_, _) => SuccessReply("Поле ввода '" + f + "' найдено и выбрано.")
    case PlaceholderHit(p, _) => SuccessReply("Поле ввода с placeholder '" + p + "' найдено и выбрано.")
    case NoField => ErrorReply("Не удалось найти поле ввода '" + f + "' на экране.")
  }

  /**
   * What the `except` branch reports when a field is found: the module calls
   * `pyautogui.click` without importing `pyautogui`.
   */
  const MSG_NAME_ERROR := "Произошла ошибка: name 'pyautogui' is not defined"

  /** `find_text_field` as written: any hit raises before clicking. */
  function FieldReplyAsWritten(f: string, hit: FieldHit): (r: Reply)
    ensures r.status == Error
    ensures !hit.NoField? ==> r.message == MSG_NAME_ERROR
  {
    if hit.NoField? then ErrorReply("Не удалось найти поле ввода '" + f + "' на экране.")
    else ErrorReply(MSG_NAME_ERROR)
  }

  /** The two versions agree when nothing is found and differ on every hit. */
  lemma FieldReplyDiscrepancy(f: string, hit: FieldHit)
    ensures hit.NoField? ==> FieldReplyAsWritten(f, hit) == FieldReply(f, hit)
    ensures !hit.NoField? ==> FieldReplyAsWritten(f, hit).status == Error && FieldReply(f, hit).status == Success
  {
  }

  /** Concrete case: without a GUI every field is "found", so the command as written always fails. */
  lemma NoGuiFieldAlwaysFailsAsWritten(d: OcrData, f: string)
    requires WellFormed(d)
    ensures FieldReplyAsWritten(f, FieldSearch(false, d, f)) == ErrorReply(MSG_NAME_ERROR)
    ensures FieldReply(f, FieldSearch(false, d, f)) == SuccessReply("Поле ввода '" + f + "' найдено и выбрано.")
  {
    NoGuiFindsFirstLabel(d, f);
  }

  /** One loop of `find_text_field`: the first candidate tried and found, with its box. */
  method ProbeCandidates(hasGui: bool, d: OcrData, f: string, cands: seq<string>, filtered: bool)
    returns (r: Option<(nat, Region)>)
    requires WellFormed(d)
    ensures r.None? <==> FirstHit(Probes(hasGui, d, f, cands, filtered)).None?
    ensures r.Some? ==>
      && FirstHit(Probes(hasGui, d, f, cands, filtered)) == Some(r.value.0)
      && Probes(hasGui, d, f, cands, filtered)[r.value.0].1 == Some(r.value.1)
  {
    ghost var ps := Probes(hasGui, d, f, cands, filtered);
    for i := 0 to |cands|
      invariant forall k :: 0 <= k < i ==> !IsHit(ps[k])
    {
      ProbeAt(hasGui, d, f, cands, filtered, i);
      var wanted := Lower(f);
      var candidate := Lower(cands[i]);
      if !filtered || IsSubstring(wanted, candidate) || IsSubstring(candidate, wanted) {
        var element := FindElementByText(hasGui, d, cands[i], DEFAULT_THRESHOLD);
        if element.Some? {
          FirstHitAt(ps, i);
          return Some((i, element.value));
        }
      }
    }
    return None;
  }

  /** The two loops of `find_text_field` over one screenshot. */
  method LocateField(hasGui: bool, d: OcrData, f: string) returns (hit: FieldHit)
    requires WellFormed(d)
    ensures hit == FieldSearch(hasGui, d, f)
  {
    var labels := FieldLabels(f);
    var byLabel := ProbeCandidates(hasGui, d, f, labels, false);
    if byLabel.Some? {
      return LabelHit(labels[byLabel.value.0], byLabel.value.1);
    }
    var placeholders := Placeholders(f);
    var byPlaceholder := ProbeCandidates(hasGui, d, f, placeholders, true);
    if byPlaceholder.Some? {
      return PlaceholderHit(placeholders[byPlaceholder.value.0], byPlaceholder.value.1);
    }
    return NoField;
  }

  /**
   * `find_text_field` with the click it is evidently meant to make. `screen` is the OCR
   * output for the full-screen capture, `None` when the capture failed.
   */
  method FindTextField(hasGui: bool, screen: Option<OcrData>, f: string, doubleClick: bool)
    returns (reply: Reply, events: seq<Action>)
    requires screen.Some? ==> WellFormed(screen.value)
    ensures hasGui && screen.None? ==> reply == ErrorReply(MSG_NO_SCREENSHOT) && events == [Capture(None)]
    ensures hasGui && screen.Some? ==>
      var hit := FieldSearch(true, screen.value, f);
      && reply == FieldReply(f, hit)
      && events == [Capture(None)] +
           (if hit.NoField? then []
            else [if doubleClick then DoubleClick(FieldClickPoint(hit)) else Click(FieldClickPoint(hit))])
    ensures !hasGui ==> reply == FieldReply(f, LabelHit(f, STUB_ELEMENT)) && events == []
  {
    if !hasGui {
      var hit := LocateField(false, NO_TEXT, f);
      NoGuiFindsFirstLabel(NO_TEXT, f);
      return FieldReply(f, hit), [];
    }
    events := [Capture(None)];
    if screen.None? {
      return ErrorReply(MSG_NO_SCREENSHOT), events;
    }
    var hit := LocateField(true, screen.value, f);
    reply := FieldReply(f, hit);
    if !hit.NoField? {
      var at := FieldClickPoint(hit);
      events := events + [if doubleClick then DoubleClick(at) else Click(at)];
    }
  }

  /** `find_text_field` as written: it searches the same way, but no click is ever made. */
  method FindTextFieldAsWritten(hasGui: bool, screen: Option<OcrData>, f: string)
    returns (reply: Reply, events: seq<Action>)
    requires screen.Some? ==> WellFormed(screen.value)
    ensures hasGui && screen.None? ==> reply == ErrorReply(MSG_NO_SCREENSHOT) && events == [Capture(None)]
    ensures hasGui && screen.Some? ==>
      reply == FieldReplyAsWritten(f, FieldSearch(true, screen.value, f)) && events == [Capture(None)]
    ensures !hasGui ==> reply == ErrorReply(MSG_NAME_ERROR) && events == []
    ensures reply.status == Error && ClickCount(events) == 0
  {
    if !hasGui {
      var hit := LocateField(false, NO_TEXT, f);
      NoGuiFindsFirstLabel(NO_TEXT, f);
      return FieldReplyAsWritten(f, hit), [];
    }
    events := [Capture(None)];
    if screen.None? {
      return ErrorReply(MSG_NO_SCREENSHOT), events;
    }
    var hit := LocateField(true, screen.value, f);
    reply := FieldReplyAsWritten(f, hit);
  }

  /** No tokens: what the stub locator is given when there is no GUI (it looks at nothing). */
  const NO_TEXT: OcrData := OcrData([], [], [], [], [], [])
}
