/**
 * The handlers that connect the JSON tool calls to the screen commands: each
 * reads its parameters from the call's dictionary, rejects a call whose
 * required text is missing or empty, and otherwise delegates with the
 * parameters it read (defaults filled in, nothing converted).
 */
module ScreenCommandsHandler {
  import opened Wrappers
  import ScreenCommands

  /** A JSON parameter value, with Python's truthiness below. */
  datatype Value = Null | Bool(b: bool) | Int(i: int) | Num(r: real) | Str(s: string)

  /** `bool(v)`: `None`, `False`, `0`, `0.0` and `""` are false. */
  predicate Truthy(v: Value) {
    match v
    case Null => false
    case Bool(b) => b
    case Int(i) => i != 0
    case Num(r) => r != 0.0
    case Str(s) => s != ""
  }

  type Params = map<string, Value>

  /** `params.get(key, default)`. */
  function Param(params: Params, key: string, default: Value): (v: Value)
    ensures key in params ==> v == params[key]
    ensures key !in params ==> v == default
  {
    if key in params then params[key] else default
  }

  /** The default `interval` of the typing commands, in seconds. */
  const DEFAULT_INTERVAL: Value := Num(0.05)

  /** A screen command invoked with the values the handler read. */
  datatype Call =
    | TakeScreenshot(region: Value)
    | ReadScreenText(region: Value)
    | ClickOnText(text: Value, doubleClick: Value)
    | InputText(text: Value, interval: Value)
    | FindAndClickThenType(text: Value, inputText: Value, interval: Value)
    | FindTextField(fieldName: Value, doubleClick: Value)

  /** A handler either answers with an error itself or delegates. */
  datatype Handled = Rejected(reply: ScreenCommands.Reply) | Delegated(call: Call)

  const MSG_NO_SEARCH_TEXT := "Не указан текст для поиска."
  const MSG_NO_INPUT_TEXT := "Не указан текст для ввода."
  const MSG_NO_FIELD_NAME := "Не указано название поля для поиска."

  function Reject(message: string): Handled {
    Rejected(ScreenCommands.ErrorReply(message))
  }

  /** `handle_take_screenshot_vision`: the region is passed on as given, `None` included. */
  function HandleTakeScreenshot(params: Params): (h: Handled)
    ensures h.Delegated? && h.call.TakeScreenshot?
    ensures "region" in params ==> h.call.region == params["region"]
    ensures "region" !in params ==> h.call.region == Null
  {
    Delegated(TakeScreenshot(Param(params, "region", Null)))
  }

  /** `handle_read_screen_text`: as above, for reading text. */
  function HandleReadScreenText(params: Params): (h: Handled)
    ensures h.Delegated? && h.call.ReadScreenText?
    ensures "region" in params ==> h.call.region == params["region"]
    ensures "region" !in params ==> h.call.region == Null
  {
    Delegated(ReadScreenText(Param(params, "region", Null)))
  }

  /** `handle_click_on_text`: text is required; `double_click` defaults to `False`. */
  function HandleClickOnText(params: Params): (h: Handled)
    ensures h.Rejected? <==> !Truthy(Param(params, "text", Null))
    ensures h.Rejected? ==> h == Reject(MSG_NO_SEARCH_TEXT)
    ensures h.Delegated? ==>
      h.call == ClickOnText(params["text"], Param(params, "double_click", Bool(false)))
  {
    var text := Param(params, "text", Null);
    var doubleClick := Param(params, "double_click", Bool(false));
    if !Truthy(text) then Reject(MSG_NO_SEARCH_TEXT)
    else Delegated(ClickOnText(text, doubleClick))
  }

  /** `handle_input_text_vision`: text is required. */
  function HandleInputText(params: Params): (h: Handled)
    ensures h.Rejected? <==> !Truthy(Param(params, "text", Null))
    ensures h.Rejected? ==> h == Reject(MSG_NO_INPUT_TEXT)
    ensures h.Delegated? ==> h.call == InputText(params["text"], Param(params, "interval", DEFAULT_INTERVAL))
  {
    var text := Param(params, "text", Null);
    var interval := Param(params, "interval", DEFAULT_INTERVAL);
    if !Truthy(text) then Reject(MSG_NO_INPUT_TEXT)
    else Delegated(InputText(text, interval))
  }

  /** `handle_find_and_click_then_type`: text is checked first, then the text to type. */
  function HandleFindAndClickThenType(params: Params): (h: Handled)
    ensures h.Rejected? <==> !Truthy(Param(params, "text", Null)) || !Truthy(Param(params, "input_text", Null))
    ensures !Truthy(Param(params, "text", Null)) ==> h == Reject(MSG_NO_SEARCH_TEXT)
    ensures Truthy(Param(params, "text", Null)) && !Truthy(Param(params, "input_text", Null)) ==>
      h == Reject(MSG_NO_INPUT_TEXT)
    ensures h.Delegated? ==>
      h.call == FindAndClickThenType(params["text"], params["input_text"], Param(params, "interval", DEFAULT_INTERVAL))
  {
    var text := Param(params, "text", Null);
    var inputText := Param(params, "input_text", Null);
    var interval := Param(params, "interval", DEFAULT_INTERVAL);
    if !Truthy(text) then Reject(MSG_NO_SEARCH_TEXT)
    else if !Truthy(inputText) then Reject(MSG_NO_INPUT_TEXT)
    else Delegated(FindAndClickThenType(text, inputText, interval))
  }

  /** `handle_find_text_field`: the field name is required; `double_click` defaults to `False`. */
  function HandleFindTextField(params: Params): (h: Handled)
    ensures h.Rejected? <==> !Truthy(Param(params, "field_name", Null))
    ensures h.Rejected? ==> h == Reject(MSG_NO_FIELD_NAME)
    ensures h.Delegated? ==>
      h.call == FindTextField(params["field_name"], Param(params, "double_click", Bool(false)))
  {
    var fieldName := Param(params, "field_name", Null);
    var doubleClick := Param(params, "double_click", Bool(false));
    if !Truthy(fieldName) then Reject(MSG_NO_FIELD_NAME)
    else Delegated(FindTextField(fieldName, doubleClick))
  }

  /** The names of `screen_command_handlers`, in order. */
  const HANDLER_NAMES: seq<string> := [
    "take_screenshot_vision", "read_screen_text", "click_on_text",
    "input_text_vision", "find_and_click_then_type", "find_text_field"]

  /** Looking a tool name up in `screen_command_handlers` and calling the handler. */
  function Dispatch(name: string, params: Params): (r: Option<Handled>)
    ensures r.Some? <==> name in HANDLER_NAMES
  {
    if name == "take_screenshot_vision" then Some(HandleTakeScreenshot(params))
    else if name == "read_screen_text" then Some(HandleReadScreenText(params))
    else if name == "click_on_text" then Some(HandleClickOnText(params))
    else if name == "input_text_vision" then Some(HandleInputText(params))
    else if name == "find_and_click_then_type" then Some(HandleFindAndClickThenType(params))
    else if name == "find_text_field" then Some(HandleFindTextField(params))
    else None
  }

  /** The table has six distinct names. */
  lemma HandlerNamesDistinct()
    ensures |HANDLER_NAMES| == 6
    ensures forall i, j :: 0 <= i < j < |HANDLER_NAMES| ==> HANDLER_NAMES[i] != HANDLER_NAMES[j]
  {
  }

  /** The name of the screen command each handler ends in, when it delegates. */
  function CallName(c: Call): string {
    match c
    case TakeScreenshot(_) => "take_screenshot"
    case ReadScreenText(_) => "read_screen_text"
    case ClickOnText(_, _) => "click_on_text"
    case InputText(_, _) => "input_text"
    case FindAndClickThenType(_, _, _) => "find_and_click_then_type"
    case FindTextField(_, _) => "find_text_field"
  }

  /**
   * Two entries are renamed on the way: `take_screenshot_vision` goes to `take_screenshot` and
   * `input_text_vision` to `input_text`; the other four keep their names.
   */
  lemma DispatchTargets(name: string, params: Params)
    requires name in HANDLER_NAMES
    ensures Dispatch(name, params).value.Delegated? ==>
      CallName(Dispatch(name, params).value.call) ==
        if name == "take_screenshot_vision" then "take_screenshot"
        else if name == "input_text_vision" then "input_text"
        else name
  {
  }

  /** With neither text given, the missing search text is what is reported. */
  lemma MissingBothReportsSearchText(params: Params)
    requires "text" !in params && "input_text" !in params
    ensures HandleFindAndClickThenType(params) == Reject(MSG_NO_SEARCH_TEXT)
  {
  }
}
