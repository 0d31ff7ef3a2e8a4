/**
 * Request routing of the assistant: an explicit trigger phrase, or the
 * `USE_BROWSER_FOR_ALL_REQUESTS` switch, sends a request to the browser
 * chat; otherwise it goes to the direct API. The browser chat's result
 * dictionary is turned into the JSON reply `{status, gptMessage, source?}`.
 */
module GptService {
  import opened Wrappers
  import opened Text

  /** `os.environ.get("USE_BROWSER_FOR_ALL_REQUESTS", "1").lower() in ("1", "true", "yes")`. */
  predicate UseBrowser(env: Option<string>) {
    var v := Lower(env.GetOr("1"));
    v == "1" || v == "true" || v == "yes"
  }

  lemma UseBrowserDefaults()
    ensures UseBrowser(None)
    ensures UseBrowser(Some("true")) && UseBrowser(Some("yes"))
    ensures UseBrowser(Some("TRUE")) && UseBrowser(Some("Yes"))
    ensures !UseBrowser(Some("0")) && !UseBrowser(Some(""))
  {
    assert Lower("1") == "1";
    assert Lower("0") == "0";
    assert Lower("true") == "true";
    assert Lower("yes") == "yes";
    assert "TRUE" == ['T', 'R', 'U', 'E'];
    assert "Yes" == ['Y', 'e', 's'];
  }

  /** The setting does not depend on the case it is written in. */
  lemma UseBrowserIgnoresCase(v: string)
    ensures UseBrowser(Some(v)) <==> UseBrowser(Some(Lower(v)))
  {
    LowerIdempotent(v);
  }

  const TRIGGER := "обратись к gpt"

  /** `user_text.lower().startswith(trigger)`. */
  predicate HasTrigger(userText: string) {
    |userText| >= |TRIGGER| && Lower(userText)[..|TRIGGER|] == TRIGGER
  }

  /** Where a request goes. */
  datatype Route =
    | BrowserChat(query: string)
    | DirectApi(text: string)
    | MissingQuery

  /** The routing decision of `handle_user_input`. */
  function RouteOf(useBrowser: bool, userText: string): (r: Route)
    ensures r.MissingQuery? <==> HasTrigger(userText) && Strip(userText[|TRIGGER|..]) == ""
    ensures HasTrigger(userText) && !r.MissingQuery? ==> r == BrowserChat(Strip(userText[|TRIGGER|..]))
    ensures !HasTrigger(userText) ==> r == if useBrowser then BrowserChat(userText) else DirectApi(userText)
  {
    if HasTrigger(userText) then
      var query := Strip(userText[|TRIGGER|..]);
      if query != "" then BrowserChat(query) else MissingQuery
    else if useBrowser then BrowserChat(userText)
    else DirectApi(userText)
  }

  /** With the trigger the browser is used whatever the switch says, and the query is trimmed. */
  lemma TriggerOverridesSwitch(userText: string)
    requires HasTrigger(userText)
    ensures RouteOf(true, userText) == RouteOf(false, userText)
    ensures RouteOf(false, userText).BrowserChat? ==>
      var q := RouteOf(false, userText).query;
      q != "" && q[0] !in WHITESPACE && q[|q| - 1] !in WHITESPACE && |q| <= |userText| - |TRIGGER|
  {
  }

  /** The trigger is recognised in any letter case. */
  lemma TriggerIgnoresCase(userText: string)
    ensures HasTrigger(userText) <==> HasTrigger(Lower(userText))
  {
    LowerIdempotent(userText);
  }

  /** The JSON reply handed back to the UI. */
  datatype GptReply = GptReply(status: int, gptMessage: string, source: Option<string>)

  const MSG_MISSING_QUERY := "Пожалуйста, укажите запрос после 'обратись к gpt'."
  const BROWSER_ERROR_PREFIX := "Произошла ошибка при обращении к браузеру: "
  const UNKNOWN_ERROR := "Неизвестная ошибка"

  /** The keys of the orchestrator's result that are read; an absent key is `None`. */
  datatype ChatResult = ChatResult(status: Option<int>, message: Option<string>)

  /**
   * `process_browser_chat`. A missing key raises `KeyError`, whose text is the quoted key,
   * and lands in the `except` branch with status 500.
   */
  function ProcessBrowserChat(result: ChatResult): (r: GptReply)
    ensures r.source.Some? <==> result.status == Some(200) && result.message.Some?
    ensures r.source.Some? ==> r == GptReply(200, result.message.value, Some("browser_chat"))
    ensures result.status.None? ==> r == GptReply(500, BROWSER_ERROR_PREFIX + "'status'", None)
    ensures result.status == Some(200) && result.message.None? ==>
      r == GptReply(500, BROWSER_ERROR_PREFIX + "'message'", None)
    ensures result.status.Some? && result.status.value != 200 ==>
      r == GptReply(result.status.value, BROWSER_ERROR_PREFIX + result.message.GetOr(UNKNOWN_ERROR), None)
  {
    match result.status
    case None => GptReply(500, BROWSER_ERROR_PREFIX + "'status'", None)
    case Some(status) =>
      if status == 200 then
        match result.message
        case Some(m) => GptReply(200, m, Some("browser_chat"))
        case None => GptReply(500, BROWSER_ERROR_PREFIX + "'message'", None)
      else GptReply(status, BROWSER_ERROR_PREFIX + result.message.GetOr(UNKNOWN_ERROR), None)
  }

  /** A reply with status 200 always comes from a successful chat and carries its message. */
  lemma OkOnlyFromSuccess(result: ChatResult)
    ensures ProcessBrowserChat(result).status == 200 <==> result.status == Some(200) && result.message.Some?
  {
  }

  /**
   * `handle_user_input` for the routes that do not leave this module: `chat` is what the
   * orchestrator returns for the browser query. The direct API route is `None` here.
   */
  function HandleUserInput(useBrowser: bool, userText: string, chat: ChatResult): (r: Option<GptReply>)
    ensures r.None? <==> RouteOf(useBrowser, userText).DirectApi?
    ensures RouteOf(useBrowser, userText).MissingQuery? ==> r == Some(GptReply(400, MSG_MISSING_QUERY, None))
    ensures RouteOf(useBrowser, userText).BrowserChat? ==> r == Some(ProcessBrowserChat(chat))
  {
    match RouteOf(useBrowser, userText)
    case MissingQuery => Some(GptReply(400, MSG_MISSING_QUERY, None))
    case BrowserChat(_) => Some(ProcessBrowserChat(chat))
    case DirectApi(_) => None
  }

  /** A bare trigger never reaches the chat: the reply is the 400 whatever the chat would say. */
  lemma BareTriggerIsRejected(useBrowser: bool, chat: ChatResult)
    ensures HandleUserInput(useBrowser, TRIGGER, chat) == Some(GptReply(400, MSG_MISSING_QUERY, None))
  {
    LowerTrigger();
    assert TRIGGER[|TRIGGER|..] == "";
    StripEmpty();
  }

  lemma LowerTrigger()
    ensures Lower(TRIGGER) == TRIGGER
  {
    LowerIdempotent(TRIGGER);
    assert forall i :: 0 <= i < |TRIGGER| ==> LowerChar(TRIGGER[i]) == TRIGGER[i];
  }

  lemma StripEmpty()
    ensures Strip("") == ""
  {
  }
}
