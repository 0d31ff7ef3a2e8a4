# dobdobdob screen automation core, modelled in Dafny

dobdobdob is a Russian-language voice assistant. The part modelled here sits between the OCR engine and the synthetic mouse and keyboard, along with several routing and validation rules around it:

- **Button matcher** (`WindowManager`). It captures the active window. It folds the OCR words into an ordered map from key to click point. It looks up a button by exact key first and then by the first related key.
- **Label locator** (`ScreenVision`). It filters OCR tokens by confidence and splits them into exact and partial matches. It picks the most confident match, and the first one wins a tie. It also clicks an element located by its text.
- **Screen command layer** (`ScreenCommands`, `ScreenCommandsHandler`):
  - parsing the `"x,y,width,height"` region string;
  - the read-text and screenshot replies;
  - click-then-type sequencing;
  - the ordered label and placeholder search for input fields;
  - the parameter validators and the dispatch table of the JSON tool calls.
- **Browser helpers** (`Commands`): switching tabs by number, detecting the active tab, process detection (`is_open`) and the Google search URL.
- **Request routing** (`GptService`): the trigger phrase «обратись к gpt», the `USE_BROWSER_FOR_ALL_REQUESTS` switch, and the mapping from the browser-chat result to the JSON reply.
- **GUI test doubles** (`MockModules`): the mixer music, sound and channel flags, the keyboard hotkey registry, the screenshot size rule and the fixed OCR data.

Modelling conventions:

- **OCR output** is a record of six parallel sequences: text, conf, left, top, width and height (`Ocr.OcrData`, `Ocr.WellFormed`). Confidence is an integer 0–100 and is compared as `conf / 100 < threshold` over exact reals.
- **Side effects** (screenshots, clicks, hotkeys, typing, opening a URL) are returned as an event log `seq<Action>`. This makes "exactly one click" and "no click" statable (`Actions.ClickCount`).
- **A Python dict** is an ordered list of (key, value) pairs. Overwriting a key keeps its first position.
- **Environment parameters.** Whatever the code asks of the environment is a parameter:
  - whether a capture succeeded;
  - what the OCR engine reports;
  - the window returned by `getActiveWindow`;
  - the titles seen by `getActiveWindowTitle`;
  - the process names;
  - an environment variable;
  - the browser-chat result;
  - `time.time()`.
- **Python `lower()`** covers ASCII A–Z, Cyrillic А–Я and Ё (`Text.LowerChar`). The model restricts `str.isalnum()` to ASCII and Cyrillic letters and ASCII digits (`Text.IsAlnum`). Python's own `isalnum()` accepts many more characters, such as é, ß, 中 and ².
- **Python `int()`**, as used on the parts of a region, accepts surrounding whitespace, an optional sign and ASCII digits (`Text.ParseInt`).
- **Integer division.** Python `//` by 2 on the box sizes is Dafny's Euclidean `/`, because the divisor is positive.

Modules:

- `wrappers.dfy`: Option and Result.
- `text.dfy`: the string primitives.
- `actions.dfy`: events and regions.
- `ocr.dfy`: the OCR data.
- `window_manager.dfy`, `screen_vision.dfy`, `screen_commands.dfy`, `screen_commands_handler.dfy`, `commands.dfy`, `gpt_service.dfy` and `mock_modules.dfy`: one module per source file.

## Model

| member | source | states |
|---|---|---|
| Text.LowerChar | commands/commands.py:213 | an upper-case letter (A–Z, А–Я, Ё) becomes a different, lower-case letter; every other character is unchanged; no result is upper case |
| Text.LowerIdempotent | commands/commands.py:213 | lower-casing twice is lower-casing once |
| Text.Strip | core/gpt_service.py:42 | `str.strip()` leaves no whitespace at either end and only characters of the input |
| Text.StripIsSlice | core/gpt_service.py:42 | `str.strip()` returns a contiguous slice of the input, and everything cut from either side is whitespace |
| Text.StripChars | commands/window_manager.py:291 | `strip(chars)` leaves no member of `chars` at either end and only characters of the input |
| Text.StripCharsIsSlice | commands/window_manager.py:291 | `strip(chars)` returns a contiguous slice of the input, and everything cut from either side is a member of `chars` |
| Text.StripCharsFrame | commands/window_manager.py:291 | stripping a word framed by members of `chars` gives that word back, interior characters included |
| Text.RemoveChars | commands/window_manager.py:284-285 | deleting characters leaves none of them and nothing new |
| Text.RemoveCharsKeepsOthers | commands/window_manager.py:284-285 | every character not deleted keeps its number of occurrences |
| Text.RemoveCharsConcat | commands/window_manager.py:284-285 | deleting characters from a concatenation is deleting them from each part |
| Text.RemoveCharsTwice | commands/window_manager.py:284-285 | deleting one set of characters and then another is deleting their union |
| Text.ReplaceChar | commands/commands.py:335 | `replace(' ', '+')` keeps the length, changes exactly the replaced positions, and leaves no `from` character |
| Text.Split | commands/screen_commands.py:40 | `split(',')` yields at least one part, and no part holds the separator |
| Text.JoinSplit | commands/screen_commands.py:40 | joining the parts of a split gives back the string |
| Text.SplitJoin | commands/screen_commands.py:40 | splitting a join of separator-free parts gives back the parts |
| Text.ParseIntRoundTrip | commands/screen_commands.py:40 | `int(str(n)) == n` for every integer |
| Text.DigitsValueOfNatToString | commands/screen_commands.py:40 | the decimal digits of `n` read back as `n` |
| Actions.ClickCount | utils/screen_vision.py:285-289 | the number of mouse clicks in a log is zero exactly when the log has no click |
| Actions.Centre | utils/screen_vision.py:283 | `(x + w//2, y + h//2)` lies inside a box of non-negative size |
| WindowManager.SanitizeFilename | commands/window_manager.py:91-95 | keeps the length, and every character is alphanumeric, space, `_` or `-`; safe characters are kept and the rest become `_` |
| WindowManager.SanitizeKeepsSafeNames | commands/window_manager.py:91-95 | a name made only of safe characters is unchanged |
| WindowManager.SanitizeIdempotent | commands/window_manager.py:91-95 | sanitising twice is sanitising once |
| WindowManager.NormalizeText | commands/window_manager.py:278-293 | the loop of eight `replace` calls, then `strip`, then `lower`, computes `Normalized` |
| WindowManager.NormalizedHasNoQuotes | commands/window_manager.py:284-285 | none of the eight quotation marks survives |
| WindowManager.NormalizedIsTrimmed | commands/window_manager.py:290-293 | the result neither starts nor ends with ASCII punctuation or a space |
| WindowManager.NormalizedKeepsInterior | commands/window_manager.py:278-293 | a quote-free word framed only by quotes, spaces and punctuation normalises to the word lower-cased, interior punctuation included |
| WindowManager.NormalizedPlain | commands/window_manager.py:278-293 | a quote-free text whose ends are not punctuation or spaces only changes case |
| WindowManager.NormalizedLoginButton | commands/commands.py:365 | «Вход/Регистрация» normalises to вход/регистрация: the guillemets go and the slash stays |
| WindowManager.NormalizedQuotedLabel | commands/window_manager.py:278-293 | `  'Submit.'  ` normalises to `submit` |
| WindowManager.NormalizeIdempotent | commands/window_manager.py:278-293 | normalising twice is normalising once |
| WindowManager.GetFindsKeys | commands/window_manager.py:364 | `k in elements` holds exactly when `k` is one of the map's keys |
| WindowManager.GetStoredValue | commands/window_manager.py:365 | with distinct keys, the value found under a key is the one stored beside it |
| WindowManager.Put | commands/window_manager.py:357-358 | after `m[k] = v`, looking up `k` gives `v` |
| WindowManager.PutOther | commands/window_manager.py:357-358 | writing one key leaves every other key's value alone |
| WindowManager.PutExisting | commands/window_manager.py:357-358 | overwriting an existing key keeps the key order |
| WindowManager.PutNew | commands/window_manager.py:357-358 | a new key is appended last |
| WindowManager.PutExtendsKeys | commands/window_manager.py:357-358 | a write never removes or reorders keys |
| WindowManager.PutKeepsDistinct | commands/window_manager.py:357-358 | a write keeps the keys distinct |
| WindowManager.Tokens | commands/window_manager.py:240-245 | one (key, centre) entry per OCR token |
| WindowManager.FoldKeys | commands/window_manager.py:240-245 | the keys of the folded map are exactly the non-empty keys folded in |
| WindowManager.FoldLastOccurrenceWins | commands/window_manager.py:240-245 | a repeated key holds the value of its last occurrence |
| WindowManager.FoldKeysDistinct | commands/window_manager.py:240-245 | no key appears twice |
| WindowManager.FoldKeyOrderIsStable | commands/window_manager.py:349-359 | keys keep the position of their first insertion |
| WindowManager.ElementKeys | commands/window_manager.py:240-245 | a key is present iff some token's stripped text (normalised, for `click_button`) equals it and is non-empty |
| WindowManager.ElementLastOccurrenceWins | commands/window_manager.py:240-245 | a duplicate text maps to the centre of its last box |
| WindowManager.ElementKeysDistinct | commands/window_manager.py:349-359 | the element map has distinct keys |
| WindowManager.ElementKeyOrderIsStable | commands/window_manager.py:349-359 | the map of the first `n` tokens lists its keys as a prefix of the whole map's keys |
| WindowManager.WordKey | commands/window_manager.py:352-357 | a word's key is its stripped text, normalised as well for `click_button` |
| WindowManager.TokenEntry | commands/window_manager.py:353-355 | token `i` contributes its key and the centre of its box |
| WindowManager.CollectElements | commands/window_manager.py:349-359 | the fill loop computes the fold of the token entries |
| WindowManager.ExtractTextElements | commands/window_manager.py:188-251 | `{}` when cv2 or PIL is missing or the image cannot be read; otherwise the raw-text map |
| WindowManager.ActiveWindowScreenshot | commands/window_manager.py:97-179 | without the libraries, no capture and None; no window means one full-screen capture, whose file is returned exactly when it succeeds; a zero-size window gives None with no capture; a failed region capture is followed by one full-screen capture, whose file is returned exactly when it succeeds; a successful region capture returns the file named by the sanitised title and the time exactly when it was saved and exists |
| WindowManager.FirstRelated | commands/window_manager.py:371-372 | the first position whose key contains or is contained in the search key, with no earlier one |
| WindowManager.ButtonLookup | commands/window_manager.py:363-379 | exact iff the key is present, with the stored point; otherwise the first related entry in insertion order; otherwise no entry is related |
| WindowManager.EmptySearchPicksFirstKey | commands/window_manager.py:371-376 | an empty search key matches the first key of any non-empty map |
| WindowManager.NormalizedMapHasNoEmptyKey | commands/window_manager.py:356-358 | words that normalise to "" are skipped |
| WindowManager.FindButton | commands/window_manager.py:363-376 | the exact-then-partial scan computes `ButtonLookup` |
| WindowManager.ClickButton | commands/window_manager.py:304-383 | each guard's message with no click; the screenshot's calls; then exactly one click at the looked-up point with the matching message, or the not-found message and no click |
| ScreenVision.KindOf | utils/screen_vision.py:182-187 | a token is exact when the lower-cased texts are equal, partial only when the target is a proper part of the word, and never both |
| ScreenVision.Candidates | utils/screen_vision.py:176-187 | each match list holds passing tokens of its kind with their confidence, in increasing index order |
| ScreenVision.CandidatesComplete | utils/screen_vision.py:176-187 | every passing token of a kind is in that kind's list |
| ScreenVision.BestIndex | utils/screen_vision.py:192 | `max` returns an entry of highest confidence, and every earlier entry is strictly lower |
| ScreenVision.MaxByConfidence | utils/screen_vision.py:192 | the scan for the maximum finds the first maximum |
| ScreenVision.ChosenIndex | utils/screen_vision.py:190-207 | the chosen token passes the threshold and matches the target |
| ScreenVision.LocateNoneIff | utils/screen_vision.py:206-207 | nothing is found iff no token passes and matches |
| ScreenVision.ExactBeatsPartial | utils/screen_vision.py:190-204 | a passing exact token means an exact token is chosen, whatever the partial confidences |
| ScreenVision.ChosenIsFirstMaximum | utils/screen_vision.py:192-200 | within the chosen kind, no confidence is higher, and every earlier one is lower |
| ScreenVision.NegativeConfidenceNeverChosen | utils/screen_vision.py:177-180 | a row with negative confidence never matches a non-negative threshold |
| ScreenVision.CandidateListsAreDisjoint | utils/screen_vision.py:182-187 | no token is in both lists |
| ScreenVision.CollectMatches | utils/screen_vision.py:173-187 | the loop builds the two candidate lists |
| ScreenVision.FindElementByText | utils/screen_vision.py:150-210 | the no-GUI stub `(100,100,200,50)`; otherwise the located box |
| ScreenVision.ClickEvents | utils/screen_vision.py:254-296 | no GUI: no events; otherwise a full-screen capture first and no typing |
| ScreenVision.ClickEventsCount | utils/screen_vision.py:271-293 | exactly one click when the element is found, none otherwise |
| ScreenVision.ClickElementByText | utils/screen_vision.py:254-296 | returns `True` iff there is no GUI or the capture succeeds and the text is located; clicks (double iff asked) at the centre |
| ScreenVision.TypeText | utils/screen_vision.py:298-319 | the no-GUI stub succeeds without typing; otherwise one write whose outcome is the result |
| ScreenCommands.ParseRegion | commands/screen_commands.py:37-47 | None or "" is full screen; four int-convertible comma parts give the region; anything else gives the format error |
| ScreenCommands.FormatRegion | commands/screen_commands.py:29 | the `"x,y,width,height"` text of a region is never empty |
| ScreenCommands.SplitFormatRegion | commands/screen_commands.py:40 | splitting a formatted region at commas gives its four coordinates |
| ScreenCommands.ParseFormatRegion | commands/screen_commands.py:37-41 | a formatted region parses back to itself |
| ScreenCommands.ThreeCoordinatesAreRefused | commands/screen_commands.py:40-47 | three coordinates give the format error |
| ScreenCommands.TakeScreenshot | commands/screen_commands.py:24-71 | success iff the region parses and the capture succeeds; a bad region gives the error before any capture; on success, the text, timestamp and resolution come from the analysis with its defaults |
| ScreenCommands.ReadScreenText | commands/screen_commands.py:73-118 | the same region rule; the text is the OCR result, or the stub text without a GUI |
| ScreenCommands.ReadScreenTextCapturesOnce | commands/screen_commands.py:86-104 | at most one capture, and none for a bad region |
| ScreenCommands.ClickOnText | commands/screen_commands.py:120-150 | a success reply iff the click succeeded; the message says «Двойной клик» iff double; one click on success |
| ScreenCommands.InputText | commands/screen_commands.py:152-182 | a success reply iff typing succeeded |
| ScreenCommands.FindAndClickThenType | commands/screen_commands.py:184-227 | success iff both the click and the typing succeed; a failed click gives no typing; one click on success |
| ScreenCommands.FirstHit | commands/screen_commands.py:261-263 | the first probe that is tried and found, with no earlier hit; None iff there is no hit |
| ScreenCommands.ProbeCandidates | commands/screen_commands.py:261-316 | the loop over a candidate list stops at `FirstHit` and returns its box |
| ScreenCommands.LocateField | commands/screen_commands.py:251-316 | labels in order, then eligible placeholders in order |
| ScreenCommands.RepeatedPlaceholdersNeverWin | commands/screen_commands.py:251-298 | a placeholder hit is never `f` or «Введите f», both already missed as labels |
| ScreenCommands.NoGuiFindsFirstLabel | commands/screen_commands.py:251-263 | without a GUI the first label `f` is found at the stub box |
| ScreenCommands.FieldClickPoint | commands/screen_commands.py:265-303 | a label targets `(x + w + 20, y + h//2)`; a placeholder targets the centre |
| ScreenCommands.FieldReply | commands/screen_commands.py:278-321 | success iff a field was found |
| ScreenCommands.FieldReplyAsWritten | commands/screen_commands.py:7-19 | as written, any found field ends with the `name 'pyautogui' is not defined` error |
| ScreenCommands.FieldReplyDiscrepancy | commands/screen_commands.py:270-327 | the as-written and corrected replies agree exactly when no field is found |
| ScreenCommands.NoGuiFieldAlwaysFailsAsWritten | commands/screen_commands.py:230-327 | without a GUI the as-written command always fails, while the corrected one succeeds |
| ScreenCommands.FindTextField | commands/screen_commands.py:230-327 | the capture error; otherwise the reply for the search result and one click at its point |
| ScreenCommands.FindTextFieldAsWritten | commands/screen_commands.py:230-327 | always an error reply and never a click |
| ScreenCommandsHandler.Param | commands/screen_commands_handler.py:32 | `params.get(key, default)` |
| ScreenCommandsHandler.HandleTakeScreenshot | commands/screen_commands_handler.py:22-33 | delegates with `region` exactly as given, None when absent |
| ScreenCommandsHandler.HandleReadScreenText | commands/screen_commands_handler.py:35-46 | delegates with `region` exactly as given, None when absent |
| ScreenCommandsHandler.HandleClickOnText | commands/screen_commands_handler.py:48-67 | rejected with «Не указан текст для поиска.» iff the text is falsy; otherwise delegates, `double_click` defaulting to False |
| ScreenCommandsHandler.HandleInputText | commands/screen_commands_handler.py:69-88 | rejected iff the text is falsy; the interval defaults to 0.05 |
| ScreenCommandsHandler.HandleFindAndClickThenType | commands/screen_commands_handler.py:90-116 | rejected iff either text is falsy; the search text is checked first |
| ScreenCommandsHandler.HandleFindTextField | commands/screen_commands_handler.py:118-137 | rejected iff the field name is falsy |
| ScreenCommandsHandler.Dispatch | commands/screen_commands_handler.py:140-147 | a handler exists exactly for the six table names |
| ScreenCommandsHandler.HandlerNamesDistinct | commands/screen_commands_handler.py:140-147 | the table has six distinct names |
| ScreenCommandsHandler.DispatchTargets | commands/screen_commands_handler.py:140-147 | the two `_vision` names lose their suffix, and the other four keep their names |
| ScreenCommandsHandler.MissingBothReportsSearchText | commands/screen_commands_handler.py:100-109 | with both texts missing, the search text is reported |
| Commands.SearchedName | commands/commands.py:206-207 | with `include_exe`, the name is the stripped app name followed by `.exe`; without it, the app name unchanged |
| Commands.IsOpen | commands/commands.py:194-216 | true iff some process name contains the searched name, ignoring case |
| Commands.IsOpenIgnoresCase | commands/commands.py:213 | the answer does not depend on the case of the name |
| Commands.IsOpenEdgeCases | commands/commands.py:210-216 | an empty name matches any process, and no process list matches nothing |
| Commands.SearchUrl | commands/commands.py:335 | the Google prefix, followed by the query character by character with each space replaced by `+` and every other character kept: same length, no space |
| Commands.SearchWeb | commands/commands.py:313-337 | opens exactly that URL and reports the query |
| Commands.SearchUrlRecoversQuery | commands/commands.py:335 | for a query without `+`, the query can be recovered from the URL |
| Commands.Probes | commands/commands.py:458-459 | the `ctrl+1 … ctrl+n` probe hotkeys |
| Commands.ActiveTab | commands/commands.py:453-464 | always in 1..9: the first probe with a title, or 1 |
| Commands.GetActiveTabIndex | commands/commands.py:453-464 | the loop returns `ActiveTab` after exactly its probes |
| Commands.Repeat | commands/commands.py:485-486 | `n` copies of a hotkey |
| Commands.SwitchTabByNumber | commands/commands.py:467-495 | n < 1: the error with no hotkeys; otherwise probes, then the switching keys and the matching message |
| Commands.NeverSwitchesBackwards | commands/commands.py:488-493 | ctrl+shift+tab is never sent |
| Commands.FarTabsStepForward | commands/commands.py:482-487 | n > 9 sends exactly n − current ctrl+tab |
| Commands.NearTabsJumpDirectly | commands/commands.py:479-481 | 1 ≤ n ≤ 9 other than the current tab sends exactly ctrl+n |
| GptService.UseBrowserDefaults | core/gpt_service.py:25 | the default "1", "true", "yes", and "TRUE" or "Yes" in any case, turn the browser on; "0" and "" turn it off |
| GptService.UseBrowserIgnoresCase | core/gpt_service.py:25 | the switch ignores case |
| GptService.RouteOf | core/gpt_service.py:39-60 | the trigger with a blank rest is a missing query; the trigger routes the stripped rest to the browser; otherwise the switch decides |
| GptService.TriggerOverridesSwitch | core/gpt_service.py:40-51 | with the trigger, the switch does not matter |
| GptService.TriggerIgnoresCase | core/gpt_service.py:40 | the trigger test ignores case |
| GptService.ProcessBrowserChat | core/gpt_service.py:69-102 | 200 with a message gives that message from «browser_chat»; another status is propagated with the prefixed message; a missing key gives 500 |
| GptService.OkOnlyFromSuccess | core/gpt_service.py:83-95 | the reply is 200 exactly for a successful chat |
| GptService.HandleUserInput | core/gpt_service.py:27-67 | 400 for a missing query with no chat call, the browser reply for browser routes, and the API route left unmodelled |
| GptService.BareTriggerIsRejected | core/gpt_service.py:46-51 | the bare trigger is rejected with 400 |
| MockModules.MockMusic.constructor | utils/mock_modules.py:211-214 | starts stopped and unpaused |
| MockModules.MockMusic.Play | utils/mock_modules.py:220-224 | playing and unpaused, so busy |
| MockModules.MockMusic.Stop | utils/mock_modules.py:226-230 | clears both flags, so not busy |
| MockModules.MockMusic.Pause | utils/mock_modules.py:232-235 | sets only `paused`, so not busy |
| MockModules.MockMusic.Unpause | utils/mock_modules.py:237-240 | clears only `paused`; busy iff playing |
| MockModules.MockMusic.Fadeout | utils/mock_modules.py:242-245 | clears only `playing` |
| MockModules.MockMusic.Load | utils/mock_modules.py:216-218 | changes nothing |
| MockModules.MockChannel.constructor | utils/mock_modules.py:308-310 | a new channel is playing |
| MockModules.MockChannel.Play | utils/mock_modules.py:312-315 | busy |
| MockModules.MockChannel.Stop | utils/mock_modules.py:317-320 | not busy |
| MockModules.MockChannel.Pause | utils/mock_modules.py:322-324 | changes nothing |
| MockModules.MockChannel.Unpause | utils/mock_modules.py:326-328 | changes nothing |
| MockModules.MockChannel.Fadeout | utils/mock_modules.py:330-333 | not busy |
| MockModules.MockSound.constructor | utils/mock_modules.py:270-272 | starts stopped |
| MockModules.MockSound.Play | utils/mock_modules.py:274-277 | playing; returns a fresh busy channel |
| MockModules.MockSound.Stop | utils/mock_modules.py:279-282 | stopped |
| MockModules.MockSound.Fadeout | utils/mock_modules.py:284-287 | stopped |
| MockModules.MixerScenario | tests/test_mock_modules.py:85-116 | music is busy after play and not after stop; the channel is busy after play and not at the end |
| MockModules.StoppingSoundKeepsChannel | tests/test_mock_modules.py:100-102 | stopping the sound leaves its channel busy |
| MockModules.MockKeyboard.constructor | utils/mock_modules.py:110-112 | an empty registry |
| MockModules.MockKeyboard.AddHotkey | utils/mock_modules.py:114-117 | stores or overwrites the callback under the hotkey |
| MockModules.MockKeyboard.RemoveHotkey | utils/mock_modules.py:119-121 | leaves the registry unchanged |
| MockModules.MockKeyboard.IsPressed | utils/mock_modules.py:123-125 | always False |
| MockModules.HotkeyScenario | tests/test_mock_modules.py:52-58 | a re-registered hotkey holds the later callback, and removing leaves it |
| MockModules.ScreenshotSize | utils/mock_modules.py:80-93 | (w, h) of the region, or (100, 100) without one |
| MockModules.MockOcrIsUsable | utils/mock_modules.py:474-481 | the fixed OCR data is well formed, and every row passes the 0.7 threshold |
| MockModules.MockOcrLocatesFirstWord | utils/mock_modules.py:474-481 | the locator finds «Пример» at its box |
| MockModules.MockClickScenario | utils/mock_modules.py:474-481 | one capture, then one click at (50, 25) |

## Left out

- Pixel work is not modelled: colour conversion, thresholding, numpy arrays, `screenshot_to_base64` and `find_element_by_image`. Each capture is an event, and its outcome is a parameter.
- The OCR engine and `analyze_screen` are inputs (`OcrData`, `Analysis`, the extracted text). Their internals are not modelled.
- The filesystem and clock are parameters or left out. This covers the cache directory, `save_interface_cache`/`load_interface_cache`, `save_screen_analysis`, `os.path.exists`, and `time.time()` in file names.
- Network, browser automation, audio, UI and threads are outside this model: `orchestrate_browser_chat`, news, weather, app launching, TTS, Whisper, eel and the agent loop.
- The `generate_gpt_response` API call is left out. `GptService.HandleUserInput` returns None on that route.
- GptService.HandleUserInput: the catch-all 500 reply for an unexpected exception is not modelled. No modelled step raises.
- GptService.ProcessBrowserChat: `orchestrate_browser_chat` raising is not modelled. The source catches that exception (core/gpt_service.py:96-102) and replies 500 with the browser-error prefix and the exception text; the model's chat result is always a returned dict.
- ScreenCommands.ReadScreenText: the extracted text is a parameter, so the model does not capture how a region is cropped twice. `capture_screenshot` already returns a w×h image for a region (utils/screen_vision.py:61-62), and `extract_text_from_screenshot` crops it again at `[y:y+h, x:x+w]` (utils/screen_vision.py:130-132). For x ≥ w or y ≥ h the crop is empty, `cvtColor` raises, the error is caught (utils/screen_vision.py:146-148), and `read_screen_text` still replies success with the text "" (commands/screen_commands.py:106-112). This looks like a defect in the source.
- `interval` values and `time.sleep` delays are passed through or dropped. They do not affect any decision.
- Exceptions from the GUI libraries appear only where the code catches them with a visible outcome: a failed capture and a failed write. Other `except` branches are not modelled. This includes a failed click: the `False` of `click_on_text` (utils/screen_vision.py:294-296) and the error replies of `click_button` (commands/window_manager.py:381-383) and a failed click in the corrected `find_text_field` (commands/screen_commands.py:322-327), where the only exception modelled is the `NameError` described under Findings.
- The OCR `level` column is not modelled. The `click_button` loop runs over `len(data['level'])`, which the model takes to equal `len(data['text'])`.
- WindowManager.ClickButton: `get_active_window_screenshot` calls `getActiveWindow()` a second time. The model uses the one window for both calls.
- Text.LowerChar: lower-casing covers ASCII, Cyrillic А–Я and Ё only, not full Unicode case mapping.
- Text.ParseInt: Python `int()` is modelled only for whitespace, an optional sign and ASCII digits. Underscores and non-ASCII digits are not modelled.
- The other test doubles (Helium, sounddevice, soundfile, cv2, the rest of the pyautogui double) are not modelled. They have no state beyond logging.
- A window of zero width or height makes `get_active_window_screenshot` return None with no full-screen fallback (commands/window_manager.py:136-138). The model does the same.
- WindowManager.SanitizeFilename: other Unicode letters and digits (é, ß, 中, ²), which Python's `isalnum()` keeps, become `_` in the model. A window title such as "Café 中" gives "Caf_ _" rather than "Café 中".
- ScreenCommands.FindTextField: the corrected command emits its click only with a GUI. This matches the other screen commands, which never click without one.

## Findings

| source | as written | input that shows it | evidently intended | confidence | as-written member | corrected member |
|---|---|---|---|---|---|---|
| commands/screen_commands.py:7-19, 270-275, 305-310 | `find_text_field` calls `pyautogui.click`/`doubleClick`, but the module never imports `pyautogui`. Once a field is found, the `NameError` is caught, and the reply is the error «Произошла ошибка: name 'pyautogui' is not defined» with no click. | Without a GUI, `find_text_field("Email")` finds the label at the stub box and still fails. With a GUI, any screen whose OCR shows the label also fails. | Click the field and reply «Поле ввода '…' найдено и выбрано.» | not executed | ScreenCommands.FindTextFieldAsWritten, ScreenCommands.NoGuiFieldAlwaysFailsAsWritten | ScreenCommands.FindTextField |
