/**
 * The browser-tab switcher and two small helpers of the command set:
 * `is_open` over the names of the running processes and the search URL of
 * `search_web`. Hotkeys and opened URLs are returned as events.
 */
module Commands {
  import opened Wrappers
  import opened Text
  import opened Actions

  // ---------------------------------------------------------------------------
  // is_open

  /** The name looked for: `app_name`, or `app_name.strip() + ".exe"` with `include_exe`. */
  function SearchedName(app: string, includeExe: bool): (name: string)
    ensures includeExe ==> |name| >= 4 && name[|name| - 4..] == ".exe"
    ensures includeExe ==> name == Strip(app) + ".exe" && name[..|name| - 4] == Strip(app)
    ensures !includeExe ==> name == app
  {
    if includeExe then Strip(app) + ".exe" else app
  }

  /** The process list contains a name that contains `name`, ignoring case. */
  predicate AnyProcessMatches(name: string, processes: seq<string>) {
    exists k :: 0 <= k < |processes| && IsSubstring(Lower(name), Lower(processes[k]))
  }

  /** `is_open`: `processes` are the names `psutil.process_iter()` yields, in order. */
  method IsOpen(app: string, includeExe: bool, processes: seq<string>) returns (running: bool)
    ensures running <==> AnyProcessMatches(SearchedName(app, includeExe), processes)
  {
    var appName := app;
    if includeExe {
      appName := Strip(appName) + ".exe";
    }
    var wanted := Lower(appName);
    running := false;
    var k := 0;
    while k < |processes|
      invariant 0 <= k <= |processes|
      invariant !running
      invariant forall j :: 0 <= j < k ==> !IsSubstring(wanted, Lower(processes[j]))
    {
      if IsSubstring(wanted, Lower(processes[k])) {
        running := true;
        break;
      }
      k := k + 1;
    }
  }

  /** Case does not matter on either side. */
  lemma IsOpenIgnoresCase(app: string, processes: seq<string>)
    ensures AnyProcessMatches(app, processes) <==> AnyProcessMatches(Lower(app), processes)
  {
    LowerIdempotent(app);
  }

  /** No process is open in an empty process list, and any non-empty list matches the empty name. */
  lemma IsOpenEdgeCases(processes: seq<string>)
    ensures !AnyProcessMatches("", [])
    ensures |processes| > 0 ==> AnyProcessMatches("", processes)
  {
    if |processes| > 0 {
      EmptyIsSubstring(Lower(processes[0]));
    }
  }

  // ---------------------------------------------------------------------------
  // search_web

  const SEARCH_PREFIX := "https://www.google.com/search?q="

  /** `f"https://www.google.com/search?q={query.replace(' ', '+')}"`. */
  function SearchUrl(query: string): (url: string)
    ensures |url| == |SEARCH_PREFIX| + |query|
    ensures url[..|SEARCH_PREFIX|] == SEARCH_PREFIX
    ensures ' ' !in url
    ensures forall i :: 0 <= i < |query| ==>
      url[|SEARCH_PREFIX| + i] == (if query[i] == ' ' then '+' else query[i])
  {
    SEARCH_PREFIX + ReplaceChar(query, ' ', '+')
  }

  /** `search_web`: one URL opened, and the confirmation message. */
  function SearchWeb(query: string): (out: (string, seq<Action>))
    ensures out.1 == [OpenUrl(SearchUrl(query))]
    ensures out.0 == "Ищу информацию по запросу: " + query
  {
    ("Ищу информацию по запросу: " + query, [OpenUrl(SearchUrl(query))])
  }

  /** A query without '+' can be read back from its URL. */
  lemma SearchUrlRecoversQuery(query: string)
    requires '+' !in query
    ensures ReplaceChar(SearchUrl(query)[|SEARCH_PREFIX|..], '+', ' ') == query
  {
    var tail := SearchUrl(query)[|SEARCH_PREFIX|..];
    assert tail == ReplaceChar(query, ' ', '+');
    var back := ReplaceChar(tail, '+', ' ');
    assert forall i :: 0 <= i < |query| ==> back[i] == query[i];
  }

  // ---------------------------------------------------------------------------
  // get_active_tab_index and switch_tab_by_number

  /** `pyautogui.hotkey('ctrl', str(i))`. */
  function CtrlDigit(i: int): Action {
    Hotkey(["ctrl", IntToString(i)])
  }

  const CTRL_TAB: Action := Hotkey(["ctrl", "tab"])
  const CTRL_SHIFT_TAB: Action := Hotkey(["ctrl", "shift", "tab"])

  /** Whether `getActiveWindowTitle()` gave a title after pressing ctrl+i (entry i - 1). */
  predicate TitleAfter(titles: seq<string>, i: nat) {
    1 <= i <= |titles| && titles[i - 1] != ""
  }

  /** The tabs 1..n probed in order: `ctrl+1`, ..., `ctrl+n`. */
  function Probes(n: nat): (ps: seq<Action>)
    ensures |ps| == n
    ensures forall k :: 0 <= k < n ==> ps[k] == CtrlDigit(k + 1)
  {
    seq(n, k requires 0 <= k < n => CtrlDigit(k + 1))
  }

  /** The first of tabs 1..9 after which a title is seen, or 1 when there is none. */
  function ActiveTab(titles: seq<string>): (t: nat)
    ensures 1 <= t <= 9
    ensures TitleAfter(titles, t) ==> forall i :: 1 <= i < t ==> !TitleAfter(titles, i)
    ensures !TitleAfter(titles, t) ==> t == 1 && forall i :: 1 <= i <= 9 ==> !TitleAfter(titles, i)
  {
    FirstTitle(titles, 1)
  }

  function FirstTitle(titles: seq<string>, i: nat): (t: nat)
    requires 1 <= i <= 10
    requires forall j :: 1 <= j < i ==> !TitleAfter(titles, j)
    ensures 1 <= t <= 9
    ensures TitleAfter(titles, t) ==> forall j :: 1 <= j < t ==> !TitleAfter(titles, j)
    ensures !TitleAfter(titles, t) ==> t == 1 && forall j :: 1 <= j <= 9 ==> !TitleAfter(titles, j)
    decreases 10 - i
  {
    if i == 10 then 1
    else if TitleAfter(titles, i) then i
    else FirstTitle(titles, i + 1)
  }

  /** `get_active_tab_index`: presses ctrl+1, ctrl+2, ... until a title is seen. */
  method GetActiveTabIndex(titles: seq<string>) returns (tab: nat, events: seq<Action>)
    ensures tab == ActiveTab(titles)
    ensures 1 <= tab <= 9
    ensures events == Probes(if TitleAfter(titles, tab) then tab else 9)
  {
    events := [];
    for i := 1 to 10
      invariant forall j :: 1 <= j < i ==> !TitleAfter(titles, j)
      invariant events == Probes(i - 1)
    {
      events := events + [CtrlDigit(i)];
      if TitleAfter(titles, i) {
        return i, events;
      }
    }
    return 1, events;
  }

  /** `n` presses of the same hotkey. */
  function Repeat(a: Action, n: nat): (r: seq<Action>)
    ensures |r| == n
    ensures forall k :: 0 <= k < n ==> r[k] == a
  {
    seq(n, k requires 0 <= k < n => a)
  }

  const MSG_BAD_TAB := "❌ Введите корректный номер вкладки (1 или выше)."

  function AlreadyOnTabMessage(n: int): string {
    "✅ Уже на вкладке №" + IntToString(n) + "."
  }

  function SwitchingMessage(n: int): string {
    "🔀 Переключаюсь на вкладку №" + IntToString(n) + "."
  }

  /** The hotkeys `switch_tab_by_number` sends once it knows the current tab. */
  function SwitchKeys(n: int, current: nat): (keys: seq<Action>)
  {
    if n == current then []
    else if n <= 9 then [CtrlDigit(n)]
    else if n > current then Repeat(CTRL_TAB, n - current)
    else Repeat(CTRL_SHIFT_TAB, current - n)
  }

  /**
   * `switch_tab_by_number`. `titles` stands for the window titles seen while
   * the current tab is probed.
   */
  method SwitchTabByNumber(n: int, titles: seq<string>) returns (msg: string, events: seq<Action>)
    ensures n < 1 ==> msg == MSG_BAD_TAB && events == []
    ensures n >= 1 ==>
      var current := ActiveTab(titles);
      && events == Probes(if TitleAfter(titles, current) then current else 9) + SwitchKeys(n, current)
      && msg == if n == current then AlreadyOnTabMessage(n) else SwitchingMessage(n)
  {
    if n < 1 {
      return MSG_BAD_TAB, [];
    }
    var current;
    current, events := GetActiveTabIndex(titles);
    if n == current {
      return AlreadyOnTabMessage(n), events;
    }
    if n <= 9 {
      events := events + [CtrlDigit(n)];
    } else if n > current {
      var steps := n - current;
      var probe := events;
      for s := 0 to steps
        invariant events == probe + Repeat(CTRL_TAB, s)
      {
        events := events + [CTRL_TAB];
      }
    } else {
      // ctrl+shift+tab, `current - n` times: unreachable, the current tab is at most 9
      assert false;
    }
    return SwitchingMessage(n), events;
  }

  /** The current tab is at most 9, so the backwards branch is never taken. */
  lemma NeverSwitchesBackwards(n: int, titles: seq<string>)
    ensures CTRL_SHIFT_TAB !in SwitchKeys(n, ActiveTab(titles))
  {
    var current := ActiveTab(titles);
    if n != current && n > 9 {
      assert n > current;
    }
  }

  /** Beyond tab 9, exactly `n - current` ctrl+tab presses are sent and nothing else. */
  lemma FarTabsStepForward(n: int, titles: seq<string>)
    requires n > 9
    ensures SwitchKeys(n, ActiveTab(titles)) == Repeat(CTRL_TAB, n - ActiveTab(titles))
  {
  }

  /** Tabs 1..9 other than the current one are reached with the single hotkey ctrl+n. */
  lemma NearTabsJumpDirectly(n: int, titles: seq<string>)
    requires 1 <= n <= 9 && n != ActiveTab(titles)
    ensures SwitchKeys(n, ActiveTab(titles)) == [CtrlDigit(n)]
  {
  }
}
