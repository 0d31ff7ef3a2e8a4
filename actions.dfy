/**
 * The desktop as the assistant sees it: rectangles and points in screen
 * coordinates, and the log of synthetic input actions an operation emits.
 * Every call into the automation library (a screenshot request, a click, a
 * double click, a hotkey chord, typed text) and every URL handed to the web
 * browser becomes one `Action`, in the order the source performs them.
 */
module Actions {
  import opened Wrappers

  /** A rectangle `(x, y, width, height)`. */
  datatype Region = Region(left: int, top: int, width: int, height: int)

  datatype Point = Point(x: int, y: int)

  datatype Action =
    | Capture(region: Option<Region>)   // pyautogui.screenshot(region=...) / screenshot()
    | Click(at: Point)
    | DoubleClick(at: Point)
    | Hotkey(keys: seq<string>)
    | Write(text: string)
    | OpenUrl(url: string)

  predicate IsMouseClick(a: Action) { a.Click? || a.DoubleClick? }

  /** The number of (single or double) clicks in a log. */
  function ClickCount(events: seq<Action>): (n: nat)
    ensures n <= |events|
    ensures n == 0 <==> forall k :: 0 <= k < |events| ==> !IsMouseClick(events[k])
  {
    if |events| == 0 then 0
    else (if IsMouseClick(events[0]) then 1 else 0) + ClickCount(events[1..])
  }

  /** The centre the source clicks for a box: `(x + w // 2, y + h // 2)`.
      Python's `//` by 2 is floor division, which is Dafny's `/` for a positive divisor. */
  function Centre(r: Region): (p: Point)
    ensures r.width >= 0 ==> r.left <= p.x <= r.left + r.width
    ensures r.height >= 0 ==> r.top <= p.y <= r.top + r.height
  {
    Point(r.left + r.width / 2, r.top + r.height / 2)
  }
}
