/**
 * The label locator of the screen-vision helpers: `find_element_by_text`
 * (text branch), `click_element_by_text` and `type_text`, with the stub
 * results returned when no GUI libraries are available.
 *
 * The locator only lower-cases: it neither strips nor normalises. OCR
 * confidence is the engine's integer score; the source divides it by 100
 * and compares it with a threshold, which is done here on exact reals.
 */
module ScreenVision {
  import opened Wrappers
  import opened Text
  import opened Actions
  import opened Ocr

  /** What `find_element_by_text` returns without a GUI. */
  const STUB_ELEMENT: Region := Region(100, 100, 200, 50)

  /** The threshold `click_element_by_text` uses (the default of `find_element_by_text`). */
  const DEFAULT_THRESHOLD: real := 0.7

  /** `float(data['conf'][i]) / 100`. */
  function Confidence(d: OcrData, i: nat): real
    requires WellFormed(d) && i < |d.text|
  {
    (d.conf[i] as real) / 100.0
  }

  /** A token takes part only if its confidence is not below the threshold. */
  predicate Passes(d: OcrData, i: nat, thr: real)
    requires WellFormed(d) && i < |d.text|
  {
    !(Confidence(d, i) < thr)
  }

  /** `text.lower() == word.lower()`. */
  predicate IsExact(target: string, word: string) {
    Lower(target) == Lower(word)
  }

  /** `text.lower() in word.lower()`, checked only when the token is not exact. */
  predicate IsPartial(target: string, word: string) {
    !IsExact(target, word) && IsSubstring(Lower(target), Lower(word))
  }

  datatype MatchKind = Exact | Partial

  predicate HasKind(kind: MatchKind, target: string, word: string) {
    match kind
    case Exact => IsExact(target, word)
    case Partial => IsPartial(target, word)
  }

  /** The class a word falls in for `target`, if any. */
  function KindOf(target: string, word: string): (k: Option<MatchKind>)
    ensures k.Some? ==> HasKind(k.value, target, word)
    ensures k.None? ==> !IsExact(target, word) && !IsPartial(target, word)
  {
    if IsExact(target, word) then Some(Exact)
    else if IsPartial(target, word) then Some(Partial)
    else None
  }

  /** An entry `(i, confidence)` of `exact_matches` or `partial_matches`. */
  datatype Match = Match(index: nat, confidence: real)

  /** The candidates of one class among the first `n` tokens, in token order. */
  function Candidates(d: OcrData, target: string, thr: real, kind: MatchKind, n: nat): (ms: seq<Match>)
    requires WellFormed(d) && n <= |d.text|
    ensures forall k :: 0 <= k < |ms| ==>
      && ms[k].index < n
      && ms[k].confidence == Confidence(d, ms[k].index)
      && Passes(d, ms[k].index, thr)
      && HasKind(kind, target, d.text[ms[k].index])
    ensures forall k, l :: 0 <= k < l < |ms| ==> ms[k].index < ms[l].index
  {
    if n == 0 then []
    else
      var ms := Candidates(d, target, thr, kind, n - 1);
      if Passes(d, n - 1, thr) && HasKind(kind, target, d.text[n - 1])
      then ms + [Match(n - 1, Confidence(d, n - 1))]
      else ms
  }

  /** Every token of the class that passes the threshold is a candidate. */
  lemma {:induction false} CandidatesComplete(d: OcrData, target: string, thr: real, kind: MatchKind, n: nat, i: nat)
    requires WellFormed(d) && i < n <= |d.text|
    requires Passes(d, i, thr) && HasKind(kind, target, d.text[i])
    ensures exists k :: 0 <= k < |Candidates(d, target, thr, kind, n)| && Candidates(d, target, thr, kind, n)[k].index == i
  {
    if i < n - 1 {
      CandidatesComplete(d, target, thr, kind, n - 1, i);
      var k :| 0 <= k < |Candidates(d, target, thr, kind, n - 1)| && Candidates(d, target, thr, kind, n - 1)[k].index == i;
      assert Candidates(d, target, thr, kind, n)[k] == Candidates(d, target, thr, kind, n - 1)[k];
    } else {
      var ms := Candidates(d, target, thr, kind, n);
      assert ms[|ms| - 1].index == i;
    }
  }

  /** `max(ms, key=confidence)`: a highest confidence, the first one among equals. */
  function BestIndex(ms: seq<Match>): (b: nat)
    requires |ms| > 0
    ensures b < |ms|
    ensures forall k :: 0 <= k < |ms| ==> ms[k].confidence <= ms[b].confidence
    ensures forall k :: 0 <= k < b ==> ms[k].confidence < ms[b].confidence
    decreases |ms|
  {
    if |ms| == 1 then 0
    else
      var b := BestIndex(ms[..|ms| - 1]);
      if ms[|ms| - 1].confidence > ms[b].confidence then |ms| - 1 else b
  }

  /** Python's `max` with a key: the running best is replaced only by a strictly greater one. */
  method MaxByConfidence(ms: seq<Match>) returns (best: Match)
    requires |ms| > 0
    ensures best == ms[BestIndex(ms)]
  {
    best := ms[0];
    ghost var b := 0;
    for k := 1 to |ms|
      invariant b < k && b == BestIndex(ms[..k]) && best == ms[b]
    {
      assert ms[..k + 1][..k] == ms[..k];
      if ms[k].confidence > best.confidence {
        best := ms[k];
        b := k;
      }
    }
    assert ms[..|ms|] == ms;
  }

  /** The token `find_element_by_text` picks: the best exact match, else the best partial one. */
  function ChosenIndex(d: OcrData, target: string, thr: real): (r: Option<nat>)
    requires WellFormed(d)
    ensures r.Some? ==> r.value < |d.text| && Passes(d, r.value, thr) && KindOf(target, d.text[r.value]).Some?
  {
    var exact := Candidates(d, target, thr, Exact, |d.text|);
    var partial := Candidates(d, target, thr, Partial, |d.text|);
    if |exact| > 0 then Some(exact[BestIndex(exact)].index)
    else if |partial| > 0 then Some(partial[BestIndex(partial)].index)
    else None
  }

  /** The box `(left[i], top[i], width[i], height[i])` of the chosen token. */
  function Locate(d: OcrData, target: string, thr: real): Option<Region>
    requires WellFormed(d)
  {
    match ChosenIndex(d, target, thr)
    case None => None
    case Some(i) => Some(BoxAt(d, i))
  }

  /** Nothing is found exactly when no passing token contains the lower-cased target. */
  lemma LocateNoneIff(d: OcrData, target: string, thr: real)
    requires WellFormed(d)
    ensures ChosenIndex(d, target, thr).None?
        <==> forall i :: 0 <= i < |d.text| && Passes(d, i, thr) ==> !IsSubstring(Lower(target), Lower(d.text[i]))
  {
    var n := |d.text|;
    if exists i :: 0 <= i < n && Passes(d, i, thr) && IsSubstring(Lower(target), Lower(d.text[i])) {
      var i :| 0 <= i < n && Passes(d, i, thr) && IsSubstring(Lower(target), Lower(d.text[i]));
      if IsExact(target, d.text[i]) {
        CandidatesComplete(d, target, thr, Exact, n, i);
      } else {
        CandidatesComplete(d, target, thr, Partial, n, i);
      }
    }
    if ChosenIndex(d, target, thr).Some? {
      var c := ChosenIndex(d, target, thr).value;
      SelfIsSubstring(Lower(d.text[c]));
    }
  }

  /** Any passing exact token makes the result exact, whatever the partial confidences are. */
  lemma ExactBeatsPartial(d: OcrData, target: string, thr: real, i: nat)
    requires WellFormed(d) && i < |d.text|
    requires Passes(d, i, thr) && IsExact(target, d.text[i])
    ensures ChosenIndex(d, target, thr).Some?
    ensures IsExact(target, d.text[ChosenIndex(d, target, thr).value])
  {
    CandidatesComplete(d, target, thr, Exact, |d.text|, i);
  }

  /** Within the chosen class the result has the highest confidence, and every earlier token
      of that class has a strictly lower one. */
  lemma ChosenIsFirstMaximum(d: OcrData, target: string, thr: real, j: nat)
    requires WellFormed(d) && j < |d.text|
    requires ChosenIndex(d, target, thr).Some?
    requires Passes(d, j, thr)
    requires KindOf(target, d.text[j]).Some?
    requires KindOf(target, d.text[j]) == KindOf(target, d.text[ChosenIndex(d, target, thr).value])
    ensures Confidence(d, j) <= Confidence(d, ChosenIndex(d, target, thr).value)
    ensures j < ChosenIndex(d, target, thr).value ==> Confidence(d, j) < Confidence(d, ChosenIndex(d, target, thr).value)
  {
    var n := |d.text|;
    var kind := KindOf(target, d.text[j]).value;
    var exact := Candidates(d, target, thr, Exact, n);
    var ms := Candidates(d, target, thr, kind, n);
    CandidatesComplete(d, target, thr, kind, n, j);
    var k :| 0 <= k < |ms| && ms[k].index == j;
    if |exact| > 0 {
      assert IsExact(target, d.text[exact[BestIndex(exact)].index]);
    }
    var b := BestIndex(ms);
    assert ChosenIndex(d, target, thr).value == ms[b].index;
    assert k < b || ms[b].index <= ms[k].index;
  }

  /** An OCR row the engine marks with a negative confidence never matches. */
  lemma NegativeConfidenceNeverChosen(d: OcrData, target: string, thr: real, i: nat)
    requires WellFormed(d) && i < |d.text|
    requires thr >= 0.0 && d.conf[i] < 0
    ensures ChosenIndex(d, target, thr) != Some(i)
  {
  }

  /** No token is in both candidate lists. */
  lemma CandidateListsAreDisjoint(d: OcrData, target: string, thr: real, k: nat, l: nat)
    requires WellFormed(d)
    requires k < |Candidates(d, target, thr, Exact, |d.text|)|
    requires l < |Candidates(d, target, thr, Partial, |d.text|)|
    ensures Candidates(d, target, thr, Exact, |d.text|)[k].index != Candidates(d, target, thr, Partial, |d.text|)[l].index
  {
  }

  /**
   * `find_element_by_text`. `d` is what the OCR engine reports for the screenshot; without a GUI
   * the stub box is returned.
   */
  method FindElementByText(hasGui: bool, d: OcrData, target: string, thr: real) returns (r: Option<Region>)
    requires WellFormed(d)
    ensures !hasGui ==> r == Some(STUB_ELEMENT)
    ensures hasGui ==> r == Locate(d, target, thr)
  {
    if !hasGui {
      return Some(STUB_ELEMENT);
    }
    var exactMatches, partialMatches := CollectMatches(d, target, thr);
    if |exactMatches| > 0 {
      var best := MaxByConfidence(exactMatches);
      return Some(BoxAt(d, best.index));
    }
    if |partialMatches| > 0 {
      var best := MaxByConfidence(partialMatches);
      return Some(BoxAt(d, best.index));
    }
    return None;
  }

  /** One more token extends the candidate list of its class, and only that one. */
  lemma CandidatesNext(d: OcrData, target: string, thr: real, i: nat)
    requires WellFormed(d) && i < |d.text|
    ensures var m := [Match(i, Confidence(d, i))];
      && Candidates(d, target, thr, Exact, i + 1) ==
           Candidates(d, target, thr, Exact, i) + (if Passes(d, i, thr) && IsExact(target, d.text[i]) then m else [])
      && Candidates(d, target, thr, Partial, i + 1) ==
           Candidates(d, target, thr, Partial, i) + (if Passes(d, i, thr) && IsPartial(target, d.text[i]) then m else [])
  {
  }

  /** The loop of `find_element_by_text` that fills `exact_matches` and `partial_matches`. */
  method CollectMatches(d: OcrData, target: string, thr: real) returns (exactMatches: seq<Match>, partialMatches: seq<Match>)
    requires WellFormed(d)
    ensures exactMatches == Candidates(d, target, thr, Exact, |d.text|)
    ensures partialMatches == Candidates(d, target, thr, Partial, |d.text|)
  {
    exactMatches := [];
    partialMatches := [];
    var wanted := Lower(target);
    for i := 0 to |d.text|
      invariant exactMatches == Candidates(d, target, thr, Exact, i)
      invariant partialMatches == Candidates(d, target, thr, Partial, i)
    {
      CandidatesNext(d, target, thr, i);
      var confidence := (d.conf[i] as real) / 100.0;
      if confidence < thr {
        continue;
      }
      var word := Lower(d.text[i]);
      if wanted == word {
        exactMatches := exactMatches + [Match(i, confidence)];
      } else if IsSubstring(wanted, word) {
        partialMatches := partialMatches + [Match(i, confidence)];
      }
    }
  }

  /** When `click_element_by_text` reports success: always as a stub, otherwise when the
      capture worked and the text was located. */
  predicate ClickSucceeds(hasGui: bool, screen: Option<OcrData>, text: string)
    requires screen.Some? ==> WellFormed(screen.value)
  {
    !hasGui || (screen.Some? && Locate(screen.value, text, DEFAULT_THRESHOLD).Some?)
  }

  /** The GUI calls `click_element_by_text` makes: a capture, then a click at the centre of the box found. */
  function ClickEvents(hasGui: bool, screen: Option<OcrData>, text: string, doubleClick: bool): (events: seq<Action>)
    requires screen.Some? ==> WellFormed(screen.value)
    ensures !hasGui ==> events == []
    ensures hasGui ==> |events| > 0 && events[0] == Capture(None)
    ensures forall k :: 0 <= k < |events| ==> !events[k].Write?
  {
    if !hasGui then []
    else if screen.None? then [Capture(None)]
    else
      match Locate(screen.value, text, DEFAULT_THRESHOLD)
      case None => [Capture(None)]
      case Some(box) => [Capture(None), if doubleClick then DoubleClick(Centre(box)) else Click(Centre(box))]
  }

  /** A click happens exactly when the call succeeds with a GUI, and then only once. */
  lemma ClickEventsCount(hasGui: bool, screen: Option<OcrData>, text: string, doubleClick: bool)
    requires screen.Some? ==> WellFormed(screen.value)
    ensures ClickCount(ClickEvents(hasGui, screen, text, doubleClick)) ==
      if hasGui && ClickSucceeds(hasGui, screen, text) then 1 else 0
  {
    var events := ClickEvents(hasGui, screen, text, doubleClick);
    if |events| == 2 {
      assert events[1..] == [events[1]];
    }
  }

  /**
   * `click_element_by_text`. `screen` is the OCR output of the full-screen capture, or `None`
   * when the capture failed; the default threshold 0.7 applies.
   */
  method ClickElementByText(hasGui: bool, screen: Option<OcrData>, text: string, doubleClick: bool)
    returns (ok: bool, events: seq<Action>)
    requires screen.Some? ==> WellFormed(screen.value)
    ensures ok == ClickSucceeds(hasGui, screen, text)
    ensures events == ClickEvents(hasGui, screen, text, doubleClick)
  {
    if !hasGui {
      return true, [];
    }
    events := [Capture(None)];
    if screen.None? {
      return false, events;
    }
    var element := FindElementByText(hasGui, screen.value, text, DEFAULT_THRESHOLD);
    if element.None? {
      return false, events;
    }
    var box := element.value;
    var centre := Point(box.left + box.width / 2, box.top + box.height / 2);
    if doubleClick {
      events := events + [DoubleClick(centre)];
    } else {
      events := events + [Click(centre)];
    }
    return true, events;
  }

  /** `type_text`: types through the GUI (which may raise, `writeOk`), or succeeds as a stub. */
  method TypeText(hasGui: bool, writeOk: bool, text: string) returns (ok: bool, events: seq<Action>)
    ensures !hasGui ==> ok && events == []
    ensures hasGui ==> ok == writeOk && events == [Write(text)]
  {
    if !hasGui {
      return true, [];
    }
    return writeOk, [Write(text)];
  }
}
