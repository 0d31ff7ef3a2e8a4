/**
 * The button matcher and window capture of the window manager: file-name
 * sanitising, text normalisation, the two folds that turn OCR output into a
 * text → centre map, the `click_button` lookup, and the branch structure of
 * the active-window screenshot with its full-screen fallback.
 *
 * A Python dict is modelled as an ordered list of (key, value) pairs
 * (`ElementMap`): writing an existing key replaces its value in place, so the
 * key keeps the position of its first insertion, and iteration follows that
 * order.
 */
module WindowManager {
  import opened Wrappers
  import opened Text
  import opened Actions
  import opened Ocr

  /** Which optional libraries imported successfully at start-up. */
  datatype Capabilities = Capabilities(cv: bool, pil: bool, pyautogui: bool, pywinctl: bool)

  // ---------------------------------------------------------------------------
  // sanitize_filename

  predicate FileNameSafe(c: char) { IsAlnum(c) || c == ' ' || c == '_' || c == '-' }

  /** Every character that is not alphanumeric, a space, `_` or `-` becomes `_`. */
  function SanitizeFilename(name: string): (r: string)
    ensures |r| == |name|
    ensures forall i :: 0 <= i < |r| ==> FileNameSafe(r[i])
    ensures forall i :: 0 <= i < |r| && FileNameSafe(name[i]) ==> r[i] == name[i]
    ensures forall i :: 0 <= i < |r| && !FileNameSafe(name[i]) ==> r[i] == '_'
  {
    seq(|name|, i requires 0 <= i < |name| => if FileNameSafe(name[i]) then name[i] else '_')
  }

  /** A name made only of safe characters is left as it is. */
  lemma SanitizeKeepsSafeNames(name: string)
    requires forall i :: 0 <= i < |name| ==> FileNameSafe(name[i])
    ensures SanitizeFilename(name) == name
  {
  }

  lemma SanitizeIdempotent(name: string)
    ensures SanitizeFilename(SanitizeFilename(name)) == SanitizeFilename(name)
  {
    SanitizeKeepsSafeNames(SanitizeFilename(name));
  }

  // ---------------------------------------------------------------------------
  // normalize_text

  /** The eight quotation marks that are deleted: ‘ ’ “ ” ' " « ». */
  const QUOTES: string := "‘’“”'\"«»"

  /** What `strip` removes at both ends: ASCII punctuation and the plain space only. */
  const TRIM: string := PUNCTUATION + " "

  /** The meaning of `normalize_text`: delete the quotes, strip `TRIM` at both ends, lower-case. */
  function Normalized(s: string): string {
    Lower(StripChars(RemoveChars(s, QUOTES), TRIM))
  }

  lemma {:induction false} RemoveNothing(s: string)
    ensures RemoveChars(s, "") == s
    decreases |s|
  {
    if |s| > 0 {
      RemoveNothing(s[1..]);
    }
  }

  lemma NormalizedEmpty()
    ensures Normalized("") == ""
  {
    assert RemoveChars("", QUOTES) == "";
  }

  /** `normalize_text` as the source writes it: one `replace(ch, "")` per quote, then `strip`, then `lower`. */
  method NormalizeText(s: string) returns (r: string)
    ensures r == Normalized(s)
  {
    var text := s;
    RemoveNothing(s);
    for i := 0 to |QUOTES|
      invariant text == RemoveChars(s, QUOTES[..i])
    {
      RemoveQuoteStep(s, i);
      text := RemoveChars(text, [QUOTES[i]]);
    }
    assert QUOTES[..|QUOTES|] == QUOTES;
    text := StripChars(text, TRIM);
    r := Lower(text);
  }

  /** One turn of the quote loop removes one more quote character. */
  lemma RemoveQuoteStep(s: string, i: nat)
    requires i < |QUOTES|
    ensures RemoveChars(RemoveChars(s, QUOTES[..i]), [QUOTES[i]]) == RemoveChars(s, QUOTES[..i + 1])
  {
    RemoveCharsTwice(s, QUOTES[..i], [QUOTES[i]]);
    assert QUOTES[..i + 1] == QUOTES[..i] + [QUOTES[i]];
  }

  lemma QuoteIsNotLetter(c: char)
    ensures IsLetter(c) ==> c !in QUOTES
  {
  }

  lemma TrimIsNotLetter(c: char)
    ensures IsLetter(c) ==> c !in TRIM
  {
    if c in TRIM {
      PunctuationHasNoLetters(c);
    }
  }

  /** Every character of `Lower(t)` is the lower case of a character of `t`. */
  lemma LowerCharsFrom(t: string, c: char)
    requires c in Lower(t)
    ensures exists d :: d in t && c == LowerChar(d)
  {
    var i :| 0 <= i < |t| && Lower(t)[i] == c;
    assert t[i] in t;
  }

  /** No quotation mark survives normalisation. */
  lemma NormalizedHasNoQuotes(s: string)
    ensures forall c :: c in Normalized(s) ==> c !in QUOTES
  {
    var t := StripChars(RemoveChars(s, QUOTES), TRIM);
    forall c | c in Normalized(s) ensures c !in QUOTES {
      LowerCharsFrom(t, c);
      var d :| d in t && c == LowerChar(d);
      assert d !in QUOTES;
      if IsLetter(d) {
        QuoteIsNotLetter(c);
      }
    }
  }

  /** The result neither starts nor ends with ASCII punctuation or a space. */
  lemma NormalizedIsTrimmed(s: string)
    ensures var r := Normalized(s); |r| > 0 ==> r[0] !in TRIM && r[|r| - 1] !in TRIM
  {
    var t := StripChars(RemoveChars(s, QUOTES), TRIM);
    var r := Normalized(s);
    if |r| > 0 {
      TrimIsNotLetter(r[0]);
      TrimIsNotLetter(r[|r| - 1]);
    }
  }

  /**
   * Quotes, ASCII punctuation and spaces around a quote-free text are dropped, while the
   * text itself is only lower-cased: its interior punctuation and spaces survive.
   */
  lemma NormalizedKeepsInterior(pre: string, s: string, post: string)
    requires forall c :: c in pre ==> c in QUOTES || c in TRIM
    requires forall c :: c in post ==> c in QUOTES || c in TRIM
    requires forall c :: c in s ==> c !in QUOTES
    requires |s| > 0 && s[0] !in TRIM && s[|s| - 1] !in TRIM
    ensures Normalized(pre + s + post) == Lower(s)
  {
    RemoveCharsConcat(pre + s, post, QUOTES);
    RemoveCharsConcat(pre, s, QUOTES);
    RemoveAbsent(s, QUOTES);
    StripCharsFrame(RemoveChars(pre, QUOTES), s, RemoveChars(post, QUOTES), TRIM);
  }

  /** A quote-free text that neither starts nor ends with punctuation or a space is only lower-cased. */
  lemma NormalizedPlain(s: string)
    requires forall c :: c in s ==> c !in QUOTES
    requires |s| > 0 ==> s[0] !in TRIM && s[|s| - 1] !in TRIM
    ensures Normalized(s) == Lower(s)
  {
    if |s| == 0 {
      NormalizedEmpty();
    } else {
      RemoveAbsent(s, QUOTES);
      StripCharsNoop(s, TRIM);
    }
  }

  lemma LowerLoginButton()
    ensures Lower("Вход/Регистрация") == "вход/регистрация"
  {
    assert "Вход/Регистрация" == ['В', 'х', 'о', 'д', '/', 'Р', 'е', 'г', 'и', 'с', 'т', 'р', 'а', 'ц', 'и', 'я'];
  }

  lemma LoginButtonSplit()
    ensures "«Вход/Регистрация»" == "«" + "Вход/Регистрация" + "»"
  {
  }

  lemma LoginButtonFrame()
    ensures forall c :: c in "«" ==> c in QUOTES || c in TRIM
    ensures forall c :: c in "»" ==> c in QUOTES || c in TRIM
  {
  }

  lemma LoginButtonQuoteFree()
    ensures forall c :: c in "Вход/Регистрация" ==> c !in QUOTES
  {
  }

  lemma LoginButtonEnds()
    ensures |"Вход/Регистрация"| > 0 && "Вход/Регистрация"[0] !in TRIM && "Вход/Регистрация"[|"Вход/Регистрация"| - 1] !in TRIM
  {
    assert "Вход/Регистрация"[0] == 'В' && "Вход/Регистрация"[15] == 'я';
    TrimIsNotLetter('В');
    TrimIsNotLetter('я');
  }

  /** The e-Qyzmet login button: the guillemets go and the slash stays. */
  lemma NormalizedLoginButton()
    ensures Normalized("«Вход/Регистрация»") == "вход/регистрация"
  {
    LoginButtonFrame();
    LoginButtonQuoteFree();
    LoginButtonEnds();
    NormalizedKeepsInterior("«", "Вход/Регистрация", "»");
    LowerLoginButton();
    LoginButtonSplit();
  }

  lemma LowerSubmit()
    ensures Lower("Submit") == "submit"
  {
    assert "Submit" == ['S', 'u', 'b', 'm', 'i', 't'];
  }

  lemma QuotedLabelSplit()
    ensures "  'Submit.'  " == "  '" + "Submit" + ".'  "
  {
  }

  lemma QuotedLabelFrame()
    ensures forall c :: c in "  '" ==> c in QUOTES || c in TRIM
    ensures forall c :: c in ".'  " ==> c in QUOTES || c in TRIM
  {
  }

  lemma SubmitQuoteFree()
    ensures forall c :: c in "Submit" ==> c !in QUOTES
  {
  }

  lemma SubmitEnds()
    ensures |"Submit"| > 0 && "Submit"[0] !in TRIM && "Submit"[|"Submit"| - 1] !in TRIM
  {
    assert "Submit"[0] == 'S' && "Submit"[5] == 't';
    TrimIsNotLetter('S');
    TrimIsNotLetter('t');
  }

  /** Spaces, quotes and a trailing full stop around a label all go. */
  lemma NormalizedQuotedLabel()
    ensures Normalized("  'Submit.'  ") == "submit"
  {
    QuotedLabelFrame();
    SubmitQuoteFree();
    SubmitEnds();
    NormalizedKeepsInterior("  '", "Submit", ".'  ");
    LowerSubmit();
    QuotedLabelSplit();
  }

  /** Normalising twice is normalising once. */
  lemma NormalizeIdempotent(s: string)
    ensures Normalized(Normalized(s)) == Normalized(s)
  {
    var r := Normalized(s);
    NormalizedHasNoQuotes(s);
    RemoveAbsent(r, QUOTES);
    NormalizedIsTrimmed(s);
    StripCharsNoop(r, TRIM);
    LowerIdempotent(StripChars(RemoveChars(s, QUOTES), TRIM));
  }

  // ---------------------------------------------------------------------------
  // The element map: a dict as an ordered list of pairs

  type ElementMap = seq<(string, Point)>

  function Keys(m: ElementMap): (ks: seq<string>)
    ensures |ks| == |m|
  {
    seq(|m|, i requires 0 <= i < |m| => m[i].0)
  }

  predicate DistinctKeys(m: ElementMap) {
    forall i, j :: 0 <= i < j < |m| ==> m[i].0 != m[j].0
  }

  /** `m.get(k)`: the value stored under `k`, if any. */
  function Get(m: ElementMap, k: string): Option<Point>
    decreases |m|
  {
    if |m| == 0 then None
    else if m[0].0 == k then Some(m[0].1)
    else Get(m[1..], k)
  }

  /** A key is found exactly when it is one of the keys. */
  lemma {:induction false} GetFindsKeys(m: ElementMap, k: string)
    ensures Get(m, k).Some? <==> k in Keys(m)
    decreases |m|
  {
    if |m| > 0 {
      GetFindsKeys(m[1..], k);
      assert Keys(m) == [m[0].0] + Keys(m[1..]);
    }
  }

  /** With distinct keys, the value found under a key is the one stored beside it. */
  lemma {:induction false} GetStoredValue(m: ElementMap, i: nat)
    requires DistinctKeys(m) && i < |m|
    ensures Get(m, m[i].0) == Some(m[i].1)
    decreases i
  {
    if i > 0 {
      assert m[0].0 != m[i].0;
      GetStoredValue(m[1..], i - 1);
    }
  }

  /** `m[k] = v`: an existing key keeps its position and gets the new value; a new key goes last. */
  function Put(m: ElementMap, k: string, v: Point): (r: ElementMap)
    ensures Get(r, k) == Some(v)
    decreases |m|
  {
    if |m| == 0 then [(k, v)]
    else if m[0].0 == k then [(k, v)] + m[1..]
    else [m[0]] + Put(m[1..], k, v)
  }

  /** Writing one key leaves every other key's value alone. */
  lemma {:induction false} PutOther(m: ElementMap, k: string, v: Point, k': string)
    requires k' != k
    ensures Get(Put(m, k, v), k') == Get(m, k')
    decreases |m|
  {
    if |m| > 0 && m[0].0 != k {
      PutOther(m[1..], k, v, k');
      assert Put(m, k, v)[1..] == Put(m[1..], k, v);
    }
  }

  /** Overwriting an existing key keeps the key order. */
  lemma {:induction false} PutExisting(m: ElementMap, k: string, v: Point)
    requires Get(m, k).Some?
    ensures Keys(Put(m, k, v)) == Keys(m)
    decreases |m|
  {
    assert m == [m[0]] + m[1..];
    KeysCons(m[0], m[1..]);
    if m[0].0 != k {
      PutExisting(m[1..], k, v);
      KeysCons(m[0], Put(m[1..], k, v));
    } else {
      KeysCons((k, v), m[1..]);
    }
  }

  lemma KeysCons(p: (string, Point), m: ElementMap)
    ensures Keys([p] + m) == [p.0] + Keys(m)
  {
  }

  /** A new key is appended. */
  lemma {:induction false} PutNew(m: ElementMap, k: string, v: Point)
    requires Get(m, k).None?
    ensures Put(m, k, v) == m + [(k, v)]
    decreases |m|
  {
    if |m| > 0 {
      assert m[0].0 != k;
      PutNew(m[1..], k, v);
      assert m == [m[0]] + m[1..];
    }
  }

  /** Writing a key never removes or reorders keys. */
  lemma PutExtendsKeys(m: ElementMap, k: string, v: Point)
    ensures Keys(m) <= Keys(Put(m, k, v))
  {
    if Get(m, k).Some? {
      PutExisting(m, k, v);
    } else {
      PutNew(m, k, v);
      assert Keys(m + [(k, v)]) == Keys(m) + [k];
    }
  }

  lemma PutKeepsDistinct(m: ElementMap, k: string, v: Point)
    requires DistinctKeys(m)
    ensures DistinctKeys(Put(m, k, v))
  {
    if Get(m, k).Some? {
      PutExisting(m, k, v);
      var r := Put(m, k, v);
      forall i, j | 0 <= i < j < |r| ensures r[i].0 != r[j].0 {
        assert Keys(r)[i] == Keys(m)[i] && Keys(r)[j] == Keys(m)[j];
      }
    } else {
      PutNew(m, k, v);
    }
  }

  // ---------------------------------------------------------------------------
  // The two OCR folds

  /** The raw map of `extract_text_elements` keys stripped text; `click_button` also normalises it. */
  datatype KeyStyle = RawText | NormalizedText

  /** The key a token contributes; "" means the token is skipped. */
  function ElementKey(style: KeyStyle, raw: string): string {
    match style
    case RawText => Strip(raw)
    case NormalizedText => Normalized(Strip(raw))
  }

  /** Every token as (key, centre of its box `(x + w // 2, y + h // 2)`), in token order. */
  function Tokens(d: OcrData, style: KeyStyle): (ts: seq<(string, Point)>)
    requires WellFormed(d)
    ensures |ts| == |d.text|
  {
    seq(|d.text|, i requires 0 <= i < |d.text| => (ElementKey(style, d.text[i]), Centre(BoxAt(d, i))))
  }

  /** The map after the pairs of `ts` have been folded in, in order; "" keys are skipped. */
  function Fold(ts: seq<(string, Point)>): ElementMap
    decreases |ts|
  {
    if |ts| == 0 then []
    else
      var m := Fold(ts[..|ts| - 1]);
      var (k, c) := ts[|ts| - 1];
      if k == "" then m else Put(m, k, c)
  }

  function ElementMapOf(d: OcrData, style: KeyStyle): ElementMap
    requires WellFormed(d)
  {
    Fold(Tokens(d, style))
  }

  /** The keys are exactly the non-empty keys of the pairs folded in. */
  lemma {:induction false} FoldKeys(ts: seq<(string, Point)>, k: string)
    ensures Get(Fold(ts), k).Some? <==> k != "" && exists i :: 0 <= i < |ts| && ts[i].0 == k
    decreases |ts|
  {
    if |ts| > 0 {
      var init := ts[..|ts| - 1];
      FoldKeys(init, k);
      var (key, c) := ts[|ts| - 1];
      if key != "" && key != k {
        PutOther(Fold(init), key, c, k);
      }
      if exists i :: 0 <= i < |ts| && ts[i].0 == k {
        var i :| 0 <= i < |ts| && ts[i].0 == k;
        if i < |ts| - 1 {
          assert init[i].0 == k;
        }
      }
      if exists i :: 0 <= i < |init| && init[i].0 == k {
        var i :| 0 <= i < |init| && init[i].0 == k;
        assert ts[i].0 == k;
      }
    }
  }

  /** For a repeated key the value of its LAST occurrence is stored. */
  lemma {:induction false} FoldLastOccurrenceWins(ts: seq<(string, Point)>, i: nat)
    requires i < |ts| && ts[i].0 != ""
    requires forall j :: i < j < |ts| ==> ts[j].0 != ts[i].0
    ensures Get(Fold(ts), ts[i].0) == Some(ts[i].1)
    decreases |ts|
  {
    var init := ts[..|ts| - 1];
    if i < |ts| - 1 {
      FoldLastOccurrenceWins(init, i);
      var (key, c) := ts[|ts| - 1];
      if key != "" {
        PutOther(Fold(init), key, c, ts[i].0);
      }
    }
  }

  lemma {:induction false} FoldKeysDistinct(ts: seq<(string, Point)>)
    ensures DistinctKeys(Fold(ts))
    decreases |ts|
  {
    if |ts| > 0 {
      var init := ts[..|ts| - 1];
      FoldKeysDistinct(init);
      var (key, c) := ts[|ts| - 1];
      if key != "" {
        PutKeepsDistinct(Fold(init), key, c);
      }
    }
  }

  /** One more pair only appends a key or leaves the keys as they are. */
  lemma FoldStepKeepsKeys(ts: seq<(string, Point)>)
    requires |ts| > 0
    ensures Keys(Fold(ts[..|ts| - 1])) <= Keys(Fold(ts))
  {
    var (k, c) := ts[|ts| - 1];
    if k != "" {
      PutExtendsKeys(Fold(ts[..|ts| - 1]), k, c);
    }
  }

  /** Keys keep the position of their first insertion: folding in more pairs only appends keys. */
  lemma {:induction false} FoldKeyOrderIsStable(ts: seq<(string, Point)>, n: nat)
    requires n <= |ts|
    ensures Keys(Fold(ts[..n])) <= Keys(Fold(ts))
    decreases |ts| - n
  {
    if n == |ts| {
      assert ts[..n] == ts;
    } else {
      FoldKeyOrderIsStable(ts[..|ts| - 1], n);
      assert ts[..|ts| - 1][..n] == ts[..n];
      FoldStepKeepsKeys(ts);
      var a, b, c := Keys(Fold(ts[..n])), Keys(Fold(ts[..|ts| - 1])), Keys(Fold(ts));
      assert a == b[..|a|] && b == c[..|b|];
      assert c[..|b|][..|a|] == c[..|a|];
    }
  }

  /** The keys of the map are exactly the non-empty keys of the tokens. */
  lemma ElementKeys(d: OcrData, style: KeyStyle, k: string)
    requires WellFormed(d)
    ensures Get(ElementMapOf(d, style), k).Some?
        <==> k != "" && exists i :: 0 <= i < |d.text| && ElementKey(style, d.text[i]) == k
  {
    var ts := Tokens(d, style);
    FoldKeys(ts, k);
    if exists i :: 0 <= i < |ts| && ts[i].0 == k {
      var i :| 0 <= i < |ts| && ts[i].0 == k;
      assert ElementKey(style, d.text[i]) == k;
    }
    if exists i :: 0 <= i < |d.text| && ElementKey(style, d.text[i]) == k {
      var i :| 0 <= i < |d.text| && ElementKey(style, d.text[i]) == k;
      assert ts[i].0 == k;
    }
  }

  /** For a repeated key the centre of the box of its LAST occurrence is stored. */
  lemma ElementLastOccurrenceWins(d: OcrData, style: KeyStyle, i: nat)
    requires WellFormed(d) && i < |d.text|
    requires ElementKey(style, d.text[i]) != ""
    requires forall j :: i < j < |d.text| ==> ElementKey(style, d.text[j]) != ElementKey(style, d.text[i])
    ensures Get(ElementMapOf(d, style), ElementKey(style, d.text[i])) == Some(Centre(BoxAt(d, i)))
  {
    var ts := Tokens(d, style);
    forall j | i < j < |ts| ensures ts[j].0 != ts[i].0 {
      assert ts[j].0 == ElementKey(style, d.text[j]);
    }
    FoldLastOccurrenceWins(ts, i);
  }

  /** No key appears twice. */
  lemma ElementKeysDistinct(d: OcrData, style: KeyStyle)
    requires WellFormed(d)
    ensures DistinctKeys(ElementMapOf(d, style))
  {
    FoldKeysDistinct(Tokens(d, style));
  }

  /** Keys keep the position of their first insertion: the map of the first `n` tokens lists
      its keys in the same order as the map of all tokens starts. */
  lemma ElementKeyOrderIsStable(d: OcrData, style: KeyStyle, n: nat)
    requires WellFormed(d) && n <= |d.text|
    ensures Keys(Fold(Tokens(d, style)[..n])) <= Keys(ElementMapOf(d, style))
  {
    FoldKeyOrderIsStable(Tokens(d, style), n);
  }

  lemma TokenAt(d: OcrData, style: KeyStyle, i: nat)
    requires WellFormed(d) && i < |d.text|
    ensures Tokens(d, style)[i] == (ElementKey(style, d.text[i]), Centre(BoxAt(d, i)))
  {
  }

  /** The key a word contributes: its stripped text, normalised as well for `click_button`
      unless it is already empty. */
  method WordKey(word: string, style: KeyStyle) returns (key: string)
    ensures key == ElementKey(style, word)
  {
    key := Strip(word);
    if style == NormalizedText {
      if key == "" {
        NormalizedEmpty();
      } else {
        key := NormalizeText(key);
      }
    }
  }

  /** The entry token `i` contributes: its key and the centre of its box. */
  method TokenEntry(ocr: OcrData, style: KeyStyle, i: nat) returns (key: string, centre: Point)
    requires WellFormed(ocr) && i < |ocr.text|
    ensures (key, centre) == Tokens(ocr, style)[i]
  {
    key := WordKey(ocr.text[i], style);
    centre := Centre(BoxAt(ocr, i));
    TokenAt(ocr, style, i);
  }

  /** Folds the tokens of `ocr` into a map the way both source loops do. */
  method CollectElements(ocr: OcrData, style: KeyStyle) returns (elements: ElementMap)
    requires WellFormed(ocr)
    ensures elements == ElementMapOf(ocr, style)
  {
    ghost var ts := Tokens(ocr, style);
    elements := [];
    for i := 0 to |ocr.text|
      invariant elements == Fold(ts[..i])
    {
      var key, centre := TokenEntry(ocr, style, i);
      assert ts[..i + 1][..i] == ts[..i];
      if key != "" {
        elements := Put(elements, key, centre);
      }
    }
    assert ts[..|ts|] == ts;
  }

  /** `extract_text_elements`: the raw map, or `{}` when a library is missing or the image could
      not be read (`ocr` is `None` for a missing, empty or unreadable file and for an OCR failure). */
  method ExtractTextElements(caps: Capabilities, ocr: Option<OcrData>) returns (elements: ElementMap)
    requires ocr.Some? ==> WellFormed(ocr.value)
    ensures !(caps.cv && caps.pil) || ocr.None? ==> elements == []
    ensures caps.cv && caps.pil && ocr.Some? ==> elements == ElementMapOf(ocr.value, RawText)
  {
    if !(caps.cv && caps.pil) || ocr.None? {
      return [];
    }
    elements := CollectElements(ocr.value, RawText);
  }

  // ---------------------------------------------------------------------------
  // get_active_window_screenshot

  datatype Window = Window(title: string, left: int, top: int, width: int, height: int)

  /** How each I/O step of the capture turns out: the region screenshot, the full-screen
      screenshot together with its save, the save of the region image, and the final
      existence check of the file. */
  datatype CaptureEnv = CaptureEnv(regionOk: bool, fullOk: bool, saveOk: bool, fileExists: bool)

  /** `interface_cache/{title}_{stamp}.png` or `interface_cache/fullscreen_{stamp}.png`. */
  datatype ShotPath = WindowShot(title: string, stamp: int) | FullScreenShot(stamp: int)

  const CACHE_DIR: string := "interface_cache"

  function PathString(p: ShotPath): string {
    match p
    case WindowShot(title, stamp) => CACHE_DIR + "/" + title + "_" + IntToString(stamp) + ".png"
    case FullScreenShot(stamp) => CACHE_DIR + "/fullscreen_" + IntToString(stamp) + ".png"
  }

  /** The saved path (or `None`) and the screenshot calls made, in order. */
  datatype Shot = Shot(path: Option<ShotPath>, calls: seq<Action>)

  function WindowRegion(w: Window): Region {
    Region(w.left, w.top, w.width, w.height)
  }

  /** The full-screen attempt: `screenshot()` then `save`, both under one try. */
  function FullScreenAttempt(env: CaptureEnv, now: int, before: seq<Action>): Shot {
    Shot(if env.fullOk then Some(FullScreenShot(now)) else None, before + [Capture(None)])
  }

  /** `get_active_window_screenshot`, over abstract outcomes of each step (`now` is `time.time()`). */
  function ActiveWindowScreenshot(caps: Capabilities, window: Option<Window>, env: CaptureEnv, now: int): (s: Shot)
    ensures s.path.Some? ==> caps.pyautogui && caps.pywinctl
    ensures |s.calls| <= 2 && forall k :: 0 <= k < |s.calls| ==> s.calls[k].Capture?
    ensures window.Some? && (window.value.width == 0 || window.value.height == 0) ==> s == Shot(None, [])
    ensures |s.calls| == 2 ==>
      window.Some? && s.calls == [Capture(Some(WindowRegion(window.value))), Capture(None)] && !env.regionOk
    ensures s.path.Some? && s.path.value.WindowShot? ==>
      && window.Some?
      && s.path.value.title == SanitizeFilename(window.value.title)
      && s.calls == [Capture(Some(WindowRegion(window.value)))]
      && env.regionOk && env.saveOk && env.fileExists
    ensures s.path.Some? && s.path.value.FullScreenShot? ==> env.fullOk && |s.calls| > 0 && s.calls[|s.calls| - 1] == Capture(None)
    // the library guard: nothing is captured
    ensures !(caps.pyautogui && caps.pywinctl) ==> s == Shot(None, [])
    // no active window: one full-screen attempt
    ensures caps.pyautogui && caps.pywinctl && window.None? ==>
      && s.calls == [Capture(None)]
      && s.path == (if env.fullOk then Some(FullScreenShot(now)) else None)
    // a failed region capture falls back to the full screen
    ensures caps.pyautogui && caps.pywinctl && window.Some? && window.value.width != 0 && window.value.height != 0 && !env.regionOk ==>
      && s.calls == [Capture(Some(WindowRegion(window.value))), Capture(None)]
      && (s.path.Some? <==> env.fullOk)
      && (env.fullOk ==> s.path == Some(FullScreenShot(now)))
    // a successful region capture is kept only if it was saved and the file exists
    ensures caps.pyautogui && caps.pywinctl && window.Some? && window.value.width != 0 && window.value.height != 0 && env.regionOk ==>
      && s.calls == [Capture(Some(WindowRegion(window.value)))]
      && (s.path.Some? <==> env.saveOk && env.fileExists)
      && (env.saveOk && env.fileExists ==> s.path == Some(WindowShot(SanitizeFilename(window.value.title), now)))
  {
    if !(caps.pyautogui && caps.pywinctl) then Shot(None, [])
    else if window.None? then FullScreenAttempt(env, now, [])
    else
      var w := window.value;
      var title := SanitizeFilename(w.title);
      if w.width == 0 || w.height == 0 then Shot(None, [])
      else
        var regionCall := [Capture(Some(WindowRegion(w)))];
        if !env.regionOk then FullScreenAttempt(env, now, regionCall)
        else if !env.saveOk || !env.fileExists then Shot(None, regionCall)
        else Shot(Some(WindowShot(title, now)), regionCall)
  }

  // ---------------------------------------------------------------------------
  // click_button

  const MSG_NO_LIBRARIES: string := "Не удалось выполнить операцию: отсутствуют необходимые библиотеки"
  const MSG_NO_PIL: string := "Не удалось выполнить операцию: отсутствует библиотека PIL"
  const MSG_NO_WINDOW: string := "Не удалось определить активное окно"
  const MSG_NO_SCREENSHOT: string := "Ошибка: не удалось сделать скриншот окна"

  function PressedMessage(buttonText: string): string {
    "✅ Нажал кнопку '" + buttonText + "'"
  }

  function PressedSimilarMessage(key: string, buttonText: string): string {
    "✅ Нажал кнопку '" + key + "' (похожа на '" + buttonText + "')"
  }

  function NotFoundMessage(buttonText: string): string {
    "❌ Кнопка '" + buttonText + "' не найдена. Убедитесь, что она видна на экране"
  }

  /** The partial-match test: either string contains the other. */
  predicate Related(search: string, key: string) {
    IsSubstring(search, key) || IsSubstring(key, search)
  }

  /** The first position, in insertion order, whose key is related to `search`. */
  function FirstRelated(m: ElementMap, search: string): (r: Option<nat>)
    ensures r.Some? ==> r.value < |m| && Related(search, m[r.value].0)
    ensures r.Some? ==> forall j :: 0 <= j < r.value ==> !Related(search, m[j].0)
    ensures r.None? ==> forall j :: 0 <= j < |m| ==> !Related(search, m[j].0)
    decreases |m|
  {
    if |m| == 0 then None
    else if Related(search, m[0].0) then Some(0)
    else
      match FirstRelated(m[1..], search)
      case None => None
      case Some(i) => Some(i + 1)
  }

  datatype Lookup = ExactKey(at: Point) | PartialKey(key: string, at: Point) | NoKey

  /** Exact key first; otherwise the first related key in insertion order; otherwise nothing. */
  function ButtonLookup(m: ElementMap, search: string): (r: Lookup)
    ensures r.ExactKey? <==> Get(m, search).Some?
    ensures r.ExactKey? ==> Get(m, search) == Some(r.at)
    ensures r.PartialKey? ==> exists i :: 0 <= i < |m| && FirstRelated(m, search) == Some(i) && m[i] == (r.key, r.at)
    ensures r.NoKey? ==> Get(m, search).None? && forall j :: 0 <= j < |m| ==> !Related(search, m[j].0)
  {
    match Get(m, search)
    case Some(p) => ExactKey(p)
    case None =>
      match FirstRelated(m, search)
      case Some(i) => PartialKey(m[i].0, m[i].1)
      case None => NoKey
  }

  /** An empty search key is contained in every key, so it picks the first key of any
      non-empty map that does not hold the key "" itself. */
  lemma EmptySearchPicksFirstKey(m: ElementMap)
    requires |m| > 0 && Get(m, "").None?
    ensures ButtonLookup(m, "") == PartialKey(m[0].0, m[0].1)
  {
    EmptyIsSubstring(m[0].0);
  }

  /** The normalised map never holds the key "". */
  lemma NormalizedMapHasNoEmptyKey(d: OcrData)
    requires WellFormed(d)
    ensures Get(ElementMapOf(d, NormalizedText), "").None?
  {
    ElementKeys(d, NormalizedText, "");
  }

  /** Steps 4 and 5 of `click_button`: the exact key, else the first related key in order. */
  method FindButton(elements: ElementMap, searchKey: string) returns (lookup: Lookup)
    ensures lookup == ButtonLookup(elements, searchKey)
  {
    var exact := Get(elements, searchKey);
    if exact.Some? {
      return ExactKey(exact.value);
    }
    var i := 0;
    while i < |elements|
      invariant 0 <= i <= |elements|
      invariant forall j :: 0 <= j < i ==> !Related(searchKey, elements[j].0)
    {
      var (key, at) := elements[i];
      if IsSubstring(searchKey, key) || IsSubstring(key, searchKey) {
        return PartialKey(key, at);
      }
      i := i + 1;
    }
    return NoKey;
  }

  predicate Ready(caps: Capabilities) { caps.cv && caps.pyautogui && caps.pywinctl }

  /** The message and the click of `click_button` once the lookup is known. */
  function LookupOutcome(lookup: Lookup, buttonText: string): (string, seq<Action>) {
    match lookup
    case ExactKey(p) => (PressedMessage(buttonText), [Click(p)])
    case PartialKey(key, p) => (PressedSimilarMessage(key, buttonText), [Click(p)])
    case NoKey => (NotFoundMessage(buttonText), [])
  }

  /**
   * `click_button`. `window` is what `getActiveWindow()` returns, `env` and `now` drive the
   * screenshot, and `ocr` is what the OCR engine (`lang="rus+eng"`) reports for that screenshot.
   */
  method ClickButton(caps: Capabilities, window: Option<Window>, env: CaptureEnv, now: int,
                     ocr: OcrData, buttonText: string) returns (msg: string, events: seq<Action>)
    requires WellFormed(ocr)
    ensures !Ready(caps) ==> msg == MSG_NO_LIBRARIES && events == []
    ensures Ready(caps) && !caps.pil ==> msg == MSG_NO_PIL && events == []
    ensures Ready(caps) && caps.pil && window.None? ==> msg == MSG_NO_WINDOW && events == []
    ensures Ready(caps) && caps.pil && window.Some? ==>
      var shot := ActiveWindowScreenshot(caps, window, env, now);
      var lookup := ButtonLookup(ElementMapOf(ocr, NormalizedText), Normalized(buttonText));
      && (shot.path.None? ==> msg == MSG_NO_SCREENSHOT && events == shot.calls)
      && (shot.path.Some? ==>
            msg == LookupOutcome(lookup, buttonText).0 && events == shot.calls + LookupOutcome(lookup, buttonText).1)
  {
    events := [];
    if !Ready(caps) {
      return MSG_NO_LIBRARIES, events;
    }
    if !caps.pil {
      return MSG_NO_PIL, events;
    }
    if window.None? {
      return MSG_NO_WINDOW, events;
    }
    var shot := ActiveWindowScreenshot(caps, window, env, now);
    events := shot.calls;
    if shot.path.None? {
      return MSG_NO_SCREENSHOT, events;
    }
    var elements := CollectElements(ocr, NormalizedText);
    var searchKey := NormalizeText(buttonText);
    var lookup := FindButton(elements, searchKey);
    match lookup {
      case ExactKey(p) =>
        events := events + [Click(p)];
        msg := PressedMessage(buttonText);
      case PartialKey(key, p) =>
        events := events + [Click(p)];
        msg := PressedSimilarMessage(key, buttonText);
      case NoKey =>
        msg := NotFoundMessage(buttonText);
    }
  }
}
