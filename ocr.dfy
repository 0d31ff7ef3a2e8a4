/**
 * The output of the OCR engine (`pytesseract.image_to_data` with
 * `Output.DICT`): parallel columns indexed by token position. Confidence is
 * the engine's integer score on a 0–100 scale; rows that are not words carry
 * -1.
 */
module Ocr {
  import opened Actions

  datatype OcrData = OcrData(
    text: seq<string>,
    conf: seq<int>,
    left: seq<int>,
    top: seq<int>,
    width: seq<int>,
    height: seq<int>)

  /** The engine always returns columns of one common length. */
  predicate WellFormed(d: OcrData) {
    |d.conf| == |d.text| && |d.left| == |d.text| && |d.top| == |d.text|
    && |d.width| == |d.text| && |d.height| == |d.text|
  }

  /** The bounding box `(left[i], top[i], width[i], height[i])` of token `i`. */
  function BoxAt(d: OcrData, i: nat): Region
    requires WellFormed(d) && i < |d.text|
  {
    Region(d.left[i], d.top[i], d.width[i], d.height[i])
  }
}
