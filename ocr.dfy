/**
 * `OCRService`: engine start-up failure, the reshaping of the reader's
 * detections into plain records, and the (identity) merge step. The EasyOCR
 * reader is an oracle; coordinates and scores are reals.
 */
module Ocr {
  import opened Wrappers
  import opened Errors

  const InitPrefix := "Failed to initialize OCR engine: "
  /** What indexing a too-short list raises. */
  const IndexMessage := "list index out of range"

  /** One reader result: a polygon of points, the text read and its confidence. */
  datatype Detection = Detection(box: seq<seq<real>>, text: string, prob: real)

  /** One record of `extract_text`: `{"text", "bbox", "confidence"}`. */
  datatype Fragment = Fragment(text: string, bbox: seq<(int, int)>, confidence: real)

  /** A started service; the reader it holds is outside the model. */
  datatype OcrService = OcrService(languages: seq<string>)

  /** `int(x)` on a float: truncation toward zero. */
  function Trunc(x: real): (n: int)
    ensures x >= 0.0 ==> n as real <= x < n as real + 1.0
    ensures x < 0.0 ==> n as real - 1.0 < x <= n as real
  {
    if x >= 0.0 then x.Floor else -((-x).Floor)
  }

  /** The languages `OCRService()` starts with when none are given. */
  const DefaultLanguages: seq<string> := ["en"]

  /**
   * `OCRService(languages)`; `None` means the argument was omitted.
   * `engineError` is the message of what the reader's constructor raised, if anything.
   */
  function NewOcrService(languages: Option<seq<string>>, engineError: Option<string>): (r: Result<OcrService, AppError>)
    ensures r.Ok? <==> engineError.None?
    ensures r.Ok? && languages.Some? ==> r.value.languages == languages.value
    ensures r.Ok? && languages.None? ==> r.value.languages == ["en"]
    ensures r.Err? ==> r.error == OCRFailure(InitPrefix + engineError.value) && r.error.Status() == 500
  {
    var langs := match languages case Some(l) => l case None => DefaultLanguages;
    match engineError
    case None => Ok(OcrService(langs))
    case Some(e) => Err(OCRFailure(InitPrefix + e))
  }

  /** Every point of every detection has the two coordinates the comprehension reads. */
  predicate Indexable(ds: seq<Detection>) {
    forall k, j :: 0 <= k < |ds| && 0 <= j < |ds[k].box| ==> |ds[k].box[j]| >= 2
  }

  /** The record made from one detection. */
  predicate Reshaped(f: Fragment, d: Detection) {
    && f.text == d.text
    && |f.bbox| == |d.box|
    && (forall j :: 0 <= j < |d.box| ==> |d.box[j]| >= 2 && f.bbox[j] == (Trunc(d.box[j][0]), Trunc(d.box[j][1])))
    && f.confidence == d.prob
  }

  /**
   * `extract_text(image)`, where `reading` is what `readtext` returned or the
   * message of what it raised.
   */
  method ExtractText(reading: Result<seq<Detection>, string>) returns (r: Result<seq<Fragment>, AppError>)
    ensures reading.Err? ==> r == Err(OCRFailure(reading.error))
    ensures reading.Ok? && !Indexable(reading.value) ==> r == Err(OCRFailure(IndexMessage))
    ensures r.Ok? <==> reading.Ok? && Indexable(reading.value)
    ensures r.Ok? ==> |r.value| == |reading.value|
    ensures r.Ok? ==> forall k :: 0 <= k < |r.value| ==> Reshaped(r.value[k], reading.value[k])
  {
    if reading.Err? {
      return Err(OCRFailure(reading.error));
    }
    var results := reading.value;
    var structured: seq<Fragment> := [];
    var i := 0;
    while i < |results|
      invariant 0 <= i <= |results|
      invariant |structured| == i
      invariant Indexable(results[..i])
      invariant forall k :: 0 <= k < i ==> Reshaped(structured[k], results[k])
    {
      var d := results[i];
      var points: seq<(int, int)> := [];
      var j := 0;
      while j < |d.box|
        invariant 0 <= j <= |d.box|
        invariant |points| == j
        invariant forall m :: 0 <= m < j ==> |d.box[m]| >= 2 && points[m] == (Trunc(d.box[m][0]), Trunc(d.box[m][1]))
      {
        var pt := d.box[j];
        if |pt| < 2 {
          assert !Indexable(results);
          return Err(OCRFailure(IndexMessage));
        }
        points := points + [(Trunc(pt[0]), Trunc(pt[1]))];
        j := j + 1;
      }
      structured := structured + [Fragment(d.text, points, d.prob)];
      assert results[..i + 1] == results[..i] + [d];
      i := i + 1;
    }
    assert results[..i] == results;
    return Ok(structured);
  }

  /** `merge_nearby_text`: the records come back as they went in, whatever the threshold. */
  function MergeNearbyText(results: seq<Fragment>, distanceThreshold: int): (r: seq<Fragment>)
    ensures r == results
  {
    results
  }
}
