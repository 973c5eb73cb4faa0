/** Values shared by every decoding path: file paths, the errors the decoders
    raise, and the filter applied to the barcode reader's results. */
module Barcodes {
  import opened Wrappers

  type Path = string

  /** The exceptions that leave the decoders. */
  datatype Error =
    | FileNotFound(path: Path)        // FileNotFoundError raised before the file is opened
    | UnreadableDocument(path: Path)  // the PDF or image library cannot open the file
    | NoDecoder(mime: string)         // ValueError raised by the composite dispatcher

  /** One result of the multi-symbology reader; `text` is None when the result carries no text. */
  datatype Detection = Detection(text: Option<string>)

  /** Python truthiness of the result's text: present and non-empty. */
  predicate HasText(d: Detection) {
    d.text.Some? && d.text.value != ""
  }

  /** The texts of the reader's results, dropping those with empty or absent text,
      in the reader's order. */
  function DecodeAll(results: seq<Detection>): (texts: seq<string>)
    ensures |texts| <= |results|
    ensures forall k :: 0 <= k < |texts| ==> texts[k] != ""
  {
    if results == [] then []
    else (if HasText(results[0]) then [results[0].text.value] else []) + DecodeAll(results[1..])
  }

  /** The filter works result by result: it distributes over concatenation, so the
      reader's order is kept. */
  lemma {:induction false} DecodeAllAppend(a: seq<Detection>, b: seq<Detection>)
    ensures DecodeAll(a + b) == DecodeAll(a) + DecodeAll(b)
  {
    if a == [] {
      assert a + b == b;
    } else {
      assert (a + b)[1..] == a[1..] + b;
      DecodeAllAppend(a[1..], b);
    }
  }

  /** Nothing is returned exactly when no result carries a non-empty text. */
  lemma {:induction false} DecodeAllEmpty(results: seq<Detection>)
    ensures DecodeAll(results) == [] <==> forall j :: 0 <= j < |results| ==> !HasText(results[j])
  {
    if results != [] {
      DecodeAllEmpty(results[1..]);
      assert forall j :: 1 <= j < |results| ==> results[j] == results[1..][j - 1];
    }
  }

  /** A string is returned exactly when it is non-empty and the reader reported it. */
  lemma {:induction false} DecodeAllMembership(results: seq<Detection>, s: string)
    ensures s in DecodeAll(results) <==> s != "" && Detection(Some(s)) in results
  {
    if results != [] {
      DecodeAllMembership(results[1..], s);
      assert results == [results[0]] + results[1..];
    }
  }

  /** When every result has text, nothing is dropped: the output is the reader's texts, one for one. */
  lemma {:induction false} DecodeAllKeepsTexts(results: seq<Detection>)
    requires forall j :: 0 <= j < |results| ==> HasText(results[j])
    ensures |DecodeAll(results)| == |results|
    ensures forall j :: 0 <= j < |results| ==> results[j].text == Some(DecodeAll(results)[j])
  {
    if results != [] {
      DecodeAllKeepsTexts(results[1..]);
    }
  }
}
