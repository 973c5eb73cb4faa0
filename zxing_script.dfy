/** The original command-line script: the per-page loop of the PDF decoder, but with no
    existence check, the fallback scale fixed at 5.0 and no guard on it, and the values
    printed one per line. */
module ZxingScript {
  import opened Wrappers
  import opened Barcodes
  import opened Adaptive
  import opened PdfDecoder

  /** The scale of the second attempt on an empty page, whatever the primary scale. */
  const FallbackScale: real := 5.0

  /** The line printed when nothing was decoded. */
  const NoBarcodesWarning: string := "[warn] No barcodes detected (try --scale 5.0)."

  /** What the script's `extract_from_pdf` returns or raises: every page's values in page
      order, each empty page retried at 5.0. */
  function ExtractSpec<P, B>(be: PdfBackend<P, B>, pdfPath: Path, scale: real): Result<seq<string>, Error> {
    match be.open(pdfPath)
    case None => Failure(UnreadableDocument(pdfPath))
    case Some(pages) => Success(DocValues(be.AsEngine(), pages, scale, Some(FallbackScale)))
  }

  /** The render calls the script's `extract_from_pdf` makes. */
  function RenderSpec<P, B>(be: PdfBackend<P, B>, pdfPath: Path, scale: real): seq<RenderCall> {
    match be.open(pdfPath)
    case None => []
    case Some(pages) => DocCalls(be.AsEngine(), pages, scale, Some(FallbackScale))
  }

  method ExtractFromPdf<P, B>(be: PdfBackend<P, B>, pdfPath: Path, scale: real)
    returns (r: Result<seq<string>, Error>, ghost calls: seq<RenderCall>)
    ensures r == ExtractSpec(be, pdfPath, scale)
    ensures calls == RenderSpec(be, pdfPath, scale)
  {
    var pdf := be.open(pdfPath);
    if pdf.None? {
      return Failure(UnreadableDocument(pdfPath)), [];
    }
    var pages := pdf.value;
    ghost var e := be.AsEngine();
    ghost var policy := Some(FallbackScale);
    var decoded: seq<string> := [];
    calls := [];
    var i := 0;
    while i < |pages|
      invariant 0 <= i <= |pages|
      invariant decoded == DocValues(e, pages[..i], scale, policy)
      invariant calls == DocCalls(e, pages[..i], scale, policy)
    {
      var page := pages[i];
      var img := be.render(page, scale);
      calls := calls + [RenderCall(i, scale)];
      var vals := DecodeAll(be.read(img));
      assert vals == Decode(e, page, scale);
      if vals == [] {
        var img2 := be.render(page, FallbackScale);
        calls := calls + [RenderCall(i, FallbackScale)];
        vals := DecodeAll(be.read(img2));
        assert vals == Decode(e, page, FallbackScale);
      }
      DocStep(e, pages, i, scale, policy);
      assert vals == UnitValues(e, page, scale, policy);
      assert calls == DocCalls(e, pages[..i], scale, policy) + UnitCalls(e, i, page, scale, policy);
      decoded := decoded + vals;
      i := i + 1;
    }
    assert pages[..i] == pages;
    r := Success(decoded);
  }

  /** The lines `main` prints for the extracted values: the warning alone when there are
      none, otherwise one line per value, in order. */
  method OutputLines(vals: seq<string>) returns (lines: seq<string>)
    ensures vals == [] ==> lines == [NoBarcodesWarning]
    ensures vals != [] ==> |lines| == |vals| && forall k :: 0 <= k < |vals| ==> lines[k] == vals[k]
  {
    if vals == [] {
      return [NoBarcodesWarning];
    }
    lines := [];
    for k := 0 to |vals|
      invariant lines == vals[..k]
    {
      lines := lines + [vals[k]];
    }
  }

  /** `main`: extract with the given scale, then print; an exception ends the script. The
      printed lines are the extracted values in order, or the warning alone when there are none. */
  method Run<P, B>(be: PdfBackend<P, B>, pdfPath: Path, scale: real) returns (out: Result<seq<string>, Error>)
    ensures ExtractSpec(be, pdfPath, scale).Failure? ==> out == Failure(ExtractSpec(be, pdfPath, scale).error)
    ensures ExtractSpec(be, pdfPath, scale).Success? ==> out.Success? && |out.value| >= 1
    ensures ExtractSpec(be, pdfPath, scale).Success? && ExtractSpec(be, pdfPath, scale).value != [] ==>
      out == ExtractSpec(be, pdfPath, scale)
    ensures ExtractSpec(be, pdfPath, scale) == Success([]) ==> out == Success([NoBarcodesWarning])
  {
    var r, _ := ExtractFromPdf(be, pdfPath, scale);
    if r.Failure? {
      return Failure(r.error);
    }
    var lines := OutputLines(r.value);
    assert r.value != [] ==> lines == r.value;
    return Success(lines);
  }

  /** An empty primary page is always rendered again at 5.0, whatever the primary scale,
      even when that is 5.0 itself; its values are the 5.0 decode. */
  lemma EmptyPageAlwaysFallsBack<P, B>(be: PdfBackend<P, B>, pdfPath: Path, scale: real, i: nat)
    requires be.open(pdfPath).Some? && i < |be.open(pdfPath).value|
    requires Decode(be.AsEngine(), be.open(pdfPath).value[i], scale) == []
    ensures CallsFor(RenderSpec(be, pdfPath, scale), i) == [RenderCall(i, scale), RenderCall(i, 5.0)]
    ensures UnitValues(be.AsEngine(), be.open(pdfPath).value[i], scale, Some(FallbackScale))
         == Decode(be.AsEngine(), be.open(pdfPath).value[i], 5.0)
  {
    FallbackReplaces(be.AsEngine(), be.open(pdfPath).value, scale, FallbackScale, i);
  }

  /** A page found at the primary scale is rendered once; no page is rendered more than twice. */
  lemma PrimaryHitRendersOnce<P, B>(be: PdfBackend<P, B>, pdfPath: Path, scale: real, i: nat)
    requires be.open(pdfPath).Some? && i < |be.open(pdfPath).value|
    ensures Decode(be.AsEngine(), be.open(pdfPath).value[i], scale) != [] ==>
      CallsFor(RenderSpec(be, pdfPath, scale), i) == [RenderCall(i, scale)]
    ensures |CallsFor(RenderSpec(be, pdfPath, scale), i)| <= 2
    ensures |RenderSpec(be, pdfPath, scale)| <= 2 * |be.open(pdfPath).value|
  {
    DocCallsForPage(be.AsEngine(), be.open(pdfPath).value, scale, Some(FallbackScale), i);
    DocCallsShape(be.AsEngine(), be.open(pdfPath).value, scale, Some(FallbackScale));
  }
}
