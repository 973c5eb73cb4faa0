/** The PDF decoder: every page rendered at the primary scale, and again at the
    fallback scale when the page yields nothing and the fallback scale is non-zero. */
module PdfDecoder {
  import opened Wrappers
  import opened Barcodes
  import opened Adaptive

  /** The foreign calls of the PDF path: a file-existence check, pypdfium2's document
      opening (None when the file cannot be parsed as a PDF, otherwise its pages in
      index order), page rendering to an RGB buffer, and zxing-cpp's reader. */
  datatype PdfBackend<!P, !B> = PdfBackend(
    pathExists: Path -> bool,
    open: Path -> Option<seq<P>>,
    render: (P, real) -> B,
    read: B -> seq<Detection>)
  {
    function AsEngine(): Engine<P, B> {
      Engine(render, read)
    }
  }

  /** The PDF decoder's only guard on the second attempt is that the fallback scale is
      non-zero; a fallback equal to the primary scale is still tried. */
  function FallbackPolicy(s: DecodeSettings): (fallback: Option<real>)
    ensures fallback.Some? <==> s.fallbackScale != 0.0
    ensures fallback.Some? ==> fallback.value == s.fallbackScale
  {
    if s.fallbackScale != 0.0 then Some(s.fallbackScale) else None
  }

  /** What `extract_from_pdf` returns or raises. */
  function ExtractSpec<P, B>(be: PdfBackend<P, B>, s: DecodeSettings, pdfPath: Path): Result<seq<string>, Error> {
    if !be.pathExists(pdfPath) then Failure(FileNotFound(pdfPath))
    else match be.open(pdfPath)
      case None => Failure(UnreadableDocument(pdfPath))
      case Some(pages) => Success(DocValues(be.AsEngine(), pages, s.scale, FallbackPolicy(s)))
  }

  /** The render calls `extract_from_pdf` makes: none when it fails before the first page. */
  function RenderSpec<P, B>(be: PdfBackend<P, B>, s: DecodeSettings, pdfPath: Path): seq<RenderCall> {
    if !be.pathExists(pdfPath) then []
    else match be.open(pdfPath)
      case None => []
      case Some(pages) => DocCalls(be.AsEngine(), pages, s.scale, FallbackPolicy(s))
  }

  class PdfBarcodeDecoder {
    const settings: DecodeSettings

    /** `settings or DecodeSettings()`: a dataclass instance is always truthy, so only an
        absent argument selects the defaults. */
    constructor (settings: Option<DecodeSettings>)
      ensures this.settings == settings.GetOr(DefaultDecodeSettings)
    {
      this.settings := settings.GetOr(DefaultDecodeSettings);
    }

    /** Decodes all barcodes of all pages, in page order. `calls` records every page render. */
    method ExtractFromPdf<P, B>(be: PdfBackend<P, B>, pdfPath: Path)
      returns (r: Result<seq<string>, Error>, ghost calls: seq<RenderCall>)
      ensures r == ExtractSpec(be, settings, pdfPath)
      ensures calls == RenderSpec(be, settings, pdfPath)
      ensures !be.pathExists(pdfPath) ==> r == Failure(FileNotFound(pdfPath)) && calls == []
    {
      if !be.pathExists(pdfPath) {
        return Failure(FileNotFound(pdfPath)), [];
      }
      var pdf := be.open(pdfPath);
      if pdf.None? {
        return Failure(UnreadableDocument(pdfPath)), [];
      }
      var pages := pdf.value;
      var s := settings;
      ghost var e := be.AsEngine();
      var decoded: seq<string> := [];
      calls := [];
      var i := 0;
      while i < |pages|
        invariant 0 <= i <= |pages|
        invariant decoded == DocValues(e, pages[..i], s.scale, FallbackPolicy(s))
        invariant calls == DocCalls(e, pages[..i], s.scale, FallbackPolicy(s))
      {
        var page := pages[i];
        var img := be.render(page, s.scale);
        calls := calls + [RenderCall(i, s.scale)];
        var vals := DecodeAll(be.read(img));
        if vals == [] && s.fallbackScale != 0.0 {
          var img2 := be.render(page, s.fallbackScale);
          calls := calls + [RenderCall(i, s.fallbackScale)];
          vals := DecodeAll(be.read(img2));
        }
        ghost var policy := FallbackPolicy(s);
        DocStep(e, pages, i, s.scale, policy);
        assert vals == UnitValues(e, page, s.scale, policy);
        assert calls == DocCalls(e, pages[..i], s.scale, policy) + UnitCalls(e, i, page, s.scale, policy);
        decoded := decoded + vals;
        i := i + 1;
      }
      assert pages[..i] == pages;
      r := Success(decoded);
    }
  }

  /** Every value the decoder returns is non-empty, and a document that opens has at
      least one and at most two renders per page. */
  lemma ExtractBounds<P, B>(be: PdfBackend<P, B>, s: DecodeSettings, pdfPath: Path)
    requires be.pathExists(pdfPath) && be.open(pdfPath).Some?
    ensures ExtractSpec(be, s, pdfPath).Success?
    ensures forall v :: v in ExtractSpec(be, s, pdfPath).value ==> v != ""
    ensures |be.open(pdfPath).value| <= |RenderSpec(be, s, pdfPath)| <= 2 * |be.open(pdfPath).value|
  {
    DocValuesNonEmpty(be.AsEngine(), be.open(pdfPath).value, s.scale, FallbackPolicy(s));
    DocCallsShape(be.AsEngine(), be.open(pdfPath).value, s.scale, FallbackPolicy(s));
  }

  /** A missing file fails with FileNotFound and an unparseable one with UnreadableDocument,
      both before any page is rendered; a document that opens never fails. */
  lemma FailureRendersNothing<P, B>(be: PdfBackend<P, B>, s: DecodeSettings, pdfPath: Path)
    ensures !be.pathExists(pdfPath) ==> ExtractSpec(be, s, pdfPath) == Failure(FileNotFound(pdfPath))
    ensures be.pathExists(pdfPath) && be.open(pdfPath).None? ==> ExtractSpec(be, s, pdfPath) == Failure(UnreadableDocument(pdfPath))
    ensures ExtractSpec(be, s, pdfPath).Failure? <==> !be.pathExists(pdfPath) || be.open(pdfPath).None?
    ensures ExtractSpec(be, s, pdfPath).Failure? ==> RenderSpec(be, s, pdfPath) == []
  {
  }

  /** With a fallback scale equal to the primary scale, an empty page is still rendered twice,
      both times at the same scale. */
  lemma FallbackEvenWhenEqual<P, B>(be: PdfBackend<P, B>, s: DecodeSettings, pdfPath: Path, i: nat)
    requires s.fallbackScale == s.scale != 0.0
    requires be.pathExists(pdfPath) && be.open(pdfPath).Some? && i < |be.open(pdfPath).value|
    requires Decode(be.AsEngine(), be.open(pdfPath).value[i], s.scale) == []
    ensures CallsFor(RenderSpec(be, s, pdfPath), i) == [RenderCall(i, s.scale), RenderCall(i, s.scale)]
  {
    FallbackReplaces(be.AsEngine(), be.open(pdfPath).value, s.scale, s.fallbackScale, i);
  }
}
