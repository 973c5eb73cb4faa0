/** The single-frame image decoder: PNG and JPEG only; the orientation-corrected image
    is decoded at the primary scale and, when that yields nothing, once more at the
    fallback scale provided that scale is non-zero and differs from the primary one. */
module ImageDecoder {
  import opened Wrappers
  import opened Barcodes
  import opened Adaptive
  import opened DecoderBase

  /** A Pillow image: its size in pixels and its (uninterpreted) pixel content. */
  datatype Image<I> = Image(width: nat, height: nat, pixels: I)

  /** The foreign calls of the image path. `open` is Pillow's open-and-load (None when the
      file is not a readable image); `resample` is a bicubic resize of the pixels to a new
      size; `toRgb` converts to an RGB array; `read` is zxing-cpp's reader. */
  datatype ImageBackend<!I, !B> = ImageBackend(
    pathExists: Path -> bool,
    open: Path -> Option<Image<I>>,
    exifTranspose: Image<I> -> Image<I>,
    resample: (I, nat, nat) -> I,
    toRgb: Image<I> -> B,
    read: B -> seq<Detection>)
  {
    /** One decode pass resizes the image by the factor, converts it and reads it. */
    function AsEngine(): Engine<Image<I>, B> {
      Engine((im: Image<I>, factor: real) => toRgb(Resize(im, factor, resample)), read)
    }
  }

  /** The MIME types the decoder accepts (`SUPPORTED`). */
  const Supported: set<string> := {"image/png", "image/jpeg"}

  /** Python's `round` on a number: the nearest integer, ties to the even one. */
  function RoundHalfEven(x: real): (n: int)
    ensures -0.5 <= x - n as real <= 0.5
    ensures (x - n as real == 0.5 || n as real - x == 0.5) ==> n % 2 == 0
  {
    var f := x.Floor;
    var d := x - f as real;
    if d < 0.5 then f
    else if d > 0.5 then f + 1
    else if f % 2 == 0 then f else f + 1
  }

  function AtLeastOne(n: int): (m: nat)
    ensures m >= 1 && m >= n
    ensures n >= 1 ==> m == n
  {
    if n < 1 then 1 else n
  }

  /** `side` is the nearest integer to `len * factor` when that product is at least one half,
      and 1 otherwise. */
  predicate ScaledSide(len: nat, factor: real, side: nat) {
    var exact := len as real * factor;
    if exact < 0.5 then side == 1 else -0.5 <= side as real - exact <= 0.5
  }

  /** Resizes by a scale factor; factor 1.0 returns the image itself, any other factor
      gives each side the rounded scaled length, but never less than one pixel. */
  function Resize<I>(img: Image<I>, factor: real, resample: (I, nat, nat) -> I): (r: Image<I>)
    ensures factor == 1.0 ==> r == img
    ensures factor != 1.0 ==> r.width >= 1 && r.height >= 1
    ensures factor != 1.0 ==> ScaledSide(img.width, factor, r.width) && ScaledSide(img.height, factor, r.height)
    ensures factor != 1.0 ==> r.pixels == resample(img.pixels, r.width, r.height)
  {
    if factor == 1.0 then img
    else
      var nw := AtLeastOne(RoundHalfEven(img.width as real * factor));
      var nh := AtLeastOne(RoundHalfEven(img.height as real * factor));
      Image(nw, nh, resample(img.pixels, nw, nh))
  }

  /** The image decoder's guard on the second attempt: a non-zero fallback scale that
      differs from the primary scale. */
  function FallbackPolicy(s: DecodeSettings): (fallback: Option<real>)
    ensures fallback.Some? <==> s.fallbackScale != 0.0 && s.fallbackScale != s.scale
    ensures fallback.Some? ==> fallback.value == s.fallbackScale
  {
    if s.fallbackScale != 0.0 && s.fallbackScale != s.scale then Some(s.fallbackScale) else None
  }

  /** What `extract_from_file` returns or raises. */
  function ExtractSpec<I, B>(be: ImageBackend<I, B>, s: DecodeSettings, imgPath: Path): Result<seq<string>, Error> {
    if !be.pathExists(imgPath) then Failure(FileNotFound(imgPath))
    else match be.open(imgPath)
      case None => Failure(UnreadableDocument(imgPath))
      case Some(im) => Success(UnitValues(be.AsEngine(), be.exifTranspose(im), s.scale, FallbackPolicy(s)))
  }

  /** The decode passes `extract_from_file` makes (the image is unit 0). */
  function PassSpec<I, B>(be: ImageBackend<I, B>, s: DecodeSettings, imgPath: Path): seq<RenderCall> {
    if !be.pathExists(imgPath) then []
    else match be.open(imgPath)
      case None => []
      case Some(im) => UnitCalls(be.AsEngine(), 0, be.exifTranspose(im), s.scale, FallbackPolicy(s))
  }

  /** The image decoder seen through the `BarcodeDecoder` protocol. */
  function AsDecoder<I, B>(be: ImageBackend<I, B>, s: DecodeSettings): (d: Decoder)
    ensures forall mime :: d.canHandle(mime) <==> mime == "image/png" || mime == "image/jpeg"
    ensures forall p :: d.extractFromFile(p) == ExtractSpec(be, s, p)
  {
    Decoder((mime: string) => mime in Supported, (p: Path) => ExtractSpec(be, s, p))
  }

  class ImageBarcodeDecoder {
    const settings: DecodeSettings

    /** `settings or DecodeSettings()`. */
    constructor (settings: Option<DecodeSettings>)
      ensures this.settings == settings.GetOr(DefaultDecodeSettings)
    {
      this.settings := settings.GetOr(DefaultDecodeSettings);
    }

    predicate CanHandle(mime: string)
      ensures CanHandle(mime) <==> mime == "image/png" || mime == "image/jpeg"
    {
      mime in Supported
    }

    /** Decodes all barcodes of a single-frame image. `passes` records every decode pass. */
    method ExtractFromFile<I, B>(be: ImageBackend<I, B>, imgPath: Path)
      returns (r: Result<seq<string>, Error>, ghost passes: seq<RenderCall>)
      ensures r == ExtractSpec(be, settings, imgPath)
      ensures passes == PassSpec(be, settings, imgPath)
      ensures |passes| <= 2
    {
      if !be.pathExists(imgPath) {
        return Failure(FileNotFound(imgPath)), [];
      }
      var loaded := be.open(imgPath);
      if loaded.None? {
        return Failure(UnreadableDocument(imgPath)), [];
      }
      var s := settings;
      var im := be.exifTranspose(loaded.value);
      ghost var e := be.AsEngine();

      var primary := Resize(im, s.scale, be.resample);
      var vals := DecodeAll(be.read(be.toRgb(primary)));
      passes := [RenderCall(0, s.scale)];
      assert vals == Decode(e, im, s.scale);
      if vals != [] {
        return Success(vals), passes;
      }

      if s.fallbackScale != 0.0 && s.fallbackScale != s.scale {
        var fb := Resize(im, s.fallbackScale, be.resample);
        vals := DecodeAll(be.read(be.toRgb(fb)));
        passes := passes + [RenderCall(0, s.fallbackScale)];
        assert vals == Decode(e, im, s.fallbackScale);
      }
      return Success(vals), passes;
    }
  }

  /** A missing file fails before any decode pass; an unreadable one likewise. */
  lemma FailureDecodesNothing<I, B>(be: ImageBackend<I, B>, s: DecodeSettings, imgPath: Path)
    ensures !be.pathExists(imgPath) ==> ExtractSpec(be, s, imgPath) == Failure(FileNotFound(imgPath))
    ensures ExtractSpec(be, s, imgPath).Failure? <==> PassSpec(be, s, imgPath) == []
  {
  }

  /** A non-empty primary decode is the result, after a single pass. */
  lemma PrimaryHitReturnsAtOnce<I, B>(be: ImageBackend<I, B>, s: DecodeSettings, imgPath: Path)
    requires be.pathExists(imgPath) && be.open(imgPath).Some?
    requires Decode(be.AsEngine(), be.exifTranspose(be.open(imgPath).value), s.scale) != []
    ensures PassSpec(be, s, imgPath) == [RenderCall(0, s.scale)]
    ensures ExtractSpec(be, s, imgPath) == Success(Decode(be.AsEngine(), be.exifTranspose(be.open(imgPath).value), s.scale))
  {
  }

  /** An empty primary decode is retried at the fallback scale exactly when that scale is
      non-zero and differs from the primary one; otherwise the empty result is returned. */
  lemma FallbackOnlyWhenDifferent<I, B>(be: ImageBackend<I, B>, s: DecodeSettings, imgPath: Path)
    requires be.pathExists(imgPath) && be.open(imgPath).Some?
    requires Decode(be.AsEngine(), be.exifTranspose(be.open(imgPath).value), s.scale) == []
    ensures s.fallbackScale != 0.0 && s.fallbackScale != s.scale ==>
      PassSpec(be, s, imgPath) == [RenderCall(0, s.scale), RenderCall(0, s.fallbackScale)] &&
      ExtractSpec(be, s, imgPath) == Success(Decode(be.AsEngine(), be.exifTranspose(be.open(imgPath).value), s.fallbackScale))
    ensures s.fallbackScale == 0.0 || s.fallbackScale == s.scale ==>
      PassSpec(be, s, imgPath) == [RenderCall(0, s.scale)] && ExtractSpec(be, s, imgPath) == Success([])
  {
  }
}
