/** The composite decoder: an ordered list of child decoders; a file goes to the first
    child, in list order, that accepts its MIME type. */
module CompositeDecoders {
  import opened Wrappers
  import opened Barcodes
  import opened DecoderBase

  /** Python's `any(d.can_handle(mime) for d in decoders)`, evaluated left to right. */
  function AnyHandles(ds: seq<Decoder>, mime: string): (r: bool)
    ensures r <==> exists i :: 0 <= i < |ds| && ds[i].canHandle(mime)
  {
    if ds == [] then false else ds[0].canHandle(mime) || AnyHandles(ds[1..], mime)
  }

  /** The index of the first decoder that accepts `mime`, if any. */
  function FirstHandler(ds: seq<Decoder>, mime: string): (i: Option<nat>)
    ensures i.Some? ==> i.value < |ds| && ds[i.value].canHandle(mime)
    ensures i.Some? ==> forall j :: 0 <= j < i.value ==> !ds[j].canHandle(mime)
    ensures i.None? ==> forall j :: 0 <= j < |ds| ==> !ds[j].canHandle(mime)
  {
    if ds == [] then None
    else if ds[0].canHandle(mime) then Some(0)
    else match FirstHandler(ds[1..], mime)
      case None => None
      case Some(k) => Some(k + 1)
  }

  class CompositeDecoder {
    /** The children, in priority order. A Dafny sequence is a value, so the caller cannot
        change it after construction (the source copies it with `list(...)`). */
    const decoders: seq<Decoder>

    constructor (decoders: seq<Decoder>)
      ensures this.decoders == decoders
    {
      this.decoders := decoders;
    }

    predicate CanHandle(mime: string)
      ensures CanHandle(mime) <==> exists i :: 0 <= i < |decoders| && decoders[i].canHandle(mime)
    {
      AnyHandles(decoders, mime)
    }

    /** Delegates to the first child that accepts `mime`, returning its result unchanged, and
        raises NoDecoder when none does. `asked` counts the `can_handle` calls made and
        `chosen` is the child whose `extract_from_file` is called, if any. */
    method ExtractFromFile(path: Path, mime: string)
      returns (r: Result<seq<string>, Error>, ghost asked: nat, ghost chosen: Option<nat>)
      ensures !CanHandle(mime) ==> r == Failure(NoDecoder(mime))
      ensures FirstHandler(decoders, mime).Some? ==>
        r == decoders[FirstHandler(decoders, mime).value].extractFromFile(path)
      ensures chosen == FirstHandler(decoders, mime)
      ensures chosen.None? <==> !CanHandle(mime)
      ensures chosen.Some? ==> asked == chosen.value + 1 && r == decoders[chosen.value].extractFromFile(path)
      ensures chosen.None? ==> asked == |decoders| && r == Failure(NoDecoder(mime))
    {
      var ds := decoders;
      var i := 0;
      while i < |ds|
        invariant 0 <= i <= |ds|
        invariant forall j :: 0 <= j < i ==> !ds[j].canHandle(mime)
      {
        var d := ds[i];
        if d.canHandle(mime) {
          return d.extractFromFile(path), i + 1, Some(i);
        }
        i := i + 1;
      }
      return Failure(NoDecoder(mime)), |ds|, None;
    }
  }

  /** No child is chosen exactly when no child accepts the MIME type, so the dispatcher
      raises NoDecoder exactly when `can_handle` is false. */
  lemma NoDecoderIffUnhandled(ds: seq<Decoder>, mime: string)
    ensures FirstHandler(ds, mime).None? <==> !AnyHandles(ds, mime)
  {
  }
}
