/** The `BarcodeDecoder` protocol every child of the composite dispatcher follows. */
module DecoderBase {
  import opened Wrappers
  import opened Barcodes

  /** A decoder as the dispatcher sees it: whether it accepts a MIME type, and what
      extracting from a file returns or raises. */
  datatype Decoder = Decoder(
    canHandle: string -> bool,
    extractFromFile: Path -> Result<seq<string>, Error>)
}
