# qrparser core, modelled in Dafny

qrparser extracts barcode texts (QR, DataMatrix and the other zxing-cpp symbologies)
from PDF documents and raster images. This project models its core and proves
properties of the model:

- **The adaptive render-and-decode strategy** (`adaptive.dfy`). Each unit of input (a PDF
  page or an image) is decoded at the primary scale. Only when that decode is empty, and
  the caller's policy allows it, is the unit rendered again at the fallback scale. The
  fallback decode then replaces the empty primary result. A document's values are its
  pages' values in page order. Ghost traces of `RenderCall`s record every render, so the
  number and order of renders can be stated.
- **The PDF decoder** (`pdf_decoder.dfy`). It checks the path, opens the document and loops
  over the pages. Its only guard on the second attempt is a non-zero fallback scale.
- **The image decoder** (`image_decoder.dfy`). It accepts PNG and JPEG only and resizes the
  image by a factor, never below one pixel per side. It returns the primary decode early,
  and retries only with a non-zero fallback scale that differs from the primary one.
- **The composite dispatcher** (`composite_decoder.dfy`), over children that follow the
  `BarcodeDecoder` protocol (`decoder_base.dfy`). The first child, in list order, that
  accepts the MIME type does the work.
- **The original script** (`zxing_script.dfy`). It has the same page loop, with the fallback
  fixed at 5.0 and no guard, and prints one line per value or a warning.
- **The project-tree printer** (`print_tree.dfy`, with the string operations it needs in
  `text.dfy`). It covers exclusion, the directory walk and its ordering, the drawing of
  the lines with their `parents_last` stack, and the parsing of `--exclude`.
- **The settings** (`settings.dfy`). It covers every field with its default, the range
  constraints as a validity predicate, and the combined MIME list.

The foreign libraries never run in the model. pypdfium2, Pillow and zxing-cpp appear
as function-valued fields of backend records (`PdfBackend`, `ImageBackend`), and so does
the file-existence check. Their page, pixel and buffer types are type parameters. What
is verified is the control policy around them.

The two decoders guard the second attempt differently. The image decoder skips it when
the fallback scale equals the primary one (`src/qrparser/core/image_decoder.py:80`). The
PDF decoder's only guard is a non-zero fallback scale
(`src/qrparser/core/pdf_decoder.py:56`), so a page whose fallback equals its primary scale
is rendered twice at that scale: `PdfDecoder.FallbackPolicy`,
`PdfDecoder.FallbackEvenWhenEqual`.

## Model

| member | source | states |
|---|---|---|
| Barcodes.DecodeAll | src/qrparser/core/pdf_decoder.py:36-40 | every kept text is non-empty and there are no more texts than reader results |
| Barcodes.HasText | src/qrparser/core/pdf_decoder.py:40 | a reader result is kept exactly when its text is present and non-empty, Python's truthiness of `r.text` |
| Barcodes.DecodeAllAppend | src/qrparser/core/pdf_decoder.py:40 | the filter works result by result: it distributes over concatenation, so the reader's order is kept |
| Barcodes.DecodeAllEmpty | src/qrparser/core/image_decoder.py:54-58 | the output is empty exactly when no result carries a non-empty text |
| Barcodes.DecodeAllMembership | qr_extract_zxing.py:17-21 | a string is returned exactly when it is non-empty and the reader reported it |
| Barcodes.DecodeAllKeepsTexts | src/qrparser/core/pdf_decoder.py:36-40 | when every result has text, the output is the reader's texts one for one, in order |
| Adaptive.UnitPolicy | src/qrparser/core/pdf_decoder.py:53-58 | a unit gets a primary render first and a second render exactly when the primary decode is empty and a fallback is allowed; the kept values are the decode of the last render, so a fallback replaces rather than adds |
| Adaptive.UnitValues | src/qrparser/core/pdf_decoder.py:53-58 | defines one unit's values: the primary decode, replaced by the fallback decode when the primary one is empty and a fallback is allowed (properties: `Adaptive.UnitPolicy`) |
| Adaptive.UnitCalls | src/qrparser/core/pdf_decoder.py:53-58 | defines one unit's renders: the primary render, then a fallback render under the same condition (properties: `Adaptive.UnitPolicy`, `Adaptive.DocCallsForPage`) |
| Adaptive.DocValues | src/qrparser/core/pdf_decoder.py:49-62 | defines a document's values as its units' values concatenated in order (properties: `Adaptive.DocValuesAppend`, `Adaptive.DocValuesNonEmpty`, `Adaptive.DocValuesEmpty`) |
| Adaptive.DocCalls | src/qrparser/core/pdf_decoder.py:49-62 | defines a document's render trace as its units' renders, each tagged with its page index, in order (properties: `Adaptive.DocCallsShape`, `Adaptive.DocCallsForPage`) |
| Adaptive.DocStep | src/qrparser/core/pdf_decoder.py:51-60 | processing one more page extends the document's values and render trace by that page's own |
| Adaptive.DocCallsShape | src/qrparser/core/pdf_decoder.py:51-58 | a document's renders number between one and two per page, name only existing pages, and come in ascending page order |
| Adaptive.DocCallsForPage | src/qrparser/core/pdf_decoder.py:51-58 | the retry is per page: the renders of page i are exactly those its own primary decode calls for |
| Adaptive.PrimaryHitRendersOnce | src/qrparser/core/pdf_decoder.py:53-56 | a page whose primary decode is non-empty is rendered once, at the primary scale, and keeps its primary values |
| Adaptive.FallbackReplaces | src/qrparser/core/pdf_decoder.py:56-58 | an empty primary page with a fallback allowed is rendered at both scales, and its values are the fallback decode alone |
| Adaptive.NoFallbackWhenDisallowed | src/qrparser/core/pdf_decoder.py:56 | without a fallback every page is rendered once and an empty page contributes nothing |
| Adaptive.DocValuesAppend | src/qrparser/core/pdf_decoder.py:49-62 | the document's values are the concatenation of its parts' values in page order; no pages give no values |
| Adaptive.DocValuesNonEmpty | src/qrparser/core/pdf_decoder.py:54-60 | every value of a document is a non-empty string |
| Adaptive.DocValuesEmpty | src/qrparser/core/pdf_decoder.py:49-62 | pages that all decode to nothing at every allowed scale give an empty result, not an error |
| PdfDecoder.FallbackPolicy | src/qrparser/core/pdf_decoder.py:56 | the PDF decoder retries exactly when the fallback scale is non-zero, and at that scale |
| PdfDecoder.ExtractSpec | src/qrparser/core/pdf_decoder.py:42-62 | defines the result: FileNotFound for a missing path, UnreadableDocument when the document does not open, otherwise the document's values under `FallbackPolicy` (properties: `PdfDecoder.ExtractBounds`, `PdfDecoder.FailureRendersNothing`) |
| PdfDecoder.RenderSpec | src/qrparser/core/pdf_decoder.py:42-62 | defines the renders: none on either failure, otherwise the document's render trace (properties: `PdfDecoder.ExtractBounds`, `PdfDecoder.FallbackEvenWhenEqual`) |
| PdfDecoder.PdfBarcodeDecoder.constructor | src/qrparser/core/pdf_decoder.py:27-28 | the settings are the given ones, or the defaults 3.5 and 5.0 when none are given |
| PdfDecoder.PdfBarcodeDecoder.ExtractFromPdf | src/qrparser/core/pdf_decoder.py:42-62 | the loop returns the document's values and makes exactly the document's render calls; a missing path fails with FileNotFound before any render |
| PdfDecoder.ExtractBounds | src/qrparser/core/pdf_decoder.py:49-62 | a document that opens never fails, every value is non-empty, and there are between one and two renders per page |
| PdfDecoder.FailureRendersNothing | src/qrparser/core/pdf_decoder.py:44-48 | a missing path fails with FileNotFound and an unparseable file with UnreadableDocument, exactly these fail, and a failure renders nothing |
| PdfDecoder.FallbackEvenWhenEqual | src/qrparser/core/pdf_decoder.py:56 | with the fallback scale equal to the primary scale, an empty page is still rendered twice at that scale |
| ImageDecoder.RoundHalfEven | src/qrparser/core/image_decoder.py:51 | Python's `round`: the nearest integer, with ties going to the even one |
| ImageDecoder.Resize | src/qrparser/core/image_decoder.py:46-52 | factor 1.0 returns the image itself; any other factor gives each side the rounded scaled length, at least 1, and resamples the pixels to that size |
| ImageDecoder.FallbackPolicy | src/qrparser/core/image_decoder.py:80 | the image decoder retries exactly when the fallback scale is non-zero and differs from the primary scale |
| ImageDecoder.ExtractSpec | src/qrparser/core/image_decoder.py:60-84 | defines the result: FileNotFound for a missing path, UnreadableDocument for an image that does not open, otherwise the primary decode or, when it is empty and the policy allows, the fallback decode (properties: `ImageDecoder.FailureDecodesNothing`, `ImageDecoder.PrimaryHitReturnsAtOnce`, `ImageDecoder.FallbackOnlyWhenDifferent`) |
| ImageDecoder.PassSpec | src/qrparser/core/image_decoder.py:60-84 | defines the decode passes: none on failure, the primary pass, and the fallback pass under the same condition (same lemmas) |
| ImageDecoder.AsDecoder | src/qrparser/core/image_decoder.py:37-38 | seen through the decoder protocol, the image decoder accepts exactly PNG and JPEG, and its extraction is the image extraction |
| ImageDecoder.ImageBarcodeDecoder.constructor | src/qrparser/core/image_decoder.py:34-35 | the settings are the given ones, or the defaults when none are given |
| ImageDecoder.ImageBarcodeDecoder.CanHandle | src/qrparser/core/image_decoder.py:27-38 | true exactly for "image/png" and "image/jpeg" |
| ImageDecoder.ImageBarcodeDecoder.ExtractFromFile | src/qrparser/core/image_decoder.py:60-84 | the method returns the image's adaptive decode or the right error, and makes at most two decode passes |
| ImageDecoder.FailureDecodesNothing | src/qrparser/core/image_decoder.py:64-68 | a missing file fails with FileNotFound, and a call fails exactly when it makes no decode pass |
| ImageDecoder.PrimaryHitReturnsAtOnce | src/qrparser/core/image_decoder.py:73-77 | a non-empty primary decode is returned after a single pass |
| ImageDecoder.FallbackOnlyWhenDifferent | src/qrparser/core/image_decoder.py:79-84 | an empty primary decode is retried once at the fallback scale when that scale is non-zero and different; otherwise the empty result is returned after one pass |
| CompositeDecoders.AnyHandles | src/qrparser/core/composite_decoder.py:10-11 | true exactly when some child accepts the MIME type |
| CompositeDecoders.FirstHandler | src/qrparser/core/composite_decoder.py:13-16 | the chosen index accepts the MIME type and no earlier child does; none is chosen only when no child accepts it |
| CompositeDecoders.CompositeDecoder.constructor | src/qrparser/core/composite_decoder.py:7-8 | the children are the given sequence, as an immutable value |
| CompositeDecoders.CompositeDecoder.CanHandle | src/qrparser/core/composite_decoder.py:10-11 | true exactly when some child accepts the MIME type |
| CompositeDecoders.CompositeDecoder.ExtractFromFile | src/qrparser/core/composite_decoder.py:13-17 | the method delegates to the first accepting child and returns its result unchanged, consulting no later child; with no accepting child it fails with NoDecoder after asking every child |
| CompositeDecoders.NoDecoderIffUnhandled | src/qrparser/core/composite_decoder.py:10-17 | no child is chosen exactly when the composite cannot handle the MIME type |
| ZxingScript.ExtractFromPdf | qr_extract_zxing.py:23-35 | the loop returns every page's values in page order, with each empty page retried at 5.0, and makes exactly those renders |
| ZxingScript.ExtractSpec | qr_extract_zxing.py:23-35 | defines the script's result: UnreadableDocument when the document does not open, otherwise the document's values with an unconditional 5.0 fallback (properties: `ZxingScript.EmptyPageAlwaysFallsBack`) |
| ZxingScript.RenderSpec | qr_extract_zxing.py:23-35 | defines the script's renders: none when the document does not open, otherwise the document's render trace with the 5.0 fallback (properties: `ZxingScript.PrimaryHitRendersOnce`) |
| ZxingScript.OutputLines | qr_extract_zxing.py:43-47 | no values print the warning line alone; otherwise one line per value, in order |
| ZxingScript.Run | qr_extract_zxing.py:37-47 | an extraction error ends the script; otherwise the printed lines are the extracted values in order, or the warning alone when nothing was found |
| ZxingScript.EmptyPageAlwaysFallsBack | qr_extract_zxing.py:31-33 | an empty primary page is always rendered again at 5.0, whatever the primary scale, and keeps the 5.0 decode |
| ZxingScript.PrimaryHitRendersOnce | qr_extract_zxing.py:27-33 | a page found at the primary scale is rendered once; no page is rendered more than twice, and the document at most twice per page |
| Text.Strip | scripts/print_tree.py:98 | defines `str.strip()` as trimming Python whitespace at both ends (properties: `Text.StripShape`, `Text.StripFixed`, `Text.StripIdempotent`) |
| Text.Split | scripts/print_tree.py:98 | `str.split(sep)`: at least one piece, and no piece holds the separator |
| Text.Join | scripts/print_tree.py:82 | defines `sep.join(parts)`: the parts with the separator between neighbours (partner: `Text.SplitJoin`) |
| Text.Lower | scripts/print_tree.py:32 | defines `str.lower()` character by character, restricted to ASCII letters |
| Text.StrLe | scripts/print_tree.py:32 | defines Python's string order: code point by code point, a prefix first (properties: `Text.StrLeTotal`, `Text.StrLeTrans`) |
| Text.StripIdempotent | scripts/print_tree.py:98 | stripping a stripped string changes nothing |
| Text.SplitJoin | scripts/print_tree.py:98 | splitting a comma join of comma-free names gives the names back |
| Text.StrLeTotal | scripts/print_tree.py:30-33 | any two names are ordered one way or the other |
| Text.StrLeTrans | scripts/print_tree.py:30-33 | the name order is transitive |
| PrintTree.ShouldSkip | scripts/print_tree.py:17-22 | true exactly when some component of the path is an excluded name |
| PrintTree.KeyLe | scripts/print_tree.py:32 | defines the sort key order: non-files before files, then by lower-cased name (properties: `PrintTree.KeyLeTotal`, `PrintTree.KeyLeTrans`) |
| PrintTree.SortEntries | scripts/print_tree.py:30-33 | the result is a permutation of the entries, sorted with directories (and other non-files) before files, then by lower-cased name |
| PrintTree.Visible | scripts/print_tree.py:30-31 | an entry is kept exactly when it is a child whose path has no excluded component |
| PrintTree.Entries | scripts/print_tree.py:29-33 | every listed entry is a child of the directory and not excluded |
| PrintTree.WalkShape | scripts/print_tree.py:26-42 | a directory's walk starts at its own depth, stays within the depth limit, goes depth first, and never lists an excluded path |
| PrintTree.Walkable | scripts/print_tree.py:26-28 | `walk` is entered on a directory, or at a depth past the limit, where it returns before listing anything |
| PrintTree.IterTree | scripts/print_tree.py:24-45 | defines `iter_tree`: the root item at depth 0, marked last, then the walk of the root from depth 1 |
| PrintTree.Walk | scripts/print_tree.py:26-42 | defines `walk`: nothing past the depth limit or for an unreadable directory, otherwise the sorted kept entries with their subtrees (properties: `PrintTree.WalkShape`, `PrintTree.WalkSiblings`) |
| PrintTree.Emit | scripts/print_tree.py:37-42 | defines the entry loop of `walk`: each entry with its depth and last flag, followed by its own walk when it is a directory |
| PrintTree.IterTreeShape | scripts/print_tree.py:24-45 | the first item is the root at depth 0, marked last; every later item lies between depth 1 and the limit and is not excluded; depth rises by at most one per item |
| PrintTree.WalkSiblings | scripts/print_tree.py:30-40 | the items a directory yields at its own depth are its kept entries in key order, under its path, and only the final one is marked last; none below the depth limit or for an unreadable directory |
| PrintTree.LineFor | scripts/print_tree.py:54-66 | defines one drawn line: the root's name alone, otherwise the ancestor chunks, a corner or tee, two bars, a space and the name with `/` for a directory |
| PrintTree.AncestorChunks | scripts/print_tree.py:59-61 | defines the ancestor chunks: level j is blank under an ancestor that was a last sibling and a bar otherwise (equal to the stack's chunks: `PrintTree.ChunksFromStack`) |
| PrintTree.PrefixChunks | scripts/print_tree.py:59-61 | one chunk per recorded ancestor flag, blank for a last ancestor and a bar otherwise |
| PrintTree.DrawTree | scripts/print_tree.py:47-75 | the text is the lines of the walk joined by newlines |
| PrintTree.DrawItems | scripts/print_tree.py:50-75 | line k is the root name for the root; otherwise it is one chunk per ancestor level, then the branch, two bars, a space and the name (with `/` for a directory); the chunk for level j is blank exactly when the latest item at depth j+1 was a last sibling |
| PrintTree.ParsedNamesClean | scripts/print_tree.py:98 | every parsed exclude name is non-empty, comma-free and already stripped |
| PrintTree.ParseExcludes | scripts/print_tree.py:98 | defines the `--exclude` parse: the stripped comma-separated pieces, empty ones dropped (properties: `PrintTree.ParsedNamesClean`, `PrintTree.ParseJoined`) |
| PrintTree.ParseJoined | scripts/print_tree.py:98 | clean names joined by commas parse back to exactly the set of those names |
| PrintTree.DefaultListSorted | scripts/print_tree.py:82 | the default exclude list is in ascending code-point order with no repeats, the order `sorted` gives |
| PrintTree.DefaultArgument | scripts/print_tree.py:82 | the default `--exclude` argument parses back to exactly the default exclude set |
| Config.Settings.AllAllowedMime | src/qrparser/config/settings.py:94-97 | the PDF types come first and the image types follow, each list unchanged |
| Config.Settings.Valid | src/qrparser/config/settings.py:33-69 | defines the field bounds: both scales in [0.1, 10.0], the port in [1, 65535], the other counts at least 1 (properties: `Config.BuildSucceedsIffValid`) |
| Config.Violations | src/qrparser/config/settings.py:33-69 | defines the reported fields: the failing ones among all eight, in declaration order (properties: `Config.ViolationsPerField`) |
| Config.Build | src/qrparser/config/settings.py:33-69 | defines construction: the settings when nothing is reported, otherwise the reported fields (properties: `Config.BuildSucceedsIffValid`) |
| Config.BuildSucceedsIffValid | src/qrparser/config/settings.py:33-69 | settings are accepted exactly when every range constraint holds and are then unchanged; a rejection names between one and eight fields |
| Config.ViolationsPerField | src/qrparser/config/settings.py:33-69 | each of the eight constrained fields is reported exactly when its own bound fails |
| Config.Failing | src/qrparser/config/settings.py:33-69 | the reported fields are exactly the listed fields whose bound fails, never more of them than were listed |
| Config.FailingNone | src/qrparser/config/settings.py:33-69 | when every listed bound holds, no field is reported |
| Config.DefaultsValid | src/qrparser/config/settings.py:18-83 | the defaults meet every bound and construction accepts them unchanged |
| Config.DefaultMimes | src/qrparser/config/settings.py:47-54 | the default combined MIME list is PDF, PNG, JPEG, in that order |
| Config.ImageOverrideKeepsPdf | tests/test_config.py:29-45 | replacing the image list keeps the PDF prefix and validity; PNG alone gives PDF then PNG |
| Config.AllowedMimeMembership | src/qrparser/config/settings.py:94-97 | a type is in the combined list exactly when it is in one of the two lists |
| Config.DefaultImagesDecodable | src/qrparser/config/settings.py:51-54 | the default image types are exactly the types the image decoder accepts |

## Left out

- Rendering, image conversion, EXIF orientation and barcode reading are uninterpreted functions. No pixels, interpolation or symbologies are modelled.
- Exceptions raised inside rendering or reading are not modelled; those functions are total.
- Opening a file is one step that either succeeds or fails with UnreadableDocument. The library's own exception types are not distinguished.
- Closing the document and the image (the `with` scope) is not modelled.
- Python floats are modelled as exact reals.
- ImageDecoder.Resize: `w * factor` is an exact product, not a rounded float product.
- The `BarcodeDecoder` protocol is a record of two function values, not a class interface. The composite's children are such records.
- The PDF decoder has no `can_handle`/`extract_from_file`, so it is not offered as a composite child.
- Settings loading from the environment and `.env` is not modelled. That covers the `QR_` prefix, case-insensitive names, JSON-encoded tuples and ignored unknown keys. The `lru_cache` singleton and its reset are left out too.
- Config.Build: `APP_ENV` and `LOG_LEVEL` are enumerations, so an out-of-range literal cannot be represented. `SENTRY_DSN`'s URL syntax is not checked.
- The HTTP layer, logging, the CLI wrappers and the print-tree argument parser (other than `--exclude`) are not modelled. Neither is writing the output file or reconfiguring stdout.
- The file system is a tree value. Walking it cannot fail except by a directory that refuses its listing. Other listing errors, symbolic-link cycles and the existence check on the root are left out.
- PrintTree.DrawTree requires the root to be a directory unless the depth limit is below 1. With a limit below 1, `walk` returns before any listing and a file root is drawn as its name alone. Without such a limit, listing a file root raises an error the script does not catch, and that error is not modelled.
- PrintTree.SortEntries: the order of entries whose keys tie (names equal up to case) is not stated. The model's insertion keeps them in listing order, as Python's stable sort does.
- Text.Lower lower-cases ASCII letters only, not the full Unicode case mapping of `str.lower`.
- PrintTree.DrawItems requires a depth-first sequence that starts with the root, which is what `iter_tree` yields (`PrintTree.IterTreeShape`). For other sequences the truncation of the `parents_last` slice is not described.
