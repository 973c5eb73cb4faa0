/** The application settings: every field with its default, the range constraints the
    settings class places on its numeric fields, and the combined list of accepted
    MIME types. */
module Config {
  import opened Wrappers
  import ImageDecoder

  datatype AppEnv = Dev | Staging | Prod | Test

  datatype LogLevel = Debug | Info | Warning | Error | Critical

  datatype Settings = Settings(
    appName: string,
    appEnv: AppEnv,
    debug: bool,
    logLevel: LogLevel,
    logJson: bool,
    decodeScale: real,
    fallbackScale: real,
    maxPages: int,
    concurrency: int,
    allowedMimePdf: seq<string>,
    allowedMimeImg: seq<string>,
    maxFileSizeMbPdf: int,
    maxFileSizeMbImg: int,
    httpHost: string,
    httpPort: int,
    httpWorkers: int,
    corsAllowOrigins: seq<string>,
    enablePrometheus: bool,
    metricsPath: string,
    sentryDsn: Option<string>)
  {
    /** The field constraints: both scales in [0.1, 10.0], the page, worker, size and
        concurrency limits at least 1, and the port in [1, 65535]. */
    predicate Valid() {
      && 0.1 <= decodeScale <= 10.0
      && 0.1 <= fallbackScale <= 10.0
      && maxPages >= 1
      && concurrency >= 1
      && maxFileSizeMbPdf >= 1
      && maxFileSizeMbImg >= 1
      && 1 <= httpPort <= 65535
      && httpWorkers >= 1
    }

    /** `ALL_ALLOWED_MIME`: the PDF types followed by the image types. */
    function AllAllowedMime(): (all: seq<string>)
      ensures |all| == |allowedMimePdf| + |allowedMimeImg|
      ensures all[..|allowedMimePdf|] == allowedMimePdf && all[|allowedMimePdf|..] == allowedMimeImg
    {
      allowedMimePdf + allowedMimeImg
    }
  }

  /** The constrained fields, named as in the settings class. */
  datatype Field =
    | DECODE_SCALE | FALLBACK_SCALE | MAX_PAGES | CONCURRENCY
    | MAX_FILE_SIZE_MB_PDF | MAX_FILE_SIZE_MB_IMG | HTTP_PORT | HTTP_WORKERS

  /** Whether the value of `f` in `s` meets the field's constraint. */
  predicate FieldOk(s: Settings, f: Field) {
    match f
    case DECODE_SCALE => 0.1 <= s.decodeScale <= 10.0
    case FALLBACK_SCALE => 0.1 <= s.fallbackScale <= 10.0
    case MAX_PAGES => s.maxPages >= 1
    case CONCURRENCY => s.concurrency >= 1
    case MAX_FILE_SIZE_MB_PDF => s.maxFileSizeMbPdf >= 1
    case MAX_FILE_SIZE_MB_IMG => s.maxFileSizeMbImg >= 1
    case HTTP_PORT => 1 <= s.httpPort <= 65535
    case HTTP_WORKERS => s.httpWorkers >= 1
  }

  /** The constrained fields in declaration order. */
  const Fields: seq<Field> := [DECODE_SCALE, FALLBACK_SCALE, MAX_PAGES, CONCURRENCY,
                               MAX_FILE_SIZE_MB_PDF, MAX_FILE_SIZE_MB_IMG, HTTP_PORT, HTTP_WORKERS]

  /** The fields whose constraint fails, in declaration order: the field errors that
      constructing the settings reports. */
  function Violations(s: Settings): seq<Field> {
    Failing(s, Fields)
  }

  function Failing(s: Settings, fs: seq<Field>): (bad: seq<Field>)
    ensures |bad| <= |fs|
    ensures forall f :: f in bad <==> f in fs && !FieldOk(s, f)
  {
    if fs == [] then [] else (if FieldOk(s, fs[0]) then [] else [fs[0]]) + Failing(s, fs[1..])
  }

  /** Constructing settings: the values themselves when every constraint holds, otherwise
      the list of failing fields. */
  function Build(s: Settings): Result<Settings, seq<Field>> {
    var errors := Violations(s);
    if errors == [] then Success(s) else Failure(errors)
  }

  /** Construction succeeds exactly for valid settings, returns them unchanged, and a failure
      names at least one and at most all eight constrained fields. */
  lemma BuildSucceedsIffValid(s: Settings)
    ensures Build(s).Success? <==> s.Valid()
    ensures Build(s).Success? ==> Build(s).value == s
    ensures Build(s).Failure? ==> 1 <= |Build(s).error| <= 8
  {
    if !s.Valid() {
      var f := if !FieldOk(s, DECODE_SCALE) then DECODE_SCALE
        else if !FieldOk(s, FALLBACK_SCALE) then FALLBACK_SCALE
        else if !FieldOk(s, MAX_PAGES) then MAX_PAGES
        else if !FieldOk(s, CONCURRENCY) then CONCURRENCY
        else if !FieldOk(s, MAX_FILE_SIZE_MB_PDF) then MAX_FILE_SIZE_MB_PDF
        else if !FieldOk(s, MAX_FILE_SIZE_MB_IMG) then MAX_FILE_SIZE_MB_IMG
        else if !FieldOk(s, HTTP_PORT) then HTTP_PORT
        else HTTP_WORKERS;
      ViolationsPerField(s, f);
    } else {
      FailingNone(s, Fields);
    }
  }

  /** No field is reported when every listed constraint holds. */
  lemma {:induction false} FailingNone(s: Settings, fs: seq<Field>)
    requires forall i :: 0 <= i < |fs| ==> FieldOk(s, fs[i])
    ensures Failing(s, fs) == []
  {
    if fs != [] {
      FailingNone(s, fs[1..]);
    }
  }

  /** A field is reported exactly when its own constraint fails. */
  lemma ViolationsPerField(s: Settings, f: Field)
    ensures f in Violations(s) <==> !FieldOk(s, f)
  {
    assert f in Fields by {
      match f
      case DECODE_SCALE => assert Fields[0] == f;
      case FALLBACK_SCALE => assert Fields[1] == f;
      case MAX_PAGES => assert Fields[2] == f;
      case CONCURRENCY => assert Fields[3] == f;
      case MAX_FILE_SIZE_MB_PDF => assert Fields[4] == f;
      case MAX_FILE_SIZE_MB_IMG => assert Fields[5] == f;
      case HTTP_PORT => assert Fields[6] == f;
      case HTTP_WORKERS => assert Fields[7] == f;
    }
  }

  /** The defaults of every field. */
  const Defaults := Settings(
    "qrparser", Dev, false, Info, true,
    3.0, 5.0, 50, 4,
    ["application/pdf"], ["image/png", "image/jpeg"], 10, 6,
    "0.0.0.0", 8000, 1, ["*"],
    false, "/metrics", None)

  /** The defaults meet every constraint, so constructing them succeeds. */
  lemma DefaultsValid()
    ensures Defaults.Valid()
    ensures Build(Defaults) == Success(Defaults)
  {
    BuildSucceedsIffValid(Defaults);
  }

  /** By default the combined MIME list is PDF, then PNG, then JPEG. */
  lemma DefaultMimes()
    ensures Defaults.AllAllowedMime() == ["application/pdf", "image/png", "image/jpeg"]
  {
  }

  /** Narrowing the image list changes only the image part of the combined list; narrowing the
      defaults to PNG alone gives PDF then PNG. */
  lemma ImageOverrideKeepsPdf(s: Settings, img: seq<string>)
    ensures s.(allowedMimeImg := img).AllAllowedMime()[..|s.allowedMimePdf|] == s.allowedMimePdf
    ensures s.(allowedMimeImg := img).Valid() <==> s.Valid()
    ensures Defaults.(allowedMimeImg := ["image/png"]).AllAllowedMime() == ["application/pdf", "image/png"]
  {
  }

  /** A MIME type is accepted exactly when one of the two lists holds it. */
  lemma AllowedMimeMembership(s: Settings, mime: string)
    ensures mime in s.AllAllowedMime() <==> mime in s.allowedMimePdf || mime in s.allowedMimeImg
  {
    var all := s.AllAllowedMime();
    if mime in s.allowedMimeImg {
      var i :| 0 <= i < |s.allowedMimeImg| && s.allowedMimeImg[i] == mime;
      assert all[|s.allowedMimePdf| + i] == mime;
    }
  }

  /** The default image types are exactly the types the image decoder handles. */
  lemma DefaultImagesDecodable()
    ensures forall m :: m in Defaults.allowedMimeImg <==> m in ImageDecoder.Supported
  {
  }
}
