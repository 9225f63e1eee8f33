/** The records the scanner passes around (`Baseline`, `ScanResult`,
    `CsrfConfig`, `CsrfCache`, `RequestDebugInfo`) and the command line
    arguments with their defaults and their required-if rules. */
module Models {
  import opened Common

  /** `reqwest::StatusCode`: a three-digit number from 100 to 999. */
  type StatusCode = x: int | 100 <= x < 1000 witness 200

  /** `chrono::DateTime<Utc>`, as nanoseconds since the Unix epoch. */
  type Instant = int

  const NanosPerSecond: nat := 1_000_000_000

  /** The response to an unmodified request, kept for comparison. */
  datatype Baseline = Baseline(status: StatusCode, durationMs: nat, bodySize: nat)

  /** `Baseline::new`: the three measurements are stored as given. */
  function NewBaseline(status: StatusCode, durationMs: nat, bodySize: nat): (b: Baseline)
    ensures b.status == status && b.durationMs == durationMs && b.bodySize == bodySize
  {
    Baseline(status, durationMs, bodySize)
  }

  /** Why a response was judged suspicious. The source keeps the rendered
      message; the status message renders the two codes with `StatusCode`'s
      `Display`, whose reason phrases belong to a foreign library, so the
      codes are kept and the rendering takes that display as a parameter. */
  datatype Reason =
    | SlowResponse
    | SizeChanged
    | StatusChanged(from: StatusCode, to: StatusCode)

  const StatusPrefix: string := "Status code changed from "

  /** The message each reason stands for. The two fixed texts are written as
      "R" + the rest only so that the verifier sees their first letter, which
      tells them apart from the status text; each is still a single string. */
  function Message(r: Reason, display: StatusCode -> string): (m: string)
    ensures r.StatusChanged? <==> StatusPrefix <= m
    ensures r.StatusChanged? ==> m == StatusPrefix + display(r.from) + " to " + display(r.to)
  {
    match r
    case SlowResponse =>
      var msg := "R" + "esponse time significantly higher than baseline";
      assert msg[0] == 'R' && StatusPrefix[0] == 'S';
      msg
    case SizeChanged =>
      var msg := "R" + "esponse size significantly different from baseline";
      assert msg[0] == 'R' && StatusPrefix[0] == 'S';
      msg
    case StatusChanged(from, to) => StatusPrefix + display(from) + " to " + display(to)
  }

  /** The outcome of one injection test. */
  datatype ScanResult = ScanResult(
    header: string,
    payload: string,
    status: StatusCode,
    durationMs: nat,
    bodySize: nat,
    suspicious: bool,
    reason: Option<Reason>)

  /** How to obtain a CSRF token; `cacheDuration` is in seconds. */
  datatype CsrfConfig = CsrfConfig(
    tokenUrl: string,
    tokenSelector: string,
    headers: map<string, string>,
    extractionMethod: string,
    jsonPointer: Option<string>,
    cacheDuration: Option<nat>)

  /** The contents of a `CsrfCache` at one moment. */
  datatype CacheState = CacheState(token: Option<string>, expiry: Option<Instant>)

  /** The cached CSRF token and the instant it stops being valid. */
  class CsrfCache {
    var token: Option<string>
    var expiry: Option<Instant>

    /** An empty cache: no token and no expiry. */
    constructor()
      ensures token == None && expiry == None
    {
      token := None;
      expiry := None;
    }

    function View(): CacheState
      reads this
    {
      CacheState(token, expiry)
    }
  }

  /** What is recorded about a request before it is sent. */
  datatype RequestDebugInfo = RequestDebugInfo(
    url: string,
    httpMethod: string,
    headers: map<string, string>,
    body: Option<string>,
    timestamp: Instant)

  // ---------------------------------------------------------------------------
  // Command line arguments

  /** The options as given on the command line: `None` for an option that was
      not given and `false` for a flag that was not given. */
  datatype RawArgs = RawArgs(
    url: Option<string>,
    payload: Option<string>,
    header: Option<string>,
    fields: Option<string>,
    timeout: Option<nat>,
    verbose: bool,
    httpMethod: Option<string>,
    csrfField: Option<string>,
    csrfCookieField: Option<string>,
    csrfToken: Option<string>,
    debug: bool,
    debugFile: Option<string>,
    bodyInjection: bool,
    injectionField: Option<string>)

  /** The parsed arguments (`Args`). */
  datatype Args = Args(
    url: string,
    payload: string,
    header: Option<string>,
    fields: Option<string>,
    timeout: nat,
    verbose: bool,
    httpMethod: string,
    csrfField: string,
    csrfCookieField: Option<string>,
    csrfToken: Option<string>,
    debug: bool,
    debugFile: string,
    bodyInjection: bool,
    injectionField: string)

  const DefaultTimeout: nat := 3000
  const DefaultMethod := "GET"
  const DefaultCsrfField := "csrf_token"
  const DefaultDebugFile := "debug_requests_log.txt"
  const DefaultInjectionField := "id"

  /** The required-if rules: a header list unless body injection is asked
      for, and a field list whenever it is. */
  predicate Valid(a: Args) {
    && (a.header.Some? || a.bodyInjection)
    && (a.bodyInjection ==> a.fields.Some?)
  }

  /** The required arguments that are missing, in declaration order. */
  function Missing(raw: RawArgs): seq<string> {
    (if raw.url.None? then ["url"] else [])
    + (if raw.payload.None? then ["payload"] else [])
    + (if raw.header.None? && !raw.bodyInjection then ["header"] else [])
    + (if raw.fields.None? && raw.bodyInjection then ["fields"] else [])
  }

  /** Argument parsing: an error listing every missing required argument, or
      the arguments with the defaults filled in. */
  function ParseArgs(raw: RawArgs): (r: Result<Args, seq<string>>)
    ensures r.Ok? <==> raw.url.Some? && raw.payload.Some? && (raw.header.Some? || raw.bodyInjection) && (raw.bodyInjection ==> raw.fields.Some?)
    ensures r.Err? ==> r.error != [] && forall n :: n in r.error ==> n in ["url", "payload", "header", "fields"]
    ensures r.Err? ==>
      && ("url" in r.error <==> raw.url.None?)
      && ("payload" in r.error <==> raw.payload.None?)
      && ("header" in r.error <==> raw.header.None? && !raw.bodyInjection)
      && ("fields" in r.error <==> raw.fields.None? && raw.bodyInjection)
    ensures r.Ok? ==> Valid(r.value)
    ensures r.Ok? ==> var a := r.value;
      && a.url == raw.url.value && a.payload == raw.payload.value
      && a.header == raw.header && a.fields == raw.fields
      && a.timeout == raw.timeout.GetOr(DefaultTimeout)
      && a.httpMethod == raw.httpMethod.GetOr(DefaultMethod)
      && a.csrfField == raw.csrfField.GetOr(DefaultCsrfField)
      && a.csrfCookieField == raw.csrfCookieField && a.csrfToken == raw.csrfToken
      && a.debugFile == raw.debugFile.GetOr(DefaultDebugFile)
      && a.injectionField == raw.injectionField.GetOr(DefaultInjectionField)
      && a.verbose == raw.verbose && a.debug == raw.debug && a.bodyInjection == raw.bodyInjection
  {
    var missing := Missing(raw);
    if missing != [] then Err(missing)
    else
      Ok(Args(
        raw.url.value, raw.payload.value, raw.header, raw.fields,
        raw.timeout.GetOr(DefaultTimeout), raw.verbose,
        raw.httpMethod.GetOr(DefaultMethod), raw.csrfField.GetOr(DefaultCsrfField),
        raw.csrfCookieField, raw.csrfToken, raw.debug,
        raw.debugFile.GetOr(DefaultDebugFile), raw.bodyInjection,
        raw.injectionField.GetOr(DefaultInjectionField)))
  }

  /** Every option given explicitly. */
  function Explicit(a: Args): RawArgs {
    RawArgs(
      Some(a.url), Some(a.payload), a.header, a.fields, Some(a.timeout), a.verbose,
      Some(a.httpMethod), Some(a.csrfField), a.csrfCookieField, a.csrfToken, a.debug,
      Some(a.debugFile), a.bodyInjection, Some(a.injectionField))
  }

  /** Exactly the valid arguments can be obtained by parsing: giving every
      option of valid arguments explicitly parses back to them, and giving
      those of invalid ones fails. */
  lemma ParseExplicit(a: Args)
    ensures Valid(a) ==> ParseArgs(Explicit(a)) == Ok(a)
    ensures !Valid(a) ==> ParseArgs(Explicit(a)).Err?
  {
  }

  /** With only the url and the payload given, the header list is missing;
      with body injection as well, the field list is missing instead; with
      the field list too, every other option takes its default. */
  lemma RequiredArgumentExamples(url: string, payload: string)
    ensures ParseArgs(RawArgs(Some(url), Some(payload), None, None, None, false, None, None, None, None, false, None, false, None))
         == Err(["header"])
    ensures ParseArgs(RawArgs(Some(url), Some(payload), None, None, None, false, None, None, None, None, false, None, true, None))
         == Err(["fields"])
    ensures ParseArgs(RawArgs(Some(url), Some(payload), None, Some("f"), None, false, None, None, None, None, false, None, true, None))
         == Ok(Args(url, payload, None, Some("f"), 3000, false, "GET", "csrf_token", None, None, false, "debug_requests_log.txt", true, "id"))
  {
    assert [] + [] + ["header"] + [] == ["header"];
    assert [] + [] + [] + ["fields"] == ["fields"];
  }
}
