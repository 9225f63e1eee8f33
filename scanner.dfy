/** `SqliScanner`: the request sent for one injection test, with the payload
    either in a header or in a form body, and the judgement of the response
    against the stored baseline. The network exchange (whether the request
    could be sent, the status, the elapsed milliseconds and the size of the
    body) is an input, and so is the clock. */
module Scanner {
  import opened Common
  import opened Text
  import opened FormEncoding
  import opened Models
  import opened Logger

  // ---------------------------------------------------------------------------
  // Building the request

  const UserAgent: string := "Mozilla/5.0 (X11; Linux x86_64) AppleWebKit/537.36 (KHTML, like Gecko) Chrome/135.0.0.0 Safari/537.36"
  const AcceptTypes: string := "text/html,application/xhtml+xml,application/xml;q=0.9,*/*;q=0.8"
  const AcceptLanguage: string := "pt-BR,pt;q=0.7"
  const KeepAlive: string := "keep-alive"
  const FormContentType: string := "application/x-www-form-urlencoded"

  /** The parameters of one `test_injection` call. */
  datatype Injection = Injection(
    url: string,
    target: string,           // the header or form field that receives the payload
    payload: string,
    httpMethod: string,
    csrfToken: Option<string>,
    csrfField: string,
    csrfCookieField: Option<string>,
    bodyInjection: bool)

  /** A request as handed to the HTTP client: the headers in the order they
      were added (a repeated name is sent twice) and the body. */
  datatype Request = Request(httpMethod: string, url: string, headers: seq<(string, string)>, body: Option<string>)

  /** The characters of an HTTP token (`tchar`, section 3.2.6 of RFC 7230). */
  predicate IsTokenChar(c: char) {
    || ('0' <= c <= '9') || ('a' <= c <= 'z') || ('A' <= c <= 'Z')
    || c in "!#$%&'*+-.^_`|~"
  }

  /** `Method::from_bytes` accepts exactly the non-empty tokens. */
  predicate ValidMethod(m: string) {
    |m| > 0 && forall i :: 0 <= i < |m| ==> IsTokenChar(m[i])
  }

  /** The `Host` header: the URL after its first `://` (the whole URL when
      there is none), cut at the next `://` or `/`. */
  function HostOf(url: string): (h: string)
    ensures '/' !in h
    ensures !Contains(url, "://") ==> h <= url && (|h| < |url| ==> url[|h|] == '/')
    ensures Contains(url, "://") ==> exists i: nat :: OccursAt(url, "://", i) && h <= url[i + 3..]
    ensures Contains(url, "://") ==> !Contains(h, "://")
  {
    match SecondPiece(url, "://")
    case None => UpTo(url, '/')
    case Some(rest) =>
      var h := UpTo(rest, '/');
      assert forall k: nat :: !OccursAt(h, "://", k) by {
        forall k: nat ensures !OccursAt(h, "://", k) {
          if k + 3 <= |h| {
            assert h[k..k + 3][1] == h[k + 1] != '/';
          }
        }
      }
      h
  }

  /** With a `://`, the Host value is the host segment of the text after the
      first `://`: everything up to the first `/` or the next `://`. */
  lemma HostOfSegment(url: string)
    requires Contains(url, "://")
    ensures HostSegment(AfterFirst(url, "://").value, HostOf(url))
  {
    HostSegmentOf(AfterFirst(url, "://").value);
  }

  function CommonHeaders(url: string): seq<(string, string)> {
    [("Host", HostOf(url)), ("User-Agent", UserAgent), ("Accept", AcceptTypes),
     ("Accept-Language", AcceptLanguage), ("Connection", KeepAlive)]
  }

  /** The cookie carrying the CSRF token is named after `csrf_cookie_field`,
      or `csrf_field` when that is not given. */
  function CookieName(inj: Injection): string {
    inj.csrfCookieField.GetOr(inj.csrfField)
  }

  function CookieHeaders(inj: Injection): seq<(string, string)> {
    match inj.csrfToken
    case None => []
    case Some(t) => [("Cookie", CookieName(inj) + "=" + t)]
  }

  /** The form body of a POST in body mode. */
  function FormBody(inj: Injection): string {
    inj.target + "=" + FormValue(inj.payload)
    + (match inj.csrfToken case None => "" case Some(t) => "&" + inj.csrfField + "=" + t)
  }

  predicate SendsForm(inj: Injection) {
    inj.bodyInjection && inj.httpMethod == "POST"
  }

  function RequestBody(inj: Injection): Option<string> {
    if SendsForm(inj) then Some(FormBody(inj)) else None
  }

  /** The headers after the common ones and the cookie. */
  function PlacementHeaders(inj: Injection): seq<(string, string)> {
    if !inj.bodyInjection then [(inj.target, inj.payload)]
    else if SendsForm(inj) then
      [("Content-Type", FormContentType), ("Content-Length", NatToString(ByteLen(FormBody(inj))))]
    else []
  }

  function RequestFor(inj: Injection): Request {
    Request(inj.httpMethod, inj.url, CommonHeaders(inj.url) + CookieHeaders(inj) + PlacementHeaders(inj), RequestBody(inj))
  }

  /** The headers recorded for the debug log; `Content-Length` is sent but
      not recorded. */
  function DebugPairs(inj: Injection): seq<(string, string)> {
    CommonHeaders(inj.url) + CookieHeaders(inj)
    + (if !inj.bodyInjection then [(inj.target, inj.payload)]
       else if SendsForm(inj) then [("Content-Type", FormContentType)]
       else [])
  }

  /** Inserting the pairs into a map in order: a later pair overwrites. */
  function ToMap(pairs: seq<(string, string)>): map<string, string> {
    if pairs == [] then map[]
    else ToMap(pairs[..|pairs| - 1])[pairs[|pairs| - 1].0 := pairs[|pairs| - 1].1]
  }

  lemma ToMapAppend(pairs: seq<(string, string)>, p: (string, string))
    ensures ToMap(pairs + [p]) == ToMap(pairs)[p.0 := p.1]
  {
    assert (pairs + [p])[..|pairs|] == pairs;
  }

  function DebugHeaders(inj: Injection): map<string, string> {
    ToMap(DebugPairs(inj))
  }

  /** Inserting headers one by one: the request keeps them in order, and the
      recorded map lets a later one overwrite an earlier one. */
  method InsertHeaders(pairs: seq<(string, string)>) returns (headers: seq<(string, string)>, debug: map<string, string>)
    ensures headers == pairs
    ensures debug == ToMap(pairs)
  {
    headers := [];
    debug := map[];
    for i := 0 to |pairs|
      invariant headers == pairs[..i]
      invariant debug == ToMap(pairs[..i])
    {
      ToMapAppend(pairs[..i], pairs[i]);
      assert pairs[..i + 1] == pairs[..i] + [pairs[i]];
      headers := headers + [pairs[i]];
      debug := debug[pairs[i].0 := pairs[i].1];
    }
    assert pairs[..|pairs|] == pairs;
  }

  /** The request construction of `test_injection`: the common headers one by
      one, the cookie, then the payload, as a header or as a form body. */
  method BuildRequest(inj: Injection) returns (req: Request, debug: map<string, string>)
    ensures req == RequestFor(inj)
    ensures debug == DebugHeaders(inj)
  {
    var common := CommonHeaders(inj.url);
    var headers;
    headers, debug := InsertHeaders(common);
    ghost var pairs: seq<(string, string)> := common;
    if inj.csrfToken.Some? {
      var cookie := CookieName(inj) + "=" + inj.csrfToken.value;
      ToMapAppend(pairs, ("Cookie", cookie));
      headers := headers + [("Cookie", cookie)];
      pairs := pairs + [("Cookie", cookie)];
      debug := debug["Cookie" := cookie];
    }
    assert headers == pairs == common + CookieHeaders(inj);
    var body: Option<string> := None;
    if inj.bodyInjection {
      if inj.httpMethod == "POST" {
        ToMapAppend(pairs, ("Content-Type", FormContentType));
        debug := debug["Content-Type" := FormContentType];
        pairs := pairs + [("Content-Type", FormContentType)];
        headers := headers + [("Content-Type", FormContentType)];
        var form := "";
        var encoded := FormValue(inj.payload);
        form := form + inj.target + "=" + encoded;
        if inj.csrfToken.Some? {
          if form != [] {
            form := form + "&";
          }
          form := form + inj.csrfField + "=" + inj.csrfToken.value;
        }
        assert form == FormBody(inj);
        body := Some(form);
        headers := headers + [("Content-Length", NatToString(ByteLen(form)))];
      }
    } else {
      ToMapAppend(pairs, (inj.target, inj.payload));
      headers := headers + [(inj.target, inj.payload)];
      pairs := pairs + [(inj.target, inj.payload)];
      debug := debug[inj.target := inj.payload];
    }
    assert pairs == DebugPairs(inj);
    assert headers == CommonHeaders(inj.url) + CookieHeaders(inj) + PlacementHeaders(inj);
    req := Request(inj.httpMethod, inj.url, headers, body);
  }

  // ---------------------------------------------------------------------------
  // Properties of the request

  /** Header mode: the named header carries the payload verbatim, it is the
      last header sent and the one recorded for the log, and there is no body. */
  lemma HeaderModePlacement(inj: Injection)
    requires !inj.bodyInjection
    ensures var hs := RequestFor(inj).headers; |hs| > 0 && hs[|hs| - 1] == (inj.target, inj.payload)
    ensures RequestFor(inj).body.None?
    ensures inj.target in DebugHeaders(inj) && DebugHeaders(inj)[inj.target] == inj.payload
  {
    var ps := DebugPairs(inj);
    assert ps == ps[..|ps| - 1] + [(inj.target, inj.payload)];
  }

  /** Body mode with a method other than POST: neither a body nor the
      injected field is added, only the common headers and the cookie. */
  lemma BodyModeWithoutPost(inj: Injection)
    requires inj.bodyInjection && inj.httpMethod != "POST"
    ensures RequestFor(inj).headers == CommonHeaders(inj.url) + CookieHeaders(inj)
    ensures RequestFor(inj).body.None?
    ensures DebugPairs(inj) == CommonHeaders(inj.url) + CookieHeaders(inj)
  {
    assert CommonHeaders(inj.url) + CookieHeaders(inj) + [] == CommonHeaders(inj.url) + CookieHeaders(inj);
  }

  /** Body mode with POST: the body is `name=value` with the form-encoded
      payload, followed by `&field=token` exactly when there is a token;
      `Content-Length` is the body's length in bytes, written in decimal;
      the encoded payload has no space, no `%20` and no `%3B`, and decodes back
      to the payload's UTF-8 bytes. */
  lemma FormBodyLayout(inj: Injection)
    requires SendsForm(inj)
    ensures var body := RequestFor(inj).body;
      && body.Some?
      && (inj.csrfToken.None? ==> body.value == inj.target + "=" + FormValue(inj.payload))
      && (inj.csrfToken.Some? ==> body.value == inj.target + "=" + FormValue(inj.payload) + "&" + inj.csrfField + "=" + inj.csrfToken.value)
    ensures var hs := RequestFor(inj).headers;
      && |hs| >= 2
      && hs[|hs| - 2] == ("Content-Type", FormContentType)
      && hs[|hs| - 1].0 == "Content-Length"
      && ParseNat(hs[|hs| - 1].1) == Some(ByteLen(FormBody(inj)))
    ensures var e := FormValue(inj.payload);
      && ' ' !in e && !Contains(e, "%20") && !Contains(e, "%3B")
      && FormDecode(e) == Utf8(inj.payload)
  {
    ParseNatToString(ByteLen(FormBody(inj)));
    FormValueShape(inj.payload);
    FormValueRoundTrip(inj.payload);
    var hs := RequestFor(inj).headers;
    var pre := CommonHeaders(inj.url) + CookieHeaders(inj);
    assert hs == pre + PlacementHeaders(inj);
    assert hs[|hs| - 2] == PlacementHeaders(inj)[0];
  }

  /** With a token, the cookie `<cookie name>=<token>` follows the common
      headers, and is what the log records unless the payload goes into a
      header named `Cookie`. */
  lemma CookieWithToken(inj: Injection)
    requires inj.csrfToken.Some?
    ensures var hs := RequestFor(inj).headers;
      |hs| > 5 && hs[5] == ("Cookie", CookieName(inj) + "=" + inj.csrfToken.value)
    ensures inj.csrfCookieField.None? ==> CookieName(inj) == inj.csrfField
    ensures inj.bodyInjection || inj.target != "Cookie" ==>
      "Cookie" in DebugHeaders(inj) && DebugHeaders(inj)["Cookie"] == CookieName(inj) + "=" + inj.csrfToken.value
  {
    var cookie := ("Cookie", CookieName(inj) + "=" + inj.csrfToken.value);
    var pre := CommonHeaders(inj.url) + [cookie];
    ToMapAppend(CommonHeaders(inj.url), cookie);
    var rest := DebugPairs(inj)[|pre|..];
    assert DebugPairs(inj) == pre + rest;
    if inj.bodyInjection || inj.target != "Cookie" {
      if rest != [] {
        assert rest == [rest[0]];
        ToMapAppend(pre, rest[0]);
        assert rest[0].0 != "Cookie";
      } else {
        assert DebugPairs(inj) == pre;
      }
    }
  }

  /** The first header is the host; the log's `Host:` line, which is derived
      from the URL again, holds the same host when the URL has a `://`. */
  lemma HostHeaderAndLogLine(inj: Injection)
    ensures RequestFor(inj).headers[0] == ("Host", HostOf(inj.url))
    ensures Contains(inj.url, "://") ==> HostLine(inj.url) == "Host: " + HostOf(inj.url) + "\n"
    ensures !Contains(inj.url, "://") ==> HostLine(inj.url) == ""
  {
    if Contains(inj.url, "://") {
      var rest := AfterFirst(inj.url, "://").value;
      var line := HostLine(inj.url);
      assert exists h :: HostSegment(rest, h) && line == "Host: " + h + "\n";
      var h :| HostSegment(rest, h) && line == "Host: " + h + "\n";
      HostOfSegment(inj.url);
      HostSegmentUnique(rest, h, HostOf(inj.url));
    }
  }

  /** `Host` is also an ordinary entry of the recorded headers, so the log
      lists it in its second pass as well, whatever the map's order. */
  lemma HostListedInLog(inj: Injection, order: seq<string>)
    requires IsIterationOrder(order, DebugHeaders(inj))
    ensures "Host" in Emitted(DebugHeaders(inj), order)
  {
    var ps := DebugPairs(inj);
    ToMapHasFirst(ps);
    EmittedSpec(DebugHeaders(inj), order);
    assert "Host" !in Important;
    assert !Contains("Host", "payload");
  }

  lemma {:induction false} ToMapHasFirst(pairs: seq<(string, string)>)
    requires |pairs| > 0
    ensures pairs[0].0 in ToMap(pairs)
  {
    if |pairs| > 1 {
      var init := pairs[..|pairs| - 1];
      ToMapHasFirst(init);
    }
  }

  // ---------------------------------------------------------------------------
  // Judging the response

  /** `suspicious` and `reason` of a `ScanResult`. */
  datatype Verdict = Verdict(suspicious: bool, reason: Option<Reason>)

  /** The timing rule: more than twice the baseline duration. */
  predicate SlowRule(b: Baseline, durationMs: nat) {
    durationMs > 2 * b.durationMs
  }

  function Diff(x: nat, y: nat): nat {
    if x >= y then x - y else y - x
  }

  /** The size rule: the body size differs by more than 20% of the baseline
      size (an empty baseline: any non-empty body). */
  predicate SizeRule(b: Baseline, bodySize: nat) {
    Diff(bodySize, b.bodySize) * 100 > 20 * b.bodySize
  }

  predicate StatusRule(b: Baseline, status: StatusCode) {
    status != b.status
  }

  /** The judgement in precedence form: suspicious when any rule fires; the
      status message wins over the size message, which wins over the timing
      message. */
  function Judge(baseline: Option<Baseline>, status: StatusCode, durationMs: nat, bodySize: nat): Verdict {
    match baseline
    case None => Verdict(false, None)
    case Some(b) =>
      var slow := SlowRule(b, durationMs);
      var sized := SizeRule(b, bodySize);
      var changed := StatusRule(b, status);
      Verdict(slow || sized || changed,
              if changed then Some(StatusChanged(b.status, status))
              else if sized then Some(SizeChanged)
              else if slow then Some(SlowResponse)
              else None)
  }

  /** The three checks of `test_injection` in source order, each overwriting
      the reason of the one before. */
  method Classify(baseline: Option<Baseline>, status: StatusCode, durationMs: nat, bodySize: nat)
    returns (suspicious: bool, reason: Option<Reason>)
    ensures Verdict(suspicious, reason) == Judge(baseline, status, durationMs, bodySize)
  {
    suspicious := false;
    reason := None;
    if baseline.Some? {
      var b := baseline.value;
      if durationMs > b.durationMs * 2 {
        suspicious := true;
        reason := Some(SlowResponse);
      }
      var sizeDiff := Diff(bodySize, b.bodySize);
      if sizeDiff * 100 > 20 * b.bodySize {
        suspicious := true;
        reason := Some(SizeChanged);
      }
      if status != b.status {
        suspicious := true;
        reason := Some(StatusChanged(b.status, status));
      }
    }
  }

  /** Without a baseline nothing is suspicious. */
  lemma NoBaselineNotSuspicious(status: StatusCode, durationMs: nat, bodySize: nat)
    ensures Judge(None, status, durationMs, bodySize) == Verdict(false, None)
  {
  }

  /** With a baseline: suspicious exactly when one of the rules fires, a
      reason exactly when suspicious, and the reason names the rule of highest
      precedence that fired. */
  lemma JudgeRules(b: Baseline, status: StatusCode, durationMs: nat, bodySize: nat)
    ensures var v := Judge(Some(b), status, durationMs, bodySize);
      && (v.suspicious <==> SlowRule(b, durationMs) || SizeRule(b, bodySize) || StatusRule(b, status))
      && (v.reason.Some? <==> v.suspicious)
      && (v.reason == Some(StatusChanged(b.status, status)) <==> status != b.status)
      && (v.reason == Some(SizeChanged) <==> status == b.status && SizeRule(b, bodySize))
      && (v.reason == Some(SlowResponse) <==> status == b.status && !SizeRule(b, bodySize) && SlowRule(b, durationMs))
  {
  }

  /** The rule boundaries: twice the baseline duration is not slow, one
      millisecond more is; an empty baseline body makes every non-empty body
      and no empty body a size change; a 100-byte baseline tolerates 80 to 120
      bytes. */
  lemma RuleBoundaries(b: Baseline)
    ensures !SlowRule(b, 2 * b.durationMs) && SlowRule(b, 2 * b.durationMs + 1)
    ensures b.bodySize == 0 ==> forall n: nat :: SizeRule(b, n) <==> n > 0
    ensures b.bodySize == 100 ==> !SizeRule(b, 80) && !SizeRule(b, 120) && SizeRule(b, 79) && SizeRule(b, 121)
  {
  }

  /** An answer that matches the baseline in status and size and takes at most
      twice as long is not suspicious. */
  lemma MatchingResponseNotSuspicious(b: Baseline, durationMs: nat)
    requires durationMs <= 2 * b.durationMs
    ensures Judge(Some(b), b.status, durationMs, b.bodySize) == Verdict(false, None)
  {
  }

  // ---------------------------------------------------------------------------
  // One injection test

  /** How the exchange with the server ends: the request could not be sent,
      the body could not be read, or a response with its status, the elapsed
      time in milliseconds and the body's length in bytes. */
  datatype Exchange = NotSent | Unreadable | Received(status: StatusCode, durationMs: nat, bodySize: nat)

  /** What the environment supplies to one test: the clock, the iteration
      order of the recorded headers, the JSON pretty-printer, how writing the
      log turns out and the exchange. */
  datatype TestIo = TestIo(
    timestamp: Instant,
    order: seq<string>,
    pretty: string -> Option<string>,
    logIo: FileIo,
    exchange: Exchange)

  /** The outcome of a test: the result, the request handed to the client (if
      it got that far) and the log file afterwards. */
  datatype Tested = Tested(result: Result<ScanResult, Error>, sent: Option<Request>, logFile: string)

  function DebugInfo(inj: Injection, timestamp: Instant): RequestDebugInfo {
    RequestDebugInfo(inj.url, inj.httpMethod, DebugHeaders(inj), RequestBody(inj), timestamp)
  }

  /** `test_injection` over its inputs: the method check, the log entry, the
      exchange and the judgement, each failure ending the test. */
  function InjectionOutcome(baseline: Option<Baseline>, logger: Option<RequestLogger>,
                            inj: Injection, io: TestIo, logFile: string): Tested
  {
    if !ValidMethod(inj.httpMethod) then Tested(Err(InvalidHttpMethod), None, logFile)
    else
      var logged := match logger
        case None => (Pass, logFile)
        case Some(l) => LogEffect(l, DebugInfo(inj, io.timestamp), io.order, io.pretty, logFile, io.logIo);
      if logged.0.Fail? then Tested(Err(logged.0.error), None, logged.1)
      else match io.exchange
        case NotSent => Tested(Err(SendFailed(inj.url)), Some(RequestFor(inj)), logged.1)
        case Unreadable => Tested(Err(ResponseReadFailed), Some(RequestFor(inj)), logged.1)
        case Received(status, durationMs, bodySize) =>
          var v := Judge(baseline, status, durationMs, bodySize);
          Tested(Ok(ScanResult(inj.target, inj.payload, status, durationMs, bodySize, v.suspicious, v.reason)),
                 Some(RequestFor(inj)), logged.1)
  }

  /** The result of a test: an error exactly when the method is rejected, the
      log cannot be written, or the exchange fails, in that order; otherwise
      the target and payload echoed, the measurements of the response and the
      judgement against the baseline. Without a baseline it is never
      suspicious. */
  lemma InjectionResult(baseline: Option<Baseline>, logger: Option<RequestLogger>,
                        inj: Injection, io: TestIo, logFile: string)
    ensures var t := InjectionOutcome(baseline, logger, inj, io, logFile);
      && (!ValidMethod(inj.httpMethod) ==> t == Tested(Err(InvalidHttpMethod), None, logFile))
      && (t.result.Ok? <==>
            (ValidMethod(inj.httpMethod) && io.exchange.Received?
             && (logger.Some? && logger.value.isEnabled ==> io.logIo == Written)))
      && (t.result.Ok? ==> var r := t.result.value;
            && r.header == inj.target && r.payload == inj.payload
            && r.status == io.exchange.status && r.durationMs == io.exchange.durationMs
            && r.bodySize == io.exchange.bodySize
            && Verdict(r.suspicious, r.reason) == Judge(baseline, r.status, r.durationMs, r.bodySize)
            && (baseline.None? ==> !r.suspicious && r.reason.None?))
      && (t.sent.Some? ==> t.sent.value == RequestFor(inj))
      && (t.result.Ok? ==> t.sent.Some?)
  {
  }

  /** The log: unchanged without an enabled logger; with one that writes, the
      entry for the recorded headers and body appended. */
  lemma InjectionLog(baseline: Option<Baseline>, logger: Option<RequestLogger>,
                     inj: Injection, io: TestIo, logFile: string)
    ensures var t := InjectionOutcome(baseline, logger, inj, io, logFile);
      && (logger.None? || !logger.value.isEnabled ==> t.logFile == logFile)
      && (ValidMethod(inj.httpMethod) && logger.Some? && logger.value.isEnabled && io.logIo == Written ==>
            t.logFile == logFile + LogEntry(DebugInfo(inj, io.timestamp), io.order, io.pretty))
  {
  }

  /** The scanner: the stored baseline and the optional debug logger (the HTTP
      client is not modelled). */
  class SqliScanner {
    var baseline: Option<Baseline>
    var logger: Option<RequestLogger>

    /** `SqliScanner::new`: no baseline and no logger yet. */
    constructor()
      ensures baseline == None && logger == None
    {
      baseline := None;
      logger := None;
    }

    /** `with_logger`. */
    method WithLogger(l: RequestLogger)
      modifies this
      ensures logger == Some(l) && baseline == old(baseline)
    {
      logger := Some(l);
    }

    /** `get_baseline`: the measurements of a plain GET of the URL. */
    static function GetBaseline(url: string, ex: Exchange): (r: Result<Baseline, Error>)
      ensures r.Ok? <==> ex.Received?
      ensures ex.Received? ==> r.value == NewBaseline(ex.status, ex.durationMs, ex.bodySize)
      ensures ex.NotSent? ==> r == Err(BaselineSendFailed(url))
      ensures ex.Unreadable? ==> r == Err(BaselineReadFailed)
    {
      match ex
      case NotSent => Err(BaselineSendFailed(url))
      case Unreadable => Err(BaselineReadFailed)
      case Received(status, durationMs, bodySize) => Ok(NewBaseline(status, durationMs, bodySize))
    }

    /** `establish_baseline`: a new baseline replaces the stored one; on
        failure the stored one is kept. */
    method EstablishBaseline(url: string, ex: Exchange) returns (r: Result<Baseline, Error>)
      modifies this
      ensures r == GetBaseline(url, ex)
      ensures r.Ok? ==> baseline == Some(r.value)
      ensures r.Err? ==> baseline == old(baseline)
      ensures logger == old(logger)
    {
      r := GetBaseline(url, ex);
      if r.Ok? {
        baseline := Some(r.value);
      }
    }

    /** `test_injection`, given the content of the log file and what the
        environment supplies. */
    method TestInjection(inj: Injection, io: TestIo, logFile: string)
      returns (r: Result<ScanResult, Error>, sent: Option<Request>, logFile': string)
      ensures Tested(r, sent, logFile') == InjectionOutcome(baseline, logger, inj, io, logFile)
    {
      if !ValidMethod(inj.httpMethod) {
        return Err(InvalidHttpMethod), None, logFile;
      }
      var req, debug := BuildRequest(inj);
      logFile' := logFile;
      if logger.Some? {
        var info := RequestDebugInfo(inj.url, inj.httpMethod, debug, req.body, io.timestamp);
        var logged;
        logged, logFile' := LogRequest(logger.value, info, io.order, io.pretty, logFile, io.logIo);
        if logged.Fail? {
          return Err(logged.error), None, logFile';
        }
      }
      sent := Some(req);
      match io.exchange {
        case NotSent =>
          r := Err(SendFailed(inj.url));
        case Unreadable =>
          r := Err(ResponseReadFailed);
        case Received(status, durationMs, bodySize) =>
          var suspicious, reason := Classify(baseline, status, durationMs, bodySize);
          r := Ok(ScanResult(inj.target, inj.payload, status, durationMs, bodySize, suspicious, reason));
      }
    }
  }
}
