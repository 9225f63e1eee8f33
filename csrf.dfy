/** `CsrfExtractor`: fetches a page from the token endpoint, extracts the CSRF
    token with the configured strategy (`regex`, `html` or `json`) and caches
    it, reusing the cached token while its expiry lies in the future. The
    network exchange, the clock and the regex, HTML and JSON engines are
    inputs; the cache is the extractor's mutable state. */
module Csrf {
  import opened Common
  import opened Models
  import opened JsonPointer

  /** How the request to the token endpoint ended: the configured headers do
      not form a header map, the request could not be sent, the body could not
      be read, or the body. */
  datatype Fetch = HeadersRejected | NotSent | Unreadable | Body(content: string)

  /** What the regex engine reports for a pattern and a text: the pattern does
      not compile, there is no match, or the first match with its capture
      group 1 if that group took part. */
  datatype RegexMatch = PatternRejected | NoMatch | Captures(group1: Option<string>)

  /** What the HTML engine reports for a selector and a document: the selector
      does not parse, nothing matches, or the first matching element with its
      `value` attribute if it has one. */
  datatype HtmlMatch = SelectorRejected | NoElement | FirstElement(value: Option<string>)

  /** The foreign engines: regex search, HTML selection and JSON parsing. */
  datatype Engines = Engines(
    regex: (string, string) -> RegexMatch,
    html: (string, string) -> HtmlMatch,
    parseJson: string -> Option<JsonValue>)

  /** `extract_with_regex`: the text of capture group 1 of the first match. */
  function ExtractWithRegex(config: CsrfConfig, engines: Engines, content: string): (r: Result<string, Error>)
    ensures r.Ok? <==> engines.regex(config.tokenSelector, content).Captures?
                       && engines.regex(config.tokenSelector, content).group1.Some?
    ensures r.Ok? ==> r.value == engines.regex(config.tokenSelector, content).group1.value
    ensures r.Err? ==> r.error in {InvalidRegexPattern, TokenNotFoundWithRegex}
    ensures r == Err(InvalidRegexPattern) <==> engines.regex(config.tokenSelector, content).PatternRejected?
  {
    match engines.regex(config.tokenSelector, content)
    case PatternRejected => Err(InvalidRegexPattern)
    case NoMatch => Err(TokenNotFoundWithRegex)
    case Captures(group) =>
      if group.Some? then Ok(group.value) else Err(TokenNotFoundWithRegex)
  }

  /** `extract_from_html`: the `value` attribute of the first matching element. */
  function ExtractFromHtml(config: CsrfConfig, engines: Engines, content: string): (r: Result<string, Error>)
    ensures r.Ok? <==> engines.html(config.tokenSelector, content).FirstElement?
                       && engines.html(config.tokenSelector, content).value.Some?
    ensures r.Ok? ==> r.value == engines.html(config.tokenSelector, content).value.value
    ensures r.Err? ==> r.error in {InvalidCssSelector, TokenNotFoundInHtml}
    ensures r == Err(InvalidCssSelector) <==> engines.html(config.tokenSelector, content).SelectorRejected?
  {
    match engines.html(config.tokenSelector, content)
    case SelectorRejected => Err(InvalidCssSelector)
    case NoElement => Err(TokenNotFoundInHtml)
    case FirstElement(value) =>
      if value.Some? then Ok(value.value) else Err(TokenNotFoundInHtml)
  }

  /** `extract_from_json`: the string the configured pointer designates. */
  function ExtractFromJson(config: CsrfConfig, engines: Engines, content: string): (r: Result<string, Error>)
    ensures r.Ok? <==> engines.parseJson(content).Some? && config.jsonPointer.Some?
                       && Resolve(engines.parseJson(content).value, config.jsonPointer.value).Some?
                       && Resolve(engines.parseJson(content).value, config.jsonPointer.value).value.Str?
    ensures r.Ok? ==> Resolve(engines.parseJson(content).value, config.jsonPointer.value) == Some(Str(r.value))
  {
    match engines.parseJson(content)
    case None => Err(InvalidJsonResponse)
    case Some(json) =>
      match config.jsonPointer
      case None => Err(JsonPointerNotConfigured)
      case Some(pointer) =>
        match Resolve(json, pointer)
        case Some(Str(token)) => Ok(token)
        case _ => Err(TokenNotFoundInJson)
  }

  /** The extraction methods `extract_token` recognises. */
  predicate KnownMethod(m: string) {
    m == "regex" || m == "html" || m == "json"
  }

  /** `extract_token`: the fetch first, then the strategy named by the
      configuration. */
  function Extract(config: CsrfConfig, engines: Engines, fetch: Fetch): Result<string, Error> {
    match fetch
    case HeadersRejected => Err(CsrfHeadersInvalid)
    case NotSent => Err(CsrfFetchFailed)
    case Unreadable => Err(CsrfReadFailed)
    case Body(content) =>
      if config.extractionMethod == "regex" then ExtractWithRegex(config, engines, content)
      else if config.extractionMethod == "html" then ExtractFromHtml(config, engines, content)
      else if config.extractionMethod == "json" then ExtractFromJson(config, engines, content)
      else Err(InvalidExtractionMethod)
  }

  // ---------------------------------------------------------------------------
  // The cache

  /** The token a cache holds for the instant `now`: one whose expiry is set
      and still in the future. */
  function CachedToken(state: CacheState, now: Instant): (t: Option<string>)
    ensures t.Some? <==> state.expiry.Some? && now < state.expiry.value && state.token.Some?
    ensures t.Some? ==> state.token == t
  {
    if state.expiry.Some? && now < state.expiry.value then state.token else None
  }

  /** The cache after storing a freshly fetched token at instant `later`. */
  function Store(config: CsrfConfig, state: CacheState, token: string, later: Instant): (s: CacheState)
    ensures s.token == Some(token)
    ensures config.cacheDuration.Some? ==> s.expiry == Some(later + config.cacheDuration.value * NanosPerSecond)
    ensures config.cacheDuration.None? ==> s.expiry == state.expiry
  {
    CacheState(Some(token),
      match config.cacheDuration
      case Some(d) => Some(later + d * NanosPerSecond)
      case None => state.expiry)
  }

  /** One call of `get_token`: the clock reads `now` when the cache is
      checked and `later` when a fetched token is stored; `fetch` is what the
      token endpoint returns if it is asked. Gives the result and the new
      cache. */
  function TokenStep(config: CsrfConfig, engines: Engines, state: CacheState,
                     now: Instant, later: Instant, fetch: Fetch): (Result<string, Error>, CacheState)
  {
    match CachedToken(state, now)
    case Some(t) => (Ok(t), state)
    case None =>
      match Extract(config, engines, fetch)
      case Err(e) => (Err(e), state)
      case Ok(t) => (Ok(t), Store(config, state, t, later))
  }

  class CsrfExtractor {
    const config: CsrfConfig
    const engines: Engines
    const cache: CsrfCache

    /** `CsrfExtractor::new`: the configuration and an empty cache. */
    constructor(config: CsrfConfig, engines: Engines)
      ensures this.config == config && this.engines == engines
      ensures fresh(cache) && cache.token == None && cache.expiry == None
    {
      this.config := config;
      this.engines := engines;
      cache := new CsrfCache();
    }

    /** `get_token`: the cached token while it is valid, otherwise a fetched
        one, which is then cached. */
    method GetToken(now: Instant, later: Instant, fetch: Fetch) returns (r: Result<string, Error>)
      modifies cache
      ensures (r, cache.View()) == TokenStep(config, engines, old(cache.View()), now, later, fetch)
    {
      if cache.expiry.Some? && now < cache.expiry.value && cache.token.Some? {
        return Ok(cache.token.value);
      }
      var extracted := Extract(config, engines, fetch);
      if extracted.Err? {
        return extracted;
      }
      cache.token := Some(extracted.value);
      if config.cacheDuration.Some? {
        cache.expiry := Some(later + config.cacheDuration.value * NanosPerSecond);
      }
      r := Ok(extracted.value);
    }
  }

  // ---------------------------------------------------------------------------
  // Properties of extraction

  /** A failed fetch is reported as such whatever the extraction method; with
      a body, an unknown method is an error and a known one is its strategy. */
  lemma ExtractDispatch(config: CsrfConfig, engines: Engines, fetch: Fetch)
    ensures fetch == HeadersRejected ==> Extract(config, engines, fetch) == Err(CsrfHeadersInvalid)
    ensures fetch == NotSent ==> Extract(config, engines, fetch) == Err(CsrfFetchFailed)
    ensures fetch == Unreadable ==> Extract(config, engines, fetch) == Err(CsrfReadFailed)
    ensures fetch.Body? ==>
      (Extract(config, engines, fetch) == Err(InvalidExtractionMethod) <==> !KnownMethod(config.extractionMethod))
    ensures Extract(config, engines, fetch).Ok? ==> fetch.Body? && KnownMethod(config.extractionMethod)
  {
  }

  /** The JSON errors come in order: an unparsable body before a missing
      pointer, a missing pointer before an unresolved one. */
  lemma JsonErrorOrder(config: CsrfConfig, engines: Engines, content: string)
    ensures engines.parseJson(content).None? ==> ExtractFromJson(config, engines, content) == Err(InvalidJsonResponse)
    ensures engines.parseJson(content).Some? && config.jsonPointer.None? ==>
      ExtractFromJson(config, engines, content) == Err(JsonPointerNotConfigured)
    ensures engines.parseJson(content).Some? && config.jsonPointer.Some? ==>
      var found := Resolve(engines.parseJson(content).value, config.jsonPointer.value);
      ExtractFromJson(config, engines, content) ==
        (if found.Some? && found.value.Str? then Ok(found.value.s) else Err(TokenNotFoundInJson))
  {
  }

  /** A JSON response holding the token as a string at the place the
      configured pointer encodes yields exactly that token; a value of any
      other kind there is not a token. */
  lemma JsonTokenFound(config: CsrfConfig, engines: Engines, content: string, path: seq<string>, v: JsonValue)
    requires config.extractionMethod == "json" && config.jsonPointer == Some(Encode(path))
    requires engines.parseJson(content) == Some(v)
    ensures Follow(v, path).Some? && Follow(v, path).value.Str? ==>
      Extract(config, engines, Body(content)) == Ok(Follow(v, path).value.s)
    ensures Follow(v, path).Some? && !Follow(v, path).value.Str? ==>
      Extract(config, engines, Body(content)) == Err(TokenNotFoundInJson)
  {
    EncodeRoundTrip(path);
  }

  // ---------------------------------------------------------------------------
  // Properties of the cache

  /** A cache hit returns the cached token without fetching: the result does
      not depend on the endpoint's answer, and the cache is unchanged. */
  lemma CacheHit(config: CsrfConfig, engines: Engines, state: CacheState, now: Instant, later: Instant, fetch: Fetch)
    requires CachedToken(state, now).Some?
    ensures TokenStep(config, engines, state, now, later, fetch) == (Ok(state.token.value), state)
  {
  }

  /** Without a hit, a failure is passed on and leaves the cache as it was;
      a success stores the token, and its expiry when a duration is set. */
  lemma CacheMiss(config: CsrfConfig, engines: Engines, state: CacheState, now: Instant, later: Instant, fetch: Fetch)
    requires CachedToken(state, now).None?
    ensures var (r, s) := TokenStep(config, engines, state, now, later, fetch);
      && r == Extract(config, engines, fetch)
      && (r.Err? ==> s == state)
      && (r.Ok? ==> s == Store(config, state, r.value, later))
  {
  }

  /** A cache keeps a token whenever it has an expiry. */
  predicate Consistent(state: CacheState) {
    state.expiry.Some? ==> state.token.Some?
  }

  lemma ConsistentPreserved(config: CsrfConfig, engines: Engines, state: CacheState, now: Instant, later: Instant, fetch: Fetch)
    requires Consistent(state)
    ensures Consistent(TokenStep(config, engines, state, now, later, fetch).1)
  {
  }

  /** A token fetched at `later` with a duration of `d` seconds is reused by
      every call before `later + d` seconds, whatever the endpoint would answer,
      and by no call from that instant on. */
  lemma ReuseWindow(config: CsrfConfig, engines: Engines, state: CacheState, now: Instant, later: Instant,
                    fetch: Fetch, now2: Instant, later2: Instant, fetch2: Fetch)
    requires CachedToken(state, now).None? && Extract(config, engines, fetch).Ok?
    requires config.cacheDuration.Some?
    ensures var (r, s) := TokenStep(config, engines, state, now, later, fetch);
      now2 < later + config.cacheDuration.value * NanosPerSecond ==>
        TokenStep(config, engines, s, now2, later2, fetch2) == (r, s)
    ensures var (r, s) := TokenStep(config, engines, state, now, later, fetch);
      later + config.cacheDuration.value * NanosPerSecond <= now2 ==> CachedToken(s, now2).None?
  {
  }

  /** A call with its clock readings and the endpoint's answer. */
  datatype Call = Call(now: Instant, later: Instant, fetch: Fetch)

  /** A sequence of `get_token` calls on one extractor: the results, in order,
      and the final cache. */
  function Calls(config: CsrfConfig, engines: Engines, state: CacheState, calls: seq<Call>): (out: (seq<Result<string, Error>>, CacheState))
    ensures |out.0| == |calls|
    decreases |calls|
  {
    if calls == [] then ([], state)
    else
      var (r, s) := TokenStep(config, engines, state, calls[0].now, calls[0].later, calls[0].fetch);
      var (rs, s') := Calls(config, engines, s, calls[1..]);
      ([r] + rs, s')
  }

  /** With no cache duration configured the expiry is never set, so no token
      is ever reused: starting from a new extractor's cache, every call
      fetches and returns what it extracts. */
  lemma {:induction false} NoDurationNeverReuses(config: CsrfConfig, engines: Engines, state: CacheState, calls: seq<Call>)
    requires config.cacheDuration.None? && state.expiry.None?
    ensures Calls(config, engines, state, calls).1.expiry.None?
    ensures forall k :: 0 <= k < |calls| ==>
      Calls(config, engines, state, calls).0[k] == Extract(config, engines, calls[k].fetch)
    decreases |calls|
  {
    if calls != [] {
      var c := calls[0];
      var (r, s) := TokenStep(config, engines, state, c.now, c.later, c.fetch);
      assert r == Extract(config, engines, c.fetch) && s.expiry.None?;
      NoDurationNeverReuses(config, engines, s, calls[1..]);
      var out := Calls(config, engines, state, calls);
      forall k | 0 <= k < |calls|
        ensures out.0[k] == Extract(config, engines, calls[k].fetch)
      {
        if k > 0 {
          assert out.0[k] == Calls(config, engines, s, calls[1..]).0[k - 1];
          assert calls[1..][k - 1] == calls[k];
        }
      }
    }
  }
}
