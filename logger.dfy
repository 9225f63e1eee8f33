/** `RequestLogger`: the text of a debug log entry for a request and the
    effect of appending it to, or clearing, the debug log file. The file is
    modelled by its content; whether opening or writing succeeds is an input,
    and so are the iteration order of the header map and the JSON
    pretty-printer. */
module Logger {
  import opened Common
  import opened Text
  import opened Models

  datatype RequestLogger = RequestLogger(debugFile: string, isEnabled: bool)

  /** The headers listed first, in this order, when present. */
  const Important: seq<string> := ["Content-Type", "Cookie", "Content-Length", "User-Agent"]

  const Separator: string := "\n__________\n\n"

  /** `order` is an iteration order of the map: each key exactly once. The
      entry is defined for any sequence of names (the names that are not keys
      are passed over); its properties are stated for iteration orders. */
  ghost predicate IsIterationOrder(order: seq<string>, headers: map<string, string>) {
    && (forall n :: n in order <==> n in headers)
    && Distinct(order)
  }

  function RequestLine(info: RequestDebugInfo): string {
    info.httpMethod + " " + info.url + " HTTP/1.1\n"
  }

  /** The `Host:` line: present exactly when the URL contains `://`, holding
      the text after the first `://` up to the next `://` or `/`. */
  function HostLine(url: string): (r: string)
    ensures r == "" <==> !Contains(url, "://")
    ensures Contains(url, "://") ==>
      exists h :: HostSegment(AfterFirst(url, "://").value, h) && r == "Host: " + h + "\n"
  {
    match SecondPiece(url, "://")
    case None => ""
    case Some(host) =>
      HostSegmentOf(AfterFirst(url, "://").value);
      "Host: " + UpTo(host, '/') + "\n"
  }

  function HeaderLine(name: string, value: string): string {
    name + ": " + value + "\n"
  }

  /** The names of `names` that are keys of the map, in the order of `names`. */
  function Present(headers: map<string, string>, names: seq<string>): seq<string> {
    if names == [] then []
    else Present(headers, names[..|names| - 1]) + (if names[|names| - 1] in headers then [names[|names| - 1]] else [])
  }

  /** A header outside the important ones that is logged in the second pass. */
  predicate Listed(name: string) {
    name !in Important && !Contains(name, "payload")
  }

  /** The names of `order` that are keys of the map and pass the filter of
      the second pass, in the order of `order`. */
  function Others(headers: map<string, string>, order: seq<string>): seq<string> {
    if order == [] then []
    else
      var last := order[|order| - 1];
      Others(headers, order[..|order| - 1]) + (if last in headers && Listed(last) then [last] else [])
  }

  /** The names of the header lines of an entry, in the order they appear. */
  function Emitted(headers: map<string, string>, order: seq<string>): seq<string> {
    Present(headers, Important) + Others(headers, order)
  }

  function HeaderLines(headers: map<string, string>, names: seq<string>): string
    requires forall n :: n in names ==> n in headers
  {
    if names == [] then ""
    else HeaderLines(headers, names[..|names| - 1]) + HeaderLine(names[|names| - 1], headers[names[|names| - 1]])
  }

  /** A blank line and the body, pretty-printed when it is JSON; nothing when
      there is no body. `pretty` is `None` for text that is not JSON. */
  function BodySection(body: Option<string>, pretty: string -> Option<string>): string {
    match body
    case None => ""
    case Some(b) => "\n" + pretty(b).GetOr(b)
  }

  /** What comes between the request line and the separator: the host line,
      the header lines and the body section. */
  function EntryMiddle(info: RequestDebugInfo, order: seq<string>, pretty: string -> Option<string>): string
  {
    EmittedInMap(info.headers, order);
    HostLine(info.url) + HeaderLines(info.headers, Emitted(info.headers, order)) + BodySection(info.body, pretty)
  }

  /** The entry `log_request` appends for a request. */
  function LogEntry(info: RequestDebugInfo, order: seq<string>, pretty: string -> Option<string>): string
  {
    RequestLine(info) + EntryMiddle(info, order, pretty) + Separator
  }

  // ---------------------------------------------------------------------------
  // Building the entry

  lemma PresentInMap(headers: map<string, string>, names: seq<string>)
    ensures forall n :: n in Present(headers, names) <==> n in names && n in headers
  {
    if names != [] {
      var init := names[..|names| - 1];
      PresentInMap(headers, init);
      assert names == init + [names[|names| - 1]];
    }
  }

  lemma OthersListed(headers: map<string, string>, order: seq<string>)
    ensures forall n :: n in Others(headers, order) <==> n in order && n in headers && Listed(n)
  {
    if order != [] {
      var init := order[..|order| - 1];
      OthersListed(headers, init);
      assert order == init + [order[|order| - 1]];
    }
  }

  lemma EmittedInMap(headers: map<string, string>, order: seq<string>)
    ensures forall n :: n in Emitted(headers, order) ==> n in headers
  {
    PresentInMap(headers, Important);
    OthersListed(headers, order);
  }

  lemma HeaderLinesAppend(headers: map<string, string>, names: seq<string>, n: string)
    requires forall m :: m in names ==> m in headers
    requires n in headers
    ensures HeaderLines(headers, names + [n]) == HeaderLines(headers, names) + HeaderLine(n, headers[n])
  {
    assert (names + [n])[..|names|] == names;
  }

  lemma {:induction false} HeaderLinesConcat(headers: map<string, string>, a: seq<string>, b: seq<string>)
    requires forall m :: m in a ==> m in headers
    requires forall m :: m in b ==> m in headers
    ensures HeaderLines(headers, a + b) == HeaderLines(headers, a) + HeaderLines(headers, b)
    decreases |b|
  {
    if b == [] {
      assert a + b == a;
    } else {
      var init := b[..|b| - 1];
      var last := b[|b| - 1];
      assert b == init + [last];
      assert a + b == (a + init) + [last];
      HeaderLinesConcat(headers, a, init);
      HeaderLinesAppend(headers, a + init, last);
      HeaderLinesAppend(headers, init, last);
    }
  }

  /** The first loop of `log_request` (run over `Important`): a line for
      each of `names` that is in the map, in the order of `names`. */
  method PresentHeaderLines(headers: map<string, string>, names: seq<string>) returns (lines: string)
    ensures forall n :: n in Present(headers, names) ==> n in headers
    ensures lines == HeaderLines(headers, Present(headers, names))
  {
    lines := "";
    for i := 0 to |names|
      invariant forall n :: n in Present(headers, names[..i]) ==> n in headers
      invariant lines == HeaderLines(headers, Present(headers, names[..i]))
    {
      var name := names[i];
      assert names[..i + 1][..i] == names[..i];
      assert Present(headers, names[..i + 1])
          == Present(headers, names[..i]) + (if name in headers then [name] else []);
      PresentInMap(headers, names[..i + 1]);
      if name in headers {
        HeaderLinesAppend(headers, Present(headers, names[..i]), name);
        lines := lines + HeaderLine(name, headers[name]);
      } else {
        assert Present(headers, names[..i]) + [] == Present(headers, names[..i]);
      }
    }
    assert names[..|names|] == names;
  }

  /** The second loop of `log_request`: a line for each remaining header in
      the map's iteration order, skipping the important ones and those whose
      name contains `payload`. */
  method OtherHeaderLines(headers: map<string, string>, order: seq<string>) returns (lines: string)
    ensures forall n :: n in Others(headers, order) ==> n in headers
    ensures lines == HeaderLines(headers, Others(headers, order))
  {
    lines := "";
    for i := 0 to |order|
      invariant forall n :: n in Others(headers, order[..i]) ==> n in headers
      invariant lines == HeaderLines(headers, Others(headers, order[..i]))
    {
      var name := order[i];
      assert order[..i + 1][..i] == order[..i];
      assert Others(headers, order[..i + 1]) == Others(headers, order[..i]) + (if name in headers && Listed(name) then [name] else []);
      OthersListed(headers, order[..i + 1]);
      if name in headers && Listed(name) {
        HeaderLinesAppend(headers, Others(headers, order[..i]), name);
        lines := lines + HeaderLine(name, headers[name]);
      } else {
        assert Others(headers, order[..i]) + [] == Others(headers, order[..i]);
      }
    }
    assert order[..|order|] == order;
  }

  /** Builds the entry as `log_request` does: the request line, the host
      line, the important headers that are present, then the other headers in
      the map's iteration order, the body and the separator. */
  method BuildLogEntry(info: RequestDebugInfo, order: seq<string>, pretty: string -> Option<string>)
    returns (entry: string)
    ensures entry == LogEntry(info, order, pretty)
  {
    var headers := info.headers;
    var important := PresentHeaderLines(headers, Important);
    var others := OtherHeaderLines(headers, order);
    var body := "";
    match info.body {
      case None =>
      case Some(b) =>
        match pretty(b) {
          case Some(p) => body := "\n" + p;
          case None => body := "\n" + b;
        }
    }
    HeaderLinesConcat(headers, Present(headers, Important), Others(headers, order));
    var lines := important + others;
    assert lines == HeaderLines(headers, Emitted(headers, order));
    var middle := HostLine(info.url) + lines + body;
    assert middle == EntryMiddle(info, order, pretty);
    entry := RequestLine(info) + middle + Separator;
  }

  /** What `log_request` returns and what the log file then holds, given its
      content before the call and how opening and writing it turn out: a
      disabled logger does nothing and succeeds; otherwise the entry is
      appended, or the failure is reported with the file name and the file is
      left as it was. */
  function LogEffect(logger: RequestLogger, info: RequestDebugInfo, order: seq<string>,
                     pretty: string -> Option<string>, file: string, io: FileIo): (r: (Outcome<Error>, string))
    ensures !logger.isEnabled ==> r == (Pass, file)
    ensures logger.isEnabled ==> (r.0 == Pass <==> io == Written)
    ensures logger.isEnabled && io == Written ==> r.1 == file + LogEntry(info, order, pretty)
    ensures logger.isEnabled && io == OpenFailed ==> r == (Fail(LogOpenFailed(logger.debugFile)), file)
    ensures logger.isEnabled && io == WriteFailed ==> r == (Fail(LogWriteFailed(logger.debugFile)), file)
  {
    if !logger.isEnabled then (Pass, file)
    else match io
      case OpenFailed => (Fail(LogOpenFailed(logger.debugFile)), file)
      case WriteFailed => (Fail(LogWriteFailed(logger.debugFile)), file)
      case Written => (Pass, file + LogEntry(info, order, pretty))
  }

  /** `log_request`: builds the entry only when the logger is enabled. */
  method LogRequest(logger: RequestLogger, info: RequestDebugInfo, order: seq<string>,
                    pretty: string -> Option<string>, file: string, io: FileIo)
    returns (r: Outcome<Error>, file': string)
    ensures (r, file') == LogEffect(logger, info, order, pretty, file, io)
  {
    if !logger.isEnabled {
      return Pass, file;
    }
    var entry := BuildLogEntry(info, order, pretty);
    match io {
      case OpenFailed => r, file' := Fail(LogOpenFailed(logger.debugFile)), file;
      case WriteFailed => r, file' := Fail(LogWriteFailed(logger.debugFile)), file;
      case Written => r, file' := Pass, file + entry;
    }
  }

  /** `clear_log`: a disabled logger leaves the file alone and succeeds; an
      enabled one empties it, or reports the failure with the file name. */
  function ClearLog(logger: RequestLogger, file: string, io: FileIo): (r: (Outcome<Error>, string))
    ensures !logger.isEnabled ==> r == (Pass, file)
    ensures logger.isEnabled ==> (r.0 == Pass <==> io == Written)
    ensures logger.isEnabled && io == Written ==> r.1 == ""
    ensures logger.isEnabled && io != Written ==> r == (Fail(LogClearFailed(logger.debugFile)), file)
  {
    if !logger.isEnabled then (Pass, file)
    else if io == Written then (Pass, "")
    else (Fail(LogClearFailed(logger.debugFile)), file)
  }

  // ---------------------------------------------------------------------------
  // Properties of the entry

  predicate Distinct(s: seq<string>) {
    forall i, j :: 0 <= i < j < |s| ==> s[i] != s[j]
  }

  /** `a` is `b` with some elements left out, the rest kept in their order. */
  predicate IsSubsequence(a: seq<string>, b: seq<string>)
    decreases |b|
  {
    if a == [] then true
    else if b == [] then false
    else if a[|a| - 1] == b[|b| - 1] then IsSubsequence(a[..|a| - 1], b[..|b| - 1])
    else IsSubsequence(a, b[..|b| - 1])
  }

  /** The first pass keeps the names it lists in the order they are given. */
  lemma {:induction false} PresentIsSubsequence(headers: map<string, string>, names: seq<string>)
    ensures IsSubsequence(Present(headers, names), names)
  {
    if names != [] {
      var init := names[..|names| - 1];
      var last := names[|names| - 1];
      var p := Present(headers, init);
      PresentIsSubsequence(headers, init);
      PresentInMap(headers, init);
      if last in headers {
        var q := p + [last];
        assert Present(headers, names) == q;
        assert q[..|q| - 1] == p;
      } else {
        assert Present(headers, names) == p;
        assert p != [] ==> p[|p| - 1] in p;
      }
    }
  }

  lemma DistinctAppend(s: seq<string>, x: string)
    requires Distinct(s) && x !in s
    ensures Distinct(s + [x])
  {
    var t := s + [x];
    forall i, j | 0 <= i < j < |t| ensures t[i] != t[j] {
      if j == |s| {
        assert t[i] == s[i];
      } else {
        assert t[i] == s[i] && t[j] == s[j];
      }
    }
  }

  lemma DistinctInit(s: seq<string>)
    requires Distinct(s) && s != []
    ensures Distinct(s[..|s| - 1]) && s[|s| - 1] !in s[..|s| - 1]
  {
    var init := s[..|s| - 1];
    forall k | 0 <= k < |init| ensures init[k] != s[|s| - 1] {
      assert init[k] == s[k];
    }
  }

  lemma {:induction false} PresentDistinct(headers: map<string, string>, names: seq<string>)
    requires Distinct(names)
    ensures Distinct(Present(headers, names))
  {
    if names != [] {
      var init := names[..|names| - 1];
      var last := names[|names| - 1];
      DistinctInit(names);
      PresentDistinct(headers, init);
      PresentInMap(headers, init);
      if last in headers {
        DistinctAppend(Present(headers, init), last);
      }
    }
  }

  lemma {:induction false} OthersDistinct(headers: map<string, string>, order: seq<string>)
    requires Distinct(order)
    ensures Distinct(Others(headers, order))
  {
    if order != [] {
      var init := order[..|order| - 1];
      var last := order[|order| - 1];
      DistinctInit(order);
      OthersDistinct(headers, init);
      OthersListed(headers, init);
      if last in headers && Listed(last) {
        DistinctAppend(Others(headers, init), last);
      }
    }
  }

  /** Two duplicate-free lists with no name in common concatenate to a
      duplicate-free list. */
  lemma DistinctConcat(p: seq<string>, o: seq<string>)
    requires Distinct(p) && Distinct(o)
    requires forall n :: n in p ==> n !in o
    ensures Distinct(p + o)
  {
    var e := p + o;
    forall i, j | 0 <= i < j < |e| ensures e[i] != e[j] {
      if j < |p| {
        assert e[i] == p[i] && e[j] == p[j];
      } else if i >= |p| {
        assert e[i] == o[i - |p|] && e[j] == o[j - |p|];
      } else {
        assert e[i] == p[i] && e[j] == o[j - |p|];
        assert e[i] in p && e[j] in o;
      }
    }
  }

  /** The header lines of an entry: a header is logged exactly when it is in
      the map and is either an important header or a name without `payload`;
      no header is logged twice; the important ones come first, in their
      fixed order, and the rest follow in the map's iteration order. */
  lemma EmittedSpec(headers: map<string, string>, order: seq<string>)
    requires IsIterationOrder(order, headers)
    ensures var e := Emitted(headers, order);
      && (forall n :: n in e <==> n in headers && (n in Important || !Contains(n, "payload")))
      && Distinct(e)
      && Present(headers, Important) <= e
      && IsSubsequence(Present(headers, Important), Important)
      && forall n :: n in e[|Present(headers, Important)|..] ==> n !in Important
  {
    var p := Present(headers, Important);
    var o := Others(headers, order);
    PresentInMap(headers, Important);
    OthersListed(headers, order);
    assert Distinct(Important);
    PresentDistinct(headers, Important);
    OthersDistinct(headers, order);
    PresentIsSubsequence(headers, Important);
    forall n | n in o ensures n !in Important {
      assert Listed(n);
    }
    DistinctConcat(p, o);
    var e := p + o;
    assert e[|p|..] == o;
  }

  /** An entry is the request line, the host line, the header lines, the body
      section and the separator; the body section is empty exactly when there
      is no body. */
  lemma LogEntryShape(info: RequestDebugInfo, order: seq<string>, pretty: string -> Option<string>)
    ensures var e := LogEntry(info, order, pretty);
      && RequestLine(info) <= e
      && |e| >= |Separator| && e[|e| - |Separator|..] == Separator
    ensures BodySection(info.body, pretty) == "" <==> info.body.None?
    ensures info.body.Some? ==> BodySection(info.body, pretty)[0] == '\n'
  {
    Framed(RequestLine(info), EntryMiddle(info, order, pretty), Separator);
  }

  lemma Framed(x: string, y: string, z: string)
    ensures x <= x + y + z
    ensures (x + y + z)[|x + y + z| - |z|..] == z
  {
    assert (x + y + z)[..|x|] == x;
  }
}
