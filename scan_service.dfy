/** `ScanService`: reads the header and payload lists, re-establishes the
    baseline and runs one injection test per (header, payload) pair, header by
    header, collecting the suspicious results and each header's response
    times. The progress display and the pause between requests are left out;
    what each test meets (log file, exchange, clock) comes from `io`, indexed
    by the 1-based number of the test. */
module Services {
  import opened Common
  import opened Models
  import opened Logger
  import opened Scanner
  import opened FileReader

  /** Everything a scan depends on once the baseline is established. */
  datatype Scan = Scan(
    baseline: Option<Baseline>,
    logger: Option<RequestLogger>,
    url: string,
    httpMethod: string,
    headers: seq<string>,
    payloads: seq<string>,
    io: nat -> TestIo,
    logFile: string)

  /** The arguments of the call in `run_scan`: the header receives the
      payload, no CSRF token, header mode. */
  function TestCase(s: Scan, header: string, payload: string): Injection {
    Injection(s.url, header, payload, s.httpMethod, None, DefaultCsrfField, None, false)
  }

  /** Test number `i * |payloads| + j + 1`: header `i` with payload `j`,
      starting from log file `file`. */
  function Test(s: Scan, i: nat, j: nat, file: string): Tested
    requires i < |s.headers| && j < |s.payloads|
  {
    InjectionOutcome(s.baseline, s.logger, TestCase(s, s.headers[i], s.payloads[j]),
                     s.io(i * |s.payloads| + j + 1), file)
  }

  /** The log file after the first `j` tests of header `i`. */
  function RowFile(s: Scan, i: nat, j: nat, start: string): string
    requires i < |s.headers| && j <= |s.payloads|
  {
    if j == 0 then start else Test(s, i, j - 1, RowFile(s, i, j - 1, start)).logFile
  }

  /** The results of the first `j` tests of header `i`, in payload order. */
  function RowResults(s: Scan, i: nat, j: nat, start: string): (rs: seq<Result<ScanResult, Error>>)
    requires i < |s.headers| && j <= |s.payloads|
    ensures |rs| == j
  {
    if j == 0 then []
    else RowResults(s, i, j - 1, start) + [Test(s, i, j - 1, RowFile(s, i, j - 1, start)).result]
  }

  function ResultsOf(ts: seq<Tested>): (rs: seq<Result<ScanResult, Error>>)
    ensures |rs| == |ts|
  {
    if ts == [] then [] else ResultsOf(ts[..|ts| - 1]) + [ts[|ts| - 1].result]
  }

  function FileAfter(start: string, ts: seq<Tested>): string {
    if ts == [] then start else ts[|ts| - 1].logFile
  }

  /** `ts` are the first `|ts|` tests of header `i`, each starting from the
      log file the previous one left. */
  ghost predicate RowTrace(s: Scan, i: nat, start: string, ts: seq<Tested>) {
    && i < |s.headers| && |ts| <= |s.payloads|
    && forall j :: 0 <= j < |ts| ==> ts[j] == Test(s, i, j, FileAfter(start, ts[..j]))
  }

  lemma RowTraceExtend(s: Scan, i: nat, start: string, ts: seq<Tested>, t: Tested)
    requires RowTrace(s, i, start, ts) && |ts| < |s.payloads|
    requires t == Test(s, i, |ts|, FileAfter(start, ts))
    ensures RowTrace(s, i, start, ts + [t])
  {
    var ts' := ts + [t];
    assert ts'[..|ts|] == ts;
    forall j | 0 <= j < |ts'| ensures ts'[j] == Test(s, i, j, FileAfter(start, ts'[..j])) {
      if j < |ts| {
        assert ts'[..j] == ts[..j];
      }
    }
  }

  /** A complete trace of header `i` is its row of the scan. */
  lemma {:induction false} RowTraceIsRow(s: Scan, i: nat, start: string, ts: seq<Tested>)
    requires RowTrace(s, i, start, ts)
    ensures ResultsOf(ts) == RowResults(s, i, |ts|, start)
    ensures FileAfter(start, ts) == RowFile(s, i, |ts|, start)
    decreases |ts|
  {
    if ts != [] {
      var init := ts[..|ts| - 1];
      assert RowTrace(s, i, start, init) by {
        forall j | 0 <= j < |init| ensures init[j] == Test(s, i, j, FileAfter(start, init[..j])) {
          assert init[..j] == ts[..j];
        }
      }
      RowTraceIsRow(s, i, start, init);
    }
  }

  /** The log file before the tests of header `i`. */
  function FileBefore(s: Scan, i: nat): string
    requires i <= |s.headers|
  {
    if i == 0 then s.logFile else RowFile(s, i - 1, |s.payloads|, FileBefore(s, i - 1))
  }

  /** The results of the tests of the headers before `i`, header by header. */
  function ResultsBefore(s: Scan, i: nat): (rs: seq<Result<ScanResult, Error>>)
    requires i <= |s.headers|
    ensures |rs| == i * |s.payloads|
  {
    if i == 0 then []
    else
      var rs := ResultsBefore(s, i - 1) + RowResults(s, i - 1, |s.payloads|, FileBefore(s, i - 1));
      assert |rs| == (i - 1) * |s.payloads| + |s.payloads| == i * |s.payloads|;
      rs
  }

  /** The successful results that are suspicious, in order. */
  function Suspicious(rs: seq<Result<ScanResult, Error>>): seq<ScanResult> {
    if rs == [] then []
    else
      Suspicious(rs[..|rs| - 1])
      + (match rs[|rs| - 1] case Ok(x) => (if x.suspicious then [x] else []) case Err(_) => [])
  }

  /** The durations of the successful results, in order. */
  function Durations(rs: seq<Result<ScanResult, Error>>): seq<nat> {
    if rs == [] then []
    else Durations(rs[..|rs| - 1]) + (match rs[|rs| - 1] case Ok(x) => [x.durationMs] case Err(_) => [])
  }

  /** `header_results` after the headers before `i`: each header's durations,
      inserted header by header. */
  function Timings(s: Scan, i: nat): map<string, seq<nat>>
    requires i <= |s.headers|
  {
    if i == 0 then map[]
    else Timings(s, i - 1)[s.headers[i - 1] := Durations(RowResults(s, i - 1, |s.payloads|, FileBefore(s, i - 1)))]
  }

  lemma SuspiciousAppend(rs: seq<Result<ScanResult, Error>>, r: Result<ScanResult, Error>)
    ensures Suspicious(rs + [r]) == Suspicious(rs) + (if r.Ok? && r.value.suspicious then [r.value] else [])
  {
    assert (rs + [r])[..|rs|] == rs;
  }

  lemma DurationsAppend(rs: seq<Result<ScanResult, Error>>, r: Result<ScanResult, Error>)
    ensures Durations(rs + [r]) == Durations(rs) + (if r.Ok? then [r.value.durationMs] else [])
  {
    assert (rs + [r])[..|rs|] == rs;
  }

  class ScanService {
    const scanner: SqliScanner
    const url: string
    const headers: seq<string>
    const payloads: seq<string>

    constructor Init(scanner: SqliScanner, url: string, headers: seq<string>, payloads: seq<string>)
      ensures this.scanner == scanner && this.url == url
      ensures this.headers == headers && this.payloads == payloads
    {
      this.scanner := scanner;
      this.url := url;
      this.headers := headers;
      this.payloads := payloads;
    }

    /** `ScanService::new`: a fresh scanner and the two lists read from their
        files, the header file first; a file that cannot be read is an error
        naming its path. */
    static method New(url: string, headerPath: string, headerContent: Option<string>,
                      payloadPath: string, payloadContent: Option<string>)
      returns (r: Result<ScanService, Error>)
      ensures headerContent.None? ==> r == Err(FileReadFailed(headerPath))
      ensures headerContent.Some? && payloadContent.None? ==> r == Err(FileReadFailed(payloadPath))
      ensures r.Ok? <==> headerContent.Some? && payloadContent.Some?
      ensures r.Ok? ==> fresh(r.value) && fresh(r.value.scanner)
      ensures r.Ok? ==>
        && r.value.url == url
        && r.value.headers == ReadLines(headerContent.value)
        && r.value.payloads == ReadLines(payloadContent.value)
        && r.value.scanner.baseline.None? && r.value.scanner.logger.None?
    {
      var scanner := new SqliScanner();
      var hs := ReadLinesFromFile(headerPath, headerContent);
      if hs.Err? {
        return Err(hs.error);
      }
      var ps := ReadLinesFromFile(payloadPath, payloadContent);
      if ps.Err? {
        return Err(ps.error);
      }
      var service := new ScanService.Init(scanner, url, hs.value, ps.value);
      r := Ok(service);
    }

    /** `total_tests`: one test per header and payload. */
    function TotalTests(): (n: nat)
      ensures n == 0 <==> headers == [] || payloads == []
    {
      |headers| * |payloads|
    }

    /** `establish_baseline`, delegated to the scanner for the scan's URL. */
    method EstablishBaseline(ex: Exchange) returns (r: Result<Baseline, Error>)
      modifies scanner
      ensures r == SqliScanner.GetBaseline(url, ex)
      ensures r.Ok? ==> scanner.baseline == Some(r.value)
      ensures r.Err? ==> scanner.baseline == old(scanner.baseline)
      ensures scanner.logger == old(scanner.logger)
    {
      r := scanner.EstablishBaseline(url, ex);
    }

    /** The inner loop of `run_scan` for header `i`: every payload in turn,
        each test numbered by the running counter; the successful durations
        form the header's timings and the suspicious results are appended to
        those found so far. */
    method TestHeader(ghost s: Scan, httpMethod: string, io: nat -> TestIo, i: nat,
                      found0: seq<ScanResult>, completed0: nat, logFile: string)
      returns (times: seq<nat>, found: seq<ScanResult>, completed: nat, logFile': string,
               ghost ts: seq<Tested>)
      requires s.baseline == scanner.baseline && s.logger == scanner.logger
      requires s.url == url && s.httpMethod == httpMethod && s.io == io
      requires s.headers == headers && s.payloads == payloads
      requires i < |headers| && completed0 == i * |payloads|
      ensures completed == completed0 + |payloads|
      ensures |ts| == |payloads| && RowTrace(s, i, logFile, ts)
      ensures times == Durations(ResultsOf(ts))
      ensures found == found0 + Suspicious(ResultsOf(ts))
      ensures logFile' == FileAfter(logFile, ts)
    {
      times := [];
      found := found0;
      completed := completed0;
      logFile' := logFile;
      ts := [];
      assert found0 + Suspicious([]) == found0;
      for j := 0 to |payloads|
        invariant completed == i * |payloads| + j
        invariant |ts| == j && RowTrace(s, i, logFile, ts)
        invariant logFile' == FileAfter(logFile, ts)
        invariant times == Durations(ResultsOf(ts))
        invariant found == found0 + Suspicious(ResultsOf(ts))
      {
        completed := completed + 1;
        var result, file, t := TestOne(s, httpMethod, io, i, j, completed, logFile');
        SuspiciousAppend(ResultsOf(ts), result);
        DurationsAppend(ResultsOf(ts), result);
        RowTraceExtend(s, i, logFile, ts, t);
        ts := ts + [t];
        logFile' := file;
        match result {
          case Ok(res) =>
            times := times + [res.durationMs];
            if res.suspicious {
              found := found + [res];
            }
          case Err(_) =>
        }
      }
    }

    /** One call of `test_injection` inside `run_scan`: header `i` receives
        payload `j` as test number `completed`. */
    method TestOne(ghost s: Scan, httpMethod: string, io: nat -> TestIo, i: nat, j: nat,
                   completed: nat, logFile: string)
      returns (result: Result<ScanResult, Error>, logFile': string, ghost t: Tested)
      requires s.baseline == scanner.baseline && s.logger == scanner.logger
      requires s.url == url && s.httpMethod == httpMethod && s.io == io
      requires s.headers == headers && s.payloads == payloads
      requires i < |headers| && j < |payloads| && completed == i * |payloads| + j + 1
      ensures result == Test(s, i, j, logFile).result
      ensures logFile' == Test(s, i, j, logFile).logFile
      ensures t == Test(s, i, j, logFile)
    {
      var inj := Injection(url, headers[i], payloads[j], httpMethod, None, DefaultCsrfField, None, false);
      assert inj == TestCase(s, headers[i], payloads[j]);
      var sent;
      result, sent, logFile' := scanner.TestInjection(inj, io(completed), logFile);
      t := Tested(result, sent, logFile');
    }

    /** `run_scan`: when the baseline cannot be re-established, an error and
        no test; otherwise the new baseline replaces the old one and every
        (header, payload) pair is tested once, header by header, giving the
        suspicious results and the per-header durations. */
    method RunScan(httpMethod: string, baselineEx: Exchange, io: nat -> TestIo, logFile: string)
      returns (r: Result<(seq<ScanResult>, map<string, seq<nat>>), Error>, logFile': string, ghost testsRun: nat)
      modifies scanner
      ensures scanner.logger == old(scanner.logger)
      ensures !baselineEx.Received? ==>
        r == Err(BaselineUnavailable) && logFile' == logFile && testsRun == 0
        && scanner.baseline == old(scanner.baseline)
      ensures baselineEx.Received? ==>
        var s := Scan(Some(NewBaseline(baselineEx.status, baselineEx.durationMs, baselineEx.bodySize)),
                      scanner.logger, url, httpMethod, headers, payloads, io, logFile);
        && scanner.baseline == s.baseline
        && r == Ok((Suspicious(ResultsBefore(s, |headers|)), Timings(s, |headers|)))
        && logFile' == FileBefore(s, |headers|)
        && testsRun == TotalTests()
    {
      var established := scanner.EstablishBaseline(url, baselineEx);
      if established.Err? {
        return Err(BaselineUnavailable), logFile, 0;
      }
      ghost var s := Scan(scanner.baseline, scanner.logger, url, httpMethod, headers, payloads, io, logFile);
      var suspicious: seq<ScanResult> := [];
      var headerResults: map<string, seq<nat>> := map[];
      var completed := 0;
      logFile' := logFile;
      for i := 0 to |headers|
        invariant scanner.baseline == s.baseline && scanner.logger == s.logger
        invariant completed == i * |payloads|
        invariant logFile' == FileBefore(s, i)
        invariant suspicious == Suspicious(ResultsBefore(s, i))
        invariant headerResults == Timings(s, i)
      {
        var times;
        ghost var ts;
        ghost var start := logFile';
        times, suspicious, completed, logFile', ts := TestHeader(s, httpMethod, io, i, suspicious, completed, logFile');
        RowTraceIsRow(s, i, start, ts);
        ghost var row := RowResults(s, i, |payloads|, start);
        SuspiciousConcat(ResultsBefore(s, i), row);
        headerResults := headerResults[headers[i] := times];
        MulStep(i, |payloads|);
      }
      r := Ok((suspicious, headerResults));
      testsRun := completed;
    }
  }

  // ---------------------------------------------------------------------------
  // Properties of the scan

  /** Exactly the successful suspicious results are collected, in order, and
      collecting is compositional: a failed test adds nothing. */
  lemma {:induction false} SuspiciousSpec(rs: seq<Result<ScanResult, Error>>)
    ensures forall x :: x in Suspicious(rs) ==> x.suspicious
    ensures forall x :: x in Suspicious(rs) <==> Ok(x) in rs && x.suspicious
    ensures |Suspicious(rs)| <= |rs|
  {
    if rs != [] {
      var init := rs[..|rs| - 1];
      SuspiciousSpec(init);
      assert rs == init + [rs[|rs| - 1]];
    }
  }

  lemma {:induction false} SuspiciousConcat(a: seq<Result<ScanResult, Error>>, b: seq<Result<ScanResult, Error>>)
    ensures Suspicious(a + b) == Suspicious(a) + Suspicious(b)
    decreases |b|
  {
    if b == [] {
      assert a + b == a;
    } else {
      var init := b[..|b| - 1];
      var last := b[|b| - 1];
      assert b == init + [last];
      assert a + b == (a + init) + [last];
      SuspiciousConcat(a, init);
      SuspiciousAppend(a + init, last);
      SuspiciousAppend(init, last);
    }
  }

  /** Collecting durations is compositional: a successful test adds its own
      duration and a failed one adds nothing. */
  lemma {:induction false} DurationsConcat(a: seq<Result<ScanResult, Error>>, b: seq<Result<ScanResult, Error>>)
    ensures Durations(a + b) == Durations(a) + Durations(b)
    ensures forall x :: Durations([Ok(x)]) == [x.durationMs]
    ensures forall e :: Durations([Err(e)]) == []
    decreases |b|
  {
    forall x ensures Durations([Ok(x)]) == [x.durationMs] {
      DurationsAppend([], Ok(x));
    }
    forall e ensures Durations([Err(e)]) == [] {
      DurationsAppend([], Err(e));
    }
    if b == [] {
      assert a + b == a;
    } else {
      var init := b[..|b| - 1];
      var last := b[|b| - 1];
      assert b == init + [last];
      assert a + b == (a + init) + [last];
      DurationsConcat(a, init);
      DurationsAppend(a + init, last);
      DurationsAppend(init, last);
    }
  }

  /** A header's durations: one per successful test, in payload order, so
      never more than the number of payloads. */
  lemma {:induction false} DurationsSpec(rs: seq<Result<ScanResult, Error>>)
    ensures |Durations(rs)| <= |rs|
    ensures (forall k :: 0 <= k < |rs| ==> rs[k].Ok?) ==>
      Durations(rs) == seq(|rs|, k requires 0 <= k < |rs| => rs[k].value.durationMs)
  {
    if rs != [] {
      var init := rs[..|rs| - 1];
      DurationsSpec(init);
    }
  }

  /** The `j`-th result of header `i` is the test of payload `j`, run as
      test number `i * |payloads| + j + 1`. */
  lemma {:induction false} RowResultsAt(s: Scan, i: nat, j: nat, start: string, k: nat)
    requires i < |s.headers| && j <= |s.payloads| && k < j
    ensures RowResults(s, i, j, start)[k] == Test(s, i, k, RowFile(s, i, k, start)).result
    decreases j
  {
    if k < j - 1 {
      RowResultsAt(s, i, j - 1, start, k);
    }
  }

  lemma MulStep(a: nat, p: nat)
    ensures a * p + p == (a + 1) * p
  {
  }

  lemma MulMonotonic(a: nat, b: nat, p: nat)
    requires a <= b
    ensures a * p <= b * p
  {
  }

  /** Header-major order: result `i * |payloads| + j` of the scan is the test
      of header `i` with payload `j`. */
  lemma {:induction false} ResultsBeforeAt(s: Scan, n: nat, i: nat, j: nat)
    requires n <= |s.headers| && i < n && j < |s.payloads|
    ensures i * |s.payloads| + j < |ResultsBefore(s, n)|
    ensures ResultsBefore(s, n)[i * |s.payloads| + j] == Test(s, i, j, RowFile(s, i, j, FileBefore(s, i))).result
    decreases n
  {
    var p := |s.payloads|;
    var k := i * p + j;
    var prefix := ResultsBefore(s, n - 1);
    var row := RowResults(s, n - 1, p, FileBefore(s, n - 1));
    assert ResultsBefore(s, n) == prefix + row;
    MulStep(i, p);
    if i < n - 1 {
      MulMonotonic(i + 1, n - 1, p);
      assert k < |prefix|;
      ResultsBeforeAt(s, n - 1, i, j);
    } else {
      assert k == |prefix| + j;
      RowResultsAt(s, i, p, FileBefore(s, i), j);
    }
  }

  /** `header_results` has a key for every header tested and no other. */
  lemma {:induction false} TimingsKeys(s: Scan, n: nat)
    requires n <= |s.headers|
    ensures forall h :: h in Timings(s, n) <==> h in s.headers[..n]
  {
    if n > 0 {
      TimingsKeys(s, n - 1);
      assert s.headers[..n] == s.headers[..n - 1] + [s.headers[n - 1]];
    }
  }

  /** The value for a header is the durations of its last occurrence in the
      list: a repeated header overwrites the earlier timings. */
  lemma {:induction false} TimingsLastWins(s: Scan, n: nat, i: nat)
    requires i < n <= |s.headers| && s.headers[i] !in s.headers[i + 1..n]
    ensures s.headers[i] in Timings(s, n)
    ensures Timings(s, n)[s.headers[i]] == Durations(RowResults(s, i, |s.payloads|, FileBefore(s, i)))
  {
    if i < n - 1 {
      assert s.headers[n - 1] in s.headers[i + 1..n];
      assert s.headers[i + 1..n - 1] <= s.headers[i + 1..n];
      TimingsLastWins(s, n - 1, i);
    }
  }

  /** At most one duration per payload is recorded for a header. */
  lemma {:induction false} TimingsBounded(s: Scan, n: nat)
    requires n <= |s.headers|
    ensures forall h :: h in Timings(s, n) ==> |Timings(s, n)[h]| <= |s.payloads|
  {
    if n > 0 {
      TimingsBounded(s, n - 1);
      DurationsSpec(RowResults(s, n - 1, |s.payloads|, FileBefore(s, n - 1)));
    }
  }

  /** What ends up in the log file never influences a result. */
  lemma ResultIgnoresLogFile(baseline: Option<Baseline>, logger: Option<RequestLogger>,
                             inj: Injection, io: TestIo, f: string, g: string)
    ensures InjectionOutcome(baseline, logger, inj, io, f).result == InjectionOutcome(baseline, logger, inj, io, g).result
  {
  }
}
