/** The parts of `TerminalUI` that compute something rather than print it: the
    progress bar, the colour bucket of a status code, the verbose listing of
    the headers to test and the announced number of tests. Colours, emoji and
    the printing itself are not modelled; the listing is modelled as the lines
    it prints, without colour. */
module Ui {
  import opened Text
  import opened Services

  const BarLength: nat := 25
  const Filled: char := '█'
  const Empty: char := '░'

  /** `n` copies of `c`. */
  function Repeat(c: char, n: nat): (s: string)
    ensures |s| == n && forall i :: 0 <= i < n ==> s[i] == c
  {
    if n == 0 then [] else Repeat(c, n - 1) + [c]
  }

  function Min(a: nat, b: nat): nat {
    if a <= b then a else b
  }

  /** The loop of `create_progress_bar` for `completed` filled cells: cell `i`
      is filled exactly when `i < completed`. */
  method CreateProgressBar(completed: nat) returns (bar: string)
    ensures |bar| == BarLength
    ensures forall i :: 0 <= i < BarLength ==> (bar[i] == Filled <==> i < completed)
    ensures forall i :: 0 <= i < BarLength ==> (bar[i] == Empty <==> completed <= i)
  {
    bar := [];
    for i := 0 to BarLength
      invariant |bar| == i
      invariant forall k :: 0 <= k < i ==> bar[k] == (if k < completed then Filled else Empty)
    {
      if i < completed {
        bar := bar + [Filled];
      } else {
        bar := bar + [Empty];
      }
    }
  }

  /** A bar that satisfies the contract of `CreateProgressBar` is a run of
      filled cells followed by a run of empty ones, the filled part as long as
      `completed` allows: all filled from 25 on, all empty at 0. */
  lemma ProgressBarShape(completed: nat, bar: string)
    requires |bar| == BarLength
    requires forall i :: 0 <= i < BarLength ==> bar[i] == (if i < completed then Filled else Empty)
    ensures bar == Repeat(Filled, Min(completed, BarLength)) + Repeat(Empty, BarLength - Min(completed, BarLength))
    ensures completed >= BarLength ==> bar == Repeat(Filled, BarLength)
    ensures completed == 0 ==> bar == Repeat(Empty, BarLength)
  {
    var n := Min(completed, BarLength);
    var reference := Repeat(Filled, n) + Repeat(Empty, BarLength - n);
    assert forall i :: 0 <= i < BarLength ==> bar[i] == reference[i];
  }

  // ---------------------------------------------------------------------------
  // Status colours

  /** The colour classes of `print_vulnerability_details`: green, yellow, red
      and white. */
  datatype Bucket = Success | ClientError | ServerError | Other

  /** The if-chain choosing the colour of a status code. */
  function StatusBucket(status: int): (b: Bucket)
    ensures b == Success <==> 200 <= status < 300
    ensures b == ClientError <==> 400 <= status < 500
    ensures b == ServerError <==> 500 <= status
    ensures b == Other <==> status < 200 || 300 <= status < 400
  {
    if status >= 200 && status < 300 then Success
    else if status >= 400 && status < 500 then ClientError
    else if status >= 500 then ServerError
    else Other
  }

  // ---------------------------------------------------------------------------
  // The verbose header listing

  const ListingLimit: nat := 12
  const ListingShown: nat := 10

  /** The line for header number `i` (counted from 0), shown from 1. */
  function ListingLine(i: nat, header: string): string {
    "   " + NatToString(i + 1) + ". " + header
  }

  /** The line announcing the headers left out. */
  function MoreLine(n: nat): string {
    "   ... mais " + NatToString(n) + " headers"
  }

  /** The loop of `print_preparation_info` listing the headers: every header,
      unless there are more than 12, in which case the first 10 and a line
      telling how many more there are. */
  method HeaderListing(headers: seq<string>) returns (lines: seq<string>)
    ensures |headers| <= ListingLimit ==>
      |lines| == |headers| && forall k :: 0 <= k < |headers| ==> lines[k] == ListingLine(k, headers[k])
    ensures |headers| > ListingLimit ==>
      && |lines| == ListingShown + 1
      && (forall k :: 0 <= k < ListingShown ==> lines[k] == ListingLine(k, headers[k]))
      && lines[ListingShown] == MoreLine(|headers| - ListingShown)
  {
    lines := [];
    var i := 0;
    while i < |headers|
      invariant 0 <= i <= |headers|
      invariant |headers| > ListingLimit ==> i < ListingShown
      invariant |lines| == i
      invariant forall k :: 0 <= k < i ==> lines[k] == ListingLine(k, headers[k])
    {
      lines := lines + [ListingLine(i, headers[i])];
      if i >= ListingShown - 1 && |headers| > ListingLimit {
        lines := lines + [MoreLine(|headers| - ListingShown)];
        return;
      }
      i := i + 1;
    }
  }

  // ---------------------------------------------------------------------------
  // The announced total

  /** The total `print_preparation_info` announces: one test per header and
      payload, the number the scan service runs. */
  function AnnouncedTotal(headersCount: nat, payloadsCount: nat): (n: nat)
    ensures n == 0 <==> headersCount == 0 || payloadsCount == 0
    ensures payloadsCount > 0 ==> n >= headersCount
    ensures headersCount > 0 ==> n >= payloadsCount
  {
    headersCount * payloadsCount
  }

  lemma AnnouncedTotalIsScanTotal(service: ScanService)
    ensures AnnouncedTotal(|service.headers|, |service.payloads|) == service.TotalTests()
  {
  }
}
