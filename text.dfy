/** The handful of `str` operations of Rust's standard library that the core
    relies on, over strings as sequences of Unicode scalar values: substring
    search, `split(..).next()` / `split(..).nth(1)`, `replace`, decimal
    rendering of integers (`to_string`) and the UTF-8 byte length (`len`). */
module Text {
  import opened Common

  // ---------------------------------------------------------------------------
  // Substring search

  /** `pat` occurs in `s` starting at index `i`. */
  predicate OccursAt(s: string, pat: string, i: nat) {
    i + |pat| <= |s| && s[i..i + |pat|] == pat
  }

  predicate Contains(s: string, pat: string) {
    exists i: nat | i <= |s| :: OccursAt(s, pat, i)
  }

  /** The first index at or after `k` where `pat` occurs (Rust's `find` from `k`). */
  function FindFrom(s: string, pat: string, k: nat): (r: Option<nat>)
    requires k <= |s|
    ensures r.Some? ==> k <= r.value && OccursAt(s, pat, r.value)
    ensures r.Some? ==> forall i: nat :: k <= i < r.value ==> !OccursAt(s, pat, i)
    ensures r.None? ==> forall i: nat :: k <= i ==> !OccursAt(s, pat, i)
    decreases |s| - k
  {
    if OccursAt(s, pat, k) then Some(k)
    else if k == |s| then None
    else FindFrom(s, pat, k + 1)
  }

  function FindFirst(s: string, pat: string): (r: Option<nat>)
    ensures r.None? <==> !Contains(s, pat)
    ensures r.Some? ==> OccursAt(s, pat, r.value)
    ensures r.Some? ==> forall i: nat :: i < r.value ==> !OccursAt(s, pat, i)
  {
    FindFrom(s, pat, 0)
  }

  // ---------------------------------------------------------------------------
  // Splitting

  /** `s.split(c).next()`: the text before the first `c`, or all of `s`. */
  function UpTo(s: string, c: char): (r: string)
    ensures r <= s && c !in r
    ensures |r| < |s| ==> s[|r|] == c
  {
    if s == [] then []
    else if s[0] == c then []
    else [s[0]] + UpTo(s[1..], c)
  }

  /** `s.split(sep).next()` for a non-empty separator: the text before the
      first occurrence of `sep`, or all of `s`. */
  function BeforeFirst(s: string, sep: string): (r: string)
    requires |sep| > 0
    ensures r <= s && !Contains(r, sep)
    ensures |r| < |s| ==> OccursAt(s, sep, |r|)
    ensures |r| == |s| <==> !Contains(s, sep)
  {
    match FindFirst(s, sep)
    case None => s
    case Some(i) =>
      assert forall k: nat :: OccursAt(s[..i], sep, k) ==> OccursAt(s, sep, k) by {
        forall k: nat | OccursAt(s[..i], sep, k) ensures OccursAt(s, sep, k) {
          assert s[..i][k..k + |sep|] == s[k..k + |sep|];
        }
      }
      s[..i]
  }

  /** The text after the first occurrence of `sep`, if there is one. */
  function AfterFirst(s: string, sep: string): (r: Option<string>)
    requires |sep| > 0
    ensures r.None? <==> !Contains(s, sep)
    ensures r.Some? ==> exists i: nat :: OccursAt(s, sep, i) && s[i + |sep|..] == r.value
  {
    match FindFirst(s, sep)
    case None => None
    case Some(i) => Some(s[i + |sep|..])
  }

  /** `s.split(sep).nth(1)`: the piece between the first and the second
      occurrence of `sep` (or the end of `s`); `None` when `sep` does not occur. */
  function SecondPiece(s: string, sep: string): (r: Option<string>)
    requires |sep| > 0
    ensures r.None? <==> !Contains(s, sep)
    ensures r.Some? ==> !Contains(r.value, sep) && r.value <= AfterFirst(s, sep).value
  {
    match AfterFirst(s, sep)
    case None => None
    case Some(rest) => Some(BeforeFirst(rest, sep))
  }

  /** No occurrence of `sep` starts inside `s.split(sep).next()`. */
  lemma BeforeFirstNoEarlier(s: string, sep: string)
    requires |sep| > 0
    ensures forall k: nat :: k < |BeforeFirst(s, sep)| ==> !OccursAt(s, sep, k)
  {
  }

  /** The text `AfterFirst` returns follows the first occurrence of `sep`:
      `sep` occurs right before it and nowhere earlier. */
  lemma AfterFirstIsFirst(s: string, sep: string)
    requires |sep| > 0 && Contains(s, sep)
    ensures var r := AfterFirst(s, sep).value; var i := |s| - |r| - |sep|;
      i >= 0 && OccursAt(s, sep, i) && forall j: nat :: j < i ==> !OccursAt(s, sep, j)
  {
  }

  /** `split(sep).nth(1)` runs from the first `sep` up to the next `sep`, or
      to the end when there is none. */
  lemma SecondPieceReachesNext(s: string, sep: string)
    requires |sep| > 0 && Contains(s, sep)
    ensures var r := SecondPiece(s, sep).value; var rest := AfterFirst(s, sep).value;
      && (forall k: nat :: k < |r| ==> !OccursAt(rest, sep, k))
      && (|r| < |rest| ==> OccursAt(rest, sep, |r|))
  {
    BeforeFirstNoEarlier(AfterFirst(s, sep).value, sep);
  }

  // ---------------------------------------------------------------------------
  // The host part of a URL

  /** `h` is the start of `rest` up to the first `/` or the first `://`,
      whichever comes first (or all of `rest`). */
  predicate HostSegment(rest: string, h: string) {
    && h <= rest
    && '/' !in h
    && (forall k: nat :: k < |h| ==> !OccursAt(rest, "://", k))
    && (|h| < |rest| ==> rest[|h|] == '/' || OccursAt(rest, "://", |h|))
  }

  /** `rest.split("://").next()` and then `.split('/').next()` give the host
      segment. */
  lemma HostSegmentOf(rest: string)
    ensures HostSegment(rest, UpTo(BeforeFirst(rest, "://"), '/'))
  {
    var piece := BeforeFirst(rest, "://");
    BeforeFirstNoEarlier(rest, "://");
    var h := UpTo(piece, '/');
    assert h <= piece <= rest;
    if |h| < |piece| {
      assert rest[|h|] == piece[|h|] == '/';
    }
  }

  /** The host segment is determined by `rest`. */
  lemma HostSegmentUnique(rest: string, h1: string, h2: string)
    requires HostSegment(rest, h1) && HostSegment(rest, h2)
    ensures h1 == h2
  {
    HostSegmentNotLonger(rest, h1, h2);
    HostSegmentNotLonger(rest, h2, h1);
  }

  lemma HostSegmentNotLonger(rest: string, h1: string, h2: string)
    requires HostSegment(rest, h1) && HostSegment(rest, h2)
    ensures |h2| <= |h1|
  {
  }

  // ---------------------------------------------------------------------------
  // Replacement

  /** `s.replace(pat, rep)`: every non-overlapping occurrence of `pat`, found
      from left to right, replaced by `rep`. */
  function Replace(s: string, pat: string, rep: string): string
    requires |pat| > 0
    decreases |s|
  {
    if s == [] then []
    else if pat <= s then rep + Replace(s[|pat|..], pat, rep)
    else [s[0]] + Replace(s[1..], pat, rep)
  }

  /** Replacing a pattern that does not occur changes nothing. */
  lemma {:induction false} ReplaceAbsent(s: string, pat: string, rep: string)
    requires |pat| > 0 && !Contains(s, pat)
    ensures Replace(s, pat, rep) == s
    decreases |s|
  {
    if s != [] {
      assert !OccursAt(s, pat, 0);
      assert !(pat <= s);
      forall i: nat | OccursAt(s[1..], pat, i) ensures OccursAt(s, pat, i + 1) {
        assert s[1..][i..i + |pat|] == s[i + 1..i + 1 + |pat|];
      }
      ReplaceAbsent(s[1..], pat, rep);
    }
  }

  // ---------------------------------------------------------------------------
  // Decimal numbers

  predicate IsDigit(c: char) { '0' <= c <= '9' }

  predicate AllDigits(s: string) { forall i :: 0 <= i < |s| ==> IsDigit(s[i]) }

  function DigitChar(d: nat): (c: char)
    requires d < 10
    ensures IsDigit(c) && c as int - '0' as int == d
  {
    ('0' as int + d) as char
  }

  /** `n.to_string()` for an unsigned integer. */
  function NatToString(n: nat): (r: string)
    ensures |r| > 0 && AllDigits(r)
    ensures n == 0 <==> r == "0"
    ensures n > 0 ==> r[0] != '0'
  {
    if n < 10 then [DigitChar(n)]
    else NatToString(n / 10) + [DigitChar(n % 10)]
  }

  function DigitsValue(s: string): nat
    requires AllDigits(s)
  {
    if s == [] then 0
    else DigitsValue(s[..|s| - 1]) * 10 + (s[|s| - 1] as int - '0' as int)
  }

  /** Parsing a non-empty string of decimal digits (Rust's `str::parse::<usize>`
      without the optional `+` sign and without the width limit). */
  function ParseNat(s: string): Option<nat> {
    if |s| > 0 && AllDigits(s) then Some(DigitsValue(s)) else None
  }

  /** Rendering a number in decimal and parsing it back gives the number. */
  lemma {:induction false} ParseNatToString(n: nat)
    ensures ParseNat(NatToString(n)) == Some(n)
  {
    var r := NatToString(n);
    if n < 10 {
      assert r[..|r| - 1] == [];
      assert DigitsValue(r) == DigitsValue([]) * 10 + (r[0] as int - '0' as int);
    } else {
      ParseNatToString(n / 10);
      assert r[..|r| - 1] == NatToString(n / 10);
      assert r[|r| - 1] as int - '0' as int == n % 10;
    }
  }

  // ---------------------------------------------------------------------------
  // UTF-8

  type byte = x: int | 0 <= x < 256

  /** The UTF-8 encoding of one Unicode scalar value (section 3 of RFC 3629). */
  function CharUtf8(c: char): (r: seq<byte>)
    ensures 1 <= |r| <= 4
    ensures |r| == 1 <==> c as int < 0x80
    ensures |r| == 1 ==> r[0] == c as int
    ensures |r| > 1 ==> forall k :: 0 <= k < |r| ==> r[k] >= 0x80
  {
    var cp := c as int;
    if cp < 0x80 then [cp]
    else if cp < 0x800 then [0xC0 + cp / 0x40, 0x80 + cp % 0x40]
    else if cp < 0x1_0000 then [0xE0 + cp / 0x1000, 0x80 + (cp / 0x40) % 0x40, 0x80 + cp % 0x40]
    else [0xF0 + cp / 0x4_0000 % 8, 0x80 + (cp / 0x1000) % 0x40, 0x80 + (cp / 0x40) % 0x40, 0x80 + cp % 0x40]
  }

  /** `s.as_bytes()`. */
  function Utf8(s: string): seq<byte> {
    if s == [] then [] else CharUtf8(s[0]) + Utf8(s[1..])
  }

  /** `s.len()`: the length of a Rust string counts UTF-8 bytes. */
  function ByteLen(s: string): nat {
    |Utf8(s)|
  }

  predicate IsAscii(s: string) { forall i :: 0 <= i < |s| ==> s[i] as int < 0x80 }

  /** For ASCII text the byte length is the number of characters. */
  lemma {:induction false} AsciiByteLen(s: string)
    requires IsAscii(s)
    ensures ByteLen(s) == |s|
    ensures Utf8(s) == seq(|s|, i requires 0 <= i < |s| => s[i] as int)
  {
    if s != [] {
      AsciiByteLen(s[1..]);
    }
  }
}
