/** Percent-encoding of a payload for an `application/x-www-form-urlencoded`
    body, as the scanner does it: the `urlencoding` crate's `encode` (every
    UTF-8 byte outside the unreserved set of section 2.3 of RFC 3986 becomes
    `%XY` with upper-case hexadecimal digits, section 2.1 of RFC 3986),
    followed by three textual substitutions. */
module FormEncoding {
  import opened Text

  /** The unreserved characters of section 2.3 of RFC 3986, as byte values. */
  predicate Unreserved(b: int) {
    || 'A' as int <= b <= 'Z' as int
    || 'a' as int <= b <= 'z' as int
    || '0' as int <= b <= '9' as int
    || b == '-' as int || b == '.' as int || b == '_' as int || b == '~' as int
  }

  /** Upper-case hexadecimal digit for `0 <= d < 16`. */
  function HexDigit(d: int): (c: char)
    requires 0 <= d < 16
    ensures c != '%' && c != '+' && c != ';' && c != ' '
  {
    if d < 10 then ('0' as int + d) as char else ('A' as int + d - 10) as char
  }

  predicate IsHexDigit(c: char) {
    '0' <= c <= '9' || 'A' <= c <= 'F' || 'a' <= c <= 'f'
  }

  function HexValue(c: char): (d: int)
    requires IsHexDigit(c)
    ensures 0 <= d < 16
  {
    if c <= '9' then c as int - '0' as int
    else if c <= 'F' then c as int - 'A' as int + 10
    else c as int - 'a' as int + 10
  }

  lemma HexRoundTrip(d: int)
    requires 0 <= d < 16
    ensures IsHexDigit(HexDigit(d)) && HexValue(HexDigit(d)) == d
  {
  }

  /** The byte value 0x20 (space) and 0x3B (`;`) are the two the scanner
      substitutes back after encoding. */
  const Space: byte := 0x20
  const Semicolon: byte := 0x3B

  /** The text a single byte becomes after `stage` of the substitutions:
      stage 0 is the plain percent-encoding, stage 1 has also turned `%20`
      into `+`, stage 2 has also turned `%3B` into `;`. */
  function EncodeByte(stage: nat, b: byte): string {
    if stage >= 1 && b == Space then "+"
    else if stage >= 2 && b == Semicolon then ";"
    else if Unreserved(b) then [b as char]
    else ['%', HexDigit(b / 16), HexDigit(b % 16)]
  }

  function EncodeBytes(stage: nat, bs: seq<byte>): string {
    if bs == [] then [] else EncodeByte(stage, bs[0]) + EncodeBytes(stage, bs[1..])
  }

  /** `urlencoding::encode(payload)`. */
  function PercentEncode(payload: string): string {
    EncodeBytes(0, Utf8(payload))
  }

  /** The value the scanner places in the form body for a payload: the
      percent-encoding followed by `.replace("%20", "+")`, `.replace("%3B", ";")`
      and `.replace("%2D%2D", "--")`. */
  function FormValue(payload: string): string {
    Replace(Replace(Replace(PercentEncode(payload), "%20", "+"), "%3B", ";"), "%2D%2D", "--")
  }

  // ---------------------------------------------------------------------------
  // The chunk structure of an encoded string

  /** A piece of encoded text standing for one byte: one character other than
      `%`, or `%` followed by two hexadecimal digits. */
  predicate Chunk(c: string) {
    || (|c| == 1 && c[0] != '%')
    || (|c| == 3 && c[0] == '%' && IsHexDigit(c[1]) && IsHexDigit(c[2]))
  }

  lemma EncodeByteIsChunk(stage: nat, b: byte)
    ensures Chunk(EncodeByte(stage, b))
  {
    HexRoundTrip(b / 16);
    HexRoundTrip(b % 16);
  }

  /** A three-character encoding `%XY` spells out the byte it came from. */
  lemma ChunkValue(stage: nat, b: byte)
    ensures var c := EncodeByte(stage, b);
      |c| == 3 ==> IsHexDigit(c[1]) && IsHexDigit(c[2]) && HexValue(c[1]) * 16 + HexValue(c[2]) == b
  {
    HexRoundTrip(b / 16);
    HexRoundTrip(b % 16);
  }

  /** A chunk that does not begin the pattern passes through `replace` unchanged. */
  lemma ReplaceSkipsChunk(c: string, t: string, pat: string, rep: string)
    requires Chunk(c) && |pat| >= 3 && pat[0] == '%' && c != pat[..3]
    ensures Replace(c + t, pat, rep) == c + Replace(t, pat, rep)
  {
    var s := c + t;
    if |c| == 1 {
      assert s[0] != pat[0];
      assert s[1..] == t;
    } else {
      var s1, s2 := [c[1]] + ([c[2]] + t), [c[2]] + t;
      assert s[..3] == c;
      assert s[..3] != pat[..3];
      assert Replace(s, pat, rep) == [c[0]] + Replace(s[1..], pat, rep);
      assert s[1..] == s1;
      assert s1[0] == c[1] != '%';
      assert s1[1..] == s2;
      assert Replace(s1, pat, rep) == [c[1]] + Replace(s2, pat, rep);
      assert s2[0] == c[2] != '%';
      assert s2[1..] == t;
      assert Replace(s2, pat, rep) == [c[2]] + Replace(t, pat, rep);
      assert c == [c[0]] + [c[1]] + [c[2]];
    }
  }

  /** A chunk equal to a three-character pattern is replaced. */
  lemma ReplaceHitsChunk(c: string, t: string, pat: string, rep: string)
    requires |pat| == 3 && c == pat
    ensures Replace(c + t, pat, rep) == rep + Replace(t, pat, rep)
  {
    assert (c + t)[|pat|..] == t;
  }

  /** Pattern and replacement applied in stage `stage` of `FormValue`. */
  function StagePattern(stage: nat): string requires stage < 2 {
    if stage == 0 then "%20" else "%3B"
  }

  function StageReplacement(stage: nat): string requires stage < 2 {
    if stage == 0 then "+" else ";"
  }

  lemma StageChunk(stage: nat, b: byte)
    requires stage < 2
    ensures EncodeByte(stage, b) == StagePattern(stage) ==> EncodeByte(stage + 1, b) == StageReplacement(stage)
    ensures EncodeByte(stage, b) != StagePattern(stage) ==> EncodeByte(stage + 1, b) == EncodeByte(stage, b)
  {
    ChunkValue(stage, b);
  }

  /** One textual substitution turns the encoding of one stage into the next. */
  lemma {:induction false} ReplaceStage(stage: nat, bs: seq<byte>)
    requires stage < 2
    ensures Replace(EncodeBytes(stage, bs), StagePattern(stage), StageReplacement(stage))
            == EncodeBytes(stage + 1, bs)
  {
    if bs != [] {
      var c := EncodeByte(stage, bs[0]);
      var t := EncodeBytes(stage, bs[1..]);
      EncodeByteIsChunk(stage, bs[0]);
      StageChunk(stage, bs[0]);
      ReplaceStage(stage, bs[1..]);
      if c == StagePattern(stage) {
        ReplaceHitsChunk(c, t, StagePattern(stage), StageReplacement(stage));
      } else {
        assert StagePattern(stage)[..3] == StagePattern(stage);
        ReplaceSkipsChunk(c, t, StagePattern(stage), StageReplacement(stage));
      }
    }
  }

  /** The third substitution never fires: `-` is unreserved, so `%2D` is
      never produced. */
  lemma {:induction false} DashReplaceIsIdentity(bs: seq<byte>)
    ensures Replace(EncodeBytes(2, bs), "%2D%2D", "--") == EncodeBytes(2, bs)
  {
    if bs != [] {
      var c := EncodeByte(2, bs[0]);
      EncodeByteIsChunk(2, bs[0]);
      ChunkValue(2, bs[0]);
      assert "%2D%2D"[..3] == "%2D";
      ReplaceSkipsChunk(c, EncodeBytes(2, bs[1..]), "%2D%2D", "--");
      DashReplaceIsIdentity(bs[1..]);
    }
  }

  /** The three substitutions together amount to encoding every byte
      directly: a space as `+`, `;` as itself, unreserved bytes as themselves
      and every other byte as `%XY`. */
  lemma FormValueIsBytewise(payload: string)
    ensures FormValue(payload) == EncodeBytes(2, Utf8(payload))
  {
    var bs := Utf8(payload);
    var e0 := PercentEncode(payload);
    var e1 := Replace(e0, "%20", "+");
    var e2 := Replace(e1, "%3B", ";");
    assert e0 == EncodeBytes(0, bs);
    ReplaceStage(0, bs);
    assert e1 == EncodeBytes(1, bs);
    ReplaceStage(1, bs);
    assert e2 == EncodeBytes(2, bs);
    DashReplaceIsIdentity(bs);
    assert FormValue(payload) == Replace(e2, "%2D%2D", "--");
  }

  // ---------------------------------------------------------------------------
  // What the form value looks like

  /** Characters that can appear in a form value. */
  predicate FormChar(c: char) {
    Unreserved(c as int) || c == '+' || c == ';' || c == '%'
  }

  lemma {:induction false} EncodedChars(bs: seq<byte>)
    ensures forall i :: 0 <= i < |EncodeBytes(2, bs)| ==> FormChar(EncodeBytes(2, bs)[i])
  {
    if bs != [] {
      EncodedChars(bs[1..]);
      var c := EncodeByte(2, bs[0]);
      var t := EncodeBytes(2, bs[1..]);
      assert forall i :: 0 <= i < |c| ==> FormChar(c[i]);
      assert forall i :: |c| <= i < |c + t| ==> (c + t)[i] == t[i - |c|];
    }
  }

  /** A three-character pattern that starts with `%` and that no byte encodes
      to never occurs in an encoded string, wherever one looks. */
  lemma {:induction false} PatternAbsent(bs: seq<byte>, pat: string)
    requires |pat| == 3 && pat[0] == '%'
    requires forall b: byte :: EncodeByte(2, b) != pat
    ensures !Contains(EncodeBytes(2, bs), pat)
  {
    if bs != [] {
      PatternAbsent(bs[1..], pat);
      var c := EncodeByte(2, bs[0]);
      var t := EncodeBytes(2, bs[1..]);
      EncodeByteIsChunk(2, bs[0]);
      forall i: nat | i <= |c + t| ensures !OccursAt(c + t, pat, i) {
        if i >= |c| {
          assert !OccursAt(t, pat, i - |c|);
          if i + 3 <= |c + t| {
            assert (c + t)[i..i + 3] == t[i - |c|..i - |c| + 3];
          }
        } else if i == 0 {
          if |c| == 1 {
            assert (c + t)[0] != pat[0];
          } else {
            assert (c + t)[..3] == c;
          }
        } else {
          assert (c + t)[i] == c[i] != '%';
        }
      }
    }
  }

  /** The form value of any payload holds no space and neither of the two
      escapes `%20` and `%3B` that the scanner substitutes back, and it is
      plain ASCII, so its byte length is its length. */
  lemma FormValueShape(payload: string)
    ensures ' ' !in FormValue(payload)
    ensures !Contains(FormValue(payload), "%20")
    ensures !Contains(FormValue(payload), "%3B")
    ensures IsAscii(FormValue(payload))
  {
    var bs := Utf8(payload);
    FormValueIsBytewise(payload);
    EncodedChars(bs);
    forall b: byte ensures EncodeByte(2, b) != "%20" && EncodeByte(2, b) != "%3B" {
      ChunkValue(2, b);
    }
    PatternAbsent(bs, "%20");
    PatternAbsent(bs, "%3B");
  }

  // ---------------------------------------------------------------------------
  // Decoding: what a form parser recovers

  /** Decoding of a form value as the `application/x-www-form-urlencoded`
      parser of the WHATWG URL standard does it: `+` is a space, `%` followed
      by two hexadecimal digits is that byte, anything else stands for itself. */
  function FormDecode(s: string): seq<int> {
    if s == [] then []
    else if s[0] == '+' then [0x20] + FormDecode(s[1..])
    else if s[0] == '%' && |s| >= 3 && IsHexDigit(s[1]) && IsHexDigit(s[2]) then
      [HexValue(s[1]) * 16 + HexValue(s[2])] + FormDecode(s[3..])
    else [s[0] as int] + FormDecode(s[1..])
  }

  lemma DecodeChunk(b: byte, t: string)
    ensures FormDecode(EncodeByte(2, b) + t) == [b] + FormDecode(t)
  {
    var c := EncodeByte(2, b);
    var s := c + t;
    if |c| == 1 {
      assert s[1..] == t;
    } else {
      HexRoundTrip(b / 16);
      HexRoundTrip(b % 16);
      assert s[1] == HexDigit(b / 16) && s[2] == HexDigit(b % 16);
      assert s[3..] == t;
    }
  }

  lemma {:induction false} DecodeEncodeBytes(bs: seq<byte>)
    ensures FormDecode(EncodeBytes(2, bs)) == bs
  {
    if bs != [] {
      DecodeChunk(bs[0], EncodeBytes(2, bs[1..]));
      DecodeEncodeBytes(bs[1..]);
    }
  }

  /** A form parser recovers exactly the payload's UTF-8 bytes from the form value. */
  lemma FormValueRoundTrip(payload: string)
    ensures FormDecode(FormValue(payload)) == Utf8(payload)
  {
    FormValueIsBytewise(payload);
    DecodeEncodeBytes(Utf8(payload));
  }
}
