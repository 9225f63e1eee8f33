/** The line filter of `FileReader::read_lines_from_file`: the file's content
    is split with `str::lines`, lines that are empty or start with `#` are
    dropped, and the survivors are trimmed with `str::trim`. Reading the file
    itself is I/O: the content (or the failure to read it) is an input. */
module FileReader {
  import opened Common
  import opened Text

  /** The characters with the Unicode `White_Space` property, which is what
      `str::trim` removes from both ends. */
  predicate IsWhitespace(c: char) {
    || c == ' ' || ('\t' <= c <= '\r')
    || c == '\U{0085}' || c == '\U{00A0}' || c == '\U{1680}'
    || ('\U{2000}' <= c <= '\U{200A}')
    || c == '\U{2028}' || c == '\U{2029}' || c == '\U{202F}' || c == '\U{205F}' || c == '\U{3000}'
  }

  predicate AllWhitespace(s: string) {
    forall i :: 0 <= i < |s| ==> IsWhitespace(s[i])
  }

  /** No whitespace at either end. */
  predicate IsTrimmed(s: string) {
    s == [] || (!IsWhitespace(s[0]) && !IsWhitespace(s[|s| - 1]))
  }

  /** `str::trim_start`: drops the whitespace at the front. */
  function TrimStart(s: string): string {
    if s != [] && IsWhitespace(s[0]) then TrimStart(s[1..]) else s
  }

  /** `str::trim_end`: drops the whitespace at the back. */
  function TrimEnd(s: string): string {
    if s != [] && IsWhitespace(s[|s| - 1]) then TrimEnd(s[..|s| - 1]) else s
  }

  /** `str::trim`. */
  function Trim(s: string): string {
    TrimEnd(TrimStart(s))
  }

  /** The front trimmed away is whitespace and what remains is a suffix not
      starting with whitespace. */
  lemma {:induction false} TrimStartSpec(s: string)
    ensures var r := TrimStart(s);
      && |r| <= |s| && r == s[|s| - |r|..]
      && AllWhitespace(s[..|s| - |r|])
      && (r == [] || !IsWhitespace(r[0]))
  {
    if s != [] && IsWhitespace(s[0]) {
      TrimStartSpec(s[1..]);
      var r := TrimStart(s[1..]);
      assert s[..|s| - |r|] == [s[0]] + s[1..][..|s| - 1 - |r|];
    }
  }

  /** The back trimmed away is whitespace and what remains is a prefix not
      ending with whitespace. */
  lemma {:induction false} TrimEndSpec(s: string)
    ensures var r := TrimEnd(s);
      && |r| <= |s| && r == s[..|r|]
      && AllWhitespace(s[|r|..])
      && (r == [] || !IsWhitespace(r[|r| - 1]))
  {
    if s != [] && IsWhitespace(s[|s| - 1]) {
      TrimEndSpec(s[..|s| - 1]);
      var r := TrimEnd(s[..|s| - 1]);
      assert s[|r|..] == s[..|s| - 1][|r|..] + [s[|s| - 1]];
    }
  }

  /** `str::trim`: `s` is the result framed by whitespace on both sides, and
      the result has no whitespace at either end. */
  lemma TrimSpec(s: string)
    ensures IsTrimmed(Trim(s))
    ensures exists i: nat, j: nat | i <= j <= |s| ::
      Trim(s) == s[i..j] && AllWhitespace(s[..i]) && AllWhitespace(s[j..])
  {
    var a := TrimStart(s);
    var r := TrimEnd(a);
    TrimStartSpec(s);
    TrimEndSpec(a);
    var i := |s| - |a|;
    assert r == s[i..i + |r|];
    assert s[i + |r|..] == a[|r|..];
  }

  /** A line of `str::lines` loses its terminating `\n` and one `\r` just
      before it. */
  function StripCr(l: string): string {
    if |l| > 0 && l[|l| - 1] == '\r' then l[..|l| - 1] else l
  }

  /** `str::lines`: the pieces between line feeds, a `\r` before a line feed
      removed; a final line feed does not start another line, and an empty
      text has no lines at all. */
  function Lines(s: string): seq<string>
    decreases |s|
  {
    if s == [] then []
    else
      var l := UpTo(s, '\n');
      if |l| == |s| then [s]
      else [StripCr(l)] + Lines(s[|l| + 1..])
  }

  /** The filter `!line.is_empty() && !line.starts_with('#')`, applied to the
      line as split, before it is trimmed. */
  predicate Keep(line: string) {
    line != [] && line[0] != '#'
  }

  /** `.filter(..).map(|line| line.trim().to_string())`. */
  function FilterTrim(ls: seq<string>): seq<string> {
    if ls == [] then [] else KeptLine(ls[0]) + FilterTrim(ls[1..])
  }

  /** What one line contributes to the output. */
  function KeptLine(line: string): seq<string> {
    if Keep(line) then [Trim(line)] else []
  }

  /** The list `read_lines_from_file` returns for a file's content. */
  function ReadLines(content: string): seq<string> {
    FilterTrim(Lines(content))
  }

  /** `read_lines_from_file`: a failed read is reported with the path. */
  function ReadLinesFromFile(path: string, content: Option<string>): (r: Result<seq<string>, Error>)
    ensures content.None? ==> r == Err(FileReadFailed(path))
    ensures content.Some? ==> r == Ok(ReadLines(content.value))
  {
    match content
    case None => Err(FileReadFailed(path))
    case Some(c) => Ok(ReadLines(c))
  }

  // ---------------------------------------------------------------------------
  // Properties of the filter

  /** The filter and the trimming go line by line, in order: the output for
      two blocks of lines is the output for the first followed by the output
      for the second. With `FilterTrimMembers` this pins the output down. */
  lemma {:induction false} FilterTrimSplit(a: seq<string>, b: seq<string>)
    ensures FilterTrim(a + b) == FilterTrim(a) + FilterTrim(b)
  {
    if a == [] {
      assert a + b == b;
    } else {
      assert (a + b)[0] == a[0];
      assert (a + b)[1..] == a[1..] + b;
      FilterTrimSplit(a[1..], b);
    }
  }

  /** A string is returned exactly when it is the trimmed form of a line that
      passes the filter, and there are never more results than lines. */
  lemma {:induction false} FilterTrimMembers(ls: seq<string>)
    ensures |FilterTrim(ls)| <= |ls|
    ensures forall x :: x in FilterTrim(ls) <==> exists i :: 0 <= i < |ls| && Keep(ls[i]) && x == Trim(ls[i])
  {
    if ls != [] {
      var tl := ls[1..];
      FilterTrimMembers(tl);
      forall x ensures x in FilterTrim(ls) <==> exists i :: 0 <= i < |ls| && Keep(ls[i]) && x == Trim(ls[i]) {
        if x in FilterTrim(tl) {
          var i :| 0 <= i < |tl| && Keep(tl[i]) && x == Trim(tl[i]);
          assert ls[i + 1] == tl[i];
        }
        if exists i :: 0 <= i < |ls| && Keep(ls[i]) && x == Trim(ls[i]) {
          var i :| 0 <= i < |ls| && Keep(ls[i]) && x == Trim(ls[i]);
          if i > 0 {
            assert tl[i - 1] == ls[i];
          }
        }
      }
    }
  }

  /** Every element of the output is trimmed. */
  lemma {:induction false} FilterTrimTrims(ls: seq<string>)
    ensures forall k :: 0 <= k < |FilterTrim(ls)| ==> IsTrimmed(FilterTrim(ls)[k])
  {
    if ls != [] {
      var out, head, rest := FilterTrim(ls), KeptLine(ls[0]), FilterTrim(ls[1..]);
      FilterTrimTrims(ls[1..]);
      TrimSpec(ls[0]);
      forall k | 0 <= k < |out| ensures IsTrimmed(out[k]) {
        if k < |head| {
          assert out[k] == Trim(ls[0]);
        } else {
          assert out[k] == rest[k - |head|];
        }
      }
    }
  }

  /** A line is judged before trimming: a line of whitespace only passes and
      becomes the empty string. */
  lemma WhitespaceLineBecomesEmpty(line: string)
    requires line != [] && AllWhitespace(line)
    ensures FilterTrim([line]) == [""]
  {
    TrimStartDrops(line, []);
    assert line + [] == line;
    assert Trim(line) == [];
    assert FilterTrim([line][1..]) == [];
  }

  /** An indented comment is not recognised as one: it passes the filter and
      reaches the output with its `#`. */
  lemma IndentedCommentSurvives(indent: string, rest: string)
    requires indent != [] && AllWhitespace(indent)
    requires rest != [] && rest[0] == '#' && !IsWhitespace(rest[|rest| - 1])
    ensures Trim(indent + rest) == rest
    ensures FilterTrim([indent + rest]) == [rest]
  {
    var s := indent + rest;
    TrimStartDrops(indent, rest);
    assert TrimEnd(rest) == rest;
    assert [s][1..] == [];
  }

  lemma {:induction false} TrimStartDrops(w: string, rest: string)
    requires AllWhitespace(w) && (rest == [] || !IsWhitespace(rest[0]))
    ensures TrimStart(w + rest) == rest
  {
    if w != [] {
      assert (w + rest)[1..] == w[1..] + rest;
      TrimStartDrops(w[1..], rest);
    }
  }

  /** A line that is empty or starts with `#` as split never reaches the output. */
  lemma {:induction false} FilteredLinesDropped(ls: seq<string>, line: string)
    requires !Keep(line)
    ensures FilterTrim(ls + [line]) == FilterTrim(ls)
    ensures FilterTrim([line] + ls) == FilterTrim(ls)
  {
    assert ([line] + ls)[1..] == ls;
    FilterTrimSplit(ls, [line]);
  }

  // ---------------------------------------------------------------------------
  // Properties of `lines`

  /** Puts a line feed after every line. */
  function JoinLines(ls: seq<string>): string {
    if ls == [] then [] else ls[0] + "\n" + JoinLines(ls[1..])
  }

  /** No line contains a line feed, and for text without carriage returns
      the lines, each followed by a line feed, give back the text (plus a line
      feed if the text did not end with one). */
  lemma {:induction false} LinesRoundTrip(s: string)
    requires '\r' !in s
    ensures forall k :: 0 <= k < |Lines(s)| ==> '\n' !in Lines(s)[k]
    ensures s == [] || s[|s| - 1] == '\n' ==> JoinLines(Lines(s)) == s
    ensures s != [] && s[|s| - 1] != '\n' ==> JoinLines(Lines(s)) == s + "\n"
    decreases |s|
  {
    if s != [] {
      var l := UpTo(s, '\n');
      if |l| == |s| {
        assert l == s;
        assert '\n' !in s;
        assert JoinLines([s]) == s + "\n" + JoinLines([]);
      } else {
        var rest := s[|l| + 1..];
        assert s == l + "\n" + rest;
        assert '\r' !in rest by {
          forall c | c in rest ensures c != '\r' { assert c in s; }
        }
        assert l == [] || l[|l| - 1] != '\r' by {
          if l != [] { assert l[|l| - 1] in s; }
        }
        assert StripCr(l) == l;
        LinesRoundTrip(rest);
        assert Lines(s) == [l] + Lines(rest);
        assert JoinLines(Lines(s)) == l + "\n" + JoinLines(Lines(rest));
        if rest != [] {
          assert s[|s| - 1] == rest[|rest| - 1];
        }
      }
    }
  }

  /** `read_lines_from_file` never returns more entries than there are lines. */
  lemma ReadLinesBounded(content: string)
    ensures |ReadLines(content)| <= |Lines(content)|
  {
    FilterTrimMembers(Lines(content));
  }
}
