/** JSON values as `serde_json::Value` holds them and `Value::pointer`, the
    JSON Pointer lookup of RFC 6901 the CSRF extractor uses to find the token
    in a JSON response: an empty pointer designates the whole document, any
    other pointer is a `/` followed by reference tokens separated by `/`, in
    which `~1` stands for `/` and `~0` for `~` (section 4 of RFC 6901). */
module JsonPointer {
  import opened Common
  import opened Text

  /** A parsed JSON document. Numbers are kept as their text: only strings
      matter to the extractor. */
  datatype JsonValue =
    | Null
    | Bool(b: bool)
    | Number(text: string)
    | Str(s: string)
    | Array(items: seq<JsonValue>)
    | Object(fields: map<string, JsonValue>)

  // ---------------------------------------------------------------------------
  // Splitting a pointer into its tokens

  /** `s.split(c)`: the pieces between the occurrences of `c`; there is always
      at least one piece. */
  function Split(s: string, c: char): (ps: seq<string>)
    ensures |ps| >= 1
    ensures forall k :: 0 <= k < |ps| ==> c !in ps[k]
    decreases |s|
  {
    var p := UpTo(s, c);
    if |p| == |s| then [s] else [p] + Split(s[|p| + 1..], c)
  }

  /** The pieces with `c` between consecutive ones. */
  function Join(ps: seq<string>, c: char): string
    requires |ps| >= 1
  {
    if |ps| == 1 then ps[0] else ps[0] + [c] + Join(ps[1..], c)
  }

  lemma {:induction false} UpToConcat(a: string, b: string, c: char)
    requires c !in a && (b == [] || b[0] == c)
    ensures UpTo(a + b, c) == a
  {
    if a == [] {
      assert a + b == b;
    } else {
      assert (a + b)[0] == a[0] != c;
      assert (a + b)[1..] == a[1..] + b;
      UpToConcat(a[1..], b, c);
    }
  }

  /** Splitting undoes joining pieces that do not contain the separator. */
  lemma {:induction false} SplitJoin(ps: seq<string>, c: char)
    requires |ps| >= 1 && forall k :: 0 <= k < |ps| ==> c !in ps[k]
    ensures Split(Join(ps, c), c) == ps
    decreases |ps|
  {
    if |ps| == 1 {
      UpToConcat(ps[0], [], c);
      assert ps[0] + [] == ps[0];
    } else {
      var rest := Join(ps[1..], c);
      var s := Join(ps, c);
      assert s == ps[0] + ([c] + rest);
      UpToConcat(ps[0], [c] + rest, c);
      assert s[|ps[0]| + 1..] == rest;
      SplitJoin(ps[1..], c);
    }
  }

  // ---------------------------------------------------------------------------
  // Escaping

  /** How a reference token is decoded: `~1` becomes `/`, then `~0` becomes `~`. */
  function Unescape(t: string): string {
    Replace(Replace(t, "~1", "/"), "~0", "~")
  }

  function UnescapeAll(ps: seq<string>): (ts: seq<string>)
    ensures |ts| == |ps|
  {
    if ps == [] then [] else [Unescape(ps[0])] + UnescapeAll(ps[1..])
  }

  function EscapeChar(ch: char): string {
    if ch == '~' then "~0" else if ch == '/' then "~1" else [ch]
  }

  /** How a key is written into a pointer: `~` as `~0`, `/` as `~1`. */
  function Escape(t: string): string {
    if t == [] then [] else EscapeChar(t[0]) + Escape(t[1..])
  }

  function EscapeAll(ts: seq<string>): (ps: seq<string>)
    ensures |ps| == |ts|
  {
    if ts == [] then [] else [Escape(ts[0])] + EscapeAll(ts[1..])
  }

  /** Half of the escaping: only `~` is written as `~0`. */
  function EscapeTilde(t: string): string {
    if t == [] then [] else (if t[0] == '~' then "~0" else [t[0]]) + EscapeTilde(t[1..])
  }

  lemma {:induction false} EscapeHasNoSlash(t: string)
    ensures '/' !in Escape(t)
  {
    if t != [] {
      EscapeHasNoSlash(t[1..]);
    }
  }

  lemma {:induction false} SlashesDecoded(t: string)
    ensures Replace(Escape(t), "~1", "/") == EscapeTilde(t)
  {
    if t != [] {
      var e := Escape(t[1..]);
      var rest := EscapeTilde(t[1..]);
      SlashesDecoded(t[1..]);
      var s := EscapeChar(t[0]) + e;
      assert Escape(t) == s;
      if t[0] == '/' {
        assert s[..2] == "~1";
        assert s[2..] == e;
        assert Replace(s, "~1", "/") == "/" + Replace(e, "~1", "/");
        assert EscapeTilde(t) == "/" + rest;
      } else if t[0] == '~' {
        var z := "0" + e;
        assert s[1] == '0' && s[1..] == z;
        assert Replace(s, "~1", "/") == "~" + Replace(z, "~1", "/");
        assert z[0] == '0' && z[1..] == e;
        assert Replace(z, "~1", "/") == "0" + Replace(e, "~1", "/");
        assert EscapeTilde(t) == "~0" + rest;
      } else {
        assert s[0] == t[0] != '~' && s[1..] == e;
        assert Replace(s, "~1", "/") == [t[0]] + Replace(e, "~1", "/");
        assert EscapeTilde(t) == [t[0]] + rest;
      }
    }
  }

  lemma {:induction false} TildesDecoded(t: string)
    ensures Replace(EscapeTilde(t), "~0", "~") == t
  {
    if t != [] {
      var e := EscapeTilde(t[1..]);
      TildesDecoded(t[1..]);
      if t[0] == '~' {
        var s := "~0" + e;
        assert "~0" <= s;
        assert s[2..] == e;
      } else {
        var s := [t[0]] + e;
        assert s[1..] == e;
      }
      assert t == [t[0]] + t[1..];
    }
  }

  /** Decoding a reference token undoes escaping, for every key. */
  lemma EscapeRoundTrip(t: string)
    ensures Unescape(Escape(t)) == t
  {
    SlashesDecoded(t);
    TildesDecoded(t);
  }

  lemma {:induction false} EscapeAllRoundTrip(ts: seq<string>)
    ensures UnescapeAll(EscapeAll(ts)) == ts
    ensures forall k :: 0 <= k < |ts| ==> '/' !in EscapeAll(ts)[k]
  {
    if ts != [] {
      EscapeRoundTrip(ts[0]);
      EscapeHasNoSlash(ts[0]);
      EscapeAllRoundTrip(ts[1..]);
      assert EscapeAll(ts)[1..] == EscapeAll(ts[1..]);
    }
  }

  // ---------------------------------------------------------------------------
  // Evaluation

  /** The reference tokens of a pointer, or `None` for a pointer that is
      neither empty nor starts with `/`. */
  function ReferenceTokens(pointer: string): Option<seq<string>> {
    if pointer == [] then Some([])
    else if pointer[0] != '/' then None
    else Some(UnescapeAll(Split(pointer[1..], '/')))
  }

  /** An array index token: decimal digits, with no `+` sign and no leading
      zero except for `0` itself. */
  function ArrayIndex(token: string): Option<nat> {
    if token != [] && (token[0] == '+' || (token[0] == '0' && |token| != 1)) then None
    else ParseNat(token)
  }

  /** One step: a member of an object by name, or an element of an array by index. */
  function Child(v: JsonValue, token: string): Option<JsonValue> {
    match v
    case Object(fields) => if token in fields then Some(fields[token]) else None
    case Array(items) =>
      (match ArrayIndex(token)
       case Some(i) => if i < |items| then Some(items[i]) else None
       case None => None)
    case _ => None
  }

  /** Following the tokens from `v`, one child at a time. */
  function Follow(v: JsonValue, tokens: seq<string>): Option<JsonValue>
    decreases |tokens|
  {
    if tokens == [] then Some(v)
    else match Child(v, tokens[0])
      case None => None
      case Some(w) => Follow(w, tokens[1..])
  }

  /** `Value::pointer`. */
  function Resolve(v: JsonValue, pointer: string): (r: Option<JsonValue>)
    ensures pointer == [] ==> r == Some(v)
    ensures pointer != [] && pointer[0] != '/' ==> r == None
  {
    match ReferenceTokens(pointer)
    case None => None
    case Some(tokens) => Follow(v, tokens)
  }

  /** The pointer that designates the value reached by `tokens`. */
  function Encode(tokens: seq<string>): string {
    if tokens == [] then [] else "/" + Join(EscapeAll(tokens), '/')
  }

  // ---------------------------------------------------------------------------
  // Properties

  /** Encoding any path of keys and indices and decoding it gives the path
      back, so the encoded pointer designates exactly what the path reaches. */
  lemma EncodeRoundTrip(tokens: seq<string>)
    ensures ReferenceTokens(Encode(tokens)) == Some(tokens)
    ensures forall v :: Resolve(v, Encode(tokens)) == Follow(v, tokens)
  {
    if tokens != [] {
      var ps := EscapeAll(tokens);
      EscapeAllRoundTrip(tokens);
      SplitJoin(ps, '/');
      assert Encode(tokens)[1..] == Join(ps, '/');
    }
  }

  /** Every index is found under its decimal rendering. */
  lemma IndexRoundTrip(n: nat)
    ensures ArrayIndex(NatToString(n)) == Some(n)
  {
    ParseNatToString(n);
    assert IsDigit(NatToString(n)[0]);
  }

  /** Padded and signed indices are refused. */
  lemma IndexRefusals(n: nat)
    ensures ArrayIndex("0" + NatToString(n)) == None
    ensures ArrayIndex("+" + NatToString(n)) == None
    ensures ArrayIndex("") == None
  {
  }

  /** A pointer with one token: `/name` finds the member called `name`, with
      `~1` and `~0` in the pointer standing for `/` and `~` in the name. */
  lemma OneToken(fields: map<string, JsonValue>, name: string)
    requires name in fields
    ensures Resolve(Object(fields), "/" + Escape(name)) == Some(fields[name])
  {
    EncodeRoundTrip([name]);
    assert Encode([name]) == "/" + Escape(name);
    assert Child(Object(fields), name) == Some(fields[name]);
    assert Follow(fields[name], [name][1..]) == Some(fields[name]);
  }
}
