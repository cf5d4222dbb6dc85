/**
  The address bar as the editor writes it and as the server reads it back: the client builds
  `pathname?html=…&css=…&js=…` from the `btoa` of each buffer, and the server splits the
  query on '&' and each piece at its first '=', form-decodes both halves (`unquote_plus`: a
  '+' is a space, a '%' escape is the character it names), and keeps the pairs in order the
  way Werkzeug's `MultiDict` does, whose `get(name, '')` returns the first value under a name.
  The client as written splices the `btoa` text in unescaped; the corrected client passes each
  value through `encodeURIComponent` first.
*/
module Query {
  import opened Wrappers
  import opened Chars
  import opened Slots
  import opened Base64

  /** The parsed query: name and value pairs in the order they appear. */
  type Args = seq<(string, string)>

  /**
    `request.args.get(name, '')`: the first value under the name, or '' (`GetFirst`,
    `GetAbsent`). A non-empty result is the value of some pair under that name.
  */
  function Get(args: Args, name: string): (v: string)
    ensures v == "" || exists i :: 0 <= i < |args| && args[i] == (name, v)
    decreases |args|
  {
    if |args| == 0 then ""
    else if args[0].0 == name then args[0].1
    else Get(args[1..], name)
  }

  /** Splits at every occurrence of sep; the pieces hold no sep. */
  function SplitOn(s: string, sep: char): (parts: seq<string>)
    ensures |parts| >= 1
    decreases |s|
  {
    if |s| == 0 then [""]
    else
      var rest := SplitOn(s[1..], sep);
      if s[0] == sep then [""] + rest
      else [[s[0]] + rest[0]] + rest[1..]
  }

  /** Splits at the first occurrence of sep, if there is one. */
  function SplitFirst(s: string, sep: char): (r: Option<(string, string)>)
    ensures r.None? <==> sep !in s
    ensures r.Some? ==> s == r.value.0 + [sep] + r.value.1 && sep !in r.value.0
    decreases |s|
  {
    if |s| == 0 then None
    else if s[0] == sep then Some(([], s[1..]))
    else
      match SplitFirst(s[1..], sep)
      case None => None
      case Some((a, b)) => Some(([s[0]] + a, b))
  }

  predicate IsHexDigit(c: char) {
    '0' <= c <= '9' || 'A' <= c <= 'F' || 'a' <= c <= 'f'
  }

  function HexValue(c: char): (v: int)
    requires IsHexDigit(c)
    ensures 0 <= v < 16
  {
    if c <= '9' then c as int - '0' as int
    else if c <= 'F' then c as int - 'A' as int + 10
    else c as int - 'a' as int + 10
  }

  /** Whether s starts with a '%' escape of an ASCII character. */
  predicate StartsWithEscape(s: string) {
    |s| >= 3 && s[0] == '%' && IsHexDigit(s[1]) && IsHexDigit(s[2]) && 16 * HexValue(s[1]) + HexValue(s[2]) < 0x80
  }

  /**
    `unquote_plus`, as the server applies it to each name and value: a '+' is a space, a '%'
    escape of an ASCII character is that character, and everything else is kept.
  */
  function FormDecode(s: string): (r: string)
    ensures |r| <= |s|
    decreases |s|
  {
    if |s| == 0 then ""
    else if s[0] == '+' then [' '] + FormDecode(s[1..])
    else if StartsWithEscape(s) then [(16 * HexValue(s[1]) + HexValue(s[2])) as char] + FormDecode(s[3..])
    else [s[0]] + FormDecode(s[1..])
  }

  /** One piece of the query: name and value, or the whole piece and '' when it has no '=', both form-decoded. */
  function ParsePair(piece: string): (string, string) {
    match SplitFirst(piece, '=')
    case None => (FormDecode(piece), "")
    case Some((name, value)) => (FormDecode(name), FormDecode(value))
  }

  /** The pairs of a query string; empty pieces are skipped. */
  function ParsePieces(pieces: seq<string>): (args: Args)
    ensures |args| <= |pieces|
    decreases |pieces|
  {
    if |pieces| == 0 then []
    else if pieces[0] == "" then ParsePieces(pieces[1..])
    else [ParsePair(pieces[0])] + ParsePieces(pieces[1..])
  }

  /** `request.args`: at most one pair per '&'-separated piece; a query without '&' is one pair, or none when empty. */
  function ParseQuery(q: string): (args: Args)
    ensures |args| <= |SplitOn(q, '&')|
    ensures '&' !in q ==> args == if q == "" then [] else [ParsePair(q)]
  {
    if '&' !in q then SplitOnNone(q, '&'); ParsePieces(SplitOn(q, '&'))
    else ParsePieces(SplitOn(q, '&'))
  }

  /** The query part of a URL: the text after its first '?', or nothing. */
  function QueryPart(url: string): string {
    match SplitFirst(url, '?')
    case None => ""
    case Some((_, q)) => q
  }

  predicate AllLatin1(b: Buffers) {
    IsLatin1(b.html) && IsLatin1(b.css) && IsLatin1(b.js)
  }

  /** One `name=value` parameter. */
  function Field(name: string, value: string): string {
    name + "=" + value
  }

  /**
    The query `updatePreview` writes: each buffer through `btoa`, in the order html, css, js.
    No `btoa` value holds '&', so the query splits into exactly those three parameters.
  */
  function QueryOf(b: Buffers): (q: string)
    requires AllLatin1(b)
    ensures SplitOn(q, '&') == [Field("html", Btoa(b.html)), Field("css", Btoa(b.css)), Field("js", Btoa(b.js))]
  {
    NoSeparatorInBase64(Btoa(b.html)); NoSeparatorInBase64(Btoa(b.css)); NoSeparatorInBase64(Btoa(b.js));
    NoSeparatorInField("html", Btoa(b.html)); NoSeparatorInField("css", Btoa(b.css));
    NoSeparatorInField("js", Btoa(b.js));
    SplitThreeFields(Field("html", Btoa(b.html)), Field("css", Btoa(b.css)), Field("js", Btoa(b.js)));
    Field("html", Btoa(b.html)) + "&" + Field("css", Btoa(b.css)) + "&" + Field("js", Btoa(b.js))
  }

  /** The URL handed to `history.replaceState`; for a path without '?', its query is `QueryOf(b)`. */
  function UrlFor(pathname: string, b: Buffers): (u: string)
    requires AllLatin1(b)
    ensures '?' !in pathname ==> QueryPart(u) == QueryOf(b)
  {
    if '?' !in pathname then SplitFirstConcat(pathname, '?', QueryOf(b)); pathname + "?" + QueryOf(b)
    else pathname + "?" + QueryOf(b)
  }

  /** The characters `encodeURIComponent` leaves as they are. */
  predicate IsUnreserved(c: char) {
    'A' <= c <= 'Z' || 'a' <= c <= 'z' || '0' <= c <= '9'
    || c == '-' || c == '_' || c == '.' || c == '!' || c == '~' || c == '*' || c == '\'' || c == '(' || c == ')'
  }

  function HexDigit(d: int): (c: char)
    requires 0 <= d < 16
    ensures IsHexDigit(c) && HexValue(c) == d
  {
    if d < 10 then ('0' as int + d) as char else ('A' as int + d - 10) as char
  }

  /** `encodeURIComponent` on ASCII text: every reserved character becomes a '%' escape of its code. */
  function EncodeUriComponent(s: string): (r: string)
    requires IsAscii(s)
    ensures forall i :: 0 <= i < |r| ==> IsUnreserved(r[i]) || r[i] == '%'
    decreases |s|
  {
    if |s| == 0 then ""
    else
      var rest := EncodeUriComponent(s[1..]);
      if IsUnreserved(s[0]) then [s[0]] + rest
      else ['%', HexDigit(s[0] as int / 16), HexDigit(s[0] as int % 16)] + rest
  }

  /** The query the corrected client writes: each `btoa` value passed through `encodeURIComponent`. */
  function EscapedQueryOf(b: Buffers): string
    requires AllLatin1(b)
  {
    Field("html", EncodeUriComponent(Btoa(b.html))) + "&" + Field("css", EncodeUriComponent(Btoa(b.css)))
      + "&" + Field("js", EncodeUriComponent(Btoa(b.js)))
  }

  function EscapedUrlFor(pathname: string, b: Buffers): string
    requires AllLatin1(b)
  {
    pathname + "?" + EscapedQueryOf(b)
  }

  // ---------------------------------------------------------------------------------------
  // Properties

  /** The first pair under a name decides `get`, whatever follows. */
  lemma {:induction false} GetFirst(pre: Args, name: string, value: string, post: Args)
    requires forall i :: 0 <= i < |pre| ==> pre[i].0 != name
    ensures Get(pre + [(name, value)] + post, name) == value
    decreases |pre|
  {
    var a := pre + [(name, value)] + post;
    if |pre| > 0 {
      assert a[0] == pre[0] && a[1..] == pre[1..] + [(name, value)] + post;
      GetFirst(pre[1..], name, value, post);
    } else {
      assert a[0] == (name, value);
    }
  }

  /** A name that no pair carries gets ''. */
  lemma {:induction false} GetAbsent(args: Args, name: string)
    requires forall i :: 0 <= i < |args| ==> args[i].0 != name
    ensures Get(args, name) == ""
    decreases |args|
  {
    if |args| > 0 {
      assert args[0].0 != name;
      GetAbsent(args[1..], name);
    }
  }

  /** Text without the separator is one piece. */
  lemma {:induction false} SplitOnNone(a: string, sep: char)
    requires sep !in a
    ensures SplitOn(a, sep) == [a]
    decreases |a|
  {
    if |a| > 0 {
      assert sep !in a[1..];
      SplitOnNone(a[1..], sep);
      assert [a[0]] + a[1..] == a;
    }
  }

  /** Text without the separator, then the separator, is one piece in front of the rest. */
  lemma {:induction false} SplitOnConcat(a: string, sep: char, t: string)
    requires sep !in a
    ensures SplitOn(a + [sep] + t, sep) == [a] + SplitOn(t, sep)
    decreases |a|
  {
    var s := a + [sep] + t;
    if |a| == 0 {
      assert s[0] == sep && s[1..] == t;
    } else {
      assert s[0] == a[0] && s[1..] == a[1..] + [sep] + t;
      assert sep !in a[1..];
      SplitOnConcat(a[1..], sep, t);
      assert [a[0]] + a[1..] == a;
    }
  }

  /** Joining the pieces with the separator gives back the text. */
  function Join(parts: seq<string>, sep: char): string
    requires |parts| >= 1
    decreases |parts|
  {
    if |parts| == 1 then parts[0] else parts[0] + [sep] + Join(parts[1..], sep)
  }

  lemma {:induction false} JoinSplitOn(s: string, sep: char)
    ensures Join(SplitOn(s, sep), sep) == s
    decreases |s|
  {
    if |s| > 0 {
      JoinSplitOn(s[1..], sep);
      var rest := SplitOn(s[1..], sep);
      if s[0] == sep {
        assert rest == [""] + rest ==> false by {}
        assert ([""] + rest)[1..] == rest;
        assert s == [] + [sep] + s[1..];
      } else {
        var parts := [[s[0]] + rest[0]] + rest[1..];
        if |rest| == 1 {
          assert s == [s[0]] + rest[0];
        } else {
          assert parts[1..] == rest[1..];
          assert Join(rest, sep) == rest[0] + [sep] + Join(rest[1..], sep);
          assert s == [s[0]] + s[1..];
        }
      }
    }
  }

  /** The first separator after a separator-free prefix is where the text splits. */
  lemma {:induction false} SplitFirstConcat(a: string, sep: char, t: string)
    requires sep !in a
    ensures SplitFirst(a + [sep] + t, sep) == Some((a, t))
    decreases |a|
  {
    var s := a + [sep] + t;
    if |a| == 0 {
      assert s[0] == sep && s[1..] == t;
    } else {
      assert s[0] == a[0] && s[1..] == a[1..] + [sep] + t;
      assert sep !in a[1..];
      SplitFirstConcat(a[1..], sep, t);
      assert [a[0]] + a[1..] == a;
    }
  }

  /** A parameter as the client writes it parses back to its form-decoded name and value. */
  lemma ParsePairOf(name: string, value: string)
    requires '=' !in name
    ensures ParsePair(Field(name, value)) == (FormDecode(name), FormDecode(value))
  {
    assert Field(name, value) == name + ['='] + value;
    SplitFirstConcat(name, '=', value);
  }

  /** The alphabet of `btoa` has no '&'. */
  lemma NoSeparatorInBase64(s: string)
    requires InAlphabet(s)
    ensures '&' !in s
  {
    assert !IsDataChar('&');
  }

  /** Non-empty pieces each give one pair. */
  lemma ParseThreePieces(x: string, y: string, z: string)
    requires x != "" && y != "" && z != ""
    ensures ParsePieces([x, y, z]) == [ParsePair(x), ParsePair(y), ParsePair(z)]
  {
    var ps := [x, y, z];
    assert ps[1..] == [y, z] && [y, z][1..] == [z] && [z][1..] == [];
    assert ParsePieces([z]) == [ParsePair(z)] + ParsePieces([]);
    assert ParsePieces([y, z]) == [ParsePair(y)] + ParsePieces([z]);
    assert ParsePieces(ps) == [ParsePair(x)] + ParsePieces([y, z]);
  }

  /** A query of three non-empty pieces gives three pairs. */
  lemma ParseThreeSplit(q: string, x: string, y: string, z: string)
    requires SplitOn(q, '&') == [x, y, z] && x != "" && y != "" && z != ""
    ensures ParseQuery(q) == [ParsePair(x), ParsePair(y), ParsePair(z)]
  {
    ParseThreePieces(x, y, z);
  }

  /** A parameter whose name and value hold no '&' holds none either. */
  lemma NoSeparatorInField(name: string, value: string)
    requires '&' !in name && '&' !in value
    ensures '&' !in Field(name, value)
  {
    assert Field(name, value) == name + ['='] + value;
  }

  /** The query splits into its three parameters when their names and values hold no '&'. */
  lemma SplitThreeFields(p1: string, p2: string, p3: string)
    requires '&' !in p1 && '&' !in p2 && '&' !in p3
    ensures SplitOn(p1 + "&" + p2 + "&" + p3, '&') == [p1, p2, p3]
  {
    assert p1 + "&" + p2 + "&" + p3 == p1 + ['&'] + (p2 + ['&'] + p3);
    SplitOnConcat(p1, '&', p2 + ['&'] + p3);
    SplitOnConcat(p2, '&', p3);
    SplitOnNone(p3, '&');
  }

  /**
    Three parameters with non-empty names free of '=' and '&', and values free of '&', parse
    back to their form-decoded names and values, in order.
  */
  lemma ParseThreeParams(n1: string, v1: string, n2: string, v2: string, n3: string, v3: string)
    requires n1 != "" && n2 != "" && n3 != ""
    requires '=' !in n1 && '=' !in n2 && '=' !in n3
    requires '&' !in n1 && '&' !in n2 && '&' !in n3
    requires '&' !in v1 && '&' !in v2 && '&' !in v3
    ensures ParseQuery(Field(n1, v1) + "&" + Field(n2, v2) + "&" + Field(n3, v3))
      == [(FormDecode(n1), FormDecode(v1)), (FormDecode(n2), FormDecode(v2)), (FormDecode(n3), FormDecode(v3))]
  {
    var p1, p2, p3 := Field(n1, v1), Field(n2, v2), Field(n3, v3);
    NoSeparatorInField(n1, v1); NoSeparatorInField(n2, v2); NoSeparatorInField(n3, v3);
    SplitThreeFields(p1, p2, p3);
    ParseThreeSplit(p1 + "&" + p2 + "&" + p3, p1, p2, p3);
    ParsePairOf(n1, v1); ParsePairOf(n2, v2); ParsePairOf(n3, v3);
  }

  /** Without '%', form decoding only turns each '+' into a space. */
  lemma {:induction false} FormDecodeWithoutEscapes(s: string)
    requires '%' !in s
    ensures |FormDecode(s)| == |s|
    ensures forall i :: 0 <= i < |s| ==> FormDecode(s)[i] == if s[i] == '+' then ' ' else s[i]
    decreases |s|
  {
    if |s| > 0 {
      assert '%' !in s[1..];
      FormDecodeWithoutEscapes(s[1..]);
      var r := FormDecode(s);
      assert r == [if s[0] == '+' then ' ' else s[0]] + FormDecode(s[1..]);
      forall i | 0 <= i < |s| ensures r[i] == if s[i] == '+' then ' ' else s[i] {
        if i > 0 { assert s[1..][i - 1] == s[i]; }
      }
    }
  }

  /** Text without '+' and '%' is its own form decoding. */
  lemma FormDecodePlain(s: string)
    requires '+' !in s && '%' !in s
    ensures FormDecode(s) == s
  {
    FormDecodeWithoutEscapes(s);
  }

  /** Base-64 text is read back unchanged exactly when it holds no '+'. */
  lemma FormDecodeBase64(s: string)
    requires InAlphabet(s)
    ensures FormDecode(s) == s <==> '+' !in s
  {
    assert '%' !in s by { assert !IsDataChar('%'); }
    FormDecodeWithoutEscapes(s);
    if '+' in s {
      var i :| 0 <= i < |s| && s[i] == '+';
      assert FormDecode(s)[i] == ' ';
    }
  }

  /** A suffix of ASCII text is ASCII. */
  lemma AsciiSuffix(s: string, k: nat)
    requires IsAscii(s) && k <= |s|
    ensures IsAscii(s[k..])
  {
    forall i | 0 <= i < |s[k..]| ensures s[k..][i] as int < 0x80 {
      assert s[k..][i] == s[i + k];
    }
  }

  /** Form decoding of ASCII text is ASCII. */
  lemma {:induction false} FormDecodeAscii(s: string)
    requires IsAscii(s)
    ensures IsAscii(FormDecode(s))
    decreases |s|
  {
    if |s| > 0 {
      var k := if s[0] != '+' && StartsWithEscape(s) then 3 else 1;
      AsciiSuffix(s, k);
      FormDecodeAscii(s[k..]);
      var x := FormDecode(s)[0];
      assert FormDecode(s) == [x] + FormDecode(s[k..]);
      assert IsAscii([x]);
      AsciiConcat([x], FormDecode(s[k..]));
    }
  }

  /** Form decoding undoes `encodeURIComponent`. */
  lemma {:induction false} FormDecodeEncode(s: string)
    requires IsAscii(s)
    ensures FormDecode(EncodeUriComponent(s)) == s
    decreases |s|
  {
    if |s| > 0 {
      AsciiSuffix(s, 1);
      FormDecodeEncode(s[1..]);
      var rest := EncodeUriComponent(s[1..]);
      var e := EncodeUriComponent(s);
      if IsUnreserved(s[0]) {
        assert e == [s[0]] + rest && e[1..] == rest;
      } else {
        var h, l := HexDigit(s[0] as int / 16), HexDigit(s[0] as int % 16);
        assert e == ['%', h, l] + rest && e[3..] == rest;
        assert StartsWithEscape(e);
        assert (16 * HexValue(h) + HexValue(l)) as char == s[0];
      }
      assert s == [s[0]] + s[1..];
    }
  }

  /** The parameter names are their own form decoding. */
  lemma NamesPlain()
    ensures FormDecode("html") == "html" && FormDecode("css") == "css" && FormDecode("js") == "js"
  {
    FormDecodePlain("html");
    FormDecodePlain("css");
    FormDecodePlain("js");
  }

  /** The server reads back the three `btoa` values the client wrote, in order, each form-decoded. */
  lemma ParseQueryOf(b: Buffers)
    requires AllLatin1(b)
    ensures ParseQuery(QueryOf(b))
      == [("html", FormDecode(Btoa(b.html))), ("css", FormDecode(Btoa(b.css))), ("js", FormDecode(Btoa(b.js)))]
  {
    var h, c, j := Btoa(b.html), Btoa(b.css), Btoa(b.js);
    NoSeparatorInBase64(h); NoSeparatorInBase64(c); NoSeparatorInBase64(j);
    assert "html"[0] == 'h' && "css"[0] == 'c' && "js"[0] == 'j';
    ParseThreeParams("html", h, "css", c, "js", j);
    NamesPlain();
  }

  /** The corrected client's URL gives the server exactly the three `btoa` values, in order. */
  lemma ParseEscapedQueryOf(b: Buffers)
    requires AllLatin1(b)
    ensures ParseQuery(EscapedQueryOf(b)) == [("html", Btoa(b.html)), ("css", Btoa(b.css)), ("js", Btoa(b.js))]
  {
    var h, c, j := Btoa(b.html), Btoa(b.css), Btoa(b.js);
    var eh, ec, ej := EncodeUriComponent(h), EncodeUriComponent(c), EncodeUriComponent(j);
    assert '&' !in eh && '&' !in ec && '&' !in ej;
    assert "html"[0] == 'h' && "css"[0] == 'c' && "js"[0] == 'j';
    ParseThreeParams("html", eh, "css", ec, "js", ej);
    NamesPlain();
    FormDecodeEncode(h); FormDecodeEncode(c); FormDecodeEncode(j);
  }

  /** The server reads the query from the URL the client wrote, for a path without '?'. */
  lemma QueryPartOfUrl(pathname: string, b: Buffers)
    requires AllLatin1(b) && '?' !in pathname
    ensures QueryPart(UrlFor(pathname, b)) == QueryOf(b)
    ensures QueryPart(EscapedUrlFor(pathname, b)) == EscapedQueryOf(b)
  {
    assert UrlFor(pathname, b) == pathname + ['?'] + QueryOf(b);
    SplitFirstConcat(pathname, '?', QueryOf(b));
    assert EscapedUrlFor(pathname, b) == pathname + ['?'] + EscapedQueryOf(b);
    SplitFirstConcat(pathname, '?', EscapedQueryOf(b));
  }

  /** The three values in the order the client writes them: `get` finds each under its name. */
  lemma GetThree(h: string, c: string, j: string, s: Slot)
    ensures Get([("html", h), ("css", c), ("js", j)], ParamName(s)) == Triple(h, c, j).Get(s)
  {
    var args := [("html", h), ("css", c), ("js", j)];
    match s
    case Html => GetFirst([], "html", h, args[1..]);
    case Css => assert args == [args[0]] + [("css", c)] + args[2..]; GetFirst([args[0]], "css", c, args[2..]);
    case Js => assert args == args[..2] + [("js", j)] + []; GetFirst(args[..2], "js", j, []);
  }

  /** Each parameter the server gets from the client's URL is the form decoding of that buffer's `btoa`. */
  lemma GetUrlParam(pathname: string, b: Buffers, s: Slot)
    requires AllLatin1(b) && '?' !in pathname
    ensures Get(ParseQuery(QueryPart(UrlFor(pathname, b))), ParamName(s)) == FormDecode(Btoa(b.Get(s)))
  {
    QueryPartOfUrl(pathname, b);
    ParseQueryOf(b);
    GetThree(FormDecode(Btoa(b.html)), FormDecode(Btoa(b.css)), FormDecode(Btoa(b.js)), s);
  }

  /** Each parameter the server gets from the corrected client's URL is exactly that buffer's `btoa`. */
  lemma GetEscapedUrlParam(pathname: string, b: Buffers, s: Slot)
    requires AllLatin1(b) && '?' !in pathname
    ensures Get(ParseQuery(QueryPart(EscapedUrlFor(pathname, b))), ParamName(s)) == Btoa(b.Get(s))
  {
    QueryPartOfUrl(pathname, b);
    ParseEscapedQueryOf(b);
    GetThree(Btoa(b.html), Btoa(b.css), Btoa(b.js), s);
  }
}
