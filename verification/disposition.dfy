/**
 * The `Content-Disposition` header of a download: the value the server's
 * `downloadFile` writes (the `filename*` form of section 4.3 of RFC 6266, with
 * the value encoded as in section 3.2 of RFC 8187), and the client's
 * `jobAPI.download`, which reads a file name back out of the header with two
 * regular expressions and falls back to `processed-file`.
 */
module Disposition {
  import opened Wrappers
  import opened Text
  import opened UriComponent

  const DefaultName := "processed-file"
  const StarPrefix := "filename*=UTF-8''"
  const PlainPrefix := "filename"
  const Attachment := "attachment; "

  /** The header value the server writes for a download named `filename`. */
  function Header(filename: string): string {
    Attachment + StarPrefix + Encode(filename)
  }

  predicate MatchesAt(h: string, i: nat, lit: string) {
    i + |lit| <= |h| && h[i..i + |lit|] == lit
  }

  const LineTerminators: set<char> := {'\n', '\r', 0x2028 as char, 0x2029 as char}

  /** Length of the longest prefix of `s` with no character from `stop`. */
  function RunBefore(s: string, stop: set<char>): (k: nat)
    ensures k <= |s|
    ensures forall i :: 0 <= i < k ==> s[i] !in stop
    ensures k < |s| ==> s[k] in stop
  {
    if s == [] || s[0] in stop then 0 else 1 + RunBefore(s[1..], stop)
  }

  /** Group 1 of `/filename\*=UTF-8''([^;]+)/`, searched from position `i` on:
      the first position where the literal is followed by at least one
      character other than `;`, and the longest such run there. */
  function StarValueFrom(h: string, i: nat): Option<string>
    requires i <= |h|
    decreases |h| - i
  {
    var v := i + |StarPrefix|;
    if MatchesAt(h, i, StarPrefix) && v < |h| && h[v] != ';' then
      Some(h[v..v + RunBefore(h[v..], {';'})])
    else if i == |h| then None
    else StarValueFrom(h, i + 1)
  }

  /** Group 1 of `((['"]).*?\2|[^;\n]*)` matched at position `g`: a quoted
      value up to the first matching quote on the same line, otherwise the
      (possibly empty) run up to `;` or a newline. */
  function ValueAt(h: string, g: nat): string
    requires g <= |h|
  {
    var quoted :=
      if g < |h| && (h[g] == '"' || h[g] == '\'') then
        var q := h[g];
        var k := RunBefore(h[g + 1..], {q} + LineTerminators);
        if g + 1 + k < |h| && h[g + 1 + k] == q then Some(h[g..g + 2 + k]) else None
      else None;
    match quoted
    case Some(v) => v
    case None => h[g..g + RunBefore(h[g..], {';', '\n'})]
  }

  /** Group 1 of `/filename[^;=\n]*=((['"]).*?\2|[^;\n]*)/`, searched from `i` on. */
  function PlainValueFrom(h: string, i: nat): Option<string>
    requires i <= |h|
    decreases |h| - i
  {
    var a := i + |PlainPrefix|;
    if MatchesAt(h, i, PlainPrefix) then
      var j := a + RunBefore(h[a..], {';', '=', '\n'});
      if j < |h| && h[j] == '=' then Some(ValueAt(h, j + 1))
      else if i == |h| then None
      else PlainValueFrom(h, i + 1)
    else if i == |h| then None
    else PlainValueFrom(h, i + 1)
  }

  /** `s.replace(/['"]/g, '')`. */
  function StripQuotes(s: string): (r: string)
    ensures '"' !in r && '\'' !in r
  {
    if s == [] then []
    else (if s[0] == '"' || s[0] == '\'' then [] else [s[0]]) + StripQuotes(s[1..])
  }

  /** The file name `jobAPI.download` saves under, given the response's
      `Content-Disposition` header (`None` when absent). The result is `None`
      when `decodeURIComponent` throws, which rejects the download. */
  function ParseFilename(header: Option<string>): Option<string> {
    if header.None? || header.value == [] then Some(DefaultName)
    else
      var h := header.value;
      match StarValueFrom(h, 0)
      case Some(v) => Decode(v)
      case None =>
        match PlainValueFrom(h, 0)
        case Some(v) => if v != [] then Decode(StripQuotes(v)) else Some(DefaultName)
        case None => Some(DefaultName)
  }

  /** Positions holding no `f` cannot start either file-name literal. */
  lemma {:induction false} SkipNonF(h: string, i: nat, j: nat)
    requires i <= j <= |h|
    requires forall k :: i <= k < j ==> h[k] != 'f'
    ensures StarValueFrom(h, i) == StarValueFrom(h, j)
    ensures PlainValueFrom(h, i) == PlainValueFrom(h, j)
    decreases j - i
  {
    if i < j {
      assert !MatchesAt(h, i, StarPrefix) by {
        if i + |StarPrefix| <= |h| { assert h[i..i + |StarPrefix|][0] == h[i]; }
      }
      assert !MatchesAt(h, i, PlainPrefix) by {
        if i + |PlainPrefix| <= |h| { assert h[i..i + |PlainPrefix|][0] == h[i]; }
      }
      SkipNonF(h, i + 1, j);
    }
  }

  /** Without a `*` the header has no `filename*=` parameter. */
  lemma {:induction false} NoStarValue(h: string, i: nat)
    requires i <= |h|
    requires '*' !in h
    ensures StarValueFrom(h, i).None?
    decreases |h| - i
  {
    assert StarPrefix[8] == '*';
    assert !MatchesAt(h, i, StarPrefix) by {
      if i + |StarPrefix| <= |h| {
        assert h[i..i + |StarPrefix|][8] == h[i + 8];
        assert h[i + 8] != '*';
      }
    }
    if i < |h| {
      NoStarValue(h, i + 1);
    }
  }

  lemma RunBeforeAll(s: string, stop: set<char>)
    requires forall i :: 0 <= i < |s| ==> s[i] !in stop
    ensures RunBefore(s, stop) == |s|
  {
  }

  lemma {:induction false} StripQuotesUnquoted(s: string)
    requires '"' !in s && '\'' !in s
    ensures StripQuotes(s) == s
  {
    if s != [] {
      StripQuotesUnquoted(s[1..]);
      assert [s[0]] + s[1..] == s;
    }
  }

  lemma {:induction false} StripQuotesAppend(a: string, b: string)
    ensures StripQuotes(a + b) == StripQuotes(a) + StripQuotes(b)
  {
    if a != [] {
      StripQuotesAppend(a[1..], b);
      var head := if a[0] == '"' || a[0] == '\'' then [] else [a[0]];
      assert (a + b)[0] == a[0];
      assert (a + b)[1..] == a[1..] + b;
      calc {
        StripQuotes(a + b);
        head + StripQuotes(a[1..] + b);
        head + (StripQuotes(a[1..]) + StripQuotes(b));
        (head + StripQuotes(a[1..])) + StripQuotes(b);
      }
    } else {
      assert a + b == b;
    }
  }

  lemma AttachmentHasNoF()
    ensures forall k :: 0 <= k < |Attachment| ==> Attachment[k] != 'f'
    ensures '*' !in Attachment
  {
  }

  /** A `filename*=UTF-8''` parameter after a prefix without `f` is found, and
      its value runs up to the first `;`. */
  lemma StarValueAfter(p: string, e: string)
    requires forall k :: 0 <= k < |p| ==> p[k] != 'f'
    requires e != [] && ';' !in e
    ensures StarValueFrom(p + StarPrefix + e, 0) == Some(e)
  {
    var h := p + StarPrefix + e;
    var v := |p| + |StarPrefix|;
    SkipNonF(h, 0, |p|);
    assert h[|p|..v] == StarPrefix;
    assert h[v..] == e;
    StarValueAt(h, |p|);
  }

  /** A `filename*=UTF-8''` literal at `i` followed by a non-empty run without
      `;` up to the end yields that run. */
  lemma StarValueAt(h: string, i: nat)
    requires MatchesAt(h, i, StarPrefix)
    requires i + |StarPrefix| < |h| && ';' !in h[i + |StarPrefix|..]
    ensures StarValueFrom(h, i) == Some(h[i + |StarPrefix|..])
  {
    var v := i + |StarPrefix|;
    var e := h[v..];
    assert h[v] == e[0] && e[0] in e;
    RunBeforeAll(e, {';'});
    assert h[v..v + |e|] == e;
  }

  /** The header the server writes for any non-empty file name parses back to
      that name on the client: `encodeURIComponent` escapes `;`, so the
      `filename*` value runs to the end of the header. */
  lemma HeaderRoundTrip(name: string)
    requires name != []
    ensures ParseFilename(Some(Header(name))) == Some(name)
  {
    AttachmentHasNoF();
    EncodeAlphabet(name);
    StarValueAfter(Attachment, Encode(name));
    DecodeEncode(name);
  }

  /** `filename` directly followed by `=` at position `i` matches there. */
  lemma PlainValueAt(h: string, i: nat)
    requires i <= |h|
    requires MatchesAt(h, i, PlainPrefix) && i + 8 < |h| && h[i + 8] == '='
    ensures PlainValueFrom(h, i) == Some(ValueAt(h, i + 9))
  {
    assert h[i + 8..][0] == '=';
    assert RunBefore(h[i + 8..], {';', '=', '\n'}) == 0;
  }

  /** After a prefix without `f`, a `filename=` parameter yields the value
      that `ValueAt` reads after the `=`. */
  lemma PlainValueAfter(p: string, rest: string)
    requires forall k :: 0 <= k < |p| ==> p[k] != 'f'
    ensures PlainValueFrom(p + "filename=" + rest, 0) == Some(ValueAt(p + "filename=" + rest, |p| + 9))
  {
    var h := p + "filename=" + rest;
    SkipNonF(h, 0, |p|);
    PlainPrefixAt(p, rest);
    PlainValueAt(h, |p|);
  }

  /** The parameter name sits right after the prefix, followed by `=`. */
  lemma PlainPrefixAt(p: string, rest: string)
    ensures MatchesAt(p + "filename=" + rest, |p|, PlainPrefix)
    ensures (p + "filename=" + rest)[|p| + 8] == '='
  {
    var h := p + "filename=" + rest;
    assert h[|p|..|p| + 8] == PlainPrefix;
  }

  /** A header with no `*` has no `filename*=` value. */
  lemma NoStarInPlainHeader(p: string, rest: string)
    requires '*' !in p && '*' !in rest
    ensures StarValueFrom(p + "filename=" + rest, 0).None?
  {
    assert '*' !in "filename=";
    NoStarValue(p + "filename=" + rest, 0);
  }

  /** An unquoted value runs to the next `;` or newline. */
  lemma ValueAtUnquoted(h: string, g: nat)
    requires g < |h| && h[g] != '"' && h[g] != '\''
    requires forall k :: g <= k < |h| ==> h[k] != ';' && h[k] != '\n'
    ensures ValueAt(h, g) == h[g..]
  {
    RunBeforeAll(h[g..], {';', '\n'});
    assert h[g..g + |h[g..]|] == h[g..];
  }

  /** A quoted value ends at its closing quote. */
  lemma ValueAtQuoted(h: string, g: nat, v: string)
    requires g <= |h| && h[g..] == "\"" + v + "\""
    requires forall k :: 0 <= k < |v| ==> v[k] != '"' && v[k] !in LineTerminators
    ensures ValueAt(h, g) == h[g..]
  {
    assert h[g] == '"';
    var t := h[g + 1..];
    assert t == v + "\"";
    assert forall i :: 0 <= i < |v| ==> t[i] == v[i];
    assert t[|v|] == '"';
    assert RunBefore(t, {'"'} + LineTerminators) == |v|;
    assert h[g + 1 + |v|] == '"';
    assert h[g..g + 2 + |v|] == h[g..];
  }

  lemma ParseFilenamePlain(h: string, v: string, name: string)
    requires h != [] && StarValueFrom(h, 0).None? && PlainValueFrom(h, 0) == Some(v) && v != []
    requires StripQuotes(v) == name
    ensures ParseFilename(Some(h)) == Decode(name)
  {
  }

  /** An unquoted `filename=` value is percent-decoded as it stands. */
  lemma PlainFilename(v: string)
    requires v != []
    requires ';' !in v && '\n' !in v && '*' !in v && '"' !in v && '\'' !in v
    ensures ParseFilename(Some(Attachment + "filename=" + v)) == Decode(v)
  {
    var h := Attachment + "filename=" + v;
    var g := |Attachment| + 9;
    AttachmentHasNoF();
    PlainValueAfter(Attachment, v);
    NoStarInPlainHeader(Attachment, v);
    assert h[g..] == v;
    forall k | g <= k < |h| ensures h[k] != ';' && h[k] != '\n' {
      assert h[k] == v[k - g];
    }
    ValueAtUnquoted(h, g);
    StripQuotesUnquoted(v);
    ParseFilenamePlain(h, v, v);
  }

  lemma StripQuotesOfQuoted(v: string)
    requires '"' !in v && '\'' !in v
    ensures StripQuotes("\"" + v + "\"") == v
  {
    var q: string := "\"";
    assert StripQuotes(q) == [];
    StripQuotesUnquoted(v);
    StripQuotesAppend(q, v);
    assert StripQuotes(q + v) == v;
    StripQuotesAppend(q + v, q);
    assert StripQuotes(q + v + q) == v + [];
    assert v + [] == v;
  }

  /** A quoted value has a `*` only where the value has one. */
  lemma QuotedHasNoStar(v: string)
    requires '*' !in v
    ensures '*' !in "\"" + v + "\""
  {
    var q := "\"" + v + "\"";
    forall k | 0 <= k < |q| ensures q[k] != '*' {
      if 0 < k < |q| - 1 { assert q[k] == v[k - 1]; }
    }
  }

  /** The fallback expression finds a quoted value, quotes included. */
  lemma QuotedValue(v: string)
    requires '*' !in v && '"' !in v && '\'' !in v
    requires forall k :: 0 <= k < |v| ==> v[k] !in LineTerminators
    ensures StarValueFrom(Attachment + "filename=" + ("\"" + v + "\""), 0).None?
    ensures PlainValueFrom(Attachment + "filename=" + ("\"" + v + "\""), 0) == Some("\"" + v + "\"")
  {
    var q := "\"" + v + "\"";
    AttachmentHasNoF();
    QuotedHasNoStar(v);
    NoStarInPlainHeader(Attachment, q);
    QuotedPlainValue(Attachment, v);
  }

  lemma QuotedPlainValue(p: string, v: string)
    requires forall k :: 0 <= k < |p| ==> p[k] != 'f'
    requires '"' !in v && forall k :: 0 <= k < |v| ==> v[k] !in LineTerminators
    ensures PlainValueFrom(p + "filename=" + ("\"" + v + "\""), 0) == Some("\"" + v + "\"")
  {
    var q := "\"" + v + "\"";
    var h := p + "filename=" + q;
    var g := |p| + 9;
    PlainValueAfter(p, q);
    assert h[g..] == q;
    forall k | 0 <= k < |v| ensures v[k] != '"' {
      assert v[k] in v;
    }
    ValueAtQuoted(h, g, v);
  }

  /** A quoted `filename="..."` value loses its quotes and is percent-decoded. */
  lemma QuotedFilename(h: string, v: string)
    requires h == Attachment + "filename=" + ("\"" + v + "\"")
    requires '*' !in v && '"' !in v && '\'' !in v
    requires forall k :: 0 <= k < |v| ==> v[k] !in LineTerminators
    ensures ParseFilename(Some(h)) == Decode(v)
  {
    var q := "\"" + v + "\"";
    assert |q| == |v| + 2;
    QuotedValue(v);
    StripQuotesOfQuoted(v);
    ParseFilenamePlain(h, q, v);
  }

  // ---- the header `res.download` sends ------------------------------------

  /** Characters a quoted file name may hold (`content-disposition`'s text set). */
  predicate IsTextChar(c: char) {
    (0x20 <= c as int <= 0x7E) || (0x80 <= c as int <= 0xFF)
  }

  /** Characters of ISO-8859-1 that the fallback name keeps. */
  predicate IsLatin1Char(c: char) {
    (0x20 <= c as int <= 0x7E) || (0xA0 <= c as int <= 0xFF)
  }

  /** The ISO-8859-1 fallback name: every other character becomes `?`. */
  function Latin1Fallback(s: string): (r: string)
    ensures |r| == |s|
    ensures forall i :: 0 <= i < |s| ==> r[i] == (if IsLatin1Char(s[i]) then s[i] else '?')
  {
    seq(|s|, i requires 0 <= i < |s| => if IsLatin1Char(s[i]) then s[i] else '?')
  }

  /** The name holds something that reads as a percent escape. */
  predicate HasHexEscape(s: string) {
    exists i :: 0 <= i && i + 2 < |s| && s[i] == '%' && HexValue(s[i + 1]).Some? && HexValue(s[i + 2]).Some?
  }

  /** A quoted-string body: `\` and `"` are preceded by a backslash. */
  function EscapeQuoted(s: string): (r: string)
    ensures |r| >= |s|
  {
    if s == [] then []
    else (if s[0] == '\\' || s[0] == '"' then ['\\', s[0]] else [s[0]]) + EscapeQuoted(s[1..])
  }

  /** `encodeURIComponent` followed by the escaping of `'`, `(`, `)` and `*`,
      which section 3.2.1 of RFC 8187 does not allow unescaped. */
  function AttrEncode(s: string): string {
    if s == [] then []
    else
      (if s[0] == '\'' then "%27" else if s[0] == '(' then "%28" else if s[0] == ')' then "%29"
       else if s[0] == '*' then "%2A" else [s[0]])
      + AttrEncode(s[1..])
  }

  /** The name can go into a quoted string as it is. */
  predicate Quotable(name: string) {
    name != [] && forall i :: 0 <= i < |name| ==> IsTextChar(name[i])
  }

  /** The quoted `filename` parameter: present when the name is quotable or
      needs an ISO-8859-1 fallback, and then carrying the fallback if any. */
  function FilenameParam(name: string): string {
    var fallback := Latin1Fallback(name);
    if Quotable(name) || fallback != name
    then "; filename=\"" + EscapeQuoted(if fallback != name then fallback else name) + "\""
    else []
  }

  /** The encoded `filename*` parameter: present when the name needs a
      fallback, is not quotable, or holds something that reads as a percent
      escape. */
  function FilenameStarParam(name: string): string {
    if Latin1Fallback(name) != name || !Quotable(name) || HasHexEscape(name)
    then "; filename*=UTF-8''" + AttrEncode(Encode(name))
    else []
  }

  /** The header `res.download(path, name)` writes when it sends the file,
      replacing the one set before it: the disposition type, then the
      parameters in sorted order. The name is already a base name, which the
      package's own `basename` leaves as it is. */
  function ExpressHeader(name: string): (h: string)
    ensures StartsWith(h, "attachment")
  {
    var h := "attachment" + FilenameParam(name) + FilenameStarParam(name);
    assert h[..10] == "attachment";
    h
  }

  /** A printable ASCII name with nothing the header or the client's parsing
      treats specially: no quotes, backslash, `%` or `*`. */
  predicate PlainName(name: string) {
    && name != []
    && forall i :: 0 <= i < |name| ==>
         && 0x20 <= name[i] as int <= 0x7E
         && name[i] != '"' && name[i] != '\'' && name[i] != '\\' && name[i] != '%' && name[i] != '*'
  }

  lemma {:induction false} EscapeQuotedPlain(s: string)
    requires forall i :: 0 <= i < |s| ==> s[i] != '"' && s[i] != '\\'
    ensures EscapeQuoted(s) == s
  {
    if s != [] {
      EscapeQuotedPlain(s[1..]);
      assert [s[0]] + s[1..] == s;
    }
  }

  /** A plain name is sent as a lone quoted `filename` parameter. */
  lemma ExpressHeaderOfPlain(name: string)
    requires PlainName(name)
    ensures ExpressHeader(name) == Attachment + "filename=" + ("\"" + name + "\"")
  {
    PlainParams(name);
    QuotedParamText(name);
  }

  lemma PlainParams(name: string)
    requires PlainName(name)
    ensures FilenameParam(name) == "; filename=\"" + name + "\""
    ensures FilenameStarParam(name) == []
  {
    PlainNameParts(name);
    EscapeQuotedPlain(name);
  }

  lemma QuotedParamText(name: string)
    ensures "attachment" + ("; filename=\"" + name + "\"") + [] == Attachment + "filename=" + ("\"" + name + "\"")
  {
  }

  /** A plain name is quotable, is its own fallback and holds no escape. */
  lemma PlainNameParts(name: string)
    requires PlainName(name)
    ensures Quotable(name)
    ensures Latin1Fallback(name) == name
    ensures !HasHexEscape(name)
    ensures forall i :: 0 <= i < |name| ==> name[i] != '"' && name[i] != '\\'
  {
    assert '%' !in name by {
      forall i | 0 <= i < |name| ensures name[i] != '%' { }
    }
  }

  /** The client reads a plain name back out of the header Express sends: it
      finds no `filename*`, takes the quoted value, strips its quotes and
      decodes it, which leaves a name without `%` unchanged. */
  lemma SentHeaderRoundTrip(name: string)
    requires PlainName(name)
    ensures ParseFilename(Some(ExpressHeader(name))) == Some(name)
  {
    ExpressHeaderOfPlain(name);
    assert '*' !in name && '"' !in name && '\'' !in name && '%' !in name by {
      forall i | 0 <= i < |name|
        ensures name[i] != '*' && name[i] != '"' && name[i] != '\'' && name[i] != '%' { }
    }
    QuotedFilename(ExpressHeader(name), name);
    DecodeWithoutPercent(name);
  }
}
