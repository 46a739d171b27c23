/**
 * `encodeURIComponent` and `decodeURIComponent` (section 19.2.6 of ECMA-262):
 * characters outside the unreserved set are written as the UTF-8 bytes of the
 * character, each as `%` and two upper-case hex digits; decoding reverses this
 * and fails (a URIError in JavaScript) on a malformed escape or invalid UTF-8.
 */
module UriComponent {
  import opened Wrappers
  import opened Text

  /** Characters `encodeURIComponent` leaves as they are. */
  predicate IsUnreserved(c: char) {
    IsAsciiLetter(c) || IsDigit(c)
    || c == '-' || c == '_' || c == '.' || c == '!' || c == '~' || c == '*' || c == '\'' || c == '(' || c == ')'
  }

  type Byte = b: int | 0 <= b < 256

  const HexDigits := "0123456789ABCDEF"

  function HexValue(c: char): (r: Option<nat>)
    ensures r.Some? ==> r.value < 16
  {
    if '0' <= c <= '9' then Some(c as int - '0' as int)
    else if 'A' <= c <= 'F' then Some(c as int - 'A' as int + 10)
    else if 'a' <= c <= 'f' then Some(c as int - 'a' as int + 10)
    else None
  }

  /** One byte as an escape `%XY`. */
  function Escape(b: Byte): (r: string)
    ensures |r| == 3 && r[0] == '%'
  {
    ['%', HexDigits[b / 16], HexDigits[b % 16]]
  }

  function Escapes(bs: seq<Byte>): (r: string)
    ensures |r| == 3 * |bs|
  {
    if bs == [] then [] else Escape(bs[0]) + Escapes(bs[1..])
  }

  /** The UTF-8 encoding of one scalar value (section 3.9 of The Unicode Standard). */
  function Utf8(c: char): (bs: seq<Byte>)
    ensures 1 <= |bs| <= 4
  {
    var n := c as int;
    if n < 0x80 then [n]
    else if n < 0x800 then [0xC0 + n / 64, 0x80 + n % 64]
    else if n < 0x10000 then [0xE0 + n / 4096, 0x80 + (n / 64) % 64, 0x80 + n % 64]
    else [0xF0 + n / 262144, 0x80 + (n / 4096) % 64, 0x80 + (n / 64) % 64, 0x80 + n % 64]
  }

  /** The number of bytes announced by a leading byte, or 0 when it cannot start a sequence. */
  function SequenceLength(b: Byte): nat {
    if b < 0x80 then 1
    else if 0xC0 <= b < 0xE0 then 2
    else if 0xE0 <= b < 0xF0 then 3
    else if 0xF0 <= b < 0xF8 then 4
    else 0
  }

  predicate IsContinuation(b: Byte) {
    0x80 <= b < 0xC0
  }

  predicate IsScalar(n: int) {
    (0 <= n < 0xD800) || (0xE000 <= n < 0x110000)
  }

  /** Decodes exactly one UTF-8 sequence, rejecting overlong forms, surrogates
      and values above U+10FFFF. */
  function Utf8Decode(bs: seq<Byte>): Option<char> {
    if |bs| == 1 && bs[0] < 0x80 then Some(bs[0] as char)
    else if |bs| == 2 && SequenceLength(bs[0]) == 2 && IsContinuation(bs[1]) then
      var n := (bs[0] as int - 0xC0) * 64 + (bs[1] as int - 0x80);
      if n >= 0x80 then Some(n as char) else None
    else if |bs| == 3 && SequenceLength(bs[0]) == 3 && IsContinuation(bs[1]) && IsContinuation(bs[2]) then
      var n := (bs[0] as int - 0xE0) * 4096 + (bs[1] as int - 0x80) * 64 + (bs[2] as int - 0x80);
      if n >= 0x800 && IsScalar(n) then Some(n as char) else None
    else if |bs| == 4 && SequenceLength(bs[0]) == 4 && IsContinuation(bs[1]) && IsContinuation(bs[2])
            && IsContinuation(bs[3]) then
      var n := (bs[0] as int - 0xF0) * 262144 + (bs[1] as int - 0x80) * 4096 + (bs[2] as int - 0x80) * 64
               + (bs[3] as int - 0x80);
      if 0x10000 <= n && IsScalar(n) then Some(n as char) else None
    else None
  }

  function EncodeChar(c: char): (r: string)
    ensures |r| >= 1
  {
    if IsUnreserved(c) then [c] else Escapes(Utf8(c))
  }

  /** `encodeURIComponent(s)`. */
  function Encode(s: string): (r: string)
    ensures |r| >= |s|
  {
    if s == [] then [] else EncodeChar(s[0]) + Encode(s[1..])
  }

  /** Reads one escape `%XY` from the start of `s`. */
  function ReadEscape(s: string): (r: Option<Byte>)
    ensures r.Some? ==> |s| >= 3
  {
    if |s| < 3 || s[0] != '%' || HexValue(s[1]).None? || HexValue(s[2]).None? then None
    else Some(HexValue(s[1]).value * 16 + HexValue(s[2]).value)
  }

  /** Reads `n` consecutive escapes from the start of `s`. */
  function ReadEscapes(s: string, n: nat): Option<seq<Byte>>
    decreases n
  {
    if n == 0 then Some([])
    else
      match ReadEscape(s)
      case None => None
      case Some(b) =>
        match ReadEscapes(s[3..], n - 1)
        case None => None
        case Some(rest) => Some([b] + rest)
  }

  /** `decodeURIComponent(s)`; `None` is the URIError. */
  function Decode(s: string): Option<string>
    decreases |s|
  {
    if s == [] then Some([])
    else if s[0] != '%' then
      match Decode(s[1..])
      case None => None
      case Some(t) => Some([s[0]] + t)
    else
      match ReadEscapes(s, 1)
      case None => None
      case Some(first) =>
        var n := SequenceLength(first[0]);
        if n == 0 || |s| < 3 * n then None
        else
          match ReadEscapes(s, n)
          case None => None
          case Some(bs) =>
            match Utf8Decode(bs)
            case None => None
            case Some(c) =>
              match Decode(s[3 * n..])
              case None => None
              case Some(t) => Some([c] + t)
  }

  /** Characters that can appear in the output of `Encode`. */
  predicate IsEncodedChar(c: char) {
    IsUnreserved(c) || c == '%' || c in HexDigits
  }

  predicate AllEncoded(s: string) {
    forall i :: 0 <= i < |s| ==> IsEncodedChar(s[i])
  }

  lemma AllEncodedAppend(a: string, b: string)
    requires AllEncoded(a) && AllEncoded(b)
    ensures AllEncoded(a + b)
  {
    forall i | 0 <= i < |a + b| ensures IsEncodedChar((a + b)[i]) {
      if i >= |a| { assert (a + b)[i] == b[i - |a|]; }
    }
  }

  lemma EscapeAlphabet(b: Byte)
    ensures AllEncoded(Escape(b))
  {
    var e := Escape(b);
    assert e[1] in HexDigits && e[2] in HexDigits;
  }

  lemma {:induction false} EscapesAlphabet(bs: seq<Byte>)
    ensures AllEncoded(Escapes(bs))
  {
    if bs != [] {
      EscapesAlphabet(bs[1..]);
      EscapeAlphabet(bs[0]);
      AllEncodedAppend(Escape(bs[0]), Escapes(bs[1..]));
    }
  }

  lemma EncodeCharAlphabet(c: char)
    ensures AllEncoded(EncodeChar(c))
  {
    if !IsUnreserved(c) {
      EscapesAlphabet(Utf8(c));
    }
  }

  /** `encodeURIComponent` output uses only unreserved characters, `%` and
      upper-case hex digits; in particular it never contains `;`. */
  lemma {:induction false} EncodeAlphabet(s: string)
    ensures AllEncoded(Encode(s))
    ensures ';' !in Encode(s)
  {
    if s != [] {
      EncodeAlphabet(s[1..]);
      EncodeCharAlphabet(s[0]);
      AllEncodedAppend(EncodeChar(s[0]), Encode(s[1..]));
    }
    var r := Encode(s);
    forall i | 0 <= i < |r| ensures r[i] != ';' {
      assert IsEncodedChar(r[i]);
    }
  }

  lemma HexDigitRoundTrip(d: nat)
    requires d < 16
    ensures HexValue(HexDigits[d]) == Some(d)
  {
  }

  /** An escape reads back as its byte, whatever follows it. */
  lemma ReadEscapeOfEscape(b: Byte, rest: string)
    ensures ReadEscape(Escape(b) + rest) == Some(b)
  {
    var s := Escape(b) + rest;
    var hi, lo := b / 16, b % 16;
    assert hi * 16 + lo == b;
    assert s[0] == '%' && s[1] == HexDigits[hi] && s[2] == HexDigits[lo];
    HexDigitRoundTrip(hi);
    HexDigitRoundTrip(lo);
  }

  lemma ReadOneEscape(s: string)
    requires ReadEscape(s).Some?
    ensures ReadEscapes(s, 1) == Some([ReadEscape(s).value])
  {
    assert [ReadEscape(s).value] + [] == [ReadEscape(s).value];
  }

  /** Reading escapes past a leading escape reads its byte, then the rest. */
  lemma ReadEscapesCons(b: Byte, tail: string, n: nat)
    ensures ReadEscapes(Escape(b) + tail, n + 1)
            == match ReadEscapes(tail, n) case None => None case Some(r) => Some([b] + r)
  {
    var s := Escape(b) + tail;
    ReadEscapeOfEscape(b, tail);
    assert s[3..] == tail;
  }

  lemma {:induction false} ReadEscapesOfEscapes(bs: seq<Byte>, rest: string)
    ensures ReadEscapes(Escapes(bs) + rest, |bs|) == Some(bs)
  {
    if bs != [] {
      ReadEscapesOfEscapes(bs[1..], rest);
      var tail := Escapes(bs[1..]) + rest;
      assert Escapes(bs) + rest == Escape(bs[0]) + tail;
      ReadEscapesCons(bs[0], tail, |bs| - 1);
      assert [bs[0]] + bs[1..] == bs;
    }
  }

  lemma Utf8Leading(c: char)
    ensures SequenceLength(Utf8(c)[0]) == |Utf8(c)|
  {
    var n := c as int;
    assert n < 0x110000;
    if n >= 0x10000 {
      assert n / 262144 < 5;
    } else if n >= 0x800 {
      assert n / 4096 < 16;
    } else if n >= 0x80 {
      assert 2 <= n / 64 < 32;
    }
  }

  lemma Utf8Inverse(c: char)
    ensures Utf8Decode(Utf8(c)) == Some(c)
  {
    var n := c as int;
    var bs := Utf8(c);
    Utf8Leading(c);
    if n < 0x80 {
    } else if n < 0x800 {
      assert (bs[0] as int - 0xC0) * 64 + (bs[1] as int - 0x80) == n;
    } else if n < 0x10000 {
      DivModSplit(n);
      assert (bs[0] as int - 0xE0) * 4096 + (bs[1] as int - 0x80) * 64 + (bs[2] as int - 0x80) == n;
    } else {
      DivModSplit(n);
      DivModSplit(n / 64);
      assert (n / 64) / 4096 == n / 262144;
      assert (bs[0] as int - 0xF0) * 262144 + (bs[1] as int - 0x80) * 4096 + (bs[2] as int - 0x80) * 64
        + (bs[3] as int - 0x80) == n;
    }
  }

  lemma DivModSplit(n: nat)
    ensures n / 4096 * 4096 + ((n / 64) % 64) * 64 + n % 64 == n
    ensures (n / 64) / 64 == n / 4096
  {
    var q := n / 64;
    assert n == q * 64 + n % 64;
    assert q == (q / 64) * 64 + q % 64;
    assert n == (q / 64) * 4096 + (q % 64) * 64 + n % 64;
    assert q / 64 == n / 4096;
  }

  /** Decoding the escapes of a valid multi-byte sequence in front of any text. */
  lemma DecodeEscapedSequence(bs: seq<Byte>, c: char, rest: string)
    requires |bs| >= 1 && SequenceLength(bs[0]) == |bs|
    requires Utf8Decode(bs) == Some(c)
    ensures Decode(Escapes(bs) + rest) == match Decode(rest) case None => None case Some(t) => Some([c] + t)
  {
    var s := Escapes(bs) + rest;
    ReadEscapesOfEscapes(bs, rest);
    EscapesCons(bs, rest);
    FirstEscape(bs[0], Escapes(bs[1..]) + rest);
    assert s[3 * |bs|..] == rest;
    DecodeAtSequence(s, bs, c);
  }

  lemma EscapesCons(bs: seq<Byte>, rest: string)
    requires |bs| >= 1
    ensures Escapes(bs) + rest == Escape(bs[0]) + (Escapes(bs[1..]) + rest)
  {
    EscapesUnfold(bs);
    AppendAssoc(Escape(bs[0]), Escapes(bs[1..]), rest);
  }

  lemma EscapesUnfold(bs: seq<Byte>)
    requires |bs| >= 1
    ensures Escapes(bs) == Escape(bs[0]) + Escapes(bs[1..])
  {
  }

  lemma AppendAssoc(a: string, b: string, c: string)
    ensures (a + b) + c == a + (b + c)
  {
  }

  /** An escape in front of any text reads back, as a run of one, as its byte. */
  lemma FirstEscape(b: Byte, tail: string)
    ensures ReadEscapes(Escape(b) + tail, 1) == Some([b])
  {
    ReadEscapeOfEscape(b, tail);
    ReadOneEscape(Escape(b) + tail);
  }

  /** `Decode` at a run of escapes holding one valid multi-byte sequence. */
  lemma DecodeAtSequence(s: string, bs: seq<Byte>, c: char)
    requires |bs| >= 1 && SequenceLength(bs[0]) == |bs| && |s| >= 3 * |bs|
    requires s[0] == '%' && ReadEscapes(s, 1) == Some([bs[0]]) && ReadEscapes(s, |bs|) == Some(bs)
    requires Utf8Decode(bs) == Some(c)
    ensures Decode(s) == match Decode(s[3 * |bs|..]) case None => None case Some(t) => Some([c] + t)
  {
  }

  /** Decoding an encoded character in front of any text yields the character
      followed by the decoding of that text. */
  lemma DecodeEncodedChar(c: char, rest: string)
    ensures Decode(EncodeChar(c) + rest) == match Decode(rest) case None => None case Some(t) => Some([c] + t)
  {
    if IsUnreserved(c) {
      assert (EncodeChar(c) + rest)[1..] == rest;
    } else {
      Utf8Leading(c);
      Utf8Inverse(c);
      DecodeEscapedSequence(Utf8(c), c, rest);
    }
  }

  /** `decodeURIComponent(encodeURIComponent(s)) === s` for every string. */
  lemma {:induction false} DecodeEncode(s: string)
    ensures Decode(Encode(s)) == Some(s)
  {
    if s != [] {
      DecodeEncode(s[1..]);
      DecodeEncodeStep(s[0], s[1..], Encode(s[1..]));
      assert [s[0]] + s[1..] == s;
    }
  }

  lemma DecodeEncodeStep(c: char, tail: string, e: string)
    requires Decode(e) == Some(tail)
    ensures Decode(EncodeChar(c) + e) == Some([c] + tail)
  {
    DecodeEncodedChar(c, e);
  }

  /** Text without `%` decodes to itself. */
  lemma {:induction false} DecodeWithoutPercent(s: string)
    requires '%' !in s
    ensures Decode(s) == Some(s)
  {
    if s != [] {
      assert s[0] in s;
      assert '%' !in s[1..] by {
        forall k | 0 <= k < |s[1..]| ensures s[1..][k] != '%' { assert s[1..][k] == s[k + 1]; }
      }
      DecodeWithoutPercent(s[1..]);
      assert [s[0]] + s[1..] == s;
    }
  }
}
