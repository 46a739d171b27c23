/**
 * JavaScript string primitives the source relies on: whitespace and `trim`,
 * `startsWith`, `split`/`join`, ASCII case mapping, UTF-16 length.
 */
module Text {

  /** Characters matched by `\s` and removed by `String.prototype.trim`
      (ECMAScript WhiteSpace and LineTerminator). */
  predicate IsJsSpace(c: char) {
    var n := c as int;
    (0x09 <= n <= 0x0D) || n == 0x20 || n == 0xA0 || n == 0x1680
    || (0x2000 <= n <= 0x200A) || n == 0x2028 || n == 0x2029
    || n == 0x202F || n == 0x205F || n == 0x3000 || n == 0xFEFF
  }

  predicate NoSpace(s: string) {
    forall i :: 0 <= i < |s| ==> !IsJsSpace(s[i])
  }

  function TrimStart(s: string): (r: string)
    ensures |r| <= |s| && r == s[|s| - |r|..]
    ensures r == [] || !IsJsSpace(r[0])
    ensures forall i :: 0 <= i < |s| - |r| ==> IsJsSpace(s[i])
  {
    if s == [] || !IsJsSpace(s[0]) then s else TrimStart(s[1..])
  }

  function TrimEnd(s: string): (r: string)
    ensures |r| <= |s| && r == s[..|r|]
    ensures r == [] || !IsJsSpace(r[|r| - 1])
    ensures forall i :: |r| <= i < |s| ==> IsJsSpace(s[i])
  {
    if s == [] || !IsJsSpace(s[|s| - 1]) then s else TrimEnd(s[..|s| - 1])
  }

  /** `String.prototype.trim`. */
  function Trim(s: string): (r: string)
    ensures r == [] || (!IsJsSpace(r[0]) && !IsJsSpace(r[|r| - 1]))
  {
    TrimEnd(TrimStart(s))
  }

  predicate StartsWith(s: string, prefix: string) {
    |prefix| <= |s| && s[..|prefix|] == prefix
  }

  /** Index of the last occurrence of `c` in `s`, or -1. */
  function LastIndexOf(s: string, c: char): (r: int)
    ensures -1 <= r < |s|
    ensures r >= 0 ==> s[r] == c
    ensures forall i :: r < i < |s| ==> s[i] != c
  {
    if s == [] then -1
    else if s[|s| - 1] == c then |s| - 1
    else LastIndexOf(s[..|s| - 1], c)
  }

  /** Index of the first occurrence of `c` in `s`, or -1. */
  function IndexOf(s: string, c: char): (r: int)
    ensures -1 <= r < |s|
    ensures r >= 0 ==> s[r] == c
    ensures forall i :: 0 <= i < |s| && (r == -1 || i < r) ==> s[i] != c
  {
    if s == [] then -1
    else if s[0] == c then 0
    else var k := IndexOf(s[1..], c); if k == -1 then -1 else k + 1
  }

  /** `s.split(sep)` for a one-character separator: the pieces before the
      last separator, then the text after it. */
  function Split(s: string, sep: char): (r: seq<string>)
    ensures |r| >= 1
    decreases |s|
  {
    var i := LastIndexOf(s, sep);
    if i == -1 then [s] else Split(s[..i], sep) + [s[i + 1..]]
  }

  /** `parts.join(sep)`. */
  function Join(parts: seq<string>, sep: string): string {
    if parts == [] then []
    else if |parts| == 1 then parts[0]
    else Join(parts[..|parts| - 1], sep) + sep + parts[|parts| - 1]
  }

  /** The last occurrence is the position with the character and none after it. */
  lemma LastIndexOfAt(s: string, c: char, p: int)
    requires p == -1 || (0 <= p < |s| && s[p] == c)
    requires forall k :: p < k < |s| ==> s[k] != c
    ensures LastIndexOf(s, c) == p
  {
  }

  /** A suffix whose positions all avoid `c` does not contain `c`. */
  lemma AbsentFromSuffix(s: string, i: nat, c: char)
    requires i <= |s| && forall k :: i <= k < |s| ==> s[k] != c
    ensures c !in s[i..]
  {
    forall k | 0 <= k < |s[i..]| ensures s[i..][k] != c {
      assert s[i..][k] == s[i + k];
    }
  }

  /** The first occurrence is the position with the character and none before it. */
  lemma IndexOfAt(s: string, c: char, p: int)
    requires p == -1 || (0 <= p < |s| && s[p] == c)
    requires forall k :: 0 <= k < |s| && (p == -1 || k < p) ==> s[k] != c
    ensures IndexOf(s, c) == p
  {
  }

  lemma {:induction false} SplitJoin(s: string, sep: char)
    ensures Join(Split(s, sep), [sep]) == s
    decreases |s|
  {
    var i := LastIndexOf(s, sep);
    if i != -1 {
      var init := Split(s[..i], sep);
      var parts := init + [s[i + 1..]];
      assert |parts| >= 2 && parts[..|parts| - 1] == init && parts[|parts| - 1] == s[i + 1..];
      SplitJoin(s[..i], sep);
      assert s == s[..i] + [sep] + s[i + 1..];
    }
  }

  /** Splitting a join of separator-free parts gives the parts back. */
  lemma {:induction false} SplitOfJoin(parts: seq<string>, sep: char)
    requires |parts| >= 1
    requires forall k :: 0 <= k < |parts| ==> sep !in parts[k]
    ensures Split(Join(parts, [sep]), sep) == parts
    decreases |parts|
  {
    var s := Join(parts, [sep]);
    if |parts| == 1 {
      LastIndexOfAt(s, sep, -1);
    } else {
      var init := parts[..|parts| - 1];
      var last := parts[|parts| - 1];
      var head := Join(init, [sep]);
      assert s == head + [sep] + last;
      forall k | |head| < k < |s| ensures s[k] != sep {
        assert s[k] == last[k - |head| - 1];
      }
      LastIndexOfAt(s, sep, |head|);
      assert s[..|head|] == head && s[|head| + 1..] == last;
      SplitOfJoin(init, sep);
      assert init + [last] == parts;
    }
  }

  /** Splitting at a separator splits each side on its own. */
  lemma {:induction false} SplitAppend(a: string, b: string, sep: char)
    ensures Split(a + [sep] + b, sep) == Split(a, sep) + Split(b, sep)
    decreases |b|
  {
    var j := LastIndexOf(b, sep);
    if j == -1 {
      SplitAppendPlain(a, b, sep);
    } else {
      var s := a + [sep] + b;
      var i := LastSepInSuffix(a, b, sep);
      assert s[..i] == a + [sep] + b[..j] && s[i + 1..] == b[j + 1..];
      SplitAtLast(s, sep);
      SplitAtLast(b, sep);
      SplitAppend(a, b[..j], sep);
      AppendAssocPieces(Split(a, sep), Split(b[..j], sep), [b[j + 1..]]);
    }
  }

  /** Splitting unfolds at the last separator. */
  lemma SplitAtLast(s: string, sep: char)
    requires LastIndexOf(s, sep) >= 0
    ensures Split(s, sep) == Split(s[..LastIndexOf(s, sep)], sep) + [s[LastIndexOf(s, sep) + 1..]]
  {
  }

  lemma AppendAssocPieces(x: seq<string>, y: seq<string>, z: seq<string>)
    ensures (x + y) + z == x + (y + z)
  {
  }

  /** With no separator after it, the joining separator is the last one. */
  lemma SplitAppendPlain(a: string, b: string, sep: char)
    requires LastIndexOf(b, sep) == -1
    ensures Split(a + [sep] + b, sep) == Split(a, sep) + Split(b, sep)
  {
    var s := a + [sep] + b;
    forall k | |a| < k < |s| ensures s[k] != sep {
      assert s[k] == b[k - |a| - 1];
    }
    LastIndexOfAt(s, sep, |a|);
    assert s[..|a|] == a && s[|a| + 1..] == b;
    SplitAtLast(s, sep);
    assert Split(b, sep) == [b];
  }

  /** The last separator of `b` is the last one of `a + [sep] + b`. */
  lemma LastSepInSuffix(a: string, b: string, sep: char) returns (i: int)
    requires LastIndexOf(b, sep) >= 0
    ensures i == |a| + 1 + LastIndexOf(b, sep) && LastIndexOf(a + [sep] + b, sep) == i
  {
    var s := a + [sep] + b;
    i := |a| + 1 + LastIndexOf(b, sep);
    forall k | i < k < |s| ensures s[k] != sep {
      assert s[k] == b[k - |a| - 1];
    }
    LastIndexOfAt(s, sep, i);
  }

  /** A text with exactly one separator splits into the two sides. */
  lemma SplitAtOnly(a: string, b: string, c: char)
    requires c !in a && c !in b
    ensures Split(a + [c] + b, c) == [a, b]
  {
    var s := a + [c] + b;
    assert s[|a|] == c;
    forall i | |a| < i < |s| ensures s[i] != c { assert s[i] == b[i - |a| - 1]; }
    LastIndexOfAt(s, c, |a|);
    assert s[..|a|] == a;
    assert s[|a| + 1..] == b;
    LastIndexOfAt(a, c, -1);
  }

  /** A separator-free text splits into itself alone. */
  lemma SplitOfPlain(s: string, sep: char)
    requires sep !in s
    ensures Split(s, sep) == [s]
  {
    LastIndexOfAt(s, sep, -1);
  }

  /** `s.split(sep).pop()`. */
  function LastPiece(s: string, sep: char): string {
    var pieces := Split(s, sep);
    pieces[|pieces| - 1]
  }

  /** The last piece of a split is the text after the last separator. */
  lemma LastOfSplit(s: string, sep: char)
    ensures LastPiece(s, sep) == s[LastIndexOf(s, sep) + 1..]
  {
    if LastIndexOf(s, sep) == -1 {
      assert s[0..] == s;
    }
  }

  /** The part of `toLowerCase` that can yield ASCII: the capital letters and
      KELVIN SIGN (U+212A), which lower-cases to `k`. Every other character
      keeps its case here. */
  function LowerChar(c: char): (r: char)
    ensures IsAsciiLetter(c) || c as int == 0x212A ==> 'a' <= r <= 'z'
  {
    if 'A' <= c <= 'Z' then (c as int + 32) as char
    else if c as int == 0x212A then 'k'
    else c
  }

  function ToLower(s: string): (r: string)
    ensures |r| == |s|
    ensures forall i :: 0 <= i < |s| ==> r[i] == LowerChar(s[i])
  {
    if s == [] then [] else [LowerChar(s[0])] + ToLower(s[1..])
  }

  /** Lower-casing leaves a leading dot in place. */
  lemma ToLowerDot(s: string)
    ensures ToLower("." + s) == "." + ToLower(s)
  {
    assert ("." + s)[1..] == s;
  }

  predicate IsAsciiLetter(c: char) {
    ('A' <= c <= 'Z') || ('a' <= c <= 'z')
  }

  predicate IsDigit(c: char) {
    '0' <= c <= '9'
  }

  /** `s.length` in JavaScript: UTF-16 code units, two for a character outside the BMP. */
  function Utf16Length(s: string): (n: nat)
    ensures |s| <= n <= 2 * |s|
  {
    if s == [] then 0 else (if s[0] as int >= 0x10000 then 2 else 1) + Utf16Length(s[1..])
  }
}
