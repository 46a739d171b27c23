/**
 * The JavaScript values a request body or environment variable can carry, with
 * the truthiness, template interpolation and `parseInt` the source applies to them.
 */
module JsValue {
  import opened Wrappers
  import opened Text
  import opened Decimal

  /** A request-body or option value. Numbers are integers in this model. */
  datatype Param = Undefined | Null | Num(n: int) | Str(s: string)

  /** JavaScript truthiness: `undefined`, `null`, `0` and `""` are falsy. */
  predicate Truthy(p: Param) {
    match p
    case Undefined => false
    case Null => false
    case Num(n) => n != 0
    case Str(s) => s != []
  }

  /** `${p}` inside a template literal. */
  function ToStr(p: Param): string {
    match p
    case Undefined => "undefined"
    case Null => "null"
    case Num(n) => IntToString(n)
    case Str(s) => s
  }

  /** `a || b`. */
  function Or(a: Param, b: Param): (r: Param)
    ensures Truthy(a) ==> r == a
    ensures !Truthy(a) ==> r == b
  {
    if Truthy(a) then a else b
  }

  /** `||` keeps the first truthy operand: it is truthy exactly when one of
      them is, the falsy values are its left units, and it associates. */
  lemma OrLaws(a: Param, b: Param, c: Param)
    ensures Truthy(Or(a, b)) <==> Truthy(a) || Truthy(b)
    ensures !Truthy(a) ==> Or(a, b) == b
    ensures Or(Undefined, b) == b && Or(Null, b) == b && Or(Num(0), b) == b && Or(Str([]), b) == b
    ensures Or(Or(a, b), c) == Or(a, Or(b, c))
    ensures Or(a, a) == a
  {
  }

  /** An environment variable read: absent or set to a string. */
  function Env(v: Option<string>): Param {
    match v
    case None => Undefined
    case Some(s) => Str(s)
  }

  /** `process.env.X || fallback` for a string setting. */
  function EnvOr(v: Option<string>, fallback: string): (r: string)
    ensures v.Some? && v.value != [] ==> r == v.value
    ensures v.None? || v.value == [] ==> r == fallback
  {
    if v.Some? && v.value != [] then v.value else fallback
  }

  /** The string default is the general `||` on the variable's value: an
      unset variable and an empty one both fall back, anything else is kept. */
  lemma EnvOrIsOr(v: Option<string>, fallback: string)
    ensures Str(EnvOr(v, fallback)) == Or(Env(v), Str(fallback))
    ensures EnvOr(None, fallback) == fallback && EnvOr(Some([]), fallback) == fallback
    ensures forall s :: s != [] ==> EnvOr(Some(s), fallback) == s
  {
  }

  /** The members every object literal inherits from `Object.prototype`, as a
      template literal renders them: a built-in method prints as native
      function source, and `__proto__` is the prototype itself. */
  function InheritedMember(key: string): (r: Option<string>)
    ensures r.Some? ==> r.value != [] && |key| >= 7
  {
    if key == "constructor" then Some("function Object() { [native code] }")
    else if key == "__proto__" then Some("[object Object]")
    else if key in ObjectPrototypeMethods then Some("function " + key + "() { [native code] }")
    else None
  }

  /** The methods of `Object.prototype` other than its constructor. */
  const ObjectPrototypeMethods: set<string> := {
    "toString", "toLocaleString", "valueOf", "hasOwnProperty", "isPrototypeOf",
    "propertyIsEnumerable", "__defineGetter__", "__defineSetter__",
    "__lookupGetter__", "__lookupSetter__"}

  /** A property lookup `obj[key]` on an object literal with the given own
      entries: an own entry wins, then the inherited member, else `undefined`
      (`None`). */
  function PropertyLookup(key: string, own: seq<(string, string)>): (r: Option<string>)
    ensures (exists i :: 0 <= i < |own| && own[i].0 == key) ==>
              r.Some? && exists i :: 0 <= i < |own| && own[i] == (key, r.value)
    ensures (forall i :: 0 <= i < |own| ==> own[i].0 != key) ==> r == InheritedMember(key)
  {
    if own == [] then InheritedMember(key)
    else if own[0].0 == key then Some(own[0].1)
    else
      var r := PropertyLookup(key, own[1..]);
      assert forall i :: 1 <= i < |own| ==> own[i] == own[1..][i - 1];
      r
  }

  predicate IsHexDigit(c: char) {
    IsDigit(c) || ('a' <= c <= 'f') || ('A' <= c <= 'F')
  }

  function HexDigitValue(c: char): nat
    requires IsHexDigit(c)
  {
    if IsDigit(c) then c as int - '0' as int
    else if 'a' <= c <= 'f' then c as int - 'a' as int + 10
    else c as int - 'A' as int + 10
  }

  /** A digit in radix 16 when `hex`, radix 10 otherwise. */
  predicate IsRadixDigit(c: char, hex: bool) {
    if hex then IsHexDigit(c) else IsDigit(c)
  }

  /** Length of the longest prefix of `s` made of digits in the given radix (10 or 16). */
  function DigitRun(s: string, hex: bool): (k: nat)
    ensures k <= |s|
    ensures forall i :: 0 <= i < k ==> IsRadixDigit(s[i], hex)
    ensures k < |s| ==> !IsRadixDigit(s[k], hex)
  {
    if s == [] || !IsRadixDigit(s[0], hex) then 0
    else 1 + DigitRun(s[1..], hex)
  }

  function RadixValue(s: string, hex: bool): nat
    requires forall i :: 0 <= i < |s| ==> IsRadixDigit(s[i], hex)
  {
    if s == [] then 0
    else
      var c := s[|s| - 1];
      assert IsRadixDigit(c, hex);
      (if hex then 16 else 10) * RadixValue(s[..|s| - 1], hex)
      + (if hex then HexDigitValue(c) else DigitValue(c))
  }

  lemma {:induction false} RadixValueDecimal(s: string)
    requires AllDigits(s)
    ensures RadixValue(s, false) == DigitsValue(s)
  {
    if s != [] {
      RadixValueDecimal(s[..|s| - 1]);
    }
  }

  /** The unsigned part of `parseInt`: an optional `0x` prefix, then the
      longest digit run; `None` when that run is empty. */
  function ParseUnsigned(u: string): Option<nat> {
    var hex := |u| >= 2 && u[0] == '0' && (u[1] == 'x' || u[1] == 'X');
    var body := if hex then u[2..] else u;
    var k := DigitRun(body, hex);
    if k == 0 then None else Some(RadixValue(body[..k], hex))
  }

  /** `parseInt(s)` with no radix: leading whitespace, an optional sign, then
      the unsigned part; `None` stands for NaN. */
  function ParseInt(s: string): Option<int> {
    var t := TrimStart(s);
    var neg := t != [] && t[0] == '-';
    var u := if t != [] && (t[0] == '-' || t[0] == '+') then t[1..] else t;
    match ParseUnsigned(u)
    case None => None
    case Some(v) => Some(if neg then -(v as int) else v as int)
  }

  /** A plain run of decimal digits reads as its decimal value. */
  lemma ParseUnsignedOfDigits(s: string)
    requires s != [] && AllDigits(s)
    ensures ParseUnsigned(s) == Some(DigitsValue(s))
  {
    assert !(s[0] == '0' && |s| >= 2 && (s[1] == 'x' || s[1] == 'X')) by {
      if |s| >= 2 { assert IsDigit(s[1]); }
    }
    assert DigitRun(s, false) == |s|;
    assert s[..|s|] == s;
    RadixValueDecimal(s);
  }

  /** A plain run of decimal digits parses to its value. */
  lemma ParseIntOfDigits(s: string)
    requires s != [] && AllDigits(s)
    ensures ParseInt(s) == Some(DigitsValue(s))
  {
    assert !IsJsSpace(s[0]) && s[0] != '-' && s[0] != '+' by { assert IsDigit(s[0]); }
    assert TrimStart(s) == s;
    ParseUnsignedOfDigits(s);
  }

  /** `parseInt(p)`: the value is first converted to a string. */
  function ParseIntParam(p: Param): Option<int> {
    ParseInt(ToStr(p))
  }

  /** `parseInt(x) || fallback`: NaN and zero both fall back. */
  function ParsedOr(v: Option<int>, fallback: int): (r: int)
    ensures v.Some? && v.value != 0 ==> r == v.value
    ensures v.None? || v.value == 0 ==> r == fallback
  {
    if v.Some? && v.value != 0 then v.value else fallback
  }

  /** Rendering an integer and reading it back with `parseInt` gives it back. */
  lemma {:induction false} ParseIntOfIntToString(n: int)
    ensures ParseInt(IntToString(n)) == Some(n)
  {
    if n < 0 {
      var d := NatToString(-n);
      NatToStringRoundTrip(-n);
      ParseIntOfMinusDigits(d, -n);
      assert IntToString(n) == "-" + d;
    } else {
      var d := NatToString(n);
      NatToStringRoundTrip(n);
      ParseIntOfDigits(d);
      assert IntToString(n) == d;
    }
  }

  /** A minus sign and a run of decimal digits parse to the negated value. */
  lemma ParseIntOfMinusDigits(s: string, m: nat)
    requires s != [] && AllDigits(s) && DigitsValue(s) == m
    ensures ParseInt("-" + s) == Some(-(m as int))
  {
    var t := "-" + s;
    assert !IsJsSpace(t[0]);
    assert TrimStart(t) == t;
    assert t[1..] == s;
    ParseUnsignedOfDigits(s);
  }

  /** Text that does not start with white space, a sign or a digit is NaN. */
  lemma ParseIntNotANumber(s: string)
    requires s == [] || (!IsJsSpace(s[0]) && !IsDigit(s[0]) && s[0] != '-' && s[0] != '+')
    ensures ParseInt(s) == None
  {
    if s != [] {
      assert TrimStart(s) == s;
    }
  }
}
