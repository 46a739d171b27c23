/**
 * Display formatting on the client: a number of seconds written as
 * `1h 2m 3s`, and text cut to a maximum length with an ellipsis.
 */
module Format {
  import opened Wrappers
  import opened Text
  import Decimal

  /** The units a duration is written in, largest first. */
  datatype Unit = Hours | Minutes | Seconds

  function Weight(u: Unit): nat {
    match u
    case Hours => 3600
    case Minutes => 60
    case Seconds => 1
  }

  function Suffix(u: Unit): char {
    match u
    case Hours => 'h'
    case Minutes => 'm'
    case Seconds => 's'
  }

  function UnitOf(c: char): (r: Option<Unit>)
    ensures r.Some? ==> Suffix(r.value) == c
  {
    if c == 'h' then Some(Hours) else if c == 'm' then Some(Minutes) else if c == 's' then Some(Seconds) else None
  }

  /** A duration as a list of (count, unit) parts. */
  type Parts = seq<(nat, Unit)>

  /** The number of seconds a list of parts stands for. */
  function Total(parts: Parts): nat {
    if parts == [] then 0 else SecondsOf(parts[0]) + Total(parts[1..])
  }

  function SecondsOf(p: (nat, Unit)): nat {
    p.0 * Weight(p.1)
  }

  /** Whole hours, the minutes left over, and the seconds left over. */
  function Hms(s: nat): (nat, nat, nat) {
    (s / 3600, (s % 3600) / 60, s % 60)
  }

  /** `formatDuration`'s parts: zero hours and zero minutes are omitted, and
      the seconds are kept when non-zero or when nothing else is. */
  function DurationParts(s: nat): Parts {
    var (hours, minutes, secs) := Hms(s);
    PartsOf(hours, minutes, secs)
  }

  function PartsOf(hours: nat, minutes: nat, secs: nat): Parts {
    var hs := if hours > 0 then [(hours, Hours)] else [];
    var ms := if minutes > 0 then [(minutes, Minutes)] else [];
    hs + ms + (if secs > 0 || hs + ms == [] then [(secs, Seconds)] else [])
  }

  /** `${count}${unit}`. */
  function Piece(p: (nat, Unit)): (r: string)
    ensures |r| >= 2 && r[|r| - 1] == Suffix(p.1)
  {
    Decimal.NatToString(p.0) + [Suffix(p.1)]
  }

  function Pieces(parts: Parts): (r: seq<string>)
    ensures |r| == |parts|
    ensures forall k :: 0 <= k < |parts| ==> r[k] == Piece(parts[k])
  {
    if parts == [] then [] else [Piece(parts[0])] + Pieces(parts[1..])
  }

  /** `formatDuration(seconds)`, for a whole non-negative number of seconds. */
  function FormatDuration(s: nat): string {
    Join(Pieces(DurationParts(s)), " ")
  }

  // ---- the reading direction ------------------------------------------------

  /** One `<digits><unit>` piece. */
  function ParsePiece(p: string): Option<(nat, Unit)> {
    if |p| < 2 then None
    else
      match UnitOf(p[|p| - 1])
      case None => None
      case Some(u) =>
        var digits := p[..|p| - 1];
        if Decimal.AllDigits(digits) then Some((Decimal.DigitsValue(digits), u)) else None
  }

  function ParsePieces(ps: seq<string>): Option<Parts> {
    if ps == [] then Some([])
    else
      match ParsePiece(ps[0])
      case None => None
      case Some(p) =>
        match ParsePieces(ps[1..])
        case None => None
        case Some(rest) => Some([p] + rest)
  }

  /** Reads a space-separated list of pieces back as a number of seconds. */
  function ParseDuration(r: string): Option<nat> {
    match ParsePieces(Split(r, ' '))
    case None => None
    case Some(parts) => Some(Total(parts))
  }

  /** The written form: one to three parts with units strictly from largest to
      smallest, every count positive except a lone `0s`, and minutes and
      seconds below sixty. */
  predicate Canonical(parts: Parts) {
    && 1 <= |parts| <= 3
    && (forall k :: 0 <= k < |parts| - 1 ==> Weight(parts[k].1) > Weight(parts[k + 1].1))
    && (forall k :: 0 <= k < |parts| ==> parts[k].1 != Hours ==> parts[k].0 < 60)
    && (forall k :: 0 <= k < |parts| ==> parts[k].0 > 0 || (|parts| == 1 && parts[k].1 == Seconds))
  }

  // ---- properties -------------------------------------------------------------

  /** Hours, minutes and seconds recompose the input, with minutes and
      seconds below sixty. */
  lemma HmsRecomposes(s: nat)
    ensures var (h, m, x) := Hms(s); h * 3600 + m * 60 + x == s && m < 60 && x < 60
  {
    var h, r := s / 3600, s % 3600;
    var m, x := r / 60, r % 60;
    assert s == h * 3600 + r && 0 <= r < 3600;
    assert r == m * 60 + x && 0 <= x < 60;
    Split60(s, h * 60 + m, x);
  }

  /** Division by an hour, from a quotient and a remainder. */
  lemma Split3600(s: int, q: int, r: int)
    requires 0 <= r < 3600 && s == q * 3600 + r
    ensures s / 3600 == q && s % 3600 == r
  {
  }

  /** Division by a minute, from a quotient and a remainder. */
  lemma Split60(s: int, q: int, r: int)
    requires 0 <= r < 60 && s == q * 60 + r
    ensures s / 60 == q && s % 60 == r
  {
  }

  lemma {:induction false} TotalAppend(a: Parts, b: Parts)
    ensures Total(a + b) == Total(a) + Total(b)
  {
    if a != [] {
      assert (a + b)[0] == a[0] && (a + b)[1..] == a[1..] + b;
      TotalAppend(a[1..], b);
    } else {
      assert a + b == b;
    }
  }

  /** The parts of a duration add up to it and are written canonically. */
  lemma DurationPartsCanonical(s: nat)
    ensures Total(DurationParts(s)) == s
    ensures Canonical(DurationParts(s))
  {
    HmsRecomposes(s);
    var (hours, minutes, secs) := Hms(s);
    PartsOfCanonical(hours, minutes, secs);
  }

  /** Parts built from counts with minutes and seconds below sixty are
      canonical and add up to those counts. */
  lemma PartsOfCanonical(h: nat, m: nat, x: nat)
    requires m < 60 && x < 60
    ensures Total(PartsOf(h, m, x)) == h * 3600 + m * 60 + x
    ensures Canonical(PartsOf(h, m, x))
  {
    var hs: Parts := if h > 0 then [(h, Hours)] else [];
    var ms: Parts := if m > 0 then [(m, Minutes)] else [];
    var ss: Parts := if x > 0 || hs + ms == [] then [(x, Seconds)] else [];
    assert PartsOf(h, m, x) == hs + ms + ss;
    TotalAppend(hs, ms);
    TotalAppend(hs + ms, ss);
  }

  /** Counts below sixty for minutes and seconds are read back from their total. */
  lemma HmsOf(h: nat, m: nat, x: nat)
    requires m < 60 && x < 60
    ensures Hms(h * 3600 + m * 60 + x) == (h, m, x)
  {
    var s := h * 3600 + m * 60 + x;
    Split3600(s, h, m * 60 + x);
    Split60(m * 60 + x, m, x);
    Split60(s, h * 60 + m, x);
  }

  lemma DurationPartsOf(t: nat, h: nat, m: nat, x: nat)
    requires m < 60 && x < 60 && t == h * 3600 + m * 60 + x
    ensures DurationParts(t) == PartsOf(h, m, x)
  {
    HmsOf(h, m, x);
  }

  /** Every canonical list of parts is the one written for its total, so the
      written forms are exactly the canonical ones. */
  lemma CanonicalIsDurationParts(p: Parts)
    requires Canonical(p)
    ensures DurationParts(Total(p)) == p
  {
    if |p| == 1 {
      CanonicalOne(p);
    } else if |p| == 2 {
      CanonicalTwo(p);
    } else {
      CanonicalThree(p);
    }
  }

  lemma CanonicalOne(p: Parts)
    requires Canonical(p) && |p| == 1
    ensures DurationParts(Total(p)) == p
  {
    var (c, u) := p[0];
    assert Total(p[1..]) == 0;
    match u
    case Hours =>
      DurationPartsOf(Total(p), c, 0, 0);
      assert PartsOf(c, 0, 0) == p;
    case Minutes =>
      DurationPartsOf(Total(p), 0, c, 0);
      assert PartsOf(0, c, 0) == p;
    case Seconds =>
      DurationPartsOf(Total(p), 0, 0, c);
      assert PartsOf(0, 0, c) == p;
  }

  lemma CanonicalTwo(p: Parts)
    requires Canonical(p) && |p| == 2
    ensures DurationParts(Total(p)) == p
  {
    var (c0, u0) := p[0];
    var (c1, u1) := p[1];
    TotalTwo(p);
    assert Weight(u0) > Weight(u1);
    if u0 == Hours && u1 == Minutes {
      DurationPartsOf(Total(p), c0, c1, 0);
      assert PartsOf(c0, c1, 0) == p;
    } else if u0 == Hours {
      assert u1 == Seconds;
      DurationPartsOf(Total(p), c0, 0, c1);
      assert PartsOf(c0, 0, c1) == p;
    } else {
      assert u0 == Minutes && u1 == Seconds;
      DurationPartsOf(Total(p), 0, c0, c1);
      assert PartsOf(0, c0, c1) == p;
    }
  }

  lemma TotalTwo(p: Parts)
    requires |p| == 2
    ensures Total(p) == SecondsOf(p[0]) + SecondsOf(p[1])
  {
    assert Total(p[1..][1..]) == 0;
  }

  lemma TotalThree(p: Parts)
    requires |p| == 3
    ensures Total(p) == SecondsOf(p[0]) + SecondsOf(p[1]) + SecondsOf(p[2])
  {
    TotalTwo(p[1..]);
  }

  lemma CanonicalThree(p: Parts)
    requires Canonical(p) && |p| == 3
    ensures DurationParts(Total(p)) == p
  {
    var (c0, u0) := p[0];
    var (c1, u1) := p[1];
    var (c2, u2) := p[2];
    assert Weight(u0) > Weight(u1) > Weight(u2);
    assert u0 == Hours && u1 == Minutes && u2 == Seconds;
    TotalThree(p);
    DurationPartsOf(Total(p), c0, c1, c2);
    assert PartsOf(c0, c1, c2) == p;
  }

  /** Zero seconds are written `0s`, and a whole hour `1h`. */
  lemma FormatDurationZeroAndHour()
    ensures FormatDuration(0) == "0s"
    ensures FormatDuration(3600) == "1h"
  {
    DurationPartsOf(0, 0, 0, 0);
    assert PartsOf(0, 0, 0) == [(0, Seconds)];
    DurationPartsOf(3600, 1, 0, 0);
    assert PartsOf(1, 0, 0) == [(1, Hours)];
    assert Piece((1, Hours)) == "1h";
  }

  /** An hour, a minute and a second are written `1h 1m 1s`. */
  lemma FormatDurationAllUnits()
    ensures FormatDuration(3661) == "1h 1m 1s"
  {
    DurationPartsOf(3661, 1, 1, 1);
    assert PartsOf(1, 1, 1) == [(1, Hours), (1, Minutes), (1, Seconds)];
    assert Piece((1, Hours)) == "1h" && Piece((1, Minutes)) == "1m" && Piece((1, Seconds)) == "1s";
    var ps := Pieces(DurationParts(3661));
    assert ps == ["1h", "1m", "1s"];
    assert ps[..2] == ["1h", "1m"] && ps[..2][..1] == ["1h"];
    assert Join(ps[..2], " ") == "1h 1m";
  }

  /** Ninety seconds are written `1m 30s`: no hours part. */
  lemma FormatDurationNoHours()
    ensures FormatDuration(90) == "1m 30s"
  {
    DurationPartsOf(90, 0, 1, 30);
    assert PartsOf(0, 1, 30) == [(1, Minutes), (30, Seconds)];
    assert Decimal.NatToString(30) == "30";
    assert Piece((1, Minutes)) == "1m" && Piece((30, Seconds)) == "30s";
  }

  lemma ParsePieceOfPiece(p: (nat, Unit))
    ensures ParsePiece(Piece(p)) == Some(p)
  {
    var r := Piece(p);
    var digits := Decimal.NatToString(p.0);
    assert r[..|r| - 1] == digits;
    Decimal.NatToStringRoundTrip(p.0);
  }

  lemma {:induction false} ParsePiecesOfPieces(parts: Parts)
    ensures ParsePieces(Pieces(parts)) == Some(parts)
  {
    if parts != [] {
      var ps := Pieces(parts);
      assert ps[1..] == Pieces(parts[1..]);
      ParsePieceOfPiece(parts[0]);
      ParsePiecesOfPieces(parts[1..]);
      assert [parts[0]] + parts[1..] == parts;
    }
  }

  /** A piece has no space in it. */
  lemma PieceHasNoSpace(p: (nat, Unit))
    ensures ' ' !in Piece(p)
  {
    var r := Piece(p);
    var digits := Decimal.NatToString(p.0);
    forall k | 0 <= k < |r| ensures r[k] != ' ' {
      if k < |digits| {
        assert r[k] == digits[k] && IsDigit(digits[k]);
      }
    }
  }

  /** Reading a formatted duration back gives its parts. */
  lemma PartsRoundTrip(parts: Parts)
    requires |parts| >= 1
    ensures ParsePieces(Split(Join(Pieces(parts), " "), ' ')) == Some(parts)
  {
    var ps := Pieces(parts);
    forall k | 0 <= k < |ps| ensures ' ' !in ps[k] {
      PieceHasNoSpace(parts[k]);
    }
    SplitOfJoin(ps, ' ');
    ParsePiecesOfPieces(parts);
  }

  /** Reading a formatted duration back gives the number of seconds. */
  lemma FormatDurationRoundTrip(s: nat)
    ensures ParseDuration(FormatDuration(s)) == Some(s)
  {
    DurationPartsCanonical(s);
    PartsRoundTrip(DurationParts(s));
  }

  /** Different durations are written differently. */
  lemma FormatDurationInjective(s: nat, t: nat)
    requires FormatDuration(s) == FormatDuration(t)
    ensures s == t
  {
    FormatDurationRoundTrip(s);
    FormatDurationRoundTrip(t);
  }

  /** The output is never empty. */
  lemma FormatDurationNonEmpty(s: nat)
    ensures FormatDuration(s) != []
  {
    DurationPartsCanonical(s);
    var ps := Pieces(DurationParts(s));
    if |ps| > 1 {
      assert FormatDuration(s) == Join(ps[..|ps| - 1], " ") + " " + ps[|ps| - 1];
    }
  }

  // ---- truncateText -----------------------------------------------------------

  /** `text.slice(0, end)`: a negative end counts back from the end of the text. */
  function SliceTo(text: string, end: int): (r: string)
    ensures |r| <= |text| && r == text[..|r|]
    ensures end >= 0 ==> |r| == if end <= |text| then end else |text|
    ensures end < 0 ==> |r| == if |text| + end >= 0 then |text| + end else 0
  {
    if end < 0 then (if |text| + end >= 0 then text[..|text| + end] else [])
    else if end <= |text| then text[..end]
    else text
  }

  const Ellipsis := "..."

  /** `truncateText(text, maxLength)`, counting characters. */
  function TruncateText(text: string, maxLength: int): string {
    if |text| <= maxLength then text else SliceTo(text, maxLength) + Ellipsis
  }

  /** A text within the limit is unchanged; a longer one becomes its first
      `maxLength` characters and an ellipsis. */
  lemma TruncateTextShape(text: string, maxLength: nat)
    ensures |text| <= maxLength ==> TruncateText(text, maxLength) == text
    ensures |text| > maxLength ==>
              && |TruncateText(text, maxLength)| == maxLength + 3
              && StartsWith(TruncateText(text, maxLength), text[..maxLength])
              && TruncateText(text, maxLength)[maxLength..] == Ellipsis
  {
    if |text| > maxLength {
      var r := TruncateText(text, maxLength);
      assert r[..maxLength] == text[..maxLength];
    }
  }

  /** Truncating twice with the same limit is truncating once. */
  lemma TruncateTextIdempotent(text: string, maxLength: nat)
    ensures TruncateText(TruncateText(text, maxLength), maxLength) == TruncateText(text, maxLength)
  {
    TruncateTextShape(text, maxLength);
    if |text| > maxLength {
      var r := TruncateText(text, maxLength);
      TruncateTextShape(r, maxLength);
      assert r[..maxLength] == text[..maxLength];
    }
  }

  /** A negative limit keeps all but the last `-maxLength` characters. */
  lemma TruncateTextNegative(text: string, maxLength: int)
    requires maxLength < 0 && |text| + maxLength >= 0
    ensures TruncateText(text, maxLength) == text[..|text| + maxLength] + Ellipsis
  {
  }
}
