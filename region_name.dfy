/**
 * Region file names `r.<x>.<z>.mca`: the parser `get_region_coords`, which
 * searches a name for the pattern `r\.(-?\d+)\.(-?\d+)\.mca` anywhere in it
 * and parses both captures as i32, and the formatter the catalogue uses to
 * name the file of a region.
 */
module RegionName {
  import opened Base
  import opened Decimal

  /** A capture of `-?\d+`: an optional minus sign, then at least one digit. */
  predicate IsNumeral(t: string) {
    if |t| > 0 && t[0] == '-' then |t| > 1 && AllDigits(t[1..]) else |t| > 0 && AllDigits(t)
  }

  /** The text the whole pattern matches when its captures are `a` and `b`. */
  function Matched(a: string, b: string): string {
    "r." + a + "." + b + ".mca"
  }

  /**
   * `s` holds, from position `p` on, the text of the pattern with captures
   * `a` and `b`, written piece by piece.
   */
  predicate PatternAt(s: string, p: nat, a: string, b: string) {
    var e1 := p + 2 + |a|;
    var e2 := e1 + 1 + |b|;
    && e2 + 4 <= |s|
    && s[p] == 'r' && s[p + 1] == '.'
    && s[p + 2 .. e1] == a
    && s[e1] == '.'
    && s[e1 + 1 .. e2] == b
    && s[e2] == '.' && s[e2 + 1] == 'm' && s[e2 + 2] == 'c' && s[e2 + 3] == 'a'
  }

  /** The pattern's text, written out, holds its own pieces. */
  lemma PatternAtMatched(a: string, b: string)
    ensures PatternAt(Matched(a, b), 0, a, b)
  {
    var w := Matched(a, b);
    var e1 := 2 + |a|;
    var e2 := e1 + 1 + |b|;
    assert w == "r." + a + "." + b + ".mca";
    assert w[2 .. e1] == a;
    assert w[e1 + 1 .. e2] == b;
  }

  /** Length of the longest run of digits in `s` starting at `i` (what a greedy `\d+` takes). */
  function DigitRun(s: string, i: nat): (n: nat)
    requires i <= |s|
    ensures i + n <= |s|
    ensures forall k | i <= k < i + n :: IsDigit(s[k])
    ensures i + n == |s| || !IsDigit(s[i + n])
    decreases |s| - i
  {
    if i < |s| && IsDigit(s[i]) then 1 + DigitRun(s, i + 1) else 0
  }

  /** A run of digits ended by a non-digit (or the end) is exactly what `DigitRun` measures. */
  lemma {:induction false} DigitRunExact(s: string, i: nat, m: nat)
    requires i + m <= |s|
    requires forall k | i <= k < i + m :: IsDigit(s[k])
    requires i + m == |s| || !IsDigit(s[i + m])
    ensures DigitRun(s, i) == m
    decreases m
  {
    if m > 0 {
      DigitRunExact(s, i + 1, m - 1);
    }
  }

  /** Where a greedy `-?\d+` starting at `i` ends, if it matches at all. */
  function NumeralEnd(s: string, i: nat): (e: Option<nat>)
    requires i <= |s|
    ensures e.Some? ==> i < e.value <= |s| && IsNumeral(s[i .. e.value])
  {
    var j := if i < |s| && s[i] == '-' then i + 1 else i;
    var n := DigitRun(s, j);
    if n == 0 then None
    else
      assert AllDigits(s[j .. j + n]);
      assert s[i .. j + n][j - i ..] == s[j .. j + n];
      Some(j + n)
  }

  /** The captures of the pattern when it matches starting at position `p`. */
  function MatchAt(s: string, p: nat): (m: Option<(string, string)>)
    requires p <= |s|
    ensures m.Some? ==>
              IsNumeral(m.value.0) && IsNumeral(m.value.1) && PatternAt(s, p, m.value.0, m.value.1)
  {
    if !(p + 2 <= |s| && s[p] == 'r' && s[p + 1] == '.') then None
    else match NumeralEnd(s, p + 2)
      case None => None
      case Some(e1) =>
        if !(e1 < |s| && s[e1] == '.') then None
        else match NumeralEnd(s, e1 + 1)
          case None => None
          case Some(e2) =>
            if !(e2 + 4 <= |s| && s[e2] == '.' && s[e2 + 1] == 'm' && s[e2 + 2] == 'c' && s[e2 + 3] == 'a')
            then None
            else
              var a, b := s[p + 2 .. e1], s[e1 + 1 .. e2];
              assert |a| == e1 - (p + 2) && |b| == e2 - (e1 + 1);
              assert PatternAt(s, p, a, b);
              Some((a, b))
  }

  /** A numeral followed by a non-digit is exactly what `NumeralEnd` reads. */
  lemma NumeralEndExact(s: string, i: nat, t: string)
    requires IsNumeral(t) && i + |t| < |s| && s[i .. i + |t|] == t && !IsDigit(s[i + |t|])
    ensures NumeralEnd(s, i) == Some(i + |t|)
  {
    var j := if t[0] == '-' then i + 1 else i;
    assert forall k | j <= k < i + |t| :: s[k] == t[k - i];
    DigitRunExact(s, j, i + |t| - j);
  }

  /**
   * Wherever the text of the pattern with numerals `a` and `b` occurs, the
   * pattern matches there with exactly those captures: greedy matching
   * cannot take fewer or more digits, because a `.` follows each numeral.
   */
  lemma MatchAtComplete(s: string, p: nat, a: string, b: string)
    requires IsNumeral(a) && IsNumeral(b) && PatternAt(s, p, a, b)
    ensures MatchAt(s, p) == Some((a, b))
  {
    var e1 := p + 2 + |a|;
    var e2 := e1 + 1 + |b|;
    assert s[p + 2 .. e1] == a && s[e1] == '.';
    NumeralEndExact(s, p + 2, a);
    assert s[e1 + 1 .. e2] == b && s[e2] == '.';
    NumeralEndExact(s, e1 + 1, b);
    assert s[e2 + 1] == 'm' && s[e2 + 2] == 'c' && s[e2 + 3] == 'a';
  }

  /** Whether the pattern matches at each position of `s`, the end included. */
  function Matches(s: string): (m: seq<Option<(string, string)>>)
    ensures |m| == |s| + 1
    ensures forall p | 0 <= p <= |s| :: m[p] == MatchAt(s, p)
  {
    seq(|s| + 1, p requires 0 <= p <= |s| => MatchAt(s, p))
  }

  /** Index of the first present element at or after `from`: where a leftmost search stops. */
  function FirstSome<T>(items: seq<Option<T>>, from: nat): (k: Option<nat>)
    requires from <= |items|
    ensures k.Some? ==>
              && from <= k.value < |items| && items[k.value].Some?
              && forall j | from <= j < k.value :: items[j].None?
    ensures k.None? ==> forall j | from <= j < |items| :: items[j].None?
    decreases |items| - from
  {
    if from == |items| then None
    else if items[from].Some? then Some(from)
    else FirstSome(items, from + 1)
  }

  /**
   * `get_region_coords`: the two numbers of the leftmost match. A name the
   * pattern does not match, or a number outside the i32 range, makes an
   * `unwrap` panic.
   */
  function RegionCoords(filename: string): (r: Outcome<(int32, int32)>)
    ensures r == Panics(NoPatternMatch) <==>
              forall p | 0 <= p <= |filename| :: MatchAt(filename, p).None?
    ensures r.Panics? ==> r.cause == NoPatternMatch || r.cause == ParseIntFailed
    ensures r.Returns? ==>
              && FirstSome(Matches(filename), 0).Some?
              && var captures := MatchAt(filename, FirstSome(Matches(filename), 0).value).value;
              && ParseI32(captures.0) == Some(r.value.0)
              && ParseI32(captures.1) == Some(r.value.1)
    ensures FirstSome(Matches(filename), 0).Some? ==>
              var captures := MatchAt(filename, FirstSome(Matches(filename), 0).value).value;
              (r == Panics(ParseIntFailed) <==> ParseI32(captures.0).None? || ParseI32(captures.1).None?)
  {
    match FirstSome(Matches(filename), 0)
    case None => Panics(NoPatternMatch)
    case Some(p) =>
      var (a, b) := MatchAt(filename, p).value;
      match ParseI32(a)
      case None => Panics(ParseIntFailed)
      case Some(x) =>
        match ParseI32(b)
        case None => Panics(ParseIntFailed)
        case Some(z) => Returns((x, z))
  }

  /** A name that starts with the pattern's text parses to the two numbers written there. */
  lemma RegionCoordsOfPattern(s: string, a: string, b: string, x: int32, z: int32)
    requires IsNumeral(a) && IsNumeral(b) && PatternAt(s, 0, a, b)
    requires ParseI32(a) == Some(x) && ParseI32(b) == Some(z)
    ensures RegionCoords(s) == Returns((x, z))
  {
    MatchAtComplete(s, 0, a, b);
  }

  /** The file name `r.{x}.{z}.mca` of the region at (x, z); it parses back to (x, z). */
  function FileName(x: int32, z: int32): (name: string)
    ensures name == Matched(IntToString(x), IntToString(z))
    ensures RegionCoords(name) == Returns((x, z))
  {
    var a, b := IntToString(x), IntToString(z);
    PatternAtMatched(a, b);
    ParseOfIntToString(x);
    ParseOfIntToString(z);
    RegionCoordsOfPattern(Matched(a, b), a, b, x, z);
    Matched(a, b)
  }

  /** The name of the origin region parses to (0, 0). */
  lemma RegionCoordsOfOrigin(name: string)
    requires name == "r.0.0.mca"
    ensures RegionCoords(name) == Returns((0, 0))
  {
    assert name[2..3] == "0" && name[4..5] == "0";
    assert ParseI32("0") == Some(0);
    RegionCoordsOfPattern(name, "0", "0", 0, 0);
  }

  /** A name with a negative coordinate parses to it, sign included. */
  lemma RegionCoordsOfNegative(name: string)
    requires name == "r.-12.7.mca"
    ensures RegionCoords(name) == Returns((-12, 7))
  {
    assert |name| == 11;
    assert name[2] == '-' && name[3] == '1' && name[4] == '2' && name[5] == '.' && name[6] == '7';
    var a, b := name[2..5], name[6..7];
    assert a == "-12" by {
      assert |a| == 3 && a[0] == '-' && a[1] == '1' && a[2] == '2';
    }
    assert b == "7" by {
      assert |b| == 1 && b[0] == '7';
    }
    assert IsNumeral(a) && IsNumeral(b);
    assert DigitsValue("12") == DigitsValue("1") * 10 + 2;
    assert ParseI32(a) == Some(-12) && ParseI32(b) == Some(7);
    RegionCoordsOfPattern(name, a, b, -12, 7);
  }

  /** A name without two numbers does not match, and parsing it panics. */
  lemma RegionCoordsOfBadName(name: string)
    requires name == "r.abc.mca"
    ensures RegionCoords(name) == Panics(NoPatternMatch)
  {
    assert |name| == 9 && name[2] == 'a';
    assert forall k | 1 <= k < |name| :: name[k] != 'r';
    forall p | 0 <= p <= |name| ensures MatchAt(name, p).None? {
      if p == 0 {
        assert DigitRun(name, 2) == 0;
      }
    }
  }
}
