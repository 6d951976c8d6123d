/**
  The text checks `findAddress` applies to the address field: JavaScript's
  `String.prototype.trim`, and the coordinate-pair pattern
      ^\s*([+-]?\d+(\.\d+)?)\s*,\s*([+-]?\d+(\.\d+)?)\s*$
  The pattern is given twice: declaratively (`IsCoordPair`, a decomposition of the
  text into whitespace runs, two numbers and a comma) and as a left-to-right scanner
  (`MatchCoordPair`) that returns the two number substrings (capture groups 1 and 3).
  `MatchCoordPairCorrect` proves that they agree.
*/
module CoordPattern {
  import opened Wrappers

  /** The code points JavaScript's `\s` matches and `trim` strips: its WhiteSpace and
      LineTerminator characters. */
  const SpaceChars: set<char> := {
    '\t', '\n', '\U{000B}', '\U{000C}', '\r', ' ', '\U{00A0}', '\U{1680}',
    '\U{2000}', '\U{2001}', '\U{2002}', '\U{2003}', '\U{2004}', '\U{2005}',
    '\U{2006}', '\U{2007}', '\U{2008}', '\U{2009}', '\U{200A}',
    '\U{2028}', '\U{2029}', '\U{202F}', '\U{205F}', '\U{3000}', '\U{FEFF}'
  }

  predicate IsSpace(c: char) { c in SpaceChars }

  /** `\d`: an ASCII decimal digit. */
  predicate IsDigit(c: char) { '0' <= c <= '9' }

  predicate IsSign(c: char) { c == '+' || c == '-' }

  predicate AllSpace(t: string) { forall k :: 0 <= k < |t| ==> IsSpace(t[k]) }

  predicate AllDigits(t: string) { forall k :: 0 <= k < |t| ==> IsDigit(t[k]) }

  /** `\d+` */
  predicate Digits(t: string) { |t| > 0 && AllDigits(t) }

  /** `\d+(\.\d+)?` */
  predicate IsUnsigned(u: string) {
    Digits(u) || exists k :: 0 <= k < |u| && u[k] == '.' && Digits(u[..k]) && Digits(u[k+1..])
  }

  /** `[+-]?\d+(\.\d+)?` */
  predicate IsNumber(t: string) {
    IsUnsigned(t) || (|t| > 0 && IsSign(t[0]) && IsUnsigned(t[1..]))
  }

  /** Read left to right, `s` is: whitespace up to `a`, a number from `a` to `b`, whitespace
      up to the comma at `c`, whitespace up to `d`, a number from `d` to `e`, whitespace. */
  predicate PairAt(s: string, a: nat, b: nat, c: nat, d: nat, e: nat) {
    a <= b <= c < d <= e <= |s| &&
    AllSpace(s[..a]) && IsNumber(s[a..b]) && AllSpace(s[b..c]) && s[c] == ',' &&
    AllSpace(s[c + 1..d]) && IsNumber(s[d..e]) && AllSpace(s[e..])
  }

  /** The whole text `s` matches the pattern, with `lat` and `lon` as its two numbers. */
  ghost predicate IsCoordPair(s: string, lat: string, lon: string) {
    exists a: nat, b: nat, c: nat, d: nat, e: nat ::
      PairAt(s, a, b, c, d, e) && lat == s[a..b] && lon == s[d..e]
  }

  // ---------- Runs of one kind of character ----------

  /** A whitespace run extended by one whitespace character at either end. */
  lemma SpaceCons(s: string, i: nat, j: nat)
    requires i < j <= |s| && IsSpace(s[i]) && AllSpace(s[i + 1..j])
    ensures AllSpace(s[i..j])
  {
    forall k | 0 < k < j - i ensures IsSpace(s[i..j][k]) {
      assert s[i..j][k] == s[i + 1..j][k - 1];
    }
  }

  lemma SpaceSnoc(s: string, i: nat, j: nat)
    requires i < j <= |s| && AllSpace(s[i..j - 1]) && IsSpace(s[j - 1])
    ensures AllSpace(s[i..j])
  {
    forall k | 0 <= k < j - i - 1 ensures IsSpace(s[i..j][k]) {
      assert s[i..j][k] == s[i..j - 1][k];
    }
  }

  lemma DigitCons(s: string, i: nat, j: nat)
    requires i < j <= |s| && IsDigit(s[i]) && AllDigits(s[i + 1..j])
    ensures AllDigits(s[i..j])
  {
    forall k | 0 < k < j - i ensures IsDigit(s[i..j][k]) {
      assert s[i..j][k] == s[i + 1..j][k - 1];
    }
  }

  /** Each character of a run has the run's kind. */
  lemma SpaceIn(s: string, i: nat, j: nat, k: nat)
    requires i <= k < j <= |s| && AllSpace(s[i..j])
    ensures IsSpace(s[k])
  {
    assert s[i..j][k - i] == s[k];
  }

  lemma DigitIn(s: string, i: nat, j: nat, k: nat)
    requires i <= k < j <= |s| && AllDigits(s[i..j])
    ensures IsDigit(s[k])
  {
    assert s[i..j][k - i] == s[k];
  }

  // ---------- Scanner ----------

  /** The end of the run of whitespace that starts at `i`. */
  function SkipSpaces(s: string, i: nat): (j: nat)
    requires i <= |s|
    ensures i <= j <= |s| && AllSpace(s[i..j])
    ensures j < |s| ==> !IsSpace(s[j])
    decreases |s| - i
  {
    if i < |s| && IsSpace(s[i]) then
      var j := SkipSpaces(s, i + 1);
      SpaceCons(s, i, j);
      j
    else i
  }

  /** The start of the run of whitespace that ends at `j`. */
  function SkipSpacesBack(s: string, j: nat): (i: nat)
    requires j <= |s|
    ensures i <= j && AllSpace(s[i..j])
    ensures 0 < i ==> !IsSpace(s[i - 1])
    decreases j
  {
    if 0 < j && IsSpace(s[j - 1]) then
      var i := SkipSpacesBack(s, j - 1);
      SpaceSnoc(s, i, j);
      i
    else j
  }

  /** The end of the run of digits that starts at `i`. */
  function SkipDigits(s: string, i: nat): (j: nat)
    requires i <= |s|
    ensures i <= j <= |s| && AllDigits(s[i..j])
    ensures j < |s| ==> !IsDigit(s[j])
    decreases |s| - i
  {
    if i < |s| && IsDigit(s[i]) then
      var j := SkipDigits(s, i + 1);
      DigitCons(s, i, j);
      j
    else i
  }

  /** The end of the longest unsigned number `\d+(\.\d+)?` that starts at `a`, if any. */
  function ScanUnsigned(s: string, a: nat): (r: Option<nat>)
    requires a <= |s|
    ensures r.Some? ==> a < r.value <= |s|
    ensures r.Some? && r.value < |s| ==> !IsDigit(s[r.value])
  {
    var b := SkipDigits(s, a);
    if b == a then None
    else if b + 1 < |s| && s[b] == '.' && IsDigit(s[b + 1]) then Some(SkipDigits(s, b + 1))
    else Some(b)
  }

  /** The end of the longest number `[+-]?\d+(\.\d+)?` that starts at `i`, if any. */
  function ScanNumber(s: string, i: nat): (r: Option<nat>)
    requires i <= |s|
    ensures r.Some? ==> i < r.value <= |s|
    ensures r.Some? && r.value < |s| ==> !IsDigit(s[r.value])
  {
    if i < |s| && IsSign(s[i]) then ScanUnsigned(s, i + 1) else ScanUnsigned(s, i)
  }

  /** The two captured numbers when the whole of `s` matches the pattern, `None` otherwise. */
  function MatchCoordPair(s: string): Option<(string, string)>
  {
    var a := SkipSpaces(s, 0);
    var first := ScanNumber(s, a);
    if first.None? then None
    else
      var b := first.value;
      var c := SkipSpaces(s, b);
      if c == |s| || s[c] != ',' then None
      else
        var d := SkipSpaces(s, c + 1);
        var second := ScanNumber(s, d);
        if second.None? then None
        else
          var e := second.value;
          if SkipSpaces(s, e) != |s| then None else Some((s[a..b], s[d..e]))
  }

  /** `trim()`: the text without its leading and trailing whitespace. */
  function Trim(s: string): (r: string)
    ensures r == [] <==> AllSpace(s)
    ensures r != [] ==> !IsSpace(r[0]) && !IsSpace(r[|r| - 1])
    ensures exists a :: 0 <= a <= |s| - |r| && s[a..a + |r|] == r
                        && AllSpace(s[..a]) && AllSpace(s[a + |r|..])
  {
    var a := SkipSpaces(s, 0);
    var e := SkipSpacesBack(s, |s|);
    assert s[..a] == s[0..a] && s[e..] == s[e..|s|];
    if a == |s| then
      assert s[..0] == [] && s[0..0] == [];
      []
    else
      assert !IsSpace(s[a]);
      assert a < e by {
        if e <= a { SpaceIn(s, e, |s|, a); }
      }
      assert !AllSpace(s) by { assert s[a] == s[..][a]; }
      assert s[a..e][0] == s[a] && s[a..e][e - a - 1] == s[e - 1];
      assert s[a..a + (e - a)] == s[a..e];
      s[a..e]
  }

  // ---------- The scanner agrees with the pattern ----------

  /** The scanning functions are determined by their contracts. */
  lemma SkipSpacesAt(s: string, i: nat, j: nat)
    requires i <= j <= |s| && AllSpace(s[i..j])
    requires j < |s| ==> !IsSpace(s[j])
    ensures SkipSpaces(s, i) == j
  {
    var r := SkipSpaces(s, i);
    if r < j {
      SpaceIn(s, i, j, r);
    } else if j < r {
      SpaceIn(s, i, r, j);
    }
  }

  lemma SkipDigitsAt(s: string, i: nat, j: nat)
    requires i <= j <= |s| && AllDigits(s[i..j])
    requires j < |s| ==> !IsDigit(s[j])
    ensures SkipDigits(s, i) == j
  {
    var r := SkipDigits(s, i);
    if r < j {
      DigitIn(s, i, j, r);
    } else if j < r {
      DigitIn(s, i, r, j);
    }
  }

  /** Digits, signs, the point and the comma are not whitespace. */
  lemma NotSpace(c: char)
    requires IsDigit(c) || IsSign(c) || c == ',' || c == '.'
    ensures !IsSpace(c)
  {
  }

  /** What follows a number in a match (whitespace or the comma) does not extend it. */
  lemma EndsNumber(c: char)
    requires IsSpace(c) || c == ','
    ensures !IsDigit(c) && c != '.'
  {
    if IsDigit(c) || c == '.' { NotSpace(c); }
  }

  /** A number begins with a sign or a digit, and ends with a digit. */
  lemma NumberEnds(t: string)
    requires IsNumber(t)
    ensures |t| > 0 && (IsSign(t[0]) || IsDigit(t[0])) && IsDigit(t[|t| - 1])
    ensures IsUnsigned(t) ==> IsDigit(t[0])
  {
    if IsUnsigned(t) {
      UnsignedEnds(t);
    } else {
      UnsignedEnds(t[1..]);
    }
  }

  lemma UnsignedEnds(u: string)
    requires IsUnsigned(u)
    ensures |u| > 0 && IsDigit(u[0]) && IsDigit(u[|u| - 1])
  {
    if !Digits(u) {
      var k :| 0 <= k < |u| && u[k] == '.' && Digits(u[..k]) && Digits(u[k+1..]);
      assert u[..k][0] == u[0];
      assert u[k+1..][|u| - k - 2] == u[|u| - 1];
    }
  }

  /** Whatever `ScanUnsigned` consumes is an unsigned number. */
  lemma ScanUnsignedSound(s: string, a: nat)
    requires a <= |s| && ScanUnsigned(s, a).Some?
    ensures IsUnsigned(s[a..ScanUnsigned(s, a).value])
  {
    var b := SkipDigits(s, a);
    var e := ScanUnsigned(s, a).value;
    if b + 1 < |s| && s[b] == '.' && IsDigit(s[b + 1]) {
      var u := s[a..e];
      SubSlice(s, a, e, 0, b - a);
      SubSlice(s, a, e, b - a + 1, e - a);
      assert u[..b - a] == u[0..b - a] && u[b - a + 1..] == u[b - a + 1..e - a];
      assert u[b - a] == '.';
      assert Digits(u[..b - a]) && Digits(u[b - a + 1..]);
    } else {
      assert Digits(s[a..b]);
    }
  }

  /** Whatever `ScanNumber` consumes is a number. */
  lemma ScanNumberSound(s: string, i: nat)
    requires i <= |s| && ScanNumber(s, i).Some?
    ensures IsNumber(s[i..ScanNumber(s, i).value])
  {
    var e := ScanNumber(s, i).value;
    if i < |s| && IsSign(s[i]) {
      ScanUnsignedSound(s, i + 1);
      SubSlice(s, i, e, 1, e - i);
      assert s[i..e][1..] == s[i..e][1..e - i];
      assert s[i..e][0] == s[i];
    } else {
      ScanUnsignedSound(s, i);
    }
  }

  /** The shape of an unsigned number that is not all digits: digits, the point at `k`,
      digits. */
  lemma PointOf(u: string) returns (k: nat)
    requires IsUnsigned(u) && !Digits(u)
    ensures 0 < k && k + 1 < |u| && u[k] == '.'
    ensures AllDigits(u[0..k]) && AllDigits(u[k + 1..|u|])
  {
    k :| 0 <= k < |u| && u[k] == '.' && Digits(u[..k]) && Digits(u[k+1..]);
    assert u[0..k] == u[..k] && u[k + 1..|u|] == u[k+1..];
  }

  /** A slice of a slice of `s` is a slice of `s`. */
  lemma SubSlice(s: string, a: nat, n: nat, lo: nat, hi: nat)
    requires a <= n <= |s| && lo <= hi <= n - a
    ensures s[a..n][lo..hi] == s[a + lo..a + hi]
  {
    forall k | 0 <= k < hi - lo ensures s[a..n][lo..hi][k] == s[a + lo..a + hi][k] {
    }
  }

  /** The unsigned number from `a` to `n`, followed by neither a digit nor a point, is
      scanned whole. */
  lemma ScanUnsignedAt(s: string, a: nat, n: nat)
    requires a < n <= |s| && IsUnsigned(s[a..n])
    requires n < |s| ==> !IsDigit(s[n]) && s[n] != '.'
    ensures ScanUnsigned(s, a) == Some(n)
  {
    if Digits(s[a..n]) {
      SkipDigitsAt(s, a, n);
    } else {
      var k := PointOf(s[a..n]);
      SubSlice(s, a, n, 0, k);
      SubSlice(s, a, n, k + 1, n - a);
      assert s[a + k] == s[a..n][k];
      FractionAt(s, a, a + k, n);
    }
  }

  /** Digits from `a` to the point at `p`, then digits up to `n`, which no digit follows. */
  lemma FractionAt(s: string, a: nat, p: nat, n: nat)
    requires a < p && p + 1 < n <= |s| && s[p] == '.'
    requires AllDigits(s[a..p]) && AllDigits(s[p + 1..n])
    requires n < |s| ==> !IsDigit(s[n])
    ensures SkipDigits(s, a) == p && p + 1 < |s| && IsDigit(s[p + 1])
    ensures SkipDigits(s, p + 1) == n
  {
    SkipDigitsAt(s, a, p);
    DigitIn(s, p + 1, n, p + 1);
    SkipDigitsAt(s, p + 1, n);
  }

  /** The number from `i` to `n`, followed by neither a digit nor a point, is scanned whole. */
  lemma ScanNumberAt(s: string, i: nat, n: nat)
    requires i < n <= |s| && IsNumber(s[i..n])
    requires n < |s| ==> !IsDigit(s[n]) && s[n] != '.'
    ensures ScanNumber(s, i) == Some(n)
  {
    NumberEnds(s[i..n]);
    assert s[i] == s[i..n][0];
    if IsUnsigned(s[i..n]) {
      assert !IsSign(s[i]);
      ScanUnsignedAt(s, i, n);
    } else {
      SubSlice(s, i, n, 1, n - i);
      assert s[i..n][1..] == s[i..n][1..n - i];
      ScanUnsignedAt(s, i + 1, n);
    }
  }

  /** The positions a successful match passes through. */
  lemma MatchParts(s: string) returns (a: nat, b: nat, c: nat, d: nat, e: nat)
    requires MatchCoordPair(s).Some?
    ensures a == SkipSpaces(s, 0) && ScanNumber(s, a) == Some(b)
    ensures c == SkipSpaces(s, b) && c < |s| && s[c] == ','
    ensures d == SkipSpaces(s, c + 1) && ScanNumber(s, d) == Some(e)
    ensures SkipSpaces(s, e) == |s|
    ensures MatchCoordPair(s) == Some((s[a..b], s[d..e]))
  {
    a := SkipSpaces(s, 0);
    assert ScanNumber(s, a).Some?;
    b := ScanNumber(s, a).value;
    c := SkipSpaces(s, b);
    assert c < |s| && s[c] == ',';
    d := SkipSpaces(s, c + 1);
    assert ScanNumber(s, d).Some?;
    e := ScanNumber(s, d).value;
    assert SkipSpaces(s, e) == |s|;
  }

  /** Conversely, positions with those properties make the match succeed. */
  lemma MatchFromParts(s: string, a: nat, b: nat, c: nat, d: nat, e: nat)
    requires a == SkipSpaces(s, 0) && ScanNumber(s, a) == Some(b)
    requires c == SkipSpaces(s, b) && c < |s| && s[c] == ','
    requires d == SkipSpaces(s, c + 1) && ScanNumber(s, d) == Some(e)
    requires SkipSpaces(s, e) == |s|
    ensures MatchCoordPair(s) == Some((s[a..b], s[d..e]))
  {
  }

  /** Positions of a successful match witness the pattern's decomposition. */
  lemma SoundFromParts(s: string, a: nat, b: nat, c: nat, d: nat, e: nat)
    requires a == SkipSpaces(s, 0) && ScanNumber(s, a) == Some(b)
    requires c == SkipSpaces(s, b) && c < |s| && s[c] == ','
    requires d == SkipSpaces(s, c + 1) && ScanNumber(s, d) == Some(e)
    requires SkipSpaces(s, e) == |s|
    ensures PairAt(s, a, b, c, d, e)
  {
    ScanNumberSound(s, a);
    ScanNumberSound(s, d);
    assert s[..a] == s[0..a] && s[e..] == s[e..|s|];
  }

  /** Every match the scanner reports is a decomposition the pattern allows. */
  lemma MatchCoordPairSound(s: string)
    requires MatchCoordPair(s).Some?
    ensures IsCoordPair(s, MatchCoordPair(s).value.0, MatchCoordPair(s).value.1)
  {
    var a, b, c, d, e := MatchParts(s);
    SoundFromParts(s, a, b, c, d, e);
  }

  /** A number from `a` to `b`, with whitespace from `i` up to it and from its end up to `c`,
      where the comma or the end of the text follows: the scanner skips to `a`, reads the
      number whole and skips on to `c`. */
  lemma NumberAt(s: string, i: nat, a: nat, b: nat, c: nat)
    requires i <= a <= b <= c <= |s| && IsNumber(s[a..b])
    requires AllSpace(s[i..a]) && AllSpace(s[b..c])
    requires c < |s| ==> s[c] == ','
    ensures SkipSpaces(s, i) == a && ScanNumber(s, a) == Some(b)
    ensures SkipSpaces(s, b) == c
  {
    NumberEnds(s[a..b]);
    assert s[a] == s[a..b][0];
    NotSpace(s[a]);
    SkipSpacesAt(s, i, a);
    if b < c {
      SpaceIn(s, b, c, b);
      EndsNumber(s[b]);
    } else if c < |s| {
      EndsNumber(s[c]);
    }
    if c < |s| {
      NotSpace(s[c]);
    }
    ScanNumberAt(s, a, b);
    SkipSpacesAt(s, b, c);
  }

  /** A decomposition pins down every step of the scanner. */
  lemma CompleteAt(s: string, a: nat, b: nat, c: nat, d: nat, e: nat)
    requires PairAt(s, a, b, c, d, e)
    ensures MatchCoordPair(s) == Some((s[a..b], s[d..e]))
  {
    assert SkipSpaces(s, 0) == a && ScanNumber(s, a) == Some(b) && SkipSpaces(s, b) == c by {
      assert s[0..a] == s[..a];
      NumberAt(s, 0, a, b, c);
    }
    assert SkipSpaces(s, c + 1) == d && ScanNumber(s, d) == Some(e) && SkipSpaces(s, e) == |s| by {
      assert s[e..|s|] == s[e..];
      NumberAt(s, c + 1, d, e, |s|);
    }
    MatchFromParts(s, a, b, c, d, e);
  }

  /** Every decomposition the pattern allows is found by the scanner, with the same numbers. */
  lemma MatchCoordPairComplete(s: string, lat: string, lon: string)
    requires IsCoordPair(s, lat, lon)
    ensures MatchCoordPair(s) == Some((lat, lon))
  {
    var a: nat, b: nat, c: nat, d: nat, e: nat :|
      PairAt(s, a, b, c, d, e) && lat == s[a..b] && lon == s[d..e];
    CompleteAt(s, a, b, c, d, e);
  }

  /** The scanner accepts `s` with numbers `lat` and `lon` exactly when the pattern does. */
  lemma MatchCoordPairCorrect(s: string, lat: string, lon: string)
    ensures MatchCoordPair(s) == Some((lat, lon)) <==> IsCoordPair(s, lat, lon)
  {
    if MatchCoordPair(s) == Some((lat, lon)) {
      MatchCoordPairSound(s);
    }
    if IsCoordPair(s, lat, lon) {
      MatchCoordPairComplete(s, lat, lon);
    }
  }

  /** Text without surrounding whitespace is left alone by `trim`. */
  lemma TrimKeeps(t: string)
    requires t != [] && !IsSpace(t[0]) && !IsSpace(t[|t| - 1])
    ensures Trim(t) == t
  {
    SkipSpacesAt(t, 0, 0);
    assert SkipSpacesBack(t, |t|) == |t|;
  }

  /** The text a map click writes into the address field, `lat + ", " + lng`, is read back
      by `findAddress` as that very coordinate pair. */
  lemma {:induction false} ClickedTextMatches(lat: string, lng: string)
    requires IsNumber(lat) && IsNumber(lng)
    ensures MatchCoordPair(Trim(lat + ", " + lng)) == Some((lat, lng))
  {
    var t := lat + ", " + lng;
    NumberEnds(lat);
    NumberEnds(lng);
    assert t[0] == lat[0] && t[|t| - 1] == lng[|lng| - 1];
    TrimKeeps(t);
    var c := |lat|;
    assert t[..0] == [] && t[0..c] == lat && t[c..c] == [] && t[c] == ',';
    assert t[c + 1..c + 2] == [' '] && t[c + 2..|t|] == lng && t[|t|..] == [];
    assert PairAt(t, 0, c, c, c + 2, |t|);
    CompleteAt(t, 0, c, c, c + 2, |t|);
  }

  /** A pair of literal coordinates, as typed into the address field, is recognised. */
  lemma ExampleLiteralPair()
    ensures MatchCoordPair("-41.2865, 174.7762") == Some(("-41.2865", "174.7762"))
  {
    var s := "-41.2865, 174.7762";
    var lat, lon := s[0..8], s[10..18];
    assert lat == "-41.2865" && lon == "174.7762";
    assert lat[1..][..2] == "41" && lat[1..][3..] == "2865";
    assert IsUnsigned(lat[1..]);
    assert lon[..3] == "174" && lon[4..] == "7762";
    assert IsUnsigned(lon);
    assert s[..0] == [] && s[8..8] == [] && s[9..10] == " " && s[18..] == [];
    assert PairAt(s, 0, 8, 8, 10, 18);
    CompleteAt(s, 0, 8, 8, 10, 18);
  }

  /** A place name is not a coordinate pair, so it goes to the geocoder. */
  lemma ExamplePlaceName()
    ensures MatchCoordPair("Wellington") == None
  {
    var s := "Wellington";
    assert !IsSpace(s[0]) && !IsSign(s[0]) && !IsDigit(s[0]);
    assert SkipSpaces(s, 0) == 0;
    assert SkipDigits(s, 0) == 0;
  }

  /** A point must be followed by digits. */
  lemma ExampleBarePoint()
    ensures MatchCoordPair("41., 174") == None
  {
    var s := "41., 174";
    NotSpace(s[0]);
    assert SkipSpaces(s, 0) == 0;
    assert SkipDigits(s, 2) == 2;
    assert SkipDigits(s, 0) == 2;
    assert ScanNumber(s, 0) == Some(2);
    NotSpace(s[2]);
    assert SkipSpaces(s, 2) == 2;
  }
}
