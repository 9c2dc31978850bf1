/**
 * parse_location (app.py:30-41): a "lat, lon" pair typed by the user, or else
 * the first hit of the geocoding service.
 *
 * The pair recogniser is the regular expression
 *     ^\s*(-?\d+\.?\d*),\s*(-?\d+\.?\d*)\s*$
 * written out as a scanner. Its reference definition is Render: a string
 * matches exactly when it is Render(m) for some well-formed PairMatch m.
 */
module Location {
  import opened Wrappers
  import opened Strings

  /** Python's `\s` on str: the characters for which str.isspace() holds. */
  predicate IsSpace(c: char)
  {
    c == ' ' || '\t' <= c <= '\r' || '\U{1C}' <= c <= '\U{1F}' || c == '\U{85}' || c == '\U{A0}'
    || c == '\U{1680}' || '\U{2000}' <= c <= '\U{200A}' || c == '\U{2028}' || c == '\U{2029}'
    || c == '\U{202F}' || c == '\U{205F}' || c == '\U{3000}'
  }

  datatype CharClass = Space | Digit

  predicate InClass(c: char, k: CharClass)
  {
    match k
    case Space => IsSpace(c)
    case Digit => IsDigit(c)
  }

  predicate AllIn(s: string, k: CharClass) { forall i :: 0 <= i < |s| ==> InClass(s[i], k) }

  /** The longest prefix of s made of class-k characters, and what follows it. */
  function Span(s: string, k: CharClass): (r: (string, string))
    ensures r.0 + r.1 == s && AllIn(r.0, k)
    ensures r.1 == [] || !InClass(r.1[0], k)
  {
    if s == [] || !InClass(s[0], k) then ([], s)
    else
      var (run, rest) := Span(s[1..], k);
      assert [s[0]] + run + rest == s;
      ([s[0]] + run, rest)
  }

  /** A greedy run stops exactly where the class-k characters end. */
  lemma {:induction false} SpanJoin(run: string, rest: string, k: CharClass)
    requires AllIn(run, k)
    requires rest == [] || !InClass(rest[0], k)
    ensures Span(run + rest, k) == (run, rest)
  {
    var s := run + rest;
    if run != [] {
      assert s[0] == run[0] && s[1..] == run[1..] + rest;
      SpanJoin(run[1..], rest, k);
      assert [run[0]] + run[1..] == run;
    } else {
      assert s == rest;
    }
  }

  /** One number of the pattern, `-?\d+\.?\d*`, split into its parts. */
  datatype Numeral = Numeral(negative: bool, whole: string, point: bool, fraction: string)

  /** At least one digit before the optional point; no fraction digits without a point. */
  predicate WellFormed(n: Numeral)
  {
    |n.whole| > 0 && AllIn(n.whole, Digit) && AllIn(n.fraction, Digit) && (n.point || n.fraction == [])
  }

  function Text(n: Numeral): string
  {
    Sign(n.negative) + Magnitude(n)
  }

  function Sign(negative: bool): string
  {
    if negative then "-" else ""
  }

  /** The numeral's text after its sign. */
  function Magnitude(n: Numeral): string
  {
    n.whole + FractionText(n.point, n.fraction)
  }

  /** The optional point and the digits after it. */
  function FractionText(point: bool, fraction: string): string
  {
    if point then ['.'] + fraction else fraction
  }

  /** What may follow a numeral the greedy pattern has finished reading. */
  predicate EndsNumeral(n: Numeral, rest: string)
  {
    EndsFraction(n.point, rest)
  }

  predicate EndsFraction(point: bool, rest: string)
  {
    rest == [] || (!IsDigit(rest[0]) && (point || rest[0] != '.'))
  }

  /** Reads `\.?\d*` at the front of s: whether a point comes first, and the digits after it. */
  function ScanFraction(s: string): (r: (bool, string, string))
    requires s == [] || !IsDigit(s[0])
    ensures AllIn(r.1, Digit) && (r.0 || r.1 == [])
    ensures FractionText(r.0, r.1) + r.2 == s
    ensures EndsFraction(r.0, r.2)
  {
    if s != [] && s[0] == '.' then
      var (fraction, rest) := Span(s[1..], Digit);
      assert ['.'] + s[1..] == s;
      (true, fraction, rest)
    else
      (false, [], s)
  }

  lemma ScanFractionText(point: bool, fraction: string, rest: string)
    requires AllIn(fraction, Digit) && (point || fraction == [])
    requires EndsFraction(point, rest)
    ensures ScanFraction(FractionText(point, fraction) + rest) == (point, fraction, rest)
  {
    var s := FractionText(point, fraction) + rest;
    if point {
      assert s[0] == '.' && s[1..] == fraction + rest;
      SpanJoin(fraction, rest, Digit);
    } else {
      assert s == rest;
    }
  }

  /** Reads `\d+\.?\d*` at the front of s. */
  function ScanUnsigned(s: string): (r: Option<(Numeral, string)>)
    ensures r.Some? ==> !r.value.0.negative && WellFormed(r.value.0)
    ensures r.Some? ==> EndsNumeral(r.value.0, r.value.1)
    ensures r.Some? ==> Magnitude(r.value.0) + r.value.1 == s
    ensures r.None? <==> s == [] || !IsDigit(s[0])
  {
    var (whole, t) := Span(s, Digit);
    if whole == [] then
      assert t == s;
      None
    else
      assert s[0] == whole[0];
      var (point, fraction, rest) := ScanFraction(t);
      var n := Numeral(false, whole, point, fraction);
      assert Magnitude(n) + rest == whole + t by {
        assert Magnitude(n) + rest == whole + (FractionText(point, fraction) + rest);
      }
      Some((n, rest))
  }

  lemma ScanUnsignedText(n: Numeral, rest: string)
    requires WellFormed(n) && EndsNumeral(n, rest)
    ensures ScanUnsigned(Magnitude(n) + rest) == Some((n.(negative := false), rest))
  {
    var t := FractionText(n.point, n.fraction) + rest;
    assert Magnitude(n) + rest == n.whole + t;
    assert t == [] || !IsDigit(t[0]) by {
      if !n.point {
        assert t == rest;
      }
    }
    SpanJoin(n.whole, t, Digit);
    ScanFractionText(n.point, n.fraction, rest);
  }

  /** Reads the longest numeral `-?\d+\.?\d*` at the front of s. */
  function ScanNumeral(s: string): (r: Option<(Numeral, string)>)
    ensures r.Some? ==> WellFormed(r.value.0) && Text(r.value.0) + r.value.1 == s
    ensures r.Some? ==> EndsNumeral(r.value.0, r.value.1)
    ensures r.None? <==> s == [] || (s[0] != '-' && !IsDigit(s[0])) || (s[0] == '-' && (|s| == 1 || !IsDigit(s[1])))
  {
    var negative := s != [] && s[0] == '-';
    var body := if negative then s[1..] else s;
    SignSplit(s);
    match ScanUnsigned(body)
    case None => None
    case Some((n, rest)) =>
      SignedText(n, negative, rest);
      Some((n.(negative := negative), rest))
  }

  lemma SignSplit(s: string)
    ensures var negative := s != [] && s[0] == '-';
      Sign(negative) + (if negative then s[1..] else s) == s
  {
    if s != [] && s[0] == '-' {
      assert ['-'] + s[1..] == s;
    }
  }

  lemma SignedText(n: Numeral, negative: bool, rest: string)
    ensures Text(n.(negative := negative)) + rest == Sign(negative) + (Magnitude(n) + rest)
  {
    assert Magnitude(n.(negative := negative)) == Magnitude(n);
  }

  /** A well-formed numeral followed by a character that stops it is read back as itself. */
  lemma ScanNumeralText(n: Numeral, rest: string)
    requires WellFormed(n) && EndsNumeral(n, rest)
    ensures ScanNumeral(Text(n) + rest) == Some((n, rest))
  {
    var t := Magnitude(n) + rest;
    assert t[0] == n.whole[0];
    assert Text(n) + rest == Sign(n.negative) + t;
    StripSign(n.negative, t);
    ScanUnsignedText(n, rest);
    assert n.(negative := false).(negative := n.negative) == n;
  }

  lemma StripSign(negative: bool, t: string)
    requires t != [] && IsDigit(t[0])
    ensures var s := Sign(negative) + t;
      (s != [] && s[0] == '-') == negative && (if negative then s[1..] else s) == t
  {
    if negative {
      var s := Sign(negative) + t;
      assert s[1..] == t;
    }
  }

  /**
   * The exact number a numeral denotes (float() rounding is not modelled):
   * all its digits read as one integer, scaled down by one power of ten per
   * fraction digit. The digits before the point give the magnitude's
   * integer part.
   */
  function Value(n: Numeral): (v: real)
    requires WellFormed(n)
    ensures DigitsValue(n.whole) as real <= (if n.negative then -v else v)
    ensures (if n.negative then -v else v) < DigitsValue(n.whole) as real + 1.0
    ensures v < 0.0 ==> n.negative
  {
    DigitsValueBelow(n.fraction);
    QuotientBelowOne(DigitsValue(n.fraction) as real, Pow10(|n.fraction|) as real);
    var magnitude := DigitsValue(n.whole) as real
      + DigitsValue(n.fraction) as real / Pow10(|n.fraction|) as real;
    if n.negative then -magnitude else magnitude
  }

  /** x with the decimal point moved `places` digits to the right. */
  function Shifted(x: real, places: nat): real
  {
    x * Pow10(places) as real
  }

  /**
   * Value reads all the digits of a numeral as one integer and puts the
   * point back before the fraction digits.
   */
  lemma ValueScaled(n: Numeral)
    requires WellFormed(n)
    ensures AllDigits(n.whole + n.fraction)
    ensures Shifted(if n.negative then -Value(n) else Value(n), |n.fraction|) == DigitsValue(n.whole + n.fraction) as real
  {
    DigitsValueAppend(n.whole, n.fraction);
    ScaleBack(DigitsValue(n.whole), DigitsValue(n.fraction), |n.fraction|,
      DigitsValue(n.whole + n.fraction), if n.negative then -Value(n) else Value(n));
  }

  /** Moving the point of w + f / 10^k right by k digits gives the integer w * 10^k + f. */
  lemma ScaleBack(w: int, f: int, k: nat, d: int, m: real)
    requires d == w * Pow10(k) + f && m == w as real + f as real / Pow10(k) as real
    ensures Shifted(m, k) == d as real
  {
    var wr, fr, pr := w as real, f as real, Pow10(k) as real;
    assert m * pr == wr * pr + fr;
    assert (w * Pow10(k)) as real == wr * pr;
  }

  lemma QuotientBelowOne(d: real, p: real)
    requires 0.0 <= d < p
    ensures 0.0 <= d / p < 1.0
  {
  }

  /** A whole-string match of the pattern, keeping every part the pattern consumed. */
  datatype PairMatch = PairMatch(lead: string, first: Numeral, gap: string, second: Numeral, trail: string)

  /** Spaces only around the pair and after the comma; none before it. */
  predicate Matches(m: PairMatch)
  {
    AllIn(m.lead, Space) && WellFormed(m.first) && AllIn(m.gap, Space)
    && WellFormed(m.second) && AllIn(m.trail, Space)
  }

  function Render(m: PairMatch): string
  {
    m.lead + (Text(m.first) + ("," + (m.gap + (Text(m.second) + m.trail))))
  }

  /** The part of the pattern after the first number: `,\s*(-?\d+\.?\d*)\s*$`. */
  function MatchSecond(t: string): (r: Option<(string, Numeral, string)>)
    ensures r.Some? ==> AllIn(r.value.0, Space) && WellFormed(r.value.1) && AllIn(r.value.2, Space)
    ensures r.Some? ==> "," + (r.value.0 + (Text(r.value.1) + r.value.2)) == t
  {
    if t == [] || t[0] != ',' then None
    else
      var (gap, t2) := Span(t[1..], Space);
      match ScanNumeral(t2)
      case None => None
      case Some((second, t3)) =>
        var (trail, t4) := Span(t3, Space);
        if t4 != [] then None
        else
          assert t3 == trail;
          assert t == "," + t[1..];
          Some((gap, second, trail))
  }

  /** The regular-expression match of app.py:31-32. */
  function MatchPair(s: string): (r: Option<PairMatch>)
    ensures r.Some? ==> Matches(r.value) && Render(r.value) == s
  {
    var (lead, t) := Span(s, Space);
    match ScanNumeral(t)
    case None => None
    case Some((first, t1)) =>
      match MatchSecond(t1)
      case None => None
      case Some((gap, second, trail)) => Some(PairMatch(lead, first, gap, second, trail))
  }

  lemma NumeralStartsNonSpace(n: Numeral, rest: string)
    requires WellFormed(n)
    ensures !IsSpace((Text(n) + rest)[0])
    ensures !IsDigit((Text(n) + rest)[0]) ==> n.negative
  {
  }

  /** Every string of the pattern's shape is matched, with exactly its parts. */
  lemma MatchPairRender(m: PairMatch)
    requires Matches(m)
    ensures MatchPair(Render(m)) == Some(m)
  {
    var tail := "," + (m.gap + (Text(m.second) + m.trail));
    var t := Text(m.first) + tail;
    NumeralStartsNonSpace(m.first, tail);
    SpanJoin(m.lead, t, Space);
    ScanNumeralText(m.first, tail);
    MatchSecondText(m.gap, m.second, m.trail);
  }

  /** The part after the first number is read back as its parts. */
  lemma MatchSecondText(gap: string, second: Numeral, trail: string)
    requires AllIn(gap, Space) && WellFormed(second) && AllIn(trail, Space)
    ensures MatchSecond("," + (gap + (Text(second) + trail))) == Some((gap, second, trail))
  {
    var t2 := Text(second) + trail;
    var t := "," + (gap + t2);
    assert t[1..] == gap + t2;
    NumeralStartsNonSpace(second, trail);
    SpanJoin(gap, t2, Space);
    assert EndsNumeral(second, trail) by {
      if trail != [] { assert IsSpace(trail[0]); }
    }
    ScanNumeralText(second, trail);
    SpanJoin(trail, [], Space);
    assert trail + [] == trail;
  }

  /** The recogniser accepts exactly the strings of the pattern's shape. */
  lemma MatchPairExact(s: string)
    ensures MatchPair(s).Some? <==> exists m :: Matches(m) && Render(m) == s
  {
    if m :| Matches(m) && Render(m) == s {
      MatchPairRender(m);
    }
  }

  /** A point with no fraction digits is accepted, and so is a space after the comma. */
  lemma AcceptedBarePoint()
    ensures MatchPair("5., -3").Some?
  {
    var m := PairMatch("", Numeral(false, "5", true, ""), " ", Numeral(true, "3", false, ""), "");
    assert Text(m.first) == "5.";
    assert Text(m.second) == "-3";
    assert Render(m) == "5., -3";
    MatchPairRender(m);
  }

  /** Any whitespace may surround the pair and follow the comma. */
  lemma AcceptedWhitespace()
    ensures MatchPair(" 12.5,\t-0.25 ").Some?
  {
    var m := PairMatch(" ", Numeral(false, "12", true, "5"), "\t", Numeral(true, "0", true, "25"), " ");
    assert Text(m.first) == "12.5";
    assert Text(m.second) == "-0.25";
    assert Render(m) == " 12.5,\t-0.25 ";
    MatchPairRender(m);
  }

  /** A leading point, a plus sign or an exponent is not a number of the pattern. */
  lemma RejectedNumberExamples()
    ensures MatchPair(".5, 1").None?
    ensures MatchPair("+1, 2").None?
  {
    assert Span(".5, 1", Space) == ([], ".5, 1");
    assert Span("+1, 2", Space) == ([], "+1, 2");
  }

  /** The comma must follow the first number at once. */
  lemma RejectedSpaceBeforeComma()
    ensures MatchPair("1 , 2").None?
  {
    assert Span("1 , 2", Space) == ([], "1 , 2");
    assert "1 , 2" == "1" + " , 2";
    SpanJoin("1", " , 2", Digit);
  }

  lemma RejectedExponent()
    ensures MatchPair("1e3, 2").None?
  {
    assert Span("1e3, 2", Space) == ([], "1e3, 2");
    assert "1e3, 2" == "1" + "e3, 2";
    SpanJoin("1", "e3, 2", Digit);
  }

  /** A resolved location, as the tuple (first, second) app.py builds: latitude first by the page's convention. */
  datatype Coord = Coord(lat: real, lon: real)

  /** The request parse_location sends to the geocoding endpoint (app.py:36-37). */
  datatype GeocodeQuery = GeocodeQuery(apiKey: string, text: string)

  /**
   * What app.py reads from the geocoder's reply: the status code and, for each
   * feature, its geometry.coordinates list. A missing `features` key reads as
   * an empty list, as `.get('features')` makes both falsy.
   */
  datatype GeocodeReply = GeocodeReply(status: int, features: seq<seq<real>>)

  /** A GeoJSON position: longitude (x) first, then latitude (y). */
  function Position(c: Coord): seq<real>
  {
    [c.lon, c.lat]
  }

  /** The geocoder branch, app.py:38-41: the first feature's [x, y] as (y, x). */
  function FromGeocoder(reply: GeocodeReply): (r: Result<Option<Coord>, Raised>)
    ensures r == Ok(None) <==> reply.status != 200 || reply.features == []
    ensures r.Err? <==> reply.status == 200 && reply.features != [] && |reply.features[0]| != 2
    ensures r.Err? ==> r.error == UnpackError(|reply.features[0]|)
    ensures r.Ok? && r.value.Some? ==> Position(r.value.value) == reply.features[0]
  {
    if reply.status == 200 && reply.features != [] then
      var xy := reply.features[0];
      if |xy| != 2 then Err(UnpackError(|xy|))
      else Ok(Some(Coord(xy[1], xy[0])))
    else
      Ok(None)
  }

  /** The geocoder's first hit comes back as the coordinate it encodes; later hits are ignored. */
  lemma FromGeocoderFirstHit(c: Coord, more: seq<seq<real>>)
    ensures FromGeocoder(GeocodeReply(200, [Position(c)] + more)) == Ok(Some(c))
  {
  }

  /**
   * parse_location (app.py:30-41). The geocoding service is a parameter: the
   * reply it gives for the one query that would be sent.
   */
  function ParseLocation(text: string, apiKey: string, geocoder: GeocodeQuery -> GeocodeReply): (r: Result<Option<Coord>, Raised>)
    ensures MatchPair(text).Some? ==> r.Ok? && r.value.Some?
    ensures MatchPair(text).None? ==> r == FromGeocoder(geocoder(GeocodeQuery(apiKey, text)))
  {
    match MatchPair(text)
    case Some(m) => Ok(Some(Coord(Value(m.first), Value(m.second))))
    case None => FromGeocoder(geocoder(GeocodeQuery(apiKey, text)))
  }

  /** A typed pair comes back as the two numbers in the order written. */
  lemma PairInWrittenOrder(m: PairMatch, apiKey: string, geocoder: GeocodeQuery -> GeocodeReply)
    requires Matches(m)
    ensures ParseLocation(Render(m), apiKey, geocoder) == Ok(Some(Coord(Value(m.first), Value(m.second))))
  {
    MatchPairRender(m);
  }

  /** A typed pair is resolved without the geocoder: any two services give the same answer. */
  lemma PairNeedsNoGeocoder(text: string, apiKey: string, g1: GeocodeQuery -> GeocodeReply, g2: GeocodeQuery -> GeocodeReply)
    requires MatchPair(text).Some?
    ensures ParseLocation(text, apiKey, g1) == ParseLocation(text, apiKey, g2)
  {
  }

  /**
   * Any other text is sent to the geocoder as it is, with the API key, and
   * resolves to the first hit.
   */
  lemma NameResolvesToFirstHit(text: string, apiKey: string, geocoder: GeocodeQuery -> GeocodeReply, c: Coord, more: seq<seq<real>>)
    requires MatchPair(text).None?
    requires geocoder(GeocodeQuery(apiKey, text)) == GeocodeReply(200, [Position(c)] + more)
    ensures ParseLocation(text, apiKey, geocoder) == Ok(Some(c))
  {
    FromGeocoderFirstHit(c, more);
  }

  /** The page's own example: "-14.0, 33.8" is latitude -14.0, longitude 33.8. */
  lemma ExampleInWrittenOrder(apiKey: string, geocoder: GeocodeQuery -> GeocodeReply)
    ensures ParseLocation("-14.0, 33.8", apiKey, geocoder) == Ok(Some(Coord(-14.0, 33.8)))
  {
    var m := PairMatch("", Numeral(true, "14", true, "0"), " ", Numeral(false, "33", true, "8"), "");
    ExampleRender();
    PairInWrittenOrder(m, apiKey, geocoder);
    ExampleValues();
  }

  lemma ExampleRender()
    ensures Render(PairMatch("", Numeral(true, "14", true, "0"), " ", Numeral(false, "33", true, "8"), "")) == "-14.0, 33.8"
  {
    assert Text(Numeral(true, "14", true, "0")) == "-14.0";
    assert Text(Numeral(false, "33", true, "8")) == "33.8";
  }

  lemma ExampleValues()
    ensures Value(Numeral(true, "14", true, "0")) == -14.0
    ensures Value(Numeral(false, "33", true, "8")) == 33.8
  {
    assert DigitsValue("14") == 14 by {
      assert "14"[..1] == "1";
    }
    assert DigitsValue("33") == 33 by {
      assert "33"[..1] == "3";
    }
    assert DigitsValue("0") == 0 && DigitsValue("8") == 8 by {
      assert "0"[..0] == [] && "8"[..0] == [];
    }
  }
}
