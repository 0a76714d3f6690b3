/** CVSS scores: `strconv.ParseFloat` on the `BaseScoreV3` text, with a parse failure read
    as 0 (main.go lines 230 and 299), and the severity bands of the qualitative severity
    rating scale in section 5 of the CVSS v3.1 specification (main.go `severitytoCVSS`). */
module Score {
  import opened Wrappers
  import opened Strings

  /** The value of a string of decimal digits, most significant first. */
  function DigitsValue(s: string): nat
    requires AllDigits(s)
  {
    if s == [] then 0 else DigitsValue(s[..|s| - 1]) * 10 + (s[|s| - 1] as int - '0' as int)
  }

  /** The longest prefix of digits. */
  function DigitPrefix(s: string): (r: string)
    ensures |r| <= |s| && r == s[..|r|] && AllDigits(r)
    ensures |r| < |s| ==> !IsDigit(s[|r|])
  {
    if s != [] && IsDigit(s[0]) then [s[0]] + DigitPrefix(s[1..]) else []
  }

  function Pow10(n: nat): (r: nat)
    ensures r >= 1
  {
    if n == 0 then 1 else 10 * Pow10(n - 1)
  }

  /** An optional exponent `e`/`E` with an optional sign and at least one digit, which must
      end the text; the empty text is exponent 0. */
  function ParseExponent(s: string): Option<int>
  {
    if s == [] then Some(0)
    else if s[0] != 'e' && s[0] != 'E' then None
    else
      var t := s[1..];
      var neg := t != [] && t[0] == '-';
      var u := if t != [] && (t[0] == '+' || t[0] == '-') then t[1..] else t;
      if u != [] && AllDigits(u) then Some(if neg then -(DigitsValue(u) as int) else DigitsValue(u) as int)
      else None
  }

  /** `x * 10^e` for an integer exponent. */
  function Scale(x: real, e: int): real
  {
    if e >= 0 then x * Pow10(e) as real else x / Pow10(-e) as real
  }

  /** `strconv.ParseFloat(s, 64)` on decimal text: an optional sign, digits with at most one
      decimal point and at least one digit, an optional exponent, and nothing else. */
  function ParseDecimal(s: string): (r: Option<real>)
    ensures s != [] && IsSpace(s[0]) ==> r == None
  {
    var neg := s != [] && s[0] == '-';
    var body := if s != [] && (s[0] == '+' || s[0] == '-') then s[1..] else s;
    var intPart := DigitPrefix(body);
    var rest := body[|intPart|..];
    var fracPart := if rest != [] && rest[0] == '.' then DigitPrefix(rest[1..]) else [];
    var tail := if rest != [] && rest[0] == '.' then rest[1 + |fracPart|..] else rest;
    if |intPart| + |fracPart| == 0 then None
    else
      match ParseExponent(tail)
      case None => None
      case Some(e) =>
        var mag := DigitsValue(intPart) as real + DigitsValue(fracPart) as real / Pow10(|fracPart|) as real;
        Some(Scale(if neg then -mag else mag, e))
  }

  /** The score the filters compare: the parsed value, or 0 when the text does not parse
      (the error of `ParseFloat` is discarded). */
  function ParseScore(s: string): (r: real)
    ensures ParseDecimal(s).Some? ==> r == ParseDecimal(s).value
    ensures r != 0.0 ==> ParseDecimal(s) == Some(r)
  {
    match ParseDecimal(s)
    case Some(x) => x
    case None => 0.0
  }

  // ----- the inverse direction: one-decimal scores as the feed writes them -----

  /** The decimal digits of `n`, most significant first, without leading zeros. */
  function NatDigits(n: nat): (r: string)
    ensures |r| >= 1 && AllDigits(r)
    decreases n
  {
    var d := [('0' as int + n % 10) as char];
    if n < 10 then d else NatDigits(n / 10) + d
  }

  lemma {:induction false} NatDigitsValue(n: nat)
    ensures DigitsValue(NatDigits(n)) == n
    decreases n
  {
    var s := NatDigits(n);
    if n >= 10 {
      NatDigitsValue(n / 10);
      assert s[..|s| - 1] == NatDigits(n / 10);
    }
  }

  /** A score of `t` tenths written the way CVSS scores are written, e.g. `9.8`. */
  function FormatTenths(t: nat): string
  {
    NatDigits(t / 10) + "." + NatDigits(t % 10)
  }

  lemma DigitPrefixAll(s: string, t: string)
    requires AllDigits(s)
    requires t == [] || !IsDigit(t[0])
    ensures DigitPrefix(s + t) == s
  {
    if s != [] {
      assert (s + t)[1..] == s[1..] + t;
      DigitPrefixAll(s[1..], t);
    }
  }

  /** Parsing undoes formatting: a one-decimal score reads back as `t / 10`. */
  lemma ParseFormatTenths(t: nat)
    ensures ParseDecimal(FormatTenths(t)) == Some(t as real / 10.0)
  {
    var a, b := NatDigits(t / 10), NatDigits(t % 10);
    var s := FormatTenths(t);
    assert s == a + ("." + b);
    assert s[0] == a[0] && IsDigit(s[0]);
    DigitPrefixAll(a, "." + b);
    assert DigitPrefix(s) == a;
    var rest := s[|a|..];
    assert rest == "." + b;
    DigitPrefixAll(b, []);
    assert b + [] == b;
    assert rest[1..] == b;
    assert DigitPrefix(rest[1..]) == b;
    assert |b| == 1;
    assert rest[1 + |b|..] == [];
    assert ParseExponent([]) == Some(0);
    NatDigitsValue(t / 10);
    NatDigitsValue(t % 10);
    var q, r := t / 10, t % 10;
    assert t == 10 * q + r;
    assert t as real == 10.0 * (q as real) + r as real;
    var mag := DigitsValue(a) as real + DigitsValue(b) as real / Pow10(|b|) as real;
    assert mag == q as real + r as real / 10.0;
    assert Scale(mag, 0) == t as real / 10.0;
  }

  /** The filters' score of a one-decimal score text is its value. */
  lemma ParseScoreTenths(t: nat)
    ensures ParseScore(FormatTenths(t)) == t as real / 10.0
  {
    ParseFormatTenths(t);
  }

  /** Text that parses holds at least one digit. */
  lemma ParseDecimalHasDigit(s: string)
    requires ParseDecimal(s).Some?
    ensures exists i :: 0 <= i < |s| && IsDigit(s[i])
  {
    var body := if s != [] && (s[0] == '+' || s[0] == '-') then s[1..] else s;
    var k := if s != [] && (s[0] == '+' || s[0] == '-') then 1 else 0;
    assert body == s[k..];
    var intPart := DigitPrefix(body);
    if intPart != [] {
      assert IsDigit(s[k]);
    } else {
      var rest := body[|intPart|..];
      assert rest == body && rest != [] && rest[0] == '.';
      var fracPart := DigitPrefix(rest[1..]);
      assert fracPart != [];
      assert IsDigit(s[k + 1]);
    }
  }

  /** Text that is not a number, such as `abc`, scores 0. */
  lemma NonNumericScoresZero(s: string)
    requires s != [] && s[0] != '+' && s[0] != '-' && s[0] != '.' && !IsDigit(s[0])
    ensures ParseDecimal(s) == None && ParseScore(s) == 0.0
  {
  }

  // ----- severity bands -----

  /** A named inclusive score band. */
  datatype Band = Band(name: string, lo: real, hi: real)

  /** The qualitative severity rating scale of CVSS v3.1, section 5, without its `none`
      row (0.0), which `severitytoCVSS` does not offer. */
  const RatingScale: seq<Band> := [
    Band("low", 0.1, 3.9),
    Band("medium", 4.0, 6.9),
    Band("high", 7.0, 8.9),
    Band("critical", 9.0, 10.0)
  ]

  /** The band of a severity label, matched case-insensitively; `None` for any other label,
      the empty label included. */
  function SeverityBand(severity: string): (r: Option<(real, real)>)
    ensures r.Some? <==> exists i :: 0 <= i < |RatingScale| && RatingScale[i].name == ToLower(severity)
    ensures r.Some? ==> exists i :: 0 <= i < |RatingScale| && RatingScale[i].name == ToLower(severity)
                          && r.value == (RatingScale[i].lo, RatingScale[i].hi)
  {
    var l := ToLower(severity);
    if l == RatingScale[0].name then Some((RatingScale[0].lo, RatingScale[0].hi))
    else if l == RatingScale[1].name then Some((RatingScale[1].lo, RatingScale[1].hi))
    else if l == RatingScale[2].name then Some((RatingScale[2].lo, RatingScale[2].hi))
    else if l == RatingScale[3].name then Some((RatingScale[3].lo, RatingScale[3].hi))
    else None
  }

  /** A severity selects the same band whatever its letter case. */
  lemma SeverityBandCaseInsensitive(severity: string)
    ensures SeverityBand(ToLower(severity)) == SeverityBand(severity)
  {
    ToLowerIdempotent(severity);
  }

  /** How many bands of the scale contain `x`. */
  function BandsContaining(x: real): nat
  {
    |set i | 0 <= i < |RatingScale| && RatingScale[i].lo <= x <= RatingScale[i].hi|
  }

  /** The bands are in order and leave no one-decimal score between them: every score
      from 0.1 to 10.0 in steps of 0.1 lies in exactly one band, and 0.0 in none. */
  lemma BandsPartitionScale(t: int)
    requires 0 <= t <= 100
    ensures BandsContaining(t as real / 10.0) == (if t == 0 then 0 else 1)
  {
    var x := t as real / 10.0;
    var s := set i | 0 <= i < |RatingScale| && RatingScale[i].lo <= x <= RatingScale[i].hi;
    if t == 0 {
      assert s == {};
    } else if t <= 39 {
      assert s == {0};
    } else if t <= 69 {
      assert s == {1};
    } else if t <= 89 {
      assert s == {2};
    } else {
      assert s == {3};
    }
  }
}
