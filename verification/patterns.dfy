/** The regular expressions of the location classifiers, each written as a
    predicate over the text. Every pattern is anchored with `^...$` and used
    with `re.match`; in Python a `$` without MULTILINE also matches just
    before one final newline, which `Anchored` states in general. Each
    pattern below is written in a cheaper equivalent form (the body applied
    to the text less a final newline, or to the text itself) and a lemma
    shows the two agree. The numbers, commas and digit runs inside the
    patterns are read deterministically: each repeated class is followed by
    a character outside it, so the regex engine has only one way to split
    the text. */
module Patterns {
  import opened Common
  import opened Text

  /** `re.match('^' + body + '$', s)`. */
  predicate Anchored(body: string -> bool, s: string) {
    body(s) || (|s| > 0 && s[|s| - 1] == '\n' && body(s[..|s| - 1]))
  }

  /** The text less one final newline. */
  function Chomp(s: string): (r: string)
    ensures |r| <= |s| && r == s[..|r|]
    ensures |s| - |r| <= 1
    ensures |r| < |s| ==> s[|s| - 1] == '\n'
  {
    if |s| > 0 && s[|s| - 1] == '\n' then s[..|s| - 1] else s
  }

  // ---------------------------------------------------------------- ZIP

  /** `\d{5}(-\d{4})?` */
  predicate ZipBody(s: string) {
    || (|s| == 5 && AllDigits(s))
    || (|s| == 10 && AllDigits(s[..5]) && s[5] == '-' && AllDigits(s[6..]))
  }

  /** `^\d{5}(-\d{4})?$` (backend/validators/location.py:8 and
      src/utils/validators.py:42 spell the same language). */
  predicate ZipPattern(s: string) { ZipBody(Chomp(s)) }

  lemma ZipPatternAnchored(s: string)
    ensures ZipPattern(s) <==> Anchored(ZipBody, s)
  {
    if ZipBody(s) && |s| > 0 {
      assert IsDigit(s[|s| - 1]);
    }
  }

  // ---------------------------------------------------------------- numbers

  /** A number split at its sign and its first decimal point. */
  datatype NumberParts = NumberParts(negative: bool, whole: string, hasPoint: bool, fraction: string)

  function NumberPartsOf(s: string): NumberParts {
    var negative := |s| > 0 && s[0] == '-';
    BodyParts(negative, if negative then s[1..] else s)
  }

  /** The text after the sign, split at its first decimal point. */
  function BodyParts(negative: bool, body: string): NumberParts {
    if '.' in body then
      var i := IndexOf(body, '.');
      NumberParts(negative, body[..i], true, body[i + 1..])
    else NumberParts(negative, body, false, "")
  }

  /** `-?\d+(\.\d+)?`: a point must be followed by a digit. */
  predicate StrictDecimal(s: string) {
    var p := NumberPartsOf(s);
    |p.whole| > 0 && AllDigits(p.whole) && AllDigits(p.fraction) && (p.hasPoint ==> |p.fraction| > 0)
  }

  /** `-?\d+\.?\d*`: the point may end the number. */
  predicate LooseDecimal(s: string) {
    var p := NumberPartsOf(s);
    |p.whole| > 0 && AllDigits(p.whole) && AllDigits(p.fraction)
  }

  /** `float(s)` for a text of the `LooseDecimal` shape, as an exact real. */
  function DecimalValue(s: string): real
    requires LooseDecimal(s)
  {
    var p := NumberPartsOf(s);
    var magnitude := DigitsValue(p.whole) as real + DigitsValue(p.fraction) as real / Pow10(|p.fraction|) as real;
    if p.negative then -magnitude else magnitude
  }

  lemma StrictIsLoose(s: string)
    requires StrictDecimal(s)
    ensures LooseDecimal(s)
  {
  }

  /** A decimal number holds only digits, '-' and '.'. */
  lemma {:induction false} DecimalChars(s: string, i: int)
    requires LooseDecimal(s)
    requires 0 <= i < |s|
    ensures IsDigit(s[i]) || s[i] == '-' || s[i] == '.'
  {
    var p := NumberPartsOf(s);
    var body := if p.negative then s[1..] else s;
    if p.negative && i == 0 {
    } else {
      var k := if p.negative then i - 1 else i;
      assert body[k] == s[i];
      BodyChars(p.negative, body, k);
    }
  }

  /** After the sign, a decimal holds only digits and its point. */
  lemma {:induction false} BodyChars(negative: bool, body: string, k: int)
    requires 0 <= k < |body|
    requires var p := BodyParts(negative, body); AllDigits(p.whole) && AllDigits(p.fraction)
    ensures IsDigit(body[k]) || body[k] == '-' || body[k] == '.'
  {
    if '.' in body {
      var j := IndexOf(body, '.');
      if k < j {
        assert body[k] == body[..j][k];
      } else if k > j {
        assert body[k] == body[j + 1..][k - j - 1];
      }
    } else {
      assert body[k] == body[k];
    }
  }

  // ---------------------------------------------------------------- pairs

  /** The two groups of `(N),\s*(N)`: the text before the first comma, and
      the text after it with the leading whitespace dropped. */
  function PairGroups(s: string): (string, string)
    requires ',' in s
  {
    var i := IndexOf(s, ',');
    (s[..i], TrimLeft(s[i + 1..]))
  }

  /** `(-?\d+(\.\d+)?),\s*(-?\d+(\.\d+)?)` */
  predicate StrictPairBody(s: string) {
    ',' in s && StrictDecimal(PairGroups(s).0) && StrictDecimal(PairGroups(s).1)
  }

  /** `^(-?\d+(\.\d+)?),\s*(-?\d+(\.\d+)?)$` (backend/validators/location.py:9). */
  predicate CoordinatePattern(s: string) { StrictPairBody(Chomp(s)) }

  lemma CoordinatePatternAnchored(s: string)
    ensures CoordinatePattern(s) <==> Anchored(StrictPairBody, s)
  {
    if StrictPairBody(s) {
      PairEndsInDigit(s);
    }
  }

  /** `(-?\d+\.?\d*),\s*(-?\d+\.?\d*)` */
  predicate LoosePairBody(s: string) {
    ',' in s && LooseDecimal(PairGroups(s).0) && LooseDecimal(PairGroups(s).1)
  }

  /** `^(-?\d+\.?\d*),\s*(-?\d+\.?\d*)$` (src/utils/validators.py:71 and
      src/ui/widgets/location_input.py:105). */
  predicate DecimalPairPattern(s: string) { LoosePairBody(Chomp(s)) }

  lemma DecimalPairPatternAnchored(s: string)
    ensures DecimalPairPattern(s) <==> Anchored(LoosePairBody, s)
  {
    if LoosePairBody(s) {
      PairEndsInDigit(s);
    }
  }

  /** The two numbers of a `DecimalPairPattern` text, as `float` reads them. */
  function DecimalPairValues(s: string): (real, real)
    requires DecimalPairPattern(s)
  {
    var g := PairGroups(Chomp(s));
    (DecimalValue(g.0), DecimalValue(g.1))
  }

  /** The last character of a number is a digit or its point. */
  lemma NumberEnd(s: string)
    requires LooseDecimal(s)
    ensures |s| > 0 && (IsDigit(s[|s| - 1]) || s[|s| - 1] == '.')
  {
    var p := NumberPartsOf(s);
    var body := if p.negative then s[1..] else s;
    assert s[|s| - 1] == body[|body| - 1];
    if p.hasPoint {
      var j := IndexOf(body, '.');
      if |p.fraction| > 0 {
        assert body[|body| - 1] == p.fraction[|p.fraction| - 1];
      }
    } else {
      assert body[|body| - 1] == p.whole[|p.whole| - 1];
    }
  }

  /** A pair text ends with its second number, so never with a newline. */
  lemma PairEndsInDigit(s: string)
    requires ',' in s && LooseDecimal(PairGroups(s).1)
    ensures |s| > 0 && s[|s| - 1] != '\n'
  {
    NumberEnd(PairGroups(s).1);
    PairTailEnd(s);
  }

  // ---------------------------------------------------------------- city

  predicate CityHeadChar(c: char) { IsLetter(c) || IsSpace(c) }

  /** `[A-Za-z\s]{2,},\s*[A-Za-z]{2,}` */
  predicate CityCountryBody(s: string) {
    && ',' in s
    && var head := PairGroups(s).0;
    && var tail := PairGroups(s).1;
    && |head| >= 2 && (forall k :: 0 <= k < |head| ==> CityHeadChar(head[k]))
    && |tail| >= 2 && AllLetters(tail)
  }

  /** `^[A-Za-z\s]{2,},\s*[A-Za-z]{2,}$` (backend/validators/location.py:10). */
  predicate CityCountryPattern(s: string) { CityCountryBody(Chomp(s)) }

  lemma CityCountryPatternAnchored(s: string)
    ensures CityCountryPattern(s) <==> Anchored(CityCountryBody, s)
  {
    if CityCountryBody(s) {
      CityBodyEnd(s);
    }
  }

  lemma CityBodyEnd(s: string)
    requires CityCountryBody(s)
    ensures s[|s| - 1] != '\n'
  {
    var g := PairGroups(s);
    assert IsLetter(g.1[|g.1| - 1]);
    PairTailEnd(s);
  }

  /** A pair text ends with the last character of its second group. */
  lemma PairTailEnd(s: string)
    requires ',' in s && |PairGroups(s).1| > 0
    ensures s[|s| - 1] == PairGroups(s).1[|PairGroups(s).1| - 1]
  {
    var g := PairGroups(s);
    var i := IndexOf(s, ',');
    var tail := s[i + 1..];
    assert tail[|tail| - |g.1|..] == g.1;
  }

  // ---------------------------------------------------------------- landmark

  predicate LandmarkChar(c: char) {
    IsLetter(c) || IsDigit(c) || IsSpace(c) || c == '-' || c == '\'' || c == '.'
  }

  /** `[A-Za-z0-9\s\-\'\.]{2,}` */
  predicate LandmarkBody(s: string) {
    |s| >= 2 && forall k :: 0 <= k < |s| ==> LandmarkChar(s[k])
  }

  /** `^[A-Za-z0-9\s\-\'\.]{2,}$` (backend/validators/location.py:11). */
  predicate LandmarkPattern(s: string) { LandmarkBody(s) }

  /** `\s` holds the newline, so `$` adds nothing to this pattern. */
  lemma LandmarkPatternAnchored(s: string)
    ensures LandmarkPattern(s) <==> Anchored(LandmarkBody, s)
  {
    if |s| > 0 && s[|s| - 1] == '\n' && LandmarkBody(s[..|s| - 1]) {
      assert forall k :: 0 <= k < |s| - 1 ==> s[k] == s[..|s| - 1][k];
    }
  }

  // ---------------------------------------------------------------- city name

  predicate CityNameChar(c: char) {
    IsLetter(c) || IsSpace(c) || c == '.' || c == '-' || c == '\''
  }

  /** `[A-Za-z\s\.\-\']+` */
  predicate CityNameBody(s: string) {
    |s| >= 1 && forall k :: 0 <= k < |s| ==> CityNameChar(s[k])
  }

  /** `^[A-Za-z\s\.\-\']+$` (src/utils/validators.py:55). */
  predicate CityNamePattern(s: string) { CityNameBody(s) }

  /** `\s` holds the newline, so `$` adds nothing to this pattern. */
  lemma CityNamePatternAnchored(s: string)
    ensures CityNamePattern(s) <==> Anchored(CityNameBody, s)
  {
    if |s| > 0 && s[|s| - 1] == '\n' && CityNameBody(s[..|s| - 1]) {
      assert forall k :: 0 <= k < |s| - 1 ==> s[k] == s[..|s| - 1][k];
    }
  }

  // ---------------------------------------------------------------- degrees

  /** One `(\d+)°(\d+)'(\d+)"([..])` group of a degrees-minutes-seconds text. */
  datatype Dms = Dms(degrees: nat, minutes: nat, seconds: nat, hemisphere: char)

  /** `(\d+)` followed by `stop`: the number and the text after `stop`. */
  function DigitRun(s: string, stop: char): Option<(nat, string)>
  {
    var n := LeadingDigits(s);
    if 0 < n < |s| && s[n] == stop then Some((DigitsValue(s[..n]), s[n + 1..])) else None
  }

  /** `(\d+)°(\d+)'(\d+)"([hemispheres])` at the start of `s`, and the rest. */
  function DmsPrefix(s: string, hemispheres: string): Option<(Dms, string)>
  {
    match DigitRun(s, '°')
    case None => None
    case Some((d, r1)) =>
      match DigitRun(r1, '\'')
      case None => None
      case Some((m, r2)) =>
        match DigitRun(r2, '"')
        case None => None
        case Some((sec, r3)) =>
          if |r3| > 0 && r3[0] in hemispheres then Some((Dms(d, m, sec, r3[0]), r3[1..])) else None
  }

  /** `^(\d+)°(\d+)'(\d+)"([NS])\s*(\d+)°(\d+)'(\d+)"([EW])$`
      (src/ui/widgets/location_input.py:112-115): the two groups when it matches. */
  function DmsPair(s: string): Option<(Dms, Dms)>
  {
    match DmsPrefix(s, "NS")
    case None => None
    case Some((lat, r)) =>
      match DmsPrefix(TrimLeft(r), "EW")
      case None => None
      case Some((lon, rest)) => if rest == "" || rest == "\n" then Some((lat, lon)) else None
  }

  /** A degrees text always holds the degree sign. */
  lemma DmsNeedsDegreeSign(s: string)
    requires DmsPair(s).Some?
    ensures '°' in s
  {
    var n := LeadingDigits(s);
    assert s[n] == '°';
  }
}
