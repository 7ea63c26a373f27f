/** `LocationValidator` of backend/validators/location.py: classification of
    a free-form location text into zip, coordinates, city or landmark, and
    the type-specific normalisation and display record. */
module LocationValidator {
  import opened Common
  import opened Text
  import opened Patterns

  /** `(is_valid, message, location_type)` as `validate` returns it. */
  datatype Verdict = Verdict(valid: bool, message: string, kind: Option<LocationType>)

  const NonEmptyMessage := "Location must be a non-empty string"
  const TooShortMessage := "Location must be at least 2 characters long"
  const MatchedMessage := "Valid location format"
  const AssumedMessage := "Assumed landmark location"
  const InvalidMessage := "Invalid location format"

  const MaxLandmarkLength := 100
  const MaxLandmarkWords := 10

  /** The first entry of `PATTERNS`, in its order zip, coordinates, city,
      landmark, whose regex matches. */
  function MatchPattern(s: string): Option<LocationType> {
    if ZipPattern(s) then Some(Zip)
    else if CoordinatePattern(s) then Some(Coordinates)
    else if CityCountryPattern(s) then Some(City)
    else if LandmarkPattern(s) then Some(Landmark)
    else None
  }

  /** A character of `[\w\s\-\'\.,:()]`, the set the fallback accepts. */
  predicate UsualChar(c: char) {
    IsWordChar(c) || IsSpace(c) || c == '-' || c == '\'' || c == '.' || c == ',' || c == ':' || c == '(' || c == ')'
  }

  predicate OnlyUsualChars(s: string) { forall k :: 0 <= k < |s| ==> UsualChar(s[k]) }

  /** `_is_reasonable_landmark`. */
  predicate IsReasonableLandmark(s: string) {
    |s| <= MaxLandmarkLength && OnlyUsualChars(s) && |Words(s)| <= MaxLandmarkWords
  }

  /** `validate`: `None` stands for an argument that is not a string. */
  function Validate(location: Option<string>): (v: Verdict)
    ensures v.valid <==> v.kind.Some?
    ensures location.None? || location.value == "" ==> v == Verdict(false, NonEmptyMessage, None)
    ensures location.Some? && location.value != "" && |Strip(location.value)| < 2 ==> v == Verdict(false, TooShortMessage, None)
    ensures v.valid ==> location.Some? && |Strip(location.value)| >= 2
  {
    if location.None? || location.value == "" then Verdict(false, NonEmptyMessage, None)
    else
      var s := Strip(location.value);
      if |s| < 2 then Verdict(false, TooShortMessage, None)
      else
        match MatchPattern(s)
        case Some(t) => Verdict(true, MatchedMessage, Some(t))
        case None =>
          if IsReasonableLandmark(s) then Verdict(true, AssumedMessage, Some(Landmark))
          else Verdict(false, InvalidMessage, None)
  }

  /** A trimmed text of two or more characters that a pattern matches is
      valid with that pattern's type. */
  lemma ValidateMatched(location: string, t: LocationType)
    requires |Strip(location)| >= 2 && MatchPattern(Strip(location)) == Some(t)
    ensures Validate(Some(location)) == Verdict(true, MatchedMessage, Some(t))
  {
    assert location != "";
  }

  // ---------------------------------------------------------------- pattern facts

  lemma ZipChars(s: string)
    requires ZipPattern(s)
    ensures forall k :: 0 <= k < |s| ==> IsDigit(s[k]) || s[k] == '-' || s[k] == '\n'
    ensures |s| >= 5
  {
    var x := Chomp(s);
    forall k | 0 <= k < |s|
      ensures IsDigit(s[k]) || s[k] == '-' || s[k] == '\n'
    {
      if k < |x| {
        assert s[k] == x[k];
        if |x| == 10 && k < 5 {
          assert x[k] == x[..5][k];
        } else if |x| == 10 && k > 5 {
          assert x[k] == x[6..][k - 6];
        }
      }
    }
  }

  lemma LandmarkChars(s: string)
    requires LandmarkPattern(s)
    ensures forall k :: 0 <= k < |s| ==> LandmarkChar(s[k])
  {
  }

  /** Where the pair patterns put their comma, and what surrounds it. */
  lemma PairLayout(x: string, k: int)
    requires ',' in x && 0 <= k < |x|
    ensures var i := IndexOf(x, ',');
            var g := PairGroups(x);
            || (k < i && x[k] == g.0[k])
            || (k == i && x[k] == ',')
            || (k > i && k < |x| - |g.1| && IsSpace(x[k]))
            || (k > i && k >= |x| - |g.1| && x[k] == g.1[k - (|x| - |g.1|)])
  {
    var i := IndexOf(x, ',');
    var g := PairGroups(x);
    assert g == (x[..i], TrimLeft(x[i + 1..]));
    if k < i {
      assert x[k] == x[..i][k];
    } else if k > i {
      assert x[k] == x[i + 1..][k - i - 1];
      TrimLeftAt(x[i + 1..], k - i - 1);
    }
  }

  lemma CoordinateBodyChars(x: string)
    requires StrictPairBody(x)
    ensures forall k :: 0 <= k < |x| ==> UsualChar(x[k])
  {
    var g := PairGroups(x);
    forall k | 0 <= k < |x|
      ensures UsualChar(x[k])
    {
      PairLayout(x, k);
      var i := IndexOf(x, ',');
      if k < i {
        DecimalChars(g.0, k);
      } else if k > i && k >= |x| - |g.1| {
        DecimalChars(g.1, k - (|x| - |g.1|));
      }
    }
  }

  lemma CityBodyChars(x: string)
    requires CityCountryBody(x)
    ensures forall k :: 0 <= k < |x| ==> UsualChar(x[k])
  {
    forall k | 0 <= k < |x|
      ensures UsualChar(x[k])
    {
      PairLayout(x, k);
    }
  }

  /** The characters of a text are those of its chomped form and a newline. */
  lemma ChompChars(s: string, P: char -> bool)
    requires forall k :: 0 <= k < |Chomp(s)| ==> P(Chomp(s)[k])
    requires P('\n')
    ensures forall k :: 0 <= k < |s| ==> P(s[k])
  {
    var x := Chomp(s);
    forall k | 0 <= k < |s|
      ensures P(s[k])
    {
      if k < |x| {
        assert s[k] == x[k];
      }
    }
  }

  lemma CoordinateChars(s: string)
    requires CoordinatePattern(s)
    ensures forall k :: 0 <= k < |s| ==> UsualChar(s[k])
  {
    CoordinateBodyChars(Chomp(s));
    ChompChars(s, UsualChar);
  }

  lemma CityChars(s: string)
    requires CityCountryPattern(s)
    ensures forall k :: 0 <= k < |s| ==> UsualChar(s[k])
  {
    CityBodyChars(Chomp(s));
    ChompChars(s, UsualChar);
  }

  /** The comma of a pair text is a comma of the whole text. */
  lemma PairComma(s: string)
    requires ',' in Chomp(s)
    ensures ',' in s
  {
    var x := Chomp(s);
    var i := IndexOf(x, ',');
    assert s[i] == x[i];
  }

  /** The first character of a pair text is the first of its first group. */
  lemma PairStart(s: string)
    requires ',' in Chomp(s) && |PairGroups(Chomp(s)).0| > 0
    ensures s[0] == PairGroups(Chomp(s)).0[0]
  {
    var x := Chomp(s);
    assert s[0] == x[0];
  }

  lemma CoordinateStart(s: string)
    requires CoordinatePattern(s)
    ensures IsDigit(s[0]) || s[0] == '-'
  {
    var g := PairGroups(Chomp(s));
    assert |NumberPartsOf(g.0).whole| > 0;
    PairStart(s);
    DecimalChars(g.0, 0);
  }

  lemma CityStart(s: string)
    requires CityCountryPattern(s)
    ensures CityHeadChar(s[0])
  {
    PairStart(s);
  }

  lemma ZipExcludesPairs(s: string)
    ensures !(ZipPattern(s) && CoordinatePattern(s))
    ensures !(ZipPattern(s) && CityCountryPattern(s))
  {
    if ZipPattern(s) && ',' in Chomp(s) {
      ZipChars(s);
      PairComma(s);
    }
  }

  /** A landmark text holds no comma, so neither does its chomped form. */
  lemma LandmarkHasNoComma(s: string)
    requires LandmarkPattern(s)
    ensures ',' !in Chomp(s)
  {
    var x := Chomp(s);
    forall k | 0 <= k < |x|
      ensures x[k] != ','
    {
      assert x[k] == s[k] && LandmarkChar(s[k]);
    }
  }

  lemma LandmarkExcludesPairs(s: string)
    ensures !(LandmarkPattern(s) && CoordinatePattern(s))
    ensures !(LandmarkPattern(s) && CityCountryPattern(s))
  {
    if LandmarkPattern(s) {
      LandmarkHasNoComma(s);
    }
  }

  lemma CoordinateStartsNumeric(s: string)
    ensures CoordinatePattern(s) ==> |s| > 0 && (IsDigit(s[0]) || s[0] == '-')
  {
    if CoordinatePattern(s) {
      CoordinateStart(s);
    }
  }

  lemma CityStartsWithHead(s: string)
    ensures CityCountryPattern(s) ==> |s| > 0 && CityHeadChar(s[0])
  {
    if CityCountryPattern(s) {
      CityStart(s);
    }
  }

  lemma CoordinateExcludesCity(s: string)
    ensures !(CoordinatePattern(s) && CityCountryPattern(s))
  {
    CoordinateStartsNumeric(s);
    CityStartsWithHead(s);
    if |s| > 0 {
      NumericIsNoHead(s[0]);
    }
  }

  lemma NumericIsNoHead(c: char)
    ensures IsDigit(c) || c == '-' ==> !CityHeadChar(c)
  {
  }

  /** Zip, coordinates and city patterns exclude one another, and the
      landmark pattern excludes coordinates and city: the only overlap the
      priority order decides is zip against landmark. */
  lemma PatternsOverlapOnlyZipLandmark(s: string)
    ensures !(ZipPattern(s) && CoordinatePattern(s))
    ensures !(ZipPattern(s) && CityCountryPattern(s))
    ensures !(CoordinatePattern(s) && CityCountryPattern(s))
    ensures !(CoordinatePattern(s) && LandmarkPattern(s))
    ensures !(CityCountryPattern(s) && LandmarkPattern(s))
  {
    ZipExcludesPairs(s);
    LandmarkExcludesPairs(s);
    CoordinateExcludesCity(s);
  }

  /** Every ZIP text also matches the landmark pattern. */
  lemma ZipAlsoLandmark(s: string)
    requires ZipPattern(s)
    ensures LandmarkPattern(s)
  {
    ZipChars(s);
  }

  // ---------------------------------------------------------------- classification

  /** What `validate` answers for a trimmed text of two or more characters,
      pattern by pattern. Because the first three patterns exclude one
      another, only the landmark kind depends on the order: a text that is
      both ZIP-shaped and landmark-shaped is a ZIP. */
  lemma {:induction false} ClassificationByPattern(location: string)
    requires |Strip(location)| >= 2
    ensures var t := Strip(location);
            var v := Validate(Some(location));
            && (v.kind == Some(Zip) <==> ZipPattern(t))
            && (v.kind == Some(Coordinates) <==> CoordinatePattern(t))
            && (v.kind == Some(City) <==> CityCountryPattern(t))
            && (v.kind == Some(Landmark) <==>
                  !ZipPattern(t) && (LandmarkPattern(t)
                    || (!CoordinatePattern(t) && !CityCountryPattern(t) && IsReasonableLandmark(t))))
  {
    var t := Strip(location);
    assert location != "";
    PatternsOverlapOnlyZipLandmark(t);
  }

  lemma StripDigits(s: string)
    requires |s| > 0 && AllDigits(s)
    ensures Strip(s) == s
  {
    StripUntouched(s);
  }

  /** The worked example: "12345" matches both the ZIP and the landmark
      pattern and is classified as a ZIP. */
  lemma ZipBeatsLandmarkExample()
    ensures LandmarkPattern("12345")
    ensures Validate(Some("12345")) == Verdict(true, MatchedMessage, Some(Zip))
  {
    var s := "12345";
    StripDigits(s);
    assert Chomp(s) == s;
    assert ZipPattern(s);
    ZipAlsoLandmark(s);
  }

  /** When no pattern matches, the fallback accepts exactly the texts of at
      most 100 usual characters and at most 10 words. */
  lemma {:induction false} FallbackAcceptance(location: string)
    requires |Strip(location)| >= 2 && MatchPattern(Strip(location)).None?
    ensures var t := Strip(location);
            var v := Validate(Some(location));
            && (v.valid <==> |t| <= 100 && OnlyUsualChars(t) && |Words(t)| <= 10)
            && (v.valid ==> v == Verdict(true, AssumedMessage, Some(Landmark)))
            && (!v.valid ==> v == Verdict(false, InvalidMessage, None))
  {
    assert location != "";
  }

  /** Whatever route accepts a location, its trimmed text holds only
      characters of `[\w\s\-\'\.,:()]`. */
  lemma {:induction false} AcceptedTextIsUsual(location: string)
    requires Validate(Some(location)).valid
    ensures OnlyUsualChars(Strip(location))
  {
    var t := Strip(location);
    match MatchPattern(t)
    case Some(Zip) => ZipChars(t);
    case Some(Coordinates) => CoordinateChars(t);
    case Some(City) => CityChars(t);
    case Some(Landmark) => LandmarkChars(t);
    case None =>
  }

  // ---------------------------------------------------------------- normalisation

  function CapitalizeLong(w: string): string {
    if |w| > 3 then Capitalize(w) else w
  }

  /** Each comma-separated segment stripped and title-cased. */
  function TitledSegments(parts: seq<string>): (ts: seq<string>)
    ensures |ts| == |parts| && forall i :: 0 <= i < |parts| ==> ts[i] == Title(Strip(parts[i]))
  {
    seq(|parts|, i requires 0 <= i < |parts| => Title(Strip(parts[i])))
  }

  function NormalizeCity(s: string): string {
    JoinWith(TitledSegments(SplitOn(s, ',')), ',')
  }

  /** Each word longer than three characters capitalised. */
  function CapitalizedWords(ws: seq<string>): (cs: seq<string>)
    ensures |cs| == |ws| && forall i :: 0 <= i < |ws| ==> cs[i] == CapitalizeLong(ws[i])
  {
    seq(|ws|, i requires 0 <= i < |ws| => CapitalizeLong(ws[i]))
  }

  function NormalizeLandmark(s: string): string {
    JoinWith(CapitalizedWords(Words(s)), ' ')
  }

  /** The location types `normalize_location` treats specially. */
  const KnownTypes: set<string> := {"coordinates", "city", "zip", "landmark"}

  /** `normalize_location`. The coordinates branch renders floats with six
      decimals, which the model does not describe: it answers `None`. */
  function NormalizeLocation(location: string, locationType: string): (r: Option<string>)
    ensures r.None? <==> locationType == "coordinates"
    ensures !(locationType in KnownTypes) ==> r == Some(Strip(location))
  {
    var s := Strip(location);
    if locationType == "coordinates" then None
    else if locationType == "city" then Some(NormalizeCity(s))
    else if locationType == "zip" then Some(RemoveChar(s, ' '))
    else if locationType == "landmark" then Some(NormalizeLandmark(s))
    else Some(s)
  }

  lemma TitleKeepsNonLetter(s: string, c: char)
    requires !IsLetter(c) && c !in s
    ensures c !in Title(s)
  {
  }

  /** Title-casing a text that has no whitespace at either end keeps it so. */
  lemma TitleKeepsEnds(s: string)
    requires |s| > 0 ==> !IsSpace(s[0]) && !IsSpace(s[|s| - 1])
    ensures var t := Title(s); |t| > 0 ==> !IsSpace(t[0]) && !IsSpace(t[|t| - 1])
  {
  }

  /** One segment of a city text after normalisation. */
  lemma CitySegment(p: string)
    requires ',' !in p
    ensures var t := Title(Strip(p));
            && ',' !in t
            && (|t| > 0 ==> !IsSpace(t[0]) && !IsSpace(t[|t| - 1]))
  {
    TitleKeepsNonLetter(Strip(p), ',');
    TitleKeepsEnds(Strip(p));
  }

  /** The normalised segments hold no comma and no whitespace at either end. */
  lemma SegmentsClean(parts: seq<string>)
    requires forall k :: 0 <= k < |parts| ==> ',' !in parts[k]
    ensures var ts := TitledSegments(parts);
            && NoneHolds(ts, ',')
            && forall k :: 0 <= k < |ts| ==> |ts[k]| > 0 ==> !IsSpace(ts[k][0]) && !IsSpace(ts[k][|ts[k]| - 1])
  {
    var ts := TitledSegments(parts);
    forall k | 0 <= k < |ts|
      ensures ',' !in ts[k]
      ensures |ts[k]| > 0 ==> !IsSpace(ts[k][0]) && !IsSpace(ts[k][|ts[k]| - 1])
    {
      CitySegment(parts[k]);
    }
  }

  lemma NormalizeCityCase(location: string)
    ensures NormalizeLocation(location, "city") == Some(NormalizeCity(Strip(location)))
  {
  }

  lemma NormalizeLandmarkCase(location: string)
    ensures NormalizeLocation(location, "landmark") == Some(NormalizeLandmark(Strip(location)))
  {
    var t := "landmark";
    assert t[0] != "coordinates"[0] && t[0] != "city"[0] && t[0] != "zip"[0];
  }

  /** City normalisation keeps the comma-separated segments: there are as
      many as before, and each is the old segment stripped and title-cased,
      with no whitespace at either end. */
  lemma {:induction false} CityNormalizationKeepsSegments(location: string)
    ensures var parts := SplitOn(Strip(location), ',');
            var segs := SplitOn(NormalizeLocation(location, "city").value, ',');
            && |segs| == |parts|
            && forall i :: 0 <= i < |parts| ==>
                 && segs[i] == Title(Strip(parts[i]))
                 && (|segs[i]| > 0 ==> !IsSpace(segs[i][0]) && !IsSpace(segs[i][|segs[i]| - 1]))
  {
    NormalizeCityCase(location);
    var parts := SplitOn(Strip(location), ',');
    var titled := TitledSegments(parts);
    SegmentsClean(parts);
    SplitJoin(titled, ',');
  }

  lemma CapitalizeLongIsWord(w: string)
    requires IsWord(w)
    ensures IsWord(CapitalizeLong(w))
  {
  }

  lemma CapitalizedAreWords(ws: seq<string>)
    requires forall k :: 0 <= k < |ws| ==> IsWord(ws[k])
    ensures forall k :: 0 <= k < |ws| ==> IsWord(CapitalizedWords(ws)[k])
  {
    var caps := CapitalizedWords(ws);
    forall k | 0 <= k < |caps|
      ensures IsWord(caps[k])
    {
      CapitalizeLongIsWord(ws[k]);
    }
  }

  /** Landmark normalisation keeps the words: as many as before, those
      longer than three characters capitalised, the others untouched. */
  lemma LandmarkNormalizationKeepsWords(location: string)
    ensures var ws := Words(Strip(location));
            var out := Words(NormalizeLocation(location, "landmark").value);
            && |out| == |ws|
            && forall i :: 0 <= i < |ws| ==> out[i] == (if |ws[i]| > 3 then Capitalize(ws[i]) else ws[i])
  {
    NormalizeLandmarkCase(location);
    LandmarkWords(Strip(location));
  }

  lemma LandmarkWords(t: string)
    ensures Words(NormalizeLandmark(t)) == CapitalizedWords(Words(t))
  {
    var caps := CapitalizedWords(Words(t));
    CapitalizedAreWords(Words(t));
    WordsJoin(caps);
  }

  lemma NormalizeZipCase(location: string)
    ensures NormalizeLocation(location, "zip") == Some(RemoveChar(Strip(location), ' '))
  {
    var t := "zip";
    assert t[0] != "coordinates"[0] && t[0] != "city"[0];
  }

  /** ZIP normalisation drops every space and keeps every other character
      with its multiplicity and in its order: cut the text anywhere, and
      what comes of the part before the cut precedes what comes of the
      part after it. A text the ZIP pattern accepts comes back as it was. */
  lemma ZipNormalizationRemovesSpacesOnly(location: string)
    ensures var r := NormalizeLocation(location, "zip").value;
            && ' ' !in r
            && (forall c :: c != ' ' ==> multiset(r)[c] == multiset(Strip(location))[c])
            && (forall i :: 0 <= i <= |Strip(location)| ==>
                  r == RemoveChar(Strip(location)[..i], ' ') + RemoveChar(Strip(location)[i..], ' '))
            && (ZipPattern(Strip(location)) ==> r == Strip(location))
  {
    NormalizeZipCase(location);
    ZipRemoval(Strip(location));
  }

  lemma ZipRemoval(t: string)
    ensures var r := RemoveChar(t, ' ');
            && ' ' !in r
            && (forall c :: c != ' ' ==> multiset(r)[c] == multiset(t)[c])
            && (forall i :: 0 <= i <= |t| ==> r == RemoveChar(t[..i], ' ') + RemoveChar(t[i..], ' '))
            && (ZipPattern(t) ==> r == t)
  {
    RemoveCharKeepsOthers(t, ' ');
    RemoveCharCut(t, ' ');
    if ZipPattern(t) {
      ZipHasNoSpace(t);
    }
  }

  lemma ZipHasNoSpace(t: string)
    requires ZipPattern(t)
    ensures RemoveChar(t, ' ') == t
  {
    ZipChars(t);
    RemoveCharAbsent(t, ' ');
  }

  // ---------------------------------------------------------------- display

  /** The dictionary `format_for_display` returns for a non-coordinates type. */
  datatype Display = Display(original: string, normalized: string, kind: string, displayName: string)

  /** `format_for_display`; for coordinates it reformats floats, which the
      model does not describe, and answers `None`. */
  function FormatForDisplay(location: string, locationType: string): (r: Option<Display>)
    ensures r.None? <==> locationType == "coordinates"
    ensures r.Some? ==> && r.value.original == location
                        && r.value.kind == locationType
                        && r.value.displayName == r.value.normalized
                        && NormalizeLocation(location, locationType) == Some(r.value.normalized)
  {
    match NormalizeLocation(location, locationType)
    case None => None
    case Some(n) => Some(Display(location, n, locationType, n))
  }
}
