/** The input checks of src/utils/validators.py: numeric coordinate
    validation, the ZIP and city-name formats, and `parse_location_input`,
    which classifies a typed location as coordinates, ZIP or city. */
module InputValidators {
  import opened Common
  import opened Text
  import opened Patterns
  import LocationValidator

  const NumericMessage := "Coordinates must be numeric values"
  const LatitudeMessage := "Latitude must be between -90 and 90 degrees"
  const LongitudeMessage := "Longitude must be between -180 and 180 degrees"

  /** `validate_coordinates`. Each argument is given as the value `float()`
      makes of it, `None` when `float()` raises. */
  function ValidateCoordinates(lat: Option<real>, lon: Option<real>): (r: Result<(real, real), string>)
    ensures r.Ok? <==> lat.Some? && lon.Some? && InRange(lat.value, lon.value)
    ensures r.Ok? ==> r.value == (lat.value, lon.value)
    ensures lat.None? || lon.None? ==> r == Err(NumericMessage)
    ensures lat.Some? && lon.Some? && !LatitudeInRange(lat.value) ==> r == Err(LatitudeMessage)
    ensures lat.Some? && lon.Some? && LatitudeInRange(lat.value) && !LongitudeInRange(lon.value)
            ==> r == Err(LongitudeMessage)
  {
    if lat.None? || lon.None? then Err(NumericMessage)
    else if !(-90.0 <= lat.value <= 90.0) then Err(LatitudeMessage)
    else if !(-180.0 <= lon.value <= 180.0) then Err(LongitudeMessage)
    else Ok((lat.value, lon.value))
  }

  /** `validate_zip_code`: `re.match(r'^\d{5}(?:-\d{4})?$', s)`. */
  function ValidateZipCode(s: string): (ok: bool)
    ensures ok <==> Anchored(ZipBody, s)
    ensures ok ==> |s| in {5, 6, 10, 11} && AllDigits(s[..5])
  {
    ZipPatternAnchored(s);
    ZipPattern(s)
  }

  /** `validate_city_name`: `re.match(r'^[A-Za-z\s\.\-\']+$', s)`. */
  function ValidateCityName(s: string): (ok: bool)
    ensures ok <==> Anchored(CityNameBody, s)
    ensures ok ==> |s| > 0 && forall k :: 0 <= k < |s| ==> !IsDigit(s[k]) && s[k] != ','
  {
    CityNamePatternAnchored(s);
    CityNamePattern(s)
  }

  /** The coordinates branch of `parse_location_input`: the decimal pair
      matches and `validate_coordinates` accepts its two groups. */
  predicate InRangePair(t: string) {
    DecimalPairPattern(t)
    && var v := DecimalPairValues(t);
       ValidateCoordinates(Some(v.0), Some(v.1)).Ok?
  }

  /** `parse_location_input`: the trimmed text, tagged by the first test it
      passes among in-range coordinates, ZIP and city name. */
  function ParseLocationInput(text: string): (r: Option<(string, string)>)
    ensures r.Some? ==> r.value.1 == Strip(text)
    ensures r.Some? ==> r.value.0 in {"coordinates", "zip", "city"}
    ensures r.Some? && r.value.0 == "coordinates" ==>
              DecimalPairPattern(Strip(text)) && InRange(DecimalPairValues(Strip(text)).0, DecimalPairValues(Strip(text)).1)
    ensures r.None? <==> !InRangePair(Strip(text)) && !ValidateZipCode(Strip(text)) && !ValidateCityName(Strip(text))
  {
    var t := Strip(text);
    if InRangePair(t) then Some(("coordinates", t))
    else if ValidateZipCode(t) then Some(("zip", t))
    else if ValidateCityName(t) then Some(("city", t))
    else None
  }

  /** A text the ZIP format accepts holds a digit, so it is no city name. */
  lemma ZipIsNoCityName(s: string)
    requires ValidateZipCode(s)
    ensures !ValidateCityName(s)
  {
    assert s[0] == s[..5][0];
  }

  /** A decimal pair holds a comma, so it is neither a ZIP nor a city name. */
  lemma DecimalPairIsNoZipNorCity(t: string)
    requires DecimalPairPattern(t)
    ensures !ValidateZipCode(t) && !ValidateCityName(t)
  {
    var x := Chomp(t);
    var i := IndexOf(x, ',');
    assert t[i] == x[i] == ',';
    if ValidateZipCode(t) {
      ZipCharsAt(t, i);
    }
  }

  /** Every character of a ZIP text is a digit, '-' or a final newline. */
  lemma ZipCharsAt(s: string, k: int)
    requires ZipPattern(s) && 0 <= k < |s|
    ensures IsDigit(s[k]) || s[k] == '-' || s[k] == '\n'
  {
    var x := Chomp(s);
    if k < |x| {
      assert s[k] == x[k];
      if |x| == 10 && k < 5 {
        assert x[k] == x[..5][k];
      } else if |x| == 10 && k > 5 {
        assert x[k] == x[6..][k - 6];
      }
    }
  }

  /** The three tags are decided by mutually exclusive tests apart from the
      decimal pair that is out of range: each tag is given exactly when its
      own test passes. */
  lemma ParseLocationTags(text: string)
    ensures var t := Strip(text);
            var r := ParseLocationInput(text);
            && (r == Some(("coordinates", t)) <==> InRangePair(t))
            && (r == Some(("zip", t)) <==> ValidateZipCode(t))
            && (r == Some(("city", t)) <==> ValidateCityName(t) && !DecimalPairPattern(t))
  {
    var t := Strip(text);
    if DecimalPairPattern(t) {
      DecimalPairIsNoZipNorCity(t);
    }
    if ValidateZipCode(t) {
      ZipIsNoCityName(t);
    }
  }

  /** A decimal pair whose latitude or longitude is out of range is not
      taken for anything: the comma also rules out ZIP and city name. */
  lemma OutOfRangePairIsRejected(text: string)
    requires DecimalPairPattern(Strip(text))
    requires var v := DecimalPairValues(Strip(text)); !InRange(v.0, v.1)
    ensures ParseLocationInput(text).None?
  {
    DecimalPairIsNoZipNorCity(Strip(text));
  }

  /** A pair with the backend's coordinate shape whose latitude or
      longitude is out of range (such as "91, 0") is rejected here, while
      the backend validator, whose coordinate pattern does not check ranges,
      calls it coordinates. */
  lemma OutOfRangePairDisagreement(text: string)
    requires CoordinatePattern(Strip(text)) && DecimalPairPattern(Strip(text))
    requires var v := DecimalPairValues(Strip(text)); !InRange(v.0, v.1)
    ensures ParseLocationInput(text).None?
    ensures LocationValidator.Validate(Some(text)).kind == Some(Coordinates)
  {
    var t := Strip(text);
    OutOfRangePairIsRejected(text);
    PairIsLongEnough(t);
    assert LocationValidator.MatchPattern(t) == Some(Coordinates);
    LocationValidator.ValidateMatched(text, Coordinates);
  }

  /** A decimal pair has at least a digit, a comma and a digit. */
  lemma PairIsLongEnough(t: string)
    requires DecimalPairPattern(t)
    ensures |t| >= 2
  {
    var x := Chomp(t);
    var i := IndexOf(x, ',');
    assert LooseDecimal(x[..i]);
  }
}
