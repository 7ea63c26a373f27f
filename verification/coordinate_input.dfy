/** `_parse_coordinates` of src/ui/widgets/location_input.py: reading a
    typed text as a decimal pair "lat, lon" or as degrees, minutes and
    seconds with hemisphere letters, and keeping only in-range results. */
module CoordinateInput {
  import opened Common
  import opened Text
  import opened Patterns
  import LocationValidator

  /** `deg + min/60 + sec/3600` of one degrees group, before its sign. */
  function DmsMagnitude(d: Dms): (x: real)
    ensures x >= d.degrees as real
    ensures x < (d.degrees + 1) as real || d.minutes >= 60 || d.seconds >= 3600 - 60 * d.minutes
  {
    d.degrees as real + d.minutes as real / 60.0 + d.seconds as real / 3600.0
  }

  /** A degrees group in decimal degrees: negated when its hemisphere is the
      `negative` one ('S' for latitude, 'W' for longitude). */
  function DmsDegrees(d: Dms, negative: char): (x: real)
    ensures d.hemisphere == negative ==> x <= 0.0 && x == -DmsMagnitude(d)
    ensures d.hemisphere != negative ==> x >= 0.0 && x == DmsMagnitude(d)
  {
    var m := DmsMagnitude(d);
    if d.hemisphere == negative then -m else m
  }

  /** The degrees form of a text, converted and signed, when it matches. */
  function DmsValues(text: string): (r: Option<(real, real)>)
    ensures r.Some? <==> DmsPair(text).Some?
    ensures r.Some? ==> r.value == (DmsDegrees(DmsPair(text).value.0, 'S'), DmsDegrees(DmsPair(text).value.1, 'W'))
  {
    match DmsPair(text)
    case None => None
    case Some((lat, lon)) => Some((DmsDegrees(lat, 'S'), DmsDegrees(lon, 'W')))
  }

  /** `_parse_coordinates`: the decimal form first, then the degrees form;
      a match whose values are out of range gives nothing. */
  function ParseCoordinates(text: string): (r: Option<(real, real)>)
    ensures r.Some? ==> InRange(r.value.0, r.value.1)
    ensures DecimalPairPattern(text) && InRange(DecimalPairValues(text).0, DecimalPairValues(text).1)
            ==> r == Some(DecimalPairValues(text))
    ensures r.Some? ==> (DecimalPairPattern(text) && r == Some(DecimalPairValues(text))) || r == DmsValues(text)
    ensures !DecimalPairPattern(text) && DmsPair(text).None? ==> r.None?
  {
    if DecimalPairPattern(text) && InRange(DecimalPairValues(text).0, DecimalPairValues(text).1) then
      Some(DecimalPairValues(text))
    else
      match DmsValues(text)
      case Some((lat, lon)) => if InRange(lat, lon) then Some((lat, lon)) else None
      case None => None
  }

  /** A decimal number has no degree sign. */
  lemma DecimalHasNoDegreeSign(s: string, k: int)
    requires LooseDecimal(s) && 0 <= k < |s|
    ensures s[k] != '°'
  {
    DecimalChars(s, k);
  }

  /** A decimal pair has no degree sign anywhere. */
  lemma PairHasNoDegreeSign(x: string)
    requires LoosePairBody(x)
    ensures '°' !in x
  {
    var g := PairGroups(x);
    forall k | 0 <= k < |x|
      ensures x[k] != '°'
    {
      LocationValidator.PairLayout(x, k);
      var i := IndexOf(x, ',');
      if k < i {
        DecimalHasNoDegreeSign(g.0, k);
      } else if k > i && k >= |x| - |g.1| {
        DecimalHasNoDegreeSign(g.1, k - (|x| - |g.1|));
      }
    }
  }

  /** A text cannot have both forms: the degrees form needs a degree sign. */
  lemma FormsExclusive(text: string)
    ensures !(DecimalPairPattern(text) && DmsPair(text).Some?)
  {
    DecimalFormHasNoDegreeSign(text);
    DegreesFormHasDegreeSign(text);
  }

  lemma DecimalFormHasNoDegreeSign(text: string)
    ensures DecimalPairPattern(text) ==> '°' !in Chomp(text)
  {
    if DecimalPairPattern(text) {
      PairHasNoDegreeSign(Chomp(text));
    }
  }

  lemma DegreesFormHasDegreeSign(text: string)
    ensures DmsPair(text).Some? ==> '°' in Chomp(text)
  {
    if DmsPair(text).Some? {
      DmsNeedsDegreeSign(text);
      DegreeSignSurvivesChomp(text);
    }
  }

  /** Chomping drops at most a final newline, never the degree sign. */
  lemma DegreeSignSurvivesChomp(text: string)
    requires '°' in text
    ensures '°' in Chomp(text)
  {
    var k :| 0 <= k < |text| && text[k] == '°';
    var x := Chomp(text);
    assert k < |x| && x[k] == '°';
  }

  /** Exactly the decimal texts in range and the degrees texts in range are
      accepted; every other text, out-of-range matches included, gives
      `None`. */
  lemma {:induction false} ParseCoordinatesExactly(text: string)
    ensures ParseCoordinates(text).Some? <==>
              || (DecimalPairPattern(text) && InRange(DecimalPairValues(text).0, DecimalPairValues(text).1))
              || (DmsPair(text).Some? && InRange(DmsValues(text).value.0, DmsValues(text).value.1))
  {
    FormsExclusive(text);
  }

  /** On a text of the degrees form the parser answers the signed degrees:
      'S' makes the latitude negative and 'W' the longitude, each keeping
      the magnitude `deg + min/60 + sec/3600`, and an out-of-range pair
      gives nothing. */
  lemma DegreesFormSigns(text: string)
    requires DmsPair(text).Some?
    ensures var (lat, lon) := DmsPair(text).value;
            var r := ParseCoordinates(text);
            && (r.Some? <==> InRange(DmsDegrees(lat, 'S'), DmsDegrees(lon, 'W')))
            && (r.Some? ==> && r.value.0 == (if lat.hemisphere == 'S' then -DmsMagnitude(lat) else DmsMagnitude(lat))
                            && r.value.1 == (if lon.hemisphere == 'W' then -DmsMagnitude(lon) else DmsMagnitude(lon)))
  {
    FormsExclusive(text);
  }
}
