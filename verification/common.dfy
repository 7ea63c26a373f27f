/** Values shared by every module of the model: optional values, results
    that carry an error instead of raising it, and the four location kinds
    the classifiers name. */
module Common {

  /** Python's `None` versus a present value. */
  datatype Option<+T> = None | Some(value: T) {
    function GetOr(default: T): T {
      match this
      case Some(v) => v
      case None => default
    }
  }

  /** A value, or the error the source would raise or return instead. */
  datatype Result<+T, +E> = Ok(value: T) | Err(error: E)

  /** The location kinds: the keys of `LocationValidator.PATTERNS` and the
      type tags of `parse_location_input`. */
  datatype LocationType = Zip | Coordinates | City | Landmark

  /** The tag string the source uses for each kind. */
  function TypeName(t: LocationType): string {
    match t
    case Zip => "zip"
    case Coordinates => "coordinates"
    case City => "city"
    case Landmark => "landmark"
  }

  /** The coordinate ranges every check of the application applies:
      latitude in [-90, 90], longitude in [-180, 180], bounds included. */
  predicate LatitudeInRange(lat: real) { -90.0 <= lat <= 90.0 }
  predicate LongitudeInRange(lon: real) { -180.0 <= lon <= 180.0 }
  predicate InRange(lat: real, lon: real) { LatitudeInRange(lat) && LongitudeInRange(lon) }
}
