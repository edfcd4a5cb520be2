/**
 * LatLong and its two subclasses, LatLongElevation and TimestampedLocation, as one datatype: the
 * constructor of a value is its Java class, so every `getClass()` test becomes a constructor test.
 * The Java constructors are the only place where coordinates are range-checked.
 */
module Coordinates {
  import opened Outcomes
  import opened RealMath

  /** java.time.Instant, kept opaque: only its equality matters to the core. */
  type Instant = int

  datatype Location =
    | LatLong(latitude: real, longitude: real)
      /** The elevation is a length in metres, of either sign. */
    | LatLongElevation(latitude: real, longitude: real, elevation: real)
    | TimestampedLocation(latitude: real, longitude: real, timestamp: Instant)

  /** The invariant every constructed location keeps. */
  predicate InRange(latitude: real, longitude: real)
  {
    -90.0 <= latitude <= 90.0 && -180.0 <= longitude <= 180.0
  }

  predicate Valid(l: Location)
  {
    InRange(l.latitude, l.longitude)
  }

  /** The check of `new LatLong(latitude, longitude)`: the longitude is tested first. */
  function CheckRange(latitude: real, longitude: real): (r: Option<GeoError>)
    ensures r == None <==> InRange(latitude, longitude)
    ensures Abs(longitude) > 180.0 ==> r == Some(InvalidCoordinate(Longitude, longitude))
    ensures !(Abs(longitude) > 180.0) && Abs(latitude) > 90.0 ==> r == Some(InvalidCoordinate(Latitude, latitude))
  {
    if Abs(longitude) > 180.0 then Some(InvalidCoordinate(Longitude, longitude))
    else if Abs(latitude) > 90.0 then Some(InvalidCoordinate(Latitude, latitude))
    else None
  }

  /** `new LatLong(latitude, longitude)`. */
  function NewLatLong(latitude: real, longitude: real): (r: Result<Location>)
    ensures r.Ok? <==> InRange(latitude, longitude)
    ensures r.Ok? ==> r.value == LatLong(latitude, longitude) && Valid(r.value)
    ensures r.Err? ==> r.error.InvalidCoordinate?
    ensures Abs(longitude) > 180.0 ==> r == Err(InvalidCoordinate(Longitude, longitude))
  {
    match CheckRange(latitude, longitude)
    case Some(e) => Err(e)
    case None => Ok(LatLong(latitude, longitude))
  }

  /** `new LatLong(other)`: a plain LatLong with the other's coordinates, whatever its class. */
  function CopyLatLong(other: Location): (r: Result<Location>)
    ensures Valid(other) ==> r == Ok(LatLong(other.latitude, other.longitude))
    ensures Valid(other) && other.LatLong? ==> r == Ok(other)
  {
    NewLatLong(other.latitude, other.longitude)
  }

  /** `new LatLongElevation(location, elevation)`. */
  function NewLatLongElevationFrom(location: Location, elevation: real): (r: Result<Location>)
    ensures r.Ok? <==> Valid(location)
    ensures r.Ok? ==> r.value == LatLongElevation(location.latitude, location.longitude, elevation)
  {
    match CopyLatLong(location)
    case Err(e) => Err(e)
    case Ok(base) => Ok(LatLongElevation(base.latitude, base.longitude, elevation))
  }

  /** `new LatLongElevation(latitude, longitude, elevation)`. */
  function NewLatLongElevation(latitude: real, longitude: real, elevation: real): (r: Result<Location>)
    ensures r.Ok? <==> InRange(latitude, longitude)
    ensures r.Ok? ==> r.value == LatLongElevation(latitude, longitude, elevation)
    ensures r.Err? ==> r == Err(NewLatLong(latitude, longitude).error)
  {
    match NewLatLong(latitude, longitude)
    case Err(e) => Err(e)
    case Ok(base) => Ok(LatLongElevation(base.latitude, base.longitude, elevation))
  }

  /** `new TimestampedLocation(location, timestamp)`. */
  function NewTimestampedLocationFrom(location: Location, timestamp: Instant): (r: Result<Location>)
    ensures r.Ok? <==> Valid(location)
    ensures r.Ok? ==> r.value == TimestampedLocation(location.latitude, location.longitude, timestamp)
  {
    match CopyLatLong(location)
    case Err(e) => Err(e)
    case Ok(base) => Ok(TimestampedLocation(base.latitude, base.longitude, timestamp))
  }

  /** `new TimestampedLocation(latitude, longitude, timestamp)`. */
  function NewTimestampedLocation(latitude: real, longitude: real, timestamp: Instant): (r: Result<Location>)
    ensures r.Ok? <==> InRange(latitude, longitude)
    ensures r.Ok? ==> r.value == TimestampedLocation(latitude, longitude, timestamp)
    ensures r.Err? ==> r == Err(NewLatLong(latitude, longitude).error)
  {
    match NewLatLong(latitude, longitude)
    case Err(e) => Err(e)
    case Ok(base) => Ok(TimestampedLocation(base.latitude, base.longitude, timestamp))
  }

  // ---------------------------------------------------------------------------------------------
  // Construction properties

  /** Construction fails exactly when a coordinate is out of range, and then names the first bad one. */
  lemma ConstructionFailsOutOfRange(latitude: real, longitude: real)
    ensures NewLatLong(latitude, longitude).Err? <==> Abs(longitude) > 180.0 || Abs(latitude) > 90.0
    ensures Abs(longitude) <= 180.0 && Abs(latitude) > 90.0 ==>
              NewLatLong(latitude, longitude) == Err(InvalidCoordinate(Latitude, latitude))
  {
  }

  /** The four out-of-range cases of LatLongTest.testConstructor. */
  lemma ConstructorRejectsExamples()
    ensures NewLatLong(91.0, 0.0) == Err(InvalidCoordinate(Latitude, 91.0))
    ensures NewLatLong(-91.0, 0.0) == Err(InvalidCoordinate(Latitude, -91.0))
    ensures NewLatLong(0.0, 181.0) == Err(InvalidCoordinate(Longitude, 181.0))
    ensures NewLatLong(0.0, -181.0) == Err(InvalidCoordinate(Longitude, -181.0))
    ensures CopyLatLong(LatLong(25.25, -80.125)) == Ok(LatLong(25.25, -80.125))
  {
  }

  /** Both TimestampedLocation constructors build the same value from the same coordinates. */
  lemma TimestampedConstructorsAgree(location: Location, timestamp: Instant)
    ensures NewTimestampedLocationFrom(location, timestamp)
         == NewTimestampedLocation(location.latitude, location.longitude, timestamp)
  {
  }

  /** Both LatLongElevation constructors agree, and the elevation is kept as given. */
  lemma ElevationConstructorsAgree(location: Location, elevation: real)
    ensures NewLatLongElevationFrom(location, elevation)
         == NewLatLongElevation(location.latitude, location.longitude, elevation)
  {
  }

  // ---------------------------------------------------------------------------------------------
  // equals

  /** What `equals(Object o)` may be handed: null, an object of some unrelated class, or a location. */
  datatype JavaObject = Null | Unrelated | Object(location: Location)

  /** LatLong.equals: same class and both coordinates compare equal. */
  predicate LatLongEquals(a: Location, b: Location)
  {
    a.LatLong? && b.LatLong? && a.latitude == b.latitude && a.longitude == b.longitude
  }

  /**
   * The `equals` that a location's class defines (LatLong.java:243-248 and its two overrides): it
   * holds exactly for a location of the same class with every field equal, so it is value equality.
   */
  predicate Equals(a: Location, o: JavaObject): (r: bool)
    ensures r <==> o == Object(a)
  {
    match o
    case Null => false
    case Unrelated => false
    case Object(b) =>
      match a
      case LatLong(_, _) => LatLongEquals(a, b)
      case LatLongElevation(_, _, elevation) =>
        // super.equals(o) with the getClass() test passed, then the elevations
        b.LatLongElevation? && a.latitude == b.latitude && a.longitude == b.longitude
        && elevation == b.elevation
      case TimestampedLocation(_, _, timestamp) =>
        b.TimestampedLocation? && a.latitude == b.latitude && a.longitude == b.longitude
        && timestamp == b.timestamp
  }

  /** LatLongElevation.equals is the base class's test on the two positions, then the elevations. */
  lemma ElevationEqualsExtendsBase(a: Location, b: Location)
    requires a.LatLongElevation?
    ensures Equals(a, Object(b)) <==>
              b.LatLongElevation? &&
              LatLongEquals(LatLong(a.latitude, a.longitude), LatLong(b.latitude, b.longitude)) &&
              a.elevation == b.elevation
  {
  }

  /** Reflexive; never equal to null, to another type, or to a location of another class. */
  lemma EqualsRejectsOtherClasses(a: Location, b: Location)
    requires a.latitude == b.latitude && a.longitude == b.longitude
    ensures Equals(a, Object(a))
    ensures !Equals(a, Null) && !Equals(a, Unrelated)
    ensures Equals(a, Object(b)) ==> (a.LatLong? <==> b.LatLong?)
    ensures Equals(a, Object(b)) ==> (a.TimestampedLocation? <==> b.TimestampedLocation?)
    ensures a.TimestampedLocation? ==> !Equals(a, Object(LatLong(a.latitude, a.longitude)))
  {
  }

  /** TimestampedLocationTest.testEquals: a difference in any one field makes two values unequal. */
  lemma TimestampedEqualsExamples(now: Instant)
    ensures Equals(TimestampedLocation(25.0, 80.0, now), Object(TimestampedLocation(25.0, 80.0, now)))
    ensures !Equals(TimestampedLocation(25.0, 80.0, now), Object(TimestampedLocation(24.0, 80.0, now)))
    ensures !Equals(TimestampedLocation(25.0, 80.0, now), Object(TimestampedLocation(25.0, 81.0, now)))
    ensures !Equals(TimestampedLocation(25.0, 80.0, now), Object(TimestampedLocation(25.0, 80.0, now - 1)))
  {
  }
}
