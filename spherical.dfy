/**
 * The spherical-Earth formulas of LatLong and LatLongElevation: haversine distance, the
 * elevation-aware distance override, the initial heading and the destination point (`plus`).
 * java.lang.Math's transcendental functions are parameters, constrained only by `TrigLaws`.
 */
module Spherical {
  import opened Outcomes
  import opened RealMath
  import opened Coordinates

  /** Radius of the Earth in metres (the WGS-84 equatorial radius), LatLong.java:101. */
  const RadiusOfEarth: real := 6378137.0

  /** Math.sin, Math.cos, Math.atan2(y, x), Math.sqrt and Math.asin. */
  datatype Trig = Trig(
    sin: real -> real,
    cos: real -> real,
    atan2: (real, real) -> real,
    sqrt: real -> real,
    asin: real -> real)

  /** The algebraic facts about the transcendental functions that the model relies on. */
  ghost predicate TrigLaws(t: Trig)
  {
    (forall x, y :: x + y == 0.0 ==> t.sin(x) + t.sin(y) == 0.0) &&
    (forall x, y :: x + y == 0.0 ==> t.cos(x) == t.cos(y)) &&
    t.sin(0.0) == 0.0 &&
    (forall x :: x > 0.0 ==> t.atan2(0.0, x) == 0.0) &&
    (forall y, x :: -Pi < t.atan2(y, x) <= Pi) &&
    (forall x :: -Pi / 2.0 <= t.asin(x) <= Pi / 2.0) &&
    (forall x :: x >= 0.0 ==> t.sqrt(Sq(x)) == x) &&
    (forall x :: x >= 0.0 ==> t.sqrt(x) >= 0.0)
  }

  /** A non-negative square root where one exists; only used to show that TrigLaws can be met. */
  ghost function SquareRoot(y: real): (r: real)
    ensures r >= 0.0
  {
    if exists r :: r >= 0.0 && Sq(r) == y then var r :| r >= 0.0 && Sq(r) == y; r else 0.0
  }

  /** Squaring is strictly increasing on the non-negative reals. */
  lemma SqIncreasing(a: real, b: real)
    requires 0.0 <= a < b
    ensures Sq(a) < Sq(b)
  {
    var low, middle, high := a * a, a * b, b * b;
    assert low <= middle;
    assert middle < high;
  }

  /** Only 0 squares to 0. */
  lemma SqPositive(x: real)
    requires x != 0.0
    ensures Sq(x) > 0.0
  {
    var y := Abs(x);
    SqIncreasing(0.0, y);
    assert Sq(x) == Sq(y);
  }

  /** The non-negative square root of a square is the number squared. */
  lemma SquareRootOfSq(x: real)
    requires x >= 0.0
    ensures SquareRoot(Sq(x)) == x
  {
    assert x >= 0.0 && Sq(x) == Sq(x);
    var r := SquareRoot(Sq(x));
    assert Sq(r) == Sq(x);
    if r > x {
      SqIncreasing(x, r);
    } else if r < x {
      SqIncreasing(r, x);
    }
  }

  /**
   * TrigLaws is not vacuous: a degenerate family (sine, arc tangent and arc sine
   * constantly zero, cosine constantly one) with a true square root meets every law.
   */
  lemma TrigLawsAreSatisfiable()
    ensures TrigLaws(Trig(x => 0.0, x => 1.0, (y, x) => 0.0, SquareRoot, x => 0.0))
  {
    forall x | x >= 0.0
      ensures SquareRoot(Sq(x)) == x
    {
      SquareRootOfSq(x);
    }
  }

  /** `sin(d / 2) * sin(d / 2)` for the change `d` in degrees from `from` to `to`. */
  function HalfSineSquared(t: Trig, from: real, to: real): (r: real)
    ensures r >= 0.0
  {
    Sq(t.sin(ToRadians(to - from) / 2.0))
  }

  /** The haversine term `a` of LatLong.distanceSquared. */
  function Haversine(t: Trig, a: Location, b: Location): real
  {
    HalfSineSquared(t, a.latitude, b.latitude) +
    t.cos(ToRadians(a.latitude)) * t.cos(ToRadians(b.latitude)) * HalfSineSquared(t, a.longitude, b.longitude)
  }

  /** The central angle `c` of LatLong.distanceSquared, in radians. */
  function CentralAngle(t: Trig, a: Location, b: Location): real
  {
    var h := Haversine(t, a, b);
    2.0 * t.atan2(t.sqrt(h), t.sqrt(1.0 - h))
  }

  /** LatLong.distanceSquared: `pow(R * c, 2)`, in square metres. */
  function SurfaceDistanceSquared(t: Trig, a: Location, b: Location): (r: real)
    ensures r >= 0.0
  {
    Sq(RadiusOfEarth * CentralAngle(t, a, b))
  }

  /**
   * `a.distanceSquared(b)` with Java's dynamic dispatch on the receiver `a`: a LatLongElevation
   * receiver rejects a non-elevation argument and adds the squared elevation difference; any other
   * receiver uses the surface formula, whatever the argument's class.
   */
  function DistanceSquared(t: Trig, a: Location, b: Location): (r: Result<real>)
    ensures r.Err? <==> a.LatLongElevation? && !b.LatLongElevation?
    ensures r.Err? ==> r.error == DimensionMismatch
    ensures r.Ok? ==> r.value >= SurfaceDistanceSquared(t, a, b)
    ensures r.Ok? && !a.LatLongElevation? ==> r.value == SurfaceDistanceSquared(t, a, b)
  {
    match a
    case LatLongElevation(_, _, elevation) =>
      if !b.LatLongElevation? then Err(DimensionMismatch)
      else Ok(SurfaceDistanceSquared(t, a, b) + Sq(b.elevation - elevation))
    case _ => Ok(SurfaceDistanceSquared(t, a, b))
  }

  /** `a.distance(b)`: the square root of the dispatched squared distance (LatLong.java:125-127, LatLongElevation.java:73-75). */
  function Distance(t: Trig, a: Location, b: Location): (r: Result<real>)
    ensures r.Err? <==> a.LatLongElevation? && !b.LatLongElevation?
    ensures r.Err? ==> r.error == DimensionMismatch
  {
    match DistanceSquared(t, a, b)
    case Err(e) => Err(e)
    case Ok(d2) => Ok(t.sqrt(d2))
  }

  // ---------------------------------------------------------------------------------------------
  // Distance properties

  /** sin² of half an angle does not depend on the direction in which the angle is measured. */
  lemma HalfSineSquaredSymmetric(t: Trig, from: real, to: real)
    requires TrigLaws(t)
    ensures HalfSineSquared(t, from, to) == HalfSineSquared(t, to, from)
  {
    var half := ToRadians(to - from) / 2.0;
    assert half + ToRadians(from - to) / 2.0 == 0.0;
  }

  /** Angles of opposite sign from a common origin have the same sin² of their half. */
  lemma HalfSineSquaredMirrored(t: Trig, origin: real, x: real, y: real)
    requires TrigLaws(t) && x - origin == origin - y
    ensures HalfSineSquared(t, origin, x) == HalfSineSquared(t, origin, y)
  {
    var half := ToRadians(x - origin) / 2.0;
    assert half + ToRadians(y - origin) / 2.0 == 0.0;
  }

  /** Points at one latitude, mirrored across the meridian of `here`, have the same haversine term. */
  lemma HaversineOfMirroredPoints(t: Trig, here: Location, a: Location, b: Location)
    requires TrigLaws(t)
    requires a.latitude == b.latitude && a.longitude - here.longitude == here.longitude - b.longitude
    ensures Haversine(t, here, a) == Haversine(t, here, b)
  {
    HalfSineSquaredMirrored(t, here.longitude, a.longitude, b.longitude);
  }

  /** For a receiver without elevation the distance depends only on the haversine term. */
  lemma SurfaceDistanceFollowsHaversine(t: Trig, here: Location, a: Location, b: Location)
    requires !here.LatLongElevation? && Haversine(t, here, a) == Haversine(t, here, b)
    ensures Distance(t, here, a) == Distance(t, here, b)
  {
  }

  lemma {:induction false} HaversineSymmetric(t: Trig, a: Location, b: Location)
    requires TrigLaws(t)
    ensures Haversine(t, a, b) == Haversine(t, b, a)
  {
    HalfSineSquaredSymmetric(t, a.latitude, b.latitude);
    HalfSineSquaredSymmetric(t, a.longitude, b.longitude);
  }

  /** The distance between two locations of the same dimensionality does not depend on the order. */
  lemma {:induction false} DistanceSymmetric(t: Trig, a: Location, b: Location)
    requires TrigLaws(t) && a.LatLongElevation? == b.LatLongElevation?
    ensures DistanceSquared(t, a, b) == DistanceSquared(t, b, a)
    ensures Distance(t, a, b) == Distance(t, b, a)
  {
    assert SurfaceDistanceSquared(t, a, b) == SurfaceDistanceSquared(t, b, a) by {
      HaversineSymmetric(t, a, b);
    }
    DistanceFollowsSurface(t, a, b);
  }

  /** Points of the same class with the same surface distance either way are equally far apart either way. */
  lemma DistanceFollowsSurface(t: Trig, a: Location, b: Location)
    requires a.LatLongElevation? == b.LatLongElevation?
    requires SurfaceDistanceSquared(t, a, b) == SurfaceDistanceSquared(t, b, a)
    ensures DistanceSquared(t, a, b) == DistanceSquared(t, b, a)
    ensures Distance(t, a, b) == Distance(t, b, a)
  {
    var surface := SurfaceDistanceSquared(t, a, b);
    if a.LatLongElevation? {
      ElevationTermSymmetric(a.elevation, b.elevation);
      assert DistanceSquared(t, a, b) == Ok(surface + Sq(b.elevation - a.elevation));
      assert DistanceSquared(t, b, a) == Ok(surface + Sq(a.elevation - b.elevation));
    } else {
      assert DistanceSquared(t, a, b) == Ok(surface);
      assert DistanceSquared(t, b, a) == Ok(surface);
    }
  }

  lemma ElevationTermSymmetric(x: real, y: real)
    ensures Sq(y - x) == Sq(x - y)
  {
    assert (y - x) * (y - x) == (x - y) * (x - y);
  }

  /** Math.sqrt of a square is the absolute value. */
  lemma SquareRootOfSquare(t: Trig, x: real)
    requires TrigLaws(t)
    ensures t.sqrt(Sq(x)) == Abs(x)
  {
    if x < 0.0 {
      assert Sq(Abs(x)) == Sq(x);
    }
  }

  /** The surface distance is R·|c|, so never negative; with an elevation term it is still never negative. */
  lemma {:induction false} DistanceNonNegative(t: Trig, a: Location, b: Location)
    requires TrigLaws(t)
    ensures Distance(t, a, b).Ok? ==> Distance(t, a, b).value >= 0.0
    ensures !a.LatLongElevation? ==> Distance(t, a, b) == Ok(RadiusOfEarth * Abs(CentralAngle(t, a, b)))
  {
    var c := CentralAngle(t, a, b);
    SquareRootOfSquare(t, RadiusOfEarth * c);
    assert Abs(RadiusOfEarth * c) == RadiusOfEarth * Abs(c);
  }

  /** A location is at distance zero from itself. */
  lemma {:induction false} DistanceToItself(t: Trig, a: Location)
    requires TrigLaws(t)
    ensures Distance(t, a, a) == Ok(0.0)
    ensures DistanceSquared(t, a, a) == Ok(0.0)
  {
    assert ToRadians(a.latitude - a.latitude) / 2.0 == 0.0;
    assert ToRadians(a.longitude - a.longitude) / 2.0 == 0.0;
    assert Haversine(t, a, a) == 0.0;
    assert t.sqrt(Sq(0.0)) == 0.0;
    assert t.sqrt(Sq(1.0)) == 1.0;
    assert t.sqrt(0.0) == 0.0 && t.sqrt(1.0 - 0.0) == 1.0;
    assert t.atan2(0.0, 1.0) == 0.0;
    assert CentralAngle(t, a, a) == 0.0;
    if a.LatLongElevation? {
      assert Sq(a.elevation - a.elevation) == 0.0;
    }
  }

  /** The 3-D squared distance adds the squared elevation change to the surface value. */
  lemma ElevationDistanceSquared(t: Trig, a: Location, b: Location)
    requires a.LatLongElevation? && b.LatLongElevation?
    ensures DistanceSquared(t, a, b) == Ok(SurfaceDistanceSquared(t, a, b) + Sq(b.elevation - a.elevation))
  {
  }

  /** LatLongElevationTest.testDistance: same place, elevations 0 m and 100 m, 100 m apart. */
  lemma {:induction false} VerticalDistanceExample(t: Trig)
    requires TrigLaws(t)
    ensures Distance(t, LatLongElevation(50.0, 20.0, 0.0), LatLongElevation(50.0, 20.0, 100.0)) == Ok(100.0)
  {
    var a := LatLongElevation(50.0, 20.0, 0.0);
    var b := LatLongElevation(50.0, 20.0, 100.0);
    DistanceToItself(t, LatLong(50.0, 20.0));
    assert Haversine(t, a, b) == Haversine(t, LatLong(50.0, 20.0), LatLong(50.0, 20.0));
    assert SurfaceDistanceSquared(t, a, b) == 0.0;
    assert 0.0 + Sq(100.0 - 0.0) == Sq(100.0);
    assert t.sqrt(Sq(100.0)) == 100.0;
  }

  /**
   * Only a LatLongElevation receiver checks the argument's class: a plain receiver silently uses
   * the surface formula against an elevation argument.
   */
  lemma MixedDimensions(t: Trig, plain: Location, elevated: Location)
    requires !plain.LatLongElevation? && elevated.LatLongElevation?
    ensures Distance(t, elevated, plain) == Err(DimensionMismatch)
    ensures Distance(t, plain, elevated) == Ok(t.sqrt(SurfaceDistanceSquared(t, plain, elevated)))
  {
  }

  // ---------------------------------------------------------------------------------------------
  // heading and plus

  /** The initial bearing from a to b as `toDegrees(atan2(…))`: signed, in (-180, 180] under the laws. */
  function Bearing(t: Trig, a: Location, b: Location): real
  {
    var deltaLong := ToRadians(b.longitude - a.longitude);
    var lat1 := ToRadians(a.latitude);
    var lat2 := ToRadians(b.latitude);
    var theta := t.atan2(t.sin(deltaLong) * t.cos(lat2),
                         t.cos(lat1) * t.sin(lat2) - t.sin(lat1) * t.cos(lat2) * t.cos(deltaLong));
    ToDegrees(theta)
  }

  /**
   * LatLong.heading: the same direction as the bearing, moved up by a full turn when negative, so
   * a bearing in (-180, 180] becomes a heading in [0, 360).
   */
  function Heading(t: Trig, a: Location, b: Location): (r: real)
    ensures r == Bearing(t, a, b) || r == Bearing(t, a, b) + 360.0
    ensures -180.0 < Bearing(t, a, b) <= 180.0 ==> 0.0 <= r < 360.0
  {
    var headingInDegrees := Bearing(t, a, b);
    if headingInDegrees < 0.0 then 360.0 + headingInDegrees else headingInDegrees
  }

  /** Under the laws on atan2 the bearing lies in (-180, 180]. */
  lemma BearingInRange(t: Trig, a: Location, b: Location)
    requires TrigLaws(t)
    ensures -180.0 < Bearing(t, a, b) <= 180.0
  {
  }

  /** A heading always lies in [0, 360). */
  lemma HeadingInRange(t: Trig, a: Location, b: Location)
    requires TrigLaws(t)
    ensures 0.0 <= Heading(t, a, b) < 360.0
  {
    BearingInRange(t, a, b);
  }

  /** The new latitude of `plus`, in radians: the asin term. */
  function ProjectedLatitudeRadians(t: Trig, a: Location, headingDegrees: real, distance: real): real
  {
    var bearingR := ToRadians(headingDegrees);
    var latR := ToRadians(a.latitude);
    var distanceToRadius := distance / RadiusOfEarth;
    t.asin(t.sin(latR) * t.cos(distanceToRadius) + t.cos(latR) * t.sin(distanceToRadius) * t.cos(bearingR))
  }

  /** The new longitude of `plus`, in radians: the old longitude plus the atan2 term. */
  function ProjectedLongitudeRadians(t: Trig, a: Location, headingDegrees: real, distance: real): real
  {
    var bearingR := ToRadians(headingDegrees);
    var latR := ToRadians(a.latitude);
    var lonR := ToRadians(a.longitude);
    var distanceToRadius := distance / RadiusOfEarth;
    var newLatR := ProjectedLatitudeRadians(t, a, headingDegrees, distance);
    lonR + t.atan2(t.sin(bearingR) * t.sin(distanceToRadius) * t.cos(latR),
                   t.cos(distanceToRadius) - t.sin(latR) * t.sin(newLatR))
  }

  /**
   * LatLong.plus: the destination from `a` after `distance` metres along `headingDegrees`,
   * re-validated by `new LatLong`, so the result is a plain LatLong whatever the receiver's class.
   */
  function Plus(t: Trig, a: Location, headingDegrees: real, distance: real): (r: Result<Location>)
    ensures r.Ok? ==> r.value.LatLong? && Valid(r.value)
  {
    NewLatLong(ToDegrees(ProjectedLatitudeRadians(t, a, headingDegrees, distance)),
               ToDegrees(ProjectedLongitudeRadians(t, a, headingDegrees, distance)))
  }

  /** `plus` never fails on the latitude (asin keeps it in range); it fails only when the longitude leaves ±180. */
  lemma PlusFailsOnlyOnLongitude(t: Trig, a: Location, headingDegrees: real, distance: real)
    requires TrigLaws(t)
    ensures -90.0 <= ToDegrees(ProjectedLatitudeRadians(t, a, headingDegrees, distance)) <= 90.0
    ensures Plus(t, a, headingDegrees, distance).Err? <==>
              Abs(ToDegrees(ProjectedLongitudeRadians(t, a, headingDegrees, distance))) > 180.0
    ensures Plus(t, a, headingDegrees, distance).Err? ==>
              Plus(t, a, headingDegrees, distance).error.axis == Longitude
  {
  }
}
