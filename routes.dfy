/**
 * The route operations of LatLong: `remainingRoute`, which trims a route to what is left of it
 * from a location, and the static `distance(List)`, the length of a route. Both are loops in the
 * source and are methods here, each proved equal to a specification function.
 */
module RouteTracker {
  import opened Outcomes
  import opened RealMath
  import opened Coordinates
  import opened Spherical

  /**
   * LatLong.dotProduct: the dot product of the vectors a→b and a→c in raw degrees, longitude as
   * x and latitude as y (no projection, no wrap-around at ±180).
   */
  function DotProduct(a: Location, b: Location, c: Location): (r: real)
    ensures SamePosition(a, b) || SamePosition(a, c) ==> r == 0.0
    ensures SamePosition(b, c) ==> r >= 0.0
  {
    var abx := b.longitude - a.longitude;
    var aby := b.latitude - a.latitude;
    var acx := c.longitude - a.longitude;
    var acy := c.latitude - a.latitude;
    abx * acx + aby * acy
  }

  /** Two locations at the same latitude and longitude, whatever their class. */
  predicate SamePosition(a: Location, b: Location)
  {
    a.latitude == b.latitude && a.longitude == b.longitude
  }

  /**
   * The location `s` lengths of the leg a→b along it and `u` lengths across it (to the left):
   * `a + s·(b − a) + u·(b − a)⊥`, in the same raw (longitude, latitude) plane as DotProduct.
   */
  predicate OffsetAlongLeg(a: Location, b: Location, c: Location, s: real, u: real)
  {
    var dx := b.longitude - a.longitude;
    var dy := b.latitude - a.latitude;
    c.longitude == a.longitude + s * dx - u * dy && c.latitude == a.latitude + s * dy + u * dx
  }

  /** The dot product measures how far along the leg a location lies: s times the squared leg length. */
  lemma DotProductOfOffset(a: Location, b: Location, c: Location, s: real, u: real)
    requires OffsetAlongLeg(a, b, c, s, u)
    ensures DotProduct(a, b, c) == s * (Sq(b.longitude - a.longitude) + Sq(b.latitude - a.latitude))
  {
    var dx, dy := b.longitude - a.longitude, b.latitude - a.latitude;
    var acx, acy := c.longitude - a.longitude, c.latitude - a.latitude;
    var cross := u * (dx * dy);
    assert dx * acx == s * (dx * dx) - cross;
    assert dy * acy == s * (dy * dy) + cross;
  }

  /** A leg between two different positions has a positive squared length. */
  lemma LegLengthPositive(a: Location, b: Location)
    requires !SamePosition(a, b)
    ensures Sq(b.longitude - a.longitude) + Sq(b.latitude - a.latitude) > 0.0
  {
    var dx, dy := b.longitude - a.longitude, b.latitude - a.latitude;
    if dx != 0.0 {
      SqPositive(dx);
    } else {
      SqPositive(dy);
    }
  }

  /** Every location has coordinates along and across a leg of non-zero length. */
  lemma OffsetExists(a: Location, b: Location, c: Location) returns (s: real, u: real)
    requires !SamePosition(a, b)
    ensures OffsetAlongLeg(a, b, c, s, u)
  {
    var dx, dy := b.longitude - a.longitude, b.latitude - a.latitude;
    var acx, acy := c.longitude - a.longitude, c.latitude - a.latitude;
    LegLengthPositive(a, b);
    var length := dx * dx + dy * dy;
    s := (dx * acx + dy * acy) / length;
    u := (dx * acy - dy * acx) / length;
    assert s * dx - u * dy == acx;
    assert s * dy + u * dx == acy;
  }

  /**
   * `a.distance(b)` as the route code sees it: a length in metres, or the exception the receiver
   * throws. The route operations are stated for any metric; `SphericalMetric` is the library's.
   */
  type Metric = (Location, Location) -> Result<real>

  /** `a.distance(b)` of LatLong and LatLongElevation over the given Math functions. */
  function SphericalMetric(t: Trig): Metric
  {
    (a: Location, b: Location) => Distance(t, a, b)
  }

  /** `here.distance(v)` succeeds. */
  predicate Reaches(m: Metric, here: Location, v: Location)
  {
    m(here, v).Ok?
  }

  /** `here.distance(v)` as a number, where it is defined. */
  function DistanceTo(m: Metric, here: Location, v: Location): real
    requires Reaches(m, here, v)
  {
    m(here, v).value
  }

  predicate ReachesAll(m: Metric, here: Location, route: seq<Location>, n: nat)
    requires n <= |route|
  {
    forall j :: 0 <= j < n ==> Reaches(m, here, route[j])
  }

  /** The first of the first n vertices that `here` cannot measure against: Java throws there. */
  function FirstUnreached(m: Metric, here: Location, route: seq<Location>, n: nat): (k: nat)
    requires n <= |route| && !ReachesAll(m, here, route, n)
    ensures k < n && !Reaches(m, here, route[k]) && ReachesAll(m, here, route, k)
  {
    if !ReachesAll(m, here, route, n - 1) then FirstUnreached(m, here, route, n - 1) else n - 1
  }

  /**
   * The index the scan of `remainingRoute` settles on among the first n vertices: the first
   * vertex of least distance from `here` (a later vertex replaces it only when strictly closer).
   */
  function ClosestIndex(m: Metric, here: Location, route: seq<Location>, n: nat): (ci: nat)
    requires 1 <= n <= |route| && ReachesAll(m, here, route, n)
    ensures ci < n
  {
    if n == 1 then 0
    else
      var previous := ClosestIndex(m, here, route, n - 1);
      if DistanceTo(m, here, route[n - 1]) < DistanceTo(m, here, route[previous]) then n - 1 else previous
  }

  /** The index the scan settles on is a nearest vertex, and every vertex before it is strictly farther. */
  lemma {:induction false} ClosestIndexIsNearest(m: Metric, here: Location, route: seq<Location>, n: nat)
    requires 1 <= n <= |route| && ReachesAll(m, here, route, n)
    ensures var ci := ClosestIndex(m, here, route, n);
            forall j :: 0 <= j < n ==> DistanceTo(m, here, route[ci]) <= DistanceTo(m, here, route[j])
    ensures var ci := ClosestIndex(m, here, route, n);
            forall j :: 0 <= j < ci ==> DistanceTo(m, here, route[ci]) < DistanceTo(m, here, route[j])
  {
    if n > 1 {
      ClosestIndexIsNearest(m, here, route, n - 1);
    }
  }

  /** The vertex the remaining route resumes at, after the nearest one `ci` that is not the last. */
  function ResumeIndex(here: Location, route: seq<Location>, ci: nat): (best: nat)
    requires ci + 1 < |route|
    ensures best == ci || best == ci + 1
    ensures best == ci <==> DotProduct(route[ci], route[ci + 1], here) < 0.0
  {
    if DotProduct(route[ci], route[ci + 1], here) < 0.0 then ci else ci + 1
  }

  /**
   * The route resumes after the nearest vertex exactly when `here` lies ahead of it along the next
   * leg: its coordinate `s` along the leg is not negative, however far off the leg it lies.
   */
  lemma ResumeIsAhead(here: Location, route: seq<Location>, ci: nat, s: real, u: real)
    requires ci + 1 < |route| && !SamePosition(route[ci], route[ci + 1])
    requires OffsetAlongLeg(route[ci], route[ci + 1], here, s, u)
    ensures ResumeIndex(here, route, ci) == ci + 1 <==> s >= 0.0
  {
    var a, b := route[ci], route[ci + 1];
    DotProductOfOffset(a, b, here, s, u);
    LegLengthPositive(a, b);
    var length := Sq(b.longitude - a.longitude) + Sq(b.latitude - a.latitude);
    assert s >= 0.0 ==> s * length >= 0.0;
    assert s < 0.0 ==> s * length < 0.0;
  }

  /**
   * What `here.remainingRoute(route)` returns: an empty route is rejected; the first vertex `here`
   * cannot measure against raises its error; otherwise `here` followed by the route from the
   * nearest vertex, or from the one after it when `here` is already past the nearest one.
   */
  function RemainingRouteOf(m: Metric, here: Location, route: seq<Location>): (r: Result<seq<Location>>)
    ensures r.Err? <==> route == [] || !ReachesAll(m, here, route, |route|)
    ensures route == [] ==> r == Err(EmptyRoute)
    ensures r.Err? && route != [] ==> exists j :: 0 <= j < |route| && m(here, route[j]) == Err(r.error)
    ensures r.Ok? ==> 2 <= |r.value| <= |route| + 1
    ensures r.Ok? ==> r.value[0] == here && r.value[|r.value| - 1] == route[|route| - 1]
    ensures r.Ok? ==> r.value[1..] == route[|route| + 1 - |r.value|..]
  {
    if route == [] then Err(EmptyRoute)
    else if !ReachesAll(m, here, route, |route|) then
      Err(m(here, route[FirstUnreached(m, here, route, |route|)]).error)
    else
      var n := |route|;
      var ci := ClosestIndex(m, here, route, n);
      if ci == n - 1 then Ok([here, route[n - 1]])
      else Ok([here] + route[ResumeIndex(here, route, ci)..])
  }

  /**
   * The scan of LatLong.remainingRoute: the first vertex of least distance, or the error of the
   * first vertex `here` cannot measure against.
   */
  method NearestVertex(m: Metric, here: Location, route: seq<Location>) returns (r: Result<nat>)
    requires route != []
    ensures r.Ok? <==> ReachesAll(m, here, route, |route|)
    ensures r.Ok? ==> r.value == ClosestIndex(m, here, route, |route|)
    ensures r.Err? ==> r.error == m(here, route[FirstUnreached(m, here, route, |route|)]).error
  {
    var n := |route|;
    var closestDistance := 0.0;
    var closestIndex := -1;
    for i := 0 to n
      invariant ReachesAll(m, here, route, i)
      invariant i == 0 <==> closestIndex < 0
      invariant i > 0 ==> closestIndex == ClosestIndex(m, here, route, i)
      invariant i > 0 ==> closestDistance == DistanceTo(m, here, route[closestIndex])
    {
      var distance := m(here, route[i]);
      if distance.Err? {
        assert FirstUnreached(m, here, route, n) == i;
        return Err(distance.error);
      }
      if closestIndex < 0 || distance.value < closestDistance {
        closestDistance := distance.value;
        closestIndex := i;
      }
    }
    r := Ok(closestIndex);
  }

  /** LatLong.remainingRoute: the scan for the nearest vertex, then the dot-product test. */
  method RemainingRoute(m: Metric, here: Location, route: seq<Location>) returns (r: Result<seq<Location>>)
    ensures r == RemainingRouteOf(m, here, route)
  {
    if |route| == 0 {
      return Err(EmptyRoute);
    }
    var n := |route|;
    var nearest := NearestVertex(m, here, route);
    if nearest.Err? {
      return Err(nearest.error);
    }
    var closestIndex := nearest.value;
    if closestIndex == n - 1 {
      return Ok([here, route[n - 1]]);
    }
    var dotProduct := DotProduct(route[closestIndex], route[closestIndex + 1], here);
    var bestIndex := if dotProduct < 0.0 then closestIndex else closestIndex + 1;
    r := Ok([here] + route[bestIndex..]);
  }

  // ---------------------------------------------------------------------------------------------
  // Properties of remainingRoute

  /**
   * With the library's metric, only a LatLongElevation locator can fail, and exactly when the
   * route holds a vertex without elevation; the error is then the dimension mismatch.
   */
  lemma SphericalRemainingRouteFails(t: Trig, here: Location, route: seq<Location>)
    requires route != []
    ensures RemainingRouteOf(SphericalMetric(t), here, route).Err? <==>
              here.LatLongElevation? && exists j :: 0 <= j < |route| && !route[j].LatLongElevation?
    ensures RemainingRouteOf(SphericalMetric(t), here, route).Err? ==>
              RemainingRouteOf(SphericalMetric(t), here, route).error == DimensionMismatch
  {
    var m := SphericalMetric(t);
    if !ReachesAll(m, here, route, |route|) {
      var k := FirstUnreached(m, here, route, |route|);
      assert !route[k].LatLongElevation?;
    }
  }

  /** Vertices mirrored across the meridian of `here`, at the same latitude, are equally far from it. */
  lemma {:induction false} MirroredVerticesAreEquidistant(t: Trig, here: Location, a: Location, b: Location)
    requires TrigLaws(t) && !here.LatLongElevation?
    requires a.latitude == b.latitude && a.longitude - here.longitude == here.longitude - b.longitude
    ensures Distance(t, here, a) == Distance(t, here, b)
  {
    HaversineOfMirroredPoints(t, here, a, b);
    SurfaceDistanceFollowsHaversine(t, here, a, b);
  }

  /** A one-vertex route always comes back as `[here, vertex]`. */
  lemma SingleVertexRoute(m: Metric, here: Location, v: Location)
    requires Reaches(m, here, v)
    ensures RemainingRouteOf(m, here, [v]) == Ok([here, v])
  {
  }

  /** When the last vertex is strictly the nearest, only it is left, whatever the dot product. */
  lemma NearestIsLast(m: Metric, here: Location, route: seq<Location>)
    requires route != [] && ReachesAll(m, here, route, |route|)
    requires forall j :: 0 <= j < |route| - 1 ==>
               DistanceTo(m, here, route[|route| - 1]) < DistanceTo(m, here, route[j])
    ensures RemainingRouteOf(m, here, route) == Ok([here, route[|route| - 1]])
  {
  }

  /**
   * LatLongTest.testBeforeRoute: from (5, -80) the route west along latitude 5 is kept whole,
   * given that its first vertex is the strictly nearest one (a fact about Math's trigonometry).
   */
  lemma BeforeRouteExample(t: Trig)
    requires var here := LatLong(5.0, -80.0);
      DistanceTo(SphericalMetric(t), here, LatLong(5.0, -81.0)) < DistanceTo(SphericalMetric(t), here, LatLong(5.0, -82.0)) &&
      DistanceTo(SphericalMetric(t), here, LatLong(5.0, -81.0)) < DistanceTo(SphericalMetric(t), here, LatLong(5.0, -83.0))
    ensures RemainingRouteOf(SphericalMetric(t), LatLong(5.0, -80.0), [LatLong(5.0, -81.0), LatLong(5.0, -82.0), LatLong(5.0, -83.0)])
         == Ok([LatLong(5.0, -80.0), LatLong(5.0, -81.0), LatLong(5.0, -82.0), LatLong(5.0, -83.0)])
  {
    var m := SphericalMetric(t);
    var here := LatLong(5.0, -80.0);
    var route := [LatLong(5.0, -81.0), LatLong(5.0, -82.0), LatLong(5.0, -83.0)];
    assert route[0] == LatLong(5.0, -81.0) && route[1] == LatLong(5.0, -82.0) && route[2] == LatLong(5.0, -83.0);
    assert ReachesAll(m, here, route, 3);
    var ci := ClosestIndex(m, here, route, 3);
    ClosestIndexIsNearest(m, here, route, 3);
    assert DistanceTo(m, here, route[ci]) <= DistanceTo(m, here, route[0]);
    assert ci == 0;
    assert DotProduct(route[0], route[1], here) == -1.0;
    assert [here] + route[0..] == [here, route[0], route[1], route[2]];
  }

  /**
   * LatLongTest.testInsideRoute and testInsideAboveRoute: the first two vertices are mirror
   * images about `here`'s meridian, so they tie, the first wins the tie, and the positive dot
   * product moves the resumption point on to the second (given that the third vertex is farther).
   */
  lemma {:induction false} InsideRouteExample(t: Trig, latitude: real)
    requires TrigLaws(t) && (latitude == 5.0 || latitude == 6.0)
    requires var here := LatLong(latitude, -81.0);
      DistanceTo(SphericalMetric(t), here, LatLong(5.0, -80.0)) < DistanceTo(SphericalMetric(t), here, LatLong(5.0, -83.0))
    ensures RemainingRouteOf(SphericalMetric(t), LatLong(latitude, -81.0), [LatLong(5.0, -80.0), LatLong(5.0, -82.0), LatLong(5.0, -83.0)])
         == Ok([LatLong(latitude, -81.0), LatLong(5.0, -82.0), LatLong(5.0, -83.0)])
  {
    var m := SphericalMetric(t);
    var here := LatLong(latitude, -81.0);
    var route := [LatLong(5.0, -80.0), LatLong(5.0, -82.0), LatLong(5.0, -83.0)];
    assert route[0] == LatLong(5.0, -80.0) && route[2] == LatLong(5.0, -83.0);
    assert ReachesAll(m, here, route, 3);
    MirroredVerticesAreEquidistant(t, here, route[0], route[1]);
    assert DistanceTo(m, here, route[0]) == DistanceTo(m, here, route[1]);
    var ci := ClosestIndex(m, here, route, 3);
    ClosestIndexIsNearest(m, here, route, 3);
    assert DistanceTo(m, here, route[ci]) <= DistanceTo(m, here, route[0]);
    assert ci == 0;
    assert DotProduct(route[0], route[1], here) == 2.0;
    assert [here] + route[1..] == [here, route[1], route[2]];
  }

  // ---------------------------------------------------------------------------------------------
  // Route length

  /** Every leg `route[i].distance(route[i - 1])` succeeds. */
  predicate Measurable(m: Metric, route: seq<Location>)
  {
    forall i :: 1 <= i < |route| ==> Reaches(m, route[i], route[i - 1])
  }

  /** Some leg `route[i].distance(route[i - 1])` raises error e. */
  predicate RaisedByLeg(m: Metric, route: seq<Location>, e: GeoError)
  {
    exists i :: 1 <= i < |route| && m(route[i], route[i - 1]) == Err(e)
  }

  /**
   * The static `LatLong.distance(List)`: the sum over i >= 1 of `route[i].distance(route[i - 1])`,
   * each leg measured with the later vertex as the receiver; the first leg that fails raises its error.
   */
  function RouteLength(m: Metric, route: seq<Location>): (r: Result<real>)
    ensures |route| < 2 ==> r == Ok(0.0)
  {
    if |route| < 2 then Ok(0.0)
    else
      var n := |route|;
      match RouteLength(m, route[..n - 1])
      case Err(e) => Err(e)
      case Ok(sum) =>
        match m(route[n - 1], route[n - 2])
        case Err(e) => Err(e)
        case Ok(leg) => Ok(sum + leg)
  }

  /** LatLong.distance(List): the accumulating loop. */
  method RouteDistance(m: Metric, route: seq<Location>) returns (r: Result<real>)
    ensures r == RouteLength(m, route)
  {
    var sum := 0.0;
    if |route| < 2 {
      return Ok(sum);
    }
    for i := 1 to |route|
      invariant RouteLength(m, route[..i]) == Ok(sum)
    {
      assert route[..i + 1][..i] == route[..i];
      var leg := m(route[i], route[i - 1]);
      if leg.Err? {
        RouteLengthKeepsFirstError(m, route, i + 1);
        return Err(leg.error);
      }
      sum := sum + leg.value;
    }
    assert route[..|route|] == route;
    r := Ok(sum);
  }

  /** The length is defined exactly when every leg is, and a failure is the error of one of the legs. */
  lemma {:induction false} RouteLengthMeasures(m: Metric, route: seq<Location>)
    ensures RouteLength(m, route).Ok? <==> Measurable(m, route)
    ensures RouteLength(m, route).Err? ==> RaisedByLeg(m, route, RouteLength(m, route).error)
    decreases |route|
  {
    if |route| >= 2 {
      var n := |route|;
      var front := route[..n - 1];
      RouteLengthMeasures(m, front);
      if RouteLength(m, front).Err? {
        var e := RouteLength(m, front).error;
        var i :| 1 <= i < |front| && m(front[i], front[i - 1]) == Err(e);
        assert front[i] == route[i] && front[i - 1] == route[i - 1];
        assert !Reaches(m, route[i], route[i - 1]);
      } else if m(route[n - 1], route[n - 2]).Err? {
        assert !Reaches(m, route[n - 1], route[n - 2]);
      } else {
        forall i | 1 <= i < n
          ensures Reaches(m, route[i], route[i - 1])
        {
          if i < n - 1 {
            assert front[i] == route[i] && front[i - 1] == route[i - 1];
          }
        }
      }
    }
  }

  /** A route whose prefix fails to measure fails with the prefix's error. */
  lemma {:induction false} RouteLengthKeepsFirstError(m: Metric, route: seq<Location>, k: nat)
    requires 2 <= k <= |route| && RouteLength(m, route[..k]).Err?
    ensures RouteLength(m, route) == RouteLength(m, route[..k])
    decreases |route|
  {
    if k < |route| {
      var n := |route|;
      var front := route[..n - 1];
      assert front[..k] == route[..k];
      RouteLengthKeepsFirstError(m, front, k);
      assert RouteLength(m, front).Err?;
      assert RouteLength(m, route) == RouteLength(m, front);
    } else {
      assert route[..k] == route;
    }
  }

  /** A route of fewer than two points has length 0. */
  lemma ShortRouteHasNoLength(m: Metric, route: seq<Location>)
    requires |route| < 2
    ensures RouteLength(m, route) == Ok(0.0)
  {
  }

  /** Every leg of the library's metric is non-negative, so the length is too. */
  lemma {:induction false} RouteLengthNonNegative(t: Trig, route: seq<Location>)
    requires TrigLaws(t)
    ensures RouteLength(SphericalMetric(t), route).Ok? ==> RouteLength(SphericalMetric(t), route).value >= 0.0
  {
    if |route| >= 2 {
      var n := |route|;
      RouteLengthNonNegative(t, route[..n - 1]);
      DistanceNonNegative(t, route[n - 1], route[n - 2]);
    }
  }

  /** With the library's metric a leg fails exactly when an elevation point follows a point without one. */
  lemma SphericalRouteLengthFails(t: Trig, route: seq<Location>)
    ensures RouteLength(SphericalMetric(t), route).Err? <==>
              exists i :: 1 <= i < |route| && route[i].LatLongElevation? && !route[i - 1].LatLongElevation?
    ensures RouteLength(SphericalMetric(t), route).Err? ==>
              RouteLength(SphericalMetric(t), route).error == DimensionMismatch
  {
    var m := SphericalMetric(t);
    RouteLengthMeasures(m, route);
    if RouteLength(m, route).Err? {
      assert RaisedByLeg(m, route, RouteLength(m, route).error);
      var i :| 1 <= i < |route| && m(route[i], route[i - 1]) == Err(RouteLength(m, route).error);
      assert !Reaches(m, route[i], route[i - 1]);
    }
  }

  /**
   * LatLongElevationTest.testDistance: out 100 m straight up and back again is 200 m; over
   * elevation points every leg uses the 3-D rule.
   */
  lemma UpAndDownExample(t: Trig)
    requires TrigLaws(t)
    ensures var l1 := LatLongElevation(50.0, 20.0, 0.0);
            var l2 := LatLongElevation(50.0, 20.0, 100.0);
            RouteLength(SphericalMetric(t), [l1, l2, l1]) == Ok(200.0)
  {
    var m := SphericalMetric(t);
    var l1 := LatLongElevation(50.0, 20.0, 0.0);
    var l2 := LatLongElevation(50.0, 20.0, 100.0);
    VerticalDistanceExample(t);
    DistanceSymmetric(t, l1, l2);
    assert m(l2, l1) == Ok(100.0) && m(l1, l2) == Ok(100.0);
    assert [l1, l2][..1] == [l1];
    assert RouteLength(m, [l1, l2]) == Ok(0.0 + 100.0);
    assert [l1, l2, l1][..2] == [l1, l2];
  }

  /**
   * The same route ending at a plain LatLong is measured without complaint: the last leg's
   * receiver is the plain point, which uses the surface formula against the elevation point.
   */
  lemma MixedRouteIsMeasured(t: Trig)
    requires TrigLaws(t)
    ensures var l1 := LatLongElevation(50.0, 20.0, 0.0);
            var l2 := LatLongElevation(50.0, 20.0, 100.0);
            RouteLength(SphericalMetric(t), [l1, l2, LatLong(50.0, 20.0)]) == Ok(100.0)
  {
    var m := SphericalMetric(t);
    var l1 := LatLongElevation(50.0, 20.0, 0.0);
    var l2 := LatLongElevation(50.0, 20.0, 100.0);
    var plain := LatLong(50.0, 20.0);
    VerticalDistanceExample(t);
    DistanceSymmetric(t, l1, l2);
    DistanceToItself(t, plain);
    assert Haversine(t, plain, l2) == Haversine(t, plain, plain);
    assert m(plain, l2) == Ok(0.0);
    assert m(l2, l1) == Ok(100.0);
    assert [l1, l2][..1] == [l1];
    assert RouteLength(m, [l1, l2]) == Ok(0.0 + 100.0);
    assert [l1, l2, plain][..2] == [l1, l2];
  }
}
