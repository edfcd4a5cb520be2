# org.enki.geo in Dafny

A model of the core of `org.enki.geo`, a small Java library of geographic coordinates:

- `LatLong`, `LatLongElevation` and `TimestampedLocation`: range-checked construction, exact
  equality, the display string, and the `geo:` URI form (RFC 5870, section 3.3, as far as the
  library implements it).
- The spherical formulas: haversine distance, distance with elevation, initial heading, and
  projecting a point along a heading.
- The route tracker `remainingRoute` and the route length `distance(List)`.
- The degrees/decimal-minutes and degrees/minutes/seconds converters nested in `LatLong`.
- `GeographyUtilities.directionName`, the 16-point compass lookup.

How the model is built:

- **One datatype for three classes.** The three Java classes are one datatype `Coordinates.Location`
  with three constructors. The constructor plays the part of `getClass()`, so every class test of
  the source is an explicit constructor test.
- **Exceptions are results.** Every exception the core throws is an `Err` of `Outcomes.Result`.
- **Doubles are reals.** Numbers are exact reals.
- **Java's primitives are parameters.** The transcendental functions of `java.lang.Math` form a
  parameter `Spherical.Trig`, of which only the algebraic laws in `Spherical.TrigLaws` are assumed;
  `Spherical.TrigLawsAreSatisfiable` exhibits a family of functions that meets them.
  `Double.toString` and `Double.parseDouble` form a parameter `Numerals.NumberText`, of which only
  the laws in `Numerals.Lawful` are assumed; `Numerals.LawfulIsSatisfiable` exhibits a number
  text that meets them, built on a reader of plain decimal numerals (`Numerals.ReadNumeral`).
- **Routes use an abstract metric.** The route code is stated over an abstract distance
  `RouteTracker.Metric`; `RouteTracker.SphericalMetric` instantiates it with the library's own
  `distance`.
- **Loops are methods.** The two loops of `LatLong.java` are methods proved against specification
  functions:
  - the nearest-vertex scan of `remainingRoute` is `RouteTracker.NearestVertex` and
    `RouteTracker.RemainingRoute`;
  - the accumulation of `distance(List)` is `RouteTracker.RouteDistance`.
- **Strings are implemented.** The regular expression of `formatWithoutTrailingZeros` and
  `String.split` are implemented on `seq<char>` in module `JavaText`.

Files:

- `outcomes.dfy`: `Result`, `Option`, the error kinds, and real versions of `Math.abs`, `(int)` casts
  and `Math.copySign`.
- `coordinates.dfy`: the location datatype, its constructors and `equals`.
- `java_text.dfy`: the `\.?0*$` regex and `String.split`.
- `numerals.dfy`: decimal numerals, `Double.toString`/`parseDouble` as parameters,
  `formatWithoutTrailingZeros`, and `%d`.
- `geo_uri.dfy`: `toString`, `toGeoURI` and the geo-URI constructor.
- `spherical.dfy`: `distanceSquared`, `distance`, `heading` and `plus`.
- `routes.dfy`: `dotProduct`, `remainingRoute` and `distance(List)`.
- `sexagesimal.dfy`: `DegreesDecimalMinutes` and `DegreesMinutesSeconds`.
- `compass.dfy`: both `directionName` overloads.

## Model

| member | source | states |
|---|---|---|
| Coordinates.CheckRange | src/main/java/org/enki/geo/LatLong.java:53-64 | no error iff latitude is in [-90, 90] and longitude in [-180, 180]; the longitude is checked first, and the error names the offending axis and value |
| Coordinates.NewLatLong | src/main/java/org/enki/geo/LatLong.java:53-64 | construction succeeds iff both coordinates are in range; a success stores exactly the inputs and is Valid; a failure is an invalid-coordinate error, the longitude one when the longitude is out of range |
| Coordinates.ConstructionFailsOutOfRange | src/main/java/org/enki/geo/LatLong.java:53-64 | construction fails iff \|longitude\| > 180 or \|latitude\| > 90; with a good longitude and a bad latitude the error names the latitude |
| Coordinates.ConstructorRejectsExamples | src/test/java/org/enki/geo/LatLongTest.java:280-287 | (91,0), (-91,0), (0,181) and (0,-181) are rejected with the right axis; copying (25.25, -80.125) gives an equal value |
| Coordinates.CopyLatLong | src/main/java/org/enki/geo/LatLong.java:96-98 | copying a valid location yields a plain LatLong of its coordinates, which equals the original when that is a plain LatLong |
| Coordinates.NewLatLongElevationFrom | src/main/java/org/enki/geo/LatLongElevation.java:31-34 | succeeds iff the base location is in range; the elevation is stored as given, whatever its sign |
| Coordinates.NewLatLongElevation | src/main/java/org/enki/geo/LatLongElevation.java:43-46 | succeeds iff the coordinates are in range, with the base constructor's error otherwise; the elevation is stored as given |
| Coordinates.ElevationConstructorsAgree | src/main/java/org/enki/geo/LatLongElevation.java:31-46 | both LatLongElevation constructors give the same result from the same coordinates and elevation |
| Coordinates.NewTimestampedLocationFrom | src/main/java/org/enki/geo/TimestampedLocation.java:10-13 | succeeds iff the base location is in range; the timestamp is stored as given |
| Coordinates.NewTimestampedLocation | src/main/java/org/enki/geo/TimestampedLocation.java:15-18 | succeeds iff the coordinates are in range, with the base constructor's error otherwise |
| Coordinates.TimestampedConstructorsAgree | src/main/java/org/enki/geo/TimestampedLocation.java:10-18 | building from a location or from its latitude and longitude with the same timestamp gives the same result |
| Coordinates.Equals | src/main/java/org/enki/geo/LatLong.java:243-248 | equals, as each of the three classes defines it (with the overrides at LatLongElevation.java:77-84 and TimestampedLocation.java:20-28), holds iff the other object is a location of the same class with every field equal: it is value equality |
| Coordinates.ElevationEqualsExtendsBase | src/main/java/org/enki/geo/LatLongElevation.java:77-84 | an elevation point equals another iff the other has an elevation, the base class's test accepts the two positions, and the elevations are equal |
| Coordinates.EqualsRejectsOtherClasses | src/main/java/org/enki/geo/TimestampedLocation.java:20-28 | equals is reflexive and false for null and unrelated objects; equal values have the same class, so a timestamped location never equals the plain LatLong with its coordinates |
| Coordinates.TimestampedEqualsExamples | src/test/java/org/enki/geo/TimestampedLocationTest.java:16-28 | a change in latitude, longitude or timestamp alone makes two timestamped locations unequal |
| JavaText.StripTrailingZeros | src/main/java/org/enki/geo/LatLong.java:263-265 | the result is a prefix of the input, and what was removed matches `\.?0*` |
| JavaText.StripIsLeftmost | src/main/java/org/enki/geo/LatLong.java:264 | no longer suffix matches `\.?0*`: the regex removes the leftmost matching suffix |
| JavaText.StripKeepsNonZeroEnding | src/main/java/org/enki/geo/LatLong.java:264 | a string not ending in `0` or `.` is left unchanged |
| JavaText.Pieces | src/main/java/org/enki/geo/LatLong.java:78 | `split` cuts the text into at least one piece, none containing the separator, and joining them with the separator gives the text back |
| JavaText.Split | src/main/java/org/enki/geo/LatLong.java:77-78 | a text without the separator is its own single field; otherwise no field contains the separator, and the fields joined with it give the text less only trailing separators (all of it when no field is left) |
| JavaText.DropTrailingEmpty | src/main/java/org/enki/geo/LatLong.java:78 | split's default limit removes exactly the trailing empty pieces: the result is a prefix, ends with a non-empty piece, and only empty pieces were dropped |
| JavaText.SplitFirstTwo | src/main/java/org/enki/geo/LatLong.java:78-80 | splitting `first,second…` yields at least two fields, of which the first two are `first` and `second` |
| Numerals.FractionValue | src/main/java/org/enki/geo/LatLong.java:264 | digits after a decimal point are worth a value in [0, 1) |
| Numerals.FormatWithoutTrailingZeros | src/main/java/org/enki/geo/LatLong.java:263-265 | the formatted number is a prefix of `Double.toString` of it |
| Numerals.StripFractionDigits | src/main/java/org/enki/geo/LatLong.java:264 | stripping fraction digits removes only zeros, keeps their value, and leaves nothing iff all were zeros |
| Numerals.StripNumeral | src/main/java/org/enki/geo/LatLong.java:264 | on a decimal numeral with a fraction, the regex removes exactly the trailing zeros of the fraction (and the point when nothing is left), and the value is unchanged |
| Numerals.FormatRoundTrip | src/main/java/org/enki/geo/LatLong.java:263-265 | whenever `Double.toString` writes a plain numeral, `parseDouble` of the formatted text gives the number back; the text is non-empty and has no `,` or `;` |
| Numerals.WholeNumberFormat | src/test/java/org/enki/geo/LatLongTest.java:304-307 | a whole number written `D.0` is formatted as `D` (25.0 gives "25") |
| Numerals.NonZeroEndingFormat | src/test/java/org/enki/geo/LatLongTest.java:299-302 | a rendering not ending in `0` or `.` is kept as it is ("25.25" stays "25.25") |
| Numerals.ExponentZeroIsStripped | src/main/java/org/enki/geo/LatLong.java:264 | when `Double.toString(1e-10)` is "1.0E-10", the formatter returns "1.0E-1", a tenth of a billionth turned into a tenth |
| Numerals.StripMantissaZerosOfPlain | src/main/java/org/enki/geo/LatLong.java:264 | on text without an exponent, the corrected formatter agrees with the regex |
| Numerals.StripMantissaZerosOfScientific | src/main/java/org/enki/geo/LatLong.java:264 | in scientific notation, the corrected formatter trims only the mantissa's fraction, keeps the exponent, and keeps the mantissa's value |
| Numerals.NaturalText | src/main/java/org/enki/geo/LatLong.java:319 | `%d` of a natural number is a non-empty digit string without a leading zero |
| Numerals.NaturalTextValue | src/main/java/org/enki/geo/LatLong.java:319 | reading those digits back gives the number |
| Numerals.IntText | src/main/java/org/enki/geo/LatLong.java:319 | `%d` of an int is non-empty and starts with `-` iff the int is negative |
| Numerals.IntTextRoundTrip | src/main/java/org/enki/geo/LatLong.java:319 | `parseDouble` of `%d` of an int gives the int back |
| GeoUri.DisplayString | src/main/java/org/enki/geo/LatLongElevation.java:91-94 | the display string extends LatLong's `"%sº, %sº"`, and is longer iff the location has an elevation |
| GeoUri.ToGeoUri | src/main/java/org/enki/geo/LatLongElevation.java:96-99 | the URI has scheme `geo` and extends the `lat,lon` part, and is longer iff the location has an elevation |
| GeoUri.ParseGeoUri | src/main/java/org/enki/geo/LatLong.java:71-89 | a parsed URI is a valid plain LatLong; a scheme other than `geo` is rejected with that scheme |
| GeoUri.ParseCoordinates | src/main/java/org/enki/geo/LatLong.java:77-88 | succeeds iff there are two fields, both parse, and their values pass the range check, giving exactly the LatLong of those values; otherwise, in the source's order: a missing field 0 or 1 is an index error, an unreadable field a number error, and an out-of-range value the constructor's error |
| GeoUri.ParametersAreIgnored | src/main/java/org/enki/geo/LatLong.java:77 | everything from the first `;` on is ignored |
| GeoUri.FirstTwoFieldsAreRead | src/main/java/org/enki/geo/LatLong.java:78-80 | latitude and longitude are the first two `,`-fields; a third field and more are ignored |
| GeoUri.ParseRejectsForeignScheme | src/test/java/org/enki/geo/LatLongTest.java:291-292 | `geography:25.250,-80.125` is rejected for its scheme |
| GeoUri.ParseRejectsLatitude91 | src/test/java/org/enki/geo/LatLongTest.java:294 | `geo:91,0` is rejected by the latitude check after parsing |
| GeoUri.ParseRejectsLongitudeMinus181 | src/test/java/org/enki/geo/LatLongTest.java:297 | `geo:0,-181` is rejected by the longitude check after parsing |
| GeoUri.GeoUriRoundTrip | src/main/java/org/enki/geo/LatLong.java:263-275 | parsing `toGeoURI()` of any valid location (whose coordinates print as plain numerals) gives back the plain LatLong of its coordinates; an elevation is dropped |
| GeoUri.ToGeoUriExample | src/test/java/org/enki/geo/LatLongTest.java:299-302 | (25.25, -80.125) is `geo:25.25,-80.125` |
| GeoUri.ElevationGeoUriExample | src/test/java/org/enki/geo/LatLongElevationTest.java:53-57 | (25.25, -80.125) at 50 m is `geo:25.25,-80.125,50` |
| GeoUri.DisplayStringExample | src/test/java/org/enki/geo/LatLongTest.java:310-313 | (25.25, 80.125) displays as `25.25º, 80.125º` |
| GeoUri.ElevationDisplayStringExample | src/test/java/org/enki/geo/LatLongElevationTest.java:47-51 | (50, 20) at 0 m displays as `50º, 20º, 0m` |
| Spherical.HalfSineSquared | src/main/java/org/enki/geo/LatLong.java:109-117 | each sin² term of the haversine is non-negative |
| Spherical.SurfaceDistanceSquared | src/main/java/org/enki/geo/LatLong.java:109-117 | the squared surface distance is non-negative |
| Spherical.DistanceSquared | src/main/java/org/enki/geo/LatLongElevation.java:54-65 | fails iff an elevation receiver gets an argument without elevation; otherwise at least the surface value, and exactly it for a receiver without elevation |
| Spherical.Distance | src/main/java/org/enki/geo/LatLong.java:125-127 | fails exactly when distanceSquared does, with the dimension error |
| Spherical.HaversineSymmetric | src/main/java/org/enki/geo/LatLong.java:109-117 | the haversine term does not depend on the order of the points |
| Spherical.DistanceSymmetric | src/main/java/org/enki/geo/LatLong.java:109-127 | for points of the same class, squared distance and distance do not depend on the order |
| Spherical.DistanceNonNegative | src/main/java/org/enki/geo/LatLong.java:125-127 | a distance is never negative; without elevation it is R·\|c\| for the central angle c |
| Spherical.DistanceToItself | src/main/java/org/enki/geo/LatLong.java:109-127 | every location is at distance 0 from itself |
| Spherical.ElevationDistanceSquared | src/main/java/org/enki/geo/LatLongElevation.java:60-64 | between elevation points the squared distance is the surface value plus the squared elevation change |
| Spherical.VerticalDistanceExample | src/test/java/org/enki/geo/LatLongElevationTest.java:17-21 | the same place at 0 m and 100 m is 100 m apart |
| Spherical.MixedDimensions | src/main/java/org/enki/geo/LatLongElevation.java:55-58 | an elevation receiver rejects a plain argument, while a plain receiver measures an elevation argument on the surface |
| Spherical.Heading | src/main/java/org/enki/geo/LatLong.java:176-183 | the heading points the same way as the atan2 bearing (equal to it or one full turn more), and a bearing in (-180, 180] becomes a heading in [0, 360) |
| Spherical.BearingInRange | src/main/java/org/enki/geo/LatLong.java:180-181 | under the laws on atan2 the bearing `toDegrees(θ)` lies in (-180, 180] |
| Spherical.HeadingInRange | src/main/java/org/enki/geo/LatLong.java:176-183 | the heading always lies in [0, 360) |
| Spherical.Plus | src/main/java/org/enki/geo/LatLong.java:151-168 | a projected point is a valid plain LatLong, whatever the receiver's class |
| Spherical.PlusFailsOnlyOnLongitude | src/main/java/org/enki/geo/LatLong.java:151-168 | the projected latitude is always in [-90, 90]; plus fails iff the new longitude leaves ±180, with the longitude error |
| RouteTracker.FirstUnreached | src/main/java/org/enki/geo/LatLong.java:218-224 | the first vertex that cannot be measured against; every vertex before it can |
| RouteTracker.ClosestIndex | src/main/java/org/enki/geo/LatLong.java:215-224 | the scan settles on an index among the vertices scanned |
| RouteTracker.ClosestIndexIsNearest | src/main/java/org/enki/geo/LatLong.java:218-224 | that index is the first vertex of least distance: none is nearer, and every earlier one is strictly farther |
| RouteTracker.DotProduct | src/main/java/org/enki/geo/LatLong.java:193-200 | the dot product of a→b and a→c is 0 when either vector is zero, and the squared length of a→b, at least 0, when c is b |
| RouteTracker.DotProductOfOffset | src/main/java/org/enki/geo/LatLong.java:193-200 | for c at s lengths of a→b along the leg and u lengths across it, the dot product is s times the squared leg length, whatever u is |
| RouteTracker.OffsetExists | src/main/java/org/enki/geo/LatLong.java:193-200 | every location has such coordinates along and across a leg between two different positions |
| RouteTracker.ResumeIsAhead | src/main/java/org/enki/geo/LatLong.java:229-234 | the route resumes after the nearest vertex iff the location lies ahead of it along the next leg (its coordinate along the leg is at least 0), however far off the leg it lies |
| RouteTracker.RemainingRouteOf | src/main/java/org/enki/geo/LatLong.java:210-240 | rejects an empty route, and fails iff some vertex cannot be measured, with that vertex's error; otherwise it returns the locator followed by a non-empty suffix of the route ending at the last vertex, 2 to n+1 long |
| RouteTracker.NearestVertex | src/main/java/org/enki/geo/LatLong.java:215-224 | the loop returns the first nearest index iff every vertex can be measured, and otherwise the error of the first that cannot |
| RouteTracker.RemainingRoute | src/main/java/org/enki/geo/LatLong.java:210-240 | the method returns exactly RemainingRouteOf |
| RouteTracker.SphericalRemainingRouteFails | src/main/java/org/enki/geo/LatLongElevation.java:55-58 | with the library's distance the route fails iff an elevation locator meets a vertex without elevation, with the dimension error |
| RouteTracker.MirroredVerticesAreEquidistant | src/main/java/org/enki/geo/LatLong.java:109-117 | vertices mirrored across the locator's meridian at one latitude are equally far from it |
| RouteTracker.SingleVertexRoute | src/test/java/org/enki/geo/LatLongTest.java:251 | a one-vertex route always gives `[here, vertex]` |
| RouteTracker.NearestIsLast | src/main/java/org/enki/geo/LatLong.java:226-228 | when the last vertex is strictly nearest, the result is `[here, last]` whatever the dot product |
| RouteTracker.BeforeRouteExample | src/test/java/org/enki/geo/LatLongTest.java:160-170 | from before the route, the whole route is kept (given that its first vertex is nearest) |
| RouteTracker.InsideRouteExample | src/test/java/org/enki/geo/LatLongTest.java:172-202 | from inside the first leg, on it or above it, the route resumes at the second vertex |
| RouteTracker.RouteLength | src/main/java/org/enki/geo/LatLong.java:135-142 | a route of fewer than two points has length 0 |
| RouteTracker.RouteDistance | src/main/java/org/enki/geo/LatLong.java:135-142 | the accumulating loop computes exactly RouteLength |
| RouteTracker.RouteLengthMeasures | src/main/java/org/enki/geo/LatLong.java:137-139 | the length is defined iff every leg `route[i].distance(route[i-1])` is, and a failure is the error of one of the legs |
| RouteTracker.RouteLengthKeepsFirstError | src/main/java/org/enki/geo/LatLong.java:137-139 | once a prefix of the route fails, the whole route fails with the same error |
| RouteTracker.RouteLengthNonNegative | src/main/java/org/enki/geo/LatLong.java:135-142 | with the library's distance, a route length is never negative |
| RouteTracker.SphericalRouteLengthFails | src/main/java/org/enki/geo/LatLong.java:137-139 | with the library's distance, a route fails iff an elevation point directly follows a point without one, with the dimension error |
| RouteTracker.UpAndDownExample | src/test/java/org/enki/geo/LatLongElevationTest.java:23 | 100 m up and back down is a route of length 200 |
| RouteTracker.MixedRouteIsMeasured | src/main/java/org/enki/geo/LatLong.java:109-117 | a route ending in a plain LatLong after elevation points is measured (100 m), since the last leg's receiver is the plain point |
| Sexagesimal.TruncOfMagnitude | src/main/java/org/enki/geo/LatLong.java:314 | `(int) x` has magnitude floor(\|x\|) and is negative iff x <= -1 |
| Sexagesimal.DecimalMinutes | src/main/java/org/enki/geo/LatLong.java:313-316 | decimal minutes lie in [0, 60), and \|x\| = \|degrees\| + minutes/60 |
| Sexagesimal.DdmOf | src/main/java/org/enki/geo/LatLong.java:313-316 | both minute fields lie in [0, 60), and together with the degrees they make up each coordinate's magnitude |
| Sexagesimal.DdmAxisRoundTrip | src/main/java/org/enki/geo/LatLong.java:341-345 | one coordinate through DDM and back is exact, except that on (-1, 0) its sign is lost |
| Sexagesimal.DdmGetLatLong | src/main/java/org/enki/geo/LatLong.java:341-345 | each coordinate is \|degrees\| + minutes/60 in magnitude, negative only for negative degrees and positive only for degrees ≥ 0; it fails, with a coordinate error, iff a magnitude exceeds 90 or 180 |
| Sexagesimal.DdmRoundTrip | src/main/java/org/enki/geo/LatLong.java:341-345 | `getLatLong` of the DDM of a valid location is the plain LatLong of the recovered coordinates, equal to the original unless a coordinate is in (-1, 0) |
| Sexagesimal.WholeMinutes | src/main/java/org/enki/geo/LatLong.java:411-422 | DMS minutes are integers from 0 to 59 |
| Sexagesimal.Seconds | src/main/java/org/enki/geo/LatLong.java:411-422 | DMS seconds lie in [0, 60) |
| Sexagesimal.DmsOf | src/main/java/org/enki/geo/LatLong.java:411-422 | minutes in 0..59 and seconds in [0, 60) for both coordinates |
| Sexagesimal.DmsRefinesDdm | src/main/java/org/enki/geo/LatLong.java:411-422 | DMS has the same degrees as DDM, and its minutes plus seconds/60 are DDM's decimal minutes |
| Sexagesimal.DmsAxisRoundTrip | src/main/java/org/enki/geo/LatLong.java:437-444 | one coordinate through DMS and back is exact, except that on (-1, 0) its sign is lost |
| Sexagesimal.DmsGetLatLong | src/main/java/org/enki/geo/LatLong.java:437-444 | each coordinate is \|degrees\| + minutes/60 + seconds/3600 in magnitude, with the sign of the degree part; it fails, with a coordinate error, iff a magnitude exceeds 90 or 180 |
| Sexagesimal.DmsRoundTrip | src/main/java/org/enki/geo/LatLong.java:437-444 | `getLatLong` of the DMS of a valid location is the plain LatLong of the recovered coordinates |
| Sexagesimal.DdmText | src/main/java/org/enki/geo/LatLong.java:318-322 | `toString` prints signed degrees: the text starts with `-` iff the latitude's degree part is negative, and ends with the minute mark |
| Sexagesimal.DdmCardinalText | src/main/java/org/enki/geo/LatLong.java:329-334 | `toStringCardinal` prints unsigned degrees (the text starts with a digit) and ends with the longitude letter, E iff the degree part is positive, W otherwise |
| Sexagesimal.DmsText | src/main/java/org/enki/geo/LatLong.java:424-430 | DMS `toString` prints unsigned degrees (starts with a digit) and ends with the longitude letter, E iff the degree part is positive, W otherwise |
| Sexagesimal.CardinalOfCoordinate | src/main/java/org/enki/geo/LatLong.java:329-334 | the letter printed for a coordinate is N (or E) iff the coordinate is at least 1 |
| Sexagesimal.ConversionNumbersExample | src/test/java/org/enki/geo/LatLongTest.java:57-157 | the DDM and DMS fields of (27.5, -82.75), (27.625, -82.875) and (-27.5, 82.75) |
| Sexagesimal.ConversionRoundTripExample | src/test/java/org/enki/geo/LatLongTest.java:73-148 | those conversions give their location back |
| Sexagesimal.ZeroTextExample | src/test/java/org/enki/geo/LatLongTest.java:51-53 | (0, 0) in DDM is `0º 0', 0º 0'` |
| Sexagesimal.DdmTextExample | src/test/java/org/enki/geo/LatLongTest.java:71 | (27.5, -82.75) in DDM is `27º 30', -82º 45'` |
| Sexagesimal.DdmCardinalTextExample | src/test/java/org/enki/geo/LatLongTest.java:72 | with cardinal letters it is `27º 30' N, 82º 45' W` |
| Sexagesimal.DdmSouthEastTextExample | src/test/java/org/enki/geo/LatLongTest.java:147 | (-27.5, 82.75) with cardinal letters is `27º 30' S, 82º 45' E` |
| Sexagesimal.DdmFractionTextExample | src/test/java/org/enki/geo/LatLongTest.java:125 | (27.625, -82.875) in DDM is `27º 37.5', -82º 52.5'` |
| Sexagesimal.DmsTextExample | src/test/java/org/enki/geo/LatLongTest.java:91 | (27.5, -82.75) in DMS is `27º 30' 0" N, 82º 45' 0" W` |
| Sexagesimal.DmsSecondsTextExample | src/test/java/org/enki/geo/LatLongTest.java:134 | (27.625, -82.875) in DMS is `27º 37' 30" N, 82º 52' 30" W` |
| Sexagesimal.SignLostExample | src/main/java/org/enki/geo/LatLong.java:341-345 | (-0.5, 0) comes back from DDM and DMS as (0.5, 0), and latitude 0.5 is printed with `S` |
| Sexagesimal.SignedDdmOf | src/main/java/org/enki/geo/LatLong.java:313-316 | the corrected decomposition flags exactly the negative coordinates and keeps minutes in [0, 60) |
| Sexagesimal.SignedDdmRoundTrip | src/main/java/org/enki/geo/LatLong.java:341-345 | with the sign kept apart, every coordinate survives the DDM round trip |
| Sexagesimal.SignedCardinalIsHemisphere | src/main/java/org/enki/geo/LatLong.java:329-334 | with the sign kept apart, the letter is N exactly for coordinates >= 0 |
| Sexagesimal.SignedDmsOf | src/main/java/org/enki/geo/LatLong.java:411-422 | the corrected DMS decomposition flags exactly the negative coordinates, with minutes in 0..59 and seconds in [0, 60) |
| Sexagesimal.SignedDmsRoundTrip | src/main/java/org/enki/geo/LatLong.java:437-444 | with the sign kept apart, every coordinate survives the DMS round trip |
| Compass.SectorIndex | src/main/java/org/enki/geo/GeographyUtilities.java:29-31 | the index is always a valid table index, and the heading lies within half a point of that index's bearing (or at the top of the range for index 0) |
| Compass.DirectionName | src/main/java/org/enki/geo/GeographyUtilities.java:22-32 | fails iff the heading is outside [0, 360), with that heading; otherwise the name is one of the table's |
| Compass.SectorOfHeading | src/main/java/org/enki/geo/GeographyUtilities.java:31 | a heading in [22.5k - 11.25, 22.5k + 11.25) is named by entry k mod 16 |
| Compass.NorthWrapsAround | src/main/java/org/enki/geo/GeographyUtilities.java:45-55 | both [0, 11.25) and [348.75, 360) are "N" |
| Compass.DirectionNameExamples | src/main/java/org/enki/geo/GeographyUtilities.java:44-56 | the eleven samples checked when the class loads, and the rejection of -1 and 361 |
| Compass.DirectionNameOfAngle | src/main/java/org/enki/geo/GeographyUtilities.java:40-42 | the quantity overload fails iff the angle in degrees is outside [0, 360) |
| Compass.UnitDoesNotMatter | src/main/java/org/enki/geo/GeographyUtilities.java:40-42 | the same heading in radians or degrees gets the same name as the double overload |
| Compass.AngleExample | src/test/java/org/enki/geo/GeographyUtilitiesTest.java:23 | 57 degrees as a quantity is "ENE" |
| Compass.DuplicatedWestNorthWest | src/main/java/org/enki/geo/GeographyUtilities.java:27-28 | entries 13 and 15 are both "WNW" and "NNW" is missing, so 300 and 337.5 degrees get the same name |
| Compass.CorrectedDirectionName | src/main/java/org/enki/geo/GeographyUtilities.java:22-32 | the corrected lookup has the same rejections and names from the 16 compass points |
| Compass.CompassPointsDistinct | src/main/java/org/enki/geo/GeographyUtilities.java:27-28 | the corrected table's 16 names are distinct and differ from the source's table only at entry 15 |
| Compass.CorrectedNorthNorthWest | src/main/java/org/enki/geo/GeographyUtilities.java:54 | headings in [326.25, 348.75), 348 among them, are "NNW" after the correction and "WNW" in the source |

## Left out

- `hashCode` of every class: it is `Objects.hash` over library types, and the model has value equality in its place.
- The `this == o` shortcut of every `equals`: it agrees with the value comparison, since values are immutable.
- IEEE-754 behaviour is not modelled: NaN (which passes the range check), `-0.0` as told apart by `Double.compare`, rounding in the spherical, DDM and DMS arithmetic, and numeric accuracy in general.
- Coordinates are exact reals: the nautical-mile, destination, heading and Fort Pierce route tests need real trigonometry and are not modelled.
- `Double.MAX_VALUE` and `-1` as the starting values of the nearest-vertex scan: the scan starts from "no index yet".
- Java's 32-bit `int`: `(int)` casts and `Math.abs` are modelled without the int range, so `Math.abs(Integer.MIN_VALUE)` is not modelled.
- The units library (`Quantity`, `Units`, `USCustomary`): lengths are real metres and angles real degrees, and an angle in radians is converted with the factor 180/`Math.PI`, where `Math.PI` is the real 3.141592653589793 and not π itself.
- `java.net.URI`: a URI is its scheme and scheme-specific part, and parsing of the URI text itself (including a URI without a scheme) is left out.
- `Double.toString` and `Double.parseDouble` are parameters, known only through `Numerals.Lawful`: when a number is shown as a plain decimal numeral, that numeral's value is the number, and a plain decimal numeral parses to its exact value. Nothing is assumed about numbers shown in scientific notation.
- `Math.sin`, `cos`, `atan2`, `sqrt` and `asin` are parameters, known only through `Spherical.TrigLaws`: sin is odd, cos is even, sin 0 = 0, atan2(0, y) = 0 for y > 0, the ranges of atan2 and asin, and sqrt of a square or of a non-negative number.
- `org.enki.core.Utilities.formatWithoutTrailingZeros` is not part of this model. `LatLongElevation` calls it, and the model uses `LatLong`'s own `formatWithoutTrailingZeros` there.
- The DDM and DMS constructors that take their fields directly are the datatype constructors; their `equals` and `hashCode` are datatype equality.
- `PolarCoordinates` is floating-point trigonometry with no invariant beyond its formula.
- Numbers that `Double.toString` writes in scientific notation are covered only by the finding below; the other formatting lemmas are stated for plain numerals.
- RouteTracker.RemainingRoute: the route operations are stated over any metric, and the library's own distance is one instance (`SphericalMetric`).
- RouteTracker.BeforeRouteExample and RouteTracker.InsideRouteExample: they assume the order of the distances that real trigonometry would give, because the model's trigonometry has only its algebraic laws.
- GeoUri.GeoUriRoundTrip: stated for coordinates that `Double.toString` writes as plain numerals with a fraction, not for numbers in scientific notation.
- The tests expect a `GeographyUtilities.parseGeoURI` that the library source does not have; the model follows the geo-URI constructor of `LatLong`. Where the tests and the code disagree, the model follows the code:
  - a three-field geo URI parses to a plain `LatLong` with the third field ignored (`GeoUri.FirstTwoFieldsAreRead`);
  - a route `[l1, l2, plain]` is measured without error (`RouteTracker.MixedRouteIsMeasured`), because only an elevation receiver checks the class of its argument.
- The antimeridian and pole limitations of `dotProduct` and `plus` are kept as written: raw degree differences, with no wrap-around.

## Findings

| source | as written | input that shows it | evidently intended | confidence | as-written member | corrected member |
|---|---|---|---|---|---|---|
| src/main/java/org/enki/geo/GeographyUtilities.java:28 | the name table lists "WNW" at index 13 and again at index 15, and has no "NNW" | a heading of 348 (or anything in [326.25, 348.75)) is named "WNW", the same as 292.5 | entry 15 is "NNW", so the 16 names are distinct | high (not executed) | Compass.DuplicatedWestNorthWest | Compass.CorrectedNorthNorthWest |
| src/main/java/org/enki/geo/LatLong.java:341-345 | `getLatLong` takes the sign from the integer degree part, which is 0 for -1 < x < 0; the cardinal letter tests `degrees > 0` | latitude -0.5 comes back as 0.5; latitude 0.5 is printed with `S` | keep the hemisphere apart from the degrees, so that every coordinate survives the round trip and the letter follows the sign of the coordinate | high (not executed) | Sexagesimal.SignLostExample | Sexagesimal.SignedDdmRoundTrip |
| src/main/java/org/enki/geo/LatLong.java:263-265 | the regex `\.?0*$` also removes zeros at the end of an exponent | `Double.toString(1e-10)` is "1.0E-10", which is formatted as "1.0E-1" | strip the trailing zeros of the mantissa only | medium (not executed) | Numerals.ExponentZeroIsStripped | Numerals.StripMantissaZerosOfScientific |
