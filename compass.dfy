/** GeographyUtilities.directionName: a heading named by the nearest point of a 16-wind compass rose. */
module Compass {
  import opened Outcomes
  import opened RealMath

  /** The name table exactly as the source lists it: "WNW" appears at 13 and at 15. */
  const Names: seq<string> :=
    ["N", "NNE", "NE", "ENE", "E", "ESE", "SE", "SSE", "S", "SSW", "SW", "WSW", "W", "WNW", "NW", "WNW"]

  /** `360.0 / numberHeadings`: each point covers 22.5 degrees, centred on its bearing. */
  const HeadingSize: real := 360.0 / |Names| as real

  /** `((int) ((d + headingSize / 2.0) / headingSize)) % numberHeadings` for an accepted heading. */
  function SectorIndex(d: real): (k: nat)
    requires 0.0 <= d < 360.0
    ensures k < |Names|
    ensures k as real * HeadingSize - HeadingSize / 2.0 <= d < k as real * HeadingSize + HeadingSize / 2.0
         || (k == 0 && 360.0 - HeadingSize / 2.0 <= d)
  {
    Trunc((d + HeadingSize / 2.0) / HeadingSize) % |Names|
  }

  /** `directionName(double d)`: headings outside [0, 360) are rejected. */
  function DirectionName(d: real): (r: Result<string>)
    ensures r.Err? <==> d < 0.0 || d >= 360.0
    ensures r.Err? ==> r.error == InvalidHeading(d)
    ensures r.Ok? ==> r.value in Names
  {
    if d < 0.0 || d >= 360.0 then Err(InvalidHeading(d))
    else Ok(Names[SectorIndex(d)])
  }

  /** A heading within half a point of bearing 22.5·k is named by entry k (entry 0 again for k = 16). */
  lemma SectorOfHeading(d: real, k: nat)
    requires 0.0 <= d < 360.0 && k <= 16
    requires 22.5 * k as real - 11.25 <= d < 22.5 * k as real + 11.25
    ensures DirectionName(d) == Ok(Names[k % 16])
  {
    assert |Names| == 16 && HeadingSize == 22.5;
    var x := (d + HeadingSize / 2.0) / HeadingSize;
    assert k as real <= x < k as real + 1.0;
    TruncBetween(x, k);
  }

  /** The whole part of a non-negative x is the k with k <= x < k + 1. */
  lemma TruncBetween(x: real, k: int)
    requires 0.0 <= x && k as real <= x < k as real + 1.0
    ensures Trunc(x) == k
  {
    var r := Trunc(x);
    assert r as real <= x < r as real + 1.0;
    assert r < k + 1 && k < r + 1;
  }

  /** North covers both ends of the range: [0, 11.25) and [348.75, 360). */
  lemma NorthWrapsAround(d: real)
    requires 0.0 <= d < 11.25 || 348.75 <= d < 360.0
    ensures DirectionName(d) == Ok("N")
  {
    if d < 11.25 {
      SectorOfHeading(d, 0);
    } else {
      SectorOfHeading(d, 16);
    }
  }

  /** The samples checked when GeographyUtilities is loaded, and GeographyUtilitiesTest's rejections. */
  lemma DirectionNameExamples()
    ensures DirectionName(-1.0) == Err(InvalidHeading(-1.0)) && DirectionName(361.0) == Err(InvalidHeading(361.0))
    ensures DirectionName(0.0) == Ok("N") && DirectionName(11.0) == Ok("N")
    ensures DirectionName(12.0) == Ok("NNE") && DirectionName(33.0) == Ok("NNE")
    ensures DirectionName(34.0) == Ok("NE") && DirectionName(56.0) == Ok("NE")
    ensures DirectionName(57.0) == Ok("ENE") && DirectionName(78.0) == Ok("ENE")
    ensures DirectionName(79.0) == Ok("E")
    ensures DirectionName(348.0) == Ok("WNW") && DirectionName(350.0) == Ok("N")
  {
    SectorOfHeading(12.0, 1);
    SectorOfHeading(33.0, 1);
    SectorOfHeading(34.0, 2);
    SectorOfHeading(56.0, 2);
    SectorOfHeading(57.0, 3);
    SectorOfHeading(78.0, 3);
    SectorOfHeading(79.0, 4);
    SectorOfHeading(348.0, 15);
    NorthWrapsAround(0.0);
    NorthWrapsAround(11.0);
    NorthWrapsAround(350.0);
  }

  /** A heading as a `Quantity<Angle>`: a value and its unit. */
  datatype Angle = Degrees(value: real) | Radians(value: real)

  /** `d.to(DEGREE_ANGLE).getValue()`. */
  function InDegrees(a: Angle): real
  {
    match a
    case Degrees(v) => v
    case Radians(v) => ToDegrees(v)
  }

  /** `directionName(Quantity<Angle> d)`: converted to degrees, then named. */
  function DirectionNameOfAngle(a: Angle): (r: Result<string>)
    ensures r.Err? <==> InDegrees(a) < 0.0 || InDegrees(a) >= 360.0
  {
    DirectionName(InDegrees(a))
  }

  /** The unit does not matter: the same heading in radians or degrees gets the same name. */
  lemma UnitDoesNotMatter(d: real)
    ensures DirectionNameOfAngle(Radians(ToRadians(d))) == DirectionNameOfAngle(Degrees(d)) == DirectionName(d)
  {
    assert ToDegrees(ToRadians(d)) == d;
  }

  /** GeographyUtilitiesTest: 57 degrees as a quantity is "ENE". */
  lemma AngleExample()
    ensures DirectionNameOfAngle(Degrees(57.0)) == Ok("ENE")
  {
    SectorOfHeading(57.0, 3);
  }

  // ---------------------------------------------------------------------------------------------
  // The duplicated entry

  /** Entries 13 and 15 are both "WNW" and "NNW" is missing, so 300 and 337.5 degrees get the same name. */
  lemma DuplicatedWestNorthWest()
    ensures Names[13] == Names[15] == "WNW" && "NNW" !in Names
    ensures DirectionName(300.0) == DirectionName(337.5) == Ok("WNW")
  {
    SectorOfHeading(300.0, 13);
    SectorOfHeading(337.5, 15);
  }

  /** The 16 points of the compass rose, clockwise from north. */
  const CompassPoints: seq<string> :=
    ["N", "NNE", "NE", "ENE", "E", "ESE", "SE", "SSE", "S", "SSW", "SW", "WSW", "W", "WNW", "NW", "NNW"]

  /** directionName with the table the documentation describes. */
  function CorrectedDirectionName(d: real): (r: Result<string>)
    ensures r.Err? <==> d < 0.0 || d >= 360.0
    ensures r.Ok? ==> r.value in CompassPoints
  {
    if d < 0.0 || d >= 360.0 then Err(InvalidHeading(d))
    else Ok(CompassPoints[SectorIndex(d)])
  }

  /** Every point names exactly one sector: the 16 names are distinct, and only entry 15 differs from the source's table. */
  lemma CompassPointsDistinct()
    ensures forall i, j :: 0 <= i < j < 16 ==> CompassPoints[i] != CompassPoints[j]
    ensures forall i :: 0 <= i < 15 ==> CompassPoints[i] == Names[i]
  {
  }

  /** The sector [326.25, 348.75) that the source calls "WNW" is "NNW" after the correction. */
  lemma CorrectedNorthNorthWest(d: real)
    requires 326.25 <= d < 348.75
    ensures CorrectedDirectionName(d) == Ok("NNW")
    ensures DirectionName(d) == Ok("WNW")
  {
    SectorOfHeading(d, 15);
  }
}
