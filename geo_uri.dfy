/**
 * The text forms of a location: `toString` and the `geo` URI of RFC 5870 (section 3.3 gives the
 * syntax; only `geo:<lat>,<lon>[,<alt>]` with trailing `;` parameters is handled), both written
 * with formatWithoutTrailingZeros, and the URI constructor `new LatLong(URI)`.
 */
module GeoUri {
  import opened Outcomes
  import opened JavaText
  import opened Numerals
  import opened Coordinates

  /** java.net.URI reduced to what the core reads: the scheme and the scheme-specific part. */
  datatype Uri = Uri(scheme: string, schemeSpecificPart: string)

  function UriText(u: Uri): string
  {
    u.scheme + ":" + u.schemeSpecificPart
  }

  /** `"%sº, %sº"` of the two coordinates, as LatLong.toString writes it. */
  function BaseDisplayString(n: NumberText, l: Location): string
  {
    FormatWithoutTrailingZeros(n, l.latitude) + "º, " + FormatWithoutTrailingZeros(n, l.longitude) + "º"
  }

  /** `toString()`: LatLongElevation appends `", <elevation>m"`; TimestampedLocation inherits LatLong's. */
  function DisplayString(n: NumberText, l: Location): (s: string)
    ensures BaseDisplayString(n, l) <= s
    ensures l.LatLongElevation? <==> s != BaseDisplayString(n, l)
  {
    match l
    case LatLongElevation(_, _, elevation) =>
      BaseDisplayString(n, l) + ", " + FormatWithoutTrailingZeros(n, elevation) + "m"
    case _ => BaseDisplayString(n, l)
  }

  /** The scheme-specific part `<lat>,<lon>` that LatLong.toGeoURI writes. */
  function BaseGeoUriPart(n: NumberText, l: Location): string
  {
    FormatWithoutTrailingZeros(n, l.latitude) + "," + FormatWithoutTrailingZeros(n, l.longitude)
  }

  /** `toGeoURI()`: LatLongElevation appends `",<elevation>"` to the base URI. */
  function ToGeoUri(n: NumberText, l: Location): (u: Uri)
    ensures u.scheme == "geo"
    ensures BaseGeoUriPart(n, l) <= u.schemeSpecificPart
    ensures l.LatLongElevation? <==> u.schemeSpecificPart != BaseGeoUriPart(n, l)
  {
    match l
    case LatLongElevation(_, _, elevation) =>
      Uri("geo", BaseGeoUriPart(n, l) + "," + FormatWithoutTrailingZeros(n, elevation))
    case _ => Uri("geo", BaseGeoUriPart(n, l))
  }

  /**
   * `new LatLong(URI)`: the scheme must be `geo`; the text before the first `;` is split on `,`
   * and fields 0 and 1 are parsed as latitude and longitude; any further field is ignored; then
   * the constructor's range check runs. The result is always a plain LatLong.
   */
  function ParseGeoUri(n: NumberText, u: Uri): (r: Result<Location>)
    ensures r.Ok? ==> r.value.LatLong? && Valid(r.value)
    ensures u.scheme != "geo" ==> r == Err(UnexpectedScheme(u.scheme))
  {
    if u.scheme != "geo" then Err(UnexpectedScheme(u.scheme))
    else
      var parts := Split(u.schemeSpecificPart, ';');
      if parts == [] then Err(IndexOutOfBounds(0))
      else ParseCoordinates(n, Split(parts[0], ','))
  }

  /**
   * `Double.parseDouble(coordinates[0])`, then `coordinates[1]`, then `new LatLong`'s check: a
   * missing field is an index error, an unreadable one a number error, in that order.
   */
  function ParseCoordinates(n: NumberText, fields: seq<string>): (r: Result<Location>)
    ensures r.Ok? <==> |fields| >= 2 && n.parse(fields[0]).Some? && n.parse(fields[1]).Some?
                       && InRange(n.parse(fields[0]).value, n.parse(fields[1]).value)
    ensures r.Ok? ==> r.value == LatLong(n.parse(fields[0]).value, n.parse(fields[1]).value)
    ensures |fields| == 0 ==> r == Err(IndexOutOfBounds(0))
    ensures |fields| >= 1 && n.parse(fields[0]).None? ==> r == Err(MalformedNumber(fields[0]))
    ensures |fields| == 1 && n.parse(fields[0]).Some? ==> r == Err(IndexOutOfBounds(1))
    ensures |fields| >= 2 && n.parse(fields[0]).Some? && n.parse(fields[1]).None? ==>
              r == Err(MalformedNumber(fields[1]))
    ensures |fields| >= 2 && n.parse(fields[0]).Some? && n.parse(fields[1]).Some? && r.Err? ==>
              r == Err(NewLatLong(n.parse(fields[0]).value, n.parse(fields[1]).value).error)
  {
    if |fields| < 1 then Err(IndexOutOfBounds(0))
    else
      match n.parse(fields[0])
      case None => Err(MalformedNumber(fields[0]))
      case Some(latitude) =>
        if |fields| < 2 then Err(IndexOutOfBounds(1))
        else
          match n.parse(fields[1])
          case None => Err(MalformedNumber(fields[1]))
          case Some(longitude) => NewLatLong(latitude, longitude)
  }

  // ---------------------------------------------------------------------------------------------
  // Properties of the codec

  /** Everything from the first `;` on is ignored. */
  lemma {:induction false} ParametersAreIgnored(n: NumberText, location: string, parameters: string)
    requires ';' !in location && location != ""
    ensures ParseGeoUri(n, Uri("geo", location + ";" + parameters)) == ParseGeoUri(n, Uri("geo", location))
  {
    var ssp := location + ";" + parameters;
    assert ssp == location + [';'] + parameters;
    assert ssp[|location|] == ';';
    PiecesCons(location, ';', parameters);
    var pieces := Pieces(ssp, ';');
    assert pieces[0] == location;
    var parts := DropTrailingEmpty(pieces);
    assert parts != [] && parts[0] == location;
    assert Split(ssp, ';')[0] == location;
  }

  /** Latitude and longitude are the first two `,`-separated fields; a third field and more are ignored. */
  lemma {:induction false} FirstTwoFieldsAreRead(n: NumberText, latitude: string, longitude: string, more: string)
    requires ',' !in latitude && ',' !in longitude && longitude != ""
    requires ';' !in latitude + "," + longitude + more
    requires more == "" || more[0] == ','
    ensures ParseGeoUri(n, Uri("geo", latitude + "," + longitude + more))
         == ParseCoordinates(n, [latitude, longitude])
  {
    var location := latitude + "," + longitude + more;
    assert Split(location, ';') == [location];
    assert location == latitude + [','] + longitude + more;
    SplitFirstTwo(latitude, longitude, ',', more);
    var fields := Split(location, ',');
    assert fields[0] == latitude && fields[1] == longitude;
  }

  /** Double.parseDouble on a whole decimal numeral, as the examples below need it. */
  lemma ParseWhole(n: NumberText, negative: bool, digits: string, value: nat)
    requires Lawful(n) && digits != "" && AllDigits(digits) && WholeValue(digits) == value
    ensures n.parse(Text(Numeral(negative, digits, ""))) == Some(if negative then -(value as real) else value as real)
  {
    var m := Numeral(negative, digits, "");
    assert n.parse(Text(m)) == Some(Value(m));
  }

  /** LatLongTest.testGeoURI: a foreign scheme is rejected. */
  lemma ParseRejectsForeignScheme(n: NumberText)
    ensures ParseGeoUri(n, Uri("geography", "25.250,-80.125")) == Err(UnexpectedScheme("geography"))
  {
  }

  /** LatLongTest.testGeoURI: `geo:91,0` is rejected by the range check after parsing. */
  lemma {:induction false} ParseRejectsLatitude91(n: NumberText)
    requires Lawful(n)
    ensures ParseGeoUri(n, Uri("geo", "91,0")) == Err(InvalidCoordinate(Latitude, 91.0))
  {
    ParseNinetyOne(n);
    ParseZero(n);
    FirstTwoFieldsAreRead(n, "91", "0", "");
    assert "91" + "," + "0" + "" == "91,0";
  }

  /** Double.parseDouble("91"). */
  lemma ParseNinetyOne(n: NumberText)
    requires Lawful(n)
    ensures n.parse("91") == Some(91.0)
  {
    assert WholeValue("91") == 91 by {
      assert "91"[..1] == "9";
      assert "9"[..0] == "";
    }
    ParseWhole(n, false, "91", 91);
    assert Text(Numeral(false, "91", "")) == "91";
  }

  /** Double.parseDouble("0"). */
  lemma ParseZero(n: NumberText)
    requires Lawful(n)
    ensures n.parse("0") == Some(0.0)
  {
    assert WholeValue("0") == 0 by {
      assert "0"[..0] == "";
    }
    ParseWhole(n, false, "0", 0);
    assert Text(Numeral(false, "0", "")) == "0";
  }

  /** LatLongTest.testGeoURI: `geo:0,-181` is rejected by the range check after parsing. */
  lemma {:induction false} ParseRejectsLongitudeMinus181(n: NumberText)
    requires Lawful(n)
    ensures ParseGeoUri(n, Uri("geo", "0,-181")) == Err(InvalidCoordinate(Longitude, -181.0))
  {
    ParseMinus181(n);
    ParseZero(n);
    FirstTwoFieldsAreRead(n, "0", "-181", "");
    assert "0" + "," + "-181" + "" == "0,-181";
  }

  /** Double.parseDouble("-181"). */
  lemma ParseMinus181(n: NumberText)
    requires Lawful(n)
    ensures n.parse("-181") == Some(-181.0)
  {
    assert WholeValue("181") == 181 by {
      assert "181"[..2] == "18";
      assert "18"[..1] == "1";
      assert "1"[..0] == "";
    }
    ParseWhole(n, true, "181", 181);
    assert Text(Numeral(true, "181", "")) == "-181";
  }

  /**
   * The geo URI of a location parses back to its latitude and longitude whenever Double.toString
   * writes each number as a plain numeral. A LatLongElevation comes back as a plain LatLong: the
   * parser ignores the elevation field.
   */
  lemma {:induction false} GeoUriRoundTrip(n: NumberText, l: Location, latitude: Numeral, longitude: Numeral, elevation: Numeral)
    requires Lawful(n) && Valid(l)
    requires WellFormed(latitude) && latitude.fraction != "" && n.show(l.latitude) == Text(latitude)
    requires WellFormed(longitude) && longitude.fraction != "" && n.show(l.longitude) == Text(longitude)
    requires l.LatLongElevation? ==>
               WellFormed(elevation) && elevation.fraction != "" && n.show(l.elevation) == Text(elevation)
    ensures ParseGeoUri(n, ToGeoUri(n, l)) == Ok(LatLong(l.latitude, l.longitude))
  {
    var lat := FormatWithoutTrailingZeros(n, l.latitude);
    var lon := FormatWithoutTrailingZeros(n, l.longitude);
    assert n.parse(lat) == Some(l.latitude) && ',' !in lat && ';' !in lat by {
      FormatRoundTrip(n, l.latitude, latitude);
    }
    assert n.parse(lon) == Some(l.longitude) && ',' !in lon && ';' !in lon && lon != "" by {
      FormatRoundTrip(n, l.longitude, longitude);
    }
    var more := if l.LatLongElevation? then "," + FormatWithoutTrailingZeros(n, l.elevation) else "";
    assert ';' !in more && (more == "" || more[0] == ',') by {
      if l.LatLongElevation? {
        FormatRoundTrip(n, l.elevation, elevation);
      }
    }
    assert ToGeoUri(n, l).schemeSpecificPart == lat + "," + lon + more;
    assert ';' !in lat + "," + lon + more;
    FirstTwoFieldsAreRead(n, lat, lon, more);
    assert ParseCoordinates(n, [lat, lon]) == NewLatLong(l.latitude, l.longitude);
  }

  /** LatLongTest.testGeoURI: the URI of a plain location. */
  lemma ToGeoUriExample(n: NumberText)
    requires n.show(25.25) == "25.25" && n.show(-80.125) == "-80.125"
    ensures UriText(ToGeoUri(n, LatLong(25.25, -80.125))) == "geo:25.25,-80.125"
  {
    NonZeroEndingFormat(n, 25.25);
    NonZeroEndingFormat(n, -80.125);
  }

  /** LatLongElevationTest.testGeoURI: the elevation is the third field. */
  lemma ElevationGeoUriExample(n: NumberText)
    requires n.show(25.25) == "25.25" && n.show(-80.125) == "-80.125" && n.show(50.0) == "50.0"
    ensures UriText(ToGeoUri(n, LatLongElevation(25.25, -80.125, 50.0))) == "geo:25.25,-80.125,50"
  {
    NonZeroEndingFormat(n, 25.25);
    NonZeroEndingFormat(n, -80.125);
    WholeNumberFormat(n, 50.0, "50");
  }

  /** LatLongTest.testToString. */
  lemma DisplayStringExample(n: NumberText)
    requires n.show(25.25) == "25.25" && n.show(80.125) == "80.125"
    ensures DisplayString(n, LatLong(25.25, 80.125)) == "25.25º, 80.125º"
  {
    NonZeroEndingFormat(n, 25.25);
    NonZeroEndingFormat(n, 80.125);
  }

  /** LatLongElevationTest.testToString: whole numbers lose their `.0`, the elevation gets `m`. */
  lemma ElevationDisplayStringExample(n: NumberText)
    requires n.show(50.0) == "50.0" && n.show(20.0) == "20.0" && n.show(0.0) == "0.0"
    ensures DisplayString(n, LatLongElevation(50.0, 20.0, 0.0)) == "50º, 20º, 0m"
  {
    WholeNumberTexts(n);
    var l := LatLongElevation(50.0, 20.0, 0.0);
    assert BaseDisplayString(n, l) == "50º, 20º";
    assert DisplayString(n, l) == "50º, 20º" + ", " + "0" + "m";
  }

  /** formatWithoutTrailingZeros of the whole numbers in the elevation examples. */
  lemma WholeNumberTexts(n: NumberText)
    requires n.show(50.0) == "50.0" && n.show(20.0) == "20.0" && n.show(0.0) == "0.0"
    ensures FormatWithoutTrailingZeros(n, 50.0) == "50"
    ensures FormatWithoutTrailingZeros(n, 20.0) == "20"
    ensures FormatWithoutTrailingZeros(n, 0.0) == "0"
  {
    WholeNumberFormat(n, 50.0, "50");
    WholeNumberFormat(n, 20.0, "20");
    WholeNumberFormat(n, 0.0, "0");
  }
}
