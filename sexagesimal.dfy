/**
 * LatLong.DegreesDecimalMinutes and LatLong.DegreesMinutesSeconds: a location split into whole
 * degrees (truncated toward zero, so they carry the sign) and unsigned minutes and seconds, the
 * way back to a LatLong, and the text forms.
 */
module Sexagesimal {
  import opened Outcomes
  import opened RealMath
  import opened Numerals
  import opened Coordinates

  /** Math.abs on an int (the overflow of Math.abs(Integer.MIN_VALUE) is not modelled). */
  function IntAbs(i: int): nat
  {
    if i < 0 then -i else i
  }

  /** The value `getLatLong` recovers from a coordinate x: x itself, except on (-1, 0), where the sign is lost. */
  function Recovered(x: real): real
  {
    if -1.0 < x < 0.0 then -x else x
  }

  /** Truncation toward zero keeps the sign and takes the whole part of the magnitude. */
  lemma TruncOfMagnitude(x: real)
    ensures IntAbs(Trunc(x)) == Abs(x).Floor
    ensures x <= -1.0 <==> Trunc(x) < 0
  {
  }

  // ---------------------------------------------------------------------------------------------
  // Degrees and decimal minutes

  datatype DegreesDecimalMinutes = DegreesDecimalMinutes(
    latitudeDegrees: int, latitudeDecimalMinutes: real,
    longitudeDegrees: int, longitudeDecimalMinutes: real)

  /** `(abs(x) - floor(abs(x))) * 60.0`: the fraction of |x|, in minutes. */
  function DecimalMinutes(x: real): (r: real)
    ensures 0.0 <= r < 60.0
    ensures Abs(x) == IntAbs(Trunc(x)) as real + r / 60.0
  {
    TruncOfMagnitude(x);
    (Abs(x) - Abs(x).Floor as real) * 60.0
  }

  /** `new DegreesDecimalMinutes(LatLong c)`. */
  function DdmOf(l: Location): (d: DegreesDecimalMinutes)
    ensures 0.0 <= d.latitudeDecimalMinutes < 60.0 && 0.0 <= d.longitudeDecimalMinutes < 60.0
    ensures Abs(l.latitude) == IntAbs(d.latitudeDegrees) as real + d.latitudeDecimalMinutes / 60.0
    ensures Abs(l.longitude) == IntAbs(d.longitudeDegrees) as real + d.longitudeDecimalMinutes / 60.0
  {
    DegreesDecimalMinutes(Trunc(l.latitude), DecimalMinutes(l.latitude),
                          Trunc(l.longitude), DecimalMinutes(l.longitude))
  }

  /** `copySign(abs(degrees) + minutes / 60, degrees)`. */
  function DdmAxisValue(degrees: int, minutes: real): real
  {
    CopySign(IntAbs(degrees) as real + minutes / 60.0, degrees)
  }

  /**
   * DegreesDecimalMinutes.getLatLong: each coordinate is |degrees| + minutes / 60 with the sign of
   * the degree part (never negative for 0 degrees), rebuilt through `new LatLong`, so it fails
   * exactly when a magnitude is out of range.
   */
  function DdmGetLatLong(d: DegreesDecimalMinutes): (r: Result<Location>)
    ensures var latitude := IntAbs(d.latitudeDegrees) as real + d.latitudeDecimalMinutes / 60.0;
            var longitude := IntAbs(d.longitudeDegrees) as real + d.longitudeDecimalMinutes / 60.0;
            && (r.Ok? <==> Abs(latitude) <= 90.0 && Abs(longitude) <= 180.0)
            && (r.Ok? ==> r.value.LatLong? && Abs(r.value.latitude) == Abs(latitude)
                                           && Abs(r.value.longitude) == Abs(longitude))
    ensures r.Ok? ==> (r.value.latitude < 0.0 ==> d.latitudeDegrees < 0) && (r.value.latitude > 0.0 ==> d.latitudeDegrees >= 0)
    ensures r.Ok? ==> (r.value.longitude < 0.0 ==> d.longitudeDegrees < 0) && (r.value.longitude > 0.0 ==> d.longitudeDegrees >= 0)
    ensures r.Err? ==> r.error.InvalidCoordinate?
  {
    NewLatLong(DdmAxisValue(d.latitudeDegrees, d.latitudeDecimalMinutes),
               DdmAxisValue(d.longitudeDegrees, d.longitudeDecimalMinutes))
  }

  /** One coordinate through DDM and back: exact except on (-1, 0), where the degree part is 0. */
  lemma DdmAxisRoundTrip(x: real)
    ensures DdmAxisValue(Trunc(x), DecimalMinutes(x)) == Recovered(x)
  {
    TruncOfMagnitude(x);
  }

  /** A valid location through DDM and back becomes a plain LatLong of the recovered coordinates. */
  lemma DdmRoundTrip(l: Location)
    requires Valid(l)
    ensures DdmGetLatLong(DdmOf(l)) == Ok(LatLong(Recovered(l.latitude), Recovered(l.longitude)))
    ensures l.LatLong? && !(-1.0 < l.latitude < 0.0) && !(-1.0 < l.longitude < 0.0) ==>
              DdmGetLatLong(DdmOf(l)) == Ok(l)
  {
    DdmAxisRoundTrip(l.latitude);
    DdmAxisRoundTrip(l.longitude);
  }

  // ---------------------------------------------------------------------------------------------
  // Degrees, minutes and seconds

  datatype DegreesMinutesSeconds = DegreesMinutesSeconds(
    latitudeDegrees: int, latitudeMinutes: int, latitudeSeconds: real,
    longitudeDegrees: int, longitudeMinutes: int, longitudeSeconds: real)

  /** `minutesNotTruncated`: `(abs(x) - abs((int) x)) * 60`. */
  function UntruncatedMinutes(x: real): real
  {
    (Abs(x) - IntAbs(Trunc(x)) as real) * 60.0
  }

  /** `(int) minutesNotTruncated`: whole minutes, 0 to 59. */
  function WholeMinutes(x: real): (r: int)
    ensures 0 <= r <= 59
  {
    TruncOfMagnitude(x);
    Trunc(UntruncatedMinutes(x))
  }

  /** `(minutesNotTruncated - minutes) * 60`: the seconds, in [0, 60). */
  function Seconds(x: real): (r: real)
    ensures 0.0 <= r < 60.0
  {
    TruncOfMagnitude(x);
    (UntruncatedMinutes(x) - WholeMinutes(x) as real) * 60.0
  }

  /** `new DegreesMinutesSeconds(LatLong c)`. */
  function DmsOf(l: Location): (d: DegreesMinutesSeconds)
    ensures 0 <= d.latitudeMinutes <= 59 && 0 <= d.longitudeMinutes <= 59
    ensures 0.0 <= d.latitudeSeconds < 60.0 && 0.0 <= d.longitudeSeconds < 60.0
  {
    DegreesMinutesSeconds(Trunc(l.latitude), WholeMinutes(l.latitude), Seconds(l.latitude),
                          Trunc(l.longitude), WholeMinutes(l.longitude), Seconds(l.longitude))
  }

  /** `copySign(abs(degrees) + minutes / 60.0 + seconds / 3600.0, degrees)`. */
  function DmsAxisValue(degrees: int, minutes: int, seconds: real): real
  {
    CopySign(IntAbs(degrees) as real + minutes as real / 60.0 + seconds / 3600.0, degrees)
  }

  /**
   * DegreesMinutesSeconds.getLatLong: |degrees| + minutes / 60 + seconds / 3600 with the sign of
   * the degree part, failing exactly when a magnitude is out of range.
   */
  function DmsGetLatLong(d: DegreesMinutesSeconds): (r: Result<Location>)
    ensures var latitude := IntAbs(d.latitudeDegrees) as real + d.latitudeMinutes as real / 60.0 + d.latitudeSeconds / 3600.0;
            var longitude := IntAbs(d.longitudeDegrees) as real + d.longitudeMinutes as real / 60.0 + d.longitudeSeconds / 3600.0;
            && (r.Ok? <==> Abs(latitude) <= 90.0 && Abs(longitude) <= 180.0)
            && (r.Ok? ==> r.value.LatLong? && Abs(r.value.latitude) == Abs(latitude)
                                           && Abs(r.value.longitude) == Abs(longitude))
    ensures r.Ok? ==> (r.value.latitude < 0.0 ==> d.latitudeDegrees < 0) && (r.value.latitude > 0.0 ==> d.latitudeDegrees >= 0)
    ensures r.Ok? ==> (r.value.longitude < 0.0 ==> d.longitudeDegrees < 0) && (r.value.longitude > 0.0 ==> d.longitudeDegrees >= 0)
    ensures r.Err? ==> r.error.InvalidCoordinate?
  {
    NewLatLong(DmsAxisValue(d.latitudeDegrees, d.latitudeMinutes, d.latitudeSeconds),
               DmsAxisValue(d.longitudeDegrees, d.longitudeMinutes, d.longitudeSeconds))
  }

  /** DMS agrees with DDM: the same degrees, and whole minutes plus seconds are the decimal minutes. */
  lemma DmsRefinesDdm(l: Location)
    ensures DmsOf(l).latitudeDegrees == DdmOf(l).latitudeDegrees
    ensures DmsOf(l).longitudeDegrees == DdmOf(l).longitudeDegrees
    ensures DmsOf(l).latitudeMinutes as real + DmsOf(l).latitudeSeconds / 60.0 == DdmOf(l).latitudeDecimalMinutes
    ensures DmsOf(l).longitudeMinutes as real + DmsOf(l).longitudeSeconds / 60.0 == DdmOf(l).longitudeDecimalMinutes
  {
    TruncOfMagnitude(l.latitude);
    TruncOfMagnitude(l.longitude);
  }

  /** One coordinate through DMS and back: exact except on (-1, 0). */
  lemma DmsAxisRoundTrip(x: real)
    ensures DmsAxisValue(Trunc(x), WholeMinutes(x), Seconds(x)) == Recovered(x)
  {
    TruncOfMagnitude(x);
    var degrees := IntAbs(Trunc(x)) as real;
    var m := UntruncatedMinutes(x);
    var whole := WholeMinutes(x) as real;
    assert whole / 60.0 + (m - whole) * 60.0 / 3600.0 == m / 60.0;
    assert degrees + m / 60.0 == Abs(x);
  }

  lemma DmsRoundTrip(l: Location)
    requires Valid(l)
    ensures DmsGetLatLong(DmsOf(l)) == Ok(LatLong(Recovered(l.latitude), Recovered(l.longitude)))
  {
    DmsAxisRoundTrip(l.latitude);
    DmsAxisRoundTrip(l.longitude);
  }

  // ---------------------------------------------------------------------------------------------
  // Text forms

  /** `%dº %s'`: signed degrees and formatted minutes. */
  function DdmAxisText(n: NumberText, degrees: int, minutes: real): string
  {
    IntText(degrees) + "º " + FormatWithoutTrailingZeros(n, minutes) + "'"
  }

  /** DegreesDecimalMinutes.toString: `"%dº %s', %dº %s'"`, signed degrees, so it starts with `-` for a southern degree part. */
  function DdmText(n: NumberText, d: DegreesDecimalMinutes): (r: string)
    ensures r != "" && (r[0] == '-' <==> d.latitudeDegrees < 0)
    ensures r[|r| - 1] == '\''
  {
    DdmAxisText(n, d.latitudeDegrees, d.latitudeDecimalMinutes) + ", " +
    DdmAxisText(n, d.longitudeDegrees, d.longitudeDecimalMinutes)
  }

  /** `degrees > 0 ? positive : negative`: the hemisphere letter. */
  function CardinalLetter(degrees: int, positive: char, negative: char): (c: char)
    ensures c == positive <==> degrees > 0 || positive == negative
  {
    if degrees > 0 then positive else negative
  }

  /** DegreesDecimalMinutes.toStringCardinal: `"%dº %s' %c, %dº %s' %c"` with |degrees|, so no sign, and a letter last. */
  function DdmCardinalText(n: NumberText, d: DegreesDecimalMinutes): (r: string)
    ensures r != "" && IsDigit(r[0])
    ensures r[|r| - 1] in "EW" && (r[|r| - 1] == 'E' <==> d.longitudeDegrees > 0)
  {
    DdmAxisText(n, IntAbs(d.latitudeDegrees), d.latitudeDecimalMinutes) + " " + [CardinalLetter(d.latitudeDegrees, 'N', 'S')] + ", " +
    DdmAxisText(n, IntAbs(d.longitudeDegrees), d.longitudeDecimalMinutes) + " " + [CardinalLetter(d.longitudeDegrees, 'E', 'W')]
  }

  /** `%dº %d' %s" %c` of one coordinate. */
  function DmsAxisText(n: NumberText, degrees: int, minutes: int, seconds: real, letter: char): string
  {
    IntText(IntAbs(degrees)) + "º " + IntText(minutes) + "' " + FormatWithoutTrailingZeros(n, seconds) + "\" " + [letter]
  }

  /** DegreesMinutesSeconds.toString: `"%dº %d' %s\" %c, …"`, unsigned degrees and a hemisphere letter last. */
  function DmsText(n: NumberText, d: DegreesMinutesSeconds): (r: string)
    ensures r != "" && IsDigit(r[0])
    ensures r[|r| - 1] in "EW" && (r[|r| - 1] == 'E' <==> d.longitudeDegrees > 0)
  {
    DmsAxisText(n, d.latitudeDegrees, d.latitudeMinutes, d.latitudeSeconds, CardinalLetter(d.latitudeDegrees, 'N', 'S')) + ", " +
    DmsAxisText(n, d.longitudeDegrees, d.longitudeMinutes, d.longitudeSeconds, CardinalLetter(d.longitudeDegrees, 'E', 'W'))
  }

  /** The letter printed for a coordinate x is the positive one exactly when x >= 1. */
  lemma CardinalOfCoordinate(x: real)
    ensures CardinalLetter(Trunc(x), 'N', 'S') == 'N' <==> x >= 1.0
    ensures CardinalLetter(Trunc(x), 'E', 'W') == 'E' <==> x >= 1.0
  {
  }

  // ---------------------------------------------------------------------------------------------
  // LatLongTest conversion0 to conversion3

  lemma ConversionNumbersExample()
    ensures DdmOf(LatLong(27.5, -82.75)) == DegreesDecimalMinutes(27, 30.0, -82, 45.0)
    ensures DmsOf(LatLong(27.5, -82.75)) == DegreesMinutesSeconds(27, 30, 0.0, -82, 45, 0.0)
    ensures DdmOf(LatLong(27.625, -82.875)) == DegreesDecimalMinutes(27, 37.5, -82, 52.5)
    ensures DmsOf(LatLong(27.625, -82.875)) == DegreesMinutesSeconds(27, 37, 30.0, -82, 52, 30.0)
    ensures DdmOf(LatLong(-27.5, 82.75)) == DegreesDecimalMinutes(-27, 30.0, 82, 45.0)
    ensures DmsOf(LatLong(-27.5, 82.75)) == DegreesMinutesSeconds(-27, 30, 0.0, 82, 45, 0.0)
  {
    assert Trunc(27.5) == 27 && Trunc(-82.75) == -82 && Trunc(27.625) == 27 && Trunc(-82.875) == -82;
    assert Trunc(-27.5) == -27 && Trunc(82.75) == 82;
    assert Trunc(30.0) == 30 && Trunc(45.0) == 45 && Trunc(37.5) == 37 && Trunc(52.5) == 52;
  }

  lemma ConversionRoundTripExample()
    ensures DdmGetLatLong(DdmOf(LatLong(27.5, -82.75))) == Ok(LatLong(27.5, -82.75))
    ensures DmsGetLatLong(DmsOf(LatLong(27.625, -82.875))) == Ok(LatLong(27.625, -82.875))
    ensures DdmGetLatLong(DdmOf(LatLong(-27.5, 82.75))) == Ok(LatLong(-27.5, 82.75))
  {
    DdmRoundTrip(LatLong(27.5, -82.75));
    DmsRoundTrip(LatLong(27.625, -82.875));
    DdmRoundTrip(LatLong(-27.5, 82.75));
  }

  lemma IntTextExamples()
    ensures IntText(0) == "0" && IntText(27) == "27" && IntText(-82) == "-82" && IntText(-27) == "-27"
    ensures IntText(82) == "82" && IntText(30) == "30" && IntText(45) == "45"
    ensures IntText(37) == "37" && IntText(52) == "52"
  {
    assert NaturalText(27) == NaturalText(2) + ['7'];
    assert NaturalText(82) == NaturalText(8) + ['2'];
    assert NaturalText(30) == NaturalText(3) + ['0'];
    assert NaturalText(45) == NaturalText(4) + ['5'];
    assert NaturalText(37) == NaturalText(3) + ['7'];
    assert NaturalText(52) == NaturalText(5) + ['2'];
  }

  lemma ZeroTextExample(n: NumberText)
    requires n.show(0.0) == "0.0"
    ensures DdmText(n, DdmOf(LatLong(0.0, 0.0))) == "0º 0', 0º 0'"
  {
    assert DdmOf(LatLong(0.0, 0.0)) == DegreesDecimalMinutes(0, 0.0, 0, 0.0);
    assert DdmAxisText(n, 0, 0.0) == "0º 0'" by {
      assert IntText(0) == "0";
      WholeNumberFormat(n, 0.0, "0");
    }
  }

  /** The coordinate texts of the DDM examples whose minutes are whole. */
  lemma WholeMinutesAxisTexts(n: NumberText)
    requires n.show(30.0) == "30.0" && n.show(45.0) == "45.0"
    ensures DdmAxisText(n, 27, 30.0) == "27º 30'"
    ensures DdmAxisText(n, -82, 45.0) == "-82º 45'"
    ensures DdmAxisText(n, 82, 45.0) == "82º 45'"
  {
    assert IntText(27) == "27" && IntText(-82) == "-82" && IntText(82) == "82" by {
      IntTextExamples();
    }
    WholeNumberFormat(n, 30.0, "30");
    WholeNumberFormat(n, 45.0, "45");
  }

  lemma DdmTextExample(n: NumberText)
    requires n.show(30.0) == "30.0" && n.show(45.0) == "45.0"
    ensures DdmText(n, DdmOf(LatLong(27.5, -82.75))) == "27º 30', -82º 45'"
  {
    assert DdmOf(LatLong(27.5, -82.75)) == DegreesDecimalMinutes(27, 30.0, -82, 45.0) by {
      ConversionNumbersExample();
    }
    WholeMinutesAxisTexts(n);
  }

  lemma DdmCardinalTextExample(n: NumberText)
    requires n.show(30.0) == "30.0" && n.show(45.0) == "45.0"
    ensures DdmCardinalText(n, DdmOf(LatLong(27.5, -82.75))) == "27º 30' N, 82º 45' W"
  {
    assert DdmOf(LatLong(27.5, -82.75)) == DegreesDecimalMinutes(27, 30.0, -82, 45.0) by {
      ConversionNumbersExample();
    }
    WholeMinutesAxisTexts(n);
    assert IntAbs(27) == 27 && IntAbs(-82) == 82;
    assert CardinalLetter(27, 'N', 'S') == 'N' && CardinalLetter(-82, 'E', 'W') == 'W';
  }

  lemma DdmSouthEastTextExample(n: NumberText)
    requires n.show(30.0) == "30.0" && n.show(45.0) == "45.0"
    ensures DdmCardinalText(n, DdmOf(LatLong(-27.5, 82.75))) == "27º 30' S, 82º 45' E"
  {
    assert DdmOf(LatLong(-27.5, 82.75)) == DegreesDecimalMinutes(-27, 30.0, 82, 45.0) by {
      ConversionNumbersExample();
    }
    WholeMinutesAxisTexts(n);
    assert IntAbs(-27) == 27 && IntAbs(82) == 82;
    assert CardinalLetter(-27, 'N', 'S') == 'S' && CardinalLetter(82, 'E', 'W') == 'E';
  }

  lemma DdmFractionTextExample(n: NumberText)
    requires n.show(37.5) == "37.5" && n.show(52.5) == "52.5"
    ensures DdmText(n, DdmOf(LatLong(27.625, -82.875))) == "27º 37.5', -82º 52.5'"
  {
    assert DdmOf(LatLong(27.625, -82.875)) == DegreesDecimalMinutes(27, 37.5, -82, 52.5) by {
      ConversionNumbersExample();
    }
    FractionMinutesAxisTexts(n);
  }

  /** The coordinate texts of the DDM example whose minutes have a fraction. */
  lemma FractionMinutesAxisTexts(n: NumberText)
    requires n.show(37.5) == "37.5" && n.show(52.5) == "52.5"
    ensures DdmAxisText(n, 27, 37.5) == "27º 37.5'"
    ensures DdmAxisText(n, -82, 52.5) == "-82º 52.5'"
  {
    assert DdmAxisText(n, 27, 37.5) == "27º 37.5'" by {
      assert IntText(27) == "27" by {
        IntTextExamples();
      }
      NonZeroEndingFormat(n, 37.5);
    }
    assert DdmAxisText(n, -82, 52.5) == "-82º 52.5'" by {
      assert IntText(-82) == "-82" by {
        IntTextExamples();
      }
      NonZeroEndingFormat(n, 52.5);
    }
  }

  lemma DmsTextExample(n: NumberText)
    requires n.show(0.0) == "0.0"
    ensures DmsText(n, DmsOf(LatLong(27.5, -82.75))) == "27º 30' 0\" N, 82º 45' 0\" W"
  {
    assert DmsOf(LatLong(27.5, -82.75)) == DegreesMinutesSeconds(27, 30, 0.0, -82, 45, 0.0) by {
      ConversionNumbersExample();
    }
    WholeSecondsAxisTexts(n);    assert CardinalLetter(27, 'N', 'S') == 'N' && CardinalLetter(-82, 'E', 'W') == 'W';
  }

  /** The coordinate texts of the DMS example with no seconds. */
  lemma WholeSecondsAxisTexts(n: NumberText)
    requires n.show(0.0) == "0.0"
    ensures DmsAxisText(n, 27, 30, 0.0, 'N') == "27º 30' 0\" N"
    ensures DmsAxisText(n, -82, 45, 0.0, 'W') == "82º 45' 0\" W"
  {
    WholeNumberFormat(n, 0.0, "0");
    assert DmsAxisText(n, 27, 30, 0.0, 'N') == "27º 30' 0\" N" by {
      assert IntText(27) == "27" && IntText(30) == "30" by {
        IntTextExamples();
      }
    }
    assert DmsAxisText(n, -82, 45, 0.0, 'W') == "82º 45' 0\" W" by {
      assert IntText(82) == "82" && IntText(45) == "45" by {
        IntTextExamples();
      }
    }
  }

  lemma DmsSecondsTextExample(n: NumberText)
    requires n.show(30.0) == "30.0"
    ensures DmsText(n, DmsOf(LatLong(27.625, -82.875))) == "27º 37' 30\" N, 82º 52' 30\" W"
  {
    assert DmsOf(LatLong(27.625, -82.875)) == DegreesMinutesSeconds(27, 37, 30.0, -82, 52, 30.0) by {
      ConversionNumbersExample();
    }
    HalfMinuteAxisTexts(n);    assert CardinalLetter(27, 'N', 'S') == 'N' && CardinalLetter(-82, 'E', 'W') == 'W';
  }

  /** The coordinate texts of the DMS example with 30 seconds. */
  lemma HalfMinuteAxisTexts(n: NumberText)
    requires n.show(30.0) == "30.0"
    ensures DmsAxisText(n, 27, 37, 30.0, 'N') == "27º 37' 30\" N"
    ensures DmsAxisText(n, -82, 52, 30.0, 'W') == "82º 52' 30\" W"
  {
    WholeNumberFormat(n, 30.0, "30");
    assert DmsAxisText(n, 27, 37, 30.0, 'N') == "27º 37' 30\" N" by {
      assert IntText(27) == "27" && IntText(37) == "37" by {
        IntTextExamples();
      }
    }
    assert DmsAxisText(n, -82, 52, 30.0, 'W') == "82º 52' 30\" W" by {
      assert IntText(82) == "82" && IntText(52) == "52" by {
        IntTextExamples();
      }
    }
  }

  // ---------------------------------------------------------------------------------------------
  // The sign of a coordinate between -1 and 0

  /** (-0.5, 0) through DDM or DMS comes back as (0.5, 0), and 0.5 is printed with `S`. */
  lemma SignLostExample()
    ensures DdmOf(LatLong(-0.5, 0.0)) == DegreesDecimalMinutes(0, 30.0, 0, 0.0)
    ensures DdmGetLatLong(DdmOf(LatLong(-0.5, 0.0))) == Ok(LatLong(0.5, 0.0))
    ensures DmsGetLatLong(DmsOf(LatLong(-0.5, 0.0))) == Ok(LatLong(0.5, 0.0))
    ensures CardinalLetter(DdmOf(LatLong(0.5, 0.0)).latitudeDegrees, 'N', 'S') == 'S'
  {
    DdmRoundTrip(LatLong(-0.5, 0.0));
    DmsRoundTrip(LatLong(-0.5, 0.0));
  }

  /** One coordinate as a hemisphere flag and unsigned degrees and minutes, so no sign is lost. */
  datatype SignedDegreesMinutes = SignedDegreesMinutes(negative: bool, degrees: nat, minutes: real)

  function SignedDdmOf(x: real): (a: SignedDegreesMinutes)
    ensures a.negative <==> x < 0.0
    ensures 0.0 <= a.minutes < 60.0
  {
    SignedDegreesMinutes(x < 0.0, Abs(x).Floor, DecimalMinutes(x))
  }

  function SignedDdmValue(a: SignedDegreesMinutes): real
  {
    var magnitude := a.degrees as real + a.minutes / 60.0;
    if a.negative then -magnitude else magnitude
  }

  /** The hemisphere letter taken from the flag. */
  function SignedCardinal(a: SignedDegreesMinutes, positive: char, negative: char): char
  {
    if a.negative then negative else positive
  }

  /** With the sign kept apart, every coordinate survives the round trip. */
  lemma SignedDdmRoundTrip(x: real)
    ensures SignedDdmValue(SignedDdmOf(x)) == x
  {
    TruncOfMagnitude(x);
  }

  /** With the sign kept apart, the letter is the positive one exactly for x >= 0. */
  lemma SignedCardinalIsHemisphere(x: real)
    ensures SignedCardinal(SignedDdmOf(x), 'N', 'S') == 'N' <==> x >= 0.0
  {
  }

  /** The same correction for degrees, minutes and seconds. */
  datatype SignedDegreesMinutesSeconds = SignedDegreesMinutesSeconds(negative: bool, degrees: nat, minutes: nat, seconds: real)

  function SignedDmsOf(x: real): (a: SignedDegreesMinutesSeconds)
    ensures a.negative <==> x < 0.0
    ensures a.minutes <= 59 && 0.0 <= a.seconds < 60.0
  {
    TruncOfMagnitude(x);
    SignedDegreesMinutesSeconds(x < 0.0, Abs(x).Floor, WholeMinutes(x), Seconds(x))
  }

  function SignedDmsValue(a: SignedDegreesMinutesSeconds): real
  {
    var magnitude := a.degrees as real + a.minutes as real / 60.0 + a.seconds / 3600.0;
    if a.negative then -magnitude else magnitude
  }

  lemma SignedDmsRoundTrip(x: real)
    ensures SignedDmsValue(SignedDmsOf(x)) == x
  {
    DmsAxisRoundTrip(x);
    TruncOfMagnitude(x);
  }
}
