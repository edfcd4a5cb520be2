/**
 * Decimal text: the numerals Double.toString produces and Double.parseDouble reads back,
 * LatLong.formatWithoutTrailingZeros, and the `%d` rendering of an int.
 */
module Numerals {
  import opened Outcomes
  import opened JavaText

  predicate IsDigit(c: char)
  {
    '0' <= c <= '9'
  }

  predicate AllDigits(s: string)
  {
    forall i :: 0 <= i < |s| ==> IsDigit(s[i])
  }

  function DigitValue(c: char): nat
    requires IsDigit(c)
  {
    c as int - '0' as int
  }

  function DigitChar(d: nat): (c: char)
    requires d < 10
    ensures IsDigit(c) && DigitValue(c) == d
  {
    ('0' as int + d) as char
  }

  /** The value of the digits before the decimal point. */
  function WholeValue(ds: string): nat
    requires AllDigits(ds)
  {
    if ds == [] then 0 else 10 * WholeValue(ds[..|ds| - 1]) + DigitValue(ds[|ds| - 1])
  }

  /** The value of the digits after the decimal point. */
  function FractionValue(ds: string): (r: real)
    requires AllDigits(ds)
    ensures 0.0 <= r < 1.0
  {
    if ds == [] then 0.0 else (DigitValue(ds[0]) as real + FractionValue(ds[1..])) / 10.0
  }

  /** A plain decimal numeral `-?D+(.D+)?`; Double.toString writes every double between 10^-3 and 10^7 in magnitude this way. */
  datatype Numeral = Numeral(negative: bool, whole: string, fraction: string)

  predicate WellFormed(m: Numeral)
  {
    m.whole != "" && AllDigits(m.whole) && AllDigits(m.fraction)
  }

  function Sign(m: Numeral): string
  {
    if m.negative then "-" else ""
  }

  function Text(m: Numeral): string
  {
    Sign(m) + m.whole + (if m.fraction == "" then "" else "." + m.fraction)
  }

  function Value(m: Numeral): real
    requires WellFormed(m)
  {
    var magnitude := WholeValue(m.whole) as real + FractionValue(m.fraction);
    if m.negative then -magnitude else magnitude
  }

  /** Double.toString and Double.parseDouble: the model does not implement them. */
  datatype NumberText = NumberText(show: real -> string, parse: string -> Option<real>)

  /**
   * What the model relies on: when Double.toString writes a number as a plain decimal numeral,
   * that numeral's value is the number; and a plain decimal numeral parses to its exact value.
   * Numbers printed in any other form (scientific notation) are not constrained.
   */
  ghost predicate Lawful(n: NumberText)
  {
    (forall x, m :: WellFormed(m) && n.show(x) == Text(m) ==> Value(m) == x) &&
    (forall m :: WellFormed(m) ==> n.parse(Text(m)) == Some(Value(m)))
  }

  /** LatLong.formatWithoutTrailingZeros (src/main/java/org/enki/geo/LatLong.java:263-265). */
  function FormatWithoutTrailingZeros(n: NumberText, x: real): (r: string)
    ensures r <= n.show(x)
  {
    StripTrailingZeros(n.show(x))
  }

  // ---------------------------------------------------------------------------------------------
  // Stripping trailing zeros keeps the value of a plain numeral

  lemma {:induction false} ZerosHaveNoValue(ds: string)
    requires AllZeros(ds)
    ensures AllDigits(ds) && FractionValue(ds) == 0.0
  {
    if ds != [] {
      ZerosHaveNoValue(ds[1..]);
    }
  }

  /** On fraction digits, stripping removes exactly the trailing zeros and keeps the value. */
  lemma {:induction false} StripFractionDigits(ds: string)
    requires AllDigits(ds)
    ensures AllDigits(StripTrailingZeros(ds))
    ensures FractionValue(StripTrailingZeros(ds)) == FractionValue(ds)
    ensures StripTrailingZeros(ds) == "" <==> AllZeros(ds)
  {
    if ds != [] {
      if MatchesDotZeros(ds) {
        assert AllZeros(ds);
        ZerosHaveNoValue(ds);
      } else {
        assert !AllZeros(ds);
        StripFractionDigits(ds[1..]);
        var rest := StripTrailingZeros(ds[1..]);
        assert StripTrailingZeros(ds) == [ds[0]] + rest;
        assert ([ds[0]] + rest)[1..] == rest;
      }
    } else {
      assert MatchesDotZeros(ds);
    }
  }

  /** The numeral with the trailing zeros of its fraction removed. */
  function Trimmed(m: Numeral): Numeral
  {
    m.(fraction := StripTrailingZeros(m.fraction))
  }

  /**
   * formatWithoutTrailingZeros on a numeral with a fraction: the result is the same numeral with
   * its fraction's trailing zeros (and the point, if nothing else is left) removed, and it has
   * the same value. In particular "25.0" becomes "25".
   */
  lemma {:induction false} StripNumeral(m: Numeral)
    requires WellFormed(m) && m.fraction != ""
    ensures StripTrailingZeros(Text(m)) == Text(Trimmed(m))
    ensures WellFormed(Trimmed(m)) && Value(Trimmed(m)) == Value(m)
  {
    var prefix := Sign(m) + m.whole;
    var rest := "." + m.fraction;
    assert Text(m) == prefix + rest;
    IntegerPartIsKept(m);
    StripAppend(prefix, rest);
    StripFractionDigits(m.fraction);
    assert rest[0] == '.' && rest[1..] == m.fraction;
    if AllZeros(m.fraction) {
      assert MatchesDotZeros(rest);
      ZerosHaveNoValue(m.fraction);
    } else {
      assert !MatchesDotZeros(rest);
      assert StripTrailingZeros(rest) == "." + StripTrailingZeros(m.fraction);
    }
  }

  /** No suffix that starts in the sign or the whole digits of a numeral with a fraction matches `\.?0*`. */
  lemma IntegerPartIsKept(m: Numeral)
    requires WellFormed(m) && m.fraction != ""
    ensures forall p :: 0 <= p < |Sign(m) + m.whole| ==> !MatchesDotZeros(Text(m)[p..])
  {
    var prefix := Sign(m) + m.whole;
    var rest := "." + m.fraction;
    assert Text(m) == prefix + rest;
    forall p | 0 <= p < |prefix|
      ensures !MatchesDotZeros((prefix + rest)[p..])
    {
      var t := (prefix + rest)[p..];
      assert t[|prefix| - p] == '.';
      assert t[0] == prefix[p];
      assert prefix[p] != '.' by {
        if m.negative && p == 0 {
        } else {
          var q := if m.negative then p - 1 else p;
          assert prefix[p] == m.whole[q];
          assert IsDigit(m.whole[q]);
        }
      }
      assert !AllZeros(t);
      assert |t| > 1 && t[1..][|prefix| - p - 1] == '.';
    }
  }

  lemma {:induction false} NumeralCharacters(m: Numeral)
    requires WellFormed(m)
    ensures ',' !in Text(m) && ';' !in Text(m) && 'E' !in Text(m) && Text(m) != ""
  {
    var t := Text(m);
    forall i | 0 <= i < |t|
      ensures t[i] != ',' && t[i] != ';' && t[i] != 'E'
    {
      var s := Sign(m);
      if i < |s| {
      } else if i < |s| + |m.whole| {
        assert t[i] == m.whole[i - |s|];
      } else if m.fraction != "" {
        if i > |s| + |m.whole| {
          assert t[i] == m.fraction[i - |s| - |m.whole| - 1];
        }
      }
    }
  }

  /**
   * Formatting then parsing gives the number back whenever Double.toString writes it as a plain
   * numeral; the formatted text is never empty and holds no `,` or `;`, so a geo URI can carry it.
   */
  lemma FormatRoundTrip(n: NumberText, x: real, m: Numeral)
    requires Lawful(n) && WellFormed(m) && m.fraction != "" && n.show(x) == Text(m)
    ensures n.parse(FormatWithoutTrailingZeros(n, x)) == Some(x)
    ensures FormatWithoutTrailingZeros(n, x) == Text(Trimmed(m))
    ensures ',' !in FormatWithoutTrailingZeros(n, x) && ';' !in FormatWithoutTrailingZeros(n, x)
    ensures FormatWithoutTrailingZeros(n, x) != ""
  {
    StripNumeral(m);
    assert n.parse(Text(m)) == Some(Value(m));
    assert Value(m) == x;
    assert n.parse(Text(Trimmed(m))) == Some(Value(Trimmed(m)));
    NumeralCharacters(Trimmed(m));
  }

  /** Double.toString writes a whole number as `D.0`; the formatted text is `D` (so 25.0 gives "25"). */
  lemma WholeNumberFormat(n: NumberText, x: real, digits: string)
    requires digits != "" && AllDigits(digits) && n.show(x) == digits + ".0"
    ensures FormatWithoutTrailingZeros(n, x) == digits
  {
    var m := Numeral(false, digits, "0");
    assert Text(m) == digits + ".0";
    StripNumeral(m);
    assert StripTrailingZeros("0") == "" by {
      assert MatchesDotZeros("0");
    }
    assert Text(Trimmed(m)) == digits;
  }

  /** A rendering that ends in a digit other than 0 is kept as it is (so "25.25" stays "25.25"). */
  lemma NonZeroEndingFormat(n: NumberText, x: real)
    requires n.show(x) != "" && n.show(x)[|n.show(x)| - 1] != '0' && n.show(x)[|n.show(x)| - 1] != '.'
    ensures FormatWithoutTrailingZeros(n, x) == n.show(x)
  {
    StripKeepsNonZeroEnding(n.show(x));
  }

  // ---------------------------------------------------------------------------------------------
  // Numbers Double.toString writes in computerized scientific notation

  /**
   * Double.toString writes 10^-10 as "1.0E-10"; the regex then takes the exponent's final 0 for
   * a trailing zero, and the text reads back as 10^-1.
   */
  lemma ExponentZeroIsStripped(n: NumberText)
    requires n.show(0.0000000001) == "1.0E-10"
    ensures FormatWithoutTrailingZeros(n, 0.0000000001) == "1.0E-1"
  {
    var mantissa, tail := "1.0E-1", "0";
    assert mantissa + tail == "1.0E-10";
    forall p | 0 <= p < |mantissa|
      ensures !MatchesDotZeros((mantissa + tail)[p..])
    {
      var suffix := (mantissa + tail)[p..];
      if p <= 3 {
        LetterDefeatsMatch(suffix, 3 - p);
      } else {
        assert suffix[0] != '0' && suffix[0] != '.';
      }
    }
    StripAppend(mantissa, tail);
    assert MatchesDotZeros(tail);
  }

  /** A text with a letter in it is not a run of zeros, with or without a leading dot. */
  lemma LetterDefeatsMatch(s: string, i: int)
    requires 0 <= i < |s| && s[i] == 'E'
    ensures !MatchesDotZeros(s)
  {
    if |s| > 0 && s[0] == '.' {
      assert s[1..][i - 1] == 'E';
    }
  }

  /** The evident intent of formatWithoutTrailingZeros: strip the zeros of the mantissa only. */
  function StripMantissaZeros(s: string): string
  {
    var k := IndexOf(s, 'E');
    StripTrailingZeros(s[..k]) + s[k..]
  }

  /** On plain numerals the corrected formatter agrees with the regex. */
  lemma StripMantissaZerosOfPlain(s: string)
    requires 'E' !in s
    ensures StripMantissaZeros(s) == StripTrailingZeros(s)
  {
    var k := IndexOf(s, 'E');
    assert s[..k] == s;
  }

  /**
   * On scientific notation the corrected formatter trims only the mantissa, keeps its value, and
   * leaves the exponent as written.
   */
  lemma StripMantissaZerosOfScientific(m: Numeral, exponent: string)
    requires WellFormed(m) && m.fraction != ""
    ensures StripMantissaZeros(Text(m) + "E" + exponent) == Text(Trimmed(m)) + "E" + exponent
    ensures WellFormed(Trimmed(m)) && Value(Trimmed(m)) == Value(m)
  {
    var s := Text(m) + "E" + exponent;
    NumeralCharacters(m);
    var k := IndexOf(s, 'E');
    assert s[|Text(m)|] == 'E';
    assert k == |Text(m)|;
    assert s[..k] == Text(m) && s[k..] == "E" + exponent;
    StripNumeral(m);
  }

  // ---------------------------------------------------------------------------------------------
  // The `%d` conversion of String.format

  /** The decimal digits of k, most significant first, without leading zeros. */
  function NaturalText(k: nat): (s: string)
    ensures s != "" && AllDigits(s)
    ensures |s| > 1 ==> s[0] != '0'
  {
    if k < 10 then [DigitChar(k)]
    else
      var s := NaturalText(k / 10) + [DigitChar(k % 10)];
      assert s[..|s| - 1] == NaturalText(k / 10);
      s
  }

  /** The digits read back as a whole number give k. */
  lemma {:induction false} NaturalTextValue(k: nat)
    ensures WholeValue(NaturalText(k)) == k
  {
    if k >= 10 {
      NaturalTextValue(k / 10);
      var s := NaturalText(k);
      assert s[..|s| - 1] == NaturalText(k / 10);
    }
  }

  /** `String.format("%d", i)`: an optional minus sign and the decimal digits of |i|. */
  function IntText(i: int): (s: string)
    ensures s != "" && (s[0] == '-' <==> i < 0)
  {
    if i < 0 then "-" + NaturalText(-i) else NaturalText(i)
  }

  /** The numeral `%d` writes for i: no fraction, and its value is i. */
  function IntNumeral(i: int): (m: Numeral)
    ensures WellFormed(m) && m.fraction == "" && Text(m) == IntText(i)
    ensures Value(m) == i as real
  {
    var m := Numeral(i < 0, NaturalText(if i < 0 then -i else i), "");
    NaturalTextValue(if i < 0 then -i else i);
    m
  }

  /** The text of an int is a plain numeral whose value is the int, so it parses back to it. */
  lemma IntTextRoundTrip(n: NumberText, i: int)
    requires Lawful(n)
    ensures n.parse(IntText(i)) == Some(i as real)
  {
    var m := IntNumeral(i);
    assert n.parse(Text(m)) == Some(Value(m));
  }

  // ---------------------------------------------------------------------------------------------
  // Lawful number texts exist

  /**
   * Double.parseDouble restricted to plain decimal numerals: an optional `-`, digits, and an
   * optional `.` followed by at least one digit; anything else is malformed.
   */
  function ReadNumeral(s: string): Option<real>
  {
    if s != [] && s[0] == '-' then ReadUnsigned(true, s[1..]) else ReadUnsigned(false, s)
  }

  /** The numeral after its sign: the digits up to the first `.`, and the digits after it. */
  function ReadUnsigned(negative: bool, body: string): Option<real>
  {
    var k := IndexOf(body, '.');
    var m := Numeral(negative, body[..k], if k < |body| then body[k + 1..] else "");
    if WellFormed(m) && (k < |body| ==> m.fraction != "") then Some(Value(m)) else None
  }

  /** Every plain decimal numeral is read back as its value, so two numerals with one text have one value. */
  lemma ReadNumeralOfText(m: Numeral)
    requires WellFormed(m)
    ensures ReadNumeral(Text(m)) == Some(Value(m))
  {
    var body := m.whole + (if m.fraction == "" then "" else "." + m.fraction);
    assert Text(m) == Sign(m) + body;
    assert body[0] == m.whole[0] && IsDigit(body[0]);
    ReadSigned(m.negative, body);
    ReadUnsignedOfText(m);
  }

  /** A numeral is read by its sign and then its unsigned part. */
  lemma ReadSigned(negative: bool, body: string)
    requires body != [] && body[0] != '-'
    ensures ReadNumeral((if negative then "-" else "") + body) == ReadUnsigned(negative, body)
  {
    var s := (if negative then "-" else "") + body;
    if negative {
      assert s[0] == '-' && s[1..] == body;
    } else {
      assert s == body;
    }
  }

  /** The unsigned part of a plain decimal numeral is read back as the numeral's value. */
  lemma ReadUnsignedOfText(m: Numeral)
    requires WellFormed(m)
    ensures ReadUnsigned(m.negative, m.whole + (if m.fraction == "" then "" else "." + m.fraction)) == Some(Value(m))
  {
    var tail := if m.fraction == "" then "" else "." + m.fraction;
    var body := m.whole + tail;
    DotEndsWholePart(m.whole, tail);
    var k := IndexOf(body, '.');
    assert body[..k] == m.whole;
    assert k < |body| ==> body[k + 1..] == m.fraction;
  }

  /** In digits followed by nothing or by `.…`, the first `.` is the one after the digits. */
  lemma DotEndsWholePart(whole: string, tail: string)
    requires AllDigits(whole) && (tail == "" || tail[0] == '.')
    ensures IndexOf(whole + tail, '.') == |whole|
  {
    var body := whole + tail;
    var k := IndexOf(body, '.');
    assert forall i :: 0 <= i < k ==> body[..k][i] == body[i] != '.';
    assert tail != "" ==> body[|whole|] == '.';
  }

  /** A whole number as `%d` writes it; any other number as a text that is not a plain numeral. */
  function ShowWhole(x: real): string
  {
    if x == x.Floor as real then IntText(x.Floor) else "?"
  }

  /**
   * A number text that satisfies Lawful: it shows numbers with ShowWhole and reads plain
   * numerals exactly.
   */
  lemma LawfulIsSatisfiable()
    ensures Lawful(NumberText(ShowWhole, ReadNumeral))
  {
    var n := NumberText(ShowWhole, ReadNumeral);
    forall x, m | WellFormed(m) && n.show(x) == Text(m)
      ensures Value(m) == x
    {
      assert IsDigit(Text(m)[0]) || Text(m)[0] == '-';
      assert x == x.Floor as real;
      var w := IntNumeral(x.Floor);
      ReadNumeralOfText(m);
      ReadNumeralOfText(w);
    }
    forall m | WellFormed(m)
      ensures n.parse(Text(m)) == Some(Value(m))
    {
      ReadNumeralOfText(m);
    }
  }
}
