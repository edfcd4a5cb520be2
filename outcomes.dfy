/** Failure values shared by the whole model: each Java exception the core throws becomes an `Err`. */
module Outcomes {

  datatype Option<+T> = None | Some(value: T)

  /** Which coordinate a range check rejected. */
  datatype Axis = Latitude | Longitude

  datatype GeoError =
      /** IllegalArgumentException("invalid latitude …" / "invalid longitude …") from a constructor. */
    | InvalidCoordinate(axis: Axis, value: real)
      /** IllegalArgumentException("unexpected scheme …") from the geo URI constructor. */
    | UnexpectedScheme(scheme: string)
      /** ArrayIndexOutOfBoundsException: a geo URI without the field at this index. */
    | IndexOutOfBounds(index: nat)
      /** NumberFormatException from Double.parseDouble. */
    | MalformedNumber(text: string)
      /** IllegalArgumentException("cannot compute distance between 2D and 3D location"). */
    | DimensionMismatch
      /** IllegalArgumentException("an empty route is not valid"). */
    | EmptyRoute
      /** IllegalArgumentException for a heading outside [0, 360). */
    | InvalidHeading(degrees: real)

  datatype Result<+T> = Ok(value: T) | Err(error: GeoError)
}

/** Real-number stand-ins for the java.lang.Math operations and casts the core uses. */
module RealMath {

  /** java.lang.Math.PI. */
  const Pi: real := 3.141592653589793

  function Abs(x: real): (r: real)
    ensures r >= 0.0 && (r == x || r == -x)
  {
    if x < 0.0 then -x else x
  }

  function Sq(x: real): (r: real)
    ensures r >= 0.0
  {
    x * x
  }

  function ToRadians(degrees: real): real
  {
    degrees * Pi / 180.0
  }

  function ToDegrees(radians: real): real
  {
    radians * 180.0 / Pi
  }

  /** Java's `(int) x` cast of a double: truncation toward zero (the int range is not modelled). */
  function Trunc(x: real): (r: int)
    ensures x >= 0.0 ==> r >= 0 && r as real <= x < r as real + 1.0
    ensures x < 0.0 ==> r <= 0 && r as real - 1.0 < x <= r as real
  {
    if x >= 0.0 then x.Floor else -((-x).Floor)
  }

  /** Math.copySign(magnitude, sign) where the sign is an int converted to double, so it is never -0.0. */
  function CopySign(magnitude: real, sign: int): (r: real)
    ensures Abs(r) == Abs(magnitude)
    ensures sign < 0 ==> r <= 0.0
    ensures sign >= 0 ==> r >= 0.0
  {
    if sign < 0 then -Abs(magnitude) else Abs(magnitude)
  }
}
