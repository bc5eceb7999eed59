/**
  The few pieces of java.lang that the figure core depends on: 32-bit `int`
  arithmetic with wrap-around, and the exceptions the core throws, folded into
  a `Result` type so that every error path is a value.
 */
module Lang {

  const IntMin: int := -0x8000_0000
  const IntMax: int := 0x7FFF_FFFF
  const Modulus: int := 0x1_0000_0000

  /** A Java `int`. */
  type Int32 = x: int | IntMin <= x <= IntMax

  /** Java `int` arithmetic: the mathematical result reduced into the 32-bit range. */
  function Wrap(x: int): (r: Int32)
    ensures (r - x) % Modulus == 0
    ensures IntMin <= x <= IntMax ==> r == x
  {
    (x - IntMin) % Modulus + IntMin
  }

  /** Two integers that differ by a multiple of 2^32 wrap to the same `int`. */
  lemma WrapCongruent(x: int, y: int)
    requires (x - y) % Modulus == 0
    ensures Wrap(x) == Wrap(y)
  {
    var k := (x - y) / Modulus;
    assert x == y + k * Modulus;
    assert (x - IntMin) % Modulus == (y - IntMin + k * Modulus) % Modulus;
  }

  /** Translating both ends of a difference by the same `int` offset leaves the
      wrapped difference as it was. */
  lemma WrapDifferenceTranslated(a: Int32, b: Int32, d: Int32)
    ensures Wrap(Wrap(b + d) - Wrap(a + d)) == Wrap(b - a)
  {
    var u, v := Wrap(b + d), Wrap(a + d);
    assert ((u - v) - (b - a)) == (u - (b + d)) - (v - (a + d));
    assert ((u - v) - (b - a)) % Modulus == 0 by {
      var p := (u - (b + d)) / Modulus;
      var q := (v - (a + d)) / Modulus;
      assert u - (b + d) == p * Modulus;
      assert v - (a + d) == q * Modulus;
      assert (u - v) - (b - a) == (p - q) * Modulus;
    }
    WrapCongruent(u - v, b - a);
  }

  /** Adding an `int` offset and then subtracting it again restores the value. */
  lemma WrapAddInverse(a: Int32, d: Int32)
    ensures Wrap(Wrap(a + d) - d) == a
  {
    var u := Wrap(a + d);
    assert ((u - d) - a) % Modulus == 0 by {
      var p := (u - (a + d)) / Modulus;
      assert u - (a + d) == p * Modulus;
      assert (u - d) - a == p * Modulus;
    }
    WrapCongruent(u - d, a);
  }

  datatype Option<+T> = None | Some(value: T)

  /** Why the geometry or the record parser refused its input
      (an `InvalidPolygonException`). Side numbers are 1-based, as reported. */
  datatype PolygonFault =
    | TooFewVertices
    | TooFewSides
    | NonPositiveSide(side: nat)
    | InequalityViolated(side: nat)
    | MissingCoordinates
    | InsufficientVertices(count: nat)
    | MalformedOpacity(text: string)

  /** Why a styling argument or a stored coordinate string was refused
      (an `IllegalArgumentException`). */
  datatype ArgumentFault =
    | MalformedColor(field: string, color: Option<string>)
    | OpacityOutOfRange(opacity: real)
    | MalformedCoordinates

  /** The exceptions that can leave the core. */
  datatype Error =
    | InvalidPolygon(polygonFault: PolygonFault)
    | IllegalArgument(argumentFault: ArgumentFault)
    | NumberFormat(input: string)
    | IndexOutOfBounds

  datatype Result<+T> = Ok(value: T) | Err(error: Error) {
    predicate IsFailure() {
      Err?
    }

    function PropagateFailure<U>(): Result<U>
      requires Err?
    {
      Err(error)
    }

    function Extract(): T
      requires Ok?
    {
      value
    }
  }

  /** The verdict of a validation routine that returns normally or throws. */
  datatype Outcome = Pass | Fail(fault: PolygonFault)
}
