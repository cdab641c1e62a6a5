/** Java-side vocabulary shared by the model: nullable values, thrown exceptions,
    and the fixed-width integer arithmetic of the JVM. */
module Java {

  /** A Java reference that may be null. */
  datatype Option<+T> = None | Some(value: T)

  /** The exceptions the modelled code can throw. `IOException` and
      `RuntimeException` wrap the `StorjException` they were built from. */
  datatype Exception =
    | StorjException(message: string)
    | IOException(cause: Exception)
    | RuntimeException(cause: Exception)
    | NullPointerException
    | IndexOutOfBoundsException

  /** Either a normal return with a value, or a thrown exception. */
  datatype Result<+T> = Ok(value: T) | Err(error: Exception)

  const INT_MIN: int := -0x8000_0000
  const INT_MAX: int := 0x7fff_ffff
  const LONG_MIN: int := -0x8000_0000_0000_0000
  const LONG_MAX: int := 0x7fff_ffff_ffff_ffff

  predicate IsInt(x: int) { INT_MIN <= x <= INT_MAX }
  predicate IsLong(x: int) { LONG_MIN <= x <= LONG_MAX }

  /** A Java `byte`: signed, eight bits. */
  type JByte = b: int | -128 <= b < 128

  /** Two's-complement wrap-around of `int` arithmetic. */
  function WrapInt(x: int): (r: int)
    ensures IsInt(r)
    ensures (r - x) % 0x1_0000_0000 == 0
    ensures IsInt(x) ==> r == x
  {
    (x - INT_MIN) % 0x1_0000_0000 + INT_MIN
  }

  /** Two's-complement wrap-around of `long` arithmetic. */
  function WrapLong(x: int): (r: int)
    ensures IsLong(r)
    ensures (r - x) % 0x1_0000_0000_0000_0000 == 0
    ensures IsLong(x) ==> r == x
  {
    (x - LONG_MIN) % 0x1_0000_0000_0000_0000 + LONG_MIN
  }

  /** The `(byte) b` cast: keeps the eight low-order bits as a signed byte. */
  function ToByte(b: int): (r: JByte)
    ensures (r - b) % 256 == 0
    ensures -128 <= b < 128 ==> r == b
  {
    (b + 128) % 256 - 128
  }

  /** `ms / 1000` in Java, which truncates toward zero (Dafny's `/` is Euclidean):
      the seconds of a `Date.getTime()` value. */
  function MillisToSeconds(ms: int): (s: int)
    ensures ms >= 0 ==> 0 <= s * 1000 <= ms < s * 1000 + 1000
    ensures ms < 0 ==> s * 1000 - 1000 < ms <= s * 1000 <= 0
  {
    if ms >= 0 then ms / 1000 else -((-ms) / 1000)
  }
}
