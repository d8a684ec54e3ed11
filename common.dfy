/** Shared vocabulary: nullable values, the failures the services raise, Java's `int`. */
module Common {

  /** A Java reference that may be null (`None`) or an `Optional`. */
  datatype Option<+T> = None | Some(value: T)

  /** The exceptions the core throws, each with its reason text.
      `NotFound` and `BadRequest` are `ResponseStatusException`s with status 404 and 400;
      `IllegalArgument` is the `IllegalArgumentException` thrown by `Enum.valueOf`. */
  datatype Error =
    | NotFound(reason: string)
    | BadRequest(reason: string)
    | IllegalArgument(reason: string)

  /** The outcome of an operation that either returns a value or throws. */
  datatype Result<+T> = Success(value: T) | Failure(error: Error)

  const INT_MIN: int := -0x8000_0000
  const INT_MAX: int := 0x7fff_ffff

  /** Java's 32-bit `int`. */
  type int32 = x: int | INT_MIN <= x <= INT_MAX

  /** Two's-complement wrap-around of an exact result into Java's `int`. */
  function Wrap32(x: int): (r: int32)
    ensures (r - x) % 0x1_0000_0000 == 0
    ensures INT_MIN <= x <= INT_MAX ==> r == x
  {
    var m := x % 0x1_0000_0000;
    if m > INT_MAX then m - 0x1_0000_0000 else m
  }

  /** A `LocalDateTime`, taken as an opaque instant supplied by the caller. */
  type Timestamp = int
}
