/** Shared value types of the driver: bytes, optional values, and the
    exceptions the driver raises, folded into a result type. */
module Wrappers {

  /** One octet, as the C# `byte` type. */
  type Byte = b: int | 0 <= b < 0x100

  type Bytes = seq<Byte>

  datatype Option<+T> = None | Some(value: T)

  /** The exceptions the driver throws (its own and the .NET ones its code
      can raise), one case each. */
  datatype Error =
    | ArgumentOutOfRange    // ArgumentOutOfRangeException (range checks, invalid DateTime)
    | ArgumentError         // ArgumentException (more than 6 active timers)
    | InvalidOperation      // InvalidOperationException (unsupported on this protocol)
    | UnknownProtocol       // UnknownProtocolException
    | UnknownMode           // UnknownModeException
    | UnrecognizedTimer     // the bare Exception thrown by LedTimer.FromBytes
    | ResponseTooShort      // the bare Exception thrown by GetTimers
    | SocketError           // SocketException (failure or receive time-out)
    | NullReference         // NullReferenceException
    | IndexOutOfRange       // IndexOutOfRangeException

  datatype Result<+T> = Success(value: T) | Failure(error: Error) {
    predicate IsFailure() { Failure? }

    function PropagateFailure<U>(): Result<U>
      requires Failure?
    {
      Failure(error)
    }

    function Extract(): T
      requires Success?
    {
      value
    }
  }

  /** The sum of a byte sequence, as `bytes.Sum(x => (int)x)`. */
  function Sum(s: Bytes): (n: nat)
    ensures n <= 255 * |s|
  {
    if s == [] then 0 else Sum(s[..|s| - 1]) + s[|s| - 1]
  }
}
