/** Shared vocabulary of the model: optional values, bytes, the Java
    exceptions the converter code throws or catches, a failure-compatible
    result type, and the decimal rendering Java uses when an `int` is
    concatenated into an exception message. */
module Common {

  datatype Option<+T> = None | Some(value: T)

  newtype byte = b: int | 0 <= b < 256

  /** The exception classes that matter to the code: the ones it throws, the
      ones its handler distinguishes, and everything else. */
  datatype ExceptionKind =
    | IllegalArgument          // java.lang.IllegalArgumentException
    | StringIndexOutOfBounds   // java.lang.StringIndexOutOfBoundsException
    | ArrayIndexOutOfBounds    // java.lang.ArrayIndexOutOfBoundsException
    | FileNotFound             // java.io.FileNotFoundException
    | FileConversion           // the application's FileConversionException
    | MaxUploadSizeExceeded    // the upload limit exception of the web framework
    | Unclassified             // any other exception, e.g. a format library's parse error

  /** A thrown exception: its class and what getMessage() returns. */
  datatype Exception = Exception(kind: ExceptionKind, message: string)

  /** A computation that either returns a value or throws. */
  datatype Result<+T> = Ok(value: T) | Err(error: Exception) {

    predicate IsFailure() {
      Err?
    }

    function PropagateFailure<U>(): Result<U>
      requires Err?
    {
      Err(error)
    }

    function Extract(): T
      requires Ok?
    {
      value
    }
  }

  predicate IsDigit(c: char) {
    '0' <= c <= '9'
  }

  function DigitChar(d: nat): (c: char)
    requires d < 10
    ensures IsDigit(c) && DigitOf(c) == d
  {
    ['0', '1', '2', '3', '4', '5', '6', '7', '8', '9'][d]
  }

  /** The number a string of decimal digits denotes. */
  function DecimalValue(s: string): nat
    requires forall i :: 0 <= i < |s| ==> IsDigit(s[i])
  {
    if |s| == 0 then 0
    else DecimalValue(s[..|s| - 1]) * 10 + DigitOf(s[|s| - 1])
  }

  function DigitOf(c: char): nat
    requires IsDigit(c)
  {
    c as int - '0' as int
  }

  /** Java's rendering of a non-negative int inside a string concatenation. */
  function NatToString(n: nat): (s: string)
    ensures 0 < |s|
    ensures forall i :: 0 <= i < |s| ==> IsDigit(s[i])
    ensures DecimalValue(s) == n
  {
    if n < 10 then [DigitChar(n)]
    else
      var prefix := NatToString(n / 10);
      var s := prefix + [DigitChar(n % 10)];
      assert s[..|s| - 1] == prefix;
      s
  }
}
