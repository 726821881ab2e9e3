/** Value types shared by every part of the B3M driver model. */
module Types {

  /** An octet: Go's `byte`. */
  type byte = x: int | 0 <= x < 256

  /** Go's `int16`. */
  type int16 = x: int | -0x8000 <= x < 0x8000

  /** Go's conversion `byte(x)` of an integer: the low eight bits of its two's-complement form. */
  function ToByte(x: int): byte
  {
    x % 256
  }

  datatype Option<T> = None | Some(value: T)

  /** The errors the driver hands back to its caller. */
  datatype Error =
    | Timeout              // errors.New("timeout"): an empty first read, or the reply timer fired
    | EndOfInput           // io.EOF: the stream has nothing more to deliver
    | StreamFailure(code: nat)  // any other error reported by the stream on a read or a write
    | Panic                // a Go runtime panic (negative slice length, index out of range)

  datatype Result<T> = Ok(value: T) | Err(error: Error) {
    /** The Go `error` that accompanies this result: nil on success. */
    function ErrorOrNone(): Option<Error>
    {
      if Ok? then None else Some(error)
    }
  }
}
