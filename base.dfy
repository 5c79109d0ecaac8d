/** Values shared by both slices: Go strings as byte strings, the error
    taxonomy the use cases and repositories report, and the (value, error)
    pair every fallible operation returns. */
module Base {

  /** One byte of a Go string. */
  newtype byte = x: int | 0 <= x < 256

  /** A Go `string`: `len` counts its bytes, so `|s|` is Go's `len(s)`. */
  type Bytes = seq<byte>

  /** The bytes of a string literal whose characters are all ASCII. */
  function Ascii(s: string): (b: Bytes)
    requires forall i :: 0 <= i < |s| ==> s[i] < 128 as char
    ensures |b| == |s|
    ensures forall i :: 0 <= i < |s| ==> b[i] as int == s[i] as int
  {
    seq(|s|, i requires 0 <= i < |s| => s[i] as int as byte)
  }

  /** The errors the use cases and repositories return, each carrying the
      value its Go message formats. */
  datatype Error =
    | NilRepo                   // "repo may not be nil"
    | NilPostRepo               // "postRepo may not be nil"
    | NilAuthorRepo             // "authorRepo may not be nil"
    | InvalidName(name: Bytes)  // author name shorter than 3 bytes
    | InvalidId(id: int)        // id below 1
    | InvalidTitle(title: Bytes) // post title shorter than 5 bytes
    | NotFoundId(key: int)      // "could not find id %d", from either repository
    | NotFoundTitle(title: Bytes) // "could not find title %s"

  /** A Go `(T, error)` pair: exactly one of the value and the error is meaningful. */
  datatype Result<+T> = Ok(value: T) | Err(error: Error)
}
