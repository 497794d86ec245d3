/** Option and Result, and the error kinds the codec reports. A Go function that
    returns `(T, error)` is modelled as a function returning `Result<T>`. */
module Wrappers {
  import opened Bytes

  datatype Option<+T> = None | Some(value: T)

  /** What went wrong. The kinds follow the error returns of the Go code; the
      exact message text is not modelled, only the context it carries. */
  datatype Error =
    | EmptyName                                  // setName: nothing left after trimming
    | NameTooLong(name: seq<byte>)               // setName: more than 10 bytes
    | InvalidLength(length: int)                 // constructors: length out of range
    | InvalidDec(dec: int)                       // newNumericField: bad decimal count
    | NotDbf                                     // header.read: first byte is not 0x03
    | EndOfFile                                  // io.EOF
    | UnexpectedEndOfFile                        // io.ErrUnexpectedEOF
    | Overflow(value: seq<byte>, fieldLen: int)  // checkLen: value wider than the field
    | TypeMismatch                               // the value's kind does not suit the field
    | InvalidFieldType(typ: byte)                // type tag other than C, N, L, D
    | InvalidDate                                // time.Parse("20060102", ...) failed
    | InvalidNumber                              // strconv.ParseInt failed
    | DecNotZero                                 // intFieldValue on a field with decimals
    | FloatError                                 // strconv.ParseFloat failed
    | TranscodeFailed                            // a code-page encoder or decoder failed
    | UnsupportedCodePage(page: int)
    | NoFields
    | ArityMismatch                              // record length differs from the field count
    | FieldNoOutOfRange                          // fieldByNo outside 1..len(fields)
    | OutOfRange                                 // a Go index or slice out of range (a run-time panic)
    | FileNotOpen                                // a seek or read on a file never opened
    | WrongKind                                  // a failed type assertion `v.(T)` (a run-time panic)
    | FieldError(field: seq<byte>, cause: Error) // "field %q: ..."
    | RecordError(recNo: int, cause: Error)      // "record %d: ..."
    | FieldNoError(fieldNo: int, fieldName: Option<seq<byte>>, cause: Error) // "field %d[ %q]: ..."

  datatype Result<+T> = Ok(value: T) | Err(error: Error) {
    predicate IsFailure() { Err? }

    function PropagateFailure<U>(): Result<U>
      requires Err?
    {
      Err(error)
    }

    function Extract(): T
      requires Ok?
    {
      value
    }
  }
}
