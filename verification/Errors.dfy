/** Why an operation stopped. Messages are dropped; what a caller can tell apart is kept. */
module Errors {
  import opened Bytes

  datatype Error =
    | EndOfBuffer
    | UnreadFailed
    | IncorrectTagID(expected: byte, got: byte)
    | NotContextual
    | UnexpectedContext
    | TypeMismatch
    | BadStringEncoding
    | ShortString
    | UnsupportedType
    | NotOpening
    | NotClosing
    | InvalidObjectID
    | NotImplemented
    | UnknownType
    | WrongValue
    | WrongType
    | InvalidRange
    | InvalidPriority
    | InvalidVersion
    | NotBacnetIP
    | IncoherentLength
    | Panicked // a Go run-time panic: nothing after it runs

  datatype Marshaled = Encoded(bytes: seq<byte>) | Refused(error: Error)
}
