/** The exceptions the authorization core can raise. */
module Errors {

  /** Which `catch` (or which check) produced a `BaseServerException`. */
  datatype Cause =
    | KeyFileUnreadable
    | InvalidKeySpec
    | NoSuchAlgorithm
    | MissingRole(role: string)
    | UnexpectedStatus(status: int)
    | SocketTimeout
    | ConnectTimeout
    | ExchangeIo
    | ResponseCloseIo
    | ClientCloseIo

  /** Unchecked exceptions that escape the services without being wrapped. */
  datatype Unchecked =
    | NullPointer
    | ClassCast
    | IndexOutOfBounds
    | TokenRejected     // any `JwtException`: a bad signature or structure, or an `exp` already past
    | IllegalBase64     // `IllegalArgumentException` from the base64 decoder
    | IllegalArgument   // `IllegalArgumentException` from an authority built from a role without text

  datatype Error =
    | BaseServerException(code: int, cause: Cause)
    | RuntimeException(kind: Unchecked)
}
