/** Failures of a client connection: those a client is told about, and those that only end the session. */
module ProxyErrors {
  import opened Prelude
  import BackendErrors
  import Decimal

  datatype ConnectionError =
    | TooManyRequest
    | FirstMessageTooBig
    | AuthTimeout
    | EmptyMessageBody
    | InvalidMessageLength
    | MessageTooLarge
    | TlsRequired
    | TlsAlreadyDone
    | InvalidData
    | GssAlreadyDone
    | InvalidState
    | InvalidStartupLayout
    | MissingUser
    | UnsupportedProtocol(version: u32)
    | BackendFailed(pgError: BackendErrors.PgError)
  {
    function Code(): string {
      match this
      case TooManyRequest => "53300"
      case AuthTimeout => "57014"
      case MissingUser => "28000"
      case UnsupportedProtocol(_) => "0A000"
      case BackendFailed(error) => error.Code()
      case _ => "08P01"
    }

    function Message(): string {
      match this
      case TooManyRequest => "sorry, too many clients already"
      case AuthTimeout => "canceling authentication due to timeout"
      case FirstMessageTooBig | InvalidStartupLayout => "invalid startup packet layout"
      case EmptyMessageBody => "empty message body"
      case InvalidMessageLength => "invalid message length"
      case MessageTooLarge => "message length exceeds the buffer pool capacity"
      case MissingUser => "no PostgreSQL user name specified in startup packet"
      case TlsRequired => "TLS is required but the client did not request it"
      case TlsAlreadyDone => "SSLRequest was already answered on this connection"
      case GssAlreadyDone => "GSSENCRequest was already answered on this connection"
      case InvalidData => "invalid data"
      case InvalidState => "invalid session state"
      case UnsupportedProtocol(version) =>
        "unsupported frontend protocol " + Decimal.Print(version / 0x1_0000) + "." + Decimal.Print(version % 0x1_0000)
        + ": server supports 3.0 to 3.0"
      case BackendFailed(error) => error.Message()
    }
  }

  /** `Internal` ends the session without a word to the client. */
  datatype ProxyError = Internal | Connection(error: ConnectionError)
}
