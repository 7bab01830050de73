/** Failures of the link to the backend, and what a client is told about them. */
module BackendErrors {
  import opened Prelude
  import Decimal

  datatype AuthReason =
    | MissingNonce
    | MissingSalt
    | MissingIterations
    | InvalidIterations
    | NonceMismatch
    | InvalidSalt
    | IterationMismatch
    | NoStoredSecret
    | InvalidClientKeyLength
    | ServerReported(text: string)
    | InvalidServerSignature

  datatype UnsupportedReason =
    | NoClientKey
    | CleartextNeedsPassword
    | Md5NeedsPassword
    | UnsupportedMethod(code: u32)
    | NoSaslMechanism
    | BindingDisabled
    | NoUsableMechanism
  {
    function Text(): string {
      match this
      case NoClientKey => "backend requested SCRAM, " + "but no ClientKey was captured from the client"
      case CleartextNeedsPassword =>
        "backend requires a cleartext password, " + "but only a SCRAM secret is available; "
        + "configure a plaintext password for this user"
      case Md5NeedsPassword =>
        "backend requires MD5 authentication, " + "but only a SCRAM secret is available; "
        + "MD5 cannot be derived from StoredKey/ServerKey, " + "so configure a plaintext password"
      case UnsupportedMethod(code) =>
        if code == 2 then RequestedMethod("Kerberos")
        else if code == 6 then RequestedMethod("SCM credentials")
        else if code == 7 then RequestedMethod("GSSAPI")
        else if code == 8 then RequestedMethod("GSSAPI continuation")
        else if code == 9 then RequestedMethod("SSPI")
        else "backend requested unsupported authentication method " + Decimal.Print(code)
      case NoSaslMechanism => "backend offered no supported SASL mechanism"
      case BindingDisabled => "backend requires channel binding, but channel_binding is disabled"
      case NoUsableMechanism => "backend offered no SCRAM-SHA-256 mechanism the proxy can use"
    }
  }

  function RequestedMethod(name: string): string {
    "backend requested " + name + " authentication, which wirechaos does not support"
  }

  datatype BindingReason = NoCertificateHash | PlusNotOffered {
    function Text(): string {
      match this
      case NoCertificateHash =>
        "the backend connection is not TLS " + "or its certificate has no defined tls-server-end-point hash"
      case PlusNotOffered => "the backend does not offer SCRAM-SHA-256-PLUS"
    }
  }

  datatype PgError =
    | ConnectTimeout
    | TlsTimeout
    | StartupTimeout
    | Io
    | Tls
    | Protocol
    | Auth(reason: AuthReason)
    | UnsupportedAuth(unsupported: UnsupportedReason)
    | SaltMismatch
    | ChannelBindingRequired(binding: BindingReason)
    | Backend(severity: string, code: string, message: string)
  {
    /** The SQLSTATE shown to the client. */
    function Code(): string {
      match this
      case Auth(_) | UnsupportedAuth(_) | SaltMismatch | ChannelBindingRequired(_) => "28P01"
      case Protocol => "08P01"
      case Backend(_, code, _) => code
      case ConnectTimeout | TlsTimeout | StartupTimeout | Io | Tls => "08006"
    }

    /** The text shown to the client: only a few backend states are passed through. */
    function Message(): string {
      match this
      case Auth(_) | SaltMismatch => "backend authentication failed"
      case ConnectTimeout | TlsTimeout | Io | Tls => "could not connect to the backend database"
      case StartupTimeout => "backend did not finish starting up"
      case Protocol => "backend sent an invalid protocol message"
      case UnsupportedAuth(reason) => reason.Text()
      case ChannelBindingRequired(reason) => reason.Text()
      case Backend(_, code, message) =>
        if code == "3D000" || code == "53300" || code == "57P03" then message
        else if "28" <= code then "backend authentication failed"
        else if "08" <= code then "could not connect to the backend database"
        else "backend failed during startup"
    }
  }
}
