/** The fixed texts a client may be told contain no NUL. */
module FixedTexts {
  import opened Prelude
  import opened ProxyErrors
  import opened BackendErrors
  import opened Dialogues
  import Decimal
  import S = ScramServer

  predicate Clean(s: string) {
    '\0' !in s
  }

  lemma Joined(a: string, b: string)
    requires Clean(a) && Clean(b)
    ensures Clean(a + b)
  {
  }

  lemma DigitsAreClean(n: nat)
    ensures Clean(Decimal.Print(n))
  {
  }

  /** What the client is told is no fixed text but names something. */
  predicate Quotes(error: ConnectionError) {
    error.UnsupportedProtocol? || error.BackendFailed?
  }

  predicate QuotesClient(error: S.ScramError) {
    error.AuthenticationFailed? || (error.Protocol? && error.reason.UnsupportedMechanism?)
  }

  lemma CodesAreClean()
    ensures Clean("53300") && Clean("57014") && Clean("28000") && Clean("0A000")
    ensures Clean("08P01") && Clean("28P01") && Clean("08006")
  {
  }

  /** A failure that quotes nobody. */
  lemma FailureIsClean(error: ConnectionError)
    requires !Quotes(error)
    ensures Clean(error.Code()) && Clean(error.Message())
  {
    hide Clean;
    CodesAreClean();
    TooManyRequestText();
    AuthTimeoutText();
    InvalidStartupLayoutText();
    EmptyMessageBodyText();
    InvalidMessageLengthText();
    MessageTooLargeText();
    MissingUserText();
    TlsRequiredText();
    TlsAlreadyDoneText();
    GssAlreadyDoneText();
    InvalidDataText();
    InvalidStateText();
  }

  lemma UnsupportedIsClean(reason: UnsupportedReason)
    requires !reason.UnsupportedMethod?
    ensures Clean(reason.Text())
  {
    hide Clean, RequestedMethod, Decimal.Print;
    ScramRequestedText();
    NothingCapturedText();
    NoMechanismText();
    BindingIsDisabledText();
    NoneUsableText();
    Joined("backend requested SCRAM, ", "but no ClientKey was captured from the client");
    CleartextIsClean();
    Md5IsClean();
  }

  lemma CleartextIsClean()
    ensures Clean(CleartextNeedsPassword.Text())
  {
    hide Clean;
    CleartextRequiredText();
    OnlyASecretText();
    ForThisUserText();
    Joined("backend requires a cleartext password, ", "but only a SCRAM secret is available; ");
    Joined("backend requires a cleartext password, " + "but only a SCRAM secret is available; ", "configure a plaintext password for this user");
  }

  lemma Md5IsClean()
    ensures Clean(Md5NeedsPassword.Text())
  {
    hide Clean;
    Md5RequiredText();
    OnlyASecretText();
    NotDerivableText();
    SoConfigureText();
    Joined("backend requires MD5 authentication, ", "but only a SCRAM secret is available; ");
    Joined("backend requires MD5 authentication, " + "but only a SCRAM secret is available; ", "MD5 cannot be derived from StoredKey/ServerKey, ");
    Joined("backend requires MD5 authentication, " + "but only a SCRAM secret is available; "
           + "MD5 cannot be derived from StoredKey/ServerKey, ", "so configure a plaintext password");
  }

  lemma BindingIsClean(reason: BindingReason)
    ensures Clean(reason.Text())
  {
    hide Clean;
    NotTlsText();
    NoHashText();
    NoPlusText();
    Joined("the backend connection is not TLS ", "or its certificate has no defined tls-server-end-point hash");
  }

  lemma RequestIsClean(name: string)
    requires Clean(name)
    ensures Clean(RequestedMethod(name))
  {
    NotAvailableText();
    assert Clean("backend requested ");
    hide Clean;
    Joined("backend requested ", name);
    Joined("backend requested " + name, " authentication, which wirechaos does not support");
  }

  /** An authentication method, by its name or its number. */
  lemma MethodIsClean(code: u32)
    ensures Clean(UnsupportedMethod(code).Text())
  {
    hide RequestedMethod, Decimal.Print;
    RequestIsClean("Kerberos");
    RequestIsClean("SCM credentials");
    RequestIsClean("GSSAPI");
    RequestIsClean("GSSAPI continuation");
    RequestIsClean("SSPI");
    NotKnownText();
    DigitsAreClean(code);
    hide Clean;
    Joined("backend requested unsupported authentication method ", Decimal.Print(code));
  }

  /** Whatever went wrong with the backend, when its own words are clean. */
  lemma BackendErrorIsClean(error: PgError)
    requires error.Backend? ==> Clean(error.code) && Clean(error.message)
    ensures Clean(error.Code()) && Clean(error.Message())
  {
    hide Clean, UnsupportedReason.Text, BindingReason.Text;
    CodesAreClean();
    NotLetInText();
    NotReachedText();
    NotStartedText();
    NeverReadyText();
    NotUnderstoodText();
    match error {
      case UnsupportedAuth(UnsupportedMethod(code)) => MethodIsClean(code);
      case UnsupportedAuth(reason) => UnsupportedIsClean(reason);
      case ChannelBindingRequired(reason) => BindingIsClean(reason);
      case _ =>
    }
  }

  lemma VersionIsClean(version: u32)
    ensures Clean(UnsupportedProtocol(version).Message())
  {
    hide Decimal.Print, Clean;
    var (major, minor) := (Decimal.Print(version / 0x1_0000), Decimal.Print(version % 0x1_0000));
    OldProtocolText();
    SupportedText();
    DigitsAreClean(version / 0x1_0000);
    DigitsAreClean(version % 0x1_0000);
    Joined("unsupported frontend protocol ", major);
    Joined("unsupported frontend protocol " + major, ".");
    Joined("unsupported frontend protocol " + major + ".", minor);
    Joined("unsupported frontend protocol " + major + "." + minor, ": server supports 3.0 to 3.0");
  }

  /** A refusal that quotes nobody. */
  lemma RefusalIsClean(error: S.ScramError)
    requires !QuotesClient(error)
    ensures Clean(error.Code()) && Clean(error.Message())
  {
    hide Clean;
    CodesAreClean();
    CheckFailedText();
    IsMalformedText();
    UserIsEmptyText();
    NoAuthzidText();
    BindingRequestedText();
    PlusNotThereText();
    NoBindingDataText();
    OtherBindingTypeText();
    Joined("client requested channel binding, ", "but SCRAM-SHA-256-PLUS was not offered");
    DowngradeIsClean();
  }

  lemma DowngradeIsClean()
    ensures Clean(S.ScramError.ChannelBindingDowngrade.Message())
  {
    hide Clean;
    ThinksNotText();
    ButThinksText();
    ButDoesText();
    Joined("client supports SCRAM channel binding ", "but thinks the server does not. ");
    Joined("client supports SCRAM channel binding " + "but thinks the server does not. ", "However, this server does support channel binding.");
  }

  lemma OwnRefusalsAreClean()
    ensures Clean(StoreUnavailable.Text()) && Clean(NoUser.Text())
    ensures Clean(StoreUnavailable.Code()) && Clean(NoUser.Code()) && Clean("08P01")
  {
    hide Clean;
    CodesAreClean();
    StoreIsDownText();
    NobodyNamedText();
  }

  lemma FramingTexts()
    ensures Clean("Invalid Message") && Clean("Invalid message") && Clean("invalid mechanism")
    ensures Clean("message length too short") && Clean("malformed SCRAM message")
  {
  }

  lemma TooManyRequestText()
    ensures Clean("sorry, too many clients already")
  {
  }

  lemma AuthTimeoutText()
    ensures Clean("canceling authentication due to timeout")
  {
    assert '\0' !in "canceling authentication due t";
  }

  lemma InvalidStartupLayoutText()
    ensures Clean("invalid startup packet layout")
  {
  }

  lemma EmptyMessageBodyText()
    ensures Clean("empty message body")
  {
  }

  lemma InvalidMessageLengthText()
    ensures Clean("invalid message length")
  {
  }

  lemma MessageTooLargeText()
    ensures Clean("message length exceeds the buffer pool capacity")
  {
    assert '\0' !in "message length exceeds the buf";
  }

  lemma MissingUserText()
    ensures Clean("no PostgreSQL user name specified in startup packet")
  {
    assert '\0' !in "no PostgreSQL user name specif";
  }

  lemma TlsRequiredText()
    ensures Clean("TLS is required but the client did not request it")
  {
    assert '\0' !in "TLS is required but the client";
  }

  lemma TlsAlreadyDoneText()
    ensures Clean("SSLRequest was already answered on this connection")
  {
    assert '\0' !in "SSLRequest was already answere";
  }

  lemma GssAlreadyDoneText()
    ensures Clean("GSSENCRequest was already answered on this connection")
  {
    assert '\0' !in "GSSENCRequest was already answ";
  }

  lemma InvalidDataText()
    ensures Clean("invalid data")
  {
  }

  lemma InvalidStateText()
    ensures Clean("invalid session state")
  {
  }

  lemma NotLetInText()
    ensures Clean("backend authentication failed")
  {
  }

  lemma NotReachedText()
    ensures Clean("could not connect to the backend database")
  {
    assert '\0' !in "could not connect to the backe";
  }

  lemma NotStartedText()
    ensures Clean("backend failed during startup")
  {
  }

  lemma NeverReadyText()
    ensures Clean("backend did not finish starting up")
  {
  }

  lemma NotUnderstoodText()
    ensures Clean("backend sent an invalid protocol message")
  {
    assert '\0' !in "backend sent an invalid protoc";
  }

  lemma ScramRequestedText()
    ensures Clean("backend requested SCRAM, ")
  {
  }

  lemma NothingCapturedText()
    ensures Clean("but no ClientKey was captured from the client")
  {
    assert '\0' !in "but no ClientKey was captured ";
  }

  lemma CleartextRequiredText()
    ensures Clean("backend requires a cleartext password, ")
  {
    assert '\0' !in "backend requires a cleartext p";
  }

  lemma OnlyASecretText()
    ensures Clean("but only a SCRAM secret is available; ")
  {
  }

  lemma ForThisUserText()
    ensures Clean("configure a plaintext password for this user")
  {
    assert '\0' !in "configure a plaintext password";
  }

  lemma Md5RequiredText()
    ensures Clean("backend requires MD5 authentication, ")
  {
  }

  lemma NotDerivableText()
    ensures Clean("MD5 cannot be derived from StoredKey/ServerKey, ")
  {
    assert '\0' !in "MD5 cannot be derived from Sto";
  }

  lemma SoConfigureText()
    ensures Clean("so configure a plaintext password")
  {
  }

  lemma NoMechanismText()
    ensures Clean("backend offered no supported SASL mechanism")
  {
    assert '\0' !in "backend offered no supported S";
  }

  lemma BindingIsDisabledText()
    ensures Clean("backend requires channel binding, but channel_binding is disabled")
  {
    assert '\0' !in "backend requires channel bindi";
    assert '\0' !in "backend requires channel binding, but channel_binding is";
  }

  lemma NoneUsableText()
    ensures Clean("backend offered no SCRAM-SHA-256 mechanism the proxy can use")
  {
    assert '\0' !in "backend offered no SCRAM-SHA-2";
  }

  lemma NotAvailableText()
    ensures Clean(" authentication, which wirechaos does not support")
  {
    assert '\0' !in " authentication, which wirecha";
  }

  lemma NotKnownText()
    ensures Clean("backend requested unsupported authentication method ")
  {
    assert '\0' !in "backend requested unsupported ";
  }

  lemma NotTlsText()
    ensures Clean("the backend connection is not TLS ")
  {
  }

  lemma NoHashText()
    ensures Clean("or its certificate has no defined tls-server-end-point hash")
  {
    assert '\0' !in "or its certificate has no defi";
  }

  lemma NoPlusText()
    ensures Clean("the backend does not offer SCRAM-SHA-256-PLUS")
  {
    assert '\0' !in "the backend does not offer SCR";
  }

  lemma CheckFailedText()
    ensures Clean("SCRAM channel binding check failed")
  {
  }

  lemma ThinksNotText()
    ensures Clean("client supports SCRAM channel binding ")
  {
  }

  lemma ButThinksText()
    ensures Clean("but thinks the server does not. ")
  {
  }

  lemma ButDoesText()
    ensures Clean("However, this server does support channel binding.")
  {
    assert '\0' !in "However, this server does supp";
  }

  lemma IsMalformedText()
    ensures Clean("malformed SCRAM message")
  {
  }

  lemma UserIsEmptyText()
    ensures Clean("startup user must not be empty")
  {
  }

  lemma NoAuthzidText()
    ensures Clean("client uses authorization identity, but it is not supported ")
  {
    assert '\0' !in "client uses authorization iden";
  }

  lemma BindingRequestedText()
    ensures Clean("client requested channel binding, ")
  {
  }

  lemma PlusNotThereText()
    ensures Clean("but SCRAM-SHA-256-PLUS was not offered")
  {
  }

  lemma NoBindingDataText()
    ensures Clean("SCRAM-SHA-256-PLUS selected without channel binding data")
  {
    assert '\0' !in "SCRAM-SHA-256-PLUS selected wi";
  }

  lemma OtherBindingTypeText()
    ensures Clean("unsupported channel binding type")
  {
  }

  lemma StoreIsDownText()
    ensures Clean("credential store temporarily unavailable")
  {
    assert '\0' !in "credential store temporarily u";
  }

  lemma NobodyNamedText()
    ensures Clean("password authentication failed for user")
  {
    assert '\0' !in "password authentication failed";
  }

  lemma OldProtocolText()
    ensures Clean("unsupported frontend protocol ")
  {
  }

  lemma SupportedText()
    ensures Clean(": server supports 3.0 to 3.0") && Clean(".")
  {
  }

  /** Which authentication methods are named, and that any other is given by its number. */
  lemma MethodsAreNamed(code: u32)
    ensures var text := UnsupportedMethod(code).Text();
            if code in [2, 6, 7, 8, 9] then
              text == "backend requested "
                      + (match code
                         case 2 => "Kerberos"
                         case 6 => "SCM credentials"
                         case 7 => "GSSAPI"
                         case 8 => "GSSAPI continuation"
                         case _ => "SSPI")
                      + " authentication, which wirechaos does not support"
            else text == "backend requested unsupported authentication method " + Decimal.Print(code)
  {
    hide Decimal.Print;
  }
}
