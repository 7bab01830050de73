/** `tls-server-end-point` channel binding (section 4.1 of RFC 5929). */
module ChannelBinding {
  import opened Prelude
  import Base64
  import Utf8

  datatype HashAlgorithm = Sha256 | Sha384 | Sha512

  const TLS_SERVER_END_POINT_HEADER := "p=tls-server-end-point,,"

  /** The hash of a server certificate, computed when the certificate is loaded. */
  datatype CertHash = CertHash(algorithm: HashAlgorithm, digest: Bytes) {
    function CbindInput(): Bytes {
      Utf8.Encode(TLS_SERVER_END_POINT_HEADER) + digest
    }

    function ExpectedC(): string {
      Base64.Standard64(CbindInput())
    }
  }

  /** Two certificates are told apart by the `c=` value exactly when their digests differ. */
  lemma ExpectedCInjective(a: CertHash, b: CertHash)
    ensures a.ExpectedC() == b.ExpectedC() <==> a.digest == b.digest
  {
    Base64.EncodeThenDecode(true, a.CbindInput());
    Base64.EncodeThenDecode(true, b.CbindInput());
    var n := |Utf8.Encode(TLS_SERVER_END_POINT_HEADER)|;
    assert a.digest == a.CbindInput()[n..] && b.digest == b.CbindInput()[n..];
  }
}
