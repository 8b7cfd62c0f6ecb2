/**
 * What the filter reads from the transport's TLS session: the peer
 * certificate's URI SAN and its serial number as text.
 */
module PeerIdentity {
  import opened Wrappers
  import opened SerialHex

  /**
   * The peer certificate, reduced to its serial number as a big number.
   * `serial` is None when converting it to text yields no string (BN_bn2hex
   * returning null).
   */
  datatype PeerCertificate = PeerCertificate(serial: Option<int>)

  /**
   * The TLS side of a connection.
   *  - uriSan: what uriSanPeerCertificate() reports ("" when there is none);
   *  - isSslSocket: whether the session is the concrete SslSocket type the
   *    serial lookup needs to reach the raw SSL object;
   *  - peerCertificate: what SSL_get_peer_certificate returns.
   */
  datatype SslConnection = SslConnection(
    uriSan: string,
    isSslSocket: bool,
    peerCertificate: Option<PeerCertificate>)

  /** getSerialNumber(const X509*): the certificate's serial as BN_bn2hex text, "" on a null conversion. */
  function CertificateSerialNumber(cert: PeerCertificate): (s: string)
    ensures s == "" <==> cert.serial.None?
    ensures cert.serial.Some? ==> s == BnToHex(cert.serial.value) && ParseSerial(s) == cert.serial
  {
    match cert.serial
    case None => ""
    case Some(n) =>
      SerialRoundTrip(n);
      BnToHex(n)
  }

  /**
   * getSerialNumber() on the connection: "" when the session is not an
   * SslSocket or presents no peer certificate, otherwise the certificate's
   * serial text.
   */
  function ConnectionSerialNumber(ssl: SslConnection): (s: string)
    ensures s == "" <==>
      !ssl.isSslSocket || ssl.peerCertificate.None? || ssl.peerCertificate.value.serial.None?
    ensures s != "" ==>
      s == BnToHex(ssl.peerCertificate.value.serial.value) && ParseSerial(s) == ssl.peerCertificate.value.serial
  {
    if !ssl.isSslSocket then ""
    else match ssl.peerCertificate
      case None => ""
      case Some(cert) => CertificateSerialNumber(cert)
  }
}
