/**
 `rustls_result` codes and their translation to and from `rustls::Error`.
 A C callback may return any u32, so decoding is total.
 */
module ResultCodes {
  import opened Base

  type U32 = n: nat | n < 0x1_0000_0000

  const OK: Code := 7000
  const IO: Code := 7001
  const NULL_PARAMETER: Code := 7002
  const PANIC: Code := 7004
  const CERTIFICATE_PARSE_ERROR: Code := 7005
  const NOT_FOUND: Code := 7008
  const INVALID_PARAMETER: Code := 7009
  const UNEXPECTED_EOF: Code := 7010
  const PLAINTEXT_EMPTY: Code := 7011
  const GENERAL: Code := 7112
  const CERT_INVALID_ENCODING: Code := 7117
  const CERT_INVALID_SIGNATURE_TYPE: Code := 7118
  const CERT_INVALID_SIGNATURE: Code := 7119
  const CERT_INVALID_DATA: Code := 7120
  const CERT_SCT_MALFORMED: Code := 7319
  const CERT_SCT_INVALID_SIGNATURE: Code := 7320
  const CERT_SCT_TIMESTAMP_IN_FUTURE: Code := 7321
  const CERT_SCT_UNSUPPORTED_VERSION: Code := 7322
  const CERT_SCT_UNKNOWN_LOG: Code := 7323

  /** The discriminants of the enum; they are contiguous in four blocks. */
  predicate IsDiscriminant(n: nat) {
    7000 <= n <= 7011 || 7100 <= n <= 7120 || 7200 <= n <= 7234 || 7319 <= n <= 7323
  }

  type Code = n: nat | IsDiscriminant(n) witness 7000

  /** `TryFromPrimitive`. */
  function TryFromPrimitive(n: U32): Option<Code> {
    if IsDiscriminant(n) then Some(n) else None
  }

  /** `try_from(n).unwrap_or(default)`. */
  function Decode(n: U32, default: Code): Code {
    match TryFromPrimitive(n)
    case Some(c) => c
    case None => default
  }

  predicate IsCertError(n: U32) {
    Decode(n, INVALID_PARAMETER) in {
      CERT_INVALID_ENCODING, CERT_INVALID_SIGNATURE_TYPE, CERT_INVALID_SIGNATURE, CERT_INVALID_DATA,
      CERT_SCT_MALFORMED, CERT_SCT_INVALID_SIGNATURE, CERT_SCT_TIMESTAMP_IN_FUTURE,
      CERT_SCT_UNSUPPORTED_VERSION, CERT_SCT_UNKNOWN_LOG
    }
  }

  datatype SctError = MalformedSct | InvalidSignature | TimestampInFuture | UnsupportedSctVersion | UnknownLog

  /** A code of `map_error` that is neither General nor about certificates. */
  type OtherCode = c: Code | 7100 <= c <= 7234 && c != 7112 && !(7117 <= c <= 7120) witness 7100

  /** `rustls::Error`, where the errors that no certificate verifier reports (corrupt messages,
      alerts and so on) are represented by the code that `map_error` lists for them. */
  datatype Error =
    | InvalidCertificateEncoding | InvalidCertificateSignatureType | InvalidCertificateSignature
    | InvalidCertificateData(why: string) | InvalidSct(sct: SctError) | General(why: string)
    | Other(code: OtherCode)

  function CertResultToError(c: Code): Error {
    if c == CERT_INVALID_ENCODING then InvalidCertificateEncoding
    else if c == CERT_INVALID_SIGNATURE_TYPE then InvalidCertificateSignatureType
    else if c == CERT_INVALID_SIGNATURE then InvalidCertificateSignature
    else if c == CERT_INVALID_DATA then InvalidCertificateData("")
    else if c == CERT_SCT_MALFORMED then InvalidSct(MalformedSct)
    else if c == CERT_SCT_INVALID_SIGNATURE then InvalidSct(InvalidSignature)
    else if c == CERT_SCT_TIMESTAMP_IN_FUTURE then InvalidSct(TimestampInFuture)
    else if c == CERT_SCT_UNSUPPORTED_VERSION then InvalidSct(UnsupportedSctVersion)
    else if c == CERT_SCT_UNKNOWN_LOG then InvalidSct(UnknownLog)
    else General("")
  }

  function MapError(e: Error): Code {
    match e
    case Other(code) => code
    case InvalidCertificateEncoding => CERT_INVALID_ENCODING
    case InvalidCertificateSignatureType => CERT_INVALID_SIGNATURE_TYPE
    case InvalidCertificateSignature => CERT_INVALID_SIGNATURE
    case InvalidCertificateData(_) => CERT_INVALID_DATA
    case General(_) => GENERAL
    case InvalidSct(MalformedSct) => CERT_SCT_MALFORMED
    case InvalidSct(InvalidSignature) => CERT_SCT_INVALID_SIGNATURE
    case InvalidSct(TimestampInFuture) => CERT_SCT_TIMESTAMP_IN_FUTURE
    case InvalidSct(UnsupportedSctVersion) => CERT_SCT_UNSUPPORTED_VERSION
    case InvalidSct(UnknownLog) => CERT_SCT_UNKNOWN_LOG
  }

  /** The answer of `Verifier::verify_server_cert` for the u32 a C callback returned:
      None accepts the certificate. */
  function VerifyAnswer(n: U32): Option<Error> {
    var result := Decode(n, GENERAL);
    if result == OK then None else Some(CertResultToError(result))
  }

  /** The code C sees after the handshake: acceptance, or the verifier's error surfaced
      unchanged through `process_new_packets` and translated back. */
  function HandshakeCode(n: U32): Code {
    match VerifyAnswer(n)
    case None => OK
    case Some(e) => MapError(e)
  }

  /** Whatever a verify callback returns, only 7000 is acceptance, certificate codes
      come back unchanged, and everything else (unknown numbers included) is General. */
  lemma VerifyCallbackRoundTrip(n: U32)
    ensures HandshakeCode(n) == OK <==> n == 7000
    ensures n != 7000 ==> HandshakeCode(n) == if IsCertError(n) then n else GENERAL
  {
  }

  /** The errors that a certificate verifier reports, in the order of their codes. */
  const CERTIFICATE_ERRORS: seq<Error> := [
    InvalidCertificateEncoding, InvalidCertificateSignatureType, InvalidCertificateSignature,
    InvalidCertificateData(""), InvalidSct(MalformedSct), InvalidSct(InvalidSignature),
    InvalidSct(TimestampInFuture), InvalidSct(UnsupportedSctVersion), InvalidSct(UnknownLog)]

  /** Their codes are two blocks of consecutive numbers, both ways. */
  lemma CertificateCodes(i: nat)
    requires i < |CERTIFICATE_ERRORS|
    ensures var code := if i < 4 then 7117 + i else 7315 + i;
      && MapError(CERTIFICATE_ERRORS[i]) == code && HandshakeCode(code) == code
      && VerifyAnswer(code) == Some(CERTIFICATE_ERRORS[i])
  {
  }

  /** The code of a certificate error says which one it is, up to the text of invalid data. */
  lemma CertCodesDistinct(e: Error, f: Error)
    requires IsCertError(MapError(e))
    ensures MapError(e) == MapError(f) <==> e == f || (e.InvalidCertificateData? && f.InvalidCertificateData?)
  {
  }

  /** Decoding a surfaced certificate error gives the error back, exactly when it is a
      certificate error that carries no text (and General with none stays General). */
  lemma CertErrorRoundTrip(e: Error)
    ensures CertResultToError(MapError(e)) == e
       <==> e == General("") || (IsCertError(MapError(e)) && (e.InvalidCertificateData? ==> e.why == ""))
  {
  }
}
