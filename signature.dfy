/** `verify(cert, data, sig)` of crypto.ts: checks a signature against a certificate's
    public key, choosing RSA-PSS (section 8.1 of RFC 8017) when the certificate's
    signature-algorithm OID is a key of the algorithm table and ECDSA otherwise. Every
    exception inside either branch leaves the result `false`. */
module Signature {
  import opened Wrappers
  import opened Asn
  import opened Externals
  import opened Registry
  import opened PemText

  /** `isRSA`: the OID is one of the table's nine keys, digest OIDs included. A missing
      `certificate` gives `undefined`, which is not a key. */
  function IsRsa(cert: CertificateChoice): (rsa: bool)
    ensures rsa <==>
      && cert.X509?
      && (cert.certificate.signatureAlgorithm in DigestOids || cert.certificate.signatureAlgorithm in RsaSignatureOids)
  {
    AlgKeys();
    cert.X509? && cert.certificate.signatureAlgorithm in Alg
  }

  /** The ECDSA branch: digest from the signature OID, curve from the key's parameters,
      DER signature normalised to low-S, then the curve's verification. `None` is an
      exception thrown at any of these steps (a missing `certificate` included). */
  function EcdsaAttempt(env: Env, cert: CertificateChoice, data: Bytes, sig: Bytes): (r: Option<bool>)
    ensures r.Some? ==> cert.X509?
    ensures r.Some? ==>
      && env.ecdsaHash(cert.certificate.signatureAlgorithm).Some?
      && cert.certificate.tbsCertificate.subjectPublicKeyInfo.parameters.Some?
  {
    match cert
    case OtherChoice => None
    case X509(c) =>
      var spki := c.tbsCertificate.subjectPublicKeyInfo;
      var d :- env.ecdsaHash(c.signatureAlgorithm);
      var der :- spki.parameters;
      var params :- env.decodeEcParams(der);
      var curve :- env.curveFromParams(params);
      var s :- env.signatureFromDer(curve, sig);
      env.curveVerify(curve, NormalizeS(curve, s), env.digest(d, data), spki.subjectPublicKey)
  }

  /** The RSA branch: the key re-encoded and wrapped as a PEM "PUBLIC KEY", verified with
      PSS padding under the table's entry for the OID. Node accepts only a string as the
      algorithm argument, so an entry that is a hash function throws. */
  function RsaAttempt(env: Env, c: Certificate, data: Bytes, sig: Bytes): (r: Option<bool>)
    requires c.signatureAlgorithm in Alg
    ensures r.Some? ==> c.signatureAlgorithm in RsaSignatureOids
    ensures r.Some? ==> env.encodeSpki(c.tbsCertificate.subjectPublicKeyInfo).Some?
  {
    AlgKeys();
    var key :- env.encodeSpki(c.tbsCertificate.subjectPublicKeyInfo);
    match Alg[c.signatureAlgorithm]
    case HashFunction(_) => None
    case DigestName(name) => env.rsaVerify(name, data, Pem(env.base64, key, "PUBLIC KEY"), sig)
  }

  /** `verify`: `result` starts false and takes the branch's verdict only if the branch
      completes without throwing. */
  function Verify(env: Env, cert: CertificateChoice, data: Bytes, sig: Bytes): (ok: bool)
    ensures ok ==> cert.X509?
    ensures ok && IsRsa(cert) ==> cert.certificate.signatureAlgorithm in RsaSignatureOids
  {
    var attempt := if IsRsa(cert) then RsaAttempt(env, cert.certificate, data, sig)
                   else EcdsaAttempt(env, cert, data, sig);
    attempt == Some(true)
  }

  /** On the RSA branch the result is true exactly when the OID names an RSA signature
      scheme, the key re-encodes, and Node's PSS verification of the PEM key returns true. */
  lemma VerifyRsaVerdict(env: Env, cert: CertificateChoice, data: Bytes, sig: Bytes)
    requires IsRsa(cert)
    ensures var c := cert.certificate;
      var key := env.encodeSpki(c.tbsCertificate.subjectPublicKeyInfo);
      Verify(env, cert, data, sig) <==>
        && c.signatureAlgorithm in RsaSignatureOids
        && key.Some?
        && env.rsaVerify(Alg[c.signatureAlgorithm].name, data, Pem(env.base64, key.value, "PUBLIC KEY"), sig)
           == Some(true)
  {
    AlgKeys();
  }

  /** On the ECDSA branch the result is true exactly when every step succeeds and the
      curve's verification of the normalised signature returns true. */
  lemma VerifyEcdsaVerdict(env: Env, cert: CertificateChoice, data: Bytes, sig: Bytes)
    requires !IsRsa(cert)
    ensures Verify(env, cert, data, sig) <==>
      && cert.X509?
      && var c := cert.certificate;
      var spki := c.tbsCertificate.subjectPublicKeyInfo;
      && env.ecdsaHash(c.signatureAlgorithm).Some?
      && spki.parameters.Some?
      && env.decodeEcParams(spki.parameters.value).Some?
      && env.curveFromParams(env.decodeEcParams(spki.parameters.value).value).Some?
      && var curve := env.curveFromParams(env.decodeEcParams(spki.parameters.value).value).value;
      && env.signatureFromDer(curve, sig).Some?
      && env.curveVerify(curve, NormalizeS(curve, env.signatureFromDer(curve, sig).value),
                         env.digest(env.ecdsaHash(c.signatureAlgorithm).value, data),
                         spki.subjectPublicKey) == Some(true)
  {
  }

  /** A certificate whose signature OID is one of the four digest OIDs is sent to the RSA
      branch, where it can never verify. */
  lemma VerifyRejectsDigestOid(env: Env, cert: CertificateChoice, data: Bytes, sig: Bytes)
    requires cert.X509? && cert.certificate.signatureAlgorithm in DigestOids
    ensures IsRsa(cert)
    ensures !Verify(env, cert, data, sig)
  {
    AlgKeys();
  }

  /** Without an X.509 certificate nothing verifies. */
  lemma VerifyRejectsOtherChoice(env: Env, data: Bytes, sig: Bytes)
    ensures !Verify(env, OtherChoice, data, sig)
  {
  }

  /** Dispatch, RSA side: for an OID that is a key of the table the ECDSA library is
      never consulted, so replacing it does not change the result. */
  lemma RsaBranchIgnoresEcdsa(env: Env, cert: CertificateChoice, data: Bytes, sig: Bytes,
                              ecdsaHash: Oid -> Option<Digest>,
                              decodeEcParams: Bytes -> Option<EcParams>,
                              curveFromParams: EcParams -> Option<Curve>,
                              signatureFromDer: (Curve, Bytes) -> Option<EcSignature>,
                              curveVerify: (Curve, EcSignature, Bytes, Bytes) -> Option<bool>)
    requires IsRsa(cert)
    ensures Verify(env.(ecdsaHash := ecdsaHash, decodeEcParams := decodeEcParams,
                        curveFromParams := curveFromParams, signatureFromDer := signatureFromDer,
                        curveVerify := curveVerify), cert, data, sig)
         == Verify(env, cert, data, sig)
  {
  }

  /** Dispatch, ECDSA side: for any other OID Node's RSA verifier and the key
      re-encoding are never consulted. */
  lemma EcdsaBranchIgnoresRsa(env: Env, cert: CertificateChoice, data: Bytes, sig: Bytes,
                              encodeSpki: SubjectPublicKeyInfo -> Option<Bytes>,
                              base64: Bytes -> string,
                              rsaVerify: (string, Bytes, string, Bytes) -> Option<bool>)
    requires !IsRsa(cert)
    ensures Verify(env.(encodeSpki := encodeSpki, base64 := base64, rsaVerify := rsaVerify),
                   cert, data, sig)
         == Verify(env, cert, data, sig)
  {
  }

  /** With a base64 encoder that emits only its alphabet, the PEM public key handed to
      Node holds the BEGIN line, the encoded key in 64-character lines and the END line. */
  lemma RsaKeyPemLines(env: Env, key: Bytes)
    requires env.WellFormed()
    ensures NoLineBreaks(env.base64(key))
    ensures var ls := Lines(Pem(env.base64, key, "PUBLIC KEY"));
      && |ls| == |env.base64(key)| / 64 + 3
      && ls[1..|ls| - 1] == Chunks(env.base64(key))
  {
    var b := env.base64(key);
    forall i | 0 <= i < |b| ensures !IsLineTerminator(b[i]) {
      assert IsBase64Char(b[i]);
    }
    PemLines(b, "PUBLIC KEY");
  }
}
