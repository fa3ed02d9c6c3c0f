/** The foreign code the verifier calls: the ASN.1 codec, the hash functions, the
    elliptic-curve library and Node's RSA verifier. Each is an arbitrary total function
    supplied by the caller; `None` stands for a call that throws. */
module Externals {
  import opened Wrappers
  import opened Asn

  datatype Digest = Sha1 | Sha224 | Sha256 | Sha384 | Sha512

  /** Output length in bytes of each digest (FIPS 180-4). */
  function DigestSize(d: Digest): nat {
    match d
    case Sha1 => 20
    case Sha224 => 28
    case Sha256 => 32
    case Sha384 => 48
    case Sha512 => 64
  }

  /** Parsed `ECParameters` (RFC 3279): a named curve, explicit domain parameters or
      the implicit curve of the issuer. */
  datatype EcParams = NamedCurve(curveOid: Oid) | SpecifiedCurve(der: Bytes) | ImplicitCurve

  type Positive = n: nat | n > 0 witness 1

  /** A resolved curve; only its group order takes part in the model (low-S form). */
  datatype Curve = Curve(name: string, order: Positive)

  datatype EcSignature = EcSignature(r: nat, s: nat)

  /** Canonical low-S form: an `s` above half the group order is replaced by its
      negation modulo the order; a signature already in low-S form is unchanged. */
  function NormalizeS(curve: Curve, sig: EcSignature): (r: EcSignature)
    ensures r.r == sig.r
    ensures sig.s <= curve.order / 2 ==> r == sig
    ensures sig.s < curve.order ==> r.s <= curve.order / 2
    ensures curve.order / 2 < sig.s < curve.order ==> r.s == curve.order - sig.s
  {
    if sig.s > curve.order / 2 then EcSignature(sig.r, (-(sig.s as int)) % curve.order) else sig
  }

  datatype Env = Env(
    // ASN.1 codec (AsnConvert.serialize / AsnConvert.parse)
    encodeLds: LdsObject -> Option<Bytes>,
    encodeTbs: TbsCertificate -> Option<Bytes>,
    encodeSpki: SubjectPublicKeyInfo -> Option<Bytes>,
    encodeSignedAttrsSet: seq<CmsAttribute> -> Option<Bytes>,
    decodeOctetString: Bytes -> Option<Bytes>,
    decodeEcParams: Bytes -> Option<EcParams>,
    // Buffer.toString("base64")
    base64: Bytes -> string,
    // the digest functions of the hash library
    digest: (Digest, Bytes) -> Bytes,
    // the ECDSA library: hashFromECDSAOID, curveFromECParams, Signature.fromDER, verify
    ecdsaHash: Oid -> Option<Digest>,
    curveFromParams: EcParams -> Option<Curve>,
    signatureFromDer: (Curve, Bytes) -> Option<EcSignature>,
    curveVerify: (Curve, EcSignature, Bytes, Bytes) -> Option<bool>,
    // Node's crypto.verify with PSS padding: digest name, data, PEM key, signature
    rsaVerify: (string, Bytes, string, Bytes) -> Option<bool>)
  {
    /** What the libraries promise: digests have their fixed length and base64 output
        uses only the RFC 4648 alphabet and padding. */
    ghost predicate WellFormed() {
      && (forall d, b :: |digest(d, b)| == DigestSize(d))
      && (forall b, i :: 0 <= i < |base64(b)| ==> IsBase64Char(base64(b)[i]))
    }
  }

  /** The alphabet of section 4 of RFC 4648 plus the pad character. */
  predicate IsBase64Char(c: char) {
    ('A' <= c <= 'Z') || ('a' <= c <= 'z') || ('0' <= c <= '9') || c == '+' || c == '/' || c == '='
  }
}
