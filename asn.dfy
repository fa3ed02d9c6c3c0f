/** The parsed documents the verifier consumes: X.509 certificates as the CMS
    `CertificateChoices` type exposes them, the Security Object Document (SOD) of an
    ICAO 9303 passport and the master list (PKD). Decoding is done by an external
    ASN.1 library; these datatypes expose only the fields the verifier reads. */
module Asn {
  import opened Wrappers

  type Bytes = seq<bv8>

  /** An object identifier in dotted-decimal form, as the decoder renders it. */
  type Oid = string

  /** An X.520 attribute value. `printableString` is set when the value was encoded as a
      PrintableString; `rendered` is the value's string form (its `toString()`), which is
      what JavaScript's loose `==` against a string compares. */
  datatype AttributeValue = AttributeValue(printableString: Option<string>, rendered: string)

  datatype AttributeTypeAndValue = AttributeTypeAndValue(attrType: Oid, value: AttributeValue)

  /** A relative distinguished name: the decoder yields an array of attributes, which
      may be empty even though X.501 asks for at least one. */
  type Rdn = seq<AttributeTypeAndValue>

  datatype SubjectPublicKeyInfo = SubjectPublicKeyInfo(
    algorithm: Oid,
    parameters: Option<Bytes>,   // the raw DER of the algorithm parameters, if any
    subjectPublicKey: Bytes)

  /** `rest` stands for the fields the verifier never inspects (serial, issuer,
      validity, extensions); they still take part in the TBS encoding. */
  datatype TbsCertificate = TbsCertificate(
    subject: seq<Rdn>,
    subjectPublicKeyInfo: SubjectPublicKeyInfo,
    rest: Bytes)

  datatype Certificate = Certificate(
    tbsCertificate: TbsCertificate,
    signatureAlgorithm: Oid,
    signatureValue: Bytes)

  /** CMS `CertificateChoices`: an X.509 certificate or one of the other (obsolete)
      alternatives, for which the `certificate` property is undefined. */
  datatype CertificateChoice = X509(certificate: Certificate) | OtherChoice

  /** A CMS attribute: its type and its undecoded values. */
  datatype CmsAttribute = CmsAttribute(attrType: Oid, attrValues: seq<Bytes>)

  datatype DataGroupHash = DataGroupHash(number: nat, hash: Bytes)

  datatype LdsObject = LdsObject(algorithm: Oid, hashes: seq<DataGroupHash>)

  datatype SignerInfo = SignerInfo(
    digestAlgorithm: Oid,
    signedAttrs: Option<seq<CmsAttribute>>,
    signature: Bytes)

  datatype Sod = Sod(
    ldsObject: LdsObject,
    signatures: seq<SignerInfo>,
    certificates: Option<seq<CertificateChoice>>)

  datatype Pkd = Pkd(certificates: seq<CertificateChoice>)
}
