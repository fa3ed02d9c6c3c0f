/** The algorithm table of crypto.ts and the `hash` dispatch built on it. One table
    holds two kinds of entry keyed by OID: four digest algorithms, each mapped to its
    hash function, and five RSA signature schemes, each mapped to the NAME of its digest. */
module Registry {
  import opened Wrappers
  import opened Asn
  import opened Externals

  datatype AlgEntry = HashFunction(digest: Digest) | DigestName(name: string)

  const Sha1Oid: Oid := "1.3.14.3.2.26"
  const Sha256Oid: Oid := "2.16.840.1.101.3.4.2.1"
  const Sha384Oid: Oid := "2.16.840.1.101.3.4.2.2"
  const Sha512Oid: Oid := "2.16.840.1.101.3.4.2.3"

  const Sha1WithRsaOid: Oid := "1.2.840.113549.1.1.5"
  const Sha256WithRsaOid: Oid := "1.2.840.113549.1.1.11"
  const Sha384WithRsaOid: Oid := "1.2.840.113549.1.1.12"
  const Sha512WithRsaOid: Oid := "1.2.840.113549.1.1.13"
  const Sha224WithRsaOid: Oid := "1.2.840.113549.1.1.14"

  /** The `alg` table. */
  const Alg: map<Oid, AlgEntry> := map[
    Sha1Oid := HashFunction(Sha1),
    Sha256Oid := HashFunction(Sha256),
    Sha384Oid := HashFunction(Sha384),
    Sha512Oid := HashFunction(Sha512),
    Sha1WithRsaOid := DigestName("sha1"),
    Sha256WithRsaOid := DigestName("sha256"),
    Sha384WithRsaOid := DigestName("sha384"),
    Sha512WithRsaOid := DigestName("sha512"),
    Sha224WithRsaOid := DigestName("sha224")
  ]

  /** The digest-algorithm identifiers, listed independently of the table. */
  const DigestOids: set<Oid> := {Sha1Oid, Sha256Oid, Sha384Oid, Sha512Oid}

  /** The RSA signature-scheme identifiers, listed independently of the table. */
  const RsaSignatureOids: set<Oid> :=
    {Sha1WithRsaOid, Sha256WithRsaOid, Sha384WithRsaOid, Sha512WithRsaOid, Sha224WithRsaOid}

  /** The digest each digest-algorithm identifier names. */
  function DigestOf(oid: Oid): Digest
    requires oid in DigestOids
  {
    if oid == Sha1Oid then Sha1
    else if oid == Sha256Oid then Sha256
    else if oid == Sha384Oid then Sha384
    else Sha512
  }

  /** The table's keys are exactly the two identifier families, which are disjoint;
      only the digest family maps to something callable. */
  lemma AlgKeys()
    ensures Alg.Keys == DigestOids + RsaSignatureOids
    ensures DigestOids !! RsaSignatureOids
    ensures forall oid :: oid in Alg ==> (Alg[oid].HashFunction? <==> oid in DigestOids)
  {
  }

  /** `hash(oid, data)`: look the OID up and call the entry. A missing key yields
      `undefined` and a string entry is not callable; both throw a TypeError. */
  function Hash(env: Env, oid: Oid, data: Bytes): (r: Result<Bytes>)
    ensures r.Ok? <==> oid in DigestOids
    ensures r.Ok? ==> r.value == env.digest(DigestOf(oid), data)
    ensures r.Err? ==> r.error == TypeError
  {
    if oid !in Alg then Err(TypeError)
    else match Alg[oid]
      case HashFunction(d) => Ok(env.digest(d, data))
      case DigestName(_) => Err(TypeError)
  }

  /** With well-behaved hash functions, `hash` returns 20, 32, 48 or 64 bytes for
      SHA-1, SHA-256, SHA-384 and SHA-512. */
  lemma HashLength(env: Env, oid: Oid, data: Bytes)
    requires env.WellFormed()
    requires oid in DigestOids
    ensures Hash(env, oid, data).Ok?
    ensures oid == Sha1Oid ==> |Hash(env, oid, data).value| == 20
    ensures oid == Sha256Oid ==> |Hash(env, oid, data).value| == 32
    ensures oid == Sha384Oid ==> |Hash(env, oid, data).value| == 48
    ensures oid == Sha512Oid ==> |Hash(env, oid, data).value| == 64
  {
    var d := DigestOf(oid);
    assert |env.digest(d, data)| == DigestSize(d);
  }

  /** The five RSA signature identifiers are keys of the table, yet `hash` rejects them. */
  lemma HashRejectsRsaOids(env: Env, oid: Oid, data: Bytes)
    requires oid in RsaSignatureOids
    ensures oid in Alg
    ensures Hash(env, oid, data) == Err(TypeError)
  {
    AlgKeys();
  }
}
