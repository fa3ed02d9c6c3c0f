/** `getCertsByCountryCode(certs, code)` of crypto.ts: an order-preserving filter of a
    certificate set, keeping a certificate when the first attribute of one of its
    subject's RDNs is a country attribute (2.5.4.6) whose value equals `code`. */
module CertFilter {
  import opened Wrappers
  import opened Asn

  const CountryOid: Oid := "2.5.4.6"

  /** `value == code` for an attribute-value object: against a string, JavaScript compares
      the object's string rendering; against `undefined` (None), no object is equal. */
  function LooseEquals(v: AttributeValue, code: Option<string>): (eq: bool)
    ensures eq <==> code == Some(v.rendered)
  {
    code.Some? && v.rendered == code.value
  }

  /** The inner filter's test on one RDN, for an RDN that has a first attribute. */
  predicate RdnMatches(rdn: Rdn, code: Option<string>) {
    |rdn| > 0 && rdn[0].attrType == CountryOid && LooseEquals(rdn[0].value, code)
  }

  /** A certificate the filter keeps. */
  predicate Matches(c: CertificateChoice, code: Option<string>) {
    c.X509? &&
    exists k :: 0 <= k < |c.certificate.tbsCertificate.subject| &&
      RdnMatches(c.certificate.tbsCertificate.subject[k], code)
  }

  /** A certificate on which the filter throws: reading `i[0].type` of an empty RDN. */
  predicate HasEmptyRdn(c: CertificateChoice) {
    c.X509? &&
    exists k :: 0 <= k < |c.certificate.tbsCertificate.subject| &&
      c.certificate.tbsCertificate.subject[k] == []
  }

  /** `subject.filter(i => i[0].type == "2.5.4.6" && i[0].value == code)`. */
  function MatchingRdns(subject: seq<Rdn>, code: Option<string>): (r: Result<seq<Rdn>>)
    ensures r.Err? <==> exists k :: 0 <= k < |subject| && subject[k] == []
    ensures r.Ok? ==> (r.value != [] <==> exists k :: 0 <= k < |subject| && RdnMatches(subject[k], code))
  {
    if subject == [] then Ok([])
    else if subject[0] == [] then Err(TypeError)
    else
      var rest :- MatchingRdns(subject[1..], code);
      assert forall k :: 1 <= k < |subject| ==> subject[k] == subject[1..][k - 1];
      if RdnMatches(subject[0], code) then Ok([subject[0]] + rest) else Ok(rest)
  }

  /** The outer filter's test: a missing `certificate` short-circuits to `undefined`,
      otherwise the first matching RDN (an array, hence truthy) decides. */
  function Keep(c: CertificateChoice, code: Option<string>): (r: Result<bool>)
    ensures r.Err? <==> HasEmptyRdn(c)
    ensures r.Ok? ==> (r.value <==> Matches(c, code))
  {
    match c
    case OtherChoice => Ok(false)
    case X509(cert) =>
      var m :- MatchingRdns(cert.tbsCertificate.subject, code);
      Ok(m != [])
  }

  /** `getCertsByCountryCode(certs, code)`. */
  function GetCertsByCountryCode(certs: seq<CertificateChoice>, code: Option<string>)
    : (r: Result<seq<CertificateChoice>>)
    ensures r.Err? <==> exists i :: 0 <= i < |certs| && HasEmptyRdn(certs[i])
    ensures r.Ok? ==> forall c :: c in r.value ==> c in certs && Matches(c, code)
  {
    if certs == [] then Ok([])
    else
      var keep :- Keep(certs[0], code);
      var rest :- GetCertsByCountryCode(certs[1..], code);
      assert forall i :: 1 <= i < |certs| ==> certs[i] == certs[1..][i - 1];
      Ok(if keep then [certs[0]] + rest else rest)
  }

  /** `idx` lists, in increasing order, positions of `certs` whose elements make up `r`. */
  ghost predicate PicksOut(idx: seq<nat>, r: seq<CertificateChoice>, certs: seq<CertificateChoice>) {
    && |idx| == |r|
    && (forall j :: 0 <= j < |idx| ==> idx[j] < |certs| && r[j] == certs[idx[j]])
    && (forall j, j' :: 0 <= j < j' < |idx| ==> idx[j] < idx[j'])
  }

  /** Every position moved one place to the right. */
  function Shift(idx: seq<nat>): (r: seq<nat>)
    ensures |r| == |idx| && forall j :: 0 <= j < |idx| ==> r[j] == idx[j] + 1
  {
    seq(|idx|, j requires 0 <= j < |idx| => idx[j] + 1)
  }

  lemma ShiftPicksOut(idx: seq<nat>, r: seq<CertificateChoice>, certs: seq<CertificateChoice>)
    requires certs != [] && PicksOut(idx, r, certs[1..])
    ensures PicksOut(Shift(idx), r, certs)
  {
    assert forall j :: 0 <= j < |idx| ==> r[j] == certs[1..][idx[j]];
  }

  lemma ShiftMembership(idx: seq<nat>)
    ensures 0 !in Shift(idx)
    ensures forall i: nat :: i + 1 in Shift(idx) <==> i in idx
  {
    var shifted := Shift(idx);
    forall i: nat ensures i + 1 in shifted <==> i in idx {
      if i in idx {
        var j :| 0 <= j < |idx| && idx[j] == i;
        assert shifted[j] == i + 1;
      }
    }
  }

  /** Extending the positions picked out of `certs[1..]` to those picked out of `certs`,
      with or without `certs[0]` in front. */
  lemma ShiftPositions(idx: seq<nat>, r: seq<CertificateChoice>, certs: seq<CertificateChoice>, keep: bool)
    returns (idx': seq<nat>)
    requires certs != [] && PicksOut(idx, r, certs[1..])
    ensures PicksOut(idx', if keep then [certs[0]] + r else r, certs)
    ensures forall i :: 0 <= i < |certs| ==> (i in idx' <==> if i == 0 then keep else i - 1 in idx)
  {
    var shifted := Shift(idx);
    ShiftPicksOut(idx, r, certs);
    ShiftMembership(idx);
    idx' := if keep then [0] + shifted else shifted;
    if keep {
      ConsPosition(shifted, r, certs);
    }
    forall i | 0 <= i < |certs| ensures i in idx' <==> if i == 0 then keep else i - 1 in idx {
      if i > 0 {
        assert (i - 1) + 1 == i;
      }
    }
  }

  lemma ConsPosition(shifted: seq<nat>, r: seq<CertificateChoice>, certs: seq<CertificateChoice>)
    requires certs != [] && PicksOut(shifted, r, certs) && 0 !in shifted
    ensures PicksOut([0] + shifted, [certs[0]] + r, certs)
  {
    var idx', r' := [0] + shifted, [certs[0]] + r;
    forall j | 0 <= j < |idx'| ensures idx'[j] < |certs| && r'[j] == certs[idx'[j]] {
      if j > 0 {
        assert idx'[j] == shifted[j - 1] && r'[j] == r[j - 1];
      }
    }
    forall j, j' | 0 <= j < j' < |idx'| ensures idx'[j] < idx'[j'] {
      assert idx'[j'] == shifted[j' - 1];
      if j > 0 {
        assert idx'[j] == shifted[j - 1];
      }
    }
  }

  /** The result is the subsequence of the input made of the matching certificates:
      `idx` lists, in increasing order, the positions of the certificates kept, and a
      position is listed exactly when its certificate matches. */
  lemma {:induction false} FilterIsOrderedSubsequence(certs: seq<CertificateChoice>, code: Option<string>)
    returns (idx: seq<nat>)
    requires GetCertsByCountryCode(certs, code).Ok?
    ensures PicksOut(idx, GetCertsByCountryCode(certs, code).value, certs)
    ensures forall i :: 0 <= i < |certs| ==> (i in idx <==> Matches(certs[i], code))
  {
    if certs == [] {
      idx := [];
    } else {
      var tail := FilterIsOrderedSubsequence(certs[1..], code);
      var rest := GetCertsByCountryCode(certs[1..], code).value;
      idx := ShiftPositions(tail, rest, certs, Keep(certs[0], code).value);
      assert forall i :: 1 <= i < |certs| ==> certs[i] == certs[1..][i - 1];
    }
  }

  /** Filtering a result again changes nothing. */
  lemma {:induction false} FilterIdempotent(certs: seq<CertificateChoice>, code: Option<string>)
    requires GetCertsByCountryCode(certs, code).Ok?
    ensures GetCertsByCountryCode(GetCertsByCountryCode(certs, code).value, code)
      == GetCertsByCountryCode(certs, code)
  {
    if certs != [] {
      FilterIdempotent(certs[1..], code);
      var rest := GetCertsByCountryCode(certs[1..], code).value;
      if Keep(certs[0], code).value {
        assert ([certs[0]] + rest)[1..] == rest;
      }
    }
  }

  /** When no certificate matches (and none makes the filter throw) the result is empty. */
  lemma FilterNoMatch(certs: seq<CertificateChoice>, code: Option<string>)
    requires forall i :: 0 <= i < |certs| ==> !HasEmptyRdn(certs[i]) && !Matches(certs[i], code)
    ensures GetCertsByCountryCode(certs, code) == Ok([])
  {
  }

  /** `code` undefined, as index.ts passes when the country is not a PrintableString:
      nothing matches. */
  lemma FilterUndefinedCode(certs: seq<CertificateChoice>)
    requires GetCertsByCountryCode(certs, None).Ok?
    ensures GetCertsByCountryCode(certs, None) == Ok([])
  {
  }
}
