/** The passive-authentication script of index.ts (ICAO Doc 9303 Part 11, section 5.1):
    four steps run in order over an already parsed SOD and master list, each printing
    its verdict. An exception that escapes a step ends the script; the lines printed so
    far are kept. Reading a data-group file is a function supplied by the caller. */
module PassiveAuth {
  import opened Wrappers
  import opened Asn
  import opened Externals
  import opened Registry
  import opened CertFilter
  import opened Signature

  /** The message-digest signed attribute (section 11.2 of RFC 5652). */
  const MessageDigestOid: Oid := "1.2.840.113549.1.9.4"

  /** `fs.readFileSync` of `EF_DG<n>.BIN`: the bytes, or the thrown error's name. */
  datatype ReadResult = Found(bytes: Bytes) | ReadError(name: string)

  type FileReader = nat -> ReadResult

  datatype DgStatus = DgOk | DgFailed | DgSkipped | DgLogged(fault: Fault)

  /** The verdict lines the script prints. */
  datatype Line =
    | LdsObjectHash(ok: bool)
    | Datagroup(number: nat, status: DgStatus)
    | SodSignature(ok: bool)
    | DscCertificate(ok: bool)

  /** Everything printed, and the exception that ended the script early, if any. */
  datatype Outcome = Outcome(lines: seq<Line>, abort: Option<Fault>)

  // ---------------------------------------------------------------- Step 1

  /** The position `filter(i => i.attrType == t)[0]` picks: the first attribute of type `t`. */
  function FirstIndexOf(attrs: seq<CmsAttribute>, t: Oid): (r: Option<nat>)
    ensures r.None? <==> forall i :: 0 <= i < |attrs| ==> attrs[i].attrType != t
    ensures r.Some? ==> r.value < |attrs| && attrs[r.value].attrType == t
    ensures r.Some? ==> forall j :: 0 <= j < r.value ==> attrs[j].attrType != t
  {
    if attrs == [] then None
    else if attrs[0].attrType == t then Some(0)
    else match FirstIndexOf(attrs[1..], t)
      case None => None
      case Some(k) => Some(k + 1)
  }

  /** index.ts line 22: the first value of the first message-digest attribute, decoded as
      an OCTET STRING. Missing signed attributes or a missing message-digest attribute
      make a property read on `undefined` throw. */
  function MessageDigest(env: Env, si: SignerInfo): (r: Result<Bytes>)
    ensures r.Ok? <==>
      && si.signedAttrs.Some?
      && FirstIndexOf(si.signedAttrs.value, MessageDigestOid).Some?
      && var k := FirstIndexOf(si.signedAttrs.value, MessageDigestOid).value;
      && |si.signedAttrs.value[k].attrValues| > 0
      && env.decodeOctetString(si.signedAttrs.value[k].attrValues[0]).Some?
    ensures si.signedAttrs.Some? && FirstIndexOf(si.signedAttrs.value, MessageDigestOid).None?
            ==> r == Err(TypeError)
    ensures r.Ok? ==>
      var attrs := si.signedAttrs.value;
      exists k :: 0 <= k < |attrs| && FirstIndexOf(attrs, MessageDigestOid) == Some(k)
        && |attrs[k].attrValues| > 0 && env.decodeOctetString(attrs[k].attrValues[0]) == Some(r.value)
  {
    var attrs :- OrThrow(si.signedAttrs, TypeError);
    match FirstIndexOf(attrs, MessageDigestOid)
    case None => Err(TypeError)
    case Some(k) =>
      if attrs[k].attrValues == [] then Err(TypeError)
      else OrThrow(env.decodeOctetString(attrs[k].attrValues[0]), CodecError)
  }

  /** Step 1: the message digest attribute against the hash of the re-encoded LDS object
      under the first signer's digest algorithm. */
  function Step1(env: Env, sod: Sod): (r: Result<bool>)
    ensures r.Ok? <==>
      && sod.signatures != []
      && MessageDigest(env, sod.signatures[0]).Ok?
      && env.encodeLds(sod.ldsObject).Some?
      && sod.signatures[0].digestAlgorithm in DigestOids
    ensures r.Ok? ==>
      (r.value <==> MessageDigest(env, sod.signatures[0]).value
                    == env.digest(DigestOf(sod.signatures[0].digestAlgorithm), env.encodeLds(sod.ldsObject).value))
  {
    if sod.signatures == [] then Err(TypeError)
    else
      var si := sod.signatures[0];
      var expected :- MessageDigest(env, si);
      var lds :- OrThrow(env.encodeLds(sod.ldsObject), CodecError);
      var actual :- Hash(env, si.digestAlgorithm, lds);
      Ok(expected == actual)
  }

  /** Only the first message-digest attribute counts: whatever follows it, duplicates
      included, does not change the value Step 1 compares. */
  lemma {:induction false} MessageDigestUsesFirst(env: Env, si: SignerInfo,
                                                  pre: seq<CmsAttribute>, a: CmsAttribute, post: seq<CmsAttribute>)
    requires si.signedAttrs == Some(pre + [a] + post)
    requires a.attrType == MessageDigestOid
    requires forall i :: 0 <= i < |pre| ==> pre[i].attrType != MessageDigestOid
    ensures MessageDigest(env, si) == MessageDigest(env, si.(signedAttrs := Some([a])))
  {
    var attrs := pre + [a] + post;
    assert attrs[|pre|] == a;
    assert FirstIndexOf(attrs, MessageDigestOid) == Some(|pre|);
    assert FirstIndexOf([a], MessageDigestOid) == Some(0);
  }

  // ---------------------------------------------------------------- Step 2

  /** The catch block of Step 2: an error named ENOENT is a skipped file, anything else is
      logged; either way the loop goes on. */
  function Catch(f: Fault): (s: DgStatus)
    ensures s == DgSkipped <==> f.Name() == "ENOENT"
    ensures s != DgSkipped ==> s == DgLogged(f)
  {
    if f.Name() == "ENOENT" then DgSkipped else DgLogged(f)
  }

  /** The outcome of one entry of the LDS hash list. */
  function DatagroupStatus(env: Env, algorithm: Oid, entry: DataGroupHash, read: FileReader): (s: DgStatus)
    ensures s == DgOk <==>
      read(entry.number).Found? && algorithm in DigestOids
      && env.digest(DigestOf(algorithm), read(entry.number).bytes) == entry.hash
    ensures s == DgFailed <==>
      read(entry.number).Found? && algorithm in DigestOids
      && env.digest(DigestOf(algorithm), read(entry.number).bytes) != entry.hash
    ensures s == DgSkipped <==> read(entry.number) == ReadError("ENOENT")
    ensures s.DgLogged? <==>
      (read(entry.number).ReadError? && read(entry.number).name != "ENOENT")
      || (read(entry.number).Found? && algorithm !in DigestOids)
  {
    match read(entry.number)
    case ReadError(name) => Catch(SystemError(name))
    case Found(bytes) =>
      match Hash(env, algorithm, bytes)
      case Err(f) => Catch(f)
      case Ok(h) => if h == entry.hash then DgOk else DgFailed
  }

  function DatagroupLines(env: Env, lds: LdsObject, read: FileReader): seq<Line> {
    seq(|lds.hashes|, k requires 0 <= k < |lds.hashes| =>
      Datagroup(lds.hashes[k].number, DatagroupStatus(env, lds.algorithm, lds.hashes[k], read)))
  }

  /** Step 2: the loop over the LDS hash list, one line per entry in list order; no entry
      stops the loop. */
  method CheckDatagroups(env: Env, lds: LdsObject, read: FileReader) returns (lines: seq<Line>)
    ensures |lines| == |lds.hashes|
    ensures forall k :: 0 <= k < |lines| ==>
      lines[k] == Datagroup(lds.hashes[k].number, DatagroupStatus(env, lds.algorithm, lds.hashes[k], read))
    ensures lines == DatagroupLines(env, lds, read)
  {
    lines := [];
    for i := 0 to |lds.hashes|
      invariant |lines| == i
      invariant forall k :: 0 <= k < i ==>
        lines[k] == Datagroup(lds.hashes[k].number, DatagroupStatus(env, lds.algorithm, lds.hashes[k], read))
    {
      var entry := lds.hashes[i];
      var status: DgStatus;
      match read(entry.number) {
        case ReadError(name) =>
          status := Catch(SystemError(name));
        case Found(bytes) =>
          var h := Hash(env, lds.algorithm, bytes);
          if h.Err? {
            status := Catch(h.error);
          } else if h.value == entry.hash {
            status := DgOk;
          } else {
            status := DgFailed;
          }
      }
      lines := lines + [Datagroup(entry.number, status)];
    }
  }

  // ---------------------------------------------------------------- Step 3

  /** `sod.certificates?.at(0)`; `undefined` makes `verify` throw before its try blocks. */
  function FirstCertificate(sod: Sod): (r: Result<CertificateChoice>)
    ensures r.Ok? <==> sod.certificates.Some? && sod.certificates.value != []
    ensures r.Ok? ==> r.value == sod.certificates.value[0]
  {
    match sod.certificates
    case None => Err(TypeError)
    case Some(certs) => if certs == [] then Err(TypeError) else Ok(certs[0])
  }

  /** `new SignedAttributes(sod.signatures.at(0)?.signedAttrs)`: an absent collection
      gives an empty SET. */
  function SignedAttributesSet(sod: Sod): (r: seq<CmsAttribute>)
    ensures sod.signatures != [] && sod.signatures[0].signedAttrs.Some? ==>
              r == sod.signatures[0].signedAttrs.value
    ensures sod.signatures == [] || sod.signatures[0].signedAttrs.None? ==> r == []
  {
    if sod.signatures != [] && sod.signatures[0].signedAttrs.Some?
    then sod.signatures[0].signedAttrs.value else []
  }

  /** Step 3: `verify` of the first SOD certificate over the signed attributes re-encoded
      as a SET, against the first signer's signature. */
  function Step3(env: Env, sod: Sod): (r: Result<bool>)
    ensures r.Ok? <==>
      && env.encodeSignedAttrsSet(SignedAttributesSet(sod)).Some?
      && sod.signatures != []
      && FirstCertificate(sod).Ok?
    ensures r.Ok? ==>
      r.value == Verify(env, sod.certificates.value[0],
                        env.encodeSignedAttrsSet(SignedAttributesSet(sod)).value,
                        sod.signatures[0].signature)
  {
    var attrBytes :- OrThrow(env.encodeSignedAttrsSet(SignedAttributesSet(sod)), CodecError);
    if sod.signatures == [] then Err(TypeError)
    else
      var dsc :- FirstCertificate(sod);
      Ok(Verify(env, dsc, attrBytes, sod.signatures[0].signature))
  }

  // ---------------------------------------------------------------- Step 4

  predicate HasCountryAttribute(rdn: Rdn) {
    exists i :: 0 <= i < |rdn| && rdn[i].attrType == CountryOid
  }

  /** The position `subject.filter(j => j.filter(i => i.type == "2.5.4.6")[0])[0]` picks:
      the first RDN holding a country attribute anywhere. */
  function FirstCountryRdn(subject: seq<Rdn>): (r: Option<nat>)
    ensures r.None? <==> forall k :: 0 <= k < |subject| ==> !HasCountryAttribute(subject[k])
    ensures r.Some? ==> r.value < |subject| && HasCountryAttribute(subject[r.value])
    ensures r.Some? ==> forall k :: 0 <= k < r.value ==> !HasCountryAttribute(subject[k])
  {
    if subject == [] then None
    else if HasCountryAttribute(subject[0]) then Some(0)
    else match FirstCountryRdn(subject[1..])
      case None => None
      case Some(k) => Some(k + 1)
  }

  /** index.ts line 52: the `printableString` of the FIRST attribute of that RDN (not
      necessarily the country attribute); without any such RDN, `undefined[0]` throws. */
  function CountryCode(subject: seq<Rdn>): (r: Result<Option<string>>)
    ensures r.Ok? <==> exists k :: 0 <= k < |subject| && HasCountryAttribute(subject[k])
    ensures r.Ok? ==> exists k :: 0 <= k < |subject| && FirstCountryRdn(subject) == Some(k)
                         && r.value == subject[k][0].value.printableString
  {
    match FirstCountryRdn(subject)
    case None => Err(TypeError)
    case Some(k) => Ok(subject[k][0].value.printableString)
  }

  /** Whatever attribute comes first in the first RDN holding a country attribute
      supplies the country code, be it the country attribute or not. */
  lemma CountryCodeIsFirstAttribute(subject: seq<Rdn>, k: nat)
    requires k < |subject| && HasCountryAttribute(subject[k])
    requires forall j :: 0 <= j < k ==> !HasCountryAttribute(subject[j])
    ensures CountryCode(subject) == Ok(subject[k][0].value.printableString)
  {
  }

  /** An instance: a multi-valued RDN whose country attribute is not first yields another
      attribute's value as the country code. */
  lemma CountryCodeOfMultiValuedRdn()
    ensures var cn := AttributeTypeAndValue("2.5.4.3", AttributeValue(Some("Signer"), "Signer"));
      var c := AttributeTypeAndValue(CountryOid, AttributeValue(Some("RU"), "RU"));
      CountryCode([[cn, c]]) == Ok(Some("Signer"))
  {
    var cn := AttributeTypeAndValue("2.5.4.3", AttributeValue(Some("Signer"), "Signer"));
    var c := AttributeTypeAndValue(CountryOid, AttributeValue(Some("RU"), "RU"));
    assert [cn, c][1] == c;
    assert HasCountryAttribute([cn, c]);
  }

  /** What Step 4 reads from the document signer certificate (lines 49-52). */
  datatype DscMaterial = DscMaterial(tbs: Bytes, signature: Bytes, code: Option<string>)

  function DscInputs(env: Env, dsc: CertificateChoice): (r: Result<DscMaterial>)
    ensures r.Ok? <==>
      dsc.X509? && env.encodeTbs(dsc.certificate.tbsCertificate).Some?
      && CountryCode(dsc.certificate.tbsCertificate.subject).Ok?
    ensures r.Ok? ==>
      && r.value.tbs == env.encodeTbs(dsc.certificate.tbsCertificate).value
      && r.value.signature == dsc.certificate.signatureValue
      && r.value.code == CountryCode(dsc.certificate.tbsCertificate.subject).value
  {
    match dsc
    case OtherChoice => Err(TypeError)
    case X509(c) =>
      var tbs :- OrThrow(env.encodeTbs(c.tbsCertificate), CodecError);
      var code :- CountryCode(c.tbsCertificate.subject);
      Ok(DscMaterial(tbs, c.signatureValue, code))
  }

  predicate AnyVerifies(env: Env, candidates: seq<CertificateChoice>, tbs: Bytes, sig: Bytes) {
    exists i :: 0 <= i < |candidates| && Verify(env, candidates[i], tbs, sig)
  }

  /** Step 4: the master-list certificates of the signer's country, tried in order. */
  function Step4(env: Env, sod: Sod, pkd: Pkd): (r: Result<bool>)
    ensures r.Err? <==>
      || FirstCertificate(sod).Err?
      || DscInputs(env, FirstCertificate(sod).value).Err?
      || exists i :: 0 <= i < |pkd.certificates| && HasEmptyRdn(pkd.certificates[i])
  {
    var dsc :- FirstCertificate(sod);
    var m :- DscInputs(env, dsc);
    var candidates :- GetCertsByCountryCode(pkd.certificates, m.code);
    Ok(AnyVerifies(env, candidates, m.tbs, m.signature))
  }

  /** The Step 4 loop: `dscResult` starts false, becomes true at the first candidate that
      verifies the signer certificate, and the loop stops there. `tried` counts the calls
      of `verify`. */
  method CheckDsc(env: Env, candidates: seq<CertificateChoice>, tbs: Bytes, sig: Bytes)
    returns (trusted: bool, ghost tried: nat)
    ensures trusted <==> AnyVerifies(env, candidates, tbs, sig)
    ensures tried <= |candidates|
    ensures trusted ==> 0 < tried && Verify(env, candidates[tried - 1], tbs, sig)
    ensures trusted ==> forall j :: 0 <= j < tried - 1 ==> !Verify(env, candidates[j], tbs, sig)
    ensures !trusted ==> tried == |candidates|
  {
    trusted := false;
    tried := 0;
    var i := 0;
    while i < |candidates|
      invariant 0 <= i <= |candidates|
      invariant !trusted && tried == i
      invariant forall j :: 0 <= j < i ==> !Verify(env, candidates[j], tbs, sig)
    {
      tried := tried + 1;
      if Verify(env, candidates[i], tbs, sig) {
        trusted := true;
        break;
      }
      i := i + 1;
    }
  }

  /** Soundness of Step 4: trust is granted only by a master-list certificate of the
      signer's country code that verifies the signer certificate's TBS bytes. */
  lemma Step4Sound(env: Env, sod: Sod, pkd: Pkd)
    requires Step4(env, sod, pkd) == Ok(true)
    ensures FirstCertificate(sod).Ok? && DscInputs(env, FirstCertificate(sod).value).Ok?
    ensures var m := DscInputs(env, FirstCertificate(sod).value).value;
      exists c :: c in pkd.certificates && Matches(c, m.code) && Verify(env, c, m.tbs, m.signature)
  {
    var m := DscInputs(env, FirstCertificate(sod).value).value;
    var candidates := GetCertsByCountryCode(pkd.certificates, m.code).value;
    var i :| 0 <= i < |candidates| && Verify(env, candidates[i], m.tbs, m.signature);
    assert candidates[i] in candidates;
  }

  /** Completeness of Step 4: a verifying master-list certificate of the signer's country
      is found, provided the filter does not throw. */
  lemma Step4Complete(env: Env, sod: Sod, pkd: Pkd, c: CertificateChoice)
    requires FirstCertificate(sod).Ok? && DscInputs(env, FirstCertificate(sod).value).Ok?
    requires forall i :: 0 <= i < |pkd.certificates| ==> !HasEmptyRdn(pkd.certificates[i])
    requires var m := DscInputs(env, FirstCertificate(sod).value).value;
      c in pkd.certificates && Matches(c, m.code) && Verify(env, c, m.tbs, m.signature)
    ensures Step4(env, sod, pkd) == Ok(true)
  {
    var m := DscInputs(env, FirstCertificate(sod).value).value;
    var idx := FilterIsOrderedSubsequence(pkd.certificates, m.code);
    var candidates := GetCertsByCountryCode(pkd.certificates, m.code).value;
    var i :| 0 <= i < |pkd.certificates| && pkd.certificates[i] == c;
    assert i in idx;
    var j :| 0 <= j < |idx| && idx[j] == i;
    assert candidates[j] == c;
  }

  /** Once the signer certificate's inputs are available, an empty master list gives a
      false verdict without throwing. */
  lemma Step4EmptyMasterList(env: Env, sod: Sod, pkd: Pkd)
    requires FirstCertificate(sod).Ok? && DscInputs(env, FirstCertificate(sod).value).Ok?
    requires pkd.certificates == []
    ensures Step4(env, sod, pkd) == Ok(false)
  {
  }

  // ---------------------------------------------------------------- the script

  /** The printed lines given each step's outcome: a step that throws ends the script,
      so nothing after it is printed. */
  function Assemble(step1: Result<bool>, datagroups: seq<Line>, step3: Result<bool>, step4: Result<bool>)
    : (out: Outcome)
    ensures out.abort.None? <==> step1.Ok? && step3.Ok? && step4.Ok?
    ensures step1.Err? ==> out == Outcome([], Some(step1.error))
    ensures step1.Ok? && step3.Err? ==> |out.lines| == 1 + |datagroups| && out.abort == Some(step3.error)
    ensures step1.Ok? && step3.Ok? && step4.Err? ==> |out.lines| == 2 + |datagroups| && out.abort == Some(step4.error)
    ensures out.abort.None? ==> |out.lines| == 3 + |datagroups|
    ensures step1.Ok? && step3.Ok? ==> out.lines[1 + |datagroups|] == SodSignature(step3.value)
  {
    match step1
    case Err(f) => Outcome([], Some(f))
    case Ok(b1) =>
      var upTo2 := [LdsObjectHash(b1)] + datagroups;
      match step3
      case Err(f) => Outcome(upTo2, Some(f))
      case Ok(b3) =>
        var upTo3 := upTo2 + [SodSignature(b3)];
        match step4
        case Err(f) => Outcome(upTo3, Some(f))
        case Ok(b4) => Outcome(upTo3 + [DscCertificate(b4)], None)
  }

  /** What the script prints and whether it ends early. */
  function Expected(env: Env, sod: Sod, pkd: Pkd, read: FileReader): (out: Outcome)
    ensures Step1(env, sod).Err? ==> out == Outcome([], Some(Step1(env, sod).error))
    ensures Step1(env, sod).Ok? && Step3(env, sod).Err? ==>
      |out.lines| == 1 + |sod.ldsObject.hashes| && out.abort == Some(Step3(env, sod).error)
    ensures Step1(env, sod).Ok? && Step3(env, sod).Ok? ==>
      && |out.lines| >= 2 + |sod.ldsObject.hashes|
      && out.lines[1 + |sod.ldsObject.hashes|] == SodSignature(Step3(env, sod).value)
  {
    Assemble(Step1(env, sod), DatagroupLines(env, sod.ldsObject, read), Step3(env, sod), Step4(env, sod, pkd))
  }

  /** index.ts lines 20-59. */
  method PassiveAuthentication(env: Env, sod: Sod, pkd: Pkd, read: FileReader) returns (out: Outcome)
    ensures out == Expected(env, sod, pkd, read)
  {
    var step1 := Step1(env, sod);
    if step1.Err? {
      return Outcome([], Some(step1.error));
    }
    var datagroups := CheckDatagroups(env, sod.ldsObject, read);
    var lines := [LdsObjectHash(step1.value)] + datagroups;

    var step3 := Step3(env, sod);
    if step3.Err? {
      return Outcome(lines, Some(step3.error));
    }
    lines := lines + [SodSignature(step3.value)];

    var step4 := RunStep4(env, sod, pkd);
    if step4.Err? {
      return Outcome(lines, Some(step4.error));
    }
    lines := lines + [DscCertificate(step4.value)];
    out := Outcome(lines, None);
  }

  /** index.ts lines 48-58: the signer certificate's material, the filtered candidates,
      then the loop. */
  method RunStep4(env: Env, sod: Sod, pkd: Pkd) returns (r: Result<bool>)
    ensures r == Step4(env, sod, pkd)
  {
    var dsc := FirstCertificate(sod);
    if dsc.Err? {
      return Err(dsc.error);
    }
    var material := DscInputs(env, dsc.value);
    if material.Err? {
      return Err(material.error);
    }
    var candidates := GetCertsByCountryCode(pkd.certificates, material.value.code);
    if candidates.Err? {
      return Err(candidates.error);
    }
    var trusted, tried := CheckDsc(env, candidates.value, material.value.tbs, material.value.signature);
    r := Ok(trusted);
  }

  lemma AssemblePrefix(step1: Result<bool>, datagroups: seq<Line>, step3: Result<bool>, step4: Result<bool>)
    requires step1.Ok?
    ensures var lines := Assemble(step1, datagroups, step3, step4).lines;
      && |lines| >= 1 + |datagroups|
      && lines[0] == LdsObjectHash(step1.value)
      && forall k :: 0 <= k < |datagroups| ==> lines[1 + k] == datagroups[k]
  {
    var lines := Assemble(step1, datagroups, step3, step4).lines;
    var upTo2 := [LdsObjectHash(step1.value)] + datagroups;
    assert lines[..|upTo2|] == upTo2;
    forall k | 0 <= k < |datagroups| ensures lines[1 + k] == datagroups[k] {
      assert lines[1 + k] == upTo2[1 + k];
    }
  }

  /** Once Step 1 completes, every entry of the LDS hash list is reported, in list order,
      whatever happens to the later steps. */
  lemma RunReportsEveryDatagroup(env: Env, sod: Sod, pkd: Pkd, read: FileReader)
    requires Step1(env, sod).Ok?
    ensures var out := Expected(env, sod, pkd, read);
      var hs := sod.ldsObject.hashes;
      && |out.lines| >= 1 + |hs|
      && out.lines[0] == LdsObjectHash(Step1(env, sod).value)
      && forall k :: 0 <= k < |hs| ==>
           out.lines[1 + k] == Datagroup(hs[k].number, DatagroupStatus(env, sod.ldsObject.algorithm, hs[k], read))
  {
    var dg := DatagroupLines(env, sod.ldsObject, read);
    var out := Assemble(Step1(env, sod), dg, Step3(env, sod), Step4(env, sod, pkd));
    assert Expected(env, sod, pkd, read) == out;
    AssemblePrefix(Step1(env, sod), dg, Step3(env, sod), Step4(env, sod, pkd));
    forall k | 0 <= k < |sod.ldsObject.hashes|
      ensures out.lines[1 + k] == Datagroup(sod.ldsObject.hashes[k].number,
                DatagroupStatus(env, sod.ldsObject.algorithm, sod.ldsObject.hashes[k], read))
    {
      assert out.lines[1 + k] == dg[k];
    }
  }

  /** The script runs to the end exactly when Steps 1, 3 and 4 do not throw (Step 2
      never does); it then prints |hashes| + 3 verdict lines, the last two for the SOD
      signature and the signer certificate. */
  lemma RunCompletes(env: Env, sod: Sod, pkd: Pkd, read: FileReader)
    ensures var out := Expected(env, sod, pkd, read);
      out.abort.None? <==> Step1(env, sod).Ok? && Step3(env, sod).Ok? && Step4(env, sod, pkd).Ok?
    ensures var out := Expected(env, sod, pkd, read);
      out.abort.None? ==>
        && |out.lines| == |sod.ldsObject.hashes| + 3
        && out.lines[|out.lines| - 2] == SodSignature(Step3(env, sod).value)
        && out.lines[|out.lines| - 1] == DscCertificate(Step4(env, sod, pkd).value)
  {
  }
}
