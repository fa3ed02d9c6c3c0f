# Passive Authentication of an ICAO eMRTD, modelled in Dafny

This project models li0ard/passive_auth, a TypeScript script that performs Passive Authentication of an electronic passport as described in ICAO Doc 9303 Part 11, section 5.1. The script takes a passport's Document Security Object (`EF_SOD.BIN`), its data-group files (`EF_DG<n>.BIN`) and an ICAO master list. It runs four steps and prints one verdict per check:

1. **Step 1 (LDS object hash).** The message-digest signed attribute of the first signer is compared with the hash of the re-encoded LDS security object.
2. **Step 2 (data groups).** Each entry of the LDS hash list is compared with the hash of the matching data-group file:
   - A read error named `ENOENT` is reported as a skipped file.
   - Any other error is logged.
   - The loop always continues.
3. **Step 3 (SOD signature).** The signed attributes, re-encoded as a SET, are verified against the first certificate of the SOD (the document signer certificate).
4. **Step 4 (DSC certificate).** The master-list certificates whose subject carries the signer's country code are tried in order. Trust is established at the first one that verifies the signer certificate's TBS bytes.

The helpers of `crypto.ts` are modelled one module each:

- **`Registry`:** the algorithm table and `hash`.
- **`PemText`:** `pem`, with the JavaScript regular expression `/(.{64})/g` modelled character by character, including `.` not matching line terminators. On base64 text, which is ASCII, it matches the regular expression exactly.
- **`CertFilter`:** `getCertsByCountryCode`, including JavaScript's loose `==`.
- **`Signature`:** `verify`, with its RSA/ECDSA dispatch and the exceptions its `try` blocks swallow.

The driver in `index.ts` is module `PassiveAuth`. An exception that escapes a step ends the script. The model records it as `Outcome.abort`, next to the lines printed so far.

The parsed structures (`Asn`) are plain values. The ASN.1 codec, the hash functions, base64, the ECDSA curve library and Node's RSA verifier are opaque functions gathered in `Externals.Env`. Each returns `None` where the real call throws. The file system is a `FileReader` parameter that returns the bytes of a data-group file or the name of the error it raised.

## Model

| member | source | states |
|---|---|---|
| Registry.AlgKeys | crypto.ts:9-21 | The table's keys are exactly the four digest OIDs and the five RSA signature OIDs. The two families are disjoint. An entry is a hash function exactly when its key is a digest OID. |
| Registry.Hash | crypto.ts:32-34 | `hash` succeeds exactly for the four digest OIDs and then returns that digest of the data. Any other OID, including the five RSA keys of the same table, throws a TypeError. |
| Registry.HashLength | crypto.ts:32-34 | With hash functions of the standard output sizes, `hash` returns 20, 32, 48 or 64 bytes for SHA-1, SHA-256, SHA-384 and SHA-512. |
| Registry.HashRejectsRsaOids | crypto.ts:16-20 | The RSA signature OIDs are keys of the table, yet `hash` on them throws a TypeError. |
| PemText.Pem | crypto.ts:41-44 | The result begins with `-----BEGIN <HEADER>-----` and a newline, and ends with a newline and `-----END <HEADER>-----`, with the header upper-cased. |
| PemText.PemTemplate | crypto.ts:42 | The template puts the upper-cased BEGIN marker and a newline first, then the wrapped payload, then a newline and the END marker. Its lines are given by `PemText.PemTextLines` and `PemText.PemLines`. |
| PemText.Wrap64 | crypto.ts:42 | Models `replace(/(.{64})/g, "$1\n")`. On text without line terminators it adds exactly one newline per full run of 64 characters, giving length \|s\| + \|s\|/64. `PemText.StripWrap` and `PemText.WrapIsChunks` characterise the result. |
| PemText.StripWrap | crypto.ts:42 | The 64-character wrapping only inserts newlines. Deleting the newlines from the wrapped text gives the input with its newlines deleted. |
| PemText.PemBodyRoundTrip | crypto.ts:42 | For a payload without newlines (base64 text), deleting the newlines of the wrapped body recovers the payload exactly. |
| PemText.LinesJoin | crypto.ts:42 | Splitting a text at newlines and joining the lines with newlines gives back the text. No line contains a newline. |
| PemText.WrapIsChunks | crypto.ts:42 | For a payload without line terminators, the lines of the wrapped text are exactly its consecutive 64-character pieces, followed by the remainder. |
| PemText.ChunksShape | crypto.ts:42 | The payload has \|s\|/64 + 1 pieces. Concatenated, they are the payload. Every piece but the last has 64 characters, and the last holds \|s\| mod 64. |
| PemText.WrapLines | crypto.ts:42 | The wrapped payload has \|s\|/64 + 1 lines. Their concatenation is the payload. All but the last have 64 characters. The last has \|s\| mod 64 characters and is empty exactly when the length is a multiple of 64. |
| PemText.EmptyLineBeforeEnd | crypto.ts:42 | A payload whose length is a positive multiple of 64 leaves an empty line before the END marker, because the regular expression also wraps the final full line. |
| PemText.PemTextLines | crypto.ts:42 | The lines of a PEM text are the BEGIN marker, then the lines of the wrapped payload, then the END marker. |
| PemText.PemLines | crypto.ts:41-44 | A PEM text has \|b64\|/64 + 3 lines. The first is the BEGIN marker and the last is the END marker. The lines in between are exactly the payload's consecutive 64-character pieces followed by the remainder, so all but the last of them have 64 characters and the last has \|b64\| mod 64. |
| Externals.NormalizeS | crypto.ts:74 | Low-S normalisation keeps `r` and leaves a low-S signature unchanged. A high `s` below the group order n is replaced by n − s, which is at most n/2. |
| CertFilter.MatchingRdns | crypto.ts:53 | The inner filter throws exactly when some RDN is empty (`i[0].type` of `undefined`). Otherwise its result is non-empty exactly when some RDN's first attribute is a country attribute whose value is loosely equal to the code. |
| CertFilter.LooseEquals | crypto.ts:53 | `value == code` holds exactly when the code is a string equal to the attribute value's string rendering. An `undefined` code equals no value. |
| CertFilter.Keep | crypto.ts:53 | The outer predicate throws exactly on an X.509 certificate with an empty RDN. Otherwise it keeps exactly the X.509 certificates that match. |
| CertFilter.GetCertsByCountryCode | crypto.ts:51-55 | The filter throws exactly when some certificate has an empty RDN. Otherwise every certificate returned is from the input and matches the code. |
| CertFilter.FilterIsOrderedSubsequence | crypto.ts:51-55 | The result is the ordered subsequence of the input made of exactly the matching certificates. The lemma returns the positions of the kept certificates, in increasing order. |
| CertFilter.FilterIdempotent | crypto.ts:51-55 | Filtering the result again with the same code returns it unchanged. |
| CertFilter.FilterNoMatch | crypto.ts:51-55 | When nothing matches and nothing throws, the result is empty. |
| CertFilter.FilterUndefinedCode | crypto.ts:53 | An `undefined` code is equal to no attribute value, so the filter returns nothing when it does not throw. |
| Signature.VerifyRsaVerdict | crypto.ts:77-90 | On the RSA branch, `verify` is true exactly when all three hold: the OID is an RSA signature OID (not a digest OID), the key re-encodes, and Node's PSS verification with the PEM "PUBLIC KEY" under the table's digest name returns true. |
| Signature.VerifyEcdsaVerdict | crypto.ts:66-76 | On the ECDSA branch, `verify` is true exactly when the certificate is X.509 and every step succeeds: digest lookup, curve parameters, curve, and DER signature. The curve's check of the low-S signature over the hashed data must also return true. |
| Signature.VerifyRejectsDigestOid | crypto.ts:64 | A certificate signed under a bare digest OID is sent to the RSA branch, where it never verifies. |
| Signature.VerifyRejectsOtherChoice | crypto.ts:64-76 | A certificate choice without an X.509 certificate never verifies. |
| Signature.RsaBranchIgnoresEcdsa | crypto.ts:64-66 | When the OID is a key of the table, the result does not depend on any ECDSA function. |
| Signature.EcdsaBranchIgnoresRsa | crypto.ts:64-77 | When the OID is not a key of the table, the result does not depend on the key encoder, base64 or the RSA verifier. |
| Signature.IsRsa | crypto.ts:64 | The RSA branch is taken exactly for an X.509 certificate whose signature OID is one of the table's keys, that is, a digest OID or an RSA signature OID. |
| Signature.EcdsaAttempt | crypto.ts:66-76 | The ECDSA branch completes only for an X.509 certificate whose signature OID names an ECDSA digest and whose key carries curve parameters. `Signature.VerifyEcdsaVerdict` gives the full condition. |
| Signature.RsaAttempt | crypto.ts:77-90 | The RSA branch completes only for an RSA signature OID whose key re-encodes. `Signature.VerifyRsaVerdict` gives the full condition. |
| Signature.Verify | crypto.ts:63-93 | `verify` is true only for an X.509 certificate, and on the RSA branch only for an RSA signature OID. Its exact verdict on each branch is stated by `Signature.VerifyRsaVerdict` and `Signature.VerifyEcdsaVerdict`. |
| Signature.RsaKeyPemLines | crypto.ts:79-84 | With a base64 encoder that emits only its alphabet, the PEM key passed to Node has \|b64\|/64 + 3 lines, and the lines between the markers are the encoded key's 64-character pieces. |
| PassiveAuth.FirstIndexOf | index.ts:22 | Returns the position of the first attribute of the given type, or none exactly when no attribute has that type. |
| PassiveAuth.MessageDigest | index.ts:22 | The read succeeds exactly when the signed attributes are present, a message-digest attribute exists, its first value exists and that value decodes as an OCTET STRING. The result is the decoded first value of the first message-digest attribute. Otherwise it throws. |
| PassiveAuth.MessageDigestUsesFirst | index.ts:22 | Attributes after the first message-digest attribute, duplicates included, do not change the digest read. |
| PassiveAuth.Step1 | index.ts:21-24 | Step 1 completes exactly when there is a signer, its message digest reads, the LDS object encodes, and the digest OID is a hash OID. Its verdict is true exactly when the stored digest equals the hash of the encoded LDS object. |
| PassiveAuth.DatagroupStatus | index.ts:27-39 | There are four mutually exclusive outcomes for one hash-list entry. OK and Failed mean the file was read and its hash does or does not match. Skipped means exactly that the read failed with ENOENT. Logged covers any other read error, or a digest OID that `hash` rejects. |
| PassiveAuth.Catch | index.ts:32-38 | An error named ENOENT becomes a skipped file. Any other error is logged with that error, and nothing is rethrown. |
| PassiveAuth.CheckDatagroups | index.ts:26-40 | The loop reports every entry of the hash list in list order, one line per entry, carrying that entry's status. It never stops early. |
| PassiveAuth.FirstCertificate | index.ts:43 | The signer certificate is the first certificate of the SOD. Without one, Step 3 throws. |
| PassiveAuth.SignedAttributesSet | index.ts:44 | The SET being encoded holds the first signer's signed attributes. It is empty when there is no signer or the attributes are absent. |
| PassiveAuth.Step3 | index.ts:42-45 | Step 3 completes exactly when the signed attributes encode, a signer exists and the SOD holds a certificate. Its verdict is `verify` of that certificate over the encoded attributes with the first signer's signature. |
| PassiveAuth.FirstCountryRdn | index.ts:52 | Returns the position of the first RDN that holds a country attribute anywhere, or none exactly when there is no such RDN. |
| PassiveAuth.CountryCode | index.ts:52 | The country code is found exactly when some RDN holds a country attribute. It is the PrintableString of the first attribute of the first such RDN. |
| PassiveAuth.CountryCodeIsFirstAttribute | index.ts:52 | For any subject whose first RDN with a country attribute is at position k, the country code is the PrintableString of that RDN's first attribute, whether that attribute is the country attribute or not. |
| PassiveAuth.CountryCodeOfMultiValuedRdn | index.ts:52 | An example of the general case: for the single RDN [CN "Signer", C "RU"], the country code is "Signer". |
| PassiveAuth.DscInputs | index.ts:49-52 | The signer certificate's inputs are available exactly when it is X.509, its TBS encodes and a country RDN exists. They are then the encoded TBS bytes, the certificate's signature value and the country code that `CountryCode` computes from its subject. |
| PassiveAuth.CheckDsc | index.ts:48-58 | The result is true exactly when some candidate verifies. It stops at the first candidate that verifies, after rejecting every earlier one. When none verifies, it tries them all. |
| PassiveAuth.Step4 | index.ts:47-58 | Step 4 throws exactly when one of three things happens: the SOD has no certificate, the signer certificate's inputs are missing, or some master-list certificate has an empty RDN. `PassiveAuth.Step4Sound` and `PassiveAuth.Step4Complete` characterise its verdict. |
| PassiveAuth.RunStep4 | index.ts:47-58 | Step 4 as executed (encode, filter, loop) agrees with its specification function. |
| PassiveAuth.Step4Sound | index.ts:48-58 | A trusted verdict implies a master-list certificate exists that matches the signer's country code and verifies the signer certificate. |
| PassiveAuth.Step4Complete | index.ts:48-58 | When the filter does not throw, every master-list certificate that matches the country and verifies the signer certificate leads to a trusted verdict. |
| PassiveAuth.Step4EmptyMasterList | index.ts:48-58 | Once the signer certificate's inputs are available, an empty master list gives a false verdict without throwing. |
| PassiveAuth.PassiveAuthentication | index.ts:20-59 | The script prints the lines of the steps that completed, in order, and stops at the first exception. |
| PassiveAuth.Assemble | index.ts:20-59 | The run ends normally exactly when Steps 1, 3 and 4 complete. A Step 1 exception prints nothing further. A Step 3 exception leaves the Step 1 and data-group lines. Once Steps 1 and 3 complete, the line after the data-group lines is `SodSignature` of the Step 3 verdict. A Step 4 exception leaves exactly the lines up to that one. A complete run has \|datagroups\| + 3 lines. |
| PassiveAuth.Expected | index.ts:20-59 | The script's output. If Step 1 throws, nothing is printed. If Step 3 throws, the Step 1 line and one line per hash-list entry remain. Once Steps 1 and 3 complete, the line after the data-group lines is the SOD-signature verdict, whether Step 4 then throws or not. `PassiveAuth.RunCompletes` and `PassiveAuth.RunReportsEveryDatagroup` state the rest. |
| PassiveAuth.RunReportsEveryDatagroup | index.ts:24-40 | Once Step 1 completes, the output begins with its verdict followed by one line per hash-list entry, whatever the later steps do. |
| PassiveAuth.RunCompletes | index.ts:20-59 | The script runs to the end exactly when Steps 1, 3 and 4 do not throw. It then prints \|hashes\| + 3 lines, the last two being the SOD-signature and certificate verdicts. |

## Left out

- Reading command-line arguments, the usage message, and reading and parsing `EF_SOD.BIN` and the master list (index.ts lines 8-18) are not modelled. The model starts from the parsed SOD and master list.
- Console output is modelled as a list of verdict lines. The logging of unexpected errors in Step 2 becomes a `DgLogged` status.
- SHA-1/2, base64, the ASN.1 codec (`AsnConvert.serialize` and `parse`), `hashFromECDSAOID`, `curveFromECParams`, DER signature parsing, the curve's verification and Node's `crypto.verify` are foreign code. They are opaque functions of `Externals.Env`. Only `normalizeS` is written out (`Externals.NormalizeS`).
- The SignedAttributes class and its schema decorator (crypto.ts lines 23-25) become the `encodeSignedAttrsSet` encoder.
- Object-prototype keys of `alg` (such as `constructor`) are not modelled. Decoded OIDs are dotted-decimal strings, which never collide with them.
- PemText.Wrap64: counts Unicode scalar values, while JavaScript's `.` without the `u` flag matches UTF-16 code units. The two differ only on characters outside the Basic Multilingual Plane, which base64 text never contains.
- PemText.ToUpper: upper-cases ASCII letters only. JavaScript's `toUpperCase` applies full Unicode case mapping. The only header used is `"PUBLIC KEY"`.
- Wrappers.Fault.Name: the codec's error name is a placeholder. The script only distinguishes "ENOENT" from every other name.
- `Buffer` copies (`Buffer.from`) are identities on byte sequences. The TypeError that `Buffer.from(undefined)` raises is folded into the error cases of the surrounding step.
- The code differs from a plain reading of the ICAO procedure in the following places. The model follows the code:
  - A missing message-digest attribute aborts the whole script in Step 1, instead of failing only that check.
  - Errors other than ENOENT in Step 2 are logged and the loop goes on.
  - The RSA/ECDSA dispatch uses a single table that also holds the digest OIDs, so a certificate signed under a digest OID never verifies.
  - The country code is the first attribute of the first RDN that contains a country attribute, which is not necessarily the country attribute itself.
