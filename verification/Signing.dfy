// Signing documents and verifying them, step by step.
module Signing {
  // The signature scheme is abstract.

  import opened Basics
  import opened Numerals
  import opened Text

  // ---- the pre-authentication encoding ------------------------------------------------------

  const PREFIX: Bytes := [68, 83, 83, 69, 118, 49, 32]

  const SPACE: Byte := 32

  /** A length, a space, the bytes. */
  function Sized(s: Bytes): Bytes {
    Decimal(|s|) + ([SPACE] + s)
  }

  /** `DSSEv1 <length> <type> <length> <payload>`; the type as the bytes it is encoded to. */
  function Pae(payloadType: Bytes, payload: Bytes): Bytes {
    PREFIX + (Sized(payloadType) + ([SPACE] + Sized(payload)))
  }

  predicate NoSpace(s: Bytes) {
    forall i | 0 <= i < |s| :: s[i] != SPACE
  }

  /** Text up to the first space is determined by the whole. */
  lemma {:induction false} UpToSpace(a: Bytes, b: Bytes, x: Bytes, y: Bytes)
    requires NoSpace(a) && NoSpace(b) && a + ([SPACE] + x) == b + ([SPACE] + y)
    ensures a == b && x == y
    decreases |a|
  {
    var s, t := a + ([SPACE] + x), b + ([SPACE] + y);
    assert s[0] == (if a == [] then SPACE else a[0]) && t[0] == (if b == [] then SPACE else b[0]);
    assert a == [] <==> b == [];
    assert s[1..] == t[1..];
    if a == [] {
      assert s[1..] == x && t[1..] == y;
    } else {
      assert s[1..] == a[1..] + ([SPACE] + x) && t[1..] == b[1..] + ([SPACE] + y);
      UpToSpace(a[1..], b[1..], x, y);
      assert a == [a[0]] + a[1..] && b == [b[0]] + b[1..];
    }
  }

  lemma {:induction false} DecimalInjective(m: nat, n: nat)
    requires Decimal(m) == Decimal(n)
    ensures m == n
  {
    DecimalDigitsRead(m);
    DecimalDigitsRead(n);
  }

  lemma {:induction false} DecimalHasNoSpace(n: nat)
    ensures NoSpace(Decimal(n))
  {
    DecimalShape(n);
  }

  /** A sized string followed by anything determines both. */
  lemma SizedInjective(s: Bytes, t: Bytes, x: Bytes, y: Bytes)
    requires Sized(s) + x == Sized(t) + y
    ensures s == t && x == y
  {
    DecimalHasNoSpace(|s|);
    DecimalHasNoSpace(|t|);
    assert Sized(s) + x == Decimal(|s|) + ([SPACE] + (s + x));
    assert Sized(t) + y == Decimal(|t|) + ([SPACE] + (t + y));
    UpToSpace(Decimal(|s|), Decimal(|t|), s + x, t + y);
    DecimalInjective(|s|, |t|);
    assert (s + x)[..|s|] == s && (t + y)[..|t|] == t;
    assert (s + x)[|s|..] == x && (t + y)[|t|..] == y;
  }

  /** What is signed determines type and payload. */
  lemma PaeInjective(type1: Bytes, payload1: Bytes, type2: Bytes, payload2: Bytes)
    requires Pae(type1, payload1) == Pae(type2, payload2)
    ensures type1 == type2 && payload1 == payload2
  {
    var r1, r2 := [SPACE] + Sized(payload1), [SPACE] + Sized(payload2);
    assert Pae(type1, payload1)[|PREFIX|..] == Sized(type1) + r1;
    assert Pae(type2, payload2)[|PREFIX|..] == Sized(type2) + r2;
    SizedInjective(type1, type2, r1, r2);
    assert r1[1..] == Sized(payload1) && r2[1..] == Sized(payload2);
    assert Sized(payload1) + [] == Sized(payload1) && Sized(payload2) + [] == Sized(payload2);
    SizedInjective(payload1, payload2, [], []);
  }

  /** The example of the DSSE protocol: a type of 29 bytes and a payload of 11 are signed as
      `DSSEv1 29 <type> 11 <payload>`. */
  lemma PaeExample(payloadType: Bytes, payload: Bytes)
    requires |payloadType| == 29 && |payload| == 11
    ensures Pae(payloadType, payload)
         == [68, 83, 83, 69, 118, 49, 32, 50, 57, 32] + payloadType + [32, 49, 49, 32] + payload
  {
    assert Decimal(2) == [50] && Decimal(1) == [49];
    assert Decimal(29) == [50, 57] && Decimal(11) == [49, 49];
  }

  // ---- documents ------------------------------------------------------------------------------

  /** What the verifier looks up in a signature document, absent or undecodable fields being None. */
  datatype Doc = Doc(payloadType: string, payload: Option<Bytes>, envelopeSig: Option<Bytes>, envelopeKeyId: string,
                     mediaType: string, bundleSig: Option<Bytes>, payloadSha256: Option<string>, bundleKeyId: string)

  /** What it looks up in a statement: the digest values of its subjects and the serial number of
      the document it is about. */
  datatype Statement = Statement(digests: set<string>, serialNumber: string)

  const BUNDLE_MEDIA_TYPE := "application/vnd.sorb.signature.bundle+json;version=1"
  const PAYLOAD_TYPE_INTOTO := "application/vnd.in-toto+json"

  /** The libraries around the code: hashing, ECDSA over a digest, JSON, text encoding. */
  datatype Library = Library(
    sha256: Bytes -> Bytes, hex: Bytes -> string, accepts: (Bytes, Bytes, Bytes) -> bool,
    loadDoc: Bytes -> Option<Doc>, loadStatement: Bytes -> Option<Statement>, encode: string -> Bytes) {
    function HexDigest(data: Bytes): string {
      hex(sha256(data))
    }

    function KeyId(pem: Bytes): string {
      "sha256:" + HexDigest(pem)
    }

    /** The key's signature over the encoded type and payload. */
    predicate SignsEnvelope(pem: Bytes, payloadType: string, payload: Bytes, sig: Bytes) {
      accepts(pem, sha256(Pae(encode(payloadType), payload)), sig)
    }

    /** The key's signature over the bytes themselves. */
    predicate SignsBytes(pem: Bytes, data: Bytes, sig: Bytes) {
      accepts(pem, sha256(data), sig)
    }
  }

  // ---- verification --------------------------------------------------------------------------

  datatype Name = EnvelopeValidity | IdentityPolicy | SubjectBinding | TransparencyLog | LineageConsistency

  datatype Step = Step(name: Name, ok: bool, skipped: bool)

  const ORDER: seq<Name> := [EnvelopeValidity, IdentityPolicy, SubjectBinding, TransparencyLog, LineageConsistency]

  function Passed(name: Name): Step {
    Step(name, true, false)
  }

  function Failed(name: Name): Step {
    Step(name, false, false)
  }

  function Skipped(name: Name): Step {
    Step(name, true, true)
  }

  /** `expected.partition(":")[2] or expected`. */
  function DigestValue(expected: string): string {
    var rest := After(expected, ':');
    if rest == "" then expected else rest
  }

  /** What the first step hands on. */
  datatype Opened = Rejected | Accepted(payload: Option<Bytes>, bundleDigest: Option<string>, keyId: string)

  function Open(lib: Library, doc: Doc, pem: Bytes, sbom: Option<Bytes>): Opened {
    if doc.payloadType != "" then
      if doc.payload.Some? && doc.envelopeSig.Some?
         && lib.SignsEnvelope(pem, doc.payloadType, doc.payload.value, doc.envelopeSig.value)
      then Accepted(doc.payload, None, doc.envelopeKeyId)
      else Rejected
    else if doc.mediaType == BUNDLE_MEDIA_TYPE then
      if sbom.Some? && doc.bundleSig.Some? && doc.payloadSha256 == Some(lib.HexDigest(sbom.value))
         && lib.SignsBytes(pem, sbom.value, doc.bundleSig.value)
      then Accepted(None, doc.payloadSha256, doc.bundleKeyId)
      else Rejected
    else Rejected
  }

  /** The digest to bind against, from what the caller supplied. */
  function Wanted(lib: Library, expected: Option<string>, sbom: Option<Bytes>): Option<string> {
    if expected.Some? then Some(DigestValue(expected.value))
    else if sbom.Some? then Some(lib.HexDigest(sbom.value))
    else None
  }

  function Contradicts(lib: Library, expected: Option<string>, sbom: Option<Bytes>): bool {
    expected.Some? && sbom.Some? && lib.HexDigest(sbom.value) != DigestValue(expected.value)
  }

  function Bind(lib: Library, expected: Option<string>, sbom: Option<Bytes>, bundleDigest: Option<string>,
                statement: Option<Statement>): Step {
    var want := Wanted(lib, expected, sbom);
    if Contradicts(lib, expected, sbom) then Failed(SubjectBinding)
    else if bundleDigest.Some? then
      (if want.None? || want == bundleDigest then Passed(SubjectBinding) else Failed(SubjectBinding))
    else if want.None? then Skipped(SubjectBinding)
    else if statement.Some? && want.value in statement.value.digests then Passed(SubjectBinding)
    else Failed(SubjectBinding)
  }

  const URN := "urn:uuid:"

  function RemovePrefix(s: string, prefix: string): string {
    if prefix <= s then s[|prefix|..] else s
  }

  /** The newest serial of the last lineage that holds this one. */
  function Latest(lineages: seq<seq<string>>, serial: string): Option<string> {
    if lineages == [] then None
    else
      var last := lineages[|lineages| - 1];
      if serial in last then Some(last[|last| - 1]) else Latest(lineages[..|lineages| - 1], serial)
  }

  function Lineage(lineages: Option<seq<seq<string>>>, statement: Option<Statement>): Step {
    if lineages.None? || statement.None? then Skipped(LineageConsistency)
    else
      var serial := RemovePrefix(statement.value.serialNumber, URN);
      if serial == "" then Skipped(LineageConsistency)
      else
        match Latest(lineages.value, serial)
        case None => Skipped(LineageConsistency)
        case Some(newest) => if newest == serial then Passed(LineageConsistency) else Failed(LineageConsistency)
  }

  function StatementOf(lib: Library, payload: Option<Bytes>): Option<Statement> {
    if payload.None? then None else lib.loadStatement(payload.value)
  }

  /** The whole report. */
  function Report(lib: Library, artifact: Bytes, pem: Bytes, expected: Option<string>, sbom: Option<Bytes>,
                  lineages: Option<seq<seq<string>>>): seq<Step> {
    var doc := lib.loadDoc(artifact);
    if doc.None? then [Failed(EnvelopeValidity)]
    else
      match Open(lib, doc.value, pem, sbom)
      case Rejected => [Failed(EnvelopeValidity)]
      case Accepted(payload, bundleDigest, keyId) =>
        [Passed(EnvelopeValidity)] + AfterEnvelope(lib, pem, expected, sbom, lineages, StatementOf(lib, payload),
            bundleDigest, keyId)
  }

  function AfterEnvelope(lib: Library, pem: Bytes, expected: Option<string>, sbom: Option<Bytes>,
                         lineages: Option<seq<seq<string>>>,
                         statement: Option<Statement>, bundleDigest: Option<string>, keyId: string): seq<Step> {
    if keyId != "" && keyId != lib.KeyId(pem) then [Failed(IdentityPolicy)]
    else
      var binding := Bind(lib, expected, sbom, bundleDigest, statement);
      [Passed(IdentityPolicy), binding]
      + if !binding.ok then [] else [Skipped(TransparencyLog), Lineage(lineages, statement)]
  }

  method FindLatest(lineages: seq<seq<string>>, serial: string) returns (latest: Option<string>)
    ensures latest == Latest(lineages, serial)
  {
    latest := None;
    for i := 0 to |lineages|
      invariant latest == Latest(lineages[..i], serial)
    {
      assert lineages[..i + 1][..i] == lineages[..i];
      ghost var before := latest;
      var lineage := lineages[i];
      for j := 0 to |lineage|
        invariant serial in lineage[..j] ==> latest == Some(lineage[|lineage| - 1])
        invariant serial !in lineage[..j] ==> latest == before
      {
        if lineage[j] == serial {
          latest := Some(lineage[|lineage| - 1]);
        }
      }
      assert lineage[..|lineage|] == lineage;
    }
    assert lineages[..|lineages|] == lineages;
  }

  /** The first step: what the document claims and whether its signature holds. */
  method CheckEnvelope(lib: Library, doc: Doc, pem: Bytes, sbom: Option<Bytes>) returns (result: Opened)
    ensures result == Open(lib, doc, pem, sbom)
  {
    if doc.payloadType != "" {
      if doc.payload.None? || doc.envelopeSig.None? {
        return Rejected;
      }
      if !lib.SignsEnvelope(pem, doc.payloadType, doc.payload.value, doc.envelopeSig.value) {
        return Rejected;
      }
      return Accepted(doc.payload, None, doc.envelopeKeyId);
    }
    if doc.mediaType == BUNDLE_MEDIA_TYPE {
      if sbom.None? || doc.bundleSig.None? {
        return Rejected;
      }
      if doc.payloadSha256 != Some(lib.HexDigest(sbom.value)) {
        return Rejected;
      }
      if !lib.SignsBytes(pem, sbom.value, doc.bundleSig.value) {
        return Rejected;
      }
      return Accepted(None, doc.payloadSha256, doc.bundleKeyId);
    }
    return Rejected;
  }

  /** The third step. */
  method CheckSubject(lib: Library, expected: Option<string>, sbom: Option<Bytes>, bundleDigest: Option<string>,
                      statement: Option<Statement>) returns (step: Step)
    ensures step == Bind(lib, expected, sbom, bundleDigest, statement)
  {
    var want: Option<string> := None;
    if expected.Some? {
      want := Some(DigestValue(expected.value));
      if sbom.Some? && lib.HexDigest(sbom.value) != want.value {
        return Failed(SubjectBinding);
      }
    } else if sbom.Some? {
      want := Some(lib.HexDigest(sbom.value));
    }
    if bundleDigest.Some? {
      if want.None? || want.value == bundleDigest.value {
        return Passed(SubjectBinding);
      }
      return Failed(SubjectBinding);
    }
    if want.None? {
      return Skipped(SubjectBinding);
    }
    if statement.None? || want.value !in statement.value.digests {
      return Failed(SubjectBinding);
    }
    return Passed(SubjectBinding);
  }

  /** The fifth step. */
  method CheckLineage(lineages: Option<seq<seq<string>>>, statement: Option<Statement>) returns (step: Step)
    ensures step == Lineage(lineages, statement)
  {
    if lineages.None? {
      return Skipped(LineageConsistency);
    }
    var serial := "";
    if statement.Some? {
      serial := RemovePrefix(statement.value.serialNumber, URN);
    }
    if serial == "" {
      return Skipped(LineageConsistency);
    }
    var latest := FindLatest(lineages.value, serial);
    if latest.None? {
      return Skipped(LineageConsistency);
    }
    step := if latest.value == serial then Passed(LineageConsistency) else Failed(LineageConsistency);
  }

  method Verify(lib: Library, artifact: Bytes, pem: Bytes, expected: Option<string>, sbom: Option<Bytes>,
                lineages: Option<seq<seq<string>>>) returns (steps: seq<Step>)
    ensures steps == Report(lib, artifact, pem, expected, sbom, lineages)
  {
    var doc := lib.loadDoc(artifact);
    if doc.None? {
      return [Failed(EnvelopeValidity)];
    }
    steps := [];
    var envelope := CheckEnvelope(lib, doc.value, pem, sbom);
    if envelope.Rejected? {
      steps := steps + [Failed(EnvelopeValidity)];
      return;
    }
    steps := steps + [Passed(EnvelopeValidity)];
    if envelope.keyId != "" && envelope.keyId != lib.KeyId(pem) {
      steps := steps + [Failed(IdentityPolicy)];
      return;
    }
    steps := steps + [Passed(IdentityPolicy)];
    var statement := StatementOf(lib, envelope.payload);
    var binding := CheckSubject(lib, expected, sbom, envelope.bundleDigest, statement);
    steps := steps + [binding];
    if !binding.ok {
      return;
    }
    steps := steps + [Skipped(TransparencyLog)];
    var lineage := CheckLineage(lineages, statement);
    steps := steps + [lineage];
  }

  /** Executable trust: every step ok and the binding not skipped. */
  method VerifyArtifact(lib: Library, artifact: Bytes, signature: Bytes, pem: Bytes) returns (trusted: bool)
    ensures trusted <==> Trusted(lib, artifact, signature, pem)
  {
    var steps := Verify(lib, signature, pem, None, Some(artifact), None);
    if steps == [] {
      return false;
    }
    var binding: Option<Step> := None;
    for i := 0 to |steps|
      invariant forall k | 0 <= k < i :: steps[k].ok
      invariant binding == FirstNamed(steps[..i], SubjectBinding)
    {
      assert steps[..i + 1][..i] == steps[..i];
      if !steps[i].ok {
        return false;
      }
      if binding.None? && steps[i].name == SubjectBinding {
        binding := Some(steps[i]);
      }
    }
    assert steps[..|steps|] == steps;
    return binding.Some? && !binding.value.skipped;
  }

  function FirstNamed(steps: seq<Step>, name: Name): Option<Step> {
    if steps == [] then None
    else
      var before := FirstNamed(steps[..|steps| - 1], name);
      if before.Some? then before else if steps[|steps| - 1].name == name then Some(steps[|steps| - 1]) else None
  }

  predicate Trusted(lib: Library, artifact: Bytes, signature: Bytes, pem: Bytes) {
    var steps := Report(lib, signature, pem, None, Some(artifact), None);
    && steps != [] && (forall i | 0 <= i < |steps| :: steps[i].ok)
    && FirstNamed(steps, SubjectBinding).Some? && !FirstNamed(steps, SubjectBinding).value.skipped
  }

  // ---- what a report says ------------------------------------------------------------------------

  /** The steps come in the fixed order, only the last can fail, and only a failure cuts them short. */
  lemma ReportIsOrdered(lib: Library, artifact: Bytes, pem: Bytes, expected: Option<string>, sbom: Option<Bytes>,
                        lineages: Option<seq<seq<string>>>)
    ensures var steps := Report(lib, artifact, pem, expected, sbom, lineages);
            && 1 <= |steps| <= |ORDER|
            && (forall i | 0 <= i < |steps| :: steps[i].name == ORDER[i] && (i + 1 < |steps| ==> steps[i].ok))
            && (|steps| < |ORDER| ==> !steps[|steps| - 1].ok)
  {
  }

  /** The key verified an envelope, or a bundle over the bytes at hand. */
  predicate Signed(lib: Library, doc: Doc, sbom: Option<Bytes>, pem: Bytes) {
    if doc.payloadType != "" then
      && doc.payload.Some? && doc.envelopeSig.Some?
      && lib.SignsEnvelope(pem, doc.payloadType, doc.payload.value, doc.envelopeSig.value)
    else
      && doc.mediaType == BUNDLE_MEDIA_TYPE && doc.bundleSig.Some? && sbom.Some?
      && doc.payloadSha256 == Some(lib.HexDigest(sbom.value)) && lib.SignsBytes(pem, sbom.value, doc.bundleSig.value)
  }

  /** What was signed is about this digest: the bundle's own, or that of a subject of the statement. */
  predicate About(lib: Library, doc: Doc, digest: string) {
    if doc.payloadType != "" then
      && doc.payload.Some? && lib.loadStatement(doc.payload.value).Some?
      && digest in lib.loadStatement(doc.payload.value).value.digests
    else doc.payloadSha256 == Some(digest)
  }

  /** The key verified a message that fixes the digest of exactly these bytes: the bytes
      themselves, or a statement one of whose subjects has their digest. */
  predicate Authentic(lib: Library, doc: Doc, artifact: Bytes, pem: Bytes) {
    Signed(lib, doc, Some(artifact), pem) && About(lib, doc, lib.HexDigest(artifact))
  }

  /** The key the document names, if it names one. */
  predicate NamesKey(lib: Library, doc: Doc, pem: Bytes) {
    var keyId := if doc.payloadType != "" then doc.envelopeKeyId else doc.bundleKeyId;
    keyId == "" || keyId == lib.KeyId(pem)
  }

  /** The key id a document with a valid signature names. */
  function NamedKey(lib: Library, artifact: Bytes, pem: Bytes, sbom: Option<Bytes>): string {
    var doc := lib.loadDoc(artifact);
    if doc.None? then ""
    else match Open(lib, doc.value, pem, sbom)
         case Rejected => ""
         case Accepted(_, _, keyId) => keyId
  }

  /** The second step fails exactly for a document that names another key than the one given, a
      key's id being the digest of its file. */
  lemma IdentityStepIs(lib: Library, artifact: Bytes, pem: Bytes, expected: Option<string>, sbom: Option<Bytes>,
                       lineages: Option<seq<seq<string>>>)
    ensures var steps, named := Report(lib, artifact, pem, expected, sbom, lineages),
            NamedKey(lib, artifact, pem, sbom);
            |steps| > 1 ==>
              (!steps[1].ok <==> named != "" && named != "sha256:" + lib.hex(lib.sha256(pem)))
  {
  }

  /** Lineage i is the last that holds the serial. */
  predicate HeldLast(lineages: seq<seq<string>>, serial: string, i: nat) {
    i < |lineages| && serial in lineages[i] && forall j | i < j < |lineages| :: serial !in lineages[j]
  }

  lemma {:induction false} LatestIs(lineages: seq<seq<string>>, serial: string)
    ensures Latest(lineages, serial).None? <==> forall lineage <- lineages :: serial !in lineage
    ensures forall i: nat :: HeldLast(lineages, serial, i)
                             ==> Latest(lineages, serial) == Some(lineages[i][|lineages[i]| - 1])
    ensures Latest(lineages, serial).Some? ==> exists i: nat :: HeldLast(lineages, serial, i)
    decreases |lineages|
  {
    if lineages == [] {
    } else {
      var n := |lineages| - 1;
      LatestIs(lineages[..n], serial);
      assert lineages == lineages[..n] + [lineages[n]];
      if serial in lineages[n] {
        assert HeldLast(lineages, serial, n);
      } else {
        if i: nat :| HeldLast(lineages[..n], serial, i) {
          assert HeldLast(lineages, serial, i);
        }
        forall i: nat | HeldLast(lineages, serial, i) ensures HeldLast(lineages[..n], serial, i) {
        }
      }
    }
  }

  /** The last lineage that holds the serial ends with another one. */
  predicate Superseded(lineages: seq<seq<string>>, serial: string) {
    exists i :: 0 <= i < |lineages| && HeldLast(lineages, serial, i) && lineages[i][|lineages[i]| - 1] != serial
  }

  /** It ends with this one. */
  predicate Newest(lineages: seq<seq<string>>, serial: string) {
    exists i :: 0 <= i < |lineages| && HeldLast(lineages, serial, i) && lineages[i][|lineages[i]| - 1] == serial
  }

  /** The serial number a statement is about, without its prefix. */
  function SerialIn(statement: Option<Statement>): string {
    if statement.None? then "" else RemovePrefix(statement.value.serialNumber, "urn:uuid:")
  }

  lemma LineageIs(lineages: Option<seq<seq<string>>>, statement: Option<Statement>)
    ensures var step, serial := Lineage(lineages, statement), SerialIn(statement);
            var known := lineages.Some? && serial != "";
            && step.name == LineageConsistency
            && (!step.ok <==> known && Superseded(lineages.value, serial))
            && (step.ok && !step.skipped <==> known && Newest(lineages.value, serial))
  {
    if lineages.Some? {
      LatestIs(lineages.value, SerialIn(statement));
    }
  }

  /** The statement a verified document carries. */
  function Carried(lib: Library, artifact: Bytes, pem: Bytes, sbom: Option<Bytes>): Option<Statement> {
    var doc := lib.loadDoc(artifact);
    if doc.None? then None
    else match Open(lib, doc.value, pem, sbom)
         case Rejected => None
         case Accepted(payload, _, _) => StatementOf(lib, payload)
  }

  lemma LastStepIs(lib: Library, artifact: Bytes, pem: Bytes, expected: Option<string>, sbom: Option<Bytes>,
                   lineages: Option<seq<seq<string>>>)
    ensures var steps := Report(lib, artifact, pem, expected, sbom, lineages);
            |steps| == 5 ==> steps[4] == Lineage(lineages, Carried(lib, artifact, pem, sbom))
  {
  }

  /** Where all earlier steps pass, the last fails exactly for a superseded serial; it is skipped
      where there is no serial, or no lineage that holds it. */
  lemma LineageStepIs(lib: Library, artifact: Bytes, pem: Bytes, expected: Option<string>, sbom: Option<Bytes>,
                      lineages: Option<seq<seq<string>>>)
    ensures var steps := Report(lib, artifact, pem, expected, sbom, lineages);
            |steps| == 5 ==>
              var serial := SerialIn(Carried(lib, artifact, pem, sbom));
              var known := lineages.Some? && serial != "";
              && steps[4].name == LineageConsistency
              && (!steps[4].ok <==> known && Superseded(lineages.value, serial))
              && (steps[4].ok && !steps[4].skipped <==> known && Newest(lineages.value, serial))
  {
    LastStepIs(lib, artifact, pem, expected, sbom, lineages);
    LineageIs(lineages, Carried(lib, artifact, pem, sbom));
  }

  lemma {:induction false} FirstNamedAt(steps: seq<Step>, k: nat)
    requires k < |steps| && forall i | 0 <= i < k :: steps[i].name != steps[k].name
    ensures FirstNamed(steps, steps[k].name) == Some(steps[k])
    decreases |steps|
  {
    var before := steps[..|steps| - 1];
    if k < |before| {
      FirstNamedAt(before, k);
    } else {
      NotNamed(before, steps[k].name);
    }
  }

  lemma {:induction false} NotNamed(steps: seq<Step>, name: Name)
    requires forall i | 0 <= i < |steps| :: steps[i].name != name
    ensures FirstNamed(steps, name) == None
    decreases |steps|
  {
    if steps == [] {
    } else {
      NotNamed(steps[..|steps| - 1], name);
    }
  }

  /** An artifact is trusted exactly when the document parses, authenticates it, and names no
      other key. */
  lemma TrustedIff(lib: Library, artifact: Bytes, signature: Bytes, pem: Bytes)
    ensures Trusted(lib, artifact, signature, pem)
       <==> lib.loadDoc(signature).Some?
            && Authentic(lib, lib.loadDoc(signature).value, artifact, pem)
               && NamesKey(lib, lib.loadDoc(signature).value, pem)
  {
    var steps := Report(lib, signature, pem, None, Some(artifact), None);
    ReportIsOrdered(lib, signature, pem, None, Some(artifact), None);
    if |steps| > 2 {
      FirstNamedAt(steps, 2);
    }
  }

  // ---- what the subject binding means ------------------------------------------------------------

  /** Whatever the caller supplied to bind against, a digest or the bytes, stands for this digest. */
  predicate Asks(lib: Library, expected: Option<string>, sbom: Option<Bytes>, digest: string) {
    && (expected.Some? || sbom.Some?)
    && (expected.Some? ==> DigestValue(expected.value) == digest)
    && (sbom.Some? ==> lib.HexDigest(sbom.value) == digest)
  }

  /** The binding, where the report comes that far. */
  lemma BindingIs(lib: Library, artifact: Bytes, pem: Bytes, expected: Option<string>, sbom: Option<Bytes>,
                  lineages: Option<seq<seq<string>>>)
    ensures var doc := lib.loadDoc(artifact);
            var binding := FirstNamed(Report(lib, artifact, pem, expected, sbom, lineages), SubjectBinding);
            if doc.Some? && Signed(lib, doc.value, sbom, pem) && NamesKey(lib, doc.value, pem)
            then binding == Some(BindingOf(lib, doc.value, expected, sbom)) else binding == None
  {
    var steps := Report(lib, artifact, pem, expected, sbom, lineages);
    ReportIsOrdered(lib, artifact, pem, expected, sbom, lineages);
    if |steps| > 2 {
      FirstNamedAt(steps, 2);
    } else {
      NotNamed(steps, SubjectBinding);
    }
  }

  function BindingOf(lib: Library, doc: Doc, expected: Option<string>, sbom: Option<Bytes>): Step {
    if doc.payloadType != "" then Bind(lib, expected, sbom, None, StatementOf(lib, doc.payload))
    else Bind(lib, expected, sbom, doc.payloadSha256, None)
  }

  /** For all inputs: the binding passes exactly when the key verified the document, the document
      names no other key, and it is about the one digest that everything supplied stands for. It is
      skipped exactly when an envelope so verified was given nothing to bind against. */
  lemma SubjectBoundIff(lib: Library, artifact: Bytes, pem: Bytes, expected: Option<string>, sbom: Option<Bytes>,
                        lineages: Option<seq<seq<string>>>)
    ensures var doc := lib.loadDoc(artifact);
            var binding := FirstNamed(Report(lib, artifact, pem, expected, sbom, lineages), SubjectBinding);
            && (binding == Some(Passed(SubjectBinding))
                <==> doc.Some? && Signed(lib, doc.value, sbom, pem) && NamesKey(lib, doc.value, pem)
                     && exists digest :: Asks(lib, expected, sbom, digest) && About(lib, doc.value, digest))
            && (binding == Some(Skipped(SubjectBinding))
                <==> doc.Some? && Signed(lib, doc.value, sbom, pem) && NamesKey(lib, doc.value, pem)
                     && expected == None && sbom == None)
  {
    BindingIs(lib, artifact, pem, expected, sbom, lineages);
    var doc := lib.loadDoc(artifact);
    if doc.Some? && Signed(lib, doc.value, sbom, pem) && NamesKey(lib, doc.value, pem) {
      PassesIff(lib, doc.value, pem, expected, sbom);
    }
  }

  lemma PassesIff(lib: Library, doc: Doc, pem: Bytes, expected: Option<string>, sbom: Option<Bytes>)
    requires Signed(lib, doc, sbom, pem)
    ensures BindingOf(lib, doc, expected, sbom) == Passed(SubjectBinding)
       <==> exists digest :: Asks(lib, expected, sbom, digest) && About(lib, doc, digest)
    ensures BindingOf(lib, doc, expected, sbom) == Skipped(SubjectBinding) <==> expected == None && sbom == None
  {
    var want := Wanted(lib, expected, sbom);
    if want.Some? && !Contradicts(lib, expected, sbom) {
      assert Asks(lib, expected, sbom, want.value);
    }
  }

  // ---- signing -----------------------------------------------------------------------------------

  /** A private key, its public half, and what the serialisers produce. */
  datatype Signer = Signer(publicPem: Bytes, sign: Bytes -> Bytes, dumpDoc: Doc -> Bytes,
                           dumpStatement: Statement -> Bytes)

  /** Signatures verify under the key's public half and serialised values load as they were. */
  ghost predicate Faithful(lib: Library, signer: Signer) {
    && (forall digest :: lib.accepts(signer.publicPem, digest, signer.sign(digest)))
    && (forall doc :: lib.loadDoc(signer.dumpDoc(doc)) == Some(doc))
    && (forall st :: lib.loadStatement(signer.dumpStatement(st)) == Some(st))
  }

  function SignDetached(lib: Library, signer: Signer, sbom: Bytes): Bytes {
    signer.dumpDoc(Doc("", None, None, "", BUNDLE_MEDIA_TYPE, Some(signer.sign(lib.sha256(sbom))),
        Some(lib.HexDigest(sbom)),
                       lib.KeyId(signer.publicPem)))
  }

  /** The digest entry of a statement's subject: algorithm and value. */
  function SubjectDigest(subjectDigest: string): (string, string) {
    var algo, value := Before(subjectDigest, ':'), After(subjectDigest, ':');
    (if algo == "" then "sha256" else algo, if value == "" then subjectDigest else value)
  }

  function Attest(lib: Library, signer: Signer, subjectDigest: string, serialNumber: string): Bytes {
    var payload := signer.dumpStatement(Statement({SubjectDigest(subjectDigest).1}, serialNumber));
    signer.dumpDoc(Doc(PAYLOAD_TYPE_INTOTO, Some(payload),
        Some(signer.sign(lib.sha256(Pae(lib.encode(PAYLOAD_TYPE_INTOTO), payload)))),
                       lib.KeyId(signer.publicPem), "", None, None, ""))
  }

  lemma DetachedIsTrusted(lib: Library, signer: Signer, artifact: Bytes)
    requires Faithful(lib, signer)
    ensures Trusted(lib, artifact, SignDetached(lib, signer, artifact), signer.publicPem)
  {
    TrustedIff(lib, artifact, SignDetached(lib, signer, artifact), signer.publicPem);
  }

  /** An attestation is trusted for exactly the artifacts whose digest it was bound to. */
  lemma AttestationIsTrustedIff(lib: Library, signer: Signer, artifact: Bytes, subjectDigest: string,
                                serialNumber: string)
    requires Faithful(lib, signer)
    ensures Trusted(lib, artifact, Attest(lib, signer, subjectDigest, serialNumber), signer.publicPem)
       <==> DigestValue(subjectDigest) == lib.HexDigest(artifact)
  {
    TrustedIff(lib, artifact, Attest(lib, signer, subjectDigest, serialNumber), signer.publicPem);
  }

  /** So an attestation for `sha256:<hex>` of an artifact is trusted for it. */
  lemma AttestedIsTrusted(lib: Library, signer: Signer, artifact: Bytes, serialNumber: string)
    requires Faithful(lib, signer) && lib.HexDigest(artifact) != ""
    ensures Trusted(lib, artifact, Attest(lib, signer, "sha256" + [':'] + lib.HexDigest(artifact), serialNumber),
            signer.publicPem)
  {
    var subject := "sha256" + [':'] + lib.HexDigest(artifact);
    AtFirst("sha256", ':', lib.HexDigest(artifact));
    AttestationIsTrustedIff(lib, signer, artifact, subject, serialNumber);
  }

  /** Asked about a digest alone, an attestation binds exactly the one it was made for. */
  lemma AttestationBindsIff(lib: Library, signer: Signer, subjectDigest: string, serialNumber: string, expected: string)
    requires Faithful(lib, signer)
    ensures FirstNamed(Report(lib, Attest(lib, signer, subjectDigest, serialNumber), signer.publicPem, Some(expected),
            None, None),
                       SubjectBinding) == Some(Passed(SubjectBinding))
       <==> DigestValue(expected) == DigestValue(subjectDigest)
  {
    SubjectBoundIff(lib, Attest(lib, signer, subjectDigest, serialNumber), signer.publicPem, Some(expected), None,
        None);
    var doc := lib.loadDoc(Attest(lib, signer, subjectDigest, serialNumber)).value;
    assert Asks(lib, Some(expected), None, DigestValue(expected));
    assert About(lib, doc, DigestValue(expected)) <==> DigestValue(expected) == DigestValue(subjectDigest);
  }

  /** The default algorithm is reached only with an empty one before the colon: a bare digest is
      recorded as its own algorithm. */
  lemma {:induction false} DefaultAlgorithmIff(subjectDigest: string)
    ensures subjectDigest != "" && ':' !in subjectDigest
            ==> SubjectDigest(subjectDigest) == (subjectDigest, subjectDigest)
    ensures Before(subjectDigest, ':') == "" <==> subjectDigest == "" || subjectDigest[0] == ':'
    ensures SubjectDigest(subjectDigest).0 == "sha256" <==> Before(subjectDigest, ':') in {"", "sha256"}
  {
    if ':' !in subjectDigest {
      Nowhere(subjectDigest, ':');
    }
  }

  // ---- a signature fixes one artifact -----------------------------------------------------------

  /** Two artifacts trusted on one bundle are the same, if theirs do not collide. */
  lemma BundleFixesArtifact(lib: Library, a: Bytes, b: Bytes, signature: Bytes, pem: Bytes)
    requires !Collide(lib.hex, lib.sha256(a), lib.sha256(b)) && !Collide(lib.sha256, a, b)
    requires Trusted(lib, a, signature, pem) && Trusted(lib, b, signature, pem)
    requires lib.loadDoc(signature).Some? && lib.loadDoc(signature).value.payloadType == ""
    ensures a == b
  {
    TrustedIff(lib, a, signature, pem);
    TrustedIff(lib, b, signature, pem);
  }
}
