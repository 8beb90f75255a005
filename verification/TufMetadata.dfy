/** Signed TUF metadata: envelopes, roles, and the threshold of signatures. */
module TufMetadata {
  import opened Results
  import opened CodeUnits
  import opened Text

  datatype Signature = Signature(keyid: string, sig: string)

  datatype Role = Role(keyids: seq<string>, threshold: int)

  datatype Roles = Roles(root: Role, timestamp: Role, snapshot: Role, targets: Role)

  datatype TargetFile = TargetFile(length: nat, sha256: string)

  datatype DelegatedRole = DelegatedRole(name: string, role: Role, paths: seq<string>)

  datatype Delegations = Delegations(keys: map<string, string>, roles: seq<DelegatedRole>)

  datatype Signed =
    | RootSigned(version: int, expires: int, keys: map<string, string>, roles: Roles, consistentSnapshot: bool)
    | TargetsSigned(version: int, expires: int, targets: map<string, TargetFile>, delegations: Option<Delegations>)
    | SnapshotSigned(version: int, expires: int, targetsMeta: FileMeta, componentsMeta: FileMeta)
    | TimestampSigned(version: int, expires: int, snapshotMeta: FileMeta)

  /** A metadata file. Writing it as JSON and parsing it back is taken as the identity. */
  datatype Envelope = Envelope(signatures: seq<Signature>, signed: Signed)

  /** SHA-256 over the bytes of a metadata file, taken as injective. */
  datatype FileHash = OfFile(file: Envelope)

  datatype FileMeta = FileMeta(version: int, hash: FileHash)

  datatype Signer = Signer(keyId: string, publicKeyPem: string)

  /** The cryptographic oracles: signing (which may fail), checking a signature over the canonical
      bytes of some metadata (false also for an unusable key), and the key material of a PEM. */
  datatype Crypto = Crypto(
    sign: (Signer, Signed) -> Option<string>,
    verify: (string, Signed, string) -> bool,
    spki: string -> Option<string>)

  /** A signer whose private key matches its declared public key. */
  ghost predicate Honest(crypto: Crypto, s: Signer) {
    && crypto.spki(s.publicKeyPem).Some?
    && forall m :: crypto.sign(s, m).Some? && IsHexText(crypto.sign(s, m).value)
         && crypto.verify(s.publicKeyPem, m, crypto.sign(s, m).value)
  }

  predicate IsHexText(s: string) { s != "" && Every(s, IsHex) }

  predicate IsKeyId(s: string) { |s| == 64 && Every(s, IsHex) }

  // ---- Thresholds ----

  predicate Counts(crypto: Crypto, s: Signature, signed: Signed, keys: map<string, string>, role: Role) {
    s.keyid in role.keyids && s.keyid in keys && IsHexText(s.sig) && crypto.verify(keys[s.keyid], signed, s.sig)
  }

  /** The role's keys with at least one valid signature on the file. */
  function SigningKeys(crypto: Crypto, file: Envelope, keys: map<string, string>, role: Role): set<string> {
    set s | s in file.signatures && Counts(crypto, s, file.signed, keys, role) :: s.keyid
  }

  predicate MeetsThreshold(crypto: Crypto, file: Envelope, keys: map<string, string>, role: Role) {
    |SigningKeys(crypto, file, keys, role)| >= role.threshold
  }

  /** Accepts exactly when enough distinct role keys have some valid signature: a repeated or bad
      signature neither helps nor hurts, wherever it stands. */
  method VerifyEnvelope(crypto: Crypto, file: Envelope, keys: map<string, string>, role: Role) returns (ok: bool)
    ensures ok <==> MeetsThreshold(crypto, file, keys, role)
  {
    var valid: set<string> := {};
    for i := 0 to |file.signatures|
      invariant valid == set s | s in file.signatures[..i] && Counts(crypto, s, file.signed, keys, role) :: s.keyid
    {
      var s := file.signatures[i];
      assert file.signatures[..i + 1] == file.signatures[..i] + [s];
      if s.keyid !in role.keyids || s.keyid !in keys || !IsHexText(s.sig) || s.keyid in valid {
        continue;
      }
      if crypto.verify(keys[s.keyid], file.signed, s.sig) {
        valid := valid + {s.keyid};
      }
    }
    assert file.signatures[..|file.signatures|] == file.signatures;
    ok := |valid| >= role.threshold;
  }

  /** Reordering or repeating signatures changes nothing, and more signatures never lose the threshold. */
  lemma ThresholdIgnoresOrder(crypto: Crypto, file: Envelope, more: Envelope, keys: map<string, string>, role: Role)
    requires file.signed == more.signed && forall s :: s in file.signatures ==> s in more.signatures
    ensures MeetsThreshold(crypto, file, keys, role) ==> MeetsThreshold(crypto, more, keys, role)
    ensures (forall s :: s in more.signatures ==> s in file.signatures) ==>
              (MeetsThreshold(crypto, file, keys, role) <==> MeetsThreshold(crypto, more, keys, role))
  {
    hide Counts;
    var a, b := SigningKeys(crypto, file, keys, role), SigningKeys(crypto, more, keys, role);
    SubsetSize(a, b);
    if forall s :: s in more.signatures ==> s in file.signatures {
      assert a == b;
    }
  }

  // ---- Signing ----

  function SignOne(crypto: Crypto, s: Signer, signed: Signed): Result<Signature> {
    match crypto.sign(s, signed)
    case None => Err("VES_TUF_PUBLICATION_SIGNING_FAILED")
    case Some(sig) => if sig == "" then Err("VES_TUF_PUBLICATION_SIGNING_FAILED") else Ok(Signature(s.keyId, sig))
  }

  function SignedEnvelope(crypto: Crypto, signed: Signed, signers: seq<Signer>): Result<Envelope> {
    match Traverse(signers, s => SignOne(crypto, s, signed))
    case Err(code) => Err(code)
    case Ok(signatures) => Ok(Envelope(signatures, signed))
  }

  function KeyIdOf(s: Signer): string { s.keyId }

  /** What the publisher demands of a role's signers. */
  predicate SignersValid(signers: seq<Signer>, threshold: int) {
    && signers != [] && (forall s :: s in signers ==> IsKeyId(s.keyId) && s.publicKeyPem != "")
    && |KeySet(signers, KeyIdOf)| == |signers|
    && 1 <= threshold <= |signers|
  }

  /** Honest signers produce an envelope that meets their own role's threshold, under any key table
      that gives their ids their own public keys. */
  lemma SignersMeetThreshold(
    crypto: Crypto, signed: Signed, signers: seq<Signer>, threshold: int, keys: map<string, string>)
    requires SignersValid(signers, threshold)
    requires forall s :: s in signers ==> Honest(crypto, s) && s.keyId in keys && keys[s.keyId] == s.publicKeyPem
    ensures SignedEnvelope(crypto, signed, signers).Ok?
    ensures SignedEnvelope(crypto, signed, signers).value.signed == signed
    ensures MeetsThreshold(crypto, SignedEnvelope(crypto, signed, signers).value, keys, RoleOf(signers, threshold))
  {
    hide IsHexText, IsKeyId, Traverse;
    var f := s => SignOne(crypto, s, signed);
    forall i | 0 <= i < |signers|
      ensures f(signers[i]).Ok? && Counts(crypto, f(signers[i]).value, signed, keys, RoleOf(signers, threshold))
    {
      assert signers[i] in signers;
      SignatureCounts(crypto, signed, signers, threshold, keys, i);
    }
    TraverseAt(signers, f);
    var file := SignedEnvelope(crypto, signed, signers).value;
    var role := RoleOf(signers, threshold);
    hide Counts, SignOne;
    forall id | id in KeySet(signers, KeyIdOf)
      ensures id in SigningKeys(crypto, file, keys, role)
    {
      var s :| s in signers && KeyIdOf(s) == id;
      var i :| 0 <= i < |signers| && signers[i] == s;
      assert file.signatures[i] in file.signatures;
      assert file.signatures[i].keyid == id by { SignedId(crypto, signers[i], signed); }
    }
    SubsetSize(KeySet(signers, KeyIdOf), SigningKeys(crypto, file, keys, role));
  }

  lemma SignedId(crypto: Crypto, s: Signer, signed: Signed)
    ensures SignOne(crypto, s, signed).Ok? ==> SignOne(crypto, s, signed).value.keyid == s.keyId
  {
  }

  lemma SignatureCounts(
    crypto: Crypto, signed: Signed, signers: seq<Signer>, threshold: int, keys: map<string, string>, i: nat)
    requires i < |signers| && Honest(crypto, signers[i])
    requires signers[i].keyId in keys && keys[signers[i].keyId] == signers[i].publicKeyPem
    ensures SignOne(crypto, signers[i], signed).Ok?
    ensures Counts(crypto, SignOne(crypto, signers[i], signed).value, signed, keys, RoleOf(signers, threshold))
  {
    assert RoleOf(signers, threshold).keyids[i] == signers[i].keyId;
    assert crypto.sign(signers[i], signed).Some?;
  }

  function Ids(signers: seq<Signer>): seq<string> {
    seq(|signers|, i requires 0 <= i < |signers| => signers[i].keyId)
  }

  function RoleOf(signers: seq<Signer>, threshold: int): Role { Role(Ids(signers), threshold) }
}
