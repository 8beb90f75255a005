/** Publishing a release as signed TUF metadata. */
module TufPublication {
  import opened Results
  import opened CodeUnits
  import opened TufMetadata

  datatype RoleSigners = RoleSigners(signers: seq<Signer>, threshold: int)

  datatype Expiries = Expiries(root: int, timestamp: int, snapshot: int, targets: int)

  datatype Input = Input(
    rootVersion: int,
    metadataVersion: int,
    expires: Expiries,
    root: RoleSigners,
    timestamp: RoleSigners,
    snapshot: RoleSigners,
    targets: RoleSigners,
    consistentSnapshot: bool,
    manifestPath: string,
    manifest: TargetFile,
    components: map<string, TargetFile>,
    componentPaths: seq<string>)

  datatype Publication = Publication(
    root: Envelope, timestamp: Envelope, snapshot: Envelope, targets: Envelope, components: Envelope)

  // ---- Input checks ----

  function SignersError(signers: seq<Signer>): Option<string> {
    if signers == [] then None
    else if !IsKeyId(signers[0].keyId) then Some("VES_TUF_PUBLICATION_INPUT_INVALID")
    else if signers[0].publicKeyPem == "" then Some("VES_TUF_PUBLICATION_SIGNER_INVALID")
    else SignersError(signers[1..])
  }

  function RoleError(r: RoleSigners): Option<string> {
    if r.signers == [] then Some("VES_TUF_PUBLICATION_SIGNER_INVALID")
    else if SignersError(r.signers).Some? then SignersError(r.signers)
    else if |KeySet(r.signers, KeyIdOf)| != |r.signers| then Some("VES_TUF_PUBLICATION_SIGNER_INVALID")
    else if r.threshold <= 0 || r.threshold > |r.signers| then Some("VES_TUF_PUBLICATION_THRESHOLD_INVALID")
    else None
  }

  lemma {:induction false} SignersErrorIff(signers: seq<Signer>)
    ensures SignersError(signers).None? <==> forall s :: s in signers ==> IsKeyId(s.keyId) && s.publicKeyPem != ""
  {
    hide IsKeyId;
    if signers != [] {
      SignersErrorIff(signers[1..]);
      assert signers == [signers[0]] + signers[1..];
    }
  }

  lemma RoleErrorIff(r: RoleSigners)
    ensures RoleError(r).None? <==> SignersValid(r.signers, r.threshold)
  {
    hide IsKeyId;
    SignersErrorIff(r.signers);
  }

  /** Every role expires in the future, the online roles no later than the offline ones. */
  function ExpiryError(e: Expiries, now: int): Option<string> {
    if e.timestamp <= now || e.snapshot <= now || e.targets <= now || e.root <= now then
      Some("VES_TUF_PUBLICATION_INPUT_INVALID")
    else if !(e.timestamp <= e.snapshot <= e.targets <= e.root) then Some("VES_TUF_PUBLICATION_EXPIRY_ORDER_INVALID")
    else None
  }

  function FirstOf(a: Option<string>, b: Option<string>): Option<string> { if a.Some? then a else b }

  function InputError(x: Input, now: int): Option<string> {
    FirstOf(RoleError(x.root), FirstOf(RoleError(x.timestamp), FirstOf(RoleError(x.snapshot), FirstOf(RoleError(x.targets),
      if x.rootVersion <= 0 then Some("VES_TUF_PUBLICATION_INPUT_INVALID")
      else FirstOf(ExpiryError(x.expires, now),
        if x.metadataVersion <= 0 then Some("VES_TUF_PUBLICATION_INPUT_INVALID") else None)))))
  }

  // ---- One key table for the root ----

  function Position(kept: seq<Signer>, keyId: string): (at: nat)
    ensures at <= |kept|
    ensures at < |kept| ==> kept[at].keyId == keyId
    ensures forall i :: 0 <= i < at ==> kept[i].keyId != keyId
  {
    if kept == [] || kept[0].keyId == keyId then 0 else 1 + Position(kept[1..], keyId)
  }

  function UnionOf(signers: seq<Signer>): Result<seq<Signer>> {
    if signers == [] then Ok([])
    else
      match UnionOf(signers[..|signers| - 1])
      case Err(code) => Err(code)
      case Ok(kept) =>
        var s := signers[|signers| - 1];
        var at := Position(kept, s.keyId);
        if at == |kept| then Ok(kept + [s])
        else if kept[at].publicKeyPem != s.publicKeyPem then Err("VES_TUF_PUBLICATION_SIGNER_INVALID")
        else Ok(kept)
  }

  lemma {:induction false} UnionFailsEarly(signers: seq<Signer>, i: nat)
    requires i <= |signers| && UnionOf(signers[..i]).Err?
    ensures UnionOf(signers) == UnionOf(signers[..i])
    decreases |signers|
  {
    if i < |signers| {
      assert signers[..|signers| - 1][..i] == signers[..i];
      UnionFailsEarly(signers[..|signers| - 1], i);
    } else {
      assert signers[..i] == signers;
    }
  }

  method UnionKeys(signers: seq<Signer>) returns (r: Result<seq<Signer>>)
    ensures r == UnionOf(signers)
  {
    var kept: seq<Signer> := [];
    for i := 0 to |signers|
      invariant UnionOf(signers[..i]) == Ok(kept)
    {
      assert signers[..i + 1][..i] == signers[..i];
      var at := Position(kept, signers[i].keyId);
      if at < |kept| && kept[at].publicKeyPem != signers[i].publicKeyPem {
        UnionFailsEarly(signers, i + 1);
        return Err("VES_TUF_PUBLICATION_SIGNER_INVALID");
      }
      if at == |kept| {
        kept := kept + [signers[i]];
      }
    }
    assert signers[..|signers|] == signers;
    r := Ok(kept);
  }

  /** `Object.fromEntries` over key ids. */
  function KeyTable(signers: seq<Signer>): map<string, string> {
    if signers == [] then map[]
    else KeyTable(signers[..|signers| - 1])[signers[|signers| - 1].keyId := signers[|signers| - 1].publicKeyPem]
  }

  /** One key id never stands for two public keys. */
  predicate OneKeyPerId(signers: seq<Signer>) {
    forall s, t :: s in signers && t in signers && s.keyId == t.keyId ==> s == t
  }

  lemma {:induction false} KeyTableHolds(signers: seq<Signer>)
    requires OneKeyPerId(signers)
    ensures KeyTable(signers).Keys == KeySet(signers, KeyIdOf)
    ensures forall s :: s in signers ==> s.keyId in KeyTable(signers) && KeyTable(signers)[s.keyId] == s.publicKeyPem
    decreases |signers|
  {
    hide KeySet;
    if signers == [] {
      assert KeySet(signers, KeyIdOf) == {} by { NoKeys(signers); }
    } else {
      var init, last := signers[..|signers| - 1], signers[|signers| - 1];
      assert signers == init + [last];
      KeyTableHolds(init);
      KeySetSnoc(init, last, KeyIdOf);
    }
  }

  lemma NoKeys(signers: seq<Signer>)
    requires signers == []
    ensures KeySet(signers, KeyIdOf) == {}
  {
  }

  /** The union succeeds exactly when no id stands for two keys, and then it loses no key. */
  lemma {:induction false} UnionHolds(signers: seq<Signer>)
    ensures UnionOf(signers).Ok? <==> OneKeyPerId(signers)
    ensures UnionOf(signers).Ok? ==> forall s :: s in UnionOf(signers).value <==> s in signers
    decreases |signers|
  {
    if signers != [] {
      var init, last := signers[..|signers| - 1], signers[|signers| - 1];
      UnionHolds(init);
      assert signers == init + [last];
      if UnionOf(init).Ok? {
        var kept := UnionOf(init).value;
        var at := Position(kept, last.keyId);
        if at < |kept| {
          assert kept[at] in kept && kept[at] in signers;
          assert kept[at].publicKeyPem == last.publicKeyPem ==> kept[at] == last;
        }
      }
    }
  }

  // ---- Publishing ----

  function RootSignedOf(x: Input, keys: map<string, string>): Signed {
    RootSigned(
      x.rootVersion, x.expires.root, keys,
      Roles(RoleOf(x.root.signers, x.root.threshold), RoleOf(x.timestamp.signers, x.timestamp.threshold),
            RoleOf(x.snapshot.signers, x.snapshot.threshold), RoleOf(x.targets.signers, x.targets.threshold)),
      x.consistentSnapshot)
  }

  function AllSigners(x: Input): seq<Signer> {
    x.root.signers + x.timestamp.signers + x.snapshot.signers + x.targets.signers
  }

  function TrustedRoot(crypto: Crypto, x: Input): Result<Envelope> {
    match UnionOf(AllSigners(x))
    case Err(code) => Err(code)
    case Ok(union) => SignedEnvelope(crypto, RootSignedOf(x, KeyTable(union)), x.root.signers)
  }

  function ComponentsSignedOf(x: Input): Signed {
    TargetsSigned(x.metadataVersion, x.expires.targets, x.components, None)
  }

  function TopTargetsSignedOf(x: Input): Signed {
    TargetsSigned(
      x.metadataVersion, x.expires.targets, map[x.manifestPath := x.manifest],
      Some(Delegations(
        KeyTable(x.targets.signers),
        [DelegatedRole("components", RoleOf(x.targets.signers, x.targets.threshold), SortBy(x.componentPaths, Whole))])))
  }

  datatype Versions = Versions(targets: int, snapshot: int, timestamp: int)

  datatype Online = Online(timestamp: Envelope, snapshot: Envelope)

  function SnapshotSignedOf(targets: Envelope, components: Envelope, v: Versions, expires: int): Signed {
    SnapshotSigned(v.snapshot, expires, FileMeta(v.targets, OfFile(targets)), FileMeta(v.targets, OfFile(components)))
  }

  /** The only code that signs the online roles, for a release and for a refresh. */
  function SignOnlineRoles(
    crypto: Crypto, targets: Envelope, components: Envelope, v: Versions, snapshotExpires: int, timestampExpires: int,
    timestampSigners: seq<Signer>, snapshotSigners: seq<Signer>): Result<Online>
  {
    match SignedEnvelope(crypto, SnapshotSignedOf(targets, components, v, snapshotExpires), snapshotSigners)
    case Err(code) => Err(code)
    case Ok(snapshot) =>
      match SignedEnvelope(
        crypto, TimestampSigned(v.timestamp, timestampExpires, FileMeta(v.snapshot, OfFile(snapshot))), timestampSigners)
      case Err(code) => Err(code)
      case Ok(timestamp) => Ok(Online(timestamp, snapshot))
  }

  function Publish(crypto: Crypto, x: Input, now: int): Result<Publication> {
    if InputError(x, now).Some? then Err(InputError(x, now).value)
    else
      match SignedEnvelope(crypto, ComponentsSignedOf(x), x.targets.signers)
      case Err(code) => Err(code)
      case Ok(components) =>
        match SignedEnvelope(crypto, TopTargetsSignedOf(x), x.targets.signers)
        case Err(code) => Err(code)
        case Ok(targets) =>
          match SignOnlineRoles(
            crypto, targets, components, Versions(x.metadataVersion, x.metadataVersion, x.metadataVersion),
            x.expires.snapshot, x.expires.timestamp, x.timestamp.signers, x.snapshot.signers)
          case Err(code) => Err(code)
          case Ok(online) =>
            match TrustedRoot(crypto, x)
            case Err(code) => Err(code)
            case Ok(root) => Ok(Publication(root, online.timestamp, online.snapshot, targets, components))
  }
}
