/** The writes each operation makes from a given disk, and what it answers.
    The plan of an operation is its uninterrupted run; a crash leaves a prefix. */
module ActivationPlan {
  import opened Results
  import opened Text
  import opened CodeUnits
  import opened HermeticBundle
  import opened InstallRoot

  datatype Host = Host(platform: string, arch: string)

  type Staging = map<ReleaseDigest, Directory>

  /** The health gate is an oracle: it answers evidence or it throws. */
  datatype GateAnswer = Answered(health: Health) | Threw

  datatype Receipt = Receipt(operation: Operation, previous: Option<Pointer>, active: Pointer, releaseReused: bool)

  datatype Plan = Plan(effects: seq<Effect>, result: Result<Receipt>)

  const HEALTH_NAMES: seq<string> := ["migration", "native", "driver"]

  function PointerOf(b: Bundle): Pointer {
    Pointer(b.manifest.releaseId, b.releaseDigest, b.manifest.semanticVersion)
  }

  function Project(components: seq<Component>): seq<Projection> {
    seq(|components|, i requires 0 <= i < |components| =>
      Projection(components[i].componentId, components[i].logicalPath,
                 components[i].contentDigest, components[i].sizeBytes))
  }

  function LauncherOf(launchers: seq<Launcher>, id: string): Option<Launcher> {
    if launchers == [] then None
    else if launchers[|launchers| - 1].componentId == id then Some(launchers[|launchers| - 1])
    else LauncherOf(launchers[..|launchers| - 1], id)
  }

  function LauncherId(l: Launcher): string { l.componentId }

  function HealthError(h: Health, p: Pointer): Option<string> {
    if
      || |h.checks| != |HEALTH_NAMES|
      || !(forall name :: name in HEALTH_NAMES ==>
             exists c :: c in h.checks && c.name == name && c.status == "pass" && IsDigest(c.evidenceDigest)) then
      Some("VES_ACTIVATION_HEALTH_FAILED")
    else
      var vestra := LauncherOf(h.launchers, "launcher:vestra");
      var verchestra := LauncherOf(h.launchers, "launcher:verchestra");
      if
        || |h.launchers| != 2 || |KeySet(h.launchers, LauncherId)| != 2
        || vestra.None? || vestra.value.exitCode != 0
        || verchestra.None? || verchestra.value.exitCode != 0
        || vestra.value.semanticVersion != p.semanticVersion
        || verchestra.value.semanticVersion != p.semanticVersion
        || vestra.value.releaseDigest != p.releaseDigest
        || verchestra.value.releaseDigest != p.releaseDigest
        || !IsDigest(vestra.value.normalizedBehaviorDigest)
        || vestra.value.normalizedBehaviorDigest != verchestra.value.normalizedBehaviorDigest then
        Some("VES_ACTIVATION_LAUNCHER_MISMATCH")
      else None
  }

  function HealthOf(gate: GateAnswer, p: Pointer): Result<Health> {
    match gate
    case Threw => Err("VES_ACTIVATION_HEALTH_FAILED")
    case Answered(h) => match HealthError(h, p) case Some(code) => Err(code) case None => Ok(h)
  }

  /** The component's own bytes stand under its path. */
  predicate FileMatches(dir: Directory, c: Component) {
    IsFile(dir, c.logicalPath) && dir[c.logicalPath] == Bytes(c.sizeBytes, c.contentDigest)
  }

  predicate FilesMatch(dir: Directory, components: seq<Component>) {
    forall c :: c in components ==> FileMatches(dir, c)
  }

  predicate ReceiptMatches(dir: Directory, staged: Staged) {
    IsFile(dir, RECEIPT) && dir[RECEIPT] == StageReceipt(staged)
  }

  function OpenStage(host: Host, staging: Staging, staged: Staged): Result<Bundle> {
    if staged.activationAllowed || staged.stageOf != staged.releaseDigest then Err("VES_ACTIVATION_STAGE_INVALID")
    else
      var verified := Verify(staged.bundle);
      if verified.Err? then Err("VES_ACTIVATION_STAGE_INVALID")
      else
        var bundle := verified.value;
        var target := bundle.manifest.target;
        if
          || bundle.manifest.releaseId != staged.releaseId
          || bundle.releaseDigest != staged.releaseDigest
          || target.platform != staged.platform || target.arch != staged.arch
          || target.platform != host.platform || target.arch != host.arch then
          Err("VES_ACTIVATION_RELEASE_MIXED")
        else if Project(bundle.manifest.components) != staged.components then Err("VES_ACTIVATION_RELEASE_MIXED")
        else if bundle.releaseDigest !in staging || !ReceiptMatches(staging[bundle.releaseDigest], staged) then
          Err("VES_ACTIVATION_STAGE_INVALID")
        else if !FilesMatch(staging[bundle.releaseDigest], bundle.manifest.components) then
          Err("VES_ACTIVATION_INTEGRITY")
        else Ok(bundle)
  }

  function InstalledBundle(r: Root, d: ReleaseDigest): Result<Bundle> {
    if d !in r.releases || RecordIn(r.releases[d]).None? then Err("VES_ROLLBACK_TARGET_INVALID")
    else
      var verified := Verify(RecordIn(r.releases[d]).value.bundle);
      if verified.Err? || verified.value.releaseDigest != d then Err("VES_ROLLBACK_TARGET_INVALID")
      else if !FilesMatch(r.releases[d], verified.value.manifest.components) then Err("VES_ACTIVATION_INTEGRITY")
      else verified
  }

  predicate ForeignJournal(r: Root, target: Pointer) {
    r.journal.Some? && r.journal.value.target != target
  }

  predicate DistinctDigests(entries: seq<Pointer>) {
    forall i, j :: 0 <= i < j < |entries| ==> entries[i].releaseDigest != entries[j].releaseDigest
  }

  /** The verified-release record under a trust root; a repeated digest makes it malformed. */
  function VerifiedReleases(r: Root, t: TrustRoot): Result<seq<Pointer>> {
    if t !in r.verified then Ok([])
    else if !DistinctDigests(r.verified[t]) then Err("VES_ACTIVATION_RECORD_INVALID")
    else Ok(r.verified[t])
  }

  function Without(entries: seq<Pointer>, d: ReleaseDigest): seq<Pointer> {
    if entries == [] then []
    else (if entries[0].releaseDigest == d then [] else [entries[0]]) + Without(entries[1..], d)
  }

  predicate EndsWith(entries: seq<Pointer>, e: Pointer) {
    entries != [] && entries[|entries| - 1] == e
  }

  function Recorded(entries: seq<Pointer>, e: Pointer): seq<Pointer> {
    if EndsWith(entries, e) then entries else Without(entries, e.releaseDigest) + [e]
  }

  function RecordEffects(r: Root, trust: Option<TrustRoot>, target: Pointer): Result<seq<Effect>> {
    if trust.None? then Ok([])
    else
      var entries := VerifiedReleases(r, trust.value);
      if entries.Err? then Err(entries.code)
      else if EndsWith(entries.value, target) then Ok([])
      else Ok([RecordReleases(trust.value, Recorded(entries.value, target))])
  }

  function CopyFiles(d: ReleaseDigest, components: seq<Component>): seq<Effect> {
    seq(|components|, i requires 0 <= i < |components| =>
      CopyFile(d, components[i].logicalPath, Bytes(components[i].sizeBytes, components[i].contentDigest)))
  }

  function PrepareEffects(r: Root, d: ReleaseDigest): seq<Effect> {
    (if d in r.transactions then [] else [MakeTransaction(d)]) + [ClearPayload(d), MakePayload(d)]
  }

  /** `copyFile` copies what the stage holds, which the stage check found to match each component. */
  function CopyEffects(r: Root, d: ReleaseDigest, components: seq<Component>): seq<Effect> {
    PrepareEffects(r, d) + CopyFiles(d, components)
  }

  function Payload(r: Root, d: ReleaseDigest): Directory {
    if d in r.transactions && r.transactions[d].Some? then r.transactions[d].value else map[]
  }

  predicate PayloadMatches(r: Root, d: ReleaseDigest, components: seq<Component>) {
    d in r.transactions && r.transactions[d].Some? && FilesMatch(Payload(r, d), components)
  }

  function PublishEffects(d: ReleaseDigest, bundle: Bundle, prepared: Journal): seq<Effect> {
    [WriteRecord(d, ReleaseRecord(bundle, prepared.health)), WriteJournal(prepared), Publish(d),
     WriteJournal(prepared.(state := PUBLISHED))]
  }

  function CommitEffects(committed: Journal): seq<Effect> {
    [SwitchPointer(committed.target), WriteJournal(committed),
     RemoveTransaction(committed.target.releaseDigest), RemoveJournal]
  }

  function CommitPlan(r: Root, before: seq<Effect>, trust: Option<TrustRoot>, target: Pointer, health: Health,
                      reused: bool): Plan
  {
    match RecordEffects(r, trust, target)
    case Err(code) => Plan(before, Err(code))
    case Ok(record) =>
      Plan(before + record + CommitEffects(Journal(Activate, COMMITTED, target, r.active, health)),
           Ok(Receipt(Activate, r.active, target, reused)))
  }

  function ReusePlan(r: Root, trust: Option<TrustRoot>, gate: GateAnswer, target: Pointer): Plan {
    match InstalledBundle(r, target.releaseDigest)
    case Err(code) => Plan([], Err(code))
    case Ok(installed) =>
      match HealthOf(gate, PointerOf(installed))
      case Err(code) => Plan([], Err(code))
      case Ok(health) => CommitPlan(r, [], trust, target, health, true)
  }

  function FreshPlan(r: Root, trust: Option<TrustRoot>, gate: GateAnswer, bundle: Bundle): Plan {
    var target, d := PointerOf(bundle), bundle.releaseDigest;
    var copy := CopyEffects(r, d, bundle.manifest.components);
    if !PayloadMatches(ApplyAll(r, copy), d, bundle.manifest.components) then
      Plan(copy, Err("VES_ACTIVATION_INTEGRITY"))
    else
      match HealthOf(gate, target)
      case Err(code) => Plan(copy, Err(code))
      case Ok(health) =>
        if RecordBlocked(Payload(ApplyAll(r, copy), d)) then Plan(copy, Err("VES_ACTIVATION_FAILED"))
        else
          var prepared := Journal(Activate, PREPARED, target, r.active, health);
          CommitPlan(r, copy + PublishEffects(d, bundle, prepared), trust, target, health, false)
  }

  function AlreadyActivePlan(r: Root, trust: Option<TrustRoot>, target: Pointer): Plan {
    match InstalledBundle(r, target.releaseDigest)
    case Err(code) => Plan([], Err(code))
    case Ok(_) =>
      match RecordEffects(r, trust, target)
      case Err(code) => Plan([], Err(code))
      case Ok(record) => Plan(record + [RemoveJournal], Ok(Receipt(Activate, r.active, target, true)))
  }

  predicate TrustValid(trust: Option<TrustRoot>) { trust.Some? ==> IsDigest(trust.value) }

  function ActivatePlan(r: Root, host: Host, staging: Staging, staged: Staged, trust: Option<TrustRoot>,
                        gate: GateAnswer): Plan
  {
    if !TrustValid(trust) then Plan([], Err("VES_ACTIVATION_PROVENANCE_INVALID"))
    else
      match OpenStage(host, staging, staged)
      case Err(code) => Plan([], Err(code))
      case Ok(bundle) =>
        var target := PointerOf(bundle);
        if ForeignJournal(r, target) then Plan([], Err("VES_ACTIVATION_RECOVERY_REQUIRED"))
        else if r.active == Some(target) then AlreadyActivePlan(r, trust, target)
        else if target.releaseDigest in r.releases then ReusePlan(r, trust, gate, target)
        else FreshPlan(r, trust, gate, bundle)
  }

  function RollbackEffects(prepared: Journal): seq<Effect> {
    [WriteJournal(prepared), SwitchPointer(prepared.target), WriteJournal(prepared.(state := COMMITTED)), RemoveJournal]
  }

  /** The entry with the target's digest must be the target itself. */
  function BindingError(r: Root, host: Host, binding: Option<TrustRoot>, bundle: Bundle): Option<string> {
    if binding.None? then None
    else if bundle.manifest.target.platform != host.platform || bundle.manifest.target.arch != host.arch then
      Some("VES_ACTIVATION_RELEASE_MIXED")
    else
      var entries := VerifiedReleases(r, binding.value);
      if entries.Err? then Some(entries.code)
      else if PointerOf(bundle) !in entries.value then Some("VES_ROLLBACK_TARGET_UNTRUSTED")
      else None
  }

  function RollbackPlan(r: Root, host: Host, d: ReleaseDigest, binding: Option<TrustRoot>, gate: GateAnswer): Plan {
    if !TrustValid(binding) then Plan([], Err("VES_ACTIVATION_PROVENANCE_INVALID"))
    else
      match InstalledBundle(r, d)
      case Err(code) => Plan([], Err(code))
      case Ok(bundle) =>
        var target := PointerOf(bundle);
        match BindingError(r, host, binding, bundle)
        case Some(code) => Plan([], Err(code))
        case None =>
          if ForeignJournal(r, target) then Plan([], Err("VES_ACTIVATION_RECOVERY_REQUIRED"))
          else
            match HealthOf(gate, target)
            case Err(code) => Plan([], Err(code))
            case Ok(health) =>
              Plan(RollbackEffects(Journal(Rollback, PREPARED, target, r.active, health)),
                   Ok(Receipt(Rollback, r.active, target, true)))
  }

  function PurgeEffects(order: seq<Unlink>): seq<Effect> {
    seq(|order|, i requires 0 <= i < |order| => Purge(order[i])) + [PurgeAll]
  }

  /** Uninstall drops the pointer first; a purge then removes the trees entry by entry. */
  function UninstallEffects(purge: Option<seq<Unlink>>): seq<Effect> {
    [RemoveActive, RemoveJournal, RemoveTransactions] +
    (if purge.None? then [] else PurgeEffects(purge.value))
  }
}
