/** When a stage opens and when a rollback succeeds, said without the functions that
    decide it, and what the receipts of both tell. */
module ActivationGates {
  import opened Results
  import opened Text
  import opened HermeticBundle
  import opened InstallRoot
  import opened ActivationPlan
  import opened CrashConsistency
  import opened CrashRuns
  import opened Recovery
  import opened HealthEvidence

  // ---- Opening a stage ----

  /** The receipt lists the components of the release, in its order. */
  predicate Lists(staged: Staged, components: seq<Component>) {
    && |staged.components| == |components|
    && forall i :: 0 <= i < |components| ==>
         staged.components[i] == Projection(components[i].componentId, components[i].logicalPath,
                                            components[i].contentDigest, components[i].sizeBytes)
  }

  /** Under the receipt, every component is there as a file with its own bytes. */
  predicate Holds(dir: Directory, staged: Staged, components: seq<Component>) {
    && IsFile(dir, RECEIPT) && dir[RECEIPT] == StageReceipt(staged)
    && forall c :: c in components ==> IsFile(dir, c.logicalPath) && dir[c.logicalPath] == Bytes(c.sizeBytes, c.contentDigest)
  }

  /** A stage that does not claim authority, for a verified bundle of the release it names and of this
      host, whose directory holds this very receipt and all its components. */
  predicate Openable(host: Host, staging: Staging, staged: Staged) {
    var d := staged.releaseDigest;
    && !staged.activationAllowed && staged.stageOf == d
    && Verify(staged.bundle).Ok? && staged.bundle.releaseDigest == d
    && d.manifest.releaseId == staged.releaseId
    && d.manifest.target.platform == staged.platform == host.platform
    && d.manifest.target.arch == staged.arch == host.arch
    && Lists(staged, d.manifest.components)
    && d in staging && Holds(staging[d], staged, d.manifest.components)
  }

  lemma ProjectionIff(staged: Staged, components: seq<Component>)
    ensures Project(components) == staged.components <==> Lists(staged, components)
  {
    if Lists(staged, components) {
      assert forall i :: 0 <= i < |components| ==> Project(components)[i] == staged.components[i];
    }
    if Project(components) == staged.components {
      assert forall i :: 0 <= i < |components| ==> staged.components[i] == Project(components)[i];
    }
  }

  lemma HoldsIff(dir: Directory, staged: Staged, components: seq<Component>)
    ensures ReceiptMatches(dir, staged) && FilesMatch(dir, components) <==> Holds(dir, staged, components)
  {
    hide IsFile;
    assert FilesMatch(dir, components) <==> forall c :: c in components ==> FileMatches(dir, c);
  }

  /** A stage opens exactly under these conditions, and opens as the bundle its digest names. */
  lemma StageOpensIff(host: Host, staging: Staging, staged: Staged)
    ensures OpenStage(host, staging, staged).Ok? <==> Openable(host, staging, staged)
    ensures OpenStage(host, staging, staged).Ok? ==>
              OpenStage(host, staging, staged).value == Bundle(staged.releaseDigest.manifest, staged.releaseDigest)
  {
    if Verify(staged.bundle).Ok? {
      var b := Verify(staged.bundle).value;
      VerifyIsNormalForm(staged.bundle, b);
      assert b == Bundle(b.releaseDigest.manifest, b.releaseDigest);
      ProjectionIff(staged, b.manifest.components);
      if b.releaseDigest in staging {
        HoldsIff(staging[b.releaseDigest], staged, b.manifest.components);
      }
    }
    hide Verify, ReceiptMatches, FilesMatch, Holds, Lists, Project;
  }

  // ---- Rolling back ----

  /** A rollback succeeds exactly when the release is installed and intact, a binding names a record that
      lists it and a release of this host, no foreign journal stands, and the release is healthy. */
  lemma RollbackSucceedsIff(r: Root, host: Host, d: ReleaseDigest, binding: Option<TrustRoot>, gate: GateAnswer)
    requires Inv(r)
    ensures var target := PointerFor(d);
            RollbackPlan(r, host, d, binding, gate).result.Ok? <==>
              && Intact(r, target)
              && (binding.Some? ==>
                   && IsDigest(binding.value) && target in RecordOf(r, binding.value)
                   && d.manifest.target.platform == host.platform && d.manifest.target.arch == host.arch)
              && (r.journal.Some? ==> r.journal.value.target == target)
              && gate.Answered? && Healthy(gate.health, target)
  {
    InstalledIff(r, d);
    HealthOfIff(gate, PointerFor(d));
    InstalledNames(r, d);
    IntactWhenSpared(r, d);
    hide HealthOf, Healthy, InstalledBundle, IsDigest, Intact, Complete, SparesRecord;
    if binding.Some? {
      RecordIsDistinct(r, binding.value);
    }
    hide Inv;
  }

  lemma RecordIsDistinct(r: Root, t: TrustRoot)
    requires Inv(r)
    ensures VerifiedReleases(r, t) == Ok(RecordOf(r, t))
  {
    hide CompleteDirectory, HealthError, DistinctDigests;
  }

  lemma IntactWhenSpared(r: Root, d: ReleaseDigest)
    ensures Intact(r, PointerFor(d)) <==> Complete(r, PointerFor(d)) && SparesRecord(PointerFor(d))
  {
    hide Complete, SparesRecord, FilesMatch;
    if Complete(r, PointerFor(d)) {
      IntactIff(r, PointerFor(d));
    }
  }

  lemma InstalledNames(r: Root, d: ReleaseDigest)
    ensures InstalledBundle(r, d).Ok? ==> InstalledBundle(r, d).value.manifest == d.manifest
    ensures InstalledBundle(r, d).Ok? ==> PointerOf(InstalledBundle(r, d).value) == PointerFor(d)
  {
    if InstalledBundle(r, d).Ok? {
      VerifyIsNormalForm(RecordIn(r.releases[d]).value.bundle, InstalledBundle(r, d).value);
    }
  }

  // ---- Receipts ----

  /** The receipt of an activation names what was active, what is now, and whether the release was there. */
  lemma ActivationReceipt(
    r: Root, host: Host, staging: Staging, staged: Staged, trust: Option<TrustRoot>, gate: GateAnswer)
    requires ActivatePlan(r, host, staging, staged, trust, gate).result.Ok?
    ensures var receipt := ActivatePlan(r, host, staging, staged, trust, gate).result.value;
            && receipt.operation == Operation.Activate && receipt.previous == r.active
            && receipt.active == PointerFor(staged.releaseDigest)
            && (receipt.releaseReused <==> staged.releaseDigest in r.releases)
  {
    StageOpensIff(host, staging, staged);
    InstalledIsThere(r, staged.releaseDigest);
    hide OpenStage, Openable, InstalledBundle, HealthOf, CopyEffects, PayloadMatches, ApplyAll, RecordEffects, RecordBlocked;
  }

  lemma InstalledIsThere(r: Root, d: ReleaseDigest)
    ensures InstalledBundle(r, d).Ok? ==> d in r.releases
  {
    hide Verify;
  }

  /** A finished rollback leaves its target active and no journal, touches nothing else, and says so. */
  lemma RollbackReceipt(r: Root, host: Host, d: ReleaseDigest, binding: Option<TrustRoot>, gate: GateAnswer)
    requires RollbackPlan(r, host, d, binding, gate).result.Ok?
    ensures var plan, target := RollbackPlan(r, host, d, binding, gate), PointerFor(d);
            && plan.result.value == Receipt(Rollback, r.active, target, true)
            && ApplyAll(r, plan.effects) == r.(active := Some(target), journal := None)
  {
    InstalledNames(r, d);
    hide InstalledBundle, HealthOf, BindingError, ApplyAll;
    var es := RollbackPlan(r, host, d, binding, gate).effects;
    ApplyFour(r, es[0], es[1], es[2], es[3]);
  }

  /** Recording the release that is already the last one writes nothing. */
  lemma LatestIsNotRewritten(r: Root, t: TrustRoot, target: Pointer)
    requires t in r.verified && DistinctDigests(r.verified[t])
    requires r.verified[t] != [] && r.verified[t][|r.verified[t]| - 1] == target
    ensures RecordEffects(r, Some(t), target) == Ok([])
  {
  }
}
