/** The activation manager as it runs: methods that write the install root step
    by step, dying when their budget of writes is spent. Each is proved to leave
    exactly the prefix of its plan that the budget allows. */
module ActivationManager {
  import opened Results
  import opened HermeticBundle
  import opened InstallRoot
  import opened ActivationPlan
  import opened CrashConsistency
  import opened CrashRuns

  datatype Outcome = Crashed | Ended(result: Result<Receipt>)

  function OutcomeOf(plan: Plan, budget: nat): Outcome {
    if budget < |plan.effects| then Crashed else Ended(plan.result)
  }

  class Manager {
    const host: Host
    var active: Option<Pointer>
    var journal: Option<Journal>
    var releases: map<ReleaseDigest, Directory>
    var transactions: map<ReleaseDigest, Option<Directory>>
    var verified: map<TrustRoot, seq<Pointer>>
    /** How many more writes succeed before the process dies. */
    var writesLeft: nat

    function Disk(): Root
      reads this
    {
      Root(active, journal, releases, transactions, verified)
    }

    constructor (host: Host, disk: Root, budget: nat)
      ensures this.host == host && Disk() == disk && writesLeft == budget
    {
      this.host := host;
      active, journal, releases := disk.active, disk.journal, disk.releases;
      transactions, verified := disk.transactions, disk.verified;
      writesLeft := budget;
    }

    /** One atomic write, the next of the plan; `done` and `rest` are what precedes and follows it. */
    method Write(e: Effect, ghost start: Root, ghost done: seq<Effect>, ghost rest: seq<Effect>)
      returns (alive: bool, ghost done': seq<Effect>, ghost rest': seq<Effect>)
      requires Disk() == ApplyAll(start, done) && rest != [] && rest[0] == e
      modifies this
      ensures alive == (old(writesLeft) > 0)
      ensures done' + rest' == done + rest && Disk() == ApplyAll(start, done')
      ensures |done'| + writesLeft == |done| + old(writesLeft)
      ensures alive ==> Disk() == Apply(old(Disk()), e) && done' == done + [e] && rest' == rest[1..]
      ensures !alive ==> Disk() == old(Disk()) && done' == done && rest' == rest && writesLeft == 0
      ensures TransactionOnly(e) ==> unchanged(`active, `journal, `releases, `verified)
      ensures e.WriteJournal? || e.Publish? ==> unchanged(`active, `verified)
      ensures e.RecordReleases? ==> unchanged(`active, `releases, `transactions, `journal)
    {
      alive, done', rest' := writesLeft > 0, done, rest;
      if !alive {
        return;
      }
      writesLeft := writesLeft - 1;
      match e {
        case MakeTransaction(d) =>
          if d !in transactions {
            transactions := transactions[d := None];
          }
        case ClearPayload(d) => transactions := transactions[d := None];
        case MakePayload(d) => transactions := transactions[d := Some(map[])];
        case CopyFile(d, path, file) =>
          if d in transactions && transactions[d].Some? {
            transactions := transactions[d := Some(transactions[d].value[path := file])];
          }
        case WriteRecord(d, record) =>
          if d in transactions && transactions[d].Some? && !RecordBlocked(transactions[d].value) {
            transactions := transactions[d := Some(transactions[d].value[RECORD := Record(record)])];
          }
        case WriteJournal(j) => journal := Some(j);
        case Publish(d) =>
          if d in transactions && transactions[d].Some? {
            releases := releases[d := transactions[d].value];
            transactions := transactions[d := None];
          }
        case RecordReleases(t, entries) => verified := verified[t := entries];
        case SwitchPointer(target) => active := Some(target);
        case RemoveTransaction(d) => transactions := transactions - {d};
        case RemoveJournal => journal := None;
        case RemoveActive => active := None;
        case RemoveTransactions => transactions := map[];
        case Purge(ReleaseFile(d, path)) =>
          if d in releases {
            releases := releases[d := releases[d] - {path}];
          }
        case Purge(ReleaseDirectory(d)) => releases := releases - {d};
        case Purge(VerifiedFile(t)) => verified := verified - {t};
        case PurgeAll => releases, verified := map[], map[];
      }
      done', rest' := done + [e], rest[1..];
      ApplySnoc(start, done, e);
      hide Apply, ApplyAll;
    }

    /** The transaction directory with an empty payload. */
    method PreparePayload(d: ReleaseDigest, ghost start: Root, ghost tail: seq<Effect>)
      returns (alive: bool, ghost done: seq<Effect>, ghost rest: seq<Effect>)
      requires Disk() == start
      modifies this
      ensures done + rest == PrepareEffects(start, d) + tail
      ensures Disk() == ApplyAll(start, done) && |done| + writesLeft == old(writesLeft)
      ensures alive ==> rest == tail
      ensures !alive ==> rest != [] && writesLeft == 0
      ensures unchanged(`active, `journal, `releases, `verified)
    {
      hide ApplyAll, Apply;
      NoEffects(start);
      alive, done, rest := true, [], PrepareEffects(start, d) + tail;
      if d !in transactions {
        alive, done, rest := Write(MakeTransaction(d), start, done, rest);
        if !alive {
          return;
        }
      }
      assert rest == [ClearPayload(d), MakePayload(d)] + tail;
      alive, done, rest := Write(ClearPayload(d), start, done, rest);
      if !alive {
        return;
      }
      assert rest == [MakePayload(d)] + tail;
      alive, done, rest := Write(MakePayload(d), start, done, rest);
    }

    /** `#copyClosure`: a fresh payload, then one copy per component. */
    method CopyClosure(d: ReleaseDigest, components: seq<Component>, ghost start: Root, ghost tail: seq<Effect>)
      returns (alive: bool, ghost done: seq<Effect>, ghost rest: seq<Effect>)
      requires Disk() == start
      modifies this
      ensures done + rest == CopyEffects(start, d, components) + tail
      ensures Disk() == ApplyAll(start, done) && |done| + writesLeft == old(writesLeft)
      ensures alive ==> rest == tail
      ensures !alive ==> rest != [] && writesLeft == 0
      ensures unchanged(`active, `journal, `releases, `verified)
    {
      hide ApplyAll, Apply;
      ghost var copies := CopyFiles(d, components);
      assert PrepareEffects(start, d) + (copies + tail) == CopyEffects(start, d, components) + tail;
      alive, done, rest := PreparePayload(d, start, copies + tail);
      if !alive {
        return;
      }
      var i := 0;
      while i < |components|
        invariant 0 <= i <= |components| && alive
        invariant done + rest == CopyEffects(start, d, components) + tail
        invariant rest == copies[i..] + tail
        invariant Disk() == ApplyAll(start, done) && |done| + writesLeft == old(writesLeft)
        invariant unchanged(`active, `journal, `releases, `verified)
      {
        var c := components[i];
        assert rest == [copies[i]] + (copies[i + 1..] + tail);
        alive, done, rest :=
          Write(CopyFile(d, c.logicalPath, Bytes(c.sizeBytes, c.contentDigest)), start, done, rest);
        if !alive {
          return;
        }
        i := i + 1;
      }
    }

    /** Manifest and journal, then the rename that publishes the payload. */
    method PublishPayload(bundle: Bundle, prepared: Journal, ghost start: Root, ghost before: seq<Effect>,
                          ghost tail: seq<Effect>)
      returns (alive: bool, ghost done: seq<Effect>, ghost rest: seq<Effect>)
      requires Disk() == ApplyAll(start, before)
      modifies this
      ensures done + rest == before + PublishEffects(bundle.releaseDigest, bundle, prepared) + tail
      ensures Disk() == ApplyAll(start, done) && |done| + writesLeft == |before| + old(writesLeft)
      ensures alive ==> rest == tail
      ensures !alive ==> rest != [] && writesLeft == 0
      ensures unchanged(`active, `verified)
    {
      hide ApplyAll, Apply;
      var d := bundle.releaseDigest;
      ghost var es := PublishEffects(d, bundle, prepared);
      done, rest := before, es + tail;
      alive, done, rest := Write(WriteRecord(d, ReleaseRecord(bundle, prepared.health)), start, done, rest);
      if !alive {
        return;
      }
      assert rest == es[1..] + tail;
      alive, done, rest := Write(WriteJournal(prepared), start, done, rest);
      if !alive {
        return;
      }
      assert rest == es[2..] + tail;
      alive, done, rest := Write(Publish(d), start, done, rest);
      if !alive {
        return;
      }
      assert rest == es[3..] + tail;
      alive, done, rest := Write(WriteJournal(prepared.(state := PUBLISHED)), start, done, rest);
    }

    /** `#recordVerified`: nothing to write when the release is last already. */
    method RecordVerified(trust: Option<TrustRoot>, target: Pointer, ghost start: Root, ghost before: seq<Effect>,
                          ghost tail: seq<Effect>)
      returns (alive: bool, failed: Option<string>, ghost done: seq<Effect>, ghost rest: seq<Effect>)
      requires Disk() == ApplyAll(start, before)
      modifies this
      ensures failed == (match RecordEffects(old(Disk()), trust, target) case Ok(_) => None case Err(code) => Some(code))
      ensures failed.Some? ==> alive && done == before && rest == []
      ensures failed.None? ==> done + rest == before + RecordEffects(old(Disk()), trust, target).value + tail
      ensures Disk() == ApplyAll(start, done) && |done| + writesLeft == |before| + old(writesLeft)
      ensures failed.None? && alive ==> rest == tail
      ensures !alive ==> rest != [] && writesLeft == 0
      ensures unchanged(`active, `releases, `transactions, `journal)
    {
      hide ApplyAll, Recorded, DistinctDigests;
      alive, failed, done, rest := true, None, before, tail;
      if trust.Some? {
        var t := trust.value;
        var entries := if t in verified then verified[t] else [];
        if !DistinctDigests(entries) {
          failed, rest := Some("VES_ACTIVATION_RECORD_INVALID"), [];
          NoDuplicatesInEmpty();
          return;
        }
        if !EndsWith(entries, target) {
          rest := [RecordReleases(t, Recorded(entries, target))] + tail;
          alive, done, rest := Write(RecordReleases(t, Recorded(entries, target)), start, done, rest);
        }
      }
    }

    /** Pointer, COMMITTED, and the clean-up after it. */
    method Commit(committed: Journal, ghost start: Root, ghost before: seq<Effect>)
      returns (alive: bool, ghost done: seq<Effect>, ghost rest: seq<Effect>)
      requires Disk() == ApplyAll(start, before)
      modifies this
      ensures done + rest == before + CommitEffects(committed)
      ensures Disk() == ApplyAll(start, done) && |done| + writesLeft == |before| + old(writesLeft)
      ensures alive ==> rest == []
      ensures !alive ==> rest != [] && writesLeft == 0
    {
      hide ApplyAll, Apply;
      ghost var es := CommitEffects(committed);
      done, rest := before, es;
      alive, done, rest := Write(SwitchPointer(committed.target), start, done, rest);
      if !alive {
        return;
      }
      alive, done, rest := Write(WriteJournal(committed), start, done, rest);
      if !alive {
        return;
      }
      alive, done, rest := Write(RemoveTransaction(committed.target.releaseDigest), start, done, rest);
      if !alive {
        return;
      }
      alive, done, rest := Write(RemoveJournal, start, done, rest);
    }

    /** Record, then commit: the common end of a fresh and of a reused activation. */
    method Finish(trust: Option<TrustRoot>, target: Pointer, previous: Option<Pointer>, health: Health, reused: bool,
                  ghost start: Root, ghost before: seq<Effect>)
      returns (outcome: Outcome)
      requires Disk() == ApplyAll(start, before) && active == start.active == previous && verified == start.verified
      modifies this
      ensures var plan := CommitPlan(start, before, trust, target, health, reused);
              Disk() == ApplyAll(start, Cut(plan.effects, |before| + old(writesLeft))) &&
              outcome == OutcomeOf(plan, |before| + old(writesLeft))
    {
      hide ApplyAll, Apply, Recorded, DistinctDigests;
      ghost var plan := CommitPlan(start, before, trust, target, health, reused);
      var committed := Journal(InstallRoot.Activate, COMMITTED, target, previous, health);
      var alive, failed;
      ghost var done, rest;
      alive, failed, done, rest := RecordVerified(trust, target, start, before, CommitEffects(committed));
      if failed.Some? {
        return Ended(Err(failed.value));
      }
      if !alive {
        return Crashed;
      }
      assert done + CommitEffects(committed) == plan.effects;
      alive, done, rest := Commit(committed, start, done);
      if !alive {
        return Crashed;
      }
      assert done + [] == done;
      return Ended(Ok(Receipt(InstallRoot.Activate, previous, target, reused)));
    }

    /** Stage copied, checked and healthy: publish it, record it, commit it. */
    method ActivateFresh(bundle: Bundle, trust: Option<TrustRoot>, gate: GateAnswer)
      returns (outcome: Outcome)
      modifies this
      ensures var plan := FreshPlan(old(Disk()), trust, gate, bundle);
              Disk() == ApplyAll(old(Disk()), Cut(plan.effects, old(writesLeft))) &&
              outcome == OutcomeOf(plan, old(writesLeft))
    {
      hide ApplyAll, Apply, HealthError, PublishEffects, CopyEffects, RecordEffects;
      ghost var start := Disk();
      ghost var plan := FreshPlan(start, trust, gate, bundle);
      var previous := active;
      var target, d, components := PointerOf(bundle), bundle.releaseDigest, bundle.manifest.components;
      ghost var copy := CopyEffects(start, d, components);
      assert copy <= plan.effects by { FreshStartsWithCopy(start, trust, gate, bundle); }
      ghost var tail := plan.effects[|copy|..];
      assert plan.effects == copy + tail;
      var alive;
      ghost var done, rest;
      alive, done, rest := CopyClosure(d, components, start, tail);
      if !alive {
        return Crashed;
      }
      assert done == copy by { SameHead(done, copy, tail); }
      if !PayloadMatches(Disk(), d, components) {
        assert done + [] == done;
        return Ended(Err("VES_ACTIVATION_INTEGRITY"));
      }
      var health;
      match HealthOf(gate, target) {
        case Err(code) =>
          return Ended(Err(code));
        case Ok(evidence) => health := evidence;
      }
      if RecordBlocked(Payload(Disk(), d)) {
        assert done + [] == done;
        return Ended(Err("VES_ACTIVATION_FAILED"));
      }
      var prepared := Journal(InstallRoot.Activate, PREPARED, target, previous, health);
      ghost var before := copy + PublishEffects(d, bundle, prepared);
      FreshContinues(start, trust, gate, bundle, health);
      tail := plan.effects[|before|..];
      assert plan.effects == before + tail;
      alive, done, rest := PublishPayload(bundle, prepared, start, copy, tail);
      if !alive {
        return Crashed;
      }
      assert done == before by { SameHead(done, before, tail); }
      outcome := Finish(trust, target, previous, health, false, start, before);
    }

    /** The target is active already: record it and drop the journal. */
    method KeepActive(trust: Option<TrustRoot>, target: Pointer, ghost start: Root)
      returns (outcome: Outcome)
      requires Disk() == start && InstalledBundle(start, target.releaseDigest).Ok?
      modifies this
      ensures var plan := AlreadyActivePlan(start, trust, target);
              Disk() == ApplyAll(start, Cut(plan.effects, old(writesLeft))) &&
              outcome == OutcomeOf(plan, old(writesLeft))
    {
      hide Apply, ApplyAll, InstalledBundle, RecordEffects;
      NoEffects(start);
      var previous := active;
      var alive, failed;
      ghost var done, rest;
      alive, failed, done, rest := RecordVerified(trust, target, start, [], [RemoveJournal]);
      if failed.Some? {
        return Ended(Err(failed.value));
      }
      ghost var effects := AlreadyActivePlan(start, trust, target).effects;
      assert done + rest == effects by {
        assert [] + RecordEffects(start, trust, target).value == RecordEffects(start, trust, target).value;
      }
      if !alive {
        return Crashed;
      }
      alive, done, rest := Write(RemoveJournal, start, done, rest);
      if !alive {
        return Crashed;
      }
      assert done + [] == done;
      return Ended(Ok(Receipt(InstallRoot.Activate, previous, target, true)));
    }

    /** `activate` after its checks: already active, installed already, or fresh. */
    method Activate(staging: Staging, staged: Staged, trust: Option<TrustRoot>, gate: GateAnswer)
      returns (outcome: Outcome)
      modifies this
      ensures var plan := ActivatePlan(old(Disk()), host, staging, staged, trust, gate);
              Disk() == ApplyAll(old(Disk()), Cut(plan.effects, old(writesLeft))) &&
              outcome == OutcomeOf(plan, old(writesLeft))
    {
      hide Apply, HealthOf, OpenStage, FreshPlan, CommitPlan, InstalledBundle, RecordEffects;
      ghost var start := Disk();
      if !TrustValid(trust) {
        return Ended(Err("VES_ACTIVATION_PROVENANCE_INVALID"));
      }
      var bundle;
      match OpenStage(host, staging, staged) {
        case Err(code) =>
          return Ended(Err(code));
        case Ok(opened') => bundle := opened';
      }
      var target, previous := PointerOf(bundle), active;
      if journal.Some? && journal.value.target != target {
        return Ended(Err("VES_ACTIVATION_RECOVERY_REQUIRED"));
      }
      if previous != Some(target) && target.releaseDigest !in releases {
        outcome := ActivateFresh(bundle, trust, gate);
        return;
      }
      var installed;
      match InstalledBundle(Disk(), target.releaseDigest) {
        case Err(code) =>
          return Ended(Err(code));
        case Ok(b) => installed := b;
      }
      if previous == Some(target) {
        outcome := KeepActive(trust, target, start);
        return;
      }
      match HealthOf(gate, PointerOf(installed)) {
        case Err(code) =>
          return Ended(Err(code));
        case Ok(health) =>
          outcome := Finish(trust, target, previous, health, true, start, []);
      }
    }

    /** `rollback`: re-verify the installed release, then move the pointer under a journal. */
    method RollbackRelease(d: ReleaseDigest, binding: Option<TrustRoot>, gate: GateAnswer)
      returns (outcome: Outcome)
      modifies this
      ensures var plan := RollbackPlan(old(Disk()), host, d, binding, gate);
              Disk() == ApplyAll(old(Disk()), Cut(plan.effects, old(writesLeft))) &&
              outcome == OutcomeOf(plan, old(writesLeft))
    {
      hide Apply, HealthOf, InstalledBundle, BindingError;
      ghost var start := Disk();
      if !TrustValid(binding) {
        return Ended(Err("VES_ACTIVATION_PROVENANCE_INVALID"));
      }
      var bundle;
      match InstalledBundle(Disk(), d) {
        case Err(code) =>
          return Ended(Err(code));
        case Ok(b) => bundle := b;
      }
      var target, previous := PointerOf(bundle), active;
      match BindingError(Disk(), host, binding, bundle) {
        case Some(code) =>
          return Ended(Err(code));
        case None =>
      }
      if journal.Some? && journal.value.target != target {
        return Ended(Err("VES_ACTIVATION_RECOVERY_REQUIRED"));
      }
      var health;
      match HealthOf(gate, target) {
        case Err(code) =>
          return Ended(Err(code));
        case Ok(evidence) => health := evidence;
      }
      var alive := SwitchUnderJournal(Journal(Rollback, PREPARED, target, previous, health));
      return if alive then Ended(Ok(Receipt(Rollback, previous, target, true))) else Crashed;
    }

    /** PREPARED, pointer, COMMITTED, and the journal removed. */
    method SwitchUnderJournal(prepared: Journal)
      returns (alive: bool)
      modifies this
      ensures Disk() == ApplyAll(old(Disk()), Cut(RollbackEffects(prepared), old(writesLeft)))
      ensures alive == (old(writesLeft) >= |RollbackEffects(prepared)|)
    {
      hide ApplyAll, Apply;
      ghost var start := Disk();
      NoEffects(start);
      ghost var es := RollbackEffects(prepared);
      ghost var done, rest := [], es;
      assert done + rest == es;
      alive, done, rest := Write(WriteJournal(prepared), start, done, rest);
      if !alive {
        CutAt(done, rest);
        return;
      }
      alive, done, rest := Write(SwitchPointer(prepared.target), start, done, rest);
      if !alive {
        CutAt(done, rest);
        return;
      }
      alive, done, rest := Write(WriteJournal(prepared.(state := COMMITTED)), start, done, rest);
      if !alive {
        CutAt(done, rest);
        return;
      }
      alive, done, rest := Write(RemoveJournal, start, done, rest);
      CutAt(done, rest);
      if alive {
        assert rest == [];
      }
    }

    /** Pointer first, then the journal and the transactions. */
    method RemovePointer(ghost start: Root, ghost tail: seq<Effect>)
      returns (alive: bool, ghost done: seq<Effect>, ghost rest: seq<Effect>)
      requires Disk() == start
      modifies this
      ensures done + rest == [RemoveActive, RemoveJournal, RemoveTransactions] + tail
      ensures Disk() == ApplyAll(start, done) && |done| + writesLeft == old(writesLeft)
      ensures alive ==> rest == tail
      ensures !alive ==> rest != [] && writesLeft == 0
    {
      hide ApplyAll, Apply;
      NoEffects(start);
      done, rest := [], [RemoveActive, RemoveJournal, RemoveTransactions] + tail;
      alive, done, rest := Write(RemoveActive, start, done, rest);
      if !alive {
        return;
      }
      assert rest == [RemoveJournal, RemoveTransactions] + tail;
      alive, done, rest := Write(RemoveJournal, start, done, rest);
      if !alive {
        return;
      }
      assert rest == [RemoveTransactions] + tail;
      alive, done, rest := Write(RemoveTransactions, start, done, rest);
    }

    /** `uninstall`: the pointer first; the trees of a purge last, in any order of their entries. */
    method UninstallRelease(purge: Option<seq<Unlink>>)
      returns (crashed: bool)
      modifies this
      ensures Disk() == ApplyAll(old(Disk()), Cut(UninstallEffects(purge), old(writesLeft)))
      ensures crashed == (old(writesLeft) < |UninstallEffects(purge)|)
    {
      hide ApplyAll, Apply;
      ghost var start := Disk();
      ghost var tail := if purge.None? then [] else PurgeEffects(purge.value);
      var alive;
      ghost var done, rest;
      alive, done, rest := RemovePointer(start, tail);
      assert done + [] == done;
      if !alive {
        return true;
      }
      if purge.None? {
        return false;
      }
      var i := 0;
      while i < |purge.value|
        invariant 0 <= i <= |purge.value| && alive
        invariant done + rest == UninstallEffects(purge) && rest == tail[i..]
        invariant Disk() == ApplyAll(start, done) && |done| + writesLeft == old(writesLeft)
      {
        alive, done, rest := Write(Purge(purge.value[i]), start, done, rest);
        if !alive {
          return true;
        }
        i := i + 1;
      }
      alive, done, rest := Write(PurgeAll, start, done, rest);
      assert done + [] == done;
      return !alive;
    }
  }

  /** Dying with `rest` still to do leaves the cut plan; nothing left to do leaves the whole. */
  lemma CutAt(done: seq<Effect>, rest: seq<Effect>)
    ensures rest != [] ==> Cut(done + rest, |done|) == done
    ensures rest == [] ==> done + rest == done && forall k :: k >= |done| ==> Cut(done, k) == done
  {
    assert (done + rest)[..|done|] == done;
  }

  lemma SameHead(a: seq<Effect>, b: seq<Effect>, tail: seq<Effect>)
    requires a + tail == b + tail
    ensures a == b
  {
    assert |a| == |b|;
    assert a == (a + tail)[..|a|] == (b + tail)[..|a|] == b;
  }

  lemma FreshStartsWithCopy(r: Root, trust: Option<TrustRoot>, gate: GateAnswer, bundle: Bundle)
    ensures CopyEffects(r, bundle.releaseDigest, bundle.manifest.components) <= FreshPlan(r, trust, gate, bundle).effects
  {
    hide CopyEffects, PublishEffects, HealthOf, PayloadMatches, RecordEffects, ApplyAll;
  }

  lemma FreshContinues(r: Root, trust: Option<TrustRoot>, gate: GateAnswer, bundle: Bundle, health: Health)
    requires var d := bundle.releaseDigest;
             PayloadMatches(ApplyAll(r, CopyEffects(r, d, bundle.manifest.components)), d, bundle.manifest.components)
    requires HealthOf(gate, PointerOf(bundle)) == Ok(health)
    requires !RecordBlocked(Payload(ApplyAll(r, CopyEffects(r, bundle.releaseDigest, bundle.manifest.components)),
                                    bundle.releaseDigest))
    ensures var before := CopyEffects(r, bundle.releaseDigest, bundle.manifest.components) +
              PublishEffects(bundle.releaseDigest, bundle, Journal(InstallRoot.Activate, PREPARED, PointerOf(bundle), r.active, health));
            var plan := CommitPlan(r, before, trust, PointerOf(bundle), health, false);
            FreshPlan(r, trust, gate, bundle) == plan && before <= plan.effects
  {
    hide CopyEffects, PublishEffects, HealthOf, PayloadMatches, RecordEffects, ApplyAll;
  }

  lemma NoDuplicatesInEmpty()
    ensures DistinctDigests([])
  {
  }

  lemma NoEffects(r: Root)
    ensures ApplyAll(r, []) == r
  {
  }

  lemma ApplySnoc(r: Root, done: seq<Effect>, e: Effect)
    ensures ApplyAll(r, done + [e]) == Apply(ApplyAll(r, done), e)
  {
    hide Apply;
    ApplyAllConcat(r, done, [e]);
    ApplyCons(ApplyAll(r, done), e, []);
    NoEffects(Apply(ApplyAll(r, done), e));
    assert [e] == [e] + [];
  }
}
