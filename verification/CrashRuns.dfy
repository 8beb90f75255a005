/** Runs of the manager: any sequence of operations, each crashed after any
    number of its writes, or finished. */
module CrashRuns {
  import opened Results
  import opened HermeticBundle
  import opened InstallRoot
  import opened ActivationPlan
  import opened CrashConsistency

  datatype Command =
    | ActivateRelease(host: Host, staging: Staging, staged: Staged, trust: Option<TrustRoot>, gate: GateAnswer)
    | RollbackTo(host: Host, digest: ReleaseDigest, binding: Option<TrustRoot>, gate: GateAnswer)
    | Uninstall(purge: Option<seq<Unlink>>)

  /** An attempt that dies after `survives` writes, or finishes if it needs no more. */
  datatype Attempt = Attempt(command: Command, survives: nat)

  function Effects(r: Root, c: Command): seq<Effect> {
    match c
    case ActivateRelease(host, staging, staged, trust, gate) =>
      ActivatePlan(r, host, staging, staged, trust, gate).effects
    case RollbackTo(host, d, binding, gate) => RollbackPlan(r, host, d, binding, gate).effects
    case Uninstall(purge) => UninstallEffects(purge)
  }

  function Cut(effects: seq<Effect>, survives: nat): seq<Effect> {
    if survives < |effects| then effects[..survives] else effects
  }

  function After(r: Root, a: Attempt): Root { ApplyAll(r, Cut(Effects(r, a.command), a.survives)) }

  function Run(r: Root, attempts: seq<Attempt>): Root
    decreases |attempts|
  {
    if attempts == [] then r else Run(After(r, attempts[0]), attempts[1..])
  }

  /** The pointer an operation aims at; an uninstall aims at none. */
  function TargetOf(c: Command): Option<Pointer> {
    match c
    case ActivateRelease(host, staging, staged, _, _) =>
      var opened' := OpenStage(host, staging, staged);
      if opened'.Ok? then Some(PointerOf(opened'.value)) else None
    case RollbackTo(_, d, _, _) => Some(PointerFor(d))
    case Uninstall(_) => None
  }

  predicate Purging(c: Command) { c.Uninstall? && c.purge.Some? }

  // ---- Safety of every command ----

  lemma FreshSafe(r: Root, trust: Option<TrustRoot>, gate: GateAnswer, staged: Bundle, bundle: Bundle)
    requires Inv(r) && Verify(staged) == Ok(bundle)
    requires bundle.releaseDigest !in r.releases && !ForeignJournal(r, PointerOf(bundle))
    ensures var es := FreshPlan(r, trust, gate, bundle).effects; SafeAll(r, es) && NoPurge(es)
  {
    hide Verify, FilesMatch, HealthError, CompleteDirectory, Apply, ApplyAll, SafeAll, Safe, CopyEffects, PublishEffects,
      CommitEffects, RecordBlocked;
    var target, d, cs := PointerOf(bundle), bundle.releaseDigest, bundle.manifest.components;
    var copy := CopyEffects(r, d, cs);
    CopyIsTransactionOnly(r, d, cs);
    TransactionWrites(r, copy);
    var r1 := ApplyAll(r, copy);
    InvFrame(r, r1);
    if PayloadMatches(r1, d, cs) && HealthOf(gate, target).Ok? && !RecordBlocked(Payload(r1, d)) {
      var health := HealthOf(gate, target).value;
      var prepared := Journal(Activate, PREPARED, target, r.active, health);
      PublishSafe(r1, staged, bundle, prepared);
      var publish := PublishEffects(d, bundle, prepared);
      SafeConcat(r, copy, publish);
      ApplyAllConcat(r, copy, publish);
      var r2 := Published(r1, bundle, prepared);
      SafeFinish(r1, publish);
      if RecordEffects(r, trust, target).Ok? {
        var committed := Journal(Activate, COMMITTED, target, r.active, health);
        assert RecordEffects(r2, trust, target) == RecordEffects(r, trust, target);
        RecordThenCommitSafe(r2, trust, committed);
        var rest := RecordEffects(r, trust, target).value + CommitEffects(committed);
        SafeConcat(r, copy + publish, rest);
        assert copy + publish + RecordEffects(r, trust, target).value + CommitEffects(committed)
            == (copy + publish) + rest;
      }
    }
  }

  lemma SafeFinish(r: Root, effects: seq<Effect>)
    requires Inv(r) && SafeAll(r, effects)
    ensures Inv(ApplyAll(r, effects))
    ensures NoPurge(effects) ==> ReleasesGrow(r, ApplyAll(r, effects))
  {
    SafePrefix(r, effects, |effects|);
    assert effects[..|effects|] == effects;
  }

  lemma ReuseSafe(r: Root, trust: Option<TrustRoot>, gate: GateAnswer, target: Pointer)
    requires Inv(r) && target == PointerFor(target.releaseDigest) && !ForeignJournal(r, target)
    ensures var es := ReusePlan(r, trust, gate, target).effects; SafeAll(r, es) && NoPurge(es)
  {
    hide InstalledBundle, Verify, HealthError, CompleteDirectory, Apply, ApplyAll, Safe, CommitEffects, Inv;
    var installed := InstalledBundle(r, target.releaseDigest);
    if installed.Ok? {
      InstalledIsIntact(r, target.releaseDigest);
      if HealthOf(gate, target).Ok? && RecordEffects(r, trust, target).Ok? {
        var health := HealthOf(gate, target).value;
        var committed := Journal(Activate, COMMITTED, target, r.active, health);
        RecordThenCommitSafe(r, trust, committed);
        assert [] + RecordEffects(r, trust, target).value + CommitEffects(committed)
            == RecordEffects(r, trust, target).value + CommitEffects(committed);
      }
    }
  }

  lemma AlreadyActiveSafe(r: Root, trust: Option<TrustRoot>, target: Pointer)
    requires Inv(r)
    ensures var es := AlreadyActivePlan(r, trust, target).effects; SafeAll(r, es) && NoPurge(es)
  {
    hide InstalledBundle, Apply, Inv;
    if RecordEffects(r, trust, target).Ok? {
      var record := RecordEffects(r, trust, target).value;
      RecordSafe(r, trust, target);
      assert [RemoveJournal][1..] == [];
      assert SafeAll(ApplyAll(r, record), [RemoveJournal]);
      SafeConcat(r, record, [RemoveJournal]);
    }
  }

  lemma RollbackSafe(r: Root, host: Host, d: ReleaseDigest, binding: Option<TrustRoot>, gate: GateAnswer)
    requires Inv(r)
    ensures var es := RollbackPlan(r, host, d, binding, gate).effects; SafeAll(r, es) && NoPurge(es)
  {
    hide FilesMatch, HealthError, CompleteDirectory, BindingError, InstalledBundle;
    var installed := InstalledBundle(r, d);
    if installed.Ok? {
      InstalledIsIntact(r, d);
      var es := RollbackPlan(r, host, d, binding, gate).effects;
      if es != [] {
        RollbackSteps(r, es[0].journal);
      }
    }
  }

  lemma RollbackSteps(r: Root, prepared: Journal)
    requires Inv(r) && Complete(r, prepared.target) && !ForeignJournal(r, prepared.target)
    requires prepared.state == PREPARED && HealthError(prepared.health, prepared.target) == None
    ensures SafeAll(r, RollbackEffects(prepared)) && NoPurge(RollbackEffects(prepared))
    ensures ApplyAll(r, RollbackEffects(prepared)) == r.(active := Some(prepared.target), journal := None)
  {
    hide HealthError, CompleteDirectory;
    var es := RollbackEffects(prepared);
    SafeFour(r, es[0], es[1], es[2], es[3]);
    ApplyFour(r, es[0], es[1], es[2], es[3]);
  }

  lemma {:induction false} PurgeOrderSafe(r: Root, order: seq<Unlink>)
    requires r.active == None && r.journal == None
    ensures SafeAll(r, PurgeEffects(order))
    decreases |order|
  {
    if order == [] {
      assert PurgeEffects(order) == [PurgeAll];
      assert [PurgeAll][1..] == [];
    } else {
      PurgeOrderSafe(Apply(r, Purge(order[0])), order[1..]);
      SafeCons(r, Purge(order[0]), PurgeEffects(order[1..]));
      assert PurgeEffects(order) == [Purge(order[0])] + PurgeEffects(order[1..]);
    }
  }

  lemma UninstallSafe(r: Root, purge: Option<seq<Unlink>>)
    ensures SafeAll(r, UninstallEffects(purge)) && (purge.None? ==> NoPurge(UninstallEffects(purge)))
  {
    var rest := if purge.None? then [] else PurgeEffects(purge.value);
    var r3 := Apply(Apply(Apply(r, RemoveActive), RemoveJournal), RemoveTransactions);
    if purge.Some? {
      PurgeOrderSafe(r3, purge.value);
    }
    SafeCons(Apply(Apply(r, RemoveActive), RemoveJournal), RemoveTransactions, rest);
    SafeCons(Apply(r, RemoveActive), RemoveJournal, [RemoveTransactions] + rest);
    SafeCons(r, RemoveActive, [RemoveJournal] + ([RemoveTransactions] + rest));
    assert UninstallEffects(purge) == [RemoveActive] + ([RemoveJournal] + ([RemoveTransactions] + rest));
  }

  lemma CommandSafe(r: Root, c: Command)
    requires Inv(r)
    ensures SafeAll(r, Effects(r, c))
    ensures !Purging(c) ==> NoPurge(Effects(r, c))
  {
    match c {
      case ActivateRelease(host, staging, staged, trust, gate) =>
        var opened' := OpenStage(host, staging, staged);
        if opened'.Ok? {
          OpenedBundle(host, staging, staged);
          hide OpenStage, Verify, Inv, FreshPlan, ReusePlan, AlreadyActivePlan, Apply;
          var target := PointerOf(opened'.value);
          if r.active == Some(target) {
            AlreadyActiveSafe(r, trust, target);
          } else if !ForeignJournal(r, target) {
            if target.releaseDigest in r.releases {
              ReuseSafe(r, trust, gate, target);
            } else {
              FreshSafe(r, trust, gate, staged.bundle, opened'.value);
            }
          }
        }
      case RollbackTo(host, d, binding, gate) => RollbackSafe(r, host, d, binding, gate);
      case Uninstall(purge) => UninstallSafe(r, purge);
    }
  }

  // ---- Main results ----

  /** One attempt, crashed anywhere, keeps the invariant. */
  lemma AttemptKeepsInv(r: Root, a: Attempt)
    requires Inv(r)
    ensures Inv(After(r, a))
    ensures !Purging(a.command) ==> ReleasesGrow(r, After(r, a))
  {
    hide Inv, PresentComplete, Effects, SafeAll, ApplyAll;
    CommandSafe(r, a.command);
    var es := Effects(r, a.command);
    if a.survives < |es| {
      SafePrefix(r, es, a.survives);
    } else {
      SafeFinish(r, es);
    }
  }

  /** Crash consistency over all runs: the active pointer is absent or names a release that is
      installed under its record with accepted health evidence and the bytes of every component
      except one in the record's own place, and a COMMITTED journal agrees with the pointer. Without
      a purge no release is lost, and every release that was complete, or appears, is complete. */
  lemma {:induction false} RunKeepsInv(r: Root, attempts: seq<Attempt>)
    requires Inv(r)
    ensures Inv(Run(r, attempts))
    ensures (forall a :: a in attempts ==> !Purging(a.command)) ==> ReleasesGrow(r, Run(r, attempts))
    decreases |attempts|
  {
    hide Inv, PresentComplete, After;
    if attempts != [] {
      AttemptKeepsInv(r, attempts[0]);
      RunKeepsInv(After(r, attempts[0]), attempts[1..]);
    }
  }

  /** So over all runs what is active is intact, every component byte in place, exactly when no component
      of it claims the record's path. */
  lemma CrashConsistent(r: Root, attempts: seq<Attempt>)
    requires Inv(r)
    ensures Inv(Run(r, attempts))
    ensures (forall a :: a in attempts ==> !Purging(a.command)) ==> ReleasesGrow(r, Run(r, attempts))
    ensures Run(r, attempts).active.Some? ==>
              (Intact(Run(r, attempts), Run(r, attempts).active.value) <==> SparesRecord(Run(r, attempts).active.value))
  {
    hide Inv, PresentComplete, Run, Intact, SparesRecord;
    RunKeepsInv(r, attempts);
    if Run(r, attempts).active.Some? {
      InvPointer(Run(r, attempts));
      IntactIff(Run(r, attempts), Run(r, attempts).active.value);
    }
  }

  lemma EmptyRootSound()
    ensures Inv(EMPTY_ROOT) && AllComplete(EMPTY_ROOT)
  {
  }

  /** While a journal stands, an operation on another target writes nothing at all. */
  lemma ForeignJournalBlocks(r: Root, a: Attempt)
    requires Inv(r) && !a.command.Uninstall?
    requires r.journal.Some? && TargetOf(a.command) != Some(r.journal.value.target)
    ensures After(r, a) == r
  {
    hide Inv, Verify;
    match a.command {
      case ActivateRelease(_, _, _, _, _) =>
      case RollbackTo(host, d, binding, gate) =>
        if InstalledBundle(r, d).Ok? {
          InstalledIsIntact(r, d);
        }
    }
  }

  // ---- What an operation aims at ----

  function RecordOf(r: Root, t: TrustRoot): seq<Pointer> {
    if t in r.verified then r.verified[t] else []
  }

  /** Every write of an activation or rollback serves its one target: the pointer and the journal
      name it, and the record gains it over what the record held at the start. */
  predicate Aimed(r: Root, e: Effect, target: Pointer) {
    match e
    case SwitchPointer(p) => p == target
    case WriteJournal(j) => j.target == target
    case RecordReleases(t, entries) => entries == Recorded(RecordOf(r, t), target)
    case RemoveActive => false
    case Purge(_) => false
    case PurgeAll => false
    case _ => true
  }

  /** The writes of a plan, all aimed; a plan that answers an error never moves the pointer. */
  ghost predicate PlanAimed(r: Root, plan: Plan, target: Pointer) {
    && (forall e :: e in plan.effects ==> Aimed(r, e, target))
    && (plan.result.Err? ==> forall e :: e in plan.effects ==> !e.SwitchPointer?)
  }

  lemma RecordAimed(r: Root, trust: Option<TrustRoot>, target: Pointer)
    requires RecordEffects(r, trust, target).Ok?
    ensures forall e :: e in RecordEffects(r, trust, target).value ==> Aimed(r, e, target) && !e.SwitchPointer?
  {
    hide Recorded, DistinctDigests;
  }

  lemma CommitAimed(r: Root, before: seq<Effect>, trust: Option<TrustRoot>, target: Pointer, health: Health, reused: bool)
    requires forall e :: e in before ==> Aimed(r, e, target) && !e.SwitchPointer?
    ensures PlanAimed(r, CommitPlan(r, before, trust, target, health, reused), target)
  {
    if RecordEffects(r, trust, target).Ok? {
      RecordAimed(r, trust, target);
    }
    hide RecordEffects;
  }

  lemma FreshAimed(r: Root, trust: Option<TrustRoot>, gate: GateAnswer, bundle: Bundle)
    ensures PlanAimed(r, FreshPlan(r, trust, gate, bundle), PointerOf(bundle))
  {
    hide PayloadMatches, ApplyAll, HealthOf, CommitPlan;
    var d, cs := bundle.releaseDigest, bundle.manifest.components;
    CopyIsTransactionOnly(r, d, cs);
    hide CopyEffects;
    if HealthOf(gate, PointerOf(bundle)).Ok? {
      var health := HealthOf(gate, PointerOf(bundle)).value;
      var prepared := Journal(Activate, PREPARED, PointerOf(bundle), r.active, health);
      var before := CopyEffects(r, d, cs) + PublishEffects(d, bundle, prepared);
      CommitAimed(r, before, trust, PointerOf(bundle), health, false);
    }
  }

  lemma ReuseAimed(r: Root, trust: Option<TrustRoot>, gate: GateAnswer, target: Pointer)
    ensures PlanAimed(r, ReusePlan(r, trust, gate, target), target)
    ensures PlanAimed(r, AlreadyActivePlan(r, trust, target), target)
  {
    hide InstalledBundle, HealthOf, CommitPlan;
    if InstalledBundle(r, target.releaseDigest).Ok? {
      if RecordEffects(r, trust, target).Ok? {
        RecordAimed(r, trust, target);
      }
      var p := PointerOf(InstalledBundle(r, target.releaseDigest).value);
      if HealthOf(gate, p).Ok? {
        CommitAimed(r, [], trust, target, HealthOf(gate, p).value, true);
      }
    }
    hide RecordEffects;
  }

  lemma RollbackAimed(r: Root, host: Host, d: ReleaseDigest, binding: Option<TrustRoot>, gate: GateAnswer)
    requires Inv(r)
    ensures PlanAimed(r, RollbackPlan(r, host, d, binding, gate), PointerFor(d))
  {
    hide Inv, InstalledBundle, HealthOf, BindingError;
    if InstalledBundle(r, d).Ok? {
      InstalledIsIntact(r, d);
    }
  }

  lemma CommandAimed(r: Root, c: Command)
    requires Inv(r) && !c.Uninstall?
    ensures TargetOf(c).None? ==> Effects(r, c) == []
    ensures TargetOf(c).Some? ==> PlanAimed(r, Plan(Effects(r, c), Answer(r, c)), TargetOf(c).value)
  {
    hide Inv, OpenStage, RollbackPlan, AlreadyActivePlan, ReusePlan, FreshPlan, Aimed;
    match c {
      case ActivateRelease(host, staging, staged, trust, gate) =>
        if OpenStage(host, staging, staged).Ok? {
          var bundle := OpenStage(host, staging, staged).value;
          FreshAimed(r, trust, gate, bundle);
          ReuseAimed(r, trust, gate, PointerOf(bundle));
        }
      case RollbackTo(host, d, binding, gate) => RollbackAimed(r, host, d, binding, gate);
    }
  }

  function Answer(r: Root, c: Command): Result<Receipt>
    requires !c.Uninstall?
  {
    match c
    case ActivateRelease(host, staging, staged, trust, gate) =>
      ActivatePlan(r, host, staging, staged, trust, gate).result
    case RollbackTo(host, d, binding, gate) => RollbackPlan(r, host, d, binding, gate).result
  }

  // ---- Where the pointer can go ----

  /** The pointer changes only by one of the writes made. */
  lemma {:induction false} MovedPointer(r: Root, effects: seq<Effect>)
    ensures var active := ApplyAll(r, effects).active;
            || active == r.active
            || (active == None && RemoveActive in effects)
            || (active.Some? && SwitchPointer(active.value) in effects)
    decreases |effects|
  {
    if effects != [] {
      MovedPointer(Apply(r, effects[0]), effects[1..]);
      assert effects == [effects[0]] + effects[1..];
    }
  }

  lemma InvPointer(r: Root)
    requires Inv(r) && r.active.Some?
    ensures Complete(r, r.active.value)
  {
  }

  lemma UninstallTarget(r: Root, c: Command)
    requires c.Uninstall?
    ensures TargetOf(c) == None && forall p :: SwitchPointer(p) !in Effects(r, c)
  {
  }

  /** Wherever it is cut, an operation leaves the pointer where it was or on its own target;
      one that answers an error leaves it where it was, on a release that is still complete, and intact
      unless a component of it claims the record's path. */
  lemma PointerAfter(r: Root, a: Attempt)
    requires Inv(r)
    ensures After(r, a).active == r.active || After(r, a).active == TargetOf(a.command)
    ensures !a.command.Uninstall? && Answer(r, a.command).Err? ==>
              && After(r, a).active == r.active
              && (r.active.Some? ==>
                   && Complete(After(r, a), r.active.value)
                   && (Intact(After(r, a), r.active.value) <==> SparesRecord(r.active.value)))
  {
    hide Inv, TargetOf, ApplyAll, Intact, Complete, SparesRecord, Answer, Effects;
    AttemptKeepsInv(r, a);
    var es := Effects(r, a.command);
    MovedPointer(r, Cut(es, a.survives));
    assert forall e :: e in Cut(es, a.survives) ==> e in es;
    if a.command.Uninstall? {
      UninstallTarget(r, a.command);
    } else {
      CommandAimed(r, a.command);
    }
    if After(r, a).active.Some? {
      InvPointer(After(r, a));
      IntactIff(After(r, a), After(r, a).active.value);
    }
  }

  // ---- Readers without the lock ----

  /** `resolveActiveLauncher` reads the pointer, then the release it names. Those reads may fall
      anywhere in another process's work: the first after `i` writes of an operation, the second
      after `j` of them and any further attempts. Without a purge the second read still finds
      that release complete, and accepts it under that pointer unless a component claims the record's
      path. */
  lemma ReaderNeverTears(r: Root, c: Command, i: nat, j: nat, later: seq<Attempt>)
    requires Inv(r) && i <= j && !Purging(c)
    requires forall a :: a in later ==> !Purging(a.command)
    requires After(r, Attempt(c, i)).active.Some?
    ensures var p := After(r, Attempt(c, i)).active.value;
            var r2 := Run(After(r, Attempt(c, j)), later);
            && Complete(r2, p)
            && (InstalledBundle(r2, p.releaseDigest).Ok? <==> SparesRecord(p))
            && (SparesRecord(p) ==> PointerOf(InstalledBundle(r2, p.releaseDigest).value) == p)
  {
    hide Inv, Effects, PointerFor, CompleteDirectory, SparesRecord, InstalledBundle;
    var r1 := After(r, Attempt(c, i));
    AttemptKeepsInv(r, Attempt(c, i));
    InvPointer(r1);
    var p := r1.active.value;
    CutsGrow(r, c, i, j);
    AttemptKeepsInv(r, Attempt(c, j));
    RunKeepsInv(After(r, Attempt(c, j)), later);
    var r2 := Run(After(r, Attempt(c, j)), later);
    assert PresentComplete(r1, p.releaseDigest) && PresentComplete(r2, p.releaseDigest);
    IntactIff(r2, p);
  }

  lemma CutsGrow(r: Root, c: Command, i: nat, j: nat)
    requires Inv(r) && i <= j && !Purging(c)
    ensures ReleasesGrow(After(r, Attempt(c, i)), After(r, Attempt(c, j)))
  {
    hide Inv, Effects, PresentComplete;
    CommandSafe(r, c);
    var es := Effects(r, c);
    var a, b := Cut(es, i), Cut(es, j);
    var rest := b[|a|..];
    assert b == a + rest;
    ApplyAllConcat(r, a, rest);
    SafeSplit(r, es, |a|);
    AttemptKeepsInv(r, Attempt(c, i));
    assert rest == es[|a|..][..|rest|];
    assert NoPurge(es[|a|..]);
    SafePrefix(ApplyAll(r, a), es[|a|..], |rest|);
  }

  lemma {:induction false} SafeSplit(r: Root, effects: seq<Effect>, k: nat)
    requires SafeAll(r, effects) && k <= |effects|
    ensures SafeAll(ApplyAll(r, effects[..k]), effects[k..])
    decreases k
  {
    hide Apply, Safe;
    if k == 0 {
      assert effects[0..] == effects;
    } else {
      SafeSplit(Apply(r, effects[0]), effects[1..], k - 1);
      assert effects[..k][1..] == effects[1..][..k - 1];
      assert effects[1..][k - 1..] == effects[k..];
    }
  }
}
