/** What an uninstall leaves, finished or cut. */
module Uninstalling {
  import opened Results
  import opened HermeticBundle
  import opened InstallRoot
  import opened ActivationPlan
  import opened CrashRuns
  import opened Recovery

  lemma RemovesThree(r: Root)
    ensures ApplyAll(r, [RemoveActive, RemoveJournal, RemoveTransactions])
            == r.(active := None, journal := None, transactions := map[])
  {
    ApplyCons(r, RemoveActive, [RemoveJournal, RemoveTransactions]);
    ApplyCons(Apply(r, RemoveActive), RemoveJournal, [RemoveTransactions]);
    ApplyCons(Apply(Apply(r, RemoveActive), RemoveJournal), RemoveTransactions, []);
    assert [RemoveActive, RemoveJournal, RemoveTransactions] == [RemoveActive] + [RemoveJournal, RemoveTransactions];
    assert [RemoveJournal, RemoveTransactions] == [RemoveJournal] + [RemoveTransactions];
    assert [RemoveTransactions] == [RemoveTransactions] + [];
  }

  /** A finished uninstall leaves no pointer, no journal and no transaction; without a purge it keeps every
      release and record, and with one it keeps none. */
  lemma UninstallEnds(r: Root, purge: Option<seq<Unlink>>)
    ensures var r' := ApplyAll(r, UninstallEffects(purge));
            && r'.active == None && r'.journal == None && r'.transactions == map[]
            && (purge.None? ==> r'.releases == r.releases && r'.verified == r.verified)
            && (purge.Some? ==> r'.releases == map[] && r'.verified == map[])
  {
    var head := [RemoveActive, RemoveJournal, RemoveTransactions];
    RemovesThree(r);
    hide ApplyAll, Apply;
    if purge.Some? {
      ApplyAllConcat(r, head, PurgeEffects(purge.value));
      PurgeEnds(r.(active := None, journal := None, transactions := map[]), purge.value);
    } else {
      assert head + [] == head;
    }
  }

  predicate Removes(e: Effect) {
    e.RemoveActive? || e.RemoveJournal? || e.RemoveTransactions? || e.Purge? || e.PurgeAll?
  }

  lemma {:induction false} RemovalsOnlyRemove(r: Root, effects: seq<Effect>)
    requires forall e :: e in effects ==> Removes(e)
    ensures var r' := ApplyAll(r, effects);
            && (r.active == None ==> r'.active == None) && (r'.active == None || r'.active == r.active)
            && r'.releases.Keys <= r.releases.Keys && r'.verified.Keys <= r.verified.Keys
    decreases |effects|
  {
    hide Apply, Removes;
    if effects != [] {
      assert effects[0] in effects;
      OneRemovalOnlyRemoves(r, effects[0]);
      RemovalsOnlyRemove(Apply(r, effects[0]), effects[1..]);
    }
  }

  lemma OneRemovalOnlyRemoves(r: Root, e: Effect)
    requires Removes(e)
    ensures var r' := Apply(r, e);
            && (r.active == None ==> r'.active == None) && (r'.active == None || r'.active == r.active)
            && r'.releases.Keys <= r.releases.Keys && r'.verified.Keys <= r.verified.Keys
  {
  }

  /** The pointer goes first: from the first write on nothing is active, wherever the uninstall is cut, and
      no release or record ever appears. */
  lemma PointerGoesFirst(r: Root, purge: Option<seq<Unlink>>, survives: nat)
    ensures var r' := After(r, Attempt(Uninstall(purge), survives));
            && (survives == 0 ==> r' == r)
            && (survives > 0 ==> r'.active == None)
            && r'.releases.Keys <= r.releases.Keys && r'.verified.Keys <= r.verified.Keys
  {
    var es := UninstallEffects(purge);
    assert es[0] == RemoveActive;
    forall e | e in es
      ensures Removes(e)
    {
    }
    var cut := Cut(es, survives);
    assert forall e :: e in cut ==> e in es;
    RemovalsOnlyRemove(r, cut);
    if survives > 0 {
      assert cut[0] == RemoveActive && forall e :: e in cut[1..] ==> e in cut;
      RemovalsOnlyRemove(Apply(r, RemoveActive), cut[1..]);
    }
  }
}
