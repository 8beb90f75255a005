/** Which sources make a package, what the package says, and what a run of
    resolutions makes of it, stated on the sources and the requests themselves. */
module PackageAcceptance {
  import opened Results
  import opened CodeUnits
  import opened Text
  import opened SchemaSources
  import opened SchemaClaims
  import opened KnowledgePackage
  import opened KnowledgeResolution
  import opened SourceAcceptance
  import opened SourceStatements
  import Patterns

  // ---- Building ----

  predicate HexOrDash(c: char) { '0' <= c <= '9' || 'a' <= c <= 'f' || c == '-' }

  predicate Workspace(s: string) {
    |s| == 46 && s[..10] == "workspace_" && forall i :: 10 <= i < 46 ==> HexOrDash(s[i])
  }

  /** A source that a package of this database takes as it is digested. */
  ghost predicate Taken(raw: Source, databaseId: string) {
    && SourceFits(raw.material) && raw.material.databaseId == databaseId
    && SourceKept(raw.material, raw.sourceDigest.material)
    && Import(raw.material) == Ok(Source(raw.sourceDigest.material, raw.sourceDigest))
  }

  lemma WorkspaceIff(s: string)
    ensures IsWorkspaceId(s) <==> Workspace(s)
  {
    if |s| == 46 {
      Patterns.EveryFrom(s, 10, c => IsHex(c) || c == '-');
    }
  }

  lemma TakenIff(raw: Source, databaseId: string)
    ensures KnowledgeSource(raw, databaseId).Ok? <==> Taken(raw, databaseId)
    ensures Taken(raw, databaseId) ==>
              KnowledgeSource(raw, databaseId) == Ok(Source(raw.sourceDigest.material, raw.sourceDigest))
    ensures Taken(raw, databaseId) ==> raw.sourceDigest.material.sourceId == raw.material.sourceId
  {
    hide Import, SourceFits;
    SourceIsTakenIff(raw, databaseId);
    if KnowledgeSource(raw, databaseId).Ok? {
      RecheckReturnsTheDigested(raw, databaseId);
    }
  }

  /** A package is built exactly of 1 to 128 sources that are all taken, none of them another version of
      a source with the same identity, under a valid workspace, database and generation. */
  lemma BuildIff(
    workspaceId: string, databaseId: string, generation: int, raws: seq<Source>, digest: Value -> string)
    ensures Build(workspaceId, databaseId, generation, raws, digest).Ok? <==>
              && 1 <= |raws| <= 128 && Workspace(workspaceId) && StableId(databaseId)
              && 1 <= generation <= 9007199254740991
              && (forall r :: r in raws ==> Taken(r, databaseId))
              && forall r, q :: r in raws && q in raws && r.material.sourceId == q.material.sourceId ==>
                   r.sourceDigest == q.sourceDigest
  {
    hide Workspace, IsWorkspaceId, StableId, IsStableId, Taken, KnowledgeSource, MergedSources, KnowledgeFacts, AllClaims,
      Contradictions, Mergeable;
    WorkspaceIff(workspaceId);
    StableIdIff(databaseId);
    MergedSourcesHold(raws, databaseId);
    MergeableIff(raws, databaseId);
  }

  lemma MergeableIff(raws: seq<Source>, databaseId: string)
    ensures Mergeable(raws, databaseId) <==>
              && (forall r :: r in raws ==> Taken(r, databaseId))
              && forall r, q :: r in raws && q in raws && r.material.sourceId == q.material.sourceId ==>
                   r.sourceDigest == q.sourceDigest
  {
    hide Taken, KnowledgeSource;
    forall r
      ensures KnowledgeSource(r, databaseId).Ok? <==> Taken(r, databaseId)
      ensures Taken(r, databaseId) ==>
                && KnowledgeSource(r, databaseId) == Ok(Source(r.sourceDigest.material, r.sourceDigest))
                && r.sourceDigest.material.sourceId == r.material.sourceId
    {
      TakenIff(r, databaseId);
    }
    if Mergeable(raws, databaseId) {
      forall r, q | r in raws && q in raws && r.material.sourceId == q.material.sourceId
        ensures r.sourceDigest == q.sourceDigest
      {
        assert Yields(raws, databaseId, Source(r.sourceDigest.material, r.sourceDigest));
        assert Yields(raws, databaseId, Source(q.sourceDigest.material, q.sourceDigest));
      }
    }
  }

  // ---- What a package says ----

  /** The package lists, for this fact, this value as claimed by this source. */
  ghost predicate Lists(k: Contents, factKey: string, value: Value, sourceId: string) {
    exists f, a :: f in k.facts && a in f.alternatives && f.factKey == factKey && a.value == value && sourceId in a.sourceIds
  }

  /** The unresolved contradiction of a fact with more than one value. */
  predicate Opens(c: Contradiction, f: Fact) {
    |f.alternatives| != 1 && c.factKey == f.factKey && c.alternatives == f.alternatives && c.resolution.None?
  }

  /** The package of the given sources holds those sources, once each, by kind and identity; it lists a value
      for a fact under a source exactly when that source says it; and its contradictions are the facts with
      more than one value, none of them resolved yet. */
  lemma PackageSays(
    workspaceId: string, databaseId: string, generation: int, raws: seq<Source>, digest: Value -> string, k: FactKey,
    v: Value, id: string)
    requires Build(workspaceId, databaseId, generation, raws, digest).Ok? && Injective(digest) && Printable(k)
    ensures var p := Build(workspaceId, databaseId, generation, raws, digest).value.contents;
            && p.workspaceId == workspaceId && p.databaseId == databaseId && p.generation == generation
            && (forall s :: s in p.sources <==> exists r :: r in raws && s == Source(r.sourceDigest.material, r.sourceDigest))
            && StrictlySorted(p.sources, KindThenId)
            && (Lists(p, Print(k), v, id) <==>
                  exists s :: s in p.sources && s.material.sourceId == id && Says(s.material, p.sources, k, v))
            && (forall c :: c in p.contradictions ==> exists f :: f in p.facts && Opens(c, f))
            && (forall f :: f in p.facts && |f.alternatives| != 1 ==> exists c :: c in p.contradictions && Opens(c, f))
  {
    hide KnowledgeFacts, AllClaims, MergedSources, Says, Less, IsWorkspaceId, IsStableId, Contradictions, Lists, Import;
    var p := Build(workspaceId, databaseId, generation, raws, digest).value.contents;
    MergedAreNormal(raws, databaseId);
    SourcesAreTaken(raws, databaseId);
    ListedIff(p.sources, digest, p, Print(k), v, id);
    ClaimedIff(p.sources, k, v, id);
    BuiltContradictions(p.sources, digest, p.facts);
  }

  lemma SourcesAreTaken(raws: seq<Source>, databaseId: string)
    requires MergedSources(raws, databaseId).Ok?
    ensures var sources := MergedSources(raws, databaseId).value;
            && (forall s :: s in sources <==> exists r :: r in raws && s == Source(r.sourceDigest.material, r.sourceDigest))
            && StrictlySorted(sources, KindThenId)
  {
    hide KnowledgeSource, Taken, MergedSources, Less;
    MergedSourcesHold(raws, databaseId);
    forall r | r in raws
      ensures KnowledgeSource(r, databaseId) == Ok(Source(r.sourceDigest.material, r.sourceDigest))
    {
      TakenIff(r, databaseId);
    }
    forall s
      ensures Yields(raws, databaseId, s) <==> exists r :: r in raws && s == Source(r.sourceDigest.material, r.sourceDigest)
    {
    }
  }

  lemma ListedIff(sources: seq<Source>, digest: Value -> string, p: Contents, factKey: string, v: Value, id: string)
    requires NormalSources(sources) && Injective(digest)
    requires p.facts == KnowledgeFacts(Tabulate(AllClaims(sources)), digest)
    ensures Lists(p, factKey, v, id) <==> Claim(factKey, v, id) in AllClaims(sources)
  {
    hide KnowledgeFacts, AllClaims, Import, Less, NormalSources;
    AlternativesPartitionClaimants(sources, digest);
    if Claims(sources, factKey, v, id) {
      var f :| f in p.facts && f.factKey == factKey;
      var a :| a in f.alternatives && a.value == v;
      assert id in a.sourceIds;
    }
  }

  lemma BuiltContradictions(sources: seq<Source>, digest: Value -> string, facts: seq<Fact>)
    requires facts == KnowledgeFacts(Tabulate(AllClaims(sources)), digest)
    ensures forall c :: c in Contradictions(facts) ==> exists f :: f in facts && Opens(c, f)
    ensures forall f :: f in facts && |f.alternatives| != 1 ==> exists c :: c in Contradictions(facts) && Opens(c, f)
  {
    hide KnowledgeFacts, AllClaims, Less;
    FactsHold(Tabulate(AllClaims(sources)), digest);
    forall i, j | 0 <= i < j < |facts|
      ensures facts[i].factKey != facts[j].factKey
    {
      LessIrreflexive(facts[i].factKey);
    }
    ContradictionsHold(facts);
    forall f | f in facts && |f.alternatives| != 1
      ensures exists c :: c in Contradictions(facts) && Opens(c, f)
    {
      assert ContradictionOf(f) in Contradictions(facts) && Opens(ContradictionOf(f), f);
    }
    forall c | c in Contradictions(facts)
      ensures exists f :: f in facts && Opens(c, f)
    {
      var f :| f in facts && f.Contradictory() && c == ContradictionOf(f);
      assert Opens(c, f);
    }
  }

  // ---- Resolving ----

  predicate ReviewChar(c: char) { 'a' <= c <= 'z' || '0' <= c <= '9' || c == '.' || c == '_' || c == '-' }

  /** The reference of a human review. */
  predicate Review(s: string) {
    16 <= |s| <= 140 && s[..13] == "human-review-" && forall i :: 13 <= i < |s| ==> ReviewChar(s[i])
  }

  lemma ReviewIff(s: string)
    ensures IsReviewRef(s) <==> Review(s)
  {
    if |s| >= 13 {
      Patterns.EveryFrom(s, 13, c => IsLower(c) || IsDigit(c) || c in "._-");
    }
  }

  predicate Resolves(r: Request, resolution: Resolution) {
    && resolution.selectedValueDigest == r.selectedValueDigest && resolution.humanReviewRef == r.humanReviewRef
    && resolution.resolvedAt == r.resolvedAt
  }

  /** The request names a contradiction of the package, one of its values and a review of it, and agrees
      with the resolution the contradiction may have. */
  ghost predicate Welcome(items: seq<Contradiction>, r: Request) {
    && IsDigest(r.selectedValueDigest) && Review(r.humanReviewRef) && IsInstant(r.resolvedAt)
    && exists c :: c in items && c.contradictionId == r.contradictionId
         && (exists a :: a in c.alternatives && a.valueDigest == r.selectedValueDigest)
         && (c.resolution.Some? ==> Resolves(r, c.resolution.value))
  }

  lemma WelcomeIff(items: seq<Contradiction>, r: Request)
    ensures Admissible(items, r) <==> Welcome(items, r)
  {
    hide IsReviewRef, Review, IsDigest, IsInstant;
    ReviewIff(r.humanReviewRef);
    forall c | c in items && c.resolution.Some?
      ensures c.resolution.value == ResolutionOf(r) <==> Resolves(r, c.resolution.value)
    {
    }
  }

  /** A run is accepted exactly when every request is welcome and no two differ about one contradiction;
      then each named contradiction carries its request's resolution, no other one changed, and nothing
      else of the package did but its generation. */
  lemma RunResolves(k: Contents, rs: seq<Request>)
    requires DistinctIds(k.contradictions)
    ensures ResolveAll(WithDigest(k), rs).Ok? <==>
              && (forall r :: r in rs ==> Welcome(k.contradictions, r))
              && forall r, q :: r in rs && q in rs && r.contradictionId == q.contradictionId ==> r == q
    ensures ResolveAll(WithDigest(k), rs).Ok? ==>
              var after := ResolveAll(WithDigest(k), rs).value.contents;
              && after == k.(generation := after.generation, contradictions := after.contradictions)
              && |after.contradictions| == |k.contradictions|
              && forall i :: 0 <= i < |k.contradictions| ==> ResolvedBy(k.contradictions[i], after.contradictions[i], rs)
  {
    hide ResolveAll, Admissible, Welcome;
    RunIsOneChange(k, rs);
    forall r
      ensures Admissible(k.contradictions, r) <==> Welcome(k.contradictions, r)
    {
      WelcomeIff(k.contradictions, r);
    }
    if ResolveAll(WithDigest(k), rs).Ok? {
      forall i | 0 <= i < |k.contradictions|
        ensures ResolvedBy(k.contradictions[i], Settled(k.contradictions[i], rs), rs)
      {
        SettledBy(k.contradictions, i, rs);
      }
    }
  }

  /** The contradiction before and after the run. */
  ghost predicate ResolvedBy(c: Contradiction, d: Contradiction, rs: seq<Request>) {
    && d == c.(resolution := d.resolution)
    && (forall r :: r in rs && r.contradictionId == c.contradictionId ==>
          d.resolution.Some? && Resolves(r, d.resolution.value))
    && ((forall r :: r in rs ==> r.contradictionId != c.contradictionId) ==> d == c)
  }

  lemma SettledBy(items: seq<Contradiction>, i: nat, rs: seq<Request>)
    requires DistinctIds(items) && Consistent(items, rs) && i < |items|
    ensures ResolvedBy(items[i], Settled(items[i], rs), rs)
  {
    hide IsReviewRef, IsDigest, IsInstant, Offers;
    var c := items[i];
    assert c in items;
    forall r | r in rs && r.contradictionId == c.contradictionId
      ensures c.resolution.Some? ==> c.resolution.value == ResolutionOf(r)
    {
      AdmissibleMeans(items, r, c);
    }
  }
}
