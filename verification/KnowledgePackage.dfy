/** The knowledge package: every fact with the values claimed for it, and the
    contradictions between sources. */
module KnowledgePackage {
  import opened Results
  import opened CodeUnits
  import opened Text
  import opened SchemaSources
  import opened SchemaClaims

  const MAX_SAFE_INTEGER := 9007199254740991

  datatype Alternative = Alternative(value: Value, valueDigest: string, sourceIds: seq<string>)

  datatype Fact = Fact(factKey: string, alternatives: seq<Alternative>) {
    predicate Contradictory() { |alternatives| != 1 }
  }

  /** SHA-256 over a fact and its alternatives, taken as injective. */
  datatype ContradictionId = OfFact(factKey: string, alternatives: seq<Alternative>)

  datatype Resolution = Resolution(selectedValueDigest: string, humanReviewRef: string, resolvedAt: string)

  datatype Contradiction = Contradiction(
    contradictionId: ContradictionId,
    factKey: string,
    alternatives: seq<Alternative>,
    resolution: Option<Resolution>)

  datatype Contents = Contents(
    workspaceId: string,
    databaseId: string,
    generation: nat,
    sources: seq<Source>,
    facts: seq<Fact>,
    contradictions: seq<Contradiction>)

  /** SHA-256 over the package contents, taken as injective. */
  datatype PackageDigest = OfContents(contents: Contents)

  datatype Package = Package(contents: Contents, packageDigest: PackageDigest)

  function WithDigest(contents: Contents): Package { Package(contents, OfContents(contents)) }

  /** The entries of a map or set in some insertion order, sorted by their key. */
  ghost function Listing<T(!new)>(items: set<T>, key: T -> string): seq<T> {
    SortBy(Entries(items), key)
  }

  ghost function Entries<T(!new)>(items: set<T>): seq<T> {
    if items == {} then [] else var x :| x in items; [x] + Entries(items - {x})
  }

  /** The value digests of a fact's alternatives, by the program's digest function. */
  ghost function AlternativesOf(values: map<Value, set<string>>, digest: Value -> string): seq<Alternative> {
    var order := Listing(values.Keys, digest);
    ListingHolds(values.Keys, digest);
    seq(|order|, i requires 0 <= i < |order| =>
      assert order[i] in order;
      Alternative(order[i], digest(order[i]), Listing(values[order[i]], Whole)))
  }

  ghost function KnowledgeFacts(table: Table, digest: Value -> string): seq<Fact> {
    var order := Listing(table.Keys, Whole);
    ListingHolds(table.Keys, Whole);
    seq(|order|, i requires 0 <= i < |order| =>
      assert order[i] in order;
      Fact(order[i], AlternativesOf(table[order[i]], digest)))
  }

  function ContradictionOf(f: Fact): Contradiction {
    Contradiction(OfFact(f.factKey, f.alternatives), f.factKey, f.alternatives, None)
  }

  function Contradictions(facts: seq<Fact>): seq<Contradiction> {
    if facts == [] then []
    else (if facts[0].Contradictory() then [ContradictionOf(facts[0])] else []) + Contradictions(facts[1..])
  }

  predicate IsWorkspaceId(s: string) {
    |s| == 46 && s[..10] == "workspace_" && Every(s[10..], c => IsHex(c) || c == '-')
  }

  ghost function Build(
    workspaceId: string, databaseId: string, generation: int, raws: seq<Source>, digest: Value -> string): Result<Package>
  {
    if raws == [] || |raws| > 128 || !IsWorkspaceId(workspaceId) || !IsStableId(databaseId)
       || generation < 1 || generation > MAX_SAFE_INTEGER then
      Err("VES_DATABASE_KNOWLEDGE_INVALID")
    else
      match MergedSources(raws, databaseId)
      case Err(code) => Err(code)
      case Ok(sources) =>
        var facts := KnowledgeFacts(Tabulate(AllClaims(sources)), digest);
        Ok(WithDigest(Contents(workspaceId, databaseId, generation, sources, facts, Contradictions(facts))))
  }

  function AllClaims(sources: seq<Source>): set<Claim> {
    ClaimsOf(sources, UniverseOf(EntitiesOf(sources)))
  }

  // ---- Listings ----

  lemma {:induction false} EntriesHold<T(!new)>(items: set<T>)
    ensures forall x :: x in Entries(items) <==> x in items
    ensures forall i, j :: 0 <= i < j < |Entries(items)| ==> Entries(items)[i] != Entries(items)[j]
  {
    if items != {} {
      var x: T :| x in items && Entries(items) == [x] + Entries(items - {x});
      EntriesHold(items - {x});
    }
  }

  lemma ListingHolds<T(!new)>(items: set<T>, key: T -> string)
    ensures forall x :: x in Listing(items, key) <==> x in items
    ensures (forall x, y :: x in items && y in items && key(x) == key(y) ==> x == y) ==>
              StrictlySorted(Listing(items, key), key)
  {
    hide SortBy, Less;
    EntriesHold(items);
    var entries := Entries(items);
    SortMultiset(entries, key);
    forall x: T
      ensures x in Listing(items, key) <==> x in items
    {
      assert x in multiset(Listing(items, key)) <==> x in multiset(entries);
    }
    if forall x, y :: x in items && y in items && key(x) == key(y) ==> x == y {
      forall i, j | 0 <= i < j < |entries|
        ensures key(entries[i]) != key(entries[j])
      {
        assert entries[i] in entries && entries[j] in entries;
      }
      SortStrict(entries, key);
    }
  }

  // ---- Each source claims one value per fact ----

  predicate HasDot(s: string) { '.' in s }

  lemma {:induction false} WordsHaveNoDots(s: string)
    requires IsColumnName(s)
    ensures !HasDot(s)
  {
    if s != "_id" {
      forall c | c in s
        ensures c != '.'
      {
        assert IsLower(c) || IsDigit(c) || c in "_";
      }
    }
  }

  ghost predicate TwoPartKey(key: string) {
    exists schema, name :: IsIdentifier(schema) && IsIdentifier(name) && key == schema + "." + name
  }

  lemma KeyParts(k: FactKey) returns (parts: seq<string>)
    requires TwoPartKey(k.entity) && (k.aspect.Present? || k.aspect.EntityType? || IsColumnName(k.aspect.column))
    ensures |parts| == 2 && parts[0] + "." + parts[1] == k.entity
    ensures Split(Print(k), '.') == parts + Suffix(k.aspect)
  {
    var schema, name :| IsIdentifier(schema) && IsIdentifier(name) && k.entity == schema + "." + name;
    parts := [schema, name];
    var suffix := Suffix(k.aspect);
    WordsHaveNoDots(schema);
    WordsHaveNoDots(name);
    if !k.aspect.Present? && !k.aspect.EntityType? {
      WordsHaveNoDots(k.aspect.column);
    }
    SuffixHasNoDots(k.aspect);
    JoinKey(schema, name, suffix);
    hide Suffix, Split, Join, Every, IsIdentifier, IsColumnName;
    assert forall p :: p in parts + suffix ==> p in parts || p in suffix;
    SplitJoin(parts + suffix, '.');
  }

  lemma JoinKey(schema: string, name: string, suffix: seq<string>)
    requires suffix != []
    ensures Join([schema, name] + suffix, ".") == Join([schema + "." + name] + suffix, ".")
  {
    var parts := [schema, name] + suffix;
    assert parts[1..] == [name] + suffix && parts[1..][1..] == suffix;
    assert ([schema + "." + name] + suffix)[1..] == suffix;
    var rest := Join(suffix, ".");
    assert Join(parts[1..], ".") == name + "." + rest;
    assert schema + "." + (name + "." + rest) == (schema + "." + name) + "." + rest;
  }

  lemma SuffixHasNoDots(a: Aspect)
    requires a.Present? || a.EntityType? || !HasDot(a.column)
    ensures forall p :: p in Suffix(a) ==> '.' !in p
  {
  }

  /** Distinct fact keys have distinct dotted texts. */
  lemma PrintInjective(k: FactKey, l: FactKey)
    requires TwoPartKey(k.entity) && (k.aspect.Present? || k.aspect.EntityType? || IsColumnName(k.aspect.column))
    requires TwoPartKey(l.entity) && (l.aspect.Present? || l.aspect.EntityType? || IsColumnName(l.aspect.column))
    requires Print(k) == Print(l)
    ensures k == l
  {
    hide Print, IsColumnName, TwoPartKey, Split;
    var a := KeyParts(k);
    var b := KeyParts(l);
    var x, y := Suffix(k.aspect), Suffix(l.aspect);
    assert (a + x)[..2] == a && (b + y)[..2] == b && (a + x)[2..] == x && (b + y)[2..] == y;
    assert x == y;
    SuffixInjective(k.aspect, l.aspect);
  }

  lemma SuffixInjective(a: Aspect, b: Aspect)
    requires Suffix(a) == Suffix(b)
    ensures a == b
  {
    var x, y := Suffix(a), Suffix(b);
    assert |x| == |y| && x[0] == y[0] && x[|x| - 1] == y[|x| - 1];
    if |x| == 3 {
      assert x[1] == y[1];
    } else {
      assert |"present"| == 7 && |"entity_type"| == 11;
    }
    assert |"data_type"| == 9 && |"nullable"| == 8 && |"primary_key"| == 11 && |"unique"| == 6 && |"present"| == 7;
  }

  /** A package's sources: each in normal form, each identity once. */
  ghost predicate NormalSources(sources: seq<Source>) {
    && DistinctKeys(sources, SourceId)
    && forall s :: s in sources ==> Import(s.material) == Ok(s)
  }

  lemma MergedAreNormal(raws: seq<Source>, databaseId: string)
    requires MergedSources(raws, databaseId).Ok?
    ensures NormalSources(MergedSources(raws, databaseId).value)
  {
    hide KnowledgeSource, MergedSources;
    MergedSourcesHold(raws, databaseId);
    var sources := MergedSources(raws, databaseId).value;
    forall s | s in sources
      ensures Import(s.material) == Ok(s)
    {
      var r :| r in raws && KnowledgeSource(r, databaseId) == Ok(s);
      RecheckedIsNormal(r, databaseId, s);
    }
  }

  lemma RecheckedIsNormal(raw: Source, databaseId: string, s: Source)
    requires KnowledgeSource(raw, databaseId) == Ok(s)
    ensures Import(s.material) == Ok(s)
  {
    hide Import;
    RecheckReturnsTheDigested(raw, databaseId);
  }

  lemma NormalEntities(s: Source, e: Entity)
    requires Import(s.material) == Ok(s) && e in s.material.entities
    ensures IsIdentifier(e.schema) && IsIdentifier(e.name)
    ensures forall n :: n in ColumnNames(e.columns) ==> IsColumnName(n)
  {
    hide IsIdentifier, IsColumnName, SortBy, Traverse, IsStableId, IsLogicalRef, IsInstant, IsDataType;
    var raw, out := s.material.entities, Traverse(s.material.entities, ImportEntity).value;
    TraverseAt(raw, ImportEntity);
    var i :| 0 <= i < |raw| && raw[i] == e;
    assert ImportEntity(e).Ok?;
    TraverseAt(e.columns, ImportColumn);
    forall c | c in e.columns
      ensures IsColumnName(c.name)
    {
      var j :| 0 <= j < |e.columns| && e.columns[j] == c;
      assert ImportColumn(e.columns[j]).Ok?;
    }
  }

  lemma FactKeyIn(u: Universe, k: FactKey)
    requires k in FactKeys(u, u.Keys)
    ensures k.entity in u && (k.aspect.Present? || k.aspect.EntityType? || k.aspect.column in u[k.entity])
  {
    var e :| e in u.Keys && k in EntityKeys(e, u[e]);
    if k in ColumnsKeys(e, u[e]) {
      var c :| c in u[e] && k in ColumnKeys(e, c);
    }
  }

  lemma NormalKeys(sources: seq<Source>, k: FactKey)
    requires NormalSources(sources)
    requires var u := UniverseOf(EntitiesOf(sources)); k in FactKeys(u, u.Keys)
    ensures TwoPartKey(k.entity) && (k.aspect.Present? || k.aspect.EntityType? || IsColumnName(k.aspect.column))
  {
    hide Import, IsIdentifier, IsColumnName, FactKeys, EntityKeys;
    var u := UniverseOf(EntitiesOf(sources));
    FactKeyIn(u, k);
    var s, e :| s in sources && e in s.material.entities && EntityKey(e) == k.entity;
    NormalEntities(s, e);
    if !k.aspect.Present? && !k.aspect.EntityType? {
      var s', e' :| s' in sources && e' in s'.material.entities && k.aspect.column in ColumnNames(e'.columns);
      NormalEntities(s', e');
    }
  }

  /** No source claims two values for one fact. */
  lemma ClaimsAreFunctional(sources: seq<Source>, c: Claim, d: Claim)
    requires NormalSources(sources) && c in AllClaims(sources) && d in AllClaims(sources)
    requires c.factKey == d.factKey && c.sourceId == d.sourceId
    ensures c == d
  {
    hide Import, ClaimOf, FactKeys, UniverseOf, EntitiesOf, Print, TwoPartKey, IsColumnName;
    var u := UniverseOf(EntitiesOf(sources));
    var keys := FactKeys(u, u.Keys);
    var s, k :| s in sources && k in keys && ClaimOf(s.material, u, k).Some?
      && c == Claim(Print(k), ClaimOf(s.material, u, k).value, s.material.sourceId);
    var t, l :| t in sources && l in keys && ClaimOf(t.material, u, l).Some?
      && d == Claim(Print(l), ClaimOf(t.material, u, l).value, t.material.sourceId);
    NormalKeys(sources, k);
    NormalKeys(sources, l);
    PrintInjective(k, l);
    assert SourceId(s) == SourceId(t);
    var i :| 0 <= i < |sources| && sources[i] == s;
    var j :| 0 <= j < |sources| && sources[j] == t;
    assert i == j;
  }

  // ---- What the facts say ----

  ghost predicate Injective(digest: Value -> string) {
    forall v, w :: digest(v) == digest(w) ==> v == w
  }

  lemma AlternativesHold(claims: set<Claim>, factKey: string, digest: Value -> string)
    requires factKey in Tabulate(claims) && Injective(digest)
    ensures var alternatives := AlternativesOf(Tabulate(claims)[factKey], digest);
            && StrictlySorted(alternatives, (a: Alternative) => a.valueDigest)
            && (forall v :: v in ValuesOn(claims, factKey) <==> exists a :: a in alternatives && a.value == v)
            && (forall a :: a in alternatives ==>
                 && a.valueDigest == digest(a.value)
                 && StrictlySorted(a.sourceIds, Whole)
                 && forall id :: id in a.sourceIds <==> Claim(factKey, a.value, id) in claims)
  {
    hide SortBy, Less, Listing;
    var values := Tabulate(claims)[factKey];
    var order := Listing(values.Keys, digest);
    var alternatives := AlternativesOf(values, digest);
    ListingHolds(values.Keys, digest);
    forall a | a in alternatives
      ensures a.valueDigest == digest(a.value) && StrictlySorted(a.sourceIds, Whole)
      ensures forall id :: id in a.sourceIds <==> Claim(factKey, a.value, id) in claims
    {
      ListingHolds(values[a.value], Whole);
      assert values[a.value] == Claimants(claims, factKey, a.value);
    }
    forall v
      ensures v in ValuesOn(claims, factKey) <==> exists a :: a in alternatives && a.value == v
    {
      assert values.Keys == ValuesOn(claims, factKey);
      if v in order {
        var i :| 0 <= i < |order| && order[i] == v;
        assert alternatives[i] in alternatives;
      }
    }
  }

  ghost predicate Claims(sources: seq<Source>, factKey: string, value: Value, sourceId: string) {
    Claim(factKey, value, sourceId) in AllClaims(sources)
  }

  lemma FactsHold(table: Table, digest: Value -> string)
    ensures var facts := KnowledgeFacts(table, digest);
            && StrictlySorted(facts, (f: Fact) => f.factKey)
            && (forall f :: f in facts ==> f.factKey in table && f.alternatives == AlternativesOf(table[f.factKey], digest))
            && (forall k :: k in table ==> exists f :: f in facts && f.factKey == k)
  {
    hide Listing, AlternativesOf, Less;
    ListingHolds(table.Keys, Whole);
    var order, facts := Listing(table.Keys, Whole), KnowledgeFacts(table, digest);
    forall k | k in table
      ensures exists f :: f in facts && f.factKey == k
    {
      var i :| 0 <= i < |order| && order[i] == k;
      assert facts[i] in facts;
    }
  }

  /** Each fact's alternatives partition exactly the sources that claim something about it, by the
      value they claim; every claimed fact is listed, once, in key order. */
  lemma AlternativesPartitionClaimants(sources: seq<Source>, digest: Value -> string)
    requires NormalSources(sources) && Injective(digest)
    ensures var facts := KnowledgeFacts(Tabulate(AllClaims(sources)), digest);
            && StrictlySorted(facts, (f: Fact) => f.factKey)
            && (forall k, v, id :: Claims(sources, k, v, id) ==> exists f :: f in facts && f.factKey == k)
            && (forall f, a, id :: f in facts && a in f.alternatives ==>
                 (id in a.sourceIds <==> Claims(sources, f.factKey, a.value, id)))
            && (forall f, v, id :: f in facts && Claims(sources, f.factKey, v, id) ==>
                 exists a :: a in f.alternatives && a.value == v)
            && (forall f, a, b, id ::
                 f in facts && a in f.alternatives && b in f.alternatives && id in a.sourceIds && id in b.sourceIds ==>
                   a == b)
            && (forall f, a :: f in facts && a in f.alternatives ==> a.sourceIds != [])
  {
    hide AllClaims, KnowledgeFacts, AlternativesOf, Import, Less;
    var claims := AllClaims(sources);
    var facts := KnowledgeFacts(Tabulate(claims), digest);
    FactsHold(Tabulate(claims), digest);
    forall k, v, id | Claims(sources, k, v, id)
      ensures exists f :: f in facts && f.factKey == k
    {
      assert k in Tabulate(claims);
    }
    forall f | f in facts
      ensures AlternativesSound(claims, f)
    {
      AlternativesHold(claims, f.factKey, digest);
      AlternativesAreSound(claims, f, digest);
    }
    forall f, a, b, id | f in facts && a in f.alternatives && b in f.alternatives
      && id in a.sourceIds && id in b.sourceIds
      ensures a == b
    {
      assert AlternativesSound(claims, f);
      ClaimsAreFunctional(sources, Claim(f.factKey, a.value, id), Claim(f.factKey, b.value, id));
    }
    forall f, v, id | f in facts && Claims(sources, f.factKey, v, id)
      ensures exists a :: a in f.alternatives && a.value == v
    {
      assert AlternativesSound(claims, f);
    }
  }

  /** What the listing of one fact's alternatives must satisfy. */
  ghost predicate AlternativesSound(claims: set<Claim>, f: Fact) {
    && (forall a, id :: a in f.alternatives ==> (id in a.sourceIds <==> Claim(f.factKey, a.value, id) in claims))
    && (forall v, id :: Claim(f.factKey, v, id) in claims ==> exists a :: a in f.alternatives && a.value == v)
    && (forall a, b :: a in f.alternatives && b in f.alternatives && a.value == b.value ==> a == b)
    && (forall a :: a in f.alternatives ==> a.sourceIds != [])
    && (forall i, j :: 0 <= i < j < |f.alternatives| ==> f.alternatives[i].valueDigest != f.alternatives[j].valueDigest)
  }

  lemma AlternativesAreSound(claims: set<Claim>, f: Fact, digest: Value -> string)
    requires f.factKey in Tabulate(claims) && f.alternatives == AlternativesOf(Tabulate(claims)[f.factKey], digest)
    requires Injective(digest)
    ensures AlternativesSound(claims, f)
  {
    hide AlternativesOf, Less;
    AlternativesHold(claims, f.factKey, digest);
    var xs := f.alternatives;
    forall i, j | 0 <= i < j < |xs|
      ensures xs[i].valueDigest != xs[j].valueDigest
    {
      LessIrreflexive(xs[i].valueDigest);
    }
    forall v, id | Claim(f.factKey, v, id) in claims
      ensures exists a :: a in xs && a.value == v
    {
      assert v in ValuesOn(claims, f.factKey);
    }
    forall a | a in xs
      ensures a.sourceIds != []
    {
      assert a.value in ValuesOn(claims, f.factKey);
      var c :| c in claims && c.factKey == f.factKey && c.value == a.value;
      assert c.sourceId in a.sourceIds;
    }
  }

  ghost predicate Disagree(sources: seq<Source>, factKey: string) {
    exists v, w, a, b :: v != w && a != b && Claims(sources, factKey, v, a) && Claims(sources, factKey, w, b)
  }

  /** A fact is contradictory exactly when two sources claim different values for it. */
  lemma ContradictoryIffSourcesDisagree(sources: seq<Source>, digest: Value -> string, f: Fact)
    requires NormalSources(sources) && Injective(digest)
    requires f in KnowledgeFacts(Tabulate(AllClaims(sources)), digest)
    ensures f.Contradictory() <==> Disagree(sources, f.factKey)
    ensures f.alternatives != []
  {
    hide AllClaims, KnowledgeFacts, AlternativesOf, Import, Less, Disagree, AlternativesSound;
    var claims := AllClaims(sources);
    FactsHold(Tabulate(claims), digest);
    AlternativesAreSound(claims, f, digest);
    assert f.factKey in KeysIn(claims);
    SoundHasAlternatives(claims, f);
    if |f.alternatives| > 1 {
      TwoAlternativesDisagree(sources, f);
    }
    if Disagree(sources, f.factKey) {
      DisagreementIsContradictory(sources, f);
    }
  }

  lemma SoundHasAlternatives(claims: set<Claim>, f: Fact)
    requires AlternativesSound(claims, f) && f.factKey in KeysIn(claims)
    ensures f.alternatives != []
  {
    var c :| c in claims && c.factKey == f.factKey;
    assert Claim(f.factKey, c.value, c.sourceId) in claims;
  }

  lemma TwoAlternativesDisagree(sources: seq<Source>, f: Fact)
    requires NormalSources(sources) && AlternativesSound(AllClaims(sources), f) && |f.alternatives| > 1
    ensures Disagree(sources, f.factKey)
  {
    hide AllClaims, Import, NormalSources;
    var a, b := f.alternatives[0], f.alternatives[1];
    assert a in f.alternatives && b in f.alternatives;
    assert a.value != b.value;
    var i, j := a.sourceIds[0], b.sourceIds[0];
    assert i in a.sourceIds && j in b.sourceIds;
    assert Claims(sources, f.factKey, a.value, i) && Claims(sources, f.factKey, b.value, j);
    if i == j {
      ClaimsAreFunctional(sources, Claim(f.factKey, a.value, i), Claim(f.factKey, b.value, i));
    }
  }

  lemma DisagreementIsContradictory(sources: seq<Source>, f: Fact)
    requires AlternativesSound(AllClaims(sources), f) && Disagree(sources, f.factKey)
    ensures f.Contradictory()
  {
    hide AllClaims;
    var v, w, a, b :| v != w && a != b && Claims(sources, f.factKey, v, a) && Claims(sources, f.factKey, w, b);
    var x :| x in f.alternatives && x.value == v;
    var y :| y in f.alternatives && y.value == w;
  }

  /** The package depends only on what the recheck makes of the sources offered. */
  lemma PackageIgnoresPresentation(
    workspaceId: string, databaseId: string, generation: int, raws: seq<Source>, others: seq<Source>,
    digest: Value -> string)
    requires Covered(raws, others, databaseId) && Covered(others, raws, databaseId)
    requires (|raws| > 128) == (|others| > 128)
    ensures Build(workspaceId, databaseId, generation, raws, digest) ==
              Build(workspaceId, databaseId, generation, others, digest)
            || (Build(workspaceId, databaseId, generation, raws, digest).Err?
                && Build(workspaceId, databaseId, generation, others, digest).Err?)
  {
    hide MergedSources, KnowledgeFacts, AllClaims, Contradictions, RechecksAlike;
    MergeIgnoresOrder(raws, others, databaseId);
    assert raws != [] ==> raws[0] in raws && others != [];
    assert others != [] ==> others[0] in others && raws != [];
  }

  /** Permuting the sources, the entities inside each and the columns inside those, and repeating
      sources, does not change the package. */
  lemma PackageIgnoresOrder(
    workspaceId: string, databaseId: string, generation: int, raws: seq<Source>, others: seq<Source>,
    digest: Value -> string)
    requires Reordered(raws, others)
    requires (|raws| > 128) == (|others| > 128)
    ensures Build(workspaceId, databaseId, generation, raws, digest) ==
              Build(workspaceId, databaseId, generation, others, digest)
            || (Build(workspaceId, databaseId, generation, raws, digest).Err?
                && Build(workspaceId, databaseId, generation, others, digest).Err?)
  {
    hide Build, Reordered, Covered;
    ReorderedCovers(raws, others, databaseId);
    PackageIgnoresPresentation(workspaceId, databaseId, generation, raws, others, digest);
  }
}
