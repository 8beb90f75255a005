/** What the claims of the sources say, read off what the sources list. */
module SourceStatements {
  import opened Results
  import opened CodeUnits
  import opened Text
  import opened SchemaSources
  import opened SchemaClaims
  import opened KnowledgePackage

  /** The source lists the entity under this key. */
  ghost predicate ListsEntity(s: Material, key: string, e: Entity) {
    e in s.entities && e.schema + "." + e.name == key
  }

  ghost predicate ListsColumn(s: Material, key: string, c: Column) {
    exists e :: ListsEntity(s, key, e) && c in e.columns
  }

  ghost predicate HasEntity(s: Material, key: string) { exists e :: ListsEntity(s, key, e) }

  ghost predicate HasColumn(s: Material, key: string, name: string) {
    exists c :: ListsColumn(s, key, c) && c.name == name
  }

  /** What one source says of one fact: of an entity or column it lists, what it lists; and, if it is
      complete, whether it lists each entity any source lists, and each column any source lists of an
      entity it lists itself. */
  ghost predicate Says(s: Material, sources: seq<Source>, k: FactKey, v: Value) {
    match k.aspect
    case Present =>
      s.complete && (exists o :: o in sources && HasEntity(o.material, k.entity)) && v == Flag(HasEntity(s, k.entity))
    case EntityType => exists e :: ListsEntity(s, k.entity, e) && v == Text(e.type')
    case ColumnPresent(name) =>
      && s.complete && HasEntity(s, k.entity) && (exists o :: o in sources && HasColumn(o.material, k.entity, name))
      && v == Flag(HasColumn(s, k.entity, name))
    case DataType(name) => exists c :: ListsColumn(s, k.entity, c) && c.name == name && v == Text(c.dataType)
    case Nullable(name) => exists c :: ListsColumn(s, k.entity, c) && c.name == name && v == Flag(c.nullable)
    case PrimaryKey(name) => exists c :: ListsColumn(s, k.entity, c) && c.name == name && v == Flag(c.primaryKey)
    case Unique(name) => exists c :: ListsColumn(s, k.entity, c) && c.name == name && v == Flag(c.unique)
  }

  // ---- Lookup by name ----

  lemma {:induction false} EntityNamedHolds(entities: seq<Entity>, key: string)
    ensures EntityNamed(entities, key).Some? ==>
              EntityNamed(entities, key).value in entities && EntityKey(EntityNamed(entities, key).value) == key
    ensures EntityNamed(entities, key).None? ==> forall e :: e in entities ==> EntityKey(e) != key
    decreases |entities|
  {
    hide EntityKey;
    if entities != [] {
      EntityNamedHolds(entities[..|entities| - 1], key);
      assert entities == entities[..|entities| - 1] + [entities[|entities| - 1]];
    }
  }

  lemma {:induction false} ColumnNamedHolds(columns: seq<Column>, name: string)
    ensures ColumnNamed(columns, name).Some? ==>
              ColumnNamed(columns, name).value in columns && ColumnNamed(columns, name).value.name == name
    ensures ColumnNamed(columns, name).None? ==> forall c :: c in columns ==> c.name != name
    decreases |columns|
  {
    if columns != [] {
      ColumnNamedHolds(columns[..|columns| - 1], name);
      assert columns == columns[..|columns| - 1] + [columns[|columns| - 1]];
    }
  }

  /** In a source in normal form a key names one entity, and a name one column of it. */
  lemma NormalIsDistinct(s: Source)
    requires Import(s.material) == Ok(s)
    ensures DistinctKeys(s.material.entities, EntityKey)
    ensures forall e :: e in s.material.entities ==> DistinctKeys(e.columns, ColumnName)
  {
    hide ImportColumn, SortBy, IsStableId, IsLogicalRef, IsInstant, IsIdentifier, Traverse, EntityKey;
    var out := Traverse(s.material.entities, ImportEntity).value;
    DistinctIffSetSize(out, EntityKey);
    SortMultiset(out, EntityKey);
    DistinctByMultiset(out, SortBy(out, EntityKey), EntityKey);
    TraverseAt(s.material.entities, ImportEntity);
    forall e | e in s.material.entities
      ensures DistinctKeys(e.columns, ColumnName)
    {
      assert e in multiset(SortBy(out, EntityKey)) && e in multiset(out);
      var i :| 0 <= i < |out| && out[i] == e;
      ImportedColumnsAreDistinct(s.material.entities[i]);
    }
  }

  lemma ImportedColumnsAreDistinct(e: Entity)
    requires ImportEntity(e).Ok?
    ensures DistinctKeys(ImportEntity(e).value.columns, ColumnName)
  {
    hide ImportColumn, SortBy, IsIdentifier, Traverse;
    var out := Traverse(e.columns, ImportColumn).value;
    DistinctIffSetSize(out, ColumnName);
    SortMultiset(out, ColumnName);
    DistinctByMultiset(out, SortBy(out, ColumnName), ColumnName);
  }

  lemma NamedEntityIs(s: Source, key: string, e: Entity)
    requires Import(s.material) == Ok(s) && ListsEntity(s.material, key, e)
    ensures EntityNamed(s.material.entities, key) == Some(e) && DistinctKeys(e.columns, ColumnName)
  {
    hide Import;
    NormalIsDistinct(s);
    EntityNamedHolds(s.material.entities, key);
    DistinctMember(s.material.entities, EntityKey, e, EntityNamed(s.material.entities, key).value);
  }

  lemma NamedColumnIs(columns: seq<Column>, c: Column)
    requires DistinctKeys(columns, ColumnName) && c in columns
    ensures ColumnNamed(columns, c.name) == Some(c)
  {
    ColumnNamedHolds(columns, c.name);
    DistinctMember(columns, ColumnName, c, ColumnNamed(columns, c.name).value);
  }

  lemma EntityNamedIff(s: Source, key: string)
    requires Import(s.material) == Ok(s)
    ensures EntityNamed(s.material.entities, key).Some? <==> HasEntity(s.material, key)
    ensures forall e :: EntityNamed(s.material.entities, key) == Some(e) <==> ListsEntity(s.material, key, e)
  {
    hide Import;
    EntityNamedHolds(s.material.entities, key);
    forall e
      ensures EntityNamed(s.material.entities, key) == Some(e) <==> ListsEntity(s.material, key, e)
    {
      if ListsEntity(s.material, key, e) {
        NamedEntityIs(s, key, e);
      }
    }
    if EntityNamed(s.material.entities, key).Some? {
      assert ListsEntity(s.material, key, EntityNamed(s.material.entities, key).value);
    }
  }

  lemma ColumnNamedIff(s: Source, key: string, e: Entity, name: string)
    requires Import(s.material) == Ok(s) && EntityNamed(s.material.entities, key) == Some(e)
    ensures ColumnNamed(e.columns, name).Some? <==> HasColumn(s.material, key, name)
    ensures forall c :: ColumnNamed(e.columns, name) == Some(c) <==> ListsColumn(s.material, key, c) && c.name == name
  {
    hide Import, ListsEntity, EntityNamed;
    EntityNamedIff(s, key);
    NamedEntityIs(s, key, e);
    ColumnNamedHolds(e.columns, name);
    forall c
      ensures ColumnNamed(e.columns, name) == Some(c) <==> ListsColumn(s.material, key, c) && c.name == name
    {
      if c in e.columns && c.name == name {
        NamedColumnIs(e.columns, c);
      }
    }
    if ColumnNamed(e.columns, name).Some? {
      assert ListsColumn(s.material, key, ColumnNamed(e.columns, name).value);
    }
  }

  // ---- The universe ----

  lemma UniverseHas(sources: seq<Source>, key: string, name: string)
    ensures var u := UniverseOf(EntitiesOf(sources));
            && (key in u <==> exists o :: o in sources && HasEntity(o.material, key))
            && (key in u ==> (name in u[key] <==> exists o :: o in sources && HasColumn(o.material, key, name)))
  {
    var u := UniverseOf(EntitiesOf(sources));
    if key in u {
      var o, e :| o in sources && e in o.material.entities && EntityKey(e) == key;
      assert ListsEntity(o.material, key, e);
      if name in u[key] {
        var o', e', c :| o' in sources && e' in o'.material.entities && EntityKey(e') == key && c in e'.columns && c.name == name;
        assert ListsEntity(o'.material, key, e') && ListsColumn(o'.material, key, c);
      }
    }
    if o :| o in sources && HasEntity(o.material, key) {
      var e :| ListsEntity(o.material, key, e);
      assert e in EntitiesOf(sources) && EntityKey(e) in KeysOf(EntitiesOf(sources));
    }
    if o :| o in sources && HasColumn(o.material, key, name) {
      var c, e :| ListsEntity(o.material, key, e) && c in e.columns && c.name == name;
      assert e in EntitiesOf(sources) && name in ColumnNames(e.columns);
      assert EntityKey(e) in KeysOf(EntitiesOf(sources)) && name in ColumnsOf(EntitiesOf(sources), key);
    }
  }

  lemma HasColumnHasEntity(s: Material, key: string, name: string)
    requires HasColumn(s, key, name)
    ensures HasEntity(s, key)
  {
    var c :| ListsColumn(s, key, c) && c.name == name;
    var e :| ListsEntity(s, key, e) && c in e.columns;
  }

  lemma ListedColumnHas(s: Material, key: string, c: Column)
    requires ListsColumn(s, key, c)
    ensures HasColumn(s, key, c.name)
  {
  }

  /** One source's claim about a fact is what it says of it. */
  lemma ClaimIsSaid(s: Source, sources: seq<Source>, k: FactKey, v: Value)
    requires s in sources && Import(s.material) == Ok(s)
    ensures ClaimOf(s.material, UniverseOf(EntitiesOf(sources)), k) == Some(v) <==> Says(s.material, sources, k, v)
  {
    hide Import, UniverseOf, EntityNamed, ColumnNamed, ListsColumn, ListsEntity, HasColumn, HasEntity, EntitiesOf;
    var u := UniverseOf(EntitiesOf(sources));
    EntityNamedIff(s, k.entity);
    var entity := EntityNamed(s.material.entities, k.entity);
    if k.aspect.Present? || k.aspect.EntityType? {
      UniverseHas(sources, k.entity, "");
    } else {
      var name := k.aspect.column;
      UniverseHas(sources, k.entity, name);
      if entity.Some? {
        ColumnNamedIff(s, k.entity, entity.value, name);
      }
      forall c | ListsColumn(s.material, k.entity, c) && c.name == name
        ensures HasEntity(s.material, k.entity) && HasColumn(s.material, k.entity, name)
      {
        ListedColumnHas(s.material, k.entity, c);
        HasColumnHasEntity(s.material, k.entity, name);
      }
    }
  }

  ghost predicate Printable(k: FactKey) {
    TwoPartKey(k.entity) && (k.aspect.Present? || k.aspect.EntityType? || IsColumnName(k.aspect.column))
  }

  lemma SaidIsFact(s: Source, sources: seq<Source>, k: FactKey, v: Value)
    requires s in sources && Import(s.material) == Ok(s)
    requires ClaimOf(s.material, UniverseOf(EntitiesOf(sources)), k) == Some(v)
    ensures var u := UniverseOf(EntitiesOf(sources)); k in FactKeys(u, u.Keys)
  {
    hide Import, UniverseOf, EntityNamed, ColumnNamed, EntitiesOf;
    var u := UniverseOf(EntitiesOf(sources));
    KeyOfUniverse(u, k);
  }

  lemma KeyOfUniverse(u: Universe, k: FactKey)
    requires k.entity in u && (k.aspect.Present? || k.aspect.EntityType? || k.aspect.column in u[k.entity])
    ensures k in FactKeys(u, u.Keys)
  {
    if !k.aspect.Present? && !k.aspect.EntityType? {
      assert k in ColumnKeys(k.entity, k.aspect.column);
      assert k in ColumnsKeys(k.entity, u[k.entity]);
    }
    assert k in EntityKeys(k.entity, u[k.entity]);
  }

  /** The claims of a package's sources are exactly what the sources say: a claim of a value for a fact
      under a source's identity stands there if and only if that source says it. */
  lemma ClaimedIff(sources: seq<Source>, k: FactKey, v: Value, id: string)
    requires NormalSources(sources) && Printable(k)
    ensures Claim(Print(k), v, id) in AllClaims(sources) <==>
              exists s :: s in sources && s.material.sourceId == id && Says(s.material, sources, k, v)
  {
    hide Import, ClaimOf, FactKeys, UniverseOf, EntitiesOf, Print, TwoPartKey, IsColumnName, Says;
    var u := UniverseOf(EntitiesOf(sources));
    if Claim(Print(k), v, id) in AllClaims(sources) {
      var s, l :| s in sources && l in FactKeys(u, u.Keys) && ClaimOf(s.material, u, l).Some?
        && Claim(Print(k), v, id) == Claim(Print(l), ClaimOf(s.material, u, l).value, s.material.sourceId);
      NormalKeys(sources, l);
      PrintInjective(k, l);
      ClaimIsSaid(s, sources, k, v);
    }
    if s :| s in sources && s.material.sourceId == id && Says(s.material, sources, k, v) {
      ClaimIsSaid(s, sources, k, v);
      SaidIsFact(s, sources, k, v);
      assert Claim(Print(k), v, id) in ClaimsAt(s.material, u, FactKeys(u, u.Keys));
    }
  }

  /** The source of this identity lists the entity under the key, and in it the column of the name. */
  predicate LinesUp(s: Material, id: string, e: Entity, key: string, c: Column, name: string) {
    s.sourceId == id && e in s.entities && e.schema + "." + e.name == key && c in e.columns && c.name == name
  }

  /** In the program's own texts, for one column: its type is claimed exactly as listed under its name. */
  lemma ColumnTypeIsClaimedIff(sources: seq<Source>, key: string, name: string, type': string, id: string)
    requires NormalSources(sources) && TwoPartKey(key) && IsColumnName(name)
    ensures Claim(key + ".column." + name + ".data_type", Text(type'), id) in AllClaims(sources) <==>
              exists s, e, c :: s in sources && LinesUp(s.material, id, e, key, c, name) && c.dataType == type'
  {
    PrintedAs(key, name);
    hide NormalSources, TwoPartKey, IsColumnName, AllClaims, Print;
    ClaimedIff(sources, FactKey(key, DataType(name)), Text(type'), id);
    if s :| s in sources && s.material.sourceId == id && Says(s.material, sources, FactKey(key, DataType(name)), Text(type')) {
      var c :| ListsColumn(s.material, key, c) && c.name == name && c.dataType == type';
      var e :| ListsEntity(s.material, key, e) && c in e.columns;
      assert LinesUp(s.material, id, e, key, c, name);
    }
    if s, e, c :| s in sources && LinesUp(s.material, id, e, key, c, name) && c.dataType == type' {
      assert ListsEntity(s.material, key, e) && ListsColumn(s.material, key, c);
      assert Says(s.material, sources, FactKey(key, DataType(name)), Text(type'));
    }
  }
}
