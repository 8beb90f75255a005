/** What each schema source claims about the database, and the table the claims
    of all sources are gathered in. */
module SchemaClaims {
  import opened Results
  import opened Text
  import opened SchemaSources

  datatype Value = Text(text: string) | Flag(flag: bool)

  datatype Claim = Claim(factKey: string, value: Value, sourceId: string)

  /** Claimed values by fact, and claiming sources by value. The program keys the inner map by the
      value's digest, which is injective. */
  type Table = map<string, map<Value, set<string>>>

  /** Column names by entity, over all sources. */
  type Universe = map<string, set<string>>

  datatype Aspect =
    | Present
    | EntityType
    | ColumnPresent(column: string)
    | DataType(column: string)
    | Nullable(column: string)
    | PrimaryKey(column: string)
    | Unique(column: string)

  datatype FactKey = FactKey(entity: string, aspect: Aspect)

  // ---- The universe of entities and columns ----

  function Listed(entities: seq<Entity>): set<Entity> {
    set e | e in entities
  }

  function EntitiesOf(sources: seq<Source>): set<Entity> {
    set s, e | s in sources && e in s.material.entities :: e
  }

  function ColumnNames(columns: seq<Column>): set<string> {
    set c | c in columns :: c.name
  }

  function KeysOf(entities: set<Entity>): set<string> {
    set e | e in entities :: EntityKey(e)
  }

  function ColumnsOf(entities: set<Entity>, key: string): set<string> {
    set e, c | e in entities && EntityKey(e) == key && c in ColumnNames(e.columns) :: c
  }

  function UniverseOf(entities: set<Entity>): Universe {
    map k | k in KeysOf(entities) :: ColumnsOf(entities, k)
  }

  method EntityUniverse(sources: seq<Source>) returns (universe: Universe)
    ensures universe == UniverseOf(EntitiesOf(sources))
  {
    hide UniverseOf;
    universe := map[];
    assert universe == UniverseOf({}) by { UniverseOfNone(); }
    assert EntitiesOf(sources[..0]) == {};
    for i := 0 to |sources|
      invariant universe == UniverseOf(EntitiesOf(sources[..i]))
    {
      ghost var before := EntitiesOf(sources[..i]);
      var entities := sources[i].material.entities;
      assert before + Listed(entities[..0]) == before;
      for j := 0 to |entities|
        invariant universe == UniverseOf(before + Listed(entities[..j]))
      {
        ghost var done := before + Listed(entities[..j]);
        var key := EntityKey(entities[j]);
        var columns := if key in universe then universe[key] else {};
        ghost var known := columns;
        for n := 0 to |entities[j].columns|
          invariant columns == known + ColumnNames(entities[j].columns[..n])
        {
          columns := columns + {entities[j].columns[n].name};
        }
        assert entities[j].columns[..|entities[j].columns|] == entities[j].columns;
        UniverseGrows(done, entities[j]);
        universe := universe[key := columns];
        assert entities[..j + 1] == entities[..j] + [entities[j]];
        assert before + Listed(entities[..j + 1]) == done + {entities[j]};
      }
      assert entities[..|entities|] == entities;
      EntitiesGrow(sources, i);
    }
    assert sources[..|sources|] == sources;
  }

  lemma UniverseOfNone()
    ensures UniverseOf({}) == map[]
  {
    assert KeysOf({}) == {};
  }

  lemma EntitiesGrow(sources: seq<Source>, i: nat)
    requires i < |sources|
    ensures EntitiesOf(sources[..i + 1]) == EntitiesOf(sources[..i]) + Listed(sources[i].material.entities)
  {
    assert sources[..i + 1] == sources[..i] + [sources[i]];
  }

  lemma ColumnsGrow(entities: set<Entity>, e: Entity, k: string)
    ensures ColumnsOf(entities + {e}, k) ==
              ColumnsOf(entities, k) + if k == EntityKey(e) then ColumnNames(e.columns) else {}
    ensures k !in KeysOf(entities) ==> ColumnsOf(entities, k) == {}
  {
    hide ColumnNames, EntityKey;
  }

  lemma UniverseGrows(entities: set<Entity>, e: Entity)
    ensures var u, key := UniverseOf(entities), EntityKey(e);
            UniverseOf(entities + {e}) == u[key := (if key in u then u[key] else {}) + ColumnNames(e.columns)]
  {
    hide ColumnNames, EntityKey, ColumnsOf;
    var u, key := UniverseOf(entities), EntityKey(e);
    var l, r := UniverseOf(entities + {e}), u[key := (if key in u then u[key] else {}) + ColumnNames(e.columns)];
    assert KeysOf(entities + {e}) == KeysOf(entities) + {key};
    assert l.Keys == r.Keys;
    forall k | k in r
      ensures l[k] == r[k]
    {
      ColumnsGrow(entities, e, k);
    }
  }

  // ---- What one source claims ----

  function EntityNamed(entities: seq<Entity>, key: string): Option<Entity> {
    if entities == [] then None
    else if EntityKey(entities[|entities| - 1]) == key then Some(entities[|entities| - 1])
    else EntityNamed(entities[..|entities| - 1], key)
  }

  function ColumnNamed(columns: seq<Column>, name: string): Option<Column> {
    if columns == [] then None
    else if columns[|columns| - 1].name == name then Some(columns[|columns| - 1])
    else ColumnNamed(columns[..|columns| - 1], name)
  }

  /** What the source says about one fact. Silence about an entity or column is a claim of its
      absence only when the source is complete. */
  function ClaimOf(s: Material, u: Universe, k: FactKey): Option<Value> {
    if k.entity !in u then None
    else
      var entity := EntityNamed(s.entities, k.entity);
      match k.aspect
      case Present => if s.complete then Some(Flag(entity.Some?)) else None
      case EntityType => if entity.Some? then Some(Text(entity.value.type')) else None
      case _ =>
        if entity.None? || k.aspect.column !in u[k.entity] then None
        else ColumnClaim(s.complete, ColumnNamed(entity.value.columns, k.aspect.column), k.aspect)
  }

  function ColumnClaim(complete: bool, column: Option<Column>, aspect: Aspect): Option<Value> {
    if aspect.ColumnPresent? then if complete then Some(Flag(column.Some?)) else None
    else if column.None? then None
    else
      match aspect
      case DataType(_) => Some(Text(column.value.dataType))
      case Nullable(_) => Some(Flag(column.value.nullable))
      case PrimaryKey(_) => Some(Flag(column.value.primaryKey))
      case Unique(_) => Some(Flag(column.value.unique))
      case _ => None
  }

  function Suffix(a: Aspect): seq<string> {
    match a
    case Present => ["present"]
    case EntityType => ["entity_type"]
    case ColumnPresent(c) => ["column", c, "present"]
    case DataType(c) => ["column", c, "data_type"]
    case Nullable(c) => ["column", c, "nullable"]
    case PrimaryKey(c) => ["column", c, "primary_key"]
    case Unique(c) => ["column", c, "unique"]
  }

  /** The dotted text of a fact key. */
  function Print(k: FactKey): string { Join([k.entity] + Suffix(k.aspect), ".") }

  function ColumnKeys(entity: string, column: string): set<FactKey> {
    {FactKey(entity, ColumnPresent(column)), FactKey(entity, DataType(column)), FactKey(entity, Nullable(column)),
     FactKey(entity, PrimaryKey(column)), FactKey(entity, Unique(column))}
  }

  function ColumnsKeys(entity: string, columns: set<string>): set<FactKey> {
    set c, k | c in columns && k in ColumnKeys(entity, c) :: k
  }

  function EntityKeys(entity: string, columns: set<string>): set<FactKey> {
    {FactKey(entity, Present), FactKey(entity, EntityType)} + ColumnsKeys(entity, columns)
  }

  function FactKeys(u: Universe, entities: set<string>): set<FactKey>
    requires entities <= u.Keys
  {
    set e, k | e in entities && k in EntityKeys(e, u[e]) :: k
  }

  function ClaimsAt(s: Material, u: Universe, keys: set<FactKey>): set<Claim> {
    set k | k in keys && ClaimOf(s, u, k).Some? :: Claim(Print(k), ClaimOf(s, u, k).value, s.sourceId)
  }

  function ClaimsOf(sources: seq<Source>, u: Universe): set<Claim> {
    set s, c | s in sources && c in ClaimsAt(s.material, u, FactKeys(u, u.Keys)) :: c
  }

  // ---- The table ----

  function KeysIn(claims: set<Claim>): set<string> {
    set c | c in claims :: c.factKey
  }

  function ValuesOn(claims: set<Claim>, factKey: string): set<Value> {
    set c | c in claims && c.factKey == factKey :: c.value
  }

  function Claimants(claims: set<Claim>, factKey: string, value: Value): set<string> {
    set c | c in claims && c.factKey == factKey && c.value == value :: c.sourceId
  }

  function Tabulate(claims: set<Claim>): Table {
    map k | k in KeysIn(claims) :: map v | v in ValuesOn(claims, k) :: Claimants(claims, k, v)
  }

  function Added(table: Table, c: Claim): Table {
    var alternatives := if c.factKey in table then table[c.factKey] else map[];
    var ids := if c.value in alternatives then alternatives[c.value] else {};
    table[c.factKey := alternatives[c.value := ids + {c.sourceId}]]
  }

  lemma ClaimSetsGrow(claims: set<Claim>, c: Claim)
    ensures KeysIn(claims + {c}) == KeysIn(claims) + {c.factKey}
    ensures forall k :: ValuesOn(claims + {c}, k) == ValuesOn(claims, k) + if k == c.factKey then {c.value} else {}
  {
  }

  lemma ClaimantsGrow(claims: set<Claim>, c: Claim)
    ensures forall k, v :: Claimants(claims + {c}, k, v) ==
              Claimants(claims, k, v) + if k == c.factKey && v == c.value then {c.sourceId} else {}
  {
  }

  lemma SilentFacts(claims: set<Claim>, k: string)
    ensures k !in KeysIn(claims) ==> ValuesOn(claims, k) == {}
    ensures forall v :: v !in ValuesOn(claims, k) ==> Claimants(claims, k, v) == {}
  {
  }

  lemma AddTabulates(claims: set<Claim>, c: Claim)
    ensures Added(Tabulate(claims), c) == Tabulate(claims + {c})
  {
    hide KeysIn, ValuesOn, Claimants;
    ClaimSetsGrow(claims, c);
    var l, r := Added(Tabulate(claims), c), Tabulate(claims + {c});
    assert l.Keys == r.Keys;
    forall k | k in r.Keys
      ensures l[k] == r[k]
    {
      AddTabulatesAt(claims, c, k);
    }
  }

  lemma AddTabulatesAt(claims: set<Claim>, c: Claim, k: string)
    requires k in Tabulate(claims + {c}) && k in Added(Tabulate(claims), c)
    ensures Added(Tabulate(claims), c)[k] == Tabulate(claims + {c})[k]
  {
    hide KeysIn, ValuesOn, Claimants;
    ClaimSetsGrow(claims, c);
    ClaimantsGrow(claims, c);
    SilentFacts(claims, c.factKey);
    var l, r := Added(Tabulate(claims), c)[k], Tabulate(claims + {c})[k];
    assert l.Keys == r.Keys;
    forall v | v in r
      ensures l[v] == r[v]
    {
      assert r[v] == Claimants(claims + {c}, k, v);
    }
  }

  /** The mutable table behind `sourceClaims`. */
  class ClaimTable {
    var table: Table
    ghost var claims: set<Claim>

    ghost predicate Valid()
      reads this
    {
      table == Tabulate(claims)
    }

    constructor ()
      ensures Valid() && claims == {}
    {
      table, claims := map[], {};
    }

    method Add(factKey: string, value: Value, sourceId: string)
      requires Valid()
      modifies this
      ensures Valid() && claims == old(claims) + {Claim(factKey, value, sourceId)}
    {
      var c := Claim(factKey, value, sourceId);
      AddTabulates(claims, c);
      var alternatives := if factKey in table then table[factKey] else map[];
      var ids := if value in alternatives then alternatives[value] else {};
      table := table[factKey := alternatives[value := ids + {sourceId}]];
      claims := claims + {c};
    }

    method AddColumnClaims(s: Material, u: Universe, key: string, entity: Entity)
      requires Valid() && key in u && EntityNamed(s.entities, key) == Some(entity)
      modifies this
      ensures Valid()
      ensures claims == old(claims) + ClaimsAt(s, u, ColumnsKeys(key, u[key]))
    {
      var todo := u[key];
      ghost var keys: set<FactKey> := {};
      while todo != {}
        invariant Valid() && todo <= u[key]
        invariant keys == ColumnsKeys(key, u[key] - todo)
        invariant claims == old(claims) + ClaimsAt(s, u, keys)
        decreases |todo|
      {
        var name :| name in todo;
        AddColumn(s, u, key, entity, name);
        keys := keys + ColumnKeys(key, name);
        todo := todo - {name};
      }
    }

    method AddColumn(s: Material, u: Universe, key: string, entity: Entity, name: string)
      requires Valid() && key in u && name in u[key] && EntityNamed(s.entities, key) == Some(entity)
      modifies this
      ensures Valid()
      ensures claims == old(claims) + ClaimsAt(s, u, ColumnKeys(key, name))
    {
      hide Tabulate, ClaimsAt, ColumnKeys, EntityNamed, ColumnNamed, ClaimOf;
      var column := ColumnNamed(entity.columns, name);
      var prefix := key + ".column." + name;
      ColumnClaimsListed(s, u, key, entity, name);
      if s.complete {
        Add(prefix + ".present", Flag(column.Some?), s.sourceId);
      }
      if column.Some? {
        Add(prefix + ".data_type", Text(column.value.dataType), s.sourceId);
        Add(prefix + ".nullable", Flag(column.value.nullable), s.sourceId);
        Add(prefix + ".primary_key", Flag(column.value.primaryKey), s.sourceId);
        Add(prefix + ".unique", Flag(column.value.unique), s.sourceId);
      }
    }

    method AddEntity(s: Material, u: Universe, key: string)
      requires Valid() && key in u
      modifies this
      ensures Valid()
      ensures claims == old(claims) + ClaimsAt(s, u, EntityKeys(key, u[key]))
    {
      hide ClaimsAt, EntityKeys, Tabulate, ColumnsKeys, EntityNamed;
      var entity := EntityNamed(s.entities, key);
      EntityClaimsListed(s, u, key);
      if s.complete {
        Add(key + ".present", Flag(entity.Some?), s.sourceId);
      }
      if entity.Some? {
        Add(key + ".entity_type", Text(entity.value.type'), s.sourceId);
        AddColumnClaims(s, u, key, entity.value);
      }
    }

    method AddEntityClaims(s: Material, u: Universe)
      requires Valid()
      modifies this
      ensures Valid()
      ensures claims == old(claims) + ClaimsAt(s, u, FactKeys(u, u.Keys))
    {
      hide ClaimsAt, EntityKeys, FactKeys, Tabulate;
      NoKeysNoClaims(s, u);
      var todo := u.Keys;
      assert u.Keys - todo == {};
      while todo != {}
        invariant Valid() && todo <= u.Keys
        invariant claims == old(claims) + ClaimsAt(s, u, FactKeys(u, u.Keys - todo))
        decreases |todo|
      {
        var key :| key in todo;
        AddEntity(s, u, key);
        ghost var done := u.Keys - todo;
        FactKeysGrow(u, done, key);
        ClaimsAtJoin(s, u, FactKeys(u, done), EntityKeys(key, u[key]));
        todo := todo - {key};
        assert u.Keys - todo == done + {key};
      }
      assert u.Keys - todo == u.Keys;
    }
  }

  lemma NoKeysNoClaims(s: Material, u: Universe)
    ensures ClaimsAt(s, u, FactKeys(u, {})) == {}
  {
  }

  lemma FactKeysGrow(u: Universe, entities: set<string>, key: string)
    requires entities <= u.Keys && key in u
    ensures FactKeys(u, entities + {key}) == FactKeys(u, entities) + EntityKeys(key, u[key])
  {
    hide EntityKeys;
  }

  lemma PrintedAs(key: string, column: string)
    ensures Print(FactKey(key, Present)) == key + ".present"
    ensures Print(FactKey(key, EntityType)) == key + ".entity_type"
    ensures Print(FactKey(key, ColumnPresent(column))) == key + ".column." + column + ".present"
    ensures Print(FactKey(key, DataType(column))) == key + ".column." + column + ".data_type"
    ensures Print(FactKey(key, Nullable(column))) == key + ".column." + column + ".nullable"
    ensures Print(FactKey(key, PrimaryKey(column))) == key + ".column." + column + ".primary_key"
    ensures Print(FactKey(key, Unique(column))) == key + ".column." + column + ".unique"
  {
    JoinTwo(key, "present");
    JoinTwo(key, "entity_type");
    JoinFour(key, column, "present");
    JoinFour(key, column, "data_type");
    JoinFour(key, column, "nullable");
    JoinFour(key, column, "primary_key");
    JoinFour(key, column, "unique");
  }

  lemma JoinTwo(a: string, b: string)
    ensures Join([a] + [b], ".") == a + ("." + b)
  {
    assert ([a] + [b])[1..] == [b];
  }

  lemma JoinFour(a: string, c: string, d: string)
    ensures Join([a] + ["column", c, d], ".") == a + ".column." + c + ("." + d)
  {
    assert ([a] + ["column", c, d])[1..] == ["column", c, d];
    assert ["column", c, d][1..] == [c, d];
    assert [c, d][1..] == [d];
    assert Join([c, d], ".") == c + "." + d;
    assert Join(["column", c, d], ".") == "column" + "." + (c + "." + d);
  }

  lemma ColumnClaimsListed(s: Material, u: Universe, key: string, entity: Entity, name: string)
    requires key in u && name in u[key] && EntityNamed(s.entities, key) == Some(entity)
    ensures var column, prefix := ColumnNamed(entity.columns, name), key + ".column." + name;
            ClaimsAt(s, u, ColumnKeys(key, name)) ==
              (if s.complete then {Claim(prefix + ".present", Flag(column.Some?), s.sourceId)} else {}) +
              (if column.None? then {} else
                {Claim(prefix + ".data_type", Text(column.value.dataType), s.sourceId),
                 Claim(prefix + ".nullable", Flag(column.value.nullable), s.sourceId),
                 Claim(prefix + ".primary_key", Flag(column.value.primaryKey), s.sourceId),
                 Claim(prefix + ".unique", Flag(column.value.unique), s.sourceId)})
  {
    hide EntityNamed, ColumnNamed, Print;
    PrintedAs(key, name);
    assert ClaimOf(s, u, FactKey(key, ColumnPresent(name))) ==
           ColumnClaim(s.complete, ColumnNamed(entity.columns, name), ColumnPresent(name));
    assert ClaimOf(s, u, FactKey(key, DataType(name))) ==
           ColumnClaim(s.complete, ColumnNamed(entity.columns, name), DataType(name));
    assert ClaimOf(s, u, FactKey(key, Nullable(name))) ==
           ColumnClaim(s.complete, ColumnNamed(entity.columns, name), Nullable(name));
    assert ClaimOf(s, u, FactKey(key, PrimaryKey(name))) ==
           ColumnClaim(s.complete, ColumnNamed(entity.columns, name), PrimaryKey(name));
    assert ClaimOf(s, u, FactKey(key, Unique(name))) ==
           ColumnClaim(s.complete, ColumnNamed(entity.columns, name), Unique(name));
  }

  lemma ClaimsAtJoin(s: Material, u: Universe, a: set<FactKey>, b: set<FactKey>)
    ensures ClaimsAt(s, u, a + b) == ClaimsAt(s, u, a) + ClaimsAt(s, u, b)
  {
    hide ClaimOf, Print;
  }

  lemma SilentColumns(s: Material, u: Universe, key: string)
    requires key in u && EntityNamed(s.entities, key) == None
    ensures ClaimsAt(s, u, ColumnsKeys(key, u[key])) == {}
  {
    hide Print, ColumnClaim;
  }

  lemma EntityKeysListed(s: Material, u: Universe, key: string)
    requires key in u
    ensures var entity := EntityNamed(s.entities, key);
            ClaimsAt(s, u, {FactKey(key, Present), FactKey(key, EntityType)}) ==
              (if s.complete then {Claim(key + ".present", Flag(entity.Some?), s.sourceId)} else {}) +
              (if entity.None? then {} else {Claim(key + ".entity_type", Text(entity.value.type'), s.sourceId)})
  {
    hide EntityNamed, ColumnNamed, Print, ColumnClaim;
    PrintedAs(key, "");
    assert ClaimOf(s, u, FactKey(key, Present)) ==
           if s.complete then Some(Flag(EntityNamed(s.entities, key).Some?)) else None;
  }

  lemma EntityClaimsListed(s: Material, u: Universe, key: string)
    requires key in u
    ensures var entity := EntityNamed(s.entities, key);
            ClaimsAt(s, u, EntityKeys(key, u[key])) ==
              (if s.complete then {Claim(key + ".present", Flag(entity.Some?), s.sourceId)} else {}) +
              (if entity.None? then {} else
                {Claim(key + ".entity_type", Text(entity.value.type'), s.sourceId)} +
                ClaimsAt(s, u, ColumnsKeys(key, u[key])))
  {
    hide EntityNamed, ClaimOf, ClaimsAt, Print, ColumnsKeys;
    EntityKeysListed(s, u, key);
    ClaimsAtJoin(s, u, {FactKey(key, Present), FactKey(key, EntityType)}, ColumnsKeys(key, u[key]));
    if EntityNamed(s.entities, key).None? {
      SilentColumns(s, u, key);
    }
  }

  method SourceClaims(sources: seq<Source>) returns (table: Table)
    ensures table == Tabulate(ClaimsOf(sources, UniverseOf(EntitiesOf(sources))))
  {
    var claims := new ClaimTable();
    var universe := EntityUniverse(sources);
    for i := 0 to |sources|
      invariant claims.Valid() && claims.claims == ClaimsOf(sources[..i], universe)
    {
      claims.AddEntityClaims(sources[i].material, universe);
      assert sources[..i + 1] == sources[..i] + [sources[i]];
    }
    assert sources[..|sources|] == sources;
    table := claims.table;
  }
}
