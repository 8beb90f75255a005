/** When a SQL statement is accepted, on what the patterns found in it, and what the
    operation read from it lists. */
module SqlAcceptance {
  import opened Results
  import opened CodeUnits
  import opened Text
  import opened ProbeOperation
  import opened PostgreSqlProbe

  /** Some common table expression of the statement has this name. */
  predicate IsExpression(scan: Scan, name: string) { exists n :: n in scan.cteNames && Lower(n) == name }

  /** A relation is a common table expression by one name, or a table by two; a catalog only to introspect,
      and only an approved one. */
  predicate RelationFits(scan: Scan, kind: string, r: Relation) {
    match r.second
    case None => IsExpression(scan, Lower(r.first))
    case Some(second) =>
      var schema, name := Lower(r.first), Lower(second);
      && IsSqlName(schema) && IsSqlName(name)
      && (IsCatalog(schema) ==> kind == "introspect" && schema + "." + name in SAFE_CATALOGS)
  }

  /** The object a two-part relation names. */
  predicate IsObjectOf(r: Relation, o: ObjectRef) {
    r.second.Some? && o.schema == Lower(r.first) && o.name == Lower(r.second.value)
    && o.type' == if IsCatalog(o.schema) then "catalog" else "table"
  }

  /** A call is of a common table expression, of SQL syntax, or of an approved function. */
  predicate CallFits(scan: Scan, call: string) {
    IsExpression(scan, Lower(call)) || Lower(call) in FUNCTION_SYNTAX || Lower(call) in SAFE_FUNCTIONS
  }

  lemma ObjectOfIff(scan: Scan, kind: string, r: Relation)
    ensures var one := ObjectOf(r, LowerNames(scan.cteNames), kind);
            && (one.Ok? <==> RelationFits(scan, kind, r))
            && (one.Ok? ==> (one.value.Some? <==> r.second.Some?))
            && (one.Ok? && one.value.Some? ==> IsObjectOf(r, one.value.value) && IsParsedObject(one.value.value))
  {
    hide IsSqlName, Lower;
  }

  lemma SqlNameHasNoDot(s: string)
    requires IsSqlName(s)
    ensures '.' !in s
  {
  }

  lemma SameNameSameObject(a: ObjectRef, b: ObjectRef)
    requires IsParsedObject(a) && IsParsedObject(b) && ObjectName(a) == ObjectName(b)
    ensures a.schema == b.schema && a.name == b.name
  {
    SqlNameHasNoDot(a.schema);
    SqlNameHasNoDot(b.schema);
    SqlNameHasNoDot(a.name);
    SqlNameHasNoDot(b.name);
    hide IsSqlName, Split;
    TwoParts(a);
    TwoParts(b);
    assert [a.schema, a.name][0] == [b.schema, b.name][0] && [a.schema, a.name][1] == [b.schema, b.name][1];
  }

  lemma TwoParts(o: ObjectRef)
    requires '.' !in o.schema && '.' !in o.name
    ensures Split(ObjectName(o), '.') == [o.schema, o.name]
  {
    hide Split;
    var parts := [o.schema, o.name];
    assert parts[1..] == [o.name];
    assert Join([o.name], ".") == o.name;
    assert Join(parts, ".") == o.schema + "." + o.name;
    SplitJoin(parts, '.');
  }

  /** The relations are accepted exactly when each is, and the objects are those they name. */
  lemma {:induction false} ObjectsOfIff(scan: Scan, kind: string, relations: seq<Relation>)
    ensures var objects := ObjectsOf(relations, LowerNames(scan.cteNames), kind);
            && (objects.Ok? <==> forall r :: r in relations ==> RelationFits(scan, kind, r))
            && (objects.Ok? ==> forall o :: o in objects.value <==> exists r :: r in relations && IsObjectOf(r, o))
    decreases |relations|
  {
    hide RelationFits, IsObjectOf, ObjectOf, IsParsedObject, LowerNames, ObjectName, Put;
    if relations != [] {
      var init, last := relations[..|relations| - 1], relations[|relations| - 1];
      assert relations == init + [last];
      ObjectsOfIff(scan, kind, init);
      ObjectOfIff(scan, kind, last);
      var kept := ObjectsOf(init, LowerNames(scan.cteNames), kind);
      var one := ObjectOf(last, LowerNames(scan.cteNames), kind);
      if kept.Ok? && one.Ok? {
        if one.value.Some? {
          ObjectsHold(init, LowerNames(scan.cteNames), kind);
          PutMembers(kept.value, one.value.value, init, last);
        } else {
          forall o
            ensures !IsObjectOf(last, o)
          {
            NamesNothing(last, o);
          }
        }
      }
    }
  }

  lemma NamesNothing(r: Relation, o: ObjectRef)
    requires r.second.None?
    ensures !IsObjectOf(r, o)
  {
  }

  lemma PutMembers(kept: seq<ObjectRef>, o: ObjectRef, init: seq<Relation>, last: Relation)
    requires IsParsedObject(o) && IsObjectOf(last, o) && forall k :: k in kept ==> IsParsedObject(k)
    requires forall k :: k in kept <==> exists r :: r in init && IsObjectOf(r, k)
    ensures forall k :: k in Put(kept, o) <==> exists r :: r in init + [last] && IsObjectOf(r, k)
  {
    hide IsParsedObject, ObjectName;
    var at := NamePosition(kept, ObjectName(o));
    if at < |kept| {
      assert kept[at] in kept;
      SameNameSameObject(kept[at], o);
      var r :| r in init && IsObjectOf(r, kept[at]);
      assert kept[at] == o;
    }
    forall k
      ensures k in Put(kept, o) <==> k in kept || k == o
    {
    }
    forall k | IsObjectOf(last, k)
      ensures k == o
    {
    }
  }

  lemma {:induction false} FunctionsOfIff(scan: Scan, calls: seq<string>)
    ensures forall f :: f in FunctionsOf(calls, LowerNames(scan.cteNames)) <==>
              (exists c :: c in calls && Lower(c) == f) && !IsExpression(scan, f) && f !in FUNCTION_SYNTAX
    decreases |calls|
  {
    hide Lower;
    if calls != [] {
      var init, last := calls[..|calls| - 1], calls[|calls| - 1];
      assert calls == init + [last];
      FunctionsOfIff(scan, init);
    }
  }

  /** A statement is accepted exactly when no statement rule is broken, the request and its classifications
      are valid, every relation and every call is allowed, some relation is a table, and the placeholders
      are 1..n for n classifications. */
  lemma StatementIsAcceptedIff(scan: Scan, options: Options)
    ensures Parse(scan, options).Ok? <==>
              && scan.ruleBroken.None? && IsProtectedRef(options.protectedRequestRef)
              && |options.parameterClassifications| <= 64
              && (forall c :: c in options.parameterClassifications ==> c in CLASSIFICATIONS)
              && (forall r :: r in scan.relations ==> RelationFits(scan, options.kind, r))
              && (exists r :: r in scan.relations && r.second.Some?)
              && (forall c :: c in scan.calls ==> CallFits(scan, c))
              && (forall p: nat :: p in scan.placeholders <==> 1 <= p <= |options.parameterClassifications|)
  {
    var ctes := LowerNames(scan.cteNames);
    ObjectsOfIff(scan, options.kind, scan.relations);
    FunctionsOfIff(scan, scan.calls);
    CallsFitIff(scan);
    PlaceholdersIff(scan.placeholders, |options.parameterClassifications|);
    hide RelationFits, ObjectsOf, FunctionsOf, LowerNames, IsProtectedRef, NumbersOf, UpTo, CallFits, SortBy;
    if ObjectsOf(scan.relations, ctes, options.kind).Ok? {
      SomeObjectIff(scan.relations, ObjectsOf(scan.relations, ctes, options.kind).value);
    }
    hide IsObjectOf;
  }

  lemma SomeObjectIff(relations: seq<Relation>, objects: seq<ObjectRef>)
    requires forall o :: o in objects <==> exists r :: r in relations && IsObjectOf(r, o)
    ensures objects != [] <==> exists r :: r in relations && r.second.Some?
  {
    if objects != [] {
      assert objects[0] in objects;
      var r :| r in relations && IsObjectOf(r, objects[0]);
    }
    if r :| r in relations && r.second.Some? {
      var schema := Lower(r.first);
      var o := ObjectRef(schema, Lower(r.second.value), if IsCatalog(schema) then "catalog" else "table");
      assert IsObjectOf(r, o);
      assert o in objects;
    }
  }

  lemma CallsFitIff(scan: Scan)
    ensures (forall f :: f in FunctionsOf(scan.calls, LowerNames(scan.cteNames)) ==> f in SAFE_FUNCTIONS) <==>
              forall c :: c in scan.calls ==> CallFits(scan, c)
  {
    FunctionsOfIff(scan, scan.calls);
    hide FunctionsOf, Lower, LowerNames, IsExpression;
    if forall f :: f in FunctionsOf(scan.calls, LowerNames(scan.cteNames)) ==> f in SAFE_FUNCTIONS {
      forall c | c in scan.calls
        ensures CallFits(scan, c)
      {
        assert IsExpression(scan, Lower(c)) || Lower(c) in FUNCTION_SYNTAX
          || Lower(c) in FunctionsOf(scan.calls, LowerNames(scan.cteNames));
      }
    }
  }

  lemma PlaceholdersIff(placeholders: seq<nat>, n: nat)
    ensures NumbersOf(placeholders) == UpTo(n) <==> forall p: nat :: p in placeholders <==> 1 <= p <= n
  {
    if forall p: nat :: p in placeholders <==> 1 <= p <= n {
      assert NumbersOf(placeholders) == UpTo(n);
    }
    if NumbersOf(placeholders) == UpTo(n) {
      forall p: nat
        ensures p in placeholders <==> 1 <= p <= n
      {
        assert p in NumbersOf(placeholders) <==> p in UpTo(n);
      }
    }
  }

  /** And the operation lists exactly the tables it names, each once, and exactly the functions it calls. */
  lemma StatementIsReadAs(scan: Scan, options: Options)
    requires Parse(scan, options).Ok?
    ensures var op := Parse(scan, options).value;
            && op.kind == options.kind && op.statementCount == 1 && op.protectedRequestRef == options.protectedRequestRef
            && (forall o :: o in op.objects <==> exists r :: r in scan.relations && IsObjectOf(r, o))
            && (forall f :: f in op.functions <==>
                  (exists c :: c in scan.calls && Lower(c) == f) && !IsExpression(scan, f) && f !in FUNCTION_SYNTAX)
            && multiset(op.parameterClassifications) == multiset(options.parameterClassifications)
            && StrictlySorted(op.objects, ObjectName) && StrictlySorted(op.functions, Whole)
  {
    var ctes := LowerNames(scan.cteNames);
    ObjectsOfIff(scan, options.kind, scan.relations);
    FunctionsOfIff(scan, scan.calls);
    ObjectsHold(scan.relations, ctes, options.kind);
    FunctionsAreDistinct(scan.calls, ctes);
    var objects, functions := ObjectsOf(scan.relations, ctes, options.kind).value, FunctionsOf(scan.calls, ctes);
    hide ObjectsOf, FunctionsOf, LowerNames, IsProtectedRef, NumbersOf, UpTo, SortBy, IsObjectOf, IsExpression, Less,
      IsParsedObject, ObjectName, Lower;
    SortMembers(objects, ObjectName);
    SortMembers(functions, Whole);
    SortMultiset(options.parameterClassifications, Whole);
    SortStrict(objects, ObjectName);
    SortStrict(functions, Whole);
  }

  /** The worker runs a statement exactly when reading it gives the plan and it brings one parameter per
      classification; and then every table it names is a planned object, every function it calls a planned
      one, and its placeholders are those parameters. */
  lemma RunningStaysInPlan(planned: Operation, scan: Scan, parameterCount: nat)
    ensures WorkerAnswer(planned, scan, parameterCount).Ok? <==>
              && Parse(scan, OptionsOf(planned)) == Ok(planned)
              && parameterCount == |planned.parameterClassifications|
    ensures WorkerAnswer(planned, scan, parameterCount).Ok? ==>
              && (forall r, o :: r in scan.relations && IsObjectOf(r, o) ==> o in planned.objects)
              && (forall c :: c in scan.calls ==>
                    IsExpression(scan, Lower(c)) || Lower(c) in FUNCTION_SYNTAX || Lower(c) in planned.functions)
              && (forall p: nat :: p in scan.placeholders <==> 1 <= p <= parameterCount)
  {
    var options := OptionsOf(planned);
    hide Parse, Lower, IsExpression, IsObjectOf, RelationFits, CallFits;
    if Parse(scan, options) == Ok(planned) {
      StatementIsAcceptedIff(scan, options);
      StatementIsReadAs(scan, options);
      LargestPlaceholder(scan.placeholders, |planned.parameterClassifications|);
      assert |options.parameterClassifications| == |planned.parameterClassifications|;
    }
  }

  lemma LargestPlaceholder(placeholders: seq<nat>, n: nat)
    requires forall p: nat :: p in placeholders <==> 1 <= p <= n
    ensures Largest(placeholders) == n
  {
    LargestHolds(placeholders);
    if n > 0 {
      assert n in placeholders;
    }
    assert forall i :: 0 <= i < |placeholders| ==> placeholders[i] in placeholders;
  }
}
