/** Reading a MongoDB command, and binding the protected parameters into it. */
module MongoDbProbe {
  import opened Results
  import opened CodeUnits
  import opened Text
  import opened ProbeOperation
  import opened MongoDbCommand

  datatype Options = Options(protectedRequestRef: string, parameterClassifications: seq<string>)

  const WRITE_KINDS: seq<string> := ["insert", "update", "delete", "replace", "findAndModify", "bulkWrite"]
  const READ_KINDS: seq<string> := ["find", "aggregate", "explain", "introspect"]
  const CATALOG := "collections_catalog"

  predicate IsName(s: string, maximum: nat) {
    1 <= |s| <= maximum && IsLower(s[0]) && Every(s, c => IsLower(c) || IsDigit(c) || c == '_' || c == '-')
  }

  /** A property of an object; a missing one reads like `null`, which no check accepts either. */
  function At(v: Json, key: string): Json { if v.Obj? then Lookup(v.fields, key) else Null }

  function Lookup(fields: seq<Field>, key: string): Json {
    if fields == [] then Null else if fields[0].key == key then fields[0].value else Lookup(fields[1..], key)
  }

  function Names(fields: seq<Field>): seq<string> {
    seq(|fields|, i requires 0 <= i < |fields| => fields[i].key)
  }

  predicate ExactKeys(v: Json, keys: seq<string>) {
    v.Obj? && multiset(Names(v.fields)) == multiset(keys)
  }

  const FIND_KEYS: seq<string> := ["kind", "database", "collection", "filter", "projection", "sort"]
  const EXPLAIN_KEYS: seq<string> := ["kind", "database", "collection", "filter", "projection", "sort", "verbosity"]
  const AGGREGATE_KEYS: seq<string> := ["kind", "database", "collection", "pipeline"]
  const INTROSPECT_KEYS: seq<string> := ["kind", "database", "collection"]

  function TargetError(v: Json): Option<string> {
    var kind, database, collection := At(v, "kind"), At(v, "database"), At(v, "collection");
    if kind == Str("mapReduce") then Some("VES_MONGODB_SERVER_EXECUTION_DENIED")
    else if kind.Str? && kind.s in WRITE_KINDS then Some("VES_MONGODB_WRITE_DENIED")
    else if !kind.Str? || kind.s !in READ_KINDS then Some(INVALID)
    else if !database.Str? || !IsName(database.s, 63) || database.s in ["admin", "config", "local"] then
      Some("VES_MONGODB_DATABASE_DENIED")
    else if !collection.Str? || !IsName(collection.s, 127) || "system" <= collection.s then
      Some("VES_MONGODB_COLLECTION_DENIED")
    else None
  }

  function QueryError(v: Json): Option<string> {
    var filter, projection := FilterError(At(v, "filter"), 0), ProjectionError(At(v, "projection"));
    if filter.Some? then filter else if projection.Some? then projection else SortError(At(v, "sort"))
  }

  function BodyError(v: Json): Option<string> {
    var kind := At(v, "kind");
    if kind == Str("find") then if !ExactKeys(v, FIND_KEYS) then Some(INVALID) else QueryError(v)
    else if kind == Str("explain") then
      if !ExactKeys(v, EXPLAIN_KEYS) || At(v, "verbosity") != Str("queryPlanner") then Some(INVALID) else QueryError(v)
    else if kind == Str("aggregate") then
      if !ExactKeys(v, AGGREGATE_KEYS) then Some(INVALID) else PipelineError(At(v, "pipeline"))
    else if !ExactKeys(v, INTROSPECT_KEYS) then Some(INVALID)
    else if At(v, "collection") != Str(CATALOG) then Some("VES_MONGODB_COLLECTION_DENIED")
    else None
  }

  function OptionsError(options: Options): Option<string> {
    if !IsProtectedRef(options.protectedRequestRef) then Some("VES_MONGODB_REQUEST_INVALID")
    else if |options.parameterClassifications| > 64
      || exists c :: c in options.parameterClassifications && c !in CLASSIFICATIONS
    then Some("VES_MONGODB_PARAMETERS_INVALID")
    else None
  }

  /** The operands 0..n-1. */
  function FirstNumbers(n: nat): set<Json> {
    set i | 0 <= i < n :: Number(i)
  }

  function FirstInts(n: nat): (s: set<int>)
    ensures forall x :: x in s <==> 0 <= x < n
  {
    if n == 0 then {} else FirstInts(n - 1) + {n - 1}
  }

  /** The first refusal of a command. The last check is stated on what a generic traversal finds. */
  function ReadError(v: Json, options: Options): Option<string> {
    var preflight := PreflightFrom(v, 0, 0);
    if preflight.Err? then Some(preflight.code)
    else if !v.Obj? then Some(INVALID)
    else if TargetError(v).Some? then TargetError(v)
    else if OptionsError(options).Some? then OptionsError(options)
    else if BodyError(v).Some? then BodyError(v)
    else if References(v) != FirstNumbers(|options.parameterClassifications|) then Some("VES_MONGODB_PARAMETERS_INVALID")
    else None
  }

  function FunctionsOf(v: Json): set<string> {
    OperatorNames(v) + if At(v, "kind") == Str("explain") then {"explain"} else {}
  }

  /** The operation an accepted command is read as. */
  ghost predicate ReadsAs(v: Json, options: Options, op: Operation) {
    && At(v, "kind").Str? && At(v, "database").Str? && At(v, "collection").Str?
    && op.kind == (if At(v, "kind") == Str("introspect") then "introspect" else "select")
    && op.statementCount == 1 && op.protectedRequestRef == options.protectedRequestRef
    && op.objects == [ObjectRef(At(v, "database").s, At(v, "collection").s, if op.kind == "introspect" then "catalog" else "table")]
    && StrictlySorted(op.functions, Whole) && (forall f :: f in op.functions <==> f in FunctionsOf(v))
    && op.parameterClassifications == SortBy(options.parameterClassifications, Whole)
  }

  // ---- The whole command, key by key ----

  lemma {:induction false} LookupUnique(fields: seq<Field>, i: nat)
    requires i < |fields| && DistinctKeys(Names(fields), Whole)
    ensures Lookup(fields, fields[i].key) == fields[i].value
  {
    assert Names(fields)[0] == fields[0].key && Names(fields)[i] == fields[i].key;
    if i > 0 {
      assert Whole(Names(fields)[0]) != Whole(Names(fields)[i]);
      assert Names(fields[1..]) == Names(fields)[1..];
      LookupUnique(fields[1..], i - 1);
    }
  }

  lemma KeysPresent(v: Json, keys: seq<string>)
    requires ExactKeys(v, keys) && DistinctKeys(keys, Whole)
    ensures forall i :: 0 <= i < |v.fields| ==> v.fields[i].key in keys && At(v, v.fields[i].key) == v.fields[i].value
    ensures forall k :: k in keys ==> exists i :: 0 <= i < |v.fields| && v.fields[i].key == k
  {
    DistinctByMultiset(keys, Names(v.fields), Whole);
    forall i | 0 <= i < |v.fields|
      ensures v.fields[i].key in keys && At(v, v.fields[i].key) == v.fields[i].value
    {
      assert Names(v.fields)[i] in multiset(Names(v.fields)) && Names(v.fields)[i] in multiset(keys);
      LookupUnique(v.fields, i);
    }
    forall k | k in keys
      ensures exists i :: 0 <= i < |v.fields| && v.fields[i].key == k
    {
      assert k in multiset(keys) && k in multiset(Names(v.fields));
      var i :| 0 <= i < |Names(v.fields)| && Names(v.fields)[i] == k;
    }
  }

  /** With exactly these plain keys, all that the command holds is under the keys that hold anything. */
  lemma HeldUnder(v: Json, keys: seq<string>, held: string)
    requires ExactKeys(v, keys) && DistinctKeys(keys, Whole) && held in keys
    requires forall k :: k in keys ==> !IsOperator(k)
    requires forall k :: k in keys && k != held ==> References(At(v, k)) == {} && OperatorNames(At(v, k)) == {}
    ensures References(v) == References(At(v, held)) && OperatorNames(v) == OperatorNames(At(v, held))
  {
    hide IsOperator, At;
    KeysPresent(v, keys);
    forall i | 0 <= i < |v.fields|
      ensures OperatorName(v.fields[i].key) == {} && v.fields[i].key != "$param"
      ensures v.fields[i].key != held ==> References(v.fields[i].value) == {} && OperatorNames(v.fields[i].value) == {}
    {
      assert v.fields[i].key in keys;
      NotParam(v.fields[i].key);
      PlainKey(v.fields[i].key);
    }
    var h :| 0 <= h < |v.fields| && v.fields[h].key == held;
    HeldAt(v, h);
  }

  lemma PlainKey(key: string)
    requires !IsOperator(key)
    ensures OperatorName(key) == {}
  {
  }

  lemma HeldAt(v: Json, h: nat)
    requires v.Obj? && h < |v.fields| && !IsToken(v)
    requires forall i :: 0 <= i < |v.fields| ==> OperatorName(v.fields[i].key) == {}
    requires forall i :: 0 <= i < |v.fields| && v.fields[i].value != v.fields[h].value ==>
               References(v.fields[i].value) == {} && OperatorNames(v.fields[i].value) == {}
    ensures References(v) == References(v.fields[h].value) && OperatorNames(v) == OperatorNames(v.fields[h].value)
  {
    hide OperatorName;
    assert forall i :: 0 <= i < |v.fields| ==> Children(v)[i] == v.fields[i].value;
    assert forall i :: 0 <= i < |v.fields| ==> NamesAt(v, i) == OperatorNames(v.fields[i].value);
    assert Children(v)[h] == v.fields[h].value;
    ReferencesHeld(v, h);
    NamesHeld(v, h);
  }

  lemma ReferencesHeld(v: Json, h: nat)
    requires h < |Children(v)| && !IsToken(v)
    requires forall i :: 0 <= i < |Children(v)| && Children(v)[i] != Children(v)[h] ==> References(Children(v)[i]) == {}
    ensures References(v) == References(Children(v)[h])
  {
    hide Children;
  }

  lemma NamesHeld(v: Json, h: nat)
    requires h < |Children(v)|
    requires forall i :: 0 <= i < |Children(v)| && Children(v)[i] != Children(v)[h] ==> NamesAt(v, i) == {}
    requires forall i :: 0 <= i < |Children(v)| && Children(v)[i] == Children(v)[h] ==>
               NamesAt(v, i) == OperatorNames(Children(v)[h])
    ensures OperatorNames(v) == OperatorNames(Children(v)[h])
  {
    hide Children, NamesAt;
    assert NamesAt(v, h) == OperatorNames(Children(v)[h]);
  }

  lemma TargetsHoldNothing(v: Json)
    requires TargetError(v) == None
    ensures forall k :: k in INTROSPECT_KEYS ==> References(At(v, k)) == {} && OperatorNames(At(v, k)) == {}
  {
    hide At;
    ScalarHoldsNothing(At(v, "kind"));
    ScalarHoldsNothing(At(v, "database"));
    ScalarHoldsNothing(At(v, "collection"));
  }

  function HeldKey(v: Json): string {
    if At(v, "kind") == Str("find") || At(v, "kind") == Str("explain") then "filter"
    else if At(v, "kind") == Str("aggregate") then "pipeline"
    else "kind"
  }

  lemma CommandKeys()
    ensures DistinctKeys(FIND_KEYS, Whole) && DistinctKeys(EXPLAIN_KEYS, Whole)
    ensures DistinctKeys(AGGREGATE_KEYS, Whole) && DistinctKeys(INTROSPECT_KEYS, Whole)
    ensures forall k :: k in EXPLAIN_KEYS || k in AGGREGATE_KEYS ==> !IsOperator(k)
    ensures FIND_KEYS + ["verbosity"] == EXPLAIN_KEYS
  {
    assert |"kind"| == 4 && |"database"| == 8 && |"collection"| == 10 && |"filter"| == 6 && |"projection"| == 10;
    assert |"sort"| == 4 && |"verbosity"| == 9 && |"pipeline"| == 8;
    assert "kind"[0] == 'k' && "database"[0] == 'd' && "collection"[0] == 'c' && "projection"[0] == 'p';
    assert "sort"[0] == 's' && "pipeline"[0] == 'p';
  }

  /** All parameters and operators of an accepted command are in its filter or its pipeline. */
  lemma BodyHolds(v: Json)
    requires TargetError(v) == None && BodyError(v) == None
    ensures References(v) == References(At(v, HeldKey(v))) && OperatorNames(v) == OperatorNames(At(v, HeldKey(v)))
  {
    hide At, ExactKeys, References, OperatorNames, FilterError, PipelineError, FlagsError, IsOperator;
    TargetsHoldNothing(v);
    CommandKeys();
    var kind := At(v, "kind");
    if kind == Str("find") || kind == Str("explain") {
      FlagsHoldNothing(At(v, "projection"), 128, {0, 1});
      FlagsHoldNothing(At(v, "sort"), 32, {1, -1});
      if kind == Str("find") {
        HeldUnder(v, FIND_KEYS, "filter");
      } else {
        ScalarHoldsNothing(At(v, "verbosity"));
        HeldUnder(v, EXPLAIN_KEYS, "filter");
      }
    } else if kind == Str("aggregate") {
      HeldUnder(v, AGGREGATE_KEYS, "pipeline");
    } else {
      HeldUnder(v, INTROSPECT_KEYS, "kind");
    }
  }

  method CommandBody(v: Json, state: Validator) returns (error: Option<string>)
    requires TargetError(v) == None
    modifies state
    ensures error == BodyError(v)
    ensures error.None? ==>
              state.Collected() == old(state.Collected()) + References(v) && state.functions == old(state.functions) + FunctionsOf(v)
  {
    hide At, ExactKeys, References, OperatorNames, FilterError, PipelineError, FlagsError;
    var kind := At(v, "kind");
    TargetsHoldNothing(v);
    error := BodyErrorOutside(v);
    if error.Some? {
      return;
    }
    if kind == Str("aggregate") {
      error := state.Pipeline(At(v, "pipeline"));
    } else if kind != Str("introspect") {
      error := state.Filter(At(v, "filter"), 0);
      if error.None? {
        error := ProjectionError(At(v, "projection"));
      }
      if error.None? {
        error := SortError(At(v, "sort"));
      }
      if error.None? && kind == Str("explain") {
        state.functions := state.functions + {"explain"};
      }
    }
    if error.None? {
      assert BodyError(v) == None;
      BodyHolds(v);
    }
  }

  /** The checks of a command's own keys, before its body is validated. */
  function BodyErrorOutside(v: Json): Option<string> {
    var kind := At(v, "kind");
    if kind == Str("find") then if ExactKeys(v, FIND_KEYS) then None else Some(INVALID)
    else if kind == Str("explain") then
      if ExactKeys(v, EXPLAIN_KEYS) && At(v, "verbosity") == Str("queryPlanner") then None else Some(INVALID)
    else if kind == Str("aggregate") then if ExactKeys(v, AGGREGATE_KEYS) then None else Some(INVALID)
    else if !ExactKeys(v, INTROSPECT_KEYS) then Some(INVALID)
    else if At(v, "collection") != Str(CATALOG) then Some("VES_MONGODB_COLLECTION_DENIED")
    else None
  }

  // ---- Reading a command ----

  lemma Member<T>(s: set<T>) returns (x: T)
    requires s != {}
    ensures x in s
  {
    x :| x in s;
  }

  lemma Last<T>(xs: seq<T>) returns (x: T)
    requires xs != []
    ensures x in xs && x == xs[|xs| - 1]
  {
    x := xs[|xs| - 1];
  }

  lemma {:induction false} SmallestExists(s: set<int>)
    requires s != {}
    ensures exists m :: m in s && forall x :: x in s ==> m <= x
    decreases s
  {
    var x := Member(s);
    var rest := s - {x};
    if rest != {} {
      SmallestExists(rest);
      var m :| m in rest && forall y :: y in rest ==> m <= y;
      var least := if x < m then x else m;
      forall y | y in s
        ensures least <= y
      {
        assert y == x || y in rest;
      }
      assert least in s;
    } else {
      assert forall y :: y in s ==> y == x || y in rest;
    }
  }

  /** `[...set].sort((a, b) => a - b)`. */
  method Ascending(s: set<int>) returns (xs: seq<int>)
    ensures forall i, j :: 0 <= i < j < |xs| ==> xs[i] < xs[j]
    ensures forall x :: x in xs <==> x in s
  {
    xs := [];
    var todo := s;
    while todo != {}
      invariant todo <= s
      invariant forall i, j :: 0 <= i < j < |xs| ==> xs[i] < xs[j]
      invariant forall x :: x in xs <==> x in s && x !in todo
      invariant forall x, y :: x in xs && y in todo ==> x < y
      decreases |todo|
    {
      SmallestExists(todo);
      var m :| m in todo && forall x :: x in todo ==> m <= x;
      assert forall i :: 0 <= i < |xs| ==> xs[i] in xs;
      xs := xs + [m];
      todo := todo - {m};
    }
  }

  /** In ascending order, entry i being i everywhere means the set is 0..n-1. */
  lemma AscendingIsCount(xs: seq<int>, s: set<int>, n: nat)
    requires forall i, j :: 0 <= i < j < |xs| ==> xs[i] < xs[j]
    requires forall x :: x in xs <==> x in s
    ensures |xs| == n && (forall i :: 0 <= i < |xs| ==> xs[i] == i) <==> s == FirstInts(n)
  {
    if |xs| == n && forall i :: 0 <= i < |xs| ==> xs[i] == i {
      forall x
        ensures x in s <==> 0 <= x < n
      {
        assert 0 <= x < n ==> xs[x] in xs;
      }
    }
    if s == FirstInts(n) {
      AscendingFills(xs, n);
    }
  }

  lemma {:induction false} AscendingFills(xs: seq<int>, n: nat)
    requires forall i, j :: 0 <= i < j < |xs| ==> xs[i] < xs[j]
    requires forall x :: x in xs <==> 0 <= x < n
    ensures |xs| == n && forall i :: 0 <= i < |xs| ==> xs[i] == i
    decreases n
  {
    if n > 0 {
      assert n - 1 in xs;
      var at :| 0 <= at < |xs| && xs[at] == n - 1;
      var last := Last(xs);
      assert at == |xs| - 1;
      var init := xs[..at];
      forall x
        ensures x in init <==> 0 <= x < n - 1
      {
        if 0 <= x < n - 1 {
          assert x in xs;
          var j :| 0 <= j < |xs| && xs[j] == x;
          assert init[j] == x;
        }
        if x in init {
          var j :| 0 <= j < |init| && init[j] == x;
          assert xs[j] < xs[at] && xs[j] in xs;
        }
      }
      AscendingFills(init, n - 1);
    } else if xs != [] {
      var last := Last(xs);
      assert false;
    }
  }

  lemma NumbersAreReferences(s: set<int>, n: nat)
    ensures (set i | i in s :: Number(i)) == FirstNumbers(n) <==> s == FirstInts(n)
  {
    var numbers := set i | i in s :: Number(i);
    assert forall i :: i in s <==> Number(i) in numbers;
    assert forall i :: 0 <= i < n <==> Number(i) in FirstNumbers(n);
    if numbers == FirstNumbers(n) {
      assert forall i :: i in s <==> 0 <= i < n;
    }
  }

  /** `[...set].sort(codeUnitCompare)`. */
  method SortedNames(s: set<string>) returns (xs: seq<string>)
    ensures StrictlySorted(xs, Whole) && forall x :: x in xs <==> x in s
  {
    hide Less;
    var entries: seq<string> := [];
    var todo := s;
    while todo != {}
      invariant todo <= s
      invariant DistinctKeys(entries, Whole)
      invariant forall x :: x in entries <==> x in s && x !in todo
      decreases |todo|
    {
      var x :| x in todo;
      entries := entries + [x];
      todo := todo - {x};
    }
    xs := SortBy(entries, Whole);
    SortStrict(entries, Whole);
    SortMembers(entries, Whole);
  }

  /** Validation with its own bookkeeping accepts exactly the commands whose parameters, found by the
      generic traversal the worker repeats, are 0..n-1. */
  method ParseReadOperation(v: Json, options: Options) returns (r: Result<Operation>)
    ensures ReadError(v, options).Some? ==> r == Err(ReadError(v, options).value)
    ensures ReadError(v, options).None? ==> r.Ok? && ReadsAs(v, options, r.value)
  {
    hide PreflightFrom, TargetError, OptionsError, BodyError, References, FunctionsOf, SortBy, FirstNumbers, At, Less;
    var preflight := new Preflight();
    var error := preflight.Check(v, 0);
    if error.Some? {
      return Err(error.value);
    }
    if !v.Obj? {
      return Err(INVALID);
    }
    if TargetError(v).Some? {
      return Err(TargetError(v).value);
    }
    if OptionsError(options).Some? {
      return Err(OptionsError(options).value);
    }
    var state := new Validator();
    assert state.Collected() == {};
    error := CommandBody(v, state);
    if error.Some? {
      return Err(error.value);
    }
    var n := |options.parameterClassifications|;
    var parameters := Ascending(state.parameters);
    AscendingIsCount(parameters, state.parameters, n);
    NumbersAreReferences(state.parameters, n);
    assert References(v) == state.Collected();
    if |parameters| != n || exists i :: 0 <= i < |parameters| && parameters[i] != i {
      return Err("VES_MONGODB_PARAMETERS_INVALID");
    }
    var functions := SortedNames(state.functions);
    assert At(v, "kind").Str? && At(v, "database").Str? && At(v, "collection").Str? by { TargetTexts(v); }
    var kind := if At(v, "kind") == Str("introspect") then "introspect" else "select";
    r := Ok(Operation(
      kind, 1, options.protectedRequestRef,
      [ObjectRef(At(v, "database").s, At(v, "collection").s, if kind == "introspect" then "catalog" else "table")],
      functions, SortBy(options.parameterClassifications, Whole)));
  }

  lemma TargetTexts(v: Json)
    requires TargetError(v) == None
    ensures At(v, "kind").Str? && At(v, "database").Str? && At(v, "collection").Str?
  {
  }
}
