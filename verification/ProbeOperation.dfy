/** The read operation that the planner approves and the worker checks again:
    its normal form, and why both sides agree on it. */
module ProbeOperation {
  import opened Results
  import opened CodeUnits
  import opened Text

  datatype ObjectRef = ObjectRef(schema: string, name: string, type': string)

  datatype Operation = Operation(
    kind: string,
    statementCount: int,
    protectedRequestRef: string,
    objects: seq<ObjectRef>,
    functions: seq<string>,
    parameterClassifications: seq<string>)

  const CLASSIFICATIONS: seq<string> := ["public", "internal", "confidential", "restricted", "secret"]
  const REF_PREFIX := "protected-request:"

  predicate IsIdentifier(s: string) {
    2 <= |s| <= 128 && IsLower(s[0]) && (IsLower(s[|s| - 1]) || IsDigit(s[|s| - 1])) &&
    Every(s, c => IsLower(c) || IsDigit(c) || c in "._-")
  }

  predicate IsProtectedRef(s: string) {
    |REF_PREFIX| + 16 <= |s| <= |REF_PREFIX| + 128 && REF_PREFIX <= s &&
    Every(s[|REF_PREFIX|..], c => IsLower(c) || IsDigit(c) || c == '-')
  }

  predicate IsObject(o: ObjectRef) {
    o.type' in ["table", "view", "catalog"] && IsIdentifier(o.schema) && IsIdentifier(o.name)
  }

  function ObjectName(o: ObjectRef): string { o.schema + "." + o.name }

  function TypedName(o: ObjectRef): string { o.schema + "." + o.name + "." + o.type' }

  function PositionOf(kept: seq<ObjectRef>, key: string): (at: nat)
    ensures at <= |kept|
    ensures at < |kept| ==> TypedName(kept[at]) == key
    ensures forall i :: 0 <= i < at ==> TypedName(kept[i]) != key
  {
    if kept == [] || TypedName(kept[0]) == key then 0 else 1 + PositionOf(kept[1..], key)
  }

  /** `Map.set`: a known typed name keeps its place. */
  function SetObject(kept: seq<ObjectRef>, o: ObjectRef): seq<ObjectRef> {
    var at := PositionOf(kept, TypedName(o));
    if at < |kept| then kept[at := o] else kept + [o]
  }

  /** The values of the object map after setting each object under its typed name, in insertion order. */
  function Keyed(objects: seq<ObjectRef>): seq<ObjectRef> {
    if objects == [] then []
    else SetObject(Keyed(objects[..|objects| - 1]), objects[|objects| - 1])
  }

  /** `[...new Set(values)]`. */
  function Unique(xs: seq<string>): seq<string> {
    if xs == [] then []
    else
      var kept := Unique(xs[..|xs| - 1]);
      if xs[|xs| - 1] in kept then kept else kept + [xs[|xs| - 1]]
  }

  function LowerAll(xs: seq<string>): seq<string> {
    seq(|xs|, i requires 0 <= i < |xs| => Lower(xs[i]))
  }

  /** The checks in the order the program makes them. */
  function OperationError(op: Operation): Option<string> {
    if op.kind != "select" && op.kind != "introspect" then Some("VES_PROBE_WRITE_DENIED")
    else if op.statementCount != 1 then Some("VES_PROBE_MULTI_STATEMENT_DENIED")
    else if !IsProtectedRef(op.protectedRequestRef) || op.objects == [] || |op.objects| > 128
      || (exists o :: o in op.objects && !IsObject(o))
      || |op.parameterClassifications| > 256 || (exists c :: c in op.parameterClassifications && c !in CLASSIFICATIONS)
      || |op.functions| > 256 || (exists f :: f in op.functions && !IsIdentifier(Lower(f)))
    then Some("VES_PROBE_OPERATION_INVALID")
    else None
  }

  /** When the planner accepts an operation. */
  predicate Acceptable(op: Operation) {
    && (op.kind == "select" || op.kind == "introspect") && op.statementCount == 1
    && IsProtectedRef(op.protectedRequestRef)
    && 0 < |op.objects| <= 128 && (forall o :: o in op.objects ==> IsObject(o))
    && |op.parameterClassifications| <= 256
    && (forall c :: c in op.parameterClassifications ==> c in CLASSIFICATIONS)
    && |op.functions| <= 256 && (forall f :: f in op.functions ==> IsIdentifier(Lower(f)))
  }

  lemma AcceptableIff(op: Operation)
    ensures OperationError(op).None? <==> Acceptable(op)
  {
    hide IsProtectedRef, IsObject, IsIdentifier, Lower;
  }

  function Normal(op: Operation): Operation {
    op.(objects := SortBy(Keyed(op.objects), TypedName),
        functions := Unique(SortBy(LowerAll(op.functions), Whole)),
        parameterClassifications := SortBy(op.parameterClassifications, Whole))
  }

  lemma KeyedNext(objects: seq<ObjectRef>, i: nat)
    requires i < |objects|
    ensures Keyed(objects[..i + 1]) == SetObject(Keyed(objects[..i]), objects[i])
  {
    assert objects[..i + 1][..i] == objects[..i];
  }

  lemma KeyedNone()
    ensures Keyed([]) == []
  {
  }

  method KeyObjects(objects: seq<ObjectRef>) returns (r: Option<seq<ObjectRef>>)
    ensures r == if exists o :: o in objects && !IsObject(o) then None else Some(Keyed(objects))
  {
    hide IsObject, TypedName, Keyed;
    assert Keyed([]) == [] by { KeyedNone(); }
    var kept: seq<ObjectRef> := [];
    for i := 0 to |objects|
      invariant kept == Keyed(objects[..i])
      invariant forall j :: 0 <= j < i ==> IsObject(objects[j])
    {
      if !IsObject(objects[i]) {
        return None;
      }
      KeyedNext(objects, i);
      var at := PositionOf(kept, TypedName(objects[i]));
      kept := if at < |kept| then kept[at := objects[i]] else kept + [objects[i]];
    }
    assert objects[..|objects|] == objects;
    r := Some(kept);
  }

  method NormalizeOperation(op: Operation) returns (r: Result<Operation>)
    ensures r == match OperationError(op) case Some(code) => Err(code) case None => Ok(Normal(op))
  {
    hide SortBy, IsIdentifier, IsProtectedRef, IsObject, Keyed, Unique, LowerAll;
    if op.kind != "select" && op.kind != "introspect" {
      return Err("VES_PROBE_WRITE_DENIED");
    }
    if op.statementCount != 1 {
      return Err("VES_PROBE_MULTI_STATEMENT_DENIED");
    }
    if !IsProtectedRef(op.protectedRequestRef) || op.objects == [] || |op.objects| > 128 {
      return Err("VES_PROBE_OPERATION_INVALID");
    }
    var objects := KeyObjects(op.objects);
    if objects.None? {
      return Err("VES_PROBE_OPERATION_INVALID");
    }
    if |op.parameterClassifications| > 256 || exists c :: c in op.parameterClassifications && c !in CLASSIFICATIONS {
      return Err("VES_PROBE_OPERATION_INVALID");
    }
    if |op.functions| > 256 || exists f :: f in op.functions && !IsIdentifier(Lower(f)) {
      return Err("VES_PROBE_OPERATION_INVALID");
    }
    r := Ok(op.(objects := SortBy(objects.value, TypedName),
                functions := Unique(SortBy(LowerAll(op.functions), Whole)),
                parameterClassifications := SortBy(op.parameterClassifications, Whole)));
  }

  // ---- The normal form ----

  /** Objects once each in typed-name order, functions once each in lower case, classifications sorted. */
  ghost predicate IsNormal(op: Operation) {
    && StrictlySorted(op.objects, TypedName)
    && StrictlySorted(op.functions, Whole) && LowerAll(op.functions) == op.functions
    && Sorted(op.parameterClassifications, Whole)
  }

  lemma {:induction false} KeyedHolds(objects: seq<ObjectRef>)
    ensures DistinctKeys(Keyed(objects), TypedName)
    ensures DistinctKeys(objects, TypedName) ==> Keyed(objects) == objects
    ensures forall o :: o in Keyed(objects) ==> o in objects
    ensures |Keyed(objects)| <= |objects|
    ensures objects != [] ==> Keyed(objects) != []
    decreases |objects|
  {
    hide TypedName;
    if objects != [] {
      var init, last := objects[..|objects| - 1], objects[|objects| - 1];
      KeyedHolds(init);
      assert objects == init + [last];
      assert forall i :: 0 <= i < |init| ==> objects[i] == init[i];
    }
  }

  lemma {:induction false} UniqueMembers(xs: seq<string>)
    ensures forall x :: x in Unique(xs) <==> x in xs
    decreases |xs|
  {
    if xs != [] {
      UniqueMembers(xs[..|xs| - 1]);
      assert xs == xs[..|xs| - 1] + [xs[|xs| - 1]];
    }
  }

  lemma {:induction false} UniqueOfSorted(xs: seq<string>)
    requires Sorted(xs, Whole)
    ensures StrictlySorted(Unique(xs), Whole)
    decreases |xs|
  {
    hide Less;
    if xs != [] {
      var init, last := xs[..|xs| - 1], xs[|xs| - 1];
      UniqueOfSorted(init);
      UniqueMembers(init);
      forall i | 0 <= i < |Unique(init)| && last !in Unique(init)
        ensures Less(Unique(init)[i], last)
      {
        var x := Unique(init)[i];
        assert x in Unique(init);
        var j :| 0 <= j < |init| && init[j] == x;
        assert !Less(Whole(xs[|xs| - 1]), Whole(xs[j]));
        LessTotal(x, last);
      }
    }
  }

  lemma {:induction false} UniqueOfStrict(xs: seq<string>)
    requires StrictlySorted(xs, Whole)
    ensures Unique(xs) == xs
    decreases |xs|
  {
    hide Less;
    if xs != [] {
      var init, last := xs[..|xs| - 1], xs[|xs| - 1];
      UniqueOfStrict(init);
      assert xs == init + [last];
      if last in init {
        var j :| 0 <= j < |init| && init[j] == last;
        assert Less(Whole(xs[j]), Whole(xs[|xs| - 1]));
        LessIrreflexive(last);
      }
    }
  }

  lemma StrictIsDistinct<T>(xs: seq<T>, key: T -> string)
    requires StrictlySorted(xs, key)
    ensures DistinctKeys(xs, key) && Sorted(xs, key)
  {
    forall i, j | 0 <= i < j < |xs|
      ensures key(xs[i]) != key(xs[j]) && !Less(key(xs[j]), key(xs[i]))
    {
      LessIrreflexive(key(xs[i]));
      LessAsymmetric(key(xs[i]), key(xs[j]));
    }
  }

  /** Whatever is accepted becomes normal. */
  lemma NormalIsNormal(op: Operation)
    ensures IsNormal(Normal(op))
  {
    hide Less, SortBy, TypedName, Keyed, Unique;
    KeyedHolds(op.objects);
    SortStrict(Keyed(op.objects), TypedName);
    var lowered := LowerAll(op.functions);
    SortSorted(lowered, Whole);
    SortMembers(lowered, Whole);
    UniqueMembers(SortBy(lowered, Whole));
    UniqueOfSorted(SortBy(lowered, Whole));
    var functions := Unique(SortBy(lowered, Whole));
    forall i | 0 <= i < |functions|
      ensures Lower(functions[i]) == functions[i]
    {
      assert functions[i] in SortBy(lowered, Whole);
      var j :| 0 <= j < |lowered| && lowered[j] == functions[i];
    }
    assert LowerAll(functions) == functions;
    SortSorted(op.parameterClassifications, Whole);
  }

  /** Normalization is the identity on a normal operation. */
  lemma NormalIsFixed(op: Operation)
    requires IsNormal(op)
    ensures Normal(op) == op
  {
    hide Less, SortBy, TypedName, Keyed, Unique;
    StrictIsDistinct(op.objects, TypedName);
    KeyedHolds(op.objects);
    SortFixed(op.objects, TypedName);
    SortFixed(op.functions, Whole);
    UniqueOfStrict(op.functions);
    SortSortedFixed(op.parameterClassifications, Whole);
  }

  /** The last object with a typed name is the one that stays under it. */
  ghost predicate LastOfName(objects: seq<ObjectRef>, o: ObjectRef) {
    exists i :: 0 <= i < |objects| && objects[i] == o
                && forall j :: i < j < |objects| ==> TypedName(objects[j]) != TypedName(o)
  }

  lemma {:induction false} KeyedIsLast(objects: seq<ObjectRef>)
    ensures forall o :: o in Keyed(objects) <==> LastOfName(objects, o)
    decreases |objects|
  {
    hide TypedName;
    if objects != [] {
      var init, last := objects[..|objects| - 1], objects[|objects| - 1];
      KeyedIsLast(init);
      KeyedHolds(init);
      KeyedStep(objects);
      forall o
        ensures LastOfName(objects, o) <==> o == last || (LastOfName(init, o) && TypedName(o) != TypedName(last))
      {
        LastStep(objects, o);
      }
    }
  }

  lemma KeyedStep(objects: seq<ObjectRef>)
    requires objects != [] && DistinctKeys(Keyed(objects[..|objects| - 1]), TypedName)
    ensures var init, last := objects[..|objects| - 1], objects[|objects| - 1];
            forall o :: o in Keyed(objects) <==> o == last || (o in Keyed(init) && TypedName(o) != TypedName(last))
  {
    var init, last := objects[..|objects| - 1], objects[|objects| - 1];
    SetByName(Keyed(init), last);
  }

  lemma SetByName(kept: seq<ObjectRef>, last: ObjectRef)
    requires DistinctKeys(kept, TypedName)
    ensures forall o :: o in SetObject(kept, last) <==> o == last || (o in kept && TypedName(o) != TypedName(last))
  {
    hide TypedName;
    var at := PositionOf(kept, TypedName(last));
    var set' := SetObject(kept, last);
    assert set'[at] == last;
    forall o | o in kept && TypedName(o) != TypedName(last)
      ensures o in set'
    {
      var i :| 0 <= i < |kept| && kept[i] == o;
      assert set'[i] == o;
    }
    forall o | o in set' && o != last
      ensures o in kept && TypedName(o) != TypedName(last)
    {
      var i :| 0 <= i < |set'| && set'[i] == o;
      assert i != at && kept[i] == o;
    }
  }

  lemma LastStep(objects: seq<ObjectRef>, o: ObjectRef)
    requires objects != []
    ensures var init, last := objects[..|objects| - 1], objects[|objects| - 1];
            LastOfName(objects, o) <==> o == last || (LastOfName(init, o) && TypedName(o) != TypedName(last))
  {
    hide TypedName, LastOfName;
    var init, last := objects[..|objects| - 1], objects[|objects| - 1];
    if LastOfName(objects, o) && o != last {
      LastBefore(objects, o);
    }
    if o == last || (LastOfName(init, o) && TypedName(o) != TypedName(last)) {
      LastAfter(objects, o);
    }
  }

  lemma LastBefore(objects: seq<ObjectRef>, o: ObjectRef)
    requires LastOfName(objects, o) && o != objects[|objects| - 1]
    ensures LastOfName(objects[..|objects| - 1], o) && TypedName(o) != TypedName(objects[|objects| - 1])
  {
    hide TypedName;
    var i :| 0 <= i < |objects| && objects[i] == o
             && forall j :: i < j < |objects| ==> TypedName(objects[j]) != TypedName(o);
    assert objects[..|objects| - 1][i] == o;
  }

  lemma LastAfter(objects: seq<ObjectRef>, o: ObjectRef)
    requires objects != []
    requires var init, last := objects[..|objects| - 1], objects[|objects| - 1];
             o == last || (LastOfName(init, o) && TypedName(o) != TypedName(last))
    ensures LastOfName(objects, o)
  {
    hide TypedName;
    var init, last := objects[..|objects| - 1], objects[|objects| - 1];
    if o == last {
      assert objects[|objects| - 1] == o;
    } else {
      var i :| 0 <= i < |init| && init[i] == o && forall j :: i < j < |init| ==> TypedName(init[j]) != TypedName(o);
      forall j | i < j < |objects|
        ensures TypedName(objects[j]) != TypedName(o)
      {
        if j < |init| {
          assert init[j] == objects[j];
        }
      }
      assert objects[i] == o;
    }
  }

  /** What normalizing keeps: of the objects the last of each typed name, of the functions every lower-cased
      one, of the classifications every one as often as it was given, and the rest as it was. */
  lemma NormalKeeps(op: Operation)
    ensures forall o :: o in Normal(op).objects <==> LastOfName(op.objects, o)
    ensures forall f :: f in Normal(op).functions <==> exists g :: g in op.functions && Lower(g) == f
    ensures multiset(Normal(op).parameterClassifications) == multiset(op.parameterClassifications)
    ensures Normal(op).kind == op.kind && Normal(op).statementCount == op.statementCount
    ensures Normal(op).protectedRequestRef == op.protectedRequestRef
  {
    hide SortBy, TypedName, Keyed, Unique, Lower, LastOfName;
    KeyedIsLast(op.objects);
    SortMembers(Keyed(op.objects), TypedName);
    SortMembers(LowerAll(op.functions), Whole);
    UniqueMembers(SortBy(LowerAll(op.functions), Whole));
    LowerMembers(op.functions);
    SortMultiset(op.parameterClassifications, Whole);
  }

  lemma LowerMembers(xs: seq<string>)
    ensures forall f :: f in LowerAll(xs) <==> exists g :: g in xs && Lower(g) == f
  {
    hide Lower;
    forall g | g in xs
      ensures Lower(g) in LowerAll(xs)
    {
      var i :| 0 <= i < |xs| && xs[i] == g;
      assert LowerAll(xs)[i] == Lower(g);
    }
  }

  /** So no object is lost exactly when different objects have different typed names. */
  lemma NoObjectIsLostIff(op: Operation)
    ensures (forall o :: o in op.objects ==> o in Normal(op).objects) <==>
              forall a, b :: a in op.objects && b in op.objects && TypedName(a) == TypedName(b) ==> a == b
  {
    hide SortBy, TypedName, Normal;
    NormalKeeps(op);
    NormalIsNormal(op);
    hide Less;
    if forall o :: o in op.objects ==> o in Normal(op).objects {
      NormalNamesDiffer(op);
    }
    if forall a, b :: a in op.objects && b in op.objects && TypedName(a) == TypedName(b) ==> a == b {
      forall o | o in op.objects
        ensures o in Normal(op).objects
      {
        SomeIsLast(op.objects, o);
      }
    }
  }

  lemma NormalNamesDiffer(op: Operation)
    ensures forall a, b :: a in Normal(op).objects && b in Normal(op).objects && TypedName(a) == TypedName(b) ==> a == b
  {
    hide SortBy, TypedName, Normal, Less;
    NormalIsNormal(op);
    var objects := Normal(op).objects;
    StrictIsDistinct(objects, TypedName);
    forall a, b | a in objects && b in objects && TypedName(a) == TypedName(b)
      ensures a == b
    {
      DistinctMember(objects, TypedName, a, b);
    }
  }

  lemma {:induction false} SomeIsLast(objects: seq<ObjectRef>, o: ObjectRef)
    requires o in objects && forall p :: p in objects && TypedName(p) == TypedName(o) ==> p == o
    ensures LastOfName(objects, o)
    decreases |objects|
  {
    hide TypedName;
    LastStep(objects, o);
    var init, last := objects[..|objects| - 1], objects[|objects| - 1];
    assert objects == init + [last];
    if last != o {
      SomeIsLast(init, o);
    }
  }

  /** An identifier may hold the dot that joins the names, so two acceptable objects can share a typed
      name, and then the planner plans the second of them alone. */
  lemma DottedNamesCollide()
    ensures var a, b := ObjectRef("aa.bb", "cc", "table"), ObjectRef("aa", "bb.cc", "table");
            && a != b && IsObject(a) && IsObject(b) && TypedName(a) == TypedName(b)
            && forall op: Operation :: op.objects == [a, b] ==> Normal(op).objects == [b]
  {
    var a, b := ObjectRef("aa.bb", "cc", "table"), ObjectRef("aa", "bb.cc", "table");
    assert |a.schema| == 5 && |b.schema| == 2;
    assert TypedName(a) == "aa.bb.cc.table" == TypedName(b);
    hide TypedName, Keyed, SortBy;
    SecondStays(a, b);
  }

  lemma SecondStays(a: ObjectRef, b: ObjectRef)
    requires TypedName(a) == TypedName(b)
    ensures SortBy(Keyed([a, b]), TypedName) == [b]
  {
    hide TypedName;
    assert [a, b][..1] == [a] && [a][..0] == [];
    assert Keyed([]) == [] && Keyed([a]) == [a];
    assert Keyed([a, b]) == [b];
    assert [b][1..] == [];
  }

  // ---- Two sort keys, one order ----

  /** Text whose characters all come after the dot that joins names. */
  predicate AboveDot(s: string) { Every(s, c => '.' < c) }

  /** Ordered by `schema.name`, objects are also ordered by `schema.name.type`: the parsers sort by
      the first key and the planner by the second. */
  lemma TwoKeysOneOrder(objects: seq<ObjectRef>)
    requires StrictlySorted(objects, ObjectName)
    requires forall o :: o in objects ==> AboveDot(o.schema) && AboveDot(o.name)
    ensures StrictlySorted(objects, TypedName)
  {
    forall i, j | 0 <= i < j < |objects|
      ensures Less(TypedName(objects[i]), TypedName(objects[j]))
    {
      var a, b := objects[i], objects[j];
      assert Less(ObjectName(a), ObjectName(b));
      OneOrder(a, b);
    }
  }

  lemma OneOrder(a: ObjectRef, b: ObjectRef)
    requires AboveDot(a.schema) && AboveDot(a.name) && AboveDot(b.schema) && AboveDot(b.name)
    requires Less(ObjectName(a), ObjectName(b))
    ensures Less(TypedName(a), TypedName(b))
  {
    hide Less;
    LessJoined('.', a.schema, a.name, b.schema, b.name);
    LessJoined('.', a.schema, a.name + ['.'] + a.type', b.schema, b.name + ['.'] + b.type');
    LessJoined('.', a.name, a.type', b.name, b.type');
    assert TypedName(a) == a.schema + ['.'] + (a.name + ['.'] + a.type');
    assert TypedName(b) == b.schema + ['.'] + (b.name + ['.'] + b.type');
  }

  /** The condition is needed: the planner accepts a name that continues another with a character before
      the dot, and orders the two differently from `schema.name`. No parser emits such a pair: an SQL name
      has no hyphen, and a MongoDB command names one object. */
  lemma TwoKeysCanDisagree()
    ensures var a, b := ObjectRef("ss", "ab", "table"), ObjectRef("ss", "ab-cd", "table");
            && IsObject(a) && IsObject(b)
            && Less(ObjectName(a), ObjectName(b)) && Less(TypedName(b), TypedName(a))
  {
    LessPrefix("ss.ab", "", "-cd");
    LessPrefix("ss.ab", "-cd.table", ".table");
    assert "ss" + "." + "ab" == "ss.ab" + "";
    assert "ss" + "." + "ab-cd" == "ss.ab" + "-cd";
    assert "ss" + "." + "ab" + "." + "table" == "ss.ab" + ".table";
    assert "ss" + "." + "ab-cd" + "." + "table" == "ss.ab" + "-cd.table";
  }
}
