/** Binding the protected parameters into an accepted command: total on what the
    parser accepts, exact, and never a second pass over what was inserted. */
module MongoDbBinding {
  import opened Results
  import opened CodeUnits
  import opened ProbeOperation
  import opened MongoDbCommand
  import opened MongoDbProbe

  /** Every operand found in the value is an index below the number of parameters. */
  predicate Bindable(v: Json, parameters: nat) {
    forall t :: t in References(v) ==> t.Number? && 0 <= t.n < parameters
  }

  lemma ChildBindable(v: Json, i: nat, parameters: nat)
    requires Bindable(v, parameters) && !IsToken(v) && i < |Children(v)|
    ensures Bindable(Children(v)[i], parameters)
  {
    hide Children;
    assert forall t :: t in References(Children(v)[i]) ==> t in References(v);
  }

  /** The same value with other children. */
  function WithChildren(v: Json, cs: seq<Json>): (r: Json)
    requires |cs| == |Children(v)|
    ensures Children(r) == cs
    ensures forall i :: KeyAt(r, i) == KeyAt(v, i)
    ensures cs == Children(v) ==> r == v
  {
    match v
    case Arr(_) => Arr(cs)
    case Obj(fields) => Obj(seq(|fields|, i requires 0 <= i < |fields| => Field(fields[i].key, cs[i])))
    case _ => v
  }

  function Bind(v: Json, parameters: seq<Json>): Json
    requires Bindable(v, |parameters|)
  {
    if IsToken(v) then parameters[v.fields[0].value.n]
    else
      WithChildren(v, seq(|Children(v)|, i requires 0 <= i < |Children(v)| =>
        ChildBindable(v, i, |parameters|);
        Bind(Children(v)[i], parameters)))
  }

  function Token(n: nat): Json { Obj([Field("$param", Number(n))]) }

  function Tokens(n: nat): seq<Json> { seq(n, i requires 0 <= i < n => Token(i)) }

  lemma TokenReferences(v: Json)
    requires IsToken(v)
    ensures References(v) == {v.fields[0].value}
  {
  }

  /** The worker's traversal of the whole command. */
  class ReferenceCollector {
    var found: set<Json>

    constructor ()
      ensures found == {}
    {
      found := {};
    }

    method Collect(v: Json)
      modifies this
      ensures found == old(found) + References(v)
      decreases v
    {
      hide References, ReferencesUpTo, NamesUpTo, NamesAt;
      if IsToken(v) {
        TokenReferences(v);
        found := found + {v.fields[0].value};
        return;
      }
      UpToNone(v);
      for i := 0 to |Children(v)|
        invariant found == old(found) + ReferencesUpTo(v, i)
      {
        Collect(Children(v)[i]);
        UpToNext(v, i);
      }
      UpToAll(v);
    }
  }

  // ---- Binding is substitution ----

  lemma BoundChild(v: Json, parameters: seq<Json>, i: nat)
    requires Bindable(v, |parameters|) && !IsToken(v) && i < |Children(v)|
    ensures Bindable(Children(v)[i], |parameters|)
    ensures |Children(Bind(v, parameters))| == |Children(v)|
    ensures Children(Bind(v, parameters))[i] == Bind(Children(v)[i], parameters)
    ensures KeyAt(Bind(v, parameters), i) == KeyAt(v, i)
    ensures !IsToken(Bind(v, parameters))
  {
    ChildBindable(v, i, |parameters|);
    StillNoToken(v, Bind(v, parameters));
  }

  lemma BoundLeaf(v: Json, parameters: seq<Json>)
    requires Bindable(v, |parameters|) && !IsToken(v) && Children(v) == []
    ensures Bind(v, parameters) == v
  {
  }

  lemma StillNoToken(v: Json, r: Json)
    requires |Children(r)| == |Children(v)| && (v.Obj? <==> r.Obj?) && forall i :: KeyAt(r, i) == KeyAt(v, i)
    ensures IsToken(r) == IsToken(v)
  {
    assert KeyAt(r, 0) == KeyAt(v, 0);
    assert v.Obj? ==> |v.fields| == |Children(v)| && |r.fields| == |Children(r)|;
  }

  /** A value without tokens is left as it is, whatever it contains. */
  lemma {:induction false} BindsOnlyTokens(v: Json, parameters: seq<Json>)
    requires References(v) == {}
    ensures Bindable(v, |parameters|) && Bind(v, parameters) == v
    decreases v
  {
    assert !IsToken(v);
    forall i | 0 <= i < |Children(v)|
      ensures Bindable(Children(v)[i], |parameters|) && Bind(Children(v)[i], parameters) == Children(v)[i]
    {
      assert forall t :: t in References(Children(v)[i]) ==> t in References(v);
      BindsOnlyTokens(Children(v)[i], parameters);
    }
    assert seq(|Children(v)|, i requires 0 <= i < |Children(v)| => Bind(Children(v)[i], parameters)) == Children(v);
  }

  /** Binding each token to itself changes nothing. */
  lemma {:induction false} BindTokensIsIdentity(v: Json, n: nat)
    requires Bindable(v, n)
    ensures Bind(v, Tokens(n)) == v
    decreases v
  {
    if IsToken(v) {
      var t := v.fields[0];
      assert t.value in References(v);
      assert t == Field("$param", Number(t.value.n));
      assert v == Obj([t]);
    } else {
      forall i | 0 <= i < |Children(v)|
        ensures Bindable(Children(v)[i], n) && Bind(Children(v)[i], Tokens(n)) == Children(v)[i]
      {
        ChildBindable(v, i, n);
        BindTokensIsIdentity(Children(v)[i], n);
      }
      assert seq(|Children(v)|, i requires 0 <= i < |Children(v)| => Bind(Children(v)[i], Tokens(n))) == Children(v);
    }
  }

  /** What the parameters named by these operands bring with them. */
  function Inserted(operands: set<Json>, parameters: seq<Json>): set<Json> {
    set r, t | r in operands && r.Number? && 0 <= r.n < |parameters| && t in References(parameters[r.n]) :: t
  }

  /** The tokens of a bound command are exactly those the inserted parameters bring with them: every
      token of the command is gone, and nothing inserted was bound in turn. */
  lemma {:induction false} BoundReferences(v: Json, parameters: seq<Json>)
    requires Bindable(v, |parameters|)
    ensures References(Bind(v, parameters)) == Inserted(References(v), parameters)
    decreases v
  {
    var bound := Bind(v, parameters);
    if IsToken(v) {
      assert References(v) == {v.fields[0].value};
      assert v.fields[0].value in References(v);
    } else if Children(v) == [] {
      BoundLeaf(v, parameters);
    } else {
      forall i | 0 <= i < |Children(v)|
        ensures |Children(bound)| == |Children(v)|
        ensures References(Children(bound)[i]) == Inserted(References(Children(v)[i]), parameters)
      {
        BoundChild(v, parameters, i);
        BoundReferences(Children(v)[i], parameters);
      }
      BoundChild(v, parameters, 0);
      InsertedByChildren(v, bound, parameters);
    }
  }

  lemma ReferencesOfNode(v: Json)
    requires !IsToken(v)
    ensures forall t :: t in References(v) <==> exists i :: 0 <= i < |Children(v)| && t in References(Children(v)[i])
  {
    hide Children, IsToken;
  }

  lemma InsertedFromChild(v: Json, parameters: seq<Json>, i: nat, t: Json)
    requires !IsToken(v) && i < |Children(v)| && t in Inserted(References(Children(v)[i]), parameters)
    ensures t in Inserted(References(v), parameters)
  {
    ReferencesOfNode(v);
    hide Children, IsToken, References;
    var r :| r in References(Children(v)[i]) && r.Number? && 0 <= r.n < |parameters| && t in References(parameters[r.n]);
    assert r in References(v);
  }

  lemma InsertedBySomeChild(v: Json, parameters: seq<Json>, t: Json) returns (i: nat)
    requires !IsToken(v) && t in Inserted(References(v), parameters)
    ensures i < |Children(v)| && t in Inserted(References(Children(v)[i]), parameters)
  {
    ReferencesOfNode(v);
    hide Children, IsToken, References;
    var r :| r in References(v) && r.Number? && 0 <= r.n < |parameters| && t in References(parameters[r.n]);
    i :| 0 <= i < |Children(v)| && r in References(Children(v)[i]);
  }

  lemma InsertedByChildren(v: Json, bound: Json, parameters: seq<Json>)
    requires !IsToken(v) && !IsToken(bound) && |Children(bound)| == |Children(v)|
    requires forall i :: 0 <= i < |Children(v)| ==>
               References(Children(bound)[i]) == Inserted(References(Children(v)[i]), parameters)
    ensures References(bound) == Inserted(References(v), parameters)
  {
    ReferencesOfNode(bound);
    hide Children, IsToken, References, Inserted;
    forall t | t in References(bound)
      ensures t in Inserted(References(v), parameters)
    {
      var i :| 0 <= i < |Children(bound)| && t in References(Children(bound)[i]);
      InsertedFromChild(v, parameters, i, t);
    }
    forall t | t in Inserted(References(v), parameters)
      ensures t in References(bound)
    {
      var i := InsertedBySomeChild(v, parameters, t);
    }
  }

  lemma BoundIsBindable(v: Json, first: seq<Json>, n: nat)
    requires Bindable(v, |first|) && forall p :: p in first ==> Bindable(p, n)
    ensures Bindable(Bind(v, first), n)
  {
    hide Bind, References;
    BoundReferences(v, first);
    forall t | t in References(Bind(v, first))
      ensures t.Number? && 0 <= t.n < n
    {
      var r :| r in References(v) && r.Number? && 0 <= r.n < |first| && t in References(first[r.n]);
      assert first[r.n] in first;
    }
  }

  /** Substitutions compose: binding twice is binding once with bound parameters. */
  lemma {:induction false} BindComposes(v: Json, first: seq<Json>, second: seq<Json>)
    requires Bindable(v, |first|) && forall p :: p in first ==> Bindable(p, |second|)
    ensures Bindable(Bind(v, first), |second|)
    ensures Bind(Bind(v, first), second) ==
              Bind(v, seq(|first|, i requires 0 <= i < |first| => assert first[i] in first; Bind(first[i], second)))
    decreases v, 1
  {
    var both := seq(|first|, i requires 0 <= i < |first| => assert first[i] in first; Bind(first[i], second));
    BoundIsBindable(v, first, |second|);
    if IsToken(v) {
      assert v.fields[0].value in References(v);
    } else if Children(v) == [] {
      BoundLeaf(v, first);
      BoundLeaf(v, second);
      BoundLeaf(v, both);
    } else {
      ComposedChildren(v, first, second, both);
    }
  }

  lemma {:induction false} ComposedChildren(v: Json, first: seq<Json>, second: seq<Json>, both: seq<Json>)
    requires Bindable(v, |first|) && (forall p :: p in first ==> Bindable(p, |second|)) && !IsToken(v)
    requires Bindable(Bind(v, first), |second|)
    requires both == seq(|first|, i requires 0 <= i < |first| => assert first[i] in first; Bind(first[i], second))
    ensures Bind(Bind(v, first), second) == Bind(v, both)
    decreases v, 0
  {
    var once := Bind(v, first);
    forall i | 0 <= i < |Children(v)|
      ensures |Children(once)| == |Children(v)| == |Children(Bind(once, second))| == |Children(Bind(v, both))|
      ensures Children(Bind(once, second))[i] == Children(Bind(v, both))[i]
    {
      BoundChild(v, first, i);
      BoundChild(v, both, i);
      BoundChild(once, second, i);
      BindComposes(Children(v)[i], first, second);
    }
  }

  // ---- Denied keys ----

  /** Once the command is clean, the bound command is clean exactly when every parameter it inserts is. */
  lemma {:induction false} BoundIsCleanIff(v: Json, parameters: seq<Json>)
    requires Bindable(v, |parameters|) && Clean(v)
    ensures Clean(Bind(v, parameters)) <==> forall t :: t in References(v) ==> Clean(parameters[t.n])
    decreases v
  {
    var bound := Bind(v, parameters);
    if IsToken(v) {
      assert References(v) == {v.fields[0].value};
    } else if Children(v) == [] {
      BoundLeaf(v, parameters);
    } else {
      forall i | 0 <= i < |Children(v)|
        ensures |Children(bound)| == |Children(v)| && KeyAt(bound, i) == KeyAt(v, i)
        ensures Bindable(Children(v)[i], |parameters|)
        ensures Clean(Children(bound)[i]) <==> forall t :: t in References(Children(v)[i]) ==> Clean(parameters[t.n])
      {
        BoundChild(v, parameters, i);
        BoundIsCleanIff(Children(v)[i], parameters);
      }
      BoundChild(v, parameters, 0);
      CleanByChildren(v, bound, parameters);
    }
  }

  /** What the worker lets a protected parameter be: no object, but any array. */
  predicate IsParameter(p: Json) { !p.Obj? }

  predicate IsScalar(p: Json) { !p.Obj? && !p.Arr? }

  predicate ParametersDecode(parameters: seq<Json>) { |parameters| <= 64 && forall p :: p in parameters ==> IsParameter(p) }

  lemma ScalarIsClean(p: Json)
    requires IsScalar(p)
    ensures Clean(p)
  {
    assert Children(p) == [];
  }

  /** Scalar parameters always bind clean. */
  lemma ScalarsBindClean(v: Json, parameters: seq<Json>)
    requires Bindable(v, |parameters|) && Clean(v)
    requires forall p :: p in parameters ==> IsScalar(p)
    ensures Clean(Bind(v, parameters))
  {
    hide Bind, References, Clean, IsScalar;
    BoundIsCleanIff(v, parameters);
    forall t | t in References(v)
      ensures Clean(parameters[t.n])
    {
      ScalarIsClean(parameters[t.n]);
    }
  }

  /** An array that the worker accepts as a parameter and that holds a denied key. */
  const DENIED_PARAMETER := Arr([Obj([Field("$where", Str("1"))])])

  lemma DeniedParameter()
    ensures IsParameter(DENIED_PARAMETER) && !Clean(DENIED_PARAMETER)
  {
    var inner := Obj([Field("$where", Str("1"))]);
    assert Children(DENIED_PARAMETER) == [inner];
    assert KeyAt(inner, 0) == "$where" && |Children(inner)| == 1;
    assert !Clean(inner);
    assert !Clean(Children(DENIED_PARAMETER)[0]);
  }

  /** Every list of parameters the worker accepts binds a clean command clean, exactly when the command
      refers to none: parameters are checked for their own type, and an array's items never. */
  lemma AlwaysCleanIff(v: Json, n: nat)
    requires Bindable(v, n) && Clean(v) && n <= 64
    ensures (forall parameters :: |parameters| == n && ParametersDecode(parameters) ==> Clean(Bind(v, parameters)))
            <==> References(v) == {}
  {
    hide Bind, Clean, References;
    forall parameters: seq<Json> | |parameters| == n && References(v) == {}
      ensures Clean(Bind(v, parameters))
    {
      BoundIsCleanIff(v, parameters);
    }
    if t :| t in References(v) {
      var parameters := seq(n, _ => DENIED_PARAMETER);
      DeniedParameter();
      BoundIsCleanIff(v, parameters);
      assert parameters[t.n] == DENIED_PARAMETER;
      assert ParametersDecode(parameters);
    }
  }

  lemma CleanByChildren(v: Json, bound: Json, parameters: seq<Json>)
    requires Bindable(v, |parameters|) && Clean(v) && !IsToken(v) && |Children(bound)| == |Children(v)|
    requires forall i :: 0 <= i < |Children(v)| ==>
               KeyAt(bound, i) == KeyAt(v, i) && Bindable(Children(v)[i], |parameters|)
    requires forall i :: 0 <= i < |Children(v)| ==>
               (Clean(Children(bound)[i]) <==> forall t :: t in References(Children(v)[i]) ==> Clean(parameters[t.n]))
    ensures Clean(bound) <==> forall t :: t in References(v) ==> Clean(parameters[t.n])
  {
    hide Children, KeyAt, Denied, IsToken;
    assert forall i :: 0 <= i < |Children(v)| ==> !Denied(KeyAt(v, i));
    if Clean(bound) {
      forall t | t in References(v)
        ensures Clean(parameters[t.n])
      {
        var i :| 0 <= i < |Children(v)| && t in References(Children(v)[i]);
        assert Clean(Children(bound)[i]);
      }
    }
    if forall t :: t in References(v) ==> Clean(parameters[t.n]) {
      forall i | 0 <= i < |Children(bound)|
        ensures !Denied(KeyAt(bound, i)) && Clean(Children(bound)[i])
      {
        assert forall t :: t in References(Children(v)[i]) ==> t in References(v);
      }
    }
  }

  // ---- The worker ----

  /** A command that was read is bindable by as many parameters as it has classifications, and holds no
      denied key at any depth. */
  lemma AcceptedIsBindable(v: Json, options: Options)
    requires ReadError(v, options) == None
    ensures Bindable(v, |options.parameterClassifications|)
    ensures |References(v)| == |options.parameterClassifications|
    ensures Clean(v)
  {
    hide TargetError, OptionsError, BodyError, PreflightFrom, References, Clean;
    PreflightExact(v, 0, 0);
    CountNumbers(|options.parameterClassifications|);
  }

  lemma {:induction false} CountNumbers(n: nat)
    ensures |FirstNumbers(n)| == n
  {
    if n > 0 {
      CountNumbers(n - 1);
      assert FirstNumbers(n) == FirstNumbers(n - 1) + {Number(n - 1)};
    }
  }

  method Execute(planned: Operation, v: Json, parameters: seq<Json>) returns (r: Result<Json>)
    ensures r.Ok? ==>
              && ReadError(v, OptionsOf(planned)) == None && ReadsAs(v, OptionsOf(planned), planned)
              && |parameters| == |planned.parameterClassifications|
              && Bindable(v, |parameters|) && r.value == Bind(v, parameters)
    ensures r.Err? ==>
              || (r.code == "VES_MONGODB_PLAN_MISMATCH" && !ReadsAs(v, OptionsOf(planned), planned))
              || (r.code == "VES_MONGODB_PARAMETERS_INVALID" && |parameters| != |planned.parameterClassifications|)
              || ReadError(v, OptionsOf(planned)) == Some(r.code)
    ensures (ReadError(v, OptionsOf(planned)) == None && ReadsAs(v, OptionsOf(planned), planned)
             && |parameters| == |planned.parameterClassifications|) ==> r.Ok?
  {
    hide ReadError, Bind, Bindable, Less;
    var operation := ParseReadOperation(v, OptionsOf(planned));
    if operation.Err? {
      return Err(operation.code);
    }
    assert ReadError(v, OptionsOf(planned)) == None;
    if operation.value != planned {
      assert !ReadsAs(v, OptionsOf(planned), planned) by {
        if ReadsAs(v, OptionsOf(planned), planned) {
          ReadingIsUnique(v, OptionsOf(planned), operation.value, planned);
        }
      }
      return Err("VES_MONGODB_PLAN_MISMATCH");
    }
    var references := new ReferenceCollector();
    references.Collect(v);
    AcceptedIsBindable(v, OptionsOf(planned));
    if |parameters| != |references.found| {
      return Err("VES_MONGODB_PARAMETERS_INVALID");
    }
    r := Ok(Bind(v, parameters));
  }

  function OptionsOf(planned: Operation): Options {
    Options(planned.protectedRequestRef, planned.parameterClassifications)
  }

  lemma ReadingIsUnique(v: Json, options: Options, a: Operation, b: Operation)
    requires ReadsAs(v, options, a) && ReadsAs(v, options, b)
    ensures a == b
  {
    hide Less, SortBy, FunctionsOf;
    StrictUnique(a.functions, b.functions, Whole);
  }

  /** Reading the same command again under the operation it was read as gives that operation: the plan
      comparison never rejects a command whose plan was made from it. */
  lemma RereadingAgrees(v: Json, options: Options, op: Operation)
    requires ReadError(v, options) == None && ReadsAs(v, options, op)
    ensures ReadError(v, OptionsOf(op)) == None && ReadsAs(v, OptionsOf(op), op)
  {
    hide Less, SortBy, FunctionsOf, PreflightFrom, TargetError, BodyError, References, IsProtectedRef, FirstNumbers;
    var classes := options.parameterClassifications;
    SortSorted(classes, Whole);
    SortSortedFixed(SortBy(classes, Whole), Whole);
    SortMembers(classes, Whole);
  }
}
