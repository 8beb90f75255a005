/** Code-unit string order and the sorts built on it. */
module CodeUnits {

  /** `codeUnitCompare(a, b) < 0`. */
  predicate Less(a: string, b: string) {
    b != [] && (a == [] || a[0] < b[0] || (a[0] == b[0] && Less(a[1..], b[1..])))
  }

  lemma {:induction false} LessIrreflexive(a: string)
    ensures !Less(a, a)
  {
    if a != [] {
      LessIrreflexive(a[1..]);
    }
  }

  lemma {:induction false} LessTransitive(a: string, b: string, c: string)
    requires Less(a, b) && Less(b, c)
    ensures Less(a, c)
  {
    if a != [] && a[0] == b[0] == c[0] {
      LessTransitive(a[1..], b[1..], c[1..]);
    }
  }

  lemma {:induction false} LessTotal(a: string, b: string)
    ensures a == b || Less(a, b) || Less(b, a)
  {
    if a != [] && b != [] && a[0] == b[0] {
      LessTotal(a[1..], b[1..]);
      if a[1..] == b[1..] {
        assert a == [a[0]] + a[1..];
        assert b == [b[0]] + b[1..];
      }
    }
  }

  lemma LessAsymmetric(a: string, b: string)
    requires Less(a, b)
    ensures !Less(b, a)
  {
    if Less(b, a) {
      LessTransitive(a, b, a);
      LessIrreflexive(a);
    }
  }

  /** Common leading text does not change the order. */
  lemma {:induction false} LessPrefix(p: string, a: string, b: string)
    ensures Less(p + a, p + b) <==> Less(a, b)
  {
    if p == [] {
      assert p + a == a && p + b == b;
    } else {
      assert (p + a)[1..] == p[1..] + a;
      assert (p + b)[1..] == p[1..] + b;
      LessPrefix(p[1..], a, b);
    }
  }

  /** Text joined by a separator below all its characters compares part by part. */
  lemma {:induction false} LessJoined(sep: char, a: string, x: string, b: string, y: string)
    requires forall c :: c in a || c in b ==> sep < c
    ensures Less(a + [sep] + x, b + [sep] + y) <==> Less(a, b) || (a == b && Less(x, y))
  {
    if a == [] || b == [] {
      assert [] + [sep] + x == [sep] + x;
      assert ([sep] + x)[1..] == x && ([sep] + y)[1..] == y;
      assert a != [] ==> a[0] in a;
      assert b != [] ==> b[0] in b;
    } else {
      assert (a + [sep] + x)[1..] == a[1..] + [sep] + x;
      assert (b + [sep] + y)[1..] == b[1..] + [sep] + y;
      assert a == [a[0]] + a[1..] && b == [b[0]] + b[1..];
      assert forall c :: c in a[1..] || c in b[1..] ==> c in a || c in b;
      LessJoined(sep, a[1..], x, b[1..], y);
    }
  }

  /** The key of a list of strings: the string itself. */
  function Whole(s: string): string { s }

  ghost predicate Sorted<T>(xs: seq<T>, key: T -> string) {
    forall i, j :: 0 <= i < j < |xs| ==> !Less(key(xs[j]), key(xs[i]))
  }

  ghost predicate StrictlySorted<T>(xs: seq<T>, key: T -> string) {
    forall i, j :: 0 <= i < j < |xs| ==> Less(key(xs[i]), key(xs[j]))
  }

  predicate DistinctKeys<T>(xs: seq<T>, key: T -> string) {
    forall i, j :: 0 <= i < j < |xs| ==> key(xs[i]) != key(xs[j])
  }

  function Insert<T>(x: T, xs: seq<T>, key: T -> string): seq<T> {
    if xs == [] then [x]
    else if Less(key(xs[0]), key(x)) then [xs[0]] + Insert(x, xs[1..], key)
    else [x] + xs
  }

  /** The stable sort of `xs` by the code units of its key. */
  function SortBy<T>(xs: seq<T>, key: T -> string): seq<T> {
    if xs == [] then [] else Insert(xs[0], SortBy(xs[1..], key), key)
  }

  lemma {:induction false} InsertMultiset<T>(x: T, xs: seq<T>, key: T -> string)
    ensures multiset(Insert(x, xs, key)) == multiset{x} + multiset(xs)
  {
    if xs != [] && Less(key(xs[0]), key(x)) {
      InsertMultiset(x, xs[1..], key);
      assert xs == [xs[0]] + xs[1..];
    }
  }

  lemma {:induction false} SortMultiset<T>(xs: seq<T>, key: T -> string)
    ensures multiset(SortBy(xs, key)) == multiset(xs)
    ensures |SortBy(xs, key)| == |xs|
  {
    if xs != [] {
      SortMultiset(xs[1..], key);
      InsertMultiset(xs[0], SortBy(xs[1..], key), key);
      assert xs == [xs[0]] + xs[1..];
    }
    assert |multiset(SortBy(xs, key))| == |SortBy(xs, key)|;
    assert |multiset(xs)| == |xs|;
  }

  lemma {:induction false} InsertSorted<T>(x: T, xs: seq<T>, key: T -> string)
    requires Sorted(xs, key)
    ensures Sorted(Insert(x, xs, key), key)
  {
    if xs == [] {
    } else if Less(key(xs[0]), key(x)) {
      var rest := Insert(x, xs[1..], key);
      InsertSorted(x, xs[1..], key);
      InsertMultiset(x, xs[1..], key);
      forall j | 0 <= j < |rest|
        ensures !Less(key(rest[j]), key(xs[0]))
      {
        assert rest[j] in multiset(rest);
        if rest[j] == x {
          LessAsymmetric(key(xs[0]), key(x));
        } else {
          assert rest[j] in xs[1..];
        }
      }
    } else {
      forall j | 0 <= j < |xs|
        ensures !Less(key(xs[j]), key(x))
      {
        if Less(key(xs[j]), key(x)) && j > 0 {
          LessTotal(key(xs[0]), key(xs[j]));
          if key(xs[0]) != key(xs[j]) {
            LessTransitive(key(xs[0]), key(xs[j]), key(x));
          }
        }
      }
    }
  }

  lemma {:induction false} SortSorted<T>(xs: seq<T>, key: T -> string)
    ensures Sorted(SortBy(xs, key), key)
  {
    if xs != [] {
      SortSorted(xs[1..], key);
      InsertSorted(xs[0], SortBy(xs[1..], key), key);
    }
  }

  /** `new Set(xs.map(key))`. */
  function KeySet<T(==)>(xs: seq<T>, key: T -> string): set<string> {
    set x | x in xs :: key(x)
  }

  /** A set no smaller than one that contains it is that set. */
  lemma {:induction false} SubsetSize<T>(a: set<T>, b: set<T>)
    requires a <= b
    ensures |a| <= |b|
    ensures |a| == |b| ==> a == b
    decreases a
  {
    if a != {} {
      var x :| x in a;
      SubsetSize(a - {x}, b - {x});
    }
  }

  /** The size test the program uses for duplicates finds every duplicate. */
  lemma {:induction false} DistinctIffSetSize<T>(xs: seq<T>, key: T -> string)
    ensures |KeySet(xs, key)| <= |xs|
    ensures DistinctKeys(xs, key) <==> |KeySet(xs, key)| == |xs|
  {
    if xs != [] {
      var last := |xs| - 1;
      DistinctIffSetSize(xs[..last], key);
      KeySetSnoc(xs[..last], xs[last], key);
      assert xs == xs[..last] + [xs[last]];
    }
  }

  lemma KeySetSnoc<T>(init: seq<T>, x: T, key: T -> string)
    ensures KeySet(init + [x], key) == KeySet(init, key) + {key(x)}
    ensures DistinctKeys(init + [x], key) <==> DistinctKeys(init, key) && key(x) !in KeySet(init, key)
  {
    var all := init + [x];
    assert forall i :: 0 <= i < |init| ==> all[i] == init[i];
    assert all[|init|] == x;
    if key(x) in KeySet(init, key) {
      var y :| y in init && key(y) == key(x);
      var i :| 0 <= i < |init| && init[i] == y;
      assert key(all[i]) == key(all[|init|]);
    }
  }

  /** Key distinctness depends only on which elements occur, and how often. */
  lemma DistinctByMultiset<T>(xs: seq<T>, ys: seq<T>, key: T -> string)
    requires multiset(xs) == multiset(ys)
    requires DistinctKeys(xs, key)
    ensures DistinctKeys(ys, key)
  {
    assert |xs| == |multiset(xs)| == |ys|;
    forall x
      ensures x in xs <==> x in ys
    {
      assert x in multiset(xs) <==> x in multiset(ys);
    }
    assert KeySet(xs, key) == KeySet(ys, key);
    DistinctIffSetSize(xs, key);
    DistinctIffSetSize(ys, key);
  }

  lemma DistinctMember<T>(xs: seq<T>, key: T -> string, x: T, y: T)
    requires DistinctKeys(xs, key) && x in xs && y in xs && key(x) == key(y)
    ensures x == y
  {
    var i :| 0 <= i < |xs| && xs[i] == x;
    var j :| 0 <= j < |xs| && xs[j] == y;
    assert i == j;
  }

  lemma SortStrict<T>(xs: seq<T>, key: T -> string)
    requires DistinctKeys(xs, key)
    ensures StrictlySorted(SortBy(xs, key), key)
  {
    SortSorted(xs, key);
    SortMultiset(xs, key);
    DistinctByMultiset(xs, SortBy(xs, key), key);
    var ys := SortBy(xs, key);
    forall i, j | 0 <= i < j < |ys|
      ensures Less(key(ys[i]), key(ys[j]))
    {
      LessTotal(key(ys[i]), key(ys[j]));
    }
  }

  /** A strictly sorted list is determined by the elements it holds. */
  lemma {:induction false} StrictUnique<T>(xs: seq<T>, ys: seq<T>, key: T -> string)
    requires StrictlySorted(xs, key) && StrictlySorted(ys, key)
    requires forall x :: x in xs <==> x in ys
    ensures xs == ys
  {
    if xs != [] {
      assert xs[0] in ys;
    }
    if ys != [] {
      assert ys[0] in xs;
    }
    if xs != [] {
      if xs[0] != ys[0] {
        var i :| 0 < i < |xs| && xs[i] == ys[0];
        var j :| 0 < j < |ys| && ys[j] == xs[0];
        LessAsymmetric(key(xs[0]), key(ys[0]));
      }
      forall x
        ensures x in xs[1..] <==> x in ys[1..]
      {
        LessIrreflexive(key(xs[0]));
        if x in xs[1..] {
          assert x in xs;
          assert x != xs[0];
          assert x in ys;
        }
        if x in ys[1..] {
          assert x in ys;
          assert x != ys[0];
          assert x in xs;
        }
      }
      StrictUnique(xs[1..], ys[1..], key);
      assert xs == [xs[0]] + xs[1..];
      assert ys == [ys[0]] + ys[1..];
    }
  }

  lemma SortMembers<T>(xs: seq<T>, key: T -> string)
    ensures |SortBy(xs, key)| == |xs|
    ensures forall x :: x in SortBy(xs, key) <==> x in xs
  {
    SortMultiset(xs, key);
    forall x
      ensures x in SortBy(xs, key) <==> x in xs
    {
      assert x in multiset(SortBy(xs, key)) <==> x in multiset(xs);
    }
  }

  lemma SortKeySet<T>(xs: seq<T>, key: T -> string)
    ensures KeySet(SortBy(xs, key), key) == KeySet(xs, key)
  {
    hide SortBy;
    SortMultiset(xs, key);
    forall x: T | x in SortBy(xs, key)
      ensures x in xs
    {
      assert x in multiset(SortBy(xs, key)) && x in multiset(xs);
    }
    forall x: T | x in xs
      ensures x in SortBy(xs, key)
    {
      assert x in multiset(xs) && x in multiset(SortBy(xs, key));
    }
  }

  /** Sorting already sorted distinct keys changes nothing. */
  lemma SortFixed<T>(xs: seq<T>, key: T -> string)
    requires StrictlySorted(xs, key)
    ensures SortBy(xs, key) == xs
  {
    forall i, j | 0 <= i < j < |xs|
      ensures key(xs[i]) != key(xs[j])
    {
      LessIrreflexive(key(xs[i]));
    }
    SortStrict(xs, key);
    SortMembers(xs, key);
    StrictUnique(SortBy(xs, key), xs, key);
  }

  /** Sorting an already sorted list changes nothing, repeated keys included. */
  lemma {:induction false} SortSortedFixed<T>(xs: seq<T>, key: T -> string)
    requires Sorted(xs, key)
    ensures SortBy(xs, key) == xs
  {
    if |xs| > 1 {
      SortSortedFixed(xs[1..], key);
      assert !Less(key(xs[1]), key(xs[0]));
    }
    assert xs != [] ==> xs == [xs[0]] + xs[1..];
  }

  /** Sorting forgets the order in which distinct keys arrived. */
  lemma SortCanonical<T>(xs: seq<T>, ys: seq<T>, key: T -> string)
    requires DistinctKeys(xs, key) && DistinctKeys(ys, key)
    requires forall x :: x in xs <==> x in ys
    ensures SortBy(xs, key) == SortBy(ys, key)
  {
    hide Less, SortBy, Sorted, StrictlySorted, DistinctKeys;
    SortStrict(xs, key);
    SortStrict(ys, key);
    SortMembers(xs, key);
    SortMembers(ys, key);
    StrictUnique(SortBy(xs, key), SortBy(ys, key), key);
  }
}
