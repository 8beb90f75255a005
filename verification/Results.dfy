/** The outcome types shared by every module: an optional value, and a value or
    the error code the program would throw. */
module Results {
  datatype Option<+T> = None | Some(value: T)

  datatype Result<+T> = Ok(value: T) | Err(code: string)

  /** Convert a list item by item, failing with the first failure. */
  function Traverse<T, U>(xs: seq<T>, f: T -> Result<U>): Result<seq<U>> {
    if xs == [] then Ok([])
    else
      match f(xs[0])
      case Err(code) => Err(code)
      case Ok(first) =>
        match Traverse(xs[1..], f)
        case Err(code) => Err(code)
        case Ok(rest) => Ok([first] + rest)
  }

  lemma {:induction false} TraverseAt<T, U>(xs: seq<T>, f: T -> Result<U>)
    ensures Traverse(xs, f).Ok? <==> forall i :: 0 <= i < |xs| ==> f(xs[i]).Ok?
    ensures Traverse(xs, f).Ok? ==>
              |Traverse(xs, f).value| == |xs| &&
              forall i :: 0 <= i < |xs| ==> f(xs[i]) == Ok(Traverse(xs, f).value[i])
  {
    if xs != [] {
      TraverseAt(xs[1..], f);
      assert forall i :: 0 < i < |xs| ==> xs[i] == xs[1..][i - 1];
    }
  }

  lemma {:induction false} TraverseFixed<T>(xs: seq<T>, f: T -> Result<T>)
    requires forall x :: x in xs ==> f(x) == Ok(x)
    ensures Traverse(xs, f) == Ok(xs)
  {
    if xs != [] {
      TraverseFixed(xs[1..], f);
      assert xs == [xs[0]] + xs[1..];
    }
  }
}
