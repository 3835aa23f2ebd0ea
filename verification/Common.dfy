/** Results of operations that may fail, and sums over sequences. */
module Common {

  datatype Option<+T> = None | Some(value: T)

  datatype Result<+T, +E> = Ok(value: T) | Err(error: E)

  function MaxReal(x: real, y: real): real {
    if x < y then y else x
  }

  function MinReal(x: real, y: real): real {
    if x < y then x else y
  }

  function Min(x: int, y: int): int {
    if x < y then x else y
  }

  function Max(x: int, y: int): int {
    if x < y then y else x
  }

  /** The sum of `f` over the elements of `s`. */
  ghost function Sum<T>(s: seq<T>, f: T -> real): real {
    if s == [] then 0.0 else Sum(s[..|s| - 1], f) + f(s[|s| - 1])
  }

  lemma SumAppend<T>(s: seq<T>, x: T, f: T -> real)
    ensures Sum(s + [x], f) == Sum(s, f) + f(x)
  {
    assert (s + [x])[..|s|] == s;
  }

  lemma {:induction false} SumUpdate<T>(s: seq<T>, i: nat, x: T, f: T -> real)
    requires i < |s|
    ensures Sum(s[i := x], f) == Sum(s, f) - f(s[i]) + f(x)
  {
    var last := |s| - 1;
    if i == last {
      assert s[i := x][..last] == s[..last];
    } else {
      assert s[i := x][..last] == s[..last][i := x];
      SumUpdate(s[..last], i, x, f);
    }
  }

  lemma {:induction false} SumMono<T>(s: seq<T>, f: T -> real, g: T -> real)
    requires forall i :: 0 <= i < |s| ==> f(s[i]) <= g(s[i])
    ensures Sum(s, f) <= Sum(s, g)
  {
    if s != [] {
      SumMono(s[..|s| - 1], f, g);
    }
  }

  /** If h is f + g pointwise, so are the sums. */
  lemma {:induction false} SumAdd<T>(s: seq<T>, f: T -> real, g: T -> real, h: T -> real)
    requires forall i :: 0 <= i < |s| ==> h(s[i]) == f(s[i]) + g(s[i])
    ensures Sum(s, h) == Sum(s, f) + Sum(s, g)
  {
    if s != [] {
      SumAdd(s[..|s| - 1], f, g, h);
    }
  }

  /** A sum of terms that are not negative is at least each of its terms. */
  lemma {:induction false} SumAtLeastTerm<T>(s: seq<T>, i: nat, f: T -> real)
    requires i < |s|
    requires forall k :: 0 <= k < |s| ==> 0.0 <= f(s[k])
    ensures f(s[i]) <= Sum(s, f)
  {
    var init := s[..|s| - 1];
    if i < |s| - 1 {
      SumAtLeastTerm(init, i, f);
    } else {
      SumNonNegative(init, f);
    }
  }

  lemma {:induction false} SumNonNegative<T>(s: seq<T>, f: T -> real)
    requires forall k :: 0 <= k < |s| ==> 0.0 <= f(s[k])
    ensures 0.0 <= Sum(s, f)
  {
    if s != [] {
      SumNonNegative(s[..|s| - 1], f);
    }
  }

  /** Some number is above all that are in use. */
  lemma {:induction false} BoundExists(used: set<nat>) returns (bound: nat)
    ensures forall u :: u in used ==> u < bound
  {
    bound := 0;
    if used != {} {
      var x :| x in used;
      var rest := BoundExists(used - {x});
      bound := rest + x + 1;
      assert forall u :: u in used ==> u == x || u in used - {x};
    }
  }
}
