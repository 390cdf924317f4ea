/**
 * The `iter().filter(..).map(..).collect()` chains of the configuration
 * reader: each element is examined on its own and either contributes one
 * output value or is dropped.
 */
module Iter {
  import opened Wrappers

  /** Keeps `y` for every element `x` with `f(x) == Some(y)`, in order. */
  function FilterMap<T, U>(s: seq<T>, f: T -> Option<U>): (r: seq<U>)
    ensures |r| <= |s|
    ensures forall j :: 0 <= j < |r| ==> exists i :: 0 <= i < |s| && f(s[i]) == Some(r[j])
    ensures forall i :: 0 <= i < |s| && f(s[i]).Some? ==> f(s[i]).value in r
  {
    if s == [] then []
    else
      var rest := FilterMap(s[1..], f);
      assert forall i :: 0 < i < |s| ==> s[i] == s[1..][i - 1];
      match f(s[0])
      case Some(y) => [y] + rest
      case None => rest
  }

  /** The result for a concatenation is the concatenation of the results: source order is kept. */
  lemma {:induction false} FilterMapAppend<T, U>(a: seq<T>, b: seq<T>, f: T -> Option<U>)
    ensures FilterMap(a + b, f) == FilterMap(a, f) + FilterMap(b, f)
  {
    if a != [] {
      assert (a + b)[1..] == a[1..] + b;
      FilterMapAppend(a[1..], b, f);
    } else {
      assert a + b == b;
    }
  }

  /** A dropped element does not affect what the others contribute. */
  lemma FilterMapSkip<T, U>(a: seq<T>, x: T, b: seq<T>, f: T -> Option<U>)
    requires f(x).None?
    ensures FilterMap(a + [x] + b, f) == FilterMap(a + b, f)
  {
    FilterMapAppend(a + [x], b, f);
    FilterMapAppend(a, [x], f);
    FilterMapAppend(a, b, f);
  }

  /** When every element is kept, the output is the pointwise image of the input. */
  lemma {:induction false} FilterMapAllKept<T, U>(s: seq<T>, f: T -> Option<U>)
    requires forall i :: 0 <= i < |s| ==> f(s[i]).Some?
    ensures |FilterMap(s, f)| == |s|
    ensures forall i :: 0 <= i < |s| ==> FilterMap(s, f)[i] == f(s[i]).value
  {
    if s != [] {
      var tail := s[1..];
      assert forall i :: 0 <= i < |tail| ==> tail[i] == s[i + 1];
      FilterMapAllKept(tail, f);
      assert FilterMap(s, f) == [f(s[0]).value] + FilterMap(tail, f);
    }
  }

  /** A dropped element makes the output strictly shorter than the input. */
  lemma {:induction false} FilterMapDropShortens<T, U>(s: seq<T>, f: T -> Option<U>, k: nat)
    requires k < |s| && f(s[k]).None?
    ensures |FilterMap(s, f)| < |s|
  {
    var tail := s[1..];
    if k == 0 {
      assert FilterMap(s, f) == FilterMap(tail, f);
    } else {
      assert tail[k - 1] == s[k];
      FilterMapDropShortens(tail, f, k - 1);
    }
  }
}
