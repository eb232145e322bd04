/** Stock datatypes and sequence helpers shared by the models. */
module Basics {

  datatype Option<+T> = None | Some(value: T) {
    function GetOr(default: T): (r: T)
    {
      if Some? then value else default
    }
  }

  datatype Result<+T> = Ok(value: T) | Corrupt

  /** The elements of `s` that satisfy `keep`, in their order. */
  function Filter<T(!new)>(s: seq<T>, keep: T -> bool): (r: seq<T>)
    ensures |r| <= |s|
    ensures forall x :: x in r <==> x in s && keep(x)
  {
    if s == [] then []
    else if keep(s[0]) then [s[0]] + Filter(s[1..], keep)
    else Filter(s[1..], keep)
  }

  lemma {:induction false} FilterConcat<T(!new)>(s: seq<T>, t: seq<T>, keep: T -> bool)
    ensures Filter(s + t, keep) == Filter(s, keep) + Filter(t, keep)
  {
    if s == [] {
      assert s + t == t;
    } else {
      assert (s + t)[1..] == s[1..] + t;
      FilterConcat(s[1..], t, keep);
    }
  }

  lemma {:induction false} FilterTwice<T(!new)>(s: seq<T>, keep: T -> bool)
    ensures Filter(Filter(s, keep), keep) == Filter(s, keep)
  {
    if s != [] {
      FilterTwice(s[1..], keep);
    }
  }

  ghost predicate Distinct<T>(s: seq<T>) {
    forall i, j | 0 <= i < j < |s| :: s[i] != s[j]
  }

  ghost function Elements<T>(s: seq<T>): set<T> {
    set x | x in s
  }

  /** A sequence without repetition that draws on a finite set is no longer than the set. */
  lemma {:induction false} DistinctBound<T>(s: seq<T>, universe: set<T>)
    requires Distinct(s) && forall x | x in s :: x in universe
    ensures |s| <= |universe|
  {
    if s != [] {
      var last := s[|s| - 1];
      DistinctBound(s[..|s| - 1], universe - {last});
    }
  }

  lemma {:induction false} AboveAll(s: set<nat>) returns (n: nat)
    ensures forall x | x in s :: x < n
  {
    if s == {} {
      n := 0;
    } else {
      var x :| x in s;
      var rest := AboveAll(s - {x});
      n := if x < rest then rest else x + 1;
      assert forall y | y in s :: y == x || y in s - {x};
    }
  }

  lemma SubsetSize<T>(a: set<T>, b: set<T>)
    requires a <= b
    ensures |a| <= |b|
  {
    assert b == a + (b - a);
  }

  /** Removes later repetitions, as `[...new Set(xs)]` does. */
  method Dedupe<T(==,!new)>(s: seq<T>) returns (r: seq<T>)
    ensures Distinct(r)
    ensures forall x :: x in r <==> x in s
  {
    r := [];
    for i := 0 to |s|
      invariant Distinct(r)
      invariant forall x :: x in r <==> x in s[..i]
    {
      if s[i] !in r {
        r := r + [s[i]];
      }
    }
    assert s[..|s|] == s;
  }
}
