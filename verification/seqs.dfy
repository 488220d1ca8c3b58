/** Sequence helpers shared by the modules: `Array.prototype.filter` and distinctness. */
module Seqs {

  /** `s.filter(p)`: the elements of `s` satisfying `p`, in their order in `s`. */
  function Filter<T>(s: seq<T>, p: T -> bool): (r: seq<T>)
    ensures |r| <= |s|
    ensures forall x :: x in r ==> x in s && p(x)
    ensures forall i :: 0 <= i < |s| && p(s[i]) ==> s[i] in r
    ensures multiset(r) <= multiset(s)
  {
    if s == [] then []
    else
      assert s == [s[0]] + s[1..];
      (if p(s[0]) then [s[0]] else []) + Filter(s[1..], p)
  }

  /** Filtering distributes over concatenation: together with the singleton case this
      pins the result down to "the matching elements, in order". */
  lemma {:induction false} FilterConcat<T>(s: seq<T>, t: seq<T>, p: T -> bool)
    ensures Filter(s + t, p) == Filter(s, p) + Filter(t, p)
  {
    if s == [] {
      assert s + t == t;
    } else {
      assert (s + t)[0] == s[0];
      assert (s + t)[1..] == s[1..] + t;
      FilterConcat(s[1..], t, p);
    }
  }

  /** Filtering a single element keeps it exactly when it matches. */
  lemma FilterSingleton<T>(x: T, p: T -> bool)
    ensures Filter([x], p) == if p(x) then [x] else []
  {
    assert [x][1..] == [];
  }

  /** A filter keeps everything exactly when every element matches. */
  lemma {:induction false} FilterKeepsAll<T>(s: seq<T>, p: T -> bool)
    ensures Filter(s, p) == s <==> forall i :: 0 <= i < |s| ==> p(s[i])
  {
    if s != [] {
      FilterKeepsAll(s[1..], p);
      if !p(s[0]) {
        assert |Filter(s, p)| <= |s[1..]| < |s|;
      }
    }
  }

  /** The concatenation of the lists in `ls`, in order. */
  function Flatten<T>(ls: seq<seq<T>>): (r: seq<T>)
    ensures |r| == 0 ==> forall i :: 0 <= i < |ls| ==> |ls[i]| == 0
  {
    if ls == [] then [] else Flatten(ls[..|ls| - 1]) + ls[|ls| - 1]
  }

  /** Flattening one more list of a prefix appends that list. */
  lemma FlattenSnoc<T>(ls: seq<seq<T>>, i: int)
    requires 0 <= i < |ls|
    ensures Flatten(ls[..i + 1]) == Flatten(ls[..i]) + ls[i]
  {
    assert ls[..i + 1][..i] == ls[..i];
  }

  /** A flattening is empty exactly when every list in it is. */
  lemma {:induction false} FlattenEmpty<T>(ls: seq<seq<T>>)
    ensures Flatten(ls) == [] <==> forall i :: 0 <= i < |ls| ==> ls[i] == []
  {
    if ls != [] {
      var init := ls[..|ls| - 1];
      FlattenEmpty(init);
      assert |Flatten(ls)| == |Flatten(init)| + |ls[|ls| - 1]|;
      assert forall i :: 0 <= i < |init| ==> init[i] == ls[i];
    }
  }

  /** Every value occurs at most once. */
  ghost predicate Distinct<T>(s: seq<T>) {
    forall x | x in multiset(s) :: multiset(s)[x] <= 1
  }

  /** A sequence without repeats has as many distinct values as elements. */
  lemma {:induction false} DistinctCardinality<T>(s: seq<T>)
    requires Distinct(s)
    ensures |set x | x in s| == |s|
  {
    if s != [] {
      assert s == [s[0]] + s[1..];
      assert multiset(s) == multiset{s[0]} + multiset(s[1..]);
      forall x | x in multiset(s[1..]) ensures multiset(s[1..])[x] <= 1 {
        assert multiset(s)[x] <= 1;
      }
      DistinctCardinality(s[1..]);
      assert s[0] in multiset(s) && multiset(s)[s[0]] <= 1;
      assert multiset(s[1..])[s[0]] == 0;
      assert s[0] !in s[1..];
      assert (set x | x in s) == {s[0]} + (set x | x in s[1..]);
    }
  }

  /** A subset is no larger, and a proper subset is strictly smaller. */
  lemma {:induction false} SubsetCardinality<T>(a: set<T>, b: set<T>)
    requires a <= b
    ensures |a| <= |b|
    ensures a < b ==> |a| < |b|
    decreases b
  {
    if a != b {
      assert b - a != {} by {
        if b - a == {} {
          forall y | y in b ensures y in a { assert y !in b - a; }
        }
      }
      var x :| x in b - a;
      SubsetCardinality(a, b - {x});
    }
  }
}
