/**
  Order-preserving scans over sequences: the first position satisfying a
  predicate (JavaScript `Array.prototype.find`, Rust `Iterator::position`)
  and filter-and-map (a `for` loop that `continue`s past some elements, Rust
  `Iterator::filter`).
 */
module Seqs {
  import opened Wrappers

  /** Positions listed in strictly ascending order. */
  ghost predicate Ascending(idx: seq<nat>) {
    forall a, b :: 0 <= a < b < |idx| ==> idx[a] < idx[b]
  }

  /** The first position at or after `from` whose element satisfies `p`. */
  function FirstIndexFrom<T>(s: seq<T>, p: T -> bool, from: nat): (r: Option<nat>)
    requires from <= |s|
    ensures r.Some? ==> from <= r.value < |s| && p(s[r.value])
    ensures r.Some? ==> forall j :: from <= j < r.value ==> !p(s[j])
    ensures r.None? <==> forall j :: from <= j < |s| ==> !p(s[j])
    decreases |s| - from
  {
    if from == |s| then None
    else if p(s[from]) then Some(from)
    else FirstIndexFrom(s, p, from + 1)
  }

  /** The first position whose element satisfies `p`, if any. */
  function FirstIndex<T>(s: seq<T>, p: T -> bool): (r: Option<nat>)
    ensures r.Some? ==> r.value < |s| && p(s[r.value])
    ensures r.Some? ==> forall j :: 0 <= j < r.value ==> !p(s[j])
    ensures r.None? <==> forall j :: 0 <= j < |s| ==> !p(s[j])
  {
    FirstIndexFrom(s, p, 0)
  }

  /**
    Keeps, in order, the images `y` of the elements `x` with `f(x) == Some(y)`
    and drops the elements that `f` maps to `None`.
   */
  function FilterMap<T, U>(s: seq<T>, f: T -> Option<U>): (r: seq<U>)
    ensures |r| <= |s|
    ensures forall y :: y in r ==> exists x :: x in s && f(x) == Some(y)
  {
    if |s| == 0 then []
    else
      var init := FilterMap(s[..|s| - 1], f);
      assert forall x :: x in s[..|s| - 1] ==> x in s;
      match f(s[|s| - 1])
      case Some(y) => init + [y]
      case None => init
  }

  /** The positions, in ascending order, of the elements that `f` keeps. */
  function Selected<T, U>(s: seq<T>, f: T -> Option<U>): (idx: seq<nat>)
    ensures Ascending(idx)
    ensures forall k :: 0 <= k < |idx| ==> idx[k] < |s| && f(s[idx[k]]).Some?
    ensures forall i :: 0 <= i < |s| ==> (i in idx <==> f(s[i]).Some?)
  {
    if |s| == 0 then []
    else
      var init := Selected(s[..|s| - 1], f);
      if f(s[|s| - 1]).Some? then init + [|s| - 1] else init
  }

  /**
    `FilterMap` is exactly the images of the selected elements, in order: the
    k-th output is the image of the k-th kept element.
   */
  lemma {:induction false} FilterMapSelected<T, U>(s: seq<T>, f: T -> Option<U>)
    ensures |FilterMap(s, f)| == |Selected(s, f)|
    ensures forall k :: 0 <= k < |FilterMap(s, f)| ==>
              f(s[Selected(s, f)[k]]) == Some(FilterMap(s, f)[k])
  {
    if |s| > 0 {
      var s' := s[..|s| - 1];
      FilterMapSelected(s', f);
      var r, idx := FilterMap(s, f), Selected(s, f);
      var r', idx' := FilterMap(s', f), Selected(s', f);
      forall k | 0 <= k < |r'|
        ensures f(s[idx[k]]) == Some(r[k])
      {
        assert idx[k] == idx'[k] && r[k] == r'[k];
        assert s'[idx'[k]] == s[idx'[k]];
      }
    }
  }

  /** Every element before the first kept one is dropped. */
  lemma SelectedFirst<T, U>(s: seq<T>, f: T -> Option<U>)
    requires |Selected(s, f)| > 0
    ensures forall i :: 0 <= i < Selected(s, f)[0] ==> f(s[i]).None?
  {
    var idx := Selected(s, f);
    forall i | 0 <= i < idx[0]
      ensures f(s[i]).None?
    {
      assert forall m :: 0 <= m < |idx| ==> idx[0] <= idx[m];
      assert i !in idx;
    }
  }
}
