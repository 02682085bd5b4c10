/** Generic sequence operations: concatenation of parts, filter-then-map and map. */
module Sequences {

  /** The parts joined end to end, in order. */
  function Flatten<T>(parts: seq<seq<T>>): seq<T>
  {
    if parts == [] then [] else Flatten(parts[..|parts| - 1]) + parts[|parts| - 1]
  }

  /** The images under `f` of the elements that satisfy `keep`, in their original order. */
  function FilterMap<T, U>(s: seq<T>, keep: T -> bool, f: T -> U): (r: seq<U>)
    ensures |r| <= |s|
  {
    if s == [] then []
    else FilterMap(s[..|s| - 1], keep, f) + (if keep(s[|s| - 1]) then [f(s[|s| - 1])] else [])
  }

  /** The positions of the elements of `s` that satisfy `keep`: increasing, and all of them. */
  function KeptIndices<T>(s: seq<T>, keep: T -> bool): (idx: seq<nat>)
    ensures forall j :: 0 <= j < |idx| ==> idx[j] < |s| && keep(s[idx[j]])
    ensures forall i, j :: 0 <= i < j < |idx| ==> idx[i] < idx[j]
    ensures forall i :: 0 <= i < |s| && keep(s[i]) ==> i in idx
  {
    if s == [] then []
    else
      var init := s[..|s| - 1];
      assert forall i :: 0 <= i < |init| ==> init[i] == s[i];
      KeptIndices(init, keep) + (if keep(s[|s| - 1]) then [|s| - 1] else [])
  }

  /** `FilterMap` is the subsequence of `s` picked out by `KeptIndices`, each element mapped by `f`. */
  lemma {:induction false} FilterMapAt<T, U>(s: seq<T>, keep: T -> bool, f: T -> U)
    ensures |FilterMap(s, keep, f)| == |KeptIndices(s, keep)|
    ensures forall j :: 0 <= j < |KeptIndices(s, keep)| ==>
              FilterMap(s, keep, f)[j] == f(s[KeptIndices(s, keep)[j]])
  {
    if s != [] {
      var init := s[..|s| - 1];
      FilterMapAt(init, keep, f);
      forall j | 0 <= j < |KeptIndices(init, keep)|
        ensures KeptIndices(init, keep)[j] < |init|
      {
      }
    }
  }

  /** Every element mapped by `f`, one for one. */
  function MapSeq<T, U>(s: seq<T>, f: T -> U): (r: seq<U>)
    ensures |r| == |s|
    ensures forall j :: 0 <= j < |s| ==> r[j] == f(s[j])
  {
    if s == [] then []
    else
      var init := s[..|s| - 1];
      assert forall j :: 0 <= j < |init| ==> init[j] == s[j];
      MapSeq(init, f) + [f(s[|s| - 1])]
  }

  /** A strictly increasing sequence of indices below `n` has at most `n` elements, and has `n` only when it is `0, ..., n - 1`. */
  lemma {:induction false} IncreasingIndicesCover(idx: seq<nat>, n: nat)
    requires forall j :: 0 <= j < |idx| ==> idx[j] < n
    requires forall j, j' :: 0 <= j < j' < |idx| ==> idx[j] < idx[j']
    ensures |idx| <= n
    ensures |idx| == n ==> forall i :: 0 <= i < n ==> i in idx
  {
    if idx != [] {
      IncreasingBelow(idx, |idx|);
      var last := |idx| - 1;
      assert idx[last] >= last;
      var init := idx[..last];
      assert forall j :: 0 <= j < last ==> init[j] == idx[j] < idx[last];
      IncreasingIndicesCover(init, idx[last]);
      if |idx| == n {
        assert idx[last] == n - 1;
        forall i | 0 <= i < n
          ensures i in idx
        {
          if i < n - 1 {
            assert i in init;
            var j :| 0 <= j < last && init[j] == i;
            assert idx[j] == i;
          }
        }
      }
    }
  }

  /** Element `j` of a strictly increasing sequence of naturals is at least `j`. */
  lemma {:induction false} IncreasingBelow(idx: seq<nat>, n: nat)
    requires |idx| == n
    requires forall j, j' :: 0 <= j < j' < |idx| ==> idx[j] < idx[j']
    ensures forall j :: 0 <= j < n ==> idx[j] >= j
  {
    if n > 0 {
      IncreasingBelow(idx[..n - 1], n - 1);
      assert forall j :: 0 <= j < n - 1 ==> idx[j] == idx[..n - 1][j];
      if n > 1 {
        assert idx[n - 1] > idx[n - 2];
      }
    }
  }
}
