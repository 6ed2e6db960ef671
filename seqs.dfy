/** The filtering loop both package-resolver strategies run: walk a list,
    skip the entries a predicate rejects, convert and append the others. */
module Seqs {

  /** The converted kept elements of `s`, in order. Defined on the last element
      so that it follows an appending loop step by step. */
  function FilterMap<T, U>(s: seq<T>, keep: T -> bool, f: T -> U): seq<U> {
    if s == [] then []
    else
      var init := FilterMap(s[..|s| - 1], keep, f);
      if keep(s[|s| - 1]) then init + [f(s[|s| - 1])] else init
  }

  /** The indices of the kept elements of `s`, in ascending order. */
  function KeptIndices<T>(s: seq<T>, keep: T -> bool): (idx: seq<nat>)
    ensures forall j :: 0 <= j < |idx| ==> idx[j] < |s| && keep(s[idx[j]])
    ensures forall j, j' :: 0 <= j < j' < |idx| ==> idx[j] < idx[j']
    ensures forall i :: 0 <= i < |s| && keep(s[i]) ==> i in idx
  {
    if s == [] then []
    else
      var init := KeptIndices(s[..|s| - 1], keep);
      if keep(s[|s| - 1]) then init + [|s| - 1] else init
  }

  /** The output is the order-preserving subsequence of exactly the kept
      elements: element j of the output is f of the element at the j-th kept
      index, the kept indices ascend, and no kept element is skipped. */
  lemma {:induction false} FilterMapIsKeptSubsequence<T, U>(s: seq<T>, keep: T -> bool, f: T -> U)
    ensures |FilterMap(s, keep, f)| == |KeptIndices(s, keep)|
    ensures forall j :: 0 <= j < |KeptIndices(s, keep)| ==>
      FilterMap(s, keep, f)[j] == f(s[KeptIndices(s, keep)[j]])
  {
    if s != [] {
      var init := s[..|s| - 1];
      FilterMapIsKeptSubsequence(init, keep, f);
      forall j | 0 <= j < |KeptIndices(init, keep)|
        ensures s[KeptIndices(init, keep)[j]] == init[KeptIndices(init, keep)[j]]
      {
      }
    }
  }

  /** An output element is the image of a kept element, and every kept
      element's image is in the output. */
  lemma {:induction false} FilterMapMembers<T, U>(s: seq<T>, keep: T -> bool, f: T -> U, y: U)
    ensures y in FilterMap(s, keep, f) <==> exists i :: 0 <= i < |s| && keep(s[i]) && y == f(s[i])
  {
    if s != [] {
      var init := s[..|s| - 1];
      FilterMapMembers(init, keep, f, y);
      if y in FilterMap(s, keep, f) && y !in FilterMap(init, keep, f) {
        assert keep(s[|s| - 1]) && y == f(s[|s| - 1]);
      }
      if exists i :: 0 <= i < |s| && keep(s[i]) && y == f(s[i]) {
        var i :| 0 <= i < |s| && keep(s[i]) && y == f(s[i]);
        if i < |s| - 1 {
          assert init[i] == s[i];
        }
      }
    }
  }
}
