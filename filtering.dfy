/** A Python list comprehension `[g(x) for x in xs if p(x)]`, written as
    one function `f` that returns `Some(g(x))` for the items it keeps. The
    chunker and the collection of relevant chunks are both of this form. */
module Filtering {

  datatype Option<+T> = None | Some(value: T)

  /** The kept results, in the order of their items. */
  function FilterMap<A, B>(s: seq<A>, f: A -> Option<B>): (r: seq<B>)
    ensures |r| <= |s|
  {
    if |s| == 0 then []
    else
      var last := s[|s| - 1];
      FilterMap(s[..|s| - 1], f) + if f(last).Some? then [f(last).value] else []
  }

  /** The positions of the kept items, in increasing order. */
  function KeptIndices<A, B>(s: seq<A>, f: A -> Option<B>): seq<nat> {
    if |s| == 0 then []
    else KeptIndices(s[..|s| - 1], f) + if f(s[|s| - 1]).Some? then [|s| - 1] else []
  }

  /** Processing one more item appends at most its own result. */
  lemma {:induction false} FilterMapSnoc<A, B>(s: seq<A>, x: A, f: A -> Option<B>)
    ensures FilterMap(s + [x], f) == FilterMap(s, f) + if f(x).Some? then [f(x).value] else []
  {
    assert (s + [x])[..|s|] == s;
  }

  /** There is one kept position per result, and each lies within `s`. */
  lemma {:induction false} KeptIndicesBounds<A, B>(s: seq<A>, f: A -> Option<B>)
    ensures |KeptIndices(s, f)| == |FilterMap(s, f)|
    ensures forall k :: 0 <= k < |KeptIndices(s, f)| ==> KeptIndices(s, f)[k] < |s|
  {
    if |s| > 0 {
      KeptIndicesBounds(s[..|s| - 1], f);
    }
  }

  /** The `k`-th result comes from the item at the `k`-th kept position. */
  lemma {:induction false} KeptIndicesResults<A, B>(s: seq<A>, f: A -> Option<B>)
    ensures KeptIndicesBoundsHold(s, f) ==>
      forall k :: 0 <= k < |KeptIndices(s, f)| ==> f(s[KeptIndices(s, f)[k]]) == Some(FilterMap(s, f)[k])
  {
    KeptIndicesBounds(s, f);
    if |s| > 0 {
      var n := |s| - 1;
      var init := s[..n];
      KeptIndicesResults(init, f);
      KeptIndicesBounds(init, f);
      var idx0, r0 := KeptIndices(init, f), FilterMap(init, f);
      forall k | 0 <= k < |idx0| ensures s[idx0[k]] == init[idx0[k]] {
      }
    }
  }

  predicate KeptIndicesBoundsHold<A, B>(s: seq<A>, f: A -> Option<B>) {
    && |KeptIndices(s, f)| == |FilterMap(s, f)|
    && forall k :: 0 <= k < |KeptIndices(s, f)| ==> KeptIndices(s, f)[k] < |s|
  }

  /** The kept positions increase, so every item contributes at most
      once and in order. */
  lemma {:induction false} KeptIndicesIncrease<A, B>(s: seq<A>, f: A -> Option<B>)
    ensures forall k, l :: 0 <= k < l < |KeptIndices(s, f)| ==> KeptIndices(s, f)[k] < KeptIndices(s, f)[l]
  {
    if |s| > 0 {
      KeptIndicesIncrease(s[..|s| - 1], f);
      KeptIndicesBounds(s[..|s| - 1], f);
    }
  }

  /** An item's position is kept exactly when `f` accepts the item. */
  lemma {:induction false} KeptIndicesIff<A, B>(s: seq<A>, f: A -> Option<B>)
    ensures forall i :: 0 <= i < |s| ==> (f(s[i]).Some? <==> i in KeptIndices(s, f))
  {
    if |s| > 0 {
      var n := |s| - 1;
      var init := s[..n];
      KeptIndicesIff(init, f);
      KeptIndicesBounds(init, f);
      var idx := KeptIndices(s, f);
      forall i | 0 <= i < |s| ensures f(s[i]).Some? <==> i in idx {
        if i < n {
          assert s[i] == init[i];
        }
      }
    }
  }

  /** What the comprehension builds: the `k`-th result comes from the
      item at the `k`-th kept position; the positions increase, so every
      item contributes at most once and in order; and an item is kept
      exactly when `f` accepts it. */
  lemma {:induction false} FilterMapSpec<A, B>(s: seq<A>, f: A -> Option<B>)
    ensures var idx, r := KeptIndices(s, f), FilterMap(s, f);
      && |idx| == |r|
      && (forall k :: 0 <= k < |idx| ==> idx[k] < |s| && f(s[idx[k]]) == Some(r[k]))
      && (forall k, l :: 0 <= k < l < |idx| ==> idx[k] < idx[l])
      && (forall i :: 0 <= i < |s| ==> (f(s[i]).Some? <==> i in idx))
  {
    KeptIndicesBounds(s, f);
    KeptIndicesResults(s, f);
    KeptIndicesIncrease(s, f);
    KeptIndicesIff(s, f);
  }

  /** Every result comes from some item, and nothing is kept exactly
      when no item is accepted. */
  lemma {:induction false} FilterMapEmptyIff<A, B>(s: seq<A>, f: A -> Option<B>)
    ensures |FilterMap(s, f)| == 0 <==> forall i :: 0 <= i < |s| ==> f(s[i]).None?
  {
    FilterMapSpec(s, f);
    var idx := KeptIndices(s, f);
    if |FilterMap(s, f)| > 0 {
      assert f(s[idx[0]]).Some?;
    }
    if exists i :: 0 <= i < |s| && f(s[i]).Some? {
      var i :| 0 <= i < |s| && f(s[i]).Some?;
      assert i in idx;
    }
  }
}
