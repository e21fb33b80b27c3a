/**
 * `Array.prototype.filter` with a callback that ignores the index: the
 * elements the callback keeps, in their original order.
 */
module JsArray {

  function Filter<T>(s: seq<T>, keep: T -> bool): (r: seq<T>)
    ensures |r| <= |s|
    ensures forall k :: 0 <= k < |r| ==> keep(r[k])
  {
    if s == [] then []
    else Filter(s[..|s| - 1], keep) + (if keep(s[|s| - 1]) then [s[|s| - 1]] else [])
  }

  /** The positions the filter keeps, in increasing order. */
  function KeptPositions<T>(s: seq<T>, keep: T -> bool): seq<nat> {
    if s == [] then []
    else KeptPositions(s[..|s| - 1], keep) + (if keep(s[|s| - 1]) then [|s| - 1] else [])
  }

  /** The filter's result is an order-preserving subsequence: its k-th element is
      the element at the k-th kept position, the positions increase, and a
      position is kept exactly when the callback accepts its element. */
  lemma {:induction false} FilterIsOrderedSubsequence<T>(s: seq<T>, keep: T -> bool)
    ensures |KeptPositions(s, keep)| == |Filter(s, keep)|
    ensures forall k :: 0 <= k < |KeptPositions(s, keep)| ==>
      KeptPositions(s, keep)[k] < |s| && Filter(s, keep)[k] == s[KeptPositions(s, keep)[k]]
    ensures forall k, l :: 0 <= k < l < |KeptPositions(s, keep)| ==>
      KeptPositions(s, keep)[k] < KeptPositions(s, keep)[l]
    ensures forall i :: 0 <= i < |s| ==> (keep(s[i]) <==> i in KeptPositions(s, keep))
  {
    if s != [] {
      var n := |s| - 1;
      var init := s[..n];
      FilterIsOrderedSubsequence(init, keep);
      assert forall i :: 0 <= i < n ==> init[i] == s[i];
    }
  }

  /** The filter leaves nothing exactly when the callback accepts no element. */
  lemma {:induction false} FilterEmptyIff<T>(s: seq<T>, keep: T -> bool)
    ensures Filter(s, keep) == [] <==> forall i :: 0 <= i < |s| ==> !keep(s[i])
  {
    if s != [] {
      var n := |s| - 1;
      var init := s[..n];
      FilterEmptyIff(init, keep);
      assert forall i :: 0 <= i < n ==> init[i] == s[i];
    }
  }

  /** The filter keeps everything exactly when the callback accepts every element. */
  lemma {:induction false} FilterAllIff<T>(s: seq<T>, keep: T -> bool)
    ensures Filter(s, keep) == s <==> forall i :: 0 <= i < |s| ==> keep(s[i])
  {
    if s != [] {
      var n := |s| - 1;
      var init := s[..n];
      FilterAllIff(init, keep);
      assert forall i :: 0 <= i < n ==> init[i] == s[i];
      if !keep(s[n]) {
        assert |Filter(s, keep)| < |s|;
      } else if Filter(s, keep) == s {
        assert Filter(init, keep) == init;
      }
    }
  }

  /** A callback and its negation split the input between them. */
  lemma {:induction false} FilterPartition<T>(s: seq<T>, keep: T -> bool, drop: T -> bool)
    requires forall x :: drop(x) == !keep(x)
    ensures |Filter(s, keep)| + |Filter(s, drop)| == |s|
  {
    if s != [] {
      FilterPartition(s[..|s| - 1], keep, drop);
    }
  }

  /** The positions whose element the callback accepts. */
  function AcceptedPositions<T>(s: seq<T>, keep: T -> bool): set<nat> {
    set i: nat | i < |s| && keep(s[i])
  }

  /** The length of the filter's result is the number of accepted positions. */
  lemma {:induction false} FilterCountsPositions<T>(s: seq<T>, keep: T -> bool)
    ensures |Filter(s, keep)| == |AcceptedPositions(s, keep)|
  {
    if s != [] {
      var n := |s| - 1;
      var init := s[..n];
      FilterCountsPositions(init, keep);
      assert forall i: nat :: i < n ==> init[i] == s[i];
      if keep(s[n]) {
        assert AcceptedPositions(s, keep) == AcceptedPositions(init, keep) + {n};
      } else {
        assert AcceptedPositions(s, keep) == AcceptedPositions(init, keep);
      }
    }
  }
}
