/** Selecting from a collection: the positions of the documents a query matches, in
    collection order, and the matching documents themselves. */
module Sequences {

  /** The positions at or after `from` whose element satisfies `p`, in increasing order. */
  function PositionsFrom<T>(xs: seq<T>, p: T -> bool, from: nat): (r: seq<nat>)
    requires from <= |xs|
    ensures forall j :: 0 <= j < |r| ==> from <= r[j] < |xs| && p(xs[r[j]])
    ensures forall j, k :: 0 <= j < k < |r| ==> r[j] < r[k]
    ensures forall i :: from <= i < |xs| && p(xs[i]) ==> i in r
    decreases |xs| - from
  {
    if from == |xs| then []
    else if p(xs[from]) then [from] + PositionsFrom(xs, p, from + 1)
    else PositionsFrom(xs, p, from + 1)
  }

  /** The positions of the elements satisfying `p`. */
  function Positions<T>(xs: seq<T>, p: T -> bool): (r: seq<nat>)
    ensures forall j :: 0 <= j < |r| ==> r[j] < |xs| && p(xs[r[j]])
    ensures forall j, k :: 0 <= j < k < |r| ==> r[j] < r[k]
    ensures forall i :: 0 <= i < |xs| && p(xs[i]) ==> i in r
  {
    PositionsFrom(xs, p, 0)
  }

  /** Nothing is selected when no element satisfies `p`. */
  lemma NoPositions<T>(xs: seq<T>, p: T -> bool)
    requires forall i :: 0 <= i < |xs| ==> !p(xs[i])
    ensures Positions(xs, p) == []
  {
    NoPositionsFrom(xs, p, 0);
  }

  lemma {:induction false} NoPositionsFrom<T>(xs: seq<T>, p: T -> bool, from: nat)
    requires from <= |xs|
    requires forall i :: from <= i < |xs| ==> !p(xs[i])
    ensures PositionsFrom(xs, p, from) == []
    decreases |xs| - from
  {
    if from < |xs| {
      NoPositionsFrom(xs, p, from + 1);
    }
  }

  /** The elements satisfying `p`, in order. */
  function Filter<T>(xs: seq<T>, p: T -> bool): (r: seq<T>)
    ensures |r| <= |xs|
    ensures forall j :: 0 <= j < |r| ==> p(r[j]) && r[j] in xs
    ensures forall x :: x in xs && p(x) ==> x in r
  {
    if |xs| == 0 then []
    else (if p(xs[0]) then [xs[0]] else []) + Filter(xs[1..], p)
  }
}
