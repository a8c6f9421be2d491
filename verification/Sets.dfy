/** Duplicate-free sequences and cardinality facts about finite sets. */
module Sets {
  ghost predicate Distinct<T>(xs: seq<T>) {
    forall i, j :: 0 <= i < j < |xs| ==> xs[i] != xs[j]
  }

  ghost function Members<T>(xs: seq<T>): set<T> {
    set x | x in xs
  }

  lemma {:induction false} SubsetCard<T>(a: set<T>, b: set<T>)
    requires a <= b
    ensures |a| <= |b|
    ensures |a| == |b| ==> a == b
  {
    if a != {} {
      var x :| x in a;
      SubsetCard(a - {x}, b - {x});
    }
  }

  lemma {:induction false} DistinctCard<T>(xs: seq<T>)
    requires Distinct(xs)
    ensures |Members(xs)| == |xs|
  {
    if xs != [] {
      var head, tail := xs[0], xs[1..];
      DistinctCard(tail);
      assert head !in tail && xs == [head] + tail;
      assert Members(xs) == Members(tail) + {head};
    }
  }

  /** The integers lo..hi-1. */
  function Range(lo: int, hi: int): (s: set<int>)
    ensures forall k :: k in s <==> lo <= k < hi
    ensures lo <= hi ==> |s| == hi - lo
    decreases if hi <= lo then 0 else hi - lo
  {
    if hi <= lo then {} else Range(lo, hi - 1) + {hi - 1}
  }

  /** Distinct integers below their number are all of 0..n-1. */
  lemma Pigeonhole(xs: seq<int>, k: int)
    requires Distinct(xs)
    requires forall i :: 0 <= i < |xs| ==> 0 <= xs[i] < |xs|
    requires 0 <= k < |xs|
    ensures k in xs
  {
    var seen := Members(xs);
    var all := Range(0, |xs|);
    DistinctCard(xs);
    hide Range;
    forall x | x in seen
      ensures x in all
    {
      var i :| 0 <= i < |xs| && xs[i] == x;
    }
    SubsetCard(seen, all);
    assert k in all;
  }

  /** `at` lists the positions that are chosen, in order. */
  ghost predicate Lists(at: seq<nat>, chosen: seq<bool>) {
    && (forall j, k :: 0 <= j < k < |at| ==> at[j] < at[k])
    && (forall k :: 0 <= k < |at| ==> at[k] < |chosen| && chosen[at[k]])
    && forall i :: 0 <= i < |chosen| && chosen[i] ==> i in at
  }

  lemma NothingListed()
    ensures Lists([], [])
  {
  }

  lemma ListedBelow(at: seq<nat>, chosen: seq<bool>)
    requires Lists(at, chosen)
    ensures forall k :: 0 <= k < |at| ==> at[k] < |chosen|
  {
  }

  function ListNext(at: seq<nat>, n: nat, b: bool): seq<nat> {
    if b then at + [n] else at
  }

  lemma ListsNext(at: seq<nat>, chosen: seq<bool>, b: bool)
    requires Lists(at, chosen)
    ensures Lists(ListNext(at, |chosen|, b), chosen + [b])
  {
    var at', all := ListNext(at, |chosen|, b), chosen + [b];
    assert forall i :: 0 <= i < |chosen| ==> all[i] == chosen[i];
    assert all[|chosen|] == b;
    if b {
      assert forall k :: 0 <= k < |at| ==> at'[k] == at[k];
      assert at'[|at|] == |chosen|;
      assert forall i :: i in at ==> i in at';
    }
  }
}
