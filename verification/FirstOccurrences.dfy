/** First occurrences: the order-preserving, duplicate-free view of a list that
    the reference collectors compute with an append list and a `seen` set. */
module FirstOccurrences {
  import opened Sets

  function Firsts<T(==)>(xs: seq<T>): seq<T> {
    if xs == [] then []
    else
      var kept, x := Firsts(xs[..|xs| - 1]), xs[|xs| - 1];
      if x in kept then kept else kept + [x]
  }

  /** Position of the first x. */
  ghost function IndexOf<T>(xs: seq<T>, x: T): (i: nat)
    requires x in xs
    ensures i < |xs| && xs[i] == x && x !in xs[..i]
  {
    if xs[0] == x then 0
    else
      assert x in xs[1..];
      1 + IndexOf(xs[1..], x)
  }

  /** r lists each element of xs once, in the order of first appearance. */
  ghost predicate ListsFirsts<T(!new)>(xs: seq<T>, r: seq<T>) {
    && Distinct(r)
    && (forall x :: x in r <==> x in xs)
    && forall i, j :: 0 <= i < j < |r| && r[i] in xs && r[j] in xs ==> IndexOf(xs, r[i]) < IndexOf(xs, r[j])
  }

  lemma IndexOfIs<T(!new)>(xs: seq<T>, x: T, i: nat)
    requires i < |xs| && xs[i] == x && x !in xs[..i]
    ensures x in xs && IndexOf(xs, x) == i
  {
    var k := IndexOf(xs, x);
    assert forall j :: 0 <= j < i ==> xs[j] in xs[..i];
    assert forall j :: 0 <= j < k ==> xs[j] in xs[..k];
  }

  lemma IndexOfPrefix<T(!new)>(xs: seq<T>, n: nat, x: T)
    requires n <= |xs| && x in xs[..n]
    ensures x in xs && IndexOf(xs, x) == IndexOf(xs[..n], x)
  {
    var k := IndexOf(xs[..n], x);
    assert xs[..n][..k] == xs[..k];
    IndexOfIs(xs, x, k);
  }

  lemma {:induction false} FirstsLists<T(!new)>(xs: seq<T>)
    ensures ListsFirsts(xs, Firsts(xs))
  {
    if xs != [] {
      var n := |xs| - 1;
      var prev, x := xs[..n], xs[n];
      var kept := Firsts(prev);
      FirstsLists(prev);
      assert xs == prev + [x];
      forall y | y in prev
        ensures y in xs && IndexOf(xs, y) == IndexOf(prev, y) < n
      {
        IndexOfPrefix(xs, n, y);
      }
      if x !in kept {
        IndexOfIs(xs, x, n);
      }
    }
  }

  /** The specification has only one solution, so Firsts is that list. */
  lemma {:induction false} FirstsIsUnique<T(!new)>(xs: seq<T>, r: seq<T>)
    requires ListsFirsts(xs, r)
    ensures r == Firsts(xs)
    decreases |xs|
  {
    if xs == [] {
      if r != [] {
        HasMember(r);
      }
    } else {
      var n := |xs| - 1;
      var prev, x := xs[..n], xs[n];
      assert xs == prev + [x];
      forall y | y in prev
        ensures y in xs && IndexOf(xs, y) == IndexOf(prev, y) < n
      {
        IndexOfPrefix(xs, n, y);
      }
      if x in prev {
        assert ListsFirsts(prev, r);
        FirstsIsUnique(prev, r);
        FirstsLists(prev);
      } else {
        IndexOfIs(xs, x, n);
        LastIsNewest(xs, r);
        var m := |r| - 1;
        assert r == r[..m] + [x];
        assert x !in r[..m];
        assert ListsFirsts(prev, r[..m]);
        FirstsIsUnique(prev, r[..m]);
        FirstsLists(prev);
      }
    }
  }

  lemma HasMember<T(!new)>(r: seq<T>)
    requires r != []
    ensures exists x :: x in r
  {
    assert r[0] in r;
  }

  lemma LastIsNewest<T(!new)>(xs: seq<T>, r: seq<T>)
    requires ListsFirsts(xs, r) && xs != [] && xs[|xs| - 1] !in xs[..|xs| - 1]
    ensures r != [] && r[|r| - 1] == xs[|xs| - 1]
  {
    var x := xs[|xs| - 1];
    IndexOfIs(xs, x, |xs| - 1);
    assert x in xs && x in r;
    var k := IndexOf(r, x);
    var y := r[|r| - 1];
    assert y in r && y in xs && IndexOf(xs, y) <= IndexOf(xs, x);
  }

  // ----- Algebra -----

  lemma FirstsElements<T(!new)>(xs: seq<T>)
    ensures Distinct(Firsts(xs)) && forall x :: x in Firsts(xs) <==> x in xs
  {
    FirstsLists(xs);
  }

  lemma {:induction false} FirstsOfDistinct<T(!new)>(xs: seq<T>)
    requires Distinct(xs)
    ensures Firsts(xs) == xs
  {
    if xs != [] {
      FirstsOfDistinct(xs[..|xs| - 1]);
      assert xs == xs[..|xs| - 1] + [xs[|xs| - 1]];
    }
  }

  /** Deduplicating a part first changes nothing. */
  lemma {:induction false} FirstsAppend<T(!new)>(a: seq<T>, b: seq<T>)
    ensures Firsts(Firsts(a) + b) == Firsts(a + b)
    decreases |b|
  {
    if b == [] {
      assert a + b == a && Firsts(a) + b == Firsts(a);
      FirstsElements(a);
      FirstsOfDistinct(Firsts(a));
    } else {
      var n := |b| - 1;
      assert (a + b)[..|a| + n] == a + b[..n];
      assert (Firsts(a) + b)[..|Firsts(a)| + n] == Firsts(a) + b[..n];
      FirstsAppend(a, b[..n]);
    }
  }

  lemma FirstsSnoc<T(!new)>(xs: seq<T>, x: T)
    ensures Firsts(xs + [x]) == if x in Firsts(xs) then Firsts(xs) else Firsts(xs) + [x]
  {
    assert (xs + [x])[..|xs|] == xs;
  }

  lemma {:induction false} FirstsAppendRight<T(!new)>(a: seq<T>, b: seq<T>)
    ensures Firsts(a + Firsts(b)) == Firsts(a + b)
    decreases |b|
  {
    if b != [] {
      var n := |b| - 1;
      var p, x := b[..n], b[n];
      FirstsAppendRight(a, p);
      assert b == p + [x] && a + b == a + p + [x];
      AppendRightNext(a, p, x);
    }
  }

  lemma AppendRightNext<T(!new)>(a: seq<T>, p: seq<T>, x: T)
    requires Firsts(a + Firsts(p)) == Firsts(a + p)
    ensures Firsts(a + Firsts(p + [x])) == Firsts(a + p + [x])
  {
    SameMembers(a, p, x);
    FirstsSnoc(p, x);
    FirstsSnoc(a + p, x);
    FirstsSnoc(a + Firsts(p), x);
    hide Firsts;
    assert a + Firsts(p) + [x] == a + (Firsts(p) + [x]);
  }

  lemma SameMembers<T(!new)>(a: seq<T>, p: seq<T>, x: T)
    ensures x in Firsts(p) <==> x in p
    ensures x in Firsts(a + p) <==> x in a || x in p
  {
    FirstsElements(p);
    FirstsElements(a + p);
  }

  function Positives(xs: seq<int>): seq<int> {
    if xs == [] then []
    else if xs[|xs| - 1] > 0 then Positives(xs[..|xs| - 1]) + [xs[|xs| - 1]]
    else Positives(xs[..|xs| - 1])
  }

  lemma {:induction false} PositivesAppend(a: seq<int>, b: seq<int>)
    ensures Positives(a + b) == Positives(a) + Positives(b)
    decreases |b|
  {
    if b == [] {
      assert a + b == a;
    } else {
      assert (a + b)[..|a| + |b| - 1] == a + b[..|b| - 1];
      PositivesAppend(a, b[..|b| - 1]);
    }
  }

  lemma {:induction false} PositivesElements(xs: seq<int>)
    ensures forall x :: x in Positives(xs) <==> x in xs && x > 0
  {
    if xs != [] {
      PositivesElements(xs[..|xs| - 1]);
      assert xs == xs[..|xs| - 1] + [xs[|xs| - 1]];
    }
  }

  lemma {:induction false} PositivesOfPositive(xs: seq<int>)
    requires forall i :: 0 <= i < |xs| ==> xs[i] > 0
    ensures Positives(xs) == xs
  {
    if xs != [] {
      assert xs == xs[..|xs| - 1] + [xs[|xs| - 1]];
      PositivesOfPositive(xs[..|xs| - 1]);
    }
  }

  /** The collectors' loop body: skip what is not positive or already seen. */
  method PushUnique(target: seq<int>, seen: set<int>, value: int) returns (target': seq<int>, seen': set<int>)
    requires seen == Members(target)
    ensures seen' == Members(target')
    ensures target' == if value <= 0 || value in target then target else target + [value]
  {
    if value <= 0 || value in seen {
      return target, seen;
    }
    return target + [value], seen + {value};
  }

  /** One `for` loop of pushes: extends a list of first positives by more input. */
  method PushAll(target: seq<int>, seen: set<int>, values: seq<int>, ghost before: seq<int>)
    returns (target': seq<int>, seen': set<int>)
    requires seen == Members(target)
    requires target == Firsts(Positives(before))
    ensures seen' == Members(target')
    ensures target' == Firsts(Positives(before + values))
  {
    hide Firsts, Positives, Members;
    target', seen' := target, seen;
    assert before + values[..0] == before;
    for i := 0 to |values|
      invariant seen' == Members(target')
      invariant target' == Firsts(Positives(before + values[..i]))
    {
      PushStep(before + values[..i], values[i]);
      assert before + values[..i + 1] == before + values[..i] + [values[i]];
      target', seen' := PushUnique(target', seen', values[i]);
    }
    assert values[..|values|] == values;
  }

  lemma PushStep(xs: seq<int>, x: int)
    ensures var kept := Firsts(Positives(xs));
            Firsts(Positives(xs + [x])) == if x <= 0 || x in kept then kept else kept + [x]
  {
    assert (xs + [x])[..|xs|] == xs;
    var ps := Positives(xs);
    if x > 0 {
      assert (ps + [x])[..|ps|] == ps;
    }
  }
}
