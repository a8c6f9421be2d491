/** Checking and reordering an embeddings response.  The gateway may return the
    items in any order; each carries its index, and the caller needs the vectors in
    request order. */
module Embeddings {
  import opened Options
  import opened JsonValues
  import opened Sets

  datatype Item = Item(index: int, vector: seq<real>)

  datatype Parsed = InvalidResponse | Vectors(vectors: seq<seq<real>>)

  predicate IsNumber(j: Json) {
    j.JInt? || j.JFloat?
  }

  function AsFloat(j: Json): real
    requires IsNumber(j)
  {
    if j.JInt? then j.i as real else j.r
  }

  predicate AllNumbers(js: seq<Json>) {
    forall i :: 0 <= i < |js| ==> IsNumber(js[i])
  }

  function Floats(js: seq<Json>): seq<real>
    requires AllNumbers(js)
  {
    seq(|js|, i requires 0 <= i < |js| => AsFloat(js[i]))
  }

  /** The response contract on one element: exactly three keys, an integer index
      and a non-empty vector of finite numbers. */
  predicate Shaped(j: Json) {
    && j.JObj? && j.fields.Keys == {"object", "embedding", "index"}
    && j.fields["object"] == JStr("embedding")
    && j.fields["index"].JInt?
    && j.fields["embedding"].JArr? && j.fields["embedding"].items != [] && AllNumbers(j.fields["embedding"].items)
  }

  function ItemOf(j: Json): Item {
    if Shaped(j) then Item(j.fields["index"].i, Floats(j.fields["embedding"].items)) else Item(-1, [])
  }

  /** ... with the index in range and the dimension as expected. */
  predicate WellFormed(j: Json, n: int, dims: Option<int>) {
    && Shaped(j) && 0 <= ItemOf(j).index < n
    && (dims.Some? ==> |ItemOf(j).vector| == dims.value)
  }

  /** Every element is well formed, no index repeats, and all vectors have the
      same length. */
  ghost predicate Acceptable(data: seq<Json>, n: int, dims: Option<int>) {
    && |data| == n >= 1
    && (forall i :: 0 <= i < n ==> WellFormed(data[i], n, dims))
    && (forall i, j :: 0 <= i < j < n ==> ItemOf(data[i]).index != ItemOf(data[j]).index)
    && (forall i, j :: 0 <= i < n && 0 <= j < n ==> |ItemOf(data[i]).vector| == |ItemOf(data[j]).vector|)
  }

  /** vectors[k] is the vector of the element indexed k. */
  ghost predicate InOrder(data: seq<Json>, n: int, dims: Option<int>, vectors: seq<seq<real>>)
    requires Acceptable(data, n, dims)
  {
    |vectors| == n && forall i :: 0 <= i < n ==> vectors[ItemOf(data[i]).index] == ItemOf(data[i]).vector
  }

  /** The float conversion loop; fails on booleans, non-numbers and non-finite
      values. */
  method ReadVector(js: seq<Json>) returns (ok: bool, v: seq<real>)
    ensures ok <==> AllNumbers(js)
    ensures ok ==> v == Floats(js)
  {
    v := [];
    for i := 0 to |js|
      invariant AllNumbers(js[..i]) && |v| == i && forall k :: 0 <= k < i ==> v[k] == AsFloat(js[k])
    {
      if !IsNumber(js[i]) {
        return false, [];
      }
      v := v + [AsFloat(js[i])];
    }
    return true, v;
  }

  /** The checks on one element, apart from the repeated index. */
  method ReadItem(j: Json, n: int, dims: Option<int>) returns (ok: bool, it: Item)
    ensures ok <==> WellFormed(j, n, dims)
    ensures ok ==> it == ItemOf(j)
  {
    it := Item(0, []);
    if !j.JObj? || j.fields.Keys != {"object", "embedding", "index"} {
      return false, it;
    }
    var o := j.fields;
    assert "object" in o.Keys && "index" in o.Keys && "embedding" in o.Keys;
    if o["object"] != JStr("embedding") || !o["index"].JInt? || o["index"].i < 0 || o["index"].i >= n {
      return false, it;
    }
    if !o["embedding"].JArr? || o["embedding"].items == [] {
      return false, it;
    }
    var v;
    ok, v := ReadVector(o["embedding"].items);
    if !ok || (dims.Some? && |v| != dims.value) {
      return false, it;
    }
    return true, Item(o["index"].i, v);
  }

  /** What the loop has collected from the first m elements. */
  ghost predicate Collected(data: seq<Json>, m: nat, n: int, dims: Option<int>, indexed: map<int, seq<real>>) {
    && m <= |data|
    && (forall i :: 0 <= i < m ==> WellFormed(data[i], n, dims))
    && (forall i, j :: 0 <= i < j < m ==> ItemOf(data[i]).index != ItemOf(data[j]).index)
    && (forall i :: 0 <= i < m ==>
          ItemOf(data[i]).index in indexed && indexed[ItemOf(data[i]).index] == ItemOf(data[i]).vector)
    && (forall k :: k in indexed ==> exists i :: 0 <= i < m && ItemOf(data[i]).index == k)
    && |indexed| == m
  }

  /** `_parse_vectors`: accepts exactly the acceptable responses and returns their
      vectors in index order. */
  method ParseVectors(body: Object, n: int, dims: Option<int>) returns (r: Parsed)
    ensures var d := Field(body, "data");
            r.Vectors? <==> d.JArr? && Acceptable(d.items, n, dims)
    ensures r.Vectors? ==> InOrder(body["data"].items, n, dims, r.vectors)
  {
    var d := Field(body, "data");
    if !d.JArr? || |d.items| != n {
      return InvalidResponse;
    }
    var ok, indexed := CollectItems(d.items, n, dims);
    if !ok {
      return InvalidResponse;
    }
    r := ReadVectors(d.items, n, dims, indexed);
  }

  /** The loop over the elements, filling the dictionary. */
  method CollectItems(data: seq<Json>, n: int, dims: Option<int>) returns (ok: bool, indexed: map<int, seq<real>>)
    requires |data| == n
    ensures ok ==> Collected(data, n, n, dims, indexed)
    ensures !ok ==> !Acceptable(data, n, dims)
  {
    indexed := map[];
    NothingCollected(data, n, dims);
    hide Acceptable, Collected, ItemOf, WellFormed;
    for m := 0 to n
      invariant Collected(data, m, n, dims, indexed)
    {
      var good, it := ReadItem(data[m], n, dims);
      if !good || it.index in indexed {
        RejectedAt(data, m, n, dims, indexed);
        return false, indexed;
      }
      indexed := Extend(data, m, n, dims, indexed, it);
    }
    ok := true;
  }

  /** The checks after the loop and the ordered read-out. */
  method ReadVectors(ghost data: seq<Json>, n: int, dims: Option<int>, indexed: map<int, seq<real>>) returns (r: Parsed)
    requires |data| == n && Collected(data, n, n, dims, indexed)
    ensures r.Vectors? <==> Acceptable(data, n, dims)
    ensures r.Vectors? ==> InOrder(data, n, dims, r.vectors)
  {
    hide Acceptable, Collected, InOrder, Range;
    IndexesAreComplete(data, n, dims, indexed);
    var complete := indexed.Keys == Range(0, n);
    assert complete;    // the completeness check of the source cannot fail
    var lengths := set k | k in indexed :: |indexed[k]|;
    LengthsAgree(data, n, dims, indexed, lengths);
    if !complete || |lengths| != 1 {
      return InvalidResponse;
    }
    var vectors := seq(n, k requires 0 <= k < n => if k in indexed then indexed[k] else []);
    ReadOut(data, n, dims, indexed, vectors);
    return Vectors(vectors);
  }

  lemma NothingCollected(data: seq<Json>, n: int, dims: Option<int>)
    ensures Collected(data, 0, n, dims, map[])
  {
  }

  /** A malformed element or a repeated index makes the response unacceptable. */
  lemma RejectedAt(data: seq<Json>, m: nat, n: int, dims: Option<int>, indexed: map<int, seq<real>>)
    requires Collected(data, m, n, dims, indexed) && m < |data| == n
    requires !WellFormed(data[m], n, dims) || ItemOf(data[m]).index in indexed
    ensures !Acceptable(data, n, dims)
  {
    hide ItemOf, WellFormed;
    if ItemOf(data[m]).index in indexed {
      var i :| 0 <= i < m && ItemOf(data[i]).index == ItemOf(data[m]).index;
    }
  }

  lemma ReadOut(data: seq<Json>, n: int, dims: Option<int>, indexed: map<int, seq<real>>, vectors: seq<seq<real>>)
    requires n >= 0 && Collected(data, n, n, dims, indexed) && Acceptable(data, n, dims)
    requires |vectors| == n && forall k :: 0 <= k < n && k in indexed ==> vectors[k] == indexed[k]
    ensures InOrder(data, n, dims, vectors)
  {
  }

  method Extend(data: seq<Json>, m: nat, n: int, dims: Option<int>, indexed: map<int, seq<real>>, it: Item)
    returns (indexed': map<int, seq<real>>)
    requires Collected(data, m, n, dims, indexed) && m < |data| && WellFormed(data[m], n, dims)
    requires it == ItemOf(data[m]) && it.index !in indexed
    ensures indexed' == indexed[it.index := it.vector]
    ensures Collected(data, m + 1, n, dims, indexed')
  {
    hide ItemOf, WellFormed;
    indexed' := indexed[it.index := it.vector];
    forall k | k in indexed'
      ensures exists i :: 0 <= i < m + 1 && ItemOf(data[i]).index == k
    {
      if k == it.index {
        assert ItemOf(data[m]).index == k;
      } else {
        assert k in indexed;
        var i :| 0 <= i < m && ItemOf(data[i]).index == k;
        assert ItemOf(data[i]).index == k;
      }
    }
  }

  /** Pigeonhole: n distinct indexes below n are all of them. */
  lemma IndexesAreComplete(data: seq<Json>, n: int, dims: Option<int>, indexed: map<int, seq<real>>)
    requires |data| == n && Collected(data, n, n, dims, indexed)
    ensures indexed.Keys == Range(0, n)
  {
    forall k | k in indexed
      ensures 0 <= k < n
    {
      var i :| 0 <= i < n && ItemOf(data[i]).index == k;
      assert WellFormed(data[i], n, dims);
    }
    assert indexed.Keys <= Range(0, n);
    SubsetCard(indexed.Keys, Range(0, n));
  }

  lemma SingletonCard<T>(s: set<T>)
    ensures |s| == 1 <==> s != {} && forall x, y :: x in s && y in s ==> x == y
  {
    if s != {} {
      var x :| x in s;
      var rest := s - {x};
      assert s == rest + {x};
      if rest != {} {
        var y :| y in rest;
        assert y in s && y != x;
      }
    }
  }

  lemma LengthsAgree(data: seq<Json>, n: int, dims: Option<int>, indexed: map<int, seq<real>>, lengths: set<int>)
    requires |data| == n && Collected(data, n, n, dims, indexed)
    requires lengths == set k | k in indexed :: |indexed[k]|
    ensures |lengths| == 1 <==> Acceptable(data, n, dims)
  {
    hide ItemOf, WellFormed;
    SingletonCard(lengths);
    if n >= 1 {
      assert ItemOf(data[0]).index in indexed;
      assert |indexed[ItemOf(data[0]).index]| in lengths;
    } else {
      assert indexed == map[];
    }
    if Acceptable(data, n, dims) {
      forall x, y | x in lengths && y in lengths
        ensures x == y
      {
        var k :| k in indexed && x == |indexed[k]|;
        var l :| l in indexed && y == |indexed[l]|;
        var i :| 0 <= i < n && ItemOf(data[i]).index == k;
        var j :| 0 <= j < n && ItemOf(data[j]).index == l;
      }
    }
    if |lengths| == 1 {
      forall i, j | 0 <= i < n && 0 <= j < n
        ensures |ItemOf(data[i]).vector| == |ItemOf(data[j]).vector|
      {
        assert |indexed[ItemOf(data[i]).index]| in lengths && |indexed[ItemOf(data[j]).index]| in lengths;
      }
    }
  }

  // ----- The order of the response does not matter -----

  lemma {:induction false} CountOf<T>(s: seq<T>, x: T, i: nat, j: nat)
    requires i < j < |s| && s[i] == x && s[j] == x
    ensures multiset(s)[x] >= 2
  {
    assert s == s[..j] + s[j..];
    assert s[..j][i] == x && s[j..][0] == x;
    assert x in s[..j] && x in s[j..];
  }

  lemma {:induction false} TwicePresent<T(!new)>(s: seq<T>, x: T)
    requires multiset(s)[x] >= 2
    ensures exists i, j :: 0 <= i < j < |s| && s[i] == x && s[j] == x
  {
    var n := |s| - 1;
    assert s == s[..n] + [s[n]];
    if multiset(s[..n])[x] >= 2 {
      TwicePresent(s[..n], x);
      var i, j :| 0 <= i < j < n && s[..n][i] == x && s[..n][j] == x;
      assert s[i] == x && s[j] == x;
    } else {
      assert s[n] == x && x in s[..n];
      var i :| 0 <= i < n && s[..n][i] == x;
      assert s[i] == x && s[n] == x;
    }
  }

  lemma SameElements<T>(a: seq<T>, b: seq<T>, i: nat)
    requires multiset(a) == multiset(b) && i < |a|
    ensures a[i] in b
  {
    assert a[i] in multiset(a);
  }

  lemma AcceptableReordered(data: seq<Json>, data': seq<Json>, n: int, dims: Option<int>)
    requires multiset(data) == multiset(data') && Acceptable(data, n, dims)
    ensures Acceptable(data', n, dims)
  {
    assert |multiset(data)| == |data| && |multiset(data')| == |data'|;
    forall i | 0 <= i < n
      ensures data'[i] in data
    {
      SameElements(data', data, i);
    }
    forall i, j | 0 <= i < j < n
      ensures ItemOf(data'[i]).index != ItemOf(data'[j]).index
    {
      var k :| 0 <= k < n && data[k] == data'[i];
      var l :| 0 <= l < n && data[l] == data'[j];
      if k == l {
        CountOf(data', data'[i], i, j);
        TwicePresent(data, data'[i]);
      }
    }
  }

  /** Acceptance and result are the same for every ordering of the response. */
  lemma OrderIsIrrelevant(data: seq<Json>, data': seq<Json>, n: int, dims: Option<int>)
    requires multiset(data) == multiset(data')
    ensures Acceptable(data, n, dims) <==> Acceptable(data', n, dims)
    ensures Acceptable(data, n, dims) ==>
              forall v, v' :: InOrder(data, n, dims, v) && InOrder(data', n, dims, v') ==> v == v'
  {
    if Acceptable(data, n, dims) {
      AcceptableReordered(data, data', n, dims);
      forall v, v' | InOrder(data, n, dims, v) && InOrder(data', n, dims, v')
        ensures v == v'
      {
        SameVectors(data, data', n, dims, v, v');
      }
    }
    if Acceptable(data', n, dims) {
      AcceptableReordered(data', data, n, dims);
    }
  }

  lemma SameVectors(data: seq<Json>, data': seq<Json>, n: int, dims: Option<int>, v: seq<seq<real>>, v': seq<seq<real>>)
    requires multiset(data) == multiset(data') && Acceptable(data, n, dims) && Acceptable(data', n, dims)
    requires InOrder(data, n, dims, v) && InOrder(data', n, dims, v')
    ensures v == v'
  {
    forall k | 0 <= k < n
      ensures v[k] == v'[k]
    {
      var i := EveryIndexOccurs(data, n, dims, k);
      SameElements(data, data', i);
      var j :| 0 <= j < n && data'[j] == data[i];
    }
  }

  /** Acceptable indexes are a permutation of 0..n-1. */
  lemma EveryIndexOccurs(data: seq<Json>, n: int, dims: Option<int>, k: int) returns (i: nat)
    requires Acceptable(data, n, dims) && 0 <= k < n
    ensures i < n && ItemOf(data[i]).index == k
  {
    var xs := seq(n, i requires 0 <= i < n => ItemOf(data[i]).index);
    Pigeonhole(xs, k);
    i :| 0 <= i < n && xs[i] == k;
  }
}
