/** What the L1 cache holds, without its order.  A key is held until it is dropped or
    until `maxsize` distinct other held keys have been set or hit since it was last
    set or hit itself.  This decides the contents of the cache after every run of
    every operation, with any clock. */
module LruStack {
  import opened Options
  import opened LruCache
  import opened Sets
  import opened LruRefinement

  /** The held entries, and for each of them the held keys touched after it. */
  datatype Stack<V> = Stack(entries: map<string, Entry<V>>, behind: map<string, set<string>>)

  function Forget<V>(s: Stack<V>, ks: set<string>): Stack<V> {
    Stack(s.entries - ks, map j | j in s.behind && j !in ks :: s.behind[j] - ks)
  }

  /** Set or hit k; whatever then has `maxsize` keys behind it is forgotten. */
  function Push<V>(maxsize: int, s: Stack<V>, k: string, e: Entry<V>): Stack<V> {
    var behind := Touch(s.behind, k);
    Forget(Stack(s.entries[k := e], behind), set j | j in behind && |behind[j]| >= maxsize)
  }

  function StackStep<V>(maxsize: int, s: Stack<V>, e: Event<V>): Stack<V> {
    match e.op
    case OpGet(k) =>
      if k !in s.entries then s
      else if Expired(s.entries[k], e.at) then Forget(s, {k})
      else Push(maxsize, s, k, s.entries[k])
    case OpSet(k, v, ttl) => Push(maxsize, s, k, Stamp(v, ttl, e.at))
    case OpDelete(k) => Forget(s, {k})
    case OpClear => Stack(map[], map[])
    case OpCleanup => Forget(s, set k | k in s.entries && Expired(s.entries[k], e.at))
  }

  function StackAfter<V>(maxsize: int, es: seq<Event<V>>): Stack<V> {
    if es == [] then Stack(map[], map[])
    else StackStep(maxsize, StackAfter(maxsize, es[..|es| - 1]), es[|es| - 1])
  }

  // ----- The order is the stack -----

  /** Behind each key are exactly the keys later in the order. */
  ghost predicate Ordered(order: seq<string>, behind: map<string, set<string>>) {
    order == [] ||
    (order[0] in behind && behind[order[0]] == Members(order[1..]) && Ordered(order[1..], behind))
  }

  ghost predicate Agree<V>(maxsize: int, c: Lru<V>, s: Stack<V>) {
    && WellFormed(c) && |c.order| <= maxsize
    && c.data == s.entries && s.behind.Keys == s.entries.Keys
    && Ordered(c.order, s.behind)
  }

  lemma {:induction false} OrderedTouch(order: seq<string>, k: string, behind: map<string, set<string>>)
    requires Distinct(order) && Ordered(order, behind)
    ensures Ordered(Remove(order, k) + [k], Touch(behind, k))
  {
    if order == [] {
      assert Ordered([k][1..], Touch(behind, k));
    } else {
      var head, tail := order[0], order[1..];
      OrderedTouch(tail, k, behind);
      if head == k {
        RemoveAbsent(tail, k);
      } else {
        RemoveKeeps(tail, k);
        var rest := Remove(tail, k) + [k];
        assert Remove(order, k) + [k] == [head] + rest;
        hide Remove, Distinct;
        assert ([head] + rest)[1..] == rest;
        assert behind[head] + {k} == Members(rest);
      }
    }
  }

  lemma {:induction false} OrderedOutside<V>(order: seq<string>, s: Stack<V>, ks: set<string>)
    requires Distinct(order) && Ordered(order, s.behind)
    ensures Ordered(Outside(order, ks), Forget(s, ks).behind)
  {
    if order != [] {
      var head, tail := order[0], order[1..];
      OrderedOutside(tail, s, ks);
      OutsideKeeps(tail, ks);
      if head !in ks {
        assert Outside(order, ks)[1..] == Outside(tail, ks);
        assert s.behind[head] - ks == Members(Outside(tail, ks));
      }
    }
  }

  /** The number of keys behind one is its distance from the end. */
  lemma {:induction false} Distance(order: seq<string>, behind: map<string, set<string>>, i: nat)
    requires Distinct(order) && Ordered(order, behind) && i < |order|
    ensures order[i] in behind && |behind[order[i]]| == |order| - 1 - i
  {
    if i == 0 {
      DistinctCard(order[1..]);
    } else {
      Distance(order[1..], behind, i - 1);
    }
  }

  lemma ForgetAgrees<V>(maxsize: int, c: Lru<V>, s: Stack<V>, ks: set<string>)
    requires Agree(maxsize, c, s)
    ensures Agree(maxsize, Lru(Outside(c.order, ks), c.data - ks), Forget(s, ks))
  {
    OutsideKeeps(c.order, ks);
    OrderedOutside(c.order, s, ks);
    hide Ordered, Outside;
  }

  lemma DropAgrees<V>(maxsize: int, c: Lru<V>, s: Stack<V>, k: string)
    requires Agree(maxsize, c, s)
    ensures Agree(maxsize, Delete(c, k), Forget(s, {k})) && (k in c.data ==> Delete(c, k) == Drop(c, k))
  {
    hide Agree, Outside, Remove, Forget;
    KeysOfOrder(maxsize, c, s);
    ForgetAgrees(maxsize, c, s, {k});
    OneOutside(maxsize, c, s, k);
    assert k !in c.data ==> c.data - {k} == c.data;
  }

  lemma OneOutside<V>(maxsize: int, c: Lru<V>, s: Stack<V>, k: string)
    requires Agree(maxsize, c, s)
    ensures Outside(c.order, {k}) == Remove(c.order, k) && (k !in c.order ==> Remove(c.order, k) == c.order)
  {
    OutsideNothing(c.order);
    RemoveOutside(c.order, {}, k);
    assert {} + {k} == {k};
    RemoveAbsentIfMissing(c.order, k);
  }

  /** Nothing is forgotten while the order is no longer than maxsize, and with one
      more key it is the first one. */
  lemma Victims(maxsize: int, order: seq<string>, behind: map<string, set<string>>)
    requires Distinct(order) && Ordered(order, behind) && behind.Keys == Members(order)
    requires 0 < |order| <= maxsize + 1
    ensures (set j | j in behind && |behind[j]| >= maxsize) == if |order| <= maxsize then {} else {order[0]}
  {
    forall j | j in behind
      ensures |behind[j]| >= maxsize <==> |order| == maxsize + 1 && j == order[0]
    {
      var i :| 0 <= i < |order| && order[i] == j;
      Distance(order, behind, i);
    }
    hide Ordered;
    assert order[0] in behind;
  }

  lemma ForgetNothing<V>(s: Stack<V>)
    ensures Forget(s, {}) == s
  {
    var f := Forget(s, {});
    assert f.entries == s.entries;
    forall j | j in s.behind
      ensures f.behind[j] == s.behind[j]
    {
      assert s.behind[j] - {} == s.behind[j];
    }
    assert f.behind == s.behind;
  }

  function Touched<V>(s: Stack<V>, k: string, e: Entry<V>): Stack<V> {
    Stack(s.entries[k := e], Touch(s.behind, k))
  }

  /** Touching moves a key to the end, before anything is forgotten. */
  lemma TouchAgrees<V>(maxsize: int, room: int, c: Lru<V>, s: Stack<V>, k: string, e: Entry<V>)
    requires Agree(maxsize, c, s) && maxsize <= room && (k !in c.data ==> |c.order| < room)
    ensures Agree(room, Lru(Remove(c.order, k) + [k], c.data[k := e]), Touched(s, k, e))
  {
    OrderedTouch(c.order, k, s.behind);
    TouchedOrder(c, k, e);
    hide Ordered, Remove, WellFormed;
    assert Touch(s.behind, k).Keys == s.behind.Keys + {k};
  }

  lemma TouchedOrder<V>(c: Lru<V>, k: string, e: Entry<V>)
    requires WellFormed(c)
    ensures WellFormed(Lru(Remove(c.order, k) + [k], c.data[k := e]))
    ensures |Remove(c.order, k) + [k]| == if k in c.data then |c.order| else |c.order| + 1
  {
    RemoveKeeps(c.order, k);
    hide Remove;
    var order := Remove(c.order, k) + [k];
    forall x
      ensures x in order <==> x in c.data || x == k
    {
      assert x in c.order <==> x in Members(c.order);
    }
  }

  /** Touching a key that is there, or for which there is room. */
  lemma RoomyPush<V>(maxsize: int, c: Lru<V>, s: Stack<V>, k: string, e: Entry<V>)
    requires Agree(maxsize, c, s) && (k in c.data || |c.order| < maxsize)
    ensures Agree(maxsize, Lru(Remove(c.order, k) + [k], c.data[k := e]), Push(maxsize, s, k, e))
  {
    TouchAgrees(maxsize, maxsize, c, s, k, e);
    hide Ordered;
    Victims(maxsize, Remove(c.order, k) + [k], Touched(s, k, e).behind);
    ForgetNothing(Touched(s, k, e));
    hide Forget, Remove, Touch, Agree;
  }

  /** One key too many: the first one is forgotten. */
  lemma OverfullForgets<V>(maxsize: int, c: Lru<V>, s: Stack<V>)
    requires Agree(maxsize + 1, c, s) && |c.order| == maxsize + 1 >= 1
    ensures var victims := set j | j in s.behind && |s.behind[j]| >= maxsize;
            Agree(maxsize, Lru(c.order[1..], c.data - {c.order[0]}), Forget(s, victims))
  {
    Victims(maxsize, c.order, s.behind);
    ForgetAgrees(maxsize + 1, c, s, {c.order[0]});
    FirstGoes(c.order);
    hide Ordered, Outside, Forget, WellFormed;
  }

  /** Touching a new key when the cache is full: the first one goes. */
  lemma FullPush<V>(maxsize: int, c: Lru<V>, s: Stack<V>, k: string, e: Entry<V>)
    requires Agree(maxsize, c, s) && k !in c.data && |c.order| == maxsize >= 1
    ensures Agree(maxsize, Lru(c.order[1..] + [k], (c.data - {c.order[0]})[k := e]), Push(maxsize, s, k, e))
  {
    hide Agree, Remove, Forget, Touch;
    var first, order := c.order[0], c.order + [k];
    KeysOfOrder(maxsize, c, s);
    TouchAgrees(maxsize, maxsize + 1, c, s, k, e);
    RemoveAbsent(c.order, k);
    OverfullForgets(maxsize, Lru(order, c.data[k := e]), Touched(s, k, e));
    assert order[1..] == c.order[1..] + [k];
    assert c.data[k := e] - {first} == (c.data - {first})[k := e];
  }

  lemma KeysOfOrder<V>(maxsize: int, c: Lru<V>, s: Stack<V>)
    requires Agree(maxsize, c, s)
    ensures forall x :: x in c.order <==> x in c.data
  {
    assert forall x :: x in c.order <==> x in Members(c.order);
  }

  lemma FirstGoes(order: seq<string>)
    requires Distinct(order) && order != []
    ensures Outside(order, {order[0]}) == order[1..]
  {
    OutsideNothing(order);
    RemoveOutside(order, {}, order[0]);
    assert {} + {order[0]} == {order[0]};
  }

  lemma HitAgrees<V>(maxsize: int, c: Lru<V>, s: Stack<V>, k: string)
    requires Agree(maxsize, c, s) && k in c.data
    ensures Agree(maxsize, MoveToEnd(c, k), Push(maxsize, s, k, c.data[k]))
  {
    RoomyPush(maxsize, c, s, k, c.data[k]);
    assert c.data[k := c.data[k]] == c.data;
    hide Agree, Remove, Push;
  }

  lemma GetAgrees<V>(maxsize: int, c: Lru<V>, s: Stack<V>, k: string, at: real)
    requires maxsize >= 1 && Agree(maxsize, c, s)
    ensures var e := Event(at, OpGet(k)); Agree(maxsize, Step(maxsize, c, e), StackStep(maxsize, s, e))
  {
    if k in c.data {
      DropAgrees(maxsize, c, s, k);
      HitAgrees(maxsize, c, s, k);
    }
    assert c.data == s.entries;
    hide Agree, MoveToEnd, Drop, Push, Forget;
  }

  lemma SetAgrees<V>(maxsize: int, c: Lru<V>, s: Stack<V>, k: string, v: V, ttl: int, at: real)
    requires maxsize >= 1 && Agree(maxsize, c, s)
    ensures var e := Event(at, OpSet(k, v, ttl)); Agree(maxsize, Step(maxsize, c, e), StackStep(maxsize, s, e))
  {
    var entry := Stamp(v, ttl, at);
    if k in c.data || |c.order| < maxsize {
      RoomyPush(maxsize, c, s, k, entry);
      RemoveAbsentIfMissing(c.order, k);
    } else {
      FullPush(maxsize, c, s, k, entry);
    }
    hide Ordered, Remove, Push;
  }

  lemma {:induction false} RunAgrees<V>(maxsize: int, es: seq<Event<V>>)
    requires maxsize >= 1
    ensures Agree(maxsize, After(maxsize, es).0, StackAfter(maxsize, es))
  {
    if es != [] {
      var prev, e := es[..|es| - 1], es[|es| - 1];
      RunAgrees(maxsize, prev);
      var c, s := After(maxsize, prev).0, StackAfter(maxsize, prev);
      match e.op
      case OpGet(k) => GetAgrees(maxsize, c, s, k, e.at);
      case OpSet(k, v, ttl) => SetAgrees(maxsize, c, s, k, v, ttl, e.at);
      case OpDelete(k) => DropAgrees(maxsize, c, s, k);
      case OpCleanup => ForgetAgrees(maxsize, c, s, ExpiredKeys(c, e.at));
      case OpClear =>
    }
  }

  /** After every run, deletes, clears, cleanups, TTLs and any clock included, the
      cache holds exactly the entries that have not been dropped and have always had
      fewer than maxsize distinct held keys touched after them. */
  lemma EvictionIsExact<V>(maxsize: int, es: seq<Event<V>>)
    requires maxsize >= 1
    ensures After(maxsize, es).0.data == StackAfter(maxsize, es).entries
    ensures forall k :: k in StackAfter(maxsize, es).entries ==>
              k in StackAfter(maxsize, es).behind && |StackAfter(maxsize, es).behind[k]| < maxsize
  {
    RunAgrees(maxsize, es);
    var c, s := After(maxsize, es).0, StackAfter(maxsize, es);
    forall k | k in s.entries
      ensures k in s.behind && |s.behind[k]| < maxsize
    {
      assert k in Members(c.order);
      var i :| 0 <= i < |c.order| && c.order[i] == k;
      Distance(c.order, s.behind, i);
    }
  }
}
