/** The L1 cache: an ordered dictionary with TTLs and least-recently-used
    eviction.  The reference it is compared with is a TTL map that never evicts. */
module LruCache {
  import opened Options
  import opened Sets

  /** `expiresAt` zero means that the entry never expires. */
  datatype Entry<V> = Entry(value: V, expiresAt: real)

  /** Python's OrderedDict: the keys in order, least recently used first. */
  datatype Lru<V> = Lru(order: seq<string>, data: map<string, Entry<V>>)

  predicate Expired<V>(e: Entry<V>, now: real) {
    e.expiresAt != 0.0 && now > e.expiresAt
  }

  function Stamp<V>(v: V, ttl: int, now: real): Entry<V> {
    Entry(v, if ttl > 0 then now + ttl as real else 0.0)
  }

  function Remove(order: seq<string>, k: string): seq<string> {
    if order == [] then []
    else if order[0] == k then order[1..]
    else [order[0]] + Remove(order[1..], k)
  }

  /** The keys of `order` outside `ks`, in order. */
  function Outside(order: seq<string>, ks: set<string>): seq<string> {
    if order == [] then []
    else if order[0] in ks then Outside(order[1..], ks)
    else [order[0]] + Outside(order[1..], ks)
  }

  function Drop<V>(c: Lru<V>, k: string): Lru<V> {
    Lru(Remove(c.order, k), c.data - {k})
  }

  function MoveToEnd<V>(c: Lru<V>, k: string): Lru<V> {
    c.(order := Remove(c.order, k) + [k])
  }

  function Get<V>(c: Lru<V>, k: string, now: real): (Lru<V>, Option<V>) {
    if k !in c.data then (c, None)
    else if Expired(c.data[k], now) then (Drop(c, k), None)
    else (MoveToEnd(c, k), Some(c.data[k].value))
  }

  /** Room for a new key: the front entry goes when the cache is full. */
  function MakeRoom<V>(maxsize: int, c: Lru<V>): Lru<V> {
    if |c.order| >= maxsize && c.order != [] then Lru(c.order[1..], c.data - {c.order[0]}) else c
  }

  /** Python's popitem fails on an empty dictionary. */
  predicate SetRaises<V>(maxsize: int, c: Lru<V>, k: string) {
    k !in c.data && |c.order| >= maxsize && c.order == []
  }

  function Set<V>(maxsize: int, c: Lru<V>, k: string, e: Entry<V>): Lru<V> {
    if k in c.data then MoveToEnd(c, k).(data := c.data[k := e])
    else
      var room := MakeRoom(maxsize, c);
      Lru(room.order + [k], room.data[k := e])
  }

  function Delete<V>(c: Lru<V>, k: string): Lru<V> {
    if k in c.data then Drop(c, k) else c
  }

  function ExpiredKeys<V>(c: Lru<V>, now: real): set<string> {
    set k | k in c.data && Expired(c.data[k], now)
  }

  function Cleanup<V>(c: Lru<V>, now: real): Lru<V> {
    var ks := ExpiredKeys(c, now);
    Lru(Outside(c.order, ks), c.data - ks)
  }

  ghost predicate WellFormed<V>(c: Lru<V>) {
    Distinct(c.order) && Members(c.order) == c.data.Keys
  }

  // ----- The ordered-dictionary primitives -----

  lemma {:induction false} RemoveKeeps(order: seq<string>, k: string)
    requires Distinct(order)
    ensures Distinct(Remove(order, k))
    ensures forall x :: x in Remove(order, k) <==> x in order && x != k
    ensures |Remove(order, k)| == if k in order then |order| - 1 else |order|
  {
    if order != [] {
      var head, tail := order[0], order[1..];
      assert head !in tail;
      assert order == [head] + tail;
      if head != k {
        RemoveKeeps(tail, k);
        assert head !in Remove(tail, k);
      }
    }
  }

  lemma {:induction false} OutsideKeeps(order: seq<string>, ks: set<string>)
    requires Distinct(order)
    ensures Distinct(Outside(order, ks))
    ensures forall x :: x in Outside(order, ks) <==> x in order && x !in ks
    ensures |Outside(order, ks)| <= |order|
  {
    if order != [] {
      var head, tail := order[0], order[1..];
      OutsideKeeps(tail, ks);
      assert head !in tail;
      assert order == [head] + tail;
    }
  }

  lemma {:induction false} RemoveOutside(order: seq<string>, ks: set<string>, k: string)
    requires Distinct(order)
    ensures Remove(Outside(order, ks), k) == Outside(order, ks + {k})
  {
    if order != [] {
      var head, tail := order[0], order[1..];
      RemoveOutside(tail, ks, k);
      assert head !in tail;
      if head !in ks {
        assert Outside(order, ks) == [head] + Outside(tail, ks);
        assert ([head] + Outside(tail, ks))[1..] == Outside(tail, ks);
        if head == k {
          OutsideKeeps(tail, ks);
          RemoveAbsent(Outside(tail, ks), k);
        }
      }
    }
  }

  lemma {:induction false} RemoveAbsent(order: seq<string>, k: string)
    requires k !in order
    ensures Remove(order, k) == order
  {
    if order != [] {
      RemoveAbsent(order[1..], k);
    }
  }

  lemma {:induction false} OutsideNothing(order: seq<string>)
    ensures Outside(order, {}) == order
  {
    if order != [] {
      OutsideNothing(order[1..]);
    }
  }

  lemma CleanupWellFormed<V>(c: Lru<V>, now: real)
    requires WellFormed(c)
    ensures WellFormed(Cleanup(c, now))
  {
    OutsideKeeps(c.order, ExpiredKeys(c, now));
  }

  lemma PopKeeps<V>(c: Lru<V>)
    requires WellFormed(c) && c.order != []
    ensures WellFormed(Lru(c.order[1..], c.data - {c.order[0]}))
  {
    assert c.order == [c.order[0]] + c.order[1..];
    assert c.order[0] !in c.order[1..];
  }

  lemma MoveKeeps<V>(c: Lru<V>, k: string)
    requires WellFormed(c) && k in c.data
    ensures WellFormed(MoveToEnd(c, k))
  {
    RemoveKeeps(c.order, k);
    hide Remove;
  }

  lemma SetKeeps<V>(maxsize: int, c: Lru<V>, k: string, e: Entry<V>)
    requires WellFormed(c)
    ensures WellFormed(Set(maxsize, c, k, e))
  {
    if k in c.data {
      MoveKeeps(c, k);
    } else if |c.order| >= maxsize && c.order != [] {
      PopKeeps(c);
    }
    hide Remove;
  }

  lemma NextElement(order: seq<string>, i: nat)
    requires Distinct(order) && i < |order|
    ensures order[i] !in Members(order[..i])
    ensures Members(order[..i + 1]) == Members(order[..i]) + {order[i]}
  {
    assert order[..i + 1] == order[..i] + [order[i]];
  }

  lemma DropMore<V>(m: map<string, V>, ks: set<string>, k: string)
    ensures m - ks - {k} == m - (ks + {k})
  {
  }

  class LRUCache<V> {
    const maxsize: int
    const defaultTtl: int
    var order: seq<string>
    var data: map<string, Entry<V>>

    function State(): Lru<V>
      reads this
    {
      Lru(order, data)
    }

    ghost predicate Valid()
      reads this
    {
      WellFormed(State())
    }

    constructor (maxsize: int, defaultTtl: int)
      ensures Valid() && State() == Lru([], map[])
      ensures this.maxsize == maxsize && this.defaultTtl == defaultTtl
    {
      this.maxsize, this.defaultTtl := maxsize, defaultTtl;
      order, data := [], map[];
    }

    method Lookup(key: string, now: real) returns (r: Option<V>)
      requires Valid()
      modifies this
      ensures Valid() && (State(), r) == Get(old(State()), key, now)
    {
      if key !in data {
        return None;
      }
      var e := data[key];
      RemoveKeeps(order, key);
      if e.expiresAt != 0.0 && now > e.expiresAt {
        order, data := Remove(order, key), data - {key};
        return None;
      }
      order := Remove(order, key) + [key];
      return Some(e.value);
    }

    method Store(key: string, value: V, ttl: Option<int>, now: real) returns (raised: bool)
      requires Valid()
      modifies this
      ensures Valid()
      ensures raised == SetRaises(maxsize, old(State()), key)
      ensures State() == if raised then old(State())
                         else Set(maxsize, old(State()), key,
                                  Stamp(value, if ttl == None then defaultTtl else ttl.value, now))
    {
      var seconds := if ttl == None then defaultTtl else ttl.value;
      var expiresAt := if seconds > 0 then now + seconds as real else 0.0;
      SetKeeps(maxsize, State(), key, Entry(value, expiresAt));
      hide WellFormed;
      if key in data {
        order := Remove(order, key) + [key];
      } else if |order| >= maxsize {
        if order == [] {
          return true;
        }
        order, data := order[1..], data - {order[0]};
        order := order + [key];
      } else {
        order := order + [key];
      }
      data := data[key := Entry(value, expiresAt)];
      return false;
    }

    method Discard(key: string) returns (present: bool)
      requires Valid()
      modifies this
      ensures Valid() && State() == Delete(old(State()), key)
      ensures present == (key in old(data))
    {
      if key in data {
        RemoveKeeps(order, key);
        order, data := Remove(order, key), data - {key};
        return true;
      }
      return false;
    }

    method Clear()
      modifies this
      ensures Valid() && State() == Lru([], map[])
    {
      order, data := [], map[];
    }

    /** The comprehension at the head of `cleanup_expired`. */
    method ListExpired(now: real) returns (expired: seq<string>)
      requires Valid()
      ensures Distinct(expired) && Members(expired) == ExpiredKeys(State(), now)
    {
      expired := [];
      for i := 0 to |order|
        invariant Distinct(expired)
        invariant forall x :: x in expired <==> x in order[..i] && Expired(data[x], now)
      {
        assert order[i] in data;
        assert order[i] !in order[..i];
        assert order[..i + 1] == order[..i] + [order[i]];
        if Expired(data[order[i]], now) {
          expired := expired + [order[i]];
        }
      }
      assert order[..|order|] == order;
    }

    method CleanupExpired(now: real) returns (n: nat)
      requires Valid()
      modifies this
      ensures Valid() && State() == Cleanup(old(State()), now)
      ensures n == |ExpiredKeys(old(State()), now)|
    {
      CleanupWellFormed(State(), now);
      var expired := ListExpired(now);
      order, data, n := DeleteEach(order, data, expired);
    }

    /** The deletion loop of `cleanup_expired`. */
    static method DeleteEach(keys: seq<string>, entries: map<string, Entry<V>>, expired: seq<string>)
      returns (order: seq<string>, data: map<string, Entry<V>>, n: nat)
      requires Distinct(keys) && Distinct(expired)
      ensures order == Outside(keys, Members(expired)) && data == entries - Members(expired)
      ensures n == |Members(expired)|
    {
      order, data := keys, entries;
      OutsideNothing(order);
      assert Members(expired[..0]) == {};
      assert data == entries - {};
      hide *;
      for i := 0 to |expired|
        invariant |Members(expired[..i])| == i
        invariant order == Outside(keys, Members(expired[..i])) && data == entries - Members(expired[..i])
      {
        RemoveOutside(keys, Members(expired[..i]), expired[i]);
        NextElement(expired, i);
        DropMore(entries, Members(expired[..i]), expired[i]);
        order, data := Remove(order, expired[i]), data - {expired[i]};
      }
      assert expired[..|expired|] == expired;
      n := |expired|;
    }
  }
}
