/** The two-level cache: a per-process L1 in front of a shared Redis L2, with a
    sentinel for cached None and graceful degradation when Redis fails. */
module MultiLevelCache {
  import opened Options
  import opened LruCache

  /** A JSON value; the sentinel is an ordinary string among them. */
  datatype Value = Text(s: string) | Data(n: int)

  const NULL_SENTINEL := Text("__NULL__")

  datatype Config = Config(l1Maxsize: int, l1Ttl: int, l2Ttl: int, nullTtl: int)

  /** No Redis configured, Redis answering, or Redis failing. */
  datatype Link = NoRedis | Up | Down

  /** An L2 entry; Redis serves it while the clock is before `expiresAt`. */
  datatype Stored = Stored(value: Value, expiresAt: real)

  function Encode(v: Option<Value>): Value {
    if v == None then NULL_SENTINEL else v.value
  }

  /** What a caller of `get` sees of a cached value. */
  function Decode(v: Value): Option<Value> {
    if v == NULL_SENTINEL then None else Some(v)
  }

  function Fetch(l2: map<string, Stored>, k: string, now: real): Option<Value> {
    if k in l2 && now < l2[k].expiresAt then Some(l2[k].value) else None
  }

  /** The L1 lifetime of a copy made from L2. */
  function FillTtl(cf: Config, v: Value): int {
    if v == NULL_SENTINEL then cf.nullTtl else cf.l1Ttl
  }

  function Fill(cf: Config, l1: Lru<Value>, k: string, v: Value, now: real): Lru<Value> {
    Set(cf.l1Maxsize, l1, k, Stamp(v, FillTtl(cf, v), now))
  }

  /** The cached value a `get` answers from, the sentinel included. */
  function Served(l1: Lru<Value>, l2: map<string, Stored>, k: string, now: real, link: Link): Option<Value> {
    var local := Get(l1, k, now).1;
    if local.Some? then local else if link.Up? then Fetch(l2, k, now) else None
  }

  function GetStep(cf: Config, l1: Lru<Value>, l2: map<string, Stored>, k: string, now: real, link: Link)
    : (Lru<Value>, Option<Value>)
  {
    var (l1', local) := Get(l1, k, now);
    if local.Some? then (l1', Decode(local.value))
    else if !link.Up? then (l1', None)
    else match Fetch(l2, k, now)
      case None => (l1', None)
      case Some(v) => (Fill(cf, l1', k, v, now), Decode(v))
  }

  /** The TTLs a `set` ends up using in L2 and in L1. */
  function L2Ttl(cf: Config, ttl: Option<int>): int {
    if ttl == None then cf.l2Ttl else ttl.value
  }

  function L1Ttl(cf: Config, ttl: Option<int>, l1Ttl: Option<int>): int {
    if l1Ttl.Some? then l1Ttl.value
    else if cf.l1Ttl <= L2Ttl(cf, ttl) then cf.l1Ttl else L2Ttl(cf, ttl)
  }

  /** Redis refuses an expiry of zero or less. */
  predicate StoreSucceeds(link: Link, ttl: int) {
    link.Up? && ttl > 0
  }

  /** What a look finds under a key, the sentinel included: a `get`, and after a
      None the test whether L1 now holds a cached one.  The two read the clock at
      their own times. */
  function Look(cf: Config, l1: Lru<Value>, l2: map<string, Stored>, k: string, at: (real, real), link: Link)
    : (Lru<Value>, Option<Value>)
  {
    var (l1', r) := GetStep(cf, l1, l2, k, at.0, link);
    if r.Some? then (l1', r)
    else
      var (l1'', local) := Get(l1', k, at.1);
      (l1'', if local == Some(NULL_SENTINEL) then local else None)
  }

  /** The keys under which a stampede lock stands belong to Redis too. */
  datatype Shared = Shared(data: map<string, Stored>, locks: set<string>)

  datatype CallResult = CallResult(l1: Lru<Value>, redis: Shared, computed: bool, raised: bool, r: Option<Value>)

  /** Redis at the awaits of a call: the first look, the lock, the second look, the
      store and the unlock; and the clock where a call reads it. */
  datatype Links = Links(look: Link, take: Link, again: Link, store: Link, drop: Link)

  datatype Clock = Clock(look: (real, real), again: (real, real), store: real)

  /** The lock is refused only by a Redis that answers and holds it. */
  predicate Refused(redis: Shared, k: string, link: Link) {
    link.Up? && k in redis.locks
  }

  function WithLock(redis: Shared, k: string, link: Link): Shared {
    if link.Up? then redis.(locks := redis.locks + {k}) else redis
  }

  function WithoutLock(redis: Shared, k: string, link: Link): Shared {
    if link.Up? then redis.(locks := redis.locks - {k}) else redis
  }

  /** One call of `get_or_compute`; `result` is what its compute function yields. */
  function CallStep(cf: Config, l1: Lru<Value>, redis: Shared, k: string, result: Option<Value>, raises: bool,
                    cacheNone: bool, ttl: Option<int>, at: Clock, links: Links): CallResult
  {
    var (l1', first) := Look(cf, l1, redis.data, k, at.look, links.look);
    if first.Some? then CallResult(l1', redis, false, false, Decode(first.value))
    else if !Refused(redis, k, links.take) then
      ComputeStep(cf, l1', WithLock(redis, k, links.take), k, result, raises, cacheNone, ttl, at.store, links)
    else
      var (l1'', second) := Look(cf, l1', redis.data, k, at.again, links.again);
      if second.Some? then CallResult(l1'', redis, false, false, Decode(second.value))
      else ComputeStep(cf, l1'', redis, k, result, raises, cacheNone, ttl, at.store, links)
  }

  /** The protected part: compute, store, and in any case drop the lock. */
  function ComputeStep(cf: Config, l1: Lru<Value>, redis: Shared, k: string, result: Option<Value>, raises: bool,
                       cacheNone: bool, ttl: Option<int>, now: real, links: Links): CallResult
  {
    if raises then CallResult(l1, WithoutLock(redis, k, links.drop), true, true, None)
    else if result == None && !cacheNone then CallResult(l1, WithoutLock(redis, k, links.drop), true, false, result)
    else
      var l1' := Set(cf.l1Maxsize, l1, k, Stamp(Encode(result), L1Ttl(cf, ttl, None), now));
      var data := if StoreSucceeds(links.store, L2Ttl(cf, ttl))
                  then redis.data[k := Stored(Encode(result), now + L2Ttl(cf, ttl) as real)] else redis.data;
      CallResult(l1', WithoutLock(redis.(data := data), k, links.drop), true, false, result)
  }

  class RedisStore {
    var data: map<string, Stored>
    var locks: set<string>

    function State(): Shared
      reads this
    {
      Shared(data, locks)
    }

    constructor ()
      ensures State() == Shared(map[], {})
    {
      data, locks := map[], {};
    }
  }

  class Cache {
    const config: Config
    const l1: LRUCache<Value>
    const redis: RedisStore

    ghost predicate Valid()
      reads l1
    {
      l1.Valid() && l1.maxsize == config.l1Maxsize >= 1 && l1.defaultTtl == config.l1Ttl
    }

    constructor (config: Config, redis: RedisStore)
      requires config.l1Maxsize >= 1
      ensures Valid() && fresh(l1) && this.config == config && this.redis == redis && l1.State() == Lru([], map[])
    {
      this.config := config;
      this.redis := redis;
      l1 := new LRUCache(config.l1Maxsize, config.l1Ttl);
    }

    method GetValue(key: string, now: real, link: Link) returns (r: Option<Value>)
      requires Valid()
      modifies l1
      ensures Valid() && (l1.State(), r) == GetStep(config, old(l1.State()), redis.data, key, now, link)
    {
      var local := l1.Lookup(key, now);
      if local.Some? {
        if local.value == NULL_SENTINEL {
          return None;
        }
        return local;
      }
      if !link.Up? {
        return None;
      }
      var raw := Fetch(redis.data, key, now);
      if raw == None {
        return None;
      }
      if raw.value == NULL_SENTINEL {
        var _ := l1.Store(key, NULL_SENTINEL, Some(config.nullTtl), now);
        return None;
      }
      var _ := l1.Store(key, raw.value, Some(config.l1Ttl), now);
      return raw;
    }

    method SetValue(key: string, value: Option<Value>, ttl: Option<int>, l1Ttl: Option<int>, now: real, link: Link)
      returns (ok: bool)
      requires Valid()
      modifies l1, redis
      ensures Valid() && redis.locks == old(redis.locks)
      ensures l1.State() ==
              Set(config.l1Maxsize, old(l1.State()), key, Stamp(Encode(value), L1Ttl(config, ttl, l1Ttl), now))
      ensures ok == (link.NoRedis? || StoreSucceeds(link, L2Ttl(config, ttl)))
      ensures redis.data == if StoreSucceeds(link, L2Ttl(config, ttl))
                            then old(redis.data)[key := Stored(Encode(value), now + L2Ttl(config, ttl) as real)]
                            else old(redis.data)
    {
      var seconds := if ttl == None then config.l2Ttl else ttl.value;
      var local := if l1Ttl.Some? then l1Ttl.value else if config.l1Ttl <= seconds then config.l1Ttl else seconds;
      var cached := if value == None then NULL_SENTINEL else value.value;
      var _ := l1.Store(key, cached, Some(local), now);
      if link.NoRedis? {
        return true;
      }
      if link.Down? || seconds <= 0 {
        return false;
      }
      redis.data := redis.data[key := Stored(cached, now + seconds as real)];
      return true;
    }

    method DeleteValue(key: string, link: Link) returns (ok: bool)
      requires Valid()
      modifies l1, redis
      ensures Valid() && l1.State() == Delete(old(l1.State()), key)
      ensures ok == !link.Down? && redis.locks == old(redis.locks)
      ensures redis.data == if link.Up? then old(redis.data) - {key} else old(redis.data)
    {
      var _ := l1.Discard(key);
      if link.Up? {
        redis.data := redis.data - {key};
      }
      return !link.Down?;
    }

    method LookFor(key: string, at: (real, real), link: Link) returns (found: Option<Value>)
      requires Valid()
      modifies l1
      ensures Valid() && (l1.State(), found) == Look(config, old(l1.State()), redis.data, key, at, link)
    {
      found := GetValue(key, at.0, link);
      if found == None {
        found := l1.Lookup(key, at.1);
        if found != Some(NULL_SENTINEL) {
          found := None;
        }
      }
    }

    method AcquireLock(key: string, link: Link) returns (ok: bool)
      modifies redis
      ensures ok == !Refused(old(redis.State()), key, link)
      ensures redis.State() == if ok then WithLock(old(redis.State()), key, link) else old(redis.State())
    {
      if !link.Up? {
        return true;
      }
      ok := key !in redis.locks;
      redis.locks := redis.locks + {key};
    }

    method ReleaseLock(key: string, link: Link)
      modifies redis
      ensures redis.State() == WithoutLock(old(redis.State()), key, link)
    {
      if link.Up? {
        redis.locks := redis.locks - {key};
      }
    }

    method GetOrCompute(key: string, result: Option<Value>, raises: bool, cacheNone: bool, ttl: Option<int>,
                        at: Clock, links: Links)
      returns (computed: bool, raised: bool, r: Option<Value>)
      requires Valid()
      modifies l1, redis
      ensures Valid()
      ensures CallResult(l1.State(), redis.State(), computed, raised, r) ==
              CallStep(config, old(l1.State()), old(redis.State()), key, result, raises, cacheNone, ttl, at, links)
    {
      hide Look, Set;
      var found := LookFor(key, at.look, links.look);
      if found.Some? {
        return false, false, Decode(found.value);
      }
      var ok := AcquireLock(key, links.take);
      if !ok {
        found := LookFor(key, at.again, links.again);
        if found.Some? {
          return false, false, Decode(found.value);
        }
      }
      if !raises && (result != None || cacheNone) {
        var _ := SetValue(key, result, ttl, None, at.store, links.store);
      }
      ReleaseLock(key, links.drop);
      return true, raises, if raises then None else result;
    }
  }

  // ----- What one call of get_or_compute does -----

  /** A look answers with the live L1 entry, or else with what a Redis that answers
      still serves; only a cached None has to live until the second reading, as the
      L1 entry that it is or that the `get` has just made of it. */
  lemma LookIsExact(cf: Config, l1: Lru<Value>, l2: map<string, Stored>, k: string, at: (real, real), link: Link)
    ensures var found := Look(cf, l1, l2, k, at, link).1;
            if k in l1.data && !Expired(l1.data[k], at.0) then
              found == if l1.data[k].value != NULL_SENTINEL || !Expired(l1.data[k], at.1)
                       then Some(l1.data[k].value) else None
            else if link.Up? && k in l2 && at.0 < l2[k].expiresAt then
              found == if l2[k].value != NULL_SENTINEL || !Expired(Stamp(NULL_SENTINEL, cf.nullTtl, at.0), at.1)
                       then Some(l2[k].value) else None
            else found == None
  {
    GetData(l1, k, at.0);
    var (l1', local) := Get(l1, k, at.0);
    var raw := Fetch(l2, k, at.0);
    if local == None && link.Up? && raw.Some? {
      SetData(cf.l1Maxsize, l1', k, Stamp(raw.value, FillTtl(cf, raw.value), at.0));
    }
    hide Set;
  }

  /** The looks of a call: the first, and the second only after a refused lock. */
  function Finds(cf: Config, l1: Lru<Value>, redis: Shared, k: string, at: Clock, links: Links): Option<Value> {
    var (l1', first) := Look(cf, l1, redis.data, k, at.look, links.look);
    if first.Some? || links.take != Up || k !in redis.locks then first
    else Look(cf, l1', redis.data, k, at.again, links.again).1
  }

  /** Exactly when nothing is found does a call compute, and then it raises iff the
      compute does; a call that finds something answers with it and leaves Redis,
      data and locks, alone. */
  lemma CallAnswers(cf: Config, l1: Lru<Value>, redis: Shared, k: string, result: Option<Value>, raises: bool,
                    cacheNone: bool, ttl: Option<int>, at: Clock, links: Links)
    ensures var c := CallStep(cf, l1, redis, k, result, raises, cacheNone, ttl, at, links);
            var found := Finds(cf, l1, redis, k, at, links);
            && (c.computed <==> found == None) && (c.raised <==> found == None && raises)
            && (found.Some? ==>
                  c.redis == redis && c.r == if found.value == Text("__NULL__") then None else found)
            && (c.computed && !c.raised ==> c.r == result)
  {
    hide Look, Set;
  }

  /** Entry e is the copy that a look at time t has made of what L2 serves. */
  predicate CopiedAt(cf: Config, l2: map<string, Stored>, k: string, t: real, e: Entry<Value>) {
    Fetch(l2, k, t).Some? && e == Stamp(l2[k].value, FillTtl(cf, l2[k].value), t)
  }

  /** A look keeps the entry of its key, drops it, or makes one of what L2 serves. */
  lemma LookData(cf: Config, l1: Lru<Value>, l2: map<string, Stored>, k: string, at: (real, real), link: Link)
    ensures var l1' := Look(cf, l1, l2, k, at, link).0;
            k in l1'.data ==>
              || (k in l1.data && l1'.data[k] == l1.data[k])
              || CopiedAt(cf, l2, k, at.0, l1'.data[k])
  {
    GetStepData(cf, l1, l2, k, at.0, link);
    GetData(GetStep(cf, l1, l2, k, at.0, link).0, k, at.1);
    hide GetStep;
  }

  /** The protected part stores a result that is to be cached: in L1 for the shorter
      of the two TTLs, and in L2 for the given one if Redis takes it.  It stores
      nothing else, and drops the lock whenever Redis answers. */
  lemma ComputeStores(cf: Config, l1: Lru<Value>, redis: Shared, k: string, result: Option<Value>, raises: bool,
                      cacheNone: bool, ttl: Option<int>, now: real, links: Links)
    ensures var c := ComputeStep(cf, l1, redis, k, result, raises, cacheNone, ttl, now, links);
            var seconds := if ttl.Some? then ttl.value else cf.l2Ttl;
            var cached := if result.Some? then result.value else Text("__NULL__");
            && c.computed && c.raised == raises && (!raises ==> c.r == result)
            && c.redis.locks == (if links.drop.Up? then redis.locks - {k} else redis.locks)
            && if !raises && (result.Some? || cacheNone) then
                 && k in c.l1.data
                 && c.l1.data[k] == Stamp(cached, if seconds < cf.l1Ttl then seconds else cf.l1Ttl, now)
                 && c.redis.data == (if links.store.Up? && seconds > 0
                                     then redis.data[k := Stored(cached, now + seconds as real)] else redis.data)
               else c.l1 == l1 && c.redis.data == redis.data
  {
    SetData(cf.l1Maxsize, l1, k, Stamp(Encode(result), L1Ttl(cf, ttl, None), now));
    hide Set;
  }

  /** A call that has computed a result to be cached leaves it in L1 for the shorter
      of the two TTLs, and in L2 for the given one if Redis takes it; any other call
      changes no data in Redis and leaves in L1 what was there or what a look copied.
      Of the stampede locks a computing call touches only that of its key. */
  lemma CallStores(cf: Config, l1: Lru<Value>, redis: Shared, k: string, result: Option<Value>, raises: bool,
                   cacheNone: bool, ttl: Option<int>, at: Clock, links: Links)
    ensures var c := CallStep(cf, l1, redis, k, result, raises, cacheNone, ttl, at, links);
            var seconds := if ttl.Some? then ttl.value else cf.l2Ttl;
            var cached := if result.Some? then result.value else Text("__NULL__");
            if c.computed && !c.raised && (result.Some? || cacheNone) then
              && k in c.l1.data
              && c.l1.data[k] == Stamp(cached, if seconds < cf.l1Ttl then seconds else cf.l1Ttl, at.store)
              && c.redis.data == (if links.store.Up? && seconds > 0
                                  then redis.data[k := Stored(cached, at.store + seconds as real)] else redis.data)
            else
              && c.redis.data == redis.data
              && (k in c.l1.data ==>
                    || (k in l1.data && c.l1.data[k] == l1.data[k])
                    || CopiedAt(cf, redis.data, k, at.look.0, c.l1.data[k])
                    || CopiedAt(cf, redis.data, k, at.again.0, c.l1.data[k]))
    ensures var c := CallStep(cf, l1, redis, k, result, raises, cacheNone, ttl, at, links);
            c.computed ==>
              c.redis.locks == if links.drop.Up? then redis.locks - {k}
                               else if links.take.Up? then redis.locks + {k} else redis.locks
  {
    LookData(cf, l1, redis.data, k, at.look, links.look);
    var l1' := Look(cf, l1, redis.data, k, at.look, links.look).0;
    LookData(cf, l1', redis.data, k, at.again, links.again);
    var l1'' := Look(cf, l1', redis.data, k, at.again, links.again).0;
    ComputeStores(cf, l1', WithLock(redis, k, links.take), k, result, raises, cacheNone, ttl, at.store, links);
    ComputeStores(cf, l1'', redis, k, result, raises, cacheNone, ttl, at.store, links);
    hide Look, Set, Stamp, ComputeStep, CopiedAt;
  }

  /** Every entry under k, at either level, is the encoding of `result`. */
  ghost predicate Agree(l1: Lru<Value>, l2: map<string, Stored>, k: string, result: Option<Value>) {
    && (k in l1.data ==> l1.data[k].value == Encode(result))
    && (k in l2 ==> l2[k].value == Encode(result))
  }

  /** Transparency for one caller: where every entry is the compute's result, it
      stays so and the call returns that result, at any clock readings and with
      Redis failing at will, unless the result is the sentinel string. */
  lemma CallIsTransparent(cf: Config, l1: Lru<Value>, redis: Shared, k: string, result: Option<Value>, raises: bool,
                          cacheNone: bool, ttl: Option<int>, at: Clock, links: Links)
    requires Agree(l1, redis.data, k, result)
    ensures var c := CallStep(cf, l1, redis, k, result, raises, cacheNone, ttl, at, links);
            && Agree(c.l1, c.redis.data, k, result)
            && (!c.raised ==> c.r == result || (result == Some(NULL_SENTINEL) && c.r == None))
  {
    CallAnswers(cf, l1, redis, k, result, raises, cacheNone, ttl, at, links);
    CallStores(cf, l1, redis, k, result, raises, cacheNone, ttl, at, links);
    LookIsExact(cf, l1, redis.data, k, at.look, links.look);
    LookData(cf, l1, redis.data, k, at.look, links.look);
    var l1' := Look(cf, l1, redis.data, k, at.look, links.look).0;
    LookIsExact(cf, l1', redis.data, k, at.again, links.again);
    LookData(cf, l1', redis.data, k, at.again, links.again);
    hide Look, Set;
  }

  // ----- What a step can do to the contents of L1 -----

  lemma GetData(c: Lru<Value>, k: string, now: real)
    ensures forall j :: j in Get(c, k, now).0.data ==> j in c.data && Get(c, k, now).0.data[j] == c.data[j]
    ensures Get(c, k, now).1.Some? ==>
              k in c.data && Get(c, k, now).1.value == c.data[k].value && !Expired(c.data[k], now)
  {
  }

  lemma SetData(maxsize: int, c: Lru<Value>, k: string, e: Entry<Value>)
    ensures k in Set(maxsize, c, k, e).data && Set(maxsize, c, k, e).data[k] == e
    ensures forall j :: j in Set(maxsize, c, k, e).data && j != k ==>
              j in c.data && Set(maxsize, c, k, e).data[j] == c.data[j]
  {
  }

  /** What is served is a live L1 entry or a live L2 entry. */
  lemma ServedIs(l1: Lru<Value>, l2: map<string, Stored>, k: string, now: real, link: Link)
    ensures var r := Served(l1, l2, k, now, link);
            r.Some? ==> || (k in l1.data && l1.data[k].value == r.value && !Expired(l1.data[k], now))
                        || Fetch(l2, k, now) == r
  {
    GetData(l1, k, now);
  }

  /** A `get` keeps old entries, or adds one copied from L2. */
  lemma GetStepData(cf: Config, l1: Lru<Value>, l2: map<string, Stored>, k: string, now: real, link: Link)
    ensures var (l1', r) := GetStep(cf, l1, l2, k, now, link);
            && (forall j :: j in l1'.data && j != k ==> j in l1.data && l1'.data[j] == l1.data[j])
            && (k in l1'.data ==>
                  || (k in l1.data && l1'.data[k] == l1.data[k])
                  || (&& Fetch(l2, k, now).Some?
                      && l1'.data[k] == Stamp(l2[k].value, FillTtl(cf, l2[k].value), now)))
            && r == (var raw := Served(l1, l2, k, now, link); if raw == None then None else Decode(raw.value))
  {
    GetData(l1, k, now);
    var l1' := Get(l1, k, now).0;
    match Fetch(l2, k, now)
    case None =>
    case Some(v) =>
      SetData(cf.l1Maxsize, l1', k, Stamp(v, FillTtl(cf, v), now));
  }
}
