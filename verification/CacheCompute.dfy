/** `get_or_compute` under concurrency.  Any number of callers in any number of
    processes run it for one key, interleaved at every await, while entries
    expire, are evicted or deleted and Redis fails at will.  The stampede lock is
    modelled as written: a caller that was refused it computes anyway after one
    more look, and everyone who computes deletes it, so nothing here claims that
    computes exclude each other.  Transparency does not need that. */
module CacheCompute {
  import opened Options
  import opened LruCache
  import opened MultiLevelCache

  /** Where a call stands; `again` marks the second look after a refused lock. */
  datatype PC =
    | ReadL1(again: bool)
    | ReadL2(again: bool)
    | FillL1(again: bool, v: Value)
    | NullCheck(again: bool)
    | TakeLock
    | Compute
    | StoreL1
    | StoreL2
    | Release(r: Option<Value>)
    | ReleaseAndRaise
    | Done(r: Option<Value>)
    | Raised

  datatype Call = Call(p: nat, cacheNone: bool, pc: PC)

  /** What is cached for the key: per process in L1, and in L2. */
  datatype World = World(l1: map<nat, Value>, l2: Option<Value>, lock: bool, calls: seq<Call>)

  datatype Action =
    | Arrive(p: nat, cacheNone: bool)
    | Advance(i: nat, fails: bool)       // one await of call i; Redis or the compute may fail
    | DropL1(p: nat)                     // expiry, eviction or delete
    | DropL2
    | DropLock

  /** After a `get` that yielded d: return it, or look for a cached None. */
  function Returned(d: Option<Value>, again: bool): PC {
    if d.Some? then Done(d) else NullCheck(again)
  }

  /** One await of a call; `result` is what the compute function yields. */
  function Go(w: World, c: Call, fails: bool, result: Option<Value>): (World, PC) {
    match c.pc
    case ReadL1(again) =>
      (w, if c.p in w.l1 then Returned(Decode(w.l1[c.p]), again) else ReadL2(again))
    case ReadL2(again) =>
      (w, if fails || w.l2 == None then NullCheck(again) else FillL1(again, w.l2.value))
    case FillL1(again, v) =>
      (w.(l1 := w.l1[c.p := v]), Returned(Decode(v), again))
    case NullCheck(again) =>
      (w, if c.p in w.l1 && w.l1[c.p] == NULL_SENTINEL then Done(None) else if again then Compute else TakeLock)
    case TakeLock =>
      if fails then (w, Compute)
      else if w.lock then (w, ReadL1(true))
      else (w.(lock := true), Compute)
    case Compute =>
      (w, if fails then ReleaseAndRaise else if result.Some? || c.cacheNone then StoreL1 else Release(result))
    case StoreL1 =>
      (w.(l1 := w.l1[c.p := Encode(result)]), StoreL2)
    case StoreL2 =>
      (if fails then w else w.(l2 := Some(Encode(result))), Release(result))
    case Release(r) =>
      (if fails then w else w.(lock := false), Done(r))
    case ReleaseAndRaise =>
      (if fails then w else w.(lock := false), Raised)
    case Done(_) => (w, c.pc)
    case Raised => (w, c.pc)
  }

  function Step(w: World, a: Action, result: Option<Value>): World {
    match a
    case Arrive(p, cacheNone) => w.(calls := w.calls + [Call(p, cacheNone, ReadL1(false))])
    case Advance(i, fails) =>
      if i >= |w.calls| then w
      else
        var (w', pc) := Go(w, w.calls[i], fails, result);
        w'.(calls := w'.calls[i := w.calls[i].(pc := pc)])
    case DropL1(p) => w.(l1 := w.l1 - {p})
    case DropL2 => w.(l2 := None)
    case DropLock => w.(lock := false)
  }

  const EMPTY := World(map[], None, false, [])

  function Run(acts: seq<Action>, result: Option<Value>): World {
    if acts == [] then EMPTY
    else Step(Run(acts[..|acts| - 1], result), acts[|acts| - 1], result)
  }

  // ----- The awaits add up to get and set -----

  /** The three awaits of one `get`, undisturbed. */
  function Look(w: World, c: Call, fails: bool, result: Option<Value>): (World, PC) {
    var (w1, pc1) := Go(w, c, fails, result);
    if !pc1.ReadL2? then (w1, pc1)
    else
      var (w2, pc2) := Go(w1, c.(pc := pc1), fails, result);
      if !pc2.FillL1? then (w2, pc2) else Go(w2, c.(pc := pc2), fails, result)
  }

  /** World w shows, for one key, what process p finds at `now` in these levels. */
  ghost predicate Shows(w: World, p: nat, l1: Lru<Value>, l2: map<string, Stored>, k: string, now: real) {
    && (if p in w.l1 then Some(w.l1[p]) else None) == Get(l1, k, now).1
    && w.l2 == Fetch(l2, k, now)
  }

  /** One look is one `get` of the two-level cache: same answer, same L1. */
  lemma LookIsGet(cf: Config, l1: Lru<Value>, l2: map<string, Stored>, k: string, now: real, link: Link,
                  w: World, c: Call, result: Option<Value>)
    requires c.pc.ReadL1? && now >= 0.0 && Shows(w, c.p, l1, l2, k, now)
    ensures var (w', pc) := Look(w, c, !link.Up?, result);
            var (l1', r) := GetStep(cf, l1, l2, k, now, link);
            pc == Returned(r, c.pc.again) && Shows(w', c.p, l1', l2, k, now)
  {
    GetData(l1, k, now);
    if Get(l1, k, now).1 == None && link.Up? && Fetch(l2, k, now).Some? {
      var v := Fetch(l2, k, now).value;
      FillIsServed(cf.l1Maxsize, Get(l1, k, now).0, k, v, FillTtl(cf, v), now);
      hide Set;
    }
  }

  /** The two awaits of a store are one `set`: L1 always, L2 when Redis answers. */
  lemma StoreIsSet(cf: Config, l1: Lru<Value>, l2: map<string, Stored>, k: string, now: real, ttl: int, l1Ttl: int,
                   w: World, c: Call, fails: bool, result: Option<Value>)
    requires c.pc.StoreL1? && now >= 0.0 && (fails || ttl > 0) && Shows(w, c.p, l1, l2, k, now)
    ensures var (w1, pc1) := Go(w, c, fails, result);
            var (w2, pc2) := Go(w1, c.(pc := pc1), fails, result);
            var l1' := Set(cf.l1Maxsize, l1, k, Stamp(Encode(result), l1Ttl, now));
            var l2' := if fails then l2 else l2[k := Stored(Encode(result), now + ttl as real)];
            pc2 == Release(result) && Shows(w2, c.p, l1', l2', k, now)
  {
    FillIsServed(cf.l1Maxsize, l1, k, Encode(result), l1Ttl, now);
    hide Set;
  }

  lemma FillIsServed(maxsize: int, l1: Lru<Value>, k: string, v: Value, ttl: int, now: real)
    requires now >= 0.0
    ensures Get(Set(maxsize, l1, k, Stamp(v, ttl, now)), k, now).1 == Some(v)
  {
    SetData(maxsize, l1, k, Stamp(v, ttl, now));
    hide Set;
  }

  // ----- A call alone is one get_or_compute -----

  /** Awaits left at most. */
  function Rank(pc: PC): nat {
    match pc
    case ReadL1(again) => if again then 9 else 14
    case ReadL2(again) => if again then 8 else 13
    case FillL1(again, _) => if again then 7 else 12
    case NullCheck(again) => if again then 6 else 11
    case TakeLock => 10
    case Compute => 5
    case StoreL1 => 4
    case StoreL2 => 3
    case Release(_) => 2
    case ReleaseAndRaise => 2
    case _ => 0
  }

  lemma GoAdvances(w: World, c: Call, fails: bool, result: Option<Value>)
    requires Rank(c.pc) > 0
    ensures Rank(Go(w, c, fails, result).1) < Rank(c.pc)
  {
  }

  /** What the world does to the awaits of one call. */
  datatype Fate = Fate(links: Links, raises: bool, ttl: int)

  predicate Fails(pc: PC, f: Fate) {
    match pc
    case ReadL2(again) => if again then !f.links.again.Up? else !f.links.look.Up?
    case TakeLock => !f.links.take.Up?
    case Compute => f.raises
    case StoreL2 => !StoreSucceeds(f.links.store, f.ttl)
    case Release(_) => !f.links.drop.Up?
    case ReleaseAndRaise => !f.links.drop.Up?
    case _ => false
  }

  /** The rest of call c, undisturbed. */
  function Alone(w: World, c: Call, f: Fate, result: Option<Value>): (World, PC)
    decreases Rank(c.pc)
  {
    if Rank(c.pc) == 0 then (w, c.pc)
    else
      GoAdvances(w, c, Fails(c.pc, f), result);
      var (w', pc) := Go(w, c, Fails(c.pc, f), result);
      Alone(w', c.(pc := pc), f, result)
  }

  lemma AloneNext(w: World, c: Call, f: Fate, result: Option<Value>)
    requires Rank(c.pc) > 0
    ensures var (w', pc) := Go(w, c, Fails(c.pc, f), result);
            Alone(w, c, f, result) == Alone(w', c.(pc := pc), f, result)
  {
  }

  lemma AloneEnds(w: World, c: Call, f: Fate, result: Option<Value>)
    requires c.pc.Done? || c.pc.Raised?
    ensures Alone(w, c, f, result) == (w, c.pc)
  {
  }

  function LinkOf(f: Fate, again: bool): Link {
    if again then f.links.again else f.links.look
  }

  lemma AloneLooks(w: World, c: Call, f: Fate, result: Option<Value>)
    requires c.pc.ReadL1?
    ensures var (w', pc) := Look(w, c, !LinkOf(f, c.pc.again).Up?, result);
            Alone(w, c, f, result) == Alone(w', c.(pc := pc), f, result) && w'.lock == w.lock
  {
    var fails := !LinkOf(f, c.pc.again).Up?;
    var (w1, pc1) := Go(w, c, fails, result);
    var c1 := c.(pc := pc1);
    AloneNext(w, c, f, result);
    if pc1.ReadL2? {
      AloneNext(w1, c1, f, result);
      var (w2, pc2) := Go(w1, c1, fails, result);
      if pc2.FillL1? {
        AloneNext(w2, c1.(pc := pc2), f, result);
      }
    }
    hide Alone;
  }

  /** World w shows what process p finds in these levels and whether k is locked. */
  ghost predicate Mirrors(w: World, p: nat, l1: Lru<Value>, redis: Shared, k: string, now: real) {
    Shows(w, p, l1, redis.data, k, now) && (w.lock <==> k in redis.locks)
  }

  /** After a look and its null check. */
  function Checked(found: Option<Value>, again: bool): PC {
    if found.Some? then Done(Decode(found.value)) else if again then Compute else TakeLock
  }

  lemma GetAgain(l1: Lru<Value>, k: string, now: real)
    ensures var (l1', r) := Get(l1, k, now); Get(l1', k, now).1 == r
  {
  }

  lemma AnswerIsNotNull(cf: Config, l1: Lru<Value>, l2: map<string, Stored>, k: string, now: real, link: Link)
    ensures GetStep(cf, l1, l2, k, now, link).1 != Some(NULL_SENTINEL)
  {
  }

  lemma NullChecks(w: World, c: Call, l1: Lru<Value>, redis: Shared, k: string, now: real, f: Fate,
                   result: Option<Value>)
    requires c.pc.NullCheck? && Mirrors(w, c.p, l1, redis, k, now)
    ensures var (l1', local) := Get(l1, k, now);
            var found := if local == Some(NULL_SENTINEL) then local else None;
            && Mirrors(w, c.p, l1', redis, k, now)
            && Alone(w, c, f, result) == Alone(w, c.(pc := Checked(found, c.pc.again)), f, result)
  {
    GetAgain(l1, k, now);
    AloneNext(w, c, f, result);
    hide Alone, Get;
  }

  /** A look and the null check after it find what `MultiLevelCache.Look` finds. */
  lemma LookAndCheck(cf: Config, l1: Lru<Value>, redis: Shared, k: string, now: real, w: World, c: Call, f: Fate,
                     result: Option<Value>)
    returns (w': World)
    requires c.pc.ReadL1? && now >= 0.0 && Mirrors(w, c.p, l1, redis, k, now)
    ensures var (l1', found) := MultiLevelCache.Look(cf, l1, redis.data, k, (now, now), LinkOf(f, c.pc.again));
            && Mirrors(w', c.p, l1', redis, k, now)
            && Alone(w, c, f, result) == Alone(w', c.(pc := Checked(found, c.pc.again)), f, result)
  {
    var link := LinkOf(f, c.pc.again);
    LookIsGet(cf, l1, redis.data, k, now, link, w, c, result);
    AloneLooks(w, c, f, result);
    AnswerIsNotNull(cf, l1, redis.data, k, now, link);
    w' := Look(w, c, !link.Up?, result).0;
    var pc := Look(w, c, !link.Up?, result).1;
    var (l1', r) := GetStep(cf, l1, redis.data, k, now, link);
    assert Mirrors(w', c.p, l1', redis, k, now);
    hide Alone, GetStep, Get, Look, Shows, LinkOf;
    if r == None {
      NullChecks(w', c.(pc := pc), l1', redis, k, now, f, result);
      hide Mirrors;
    } else {
      hide Mirrors;
    }
  }

  lemma Unlocks(w: World, c: Call, f: Fate, result: Option<Value>)
    requires c.pc.Release? || c.pc.ReleaseAndRaise?
    ensures Alone(w, c, f, result) ==
            (if f.links.drop.Up? then w.(lock := false) else w, if c.pc.Release? then Done(c.pc.r) else PC.Raised)
  {
    AloneNext(w, c, f, result);
    var (w1, pc) := Go(w, c, Fails(c.pc, f), result);
    AloneEnds(w1, c.(pc := pc), f, result);
  }

  /** The two awaits of a store, and what they leave. */
  lemma AloneStores(cf: Config, l1: Lru<Value>, redis: Shared, k: string, now: real, w: World, c: Call, f: Fate,
                    l1Ttl: int, result: Option<Value>)
    returns (w': World)
    requires c.pc == StoreL1 && now >= 0.0 && Mirrors(w, c.p, l1, redis, k, now)
    ensures var l1' := Set(cf.l1Maxsize, l1, k, Stamp(Encode(result), l1Ttl, now));
            var data := if StoreSucceeds(f.links.store, f.ttl)
                        then redis.data[k := Stored(Encode(result), now + f.ttl as real)] else redis.data;
            && Mirrors(w', c.p, l1', redis.(data := data), k, now)
            && Alone(w, c, f, result) == Alone(w', c.(pc := Release(result)), f, result)
  {
    var fails := !StoreSucceeds(f.links.store, f.ttl);
    StoreIsSet(cf, l1, redis.data, k, now, f.ttl, l1Ttl, w, c, fails, result);
    AloneNext(w, c, f, result);
    var (w1, pc1) := Go(w, c, fails, result);
    assert pc1 == StoreL2 && w1.lock == w.lock && Fails(StoreL1, f) == false && Go(w, c, false, result) == (w1, pc1);
    AloneNext(w1, c.(pc := pc1), f, result);
    w' := Go(w1, c.(pc := pc1), fails, result).0;
    assert w'.lock == w1.lock && Fails(StoreL2, f) == fails;
    hide Alone, Set, Go, Fails, Shows, StoreSucceeds, Stamp;
  }

  /** From the compute on. */
  lemma ComputeIsStep(cf: Config, l1: Lru<Value>, redis: Shared, k: string, now: real, w: World, c: Call, f: Fate,
                      ttl: Option<int>, result: Option<Value>)
    requires c.pc == Compute && now >= 0.0 && Mirrors(w, c.p, l1, redis, k, now) && f.ttl == L2Ttl(cf, ttl)
    ensures var (w', pc) := Alone(w, c, f, result);
            var r := ComputeStep(cf, l1, redis, k, result, f.raises, c.cacheNone, ttl, now, f.links);
            && pc == (if r.raised then PC.Raised else Done(r.r))
            && Mirrors(w', c.p, r.l1, r.redis, k, now)
  {
    AloneNext(w, c, f, result);
    var next := c.(pc := Go(w, c, f.raises, result).1);
    assert Alone(w, c, f, result) == Alone(w, next, f, result);
    hide Alone, Set, Go, Fails, StoreSucceeds, Stamp;
    if next.pc == StoreL1 {
      var w' := AloneStores(cf, l1, redis, k, now, w, next, f, L1Ttl(cf, ttl, None), result);
      Unlocks(w', c.(pc := Release(result)), f, result);
    } else {
      Unlocks(w, next, f, result);
    }
  }

  /** The awaits of an undisturbed call add up to one `get_or_compute` of the
      two-level cache: same answer or exception, same levels, same lock. */
  lemma CallIsAlone(cf: Config, l1: Lru<Value>, redis: Shared, k: string, now: real, w: World, c: Call, f: Fate,
                    ttl: Option<int>, result: Option<Value>)
    requires c.pc == ReadL1(false) && now >= 0.0 && Mirrors(w, c.p, l1, redis, k, now) && f.ttl == L2Ttl(cf, ttl)
    ensures var at := Clock((now, now), (now, now), now);
            var r := CallStep(cf, l1, redis, k, result, f.raises, c.cacheNone, ttl, at, f.links);
            var (w', pc) := Alone(w, c, f, result);
            && pc == (if r.raised then PC.Raised else Done(r.r))
            && Mirrors(w', c.p, r.l1, r.redis, k, now)
  {
    hide Alone, MultiLevelCache.Look, ComputeStep, Shows;
    var w1 := LookAndCheck(cf, l1, redis, k, now, w, c, f, result);
    var (l1', found) := MultiLevelCache.Look(cf, l1, redis.data, k, (now, now), f.links.look);
    if found.Some? {
      AloneEnds(w1, c.(pc := Checked(found, false)), f, result);
    } else {
      Asks(cf, l1', redis, k, now, w1, c.(pc := TakeLock), f, ttl, result);
    }
  }

  /** From the lock on. */
  lemma Asks(cf: Config, l1: Lru<Value>, redis: Shared, k: string, now: real, w: World, c: Call, f: Fate,
             ttl: Option<int>, result: Option<Value>)
    requires c.pc == TakeLock && now >= 0.0 && Mirrors(w, c.p, l1, redis, k, now) && f.ttl == L2Ttl(cf, ttl)
    ensures var (w', pc) := Alone(w, c, f, result);
            var (l1', second) := MultiLevelCache.Look(cf, l1, redis.data, k, (now, now), f.links.again);
            var r := if !Refused(redis, k, f.links.take) then
                       ComputeStep(cf, l1, WithLock(redis, k, f.links.take), k, result, f.raises, c.cacheNone, ttl, now, f.links)
                     else if second.Some? then CallResult(l1', redis, false, false, Decode(second.value))
                     else ComputeStep(cf, l1', redis, k, result, f.raises, c.cacheNone, ttl, now, f.links);
            && pc == (if r.raised then PC.Raised else Done(r.r))
            && Mirrors(w', c.p, r.l1, r.redis, k, now)
  {
    AloneNext(w, c, f, result);
    var (w1, pc1) := Go(w, c, !f.links.take.Up?, result);
    hide Alone, MultiLevelCache.Look, ComputeStep;
    if Refused(redis, k, f.links.take) {
      var again := c.(pc := ReadL1(true));
      var w2 := LookAndCheck(cf, l1, redis, k, now, w1, again, f, result);
      var (l1', second) := MultiLevelCache.Look(cf, l1, redis.data, k, (now, now), f.links.again);
      if second.Some? {
        AloneEnds(w2, c.(pc := Checked(second, true)), f, result);
      } else {
        ComputeIsStep(cf, l1', redis, k, now, w2, c.(pc := Compute), f, ttl, result);
      }
    } else {
      ComputeIsStep(cf, l1, WithLock(redis, k, f.links.take), k, now, w1, c.(pc := Compute), f, ttl, result);
    }
  }

  // ----- Transparency -----

  ghost predicate PcOk(pc: PC, result: Option<Value>) {
    match pc
    case FillL1(_, v) => v == Encode(result)
    case Release(r) => r == result
    case Done(r) => r == result
    case _ => true
  }

  ghost predicate Inv(w: World, result: Option<Value>) {
    && Cached(w, result)
    && forall i :: 0 <= i < |w.calls| ==> PcOk(w.calls[i].pc, result)
  }

  ghost predicate Cached(w: World, result: Option<Value>) {
    && (forall p :: p in w.l1 ==> w.l1[p] == Encode(result))
    && (w.l2.Some? ==> w.l2.value == Encode(result))
  }

  lemma GoKeeps(w: World, c: Call, fails: bool, result: Option<Value>)
    requires result != Some(NULL_SENTINEL) && Cached(w, result) && PcOk(c.pc, result)
    ensures var (w', pc) := Go(w, c, fails, result);
            Cached(w', result) && PcOk(pc, result) && w'.calls == w.calls
  {
  }

  lemma StepKeeps(w: World, a: Action, result: Option<Value>)
    requires result != Some(NULL_SENTINEL) && Inv(w, result)
    ensures Inv(Step(w, a, result), result)
  {
    if a.Advance? && a.i < |w.calls| {
      GoKeeps(w, w.calls[a.i], a.fails, result);
      hide Go;
    }
  }

  lemma {:induction false} RunKeeps(acts: seq<Action>, result: Option<Value>)
    requires result != Some(NULL_SENTINEL)
    ensures Inv(Run(acts, result), result)
  {
    if acts != [] {
      RunKeeps(acts[..|acts| - 1], result);
      StepKeeps(Run(acts[..|acts| - 1], result), acts[|acts| - 1], result);
    }
  }

  /** Every call that returns, in every interleaving, returns the compute's own
      result. */
  ghost predicate Transparent(result: Option<Value>) {
    forall acts: seq<Action>, i: nat ::
      i < |Run(acts, result).calls| && Run(acts, result).calls[i].pc.Done? ==>
        Run(acts, result).calls[i].pc.r == result
  }

  /** The cache is transparent for exactly the results that are not the sentinel
      string itself; None, cached through the sentinel, is one of them. */
  lemma TransparencyIsExact(result: Option<Value>)
    ensures Transparent(result) <==> result != Some(NULL_SENTINEL)
  {
    if result != Some(NULL_SENTINEL) {
      forall acts: seq<Action>, i: nat | i < |Run(acts, result).calls| && Run(acts, result).calls[i].pc.Done?
        ensures Run(acts, result).calls[i].pc.r == result
      {
        RunKeeps(acts, result);
      }
    } else {
      var acts := SentinelIsLost();
      assert Run(acts, result).calls[1].pc == Done(None);
    }
  }

  lemma RunNext(acts: seq<Action>, a: Action, result: Option<Value>)
    ensures Run(acts + [a], result) == Step(Run(acts, result), a, result)
  {
    assert (acts + [a])[..|acts|] == acts;
  }

  /** Let call 0 run to completion, then call 1 look at what it stored. */
  lemma SentinelIsLost() returns (acts: seq<Action>)
    ensures var w := Run(acts, Some(NULL_SENTINEL)); |w.calls| == 2 && w.calls[1].pc == Done(None)
  {
    var result := Some(NULL_SENTINEL);
    acts := [];
    ghost var w := EMPTY;
    acts, w := Then(acts, w, Arrive(0, true));
    var n := 0;
    while n < 8
      invariant 0 <= n <= 8 && w == Run(acts, result) && |w.calls| == 1
      invariant w == World(if n <= 5 then map[] else map[0 := NULL_SENTINEL], if n <= 6 then None else result,
                           4 <= n <= 7, [Call(0, true, At(n))])
    {
      acts, w := Then(acts, w, Advance(0, false));
      n := n + 1;
    }
    acts, w := Then(acts, w, Arrive(0, true));
    acts, w := Then(acts, w, Advance(1, false));
    acts, w := Then(acts, w, Advance(1, false));
  }

  /** The path of an undisturbed first call. */
  function At(n: int): PC {
    if n == 0 then ReadL1(false) else if n == 1 then ReadL2(false) else if n == 2 then NullCheck(false)
    else if n == 3 then TakeLock else if n == 4 then Compute else if n == 5 then StoreL1
    else if n == 6 then StoreL2 else if n == 7 then Release(Some(NULL_SENTINEL)) else Done(Some(NULL_SENTINEL))
  }

  lemma Then(acts: seq<Action>, w: World, a: Action) returns (acts': seq<Action>, w': World)
    requires w == Run(acts, Some(NULL_SENTINEL))
    ensures acts' == acts + [a] && w' == Step(w, a, Some(NULL_SENTINEL)) == Run(acts', Some(NULL_SENTINEL))
  {
    RunNext(acts, a, Some(NULL_SENTINEL));
    acts', w' := acts + [a], Step(w, a, Some(NULL_SENTINEL));
  }
}
