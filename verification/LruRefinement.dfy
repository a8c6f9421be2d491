/** What the L1 cache promises over whole runs: it only ever answers what an
    unbounded TTL map would answer, and it forgets a live key only after at least
    `maxsize` other keys have been set or hit since that key was last touched. */
module LruRefinement {
  import opened Options
  import opened LruCache
  import opened Sets

  datatype Op<V> =
    | OpGet(key: string)
    | OpSet(key: string, value: V, ttl: int)
    | OpDelete(key: string)
    | OpClear
    | OpCleanup

  datatype Event<V> = Event(at: real, op: Op<V>)

  /** The reference: every entry set and not deleted, and for each of them the
      other keys set or hit since it was last set or hit itself. */
  datatype Reference<V> = Reference(entries: map<string, Entry<V>>, since: map<string, set<string>>)

  function Touch(since: map<string, set<string>>, k: string): map<string, set<string>> {
    map j | j in since.Keys + {k} :: if j == k then {} else since[j] + {k}
  }

  function ReferenceStep<V>(r: Reference<V>, e: Event<V>, hit: bool): Reference<V> {
    match e.op
    case OpGet(k) => if hit then r.(since := Touch(r.since, k)) else r
    case OpSet(k, v, ttl) => Reference(r.entries[k := Stamp(v, ttl, e.at)], Touch(r.since, k))
    case OpDelete(k) => Reference(r.entries - {k}, r.since - {k})
    case OpClear => Reference(map[], map[])
    case OpCleanup => r
  }

  /** What the unbounded TTL map answers. */
  function Answer<V>(r: Reference<V>, k: string, now: real): Option<V> {
    if k in r.entries && !Expired(r.entries[k], now) then Some(r.entries[k].value) else None
  }

  function Step<V>(maxsize: int, c: Lru<V>, e: Event<V>): Lru<V> {
    match e.op
    case OpGet(k) => Get(c, k, e.at).0
    case OpSet(k, v, ttl) => Set(maxsize, c, k, Stamp(v, ttl, e.at))
    case OpDelete(k) => Delete(c, k)
    case OpClear => Lru([], map[])
    case OpCleanup => Cleanup(c, e.at)
  }

  predicate Hits<V>(c: Lru<V>, e: Event<V>) {
    e.op.OpGet? && Get(c, e.op.key, e.at).1.Some?
  }

  /** Cache and reference after a run that starts empty. */
  function After<V>(maxsize: int, es: seq<Event<V>>): (Lru<V>, Reference<V>) {
    if es == [] then (Lru([], map[]), Reference(map[], map[]))
    else
      var (c, r) := After(maxsize, es[..|es| - 1]);
      var e := es[|es| - 1];
      (Step(maxsize, c, e), ReferenceStep(r, e, Hits(c, e)))
  }

  // ----- The invariant -----

  /** Every key has been followed by each key behind it. */
  ghost predicate Follows(order: seq<string>, since: map<string, set<string>>) {
    order == [] ||
    (order[0] in since && (forall x :: x in order[1..] ==> x in since[order[0]]) && Follows(order[1..], since))
  }

  ghost predicate Inv<V>(maxsize: int, c: Lru<V>, r: Reference<V>) {
    && WellFormed(c) && |c.order| <= maxsize
    && r.since.Keys == r.entries.Keys
    && (forall k :: k in c.data ==> k in r.entries && c.data[k] == r.entries[k])
    && Follows(c.order, r.since)
  }

  /** A live key is missing only if maxsize others have been touched since. */
  ghost predicate Retains<V>(maxsize: int, c: Lru<V>, r: Reference<V>, now: real) {
    forall k :: k in r.entries && k !in c.data && k in r.since ==>
      |r.since[k]| >= maxsize || Expired(r.entries[k], now)
  }

  lemma {:induction false} FollowsGrows(order: seq<string>, since: map<string, set<string>>,
                                        since': map<string, set<string>>)
    requires Follows(order, since)
    requires forall x :: x in order ==> x in since' && (x in since ==> since[x] <= since'[x])
    ensures Follows(order, since')
  {
    if order != [] {
      FollowsGrows(order[1..], since, since');
    }
  }

  lemma {:induction false} FollowsRemove(order: seq<string>, k: string, since: map<string, set<string>>)
    requires Distinct(order) && Follows(order, since)
    ensures Follows(Remove(order, k), since)
  {
    if order != [] && order[0] != k {
      FollowsRemove(order[1..], k, since);
      RemoveKeeps(order[1..], k);
      assert Remove(order, k)[1..] == Remove(order[1..], k);
    }
  }

  lemma {:induction false} FollowsOutside(order: seq<string>, ks: set<string>, since: map<string, set<string>>)
    requires Distinct(order) && Follows(order, since)
    ensures Follows(Outside(order, ks), since)
  {
    if order != [] {
      FollowsOutside(order[1..], ks, since);
      OutsideKeeps(order[1..], ks);
      if order[0] !in ks {
        assert Outside(order, ks)[1..] == Outside(order[1..], ks);
      }
    }
  }

  /** Touching k sends it to the back, behind everything it now follows. */
  lemma {:induction false} FollowsAppend(order: seq<string>, k: string, since: map<string, set<string>>)
    requires Follows(order, since) && k in since && forall x :: x in order ==> x in since && k in since[x]
    ensures Follows(order + [k], since)
  {
    if order != [] {
      FollowsAppend(order[1..], k, since);
      assert (order + [k])[1..] == order[1..] + [k];
    }
  }

  lemma FollowsTouch(order: seq<string>, k: string, since: map<string, set<string>>)
    requires Follows(order, since) && k !in order && forall x :: x in order ==> x in since
    ensures Follows(order + [k], Touch(since, k))
  {
    FollowsGrows(order, since, Touch(since, k));
    FollowsAppend(order, k, Touch(since, k));
  }

  /** The victim of an eviction has been followed by a full cache of others. */
  lemma VictimIsStale(maxsize: int, order: seq<string>, k: string, since: map<string, set<string>>)
    requires Distinct(order) && Follows(order, since) && order != [] && |order| == maxsize && k !in order
    ensures |Touch(since, k)[order[0]]| >= maxsize
  {
    var others := Members(order[1..]) + {k};
    DistinctCard(order[1..]);
    assert k !in Members(order[1..]);
    assert |others| == maxsize;
    SubsetCard(others, Touch(since, k)[order[0]]);
  }

  // ----- One step -----

  lemma RoomKeeps<V>(maxsize: int, c: Lru<V>, r: Reference<V>)
    requires maxsize >= 1 && Inv(maxsize, c, r)
    ensures Inv(maxsize, MakeRoom(maxsize, c), r) && |MakeRoom(maxsize, c).order| < maxsize
  {
    if |c.order| >= maxsize {
      assert c.order == [c.order[0]] + c.order[1..];
      assert c.order[0] !in c.order[1..];
    }
  }

  lemma AppendKeeps<V>(maxsize: int, c: Lru<V>, r: Reference<V>, k: string, e: Entry<V>)
    requires Inv(maxsize, c, r) && |c.order| < maxsize && k !in c.data
    ensures Inv(maxsize, Lru(c.order + [k], c.data[k := e]), Reference(r.entries[k := e], Touch(r.since, k)))
  {
    FollowsTouch(c.order, k, r.since);
    hide Follows;
  }

  lemma ReplaceKeeps<V>(maxsize: int, c: Lru<V>, r: Reference<V>, k: string, e: Entry<V>)
    requires Inv(maxsize, c, r) && k in c.data
    ensures Inv(maxsize, MoveToEnd(c, k).(data := c.data[k := e]), Reference(r.entries[k := e], Touch(r.since, k)))
  {
    RemoveKeeps(c.order, k);
    FollowsRemove(c.order, k, r.since);
    FollowsTouch(Remove(c.order, k), k, r.since);
    hide Follows, Remove;
  }

  lemma ExpiryKeeps<V>(maxsize: int, c: Lru<V>, r: Reference<V>, k: string)
    requires Inv(maxsize, c, r) && k in c.data
    ensures Inv(maxsize, Drop(c, k), r)
  {
    RemoveKeeps(c.order, k);
    FollowsRemove(c.order, k, r.since);
    hide Follows, Remove;
  }

  lemma HitKeeps<V>(maxsize: int, c: Lru<V>, r: Reference<V>, k: string)
    requires Inv(maxsize, c, r) && k in c.data
    ensures Inv(maxsize, MoveToEnd(c, k), r.(since := Touch(r.since, k)))
  {
    assert c.data[k] == r.entries[k];
    assert c.data[k := c.data[k]] == c.data && r.entries[k := r.entries[k]] == r.entries;
    ReplaceKeeps(maxsize, c, r, k, c.data[k]);
    hide Inv, Remove, Touch;
  }

  lemma GetKeeps<V>(maxsize: int, c: Lru<V>, r: Reference<V>, k: string, now: real)
    requires maxsize >= 1 && Inv(maxsize, c, r)
    ensures var e := Event(now, OpGet(k)); Inv(maxsize, Step(maxsize, c, e), ReferenceStep(r, e, Hits(c, e)))
  {
    if k in c.data {
      ExpiryKeeps(maxsize, c, r, k);
      HitKeeps(maxsize, c, r, k);
    }
    hide Inv, Drop, MoveToEnd, Touch;
  }

  lemma SetKeeps<V>(maxsize: int, c: Lru<V>, r: Reference<V>, k: string, v: V, ttl: int, now: real)
    requires maxsize >= 1 && Inv(maxsize, c, r)
    ensures var e := Event(now, OpSet(k, v, ttl)); Inv(maxsize, Step(maxsize, c, e), ReferenceStep(r, e, false))
  {
    if k in c.data {
      ReplaceKeeps(maxsize, c, r, k, Stamp(v, ttl, now));
      hide Inv;
    } else {
      RoomKeeps(maxsize, c, r);
      AppendKeeps(maxsize, MakeRoom(maxsize, c), r, k, Stamp(v, ttl, now));
      hide Inv;
    }
  }

  lemma DropKeeps<V>(maxsize: int, c: Lru<V>, r: Reference<V>, e: Event<V>)
    requires maxsize >= 1 && Inv(maxsize, c, r) && (e.op.OpDelete? || e.op.OpClear? || e.op.OpCleanup?)
    ensures Inv(maxsize, Step(maxsize, c, e), ReferenceStep(r, e, false))
  {
    match e.op
    case OpDelete(k) =>
      var r' := ReferenceStep(r, e, false);
      RemoveKeeps(c.order, k);
      RemoveAbsentIfMissing(c.order, k);
      FollowsRemove(c.order, k, r.since);
      FollowsGrows(Remove(c.order, k), r.since, r'.since);
    case OpCleanup =>
      CleanupWellFormed(c, e.at);
      OutsideKeeps(c.order, ExpiredKeys(c, e.at));
      FollowsOutside(c.order, ExpiredKeys(c, e.at), r.since);
    case OpClear =>
  }

  lemma RemoveAbsentIfMissing(order: seq<string>, k: string)
    ensures k !in order ==> Remove(order, k) == order
  {
    if k !in order {
      RemoveAbsent(order, k);
    }
  }

  lemma StepKeeps<V>(maxsize: int, c: Lru<V>, r: Reference<V>, e: Event<V>)
    requires maxsize >= 1 && Inv(maxsize, c, r)
    ensures Inv(maxsize, Step(maxsize, c, e), ReferenceStep(r, e, Hits(c, e)))
  {
    hide Inv;
    match e.op
    case OpGet(k) => GetKeeps(maxsize, c, r, k, e.at);
    case OpSet(k, v, ttl) => SetKeeps(maxsize, c, r, k, v, ttl, e.at);
    case _ => DropKeeps(maxsize, c, r, e);
  }

  lemma StepRetains<V>(maxsize: int, c: Lru<V>, r: Reference<V>, e: Event<V>, now: real)
    requires maxsize >= 1 && Inv(maxsize, c, r) && Retains(maxsize, c, r, now) && now <= e.at
    ensures Retains(maxsize, Step(maxsize, c, e), ReferenceStep(r, e, Hits(c, e)), e.at)
  {
    var c', r' := Step(maxsize, c, e), ReferenceStep(r, e, Hits(c, e));
    if e.op.OpSet? && e.op.key !in c.data && |c.order| >= maxsize {
      VictimIsStale(maxsize, c.order, e.op.key, r.since);
    }
    hide Follows, Distinct, Remove, Outside;
    forall k | k in r'.entries && k !in c'.data && k in r'.since
      ensures |r'.since[k]| >= maxsize || Expired(r'.entries[k], e.at)
    {
      if k !in c.data {
        SubsetCard(r.since[k], r'.since[k]);
      }
    }
  }

  // ----- Whole runs -----

  ghost predicate Chronological<V>(es: seq<Event<V>>) {
    forall i, j :: 0 <= i <= j < |es| ==> es[i].at <= es[j].at
  }

  lemma {:induction false} RunKeeps<V>(maxsize: int, es: seq<Event<V>>)
    requires maxsize >= 1
    ensures Inv(maxsize, After(maxsize, es).0, After(maxsize, es).1)
  {
    if es != [] {
      var prev := es[..|es| - 1];
      RunKeeps(maxsize, prev);
      var (c, r) := After(maxsize, prev);
      StepKeeps(maxsize, c, r, es[|es| - 1]);
    }
  }

  lemma {:induction false} RunRetains<V>(maxsize: int, es: seq<Event<V>>, now: real)
    requires maxsize >= 1 && Chronological(es) && (es != [] ==> es[|es| - 1].at <= now)
    ensures Retains(maxsize, After(maxsize, es).0, After(maxsize, es).1, now)
    decreases |es|
  {
    if es != [] {
      var prev, e := es[..|es| - 1], es[|es| - 1];
      RunKeeps(maxsize, prev);
      RunRetains(maxsize, prev, e.at);
      var (c, r) := After(maxsize, prev);
      StepRetains(maxsize, c, r, e, e.at);
      hide Step, ReferenceStep;
    }
  }

  /** Soundness, for any clock: after any run a lookup misses or answers exactly
      like the unbounded map, and the cache holds at most maxsize entries. */
  lemma LookupIsSound<V>(maxsize: int, es: seq<Event<V>>, k: string, now: real)
    requires maxsize >= 1
    ensures var (c, r) := After(maxsize, es);
            && |c.data| <= maxsize
            && (Get(c, k, now).1 == None || Get(c, k, now).1 == Answer(r, k, now))
  {
    RunKeeps(maxsize, es);
    var (c, r) := After(maxsize, es);
    DistinctCard(c.order);
  }

  /** Retention, for a clock that does not step back: a key whose last touch has
      been followed by fewer than maxsize distinct others is answered exactly. */
  lemma LookupRetains<V>(maxsize: int, es: seq<Event<V>>, k: string, now: real)
    requires maxsize >= 1 && Chronological(es) && (es != [] ==> es[|es| - 1].at <= now)
    ensures var (c, r) := After(maxsize, es);
            k in r.entries && k in r.since && |r.since[k]| < maxsize ==> Get(c, k, now).1 == Answer(r, k, now)
  {
    RunKeeps(maxsize, es);
    RunRetains(maxsize, es, now);
  }

  // ----- Counting, when nothing is deleted and nothing expires -----

  ghost predicate OnlyTouches<V>(es: seq<Event<V>>) {
    forall i :: 0 <= i < |es| ==> es[i].op.OpGet? || (es[i].op.OpSet? && es[i].op.ttl <= 0)
  }

  /** Conversely to Follows: whatever followed a key is still behind it. */
  ghost predicate Tight(order: seq<string>, since: map<string, set<string>>) {
    order == [] ||
    (order[0] in since && since[order[0]] <= Members(order[1..]) && Tight(order[1..], since))
  }

  lemma {:induction false} TightTouch(order: seq<string>, k: string, since: map<string, set<string>>)
    requires Distinct(order) && Tight(order, since)
    ensures Tight(Remove(order, k) + [k], Touch(since, k))
  {
    if order == [] {
      assert Tight([k][1..], Touch(since, k));
    } else {
      var head, tail := order[0], order[1..];
      TightTouch(tail, k, since);
      if head == k {
        RemoveAbsent(tail, k);
      } else {
        RemoveKeeps(tail, k);
        var rest := Remove(tail, k) + [k];
        assert Remove(order, k) + [k] == [head] + rest;
        hide Remove, Distinct;
        assert ([head] + rest)[1..] == rest;
        assert since[head] + {k} <= Members(rest);
      }
    }
  }

  lemma {:induction false} TightBounds(order: seq<string>, k: string, since: map<string, set<string>>)
    requires Distinct(order) && Tight(order, since) && k in order
    ensures k in since && |since[k]| < |order|
  {
    if k == order[0] {
      DistinctCard(order[1..]);
      SubsetCard(since[k], Members(order[1..]));
    } else {
      TightBounds(order[1..], k, since);
    }
  }

  lemma {:induction false} RunTight<V>(maxsize: int, es: seq<Event<V>>)
    requires maxsize >= 1 && OnlyTouches(es)
    ensures var (c, r) := After(maxsize, es);
            Tight(c.order, r.since) && forall k :: k in r.entries ==> r.entries[k].expiresAt == 0.0
  {
    if es != [] {
      var prev, e := es[..|es| - 1], es[|es| - 1];
      RunTight(maxsize, prev);
      RunKeeps(maxsize, prev);
      var (c, r) := After(maxsize, prev);
      var room := if e.op.OpSet? && e.op.key !in c.data then MakeRoom(maxsize, c) else c;
      TightTouch(room.order, e.op.key, r.since);
      RemoveAbsentIfMissing(room.order, e.op.key);
    }
  }

  /** Then a key is cached iff fewer than maxsize distinct other keys have been
      set or hit since its own last set or hit. */
  lemma EvictionByCount<V>(maxsize: int, es: seq<Event<V>>, k: string)
    requires maxsize >= 1 && OnlyTouches(es) && Chronological(es)
    requires k in After(maxsize, es).1.entries && k in After(maxsize, es).1.since
    ensures var (c, r) := After(maxsize, es); k in c.data <==> |r.since[k]| < maxsize
  {
    RunKeeps(maxsize, es);
    RunTight(maxsize, es);
    RunRetains(maxsize, es, if es == [] then 0.0 else es[|es| - 1].at);
    var (c, r) := After(maxsize, es);
    if k in c.data {
      TightBounds(c.order, k, r.since);
    }
  }

  // ----- Lifetimes -----

  /** A value set at `at` is served, if nothing else happens, exactly until its
      TTL has passed; with a TTL of zero or less it is served forever. */
  lemma TtlIsHonoured<V>(maxsize: int, c: Lru<V>, k: string, v: V, ttl: int, at: real, now: real)
    requires maxsize >= 1 && at >= 0.0
    ensures var c' := Set(maxsize, c, k, Stamp(v, ttl, at));
            Get(c', k, now).1 == if ttl <= 0 || now <= at + ttl as real then Some(v) else None
  {
  }
}
