/** How stale the two-level cache can be.  Several processes, each with its own
    L1, share one L2 and one clock; every get, set, delete and invalidation is one
    step and Redis may fail in any of them.  Entries carry no history, so both
    bounds are stated against the log of all writes ever attempted. */
module CacheStaleness {
  import opened Options
  import opened LruCache
  import opened MultiLevelCache

  /** One attempted write: its key and time, whether L2 took it, and for a set
      the cached value with the TTLs used in L2 and in the writer's L1. */
  datatype Write =
    | Put(key: string, at: real, ok: bool, value: Value, ttl: int, l1Ttl: int)
    | Erase(key: string, at: real, ok: bool)

  datatype World = World(l1s: map<nat, Lru<Value>>, l2: map<string, Stored>, log: seq<Write>)

  datatype Op =
    | GetOp(p: nat, key: string, link: Link)
    | SetOp(p: nat, key: string, value: Option<Value>, ttl: Option<int>, l1Ttl: Option<int>, link: Link)
    | DeleteOp(p: nat, key: string, link: Link)
    | InvalidateOp(key: string)      // invalidate_pattern: L2 only

  datatype Event = Event(at: real, op: Op)

  function L1Of(w: World, p: nat): Lru<Value> {
    if p in w.l1s then w.l1s[p] else Lru([], map[])
  }

  function Step(cf: Config, w: World, e: Event): World {
    match e.op
    case GetOp(p, k, link) =>
      w.(l1s := w.l1s[p := GetStep(cf, L1Of(w, p), w.l2, k, e.at, link).0])
    case SetOp(p, k, value, ttl, l1Ttl, link) =>
      var (v, t2, t1) := (Encode(value), L2Ttl(cf, ttl), L1Ttl(cf, ttl, l1Ttl));
      var ok := StoreSucceeds(link, t2);
      World(w.l1s[p := Set(cf.l1Maxsize, L1Of(w, p), k, Stamp(v, t1, e.at))],
            if ok then w.l2[k := Stored(v, e.at + t2 as real)] else w.l2,
            w.log + [Put(k, e.at, ok, v, t2, t1)])
    case DeleteOp(p, k, link) =>
      World(w.l1s[p := Delete(L1Of(w, p), k)],
            if link.Up? then w.l2 - {k} else w.l2,
            w.log + [Erase(k, e.at, link.Up?)])
    case InvalidateOp(k) =>
      World(w.l1s, w.l2 - {k}, w.log + [Erase(k, e.at, true)])
  }

  function Run(cf: Config, es: seq<Event>): World {
    if es == [] then World(map[], map[], [])
    else Step(cf, Run(cf, es[..|es| - 1]), es[|es| - 1])
  }

  // ----- The invariant -----

  /** How long after a set its value can still be served. */
  function Life(cf: Config, w: Write): real
    requires w.Put?
  {
    var copied := (w.ttl + FillTtl(cf, w.value)) as real;
    if copied <= w.l1Ttl as real then w.l1Ttl as real else copied
  }

  /** Write i put this value under k. */
  ghost predicate PutBy(log: seq<Write>, k: string, v: Value, i: nat) {
    i < |log| && log[i].Put? && log[i].key == k && log[i].value == v
  }

  /** An L1 entry of write i: short-lived after i, and shorter-lived still after
      any later write that reached L2. */
  ghost predicate L1Entry(cf: Config, log: seq<Write>, bound: int, k: string, e: Entry<Value>, i: nat) {
    && PutBy(log, k, e.value, i) && 0.0 < e.expiresAt <= log[i].at + Life(cf, log[i])
    && forall j :: i < j < |log| && log[j].key == k && log[j].ok ==> e.expiresAt <= log[j].at + bound as real
  }

  /** The L2 entry is that of the last write that reached L2. */
  ghost predicate L2Entry(log: seq<Write>, k: string, s: Stored, i: nat) {
    && PutBy(log, k, s.value, i) && log[i].ok && s.expiresAt == log[i].at + log[i].ttl as real
    && forall j :: i < j < |log| && log[j].key == k ==> !log[j].ok
  }

  ghost predicate L1Ok(cf: Config, log: seq<Write>, bound: int, now: real, k: string, e: Entry<Value>) {
    e.expiresAt <= now + bound as real && exists i :: L1Entry(cf, log, bound, k, e, i)
  }

  ghost predicate L2Ok(log: seq<Write>, k: string, s: Stored) {
    exists i :: L2Entry(log, k, s, i)
  }

  ghost predicate LocalOk(cf: Config, log: seq<Write>, bound: int, now: real, l1: Lru<Value>) {
    forall k :: k in l1.data ==> L1Ok(cf, log, bound, now, k, l1.data[k])
  }

  ghost predicate SharedOk(log: seq<Write>, l2: map<string, Stored>) {
    forall k :: k in l2 ==> L2Ok(log, k, l2[k])
  }

  ghost predicate LogOk(cf: Config, log: seq<Write>, bound: int, now: real) {
    && (forall i :: 0 <= i < |log| ==> 0.0 < log[i].at <= now)
    && (forall i, j :: 0 <= i <= j < |log| ==> log[i].at <= log[j].at)
    && forall i :: 0 <= i < |log| && log[i].Put? ==> 0 < log[i].l1Ttl <= bound
  }

  ghost predicate Inv(cf: Config, w: World, bound: int, now: real) {
    && LogOk(cf, w.log, bound, now)
    && SharedOk(w.log, w.l2)
    && forall p :: p in w.l1s ==> LocalOk(cf, w.log, bound, now, w.l1s[p])
  }

  /** Positive TTLs, with `bound` above every L1 lifetime in use. */
  ghost predicate Configured(cf: Config, bound: int) {
    0 < cf.l1Ttl <= bound && 0 < cf.nullTtl <= bound && 0 < cf.l2Ttl && cf.l1Maxsize >= 1
  }

  ghost predicate Admissible(cf: Config, bound: int, e: Event) {
    && e.at > 0.0
    && (e.op.SetOp? ==> L2Ttl(cf, e.op.ttl) > 0 && 0 < L1Ttl(cf, e.op.ttl, e.op.l1Ttl) <= bound)
  }

  // ----- Steps keep it -----

  /** A new log record leaves older entries justified: the record is at the
      present time, and every L1 entry dies within `bound` of it. */
  lemma OlderEntry(cf: Config, log: seq<Write>, bound: int, now: real, w: Write, k: string, e: Entry<Value>)
    requires L1Ok(cf, log, bound, now, k, e) && now <= w.at
    ensures L1Ok(cf, log + [w], bound, w.at, k, e)
  {
    var i :| L1Entry(cf, log, bound, k, e, i);
    assert L1Entry(cf, log + [w], bound, k, e, i);
  }

  lemma OlderLocal(cf: Config, log: seq<Write>, bound: int, now: real, w: Write, l1: Lru<Value>)
    requires LocalOk(cf, log, bound, now, l1) && now <= w.at
    ensures LocalOk(cf, log + [w], bound, w.at, l1)
  {
    forall k | k in l1.data
      ensures L1Ok(cf, log + [w], bound, w.at, k, l1.data[k])
    {
      OlderEntry(cf, log, bound, now, w, k, l1.data[k]);
    }
  }

  lemma OlderShared(log: seq<Write>, w: Write, l2: map<string, Stored>)
    requires SharedOk(log, l2) && (w.ok ==> w.key !in l2)
    ensures SharedOk(log + [w], l2)
  {
    forall k | k in l2
      ensures L2Ok(log + [w], k, l2[k])
    {
      var i :| L2Entry(log, k, l2[k], i);
      assert L2Entry(log + [w], k, l2[k], i);
    }
  }

  lemma NewShared(log: seq<Write>, w: Write, l2: map<string, Stored>)
    requires SharedOk(log, l2) && w.Put? && w.ok
    ensures SharedOk(log + [w], l2[w.key := Stored(w.value, w.at + w.ttl as real)])
  {
    var s := Stored(w.value, w.at + w.ttl as real);
    var rest := l2 - {w.key};
    assert forall k :: k in rest ==> L2Ok(log, k, l2[k]);
    OlderShared(log, w, rest);
    assert L2Entry(log + [w], w.key, s, |log|);
    hide L2Entry;
    var l2' := l2[w.key := s];
    forall k | k in l2'
      ensures L2Ok(log + [w], k, l2'[k])
    {
      assert k != w.key ==> k in rest && rest[k] == l2[k];
    }
  }

  /** An entry copied from L2 outlives its set by at most ttl plus one L1 life. */
  lemma CopiedEntry(cf: Config, log: seq<Write>, bound: int, now: real, k: string, s: Stored)
    requires Configured(cf, bound) && LogOk(cf, log, bound, now) && now > 0.0
    requires L2Ok(log, k, s) && now < s.expiresAt
    ensures L1Ok(cf, log, bound, now, k, Stamp(s.value, FillTtl(cf, s.value), now))
  {
    var i :| L2Entry(log, k, s, i);
    var e := Stamp(s.value, FillTtl(cf, s.value), now);
    assert L1Entry(cf, log, bound, k, e, i);
  }

  lemma GetLocal(cf: Config, w: World, bound: int, l1: Lru<Value>, k: string, now: real, link: Link)
    requires Configured(cf, bound) && LogOk(cf, w.log, bound, now) && SharedOk(w.log, w.l2) && now > 0.0
    requires LocalOk(cf, w.log, bound, now, l1)
    ensures LocalOk(cf, w.log, bound, now, GetStep(cf, l1, w.l2, k, now, link).0)
  {
    GetStepData(cf, l1, w.l2, k, now, link);
    if Fetch(w.l2, k, now).Some? {
      CopiedEntry(cf, w.log, bound, now, k, w.l2[k]);
    }
    hide GetStep, L1Ok, L2Ok, Served, LogOk;
  }

  lemma GetKeeps(cf: Config, w: World, bound: int, e: Event)
    requires Configured(cf, bound) && Inv(cf, w, bound, e.at) && e.op.GetOp? && e.at > 0.0
    ensures Inv(cf, Step(cf, w, e), bound, e.at)
  {
    assert LocalOk(cf, w.log, bound, e.at, L1Of(w, e.op.p));
    GetLocal(cf, w, bound, L1Of(w, e.op.p), e.op.key, e.at, e.op.link);
    hide GetStep, LocalOk, SharedOk, LogOk;
  }

  /** A write at the present time: the log grows by its record, L1s that it does
      not touch stay justified, so only what it touches is left to show. */
  lemma WriteKeeps(cf: Config, w: World, w': World, bound: int, rec: Write)
    requires Inv(cf, w, bound, rec.at) && rec.at > 0.0 && (rec.Put? ==> 0 < rec.l1Ttl <= bound)
    requires w'.log == w.log + [rec] && SharedOk(w'.log, w'.l2)
    requires forall q :: q in w'.l1s ==>
               (q in w.l1s && w'.l1s[q] == w.l1s[q]) || LocalOk(cf, w'.log, bound, rec.at, w'.l1s[q])
    ensures Inv(cf, w', bound, rec.at)
  {
    assert LogOk(cf, w'.log, bound, rec.at);
    hide LogOk, SharedOk, LocalOk;
    forall q | q in w.l1s
      ensures LocalOk(cf, w'.log, bound, rec.at, w.l1s[q])
    {
      OlderLocal(cf, w.log, bound, rec.at, rec, w.l1s[q]);
    }
  }

  lemma SetLocal(cf: Config, log: seq<Write>, bound: int, rec: Write, l1: Lru<Value>)
    requires LocalOk(cf, log, bound, rec.at, l1) && rec.Put? && rec.at > 0.0 && 0 < rec.l1Ttl <= bound
    ensures LocalOk(cf, log + [rec], bound, rec.at,
                    Set(cf.l1Maxsize, l1, rec.key, Stamp(rec.value, rec.l1Ttl, rec.at)))
  {
    var entry := Stamp(rec.value, rec.l1Ttl, rec.at);
    OlderLocal(cf, log, bound, rec.at, rec, l1);
    SetData(cf.l1Maxsize, l1, rec.key, entry);
    assert L1Entry(cf, log + [rec], bound, rec.key, entry, |log|);
    assert L1Ok(cf, log + [rec], bound, rec.at, rec.key, entry);
    hide L1Ok, Set;
  }

  lemma SetKeeps(cf: Config, w: World, bound: int, e: Event)
    requires Configured(cf, bound) && Inv(cf, w, bound, e.at) && e.op.SetOp? && Admissible(cf, bound, e)
    ensures Inv(cf, Step(cf, w, e), bound, e.at)
  {
    var w' := Step(cf, w, e);
    var rec := w'.log[|w.log|];
    assert LocalOk(cf, w.log, bound, e.at, L1Of(w, e.op.p));
    SetLocal(cf, w.log, bound, rec, L1Of(w, e.op.p));
    if rec.ok {
      NewShared(w.log, rec, w.l2);
    } else {
      OlderShared(w.log, rec, w.l2);
    }
    hide Set, LocalOk, SharedOk, LogOk;
    WriteKeeps(cf, w, w', bound, rec);
  }

  lemma EraseKeeps(cf: Config, w: World, bound: int, e: Event)
    requires Configured(cf, bound) && Inv(cf, w, bound, e.at) && Admissible(cf, bound, e)
    requires e.op.DeleteOp? || e.op.InvalidateOp?
    ensures Inv(cf, Step(cf, w, e), bound, e.at)
  {
    var w' := Step(cf, w, e);
    var rec := w'.log[|w.log|];
    if e.op.DeleteOp? {
      assert LocalOk(cf, w.log, bound, e.at, Delete(L1Of(w, e.op.p), e.op.key));
      OlderLocal(cf, w.log, bound, e.at, rec, Delete(L1Of(w, e.op.p), e.op.key));
    }
    assert SharedOk(w.log, w'.l2);
    OlderShared(w.log, rec, w'.l2);
    hide Delete, LocalOk, SharedOk, LogOk;
    WriteKeeps(cf, w, w', bound, rec);
  }

  ghost predicate Chronological(cf: Config, bound: int, es: seq<Event>) {
    && (forall i :: 0 <= i < |es| ==> Admissible(cf, bound, es[i]))
    && forall i, j :: 0 <= i <= j < |es| ==> es[i].at <= es[j].at
  }

  lemma {:induction false} RunKeeps(cf: Config, bound: int, es: seq<Event>, now: real)
    requires Configured(cf, bound) && Chronological(cf, bound, es)
    requires now >= 0.0 && (es != [] ==> es[|es| - 1].at <= now)
    ensures Inv(cf, Run(cf, es), bound, now)
    decreases |es|
  {
    if es != [] {
      var prev, e := es[..|es| - 1], es[|es| - 1];
      RunKeeps(cf, bound, prev, e.at);
      var w := Run(cf, prev);
      match e.op
      case GetOp(_, _, _) => GetKeeps(cf, w, bound, e);
      case SetOp(_, _, _, _, _, _) => SetKeeps(cf, w, bound, e);
      case _ => EraseKeeps(cf, w, bound, e);
      LaterKeeps(cf, Run(cf, es), bound, e.at, now);
    }
  }

  lemma LaterKeeps(cf: Config, w: World, bound: int, now: real, later: real)
    requires Inv(cf, w, bound, now) && now <= later
    ensures Inv(cf, w, bound, later)
  {
    hide L1Entry, L2Ok;
  }

  // ----- The two bounds -----

  /** What a read at `now` by process p returns. */
  function Read(cf: Config, w: World, p: nat, k: string, now: real, link: Link): Option<Value> {
    GetStep(cf, L1Of(w, p), w.l2, k, now, link).1
  }

  /** The cached value, sentinel included, that such a read answers from. */
  function Answer(w: World, p: nat, k: string, now: real, link: Link): Option<Value> {
    Served(L1Of(w, p), w.l2, k, now, link)
  }

  /** Over every run, what is served, a cached None included, was put by some
      write no longer ago than its L2 TTL plus one L1 lifetime (or its own explicit
      L1 TTL), and no write that reached L2 more than `bound` ago came after it. */
  lemma ServedIsRecent(cf: Config, bound: int, es: seq<Event>, p: nat, k: string, now: real, link: Link)
    returns (i: nat)
    requires Configured(cf, bound) && Chronological(cf, bound, es)
    requires now > 0.0 && (es != [] ==> es[|es| - 1].at <= now)
    requires Answer(Run(cf, es), p, k, now, link).Some?
    ensures var log, v := Run(cf, es).log, Answer(Run(cf, es), p, k, now, link).value;
            && PutBy(log, k, v, i)
            && now <= log[i].at + Life(cf, log[i])
            && forall j :: i < j < |log| && log[j].key == k && log[j].ok ==> now <= log[j].at + bound as real
  {
    RunKeeps(cf, bound, es, now);
    var w := Run(cf, es);
    ServedIs(L1Of(w, p), w.l2, k, now, link);
    var v := Answer(w, p, k, now, link).value;
    hide Run, Served;
    if Fetch(w.l2, k, now) == Some(v) {
      assert L2Ok(w.log, k, w.l2[k]);
      i :| L2Entry(w.log, k, w.l2[k], i);
    } else {
      var e := w.l1s[p].data[k];
      assert L1Ok(cf, w.log, bound, now, k, e);
      i :| L1Entry(cf, w.log, bound, k, e, i);
    }
  }

  /** The same for what the caller sees: a value read is that recent. */
  lemma ReadIsRecent(cf: Config, bound: int, es: seq<Event>, p: nat, k: string, now: real, link: Link)
    returns (i: nat)
    requires Configured(cf, bound) && Chronological(cf, bound, es)
    requires now > 0.0 && (es != [] ==> es[|es| - 1].at <= now)
    requires Read(cf, Run(cf, es), p, k, now, link).Some?
    ensures var log, v := Run(cf, es).log, Read(cf, Run(cf, es), p, k, now, link).value;
            && PutBy(log, k, v, i)
            && now <= log[i].at + Life(cf, log[i])
            && forall j :: i < j < |log| && log[j].key == k && log[j].ok ==> now <= log[j].at + bound as real
  {
    ReadIsAnswer(cf, Run(cf, es), p, k, now, link);
    i := ServedIsRecent(cf, bound, es, p, k, now, link);
  }

  lemma ReadIsAnswer(cf: Config, w: World, p: nat, k: string, now: real, link: Link)
    ensures var raw := Answer(w, p, k, now, link);
            Read(cf, w, p, k, now, link) == if raw == None then None else Decode(raw.value)
  {
    GetStepData(cf, L1Of(w, p), w.l2, k, now, link);
  }

  // ----- The same bounds in terms of the calls -----

  /** The TTLs that a call asks for. */
  function Seconds(cf: Config, ttl: Option<int>): int {
    match ttl
    case Some(t) => t
    case None => cf.l2Ttl
  }

  function LocalSeconds(cf: Config, ttl: Option<int>, l1Ttl: Option<int>): int {
    match (ttl, l1Ttl)
    case (_, Some(x)) => x
    case (Some(t), None) => if t < cf.l1Ttl then t else cf.l1Ttl
    case (None, None) => if cf.l2Ttl < cf.l1Ttl then cf.l2Ttl else cf.l1Ttl
  }

  function CachedAs(value: Option<Value>): Value {
    if value.Some? then value.value else Text("__NULL__")
  }

  /** Event e is a write of k that reaches L2. */
  predicate Reaches(cf: Config, e: Event, k: string) {
    match e.op
    case GetOp(_, _, _) => false
    case SetOp(_, key, _, ttl, _, link) => key == k && link.Up? && Seconds(cf, ttl) > 0
    case DeleteOp(_, key, link) => key == k && link.Up?
    case InvalidateOp(key) => key == k
  }

  /** The positions of the writes. */
  function Writes(es: seq<Event>): seq<nat> {
    if es == [] then []
    else Writes(es[..|es| - 1]) + if es[|es| - 1].op.GetOp? then [] else [|es| - 1]
  }

  function RecordOf(cf: Config, e: Event): Write
    requires !e.op.GetOp?
  {
    match e.op
    case SetOp(_, k, value, ttl, l1Ttl, _) =>
      Put(k, e.at, Reaches(cf, e, k), CachedAs(value), Seconds(cf, ttl), LocalSeconds(cf, ttl, l1Ttl))
    case DeleteOp(_, k, _) => Erase(k, e.at, Reaches(cf, e, k))
    case InvalidateOp(k) => Erase(k, e.at, Reaches(cf, e, k))
  }

  lemma StepLogs(cf: Config, w: World, e: Event)
    ensures Step(cf, w, e).log == w.log + if e.op.GetOp? then [] else [RecordOf(cf, e)]
  {
    hide GetStep, Set, Delete;
  }

  /** The log records the writes in order, with the TTLs the callers passed. */
  lemma {:induction false} LogIs(cf: Config, es: seq<Event>)
    ensures var log, at := Run(cf, es).log, Writes(es);
            && |log| == |at|
            && (forall i :: 0 <= i < |at| ==> at[i] < |es| && !es[at[i]].op.GetOp? && log[i] == RecordOf(cf, es[at[i]]))
            && (forall i, j :: 0 <= i < j < |at| ==> at[i] < at[j])
            && forall j :: 0 <= j < |es| && !es[j].op.GetOp? ==> j in at
  {
    if es != [] {
      var n := |es| - 1;
      var prev, e := es[..n], es[n];
      LogIs(cf, prev);
      StepLogs(cf, Run(cf, prev), e);
      assert Run(cf, es).log == Run(cf, prev).log + if e.op.GetOp? then [] else [RecordOf(cf, e)];
      var before := Writes(prev);
      assert Writes(es) == before + if e.op.GetOp? then [] else [n];
      hide Run, Writes, RecordOf, Step;
      forall j | 0 <= j < |es| && !es[j].op.GetOp?
        ensures j in Writes(es)
      {
        assert j < n ==> prev[j] == es[j] && j in before;
      }
    }
  }

  /** Call j is a set of k to v, made no longer before now than the TTL it passed,
      or else l2_ttl, plus one L1 lifetime of a copy; an explicit l1_ttl counts by
      itself too.  Every later write that reached L2 was made at most `bound` ago. */
  ghost predicate Explains(cf: Config, bound: int, es: seq<Event>, j: nat, k: string, v: Value, now: real) {
    && j < |es| && es[j].op.SetOp? && es[j].op.key == k
    && (var (at, op) := (es[j].at, es[j].op);
        var copy := if v == Text("__NULL__") then cf.nullTtl else cf.l1Ttl;
        && v == CachedAs(op.value)
        && (op.ttl.Some? && op.l1Ttl == None ==> now <= at + op.ttl.value as real + copy as real)
        && (op.ttl == None && op.l1Ttl == None ==> now <= at + cf.l2Ttl as real + copy as real)
        && (op.l1Ttl.Some? ==>
              || now <= at + op.l1Ttl.value as real
              || now <= at + Seconds(cf, op.ttl) as real + copy as real))
    && forall i :: j < i < |es| && Reaches(cf, es[i], k) ==> now <= es[i].at + bound as real
  }

  lemma LaterReach(cf: Config, bound: int, es: seq<Event>, i: nat, k: string, now: real)
    requires i < |Run(cf, es).log| == |Writes(es)|
    requires var log := Run(cf, es).log;
             forall n :: i < n < |log| && log[n].key == k && log[n].ok ==> now <= log[n].at + bound as real
    ensures forall m :: Writes(es)[i] < m < |es| && Reaches(cf, es[m], k) ==> now <= es[m].at + bound as real
  {
    LogIs(cf, es);
    var log, at := Run(cf, es).log, Writes(es);
    hide Run, Writes;
    forall m | at[i] < m < |es| && Reaches(cf, es[m], k)
      ensures now <= es[m].at + bound as real
    {
      assert m in at;
      var n :| 0 <= n < |at| && at[n] == m;
      assert log[n] == RecordOf(cf, es[m]);
    }
  }

  /** A set call explains what any process answers from. */
  lemma AnsweredBySet(cf: Config, bound: int, es: seq<Event>, p: nat, k: string, now: real, link: Link)
    requires Configured(cf, bound) && Chronological(cf, bound, es)
    requires now > 0.0 && (es != [] ==> es[|es| - 1].at <= now)
    requires Answer(Run(cf, es), p, k, now, link).Some?
    ensures exists j: nat :: Explains(cf, bound, es, j, k, Answer(Run(cf, es), p, k, now, link).value, now)
  {
    var i := ServedIsRecent(cf, bound, es, p, k, now, link);
    LogIs(cf, es);
    LaterReach(cf, bound, es, i, k, now);
    var j, v := Writes(es)[i], Answer(Run(cf, es), p, k, now, link).value;
    hide Run, Writes, Answer, Reaches, Chronological;
    assert Run(cf, es).log[i] == RecordOf(cf, es[j]);
    assert Explains(cf, bound, es, j, k, v, now);
  }

  /** After the last call that reached L2, if it was a set, L2 serves its value
      exactly until the TTL that this call passed is over, and so does a process
      that has no copy of its own. */
  lemma {:induction false} L2ServesExactly(cf: Config, es: seq<Event>, j: nat, k: string, now: real)
    requires j < |es| && es[j].op.SetOp? && Reaches(cf, es[j], k)
    requires forall i :: j < i < |es| ==> !Reaches(cf, es[i], k)
    ensures var w, expiry := Run(cf, es), es[j].at + Seconds(cf, es[j].op.ttl) as real;
            var v := if now < expiry then Some(CachedAs(es[j].op.value)) else None;
            && Fetch(w.l2, k, now) == v
            && forall q :: k !in L1Of(w, q).data ==> Answer(w, q, k, now, Up) == v
  {
    L2Is(cf, es, j, k);
  }

  lemma {:induction false} L2Is(cf: Config, es: seq<Event>, j: nat, k: string)
    requires j < |es| && es[j].op.SetOp? && Reaches(cf, es[j], k)
    requires forall i :: j < i < |es| ==> !Reaches(cf, es[i], k)
    ensures var w := Run(cf, es);
            k in w.l2 && w.l2[k] == Stored(CachedAs(es[j].op.value), es[j].at + Seconds(cf, es[j].op.ttl) as real)
    decreases |es|
  {
    var prev, e := es[..|es| - 1], es[|es| - 1];
    if j < |es| - 1 {
      L2Is(cf, prev, j, k);
      assert !Reaches(cf, e, k);
    }
    hide GetStep, Set, Delete;
  }

  /** Event e is no operation of process p on key k. */
  predicate Elsewhere(e: Event, p: nat, k: string) {
    match e.op
    case GetOp(q, key, _) => q != p || key != k
    case SetOp(q, key, _, _, _, _) => q != p || key != k
    case DeleteOp(q, key, _) => q != p || key != k
    case InvalidateOp(_) => true
  }

  /** The writer's own copy serves exactly until the L1 TTL of its call is over: the
      one passed, or else the shorter of l1_ttl and the TTL; only eviction, by the
      writer's operations on other keys, can end it earlier. */
  lemma WriterCopy(cf: Config, es: seq<Event>, j: nat, k: string)
    requires j < |es| && es[j].op.SetOp? && es[j].op.key == k && es[j].at > 0.0
    requires LocalSeconds(cf, es[j].op.ttl, es[j].op.l1Ttl) > 0
    requires forall i :: j < i < |es| ==> Elsewhere(es[i], es[j].op.p, k)
    ensures var (c, op) := (L1Of(Run(cf, es), es[j].op.p), es[j].op);
            && (j == |es| - 1 ==> k in c.data)
            && (k in c.data ==>
                  forall now :: Get(c, k, now).1 ==
                    if now <= es[j].at + LocalSeconds(cf, op.ttl, op.l1Ttl) as real then Some(CachedAs(op.value)) else None)
  {
    CopyIs(cf, es, j, k);
  }

  lemma {:induction false} CopyIs(cf: Config, es: seq<Event>, j: nat, k: string)
    requires j < |es| && es[j].op.SetOp? && es[j].op.key == k
    requires forall i :: j < i < |es| ==> Elsewhere(es[i], es[j].op.p, k)
    ensures var (c, op) := (L1Of(Run(cf, es), es[j].op.p), es[j].op);
            && (j == |es| - 1 ==> k in c.data)
            && (k in c.data ==>
                  c.data[k] == Stamp(CachedAs(op.value), LocalSeconds(cf, op.ttl, op.l1Ttl), es[j].at))
    decreases |es|
  {
    var prev, e := es[..|es| - 1], es[|es| - 1];
    var w := Run(cf, prev);
    assert Run(cf, es) == Step(cf, w, e);
    if j < |es| - 1 {
      CopyIs(cf, prev, j, k);
      assert Elsewhere(e, es[j].op.p, k);
      OtherKeyKeeps(cf, w, e, es[j].op.p, k);
    } else {
      SetData(cf.l1Maxsize, L1Of(w, e.op.p), k, Stamp(Encode(e.op.value), L1Ttl(cf, e.op.ttl, e.op.l1Ttl), e.at));
    }
    hide Run, GetStep, Set, Delete;
  }

  /** What process p does with other keys keeps its copy of k or evicts it. */
  lemma OtherKeyKeeps(cf: Config, w: World, e: Event, p: nat, k: string)
    requires Elsewhere(e, p, k)
    ensures var c, c' := L1Of(w, p), L1Of(Step(cf, w, e), p);
            k in c'.data ==> k in c.data && c'.data[k] == c.data[k]
  {
    match e.op
    case GetOp(q, key, link) => GetStepData(cf, L1Of(w, q), w.l2, key, e.at, link);
    case SetOp(q, key, value, ttl, l1Ttl, _) =>
      SetData(cf.l1Maxsize, L1Of(w, q), key, Stamp(Encode(value), L1Ttl(cf, ttl, l1Ttl), e.at));
    case _ =>
    hide GetStep, Set;
  }

  /** With the default L1 TTL a set call is logged with a life, the bound of
      `ServedIsRecent`, that is the TTL it passed plus the L1 lifetime of a copy. */
  lemma DefaultLife(cf: Config, bound: int, es: seq<Event>, j: nat)
    requires Configured(cf, bound) && Chronological(cf, bound, es)
    requires j < |es| && es[j].op.SetOp? && es[j].op.l1Ttl == None
    ensures var (op, log) := (es[j].op, Run(cf, es).log);
            var copy := if CachedAs(op.value) == Text("__NULL__") then cf.nullTtl else cf.l1Ttl;
            exists i: nat :: PutBy(log, op.key, CachedAs(op.value), i) && log[i].at == es[j].at
                        && Life(cf, log[i]) == (Seconds(cf, op.ttl) + copy) as real
                        && log[i].l1Ttl <= cf.l1Ttl
  {
    LogIs(cf, es);
    var op, log, at := es[j].op, Run(cf, es).log, Writes(es);
    hide Run, Writes;
    assert j in at;
    var i :| 0 <= i < |at| && at[i] == j;
    assert log[i] == RecordOf(cf, es[j]);
    assert PutBy(log, op.key, CachedAs(op.value), i);
    assert Seconds(cf, op.ttl) == L2Ttl(cf, op.ttl) > 0;
  }

  /** Cross-process invalidation: once a write at time t has reached L2, no
      process answers from an entry put only before it, a cached None included,
      past t + bound. */
  lemma InvalidationReaches(cf: Config, bound: int, es: seq<Event>, p: nat, k: string, now: real, link: Link, j: nat)
    requires Configured(cf, bound) && Chronological(cf, bound, es)
    requires now > 0.0 && (es != [] ==> es[|es| - 1].at <= now)
    requires var log := Run(cf, es).log;
             j < |log| && log[j].key == k && log[j].ok && now > log[j].at + bound as real
    ensures var r := Answer(Run(cf, es), p, k, now, link);
            r == None || exists i :: i >= j && PutBy(Run(cf, es).log, k, r.value, i)
  {
    if Answer(Run(cf, es), p, k, now, link).Some? {
      var i := ServedIsRecent(cf, bound, es, p, k, now, link);
      assert i >= j;
    }
  }

  /** Write j is the last one of its key to have reached L2. */
  ghost predicate LastOk(log: seq<Write>, j: nat) {
    j < |log| && log[j].ok && forall i :: j < i < |log| && log[i].key == log[j].key ==> !log[i].ok
  }

  /** L2 holds exactly the last write of a key that reached it. */
  lemma {:induction false} L2HoldsLast(cf: Config, es: seq<Event>, j: nat)
    requires LastOk(Run(cf, es).log, j)
    ensures var w := Run(cf, es);
            var k := w.log[j].key;
            if w.log[j].Put? then k in w.l2 && w.l2[k] == Stored(w.log[j].value, w.log[j].at + w.log[j].ttl as real)
            else k !in w.l2
    decreases |es|
  {
    if es != [] {
      var prev := Run(cf, es[..|es| - 1]);
      var w := Run(cf, es);
      assert w == Step(cf, prev, es[|es| - 1]);
      hide Run, GetStep, Set;
      if j < |prev.log| {
        assert LastOk(prev.log, j) by {
          forall i | j < i < |prev.log| && prev.log[i].key == prev.log[j].key
            ensures !prev.log[i].ok
          {
            assert w.log[i] == prev.log[i];
          }
        }
        L2HoldsLast(cf, es[..|es| - 1], j);
        if |w.log| > |prev.log| {
          assert w.log[|prev.log|].key == w.log[j].key ==> !w.log[|prev.log|].ok;
        }
      }
    }
  }

  /** Convergence: a set that reached L2 and was not followed by another write of
      its key is what every process reads from `bound` seconds on, for as long as
      L2 keeps it; so a None cached elsewhere before the set is gone by then. */
  lemma SetReachesEveryone(cf: Config, bound: int, es: seq<Event>, p: nat, k: string, now: real, j: nat)
    requires Configured(cf, bound) && Chronological(cf, bound, es)
    requires now > 0.0 && (es != [] ==> es[|es| - 1].at <= now)
    requires var log := Run(cf, es).log;
             && j < |log| && log[j].Put? && log[j].key == k && log[j].ok
             && (forall i :: j < i < |log| ==> log[i].key != k)
             && log[j].at + bound as real < now < log[j].at + log[j].ttl as real
    ensures Read(cf, Run(cf, es), p, k, now, Up) == Decode(Run(cf, es).log[j].value)
  {
    var w := Run(cf, es);
    assert LastOk(w.log, j);
    L2HoldsLast(cf, es, j);
    ReadIsAnswer(cf, w, p, k, now, Up);
    InvalidationReaches(cf, bound, es, p, k, now, Up, j);
    hide Run, Read;
    var r := Answer(w, p, k, now, Up);
    if r != None {
      var i :| i >= j && PutBy(w.log, k, r.value, i);
      assert i == j;
    }
  }

  /** The positive TTL is needed: with a TTL of zero or less the writer's L1
      serves the value at every later time, while L2 refuses it. */
  lemma NonPositiveTtlNeverExpires(cf: Config, k: string, v: Value, at: real, now: real)
    requires cf.l1Maxsize >= 1 && cf.l1Ttl > 0 && v != NULL_SENTINEL
    ensures var w := Run(cf, [Event(at, SetOp(0, k, Some(v), Some(0), None, Up))]);
            Read(cf, w, 0, k, now, Up) == Some(v) && k !in w.l2
  {
    var e := Event(at, SetOp(0, k, Some(v), Some(0), None, Up));
    assert [e][..0] == [];
    assert Run(cf, [e]) == Step(cf, World(map[], map[], []), e);
  }

  // ----- Both bounds are tight -----

  lemma RunTwo(cf: Config, a: Event, b: Event)
    ensures Run(cf, [a, b]) == Step(cf, Step(cf, World(map[], map[], []), a), b)
  {
    assert [a, b][..1] == [a] && [a][..0] == [];
    assert Run(cf, [a]) == Step(cf, Run(cf, []), a);
  }

  /** Process 0 sets, process 1 copies: its L1 entry lives one fill lifetime from
      the copy. */
  lemma CopyAfterSet(cf: Config, k: string, value: Option<Value>, at: real, copied: real)
    requires cf.l1Maxsize >= 1 && cf.l2Ttl > 0 && 0.0 <= at <= copied < at + cf.l2Ttl as real
    ensures var a, b := Event(at, SetOp(0, k, value, None, None, Up)), Event(copied, GetOp(1, k, Up));
            var v, w := Encode(value), Run(cf, [a, b]);
            && w.l1s.Keys == {0, 1} && k in L1Of(w, 1).data
            && L1Of(w, 1).data[k] == Stamp(v, FillTtl(cf, v), copied)
            && w.l2 == map[k := Stored(v, at + cf.l2Ttl as real)]
            && w.log == [Put(k, at, true, v, cf.l2Ttl, L1Ttl(cf, None, None))]
  {
    var a, b := Event(at, SetOp(0, k, value, None, None, Up)), Event(copied, GetOp(1, k, Up));
    RunTwo(cf, a, b);
    var w1 := Step(cf, World(map[], map[], []), a);
    assert w1.l2 == map[k := Stored(Encode(value), at + cf.l2Ttl as real)] && w1.l1s.Keys == {0};
    assert Fetch(w1.l2, k, copied) == Some(Encode(value));
  }

  /** Process 1 copies the value d seconds before L2 drops it, and still serves
      it a whole L1 lifetime later: the age ttl + l1_ttl is approached. */
  lemma LifeIsTight(cf: Config, k: string, v: Value, at: real, d: real)
    requires cf.l1Maxsize >= 1 && cf.l1Ttl > 0 && cf.l2Ttl > 0 && v != NULL_SENTINEL && at >= 0.0
    requires 0.0 < d <= cf.l2Ttl as real
    ensures var copied := at + cf.l2Ttl as real - d;
            var es := [Event(at, SetOp(0, k, Some(v), None, None, Up)), Event(copied, GetOp(1, k, Up))];
            Read(cf, Run(cf, es), 1, k, copied + cf.l1Ttl as real, Up) == Some(v)
  {
    var copied := at + cf.l2Ttl as real - d;
    CopyAfterSet(cf, k, Some(v), at, copied);
    hide Run;
  }

  /** Process 1 copied the value just before process 0 deleted it, and still
      serves it a whole L1 lifetime after the delete. */
  lemma InvalidationIsTight(cf: Config, k: string, v: Value, at: real, gone: real)
    requires cf.l1Maxsize >= 1 && cf.l1Ttl > 0 && cf.l2Ttl > 0 && v != NULL_SENTINEL
    requires 0.0 <= at <= gone < at + cf.l2Ttl as real
    ensures var es := [Event(at, SetOp(0, k, Some(v), None, None, Up)), Event(gone, GetOp(1, k, Up)),
                       Event(gone, DeleteOp(0, k, Up))];
            && Read(cf, Run(cf, es), 1, k, gone + cf.l1Ttl as real, Up) == Some(v)
            && |Run(cf, es).log| == 2 && Run(cf, es).log[1] == Erase(k, gone, true) && k !in Run(cf, es).l2
  {
    var a, b := Event(at, SetOp(0, k, Some(v), None, None, Up)), Event(gone, GetOp(1, k, Up));
    var c := Event(gone, DeleteOp(0, k, Up));
    CopyAfterSet(cf, k, Some(v), at, gone);
    assert [a, b, c][..2] == [a, b];
    var w2 := Run(cf, [a, b]);
    assert Run(cf, [a, b, c]) == Step(cf, w2, c);
    hide Run;
    assert L1Of(Step(cf, w2, c), 1) == L1Of(w2, 1);
  }

  /** The null lifetime counts too: process 1 copied a cached None just before
      process 0 set a value, and still answers None a whole null TTL later. */
  lemma StaleNullIsTight(cf: Config, k: string, v: Value, at: real, gone: real)
    requires cf.l1Maxsize >= 1 && cf.nullTtl > 0 && cf.l1Ttl > 0 && cf.l2Ttl > 0 && v != NULL_SENTINEL
    requires 0.0 <= at <= gone < at + cf.l2Ttl as real
    ensures var es := [Event(at, SetOp(0, k, None, None, None, Up)), Event(gone, GetOp(1, k, Up)),
                       Event(gone, SetOp(0, k, Some(v), None, None, Up))];
            var w := Run(cf, es);
            && Read(cf, w, 1, k, gone + cf.nullTtl as real, Up) == None
            && |w.log| == 2 && w.log[1] == Put(k, gone, true, v, cf.l2Ttl, L1Ttl(cf, None, None))
  {
    var a, b := Event(at, SetOp(0, k, None, None, None, Up)), Event(gone, GetOp(1, k, Up));
    var c := Event(gone, SetOp(0, k, Some(v), None, None, Up));
    CopyAfterSet(cf, k, None, at, gone);
    assert [a, b, c][..2] == [a, b];
    var w2 := Run(cf, [a, b]);
    assert Run(cf, [a, b, c]) == Step(cf, w2, c);
    hide Run, Set;
    assert L1Of(Step(cf, w2, c), 1) == L1Of(w2, 1);
  }
}
