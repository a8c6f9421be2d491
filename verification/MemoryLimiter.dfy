/** The keyed in-memory limiter: one token bucket per client, created on demand
    and swept when idle.  The sweep is meant to be a memory optimisation only.
    `PurgeIsUnobservable` proves that it is, for every run, under a condition on
    the configuration; `PurgeIsObservable` shows that the condition is exact. */
module MemoryLimiter {
  import opened Options
  import opened TokenBuckets

  datatype Limits = Limits(rps: real, burst: int, interval: real)

  /** Python's `int` on a float: truncation toward zero. */
  function Trunc(x: real): int {
    if x >= 0.0 then x.Floor else -(-x).Floor
  }

  /** The nearest integer on the side of zero. */
  lemma TruncIsExact(x: real, n: int)
    ensures Trunc(x) == n <==>
            if x >= 0.0 then n as real <= x < (n + 1) as real else (n - 1) as real < x <= n as real
  {
  }

  /** A missing or zero burst size defaults to two seconds' worth. */
  function BurstSize(rps: real, burst: Option<int>): int {
    if burst.Some? && burst.value != 0 then burst.value else Trunc(rps * 2.0)
  }

  function Conf(l: Limits): Config {
    Config(l.burst, l.rps)
  }

  datatype Limiter = Limiter(buckets: map<string, Bucket>, lastCleanup: real)

  /** One `check`: the key and the three clock readings it may take, at bucket
      creation, in the sweep, and in `acquire`. */
  datatype Request = Request(key: string, created: real, swept: real, asked: real)

  datatype Outcome =
    | Allowed
    | Limited(retryAfter: int)
    | ZeroDivision      // the refusal divides by a zero refill rate
    | MissingKey        // the sweep dropped the requester's own bucket

  function WithBucket(l: Limits, buckets: map<string, Bucket>, r: Request): map<string, Bucket> {
    if r.key in buckets then buckets else buckets[r.key := Fresh(Conf(l), r.created)]
  }

  predicate SweepDue(l: Limits, s: Limiter, now: real) {
    now - s.lastCleanup >= l.interval
  }

  function Idle(l: Limits, buckets: map<string, Bucket>, now: real): set<string> {
    set k | k in buckets && buckets[k].lastRefill < now - l.interval
  }

  function Sweep(l: Limits, s: Limiter, now: real): Limiter {
    if !SweepDue(l, s, now) then s
    else Limiter(s.buckets - Idle(l, s.buckets, now), now)
  }

  /** The answer read off a bucket that has just been asked for one token. */
  function Answer(c: Config, granted: bool, b: Bucket): Outcome {
    if granted then Allowed
    else match RetryAfter(c, b)
      case Seconds(s) => Limited(Trunc(s) + 1)
      case DivisionByZero => ZeroDivision
  }

  function GetBucket(l: Limits, s: Limiter, r: Request): Limiter {
    Sweep(l, s.(buckets := WithBucket(l, s.buckets, r)), r.swept)
  }

  function Check(l: Limits, s: Limiter, r: Request): (Limiter, Outcome) {
    var g := GetBucket(l, s, r);
    if r.key !in g.buckets then (g, MissingKey)
    else
      var b := g.buckets[r.key];
      var b' := Acquire(Conf(l), b, r.asked, 1);
      (g.(buckets := g.buckets[r.key := b']), Answer(Conf(l), Grants(Conf(l), b, r.asked, 1), b'))
  }

  class MemoryRateLimiter {
    const limits: Limits
    var buckets: map<string, TokenBucket>
    var lastCleanup: real

    ghost predicate Valid()
      reads this, buckets.Values
    {
      && (forall k :: k in buckets ==> buckets[k].config == Conf(limits))
      && forall j, k :: j in buckets && k in buckets && j != k ==> buckets[j] != buckets[k]
    }

    function State(): Limiter
      reads this, buckets.Values
    {
      Limiter(map k | k in buckets :: buckets[k].State(), lastCleanup)
    }

    constructor (rps: real, burst: Option<int>, interval: int, now: real)
      ensures Valid() && limits.rps == rps && limits.interval == interval as real
      ensures limits.burst == if burst in {None, Some(0)} then Trunc(rps + rps) else burst.value
      ensures State() == Limiter(map[], now)
    {
      limits := Limits(rps, BurstSize(rps, burst), interval as real);
      buckets := map[];
      lastCleanup := now;
    }

    method MaybeCleanup(now: real)
      requires Valid()
      modifies this
      ensures Valid() && State() == Sweep(limits, old(State()), now)
      ensures buckets.Keys <= old(buckets).Keys && forall k :: k in buckets ==> buckets[k] == old(buckets)[k]
    {
      if now - lastCleanup < limits.interval {
        return;
      }
      lastCleanup := now;
      var threshold := now - limits.interval;
      var expired := set k | k in buckets && buckets[k].lastRefill < threshold;
      assert expired == Idle(limits, old(State()).buckets, now);
      var left := expired;
      while left != {}
        invariant left <= expired && buckets == old(buckets) - (expired - left)
        invariant lastCleanup == now
        decreases left
      {
        var key :| key in left;
        buckets := buckets - {key};
        left := left - {key};
      }
    }

    method CheckKey(r: Request) returns (o: Outcome)
      requires Valid()
      modifies this, buckets.Values
      ensures Valid() && (State(), o) == Check(limits, old(State()), r)
    {
      if r.key !in buckets {
        var b := new TokenBucket(Conf(limits), r.created);
        buckets := buckets[r.key := b];
      }
      assert State() == old(State()).(buckets := WithBucket(limits, old(State()).buckets, r));
      MaybeCleanup(r.swept);
      ghost var g := State();
      assert g == GetBucket(limits, old(State()), r);
      if r.key !in buckets {
        return MissingKey;
      }
      var bucket := buckets[r.key];
      var ok := bucket.TryAcquire(r.asked, 1);
      assert State() == g.(buckets := g.buckets[r.key := bucket.State()]);
      o := Answer(bucket.config, ok, bucket.State());
    }
  }

  // ----- The limiter that never purges -----

  function CheckKeeping(l: Limits, buckets: map<string, Bucket>, r: Request): (map<string, Bucket>, Outcome) {
    var m := WithBucket(l, buckets, r);
    var b' := Acquire(Conf(l), m[r.key], r.asked, 1);
    (m[r.key := b'], Answer(Conf(l), Grants(Conf(l), m[r.key], r.asked, 1), b'))
  }

  function Outcomes(l: Limits, s: Limiter, rs: seq<Request>): seq<Outcome>
    decreases |rs|
  {
    if rs == [] then [] else
    var (s', o) := Check(l, s, rs[0]);
    [o] + Outcomes(l, s', rs[1..])
  }

  function OutcomesKeeping(l: Limits, m: map<string, Bucket>, rs: seq<Request>): seq<Outcome>
    decreases |rs|
  {
    if rs == [] then [] else
    var (m', o) := CheckKeeping(l, m, rs[0]);
    [o] + OutcomesKeeping(l, m', rs[1..])
  }

  /** The requests that reach a bucket, and the answers they got. */
  function Answered(l: Limits, s: Limiter, rs: seq<Request>): (seq<Request>, seq<Outcome>)
    decreases |rs|
  {
    if rs == [] then ([], []) else
    var (s', o) := Check(l, s, rs[0]);
    var (kept, os) := Answered(l, s', rs[1..]);
    if o == MissingKey then (kept, os) else ([rs[0]] + kept, [o] + os)
  }

  /** All clock readings of a run, in order, starting no earlier than `now`. */
  ghost predicate Ordered(now: real, rs: seq<Request>)
    decreases |rs|
  {
    rs == [] ||
    (now <= rs[0].created <= rs[0].swept <= rs[0].asked && Ordered(rs[0].asked, rs[1..]))
  }

  ghost predicate WellConfigured(l: Limits) {
    l.rps >= 0.0 && l.burst >= 0 && l.interval >= 0.0
  }

  /** The requester's own bucket is dropped exactly when a sweep is due and its
      refill point (its creation, for a new key) lies before the threshold. */
  lemma OwnBucketPurged(l: Limits, s: Limiter, r: Request)
    ensures Check(l, s, r).1 == MissingKey <==>
            && SweepDue(l, s, r.swept)
            && (if r.key in s.buckets then s.buckets[r.key].lastRefill else r.created) < r.swept - l.interval
  {
  }

  /** It happens: a client that comes back more than an interval later, with no
      sweep in between, finds its own bucket gone, whatever the configuration. */
  lemma ReturningClientLosesBucket(l: Limits, t: real)
    requires WellConfigured(l) && t > l.interval
    ensures var rs := [Request("a", 0.0, 0.0, 0.0), Request("a", t, t, t)];
            Ordered(0.0, rs) && Outcomes(l, Limiter(map[], 0.0), rs)[1..] == [MissingKey]
  {
    var a, b := Request("a", 0.0, 0.0, 0.0), Request("a", t, t, t);
    var s := Check(l, Limiter(map[], 0.0), a).0;
    assert "a" in s.buckets && s.buckets["a"].lastRefill == 0.0 && s.lastCleanup == 0.0;
    OwnBucketPurged(l, s, b);
    hide Check;
    assert [a, b][1..] == [b] && [b][1..] == [];
    assert Ordered(t, []) && Ordered(0.0, [b]);
    assert Outcomes(l, s, [b]) == [MissingKey] + Outcomes(l, Check(l, s, b).0, []);
  }

  // ----- The two limiters agree -----

  ghost predicate Sane(l: Limits, b: Bucket, now: real) {
    0.0 <= b.tokens <= l.burst as real && b.lastRefill <= now
  }

  /** The sweeping limiter has lost only buckets that are full again. */
  ghost predicate Agrees(l: Limits, s: map<string, Bucket>, m: map<string, Bucket>, now: real) {
    && (forall k :: k in m ==> Sane(l, m[k], now))
    && (forall k :: k in s ==> k in m && s[k] == m[k])
    && forall k :: k in m && k !in s ==> m[k].lastRefill < now - l.interval
  }

  lemma Covers(rate: real, less: real, more: real)
    requires rate >= 0.0 && less <= more
    ensures rate * less <= more * rate
  {
  }

  lemma IdleIsFull(l: Limits, b: Bucket, now: real)
    requires WellConfigured(l) && l.burst as real <= l.rps * l.interval
    requires b.tokens >= 0.0 && b.lastRefill < now - l.interval
    ensures Level(Conf(l), b, now) == l.burst as real
  {
    var d := now - b.lastRefill;
    Covers(l.rps, l.interval, d);
    assert Gain(Conf(l), b.lastRefill, now) == d * l.rps;
    hide Gain;
  }

  lemma FreshIsFull(l: Limits, created: real, now: real)
    requires WellConfigured(l) && created <= now
    ensures Level(Conf(l), Fresh(Conf(l), created), now) == l.burst as real
  {
    GainGrows(Conf(l), created, created, now);
  }

  lemma AcquireIsSane(l: Limits, b: Bucket, now: real)
    requires WellConfigured(l) && Sane(l, b, now)
    ensures Sane(l, Acquire(Conf(l), b, now, 1), now)
  {
    GainGrows(Conf(l), b.lastRefill, b.lastRefill, now);
  }

  /** The purge itself keeps the agreement. */
  lemma SweepAgrees(l: Limits, s: Limiter, m: map<string, Bucket>, now: real, later: real)
    requires Agrees(l, s.buckets, m, now) && now <= later
    ensures Agrees(l, Sweep(l, s, later).buckets, m, later)
  {
  }

  /** A bucket is the same in both limiters, or the reference's is full again. */
  lemma RequesterAgrees(l: Limits, s: Limiter, m: map<string, Bucket>, now: real, r: Request)
    requires WellConfigured(l) && l.burst as real <= l.rps * l.interval
    requires Agrees(l, s.buckets, m, now) && now <= r.created <= r.swept <= r.asked
    requires r.key in GetBucket(l, s, r).buckets
    ensures var b, b0 := GetBucket(l, s, r).buckets[r.key], WithBucket(l, m, r)[r.key];
            Level(Conf(l), b, r.asked) == Level(Conf(l), b0, r.asked) && Sane(l, b0, r.asked)
  {
    FreshIsFull(l, r.created, r.asked);
    if r.key !in s.buckets && r.key in m {
      IdleIsFull(l, m[r.key], r.asked);
    }
    hide Level;
  }

  lemma StepAgrees(l: Limits, s: Limiter, m: map<string, Bucket>, now: real, r: Request)
    requires WellConfigured(l) && l.burst as real <= l.rps * l.interval
    requires Agrees(l, s.buckets, m, now) && now <= r.created <= r.swept <= r.asked
    ensures var (s', o) := Check(l, s, r);
            if o == MissingKey then Agrees(l, s'.buckets, m, r.asked)
            else Agrees(l, s'.buckets, CheckKeeping(l, m, r).0, r.asked) && o == CheckKeeping(l, m, r).1
  {
    hide Level, Acquire, RetryAfter;
    SweepAgrees(l, s, m, now, r.swept);
    var swept, g := Sweep(l, s, r.swept).buckets, GetBucket(l, s, r).buckets;
    assert forall k :: k in g && k != r.key ==> k in swept && g[k] == swept[k];
    assert forall k :: k in swept && k != r.key ==> k in g;
    if r.key in g {
      RequesterAgrees(l, s, m, now, r);
      var b, b0 := g[r.key], WithBucket(l, m, r)[r.key];
      Matches(l, swept, m, r, g, b, b0);
    } else {
      assert g == swept - {r.key};
    }
  }

  lemma Matches(l: Limits, swept: map<string, Bucket>, m: map<string, Bucket>, r: Request, g: map<string, Bucket>,
                b: Bucket, b0: Bucket)
    requires WellConfigured(l) && Agrees(l, swept, m, r.swept) && r.swept <= r.asked && Sane(l, b0, r.asked)
    requires Level(Conf(l), b, r.asked) == Level(Conf(l), b0, r.asked)
    requires (forall k :: k in g && k != r.key ==> k in swept && g[k] == swept[k]) && r.key in g
    requires forall k :: k in swept && k != r.key ==> k in g
    ensures Acquire(Conf(l), b, r.asked, 1) == Acquire(Conf(l), b0, r.asked, 1)
    ensures var b' := Acquire(Conf(l), b0, r.asked, 1);
            Agrees(l, g[r.key := b'], WithBucket(l, m, r)[r.key := b'], r.asked)
  {
    AcquireIsSane(l, b0, r.asked);
    hide Level;
  }

  lemma {:induction false} RunAgrees(l: Limits, s: Limiter, m: map<string, Bucket>, now: real, rs: seq<Request>)
    requires WellConfigured(l) && l.burst as real <= l.rps * l.interval
    requires Agrees(l, s.buckets, m, now) && Ordered(now, rs)
    ensures var (kept, os) := Answered(l, s, rs); OutcomesKeeping(l, m, kept) == os
    decreases |rs|
  {
    if rs != [] {
      var (s', o) := Check(l, s, rs[0]);
      StepAgrees(l, s, m, now, rs[0]);
      if o == MissingKey {
        RunAgrees(l, s', m, rs[0].asked, rs[1..]);
      } else {
        RunAgrees(l, s', CheckKeeping(l, m, rs[0]).0, rs[0].asked, rs[1..]);
        var (kept, os) := Answered(l, s', rs[1..]);
        assert ([rs[0]] + kept)[1..] == kept;
      }
    }
  }

  lemma {:induction false} NothingDropped(l: Limits, s: Limiter, rs: seq<Request>)
    requires MissingKey !in Outcomes(l, s, rs)
    ensures Answered(l, s, rs) == (rs, Outcomes(l, s, rs))
    decreases |rs|
  {
    if rs != [] {
      var (s', o) := Check(l, s, rs[0]);
      assert o == Outcomes(l, s, rs)[0];
      assert Outcomes(l, s, rs)[1..] == Outcomes(l, s', rs[1..]);
      NothingDropped(l, s', rs[1..]);
      assert [rs[0]] + rs[1..] == rs;
    }
  }

  /** For every run, the answered requests get what a limiter that never purges
      would have answered to them; and if no requester lost its own bucket, the
      two limiters answer the whole run alike. */
  lemma PurgeIsUnobservable(l: Limits, start: real, rs: seq<Request>)
    requires WellConfigured(l) && l.burst as real <= l.rps * l.interval
    requires Ordered(start, rs)
    ensures var (kept, os) := Answered(l, Limiter(map[], start), rs); OutcomesKeeping(l, map[], kept) == os
    ensures MissingKey !in Outcomes(l, Limiter(map[], start), rs) ==>
              Outcomes(l, Limiter(map[], start), rs) == OutcomesKeeping(l, map[], rs)
  {
    var s := Limiter(map[], start);
    RunAgrees(l, s, map[], start, rs);
    if MissingKey !in Outcomes(l, s, rs) {
      NothingDropped(l, s, rs);
    }
  }

  /** The default burst (two seconds' worth) meets the condition whenever the
      sweep interval is at least two seconds. */
  lemma DefaultBurstIsSafe(rps: real, interval: real)
    requires rps >= 0.0 && interval >= 2.0
    ensures BurstSize(rps, None) as real <= rps * interval
  {
    assert rps * (interval - 2.0) >= 0.0;
  }

  // ----- The condition is exact -----

  function At(key: string, t: real): Request {
    Request(key, t, t, t)
  }

  function Times(r: Request, n: nat): seq<Request> {
    seq(n, _ => r)
  }

  /** Drain "a" at time 0, let "b" trigger a sweep at `t`, then drain "a" again. */
  function DrainSweepDrain(n: nat, t: real): seq<Request> {
    Times(At("a", 0.0), n) + ([At("b", t)] + Times(At("a", t), n))
  }

  function Final(l: Limits, s: Limiter, rs: seq<Request>): Limiter
    decreases |rs|
  {
    if rs == [] then s else Final(l, Check(l, s, rs[0]).0, rs[1..])
  }

  lemma {:induction false} OutcomesConcat(l: Limits, s: Limiter, a: seq<Request>, b: seq<Request>)
    ensures Outcomes(l, s, a + b) == Outcomes(l, s, a) + Outcomes(l, Final(l, s, a), b)
    decreases |a|
  {
    if a == [] {
      assert a + b == b;
    } else {
      assert (a + b)[1..] == a[1..] + b;
      OutcomesConcat(l, Check(l, s, a[0]).0, a[1..], b);
    }
  }

  function FinalKeeping(l: Limits, m: map<string, Bucket>, rs: seq<Request>): map<string, Bucket>
    decreases |rs|
  {
    if rs == [] then m else FinalKeeping(l, CheckKeeping(l, m, rs[0]).0, rs[1..])
  }

  lemma {:induction false} KeepingConcat(l: Limits, m: map<string, Bucket>, a: seq<Request>, b: seq<Request>)
    ensures OutcomesKeeping(l, m, a + b) == OutcomesKeeping(l, m, a) + OutcomesKeeping(l, FinalKeeping(l, m, a), b)
    decreases |a|
  {
    if a == [] {
      assert a + b == b;
    } else {
      assert (a + b)[1..] == a[1..] + b;
      KeepingConcat(l, CheckKeeping(l, m, a[0]).0, a[1..], b);
    }
  }

  ghost predicate AllAllowed(os: seq<Outcome>) {
    forall i :: 0 <= i < |os| ==> os[i] == Allowed
  }

  /** "a" holds n tokens at time t (or is new), and no sweep at t purges anything. */
  ghost predicate ReadyToDrain(l: Limits, s: Limiter, t: real, n: nat) {
    && n as real <= TokensOfA(l, s)
    && ("a" in s.buckets ==> s.buckets["a"].lastRefill == t && s.buckets["a"].tokens <= l.burst as real)
    && (SweepDue(l, s, t) ==> Idle(l, s.buckets, t) == {})
  }

  function TokensOfA(l: Limits, s: Limiter): real {
    if "a" in s.buckets then s.buckets["a"].tokens else l.burst as real
  }

  lemma DrainOnce(l: Limits, s: Limiter, t: real, n: nat)
    requires WellConfigured(l) && ReadyToDrain(l, s, t, n) && n > 0
    ensures var (s', o) := Check(l, s, At("a", t));
            && o == Allowed && s'.buckets == s.buckets["a" := Bucket(TokensOfA(l, s) - 1.0, t)]
            && s'.lastCleanup in {s.lastCleanup, t} && ReadyToDrain(l, s', t, n - 1)
  {
    var r := At("a", t);
    assert Gain(Conf(l), t, t) == 0.0;
    var g := GetBucket(l, s, r);
    var m := WithBucket(l, s.buckets, r);
    assert Idle(l, s.buckets, t) == {} ==> forall k :: k in s.buckets ==> k !in Idle(l, s.buckets, t);
    assert SweepDue(l, s, t) ==> Idle(l, m, t) == {};
    assert g.buckets == m;
    assert Level(Conf(l), g.buckets["a"], t) == TokensOfA(l, s);
    hide Level;
    var s' := Check(l, s, r).0;
    assert Idle(l, s.buckets, t) == {} ==> Idle(l, s'.buckets, t) == {};
  }

  /** From a level of at least n at time t, n requests at t are all allowed and
      use up exactly n tokens. */
  lemma {:induction false} DrainSweeping(l: Limits, s: Limiter, t: real, n: nat)
    requires WellConfigured(l) && ReadyToDrain(l, s, t, n)
    ensures AllAllowed(Outcomes(l, s, Times(At("a", t), n)))
    ensures var f := Final(l, s, Times(At("a", t), n));
            && f.lastCleanup in {s.lastCleanup, t}
            && (n > 0 ==> f.buckets == s.buckets["a" := Bucket(TokensOfA(l, s) - n as real, t)])
    decreases n
  {
    if n > 0 {
      var rs := Times(At("a", t), n);
      assert rs[1..] == Times(At("a", t), n - 1);
      DrainOnce(l, s, t, n);
      var s' := Check(l, s, rs[0]).0;
      hide Check, ReadyToDrain;
      DrainSweeping(l, s', t, n - 1);
    }
  }

  /** The same drain without a sweep; it cannot hand out more than the level. */
  lemma {:induction false} DrainKeeping(l: Limits, m: map<string, Bucket>, t: real, n: nat)
    requires WellConfigured(l) && "a" in m && n > 0
    ensures var lv := Level(Conf(l), m["a"], t);
            var os := OutcomesKeeping(l, m, Times(At("a", t), n));
            var f := FinalKeeping(l, m, Times(At("a", t), n));
            && (lv >= n as real ==> "a" in f && f["a"] == Bucket(lv - n as real, t) && f.Keys == m.Keys)
            && (AllAllowed(os) ==> lv >= n as real)
    decreases n
  {
    var rs := Times(At("a", t), n);
    assert rs[1..] == Times(At("a", t), n - 1);
    var (m', o) := CheckKeeping(l, m, rs[0]);
    var os := OutcomesKeeping(l, m, rs);
    assert os[0] == o && os[1..] == OutcomesKeeping(l, m', rs[1..]);
    assert Gain(Conf(l), t, t) == 0.0;
    var lv := Level(Conf(l), m["a"], t);
    assert lv <= l.burst as real;
    hide Gain;
    assert o == Allowed ==> m' == m["a" := Bucket(lv - 1.0, t)] && lv >= 1.0;
    if n > 1 {
      DrainKeeping(l, m', t, n - 1);
    }
  }

  lemma {:induction false} OrderedTimes(key: string, now: real, t: real, n: nat, rest: seq<Request>)
    requires now <= t && Ordered(t, rest)
    ensures Ordered(now, Times(At(key, t), n) + rest)
    decreases n
  {
    var rs := Times(At(key, t), n) + rest;
    if n == 0 {
      assert rs == rest;
    } else {
      assert rs[1..] == Times(At(key, t), n - 1) + rest;
      OrderedTimes(key, t, t, n - 1, rest);
    }
  }

  /** An instant by which an idle bucket is swept but not yet full again. */
  lemma SweptTooEarly(l: Limits) returns (t: real)
    requires WellConfigured(l) && l.burst as real > l.rps * l.interval
    ensures t > l.interval && t * l.rps < l.burst as real
  {
    if l.rps == 0.0 {
      t := l.interval + 1.0;
    } else {
      var full := l.burst as real / l.rps;
      assert full * l.rps == l.burst as real;
      assert (full - l.interval) * l.rps > 0.0;
      t := (l.interval + full) / 2.0;
      assert (full - t) * l.rps > 0.0;
    }
  }

  /** The sweeping limiter forgets that "a" was drained and allows everything. */
  lemma SweepingForgets(l: Limits, t: real)
    requires WellConfigured(l) && l.burst >= 1 && t > l.interval
    ensures AllAllowed(Outcomes(l, Limiter(map[], 0.0), DrainSweepDrain(l.burst, t)))
  {
    var n: nat := l.burst;
    var first, second, rest := Times(At("a", 0.0), n), At("b", t), Times(At("a", t), n);
    var s0 := Limiter(map[], 0.0);
    DrainSweeping(l, s0, 0.0, n);
    var s1 := Final(l, s0, first);
    OutcomesConcat(l, s0, first, [second] + rest);
    var (s2, o2) := Check(l, s1, second);
    SweepDropsIdle(l, s1, t);
    DrainSweeping(l, s2, t, n);
    hide Check;
    assert ([second] + rest)[1..] == rest;
  }

  lemma SweepDropsIdle(l: Limits, s: Limiter, t: real)
    requires WellConfigured(l) && l.burst >= 1 && t > l.interval && s.lastCleanup == 0.0
    requires s.buckets.Keys == {"a"} && s.buckets["a"].lastRefill == 0.0
    ensures var (s', o) := Check(l, s, At("b", t));
            s'.buckets.Keys == {"b"} && s'.buckets["b"].lastRefill == t && s'.lastCleanup == t && o == Allowed
  {
    assert Gain(Conf(l), t, t) == 0.0;
    hide Gain;
    assert "a" != "b" by { assert "a"[0] == 'a' && "b"[0] == 'b'; }
    var m := WithBucket(l, s.buckets, At("b", t));
    assert m.Keys == {"a", "b"};
    assert Idle(l, m, t) == {"a"};
    assert (m - {"a"}).Keys == {"b"};
  }

  /** The keeping limiter remembers: "a" has refilled to less than a burst. */
  lemma KeepingRemembers(l: Limits, t: real)
    requires WellConfigured(l) && l.burst >= 1 && t * l.rps < l.burst as real
    ensures !AllAllowed(OutcomesKeeping(l, map[], DrainSweepDrain(l.burst, t)))
  {
    var n: nat := l.burst;
    var first, second, rest := Times(At("a", 0.0), n), At("b", t), Times(At("a", t), n);
    var m0 := map["a" := Fresh(Conf(l), 0.0)];
    assert Gain(Conf(l), 0.0, 0.0) == 0.0 && Gain(Conf(l), 0.0, t) < n as real;
    hide Gain;
    assert CheckKeeping(l, map[], first[0]) == CheckKeeping(l, m0, first[0]);
    assert FinalKeeping(l, map[], first) == FinalKeeping(l, m0, first);
    DrainKeeping(l, m0, 0.0, n);
    var m1 := FinalKeeping(l, m0, first);
    assert m1["a"] == Bucket(0.0, 0.0);
    var m2 := CheckKeeping(l, m1, second).0;
    DrainKeeping(l, m2, t, n);
    KeepingConcat(l, map[], first, [second] + rest);
    assert ([second] + rest)[1..] == rest;
    var os, tail := OutcomesKeeping(l, map[], DrainSweepDrain(n, t)), OutcomesKeeping(l, m2, rest);
    var i :| 0 <= i < |tail| && tail[i] != Allowed;
    assert os[|OutcomesKeeping(l, map[], first)| + 1 + i] != Allowed;
  }

  /** Above the condition there is a run, with no requester losing its own
      bucket, on which the sweep changes an answer. */
  lemma PurgeIsObservable(l: Limits) returns (rs: seq<Request>)
    requires WellConfigured(l) && l.burst as real > l.rps * l.interval
    ensures Ordered(0.0, rs) && MissingKey !in Outcomes(l, Limiter(map[], 0.0), rs)
    ensures Outcomes(l, Limiter(map[], 0.0), rs) != OutcomesKeeping(l, map[], rs)
  {
    assert l.rps * l.interval >= 0.0;
    var n: nat := l.burst;
    var t := SweptTooEarly(l);
    rs := DrainSweepDrain(n, t);
    var rest := Times(At("a", t), n);
    OrderedTimes("a", t, t, n, []);
    assert rest + [] == rest;
    assert ([At("b", t)] + rest)[1..] == rest;
    OrderedTimes("a", 0.0, 0.0, n, [At("b", t)] + rest);
    SweepingForgets(l, t);
    KeepingRemembers(l, t);
  }

  /** Runs on which no requester loses its own bucket look the same with and
      without the sweep. */
  ghost predicate PurgeHidden(l: Limits) {
    forall start: real, rs: seq<Request> ::
      Ordered(start, rs) && MissingKey !in Outcomes(l, Limiter(map[], start), rs) ==>
        Outcomes(l, Limiter(map[], start), rs) == OutcomesKeeping(l, map[], rs)
  }

  lemma PurgeHiddenExactly(l: Limits)
    requires WellConfigured(l)
    ensures PurgeHidden(l) <==> l.burst as real <= l.rps * l.interval
  {
    if l.burst as real <= l.rps * l.interval {
      forall start: real, rs: seq<Request> | Ordered(start, rs) && MissingKey !in Outcomes(l, Limiter(map[], start), rs)
        ensures Outcomes(l, Limiter(map[], start), rs) == OutcomesKeeping(l, map[], rs)
      {
        PurgeIsUnobservable(l, start, rs);
      }
    } else {
      var rs := PurgeIsObservable(l);
    }
  }

  // ----- The retry hint -----

  /** The hint of a refusal is the least whole number of seconds that is more
      than the exact wait; a client that waits that long, undisturbed, is served
      whenever the bucket can hold a token at all. */
  lemma HintIsEnough(l: Limits, b: Bucket, asked: real)
    requires l.rps > 0.0 && Answer(Conf(l), Grants(Conf(l), b, asked, 1), Acquire(Conf(l), b, asked, 1)).Limited?
    ensures var b' := Acquire(Conf(l), b, asked, 1);
            var hint := Answer(Conf(l), false, b').retryAfter;
            && !Grants(Conf(l), b, asked, 1)
            && RetryAfter(Conf(l), b').s < hint as real <= RetryAfter(Conf(l), b').s + 1.0
            && (Grants(Conf(l), b', asked + hint as real, 1) <==> l.burst >= 1)
  {
    var b' := Acquire(Conf(l), b, asked, 1);
    var hint := Answer(Conf(l), false, b').retryAfter;
    assert b'.tokens < 1.0 && b'.lastRefill == asked;
    var w := RetryAfter(Conf(l), b').s;
    assert w * l.rps == 1.0 - b'.tokens;
    assert w > 0.0;
    RetryAfterIsExact(Conf(l), b', hint as real);
    hide Grants;
  }
}
