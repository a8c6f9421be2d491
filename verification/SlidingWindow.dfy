/** The Redis sliding-window limiter.  Each check, accepted or not, records its
    timestamp in a sorted set, so a decision depends on the whole request history.
    `DecisionIsExact` and `WindowBound` state what that history must look like. */
module SlidingWindow {
  import opened Options
  import opened Sets
  import MemoryLimiter

  datatype Config = Config(limit: int, window: int, failOpen: bool)

  /** One sorted set.  The member of a score is its printed form, so equal
      timestamps are one member.  Redis drops the key at `expireAt`. */
  datatype Key = Key(scores: set<real>, expireAt: real)

  datatype Outcome = Allowed | RateLimited(retryAfter: int, limit: int) | Unavailable

  /** The hint of a refusal, from the oldest recorded score, if there is one. */
  function Hint(c: Config, oldest: Option<real>, now: real): (h: int)
    ensures h >= 1
  {
    var seconds := if oldest.Some? then MemoryLimiter.Trunc(oldest.value + c.window as real - now) + 1 else c.window;
    if seconds <= 1 then 1 else seconds
  }

  /** The hint is the least positive whole second after which the oldest recorded
      request is out of the window; with none recorded it is the window. */
  lemma HintIsExact(c: Config, oldest: real, now: real)
    requires c.window >= 1
    ensures var h := Hint(c, Some(oldest), now);
            && oldest + c.window as real < now + h as real
            && (h == 1 || now + (h - 1) as real <= oldest + c.window as real)
    ensures Hint(c, None, now) == c.window
  {
    MemoryLimiter.TruncIsExact(oldest + c.window as real - now, Hint(c, Some(oldest), now) - 1);
  }

  /** ZREMRANGEBYSCORE key 0 (now - window), then ZADD now. */
  function Record(c: Config, scores: set<real>, now: real): set<real> {
    (set s | s in scores && !(0.0 <= s <= now - c.window as real)) + {now}
  }

  function Live(k: Key, now: real): set<real> {
    if now < k.expireAt then k.scores else {}
  }

  function Touch(c: Config, k: Key, now: real): Key {
    Key(Record(c, Live(k, now), now), now + (c.window + 1) as real)
  }

  const NO_KEY := Key({}, 0.0)

  class RedisRateLimiter {
    const config: Config
    var keys: map<string, Key>

    constructor (config: Config)
      ensures this.config == config && keys == map[]
    {
      this.config := config;
      keys := map[];
    }

    function Get(key: string): Key
      reads this
    {
      if key in keys then keys[key] else NO_KEY
    }

    /** One pipeline, atomic; when Redis is down nothing is recorded.  A refusal
        then reads the oldest score: `hint` is what that second call finds, which
        other requests may have changed, or None when it fails.  That failure is
        treated like any other, so with fail_open the refused request passes. */
    method Check(key: string, now: real, redisUp: bool, hint: Option<Option<real>>) returns (o: Outcome)
      modifies this
      ensures !redisUp ==> keys == old(keys) && o == if config.failOpen then Allowed else Unavailable
      ensures redisUp ==> keys == old(keys)[key := Touch(config, old(Get(key)), now)]
      ensures redisUp ==>
                (o == Allowed <==> |Get(key).scores| <= config.limit || (hint == None && config.failOpen))
      ensures redisUp && |Get(key).scores| > config.limit ==>
                if hint.Some? then o == RateLimited(Hint(config, hint.value, now), config.limit)
                else o == if config.failOpen then Allowed else Unavailable
    {
      if !redisUp {
        return if config.failOpen then Allowed else Unavailable;
      }
      var k := Get(key);
      var start := now - config.window as real;
      var members := Live(k, now);
      members := set s | s in members && !(0.0 <= s <= start);
      members := members + {now};
      keys := keys[key := Key(members, now + (config.window + 1) as real)];
      if |members| <= config.limit {
        return Allowed;
      }
      if hint == None {
        return if config.failOpen then Allowed else Unavailable;
      }
      return RateLimited(Hint(config, hint.value, now), config.limit);
    }
  }

  // ----- Histories of one key -----

  function After(c: Config, ts: seq<real>): Key {
    if ts == [] then NO_KEY
    else Touch(c, After(c, ts[..|ts| - 1]), ts[|ts| - 1])
  }

  predicate AcceptedAt(c: Config, ts: seq<real>, i: nat)
    requires i < |ts|
  {
    |After(c, ts[..i + 1]).scores| <= c.limit
  }

  /** The same set kept in a store that never expires keys. */
  function Recorded(c: Config, ts: seq<real>): set<real> {
    if ts == [] then {}
    else Record(c, Recorded(c, ts[..|ts| - 1]), ts[|ts| - 1])
  }

  ghost predicate NonNegative(ts: seq<real>) {
    forall i :: 0 <= i < |ts| ==> ts[i] >= 0.0
  }

  ghost predicate Nondecreasing(ts: seq<real>) {
    forall i, j :: 0 <= i <= j < |ts| ==> ts[i] <= ts[j]
  }

  ghost predicate Increasing(ts: seq<real>) {
    forall i, j :: 0 <= i < j < |ts| ==> ts[i] < ts[j]
  }

  /** Request j survives every later request's trim. */
  ghost predicate Survives(c: Config, ts: seq<real>, j: nat)
    requires j < |ts|
  {
    forall k :: j < k < |ts| ==> ts[k] - c.window as real < ts[j]
  }

  /** Request k comes before the expiry that the request before it has set. */
  ghost predicate InTime(c: Config, ts: seq<real>, k: nat)
    requires 0 < k < |ts|
  {
    ts[k] < ts[k - 1] + (c.window + 1) as real
  }

  /** The key does not expire between request j and the last one. */
  ghost predicate Unexpired(c: Config, ts: seq<real>, j: nat)
    requires j < |ts|
  {
    forall k :: j < k < |ts| ==> InTime(c, ts, k)
  }

  ghost predicate Kept(c: Config, ts: seq<real>, j: nat)
    requires j < |ts|
  {
    Survives(c, ts, j) && Unexpired(c, ts, j)
  }

  lemma KeptNext(c: Config, ts: seq<real>, j: nat)
    requires j < |ts| - 1
    ensures var m := |ts| - 1;
            Kept(c, ts, j) <==> Kept(c, ts[..m], j) && ts[m] - c.window as real < ts[j] && InTime(c, ts, m)
  {
    var m := |ts| - 1;
    var prev := ts[..m];
    assert forall k :: 0 < k < m ==> (InTime(c, ts, k) <==> InTime(c, prev, k));
    assert Unexpired(c, ts, j) <==> Unexpired(c, prev, j) && InTime(c, ts, m);
    assert forall k :: 0 <= k < m ==> prev[k] == ts[k];
    if Survives(c, prev, j) && ts[m] - c.window as real < ts[j] {
      assert forall k :: j < k < m ==> ts[k] == prev[k];
    }
  }

  lemma ExpiryOf(c: Config, ts: seq<real>)
    requires ts != []
    ensures After(c, ts).expireAt == ts[|ts| - 1] + (c.window + 1) as real
  {
  }

  /** For any clock, even one that runs backwards, the stored scores are those of
      the requests that no later request has trimmed and no expiry has dropped. */
  lemma {:induction false} StoredIsKept(c: Config, ts: seq<real>, x: real)
    requires NonNegative(ts)
    ensures x in After(c, ts).scores <==> exists j :: 0 <= j < |ts| && ts[j] == x && Kept(c, ts, j)
  {
    if ts != [] {
      var m := |ts| - 1;
      var prev := ts[..m];
      StoredIsKept(c, prev, x);
      if m > 0 {
        ExpiryOf(c, prev);
      }
      assert Kept(c, ts, m);
      forall j | 0 <= j < m && ts[j] == x
        ensures Kept(c, ts, j) ==> x in After(c, ts).scores
      {
        KeptNext(c, ts, j);
        assert prev[j] == x;
      }
      if x in After(c, ts).scores && x != ts[m] {
        var j :| 0 <= j < |prev| && prev[j] == x && Kept(c, prev, j);
        KeptNext(c, ts, j);
        assert ts[j] == x && Kept(c, ts, j);
      }
    }
  }

  /** Times of the requests 0..i that are still kept when request i is counted. */
  ghost function Standing(c: Config, ts: seq<real>, i: nat): set<real>
    requires i < |ts|
  {
    set j | 0 <= j <= i && Kept(c, ts[..i + 1], j) :: ts[j]
  }

  /** The exact decision for every clock. */
  lemma DecisionAtAnyClock(c: Config, ts: seq<real>, i: nat)
    requires NonNegative(ts) && i < |ts|
    ensures AcceptedAt(c, ts, i) <==> |Standing(c, ts, i)| <= c.limit
  {
    var p := ts[..i + 1];
    forall x
      ensures x in After(c, p).scores <==> x in Standing(c, ts, i)
    {
      StoredIsKept(c, p, x);
      assert forall j :: 0 <= j <= i ==> p[j] == ts[j];
    }
    assert After(c, p).scores == Standing(c, ts, i);
  }

  /** Timestamps of requests 0..i that lie in (ts[i] - window, ts[i]]. */
  ghost function InWindow(c: Config, ts: seq<real>, i: nat): set<real>
    requires i < |ts|
  {
    set j | 0 <= j <= i && ts[j] > ts[i] - c.window as real :: ts[j]
  }

  /** On a clock that never steps back, the kept requests are those in the window:
      whatever an expiry drops, the trim would have dropped as well. */
  lemma StandingIsWindow(c: Config, ts: seq<real>, i: nat)
    requires Nondecreasing(ts) && c.window > 0 && i < |ts|
    ensures Standing(c, ts, i) == InWindow(c, ts, i)
  {
    var p := ts[..i + 1];
    forall j | 0 <= j <= i
      ensures Kept(c, p, j) <==> ts[j] > ts[i] - c.window as real
    {
      assert p[i] == ts[i] && p[j] == ts[j];
      if ts[j] > ts[i] - c.window as real {
        forall k | j < k <= i
          ensures p[k] - c.window as real < p[j] && InTime(c, p, k)
        {
          assert ts[j] <= ts[k - 1] <= ts[k] <= ts[i];
        }
      } else {
        assert i > j ==> !Survives(c, p, j);
      }
    }
  }

  /** The expiry at window + 1 is invisible on a clock that never steps back: the
      store holds what one that never expires keys would hold. */
  lemma {:induction false} ExpiryIsInvisible(c: Config, ts: seq<real>)
    requires NonNegative(ts) && Nondecreasing(ts) && c.window >= 0
    ensures After(c, ts).scores == Recorded(c, ts)
    ensures forall x :: x in Recorded(c, ts) ==> ts != [] && 0.0 <= x <= ts[|ts| - 1]
  {
    if ts != [] {
      ExpiryIsInvisible(c, ts[..|ts| - 1]);
      if |ts| > 1 {
        ExpiryOf(c, ts[..|ts| - 1]);
      }
    }
  }

  /** On one that steps back it shows: a request from the future is dropped with
      the key although no request has trimmed it. */
  lemma ExpiryShows()
    ensures var c, ts := Config(2, 10, true), [200.0, 52.0, 70.0];
            After(c, ts).scores == {70.0} && 200.0 in Recorded(c, ts)
  {
    var c, ts := Config(2, 10, true), [200.0, 52.0, 70.0];
    AfterNext(c, ts, 1);
    AfterNext(c, ts, 2);
    ExpiryOf(c, ts[..2]);
    assert ts[..3] == ts;
    assert ts[..2] == [200.0, 52.0] && [200.0, 52.0][..1] == [200.0] && [200.0][..0] == [];
    assert 200.0 in Recorded(c, [200.0]);
    assert 200.0 in Recorded(c, [200.0, 52.0]);
  }

  /** A request is accepted iff at most `limit` distinct request times, its own
      included and rejected ones too, fall in the window that ends with it. */
  lemma DecisionIsExact(c: Config, ts: seq<real>, i: nat)
    requires NonNegative(ts) && Nondecreasing(ts) && c.window > 0 && i < |ts|
    ensures AcceptedAt(c, ts, i) <==> |InWindow(c, ts, i)| <= c.limit
  {
    DecisionAtAnyClock(c, ts, i);
    StandingIsWindow(c, ts, i);
  }

  // ----- The bound over every window -----

  /** Accepted requests among the first n whose time lies in (a, a + window]. */
  ghost function Accepted(c: Config, ts: seq<real>, n: nat, a: real): set<nat>
    requires n <= |ts|
  {
    set i | 0 <= i < n && AcceptedAt(c, ts, i) && a < ts[i] <= a + c.window as real
  }

  ghost function AcceptedTimes(c: Config, ts: seq<real>, n: nat, a: real): set<real>
    requires n <= |ts|
  {
    set i | i in Accepted(c, ts, n, a) :: ts[i]
  }

  /** No window hands out more than `limit` distinct instants. */
  lemma {:induction false} InstantBound(c: Config, ts: seq<real>, n: nat, a: real)
    requires NonNegative(ts) && Nondecreasing(ts) && c.window > 0 && c.limit >= 0 && n <= |ts|
    ensures |AcceptedTimes(c, ts, n, a)| <= c.limit
    decreases n
  {
    if n > 0 {
      var m := n - 1;
      if m in Accepted(c, ts, n, a) {
        DecisionIsExact(c, ts, m);
        assert AcceptedTimes(c, ts, n, a) <= InWindow(c, ts, m);
        SubsetCard(AcceptedTimes(c, ts, n, a), InWindow(c, ts, m));
      } else {
        InstantBound(c, ts, m, a);
        assert Accepted(c, ts, n, a) == Accepted(c, ts, m, a);
        assert AcceptedTimes(c, ts, n, a) == AcceptedTimes(c, ts, m, a);
      }
    } else {
      assert Accepted(c, ts, n, a) == {};
    }
  }

  lemma {:induction false} InjectiveCard(ts: seq<real>, s: set<nat>)
    requires Increasing(ts) && forall i :: i in s ==> i < |ts|
    ensures |set i | i in s :: ts[i]| == |s|
    decreases s
  {
    if s != {} {
      var x :| x in s;
      InjectiveCard(ts, s - {x});
      var image := set i | i in s - {x} :: ts[i];
      assert (set i | i in s :: ts[i]) == image + {ts[x]};
      assert ts[x] !in image;
    }
  }

  /** With strictly increasing timestamps every half-open window of the
      configured length contains at most `limit` accepted requests. */
  lemma WindowBound(c: Config, ts: seq<real>, a: real)
    requires NonNegative(ts) && Increasing(ts) && c.window > 0 && c.limit >= 0
    ensures |Accepted(c, ts, |ts|, a)| <= c.limit
  {
    InstantBound(c, ts, |ts|, a);
    InjectiveCard(ts, Accepted(c, ts, |ts|, a));
  }

  /** The window bound, for every configuration and every window. */
  ghost predicate Bounded(ts: seq<real>) {
    forall c: Config, a: real :: c.window > 0 && c.limit >= 0 ==> WithinLimit(c, ts, a)
  }

  ghost predicate WithinLimit(c: Config, ts: seq<real>, a: real) {
    |Accepted(c, ts, |ts|, a)| <= c.limit
  }

  ghost function Instants(ts: seq<real>): set<real> {
    set j | 0 <= j < |ts| :: ts[j]
  }

  lemma {:induction false} ImageCard(ts: seq<real>, s: set<nat>)
    requires forall i :: i in s ==> i < |ts|
    ensures |set i | i in s :: ts[i]| <= |s|
    decreases s
  {
    if s != {} {
      var x :| x in s;
      ImageCard(ts, s - {x});
      assert (set i | i in s :: ts[i]) == (set i | i in s - {x} :: ts[i]) + {ts[x]};
    }
  }

  lemma TiesShrink(ts: seq<real>, i: nat, j: nat)
    requires i < j < |ts| && ts[i] == ts[j]
    ensures |Instants(ts)| < |ts|
  {
    var others: set<nat> := Range(0, |ts|) - {j};
    ImageCard(ts, others);
    assert i in others;
    assert Instants(ts) == set k | k in others :: ts[k];
  }

  /** A limit equal to the number of distinct times accepts every request. */
  lemma EverythingIsAccepted(c: Config, ts: seq<real>)
    requires NonNegative(ts) && Nondecreasing(ts) && ts != []
    requires c.limit == |Instants(ts)| && c.window == ts[|ts| - 1].Floor + 2
    ensures |Accepted(c, ts, |ts|, -1.0)| == |ts|
  {
    var all: set<nat> := Range(0, |ts|);
    forall i | 0 <= i < |ts|
      ensures i in Accepted(c, ts, |ts|, -1.0)
    {
      DecisionIsExact(c, ts, i);
      assert InWindow(c, ts, i) <= Instants(ts);
      SubsetCard(InWindow(c, ts, i), Instants(ts));
    }
    assert Accepted(c, ts, |ts|, -1.0) == all;
  }

  /** On a clock that never steps back, the window bound holds for every
      configuration if and only if no timestamp repeats. */
  lemma BoundedExactly(ts: seq<real>)
    requires NonNegative(ts) && Nondecreasing(ts)
    ensures Bounded(ts) <==> Increasing(ts)
  {
    if Increasing(ts) {
      forall c: Config, a: real | c.window > 0 && c.limit >= 0
        ensures WithinLimit(c, ts, a)
      {
        WindowBound(c, ts, a);
      }
    } else {
      var c := Config(|Instants(ts)|, ts[|ts| - 1].Floor + 2, true);
      EverythingIsAccepted(c, ts);
      var i, j :| 0 <= i < j < |ts| && ts[i] >= ts[j];
      TiesShrink(ts, i, j);
      assert !WithinLimit(c, ts, -1.0);
    }
  }

  /** Requests made at time x. */
  ghost function At(ts: seq<real>, x: real): set<nat> {
    set i | 0 <= i < |ts| && ts[i] == x
  }

  lemma {:induction false} FibreCard(ts: seq<real>, s: set<nat>, r: nat)
    requires (forall i :: i in s ==> i < |ts|) && forall x :: |At(ts, x)| <= r
    ensures |s| <= |set i | i in s :: ts[i]| * r
    decreases s
  {
    if s != {} {
      var k :| k in s;
      var x := ts[k];
      var fibre := set i | i in s && ts[i] == x;
      var rest := s - fibre;
      var image := set i | i in rest :: ts[i];
      FibreCard(ts, rest, r);
      assert fibre <= At(ts, x);
      SubsetCard(fibre, At(ts, x));
      assert |s| == |rest| + |fibre|;
      ImageWithout(ts, s, k);
      hide At;
      assert (|image| + 1) * r == |image| * r + r;
    }
  }

  /** Taking one fibre away takes its value away. */
  lemma ImageWithout(ts: seq<real>, s: set<nat>, k: nat)
    requires k in s && forall i :: i in s ==> i < |ts|
    ensures var rest := s - set i | i in s && ts[i] == ts[k];
            |set i | i in s :: ts[i]| == |set i | i in rest :: ts[i]| + 1
  {
    var rest := s - set i | i in s && ts[i] == ts[k];
    var image := set i | i in rest :: ts[i];
    assert (set i | i in s :: ts[i]) == image + {ts[k]} && ts[k] !in image;
  }

  /** How far ties break the bound: if no timestamp occurs more than r times,
      every window accepts at most limit * r requests. */
  lemma TieBound(c: Config, ts: seq<real>, a: real, r: nat)
    requires NonNegative(ts) && Nondecreasing(ts) && c.window > 0 && c.limit >= 0
    requires forall x :: |At(ts, x)| <= r
    ensures |Accepted(c, ts, |ts|, a)| <= c.limit * r
  {
    InstantBound(c, ts, |ts|, a);
    FibreCard(ts, Accepted(c, ts, |ts|, a), r);
    ProductGrows(|AcceptedTimes(c, ts, |ts|, a)|, c.limit, r);
  }

  lemma ProductGrows(x: int, y: int, r: nat)
    requires x <= y
    ensures x * r <= y * r
  {
  }

  /** Accepted requests whose time lies in the closed window [a, a + window]. */
  ghost function AcceptedClosed(c: Config, ts: seq<real>, a: real): set<nat> {
    set i | 0 <= i < |ts| && AcceptedAt(c, ts, i) && a <= ts[i] <= a + c.window as real
  }

  /** A closed window can hold one more, at its left end ... */
  lemma ClosedWindowBound(c: Config, ts: seq<real>, a: real)
    requires NonNegative(ts) && Increasing(ts) && c.window > 0 && c.limit >= 0
    ensures |AcceptedClosed(c, ts, a)| <= c.limit + 1
  {
    hide AcceptedAt;
    WindowBound(c, ts, a);
    var open, closed := Accepted(c, ts, |ts|, a), AcceptedClosed(c, ts, a);
    assert open <= closed;
    if closed != open {
      var i :| i in closed && i !in open;
      assert ts[i] == a;
      assert closed == open + {i};
    }
  }

  /** ... and does: the trim drops the request exactly one window old. */
  lemma ClosedWindowIsTight()
    ensures var c, ts := Config(1, 10, true), [50.0, 60.0];
            NonNegative(ts) && Increasing(ts) && |AcceptedClosed(c, ts, 50.0)| == c.limit + 1
  {
    var c, ts := Config(1, 10, true), [50.0, 60.0];
    AfterNext(c, ts, 0);
    AfterNext(c, ts, 1);
    hide After;
    assert After(c, ts[..1]) == Key({50.0}, 61.0);
    assert After(c, ts[..2]) == Key({60.0}, 71.0);
    hide Touch;
    assert AcceptedClosed(c, ts, 50.0) == {0, 1};
  }

  /** Equal timestamps share one member, so two simultaneous requests both pass
      a limit of one: the bound needs the strictness. */
  lemma TiesBreakTheBound()
    ensures var c, ts := Config(1, 60, true), [100.0, 100.0];
            Nondecreasing(ts) && |Accepted(c, ts, 2, 50.0)| == 2
  {
    var c, ts := Config(1, 60, true), [100.0, 100.0];
    assert ts[..1] == [100.0] && ts[..2] == ts && ts[..0] == [];
    assert After(c, ts[..1]).scores == {100.0};
    assert After(c, ts).scores == {100.0} by {
      assert After(c, ts) == Touch(c, After(c, ts[..1]), 100.0);
    }
    assert Accepted(c, ts, 2, 50.0) == {0, 1};
  }

  /** So does a clock that steps back: a request from the future trims the set,
      and three accepted requests fit one window under a limit of two. */
  lemma BackwardClockBreaksTheBound()
    ensures var c, ts := Config(2, 10, true), [50.0, 51.0, 200.0, 52.0];
            |Accepted(c, ts, 4, 42.0)| == 3
  {
    var c, ts := Config(2, 10, true), [50.0, 51.0, 200.0, 52.0];
    BackwardAccepts(c, ts);
    ThreeOfFour(c, ts);
  }

  lemma ThreeOfFour(c: Config, ts: seq<real>)
    requires c.window == 10 && |ts| == 4 && ts[0] == 50.0 && ts[1] == 51.0 && ts[2] == 200.0 && ts[3] == 52.0
    requires AcceptedAt(c, ts, 0) && AcceptedAt(c, ts, 1) && AcceptedAt(c, ts, 3)
    ensures |Accepted(c, ts, 4, 42.0)| == 3
  {
    hide AcceptedAt;
    assert Accepted(c, ts, 4, 42.0) == {0, 1, 3};
  }

  lemma BackwardAccepts(c: Config, ts: seq<real>)
    requires c == Config(2, 10, true) && ts == [50.0, 51.0, 200.0, 52.0]
    ensures AcceptedAt(c, ts, 0) && AcceptedAt(c, ts, 1) && AcceptedAt(c, ts, 2) && AcceptedAt(c, ts, 3)
  {
    BackwardStates(c, ts);
    hide After;
  }

  lemma BackwardStates(c: Config, ts: seq<real>)
    requires c == Config(2, 10, true) && ts == [50.0, 51.0, 200.0, 52.0]
    ensures After(c, ts[..1]).scores == {50.0} && After(c, ts[..2]).scores == {50.0, 51.0}
    ensures After(c, ts[..3]).scores == {200.0} && After(c, ts[..4]).scores == {200.0, 52.0}
  {
    hide After;
    AfterNext(c, ts, 0);
    assert After(c, ts[..1]) == Key({50.0}, 61.0);
    AfterNext(c, ts, 1);
    TouchIs(c, {50.0}, 61.0, 51.0, {50.0, 51.0});
    AfterNext(c, ts, 2);
    TouchIs(c, {50.0, 51.0}, 62.0, 200.0, {200.0});
    AfterNext(c, ts, 3);
    TouchIs(c, {200.0}, 211.0, 52.0, {200.0, 52.0});
  }

  lemma TouchIs(c: Config, scores: set<real>, expireAt: real, now: real, after: set<real>)
    requires now in after
    requires forall x :: x in after && x != now ==>
               now < expireAt && x in scores && !(0.0 <= x <= now - c.window as real)
    requires forall x :: x in scores && now < expireAt ==> x in after || 0.0 <= x <= now - c.window as real
    ensures Touch(c, Key(scores, expireAt), now) == Key(after, now + (c.window + 1) as real)
  {
  }

  lemma AfterNext(c: Config, ts: seq<real>, i: nat)
    requires i < |ts|
    ensures After(c, ts[..i + 1]) == Touch(c, After(c, ts[..i]), ts[i])
    ensures After(c, ts[..0]) == NO_KEY
  {
    assert ts[..i + 1][..i] == ts[..i];
  }

  /** Under sustained pressure nobody is served: rejected requests count, so a
      request is refused whenever `limit` earlier instants lie in its window. */
  lemma RejectionsCount(c: Config, ts: seq<real>, i: nat, lo: nat)
    requires NonNegative(ts) && Increasing(ts) && c.window > 0 && c.limit >= 0
    requires lo <= i < |ts| && i - lo >= c.limit && ts[lo] > ts[i] - c.window as real
    ensures !AcceptedAt(c, ts, i)
  {
    DecisionIsExact(c, ts, i);
    var recent: set<nat> := Range(lo, i + 1);
    InjectiveCard(ts, recent);
    SubsetCard(set j | j in recent :: ts[j], InWindow(c, ts, i));
  }
}
