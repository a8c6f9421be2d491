/** The token bucket of the in-memory rate limiter.

    The code keeps two numbers and refills lazily.  What it is for is a property
    of the whole call history: over every window that starts at some call, the
    tokens handed out never exceed a full bucket plus what the window refills.
    `AcquireIsExact` shows that the two-number state decides precisely that. */
module TokenBuckets {

  datatype Config = Config(capacity: int, rate: real)

  datatype Bucket = Bucket(tokens: real, lastRefill: real)

  datatype Call = Call(at: real, want: int)

  function Min(a: real, b: real): real {
    if a <= b then a else b
  }

  function Fresh(c: Config, now: real): Bucket {
    Bucket(c.capacity as real, now)
  }

  /** Tokens refilled between two clock readings. */
  function Gain(c: Config, since: real, now: real): real {
    (now - since) * c.rate
  }

  lemma GainAdds(c: Config, x: real, y: real, z: real)
    ensures Gain(c, x, y) + Gain(c, y, z) == Gain(c, x, z)
  {
  }

  lemma GainGrows(c: Config, x: real, y: real, z: real)
    requires c.rate >= 0.0 && y <= z
    ensures Gain(c, x, y) <= Gain(c, x, z)
    ensures x <= y ==> 0.0 <= Gain(c, y, z) <= Gain(c, x, z)
  {
  }

  /** Tokens visible at `now`, after the lazy refill. */
  function Level(c: Config, b: Bucket, now: real): real {
    Min(c.capacity as real, b.tokens + Gain(c, b.lastRefill, now))
  }

  predicate Grants(c: Config, b: Bucket, now: real, want: int) {
    Level(c, b, now) >= want as real
  }

  /** State after one `acquire`; a refused call still moves the refill point. */
  function Acquire(c: Config, b: Bucket, now: real, want: int): Bucket {
    var spent := if Grants(c, b, now, want) then want as real else 0.0;
    Bucket(Level(c, b, now) - spent, now)
  }

  /** Seconds until one token is available; no value when the division fails. */
  datatype Wait = Seconds(s: real) | DivisionByZero

  function RetryAfter(c: Config, b: Bucket): Wait {
    if b.tokens >= 1.0 then Seconds(0.0)
    else if c.rate == 0.0 then DivisionByZero
    else Seconds((1.0 - b.tokens) / c.rate)
  }

  class TokenBucket {
    const config: Config
    var tokens: real
    var lastRefill: real

    function State(): Bucket
      reads this
    {
      Bucket(tokens, lastRefill)
    }

    constructor (config: Config, now: real)
      ensures this.config == config
      ensures State() == Fresh(config, now)
    {
      this.config := config;
      tokens := config.capacity as real;
      lastRefill := now;
    }

    method TryAcquire(now: real, want: int) returns (ok: bool)
      modifies this
      ensures ok == Grants(config, old(State()), now, want)
      ensures State() == Acquire(config, old(State()), now, want)
    {
      var elapsed := now - lastRefill;
      tokens := Min(config.capacity as real, tokens + elapsed * config.rate);
      lastRefill := now;
      assert tokens == Level(config, old(State()), now);
      hide Gain;
      if tokens >= want as real {
        tokens := tokens - want as real;
        return true;
      }
      return false;
    }
  }

  // ----- Whole histories -----

  /** State of a bucket created at `born` after all of `calls`. */
  function After(c: Config, born: real, calls: seq<Call>): Bucket {
    if calls == [] then Fresh(c, born)
    else
      var last := calls[|calls| - 1];
      Acquire(c, After(c, born, calls[..|calls| - 1]), last.at, last.want)
  }

  predicate GrantedAt(c: Config, born: real, calls: seq<Call>, j: nat)
    requires j < |calls|
  {
    Grants(c, After(c, born, calls[..j]), calls[j].at, calls[j].want)
  }

  /** Tokens handed out by the calls numbered `lo` up to but excluding `hi`. */
  function Spent(c: Config, born: real, calls: seq<Call>, lo: nat, hi: nat): int
    requires lo <= hi <= |calls|
    decreases hi
  {
    if lo == hi then 0
    else
      Spent(c, born, calls, lo, hi - 1)
      + if GrantedAt(c, born, calls, hi - 1) then calls[hi - 1].want else 0
  }

  lemma {:induction false} SpentPrefix(c: Config, born: real, calls: seq<Call>, n: nat, lo: nat, hi: nat)
    requires lo <= hi <= n <= |calls|
    ensures Spent(c, born, calls[..n], lo, hi) == Spent(c, born, calls, lo, hi)
    decreases hi
  {
    if lo < hi {
      SpentPrefix(c, born, calls, n, lo, hi - 1);
      assert calls[..n][..hi - 1] == calls[..hi - 1];
    }
  }

  /** `x` more tokens would fit every window of the history that ends at `now`. */
  ghost predicate Fits(c: Config, born: real, calls: seq<Call>, now: real, x: real) {
    && x <= c.capacity as real
    && x + Spent(c, born, calls, 0, |calls|) as real <= c.capacity as real + Gain(c, born, now)
    && forall k :: 0 <= k < |calls| ==> FitsFrom(c, born, calls, now, x, k)
  }

  ghost predicate FitsFrom(c: Config, born: real, calls: seq<Call>, now: real, x: real, k: nat)
    requires k < |calls|
  {
    x + Spent(c, born, calls, k, |calls|) as real <= c.capacity as real + Gain(c, calls[k].at, now)
  }

  /** The incremental level is the tightest of all window allowances.  No
      assumption on the clock, the rate or the request sizes is needed. */
  lemma {:induction false} LevelIsTightestWindow(c: Config, born: real, calls: seq<Call>, now: real, x: real)
    ensures x <= Level(c, After(c, born, calls), now) <==> Fits(c, born, calls, now, x)
    decreases |calls|
  {
    hide Gain;
    if calls != [] {
      var m := |calls| - 1;
      var prev, last := calls[..m], calls[m];
      var given := if GrantedAt(c, born, calls, m) then last.want else 0;
      var shifted := x + given as real - Gain(c, last.at, now);
      LevelIsTightestWindow(c, born, prev, last.at, shifted);
      assert x <= After(c, born, calls).tokens + Gain(c, last.at, now)
        <==> shifted <= Level(c, After(c, born, prev), last.at);
      SpentPrefix(c, born, calls, m, 0, m);
      GainAdds(c, born, last.at, now);
      forall k | 0 <= k < m
        ensures FitsFrom(c, born, prev, last.at, shifted, k) <==> FitsFrom(c, born, calls, now, x, k)
      {
        SpentPrefix(c, born, calls, m, k, m);
        GainAdds(c, calls[k].at, last.at, now);
        assert Spent(c, born, calls, k, |calls|) == Spent(c, born, calls, k, m) + given;
      }
      assert Spent(c, born, calls, m, |calls|) == given by {
        assert Spent(c, born, calls, m, m) == 0;
      }
      assert FitsFrom(c, born, calls, now, x, m) <==> shifted <= c.capacity as real;
    }
  }

  ghost predicate Monotone(born: real, calls: seq<Call>) {
    && (forall i :: 0 <= i < |calls| ==> born <= calls[i].at)
    && forall i, j :: 0 <= i <= j < |calls| ==> calls[i].at <= calls[j].at
  }

  /** Room for call n in the window that starts at call k. */
  ghost predicate RoomFrom(c: Config, born: real, calls: seq<Call>, k: nat, n: nat)
    requires k <= n < |calls|
  {
    (Spent(c, born, calls, k, n) + calls[n].want) as real
    <= c.capacity as real + Gain(c, calls[k].at, calls[n].at)
  }

  /** Room for call n in every window that starts before it, the bucket's birth
      included. */
  ghost predicate RoomInEarlierWindows(c: Config, born: real, calls: seq<Call>, n: nat)
    requires n < |calls|
  {
    && (Spent(c, born, calls, 0, n) + calls[n].want) as real <= c.capacity as real + Gain(c, born, calls[n].at)
    && forall k :: 0 <= k < n ==> RoomFrom(c, born, calls, k, n)
  }

  /** With a monotone clock, call n is granted exactly when every window that
      starts at a call (its own instant included) still has room for it. */
  lemma AcquireIsExact(c: Config, born: real, calls: seq<Call>, n: nat)
    requires c.rate >= 0.0 && n < |calls| && Monotone(born, calls)
    ensures GrantedAt(c, born, calls, n) <==> forall k :: 0 <= k <= n ==> RoomFrom(c, born, calls, k, n)
  {
    var prev, now, x := calls[..n], calls[n].at, calls[n].want as real;
    LevelIsTightestWindow(c, born, prev, now, x);
    assert Gain(c, now, now) == 0.0;
    GainGrows(c, born, calls[0].at, now);
    assert GrantedAt(c, born, calls, n) <==> Fits(c, born, prev, now, x);
    hide Gain, GrantedAt;
    assert RoomFrom(c, born, calls, n, n) <==> x <= c.capacity as real;
    SpentPrefix(c, born, calls, n, 0, n);
    forall k | 0 <= k < n
      ensures FitsFrom(c, born, prev, now, x, k) <==> RoomFrom(c, born, calls, k, n)
    {
      SpentPrefix(c, born, calls, n, k, n);
    }
    // The window from the bucket's birth never binds: RoomFrom(0) implies it.
    assert RoomFrom(c, born, calls, 0, n) ==>
      x + Spent(c, born, prev, 0, n) as real <= c.capacity as real + Gain(c, born, now);
  }

  /** What the limiter promises its clients: no window from call i to call j,
      both included, hands out more than a full bucket plus the refill. */
  lemma {:induction false} WindowBound(c: Config, born: real, calls: seq<Call>, i: nat, j: nat)
    requires c.capacity >= 0 && c.rate >= 0.0 && i <= j < |calls| && Monotone(born, calls)
    ensures Spent(c, born, calls, i, j + 1) as real
            <= c.capacity as real + Gain(c, calls[i].at, calls[j].at)
    decreases j
  {
    GainGrows(c, calls[i].at, calls[i].at, calls[j].at);
    hide Gain;
    if GrantedAt(c, born, calls, j) {
      AcquireIsExact(c, born, calls, j);
      assert RoomFrom(c, born, calls, i, j);
    } else if i < j {
      WindowBound(c, born, calls, i, j - 1);
      GainGrows(c, calls[i].at, calls[j - 1].at, calls[j].at);
    } else {
      assert Spent(c, born, calls, i, j) == 0;
    }
  }

  ghost predicate NonNegative(calls: seq<Call>) {
    forall i :: 0 <= i < |calls| ==> calls[i].want >= 0
  }

  /** The stored level stays inside the bucket. */
  lemma {:induction false} LevelInBucket(c: Config, born: real, calls: seq<Call>)
    requires c.capacity >= 0 && c.rate >= 0.0 && Monotone(born, calls) && NonNegative(calls)
    ensures 0.0 <= After(c, born, calls).tokens <= c.capacity as real
    ensures After(c, born, calls).lastRefill == if calls == [] then born else calls[|calls| - 1].at
    decreases |calls|
  {
    hide Gain;
    if calls != [] {
      var m := |calls| - 1;
      LevelInBucket(c, born, calls[..m]);
      var b := After(c, born, calls[..m]);
      GainGrows(c, b.lastRefill, b.lastRefill, calls[m].at);
    }
  }

  /** The wait reported on refusal is exact: with no other call in between, a
      single token is granted after `d` more seconds iff `d` reaches the hint,
      and never at all when the bucket holds less than one token. */
  lemma RetryAfterIsExact(c: Config, b: Bucket, d: real)
    requires c.rate > 0.0 && d >= 0.0
    ensures Grants(c, b, b.lastRefill + d, 1) <==>
            c.capacity >= 1 && RetryAfter(c, b).Seconds? && d >= RetryAfter(c, b).s
  {
    GainAfter(c, b.lastRefill, d);
    hide Gain;
    if b.tokens < 1.0 {
      QuotientIsExact(1.0 - b.tokens, c.rate, d);
    } else {
      ScaleKeepsOrder(0.0, d, c.rate);
    }
  }

  lemma GainAfter(c: Config, since: real, d: real)
    ensures Gain(c, since, since + d) == d * c.rate
  {
    assert since + d - since == d;
  }

  lemma ScaleKeepsOrder(x: real, y: real, r: real)
    requires r > 0.0
    ensures x * r <= y * r <==> x <= y
  {
    if x <= y {
      ProductIsPositive(y - x, r);
      assert (y - x) * r == y * r - x * r;
    } else {
      ProductIsPositive(x - y, r);
      assert (x - y) * r == x * r - y * r;
    }
  }

  lemma ProductIsPositive(x: real, r: real)
    requires x >= 0.0 && r > 0.0
    ensures x * r >= 0.0 && (x > 0.0 ==> x * r > 0.0)
  {
  }

  lemma QuotientIsExact(x: real, r: real, d: real)
    requires r > 0.0
    ensures x <= d * r <==> x / r <= d
  {
    assert x / r * r == x;
    ScaleKeepsOrder(x / r, d, r);
  }

  /** A request larger than the bucket is refused whatever the history, even as
      the very first call on a full bucket. */
  lemma OversizedIsRefused()
    ensures !GrantedAt(Config(5, 1.0), 0.0, [Call(100.0, 6)], 0)
    ensures RoomInEarlierWindows(Config(5, 1.0), 0.0, [Call(100.0, 6)], 0)
  {
    assert [Call(100.0, 6)][..0] == [];
  }
}
