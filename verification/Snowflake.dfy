/** The Snowflake id generator: a bit-packed (timestamp, datacenter, worker,
    sequence), one lock-protected state, and a wall clock that may stand still or
    step back.  The clock is an arbitrary list of readings per call. */
module Snowflake {

  // ----- Python's integer operators, on unbounded two's complement -----

  function Pow2(k: nat): (p: int)
    ensures p >= 1
  {
    if k == 0 then 1 else 2 * Pow2(k - 1)
  }

  function Shl(x: int, k: nat): int {
    x * Pow2(k)
  }

  function Or(x: int, y: int): int
    decreases if x < 0 then -x else x
  {
    if x == 0 then y
    else if x == -1 then -1
    else 2 * Or(x / 2, y / 2) + if x % 2 == 1 || y % 2 == 1 then 1 else 0
  }

  function And(x: int, y: int): int
    decreases if x < 0 then -x else x
  {
    if x == 0 then 0
    else if x == -1 then y
    else 2 * And(x / 2, y / 2) + if x % 2 == 1 && y % 2 == 1 then 1 else 0
  }

  lemma {:induction false} OrZero(x: int)
    ensures Or(x, 0) == x
    decreases if x < 0 then -x else x
  {
    if x != 0 && x != -1 {
      OrZero(x / 2);
    }
  }

  /** Filling the zero bits below position k is addition. */
  lemma {:induction false} OrFills(q: int, k: nat, y: int)
    requires 0 <= y < Pow2(k)
    ensures Or(Shl(q, k), y) == Shl(q, k) + y
    decreases k
  {
    var x := Shl(q, k);
    if k == 0 {
      OrZero(x);
    } else {
      assert x == 2 * Shl(q, k - 1);
      OrFills(q, k - 1, y / 2);
    }
  }

  lemma ModDouble(x: int, p: int)
    requires p > 0
    ensures x % (2 * p) == 2 * (x / 2 % p) + x % 2
  {
    var q, r := x / 2 / p, x / 2 % p;
    assert x == (2 * p) * q + (2 * r + x % 2);
    DivModUnique(x, 2 * p, q, 2 * r + x % 2);
  }

  lemma DivModUnique(x: int, d: int, q: int, r: int)
    requires d > 0 && x == d * q + r && 0 <= r < d
    ensures x / d == q && x % d == r
  {
    var k := q - x / d;
    assert d * k == d * q - d * (x / d);
    assert d * k == x % d - r;
    assert d * -k == -(d * k);
    if k >= 1 {
      AtLeastOnce(d, k);
    } else if k <= -1 {
      AtLeastOnce(d, -k);
    }
  }

  lemma AtLeastOnce(d: int, k: int)
    requires d > 0 && k >= 1
    ensures d * k >= d
  {
    assert d * (k - 1) >= 0;
  }

  lemma AndOddMask(x: nat, p: int)
    requires x > 0 && p > 0
    ensures And(x, 2 * p - 1) == 2 * And(x / 2, p - 1) + x % 2
  {
    assert (2 * p - 1) / 2 == p - 1 && (2 * p - 1) % 2 == 1;
  }

  lemma {:induction false} AndMasks(x: nat, k: nat)
    ensures And(x, Pow2(k) - 1) == x % Pow2(k)
    decreases k
  {
    if k == 0 {
      AndZero(x);
    } else {
      var p := Pow2(k - 1);
      AndMasks(x / 2, k - 1);
      assert p > 0 && Pow2(k) == 2 * p;
      hide Pow2, And;
      AndMaskStep(x, p);
    }
  }

  lemma AndMaskStep(x: nat, p: int)
    requires p > 0 && And(x / 2, p - 1) == x / 2 % p
    ensures And(x, 2 * p - 1) == x % (2 * p)
  {
    ModDouble(x, p);
    if x > 0 {
      AndOddMask(x, p);
    } else {
      assert And(0, 2 * p - 1) == 0 && And(0, p - 1) == 0;
    }
    hide And;
  }

  lemma {:induction false} AndZero(x: nat)
    ensures And(x, 0) == 0
  {
    if x > 0 {
      AndZero(x / 2);
    }
  }

  // ----- The generator -----

  const EPOCH := 1704067200000
  const WORKER_ID_BITS: nat := 5
  const DATACENTER_ID_BITS: nat := 5
  const SEQUENCE_BITS: nat := 12
  const MAX_WORKER_ID := Shl(1, WORKER_ID_BITS) - 1
  const MAX_DATACENTER_ID := Shl(1, DATACENTER_ID_BITS) - 1
  const MAX_SEQUENCE := Shl(1, SEQUENCE_BITS) - 1
  const WORKER_ID_SHIFT: nat := SEQUENCE_BITS
  const DATACENTER_ID_SHIFT: nat := SEQUENCE_BITS + WORKER_ID_BITS
  const TIMESTAMP_SHIFT: nat := SEQUENCE_BITS + WORKER_ID_BITS + DATACENTER_ID_BITS

  datatype Fields = Fields(timestamp: int, datacenter: int, worker: int, sequence: int)

  predicate ValidIds(worker: int, datacenter: int) {
    0 <= worker <= MAX_WORKER_ID && 0 <= datacenter <= MAX_DATACENTER_ID
  }

  predicate InRange(f: Fields) {
    ValidIds(f.worker, f.datacenter) && 0 <= f.sequence <= MAX_SEQUENCE
  }

  function Pack(f: Fields): int {
    Or(Or(Or(Shl(f.timestamp - EPOCH, TIMESTAMP_SHIFT),
             Shl(f.datacenter, DATACENTER_ID_SHIFT)),
          Shl(f.worker, WORKER_ID_SHIFT)),
       f.sequence)
  }

  function Unpack(id: int): Fields {
    Fields(id / Pow2(TIMESTAMP_SHIFT) + EPOCH,
           id / Pow2(DATACENTER_ID_SHIFT) % Pow2(DATACENTER_ID_BITS),
           id / Pow2(WORKER_ID_SHIFT) % Pow2(WORKER_ID_BITS),
           id % Pow2(SEQUENCE_BITS))
  }

  datatype Outcome = Id(id: int) | ClockMovedBackwards | StillWaiting

  /** The generator's state: the fields of the last id issued. */
  datatype Next = Next(state: Fields, outcome: Outcome)

  /** First reading after position i that is later than `last`; none means that
      the busy wait is still spinning. */
  function WaitNextMillis(clock: seq<int>, i: nat, last: int): int
    requires i <= |clock|
    decreases |clock| - i
  {
    if i == |clock| then last
    else if clock[i] > last then clock[i]
    else WaitNextMillis(clock, i + 1, last)
  }

  function Generate(g: Fields, clock: seq<int>): Next
    requires clock != []
  {
    var t := clock[0];
    if t < g.timestamp then Next(g, ClockMovedBackwards)
    else if t > g.timestamp then Issue(g.(timestamp := t, sequence := 0))
    else
      var s := And(g.sequence + 1, MAX_SEQUENCE);
      if s != 0 then Issue(g.(sequence := s))
      else
        var w := WaitNextMillis(clock, 1, g.timestamp);
        if w == g.timestamp then Next(g.(sequence := 0), StillWaiting)
        else Issue(g.(timestamp := w, sequence := 0))
  }

  function Issue(g: Fields): Next {
    Next(g, Id(Pack(g)))
  }

  class SnowflakeGenerator {
    const workerId: int
    const datacenterId: int
    var sequence: int
    var lastTimestamp: int

    ghost predicate Valid()
      reads this
    {
      ValidIds(workerId, datacenterId) && 0 <= sequence <= MAX_SEQUENCE
    }

    function State(): Fields
      reads this
    {
      Fields(lastTimestamp, datacenterId, workerId, sequence)
    }

    constructor (worker: int, datacenter: int)
      requires ValidIds(worker, datacenter)
      ensures Valid() && State() == Fields(-1, datacenter, worker, 0)
    {
      workerId, datacenterId := worker, datacenter;
      sequence, lastTimestamp := 0, -1;
    }

    static method Create(worker: int, datacenter: int) returns (g: SnowflakeGenerator?)
      ensures g == null <==> !ValidIds(worker, datacenter)
      ensures g != null ==> fresh(g) && g.Valid() && g.State() == Fields(-1, datacenter, worker, 0)
    {
      if worker > MAX_WORKER_ID || worker < 0 {
        return null;
      }
      if datacenter > MAX_DATACENTER_ID || datacenter < 0 {
        return null;
      }
      g := new SnowflakeGenerator(worker, datacenter);
    }

    method GenerateId(clock: seq<int>) returns (r: Outcome)
      requires Valid() && clock != []
      modifies this
      ensures Valid() && Next(State(), r) == Generate(old(State()), clock)
      ensures r == ClockMovedBackwards ==> State() == old(State())
    {
      hide And, Pack;
      var timestamp := clock[0];
      if timestamp < lastTimestamp {
        return ClockMovedBackwards;
      }
      if timestamp == lastTimestamp {
        NextSequence(sequence);
        sequence := And(sequence + 1, MAX_SEQUENCE);
        if sequence == 0 {
          var i := 1;
          while i < |clock| && clock[i] <= lastTimestamp
            invariant 1 <= i <= |clock|
            invariant WaitNextMillis(clock, 1, lastTimestamp) == WaitNextMillis(clock, i, lastTimestamp)
          {
            i := i + 1;
          }
          if i == |clock| {
            return StillWaiting;
          }
          timestamp := clock[i];
        }
      } else {
        sequence := 0;
      }
      lastTimestamp := timestamp;
      return Id(Pack(State()));
    }
  }

  /** The masked increment counts to 4095 and then wraps to 0. */
  lemma NextSequence(s: int)
    requires 0 <= s <= MAX_SEQUENCE
    ensures And(s + 1, MAX_SEQUENCE) == if s == MAX_SEQUENCE then 0 else s + 1
    ensures MAX_SEQUENCE == 4095
  {
    hide *;
    MaskIs4095();
    MaskWraps(s);
  }

  lemma MaskIs4095()
    ensures MAX_SEQUENCE == 4095
  {
    Powers();
  }

  lemma MaskWraps(s: int)
    requires 0 <= s <= 4095
    ensures And(s + 1, 4095) == if s == 4095 then 0 else s + 1
  {
    Powers();
    hide And, Pow2;
    AndMasks(s + 1, 12);
  }

  // ----- The layout -----

  /** The three bit-ors and three shifts are the mixed-radix sum, for any
      timestamp, including those before the epoch. */
  lemma PackIsSum(f: Fields)
    requires InRange(f)
    ensures Pack(f) == (f.timestamp - 1704067200000) * 4194304 + f.datacenter * 131072 + f.worker * 4096 + f.sequence
  {
    Powers();
    hide Pow2, Or;
    var d := f.timestamp - EPOCH;
    OrFills(d, 22, f.datacenter * 131072);
    OrFills(d * 32 + f.datacenter, 17, f.worker * 4096);
    OrFills(d * 1024 + f.datacenter * 32 + f.worker, 12, f.sequence);
  }

  /** Packing and unpacking are inverse in both directions, so the layout is a
      bijection between in-range fields and integers. */
  lemma UnpackPack(f: Fields)
    requires InRange(f)
    ensures Unpack(Pack(f)) == f
  {
    hide Pack, Unpack;
    PackIsSum(f);
    UnpackIs(Pack(f));
    Digits(f.timestamp - EPOCH, f.datacenter, f.worker, f.sequence);
  }

  lemma UnpackIs(id: int)
    ensures Unpack(id) == Fields(id / 4194304 + EPOCH, id / 131072 % 32, id / 4096 % 32, id % 4096)
  {
    Powers();
    hide Pow2;
  }

  lemma Digits(d: int, datacenter: int, worker: int, sequence: int)
    requires 0 <= datacenter < 32 && 0 <= worker < 32 && 0 <= sequence < 4096
    ensures var id := d * 4194304 + datacenter * 131072 + worker * 4096 + sequence;
            && id / 4194304 == d && id / 131072 % 32 == datacenter
            && id / 4096 % 32 == worker && id % 4096 == sequence
  {
    var upper := d * 32 + datacenter;
    var id := d * 4194304 + datacenter * 131072 + worker * 4096 + sequence;
    assert id / 4194304 == d by {
      DivModUnique(id, 4194304, d, datacenter * 131072 + worker * 4096 + sequence);
    }
    assert id / 131072 % 32 == datacenter by {
      DivModUnique(id, 131072, upper, worker * 4096 + sequence);
      DivModUnique(upper, 32, d, datacenter);
    }
    DivModUnique(id, 4096, upper * 32 + worker, sequence);
    DivModUnique(upper * 32 + worker, 32, upper, worker);
  }

  lemma Powers()
    ensures Pow2(5) == 32 && Pow2(12) == 4096 && Pow2(17) == 131072 && Pow2(22) == 4194304
  {
    assert Pow2(8) == 256;
    assert Pow2(12) == 4096;
    assert Pow2(15) == 32768;
    assert Pow2(18) == 262144;
  }

  lemma PackUnpack(id: int)
    ensures InRange(Unpack(id)) && Pack(Unpack(id)) == id
  {
    Powers();
    hide Pow2, Pack;
    var f := Unpack(id);
    PackIsSum(f);
    var hi := id / 4096;
    assert id / 131072 == hi / 32 && id / 4194304 == hi / 32 / 32;
  }

  /** Ids fit 63 bits exactly while the timestamp fits 41 bits past the epoch. */
  lemma IdFits(f: Fields)
    requires InRange(f)
    ensures 0 <= Pack(f) < 0x8000_0000_0000_0000 <==> 0 <= f.timestamp - 1704067200000 < 0x200_0000_0000
  {
    PackIsSum(f);
    Powers();
    hide Pow2, Pack;
  }

  // ----- Whole runs -----

  /** The ids a generator issues over a list of calls, each with its own clock
      readings.  A call whose busy wait never ends is the last one. */
  function Ids(g: Fields, calls: seq<seq<int>>): seq<int>
    requires forall i :: 0 <= i < |calls| ==> calls[i] != []
    decreases |calls|
  {
    if calls == [] then []
    else
      var n := Generate(g, calls[0]);
      match n.outcome
      case Id(id) => [id] + Ids(n.state, calls[1..])
      case ClockMovedBackwards => Ids(n.state, calls[1..])
      case StillWaiting => []
  }

  lemma {:induction false} WaitIsLater(clock: seq<int>, i: nat, last: int)
    requires i <= |clock|
    ensures WaitNextMillis(clock, i, last) >= last
    decreases |clock| - i
  {
    if i < |clock| {
      WaitIsLater(clock, i + 1, last);
    }
  }

  lemma StepIssuesLater(g: Fields, clock: seq<int>)
    requires InRange(g) && clock != []
    ensures var n := Generate(g, clock);
            && InRange(n.state)
            && n.state.worker == g.worker && n.state.datacenter == g.datacenter
            && (n.outcome.Id? ==> n.outcome.id == Pack(n.state) > Pack(g))
            && (n.outcome.ClockMovedBackwards? <==> clock[0] < g.timestamp)
            && (n.outcome.ClockMovedBackwards? ==> n.state == g)
  {
    hide Pack, And;
    NextSequence(g.sequence);
    WaitIsLater(clock, 1, g.timestamp);
    var n := Generate(g, clock);
    PackIsSum(g);
    PackIsSum(n.state);
    Powers();
  }

  ghost predicate IssuedBy(g: Fields, ids: seq<int>) {
    && (forall i :: 0 <= i < |ids| ==> ids[i] > Pack(g))
    && (forall i, j :: 0 <= i < j < |ids| ==> ids[i] < ids[j])
    && (forall i :: 0 <= i < |ids| ==> Unpack(ids[i]).worker == g.worker)
    && (forall i :: 0 <= i < |ids| ==> Unpack(ids[i]).datacenter == g.datacenter)
  }

  lemma IssueFirst(g: Fields, g': Fields, rest: seq<int>)
    requires InRange(g') && g'.worker == g.worker && g'.datacenter == g.datacenter
    requires Pack(g) < Pack(g') && IssuedBy(g', rest)
    ensures IssuedBy(g, [Pack(g')] + rest)
  {
    UnpackPack(g');
    hide Pack, Unpack;
  }

  /** One generator's ids strictly increase, whatever the clock does, and each
      names the generator that issued it. */
  lemma {:induction false} IdsIncrease(g: Fields, calls: seq<seq<int>>)
    requires InRange(g) && forall i :: 0 <= i < |calls| ==> calls[i] != []
    ensures IssuedBy(g, Ids(g, calls))
    decreases |calls|
  {
    if calls != [] {
      StepIssuesLater(g, calls[0]);
      var n := Generate(g, calls[0]);
      if n.outcome.Id? {
        IdsIncrease(n.state, calls[1..]);
        IssueFirst(g, n.state, Ids(n.state, calls[1..]));
      } else if n.outcome.ClockMovedBackwards? {
        IdsIncrease(n.state, calls[1..]);
      }
    }
  }

  /** The id of a call, field by field: a later millisecond starts its sequence at
      zero, the same millisecond counts on, and an exhausted one gives way to the
      first later reading, again from zero. */
  lemma FieldsAreExact(g: Fields, clock: seq<int>, i: nat)
    requires InRange(g) && clock != [] && Generate(g, clock).outcome.Id?
    requires clock[0] == g.timestamp && g.sequence == 4095 ==> FirstLater(clock, i, g.timestamp)
    ensures var f := Unpack(Generate(g, clock).outcome.id);
            && f == Generate(g, clock).state && f.worker == g.worker && f.datacenter == g.datacenter
            && (clock[0] > g.timestamp ==> f.timestamp == clock[0] && f.sequence == 0)
            && (clock[0] == g.timestamp && g.sequence < 4095 ==>
                  f.timestamp == g.timestamp && f.sequence == g.sequence + 1)
            && (clock[0] == g.timestamp && g.sequence == 4095 ==> f.timestamp == clock[i] && f.sequence == 0)
  {
    StepIssuesLater(g, clock);
    UnpackPack(Generate(g, clock).state);
    NextSequence(g.sequence);
    hide Pack, Unpack, And;
    if clock[0] == g.timestamp && g.sequence == 4095 {
      WaitIsFirst(clock, 1, i, g.timestamp);
    }
  }

  /** Reading i is the first one after the call's own that is later than `last`. */
  ghost predicate FirstLater(clock: seq<int>, i: nat, last: int) {
    1 <= i < |clock| && clock[i] > last && forall j :: 1 <= j < i ==> clock[j] <= last
  }

  lemma {:induction false} WaitIsFirst(clock: seq<int>, from: nat, i: nat, last: int)
    requires 1 <= from <= i && FirstLater(clock, i, last)
    ensures WaitNextMillis(clock, from, last) == clock[i]
    decreases i - from
  {
    if from < i {
      WaitIsFirst(clock, from + 1, i, last);
    }
  }

  /** The id after one with fields f: the next of its millisecond, or the first of
      a later one. */
  predicate Follows(f: Fields, id: int) {
    var f' := Unpack(id);
    || (f'.timestamp == f.timestamp && f'.sequence == f.sequence + 1)
    || (f'.timestamp > f.timestamp && f'.sequence == 0)
  }

  lemma StepFollows(g: Fields, clock: seq<int>)
    requires InRange(g) && clock != [] && Generate(g, clock).outcome.Id?
    ensures Follows(g, Generate(g, clock).outcome.id) && Unpack(Generate(g, clock).outcome.id) == Generate(g, clock).state
  {
    StepIssuesLater(g, clock);
    UnpackPack(Generate(g, clock).state);
    NextSequence(g.sequence);
    WaitIsLater(clock, 1, g.timestamp);
    hide Pack, Unpack, And;
  }

  /** Within a millisecond a generator skips no sequence number and every
      millisecond starts at zero, over every run. */
  lemma {:induction false} SequencesAreGapless(g: Fields, calls: seq<seq<int>>)
    requires InRange(g) && forall i :: 0 <= i < |calls| ==> calls[i] != []
    ensures var ids := Ids(g, calls);
            && (ids != [] ==> Follows(g, ids[0]))
            && forall i :: 0 < i < |ids| ==> Follows(Unpack(ids[i - 1]), ids[i])
    decreases |calls|
  {
    hide Pack, Unpack, Follows;
    if calls != [] {
      StepIssuesLater(g, calls[0]);
      var n := Generate(g, calls[0]);
      if n.outcome.Id? {
        StepFollows(g, calls[0]);
        SequencesAreGapless(n.state, calls[1..]);
      } else if n.outcome.ClockMovedBackwards? {
        SequencesAreGapless(n.state, calls[1..]);
      }
    }
  }

  /** Generators with different (datacenter, worker) never share an id. */
  lemma GeneratorsDisjoint(g: Fields, calls: seq<seq<int>>, h: Fields, calls': seq<seq<int>>)
    requires InRange(g) && (forall i :: 0 <= i < |calls| ==> calls[i] != [])
    requires InRange(h) && (forall i :: 0 <= i < |calls'| ==> calls'[i] != [])
    requires (g.datacenter, g.worker) != (h.datacenter, h.worker)
    ensures forall i, j :: 0 <= i < |Ids(g, calls)| && 0 <= j < |Ids(h, calls')| ==>
              Ids(g, calls)[i] != Ids(h, calls')[j]
  {
    IdsIncrease(g, calls);
    IdsIncrease(h, calls');
    hide Pack, Unpack, Ids;
  }

  /** A call gets an id unless the clock stepped back or, after an exhausted
      millisecond, never moves on. */
  lemma {:induction false} WaitEnds(clock: seq<int>, i: nat, last: int)
    requires i <= |clock|
    ensures WaitNextMillis(clock, i, last) > last <==> exists k :: i <= k < |clock| && clock[k] > last
    decreases |clock| - i
  {
    if i < |clock| {
      WaitEnds(clock, i + 1, last);
    }
  }

  lemma OutcomeIsExact(g: Fields, clock: seq<int>)
    requires InRange(g) && clock != []
    ensures Generate(g, clock).outcome.Id? <==>
            || clock[0] > g.timestamp
            || (clock[0] == g.timestamp &&
                (g.sequence < MAX_SEQUENCE || exists k :: 1 <= k < |clock| && clock[k] > g.timestamp))
  {
    NextSequence(g.sequence);
    WaitIsLater(clock, 1, g.timestamp);
    WaitEnds(clock, 1, g.timestamp);
    var later := exists k :: 1 <= k < |clock| && clock[k] > g.timestamp;
    assert WaitNextMillis(clock, 1, g.timestamp) == g.timestamp <==> !later;
    hide And, Pack, WaitNextMillis, Shl, MAX_SEQUENCE;
  }
}
