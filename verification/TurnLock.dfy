/** The per-session turn lock: a Redis key taken with SET NX EX, renewed and
    deleted by compare-and-act scripts, plus a process-local table of the turns
    that can be cancelled. */
module TurnLock {
  import opened Options

  datatype Held = Held(owner: string, expiresAt: real)

  type Keys = map<int, Held>

  /** GET: Redis serves a key while the clock is before its expiry. */
  function Owner(keys: Keys, s: int, now: real): Option<string> {
    if s in keys && now < keys[s].expiresAt then Some(keys[s].owner) else None
  }

  /** SET s turn NX EX ttl. */
  function Acquire(keys: Keys, s: int, turn: string, now: real, ttl: int): Keys {
    if Owner(keys, s, now) == None then keys[s := Held(turn, now + ttl as real)] else keys
  }

  /** The refresh script: EXPIRE only for the owner. */
  function Refresh(keys: Keys, s: int, turn: string, now: real, ttl: int): Keys {
    if Owner(keys, s, now) == Some(turn) then keys[s := Held(turn, now + ttl as real)] else keys
  }

  /** The release script: DEL only for the owner. */
  function Release(keys: Keys, s: int, turn: string, now: real): Keys {
    if Owner(keys, s, now) == Some(turn) then keys - {s} else keys
  }

  class Event {
    var isSet: bool

    constructor ()
      ensures !isSet
    {
      isSet := false;
    }
  }

  datatype ActiveTurn = ActiveTurn(turnId: string, cancel: Event, completed: Event)

  datatype Waited = Idle | Stopped(turn: string) | TimedOut(turn: string)

  class LockStore {
    var keys: Keys

    constructor ()
      ensures keys == map[]
    {
      keys := map[];
    }
  }

  class SessionTurnLock {
    const redis: LockStore
    const ttl: int
    var active: map<int, ActiveTurn>

    constructor (redis: LockStore, ttl: int)
      ensures this.redis == redis && this.ttl == ttl && active == map[]
    {
      this.redis, this.ttl, active := redis, ttl, map[];
    }

    /** A busy session is reported as false; the source raises. */
    method TryAcquire(s: int, turn: string, cancel: Option<Event>, now: real) returns (ok: bool)
      modifies this, redis
      ensures ok == (Owner(old(redis.keys), s, now) == None)
      ensures redis.keys == Acquire(old(redis.keys), s, turn, now, ttl)
      ensures !ok || cancel == None ==> active == old(active)
      ensures ok && cancel.Some? ==>
                && s in active && active == old(active)[s := active[s]]
                && active[s].turnId == turn && active[s].cancel == cancel.value
                && fresh(active[s].completed) && !active[s].completed.isSet
    {
      if Owner(redis.keys, s, now).Some? {
        return false;
      }
      redis.keys := redis.keys[s := Held(turn, now + ttl as real)];
      if cancel.Some? {
        var completed := new Event();
        active := active[s := ActiveTurn(turn, cancel.value, completed)];
      }
      return true;
    }

    method TryRefresh(s: int, turn: string, now: real) returns (ok: bool)
      modifies redis
      ensures ok == (Owner(old(redis.keys), s, now) == Some(turn))
      ensures redis.keys == Refresh(old(redis.keys), s, turn, now, ttl)
    {
      if Owner(redis.keys, s, now) != Some(turn) {
        return false;
      }
      redis.keys := redis.keys[s := Held(turn, now + ttl as real)];
      return true;
    }

    /** The local entry goes, and its waiters wake, whether or not Redis still
        knew the turn. */
    method TryRelease(s: int, turn: string, now: real) returns (ok: bool)
      modifies this, redis, if s in active then {active[s].completed} else {}
      ensures ok == (Owner(old(redis.keys), s, now) == Some(turn))
      ensures redis.keys == Release(old(redis.keys), s, turn, now)
      ensures active == old(if s in active && active[s].turnId == turn then active - {s} else active)
      ensures s in old(active) ==>
                old(active)[s].completed.isSet ==
                (old(if s in active then active[s].completed.isSet else false) || old(active)[s].turnId == turn)
    {
      ok := Owner(redis.keys, s, now) == Some(turn);
      if ok {
        redis.keys := redis.keys - {s};
      }
      if s in active && active[s].turnId == turn {
        var local := active[s];
        active := active - {s};
        local.completed.isSet := true;
      }
    }

    /** GET, then an unconditional DELETE: `others` is what other clients made of
        the keys in between, so the key deleted need not be the one read. */
    method ForceRelease(s: int, now: real, others: Option<Keys>) returns (read: Option<string>)
      modifies this, redis, if s in active then {active[s].completed} else {}
      ensures read == Owner(old(redis.keys), s, now)
      ensures var between := if others.Some? then others.value else old(redis.keys);
              redis.keys == if read.Some? && read.value != "" then between - {s} else between
      ensures active == old(if s in active && read == Some(active[s].turnId) && active[s].turnId != ""
                            then active - {s} else active)
      ensures s in old(active) ==>
                && old(active)[s].completed.isSet ==
                   (old(if s in active then active[s].completed.isSet else false)
                    || (read == Some(old(active)[s].turnId) && old(active)[s].turnId != ""))
                && (old(if s in active then active[s].cancel.isSet else false) ==> old(active)[s].cancel.isSet)
    {
      read := Owner(redis.keys, s, now);
      if others.Some? {
        redis.keys := others.value;
      }
      if read.Some? && read.value != "" {
        redis.keys := redis.keys - {s};
        if s in active && active[s].turnId == read.value {
          var local := active[s];
          active := active - {s};
          local.completed.isSet := true;
        }
      }
    }

    /** Ask the active turn to stop and wait.  `polls` are the owners read while
        polling a remote turn until the timeout, `completed` whether a local
        turn's completion event fires before it (`WaiterWakes` says when), `after`
        the keys and `meanwhile` the local table as others have left them when the
        wait ends, at time `late`. */
    method CancelAndWait(s: int, now: real, polls: seq<Option<string>>, completed: bool,
                         after: Keys, meanwhile: map<int, ActiveTurn>, late: real)
      returns (r: Waited)
      modifies this, redis, if s in active then {active[s].cancel} else {}
      modifies if s in meanwhile then {meanwhile[s].completed} else {}
      ensures r == Idle <==> Owner(old(redis.keys), s, now) == None
      ensures r.Stopped? || r.TimedOut? ==> Owner(old(redis.keys), s, now) == Some(r.turn)
      ensures var t := Owner(old(redis.keys), s, now);
              s in old(active) && t == Some(old(active[s]).turnId) ==>
                old(active[s]).cancel.isSet && (r.Stopped? <==> completed)
      ensures var t := Owner(old(redis.keys), s, now);
              t.Some? && !(s in old(active) && t == Some(old(active[s]).turnId)) ==>
                (r.Stopped? <==> exists i :: 0 <= i < |polls| && polls[i] != t)
      ensures r.Idle? ==> active == old(active) && redis.keys == old(redis.keys)
      ensures r.Stopped? ==> active == meanwhile && redis.keys == after
      ensures r.TimedOut? ==>
                var left := Owner(after, s, late);
                && redis.keys == (if left in {None, Some("")} then after else after - {s})
                && if s in meanwhile && left == Some(meanwhile[s].turnId) != Some("") then
                     active == meanwhile - {s} && meanwhile[s].completed.isSet
                   else active == meanwhile
    {
      var turn := Owner(redis.keys, s, now);
      if turn == None {
        return Idle;
      }
      var finished: bool;
      if s in active && Some(active[s].turnId) == turn {
        active[s].cancel.isSet := true;
        finished := completed;
      } else {
        var i := 0;
        while i < |polls| && polls[i] == turn
          invariant 0 <= i <= |polls| && forall j :: 0 <= j < i ==> polls[j] == turn
        {
          i := i + 1;
        }
        finished := i < |polls|;
      }
      redis.keys, active := after, meanwhile;
      if !finished {
        var _ := ForceRelease(s, late, None);
        return TimedOut(turn.value);
      }
      return Stopped(turn.value);
    }
  }

  // ----- When a local waiter wakes -----

  /** The process-local table, with completion events numbered: a new turn enters,
      or a release or forced release names a turn. */
  datatype TableStep = Enter(s: int, turn: string, event: nat) | Leave(s: int, turn: string)

  datatype Table = Table(entries: map<int, (string, nat)>, fired: set<nat>)

  function TableNext(t: Table, a: TableStep): Table {
    match a
    case Enter(s, turn, event) => t.(entries := t.entries[s := (turn, event)])
    case Leave(s, turn) =>
      if s in t.entries && t.entries[s].0 == turn then Table(t.entries - {s}, t.fired + {t.entries[s].1}) else t
  }

  function TableRun(t: Table, steps: seq<TableStep>): Table
    decreases |steps|
  {
    if steps == [] then t else TableRun(TableNext(t, steps[0]), steps[1..])
  }

  /** Step i releases the turn before any other turn has entered its session. */
  ghost predicate ReleasedAt(steps: seq<TableStep>, i: nat, s: int, turn: string)
    requires i < |steps|
  {
    steps[i] == Leave(s, turn) && forall j :: 0 <= j < i ==> !(steps[j].Enter? && steps[j].s == s)
  }

  /** An event that is in no entry and never enters again stays as it is. */
  lemma {:induction false} EventIsGone(t: Table, steps: seq<TableStep>, event: nat)
    requires forall s :: s in t.entries ==> t.entries[s].1 != event
    requires forall i :: 0 <= i < |steps| && steps[i].Enter? ==> steps[i].event != event
    ensures event in TableRun(t, steps).fired <==> event in t.fired
    decreases |steps|
  {
    if steps != [] {
      EventIsGone(TableNext(t, steps[0]), steps[1..], event);
    }
  }

  /** Whoever waits for the active turn of a session wakes if and only if that turn
      is released before another turn enters the session: an entry that is
      overwritten never completes. */
  lemma {:induction false} WaiterWakes(t: Table, steps: seq<TableStep>, s: int, turn: string, event: nat)
    requires s in t.entries && t.entries[s] == (turn, event) && event !in t.fired
    requires forall u :: u in t.entries && u != s ==> t.entries[u].1 != event
    requires forall i :: 0 <= i < |steps| && steps[i].Enter? ==> steps[i].event != event
    ensures event in TableRun(t, steps).fired <==> exists i :: 0 <= i < |steps| && ReleasedAt(steps, i, s, turn)
    decreases |steps|
  {
    if steps != [] {
      var a, rest := steps[0], steps[1..];
      var t1 := TableNext(t, a);
      if a == Leave(s, turn) {
        assert ReleasedAt(steps, 0, s, turn);
        EventIsGone(t1, rest, event);
      } else if a.Enter? && a.s == s {
        EventIsGone(t1, rest, event);
      } else {
        WaiterWakes(t1, rest, s, turn, event);
        if i :| 0 <= i < |rest| && ReleasedAt(rest, i, s, turn) {
          assert forall j :: 0 < j <= i + 1 ==> steps[j] == rest[j - 1];
          assert ReleasedAt(steps, i + 1, s, turn);
        }
        if i :| 0 <= i < |steps| && ReleasedAt(steps, i, s, turn) {
          assert forall j :: 0 <= j < i ==> rest[j] == steps[j + 1];
          assert ReleasedAt(rest, i - 1, s, turn);
        }
      }
    }
  }

  // ----- The lock as a transition system -----

  datatype Step =
    | Tick(d: real)
    | AcquireBy(s: int, turn: string)
    | RefreshBy(s: int, turn: string)
    | ReleaseBy(s: int, turn: string)
    | ForceDelete(s: int)

  /** The shared keys, and for each (session, turn) that believes it holds the
      lock, when it last took or renewed it. */
  datatype World = World(now: real, keys: Keys, renewed: map<(int, string), real>)

  function Next(w: World, a: Step, ttl: int): World {
    match a
    case Tick(d) => w.(now := w.now + d)
    case AcquireBy(s, t) =>
      if Owner(w.keys, s, w.now).Some? then w
      else w.(keys := Acquire(w.keys, s, t, w.now, ttl), renewed := w.renewed[(s, t) := w.now])
    case RefreshBy(s, t) =>
      if Owner(w.keys, s, w.now) != Some(t) then w.(renewed := w.renewed - {(s, t)})
      else w.(keys := Refresh(w.keys, s, t, w.now, ttl),
              renewed := if (s, t) in w.renewed then w.renewed[(s, t) := w.now] else w.renewed)
    case ReleaseBy(s, t) =>
      w.(keys := Release(w.keys, s, t, w.now), renewed := w.renewed - {(s, t)})
    case ForceDelete(s) => w.(keys := w.keys - {s})
  }

  function Run(w: World, steps: seq<Step>, ttl: int): World
    decreases |steps|
  {
    if steps == [] then w else Run(Next(w, steps[0], ttl), steps[1..], ttl)
  }

  ghost predicate Believes(w: World, s: int, t: string) {
    (s, t) in w.renewed
  }

  // ----- While a turn owns the lock -----

  /** No acquire succeeds, and no other turn's refresh or release changes the
      owner or the expiry. */
  lemma OwnerIsProtected(keys: Keys, s: int, t: string, u: string, now: real, ttl: int)
    requires Owner(keys, s, now) == Some(t)
    ensures Acquire(keys, s, u, now, ttl) == keys
    ensures u != t ==> Refresh(keys, s, u, now, ttl) == keys && Release(keys, s, u, now) == keys
  {
  }

  /** Step a does not end turn t's ownership of s other than by letting it expire. */
  ghost predicate Harmless(a: Step, s: int, t: string) {
    a != ReleaseBy(s, t) && a != ForceDelete(s) && (a.Tick? ==> a.d >= 0.0)
  }

  /** When turn t last took or renewed session s, from the steps alone. */
  function LastRenewal(now: real, renewal: real, steps: seq<Step>, s: int, t: string): real
    decreases |steps|
  {
    if steps == [] then renewal
    else
      match steps[0]
      case Tick(d) => LastRenewal(now + d, renewal, steps[1..], s, t)
      case RefreshBy(s', t') => LastRenewal(now, if (s', t') == (s, t) then now else renewal, steps[1..], s, t)
      case _ => LastRenewal(now, renewal, steps[1..], s, t)
  }

  /** Turn t renews session s before a TTL has passed, from the steps alone. */
  ghost predicate Punctual(now: real, renewal: real, steps: seq<Step>, ttl: int, s: int, t: string)
    decreases |steps|
  {
    steps == [] ||
    match steps[0]
    case Tick(d) => now + d < renewal + ttl as real && Punctual(now + d, renewal, steps[1..], ttl, s, t)
    case RefreshBy(s', t') => Punctual(now, if (s', t') == (s, t) then now else renewal, steps[1..], ttl, s, t)
    case _ => Punctual(now, renewal, steps[1..], ttl, s, t)
  }

  /** Turn t owns session s at every point of the run. */
  ghost predicate OwnsThroughout(w: World, steps: seq<Step>, ttl: int, s: int, t: string)
    decreases |steps|
  {
    && Owner(w.keys, s, w.now) == Some(t)
    && (steps != [] ==> OwnsThroughout(Next(w, steps[0], ttl), steps[1..], ttl, s, t))
  }

  /** From a successful acquire on, whatever everybody else does short of a forced
      delete, a turn that does not release owns the session throughout if and only
      if it renews in time; the steps of this session alone matter. */
  lemma {:induction false} OwnershipIsExact(w: World, renewal: real, steps: seq<Step>, ttl: int, s: int, t: string)
    requires s in w.keys && w.keys[s] == Held(t, renewal + ttl as real) && w.now < renewal + ttl as real && ttl > 0
    requires forall i :: 0 <= i < |steps| ==> Harmless(steps[i], s, t)
    ensures OwnsThroughout(w, steps, ttl, s, t) <==> Punctual(w.now, renewal, steps, ttl, s, t)
    decreases |steps|
  {
    if steps != [] {
      var a := steps[0];
      assert Harmless(a, s, t);
      var w1 := Next(w, a, ttl);
      var renewal1 := if a == RefreshBy(s, t) then w.now else renewal;
      assert w1.keys[s] == Held(t, renewal1 + ttl as real);
      if w1.now < renewal1 + ttl as real {
        OwnershipIsExact(w1, renewal1, steps[1..], ttl, s, t);
      }
    }
  }

  /** While it lasts, the key expires exactly one TTL after the turn's own last
      acquire or refresh: other turns can neither take the session nor touch its
      owner or expiry, at any point of the run. */
  lemma {:induction false} OwnershipLasts(w: World, renewal: real, steps: seq<Step>, ttl: int, s: int, t: string)
    requires s in w.keys && w.keys[s] == Held(t, renewal + ttl as real) && w.now < renewal + ttl as real && ttl > 0
    requires forall i :: 0 <= i < |steps| ==> Harmless(steps[i], s, t)
    requires Punctual(w.now, renewal, steps, ttl, s, t)
    ensures var w' := Run(w, steps, ttl);
            && s in w'.keys && w'.now < w'.keys[s].expiresAt
            && w'.keys[s] == Held(t, LastRenewal(w.now, renewal, steps, s, t) + ttl as real)
            && (forall u :: Next(w', AcquireBy(s, u), ttl) == w')
            && forall u :: u != t ==>
                 Next(w', RefreshBy(s, u), ttl).keys == w'.keys == Next(w', ReleaseBy(s, u), ttl).keys
    decreases |steps|
  {
    if steps != [] {
      var a := steps[0];
      assert Harmless(a, s, t);
      var w1 := Next(w, a, ttl);
      var renewal1 := if a == RefreshBy(s, t) then w.now else renewal;
      assert w1.keys[s] == Held(t, renewal1 + ttl as real);
      OwnershipLasts(w1, renewal1, steps[1..], ttl, s, t);
    }
  }

  // ----- After a turn has given the lock up -----

  /** The owner's release leaves the session without an owner at any time, lets the
      next acquire through, whoever makes it, for exactly one TTL, and leaves the
      keys of all other sessions as they are. */
  lemma ReleaseFrees(keys: Keys, s: int, t: string, now: real, u: string, later: real, ttl: int)
    requires Owner(keys, s, now) == Some(t)
    ensures var free := Release(keys, s, t, now);
            && (forall at :: Owner(free, s, at) == None)
            && (forall at :: Owner(Acquire(free, s, u, later, ttl), s, at) ==
                  if at < later + ttl as real then Some(u) else None)
            && free.Keys == keys.Keys - {s} && forall x :: x in free ==> free[x] == keys[x]
  {
  }

  /** Nobody else takes session s in these steps. */
  ghost predicate LeftAlone(steps: seq<Step>, s: int) {
    forall i :: 0 <= i < |steps| ==> !(steps[i].AcquireBy? && steps[i].s == s)
  }

  /** A free session stays free until somebody takes it. */
  lemma {:induction false} FreeStays(w: World, steps: seq<Step>, ttl: int, s: int)
    requires s !in w.keys && LeftAlone(steps, s)
    ensures s !in Run(w, steps, ttl).keys
    decreases |steps|
  {
    if steps != [] {
      assert steps[0].AcquireBy? ==> steps[0].s != s;
      FreeStays(Next(w, steps[0], ttl), steps[1..], ttl, s);
    }
  }

  /** Handing over, in whole runs: when the owner has released, the next turn to
      ask gets the session, however long others work on other sessions meanwhile,
      and from then on owns it throughout if and only if it renews in time. */
  lemma HandOver(w: World, between: seq<Step>, after: seq<Step>, ttl: int, s: int, t: string, u: string)
    requires ttl > 0 && Owner(w.keys, s, w.now) == Some(t) && LeftAlone(between, s)
    requires forall i :: 0 <= i < |after| ==> Harmless(after[i], s, u)
    ensures var w1 := Run(Next(w, ReleaseBy(s, t), ttl), between, ttl);
            var w2 := Next(w1, AcquireBy(s, u), ttl);
            && Owner(w1.keys, s, w1.now) == None && Believes(w2, s, u)
            && w2.keys == w1.keys[s := Held(u, w1.now + ttl as real)]
            && (OwnsThroughout(w2, after, ttl, s, u) <==> Punctual(w2.now, w2.now, after, ttl, s, u))
  {
    var w0 := Next(w, ReleaseBy(s, t), ttl);
    ReleaseFrees(w.keys, s, t, w.now, u, w.now, ttl);
    FreeStays(w0, between, ttl, s);
    var w1 := Run(w0, between, ttl);
    OwnershipIsExact(Next(w1, AcquireBy(s, u), ttl), w1.now, after, ttl, s, u);
  }

  // ----- Mutual exclusion over whole runs -----

  /** After d more seconds every turn that believes it holds s is in time. */
  ghost predicate InTime(w: World, d: real, ttl: int, s: int) {
    forall t :: Believes(w, s, t) ==> w.now + d < w.renewed[(s, t)] + ttl as real
  }

  /** Everyone who believes they hold session s renews before it can expire, and
      nobody forces its deletion.  Other sessions may do as they like. */
  ghost predicate Timely(w: World, steps: seq<Step>, ttl: int, s: int)
    decreases |steps|
  {
    steps == [] ||
    (&& steps[0] != ForceDelete(s)
     && (steps[0].Tick? ==> steps[0].d >= 0.0 && InTime(w, steps[0].d, ttl, s))
     && Timely(Next(w, steps[0], ttl), steps[1..], ttl, s))
  }

  /** On session s belief is ownership. */
  ghost predicate Exclusive(w: World, ttl: int, s: int) {
    forall t :: Believes(w, s, t) ==>
      s in w.keys && w.keys[s] == Held(t, w.renewed[(s, t)] + ttl as real) && w.now < w.keys[s].expiresAt
  }

  lemma StepKeepsExclusive(w: World, a: Step, ttl: int, s: int)
    requires ttl > 0 && Exclusive(w, ttl, s) && a != ForceDelete(s)
    requires a.Tick? ==> a.d >= 0.0 && InTime(w, a.d, ttl, s)
    ensures Exclusive(Next(w, a, ttl), ttl, s)
  {
    var w' := Next(w, a, ttl);
    forall t | Believes(w', s, t)
      ensures s in w'.keys && w'.keys[s] == Held(t, w'.renewed[(s, t)] + ttl as real) && w'.now < w'.keys[s].expiresAt
    {
      if !a.Tick? && !a.ForceDelete? && a.s == s && a.turn != t {
        assert Believes(w, s, t);
        OwnerIsProtected(w.keys, s, t, a.turn, w.now, ttl);
      } else if Believes(w, s, t) {
        assert (s, t) in w.renewed;
      }
    }
  }

  /** With timely renewal of session s and no forced delete of it, no two turns
      ever hold s at once, in any run of any number of turns and processes,
      whatever happens on the other sessions. */
  lemma {:induction false} HoldersNeverOverlap(w: World, steps: seq<Step>, ttl: int, s: int)
    requires ttl > 0 && Exclusive(w, ttl, s) && Timely(w, steps, ttl, s)
    ensures var w' := Run(w, steps, ttl);
            && Exclusive(w', ttl, s)
            && forall t, u :: Believes(w', s, t) && Believes(w', s, u) ==> t == u
    decreases |steps|
  {
    if steps != [] {
      StepKeepsExclusive(w, steps[0], ttl, s);
      HoldersNeverOverlap(Next(w, steps[0], ttl), steps[1..], ttl, s);
    }
  }

  const START := World(0.0, map[], map[])

  /** Both conditions are needed: a late renewal, or a forced delete, lets a
      second turn in while the first still believes it holds the lock. */
  lemma OverlapWithoutTimeliness(ttl: int)
    requires ttl > 0
    ensures var w := Run(START, [AcquireBy(7, "a"), Tick(ttl as real), AcquireBy(7, "b")], ttl);
            Believes(w, 7, "a") && Believes(w, 7, "b")
    ensures var w := Run(START, [AcquireBy(7, "a"), ForceDelete(7), AcquireBy(7, "b")], ttl);
            Believes(w, 7, "a") && Believes(w, 7, "b")
  {
    RunThree(START, AcquireBy(7, "a"), Tick(ttl as real), AcquireBy(7, "b"), ttl);
    RunThree(START, AcquireBy(7, "a"), ForceDelete(7), AcquireBy(7, "b"), ttl);
  }

  lemma RunThree(w: World, a: Step, b: Step, c: Step, ttl: int)
    ensures Run(w, [a, b, c], ttl) == Next(Next(Next(w, a, ttl), b, ttl), c, ttl)
  {
    assert [a, b, c][1..] == [b, c] && [b, c][1..] == [c] && [c][1..] == [];
    var w1 := Next(w, a, ttl);
    var w2 := Next(w1, b, ttl);
    assert Run(w2, [c], ttl) == Run(Next(w2, c, ttl), [], ttl);
    assert Run(w1, [b, c], ttl) == Run(w2, [c], ttl);
    hide Next;
  }

  /** Overlap heals: a believer that is not the owner loses the belief at its
      next refresh and cannot disturb the owner by releasing. */
  lemma LoserIsFenced(w: World, s: int, t: string, ttl: int)
    requires Owner(w.keys, s, w.now) != Some(t)
    ensures !Believes(Next(w, RefreshBy(s, t), ttl), s, t)
    ensures Next(w, RefreshBy(s, t), ttl).keys == w.keys
    ensures Next(w, ReleaseBy(s, t), ttl).keys == w.keys
  {
  }
}
