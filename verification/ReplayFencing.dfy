/** Fencing a lost execution.  The executor and its lease keeper run concurrently
    with everything else that touches the lease and the session lock.  The other
    parties are an environment that may rewrite both stores arbitrarily.  What the
    stream holds and which calls fail is the executor's script; a finished run is
    an `Execution` of that script. */
module ReplayFencing {
  import opened Options
  import opened ReplayProgram
  import RX = ReplayExecution
  import TurnLock

  datatype Answer = Renewed | Refused | Raised

  /** One round of the keeper: whether the cancel flag was already set when it
      looped, then the answers of the lease store and of the lock. */
  datatype Round = Round(cancelled: bool, lease: Answer, lock: Answer)

  predicate Loses(r: Round) {
    r.lease != Renewed || r.lock != Renewed
  }

  /** Round i is reached: nobody cancelled and no earlier round lost. */
  ghost predicate Reached(rounds: seq<Round>, i: nat)
    requires i < |rounds|
  {
    !rounds[i].cancelled && forall j :: 0 <= j < i ==> !rounds[j].cancelled && !Loses(rounds[j])
  }

  ghost predicate FindsLoss(rounds: seq<Round>) {
    exists i :: 0 <= i < |rounds| && Reached(rounds, i) && Loses(rounds[i])
  }

  /** `_refresh_lease`: it raises both flags together, exactly when some round it
      reaches fails to renew the lease or the lock for whatever reason. */
  method RefreshLease(rounds: seq<Round>) returns (leaseLost: bool, cancel: bool)
    ensures leaseLost <==> FindsLoss(rounds)
    ensures leaseLost ==> cancel
    ensures cancel && !leaseLost ==>
              exists i :: 0 <= i < |rounds| && rounds[i].cancelled && forall j :: 0 <= j < i ==> !Loses(rounds[j])
  {
    var i := 0;
    while i < |rounds|
      invariant 0 <= i <= |rounds|
      invariant forall j :: 0 <= j < i ==> !rounds[j].cancelled && !Loses(rounds[j])
    {
      var r := rounds[i];
      if r.cancelled {
        return false, true;
      }
      assert Reached(rounds, i);
      if r.lease == Raised || r.lease == Refused {
        return true, true;
      }
      if r.lock == Raised {
        return true, true;
      }
      if r.lock == Refused {
        return true, true;
      }
      i := i + 1;
    }
    return false, false;
  }

  // ----- Executor, keeper and environment, interleaved -----

  /** Where the keeper stands: at its loop test, asleep, about to renew the
      lease, about to renew the lock, or gone. */
  datatype Keeper = Top | Sleeping | AskLease | AskLock | Gone

  datatype Exec =
    | Waiting                   // for the next chunk
    | Cleared(chunk: Chunk)     // a chunk has passed its lease check
    | Closing                   // the stream is over and the last check passed
    | Failing(fault: Exn)
    | Finished(status: Status)  // the status handed to finish
    | Exited

  /** `cursor` counts the chunks done with; `pub` is the publisher's state. */
  datatype World = World(
    now: real, locks: TurnLock.Keys, leases: map<string, TurnLock.Held>,
    lost: bool, cancel: bool, keeper: Keeper, exec: Exec, cursor: nat, pub: Seen)

  /** The execution under study: its session, turn, request and lease owner, the
      TTLs, and the script, whose `lostAt` plays no part here. */
  datatype Me = Me(
    session: int, turn: string, request: string, owner: string, lockTtl: int, leaseTtl: int, script: Script)

  datatype Action =
    | Environment(now: real, locks: TurnLock.Keys, leases: map<string, TurnLock.Held>)
    | Cancelling          // somebody sets the cancel flag
    | Keep(raises: bool)  // the keeper's next step; raises: its store call fails
    | Advance             // the executor's next step

  predicate HoldsLease(w: World, me: Me) {
    me.request in w.leases && w.now < w.leases[me.request].expiresAt && w.leases[me.request].owner == me.owner
  }

  predicate HoldsLock(w: World, me: Me) {
    TurnLock.Owner(w.locks, me.session, w.now) == Some(me.turn)
  }

  function Lose(w: World): World {
    w.(lost := true, cancel := true, keeper := Gone)
  }

  /** One step of `_refresh_lease`: cancel is read at the loop test only. */
  function KeepStep(w: World, raises: bool, me: Me): World {
    match w.keeper
    case Top => w.(keeper := if w.cancel then Gone else Sleeping)
    case Sleeping => w.(keeper := AskLease)
    case AskLease =>
      if raises || !HoldsLease(w, me) then Lose(w)
      else w.(leases := w.leases[me.request := TurnLock.Held(me.owner, w.now + me.leaseTtl as real)], keeper := AskLock)
    case AskLock =>
      if raises || !HoldsLock(w, me) then Lose(w)
      else w.(locks := TurnLock.Refresh(w.locks, me.session, me.turn, w.now, me.lockTtl), keeper := Top)
    case Gone => w
  }

  /** A full or closed log also sets the cancel flag. */
  function Fail(w: World, e: Exn): World {
    w.(exec := Failing(e), cancel := w.cancel || e in {LogLimit, Closed})
  }

  /** The cleanup cancels the keeper and waits for it; an interrupted wait skips
      finish and release. */
  function Settle(w: World, status: Status, s: Script): World {
    w.(keeper := Gone, exec := if s.stopFault.Some? then Exited else Finished(status))
  }

  /** One step of the executor; the lease-lost flag is read when a chunk arrives
      and once more after the stream. */
  function ExecStep(w: World, me: Me): World {
    var s := me.script;
    match w.exec
    case Waiting =>
      if w.cursor < |s.chunks| then
        if w.lost then Fail(w, LeaseLost) else w.(exec := Cleared(s.chunks[w.cursor]))
      else if s.streamFault.Some? then Fail(w, s.streamFault.value)
      else if w.lost then Fail(w, LeaseLost)
      else w.(exec := Closing)
    case Cleared(c) =>
      var fault := RX.FrameFault(c, w.pub);
      if fault.Some? then Fail(w, fault.value)
      else w.(exec := Waiting, cursor := w.cursor + 1, pub := RX.Absorb(w.pub, c))
    case Closing => Settle(w, RX.StatusFrom(w.pub, s.closeFault), s)
    case Failing(_) => Settle(w, Failed, s)
    case Finished(_) => w.(exec := Exited, locks := TurnLock.Release(w.locks, me.session, me.turn, w.now))
    case Exited => w
  }

  function Step(w: World, a: Action, me: Me): World {
    match a
    case Environment(now, locks, leases) =>
      if now >= w.now then w.(now := now, locks := locks, leases := leases) else w
    case Cancelling => w.(cancel := true)
    case Keep(raises) => KeepStep(w, raises, me)
    case Advance => ExecStep(w, me)
  }

  function Run(w: World, acts: seq<Action>, me: Me): World
    decreases |acts|
  {
    if acts == [] then w else Run(Step(w, acts[0], me), acts[1..], me)
  }

  lemma {:induction false} RunSplit(w: World, front: seq<Action>, back: seq<Action>, me: Me)
    ensures Run(w, front + back, me) == Run(Run(w, front, me), back, me)
    decreases |front|
  {
    if front == [] {
      assert front + back == back;
    } else {
      assert (front + back)[1..] == front[1..] + back;
      RunSplit(Step(w, front[0], me), front[1..], back, me);
    }
  }

  // ----- A finished run is an execution of the script -----

  /** The executor is about to read the lease-lost flag. */
  predicate AtCheck(w: World, me: Me) {
    w.exec == Waiting && (w.cursor < |me.script.chunks| || me.script.streamFault == None)
  }

  /** Lease checks of the run that find the flag down, which is the number of the
      first check after the flag goes up. */
  function Checks(w: World, acts: seq<Action>, me: Me): nat
    decreases |acts|
  {
    if acts == [] then 0
    else Checks(Step(w, acts[0], me), acts[1..], me) + if acts[0].Advance? && AtCheck(w, me) && !w.lost then 1 else 0
  }

  predicate InStep(w: World, me: Me) {
    && w.cursor <= |me.script.chunks|
    && (w.exec.Cleared? ==> w.cursor < |me.script.chunks| && w.exec.chunk == me.script.chunks[w.cursor])
  }

  /** What is left to come in world w if the flag is first seen at check k. */
  function Verdict(w: World, me: Me, k: nat): (Seen, Status)
    requires InStep(w, me)
  {
    var s := me.script.(lostAt := k);
    match w.exec
    case Waiting | Cleared(_) => var (p, fault) := RX.Drain(s, w.pub, w.cursor); (p, RX.StatusFrom(p, fault))
    case Closing => (w.pub, RX.StatusFrom(w.pub, s.closeFault))
    case Finished(status) => (w.pub, status)
    case _ => (w.pub, Failed)
  }

  function Passed(w: World): nat {
    w.cursor + if w.exec.Cleared? then 1 else 0
  }

  lemma {:induction false} NoMoreChecks(w: World, acts: seq<Action>, me: Me)
    requires w.exec != Waiting && !w.exec.Cleared?
    ensures Checks(w, acts, me) == 0
    decreases |acts|
  {
    if acts != [] {
      NoMoreChecks(Step(w, acts[0], me), acts[1..], me);
    }
  }

  /** Only the executor's own steps move the executor. */
  lemma ExecAlone(w: World, a: Action, me: Me)
    ensures var w1 := Step(w, a, me);
            !a.Advance? ==> w1.exec == w.exec && w1.cursor == w.cursor && w1.pub == w.pub
  {
  }

  lemma VerdictNext(w: World, a: Action, me: Me, k: nat)
    requires InStep(w, me)
    requires w.exec.Cleared? ==> k > w.cursor
    requires a.Advance? && AtCheck(w, me) ==> if w.lost then k == w.cursor else k > w.cursor
    ensures var w1 := Step(w, a, me);
            InStep(w1, me) && (w1.exec != Exited ==> Verdict(w1, me, k) == Verdict(w, me, k))
  {
    ExecAlone(w, a, me);
    hide RX.FrameFault, RX.Absorb, HoldsLease, HoldsLock, TurnLock.Release, TurnLock.Refresh, KeepStep;
    if !a.Advance? {
      hide Step, AtCheck;
    }
  }

  /** The number of checks passed grows by those that find the flag down. */
  lemma PassedNext(w: World, a: Action, me: Me)
    requires InStep(w, me)
    ensures var w1 := Step(w, a, me);
            w1.exec == Waiting || w1.exec.Cleared? ==>
              && (w.exec == Waiting || w.exec.Cleared?)
              && Passed(w1) == Passed(w) + if a.Advance? && AtCheck(w, me) && !w.lost then 1 else 0
  {
    ExecAlone(w, a, me);
    hide RX.FrameFault, RX.Absorb, RX.StatusFrom, HoldsLease, HoldsLock, TurnLock.Release, TurnLock.Refresh, KeepStep;
    if !a.Advance? {
      hide Step, AtCheck;
    }
  }

  lemma ChecksAhead(w: World, acts: seq<Action>, me: Me)
    requires acts != [] && acts[0].Advance? && AtCheck(w, me)
    ensures Passed(w) == w.cursor && (if w.lost then Checks(w, acts, me) == 0 else Checks(w, acts, me) > 0)
  {
    if w.lost {
      NoMoreChecks(Step(w, acts[0], me), acts[1..], me);
    }
  }

  lemma {:induction false} VerdictComesTrue(w: World, acts: seq<Action>, me: Me, k: nat)
    requires InStep(w, me) && Run(w, acts, me).exec.Finished?
    requires w.exec == Waiting || w.exec.Cleared? ==> k == Passed(w) + Checks(w, acts, me)
    ensures var w' := Run(w, acts, me); Verdict(w, me, k) == (w'.pub, w'.exec.status)
    decreases |acts|
  {
    if acts != [] {
      var w1 := Step(w, acts[0], me);
      if acts[0].Advance? && AtCheck(w, me) {
        ChecksAhead(w, acts, me);
      }
      VerdictNext(w, acts[0], me, k);
      PassedNext(w, acts[0], me);
      hide Verdict, InStep, AtCheck, Step;
      if w1.exec == Exited {
        ExitedStays(w1, acts[1..], me);
      } else {
        VerdictComesTrue(w1, acts[1..], me, k);
      }
    }
  }

  lemma {:induction false} ExitedStays(w: World, acts: seq<Action>, me: Me)
    requires w.exec == Exited
    ensures Run(w, acts, me).exec == Exited
    decreases |acts|
  {
    if acts != [] {
      ExitedStays(Step(w, acts[0], me), acts[1..], me);
    }
  }

  predicate Begins(w: World, me: Me) {
    w.exec == Waiting && w.cursor == 0 && w.pub == NOTHING && me.script.startFault == None
  }

  /** Every interleaved run that reaches finish is an execution of the nested
      program, one that sees the loss at the first check after the flag goes up:
      same frames, same status, same cleanup. */
  lemma RunIsExecution(w: World, acts: seq<Action>, me: Me)
    requires Begins(w, me) && Run(w, acts, me).exec.Finished?
    ensures var w', o := Run(w, acts, me), Execution(me.script.(lostAt := Checks(w, acts, me)));
            && o.st.status == w'.exec.status && RX.Shown(o.st.trace) == w'.pub.log
            && CleanupCalls(o.st.trace) == [Finish(w'.exec.status), ClearCancel, ReleaseLock]
  {
    var s := me.script.(lostAt := Checks(w, acts, me));
    VerdictComesTrue(w, acts, me, s.lostAt);
    NeverInterrupted(w, acts, me);
    RX.CleanupIsExact(s);
    var others := RX.TraceIs(s);
  }

  lemma {:induction false} NeverInterrupted(w: World, acts: seq<Action>, me: Me)
    requires Run(w, acts, me).exec.Finished? && !w.exec.Finished?
    ensures me.script.stopFault == None
    decreases |acts|
  {
    hide RX.FrameFault, RX.Absorb, RX.StatusFrom, HoldsLease, HoldsLock, TurnLock.Release, TurnLock.Refresh;
    var w1 := Step(w, acts[0], me);
    if !w1.exec.Finished? {
      NeverInterrupted(w1, acts[1..], me);
    }
  }

  // ----- The keeper's loop -----

  /** The round of `_refresh_lease` that a keeper step completes, if any. */
  function RoundOf(w: World, raises: bool, me: Me): Option<Round> {
    match w.keeper
    case Top => if w.cancel then Some(Round(true, Renewed, Renewed)) else None
    case AskLease =>
      if raises then Some(Round(false, Raised, Renewed))
      else if !HoldsLease(w, me) then Some(Round(false, Refused, Renewed))
      else None
    case AskLock =>
      Some(Round(false, Renewed, if raises then Raised else if HoldsLock(w, me) then Renewed else Refused))
    case _ => None
  }

  function Rounds(w: World, acts: seq<Action>, me: Me): seq<Round>
    decreases |acts|
  {
    if acts == [] then []
    else
      var rest := Rounds(Step(w, acts[0], me), acts[1..], me);
      var round := if acts[0].Keep? then RoundOf(w, acts[0].raises, me) else None;
      if round.Some? then [round.value] + rest else rest
  }

  lemma FirstRound(r: Round, rest: seq<Round>)
    ensures FindsLoss([r] + rest) <==> !r.cancelled && (Loses(r) || FindsLoss(rest))
  {
    var rounds := [r] + rest;
    if !r.cancelled && Loses(r) {
      assert Reached(rounds, 0);
    } else if !r.cancelled && FindsLoss(rest) {
      var i :| 0 <= i < |rest| && Reached(rest, i) && Loses(rest[i]);
      assert rounds[i + 1] == rest[i];
      assert forall j :: 0 < j < i + 1 ==> rounds[j] == rest[j - 1];
      assert Reached(rounds, i + 1);
    }
    if FindsLoss(rounds) {
      var i :| 0 <= i < |rounds| && Reached(rounds, i) && Loses(rounds[i]);
      assert rounds[0] == r;
      if i > 0 {
        assert rest[i - 1] == rounds[i];
        assert forall j :: 0 <= j < i - 1 ==> rest[j] == rounds[j + 1];
        assert Reached(rest, i - 1);
      }
    }
  }

  /** Stepped through an interleaved run, the keeper does what its loop does on
      the rounds it went through. */
  lemma {:induction false} KeeperIsItsLoop(w: World, acts: seq<Action>, me: Me)
    requires !w.lost
    ensures Run(w, acts, me).lost <==> FindsLoss(Rounds(w, acts, me))
    decreases |acts|
  {
    if acts != [] {
      var w1, rest := Step(w, acts[0], me), acts[1..];
      var round := if acts[0].Keep? then RoundOf(w, acts[0].raises, me) else None;
      if round.Some? {
        FirstRound(round.value, Rounds(w1, rest, me));
      }
      if w1.keeper == Gone {
        GoneStays(w1, rest, me);
      } else {
        KeeperIsItsLoop(w1, rest, me);
      }
    }
  }

  // ----- What a renewal renews -----

  /** A successful look at the lease holds it until exactly one TTL from now, and a
      successful look at the lock does the same; neither touches another request's
      lease, another session's lock or a flag. */
  lemma RenewalExtends(w: World, me: Me, at: real)
    requires w.now <= at && me.leaseTtl > 0 && me.lockTtl > 0
    requires (w.keeper == AskLease && HoldsLease(w, me)) || (w.keeper == AskLock && HoldsLock(w, me))
    ensures var w' := Step(w, Keep(false), me);
            && w'.lost == w.lost && w'.cancel == w.cancel && w'.exec == w.exec && w'.pub == w.pub
            && (w.keeper == AskLease ==>
                  && (HoldsLease(w'.(now := at), me) <==> at < w.now + me.leaseTtl as real)
                  && w'.leases - {me.request} == w.leases - {me.request} && w'.locks == w.locks)
            && (w.keeper == AskLock ==>
                  && (HoldsLock(w'.(now := at), me) <==> at < w.now + me.lockTtl as real)
                  && w'.locks - {me.session} == w.locks - {me.session} && w'.leases == w.leases)
  {
  }

  /** The environment leaves this execution's lease and lock as they are. */
  predicate Spares(w: World, a: Action, me: Me) {
    a.Environment? ==>
      && (me.request in w.leases ==> me.request in a.leases && a.leases[me.request] == w.leases[me.request])
      && (me.session in w.locks ==> me.session in a.locks && a.locks[me.session] == w.locks[me.session])
  }

  /** Along the run nobody interferes, no store call of the keeper raises, and the
      executor does not give the lock up. */
  ghost predicate Undisturbed(w: World, acts: seq<Action>, me: Me)
    decreases |acts|
  {
    acts == [] ||
    (&& Spares(w, acts[0], me) && (acts[0].Keep? ==> !acts[0].raises) && !(acts[0].Advance? && w.exec.Finished?)
     && Undisturbed(Step(w, acts[0], me), acts[1..], me))
  }

  /** Time never reaches one TTL past the keeper's last look at the lease, nor one
      past its last look at the lock; the looks before the run were at these times. */
  ghost predicate Prompt(w: World, lease: real, lock: real, acts: seq<Action>, me: Me)
    decreases |acts|
  {
    && w.now < lease + me.leaseTtl as real && w.now < lock + me.lockTtl as real
    && (acts != [] ==>
          Prompt(Step(w, acts[0], me),
                 if acts[0].Keep? && w.keeper == AskLease then w.now else lease,
                 if acts[0].Keep? && w.keeper == AskLock then w.now else lock, acts[1..], me))
  }

  ghost predicate HoldsThroughout(w: World, acts: seq<Action>, me: Me)
    decreases |acts|
  {
    && HoldsLease(w, me) && HoldsLock(w, me)
    && (acts != [] ==> HoldsThroughout(Step(w, acts[0], me), acts[1..], me))
  }

  /** Lease and lock as they stand after looks at these times. */
  ghost predicate RenewedAt(w: World, lease: real, lock: real, me: Me) {
    && me.request in w.leases && w.leases[me.request] == TurnLock.Held(me.owner, lease + me.leaseTtl as real)
    && me.session in w.locks && w.locks[me.session] == TurnLock.Held(me.turn, lock + me.lockTtl as real)
  }

  lemma StaysRenewed(w: World, a: Action, lease: real, lock: real, me: Me)
    requires RenewedAt(w, lease, lock, me) && HoldsLease(w, me) && HoldsLock(w, me) && !w.lost
    requires Spares(w, a, me) && (a.Keep? ==> !a.raises) && !(a.Advance? && w.exec.Finished?)
    ensures var w1 := Step(w, a, me);
            && !w1.lost
            && RenewedAt(w1, if a.Keep? && w.keeper == AskLease then w.now else lease,
                         if a.Keep? && w.keeper == AskLock then w.now else lock, me)
  {
    hide RX.FrameFault, RX.Absorb, RX.StatusFrom;
  }

  /** An undisturbed execution holds its lease and its session lock throughout if
      and only if its keeper comes round within both TTLs, whatever the stream
      does, whoever cancels and however long it runs. */
  lemma {:induction false} KeeperKeeps(w: World, lease: real, lock: real, acts: seq<Action>, me: Me)
    requires RenewedAt(w, lease, lock, me) && !w.lost && Undisturbed(w, acts, me)
    ensures HoldsThroughout(w, acts, me) <==> Prompt(w, lease, lock, acts, me)
    decreases |acts|
  {
    if HoldsLease(w, me) && HoldsLock(w, me) && acts != [] {
      var a := acts[0];
      StaysRenewed(w, a, lease, lock, me);
      KeeperKeeps(Step(w, a, me), if a.Keep? && w.keeper == AskLease then w.now else lease,
                  if a.Keep? && w.keeper == AskLock then w.now else lock, acts[1..], me);
    }
  }

  /** What the keeper may take for its sleep, and for any other step. */
  datatype Pace = Pace(nap: real, step: real)

  function Gap(p: Pace, k: Keeper): real {
    if k == Sleeping then p.nap else p.step
  }

  function Following(k: Keeper): Keeper {
    match k
    case Top => Sleeping
    case Sleeping => AskLease
    case AskLease => AskLock
    case AskLock => Top
    case Gone => Gone
  }

  /** The keeper, at stage k since its last move, is never late for the next one:
      the times of the actions alone decide. */
  ghost predicate Paced(now: real, last: real, k: Keeper, acts: seq<Action>, p: Pace)
    decreases |acts|
  {
    && now <= last + Gap(p, k)
    && (acts != [] ==>
          match acts[0]
          case Environment(t, _, _) => Paced(if t >= now then t else now, last, k, acts[1..], p)
          case Keep(_) => Paced(now, now, Following(k), acts[1..], p)
          case _ => Paced(now, last, k, acts[1..], p))
  }

  /** Nobody has cancelled, and the executor has not come to its cleanup. */
  ghost predicate Busy(w: World, acts: seq<Action>, me: Me)
    decreases |acts|
  {
    !w.cancel && !w.exec.Finished? && !w.exec.Exited? && (acts != [] ==> Busy(Step(w, acts[0], me), acts[1..], me))
  }

  /** Time from the last look at the lease, and at the lock, to the last move. */
  function SinceLease(p: Pace, k: Keeper): real {
    match k
    case AskLock => 0.0
    case Top => p.step
    case Sleeping => p.step + p.step
    case _ => p.step + p.step + p.nap
  }

  function SinceLock(p: Pace, k: Keeper): real {
    match k
    case Top => 0.0
    case Sleeping => p.step
    case AskLease => p.step + p.nap
    case _ => p.step + p.nap + p.step
  }

  ghost predicate Recent(w: World, last: real, lease: real, lock: real, p: Pace) {
    && w.keeper != Gone && p.nap > 0.0 && p.step > 0.0
    && last <= lease + SinceLease(p, w.keeper) && last <= lock + SinceLock(p, w.keeper)
  }

  /** The keeper's sleep and its three other steps fit into either TTL. */
  ghost predicate Fits(p: Pace, me: Me) {
    var round := p.nap + p.step + p.step + p.step;
    round < me.leaseTtl as real && round < me.lockTtl as real
  }

  /** A keeper whose whole round fits into both TTLs is prompt. */
  lemma {:induction false} PacedIsPrompt(
    w: World, last: real, lease: real, lock: real, acts: seq<Action>, p: Pace, me: Me)
    requires Fits(p, me) && RenewedAt(w, lease, lock, me) && Recent(w, last, lease, lock, p) && !w.lost
    requires Undisturbed(w, acts, me) && Busy(w, acts, me) && Paced(w.now, last, w.keeper, acts, p)
    ensures Prompt(w, lease, lock, acts, me)
    decreases |acts|
  {
    RecentIsInTime(w, last, lease, lock, p, me);
    if acts != [] {
      var a := acts[0];
      var lease1 := if a.Keep? && w.keeper == AskLease then w.now else lease;
      var lock1 := if a.Keep? && w.keeper == AskLock then w.now else lock;
      var last1 := if a.Keep? then w.now else last;
      var w1 := Step(w, a, me);
      StaysRenewed(w, a, lease, lock, me);
      assert Busy(w1, acts[1..], me);
      StaysRecent(w, a, last, lease, lock, p, me);
      PacedIsPrompt(w1, last1, lease1, lock1, acts[1..], p, me);
    }
  }

  lemma RecentIsInTime(w: World, last: real, lease: real, lock: real, p: Pace, me: Me)
    requires Fits(p, me) && Recent(w, last, lease, lock, p) && w.now <= last + Gap(p, w.keeper)
    requires RenewedAt(w, lease, lock, me)
    ensures w.now < lease + me.leaseTtl as real && w.now < lock + me.lockTtl as real
    ensures HoldsLease(w, me) && HoldsLock(w, me)
  {
  }

  lemma StaysRecent(w: World, a: Action, last: real, lease: real, lock: real, p: Pace, me: Me)
    requires Recent(w, last, lease, lock, p) && w.now <= last + Gap(p, w.keeper)
    requires HoldsLease(w, me) && HoldsLock(w, me) && (a.Keep? ==> !a.raises) && !w.cancel
    requires var w1 := Step(w, a, me); !w1.cancel && !w1.exec.Finished? && !w1.exec.Exited?
    ensures var w1 := Step(w, a, me);
            && Recent(w1, if a.Keep? then w.now else last,
                      if a.Keep? && w.keeper == AskLease then w.now else lease,
                      if a.Keep? && w.keeper == AskLock then w.now else lock, p)
            && w1.now == (if a.Environment? && a.now >= w.now then a.now else w.now)
            && w1.keeper == (if a.Keep? then Following(w.keeper) else w.keeper)
  {
    hide RX.FrameFault, RX.Absorb, RX.StatusFrom;
  }

  /** Who holds both throughout is never flagged as lost. */
  lemma {:induction false} HolderIsNotFlagged(w: World, acts: seq<Action>, me: Me)
    requires HoldsThroughout(w, acts, me) && Undisturbed(w, acts, me) && !w.lost
    ensures !Run(w, acts, me).lost
    decreases |acts|
  {
    hide RX.FrameFault, RX.Absorb, RX.StatusFrom;
    if acts != [] {
      HolderIsNotFlagged(Step(w, acts[0], me), acts[1..], me);
    }
  }

  /** With a prompt keeper the run never notices its keeper: if it reaches finish,
      it shows the frames and hands over the status of the nested program run with
      a lease that is never lost. */
  lemma HealthyExecution(w: World, lease: real, lock: real, acts: seq<Action>, me: Me)
    requires Begins(w, me) && !w.lost && RenewedAt(w, lease, lock, me)
    requires Undisturbed(w, acts, me) && Prompt(w, lease, lock, acts, me) && Run(w, acts, me).exec.Finished?
    ensures var w', o := Run(w, acts, me), Execution(me.script.(lostAt := |me.script.chunks| + 1));
            && !w'.lost && HoldsLease(w', me) && HoldsLock(w', me)
            && o.st.status == w'.exec.status && RX.Shown(o.st.trace) == w'.pub.log
            && CleanupCalls(o.st.trace) == [Finish(w'.exec.status), ClearCancel, ReleaseLock]
  {
    var s := me.script.(lostAt := |me.script.chunks| + 1);
    KeeperKeeps(w, lease, lock, acts, me);
    HolderIsNotFlagged(w, acts, me);
    HoldsAtEnd(w, acts, me);
    UnlostVerdict(w, acts, me, s.lostAt);
    NeverInterrupted(w, acts, me);
    hide Run, HoldsThroughout, Undisturbed, Prompt, HoldsLease, HoldsLock, RenewedAt;
    RX.CleanupIsExact(s);
    var others := RX.TraceIs(s);
  }

  lemma {:induction false} HoldsAtEnd(w: World, acts: seq<Action>, me: Me)
    requires HoldsThroughout(w, acts, me)
    ensures HoldsLease(Run(w, acts, me), me) && HoldsLock(Run(w, acts, me), me)
    decreases |acts|
  {
    if acts != [] {
      HoldsAtEnd(Step(w, acts[0], me), acts[1..], me);
    }
  }

  lemma {:induction false} UnlostVerdict(w: World, acts: seq<Action>, me: Me, k: nat)
    requires InStep(w, me) && Run(w, acts, me).exec.Finished? && !Run(w, acts, me).lost && k > |me.script.chunks|
    ensures var w' := Run(w, acts, me); !w.lost && Verdict(w, me, k) == (w'.pub, w'.exec.status)
    decreases |acts|
  {
    if acts != [] {
      var w1 := Step(w, acts[0], me);
      if w.lost {
        FlagStays(w, acts, me);
      }
      VerdictNext(w, acts[0], me, k);
      hide Verdict, InStep, AtCheck, Step;
      if w1.exec == Exited {
        ExitedStays(w1, acts[1..], me);
      } else {
        UnlostVerdict(w1, acts[1..], me, k);
      }
    }
  }

  lemma {:induction false} FlagStays(w: World, acts: seq<Action>, me: Me)
    requires w.lost
    ensures Run(w, acts, me).lost
    decreases |acts|
  {
    hide RX.FrameFault, RX.Absorb, RX.StatusFrom, HoldsLease, HoldsLock, TurnLock.Release, TurnLock.Refresh;
    if acts != [] {
      FlagStays(Step(w, acts[0], me), acts[1..], me);
    }
  }

  /** After finish the execution gives the session back: the next turn to ask gets it. */
  lemma FinishFreesSession(w: World, me: Me, other: string, ttl: int)
    requires w.exec.Finished? && HoldsLock(w, me) && ttl > 0
    ensures var w' := Step(w, Advance, me);
            && w'.exec == Exited && TurnLock.Owner(w'.locks, me.session, w'.now) == None
            && TurnLock.Owner(TurnLock.Acquire(w'.locks, me.session, other, w'.now, ttl), me.session, w'.now) == Some(other)
            && w'.locks - {me.session} == w.locks - {me.session} && w'.leases == w.leases
  {
    TurnLock.ReleaseFrees(w.locks, me.session, me.turn, w.now, other, w.now, ttl);
  }

  /** In every reachable world a full or a closed log has raised the cancel flag, so
      the producer of the stream is told. */
  lemma {:induction false} FullLogCancels(w: World, acts: seq<Action>, me: Me)
    requires w.exec in {Failing(LogLimit), Failing(Closed)} ==> w.cancel
    ensures var w' := Run(w, acts, me); w'.exec in {Failing(LogLimit), Failing(Closed)} ==> w'.cancel
    decreases |acts|
  {
    if acts != [] {
      var w1 := Step(w, acts[0], me);
      assert w1.exec in {Failing(LogLimit), Failing(Closed)} ==> w1.cancel by {
        hide RX.FrameFault, RX.Absorb, RX.StatusFrom, HoldsLease, HoldsLock, TurnLock.Release, TurnLock.Refresh;
      }
      FullLogCancels(w1, acts[1..], me);
    }
  }

  // ----- Is a loss ever noticed? -----

  /** What is lost: the lease or the session lock. */
  datatype Loss = LeaseGone | LockGone

  predicate Suffers(w: World, x: Loss, me: Me) {
    match x
    case LeaseGone => !HoldsLease(w, me)
    case LockGone => !HoldsLock(w, me)
  }

  /** x stays lost along the run, and the executor does not reach its cleanup,
      which would cancel the keeper. */
  ghost predicate Lasting(w: World, acts: seq<Action>, x: Loss, me: Me)
    decreases |acts|
  {
    && Suffers(w, x, me) && !w.exec.Finished? && !w.exec.Exited?
    && (acts != [] ==> Lasting(Step(w, acts[0], me), acts[1..], x, me))
  }

  /** At some point of the run the keeper's loop test reads a cancel flag that
      somebody else has set. */
  ghost predicate SeesCancel(w: World, acts: seq<Action>, me: Me)
    decreases |acts|
  {
    acts != [] &&
    (|| (acts[0].Keep? && w.keeper == Top && w.cancel)
     || SeesCancel(Step(w, acts[0], me), acts[1..], me))
  }

  function KeeperSteps(acts: seq<Action>): nat {
    if acts == [] then 0 else KeeperSteps(acts[1..]) + if acts[0].Keep? then 1 else 0
  }

  /** Keeper steps until x has been looked at, if the loop test lets it through. */
  function StepsToLook(k: Keeper, x: Loss): nat {
    match (k, x)
    case (Gone, _) => 0
    case (AskLease, LeaseGone) => 1
    case (Sleeping, LeaseGone) => 2
    case (Top, LeaseGone) => 3
    case (AskLock, LeaseGone) => 4
    case (AskLock, LockGone) => 1
    case (AskLease, LockGone) => 2
    case (Sleeping, LockGone) => 3
    case (Top, LockGone) => 4
  }

  /** The keeper decides: it is gone, by flagging the loss or by seeing cancel. */
  lemma {:induction false} KeeperDecides(w: World, acts: seq<Action>, x: Loss, me: Me)
    requires Lasting(w, acts, x, me) && (w.lost ==> w.keeper == Gone) && (w.keeper == Gone ==> w.lost)
    requires KeeperSteps(acts) >= StepsToLook(w.keeper, x)
    ensures Run(w, acts, me).lost <==> !SeesCancel(w, acts, me)
    decreases |acts|
  {
    if w.keeper == Gone {
      LostStays(w, acts, me);
    } else if acts != [] {
      var w1 := Step(w, acts[0], me);
      assert Lasting(w1, acts[1..], x, me);
      if acts[0].Keep? && w.keeper == Top && w.cancel {
        GoneStays(w1, acts[1..], me);
      } else {
        KeeperDecides(w1, acts[1..], x, me);
      }
    }
  }

  lemma {:induction false} LostStays(w: World, acts: seq<Action>, me: Me)
    requires w.lost && w.keeper == Gone
    ensures Run(w, acts, me).lost && !SeesCancel(w, acts, me)
    decreases |acts|
  {
    if acts != [] {
      LostStays(Step(w, acts[0], me), acts[1..], me);
    }
  }

  /** A keeper that has left never flags anything. */
  lemma {:induction false} GoneStays(w: World, acts: seq<Action>, me: Me)
    requires w.keeper == Gone
    ensures Run(w, acts, me).keeper == Gone && Run(w, acts, me).lost == w.lost
    ensures Rounds(w, acts, me) == []
    decreases |acts|
  {
    if acts != [] {
      GoneStays(Step(w, acts[0], me), acts[1..], me);
    }
  }

  /** A lasting loss is flagged, within four steps of a living keeper, if and only
      if the keeper does not first read a cancel flag at its loop test. */
  lemma LastingLossIsFlagged(w: World, acts: seq<Action>, x: Loss, me: Me)
    requires Lasting(w, acts, x, me) && w.keeper != Gone && !w.lost
    requires KeeperSteps(acts) >= 4
    ensures Run(w, acts, me).lost <==> !SeesCancel(w, acts, me)
  {
    KeeperDecides(w, acts, x, me);
  }

  /** A keeper that is past its loop test, and whose look at what is lost is still
      to come, notices the loss in that round, cancelled or not. */
  lemma {:induction false} RoundIsCompleted(w: World, acts: seq<Action>, x: Loss, me: Me)
    requires Lasting(w, acts, x, me) && !w.lost
    requires w.keeper in {Sleeping, AskLease} || (w.keeper == AskLock && x == LockGone)
    requires KeeperSteps(acts) >= StepsToLook(w.keeper, x)
    ensures Run(w, acts, me).lost && !SeesCancel(w, acts, me)
    decreases |acts|
  {
    if acts != [] {
      var w1 := Step(w, acts[0], me);
      assert Lasting(w1, acts[1..], x, me);
      if w1.lost {
        LostStays(w1, acts[1..], me);
      } else {
        RoundIsCompleted(w1, acts[1..], x, me);
      }
    }
  }

  /** Once that look is past it is too late: a lease lost between the two calls is
      not noticed by a keeper that is cancelled before it loops. */
  lemma LookIsPast(w: World, raises: bool, me: Me)
    requires w.keeper == AskLock && !w.lost && w.cancel && HoldsLock(w, me) && !HoldsLease(w, me)
    ensures var w' := Run(w, [Keep(false), Keep(raises)], me);
            w'.keeper == Gone && !w'.lost && Suffers(w', LeaseGone, me)
  {
    RunTwo(w, Keep(false), Keep(raises), [], me);
    assert [Keep(false), Keep(raises)] + [] == [Keep(false), Keep(raises)];
  }

  // ----- What a flagged loss stops -----

  /** The run has passed its last check and is about to finish, or has finished,
      otherwise than FAILED. */
  predicate Escapes(w: World, me: Me) {
    || (w.exec == Closing && me.script.stopFault == None && RX.StatusFrom(w.pub, me.script.closeFault) != Failed)
    || (w.exec.Finished? && w.exec.status != Failed)
  }

  /** From the moment the loss is flagged, over every continuation: the flags
      stay raised, only the chunk that has passed its check is still published,
      and a run that has not escaped by then never does. */
  lemma {:induction false} LossIsFenced(w: World, acts: seq<Action>, me: Me)
    requires w.lost && w.cancel
    ensures var w' := Run(w, acts, me);
            && w'.lost && w'.cancel
            && (w'.pub == w.pub || (w.exec.Cleared? && w'.pub == RX.Absorb(w.pub, w.exec.chunk)))
            && (!Escapes(w, me) ==> !Escapes(w', me))
    decreases |acts|
  {
    hide RX.FrameFault, RX.Absorb, RX.StatusFrom, HoldsLease, HoldsLock, TurnLock.Release, TurnLock.Refresh;
    if acts != [] {
      LossIsFenced(Step(w, acts[0], me), acts[1..], me);
    }
  }

  /** Every continuation that reaches finish hands it FAILED. */
  ghost predicate AlwaysFails(w: World, me: Me) {
    forall acts :: Run(w, acts, me).exec.Finished? ==> Run(w, acts, me).exec.status == Failed
  }

  /** A flagged loss makes the run FAILED if and only if the executor has not
      already passed its last check with a conclusive stream. */
  lemma FencedExactly(w: World, me: Me)
    requires w.lost && w.cancel
    ensures AlwaysFails(w, me) <==> !Escapes(w, me)
  {
    forall acts {:trigger Run(w, acts, me)}
      ensures !Escapes(w, me) && Run(w, acts, me).exec.Finished? ==> Run(w, acts, me).exec.status == Failed
    {
      LossIsFenced(w, acts, me);
    }
    if Escapes(w, me) {
      var acts := if w.exec == Closing then [Advance] else [];
      RunLast(w, Advance, me);
      assert Run(w, [], me) == w;
      assert Run(w, acts, me).exec.Finished? && Run(w, acts, me).exec.status != Failed;
    }
  }

  /** The whole chain: a lease or lock that stays lost while the keeper takes four
      steps without reading a foreign cancel.  From then on, over every
      continuation, both flags are up, only the chunk already checked is still
      published, and the run finishes FAILED unless it had escaped. */
  lemma LostExecutionIsFenced(w: World, during: seq<Action>, after: seq<Action>, x: Loss, me: Me)
    requires Lasting(w, during, x, me) && w.keeper != Gone && !w.lost
    requires KeeperSteps(during) >= 4 && !SeesCancel(w, during, me)
    ensures var w1, w2 := Run(w, during, me), Run(w, during + after, me);
            && w1.lost && w1.cancel && w2.lost && w2.cancel
            && (w2.pub == w1.pub || (w1.exec.Cleared? && w2.pub == RX.Absorb(w1.pub, w1.exec.chunk)))
            && (w2.exec.Finished? && !Escapes(w1, me) ==> w2.exec.status == Failed)
  {
    LastingLossIsFlagged(w, during, x, me);
    FlagsGoTogether(w, during, me);
    RunSplit(w, during, after, me);
    LossIsFenced(Run(w, during, me), after, me);
  }

  /** The same chain for the nested program: the run is an execution of the script,
      and unless it had escaped that execution hands FAILED to finish. */
  lemma LostExecutionFails(
    w: World, before: seq<Action>, during: seq<Action>, after: seq<Action>, x: Loss, me: Me)
    requires Begins(w, me) && !w.lost
    requires var w0 := Run(w, before, me);
             Lasting(w0, during, x, me) && w0.keeper != Gone && KeeperSteps(during) >= 4 && !SeesCancel(w0, during, me)
    requires Run(w, before + (during + after), me).exec.Finished? && !Escapes(Run(w, before + during, me), me)
    ensures var o := Execution(me.script.(lostAt := Checks(w, before + (during + after), me)));
            var w1 := Run(w, before + during, me);
            && CleanupCalls(o.st.trace) == [Finish(Failed), ClearCancel, ReleaseLock]
            && (|| RX.Shown(o.st.trace) == w1.pub.log
                || (w1.exec.Cleared? && RX.Shown(o.st.trace) == RX.Absorb(w1.pub, w1.exec.chunk).log))
  {
    var w0 := Run(w, before, me);
    RunSplit(w, before, during, me);
    RunSplit(w, before, during + after, me);
    KeeperAlive(w, before, me);
    LostExecutionIsFenced(w0, during, after, x, me);
    RunIsExecution(w, before + (during + after), me);
  }

  lemma {:induction false} KeeperAlive(w: World, acts: seq<Action>, me: Me)
    requires !w.lost && Run(w, acts, me).keeper != Gone
    ensures !Run(w, acts, me).lost
    decreases |acts|
  {
    hide RX.FrameFault, RX.Absorb, RX.StatusFrom, HoldsLease, HoldsLock, TurnLock.Release, TurnLock.Refresh;
    if acts != [] {
      var w1 := Step(w, acts[0], me);
      if w1.keeper == Gone {
        GoneStays(w1, acts[1..], me);
      }
      KeeperAlive(w1, acts[1..], me);
    }
  }

  /** In every reachable world the lost flag comes with the cancel flag, and the
      keeper that raised it is gone. */
  lemma {:induction false} FlagsGoTogether(w: World, acts: seq<Action>, me: Me)
    requires w.lost ==> w.cancel && w.keeper == Gone
    ensures var w' := Run(w, acts, me); w'.lost ==> w'.cancel && w'.keeper == Gone
    decreases |acts|
  {
    if acts != [] {
      FlagsGoTogether(Step(w, acts[0], me), acts[1..], me);
    }
  }

  // ----- A cancelled execution is not fenced -----

  /** A user's cancel stops the renewals but not the executor.  Once the lock's
      TTL has passed another turn takes the session, and the cancelled execution
      still publishes its last chunk and still finishes COMPLETED, unflagged. */
  lemma CancelledExecutionIsNotFenced(w: World, me: Me, other: string)
    requires w.keeper == Top && w.exec == Waiting && !w.lost && HoldsLock(w, me)
    requires me.lockTtl > 0 && other != me.turn && w.pub.terminal == None
    requires w.cursor + 1 == |me.script.chunks| && me.script.chunks[w.cursor] == Chunk(Some(DoneFrame), None, None)
    requires me.script.streamFault == None && me.script.closeFault == None && me.script.stopFault == None
    ensures var later := w.locks[me.session].expiresAt;
            var locks := TurnLock.Acquire(w.locks, me.session, other, later, me.lockTtl);
            var acts := [Cancelling, Keep(false)] + ([Environment(later, locks, w.leases), Advance] +
                        ([Advance, Advance] + [Advance]));
            var w' := Run(w, acts, me);
            && TurnLock.Owner(w'.locks, me.session, w'.now) == Some(other)
            && !w'.lost && w'.pub.log == w.pub.log + [DoneFrame] && w'.exec == Finished(Completed)
  {
    var later := w.locks[me.session].expiresAt;
    var locks := TurnLock.Acquire(w.locks, me.session, other, later, me.lockTtl);
    var env := Environment(later, locks, w.leases);
    var w1 := w.(cancel := true, keeper := Gone);
    var w2 := w1.(now := later, locks := locks, exec := Cleared(me.script.chunks[w.cursor]));
    var w3 := w2.(exec := Closing, cursor := w.cursor + 1, pub := Observe(w.pub, DoneFrame));
    var w4 := w3.(exec := Finished(Completed));
    hide Run, TurnLock.Acquire;
    var tail := [Advance, Advance] + [Advance];
    RunTwo(w, Cancelling, Keep(false), [env, Advance] + tail, me);
    RunTwo(w1, env, Advance, tail, me);
    RunTwo(w2, Advance, Advance, [Advance], me);
    RunLast(w3, Advance, me);
    assert w4.locks == locks;
    ExpiredIsTaken(w.locks, me.session, other, later, me.lockTtl);
  }

  lemma RunLast(w: World, a: Action, me: Me)
    ensures Run(w, [a], me) == Step(w, a, me)
  {
    assert [a][1..] == [];
  }

  lemma ExpiredIsTaken(locks: TurnLock.Keys, session: int, other: string, now: real, ttl: int)
    requires ttl > 0 && TurnLock.Owner(locks, session, now) == None
    ensures TurnLock.Owner(TurnLock.Acquire(locks, session, other, now, ttl), session, now) == Some(other)
  {
  }

  lemma RunTwo(w: World, a: Action, b: Action, rest: seq<Action>, me: Me)
    ensures Run(w, [a, b] + rest, me) == Run(Step(Step(w, a, me), b, me), rest, me)
  {
    assert ([a, b] + rest)[1..] == [b] + rest && ([b] + rest)[1..] == rest;
  }

  // ----- The new owner -----

  /** What the other parties do, without this execution. */
  function Others(acts: seq<Action>): seq<Action> {
    if acts == [] then []
    else if acts[0].Environment? then [acts[0]] + Others(acts[1..])
    else Others(acts[1..])
  }

  ghost predicate Foreign(locks: TurnLock.Keys, now: real, me: Me) {
    TurnLock.Owner(locks, me.session, now) != Some(me.turn)
  }

  /** Once the session belongs to nobody or to other turns, the lock evolves as
      if this execution and its keeper did not exist: no refresh prolongs it and
      no release, the final one included, deletes it. */
  lemma {:induction false} NewOwnerIsSafe(w: World, v: World, acts: seq<Action>, me: Me)
    requires w.locks == v.locks && w.now == v.now && Foreign(w.locks, w.now, me)
    requires forall i :: 0 <= i < |acts| && acts[i].Environment? ==> Foreign(acts[i].locks, acts[i].now, me)
    ensures var w', v' := Run(w, acts, me), Run(v, Others(acts), me);
            w'.locks == v'.locks && w'.now == v'.now && Foreign(w'.locks, w'.now, me)
    decreases |acts|
  {
    if acts != [] {
      var a, rest := acts[0], acts[1..];
      if a.Environment? {
        assert Others(acts) == [a] + Others(rest) && ([a] + Others(rest))[1..] == Others(rest);
        NewOwnerIsSafe(Step(w, a, me), Step(v, a, me), rest, me);
      } else {
        NewOwnerIsSafe(Step(w, a, me), v, rest, me);
      }
    }
  }
}
