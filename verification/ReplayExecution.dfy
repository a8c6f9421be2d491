/** The replay executor: it drains a stream into a replay log under a lease, maps
    every way the stream can end to a final status, and cleans up.  All results are
    about the evaluation of the nested program, on every exit path. */
module ReplayExecution {
  import opened Options
  import opened ReplayProgram

  class FramePublisher {
    var terminal: Option<Status>
    var sawPending: bool
    var log: seq<Frame>

    function State(): Seen
      reads this
    {
      Seen(terminal, sawPending, log)
    }

    constructor ()
      ensures State() == Seen(None, false, [])
    {
      terminal, sawPending, log := None, false, [];
    }

    method Publish(c: Chunk, f: Frame) returns (fault: Option<Exn>)
      modifies this
      ensures fault == PublishFault(old(State()), c)
      ensures State() == if fault == None then Observe(old(State()), f) else old(State())
    {
      if c.flushFault.Some? {
        return c.flushFault;
      }
      if terminal.Some? {
        return None;
      }
      if c.storeFault.Some? {
        return c.storeFault;
      }
      log := log + [f];
      if f == Pending {
        sawPending := true;
      }
      terminal := TerminalOf(f);
      return None;
    }
  }

  /** Decoding and publishing one chunk. */
  function FrameFault(c: Chunk, p: Seen): Option<Exn> {
    if c.frame == None then Some(Other)
    else if c.frame.value == Heartbeat then None
    else PublishFault(p, c)
  }

  /** The fault that stops the executor at chunk i, which check number i precedes. */
  function ChunkFault(s: Script, p: Seen, i: nat): Option<Exn>
    requires i < |s.chunks|
  {
    if i >= s.lostAt then Some(LeaseLost) else FrameFault(s.chunks[i], p)
  }

  function Absorb(p: Seen, c: Chunk): Seen {
    if c.frame == None || c.frame.value == Heartbeat then p else Observe(p, c.frame.value)
  }

  /** Drain from chunk i with publisher state p: the final publisher state, and
      the fault that ended the stream loop, if any. */
  function Drain(s: Script, p: Seen, i: nat): (Seen, Option<Exn>)
    requires i <= |s.chunks|
    decreases |s.chunks| - i
  {
    if i == |s.chunks| then
      (p, if s.streamFault.Some? then s.streamFault else if i >= s.lostAt then Some(LeaseLost) else s.closeFault)
    else if ChunkFault(s, p, i).Some? then (p, ChunkFault(s, p, i))
    else Drain(s, Absorb(p, s.chunks[i]), i + 1)
  }

  // ----- The stream loop -----

  function Body(s: Script): (Seen, Option<Exn>) {
    if s.startFault.Some? then (NOTHING, s.startFault) else Drain(s, NOTHING, 0)
  }

  /** The stream was consumed, checked and closed, but told nothing final. */
  predicate Inconclusive(p: Seen) {
    p.terminal == None && !p.pending
  }

  function FinalStatus(s: Script): Status {
    var (p, fault) := Body(s);
    StatusFrom(p, fault)
  }

  function PublishedAll(fs: seq<Frame>): seq<Effect> {
    if fs == [] then [] else PublishedAll(fs[..|fs| - 1]) + [Published(fs[|fs| - 1])]
  }

  /** The frames that a trace published, in order. */
  function Shown(trace: seq<Effect>): seq<Frame> {
    if trace == [] then []
    else
      var last := trace[|trace| - 1];
      Shown(trace[..|trace| - 1]) + if last.Published? then [last.frame] else []
  }

  lemma {:induction false} ShownIs(fs: seq<Frame>, others: seq<Effect>)
    requires forall e :: e in others ==> !e.Published?
    ensures Shown(PublishedAll(fs) + others) == fs
    decreases |fs|, |others|
  {
    var trace := PublishedAll(fs) + others;
    if others != [] {
      var m := |others| - 1;
      assert trace[..|trace| - 1] == PublishedAll(fs) + others[..m] && trace[|trace| - 1] == others[m];
      ShownIs(fs, others[..m]);
    } else if fs != [] {
      ShownIs(fs[..|fs| - 1], []);
      assert PublishedAll(fs[..|fs| - 1]) + [] == PublishedAll(fs[..|fs| - 1]);
      assert trace[..|trace| - 1] == PublishedAll(fs[..|fs| - 1]);
    }
  }

  /** The exception that leaves the try body: the failed call that ended the
      stream, or else the failed append of the missing terminal frame. */
  function Fault(s: Script): Option<Exn> {
    if Quiet(s) then s.noTerminalFault else Body(s).1
  }

  function StatusFrom(p: Seen, fault: Option<Exn>): Status {
    if fault.Some? || Inconclusive(p) then Failed
    else if p.terminal.Some? then p.terminal.value
    else Interrupted
  }

  /** The try body is over: this state, effects included, and this exception. */
  ghost predicate Ends(o: Outcome, st: State, s: Script, p: Seen, fault: Option<Exn>) {
    var quiet := fault == None && Inconclusive(p);
    && o.exn == (if quiet then s.noTerminalFault else fault)
    && o.st.trace == PublishedAll(p.log) + (if quiet then [AppendFailure] else [])
    && o.st.spawned == st.spawned && o.st.status == StatusFrom(p, fault)
  }

  lemma DecideIs(st: State, s: Script)
    requires st.status == Failed && st.trace == PublishedAll(st.pub.log)
    ensures Ends(Eval(DECIDE, st, s, None), st, s, st.pub, None)
  {
    var append := Then(Do(AppendNoTerminal), Do(Assign(Failed)));
    var tried := Perform(AppendNoTerminal, st, s);
    assert Eval(append, st, s, None) == if tried.exn.Some? then tried else Perform(Assign(Failed), tried.st, s);
    var silent := If(PendingSeen, Do(Assign(Interrupted)), append);
    assert Eval(silent, st, s, None) ==
      if st.pub.pending then Perform(Assign(Interrupted), st, s) else Eval(append, st, s, None);
    assert Eval(DECIDE, st, s, None) ==
      if st.pub.terminal.Some? then Perform(TakeTerminal, st, s) else Eval(silent, st, s, None);
    hide Eval;
  }

  /** One turn of the loop: the lease check, the decoding and the publishing. */
  lemma ChunkIs(st: State, s: Script)
    requires st.cursor < |s.chunks| && st.trace == PublishedAll(st.pub.log)
    ensures var o := Eval(ONE_CHUNK, st, s, None);
            && o.exn == ChunkFault(s, st.pub, st.cursor)
            && o.st.pub == (if o.exn.Some? then st.pub else Absorb(st.pub, s.chunks[st.cursor]))
            && o.st.trace == PublishedAll(o.st.pub.log)
            && o.st.spawned == st.spawned && o.st.status == st.status
  {
    var publish := If(NotHeartbeat, Do(PublishFrame), Pass);
    var rest := Then(Do(DecodeFrame), publish);
    assert Eval(publish, st, s, None) ==
      if Current(st, s) != Some(Heartbeat) then PublishCurrent(st, s) else Outcome(st, None);
    assert Eval(rest, st, s, None) ==
      if Current(st, s) == None then Outcome(st, Some(Other)) else Eval(publish, st, s, None);
    assert Eval(ONE_CHUNK, st, s, None) ==
      if st.cursor >= s.lostAt then Outcome(st, Some(LeaseLost)) else Eval(rest, st, s, None);
    hide Eval;
    if Current(st, s).Some? {
      var f := Current(st, s).value;
      assert (st.pub.log + [f])[..|st.pub.log|] == st.pub.log;
    }
  }

  /** The tail of the try body, from the chunk in hand on. */
  lemma {:induction false} ConsumeIs(st: State, s: Script)
    requires st.cursor <= |s.chunks| && st.trace == PublishedAll(st.pub.log) && st.status == Failed
    ensures var (p, fault) := Drain(s, st.pub, st.cursor); Ends(Eval(CONSUME, st, s, None), st, s, p, fault)
    decreases |s.chunks| - st.cursor
  {
    hide Eval;
    if st.cursor == |s.chunks| {
      CloseIs(st, s);
    } else {
      ChunkIs(st, s);
      NextChunk(st, s);
      var o := Eval(ONE_CHUNK, st, s, None);
      if o.exn == None {
        ConsumeIs(o.st.(cursor := st.cursor + 1), s);
      }
    }
  }

  lemma NextChunk(st: State, s: Script)
    requires st.cursor < |s.chunks|
    ensures var o := Eval(ONE_CHUNK, st, s, None);
            Eval(CONSUME, st, s, None) ==
            if o.exn.Some? then o else Eval(CONSUME, o.st.(cursor := st.cursor + 1), s, None)
  {
    var loop := ForEachChunk(ONE_CHUNK);
    var rest := Then(Do(CheckLease), Then(Do(ClosePublisher), DECIDE));
    var o := Eval(ONE_CHUNK, st, s, None);
    var next := o.st.(cursor := st.cursor + 1);
    assert Eval(loop, st, s, None) == if o.exn.Some? then o else Eval(loop, next, s, None);
    hide Eval;
    ThenIs(loop, rest, st, s, None);
    ThenIs(loop, rest, next, s, None);
  }

  /** After the last chunk: the stream's own error, the last lease check, the
      close, and the decision. */
  lemma CloseIs(st: State, s: Script)
    requires st.cursor == |s.chunks| && st.trace == PublishedAll(st.pub.log) && st.status == Failed
    ensures var (p, fault) := Drain(s, st.pub, st.cursor); Ends(Eval(CONSUME, st, s, None), st, s, p, fault)
  {
    var loop := ForEachChunk(ONE_CHUNK);
    var close := Then(Do(ClosePublisher), DECIDE);
    var rest := Then(Do(CheckLease), close);
    assert Eval(loop, st, s, None) == Outcome(st, s.streamFault);
    assert Eval(Do(CheckLease), st, s, None) == Perform(CheckLease, st, s);
    assert Eval(Do(ClosePublisher), st, s, None) == Perform(ClosePublisher, st, s);
    hide Eval;
    DecideIs(st, s);
    ThenIs(Do(ClosePublisher), DECIDE, st, s, None);
    ThenIs(Do(CheckLease), close, st, s, None);
    ThenIs(loop, rest, st, s, None);
  }

  /** The try body: what it shows, whether the helper tasks run, the status it
      reaches and the exception that leaves it. */
  lemma BodyIs(s: Script)
    ensures var (p, fault) := Body(s);
            Ends(Eval(TRY_BODY, INITIAL, s, None), INITIAL.(spawned := s.startFault == None), s, p, fault)
  {
    if s.startFault == None {
      var st := INITIAL.(spawned := true);
      assert Eval(Then(Do(SpawnTasks), CONSUME), INITIAL, s, None) == Eval(CONSUME, st, s, None);
      assert Eval(TRY_BODY, INITIAL, s, None) == Eval(CONSUME, st, s, None);
      ConsumeIs(st, s);
    } else {
      assert Eval(TRY_BODY, INITIAL, s, None) == Outcome(INITIAL, s.startFault);
    }
  }

  /** What the except clauses do about e, and the exception that leaves them. */
  function Handled(s: Script, e: Exn): (seq<Effect>, Option<Exn>) {
    match e
    case LogLimit => ([SetCancel, AppendFailure], s.appendFault)
    case Closed => ([SetCancel], None)
    case TaskCancelled => ([AppendFailure], Some(TaskCancelled))
    case _ => ([AppendFailure], s.appendFault)
  }

  lemma FailIs(st: State, s: Script, handling: Option<Exn>)
    requires st.status == Failed
    ensures var o := Eval(FAIL, st, s, handling);
            && o.exn == s.appendFault && o.st.status == Failed && o.st.spawned == st.spawned
            && o.st.trace == st.trace + [AppendFailure]
  {
  }

  /** The clause for cancellation swallows a failed append, but not a second
      cancellation, and raises again. */
  lemma CancelledIs(st: State, s: Script)
    requires st.status == Failed
    ensures var o := Eval(ON_CANCEL, st, s, Some(TaskCancelled));
            && o.exn == Some(TaskCancelled) && o.st.status == Failed && o.st.spawned == st.spawned
            && o.st.trace == st.trace + [AppendFailure]
  {
    FailIs(st, s, Some(TaskCancelled));
    var failed := Eval(FAIL, st, s, Some(TaskCancelled));
    var swallow := Clause(AnyException, Pass, NoClause);
    if failed.exn.Some? {
      var e := failed.exn.value;
      assert EvalClauses(NoClause, e, failed.st, s) == Outcome(failed.st, Some(e));
      assert Eval(Pass, failed.st, s, Some(e)) == Outcome(failed.st, None);
      assert EvalClauses(swallow, e, failed.st, s) ==
        Outcome(failed.st, if e == TaskCancelled then Some(e) else None);
    }
    assert Eval(TryExcept(FAIL, swallow), st, s, Some(TaskCancelled)) ==
      Outcome(failed.st, if failed.exn == Some(TaskCancelled) then failed.exn else None);
  }

  lemma ClausesAre(e: Exn, st: State, s: Script)
    requires st.status == Failed
    ensures var o := EvalClauses(HANDLERS, e, st, s);
            && o.exn == Handled(s, e).1 && o.st.status == Failed && o.st.spawned == st.spawned
            && o.st.trace == st.trace + Handled(s, e).0
  {
    var c5 := Clause(AnyException, FAIL, NoClause);
    var c4 := Clause(Just(TaskCancelled), ON_CANCEL, c5);
    var c3 := Clause(Just(Closed), Then(Do(RequestCancel), Do(Assign(Failed))), c4);
    var c2 := Clause(Just(LeaseLost), FAIL, c3);
    var cancelled := Perform(RequestCancel, st, s).st;
    match e
    case LogLimit =>
      FailIs(cancelled, s, Some(e));
      assert EvalClauses(HANDLERS, e, st, s) == Eval(Then(Do(RequestCancel), FAIL), st, s, Some(e));
    case LeaseLost =>
      FailIs(st, s, Some(e));
      assert EvalClauses(HANDLERS, e, st, s) == EvalClauses(c2, e, st, s) == Eval(FAIL, st, s, Some(e));
    case Closed =>
      assert EvalClauses(HANDLERS, e, st, s) == EvalClauses(c2, e, st, s) == EvalClauses(c3, e, st, s);
    case TaskCancelled =>
      CancelledIs(st, s);
      assert EvalClauses(HANDLERS, e, st, s) == EvalClauses(c2, e, st, s) == EvalClauses(c3, e, st, s);
      assert EvalClauses(c3, e, st, s) == EvalClauses(c4, e, st, s) == Eval(ON_CANCEL, st, s, Some(e));
    case Other =>
      FailIs(st, s, Some(e));
      assert EvalClauses(HANDLERS, e, st, s) == EvalClauses(c2, e, st, s) == EvalClauses(c3, e, st, s);
      assert EvalClauses(c3, e, st, s) == EvalClauses(c4, e, st, s) == EvalClauses(c5, e, st, s);
  }

  function Shows(s: Script): seq<Effect> {
    PublishedAll(Body(s).0.log)
  }

  predicate Quiet(s: Script) {
    Body(s).1 == None && Inconclusive(Body(s).0)
  }

  /** Effects after the last published frame and before the cleanup. */
  function Aftermath(s: Script): seq<Effect> {
    (if Quiet(s) then [AppendFailure] else []) + if Fault(s).Some? then Handled(s, Fault(s).value).0 else []
  }

  /** The exception that leaves the except clauses. */
  function InFlight(s: Script): Option<Exn> {
    if Fault(s).Some? then Handled(s, Fault(s).value).1 else None
  }

  lemma ProtectedIs(s: Script)
    ensures var o := Eval(PROTECTED, INITIAL, s, None);
            && o.st.trace == Shows(s) + Aftermath(s) && o.exn == InFlight(s)
            && o.st.status == FinalStatus(s) && o.st.spawned == (s.startFault == None)
  {
    BodyIs(s);
    var o := Eval(TRY_BODY, INITIAL, s, None);
    hide Body;
    if o.exn.Some? {
      ClausesAre(o.exn.value, o.st, s);
    }
  }

  // ----- What every exit path keeps -----

  /** Finish, clear_cancel and the lock release are attempted exactly once, in
      this order and after everything else, on every exit path and even if
      earlier ones raise, if and only if no cancellation, not even the first one,
      arrives during the wait for the helper tasks; finish gets the final status. */
  lemma CleanupIsExact(s: Script)
    ensures var o := Execution(s);
            && o.st.status == FinalStatus(s) && o.st.trace == Shows(s) + Aftermath(s) + CleanupCalls(o.st.trace)
            && if s.startFault == None && s.stopFault.Some? then
                 CleanupCalls(o.st.trace) == [] && o.exn == s.stopFault
               else
                 && CleanupCalls(o.st.trace) == [Finish(FinalStatus(s)), ClearCancel, ReleaseLock]
                 && o.exn == Prevailing(s, InFlight(s))
  {
    ProtectedIs(s);
    ProtectedIsClear();
    CleanupAfterAny(PROTECTED, s);
    hide Shows, Aftermath, InFlight, FinalStatus, NoCleanup, Eval;
    var o := Execution(s);
    var calls := [Finish(FinalStatus(s)), ClearCancel, ReleaseLock];
    assert o.st.trace == Shows(s) + Aftermath(s) + if s.startFault == None && s.stopFault.Some? then [] else calls;
    hide Execution, CleanupCalls;
  }

  /** `run_canvas_replay_execution` in place: effects and exception are those of
      the nested program. */
  method Execute(s: Script) returns (trace: seq<Effect>, raised: Option<Exn>)
    ensures trace == Execution(s).st.trace && raised == Execution(s).exn
  {
    var status, fault;
    status, trace, fault := TryBody(s);
    raised := None;
    hide FinalStatus, Shows, Quiet, Fault;
    if fault.Some? {
      var (effects, e) := Handled(s, fault.value);
      trace, raised := trace + effects, e;
    }
    assert trace == Shows(s) + Aftermath(s) && raised == InFlight(s);
    CleanupIsExact(s);
    hide Aftermath, InFlight, Execution, CleanupCalls, Handled;
    if s.startFault == None && s.stopFault.Some? {
      return trace, s.stopFault;
    }
    trace := trace + [Finish(status), ClearCancel, ReleaseLock];
    if s.finishFault.Some? {
      raised := s.finishFault;
    }
    if s.clearFault.Some? {
      raised := s.clearFault;
    }
    if s.releaseFault.Some? {
      raised := s.releaseFault;
    }
  }

  /** The try body: it fills a publisher and decides the status. */
  method TryBody(s: Script) returns (status: Status, trace: seq<Effect>, fault: Option<Exn>)
    ensures status == FinalStatus(s) && fault == Fault(s)
    ensures trace == Shows(s) + if Quiet(s) then [AppendFailure] else []
  {
    var publisher := new FramePublisher();
    status, fault := Failed, s.startFault;
    if fault == None {
      fault := DrainInto(s, publisher);
    }
    assert Body(s) == (publisher.State(), fault);
    hide Body;
    trace := PublishedAll(publisher.log);
    if fault == None {
      if publisher.terminal.Some? {
        status := publisher.terminal.value;
      } else if publisher.sawPending {
        status := Interrupted;
      } else {
        trace, fault := trace + [AppendFailure], s.noTerminalFault;
      }
    }
  }

  /** The stream loop and the steps that close it. */
  method DrainInto(s: Script, publisher: FramePublisher) returns (fault: Option<Exn>)
    requires publisher.State() == NOTHING
    modifies publisher
    ensures (publisher.State(), fault) == Drain(s, NOTHING, 0)
  {
    var i := 0;
    fault := None;
    while i < |s.chunks|
      invariant 0 <= i <= |s.chunks| && fault == None
      invariant Drain(s, NOTHING, 0) == Drain(s, publisher.State(), i)
    {
      var c := s.chunks[i];
      if i >= s.lostAt {
        return Some(LeaseLost);
      }
      if c.frame == None {
        return Some(Other);
      }
      if c.frame.value != Heartbeat {
        fault := publisher.Publish(c, c.frame.value);
        if fault.Some? {
          return;
        }
      }
      i := i + 1;
    }
    if s.streamFault.Some? {
      return s.streamFault;
    }
    if i >= s.lostAt {
      return Some(LeaseLost);
    }
    return s.closeFault;
  }

  // ----- The status, without the loop -----

  /** The frames the executor looks at, heartbeats aside, in stream order. */
  function FramesUpTo(chunks: seq<Chunk>, n: nat): seq<Frame>
    requires n <= |chunks|
  {
    if n == 0 then []
    else
      var c := chunks[n - 1];
      if c.frame == None || c.frame.value == Heartbeat then FramesUpTo(chunks, n - 1)
      else FramesUpTo(chunks, n - 1) + [c.frame.value]
  }

  /** The frames that end an answer: done, cancelled, error. */
  predicate Terminal(f: Frame) {
    f in {DoneFrame, CancelFrame, ErrorFrame}
  }

  /** Position of the first terminal frame, or the length. */
  function FirstTerminal(fs: seq<Frame>): (k: nat)
    ensures k <= |fs| && (k < |fs| ==> Terminal(fs[k]))
  {
    if fs == [] then 0 else if Terminal(fs[0]) then 0 else 1 + FirstTerminal(fs[1..])
  }

  lemma {:induction false} FirstTerminalIs(fs: seq<Frame>)
    ensures forall i :: 0 <= i < FirstTerminal(fs) ==> !Terminal(fs[i])
  {
    if fs != [] && !Terminal(fs[0]) {
      FirstTerminalIs(fs[1..]);
    }
  }

  /** The publisher has seen exactly these frames: it logs them up to and
      including the first terminal one, and that one alone gives the status. */
  ghost predicate Reflects(p: Seen, fs: seq<Frame>) {
    && p.log == (if FirstTerminal(fs) < |fs| then fs[..FirstTerminal(fs) + 1] else fs)
    && p.terminal == (if FirstTerminal(fs) < |fs| then TerminalOf(fs[FirstTerminal(fs)]) else None)
    && (p.pending <==> Pending in p.log)
  }

  lemma {:induction false} FirstTerminalSnoc(fs: seq<Frame>, f: Frame)
    ensures FirstTerminal(fs + [f]) ==
            if FirstTerminal(fs) < |fs| then FirstTerminal(fs) else if Terminal(f) then |fs| else |fs| + 1
  {
    if fs != [] {
      assert (fs + [f])[1..] == fs[1..] + [f];
      FirstTerminalSnoc(fs[1..], f);
    }
  }

  lemma ObserveReflects(p: Seen, fs: seq<Frame>, f: Frame)
    requires Reflects(p, fs)
    ensures Reflects(Observe(p, f), fs + [f])
  {
    FirstTerminalIs(fs);
    FirstTerminalSnoc(fs, f);
  }

  /** Chunk i passed its lease check, decoded, and was published if it had to be. */
  ghost predicate Passed(s: Script, i: nat)
    requires i < |s.chunks|
  {
    var c := s.chunks[i];
    && i < s.lostAt && c.frame.Some?
    && (c.frame.value != Heartbeat ==>
          && c.flushFault == None
          && (c.storeFault == None || exists f :: f in FramesUpTo(s.chunks, i) && Terminal(f)))
  }

  /** The stream was fully consumed, the lease held at the last check, and the
      publisher closed cleanly. */
  ghost predicate FullyConsumed(s: Script) {
    && s.startFault == None && (forall i :: 0 <= i < |s.chunks| ==> Passed(s, i))
    && s.streamFault == None && |s.chunks| < s.lostAt && s.closeFault == None
  }

  lemma PassedIsNoFault(s: Script, p: Seen, i: nat)
    requires i < |s.chunks| && Reflects(p, FramesUpTo(s.chunks, i))
    ensures ChunkFault(s, p, i) == None <==> Passed(s, i)
  {
    var fs := FramesUpTo(s.chunks, i);
    FirstTerminalIs(fs);
    if FirstTerminal(fs) < |fs| {
      assert fs[FirstTerminal(fs)] in fs;
    } else {
      assert forall f :: f in fs ==> !Terminal(f);
    }
  }

  lemma AbsorbReflects(s: Script, p: Seen, i: nat)
    requires i < |s.chunks| && Reflects(p, FramesUpTo(s.chunks, i)) && Passed(s, i)
    ensures Reflects(Absorb(p, s.chunks[i]), FramesUpTo(s.chunks, i + 1))
  {
    hide Reflects;
    var c := s.chunks[i];
    if c.frame.value != Heartbeat {
      ObserveReflects(p, FramesUpTo(s.chunks, i), c.frame.value);
    }
  }

  /** Draining ends at some chunk n: everything before it passed, and the
      publisher reflects exactly the frames before it. */
  lemma {:induction false} DrainIs(s: Script, p: Seen, i: nat) returns (n: nat)
    requires i <= |s.chunks| && Reflects(p, FramesUpTo(s.chunks, i))
    requires forall j :: 0 <= j < i ==> Passed(s, j)
    ensures i <= n <= |s.chunks|
    ensures Reflects(Drain(s, p, i).0, FramesUpTo(s.chunks, n))
    ensures forall j :: 0 <= j < n ==> Passed(s, j)
    ensures n < |s.chunks| ==> !Passed(s, n) && Drain(s, p, i).1.Some?
    ensures n == |s.chunks| ==>
              (Drain(s, p, i).1 == None <==> s.streamFault == None && |s.chunks| < s.lostAt && s.closeFault == None)
    decreases |s.chunks| - i
  {
    hide Reflects, Passed, ChunkFault, Absorb, FramesUpTo;
    if i == |s.chunks| {
      n := i;
    } else {
      PassedIsNoFault(s, p, i);
      if ChunkFault(s, p, i).Some? {
        n := i;
      } else {
        AbsorbReflects(s, p, i);
        n := DrainIs(s, Absorb(p, s.chunks[i]), i + 1);
      }
    }
  }

  /** The first terminal frame of the stream is f. */
  ghost predicate EndsWith(fs: seq<Frame>, f: Frame) {
    exists k :: 0 <= k < |fs| && fs[k] == f && Terminal(f) && forall j :: 0 <= j < k ==> !Terminal(fs[j])
  }

  ghost predicate Endless(fs: seq<Frame>) {
    forall k :: 0 <= k < |fs| ==> !Terminal(fs[k])
  }

  /** The final status, from the stream alone: COMPLETED, CANCELLED, or FAILED by
      its first terminal frame, INTERRUPTED if it has none but a pending frame;
      FAILED also if it ends without either, or was not fully consumed.  Unless the
      wait for the helper tasks is interrupted, finish gets that status. */
  lemma StatusIsExact(s: Script)
    ensures var fs := FramesUpTo(s.chunks, |s.chunks|);
            var status := Execution(s).st.status;
            && (status == Completed <==> FullyConsumed(s) && EndsWith(fs, DoneFrame))
            && (status == Cancelled <==> FullyConsumed(s) && EndsWith(fs, CancelFrame))
            && (status == Interrupted <==> FullyConsumed(s) && Endless(fs) && Pending in fs)
            && (status == Failed <==>
                  !FullyConsumed(s) || EndsWith(fs, ErrorFrame) || (Endless(fs) && Pending !in fs))
    ensures Execution(s).st.status == FinalStatus(s)
    ensures s.startFault.Some? || s.stopFault == None ==>
              CleanupCalls(Execution(s).st.trace) == [Finish(Execution(s).st.status), ClearCancel, ReleaseLock]
  {
    CleanupIsExact(s);
    hide Execution, CleanupCalls;
    var fs := FramesUpTo(s.chunks, |s.chunks|);
    FirstTerminalIs(fs);
    FirstIsEnd(fs);
    if s.startFault == None {
      var n := DrainIs(s, NOTHING, 0);
    }
  }

  /** At most one frame is the first terminal one. */
  lemma FirstIsEnd(fs: seq<Frame>)
    ensures var k := FirstTerminal(fs);
            && (Endless(fs) <==> k == |fs|)
            && forall f :: EndsWith(fs, f) <==> k < |fs| && f == fs[k]
  {
    FirstTerminalIs(fs);
    var k := FirstTerminal(fs);
    hide FirstTerminal, Terminal;
    forall f
      ensures EndsWith(fs, f) <==> k < |fs| && f == fs[k]
    {
      if i :| 0 <= i < |fs| && fs[i] == f && Terminal(f) && forall j :: 0 <= j < i ==> !Terminal(fs[j]) {
        assert i == k;
      }
    }
  }

  /** Chunks that come before the one that stops the executor, if any. */
  ghost predicate Stops(s: Script, n: nat) {
    && n <= |s.chunks| && (forall j :: 0 <= j < n ==> Passed(s, j))
    && (n < |s.chunks| ==> !Passed(s, n))
  }

  /** What the client gets, on every path: the frames of the chunks that passed,
      in order, up to and including the first terminal one. */
  lemma ShownIsExact(s: Script, n: nat)
    requires s.startFault == None && Stops(s, n)
    ensures var fs, shown := FramesUpTo(s.chunks, n), Shown(Execution(s).st.trace);
            if Endless(fs) then shown == fs
            else shown <= fs && shown != [] && EndsWith(fs, shown[|shown| - 1]) && Endless(shown[..|shown| - 1])
  {
    var others := TraceIs(s);
    hide Execution, Shown;
    var m := DrainIs(s, NOTHING, 0);
    assert m == n;
    var fs := FramesUpTo(s.chunks, n);
    hide Passed, Drain, FramesUpTo;
    LogIsExact(Body(s).0, fs);
  }

  lemma LogIsExact(p: Seen, fs: seq<Frame>)
    requires Reflects(p, fs)
    ensures if Endless(fs) then p.log == fs
            else p.log <= fs && p.log != [] && EndsWith(fs, p.log[|p.log| - 1]) && Endless(p.log[..|p.log| - 1])
  {
    FirstTerminalIs(fs);
    FirstIsEnd(fs);
    hide FirstTerminal, Terminal;
  }

  // ----- What the client and the caller learn -----

  /** The whole trace: the frames the publisher let out, then effects that show
      no frame of the stream. */
  lemma TraceIs(s: Script) returns (others: seq<Effect>)
    ensures Execution(s).st.trace == Shows(s) + others
    ensures Shown(Execution(s).st.trace) == Body(s).0.log
    ensures AppendFailure in others <==> Quiet(s) || Fault(s) !in {None, Some(Closed)}
    ensures SetCancel in others <==> Fault(s) in {Some(LogLimit), Some(Closed)}
  {
    CleanupIsExact(s);
    hide Execution, FinalStatus, Quiet, Fault, Body, Aftermath, CleanupCalls, Shown, PublishedAll;
    var calls := CleanupCalls(Execution(s).st.trace);
    others := Aftermath(s) + calls;
    CallsAreCleanup(Execution(s).st.trace);
    AftermathIs(s);
    assert forall e :: e in others <==> e in Aftermath(s) || e in calls;
    ShownIs(Body(s).0.log, others);
  }

  lemma AftermathIs(s: Script)
    ensures forall e :: e in Aftermath(s) ==> e in {AppendFailure, SetCancel}
    ensures AppendFailure in Aftermath(s) <==> Quiet(s) || Fault(s) !in {None, Some(Closed)}
    ensures SetCancel in Aftermath(s) <==> Fault(s) in {Some(LogLimit), Some(Closed)}
  {
    var first := if Quiet(s) then [AppendFailure] else [];
    var handled := if Fault(s).Some? then Handled(s, Fault(s).value).0 else [];
    assert forall e :: e in first + handled <==> e in first || e in handled;
    hide Quiet, Fault;
  }

  /** Fencing at the checks: a lease loss seen at check k means that only frames
      of earlier chunks are published and that the run finishes FAILED. */
  lemma LossIsFenced(s: Script)
    requires s.lostAt <= |s.chunks|
    ensures Execution(s).st.status == Failed
    ensures exists n :: 0 <= n <= s.lostAt && Shown(Execution(s).st.trace) <= FramesUpTo(s.chunks, n)
  {
    StatusIsExact(s);
    var others := TraceIs(s);
    hide Execution;
    if s.startFault == None {
      var n := DrainIs(s, NOTHING, 0);
      assert n > 0 ==> Passed(s, n - 1);
      FirstTerminalIs(FramesUpTo(s.chunks, n));
      assert Body(s).0.log <= FramesUpTo(s.chunks, n);
    } else {
      assert Body(s).0.log <= FramesUpTo(s.chunks, 0);
    }
  }

  /** A run that finishes FAILED has told the client so, by an error frame of the
      stream or by attempting to append one, unless the log was already closed. */
  lemma FailureIsAnnounced(s: Script)
    requires Execution(s).st.status == Failed
    ensures var trace := Execution(s).st.trace;
            ErrorFrame in Shown(trace) || AppendFailure in trace || Fault(s) == Some(Closed)
  {
    StatusIsExact(s);
    var others := TraceIs(s);
    hide Execution;
    var (p, fault) := Body(s);
    if fault == None && !Inconclusive(p) {
      assert p.terminal == Some(Failed);
      var n := DrainIs(s, NOTHING, 0);
      var fs := FramesUpTo(s.chunks, n);
      assert p.log[FirstTerminal(fs)] == ErrorFrame;
    }
  }

  /** If neither the cleanup calls nor the handlers' own append fails, the only
      exception that leaves the executor is the cancellation of its task. */
  lemma OnlyCancellationEscapes(s: Script)
    requires s.stopFault == None && s.finishFault == None && s.clearFault == None && s.releaseFault == None
    requires s.appendFault == None
    ensures Execution(s).exn == if Fault(s) == Some(TaskCancelled) then Some(TaskCancelled) else None
  {
    CleanupIsExact(s);
  }

  /** The cancel event is set by the executor itself exactly when the log is full
      or closed under it. */
  lemma CancelIsRequested(s: Script)
    ensures SetCancel in Execution(s).st.trace <==> Fault(s) in {Some(LogLimit), Some(Closed)}
  {
    var others := TraceIs(s);
    hide Execution;
    PublishedOnly(Body(s).0.log);
  }

  lemma {:induction false} PublishedOnly(fs: seq<Frame>)
    ensures forall e :: e in PublishedAll(fs) ==> e.Published?
  {
    if fs != [] {
      PublishedOnly(fs[..|fs| - 1]);
    }
  }

  /** A cancellation that arrives while the executor waits for its helper tasks,
      even the first one, leaves a completed run without finish, clear_cancel and
      release. */
  lemma InterruptedWaitSkipsCleanup(s: Script)
    requires s.chunks == [Chunk(Some(DoneFrame), None, None)] && s.lostAt > 1
    requires s.startFault == None && s.streamFault == None && s.closeFault == None
    requires s.stopFault == Some(TaskCancelled)
    ensures Execution(s).st.trace == [Published(DoneFrame)] && Execution(s).exn == Some(TaskCancelled)
  {
    DoneStream(s);
    CleanupIsExact(s);
    hide Execution, CleanupCalls, Body, PublishedAll;
    assert Aftermath(s) == [] && Shows(s) == [Published(DoneFrame)];
  }

  lemma DoneStream(s: Script)
    requires s.chunks == [Chunk(Some(DoneFrame), None, None)] && s.lostAt > 1
    requires s.startFault == None && s.streamFault == None && s.closeFault == None
    ensures Body(s) == (Seen(Some(Completed), false, [DoneFrame]), None)
    ensures PublishedAll([DoneFrame]) == [Published(DoneFrame)]
  {
    var p := Observe(NOTHING, DoneFrame);
    assert p == Seen(Some(Completed), false, [DoneFrame]);
    assert Drain(s, p, 1) == (p, None);
    assert Drain(s, NOTHING, 0) == Drain(s, p, 1);
    assert [DoneFrame][..0] == [];
  }
}
