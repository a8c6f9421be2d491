/** The replay executor as a term.  The nested try / except / finally of the source
    is a statement, and an evaluator gives statements Python's exception semantics.
    Each await's outcome is an input.  The cleanup theorem is proved for whatever
    statement the cleanup protects. */
module ReplayProgram {
  import opened Options

  datatype Status = Interrupted | Completed | Failed | Cancelled

  datatype Frame = Heartbeat | Pending | DoneFrame | ErrorFrame | CancelFrame | Plain

  datatype Exn = LogLimit | LeaseLost | Closed | TaskCancelled | Other

  /** A chunk of the stream: what it decodes to (nothing when decoding fails),
      a deferred flush error, and a failure of the log append. */
  datatype Chunk = Chunk(frame: Option<Frame>, flushFault: Option<Exn>, storeFault: Option<Exn>)

  /** Everything the outside world decides.  `lostAt` numbers the first of the
      executor's lease checks that finds the lease-lost flag set: check i precedes
      chunk i, and the last one follows the end of the stream. */
  datatype Script = Script(
    startFault: Option<Exn>, chunks: seq<Chunk>, streamFault: Option<Exn>, lostAt: nat,
    closeFault: Option<Exn>, noTerminalFault: Option<Exn>, appendFault: Option<Exn>,
    stopFault: Option<Exn>, finishFault: Option<Exn>, clearFault: Option<Exn>, releaseFault: Option<Exn>)

  datatype Effect =
    | Published(frame: Frame)
    | SetCancel
    | AppendFailure
    | Finish(status: Status)
    | ClearCancel
    | ReleaseLock

  /** What the publisher remembers of the frames it appended. */
  datatype Seen = Seen(terminal: Option<Status>, pending: bool, log: seq<Frame>)

  function TerminalOf(f: Frame): Option<Status> {
    match f
    case DoneFrame => Some(Completed)
    case ErrorFrame => Some(Failed)
    case CancelFrame => Some(Cancelled)
    case _ => None
  }

  function Observe(p: Seen, f: Frame): Seen {
    if p.terminal.Some? then p
    else Seen(TerminalOf(f), p.pending || f == Pending, p.log + [f])
  }

  /** After a terminal frame nothing is appended any more, so only a deferred
      flush error can surface. */
  function PublishFault(p: Seen, c: Chunk): Option<Exn> {
    if c.flushFault.Some? then c.flushFault
    else if p.terminal.Some? then None
    else c.storeFault
  }

  const NOTHING := Seen(None, false, [])

  // ----- Statements that may raise -----

  datatype Op =
    | SetRunning
    | SpawnTasks
    | CheckLease
    | DecodeFrame
    | PublishFrame
    | ClosePublisher
    | TakeTerminal           // final_status = publisher.terminal_status
    | Assign(status: Status)
    | AppendNoTerminal       // append_failure at the end of the try body
    | AppendInHandler        // append_failure in an except clause
    | RequestCancel
    | GatherTasks
    | CallFinish
    | CallClearCancel
    | CallRelease

  datatype Test = NotHeartbeat | TerminalSeen | PendingSeen | TasksSpawned

  /** Cancellation is no `Exception` in Python. */
  datatype Pattern = Just(e: Exn) | AnyException

  predicate Catches(p: Pattern, e: Exn) {
    match p
    case Just(x) => e == x
    case AnyException => e != TaskCancelled
  }

  datatype Stmt =
    | Pass
    | Do(op: Op)
    | Then(first: Stmt, second: Stmt)
    | If(test: Test, yes: Stmt, no: Stmt)
    | ForEachChunk(body: Stmt)
    | TryExcept(body: Stmt, clauses: Clauses)
    | TryFinally(body: Stmt, cleanup: Stmt)
    | Reraise

  datatype Clauses = NoClause | Clause(pattern: Pattern, handler: Stmt, rest: Clauses)

  /** `cursor` numbers the chunk in hand; `trace` lists the effects so far. */
  datatype State = State(pub: Seen, status: Status, cursor: nat, spawned: bool, trace: seq<Effect>)

  datatype Outcome = Outcome(st: State, exn: Option<Exn>)

  function Current(st: State, s: Script): Option<Frame> {
    if st.cursor < |s.chunks| then s.chunks[st.cursor].frame else None
  }

  predicate Holds(c: Test, st: State, s: Script) {
    match c
    case NotHeartbeat => Current(st, s) != Some(Heartbeat)
    case TerminalSeen => st.pub.terminal.Some?
    case PendingSeen => st.pub.pending
    case TasksSpawned => st.spawned
  }

  /** `append_failure` closes the log as failed, or raises. */
  function AppendError(st: State, fault: Option<Exn>): Outcome {
    var tried := st.(trace := st.trace + [AppendFailure]);
    Outcome(if fault.Some? then tried else tried.(pub := tried.pub.(terminal := Some(Failed))), fault)
  }

  function PublishCurrent(st: State, s: Script): Outcome {
    if Current(st, s) == None then Outcome(st, None)
    else
      var fault := PublishFault(st.pub, s.chunks[st.cursor]);
      if fault.Some? then Outcome(st, fault)
      else
        var f := Current(st, s).value;
        Outcome(st.(pub := Observe(st.pub, f),
                    trace := if st.pub.terminal.Some? then st.trace else st.trace + [Published(f)]), None)
  }

  function Attempt(st: State, e: Effect, fault: Option<Exn>): Outcome {
    Outcome(st.(trace := st.trace + [e]), fault)
  }

  function Perform(op: Op, st: State, s: Script): Outcome {
    match op
    case SetRunning => Outcome(st, s.startFault)
    case SpawnTasks => Outcome(st.(spawned := true), None)
    case CheckLease => Outcome(st, if st.cursor >= s.lostAt then Some(LeaseLost) else None)
    case DecodeFrame => Outcome(st, if Current(st, s) == None then Some(Other) else None)
    case PublishFrame => PublishCurrent(st, s)
    case ClosePublisher => Outcome(st, s.closeFault)
    case TakeTerminal => Outcome(if st.pub.terminal.Some? then st.(status := st.pub.terminal.value) else st, None)
    case Assign(status) => Outcome(st.(status := status), None)
    case AppendNoTerminal => AppendError(st, s.noTerminalFault)
    case AppendInHandler => AppendError(st, s.appendFault)
    case RequestCancel => Attempt(st, SetCancel, None)
    case GatherTasks => Outcome(st, s.stopFault)
    case CallFinish => Attempt(st, Finish(st.status), s.finishFault)
    case CallClearCancel => Attempt(st, ClearCancel, s.clearFault)
    case CallRelease => Attempt(st, ReleaseLock, s.releaseFault)
  }

  function Left(st: State, s: Script): nat {
    if st.cursor <= |s.chunks| then |s.chunks| - st.cursor else 0
  }

  /** Run a statement; `handling` is the exception an enclosing clause is handling. */
  function Eval(t: Stmt, st: State, s: Script, handling: Option<Exn>): Outcome
    decreases t, Left(st, s)
  {
    match t
    case Pass => Outcome(st, None)
    case Do(op) => Perform(op, st, s)
    case Then(first, second) =>
      var o := Eval(first, st, s, handling);
      if o.exn.Some? then o else Eval(second, o.st, s, handling)
    case If(test, yes, no) =>
      if Holds(test, st, s) then Eval(yes, st, s, handling) else Eval(no, st, s, handling)
    case ForEachChunk(body) =>
      if st.cursor >= |s.chunks| then Outcome(st, s.streamFault)
      else
        var o := Eval(body, st, s, handling);
        if o.exn.Some? then o else Eval(t, o.st.(cursor := st.cursor + 1), s, handling)
    case TryExcept(body, clauses) =>
      var o := Eval(body, st, s, handling);
      if o.exn.Some? then EvalClauses(clauses, o.exn.value, o.st, s) else o
    case TryFinally(body, cleanup) =>
      var o := Eval(body, st, s, handling);
      var c := Eval(cleanup, o.st, s, if o.exn.Some? then o.exn else handling);
      Outcome(c.st, if c.exn.Some? then c.exn else o.exn)
    case Reraise => Outcome(st, if handling.Some? then handling else Some(Other))
  }

  /** The first clause that catches e handles it; an exception raised in a clause
      is not offered to the clauses after it. */
  function EvalClauses(cs: Clauses, e: Exn, st: State, s: Script): Outcome
    decreases cs, 0
  {
    match cs
    case NoClause => Outcome(st, Some(e))
    case Clause(pattern, handler, rest) =>
      if Catches(pattern, e) then Eval(handler, st, s, Some(e)) else EvalClauses(rest, e, st, s)
  }

  // ----- The executor, nested as in the source -----

  const ONE_CHUNK := Then(Do(CheckLease), Then(Do(DecodeFrame), If(NotHeartbeat, Do(PublishFrame), Pass)))

  const DECIDE :=
    If(TerminalSeen, Do(TakeTerminal),
       If(PendingSeen, Do(Assign(Interrupted)), Then(Do(AppendNoTerminal), Do(Assign(Failed)))))

  const CONSUME := Then(ForEachChunk(ONE_CHUNK), Then(Do(CheckLease), Then(Do(ClosePublisher), DECIDE)))

  const TRY_BODY := Then(Do(SetRunning), Then(Do(SpawnTasks), CONSUME))

  const FAIL := Then(Do(AppendInHandler), Do(Assign(Failed)))

  const ON_CANCEL := Then(TryExcept(FAIL, Clause(AnyException, Pass, NoClause)), Reraise)

  const HANDLERS :=
    Clause(Just(LogLimit), Then(Do(RequestCancel), FAIL),
    Clause(Just(LeaseLost), FAIL,
    Clause(Just(Closed), Then(Do(RequestCancel), Do(Assign(Failed))),
    Clause(Just(TaskCancelled), ON_CANCEL,
    Clause(AnyException, FAIL, NoClause)))))

  const PROTECTED := TryExcept(TRY_BODY, HANDLERS)

  const CLEANUP :=
    Then(If(TasksSpawned, Do(GatherTasks), Pass),
         TryFinally(Do(CallFinish), TryFinally(Do(CallClearCancel), Do(CallRelease))))

  const PROGRAM := TryFinally(PROTECTED, CLEANUP)

  const INITIAL := State(NOTHING, Failed, 0, false, [])

  function Execution(s: Script): Outcome {
    Eval(PROGRAM, INITIAL, s, None)
  }

  // ----- The cleanup, whatever it protects -----

  predicate IsCleanup(e: Effect) {
    e.Finish? || e.ClearCancel? || e.ReleaseLock?
  }

  function CleanupCalls(trace: seq<Effect>): seq<Effect> {
    if trace == [] then []
    else
      var last := trace[|trace| - 1];
      CleanupCalls(trace[..|trace| - 1]) + if IsCleanup(last) then [last] else []
  }

  predicate NoCleanup(t: Stmt) {
    match t
    case Do(op) => !op.CallFinish? && !op.CallClearCancel? && !op.CallRelease?
    case Then(first, second) => NoCleanup(first) && NoCleanup(second)
    case If(_, yes, no) => NoCleanup(yes) && NoCleanup(no)
    case ForEachChunk(body) => NoCleanup(body)
    case TryExcept(body, clauses) => NoCleanup(body) && NoCleanupIn(clauses)
    case TryFinally(body, cleanup) => NoCleanup(body) && NoCleanup(cleanup)
    case _ => true
  }

  predicate NoCleanupIn(cs: Clauses) {
    match cs
    case NoClause => true
    case Clause(_, handler, rest) => NoCleanup(handler) && NoCleanupIn(rest)
  }

  lemma OpStaysClear(op: Op, st: State, s: Script)
    requires NoCleanup(Do(op))
    ensures CleanupCalls(Perform(op, st, s).st.trace) == CleanupCalls(st.trace)
  {
    hide CleanupCalls;
    var after := Perform(op, st, s).st.trace;
    if after != st.trace {
      OneCall(st.trace, after[|st.trace|]);
      assert after == st.trace + [after[|st.trace|]];
    }
  }

  /** A statement without cleanup calls makes none, on whichever path it leaves. */
  lemma {:induction false} StaysClear(t: Stmt, st: State, s: Script, handling: Option<Exn>)
    requires NoCleanup(t)
    ensures CleanupCalls(Eval(t, st, s, handling).st.trace) == CleanupCalls(st.trace)
    decreases t, Left(st, s)
  {
    hide CleanupCalls, Perform, Holds;
    match t
    case Do(op) => OpStaysClear(op, st, s);
    case Then(first, second) =>
      StaysClear(first, st, s, handling);
      StaysClear(second, Eval(first, st, s, handling).st, s, handling);
    case If(_, yes, no) =>
      StaysClear(yes, st, s, handling);
      StaysClear(no, st, s, handling);
    case ForEachChunk(body) =>
      if st.cursor < |s.chunks| {
        StaysClear(body, st, s, handling);
        var o := Eval(body, st, s, handling);
        if o.exn == None {
          StaysClear(t, o.st.(cursor := st.cursor + 1), s, handling);
        }
      }
    case TryExcept(body, clauses) =>
      StaysClear(body, st, s, handling);
      var o := Eval(body, st, s, handling);
      if o.exn.Some? {
        ClausesStayClear(clauses, o.exn.value, o.st, s);
      }
    case TryFinally(body, cleanup) =>
      StaysClear(body, st, s, handling);
      var o := Eval(body, st, s, handling);
      StaysClear(cleanup, o.st, s, if o.exn.Some? then o.exn else handling);
    case _ =>
  }

  lemma {:induction false} ClausesStayClear(cs: Clauses, e: Exn, st: State, s: Script)
    requires NoCleanupIn(cs)
    ensures CleanupCalls(EvalClauses(cs, e, st, s).st.trace) == CleanupCalls(st.trace)
    decreases cs, 0
  {
    hide CleanupCalls;
    match cs
    case NoClause =>
    case Clause(pattern, handler, rest) =>
      StaysClear(handler, st, s, Some(e));
      ClausesStayClear(rest, e, st, s);
  }

  /** The last of these to raise decides. */
  function Prevailing(s: Script, inFlight: Option<Exn>): Option<Exn> {
    if s.releaseFault.Some? then s.releaseFault
    else if s.clearFault.Some? then s.clearFault
    else if s.finishFault.Some? then s.finishFault
    else inFlight
  }

  /** Whatever statement the cleanup protects, and however that statement ends:
      the three calls are made exactly once, in order and last, even if some of
      them raise, if and only if the wait for the helper tasks is not itself
      interrupted.  An interrupted wait skips all three. */
  lemma CleanupAfterAny(body: Stmt, s: Script)
    requires NoCleanup(body)
    ensures var inner, o := Eval(body, INITIAL, s, None), Eval(TryFinally(body, CLEANUP), INITIAL, s, None);
            var calls := [Finish(inner.st.status), ClearCancel, ReleaseLock];
            && o.st.status == inner.st.status
            && if inner.st.spawned && s.stopFault.Some? then
                 CleanupCalls(o.st.trace) == [] && o.st.trace == inner.st.trace && o.exn == s.stopFault
               else
                 && CleanupCalls(o.st.trace) == calls && o.st.trace == inner.st.trace + calls
                 && o.exn == Prevailing(s, inner.exn)
  {
    hide Eval, CLEANUP, CleanupCalls, NoCleanup;
    var inner := Eval(body, INITIAL, s, None);
    FinallyIs(body, CLEANUP, INITIAL, s, None);
    CleanupIs(inner.st, s, inner.exn);
    StaysClear(body, INITIAL, s, None);
    NoCalls();
    ThreeCalls(inner.st.trace, Finish(inner.st.status), ClearCancel, ReleaseLock);
  }

  lemma NoCalls()
    ensures CleanupCalls([]) == []
  {
  }

  lemma {:induction false} CallsAreCleanup(trace: seq<Effect>)
    ensures forall e :: e in CleanupCalls(trace) ==> IsCleanup(e)
  {
    if trace != [] {
      CallsAreCleanup(trace[..|trace| - 1]);
    }
  }

  /** The cleanup starts from whatever state the protected statement has left, and
      its own exception replaces the one in flight. */
  lemma FinallyIs(body: Stmt, cleanup: Stmt, st: State, s: Script, handling: Option<Exn>)
    ensures var o := Eval(body, st, s, handling);
            var c := Eval(cleanup, o.st, s, if o.exn.Some? then o.exn else handling);
            Eval(TryFinally(body, cleanup), st, s, handling) ==
            Outcome(c.st, if c.exn.Some? then c.exn else o.exn)
  {
  }

  lemma ThenIs(first: Stmt, second: Stmt, st: State, s: Script, handling: Option<Exn>)
    ensures var o := Eval(first, st, s, handling);
            Eval(Then(first, second), st, s, handling) ==
            if o.exn.Some? then o else Eval(second, o.st, s, handling)
  {
  }

  lemma OneCall(trace: seq<Effect>, e: Effect)
    ensures CleanupCalls(trace + [e]) == CleanupCalls(trace) + if IsCleanup(e) then [e] else []
  {
    assert (trace + [e])[..|trace|] == trace;
  }

  lemma ThreeCalls(trace: seq<Effect>, a: Effect, b: Effect, c: Effect)
    requires IsCleanup(a) && IsCleanup(b) && IsCleanup(c)
    ensures CleanupCalls(trace + [a, b, c]) == CleanupCalls(trace) + [a, b, c]
  {
    OneCall(trace, a);
    OneCall(trace + [a], b);
    OneCall(trace + [a] + [b], c);
    hide CleanupCalls;
    assert trace + [a, b, c] == trace + [a] + [b] + [c];
  }

  lemma CleanupIs(st: State, s: Script, exn: Option<Exn>)
    ensures var c := Eval(CLEANUP, st, s, exn);
            var calls := [Finish(st.status), ClearCancel, ReleaseLock];
            if st.spawned && s.stopFault.Some? then c == Outcome(st, s.stopFault)
            else c.st.trace == st.trace + calls && c.st.status == st.status && c.exn == Prevailing(s, None)
  {
    var wait := If(TasksSpawned, Do(GatherTasks), Pass);
    var inner := TryFinally(Do(CallClearCancel), Do(CallRelease));
    var calls := TryFinally(Do(CallFinish), inner);
    var o1 := Eval(Do(CallFinish), st, s, exn);
    var h := if o1.exn.Some? then o1.exn else exn;
    var o2 := Eval(Do(CallClearCancel), o1.st, s, h);
    var o3 := Eval(Do(CallRelease), o2.st, s, if o2.exn.Some? then o2.exn else h);
    assert Eval(wait, st, s, exn) == Outcome(st, if st.spawned then s.stopFault else None);
    assert o1 == Attempt(st, Finish(st.status), s.finishFault);
    assert o2 == Attempt(o1.st, ClearCancel, s.clearFault);
    assert o3 == Attempt(o2.st, ReleaseLock, s.releaseFault);
    hide Eval;
    FinallyIs(Do(CallClearCancel), Do(CallRelease), o1.st, s, h);
    FinallyIs(Do(CallFinish), inner, st, s, exn);
    ThenIs(wait, calls, st, s, exn);
  }

  lemma LoopIsClear()
    ensures NoCleanup(ONE_CHUNK) && NoCleanup(DECIDE)
  {
    var append := Then(Do(AppendNoTerminal), Do(Assign(Failed)));
    assert NoCleanup(append);
    assert NoCleanup(If(PendingSeen, Do(Assign(Interrupted)), append));
    var publish := If(NotHeartbeat, Do(PublishFrame), Pass);
    assert NoCleanup(publish);
    assert NoCleanup(Then(Do(DecodeFrame), publish));
  }

  lemma ConsumeIsClear()
    ensures NoCleanup(CONSUME)
  {
    hide ONE_CHUNK, DECIDE;
    LoopIsClear();
    var close := Then(Do(ClosePublisher), DECIDE);
    assert NoCleanup(close);
    assert NoCleanup(Then(Do(CheckLease), close));
  }

  lemma HandlersAreClear()
    ensures NoCleanupIn(HANDLERS)
  {
    assert NoCleanup(FAIL);
    hide FAIL;
    assert NoCleanup(ON_CANCEL);
    hide ON_CANCEL;
    var c5 := Clause(AnyException, FAIL, NoClause);
    var c4 := Clause(Just(TaskCancelled), ON_CANCEL, c5);
    var c3 := Clause(Just(Closed), Then(Do(RequestCancel), Do(Assign(Failed))), c4);
    assert NoCleanupIn(c5);
    assert NoCleanupIn(c4);
    assert NoCleanupIn(c3);
    assert NoCleanupIn(Clause(Just(LeaseLost), FAIL, c3));
  }

  lemma ProtectedIsClear()
    ensures NoCleanup(PROTECTED)
  {
    hide CONSUME, HANDLERS;
    ConsumeIsClear();
    HandlersAreClear();
    var started := Then(Do(SpawnTasks), CONSUME);
    assert NoCleanup(started);
    assert TRY_BODY == Then(Do(SetRunning), started);
    assert NoCleanup(TRY_BODY);
    hide TRY_BODY;
    assert NoCleanup(TryExcept(TRY_BODY, HANDLERS));
  }
}
