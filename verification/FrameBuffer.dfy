/** The publisher's buffer of answer tokens.  Tokens are held back and joined; a
    full buffer, a timer, any other frame or the close flushes them into the replay
    log.  The results say when a reader of the log sees exactly what was published,
    over every interleaving with the timer and every failure of the store. */
module FrameBuffer {
  import opened Options
  import opened ReplayProgram

  /** A published frame: a piece of the answer, or any other frame. */
  datatype Item = Delta(text: string) | Whole(frame: Frame)

  /** The publisher: held-back texts, the armed timer, a failure of the timer's
      flush that nobody has seen yet, and the log in the store. */
  datatype Buffer = Buffer(
    parts: seq<string>, timer: bool, flushError: Option<Exn>,
    terminal: Option<Status>, pending: bool, log: seq<Item>)

  function Join(parts: seq<string>): string {
    if parts == [] then "" else Join(parts[..|parts| - 1]) + parts[|parts| - 1]
  }

  /** `_flush_locked`: the texts leave the buffer before the append, so a failed
      append loses them. */
  function Flush(b: Buffer, fault: Option<Exn>): (Buffer, Option<Exn>) {
    var emptied := b.(parts := [], timer := false);
    if b.parts == [] then (emptied, None)
    else if fault.Some? then (emptied, fault)
    else (emptied.(log := b.log + [Delta(Join(b.parts))]), None)
  }

  /** `_flush_after_delay`, when its lock is free: an ordinary failure is kept for
      the next caller, a cancellation is swallowed. */
  function TimerFlush(b: Buffer, fault: Option<Exn>): Buffer {
    var (b', e) := Flush(b, fault);
    if !b.timer then b
    else if e.Some? && e != Some(TaskCancelled) then b'.(flushError := e)
    else b'
  }

  /** `publish` with the lock held. */
  function Put(b: Buffer, x: Item, maxChars: int, flushFault: Option<Exn>, appendFault: Option<Exn>)
    : (Buffer, Option<Exn>)
  {
    match x
    case Delta(t) =>
      var longer := b.(parts := b.parts + [t]);
      if |Join(longer.parts)| >= maxChars then Flush(longer, flushFault) else (longer.(timer := true), None)
    case Whole(f) =>
      var (b', e) := Flush(b, flushFault);
      if e.Some? then (b', e)
      else if appendFault.Some? then (b', appendFault)
      else (b'.(log := b'.log + [x], terminal := TerminalOf(f), pending := b.pending || f == Pending), None)
  }

  function Close(b: Buffer, fault: Option<Exn>): (Buffer, Option<Exn>) {
    var (b', e) := Flush(b, fault);
    if e.Some? then (b', e) else (b'.(flushError := None), b'.flushError)
  }

  /** `append_failure`: a log that is full for the held-back texts still takes the
      error frame. */
  function Announce(b: Buffer, flushFault: Option<Exn>, appendFault: Option<Exn>): (Buffer, Option<Exn>) {
    var (b', e) := Flush(b, flushFault);
    if e !in {None, Some(LogLimit)} then (b', e)
    else if appendFault.Some? then (b', appendFault)
    else (b'.(log := b'.log + [Whole(ErrorFrame)], terminal := Some(Failed)), None)
  }

  class BufferedPublisher {
    const maxChars: int
    var parts: seq<string>
    var chars: int
    var timer: bool
    var flushError: Option<Exn>
    var terminal: Option<Status>
    var sawPending: bool
    var log: seq<Item>

    ghost predicate Valid()
      reads this
    {
      chars == |Join(parts)|
    }

    function State(): Buffer
      reads this
    {
      Buffer(parts, timer, flushError, terminal, sawPending, log)
    }

    constructor (maxChars: int)
      ensures Valid() && this.maxChars == maxChars && State() == EMPTY
    {
      this.maxChars := maxChars;
      parts, chars, timer, flushError, terminal, sawPending, log := [], 0, false, None, None, false, [];
    }

    method FlushLocked(fault: Option<Exn>) returns (raised: Option<Exn>)
      requires Valid()
      modifies this
      ensures Valid() && (State(), raised) == Flush(old(State()), fault)
    {
      timer := false;
      if parts == [] {
        return None;
      }
      var text := Join(parts);
      parts, chars := [], 0;
      if fault == None {
        log := log + [Delta(text)];
      }
      return fault;
    }

    /** The delayed task; the lock is free when it flushes. */
    method FlushAfterDelay(fault: Option<Exn>)
      requires Valid()
      modifies this
      ensures Valid() && State() == TimerFlush(old(State()), fault)
    {
      if timer {
        var raised := FlushLocked(fault);
        if raised.Some? && raised.value != TaskCancelled {
          flushError := raised;
        }
      }
    }

    /** `race`: whether the timer flushes between the first test and the lock, and
        how that ends. */
    method Publish(x: Item, race: Option<Option<Exn>>, flushFault: Option<Exn>, appendFault: Option<Exn>)
      returns (raised: Option<Exn>)
      requires Valid()
      modifies this
      ensures Valid()
      ensures old(flushError).Some? ==>
                raised == old(flushError) && State() == old(State()).(flushError := None)
      ensures old(flushError) == None && old(terminal).Some? ==> raised == None && State() == old(State())
      ensures old(flushError) == None && old(terminal) == None ==>
                var b := if race.Some? then TimerFlush(old(State()), race.value) else old(State());
                (State(), raised) == Put(b, x, maxChars, flushFault, appendFault)
    {
      if flushError.Some? {
        raised := flushError;
        flushError := None;
        return;
      }
      if terminal.Some? {
        return None;
      }
      if race.Some? {
        FlushAfterDelay(race.value);
      }
      raised := PublishLocked(x, flushFault, appendFault);
    }

    method PublishLocked(x: Item, flushFault: Option<Exn>, appendFault: Option<Exn>) returns (raised: Option<Exn>)
      requires Valid()
      modifies this
      ensures Valid() && (State(), raised) == Put(old(State()), x, maxChars, flushFault, appendFault)
    {
      hide Join;
      match x
      case Delta(text) =>
        JoinSnoc(parts, text);
        parts, chars := parts + [text], chars + |text|;
        if chars >= maxChars {
          raised := FlushLocked(flushFault);
        } else {
          timer := true;
          raised := None;
        }
      case Whole(f) =>
        raised := FlushLocked(flushFault);
        if raised == None {
          raised := appendFault;
          if raised == None {
            log := log + [x];
            sawPending := sawPending || f == Pending;
            terminal := TerminalOf(f);
          }
        }
    }

    method CloseAll(fault: Option<Exn>) returns (raised: Option<Exn>)
      requires Valid()
      modifies this
      ensures Valid() && (State(), raised) == Close(old(State()), fault)
    {
      raised := FlushLocked(fault);
      if raised == None {
        raised := flushError;
        flushError := None;
      }
    }

    method AppendFailure(flushFault: Option<Exn>, appendFault: Option<Exn>) returns (raised: Option<Exn>)
      requires Valid()
      modifies this
      ensures Valid() && (State(), raised) == Announce(old(State()), flushFault, appendFault)
    {
      raised := FlushLocked(flushFault);
      if raised.Some? && raised.value != LogLimit {
        return;
      }
      raised := appendFault;
      if raised == None {
        log := log + [Whole(ErrorFrame)];
        terminal := Some(Failed);
      }
    }
  }

  const EMPTY := Buffer([], false, None, None, false, [])

  /** The failure is announced exactly when its frame can be appended and nothing
      but a full log stands in the way of the held-back texts.  Then it is the last
      frame of the log, behind the texts unless they did not fit, and the log is
      closed as failed; otherwise no frame but the texts is added.  The texts leave
      the buffer in any case. */
  lemma AnnounceIsExact(b: Buffer, flushFault: Option<Exn>, appendFault: Option<Exn>)
    ensures var (b', e) := Announce(b, flushFault, appendFault);
            var texts := if b.parts != [] && flushFault == None then [Delta(Join(b.parts))] else [];
            var stuck := b.parts != [] && flushFault !in {None, Some(LogLimit)};
            && b'.parts == [] && !b'.timer && b'.flushError == b.flushError && b'.pending == b.pending
            && (e == None <==> !stuck && appendFault == None)
            && e == (if stuck then flushFault else appendFault)
            && (e == None ==> b'.log == b.log + texts + [Whole(ErrorFrame)] && b'.terminal == Some(Failed))
            && (e.Some? ==> b'.log == b.log + texts && b'.terminal == b.terminal)
  {
    hide Join;
  }

  // ----- What a reader sees -----

  datatype Atom = Char(c: char) | Mark(frame: Frame)

  function Chars(t: string): seq<Atom> {
    if t == "" then [] else Chars(t[..|t| - 1]) + [Char(t[|t| - 1])]
  }

  /** The answer's characters and the other frames in order; how the characters
      were cut into tokens is forgotten. */
  function Flat(xs: seq<Item>): seq<Atom> {
    if xs == [] then []
    else
      var x := xs[|xs| - 1];
      Flat(xs[..|xs| - 1]) + if x.Delta? then Chars(x.text) else [Mark(x.frame)]
  }

  function FrameOf(x: Item): Frame {
    if x.Delta? then Plain else x.frame
  }

  /** The unbuffered publisher of the executor, on the same frames. */
  function Observed(xs: seq<Item>): Seen {
    if xs == [] then NOTHING else Observe(Observed(xs[..|xs| - 1]), FrameOf(xs[|xs| - 1]))
  }

  /** The frames up to and including the first terminal one. */
  function Kept(xs: seq<Item>): seq<Item> {
    if xs == [] then []
    else if Observed(xs[..|xs| - 1]).terminal.Some? then Kept(xs[..|xs| - 1])
    else xs
  }

  lemma JoinSnoc(parts: seq<string>, t: string)
    ensures Join(parts + [t]) == Join(parts) + t
  {
    assert (parts + [t])[..|parts|] == parts;
  }

  lemma {:induction false} CharsAppend(a: string, b: string)
    ensures Chars(a + b) == Chars(a) + Chars(b)
    decreases |b|
  {
    if b == "" {
      assert a + b == a;
    } else {
      assert (a + b)[..|a + b| - 1] == a + b[..|b| - 1];
      CharsAppend(a, b[..|b| - 1]);
    }
  }

  lemma {:induction false} CharsLength(t: string)
    ensures |Chars(t)| == |t|
  {
    if t != "" {
      CharsLength(t[..|t| - 1]);
    }
  }

  lemma FlatSnoc(xs: seq<Item>, x: Item)
    ensures Flat(xs + [x]) == Flat(xs) + if x.Delta? then Chars(x.text) else [Mark(x.frame)]
  {
    assert (xs + [x])[..|xs|] == xs;
  }

  lemma ObservedSnoc(xs: seq<Item>, x: Item)
    ensures Observed(xs + [x]) == Observe(Observed(xs), FrameOf(x))
    ensures Kept(xs + [x]) == if Observed(xs).terminal.Some? then Kept(xs) else xs + [x]
  {
    assert (xs + [x])[..|xs|] == xs;
  }

  lemma {:induction false} KeptAll(xs: seq<Item>)
    ensures Observed(xs).terminal == None ==> Kept(xs) == xs
    ensures Kept(xs) <= xs
  {
    if xs != [] {
      KeptAll(xs[..|xs| - 1]);
    }
  }

  // ----- Runs -----

  datatype Act =
    | Offer(item: Item)                                           // publish, up to the lock
    | Lock(flushFault: Option<Exn>, appendFault: Option<Exn>)     // publish, with the lock
    | Timer(fault: Option<Exn>)
    | Shut(fault: Option<Exn>)                                    // close

  /** One caller, which stops at the first exception.  `waiting` is a frame on its
      way to the lock; `lost` counts the characters that failed flushes dropped,
      `swallowed` those of cancelled timers. */
  datatype Session = Session(
    b: Buffer, waiting: Option<Item>, offered: seq<Item>, raised: Option<Exn>, closed: bool,
    lost: nat, swallowed: nat)

  const BEGIN := Session(EMPTY, None, [], None, false, 0, 0)

  function Dropped(parts: seq<string>, fault: Option<Exn>): nat {
    if fault.Some? then |Join(parts)| else 0
  }

  /** The texts that a put flushes. */
  function Flushed(b: Buffer, x: Item, maxChars: int): seq<string> {
    if x.Whole? then b.parts
    else if |Join(b.parts + [x.text])| >= maxChars then b.parts + [x.text]
    else []
  }

  function Next(s: Session, a: Act, maxChars: int): Session {
    match a
    case Offer(x) =>
      if s.closed || s.raised.Some? || s.waiting.Some? then s
      else if s.b.flushError.Some? then s.(raised := s.b.flushError, b := s.b.(flushError := None))
      else s.(offered := s.offered + [x], waiting := if s.b.terminal.Some? then None else Some(x))
    case Lock(flushFault, appendFault) =>
      if s.waiting == None || s.raised.Some? then s
      else
        var x := s.waiting.value;
        var (b, e) := Put(s.b, x, maxChars, flushFault, appendFault);
        s.(b := b, waiting := None, raised := e, lost := s.lost + Dropped(Flushed(s.b, x, maxChars), flushFault))
    case Timer(fault) =>
      if !s.b.timer then s
      else
        var gone := Dropped(s.b.parts, fault);
        s.(b := TimerFlush(s.b, fault), lost := s.lost + gone,
           swallowed := s.swallowed + if fault == Some(TaskCancelled) then gone else 0)
    case Shut(fault) =>
      if s.closed || s.raised.Some? || s.waiting.Some? then s
      else
        var (b, e) := Close(s.b, fault);
        s.(b := b, raised := e, closed := e == None, lost := s.lost + Dropped(s.b.parts, fault))
  }

  function Run(s: Session, acts: seq<Act>, maxChars: int): Session
    decreases |acts|
  {
    if acts == [] then s else Run(Next(s, acts[0], maxChars), acts[1..], maxChars)
  }

  /** The frames that have been through the lock. */
  function Settled(s: Session): seq<Item> {
    if s.waiting.Some? && s.offered != [] then s.offered[..|s.offered| - 1] else s.offered
  }

  /** Conservation: every character published is in the log, in the buffer or
      counted as lost; and if none is lost the log and the buffer hold them in
      order. */
  ghost predicate Accounts(b: Buffer, settled: seq<Item>, lost: nat) {
    && (b.terminal, b.pending) == (Observed(settled).terminal, Observed(settled).pending)
    && |Flat(b.log)| + |Join(b.parts)| + lost == |Flat(Kept(settled))|
    && (lost == 0 ==> Flat(b.log) + Chars(Join(b.parts)) == Flat(Kept(settled)))
  }

  ghost predicate Inv(s: Session) {
    && s.swallowed <= s.lost
    && (s.waiting.Some? ==>
          s.offered != [] && s.offered[|s.offered| - 1] == s.waiting.value && (s.raised.Some? || s.b.terminal == None))
    && (s.raised == None ==>
          && Accounts(s.b, Settled(s), s.lost)
          && (s.lost > s.swallowed ==> s.b.flushError.Some?))
    && (s.closed ==> s.waiting == None && s.raised == None && s.b.parts == [] && !s.b.timer && s.b.flushError == None)
  }

  lemma FlushAccounts(b: Buffer, settled: seq<Item>, lost: nat, fault: Option<Exn>)
    requires Accounts(b, settled, lost)
    ensures Accounts(Flush(b, fault).0, settled, lost + Dropped(b.parts, fault))
  {
    var t := Join(b.parts);
    FlatSnoc(b.log, Delta(t));
    CharsLength(t);
    assert Chars("") == [] && Join([]) == "";
    hide Flat, Kept, Observed, Chars;
  }

  /** A flush appends the held-back texts, or loses them. */
  lemma FlushIs(b: Buffer, fault: Option<Exn>)
    ensures var (b', e) := Flush(b, fault);
            && b' == b.(parts := [], timer := false, log := b'.log)
            && (e.Some? ==> b'.log == b.log && b.parts != [] && e == fault)
            && (e == None ==> Flat(b'.log) == Flat(b.log) + Chars(Join(b.parts)) && Dropped(b.parts, fault) == 0)
  {
    FlatSnoc(b.log, Delta(Join(b.parts)));
    assert Chars(Join([])) == [];
    hide Flat;
  }

  lemma HoldAccounts(b: Buffer, settled: seq<Item>, lost: nat, t: string, timer: bool)
    requires Accounts(b, settled, lost) && b.terminal == None
    ensures Accounts(b.(parts := b.parts + [t], timer := timer), settled + [Delta(t)], lost)
  {
    JoinSnoc(b.parts, t);
    CharsAppend(Join(b.parts), t);
    CharsLength(t);
    FlatSnoc(settled, Delta(t));
    ObservedSnoc(settled, Delta(t));
    KeptAll(settled);
    hide Flat, Kept, Observed, Chars, Join;
  }

  lemma WholeAccounts(b: Buffer, settled: seq<Item>, lost: nat, f: Frame)
    requires Accounts(b, settled, lost) && b.terminal == None && b.parts == []
    ensures Accounts(b.(log := b.log + [Whole(f)], terminal := TerminalOf(f), pending := b.pending || f == Pending),
                     settled + [Whole(f)], lost)
  {
    FlatSnoc(b.log, Whole(f));
    FlatSnoc(settled, Whole(f));
    ObservedSnoc(settled, Whole(f));
    KeptAll(settled);
    hide Flat, Kept, Observed;
  }

  lemma PutAccounts(b: Buffer, settled: seq<Item>, lost: nat, x: Item, maxChars: int, ff: Option<Exn>, af: Option<Exn>)
    requires Accounts(b, settled, lost) && b.terminal == None && Put(b, x, maxChars, ff, af).1 == None
    ensures Accounts(Put(b, x, maxChars, ff, af).0, settled + [x], lost)
    ensures Dropped(Flushed(b, x, maxChars), ff) == 0
  {
    match x
    case Delta(t) =>
      HoldAccounts(b, settled, lost, t, true);
      HoldAccounts(b, settled, lost, t, b.timer);
      var longer := b.(parts := b.parts + [t]);
      hide Accounts;
      FlushAccounts(longer, settled + [x], lost, None);
    case Whole(f) =>
      FlushAccounts(b, settled, lost, None);
      WholeAccounts(Flush(b, None).0, settled, lost, f);
      hide Accounts;
  }

  lemma OfferKeeps(s: Session, x: Item, maxChars: int)
    requires Inv(s)
    ensures Inv(Next(s, Offer(x), maxChars))
  {
    var s' := Next(s, Offer(x), maxChars);
    assert (s.offered + [x])[..|s.offered|] == s.offered;
    ObservedSnoc(s.offered, x);
    hide Flat, Kept, Observed, Chars, Join;
  }

  lemma LockKeeps(s: Session, ff: Option<Exn>, af: Option<Exn>, maxChars: int)
    requires Inv(s)
    ensures Inv(Next(s, Lock(ff, af), maxChars))
  {
    if s.waiting.Some? && s.raised == None {
      var x := s.waiting.value;
      assert s.offered == Settled(s) + [x];
      PutKeepsError(s.b, x, maxChars, ff, af);
      if Put(s.b, x, maxChars, ff, af).1 == None {
        PutAccounts(s.b, Settled(s), s.lost, x, maxChars, ff, af);
      }
      hide Accounts, Put, Flushed, Dropped;
    }
  }

  lemma TimerAccounts(b: Buffer, settled: seq<Item>, lost: nat, fault: Option<Exn>)
    requires Accounts(b, settled, lost) && b.timer
    ensures Accounts(TimerFlush(b, fault), settled, lost + Dropped(b.parts, fault))
  {
    FlushAccounts(b, settled, lost, fault);
    ErrorIsOutside(Flush(b, fault).0, settled, lost + Dropped(b.parts, fault), fault);
    FlushIs(b, fault);
    hide Accounts, Flush, Dropped;
  }

  /** Whatever a timer loses without being cancelled, it reports. */
  lemma TimerReports(b: Buffer, fault: Option<Exn>)
    requires b.timer
    ensures var b' := TimerFlush(b, fault);
            && (b.flushError.Some? ==> b'.flushError.Some?)
            && (Dropped(b.parts, fault) > 0 && fault != Some(TaskCancelled) ==> b'.flushError.Some?)
            && b'.terminal == b.terminal && b'.parts == []
  {
  }

  lemma TimerKeeps(s: Session, fault: Option<Exn>, maxChars: int)
    requires Inv(s)
    ensures Inv(Next(s, Timer(fault), maxChars))
  {
    if s.b.timer {
      TimerReports(s.b, fault);
      if s.raised == None {
        TimerAccounts(s.b, Settled(s), s.lost, fault);
      }
      hide Accounts, TimerFlush, Dropped;
    }
  }

  /** The bookkeeping does not look at the stored error. */
  lemma ErrorIsOutside(b: Buffer, settled: seq<Item>, lost: nat, e: Option<Exn>)
    requires Accounts(b, settled, lost)
    ensures Accounts(b.(flushError := e), settled, lost)
  {
  }

  lemma ShutKeeps(s: Session, fault: Option<Exn>, maxChars: int)
    requires Inv(s)
    ensures Inv(Next(s, Shut(fault), maxChars))
  {
    if s.raised == None {
      FlushAccounts(s.b, Settled(s), s.lost, fault);
      ErrorIsOutside(Flush(s.b, fault).0, Settled(s), s.lost + Dropped(s.b.parts, fault), None);
    }
    hide Accounts, Join;
  }

  lemma StepKeeps(s: Session, a: Act, maxChars: int)
    requires Inv(s)
    ensures Inv(Next(s, a, maxChars))
  {
    hide Inv, Next;
    match a
    case Offer(x) => OfferKeeps(s, x, maxChars);
    case Lock(ff, af) => LockKeeps(s, ff, af, maxChars);
    case Timer(fault) => TimerKeeps(s, fault, maxChars);
    case Shut(fault) => ShutKeeps(s, fault, maxChars);
  }

  lemma {:induction false} RunKeeps(s: Session, acts: seq<Act>, maxChars: int)
    requires Inv(s)
    ensures Inv(Run(s, acts, maxChars))
    decreases |acts|
  {
    if acts != [] {
      StepKeeps(s, acts[0], maxChars);
      RunKeeps(Next(s, acts[0], maxChars), acts[1..], maxChars);
    }
  }

  /** Over every interleaving with the timer and every failure of the store: a
      publisher that was closed without an exception has put into the log exactly
      what was published up to the first terminal frame, if and only if no timer
      was cancelled in the middle of a flush; and it remembers what the unbuffered
      publisher would. */
  lemma CleanCloseIsComplete(acts: seq<Act>, maxChars: int)
    requires Run(BEGIN, acts, maxChars).closed
    ensures var s := Run(BEGIN, acts, maxChars);
            && (Flat(s.b.log) == Flat(Kept(s.offered)) <==> s.swallowed == 0)
            && |Flat(s.b.log)| + s.swallowed == |Flat(Kept(s.offered))|
            && s.b.terminal == Observed(s.offered).terminal && s.b.pending == Observed(s.offered).pending
  {
    RunKeeps(BEGIN, acts, maxChars);
    var s := Run(BEGIN, acts, maxChars);
    assert Chars(Join([])) == [];
    hide Flat, Kept, Observed, Run;
  }

  // ----- No holes -----

  /** No timer's flush fails while a frame is on its way to the lock, and none is
      cancelled. */
  ghost predicate Orderly(s: Session, acts: seq<Act>, maxChars: int)
    decreases |acts|
  {
    acts != [] ==>
      && (acts[0].Timer? && acts[0].fault.Some? && s.b.timer && s.b.parts != [] ==>
            s.waiting == None && acts[0].fault != Some(TaskCancelled))
      && Orderly(Next(s, acts[0], maxChars), acts[1..], maxChars)
  }

  ghost predicate Gapless(s: Session) {
    && Flat(s.b.log) <= Flat(s.offered)
    && (s.raised == None && s.b.flushError == None ==> s.lost == 0)
    && (s.b.flushError.Some? ==> s.waiting == None && s.b.parts == [])
    && (s.raised.Some? ==> s.b.parts == [])
  }

  lemma {:induction false} FlatPrefix(xs: seq<Item>, ys: seq<Item>)
    requires xs <= ys
    ensures Flat(xs) <= Flat(ys)
    decreases |ys|
  {
    if xs != ys {
      var m := |ys| - 1;
      FlatPrefix(xs, ys[..m]);
    }
  }

  /** While nothing is lost the log is what a prefix of the offered frames says. */
  lemma LosslessIsPrefix(s: Session)
    requires Inv(s) && s.raised == None && s.lost == 0
    ensures Flat(s.b.log) + Chars(Join(s.b.parts)) <= Flat(s.offered)
  {
    KeptAll(Settled(s));
    FlatPrefix(Kept(Settled(s)), s.offered);
  }

  /** A put that raises has appended the held-back texts at most. */
  lemma FailedPut(b: Buffer, x: Item, maxChars: int, ff: Option<Exn>, af: Option<Exn>)
    requires Put(b, x, maxChars, ff, af).1.Some?
    ensures var b' := Put(b, x, maxChars, ff, af).0;
            && b'.parts == [] && b'.flushError == b.flushError
            && Flat(b'.log) in {Flat(b.log), Flat(b.log) + Chars(Join(b.parts))}
  {
    FlatSnoc(b.log, Delta(Join(b.parts)));
    hide Flat, Join, Chars;
  }

  lemma LockStaysGapless(s: Session, ff: Option<Exn>, af: Option<Exn>, maxChars: int)
    requires Inv(s) && Gapless(s)
    ensures Gapless(Next(s, Lock(ff, af), maxChars))
  {
    if s.waiting.Some? && s.raised == None {
      var s', x := Next(s, Lock(ff, af), maxChars), s.waiting.value;
      LosslessIsPrefix(s);
      LockKeeps(s, ff, af, maxChars);
      if s'.raised.Some? {
        FailedPut(s.b, x, maxChars, ff, af);
      } else {
        PutAccounts(s.b, Settled(s), s.lost, x, maxChars, ff, af);
        PutKeepsError(s.b, x, maxChars, ff, af);
        LosslessIsPrefix(s');
      }
      hide Inv, Flat, Put, Chars, Join, Flushed, Dropped;
    }
  }

  lemma PutKeepsError(b: Buffer, x: Item, maxChars: int, ff: Option<Exn>, af: Option<Exn>)
    ensures Put(b, x, maxChars, ff, af).0.flushError == b.flushError
  {
  }

  lemma OfferStaysGapless(s: Session, x: Item, maxChars: int)
    requires Gapless(s)
    ensures Gapless(Next(s, Offer(x), maxChars))
  {
    FlatPrefix(s.offered, s.offered + [x]);
    hide Flat;
  }

  lemma TimerStaysGapless(s: Session, fault: Option<Exn>, maxChars: int)
    requires Inv(s) && Gapless(s)
    requires fault.Some? && s.b.timer && s.b.parts != [] ==> s.waiting == None && fault != Some(TaskCancelled)
    ensures Gapless(Next(s, Timer(fault), maxChars))
  {
    FlushIs(s.b, fault);
    assert Chars(Join([])) == [];
    if s.raised == None && s.lost == 0 {
      LosslessIsPrefix(s);
    }
    hide Inv, Flat, Flush, Join, Chars, Dropped;
  }

  lemma ShutStaysGapless(s: Session, fault: Option<Exn>, maxChars: int)
    requires Inv(s) && Gapless(s)
    ensures Gapless(Next(s, Shut(fault), maxChars))
  {
    FlushIs(s.b, fault);
    assert Chars(Join([])) == [];
    if s.raised == None && s.lost == 0 {
      LosslessIsPrefix(s);
    }
    hide Inv, Flat, Flush, Join, Chars, Dropped;
  }

  lemma {:induction false} RunStaysGapless(s: Session, acts: seq<Act>, maxChars: int)
    requires Inv(s) && Gapless(s) && Orderly(s, acts, maxChars)
    ensures Gapless(Run(s, acts, maxChars))
    decreases |acts|
  {
    if acts != [] {
      match acts[0] {
        case Offer(x) => OfferStaysGapless(s, x, maxChars);
        case Lock(ff, af) => LockStaysGapless(s, ff, af, maxChars);
        case Timer(fault) => TimerStaysGapless(s, fault, maxChars);
        case Shut(fault) => ShutStaysGapless(s, fault, maxChars);
      }
      StepKeeps(s, acts[0], maxChars);
      hide Inv, Next;
      RunStaysGapless(Next(s, acts[0], maxChars), acts[1..], maxChars);
    }
  }

  /** Over every orderly run, failed or not, the log never has a hole: it says a
      prefix of what was published. */
  lemma LogIsPrefix(acts: seq<Act>, maxChars: int)
    requires Orderly(BEGIN, acts, maxChars)
    ensures var s := Run(BEGIN, acts, maxChars); Flat(s.b.log) <= Flat(s.offered)
  {
    RunStaysGapless(BEGIN, acts, maxChars);
  }

  /** Otherwise it can: the timer's flush fails while the terminal frame waits for
      the lock, and the log is closed as completed without the answer.  The caller
      learns of the failure only from the close. */
  lemma AnswerIsMissing(t: string, maxChars: int, e: Exn)
    requires 0 < |t| < maxChars && e != TaskCancelled
    ensures var acts := [Offer(Delta(t)), Lock(None, None), Offer(Whole(DoneFrame)), Timer(Some(e)), Lock(None, None)];
            var s := Run(BEGIN, acts, maxChars);
            && s.b.log == [Whole(DoneFrame)] && s.b.terminal == Some(Completed) && s.raised == None
            && Next(s, Shut(None), maxChars).raised == Some(e)
  {
    assert Join([t]) == t by { JoinSnoc([], t); assert [] + [t] == [t]; }
    var s1 := BEGIN.(offered := [Delta(t)], waiting := Some(Delta(t)));
    var s2 := s1.(waiting := None, b := EMPTY.(parts := [t], timer := true));
    var s3 := s2.(waiting := Some(Whole(DoneFrame)), offered := [Delta(t), Whole(DoneFrame)]);
    var s4 := s3.(b := EMPTY.(flushError := Some(e)), lost := |t|);
    var s5 := s4.(waiting := None, b := s4.b.(log := [Whole(DoneFrame)], terminal := Some(Completed)));
    assert [] + [t] == [t];
    hide Join, Run;
    assert Next(BEGIN, Offer(Delta(t)), maxChars) == s1;
    assert Next(s1, Lock(None, None), maxChars) == s2;
    assert Next(s2, Offer(Whole(DoneFrame)), maxChars) == s3;
    assert Next(s3, Timer(Some(e)), maxChars) == s4;
    assert Next(s4, Lock(None, None), maxChars) == s5;
    var done := Offer(Whole(DoneFrame));
    RunFive(BEGIN, Offer(Delta(t)), Lock(None, None), done, Timer(Some(e)), Lock(None, None), maxChars);
  }

  lemma RunFive(s: Session, a: Act, b: Act, c: Act, d: Act, e: Act, m: int)
    ensures Run(s, [a, b, c, d, e], m) == Next(Next(Next(Next(Next(s, a, m), b, m), c, m), d, m), e, m)
  {
    hide Next;
    var s1, s2 := Next(s, a, m), Next(Next(s, a, m), b, m);
    var s3, s4 := Next(s2, c, m), Next(Next(s2, c, m), d, m);
    assert Run(s, [a, b, c, d, e], m) == Run(s1, [b, c, d, e], m);
    assert Run(s1, [b, c, d, e], m) == Run(s2, [c, d, e], m);
    assert Run(s2, [c, d, e], m) == Run(s3, [d, e], m);
    assert Run(s3, [d, e], m) == Run(s4, [e], m);
    assert Run(s4, [e], m) == Next(s4, e, m);
  }

  /** A timer cancelled during its flush loses the answer without any exception. */
  lemma CancelledTimerLosesAnswer(t: string, maxChars: int)
    requires 0 < |t| < maxChars
    ensures var acts := [Offer(Delta(t)), Lock(None, None), Timer(Some(TaskCancelled)), Shut(None), Shut(None)];
            var s := Run(BEGIN, acts, maxChars);
            s.closed && s.raised == None && s.offered == [Delta(t)] && s.b.log == []
  {
    assert Join([t]) == t by { JoinSnoc([], t); assert [] + [t] == [t]; }
    var s1 := BEGIN.(offered := [Delta(t)], waiting := Some(Delta(t)));
    var s2 := s1.(waiting := None, b := EMPTY.(parts := [t], timer := true));
    var s3 := s2.(b := EMPTY, lost := |t|, swallowed := |t|);
    assert [] + [t] == [t];
    hide Join, Run;
    assert Next(BEGIN, Offer(Delta(t)), maxChars) == s1;
    assert Next(s1, Lock(None, None), maxChars) == s2;
    assert Next(s2, Timer(Some(TaskCancelled)), maxChars) == s3;
    RunFive(BEGIN, Offer(Delta(t)), Lock(None, None), Timer(Some(TaskCancelled)), Shut(None), Shut(None), maxChars);
  }
}
