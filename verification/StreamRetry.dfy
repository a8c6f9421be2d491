/** The retrying stream of the gateway chat model.  Tokens are passed on as they
    arrive, so an attempt that has produced one must not be retried. */
module StreamRetry {
  import opened Options

  datatype Exn =
    | AppError(code: int)
    | GatewayError(retryable: bool)
    | Uncaught                          // cancellation and anything else

  /** A line of the gateway stream: whether the cancel event was set when it was
      looked at, the pieces it yields (none for a non-data line), whether it is
      the end marker, and a failure of the assembler on it. */
  datatype Line = Line(cancelled: bool, pieces: seq<string>, done: bool, fault: Option<Exn>)

  /** One attempt: its lines, how the transport ends after them, and how
      assembling the message ends. */
  datatype Attempt = Attempt(lines: seq<Line>, end: Option<Exn>, finish: Option<Exn>)

  datatype Chunk = Piece(attempt: nat, text: string) | AssembledStep(attempt: nat)

  datatype Outcome = Finished | Raised(e: Exn) | EmptyStream

  /** Codes of SERVICE_UNAVAILABLE, GATEWAY_QUOTA_OR_RATE_LIMITED and
      GATEWAY_SUBMIT_ERROR; the table itself is a parameter. */
  type Codes = set<int>

  predicate Retryable(e: Exn, codes: Codes) {
    match e
    case AppError(code) => code in codes
    case GatewayError(r) => r
    case Uncaught => false
  }

  /** What an attempt yields from line i on, and the fault it ends with. */
  function Play(a: Attempt, i: nat): (seq<string>, Option<Exn>)
    requires i <= |a.lines|
    decreases |a.lines| - i
  {
    if i == |a.lines| then ([], if a.end.Some? then a.end else a.finish)
    else
      var l := a.lines[i];
      if l.cancelled then ([], a.finish)
      else if l.fault.Some? then ([], l.fault)
      else if l.done then (l.pieces, a.finish)
      else
        var (rest, f) := Play(a, i + 1);
        (l.pieces + rest, f)
  }

  predicate Stops(l: Line) {
    l.cancelled || l.fault.Some? || l.done
  }

  /** Line n is the first that ends the attempt, or there is none. */
  ghost predicate StopsAt(a: Attempt, n: nat) {
    && n <= |a.lines| && (forall j :: 0 <= j < n ==> !Stops(a.lines[j]))
    && (n < |a.lines| ==> Stops(a.lines[n]))
  }

  /** The pieces of these lines, one after the other. */
  function Joined(lines: seq<Line>): seq<string> {
    if lines == [] then [] else Joined(lines[..|lines| - 1]) + lines[|lines| - 1].pieces
  }

  /** An attempt yields the pieces of the lines before the one that ends it, and
      those of the end marker.  It fails with what the assembler says about that
      line, or, if no line ends it, with what the transport ends with; in any other
      case only assembling the message can fail. */
  lemma AttemptIsExact(a: Attempt, n: nat)
    requires StopsAt(a, n)
    ensures var (texts, fault) := Play(a, 0);
            if n == |a.lines| then
              texts == Joined(a.lines) && fault == if a.end.Some? then a.end else a.finish
            else if a.lines[n].cancelled then texts == Joined(a.lines[..n]) && fault == a.finish
            else if a.lines[n].fault.Some? then texts == Joined(a.lines[..n]) && fault == a.lines[n].fault
            else texts == Joined(a.lines[..n]) + a.lines[n].pieces && fault == a.finish
  {
    PlayFrom(a, 0, n);
    assert a.lines[..0] == [] && a.lines[..|a.lines|] == a.lines;
    assert Joined([]) + Play(a, 0).0 == Play(a, 0).0;
  }

  lemma {:induction false} PlayFrom(a: Attempt, i: nat, n: nat)
    requires StopsAt(a, n) && i <= n
    ensures var (texts, fault) := Play(a, n);
            (Joined(a.lines[..i]) + Play(a, i).0, Play(a, i).1) == (Joined(a.lines[..n]) + texts, fault)
    ensures n < |a.lines| || Play(a, n).0 == []
    decreases n - i
  {
    if i < n {
      PlayFrom(a, i + 1, n);
      var l := a.lines[i];
      assert a.lines[..i + 1][..i] == a.lines[..i];
      assert Joined(a.lines[..i + 1]) == Joined(a.lines[..i]) + l.pieces;
      var rest := Play(a, i + 1).0;
      assert Joined(a.lines[..i]) + (l.pieces + rest) == Joined(a.lines[..i]) + l.pieces + rest;
    }
  }

  function Pieces(k: nat, texts: seq<string>): seq<Chunk> {
    seq(|texts|, i requires 0 <= i < |texts| => Piece(k, texts[i]))
  }

  /** The attempt failed, may be retried, and has shown the user nothing. */
  predicate Silent(a: Attempt, codes: Codes) {
    var (texts, fault) := Play(a, 0);
    texts == [] && fault.Some? && Retryable(fault.value, codes)
  }

  /** Attempt m is the one whose output counts: all before it failed silently,
      and it either did not, or was the last one allowed. */
  ghost predicate Decisive(script: nat -> Attempt, retries: int, codes: Codes, m: nat) {
    && 1 <= m <= retries + 1
    && (forall j :: 1 <= j < m ==> Silent(script(j), codes))
    && (m == retries + 1 || !Silent(script(m), codes))
  }

  /** Everything yielded comes from the decisive attempt, and a run that raises
      nothing ends with exactly one assembled step. */
  ghost predicate Delivers(script: nat -> Attempt, m: nat, out: seq<Chunk>, o: Outcome) {
    var (texts, fault) := Play(script(m), 0);
    match fault
    case None => o == Finished && out == Pieces(m, texts) + [AssembledStep(m)]
    case Some(e) => o == Raised(e) && out == Pieces(m, texts)
  }

  lemma PiecesAppend(k: nat, a: seq<string>, b: seq<string>)
    ensures Pieces(k, a + b) == Pieces(k, a) + Pieces(k, b)
  {
  }

  /** The pieces of one line. */
  method YieldPieces(pieces: seq<string>, k: nat, before: seq<Chunk>, any: bool)
    returns (out: seq<Chunk>, streamedAny: bool)
    ensures out == before + Pieces(k, pieces) && (streamedAny <==> any || pieces != [])
  {
    out, streamedAny := before, any;
    for j := 0 to |pieces|
      invariant out == before + Pieces(k, pieces[..j]) && (streamedAny <==> any || j > 0)
    {
      streamedAny := true;
      PiecesAppend(k, pieces[..j], [pieces[j]]);
      assert pieces[..j + 1] == pieces[..j] + [pieces[j]];
      out := out + [Piece(k, pieces[j])];
    }
    assert pieces[..|pieces|] == pieces;
  }

  /** Line i lets the attempt go on: its pieces come next. */
  lemma NextLine(a: Attempt, i: nat, texts: seq<string>, before: seq<Chunk>, k: nat)
    requires i < |a.lines| && !a.lines[i].cancelled && a.lines[i].fault == None
    ensures var l := a.lines[i];
            && before + Pieces(k, texts) + Pieces(k, l.pieces) == before + Pieces(k, texts + l.pieces)
            && (texts + Play(a, i).0, Play(a, i).1) ==
               if l.done then (texts + l.pieces, a.finish) else (texts + l.pieces + Play(a, i + 1).0, Play(a, i + 1).1)
  {
    var l := a.lines[i];
    PiecesAppend(k, texts, l.pieces);
    if !l.done {
      var rest := Play(a, i + 1).0;
      assert texts + (l.pieces + rest) == texts + l.pieces + rest;
    }
    hide Pieces;
    assert before + (Pieces(k, texts) + Pieces(k, l.pieces)) == before + Pieces(k, texts) + Pieces(k, l.pieces);
  }

  /** The attempt is over before line i yields anything. */
  lemma NoLine(a: Attempt, i: nat, texts: seq<string>)
    requires i <= |a.lines| && (i < |a.lines| ==> a.lines[i].cancelled || a.lines[i].fault.Some?)
    ensures (texts + Play(a, i).0, Play(a, i).1) ==
            (texts, if i == |a.lines| then (if a.end.Some? then a.end else a.finish)
                    else if a.lines[i].cancelled then a.finish else a.lines[i].fault)
  {
    assert texts + [] == texts;
  }

  /** One attempt: stream its lines into `out`. */
  method PlayAttempt(a: Attempt, k: nat, before: seq<Chunk>)
    returns (out: seq<Chunk>, streamedAny: bool, fault: Option<Exn>)
    ensures out == before + Pieces(k, Play(a, 0).0)
    ensures streamedAny <==> Play(a, 0).0 != []
    ensures fault == Play(a, 0).1
  {
    out, streamedAny := before, false;
    ghost var texts: seq<string> := [];
    var i := 0;
    assert texts + Play(a, 0).0 == Play(a, 0).0;
    assert before + Pieces(k, []) == before;
    hide Play, Pieces;
    while i < |a.lines|
      invariant 0 <= i <= |a.lines|
      invariant out == before + Pieces(k, texts) && (streamedAny <==> texts != [])
      invariant Play(a, 0) == (texts + Play(a, i).0, Play(a, i).1)
    {
      var l := a.lines[i];
      if l.cancelled {
        NoLine(a, i, texts);
        return out, streamedAny, a.finish;
      }
      if l.fault.Some? {
        NoLine(a, i, texts);
        return out, streamedAny, l.fault;
      }
      NextLine(a, i, texts, before, k);
      out, streamedAny := YieldPieces(l.pieces, k, out, streamedAny);
      if l.done {
        return out, streamedAny, a.finish;
      }
      texts := texts + l.pieces;
      i := i + 1;
    }
    NoLine(a, i, texts);
    fault := if a.end.Some? then a.end else a.finish;
  }

  /** `_astream`: the attempt loop and the final chunk. */
  method Stream(retries: int, script: nat -> Attempt, codes: Codes)
    returns (out: seq<Chunk>, o: Outcome, attempts: nat)
    ensures retries >= 0 ==> Decisive(script, retries, codes, attempts) && Delivers(script, attempts, out, o)
    ensures retries < 0 ==> out == [] && o == EmptyStream && attempts == 0
  {
    out, attempts := [], 0;
    var assembled := false;
    while attempts < retries + 1
      invariant !assembled && out == [] && attempts <= (if retries >= 0 then retries + 1 else 0)
      invariant forall j :: 1 <= j <= attempts ==> Silent(script(j), codes)
      invariant attempts > 0 ==> attempts < retries + 1
      decreases retries + 1 - attempts
    {
      attempts := attempts + 1;
      var streamedAny, fault;
      out, streamedAny, fault := PlayAttempt(script(attempts), attempts, out);
      assert [] + Pieces(attempts, Play(script(attempts), 0).0) == Pieces(attempts, Play(script(attempts), 0).0);
      if fault == None {
        assembled := true;
        break;
      }
      var retryable := Retryable(fault.value, codes) && !streamedAny && attempts < retries + 1;
      if !retryable {
        return out, Raised(fault.value), attempts;
      }
    }
    if !assembled {
      // Reached only when no attempt was allowed at all.
      return out, EmptyStream, attempts;
    }
    out := out + [AssembledStep(attempts)];
    o := Finished;
  }

  // ----- What callers rely on -----

  /** The decisive attempt is unique, so the number of attempts is determined. */
  lemma DecisiveIsUnique(script: nat -> Attempt, retries: int, codes: Codes, m: nat, n: nat)
    requires Decisive(script, retries, codes, m) && Decisive(script, retries, codes, n)
    ensures m == n
  {
  }

  /** It exists whenever retries is not negative, and is the first attempt that is
      not silent, capped by the budget. */
  lemma {:induction false} DecisiveExists(script: nat -> Attempt, retries: int, codes: Codes, k: nat) returns (m: nat)
    requires 1 <= k <= retries + 1 && forall j :: 1 <= j < k ==> Silent(script(j), codes)
    ensures k <= m && Decisive(script, retries, codes, m)
    decreases retries + 1 - k
  {
    if k == retries + 1 || !Silent(script(k), codes) {
      m := k;
    } else {
      m := DecisiveExists(script, retries, codes, k + 1);
    }
  }

  /** All token pieces come from one attempt; an assembled step appears iff the
      run raises nothing, and then once, at the end. */
  lemma OutputShape(script: nat -> Attempt, m: nat, out: seq<Chunk>, o: Outcome)
    requires Delivers(script, m, out, o)
    ensures forall i :: 0 <= i < |out| ==> out[i].attempt == m
    ensures forall i :: 0 <= i < |out| && out[i].AssembledStep? ==> i == |out| - 1
    ensures o == Finished <==> out != [] && out[|out| - 1].AssembledStep?
    ensures o != EmptyStream
  {
  }

  /** The attempt has yielded nothing and failed with a listed application error or
      a gateway error that says so. */
  ghost predicate MayRepeat(a: Attempt, codes: Codes) {
    var (texts, fault) := Play(a, 0);
    && texts == []
    && ((exists code :: fault == Some(AppError(code)) && code in codes) || fault == Some(GatewayError(true)))
  }

  /** Attempt j is followed by another exactly when the budget allows one more and
      it and all before it may be repeated: a cancellation, an error of another kind
      or a token shown ends the retries at once. */
  lemma RetriesExactly(script: nat -> Attempt, retries: int, codes: Codes, m: nat, j: nat)
    requires Decisive(script, retries, codes, m) && 1 <= j
    ensures j < m <==> j <= retries && forall i :: 1 <= i <= j ==> MayRepeat(script(i), codes)
  {
    hide Play;
    forall i: nat
      ensures MayRepeat(script(i), codes) <==> Silent(script(i), codes)
    {
      SilentMeans(script(i), codes);
    }
    hide Silent, MayRepeat;
    assert m <= j <= retries ==> !MayRepeat(script(m), codes);
  }

  lemma SilentMeans(a: Attempt, codes: Codes)
    ensures MayRepeat(a, codes) <==> Silent(a, codes)
  {
    hide Play;
  }

  /** A run that has shown the user a token is never retried: every attempt
      before the decisive one produced nothing. */
  lemma NothingIsShownTwice(script: nat -> Attempt, retries: int, codes: Codes, m: nat, j: nat)
    requires Decisive(script, retries, codes, m) && 1 <= j <= retries + 1 && Play(script(j), 0).0 != []
    ensures m <= j
  {
    assert !Silent(script(j), codes);
  }
}
