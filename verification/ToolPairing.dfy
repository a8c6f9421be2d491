/** Keeping the model's message history well formed.  The gateway requires every
    tool call to be answered, once and in order.  Two after-model hooks repair the
    steps that cannot be executed: calls whose arguments did not parse, and
    batches that mix a solo tool with other calls. */
module ToolPairing {
  import opened Options
  import opened JsonValues

  datatype ToolCall = ToolCall(id: string, name: string, args: Json)

  /** One call whose streamed arguments did not parse. */
  datatype Payload = Payload(callId: string, name: string, rawArguments: string, parseError: string)

  datatype Content =
    | InvalidArguments(parseError: string, preview: string)
    | BatchIsolation
    | Result(value: Json)

  datatype Message =
    | Human(text: string)
    | AI(text: string, calls: seq<ToolCall>, kwargs: Object)
    | Tool(callId: string, name: string, content: Content)

  const INVALID_KWARG := "invalid_tool_calls"

  const PREVIEW: nat := 200

  const SOLO_TOOLS := {"request_user_gate", "propose_upgrade_and_invite"}

  // ----- Well-paired histories -----

  /** These messages answer these calls, one each, in order. */
  ghost predicate Answers(calls: seq<ToolCall>, msgs: seq<Message>) {
    && |msgs| == |calls|
    && forall i :: 0 <= i < |calls| ==>
         msgs[i].Tool? && msgs[i].callId == calls[i].id && msgs[i].name == calls[i].name
  }

  /** Every AI message is followed at once by the answers to its calls, and no
      tool message stands anywhere else. */
  ghost predicate WellPaired(h: seq<Message>)
    decreases |h|
  {
    h == [] ||
    match h[0]
    case Human(_) => WellPaired(h[1..])
    case Tool(_, _, _) => false
    case AI(_, calls, _) =>
      |h| > |calls| && Answers(calls, h[1..1 + |calls|]) && WellPaired(h[1 + |calls|..])
  }

  lemma {:induction false} PairedAppend(a: seq<Message>, b: seq<Message>)
    requires WellPaired(a) && WellPaired(b)
    ensures WellPaired(a + b)
    decreases |a|
  {
    if a == [] {
      assert a + b == b;
    } else {
      var n := if a[0].AI? then 1 + |a[0].calls| else 1;
      assert (a + b)[n..] == a[n..] + b;
      assert a[0].AI? ==> (a + b)[1..n] == a[1..n];
      PairedAppend(a[n..], b);
    }
  }

  /** A step and its answers extend a well-paired history. */
  lemma StepPaired(h: seq<Message>, ai: Message, answers: seq<Message>)
    requires WellPaired(h) && ai.AI? && Answers(ai.calls, answers)
    ensures WellPaired(h + [ai] + answers)
  {
    var step := [ai] + answers;
    assert step[1..1 + |ai.calls|] == answers && step[1 + |ai.calls|..] == [];
    PairedAppend(h, step);
    assert h + [ai] + answers == h + step;
  }

  lemma ToolsStandBehindCalls(h: seq<Message>)
    requires WellPaired(h) && forall i :: 0 <= i < |h| ==> h[i].Tool?
    ensures h == []
  {
  }

  lemma PairedRest(h: seq<Message>)
    requires WellPaired(h) && h != []
    ensures var n := if h[0].AI? then 1 + |h[0].calls| else 1; n <= |h| && WellPaired(h[n..])
  {
    hide Answers;
  }

  /** Conversely, what follows a final AI step must be exactly its answers. */
  lemma {:induction false} PairedTail(h: seq<Message>, ai: Message, tail: seq<Message>)
    requires WellPaired(h) && ai.AI? && WellPaired(h + [ai] + tail)
    requires forall i :: 0 <= i < |tail| ==> tail[i].Tool?
    ensures Answers(ai.calls, tail)
    decreases |h|
  {
    if h == [] {
      assert h + [ai] + tail == [ai] + tail;
      PairedAlone(ai, tail);
    } else {
      var n := if h[0].AI? then 1 + |h[0].calls| else 1;
      PairedRest(h);
      PairedRest(h + [ai] + tail);
      hide WellPaired, Answers;
      BehindFront(h, ai, tail, n);
      PairedTail(h[n..], ai, tail);
    }
  }

  lemma BehindFront<T>(h: seq<T>, x: T, tail: seq<T>, n: nat)
    requires 0 < n <= |h|
    ensures (h + [x] + tail)[n..] == h[n..] + [x] + tail && (h + [x] + tail)[0] == h[0]
  {
  }

  lemma PairedStep(h: seq<Message>)
    requires WellPaired(h) && h != [] && h[0].AI?
    ensures var n := |h[0].calls|; |h| > n && Answers(h[0].calls, h[1..1 + n]) && WellPaired(h[1 + n..])
  {
    hide Answers;
  }

  lemma Behind<T>(x: T, tail: seq<T>, n: nat)
    requires n <= |tail|
    ensures ([x] + tail)[0] == x && ([x] + tail)[1..1 + n] == tail[..n] && ([x] + tail)[1 + n..] == tail[n..]
    ensures tail[n..] == [] ==> tail[..n] == tail
  {
  }

  lemma PairedAlone(ai: Message, tail: seq<Message>)
    requires ai.AI? && WellPaired([ai] + tail) && forall i :: 0 <= i < |tail| ==> tail[i].Tool?
    ensures Answers(ai.calls, tail)
  {
    PairedStep([ai] + tail);
    hide WellPaired, Answers;
    Behind(ai, tail, |ai.calls|);
    ToolsStandBehindCalls(tail[|ai.calls|..]);
  }

  // ----- Invalid calls through additional_kwargs -----

  function ToKwargs(p: Payload): Json {
    JObj(map["id" := JStr(p.callId), "name" := JStr(p.name),
             "args" := JStr(p.rawArguments), "error" := JStr(p.parseError)])
  }

  function FromKwargs(o: Object, show: Json -> string): Option<Payload> {
    var id, name := StrOr(Field(o, "id"), show), StrOr(Field(o, "name"), show);
    if id == "" || name == "" then None
    else Some(Payload(id, name, StrOr(Field(o, "args"), show), StrOr(Field(o, "error"), show)))
  }

  function EncodeAll(ps: seq<Payload>): seq<Json> {
    if ps == [] then [] else EncodeAll(ps[..|ps| - 1]) + [ToKwargs(ps[|ps| - 1])]
  }

  function DecodeAll(items: seq<Json>, show: Json -> string): seq<Payload> {
    if items == [] then []
    else
      var before, item := DecodeAll(items[..|items| - 1], show), items[|items| - 1];
      if item.JObj? && FromKwargs(item.fields, show).Some? then before + [FromKwargs(item.fields, show).value]
      else before
  }

  function InvalidCalls(kwargs: Object, show: Json -> string): seq<Payload> {
    if Field(kwargs, INVALID_KWARG).JArr? then DecodeAll(kwargs[INVALID_KWARG].items, show) else []
  }

  method ReadInvalidCalls(kwargs: Object, show: Json -> string) returns (out: seq<Payload>)
    ensures out == InvalidCalls(kwargs, show)
  {
    out := [];
    var raw := Field(kwargs, INVALID_KWARG);
    if !raw.JArr? {
      return;
    }
    for i := 0 to |raw.items|
      invariant out == DecodeAll(raw.items[..i], show)
    {
      assert raw.items[..i + 1][..i] == raw.items[..i];
      var item := raw.items[i];
      if item.JObj? {
        var parsed := FromKwargs(item.fields, show);
        if parsed.Some? {
          out := out + [parsed.value];
        }
      }
    }
    assert raw.items[..|raw.items|] == raw.items;
  }

  predicate Identified(p: Payload) {
    p.callId != "" && p.name != ""
  }

  function Surviving(ps: seq<Payload>): seq<Payload> {
    if ps == [] then []
    else if Identified(ps[|ps| - 1]) then Surviving(ps[..|ps| - 1]) + [ps[|ps| - 1]]
    else Surviving(ps[..|ps| - 1])
  }

  lemma DecodeOne(p: Payload, show: Json -> string)
    ensures FromKwargs(ToKwargs(p).fields, show) == if Identified(p) then Some(p) else None
  {
    assert |"id"| == 2 && |"name"| == 4 && |"error"| == 5 && "name"[0] == 'n' && "args"[0] == 'a';
  }

  /** Encoding and decoding loses exactly the payloads without id or name. */
  lemma {:induction false} DecodeEncode(ps: seq<Payload>, show: Json -> string)
    ensures DecodeAll(EncodeAll(ps), show) == Surviving(ps)
  {
    if ps != [] {
      var n := |ps| - 1;
      DecodeEncode(ps[..n], show);
      DecodeOne(ps[n], show);
      var e := EncodeAll(ps[..n]);
      assert (e + [ToKwargs(ps[n])])[..|e|] == e;
    }
  }

  lemma {:induction false} SurvivingIsAll(ps: seq<Payload>)
    ensures |Surviving(ps)| <= |ps|
    ensures |Surviving(ps)| == |ps| <==> forall i :: 0 <= i < |ps| ==> Identified(ps[i])
    ensures |Surviving(ps)| == |ps| ==> Surviving(ps) == ps
  {
    hide Identified;
    if ps != [] {
      var n := |ps| - 1;
      var prev := ps[..n];
      SurvivingIsAll(prev);
      assert ps == prev + [ps[n]];
      assert (forall i :: 0 <= i < |ps| ==> Identified(ps[i])) <==>
             (forall i :: 0 <= i < n ==> Identified(prev[i])) && Identified(ps[n]);
    }
  }

  /** Payloads survive the kwargs boundary unchanged iff all carry id and name. */
  lemma KwargsRoundTrip(ps: seq<Payload>, kwargs: Object, show: Json -> string)
    ensures InvalidCalls(kwargs[INVALID_KWARG := JArr(EncodeAll(ps))], show) == ps
            <==> forall i :: 0 <= i < |ps| ==> Identified(ps[i])
  {
    DecodeEncode(ps, show);
    SurvivingIsAll(ps);
  }

  lemma {:induction false} DecodedAreIdentified(items: seq<Json>, show: Json -> string)
    ensures forall i :: 0 <= i < |DecodeAll(items, show)| ==> Identified(DecodeAll(items, show)[i])
  {
    if items != [] {
      DecodedAreIdentified(items[..|items| - 1], show);
    }
  }

  // ----- InvalidToolArgsMiddleware.after_model -----

  function ErrorFor(p: Payload): Message {
    Tool(p.callId, p.name,
         InvalidArguments(p.parseError,
                          if |p.rawArguments| <= PREVIEW then p.rawArguments else p.rawArguments[..PREVIEW]))
  }

  function ErrorsFor(ps: seq<Payload>): seq<Message> {
    seq(|ps|, i requires 0 <= i < |ps| => ErrorFor(ps[i]))
  }

  function StubsFor(ps: seq<Payload>): seq<ToolCall> {
    seq(|ps|, i requires 0 <= i < |ps| => ToolCall(ps[i].callId, ps[i].name, JObj(map[])))
  }

  method SynthesizeInvalidErrors(ps: seq<Payload>) returns (out: seq<Message>)
    ensures out == ErrorsFor(ps)
  {
    out := [];
    for i := 0 to |ps|
      invariant |out| == i && forall k :: 0 <= k < i ==> out[k] == ErrorFor(ps[k])
    {
      out := out + [ErrorFor(ps[i])];
    }
  }

  /** The new history, or None when the hook does not fire. */
  function InvalidArgsHook(h: seq<Message>, show: Json -> string): Option<seq<Message>> {
    if h == [] || !h[|h| - 1].AI? || h[|h| - 1].calls != [] then None
    else
      var last := h[|h| - 1];
      var invalid := InvalidCalls(last.kwargs, show);
      if invalid == [] then None
      else Some(h[..|h| - 1] + [AI(last.text, StubsFor(invalid), last.kwargs - {INVALID_KWARG})] + ErrorsFor(invalid))
  }

  // ----- GateSoloBatchMiddleware.after_model -----

  predicate BatchViolation(calls: seq<ToolCall>) {
    if calls == [] then false
    else if !exists i :: 0 <= i < |calls| && calls[i].name in SOLO_TOOLS then false
    else if |calls| != 1 then true
    else calls[0].name !in SOLO_TOOLS
  }

  /** The last branch of the check never says yes: a batch is refused iff it
      holds a solo tool and at least two calls. */
  lemma BatchViolationIs(calls: seq<ToolCall>)
    ensures BatchViolation(calls) <==> |calls| >= 2 && exists i :: 0 <= i < |calls| && calls[i].name in SOLO_TOOLS
  {
  }

  /** The calls of the latest AI message, if it has any. */
  function LatestCalls(h: seq<Message>): seq<ToolCall> {
    if h == [] then []
    else if h[|h| - 1].AI? then h[|h| - 1].calls
    else LatestCalls(h[..|h| - 1])
  }

  method LastAiCalls(h: seq<Message>) returns (calls: seq<ToolCall>)
    ensures calls == LatestCalls(h)
  {
    var idx := |h| - 1;
    assert h[..|h|] == h;
    while idx >= 0
      invariant -1 <= idx < |h|
      invariant LatestCalls(h) == LatestCalls(h[..idx + 1])
    {
      var prefix := h[..idx + 1];
      assert prefix[|prefix| - 1] == h[idx] && prefix[..idx] == h[..idx];
      if h[idx].AI? {
        return h[idx].calls;
      }
      idx := idx - 1;
    }
    return [];
  }

  function BatchErrors(calls: seq<ToolCall>): seq<Message> {
    if calls == [] then []
    else
      var before, c := BatchErrors(calls[..|calls| - 1]), calls[|calls| - 1];
      if c.id == "" then before else before + [Tool(c.id, c.name, BatchIsolation)]
  }

  method SynthesizeBatchErrors(calls: seq<ToolCall>) returns (out: seq<Message>)
    ensures out == BatchErrors(calls)
  {
    out := [];
    for i := 0 to |calls|
      invariant out == BatchErrors(calls[..i])
    {
      assert calls[..i + 1][..i] == calls[..i];
      if calls[i].id != "" {
        out := out + [Tool(calls[i].id, calls[i].name, BatchIsolation)];
      }
    }
    assert calls[..|calls|] == calls;
  }

  /** The history after the hook, or None when it does not fire; firing without
      any error message leaves the history as it is. */
  function GateSoloHook(h: seq<Message>): Option<seq<Message>> {
    var calls := LatestCalls(h);
    if !BatchViolation(calls) then None else Some(h + BatchErrors(calls))
  }

  // ----- Pairing -----

  lemma {:induction false} BatchErrorsAnswer(calls: seq<ToolCall>)
    ensures |BatchErrors(calls)| <= |calls|
    ensures forall i :: 0 <= i < |BatchErrors(calls)| ==>
              BatchErrors(calls)[i].Tool? && BatchErrors(calls)[i].callId != ""
    ensures |BatchErrors(calls)| == |calls| ==> Answers(calls, BatchErrors(calls))
    ensures |BatchErrors(calls)| == |calls| <==> forall i :: 0 <= i < |calls| ==> calls[i].id != ""
  {
    if calls != [] {
      var n := |calls| - 1;
      BatchErrorsAnswer(calls[..n]);
      assert forall i :: 0 <= i < n ==> calls[i] == calls[..n][i];
    }
  }

  /** At most one hook fires on a step. */
  lemma HooksExclude(h: seq<Message>, ai: Message, show: Json -> string)
    requires ai.AI?
    ensures InvalidArgsHook(h + [ai], show) == None || GateSoloHook(h + [ai]) == None
  {
  }

  /** When the invalid-arguments hook fires, the history it leaves is well paired,
      with no assumption on the ids: the decoder has refused empty ones. */
  lemma InvalidArgsPairs(h: seq<Message>, ai: Message, show: Json -> string)
    requires WellPaired(h) && ai.AI? && InvalidArgsHook(h + [ai], show).Some?
    ensures WellPaired(InvalidArgsHook(h + [ai], show).value)
    ensures var invalid := InvalidCalls(ai.kwargs, show);
            forall i :: 0 <= i < |invalid| ==> Identified(invalid[i])
  {
    var all := h + [ai];
    var invalid := InvalidCalls(ai.kwargs, show);
    DecodedAreIdentified(if Field(ai.kwargs, INVALID_KWARG).JArr? then ai.kwargs[INVALID_KWARG].items else [], show);
    assert all[..|all| - 1] == h;
    StepPaired(h, AI(ai.text, StubsFor(invalid), ai.kwargs - {INVALID_KWARG}), ErrorsFor(invalid));
  }

  /** When the solo hook fires, the history it leaves is well paired iff every
      call of the batch has an id: calls without one stay unanswered. */
  lemma GateSoloPairs(h: seq<Message>, ai: Message)
    requires WellPaired(h) && ai.AI? && GateSoloHook(h + [ai]).Some?
    ensures WellPaired(GateSoloHook(h + [ai]).value) <==> forall i :: 0 <= i < |ai.calls| ==> ai.calls[i].id != ""
  {
    var errors := BatchErrors(ai.calls);
    assert LatestCalls(h + [ai]) == ai.calls;
    BatchErrorsAnswer(ai.calls);
    if |errors| == |ai.calls| {
      StepPaired(h, ai, errors);
    } else if WellPaired(h + [ai] + errors) {
      PairedTail(h, ai, errors);
    }
  }

  /** What the invalid-arguments hook does to a history: it fires exactly when the
      step has invalid calls and no valid one; it keeps the earlier messages, the
      text and the other kwargs of the step; and it turns each invalid call into a
      call with empty arguments, answered by an error that shows what was sent. */
  lemma InvalidArgsIsExact(h: seq<Message>, ai: Message, show: Json -> string)
    requires ai.AI?
    ensures var (fired, invalid) := (InvalidArgsHook(h + [ai], show), InvalidCalls(ai.kwargs, show));
            && (fired.Some? <==> ai.calls == [] && invalid != [])
            && (fired.Some? ==>
                  var after := fired.value;
                  && |after| == |h| + 1 + |invalid| && h <= after
                  && after[|h|].AI? && after[|h|].text == ai.text && |after[|h|].calls| == |invalid|
                  && after[|h|].kwargs.Keys == ai.kwargs.Keys - {"invalid_tool_calls"}
                  && (forall key :: key in after[|h|].kwargs ==> after[|h|].kwargs[key] == ai.kwargs[key])
                  && forall i :: 0 <= i < |invalid| ==>
                       && after[|h|].calls[i] == ToolCall(invalid[i].callId, invalid[i].name, JObj(map[]))
                       && after[|h| + 1 + i].Tool?
                       && after[|h| + 1 + i].callId == invalid[i].callId && after[|h| + 1 + i].name == invalid[i].name
                       && ShowsError(after[|h| + 1 + i].content, invalid[i]))
  {
    hide InvalidCalls;
    assert (h + [ai])[..|h|] == h;
  }

  /** The parse error, and the first 200 characters of the arguments. */
  ghost predicate ShowsError(c: Content, p: Payload) {
    && c.InvalidArguments? && c.parseError == p.parseError
    && c.preview <= p.rawArguments
    && |c.preview| == if |p.rawArguments| < 200 then |p.rawArguments| else 200
  }

  /** The solo hook only adds to the history: one refusal for each call that has an
      id, in order. */
  lemma GateSoloIsExact(h: seq<Message>, ai: Message)
    requires ai.AI?
    ensures var fired := GateSoloHook(h + [ai]);
            && (fired.Some? <==> |ai.calls| >= 2 && exists i :: 0 <= i < |ai.calls| && ai.calls[i].name in SOLO_TOOLS)
            && (fired.Some? ==>
                  && h + [ai] <= fired.value
                  && (forall i :: |h| < i < |fired.value| ==> fired.value[i].Tool? && fired.value[i].content == BatchIsolation)
                  && Answered(fired.value[|h| + 1..]) == WithIds(ai.calls))
  {
    assert LatestCalls(h + [ai]) == ai.calls;
    BatchViolationIs(ai.calls);
    RefusalsAre(ai.calls);
    if GateSoloHook(h + [ai]).Some? {
      assert GateSoloHook(h + [ai]).value[|h| + 1..] == BatchErrors(ai.calls);
    }
  }

  /** The calls that tool messages answer, by id and name. */
  function Answered(msgs: seq<Message>): seq<(string, string)> {
    if msgs == [] then []
    else Answered(msgs[..|msgs| - 1]) +
         var m := msgs[|msgs| - 1]; if m.Tool? then [(m.callId, m.name)] else []
  }

  function WithIds(calls: seq<ToolCall>): seq<(string, string)> {
    if calls == [] then []
    else WithIds(calls[..|calls| - 1]) +
         var c := calls[|calls| - 1]; if c.id != "" then [(c.id, c.name)] else []
  }

  lemma {:induction false} RefusalsAre(calls: seq<ToolCall>)
    ensures forall i :: 0 <= i < |BatchErrors(calls)| ==>
              BatchErrors(calls)[i].Tool? && BatchErrors(calls)[i].content == BatchIsolation
    ensures Answered(BatchErrors(calls)) == WithIds(calls)
  {
    if calls != [] {
      var n := |calls| - 1;
      RefusalsAre(calls[..n]);
      var before := BatchErrors(calls[..n]);
      if calls[n].id != "" {
        assert (before + [Tool(calls[n].id, calls[n].name, BatchIsolation)])[..|before|] == before;
      }
    }
  }

  // ----- Whole conversations -----

  /** One turn of the agent loop: a user message, or a model step with the values
      the tool node would return for its calls. */
  datatype Turn = UserSays(text: string) | ModelSays(ai: Message, values: seq<Json>)

  function ToolNode(calls: seq<ToolCall>, values: seq<Json>): seq<Message> {
    seq(|calls|, i requires 0 <= i < |calls| =>
      Tool(calls[i].id, calls[i].name, Result(if i < |values| then values[i] else JNull)))
  }

  function Next(h: seq<Message>, t: Turn, show: Json -> string): seq<Message> {
    match t
    case UserSays(text) => h + [Human(text)]
    case ModelSays(ai, values) =>
      if !ai.AI? then h
      else
        var all := h + [ai];
        if InvalidArgsHook(all, show).Some? then InvalidArgsHook(all, show).value
        else if GateSoloHook(all).Some? then GateSoloHook(all).value
        else all + ToolNode(ai.calls, values)
  }

  function Conversation(ts: seq<Turn>, show: Json -> string): seq<Message> {
    if ts == [] then [] else Next(Conversation(ts[..|ts| - 1], show), ts[|ts| - 1], show)
  }

  ghost predicate HasIds(t: Turn) {
    t.ModelSays? && t.ai.AI? ==> forall i :: 0 <= i < |t.ai.calls| ==> t.ai.calls[i].id != ""
  }

  lemma NextPaired(h: seq<Message>, t: Turn, show: Json -> string)
    requires WellPaired(h) && HasIds(t)
    ensures WellPaired(Next(h, t, show))
  {
    match t
    case UserSays(text) =>
      assert [Human(text)][1..] == [];
      PairedAppend(h, [Human(text)]);
    case ModelSays(ai, values) =>
      if ai.AI? {
        if InvalidArgsHook(h + [ai], show).Some? {
          InvalidArgsPairs(h, ai, show);
        } else if GateSoloHook(h + [ai]).Some? {
          GateSoloPairs(h, ai);
        } else {
          StepPaired(h, ai, ToolNode(ai.calls, values));
        }
      }
  }

  /** In every conversation whose model steps carry call ids, each history the
      model is called with is well paired, whichever hook fired on the way. */
  lemma {:induction false} ConversationPaired(ts: seq<Turn>, show: Json -> string)
    requires forall i :: 0 <= i < |ts| ==> HasIds(ts[i])
    ensures WellPaired(Conversation(ts, show))
  {
    if ts != [] {
      ConversationPaired(ts[..|ts| - 1], show);
      NextPaired(Conversation(ts[..|ts| - 1], show), ts[|ts| - 1], show);
    }
  }

  /** What the user and the model say, in order. */
  function Spoken(h: seq<Message>): seq<string> {
    if h == [] then []
    else
      Spoken(h[..|h| - 1]) +
      match h[|h| - 1]
      case Human(text) => [text]
      case AI(text, _, _) => [text]
      case Tool(_, _, _) => []
  }

  function SaidBy(t: Turn): seq<string> {
    match t
    case UserSays(text) => [text]
    case ModelSays(ai, _) => if ai.AI? then [ai.text] else []
  }

  function SaidIn(ts: seq<Turn>): seq<string> {
    if ts == [] then [] else SaidIn(ts[..|ts| - 1]) + SaidBy(ts[|ts| - 1])
  }

  lemma SpokenNext(h: seq<Message>, m: Message)
    ensures Spoken(h + [m]) == Spoken(h) + match m case Human(text) => [text] case AI(text, _, _) => [text] case _ => []
  {
    assert (h + [m])[..|h|] == h;
  }

  lemma {:induction false} ToolsSayNothing(h: seq<Message>, tools: seq<Message>)
    requires forall i :: 0 <= i < |tools| ==> tools[i].Tool?
    ensures Spoken(h + tools) == Spoken(h)
  {
    if tools == [] {
      assert h + tools == h;
    } else {
      var n := |tools| - 1;
      ToolsSayNothing(h, tools[..n]);
      assert h + tools == h + tools[..n] + [tools[n]];
      SpokenNext(h + tools[..n], tools[n]);
    }
  }

  /** A model step adds itself, perhaps with other calls, and tool messages. */
  lemma StepGrows(h: seq<Message>, ai: Message, values: seq<Json>, show: Json -> string)
    requires ai.AI?
    ensures var after := Next(h, ModelSays(ai, values), show);
            && |after| > |h| && h <= after && after[|h|].AI? && after[|h|].text == ai.text
            && forall i :: |h| < i < |after| ==> after[i].Tool?
  {
    var all := h + [ai];
    InvalidArgsIsExact(h, ai, show);
    GateSoloIsExact(h, ai);
    hide InvalidCalls, BatchErrors, Answered, WithIds, ShowsError;
    if InvalidArgsHook(all, show).Some? {
      var after := InvalidArgsHook(all, show).value;
      assert Next(h, ModelSays(ai, values), show) == after;
      hide InvalidArgsHook, Next;
      forall i | |h| < i < |after|
        ensures after[i].Tool?
      {
        assert after[|h| + 1 + (i - |h| - 1)].Tool?;
      }
    } else if GateSoloHook(all).Some? {
      hide InvalidArgsHook, GateSoloHook;
    } else {
      hide InvalidArgsHook, GateSoloHook;
    }
  }

  lemma NextSays(h: seq<Message>, t: Turn, show: Json -> string)
    ensures h <= Next(h, t, show) && Spoken(Next(h, t, show)) == Spoken(h) + SaidBy(t)
  {
    match t
    case UserSays(text) => SpokenNext(h, Human(text));
    case ModelSays(ai, values) =>
      if ai.AI? {
        StepGrows(h, ai, values, show);
        var after := Next(h, t, show);
        hide Next, Spoken;
        SpokenNext(h, after[|h|]);
        ToolsSayNothing(h + [after[|h|]], after[|h| + 1..]);
        assert h + [after[|h|]] + after[|h| + 1..] == after;
      }
  }

  /** Whichever hooks fire, a conversation only grows, and holds everything that
      the user and the model have said, in order and once. */
  lemma {:induction false} NothingIsLost(ts: seq<Turn>, show: Json -> string, n: nat)
    requires n <= |ts|
    ensures Conversation(ts[..n], show) <= Conversation(ts, show)
    ensures Spoken(Conversation(ts, show)) == SaidIn(ts)
  {
    hide Next, SaidBy;
    assert ts[..|ts|] == ts;
    if ts != [] {
      var prev := ts[..|ts| - 1];
      NextSays(Conversation(prev, show), ts[|ts| - 1], show);
      NothingIsLost(prev, show, if n < |ts| then n else 0);
      assert Conversation(ts, show) == Next(Conversation(prev, show), ts[|ts| - 1], show);
      hide Spoken, SaidIn, Conversation;
      if n < |ts| {
        assert prev[..n] == ts[..n];
      }
    }
  }

  /** No batch that mixes a solo tool with another call reaches the tool node. */
  lemma SoloToolsRunAlone(h: seq<Message>, ai: Message, show: Json -> string, i: nat)
    requires ai.AI? && InvalidArgsHook(h + [ai], show) == None && GateSoloHook(h + [ai]) == None
    requires i < |ai.calls| && ai.calls[i].name in SOLO_TOOLS
    ensures |ai.calls| == 1
  {
    assert LatestCalls(h + [ai]) == ai.calls;
    BatchViolationIs(ai.calls);
  }
}
