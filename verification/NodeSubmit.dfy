/** Submitting a node for generation.  Manual mode demands exactly the reference
    list that the canvas implies; agent mode accepts any in-order selection of the
    resolved slots.  The two modes read the graph through different code. */
module NodeSubmit {
  import opened Options
  import opened Text
  import opened Sets
  import opened FirstOccurrences
  import opened CanvasRefs
  import opened NodeInputs

  // ----- The in-order selection check -----

  /** idx places xs at increasing positions of ys. */
  ghost predicate Embeds(xs: seq<int>, ys: seq<int>, idx: seq<nat>) {
    && |idx| == |xs|
    && (forall i :: 0 <= i < |idx| ==> idx[i] < |ys| && ys[idx[i]] == xs[i])
    && forall i, j :: 0 <= i < j < |idx| ==> idx[i] < idx[j]
  }

  ghost predicate IsSubsequence(xs: seq<int>, ys: seq<int>) {
    exists idx :: Embeds(xs, ys, idx)
  }

  /** No embedding of the first i elements ends before the cursor. */
  ghost predicate Earliest(got: seq<int>, resolved: seq<int>, i: nat, cursor: nat)
    requires i <= |got|
  {
    forall idx :: Embeds(got[..i], resolved, idx) ==> (if i == 0 then 0 else idx[i - 1] + 1) >= cursor
  }

  lemma EmbedsInit(got: seq<int>, resolved: seq<int>, i: nat, idx: seq<nat>)
    requires i < |got| && Embeds(got[..i + 1], resolved, idx)
    ensures Embeds(got[..i], resolved, idx[..i])
    ensures (if i == 0 then 0 else idx[..i][i - 1] + 1) <= idx[i] < |resolved| && resolved[idx[i]] == got[i]
  {
    assert got[..i + 1][i] == got[i];
  }

  /** The greedy cursor loop of `_validate_agent_ref_asset_ids` accepts exactly
      the subsequences; an empty request stands for everything resolved. */
  method ValidateAgentRefs(resolved: seq<int>, got: seq<int>) returns (ok: bool, ids: seq<int>)
    ensures ok <==> IsSubsequence(got, resolved)
    ensures ids == if got == [] then resolved else got
  {
    if got == [] {
      assert Embeds(got, resolved, []);
      return true, resolved;
    }
    ids := got;
    if got == resolved {
      assert Embeds(got, resolved, seq(|got|, i => i));
      return true, got;
    }
    var cursor := 0;
    ghost var path: seq<nat> := [];
    assert Embeds(got[..0], resolved, path) && Earliest(got, resolved, 0, cursor);
    hide Embeds, Earliest;
    for i := 0 to |got|
      invariant 0 <= cursor <= |resolved| && |path| == i
      invariant Embeds(got[..i], resolved, path) && (i > 0 ==> path[i - 1] < cursor)
      invariant Earliest(got, resolved, i, cursor)
    {
      ghost var start := cursor;
      while cursor < |resolved| && resolved[cursor] != got[i]
        invariant start <= cursor <= |resolved|
        invariant forall k :: start <= k < cursor ==> resolved[k] != got[i]
      {
        cursor := cursor + 1;
      }
      EarliestNext(got, resolved, i, start, cursor);
      if cursor >= |resolved| {
        if IsSubsequence(got, resolved) {
          PrefixEmbeds(got, resolved, i + 1);
        }
        return false, got;
      }
      EmbedsNext(got, resolved, i, path, cursor);
      path := path + [cursor];
      cursor := cursor + 1;
    }
    assert got[..|got|] == got;
    return true, got;
  }

  lemma EmbedsNext(got: seq<int>, resolved: seq<int>, i: nat, path: seq<nat>, cursor: nat)
    requires i < |got| && cursor < |resolved| && resolved[cursor] == got[i]
    requires Embeds(got[..i], resolved, path) && (i > 0 ==> |path| == i && path[i - 1] < cursor)
    ensures Embeds(got[..i + 1], resolved, path + [cursor])
  {
    assert forall j, k :: 0 <= j < k < i ==> path[j] < path[k];
  }

  /** The greedy choice is the earliest one; past the end there is none. */
  lemma EarliestNext(got: seq<int>, resolved: seq<int>, i: nat, start: nat, cursor: nat)
    requires i < |got| && start <= cursor <= |resolved| && Earliest(got, resolved, i, start)
    requires forall k :: start <= k < cursor ==> resolved[k] != got[i]
    ensures Earliest(got, resolved, i + 1, cursor + 1)
    ensures cursor == |resolved| ==> !IsSubsequence(got[..i + 1], resolved)
  {
    forall idx | Embeds(got[..i + 1], resolved, idx)
      ensures cursor <= idx[i] < |resolved|
    {
      EmbedsInit(got, resolved, i, idx);
    }
  }

  lemma PrefixEmbeds(got: seq<int>, resolved: seq<int>, n: nat)
    requires n <= |got| && IsSubsequence(got, resolved)
    ensures IsSubsequence(got[..n], resolved)
  {
    var idx :| Embeds(got, resolved, idx);
    assert Embeds(got[..n], resolved, idx[..n]);
  }

  // ----- The two modes -----

  datatype Outcome =
    | Submitted(prompt: string, refs: seq<int>)
    | RefMismatch
    | EmptyPrompt
    | NotReady
    | NodeMissing
    | BadRefId

  /** The first node with the id; the manual path reads library tags from it. */
  function FirstNode(nodes: seq<Node>, id: string): Option<Node> {
    if nodes == [] then None
    else if nodes[0].id == id then Some(nodes[0])
    else FirstNode(nodes[1..], id)
  }

  function LibraryOf(n: Option<Node>): seq<int> {
    if n.Some? then FirstPositives(Ints(n.value.libraryRefs)) else []
  }

  method SelfLibraryIds(nodeId: string, nodes: seq<Node>) returns (ids: seq<int>)
    ensures ids == LibraryOf(FirstNode(nodes, nodeId))
  {
    for i := 0 to |nodes|
      invariant FirstNode(nodes, nodeId) == FirstNode(nodes[i..], nodeId)
    {
      assert nodes[i..][1..] == nodes[i + 1..];
      if nodes[i].id == nodeId {
        ids := CollectIds(nodes[i].libraryRefs);
        return;
      }
    }
    return [];
  }

  datatype Extras = Extras(content: seq<Segment>, manual: seq<int>, mentions: seq<int>)

  /** The list the canvas implies for a manual submission: first positive
      occurrences of connected assets, content, mentions, manual picks, library. */
  function ExpectedRefs(nodes: seq<Node>, edges: seq<Edge>, nodeId: string, x: Extras): seq<int> {
    FirstPositives(Gathered(nodes, edges, nodeId) + Ints(MediaIds(x.content)) + x.mentions + x.manual
                   + LibraryRaw(FirstNode(nodes, nodeId)))
  }

  function LibraryRaw(n: Option<Node>): seq<int> {
    if n.Some? then Ints(n.value.libraryRefs) else []
  }

  ghost function ManualOutcome(
    nodes: seq<Node>, edges: seq<Edge>, nodeId: string, prompt: string, refs: seq<int>, x: Extras): Outcome
  {
    if !AllPositive(x.mentions) || !AllPositive(x.manual) then BadRefId
    else if refs != ExpectedRefs(nodes, edges, nodeId, x) then RefMismatch
    else if Strip(prompt) == "" then EmptyPrompt
    else Submitted(Strip(prompt), refs)
  }

  /** `prepare_node_submit` in manual mode. */
  method PrepareManual(nodes: seq<Node>, edges: seq<Edge>, nodeId: string, prompt: string, refs: seq<int>, x: Extras)
    returns (o: Outcome)
    ensures o == ManualOutcome(nodes, edges, nodeId, prompt, refs, x)
  {
    var connected := PickConnected(nodeId, nodes, edges);
    var library := SelfLibraryIds(nodeId, nodes);
    var c := CollectSubmitRefs(x.content, connected, x.manual, x.mentions, library);
    if !c.Refs? {
      return BadRefId;
    }
    ExpectedFromCollected(nodes, edges, nodeId, x);
    hide ExpectedRefs, FirstPositives;
    if refs != c.ids {
      return RefMismatch;
    }
    if Strip(prompt) == "" {
      return EmptyPrompt;
    }
    return Submitted(Strip(prompt), refs);
  }

  /** Collecting the first and the last segment beforehand changes nothing. */
  lemma CollectedEnds(a: seq<int>, b: seq<int>, c: seq<int>)
    ensures FirstPositives(FirstPositives(a) + b + FirstPositives(c)) == FirstPositives(a + b + c)
  {
    CollectedSegment(FirstPositives(a) + b, c);
    assert FirstPositives(a) + b + c == FirstPositives(a) + (b + c);
    assert a + b + c == a + (b + c);
    FirstPositivesArePositive(a);
    PositivesOfPositive(FirstPositives(a));
    PositivesAppend(FirstPositives(a), b + c);
    PositivesAppend(a, b + c);
    FirstsAppend(Positives(a), Positives(b + c));
  }

  lemma ExpectedFromCollected(nodes: seq<Node>, edges: seq<Edge>, nodeId: string, x: Extras)
    ensures FirstPositives(Connected(nodes, edges, nodeId) + Ints(MediaIds(x.content)) + x.mentions + x.manual
                           + LibraryOf(FirstNode(nodes, nodeId)))
            == ExpectedRefs(nodes, edges, nodeId, x)
  {
    var g, lib := Gathered(nodes, edges, nodeId), LibraryRaw(FirstNode(nodes, nodeId));
    var a, b, c := Ints(MediaIds(x.content)), x.mentions, x.manual;
    assert LibraryOf(FirstNode(nodes, nodeId)) == FirstPositives(lib);
    CollectedEnds(g, a + b + c, lib);
    hide FirstPositives, Gathered, Ints, MediaIds;
    var conn := FirstPositives(g);
    assert conn + a + b + c == conn + (a + b + c);
    assert g + a + b + c == g + (a + b + c);
  }

  ghost function AgentOutcome(
    nodes: seq<Node>, edges: seq<Edge>, nodeId: string, prompt: string, refs: seq<int>): Outcome
  {
    var target, resolved := Lookup(nodes, nodeId), Connected(nodes, edges, nodeId);
    if target == None then NodeMissing
    else if Waits(nodes, edges) != [] then NotReady
    else if Strip(prompt) == "" then EmptyPrompt
    else if !IsSubsequence(refs, resolved) then RefMismatch
    else Submitted(Strip(prompt), Firsts((if refs == [] then resolved else refs) + LibraryOf(target)))
  }

  /** `prepare_node_submit` in agent mode. */
  method PrepareAgent(nodes: seq<Node>, edges: seq<Edge>, nodeId: string, prompt: string, refs: seq<int>)
    returns (o: Outcome)
    ensures o == AgentOutcome(nodes, edges, nodeId, prompt, refs)
  {
    var r := Resolve(nodes, edges, nodeId);
    if r.NotFound? {
      return NodeMissing;
    }
    if r.waiting != [] {
      return NotReady;
    }
    if Strip(prompt) == "" {
      return EmptyPrompt;
    }
    var resolved := AssetIds(r.refs);
    assert resolved == Connected(nodes, edges, nodeId);
    var ok, final := ValidateAgentRefs(resolved, refs);
    if !ok {
      return RefMismatch;
    }
    var ids := FromKeys(final + r.libraryIds);
    return Submitted(Strip(prompt), ids);
  }

  method AssetIds(refs: seq<RefSlot>) returns (ids: seq<int>)
    ensures |ids| == |refs| && forall i :: 0 <= i < |refs| ==> ids[i] == refs[i].assetId
  {
    ids := [];
    for i := 0 to |refs|
      invariant |ids| == i && forall k :: 0 <= k < i ==> ids[k] == refs[k].assetId
    {
      ids := ids + [refs[i].assetId];
    }
  }

  /** `dict.fromkeys`: insertion order, later duplicates ignored. */
  method FromKeys(xs: seq<int>) returns (ids: seq<int>)
    ensures ids == Firsts(xs)
  {
    ids := [];
    for i := 0 to |xs|
      invariant ids == Firsts(xs[..i])
    {
      assert xs[..i + 1][..i] == xs[..i];
      if xs[i] !in ids {
        ids := ids + [xs[i]];
      }
    }
    assert xs[..|xs|] == xs;
  }

  // ----- The outcomes, without the functions -----

  /** Everything that a manual submission must list, segment by segment. */
  function Demanded(nodes: seq<Node>, edges: seq<Edge>, nodeId: string, x: Extras): seq<int> {
    Positives(Gathered(nodes, edges, nodeId) + Ints(MediaIds(x.content)) + x.mentions + x.manual
              + (match FirstNode(nodes, nodeId) case Some(n) => Ints(n.libraryRefs) case None => []))
  }

  /** A manual submission goes through exactly when its mentions and manual picks are
      positive, it lists each demanded asset once in order of first appearance, and
      its prompt is not blank; otherwise the first of these that fails is reported. */
  lemma ManualIsExact(nodes: seq<Node>, edges: seq<Edge>, nodeId: string, prompt: string, refs: seq<int>, x: Extras)
    ensures var o := ManualOutcome(nodes, edges, nodeId, prompt, refs, x);
            var positive := (forall i :: i in x.mentions ==> i > 0) && forall i :: i in x.manual ==> i > 0;
            var listed := ListsFirsts(Demanded(nodes, edges, nodeId, x), refs);
            && (o == BadRefId <==> !positive) && (o == RefMismatch <==> positive && !listed)
            && (o == EmptyPrompt <==> positive && listed && Strip(prompt) == "")
            && (o == Submitted(Strip(prompt), refs) <==> positive && listed && Strip(prompt) != "")
  {
    var demanded := Demanded(nodes, edges, nodeId, x);
    assert ExpectedRefs(nodes, edges, nodeId, x) == Firsts(demanded);
    FirstsLists(demanded);
    if ListsFirsts(demanded, refs) {
      FirstsIsUnique(demanded, refs);
    }
    AllPositiveMeans(x.mentions);
    AllPositiveMeans(x.manual);
    hide ExpectedRefs, Demanded, ListsFirsts, Strip, AllPositive;
  }

  lemma AllPositiveMeans(xs: seq<int>)
    ensures AllPositive(xs) <==> forall x :: x in xs ==> x > 0
  {
    if forall x :: x in xs ==> x > 0 {
      assert forall i :: 0 <= i < |xs| ==> xs[i] in xs;
    }
  }

  /** An agent submission goes through exactly when the node exists, every edge is
      ready, its prompt is not blank and its references are a subsequence of the
      slots; otherwise the first of these that fails is reported.  What is submitted
      is the selection, or all slots if there is none, and then the node's library
      assets that are not among it. */
  lemma AgentIsExact(nodes: seq<Node>, edges: seq<Edge>, nodeId: string, prompt: string, refs: seq<int>)
    ensures var o := AgentOutcome(nodes, edges, nodeId, prompt, refs);
            var found := Lookup(nodes, nodeId).Some?;
            var ready := forall i :: 0 <= i < |edges| ==> Ready(nodes, edges[i]);
            var chosen := IsSubsequence(refs, Connected(nodes, edges, nodeId));
            && (o == NodeMissing <==> !found) && (o == NotReady <==> found && !ready)
            && (o == EmptyPrompt <==> found && ready && Strip(prompt) == "")
            && (o == RefMismatch <==> found && ready && Strip(prompt) != "" && !chosen)
            && (o.Submitted? <==> found && ready && Strip(prompt) != "" && chosen)
            && (o.Submitted? ==>
                  var selected := if refs == [] then Connected(nodes, edges, nodeId) else refs;
                  && o.prompt == Strip(prompt)
                  && o.refs == selected + Minus(LibraryOf(Lookup(nodes, nodeId)), selected))
  {
    WaitsEmpty(nodes, edges);
    forall i | 0 <= i < |edges|
      ensures WaitFor(nodes, edges[i]) == None <==> Ready(nodes, edges[i])
    {
      WaitIsExact(nodes, edges[i]);
    }
    var o := AgentOutcome(nodes, edges, nodeId, prompt, refs);
    hide Waits, Strip, Ready, WaitFor, IsSubsequence, Connected, Firsts, Minus, Lookup;
    if o.Submitted? {
      AgentSubmits(nodes, edges, nodeId, refs);
    }
  }

  lemma AgentSubmits(nodes: seq<Node>, edges: seq<Edge>, nodeId: string, refs: seq<int>)
    requires IsSubsequence(refs, Connected(nodes, edges, nodeId))
    ensures var selected := if refs == [] then Connected(nodes, edges, nodeId) else refs;
            var library := LibraryOf(Lookup(nodes, nodeId));
            Firsts(selected + library) == selected + Minus(library, selected)
  {
    ConnectedIs(nodes, edges, nodeId);
    SelectionIsDistinct(nodes, edges, nodeId, refs);
    var target := Lookup(nodes, nodeId);
    if target.Some? {
      FirstPositivesArePositive(Ints(target.value.libraryRefs));
    }
    FirstsOfDistinct(LibraryOf(target));
    hide Connected, LibraryOf, IsSubsequence, Firsts;
    FirstsSplit(if refs == [] then Connected(nodes, edges, nodeId) else refs, LibraryOf(target));
  }

  // ----- The modes agree -----

  const NO_EXTRAS := Extras([], [], [])

  /** The elements of xs that are not in ys, in order. */
  function Minus(xs: seq<int>, ys: seq<int>): seq<int> {
    if xs == [] then []
    else if xs[|xs| - 1] in ys then Minus(xs[..|xs| - 1], ys)
    else Minus(xs[..|xs| - 1], ys) + [xs[|xs| - 1]]
  }

  lemma {:induction false} FirstsSplit(a: seq<int>, b: seq<int>)
    requires Distinct(a)
    ensures Firsts(a + b) == a + Minus(Firsts(b), a)
    decreases |b|
  {
    if b == [] {
      assert a + b == a;
      FirstsOfDistinct(a);
    } else {
      var n := |b| - 1;
      var p, x := b[..n], b[n];
      FirstsSplit(a, p);
      assert b == p + [x] && a + b == a + p + [x];
      FirstsSnoc(p, x);
      FirstsSnoc(a + p, x);
      var kept := Firsts(p);
      MinusElements(kept, a);
      MinusSnoc(kept, x, a);
      SplitStep(a, kept, Minus(kept, a), x);
      hide *;
    }
  }

  lemma SplitStep(a: seq<int>, kept: seq<int>, rest: seq<int>, x: int)
    requires forall y :: y in rest <==> y in kept && y !in a
    ensures x in a + rest <==> x in a || x in kept
    ensures a + rest + [x] == a + (rest + [x])
  {
  }

  lemma {:induction false} MinusElements(xs: seq<int>, ys: seq<int>)
    ensures forall x :: x in Minus(xs, ys) <==> x in xs && x !in ys
  {
    if xs != [] {
      MinusElements(xs[..|xs| - 1], ys);
      assert xs == xs[..|xs| - 1] + [xs[|xs| - 1]];
    }
  }

  lemma MinusSnoc(xs: seq<int>, x: int, ys: seq<int>)
    ensures Minus(xs + [x], ys) == if x in ys then Minus(xs, ys) else Minus(xs, ys) + [x]
  {
    assert (xs + [x])[..|xs|] == xs;
  }

  /** What a node's library adds to its connected assets. */
  function Added(nodes: seq<Node>, edges: seq<Edge>, nodeId: string, n: Option<Node>): seq<int> {
    Minus(LibraryOf(n), Connected(nodes, edges, nodeId))
  }

  /** With nothing extra picked, manual mode demands the connected assets, then
      the node's own library tags, positive and without repetition. */
  lemma ManualDemands(nodes: seq<Node>, edges: seq<Edge>, nodeId: string)
    ensures var refs, connected := ExpectedRefs(nodes, edges, nodeId, NO_EXTRAS), Connected(nodes, edges, nodeId);
            && refs == Firsts(connected + LibraryOf(FirstNode(nodes, nodeId)))
            && refs == connected + Added(nodes, edges, nodeId, FirstNode(nodes, nodeId))
            && Distinct(refs) && AllPositive(refs)
  {
    var g, lib := Gathered(nodes, edges, nodeId), LibraryRaw(FirstNode(nodes, nodeId));
    var conn, own := FirstPositives(g), FirstPositives(lib);
    assert g + [] + [] + [] + lib == g + lib && g + [] + lib == g + lib && conn + [] + own == conn + own;
    assert LibraryOf(FirstNode(nodes, nodeId)) == own;
    CollectedEnds(g, [], lib);
    FirstPositivesArePositive(g);
    FirstPositivesArePositive(lib);
    FirstPositivesArePositive(g + lib);
    PositivesOfPositive(conn + own);
    FirstsOfDistinct(own);
    FirstsSplit(conn, own);
    hide Firsts, Positives, Gathered, Ints, FirstNode;
  }

  /** Nodes that share an id are the same node. */
  ghost predicate Consistent(nodes: seq<Node>) {
    forall i, j :: 0 <= i < j < |nodes| && nodes[i].id == nodes[j].id ==> nodes[i] == nodes[j]
  }

  /** Manual mode reads the first node with an id, agent mode the last; in a
      consistent graph these are the same. */
  lemma {:induction false} SameNode(nodes: seq<Node>, id: string)
    requires Consistent(nodes)
    ensures FirstNode(nodes, id) == Lookup(nodes, id)
  {
    if nodes != [] {
      var m := |nodes| - 1;
      SameNode(nodes[..m], id);
      FirstNodeSnoc(nodes[..m], nodes[m], id);
      assert nodes == nodes[..m] + [nodes[m]];
      if Lookup(nodes[..m], id).Some? {
        LookupFinds(nodes[..m], id);
      }
    }
  }

  lemma {:induction false} LookupFinds(nodes: seq<Node>, id: string)
    requires Lookup(nodes, id).Some?
    ensures exists i :: 0 <= i < |nodes| && nodes[i].id == id && Lookup(nodes, id) == Some(nodes[i])
  {
    var m := |nodes| - 1;
    if nodes[m].id != id {
      LookupFinds(nodes[..m], id);
      var i :| 0 <= i < m && nodes[..m][i].id == id && Lookup(nodes[..m], id) == Some(nodes[..m][i]);
      assert nodes[i].id == id;
    }
  }

  /** With nothing picked by hand, agent mode submits exactly the list that manual
      mode demands. */
  lemma ModesAgree(nodes: seq<Node>, edges: seq<Edge>, nodeId: string)
    requires Consistent(nodes)
    ensures ExpectedRefs(nodes, edges, nodeId, NO_EXTRAS) ==
            Firsts(Connected(nodes, edges, nodeId) + LibraryOf(Lookup(nodes, nodeId)))
  {
    SameNode(nodes, nodeId);
    ManualDemands(nodes, edges, nodeId);
  }

  // ----- The graph both modes are given -----

  predicate IsSource(edges: seq<Edge>, id: string) {
    exists i :: 0 <= i < |edges| && edges[i].source == id
  }

  function Sources(table: seq<Node>, edges: seq<Edge>): seq<Node> {
    if table == [] then []
    else
      var last := table[|table| - 1];
      Sources(table[..|table| - 1], edges) + if IsSource(edges, last.id) then [last] else []
  }

  /** `get_incoming_graph`: the target's row, then the rows of the edge sources;
      a self-loop lists the target twice. */
  function Incoming(table: seq<Node>, edges: seq<Edge>, nodeId: string): Option<seq<Node>> {
    match FirstNode(table, nodeId)
    case None => None
    case Some(target) => Some([target] + Sources(table, edges))
  }

  ghost predicate UniqueIds(table: seq<Node>) {
    forall i, j :: 0 <= i < j < |table| ==> table[i].id != table[j].id
  }

  lemma {:induction false} SourcesAreRows(table: seq<Node>, edges: seq<Edge>)
    ensures forall n :: n in Sources(table, edges) ==> n in table
  {
    if table != [] {
      SourcesAreRows(table[..|table| - 1], edges);
    }
  }

  lemma {:induction false} FirstNodeIsRow(table: seq<Node>, id: string)
    ensures FirstNode(table, id).Some? ==> FirstNode(table, id).value in table && FirstNode(table, id).value.id == id
  {
    if table != [] && table[0].id != id {
      FirstNodeIsRow(table[1..], id);
    }
  }

  /** The incoming graph shows the target and every edge's source as the table does,
      and nothing else. */
  lemma IncomingIsExact(table: seq<Node>, edges: seq<Edge>, nodeId: string, id: string)
    requires UniqueIds(table)
    ensures Incoming(table, edges, nodeId).Some? <==> FirstNode(table, nodeId).Some?
    ensures Incoming(table, edges, nodeId).Some? ==>
              Lookup(Incoming(table, edges, nodeId).value, id) ==
              if id == nodeId || IsSource(edges, id) then FirstNode(table, id) else None
  {
    if Incoming(table, edges, nodeId).Some? {
      var target := FirstNode(table, nodeId).value;
      FirstNodeIsRow(table, nodeId);
      SourcesShow(table, edges, id);
      LookupSame(table, nodeId);
      LookupCons(target, Sources(table, edges), id);
      LookupSame(table, id);
    }
  }

  lemma {:induction false} SourcesShow(table: seq<Node>, edges: seq<Edge>, id: string)
    ensures Lookup(Sources(table, edges), id) == if IsSource(edges, id) then Lookup(table, id) else None
  {
    if table != [] {
      var m := |table| - 1;
      SourcesShow(table[..m], edges, id);
      var before := Sources(table[..m], edges);
      assert (before + [table[m]])[..|before|] == before && before + [] == before;
    }
  }

  lemma LookupSame(table: seq<Node>, id: string)
    requires UniqueIds(table)
    ensures FirstNode(table, id) == Lookup(table, id)
  {
    SameNode(table, id);
  }

  lemma {:induction false} LookupCons(n: Node, nodes: seq<Node>, id: string)
    ensures Lookup([n] + nodes, id) ==
            if Lookup(nodes, id).Some? then Lookup(nodes, id) else if n.id == id then Some(n) else None
  {
    if nodes != [] {
      var m := |nodes| - 1;
      assert ([n] + nodes)[..m + 1] == [n] + nodes[..m];
      LookupCons(n, nodes[..m], id);
    }
  }

  lemma StoredGraphsAreConsistent(table: seq<Node>, edges: seq<Edge>, nodeId: string)
    requires UniqueIds(table) && Incoming(table, edges, nodeId).Some?
    ensures var nodes := Incoming(table, edges, nodeId).value;
            Consistent(nodes) && Lookup(nodes, nodeId).Some?
  {
    var nodes := Incoming(table, edges, nodeId).value;
    SourcesAreRows(table, edges);
    FirstNodeIsRow(table, nodeId);
    assert forall n :: n in nodes ==> n in table;
    forall i, j | 0 <= i < j < |nodes| && nodes[i].id == nodes[j].id
      ensures nodes[i] == nodes[j]
    {
      assert nodes[i] in table && nodes[j] in table;
    }
    SameNode(nodes, nodeId);
  }

  /** On every graph the store hands out, whatever the edges and self-loops
      included, the two modes agree: when the agent submits without selecting, what
      is submitted is the one list that manual mode accepts, with the same prompt;
      and if the node waits for nothing, both refuse an empty prompt. */
  lemma StoredGraphsAgree(table: seq<Node>, edges: seq<Edge>, nodeId: string, prompt: string, refs: seq<int>)
    requires UniqueIds(table) && Incoming(table, edges, nodeId).Some?
    ensures var nodes := Incoming(table, edges, nodeId).value;
            var agent := AgentOutcome(nodes, edges, nodeId, prompt, []);
            var manual := ManualOutcome(nodes, edges, nodeId, prompt, refs, NO_EXTRAS);
            var list := ExpectedRefs(nodes, edges, nodeId, NO_EXTRAS);
            && agent == (if Waits(nodes, edges) != [] then NotReady
                         else if Strip(prompt) == "" then EmptyPrompt
                         else Submitted(Strip(prompt), list))
            && (agent != NotReady ==> (manual == agent <==> refs == list))
            && (manual.Submitted? ==> refs == list && agent in {NotReady, manual})
  {
    StoredGraphsAreConsistent(table, edges, nodeId);
    hide Incoming;
    OutcomesAgree(Incoming(table, edges, nodeId).value, edges, nodeId, prompt, refs);
  }

  lemma OutcomesAgree(nodes: seq<Node>, edges: seq<Edge>, nodeId: string, prompt: string, refs: seq<int>)
    requires Consistent(nodes) && Lookup(nodes, nodeId).Some?
    ensures var agent := AgentOutcome(nodes, edges, nodeId, prompt, []);
            var manual := ManualOutcome(nodes, edges, nodeId, prompt, refs, NO_EXTRAS);
            var list := ExpectedRefs(nodes, edges, nodeId, NO_EXTRAS);
            && agent == (if Waits(nodes, edges) != [] then NotReady
                         else if Strip(prompt) == "" then EmptyPrompt
                         else Submitted(Strip(prompt), list))
            && (agent != NotReady ==> (manual == agent <==> refs == list))
            && (manual.Submitted? ==> refs == list && agent in {NotReady, manual})
  {
    AgentDefault(nodes, edges, nodeId, prompt);
    hide *;
    ManualAccepts(nodes, edges, nodeId, prompt, refs);
  }

  lemma NothingSelected(ys: seq<int>)
    ensures IsSubsequence([], ys)
  {
    assert Embeds([], ys, []);
  }

  lemma AgentDefault(nodes: seq<Node>, edges: seq<Edge>, nodeId: string, prompt: string)
    requires Consistent(nodes) && Lookup(nodes, nodeId).Some?
    ensures AgentOutcome(nodes, edges, nodeId, prompt, []) ==
            if Waits(nodes, edges) != [] then NotReady
            else if Strip(prompt) == "" then EmptyPrompt
            else Submitted(Strip(prompt), ExpectedRefs(nodes, edges, nodeId, NO_EXTRAS))
  {
    hide IsSubsequence, ExpectedRefs, Firsts, Connected, Lookup, LibraryOf, Waits, Strip, Consistent;
    ModesAgree(nodes, edges, nodeId);
    NothingSelected(Connected(nodes, edges, nodeId));
  }

  lemma ManualAccepts(nodes: seq<Node>, edges: seq<Edge>, nodeId: string, prompt: string, refs: seq<int>)
    ensures ManualOutcome(nodes, edges, nodeId, prompt, refs, NO_EXTRAS) ==
            if refs != ExpectedRefs(nodes, edges, nodeId, NO_EXTRAS) then RefMismatch
            else if Strip(prompt) == "" then EmptyPrompt
            else Submitted(Strip(prompt), refs)
  {
    hide ExpectedRefs, Strip;
  }

  lemma {:induction false} FirstNodeSnoc(nodes: seq<Node>, n: Node, id: string)
    ensures FirstNode(nodes + [n], id) ==
            if FirstNode(nodes, id).Some? then FirstNode(nodes, id) else if n.id == id then Some(n) else None
  {
    if nodes != [] {
      assert (nodes + [n])[1..] == nodes[1..] + [n];
      FirstNodeSnoc(nodes[1..], n, id);
    }
  }

  /** An accepted selection has no repetitions either: it selects from distinct
      slots, so the submitted list is the selection followed by new library ids. */
  lemma SelectionIsDistinct(nodes: seq<Node>, edges: seq<Edge>, nodeId: string, got: seq<int>)
    requires IsSubsequence(got, Connected(nodes, edges, nodeId))
    ensures Distinct(got) && AllPositive(got)
    ensures got <= Firsts(got + LibraryOf(Lookup(nodes, nodeId)))
  {
    ConnectedIs(nodes, edges, nodeId);
    var ys := Connected(nodes, edges, nodeId);
    var idx :| Embeds(got, ys, idx);
    hide Connected;
    FirstsSplit(got, LibraryOf(Lookup(nodes, nodeId)));
  }

  /** A selection need not be a prefix of the resolved list. */
  lemma NonPrefixIsAccepted()
    ensures IsSubsequence([2], [1, 2]) && !([2] <= [1, 2])
  {
    assert Embeds([2], [1, 2], [1]);
    assert [1, 2][0] != [2][0];
  }
}
