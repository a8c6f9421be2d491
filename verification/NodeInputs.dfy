/** Resolving the inputs of a canvas node: what it still waits for, the texts and
    the numbered asset slots that its incoming edges supply, and where each of
    them comes from. */
module NodeInputs {
  import opened Options
  import opened Sets
  import opened Text
  import opened FirstOccurrences
  import opened CanvasRefs
  import opened MediaLabels

  datatype Reason = SourceMissing | SourceFailed | TextNotReady | AssetNotReady

  datatype Wait = Wait(reason: Reason, sourceId: string)

  datatype Upstream = Upstream(text: string, sourceId: string)

  datatype RefSlot = RefSlot(slot: int, mediaLabel: string, assetId: int, sourceId: string, kind: Kind)

  datatype Resolved =
    | NotFound
    | Inputs(localPrompt: string, texts: seq<Upstream>, refs: seq<RefSlot>, libraryIds: seq<int>, waiting: seq<Wait>)

  predicate HasOutputAssets(n: Node) {
    || (exists i :: 0 <= i < |n.assetIds| && n.assetIds[i] > 0)
    || (n.assetId.Some? && n.assetId.value > 0)
    || Strip(n.path) != ""
  }

  /** Why an edge is not ready, if it is not. */
  function WaitFor(nodes: seq<Node>, e: Edge): Option<Wait> {
    var source := Lookup(nodes, e.source);
    if source == None then Some(Wait(SourceMissing, e.source))
    else if source.value.failed then Some(Wait(SourceFailed, e.source))
    else if e.targetPort == PromptInput && (e.sourcePort != OutputText || Strip(source.value.outputText) == "") then
      Some(Wait(TextNotReady, e.source))
    else if e.targetPort == ReferenceAsset &&
            (e.sourcePort != OutputAsset || !HasOutputAssets(source.value) || source.value.assetIds == []) then
      Some(Wait(AssetNotReady, e.source))
    else None
  }

  function Waits(nodes: seq<Node>, edges: seq<Edge>): seq<Wait> {
    if edges == [] then []
    else
      var before, w := Waits(nodes, edges[..|edges| - 1]), WaitFor(nodes, edges[|edges| - 1]);
      if w.Some? then before + [w.value] else before
  }

  // ----- Texts -----

  predicate IsTextEdge(e: Edge, nodeId: string) {
    e.target == nodeId && e.targetPort == PromptInput && e.sourcePort == OutputText
  }

  function TextOn(nodes: seq<Node>, e: Edge): string {
    var n := Lookup(nodes, e.source);
    if n.Some? then Strip(n.value.outputText) else ""
  }

  /** The non-blank text of every prompt edge, in edge order, with repetitions. */
  function RawTexts(nodes: seq<Node>, edges: seq<Edge>, nodeId: string): seq<string> {
    if edges == [] then []
    else
      var before, e := RawTexts(nodes, edges[..|edges| - 1], nodeId), edges[|edges| - 1];
      if IsTextEdge(e, nodeId) && TextOn(nodes, e) != "" then before + [TextOn(nodes, e)] else before
  }

  function TextsOf(us: seq<Upstream>): seq<string> {
    if us == [] then [] else TextsOf(us[..|us| - 1]) + [us[|us| - 1].text]
  }

  /** Text u names the first prompt edge that carries it. */
  ghost predicate FromFirstTextEdge(nodes: seq<Node>, edges: seq<Edge>, nodeId: string, u: Upstream) {
    exists i :: 0 <= i < |edges| && IsTextEdge(edges[i], nodeId) && TextOn(nodes, edges[i]) == u.text
      && edges[i].source == u.sourceId
      && forall j :: 0 <= j < i ==> !(IsTextEdge(edges[j], nodeId) && TextOn(nodes, edges[j]) == u.text)
  }

  lemma FromFirstTextEdgePrefix(nodes: seq<Node>, edges: seq<Edge>, n: nat, nodeId: string, u: Upstream)
    requires n <= |edges| && FromFirstTextEdge(nodes, edges[..n], nodeId, u)
    ensures FromFirstTextEdge(nodes, edges, nodeId, u)
  {
    var p := edges[..n];
    var i :| 0 <= i < |p| && IsTextEdge(p[i], nodeId) && TextOn(nodes, p[i]) == u.text && p[i].source == u.sourceId
      && forall j :: 0 <= j < i ==> !(IsTextEdge(p[j], nodeId) && TextOn(nodes, p[j]) == u.text);
    assert forall j :: 0 <= j <= i ==> edges[j] == p[j];
  }

  lemma {:induction false} RawTextsElements(nodes: seq<Node>, edges: seq<Edge>, nodeId: string, t: string)
    ensures t in RawTexts(nodes, edges, nodeId) <==>
            t != "" && exists i :: 0 <= i < |edges| && IsTextEdge(edges[i], nodeId) && TextOn(nodes, edges[i]) == t
  {
    if edges != [] {
      var n := |edges| - 1;
      var prev := edges[..n];
      RawTextsElements(nodes, prev, nodeId, t);
      assert forall i :: 0 <= i < n ==> edges[i] == prev[i];
    }
  }

  /** `_collect_upstream_texts`: each distinct non-blank prompt-edge text once, in
      order of first appearance, with the first edge that carries it. */
  method CollectTexts(nodeId: string, nodes: seq<Node>, edges: seq<Edge>) returns (texts: seq<Upstream>)
    ensures TextsOf(texts) == Firsts(RawTexts(nodes, edges, nodeId))
    ensures forall k :: 0 <= k < |texts| ==> FromFirstTextEdge(nodes, edges, nodeId, texts[k])
  {
    var nodeById := IndexNodes(nodes);
    texts := [];
    var seen: set<string> := {};
    assert TextsOf(texts) == Firsts(RawTexts(nodes, edges[..0], nodeId));
    hide *;
    for i := 0 to |edges|
      invariant TextsOf(texts) == Firsts(RawTexts(nodes, edges[..i], nodeId))
      invariant forall t :: t in seen <==> t in TextsOf(texts)
      invariant forall k :: 0 <= k < |texts| ==> FromFirstTextEdge(nodes, edges[..i], nodeId, texts[k])
    {
      var e := edges[i];
      TextOnIs(nodes, nodeById, e);
      var text := if e.source in nodeById then Strip(nodeById[e.source].outputText) else "";
      NextTextsIs(nodes, e, nodeId, texts);
      TextStep(nodes, edges, i, nodeId, texts);
      TextSourceStep(nodes, edges, i, nodeId, texts);
      if IsTextEdge(e, nodeId) && text != "" && text !in seen {
        seen := seen + {text};
        texts := texts + [Upstream(text, e.source)];
      }
    }
    assert edges[..|edges|] == edges;
  }

  lemma TextOnIs(nodes: seq<Node>, nodeById: map<string, Node>, e: Edge)
    requires IndexView(nodes, nodeById, e.source)
    ensures TextOn(nodes, e) == if e.source in nodeById then Strip(nodeById[e.source].outputText) else ""
  {
    hide Lookup, Strip;
  }

  lemma NextTextsIs(nodes: seq<Node>, e: Edge, nodeId: string, texts: seq<Upstream>)
    ensures var t := TextOn(nodes, e);
            NextTexts(nodes, e, nodeId, texts) ==
            if IsTextEdge(e, nodeId) && t != "" && t !in TextsOf(texts) then texts + [Upstream(t, e.source)] else texts
  {
  }

  /** The texts after one more edge. */
  function NextTexts(nodes: seq<Node>, e: Edge, nodeId: string, texts: seq<Upstream>): seq<Upstream> {
    var t := TextOn(nodes, e);
    if IsTextEdge(e, nodeId) && t != "" && t !in TextsOf(texts) then texts + [Upstream(t, e.source)] else texts
  }

  lemma TextsOfSnoc(texts: seq<Upstream>, u: Upstream)
    ensures TextsOf(texts + [u]) == TextsOf(texts) + [u.text]
  {
    assert (texts + [u])[..|texts|] == texts;
  }

  lemma TextStep(nodes: seq<Node>, edges: seq<Edge>, i: nat, nodeId: string, texts: seq<Upstream>)
    requires i < |edges| && TextsOf(texts) == Firsts(RawTexts(nodes, edges[..i], nodeId))
    ensures TextsOf(NextTexts(nodes, edges[i], nodeId, texts)) == Firsts(RawTexts(nodes, edges[..i + 1], nodeId))
    ensures forall u: Upstream :: TextsOf(texts + [u]) == TextsOf(texts) + [u.text]
  {
    hide Firsts, TextOn, TextsOf;
    assert edges[..i + 1][..i] == edges[..i];
    FirstsSnoc(RawTexts(nodes, edges[..i], nodeId), TextOn(nodes, edges[i]));
    forall u: Upstream
      ensures TextsOf(texts + [u]) == TextsOf(texts) + [u.text]
    {
      TextsOfSnoc(texts, u);
    }
  }

  lemma TextSourceStep(nodes: seq<Node>, edges: seq<Edge>, i: nat, nodeId: string, texts: seq<Upstream>)
    requires i < |edges| && TextsOf(texts) == Firsts(RawTexts(nodes, edges[..i], nodeId))
    requires forall k :: 0 <= k < |texts| ==> FromFirstTextEdge(nodes, edges[..i], nodeId, texts[k])
    ensures var texts' := NextTexts(nodes, edges[i], nodeId, texts);
            forall k :: 0 <= k < |texts'| ==> FromFirstTextEdge(nodes, edges[..i + 1], nodeId, texts'[k])
  {
    var e, t, p := edges[i], TextOn(nodes, edges[i]), edges[..i + 1];
    assert p[..i] == edges[..i];
    forall k | 0 <= k < |texts|
      ensures FromFirstTextEdge(nodes, p, nodeId, texts[k])
    {
      FromFirstTextEdgePrefix(nodes, p, i, nodeId, texts[k]);
    }
    if IsTextEdge(e, nodeId) && t != "" && t !in TextsOf(texts) {
      FirstsElements(RawTexts(nodes, edges[..i], nodeId));
      RawTextsElements(nodes, edges[..i], nodeId, t);
      hide Firsts, RawTexts, TextOn, TextsOf;
      assert forall j :: 0 <= j < i ==> p[j] == edges[..i][j];
      assert IsTextEdge(p[i], nodeId) && TextOn(nodes, p[i]) == t;
      assert FromFirstTextEdge(nodes, p, nodeId, Upstream(t, e.source));
    }
  }

  // ----- Slots -----

  /** No two slots of a resolved input share a label, whatever their kinds. */
  lemma LabelsAreDistinct(nodes: seq<Node>, edges: seq<Edge>, nodeId: string, refs: seq<RefSlot>, j: nat, k: nat)
    requires Slotted(nodes, edges, nodeId, refs) && j < k < |refs|
    ensures refs[j].mediaLabel != refs[k].mediaLabel
  {
    hide Connected, FromFirstRefEdge, MediaLabel;
    if refs[j].mediaLabel == refs[k].mediaLabel {
      LabelGivesSlot(refs[j].kind, refs[j].slot, refs[k].kind, refs[k].slot);
    }
  }

  /** Edge i is a reference edge that supplies asset x. */
  predicate Supplies(nodes: seq<Node>, e: Edge, nodeId: string, x: int) {
    IsRefEdge(e, nodeId) && x in AssetsOn(nodes, e)
  }

  /** Slot s names the first reference edge that supplies its asset, and the kind
      of that edge's source. */
  ghost predicate FromFirstRefEdge(nodes: seq<Node>, edges: seq<Edge>, nodeId: string, s: RefSlot) {
    exists i :: 0 <= i < |edges| && Supplies(nodes, edges[i], nodeId, s.assetId)
      && s.sourceId == edges[i].source && Lookup(nodes, edges[i].source).Some?
      && s.kind == Lookup(nodes, edges[i].source).value.kind
      && forall j :: 0 <= j < i ==> !Supplies(nodes, edges[j], nodeId, s.assetId)
  }

  /** The rows the resolver keeps: exactly the found sources of the edges. */
  ghost predicate RowsOf(nodes: seq<Node>, edges: seq<Edge>, rows: map<string, Node>) {
    forall i :: 0 <= i < |edges| ==>
      Lookup(nodes, edges[i].source) == if edges[i].source in rows then Some(rows[edges[i].source]) else None
  }

  /** `_find_ref_source`; `found` is false when the loop falls through to the
      source's dummy result. */
  method FindRefSource(ghost nodes: seq<Node>, edges: seq<Edge>, rows: map<string, Node>, nodeId: string, x: int)
    returns (found: bool, sourceId: string, kind: Kind)
    requires RowsOf(nodes, edges, rows)
    ensures found <==> OnRefEdge(nodes, edges, nodeId, x)
    ensures found ==> forall n, l :: FromFirstRefEdge(nodes, edges, nodeId, RefSlot(n, l, x, sourceId, kind))
  {
    for i := 0 to |edges|
      invariant forall j :: 0 <= j < i ==> !Supplies(nodes, edges[j], nodeId, x)
    {
      var e := edges[i];
      if IsRefEdge(e, nodeId) && e.source in rows && x in rows[e.source].assetIds {
        assert Supplies(nodes, e, nodeId, x);
        return true, e.source, rows[e.source].kind;
      }
    }
    return false, "", ImageKind;
  }

  /** `resolve_node_inputs` over the incoming graph. */
  method Resolve(nodes: seq<Node>, edges: seq<Edge>, nodeId: string) returns (r: Resolved)
    ensures r == NotFound <==> Lookup(nodes, nodeId) == None
    ensures r.Inputs? ==>
      && r.localPrompt == Strip(Lookup(nodes, nodeId).value.prompt)
      && r.waiting == Waits(nodes, edges)
      && TextsOf(r.texts) == Firsts(RawTexts(nodes, edges, nodeId))
      && (forall k :: 0 <= k < |r.texts| ==> FromFirstTextEdge(nodes, edges, nodeId, r.texts[k]))
      && Slotted(nodes, edges, nodeId, r.refs)
      && r.libraryIds == FirstPositives(Ints(Lookup(nodes, nodeId).value.libraryRefs))
  {
    var nodesById := IndexNodes(nodes);
    assert IndexView(nodes, nodesById, nodeId);
    if nodeId !in nodesById {
      return NotFound;
    }
    var target := nodesById[nodeId];
    LookupHasId(nodes, nodeId);
    var waiting, graphNodes, rows := WalkEdges(nodes, nodesById, edges, target);
    SameView(nodes, graphNodes, edges, nodeId);
    var texts := CollectTexts(nodeId, graphNodes, edges);
    forall k | 0 <= k < |texts|
      ensures FromFirstTextEdge(nodes, edges, nodeId, texts[k])
    {
      SameTextEdge(nodes, graphNodes, edges, nodeId, texts[k]);
    }
    var connected := PickConnected(nodeId, graphNodes, edges);
    var refs := NumberSlots(nodes, edges, rows, nodeId, connected);
    var library := CollectIds(target.libraryRefs);
    return Inputs(Strip(target.prompt), texts, refs, library, waiting);
  }

  /** Slots are numbered from one without gaps, list the connected assets in
      order, and each names the first edge that supplies its asset. */
  ghost predicate Slotted(nodes: seq<Node>, edges: seq<Edge>, nodeId: string, refs: seq<RefSlot>) {
    && |refs| == |Connected(nodes, edges, nodeId)|
    && (forall k :: 0 <= k < |refs| ==> refs[k].slot == k + 1)
    && (forall k :: 0 <= k < |refs| ==> refs[k].assetId == Connected(nodes, edges, nodeId)[k])
    && (forall k :: 0 <= k < |refs| ==> refs[k].mediaLabel == MediaLabel(refs[k].kind, refs[k].slot))
    && (forall k :: 0 <= k < |refs| ==> FromFirstRefEdge(nodes, edges, nodeId, refs[k]))
  }

  method NumberSlots(ghost nodes: seq<Node>, edges: seq<Edge>, rows: map<string, Node>, nodeId: string,
                     connected: seq<int>)
    returns (refs: seq<RefSlot>)
    requires RowsOf(nodes, edges, rows) && connected == Connected(nodes, edges, nodeId)
    ensures Slotted(nodes, edges, nodeId, refs)
  {
    ConnectedIs(nodes, edges, nodeId);
    hide Connected, MediaLabel;
    refs := [];
    var slot := 0;
    for k := 0 to |connected|
      invariant |refs| == k == slot
      invariant forall j :: 0 <= j < k ==> refs[j].slot == j + 1 && refs[j].assetId == connected[j]
      invariant forall j :: 0 <= j < k ==> refs[j].mediaLabel == MediaLabel(refs[j].kind, refs[j].slot)
      invariant forall j :: 0 <= j < k ==> FromFirstRefEdge(nodes, edges, nodeId, refs[j])
    {
      assert connected[k] in connected;
      var found, sourceId, kind := FindRefSource(nodes, edges, rows, nodeId, connected[k]);
      assert found;   // the dummy source is never used
      slot := slot + 1;
      refs := refs + [RefSlot(slot, MediaLabel(kind, slot), connected[k], sourceId, kind)];
    }
  }

  // ----- The partial graph the resolver rebuilds -----

  /** The rebuilt node list shows every edge's source as the full graph does. */
  ghost predicate Shows(nodes: seq<Node>, graphNodes: seq<Node>, edges: seq<Edge>) {
    && (forall id :: Lookup(graphNodes, id).Some? ==> Lookup(graphNodes, id) == Lookup(nodes, id))
    && forall i :: 0 <= i < |edges| ==> Lookup(graphNodes, edges[i].source) == Lookup(nodes, edges[i].source)
  }

  /** The readiness checks on one edge whose source exists. */
  method CheckEdge(ghost nodes: seq<Node>, source: Node, e: Edge) returns (w: Option<Wait>)
    requires Lookup(nodes, e.source) == Some(source) && source.id == e.source
    ensures w == WaitFor(nodes, e)
  {
    if source.failed {
      return Some(Wait(SourceFailed, source.id));
    }
    if e.targetPort == PromptInput {
      if e.sourcePort != OutputText || Strip(source.outputText) == "" {
        return Some(Wait(TextNotReady, source.id));
      }
    }
    if e.targetPort == ReferenceAsset {
      if e.sourcePort != OutputAsset || !HasOutputAssets(source) || source.assetIds == [] {
        return Some(Wait(AssetNotReady, source.id));
      }
    }
    return None;
  }

  /** Append a source unless a node with its id is already listed. */
  method AddNode(graphNodes: seq<Node>, source: Node) returns (g: seq<Node>)
    ensures forall id :: Lookup(g, id) ==
              if id == source.id && Lookup(graphNodes, id) == None then Some(source) else Lookup(graphNodes, id)
  {
    LookupNone(graphNodes, source.id);
    LookupNext(graphNodes, source);
    hide Lookup;
    if forall n :: n in graphNodes ==> n.id != source.id {
      g := graphNodes + [source];
    } else {
      g := graphNodes;
    }
  }

  method WalkEdges(nodes: seq<Node>, nodesById: map<string, Node>, edges: seq<Edge>, target: Node)
    returns (waiting: seq<Wait>, graphNodes: seq<Node>, rows: map<string, Node>)
    requires (forall id :: IndexView(nodes, nodesById, id)) && Lookup(nodes, target.id) == Some(target)
    ensures waiting == Waits(nodes, edges)
    ensures Shows(nodes, graphNodes, edges)
    ensures RowsOf(nodes, edges, rows)
  {
    waiting, graphNodes, rows := [], [target], map[];
    assert [] + [target] == graphNodes;
    LookupNext([], target);
    assert Shows(nodes, graphNodes, edges[..0]);
    hide Lookup, WaitFor;
    for i := 0 to |edges|
      invariant waiting == Waits(nodes, edges[..i])
      invariant Shows(nodes, graphNodes, edges[..i])
      invariant forall id :: id in rows ==> Lookup(nodes, id) == Some(rows[id])
      invariant forall j :: 0 <= j < i && Lookup(nodes, edges[j].source).Some? ==> edges[j].source in rows
    {
      var e := edges[i];
      assert edges[..i + 1][..i] == edges[..i];
      assert IndexView(nodes, nodesById, e.source);
      if e.source !in nodesById {
        MissingEdge(nodes, e);
        waiting := waiting + [Wait(SourceMissing, e.source)];
      } else {
        var source := nodesById[e.source];
        LookupHasId(nodes, e.source);
        rows := rows[source.id := source];
        graphNodes := AddNode(graphNodes, source);
        var w := CheckEdge(nodes, source, e);
        if w.Some? {
          waiting := waiting + [w.value];
        }
      }
    }
    assert edges[..|edges|] == edges;
  }

  lemma MissingEdge(nodes: seq<Node>, e: Edge)
    requires Lookup(nodes, e.source) == None
    ensures WaitFor(nodes, e) == Some(Wait(SourceMissing, e.source))
  {
  }

  lemma LookupNext(nodes: seq<Node>, n: Node)
    ensures forall id :: Lookup(nodes + [n], id) == if n.id == id then Some(n) else Lookup(nodes, id)
  {
    assert (nodes + [n])[..|nodes|] == nodes;
  }

  lemma {:induction false} LookupNone(nodes: seq<Node>, id: string)
    ensures Lookup(nodes, id) == None <==> forall n :: n in nodes ==> n.id != id
  {
    if nodes != [] {
      var m := |nodes| - 1;
      LookupNone(nodes[..m], id);
      assert nodes == nodes[..m] + [nodes[m]];
    }
  }

  lemma {:induction false} LookupHasId(nodes: seq<Node>, id: string)
    ensures Lookup(nodes, id).Some? ==> Lookup(nodes, id).value.id == id
  {
    if nodes != [] {
      LookupHasId(nodes[..|nodes| - 1], id);
    }
  }

  lemma {:induction false} SameView(nodes: seq<Node>, graphNodes: seq<Node>, edges: seq<Edge>, nodeId: string)
    requires Shows(nodes, graphNodes, edges)
    ensures Gathered(graphNodes, edges, nodeId) == Gathered(nodes, edges, nodeId)
    ensures RawTexts(graphNodes, edges, nodeId) == RawTexts(nodes, edges, nodeId)
  {
    if edges != [] {
      SameView(nodes, graphNodes, edges[..|edges| - 1], nodeId);
    }
  }

  lemma SameTextEdge(nodes: seq<Node>, graphNodes: seq<Node>, edges: seq<Edge>, nodeId: string, u: Upstream)
    requires Shows(nodes, graphNodes, edges) && FromFirstTextEdge(graphNodes, edges, nodeId, u)
    ensures FromFirstTextEdge(nodes, edges, nodeId, u)
  {
    assert forall i :: 0 <= i < |edges| ==> TextOn(graphNodes, edges[i]) == TextOn(nodes, edges[i]);
  }

  // ----- What a ready node has received -----

  lemma {:induction false} WaitsEmpty(nodes: seq<Node>, edges: seq<Edge>)
    ensures Waits(nodes, edges) == [] <==> forall i :: 0 <= i < |edges| ==> WaitFor(nodes, edges[i]) == None
  {
    if edges != [] {
      var n := |edges| - 1;
      WaitsEmpty(nodes, edges[..n]);
      assert forall i :: 0 <= i < n ==> edges[i] == edges[..n][i];
    }
  }

  /** What an edge needs: a source that has not failed; on a prompt port a text
      that is not blank, sent from the text port; on a reference port an asset
      list that is not empty and a real asset or path, sent from the asset port. */
  ghost predicate Ready(nodes: seq<Node>, e: Edge) {
    var found := Lookup(nodes, e.source);
    && found.Some? && !found.value.failed
    && (e.targetPort == PromptInput ==> e.sourcePort == OutputText && Strip(found.value.outputText) != "")
    && (e.targetPort == ReferenceAsset ==>
          && e.sourcePort == OutputAsset && found.value.assetIds != []
          && (|| (exists x :: x in found.value.assetIds && x > 0)
              || (found.value.assetId.Some? && found.value.assetId.value > 0) || Strip(found.value.path) != ""))
  }

  /** An edge waits exactly when it is not ready, always for its own source, and
      for the first reason that applies: the source is missing, has failed, or has
      not delivered what the port asks for. */
  lemma WaitIsExact(nodes: seq<Node>, e: Edge)
    ensures var w, found := WaitFor(nodes, e), Lookup(nodes, e.source);
            && (w == None <==> Ready(nodes, e))
            && (w.Some? ==>
                  && w.value.sourceId == e.source
                  && (w.value.reason == SourceMissing <==> found == None)
                  && (w.value.reason == SourceFailed <==> found.Some? && found.value.failed)
                  && (w.value.reason == TextNotReady <==>
                        found.Some? && !found.value.failed && e.targetPort == PromptInput)
                  && (w.value.reason == AssetNotReady <==>
                        found.Some? && !found.value.failed && e.targetPort == ReferenceAsset))
  {
    var found := Lookup(nodes, e.source);
    if found.Some? {
      PositiveMember(found.value.assetIds);
    }
    hide Strip, Lookup;
  }

  lemma PositiveMember(ids: seq<int>)
    ensures (exists i :: 0 <= i < |ids| && ids[i] > 0) <==> exists x :: x in ids && x > 0
  {
    if i :| 0 <= i < |ids| && ids[i] > 0 {
      assert ids[i] in ids;
    }
  }

  ghost function Unready(nodes: seq<Node>, edges: seq<Edge>): seq<bool> {
    seq(|edges|, i requires 0 <= i < |edges| => !Ready(nodes, edges[i]))
  }

  /** The waits are those of the edges that are not ready, one each, in edge order. */
  lemma {:induction false} WaitsAreExact(nodes: seq<Node>, edges: seq<Edge>) returns (at: seq<nat>)
    ensures Lists(at, Unready(nodes, edges)) && |at| == |Waits(nodes, edges)|
    ensures forall k :: 0 <= k < |at| ==> Some(Waits(nodes, edges)[k]) == WaitFor(nodes, edges[at[k]])
  {
    hide WaitFor, Ready, Lists;
    if edges == [] {
      NothingListed();
      return [];
    }
    var n := |edges| - 1;
    var before := WaitsAreExact(nodes, edges[..n]);
    WaitIsExact(nodes, edges[n]);
    ListsNext(before, Unready(nodes, edges[..n]), !Ready(nodes, edges[n]));
    assert Unready(nodes, edges) == Unready(nodes, edges[..n]) + [!Ready(nodes, edges[n])];
    at := ListNext(before, n, !Ready(nodes, edges[n]));
    ListedBelow(before, Unready(nodes, edges[..n]));
    WaitsFollow(nodes, edges, before);
  }

  lemma WaitsFollow(nodes: seq<Node>, edges: seq<Edge>, before: seq<nat>)
    requires edges != [] && |before| == |Waits(nodes, edges[..|edges| - 1])|
    requires forall k :: 0 <= k < |before| ==>
               before[k] < |edges| - 1 && Some(Waits(nodes, edges[..|edges| - 1])[k]) == WaitFor(nodes, edges[before[k]])
    ensures var at := ListNext(before, |edges| - 1, !Ready(nodes, edges[|edges| - 1]));
            && |at| == |Waits(nodes, edges)|
            && forall k :: 0 <= k < |at| ==>
                 at[k] < |edges| && Some(Waits(nodes, edges)[k]) == WaitFor(nodes, edges[at[k]])
  {
    WaitIsExact(nodes, edges[|edges| - 1]);
    hide WaitFor, Ready;
  }

  lemma {:induction false} TextsOfAt(us: seq<Upstream>)
    ensures |TextsOf(us)| == |us| && forall k :: 0 <= k < |us| ==> TextsOf(us)[k] == us[k].text
  {
    if us != [] {
      TextsOfAt(us[..|us| - 1]);
    }
  }

  /** The slots of any resolved input: numbered 1..n, assets distinct and
      positive, and exactly the positive assets on reference edges. */
  lemma SlotsAreExact(nodes: seq<Node>, edges: seq<Edge>, nodeId: string, refs: seq<RefSlot>)
    requires Slotted(nodes, edges, nodeId, refs)
    ensures forall j, k :: 0 <= j < k < |refs| ==> refs[j].assetId != refs[k].assetId
    ensures forall x :: (exists k :: 0 <= k < |refs| && refs[k].assetId == x) <==>
                        x > 0 && OnRefEdge(nodes, edges, nodeId, x)
  {
    ConnectedIs(nodes, edges, nodeId);
    var c := Connected(nodes, edges, nodeId);
    hide Connected;
    forall x
      ensures (exists k :: 0 <= k < |refs| && refs[k].assetId == x) <==> x in c
    {
      if x in c {
        var k :| 0 <= k < |c| && c[k] == x;
        assert refs[k].assetId == x;
      }
    }
  }

  /** When nothing is waited for, every reference edge of the node contributes
      all its positive assets ... */
  lemma ReadyMeansAllAssets(nodes: seq<Node>, edges: seq<Edge>, nodeId: string, refs: seq<RefSlot>, i: nat, x: int)
    requires Waits(nodes, edges) == [] && Slotted(nodes, edges, nodeId, refs)
    requires i < |edges| && edges[i].target == nodeId && edges[i].targetPort == ReferenceAsset
    ensures Lookup(nodes, edges[i].source).Some? && !Lookup(nodes, edges[i].source).value.failed
    ensures Lookup(nodes, edges[i].source).value.assetIds != []
    ensures x in Lookup(nodes, edges[i].source).value.assetIds && x > 0 ==>
              exists k :: 0 <= k < |refs| && refs[k].assetId == x
  {
    WaitsEmpty(nodes, edges);
    assert WaitFor(nodes, edges[i]) == None;
    SlotsAreExact(nodes, edges, nodeId, refs);
    hide Slotted;
    if x in Lookup(nodes, edges[i].source).value.assetIds && x > 0 {
      assert IsRefEdge(edges[i], nodeId) && x in AssetsOn(nodes, edges[i]);
      assert OnRefEdge(nodes, edges, nodeId, x);
    }
  }

  lemma ReadyTextEdge(nodes: seq<Node>, e: Edge, nodeId: string)
    requires WaitFor(nodes, e) == None && e.target == nodeId && e.targetPort == PromptInput
    ensures IsTextEdge(e, nodeId) && TextOn(nodes, e) != ""
  {
    hide Strip, Lookup;
  }

  lemma ListedText(texts: seq<Upstream>, t: string)
    requires t in TextsOf(texts)
    ensures exists k :: 0 <= k < |texts| && texts[k].text == t
  {
    TextsOfAt(texts);
    var k :| 0 <= k < |TextsOf(texts)| && TextsOf(texts)[k] == t;
    assert texts[k].text == t;
  }

  /** ... and every prompt edge its text. */
  lemma ReadyMeansAllTexts(nodes: seq<Node>, edges: seq<Edge>, nodeId: string, texts: seq<Upstream>, i: nat)
    requires Waits(nodes, edges) == [] && TextsOf(texts) == Firsts(RawTexts(nodes, edges, nodeId))
    requires i < |edges| && edges[i].target == nodeId && edges[i].targetPort == PromptInput
    ensures TextOn(nodes, edges[i]) != ""
    ensures exists k :: 0 <= k < |texts| && texts[k].text == TextOn(nodes, edges[i])
  {
    hide *;
    WaitsEmpty(nodes, edges);
    ReadyTextEdge(nodes, edges[i], nodeId);
    RawTextsElements(nodes, edges, nodeId, TextOn(nodes, edges[i]));
    FirstsElements(RawTexts(nodes, edges, nodeId));
    ListedText(texts, TextOn(nodes, edges[i]));
  }
}
