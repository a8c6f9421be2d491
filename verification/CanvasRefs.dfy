/** Collecting the reference assets of a canvas node: along its incoming reference
    edges, from prompt content, mentions and manual picks, and from the node's own
    library tags.  Each collector is a loop over a list and a `seen` set; each is
    proved to list the first positive occurrences of its raw input. */
module CanvasRefs {
  import opened Options
  import opened Sets
  import opened FirstOccurrences

  datatype Kind = TextKind | ImageKind | VideoKind | AudioKind

  datatype SourcePort = OutputText | OutputAsset

  datatype TargetPort = PromptInput | ReferenceAsset

  /** A node as the resolver reads it; a library reference without an integer
      asset id is None. */
  datatype Node = Node(
    id: string, kind: Kind, failed: bool, prompt: string, outputText: string,
    assetIds: seq<int>, assetId: Option<int>, path: string, libraryRefs: seq<Option<int>>)

  datatype Edge = Edge(source: string, target: string, sourcePort: SourcePort, targetPort: TargetPort)

  /** A dictionary keyed by id: the last node with an id wins. */
  function Lookup(nodes: seq<Node>, id: string): Option<Node> {
    if nodes == [] then None
    else if nodes[|nodes| - 1].id == id then Some(nodes[|nodes| - 1])
    else Lookup(nodes[..|nodes| - 1], id)
  }

  predicate IsRefEdge(e: Edge, nodeId: string) {
    e.target == nodeId && e.targetPort == ReferenceAsset && e.sourcePort == OutputAsset
  }

  function AssetsOn(nodes: seq<Node>, e: Edge): seq<int> {
    var n := Lookup(nodes, e.source);
    if n.Some? then n.value.assetIds else []
  }

  /** Every asset id on every reference edge, in edge order, with repetitions. */
  function Gathered(nodes: seq<Node>, edges: seq<Edge>, nodeId: string): seq<int> {
    if edges == [] then []
    else
      var before, e := Gathered(nodes, edges[..|edges| - 1], nodeId), edges[|edges| - 1];
      if IsRefEdge(e, nodeId) then before + AssetsOn(nodes, e) else before
  }

  function FirstPositives(xs: seq<int>): seq<int> {
    Firsts(Positives(xs))
  }

  function Connected(nodes: seq<Node>, edges: seq<Edge>, nodeId: string): seq<int> {
    FirstPositives(Gathered(nodes, edges, nodeId))
  }

  function Ints(xs: seq<Option<int>>): seq<int> {
    if xs == [] then []
    else if xs[|xs| - 1].Some? then Ints(xs[..|xs| - 1]) + [xs[|xs| - 1].value]
    else Ints(xs[..|xs| - 1])
  }

  /** A content segment: whether it is a media segment, and its asset id if any. */
  datatype Segment = Segment(media: bool, assetId: Option<int>)

  function MediaIds(content: seq<Segment>): seq<Option<int>> {
    if content == [] then []
    else if content[|content| - 1].media then MediaIds(content[..|content| - 1]) + [content[|content| - 1].assetId]
    else MediaIds(content[..|content| - 1])
  }

  ghost predicate IndexView(nodes: seq<Node>, m: map<string, Node>, id: string) {
    Lookup(nodes, id) == if id in m then Some(m[id]) else None
  }

  method IndexNodes(nodes: seq<Node>) returns (m: map<string, Node>)
    ensures forall id :: IndexView(nodes, m, id)
  {
    m := map[];
    for i := 0 to |nodes|
      invariant forall id :: IndexView(nodes[..i], m, id)
    {
      assert nodes[..i + 1][..i] == nodes[..i];
      ghost var m0 := m;
      m := m[nodes[i].id := nodes[i]];
      ghost var next := nodes[..i + 1];
      forall id
        ensures IndexView(next, m, id)
      {
        assert IndexView(nodes[..i], m0, id);
      }
    }
    assert nodes[..|nodes|] == nodes;
  }

  method PickConnected(nodeId: string, nodes: seq<Node>, edges: seq<Edge>) returns (ids: seq<int>)
    ensures ids == Connected(nodes, edges, nodeId)
  {
    var nodeById := IndexNodes(nodes);
    ids := [];
    var seen: set<int> := {};
    for i := 0 to |edges|
      invariant seen == Members(ids) && ids == FirstPositives(Gathered(nodes, edges[..i], nodeId))
    {
      assert edges[..i + 1][..i] == edges[..i];
      var e := edges[i];
      if IsRefEdge(e, nodeId) {
        assert IndexView(nodes, nodeById, e.source);
        var raw := if e.source in nodeById then nodeById[e.source].assetIds else [];
        ids, seen := PushAll(ids, seen, raw, Gathered(nodes, edges[..i], nodeId));
      }
    }
    assert edges[..|edges|] == edges;
  }

  /** Library tags and content segments: entries without an integer id are
      skipped, the rest contribute their first positive occurrences. */
  method CollectIds(refs: seq<Option<int>>) returns (ids: seq<int>)
    ensures ids == FirstPositives(Ints(refs))
  {
    ids := [];
    var seen: set<int> := {};
    for i := 0 to |refs|
      invariant seen == Members(ids) && ids == FirstPositives(Ints(refs[..i]))
    {
      assert refs[..i + 1][..i] == refs[..i];
      if refs[i].Some? {
        PushStep(Ints(refs[..i]), refs[i].value);
        ids, seen := PushUnique(ids, seen, refs[i].value);
      }
    }
    assert refs[..|refs|] == refs;
  }

  datatype Collected = Refs(ids: seq<int>) | BadMention | BadManualRef

  ghost predicate AllPositive(xs: seq<int>) {
    forall i :: 0 <= i < |xs| ==> xs[i] > 0
  }

  lemma FirstPositivesNext(xs: seq<int>, x: int)
    ensures var kept := FirstPositives(xs);
            FirstPositives(xs + [x]) == if x <= 0 || x in kept then kept else kept + [x]
  {
    PushStep(xs, x);
  }

  /** `collect_asset_ids_from_mention_items`: fails on the first id below one. */
  method CollectMentions(mentions: seq<int>) returns (ok: bool, ids: seq<int>)
    ensures ok <==> AllPositive(mentions)
    ensures ok ==> ids == FirstPositives(mentions)
  {
    ok, ids := false, [];
    var seen: set<int> := {};
    assert seen == Members(ids) && ids == FirstPositives(mentions[..0]);
    hide FirstPositives, Firsts, Positives, Members;
    for i := 0 to |mentions|
      invariant AllPositive(mentions[..i]) && !ok
      invariant seen == Members(ids) && ids == FirstPositives(mentions[..i])
    {
      if mentions[i] <= 0 {
        return;
      }
      assert mentions[..i + 1] == mentions[..i] + [mentions[i]];
      FirstPositivesNext(mentions[..i], mentions[i]);
      ids, seen := PushUnique(ids, seen, mentions[i]);
    }
    assert mentions[..|mentions|] == mentions;
    ok := true;
  }

  /** The manual segment, pushed onto what has been merged so far. */
  method PushManual(merged: seq<int>, seen: set<int>, manual: seq<int>, ghost before: seq<int>)
    returns (ok: bool, ids: seq<int>, seen': set<int>)
    requires seen == Members(merged) && merged == FirstPositives(before)
    ensures ok <==> AllPositive(manual)
    ensures ok ==> seen' == Members(ids) && ids == FirstPositives(before + manual)
  {
    hide Firsts, Positives, Members;
    ok, ids, seen' := false, merged, seen;
    assert before + manual[..0] == before;
    for i := 0 to |manual|
      invariant AllPositive(manual[..i]) && !ok
      invariant seen' == Members(ids) && ids == FirstPositives(before + manual[..i])
    {
      if manual[i] <= 0 {
        return;
      }
      PushStep(before + manual[..i], manual[i]);
      assert before + manual[..i] + [manual[i]] == before + manual[..i + 1];
      ids, seen' := PushUnique(ids, seen', manual[i]);
    }
    assert manual[..|manual|] == manual;
    ok := true;
  }

  /** The five-segment merge.  Three of the segments arrive already collected;
      the result is nevertheless the first positive occurrences of the plain
      concatenation of the raw segments. */
  method CollectSubmitRefs(content: seq<Segment>, connected: seq<int>, manual: seq<int>,
                           mentions: seq<int>, library: seq<int>) returns (r: Collected)
    ensures r == BadMention <==> !AllPositive(mentions)
    ensures r == BadManualRef <==> AllPositive(mentions) && !AllPositive(manual)
    ensures r.Refs? ==>
              r.ids == FirstPositives(connected + Ints(MediaIds(content)) + mentions + manual + library)
  {
    var ids, seen := PushAll([], {}, connected, []);
    assert [] + connected == connected;
    hide Firsts, Positives, Members, Ints, MediaIds, AllPositive;

    var media := MediaOf(content);
    var fromContent := CollectIds(media);
    ids, seen := PushAll(ids, seen, fromContent, connected);
    CollectedSegment(connected, Ints(media));
    ghost var two := connected + Ints(media);

    var ok, fromMentions := CollectMentions(mentions);
    if !ok {
      return BadMention;
    }
    ids, seen := PushAll(ids, seen, fromMentions, two);
    CollectedSegment(two, mentions);

    ok, ids, seen := PushManual(ids, seen, manual, two + mentions);
    if !ok {
      return BadManualRef;
    }
    ids, seen := PushAll(ids, seen, library, two + mentions + manual);
    return Refs(ids);
  }

  method MediaOf(content: seq<Segment>) returns (ids: seq<Option<int>>)
    ensures ids == MediaIds(content)
  {
    ids := [];
    for i := 0 to |content|
      invariant ids == MediaIds(content[..i])
    {
      assert content[..i + 1][..i] == content[..i];
      if content[i].media {
        ids := ids + [content[i].assetId];
      }
    }
    assert content[..|content|] == content;
  }

  /** Collecting a segment before merging it changes nothing. */
  lemma CollectedSegment(a: seq<int>, b: seq<int>)
    ensures FirstPositives(a + FirstPositives(b)) == FirstPositives(a + b)
  {
    var once := FirstPositives(b);
    FirstPositivesArePositive(b);
    PositivesOfPositive(once);
    PositivesAppend(a, once);
    PositivesAppend(a, b);
    FirstsAppendRight(Positives(a), Positives(b));
  }

  lemma FirstPositivesArePositive(xs: seq<int>)
    ensures AllPositive(FirstPositives(xs)) && Distinct(FirstPositives(xs))
    ensures forall x :: x in FirstPositives(xs) <==> x in xs && x > 0
  {
    PositivesElements(xs);
    FirstsElements(Positives(xs));
    var r := FirstPositives(xs);
    forall i | 0 <= i < |r|
      ensures r[i] > 0
    {
      assert r[i] in r;
    }
  }

  // ----- The raw inputs -----

  /** Edge lists add up, and a single edge gives the assets of its source, in their
      order, if it is a reference edge into the node. */
  lemma {:induction false} GatheredInOrder(nodes: seq<Node>, a: seq<Edge>, b: seq<Edge>, nodeId: string)
    ensures Gathered(nodes, a + b, nodeId) == Gathered(nodes, a, nodeId) + Gathered(nodes, b, nodeId)
    ensures |b| == 1 ==>
              Gathered(nodes, b, nodeId) ==
              if b[0].target == nodeId && b[0].targetPort == ReferenceAsset && b[0].sourcePort == OutputAsset
                 && Lookup(nodes, b[0].source).Some?
              then Lookup(nodes, b[0].source).value.assetIds else []
    decreases |b|
  {
    if b == [] {
      assert a + b == a;
    } else {
      var n := |b| - 1;
      assert (a + b)[..|a + b| - 1] == a + b[..n] && (a + b)[|a + b| - 1] == b[n];
      GatheredInOrder(nodes, a, b[..n], nodeId);
    }
  }

  /** References add up, and a single one gives its integer id, if it has one. */
  lemma {:induction false} IntsInOrder(a: seq<Option<int>>, b: seq<Option<int>>)
    ensures Ints(a + b) == Ints(a) + Ints(b)
    ensures |b| == 1 ==> Ints(b) == if b[0].Some? then [b[0].value] else []
    decreases |b|
  {
    if b == [] {
      assert a + b == a;
    } else {
      var n := |b| - 1;
      assert (a + b)[..|a + b| - 1] == a + b[..n] && (a + b)[|a + b| - 1] == b[n];
      IntsInOrder(a, b[..n]);
    }
  }

  /** Content adds up, and a single segment counts if it is a media segment. */
  lemma {:induction false} MediaInOrder(a: seq<Segment>, b: seq<Segment>)
    ensures MediaIds(a + b) == MediaIds(a) + MediaIds(b)
    ensures |b| == 1 ==> MediaIds(b) == if b[0].media then [b[0].assetId] else []
    decreases |b|
  {
    if b == [] {
      assert a + b == a;
    } else {
      var n := |b| - 1;
      assert (a + b)[..|a + b| - 1] == a + b[..n] && (a + b)[|a + b| - 1] == b[n];
      MediaInOrder(a, b[..n]);
    }
  }

  /** x is on some reference edge of the node. */
  ghost predicate OnRefEdge(nodes: seq<Node>, edges: seq<Edge>, nodeId: string, x: int) {
    exists i :: 0 <= i < |edges| && IsRefEdge(edges[i], nodeId) && x in AssetsOn(nodes, edges[i])
  }

  lemma {:induction false} GatheredElements(nodes: seq<Node>, edges: seq<Edge>, nodeId: string, x: int)
    ensures x in Gathered(nodes, edges, nodeId) <==> OnRefEdge(nodes, edges, nodeId, x)
  {
    if edges != [] {
      var n := |edges| - 1;
      var prev := edges[..n];
      GatheredElements(nodes, prev, nodeId, x);
      if OnRefEdge(nodes, edges, nodeId, x) {
        var i :| 0 <= i < |edges| && IsRefEdge(edges[i], nodeId) && x in AssetsOn(nodes, edges[i]);
        assert i < n ==> IsRefEdge(prev[i], nodeId) && x in AssetsOn(nodes, prev[i]);
      }
      if OnRefEdge(nodes, prev, nodeId, x) {
        var i :| 0 <= i < |prev| && IsRefEdge(prev[i], nodeId) && x in AssetsOn(nodes, prev[i]);
        assert IsRefEdge(edges[i], nodeId) && x in AssetsOn(nodes, edges[i]);
      }
    }
  }

  /** The connected list holds exactly the positive assets on reference edges,
      each once, in order of first appearance. */
  lemma ConnectedIs(nodes: seq<Node>, edges: seq<Edge>, nodeId: string)
    ensures Distinct(Connected(nodes, edges, nodeId)) && AllPositive(Connected(nodes, edges, nodeId))
    ensures forall x :: x in Connected(nodes, edges, nodeId) <==> x > 0 && OnRefEdge(nodes, edges, nodeId, x)
    ensures ListsFirsts(Positives(Gathered(nodes, edges, nodeId)), Connected(nodes, edges, nodeId))
  {
    var g := Gathered(nodes, edges, nodeId);
    FirstPositivesArePositive(g);
    FirstsLists(Positives(g));
    forall x
      ensures x in g <==> OnRefEdge(nodes, edges, nodeId, x)
    {
      GatheredElements(nodes, edges, nodeId, x);
    }
  }
}
