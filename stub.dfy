/**
 * `StubVisionProvider`: a fixed three-node flowchart, whatever the image and
 * prompt, and what graph inference makes of it.
 */
module StubVision {
  import opened Wrappers
  import opened JsonValue
  import opened Inference

  function NodeEntry(id: string, caption: string, shape: string, y: int): Json {
    JObj([("id", JStr(id)), ("label", JStr(caption)), ("shape", JStr(shape)),
          ("bbox", JArr([JInt(50), JInt(y), JInt(100), JInt(50)]))])
  }

  function EdgeEntry(source: string, target: string): Json {
    JObj([("from", JStr(source)), ("to", JStr(target)), ("type", JStr("arrow")), ("label", JStr(""))])
  }

  /** Reading back the four keys of a node entry. */
  lemma NodeEntryLookups(id: string, caption: string, shape: string, y: int)
    ensures var f := NodeEntry(id, caption, shape, y).fields;
      && Lookup(f, "id") == Some(JStr(id))
      && Lookup(f, "label") == Some(JStr(caption))
      && Lookup(f, "shape") == Some(JStr(shape))
      && Lookup(f, "bbox") == Some(JArr([JInt(50), JInt(y), JInt(100), JInt(50)]))
  {
    var f := NodeEntry(id, caption, shape, y).fields;
    assert f[..3][..2] == f[..2] && f[..2][..1] == f[..1];
    assert Lookup(f, "id") == Lookup(f[..3], "id") == Lookup(f[..2], "id") == Lookup(f[..1], "id");
    assert Lookup(f, "label") == Lookup(f[..3], "label") == Lookup(f[..2], "label");
  }

  /** Reading back the four keys of an edge entry. */
  lemma EdgeEntryLookups(source: string, target: string)
    ensures var f := EdgeEntry(source, target).fields;
      && Lookup(f, "from") == Some(JStr(source))
      && Lookup(f, "to") == Some(JStr(target))
      && Lookup(f, "type") == Some(JStr("arrow"))
      && Lookup(f, "label") == Some(JStr(""))
  {
    var f := EdgeEntry(source, target).fields;
    assert f[..3][..2] == f[..2] && f[..2][..1] == f[..1];
    assert Lookup(f, "from") == Lookup(f[..3], "from") == Lookup(f[..2], "from") == Lookup(f[..1], "from");
    assert Lookup(f, "to") == Lookup(f[..3], "to") == Lookup(f[..2], "to");
  }

  /** A node entry of the payload passes the schema unchanged, at any position. */
  lemma NodeEntryBuilds(id: string, caption: string, shape: string, y: int, k: nat)
    ensures NodeFrom(NodeEntry(id, caption, shape, y), k) == Ok(Node(id, caption, shape, Some([50, y, 100, 50])))
  {
    NodeEntryLookups(id, caption, shape, y);
    var xs := [JInt(50), JInt(y), JInt(100), JInt(50)];
    assert AllInts(xs);
    assert seq(|xs|, i requires 0 <= i < |xs| => xs[i].n) == [50, y, 100, 50];
  }

  /** The payload the stub returns. */
  function StubPayload(): Json {
    JObj([("diagram_type", JStr("flowchart")), ("nodes", JArr(StubNodeItems())), ("edges", JArr(StubEdgeItems()))])
  }

  function StubNodeItems(): seq<Json> {
    [NodeEntry("N1", "Start", "circle", 50),
     NodeEntry("N2", "Process", "rectangle", 150),
     NodeEntry("N3", "End", "circle", 250)]
  }

  function StubEdgeItems(): seq<Json> {
    [EdgeEntry("N1", "N2"), EdgeEntry("N2", "N3")]
  }

  /** `analyze(image, prompt)`: never fails and ignores both arguments. */
  function Analyze<Image>(image: Image, prompt: string): (r: Result<Json, string>)
    ensures r.Ok?
  {
    Ok(StubPayload())
  }

  /** The answer is the same for every image and prompt. */
  lemma AnalyzeIgnoresInput<Image>(image1: Image, prompt1: string, image2: Image, prompt2: string)
    ensures Analyze(image1, prompt1) == Analyze(image2, prompt2)
  {
  }

  /** The node and edge lists graph inference builds from the stub payload. */
  function StubNodes(): seq<Node> {
    [Node("N1", "Start", "circle", Some([50, 50, 100, 50])),
     Node("N2", "Process", "rectangle", Some([50, 150, 100, 50])),
     Node("N3", "End", "circle", Some([50, 250, 100, 50]))]
  }

  function StubEdges(): seq<Edge> {
    [Edge("N1", "N2", Some(""), "arrow"), Edge("N2", "N3", Some(""), "arrow")]
  }

  /** The payload as the dictionary literal states it: type, node ids and labels, edges and their endpoints. */
  lemma StubPayloadShape()
    ensures var f := StubPayload().fields;
      && Lookup(f, "diagram_type") == Some(JStr("flowchart"))
      && Lookup(f, "nodes").Some? && Lookup(f, "nodes").value.JArr?
      && Lookup(f, "edges").Some? && Lookup(f, "edges").value.JArr?
      && var nodes, edges := Lookup(f, "nodes").value.items, Lookup(f, "edges").value.items;
      && |nodes| == 3 && |edges| == 2
      && (forall k :: 0 <= k < 3 ==> nodes[k].JObj? && Lookup(nodes[k].fields, "id") == Some(JStr(["N1", "N2", "N3"][k])))
      && (forall k :: 0 <= k < 3 ==> Lookup(nodes[k].fields, "label") == Some(JStr(["Start", "Process", "End"][k])))
      && (forall k :: 0 <= k < 2 ==>
            && edges[k].JObj?
            && Lookup(edges[k].fields, "type") == Some(JStr("arrow"))
            && Lookup(edges[k].fields, "label") == Some(JStr("")))
      && (forall k :: 0 <= k < 2 ==>
            exists a, b :: 0 <= a < 3 && 0 <= b < 3
              && Lookup(edges[k].fields, "from") == Lookup(nodes[a].fields, "id")
              && Lookup(edges[k].fields, "to") == Lookup(nodes[b].fields, "id"))
  {
    var f := StubPayload().fields;
    assert f[..2] == [f[0], f[1]];
    assert f[..2][..1] == [f[0]];
    var nodes, edges := Lookup(f, "nodes").value.items, Lookup(f, "edges").value.items;
    NodeEntryLookups("N1", "Start", "circle", 50);
    NodeEntryLookups("N2", "Process", "rectangle", 150);
    NodeEntryLookups("N3", "End", "circle", 250);
    EdgeEntryLookups("N1", "N2");
    EdgeEntryLookups("N2", "N3");
    assert Lookup(edges[0].fields, "from") == Lookup(nodes[0].fields, "id");
    assert Lookup(edges[0].fields, "to") == Lookup(nodes[1].fields, "id");
    assert Lookup(edges[1].fields, "from") == Lookup(nodes[1].fields, "id");
    assert Lookup(edges[1].fields, "to") == Lookup(nodes[2].fields, "id");
  }

  /** The node loop accepts the three entries as they are. */
  lemma StubNodesBuilt()
    ensures Collect(StubNodeItems(), NodeFrom) == Ok(StubNodes())
  {
    var items, nodes := StubNodeItems(), StubNodes();
    NodeEntryBuilds("N1", "Start", "circle", 50, 0);
    NodeEntryBuilds("N2", "Process", "rectangle", 150, 1);
    NodeEntryBuilds("N3", "End", "circle", 250, 2);
    assert forall k :: 0 <= k < 3 ==> NodeFrom(items[k], k) == Ok(nodes[k]);
    CollectAll(items, NodeFrom, nodes);
  }

  /** The edge loop keeps both entries, in order. */
  lemma StubEdgesBuilt()
    ensures Filter(StubEdgeItems(), EdgeFrom) == Ok(StubEdges())
  {
    var items, edges := StubEdgeItems(), StubEdges();
    EdgeEntryLookups("N1", "N2");
    EdgeEntryLookups("N2", "N3");
    assert EdgeFrom(items[0]) == Ok(Some(edges[0]));
    assert EdgeFrom(items[1]) == Ok(Some(edges[1]));
    assert items[..1][..0] == [];
    assert items[..1][0] == items[0];
    assert Filter(items[..1][..0], EdgeFrom) == Ok([]);
    assert [] + [edges[0]] == [edges[0]];
    assert Filter(items[..1], EdgeFrom) == Ok([edges[0]]);
    assert [edges[0]] + [edges[1]] == edges;
  }

  /** The three top-level keys of the payload. */
  lemma StubPayloadLookups()
    ensures var f := StubPayload().fields;
      && Lookup(f, "diagram_type") == Some(JStr("flowchart"))
      && Lookup(f, "nodes") == Some(JArr(StubNodeItems()))
      && Lookup(f, "edges") == Some(JArr(StubEdgeItems()))
  {
    var f := StubPayload().fields;
    assert f[..2][..1] == f[..1];
    assert Lookup(f, "diagram_type") == Lookup(f[..2], "diagram_type") == Lookup(f[..1], "diagram_type");
    assert Lookup(f, "nodes") == Lookup(f[..2], "nodes");
  }

  /** Graph inference turns the stub payload into three nodes `N1..N3` and the two edges between them. */
  lemma StubBuilds()
    ensures Build(StubPayload()) == Ok(Diagram("flowchart", StubNodes(), StubEdges()))
  {
    StubPayloadLookups();
    StubNodesBuilt();
    StubEdgesBuilt();
  }

  /** Every edge the stub yields joins two of its nodes. */
  lemma StubEdgesJoinNodes()
    ensures forall e :: e in StubEdges() ==>
      (exists n :: n in StubNodes() && n.id == e.source) && (exists n :: n in StubNodes() && n.id == e.target)
  {
    assert StubNodes()[0].id == "N1" && StubNodes()[1].id == "N2" && StubNodes()[2].id == "N3";
  }
}
