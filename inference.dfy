/**
 * The graph inference engine: `InferenceEngine.build_graph` turns the loosely
 * typed payload of a vision provider into the canonical `Diagram`.
 *
 * The pydantic models `Node`, `Edge` and `Diagram` validate their fields when
 * constructed: a `str` field accepts a JSON string only, `Optional[str]` also
 * accepts null, and `Optional[List[int]]` accepts null or a list of integers.
 * Any exception raised while building, including a failed validation, is
 * reported as `GraphBuildFailure` with the exception's text, and no partial
 * diagram escapes.
 */
module Inference {
  import opened Wrappers
  import opened PyText
  import opened JsonValue
  import opened Errors

  datatype Node = Node(id: string, caption: string, shape: string, bbox: Option<seq<int>>)

  /** `label` and `type` are keywords here: the label is called `caption`, the edge and diagram type `kind`. */
  datatype Edge = Edge(source: string, target: string, caption: Option<string>, kind: string)

  datatype Diagram = Diagram(kind: string, nodes: seq<Node>, edges: seq<Edge>)

  const DefaultShape := "rectangle"
  const DefaultEdgeType := "arrow"
  const DefaultDiagramType := "flowchart"

  /** The exceptions `build_graph` can run into. */
  datatype Fault =
    | NoGet(typeName: string)                     // `.get` on a value that is not a dict
    | NotIterable(typeName: string)               // `for` over a value that is not iterable
    | Invalid(model: string, fields: seq<string>) // a pydantic validation error, by field

  /** `str(e)` for the fault. */
  function FaultMessage(f: Fault): string {
    match f
    case NoGet(t) => "'" + t + "' object has no attribute 'get'"
    case NotIterable(t) => "'" + t + "' object is not iterable"
    case Invalid(model, fields) =>
      IntText(|fields|) + (if |fields| == 1 then " validation error for " else " validation errors for ")
      + model + FieldLines(fields)
  }

  function FieldLines(fields: seq<string>): string {
    if fields == [] then "" else "\n" + fields[0] + FieldLines(fields[1..])
  }

  // --- pydantic field validation ---

  /** A `str` field. */
  function AsStr(v: Json): Option<string> {
    if v.JStr? then Some(v.s) else None
  }

  /** An `Optional[str]` field. */
  function AsOptStr(v: Json): Option<Option<string>> {
    match v
    case JNull => Some(None)
    case JStr(s) => Some(Some(s))
    case _ => None
  }

  predicate AllInts(items: seq<Json>) {
    forall i :: 0 <= i < |items| ==> items[i].JInt?
  }

  /** An `Optional[List[int]]` field. */
  function AsOptInts(v: Json): Option<Option<seq<int>>> {
    match v
    case JNull => Some(None)
    case JArr(items) =>
      if AllInts(items) then Some(Some(seq(|items|, i requires 0 <= i < |items| => items[i].n))) else None
    case _ => None
  }

  /** `Node(id=..., label=..., shape=..., bbox=...)` once its arguments are evaluated. */
  function MakeNode(id: string, caption: string, shape: Json, bbox: Json): Result<Node, Fault> {
    var bad := (if AsStr(shape).None? then ["shape"] else []) + (if AsOptInts(bbox).None? then ["bbox"] else []);
    if bad != [] then Err(Invalid("Node", bad))
    else Ok(Node(id, caption, AsStr(shape).value, AsOptInts(bbox).value))
  }

  /** `Edge(source=..., target=..., label=..., type=...)` once its arguments are evaluated. */
  function MakeEdge(source: string, target: string, caption: Json, kind: Json): Result<Edge, Fault> {
    var bad := (if AsOptStr(caption).None? then ["label"] else []) + (if AsStr(kind).None? then ["type"] else []);
    if bad != [] then Err(Invalid("Edge", bad))
    else Ok(Edge(source, target, AsOptStr(caption).value, AsStr(kind).value))
  }

  /** `Diagram(type=..., nodes=..., edges=...)`; the node and edge lists are already validated. */
  function MakeDiagram(kind: Json, nodes: seq<Node>, edges: seq<Edge>): Result<Diagram, Fault> {
    if AsStr(kind).None? then Err(Invalid("Diagram", ["type"])) else Ok(Diagram(kind.s, nodes, edges))
  }

  /**
   * What a Python `for` loop walks over: a list yields its items, a string its
   * characters and a dict its keys; anything else is not iterable.
   */
  function Iterate(v: Json): Result<seq<Json>, Fault> {
    match v
    case JArr(items) => Ok(items)
    case JStr(s) => Ok(seq(|s|, i requires 0 <= i < |s| => JStr([s[i]])))
    case JObj(fields) => Ok(seq(|fields|, i requires 0 <= i < |fields| => JStr(fields[i].0)))
    case _ => Err(NotIterable(TypeName(v)))
  }

  // --- the promised shape of one node and one edge ---

  /** The id given to the `k`-th node when it has none. */
  function DefaultId(k: nat): string {
    "node_" + Decimal(k)
  }

  /** A node entry the schema accepts: a dict whose shape, if present, is a string and whose bbox is null or integers. */
  predicate NodeEntryValid(item: Json) {
    && item.JObj?
    && (match Lookup(item.fields, "shape") case None => true case Some(v) => v.JStr?)
    && (match Lookup(item.fields, "bbox") case None => true case Some(v) => v.JNull? || (v.JArr? && AllInts(v.items)))
  }

  /**
   * `node` is what the `k`-th entry promises: its id stringified or `node_<k>`,
   * its label stringified or empty, its shape copied or `rectangle`, its bbox copied.
   */
  predicate NodeDescribes(node: Node, item: Json, k: nat)
    requires item.JObj?
  {
    var f := item.fields;
    && node.id == (match Lookup(f, "id") case Some(v) => Str(v) case None => DefaultId(k))
    && node.caption == (match Lookup(f, "label") case Some(v) => Str(v) case None => "")
    && node.shape == (match Lookup(f, "shape") case Some(JStr(s)) => s case _ => DefaultShape)
    && (match Lookup(f, "bbox")
        case Some(JArr(xs)) =>
          node.bbox.Some? && |node.bbox.value| == |xs| &&
          forall i :: 0 <= i < |xs| ==> xs[i] == JInt(node.bbox.value[i])
        case _ => node.bbox.None?)
  }

  /** The source or target an edge entry names; a missing key reads as null. */
  function Endpoint(item: Json, key: string): Json
    requires item.JObj?
  {
    match Lookup(item.fields, key) case Some(v) => v case None => JNull
  }

  /** An edge entry is kept when neither of its endpoints is the empty string. */
  predicate EdgeEntryKept(item: Json)
    requires item.JObj?
  {
    Lookup(item.fields, "from") != Some(JStr("")) && Lookup(item.fields, "to") != Some(JStr(""))
  }

  /** An edge entry the schema accepts: a dict, and if kept, a null-or-string label and a string type when present. */
  predicate EdgeEntryValid(item: Json) {
    && item.JObj?
    && (EdgeEntryKept(item) ==>
          && (match Lookup(item.fields, "label") case None => true case Some(v) => v.JNull? || v.JStr?)
          && (match Lookup(item.fields, "type") case None => true case Some(v) => v.JStr?))
  }

  /** `edge` is what a kept entry promises: stringified endpoints, the label as given and the type or `arrow`. */
  predicate EdgeDescribes(edge: Edge, item: Json)
    requires item.JObj?
  {
    var f := item.fields;
    && edge.source == Str(Endpoint(item, "from"))
    && edge.target == Str(Endpoint(item, "to"))
    && edge.caption == (match Lookup(f, "label") case Some(JStr(s)) => Some(s) case _ => None)
    && edge.kind == (match Lookup(f, "type") case Some(JStr(s)) => s case _ => DefaultEdgeType)
  }

  // --- one loop iteration each ---

  /** The body of the node loop for entry `item` when `k` nodes are already accepted. */
  function NodeFrom(item: Json, k: nat): Result<Node, Fault> {
    if !item.JObj? then Err(NoGet(TypeName(item)))
    else
      var f := item.fields;
      MakeNode(Str(GetOr(f, "id", JStr(DefaultId(k)))), Str(GetOr(f, "label", JStr(""))),
               GetOr(f, "shape", JStr(DefaultShape)), GetOr(f, "bbox", JNull))
  }

  /** The body of the edge loop: `None` for a skipped entry, the edge for a kept one. */
  function EdgeFrom(item: Json): Result<Option<Edge>, Fault> {
    if !item.JObj? then Err(NoGet(TypeName(item)))
    else
      var f := item.fields;
      var src := Str(GetOr(f, "from", JNull));
      var tgt := Str(GetOr(f, "to", JNull));
      if src != "" && tgt != "" then
        match MakeEdge(src, tgt, GetOr(f, "label", JNull), GetOr(f, "type", JStr(DefaultEdgeType)))
        case Ok(e) => Ok(Some(e))
        case Err(x) => Err(x)
      else Ok(None)
  }

  /** One node entry: accepted exactly when it conforms, and then turned into the node it promises. */
  lemma NodeFromMeaning(item: Json, k: nat)
    ensures NodeFrom(item, k).Ok? <==> NodeEntryValid(item)
    ensures NodeFrom(item, k).Ok? ==> NodeDescribes(NodeFrom(item, k).value, item, k)
    ensures NodeFrom(item, k).Err? && item.JObj? ==> NodeFrom(item, k).error.Invalid?
  {
  }

  /** One edge entry: accepted exactly when it conforms, kept exactly when both endpoints are non-empty. */
  lemma EdgeFromMeaning(item: Json)
    ensures EdgeFrom(item).Ok? <==> EdgeEntryValid(item)
    ensures EdgeFrom(item).Ok? ==> (EdgeFrom(item).value.Some? <==> EdgeEntryKept(item))
    ensures EdgeFrom(item).Ok? && EdgeFrom(item).value.Some? ==> EdgeDescribes(EdgeFrom(item).value.value, item)
  {
  }

  // --- the two loops, over an abstract loop body ---

  /**
   * The list a loop builds by running `step` on each entry together with the
   * number of entries before it, or the first fault, which ends the loop.
   */
  function Collect<T>(items: seq<Json>, step: (Json, nat) -> Result<T, Fault>): (r: Result<seq<T>, Fault>)
    ensures r.Ok? <==> forall k :: 0 <= k < |items| ==> step(items[k], k).Ok?
    ensures r.Ok? ==> |r.value| == |items|
    ensures r.Ok? ==> forall k :: 0 <= k < |items| ==> r.value[k] == step(items[k], k).value
  {
    if items == [] then Ok([])
    else
      var n := |items| - 1;
      assert forall k :: 0 <= k < n ==> items[..n][k] == items[k];
      match Collect(items[..n], step)
      case Err(f) => Err(f)
      case Ok(done) =>
        match step(items[n], n)
        case Err(f) => Err(f)
        case Ok(x) => Ok(done + [x])
  }

  /**
   * The list a loop builds by running `step` on each entry and keeping what it
   * yields (`None` skips the entry), or the first fault, which ends the loop.
   */
  function Filter<T>(items: seq<Json>, step: Json -> Result<Option<T>, Fault>): (r: Result<seq<T>, Fault>)
    ensures r.Ok? <==> forall k :: 0 <= k < |items| ==> step(items[k]).Ok?
    ensures r.Ok? ==> |r.value| <= |items|
  {
    if items == [] then Ok([])
    else
      var n := |items| - 1;
      assert forall k :: 0 <= k < n ==> items[..n][k] == items[k];
      match Filter(items[..n], step)
      case Err(f) => Err(f)
      case Ok(done) =>
        match step(items[n])
        case Err(f) => Err(f)
        case Ok(None) => Ok(done)
        case Ok(Some(x)) => Ok(done + [x])
  }

  /** What a fault-free filtering loop keeps, front to back: a reference for `Filter`. */
  function Kept<T>(items: seq<Json>, step: Json -> Result<Option<T>, Fault>): seq<T>
    requires forall k :: 0 <= k < |items| ==> step(items[k]).Ok?
  {
    if items == [] then []
    else
      (match step(items[0]).value case Some(x) => [x] case None => [])
      + Kept(items[1..], step)
  }

  /**
   * The positions, from `i` on, of the entries a fault-free filtering loop
   * keeps, in increasing order: an entry is kept exactly when its position is
   * listed.
   */
  function KeptFrom<T>(items: seq<Json>, step: Json -> Result<Option<T>, Fault>, i: nat): (ix: seq<nat>)
    requires i <= |items|
    requires forall k :: 0 <= k < |items| ==> step(items[k]).Ok?
    ensures forall m :: 0 <= m < |ix| ==> i <= ix[m] < |items|
    ensures forall m, m' :: 0 <= m < m' < |ix| ==> ix[m] < ix[m']
    decreases |items| - i
  {
    if i == |items| then []
    else (if step(items[i]).value.Some? then [i] else []) + KeptFrom(items, step, i + 1)
  }

  /** An entry at or after `i` is kept exactly when `KeptFrom` lists its position. */
  lemma {:induction false} KeptFromListsKept<T>(items: seq<Json>, step: Json -> Result<Option<T>, Fault>, i: nat)
    requires i <= |items|
    requires forall k :: 0 <= k < |items| ==> step(items[k]).Ok?
    ensures forall k :: i <= k < |items| ==> (step(items[k]).value.Some? <==> k in KeptFrom(items, step, i))
    decreases |items| - i
  {
    if i < |items| {
      KeptFromListsKept(items, step, i + 1);
      assert KeptFrom(items, step, i) ==
        (if step(items[i]).value.Some? then [i] else []) + KeptFrom(items, step, i + 1);
    }
  }

  /** `Kept` from position `i`: what the entry at `i` yields, then what follows. */
  lemma KeptUnfold<T>(items: seq<Json>, step: Json -> Result<Option<T>, Fault>, i: nat)
    requires i < |items|
    requires forall k :: 0 <= k < |items| ==> step(items[k]).Ok?
    ensures Kept(items[i..], step) ==
      (match step(items[i]).value case Some(x) => [x] case None => []) + Kept(items[i + 1..], step)
  {
    assert items[i..][0] == items[i] && items[i..][1..] == items[i + 1..];
  }

  /** The `m`-th item a fault-free filtering loop keeps comes from the entry at the `m`-th kept position. */
  lemma {:induction false} KeptFromItems<T>(items: seq<Json>, step: Json -> Result<Option<T>, Fault>, i: nat)
    requires i <= |items|
    requires forall k :: 0 <= k < |items| ==> step(items[k]).Ok?
    ensures |KeptFrom(items, step, i)| == |Kept(items[i..], step)|
    ensures forall m :: 0 <= m < |KeptFrom(items, step, i)| ==>
      step(items[KeptFrom(items, step, i)[m]]).value == Some(Kept(items[i..], step)[m])
    decreases |items| - i
  {
    if i < |items| {
      KeptFromItems(items, step, i + 1);
      var rest, kept := KeptFrom(items, step, i + 1), Kept(items[i + 1..], step);
      KeptUnfold(items, step, i);
      match step(items[i]).value
      case None =>
        assert KeptFrom(items, step, i) == rest;
        assert Kept(items[i..], step) == kept;
      case Some(x) =>
        var ix, all := KeptFrom(items, step, i), Kept(items[i..], step);
        assert ix == [i] + rest;
        assert all == [x] + kept;
        forall m | 0 < m < |ix| ensures step(items[ix[m]]).value == Some(all[m]) {
          assert ix[m] == rest[m - 1] && all[m] == kept[m - 1];
        }
    }
  }

  /** `build_graph` on the vision payload, with its fault in place of the exception. */
  function Build(vision: Json): Result<Diagram, Fault> {
    if !vision.JObj? then Err(NoGet(TypeName(vision)))
    else
      var f := vision.fields;
      match Iterate(GetOr(f, "nodes", JArr([])))
      case Err(x) => Err(x)
      case Ok(nodeItems) =>
        match Collect(nodeItems, NodeFrom)
        case Err(x) => Err(x)
        case Ok(nodes) =>
          match Iterate(GetOr(f, "edges", JArr([])))
          case Err(x) => Err(x)
          case Ok(edgeItems) =>
            match Filter(edgeItems, EdgeFrom)
            case Err(x) => Err(x)
            case Ok(edges) => MakeDiagram(GetOr(f, "diagram_type", JStr(DefaultDiagramType)), nodes, edges)
  }

  /** The exception `build_graph` raises in place of a fault. */
  function Raise(f: Fault): AppError {
    GraphBuildFailure(FaultMessage(f))
  }

  /** The node loop of `build_graph`: one node per entry, or the first fault. */
  method BuildNodes(nodeItems: seq<Json>) returns (r: Result<seq<Node>, Fault>)
    ensures r == Collect(nodeItems, NodeFrom)
  {
    var nodes: seq<Node> := [];
    var i := 0;
    while i < |nodeItems|
      invariant 0 <= i <= |nodeItems|
      invariant |nodes| == i
      invariant Collect(nodeItems[..i], NodeFrom) == Ok(nodes)
    {
      var nData := nodeItems[i];
      assert nodeItems[..i + 1][..i] == nodeItems[..i];
      if !nData.JObj? {
        CollectStops(nodeItems, NodeFrom, i);
        return Err(NoGet(TypeName(nData)));
      }
      var node := MakeNode(Str(GetOr(nData.fields, "id", JStr("node_" + Decimal(|nodes|)))),
                           Str(GetOr(nData.fields, "label", JStr(""))),
                           GetOr(nData.fields, "shape", JStr(DefaultShape)),
                           GetOr(nData.fields, "bbox", JNull));
      assert node == NodeFrom(nData, i);
      if node.Err? {
        CollectStops(nodeItems, NodeFrom, i);
        return Err(node.error);
      }
      nodes := nodes + [node.value];
      i := i + 1;
    }
    assert nodeItems[..i] == nodeItems;
    return Ok(nodes);
  }

  /** The edge loop of `build_graph`: the kept edges, or the first fault. */
  method BuildEdges(edgeItems: seq<Json>) returns (r: Result<seq<Edge>, Fault>)
    ensures r == Filter(edgeItems, EdgeFrom)
  {
    var edges: seq<Edge> := [];
    var j := 0;
    while j < |edgeItems|
      invariant 0 <= j <= |edgeItems|
      invariant Filter(edgeItems[..j], EdgeFrom) == Ok(edges)
    {
      var eData := edgeItems[j];
      assert edgeItems[..j + 1][..j] == edgeItems[..j];
      if !eData.JObj? {
        FilterStops(edgeItems, EdgeFrom, j);
        return Err(NoGet(TypeName(eData)));
      }
      var src := Str(GetOr(eData.fields, "from", JNull));
      var tgt := Str(GetOr(eData.fields, "to", JNull));
      if src != "" && tgt != "" {
        var edge := MakeEdge(src, tgt, GetOr(eData.fields, "label", JNull),
                             GetOr(eData.fields, "type", JStr(DefaultEdgeType)));
        if edge.Err? {
          FilterStops(edgeItems, EdgeFrom, j);
          return Err(edge.error);
        }
        assert EdgeFrom(eData) == Ok(Some(edge.value));
        edges := edges + [edge.value];
      } else {
        assert EdgeFrom(eData) == Ok(None);
      }
      j := j + 1;
    }
    assert edgeItems[..j] == edgeItems;
    return Ok(edges);
  }

  /**
   * `InferenceEngine.build_graph`. The OCR fragments are accepted and not read.
   */
  method BuildGraph(vision: Json, ocr: seq<Json>) returns (r: Result<Diagram, AppError>)
    ensures Build(vision).Ok? ==> r == Ok(Build(vision).value)
    ensures Build(vision).Err? ==> r == Err(Raise(Build(vision).error))
  {
    if !vision.JObj? {
      return Err(Raise(NoGet(TypeName(vision))));
    }
    var f := vision.fields;
    var nodeSource := Iterate(GetOr(f, "nodes", JArr([])));
    if nodeSource.Err? {
      return Err(Raise(nodeSource.error));
    }
    var nodes := BuildNodes(nodeSource.value);
    if nodes.Err? {
      return Err(Raise(nodes.error));
    }
    var edgeSource := Iterate(GetOr(f, "edges", JArr([])));
    if edgeSource.Err? {
      return Err(Raise(edgeSource.error));
    }
    var edges := BuildEdges(edgeSource.value);
    if edges.Err? {
      return Err(Raise(edges.error));
    }
    var diagram := MakeDiagram(GetOr(f, "diagram_type", JStr(DefaultDiagramType)), nodes.value, edges.value);
    if diagram.Err? {
      return Err(Raise(diagram.error));
    }
    return Ok(diagram.value);
  }

  // --- lemmas ---

  /** Once entry `i` fails after a clean prefix, the whole collecting loop fails with that fault. */
  lemma {:induction false} CollectStops<T>(items: seq<Json>, step: (Json, nat) -> Result<T, Fault>, i: nat)
    requires i < |items| && Collect(items[..i], step).Ok? && step(items[i], i).Err?
    ensures Collect(items, step) == Err(step(items[i], i).error)
    decreases |items|
  {
    var n := |items| - 1;
    if i < n {
      assert items[..n][..i] == items[..i];
      assert items[..n][i] == items[i];
      CollectStops(items[..n], step, i);
    } else {
      assert items[..n] == items[..i];
    }
  }

  /** A collecting loop whose every step succeeds returns exactly the steps' values. */
  lemma CollectAll<T>(items: seq<Json>, step: (Json, nat) -> Result<T, Fault>, out: seq<T>)
    requires |out| == |items|
    requires forall k :: 0 <= k < |items| ==> step(items[k], k) == Ok(out[k])
    ensures Collect(items, step) == Ok(out)
  {
    var r := Collect(items, step);
    assert r.value == out;
  }

  /** Once entry `j` fails after a clean prefix, the whole filtering loop fails with that fault. */
  lemma {:induction false} FilterStops<T>(items: seq<Json>, step: Json -> Result<Option<T>, Fault>, j: nat)
    requires j < |items| && Filter(items[..j], step).Ok? && step(items[j]).Err?
    ensures Filter(items, step) == Err(step(items[j]).error)
    decreases |items|
  {
    var n := |items| - 1;
    if j < n {
      assert items[..n][..j] == items[..j];
      assert items[..n][j] == items[j];
      FilterStops(items[..n], step, j);
    } else {
      assert items[..n] == items[..j];
    }
  }

  lemma {:induction false} KeptSnoc<T>(items: seq<Json>, step: Json -> Result<Option<T>, Fault>, x: Json)
    requires forall k :: 0 <= k < |items| ==> step(items[k]).Ok?
    requires step(x).Ok?
    ensures Kept(items + [x], step) == Kept(items, step) + (match step(x).value case Some(e) => [e] case None => [])
  {
    if items != [] {
      assert (items + [x])[1..] == items[1..] + [x];
      KeptSnoc(items[1..], step, x);
    } else {
      assert ([] + [x])[1..] == [];
    }
  }

  /** The filtering loop keeps exactly what the step keeps, in input order. */
  lemma {:induction false} FilterKeepsOrder<T>(items: seq<Json>, step: Json -> Result<Option<T>, Fault>)
    requires Filter(items, step).Ok?
    ensures Filter(items, step).value == Kept(items, step)
  {
    if items != [] {
      var n := |items| - 1;
      assert forall k :: 0 <= k < n ==> items[..n][k] == items[k];
      FilterKeepsOrder(items[..n], step);
      KeptSnoc(items[..n], step, items[n]);
      assert items[..n] + [items[n]] == items;
    }
  }

  /** The entries `build_graph` walks for `key`, when the payload is a dict and the value iterable. */
  function Entries(vision: Json, key: string): Result<seq<Json>, Fault>
    requires vision.JObj?
  {
    Iterate(GetOr(vision.fields, key, JArr([])))
  }

  /** The payload conforms to the schema `build_graph` enforces. */
  predicate SchemaValid(vision: Json) {
    && vision.JObj?
    && Entries(vision, "nodes").Ok?
    && (forall k :: 0 <= k < |Entries(vision, "nodes").value| ==> NodeEntryValid(Entries(vision, "nodes").value[k]))
    && Entries(vision, "edges").Ok?
    && (forall k :: 0 <= k < |Entries(vision, "edges").value| ==> EdgeEntryValid(Entries(vision, "edges").value[k]))
    && (match Lookup(vision.fields, "diagram_type") case None => true case Some(v) => v.JStr?)
  }

  /** All or nothing: a diagram comes out exactly when the whole payload conforms to the schema. */
  lemma BuildAllOrNothing(vision: Json)
    ensures Build(vision).Ok? <==> SchemaValid(vision)
  {
    if vision.JObj? {
      var nodeSource, edgeSource := Entries(vision, "nodes"), Entries(vision, "edges");
      if nodeSource.Ok? {
        var items := nodeSource.value;
        forall k | 0 <= k < |items| ensures NodeFrom(items[k], k).Ok? <==> NodeEntryValid(items[k]) {
          NodeFromMeaning(items[k], k);
        }
      }
      if edgeSource.Ok? {
        var items := edgeSource.value;
        forall k | 0 <= k < |items| ensures EdgeFrom(items[k]).Ok? <==> EdgeEntryValid(items[k]) {
          EdgeFromMeaning(items[k]);
        }
      }
    }
  }

  /**
   * What a built diagram holds: one node per node entry in input order, each
   * with its promised id, label and shape; the kept edges in input order; the
   * diagram type given or `flowchart`.
   */
  lemma BuildContents(vision: Json)
    requires Build(vision).Ok?
    ensures vision.JObj? && Entries(vision, "nodes").Ok? && Entries(vision, "edges").Ok?
    ensures var d, items := Build(vision).value, Entries(vision, "nodes").value;
      && |d.nodes| == |items|
      && forall k :: 0 <= k < |items| ==> items[k].JObj? && NodeDescribes(d.nodes[k], items[k], k)
    ensures var d, items := Build(vision).value, Entries(vision, "edges").value;
      && |d.edges| <= |items|
      && (forall k :: 0 <= k < |items| ==> EdgeEntryValid(items[k]))
      && d.edges == Kept(items, EdgeFrom)
    ensures Build(vision).value.kind ==
      (match Lookup(vision.fields, "diagram_type") case Some(v) => v.s case None => DefaultDiagramType)
  {
    var nodeItems, edgeItems := Entries(vision, "nodes").value, Entries(vision, "edges").value;
    var d := Build(vision).value;
    assert Collect(nodeItems, NodeFrom) == Ok(d.nodes);
    forall k | 0 <= k < |nodeItems| ensures nodeItems[k].JObj? && NodeDescribes(d.nodes[k], nodeItems[k], k) {
      NodeFromMeaning(nodeItems[k], k);
    }
    forall k | 0 <= k < |edgeItems| ensures EdgeEntryValid(edgeItems[k]) {
      EdgeFromMeaning(edgeItems[k]);
    }
    FilterKeepsOrder(edgeItems, EdgeFrom);
  }

  /**
   * The `m`-th edge of the diagram is what the `m`-th kept edge entry
   * promises; the kept entries are exactly those with two non-empty endpoints,
   * taken in input order.
   */
  lemma BuildEdgeContents(vision: Json)
    requires Build(vision).Ok?
    ensures vision.JObj? && Entries(vision, "edges").Ok?
    ensures forall k :: 0 <= k < |Entries(vision, "edges").value| ==> EdgeFrom(Entries(vision, "edges").value[k]).Ok?
    ensures var d, items := Build(vision).value, Entries(vision, "edges").value;
      var ix := KeptFrom(items, EdgeFrom, 0);
      && |d.edges| == |ix|
      && (forall m :: 0 <= m < |ix| ==>
            && ix[m] < |items| && items[ix[m]].JObj?
            && EdgeDescribes(d.edges[m], items[ix[m]]))
      && (forall m, m' :: 0 <= m < m' < |ix| ==> ix[m] < ix[m'])
      && (forall k :: 0 <= k < |items| ==> items[k].JObj? && (EdgeEntryKept(items[k]) <==> k in ix))
  {
    BuildContents(vision);
    var items := Entries(vision, "edges").value;
    KeptFromItems(items, EdgeFrom, 0);
    KeptFromListsKept(items, EdgeFrom, 0);
    assert items[0..] == items;
    forall k | 0 <= k < |items|
      ensures items[k].JObj? && (EdgeEntryKept(items[k]) <==> EdgeFrom(items[k]).value.Some?)
      ensures EdgeFrom(items[k]).value.Some? ==> EdgeDescribes(EdgeFrom(items[k]).value.value, items[k])
    {
      EdgeFromMeaning(items[k]);
    }
  }

  /** A payload without a `nodes` key gives a diagram without nodes. */
  lemma NoNodesKey(vision: Json)
    requires Build(vision).Ok? && !HasKey(vision.fields, "nodes")
    ensures Build(vision).value.nodes == []
  {
  }

  /** When no node entry brings its own id, the ids are `node_0 .. node_<n-1>` and pairwise distinct. */
  lemma ImplicitIdsDistinct(vision: Json)
    requires Build(vision).Ok?
    requires forall k :: 0 <= k < |Entries(vision, "nodes").value| ==>
               !HasKey(Entries(vision, "nodes").value[k].fields, "id")
    ensures var nodes := Build(vision).value.nodes;
      && (forall k :: 0 <= k < |nodes| ==> nodes[k].id == DefaultId(k))
      && (forall a, b :: 0 <= a < b < |nodes| ==> nodes[a].id != nodes[b].id)
  {
    BuildContents(vision);
    var nodes := Build(vision).value.nodes;
    forall a, b | 0 <= a < b < |nodes| ensures nodes[a].id != nodes[b].id {
      if nodes[a].id == nodes[b].id {
        assert Decimal(a) == DefaultId(a)[5..] == DefaultId(b)[5..] == Decimal(b);
        DecimalInjective(a, b);
      }
    }
  }

  /** Ids are not checked for collisions: an explicit `node_1` followed by an implicit second id repeats it. */
  lemma ImplicitIdCanCollide()
    ensures var vision := JObj([("nodes", JArr([JObj([("id", JStr("node_1"))]), JObj([])]))]);
      && Build(vision).Ok?
      && |Build(vision).value.nodes| == 2
      && Build(vision).value.nodes[0].id == Build(vision).value.nodes[1].id == "node_1"
  {
    var items := [JObj([("id", JStr("node_1"))]), JObj([])];
    var vision := JObj([("nodes", JArr(items))]);
    var n := Node("node_1", "", DefaultShape, None);
    CollidingNodes();
    assert vision.fields[..0] == [];
    assert Lookup(vision.fields, "nodes") == Some(JArr(items));
    assert Lookup(vision.fields, "edges") == None && Lookup(vision.fields, "diagram_type") == None;
    assert Filter([], EdgeFrom) == Ok([]);
    assert Build(vision) == Ok(Diagram(DefaultDiagramType, [n, n], []));
  }

  /** The node loop of `ImplicitIdCanCollide`: both entries become the same node. */
  lemma CollidingNodes()
    ensures var n := Node("node_1", "", DefaultShape, None);
      Collect([JObj([("id", JStr("node_1"))]), JObj([])], NodeFrom) == Ok([n, n])
  {
    var items := [JObj([("id", JStr("node_1"))]), JObj([])];
    var n := Node("node_1", "", DefaultShape, None);
    assert Decimal(1) == "1";
    assert items[0].fields[..0] == [];
    assert Lookup(items[0].fields, "label") == None && Lookup(items[0].fields, "shape") == None;
    assert Lookup(items[0].fields, "bbox") == None;
    assert NodeFrom(items[0], 0) == Ok(n);
    assert DefaultId(1) == "node_1";
    assert Str(JStr(DefaultId(1))) == "node_1";
    assert NodeFrom(items[1], 1) == Ok(n);
    CollectAll(items, NodeFrom, [n, n]);
  }

  /** An edge entry without endpoints is kept, with both ends the text `None`, and nodes it names need not exist. */
  lemma MissingEndpointsKept()
    ensures var vision := JObj([("edges", JArr([JObj([])]))]);
      && Build(vision) == Ok(Diagram(DefaultDiagramType, [], [Edge("None", "None", None, DefaultEdgeType)]))
  {
    var vision := JObj([("edges", JArr([JObj([])]))]);
    assert [JObj([])][..0] == [];
    assert EdgeFrom(JObj([])) == Ok(Some(Edge("None", "None", None, DefaultEdgeType)));
    assert Filter([], EdgeFrom) == Ok([]);
    assert [] + [Edge("None", "None", None, DefaultEdgeType)] == [Edge("None", "None", None, DefaultEdgeType)];
    assert Filter([JObj([])], EdgeFrom) == Ok([Edge("None", "None", None, DefaultEdgeType)]);
  }

  /** A non-string shape is a schema violation, and `build_graph` fails as a whole with `GraphBuildFailure`. */
  lemma BadShapeFails()
    ensures var vision := JObj([("nodes", JArr([JObj([("id", JStr("A"))]), JObj([("shape", JInt(3))])]))]);
      && Build(vision) == Err(Invalid("Node", ["shape"]))
      && Raise(Build(vision).error).Status() == 422
  {
    var items := [JObj([("id", JStr("A"))]), JObj([("shape", JInt(3))])];
    assert items[..1] == [items[0]];
    assert items[..1][..0] == [];
    assert NodeFrom(items[0], 0) == Ok(Node("A", "", DefaultShape, None));
    assert Collect(items[..1], NodeFrom).Ok?;
    assert ["shape"] + [] == ["shape"];
    assert NodeFrom(items[1], 1) == Err(Invalid("Node", ["shape"]));
  }
}
