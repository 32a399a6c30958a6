/** Property values laid over the graphs of property.json before a worker starts
    (processProperty in ai_agents/server/internal/http_server.go, with the slots
    of ai_agents/server/internal/config.go).

    An overlay is a set of property values, at most one a slot.  This module says
    what an overlay does to the graphs and that two of them compose. */
module PropertyRewrite {
  import opened Wrappers
  import opened JsonValues
  import opened EnvSubstitution

  /** A property of an extension. */
  datatype Slot = Slot(extension: string, property: string)

  type Overlay = map<Slot, Json>

  // ----- nodes

  /** A node or a graph of that name. */
  predicate Named(j: Json, name: string) {
    j.Has("name") && j.fields["name"] == Str(name)
  }

  function ExtensionProps(o: Overlay, extension: string): map<string, Json> {
    map s | s in o && s.extension == extension :: s.property := o[s]
  }

  /** The node with its properties overlaid by those that o has for it. */
  function OverlayNode(node: Json, o: Overlay): Json {
    if node.HasObject("property") && node.Has("name") && node.fields["name"].Str? then
      node.With("property", Obj(node.fields["property"].fields + ExtensionProps(o, node.fields["name"].s)))
    else
      node
  }

  /** Setting a property of a node without a property object panics. */
  predicate NodeFails(node: Json, o: Overlay) {
    !node.HasObject("property") && exists s :: s in o && Named(node, s.extension)
  }

  lemma ExtensionPropsSum(a: Overlay, b: Overlay, extension: string)
    ensures ExtensionProps(a + b, extension) == ExtensionProps(a, extension) + ExtensionProps(b, extension)
  {
    var sum := ExtensionProps(a, extension) + ExtensionProps(b, extension);
    forall p ensures p in ExtensionProps(a + b, extension) <==> p in sum {
      assert p in ExtensionProps(a + b, extension) <==> Slot(extension, p) in a + b;
      assert p in ExtensionProps(a, extension) <==> Slot(extension, p) in a;
      assert p in ExtensionProps(b, extension) <==> Slot(extension, p) in b;
    }
  }

  lemma SumAssociates(a: map<string, Json>, b: map<string, Json>, c: map<string, Json>)
    ensures a + b + c == a + (b + c)
  {
  }

  lemma OverlayNodeTwice(node: Json, a: Overlay, b: Overlay)
    ensures OverlayNode(OverlayNode(node, a), b) == OverlayNode(node, a + b)
  {
    if node.HasObject("property") && node.Has("name") && node.fields["name"].Str? {
      var ext := node.fields["name"].s;
      var props, pa, pb := node.fields["property"].fields, ExtensionProps(a, ext), ExtensionProps(b, ext);
      var once := node.With("property", Obj(props + pa));
      assert OverlayNode(node, a) == once;
      assert once.fields["name"] == Str(ext) && once.fields["property"].fields == props + pa;
      assert OverlayNode(once, b) == once.With("property", Obj(props + pa + pb));
      WithTwice(node, "property", Obj(props + pa), Obj(props + pa + pb));
      SumAssociates(props, pa, pb);
      ExtensionPropsSum(a, b, ext);
    }
  }

  lemma NodeFailsTwice(node: Json, a: Overlay, b: Overlay)
    ensures NodeFails(OverlayNode(node, a), b) <==> NodeFails(node, b)
    ensures NodeFails(node, a + b) <==> NodeFails(node, a) || NodeFails(node, b)
  {
    if NodeFails(node, a) {
      var s :| s in a && Named(node, s.extension);
      assert s in a + b;
    }
    if NodeFails(node, b) {
      var s :| s in b && Named(node, s.extension);
      assert s in a + b;
    }
  }

  lemma WithTwice(j: Json, key: string, v: Json, w: Json)
    requires j.Obj?
    ensures j.With(key, v).With(key, w) == j.With(key, w)
  {
    assert j.fields[key := v][key := w] == j.fields[key := w];
  }

  lemma WithSame(j: Json, key: string)
    requires j.Has(key)
    ensures j.With(key, j.fields[key]) == j
  {
    assert j.fields[key := j.fields[key]] == j.fields;
  }

  /** An overlay without the node's name leaves the node alone. */
  lemma OverlayNodeNone(node: Json, o: Overlay)
    requires forall s :: s in o ==> !Named(node, s.extension)
    ensures OverlayNode(node, o) == node && !NodeFails(node, o)
  {
    if node.HasObject("property") && node.Has("name") && node.fields["name"].Str? {
      assert ExtensionProps(o, node.fields["name"].s) == map[];
      assert node.fields["property"].fields + map[] == node.fields["property"].fields;
      WithSame(node, "property");
    }
  }

  // ----- graphs

  predicate HasNodes(graph: Json) {
    graph.HasObject("graph") && graph.fields["graph"].HasArray("nodes")
  }

  function NodesOf(graph: Json): seq<Json> {
    if HasNodes(graph) then graph.fields["graph"].fields["nodes"].items else []
  }

  function WithNodes(graph: Json, nodes: seq<Json>): Json {
    if HasNodes(graph) then graph.With("graph", graph.fields["graph"].With("nodes", Arr(nodes))) else graph
  }

  lemma WithNodesLaws(graph: Json, a: seq<Json>, b: seq<Json>)
    ensures WithNodes(graph, NodesOf(graph)) == graph
    ensures NodesOf(WithNodes(graph, a)) == if HasNodes(graph) then a else []
    ensures WithNodes(WithNodes(graph, a), b) == WithNodes(graph, b)
  {
    if HasNodes(graph) {
      var inner := graph.fields["graph"];
      assert inner.With("nodes", Arr(NodesOf(graph))).fields == inner.fields;
      assert WithNodes(graph, NodesOf(graph)).fields == graph.fields;
      assert inner.With("nodes", Arr(a)).With("nodes", Arr(b)).fields == inner.With("nodes", Arr(b)).fields;
      assert WithNodes(WithNodes(graph, a), b).fields == WithNodes(graph, b).fields;
    }
  }

  function OverlayNodes(nodes: seq<Json>, o: Overlay): (r: seq<Json>)
    ensures |r| == |nodes| && forall i :: 0 <= i < |r| ==> r[i] == OverlayNode(nodes[i], o)
  {
    seq(|nodes|, i requires 0 <= i < |nodes| => OverlayNode(nodes[i], o))
  }

  predicate NodesFail(nodes: seq<Json>, o: Overlay) {
    exists i :: 0 <= i < |nodes| && NodeFails(nodes[i], o)
  }

  function OverlayGraph(graph: Json, o: Overlay): Json {
    WithNodes(graph, OverlayNodes(NodesOf(graph), o))
  }

  function OverlayGraphs(graphs: seq<Json>, o: Overlay): (r: seq<Json>)
    ensures |r| == |graphs| && forall i :: 0 <= i < |r| ==> r[i] == OverlayGraph(graphs[i], o)
  {
    seq(|graphs|, i requires 0 <= i < |graphs| => OverlayGraph(graphs[i], o))
  }

  predicate FailsAt(graphs: seq<Json>, i: nat, o: Overlay)
    requires i < |graphs|
  {
    NodesFail(NodesOf(graphs[i]), o)
  }

  predicate Fails(graphs: seq<Json>, o: Overlay) {
    exists i :: 0 <= i < |graphs| && FailsAt(graphs, i, o)
  }

  lemma {:induction false} OverlayNodesTwice(nodes: seq<Json>, a: Overlay, b: Overlay)
    ensures OverlayNodes(OverlayNodes(nodes, a), b) == OverlayNodes(nodes, a + b)
    ensures NodesFail(OverlayNodes(nodes, a), b) <==> NodesFail(nodes, b)
    ensures NodesFail(nodes, a + b) <==> NodesFail(nodes, a) || NodesFail(nodes, b)
  {
    forall i | 0 <= i < |nodes|
      ensures OverlayNode(OverlayNode(nodes[i], a), b) == OverlayNode(nodes[i], a + b)
      ensures NodeFails(OverlayNode(nodes[i], a), b) <==> NodeFails(nodes[i], b)
      ensures NodeFails(nodes[i], a + b) <==> NodeFails(nodes[i], a) || NodeFails(nodes[i], b)
    {
      OverlayNodeTwice(nodes[i], a, b);
      NodeFailsTwice(nodes[i], a, b);
    }
    if NodesFail(nodes, b) {
      var i :| 0 <= i < |nodes| && NodeFails(nodes[i], b);
      assert NodeFails(OverlayNodes(nodes, a)[i], b);
    }
  }

  lemma OverlayGraphTwice(graph: Json, a: Overlay, b: Overlay)
    ensures OverlayGraph(OverlayGraph(graph, a), b) == OverlayGraph(graph, a + b)
    ensures NodesFail(NodesOf(OverlayGraph(graph, a)), b) <==> NodesFail(NodesOf(graph), b)
    ensures NodesFail(NodesOf(graph), a + b) <==> NodesFail(NodesOf(graph), a) || NodesFail(NodesOf(graph), b)
  {
    var nodes := NodesOf(graph);
    OverlayNodesTwice(nodes, a, b);
    WithNodesLaws(graph, OverlayNodes(nodes, a), OverlayNodes(OverlayNodes(nodes, a), b));
  }

  /** Two overlays, one after the other, are one, in which the later wins. */
  lemma OverlayGraphsTwice(graphs: seq<Json>, a: Overlay, b: Overlay)
    ensures OverlayGraphs(OverlayGraphs(graphs, a), b) == OverlayGraphs(graphs, a + b)
  {
    forall i | 0 <= i < |graphs| ensures OverlayGraph(OverlayGraph(graphs[i], a), b) == OverlayGraph(graphs[i], a + b) {
      OverlayGraphTwice(graphs[i], a, b);
    }
  }

  lemma FailsTwice(graphs: seq<Json>, a: Overlay, b: Overlay)
    ensures Fails(OverlayGraphs(graphs, a), b) <==> Fails(graphs, b)
    ensures Fails(graphs, a + b) <==> Fails(graphs, a) || Fails(graphs, b)
  {
    forall i | 0 <= i < |graphs|
      ensures FailsAt(OverlayGraphs(graphs, a), i, b) == FailsAt(graphs, i, b)
      ensures FailsAt(graphs, i, a + b) == (FailsAt(graphs, i, a) || FailsAt(graphs, i, b))
    {
      OverlayGraphTwice(graphs[i], a, b);
    }
  }

  lemma OverlayGraphsNone(graphs: seq<Json>)
    ensures OverlayGraphs(graphs, map[]) == graphs && !Fails(graphs, map[])
  {
    forall i | 0 <= i < |graphs|
      ensures OverlayGraph(graphs[i], map[]) == graphs[i] && !FailsAt(graphs, i, map[])
    {
      var nodes := NodesOf(graphs[i]);
      forall j | 0 <= j < |nodes| ensures OverlayNode(nodes[j], map[]) == nodes[j] && !NodeFails(nodes[j], map[]) {
        OverlayNodeNone(nodes[j], map[]);
      }
      assert OverlayNodes(nodes, map[]) == nodes;
      WithNodesLaws(graphs[i], nodes, nodes);
    }
  }

  lemma FailsMore(graphs: seq<Json>, a: Overlay, b: Overlay)
    requires a.Keys <= b.Keys && Fails(graphs, a)
    ensures Fails(graphs, b)
  {
    var i :| 0 <= i < |graphs| && FailsAt(graphs, i, a);
    var nodes := NodesOf(graphs[i]);
    var j :| 0 <= j < |nodes| && NodeFails(nodes[j], a);
    var s :| s in a && Named(nodes[j], s.extension);
    assert s in b && NodeFails(nodes[j], b);
    assert FailsAt(graphs, i, b);
  }

  /** Laying o over the graphs, or the panic when a node has no property object. */
  function Set(graphs: seq<Json>, o: Overlay): Option<seq<Json>> {
    if Fails(graphs, o) then None else Some(OverlayGraphs(graphs, o))
  }

  lemma SetTwice(graphs: seq<Json>, a: Overlay, b: Overlay)
    ensures Set(graphs, a + b) == match Set(graphs, a) case None => None case Some(g) => Set(g, b)
  {
    OverlayGraphsTwice(graphs, a, b);
    FailsTwice(graphs, a, b);
  }

  predicate Part(o: Overlay, all: Overlay) {
    forall s :: s in o ==> s in all && o[s] == all[s]
  }

  /** Setting more of what is wanted in the end; a panic on the way is one at
      the end. */
  lemma SetMore(graphs: seq<Json>, newGraphs: seq<Json>, done: Overlay, more: Overlay, all: Overlay)
    requires Part(done, all) && Part(more, all) && Set(graphs, done) == Some(newGraphs)
    ensures Part(done + more, all) && Set(graphs, done + more) == Set(newGraphs, more)
    ensures Set(newGraphs, more).None? ==> Set(graphs, all).None?
  {
    SetTwice(graphs, done, more);
    if Fails(graphs, done + more) {
      FailsMore(graphs, done + more, all);
    }
  }

  // ----- one value into every node of the extension

  lemma OneSlot(node: Json, slot: Slot, val: Json)
    ensures !Named(node, slot.extension) ==>
      OverlayNode(node, map[slot := val]) == node && !NodeFails(node, map[slot := val])
    ensures Named(node, slot.extension) ==> (NodeFails(node, map[slot := val]) <==> !node.HasObject("property"))
    ensures Named(node, slot.extension) && node.HasObject("property") ==>
      OverlayNode(node, map[slot := val]) == node.With("property", node.fields["property"].With(slot.property, val))
  {
    var o := map[slot := val];
    if Named(node, slot.extension) {
      assert slot in o;
      assert ExtensionProps(o, slot.extension) == map[slot.property := val];
      if node.HasObject("property") {
        var props := node.fields["property"].fields;
        assert props + map[slot.property := val] == props[slot.property := val];
      }
    } else {
      OverlayNodeNone(node, o);
    }
  }

  method AssignNode(node: Json, slot: Slot, val: Json) returns (r: Option<Json>)
    ensures r == if NodeFails(node, map[slot := val]) then None else Some(OverlayNode(node, map[slot := val]))
  {
    OneSlot(node, slot, val);
    if !Named(node, slot.extension) {
      return Some(node);
    }
    if !node.HasObject("property") {
      return None;
    }
    r := Some(node.With("property", node.fields["property"].With(slot.property, val)));
  }

  method AssignInGraph(graph: Json, slot: Slot, val: Json) returns (r: Option<Json>)
    ensures r == if NodesFail(NodesOf(graph), map[slot := val]) then None
                 else Some(OverlayGraph(graph, map[slot := val]))
  {
    var o := map[slot := val];
    var nodes := NodesOf(graph);
    ghost var before := nodes;
    for j := 0 to |nodes|
      invariant |nodes| == |before|
      invariant forall k :: 0 <= k < j ==> nodes[k] == OverlayNode(before[k], o) && !NodeFails(before[k], o)
      invariant forall k :: j <= k < |nodes| ==> nodes[k] == before[k]
    {
      var node := AssignNode(nodes[j], slot, val);
      if node.None? {
        assert NodeFails(before[j], o);
        return None;
      }
      nodes := nodes[j := node.value];
    }
    assert nodes == OverlayNodes(before, o);
    r := Some(WithNodes(graph, nodes));
  }

  method AssignSlot(graphs: seq<Json>, slot: Slot, val: Json) returns (r: Option<seq<Json>>)
    ensures r == Set(graphs, map[slot := val])
  {
    var o := map[slot := val];
    var updated := graphs;
    for i := 0 to |graphs|
      invariant |updated| == |graphs|
      invariant forall k :: 0 <= k < i ==> updated[k] == OverlayGraph(graphs[k], o) && !FailsAt(graphs, k, o)
      invariant forall k :: i <= k < |graphs| ==> updated[k] == graphs[k]
    {
      var graph := AssignInGraph(graphs[i], slot, val);
      if graph.None? {
        assert FailsAt(graphs, i, o);
        return None;
      }
      updated := updated[i := graph.value];
    }
    assert updated == OverlayGraphs(graphs, o);
    r := Some(updated);
  }
}
