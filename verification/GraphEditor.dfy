/** The in-place edits of GraphEditor (ai_agents/playground/src/common/graph.ts)
    on a graph object, each proved against its effect in GraphModel. */
module GraphEditor {
  import opened Wrappers
  import opened GraphModel
  import opened JsonValues
  import opened Sequences

  class Graph {
    var nodes: seq<Node>
    var connections: seq<Connection>

    constructor (nodes: seq<Node>, connections: seq<Connection>)
      ensures this.nodes == nodes && this.connections == connections
    {
      this.nodes, this.connections := nodes, connections;
    }
  }

  function FindNode(nodes: seq<Node>, name: string): (i: nat)
    ensures i <= |nodes| && (i < |nodes| ==> nodes[i].name == name)
    ensures forall j :: 0 <= j < i ==> nodes[j].name != name
  {
    if nodes == [] then 0 else if nodes[0].name == name then 0 else 1 + FindNode(nodes[1..], name)
  }

  lemma {:induction false} FindAddedNode(nodes: seq<Node>, node: Node)
    requires FindNode(nodes, node.name) == |nodes|
    ensures FindNode(nodes + [node], node.name) == |nodes|
  {
    if nodes != [] {
      assert (nodes + [node])[1..] == nodes[1..] + [node];
      FindAddedNode(nodes[1..], node);
    }
  }

  predicate IsFirst(nodes: seq<Node>, part: string, i: int) {
    && 0 <= i < |nodes| && Includes(nodes[i].addon, part)
    && forall j :: 0 <= j < i ==> !Includes(nodes[j].addon, part)
  }

  lemma LastRemoved(nodes: seq<Node>, node: Node)
    ensures (nodes + [node])[..|nodes|] + (nodes + [node])[|nodes| + 1..] == nodes
  {
  }

  /** The first node whose addon includes the given text. */
  function FindAddon(nodes: seq<Node>, part: string): (r: Option<Node>)
    ensures r.None? ==> forall i :: 0 <= i < |nodes| ==> !Includes(nodes[i].addon, part)
    ensures r.Some? ==> exists i :: IsFirst(nodes, part, i) && nodes[i] == r.value
  {
    if nodes == [] then None
    else if Includes(nodes[0].addon, part) then
      assert IsFirst(nodes, part, 0);
      Some(nodes[0])
    else
      assert forall i :: IsFirst(nodes[1..], part, i) ==> IsFirst(nodes, part, i + 1);
      FindAddon(nodes[1..], part)
  }

  // ----- the video properties of the rtc node

  /** Properties set to the empty text are left out. */
  function Merged(property: Option<map<string, Json>>, updates: map<string, Json>): Option<map<string, Json>> {
    Some(property.GetOr(map[]) + map k | k in updates && updates[k] != Str("") :: updates[k])
  }

  function Removed(property: Option<map<string, Json>>, names: set<string>): Option<map<string, Json>> {
    match property
    case None => None
    case Some(p) => Some(p - names)
  }

  function Elements(names: seq<string>): set<string> {
    set p | p in names
  }

  function WithProperty(nodes: seq<Node>, i: nat, property: Option<map<string, Json>>): seq<Node>
    requires i < |nodes|
  {
    nodes[i := nodes[i].(property := property)]
  }

  const VIDEO_UPDATES: map<string, Json> := map["subscribe_video_pix_fmt" := Num(4), "subscribe_video" := Bool(true)]

  lemma {:induction false} FindAfterUpdate(nodes: seq<Node>, i: nat, property: Option<map<string, Json>>, part: string)
    requires i < |nodes|
    ensures var found, after := FindAddon(nodes, part), FindAddon(WithProperty(nodes, i, property), part);
      && (found.Some? <==> after.Some?)
      && (found.Some? ==> after.value.name == found.value.name)
  {
    var updated := WithProperty(nodes, i, property);
    if i == 0 {
      assert updated[1..] == nodes[1..];
    } else {
      assert updated[1..] == WithProperty(nodes[1..], i - 1, property);
      FindAfterUpdate(nodes[1..], i - 1, property, part);
    }
  }

  lemma {:induction false} FindNodeAfterUpdate(nodes: seq<Node>, i: nat, property: Option<map<string, Json>>, name: string)
    requires i < |nodes|
    ensures FindNode(WithProperty(nodes, i, property), name) == FindNode(nodes, name)
  {
    var updated := WithProperty(nodes, i, property);
    if i == 0 {
      assert updated[1..] == nodes[1..];
    } else {
      assert updated[1..] == WithProperty(nodes[1..], i - 1, property);
      FindNodeAfterUpdate(nodes[1..], i - 1, property, name);
    }
  }

  lemma {:induction false} FoundIsNode(nodes: seq<Node>, part: string)
    ensures FindAddon(nodes, part).Some? ==> FindNode(nodes, FindAddon(nodes, part).value.name) < |nodes|
  {
    if nodes != [] {
      FoundIsNode(nodes[1..], part);
    }
  }

  /** Enabling and disabling leave a property as it was exactly when it was
      there and had neither of the two. */
  lemma MergedRemovedIff(property: Option<map<string, Json>>)
    ensures Removed(Merged(property, VIDEO_UPDATES), VIDEO_UPDATES.Keys) == property <==>
      property.Some? && property.value.Keys !! VIDEO_UPDATES.Keys
  {
    if property.Some? && property.value.Keys !! VIDEO_UPDATES.Keys {
      assert Removed(Merged(property, VIDEO_UPDATES), VIDEO_UPDATES.Keys).value == property.value;
    }
  }

  /** Key by key: an update that is not the empty text wins over what was there. */
  lemma MergedAt(property: Option<map<string, Json>>, updates: map<string, Json>, key: string)
    ensures var was, r := property.GetOr(map[]), Merged(property, updates);
      && r.Some?
      && (key in updates && updates[key] != Str("") ==> key in r.value && r.value[key] == updates[key])
      && (!(key in updates && updates[key] != Str("")) ==>
            (key in r.value <==> key in was) && (key in was ==> r.value[key] == was[key]))
  {
  }

  /** The video is on, and nothing else has changed. */
  ghost predicate VideoOn(was: Option<map<string, Json>>, property: Option<map<string, Json>>) {
    && property.Some?
    && "subscribe_video" in property.value && property.value["subscribe_video"] == Bool(true)
    && "subscribe_video_pix_fmt" in property.value && property.value["subscribe_video_pix_fmt"] == Num(4)
    && property.value - {"subscribe_video", "subscribe_video_pix_fmt"}
      == was.GetOr(map[]) - {"subscribe_video", "subscribe_video_pix_fmt"}
  }

  /** The video is off, and nothing else has changed. */
  ghost predicate VideoOff(was: Option<map<string, Json>>, property: Option<map<string, Json>>) {
    && (property.Some? <==> was.Some?)
    && (was.Some? ==> property.value == was.value - {"subscribe_video", "subscribe_video_pix_fmt"})
  }

  lemma UpdatesTurnOn(was: Option<map<string, Json>>)
    ensures VideoOn(was, Merged(was, VIDEO_UPDATES))
    ensures VideoOff(was, Removed(was, VIDEO_UPDATES.Keys))
  {
    assert VIDEO_UPDATES.Keys == {"subscribe_video", "subscribe_video_pix_fmt"};
    var both := {"subscribe_video", "subscribe_video_pix_fmt"};
    var after := Merged(was, VIDEO_UPDATES).value;
    forall key | key !in both ensures key in after <==> key in was.GetOr(map[]) {
      MergedAt(was, VIDEO_UPDATES, key);
    }
    assert after - both == was.GetOr(map[]) - both;
  }

  // ----- links of a tool

  /** The edges linkTool asks for, in its order. */
  function LinkEdges(nodes: seq<Node>, llm: Node, tool: Node, outputContentText: bool): seq<Edge> {
    CommandEdges(llm, tool) + (VideoEdges(nodes, tool) + TextEdges(nodes, tool, outputContentText))
  }

  function CommandEdges(llm: Node, tool: Node): seq<Edge> {
    [Edge(llm.name, Cmd, "tool_call", tool.name), Edge(tool.name, Cmd, "tool_register", llm.name)]
  }

  function VideoEdges(nodes: seq<Node>, tool: Node): seq<Edge> {
    var rtc := FindAddon(nodes, "rtc");
    if Includes(tool.addon, "vision") && rtc.Some? then
      [Edge(rtc.value.name, VideoFrame, "video_frame", tool.name)]
    else
      []
  }

  function TextEdges(nodes: seq<Node>, tool: Node, outputContentText: bool): seq<Edge> {
    var collector := FindAddon(nodes, "message_collector");
    if outputContentText && collector.Some? then
      [Edge(tool.name, Data, "content_data", collector.value.name)]
    else
      []
  }

  /** The tool is called by the llm and registers with it; a vision tool gets the
      frames of the first rtc node; and its text goes to the first collector. */
  ghost predicate IsLink(nodes: seq<Node>, llm: Node, tool: Node, outputContentText: bool, e: Edge) {
    || e == Edge(llm.name, Cmd, "tool_call", tool.name)
    || e == Edge(tool.name, Cmd, "tool_register", llm.name)
    || (Includes(tool.addon, "vision") && FindAddon(nodes, "rtc").Some?
        && e == Edge(FindAddon(nodes, "rtc").value.name, VideoFrame, "video_frame", tool.name))
    || (outputContentText && FindAddon(nodes, "message_collector").Some?
        && e == Edge(tool.name, Data, "content_data", FindAddon(nodes, "message_collector").value.name))
  }

  ghost predicate Linked(before: seq<Connection>, after: seq<Connection>, nodes: seq<Node>, llm: Node, tool: Node,
                         outputContentText: bool) {
    forall e :: HasEdge(after, e) <==> HasEdge(before, e) || IsLink(nodes, llm, tool, outputContentText, e)
  }

  lemma LinkEdgesLink(cs: seq<Connection>, nodes: seq<Node>, llm: Node, tool: Node, outputContentText: bool, app: string)
    ensures Linked(cs, AddEdges(cs, LinkEdges(nodes, llm, tool, outputContentText), app), nodes, llm, tool,
                   outputContentText)
  {
    var es := LinkEdges(nodes, llm, tool, outputContentText);
    forall e ensures HasEdge(AddEdges(cs, es, app), e) <==>
      HasEdge(cs, e) || IsLink(nodes, llm, tool, outputContentText, e)
    {
      AddEdgesIsUnion(cs, es, app, e);
      LinkEdgesAre(nodes, llm, tool, outputContentText, e);
    }
  }

  lemma LinkEdgesAre(nodes: seq<Node>, llm: Node, tool: Node, outputContentText: bool, e: Edge)
    ensures e in LinkEdges(nodes, llm, tool, outputContentText) <==> IsLink(nodes, llm, tool, outputContentText, e)
  {
    var v, t := VideoEdges(nodes, tool), TextEdges(nodes, tool, outputContentText);
    assert e in CommandEdges(llm, tool) + (v + t) <==> e in CommandEdges(llm, tool) || e in v || e in t;
  }

  lemma LinksTouch(nodes: seq<Node>, llm: Node, tool: Node, outputContentText: bool)
    ensures forall e :: e in LinkEdges(nodes, llm, tool, outputContentText) ==> Touches(e, tool.name)
  {
    forall e | e in LinkEdges(nodes, llm, tool, outputContentText) ensures Touches(e, tool.name) {
      LinkEdgesAre(nodes, llm, tool, outputContentText, e);
    }
  }

  class Editor {
    var sharedApp: string

    constructor ()
      ensures sharedApp == "localhost"
    {
      sharedApp := "localhost";
    }

    method AddNode(graph: Graph, addon: string, name: string, group: string, properties: map<string, Json>)
      returns (r: Result<Node, string>)
      modifies graph`nodes
      ensures r.Failure? <==> exists i :: 0 <= i < |old(graph.nodes)| && old(graph.nodes)[i].name == name
      ensures r.Failure? ==> graph.nodes == old(graph.nodes)
      ensures r.Success? ==>
        && r.value == Node(name, addon, group, sharedApp, Some(properties))
        && graph.nodes == old(graph.nodes) + [r.value]
    {
      if exists i :: 0 <= i < |graph.nodes| && graph.nodes[i].name == name {
        return Failure("Node already exists in graph.");
      }
      var node := Node(name, addon, group, sharedApp, Some(properties));
      graph.nodes := graph.nodes + [node];
      return Success(node);
    }

    method RemoveNode(graph: Graph, nodeName: string) returns (r: Result<Node, string>)
      modifies graph`nodes
      ensures var k := FindNode(old(graph.nodes), nodeName);
        if k == |old(graph.nodes)| then r.Failure? && graph.nodes == old(graph.nodes)
        else r == Success(old(graph.nodes)[k]) && graph.nodes == old(graph.nodes)[..k] + old(graph.nodes)[k + 1..]
    {
      var nodeIndex := FindNode(graph.nodes, nodeName);
      if nodeIndex == |graph.nodes| {
        return Failure("Node not found in graph.");
      }
      var node := graph.nodes[nodeIndex];
      graph.nodes := RemoveAt(graph.nodes, nodeIndex);
      return Success(node);
    }

    /** Throws exactly when the item it finds already has the destination, and
        then nothing has changed. */
    method AddConnection(graph: Graph, source: string, destination: string, protocol: Protocol, name: string)
      returns (r: Result<(), string>)
      modifies graph`connections
      ensures var e := Edge(source, protocol, name, destination);
        && graph.connections == AddEdge(old(graph.connections), e, sharedApp)
        && (r.Failure? <==> AlreadyThere(old(graph.connections), e))
        && (r.Failure? <==> graph.connections == old(graph.connections))
    {
      ghost var e := Edge(source, protocol, name, destination);
      ghost var before := graph.connections;
      AddEdgeAlreadyThere(graph.connections, e, sharedApp);
      var i := FindSource(graph.connections, source);
      if i == |graph.connections| {
        graph.connections := graph.connections + [Connection(sharedApp, source, map[])];
      }
      var connection := graph.connections[i];
      if protocol !in connection.items {
        connection := connection.(items := connection.items[protocol := []]);
        graph.connections := graph.connections[i := connection];
      }
      var items := connection.items[protocol];
      var k := FindItem(items, name);
      if k == |items| {
        items := items + [Item(name, [])];
        connection := connection.(items := connection.items[protocol := items]);
        graph.connections := graph.connections[i := connection];
      }
      if HasDest(items[k].dest, destination) {
        assert AlreadyThere(before, e) && graph.connections == before;
        return Failure("Destination already exists.");
      }
      var item := items[k].(dest := items[k].dest + [Dest(sharedApp, destination, None)]);
      connection := connection.(items := connection.items[protocol := items[k := item]]);
      graph.connections := graph.connections[i := connection];
      AddedInPlace(before, e, sharedApp, connection, graph.connections);
      return Success(());
    }

    /** The step-by-step updates amount to AddEdge. */
    static lemma AddedInPlace(before: seq<Connection>, e: Edge, app: string, c: Connection, after: seq<Connection>)
      requires var i := FindSource(before, e.source);
        var base := if i == |before| then Connection(app, e.source, map[]) else before[i];
        && c.app == base.app && c.extension == base.extension
        && c.items == base.items[e.protocol := AddToItems(ItemsOf(base, e.protocol), e.name, e.dest, app)]
        && after == (if i == |before| then before + [c] else before[i := c])
      ensures after == AddEdge(before, e, app)
    {
    }

    method AddOrUpdateConnection(graph: Graph, source: string, destination: string, protocol: Protocol, name: string)
      modifies graph`connections
      ensures graph.connections ==
        AddEdge(old(graph.connections), Edge(source, protocol, name, destination), sharedApp)
    {
      ghost var e := Edge(source, protocol, name, destination);
      ghost var before := graph.connections;
      AddEdgeAlreadyThere(before, e, sharedApp);
      var i := FindSource(graph.connections, source);
      if i < |graph.connections| {
        var connection := graph.connections[i];
        if protocol !in connection.items {
          connection := connection.(items := connection.items[protocol := []]);
          graph.connections := graph.connections[i := connection];
        }
        var items := connection.items[protocol];
        var k := FindItem(items, name);
        if k == |items| {
          items := items + [Item(name, [])];
          connection := connection.(items := connection.items[protocol := items]);
          graph.connections := graph.connections[i := connection];
        }
        if HasDest(items[k].dest, destination) {
          assert AlreadyThere(before, e) && graph.connections == before;
        } else {
          var item := items[k].(dest := items[k].dest + [Dest(sharedApp, destination, None)]);
          connection := connection.(items := connection.items[protocol := items[k := item]]);
          graph.connections := graph.connections[i := connection];
          AddedInPlace(before, e, sharedApp, connection, graph.connections);
        }
      } else {
        var _ := AddConnection(graph, source, destination, protocol, name);
      }
    }

    method RemoveEmptyConnections(graph: Graph)
      modifies graph`connections
      ensures graph.connections == RemoveEmpty(old(graph.connections))
    {
      var cs := graph.connections;
      var kept: seq<Connection> := [];
      for i := 0 to |cs|
        invariant kept == RemoveEmpty(cs[..i])
      {
        var connection := Clean(cs[i]);
        RemoveEmptySnoc(cs, i);
        if connection.items != map[] {
          kept := kept + [connection];
        }
      }
      assert cs[..|cs|] == cs;
      graph.connections := kept;
    }

    /** Only a removal that finds what it names cleans up the empty parts. */
    method RemoveConnection(graph: Graph, removal: Removal)
      modifies graph`connections
      ensures graph.connections == RemoveEdges(old(graph.connections), removal)
    {
      var i := FindSource(graph.connections, removal.source);
      if i == |graph.connections| {
        return;
      }
      var connection := graph.connections[i];
      if removal.protocol.Some? {
        var protocol := removal.protocol.value;
        if protocol !in connection.items {
          return;
        }
        var items := connection.items[protocol];
        if removal.name.None? {
          return;
        }
        var k := FindItem(items, removal.name.value);
        if k == |items| {
          return;
        }
        if NamesDest(removal) {
          items := items[k := items[k].(dest := RemoveDest(items[k].dest, removal.dest.value))];
          if items[k].dest == [] {
            items := RemoveAt(items, k);
            assert items == RemoveAt(connection.items[protocol], k);
          }
        } else {
          items := RemoveAt(items, k);
        }
        connection := connection.(items := connection.items[protocol := items]);
        graph.connections := graph.connections[i := connection];
      } else {
        graph.connections := RemoveAt(graph.connections, i);
      }
      RemoveEmptyConnections(graph);
    }

    /** The filter callback of removeNodeAndConnections over all connections. */
    method FilterConnections(graph: Graph, name: string)
      modifies graph`connections
      ensures graph.connections == StripAll(old(graph.connections), name)
    {
      var cs := graph.connections;
      var kept: seq<Connection> := [];
      for i := 0 to |cs|
        invariant kept == StripAll(cs[..i], name)
      {
        var connection := Strip(cs[i], name);
        StripAllSnoc(cs, i, name);
        if connection.extension != name && HasItems(connection) {
          kept := kept + [connection];
        }
      }
      assert cs[..|cs|] == cs;
      graph.connections := kept;
    }

    method RemoveNodeAndConnections(graph: Graph, addon: string) returns (r: Result<(), string>)
      modifies graph
      ensures var k := FindNode(old(graph.nodes), addon);
        if k == |old(graph.nodes)| then
          r.Failure? && graph.nodes == old(graph.nodes) && graph.connections == old(graph.connections)
        else
          && r.Success? && graph.nodes == old(graph.nodes)[..k] + old(graph.nodes)[k + 1..]
          && graph.connections == RemoveNodeEdges(old(graph.connections), addon)
    {
      var removed := RemoveNode(graph, addon);
      if removed.Failure? {
        return Failure(removed.error);
      }
      var node := removed.value;
      FilterConnections(graph, node.name);
      RemoveEmptyConnections(graph);
      return Success(());
    }

    method LinkCommands(graph: Graph, llmNode: Node, toolNode: Node)
      modifies graph`connections
      ensures graph.connections == AddEdges(old(graph.connections), CommandEdges(llmNode, toolNode), sharedApp)
    {
      ghost var cmd := CommandEdges(llmNode, toolNode);
      AddEdgesShort(graph.connections, cmd[0], cmd[1], sharedApp);
      AddOrUpdateConnection(graph, llmNode.name, toolNode.name, Cmd, "tool_call");
      AddOrUpdateConnection(graph, toolNode.name, llmNode.name, Cmd, "tool_register");
    }

    method LinkVideo(graph: Graph, toolNode: Node)
      modifies graph`connections
      ensures graph.connections == AddEdges(old(graph.connections), VideoEdges(graph.nodes, toolNode), sharedApp)
    {
      var rtcModule := FindAddon(graph.nodes, "rtc");
      if Includes(toolNode.addon, "vision") && rtcModule.Some? {
        ghost var e := Edge(rtcModule.value.name, VideoFrame, "video_frame", toolNode.name);
        AddEdgesShort(graph.connections, e, e, sharedApp);
        AddOrUpdateConnection(graph, rtcModule.value.name, toolNode.name, VideoFrame, "video_frame");
      }
    }

    method LinkText(graph: Graph, toolNode: Node, outputContentText: bool)
      modifies graph`connections
      ensures graph.connections ==
        AddEdges(old(graph.connections), TextEdges(graph.nodes, toolNode, outputContentText), sharedApp)
    {
      var messageCollector := FindAddon(graph.nodes, "message_collector");
      if outputContentText && messageCollector.Some? {
        ghost var e := Edge(toolNode.name, Data, "content_data", messageCollector.value.name);
        AddEdgesShort(graph.connections, e, e, sharedApp);
        AddOrUpdateConnection(graph, toolNode.name, messageCollector.value.name, Data, "content_data");
      }
    }

    method LinkTool(graph: Graph, llmNode: Node, toolNode: Node, outputContentText: bool)
      modifies graph`connections
      ensures graph.connections ==
        AddEdges(old(graph.connections), LinkEdges(graph.nodes, llmNode, toolNode, outputContentText), sharedApp)
      ensures Linked(old(graph.connections), graph.connections, graph.nodes, llmNode, toolNode, outputContentText)
    {
      AddEdgesInTurn(graph.connections, CommandEdges(llmNode, toolNode), VideoEdges(graph.nodes, toolNode),
                     TextEdges(graph.nodes, toolNode, outputContentText), sharedApp);
      LinkEdgesLink(graph.connections, graph.nodes, llmNode, toolNode, outputContentText, sharedApp);
      LinkCommands(graph, llmNode, toolNode);
      LinkVideo(graph, toolNode);
      LinkText(graph, toolNode, outputContentText);
    }

    /** Adding a tool under an unused name, linking it and removing it again
        restores the graph, whichever optional links were made, exactly when
        its connections had no empty parts and did not mention the name. */
    method LinkAndRemoveTool(graph: Graph, llmNode: Node, addon: string, name: string, outputContentText: bool)
      requires FindNode(graph.nodes, name) == |graph.nodes|
      modifies graph
      ensures graph.nodes == old(graph.nodes)
      ensures graph.connections == old(graph.connections) <==>
        NoEmptyParts(old(graph.connections)) && Fresh(old(graph.connections), name)
    {
      var added := AddNode(graph, addon, name, "default", map[]);
      FindAddedNode(old(graph.nodes), added.value);
      LastRemoved(old(graph.nodes), added.value);
      ghost var es := LinkEdges(graph.nodes, llmNode, added.value, outputContentText);
      LinksTouch(graph.nodes, llmNode, added.value, outputContentText);
      LinkTool(graph, llmNode, added.value, outputContentText);
      var removed := RemoveNodeAndConnections(graph, name);
      AddThenRemoveNode(old(graph.connections), es, sharedApp, name);
    }

    method UpdateNodeProperty(graph: Graph, nodeName: string, properties: map<string, Json>) returns (ok: bool)
      modifies graph`nodes
      ensures var nodes := old(graph.nodes);
        var k := FindNode(nodes, nodeName);
        && (ok <==> k < |nodes|)
        && graph.nodes == (if ok then WithProperty(nodes, k, Merged(nodes[k].property, properties)) else nodes)
    {
      var k := FindNode(graph.nodes, nodeName);
      if k == |graph.nodes| {
        return false;
      }
      graph.nodes := WithProperty(graph.nodes, k, Merged(graph.nodes[k].property, properties));
      return true;
    }

    method RemoveNodeProperties(graph: Graph, nodeName: string, properties: seq<string>) returns (ok: bool)
      modifies graph`nodes
      ensures var nodes := old(graph.nodes);
        var k := FindNode(nodes, nodeName);
        && (ok <==> k < |nodes|)
        && graph.nodes ==
          (if ok then WithProperty(nodes, k, Removed(nodes[k].property, Elements(properties))) else nodes)
    {
      var k := FindNode(graph.nodes, nodeName);
      if k == |graph.nodes| {
        return false;
      }
      var node := graph.nodes[k];
      var property := node.property;
      ghost var before := property.GetOr(map[]);
      for i := 0 to |properties|
        invariant graph.nodes == old(graph.nodes)
        invariant property.Some? == node.property.Some?
        invariant property.Some? ==> property.value == before - Elements(properties[..i])
      {
        if property.Some? {
          property := Some(property.value - {properties[i]});
          TakeSnoc(properties, i);
          assert property.value == before - Elements(properties[..i + 1]);
        }
      }
      assert properties[..|properties|] == properties;
      graph.nodes := WithProperty(graph.nodes, k, property);
      return true;
    }

    /** The rtc node is found by its addon, but the properties go to the first
        node of its name. */
    method EnableRTCVideoSubscribe(graph: Graph, enabled: bool) returns (r: Result<(), string>)
      modifies graph`nodes
      ensures var nodes := old(graph.nodes);
        var rtc := FindAddon(nodes, "rtc");
        && (r.Failure? <==> rtc.None?)
        && (r.Failure? ==> graph.nodes == nodes)
        && (r.Success? ==>
          var k := FindNode(nodes, rtc.value.name);
          && k < |nodes|
          && graph.nodes == WithProperty(nodes, k, if enabled then Merged(nodes[k].property, VIDEO_UPDATES)
                                                   else Removed(nodes[k].property, VIDEO_UPDATES.Keys)))
      ensures var nodes := old(graph.nodes);
        r.Success? ==>
          var k := FindNode(nodes, FindAddon(nodes, "rtc").value.name);
          && |graph.nodes| == |nodes| && (forall j :: 0 <= j < |nodes| && j != k ==> graph.nodes[j] == nodes[j])
          && graph.nodes[k] == nodes[k].(property := graph.nodes[k].property)
          && if enabled then VideoOn(nodes[k].property, graph.nodes[k].property)
             else VideoOff(nodes[k].property, graph.nodes[k].property)
    {
      var rtcNode := FindAddon(graph.nodes, "rtc");
      if rtcNode.None? {
        return Failure("RTC node not found in the graph.");
      }
      FoundIsNode(graph.nodes, "rtc");
      UpdatesTurnOn(graph.nodes[FindNode(graph.nodes, rtcNode.value.name)].property);
      if enabled {
        var _ := UpdateNodeProperty(graph, rtcNode.value.name, VIDEO_UPDATES);
      } else {
        var names := ["subscribe_video_pix_fmt", "subscribe_video"];
        assert Elements(names) == VIDEO_UPDATES.Keys;
        var _ := RemoveNodeProperties(graph, rtcNode.value.name, names);
      }
      return Success(());
    }

    /** Switching the video on and off again restores the nodes exactly when the
        node that got the properties had a property field without either. */
    method EnableAndDisableVideo(graph: Graph)
      requires FindAddon(graph.nodes, "rtc").Some?
      modifies graph`nodes
      ensures var nodes := old(graph.nodes);
        var k := FindNode(nodes, FindAddon(nodes, "rtc").value.name);
        && k < |nodes|
        && (graph.nodes == nodes <==>
          nodes[k].property.Some? && nodes[k].property.value.Keys !! VIDEO_UPDATES.Keys)
    {
      ghost var nodes := graph.nodes;
      ghost var name := FindAddon(nodes, "rtc").value.name;
      FoundIsNode(nodes, "rtc");
      ghost var k := FindNode(nodes, name);
      var _ := EnableRTCVideoSubscribe(graph, true);
      FindAfterUpdate(nodes, k, graph.nodes[k].property, "rtc");
      FindNodeAfterUpdate(nodes, k, graph.nodes[k].property, name);
      var _ := EnableRTCVideoSubscribe(graph, false);
      MergedRemovedIff(nodes[k].property);
      assert nodes[k := nodes[k]] == nodes;
      assert graph.nodes[k].property == Removed(Merged(nodes[k].property, VIDEO_UPDATES), VIDEO_UPDATES.Keys);
    }
  }
}
