/** The rewrite of property.json before a worker starts
    (processProperty in ai_agents/server/internal/http_server.go, with the slots
    of ai_agents/server/internal/config.go).

    Go ranges over a map in an unspecified order; the loops below pick the next
    key arbitrarily and still compute Rewrite, which knows no order. */
module ProcessProperty {
  import opened Wrappers
  import opened JsonValues
  import opened EnvSubstitution
  import opened PropertyRewrite

  datatype StartKey = ChannelName | RemoteStreamId | BotStreamId | Token | WorkerHttpServerPort

  /** A start request, with the values of env_properties
      already formatted. */
  datatype Request = Request(
    graphName: string,
    channelName: string,
    remoteStreamId: nat,
    botStreamId: nat,
    token: string,
    port: int,
    properties: map<string, map<string, Json>>,
    env: map<string, string>)

  const ALL_KEYS: set<StartKey> := {ChannelName, RemoteStreamId, BotStreamId, Token, WorkerHttpServerPort}

  function Props(key: StartKey): seq<Slot> {
    match key
    case ChannelName => [Slot("agora_rtc", "channel"), Slot("agora_rtm", "channel")]
    case RemoteStreamId => [Slot("agora_rtc", "remote_stream_id")]
    case BotStreamId => [Slot("agora_rtc", "stream_id")]
    case Token => [Slot("agora_rtc", "token"), Slot("agora_rtm", "token")]
    case WorkerHttpServerPort => [Slot("http_server", "listen_port")]
  }

  function FieldValue(req: Request, key: StartKey): Json {
    match key
    case ChannelName => Str(req.channelName)
    case RemoteStreamId => Num(req.remoteStreamId)
    case BotStreamId => Num(req.botStreamId)
    case Token => Str(req.token)
    case WorkerHttpServerPort => Num(req.port)
  }

  // ----- what a request asks for

  /** The properties of the request; the extension "" is skipped. */
  function Requested(properties: map<string, map<string, Json>>): Overlay {
    map e, p | e in properties && e != "" && p in properties[e] :: Slot(e, p) := properties[e][p]
  }

  const START_SLOTS: set<Slot> :=
    {Slot("agora_rtc", "channel"), Slot("agora_rtm", "channel"), Slot("agora_rtc", "remote_stream_id"),
     Slot("agora_rtc", "stream_id"), Slot("agora_rtc", "token"), Slot("agora_rtm", "token"),
     Slot("http_server", "listen_port")}

  function KeyOf(slot: Slot): StartKey {
    if slot.property == "channel" then ChannelName
    else if slot.property == "remote_stream_id" then RemoteStreamId
    else if slot.property == "stream_id" then BotStreamId
    else if slot.property == "token" then Token
    else WorkerHttpServerPort
  }

  /** Every start slot belongs to one key, so no two keys write the same slot. */
  lemma SlotHasOneKey(slot: Slot, key: StartKey)
    ensures slot in Props(key) <==> slot in START_SLOTS && KeyOf(slot) == key
  {
  }

  /** The start parameters; an empty text sets nothing, a zero does. */
  function StartOverlay(req: Request): Overlay {
    map s | s in START_SLOTS && FieldValue(req, KeyOf(s)) != Str("") :: FieldValue(req, KeyOf(s))
  }

  function ExtensionOverlay(extension: string, props: map<string, Json>): Overlay {
    map p | p in props :: Slot(extension, p) := props[p]
  }

  method SetExtension(graphs: seq<Json>, extension: string, props: map<string, Json>) returns (r: Option<seq<Json>>)
    ensures r == Set(graphs, ExtensionOverlay(extension, props))
  {
    ghost var all := ExtensionOverlay(extension, props);
    var newGraphs, keys := graphs, props.Keys;
    ghost var done: Overlay := map[];
    OverlayGraphsNone(graphs);
    while keys != {}
      invariant keys <= props.Keys
      invariant done.Keys == set s | s in all && s.property !in keys
      invariant Part(done, all)
      invariant Set(graphs, done) == Some(newGraphs)
      decreases |keys|
    {
      var prop :| prop in keys;
      keys := keys - {prop};
      var slot := Slot(extension, prop);
      var updated := AssignSlot(newGraphs, slot, props[prop]);
      SetMore(graphs, newGraphs, done, map[slot := props[prop]], all);
      done := done + map[slot := props[prop]];
      if updated.None? {
        return None;
      }
      newGraphs := updated.value;
    }
    assert done == all;
    r := Some(newGraphs);
  }

  lemma ExtensionIsPart(properties: map<string, map<string, Json>>, extension: string)
    requires extension in properties && extension != ""
    ensures Part(ExtensionOverlay(extension, properties[extension]), Requested(properties))
    ensures ExtensionOverlay(extension, properties[extension]).Keys ==
      set s | s in Requested(properties) && s.extension == extension
  {
  }

  method SetProperties(graphs: seq<Json>, properties: map<string, map<string, Json>>)
    returns (r: Option<seq<Json>>)
    ensures r == Set(graphs, Requested(properties))
  {
    ghost var all := Requested(properties);
    var newGraphs, extensions := graphs, properties.Keys;
    ghost var done: Overlay := map[];
    OverlayGraphsNone(graphs);
    while extensions != {}
      invariant extensions <= properties.Keys
      invariant done.Keys == set s | s in all && s.extension !in extensions
      invariant Part(done, all)
      invariant Set(graphs, done) == Some(newGraphs)
      decreases |extensions|
    {
      var extensionName :| extensionName in extensions;
      extensions := extensions - {extensionName};
      if extensionName != "" {
        ghost var more := ExtensionOverlay(extensionName, properties[extensionName]);
        ExtensionIsPart(properties, extensionName);
        var updated := SetExtension(newGraphs, extensionName, properties[extensionName]);
        SetMore(graphs, newGraphs, done, more, all);
        done := done + more;
        if updated.None? {
          return None;
        }
        newGraphs := updated.value;
      }
    }
    assert done == all;
    r := Some(newGraphs);
  }

  function KeyOverlay(key: StartKey, val: Json): Overlay {
    map s | s in Props(key) :: val
  }

  method SetKey(graphs: seq<Json>, key: StartKey, val: Json) returns (r: Option<seq<Json>>)
    ensures r == Set(graphs, KeyOverlay(key, val))
  {
    var newGraphs, props := graphs, Props(key);
    ghost var all := KeyOverlay(key, val);
    ghost var done: Overlay := map[];
    OverlayGraphsNone(graphs);
    for i := 0 to |props|
      invariant done.Keys == set s | s in props[..i]
      invariant Part(done, all)
      invariant Set(graphs, done) == Some(newGraphs)
    {
      var updated := AssignSlot(newGraphs, props[i], val);
      SetMore(graphs, newGraphs, done, map[props[i] := val], all);
      done := done + map[props[i] := val];
      if updated.None? {
        return None;
      }
      newGraphs := updated.value;
    }
    assert done == all;
    r := Some(newGraphs);
  }

  lemma KeyOverlayIsPart(req: Request, key: StartKey)
    requires FieldValue(req, key) != Str("")
    ensures Part(KeyOverlay(key, FieldValue(req, key)), StartOverlay(req))
    ensures KeyOverlay(key, FieldValue(req, key)).Keys == set s | s in StartOverlay(req) && KeyOf(s) == key
  {
    forall s {
      SlotHasOneKey(s, key);
    }
  }

  method SetStartParameters(graphs: seq<Json>, req: Request) returns (r: Option<seq<Json>>)
    ensures r == Set(graphs, StartOverlay(req))
  {
    ghost var all := StartOverlay(req);
    var newGraphs, keys := graphs, ALL_KEYS;
    ghost var done: Overlay := map[];
    OverlayGraphsNone(graphs);
    while keys != {}
      invariant done.Keys == set s | s in all && KeyOf(s) !in keys
      invariant Part(done, all)
      invariant Set(graphs, done) == Some(newGraphs)
      decreases |keys|
    {
      var key :| key in keys;
      keys := keys - {key};
      var val := FieldValue(req, key);
      if val != Str("") {
        var updated := SetKey(newGraphs, key, val);
        KeyOverlayIsPart(req, key);
        SetMore(graphs, newGraphs, done, KeyOverlay(key, val), all);
        done := done + KeyOverlay(key, val);
        if updated.None? {
          return None;
        }
        newGraphs := updated.value;
      }
    }
    assert done == all;
    r := Some(newGraphs);
  }

  // ----- the graphs of that name, started automatically

  function Selected(graphs: seq<Json>, name: string): (r: seq<Json>)
    ensures forall g :: g in r ==> Named(g, name)
  {
    if graphs == [] then []
    else
      var last := graphs[|graphs| - 1];
      Selected(graphs[..|graphs| - 1], name) + (if Named(last, name) then [last] else [])
  }

  /** The graphs of that name are kept, each as often as it was there, no others. */
  lemma {:induction false} SelectedExactly(graphs: seq<Json>, name: string, g: Json)
    ensures multiset(Selected(graphs, name))[g] == if Named(g, name) then multiset(graphs)[g] else 0
  {
    if graphs != [] {
      var front, last := graphs[..|graphs| - 1], graphs[|graphs| - 1];
      SelectedExactly(front, name, g);
      assert graphs == front + [last];
    }
  }

  /** And they keep their order. */
  lemma {:induction false} SelectedConcat(a: seq<Json>, b: seq<Json>, name: string)
    ensures Selected(a + b, name) == Selected(a, name) + Selected(b, name)
  {
    if b == [] {
      assert a + b == a;
    } else {
      var front := b[..|b| - 1];
      SelectedConcat(a, front, name);
      assert (a + b)[..|a + b| - 1] == a + front && (a + b)[|a + b| - 1] == b[|b| - 1];
      var end := if Named(b[|b| - 1], name) then [b[|b| - 1]] else [];
      assert Selected(a + b, name) == Selected(a + front, name) + end;
      assert Selected(b, name) == Selected(front, name) + end;
    }
  }

  method SelectGraphs(graphs: seq<Json>, name: string) returns (newGraphs: seq<Json>)
    ensures newGraphs == Selected(graphs, name)
  {
    newGraphs := [];
    for i := 0 to |graphs|
      invariant newGraphs == Selected(graphs[..i], name)
    {
      assert graphs[..i + 1][..i] == graphs[..i];
      if Named(graphs[i], name) {
        newGraphs := newGraphs + [graphs[i]];
      }
    }
    assert graphs[..|graphs|] == graphs;
  }

  function AutoStart(graphs: seq<Json>): (r: seq<Json>)
    requires forall g :: g in graphs ==> g.Obj?
    ensures |r| == |graphs| && forall i :: 0 <= i < |r| ==> r[i] == graphs[i].With("auto_start", Bool(true))
  {
    seq(|graphs|, i requires 0 <= i < |graphs| => graphs[i].With("auto_start", Bool(true)))
  }

  // ----- placeholders

  function EnvValue(v: Json, env: map<string, string>): Json {
    if v.Str? then Str(Substituted(v.s, env)) else v
  }

  function EnvNode(node: Json, env: map<string, string>): Json {
    if node.HasObject("property") then
      var props := node.fields["property"].fields;
      node.With("property", Obj(map k | k in props :: EnvValue(props[k], env)))
    else
      node
  }

  function EnvNodes(nodes: seq<Json>, env: map<string, string>): (r: seq<Json>)
    ensures |r| == |nodes| && forall i :: 0 <= i < |r| ==> r[i] == EnvNode(nodes[i], env)
  {
    seq(|nodes|, i requires 0 <= i < |nodes| => EnvNode(nodes[i], env))
  }

  function EnvGraphs(graphs: seq<Json>, env: map<string, string>): (r: seq<Json>)
    ensures |r| == |graphs| && forall i :: 0 <= i < |r| ==> r[i] == WithNodes(graphs[i], EnvNodes(NodesOf(graphs[i]), env))
  {
    seq(|graphs|, i requires 0 <= i < |graphs| => WithNodes(graphs[i], EnvNodes(NodesOf(graphs[i]), env)))
  }

  method SubstituteNode(node: Json, env: map<string, string>) returns (r: Json)
    ensures r == EnvNode(node, env)
  {
    if !node.HasObject("property") {
      return node;
    }
    var before := node.fields["property"].fields;
    var properties, keys := before, before.Keys;
    while keys != {}
      invariant keys <= before.Keys == properties.Keys
      invariant forall k :: k in before ==>
        properties[k] == if k in keys then before[k] else EnvValue(before[k], env)
      decreases |keys|
    {
      var key :| key in keys;
      keys := keys - {key};
      if properties[key].Str? {
        var newValue := Substitute(properties[key].s, env);
        properties := properties[key := Str(newValue)];
      }
    }
    assert properties == map k | k in before :: EnvValue(before[k], env);
    r := node.With("property", Obj(properties));
  }

  method SubstituteGraphs(graphs: seq<Json>, env: map<string, string>) returns (r: seq<Json>)
    ensures r == EnvGraphs(graphs, env)
  {
    r := graphs;
    for i := 0 to |graphs|
      invariant |r| == |graphs|
      invariant forall k :: 0 <= k < i ==> r[k] == WithNodes(graphs[k], EnvNodes(NodesOf(graphs[k]), env))
      invariant forall k :: i <= k < |graphs| ==> r[k] == graphs[k]
    {
      var before := NodesOf(graphs[i]);
      var nodes := before;
      for j := 0 to |before|
        invariant |nodes| == |before|
        invariant forall k :: 0 <= k < j ==> nodes[k] == EnvNode(before[k], env)
        invariant forall k :: j <= k < |before| ==> nodes[k] == before[k]
      {
        var node := SubstituteNode(before[j], env);
        nodes := nodes[j := node];
      }
      assert nodes == EnvNodes(before, env);
      r := r[i := WithNodes(graphs[i], nodes)];
    }
    assert r == EnvGraphs(graphs, env);
  }

  // ----- the whole rewrite

  /** The server's app id and certificate, and what the token builder returns. */
  datatype Tokens = Tokens(appId: string, appCertificate: string, built: Option<string>)

  /** The token in effect, None if it cannot be built. */
  function TokenFor(req: Request, tokens: Tokens): Option<string> {
    if req.token != "" then Some(req.token)
    else if tokens.appCertificate == "" then Some(tokens.appId)
    else tokens.built
  }

  datatype Outcome =
    | Rewritten(tree: Json)
    | Unreadable
    | GraphNotFound
    | NothingWritten // returns without a file and without an error
    | Panicked

  /** What processProperty returns unless it panics: the name of the file, or an
      error. */
  function Returned(o: Outcome, file: string): Result<string, ()>
    requires !o.Panicked?
  {
    match o
    case Rewritten(_) => Success(file)
    case NothingWritten => Success("")
    case _ => Failure(())
  }

  function PredefinedGraphs(tree: Json): Option<seq<Json>> {
    if tree.HasObject("ten") && tree.fields["ten"].HasArray("predefined_graphs") then
      Some(tree.fields["ten"].fields["predefined_graphs"].items)
    else
      None
  }

  function WithGraphs(tree: Json, graphs: seq<Json>): Json
    requires tree.HasObject("ten")
  {
    tree.With("ten", tree.fields["ten"].With("predefined_graphs", Arr(graphs)))
  }

  /** The rewrite for the graphs of a name, with the properties in o. */
  function RewriteWith(tree: Json, name: string, o: Overlay, env: map<string, string>): Outcome {
    if name == "" || PredefinedGraphs(tree).None? then NothingWritten
    else
      var graphs := Selected(PredefinedGraphs(tree).value, name);
      if graphs == [] then GraphNotFound
      else
        match Set(AutoStart(graphs), o)
        case None => Panicked
        case Some(set_) => Rewritten(WithGraphs(tree, EnvGraphs(set_, env)))
  }

  /** The content of property.json, None if it cannot be read or parsed; only an
      object or a null fits the map it is parsed into. */
  predicate Readable(content: Option<Json>) {
    content.Some? && (content.value.Obj? || content.value.Null?)
  }

  function Rewrite(content: Option<Json>, req: Request, tokens: Tokens): Outcome {
    if !Readable(content) then Unreadable
    else
      match TokenFor(req, tokens)
      case None => NothingWritten
      case Some(token) =>
        RewriteWith(content.value, req.graphName,
                    Requested(req.properties) + StartOverlay(req.(token := token)), req.env)
  }

  /** Exactly then the server goes on with an empty file name. */
  lemma NothingWrittenIff(content: Option<Json>, req: Request, tokens: Tokens)
    ensures Rewrite(content, req, tokens) == NothingWritten <==>
      Readable(content) &&
      (req.graphName == "" || TokenFor(req, tokens).None? || PredefinedGraphs(content.value).None?)
  {
  }

  /** The properties of the request first, the start parameters over them. */
  method SetAll(graphs: seq<Json>, req: Request) returns (r: Option<seq<Json>>)
    ensures r == Set(graphs, Requested(req.properties) + StartOverlay(req))
  {
    SetTwice(graphs, Requested(req.properties), StartOverlay(req));
    r := SetProperties(graphs, req.properties);
    if r.Some? {
      r := SetStartParameters(r.value, req);
    }
  }

  /** From the place where the token is known. */
  method ProcessTree(tree: Json, req: Request) returns (r: Outcome)
    requires req.graphName != ""
    ensures r == RewriteWith(tree, req.graphName, Requested(req.properties) + StartOverlay(req), req.env)
  {
    if !tree.HasObject("ten") {
      return NothingWritten;
    }
    var tenSection := tree.fields["ten"];
    if !tenSection.HasArray("predefined_graphs") {
      return NothingWritten;
    }
    var newGraphs := SelectGraphs(tenSection.fields["predefined_graphs"].items, req.graphName);
    if |newGraphs| == 0 {
      return GraphNotFound;
    }
    var laid := SetAll(AutoStart(newGraphs), req);
    if laid.None? {
      return Panicked;
    }
    newGraphs := SubstituteGraphs(laid.value, req.env);
    r := Rewritten(WithGraphs(tree, newGraphs));
  }

  method Process(content: Option<Json>, request: Request, tokens: Tokens) returns (r: Outcome)
    ensures r == Rewrite(content, request, tokens)
  {
    if content.None? || (!content.value.Obj? && !content.value.Null?) {
      return Unreadable;
    }
    if request.graphName == "" {
      return NothingWritten;
    }
    var req := request;
    if req.token == "" {
      req := req.(token := tokens.appId);
      if tokens.appCertificate != "" {
        if tokens.built.None? {
          return NothingWritten;
        }
        req := req.(token := tokens.built.value);
      }
    }
    r := ProcessTree(content.value, req);
  }

  // ----- what the rewrite means

  function Lookup(node: Json, property: string): Option<Json> {
    if node.HasObject("property") && property in node.fields["property"].fields then
      Some(node.fields["property"].fields[property])
    else
      None
  }

  /** What a slot is to hold: a start parameter wins over a property of the
      request, and a slot that neither names is left alone. */
  lemma StartParametersWin(req: Request, slot: Slot)
    ensures var o := Requested(req.properties) + StartOverlay(req);
            var asked := slot.extension != "" && slot.extension in req.properties
              && slot.property in req.properties[slot.extension];
            var started := slot in START_SLOTS && FieldValue(req, KeyOf(slot)) != Str("");
            && (slot in o <==> started || asked)
            && (started ==> o[slot] == FieldValue(req, KeyOf(slot)))
            && (asked && !started ==> o[slot] == req.properties[slot.extension][slot.property])
  {
  }

  /** A property of the node once o is laid over it. */
  function Laid(o: Overlay, node: Json, property: string): Option<Json> {
    if node.Has("name") && node.fields["name"].Str? && Slot(node.fields["name"].s, property) in o then
      Some(o[Slot(node.fields["name"].s, property)])
    else
      Lookup(node, property)
  }

  predicate SameExcept(a: Json, b: Json, key: string) {
    a.Obj? && b.Obj? && a.fields - {key} == b.fields - {key}
  }

  lemma WithChangesOne(j: Json, key: string, v: Json)
    requires j.Obj?
    ensures SameExcept(j, j.With(key, v), key)
  {
    assert j.fields - {key} == j.fields[key := v] - {key};
  }

  function Replaced(v: Option<Json>, env: map<string, string>): Option<Json> {
    match v
    case Some(Str(s)) => Some(Str(Substituted(s, env)))
    case _ => v
  }

  /** Every property is the one laid over it, with its placeholders replaced; a
      node without a property object is copied. */
  ghost predicate NodeAsWanted(was: Json, node: Json, o: Overlay, env: map<string, string>) {
    if was.HasObject("property") then
      && SameExcept(was, node, "property") && node.HasObject("property")
      && forall p :: Lookup(node, p) == Replaced(Laid(o, was, p), env)
    else
      node == was
  }

  lemma OverlayIsLaid(node: Json, o: Overlay)
    requires node.HasObject("property")
    ensures SameExcept(node, OverlayNode(node, o), "property") && OverlayNode(node, o).HasObject("property")
    ensures forall p :: Lookup(OverlayNode(node, o), p) == Laid(o, node, p)
  {
    WithChangesOne(node, "property", OverlayNode(node, o).fields["property"]);
    if node.Has("name") && node.fields["name"].Str? {
      var extension := node.fields["name"].s;
      forall p ensures p in ExtensionProps(o, extension) <==> Slot(extension, p) in o {
      }
    }
  }

  lemma EnvIsReplaced(node: Json, env: map<string, string>)
    requires node.HasObject("property")
    ensures SameExcept(node, EnvNode(node, env), "property") && EnvNode(node, env).HasObject("property")
    ensures forall p :: Lookup(EnvNode(node, env), p) == Replaced(Lookup(node, p), env)
  {
    WithChangesOne(node, "property", EnvNode(node, env).fields["property"]);
  }

  lemma NodeRewritten(node: Json, o: Overlay, env: map<string, string>)
    ensures NodeAsWanted(node, EnvNode(OverlayNode(node, o), env), o, env)
  {
    if node.HasObject("property") {
      OverlayIsLaid(node, o);
      EnvIsReplaced(OverlayNode(node, o), env);
    }
  }

  /** A graph that is started automatically, with as many nodes in the same
      order, and with nothing else changed. */
  ghost predicate GraphAsWanted(was: Json, graph: Json, o: Overlay, env: map<string, string>) {
    && was.Obj? && graph.Has("auto_start") && graph.fields["auto_start"] == Bool(true)
    && OutsideNodesSame(was, graph)
    && |NodesOf(graph)| == |NodesOf(was)|
    && forall j :: 0 <= j < |NodesOf(was)| ==> NodeAsWanted(NodesOf(was)[j], NodesOf(graph)[j], o, env)
  }

  predicate OutsideNodesSame(was: Json, graph: Json)
    requires was.Obj? && graph.Obj?
  {
    if HasNodes(was) then
      && graph.fields - {"auto_start", "graph"} == was.fields - {"auto_start", "graph"}
      && HasNodes(graph) && SameExcept(was.fields["graph"], graph.fields["graph"], "nodes")
    else
      SameExcept(was, graph, "auto_start")
  }

  lemma StartedAndLaid(graph: Json, nodes: seq<Json>)
    requires graph.Obj?
    ensures var after := WithNodes(graph.With("auto_start", Bool(true)), nodes);
            && after.Has("auto_start") && after.fields["auto_start"] == Bool(true) && OutsideNodesSame(graph, after)
  {
    WithChangesOne(graph, "auto_start", Bool(true));
    if HasNodes(graph) {
      WithChangesOne(graph.fields["graph"], "nodes", Arr(nodes));
    }
  }

  lemma {:induction false} GraphRewritten(graph: Json, o: Overlay, env: map<string, string>)
    requires graph.Obj?
    ensures var laid := OverlayGraph(graph.With("auto_start", Bool(true)), o);
            GraphAsWanted(graph, WithNodes(laid, EnvNodes(NodesOf(laid), env)), o, env)
  {
    var started := graph.With("auto_start", Bool(true));
    assert NodesOf(started) == NodesOf(graph);
    var nodes := OverlayNodes(NodesOf(started), o);
    var last := EnvNodes(nodes, env);
    WithNodesLaws(started, nodes, last);
    WithNodesLaws(started, last, last);
    StartedAndLaid(graph, last);
    forall j | 0 <= j < |NodesOf(graph)| {
      NodeRewritten(NodesOf(graph)[j], o, env);
    }
  }

  lemma GraphsRewritten(was: seq<Json>, o: Overlay, env: map<string, string>)
    requires forall g :: g in was ==> g.Obj?
    ensures var graphs := EnvGraphs(OverlayGraphs(AutoStart(was), o), env);
            forall i :: 0 <= i < |was| ==> GraphAsWanted(was[i], graphs[i], o, env)
  {
    forall i | 0 <= i < |was| {
      GraphRewritten(was[i], o, env);
    }
  }

  /** The tree that is written: exactly the graphs of the requested name are
      left, as wanted, and nothing else differs. */
  lemma RewriteMeaning(tree: Json, name: string, o: Overlay, env: map<string, string>)
    requires tree.Obj? && RewriteWith(tree, name, o, env).Rewritten?
    ensures var after := RewriteWith(tree, name, o, env).tree;
            var was := Selected(PredefinedGraphs(tree).value, name);
            && SameExcept(tree, after, "ten") && after.HasObject("ten")
            && SameExcept(tree.fields["ten"], after.fields["ten"], "predefined_graphs")
            && PredefinedGraphs(after).Some? && |PredefinedGraphs(after).value| == |was| > 0
            && forall i :: 0 <= i < |was| ==> GraphAsWanted(was[i], PredefinedGraphs(after).value[i], o, env)
  {
    var was := Selected(PredefinedGraphs(tree).value, name);
    var graphs := EnvGraphs(OverlayGraphs(AutoStart(was), o), env);
    WithChangesOne(tree, "ten", tree.fields["ten"].With("predefined_graphs", Arr(graphs)));
    WithChangesOne(tree.fields["ten"], "predefined_graphs", Arr(graphs));
    GraphsRewritten(was, o, env);
  }

  /** What the start parameters ask for, slot by slot: a number always, a text
      unless it is empty. */
  lemma StartSlots(req: Request)
    ensures var o := StartOverlay(req);
      && (forall s :: s in o ==> s in START_SLOTS)
      && (Slot("agora_rtc", "channel") in o <==> req.channelName != "")
      && (Slot("agora_rtm", "channel") in o <==> req.channelName != "")
      && (Slot("agora_rtc", "token") in o <==> req.token != "")
      && (Slot("agora_rtm", "token") in o <==> req.token != "")
      && Slot("agora_rtc", "remote_stream_id") in o && Slot("agora_rtc", "stream_id") in o
      && Slot("http_server", "listen_port") in o
    ensures var o := StartOverlay(req);
      && (req.channelName != "" ==> o[Slot("agora_rtc", "channel")] == o[Slot("agora_rtm", "channel")] == Str(req.channelName))
      && (req.token != "" ==> o[Slot("agora_rtc", "token")] == o[Slot("agora_rtm", "token")] == Str(req.token))
      && o[Slot("agora_rtc", "remote_stream_id")] == Num(req.remoteStreamId)
      && o[Slot("agora_rtc", "stream_id")] == Num(req.botStreamId)
      && o[Slot("http_server", "listen_port")] == Num(req.port)
  {
  }

  /** The slot as it is written into a node of the extension. */
  lemma SlotWritten(tree: Json, name: string, o: Overlay, env: map<string, string>, i: nat, j: nat, slot: Slot)
    requires tree.Obj? && RewriteWith(tree, name, o, env).Rewritten? && slot in o
    requires var graphs := PredefinedGraphs(RewriteWith(tree, name, o, env).tree);
      graphs.Some? && i < |graphs.value| && j < |NodesOf(graphs.value[i])| && Named(NodesOf(graphs.value[i])[j], slot.extension)
    ensures var graphs := PredefinedGraphs(RewriteWith(tree, name, o, env).tree).value;
      Lookup(NodesOf(graphs[i])[j], slot.property) == Replaced(Some(o[slot]), env)
  {
    RewriteMeaning(tree, name, o, env);
    PanicsExactly(tree, name, o, env);
    var was := Selected(PredefinedGraphs(tree).value, name);
    var node := NodesOf(PredefinedGraphs(RewriteWith(tree, name, o, env).tree).value[i])[j];
    assert GraphAsWanted(was[i], PredefinedGraphs(RewriteWith(tree, name, o, env).tree).value[i], o, env);
    var before := NodesOf(was[i])[j];
    assert NodeAsWanted(before, node, o, env);
    if before.HasObject("property") {
      SameName(before, node);
      assert Lookup(node, slot.property) == Replaced(Laid(o, before, slot.property), env);
    } else {
      assert WantsMissing(was, o, i, j, slot);
    }
  }

  lemma SameName(a: Json, b: Json)
    requires SameExcept(a, b, "property") && b.Has("name")
    ensures a.Has("name") && a.fields["name"] == b.fields["name"]
  {
    assert "name" in b.fields - {"property"};
    assert "name" in a.fields - {"property"};
    assert (a.fields - {"property"})["name"] == (b.fields - {"property"})["name"];
  }

  /** The whole way from a request to a node of the written file: each of the
      seven start parameters is where the worker looks for it. */
  lemma StartParametersWritten(content: Option<Json>, req: Request, tokens: Tokens, i: nat, j: nat)
    requires content.Some? && content.value.Obj? && Rewrite(content, req, tokens).Rewritten?
    requires var graphs := PredefinedGraphs(Rewrite(content, req, tokens).tree);
      graphs.Some? && i < |graphs.value| && j < |NodesOf(graphs.value[i])|
    ensures var node := NodesOf(PredefinedGraphs(Rewrite(content, req, tokens).tree).value[i])[j];
      var token := if req.token != "" then req.token
                   else if tokens.appCertificate == "" then tokens.appId else tokens.built.GetOr("");
      && (Named(node, "agora_rtc") ==>
            && Lookup(node, "remote_stream_id") == Some(Num(req.remoteStreamId))
            && Lookup(node, "stream_id") == Some(Num(req.botStreamId)))
      && (Named(node, "http_server") ==> Lookup(node, "listen_port") == Some(Num(req.port)))
      && (Named(node, "agora_rtc") || Named(node, "agora_rtm") ==>
            && (req.channelName != "" ==> Lookup(node, "channel") == Some(Str(Substituted(req.channelName, req.env))))
            && (token != "" ==> Lookup(node, "token") == Some(Str(Substituted(token, req.env)))))
  {
    var token := TokenFor(req, tokens).value;
    var start := req.(token := token);
    var o := Requested(req.properties) + StartOverlay(start);
    var tree := content.value;
    var node := NodesOf(PredefinedGraphs(RewriteWith(tree, req.graphName, o, req.env).tree).value[i])[j];
    StartSlots(start);
    forall slot | slot in StartOverlay(start) && Named(node, slot.extension)
      ensures Lookup(node, slot.property) == Replaced(Some(StartOverlay(start)[slot]), req.env)
    {
      SlotWritten(tree, req.graphName, o, req.env, i, j, slot);
    }
  }

  predicate WantsMissing(graphs: seq<Json>, o: Overlay, i: int, j: int, s: Slot) {
    && 0 <= i < |graphs| && 0 <= j < |NodesOf(graphs[i])| && s in o
    && Named(NodesOf(graphs[i])[j], s.extension) && !NodesOf(graphs[i])[j].HasObject("property")
  }

  /** The rewrite panics exactly when a node of a selected graph is to get a
      property and has no property object. */
  lemma PanicsExactly(tree: Json, name: string, o: Overlay, env: map<string, string>)
    requires name != "" && PredefinedGraphs(tree).Some?
    ensures var was := Selected(PredefinedGraphs(tree).value, name);
            RewriteWith(tree, name, o, env) == Panicked <==> exists i, j, s :: WantsMissing(was, o, i, j, s)
  {
    var was := Selected(PredefinedGraphs(tree).value, name);
    FailsExactly(was, AutoStart(was), o);
  }

  lemma FailsExactly(was: seq<Json>, graphs: seq<Json>, o: Overlay)
    requires |was| == |graphs| && forall i :: 0 <= i < |was| ==> NodesOf(was[i]) == NodesOf(graphs[i])
    ensures Fails(graphs, o) <==> exists i, j, s :: WantsMissing(was, o, i, j, s)
  {
    if Fails(graphs, o) {
      var i :| 0 <= i < |graphs| && FailsAt(graphs, i, o);
      var j :| 0 <= j < |NodesOf(graphs[i])| && NodeFails(NodesOf(graphs[i])[j], o);
      var s :| s in o && Named(NodesOf(graphs[i])[j], s.extension);
      assert WantsMissing(was, o, i, j, s);
    }
    if i, j, s :| WantsMissing(was, o, i, j, s) {
      assert NodeFails(NodesOf(graphs[i])[j], o);
      assert FailsAt(graphs, i, o);
    }
  }
}
