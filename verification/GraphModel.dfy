/** The connections of a graph as the playground stores them
    (ai_agents/playground/src/common/graph.ts), the set of edges they stand for,
    and the effect of every edit. */
module GraphModel {
  import opened JsonValues
  import opened Sequences
  import opened Wrappers

  datatype Protocol = Cmd | Data | AudioFrame | VideoFrame

  datatype Dest = Dest(app: string, extension: string, msgConversion: Option<string>)

  datatype Item = Item(name: string, dest: seq<Dest>)

  /** The optional fields cmd, data, audio_frame and video_frame are the keys of items. */
  datatype Connection = Connection(app: string, extension: string, items: map<Protocol, seq<Item>>)

  /** The property of a node may be absent. */
  datatype Node = Node(name: string, addon: string, group: string, app: string, property: Option<map<string, Json>>)

  datatype Edge = Edge(source: string, protocol: Protocol, name: string, dest: string)

  // ----- lookups

  function FindSource(cs: seq<Connection>, source: string): (i: nat)
    ensures i <= |cs| && (i < |cs| ==> cs[i].extension == source)
    ensures forall j :: 0 <= j < i ==> cs[j].extension != source
  {
    if cs == [] then 0 else if cs[0].extension == source then 0 else 1 + FindSource(cs[1..], source)
  }

  function FindItem(items: seq<Item>, name: string): (i: nat)
    ensures i <= |items| && (i < |items| ==> items[i].name == name)
    ensures forall j :: 0 <= j < i ==> items[j].name != name
  {
    if items == [] then 0 else if items[0].name == name then 0 else 1 + FindItem(items[1..], name)
  }

  predicate HasDest(dests: seq<Dest>, extension: string) {
    exists k :: 0 <= k < |dests| && dests[k].extension == extension
  }

  // ----- the edges

  ghost predicate ItemsHave(items: seq<Item>, name: string, dest: string) {
    exists k :: 0 <= k < |items| && items[k].name == name && HasDest(items[k].dest, dest)
  }

  ghost predicate ConnectionHas(c: Connection, e: Edge) {
    c.extension == e.source && e.protocol in c.items && ItemsHave(c.items[e.protocol], e.name, e.dest)
  }

  ghost predicate HasEdge(cs: seq<Connection>, e: Edge) {
    exists i :: 0 <= i < |cs| && ConnectionHas(cs[i], e)
  }

  // ----- the structural invariant

  ghost predicate UniqueDests(ds: seq<Dest>) {
    forall i, j :: 0 <= i < j < |ds| ==> ds[i].extension != ds[j].extension
  }

  ghost predicate UniqueItems(items: seq<Item>) {
    && (forall i, j :: 0 <= i < j < |items| ==> items[i].name != items[j].name)
    && (forall i :: 0 <= i < |items| ==> UniqueDests(items[i].dest))
  }

  ghost predicate UniqueIn(c: Connection) {
    forall p :: p in c.items ==> UniqueItems(c.items[p])
  }

  /** One connection per source, one item per protocol and name, one entry per destination. */
  ghost predicate Unique(cs: seq<Connection>) {
    && (forall i, j :: 0 <= i < j < |cs| ==> cs[i].extension != cs[j].extension)
    && (forall i :: 0 <= i < |cs| ==> UniqueIn(cs[i]))
  }

  ghost predicate FullItems(items: seq<Item>) {
    items != [] && forall i :: 0 <= i < |items| ==> items[i].dest != []
  }

  ghost predicate FullIn(c: Connection) {
    c.items != map[] && forall p :: p in c.items ==> FullItems(c.items[p])
  }

  /** No connection without protocols, no protocol without items, no item without destinations. */
  ghost predicate NoEmptyParts(cs: seq<Connection>) {
    forall i :: 0 <= i < |cs| ==> FullIn(cs[i])
  }

  // ----- adding an edge

  function AddDest(ds: seq<Dest>, dest: string, app: string): seq<Dest> {
    if HasDest(ds, dest) then ds else ds + [Dest(app, dest, None)]
  }

  function AddToItems(items: seq<Item>, name: string, dest: string, app: string): seq<Item> {
    var k := FindItem(items, name);
    var items' := if k == |items| then items + [Item(name, [])] else items;
    items'[k := items'[k].(dest := AddDest(items'[k].dest, dest, app))]
  }

  function ItemsOf(c: Connection, p: Protocol): seq<Item> {
    if p in c.items then c.items[p] else []
  }

  function AddToConnection(c: Connection, e: Edge, app: string): Connection {
    c.(items := c.items[e.protocol := AddToItems(ItemsOf(c, e.protocol), e.name, e.dest, app)])
  }

  function AddEdge(cs: seq<Connection>, e: Edge, app: string): seq<Connection> {
    var i := FindSource(cs, e.source);
    var cs' := if i == |cs| then cs + [Connection(app, e.source, map[])] else cs;
    cs'[i := AddToConnection(cs'[i], e, app)]
  }

  // ----- removing empty parts

  function CleanItems(items: seq<Item>): (r: seq<Item>)
    ensures forall k :: 0 <= k < |r| ==> r[k].dest != []
  {
    if items == [] then []
    else (if items[0].dest != [] then [items[0]] else []) + CleanItems(items[1..])
  }

  function Clean(c: Connection): Connection {
    c.(items := map p | p in c.items && CleanItems(c.items[p]) != [] :: CleanItems(c.items[p]))
  }

  function RemoveEmpty(cs: seq<Connection>): seq<Connection> {
    if cs == [] then []
    else (if Clean(cs[0]).items != map[] then [Clean(cs[0])] else []) + RemoveEmpty(cs[1..])
  }

  lemma {:induction false} RemoveEmptyConcat(a: seq<Connection>, b: seq<Connection>)
    ensures RemoveEmpty(a + b) == RemoveEmpty(a) + RemoveEmpty(b)
  {
    if a == [] {
      assert a + b == b;
    } else {
      assert (a + b)[1..] == a[1..] + b;
      RemoveEmptyConcat(a[1..], b);
      Assoc(if Clean(a[0]).items != map[] then [Clean(a[0])] else [], RemoveEmpty(a[1..]), RemoveEmpty(b));
    }
  }

  lemma RemoveEmptySnoc(cs: seq<Connection>, i: nat)
    requires i < |cs|
    ensures RemoveEmpty(cs[..i + 1]) ==
      RemoveEmpty(cs[..i]) + (if Clean(cs[i]).items != map[] then [Clean(cs[i])] else [])
  {
    TakeSnoc(cs, i);
    RemoveEmptyConcat(cs[..i], [cs[i]]);
  }

  // ----- removing edges

  function RemoveDest(ds: seq<Dest>, extension: string): (r: seq<Dest>)
    ensures forall d :: d in r <==> d in ds && d.extension != extension
  {
    if ds == [] then []
    else (if ds[0].extension != extension then [ds[0]] else []) + RemoveDest(ds[1..], extension)
  }

  function StripItems(items: seq<Item>, n: string): (r: seq<Item>)
    ensures |r| == |items|
    ensures forall k :: 0 <= k < |r| ==> r[k] == items[k].(dest := RemoveDest(items[k].dest, n))
  {
    seq(|items|, k requires 0 <= k < |items| => items[k].(dest := RemoveDest(items[k].dest, n)))
  }

  function Strip(c: Connection, n: string): Connection {
    c.(items := map p | p in c.items :: StripItems(c.items[p], n))
  }

  predicate HasItems(c: Connection) {
    exists p :: p in c.items && c.items[p] != []
  }

  /** The filter of removeNodeAndConnections, before the empty parts go. */
  function StripAll(cs: seq<Connection>, n: string): seq<Connection> {
    if cs == [] then []
    else
      (if cs[0].extension != n && HasItems(Strip(cs[0], n)) then [Strip(cs[0], n)] else [])
      + StripAll(cs[1..], n)
  }

  lemma {:induction false} StripAllConcat(a: seq<Connection>, b: seq<Connection>, n: string)
    ensures StripAll(a + b, n) == StripAll(a, n) + StripAll(b, n)
  {
    if a == [] {
      assert a + b == b;
    } else {
      assert (a + b)[1..] == a[1..] + b;
      StripAllConcat(a[1..], b, n);
      Assoc(if a[0].extension != n && HasItems(Strip(a[0], n)) then [Strip(a[0], n)] else [],
            StripAll(a[1..], n), StripAll(b, n));
    }
  }

  lemma StripAllSnoc(cs: seq<Connection>, i: nat, n: string)
    requires i < |cs|
    ensures StripAll(cs[..i + 1], n) == StripAll(cs[..i], n) +
      (if cs[i].extension != n && HasItems(Strip(cs[i], n)) then [Strip(cs[i], n)] else [])
  {
    TakeSnoc(cs, i);
    StripAllConcat(cs[..i], [cs[i]], n);
  }

  function RemoveNodeEdges(cs: seq<Connection>, n: string): seq<Connection> {
    RemoveEmpty(StripAll(cs, n))
  }

  function RemoveAt<X>(s: seq<X>, k: nat): seq<X>
    requires k < |s|
  {
    s[..k] + s[k + 1..]
  }

  /** The optional arguments of removeConnection; an empty destination counts as
      none, and a protocol without a name matches nothing. */
  datatype Removal = Removal(source: string, dest: Option<string>, protocol: Option<Protocol>, name: Option<string>)

  predicate NamesDest(r: Removal) {
    r.dest.Some? && r.dest.value != ""
  }

  function RemoveFromItems(items: seq<Item>, k: nat, r: Removal): seq<Item>
    requires k < |items|
  {
    if NamesDest(r) then
      var item := items[k].(dest := RemoveDest(items[k].dest, r.dest.value));
      if item.dest == [] then RemoveAt(items, k) else items[k := item]
    else
      RemoveAt(items, k)
  }

  function RemoveEdges(cs: seq<Connection>, r: Removal): seq<Connection> {
    var i := FindSource(cs, r.source);
    if i == |cs| then
      cs
    else if r.protocol.None? then
      RemoveEmpty(RemoveAt(cs, i))
    else if r.protocol.value !in cs[i].items || r.name.None? then
      cs
    else
      var items := cs[i].items[r.protocol.value];
      var k := FindItem(items, r.name.value);
      if k == |items| then
        cs
      else
        RemoveEmpty(cs[i := cs[i].(items := cs[i].items[r.protocol.value := RemoveFromItems(items, k, r)])])
  }

  /** The edges a removal is meant to remove. */
  ghost predicate Selects(r: Removal, e: Edge) {
    && e.source == r.source
    && (r.protocol.Some? ==>
          && e.protocol == r.protocol.value && Some(e.name) == r.name
          && (NamesDest(r) ==> e.dest == r.dest.value))
  }

  // ----- cleaning changes no edge

  lemma {:induction false} CleanItemsHave(items: seq<Item>, name: string, dest: string)
    ensures ItemsHave(CleanItems(items), name, dest) <==> ItemsHave(items, name, dest)
  {
    if items != [] {
      CleanItemsHave(items[1..], name, dest);
      var rest := CleanItems(items[1..]);
      var head := if items[0].dest != [] then [items[0]] else [];
      ItemsHaveConcat(head, rest, name, dest);
      ItemsHaveConcat([items[0]], items[1..], name, dest);
      assert items == [items[0]] + items[1..];
    }
  }

  lemma ItemsHaveConcat(a: seq<Item>, b: seq<Item>, name: string, dest: string)
    ensures ItemsHave(a + b, name, dest) <==> ItemsHave(a, name, dest) || ItemsHave(b, name, dest)
  {
    if ItemsHave(a, name, dest) {
      var k :| 0 <= k < |a| && a[k].name == name && HasDest(a[k].dest, dest);
      assert (a + b)[k] == a[k];
    }
    if ItemsHave(b, name, dest) {
      var k :| 0 <= k < |b| && b[k].name == name && HasDest(b[k].dest, dest);
      assert (a + b)[|a| + k] == b[k];
    }
  }

  lemma HasEdgeConcat(a: seq<Connection>, b: seq<Connection>, e: Edge)
    ensures HasEdge(a + b, e) <==> HasEdge(a, e) || HasEdge(b, e)
  {
    if HasEdge(a, e) {
      var k :| 0 <= k < |a| && ConnectionHas(a[k], e);
      assert (a + b)[k] == a[k];
    }
    if HasEdge(b, e) {
      var k :| 0 <= k < |b| && ConnectionHas(b[k], e);
      assert (a + b)[|a| + k] == b[k];
    }
  }

  lemma HasEdgeOne(c: Connection, e: Edge)
    ensures HasEdge([c], e) <==> ConnectionHas(c, e)
  {
    if ConnectionHas(c, e) {
      assert [c][0] == c;
    }
  }

  lemma CleanHas(c: Connection, e: Edge)
    ensures ConnectionHas(Clean(c), e) <==> ConnectionHas(c, e)
  {
    if e.protocol in c.items {
      CleanItemsHave(c.items[e.protocol], e.name, e.dest);
    }
  }

  /** Dropping empty parts never drops an edge. */
  lemma {:induction false} RemoveEmptyKeepsEdges(cs: seq<Connection>, e: Edge)
    ensures HasEdge(RemoveEmpty(cs), e) <==> HasEdge(cs, e)
  {
    if cs != [] {
      var c := cs[0];
      RemoveEmptyKeepsEdges(cs[1..], e);
      CleanHas(c, e);
      HasEdgeOne(c, e);
      HasEdgeOne(Clean(c), e);
      HasEdgeConcat(if Clean(c).items != map[] then [Clean(c)] else [], RemoveEmpty(cs[1..]), e);
      HasEdgeConcat([c], cs[1..], e);
      assert cs == [c] + cs[1..];
    }
  }

  // ----- adding an edge is a union

  lemma AddDestHas(ds: seq<Dest>, dest: string, app: string, d: string)
    ensures HasDest(AddDest(ds, dest, app), d) <==> HasDest(ds, d) || d == dest
  {
    var ds' := AddDest(ds, dest, app);
    if HasDest(ds, d) {
      var k :| 0 <= k < |ds| && ds[k].extension == d;
      assert ds'[k] == ds[k];
    }
    if d == dest && !HasDest(ds, dest) {
      assert ds'[|ds|].extension == dest;
    }
  }

  lemma AddToItemsHave(items: seq<Item>, name: string, dest: string, app: string, n: string, d: string)
    ensures ItemsHave(AddToItems(items, name, dest, app), n, d) <==>
      ItemsHave(items, n, d) || (n == name && d == dest)
  {
    var k := FindItem(items, name);
    var items' := AddToItems(items, name, dest, app);
    AddDestHas(if k == |items| then [] else items[k].dest, dest, app, d);
    if ItemsHave(items, n, d) {
      var j :| 0 <= j < |items| && items[j].name == n && HasDest(items[j].dest, d);
      assert items'[j].name == n && HasDest(items'[j].dest, d);
    }
    if n == name && d == dest {
      assert items'[k].name == n && HasDest(items'[k].dest, d);
    }
  }

  lemma AddToConnectionHas(c: Connection, e: Edge, app: string, f: Edge)
    requires c.extension == e.source
    ensures ConnectionHas(AddToConnection(c, e, app), f) <==> ConnectionHas(c, f) || f == e
  {
    if f.protocol == e.protocol {
      AddToItemsHave(ItemsOf(c, e.protocol), e.name, e.dest, app, f.name, f.dest);
    }
  }

  lemma UpdateHasEdge(cs: seq<Connection>, i: nat, c: Connection, f: Edge)
    requires i < |cs|
    requires ConnectionHas(cs[i], f) ==> ConnectionHas(c, f)
    ensures HasEdge(cs[i := c], f) <==> HasEdge(cs, f) || ConnectionHas(c, f)
  {
    var cs' := cs[i := c];
    if HasEdge(cs, f) {
      var j :| 0 <= j < |cs| && ConnectionHas(cs[j], f);
      assert ConnectionHas(cs'[j], f);
    }
    if ConnectionHas(c, f) {
      assert ConnectionHas(cs'[i], f);
    }
  }

  /** On any graph, well-formed or not, adding an edge adds just that edge. */
  lemma AddEdgeIsUnion(cs: seq<Connection>, e: Edge, app: string, f: Edge)
    ensures HasEdge(AddEdge(cs, e, app), f) <==> HasEdge(cs, f) || f == e
  {
    var i := FindSource(cs, e.source);
    var cs' := if i == |cs| then cs + [Connection(app, e.source, map[])] else cs;
    var added := Connection(app, e.source, map[]);
    HasEdgeConcat(cs, [added], f);
    HasEdgeOne(added, f);
    assert cs' == cs + [added] || cs' == cs;
    AddToConnectionHas(cs'[i], e, app, f);
    UpdateHasEdge(cs', i, AddToConnection(cs'[i], e, app), f);
  }

  lemma AddToItemsShape(items: seq<Item>, name: string, dest: string, app: string)
    requires UniqueItems(items)
    ensures UniqueItems(AddToItems(items, name, dest, app))
    ensures items == [] || FullItems(items) ==> FullItems(AddToItems(items, name, dest, app))
  {
    var k := FindItem(items, name);
    var ds := if k == |items| then [] else items[k].dest;
    assert UniqueDests(AddDest(ds, dest, app));
    assert HasDest(ds, dest) ==> ds != [];
  }

  lemma AddEdgeKeepsShape(cs: seq<Connection>, e: Edge, app: string)
    requires Unique(cs)
    ensures Unique(AddEdge(cs, e, app))
    ensures NoEmptyParts(cs) ==> NoEmptyParts(AddEdge(cs, e, app))
  {
    var i := FindSource(cs, e.source);
    var c := if i == |cs| then Connection(app, e.source, map[]) else cs[i];
    AddToItemsShape(ItemsOf(c, e.protocol), e.name, e.dest, app);
    var c' := AddToConnection(c, e, app);
    assert UniqueIn(c') by {
      assert UniqueIn(c);
    }
    assert e.protocol in c'.items;
    if NoEmptyParts(cs) {
      assert FullIn(c') by {
        assert i < |cs| ==> FullIn(cs[i]);
      }
    }
  }

  lemma AddToItemsTwice(items: seq<Item>, name: string, dest: string, app: string)
    ensures AddToItems(AddToItems(items, name, dest, app), name, dest, app) == AddToItems(items, name, dest, app)
  {
    var k := FindItem(items, name);
    var once := AddToItems(items, name, dest, app);
    AddDestHas(if k == |items| then [] else items[k].dest, dest, app, dest);
    assert HasDest(once[k].dest, dest);
    assert FindItem(once, name) == k;
    assert once[k := once[k]] == once;
  }

  /** addOrUpdateConnection changes nothing the second time. */
  lemma AddEdgeTwice(cs: seq<Connection>, e: Edge, app: string)
    ensures AddEdge(AddEdge(cs, e, app), e, app) == AddEdge(cs, e, app)
  {
    var i := FindSource(cs, e.source);
    var once := AddEdge(cs, e, app);
    assert FindSource(once, e.source) == i;
    var c := if i == |cs| then Connection(app, e.source, map[]) else cs[i];
    AddToItemsTwice(ItemsOf(c, e.protocol), e.name, e.dest, app);
    assert AddToConnection(once[i], e, app) == once[i] by {
      assert once[i].items == c.items[e.protocol := AddToItems(ItemsOf(c, e.protocol), e.name, e.dest, app)];
      assert once[i].items[e.protocol := ItemsOf(once[i], e.protocol)] == once[i].items;
    }
    assert once[i := once[i]] == once;
  }

  /** Whether the item that addConnection finds already has the destination. */
  predicate AlreadyThere(cs: seq<Connection>, e: Edge) {
    var i := FindSource(cs, e.source);
    i < |cs| &&
    var items := ItemsOf(cs[i], e.protocol);
    var k := FindItem(items, e.name);
    k < |items| && HasDest(items[k].dest, e.dest)
  }

  lemma AlreadyThereIsEdge(cs: seq<Connection>, e: Edge)
    ensures AlreadyThere(cs, e) ==> HasEdge(cs, e)
    ensures Unique(cs) && HasEdge(cs, e) ==> AlreadyThere(cs, e)
  {
    var i := FindSource(cs, e.source);
    if AlreadyThere(cs, e) {
      assert e.protocol in cs[i].items;
      assert ConnectionHas(cs[i], e);
    }
    if Unique(cs) && HasEdge(cs, e) {
      var j :| 0 <= j < |cs| && ConnectionHas(cs[j], e);
      assert i == j && UniqueIn(cs[i]);
    }
  }

  lemma AddEdgeAlreadyThere(cs: seq<Connection>, e: Edge, app: string)
    ensures AlreadyThere(cs, e) ==> AddEdge(cs, e, app) == cs
    ensures !AlreadyThere(cs, e) ==> AddEdge(cs, e, app) != cs
  {
    var i := FindSource(cs, e.source);
    if i < |cs| {
      var items := ItemsOf(cs[i], e.protocol);
      var k := FindItem(items, e.name);
      if k < |items| {
        assert items[k := items[k]] == items;
        assert cs[i].items[e.protocol := items] == cs[i].items;
        assert cs[i := cs[i]] == cs;
      }
    }
    if !AlreadyThere(cs, e) {
      AddEdgeChanges(cs, e, app);
    }
  }

  lemma AddEdgeChanges(cs: seq<Connection>, e: Edge, app: string)
    requires !AlreadyThere(cs, e)
    ensures AddEdge(cs, e, app) != cs
  {
    var i := FindSource(cs, e.source);
    if i < |cs| {
      var items := ItemsOf(cs[i], e.protocol);
      var items' := AddToItems(items, e.name, e.dest, app);
      assert AddEdge(cs, e, app)[i].items[e.protocol] == items';
      assert items' != items by {
        var k := FindItem(items, e.name);
        assert k < |items| ==> |items'[k].dest| == |items[k].dest| + 1;
      }
      assert items' != [];
    }
  }

  // ----- removing a node removes exactly the edges that touch it

  lemma RemoveDestHas(ds: seq<Dest>, n: string, d: string)
    ensures HasDest(RemoveDest(ds, n), d) <==> HasDest(ds, d) && d != n
  {
    var ds' := RemoveDest(ds, n);
    if HasDest(ds', d) {
      var j :| 0 <= j < |ds'| && ds'[j].extension == d;
      assert ds'[j] in ds;
    }
    if HasDest(ds, d) && d != n {
      var j :| 0 <= j < |ds| && ds[j].extension == d;
      assert ds[j] in ds';
    }
  }

  lemma StripItemsHave(items: seq<Item>, n: string, name: string, dest: string)
    ensures ItemsHave(StripItems(items, n), name, dest) <==> ItemsHave(items, name, dest) && dest != n
  {
    var items' := StripItems(items, n);
    forall k | 0 <= k < |items| ensures HasDest(items'[k].dest, dest) <==> HasDest(items[k].dest, dest) && dest != n {
      RemoveDestHas(items[k].dest, n, dest);
    }
    if ItemsHave(items, name, dest) && dest != n {
      var k :| 0 <= k < |items| && items[k].name == name && HasDest(items[k].dest, dest);
      assert items'[k].name == name && HasDest(items'[k].dest, dest);
    }
  }

  lemma StripHas(c: Connection, n: string, e: Edge)
    ensures ConnectionHas(Strip(c, n), e) <==> ConnectionHas(c, e) && e.dest != n
  {
    if e.protocol in c.items {
      StripItemsHave(c.items[e.protocol], n, e.name, e.dest);
    }
  }

  lemma {:induction false} StripAllEdges(cs: seq<Connection>, n: string, e: Edge)
    ensures HasEdge(StripAll(cs, n), e) <==> HasEdge(cs, e) && e.source != n && e.dest != n
  {
    if cs != [] {
      var c := cs[0];
      StripAllEdges(cs[1..], n, e);
      StripHas(c, n, e);
      HasEdgeOne(c, e);
      HasEdgeOne(Strip(c, n), e);
      HasEdgeConcat(if c.extension != n && HasItems(Strip(c, n)) then [Strip(c, n)] else [], StripAll(cs[1..], n), e);
      HasEdgeConcat([c], cs[1..], e);
      assert cs == [c] + cs[1..];
    }
  }

  /** On any graph: no edge from or to the node is left, every other one is. */
  lemma RemoveNodeIsDifference(cs: seq<Connection>, n: string, e: Edge)
    ensures HasEdge(RemoveNodeEdges(cs, n), e) <==> HasEdge(cs, e) && e.source != n && e.dest != n
  {
    StripAllEdges(cs, n, e);
    RemoveEmptyKeepsEdges(StripAll(cs, n), e);
  }

  lemma {:induction false} RemoveEmptyFull(cs: seq<Connection>)
    ensures NoEmptyParts(RemoveEmpty(cs))
  {
    if cs != [] {
      RemoveEmptyFull(cs[1..]);
      assert Clean(cs[0]).items != map[] ==> FullIn(Clean(cs[0]));
    }
  }

  // ----- what each part of a graph keeps when it is filtered

  lemma {:induction false} RemoveDestUnique(ds: seq<Dest>, n: string)
    requires UniqueDests(ds)
    ensures UniqueDests(RemoveDest(ds, n))
  {
    if ds != [] {
      RemoveDestUnique(ds[1..], n);
      var rest := RemoveDest(ds[1..], n);
      forall k | 0 <= k < |rest| ensures rest[k].extension != ds[0].extension {
        assert rest[k] in ds[1..];
      }
    }
  }

  lemma StripUnique(c: Connection, n: string)
    requires UniqueIn(c)
    ensures UniqueIn(Strip(c, n))
  {
    forall p | p in c.items ensures UniqueItems(Strip(c, n).items[p]) {
      var items := c.items[p];
      forall k | 0 <= k < |items| ensures UniqueDests(StripItems(items, n)[k].dest) {
        RemoveDestUnique(items[k].dest, n);
      }
    }
  }

  lemma {:induction false} CleanItemsUnique(items: seq<Item>)
    requires UniqueItems(items)
    ensures UniqueItems(CleanItems(items))
    ensures forall item :: item in CleanItems(items) ==> item in items
  {
    if items != [] {
      CleanItemsUnique(items[1..]);
      var rest := CleanItems(items[1..]);
      forall k | 0 <= k < |rest| ensures rest[k].name != items[0].name {
        assert rest[k] in items[1..];
      }
    }
  }

  lemma CleanUnique(c: Connection)
    requires UniqueIn(c)
    ensures UniqueIn(Clean(c))
  {
    forall p | p in Clean(c).items ensures UniqueItems(Clean(c).items[p]) {
      CleanItemsUnique(c.items[p]);
    }
  }

  ghost predicate HasSource(cs: seq<Connection>, source: string) {
    exists j :: 0 <= j < |cs| && cs[j].extension == source
  }

  /** Every connection of the result comes from one of the same source. */
  ghost predicate Sources(cs': seq<Connection>, cs: seq<Connection>) {
    forall i :: 0 <= i < |cs'| ==> HasSource(cs, cs'[i].extension)
  }

  lemma HasSourceCons(c: Connection, cs: seq<Connection>, source: string)
    ensures HasSource([c] + cs, source) <==> c.extension == source || HasSource(cs, source)
  {
    var all := [c] + cs;
    assert all[0] == c;
    if HasSource(cs, source) {
      var j :| 0 <= j < |cs| && cs[j].extension == source;
      assert all[j + 1] == cs[j];
    }
  }

  lemma UniqueCons(c: Connection, cs: seq<Connection>, head: seq<Connection>, rest: seq<Connection>)
    requires Unique([c] + cs) && Unique(rest) && Sources(rest, cs)
    requires head == [] || (|head| == 1 && head[0].extension == c.extension && UniqueIn(head[0]))
    ensures Unique(head + rest) && Sources(head + rest, [c] + cs)
  {
    var all := [c] + cs;
    forall i | 0 <= i < |rest| ensures rest[i].extension != c.extension {
      assert HasSource(cs, rest[i].extension);
      var j :| 0 <= j < |cs| && cs[j].extension == rest[i].extension;
      assert all[j + 1] == cs[j] && all[0] == c;
    }
    forall i | 0 <= i < |head + rest| ensures HasSource(all, (head + rest)[i].extension) {
      HasSourceCons(c, cs, (head + rest)[i].extension);
    }
  }

  lemma UniqueTail(cs: seq<Connection>)
    requires Unique(cs) && cs != []
    ensures Unique(cs[1..]) && UniqueIn(cs[0]) && cs == [cs[0]] + cs[1..]
  {
    forall i | 0 <= i < |cs[1..]| ensures UniqueIn(cs[1..][i]) {
      assert cs[1..][i] == cs[i + 1];
    }
  }

  lemma {:induction false} RemoveEmptyUnique(cs: seq<Connection>)
    requires Unique(cs)
    ensures Unique(RemoveEmpty(cs)) && Sources(RemoveEmpty(cs), cs)
  {
    if cs != [] {
      var c := cs[0];
      UniqueTail(cs);
      RemoveEmptyUnique(cs[1..]);
      CleanUnique(c);
      UniqueCons(c, cs[1..], if Clean(c).items != map[] then [Clean(c)] else [], RemoveEmpty(cs[1..]));
    }
  }

  lemma {:induction false} StripAllUnique(cs: seq<Connection>, n: string)
    requires Unique(cs)
    ensures Unique(StripAll(cs, n)) && Sources(StripAll(cs, n), cs)
  {
    if cs != [] {
      var c := cs[0];
      UniqueTail(cs);
      StripAllUnique(cs[1..], n);
      StripUnique(c, n);
      UniqueCons(c, cs[1..],
                 if c.extension != n && HasItems(Strip(c, n)) then [Strip(c, n)] else [], StripAll(cs[1..], n));
    }
  }

  lemma RemoveNodeKeepsShape(cs: seq<Connection>, n: string)
    ensures NoEmptyParts(RemoveNodeEdges(cs, n))
    ensures Unique(cs) ==> Unique(RemoveNodeEdges(cs, n))
  {
    RemoveEmptyFull(StripAll(cs, n));
    if Unique(cs) {
      StripAllUnique(cs, n);
      RemoveEmptyUnique(StripAll(cs, n));
    }
  }

  // ----- removeConnection removes exactly the selected edges

  lemma SourceDecides(cs: seq<Connection>, i: nat, c: Connection, f: Edge)
    requires Unique(cs) && i < |cs| && c.extension == cs[i].extension
    ensures HasEdge(cs[i := c], f) <==> if f.source == c.extension then ConnectionHas(c, f) else HasEdge(cs, f)
  {
    var cs' := cs[i := c];
    if f.source == c.extension {
      if ConnectionHas(c, f) {
        assert ConnectionHas(cs'[i], f);
      }
    } else if HasEdge(cs, f) {
      var j :| 0 <= j < |cs| && ConnectionHas(cs[j], f);
      assert ConnectionHas(cs'[j], f);
    }
  }

  lemma RemoveAtEdges(cs: seq<Connection>, i: nat, f: Edge)
    requires Unique(cs) && i < |cs|
    ensures HasEdge(RemoveAt(cs, i), f) <==> HasEdge(cs, f) && f.source != cs[i].extension
  {
    SourceDecides(cs, i, cs[i], f);
    assert cs[i := cs[i]] == cs;
    assert cs == cs[..i] + ([cs[i]] + cs[i + 1..]);
    HasEdgeConcat(cs[..i], [cs[i]] + cs[i + 1..], f);
    HasEdgeConcat([cs[i]], cs[i + 1..], f);
    HasEdgeConcat(cs[..i], cs[i + 1..], f);
    HasEdgeOne(cs[i], f);
  }

  lemma RemoveAtItems(items: seq<Item>, k: nat, n: string, d: string)
    requires UniqueItems(items) && k < |items|
    ensures ItemsHave(RemoveAt(items, k), n, d) <==> ItemsHave(items, n, d) && n != items[k].name
  {
    var rest := RemoveAt(items, k);
    forall j | 0 <= j < |rest| ensures rest[j] == items[if j < k then j else j + 1] {}
    if ItemsHave(items, n, d) && n != items[k].name {
      var j :| 0 <= j < |items| && items[j].name == n && HasDest(items[j].dest, d);
      assert rest[if j < k then j else j - 1] == items[j];
    }
  }

  lemma ReplaceItem(items: seq<Item>, k: nat, item: Item, n: string, d: string)
    requires UniqueItems(items) && k < |items| && item.name == items[k].name
    ensures ItemsHave(items[k := item], n, d) <==>
      if n == item.name then HasDest(item.dest, d) else ItemsHave(items, n, d)
  {
    var items' := items[k := item];
    if n == item.name {
      if HasDest(item.dest, d) {
        assert items'[k].name == n && HasDest(items'[k].dest, d);
      }
    } else if ItemsHave(items, n, d) {
      var j :| 0 <= j < |items| && items[j].name == n && HasDest(items[j].dest, d);
      assert items'[j].name == n && HasDest(items'[j].dest, d);
    }
  }

  lemma RemoveFromItemsHave(items: seq<Item>, k: nat, r: Removal, n: string, d: string)
    requires UniqueItems(items) && k < |items|
    ensures ItemsHave(RemoveFromItems(items, k, r), n, d) <==>
      ItemsHave(items, n, d) && !(n == items[k].name && (NamesDest(r) ==> d == r.dest.value))
  {
    RemoveAtItems(items, k, n, d);
    if NamesDest(r) {
      var item := items[k].(dest := RemoveDest(items[k].dest, r.dest.value));
      RemoveDestHas(items[k].dest, r.dest.value, d);
      ReplaceItem(items, k, item, n, d);
      ReplaceItem(items, k, items[k], n, d);
      assert items[k := items[k]] == items;
    }
  }

  lemma RemoveFromItemsUnique(items: seq<Item>, k: nat, r: Removal)
    requires UniqueItems(items) && k < |items|
    ensures UniqueItems(RemoveFromItems(items, k, r))
  {
    if NamesDest(r) {
      RemoveDestUnique(items[k].dest, r.dest.value);
    }
  }

  /** On a well-formed graph, whichever optional arguments are given, exactly
      the selected edges go and the graph stays well-formed. */
  lemma RemoveEdgesIsDifference(cs: seq<Connection>, r: Removal, f: Edge)
    requires Unique(cs)
    ensures HasEdge(RemoveEdges(cs, r), f) <==> HasEdge(cs, f) && !Selects(r, f)
  {
    var i := FindSource(cs, r.source);
    if i == |cs| {
    } else if r.protocol.None? {
      RemoveAtEdges(cs, i, f);
      RemoveEmptyKeepsEdges(RemoveAt(cs, i), f);
    } else {
      SourceDecides(cs, i, cs[i], f);
      assert cs[i := cs[i]] == cs;
      var p := r.protocol.value;
      if p in cs[i].items && r.name.Some? {
        var items := cs[i].items[p];
        var k := FindItem(items, r.name.value);
        if k < |items| {
          assert UniqueIn(cs[i]);
          var c := cs[i].(items := cs[i].items[p := RemoveFromItems(items, k, r)]);
          RemoveFromItemsHave(items, k, r, f.name, f.dest);
          SourceDecides(cs, i, c, f);
          RemoveEmptyKeepsEdges(cs[i := c], f);
        }
      }
    }
  }

  lemma RemoveEdgesKeepsShape(cs: seq<Connection>, r: Removal)
    requires Unique(cs)
    ensures Unique(RemoveEdges(cs, r))
    ensures NoEmptyParts(cs) ==> NoEmptyParts(RemoveEdges(cs, r))
  {
    var i := FindSource(cs, r.source);
    if i == |cs| {
    } else if r.protocol.None? {
      var rest := RemoveAt(cs, i);
      assert forall j :: 0 <= j < |rest| ==> rest[j] == cs[if j < i then j else j + 1];
      RemoveEmptyUnique(rest);
      RemoveEmptyFull(rest);
    } else if r.protocol.value in cs[i].items && r.name.Some? {
      var items := cs[i].items[r.protocol.value];
      var k := FindItem(items, r.name.value);
      if k < |items| {
        assert UniqueIn(cs[i]);
        RemoveFromItemsUnique(items, k, r);
        var c := cs[i].(items := cs[i].items[r.protocol.value := RemoveFromItems(items, k, r)]);
        assert UniqueIn(c);
        RemoveEmptyUnique(cs[i := c]);
        RemoveEmptyFull(cs[i := c]);
      }
    }
  }

  // ----- edges of a new node leave no trace

  predicate Touches(e: Edge, n: string) {
    e.source == n || e.dest == n
  }

  /** What is left of one connection when node n goes. */
  function Kept(c: Connection, n: string): seq<Connection> {
    var c' := Clean(Strip(c, n));
    if c.extension != n && c'.items != map[] then [c'] else []
  }

  function Prune(cs: seq<Connection>, n: string): seq<Connection> {
    if cs == [] then [] else Kept(cs[0], n) + Prune(cs[1..], n)
  }

  lemma {:induction false} RemoveNodeIsPrune(cs: seq<Connection>, n: string)
    ensures RemoveNodeEdges(cs, n) == Prune(cs, n)
  {
    if cs != [] {
      RemoveNodeIsPrune(cs[1..], n);
      var c := Strip(cs[0], n);
      var rest := StripAll(cs[1..], n);
      if cs[0].extension != n && HasItems(c) {
        assert ([c] + rest)[1..] == rest;
      } else {
        assert StripAll(cs, n) == [] + rest == rest;
        if !HasItems(c) {
          NothingKept(c);
        }
        assert Kept(cs[0], n) == [];
      }
    }
  }

  lemma NothingKept(c: Connection)
    requires !HasItems(c)
    ensures Clean(c).items == map[]
  {
    forall p | p in c.items ensures CleanItems(c.items[p]) == [] {
      assert c.items[p] == [];
    }
  }

  lemma {:induction false} PruneConcat(a: seq<Connection>, b: seq<Connection>, n: string)
    ensures Prune(a + b, n) == Prune(a, n) + Prune(b, n)
  {
    if a == [] {
      assert a + b == b;
    } else {
      assert (a + b)[1..] == a[1..] + b;
      PruneConcat(a[1..], b, n);
    }
  }

  lemma PruneUpdate(cs: seq<Connection>, i: nat, c: Connection, n: string)
    requires i < |cs| && Kept(c, n) == Kept(cs[i], n)
    ensures Prune(cs[i := c], n) == Prune(cs, n)
  {
    var a, b := cs[..i], cs[i + 1..];
    SplitAt(cs, i);
    UpdateAt(cs, i, c);
    PruneConcat(a, [cs[i]] + b, n);
    PruneConcat([cs[i]], b, n);
    PruneConcat(a, [c] + b, n);
    PruneConcat([c], b, n);
    PruneOne(c, n);
    PruneOne(cs[i], n);
  }

  lemma PruneOne(c: Connection, n: string)
    ensures Prune([c], n) == Kept(c, n)
  {
    assert [c][1..] == [];
    assert Kept(c, n) + [] == Kept(c, n);
  }

  lemma {:induction false} CleanItemsConcat(a: seq<Item>, b: seq<Item>)
    ensures CleanItems(a + b) == CleanItems(a) + CleanItems(b)
  {
    if a == [] {
      assert a + b == b;
    } else {
      assert (a + b)[1..] == a[1..] + b;
      CleanItemsConcat(a[1..], b);
    }
  }

  lemma {:induction false} RemoveDestConcat(a: seq<Dest>, b: seq<Dest>, n: string)
    ensures RemoveDest(a + b, n) == RemoveDest(a, n) + RemoveDest(b, n)
  {
    if a == [] {
      assert a + b == b;
    } else {
      assert (a + b)[1..] == a[1..] + b;
      RemoveDestConcat(a[1..], b, n);
    }
  }

  lemma {:induction false} AddDestPruned(ds: seq<Dest>, n: string, app: string)
    ensures RemoveDest(AddDest(ds, n, app), n) == RemoveDest(ds, n)
  {
    RemoveDestConcat(ds, [Dest(app, n, None)], n);
    assert RemoveDest([Dest(app, n, None)], n) == [];
  }

  lemma AddToItemsPruned(items: seq<Item>, name: string, n: string, app: string)
    ensures CleanItems(StripItems(AddToItems(items, name, n, app), n)) == CleanItems(StripItems(items, n))
  {
    var k := FindItem(items, name);
    var items' := if k == |items| then items + [Item(name, [])] else items;
    AddDestPruned(items'[k].dest, n, app);
    StripUpdate(items', k, items'[k].(dest := AddDest(items'[k].dest, n, app)), n);
    if k == |items| {
      StripEmptyItem(items, name, n);
    }
  }

  lemma StripUpdate(items: seq<Item>, k: nat, item: Item, n: string)
    requires k < |items| && item.name == items[k].name && RemoveDest(item.dest, n) == RemoveDest(items[k].dest, n)
    ensures StripItems(items[k := item], n) == StripItems(items, n)
  {
  }

  lemma StripEmptyItem(items: seq<Item>, name: string, n: string)
    ensures CleanItems(StripItems(items + [Item(name, [])], n)) == CleanItems(StripItems(items, n))
  {
    var empty := Item(name, []);
    assert StripItems(items + [empty], n) == StripItems(items, n) + [empty];
    CleanItemsConcat(StripItems(items, n), [empty]);
    assert CleanItems([empty]) == [];
  }

  /** The items of one protocol that survive when node n goes. */
  function KeptItems(c: Connection, p: Protocol, n: string): seq<Item> {
    CleanItems(StripItems(ItemsOf(c, p), n))
  }

  lemma KeptItemsAt(c: Connection, p: Protocol, n: string)
    ensures var m := Clean(Strip(c, n)).items;
      (p in m <==> KeptItems(c, p, n) != []) && (p in m ==> m[p] == KeptItems(c, p, n))
  {
    if p !in c.items {
      assert StripItems([], n) == [];
    }
  }

  lemma KeptByItems(c: Connection, c': Connection, n: string)
    requires c.extension == c'.extension && c.app == c'.app
    requires forall p :: KeptItems(c, p, n) == KeptItems(c', p, n)
    ensures Kept(c, n) == Kept(c', n)
  {
    var m, m' := Clean(Strip(c, n)).items, Clean(Strip(c', n)).items;
    forall p ensures p in m <==> p in m' ensures p in m ==> m[p] == m'[p] {
      KeptItemsAt(c, p, n);
      KeptItemsAt(c', p, n);
    }
    assert m == m';
  }

  lemma AddToConnectionPruned(c: Connection, e: Edge, app: string)
    ensures Kept(AddToConnection(c, e, app), e.dest) == Kept(c, e.dest)
  {
    var c' := AddToConnection(c, e, app);
    forall p ensures KeptItems(c', p, e.dest) == KeptItems(c, p, e.dest) {
      if p == e.protocol {
        AddToItemsPruned(ItemsOf(c, p), e.name, e.dest, app);
      }
    }
    KeptByItems(c', c, e.dest);
  }

  lemma {:induction false} AddEdgePruned(cs: seq<Connection>, e: Edge, app: string, n: string)
    requires Touches(e, n)
    ensures Prune(AddEdge(cs, e, app), n) == Prune(cs, n)
  {
    var i := FindSource(cs, e.source);
    var added := Connection(app, e.source, map[]);
    var cs' := if i == |cs| then cs + [added] else cs;
    if i == |cs| {
      PruneConcat(cs, [added], n);
      assert Kept(added, n) == [];
      assert Prune([added], n) == Kept(added, n) + Prune([], n);
    }
    if e.source != n {
      AddToConnectionPruned(cs'[i], e, app);
    }
    PruneUpdate(cs', i, AddToConnection(cs'[i], e, app), n);
  }

  function AddEdges(cs: seq<Connection>, es: seq<Edge>, app: string): seq<Connection>
    decreases |es|
  {
    if es == [] then cs else AddEdges(AddEdge(cs, es[0], app), es[1..], app)
  }

  /** Several edges are added one by one, and nothing else. */
  lemma {:induction false} AddEdgesIsUnion(cs: seq<Connection>, es: seq<Edge>, app: string, f: Edge)
    ensures HasEdge(AddEdges(cs, es, app), f) <==> HasEdge(cs, f) || f in es
    decreases |es|
  {
    if es != [] {
      AddEdgeIsUnion(cs, es[0], app, f);
      AddEdgesIsUnion(AddEdge(cs, es[0], app), es[1..], app, f);
    }
  }

  lemma {:induction false} AddEdgesConcat(cs: seq<Connection>, a: seq<Edge>, b: seq<Edge>, app: string)
    ensures AddEdges(cs, a + b, app) == AddEdges(AddEdges(cs, a, app), b, app)
    decreases |a|
  {
    if a == [] {
      assert a + b == b;
    } else {
      assert (a + b)[1..] == a[1..] + b;
      AddEdgesConcat(AddEdge(cs, a[0], app), a[1..], b, app);
    }
  }

  lemma AddEdgesInTurn(cs: seq<Connection>, a: seq<Edge>, b: seq<Edge>, c: seq<Edge>, app: string)
    ensures AddEdges(cs, a + (b + c), app) == AddEdges(AddEdges(AddEdges(cs, a, app), b, app), c, app)
  {
    AddEdgesConcat(cs, a, b + c, app);
    AddEdgesConcat(AddEdges(cs, a, app), b, c, app);
  }

  lemma AddEdgesShort(cs: seq<Connection>, a: Edge, b: Edge, app: string)
    ensures AddEdges(cs, [], app) == cs
    ensures AddEdges(cs, [a], app) == AddEdge(cs, a, app)
    ensures AddEdges(cs, [a, b], app) == AddEdge(AddEdge(cs, a, app), b, app)
  {
    var es := [a, b];
    assert es[1..] == [b] && es[..1] == [a] && es == [a] + [b];
    AddEdgesConcat(cs, [a], [b], app);
    assert AddEdges(AddEdge(cs, a, app), [b], app) == AddEdge(AddEdge(cs, a, app), b, app);
  }

  lemma {:induction false} AddEdgesPruned(cs: seq<Connection>, es: seq<Edge>, app: string, n: string)
    requires forall e :: e in es ==> Touches(e, n)
    ensures Prune(AddEdges(cs, es, app), n) == Prune(cs, n)
    decreases |es|
  {
    if es != [] {
      AddEdgePruned(cs, es[0], app, n);
      AddEdgesPruned(AddEdge(cs, es[0], app), es[1..], app, n);
    }
  }

  /** No connection starts or ends at n. */
  ghost predicate Fresh(cs: seq<Connection>, n: string) {
    forall i :: 0 <= i < |cs| ==>
      && cs[i].extension != n
      && forall p :: p in cs[i].items ==> FreshItems(cs[i].items[p], n)
  }

  ghost predicate FreshItems(items: seq<Item>, n: string) {
    forall k :: 0 <= k < |items| ==> !HasDest(items[k].dest, n)
  }

  lemma {:induction false} RemoveDestFresh(ds: seq<Dest>, n: string)
    requires !HasDest(ds, n)
    ensures RemoveDest(ds, n) == ds
  {
    if ds != [] {
      assert ds[0].extension != n;
      forall k | 0 <= k < |ds[1..]| ensures ds[1..][k].extension != n {
        assert ds[1..][k] == ds[k + 1];
      }
      RemoveDestFresh(ds[1..], n);
    }
  }

  lemma {:induction false} CleanItemsFull(items: seq<Item>)
    requires forall k :: 0 <= k < |items| ==> items[k].dest != []
    ensures CleanItems(items) == items
  {
    if items != [] {
      CleanItemsFull(items[1..]);
    }
  }

  lemma FreshPruned(c: Connection, n: string)
    requires FullIn(c) && c.extension != n && forall p :: p in c.items ==> FreshItems(c.items[p], n)
    ensures Kept(c, n) == [c]
  {
    forall p | p in c.items
      ensures StripItems(c.items[p], n) == c.items[p] && CleanItems(c.items[p]) == c.items[p]
    {
      var items := c.items[p];
      forall k | 0 <= k < |items| ensures StripItems(items, n)[k] == items[k] {
        RemoveDestFresh(items[k].dest, n);
      }
      CleanItemsFull(items);
    }
    assert Strip(c, n).items == c.items;
    assert Clean(c).items == c.items;
  }

  lemma FreshFirst(cs: seq<Connection>, n: string)
    requires cs != [] && NoEmptyParts(cs) && Fresh(cs, n)
    ensures Kept(cs[0], n) == [cs[0]]
  {
    assert FullIn(cs[0]);
    FreshPruned(cs[0], n);
  }

  lemma FreshRest(cs: seq<Connection>, n: string)
    requires cs != [] && NoEmptyParts(cs) && Fresh(cs, n)
    ensures NoEmptyParts(cs[1..]) && Fresh(cs[1..], n)
  {
    forall i | 0 <= i < |cs[1..]| ensures cs[1..][i] == cs[i + 1] {
    }
  }

  lemma {:induction false} PruneFresh(cs: seq<Connection>, n: string)
    requires NoEmptyParts(cs) && Fresh(cs, n)
    ensures Prune(cs, n) == cs
  {
    if cs != [] {
      FreshFirst(cs, n);
      assert Prune(cs[1..], n) == cs[1..] by {
        FreshRest(cs, n);
        PruneFresh(cs[1..], n);
      }
    }
  }

  lemma PrunedIsFresh(cs: seq<Connection>, n: string)
    ensures Fresh(RemoveNodeEdges(cs, n), n) && NoEmptyParts(RemoveNodeEdges(cs, n))
  {
    var cs' := RemoveNodeEdges(cs, n);
    RemoveNodeKeepsShape(cs, n);
    forall i | 0 <= i < |cs'| ensures cs'[i].extension != n {
      assert FullIn(cs'[i]);
      var p :| p in cs'[i].items;
      var item := cs'[i].items[p][0];
      var e := Edge(cs'[i].extension, p, item.name, item.dest[0].extension);
      assert ConnectionHas(cs'[i], e);
      RemoveNodeIsDifference(cs, n, e);
    }
    forall i, p, k | 0 <= i < |cs'| && p in cs'[i].items && 0 <= k < |cs'[i].items[p]|
      ensures !HasDest(cs'[i].items[p][k].dest, n)
    {
      var e := Edge(cs'[i].extension, p, cs'[i].items[p][k].name, n);
      RemoveNodeIsDifference(cs, n, e);
      if HasDest(cs'[i].items[p][k].dest, n) {
        assert ConnectionHas(cs'[i], e);
      }
    }
  }

  /** Adding any edges at node n and then removing n gives back the very same
      connections, their order and their absent fields included, exactly when
      the graph had no empty parts and nothing at n before. */
  lemma AddThenRemoveNode(cs: seq<Connection>, es: seq<Edge>, app: string, n: string)
    requires forall e :: e in es ==> Touches(e, n)
    ensures RemoveNodeEdges(AddEdges(cs, es, app), n) == cs <==> NoEmptyParts(cs) && Fresh(cs, n)
  {
    var all := AddEdges(cs, es, app);
    PrunedIsFresh(all, n);
    if NoEmptyParts(cs) && Fresh(cs, n) {
      RemoveNodeIsPrune(all, n);
      AddEdgesPruned(cs, es, app, n);
      PruneFresh(cs, n);
    }
  }

  // ----- any sequence of edits

  datatype Edit = Add(edge: Edge) | Remove(removal: Removal) | RemoveNode(node: string)

  function Apply(cs: seq<Connection>, edit: Edit, app: string): seq<Connection> {
    match edit
    case Add(e) => AddEdge(cs, e, app)
    case Remove(r) => RemoveEdges(cs, r)
    case RemoveNode(n) => RemoveNodeEdges(cs, n)
  }

  /** The same edit on the set of edges, seen from one edge f. */
  ghost predicate Remains(present: bool, edit: Edit, f: Edge) {
    match edit
    case Add(e) => present || f == e
    case Remove(r) => present && !Selects(r, f)
    case RemoveNode(n) => present && !Touches(f, n)
  }

  function ApplyAll(cs: seq<Connection>, edits: seq<Edit>, app: string): seq<Connection> {
    if edits == [] then cs
    else var n := |edits| - 1; Apply(ApplyAll(cs, edits[..n], app), edits[n], app)
  }

  ghost predicate RemainsAll(present: bool, edits: seq<Edit>, f: Edge) {
    if edits == [] then present
    else var n := |edits| - 1; Remains(RemainsAll(present, edits[..n], f), edits[n], f)
  }

  /** Over any sequence of edits the graph keeps its shape and has exactly the
      edges that the same edits leave in a set. */
  lemma {:induction false} EditsRefineEdgeSet(cs: seq<Connection>, edits: seq<Edit>, app: string, f: Edge)
    requires Unique(cs)
    ensures var cs' := ApplyAll(cs, edits, app);
      && Unique(cs') && (NoEmptyParts(cs) ==> NoEmptyParts(cs'))
      && (HasEdge(cs', f) <==> RemainsAll(HasEdge(cs, f), edits, f))
  {
    if edits != [] {
      var n := |edits| - 1;
      EditsRefineEdgeSet(cs, edits[..n], app, f);
      var before := ApplyAll(cs, edits[..n], app);
      match edits[n]
      case Add(e) =>
        AddEdgeIsUnion(before, e, app, f);
        AddEdgeKeepsShape(before, e, app);
      case Remove(r) =>
        RemoveEdgesIsDifference(before, r, f);
        RemoveEdgesKeepsShape(before, r);
      case RemoveNode(node) =>
        RemoveNodeIsDifference(before, node, f);
        RemoveNodeKeepsShape(before, node);
    }
  }
}
