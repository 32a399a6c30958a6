/** The upgrade that moves the parts of a predefined graph under "graph"
    (tools/upgrade/0.8_to_0.10/predefined_graphs_aggregate_graph_field.py). */
module GraphsUpgrade {
  import opened Wrappers
  import opened JsonValues
  import opened Sequences

  const FIELDS: set<string> := {"nodes", "connections", "exposed_messages", "exposed_properties", "import_uri"}

  // ----- the guard

  /** Whether one of the fields is in the graph, as Python's "in" sees it: a key
      of an object, an item of a list, a part of a text.  None where it raises. */
  function AnyIn(graph: Json): Option<bool> {
    match graph
    case Obj(fields) => Some(exists f :: f in FIELDS && f in fields)
    case Arr(items) => Some(exists f :: f in FIELDS && Str(f) in items)
    case Str(s) => Some(exists f :: f in FIELDS && Includes(s, f))
    case _ => None
  }

  /** The first graph that has one of the fields decides; one that raises first
      raises. */
  function Scan(graphs: seq<Json>): Option<bool> {
    if graphs == [] then Some(false)
    else if AnyIn(graphs[0]) == Some(false) then Scan(graphs[1..])
    else AnyIn(graphs[0])
  }

  function TenKey(property: Json): string {
    if property.Has("_ten") then "_ten" else "ten"
  }

  /** Where the conversion would work: graphs in a section "_ten", or else
      "ten". */
  function Graphs(property: Json): Option<seq<Json>> {
    var key := TenKey(property);
    if property.HasObject(key) && property.fields[key].HasArray("predefined_graphs") then
      Some(property.fields[key].fields["predefined_graphs"].items)
    else
      None
  }

  function WithGraphs(property: Json, graphs: seq<Json>): Json
    requires Graphs(property).Some?
  {
    var key := TenKey(property);
    property.With(key, property.fields[key].With("predefined_graphs", Arr(graphs)))
  }

  /** None where the script raises. */
  function Target(property: Json): Option<bool> {
    var key := TenKey(property);
    if !property.Obj? then None
    else if !property.Has(key) then Some(false)
    else if !property.fields[key].Obj? then None
    else if Graphs(property).Some? then Scan(Graphs(property).value)
    else Some(false)
  }

  method IsTarget(property: Json) returns (r: Option<bool>)
    ensures r == Target(property)
  {
    if !property.Obj? {
      return None;
    }
    if !property.Has("_ten") && !property.Has("ten") {
      return Some(false);
    }
    var tenField := property.fields[TenKey(property)];
    if !tenField.Obj? {
      return None;
    }
    if !tenField.HasArray("predefined_graphs") {
      return Some(false);
    }
    var graphs := tenField.fields["predefined_graphs"].items;
    for i := 0 to |graphs|
      invariant Target(property) == Scan(graphs[i..])
    {
      var any := AnyIn(graphs[i]);
      if any != Some(false) {
        return any;
      }
    }
    r := Some(false);
  }

  // ----- one graph

  function Part(graph: map<string, Json>, keys: set<string>): map<string, Json> {
    map k | k in graph && k in keys :: graph[k]
  }

  function Aggregated(graph: Json): Json
    requires graph.Obj?
  {
    Obj((graph.fields - FIELDS)["graph" := Obj(Part(graph.fields, FIELDS))])
  }

  /** if field in graph: graph["graph"][field] = graph.pop(field) */
  method Move(graph: map<string, Json>, inner: map<string, Json>, field: string, ghost before: map<string, Json>,
              ghost moved: set<string>)
    returns (graph': map<string, Json>, inner': map<string, Json>)
    requires graph == before - moved && inner == Part(before, moved)
    ensures graph' == before - (moved + {field}) && inner' == Part(before, moved + {field})
  {
    graph', inner' := graph, inner;
    if field in graph {
      inner' := inner'[field := graph'[field]];
      graph' := graph' - {field};
    }
  }

  method Aggregate(graph: Json) returns (r: Json)
    requires graph.Obj?
    ensures r == Aggregated(graph)
  {
    var before := graph.fields;
    var g, inner: map<string, Json> := before, map[];
    g, inner := Move(g, inner, "nodes", before, {});
    g, inner := Move(g, inner, "connections", before, {"nodes"});
    g, inner := Move(g, inner, "exposed_messages", before, {"nodes", "connections"});
    g, inner := Move(g, inner, "exposed_properties", before, {"nodes", "connections", "exposed_messages"});
    g, inner := Move(g, inner, "import_uri", before,
                     {"nodes", "connections", "exposed_messages", "exposed_properties"});
    assert {"nodes", "connections", "exposed_messages", "exposed_properties"} + {"import_uri"} == FIELDS;
    r := Obj(g["graph" := Obj(inner)]);
  }

  // ----- the file

  predicate AllObjects(graphs: seq<Json>) {
    forall i :: 0 <= i < |graphs| ==> graphs[i].Obj?
  }

  function AllAggregated(graphs: seq<Json>): (r: seq<Json>)
    requires AllObjects(graphs)
    ensures |r| == |graphs| && forall i :: 0 <= i < |r| ==> r[i] == Aggregated(graphs[i])
  {
    seq(|graphs|, i requires 0 <= i < |graphs| => Aggregated(graphs[i]))
  }

  /** The content of the file afterwards; whatever raises leaves it alone. */
  function Upgrade(property: Json): Json {
    if Target(property) == Some(true) && AllObjects(Graphs(property).value) then
      WithGraphs(property, AllAggregated(Graphs(property).value))
    else
      property
  }

  /** Assigning a key of what is not an object raises, here None. */
  method Convert(graphs: seq<Json>) returns (r: Option<seq<Json>>)
    ensures r == if AllObjects(graphs) then Some(AllAggregated(graphs)) else None
  {
    var newGraphs := graphs;
    for i := 0 to |graphs|
      invariant |newGraphs| == |graphs|
      invariant forall k :: 0 <= k < i ==> graphs[k].Obj? && newGraphs[k] == Aggregated(graphs[k])
      invariant forall k :: i <= k < |graphs| ==> newGraphs[k] == graphs[k]
    {
      if !graphs[i].Obj? {
        return None;
      }
      var graph := Aggregate(graphs[i]);
      newGraphs := newGraphs[i := graph];
    }
    assert newGraphs == AllAggregated(graphs);
    r := Some(newGraphs);
  }

  method UpgradeFile(property: Json) returns (content: Json)
    ensures content == Upgrade(property)
  {
    var target := IsTarget(property);
    if target != Some(true) {
      return property;
    }
    var newGraphs := Convert(Graphs(property).value);
    content := if newGraphs.Some? then WithGraphs(property, newGraphs.value) else property;
  }

  // ----- what the upgrade promises

  lemma {:induction false} ScanFalse(graphs: seq<Json>)
    requires forall i :: 0 <= i < |graphs| ==> AnyIn(graphs[i]) == Some(false)
    ensures Scan(graphs) == Some(false)
  {
    if graphs != [] {
      ScanFalse(graphs[1..]);
    }
  }

  lemma {:induction false} ScanTrue(graphs: seq<Json>)
    requires AllObjects(graphs)
    ensures Scan(graphs) == Some(exists i, f :: 0 <= i < |graphs| && f in FIELDS && graphs[i].Has(f))
  {
    if graphs != [] {
      ScanTrue(graphs[1..]);
      if i, f :| 0 <= i < |graphs| && f in FIELDS && graphs[i].Has(f) {
        assert i > 0 ==> graphs[1..][i - 1].Has(f);
      }
      if i, f :| 0 <= i < |graphs| - 1 && f in FIELDS && graphs[1..][i].Has(f) {
        assert graphs[i + 1].Has(f);
      }
    }
  }

  /** Exactly these files are rewritten; in particular never one of whose graphs
      is not an object, wherever the scan stopped. */
  lemma UpgradesExactly(property: Json)
    ensures Upgrade(property) != property <==>
      Graphs(property).Some? && AllObjects(Graphs(property).value) &&
      exists i, f :: 0 <= i < |Graphs(property).value| && Graphs(property).value[i].Has(f)
        && f in {"nodes", "connections", "exposed_messages", "exposed_properties", "import_uri"}
  {
    if Graphs(property).Some? && AllObjects(Graphs(property).value) {
      var graphs := Graphs(property).value;
      ScanTrue(graphs);
      if i, f :| 0 <= i < |graphs| && f in FIELDS && graphs[i].Has(f) {
        NoFieldLeft(graphs[i]);
        GraphsOfUpgrade(property, AllAggregated(graphs));
        assert AllAggregated(graphs)[i] != graphs[i];
      }
    }
  }

  lemma NoFieldLeft(graph: Json)
    requires graph.Obj?
    ensures forall f :: f in FIELDS ==> !Aggregated(graph).Has(f)
  {
    assert "graph" !in FIELDS;
  }

  lemma GraphsOfUpgrade(property: Json, graphs: seq<Json>)
    requires Graphs(property).Some?
    ensures TenKey(WithGraphs(property, graphs)) == TenKey(property)
    ensures Graphs(WithGraphs(property, graphs)) == Some(graphs)
    ensures WithGraphs(WithGraphs(property, graphs), Graphs(property).value) == property
  {
    var key := TenKey(property);
    var ten := property.fields[key];
    var after := WithGraphs(property, graphs);
    assert ten.fields["predefined_graphs" := Arr(graphs)]["predefined_graphs" := ten.fields["predefined_graphs"]]
        == ten.fields;
    assert after.fields[key := ten] == property.fields;
  }

  /** Upgraded files are no targets: on every input, twice is once. */
  lemma UpgradeTwice(property: Json)
    ensures Upgrade(Upgrade(property)) == Upgrade(property)
  {
    if Upgrade(property) != property {
      var graphs := AllAggregated(Graphs(property).value);
      GraphsOfUpgrade(property, graphs);
      forall i | 0 <= i < |graphs| ensures AnyIn(graphs[i]) == Some(false) {
        NoFieldLeft(Graphs(property).value[i]);
      }
      ScanFalse(graphs);
    }
  }

  /** The five fields move unchanged, absent ones stay absent, every other key
      but "graph" stays. */
  lemma FieldsMove(graph: Json, key: string)
    requires graph.Obj?
    ensures var after := Aggregated(graph);
            && after.HasObject("graph")
            && if key in {"nodes", "connections", "exposed_messages", "exposed_properties", "import_uri"} then
                 && !after.Has(key) && after.fields["graph"].Has(key) == graph.Has(key)
                 && (graph.Has(key) ==> after.fields["graph"].fields[key] == graph.fields[key])
               else
                 && !after.fields["graph"].Has(key)
                 && (key != "graph" ==> after.Has(key) == graph.Has(key))
                 && (key != "graph" && graph.Has(key) ==> after.fields[key] == graph.fields[key])
  {
    NoFieldLeft(graph);
  }

  /** Where an upgraded file changes: in the predefined graphs of its section
      "_ten", or of "ten" if it has no "_ten", each graph in its place. */
  lemma OnlyGraphsChange(property: Json)
    requires Upgrade(property) != property
    ensures var after, key := Upgrade(property), if property.Has("_ten") then "_ten" else "ten";
            && after.Obj? && property.HasObject(key) && after.HasObject(key)
            && after.fields - {key} == property.fields - {key}
            && property.fields[key].HasArray("predefined_graphs") && after.fields[key].HasArray("predefined_graphs")
            && after.fields[key].fields - {"predefined_graphs"} == property.fields[key].fields - {"predefined_graphs"}
            && var was := property.fields[key].fields["predefined_graphs"].items;
               AllObjects(was) && after.fields[key].fields["predefined_graphs"].items == AllAggregated(was)
  {
    var key := TenKey(property);
    var after, ten := Upgrade(property), property.fields[key];
    assert after.fields - {key} == property.fields - {key};
    assert after.fields[key].fields - {"predefined_graphs"} == ten.fields - {"predefined_graphs"};
  }

  /** Moving the parts of "graph" back. */
  function Spread(graph: Json): Json {
    if graph.HasObject("graph") then Obj((graph.fields - {"graph"}) + graph.fields["graph"].fields) else graph
  }

  /** Nothing is lost exactly when the graph had no "graph" before. */
  lemma SpreadIff(graph: Json)
    requires graph.Obj?
    ensures Spread(Aggregated(graph)) == graph <==> !graph.Has("graph")
  {
    var back := Spread(Aggregated(graph));
    assert "graph" !in FIELDS;
    assert !back.Has("graph");
    if !graph.Has("graph") {
      assert back.fields == graph.fields;
    }
  }

  function SpreadAll(property: Json): Json {
    if Graphs(property).Some? then
      var graphs := Graphs(property).value;
      WithGraphs(property, seq(|graphs|, i requires 0 <= i < |graphs| => Spread(graphs[i])))
    else property
  }

  /** An upgraded file can be restored exactly when none of its graphs had a
      "graph"; the rest of the file and the order of the graphs are kept. */
  lemma UpgradeIsReversibleIff(property: Json)
    requires Upgrade(property) != property
    ensures SpreadAll(Upgrade(property)) == property <==>
      forall i :: 0 <= i < |Graphs(property).value| ==> !Graphs(property).value[i].Has("graph")
  {
    var graphs := Graphs(property).value;
    var after := AllAggregated(graphs);
    GraphsOfUpgrade(property, after);
    var back := seq(|after|, i requires 0 <= i < |after| => Spread(after[i]));
    forall i | 0 <= i < |graphs| ensures back[i] == graphs[i] <==> !graphs[i].Has("graph") {
      SpreadIff(graphs[i]);
    }
    GraphsOfUpgrade(Upgrade(property), back);
    assert Graphs(SpreadAll(Upgrade(property))) == Some(back);
    if forall i :: 0 <= i < |graphs| ==> !graphs[i].Has("graph") {
      assert back == graphs;
    }
  }

  function WithoutGraph(graph: Json): Json {
    if graph.Obj? then Obj(graph.fields - {"graph"}) else graph
  }

  /** The file without the "graph" of any of its graphs. */
  function Stripped(property: Json): Json {
    if Graphs(property).Some? then
      WithGraphs(property, Bare(Graphs(property).value))
    else property
  }

  predicate NoGraphKeys(property: Json) {
    Graphs(property).Some? ==>
      forall i :: 0 <= i < |Graphs(property).value| ==> !Graphs(property).value[i].Has("graph")
  }

  lemma AggregatedIgnoresGraph(graph: Json)
    requires graph.Obj?
    ensures Aggregated(WithoutGraph(graph)) == Aggregated(graph)
    ensures Spread(Aggregated(graph)) == WithoutGraph(graph)
    ensures !WithoutGraph(graph).Has("graph")
    ensures forall f :: f in FIELDS ==> WithoutGraph(graph).Has(f) == graph.Has(f)
  {
    assert "graph" !in FIELDS;
    assert Part(graph.fields - {"graph"}, FIELDS) == Part(graph.fields, FIELDS);
    assert Aggregated(WithoutGraph(graph)).fields == Aggregated(graph).fields;
    assert Spread(Aggregated(graph)).fields == WithoutGraph(graph).fields;
  }

  lemma WithGraphsTwice(property: Json, a: seq<Json>, b: seq<Json>)
    requires Graphs(property).Some?
    ensures Graphs(WithGraphs(property, a)).Some?
    ensures WithGraphs(WithGraphs(property, a), b) == WithGraphs(property, b)
  {
    var key := TenKey(property);
    var ten := property.fields[key];
    assert ten.fields["predefined_graphs" := Arr(a)]["predefined_graphs" := Arr(b)]
        == ten.fields["predefined_graphs" := Arr(b)];
    assert WithGraphs(WithGraphs(property, a), b).fields == WithGraphs(property, b).fields;
  }

  /** Moving the fields back always yields the file without any "graph". */
  lemma SpreadIsStripped(property: Json)
    requires Upgrade(property) != property
    ensures SpreadAll(Upgrade(property)) == Stripped(property)
  {
    var graphs := Graphs(property).value;
    var after := AllAggregated(graphs);
    GraphsOfUpgrade(property, after);
    var back := seq(|after|, i requires 0 <= i < |after| => Spread(after[i]));
    forall i | 0 <= i < |graphs| ensures back[i] == WithoutGraph(graphs[i]) {
      AggregatedIgnoresGraph(graphs[i]);
    }
    assert back == Bare(graphs);
    WithGraphsTwice(property, after, back);
  }

  function Bare(graphs: seq<Json>): (r: seq<Json>)
    ensures |r| == |graphs| && forall i :: 0 <= i < |r| ==> r[i] == WithoutGraph(graphs[i])
  {
    seq(|graphs|, i requires 0 <= i < |graphs| => WithoutGraph(graphs[i]))
  }

  lemma BareAggregated(graphs: seq<Json>)
    requires AllObjects(graphs)
    ensures AllObjects(Bare(graphs)) && AllAggregated(Bare(graphs)) == AllAggregated(graphs)
    ensures forall i :: 0 <= i < |graphs| ==> !Bare(graphs)[i].Has("graph")
  {
    forall i | 0 <= i < |graphs|
      ensures !Bare(graphs)[i].Has("graph") && Aggregated(Bare(graphs)[i]) == Aggregated(graphs[i])
    {
      AggregatedIgnoresGraph(graphs[i]);
    }
  }

  lemma {:induction false} BareScan(graphs: seq<Json>)
    requires AllObjects(graphs)
    ensures Scan(Bare(graphs)) == Scan(graphs)
  {
    if graphs != [] {
      AggregatedIgnoresGraph(graphs[0]);
      assert Bare(graphs)[1..] == Bare(graphs[1..]);
      BareScan(graphs[1..]);
    }
  }

  lemma BareSame(graphs: seq<Json>)
    requires AllObjects(graphs)
    ensures Bare(graphs) == graphs <==> forall i :: 0 <= i < |graphs| ==> !graphs[i].Has("graph")
  {
    BareAggregated(graphs);
    forall i | 0 <= i < |graphs| && !graphs[i].Has("graph") ensures Bare(graphs)[i] == graphs[i] {
      assert graphs[i].fields - {"graph"} == graphs[i].fields;
    }
  }

  /** The stripped file is upgraded to the same. */
  lemma StrippedUpgrade(property: Json)
    requires Upgrade(property) != property
    ensures Upgrade(Stripped(property)) == Upgrade(property) && NoGraphKeys(Stripped(property))
    ensures Stripped(property) == property <==> NoGraphKeys(property)
  {
    var graphs := Graphs(property).value;
    UpgradesExactly(property);
    BareAggregated(graphs);
    BareScan(graphs);
    BareSame(graphs);
    assert Stripped(property) == WithGraphs(property, Bare(graphs));
    GraphsOfUpgrade(property, Bare(graphs));
    GraphsOfUpgrade(property, graphs);
    WithGraphsTwice(property, Bare(graphs), AllAggregated(graphs));
    WithGraphsSame(property);
  }

  lemma WithGraphsSame(property: Json)
    requires Graphs(property).Some?
    ensures WithGraphs(property, Graphs(property).value) == property
  {
    GraphsOfUpgrade(property, Graphs(property).value);
    WithGraphsTwice(property, Graphs(property).value, Graphs(property).value);
  }

  /** What the upgrade loses: two files it rewrites become the same exactly when
      they differ in nothing but the "graph" of their graphs. */
  lemma SameUpgradeIff(p: Json, q: Json)
    requires Upgrade(p) != p && Upgrade(q) != q
    ensures Upgrade(p) == Upgrade(q) <==> Stripped(p) == Stripped(q)
  {
    SpreadIsStripped(p);
    SpreadIsStripped(q);
    StrippedUpgrade(p);
    StrippedUpgrade(q);
  }

  /** So a file without any "graph" is the only one of its kind with its
      upgrade, and any other shares it with such a file. */
  lemma UpgradeLosesIff(property: Json)
    requires Upgrade(property) != property
    ensures NoGraphKeys(property) <==>
      forall other :: Upgrade(other) != other && NoGraphKeys(other) && Upgrade(other) == Upgrade(property)
        ==> other == property
  {
    StrippedUpgrade(property);
    var bare := Stripped(property);
    if NoGraphKeys(property) {
      forall other | Upgrade(other) != other && NoGraphKeys(other) && Upgrade(other) == Upgrade(property)
        ensures other == property
      {
        SameUpgradeIff(other, property);
        StrippedUpgrade(other);
      }
    } else {
      StrippedChanges(property);
      assert bare != property && Upgrade(bare) != bare;
    }
  }

  lemma StrippedChanges(property: Json)
    requires Upgrade(property) != property
    ensures Upgrade(Stripped(property)) != Stripped(property)
  {
    var graphs := AllAggregated(Graphs(property).value);
    StrippedUpgrade(property);
    UpgradesExactly(property);
    GraphsOfUpgrade(property, graphs);
    assert graphs[0].Has("graph");
  }
}
