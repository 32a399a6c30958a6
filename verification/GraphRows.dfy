/** The connections of a graph as a list of rows, one for each destination, in
    the order in which they are stored.  The edits of GraphModel insert a row or
    take rows out, and change no other: neither its place, nor its app, nor its
    message conversion. */
module GraphRows {
  import opened GraphModel
  import opened Sequences
  import opened Wrappers

  datatype Row = Row(app: string, source: string, name: string, dest: Dest)

  function DestRows(app: string, source: string, name: string, ds: seq<Dest>): (r: seq<Row>)
    ensures |r| == |ds|
  {
    seq(|ds|, k requires 0 <= k < |ds| => Row(app, source, name, ds[k]))
  }

  function ItemRows(app: string, source: string, items: seq<Item>): seq<Row> {
    if items == [] then []
    else DestRows(app, source, items[0].name, items[0].dest) + ItemRows(app, source, items[1..])
  }

  function ConnectionRows(c: Connection, p: Protocol): seq<Row> {
    ItemRows(c.app, c.extension, ItemsOf(c, p))
  }

  /** The rows of one protocol. */
  function Rows(cs: seq<Connection>, p: Protocol): seq<Row> {
    if cs == [] then [] else ConnectionRows(cs[0], p) + Rows(cs[1..], p)
  }

  function Keep(rows: seq<Row>, f: Row -> bool): seq<Row> {
    if rows == [] then [] else (if f(rows[0]) then [rows[0]] else []) + Keep(rows[1..], f)
  }

  lemma {:induction false} KeepConcat(a: seq<Row>, b: seq<Row>, f: Row -> bool)
    ensures Keep(a + b, f) == Keep(a, f) + Keep(b, f)
  {
    if a == [] {
      assert a + b == b;
    } else {
      assert (a + b)[1..] == a[1..] + b;
      KeepConcat(a[1..], b, f);
      Assoc(if f(a[0]) then [a[0]] else [], Keep(a[1..], f), Keep(b, f));
    }
  }

  lemma {:induction false} KeepAll(rows: seq<Row>, f: Row -> bool)
    requires forall k :: 0 <= k < |rows| ==> f(rows[k])
    ensures Keep(rows, f) == rows
  {
    if rows != [] {
      KeepAll(rows[1..], f);
    }
  }

  lemma {:induction false} KeepNone(rows: seq<Row>, f: Row -> bool)
    requires forall k :: 0 <= k < |rows| ==> !f(rows[k])
    ensures Keep(rows, f) == []
  {
    if rows != [] {
      KeepNone(rows[1..], f);
    }
  }

  // ----- rows of parts

  lemma {:induction false} ItemRowsConcat(app: string, source: string, a: seq<Item>, b: seq<Item>)
    ensures ItemRows(app, source, a + b) == ItemRows(app, source, a) + ItemRows(app, source, b)
  {
    if a == [] {
      assert a + b == b;
    } else {
      assert (a + b)[1..] == a[1..] + b;
      ItemRowsConcat(app, source, a[1..], b);
      Assoc(DestRows(app, source, a[0].name, a[0].dest), ItemRows(app, source, a[1..]), ItemRows(app, source, b));
    }
  }

  lemma ItemRowsOne(app: string, source: string, item: Item)
    ensures ItemRows(app, source, [item]) == DestRows(app, source, item.name, item.dest)
  {
    assert [item][1..] == [];
  }

  lemma ItemRowsSplit(app: string, source: string, items: seq<Item>, k: nat)
    requires k < |items|
    ensures ItemRows(app, source, items) ==
      ItemRows(app, source, items[..k])
      + (DestRows(app, source, items[k].name, items[k].dest) + ItemRows(app, source, items[k + 1..]))
  {
    SplitAt(items, k);
    ItemRowsConcat(app, source, items[..k], [items[k]] + items[k + 1..]);
    ItemRowsConcat(app, source, [items[k]], items[k + 1..]);
    ItemRowsOne(app, source, items[k]);
  }

  lemma {:induction false} RowsConcat(a: seq<Connection>, b: seq<Connection>, p: Protocol)
    ensures Rows(a + b, p) == Rows(a, p) + Rows(b, p)
  {
    if a == [] {
      assert a + b == b;
    } else {
      assert (a + b)[1..] == a[1..] + b;
      RowsConcat(a[1..], b, p);
      Assoc(ConnectionRows(a[0], p), Rows(a[1..], p), Rows(b, p));
    }
  }

  lemma RowsSplit(cs: seq<Connection>, i: nat, p: Protocol)
    requires i < |cs|
    ensures Rows(cs, p) == Rows(cs[..i], p) + (ConnectionRows(cs[i], p) + Rows(cs[i + 1..], p))
  {
    SplitAt(cs, i);
    RowsConcat(cs[..i], [cs[i]] + cs[i + 1..], p);
    RowsConcat([cs[i]], cs[i + 1..], p);
    assert [cs[i]][1..] == [];
    assert Rows([cs[i]], p) == ConnectionRows(cs[i], p);
  }

  /** Every row of the items is of one of their names. */
  lemma {:induction false} ItemRowNamed(app: string, source: string, items: seq<Item>, k: nat)
    requires k < |ItemRows(app, source, items)|
    ensures var row := ItemRows(app, source, items)[k];
      && row.app == app && row.source == source
      && exists j :: 0 <= j < |items| && items[j].name == row.name
  {
    var first := DestRows(app, source, items[0].name, items[0].dest);
    if k >= |first| {
      ItemRowNamed(app, source, items[1..], k - |first|);
      var j :| 0 <= j < |items[1..]| && items[1..][j].name == ItemRows(app, source, items)[k].name;
      assert items[j + 1] == items[1..][j];
    }
  }

  lemma {:induction false} RowSource(cs: seq<Connection>, p: Protocol, k: nat)
    requires k < |Rows(cs, p)|
    ensures exists j :: 0 <= j < |cs| && cs[j].extension == Rows(cs, p)[k].source
  {
    var first := ConnectionRows(cs[0], p);
    if k < |first| {
      ItemRowNamed(cs[0].app, cs[0].extension, ItemsOf(cs[0], p), k);
    } else {
      RowSource(cs[1..], p, k - |first|);
      var j :| 0 <= j < |cs[1..]| && cs[1..][j].extension == Rows(cs, p)[k].source;
      assert cs[j + 1] == cs[1..][j];
    }
  }

  /** Rows of other sources. */
  lemma OtherSources(cs: seq<Connection>, p: Protocol, source: string)
    requires forall j :: 0 <= j < |cs| ==> cs[j].extension != source
    ensures forall k :: 0 <= k < |Rows(cs, p)| ==> Rows(cs, p)[k].source != source
  {
    forall k | 0 <= k < |Rows(cs, p)| ensures Rows(cs, p)[k].source != source {
      RowSource(cs, p, k);
    }
  }

  lemma OtherNames(app: string, source: string, items: seq<Item>, name: string)
    requires forall j :: 0 <= j < |items| ==> items[j].name != name
    ensures forall k :: 0 <= k < |ItemRows(app, source, items)| ==>
      ItemRows(app, source, items)[k].source == source && ItemRows(app, source, items)[k].name != name
  {
    forall k | 0 <= k < |ItemRows(app, source, items)|
      ensures ItemRows(app, source, items)[k].source == source && ItemRows(app, source, items)[k].name != name
    {
      ItemRowNamed(app, source, items, k);
    }
  }

  lemma OwnSource(c: Connection, p: Protocol)
    ensures forall k :: 0 <= k < |ConnectionRows(c, p)| ==> ConnectionRows(c, p)[k].source == c.extension
  {
    forall k | 0 <= k < |ConnectionRows(c, p)| ensures ConnectionRows(c, p)[k].source == c.extension {
      ItemRowNamed(c.app, c.extension, ItemsOf(c, p), k);
    }
  }

  // ----- cleaning

  lemma {:induction false} CleanItemsRows(app: string, source: string, items: seq<Item>)
    ensures ItemRows(app, source, CleanItems(items)) == ItemRows(app, source, items)
  {
    if items != [] {
      CleanItemsRows(app, source, items[1..]);
      var head := if items[0].dest != [] then [items[0]] else [];
      ItemRowsConcat(app, source, head, CleanItems(items[1..]));
      ItemRowsOne(app, source, items[0]);
    }
  }

  lemma CleanRows(c: Connection, p: Protocol)
    ensures ConnectionRows(Clean(c), p) == ConnectionRows(c, p)
  {
    assert ItemsOf(Clean(c), p) == CleanItems(ItemsOf(c, p));
    CleanItemsRows(c.app, c.extension, ItemsOf(c, p));
  }

  /** Dropping empty parts changes no row. */
  lemma {:induction false} RemoveEmptyRows(cs: seq<Connection>, p: Protocol)
    ensures Rows(RemoveEmpty(cs), p) == Rows(cs, p)
  {
    if cs != [] {
      RemoveEmptyRows(cs[1..], p);
      CleanRows(cs[0], p);
      var head := if Clean(cs[0]).items != map[] then [Clean(cs[0])] else [];
      RowsConcat(head, RemoveEmpty(cs[1..]), p);
      assert [Clean(cs[0])][1..] == [];
    }
  }

  // ----- removing a node

  function OffNode(n: string): Row -> bool {
    (row: Row) => row.source != n && row.dest.extension != n
  }

  lemma {:induction false} StripDests(app: string, source: string, name: string, ds: seq<Dest>, n: string)
    requires source != n
    ensures DestRows(app, source, name, RemoveDest(ds, n)) == Keep(DestRows(app, source, name, ds), OffNode(n))
  {
    if ds != [] {
      StripDests(app, source, name, ds[1..], n);
      assert DestRows(app, source, name, ds)[1..] == DestRows(app, source, name, ds[1..]);
      var head := if ds[0].extension != n then [ds[0]] else [];
      DestRowsConcat(app, source, name, head, RemoveDest(ds[1..], n));
    }
  }

  lemma DestRowsConcat(app: string, source: string, name: string, a: seq<Dest>, b: seq<Dest>)
    ensures DestRows(app, source, name, a + b) == DestRows(app, source, name, a) + DestRows(app, source, name, b)
  {
  }

  lemma {:induction false} StripItemsRows(app: string, source: string, items: seq<Item>, n: string)
    requires source != n
    ensures ItemRows(app, source, StripItems(items, n)) == Keep(ItemRows(app, source, items), OffNode(n))
  {
    if items != [] {
      assert StripItems(items, n)[1..] == StripItems(items[1..], n);
      StripItemsRows(app, source, items[1..], n);
      StripDests(app, source, items[0].name, items[0].dest, n);
      KeepConcat(DestRows(app, source, items[0].name, items[0].dest), ItemRows(app, source, items[1..]), OffNode(n));
    }
  }

  lemma StripRows(c: Connection, p: Protocol, n: string)
    ensures Rows(if c.extension != n && HasItems(Strip(c, n)) then [Strip(c, n)] else [], p)
      == Keep(ConnectionRows(c, p), OffNode(n))
  {
    if c.extension == n {
      OwnSource(c, p);
      KeepNone(ConnectionRows(c, p), OffNode(n));
    } else {
      StripItemsRows(c.app, c.extension, ItemsOf(c, p), n);
      assert ItemsOf(Strip(c, n), p) == StripItems(ItemsOf(c, p), n);
      assert [Strip(c, n)][1..] == [];
      if !HasItems(Strip(c, n)) {
        assert StripItems(ItemsOf(c, p), n) == [];
      }
    }
  }

  lemma {:induction false} StripAllRows(cs: seq<Connection>, p: Protocol, n: string)
    ensures Rows(StripAll(cs, n), p) == Keep(Rows(cs, p), OffNode(n))
  {
    if cs != [] {
      StripAllRows(cs[1..], p, n);
      StripRows(cs[0], p, n);
      RowsConcat(if cs[0].extension != n && HasItems(Strip(cs[0], n)) then [Strip(cs[0], n)] else [],
                 StripAll(cs[1..], n), p);
      KeepConcat(ConnectionRows(cs[0], p), Rows(cs[1..], p), OffNode(n));
    }
  }

  /** Removing a node takes out exactly the rows that touch it. */
  lemma RemoveNodeRows(cs: seq<Connection>, p: Protocol, n: string)
    ensures Rows(RemoveNodeEdges(cs, n), p) == Keep(Rows(cs, p), OffNode(n))
  {
    StripAllRows(cs, p, n);
    RemoveEmptyRows(StripAll(cs, n), p);
  }

  // ----- removing edges

  ghost function NotSelected(r: Removal, p: Protocol): Row -> bool {
    (row: Row) => !Selects(r, Edge(row.source, p, row.name, row.dest.extension))
  }

  lemma {:induction false} RemoveDestRows(app: string, name: string, ds: seq<Dest>, r: Removal, p: Protocol)
    requires r.protocol == Some(p) && r.name == Some(name) && NamesDest(r)
    ensures DestRows(app, r.source, name, RemoveDest(ds, r.dest.value))
      == Keep(DestRows(app, r.source, name, ds), NotSelected(r, p))
  {
    if ds != [] {
      RemoveDestRows(app, name, ds[1..], r, p);
      assert DestRows(app, r.source, name, ds)[1..] == DestRows(app, r.source, name, ds[1..]);
      DestRowsConcat(app, r.source, name, if ds[0].extension != r.dest.value then [ds[0]] else [],
                     RemoveDest(ds[1..], r.dest.value));
    }
  }

  /** The item that a removal finds. */
  lemma RemovedItemRows(app: string, items: seq<Item>, k: nat, r: Removal, p: Protocol)
    requires k < |items| && r.protocol == Some(p) && r.name == Some(items[k].name)
    ensures ItemRows(app, r.source, RemoveFromItems([items[k]], 0, r))
      == Keep(DestRows(app, r.source, items[k].name, items[k].dest), NotSelected(r, p))
  {
    var item := items[k];
    if NamesDest(r) {
      RemoveDestRows(app, item.name, item.dest, r, p);
      ItemRowsOne(app, r.source, item.(dest := RemoveDest(item.dest, r.dest.value)));
    } else {
      KeepNone(DestRows(app, r.source, item.name, item.dest), NotSelected(r, p));
    }
  }

  lemma RemoveFromItemsSplit(items: seq<Item>, k: nat, r: Removal)
    requires k < |items|
    ensures RemoveFromItems(items, k, r) == items[..k] + (RemoveFromItems([items[k]], 0, r) + items[k + 1..])
  {
    var one := [items[k]];
    assert RemoveAt(one, 0) == [] && [] + items[k + 1..] == items[k + 1..];
    if NamesDest(r) {
      var item := items[k].(dest := RemoveDest(items[k].dest, r.dest.value));
      assert one[0 := item] == [item];
      UpdateAt(items, k, item);
    }
  }

  lemma RemoveFromItemsRows(app: string, items: seq<Item>, k: nat, r: Removal, p: Protocol)
    requires k < |items| && UniqueItems(items) && r.protocol == Some(p) && r.name == Some(items[k].name)
    ensures ItemRows(app, r.source, RemoveFromItems(items, k, r))
      == Keep(ItemRows(app, r.source, items), NotSelected(r, p))
  {
    var before, after := items[..k], items[k + 1..];
    var b, a := ItemRows(app, r.source, before), ItemRows(app, r.source, after);
    var mid := DestRows(app, r.source, items[k].name, items[k].dest);
    OtherNames(app, r.source, before, items[k].name);
    OtherNames(app, r.source, after, items[k].name);
    KeepAll(b, NotSelected(r, p));
    KeepAll(a, NotSelected(r, p));
    RemovedItemRows(app, items, k, r, p);
    ItemRowsSplit(app, r.source, items, k);
    KeepConcat(b, mid + a, NotSelected(r, p));
    KeepConcat(mid, a, NotSelected(r, p));
    RemoveFromItemsSplit(items, k, r);
    ItemRowsConcat(app, r.source, before, RemoveFromItems([items[k]], 0, r) + after);
    ItemRowsConcat(app, r.source, RemoveFromItems([items[k]], 0, r), after);
  }

  /** A change within the connection of a source. */
  lemma OneConnectionRows(cs: seq<Connection>, i: nat, p: Protocol, f: Row -> bool)
    requires i < |cs| && Unique(cs)
    requires forall row: Row :: row.source != cs[i].extension ==> f(row)
    ensures Keep(Rows(cs, p), f) == Rows(cs[..i], p) + (Keep(ConnectionRows(cs[i], p), f) + Rows(cs[i + 1..], p))
  {
    var b, a := Rows(cs[..i], p), Rows(cs[i + 1..], p);
    OtherSources(cs[..i], p, cs[i].extension);
    OtherSources(cs[i + 1..], p, cs[i].extension);
    KeepAll(b, f);
    KeepAll(a, f);
    RowsSplit(cs, i, p);
    KeepConcat(b, ConnectionRows(cs[i], p) + a, f);
    KeepConcat(ConnectionRows(cs[i], p), a, f);
  }

  lemma ReplacedRows(cs: seq<Connection>, i: nat, c: Connection, p: Protocol)
    requires i < |cs|
    ensures Rows(cs[i := c], p) == Rows(cs[..i], p) + (ConnectionRows(c, p) + Rows(cs[i + 1..], p))
  {
    RowsSplit(cs[i := c], i, p);
  }

  lemma RemoveSourceRows(cs: seq<Connection>, i: nat, r: Removal, p: Protocol)
    requires i < |cs| && Unique(cs) && cs[i].extension == r.source && r.protocol.None?
    ensures Rows(RemoveAt(cs, i), p) == Keep(Rows(cs, p), NotSelected(r, p))
  {
    var b, a := Rows(cs[..i], p), Rows(cs[i + 1..], p);
    assert Keep(Rows(cs, p), NotSelected(r, p)) == b + (Keep(ConnectionRows(cs[i], p), NotSelected(r, p)) + a) by {
      OneConnectionRows(cs, i, p, NotSelected(r, p));
    }
    assert Keep(ConnectionRows(cs[i], p), NotSelected(r, p)) == [] by {
      OwnSource(cs[i], p);
      KeepNone(ConnectionRows(cs[i], p), NotSelected(r, p));
    }
    RowsConcat(cs[..i], cs[i + 1..], p);
    assert [] + a == a;
  }

  lemma RemoveItemRows(cs: seq<Connection>, i: nat, k: nat, r: Removal, p: Protocol)
    requires i < |cs| && Unique(cs) && cs[i].extension == r.source && r.protocol.Some? && r.protocol.value in cs[i].items
    requires var items := cs[i].items[r.protocol.value]; k < |items| && r.name == Some(items[k].name)
    ensures var items := cs[i].items[r.protocol.value];
      Rows(cs[i := cs[i].(items := cs[i].items[r.protocol.value := RemoveFromItems(items, k, r)])], p)
      == Keep(Rows(cs, p), NotSelected(r, p))
  {
    var items := cs[i].items[r.protocol.value];
    var c := cs[i].(items := cs[i].items[r.protocol.value := RemoveFromItems(items, k, r)]);
    ReplacedRows(cs, i, c, p);
    OneConnectionRows(cs, i, p, NotSelected(r, p));
    if p == r.protocol.value {
      assert UniqueIn(cs[i]);
      RemoveFromItemsRows(cs[i].app, items, k, r, p);
    } else {
      KeepAll(ConnectionRows(cs[i], p), NotSelected(r, p));
    }
  }

  lemma NothingSelected(cs: seq<Connection>, i: nat, r: Removal, p: Protocol)
    requires i < |cs| && Unique(cs) && cs[i].extension == r.source && r.protocol.Some?
    requires r.name.Some? ==>
      forall j :: 0 <= j < |ItemsOf(cs[i], r.protocol.value)| ==> ItemsOf(cs[i], r.protocol.value)[j].name != r.name.value
    ensures Keep(Rows(cs, p), NotSelected(r, p)) == Rows(cs, p)
  {
    OneConnectionRows(cs, i, p, NotSelected(r, p));
    RowsSplit(cs, i, p);
    if p == r.protocol.value && r.name.Some? {
      OtherNames(cs[i].app, cs[i].extension, ItemsOf(cs[i], p), r.name.value);
    }
    KeepAll(ConnectionRows(cs[i], p), NotSelected(r, p));
  }

  /** Removing edges takes out exactly the selected rows. */
  lemma RemoveEdgesRows(cs: seq<Connection>, r: Removal, p: Protocol)
    requires Unique(cs)
    ensures Rows(RemoveEdges(cs, r), p) == Keep(Rows(cs, p), NotSelected(r, p))
  {
    var i := FindSource(cs, r.source);
    if i == |cs| {
      OtherSources(cs, p, r.source);
      KeepAll(Rows(cs, p), NotSelected(r, p));
    } else if r.protocol.None? {
      RemoveSourceRows(cs, i, r, p);
      RemoveEmptyRows(RemoveAt(cs, i), p);
    } else if r.protocol.value !in cs[i].items || r.name.None? {
      NothingSelected(cs, i, r, p);
    } else {
      var items := cs[i].items[r.protocol.value];
      var k := FindItem(items, r.name.value);
      if k == |items| {
        NothingSelected(cs, i, r, p);
      } else {
        RemoveItemRows(cs, i, k, r, p);
        RemoveEmptyRows(cs[i := cs[i].(items := cs[i].items[r.protocol.value := RemoveFromItems(items, k, r)])], p);
      }
    }
  }

  /** The connection is of the source, and has an item of the name if the removal
      is for a protocol. */
  ghost predicate Finds(c: Connection, r: Removal) {
    c.extension == r.source && (r.protocol.Some? ==> r.name.Some? && HasItem(ItemsOf(c, r.protocol.value), r.name.value))
  }

  predicate HasItem(items: seq<Item>, name: string) {
    exists k :: 0 <= k < |items| && items[k].name == name
  }

  /** A removal cleans the empty parts up if it found what it names, and else
      changes nothing at all. */
  lemma RemovalCleansIffFound(cs: seq<Connection>, r: Removal)
    requires Unique(cs)
    ensures if exists i :: 0 <= i < |cs| && Finds(cs[i], r)
            then NoEmptyParts(RemoveEdges(cs, r)) else RemoveEdges(cs, r) == cs
  {
    var i := FindSource(cs, r.source);
    if i < |cs| {
      if r.protocol.None? {
        RemoveEmptyFull(RemoveAt(cs, i));
      } else if r.protocol.value in cs[i].items && r.name.Some? {
        var items := cs[i].items[r.protocol.value];
        var k := FindItem(items, r.name.value);
        if k < |items| {
          assert Finds(cs[i], r);
          RemoveEmptyFull(cs[i := cs[i].(items := cs[i].items[r.protocol.value := RemoveFromItems(items, k, r)])]);
        }
      }
    }
  }

  // ----- adding an edge

  ghost predicate Inserted(rows: seq<Row>, rows': seq<Row>, row: Row, k: int) {
    0 <= k <= |rows| && rows' == rows[..k] + ([row] + rows[k..])
  }

  /** k is behind all rows of the source and the name; if there was none of the
      name, behind all of the source; and if there was no such source, at the end. */
  ghost predicate InPlace(cs: seq<Connection>, e: Edge, rows: seq<Row>, k: int)
    requires 0 <= k <= |rows|
  {
    var i := FindSource(cs, e.source);
    && (forall j :: k <= j < |rows| ==> rows[j].source != e.source || rows[j].name != e.name)
    && (i == |cs| ==> k == |rows|)
    && (i < |cs| && FindItem(ItemsOf(cs[i], e.protocol), e.name) == |ItemsOf(cs[i], e.protocol)| ==>
          forall j :: k <= j < |rows| ==> rows[j].source != e.source)
  }

  lemma InsertedInside(before: seq<Row>, rows: seq<Row>, rows': seq<Row>, after: seq<Row>, row: Row, k: nat)
    requires Inserted(rows, rows', row, k)
    ensures Inserted(before + (rows + after), before + (rows' + after), row, |before| + k)
  {
  }

  /** Where the row goes within the rows of its connection. */
  lemma AddToItemsRows(app0: string, source: string, items: seq<Item>, name: string, dest: string, app: string)
    returns (k: nat)
    requires UniqueItems(items)
    requires FindItem(items, name) == |items| || !HasDest(items[FindItem(items, name)].dest, dest)
    ensures var rows := ItemRows(app0, source, items);
      && Inserted(rows, ItemRows(app0, source, AddToItems(items, name, dest, app)),
                  Row(app0, source, name, Dest(app, dest, None)), k)
      && (forall j :: k <= j < |rows| ==> rows[j].name != name)
      && (FindItem(items, name) == |items| ==> k == |rows|)
  {
    if FindItem(items, name) == |items| {
      k := |ItemRows(app0, source, items)|;
      NewItemRows(app0, source, items, name, dest, app);
    } else {
      k := OldItemRows(app0, source, items, name, dest, app);
    }
  }

  lemma NewItemRows(app0: string, source: string, items: seq<Item>, name: string, dest: string, app: string)
    requires FindItem(items, name) == |items|
    ensures var rows := ItemRows(app0, source, items);
      Inserted(rows, ItemRows(app0, source, AddToItems(items, name, dest, app)),
               Row(app0, source, name, Dest(app, dest, None)), |rows|)
  {
    var item := Item(name, [Dest(app, dest, None)]);
    assert [] + [Dest(app, dest, None)] == [Dest(app, dest, None)];
    assert AddToItems(items, name, dest, app) == items + [item];
    ItemRowsConcat(app0, source, items, [item]);
    ItemRowsOne(app0, source, item);
    assert DestRows(app0, source, name, item.dest) == [Row(app0, source, name, Dest(app, dest, None))];
  }

  lemma OldItemRows(app0: string, source: string, items: seq<Item>, name: string, dest: string, app: string)
    returns (k: nat)
    requires UniqueItems(items)
    requires FindItem(items, name) < |items| && !HasDest(items[FindItem(items, name)].dest, dest)
    ensures var rows := ItemRows(app0, source, items);
      && Inserted(rows, ItemRows(app0, source, AddToItems(items, name, dest, app)),
                  Row(app0, source, name, Dest(app, dest, None)), k)
      && (forall j :: k <= j < |rows| ==> rows[j].name != name)
  {
    var m := FindItem(items, name);
    var b, a := ItemRows(app0, source, items[..m]), ItemRows(app0, source, items[m + 1..]);
    var mid := DestRows(app0, source, name, items[m].dest);
    var item := items[m].(dest := items[m].dest + [Dest(app, dest, None)]);
    ItemRowsSplit(app0, source, items, m);
    assert AddToItems(items, name, dest, app) == items[m := item];
    ItemRowsSplit(app0, source, items[m := item], m);
    DestRowsConcat(app0, source, name, items[m].dest, [Dest(app, dest, None)]);
    OtherNames(app0, source, items[m + 1..], name);
    InsertedInside(b, mid, DestRows(app0, source, name, item.dest), a,
                   Row(app0, source, name, Dest(app, dest, None)), |mid|);
    k := |b| + |mid|;
    assert ItemRows(app0, source, items)[k..] == a;
  }

  /** Adding an edge inserts one row, with the app of the source's connection
      and the shared app, unless it is there; no other row changes. */
  lemma AddEdgeRows(cs: seq<Connection>, e: Edge, app: string, p: Protocol)
    requires Unique(cs)
    ensures var i := FindSource(cs, e.source);
      var rows, rows' := Rows(cs, p), Rows(AddEdge(cs, e, app), p);
      if p != e.protocol || HasEdge(cs, e) then rows' == rows
      else
        var row := Row(if i < |cs| then cs[i].app else app, e.source, e.name, Dest(app, e.dest, None));
        exists k :: Inserted(rows, rows', row, k) && InPlace(cs, e, rows, k)
  {
    AlreadyThereIsEdge(cs, e);
    AddEdgeAlreadyThere(cs, e, app);
    if !HasEdge(cs, e) {
      if FindSource(cs, e.source) == |cs| {
        NewSourceRows(cs, e, app, p);
      } else {
        OldSourceRows(cs, e, app, p);
      }
    }
  }

  lemma NewSourceRows(cs: seq<Connection>, e: Edge, app: string, p: Protocol)
    requires FindSource(cs, e.source) == |cs|
    ensures var rows, rows' := Rows(cs, p), Rows(AddEdge(cs, e, app), p);
      if p != e.protocol then rows' == rows
      else Inserted(rows, rows', Row(app, e.source, e.name, Dest(app, e.dest, None)), |rows|)
           && InPlace(cs, e, rows, |rows|)
  {
    var c := AddToConnection(Connection(app, e.source, map[]), e, app);
    NewSource(cs, e, app);
    RowsConcat(cs, [c], p);
    FirstRow(e, app, p);
  }

  lemma NewSource(cs: seq<Connection>, e: Edge, app: string)
    requires FindSource(cs, e.source) == |cs|
    ensures AddEdge(cs, e, app) == cs + [AddToConnection(Connection(app, e.source, map[]), e, app)]
  {
  }

  lemma FirstRow(e: Edge, app: string, p: Protocol)
    ensures Rows([AddToConnection(Connection(app, e.source, map[]), e, app)], p) ==
      if p == e.protocol then [Row(app, e.source, e.name, Dest(app, e.dest, None))] else []
  {
    var c := AddToConnection(Connection(app, e.source, map[]), e, app);
    assert [c][1..] == [];
    assert Rows([c], p) == ConnectionRows(c, p);
    if p == e.protocol {
      NewItemRows(app, e.source, [], e.name, e.dest, app);
    }
  }

  lemma OldSourceRows(cs: seq<Connection>, e: Edge, app: string, p: Protocol)
    requires Unique(cs) && FindSource(cs, e.source) < |cs| && !AlreadyThere(cs, e)
    ensures var rows, rows' := Rows(cs, p), Rows(AddEdge(cs, e, app), p);
      if p != e.protocol then rows' == rows
      else
        var row := Row(cs[FindSource(cs, e.source)].app, e.source, e.name, Dest(app, e.dest, None));
        exists k :: Inserted(rows, rows', row, k) && InPlace(cs, e, rows, k)
  {
    var i := FindSource(cs, e.source);
    var c := AddToConnection(cs[i], e, app);
    ReplacedRows(cs, i, c, p);
    RowsSplit(cs, i, p);
    if p == e.protocol {
      assert UniqueIn(cs[i]);
      var b, a := Rows(cs[..i], p), Rows(cs[i + 1..], p);
      var k := AddToItemsRows(cs[i].app, e.source, ItemsOf(cs[i], p), e.name, e.dest, app);
      var row := Row(cs[i].app, e.source, e.name, Dest(app, e.dest, None));
      InsertedInside(b, ConnectionRows(cs[i], p), ConnectionRows(c, p), a, row, k);
      BehindRows(cs, e, k);
    }
  }

  lemma BehindRows(cs: seq<Connection>, e: Edge, k: nat)
    requires Unique(cs) && FindSource(cs, e.source) < |cs|
    requires var i := FindSource(cs, e.source);
      var rows := ConnectionRows(cs[i], e.protocol);
      && k <= |rows| && (forall j :: k <= j < |rows| ==> rows[j].name != e.name)
      && (FindItem(ItemsOf(cs[i], e.protocol), e.name) == |ItemsOf(cs[i], e.protocol)| ==> k == |rows|)
    ensures var at := |Rows(cs[..FindSource(cs, e.source)], e.protocol)| + k;
      at <= |Rows(cs, e.protocol)| && InPlace(cs, e, Rows(cs, e.protocol), at)
  {
    var i, p := FindSource(cs, e.source), e.protocol;
    RowsSplit(cs, i, p);
    OtherSources(cs[i + 1..], p, e.source);
    BehindAll(Rows(cs[..i], p), ConnectionRows(cs[i], p), Rows(cs[i + 1..], p), k);
  }

  lemma BehindAll(before: seq<Row>, rows: seq<Row>, after: seq<Row>, k: nat)
    requires k <= |rows|
    ensures forall j :: |before| + k <= j < |before + (rows + after)| ==>
      (before + (rows + after))[j] ==
        if j < |before| + |rows| then rows[j - |before|] else after[j - |before| - |rows|]
  {
  }
}
