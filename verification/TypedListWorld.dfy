/** Any number of typed lists that share one allocator.

    World is the abstract state: the chains as sequences, the nodes that are
    linked into no list, and the nodes already destroyed, in order.  The class
    Lists runs the operations of TypedList and refines it over whole runs. */
module TypedListWorld {
  import opened Wrappers
  import opened TypedList

  datatype World<N> = World(lists: seq<seq<N>>, loose: seq<N>, destroyed: seq<N>)

  datatype Op<!T> =
    | Create(data: T, copy: T -> T)
    | PushFront(i: nat, k: nat)
    | PushBack(i: nat, k: nat)
    | PopFront(i: nat)
    | PopBack(i: nat)
    | Swap(i: nat, j: nat)
    | Concat(i: nat, j: nat)
    | Copy(i: nat, j: nat)
    | Clear(i: nat)
    | Destroy(k: nat)

  function Without<X>(s: seq<X>, k: nat): (r: seq<X>)
    requires k < |s|
    ensures |r| == |s| - 1 && forall a :: 0 <= a < |r| ==> r[a] == s[if a < k then a else a + 1]
  {
    s[..k] + s[k + 1..]
  }

  /** The calls whose arguments exist; concat and copy need two distinct lists. */
  predicate CanCall<T>(lists: nat, loose: nat, op: Op<T>) {
    match op
    case Create(_, _) => true
    case PushFront(i, k) => i < lists && k < loose
    case PushBack(i, k) => i < lists && k < loose
    case PopFront(i) => i < lists
    case PopBack(i) => i < lists
    case Swap(i, j) => i < lists && j < lists
    case Concat(i, j) => i < lists && j < lists && i != j
    case Copy(i, j) => i < lists && j < lists && i != j
    case Clear(i) => i < lists
    case Destroy(k) => k < loose
  }

  predicate Enabled<N, T>(w: World<N>, op: Op<T>) {
    CanCall(|w.lists|, |w.loose|, op)
  }

  /** How many nodes the call allocates. */
  function Allocates<N, T>(w: World<N>, op: Op<T>): nat
    requires Enabled(w, op)
  {
    if op.Create? then 1 else if op.Copy? then |w.lists[op.j]| else 0
  }

  /** The effect of one call on the sequences; news are the nodes it allocated. */
  function Apply<N, T>(w: World<N>, op: Op<T>, news: seq<N>): World<N>
    requires Enabled(w, op) && |news| == Allocates(w, op)
  {
    match op
    case Create(_, _) => w.(loose := w.loose + news)
    case PushFront(i, k) =>
      w.(lists := w.lists[i := [w.loose[k]] + w.lists[i]], loose := Without(w.loose, k))
    case PushBack(i, k) =>
      w.(lists := w.lists[i := w.lists[i] + [w.loose[k]]], loose := Without(w.loose, k))
    case PopFront(i) =>
      if w.lists[i] == [] then w
      else w.(lists := w.lists[i := w.lists[i][1..]], loose := w.loose + [w.lists[i][0]])
    case PopBack(i) =>
      if w.lists[i] == [] then w
      else w.(lists := w.lists[i := w.lists[i][..|w.lists[i]| - 1]],
              loose := w.loose + [w.lists[i][|w.lists[i]| - 1]])
    case Swap(i, j) => w.(lists := w.lists[i := w.lists[j]][j := w.lists[i]])
    case Concat(i, j) => w.(lists := w.lists[i := w.lists[i] + w.lists[j]][j := []])
    case Copy(i, j) => w.(lists := w.lists[i := w.lists[i] + news])
    case Clear(i) => w.(lists := w.lists[i := []], destroyed := w.destroyed + w.lists[i])
    case Destroy(k) => w.(loose := Without(w.loose, k), destroyed := w.destroyed + [w.loose[k]])
  }

  /** The effect of each call node by node: which end of which list it touches,
      in which order nodes move, and that the other nodes of the list stay. */
  lemma EffectAt<N, T>(w: World<N>, op: Op<T>, news: seq<N>, a: nat)
    requires Enabled(w, op) && |news| == Allocates(w, op)
    ensures var t := Apply(w, op, news);
      match op
      case Create(_, _) => t.lists == w.lists && t.loose == w.loose + news && t.destroyed == w.destroyed
      case PushFront(i, k) =>
        && |t.lists[i]| == |w.lists[i]| + 1 && t.lists[i][0] == w.loose[k]
        && (a < |w.lists[i]| ==> t.lists[i][a + 1] == w.lists[i][a])
      case PushBack(i, k) =>
        && |t.lists[i]| == |w.lists[i]| + 1 && t.lists[i][|w.lists[i]|] == w.loose[k]
        && (a < |w.lists[i]| ==> t.lists[i][a] == w.lists[i][a])
      case PopFront(i) =>
        if w.lists[i] == [] then t == w
        else
          && |t.lists[i]| == |w.lists[i]| - 1 && t.loose == w.loose + [w.lists[i][0]]
          && (a < |t.lists[i]| ==> t.lists[i][a] == w.lists[i][a + 1])
      case PopBack(i) =>
        if w.lists[i] == [] then t == w
        else
          && |t.lists[i]| == |w.lists[i]| - 1 && t.loose == w.loose + [w.lists[i][|w.lists[i]| - 1]]
          && (a < |t.lists[i]| ==> t.lists[i][a] == w.lists[i][a])
      case Swap(i, j) => t.lists[i] == w.lists[j] && t.lists[j] == w.lists[i]
      case Concat(i, j) =>
        && |t.lists[i]| == |w.lists[i]| + |w.lists[j]| && t.lists[j] == []
        && (a < |w.lists[i]| ==> t.lists[i][a] == w.lists[i][a])
        && (a < |w.lists[j]| ==> t.lists[i][|w.lists[i]| + a] == w.lists[j][a])
      case Copy(i, j) =>
        && |t.lists[i]| == |w.lists[i]| + |w.lists[j]| && t.lists[j] == w.lists[j]
        && (a < |w.lists[i]| ==> t.lists[i][a] == w.lists[i][a])
        && (a < |w.lists[j]| ==> t.lists[i][|w.lists[i]| + a] == news[a])
      case Clear(i) => t.lists[i] == [] && t.destroyed == w.destroyed + w.lists[i] && t.loose == w.loose
      case Destroy(k) => t.lists == w.lists && t.destroyed == w.destroyed + [w.loose[k]]
  {
  }

  /** Renames one place to another. */
  ghost function Moved<N>(place: map<N, int>, from: int, to: int): (r: map<N, int>)
    ensures r.Keys == place.Keys
    ensures forall n :: n in place ==> r[n] == if place[n] == from then to else place[n]
  {
    map n | n in place :: if place[n] == from then to else place[n]
  }

  /** Gives the nodes of s a place of their own. */
  ghost function Settled<N>(place: map<N, int>, s: seq<N>, p: int): (r: map<N, int>)
    ensures forall n :: n in place && n !in s ==> n in r && r[n] == place[n]
    ensures forall k :: 0 <= k < |s| ==> s[k] in r && r[s[k]] == p
    ensures forall n :: n in r ==> n in place || n in s
  {
    place + map n | n in s :: p
  }

  // ----- conservation: no operation loses or duplicates a node

  function Multiplicity<N(==)>(s: seq<N>, x: N): nat {
    multiset(s)[x]
  }

  function Listed<N(==)>(lists: seq<seq<N>>, x: N): nat {
    if lists == [] then 0 else Multiplicity(lists[0], x) + Listed(lists[1..], x)
  }

  /** How often node x occurs among the lists, the loose and the destroyed nodes. */
  function Occurrences<N(==)>(w: World<N>, x: N): nat {
    Listed(w.lists, x) + Multiplicity(w.loose, x) + Multiplicity(w.destroyed, x)
  }

  lemma MultiplicityConcat<N>(s: seq<N>, t: seq<N>, x: N)
    ensures Multiplicity(s + t, x) == Multiplicity(s, x) + Multiplicity(t, x)
  {
  }

  lemma MultiplicitySplit<N>(s: seq<N>, k: nat, x: N)
    requires k < |s|
    ensures Multiplicity(s, x) == Multiplicity(s[..k], x) + Multiplicity([s[k]], x) + Multiplicity(s[k + 1..], x)
  {
    assert s == s[..k] + [s[k]] + s[k + 1..];
  }

  lemma {:induction false} ListedUpdate<N>(lists: seq<seq<N>>, i: nat, s: seq<N>, x: N)
    requires i < |lists|
    ensures Listed(lists[i := s], x) == Listed(lists, x) - Multiplicity(lists[i], x) + Multiplicity(s, x)
  {
    var updated := lists[i := s];
    if i == 0 {
      assert updated[1..] == lists[1..];
    } else {
      assert updated[1..] == lists[1..][i - 1 := s];
      ListedUpdate(lists[1..], i - 1, s, x);
    }
  }

  lemma PushConserves<N, T>(w: World<N>, op: Op<T>, x: N)
    requires Enabled(w, op) && (op.PushFront? || op.PushBack?)
    ensures Occurrences(Apply(w, op, []), x) == Occurrences(w, x)
  {
    var s, node := w.lists[op.i], [w.loose[op.k]];
    MultiplicityConcat(node, s, x);
    MultiplicityConcat(s, node, x);
    MultiplicityConcat(w.loose[..op.k], w.loose[op.k + 1..], x);
    MultiplicitySplit(w.loose, op.k, x);
    ListedUpdate(w.lists, op.i, if op.PushFront? then node + s else s + node, x);
  }

  lemma PopConserves<N, T>(w: World<N>, op: Op<T>, x: N)
    requires Enabled(w, op) && (op.PopFront? || op.PopBack?)
    ensures Occurrences(Apply(w, op, []), x) == Occurrences(w, x)
  {
    var s := w.lists[op.i];
    if s != [] {
      var k := if op.PopFront? then 0 else |s| - 1;
      MultiplicitySplit(s, k, x);
      MultiplicityConcat(w.loose, [s[k]], x);
      ListedUpdate(w.lists, op.i, if op.PopFront? then s[1..] else s[..k], x);
    }
  }

  lemma ExchangeConserves<N, T>(w: World<N>, op: Op<T>, x: N)
    requires Enabled(w, op) && (op.Swap? || op.Concat?)
    ensures Occurrences(Apply(w, op, []), x) == Occurrences(w, x)
  {
    var s, t := w.lists[op.i], w.lists[op.j];
    var s' := if op.Swap? then t else s + t;
    MultiplicityConcat(s, t, x);
    ListedUpdate(w.lists, op.i, s', x);
    ListedUpdate(w.lists[op.i := s'], op.j, if op.Swap? then s else [], x);
  }

  /** Every node a program allocated is, after any call, in exactly one place:
      a list, the loose nodes, or the destroyed ones. */
  lemma ApplyConserves<N, T>(w: World<N>, op: Op<T>, news: seq<N>, x: N)
    requires Enabled(w, op) && |news| == Allocates(w, op)
    ensures Occurrences(Apply(w, op, news), x) == Occurrences(w, x) + Multiplicity(news, x)
  {
    match op
    case Create(_, _) => MultiplicityConcat(w.loose, news, x);
    case PushFront(_, _) => PushConserves(w, op, x);
    case PushBack(_, _) => PushConserves(w, op, x);
    case PopFront(_) => PopConserves(w, op, x);
    case PopBack(_) => PopConserves(w, op, x);
    case Swap(_, _) => ExchangeConserves(w, op, x);
    case Concat(_, _) => ExchangeConserves(w, op, x);
    case Copy(i, _) =>
      MultiplicityConcat(w.lists[i], news, x);
      ListedUpdate(w.lists, i, w.lists[i] + news, x);
    case Clear(i) =>
      MultiplicityConcat(w.destroyed, w.lists[i], x);
      ListedUpdate(w.lists, i, [], x);
    case Destroy(k) =>
      MultiplicitySplit(w.loose, k, x);
      MultiplicityConcat(w.loose[..k], w.loose[k + 1..], x);
      MultiplicityConcat(w.destroyed, [w.loose[k]], x);
  }

  // ----- contents

  /** A created node holds the given data; every clone holds what the callback
      makes of the data of its original. */
  ghost predicate Filled<T>(w: World<Node<T>>, op: Op<T>, news: seq<Node<T>>)
    requires Enabled(w, op) && |news| == Allocates(w, op)
  {
    match op
    case Create(data, copy) => news[0].data == data && news[0].copy == Some(copy)
    case Copy(_, j) => forall k :: 0 <= k < |news| ==> news[k].CloneOf(w.lists[j][k])
    case _ => true
  }

  /** So over a whole run. */
  ghost predicate AllFilled<T>(w: World<Node<T>>, ops: seq<Op<T>>, news: seq<seq<Node<T>>>)
    requires |ops| == |news| && ApplyAll(w, ops, news).Some?
    decreases |ops|
  {
    ops == [] ||
    if Enabled(w, ops[0]) then
      Filled(w, ops[0], news[0]) && AllFilled(Apply(w, ops[0], news[0]), ops[1..], news[1..])
    else
      AllFilled(w, ops[1..], news[1..])
  }

  // ----- runs

  /** The effect of a whole run; a call that is not enabled is not made. */
  function ApplyAll<N, T>(w: World<N>, ops: seq<Op<T>>, news: seq<seq<N>>): Option<World<N>>
    requires |ops| == |news|
    decreases |ops|
  {
    if ops == [] then
      if news == [] then Some(w) else None
    else if !Enabled(w, ops[0]) then
      if news[0] == [] then ApplyAll(w, ops[1..], news[1..]) else None
    else if |news[0]| != Allocates(w, ops[0]) then
      None
    else
      ApplyAll(Apply(w, ops[0], news[0]), ops[1..], news[1..])
  }

  /** Over a whole run each node occurs exactly as often as it was allocated. */
  lemma {:induction false} RunConserves<N, T>(w: World<N>, ops: seq<Op<T>>, news: seq<seq<N>>, x: N)
    requires |ops| == |news| && ApplyAll(w, ops, news).Some?
    ensures Occurrences(ApplyAll(w, ops, news).value, x) == Occurrences(w, x) + Listed(news, x)
    decreases |ops|
  {
    if ops != [] {
      if Enabled(w, ops[0]) {
        ApplyConserves(w, ops[0], news[0], x);
        RunConserves(Apply(w, ops[0], news[0]), ops[1..], news[1..], x);
      } else {
        RunConserves(w, ops[1..], news[1..], x);
      }
    }
  }

  lemma MovedOnly<N>(before: seq<seq<N>>, after: seq<seq<N>>, i: nat, j: nat)
    requires |before| == |after| && i < |before| && j < |before|
    requires forall a :: 0 <= a < |before| && a != i && a != j ==> after[a] == before[a]
    ensures after == before[i := after[i]][j := after[j]]
  {
  }

  lemma MovedOne<N>(before: seq<seq<N>>, after: seq<seq<N>>, i: nat)
    requires |before| == |after| && i < |before|
    requires forall a :: 0 <= a < |before| && a != i ==> after[a] == before[a]
    ensures after == before[i := after[i]]
  {
  }

  // ----- the heap refines the sequences

  class Lists<T> {
    const lists: seq<List<T>>
    const heap: Heap<T>
    var loose: seq<Node<T>>
    /** Where each allocated node is: the index of a list, LOOSE or DESTROYED. */
    ghost var place: map<Node<T>, int>

    static const LOOSE := -1
    static const DESTROYED := -2

    ghost predicate Valid()
      reads this, lists, heap, place.Keys
    {
      ListsValid() && LooseValid() && DestroyedValid()
    }

    ghost predicate ListsValid()
      reads this`place, lists, place.Keys
    {
      && (forall i, j :: 0 <= i < j < |lists| ==> lists[i] != lists[j])
      && (forall i :: 0 <= i < |lists| ==> ListValid(i))
      && (forall n :: n in place ==> n.copy.Some?)
    }

    ghost predicate ListValid(i: nat)
      requires i < |lists|
      reads this`place, lists, place.Keys
    {
      Placed(lists[i].Nodes, i) && lists[i].Valid()
    }

    ghost predicate LooseValid()
      reads this`place, this`loose, place.Keys
    {
      Placed(loose, LOOSE) && Distinct(loose) && forall k :: 0 <= k < |loose| ==> loose[k].Detached()
    }

    ghost predicate DestroyedValid()
      reads this`place, heap
    {
      Placed(heap.destroyed, DESTROYED) && Distinct(heap.destroyed)
    }

    ghost predicate Placed(s: seq<Node<T>>, p: int)
      reads this`place
    {
      forall k :: 0 <= k < |s| ==> s[k] in place && place[s[k]] == p
    }

    ghost function Abs(): (w: World<Node<T>>)
      reads this, lists, heap
      ensures |w.lists| == |lists| && w.loose == loose && w.destroyed == heap.destroyed
      ensures forall i :: 0 <= i < |lists| ==> w.lists[i] == lists[i].Nodes
    {
      World(seq(|lists|, i requires 0 <= i < |lists| reads lists => lists[i].Nodes), loose, heap.destroyed)
    }

    constructor (n: nat)
      ensures Valid() && |lists| == n && loose == [] && heap.destroyed == []
      ensures forall i :: 0 <= i < n ==> lists[i].Nodes == []
    {
      var ls: seq<List<T>> := [];
      for i := 0 to n
        invariant |ls| == i && fresh(ls)
        invariant forall a, b :: 0 <= a < b < |ls| ==> ls[a] != ls[b]
        invariant forall a :: 0 <= a < |ls| ==> ls[a].Valid() && ls[a].Nodes == []
      {
        var l := new List<T>();
        ls := ls + [l];
      }
      lists := ls;
      heap := new Heap<T>();
      loose, place := [], map[];
    }

    // ----- what one call leaves alone

    twostate predicate OthersKept(i: nat, j: nat)
      reads lists
    {
      forall a :: 0 <= a < |lists| && a != i && a != j ==> lists[a].Nodes == old(lists[a].Nodes)
    }

    /** Every node outside the lists, except n, is where and as it was. */
    twostate predicate SideKept(n: Node?<T>)
      reads this`place, place.Keys
    {
      forall m :: m in old(place) && old(place[m]) < 0 && m != n ==>
        m in place && place[m] == old(place[m]) && unchanged(m)
    }

    /** A list keeps its validity when neither it nor its nodes changed. */
    twostate predicate Untouched(a: nat)
      requires a < |lists|
      reads this`place, lists, lists[a].Nodes
    {
      && unchanged(lists[a])
      && (forall k :: 0 <= k < |lists[a].Nodes| ==> unchanged(lists[a].Nodes[k]))
      && Placed(lists[a].Nodes, a)
    }

    twostate lemma FrameList(a: nat)
      requires a < |lists| && old(ListValid(a)) && Untouched(a)
      ensures ListValid(a)
    {
    }

    // ----- one list call each, with the place of the nodes it moved

    method LinkFront(i: nat, node: Node<T>)
      requires ListsValid() && i < |lists| && node in place && place[node] == LOOSE && !node.freed
      modifies this`place, lists, place.Keys
      ensures ListsValid() && place == old(place)[node := i] && SideKept(node)
      ensures OthersKept(i, i)
      ensures lists[i].Nodes == [node] + old(lists[i].Nodes)
    {
      assert ListValid(i);
      lists[i].PushFront(node);
      place := place[node := i];
      forall a | 0 <= a < |lists| && a != i ensures ListValid(a) {
        assert old(ListValid(a));
        FrameList(a);
      }
    }

    method LinkBack(i: nat, node: Node<T>)
      requires ListsValid() && i < |lists| && node in place && place[node] == LOOSE && !node.freed
      modifies this`place, lists, place.Keys
      ensures ListsValid() && place == old(place)[node := i] && SideKept(node)
      ensures OthersKept(i, i)
      ensures lists[i].Nodes == old(lists[i].Nodes) + [node]
    {
      assert ListValid(i);
      lists[i].PushBack(node);
      place := place[node := i];
      forall a | 0 <= a < |lists| && a != i ensures ListValid(a) {
        assert old(ListValid(a));
        FrameList(a);
      }
    }

    /** Only nodes of the lists i and j change. */
    twostate predicate OnlyNodesOf(i: nat, j: nat)
      reads this`place, place.Keys
    {
      forall m :: m in place && m in old(place) && place[m] != i && place[m] != j ==> unchanged(m)
    }

    /** The node that left list i has no list. */
    ghost method SetLoose(i: nat, node: Node<T>)
      requires i < |lists| && lists[i].Valid() && Placed(lists[i].Nodes, i) && node !in lists[i].Nodes
      requires forall a, b :: 0 <= a < b < |lists| ==> lists[a] != lists[b]
      requires forall a :: 0 <= a < |lists| && a != i ==> ListValid(a)
      requires node in place && place[node] == i && forall m :: m in place ==> m.copy.Some?
      modifies `place
      ensures ListsValid() && place == old(place)[node := LOOSE]
    {
      label before:
      place := place[node := LOOSE];
      forall a | 0 <= a < |lists| ensures ListValid(a) {
        if a != i {
          assert old@before(ListValid(a));
          FrameList@before(a);
        }
      }
    }

    method PopFrontCall(i: nat) returns (node: Node?<T>)
      requires ListsValid() && i < |lists|
      modifies lists[i], lists[i].Nodes
      ensures lists[i].Valid() && Placed(lists[i].Nodes, i)
      ensures forall a :: 0 <= a < |lists| && a != i ==> ListValid(a)
      ensures OnlyNodesOf(i, i)
      ensures old(lists[i].Nodes) == [] ==> node == null && lists[i].Nodes == []
      ensures old(lists[i].Nodes) != [] ==>
        var s := old(lists[i].Nodes);
        && node == s[0] && lists[i].Nodes == s[1..] && node.Detached() && node !in lists[i].Nodes
    {
      assert ListValid(i);
      node := lists[i].PopFront();
      forall a | 0 <= a < |lists| && a != i ensures ListValid(a) {
        assert old(ListValid(a));
        FrameList(a);
      }
    }

    method UnlinkFront(i: nat) returns (node: Node?<T>)
      requires ListsValid() && i < |lists|
      modifies this`place, lists, place.Keys
      ensures ListsValid() && SideKept(null) && OthersKept(i, i)
      ensures old(lists[i].Nodes) == [] ==> node == null && lists[i].Nodes == [] && place == old(place)
      ensures old(lists[i].Nodes) != [] ==>
        var s := old(lists[i].Nodes);
        && node == s[0] && lists[i].Nodes == s[1..]
        && node in old(place) && old(place[node]) == i
        && node.Detached() && place == old(place)[node := LOOSE]
    {
      assert ListValid(i);
      node := PopFrontCall(i);
      if node != null {
        SetLoose(i, node);
      }
    }

    method PopBackCall(i: nat) returns (node: Node?<T>)
      requires ListsValid() && i < |lists|
      modifies lists[i], lists[i].Nodes
      ensures lists[i].Valid() && Placed(lists[i].Nodes, i)
      ensures forall a :: 0 <= a < |lists| && a != i ==> ListValid(a)
      ensures OnlyNodesOf(i, i)
      ensures old(lists[i].Nodes) == [] ==> node == null && lists[i].Nodes == []
      ensures old(lists[i].Nodes) != [] ==>
        var s := old(lists[i].Nodes);
        && node == s[|s| - 1] && lists[i].Nodes == s[..|s| - 1] && node.Detached() && node !in lists[i].Nodes
    {
      assert ListValid(i);
      node := lists[i].PopBack();
      forall a | 0 <= a < |lists| && a != i ensures ListValid(a) {
        assert old(ListValid(a));
        FrameList(a);
      }
    }

    method UnlinkBack(i: nat) returns (node: Node?<T>)
      requires ListsValid() && i < |lists|
      modifies this`place, lists, place.Keys
      ensures ListsValid() && SideKept(null) && OthersKept(i, i)
      ensures old(lists[i].Nodes) == [] ==> node == null && lists[i].Nodes == [] && place == old(place)
      ensures old(lists[i].Nodes) != [] ==>
        var s := old(lists[i].Nodes);
        && node == s[|s| - 1] && lists[i].Nodes == s[..|s| - 1]
        && node in old(place) && old(place[node]) == i
        && node.Detached() && place == old(place)[node := LOOSE]
    {
      assert ListValid(i);
      node := PopBackCall(i);
      if node != null {
        SetLoose(i, node);
      }
    }

    method SwapCall(i: nat, j: nat)
      requires ListsValid() && i < |lists| && j < |lists|
      modifies lists[i], lists[j]
      ensures lists[i].Valid() && lists[j].Valid()
      ensures lists[i].Nodes == old(lists[j].Nodes) && lists[j].Nodes == old(lists[i].Nodes)
      ensures Placed(lists[i].Nodes, j) && Placed(lists[j].Nodes, i)
      ensures forall a :: 0 <= a < |lists| && a != i && a != j ==> ListValid(a)
    {
      assert ListValid(i) && ListValid(j);
      lists[i].Swap(lists[j]);
      forall a | 0 <= a < |lists| && a != i && a != j ensures ListValid(a) {
        assert old(ListValid(a));
        FrameList(a);
      }
    }

    method Exchange(i: nat, j: nat)
      requires ListsValid() && i < |lists| && j < |lists|
      modifies this`place, lists
      ensures place.Keys == old(place.Keys)
      ensures ListsValid() && SideKept(null) && OthersKept(i, j)
      ensures lists[i].Nodes == old(lists[j].Nodes) && lists[j].Nodes == old(lists[i].Nodes)
    {
      SwapCall(i, j);
      Interchange(i, j);
    }

    /** The nodes of the lists i and j have changed places. */
    ghost method Interchange(i: nat, j: nat)
      requires i < |lists| && j < |lists| && lists[i].Valid() && lists[j].Valid()
      requires Placed(lists[i].Nodes, j) && Placed(lists[j].Nodes, i)
      requires forall a, b :: 0 <= a < b < |lists| ==> lists[a] != lists[b]
      requires forall a :: 0 <= a < |lists| && a != i && a != j ==> ListValid(a)
      requires forall m :: m in place ==> m.copy.Some?
      modifies `place
      ensures ListsValid() && place.Keys == old(place.Keys)
      ensures forall m :: m in place && old(place[m]) < 0 ==> place[m] == old(place[m])
    {
      label before:
      place := map n | n in place ::
        if place[n] == i then j as int else if place[n] == j then i as int else place[n];
      forall a | 0 <= a < |lists| ensures ListValid(a) {
        if a != i && a != j {
          assert old@before(ListValid(a));
          FrameList@before(a);
        }
      }
    }

    method ConcatCall(i: nat, j: nat)
      requires ListsValid() && i < |lists| && j < |lists| && i != j
      modifies lists[i], lists[j], lists[i].Nodes, lists[j].Nodes
      ensures lists[i].Valid() && lists[j].Valid()
      ensures lists[i].Nodes == old(lists[i].Nodes) + old(lists[j].Nodes) && lists[j].Nodes == []
      ensures OnlyNodesOf(i, j)
      ensures forall a :: 0 <= a < |lists| && a != i && a != j ==> ListValid(a)
    {
      assert ListValid(i) && ListValid(j);
      lists[i].Concat(lists[j]);
      forall a | 0 <= a < |lists| && a != i && a != j ensures ListValid(a) {
        assert old(ListValid(a));
        FrameList(a);
      }
    }

    method Append(i: nat, j: nat)
      requires ListsValid() && i < |lists| && j < |lists| && i != j
      modifies this`place, lists, place.Keys
      ensures place.Keys == old(place.Keys)
      ensures ListsValid() && SideKept(null) && OthersKept(i, j)
      ensures lists[i].Nodes == old(lists[i].Nodes) + old(lists[j].Nodes) && lists[j].Nodes == []
    {
      assert ListValid(i) && ListValid(j);
      ConcatCall(i, j);
      Join(i, j);
    }

    /** The nodes of list j have moved to list i. */
    ghost method Join(i: nat, j: nat)
      requires i < |lists| && j < |lists| && i != j && lists[i].Valid() && lists[j].Valid() && lists[j].Nodes == []
      requires forall k :: 0 <= k < |lists[i].Nodes| ==>
        lists[i].Nodes[k] in place && (place[lists[i].Nodes[k]] == i || place[lists[i].Nodes[k]] == j)
      requires forall a, b :: 0 <= a < b < |lists| ==> lists[a] != lists[b]
      requires forall a :: 0 <= a < |lists| && a != i && a != j ==> ListValid(a)
      requires forall m :: m in place ==> m.copy.Some?
      modifies `place
      ensures ListsValid() && place == Moved(old(place), j, i)
    {
      label before:
      place := Moved(place, j, i);
      forall a | 0 <= a < |lists| ensures ListValid(a) {
        if a != i && a != j {
          assert old@before(ListValid(a));
          FrameList@before(a);
        }
      }
    }

    method CopyCall(i: nat, j: nat) returns (ghost clones: seq<Node<T>>)
      requires ListsValid() && i < |lists| && j < |lists| && i != j
      modifies lists[i], lists[i].Nodes
      ensures lists[i].Valid() && lists[i].Nodes == old(lists[i].Nodes) + clones
      ensures fresh(clones) && |clones| == |lists[j].Nodes|
      ensures forall k :: 0 <= k < |clones| ==> clones[k].CloneOf(lists[j].Nodes[k])
      ensures forall k :: 0 <= k < |clones| ==> clones[k].copy.Some?
      ensures OnlyNodesOf(i, i)
      ensures forall a :: 0 <= a < |lists| && a != i ==> ListValid(a)
      ensures forall m :: m in place ==> m !in clones
    {
      assert ListValid(i) && ListValid(j);
      clones := lists[i].Copy(lists[j]);
      forall a | 0 <= a < |lists| && a != i ensures ListValid(a) {
        assert old(ListValid(a));
        FrameList(a);
      }
    }

    /** Gives list i the nodes that joined it. */
    ghost method Settle(i: nat, clones: seq<Node<T>>)
      requires i < |lists| && lists[i].Valid()
      requires forall a, b :: 0 <= a < b < |lists| ==> lists[a] != lists[b]
      requires forall a :: 0 <= a < |lists| && a != i ==> ListValid(a)
      requires forall k :: 0 <= k < |lists[i].Nodes| ==>
        lists[i].Nodes[k] in clones || (lists[i].Nodes[k] in place && place[lists[i].Nodes[k]] == i)
      requires forall m :: m in place ==> m !in clones && m.copy.Some?
      requires forall k :: 0 <= k < |clones| ==> clones[k].copy.Some?
      modifies `place
      ensures ListsValid() && place == Settled(old(place), clones, i)
    {
      label before:
      place := Settled(place, clones, i);
      forall a | 0 <= a < |lists| ensures ListValid(a) {
        if a != i {
          assert old@before(ListValid(a));
          FrameList@before(a);
        }
      }
    }

    method Duplicate(i: nat, j: nat) returns (ghost clones: seq<Node<T>>)
      requires ListsValid() && i < |lists| && j < |lists| && i != j
      modifies this`place, lists, place.Keys
      ensures fresh(place.Keys - old(place.Keys))
      ensures ListsValid() && SideKept(null) && OthersKept(i, i)
      ensures lists[i].Nodes == old(lists[i].Nodes) + clones && |clones| == |lists[j].Nodes|
      ensures forall k :: 0 <= k < |clones| ==> clones[k].CloneOf(lists[j].Nodes[k])
    {
      assert ListValid(i) && ListValid(j);
      clones := CopyCall(i, j);
      Settle(i, clones);
    }

    method Drop(i: nat)
      requires ListsValid() && i < |lists|
      modifies this`place, lists, heap, place.Keys
      ensures place.Keys == old(place.Keys)
      ensures ListsValid() && SideKept(null) && OthersKept(i, i) && lists[i].Nodes == []
      ensures heap.destroyed == old(heap.destroyed) + old(lists[i].Nodes)
      ensures Placed(old(lists[i].Nodes), DESTROYED) && Distinct(old(lists[i].Nodes))
      ensures forall n :: n in old(lists[i].Nodes) ==> n in old(place) && old(place[n]) == i
    {
      assert ListValid(i);
      lists[i].Clear(heap);
      place := Moved(place, i, DESTROYED);
      forall a | 0 <= a < |lists| && a != i ensures ListValid(a) {
        assert old(ListValid(a));
        FrameList(a);
      }
    }

    // ----- the calls on lists, loose and destroyed nodes together

    /** The node at k of loose has got another place. */
    method DropLoose(k: nat)
      requires ListsValid() && DestroyedValid() && k < |loose| && Distinct(loose)
      requires forall a :: 0 <= a < |loose| && a != k ==>
        loose[a] in place && place[loose[a]] == LOOSE && loose[a].Detached()
      modifies `loose
      ensures Valid() && loose == Without(old(loose), k)
    {
      loose := Without(loose, k);
    }

    method DoPushFront(i: nat, k: nat)
      requires Valid() && i < |lists| && k < |loose|
      modifies this, lists, place.Keys
      ensures fresh(place.Keys - old(place.Keys))
      ensures Valid() && Abs() == Apply<Node<T>, T>(old(Abs()), PushFront(i, k), [])
    {
      ghost var before := Abs();
      LinkFront(i, loose[k]);
      DropLoose(k);
      MovedOne(before.lists, Abs().lists, i);
    }

    method DoPushBack(i: nat, k: nat)
      requires Valid() && i < |lists| && k < |loose|
      modifies this, lists, place.Keys
      ensures fresh(place.Keys - old(place.Keys))
      ensures Valid() && Abs() == Apply<Node<T>, T>(old(Abs()), PushBack(i, k), [])
    {
      ghost var before := Abs();
      LinkBack(i, loose[k]);
      DropLoose(k);
      MovedOne(before.lists, Abs().lists, i);
    }

    method TakeFront(i: nat)
      requires Valid() && i < |lists|
      modifies this, lists, place.Keys
      ensures fresh(place.Keys - old(place.Keys))
      ensures Valid() && heap.destroyed == old(heap.destroyed) && OthersKept(i, i)
      ensures old(lists[i].Nodes) == [] ==> lists[i].Nodes == [] && loose == old(loose)
      ensures old(lists[i].Nodes) != [] ==>
        var s := old(lists[i].Nodes);
        && lists[i].Nodes == s[1..]
        && loose == old(loose) + [s[0]]
    {
      var node := UnlinkFront(i);
      if node != null {
        loose := loose + [node];
      }
    }

    method DoPopFront(i: nat)
      requires Valid() && i < |lists|
      modifies this, lists, place.Keys
      ensures fresh(place.Keys - old(place.Keys))
      ensures Valid() && Abs() == Apply<Node<T>, T>(old(Abs()), PopFront(i), [])
    {
      ghost var before := Abs();
      TakeFront(i);
      MovedOne(before.lists, Abs().lists, i);
    }

    method TakeBack(i: nat)
      requires Valid() && i < |lists|
      modifies this, lists, place.Keys
      ensures fresh(place.Keys - old(place.Keys))
      ensures Valid() && heap.destroyed == old(heap.destroyed) && OthersKept(i, i)
      ensures old(lists[i].Nodes) == [] ==> lists[i].Nodes == [] && loose == old(loose)
      ensures old(lists[i].Nodes) != [] ==>
        var s := old(lists[i].Nodes);
        && lists[i].Nodes == s[..|s| - 1]
        && loose == old(loose) + [s[|s| - 1]]
    {
      var node := UnlinkBack(i);
      if node != null {
        loose := loose + [node];
      }
    }

    method DoPopBack(i: nat)
      requires Valid() && i < |lists|
      modifies this, lists, place.Keys
      ensures fresh(place.Keys - old(place.Keys))
      ensures Valid() && Abs() == Apply<Node<T>, T>(old(Abs()), PopBack(i), [])
    {
      ghost var before := Abs();
      TakeBack(i);
      MovedOne(before.lists, Abs().lists, i);
    }

    method DoSwap(i: nat, j: nat)
      requires Valid() && i < |lists| && j < |lists|
      modifies this, lists
      ensures fresh(place.Keys - old(place.Keys))
      ensures Valid() && Abs() == Apply<Node<T>, T>(old(Abs()), Swap(i, j), [])
    {
      ghost var before := Abs();
      Exchange(i, j);
      MovedOnly(before.lists, Abs().lists, i, j);
    }

    method DoConcat(i: nat, j: nat)
      requires Valid() && i < |lists| && j < |lists| && i != j
      modifies this, lists, place.Keys
      ensures fresh(place.Keys - old(place.Keys))
      ensures Valid() && Abs() == Apply<Node<T>, T>(old(Abs()), Concat(i, j), [])
    {
      ghost var before := Abs();
      Append(i, j);
      MovedOnly(before.lists, Abs().lists, i, j);
    }

    method DoCopy(i: nat, j: nat) returns (ghost clones: seq<Node<T>>)
      requires Valid() && i < |lists| && j < |lists| && i != j
      modifies this, lists, place.Keys
      ensures |clones| == |old(lists[j].Nodes)|
      ensures forall k :: 0 <= k < |clones| ==> clones[k].CloneOf(old(lists[j].Nodes)[k])
      ensures fresh(place.Keys - old(place.Keys))
      ensures Valid() && Abs() == Apply<Node<T>, T>(old(Abs()), Copy(i, j), clones)
    {
      ghost var before := Abs();
      clones := Duplicate(i, j);
      MovedOne(before.lists, Abs().lists, i);
    }

    method DoClear(i: nat)
      requires Valid() && i < |lists|
      modifies this, lists, heap, place.Keys
      ensures fresh(place.Keys - old(place.Keys))
      ensures Valid() && Abs() == Apply<Node<T>, T>(old(Abs()), Clear(i), [])
    {
      ghost var before := Abs();
      Drop(i);
      MovedOne(before.lists, Abs().lists, i);
    }

    method DoCreate(data: T, copy: T -> T) returns (node: Node<T>)
      requires Valid()
      modifies this
      ensures node.data == data && node.copy == Some(copy)
      ensures fresh(place.Keys - old(place.Keys))
      ensures Valid() && Abs() == Apply<Node<T>, T>(old(Abs()), Create(data, copy), [node])
    {
      ghost var before := Abs();
      node := CreateCall(data, copy);
      loose := loose + [node];
      assert Abs().lists == before.lists;
    }

    method CreateCall(data: T, copy: T -> T) returns (node: Node<T>)
      requires ListsValid()
      modifies `place
      ensures fresh(node) && node.Detached() && node.data == data && node.copy == Some(copy)
      ensures ListsValid() && place == old(place)[node := LOOSE]
    {
      node := new Node(data, Some(copy));
      place := place[node := LOOSE];
      forall a | 0 <= a < |lists| ensures ListValid(a) {
        assert old(ListValid(a));
        FrameList(a);
      }
    }

    method DestroyCall(node: Node<T>)
      requires ListsValid() && node in place && place[node] == LOOSE && !node.freed
      modifies this`place, heap, node
      ensures ListsValid() && place == old(place)[node := DESTROYED] && SideKept(node)
      ensures heap.destroyed == old(heap.destroyed) + [node]
      ensures forall a :: 0 <= a < |lists| ==> lists[a].Nodes == old(lists[a].Nodes)
    {
      node.Destroy(heap);
      place := place[node := DESTROYED];
      forall a | 0 <= a < |lists| ensures ListValid(a) {
        assert old(ListValid(a));
        FrameList(a);
      }
    }

    method DoDestroy(k: nat)
      requires Valid() && k < |loose|
      modifies this, heap, place.Keys
      ensures fresh(place.Keys - old(place.Keys))
      ensures Valid() && Abs() == Apply<Node<T>, T>(old(Abs()), Destroy(k), [])
    {
      ghost var before := Abs();
      DestroyCall(loose[k]);
      DropLoose(k);
      assert Abs().lists == before.lists;
    }

    // ----- any call, any run

    /** One call on the real lists does to the chains what Apply says. */
    method Step(op: Op<T>) returns (ghost news: seq<Node<T>>)
      requires Valid() && Enabled(Abs(), op)
      modifies this, lists, heap, place.Keys
      ensures fresh(place.Keys - old(place.Keys))
      ensures Valid() && |news| == Allocates(old(Abs()), op)
      ensures Abs() == Apply(old(Abs()), op, news) && Filled(old(Abs()), op, news)
    {
      news := [];
      match op
      case Create(data, copy) =>
        var node := DoCreate(data, copy);
        news := [node];
      case PushFront(i, k) => DoPushFront(i, k);
      case PushBack(i, k) => DoPushBack(i, k);
      case PopFront(i) => DoPopFront(i);
      case PopBack(i) => DoPopBack(i);
      case Swap(i, j) => DoSwap(i, j);
      case Concat(i, j) => DoConcat(i, j);
      case Copy(i, j) => news := DoCopy(i, j);
      case Clear(i) => DoClear(i);
      case Destroy(k) => DoDestroy(k);
    }

    /** After any run, calls that cannot be made being skipped, the chains are
        what the run does to the sequences and every list is sound. */
    method Run(ops: seq<Op<T>>) returns (ghost news: seq<seq<Node<T>>>)
      requires Valid()
      modifies this, lists, heap, place.Keys
      ensures fresh(place.Keys - old(place.Keys))
      ensures Valid() && |news| == |ops|
      ensures ApplyAll(old(Abs()), ops, news) == Some(Abs()) && AllFilled(old(Abs()), ops, news)
      ensures forall i :: 0 <= i < |lists| ==> lists[i].CheckIntegrity()
      decreases |ops|
    {
      if ops == [] {
        news := [];
        forall i | 0 <= i < |lists| ensures lists[i].CheckIntegrity() {
          assert ListValid(i);
        }
        return;
      }
      ghost var first := [];
      if CanCall(|lists|, |loose|, ops[0]) {
        first := Step(ops[0]);
      }
      ghost var rest := Run(ops[1..]);
      news := [first] + rest;
    }
  }
}
