/** The intrusive, doubly linked typed list of ten_utils
    (core/include/ten_utils/lib/typed_list.h and typed_list_node.h).

    The macros are modelled for an arbitrary element type T.  A node is a heap
    object with next/prev links; a list owns the nodes of its chain.  The ghost
    field Nodes is the chain as a sequence, and Valid ties it to the links, so
    every operation is stated as an operation on that sequence. */
module TypedList {
  import opened Sequences
  import opened Wrappers

  /** Records every node that node_destroy has returned to the allocator. */
  class Heap<T> {
    ghost var destroyed: seq<Node<T>>

    constructor ()
      ensures destroyed == []
    {
      destroyed := [];
    }
  }

  class Node<T> {
    var next: Node?<T>
    var prev: Node?<T>
    const data: T
    const copy: Option<T -> T>
    /** Set by Destroy; a freed node may be neither read nor destroyed again. */
    ghost var freed: bool

    constructor (data: T, copy: Option<T -> T>)
      ensures next == null && prev == null && this.data == data && this.copy == copy && !freed
    {
      this.data := data;
      this.copy := copy;
      next, prev, freed := null, null, false;
    }

    /** A detached node: live and linked to nothing. */
    ghost predicate Detached()
      reads this
    {
      !freed && next == null && prev == null
    }

    ghost predicate CloneOf(src: Node<T>) {
      src.copy.Some? && data == src.copy.value(src.data) && copy == src.copy
    }

    /** Reading `node->next`, which is an error once the node is freed. */
    function GetNext(): Node?<T>
      requires !freed
      reads this
    {
      next
    }

    /** The source calls `src->copy` without a null check. */
    method Clone() returns (n: Node<T>)
      requires !freed && copy.Some?
      ensures fresh(n) && n.Detached()
      ensures n.CloneOf(this)
    {
      n := new Node(copy.value(data), copy);
    }

    method Destroy(heap: Heap<T>)
      requires !freed
      modifies this`freed, heap
      ensures freed && heap.destroyed == old(heap.destroyed) + [this]
    {
      freed := true;
      heap.destroyed := heap.destroyed + [this];
    }
  }

  ghost predicate Distinct<X>(s: seq<X>) {
    forall i, j :: 0 <= i < j < |s| ==> s[i] != s[j]
  }

  ghost predicate Disjoint<X>(s: seq<X>, t: seq<X>) {
    forall i, j :: 0 <= i < |s| && 0 <= j < |t| ==> s[i] != t[j]
  }

  datatype Iterator<T> = Iterator(prev: Node?<T>, node: Node?<T>, next: Node?<T>, index: nat)

  class List<T> {
    var size: nat
    var front: Node?<T>
    var back: Node?<T>
    ghost var Nodes: seq<Node<T>>

    /** The chain invariant: the links mirror Nodes in both directions, the
        chain has no repetition, and size, front and back describe it. */
    ghost predicate Valid()
      reads this, Nodes
    {
      && size == |Nodes|
      && Distinct(Nodes)
      && (forall k :: 0 <= k < |Nodes| ==> !Nodes[k].freed)
      && (forall k {:trigger Nodes[k].prev} :: 0 <= k < |Nodes| ==>
            Nodes[k].prev == (if k == 0 then null else Nodes[k - 1]))
      && (forall k {:trigger Nodes[k].next} :: 0 <= k < |Nodes| ==>
            Nodes[k].next == (if k == |Nodes| - 1 then null else Nodes[k + 1]))
      && front == (if Nodes == [] then null else Nodes[0])
      && back == (if Nodes == [] then null else Nodes[|Nodes| - 1])
    }

    ghost function Data(): seq<T>
      reads this, Nodes
    {
      seq(|Nodes|, i requires 0 <= i < |Nodes| reads this, Nodes => Nodes[i].data)
    }

    constructor ()
      ensures Valid() && Nodes == []
    {
      size, front, back, Nodes := 0, null, null, [];
    }

    /** ten_typed_list_check_integrity, without the signature test. */
    predicate CheckIntegrity()
      reads this, front, back
    {
      if size == 0 then
        front == null && back == null
      else
        && front != null
        && back != null
        && (size == 1 ==> front == back && front.prev == null && front.next == null)
        && front.prev == null
        && back.next == null
    }

    method PushFront(node: Node<T>)
      requires Valid() && node !in Nodes && !node.freed
      modifies this, node`next, node`prev, Nodes`prev
      ensures Valid() && Nodes == [node] + old(Nodes)
    {
      if size == 0 {
        back, front := node, node;
        node.prev, node.next := null, null;
      } else {
        node.next := front;
        node.prev := null;
        front.prev := node;
        front := node;
      }
      size := size + 1;
      Nodes := [node] + Nodes;
    }

    method PushBack(node: Node<T>)
      requires Valid() && node !in Nodes && !node.freed
      modifies this, node`next, node`prev, Nodes`next
      ensures Valid() && Nodes == old(Nodes) + [node]
    {
      if size == 0 {
        front, back := node, node;
        node.next, node.prev := null, null;
      } else {
        node.next := null;
        node.prev := back;
        back.next := node;
        back := node;
      }
      size := size + 1;
      Nodes := Nodes + [node];
    }

    method PopFront() returns (node: Node?<T>)
      requires Valid()
      modifies this, Nodes`next, Nodes`prev
      ensures Valid()
      ensures old(Nodes) == [] ==> node == null && Nodes == []
      ensures old(Nodes) != [] ==> node == old(Nodes)[0] && node.Detached() && Nodes == old(Nodes)[1..]
    {
      if size == 0 {
        return null;
      }
      node := front;
      if size == 1 {
        back, front := null, null;
        node.prev, node.next := null, null;
      } else {
        front := front.next;
        front.prev := null;
        node.next := null;
      }
      size := size - 1;
      Nodes := Nodes[1..];
    }

    method PopBack() returns (node: Node?<T>)
      requires Valid()
      modifies this, Nodes`next, Nodes`prev
      ensures Valid()
      ensures old(Nodes) == [] ==> node == null && Nodes == []
      ensures old(Nodes) != [] ==>
        node == old(Nodes)[|old(Nodes)| - 1] && node.Detached() && Nodes == old(Nodes)[..|old(Nodes)| - 1]
    {
      if size == 0 {
        return null;
      }
      node := back;
      if size == 1 {
        front, back := null, null;
        node.prev, node.next := null, null;
      } else {
        back := back.prev;
        back.next := null;
        node.prev := null;
      }
      size := size - 1;
      Nodes := Nodes[..|Nodes| - 1];
    }

    /** Exchanges the two chains; swapping a list with itself changes nothing. */
    method Swap(target: List<T>)
      requires Valid() && target.Valid()
      modifies this, target
      ensures Valid() && target.Valid()
      ensures Nodes == old(target.Nodes) && target.Nodes == old(Nodes)
    {
      var selfFront, selfBack, selfSize := front, back, size;
      ghost var selfNodes := Nodes;
      front, back, size := target.front, target.back, target.size;
      Nodes := target.Nodes;
      target.front, target.back, target.size := selfFront, selfBack, selfSize;
      target.Nodes := selfNodes;
    }

    /** Moves every node of target to the end of this list. */
    method Concat(target: List<T>)
      requires Valid() && target.Valid()
      requires target != this && Disjoint(Nodes, target.Nodes)
      modifies this, target, Nodes`next, target.Nodes`prev
      ensures Valid() && target.Valid()
      ensures Nodes == old(Nodes) + old(target.Nodes) && target.Nodes == []
    {
      if target.size == 0 {
        return;
      }
      if size == 0 {
        Swap(target);
        return;
      }
      back.next := target.front;
      target.front.prev := back;
      back := target.back;
      size := size + target.size;
      Nodes := Nodes + target.Nodes;
      target.front, target.back, target.size := null, null, 0;
      target.Nodes := [];
    }

    /** The foreach loop saves `next` before its body runs, so no node is read
        after the body has freed it; GetNext would reject such a read. */
    method Clear(heap: Heap<T>)
      requires Valid()
      modifies this, heap, Nodes`freed
      ensures Valid() && Nodes == []
      ensures heap.destroyed == old(heap.destroyed) + old(Nodes)
      ensures forall n :: n in old(Nodes) ==> n.freed
    {
      var node := front;
      var next := if front != null then front.GetNext() else null;
      var index := 0;
      while node != null
        invariant 0 <= index <= |Nodes|
        invariant node == (if index == |Nodes| then null else Nodes[index])
        invariant next == (if index + 1 >= |Nodes| then null else Nodes[index + 1])
        invariant Nodes == old(Nodes) && Distinct(Nodes)
        invariant forall k :: 0 <= k < |Nodes| ==> Nodes[k].freed == (k < index)
        invariant heap.destroyed == old(heap.destroyed) + Nodes[..index]
        decreases |Nodes| - index
      {
        node.Destroy(heap);
        index := index + 1;
        node := next;
        next := if node != null then node.GetNext() else null;
      }
      size, front, back := 0, null, null;
      Nodes := [];
    }

    /** One round of the loop of Copy. */
    method AppendClone(src: Node<T>, ghost target: List<T>) returns (clone: Node<T>)
      requires Valid() && target.Valid()
      requires target != this && Disjoint(Nodes, target.Nodes)
      requires src in target.Nodes && src.copy.Some?
      modifies this, Nodes`next
      ensures Valid() && target.Valid()
      ensures fresh(clone) && Nodes == old(Nodes) + [clone] && clone.CloneOf(src)
    {
      clone := src.Clone();
      PushBack(clone);
    }

    /** Appends a clone of every node of target, in order. */
    method Copy(target: List<T>) returns (ghost clones: seq<Node<T>>)
      requires Valid() && target.Valid()
      requires target != this && Disjoint(Nodes, target.Nodes)
      requires forall n :: n in target.Nodes ==> n.copy.Some?
      modifies this, Nodes`next
      ensures Valid() && target.Valid()
      ensures Nodes == old(Nodes) + clones && fresh(clones) && |clones| == |target.Nodes|
      ensures forall k :: 0 <= k < |clones| ==> clones[k].CloneOf(target.Nodes[k])
    {
      clones := [];
      var node := target.front;
      var next := if node != null then node.GetNext() else null;
      while node != null
        invariant |clones| <= |target.Nodes|
        invariant node == (if |clones| == |target.Nodes| then null else target.Nodes[|clones|])
        invariant next == (if |clones| + 1 >= |target.Nodes| then null else target.Nodes[|clones| + 1])
        invariant Valid() && target.Valid()
        invariant Nodes == old(Nodes) + clones && fresh(clones)
        invariant forall k :: 0 <= k < |clones| ==> clones[k].CloneOf(target.Nodes[k])
        decreases |target.Nodes| - |clones|
      {
        var clone := AppendClone(node, target);
        Assoc(old(Nodes), clones, [clone]);
        clones := clones + [clone];
        node := next;
        next := if node != null then node.GetNext() else null;
      }
    }

    /** The first node whose data the comparison accepts, or null. */
    method Find(item: T, compare: (T, T) -> bool) returns (found: Node?<T>)
      requires Valid()
      ensures found == null ==> forall n :: n in Nodes ==> !compare(n.data, item)
      ensures found != null ==> 
        exists k :: (0 <= k < |Nodes| && found == Nodes[k] && compare(Nodes[k].data, item)
                     && forall j :: 0 <= j < k ==> !compare(Nodes[j].data, item))
    {
      var node := front;
      var next := if node != null then node.GetNext() else null;
      var index := 0;
      while node != null
        invariant 0 <= index <= |Nodes|
        invariant node == (if index == |Nodes| then null else Nodes[index])
        invariant next == (if index + 1 >= |Nodes| then null else Nodes[index + 1])
        invariant forall j :: 0 <= j < index ==> !compare(Nodes[j].data, item)
        decreases |Nodes| - index
      {
        if compare(node.data, item) {
          return node;
        }
        index := index + 1;
        node := next;
        next := if node != null then node.GetNext() else null;
      }
      return null;
    }

    function Begin(): (it: Iterator<T>)
      reads this, front
    {
      Iterator(null, front, if front != null then front.next else null, 0)
    }

    lemma IntegrityHolds()
      requires Valid()
      ensures CheckIntegrity()
    {
    }

    /** What the check looks at: the size against both ends, nothing before the
        front or behind the back, and a single node at both ends. */
    lemma IntegrityIff()
      ensures CheckIntegrity() <==>
        && (size == 0 <==> front == null) && (size == 0 <==> back == null)
        && (front != null ==> front.prev == null) && (back != null ==> back.next == null)
        && (size == 1 ==> front == back)
    {
    }

    /** Node k of the chain, or null past its end. */
    ghost function NodeAt(k: nat): Node?<T>
      reads this
    {
      if k < |Nodes| then Nodes[k] else null
    }
  }

  /** One step of the foreach macro: `next` is read from the node being entered. */
  function ForeachNext<T>(it: Iterator<T>): Iterator<T>
    reads it.next
  {
    Iterator(it.node, it.next, if it.next != null then it.next.next else null, it.index + 1)
  }

  /** ten_typed_list_iterator_next, exactly as written: the new `next` is read
      from the node being left. */
  function IteratorNext<T>(it: Iterator<T>): Iterator<T>
    reads it.node
  {
    Iterator(it.node, it.next, if it.node != null then it.node.next else null, it.index + 1)
  }

  /** The foreach cursor after k steps is at node k of the chain. */
  ghost function ForeachAt<T>(l: List<T>, k: nat): (it: Iterator<T>)
    requires l.Valid()
    reads l, l.Nodes
    ensures it.node == l.NodeAt(k) && it.next == l.NodeAt(k + 1) && it.index == k
    ensures it.prev == if k == 0 then null else l.NodeAt(k - 1)
  {
    if k == 0 then l.Begin() else ForeachNext(ForeachAt(l, k - 1))
  }

  /** The iterator after k calls of iterator_next is only at node (k + 1) / 2. */
  ghost function IteratorAt<T>(l: List<T>, k: nat): (it: Iterator<T>)
    requires l.Valid()
    reads l, l.Nodes
    ensures it.node == l.NodeAt((k + 1) / 2) && it.next == l.NodeAt(k / 2 + 1) && it.index == k
  {
    if k == 0 then l.Begin() else IteratorNext(IteratorAt(l, k - 1))
  }

  lemma ForeachVisitsInOrder<T>(l: List<T>)
    requires l.Valid()
    ensures forall k: nat :: k <= |l.Nodes| ==> ForeachAt(l, k).node == l.NodeAt(k)
  {
  }

  ghost predicate IteratorInOrder<T>(l: List<T>)
    requires l.Valid()
    reads l, l.Nodes
  {
    forall k: nat {:trigger l.NodeAt(k)} :: k <= |l.Nodes| ==> IteratorAt(l, k).node == l.NodeAt(k)
  }

  /** Stepping with iterator_next agrees with foreach exactly on lists of at
      most one node. */
  lemma IteratorInOrderIffShort<T>(l: List<T>)
    requires l.Valid()
    ensures IteratorInOrder(l) <==> |l.Nodes| <= 1
  {
    if |l.Nodes| > 1 {
      assert IteratorAt(l, 2).node == l.Nodes[1];
      assert l.NodeAt(2) != l.Nodes[1];
    }
  }

  /** On a longer list it enters every node but the first twice. */
  lemma IteratorVisitsTwice<T>(l: List<T>, i: nat)
    requires l.Valid() && 1 <= i < |l.Nodes|
    ensures IteratorAt(l, 2 * i - 1).node == l.Nodes[i] == IteratorAt(l, 2 * i).node
    ensures IteratorAt(l, 2 * |l.Nodes| - 1).node == null
  {
    assert (2 * i - 1 + 1) / 2 == i && (2 * i + 1) / 2 == i;
  }
}
