/**
 * Singly linked lists as the shims write them by hand: nodes, a head and a
 * tail pointer, unlinking in the middle.
 */
module Chains {

  class Node<T> {
    var item: T
    var next: Node?<T>

    constructor (item: T)
      ensures this.item == item && next == null
    {
      this.item, next := item, null;
    }
  }

  lemma Unlinked<T>(ns: seq<Node<T>>, i: nat)
    requires i < |ns|
    ensures var rest := ns[..i] + ns[i + 1..];
      && |rest| == |ns| - 1
      && (forall j :: 0 <= j < |rest| ==> rest[j] == ns[if j < i then j else j + 1])
      && (forall n :: n in rest ==> n in ns)
  {
  }

  /** The nodes of a list in order, each linked to the next. */
  ghost predicate Chain<T>(ns: seq<Node<T>>)
    reads ns
  {
    && (forall i, j :: 0 <= i < j < |ns| ==> ns[i] != ns[j])
    && (forall i {:trigger ns[i].next} :: 0 <= i < |ns| ==>
          ns[i].next == if i + 1 < |ns| then ns[i + 1] else null)
  }

  /** What the nodes hold; it does not depend on how they are linked. */
  ghost function Items<T>(ns: seq<Node<T>>): (es: seq<T>)
    reads ns`item
    ensures |es| == |ns|
    ensures forall i {:trigger es[i]} {:trigger ns[i]} :: 0 <= i < |ns| ==> es[i] == ns[i].item
  {
    if ns == [] then [] else [ns[0].item] + Items(ns[1..])
  }

  lemma ItemsUnlinked<T>(ns: seq<Node<T>>, i: nat)
    requires i < |ns|
    ensures Items(ns[..i] + ns[i + 1..]) == Items(ns)[..i] + Items(ns)[i + 1..]
  {
    hide Items;
    Unlinked(ns, i);
    var rest := ns[..i] + ns[i + 1..];
    var es := Items(ns)[..i] + Items(ns)[i + 1..];
    assert |Items(rest)| == |es|;
    forall j | 0 <= j < |es|
      ensures Items(rest)[j] == es[j]
    {
      assert rest[j] == ns[if j < i then j else j + 1];
    }
  }

  ghost function First<T>(ns: seq<Node<T>>): Node?<T> {
    if ns == [] then null else ns[0]
  }

  ghost function Last<T>(ns: seq<Node<T>>): Node?<T> {
    if ns == [] then null else ns[|ns| - 1]
  }

  /** Walk forward to the last node. */
  method FindLast<T>(head: Node?<T>, ghost ns: seq<Node<T>>) returns (last: Node?<T>)
    requires Chain(ns) && head == First(ns)
    ensures last == Last(ns)
  {
    last := null;
    var scan := head;
    ghost var k := 0;
    while scan != null
      invariant k <= |ns| && scan == if k < |ns| then ns[k] else null
      invariant last == if k == 0 then null else ns[k - 1]
      decreases |ns| - k
    {
      last := scan;
      scan, k := scan.next, k + 1;
    }
  }

  /** Unlinking node i: its predecessor skips it. */
  method Unlink<T>(prev: Node?<T>, e: Node<T>, ghost ns: seq<Node<T>>, ghost i: nat) returns (newHead: Node?<T>)
    requires Chain(ns) && i < |ns| && ns[i] == e && prev == if i == 0 then null else ns[i - 1]
    modifies prev
    ensures Chain(ns[..i] + ns[i + 1..])
    ensures prev == null ==> newHead == First(ns[..i] + ns[i + 1..])
    ensures prev != null ==> First(ns) == First(ns[..i] + ns[i + 1..])
    ensures forall n :: n in ns ==> n.item == old(n.item)
  {
    newHead := e.next;
    if prev != null {
      prev.next := e.next;
    }
    ghost var rest := ns[..i] + ns[i + 1..];
    assert forall j :: 0 <= j < |rest| ==> rest[j] == ns[if j < i then j else j + 1];
  }

  /** Items depend on the nodes' contents alone. */
  twostate lemma ItemsKept<T>(ns: seq<Node<T>>)
    requires forall n :: n in ns ==> n.item == old(n.item)
    ensures Items(ns) == old(Items(ns))
  {
    hide Items;
    assert forall k :: 0 <= k < |ns| ==> Items(ns)[k] == old(Items(ns)[k]);
  }
}
