/** The connection's queue of messages nobody has claimed yet: a linked list refining a sequence. */
module XpcPending {
  import opened Common
  import opened Chains

  /** What correlation looks at, and which frame of the stream it was. */
  datatype Pending = Pending(id: nat, isReply: bool, frame: nat)

  /** The position of the first queued reply to `id`, or the length of the queue. */
  function ReplyIndex(q: seq<Pending>, id: nat): (i: nat)
    ensures i <= |q|
    ensures i < |q| ==> q[i].isReply && q[i].id == id
    ensures forall j :: 0 <= j < i ==> !(q[j].isReply && q[j].id == id)
  {
    if q == [] || (q[0].isReply && q[0].id == id) then 0 else 1 + ReplyIndex(q[1..], id)
  }

  function Without(q: seq<Pending>, i: nat): seq<Pending>
    requires i < |q|
  {
    q[..i] + q[i + 1..]
  }

  class PendingQueue {
    var head: Node?<Pending>
    var tail: Node?<Pending>
    ghost var nodes: seq<Node<Pending>>

    ghost predicate Valid()
      reads this, nodes
    {
      Chain(nodes) && head == First(nodes) && tail == Last(nodes)
    }

    ghost function Queue(): seq<Pending>
      reads this, nodes
    {
      Items(nodes)
    }

    constructor ()
      ensures Valid() && Queue() == []
    {
      head, tail := null, null;
      nodes := [];
    }

    /** queue_push_locked. */
    method Push(p: Pending)
      requires Valid()
      modifies this, nodes
      ensures Valid() && Queue() == old(Queue()) + [p]
    {
      var n := new Node<Pending>(p);
      if tail != null {
        tail.next := n;
      } else {
        head := n;
      }
      tail := n;
      nodes := nodes + [n];
    }

    /** queue_pop_locked. */
    method Pop() returns (r: Option<Pending>)
      requires Valid()
      modifies this
      ensures Valid()
      ensures r == if old(Queue()) == [] then None else Some(old(Queue())[0])
      ensures Queue() == if old(Queue()) == [] then [] else old(Queue())[1..]
    {
      var n := head;
      if n == null {
        return None;
      }
      head := n.next;
      if head == null {
        tail := null;
      }
      r := Some(n.item);
      ghost var was := nodes;
      nodes := nodes[1..];
      assert forall j :: 0 <= j < |nodes| ==> nodes[j] == was[j + 1];
    }

    /** queue_take_reply_locked: from wherever in the queue it is. */
    method TakeReply(id: nat) returns (r: Option<Pending>)
      requires Valid()
      modifies this, nodes
      ensures Valid()
      ensures var q := old(Queue());
        var i := ReplyIndex(q, id);
        && r == (if i < |q| then Some(q[i]) else None)
        && Queue() == (if i < |q| then Without(q, i) else q)
    {
      var n := head;
      var last: Node?<Pending> := null;
      ghost var i := 0;
      while n != null
        invariant i <= |nodes| && n == if i < |nodes| then nodes[i] else null
        invariant last == if i == 0 then null else nodes[i - 1]
        invariant forall j :: 0 <= j < i ==> !(Queue()[j].isReply && Queue()[j].id == id)
        decreases |nodes| - i
      {
        if n.item.isReply && n.item.id == id {
          assert Queue()[i] == n.item;
          r := Some(n.item);
          Take(last, n, i);
          return;
        }
        last := n;
        n, i := n.next, i + 1;
      }
      r := None;
    }

    /** Unlink node i; when it was the tail, its predecessor becomes the tail. */
    method Take(last: Node?<Pending>, n: Node<Pending>, ghost i: nat)
      requires Valid() && i < |nodes| && nodes[i] == n && last == if i == 0 then null else nodes[i - 1]
      modifies this, nodes
      ensures Valid() && Queue() == Without(old(Queue()), i)
    {
      hide Items;
      ghost var was := nodes;
      Unlinked(was, i);
      ItemsUnlinked(was, i);
      var next := Unlink(last, n, was, i);
      if last == null {
        head := next;
      }
      nodes := was[..i] + was[i + 1..];
      if tail == n {
        tail := last;
        assert i == |was| - 1;
      } else {
        assert i < |was| - 1;
      }
      ItemsKept(nodes);
    }
  }
}
