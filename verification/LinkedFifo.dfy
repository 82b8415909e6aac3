/**
 The singly linked queue with head, tail and count used by the kernel module (kb) and, in the
 same shape, by both programs (wbuf).
 */
module LinkedFifo {
  import opened Letters

  class Node {
    var data: Text
    var next: Node?

    constructor (data: Text)
      ensures this.data == data && next == null
    {
      this.data := data;
      next := null;
    }
  }

  class Fifo {
    var head: Node?
    var tail: Node?
    var count: int
    ghost var nodes: seq<Node>

    /** The node at a position, null after the last. */
    ghost function At(i: nat): Node?
      reads this
    {
      if i < |nodes| then nodes[i] else null
    }

    ghost predicate Valid()
      reads this, nodes
    {
      && count == |nodes|
      && (if nodes == [] then head == null && tail == null else head == nodes[0] && tail == nodes[|nodes| - 1])
      && (forall i, j :: 0 <= i < j < |nodes| ==> nodes[i] != nodes[j])
      && (forall i :: 0 <= i < |nodes| ==> nodes[i].next == At(i + 1))
    }

    ghost function Contents(): seq<Text>
      reads this, nodes
    {
      seq(|nodes|, i requires 0 <= i < |nodes| reads this, nodes => nodes[i].data)
    }

    constructor ()
      ensures Valid() && Contents() == [] && nodes == []
    {
      head, tail, count, nodes := null, null, 0, [];
    }

    method IsEmpty() returns (r: bool)
      requires Valid()
      ensures r <==> Contents() == []
    {
      return head == null;
    }

    method IsFull(max: int) returns (r: bool)
      requires Valid()
      ensures r <==> |Contents()| >= max
    {
      return !(count < max);
    }

    method Push(data: Text)
      requires Valid()
      modifies this, nodes
      ensures Valid() && Contents() == old(Contents()) + [data]
      ensures |nodes| == |old(nodes)| + 1 && nodes[..|old(nodes)|] == old(nodes) && fresh(nodes[|old(nodes)|])
    {
      var node := new Node(data);
      if head == null {
        head := node;
      } else {
        tail.next := node;
      }
      tail := node;
      count := count + 1;
      nodes := nodes + [node];
      assert forall i :: 0 <= i < |old(nodes)| ==> nodes[i].data == old(nodes[i].data);
    }

    /** False, with nothing changed, on an empty queue. */
    method Pop() returns (ok: bool, data: Text)
      requires Valid()
      modifies this
      ensures Valid()
      ensures ok <==> old(Contents()) != []
      ensures ok ==> data == old(Contents())[0] && Contents() == old(Contents())[1..] && nodes == old(nodes)[1..]
      ensures !ok ==> nodes == old(nodes) && Contents() == old(Contents())
    {
      if head == null {
        return false, [];
      }
      var node := head;
      assert node == nodes[0] && nodes[0].next == At(1);
      head := node.next;
      if head == null {
        tail := null;
      }
      count := count - 1;
      data := node.data;
      ghost var was := nodes;
      nodes := nodes[1..];
      assert forall i :: 0 <= i < |nodes| ==> nodes[i] == was[i + 1];
      assert forall i :: 0 <= i < |nodes| ==> nodes[i].next == At(i + 1);
      assert nodes != [] ==> head == nodes[0] && tail == nodes[|nodes| - 1];
      return true, data;
    }

    /** kb_scan: the lengths of the strings, in queue order. */
    method Scan(lengths: array<int>)
      requires Valid() && lengths.Length >= |nodes|
      modifies lengths
      ensures forall i :: 0 <= i < |nodes| ==> lengths[i] == |Contents()[i]|
      ensures forall i :: |nodes| <= i < lengths.Length ==> lengths[i] == old(lengths[i])
    {
      var p := head;
      var i := 0;
      while p != null
        invariant 0 <= i <= |nodes|
        invariant p == At(i)
        invariant forall k :: 0 <= k < i ==> lengths[k] == |nodes[k].data|
        invariant forall k :: i <= k < lengths.Length ==> lengths[k] == old(lengths[k])
        decreases |nodes| - i
      {
        assert p == nodes[i];
        lengths[i] := |p.data|;
        i := i + 1;
        p := p.next;
      }
    }
  }
}
