/** The queues of frame_queue.c: linked buffers, appended at the tail and taken from the
    head.  `nodes` is the list the links spell out. */
module FrameQueue {
  import opened PipelineModel

  class FrameBuffer {
    var data: Packet
    var id: nat
    var next: FrameBuffer?

    constructor (data: Packet, id: nat)
      ensures this.data == data && this.id == id && next == null
    {
      this.data, this.id, next := data, id, null;
    }
  }

  /** What a link to position `i` of `nodes` is. */
  ghost function After(nodes: seq<FrameBuffer>, i: nat): FrameBuffer? {
    if i < |nodes| then nodes[i] else null
  }

  class Queue {
    var head: FrameBuffer?
    ghost var nodes: seq<FrameBuffer>

    /** The links from `head` spell out `nodes`, without repetition: the list is acyclic. */
    ghost predicate Valid()
      reads this, nodes`next
    {
      && head == After(nodes, 0)
      && (forall i :: 0 <= i < |nodes| ==> nodes[i].next == After(nodes, i + 1))
      && (forall i, j :: 0 <= i < j < |nodes| ==> nodes[i] != nodes[j])
    }

    constructor ()
      ensures Valid() && nodes == []
    {
      head, nodes := null, [];
    }

    /** frame_queue_push. */
    method Push(buf: FrameBuffer?)
      requires Valid() && (buf != null ==> buf !in nodes)
      modifies this, nodes`next, (if buf == null then {} else {buf})`next
      ensures Valid() && nodes == if buf == null then old(nodes) else old(nodes) + [buf]
    {
      if buf == null {
        return;
      }
      buf.next := null;
      if head == null {
        head := buf;
      } else {
        var current := Last();
        current.next := buf;
      }
      nodes := nodes + [buf];
    }

    /** The walk to the tail. */
    method Last() returns (current: FrameBuffer)
      requires Valid() && nodes != []
      ensures current == nodes[|nodes| - 1]
    {
      current := head;
      ghost var i := 0;
      while current.next != null
        invariant 0 <= i < |nodes| && current == nodes[i]
        decreases |nodes| - i
      {
        assert nodes[i].next == After(nodes, i + 1);
        current := current.next;
        i := i + 1;
      }
    }

    /** frame_queue_pull. */
    method Pull() returns (buf: FrameBuffer?)
      requires Valid()
      modifies this, nodes`next
      ensures Valid()
      ensures old(nodes) == [] ==> buf == null && nodes == []
      ensures old(nodes) != [] ==> buf == old(nodes)[0] && nodes == old(nodes)[1..] && buf.next == null
    {
      if head == null {
        return null;
      }
      buf := head;
      assert buf == nodes[0];
      head := buf.next;
      buf.next := null;
      nodes := nodes[1..];
    }

    /** frame_queue_cleanup forgets the queues; the buffers are freed with the pool. */
    method Clear()
      modifies this
      ensures Valid() && nodes == []
    {
      head, nodes := null, [];
    }

    /** frame_queue_is_empty. */
    predicate IsEmpty()
      requires Valid()
      reads this, nodes`next
      ensures IsEmpty() <==> nodes == []
    {
      head == null
    }

    /** frame_queue_depth. */
    method Depth() returns (count: nat)
      requires Valid()
      ensures count == |nodes|
    {
      count := 0;
      var current := head;
      while current != null
        invariant 0 <= count <= |nodes|
        invariant current == After(nodes, count)
        decreases |nodes| - count
      {
        count := count + 1;
        current := current.next;
      }
    }
  }

  /** The first loop of frame_queue_allocate_buffers: `count` numbered buffers, or none at
      all if the memory of one of them cannot be had. */
  method MakeBuffers(count: nat, memory: nat -> Packet, failAt: nat) returns (buffers: seq<FrameBuffer>)
    ensures failAt < count ==> buffers == []
    ensures count <= failAt ==> |buffers| == count
    ensures forall k :: 0 <= k < |buffers| ==>
      fresh(buffers[k]) && buffers[k].id == k && buffers[k].data == memory(k)
  {
    buffers := [];
    for i := 0 to count
      invariant |buffers| == i <= failAt
      invariant forall k :: 0 <= k < i ==> fresh(buffers[k]) && buffers[k].id == k && buffers[k].data == memory(k)
    {
      if i == failAt {
        return [];
      }
      var b := new FrameBuffer(memory(i), i);
      buffers := buffers + [b];
    }
  }

  /** Its second loop: all buffers, in order, into the empty queue. */
  method PushAll(q: Queue, buffers: seq<FrameBuffer>)
    requires q.Valid() && q.nodes == []
    requires forall i, j :: 0 <= i < j < |buffers| ==> buffers[i] != buffers[j]
    modifies q, buffers`next
    ensures q.Valid() && q.nodes == buffers
  {
    for i := 0 to |buffers|
      invariant q.Valid() && q.nodes == buffers[..i]
    {
      q.Push(buffers[i]);
    }
  }
}
