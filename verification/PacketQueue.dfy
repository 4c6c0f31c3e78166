/** The packet queue of ffplay: a singly linked list with head and tail pointers, packet
    and byte counters and an abort flag.  Each method is one critical section. */
module PacketQueue {

  /** A packet, by identity and payload size. */
  datatype Packet = Packet(id: nat, size: nat)

  /** How an accepted packet left the queue. */
  datatype Departure = Delivered(packet: Packet) | Freed(packet: Packet)

  /** What a get call does before it releases the lock: return, or wait on the condition. */
  datatype GetResult = Aborted | Empty | Waits | Taken(packet: Packet)

  const FLUSH_PKT: Packet := Packet(0, 0)

  function Packets(ds: seq<Departure>): (ps: seq<Packet>)
    ensures |ps| == |ds|
  {
    seq(|ds|, i requires 0 <= i < |ds| => ds[i].packet)
  }

  /** Payload and list node of every packet. */
  function TotalSize(nodeSize: nat, ps: seq<Packet>): nat {
    if ps == [] then 0 else ps[0].size + nodeSize + TotalSize(nodeSize, ps[1..])
  }

  lemma {:induction false} TotalSizeAppend(nodeSize: nat, ps: seq<Packet>, p: Packet)
    ensures TotalSize(nodeSize, ps + [p]) == TotalSize(nodeSize, ps) + p.size + nodeSize
  {
    if ps == [] {
      assert ps + [p] == [p] && [p][1..] == [];
    } else {
      assert (ps + [p])[1..] == ps[1..] + [p];
      TotalSizeAppend(nodeSize, ps[1..], p);
    }
  }

  class Node {
    const pkt: Packet
    var next: Node?

    constructor (pkt: Packet)
      ensures this.pkt == pkt && next == null
    {
      this.pkt, next := pkt, null;
    }
  }

  function PacketsOf(ns: seq<Node>): (ps: seq<Packet>)
    ensures |ps| == |ns|
  {
    seq(|ns|, i requires 0 <= i < |ns| => ns[i].pkt)
  }

  /** ns is the chain of distinct nodes from first to last. */
  ghost predicate Linked(ns: seq<Node>, first: Node?, last: Node?)
    reads ns
  {
    && (forall i, j :: 0 <= i < j < |ns| ==> ns[i] != ns[j])
    && (forall i :: 0 <= i < |ns| - 1 ==> ns[i].next == ns[i + 1])
    && (ns == [] ==> first == null && last == null)
    && (ns != [] ==> first == ns[0] && last == ns[|ns| - 1] && ns[|ns| - 1].next == null)
  }

  /** Without its first node the chain goes on; it has no last node when nothing is left. */
  lemma TailLinked(ns: seq<Node>, first: Node?, last: Node?)
    requires Linked(ns, first, last) && first != null
    ensures ns != [] && first == ns[0]
    ensures Linked(ns[1..], first.next, if first.next == null then null else last)
  {
    assert forall i :: 0 <= i < |ns[1..]| ==> ns[1..][i] == ns[i + 1];
  }

  lemma EmptyIsNull(ns: seq<Node>, first: Node?, last: Node?)
    requires Linked(ns, first, last)
    ensures ns == [] <==> first == null
  {
  }

  lemma FirstDeparts(departed: seq<Departure>, ns: seq<Node>)
    requires ns != []
    ensures PacketsOf(ns)[0] == ns[0].pkt && PacketsOf(ns[1..]) == PacketsOf(ns)[1..]
    ensures Packets(departed + [Delivered(ns[0].pkt)]) + PacketsOf(ns[1..]) == Packets(departed) + PacketsOf(ns)
  {
  }

  lemma TotalSizeFirst(nodeSize: nat, ps: seq<Packet>)
    requires ps != []
    ensures TotalSize(nodeSize, ps) == ps[0].size + nodeSize + TotalSize(nodeSize, ps[1..])
  {
  }

  lemma NothingQueued(nodeSize: nat)
    ensures PacketsOf([]) == [] && TotalSize(nodeSize, []) == 0 && Packets([]) + [] == []
  {
  }

  class Queue {
    const nodeSize: nat
    var first: Node?
    var last: Node?
    var nbPackets: int
    var size: int
    var abortRequest: bool

    ghost var nodes: seq<Node>
    ghost var accepted: seq<Packet>
    ghost var departed: seq<Departure>

    ghost function Contents(): (ps: seq<Packet>)
      reads this
    {
      PacketsOf(nodes)
    }

    /** The list represents a sequence, the counters are its length and its size, and over
        the whole run the packets accepted so far are exactly those that have left, in
        order, followed by those still queued. */
    ghost predicate Valid()
      reads this, nodes
    {
      && Linked(nodes, first, last)
      && nbPackets == |nodes|
      && size == TotalSize(nodeSize, Contents())
      && accepted == Packets(departed) + Contents()
    }

    /** packet_queue_init. */
    constructor (nodeSize: nat)
      ensures Valid() && this.nodeSize == nodeSize && Contents() == [] && abortRequest
      ensures accepted == [] && departed == []
    {
      NothingQueued(nodeSize);
      hide PacketsOf, Packets, TotalSize;
      this.nodeSize := nodeSize;
      first, last, nbPackets, size, abortRequest := null, null, 0, 0, true;
      nodes, accepted, departed := [], [], [];
    }

    /** Linking a node behind the last one. */
    method Append(pkt1: Node)
      requires Linked(nodes, first, last) && pkt1 !in nodes && pkt1.next == null
      modifies this`first, this`last, this`nodes, nodes`next
      ensures Linked(nodes, first, last) && nodes == old(nodes) + [pkt1]
    {
      if last == null {
        first := pkt1;
      } else {
        last.next := pkt1;
      }
      last := pkt1;
      nodes := nodes + [pkt1];
    }

    /** packet_queue_put_private; memory tells whether av_malloc succeeds. */
    method PutPrivate(pkt: Packet, memory: bool) returns (ret: int)
      requires Valid()
      modifies this`first, this`last, this`nbPackets, this`size, this`nodes, this`accepted, nodes
      ensures Valid()
      ensures ret == if abortRequest || !memory then -1 else 0
      ensures if ret < 0 then nodes == old(nodes) && Contents() == old(Contents()) && accepted == old(accepted)
              else Contents() == old(Contents()) + [pkt] && accepted == old(accepted) + [pkt]
      ensures forall n :: n in nodes ==> n in old(nodes) || fresh(n)
    {
      hide Linked, TotalSize, Packets;
      if abortRequest {
        return -1;
      }
      if !memory {
        return -1;
      }
      var pkt1 := new Node(pkt);
      ghost var before := Contents();
      TotalSizeAppend(nodeSize, before, pkt);
      Append(pkt1);
      nbPackets := nbPackets + 1;
      size := size + pkt1.pkt.size + nodeSize;
      accepted := accepted + [pkt];
      assert Contents() == before + [pkt];
      ret := 0;
    }

    /** The critical section of packet_queue_get. */
    method Get(block: bool) returns (r: GetResult)
      requires Valid()
      modifies this`first, this`last, this`nbPackets, this`size, this`nodes, this`departed
      ensures Valid()
      ensures r ==
        if abortRequest then Aborted
        else if old(Contents()) != [] then Taken(old(Contents())[0])
        else if block then Waits else Empty
      ensures if r.Taken? then
                Contents() == old(Contents())[1..] && nodes == old(nodes)[1..] &&
                departed == old(departed) + [Delivered(r.packet)]
              else Contents() == old(Contents()) && nodes == old(nodes) && departed == old(departed)
    {
      if abortRequest {
        return Aborted;
      }
      hide Linked, TotalSize, Packets, PacketsOf;
      EmptyIsNull(nodes, first, last);
      var pkt1 := first;
      if pkt1 != null {
        ghost var before := Contents();
        TailLinked(nodes, first, last);
        TotalSizeFirst(nodeSize, before);
        FirstDeparts(departed, nodes);
        first := pkt1.next;
        if first == null {
          last := null;
        }
        nbPackets := nbPackets - 1;
        size := size - (pkt1.pkt.size + nodeSize);
        nodes := nodes[1..];
        departed := departed + [Delivered(pkt1.pkt)];
        r := Taken(pkt1.pkt);
      } else if !block {
        r := Empty;
      } else {
        r := Waits;
      }
    }

    /** packet_queue_flush: every queued packet is freed once, in order. */
    method Flush()
      requires Valid()
      modifies this`first, this`last, this`nbPackets, this`size, this`nodes, this`departed
      ensures Valid() && Contents() == [] && nodes == [] && first == null && last == null && nbPackets == 0 && size == 0
      ensures |departed| == |old(departed)| + |old(Contents())| && departed[..|old(departed)|] == old(departed)
      ensures forall i :: 0 <= i < |old(Contents())| ==> departed[|old(departed)| + i] == Freed(old(Contents())[i])
    {
      ghost var all, was, start := Contents(), nodes, departed;
      var pkt := first;
      ghost var k := 0;
      while pkt != null
        invariant 0 <= k <= |was| && pkt == (if k < |was| then was[k] else null)
        invariant |departed| == |start| + k && departed[..|start|] == start
        invariant forall i :: 0 <= i < k ==> departed[|start| + i] == Freed(all[i])
        decreases |was| - k
      {
        var pkt1 := pkt.next;
        departed := departed + [Freed(pkt.pkt)];
        pkt := pkt1;
        k := k + 1;
      }
      assert Packets(departed) == Packets(start) + all;
      last := null;
      first := null;
      nbPackets := 0;
      size := 0;
      nodes := [];
      assert Packets(departed) + Contents() == Packets(departed);
    }

    method Abort()
      modifies this`abortRequest
      ensures abortRequest
    {
      abortRequest := true;
    }

    /** packet_queue_start: the flush packet goes in before anything else. */
    method Start(memory: bool)
      requires Valid()
      modifies this`first, this`last, this`nbPackets, this`size, this`nodes, this`accepted, this`abortRequest, nodes
      ensures Valid() && !abortRequest
      ensures Contents() == if memory then old(Contents()) + [FLUSH_PKT] else old(Contents())
      ensures accepted == if memory then old(accepted) + [FLUSH_PKT] else old(accepted)
    {
      abortRequest := false;
      var r := PutPrivate(FLUSH_PKT, memory);
    }
  }

  // ---------- What the invariant means for a run ----------

  /** The packets that have left a queue, in the order in which they left, followed by those
      still queued, are the accepted packets in order: the k-th to leave is the k-th
      accepted. */
  lemma FirstInFirstOut(q: Queue, k: nat)
    requires q.Valid() && k < |q.accepted|
    ensures k < |q.departed| ==> q.departed[k].packet == q.accepted[k]
    ensures k >= |q.departed| ==> k - |q.departed| < |q.nodes| && q.nodes[k - |q.departed|].pkt == q.accepted[k]
    ensures |q.accepted| == |q.departed| + q.nbPackets
  {
    hide Linked, TotalSize;
    assert k < |q.departed| ==> Packets(q.departed)[k] == q.departed[k].packet;
  }

  /** Each acceptance of a packet is matched by one departure or one place in the queue: what
      was accepted once leaves at most once and is not queued any more then, and the flush
      packet, which may be accepted several times, leaves no more often. */
  lemma LeavesOnce(q: Queue)
    requires q.Valid()
    ensures multiset(q.accepted) == multiset(Packets(q.departed)) + multiset(q.Contents())
  {
    hide Linked, TotalSize, Packets, PacketsOf;
    assert q.accepted == Packets(q.departed) + q.Contents();
  }
}
