/**
 * How the queue-based containers (`darhh` and `adListChunked`) route an
 * update batch to their partitions.  Both hash a vertex to a partition by
 * `n % P`, P being the number of out-partitions, and both put an edge on
 * the queue of its source's out-partition and its reverse on the queue of
 * its destination's partition: an in-partition for a directed graph, an
 * out-partition otherwise.  Each partition's thread drains its queue in
 * FIFO order, so the queues below are exactly the edge sequences each
 * partition applies.
 */
module Routing {
  import opened Types

  /** `pt_hash(n) = n % P`, with C++'s truncating `%`. */
  function PtHash(n: int, parts: nat): (h: int)
    requires parts > 0
    ensures n >= 0 ==> 0 <= h < parts && h == n % parts
    ensures n < 0 ==> -(parts as int) < h <= 0
  {
    TruncMod(n, parts)
  }

  /**
   * The queue of out-partition k after `update(el)` enqueued the batch:
   * each edge whose source hashes to k and, for an undirected graph, the
   * reverse of each edge whose destination hashes to k, in batch order.
   */
  function OutQueue(el: seq<Edge>, k: int, parts: nat, directed: bool): seq<Edge>
    requires parts > 0
  {
    if |el| == 0 then []
    else
      var e := el[|el| - 1];
      OutQueue(el[..|el| - 1], k, parts, directed)
        + (if PtHash(e.source, parts) == k then [e] else [])
        + (if !directed && PtHash(e.destination, parts) == k then [Reverse(e)] else [])
  }

  /** The queue of in-partition k: for a directed graph, the reverse of each edge whose destination hashes to k. */
  function InQueue(el: seq<Edge>, k: int, parts: nat, directed: bool): seq<Edge>
    requires parts > 0
  {
    if |el| == 0 then []
    else
      var e := el[|el| - 1];
      InQueue(el[..|el| - 1], k, parts, directed)
        + (if directed && PtHash(e.destination, parts) == k then [Reverse(e)] else [])
  }

  /** Enqueueing edge i of the batch extends each queue by what that edge routes to it. */
  lemma QueueStep(el: seq<Edge>, i: nat, k: int, parts: nat, directed: bool)
    requires i < |el| && parts > 0
    ensures OutQueue(el[..i + 1], k, parts, directed)
              == OutQueue(el[..i], k, parts, directed)
                 + (if PtHash(el[i].source, parts) == k then [el[i]] else [])
                 + (if !directed && PtHash(el[i].destination, parts) == k then [Reverse(el[i])] else [])
    ensures InQueue(el[..i + 1], k, parts, directed)
              == InQueue(el[..i], k, parts, directed)
                 + (if directed && PtHash(el[i].destination, parts) == k then [Reverse(el[i])] else [])
  {
    assert el[..i + 1][..i] == el[..i];
  }

  /** One `EnqueueEdge` of edge i turns the queues of the first i edges into those of the first i + 1. */
  lemma QueuesStep(el: seq<Edge>, i: nat, outQ: seq<seq<Edge>>, inQ: seq<seq<Edge>>,
                   outQ': seq<seq<Edge>>, inQ': seq<seq<Edge>>, parts: nat, directed: bool)
    requires i < |el| && parts > 0
    requires |outQ| == |outQ'| && |inQ| == |inQ'|
    requires forall k :: 0 <= k < |outQ| ==> outQ[k] == OutQueue(el[..i], k, parts, directed)
    requires forall k :: 0 <= k < |inQ| ==> inQ[k] == InQueue(el[..i], k, parts, directed)
    requires forall k :: 0 <= k < |outQ| ==>
               outQ'[k] == outQ[k] + (if PtHash(el[i].source, parts) == k then [el[i]] else [])
                                   + (if !directed && PtHash(el[i].destination, parts) == k then [Reverse(el[i])] else [])
    requires forall k :: 0 <= k < |inQ| ==>
               inQ'[k] == inQ[k] + (if directed && PtHash(el[i].destination, parts) == k then [Reverse(el[i])] else [])
    ensures forall k :: 0 <= k < |outQ'| ==> outQ'[k] == OutQueue(el[..i + 1], k, parts, directed)
    ensures forall k :: 0 <= k < |inQ'| ==> inQ'[k] == InQueue(el[..i + 1], k, parts, directed)
  {
    forall k | 0 <= k < |outQ'| ensures outQ'[k] == OutQueue(el[..i + 1], k, parts, directed) {
      QueueStep(el, i, k, parts, directed);
    }
    forall k | 0 <= k < |inQ'| ensures inQ'[k] == InQueue(el[..i + 1], k, parts, directed) {
      QueueStep(el, i, k, parts, directed);
    }
  }

  /** Every queued edge sits in the queue of the partition its source hashes to, which is where the degree queries look. */
  lemma {:induction false} QueuesRouted(el: seq<Edge>, k: int, parts: nat, directed: bool)
    requires parts > 0
    ensures forall x :: x in OutQueue(el, k, parts, directed) ==> PtHash(x.source, parts) == k
    ensures forall x :: x in InQueue(el, k, parts, directed) ==> PtHash(x.source, parts) == k
  {
    if |el| > 0 {
      QueuesRouted(el[..|el| - 1], k, parts, directed);
    }
  }

  /** Queued edges are batch edges or their reverses, so their endpoints stay below any bound the batch's endpoints keep. */
  lemma {:induction false} QueuedEndpoints(el: seq<Edge>, k: int, parts: nat, directed: bool, n: int)
    requires parts > 0
    requires forall i :: 0 <= i < |el| ==> 0 <= el[i].source < n && 0 <= el[i].destination < n
    ensures forall x :: x in OutQueue(el, k, parts, directed) ==> 0 <= x.source < n && 0 <= x.destination < n
    ensures forall x :: x in InQueue(el, k, parts, directed) ==> 0 <= x.source < n && 0 <= x.destination < n
  {
    if |el| > 0 {
      QueuedEndpoints(el[..|el| - 1], k, parts, directed, n);
    }
  }

  /** A queued edge is an edge of the batch or the reverse of one. */
  lemma {:induction false} QueuedFrom(el: seq<Edge>, k: int, parts: nat, directed: bool, x: Edge)
    requires parts > 0
    requires x in OutQueue(el, k, parts, directed) || x in InQueue(el, k, parts, directed)
    ensures exists j :: 0 <= j < |el| && (x == el[j] || x == Reverse(el[j]))
  {
    var init := el[..|el| - 1];
    if x in OutQueue(init, k, parts, directed) || x in InQueue(init, k, parts, directed) {
      QueuedFrom(init, k, parts, directed, x);
      var j :| 0 <= j < |init| && (x == init[j] || x == Reverse(init[j]));
      assert init[j] == el[j];
    } else {
      assert x == el[|el| - 1] || x == Reverse(el[|el| - 1]);
    }
  }

  /**
   * Nothing is lost: every batch edge is queued on its source's
   * out-partition, and its reverse on its destination's in-partition
   * (directed) or out-partition (undirected).
   */
  lemma {:induction false} QueuedEveryEdge(el: seq<Edge>, parts: nat, directed: bool, i: nat)
    requires parts > 0 && i < |el|
    ensures el[i] in OutQueue(el, PtHash(el[i].source, parts), parts, directed)
    ensures directed ==> Reverse(el[i]) in InQueue(el, PtHash(el[i].destination, parts), parts, directed)
    ensures !directed ==> Reverse(el[i]) in OutQueue(el, PtHash(el[i].destination, parts), parts, directed)
  {
    var init := el[..|el| - 1];
    if i < |el| - 1 {
      QueuedEveryEdge(init, parts, directed, i);
      assert init[i] == el[i];
    }
  }

  /** How many of the partitions 0 .. k-1 vertex x hashes to. */
  function HitsBelow(x: int, parts: nat, k: nat): nat
    requires parts > 0
  {
    if k == 0 then 0 else HitsBelow(x, parts, k - 1) + (if PtHash(x, parts) == k - 1 then 1 else 0)
  }

  lemma {:induction false} HitsOnce(x: int, parts: nat, k: nat)
    requires parts > 0 && x >= 0
    ensures HitsBelow(x, parts, k) == if PtHash(x, parts) < k then 1 else 0
  {
    if k > 0 {
      HitsOnce(x, parts, k - 1);
    }
  }

  /** The edges queued on the first k out-partitions and the first k in-partitions together. */
  function QueuedBelow(el: seq<Edge>, parts: nat, directed: bool, k: nat): nat
    requires parts > 0
  {
    if k == 0 then 0
    else QueuedBelow(el, parts, directed, k - 1) + |OutQueue(el, k - 1, parts, directed)| + |InQueue(el, k - 1, parts, directed)|
  }

  lemma {:induction false} QueuedSnoc(el: seq<Edge>, e: Edge, parts: nat, directed: bool, k: nat)
    requires parts > 0
    ensures QueuedBelow(el + [e], parts, directed, k)
              == QueuedBelow(el, parts, directed, k) + HitsBelow(e.source, parts, k) + HitsBelow(e.destination, parts, k)
  {
    assert (el + [e])[..|el|] == el;
    if k > 0 {
      QueuedSnoc(el, e, parts, directed, k - 1);
    }
  }

  /**
   * `update` enters two edges per batch edge: over all partitions the
   * queues hold exactly 2 * |el| edges, matching `num_edges += 2`.
   */
  lemma {:induction false} QueuedTotal(el: seq<Edge>, parts: nat, directed: bool)
    requires parts > 0
    requires forall i :: 0 <= i < |el| ==> el[i].source >= 0 && el[i].destination >= 0
    ensures QueuedBelow(el, parts, directed, parts) == 2 * |el|
  {
    if |el| == 0 {
      ZeroQueued(parts, directed, parts);
    } else {
      var init := el[..|el| - 1];
      var e := el[|el| - 1];
      QueuedTotal(init, parts, directed);
      assert init + [e] == el;
      QueuedSnoc(init, e, parts, directed, parts);
      HitsOnce(e.source, parts, parts);
      HitsOnce(e.destination, parts, parts);
    }
  }

  lemma {:induction false} ZeroQueued(parts: nat, directed: bool, k: nat)
    requires parts > 0
    ensures QueuedBelow([], parts, directed, k) == 0
  {
    if k > 0 {
      ZeroQueued(parts, directed, k - 1);
    }
  }

  /**
   * The enqueues `update` makes for one edge e: e on the out-queue of its
   * source's partition, its reverse on the in-queue (directed) or the
   * out-queue (undirected) of its destination's partition.
   */
  method EnqueueEdge(outQ: seq<seq<Edge>>, inQ: seq<seq<Edge>>, e: Edge, parts: nat, directed: bool)
    returns (outQ': seq<seq<Edge>>, inQ': seq<seq<Edge>>)
    requires parts > 0 && e.source >= 0 && e.destination >= 0
    requires |outQ| == parts && |inQ| == (if directed then parts else 0)
    ensures |outQ'| == |outQ| && |inQ'| == |inQ|
    ensures forall k :: 0 <= k < |outQ| ==>
              outQ'[k] == outQ[k] + (if PtHash(e.source, parts) == k then [e] else [])
                                  + (if !directed && PtHash(e.destination, parts) == k then [Reverse(e)] else [])
    ensures forall k :: 0 <= k < |inQ| ==>
              inQ'[k] == inQ[k] + (if directed && PtHash(e.destination, parts) == k then [Reverse(e)] else [])
  {
    var o := PtHash(e.source, parts);
    outQ' := outQ[o := outQ[o] + [e]];
    inQ' := inQ;
    var r := Reverse(e);
    var ix := PtHash(r.source, parts);
    if directed {
      inQ' := inQ'[ix := inQ'[ix] + [r]];
    } else {
      outQ' := outQ'[ix := outQ'[ix] + [r]];
    }
  }
}
