/**
 * `adListChunked<T>`: adjacency lists split over partitions.  A vertex n
 * belongs to partition `pt_hash(n) = n % D` and, inside it, to neighbour
 * vector `hash_within_chunk(n) = n / D`, where D is the number of
 * out-partitions.  `update` queues every edge on its source's partition
 * and its reverse on its destination's (see module Routing); each
 * partition rewrites its edges' sources to their index within the
 * partition and applies them to its `adListPerChunk`.
 */
module AdListChunked {
  import opened Types
  import NL = NeighborList
  import PC = AdListPerChunk
  import D = DataStruc
  import opened Routing

  // ---------------------------------------------------------------------
  // Partition layout and index arithmetic
  // ---------------------------------------------------------------------

  /** The four-argument constructor rounds an odd partition count down to even. */
  function NumPartitions(parts: int): (p: int)
    ensures p % 2 == 0 && (p == parts || p == parts - 1)
    ensures parts >= 0 ==> p >= 0 && (p == parts <==> parts % 2 == 0)
  {
    if TruncMod(parts, 2) != 0 then parts - 1 else parts
  }

  /** The three-argument constructor's partition count. */
  const DefaultPartitions: int := 16

  /** How many times the constructor's loop runs: `num_partitions / 2` (C++ division; none for a negative count). */
  function Halves(p: int): nat
  {
    if p > 0 then p / 2 else 0
  }

  /** The divisor of `pt_hash` and `hash_within_chunk`: P / 2 when directed, P otherwise. */
  function Divisor(p: int, directed: bool): nat
  {
    if directed then Halves(p) else 2 * Halves(p)
  }

  /** `ceil(n / d)` of the partition constructor, on integers. */
  function CeilDiv(n: nat, d: nat): (r: nat)
    requires d > 0
    ensures r * d >= n && (r == 0 || (r - 1) * d < n)
  {
    (n + d - 1) / d
  }

  /** `hash_within_chunk(n) = n / D`, with C++'s division, which truncates toward zero. */
  function HashWithinChunk(n: int, d: nat): (q: int)
    requires d > 0
    ensures n >= 0 ==> q == n / d && q >= 0
  {
    if n >= 0 then n / d else -((-n) / d)
  }

  /** A vertex id is its index within the partition times D plus its partition. */
  lemma SplitRecombines(n: nat, d: nat)
    requires d > 0
    ensures n == HashWithinChunk(n, d) * d + PtHash(n, d)
  {
  }

  /** Two vertices with the same partition and the same index within it are the same vertex. */
  lemma SplitInjective(a: nat, b: nat, d: nat)
    requires d > 0
    ensures PtHash(a, d) == PtHash(b, d) && HashWithinChunk(a, d) == HashWithinChunk(b, d) <==> a == b
  {
    SplitRecombines(a, d);
    SplitRecombines(b, d);
  }

  /** Every vertex below N has its index within a partition of ceil(N / D) vectors. */
  lemma SplitInBounds(n: nat, total: nat, d: nat)
    requires d > 0 && n < total
    ensures HashWithinChunk(n, d) < CeilDiv(total, d)
  {
    var q := HashWithinChunk(n, d);
    var c := CeilDiv(total, d);
    SplitRecombines(n, d);
    assert q * d < c * d;
  }

  /** What `partition::insert` applies: each edge with its source replaced by `source / D`. */
  function Rewritten(el: seq<Edge>, d: nat): (r: seq<Edge>)
    requires d > 0
    ensures |r| == |el|
    ensures forall i :: 0 <= i < |el| ==> r[i] == el[i].(source := HashWithinChunk(el[i].source, d))
  {
    seq(|el|, i requires 0 <= i < |el| => el[i].(source := HashWithinChunk(el[i].source, d)))
  }

  /**
   * The neighbour vector a degree query for n reads receives exactly n's
   * edges: among edges routed to n's partition, an edge's rewritten source
   * is n's index exactly when its source is n.
   */
  lemma VectorHoldsOwnEdges(el: seq<Edge>, d: nat, directed: bool, n: nat)
    requires d > 0
    requires forall i :: 0 <= i < |el| ==> el[i].source >= 0 && el[i].destination >= 0
    ensures forall x :: x in OutQueue(el, PtHash(n, d), d, directed) ==>
              (HashWithinChunk(x.source, d) == HashWithinChunk(n, d) <==> x.source == n)
    ensures forall x :: x in InQueue(el, PtHash(n, d), d, directed) ==>
              (HashWithinChunk(x.source, d) == HashWithinChunk(n, d) <==> x.source == n)
  {
    QueuesRouted(el, PtHash(n, d), d, directed);
    QueuedEndpoints(el, PtHash(n, d), d, directed, MaxEndpoint(el) + 1);
    forall x | x in OutQueue(el, PtHash(n, d), d, directed) || x in InQueue(el, PtHash(n, d), d, directed)
      ensures HashWithinChunk(x.source, d) == HashWithinChunk(n, d) <==> x.source == n
    {
      SplitInjective(x.source, n, d);
    }
  }

  /**
   * After a partition applies its queue, each batch edge whose source
   * hashes to it is held as a neighbour in the vector of the source's
   * index within the partition, the vector `out_degree` reads.
   */
  lemma BatchEdgeLands(ls: seq<NL.List>, el: seq<Edge>, d: nat, directed: bool, weighted: bool, i: nat)
    requires d > 0 && i < |el|
    requires forall j :: 0 <= j < |el| ==> 0 <= el[j].source && 0 <= el[j].destination
    requires forall j :: 0 <= j < |el| ==> HashWithinChunk(el[j].source, d) < |ls| && HashWithinChunk(el[j].destination, d) < |ls|
    requires forall v :: 0 <= v < |ls| ==> NL.DistinctIds(ls[v])
    ensures var q := Rewritten(OutQueue(el, PtHash(el[i].source, d), d, directed), d);
            NL.Has(PC.Applied(ls, q, weighted)[HashWithinChunk(el[i].source, d)], el[i].destination)
  {
    var k := PtHash(el[i].source, d);
    var out := OutQueue(el, k, d, directed);
    var q := Rewritten(out, d);
    QueuedEveryEdge(el, d, directed, i);
    QueuedEndpoints(el, k, d, directed, MaxEndpoint(el) + 1);
    var j :| 0 <= j < |out| && out[j] == el[i];
    assert PC.SourcesBelow(q, |ls|) by {
      forall m | 0 <= m < |q| ensures 0 <= q[m].source < |ls| {
        QueuedFrom(el, k, d, directed, out[m]);
      }
    }
    PC.AppliedHolds(ls, q, weighted);
    assert q[j].source == HashWithinChunk(el[i].source, d) && q[j].destination == el[i].destination;
  }

  /** One more than the largest endpoint of the batch (0 when it is empty). */
  function MaxEndpoint(el: seq<Edge>): (m: int)
    requires forall i :: 0 <= i < |el| ==> el[i].source >= 0 && el[i].destination >= 0
    ensures m >= 0 && forall i :: 0 <= i < |el| ==> el[i].source <= m && el[i].destination <= m
  {
    if |el| == 0 then 0
    else
      var e := el[|el| - 1];
      var m := MaxEndpoint(el[..|el| - 1]);
      assert forall i :: 0 <= i < |el| - 1 ==> el[i] == el[..|el| - 1][i];
      if m >= e.source && m >= e.destination then m
      else if e.source >= e.destination then e.source
      else e.destination
  }

  /** Every queue holds edges whose endpoints are initial vertices when the batch's are. */
  lemma AllQueuedEndpoints(el: seq<Edge>, d: nat, directed: bool, n: nat)
    requires d > 0 && D.EndpointsBelow(el, n)
    ensures forall k, i :: 0 <= i < |OutQueue(el, k, d, directed)| ==> 0 <= OutQueue(el, k, d, directed)[i].source < n
    ensures forall k, i :: 0 <= i < |InQueue(el, k, d, directed)| ==> 0 <= InQueue(el, k, d, directed)[i].source < n
  {
    forall k {
      QueuedEndpoints(el, k, d, directed, n);
    }
  }

  // ---------------------------------------------------------------------
  // Partitions
  // ---------------------------------------------------------------------

  class Partition {
    const partLabel: int
    /** `num_directed_partitions`: the divisor D of the index arithmetic. */
    const divisor: nat
    const partAdList: PC.PerChunk

    /** `partition(label, D, w, d, N)`: an `adListPerChunk` of ceil(N / D) empty vectors. */
    constructor (lbl: int, d: nat, w: bool, directed: bool, total: nat)
      requires d > 0
      ensures partLabel == lbl && divisor == d && fresh(partAdList)
      ensures partAdList.weighted == w && partAdList.directed == directed
      ensures |partAdList.neighbors| == CeilDiv(total, d)
      ensures forall v :: 0 <= v < |partAdList.neighbors| ==> partAdList.neighbors[v] == []
    {
      partLabel := lbl;
      divisor := d;
      partAdList := new PC.PerChunk(w, directed, CeilDiv(total, d));
    }

    /** `insert(el)`: rewrite every source to `source / D`, then `update` the partition's lists. */
    method Insert(el: seq<Edge>)
      requires divisor > 0
      requires forall i :: 0 <= i < |el| ==> 0 <= el[i].source && HashWithinChunk(el[i].source, divisor) < |partAdList.neighbors|
      modifies partAdList
      ensures partAdList.neighbors == PC.Applied(old(partAdList.neighbors), Rewritten(el, divisor), partAdList.weighted)
    {
      var local: seq<Edge> := [];
      var i := 0;
      while i < |el|
        invariant 0 <= i <= |el| && local == Rewritten(el[..i], divisor)
      {
        local := local + [el[i].(source := el[i].source / divisor)];
        i := i + 1;
      }
      assert el[..i] == el;
      partAdList.Update(local);
    }
  }

  /** `count` new partitions labelled 0 .. count-1, each on a new `adListPerChunk`. */
  method NewPartitions(count: nat, d: nat, w: bool, directed: bool, total: nat)
    returns (ps: seq<Partition>, ghost rs: set<object>)
    requires d > 0
    ensures |ps| == count && fresh(rs)
    ensures forall k :: 0 <= k < count ==>
              && ps[k].partLabel == k && ps[k].divisor == d && ps[k].partAdList in rs
              && ps[k].partAdList.weighted == w
              && |ps[k].partAdList.neighbors| == CeilDiv(total, d)
              && forall v :: 0 <= v < |ps[k].partAdList.neighbors| ==> ps[k].partAdList.neighbors[v] == []
    ensures forall j, k :: 0 <= j < k < count ==> ps[j].partAdList != ps[k].partAdList
  {
    ps := [];
    rs := {};
    while |ps| < count
      invariant |ps| <= count && fresh(rs)
      invariant forall k :: 0 <= k < |ps| ==>
                  && ps[k].partLabel == k && ps[k].divisor == d && ps[k].partAdList in rs
                  && ps[k].partAdList.weighted == w
                  && |ps[k].partAdList.neighbors| == CeilDiv(total, d)
                  && forall v :: 0 <= v < |ps[k].partAdList.neighbors| ==> ps[k].partAdList.neighbors[v] == []
      invariant forall j, k :: 0 <= j < k < |ps| ==> ps[j].partAdList != ps[k].partAdList
    {
      var p := new Partition(|ps|, d, w, directed, total);
      ps := ps + [p];
      rs := rs + {p.partAdList};
    }
  }

  // ---------------------------------------------------------------------
  // The container
  // ---------------------------------------------------------------------

  class Chunked {
    const weighted: bool
    const directed: bool
    const numNodesInit: nat
    /** `num_partitions`, after rounding. */
    const numPartitions: int
    /** The divisor D shared by `pt_hash`, `hash_within_chunk` and every partition. */
    const divisor: nat
    const outs: seq<Partition>
    const ins: seq<Partition>
    var numNodes: int
    var numEdges: int
    var property: seq<real>
    var affected: seq<bool>
    ghost var Repr: set<object>

    /** All partitions, the out-partitions first. */
    function Parts(): seq<Partition>
    {
      outs + ins
    }

    /** A partition of this container: its divisor, its neighbour type and its ceil(N / D) vectors. */
    ghost predicate PartOk(p: Partition)
      reads p.partAdList
    {
      && p.divisor == divisor && p.partAdList.weighted == weighted
      && (divisor > 0 ==> |p.partAdList.neighbors| == CeilDiv(numNodesInit, divisor))
    }

    ghost predicate Valid()
      reads this, Repr
    {
      && this !in Repr
      && divisor == Divisor(numPartitions, directed)
      && |outs| == divisor && |ins| == (if directed then divisor else 0)
      && |affected| == numNodesInit && |property| == numNodesInit
      && (forall k :: 0 <= k < |Parts()| ==> Parts()[k].partAdList in Repr && PartOk(Parts()[k]))
      && (forall j, k :: 0 <= j < k < |Parts()| ==> Parts()[j].partAdList != Parts()[k].partAdList)
    }

    /**
     * `adListChunked(w, d, N, parts)`: the partition count rounded down to
     * even, P / 2 out- and P / 2 in-partitions of divisor P / 2 when
     * directed, P out-partitions of divisor P otherwise, each with
     * ceil(N / D) empty vectors; `property` is -1 and `affected` false for
     * the N initial vertices.  The three-argument constructor passes 16.
     */
    constructor (w: bool, d: bool, total: nat, parts: int)
      ensures Valid() && fresh(Repr)
      ensures weighted == w && directed == d && numNodesInit == total
      ensures numPartitions == NumPartitions(parts)
      ensures |outs| == (if d then Halves(numPartitions) else 2 * Halves(numPartitions))
      ensures |ins| == (if d then Halves(numPartitions) else 0)
      ensures forall k :: 0 <= k < |Parts()| ==> Parts()[k].partLabel == (if k < |outs| then k else k - |outs|)
      ensures forall k :: 0 <= k < |Parts()| ==>
                forall v :: 0 <= v < |Parts()[k].partAdList.neighbors| ==> Parts()[k].partAdList.neighbors[v] == []
      ensures numNodes == 0 && numEdges == 0
      ensures forall v :: 0 <= v < total ==> property[v] == -1.0 && !affected[v]
    {
      weighted := w;
      directed := d;
      numNodesInit := total;
      var p := NumPartitions(parts);
      numPartitions := p;
      var dv := Divisor(p, d);
      divisor := dv;
      numNodes := 0;
      numEdges := 0;
      property := seq(total, _ => -1.0);
      affected := seq(total, _ => false);
      var os: seq<Partition> := [];
      var ns: seq<Partition> := [];
      ghost var ro: set<object> := {};
      ghost var ri: set<object> := {};
      if dv > 0 {
        os, ro := NewPartitions(dv, dv, w, d, total);
        ns, ri := NewPartitions(if d then dv else 0, dv, w, d, total);
      }
      outs := os;
      ins := ns;
      new;
      Repr := ro + ri;
      forall j, k | 0 <= j < k < |Parts()|
        ensures Parts()[j].partAdList != Parts()[k].partAdList
      {
        if j < |os| && k >= |os| {
          assert Parts()[j].partAdList in ro && Parts()[k].partAdList in ri;
        }
      }
    }

    /**
     * The main thread's part of `update(el)`: two edges counted per batch
     * edge, one vertex per endpoint that did not exist, both endpoints
     * flagged, and the edge and its reverse queued on their partitions.
     */
    method Enqueue(el: seq<Edge>) returns (outQ: seq<seq<Edge>>, inQ: seq<seq<Edge>>)
      requires Valid() && divisor > 0 && D.EndpointsBelow(el, |affected|)
      modifies this`affected, this`numNodes, this`numEdges
      ensures Valid()
      ensures |outQ| == |outs| && forall k :: 0 <= k < |outs| ==> outQ[k] == OutQueue(el, k, divisor, directed)
      ensures |inQ| == |ins| && forall k :: 0 <= k < |ins| ==> inQ[k] == InQueue(el, k, divisor, directed)
      ensures affected == D.MarkAffected(old(affected), el)
      ensures numNodes == old(numNodes) + D.NewNodes(el)
      ensures numEdges == old(numEdges) + 2 * |el|
    {
      outQ := seq(|outs|, _ => []);
      inQ := seq(|ins|, _ => []);
      var i := 0;
      while i < |el|
        invariant 0 <= i <= |el| && |affected| == |old(affected)|
        invariant |outQ| == |outs| && forall k :: 0 <= k < |outs| ==> outQ[k] == OutQueue(el[..i], k, divisor, directed)
        invariant |inQ| == |ins| && forall k :: 0 <= k < |ins| ==> inQ[k] == InQueue(el[..i], k, divisor, directed)
        invariant affected == D.MarkAffected(old(affected), el[..i])
        invariant numNodes == old(numNodes) + D.NewNodes(el[..i])
        invariant numEdges == old(numEdges) + 2 * i
      {
        var e := el[i];
        D.MarkAffectedStep(old(affected), el, i);
        D.NewNodesStep(el, i);
        numEdges := numEdges + 2;
        numNodes := numNodes + (if e.sourceExists then 0 else 1) + (if e.destExists then 0 else 1);
        affected := affected[e.source := true][e.destination := true];
        ghost var outQ0, inQ0 := outQ, inQ;
        outQ, inQ := EnqueueEdge(outQ, inQ, e, divisor, directed);
        QueuesStep(el, i, outQ0, inQ0, outQ, inQ, divisor, directed);
        i := i + 1;
      }
      assert el[..i] == el;
    }

    /** Partition k's thread inserts the edges of q whose endpoints are initial vertices; the other partitions are untouched. */
    method ApplyAt(k: nat, q: seq<Edge>)
      requires Valid() && divisor > 0 && k < |Parts()|
      requires forall i :: 0 <= i < |q| ==> 0 <= q[i].source < numNodesInit
      modifies Parts()[k].partAdList
      ensures Valid()
      ensures Parts()[k].partAdList.neighbors
                == PC.Applied(old(Parts()[k].partAdList.neighbors), Rewritten(q, divisor), weighted)
    {
      var p := Parts()[k];
      assert PartOk(p);
      forall i | 0 <= i < |q| ensures HashWithinChunk(q[i].source, divisor) < |p.partAdList.neighbors| {
        SplitInBounds(q[i].source, numNodesInit, divisor);
      }
      p.Insert(q);
      forall j | 0 <= j < |Parts()| && j != k ensures PartOk(Parts()[j]) {
        assert old(PartOk(Parts()[j])) && Parts()[j].partAdList != p.partAdList;
      }
    }

    /**
     * Every partition's thread drains its queue: each partition ends up
     * with exactly its queue, sources rewritten, applied in order.
     */
    method Drain(outQ: seq<seq<Edge>>, inQ: seq<seq<Edge>>)
      requires Valid() && divisor > 0 && |outQ| == |outs| && |inQ| == |ins|
      requires forall k, i :: 0 <= k < |outQ| && 0 <= i < |outQ[k]| ==> 0 <= outQ[k][i].source < numNodesInit
      requires forall k, i :: 0 <= k < |inQ| && 0 <= i < |inQ[k]| ==> 0 <= inQ[k][i].source < numNodesInit
      modifies Repr
      ensures Valid()
      ensures forall k :: 0 <= k < |outs| ==>
                outs[k].partAdList.neighbors == PC.Applied(old(outs[k].partAdList.neighbors), Rewritten(outQ[k], divisor), weighted)
      ensures forall k :: 0 <= k < |ins| ==>
                ins[k].partAdList.neighbors == PC.Applied(old(ins[k].partAdList.neighbors), Rewritten(inQ[k], divisor), weighted)
    {
      var qs: seq<seq<Edge>> := outQ + inQ;
      forall j, i | 0 <= j < |qs| && 0 <= i < |qs[j]| ensures 0 <= qs[j][i].source < numNodesInit {
        if j >= |outQ| {
          assert qs[j] == inQ[j - |outQ|];
        }
      }
      var k := 0;
      while k < |qs|
        invariant 0 <= k <= |qs| == |Parts()|
        invariant Valid()
        invariant forall j :: 0 <= j < k ==>
                    Parts()[j].partAdList.neighbors
                      == PC.Applied(old(Parts()[j].partAdList.neighbors), Rewritten(qs[j], divisor), weighted)
        invariant forall j :: k <= j < |qs| ==> Parts()[j].partAdList.neighbors == old(Parts()[j].partAdList.neighbors)
      {
        ApplyAt(k, qs[k]);
        k := k + 1;
      }
      forall k | 0 <= k < |ins|
        ensures ins[k].partAdList.neighbors == PC.Applied(old(ins[k].partAdList.neighbors), Rewritten(inQ[k], divisor), weighted)
      {
        assert ins[k] == Parts()[|outs| + k] && qs[|outs| + k] == inQ[k];
      }
      forall k | 0 <= k < |outs|
        ensures outs[k].partAdList.neighbors == PC.Applied(old(outs[k].partAdList.neighbors), Rewritten(outQ[k], divisor), weighted)
      {
        assert outs[k] == Parts()[k] && qs[k] == outQ[k];
      }
    }

    /**
     * `update(el)`: the batch is queued, then each partition applies its
     * queue.  Out-partition k ends up with the edges whose source hashes
     * to k (and, undirected, the reverses of those whose destination does),
     * each in the vector of its source's index within the partition.
     */
    method Update(el: seq<Edge>)
      requires Valid() && divisor > 0 && D.EndpointsBelow(el, |affected|)
      modifies Repr, this`affected, this`numNodes, this`numEdges
      ensures Valid()
      ensures affected == D.MarkAffected(old(affected), el) && property == old(property)
      ensures numNodes == old(numNodes) + D.NewNodes(el)
      ensures numEdges == old(numEdges) + 2 * |el|
      ensures forall k :: 0 <= k < |outs| ==>
                outs[k].partAdList.neighbors
                  == PC.Applied(old(outs[k].partAdList.neighbors), Rewritten(OutQueue(el, k, divisor, directed), divisor), weighted)
      ensures forall k :: 0 <= k < |ins| ==>
                ins[k].partAdList.neighbors
                  == PC.Applied(old(ins[k].partAdList.neighbors), Rewritten(InQueue(el, k, divisor, directed), divisor), weighted)
    {
      var outQ, inQ := Enqueue(el);
      AllQueuedEndpoints(el, divisor, directed, numNodesInit);
      Drain(outQ, inQ);
    }

    /** `out_degree(n)`: the length of vector `hash_within_chunk(n)` of out-partition `pt_hash(n)`. */
    function OutDegree(n: nat): (d: nat)
      requires Valid() && divisor > 0 && n < numNodesInit
      reads this, Repr
      ensures NL.CountsNeighbours(OutVector(n), d)
    {
      SplitInBounds(n, numNodesInit, divisor);
      assert outs[PtHash(n, divisor)] == Parts()[PtHash(n, divisor)];
      outs[PtHash(n, divisor)].partAdList.Degree(HashWithinChunk(n, divisor))
    }

    /** The vector n's out-edges land in: vector `hash_within_chunk(n)` of out-partition `pt_hash(n)`. */
    ghost function OutVector(n: nat): NL.List
      requires Valid() && divisor > 0 && n < numNodesInit
      reads this, Repr
    {
      SplitInBounds(n, numNodesInit, divisor);
      assert outs[PtHash(n, divisor)] == Parts()[PtHash(n, divisor)];
      outs[PtHash(n, divisor)].partAdList.neighbors[HashWithinChunk(n, divisor)]
    }

    /** `in_degree(n)`: as `out_degree`, in the in-partitions when directed. */
    function InDegree(n: nat): (d: nat)
      requires Valid() && divisor > 0 && n < numNodesInit
      reads this, Repr
      ensures directed ==> NL.CountsNeighbours(InVector(n), d)
      ensures !directed ==> d == OutDegree(n)
    {
      SplitInBounds(n, numNodesInit, divisor);
      var k := PtHash(n, divisor);
      if directed then
        assert ins[k] == Parts()[|outs| + k];
        ins[k].partAdList.Degree(HashWithinChunk(n, divisor))
      else
        OutDegree(n)
    }

    /** The vector n's in-edges land in when directed: vector `hash_within_chunk(n)` of in-partition `pt_hash(n)`. */
    ghost function InVector(n: nat): NL.List
      requires Valid() && divisor > 0 && n < numNodesInit && directed
      reads this, Repr
    {
      SplitInBounds(n, numNodesInit, divisor);
      var k := PtHash(n, divisor);
      assert ins[k] == Parts()[|outs| + k];
      ins[k].partAdList.neighbors[HashWithinChunk(n, divisor)]
    }
  }
}
