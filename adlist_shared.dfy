/**
 * `adListShared<T>`: pre-sized adjacency lists shared by all threads.
 * Every vertex below `num_nodes_initialize` has an out- and an in-vector
 * from the start; an edge upserts its destination into its source's
 * out-vector and its source into its destination's in-vector (directed)
 * or out-vector (undirected), reusing deleted (-1) entries.
 *
 * The per-vertex mutexes and the parallel loop are dropped: the model
 * applies the batch's edges one after the other, in order.
 */
module AdListShared {
  import opened Types
  import NL = NeighborList
  import PC = AdListPerChunk
  import D = DataStruc

  /**
   * The upserts a batch makes on the out-vectors, as edges keyed by the
   * vector's vertex: each edge for its source and, undirected, its reverse
   * for its destination.
   */
  function OutSide(el: seq<Edge>, directed: bool): seq<Edge>
  {
    if |el| == 0 then []
    else
      var e := el[|el| - 1];
      OutSide(el[..|el| - 1], directed) + [e] + (if directed then [] else [Reverse(e)])
  }

  /** The upserts a batch makes on the in-vectors: for a directed graph, each edge's reverse, keyed by its destination. */
  function InSide(el: seq<Edge>, directed: bool): seq<Edge>
  {
    if |el| == 0 then []
    else
      var e := el[|el| - 1];
      InSide(el[..|el| - 1], directed) + (if directed then [Reverse(e)] else [])
  }

  lemma SidesStep(el: seq<Edge>, i: nat, directed: bool)
    requires i < |el|
    ensures OutSide(el[..i + 1], directed) == OutSide(el[..i], directed) + [el[i]] + (if directed then [] else [Reverse(el[i])])
    ensures InSide(el[..i + 1], directed) == InSide(el[..i], directed) + (if directed then [Reverse(el[i])] else [])
  {
    assert el[..i + 1][..i] == el[..i];
  }

  /** The vectors after edge i are those after the edges before it, with edge i's sides applied. */
  lemma AppliedSidesStep(outs: seq<NL.List>, ins: seq<NL.List>, el: seq<Edge>, i: nat, directed: bool, weighted: bool)
    requires i < |el|
    ensures PC.Applied(outs, OutSide(el[..i + 1], directed), weighted)
              == PC.Applied(PC.Applied(outs, OutSide(el[..i], directed), weighted), OutSide([el[i]], directed), weighted)
    ensures PC.Applied(ins, InSide(el[..i + 1], directed), weighted)
              == PC.Applied(PC.Applied(ins, InSide(el[..i], directed), weighted), InSide([el[i]], directed), weighted)
  {
    SidesStep(el, i, directed);
    assert [el[i]][..0] == [];
    assert OutSide(el[..i + 1], directed) == OutSide(el[..i], directed) + OutSide([el[i]], directed);
    assert InSide(el[..i + 1], directed) == InSide(el[..i], directed) + InSide([el[i]], directed);
    PC.AppliedAppend(outs, OutSide(el[..i], directed), OutSide([el[i]], directed), weighted);
    PC.AppliedAppend(ins, InSide(el[..i], directed), InSide([el[i]], directed), weighted);
  }

  /** The edges applied to either side are the batch's edges or their reverses, so their endpoints stay in range. */
  lemma {:induction false} SidesBelow(el: seq<Edge>, directed: bool, n: nat)
    requires D.EndpointsBelow(el, n)
    ensures D.EndpointsBelow(OutSide(el, directed), n) && D.EndpointsBelow(InSide(el, directed), n)
  {
    if |el| > 0 {
      SidesBelow(el[..|el| - 1], directed, n);
    }
  }

  /**
   * Each batch edge ends up on both sides: its destination in its source's
   * out-vector and its source in its destination's in-vector (directed)
   * or out-vector (undirected).
   */
  lemma {:induction false} SidesHoldEveryEdge(el: seq<Edge>, directed: bool, i: nat)
    requires i < |el|
    ensures el[i] in OutSide(el, directed)
    ensures directed ==> Reverse(el[i]) in InSide(el, directed)
    ensures !directed ==> Reverse(el[i]) in OutSide(el, directed)
  {
    if i < |el| - 1 {
      SidesHoldEveryEdge(el[..|el| - 1], directed, i);
      assert el[..|el| - 1][i] == el[i];
    }
  }

  /**
   * The source side's upsert followed by the destination side's is the
   * batch fold over one edge, on both the out- and the in-vectors.
   */
  lemma EdgeSides(outs0: seq<NL.List>, ins0: seq<NL.List>, outs1: seq<NL.List>, ins1: seq<NL.List>,
                  outs2: seq<NL.List>, ins2: seq<NL.List>, e: Edge, directed: bool, weighted: bool)
    requires 0 <= e.source < |outs0| && 0 <= e.destination < |outs0| && |ins0| == |outs0|
    requires outs1 == outs0[e.source := NL.Upserted(outs0[e.source], Info(weighted, e.destination, e.weight))] && ins1 == ins0
    requires !directed ==>
               outs2 == outs1[e.destination := NL.Upserted(outs1[e.destination], Info(weighted, e.source, e.weight))] && ins2 == ins1
    requires directed ==>
               ins2 == ins1[e.destination := NL.Upserted(ins1[e.destination], Info(weighted, e.source, e.weight))] && outs2 == outs1
    ensures outs2 == PC.Applied(outs0, OutSide([e], directed), weighted)
    ensures ins2 == PC.Applied(ins0, InSide([e], directed), weighted)
  {
    assert [e][..0] == [];
    PC.AppliedSnoc(outs0, [], e, weighted);
    assert [] + [e] == [e];
    if directed {
      PC.AppliedSnoc(ins0, [], Reverse(e), weighted);
      assert [] + [Reverse(e)] == [Reverse(e)];
    } else {
      PC.AppliedSnoc(outs0, [e], Reverse(e), weighted);
    }
  }

  class Shared {
    const weighted: bool
    const directed: bool
    const numNodesInit: nat
    var numNodes: int
    var numEdges: int
    var property: seq<real>
    var affected: seq<bool>
    var outNeighbors: seq<NL.List>
    var inNeighbors: seq<NL.List>

    /** Every per-vertex vector exists for the initial vertices. */
    ghost predicate Valid()
      reads this
    {
      && |property| == numNodesInit && |affected| == numNodesInit
      && |outNeighbors| == numNodesInit && |inNeighbors| == numNodesInit
    }

    /** `adListShared(w, d, N)`: `property` -1, `affected` false, and empty in- and out-vectors for N vertices. */
    constructor (w: bool, d: bool, n: nat)
      ensures Valid() && weighted == w && directed == d && numNodesInit == n
      ensures numNodes == 0 && numEdges == 0
      ensures forall v :: 0 <= v < n ==> property[v] == -1.0 && !affected[v]
      ensures forall v :: 0 <= v < n ==> outNeighbors[v] == [] && inNeighbors[v] == []
    {
      weighted := w;
      directed := d;
      numNodesInit := n;
      numNodes := 0;
      numEdges := 0;
      property := seq(n, _ => -1.0);
      affected := seq(n, _ => false);
      outNeighbors := seq(n, _ => []);
      inNeighbors := seq(n, _ => []);
    }

    /**
     * `processMetaData(e, source)`: the endpoint is flagged (a flag is
     * never cleared), one edge end is counted, and one vertex when the
     * endpoint did not exist.
     */
    method ProcessMetaData(e: Edge, source: bool)
      requires Valid() && 0 <= (if source then e.source else e.destination) < |affected|
      modifies this`affected, this`numNodes, this`numEdges
      ensures Valid()
      ensures affected == old(affected)[(if source then e.source else e.destination) := true]
      ensures numEdges == old(numEdges) + 1
      ensures numNodes == old(numNodes) + (if (if source then e.sourceExists else e.destExists) then 0 else 1)
    {
      var known := if source then e.sourceExists else e.destExists;
      var v := if source then e.source else e.destination;
      var aff := affected[v];
      if !aff {
        affected := affected[v := true];
      }
      if known {
        numEdges := numEdges + 1;
      } else {
        numNodes := numNodes + 1;
        numEdges := numEdges + 1;
      }
    }

    /**
     * `updateForExistingVertex(e, source)`: the source side upserts the
     * destination into the source's out-vector; the destination side
     * upserts the source into the destination's out-vector (undirected) or
     * in-vector (directed).
     */
    method UpdateForExistingVertex(e: Edge, source: bool)
      requires Valid() && 0 <= e.source < numNodesInit && 0 <= e.destination < numNodesInit
      modifies this`outNeighbors, this`inNeighbors
      ensures Valid()
      ensures source ==>
                outNeighbors == old(outNeighbors)[e.source := NL.Upserted(old(outNeighbors[e.source]), Info(weighted, e.destination, e.weight))]
                && inNeighbors == old(inNeighbors)
      ensures !source && !directed ==>
                outNeighbors == old(outNeighbors)[e.destination := NL.Upserted(old(outNeighbors[e.destination]), Info(weighted, e.source, e.weight))]
                && inNeighbors == old(inNeighbors)
      ensures !source && directed ==>
                inNeighbors == old(inNeighbors)[e.destination := NL.Upserted(old(inNeighbors[e.destination]), Info(weighted, e.source, e.weight))]
                && outNeighbors == old(outNeighbors)
    {
      var index := if source then e.source else e.destination;
      if source || (!source && !directed) {
        var dest := if source then e.destination else e.source;
        var l := NL.Upsert(outNeighbors[index], Info(weighted, dest, e.weight));
        outNeighbors := outNeighbors[index := l];
      } else {
        var l := NL.Upsert(inNeighbors[index], Info(weighted, e.source, e.weight));
        inNeighbors := inNeighbors[index := l];
      }
    }

    /**
     * `update(el)`: per edge, the source side and then the destination
     * side.  The counters and flags change as for every container; the
     * out- and in-vectors receive exactly `OutSide(el)` and `InSide(el)`.
     */
    method Update(el: seq<Edge>)
      requires Valid() && D.EndpointsBelow(el, numNodesInit)
      modifies this
      ensures Valid() && property == old(property)
      ensures affected == D.MarkAffected(old(affected), el)
      ensures numNodes == old(numNodes) + D.NewNodes(el)
      ensures numEdges == old(numEdges) + 2 * |el|
      ensures outNeighbors == PC.Applied(old(outNeighbors), OutSide(el, directed), weighted)
      ensures inNeighbors == PC.Applied(old(inNeighbors), InSide(el, directed), weighted)
    {
      var i := 0;
      while i < |el|
        invariant 0 <= i <= |el| && Valid() && property == old(property)
        invariant affected == D.MarkAffected(old(affected), el[..i])
        invariant numNodes == old(numNodes) + D.NewNodes(el[..i])
        invariant numEdges == old(numEdges) + 2 * i
        invariant outNeighbors == PC.Applied(old(outNeighbors), OutSide(el[..i], directed), weighted)
        invariant inNeighbors == PC.Applied(old(inNeighbors), InSide(el[..i], directed), weighted)
      {
        D.MarkAffectedStep(old(affected), el, i);
        D.NewNodesStep(el, i);
        AppliedSidesStep(old(outNeighbors), old(inNeighbors), el, i, directed, weighted);
        UpdateEdge(el[i]);
        i := i + 1;
      }
      assert el[..i] == el;
    }

    /** One edge of `update`: `processMetaData` and `updateForExistingVertex` for the source, then for the destination. */
    method UpdateEdge(e: Edge)
      requires Valid() && 0 <= e.source < numNodesInit && 0 <= e.destination < numNodesInit
      modifies this`affected, this`numNodes, this`numEdges, this`outNeighbors, this`inNeighbors
      ensures Valid()
      ensures affected == old(affected)[e.source := true][e.destination := true]
      ensures numNodes == old(numNodes) + (if e.sourceExists then 0 else 1) + (if e.destExists then 0 else 1)
      ensures numEdges == old(numEdges) + 2
      ensures outNeighbors == PC.Applied(old(outNeighbors), OutSide([e], directed), weighted)
      ensures inNeighbors == PC.Applied(old(inNeighbors), InSide([e], directed), weighted)
    {
      ghost var outs0, ins0 := outNeighbors, inNeighbors;
      ProcessMetaData(e, true);
      UpdateForExistingVertex(e, true);
      ghost var outs1, ins1 := outNeighbors, inNeighbors;
      ProcessMetaData(e, false);
      UpdateForExistingVertex(e, false);
      EdgeSides(outs0, ins0, outs1, ins1, outNeighbors, inNeighbors, e, directed, weighted);
    }

    /** `out_degree(n)`: the length of n's out-vector, deleted entries included. */
    function OutDegree(n: int): (d: nat)
      requires Valid() && 0 <= n < numNodesInit
      reads this
      ensures NL.CountsNeighbours(outNeighbors[n], d)
    {
      NL.LengthCountsNeighbours(outNeighbors[n]);
      |outNeighbors[n]|
    }

    /** `in_degree(n)`: the length of n's in-vector when directed, of its out-vector otherwise. */
    function InDegree(n: int): (d: nat)
      requires Valid() && 0 <= n < numNodesInit
      reads this
      ensures NL.CountsNeighbours(if directed then inNeighbors[n] else outNeighbors[n], d)
      ensures !directed ==> d == OutDegree(n)
    {
      var l := if directed then inNeighbors[n] else outNeighbors[n];
      NL.LengthCountsNeighbours(l);
      |l|
    }
  }

  /**
   * After a batch on vectors without duplicate ids, each edge is visible
   * from both ends: its destination among its source's out-neighbours, its
   * source among its destination's in-neighbours (directed) or
   * out-neighbours (undirected); the vectors still hold no duplicate ids.
   */
  lemma UpdateHoldsEveryEdge(outs: seq<NL.List>, ins: seq<NL.List>, el: seq<Edge>, weighted: bool, directed: bool, i: nat)
    requires |outs| == |ins| && D.EndpointsBelow(el, |outs|) && i < |el|
    requires forall v :: 0 <= v < |outs| ==> NL.DistinctIds(outs[v]) && NL.DistinctIds(ins[v])
    ensures var o := PC.Applied(outs, OutSide(el, directed), weighted);
            var n := PC.Applied(ins, InSide(el, directed), weighted);
            && NL.Has(o[el[i].source], el[i].destination)
            && (directed ==> NL.Has(n[el[i].destination], el[i].source))
            && (!directed ==> NL.Has(o[el[i].destination], el[i].source))
            && (forall v :: 0 <= v < |outs| ==> NL.DistinctIds(o[v]) && NL.DistinctIds(n[v]))
  {
    var os := OutSide(el, directed);
    var ns := InSide(el, directed);
    SidesBelow(el, directed, |outs|);
    PC.AppliedHolds(outs, os, weighted);
    PC.AppliedHolds(ins, ns, weighted);
    SidesHoldEveryEdge(el, directed, i);
    var j :| 0 <= j < |os| && os[j] == el[i];
    if directed {
      var m :| 0 <= m < |ns| && ns[m] == Reverse(el[i]);
    } else {
      var m :| 0 <= m < |os| && os[m] == Reverse(el[i]);
    }
  }
}
