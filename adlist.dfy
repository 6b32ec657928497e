/**
 * `adList<T>`: adjacency lists that grow by appending.  A vertex the batch
 * marks as new gets its `property`, `affected` flag and neighbour vectors
 * appended at the end, so the containers assume that vertex ids arrive in
 * order: a new vertex's id is the current number of vertices.  A known
 * vertex's vector is scanned for the neighbour, whose weight is
 * overwritten, and the neighbour is appended when it is missing; unlike
 * `adListShared` there is no deleted (-1) slot to reuse.
 */
module AdList {
  import opened Types
  import NL = NeighborList
  import D = DataStruc

  /** The fields of an `adList`, as one value. */
  datatype Lists = Lists(numNodes: int, numEdges: int, property: seq<real>, affected: seq<bool>,
                         outs: seq<NL.List>, ins: seq<NL.List>)

  /** The endpoint one side of `update` handles, and the neighbour it records for it. */
  function Endpoint(e: Edge, source: bool): int { if source then e.source else e.destination }
  function Other(e: Edge, source: bool): int { if source then e.destination else e.source }
  function Known(e: Edge, source: bool): bool { if source then e.sourceExists else e.destExists }

  /** One vertex per entry of every per-vertex sequence; `in_neighbors` keeps pace when directed. */
  predicate Shaped(s: Lists, directed: bool)
  {
    && s.numNodes == |s.outs| && |s.property| == |s.outs| && |s.affected| == |s.outs|
    && (directed ==> |s.ins| == |s.outs|)
  }

  /**
   * `vertexExists(e, source)`: one more edge end; a known endpoint is
   * flagged in place, a new one adds a vertex and appends its flag.
   */
  function AfterExists(s: Lists, e: Edge, source: bool): Lists
  {
    var v := Endpoint(e, source);
    if Known(e, source) then
      s.(numEdges := s.numEdges + 1,
         affected := if 0 <= v < |s.affected| then s.affected[v := true] else s.affected)
    else
      s.(numNodes := s.numNodes + 1, numEdges := s.numEdges + 1, affected := s.affected + [true])
  }

  /**
   * `updateForNewVertex(e, source)`: `property` gets -1; the vertex's
   * vector on the side the edge lands (out for the source or an undirected
   * destination, in for a directed destination) holds just the neighbour,
   * and, when directed, the other side gets an empty vector.
   */
  function AfterNewVertex(s: Lists, e: Edge, source: bool, weighted: bool, directed: bool): Lists
  {
    var x := Info(weighted, Other(e, source), e.weight);
    if source || !directed then
      s.(property := s.property + [-1.0], outs := s.outs + [[x]],
         ins := if directed then s.ins + [[]] else s.ins)
    else
      s.(property := s.property + [-1.0], ins := s.ins + [[x]], outs := s.outs + [[]])
  }

  /**
   * `updateForExistingVertex(e, source)`: the neighbour is overwritten or
   * appended in the endpoint's out-vector (source side, or undirected
   * destination side) or in-vector (directed destination side).  An
   * endpoint with no vector, which `update`'s callers rule out, changes
   * nothing.
   */
  function AfterExistingVertex(s: Lists, e: Edge, source: bool, weighted: bool, directed: bool): Lists
  {
    var v := Endpoint(e, source);
    var x := Info(weighted, Other(e, source), e.weight);
    if source || !directed then
      if 0 <= v < |s.outs| then s.(outs := s.outs[v := NL.Overwritten(s.outs[v], x)]) else s
    else
      if 0 <= v < |s.ins| then s.(ins := s.ins[v := NL.Overwritten(s.ins[v], x)]) else s
  }

  /** One side of one edge of `update`: `vertexExists`, then the new- or existing-vertex update. */
  function AfterEnd(s: Lists, e: Edge, source: bool, weighted: bool, directed: bool): Lists
  {
    var t := AfterExists(s, e, source);
    if Known(e, source) then AfterExistingVertex(t, e, source, weighted, directed)
    else AfterNewVertex(t, e, source, weighted, directed)
  }

  /** The state after a batch: per edge in order, its source side and then its destination side. */
  function Batch(s: Lists, el: seq<Edge>, weighted: bool, directed: bool): Lists
  {
    if |el| == 0 then s
    else
      var e := el[|el| - 1];
      AfterEnd(AfterEnd(Batch(s, el[..|el| - 1], weighted, directed), e, true, weighted, directed), e, false, weighted, directed)
  }

  lemma BatchStep(s: Lists, el: seq<Edge>, i: nat, weighted: bool, directed: bool)
    requires i < |el|
    ensures Batch(s, el[..i + 1], weighted, directed)
              == AfterEnd(AfterEnd(Batch(s, el[..i], weighted, directed), el[i], true, weighted, directed), el[i], false, weighted, directed)
  {
    assert el[..i + 1][..i] == el[..i];
  }

  /**
   * The vertex count an edge meets: known endpoints are below it; the
   * destination is checked after the source side may have added a vertex.
   */
  predicate EdgeKnownBelow(e: Edge, m: int)
  {
    var m' := m + (if e.sourceExists then 0 else 1);
    && (e.sourceExists ==> 0 <= e.source < m)
    && (e.destExists ==> 0 <= e.destination < m')
  }

  /** Every known endpoint of the batch already has its vectors when `update` reaches it. */
  predicate KnownBelow(el: seq<Edge>, n: nat)
  {
    forall i :: 0 <= i < |el| ==> EdgeKnownBelow(el[i], n + D.NewNodes(el[..i]))
  }

  /** Besides, every new endpoint's id is the number of vertices so far, as the file reader assigns them. */
  predicate EdgeNumbered(e: Edge, m: int)
  {
    var m' := m + (if e.sourceExists then 0 else 1);
    && EdgeKnownBelow(e, m)
    && (!e.sourceExists ==> e.source == m)
    && (!e.destExists ==> e.destination == m')
  }

  predicate Numbered(el: seq<Edge>, n: nat)
  {
    forall i :: 0 <= i < |el| ==> EdgeNumbered(el[i], n + D.NewNodes(el[..i]))
  }

  /**
   * Each side of each edge keeps the shape: a new endpoint adds one entry
   * to every per-vertex sequence and one to `num_nodes`; every side adds
   * one to `num_edges`.
   */
  lemma AfterEndShape(s: Lists, e: Edge, source: bool, weighted: bool, directed: bool)
    requires Shaped(s, directed)
    ensures var t := AfterEnd(s, e, source, weighted, directed);
            && Shaped(t, directed)
            && t.numNodes == s.numNodes + (if Known(e, source) then 0 else 1)
            && t.numEdges == s.numEdges + 1
            && (!directed ==> t.ins == s.ins)
  {
  }

  /**
   * After a batch the shape still holds, with one vertex per new endpoint
   * and two edge ends per edge.
   */
  lemma {:induction false} BatchShape(s: Lists, el: seq<Edge>, weighted: bool, directed: bool)
    requires Shaped(s, directed)
    ensures var t := Batch(s, el, weighted, directed);
            && Shaped(t, directed)
            && t.numNodes == s.numNodes + D.NewNodes(el)
            && t.numEdges == s.numEdges + 2 * |el|
            && (!directed ==> t.ins == s.ins)
  {
    if |el| > 0 {
      var e := el[|el| - 1];
      var p := Batch(s, el[..|el| - 1], weighted, directed);
      BatchShape(s, el[..|el| - 1], weighted, directed);
      AfterEndShape(p, e, true, weighted, directed);
      AfterEndShape(AfterEnd(p, e, true, weighted, directed), e, false, weighted, directed);
    }
  }

  /** Vertex v's out-vector holds neighbour y. */
  predicate OutHas(s: Lists, v: int, y: int)
  {
    0 <= v < |s.outs| && NL.Has(s.outs[v], y)
  }

  /** Vertex v's in-vector holds neighbour y. */
  predicate InHas(s: Lists, v: int, y: int)
  {
    0 <= v < |s.ins| && NL.Has(s.ins[v], y)
  }

  /** Edge e is visible from both ends: from its source's out-vector and from its destination's in-vector (directed) or out-vector (undirected). */
  predicate Sees(s: Lists, e: Edge, directed: bool)
  {
    && OutHas(s, e.source, e.destination)
    && (if directed then InHas(s, e.destination, e.source) else OutHas(s, e.destination, e.source))
  }

  /** No vector holds an id twice. */
  predicate Distinct(s: Lists)
  {
    && (forall v :: 0 <= v < |s.outs| ==> NL.DistinctIds(s.outs[v]))
    && (forall v :: 0 <= v < |s.ins| ==> NL.DistinctIds(s.ins[v]))
  }

  /** Everything visible before a step is still visible after it, and every flag raised stays raised. */
  ghost predicate Keeps(s: Lists, t: Lists)
  {
    && (forall v, y :: OutHas(s, v, y) ==> OutHas(t, v, y))
    && (forall v, y :: InHas(s, v, y) ==> InHas(t, v, y))
    && (forall v :: 0 <= v < |s.affected| && s.affected[v] ==> v < |t.affected| && t.affected[v])
  }

  /** Seeing something is kept along two steps. */
  lemma KeepsTrans(s: Lists, t: Lists, u: Lists)
    requires Keeps(s, t) && Keeps(t, u)
    ensures Keeps(s, u)
  {
  }

  /** `vertexExists` touches no vector and flags the endpoint, keeping every raised flag. */
  lemma ExistsFlags(s: Lists, e: Edge, source: bool)
    requires Known(e, source) ==> 0 <= Endpoint(e, source) < |s.affected|
    requires !Known(e, source) ==> Endpoint(e, source) == |s.affected|
    ensures var t := AfterExists(s, e, source);
            && t.outs == s.outs && t.ins == s.ins && Keeps(s, t)
            && t.affected[Endpoint(e, source)]
  {
  }

  /** Overwriting a real neighbour into a vector keeps ids distinct and every visible neighbour, and makes it visible. */
  lemma ExistingVertexSees(s: Lists, e: Edge, source: bool, weighted: bool, directed: bool)
    requires Distinct(s) && Other(e, source) != -1
    requires source || !directed ==> 0 <= Endpoint(e, source) < |s.outs|
    requires !source && directed ==> 0 <= Endpoint(e, source) < |s.ins|
    ensures var t := AfterExistingVertex(s, e, source, weighted, directed);
            && Distinct(t) && Keeps(s, t) && t.affected == s.affected
            && (source || !directed ==> OutHas(t, Endpoint(e, source), Other(e, source)))
            && (!source && directed ==> InHas(t, Endpoint(e, source), Other(e, source)))
  {
    var v := Endpoint(e, source);
    var x := Info(weighted, Other(e, source), e.weight);
    var t := AfterExistingVertex(s, e, source, weighted, directed);
    if source || !directed {
      NL.OverwriteKeepsDistinct(s.outs[v], x);
      assert t.outs == s.outs[v := NL.Overwritten(s.outs[v], x)] && t.ins == s.ins;
      assert OutHas(t, v, x.node);
    } else {
      NL.OverwriteKeepsDistinct(s.ins[v], x);
      assert t.ins == s.ins[v := NL.Overwritten(s.ins[v], x)] && t.outs == s.outs;
      assert InHas(t, v, x.node);
    }
  }

  /** A new vertex's vectors are appended at its own id: nothing visible is lost and the neighbour becomes visible. */
  lemma NewVertexSees(s: Lists, e: Edge, source: bool, weighted: bool, directed: bool)
    requires Distinct(s) && (directed ==> |s.ins| == |s.outs|)
    requires Endpoint(e, source) == |s.outs|
    ensures var t := AfterNewVertex(s, e, source, weighted, directed);
            && Distinct(t) && Keeps(s, t) && t.affected == s.affected
            && (source || !directed ==> OutHas(t, Endpoint(e, source), Other(e, source)))
            && (!source && directed ==> InHas(t, Endpoint(e, source), Other(e, source)))
  {
    var v := Endpoint(e, source);
    var x := Info(weighted, Other(e, source), e.weight);
    var t := AfterNewVertex(s, e, source, weighted, directed);
    if source || !directed {
      assert t.outs[v] == [x] && t.outs[v][0].node == x.node;
      assert forall u :: 0 <= u < |s.outs| ==> t.outs[u] == s.outs[u];
      assert forall u :: 0 <= u < |s.ins| ==> t.ins[u] == s.ins[u];
    } else {
      assert t.ins[v] == [x] && t.ins[v][0].node == x.node;
      assert forall u :: 0 <= u < |s.outs| ==> t.outs[u] == s.outs[u];
      assert forall u :: 0 <= u < |s.ins| ==> t.ins[u] == s.ins[u];
    }
  }

  /**
   * One side of an edge whose endpoint is numbered as `update` expects
   * keeps ids distinct and everything already visible, records the
   * neighbour on that side, and flags the endpoint.
   */
  lemma AfterEndSees(s: Lists, e: Edge, source: bool, weighted: bool, directed: bool)
    requires Shaped(s, directed) && Distinct(s) && Other(e, source) != -1
    requires Known(e, source) ==> 0 <= Endpoint(e, source) < |s.outs|
    requires !Known(e, source) ==> Endpoint(e, source) == |s.outs|
    ensures var t := AfterEnd(s, e, source, weighted, directed);
            && Distinct(t) && Keeps(s, t)
            && (source || !directed ==> OutHas(t, Endpoint(e, source), Other(e, source)))
            && (!source && directed ==> InHas(t, Endpoint(e, source), Other(e, source)))
            && t.affected[Endpoint(e, source)]
  {
    var m := AfterExists(s, e, source);
    ExistsFlags(s, e, source);
    if Known(e, source) {
      ExistingVertexSees(m, e, source, weighted, directed);
      KeepsTrans(s, m, AfterExistingVertex(m, e, source, weighted, directed));
    } else {
      NewVertexSees(m, e, source, weighted, directed);
      KeepsTrans(s, m, AfterNewVertex(m, e, source, weighted, directed));
    }
  }

  /** Every edge of el is visible in t and has both endpoints flagged. */
  ghost predicate SeesAll(t: Lists, el: seq<Edge>, directed: bool)
  {
    forall i :: 0 <= i < |el| ==> Sees(t, el[i], directed) && EndsFlagged(t, el[i])
  }

  predicate EndsFlagged(t: Lists, e: Edge)
  {
    0 <= e.source < |t.affected| && 0 <= e.destination < |t.affected| && t.affected[e.source] && t.affected[e.destination]
  }

  /** Sees and flags survive steps that keep everything. */
  lemma KeepsSees(p: Lists, t: Lists, e: Edge, directed: bool)
    requires Keeps(p, t) && Sees(p, e, directed) && EndsFlagged(p, e)
    ensures Sees(t, e, directed) && EndsFlagged(t, e)
  {
  }

  lemma SeesAllSnoc(p: Lists, t: Lists, el: seq<Edge>, directed: bool)
    requires |el| > 0 && SeesAll(p, el[..|el| - 1], directed) && Keeps(p, t)
    requires Sees(t, el[|el| - 1], directed) && EndsFlagged(t, el[|el| - 1])
    ensures SeesAll(t, el, directed)
  {
    forall i | 0 <= i < |el| - 1 ensures Sees(t, el[i], directed) && EndsFlagged(t, el[i]) {
      assert el[..|el| - 1][i] == el[i];
      KeepsSees(p, t, el[i], directed);
    }
  }

  lemma NumberedInit(el: seq<Edge>, n: nat)
    requires |el| > 0 && Numbered(el, n)
    ensures Numbered(el[..|el| - 1], n) && EdgeNumbered(el[|el| - 1], n + D.NewNodes(el[..|el| - 1]))
  {
    var init := el[..|el| - 1];
    forall i | 0 <= i < |init| ensures EdgeNumbered(init[i], n + D.NewNodes(init[..i])) {
      assert init[..i] == el[..i];
    }
  }

  /** Both sides of one numbered edge: the edge becomes visible from both ends and both endpoints flagged. */
  lemma EdgeSees(p: Lists, e: Edge, weighted: bool, directed: bool)
    requires Shaped(p, directed) && Distinct(p) && EdgeNumbered(e, |p.outs|)
    ensures var t := AfterEnd(AfterEnd(p, e, true, weighted, directed), e, false, weighted, directed);
            && Distinct(t) && Keeps(p, t) && Sees(t, e, directed) && EndsFlagged(t, e)
  {
    AfterEndSees(p, e, true, weighted, directed);
    AfterEndShape(p, e, true, weighted, directed);
    var q := AfterEnd(p, e, true, weighted, directed);
    AfterEndSees(q, e, false, weighted, directed);
    var t := AfterEnd(q, e, false, weighted, directed);
    KeepsTrans(p, q, t);
    AfterEndShape(q, e, false, weighted, directed);
  }

  /**
   * The container's promise for a batch whose ids arrive as `update`
   * expects: afterwards every edge of the batch is visible from both ends
   * and both its endpoints are flagged, nothing visible before is lost,
   * and no vector holds an id twice.
   */
  lemma {:induction false} BatchSees(s: Lists, el: seq<Edge>, weighted: bool, directed: bool)
    requires Shaped(s, directed) && Distinct(s) && Numbered(el, |s.outs|)
    ensures var t := Batch(s, el, weighted, directed);
            && Distinct(t) && Keeps(s, t) && SeesAll(t, el, directed)
  {
    if |el| > 0 {
      var init := el[..|el| - 1];
      NumberedInit(el, |s.outs|);
      BatchSees(s, init, weighted, directed);
      BatchShape(s, init, weighted, directed);
      var p := Batch(s, init, weighted, directed);
      EdgeSees(p, el[|el| - 1], weighted, directed);
      var t := Batch(s, el, weighted, directed);
      KeepsTrans(s, p, t);
      SeesAllSnoc(p, t, el, directed);
    }
  }

  class AdList {
    const weighted: bool
    const directed: bool
    var numNodes: int
    var numEdges: int
    var property: seq<real>
    var affected: seq<bool>
    var outNeighbors: seq<NL.List>
    var inNeighbors: seq<NL.List>

    /** The fields as one value. */
    function State(): Lists
      reads this
    {
      Lists(numNodes, numEdges, property, affected, outNeighbors, inNeighbors)
    }

    ghost predicate Valid()
      reads this
    {
      Shaped(State(), directed)
    }

    /** `adList(w, d)`: no vertex, no edge. */
    constructor (w: bool, d: bool)
      ensures Valid() && weighted == w && directed == d
      ensures State() == Lists(0, 0, [], [], [], [])
    {
      weighted := w;
      directed := d;
      numNodes := 0;
      numEdges := 0;
      property := [];
      affected := [];
      outNeighbors := [];
      inNeighbors := [];
    }

    /** `vertexExists(e, source)`: reports the endpoint's exists flag and counts it. */
    method VertexExists(e: Edge, source: bool) returns (known: bool)
      requires Known(e, source) ==> 0 <= Endpoint(e, source) < |affected|
      modifies this`numNodes, this`numEdges, this`affected
      ensures known == Known(e, source)
      ensures State() == AfterExists(old(State()), e, source)
    {
      known := if source then e.sourceExists else e.destExists;
      if known {
        numEdges := numEdges + 1;
        if source {
          affected := affected[e.source := true];
        } else {
          affected := affected[e.destination := true];
        }
      } else {
        numNodes := numNodes + 1;
        numEdges := numEdges + 1;
        affected := affected + [true];
      }
    }

    /** `updateForNewVertex(e, source)`. */
    method UpdateForNewVertex(e: Edge, source: bool)
      modifies this`property, this`outNeighbors, this`inNeighbors
      ensures State() == AfterNewVertex(old(State()), e, source, weighted, directed)
    {
      property := property + [-1.0];
      if source || (!source && !directed) {
        var neighbor := Info(weighted, if source then e.destination else e.source, e.weight);
        outNeighbors := outNeighbors + [[neighbor]];
        if directed {
          inNeighbors := inNeighbors + [[]];
        }
      } else if !source && directed {
        var neighbor := Info(weighted, e.source, e.weight);
        inNeighbors := inNeighbors + [[neighbor]];
        outNeighbors := outNeighbors + [[]];
      }
    }

    /** `updateForExistingVertex(e, source)`: the scan of `NL.Overwrite` on the vector the side lands in. */
    method UpdateForExistingVertex(e: Edge, source: bool)
      requires source || !directed ==> 0 <= Endpoint(e, source) < |outNeighbors|
      requires !source && directed ==> 0 <= Endpoint(e, source) < |inNeighbors|
      modifies this`outNeighbors, this`inNeighbors
      ensures State() == AfterExistingVertex(old(State()), e, source, weighted, directed)
    {
      var index := if source then e.source else e.destination;
      if source || (!source && !directed) {
        var dest := if source then e.destination else e.source;
        var l := NL.Overwrite(outNeighbors[index], Info(weighted, dest, e.weight));
        outNeighbors := outNeighbors[index := l];
      } else {
        var l := NL.Overwrite(inNeighbors[index], Info(weighted, e.source, e.weight));
        inNeighbors := inNeighbors[index := l];
      }
    }

    /** One side of one edge of `update`. */
    method UpdateEnd(e: Edge, source: bool)
      requires Valid() && (Known(e, source) ==> 0 <= Endpoint(e, source) < numNodes)
      modifies this`numNodes, this`numEdges, this`affected, this`property, this`outNeighbors, this`inNeighbors
      ensures Valid()
      ensures State() == AfterEnd(old(State()), e, source, weighted, directed)
    {
      AfterEndShape(State(), e, source, weighted, directed);
      var known := VertexExists(e, source);
      if !known {
        UpdateForNewVertex(e, source);
      } else {
        UpdateForExistingVertex(e, source);
      }
    }

    /** One edge of `update`: its source side, then its destination side. */
    method UpdateEdge(e: Edge)
      requires Valid() && EdgeKnownBelow(e, numNodes)
      modifies this`numNodes, this`numEdges, this`affected, this`property, this`outNeighbors, this`inNeighbors
      ensures Valid()
      ensures State() == AfterEnd(AfterEnd(old(State()), e, true, weighted, directed), e, false, weighted, directed)
      ensures numNodes == old(numNodes) + (if e.sourceExists then 0 else 1) + (if e.destExists then 0 else 1)
    {
      UpdateEnd(e, true);
      UpdateEnd(e, false);
    }

    /**
     * `update(el)`: per edge in order, the source side and then the
     * destination side; the state afterwards is `Batch`.
     */
    method Update(el: seq<Edge>)
      requires Valid() && KnownBelow(el, numNodes)
      modifies this`numNodes, this`numEdges, this`affected, this`property, this`outNeighbors, this`inNeighbors
      ensures Valid()
      ensures State() == Batch(old(State()), el, weighted, directed)
    {
      var i := 0;
      while i < |el|
        invariant 0 <= i <= |el| && Valid()
        invariant State() == Batch(old(State()), el[..i], weighted, directed)
        invariant numNodes == old(numNodes) + D.NewNodes(el[..i])
      {
        BatchStep(old(State()), el, i, weighted, directed);
        D.NewNodesStep(el, i);
        assert EdgeKnownBelow(el[i], numNodes);
        UpdateEdge(el[i]);
        i := i + 1;
      }
      assert el[..i] == el;
    }

    /** `out_degree(n)`: the length of n's out-vector. */
    function OutDegree(n: int): (d: nat)
      requires Valid() && 0 <= n < numNodes
      reads this
      ensures NL.CountsNeighbours(outNeighbors[n], d)
    {
      NL.LengthCountsNeighbours(outNeighbors[n]);
      |outNeighbors[n]|
    }

    /** `in_degree(n)`: the length of n's in-vector when directed, of its out-vector otherwise. */
    function InDegree(n: int): (d: nat)
      requires Valid() && 0 <= n < numNodes
      reads this
      ensures NL.CountsNeighbours(if directed then inNeighbors[n] else outNeighbors[n], d)
      ensures !directed ==> d == OutDegree(n)
    {
      var l := if directed then inNeighbors[n] else outNeighbors[n];
      NL.LengthCountsNeighbours(l);
      |l|
    }
  }
}
