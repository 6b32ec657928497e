/**
 * `adListPerChunk<T>`: the adjacency lists of one partition of
 * `adListChunked`.  It holds a fixed number of neighbour vectors, indexed
 * by the vertex's index within its partition; `update` upserts each edge's
 * destination into its source's vector, reusing deleted (-1) entries.
 */
module AdListPerChunk {
  import opened Types
  import NL = NeighborList

  /** Every source of the batch indexes one of n neighbour vectors. */
  predicate SourcesBelow(el: seq<Edge>, n: nat)
  {
    forall i :: 0 <= i < |el| ==> 0 <= el[i].source < n
  }

  /**
   * The neighbour vectors after the edges of el are applied in order.  An
   * edge whose source indexes no vector (which `update`'s callers rule out)
   * is skipped.
   */
  function Applied(ls: seq<NL.List>, el: seq<Edge>, weighted: bool): (r: seq<NL.List>)
    ensures |r| == |ls|
  {
    if |el| == 0 then ls
    else
      var e := el[|el| - 1];
      var prev := Applied(ls, el[..|el| - 1], weighted);
      if 0 <= e.source < |prev| then
        prev[e.source := NL.Upserted(prev[e.source], Info(weighted, e.destination, e.weight))]
      else prev
  }

  lemma AppliedStep(ls: seq<NL.List>, el: seq<Edge>, i: nat, weighted: bool)
    requires SourcesBelow(el, |ls|) && i < |el|
    ensures var prev := Applied(ls, el[..i], weighted);
            Applied(ls, el[..i + 1], weighted)
              == prev[el[i].source := NL.Upserted(prev[el[i].source], Info(weighted, el[i].destination, el[i].weight))]
  {
    assert el[..i + 1][..i] == el[..i];
  }

  /** Applying one more edge after a sequence of them. */
  lemma AppliedSnoc(ls: seq<NL.List>, el: seq<Edge>, e: Edge, weighted: bool)
    requires 0 <= e.source < |ls|
    ensures var prev := Applied(ls, el, weighted);
            Applied(ls, el + [e], weighted)
              == prev[e.source := NL.Upserted(prev[e.source], Info(weighted, e.destination, e.weight))]
  {
    assert (el + [e])[..|el|] == el;
  }

  /** Applying two sequences of edges one after the other is applying their concatenation. */
  lemma {:induction false} AppliedAppend(ls: seq<NL.List>, a: seq<Edge>, b: seq<Edge>, weighted: bool)
    ensures Applied(ls, a + b, weighted) == Applied(Applied(ls, a, weighted), b, weighted)
    decreases |b|
  {
    if |b| == 0 {
      assert a + b == a;
    } else {
      assert (a + b)[..|a + b| - 1] == a + b[..|b| - 1];
      AppliedAppend(ls, a, b[..|b| - 1], weighted);
    }
  }

  /** A vertex that is no edge's source keeps its vector. */
  lemma {:induction false} AppliedElsewhere(ls: seq<NL.List>, el: seq<Edge>, weighted: bool, v: nat)
    requires SourcesBelow(el, |ls|) && v < |ls|
    requires forall i :: 0 <= i < |el| ==> el[i].source != v
    ensures Applied(ls, el, weighted)[v] == ls[v]
  {
    if |el| > 0 {
      AppliedElsewhere(ls, el[..|el| - 1], weighted, v);
    }
  }

  /**
   * After the batch, every edge's destination is a neighbour of its source,
   * every earlier neighbour is still there, and vectors without duplicate
   * ids still have none (destinations are real ids, not -1).
   */
  lemma {:induction false} AppliedHolds(ls: seq<NL.List>, el: seq<Edge>, weighted: bool)
    requires SourcesBelow(el, |ls|)
    requires forall i :: 0 <= i < |el| ==> el[i].destination != -1
    requires forall v :: 0 <= v < |ls| ==> NL.DistinctIds(ls[v])
    ensures var r := Applied(ls, el, weighted);
            && (forall v :: 0 <= v < |r| ==> NL.DistinctIds(r[v]))
            && (forall i :: 0 <= i < |el| ==> NL.Has(r[el[i].source], el[i].destination))
            && (forall v, y :: 0 <= v < |ls| && y != -1 && NL.Has(ls[v], y) ==> NL.Has(r[v], y))
  {
    if |el| > 0 {
      var init := el[..|el| - 1];
      var e := el[|el| - 1];
      var prev := Applied(ls, init, weighted);
      var x := Info(weighted, e.destination, e.weight);
      AppliedHolds(ls, init, weighted);
      NL.UpsertKeepsDistinct(prev[e.source], x);
      NL.UpsertedWrites(prev[e.source], x);
      var r := Applied(ls, el, weighted);
      assert r[e.source][NL.UpsertSlot(prev[e.source], x.node)] == x;
      forall i | 0 <= i < |el| ensures NL.Has(r[el[i].source], el[i].destination) {
        if i < |el| - 1 {
          assert el[i] == init[i];
          assert NL.Has(prev[init[i].source], init[i].destination);
        }
      }
    }
  }

  /** How many edges of el have source v. */
  function EdgesFrom(el: seq<Edge>, v: int): nat
  {
    if |el| == 0 then 0 else EdgesFrom(el[..|el| - 1], v) + (if el[|el| - 1].source == v then 1 else 0)
  }

  /**
   * `degree` after a batch: a vector never shrinks and grows by at most one
   * entry per edge of the vertex, so repeated and reinserted edges are not
   * double counted while deleted entries stay counted.
   */
  lemma {:induction false} AppliedDegreeBounds(ls: seq<NL.List>, el: seq<Edge>, weighted: bool, v: nat)
    requires SourcesBelow(el, |ls|) && v < |ls|
    ensures |ls[v]| <= |Applied(ls, el, weighted)[v]| <= |ls[v]| + EdgesFrom(el, v)
  {
    if |el| > 0 {
      var e := el[|el| - 1];
      var prev := Applied(ls, el[..|el| - 1], weighted);
      AppliedDegreeBounds(ls, el[..|el| - 1], weighted, v);
      NL.UpsertedWrites(prev[e.source], Info(weighted, e.destination, e.weight));
    }
  }

  class PerChunk {
    const weighted: bool
    const directed: bool
    /** `num_nodes_initialize`: how many vertices the partition serves. */
    const numNodesInit: nat
    var neighbors: seq<NL.List>

    /** `adListPerChunk(w, d, n)`: n empty neighbour vectors. */
    constructor (w: bool, d: bool, n: nat)
      ensures weighted == w && directed == d && numNodesInit == n
      ensures |neighbors| == n && forall v :: 0 <= v < n ==> neighbors[v] == []
    {
      weighted := w;
      directed := d;
      numNodesInit := n;
      neighbors := seq(n, _ => []);
    }

    /**
     * `updateForExistingVertex(e)`: the destination is upserted into the
     * source's vector; no other vector changes.
     */
    method UpdateForExistingVertex(e: Edge)
      requires 0 <= e.source < |neighbors|
      modifies this
      ensures neighbors == old(neighbors)[e.source := NL.Upserted(old(neighbors[e.source]), Info(weighted, e.destination, e.weight))]
    {
      var l := NL.Upsert(neighbors[e.source], Info(weighted, e.destination, e.weight));
      neighbors := neighbors[e.source := l];
    }

    /** `update(el)`: the edges in list order. */
    method Update(el: seq<Edge>)
      requires SourcesBelow(el, |neighbors|)
      modifies this
      ensures neighbors == Applied(old(neighbors), el, weighted)
    {
      var i := 0;
      while i < |el|
        invariant 0 <= i <= |el| && |neighbors| == |old(neighbors)|
        invariant neighbors == Applied(old(neighbors), el[..i], weighted)
      {
        AppliedStep(old(neighbors), el, i, weighted);
        UpdateForExistingVertex(el[i]);
        i := i + 1;
      }
      assert el[..i] == el;
    }

    /**
     * `degree(n)`: the length of n's vector, deleted (-1) entries included,
     * so it counts n's neighbours only when n's vector has no deleted entry.
     */
    function Degree(n: int): (d: nat)
      requires 0 <= n < |neighbors|
      reads this
      ensures NL.CountsNeighbours(neighbors[n], d)
    {
      NL.LengthCountsNeighbours(neighbors[n]);
      |neighbors[n]|
    }
  }
}
